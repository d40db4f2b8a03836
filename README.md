# runbot, modelled in Dafny

runbot is Odoo's continuous-integration system. Its orchestration core groups the
commits of a bundle of branches into **batches** and gives each **trigger** of a
project a **slot**. It creates or reuses a **build** for each slot. A build runs
through the **steps** of its config. It aggregates its state and result over its
children, is killed, rebuilt or woken up on request, and is eventually
garbage-collected. Build logs are classified into **build errors**.

Two bots sit beside it:
- The **merge bot** (runbot_merge) stages pull requests. It reads commands addressed to
  it in comments and freezes a project by creating a release branch.
- The **forward-port bot** (forwardport) ports merged pull requests to the next branch
  of the project. It handles its own commands and reminds authors of forward-ports
  still open.

This project models that core as Dafny modules, one per component:

| module | file | models |
|---|---|---|
| `BuildOrder` | build_order.dfy | the result and state orders, worst-of combination, `result_multi` |
| `BuildTree` | build_tree.dfy | global state and global result of a build tree, as pure functions |
| `Builds` | builds.dfy | the build store (a class over a parent-linked tree): params lookup-or-insert, the write guard, kill, ask-kill, rebuild, wake-up, requested actions, the scheduler, port allocation |
| `BuildSteps` | build_steps.dfy | step progression (`_next_job_values`) and the grace window of `_schedule` |
| `BuildGc` | build_gc.dfy | the garbage-collection date and `_filter_to_clean`, build age |
| `BuildModules` | build_modules.dfy | module pattern filtering (`_get_modules_to_test`) |
| `BatchLinks`, `BatchSources`, `Batches` | batch_links.dfy, batch_sources.dfy, batches.dfy | batches: commit links, the fallback chain that fills missing repositories, trigger slots, build reuse, the skip cascade, state transitions, ahead/behind and numstat parsing |
| `BuildErrors` | build_errors.dfy | error classification: regex cleaning, teams, test tags, linking, `active` propagation, log grouping |
| `EventLog` | event_log.dfy | the logging trigger's counter state machine and known-error linking |
| `Upgrade` | upgrade.dfy | upgrade-exception strings |
| `Cla` | cla.dfy | the CLA check step |
| `MergeProject` | merge_project.dfy | the next freeze name, command matching, the staging selection loops |
| `Freeze` | freeze.dfy | the freeze wizard: validation, resequencing, retargeting, branch creation and clean-up |
| `Partners` | partners.dfy | commit e-mails, e-mail fetching and login merging |
| `ForwardPort` | forward_port.dfy | forward-port ordering, next target, ancestry, branch-insertion detection |
| `ForwardPortCommands` | fp_commands.dfy | the forward-port bot's comment commands |
| `PortForward` | fp_port.dfy | the checks `_port_forward` makes before porting a batch |
| `Reminders` | fp_reminder.dfy | outstanding forward-ports and the reminder back-off |
| `GitOptions` | git_options.dfy | git keyword options and `_clean_rename` |
| `Wrappers`, `Text`, `Sorting` | wrappers.dfy, text.dfy, sorting.dfy | Option/Result, string helpers, a stable sort |

Where the source updates records in place, the model has a class whose methods
modify its fields. Examples are the build store, a batch, the error table, the
logging table, the freeze project, the partner directory and the reminder
back-off. Each method's postcondition ties the new state to a specification
function, and lemmas prove what the source promises about those functions.
Pure rules are functions with lemmas.

Abstract inputs replace the database, git, docker, GitHub and the clock:
- git outputs are strings passed in;
- regex matching, `fnmatch`, `parseaddr` and `safe_eval` domains are functions passed in;
- GitHub answers are functions of the repository;
- container state and times are integers passed in.

SHA-256 fingerprints are modelled by the hashed value itself, an injective
fingerprint.

## Model

| member | source | states |
|---|---|---|
| BuildOrder.ResultAt | runbot/models/build.py:25 | the i-th entry of `result_order` has score i |
| BuildOrder.ScoresAreTotalOrders | runbot/models/build.py:25-26 | `result_order` and `state_order` are total orders: the score is injective and the result at a result's score is that result |
| BuildOrder.MaxScore | runbot/models/build.py:300-302 | the highest score among the set entries bounds every set entry, is attained by one of them, and is 0 when none is set |
| BuildOrder.WorstResult | runbot/models/build.py:300-305 | `_get_worst_result` ignores unset entries, is at least as severe as every entry (every entry capped when a cap is given), never exceeds the cap, and is 'ok' or no more severe than some set entry, so it is exactly the most severe entry, capped |
| BuildOrder.CapIsOnlyABound | runbot/models/build.py:303-304 | `[warn]` capped at ko gives warn: the cap bounds the result and is not returned for its own sake |
| BuildOrder.CappedWorstEntry | runbot/models/build.py:300-304 | a capped worst result other than 'ok' is one of the set entries, capped |
| BuildOrder.WorstOfNothingIsOk | runbot/models/build.py:300-302 | with no entry set the worst result is 'ok', with or without a cap |
| BuildOrder.KeepsNewResultIffNotLessSevere | runbot/models/build.py:334-335 | the write guard keeps an incoming `local_result` exactly when there is no current result or the incoming one is at least as severe |
| BuildOrder.YoungestState | runbot/models/build.py:274-276 | `_get_youngest_state` returns one of the states, and it is at or below every one of them in `state_order` |
| BuildOrder.ResultMultiReportsWarnAsKo | runbot/models/build.py:362-371 | no stored result is named 'warning', so as written a group whose worst result is 'warn' is reported as 'ko' |
| BuildOrder.ResultMultiIsCollapsedWorst | runbot/models/build.py:362-371 | `result_multi` comparing with 'warn' reports the worst result of the group, with skipped/killed/manually_killed merged into 'killed' |
| BuildTree.GlobalState | runbot/models/build.py:235-247 | `global_state` is either `local_state` or 'waiting', and is `local_state` whenever that is not past 'waiting' |
| BuildTree.GlobalStateWaitsForChildren | runbot/models/build.py:235-247 | `global_state` differs from `local_state` exactly when `local_state` is past 'waiting' and some non-orphan child's `global_state` is at or below 'waiting' |
| BuildTree.GlobalResult | runbot/models/build.py:281-298 | a local result of ko or worse is reported as is; otherwise the global result is never less severe than the local one, and exceeds ko only when the local result does |
| BuildTree.GlobalResultCoversChildren | runbot/models/build.py:281-295 | below ko, the global result is set and at least as severe as every counting child's global result capped at ko |
| BuildTree.GlobalResultComesFromChildren | runbot/models/build.py:281-298 | below ko, the global result is the local result, 'ok', or some counting child's global result capped at ko |
| BuildTree.SettledBuildHasSettledDescendants | runbot/models/build.py:235-247 | a build whose `global_state` is running or done has every descendant reached through non-orphan children running or done, both locally and globally |
| BuildTree.AggregatesOutsideSubtree | runbot/models/build.py:235-298 | changing one build's record, parent link and orphan flag kept, changes neither aggregate of any build that is not its ancestor |
| BuildTree.OrphanChildNeverAffectsParent | runbot/models/build.py:238-287 | whatever happens to an orphan child's record, its parent's `global_state` and `global_result` stay the same |
| BuildSteps.StepIndex | runbot/models/build.py:1084 | `step_ids.index(active_step)` is the first position holding the active step |
| BuildSteps.FirstEligible | runbot/models/build.py:1086-1100 | the first step at or after a position whose domain filter accepts the build, every step skipped before it being rejected |
| BuildSteps.NextJobValues | runbot/models/build.py:1069-1102 | no steps, or no active step on a build that is not pending, gives done without step; an active step missing from the config gives done with the worst of the local result and ko; otherwise the first step after the current one that passes its domain filter becomes active with its own state, and none left gives done |
| BuildSteps.GraceWindow | runbot/models/build.py:690-714 | a build is killed for time exactly when its container runs, it is not running and its job time exceeds the cpu limit or the runbot timeout; a running container is never closed; a container that is not visible is waited for only while less than 60 seconds have passed since it was started; an ended container always closes the step |
| BuildSteps.WakeUpRunStep | runbot/models/build.py:655-658 | on wake-up the last step is run again exactly when it is a 'running' step, otherwise the default run step |
| Builds.FingerprintIdentifies | runbot/models/build.py:77-98 | two params share a fingerprint exactly when they agree on every hashed value and, for a batch-dependent trigger, on the create batch |
| Builds.FingerprintAsWrittenConflates | runbot/models/build.py:79-98 | with line 96 read inside the `if`, params of a batch-independent trigger that differ get the same (missing) fingerprint, which the intended reading tells apart |
| Builds.Detached | runbot/models/build.py:472-478 | each slot attached to the rebuilt build is deactivated and every other slot is unchanged |
| Builds.RebuildCopies | runbot/models/build.py:472-478 | the copied slots all point at the new build, with link type 'rebuild', active |
| Builds.RebuildCopiesCount | runbot/models/build.py:472-478 | a rebuild copies exactly as many slots as were attached to the old build |
| Builds.WriteNeverLowers | runbot/models/build.py:328-344 | a write that passed the guard never leaves a build with a less severe `local_result` than before |
| Builds.GuardNeverLowers | runbot/models/build.py:333-337 | a single-build write never lowers the result, writes every other value as given, and a changed result is the incoming one |
| Builds.AfterKill | runbot/models/build.py:914-929 | a killed build is done, without requested action or active step, with its job end now, `build_end` now only when it was unset, and the kill result only when the write guard lets it through; nothing else changes |
| Builds.KillIsIdempotent | runbot/models/build.py:914-929 | killing a build twice at the same instant is the same as killing it once |
| Builds.KillNeverLowers | runbot/models/build.py:914-929 | killing never makes a result less severe, and a build without a result gets the kill result |
| Builds.AskKilledSubtree | runbot/models/build.py:931-950 | after `_ask_kill` no build of the subtree is pending; pending ones are done and skipped (unless a worse result was set), testing and running ones are on deathrow in the same state, waiting and done ones are untouched |
| Builds.AskKillOneEffect | runbot/models/build.py:946-949 | what `_ask_kill` does to one build, by its state |
| Builds.RebuildOf | runbot/models/build.py:438-455 | the rebuild is a pending build of type 'rebuild' on the same params and parent, with the host only when it is kept, and the description only for a child |
| Builds.SettledTrans | runbot/models/build.py:629-670 | processing the requested action of a build again does not undo what a first pass settled |
| Builds.CloseValues | runbot/models/build.py:715-739 | the values written when a job closes never clear the result, leave `build_end` alone and set the next step's state |
| Builds.BuildStore.constructor | runbot/models/build.py:118 | an empty store of builds, slots and params |
| Builds.BuildStore.FindParams | runbot/models/build.py:111-112 | `_find_existing` returns the first params row with the fingerprint, and none exactly when no row has it |
| Builds.BuildStore.CreateParams | runbot/models/build.py:104-109 | creating params whose fingerprint exists returns the existing row and inserts nothing; otherwise a new row with that fingerprint is appended |
| Builds.BuildStore.WriteParams | runbot/models/build.py:114-115 | any write to params is refused |
| Builds.BuildStore.Write | runbot/models/build.py:328-344 | a write of several builds is refused (nothing written) exactly when some build would get a less severe `local_result`; a single-build write drops that result and writes the rest; no result is ever lowered |
| Builds.BuildStore.WriteGuard | runbot/models/build.py:334-340 | the guard loop passes a write exactly when it names at most one build or no build would get a less severe `local_result`, and marks the result to drop exactly when the single build would |
| Builds.BuildStore.WriteOne | runbot/models/build.py:333-337 | a single-build write changes only that build, drops a lowering result, and lowers nothing |
| Builds.BuildStore.KillOne | runbot/models/build.py:914-929 | `_kill` on one build stops it only when it runs on this host and changes nothing else |
| Builds.BuildStore.Kill | runbot/models/build.py:914-929 | `_kill` applies the kill to exactly the given builds that run on this host, leaves every other build as it was, and lowers no result |
| Builds.BuildStore.AskKill | runbot/models/build.py:931-950 | `_ask_kill` applies the one-build rule to the build and every descendant, orphans included, changes nothing outside the subtree, and lowers no result |
| Builds.BuildStore.AskKillSelf | runbot/models/build.py:946-949 | the build itself is skipped when pending or put on deathrow when testing or running, and nothing else changes |
| Builds.BuildStore.UpdateBuildEnd | runbot/models/build.py:373-377 | `build_end` is stamped on the build and on each ancestor reached while the parent is running or done, and on no other build |
| Builds.BuildStore.FindPort | runbot/models/build.py:573-585 | the port is the first one from the starting port, in steps of 3, not used by a live build of this host |
| Builds.BuildStore.AskWakeUp | runbot/models/build.py:952-956 | a wake-up is requested exactly when the build is done, and nothing else changes |
| Builds.BuildStore.KillRequested | runbot/models/build.py:631-636 | a deathrow build is killed as 'manually_killed' unless it is running or its global result is warn or ko, in which case it keeps its result |
| Builds.BuildStore.WakeUpRequested | runbot/models/build.py:638-669 | a woken build whose container runs is marked running, one whose directory is gone is marked done, and any other restarts on a free port, running or done depending on the run step |
| Builds.BuildStore.Restart | runbot/models/build.py:645-669 | the restart writes a fresh job start, a free port and no active step, and ends running, or done when the run step fails |
| Builds.BuildStore.ProcessRequestedAction | runbot/models/build.py:629-670 | one build's requested action is handled and no other build changes |
| Builds.BuildStore.ProcessRequestedActions | runbot/models/build.py:629-670 | afterwards no processed build carries a request, except a deathrow on another host's build, which is untouched; woken builds are running or done, killed ones done; unprocessed builds are unchanged and no result is lowered |
| Builds.BuildStore.Rebuild | runbot/models/build.py:438-478 | `_rebuild` creates the rebuild as the next build, orphans a rebuilt child, asks a build that is not done to die, and moves a root build's attached slots to the new build |
| Builds.BuildStore.CreateRebuild | runbot/models/build.py:441-455 | the new build takes the next id and a rebuilt child becomes an orphan |
| Builds.BuildStore.MoveSlots | runbot/models/build.py:472-478 | the slots become the old ones with the attached slots detached, followed by their copies on the new build |
| Builds.BuildStore.Schedule | runbot/models/build.py:672-752 | `_schedule` refuses a build that is not testing or running; a timed-out build of this host ends done with a result; waiting leaves the state alone; a testing build that ends has a result and a `build_end`; only this build changes apart from ancestors' `build_end`, and no result is lowered |
| Builds.BuildStore.FailFast | runbot/models/build.py:678-687 | a testing build whose triggered result is worse than its local result takes the triggered result, unless the step ignores triggered results |
| Builds.BuildStore.CloseStep | runbot/models/build.py:715-769 | closing a step of a testing build that ends leaves it with a result and a `build_end`, and lowers no result |
| Builds.BuildStore.FinishJob | runbot/models/build.py:741-748 | a job that ends a testing build stamps `build_end` and writes the next state with a result set |
| Builds.BuildStore.WriteClose | runbot/models/build.py:745-748 | the closing values are written, then 'ok' when an ending build still has no result |
| Builds.BuildStore.Skip | runbot/models/build.py:480-484 | `_skip` sets the build done, with result 'skipped' unless the write guard keeps a more severe one |
| Builds.BuildStore.SetKillable | runbot/models/batch.py:97 | only the `killable` flag of that build changes |
| Builds.BuildStore.FindRootBuild | runbot/models/batch.py:117 | the newest root build on the given params, and none exactly when there is no such build |
| Builds.BuildStore.CreateBuild | runbot/models/batch.py:124-135 | a new root build takes the next id and nothing else changes |
| Builds.BuildStore.AddSlot | runbot/models/batch.py:326-328 | the slot is appended |
| Builds.BuildStore.SetSlot | runbot/models/batch.py:88-89 | only that slot is replaced |
| BuildGc.DefaultRetention | runbot/models/build.py:249-259 | with the default parameters a root build is kept 30 days after its job end and a child 15, each plus its `gc_delay` days |
| BuildGc.GroupDests | runbot/models/build.py:498-502 | the names are grouped by the build they belong to, every build name lands in its build's group, and the non-build names other than the template are the ignored ones |
| BuildGc.Pairs | runbot/models/build.py:513-514 | every name of the build is yielded with the same `full` flag |
| BuildGc.SelectBuilds | runbot/models/build.py:505-517 | of the existing builds past their gc date, every name of a done build is yielded with its `full` flag and nothing else is; exactly the builds neither done nor running are warned about |
| BuildGc.FilterToClean | runbot/models/build.py:491-517 | only names of existing done builds past their gc date are yielded, every such name is, with `full` set once `full_gc_days` more have passed; builds past gc date neither done nor running are warned about; non-build names except the template are ignored |
| BuildGc.BuildAgeAsWrittenMeasuresTheWrongStart | runbot/models/build.py:429-435 | as written the age is measured from `build_start`, which fails when only `job_start` is set |
| BuildGc.BuildAge | runbot/models/build.py:429-435 | the age is the time since `job_start`, and 0 before it |
| BuildModules.LastMatchingPatternDecides | runbot/models/build.py:851-862 | the last pattern that speaks about a module decides whether it is selected; a module no pattern speaks about keeps its default membership |
| BuildModules.PatternsStayWithinModules | runbot/models/build.py:851-862 | filtering only selects default or available modules |
| BuildModules.RepoSelectionIsAvailable | runbot/models/build.py:864-867 | each repository's selection stays within the available modules |
| BuildModules.ModulesToTest | runbot/models/build.py:848-872 | each repository selects among its own modules, then the params' and the extra patterns filter the union against every available module; only available modules are selected |
| BatchLinks.LinkedReposAppend | runbot/models/batch.py:168 | the repositories linked by two lists of links are those of each list |
| BatchLinks.FirstLinkOf | runbot/models/batch.py:60-62 | the loop of `_new_commit` stops at the first link of the head's repository, and finds none when there is none |
| BatchLinks.NewCommitKeepsOneLinkPerRepo | runbot/models/batch.py:56-74 | after `_new_commit` the head's repository has exactly one link, on the head commit, on a PR branch whenever the new branch is one; other links are untouched and no repository is lost |
| BatchLinks.NewCommitIdempotent | runbot/models/batch.py:56-74 | a second `_new_commit` with the same branch changes nothing more |
| BatchLinks.FilledLink | runbot/models/batch.py:184-191 | a filled link holds the candidate's commit and branch and the match type; for base* match types its base and merge-base commits are the commit itself, otherwise it has no base information |
| BatchLinks.Fill | runbot/models/batch.py:175-193 | `fill_missing` only removes repositories from the missing set, and the repositories it links are exactly those it removed |
| BatchLinks.FillLinksAreFresh | runbot/models/batch.py:175-193 | `fill_missing` links each repository at most once and only from a live branch |
| BatchLinks.FirstAlive | runbot/models/batch.py:178-183 | the first candidate for a repository on a live branch, or none |
| BatchLinks.FillTakesFirstAlive | runbot/models/batch.py:175-193 | a missing repository is filled by its first candidate on a live branch, and stays missing exactly when it has none |
| BatchLinks.FillChain | runbot/models/batch.py:207-266 | the fallback chain keeps one link per repository and links exactly the repositories it removed from the missing set |
| BatchLinks.OneLinkPerRepoAppend | runbot/models/batch.py:168 | appending links of other repositories keeps one link per repository |
| BatchLinks.ChainKeepsOneLinkPerRepo | runbot/models/batch.py:168-266 | appending what the chain fills to the batch's links keeps one link per repository, and none of them is for a repository still missing |
| BatchLinks.ParseAheadBehind | runbot/models/batch.py:365-378 | the ahead/behind output parses only when it splits into exactly two tab-separated fields |
| BatchLinks.ParseAheadBehindCounts | runbot/models/batch.py:365-378 | the output `ahead<TAB>behind` of two counts parses back to the two counts |
| BatchLinks.NumstatLine | runbot/models/batch.py:384-391 | each numstat line counts one changed file |
| BatchLinks.NumstatTotals | runbot/models/batch.py:383-391 | the number of files changed is the number of numstat lines |
| BatchLinks.BinaryEntryAddsNothing | runbot/models/batch.py:389-391 | a binary entry (`-`) counts a changed file and adds no lines |
| BatchLinks.NumericEntryAdds | runbot/models/batch.py:386-389 | a numeric entry adds its added and removed counts to the totals |
| BatchLinks.LinkInfo | runbot/models/batch.py:352-392 | an updated link keeps its commit, branch and match type and has the base head as base commit |
| BatchLinks.LinkDiff | runbot/models/batch.py:380-391 | the diff stage only changes the file and line counters |
| BatchLinks.SameCommitHasNoDiff | runbot/models/batch.py:354-359 | a commit identical to the base head leaves every counter at 0, with the commit as its own merge base, and reports no failure |
| BatchLinks.MergeBaseFailureKeepsDefaults | runbot/models/batch.py:354-394 | when git fails on the merge base the link keeps its defaults and the failure is reported |
| BatchSources.SlotParams | runbot/models/batch.py:286-305 | a slot's params carry the trigger, the batch as create batch, the chosen config, the commits of the trigger's repositories, the trigger's reference builds, the custom extra parameters (empty by default), and the bundle's version and project |
| BatchSources.CommitsForOneLinkPerRepo | runbot/models/batch.py:276-300 | the params' commits are exactly the commits of the links of the trigger's repositories |
| BatchSources.HeadOrderIsDescending | runbot/models/batch.py:197-209 | the bundle heads are offered as a permutation of the branches in descending (head id, is PR) order |
| BatchSources.PrFirstPutsPrsFirst | runbot/models/batch.py:258 | the foreign bundles' branches are a permutation with every pull request before every branch |
| BatchSources.Heads | runbot/models/batch.py:209-261 | each branch offers its head commit, in order |
| BatchSources.LinkCandidates | runbot/models/batch.py:235 | each link of the chosen base batch offers its branch and commit, in order |
| BatchSources.LastBaseBatch | runbot/models/batch.py:214 | the last base batch is the newest one that is not preparing, of the same category and not the batch itself, and none exactly when there is no such batch |
| BatchSources.BaseHeads | runbot/models/batch.py:215 | the base heads are keyed by exactly the repositories linked by the last base batch |
| BatchSources.BaseHeadsOfLinks | runbot/models/batch.py:215 | each repository's base head is the commit of its link |
| BatchSources.BestBaseBatchIsBest | runbot/models/batch.py:219-235 | the chosen base batch qualifies (not preparing, same category, a 'new' or 'head' link to a merge base) and no qualifying batch has more merge bases or, with as many, a higher id; there is none exactly when no batch qualifies |
| BatchSources.FallbackSources | runbot/models/batch.py:250-273 | the fallbacks are the base bundle heads, then the master base bundle heads, then, exactly when some trigger uses another project's repository, the foreign bundles' heads with pull requests first and their base bundles' heads |
| BatchSources.FillNothingMissing | runbot/models/batch.py:176-180 | `fill_missing` links nothing once no repository is missing |
| BatchSources.FillChainNothingMissing | runbot/models/batch.py:208-251 | neither does the rest of the chain |
| BatchSources.FillChainSnoc | runbot/models/batch.py:207-262 | each step of the chain fills what the previous steps left missing |
| BatchSources.FillChainOne | runbot/models/batch.py:175-193 | a chain of one source is `fill_missing` on that source |
| BatchSources.FillChainAppend | runbot/models/batch.py:207-262 | a chain split in two is the first part followed by the second on what the first left |
| BatchSources.MissingFilledInOrder | runbot/models/batch.py:207-262 | missing repositories are resolved in a fixed order: bundle heads, the chosen base batch (not for a base bundle), base bundle heads, master base bundle heads, then the foreign bundles' heads and their base bundles' heads |
| Batches.LinkStep | runbot/models/batch.py:346-395 | one link of `_update_commits_infos` keeps its commit, branch and match type, takes the repository's base head as base commit, and a repository without a base head only logs a warning |
| Batches.UpdatedLinks | runbot/models/batch.py:345-395 | the update over all links keeps their number, or fails as a whole on an escaping ValueError |
| Batches.UpdatedLinksKeepKeys | runbot/models/batch.py:345-395 | after a successful update every link keeps its commit, branch and match type |
| Batches.UpdateFailureSticks | runbot/models/batch.py:345-395 | a ValueError on any link makes the whole update fail |
| Batches.NumstatFailureSticks | runbot/models/batch.py:384-392 | a numstat line that does not split into three fields makes the whole count fail |
| Batches.AddNumstatLine | runbot/models/batch.py:384-392 | one numstat line counts a changed file and adds its added and removed lines, nothing for a binary entry, and fails on a short line |
| Batches.CountNumstat | runbot/models/batch.py:383-392 | the loop over the numstat lines computes exactly the totals of all lines, or the failure of the first short line |
| Batches.UpdateLinkInfo | runbot/models/batch.py:352-381 | the merge-base and ahead/behind part of one link's update computes the link's information as specified, including the early exits for an identical commit and a merge base equal to the commit |
| Batches.UpdateLinkDiff | runbot/models/batch.py:383-392 | the diff part of one link's update adds the numstat totals to the link, or reports the escaping ValueError |
| Batches.ConsistencyLogWarns | runbot/models/batch.py:144-146 | every bundle consistency message of level warning becomes a warning line, and every line logged is such a warning |
| Batches.FindMissingCovers | runbot/models/batch.py:175-274 | finding the missing commits links exactly the repositories it no longer reports missing, reports none that was not missing, and keeps one link per repository |
| Batches.HeadsCover | runbot/models/batch.py:208-212 | linking the bundle heads and refreshing the links keeps one link per repository and links exactly the repositories the heads filled |
| Batches.TwoChainsCover | runbot/models/batch.py:218-274 | the base-batch fill and the fallback fills add exactly the repositories they filled and keep one link per repository |
| Batches.FoundCoversAll | runbot/models/batch.py:166-274 | after the search every repository the triggers need is linked or reported missing, the links and the log only grew, and a warning is never cleared |
| Batches.FindMissingLogs | runbot/models/batch.py:175-274 | the search only appends to the batch log and never clears the warning flag |
| Batches.SlotLoopSelects | runbot/models/batch.py:294-301 | exactly the triggers with no missing repository and a config get a slot, and a warning is logged for exactly the triggers with a missing repository |
| Batches.SlottedReposAreLinked | runbot/models/batch.py:280-312 | every repository of a slotted trigger has a link, so the lookup by repository never fails |
| Batches.NewRootBuild | runbot/models/batch.py:122-134 | a created build is a pending root build with the params, no result, not killable, pinned to the bundle's host when it has one, normal in the default category and scheduled otherwise |
| Batches.SkipSlotStep | runbot/models/batch.py:82-98 | one slot of `_skip` is marked skipped and leaves the parent links of every build unchanged |
| Batches.SkipSlots | runbot/models/batch.py:82-98 | the slot loop of `_skip` keeps the number of slots and the parent links of every build |
| Batches.SkipSlotsEffect | runbot/models/batch.py:77-98 | `_skip` marks exactly the batch's slots skipped, and each build is left as it was, made killable, or skipped if it was pending; only builds of the batch's slots change |
| Batches.SkipEffect | runbot/models/batch.py:76-98 | `_skip` over all slots changes builds only in the ways above, changes slots only by their skipped flag, and leaves other batches' slots alone |
| Batches.NewSlotsSurviveSkip | runbot/models/batch.py:334-343 | the skip cascade of older batches leaves the slots `_prepare` just created, and their builds, as they were |
| Batches.Batch.constructor | runbot/models/batch.py:15-27 | a new batch, as the bundle creates it, is preparing, with no links, no log and no warning |
| Batches.Batch.Log | runbot/models/batch.py:402-408 | `_log` appends one info line and changes nothing else |
| Batches.Batch.LogWarning | runbot/models/batch.py:397-400 | `warning` flags the batch and appends one warning line |
| Batches.Batch.NewCommit | runbot/models/batch.py:56-74 | `_new_commit` sets the last update, leaves the links as the link-update function says (one link per repository is kept) and logs the replaced head when the head changes |
| Batches.Batch.FillMissing | runbot/models/batch.py:175-193 | `fill_missing` appends the fill's links, logs each dead branch passed over, and returns the repositories still missing; one link per repository is kept |
| Batches.Batch.SkipSlot | runbot/models/batch.py:82-98 | one slot step of `_skip` leaves exactly the builds, slots and log of the slot-step function |
| Batches.Batch.Skip | runbot/models/batch.py:76-98 | `_skip` leaves a base-bundle or done batch alone; otherwise the batch is skipped, logs it, and the builds, slots and log are those of the slot loop |
| Batches.Batch.UpdateCommitsInfos | runbot/models/batch.py:345-395 | `_update_commits_infos` keeps the links' keys, succeeds exactly when the update function does, and then leaves its links, log and warning flag |
| Batches.Batch.WarnConsistency | runbot/models/batch.py:144-146 | the bundle's consistency warnings are logged in order and flag the batch exactly when there is one |
| Batches.Batch.FallbackStep | runbot/models/batch.py:250-262 | one `if missing_repos:` step logs its note and fills, and does nothing when nothing is missing |
| Batches.Batch.FillFallbacks | runbot/models/batch.py:250-274 | steps 3.1 to 4 fill from the base heads, the master base heads and the foreign bundles' heads, in that order, with their notes |
| Batches.Batch.UseBaseBatch | runbot/models/batch.py:219-247 | step 2 chooses the best base batch for the merge bases, logs it, and warns when some of its commits are not merge bases |
| Batches.Batch.FillFromBaseBatch | runbot/models/batch.py:218-249 | step 2 runs only when repositories are missing and the bundle is not a base bundle, and fills from the chosen batch's links |
| Batches.Batch.FillHeads | runbot/models/batch.py:208-209 | step 1.1 fills the missing repositories from the bundle heads |
| Batches.Batch.FindMissing | runbot/models/batch.py:175-274 | the search for missing commits ends in exactly the links, log, warning flag and missing set of the search function, and fails exactly when it does |
| Batches.Batch.CreateBuildFor | runbot/models/batch.py:113-137 | `_create_build` reuses the newest root build with the params ('matched', made not killable), or creates one ('created') after every existing build; nothing else changes |
| Batches.Batch.CreateSlot | runbot/models/batch.py:294-329 | one trigger of the slot loop warns about missing repositories, or adds one slot of the trigger's params, with a build when the trigger is auto-linked |
| Batches.Batch.CreateSlots | runbot/models/batch.py:294-329 | the slot loop adds one slot per slotted trigger in trigger order and one warning per trigger with a missing repository; builds only become unkillable and params are only appended |
| Batches.Batch.CreateMissingBuild | runbot/models/batch.py:457-463 | a slot with a build keeps it; otherwise `_create_build` gives it a root build of its params and a link type |
| Batches.Batch.SkipOlder | runbot/models/batch.py:334-343 | unless the bundle is sticky or the batch is not in the default category, the older batches of the bundle that are not done are skipped; the others, and the slots of this and newer batches, are untouched |
| Batches.Batch.Prepare | runbot/models/batch.py:139-343 | `_prepare` on success makes the batch ready, logs the consistency warnings, links or reports missing every needed repository, appends a slot per slotted trigger and skips the older batches, its links and missing set being those the missing-commit search (`FindMissingResult`) gives from the links and log it started with; it fails exactly when that search does, and then a ValueError rolls everything back: the batch's state, links, log and warning flag, the older batches and the build tables are as they were |
| Batches.Batch.FindAllMissing | runbot/models/batch.py:166-274 | the search starts from every repository the triggers need that is not pushed, succeeds exactly when the missing-commit search does, and on success has that search's links and leaves exactly the unlinked ones missing |
| Batches.Batch.Process | runbot/models/batch.py:100-111 | `_process` prepares a batch that has been preparing for more than a minute (a failure only happens there, escapes and leaves the batch, the older batches and the build tables as they were), turns a ready batch done when every slot's build is running or done (or absent), and otherwise changes nothing |
| BuildErrors.Patterns | runbot/models/build_error.py:60 | the patterns of one type are exactly the patterns of the regexes of that type |
| BuildErrors.SubAllAppend | runbot/models/build_error.py:226-230 | cleaning with two lists of regexes in a row is cleaning with their concatenation, in order |
| BuildErrors.RSub | runbot/models/build_error.py:226-230 | `r_sub` applies every regex of the recordset in order, each replacing all its matches by '%' whatever replacement is passed |
| BuildErrors.RSearch | runbot/models/build_error.py:232-234 | `r_search` is true exactly when one of the regexes is found in the string |
| BuildErrors.FirstAssigning | runbot/models/build_error.py:264-276 | the team loop stops at the first team that takes the module, passing over every earlier team; `TeamOf` instantiates "takes" with the wildcard rule |
| BuildErrors.TeamOf | runbot/models/build_error.py:263-277 | `_get_team` is `False` exactly when no team takes the module, and otherwise the id of a team that takes it |
| BuildErrors.GetTeam | runbot/models/build_error.py:263-277 | the team loop returns exactly the first team that takes the module |
| BuildErrors.TestTagsList | runbot/models/build_error.py:191-195 | a tag is listed exactly when it is a comma-separated part of the test tags of an active error |
| BuildErrors.DisablingTags | runbot/models/build_error.py:197-199 | the disabling tags are the test tags, each prefixed with '-', in the same order |
| BuildErrors.DisablingTagsNegateOnce | runbot/models/build_error.py:191-199 | while no test tags hold a '-', each disabling tag holds exactly one '-', in front, and drops back to a listed test tag |
| BuildErrors.ChildBuilds | runbot/models/build_error.py:76-79 | the child builds are exactly the builds of errors whose parent is this error |
| BuildErrors.BuildCountBounds | runbot/models/build_error.py:76-79 | the build count is at least the number of the error's own builds and of each child's builds |
| BuildErrors.LinkBeforeTotal | runbot/models/build_error.py:180-181 | `responsible asc, random desc, id asc` orders any two distinct errors one way exactly |
| BuildErrors.LinkBeforeTransitive | runbot/models/build_error.py:180-181 | that order is transitive |
| BuildErrors.GroupLogs | runbot/models/build_error.py:135-144 | the logs are grouped by fingerprint: every group holds only unfiltered logs whose cleaned message is its key, and every unfiltered log is in the group of its cleaned message |
| BuildErrors.GroupLogsIter | runbot/models/build_error.py:139-144 | the grouping loop builds exactly that grouping |
| BuildErrors.AttachAll | runbot/models/build_error.py:138-153 | the attaching loop gives the first active error (in id order) of each scanned fingerprint the builds of its logs, leaves a later active error with the same fingerprint unchanged (the `defaultdict` hands it an empty list), and removes exactly the fingerprints some active error has |
| BuildErrors.DuplicateGainsNothing | runbot/models/build_error.py:138-152 | when two active errors share a scanned fingerprint, the first in id order gains the builds of its logs and the later one is left exactly as it was |
| BuildErrors.CreateAll | runbot/models/build_error.py:155-163 | the creating loop creates one error per fingerprint left, in first-seen order |
| BuildErrors.CreatedFresh | runbot/models/build_error.py:155-163 | created errors have no parent and no test tags |
| BuildErrors.CreatedCovers | runbot/models/build_error.py:155-163 | each fingerprint without an active error gets a new active error carrying exactly the builds of its logs |
| BuildErrors.CreatedDistinct | runbot/models/build_error.py:155-163 | created errors are active, have distinct fingerprints, and share none with an existing active error |
| BuildErrors.ParseLogsCoversEveryLog | runbot/models/build_error.py:132-163 | after `_parse_logs` every unfiltered log's build is on an active error whose fingerprint is the log's cleaned message |
| BuildErrors.ParseLogsKeepsUniqueActive | runbot/models/build_error.py:132-163 | with at most one active error per fingerprint, `_parse_logs` keeps that property |
| BuildErrors.ErrorStore.constructor | runbot/models/build_error.py:15-50 | an empty error table |
| BuildErrors.ErrorStore.WriteTestTags | runbot/models/build_error.py:52-56 | writing test tags holding a '-' is refused and changes nothing; other tags are written |
| BuildErrors.ReachBelow | runbot/models/build_error.py:70-74 | the errors the recursive `active` write reaches hold the recordset and every child of each reached error, and are the least such set: any set closed in that way contains them |
| BuildErrors.ErrorStore.WriteActive | runbot/models/build_error.py:70-74 | writing `active` fails and changes nothing exactly when a parent cycle leads out of the recordset (the recursion that never ends rolls back); otherwise it sets the value on the recordset and on the least set of errors that holds it and every child of a reached error, and on no other error |
| BuildErrors.DetachedCycleNotReached | runbot/models/build_error.py:70-74 | a parent cycle that hangs from no error of the recordset is outside the least closure, so the write leaves it alone |
| BuildErrors.MixedCycleNeverEnds | runbot/models/build_error.py:70-74 | when an error outside the recordset lies on a parent cycle and has its parent in the recordset, the recursive write on `child_ids - self` raises whatever the recursion limit |
| BuildErrors.CycleNeverEnds | runbot/models/build_error.py:72-73 | once a write holds an error whose child is outside its recordset and on a cycle, the nested writes go round the cycle without end |
| BuildErrors.CycleSuccessor | runbot/models/build_error.py:42 | the parent links of an error on a cycle give it a child on the same cycle, distinct from it |
| BuildErrors.LinkedPairWrite | runbot/models/build_error.py:176-184 | after `link_errors` makes two errors each other's parent, writing `active` on one of them never ends, while writing it on both ends and writes both |
| BuildErrors.ErrorStore.LinkErrors | runbot/models/build_error.py:176-184 | fewer than two errors change nothing; otherwise the first error in `responsible asc, random desc, id asc` becomes the parent of every other error of the recordset |
| BuildErrors.ErrorStore.ParseLogs | runbot/models/build_error.py:132-163 | `_parse_logs` never fails: the errors become the attached known errors followed by one new error per fingerprint no active error has |
| EventLog.DbnameBuildId | runbot/models/event.py:35 | the build id taken from a database name is the integer before its first '-', within the PostgreSQL integer range |
| EventLog.LoggingTable.constructor | runbot/models/event.py:16-24 | an empty log table over the given builds |
| EventLog.LoggingTable.Insert | runbot/models/event.py:31-75 | an insert runs the trigger: it fails and changes nothing when the trigger refuses the row, and otherwise leaves the builds of the trigger function and stores the row unless the trigger dropped it |
| EventLog.LoggingTable.Store | runbot/models/event.py:38-72 | the trigger's second half on a row of an existing build spends a 'server' row's counter unit, turns the row that reaches 0 into the limit notice and drops later ones, sets the triggered result from any other level than INFO or SEPARATOR, and stores the row unless dropped |
| EventLog.ForeignDbnameGivesBuild | runbot/models/event.py:34-37 | a row without a build from a foreign database `<n>-...` gets build `n` and that build's active step |
| EventLog.ServerRowDecrements | runbot/models/event.py:38-48 | a 'server' row spends one unit of its build's log counter and touches no other build |
| EventLog.CounterZeroRewrites | runbot/models/event.py:49-54 | the 'server' row that brings the counter to 0 is stored as the limit notice and leaves the triggered result alone |
| EventLog.CounterSpentDrops | runbot/models/event.py:55-56 | once the counter is spent, 'server' rows are dropped |
| EventLog.LevelSetsTriggeredResult | runbot/models/event.py:60-68 | a stored row whose level is not INFO or SEPARATOR, in any case, sets the build's triggered result to warn for WARNING and to ko otherwise |
| EventLog.WarningReplacesKo | runbot/models/event.py:62-66 | the triggered result is overwritten, not combined: a warning after an error turns ko back into warn |
| EventLog.NonNumericDbnameRefused | runbot/models/event.py:35 | a foreign database name that does not start with an integer makes the insert fail |
| EventLog.LastActiveWith | runbot/models/event.py:93-95 | the error found for a fingerprint is the last active error with it, and none is found exactly when there is none |
| EventLog.ComputeKnownError | runbot/models/event.py:86-95 | every log row gets the known error of its cleaned message when it is a server ERROR row, and none otherwise |
| Upgrade.Generate | runbot/models/upgrade.py:16-19 | no exception record gives `False`; an unset elements field makes the join fail; otherwise the flag holds the prefix and then no space and no newline |
| Upgrade.ParseUpgradeErrors | runbot/models/upgrade.py:34-61 | the scan fails with the error of the first regex without a group, raises 'Nothing found here' when no entry is found, and otherwise proposes the entries joined with newlines, the bundle of the top parent's first batch, and the generated info line |
| Upgrade.ScanMessage | runbot/models/upgrade.py:40-42 | the regex loop over one message yields exactly the message's `<prefix>:<first group>` entries, or the failure of the first matching regex without a group |
| Upgrade.MessageEntriesFailurePersists | runbot/models/upgrade.py:40-42 | once a regex without a group has matched a message, the scan of that message fails whatever the later regexes |
| Upgrade.EntriesFailurePersists | runbot/models/upgrade.py:39-42 | once a log has made the scan fail, the whole scan fails the same way |
| Upgrade.NewlinesBecomeCommas | runbot/models/upgrade.py:18-57 | turning the newlines of a newline-joined list into ',' gives the comma-joined list |
| Upgrade.ProposalGeneratesEntries | runbot/models/upgrade.py:16-57 | recording a scan's proposal as the only exception turns the flag into exactly the scanned entries separated by ',' |
| Cla.RunEnd | runbot_cla/build_config.py:34 | the greedy run of a character class ends at the first stop character, or at the end of the text |
| Cla.SearchAddress | runbot_cla/build_config.py:34 | the address search finds a local part, one '@' and a domain part, and finds nothing exactly when no position starts a match |
| Cla.ClaText | runbot_cla/build_config.py:38-42 | reading the CLA files fails exactly when one of them is not valid UTF-8 |
| Cla.EmailError | runbot_cla/build_config.py:34-47 | the check of one e-mail logs only error lines, never an announcement |
| Cla.CheckLogs | runbot_cla/build_config.py:29-47 | each checked author is announced first, followed by at most its one error line |
| Cla.HasErrorAppend | runbot_cla/build_config.py:21-50 | the logs of two runs of checks hold an error exactly when one of them does |
| Cla.AuthorLogsHasError | runbot_cla/build_config.py:24-47 | the author logs hold an error line exactly when the check of some author fails |
| Cla.RunClaCheck | runbot_cla/build_config.py:18-55 | the step logs a missing-file error without CLA files and the authors' checks otherwise, and sets ko through the write guard on failure, ok only on a build without result on success |
| Cla.CheckAuthors | runbot_cla/build_config.py:23-47 | the author loop logs each distinct e-mail's checks once, in first-seen order, and fails exactly when some author fails |
| Cla.CheckEmail | runbot_cla/build_config.py:34-47 | one e-mail is refused for an invalid format, passes for a company domain, and is otherwise looked up, lower-cased, in the CLA text |
| Cla.Distinct | runbot_cla/build_config.py:23-28 | the distinct e-mails hold every e-mail once, in first-seen order |
| Cla.EachEmailAnnouncedOnce | runbot_cla/build_config.py:23-33 | the announcements name exactly the distinct e-mails, in first-seen order |
| Cla.EachEmailCheckedOnce | runbot_cla/build_config.py:22-33 | with CLA files present, each distinct author e-mail is checked exactly once |
| Cla.MissingFileFails | runbot_cla/build_config.py:48-53 | without CLA files the step logs only the missing file and the build is ko, unless its result is already worse |
| Cla.PassKeepsExistingResult | runbot_cla/build_config.py:52-55 | a successful check sets ok only on a build without result; a failed one leaves a result at least as severe as ko |
| Cla.CompanyAddressExempt | runbot_cla/build_config.py:36 | an odoo.com address passes even when absent from the CLA files |
| MergeProject.VersionGroups | runbot_merge/models/project.py:93 | a version suffix splits into its major digits and optional minor digits, which put back together give the suffix |
| MergeProject.VersionStart | runbot_merge/models/project.py:93 | the search finds the leftmost position from which the rest of the name is `X` or `X.Y`, and finds none exactly when no such position exists |
| MergeProject.NextFreeze | runbot_merge/models/project.py:90-98 | a project with fewer than two branches has no next freeze name |
| MergeProject.NextFreezeBumpsMinor | runbot_merge/models/project.py:90-98 | a second branch named `<p>X.Y` gives `X.(Y+1)` |
| MergeProject.NextFreezeStartsMinor | runbot_merge/models/project.py:90-98 | a second branch named `<p>X` gives `X.1` |
| MergeProject.NextFreezeWithoutNumber | runbot_merge/models/project.py:90-98 | a second branch not ending in a digit gives `post-<name>` |
| MergeProject.LineCommand | runbot_merge/models/project.py:75-80 | a command found on a line is exactly the end of the line, and what precedes it is whitespace, an optional '@', '\|' or '#', the prefix in any letter case, an optional ':' and one space |
| MergeProject.PrefixedCommand | runbot_merge/models/project.py:77 | after the marker, a command is exactly what follows the prefix in any letter case, an optional ':' and one space |
| MergeProject.AddressedLineCommand | runbot_merge/models/project.py:75-80 | conversely, a line made of whitespace, a marker or none, the prefix in any letter case, an optional ':', one space and `command` carries exactly `command` |
| MergeProject.LinesCommands | runbot_merge/models/project.py:75-80 | a string is among the commands exactly when some line carries it, and there are at most as many commands as lines |
| MergeProject.FindCommands | runbot_merge/models/project.py:75-80 | a string is found in a comment exactly when some line of the comment, split at '\n', carries it; no command spans a line break |
| MergeProject.AddressedLineYieldsCommand | runbot_merge/models/project.py:75-80 | a one-line comment of blanks, an optional '@', '\|' or '#', the prefix in any letter case, an optional ':' and one space yields exactly the rest of the line as its one command |
| MergeProject.CreateStagings | runbot_merge/models/project.py:63-73 | `_create_stagings` tries staging exactly the active branches without an active staging, in order; a raising attempt changes nothing, and other branches are untouched |
| MergeProject.CheckStagings | runbot_merge/models/project.py:48-61 | `_check_stagings` checks exactly the active branches with an active staging, in order; a raising check changes nothing, and other branches are untouched |
| Freeze.MissingNames | runbot_merge/models/project_freeze/__init__.py:36-39 | the missing-release-PR error names exactly the repositories whose row has no pull request, and is empty exactly when every row has one |
| Freeze.UnreadyCount | runbot_merge/models/project_freeze/__init__.py:45-48 | the unready count is zero exactly when every required pull request is closed or merged |
| Freeze.Errors | runbot_merge/models/project_freeze/__init__.py:34-50 | each of the three errors is reported exactly when its rule fires (a row without a pull request, not exactly one label, a required pull request neither closed nor merged), and nothing else is reported |
| Freeze.ErrorList | runbot_merge/models/project_freeze/__init__.py:35-48 | each rule appends its error exactly when it fires |
| Freeze.ReadyWizardHasNoErrors | runbot_merge/models/project_freeze/__init__.py:34-50 | a wizard with a pull request on every row, one shared label and every required pull request done has no error |
| Freeze.NoRowsMismatchLabels | runbot_merge/models/project_freeze/__init__.py:41-43 | a wizard without release rows always reports the label error |
| Freeze.Renumbered | runbot_merge/models/project_freeze/__init__.py:80-87 | the remaining branches are numbered consecutively from the given number, in their order |
| Freeze.ResequencedNumbering | runbot_merge/models/project_freeze/__init__.py:76-88 | after the freeze the branches are numbered 1, 2, 3, … with the first branch first, the new branch second and the others after, each keeping its id and name |
| Freeze.Retargeted | runbot_merge/models/project_freeze/__init__.py:90-92 | the release pull requests target the new branch with priority 0 and keep their other fields; other pull requests are untouched |
| Freeze.CreationFailure | runbot_merge/models/project_freeze/__init__.py:94-119 | the creation loop stops at the first row whose base branch does not resolve or whose branch creation fails, and succeeds exactly when no row fails |
| Freeze.CreationFailurePersists | runbot_merge/models/project_freeze/__init__.py:96-119 | a failure on an earlier row decides the outcome whatever the later rows |
| Freeze.FindCreationFailure | runbot_merge/models/project_freeze/__init__.py:96-119 | the creation loop finds exactly that first failing row and its message |
| Freeze.Cleanup | runbot_merge/models/project_freeze/__init__.py:122-133 | the clean-up never deletes on the failing repository, and reports at most one message per deletion |
| Freeze.CleanupAttemptsEarlierRows | runbot_merge/models/project_freeze/__init__.py:123-126 | the clean-up deletes the new branch exactly on the repositories of the rows before the failing one |
| Freeze.FreezeAsWritten | runbot_merge/models/project_freeze/__init__.py:96-133 | as written, the freeze succeeds exactly when no row fails; once one fails, every branch created before it stays on GitHub, and the user sees the creation message only when no earlier row has to be cleaned up |
| Freeze.AsWrittenLeavesWhatCleanupDeletes | runbot_merge/models/project_freeze/__init__.py:96-133 | as written, a failure leaves behind exactly the branches the clean-up was meant to delete |
| Freeze.GetFailureEscapesAsWritten | runbot_merge/models/project_freeze/__init__.py:103-106 | with the base branch not resolving on the second of two repositories, the source as written raises an HTTP error and keeps the first repository's branch, where the intended freeze reports it unresolved and deletes that branch |
| Freeze.CleanupRaisesAsWritten | runbot_merge/models/project_freeze/__init__.py:127-129 | with creation failing on the second of two repositories, the clean-up as written raises before deleting the first repository's branch, which the intended clean-up deletes |
| Freeze.CleanUp | runbot_merge/models/project_freeze/__init__.py:122-133 | the clean-up loop attempts and reports exactly what the clean-up function says |
| Freeze.Project.constructor | runbot_merge/models/project_freeze/__init__.py:78 | a project over the given branches and pull requests, whose branch ids all lie below the next id it hands out |
| Freeze.Project.ActionFreeze | runbot_merge/models/project_freeze/__init__.py:69-149 | `action_freeze` as evidently intended (the corrected half of both freeze Findings rows): it reopens the wizard while errors remain; with no branch it fails; when a repository fails, including a base branch that does not resolve, it reports the creation error and the clean-up messages and leaves the project as it was; otherwise it resequences the branches with the new one second and retargets the release pull requests |
| Freeze.WriteRow | runbot_merge/models/project_freeze/__init__.py:163-172 | a release row write never changes its wizard or repository, refuses writing them, and sets only a pull request of the row's repository |
| Freeze.WriteRowKeepsConsistent | runbot_merge/models/project_freeze/__init__.py:163-172 | a row whose pull request belongs to its repository keeps that property through any accepted write |
| Freeze.WriteRowRefusesForeignPr | runbot_merge/models/project_freeze/__init__.py:168-170 | setting a pull request of another repository is refused |
| Freeze.StateColor | runbot_merge/models/project_freeze/__init__.py:180-211 | opened, validated and approved pull requests get no colour, closed ones orange, ready ones light blue, merged ones green and errored ones red, each colour for those states only |
| Partners.FormattedEmail | runbot_merge/models/res_partner.py:28-37 | the commit e-mail is the partner's name, then ` <`, and it ends with `>` |
| Partners.FormattedEmailAddress | runbot_merge/models/res_partner.py:28-37 | the address can be read back from the commit e-mail whenever it has no `<` |
| Partners.FormattedWithEmail | runbot_merge/models/res_partner.py:31-32 | a partner with an e-mail commits with the address parsed from it |
| Partners.FormattedWithLogin | runbot_merge/models/res_partner.py:33-34 | without an e-mail, the login's GitHub no-reply address is used |
| Partners.FormattedWithNeither | runbot_merge/models/res_partner.py:35-37 | with neither an e-mail nor a login the address is empty |
| Partners.Fetched | runbot_merge/models/res_partner.py:39-45 | when GitHub answers every selected login, fetching e-mails changes only partners of the selection that have a login and no e-mail, and never their name or login |
| Partners.FetchDependsOnLogin | runbot_merge/models/res_partner.py:43-44 | the fetched e-mail depends only on the login |
| Partners.FetchedIdempotent | runbot_merge/models/res_partner.py:39-45 | a fetch that succeeded succeeds again, and gives the same partners as fetching once |
| Partners.FilterNeedsEmail | runbot_merge/models/res_partner.py:43 | the selected partners are exactly those of the selection with a login and an unset e-mail |
| Partners.Directory.constructor | runbot_merge/models/res_partner.py:13-20 | a directory holding the given partners |
| Partners.Directory.FetchGithubEmail | runbot_merge/models/res_partner.py:39-45 | `fetch_github_email` succeeds exactly when there is a project to take a token from and GitHub answers the login of every selected partner needing an e-mail; it then leaves the partners as the fetch function describes, and otherwise leaves every partner as it was |
| Partners.LastLogin | runbot_merge/models/res_partner.py:54-56 | the kept login is a set login of some source partner, and there is none exactly when no source partner has a login |
| Partners.Merged | runbot_merge/models/res_partner.py:50-61 | merging partners keeps the same set of partners |
| Partners.MergedLogins | runbot_merge/models/res_partner.py:57-60 | after a merge in which some source has a login, no source keeps a login and the destination keeps its own login or takes the last source login |
| Partners.MergedKeepsLoginsUnique | runbot_merge/models/res_partner.py:22-61 | merging never makes two partners share a login, letter case ignored, as the unique index demands |
| Partners.Directory.UpdateValues | runbot_merge/models/res_partner.py:50-61 | `_update_values` leaves the partners as the merge function describes |
| ForwardPort.FlipAll | forwardport/models/project.py:163-166 | every ordering item is reversed, one for one |
| ForwardPort.OrderingItems | forwardport/models/project.py:162 | the ordering items start with `fp_sequence`, and no item holds a comma or starts with a blank |
| ForwardPort.StripAll | forwardport/models/project.py:162 | removing the blanks after each comma keeps one item per item, none starting with a blank |
| ForwardPort.FlipAscendingTwice | forwardport/models/project.py:163-166 | an ascending item becomes descending, and reversing it again gives it back |
| ForwardPort.FlipDescendingTwice | forwardport/models/project.py:163-166 | a descending item, its ` desc` in any letter case, becomes ascending, and reversing it again gives back the item with ` desc` in lower case |
| ForwardPort.FlipAllTwice | forwardport/models/project.py:163-166 | reversing an all-ascending ordering twice gives it back |
| ForwardPort.ForwardPortOrderingHead | forwardport/models/project.py:160-170 | the forward-port ordering sorts by `fp_sequence` descending first, then by the branch model's own ordering items, each reversed |
| ForwardPort.IndexOf | forwardport/models/project.py:491-492 | the position found is the first holding the branch, and there is none exactly when the branch is not in the list (the lookup raises) |
| ForwardPort.FirstEnabled | forwardport/models/project.py:495-499 | the branch found is the first forward-port-enabled one in the range, and there is none exactly when no branch of the range is enabled |
| ForwardPort.FindNextTarget | forwardport/models/project.py:477-499 | nothing when the reference already targets the limit; otherwise it fails exactly when the source's, the reference's or the limit's branch is missing, and else gives the first enabled branch after the later of the source's and the reference's branches, up to and including the limit |
| ForwardPort.NextTargetAdvances | forwardport/models/project.py:477-499 | searching again from the branch just found succeeds, and any branch it gives comes strictly later in the order, so a chain of forward-ports ends |
| ForwardPort.Ancestors | forwardport/models/project.py:549-552 | the ancestry starts at the pull request, follows parent links and ends at a pull request without a parent |
| ForwardPort.AncestorsOlder | forwardport/models/project.py:549-552 | every ancestor is older than its descendants, so the walk never revisits a pull request |
| ForwardPort.GetRoot | forwardport/models/project.py:554-558 | `_get_root` returns a pull request without a parent, the last of the ancestry |
| ForwardPort.Partition | forwardport/models/project.py:118-129 | the split of the new order fails exactly when two or more branches are new; otherwise the three parts put back together give the order, the middle one is set exactly when one branch is new and is that new branch, and the outer parts hold only known branches |
| ForwardPort.PartitionBranches | forwardport/models/project.py:118-129 | the partitioning loop gives what the partition function says |
| ForwardPort.PartitionFailurePersists | forwardport/models/project.py:126-127 | once a second new branch has been seen, the rest of the list cannot save the split |
| ForwardPort.CheckBranchUpdate | forwardport/models/project.py:93-138 | the check of a branch-list update accepts or refuses it as the classification says |
| ForwardPort.AppendAccepted | forwardport/models/project.py:112-113 | a branch added at the end of the order is accepted as is |
| ForwardPort.ReorderRefused | forwardport/models/project.py:115-116 | reordering the same branches is refused |
| ForwardPort.RemovalRefused | forwardport/models/project.py:115-116 | dropping branches, with or without reordering the others, is refused |
| ForwardPort.TwoNewRefused | forwardport/models/project.py:121-130 | a write that adds two or more new branches is refused as a multiple insertion |
| ForwardPort.PartitionAllOld | forwardport/models/project.py:118-125 | an order of known branches only is split into itself, with nothing new |
| ForwardPort.PartitionTail | forwardport/models/project.py:118-129 | known branches, one new branch and more known branches split exactly at the new branch |
| ForwardPort.InsertionAccepted | forwardport/models/project.py:118-138 | a single branch inserted between others is accepted as an insertion with the branches before and after it |
| ForwardPort.InsertionFirstFails | forwardport/models/project.py:118-137 | a branch inserted first fails for want of a branch before it |
| ForwardPort.RemovalWithInsertionAccepted | forwardport/models/project.py:115-129 | any new order with one new branch between old branches passes as the insertion of that branch, whatever old branches were removed or moved around it |
| ForwardPortCommands.FindBranch | forwardport/models/project.py:361-364 | the branch found is one of the project's branches with that name, and there is none exactly when no branch has the name |
| ForwardPortCommands.Policy | forwardport/models/project.py:316-322 | `ci`/`skipci` set the policy of the source (or of the pull request itself when it has none) exactly when the commenter may review that pull request, and set no other policy |
| ForwardPortCommands.ApproveEach | forwardport/models/project.py:336-338 | exactly the listed pull requests that have a parent and a state accepting `r+` are approved, and nothing else |
| ForwardPortCommands.Approvals | forwardport/models/project.py:334-338 | `r+` on a forward-port approves exactly its ancestors that have a parent (never the root) and a state accepting `r+` |
| ForwardPortCommands.LimitEffects | forwardport/models/project.py:350-384 | a limit is only set on an open origin pull request, to its own branch or to a forward-port-enabled branch; a limit equal to its own branch disables forward-porting; every outcome ends with a reply |
| ForwardPortCommands.Next | forwardport/models/project.py:313-384 | each command consumes at least its own word, so the token loop ends |
| ForwardPortCommands.Command | forwardport/models/project.py:313-404 | one turn of the token loop, mutable token iterator and all, does what the command table says and leaves the words it says |
| ForwardPortCommands.ParseCommands | forwardport/models/project.py:288-404 | the forward-port bot's half of `_parse_commands` produces, in order, the effects of the command table run over the words of the comment's command lines |
| ForwardPortCommands.RunTokens | forwardport/models/project.py:306-404 | the token loop yields the effects of the command table run over the words, each command consuming its own token and the words it takes as arguments |
| ForwardPortCommands.IgnoreIsUpToOwnBranch | forwardport/models/project.py:324-326 | `ignore` does exactly what `up to` the pull request's own branch does |
| ForwardPortCommands.IgnoreDisablesForwardPort | forwardport/models/project.py:324-378 | the author's `ignore` on an open origin pull request sets the limit to its own branch and replies that forward-porting is disabled |
| ForwardPortCommands.UpSwallowsNextWord | forwardport/models/project.py:350 | `up` followed by anything but `to` consumes that word and does nothing |
| ForwardPortCommands.NextPermitted | forwardport/models/project.py:313-384 | every effect of one command is one the commenter is allowed |
| ForwardPortCommands.EffectsPermitted | forwardport/models/project.py:288-404 | every effect of a comment's commands is allowed to its author: only a reviewer sets a policy, only a reviewer of the source closes, only forward-ports approve ancestors, and only the author of an open origin pull request sets a limit |
| PortForward.NextTargets | forwardport/models/project.py:564-565 | one next branch per pull request of the batch, each what `_find_next_target` of its source gives for it, and a failure exactly when one of those calls fails |
| PortForward.FirstDifferent | forwardport/models/project.py:584-585 | the position found is the first whose next branch differs from the batch's, and there is none exactly when all agree |
| PortForward.Notices | forwardport/models/project.py:584-597 | a refusal posts one notice per pull request, naming its own next branch and a different branch of a linked pull request |
| PortForward.MissingRemotes | forwardport/models/project.py:613-620 | the list of repositories without a forward-port remote is empty exactly when every repository of the batch has one |
| PortForward.PortForward | forwardport/models/project.py:560-620 | a batch is ported only when every pull request has the same next branch, no source was ported there already, the project has a token and every repository a remote; a refusal notifies every pull request and happens only when next branches disagree; it fails exactly when a next-branch lookup fails |
| PortForward.PortForwardDecides | forwardport/models/project.py:561-620 | once every next branch is known, each outcome holds exactly in its own case: no next branch for the first pull request, already ported, disagreeing next branches (refused), then on agreement no token, the missing remotes, or the port to the agreed branch |
| PortForward.EmptyBatchNothingToPort | forwardport/models/project.py:561-563 | only an empty batch has nothing to port |
| PortForward.AsWrittenAgreesWithoutMissingTargets | forwardport/models/project.py:584-604 | the code as written and the corrected check decide alike whenever every pull request of the batch has a next branch |
| PortForward.PortPastLimitAsWritten | forwardport/models/project.py:584 | a batch whose second pull request is already at its limit is ported to the first one's next branch as written, while the corrected check refuses it |
| Reminders.Dedup | forwardport/models/project.py:1053-1059 | grouping a sorted list of sources keeps each source once, in increasing order |
| Reminders.SourceList | forwardport/models/project.py:1053-1058 | the sources found are exactly those of forward-ports neither merged nor closed whose source was merged before the cutoff |
| Reminders.Sources | forwardport/models/project.py:1053-1059 | those sources are listed once each, in increasing id order |
| Reminders.OfSource | forwardport/models/project.py:1053-1059 | a source's group holds exactly its outstanding forward-ports |
| Reminders.OutstandingGroups | forwardport/models/project.py:1046-1059 | `_outstanding` gives one non-empty group per source, sources in increasing order, each holding exactly that source's outstanding forward-ports, and every outstanding forward-port lies in a group |
| Reminders.Pow2 | forwardport/models/project.py:1092 | the back-off of `2 ** factor` days is positive, negative factors included |
| Reminders.Pow2Succ | forwardport/models/project.py:1092-1096 | raising the factor by one doubles the back-off |
| Reminders.BackoffDoubles | forwardport/models/project.py:1092-1096 | after a reminder the source is due again only once twice the previous back-off has passed since its merge, and then it was already due before |
| Reminders.RemindAll | forwardport/models/project.py:1086-1103 | the reminder pass keeps the same sources' factors and lists each reminder's forward-ports sorted by number |
| Reminders.RemindAllBumpsDue | forwardport/models/project.py:1086-1103 | exactly the due sources are reminded, in group order, each with all of its forward-ports, and exactly their factors go up by one |
| Reminders.RemindAllFactors | forwardport/models/project.py:1091-1096 | the back-off factor of each grouped source goes up by one exactly when the source is due, and every other factor stays |
| Reminders.RemindAllSent | forwardport/models/project.py:1086-1103 | the reminders sent are the due groups, in group order, each carrying all of its forward-ports |
| Reminders.Backoff.constructor | forwardport/models/project.py:199 | every source starts with a back-off factor of -4 |
| Reminders.Backoff.Remind | forwardport/models/project.py:1086-1103 | `_reminder` sends the reminders and leaves the factors the reminder pass describes |
| GitOptions.Flag | forwardport/models/project.py:1198-1202 | every flag starts with `-`, and a one-letter key becomes `-` followed by the key |
| GitOptions.ToOptions | forwardport/models/project.py:1194-1205 | the options fail exactly when some value is `False`; otherwise there is one flag per key plus one value per key whose value is neither `None` nor `True` |
| GitOptions.ToOptionsOne | forwardport/models/project.py:1197-1205 | a single keyword argument other than `False` renders as its flag followed by `str(value)` unless the value is `None` or `True` |
| GitOptions.ToOptionsAppend | forwardport/models/project.py:1197-1205 | the options of a longer argument list are the options of its parts, one after the other, and they fail when either part fails |
| GitOptions.FlagRoundTrip | forwardport/models/project.py:1201-1202 | a longer key without `-` is read back from its flag by dropping `--` and writing `-` as `_` again |
| GitOptions.AsWrittenAgreesWithoutOne | forwardport/models/project.py:1203-1205 | without an integer 1 among the values, the code as written renders the intended options |
| GitOptions.OneIsDroppedAsWritten | forwardport/models/project.py:1203 | as written `n=1` renders only `-n`, where `-n 1` is meant |
| GitOptions.KeptLines | forwardport/models/project.py:1210-1217 | the kept lines are exactly the lines not starting with the rename-detection message |
| GitOptions.SplitLinesJoin | forwardport/models/project.py:1214-1217 | joining lines without breaks with `\n` and splitting them again gives them back, unless the last one is empty |
| GitOptions.CleanRenameIdempotent | forwardport/models/project.py:1210-1217 | cleaning twice is cleaning once, as long as the last kept line is not empty |

## Left out

The outside world:
- Docker, the filesystem, PostgreSQL, `_cmd`/`_checkout`, `_github_status` and logging calls of build.py: container state, times and configuration values are inputs, and log lines are datatypes rather than formatted text.
- Git commands of batch.py and forwardport (`_git`, `Repo`, `_create_fp_branch`, `_cherry_pick`, `_commits_lazy`): each command is a function from its arguments to its output, or `None` when it fails.
- GitHub calls of the freeze wizard, `fetch_github_email` and `_port_forward`: GitHub's answers are functions of the repository or login. The creation of the forward-port pull requests after the checks of `_port_forward` is not modelled.
- SHA-256 in `_compute_fingerprint` and in build errors: the fingerprint is the hashed value itself, which is injective.
- Regex matching, `fnmatch`, `parseaddr` and `safe_eval` domains are parameters. Only the parts of the patterns that the code builds itself are modelled: the regex of `_find_commands`, the `,\s*` split of the ordering, and the `'-'` test of teams.
- The clock (`time.time()`, `datetime.now()`, `time.sleep`) and randomness (`random.choice` of a project in `fetch_github_email`, the random suffix of forward-port branch names).
- BuildErrors.ErrorStore.WriteActive: its failure condition `MixedCycle` is proved to make the source's recursive write raise (`MixedCycleNeverEnds`). The converse, that without such a cycle the recursion ends and writes exactly the reached errors, is argued from the shape of `write` but not proved, and a tree deep enough to reach the recursion limit without a cycle is not modelled.
- Transactions and concurrency: the `FOR UPDATE` lock of `_ask_kill`, `cr.commit()` and its savepoints in the staging crons, and cross-host scheduling. The model is one sequential store, and a raised error rolls back by leaving the state as it was. `Batches.Batch.Process` handles one batch: the rollback of a failed `_prepare` also undoes the batches the same `_process` call handled before it, which the per-batch model does not capture.
- Floating point: coverage, memory limits, and `job_time`/`build_time`. The reminder back-off is in exact real days, where `relativedelta` counts calendar days.

Operations and details deliberately not modelled:
- The branch-head consistency info lines of `_prepare` (runbot/models/batch.py:195-205), which only log.
- `no_auto_run` and the GitHub status of `_create_build`.
- The dockerfile and version error logs of `_prepare`.
- `auto_rebase` and `_compute_base_id`.
- The search for forward-ports spanning an inserted branch, and the `forwardport.batches` it creates in `Project.write` (forwardport/models/project.py:131-157). The model stops at the classification into before, new and after.
- The database ordering of `_forward_port_ordered`: the model takes the branches already in that order and models only the construction of the ordering clause.
- `freeze_reminder`, `action_open` and the unlinking of the wizard after a freeze.
- `_hall_of_shame`, which only builds a report.
- The SQL view of build-error logs and its search hacks (runbot/models/event.py:97-228).

Modelling choices:
- Branch names in a project are taken as unique, and a pull request's parent is older (has a smaller id) than the pull request itself. Both hold for records the bots create.
- `_get_modules_to_test` returns a set. The source sorts it.
- Case-insensitive comparisons (`citext` logins, the `re.IGNORECASE` command prefix, ` desc` in orderings) and the `lower()` of e-mail addresses and of the CLA file in the CLA check use ASCII case mapping only.
- `Freeze.UnreadyCount`: the required pull requests are a list of ids, and an id listed twice is counted twice. The source's record set never holds an id twice.
- `MergeProject.FindCommands`: the commands are matched line by line. A bot name holding regex metacharacters is excluded by the precondition `PlainPrefix`.
- `GitOptions.ToOptions`: because `_to_options` is a generator, a `False` value makes the whole git call fail before anything runs, so the model returns a failure for the whole option list.
- `BatchSources.HeadOrder`: on the same head a pull-request branch sorts first, as `sorted((head.id, is_pr), reverse=True)` does in runbot/models/batch.py. A reading where the plain branch comes first would not match that code.
- `EventLog.WarningReplacesKo`: the trigger overwrites `triggered_result` with the level of the latest row, so a warning can replace an earlier ko (runbot/models/event.py:62-66). The model keeps that overwrite as written.
- `Reminders.OutstandingGroups`: the order `source_id, id` of `_outstanding` is taken to sort by source id. A many2one column sorts by its comodel's `_order`, and the `_order` of the pull requests is not part of this model; the groups' order and the one-group-per-source guarantee that `Reminders.RemindAll` relies on rest on this reading.
- `Builds.FingerprintOf`: the create batch is an optional component of the fingerprint, present exactly for batch-dependent triggers (see Findings).

Weaker contracts:
- Builds.BuildStore.Schedule: on a step change its own ensures do not give the step values written, because they are the result of `_get_next_job_values`, which is modelled by the method `BuildSteps.NextJobValues` and so cannot appear in a contract. Its ensures state the new state per outcome where it does not depend on those values (a timed-out kill, waiting, a finished testing step), together with the frame.
- Partners.Merged: its own contract states only that no partner is added or removed. `Partners.MergedLogins` and `Partners.MergedKeepsLoginsUnique` state the login transfer.
- Reminders.RemindAll: its own contract states the factors' keys and the sorting of each reminder. `Reminders.RemindAllBumpsDue` states which sources are reminded, with the precondition that each source has one group, which `_outstanding` guarantees.

## Findings

| source | as written | input that shows it | evidently intended | confidence | as-written member | corrected member |
|---|---|---|---|---|---|---|
| runbot/models/build.py:79-97 | line 96 is indented deeper than its block, so the text as given does not even parse (an `IndentationError`); the reading modelled as written is one possible one, in which the `if batch_dependent` at line 79 governs the whole fingerprint computation; taking that `if` as written, params of a batch-independent trigger get no fingerprint at all (the trailing comma of line 96 only wraps the id in a tuple, which the model ignores) | two batch-independent params differing in version and commits | every params row is fingerprinted, and the create batch is included only for batch-dependent triggers | not executed | Builds.FingerprintAsWrittenConflates | Builds.FingerprintIdentifies |
| runbot/models/build.py:431-435 | `_compute_build_age` tests `job_start` but subtracts `build_start` | a build with `job_start` set and `build_start` unset fails; with `build_start` earlier than `job_start` the age is too large | the time since `job_start`, 0 before it | not executed | BuildGc.BuildAgeAsWrittenMeasuresTheWrongStart | BuildGc.BuildAge |
| runbot/models/build.py:362-371 | `result_multi` tests for 'warning', which is not a value of `result_order` ('warn' is) | a group whose only non-ok result is 'warn' is reported 'ko' | a group with a warning and no worse result is reported 'warning' | not executed | BuildOrder.ResultMultiReportsWarnAsKo | BuildOrder.ResultMultiIsCollapsedWorst |
| runbot_merge/models/project_freeze/__init__.py:103-106 | the GET of the base branch uses the client's default `check=True`, which raises on any status of 400 or more (runbot_merge/github.py:107-131), so `prev.ok` is never false: a base branch that does not resolve raises an HTTP error out of `action_freeze`, with no message and no clean-up | two release rows, the branch created on the first repository, the base branch not resolving on the second: the first keeps its new branch | the failure is reported as "Unable to resolve branch …" and the branches already created are deleted | not executed; assumes `repository.github()` returns the client of runbot_merge/github.py, which is not part of this model | Freeze.GetFailureEscapesAsWritten | Freeze.Project.ActionFreeze |
| runbot_merge/models/project_freeze/__init__.py:127-131 | the clean-up calls `.delete(…)` on the GitHub client, which has no such method (runbot_merge/github.py defines `__call__` and named helpers only), so the first clean-up iteration raises AttributeError before any deletion; were it reached, `r.name` at line 131 would fail too, as a release row has no `name` field | two release rows, creation failing on the second repository: the first keeps its new branch | every repository before the failing one has its branch deleted, each failed deletion reported with the repository's name | not executed; assumes `repository.github()` returns the client of runbot_merge/github.py, which is not part of this model | Freeze.CleanupRaisesAsWritten | Freeze.CleanupAttemptsEarlierRows |
| forwardport/models/project.py:584 | `if different_target := next((t for t in all_targets if t != target), None)` cannot tell a differing next target of `None` from "no difference" | a batch of two on the same branch, the second already at its limit: the first's next branch is taken for both | a batch whose pull requests do not all have the same next branch is refused | not executed | PortForward.PortPastLimitAsWritten | PortForward.PortForward |
| forwardport/models/project.py:1203 | `v not in (None, True)` compares with `==`, and `1 == True` in Python, so an integer value 1 is dropped | `n=1` renders `-n` alone | `-n 1` | not executed | GitOptions.OneIsDroppedAsWritten | GitOptions.ToOptions |
