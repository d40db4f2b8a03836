// What `_prepare` reads about the world around a batch, and the rules it
// applies to it: the triggers and the repositories they need, the bundle's
// trigger customisations, the params of a slot, the order in which the
// branch heads are offered to `fill_missing`, the choice of the base batch
// whose commits fill the missing repositories, and the fixed order of the
// fallback sources. The database searches are inputs: each is the list of
// records the search's domain selects, and the ordering and `limit=1` parts
// of the searches are modelled here.
module BatchSources {
  import opened Wrappers
  import opened Text
  import opened Sorting
  import opened Builds
  import opened BatchLinks

  datatype Bundle = Bundle(
    id: nat,
    name: String,
    isBase: bool,
    sticky: bool,
    buildAll: bool,
    host: Option<String>,
    modules: Option<String>,
    version: nat,
    project: nat)

  /**
   * A `runbot.trigger` of the batch's project and category whose version
   * domain accepts the bundle's version. `referenceBuilds` is what
   * `_reference_builds(bundle)` returns for the batch's bundle.
   */
  datatype Trigger = Trigger(
    id: nat,
    repos: set<nat>,
    dependencies: set<nat>,
    config: Option<nat>,
    manual: bool,
    batchDependent: bool,
    description: Option<String>,
    referenceBuilds: set<nat>)

  /** A `runbot.bundle.trigger.custom` of the bundle: a config (possibly unset) and extra parameters (possibly unset). */
  datatype TriggerCustom = TriggerCustom(config: Option<nat>, extraParams: Option<String>)

  /** A batch of the base bundle, as the searches of `_prepare` see it. */
  datatype BaseBatch = BaseBatch(id: nat, preparing: bool, category: nat, links: seq<CommitLink>)

  /** Level of a bundle consistency message, and of a batch log line. */
  datatype LogLevel = Info | Warning

  /**
   * Everything `_prepare` reads besides the batch itself. `baseBatches` are
   * the batches of the bundle's base bundle; `masterBranches` those of the
   * master base bundle; `foreignBranches` and `foreignBaseBranches` those of
   * the same-named bundles and base bundles of the foreign projects;
   * `dockerfile` is the first dockerfile set on the bundle, its base, its
   * version or its project; `customs` maps a trigger id to the bundle's
   * customisation of it; `projectOf` gives a repository's project.
   */
  datatype PrepareEnv = PrepareEnv(
    consistency: seq<(LogLevel, String)>,
    triggers: seq<Trigger>,
    customs: map<nat, TriggerCustom>,
    bundleBranches: seq<Branch>,
    bundleRepos: set<nat>,
    baseBatches: seq<BaseBatch>,
    baseBranches: seq<Branch>,
    masterBranches: seq<Branch>,
    foreignBranches: seq<Branch>,
    foreignBaseBranches: seq<Branch>,
    projectOf: nat -> nat,
    dockerfile: Option<nat>,
    defaultCategory: nat,
    git: Git)

  // ------------------------------------------------------------ repositories

  /** `trigger.repo_ids | trigger.dependency_ids`. */
  function TriggerRepos(t: Trigger): set<nat>
  {
    t.repos + t.dependencies
  }

  /** `triggers.mapped('repo_ids') | triggers.mapped('dependency_ids')`. */
  function AllRepos(ts: seq<Trigger>): set<nat>
  {
    set i, r | 0 <= i < |ts| && r in TriggerRepos(ts[i]) :: r
  }

  /** `triggers.mapped('dependency_ids')`. */
  function DependencyRepos(ts: seq<Trigger>): set<nat>
  {
    set i, r | 0 <= i < |ts| && r in ts[i].dependencies :: r
  }

  /** The projects of the dependency repositories other than the bundle's own: where step 4 looks. */
  function ForeignProjects(ts: seq<Trigger>, projectOf: nat -> nat, project: nat): set<nat>
  {
    (set r | r in DependencyRepos(ts) :: projectOf(r)) - {project}
  }

  // ------------------------------------------------------------------- slots

  /** `config_by_trigger.get(trigger.id, trigger.config_id)`. */
  function ConfigOf(t: Trigger, customs: map<nat, TriggerCustom>): Option<nat>
  {
    if t.id in customs then customs[t.id].config else t.config
  }

  /** `params_by_trigger.get(trigger.id, '')`. */
  function ExtraParamsOf(t: Trigger, customs: map<nat, TriggerCustom>): Option<String>
  {
    if t.id in customs then customs[t.id].extraParams else Some("")
  }

  /** A trigger gets a slot when none of its repositories is missing and it has a config. */
  predicate GetsSlot(t: Trigger, customs: map<nat, TriggerCustom>, left: set<nat>)
  {
    TriggerRepos(t) !! left && ConfigOf(t, customs).Some?
  }

  /**
   * The slot's build is created or matched only when the bundle has a branch
   * in one of the trigger's own repositories, or builds everything, or is
   * sticky, and the trigger is not manual.
   */
  predicate AutoLinked(t: Trigger, bundle: Bundle, bundleRepos: set<nat>)
  {
    (t.repos * bundleRepos != {} || bundle.buildAll || bundle.sticky) && !t.manual
  }

  /** The commits behind `commit_link_by_repos[repo]` for the trigger's repositories. */
  function CommitsFor(links: seq<CommitLink>, repos: set<nat>): set<nat>
  {
    set i | 0 <= i < |links| && links[i].commit.repo in repos :: links[i].commit.id
  }

  /** The params values of the slot of trigger `t` in batch `batch`. */
  function SlotParams(batch: nat, bundle: Bundle, t: Trigger, config: nat, customs: map<nat, TriggerCustom>,
                      links: seq<CommitLink>, dockerfile: Option<nat>): (p: Params)
    ensures p.trigger == Some(t.id) && p.createBatch == Some(batch) && p.config == config
    ensures p.commits == CommitsFor(links, TriggerRepos(t)) && p.buildsReference == t.referenceBuilds
    ensures p.extraParams == ExtraParamsOf(t, customs) && p.version == bundle.version && p.project == bundle.project
  {
    Params(bundle.version, bundle.project, Some(t.id), Some(batch), "", ExtraParamsOf(t, customs), config,
           map[], bundle.modules, CommitsFor(links, TriggerRepos(t)), t.referenceBuilds,
           None, None, None, dockerfile, false)
  }

  /**
   * Every commit of a slot's params is the commit of one of the trigger's
   * repositories, and each of its repositories that has a link contributes
   * that link's commit.
   */
  lemma CommitsForOneLinkPerRepo(links: seq<CommitLink>, repos: set<nat>, i: nat)
    requires OneLinkPerRepo(links) && i < |links|
    ensures links[i].commit.id in CommitsFor(links, repos) <== links[i].commit.repo in repos
    ensures forall c :: c in CommitsFor(links, repos) ==>
      exists j :: 0 <= j < |links| && links[j].commit.id == c && links[j].commit.repo in repos
  {
  }

  // ---------------------------------------------------------------- heads

  /** Sort key of `sorted(lambda b: (b.head.id, b.is_pr), reverse=True)`. */
  function HeadKey(b: Branch): int
  {
    -(2 * b.head.id + if b.isPr then 1 else 0)
  }

  /** The bundle's branches, newest head first and, on the same head, pull requests first. */
  function HeadOrder(bs: seq<Branch>): seq<Branch>
  {
    SortBy(bs, HeadKey)
  }

  /** `HeadOrder` is a permutation in descending (head id, is pr) order. */
  lemma HeadOrderIsDescending(bs: seq<Branch>)
    ensures multiset(HeadOrder(bs)) == multiset(bs)
    ensures forall i, j :: 0 <= i < j < |HeadOrder(bs)| ==>
      var a := HeadOrder(bs)[i]; var b := HeadOrder(bs)[j];
      a.head.id > b.head.id || (a.head.id == b.head.id && (a.isPr || !b.isPr))
  {
    SortByIsSortedPermutation(bs, HeadKey);
    var s := HeadOrder(bs);
    forall i, j | 0 <= i < j < |s|
      ensures s[i].head.id > s[j].head.id || (s[i].head.id == s[j].head.id && (s[i].isPr || !s[j].isPr))
    {
      assert HeadKey(s[i]) <= HeadKey(s[j]);
    }
  }

  /** Sort key of `sorted('is_pr', reverse=True)`. */
  function PrKey(b: Branch): int
  {
    if b.isPr then 0 else 1
  }

  /** The foreign bundles' branches, pull requests first. */
  function PrFirst(bs: seq<Branch>): seq<Branch>
  {
    SortBy(bs, PrKey)
  }

  /** `PrFirst` is a permutation that puts every pull request before every branch. */
  lemma PrFirstPutsPrsFirst(bs: seq<Branch>)
    ensures multiset(PrFirst(bs)) == multiset(bs)
    ensures forall i, j :: 0 <= i < j < |PrFirst(bs)| && PrFirst(bs)[j].isPr ==> PrFirst(bs)[i].isPr
  {
    SortByIsSortedPermutation(bs, PrKey);
    var s := PrFirst(bs);
    forall i, j | 0 <= i < j < |s| && s[j].isPr ensures s[i].isPr {
      assert PrKey(s[i]) <= PrKey(s[j]);
    }
  }

  /** `{branch: branch.head for branch in bs}`: each branch offers its head. */
  function Heads(bs: seq<Branch>): (cs: seq<Candidate>)
    ensures |cs| == |bs| && forall i :: 0 <= i < |bs| ==> cs[i] == Candidate(bs[i], bs[i].head)
  {
    seq(|bs|, i requires 0 <= i < |bs| => Candidate(bs[i], bs[i].head))
  }

  /** `{link.branch_id: link.commit_id for link in batch.commit_link_ids}`. */
  function LinkCandidates(links: seq<CommitLink>): (cs: seq<Candidate>)
    ensures |cs| == |links| && forall i :: 0 <= i < |links| ==> cs[i] == Candidate(links[i].branch, links[i].commit)
  {
    seq(|links|, i requires 0 <= i < |links| => Candidate(links[i].branch, links[i].commit))
  }

  // ---------------------------------------------------------- base batches

  /** The domain of the `last_base_batch` search: not preparing, same category, not the batch itself. */
  predicate LastCandidate(b: BaseBatch, category: nat, self: nat)
  {
    !b.preparing && b.category == category && b.id != self
  }

  /** `search(..., order='id desc', limit=1)`: the newest base batch of the domain, if any. */
  function LastBaseBatch(bs: seq<BaseBatch>, category: nat, self: nat): (r: Option<BaseBatch>)
    ensures r.Some? ==> r.value in bs && LastCandidate(r.value, category, self)
    ensures r.Some? ==> forall b :: b in bs && LastCandidate(b, category, self) ==> b.id <= r.value.id
    ensures r.None? ==> forall b :: b in bs ==> !LastCandidate(b, category, self)
  {
    if bs == [] then None
    else
      var prev := LastBaseBatch(bs[..|bs| - 1], category, self);
      var b := bs[|bs| - 1];
      assert bs == bs[..|bs| - 1] + [b];
      if LastCandidate(b, category, self) && (prev.None? || b.id > prev.value.id) then Some(b) else prev
  }

  /** `{commit.repo_id.id: commit for commit in batch.commit_ids}`: a later link of a repository wins. */
  function BaseHeads(links: seq<CommitLink>): (m: map<nat, Commit>)
    ensures m.Keys == LinkedRepos(links)
  {
    if links == [] then map[]
    else
      var l := links[|links| - 1];
      LinkedReposAppend(links[..|links| - 1], [l]);
      LinkedReposOne(l);
      assert links == links[..|links| - 1] + [l];
      BaseHeads(links[..|links| - 1])[l.commit.repo := l.commit]
  }

  /** With one link per repository, each repository's base head is the commit of its link. */
  lemma {:induction false} BaseHeadsOfLinks(links: seq<CommitLink>)
    requires OneLinkPerRepo(links)
    ensures forall i :: 0 <= i < |links| ==> BaseHeads(links)[links[i].commit.repo] == links[i].commit
  {
    if links != [] {
      var front := links[..|links| - 1];
      BaseHeadsOfLinks(front);
      var l := links[|links| - 1];
      forall i | 0 <= i < |links| ensures BaseHeads(links)[links[i].commit.repo] == links[i].commit {
        if i < |links| - 1 {
          assert links[i] == front[i];
          assert links[i].commit.repo in LinkedRepos(front);
        }
      }
    }
  }

  /** The base heads of the last base batch, none when there is no such batch. */
  function BaseHeadsOf(last: Option<BaseBatch>): map<nat, Commit>
  {
    if last.Some? then BaseHeads(last.value.links) else map[]
  }

  /** `commit_link_ids.mapped('merge_base_commit_id')`. */
  function MergeBases(links: seq<CommitLink>): set<Commit>
  {
    set i | 0 <= i < |links| && links[i].mergeBaseCommit.Some? :: links[i].mergeBaseCommit.value
  }

  /** `commit_ids` of a batch. */
  function CommitsOf(links: seq<CommitLink>): set<Commit>
  {
    set i | 0 <= i < |links| :: links[i].commit
  }

  /**
   * The domain of the base batch search: not preparing, same category, and
   * holding a 'new' or 'head' link to one of the merge-base commits.
   */
  predicate Qualifies(b: BaseBatch, mb: set<Commit>, category: nat)
  {
    && !b.preparing && b.category == category
    && exists i :: 0 <= i < |b.links| && b.links[i].commit in mb && (b.links[i].matchType == New || b.links[i].matchType == Head)
  }

  /** How many of the merge-base commits a base batch holds. */
  function Overlap(b: BaseBatch, mb: set<Commit>): nat
  {
    |CommitsOf(b.links) * mb|
  }

  /** `(len(b.commit_ids & merge_base_commits), b.id)` of `a` is greater than that of `b`. */
  predicate Better(a: BaseBatch, b: BaseBatch, mb: set<Commit>)
  {
    Overlap(a, mb) > Overlap(b, mb) || (Overlap(a, mb) == Overlap(b, mb) && a.id > b.id)
  }

  /**
   * `batches.sorted(lambda b: (len(b.commit_ids & merge_base_commits), b.id), reverse=True)[0]`
   * over the qualifying base batches.
   */
  function BestBaseBatch(bs: seq<BaseBatch>, mb: set<Commit>, category: nat): Option<BaseBatch>
  {
    if bs == [] then None
    else
      var prev := BestBaseBatch(bs[..|bs| - 1], mb, category);
      var b := bs[|bs| - 1];
      if Qualifies(b, mb, category) && (prev.None? || Better(b, prev.value, mb)) then Some(b) else prev
  }

  /**
   * The chosen base batch qualifies and no qualifying batch is better; there
   * is none exactly when no base batch qualifies.
   */
  lemma {:induction false} BestBaseBatchIsBest(bs: seq<BaseBatch>, mb: set<Commit>, category: nat)
    ensures var r := BestBaseBatch(bs, mb, category);
      && (r.Some? ==> r.value in bs && Qualifies(r.value, mb, category))
      && (r.Some? ==> forall b :: b in bs && Qualifies(b, mb, category) ==> !Better(b, r.value, mb))
      && (r.None? <==> forall b :: b in bs ==> !Qualifies(b, mb, category))
  {
    if bs != [] {
      var front := bs[..|bs| - 1];
      BestBaseBatchIsBest(front, mb, category);
      var b := bs[|bs| - 1];
      assert bs == front + [b];
    }
  }

  /**
   * The chosen batch's commits in the repositories of the merge bases that
   * are not merge bases: the "rebase" tips.
   */
  function NotMatching(chosen: BaseBatch, mb: set<Commit>): set<Commit>
  {
    (set c | c in CommitsOf(chosen.links) && c.repo in (set m | m in mb :: m.repo)) - mb
  }

  // --------------------------------------------------------- fallback chain

  /** Step 1.1: the bundle's branch heads, newest first. */
  function BundleHeads(env: PrepareEnv): Source
  {
    Source(Heads(HeadOrder(env.bundleBranches)), Head)
  }

  /** Step 2: the links of the chosen base batch, not for a base bundle. */
  function ChosenSources(bundle: Bundle, chosen: Option<BaseBatch>): seq<Source>
  {
    if !bundle.isBase && chosen.Some? then [Source(LinkCandidates(chosen.value.links), BaseMatch)] else []
  }

  /**
   * Steps 3.1 to 4: the base bundle heads, the master base bundle heads,
   * and, when there are foreign projects, the same-named foreign bundles'
   * heads (pull requests first) and their base bundles' heads.
   */
  function FallbackSources(bundle: Bundle, env: PrepareEnv): (ss: seq<Source>)
    ensures |ss| >= 2
    ensures ss[0] == Source(Heads(env.baseBranches), BaseHead) && ss[1] == Source(Heads(env.masterBranches), BaseHead)
    ensures |ss| == (if ForeignProjects(env.triggers, env.projectOf, bundle.project) != {} then 4 else 2)
    ensures |ss| == 4 ==> ss[2] == Source(Heads(PrFirst(env.foreignBranches)), Head)
    ensures |ss| == 4 ==> ss[3] == Source(Heads(env.foreignBaseBranches), BaseHead)
  {
    BaseFallbacks(env) + ForeignPart(bundle, env)
  }

  /** The foreign steps are taken only when some trigger depends on a repository of another project. */
  function ForeignPart(bundle: Bundle, env: PrepareEnv): seq<Source>
  {
    if ForeignProjects(env.triggers, env.projectOf, bundle.project) != {} then ForeignFallbacks(env) else []
  }

  /** Steps 3.1 and 3.2: the heads of the base bundle, then of the master base bundle. */
  function BaseFallbacks(env: PrepareEnv): seq<Source>
  {
    [Source(Heads(env.baseBranches), BaseHead), Source(Heads(env.masterBranches), BaseHead)]
  }

  /** Steps 3.3 and 4: the heads of the foreign bundles, pull requests first, then of their base bundles. */
  function ForeignFallbacks(env: PrepareEnv): seq<Source>
  {
    [Source(Heads(PrFirst(env.foreignBranches)), Head), Source(Heads(env.foreignBaseBranches), BaseHead)]
  }

  /** `fill_missing` has nothing to do once no repository is missing. */
  lemma {:induction false} FillNothingMissing(cands: seq<Candidate>, matchType: MatchType)
    ensures Fill(cands, matchType, {}) == Filled([], {}, [])
  {
    if cands != [] {
      FillNothingMissing(cands[..|cands| - 1], matchType);
    }
  }

  /** Neither has the chain. */
  lemma {:induction false} FillChainNothingMissing(sources: seq<Source>)
    ensures FillChain(sources, {}) == Filled([], {}, [])
  {
    if sources != [] {
      FillChainNothingMissing(sources[..|sources| - 1]);
      var s := sources[|sources| - 1];
      FillNothingMissing(s.cands, s.matchType);
    }
  }

  /** The chain over `ss + [s]` is the chain over `ss` followed by `fill_missing` on `s`. */
  lemma FillChainSnoc(ss: seq<Source>, s: Source, missing: set<nat>)
    ensures var before := FillChain(ss, missing);
      var step := Fill(s.cands, s.matchType, before.left);
      FillChain(ss + [s], missing) == Filled(before.links + step.links, step.left, before.deadSkipped + step.deadSkipped)
  {
    assert (ss + [s])[..|ss|] == ss;
  }

  /** A chain of one source is `fill_missing` on it. */
  lemma FillChainOne(s: Source, missing: set<nat>)
    ensures FillChain([s], missing) == Fill(s.cands, s.matchType, missing)
  {
    FillChainSnoc([], s, missing);
    assert [] + [s] == [s];
  }

  /** The chain over `ss + ts` is the chain over `ss` followed by the chain over `ts` on what it left. */
  lemma {:induction false} FillChainAppend(ss: seq<Source>, ts: seq<Source>, missing: set<nat>)
    ensures var a := FillChain(ss, missing);
      var b := FillChain(ts, a.left);
      FillChain(ss + ts, missing) == Filled(a.links + b.links, b.left, a.deadSkipped + b.deadSkipped)
    decreases |ts|
  {
    if ts == [] {
      assert ss + ts == ss;
    } else {
      var front := ts[..|ts| - 1];
      var last := ts[|ts| - 1];
      var a := FillChain(ss, missing);
      var mid := FillChain(front, a.left);
      var step := Fill(last.cands, last.matchType, mid.left);
      var before := FillChain(ss + front, missing);
      assert before == Filled(a.links + mid.links, mid.left, a.deadSkipped + mid.deadSkipped) by {
        FillChainAppend(ss, front, missing);
      }
      assert FillChain(ts, a.left) == Filled(mid.links + step.links, step.left, mid.deadSkipped + step.deadSkipped) by {
        assert front + [last] == ts;
        FillChainSnoc(front, last, a.left);
      }
      assert FillChain(ss + ts, missing) == Filled(before.links + step.links, step.left, before.deadSkipped + step.deadSkipped) by {
        assert ss + ts == (ss + front) + [last];
        FillChainSnoc(ss + front, last, missing);
      }
      AppendAssoc(a.links, mid.links, step.links);
      AppendAssoc(a.deadSkipped, mid.deadSkipped, step.deadSkipped);
    }
  }

  /**
   * Missing repositories are resolved in a fixed order: what `_prepare`
   * fills step by step (the bundle heads, then the chosen base batch, then
   * the fallbacks, each on what the previous ones left) is the chain over
   * the sources in that order.
   */
  lemma MissingFilledInOrder(bundle: Bundle, env: PrepareEnv, chosen: Option<BaseBatch>, missing: set<nat>)
    ensures var f1 := Fill(BundleHeads(env).cands, Head, missing);
      var f2 := FillChain(ChosenSources(bundle, chosen), f1.left);
      var f3 := FillChain(FallbackSources(bundle, env), f2.left);
      var all := FillChain([BundleHeads(env)] + ChosenSources(bundle, chosen) + FallbackSources(bundle, env), missing);
      all.links == f1.links + f2.links + f3.links && all.left == f3.left
  {
    var s1 := [BundleHeads(env)];
    var s2 := ChosenSources(bundle, chosen);
    var s3 := FallbackSources(bundle, env);
    FillChainOne(BundleHeads(env), missing);
    FillChainAppend(s1, s2, missing);
    FillChainAppend(s1 + s2, s3, missing);
  }
}
