// A bundle batch (`runbot.batch`): while it is preparing it collects the
// heads pushed on the bundle's branches; once the throttle delay is over it
// fills the repositories the triggers need from a chain of fallback sources,
// annotates its links against the base bundle, creates one slot per eligible
// trigger (reusing an identical root build when there is one) and skips the
// older batches of its bundle. A ready batch is done once every slot build
// runs or is done. Logs are structured events rather than formatted text.
module Batches {
  import opened Wrappers
  import opened Text
  import opened Sorting
  import opened BuildOrder
  import opened BuildTree
  import opened Builds
  import opened BatchLinks
  import opened BatchSources

  datatype BatchState = Preparing | Ready | BatchDone | BatchSkipped

  /** What a batch log line says, one constructor per message the batch writes. */
  datatype BatchEvent =
    | HeadReplaced(branch: String, replaced: String, replacement: String)
    | SkippingBatch
    | BuildInUse(build: BuildId, bundles: set<nat>)
    | BatchDoneEvent
    | BundleWarning(message: String)
    | DeadBranchSkipped(branch: String)
    | UsingBaseBatch(batch: nat)
    | MergeBaseMismatch(matched: int, total: int, notMatching: set<Commit>)
    | FallbackBaseHeads
    | FallbackMasterHeads
    | FallbackForeignHeads
    | MissingTriggerCommit(trigger: nat, repos: set<nat>)
    | NoBaseHead(repo: nat)
    | CommitInfoFailed(commit: String, baseHead: String)

  datatype LogLine = LogLine(level: LogLevel, event: BatchEvent)

  /** The log line `_new_commit` writes: only when the head replaces another commit of its repository. */
  function HeadReplacedLog(links: seq<CommitLink>, branch: Branch): seq<LogLine>
  {
    var i := FirstLinkOf(links, branch.head.repo);
    if i < |links| && links[i].commit.id != branch.head.id then
      [LogLine(Info, HeadReplaced(branch.name, links[i].commit.name, branch.head.name))]
    else []
  }

  /** One "Skipping dead branch" line per dead branch `fill_missing` passed over. */
  function DeadLog(names: seq<String>): seq<LogLine>
  {
    if names == [] then []
    else DeadLog(names[..|names| - 1]) + [LogLine(Info, DeadBranchSkipped(names[|names| - 1]))]
  }

  /** `log` starts with `prefix`. */
  predicate Extends(log: seq<LogLine>, prefix: seq<LogLine>)
  {
    |prefix| <= |log| && log[..|prefix|] == prefix
  }

  lemma ExtendsAppend(a: seq<LogLine>, b: seq<LogLine>, c: seq<LogLine>)
    requires Extends(b, a)
    ensures Extends(b + c, a)
  {
    assert (b + c)[..|a|] == b[..|a|];
  }

  lemma AppendExtends(a: seq<LogLine>, b: seq<LogLine>)
    ensures Extends(a + b, a)
  {
    assert (a + b)[..|a|] == a;
  }

  lemma ExtendsTrans(a: seq<LogLine>, b: seq<LogLine>, c: seq<LogLine>)
    requires Extends(b, a) && Extends(c, b)
    ensures Extends(c, a)
  {
    assert c[..|a|] == c[..|b|][..|a|];
  }

  /** Where `fill_missing` stands after the first `i` candidates, from `links0` and `log0`. */
  ghost predicate PartlyFilled(links: seq<CommitLink>, log: seq<LogLine>, left: set<nat>,
                               links0: seq<CommitLink>, log0: seq<LogLine>,
                               cands: seq<Candidate>, i: nat, matchType: MatchType, missing: set<nat>)
  {
    && i <= |cands|
    && var f := Fill(cands[..i], matchType, missing);
       links == links0 + f.links && left == f.left && log == log0 + DeadLog(f.deadSkipped)
  }

  lemma FillPrefixStep(cands: seq<Candidate>, i: nat, matchType: MatchType, missing: set<nat>)
    requires i < |cands|
    ensures var before := Fill(cands[..i], matchType, missing);
      var c := cands[i];
      Fill(cands[..i + 1], matchType, missing) ==
        if c.commit.repo !in before.left then before
        else if !c.branch.alive then before.(deadSkipped := before.deadSkipped + [c.branch.name])
        else Filled(before.links + [FilledLink(c, matchType)], before.left - {c.commit.repo}, before.deadSkipped)
  {
    var prefix := cands[..i + 1];
    assert prefix[..i] == cands[..i] && prefix[i] == cands[i];
  }

  lemma FillSkipsFilled(links: seq<CommitLink>, log: seq<LogLine>, left: set<nat>,
                        links0: seq<CommitLink>, log0: seq<LogLine>,
                        cands: seq<Candidate>, i: nat, matchType: MatchType, missing: set<nat>)
    requires i < |cands| && PartlyFilled(links, log, left, links0, log0, cands, i, matchType, missing)
    requires cands[i].commit.repo !in left
    ensures PartlyFilled(links, log, left, links0, log0, cands, i + 1, matchType, missing)
  {
    FillPrefixStep(cands, i, matchType, missing);
  }

  lemma FillSkipsDead(links: seq<CommitLink>, log: seq<LogLine>, left: set<nat>,
                      links0: seq<CommitLink>, log0: seq<LogLine>,
                      cands: seq<Candidate>, i: nat, matchType: MatchType, missing: set<nat>)
    requires i < |cands| && PartlyFilled(links, log, left, links0, log0, cands, i, matchType, missing)
    requires cands[i].commit.repo in left && !cands[i].branch.alive
    ensures PartlyFilled(links, log + [LogLine(Info, DeadBranchSkipped(cands[i].branch.name))], left,
                         links0, log0, cands, i + 1, matchType, missing)
  {
    FillPrefixStep(cands, i, matchType, missing);
    var before := Fill(cands[..i], matchType, missing);
    var names := before.deadSkipped + [cands[i].branch.name];
    assert names[..|names| - 1] == before.deadSkipped;
  }

  lemma FillLinksLive(links: seq<CommitLink>, log: seq<LogLine>, left: set<nat>,
                      links0: seq<CommitLink>, log0: seq<LogLine>,
                      cands: seq<Candidate>, i: nat, matchType: MatchType, missing: set<nat>)
    requires i < |cands| && PartlyFilled(links, log, left, links0, log0, cands, i, matchType, missing)
    requires cands[i].commit.repo in left && cands[i].branch.alive
    ensures PartlyFilled(links + [FilledLink(cands[i], matchType)], log, left - {cands[i].commit.repo},
                         links0, log0, cands, i + 1, matchType, missing)
  {
    FillPrefixStep(cands, i, matchType, missing);
    var before := Fill(cands[..i], matchType, missing);
    assert links + [FilledLink(cands[i], matchType)] == links0 + (before.links + [FilledLink(cands[i], matchType)]);
  }

  // ------------------------------------------------- commit infos, as a value

  /** The link identity `_update_commits_infos` never touches: commit, branch and match type. */
  predicate SameKey(a: CommitLink, b: CommitLink)
  {
    a.commit == b.commit && a.branch == b.branch && a.matchType == b.matchType
  }

  /**
   * `_update_commits_infos` for one link: annotated against the base head of
   * its repository (with a warning when a git command failed), or kept with a
   * warning when there is none. `None` when a ValueError escapes.
   */
  function LinkStep(l: CommitLink, baseHeads: map<nat, Commit>, git: Git): (r: Option<(CommitLink, seq<LogLine>)>)
    ensures r.Some? ==> SameKey(r.value.0, l)
    ensures r.Some? && l.commit.repo in baseHeads ==> r.value.0.baseCommit == Some(baseHeads[l.commit.repo])
    ensures l.commit.repo !in baseHeads ==> r == Some((l, [LogLine(Warning, NoBaseHead(l.commit.repo))]))
  {
    if l.commit.repo !in baseHeads then Some((l, [LogLine(Warning, NoBaseHead(l.commit.repo))]))
    else match LinkInfo(l, baseHeads[l.commit.repo], git)
      case LinkRaised => None
      case LinkUpdated(nl, failed) =>
        Some((nl, if failed then [LogLine(Warning, CommitInfoFailed(l.commit.name, baseHeads[l.commit.repo].name))] else []))
  }

  /**
   * `_update_commits_infos(base_heads)` over `links`: every link in turn, its
   * log lines in order; `None` when one of them raises.
   */
  function UpdatedLinks(links: seq<CommitLink>, baseHeads: map<nat, Commit>, git: Git)
    : (r: Option<(seq<CommitLink>, seq<LogLine>)>)
    ensures r.Some? ==> |r.value.0| == |links|
  {
    if links == [] then Some(([], []))
    else match UpdatedLinks(links[..|links| - 1], baseHeads, git)
      case None => None
      case Some(done) =>
        match LinkStep(links[|links| - 1], baseHeads, git)
        case None => None
        case Some(step) => Some((done.0 + [step.0], done.1 + step.1))
  }

  lemma UpdatedLinksPrefixStep(links: seq<CommitLink>, baseHeads: map<nat, Commit>, git: Git, i: nat)
    requires i < |links| && UpdatedLinks(links[..i], baseHeads, git).Some?
    ensures var u := UpdatedLinks(links[..i], baseHeads, git).value;
      UpdatedLinks(links[..i + 1], baseHeads, git) ==
        match LinkStep(links[i], baseHeads, git)
        case None => None
        case Some(step) => Some((u.0 + [step.0], u.1 + step.1))
  {
    var prefix := links[..i + 1];
    assert prefix[..i] == links[..i] && prefix[i] == links[i];
  }

  /**
   * The update keeps each link's commit, branch and match type, records the
   * base head of its repository, and leaves the links without one as they were.
   */
  lemma {:induction false} UpdatedLinksKeepKeys(links: seq<CommitLink>, baseHeads: map<nat, Commit>, git: Git)
    requires UpdatedLinks(links, baseHeads, git).Some?
    ensures var r := UpdatedLinks(links, baseHeads, git).value.0;
      forall i :: 0 <= i < |links| ==>
        && SameKey(r[i], links[i])
        && (links[i].commit.repo in baseHeads ==> r[i].baseCommit == Some(baseHeads[links[i].commit.repo]))
        && (links[i].commit.repo !in baseHeads ==> r[i] == links[i])
  {
    if links != [] {
      var front := links[..|links| - 1];
      UpdatedLinksKeepKeys(front, baseHeads, git);
      var r := UpdatedLinks(links, baseHeads, git).value.0;
      var done := UpdatedLinks(front, baseHeads, git).value.0;
      assert r == done + [LinkStep(links[|links| - 1], baseHeads, git).value.0];
      forall i | 0 <= i < |links| - 1 ensures r[i] == done[i] && links[i] == front[i] {
      }
    }
  }

  /**
   * `links`, `log` and `warned` are where `_update_commits_infos` stands
   * after the first `i` links of `links0`.
   */
  ghost predicate PartlyUpdated(links: seq<CommitLink>, log: seq<LogLine>, warned: bool,
                                links0: seq<CommitLink>, log0: seq<LogLine>, warned0: bool,
                                i: nat, baseHeads: map<nat, Commit>, git: Git)
  {
    && i <= |links0|
    && UpdatedLinks(links0[..i], baseHeads, git).Some?
    && var u := UpdatedLinks(links0[..i], baseHeads, git).value;
       links == u.0 + links0[i..] && log == log0 + u.1 && warned == (warned0 || u.1 != [])
  }

  lemma PartlyUpdatedAt(links: seq<CommitLink>, log: seq<LogLine>, warned: bool,
                        links0: seq<CommitLink>, log0: seq<LogLine>, warned0: bool,
                        i: nat, baseHeads: map<nat, Commit>, git: Git)
    requires i < |links0| && PartlyUpdated(links, log, warned, links0, log0, warned0, i, baseHeads, git)
    ensures i < |links| && links[i] == links0[i]
  {
    assert |UpdatedLinks(links0[..i], baseHeads, git).value.0| == i;
  }

  /** Updating link `i` in place advances the partial update by one link. */
  lemma PartlyUpdatedStep(links: seq<CommitLink>, log: seq<LogLine>, warned: bool,
                          links0: seq<CommitLink>, log0: seq<LogLine>, warned0: bool,
                          i: nat, baseHeads: map<nat, Commit>, git: Git)
    requires i < |links0| && PartlyUpdated(links, log, warned, links0, log0, warned0, i, baseHeads, git)
    requires LinkStep(links0[i], baseHeads, git).Some?
    ensures var step := LinkStep(links0[i], baseHeads, git).value;
      i < |links| &&
      PartlyUpdated(links[i := step.0], log + step.1, warned || step.1 != [], links0, log0, warned0, i + 1, baseHeads, git)
  {
    UpdatedLinksPrefixStep(links0, baseHeads, git, i);
    var u := UpdatedLinks(links0[..i], baseHeads, git).value;
    var step := LinkStep(links0[i], baseHeads, git).value;
    assert UpdatedLinks(links0[..i + 1], baseHeads, git) == Some((u.0 + [step.0], u.1 + step.1));
    assert |u.0| == i;
    assert links[i := step.0] == (u.0 + [step.0]) + links0[i + 1..] by {
      UpdateAfterPrefix(u.0, links0[i..], step.0);
      assert links0[i..][1..] == links0[i + 1..];
    }
    assert log + step.1 == log0 + (u.1 + step.1) by {
      AppendAssoc(log0, u.1, step.1);
    }
  }

  /** Replacing the first element after a prefix. */
  lemma UpdateAfterPrefix<T>(a: seq<T>, b: seq<T>, x: T)
    requires b != []
    ensures (a + b)[|a| := x] == (a + [x]) + b[1..]
  {
  }

  /** Part way through the update the links still hold their commits, so one link per repository is kept. */
  lemma PartialUpdateKeepsLinks(links: seq<CommitLink>, baseHeads: map<nat, Commit>, git: Git, i: nat)
    requires i <= |links| && UpdatedLinks(links[..i], baseHeads, git).Some? && OneLinkPerRepo(links)
    ensures var r := UpdatedLinks(links[..i], baseHeads, git).value.0 + links[i..];
      && |r| == |links| && (forall k :: 0 <= k < |r| ==> SameKey(r[k], links[k])) && OneLinkPerRepo(r)
  {
    var u := UpdatedLinks(links[..i], baseHeads, git).value.0;
    UpdatedLinksKeepKeys(links[..i], baseHeads, git);
    var r := u + links[i..];
    forall k | 0 <= k < |r| ensures SameKey(r[k], links[k]) {
      if k < i {
        assert r[k] == u[k] && links[..i][k] == links[k];
      } else {
        assert r[k] == links[i..][k - i];
      }
    }
  }

  /** Once one link raises, the whole update raises. */
  lemma {:induction false} UpdateFailureSticks(links: seq<CommitLink>, baseHeads: map<nat, Commit>, git: Git, i: nat)
    requires i <= |links| && UpdatedLinks(links[..i], baseHeads, git).None?
    ensures UpdatedLinks(links, baseHeads, git).None?
    decreases |links| - i
  {
    if i < |links| {
      assert links[..i + 1][..i] == links[..i];
      UpdateFailureSticks(links, baseHeads, git, i + 1);
    } else {
      assert links[..i] == links;
    }
  }

  /** Once a numstat line does not unpack, the totals are never computed. */
  lemma {:induction false} NumstatFailureSticks(lines: seq<String>, i: nat)
    requires i <= |lines| && NumstatTotals(lines[..i]).None?
    ensures NumstatTotals(lines).None?
    decreases |lines| - i
  {
    if i < |lines| {
      assert lines[..i + 1][..i] == lines[..i];
      NumstatFailureSticks(lines, i + 1);
    } else {
      assert lines[..i] == lines;
    }
  }

  lemma NumstatPrefixStep(lines: seq<String>, i: nat, acc: Numstat)
    requires i < |lines| && NumstatTotals(lines[..i]) == Some(acc)
    ensures NumstatTotals(lines[..i + 1]) == NumstatLine(acc, Words(lines[i]))
  {
    var prefix := lines[..i + 1];
    assert prefix[..i] == lines[..i] && prefix[i] == lines[i];
  }

  /** One numstat line: the file is counted, then each count is added while it parses. */
  method AddNumstatLine(acc: Numstat, ws: seq<String>) returns (r: Option<Numstat>)
    ensures r == NumstatLine(acc, ws)
  {
    var files := acc.files + 1;
    if |ws| < 3 {
      return None;
    }
    var counted := acc;
    var add := ParseInt(ws[0]);
    if add.Some? {
      counted := counted.(added := counted.added + add.value);
      var remove := ParseInt(ws[1]);
      if remove.Some? {
        counted := counted.(removed := counted.removed + remove.value);
      }
    }
    return Some(counted.(files := files));
  }

  /** The numstat loop of `_update_commits_infos`: counters incremented line by line. */
  method CountNumstat(lines: seq<String>) returns (r: Option<Numstat>)
    ensures r == NumstatTotals(lines)
  {
    var acc := Numstat(0, 0, 0);
    var i := 0;
    while i < |lines|
      invariant 0 <= i <= |lines|
      invariant NumstatTotals(lines[..i]) == Some(acc)
    {
      var next := AddNumstatLine(acc, Words(lines[i]));
      NumstatPrefixStep(lines, i, acc);
      if next.None? {
        NumstatFailureSticks(lines, i + 1);
        return None;
      }
      acc := next.value;
      i := i + 1;
    }
    assert lines[..i] == lines;
    return Some(acc);
  }

  /** The body of `_update_commits_infos` for one link with a base head, step by step. */
  method UpdateLinkInfo(l: CommitLink, base: Commit, git: Git) returns (o: LinkOutcome)
    ensures o == LinkInfo(l, base, git)
  {
    var commit := l.commit;
    var link := l.(baseCommit := Some(base), baseAhead := 0, baseBehind := 0, fileChanged := 0,
                   diffAdd := 0, diffRemove := 0, mergeBaseCommit := Some(commit));
    if commit.name == base.name {
      return LinkUpdated(link, false);
    }
    var mb := git.mergeBase(commit.name, base.name);
    if mb.None? {
      return LinkUpdated(link, true);
    }
    var mbSha := Strip(mb.value);
    link := link.(mergeBaseCommit := Some(git.commitOf(mbSha, commit.repo)));
    var counts := git.revListCount(commit.name, base.name);
    if counts.None? {
      return LinkUpdated(link, true);
    }
    var ab := ParseAheadBehind(counts.value);
    if ab.None? {
      return LinkRaised;
    }
    o := UpdateLinkDiff(link.(baseAhead := ab.value.0, baseBehind := ab.value.1), mbSha, git);
  }

  /** The numstat stage of `_update_commits_infos` for one link. */
  method UpdateLinkDiff(link: CommitLink, mbSha: String, git: Git) returns (o: LinkOutcome)
    ensures o == LinkDiff(link, mbSha, git)
  {
    if mbSha == link.commit.name {
      return LinkUpdated(link, false);
    }
    var diffOut := git.diffNumstat(mbSha, link.commit.name);
    if diffOut.None? {
      return LinkUpdated(link, true);
    }
    var diff := Strip(diffOut.value);
    if diff == [] {
      return LinkUpdated(link, false);
    }
    var n := CountNumstat(Split(diff, '\n'));
    if n.None? {
      return LinkRaised;
    }
    return LinkUpdated(link.(fileChanged := n.value.files, diffAdd := n.value.added, diffRemove := n.value.removed), false);
  }

  // ------------------------------------------------------- _prepare, as values

  /** The "Bundle warning" lines of `_prepare`: one per warning-level consistency message, in order. */
  function ConsistencyLog(ws: seq<(LogLevel, String)>): seq<LogLine>
  {
    if ws == [] then [] else
    ConsistencyLog(ws[..|ws| - 1])
      + (if ws[|ws| - 1].0 == Warning then [LogLine(Warning, BundleWarning(ws[|ws| - 1].1))] else [])
  }

  lemma ConsistencyLogPrefixStep(ws: seq<(LogLevel, String)>, i: nat)
    requires i < |ws|
    ensures ConsistencyLog(ws[..i + 1]) ==
      ConsistencyLog(ws[..i]) + (if ws[i].0 == Warning then [LogLine(Warning, BundleWarning(ws[i].1))] else [])
  {
    var prefix := ws[..i + 1];
    assert prefix[..i] == ws[..i] && prefix[i] == ws[i];
  }

  /** Every warning-level consistency message is logged as a warning, and nothing else is logged. */
  lemma {:induction false} ConsistencyLogWarns(ws: seq<(LogLevel, String)>)
    ensures forall j :: 0 <= j < |ws| && ws[j].0 == Warning ==> LogLine(Warning, BundleWarning(ws[j].1)) in ConsistencyLog(ws)
    ensures forall line :: line in ConsistencyLog(ws) ==>
      line.level == Warning && line.event.BundleWarning? && (Warning, line.event.message) in ws
  {
    if ws != [] {
      var front := ws[..|ws| - 1];
      ConsistencyLogWarns(front);
      assert ws == front + [ws[|ws| - 1]];
      forall j | 0 <= j < |ws| - 1 ensures ws[j] == front[j] {
      }
    }
  }

  /** An info line for `note`, if any. */
  function NoteLog(note: Option<BatchEvent>): seq<LogLine>
  {
    if note.Some? then [LogLine(Info, note.value)] else []
  }

  /**
   * The log of one `if missing_repos:` step that fills from `f`'s candidates:
   * nothing when no repository was missing, otherwise the step's note and
   * the dead branches it passed over.
   */
  function StepLog(note: Option<BatchEvent>, left: set<nat>, f: Filled): seq<LogLine>
  {
    if left == {} then [] else NoteLog(note) + DeadLog(f.deadSkipped)
  }

  /** The note of a base fallback step: only a batch of a non-base bundle logs it. */
  function BaseNote(bundle: Bundle, e: BatchEvent): Option<BatchEvent>
  {
    if bundle.isBase then None else Some(e)
  }

  /** What two fallback steps log, each with its note, starting from `left` missing repositories. */
  function PairLog(pair: seq<Source>, note1: Option<BatchEvent>, note2: Option<BatchEvent>, left: set<nat>): seq<LogLine>
    requires |pair| == 2
  {
    var first := Fill(pair[0].cands, pair[0].matchType, left);
    StepLog(note1, left, first) + StepLog(note2, first.left, Fill(pair[1].cands, pair[1].matchType, first.left))
  }

  /**
   * What the fallback steps log: the base pair with its notes, then the
   * foreign pair (when there is one) with its single note.
   */
  function PairsLog(base: seq<Source>, note1: Option<BatchEvent>, note2: Option<BatchEvent>, foreign: seq<Source>,
                    left: set<nat>): seq<LogLine>
    requires |base| == 2 && (foreign == [] || |foreign| == 2)
  {
    PairLog(base, note1, note2, left)
    + if foreign == [] then [] else PairLog(foreign, Some(FallbackForeignHeads), None, FillChain(base, left).left)
  }

  /** What steps 3.1 to 4 log, starting from `left` missing repositories. */
  function FallbackLog(bundle: Bundle, env: PrepareEnv, left: set<nat>): seq<LogLine>
  {
    PairsLog(BaseFallbacks(env), BaseNote(bundle, FallbackBaseHeads), BaseNote(bundle, FallbackMasterHeads),
             ForeignPart(bundle, env), left)
  }

  /** What step 2 logs about the chosen base batch: its use, and a warning when some of its commits are not merge bases. */
  function BaseBatchLog(chosen: Option<BaseBatch>, mb: set<Commit>): seq<LogLine>
  {
    if chosen.None? then []
    else
      var nm := NotMatching(chosen.value, mb);
      [LogLine(Info, UsingBaseBatch(chosen.value.id))]
      + if nm != {} then [LogLine(Warning, MergeBaseMismatch(|mb| - |nm|, |mb|, nm))] else []
  }
  /** The links, log, warning flag and missing repositories a batch has after a step of `_prepare`. */
  datatype Found = Found(links: seq<CommitLink>, log: seq<LogLine>, warned: bool, left: set<nat>)

  /**
   * The "find missing commits" part of `_prepare` on a batch with `links`,
   * `log` and `warned`, `missing` repositories missing: step 1.1 fills from
   * the bundle heads, the links are annotated against the last base batch
   * (`None` for a ValueError), step 2 fills from the best base batch unless
   * the bundle is a base bundle, then steps 3.1 to 4 fill from the fallbacks.
   */
  function FindMissingResult(links: seq<CommitLink>, log: seq<LogLine>, warned: bool, bundle: Bundle, category: nat,
                             batch: nat, env: PrepareEnv, missing: set<nat>): Option<Found>
  {
    var f1 := Fill(BundleHeads(env).cands, Head, missing);
    var u := UpdatedLinks(links + f1.links, BaseHeadsOf(LastBaseBatch(env.baseBatches, category, batch)), env.git);
    if u.None? then None
    else Some(FillFromBaseBatches(u.value.0, log + DeadLog(f1.deadSkipped) + u.value.1, warned || u.value.1 != [],
                                  bundle, category, env, f1.left))
  }

  /**
   * Steps 2 to 4 of `_find_missing`, once the bundle heads have filled what
   * they could and the links were refreshed: the best base batch fills
   * unless the bundle is a base bundle, then the fallbacks.
   */
  function FillFromBaseBatches(links: seq<CommitLink>, log: seq<LogLine>, warned: bool, bundle: Bundle, category: nat,
                               env: PrepareEnv, missing: set<nat>): Found
  {
    var mb := MergeBases(links);
    var chosen := BestBaseBatch(env.baseBatches, mb, category);
    var f2 := FillChain(ChosenSources(bundle, chosen), missing);
    var f3 := FillChain(FallbackSources(bundle, env), f2.left);
    var used := missing != {} && !bundle.isBase;
    Found(
      links + f2.links + f3.links,
      log + (if used then BaseBatchLog(chosen, mb) + DeadLog(f2.deadSkipped) else []) + FallbackLog(bundle, env, f2.left),
      warned || (used && chosen.Some? && NotMatching(chosen.value, mb) != {}),
      f3.left)
  }

  /** Links with the same keys hold one link per repository together. */
  lemma SameKeysKeepOneLink(a: seq<CommitLink>, b: seq<CommitLink>)
    requires |a| == |b| && (forall k :: 0 <= k < |a| ==> SameKey(b[k], a[k])) && OneLinkPerRepo(a)
    ensures OneLinkPerRepo(b)
  {
    forall i, j | 0 <= i < j < |b| ensures b[i].commit.repo != b[j].commit.repo {
      assert SameKey(b[i], a[i]) && SameKey(b[j], a[j]);
    }
  }

  /**
   * Finding the missing commits links exactly the repositories it no longer
   * reports missing, never reports a repository that was not missing, and
   * keeps one link per repository.
   */
  lemma FindMissingCovers(links: seq<CommitLink>, log: seq<LogLine>, warned: bool, bundle: Bundle, category: nat,
                          batch: nat, env: PrepareEnv, missing: set<nat>)
    requires OneLinkPerRepo(links) && LinkedRepos(links) !! missing
    ensures var r := FindMissingResult(links, log, warned, bundle, category, batch, env, missing);
      r.Some? ==>
        && r.value.left <= missing && OneLinkPerRepo(r.value.links)
        && LinkedRepos(r.value.links) == LinkedRepos(links) + (missing - r.value.left)
  {
    var r := FindMissingResult(links, log, warned, bundle, category, batch, env, missing);
    if r.Some? {
      var f1 := Fill(BundleHeads(env).cands, Head, missing);
      var heads := BaseHeadsOf(LastBaseBatch(env.baseBatches, category, batch));
      HeadsCover(links, BundleHeads(env).cands, missing, heads, env.git);
      var u := UpdatedLinks(links + f1.links, heads, env.git).value;
      var log1 := log + DeadLog(f1.deadSkipped) + u.1;
      BaseBatchesCover(u.0, log1, warned || u.1 != [], bundle, category, env, f1.left);
      var f := FillFromBaseBatches(u.0, log1, warned || u.1 != [], bundle, category, env, f1.left);
      FilledInTurn(LinkedRepos(links), missing, f1.left, f.left);
      assert r.value == f;
    }
  }

  /** Two fills in turn: what the first filled and then what the second filled is what both filled together. */
  lemma FilledInTurn(linked: set<nat>, missing: set<nat>, left1: set<nat>, left2: set<nat>)
    requires left2 <= left1 <= missing
    ensures left2 <= missing && (linked + (missing - left1)) + (left1 - left2) == linked + (missing - left2)
  {
  }

  /** Filling from the base batches and the fallbacks links exactly the repositories it no longer reports missing. */
  lemma BaseBatchesCover(links: seq<CommitLink>, log: seq<LogLine>, warned: bool, bundle: Bundle, category: nat,
                         env: PrepareEnv, missing: set<nat>)
    requires OneLinkPerRepo(links) && LinkedRepos(links) !! missing
    ensures var f := FillFromBaseBatches(links, log, warned, bundle, category, env, missing);
      && f.left <= missing && OneLinkPerRepo(f.links)
      && LinkedRepos(f.links) == LinkedRepos(links) + (missing - f.left)
  {
    var chosen := BestBaseBatch(env.baseBatches, MergeBases(links), category);
    TwoChainsCover(links, ChosenSources(bundle, chosen), FallbackSources(bundle, env), missing);
  }

  /**
   * Linking the bundle heads and refreshing the links keeps one link per
   * repository and links exactly the repositories the heads filled.
   */
  lemma HeadsCover(links: seq<CommitLink>, cands: seq<Candidate>, missing: set<nat>, heads: map<nat, Commit>, git: Git)
    requires OneLinkPerRepo(links) && LinkedRepos(links) !! missing
    requires UpdatedLinks(links + Fill(cands, Head, missing).links, heads, git).Some?
    ensures var f1 := Fill(cands, Head, missing);
      var u := UpdatedLinks(links + f1.links, heads, git).value.0;
      && OneLinkPerRepo(u) && LinkedRepos(u) == LinkedRepos(links) + (missing - f1.left)
  {
    var f1 := Fill(cands, Head, missing);
    var l1 := links + f1.links;
    FillLinksAreFresh(cands, Head, missing);
    OneLinkPerRepoAppend(links, f1.links);
    LinkedReposAppend(links, f1.links);
    var u := UpdatedLinks(l1, heads, git).value.0;
    UpdatedLinksKeepKeys(l1, heads, git);
    SameKeysSameRepos(l1, u);
    SameKeysKeepOneLink(l1, u);
  }

  /**
   * Two chains of sources filled one after the other, on top of links that
   * hold one link per repository and none of the missing ones, add exactly
   * the repositories they filled and keep one link per repository.
   */
  lemma TwoChainsCover(links: seq<CommitLink>, first: seq<Source>, second: seq<Source>, missing: set<nat>)
    requires OneLinkPerRepo(links) && LinkedRepos(links) !! missing
    ensures var f2 := FillChain(first, missing);
      var f3 := FillChain(second, f2.left);
      && f3.left <= missing && OneLinkPerRepo(links + f2.links + f3.links)
      && LinkedRepos(links + f2.links + f3.links) == LinkedRepos(links) + (missing - f3.left)
  {
    var f2 := FillChain(first, missing);
    ChainKeepsOneLinkPerRepo(links, first, missing);
    LinkedReposAppend(links, f2.links);
    ChainKeepsOneLinkPerRepo(links + f2.links, second, f2.left);
    LinkedReposAppend(links + f2.links, FillChain(second, f2.left).links);
  }

  /**
   * What a successful search for every missing repository leaves: each
   * repository the triggers need is either linked or reported missing, the
   * links only grew and the log only grew.
   */
  lemma FoundCoversAll(links: seq<CommitLink>, log: seq<LogLine>, warned: bool, bundle: Bundle, category: nat,
                       batch: nat, env: PrepareEnv, f: Found)
    requires OneLinkPerRepo(links)
    requires FindMissingResult(links, log, warned, bundle, category, batch, env, AllRepos(env.triggers) - LinkedRepos(links)) == Some(f)
    ensures OneLinkPerRepo(f.links) && f.left == AllRepos(env.triggers) - LinkedRepos(f.links)
    ensures LinkedRepos(links) <= LinkedRepos(f.links) && Extends(f.log, log) && (warned ==> f.warned)
  {
    var missing := AllRepos(env.triggers) - LinkedRepos(links);
    FindMissingCovers(links, log, warned, bundle, category, batch, env, missing);
    FindMissingLogs(links, log, warned, bundle, category, batch, env, missing);
    FilledOrLeft(AllRepos(env.triggers), LinkedRepos(links), f.left, LinkedRepos(f.links));
  }

  /** Filling part of what `all` still needs on top of `linked` leaves exactly what is still not linked. */
  lemma FilledOrLeft(all: set<nat>, linked: set<nat>, left: set<nat>, now: set<nat>)
    requires left <= all - linked && now == linked + ((all - linked) - left)
    ensures left == all - now && linked <= now
  {
  }

  /** Finding the missing commits only appends to the log, and never clears the warning flag. */
  lemma FindMissingLogs(links: seq<CommitLink>, log: seq<LogLine>, warned: bool, bundle: Bundle, category: nat,
                        batch: nat, env: PrepareEnv, missing: set<nat>)
    ensures var r := FindMissingResult(links, log, warned, bundle, category, batch, env, missing);
      r.Some? ==> Extends(r.value.log, log) && (warned ==> r.value.warned)
  {
    var r := FindMissingResult(links, log, warned, bundle, category, batch, env, missing);
    if r.Some? {
      var f1 := Fill(BundleHeads(env).cands, Head, missing);
      var u := UpdatedLinks(links + f1.links, BaseHeadsOf(LastBaseBatch(env.baseBatches, category, batch)), env.git).value;
      var a := log + DeadLog(f1.deadSkipped);
      AppendExtends(log, DeadLog(f1.deadSkipped));
      ExtendsAppend(log, a, u.1);
      BaseBatchesLog(u.0, a + u.1, warned || u.1 != [], bundle, category, env, f1.left, log);
    }
  }

  /** Filling from the base batches only appends to the log and never clears the warning flag. */
  lemma BaseBatchesLog(links: seq<CommitLink>, log: seq<LogLine>, warned: bool, bundle: Bundle, category: nat,
                       env: PrepareEnv, missing: set<nat>, start: seq<LogLine>)
    requires Extends(log, start)
    ensures var f := FillFromBaseBatches(links, log, warned, bundle, category, env, missing);
      Extends(f.log, start) && (warned ==> f.warned)
  {
    var mb := MergeBases(links);
    var chosen := BestBaseBatch(env.baseBatches, mb, category);
    var f2 := FillChain(ChosenSources(bundle, chosen), missing);
    var used := missing != {} && !bundle.isBase;
    var extra := if used then BaseBatchLog(chosen, mb) + DeadLog(f2.deadSkipped) else [];
    ExtendsAppend(start, log, extra);
    ExtendsAppend(start, log + extra, FallbackLog(bundle, env, f2.left));
  }

  /** The warning of the slot loop for a trigger with missing repositories. */
  function TriggerLog(t: Trigger, left: set<nat>): seq<LogLine>
  {
    if TriggerRepos(t) * left != {} then [LogLine(Warning, MissingTriggerCommit(t.id, TriggerRepos(t) * left))] else []
  }

  /** The warnings of the slot loop, in trigger order. */
  function MissingLog(ts: seq<Trigger>, left: set<nat>): seq<LogLine>
  {
    if ts == [] then [] else MissingLog(ts[..|ts| - 1], left) + TriggerLog(ts[|ts| - 1], left)
  }

  /** The triggers that get a slot, in trigger order. */
  function Slotted(ts: seq<Trigger>, customs: map<nat, TriggerCustom>, left: set<nat>): seq<Trigger>
  {
    if ts == [] then []
    else Slotted(ts[..|ts| - 1], customs, left) + if GetsSlot(ts[|ts| - 1], customs, left) then [ts[|ts| - 1]] else []
  }

  lemma SlotLoopPrefixStep(ts: seq<Trigger>, customs: map<nat, TriggerCustom>, left: set<nat>, k: nat)
    requires k < |ts|
    ensures MissingLog(ts[..k + 1], left) == MissingLog(ts[..k], left) + TriggerLog(ts[k], left)
    ensures Slotted(ts[..k + 1], customs, left) ==
      Slotted(ts[..k], customs, left) + if GetsSlot(ts[k], customs, left) then [ts[k]] else []
  {
    var prefix := ts[..k + 1];
    assert prefix[..k] == ts[..k] && prefix[k] == ts[k];
  }

  /**
   * Exactly the triggers with no missing repository and a config get a
   * slot, and exactly those with a missing repository are warned about.
   */
  lemma {:induction false} SlotLoopSelects(ts: seq<Trigger>, customs: map<nat, TriggerCustom>, left: set<nat>)
    ensures forall t :: t in Slotted(ts, customs, left) <==> t in ts && GetsSlot(t, customs, left)
    ensures forall t :: t in ts && TriggerRepos(t) * left != {} ==>
      LogLine(Warning, MissingTriggerCommit(t.id, TriggerRepos(t) * left)) in MissingLog(ts, left)
    ensures forall line :: line in MissingLog(ts, left) ==>
      exists t :: t in ts && TriggerRepos(t) * left != {} && line == LogLine(Warning, MissingTriggerCommit(t.id, TriggerRepos(t) * left))
  {
    if ts != [] {
      var front := ts[..|ts| - 1];
      var t := ts[|ts| - 1];
      SlotLoopSelects(front, customs, left);
      assert ts == front + [t];
      forall u | u in front ensures u in ts {
      }
    }
  }

  /**
   * Every repository a slotted trigger needs has a link once the missing
   * repositories are filled, so `commit_link_by_repos[repo.id]` never fails.
   */
  lemma SlottedReposAreLinked(ts: seq<Trigger>, customs: map<nat, TriggerCustom>, pushed: set<nat>,
                              left: set<nat>, linked: set<nat>)
    requires left <= AllRepos(ts) - pushed
    requires linked == pushed + ((AllRepos(ts) - pushed) - left)
    ensures forall t :: t in ts && GetsSlot(t, customs, left) ==> TriggerRepos(t) <= linked
  {
    forall t | t in ts && GetsSlot(t, customs, left) ensures TriggerRepos(t) <= linked {
      var i :| 0 <= i < |ts| && ts[i] == t;
      forall r | r in TriggerRepos(t) ensures r in AllRepos(ts) {
        assert r in TriggerRepos(ts[i]);
      }
    }
  }

  /** A build table where existing builds changed at most by `killable` being cleared. */
  predicate KillableOnly(t: Table, t2: Table)
  {
    forall x :: x in t ==> x in t2 && (t2[x] == t[x] || t2[x] == t[x].(killable := false))
  }

  lemma KillableOnlyTrans(t1: Table, t2: Table, t3: Table)
    requires KillableOnly(t1, t2) && KillableOnly(t2, t3)
    ensures KillableOnly(t1, t3)
  {
  }

  /** The root build `_create_build` creates when no root build has the params. */
  function NewRootBuild(p: nat, bundle: Bundle, normal: bool, description: Option<String>, now: int): (b: Build)
    ensures b.params == p && b.parent.None? && b.localState == Pending && b.localResult.None? && !b.killable
    ensures b.host == bundle.host && b.keepHost == bundle.host.Some?
    ensures b.buildType == (if normal then Normal else Scheduled) && b.description == description
  {
    Build(p, None, false, Pending, None, None, None, None, bundle.host, bundle.host.Some?, false, 0, now,
          None, None, None, None, None, 0, 100, if normal then Normal else Scheduled, description)
  }

  /**
   * Slot `s` is the slot `_prepare` of batch `batch` creates for trigger
   * `t`: an attached, unskipped slot whose params hold the trigger's values
   * and the batch's commits for the trigger's repositories, with a root build
   * of those params exactly when the trigger is auto-linked.
   */
  predicate SlotFor(s: Slot, t: Trigger, batch: nat, bundle: Bundle, env: PrepareEnv, links: seq<CommitLink>,
                    builds: Table, params: seq<ParamsRow>)
  {
    && s.batch == batch && s.trigger == t.id && s.active && !s.skipped
    && ConfigOf(t, env.customs).Some?
    && s.params < |params|
    && params[s.params].fingerprint ==
       FingerprintOf(SlotParams(batch, bundle, t, ConfigOf(t, env.customs).value, env.customs, links, env.dockerfile), t.batchDependent)
    && (s.build.Some? <==> AutoLinked(t, bundle, env.bundleRepos))
    && (s.build.None? ==> s.linkType == Created)
    && (s.build.Some? ==>
          && s.linkType != RebuildLink && s.build.value in builds
          && builds[s.build.value].params == s.params && builds[s.build.value].parent.None?)
  }

  lemma SlotForStable(s: Slot, t: Trigger, batch: nat, bundle: Bundle, env: PrepareEnv, links: seq<CommitLink>,
                      builds: Table, params: seq<ParamsRow>, builds2: Table, params2: seq<ParamsRow>)
    requires SlotFor(s, t, batch, bundle, env, links, builds, params)
    requires KillableOnly(builds, builds2) && params <= params2
    ensures SlotFor(s, t, batch, bundle, env, links, builds2, params2)
  {
  }

  /**
   * Where the slot loop of `_prepare` stands after the first `k` triggers:
   * one new slot per slotted trigger, one warning per trigger with a missing
   * repository, builds changed at most by `killable` being cleared, and
   * params only appended to.
   */
  ghost predicate PartlySlotted(slots: seq<Slot>, log: seq<LogLine>, warned: bool, builds: Table, params: seq<ParamsRow>,
                                slots0: seq<Slot>, log0: seq<LogLine>, warned0: bool, builds0: Table, params0: seq<ParamsRow>,
                                ts: seq<Trigger>, k: nat, batch: nat, bundle: Bundle, env: PrepareEnv,
                                links: seq<CommitLink>, left: set<nat>)
  {
    && k <= |ts|
    && var sl := Slotted(ts[..k], env.customs, left);
       && |slots| == |slots0| + |sl| && slots[..|slots0|] == slots0
       && (forall j :: 0 <= j < |sl| ==> SlotFor(slots[|slots0| + j], sl[j], batch, bundle, env, links, builds, params))
       && log == log0 + MissingLog(ts[..k], left) && warned == (warned0 || MissingLog(ts[..k], left) != [])
       && KillableOnly(builds0, builds) && params0 <= params
  }

  /** Trigger `k` of the slot loop, as `CreateSlot` leaves things, extends the loop's progress by one trigger. */
  lemma SlottedStep(slots1: seq<Slot>, log1: seq<LogLine>, warned1: bool, builds1: Table, params1: seq<ParamsRow>,
                    slots2: seq<Slot>, log2: seq<LogLine>, warned2: bool, builds2: Table, params2: seq<ParamsRow>,
                    slots0: seq<Slot>, log0: seq<LogLine>, warned0: bool, builds0: Table, params0: seq<ParamsRow>,
                    ts: seq<Trigger>, k: nat, batch: nat, bundle: Bundle, env: PrepareEnv,
                    links: seq<CommitLink>, left: set<nat>)
    requires k < |ts|
    requires PartlySlotted(slots1, log1, warned1, builds1, params1, slots0, log0, warned0, builds0, params0,
                           ts, k, batch, bundle, env, links, left)
    requires KillableOnly(builds1, builds2) && params1 <= params2
    requires log2 == log1 + TriggerLog(ts[k], left) && warned2 == (warned1 || TriggerLog(ts[k], left) != [])
    requires !GetsSlot(ts[k], env.customs, left) ==> slots2 == slots1
    requires GetsSlot(ts[k], env.customs, left) ==>
      && |slots2| == |slots1| + 1 && slots2[..|slots1|] == slots1
      && SlotFor(slots2[|slots1|], ts[k], batch, bundle, env, links, builds2, params2)
    ensures PartlySlotted(slots2, log2, warned2, builds2, params2, slots0, log0, warned0, builds0, params0,
                          ts, k + 1, batch, bundle, env, links, left)
  {
    var sl := Slotted(ts[..k], env.customs, left);
    var sl' := Slotted(ts[..k + 1], env.customs, left);
    SlotLoopPrefixStep(ts, env.customs, left, k);
    KillableOnlyTrans(builds0, builds1, builds2);
    var gets := GetsSlot(ts[k], env.customs, left);
    SlotsGrow(slots0, slots1, slots2, sl, ts[k], gets, batch, bundle, env, links, builds1, params1, builds2, params2);
    assert slots2[..|slots0|] == slots0 by {
      assert slots2[..|slots0|] == slots1[..|slots0|];
    }
    assert log2 == log0 + MissingLog(ts[..k + 1], left) by {
      AppendAssoc(log0, MissingLog(ts[..k], left), TriggerLog(ts[k], left));
    }
  }

  /**
   * The slots for a list of triggers, followed by at most one new slot for
   * trigger `t`, stay the slots for that list and `t` while builds only turn
   * unkillable and parameter rows are only appended.
   */
  lemma SlotsGrow(slots0: seq<Slot>, slots1: seq<Slot>, slots2: seq<Slot>, sl: seq<Trigger>, t: Trigger, gets: bool,
                  batch: nat, bundle: Bundle, env: PrepareEnv, links: seq<CommitLink>,
                  builds1: Table, params1: seq<ParamsRow>, builds2: Table, params2: seq<ParamsRow>)
    requires |slots1| == |slots0| + |sl|
    requires forall j :: 0 <= j < |sl| ==> SlotFor(slots1[|slots0| + j], sl[j], batch, bundle, env, links, builds1, params1)
    requires KillableOnly(builds1, builds2) && params1 <= params2
    requires !gets ==> slots2 == slots1
    requires gets ==> |slots2| == |slots1| + 1 && slots2[..|slots1|] == slots1
                      && SlotFor(slots2[|slots1|], t, batch, bundle, env, links, builds2, params2)
    ensures var sl' := sl + (if gets then [t] else []);
      && |slots2| == |slots0| + |sl'|
      && forall j :: 0 <= j < |sl'| ==> SlotFor(slots2[|slots0| + j], sl'[j], batch, bundle, env, links, builds2, params2)
  {
    var sl' := sl + (if gets then [t] else []);
    forall j | 0 <= j < |sl'|
      ensures SlotFor(slots2[|slots0| + j], sl'[j], batch, bundle, env, links, builds2, params2)
    {
      if j < |sl| {
        assert slots2[|slots0| + j] == slots1[|slots0| + j] && sl'[j] == sl[j];
        SlotForStable(slots1[|slots0| + j], sl[j], batch, bundle, env, links, builds1, params1, builds2, params2);
      } else {
        assert gets && sl'[j] == t && |slots0| + j == |slots1|;
      }
    }
  }

  lemma PartlySlottedDone(slots: seq<Slot>, log: seq<LogLine>, warned: bool, builds: Table, params: seq<ParamsRow>,
                          slots0: seq<Slot>, log0: seq<LogLine>, warned0: bool, builds0: Table, params0: seq<ParamsRow>,
                          ts: seq<Trigger>, batch: nat, bundle: Bundle, env: PrepareEnv,
                          links: seq<CommitLink>, left: set<nat>)
    requires PartlySlotted(slots, log, warned, builds, params, slots0, log0, warned0, builds0, params0,
                           ts, |ts|, batch, bundle, env, links, left)
    ensures var sl := Slotted(ts, env.customs, left);
      && |slots| == |slots0| + |sl| && slots[..|slots0|] == slots0
      && (forall j :: 0 <= j < |sl| ==> SlotFor(slots[|slots0| + j], sl[j], batch, bundle, env, links, builds, params))
      && log == log0 + MissingLog(ts, left) && warned == (warned0 || MissingLog(ts, left) != [])
  {
    assert ts[..|ts|] == ts;
  }

  /** Every build of a batch slot is unset, running or done: a ready batch is then done. */
  predicate AllSlotsSettled(t: Table, bound: nat, slots: seq<Slot>, batch: nat)
    requires IsTree(t, bound)
  {
    forall k :: 0 <= k < |slots| && InBatch(slots[k], batch) && slots[k].build.Some? && slots[k].build.value in t ==>
      GlobalState(t, bound, slots[k].build.value) in {Running, Done}
  }

  /** `_skip` of an older batch changes slots only by setting their `skipped` flag. */
  predicate OnlySkipFlags(slots: seq<Slot>, slots2: seq<Slot>)
  {
    |slots2| == |slots|
    && forall i :: 0 <= i < |slots| ==>
         slots2[i] == slots[i].(skipped := slots2[i].skipped) && (slots[i].skipped ==> slots2[i].skipped)
  }

  /** Builds changed only in the ways `_skip` may change them. */
  predicate SkipTouchedAll(t: Table, t2: Table)
  {
    t2.Keys == t.Keys && forall x :: x in t ==> SkipTouched(t[x], t2[x])
  }

  class Batch {
    const id: nat
    const bundle: Bundle
    const category: nat
    var state: BatchState
    var lastUpdate: int
    var links: seq<CommitLink>
    var hasWarning: bool
    var log: seq<LogLine>

    ghost predicate Valid()
      reads this
    {
      OneLinkPerRepo(links)
    }

    constructor (id: nat, bundle: Bundle, category: nat, now: int)
      ensures Valid() && this.id == id && this.bundle == bundle && this.category == category
      ensures state == Preparing && lastUpdate == now && links == [] && !hasWarning && log == []
    {
      this.id := id;
      this.bundle := bundle;
      this.category := category;
      state := Preparing;
      lastUpdate := now;
      links := [];
      hasWarning := false;
      log := [];
    }

    /** `_log`: an info line. */
    method Log(e: BatchEvent)
      modifies this
      ensures log == old(log) + [LogLine(Info, e)]
      ensures state == old(state) && lastUpdate == old(lastUpdate) && links == old(links) && hasWarning == old(hasWarning)
    {
      log := log + [LogLine(Info, e)];
    }

    /** `warning`: a warning line, and the batch is flagged. */
    method LogWarning(e: BatchEvent)
      modifies this
      ensures hasWarning && log == old(log) + [LogLine(Warning, e)]
      ensures state == old(state) && lastUpdate == old(lastUpdate) && links == old(links)
    {
      hasWarning := true;
      log := log + [LogLine(Warning, e)];
    }

    /** `_new_commit(branch, match_type)`: the branch head becomes the link of its repository. */
    method NewCommit(branch: Branch, matchType: MatchType, now: int)
      requires Valid()
      modifies this
      ensures Valid() && lastUpdate == now
      ensures links == NewCommitLinks(old(links), branch, matchType)
      ensures log == old(log) + HeadReplacedLog(old(links), branch)
      ensures state == old(state) && hasWarning == old(hasWarning)
    {
      NewCommitKeepsOneLinkPerRepo(links, branch, matchType);
      var commit := branch.head;
      lastUpdate := now;
      var i := 0;
      while i < |links| && links[i].commit.repo != commit.repo
        invariant 0 <= i <= |links|
        invariant forall j :: 0 <= j < i ==> links[j].commit.repo != commit.repo
      {
        i := i + 1;
      }
      assert i == FirstLinkOf(links, commit.repo);
      if i == |links| {
        links := links + [NewLink(commit, branch, matchType)];
      } else if links[i].commit.id != commit.id {
        Log(HeadReplaced(branch.name, links[i].commit.name, commit.name));
        links := links[i := links[i].(commit := commit, branch := branch)];
      } else if !links[i].branch.isPr && branch.isPr {
        links := links[i := links[i].(branch := branch)];
      }
    }

    /** `fill_missing` on candidate `i`, with `links0` and `log0` as they were before the first candidate. */
    method FillNext(ghost links0: seq<CommitLink>, ghost log0: seq<LogLine>,
                    cands: seq<Candidate>, i: nat, matchType: MatchType, missing: set<nat>, left: set<nat>)
      returns (left': set<nat>)
      requires i < |cands| && PartlyFilled(links, log, left, links0, log0, cands, i, matchType, missing)
      modifies this
      ensures PartlyFilled(links, log, left', links0, log0, cands, i + 1, matchType, missing)
      ensures state == old(state) && lastUpdate == old(lastUpdate) && hasWarning == old(hasWarning)
    {
      var c := cands[i];
      left' := left;
      if c.commit.repo !in left {
        FillSkipsFilled(links, log, left, links0, log0, cands, i, matchType, missing);
      } else if !c.branch.alive {
        FillSkipsDead(links, log, left, links0, log0, cands, i, matchType, missing);
        Log(DeadBranchSkipped(c.branch.name));
      } else {
        FillLinksLive(links, log, left, links0, log0, cands, i, matchType, missing);
        links := links + [FilledLink(c, matchType)];
        left' := left - {c.commit.repo};
      }
    }

    /**
     * `fill_missing(candidates, match_type)`: links the candidates' commits of
     * the still missing repositories, and returns what is left missing.
     */
    method FillMissing(cands: seq<Candidate>, matchType: MatchType, missing: set<nat>) returns (left: set<nat>)
      requires Valid() && LinkedRepos(links) !! missing
      modifies this
      ensures var f := Fill(cands, matchType, missing);
        links == old(links) + f.links && left == f.left && log == old(log) + DeadLog(f.deadSkipped)
      ensures Valid() && LinkedRepos(links) !! left
      ensures state == old(state) && lastUpdate == old(lastUpdate) && hasWarning == old(hasWarning)
    {
      ghost var links0 := links;
      ghost var log0 := log;
      left := missing;
      if cands == [] {
        return;
      }
      var i := 0;
      assert cands[..0] == [];
      while i < |cands|
        invariant 0 <= i <= |cands|
        invariant PartlyFilled(links, log, left, links0, log0, cands, i, matchType, missing)
        invariant state == old(state) && lastUpdate == old(lastUpdate) && hasWarning == old(hasWarning)
      {
        left := FillNext(links0, log0, cands, i, matchType, missing, left);
        i := i + 1;
      }
      assert cands[..i] == cands;
      var f := Fill(cands, matchType, missing);
      FillLinksAreFresh(cands, matchType, missing);
      OneLinkPerRepoAppend(links0, f.links);
      LinkedReposAppend(links0, f.links);
    }

    /** `_skip` on slot `k` of the slot table. */
    method SkipSlot(store: BuildStore, k: nat, bundleOf: nat -> nat)
      requires store.Valid() && k < |store.slots|
      modifies this, store
      ensures store.Valid() && store.nextBuild == old(store.nextBuild) && store.params == old(store.params)
      ensures var r := SkipSlotStep(old(store.builds), old(store.nextBuild), old(store.slots), k, bundleOf, bundle.id);
        store.builds == r.0 && store.slots == r.1 && log == old(log) + r.2
      ensures state == old(state) && links == old(links) && lastUpdate == old(lastUpdate) && hasWarning == old(hasWarning)
    {
      var s := store.slots[k];
      store.SetSlot(k, s.(skipped := true));
      if s.build.None? {
        return;
      }
      var b := s.build.value;
      var g := GlobalState(store.builds, store.nextBuild, b);
      if g == Running || g == Done {
        return;
      }
      var testing := TestingSlots(store.slots, b);
      if testing == {} {
        if g == Pending {
          store.Skip(b);
        } else if g == Waiting || g == Testing {
          if !store.builds[b].killable {
            store.SetKillable(b, true);
          } else {
            assert store.builds == store.builds[b := store.builds[b].(killable := true)];
          }
        }
      } else if s.linkType == Created {
        var bundles := OtherBundles(store.slots, testing, bundleOf, bundle.id);
        if bundles != {} {
          Log(BuildInUse(b, bundles));
        }
      }
    }

    /**
     * `_skip`: a batch of a base bundle or a done batch is left alone;
     * otherwise it is skipped, and so is each of its slots in turn.
     */
    method Skip(store: BuildStore, bundleOf: nat -> nat)
      requires store.Valid()
      modifies this, store
      ensures store.Valid() && store.nextBuild == old(store.nextBuild) && store.params == old(store.params)
      ensures links == old(links) && lastUpdate == old(lastUpdate) && hasWarning == old(hasWarning)
      ensures bundle.isBase || old(state) == BatchDone ==>
        state == old(state) && log == old(log) && store.builds == old(store.builds) && store.slots == old(store.slots)
      ensures !(bundle.isBase || old(state) == BatchDone) ==>
        var r := SkipSlots(old(store.builds), old(store.nextBuild), old(store.slots), id, |old(store.slots)|, bundleOf, bundle.id);
        state == BatchSkipped && store.builds == r.0 && store.slots == r.1
        && log == old(log) + [LogLine(Info, SkippingBatch)] + r.2
    {
      if bundle.isBase || state == BatchDone {
        return;
      }
      state := BatchSkipped;
      Log(SkippingBatch);
      SkipAllSlots(store, bundleOf);
    }

    /** The slot loop of `_skip`: each slot of this batch in turn. */
    method SkipAllSlots(store: BuildStore, bundleOf: nat -> nat)
      requires store.Valid()
      modifies this, store
      ensures store.Valid() && store.nextBuild == old(store.nextBuild) && store.params == old(store.params)
      ensures PartlySkipped(store.builds, store.slots, log, old(store.builds), old(store.slots), old(log),
                            store.nextBuild, id, |old(store.slots)|, bundleOf, bundle.id)
      ensures state == old(state) && links == old(links) && lastUpdate == old(lastUpdate) && hasWarning == old(hasWarning)
    {
      ghost var t0 := store.builds;
      ghost var slots0 := store.slots;
      ghost var log0 := log;
      var n := |store.slots|;
      var k := 0;
      while k < n
        invariant 0 <= k <= n && n == |slots0|
        invariant store.Valid() && store.nextBuild == old(store.nextBuild) && store.params == old(store.params)
        invariant PartlySkipped(store.builds, store.slots, log, t0, slots0, log0, store.nextBuild, id, k, bundleOf, bundle.id)
        invariant state == old(state) && links == old(links) && lastUpdate == old(lastUpdate) && hasWarning == old(hasWarning)
      {
        SkipNext(store, t0, slots0, log0, k, bundleOf);
        k := k + 1;
      }
    }

    /** `_skip` on slot `k` when it is one of this batch's slots. */
    method SkipNext(store: BuildStore, ghost t0: Table, ghost slots0: seq<Slot>, ghost log0: seq<LogLine>,
                    k: nat, bundleOf: nat -> nat)
      requires store.Valid() && k < |slots0|
      requires PartlySkipped(store.builds, store.slots, log, t0, slots0, log0, store.nextBuild, id, k, bundleOf, bundle.id)
      modifies this, store
      ensures store.Valid() && store.nextBuild == old(store.nextBuild) && store.params == old(store.params)
      ensures PartlySkipped(store.builds, store.slots, log, t0, slots0, log0, store.nextBuild, id, k + 1, bundleOf, bundle.id)
      ensures state == old(state) && links == old(links) && lastUpdate == old(lastUpdate) && hasWarning == old(hasWarning)
    {
      if InBatch(store.slots[k], id) {
        SkipSlot(store, k, bundleOf);
      }
    }

    /** `_update_commits_infos` on link `i`; `raised` is the escaping ValueError. */
    method UpdateLinkAt(i: nat, baseHeads: map<nat, Commit>, git: Git) returns (raised: bool)
      requires i < |links|
      modifies this
      ensures state == old(state) && lastUpdate == old(lastUpdate)
      ensures raised <==> LinkStep(old(links)[i], baseHeads, git).None?
      ensures raised ==> links == old(links)
      ensures !raised ==> var step := LinkStep(old(links)[i], baseHeads, git).value;
        links == old(links)[i := step.0] && log == old(log) + step.1 && hasWarning == (old(hasWarning) || step.1 != [])
    {
      var l := links[i];
      if l.commit.repo !in baseHeads {
        LogWarning(NoBaseHead(l.commit.repo));
        return false;
      }
      var base := baseHeads[l.commit.repo];
      var o := UpdateLinkInfo(l, base, git);
      if o.LinkRaised? {
        return true;
      }
      links := links[i := o.link];
      if o.failed {
        LogWarning(CommitInfoFailed(l.commit.name, base.name));
      }
      return false;
    }

    /** `_update_commits_infos` on link `i`, `links0` being the links before the update started. */
    method UpdateNext(ghost links0: seq<CommitLink>, ghost log0: seq<LogLine>, ghost warned0: bool,
                      i: nat, baseHeads: map<nat, Commit>, git: Git) returns (raised: bool)
      requires i < |links0| && PartlyUpdated(links, log, hasWarning, links0, log0, warned0, i, baseHeads, git)
      modifies this
      ensures state == old(state) && lastUpdate == old(lastUpdate)
      ensures raised ==> UpdatedLinks(links0, baseHeads, git).None? && links == old(links)
      ensures !raised ==> PartlyUpdated(links, log, hasWarning, links0, log0, warned0, i + 1, baseHeads, git)
    {
      PartlyUpdatedAt(links, log, hasWarning, links0, log0, warned0, i, baseHeads, git);
      raised := UpdateLinkAt(i, baseHeads, git);
      if raised {
        UpdatedLinksPrefixStep(links0, baseHeads, git, i);
        UpdateFailureSticks(links0, baseHeads, git, i + 1);
        return;
      }
      PartlyUpdatedStep(old(links), old(log), old(hasWarning), links0, log0, warned0, i, baseHeads, git);
    }

    /**
     * `_update_commits_infos(base_heads)`: every link is annotated against
     * the base head of its repository. A ValueError (`Failure`) aborts the
     * update; the links keep their commit, branch and match type either way.
     */
    method UpdateCommitsInfos(baseHeads: map<nat, Commit>, git: Git) returns (r: Result<(), String>)
      requires Valid()
      modifies this
      ensures Valid() && state == old(state) && lastUpdate == old(lastUpdate)
      ensures |links| == |old(links)| && forall k :: 0 <= k < |links| ==> SameKey(links[k], old(links)[k])
      ensures r.Success? <==> UpdatedLinks(old(links), baseHeads, git).Some?
      ensures r.Success? ==> var u := UpdatedLinks(old(links), baseHeads, git).value;
        links == u.0 && log == old(log) + u.1 && hasWarning == (old(hasWarning) || u.1 != [])
    {
      ghost var links0 := links;
      ghost var log0 := log;
      ghost var warned0 := hasWarning;
      var n := |links|;
      var i := 0;
      assert links0[..0] == [];
      while i < n
        invariant n == |links0| && 0 <= i <= n
        invariant PartlyUpdated(links, log, hasWarning, links0, log0, warned0, i, baseHeads, git)
        invariant state == old(state) && lastUpdate == old(lastUpdate)
      {
        var raised := UpdateNext(links0, log0, warned0, i, baseHeads, git);
        if raised {
          PartialUpdateKeepsLinks(links0, baseHeads, git, i);
          return Failure("ValueError");
        }
        i := i + 1;
      }
      PartialUpdateKeepsLinks(links0, baseHeads, git, i);
      assert links0[..i] == links0;
      return Success(());
    }

    // ------------------------------------------------------------ _prepare

    /** The consistency warnings of the bundle, logged in order. */
    method WarnConsistency(ws: seq<(LogLevel, String)>)
      modifies this
      ensures log == old(log) + ConsistencyLog(ws) && hasWarning == (old(hasWarning) || ConsistencyLog(ws) != [])
      ensures state == old(state) && lastUpdate == old(lastUpdate) && links == old(links)
    {
      ghost var log0 := log;
      ghost var warned0 := hasWarning;
      var i := 0;
      assert ws[..0] == [];
      while i < |ws|
        invariant 0 <= i <= |ws|
        invariant log == log0 + ConsistencyLog(ws[..i]) && hasWarning == (warned0 || ConsistencyLog(ws[..i]) != [])
        invariant state == old(state) && lastUpdate == old(lastUpdate) && links == old(links)
      {
        ConsistencyLogPrefixStep(ws, i);
        if ws[i].0 == Warning {
          LogWarning(BundleWarning(ws[i].1));
        }
        i := i + 1;
      }
      assert ws[..i] == ws;
    }

    /** One `if missing_repos:` step: an optional info line, then `fill_missing`. */
    method FallbackStep(cands: seq<Candidate>, matchType: MatchType, note: Option<BatchEvent>, left0: set<nat>)
      returns (left: set<nat>)
      requires Valid() && LinkedRepos(links) !! left0
      modifies this
      ensures var f := Fill(cands, matchType, left0);
        links == old(links) + f.links && left == f.left && log == old(log) + StepLog(note, left0, f)
      ensures Valid() && LinkedRepos(links) !! left
      ensures state == old(state) && lastUpdate == old(lastUpdate) && hasWarning == old(hasWarning)
    {
      if left0 == {} {
        FillNothingMissing(cands, matchType);
        return left0;
      }
      ghost var log0 := log;
      if note.Some? {
        Log(note.value);
      }
      assert log == log0 + NoteLog(note);
      left := FillMissing(cands, matchType, left0);
      ghost var f := Fill(cands, matchType, left0);
      assert log == log0 + StepLog(note, left0, f) by {
        assert StepLog(note, left0, f) == NoteLog(note) + DeadLog(f.deadSkipped);
      }
    }

    /** Two fallback steps in a row, each logging its note when something is still missing. */
    method FillPair(pair: seq<Source>, note1: Option<BatchEvent>, note2: Option<BatchEvent>, left0: set<nat>)
      returns (left: set<nat>)
      requires |pair| == 2 && Valid() && LinkedRepos(links) !! left0
      modifies this
      ensures var f := FillChain(pair, left0);
        links == old(links) + f.links && left == f.left
      ensures log == old(log) + PairLog(pair, note1, note2, left0)
      ensures Valid() && LinkedRepos(links) !! left
      ensures state == old(state) && lastUpdate == old(lastUpdate) && hasWarning == old(hasWarning)
    {
      ghost var links0 := links;
      ghost var log0 := log;
      var left1 := FallbackStep(pair[0].cands, pair[0].matchType, note1, left0);
      ghost var links1 := links;
      ghost var log1 := log;
      left := FallbackStep(pair[1].cands, pair[1].matchType, note2, left1);
      ghost var f1 := Fill(pair[0].cands, pair[0].matchType, left0);
      ghost var f2 := Fill(pair[1].cands, pair[1].matchType, f1.left);
      assert FillChain(pair, left0).links == f1.links + f2.links && FillChain(pair, left0).left == f2.left by {
        FillChainOne(pair[0], left0);
        FillChainSnoc([pair[0]], pair[1], left0);
        assert [pair[0]] + [pair[1]] == pair;
      }
      assert links == links0 + (f1.links + f2.links) by {
        AppendAssoc(links0, f1.links, f2.links);
      }
      assert log == log0 + PairLog(pair, note1, note2, left0) by {
        AppendAssoc(log0, StepLog(note1, left0, f1), StepLog(note2, f1.left, f2));
      }
    }

    /** The base pair of fallback steps, then the foreign pair when there is one. */
    method FillPairs(base: seq<Source>, note1: Option<BatchEvent>, note2: Option<BatchEvent>, foreign: seq<Source>,
                     left0: set<nat>) returns (left: set<nat>)
      requires |base| == 2 && (foreign == [] || |foreign| == 2)
      requires Valid() && LinkedRepos(links) !! left0
      modifies this
      ensures var f := FillChain(base + foreign, left0);
        links == old(links) + f.links && left == f.left
      ensures log == old(log) + PairsLog(base, note1, note2, foreign, left0)
      ensures Valid() && LinkedRepos(links) !! left
      ensures state == old(state) && lastUpdate == old(lastUpdate) && hasWarning == old(hasWarning)
    {
      ghost var links0 := links;
      ghost var log0 := log;
      left := FillPair(base, note1, note2, left0);
      ghost var fb := FillChain(base, left0);
      ghost var baseLog := PairLog(base, note1, note2, left0);
      if foreign != [] {
        left := FillPair(foreign, Some(FallbackForeignHeads), None, left);
        ghost var ff := FillChain(foreign, fb.left);
        assert FillChain(base + foreign, left0) == Filled(fb.links + ff.links, ff.left, fb.deadSkipped + ff.deadSkipped) by {
          FillChainAppend(base, foreign, left0);
        }
        assert links == links0 + (fb.links + ff.links) by {
          AppendAssoc(links0, fb.links, ff.links);
        }
        assert log == log0 + PairsLog(base, note1, note2, foreign, left0) by {
          ghost var foreignLog := PairLog(foreign, Some(FallbackForeignHeads), None, fb.left);
          assert PairsLog(base, note1, note2, foreign, left0) == baseLog + foreignLog;
          AppendAssoc(log0, baseLog, foreignLog);
        }
      } else {
        assert base + foreign == base;
        assert PairsLog(base, note1, note2, foreign, left0) == baseLog;
      }
    }

    /**
     * Steps 3.1 to 4 of `_prepare`: the base bundle heads, the master base
     * bundle heads, then, when there are foreign projects, the same-named
     * foreign bundles' heads and their base bundles' heads.
     */
    method FillFallbacks(env: PrepareEnv, left0: set<nat>) returns (left: set<nat>)
      requires Valid() && LinkedRepos(links) !! left0
      modifies this
      ensures var f := FillChain(FallbackSources(bundle, env), left0);
        links == old(links) + f.links && left == f.left
      ensures log == old(log) + FallbackLog(bundle, env, left0)
      ensures Valid() && LinkedRepos(links) !! left
      ensures state == old(state) && lastUpdate == old(lastUpdate) && hasWarning == old(hasWarning)
    {
      left := FillPairs(BaseFallbacks(env), BaseNote(bundle, FallbackBaseHeads), BaseNote(bundle, FallbackMasterHeads),
                        ForeignPart(bundle, env), left0);
    }

    /**
     * Step 2 of `_prepare`: the best base batch for the links' merge bases,
     * logged, with a warning when some of its commits are not merge bases.
     */
    method UseBaseBatch(env: PrepareEnv) returns (chosen: Option<BaseBatch>)
      modifies this
      ensures chosen == BestBaseBatch(env.baseBatches, MergeBases(links), category)
      ensures log == old(log) + BaseBatchLog(chosen, MergeBases(links))
      ensures hasWarning == (old(hasWarning) || (chosen.Some? && NotMatching(chosen.value, MergeBases(links)) != {}))
      ensures links == old(links) && state == old(state) && lastUpdate == old(lastUpdate)
    {
      var mb := MergeBases(links);
      chosen := BestBaseBatch(env.baseBatches, mb, category);
      if chosen.Some? {
        Log(UsingBaseBatch(chosen.value.id));
        var nm := NotMatching(chosen.value, mb);
        if nm != {} {
          LogWarning(MergeBaseMismatch(|mb| - |nm|, |mb|, nm));
        }
      }
    }

    /** Step 2 of `_prepare` when repositories are still missing and the bundle is not a base bundle. */
    method FillFromBaseBatch(env: PrepareEnv, left0: set<nat>) returns (left: set<nat>)
      requires Valid() && LinkedRepos(links) !! left0
      modifies this
      ensures var mb := MergeBases(old(links));
        var chosen := BestBaseBatch(env.baseBatches, mb, category);
        var f := FillChain(ChosenSources(bundle, chosen), left0);
        var used := left0 != {} && !bundle.isBase;
        && links == old(links) + f.links && left == f.left
        && log == old(log) + (if used then BaseBatchLog(chosen, mb) + DeadLog(f.deadSkipped) else [])
        && hasWarning == (old(hasWarning) || (used && chosen.Some? && NotMatching(chosen.value, mb) != {}))
      ensures Valid() && LinkedRepos(links) !! left
      ensures state == old(state) && lastUpdate == old(lastUpdate)
    {
      ghost var links0 := links;
      ghost var log0 := log;
      ghost var mb := MergeBases(links);
      ghost var chosen0 := BestBaseBatch(env.baseBatches, mb, category);
      if left0 == {} || bundle.isBase {
        assert FillChain(ChosenSources(bundle, chosen0), left0) == Filled([], left0, []) by {
          FillChainNothingMissing(ChosenSources(bundle, chosen0));
        }
        left := left0;
      } else {
        var chosen := UseBaseBatch(env);
        ghost var log1 := log;
        ghost var bbl := BaseBatchLog(chosen, mb);
        assert log1 == log0 + bbl;
        left := FillChosen(chosen, left0);
        ghost var dl := DeadLog(FillChain(ChosenSources(bundle, chosen), left0).deadSkipped);
        assert log == log1 + dl;
        AppendAssoc(log0, bbl, dl);
      }
    }

    /** The fill from the chosen base batch's links, for a batch of a non-base bundle. */
    method FillChosen(chosen: Option<BaseBatch>, left0: set<nat>) returns (left: set<nat>)
      requires !bundle.isBase && Valid() && LinkedRepos(links) !! left0
      modifies this
      ensures var f := FillChain(ChosenSources(bundle, chosen), left0);
        links == old(links) + f.links && left == f.left && log == old(log) + DeadLog(f.deadSkipped)
      ensures Valid() && LinkedRepos(links) !! left
      ensures state == old(state) && lastUpdate == old(lastUpdate) && hasWarning == old(hasWarning)
    {
      if chosen.Some? {
        var src := Source(LinkCandidates(chosen.value.links), BaseMatch);
        FillChainOne(src, left0);
        left := FillMissing(src.cands, BaseMatch, left0);
      } else {
        assert links == links + [] && log == log + [];
        left := left0;
      }
    }

    /** Step 1.1 of `_prepare`: the bundle's branch heads fill the missing repositories, if any. */
    method FillHeads(env: PrepareEnv, missing: set<nat>) returns (left: set<nat>)
      requires Valid() && LinkedRepos(links) !! missing
      modifies this
      ensures var f := Fill(BundleHeads(env).cands, Head, missing);
        links == old(links) + f.links && left == f.left && log == old(log) + DeadLog(f.deadSkipped)
      ensures Valid() && LinkedRepos(links) !! left
      ensures state == old(state) && lastUpdate == old(lastUpdate) && hasWarning == old(hasWarning)
    {
      var heads := BundleHeads(env).cands;
      if missing != {} {
        left := FillMissing(heads, Head, missing);
      } else {
        FillNothingMissing(heads, Head);
        assert links == links + [] && log == log + [];
        left := missing;
      }
    }

    /** Steps 2 to 4 of `_prepare`: the chosen base batch, then the fallbacks. */
    method FillRest(env: PrepareEnv, left0: set<nat>) returns (left: set<nat>)
      requires Valid() && LinkedRepos(links) !! left0
      modifies this
      ensures var f := FillFromBaseBatches(old(links), old(log), old(hasWarning), bundle, category, env, left0);
        links == f.links && log == f.log && hasWarning == f.warned && left == f.left
      ensures Valid()
      ensures state == old(state) && lastUpdate == old(lastUpdate)
    {
      ghost var links0 := links;
      ghost var chosen := BestBaseBatch(env.baseBatches, MergeBases(links), category);
      var left2 := FillFromBaseBatch(env, left0);
      ghost var f2 := FillChain(ChosenSources(bundle, chosen), left0);
      left := FillFallbacks(env, left2);
    }

    /**
     * The "find missing commits" part of `_prepare`: the bundle heads fill
     * first, the links are annotated against the last base batch (a
     * ValueError there is a `Failure`), then the chosen base batch and the
     * fallbacks fill what is still missing. Returns the repositories left
     * missing.
     */
    method FindMissing(env: PrepareEnv, missing: set<nat>) returns (r: Result<set<nat>, String>)
      requires Valid() && LinkedRepos(links) !! missing
      modifies this
      ensures state == old(state) && lastUpdate == old(lastUpdate)
      ensures var spec := FindMissingResult(old(links), old(log), old(hasWarning), bundle, category, id, env, missing);
        && (r.Success? <==> spec.Some?)
        && (r.Success? ==> links == spec.value.links && log == spec.value.log && hasWarning == spec.value.warned
                           && r.value == spec.value.left)
    {
      var left := FillHeads(env, missing);
      ghost var linked1 := links;
      var u := UpdateCommitsInfos(BaseHeadsOf(LastBaseBatch(env.baseBatches, category, id)), env.git);
      if u.Failure? {
        return Failure(u.error);
      }
      SameKeysSameRepos(linked1, links);
      left := FillRest(env, left);
      r := Success(left);
    }

    /**
     * `_create_build(params)`: the newest root build with these params is
     * reused ('matched') and made not killable; otherwise a root build is
     * created ('created'), pinned to the bundle's host if it has one.
     */
    method CreateBuildFor(store: BuildStore, p: nat, description: Option<String>, env: PrepareEnv, now: int)
      returns (linkType: LinkType, b: BuildId)
      requires store.Valid() && p < |store.params|
      modifies store
      ensures store.Valid() && store.params == old(store.params) && store.slots == old(store.slots)
      ensures b in store.builds && store.builds[b].params == p && store.builds[b].parent.None?
      ensures KillableOnly(old(store.builds), store.builds) && old(store.nextBuild) <= store.nextBuild
      ensures linkType == Matched || linkType == Created
      ensures linkType == Matched ==>
        && b in old(store.builds) && store.nextBuild == old(store.nextBuild)
        && (forall x :: x in old(store.builds) && x > b ==> old(store.builds)[x].params != p || old(store.builds)[x].parent.Some?)
        && store.builds == old(store.builds)[b := old(store.builds)[b].(killable := false)]
      ensures linkType == Created ==>
        && (forall x :: x in old(store.builds) ==> old(store.builds)[x].params != p || old(store.builds)[x].parent.Some?)
        && b == old(store.nextBuild)
        && store.builds == old(store.builds)[b := NewRootBuild(p, bundle, category == env.defaultCategory, description, now)]
    {
      var found := store.FindRootBuild(p);
      if found.Some? {
        b := found.value;
        linkType := Matched;
        if store.builds[b].killable {
          store.SetKillable(b, false);
        } else {
          assert store.builds == store.builds[b := store.builds[b].(killable := false)];
        }
        return;
      }
      linkType := Created;
      b := store.CreateBuild(NewRootBuild(p, bundle, category == env.defaultCategory, description, now));
    }

    /**
     * The slot loop of `_prepare` for one trigger: a warning when one of its
     * repositories is missing, nothing without a config, otherwise its params
     * (looked up or inserted) and a slot, with a build created or matched
     * when the trigger is auto-linked.
     */
    method CreateSlot(store: BuildStore, env: PrepareEnv, t: Trigger, left: set<nat>, now: int)
      requires store.Valid()
      modifies this, store
      ensures store.Valid() && KillableOnly(old(store.builds), store.builds) && old(store.params) <= store.params
      ensures log == old(log) + TriggerLog(t, left) && hasWarning == (old(hasWarning) || TriggerLog(t, left) != [])
      ensures links == old(links) && state == old(state) && lastUpdate == old(lastUpdate)
      ensures !GetsSlot(t, env.customs, left) ==> store.slots == old(store.slots)
      ensures GetsSlot(t, env.customs, left) ==>
        && |store.slots| == |old(store.slots)| + 1 && store.slots[..|old(store.slots)|] == old(store.slots)
        && SlotFor(store.slots[|old(store.slots)|], t, id, bundle, env, links, store.builds, store.params)
    {
      var repos := TriggerRepos(t);
      if repos * left != {} {
        LogWarning(MissingTriggerCommit(t.id, repos * left));
        return;
      }
      assert repos !! left by {
        forall x | x in repos ensures x !in left {
          assert x in left ==> x in repos * left;
        }
      }
      var config := ConfigOf(t, env.customs);
      if config.None? {
        return;
      }
      var values := SlotParams(id, bundle, t, config.value, env.customs, links, env.dockerfile);
      ghost var params0 := store.params;
      var p := store.CreateParams(values, t.batchDependent);
      assert params0 <= store.params;
      var build: Option<BuildId> := None;
      var linkType := Created;
      if AutoLinked(t, bundle, env.bundleRepos) {
        var b;
        linkType, b := CreateBuildFor(store, p, t.description, env, now);
        build := Some(b);
      }
      ghost var slots0 := store.slots;
      store.AddSlot(Slot(id, t.id, p, build, linkType, true, false));
      assert store.slots[..|slots0|] == slots0;
    }

    /** The slot loop of `_prepare` on trigger `k`, from where it stood before the first trigger. */
    method CreateSlotNext(store: BuildStore, env: PrepareEnv, left: set<nat>, now: int, k: nat,
                          ghost slots0: seq<Slot>, ghost log0: seq<LogLine>, ghost warned0: bool,
                          ghost builds0: Table, ghost params0: seq<ParamsRow>)
      requires store.Valid() && k < |env.triggers|
      requires PartlySlotted(store.slots, log, hasWarning, store.builds, store.params, slots0, log0, warned0, builds0, params0,
                             env.triggers, k, id, bundle, env, links, left)
      modifies this, store
      ensures store.Valid()
      ensures PartlySlotted(store.slots, log, hasWarning, store.builds, store.params, slots0, log0, warned0, builds0, params0,
                            env.triggers, k + 1, id, bundle, env, links, left)
      ensures links == old(links) && state == old(state) && lastUpdate == old(lastUpdate)
    {
      ghost var slotsBefore, logBefore, warnedBefore := store.slots, log, hasWarning;
      ghost var buildsBefore, paramsBefore := store.builds, store.params;
      CreateSlot(store, env, env.triggers[k], left, now);
      SlottedStep(slotsBefore, logBefore, warnedBefore, buildsBefore, paramsBefore,
                  store.slots, log, hasWarning, store.builds, store.params,
                  slots0, log0, warned0, builds0, params0, env.triggers, k, id, bundle, env, links, left);
    }

    /** The slot loop of `_prepare`: every trigger in turn. */
    method CreateSlots(store: BuildStore, env: PrepareEnv, left: set<nat>, now: int)
      requires store.Valid()
      modifies this, store
      ensures store.Valid()
      ensures PartlySlotted(store.slots, log, hasWarning, store.builds, store.params,
                            old(store.slots), old(log), old(hasWarning), old(store.builds), old(store.params),
                            env.triggers, |env.triggers|, id, bundle, env, links, left)
      ensures links == old(links) && state == old(state) && lastUpdate == old(lastUpdate)
    {
      ghost var slots0 := store.slots;
      ghost var log0 := log;
      ghost var warned0 := hasWarning;
      ghost var builds0 := store.builds;
      ghost var params0 := store.params;
      var n := |env.triggers|;
      var k := 0;
      assert env.triggers[..0] == [];
      assert slots0[..|slots0|] == slots0;
      while k < n
        invariant 0 <= k <= n && n == |env.triggers|
        invariant store.Valid()
        invariant PartlySlotted(store.slots, log, hasWarning, store.builds, store.params, slots0, log0, warned0, builds0, params0,
                                env.triggers, k, id, bundle, env, links, left)
        invariant links == old(links) && state == old(state) && lastUpdate == old(lastUpdate)
      {
        CreateSlotNext(store, env, left, now, k, slots0, log0, warned0, builds0, params0);
        k := k + 1;
      }
    }

    /**
     * `BatchSlot._create_missing_build` for slot `k` of this batch: a slot
     * with a build keeps it; otherwise `_create_build` gives it one and sets
     * its link type. `description` is the description of the params' trigger.
     */
    method CreateMissingBuild(store: BuildStore, k: nat, description: Option<String>, env: PrepareEnv, now: int)
      returns (b: BuildId)
      requires store.Valid() && k < |store.slots| && store.slots[k].batch == id
      modifies store
      ensures store.Valid() && store.params == old(store.params)
      ensures old(store.slots)[k].build.Some? ==>
        b == old(store.slots)[k].build.value && store.builds == old(store.builds) && store.slots == old(store.slots)
      ensures old(store.slots)[k].build.None? ==>
        && b in store.builds && store.builds[b].params == old(store.slots)[k].params && store.builds[b].parent.None?
        && KillableOnly(old(store.builds), store.builds)
        && |store.slots| == |old(store.slots)|
        && store.slots == old(store.slots)[k := old(store.slots)[k].(build := Some(b), linkType := store.slots[k].linkType)]
        && store.slots[k].linkType in {Matched, Created}
    {
      var s := store.slots[k];
      if s.build.Some? {
        return s.build.value;
      }
      var linkType;
      linkType, b := CreateBuildFor(store, s.params, description, env, now);
      store.SetSlot(k, s.(build := Some(b), linkType := linkType));
    }

    /** The batches `_prepare` of this batch skips: same bundle, not done, older, both in the default category. */
    predicate SkipsAsOlder(env: PrepareEnv, b: Batch, bState: BatchState)
    {
      && !bundle.sticky && category == env.defaultCategory
      && b.bundle.id == bundle.id && bState != BatchDone && b.id < id && b.category == env.defaultCategory
    }

    /**
     * Where the skip cascade stands after the first `k` older batches, from
     * their states `states0` and logs `logs0`.
     */
    ghost predicate OlderSkipped(env: PrepareEnv, older: seq<Batch>, states0: seq<BatchState>, logs0: seq<seq<LogLine>>, k: nat)
      reads older
    {
      && |states0| == |older| && |logs0| == |older| && k <= |older|
      && (forall j :: 0 <= j < k ==>
            older[j].state == (if SkipsAsOlder(env, older[j], states0[j]) && !older[j].bundle.isBase then BatchSkipped
                               else states0[j]))
      && (forall j :: 0 <= j < k && !SkipsAsOlder(env, older[j], states0[j]) ==> older[j].log == logs0[j])
      && (forall j :: k <= j < |older| ==> older[j].state == states0[j] && older[j].log == logs0[j])
    }

    /**
     * The last part of `_prepare`: unless the bundle is sticky or the batch
     * is not in the default category, the older batches of the bundle that
     * are not done are skipped, in the given order.
     */
    method SkipOlder(store: BuildStore, older: seq<Batch>, bundleOf: nat -> nat, env: PrepareEnv)
      requires store.Valid()
      requires forall j :: 0 <= j < |older| ==> older[j] != this
      requires forall i, j :: 0 <= i < j < |older| ==> older[i] != older[j]
      modifies store, older
      ensures store.Valid() && store.nextBuild == old(store.nextBuild) && store.params == old(store.params)
      ensures SkipTouchedAll(old(store.builds), store.builds) && OnlySkipFlags(old(store.slots), store.slots)
      ensures forall i :: 0 <= i < |store.slots| && old(store.slots)[i].batch >= id ==> store.slots[i] == old(store.slots)[i]
      ensures forall j :: 0 <= j < |older| ==>
        older[j].state == (if SkipsAsOlder(env, older[j], old(older[j].state)) && !older[j].bundle.isBase then BatchSkipped
                           else old(older[j].state))
      ensures forall j :: 0 <= j < |older| && !SkipsAsOlder(env, older[j], old(older[j].state)) ==>
        older[j].log == old(older[j].log)
    {
      ghost var states0 := seq(|older|, j requires 0 <= j < |older| reads older => older[j].state);
      ghost var logs0 := seq(|older|, j requires 0 <= j < |older| reads older => older[j].log);
      ghost var t0 := store.builds;
      ghost var slots0 := store.slots;
      SkipTouchedAllRefl(t0);
      var n := |older|;
      var k := 0;
      while k < n
        invariant 0 <= k <= n && n == |older|
        invariant store.Valid() && store.nextBuild == old(store.nextBuild) && store.params == old(store.params)
        invariant SkipTouchedAll(t0, store.builds) && OnlySkipFlags(slots0, store.slots)
        invariant forall i :: 0 <= i < |store.slots| && slots0[i].batch >= id ==> store.slots[i] == slots0[i]
        invariant OlderSkipped(env, older, states0, logs0, k)
      {
        SkipOlderNext(store, older, k, bundleOf, env, states0, logs0, t0, slots0);
        k := k + 1;
      }
    }

    /** The skip cascade on older batch `k`. */
    method SkipOlderNext(store: BuildStore, older: seq<Batch>, k: nat, bundleOf: nat -> nat, env: PrepareEnv,
                         ghost states0: seq<BatchState>, ghost logs0: seq<seq<LogLine>>, ghost t0: Table, ghost slots0: seq<Slot>)
      requires store.Valid() && k < |older|
      requires forall j :: 0 <= j < |older| ==> older[j] != this
      requires forall i, j :: 0 <= i < j < |older| ==> older[i] != older[j]
      requires SkipTouchedAll(t0, store.builds) && OnlySkipFlags(slots0, store.slots)
      requires forall i :: 0 <= i < |store.slots| && slots0[i].batch >= id ==> store.slots[i] == slots0[i]
      requires OlderSkipped(env, older, states0, logs0, k)
      modifies store, older[k]
      ensures store.Valid() && store.nextBuild == old(store.nextBuild) && store.params == old(store.params)
      ensures SkipTouchedAll(t0, store.builds) && OnlySkipFlags(slots0, store.slots)
      ensures forall i :: 0 <= i < |store.slots| && slots0[i].batch >= id ==> store.slots[i] == slots0[i]
      ensures OlderSkipped(env, older, states0, logs0, k + 1)
    {
      var b := older[k];
      ghost var t1 := store.builds;
      ghost var slots1 := store.slots;
      if SkipsAsOlder(env, b, b.state) {
        SkipOlderOne(store, b, bundleOf, env);
        SkipTouchedAllTrans(t0, t1, store.builds);
        OnlySkipFlagsTrans(slots0, slots1, store.slots);
      }
    }

    /** `_skip` of one older batch, seen from the batch that skips it. */
    method SkipOlderOne(store: BuildStore, b: Batch, bundleOf: nat -> nat, env: PrepareEnv)
      requires store.Valid() && b != this && SkipsAsOlder(env, b, b.state)
      modifies store, b
      ensures store.Valid() && store.nextBuild == old(store.nextBuild) && store.params == old(store.params)
      ensures SkipTouchedAll(old(store.builds), store.builds) && OnlySkipFlags(old(store.slots), store.slots)
      ensures forall i :: 0 <= i < |store.slots| && old(store.slots)[i].batch >= id ==> store.slots[i] == old(store.slots)[i]
      ensures b.state == if b.bundle.isBase then old(b.state) else BatchSkipped
    {
      ghost var t0 := store.builds;
      ghost var slots0 := store.slots;
      b.Skip(store, bundleOf);
      if !b.bundle.isBase {
        SkipEffect(t0, store.nextBuild, slots0, b.id, bundleOf, b.bundle.id);
      } else {
        SkipTouchedAllRefl(t0);
      }
    }

    /**
     * `_prepare`: the bundle's consistency warnings, the batch made ready,
     * the missing commits found, a slot per trigger that has all its
     * commits and a config, and the older batches skipped. A ValueError
     * while annotating the links is a `Failure`: it escapes `_process` and
     * the transaction rolls back, so the batch, the older batches and the
     * build tables are as they were and the batch is prepared again later.
     * On success the result is the set of repositories still missing.
     */
    method Prepare(store: BuildStore, env: PrepareEnv, older: seq<Batch>, bundleOf: nat -> nat, now: int)
      returns (r: Result<set<nat>, String>)
      requires Valid() && store.Valid()
      requires forall j :: 0 <= j < |older| ==> older[j] != this
      requires forall i, j :: 0 <= i < j < |older| ==> older[i] != older[j]
      modifies this, store, older
      ensures lastUpdate == old(lastUpdate)
      ensures r.Success? ==> state == Ready
      ensures r.Failure? ==> state == old(state) && links == old(links) && log == old(log) && hasWarning == old(hasWarning)
      ensures r.Failure? ==> store.builds == old(store.builds) && store.slots == old(store.slots) && store.params == old(store.params)
      ensures r.Failure? ==> forall j :: 0 <= j < |older| ==> older[j].state == old(older[j].state)
      ensures SearchedFrom(env, old(links), old(log) + ConsistencyLog(env.consistency),
                           old(hasWarning) || ConsistencyLog(env.consistency) != [], r, links, log)
      ensures r.Success? ==>
        && Extends(log, old(log) + ConsistencyLog(env.consistency))
        && (ConsistencyLog(env.consistency) != [] ==> hasWarning)
        && PreparedFor(store, env, older, r.value, old(store.slots), old(links))
      ensures r.Success? ==> forall j :: 0 <= j < |older| ==>
        older[j].state == (if SkipsAsOlder(env, older[j], old(older[j].state)) && !older[j].bundle.isBase then BatchSkipped
                           else old(older[j].state))
    {
      var state0, links0, log0, warning0 := state, links, log, hasWarning;
      WarnConsistency(env.consistency);
      state := Ready;
      ghost var log1, warned1 := log, hasWarning;
      var found := FindAllMissing(env);
      if found.Failure? {
        state, links, log, hasWarning := state0, links0, log0, warning0;
        SearchedFromLater(env, links0, log1, warned1, found, links0, log1, links, log);
        return Failure(found.error);
      }
      ghost var log2 := log;
      PrepareRest(store, env, older, bundleOf, found.value, links0, now);
      SearchedFromLater(env, links0, log1, warned1, found, links, log2, links, log);
      ExtendsTrans(log1, log2, log);
      ExtendsTrans(old(log) + ConsistencyLog(env.consistency), log1, log);
      r := Success(found.value);
    }

    /**
     * The missing-commit search from links `links0` and log `log0` decides
     * the outcome: it fails exactly when the search does, and on success the
     * links are the search's, the result what it leaves missing, and the log
     * continues the search's log.
     */
    ghost predicate SearchedFrom(env: PrepareEnv, links0: seq<CommitLink>, log0: seq<LogLine>, warned0: bool,
                                 r: Result<set<nat>, String>, links1: seq<CommitLink>, log1: seq<LogLine>)
    {
      var spec := FindMissingResult(links0, log0, warned0, bundle, category, id, env, AllRepos(env.triggers) - LinkedRepos(links0));
      && (r.Success? <==> spec.Some?)
      && (r.Success? ==> links1 == spec.value.links && r.value == spec.value.left && Extends(log1, spec.value.log))
    }

    /** A later state whose links are the same and whose log continues the last one is searched from the same start. */
    lemma SearchedFromLater(env: PrepareEnv, links0: seq<CommitLink>, log0: seq<LogLine>, warned0: bool,
                            r: Result<set<nat>, String>, links1: seq<CommitLink>, log1: seq<LogLine>,
                            links2: seq<CommitLink>, log2: seq<LogLine>)
      requires SearchedFrom(env, links0, log0, warned0, r, links1, log1)
      requires r.Success? ==> links2 == links1 && Extends(log2, log1)
      ensures SearchedFrom(env, links0, log0, warned0, r, links2, log2)
    {
      if r.Success? {
        ExtendsTrans(FindMissingResult(links0, log0, warned0, bundle, category, id, env, AllRepos(env.triggers) - LinkedRepos(links0)).value.log, log1, log2);
      }
    }

    /**
     * What a successful `_prepare` leaves: consistent tables, `left` the
     * repositories still missing, the old links kept, one warning per
     * trigger with a missing repository at the end of the log, and one new
     * slot per slotted trigger after the old slots (whose `skipped` flags
     * alone may have changed).
     */
    ghost predicate PreparedFor(store: BuildStore, env: PrepareEnv, older: seq<Batch>, left: set<nat>,
                                slots0: seq<Slot>, links0: seq<CommitLink>)
      reads this, store
    {
      && Valid() && store.Valid() && left == AllRepos(env.triggers) - LinkedRepos(links)
      && LinkedRepos(links0) <= LinkedRepos(links)
      && (var ml := MissingLog(env.triggers, left);
          |log| >= |ml| && log[|log| - |ml|..] == ml && (ml != [] ==> hasWarning))
      && (var sl := Slotted(env.triggers, env.customs, left);
          && |store.slots| == |slots0| + |sl|
          && OnlySkipFlags(slots0, store.slots[..|slots0|])
          && forall j :: 0 <= j < |sl| ==> SlotFor(store.slots[|slots0| + j], sl[j], id, bundle, env, links, store.builds, store.params))
    }

    /**
     * `_prepare` once the missing commits are found: `left` the repositories
     * still missing, `links0` the links the batch had before.
     */
    method PrepareRest(store: BuildStore, env: PrepareEnv, older: seq<Batch>, bundleOf: nat -> nat,
                       left: set<nat>, ghost links0: seq<CommitLink>, now: int)
      requires Valid() && store.Valid()
      requires left == AllRepos(env.triggers) - LinkedRepos(links) && LinkedRepos(links0) <= LinkedRepos(links)
      requires forall j :: 0 <= j < |older| ==> older[j] != this
      requires forall i, j :: 0 <= i < j < |older| ==> older[i] != older[j]
      modifies this, store, older
      ensures state == old(state) && lastUpdate == old(lastUpdate) && links == old(links)
      ensures Extends(log, old(log)) && (old(hasWarning) ==> hasWarning)
      ensures PreparedFor(store, env, older, left, old(store.slots), links0)
      ensures forall j :: 0 <= j < |older| ==>
        older[j].state == (if SkipsAsOlder(env, older[j], old(older[j].state)) && !older[j].bundle.isBase then BatchSkipped
                           else old(older[j].state))
    {
      PrepareSlots(store, env, older, bundleOf, left, now);
      ghost var ml := MissingLog(env.triggers, left);
      assert Extends(log, old(log)) && log[|log| - |ml|..] == ml by {
        AppendExtends(old(log), ml);
      }
    }

    /**
     * The missing commits of every repository the triggers need: on success
     * the result is what is still missing, the links only grew, and the log
     * only grew.
     */
    method FindAllMissing(env: PrepareEnv) returns (r: Result<set<nat>, String>)
      requires Valid()
      modifies this
      ensures state == old(state) && lastUpdate == old(lastUpdate)
      ensures SearchedFrom(env, old(links), old(log), old(hasWarning), r, links, log)
      ensures r.Success? ==>
        && Valid() && r.value == AllRepos(env.triggers) - LinkedRepos(links) && LinkedRepos(old(links)) <= LinkedRepos(links)
        && Extends(log, old(log)) && (old(hasWarning) ==> hasWarning)
    {
      var missing := AllRepos(env.triggers) - LinkedRepos(links);
      r := FindMissing(env, missing);
      if r.Success? {
        FoundCoversAll(old(links), old(log), old(hasWarning), bundle, category, id, env, Found(links, log, hasWarning, r.value));
      }
    }

    /** The slot loop and the skip cascade of `_prepare`, once the missing commits are found. */
    method PrepareSlots(store: BuildStore, env: PrepareEnv, older: seq<Batch>, bundleOf: nat -> nat, left: set<nat>, now: int)
      requires store.Valid()
      requires forall j :: 0 <= j < |older| ==> older[j] != this
      requires forall i, j :: 0 <= i < j < |older| ==> older[i] != older[j]
      modifies this, store, older
      ensures links == old(links) && state == old(state) && lastUpdate == old(lastUpdate) && store.Valid()
      ensures log == old(log) + MissingLog(env.triggers, left) && hasWarning == (old(hasWarning) || MissingLog(env.triggers, left) != [])
      ensures var sl := Slotted(env.triggers, env.customs, left);
        && |store.slots| == |old(store.slots)| + |sl|
        && OnlySkipFlags(old(store.slots), store.slots[..|old(store.slots)|])
        && forall j :: 0 <= j < |sl| ==>
             SlotFor(store.slots[|old(store.slots)| + j], sl[j], id, bundle, env, links, store.builds, store.params)
      ensures forall j :: 0 <= j < |older| ==>
        older[j].state == (if SkipsAsOlder(env, older[j], old(older[j].state)) && !older[j].bundle.isBase then BatchSkipped
                           else old(older[j].state))
    {
      ghost var slots0 := store.slots;
      CreateSlots(store, env, left, now);
      ghost var slots1 := store.slots;
      ghost var builds1 := store.builds;
      ghost var params1 := store.params;
      ghost var sl := Slotted(env.triggers, env.customs, left);
      PartlySlottedDone(store.slots, log, hasWarning, store.builds, store.params, slots0, old(log), old(hasWarning),
                        old(store.builds), old(store.params), env.triggers, id, bundle, env, links, left);
      SkipOlder(store, older, bundleOf, env);
      NewSlotsSurviveSkip(slots0, slots1, store.slots, builds1, store.builds, params1, sl, id, bundle, env, links);
    }

    /**
     * `_process` for this batch: a preparing batch untouched for a minute is
     * prepared; a ready batch whose slots' builds are all running or done
     * (or that has no build) is done. The result says whether the batch was
     * processed.
     */
    method Process(store: BuildStore, env: PrepareEnv, older: seq<Batch>, bundleOf: nat -> nat, now: int)
      returns (r: Result<bool, String>)
      requires Valid() && store.Valid()
      requires forall j :: 0 <= j < |older| ==> older[j] != this
      requires forall i, j :: 0 <= i < j < |older| ==> older[i] != older[j]
      modifies this, store, older
      ensures old(state) == Preparing && old(lastUpdate) < now - 60 && r.Success? ==> state == Ready && r.value
      ensures r.Failure? ==> old(state) == Preparing && old(lastUpdate) < now - 60
      ensures r.Failure? ==>
        state == old(state) && links == old(links) && log == old(log) && hasWarning == old(hasWarning)
        && store.builds == old(store.builds) && store.slots == old(store.slots)
        && forall j :: 0 <= j < |older| ==> older[j].state == old(older[j].state)
      ensures !(old(state) == Preparing && old(lastUpdate) < now - 60) ==> r.Success?
      ensures old(state) == Ready && old(AllSlotsSettled(store.builds, store.nextBuild, store.slots, id)) ==>
        state == BatchDone && log == old(log) + [LogLine(Info, BatchDoneEvent)] && r == Success(true)
        && store.builds == old(store.builds) && store.slots == old(store.slots)
      ensures old(state) != Preparing && !(old(state) == Ready && old(AllSlotsSettled(store.builds, store.nextBuild, store.slots, id))) ==>
        state == old(state) && log == old(log) && r == Success(false)
        && store.builds == old(store.builds) && store.slots == old(store.slots)
      ensures old(state) == Preparing && old(lastUpdate) >= now - 60 ==>
        state == old(state) && log == old(log) && r == Success(false)
        && store.builds == old(store.builds) && store.slots == old(store.slots)
    {
      if state == Preparing && lastUpdate < now - 60 {
        var p := Prepare(store, env, older, bundleOf, now);
        if p.Failure? {
          return Failure(p.error);
        }
        return Success(true);
      }
      if state == Ready && AllSlotsSettled(store.builds, store.nextBuild, store.slots, id) {
        Log(BatchDoneEvent);
        state := BatchDone;
        return Success(true);
      }
      return Success(false);
    }
  }

  /** Links with the same keys cover the same repositories. */
  lemma SameKeysSameRepos(a: seq<CommitLink>, b: seq<CommitLink>)
    requires |a| == |b| && forall k :: 0 <= k < |a| ==> SameKey(b[k], a[k])
    ensures LinkedRepos(a) == LinkedRepos(b)
  {
    forall r | r in LinkedRepos(a) ensures r in LinkedRepos(b) {
      var k :| 0 <= k < |a| && a[k].commit.repo == r;
      assert b[k].commit.repo == r;
    }
    forall r | r in LinkedRepos(b) ensures r in LinkedRepos(a) {
      var k :| 0 <= k < |b| && b[k].commit.repo == r;
      assert a[k].commit.repo == r;
    }
  }

  // ------------------------------------------------------------------ _skip

  /** A slot of batch `batch`: what `batch.slot_ids` holds (archived slots are not). */
  predicate InBatch(s: Slot, batch: nat)
  {
    s.active && s.batch == batch
  }

  /** The build after `_skip`: done, and skipped unless the write guard keeps a more severe result. */
  function SkippedBuild(b: Build): Build
  {
    ApplyValues(b, GuardOne(b, SkipValues))
  }

  /** `build.slot_ids.filtered(lambda s: not s.skipped)`: indices of the attached slots still testing `b`. */
  function TestingSlots(slots: seq<Slot>, b: BuildId): set<nat>
  {
    set k | 0 <= k < |slots| && AttachedTo(slots[k], b) && !slots[k].skipped
  }

  /** The bundles of the batches of the slots `testing`, other than bundle `bundleId`. */
  function OtherBundles(slots: seq<Slot>, testing: set<nat>, bundleOf: nat -> nat, bundleId: nat): set<nat>
    requires forall j :: j in testing ==> j < |slots|
  {
    (set j | j in testing :: bundleOf(slots[j].batch)) - {bundleId}
  }

  /**
   * The body of `_skip` for slot `k`: the slot is marked skipped; unless its
   * build is running or done, a build no other slot still tests is skipped
   * when pending and made killable when waiting or testing; a build created
   * for this slot but still tested elsewhere is logged with the other bundles.
   */
  function SkipSlotStep(t: Table, bound: nat, slots: seq<Slot>, k: nat, bundleOf: nat -> nat, bundleId: nat)
    : (r: (Table, seq<Slot>, seq<LogLine>))
    requires IsTree(t, bound) && k < |slots|
    ensures SameLinks(t, r.0) && r.1 == slots[k := slots[k].(skipped := true)]
  {
    var marked := slots[k := slots[k].(skipped := true)];
    var s := slots[k];
    if s.build.None? || s.build.value !in t then (t, marked, [])
    else
      var b := s.build.value;
      var g := GlobalState(t, bound, b);
      if g == Running || g == Done then (t, marked, [])
      else
        var testing := TestingSlots(marked, b);
        if testing == {} then
          if g == Pending then (t[b := SkippedBuild(t[b])], marked, [])
          else (t[b := t[b].(killable := true)], marked, [])
        else if s.linkType == Created then
          var bundles := OtherBundles(marked, testing, bundleOf, bundleId);
          (t, marked, if bundles != {} then [LogLine(Info, BuildInUse(b, bundles))] else [])
        else (t, marked, [])
  }

  /** `_skip` over the first `n` slots of the table, for the slots of batch `batch`. */
  function SkipSlots(t: Table, bound: nat, slots: seq<Slot>, batch: nat, n: nat, bundleOf: nat -> nat, bundleId: nat)
    : (r: (Table, seq<Slot>, seq<LogLine>))
    requires IsTree(t, bound) && n <= |slots|
    ensures SameLinks(t, r.0) && |r.1| == |slots|
    decreases n
  {
    if n == 0 then (t, slots, [])
    else
      var prev := SkipSlots(t, bound, slots, batch, n - 1, bundleOf, bundleId);
      SameLinksKeepTree(t, prev.0, bound);
      if InBatch(prev.1[n - 1], batch) then
        var step := SkipSlotStep(prev.0, bound, prev.1, n - 1, bundleOf, bundleId);
        (step.0, step.1, prev.2 + step.2)
      else prev
  }

  /** Where `_skip` of batch `batch` stands after the first `k` slots, from `t0`, `slots0` and `log0`. */
  ghost predicate PartlySkipped(t: Table, slots: seq<Slot>, log: seq<LogLine>,
                                t0: Table, slots0: seq<Slot>, log0: seq<LogLine>,
                                bound: nat, batch: nat, k: nat, bundleOf: nat -> nat, bundleId: nat)
  {
    && IsTree(t0, bound) && k <= |slots0|
    && var r := SkipSlots(t0, bound, slots0, batch, k, bundleOf, bundleId);
       t == r.0 && slots == r.1 && log == log0 + r.2
  }

  /**
   * What `_skip` may do to one build: nothing, make it killable, or (when it
   * was pending) skip it, possibly also making it killable.
   */
  predicate SkipTouched(b0: Build, b: Build)
  {
    || b == b0
    || b == b0.(killable := true)
    || (b0.localState == Pending && (b == SkippedBuild(b0) || b == SkippedBuild(b0).(killable := true)))
  }

  lemma SkipTouchedTrans(b0: Build, b1: Build, b2: Build)
    requires SkipTouched(b0, b1) && SkipTouched(b1, b2)
    ensures SkipTouched(b0, b2)
  {
    if b1 == b0.(killable := true) && b1.localState == Pending {
      assert SkippedBuild(b1) == SkippedBuild(b0).(killable := true);
      assert SkippedBuild(b1).(killable := true) == SkippedBuild(b0).(killable := true);
    }
  }

  /** The slots after `_skip` of batch `batch`: its slots are skipped, every other slot is as it was. */
  predicate MarkedSkipped(slots: seq<Slot>, slots2: seq<Slot>, batch: nat, n: nat)
    requires n <= |slots|
  {
    |slots2| == |slots|
    && (forall k :: 0 <= k < n ==> slots2[k] == if InBatch(slots[k], batch) then slots[k].(skipped := true) else slots[k])
    && (forall k :: n <= k < |slots| ==> slots2[k] == slots[k])
  }

  /** Some slot among the first `n` belongs to batch `batch` and has build `x`. */
  predicate BuildOfBatchSlot(slots: seq<Slot>, batch: nat, n: nat, x: BuildId)
  {
    exists k :: 0 <= k < n && k < |slots| && InBatch(slots[k], batch) && slots[k].build == Some(x)
  }

  /**
   * `_skip` of a batch marks exactly its slots skipped, and leaves every
   * build either as it was, killable, or skipped if it was pending; only the
   * builds of its slots can change.
   */
  lemma SkipSlotsEffect(t: Table, bound: nat, slots: seq<Slot>, batch: nat, n: nat,
                        bundleOf: nat -> nat, bundleId: nat)
    requires IsTree(t, bound) && n <= |slots|
    ensures var r := SkipSlots(t, bound, slots, batch, n, bundleOf, bundleId);
      && MarkedSkipped(slots, r.1, batch, n)
      && (forall x :: x in t ==> SkipTouched(t[x], r.0[x]))
      && (forall x :: x in t && r.0[x] != t[x] ==> BuildOfBatchSlot(slots, batch, n, x))
  {
    SkipSlotsMarks(t, bound, slots, batch, n, bundleOf, bundleId);
    SkipSlotsTouch(t, bound, slots, batch, n, bundleOf, bundleId);
    SkipSlotsOnlyOwn(t, bound, slots, batch, n, bundleOf, bundleId);
  }

  lemma {:induction false} SkipSlotsMarks(t: Table, bound: nat, slots: seq<Slot>, batch: nat, n: nat,
                                          bundleOf: nat -> nat, bundleId: nat)
    requires IsTree(t, bound) && n <= |slots|
    ensures MarkedSkipped(slots, SkipSlots(t, bound, slots, batch, n, bundleOf, bundleId).1, batch, n)
    decreases n
  {
    if n > 0 {
      SkipSlotsMarks(t, bound, slots, batch, n - 1, bundleOf, bundleId);
      var prev := SkipSlots(t, bound, slots, batch, n - 1, bundleOf, bundleId);
      SameLinksKeepTree(t, prev.0, bound);
      assert prev.1[n - 1] == slots[n - 1];
    }
  }

  lemma {:induction false} SkipSlotsTouch(t: Table, bound: nat, slots: seq<Slot>, batch: nat, n: nat,
                                          bundleOf: nat -> nat, bundleId: nat)
    requires IsTree(t, bound) && n <= |slots|
    ensures var r := SkipSlots(t, bound, slots, batch, n, bundleOf, bundleId);
      forall x :: x in t ==> SkipTouched(t[x], r.0[x])
    decreases n
  {
    if n > 0 {
      SkipSlotsTouch(t, bound, slots, batch, n - 1, bundleOf, bundleId);
      var prev := SkipSlots(t, bound, slots, batch, n - 1, bundleOf, bundleId);
      SameLinksKeepTree(t, prev.0, bound);
      if InBatch(prev.1[n - 1], batch) {
        var step := SkipSlotStep(prev.0, bound, prev.1, n - 1, bundleOf, bundleId);
        assert SkipSlots(t, bound, slots, batch, n, bundleOf, bundleId).0 == step.0;
        SkipSlotStepTouches(prev.0, bound, prev.1, n - 1, bundleOf, bundleId);
        forall x | x in t ensures SkipTouched(t[x], step.0[x]) {
          SkipTouchedTrans(t[x], prev.0[x], step.0[x]);
        }
      }
    }
  }

  lemma {:induction false} SkipSlotsOnlyOwn(t: Table, bound: nat, slots: seq<Slot>, batch: nat, n: nat,
                                            bundleOf: nat -> nat, bundleId: nat)
    requires IsTree(t, bound) && n <= |slots|
    ensures var r := SkipSlots(t, bound, slots, batch, n, bundleOf, bundleId);
      forall x :: x in t && r.0[x] != t[x] ==> BuildOfBatchSlot(slots, batch, n, x)
    decreases n
  {
    if n > 0 {
      SkipSlotsOnlyOwn(t, bound, slots, batch, n - 1, bundleOf, bundleId);
      SkipSlotsMarks(t, bound, slots, batch, n - 1, bundleOf, bundleId);
      var prev := SkipSlots(t, bound, slots, batch, n - 1, bundleOf, bundleId);
      SameLinksKeepTree(t, prev.0, bound);
      assert prev.1[n - 1] == slots[n - 1];
      var r := SkipSlots(t, bound, slots, batch, n, bundleOf, bundleId);
      forall x | x in t && r.0[x] != t[x]
        ensures BuildOfBatchSlot(slots, batch, n, x)
      {
        if prev.0[x] != t[x] {
          var k :| 0 <= k < n - 1 && k < |slots| && InBatch(slots[k], batch) && slots[k].build == Some(x);
        } else {
          SkipSlotStepTouches(prev.0, bound, prev.1, n - 1, bundleOf, bundleId);
          assert InBatch(slots[n - 1], batch) && slots[n - 1].build == Some(x);
        }
      }
    }
  }

  /** One slot step touches at most the slot's own build, in one of the ways `SkipTouched` allows. */
  lemma SkipSlotStepTouches(t: Table, bound: nat, slots: seq<Slot>, k: nat, bundleOf: nat -> nat, bundleId: nat)
    requires IsTree(t, bound) && k < |slots|
    ensures var r := SkipSlotStep(t, bound, slots, k, bundleOf, bundleId);
      && (forall x :: x in t ==> SkipTouched(t[x], r.0[x]))
      && (forall x :: x in t && r.0[x] != t[x] ==> slots[k].build == Some(x))
  {
    var s := slots[k];
    if s.build.Some? && s.build.value in t {
      var b := s.build.value;
      var g := GlobalState(t, bound, b);
      if g == Pending {
        assert t[b].localState == Pending;
      }
    }
  }

  lemma OnlySkipFlagsTrans(s1: seq<Slot>, s2: seq<Slot>, s3: seq<Slot>)
    requires OnlySkipFlags(s1, s2) && OnlySkipFlags(s2, s3)
    ensures OnlySkipFlags(s1, s3)
  {
    forall i | 0 <= i < |s1| ensures s3[i] == s1[i].(skipped := s3[i].skipped) {
      assert s2[i] == s1[i].(skipped := s2[i].skipped);
    }
  }

  lemma SkipTouchedAllRefl(t: Table)
    ensures SkipTouchedAll(t, t)
  {
  }

  /**
   * `_skip` of batch `batch` over all the slots changes builds only as
   * `SkipTouched` allows, changes slots only by setting `skipped`, and leaves
   * the slots of other batches alone.
   */
  lemma SkipEffect(t: Table, bound: nat, slots: seq<Slot>, batch: nat, bundleOf: nat -> nat, bundleId: nat)
    requires IsTree(t, bound)
    ensures var r := SkipSlots(t, bound, slots, batch, |slots|, bundleOf, bundleId);
      && SkipTouchedAll(t, r.0) && OnlySkipFlags(slots, r.1)
      && forall i :: 0 <= i < |slots| && slots[i].batch != batch ==> r.1[i] == slots[i]
  {
    SkipSlotsEffect(t, bound, slots, batch, |slots|, bundleOf, bundleId);
  }

  lemma SkipTouchedAllTrans(t1: Table, t2: Table, t3: Table)
    requires SkipTouchedAll(t1, t2) && SkipTouchedAll(t2, t3)
    ensures SkipTouchedAll(t1, t3)
  {
    forall x | x in t1 ensures SkipTouched(t1[x], t3[x]) {
      SkipTouchedTrans(t1[x], t2[x], t3[x]);
    }
  }

  /** A slot of `_prepare` is still that slot once `_skip` has touched the builds. */
  lemma SlotForSurvivesSkip(s: Slot, t: Trigger, batch: nat, bundle: Bundle, env: PrepareEnv, links: seq<CommitLink>,
                            builds: Table, builds2: Table, params: seq<ParamsRow>)
    requires SlotFor(s, t, batch, bundle, env, links, builds, params) && SkipTouchedAll(builds, builds2)
    ensures SlotFor(s, t, batch, bundle, env, links, builds2, params)
  {
    if s.build.Some? {
      var b := s.build.value;
      assert SkipTouched(builds[b], builds2[b]);
    }
  }

  /** The slots `_prepare` appended survive the skip cascade, which only touches older batches. */
  lemma NewSlotsSurviveSkip(slots0: seq<Slot>, slots1: seq<Slot>, slots2: seq<Slot>, builds1: Table, builds2: Table,
                            params: seq<ParamsRow>, sl: seq<Trigger>, batch: nat, bundle: Bundle, env: PrepareEnv,
                            links: seq<CommitLink>)
    requires |slots1| == |slots0| + |sl| && slots1[..|slots0|] == slots0
    requires forall j :: 0 <= j < |sl| ==> SlotFor(slots1[|slots0| + j], sl[j], batch, bundle, env, links, builds1, params)
    requires SkipTouchedAll(builds1, builds2) && OnlySkipFlags(slots1, slots2)
    requires forall i :: 0 <= i < |slots2| && slots1[i].batch >= batch ==> slots2[i] == slots1[i]
    ensures |slots2| == |slots0| + |sl| && OnlySkipFlags(slots0, slots2[..|slots0|])
    ensures forall j :: 0 <= j < |sl| ==> SlotFor(slots2[|slots0| + j], sl[j], batch, bundle, env, links, builds2, params)
  {
    forall j | 0 <= j < |sl|
      ensures SlotFor(slots2[|slots0| + j], sl[j], batch, bundle, env, links, builds2, params)
    {
      assert SlotFor(slots1[|slots0| + j], sl[j], batch, bundle, env, links, builds1, params);
      assert slots1[|slots0| + j].batch == batch;
      assert slots2[|slots0| + j] == slots1[|slots0| + j];
      SlotForSurvivesSkip(slots1[|slots0| + j], sl[j], batch, bundle, env, links, builds1, builds2, params);
    }
    forall i | 0 <= i < |slots0|
      ensures slots2[..|slots0|][i] == slots0[i].(skipped := slots2[..|slots0|][i].skipped)
    {
      assert slots1[i] == slots0[i];
    }
  }
}
