// The `runbot.build` table as one sequential store: build records forming a
// parent-linked tree, the immutable `runbot.build.params` rows they point to,
// and the `runbot.batch.slot` rows linking batches to builds. The methods are
// the state transitions of a build: the `write` guard on `local_result`,
// kill, ask-kill, rebuild, wake-up, requested actions, `update_build_end`,
// port allocation and one scheduler pass.
module Builds {
  import opened Wrappers
  import opened Text
  import opened BuildOrder
  import opened BuildTree
  import opened BuildSteps

  // ---------------------------------------------------------------- params

  /**
   * One `runbot.build.params` row. Relations are ids (`commits` are the
   * commit ids behind `commit_link_ids`, `buildsReference` the referenced builds).
   */
  datatype Params = Params(
    version: nat,
    project: nat,
    trigger: Option<nat>,
    createBatch: Option<nat>,
    category: String,
    extraParams: Option<String>,
    config: nat,
    configData: map<String, String>,
    modules: Option<String>,
    commits: set<nat>,
    buildsReference: set<nat>,
    upgradeFrom: Option<nat>,
    upgradeTo: Option<nat>,
    dumpDb: Option<nat>,
    dockerfile: Option<nat>,
    skipRequirements: bool)

  /**
   * The normalised values a fingerprint hashes. The hash itself is left
   * abstract: this value stands for it, so equal fingerprints mean equal values.
   */
  datatype Fingerprint = Fingerprint(
    version: nat,
    project: nat,
    trigger: Option<nat>,
    extraParams: String,
    config: nat,
    configData: map<String, String>,
    modules: String,
    commits: set<nat>,
    buildsReference: set<nat>,
    upgradeFrom: Option<nat>,
    upgradeTo: Option<nat>,
    dumpDb: Option<nat>,
    dockerfile: Option<nat>,
    skipRequirements: bool,
    createBatch: Option<nat>)

  /**
   * `_compute_fingerprint`, as evidently intended: every params row gets a
   * fingerprint, and the create batch is part of it only when the trigger is
   * batch dependent. Unset `extra_params`/`modules` count as empty strings.
   */
  function FingerprintOf(p: Params, batchDependent: bool): Fingerprint
  {
    Fingerprint(p.version, p.project, p.trigger, p.extraParams.GetOr(""), p.config, p.configData,
                p.modules.GetOr(""), p.commits, p.buildsReference, p.upgradeFrom, p.upgradeTo,
                p.dumpDb, p.dockerfile, p.skipRequirements,
                if batchDependent then p.createBatch else None)
  }

  /** Everything but the create batch: what a batch-independent build can be reused on. */
  predicate SameBuildValues(p: Params, q: Params)
  {
    p.version == q.version && p.project == q.project && p.trigger == q.trigger
    && p.extraParams.GetOr("") == q.extraParams.GetOr("") && p.config == q.config
    && p.configData == q.configData && p.modules.GetOr("") == q.modules.GetOr("")
    && p.commits == q.commits && p.buildsReference == q.buildsReference
    && p.upgradeFrom == q.upgradeFrom && p.upgradeTo == q.upgradeTo && p.dumpDb == q.dumpDb
    && p.dockerfile == q.dockerfile && p.skipRequirements == q.skipRequirements
  }

  /**
   * Two params share a fingerprint exactly when they agree on the build
   * values and, for a batch-dependent trigger, on the create batch too; so a
   * batch-independent build is shared across batches and a batch-dependent one
   * never is. `category` is not part of the fingerprint.
   */
  lemma FingerprintIdentifies(p: Params, q: Params, batchDependent: bool)
    ensures FingerprintOf(p, batchDependent) == FingerprintOf(q, batchDependent)
            <==> SameBuildValues(p, q) && (batchDependent ==> p.createBatch == q.createBatch)
  {
  }

  /**
   * The same computation with line 96 read as part of the `if` block, as it is
   * indented: only batch-dependent params get a fingerprint (and it always
   * holds the create batch); every other params row has none.
   */
  function FingerprintAsWritten(p: Params, batchDependent: bool): Option<Fingerprint>
  {
    if batchDependent then
      Some(Fingerprint(p.version, p.project, p.trigger, p.extraParams.GetOr(""), p.config, p.configData,
                       p.modules.GetOr(""), p.commits, p.buildsReference, p.upgradeFrom, p.upgradeTo,
                       p.dumpDb, p.dockerfile, p.skipRequirements, p.createBatch))
    else None
  }

  /**
   * As written, two params of a batch-independent trigger that differ in every
   * build value get the same (empty) fingerprint, so lookup by fingerprint can
   * no longer tell them apart; with the intended reading they differ.
   */
  lemma FingerprintAsWrittenConflates()
    ensures var p := Params(1, 1, Some(1), Some(1), "default", None, 1, map[], None, {1}, {}, None, None, None, None, false);
            var q := p.(version := 2, commits := {2});
            && !SameBuildValues(p, q)
            && FingerprintAsWritten(p, false) == FingerprintAsWritten(q, false)
            && FingerprintOf(p, false) != FingerprintOf(q, false)
  {
    var p := Params(1, 1, Some(1), Some(1), "default", None, 1, map[], None, {1}, {}, None, None, None, None, false);
    var q := p.(version := 2, commits := {2});
    assert FingerprintOf(p, false).version != FingerprintOf(q, false).version;
  }

  /** A stored params row: its values and the fingerprint computed at creation. */
  datatype ParamsRow = ParamsRow(values: Params, fingerprint: Fingerprint)

  // ------------------------------------------------------------------ slots

  /** `link_type` of a slot. */
  datatype LinkType = Created | Matched | RebuildLink

  /** One `runbot.batch.slot` row. */
  datatype Slot = Slot(
    batch: nat,
    trigger: nat,
    params: nat,
    build: Option<BuildId>,
    linkType: LinkType,
    active: bool,
    skipped: bool)

  /** An attached slot pointing at `id`: what `search([('build_id', '=', id)])` finds. */
  predicate AttachedTo(s: Slot, id: BuildId)
  {
    s.active && s.build == Some(id)
  }

  /** The slots of a rebuilt root build are detached. */
  function Detached(slots: seq<Slot>, id: BuildId): (r: seq<Slot>)
    ensures |r| == |slots|
    ensures forall i :: 0 <= i < |slots| ==>
      r[i] == if AttachedTo(slots[i], id) then slots[i].(active := false) else slots[i]
  {
    if slots == [] then []
    else
      var last := slots[|slots| - 1];
      Detached(slots[..|slots| - 1], id) + [if AttachedTo(last, id) then last.(active := false) else last]
  }

  /** The copies a rebuild appends: each attached slot again, now on the new build with link 'rebuild'. */
  function RebuildCopies(slots: seq<Slot>, id: BuildId, newId: BuildId): (r: seq<Slot>)
    ensures |r| <= |slots|
    ensures forall i :: 0 <= i < |r| ==> r[i].build == Some(newId) && r[i].linkType == RebuildLink && r[i].active
  {
    if slots == [] then []
    else
      var last := slots[|slots| - 1];
      RebuildCopies(slots[..|slots| - 1], id, newId)
      + (if AttachedTo(last, id) then [last.(build := Some(newId), linkType := RebuildLink)] else [])
  }

  /** Every attached slot of the old build has its copy on the new one, and nothing else is copied. */
  lemma {:induction false} RebuildCopiesCount(slots: seq<Slot>, id: BuildId, newId: BuildId)
    ensures |RebuildCopies(slots, id, newId)| == |set i | 0 <= i < |slots| && AttachedTo(slots[i], id)|
  {
    if slots != [] {
      var n := |slots| - 1;
      var front := slots[..n];
      RebuildCopiesCount(front, id, newId);
      var before := set i | 0 <= i < n && AttachedTo(front[i], id);
      var after := set i | 0 <= i < |slots| && AttachedTo(slots[i], id);
      if AttachedTo(slots[n], id) {
        assert after == before + {n};
      } else {
        assert after == before;
      }
    }
  }

  // ----------------------------------------------------------- the write guard

  /** A field of a `write` call: absent from the values, or set to a value. */
  datatype Field<T> = Keep | Set(value: T)

  function Pick<T>(f: Field<T>, current: T): T
  {
    if f.Set? then f.value else current
  }

  /** The values of a `write` on builds, for the fields the transitions touch. */
  datatype Values = Values(
    localState: Field<BuildState>,
    localResult: Field<Option<BuildResult>>,
    requestedAction: Field<Option<Action>>,
    activeStep: Field<Option<nat>>,
    jobStart: Field<Option<int>>,
    jobEnd: Field<Option<int>>,
    buildEnd: Field<Option<int>>,
    dockerStart: Field<Option<int>>,
    port: Field<int>)

  const NoValues: Values := Values(Keep, Keep, Keep, Keep, Keep, Keep, Keep, Keep, Keep)

  function ApplyValues(b: Build, v: Values): Build
  {
    b.(localState := Pick(v.localState, b.localState),
       localResult := Pick(v.localResult, b.localResult),
       requestedAction := Pick(v.requestedAction, b.requestedAction),
       activeStep := Pick(v.activeStep, b.activeStep),
       jobStart := Pick(v.jobStart, b.jobStart),
       jobEnd := Pick(v.jobEnd, b.jobEnd),
       buildEnd := Pick(v.buildEnd, b.buildEnd),
       dockerStart := Pick(v.dockerStart, b.dockerStart),
       port := Pick(v.port, b.port))
  }

  /** The incoming `local_result` is set, truthy, and less severe than the build's. */
  predicate Lowers(b: Build, v: Values)
  {
    v.localResult.Set? && v.localResult.value.Some? && !KeepsNewResult(b.localResult, v.localResult.value.value)
  }

  /** No build named in `ids` would have its `local_result` lowered by `v`. */
  predicate NoneLowered(t: Table, ids: seq<BuildId>, v: Values)
    requires forall i :: 0 <= i < |ids| ==> ids[i] in t
  {
    forall i :: 0 <= i < |ids| ==> !Lowers(t[ids[i]], v)
  }

  /** A single-build write drops a lowering `local_result` and writes the rest. */
  function GuardOne(b: Build, v: Values): Values
  {
    if Lowers(b, v) then v.(localResult := Keep) else v
  }

  /** No build of `t` has a less severe (or no) `local_result` in `t2`. */
  predicate NotLowered(t: Table, t2: Table)
  {
    forall x :: x in t && x in t2 && t[x].localResult.Some? ==>
      t2[x].localResult.Some? && ResultScore(t[x].localResult.value) <= ResultScore(t2[x].localResult.value)
  }

  /** `t2` is `t` with `w` written on every build of `ids`. */
  predicate Updated(t: Table, t2: Table, ids: seq<BuildId>, w: Values)
  {
    t2.Keys == t.Keys && forall x :: x in t ==> t2[x] == if x in ids then ApplyValues(t[x], w) else t[x]
  }

  /** The table after writing `w` on the builds `ids`. */
  function WriteAll(t: Table, ids: seq<BuildId>, w: Values): (t2: Table)
    ensures Updated(t, t2, ids, w) && SameLinks(t, t2)
  {
    map x | x in t :: if x in ids then ApplyValues(t[x], w) else t[x]
  }

  /** A write that passed the guard leaves no result less severe than before. */
  lemma WriteNeverLowers(t: Table, t2: Table, ids: seq<BuildId>, v: Values, w: Values)
    requires Updated(t, t2, ids, w) && v.localResult != Set(None)
    requires forall i :: 0 <= i < |ids| ==> ids[i] in t
    requires (|ids| == 1 && w == GuardOne(t[ids[0]], v))
          || (|ids| != 1 && w == v && NoneLowered(t, ids, v))
    ensures NotLowered(t, t2)
  {
    forall x | x in t && x in t2 && t[x].localResult.Some?
      ensures t2[x].localResult.Some? && ResultScore(t[x].localResult.value) <= ResultScore(t2[x].localResult.value)
    {
      if x in ids {
        GuardNeverLowers(t[x], v);
        if |ids| == 1 {
          assert x == ids[0];
        } else if v.localResult.Set? {
          KeepsNewResultIffNotLessSevere(t[x].localResult, v.localResult.value.value);
        }
      }
    }
  }

  /** `t2` is `t` once `_kill` has stopped those of the first `i` builds of `ids` that run on `host`. */
  predicate KilledUpTo(t: Table, t2: Table, ids: seq<BuildId>, i: nat, host: String, now: int, result: Option<BuildResult>)
  {
    && i <= |ids| && t2.Keys == t.Keys
    && forall x :: x in t2 ==>
         t2[x] == if x in ids[..i] && t[x].host == Some(host) then AfterKill(t[x], now, result) else t[x]
  }

  /** Killing build `ids[i]` (a single-build write on its own host, nothing elsewhere) extends the kill by one build. */
  lemma KilledStep(t: Table, t1: Table, t2: Table, ids: seq<BuildId>, i: nat, host: String, now: int,
                   result: Option<BuildResult>)
    requires i < |ids| && KilledUpTo(t, t1, ids, i, host, now, result) && ids[i] in t1
    requires t1[ids[i]].host == Some(host) ==>
      Updated(t1, t2, [ids[i]], GuardOne(t1[ids[i]], KillValues(t1[ids[i]], now, result)))
    requires t1[ids[i]].host != Some(host) ==> t2 == t1
    ensures KilledUpTo(t, t2, ids, i + 1, host, now, result)
  {
    forall x | x in t2
      ensures t2[x] == if x in ids[..i + 1] && t[x].host == Some(host) then AfterKill(t[x], now, result) else t[x]
    {
      KilledStepAt(t, t1, t2, ids, i, host, now, result, x);
    }
  }

  lemma KilledStepAt(t: Table, t1: Table, t2: Table, ids: seq<BuildId>, i: nat, host: String, now: int,
                     result: Option<BuildResult>, x: BuildId)
    requires i < |ids| && KilledUpTo(t, t1, ids, i, host, now, result) && ids[i] in t1
    requires t1[ids[i]].host == Some(host) ==>
      Updated(t1, t2, [ids[i]], GuardOne(t1[ids[i]], KillValues(t1[ids[i]], now, result)))
    requires t1[ids[i]].host != Some(host) ==> t2 == t1
    requires x in t2
    ensures t2[x] == if x in ids[..i + 1] && t[x].host == Some(host) then AfterKill(t[x], now, result) else t[x]
  {
    var id := ids[i];
    TakeSnoc(ids, i);
    if x != id {
      assert x !in [id] && t2[x] == t1[x];
      assert x in ids[..i + 1] <==> x in ids[..i];
    } else {
      assert t1[id] == if id in ids[..i] && t[id].host == Some(host) then AfterKill(t[id], now, result) else t[id];
      assert t1[id].host == t[id].host;
      if t1[id].host == Some(host) {
        assert id in [id];
        assert t2[x] == AfterKill(t1[x], now, result);
        if id in ids[..i] {
          KillIsIdempotent(t[id], now, result);
        }
      }
    }
  }

  /** `t2` is `t` with the record of `id` replaced by `b`. */
  predicate OnlyChanged(t: Table, t2: Table, id: BuildId, b: Build)
  {
    t2.Keys == t.Keys && id in t && t2[id] == b && forall x :: x in t && x != id ==> t2[x] == t[x]
  }

  /**
   * The guard of a single-build write: whatever is written (short of
   * clearing the result), the build's result never gets less severe, and all
   * the other values are written as given.
   */
  lemma GuardNeverLowers(b: Build, v: Values)
    requires v.localResult != Set(None)
    ensures var r := ApplyValues(b, GuardOne(b, v));
      && (b.localResult.Some? ==> r.localResult.Some? && ResultScore(b.localResult.value) <= ResultScore(r.localResult.value))
      && r == ApplyValues(b, v).(localResult := r.localResult)
      && (v.localResult.Set? && r.localResult != b.localResult ==> r.localResult == v.localResult.value)
  {
    if v.localResult.Set? {
      KeepsNewResultIffNotLessSevere(b.localResult, v.localResult.value.value);
    }
  }

  // ------------------------------------------------------------------ builds

  /** The store invariant: a tree of builds, references that resolve, fingerprints unique. */
  ghost predicate ValidTables(builds: Table, nextBuild: nat, slots: seq<Slot>, params: seq<ParamsRow>)
  {
    && IsTree(builds, nextBuild)
    && (forall x :: x in builds ==> builds[x].params < |params|)
    && (forall i :: 0 <= i < |slots| ==> slots[i].params < |params| && (slots[i].build.Some? ==> slots[i].build.value in builds))
    && (forall i, j :: 0 <= i < j < |params| ==> params[i].fingerprint != params[j].fingerprint)
  }

  lemma SameLinksKeepValid(t: Table, t2: Table, nextBuild: nat, slots: seq<Slot>, params: seq<ParamsRow>)
    requires ValidTables(t, nextBuild, slots, params) && SameLinks(t, t2)
    ensures ValidTables(t2, nextBuild, slots, params)
  {
    SameLinksKeepTree(t, t2, nextBuild);
  }

  /** The values `_kill` writes. */
  function KillValues(b: Build, now: int, result: Option<BuildResult>): Values
  {
    NoValues.(localState := Set(Done), requestedAction := Set(None), activeStep := Set(None),
              jobEnd := Set(Some(now)),
              buildEnd := if b.buildEnd.None? then Set(Some(now)) else Keep,
              localResult := if result.Some? then Set(result) else Keep)
  }

  /** A build after `_kill(result)` on its own host. */
  function AfterKill(b: Build, now: int, result: Option<BuildResult>): (k: Build)
    ensures k.localState == Done && k.requestedAction.None? && k.activeStep.None? && k.jobEnd == Some(now)
    ensures k.host == b.host
    ensures k.buildEnd == if b.buildEnd.None? then Some(now) else b.buildEnd
    ensures k.localResult == if result.Some? && KeepsNewResult(b.localResult, result.value) then result else b.localResult
    ensures k == b.(localState := k.localState, requestedAction := k.requestedAction, activeStep := k.activeStep,
                    jobEnd := k.jobEnd, buildEnd := k.buildEnd, localResult := k.localResult)
  {
    ApplyValues(b, GuardOne(b, KillValues(b, now, result)))
  }

  /** Killing twice at the same instant is killing once. */
  lemma KillIsIdempotent(b: Build, now: int, result: Option<BuildResult>)
    ensures AfterKill(AfterKill(b, now, result), now, result) == AfterKill(b, now, result)
  {
    if result.Some? {
      var k := AfterKill(b, now, result);
      KeepsNewResultIffNotLessSevere(k.localResult, result.value);
      KeepsNewResultIffNotLessSevere(b.localResult, result.value);
    }
  }

  /** Killing never makes a result less severe, and a build without result killed with one gets it. */
  lemma KillNeverLowers(b: Build, now: int, result: Option<BuildResult>)
    ensures b.localResult.Some? ==>
      AfterKill(b, now, result).localResult.Some?
      && ResultScore(b.localResult.value) <= ResultScore(AfterKill(b, now, result).localResult.value)
    ensures b.localResult.None? ==> AfterKill(b, now, result).localResult == result
  {
    if result.Some? {
      KeepsNewResultIffNotLessSevere(b.localResult, result.value);
    }
  }

  /** The values `_skip` writes. */
  const SkipValues: Values := NoValues.(localState := Set(Done), localResult := Set(Some(Skipped)))

  /** What `_ask_kill` does to one build, before recursing into its children. */
  function AskKillOne(b: Build): Build
  {
    if b.localState == Pending then ApplyValues(b, GuardOne(b, SkipValues))
    else if b.localState == Testing || b.localState == Running then b.(requestedAction := Some(Deathrow))
    else b
  }

  lemma AskKillOneKeepsLinks(b: Build)
    ensures AskKillOne(b).parent == b.parent && AskKillOne(b).params == b.params
  {
  }

  /** `t2` is `t` after `_ask_kill` on `id`: every build of the subtree, orphans included, is asked to die. */
  predicate AskKilled(t: Table, t2: Table, bound: nat, id: BuildId)
  {
    IsTree(t, bound) && t2.Keys == t.Keys
    && forall x :: x in t ==> t2[x] == if AncestorOrSelf(t, bound, id, x) then AskKillOne(t[x]) else t[x]
  }

  /**
   * After `_ask_kill`, no build of the subtree is still pending, and every
   * testing or running one is on deathrow.
   */
  lemma AskKilledSubtree(t: Table, t2: Table, bound: nat, id: BuildId, x: BuildId)
    requires AskKilled(t, t2, bound, id) && x in t && AncestorOrSelf(t, bound, id, x)
    ensures t2[x].localState != Pending
    ensures t[x].localState == Pending ==>
      t2[x].localState == Done
      && t2[x].localResult == (if KeepsNewResult(t[x].localResult, Skipped) then Some(Skipped) else t[x].localResult)
    ensures t[x].localState in {Testing, Running} ==> t2[x].requestedAction == Some(Deathrow) && t2[x].localState == t[x].localState
    ensures t[x].localState in {Waiting, Done} ==> t2[x] == t[x]
  {
    assert t2[x] == AskKillOne(t[x]);
    AskKillOneEffect(t[x]);
  }

  /** What `_ask_kill` does to one build, by state. */
  lemma AskKillOneEffect(b: Build)
    ensures AskKillOne(b).localState != Pending
    ensures b.localState == Pending ==>
      AskKillOne(b).localState == Done
      && AskKillOne(b).localResult == (if KeepsNewResult(b.localResult, Skipped) then Some(Skipped) else b.localResult)
    ensures b.localState in {Testing, Running} ==>
      AskKillOne(b).requestedAction == Some(Deathrow) && AskKillOne(b).localState == b.localState
    ensures b.localState in {Waiting, Done} ==> AskKillOne(b) == b
  {
  }

  /** The record `_rebuild` creates from `b`. */
  function RebuildOf(b: Build, now: int): (r: Build)
    ensures r.params == b.params && r.parent == b.parent && r.buildType == Rebuild
    ensures r.localState == Pending && r.localResult.None? && r.requestedAction.None? && !r.orphanResult
    ensures r.keepHost == b.keepHost && r.host == (if b.keepHost then b.host else None)
    ensures r.description == (if b.parent.Some? then b.description else None)
  {
    Build(b.params, b.parent, false, Pending, None, None, None, None,
          if b.keepHost then b.host else None, b.keepHost, false, 0, now,
          None, None, None, None, None, 0, 100, Rebuild,
          if b.parent.Some? then b.description else None)
  }

  /** A rebuilt child stops counting for its parent. */
  function Orphaned(t: Table, id: BuildId): Table
    requires id in t
  {
    if t[id].parent.Some? then t[id := t[id].(orphanResult := true)] else t
  }

  /** Ports of builds of `host` that are neither pending nor done. */
  function UsedPorts(t: Table, host: String): set<int>
  {
    set x | x in t && t[x].localState != Pending && t[x].localState != Done && t[x].host == Some(host) :: t[x].port
  }

  /** `x` gets its `build_end` stamped by `update_build_end` on `id`: `id`, then up while the parent is running or done. */
  predicate InEndChain(t: Table, bound: nat, id: BuildId, x: BuildId)
    requires IsTree(t, bound) && id in t
    decreases id
  {
    x == id
    || (t[id].parent.Some? && t[t[id].parent.value].localState in {Running, Done}
        && InEndChain(t, bound, t[id].parent.value, x))
  }

  lemma {:induction false} EndChainIsAbove(t: Table, bound: nat, id: BuildId, x: BuildId)
    requires IsTree(t, bound) && id in t && InEndChain(t, bound, id, x)
    ensures x <= id && x in t
    decreases id
  {
    if x != id {
      EndChainIsAbove(t, bound, t[id].parent.value, x);
    }
  }

  /** The chain only reads parent links and local states. */
  lemma {:induction false} EndChainSameStates(t: Table, t2: Table, bound: nat, id: BuildId, x: BuildId)
    requires IsTree(t, bound) && SameLinks(t, t2) && id in t
    requires forall y :: y in t ==> t2[y].localState == t[y].localState
    ensures IsTree(t2, bound)
    ensures InEndChain(t2, bound, id, x) == InEndChain(t, bound, id, x)
    decreases id
  {
    SameLinksKeepTree(t, t2, bound);
    if x != id && t[id].parent.Some? {
      EndChainSameStates(t, t2, bound, t[id].parent.value, x);
    }
  }

  /** Stamping `id` and then the chain above its running or done parent `p` stamps the chain of `id`. */
  lemma EndChainThroughParent(t: Table, mid: Table, after: Table, bound: nat, id: BuildId, p: BuildId, now: int)
    requires IsTree(t, bound) && id in t && t[id].parent == Some(p)
    requires mid == t[id := t[id].(buildEnd := Some(now))] && mid[p].localState in {Running, Done}
    requires after.Keys == mid.Keys
    requires forall x :: x in after ==>
      after[x] == if InEndChain(mid, bound, p, x) then mid[x].(buildEnd := Some(now)) else mid[x]
    ensures forall x :: x in after ==>
      after[x] == if InEndChain(t, bound, id, x) then t[x].(buildEnd := Some(now)) else t[x]
  {
    forall x | x in after
      ensures after[x] == if InEndChain(t, bound, id, x) then t[x].(buildEnd := Some(now)) else t[x]
    {
      EndChainThroughParentAt(t, mid, bound, id, p, now, x);
    }
  }

  /** Stamping the end chain of `id` changes `build_end` only, and stamps `id` itself. */
  lemma EndChainStampsEnds(t: Table, after: Table, bound: nat, id: BuildId, now: int)
    requires IsTree(t, bound) && id in t && after.Keys == t.Keys
    requires forall x :: x in after ==>
      after[x] == if InEndChain(t, bound, id, x) then t[x].(buildEnd := Some(now)) else t[x]
    ensures OnlyEndsChanged(t, after, id) && after[id] == t[id].(buildEnd := Some(now))
  {
    assert InEndChain(t, bound, id, id);
    forall x | x in t && x != id
      ensures after[x] == t[x].(buildEnd := after[x].buildEnd)
    {
      if InEndChain(t, bound, id, x) {
        assert after[x] == t[x].(buildEnd := Some(now));
      } else {
        assert after[x] == t[x];
      }
    }
  }

  lemma EndChainThroughParentAt(t: Table, mid: Table, bound: nat, id: BuildId, p: BuildId, now: int, x: BuildId)
    requires IsTree(t, bound) && id in t && t[id].parent == Some(p)
    requires mid == t[id := t[id].(buildEnd := Some(now))] && mid[p].localState in {Running, Done}
    requires x in t
    ensures InEndChain(t, bound, id, x) == (x == id || InEndChain(mid, bound, p, x))
    ensures InEndChain(mid, bound, p, x) ==> x < id
  {
    assert SameLinks(t, mid);
    assert p < id && t[p].localState == mid[p].localState;
    EndChainSameStates(t, mid, bound, p, x);
    if InEndChain(t, bound, p, x) {
      EndChainIsAbove(t, bound, p, x);
    }
  }

  /** What the environment tells one scheduler pass about a build's current step. */
  datatype StepEnv = StepEnv(
    steps: seq<Step>,             // the config's steps
    domainHolds: nat -> bool,     // whether the build passes a step's domain filter
    ignoreTriggered: bool,        // the active step ignores `triggered_result`
    isDockerStep: bool,           // the active step runs a container
    cpuLimit: int,                // the active step's cpu limit
    docker: DockerState,          // the state of the step's container
    stepResult: Option<BuildResult>, // `local_result` in the step's results, if any
    resultsRaise: bool,           // computing the results raised
    runOk: bool)                  // starting the next step did not raise

  /** Every slot points at a params row below `n`. */
  predicate ParamsBelow(slots: seq<Slot>, n: nat)
  {
    forall i :: 0 <= i < |slots| ==> slots[i].params < n
  }

  lemma {:induction false} RebuildCopiesParams(slots: seq<Slot>, id: BuildId, newId: BuildId, n: nat)
    requires ParamsBelow(slots, n)
    ensures ParamsBelow(RebuildCopies(slots, id, newId), n)
  {
    if slots != [] {
      RebuildCopiesParams(slots[..|slots| - 1], id, newId, n);
    }
  }

  lemma NotLoweredTrans(t1: Table, t2: Table, t3: Table)
    requires t2.Keys == t1.Keys && NotLowered(t1, t2) && NotLowered(t2, t3)
    ensures NotLowered(t1, t3)
  {
  }

  /** What `_ask_kill` on `id` has made of build `x` once the children of `id` below `k` are handled. */
  function AskKillExpected(t: Table, bound: nat, id: BuildId, k: nat, x: BuildId): Build
    requires IsTree(t, bound) && x in t
  {
    if x == id || (AncestorOrSelf(t, bound, id, x) && x != id && BranchOf(t, bound, id, x) < k)
    then AskKillOne(t[x]) else t[x]
  }

  /** `cur` is `t` after `_ask_kill` on `id` has handled the build itself and its children below `k`. */
  predicate AskKilledBelow(t: Table, cur: Table, bound: nat, id: BuildId, k: nat)
  {
    IsTree(t, bound) && id in t && SameLinks(t, cur)
    && forall x :: x in t ==> cur[x] == AskKillExpected(t, bound, id, k, x)
  }

  lemma AskKillChildStep(t: Table, before: Table, after: Table, bound: nat, id: BuildId, k: BuildId)
    requires AskKilledBelow(t, before, bound, id, k) && k in t && t[k].parent == Some(id)
    requires AskKilled(before, after, bound, k)
    ensures AskKilledBelow(t, after, bound, id, k + 1)
  {
    forall x | x in t
      ensures after[x] == AskKillExpected(t, bound, id, k + 1, x)
      ensures after[x].parent == t[x].parent && after[x].params == t[x].params
    {
      AskKillChildStepAt(t, before, after, bound, id, k, x);
    }
  }

  lemma AskKillChildStepAt(t: Table, before: Table, after: Table, bound: nat, id: BuildId, k: BuildId, x: BuildId)
    requires AskKilledBelow(t, before, bound, id, k) && k in t && t[k].parent == Some(id)
    requires AskKilled(before, after, bound, k) && x in t
    ensures after[x].parent == t[x].parent && after[x].params == t[x].params
    ensures after[x] == AskKillExpected(t, bound, id, k + 1, x)
  {
    AncestorSameLinks(t, before, bound, k, x);
    var below := x == id || (AncestorOrSelf(t, bound, id, x) && x != id && BranchOf(t, bound, id, x) < k);
    assert before[x] == if below then AskKillOne(t[x]) else t[x];
    AskKillOneKeepsLinks(t[x]);
    AskKillOneKeepsLinks(before[x]);
    if AncestorOrSelf(t, bound, k, x) {
      BranchUnique(t, bound, id, k, x);
      AncestorIsOlder(t, bound, k, x);
      assert !below;
      assert after[x] == AskKillOne(before[x]);
    } else {
      assert after[x] == before[x];
      if AncestorOrSelf(t, bound, id, x) && x != id {
        assert BranchOf(t, bound, id, x) != k;
      }
    }
  }

  lemma AskKillStart(t: Table, cur: Table, bound: nat, id: BuildId)
    requires IsTree(t, bound) && id in t && OnlyChanged(t, cur, id, AskKillOne(t[id]))
    ensures AskKilledBelow(t, cur, bound, id, id + 1)
  {
    AskKillOneKeepsLinks(t[id]);
    assert SameLinks(t, cur);
    forall x | x in t
      ensures cur[x] == AskKillExpected(t, bound, id, id + 1, x)
    {
      if x != id && AncestorOrSelf(t, bound, id, x) {
        var c := BranchOf(t, bound, id, x);
        assert t[c].parent == Some(id);
      }
    }
  }

  lemma AskKillOtherStep(t: Table, cur: Table, bound: nat, id: BuildId, k: nat)
    requires AskKilledBelow(t, cur, bound, id, k) && !(k in t && t[k].parent == Some(id))
    ensures AskKilledBelow(t, cur, bound, id, k + 1)
  {
    forall x | x in t
      ensures AskKillExpected(t, bound, id, k + 1, x) == AskKillExpected(t, bound, id, k, x)
    {
    }
  }

  lemma AskKillDone(t: Table, cur: Table, bound: nat, id: BuildId)
    requires AskKilledBelow(t, cur, bound, id, bound)
    ensures AskKilled(t, cur, bound, id)
  {
    forall x | x in t
      ensures AskKillExpected(t, bound, id, bound, x) == if AncestorOrSelf(t, bound, id, x) then AskKillOne(t[x]) else t[x]
    {
    }
  }

  /**
   * What `_process_requested_actions` leaves of a build `b0` as `b1`: the
   * request is gone unless it is a deathrow for another host (then nothing
   * changed), a woken build is running or done, a killed one is done, and a
   * build without request is untouched.
   */
  predicate Settled(host: String, b0: Build, b1: Build)
  {
    && (b1.requestedAction.None? || (b0.requestedAction == Some(Deathrow) && b0.host != Some(host) && b1 == b0))
    && (b0.requestedAction == Some(WakeUp) ==> b1.localState in {Running, Done})
    && (b0.requestedAction == Some(Deathrow) && b0.host == Some(host) ==> b1.localState == Done)
    && (b0.requestedAction.None? ==> b1 == b0)
  }

  /** Processing a build twice settles it no differently than once. */
  lemma SettledTrans(host: String, b0: Build, b1: Build, b2: Build)
    requires Settled(host, b0, b1) && Settled(host, b1, b2)
    ensures Settled(host, b0, b2)
  {
  }

  /** Processing `ids[i]` after `ids[..i]`: the builds processed so far are settled, the others untouched. */
  lemma SettledStep(host: String, t: Table, before: Table, after: Table, ids: seq<BuildId>, i: nat)
    requires i < |ids| && before.Keys == t.Keys && after.Keys == before.Keys
    requires forall x :: x in before && x !in ids[..i] ==> before[x] == t[x]
    requires forall x :: x in before && x in ids[..i] ==> Settled(host, t[x], before[x])
    requires ids[i] in before
    requires forall x :: x in after && x != ids[i] ==> after[x] == before[x]
    requires Settled(host, before[ids[i]], after[ids[i]])
    ensures forall x :: x in after && x !in ids[..i + 1] ==> after[x] == t[x]
    ensures forall x :: x in after && x in ids[..i + 1] ==> Settled(host, t[x], after[x])
  {
    assert ids[..i + 1] == ids[..i] + [ids[i]];
    var id := ids[i];
    if id in ids[..i] {
      SettledTrans(host, t[id], before[id], after[id]);
    }
  }

  /** Apart from `id`, builds of `t2` differ from those of `t` at most in `build_end`. */
  predicate OnlyEndsChanged(t: Table, t2: Table, id: BuildId)
  {
    t2.Keys == t.Keys && forall x :: x in t && x != id ==> t2[x] == t[x].(buildEnd := t2[x].buildEnd)
  }

  lemma OnlyChangedEnds(t: Table, t2: Table, id: BuildId, b: Build)
    requires OnlyChanged(t, t2, id, b)
    ensures OnlyEndsChanged(t, t2, id)
  {
  }

  lemma OnlyEndsTrans(t1: Table, t2: Table, t3: Table, id: BuildId)
    requires OnlyEndsChanged(t1, t2, id) && OnlyEndsChanged(t2, t3, id)
    ensures OnlyEndsChanged(t1, t3, id)
  {
  }

  /**
   * The values written when a job closes: its end, no docker start, the next
   * step and state, and the result the step computation chose, else the
   * step's own result.
   */
  function CloseValues(nv: JobValues, stepResult: Option<BuildResult>, now: int): (v: Values)
    ensures v.localResult != Set(None) && v.buildEnd.Keep? && v.localState == Set(nv.localState)
  {
    NoValues.(jobEnd := Set(Some(now)), dockerStart := Set(None), activeStep := Set(nv.activeStep),
              localState := Set(nv.localState),
              localResult := if nv.localResult.Some? then Set(nv.localResult)
                             else if stepResult.Some? then Set(stepResult) else Keep)
  }

  /** A strictly smaller finite set has fewer elements. */
  lemma StrictSubsetSmaller(a: set<int>, b: set<int>)
    requires a < b
    ensures |a| < |b|
  {
    var c := b - a;
    assert b == a + c && a * c == {};
    assert c != {};
  }

  class BuildStore {
    var builds: Table
    var nextBuild: nat
    var slots: seq<Slot>
    var params: seq<ParamsRow>
    /** `fqdn()` of this host. */
    const host: String
    /** `runbot.runbot_starting_port`. */
    const startingPort: int

    ghost predicate Valid()
      reads this
    {
      ValidTables(builds, nextBuild, slots, params)
    }

    constructor (host: String, startingPort: int)
      ensures Valid() && this.host == host && this.startingPort == startingPort
      ensures builds == map[] && nextBuild == 0 && slots == [] && params == []
    {
      this.host := host;
      this.startingPort := startingPort;
      builds := map[];
      nextBuild := 0;
      slots := [];
      params := [];
    }

    /** `_find_existing`: the first params row with fingerprint `fp`, if any. */
    method FindParams(fp: Fingerprint) returns (found: Option<nat>)
      ensures found.Some? ==> found.value < |params| && params[found.value].fingerprint == fp
      ensures found.Some? ==> forall j :: 0 <= j < found.value ==> params[j].fingerprint != fp
      ensures found.None? <==> forall j :: 0 <= j < |params| ==> params[j].fingerprint != fp
    {
      var i := 0;
      while i < |params|
        invariant 0 <= i <= |params|
        invariant forall j :: 0 <= j < i ==> params[j].fingerprint != fp
      {
        if params[i].fingerprint == fp {
          return Some(i);
        }
        i := i + 1;
      }
      return None;
    }

    /** `BuildParameters.create`: lookup-or-insert by fingerprint. */
    method CreateParams(p: Params, batchDependent: bool) returns (id: nat)
      requires Valid()
      modifies this
      ensures Valid() && builds == old(builds) && nextBuild == old(nextBuild) && slots == old(slots)
      ensures id < |params| && params[id].fingerprint == FingerprintOf(p, batchDependent)
      ensures (exists j :: 0 <= j < |old(params)| && old(params)[j].fingerprint == FingerprintOf(p, batchDependent))
              ==> params == old(params)
      ensures (forall j :: 0 <= j < |old(params)| ==> old(params)[j].fingerprint != FingerprintOf(p, batchDependent))
              ==> params == old(params) + [ParamsRow(p, FingerprintOf(p, batchDependent))] && id == |old(params)|
    {
      var fp := FingerprintOf(p, batchDependent);
      var found := FindParams(fp);
      if found.Some? {
        return found.value;
      }
      params := params + [ParamsRow(p, fp)];
      id := |params| - 1;
    }

    /** `BuildParameters.write`: params are immutable, every write is refused. */
    method WriteParams(id: nat, p: Params) returns (r: Result<(), String>)
      ensures r.Failure?
    {
      return Failure("Params cannot be modified");
    }

    /**
     * `write` on builds `ids`: a truthy `local_result` less severe than a
     * build's current one is dropped when writing one build and refuses the
     * whole write when writing several; everything else is written as given.
     */
    method Write(ids: seq<BuildId>, v: Values) returns (ok: bool)
      requires Valid() && forall i :: 0 <= i < |ids| ==> ids[i] in builds
      modifies this
      ensures Valid() && nextBuild == old(nextBuild) && slots == old(slots) && params == old(params)
      ensures ok <==> (|ids| <= 1 || NoneLowered(old(builds), ids, v))
      ensures !ok ==> builds == old(builds)
      ensures ok && |ids| == 1 ==> Updated(old(builds), builds, ids, GuardOne(old(builds)[ids[0]], v))
      ensures ok && |ids| != 1 ==> Updated(old(builds), builds, ids, v)
      ensures v.localResult != Set(None) ==> NotLowered(old(builds), builds)
    {
      var pass, pop := WriteGuard(ids, v);
      if !pass {
        return false;
      }
      var w := if pop then v.(localResult := Keep) else v;
      ghost var t := builds;
      builds := WriteAll(builds, ids, w);
      SameLinksKeepValid(t, builds, nextBuild, slots, params);
      if v.localResult != Set(None) {
        WriteNeverLowers(t, builds, ids, v, w);
      }
      ok := true;
    }

    /**
     * The guard loop of `write`: a lowering `local_result` fails a write of
     * several builds, and is to be dropped from a write of a single one.
     */
    method WriteGuard(ids: seq<BuildId>, v: Values) returns (pass: bool, pop: bool)
      requires forall i :: 0 <= i < |ids| ==> ids[i] in builds
      ensures pass <==> (|ids| <= 1 || NoneLowered(builds, ids, v))
      ensures pop <==> (|ids| == 1 && Lowers(builds[ids[0]], v))
    {
      pass, pop := true, false;
      if |ids| == 1 {
        // the loop's single iteration, where a lowering result is dropped
        pop := Lowers(builds[ids[0]], v);
        return;
      }
      var i := 0;
      while i < |ids|
        invariant 0 <= i <= |ids|
        invariant forall j :: 0 <= j < i ==> !Lowers(builds[ids[j]], v)
      {
        if Lowers(builds[ids[i]], v) {
          return false, false;
        }
        i := i + 1;
      }
    }

    /** `write` on a single build: a lowering `local_result` is dropped, the rest is written. */
    method WriteOne(id: BuildId, v: Values)
      requires Valid() && id in builds
      modifies this
      ensures Valid() && nextBuild == old(nextBuild) && slots == old(slots) && params == old(params)
      ensures OnlyChanged(old(builds), builds, id, ApplyValues(old(builds)[id], GuardOne(old(builds)[id], v)))
      ensures v.localResult != Set(None) ==> NotLowered(old(builds), builds)
    {
      var _ := Write([id], v);
    }

    /** `_kill(result)` on a single build. */
    method KillOne(id: BuildId, now: int, result: Option<BuildResult>)
      requires Valid() && id in builds
      modifies this
      ensures Valid() && nextBuild == old(nextBuild) && slots == old(slots) && params == old(params)
      ensures OnlyChanged(old(builds), builds, id,
                          if old(builds)[id].host == Some(host) then AfterKill(old(builds)[id], now, result) else old(builds)[id])
      ensures NotLowered(old(builds), builds)
    {
      Kill([id], now, result);
    }

    /** `_kill(result)`: builds of this host are stopped; builds of other hosts are left alone. */
    method Kill(ids: seq<BuildId>, now: int, result: Option<BuildResult>)
      requires Valid() && forall i :: 0 <= i < |ids| ==> ids[i] in builds
      modifies this
      ensures Valid() && nextBuild == old(nextBuild) && slots == old(slots) && params == old(params)
      ensures builds.Keys == old(builds).Keys
      ensures forall x :: x in builds ==>
        builds[x] == if x in ids && old(builds)[x].host == Some(host) then AfterKill(old(builds)[x], now, result) else old(builds)[x]
      ensures NotLowered(old(builds), builds)
    {
      ghost var t := builds;
      var i := 0;
      while i < |ids|
        invariant 0 <= i <= |ids|
        invariant Valid() && nextBuild == old(nextBuild) && slots == old(slots) && params == old(params)
        invariant KilledUpTo(t, builds, ids, i, host, now, result)
      {
        var id := ids[i];
        ghost var before := builds;
        if builds[id].host == Some(host) {
          var b := builds[id];
          var ok := Write([id], KillValues(b, now, result));
        }
        KilledStep(t, before, builds, ids, i, host, now, result);
        i := i + 1;
      }
      assert ids[..i] == ids;
      forall x | x in t && t[x].localResult.Some?
        ensures builds[x].localResult.Some? && ResultScore(t[x].localResult.value) <= ResultScore(builds[x].localResult.value)
      {
        KillNeverLowers(t[x], now, result);
      }
    }
      /**
     * `_ask_kill`: a pending build is skipped, a testing or running one is put
     * on deathrow, and every child, orphan or not, is asked to die as well.
     */
    method AskKill(id: BuildId)
      requires Valid() && id in builds
      modifies this
      ensures Valid() && nextBuild == old(nextBuild) && slots == old(slots) && params == old(params)
      ensures AskKilled(old(builds), builds, nextBuild, id)
      ensures NotLowered(old(builds), builds)
      decreases nextBuild - id, 1
    {
      ghost var t := builds;
      AskKillSelf(id);
      AskKillStart(t, builds, nextBuild, id);
      var k := id + 1;
      while k < nextBuild
        invariant id < k <= nextBuild
        invariant Valid() && nextBuild == old(nextBuild) && slots == old(slots) && params == old(params)
        invariant AskKilledBelow(t, builds, nextBuild, id, k) && NotLowered(t, builds)
        decreases nextBuild - k
      {
        AskKillChild(t, id, k);
        k := k + 1;
      }
      AskKillDone(t, builds, nextBuild, id);
    }

    /** The part of `_ask_kill` on the build itself: skip it when pending, deathrow when testing or running. */
    method AskKillSelf(id: BuildId)
      requires Valid() && id in builds
      modifies this
      ensures Valid() && nextBuild == old(nextBuild) && slots == old(slots) && params == old(params)
      ensures OnlyChanged(old(builds), builds, id, AskKillOne(old(builds)[id])) && NotLowered(old(builds), builds)
    {
      ghost var t := builds;
      var b := builds[id];
      if b.localState == Pending {
        var _ := Write([id], SkipValues);
      } else if b.localState == Testing || b.localState == Running {
        builds := builds[id := b.(requestedAction := Some(Deathrow))];
        assert SameLinks(t, builds);
        SameLinksKeepValid(t, builds, nextBuild, slots, params);
      }
    }

    /** One turn of the loop over the children of `id` in `_ask_kill`: recurse when `k` is a child. */
    method AskKillChild(ghost t: Table, id: BuildId, k: BuildId)
      requires Valid() && id < k < nextBuild && AskKilledBelow(t, builds, nextBuild, id, k) && NotLowered(t, builds)
      modifies this
      ensures Valid() && nextBuild == old(nextBuild) && slots == old(slots) && params == old(params)
      ensures AskKilledBelow(t, builds, nextBuild, id, k + 1) && NotLowered(t, builds)
      decreases nextBuild - id, 0
    {
      if k in builds && builds[k].parent == Some(id) {
        ghost var before := builds;
        AskKill(k);
        AskKillChildStep(t, before, builds, nextBuild, id, k);
        NotLoweredTrans(t, before, builds);
      } else {
        AskKillOtherStep(t, builds, nextBuild, id, k);
      }
    }

    /** `update_build_end`: stamp `build_end`, then go up while the parent is running or done. */
    method UpdateBuildEnd(id: BuildId, now: int)
      requires Valid() && id in builds
      modifies this
      ensures Valid() && nextBuild == old(nextBuild) && slots == old(slots) && params == old(params)
      ensures builds.Keys == old(builds).Keys
      ensures forall x :: x in builds ==>
        builds[x] == if InEndChain(old(builds), nextBuild, id, x) then old(builds)[x].(buildEnd := Some(now)) else old(builds)[x]
      ensures OnlyEndsChanged(old(builds), builds, id) && builds[id] == old(builds)[id].(buildEnd := Some(now))
      decreases id
    {
      ghost var t := builds;
      builds := builds[id := builds[id].(buildEnd := Some(now))];
      assert SameLinks(t, builds);
      SameLinksKeepValid(t, builds, nextBuild, slots, params);
      var p := builds[id].parent;
      if p.Some? && (builds[p.value].localState == Running || builds[p.value].localState == Done) {
        ghost var mid := builds;
        UpdateBuildEnd(p.value, now);
        EndChainThroughParent(t, mid, builds, nextBuild, id, p.value, now);
        EndChainStampsEnds(t, builds, nextBuild, id, now);
      }
    }

    /** `_find_port`: the first port from the starting port, in steps of 3, not used by a live build of this host. */
    method FindPort() returns (port: int)
      ensures port !in UsedPorts(builds, host)
      ensures port >= startingPort && (port - startingPort) % 3 == 0
      ensures forall q :: startingPort <= q < port && (q - startingPort) % 3 == 0 ==> q in UsedPorts(builds, host)
    {
      var used := UsedPorts(builds, host);
      port := startingPort;
      while port in used
        invariant port >= startingPort && (port - startingPort) % 3 == 0
        invariant forall q :: startingPort <= q < port && (q - startingPort) % 3 == 0 ==> q in used
        decreases |set q | q in used && q >= port|
      {
        ghost var above := set q | q in used && q >= port;
        port := port + 3;
        ghost var rest := set q | q in used && q >= port;
        assert rest <= above && port - 3 in above - rest;
        StrictSubsetSmaller(rest, above);
      }
    }

    /** `_wake_up`: only a done build can be asked to wake up. */
    method AskWakeUp(id: BuildId) returns (requested: bool)
      requires Valid() && id in builds
      modifies this
      ensures Valid() && nextBuild == old(nextBuild) && slots == old(slots) && params == old(params)
      ensures requested <==> old(builds)[id].localState == Done
      ensures OnlyChanged(old(builds), builds, id,
                          if requested then old(builds)[id].(requestedAction := Some(WakeUp)) else old(builds)[id])
    {
      ghost var t := builds;
      requested := builds[id].localState == Done;
      if requested {
        builds := builds[id := builds[id].(requestedAction := Some(WakeUp))];
        assert SameLinks(t, builds);
        SameLinksKeepValid(t, builds, nextBuild, slots, params);
      }
    }

    /**
     * The deathrow branch of `_process_requested_actions`: kill the build, as
     * 'manually_killed' unless it is running or its global result is already
     * warn or ko.
     */
    method KillRequested(id: BuildId, now: int)
      requires Valid() && id in builds
      modifies this
      ensures Valid() && nextBuild == old(nextBuild) && slots == old(slots) && params == old(params)
      ensures NotLowered(old(builds), builds)
      ensures var b := old(builds)[id];
        var res := if b.localState != Running && GlobalResult(old(builds), nextBuild, id) !in {Some(Warn), Some(Ko)}
                   then Some(ManuallyKilled) else None;
        OnlyChanged(old(builds), builds, id, if b.host == Some(host) then AfterKill(b, now, res) else b)
    {
      var b := builds[id];
      var res: Option<BuildResult> := None;
      if b.localState != Running && GlobalResult(builds, nextBuild, id) !in {Some(Warn), Some(Ko)} {
        res := Some(ManuallyKilled);
      }
      Kill([id], now, res);
    }

    /**
     * The wake-up branch of `_process_requested_actions`: a build whose
     * container still runs is marked running, one whose directory is gone is
     * marked done, any other restarts on a fresh port, and is marked done again
     * when the run step fails. `dockerRunning`, `pathExists` and `runOk` stand
     * for the container, the filesystem and the run step.
     */
    method WakeUpRequested(id: BuildId, now: int, dockerRunning: bool, pathExists: bool, runOk: bool)
      requires Valid() && id in builds
      modifies this
      ensures Valid() && nextBuild == old(nextBuild) && slots == old(slots) && params == old(params)
      ensures NotLowered(old(builds), builds)
      ensures var b := old(builds)[id];
        dockerRunning ==> OnlyChanged(old(builds), builds, id, b.(requestedAction := None, localState := Running))
      ensures var b := old(builds)[id];
        !dockerRunning && !pathExists ==> OnlyChanged(old(builds), builds, id, b.(requestedAction := None, localState := Done))
      ensures var b := old(builds)[id];
        !dockerRunning && pathExists ==>
          && id in builds
          && OnlyChanged(old(builds), builds, id,
                         b.(jobStart := Some(now), jobEnd := None, activeStep := None, requestedAction := None,
                            localState := if runOk then Running else Done, port := builds[id].port))
          && builds[id].port !in UsedPorts(old(builds), host) && builds[id].port >= startingPort
    {
      if dockerRunning {
        var _ := Write([id], NoValues.(requestedAction := Set(None), localState := Set(Running)));
      } else if !pathExists {
        var _ := Write([id], NoValues.(requestedAction := Set(None), localState := Set(Done)));
      } else {
        Restart(id, now, runOk);
      }
    }

    /** The restart of a woken build: a fresh port and job start, then the run step. */
    method Restart(id: BuildId, now: int, runOk: bool)
      requires Valid() && id in builds
      modifies this
      ensures Valid() && nextBuild == old(nextBuild) && slots == old(slots) && params == old(params)
      ensures NotLowered(old(builds), builds)
      ensures id in builds
      ensures OnlyChanged(old(builds), builds, id,
                          old(builds)[id].(jobStart := Some(now), jobEnd := None, activeStep := None, requestedAction := None,
                                           localState := if runOk then Running else Done, port := builds[id].port))
      ensures builds[id].port !in UsedPorts(old(builds), host) && builds[id].port >= startingPort
    {
      var port := FindPort();
      var _ := Write([id], NoValues.(jobStart := Set(Some(now)), jobEnd := Set(None), activeStep := Set(None),
                                     requestedAction := Set(None), localState := Set(Running), port := Set(port)));
      if !runOk {
        ghost var mid := builds;
        var _ := Write([id], NoValues.(requestedAction := Set(None), localState := Set(Done)));
        NotLoweredTrans(old(builds), mid, builds);
      }
    }

    /** `_process_requested_actions` for one build: dispatch on the requested action. */
    method ProcessRequestedAction(id: BuildId, now: int, dockerRunning: bool, pathExists: bool, runOk: bool)
      requires Valid() && id in builds
      modifies this
      ensures Valid() && nextBuild == old(nextBuild) && slots == old(slots) && params == old(params)
      ensures NotLowered(old(builds), builds) && builds.Keys == old(builds).Keys
      ensures forall x :: x in builds && x != id ==> builds[x] == old(builds)[x]
      ensures Settled(host, old(builds)[id], builds[id])
    {
      match builds[id].requestedAction {
        case Some(action) =>
          if action == Deathrow {
            KillRequested(id, now);
          } else {
            WakeUpRequested(id, now, dockerRunning, pathExists, runOk);
          }
        case None =>
      }
    }

    /**
     * `_process_requested_actions` over several builds: afterwards none of
     * them carries a request any more, except a deathrow on a build of
     * another host, which is left untouched; woken builds are running or done
     * and killed ones are done.
     */
    method ProcessRequestedActions(ids: seq<BuildId>, now: int, dockerRunning: BuildId -> bool,
                                   pathExists: BuildId -> bool, runOk: BuildId -> bool)
      requires Valid() && forall i :: 0 <= i < |ids| ==> ids[i] in builds
      modifies this
      ensures Valid() && nextBuild == old(nextBuild) && slots == old(slots) && params == old(params)
      ensures builds.Keys == old(builds).Keys && NotLowered(old(builds), builds)
      ensures forall x :: x in builds && x !in ids ==> builds[x] == old(builds)[x]
      ensures forall x :: x in builds && x in ids ==> Settled(host, old(builds)[x], builds[x])
    {
      ghost var t := builds;
      var i := 0;
      while i < |ids|
        invariant 0 <= i <= |ids|
        invariant Valid() && nextBuild == old(nextBuild) && slots == old(slots) && params == old(params)
        invariant builds.Keys == t.Keys && NotLowered(t, builds)
        invariant forall x :: x in builds && x !in ids[..i] ==> builds[x] == t[x]
        invariant forall x :: x in builds && x in ids[..i] ==> Settled(host, t[x], builds[x])
      {
        var id := ids[i];
        ghost var before := builds;
        ProcessRequestedAction(id, now, dockerRunning(id), pathExists(id), runOk(id));
        NotLoweredTrans(t, before, builds);
        SettledStep(host, t, before, builds, ids, i);
        i := i + 1;
      }
      assert ids[..i] == ids;
    }

    /**
     * `_rebuild`: a new pending build on the same params (same parent and
     * description for a child, same host when it is kept); a rebuilt child
     * becomes an orphan, a build not done yet is asked to die, and the
     * attached slots of a root build move to the new build.
     */
    method Rebuild(id: BuildId, now: int) returns (newId: BuildId)
      requires Valid() && id in builds
      modifies this
      ensures Valid() && params == old(params)
      ensures newId == old(nextBuild) && nextBuild == newId + 1 && newId !in old(builds)
      ensures builds.Keys == old(builds).Keys + {newId}
      ensures builds[newId] == RebuildOf(old(builds)[id], now)
      ensures old(builds)[id].localState == Done ==>
        builds == Orphaned(old(builds), id)[newId := RebuildOf(old(builds)[id], now)]
      ensures old(builds)[id].localState != Done ==>
        AskKilled(Orphaned(old(builds), id)[newId := RebuildOf(old(builds)[id], now)], builds, nextBuild, id)
      ensures old(builds)[id].parent.Some? ==> slots == old(slots)
      ensures old(builds)[id].parent.None? ==> slots == Detached(old(slots), id) + RebuildCopies(old(slots), id, newId)
    {
      var b := builds[id];
      newId := CreateRebuild(id, now);
      ghost var t1 := builds;
      if b.localState != Done {
        AskKill(id);
        if b.parent.Some? && AncestorOrSelf(t1, nextBuild, id, b.parent.value) {
          AncestorIsOlder(t1, nextBuild, id, b.parent.value);
        }
        assert !AncestorOrSelf(t1, nextBuild, id, newId);
      }
      if b.parent.None? {
        MoveSlots(id, newId);
      }
    }

    /** The record-creating part of `_rebuild`: the new build, and the old one orphaned when it is a child. */
    method CreateRebuild(id: BuildId, now: int) returns (newId: BuildId)
      requires Valid() && id in builds
      modifies this
      ensures Valid() && params == old(params) && slots == old(slots)
      ensures newId == old(nextBuild) && nextBuild == newId + 1 && newId !in old(builds)
      ensures builds == Orphaned(old(builds), id)[newId := RebuildOf(old(builds)[id], now)]
    {
      var b := builds[id];
      ghost var t := builds;
      if b.parent.Some? {
        builds := builds[id := b.(orphanResult := true)];
        assert SameLinks(t, builds);
        SameLinksKeepValid(t, builds, nextBuild, slots, params);
      }
      newId := nextBuild;
      builds := builds[newId := RebuildOf(b, now)];
      nextBuild := nextBuild + 1;
    }

    /** The slot part of `_rebuild` on a root build: attached slots are copied onto the new build and detached. */
    method MoveSlots(id: BuildId, newId: BuildId)
      requires Valid() && newId in builds
      modifies this
      ensures Valid() && builds == old(builds) && nextBuild == old(nextBuild) && params == old(params)
      ensures slots == Detached(old(slots), id) + RebuildCopies(old(slots), id, newId)
    {
      var s := slots;
      var det: seq<Slot> := [];
      var copies: seq<Slot> := [];
      var i := 0;
      while i < |s|
        invariant 0 <= i <= |s|
        invariant det == Detached(s[..i], id) && copies == RebuildCopies(s[..i], id, newId)
      {
        assert s[..i + 1][..i] == s[..i];
        if AttachedTo(s[i], id) {
          copies := copies + [s[i].(build := Some(newId), linkType := RebuildLink)];
          det := det + [s[i].(active := false)];
        } else {
          det := det + [s[i]];
        }
        i := i + 1;
      }
      assert s[..i] == s;
      RebuildCopiesParams(s, id, newId, |params|);
      slots := det + copies;
    }

    /**
     * One `_schedule` pass on a testing or running build: fail fast on a
     * triggered result, then leave the step running, kill it on timeout, wait
     * for a container that is not visible yet, or close the step, record its
     * result and move to the next one. `env` stands for the config, the
     * container and the step's own code.
     */
    method Schedule(id: BuildId, now: int, env: StepEnv, runbotTimeout: int) returns (r: Result<Decision, String>)
      requires Valid() && id in builds
      modifies this
      ensures Valid() && nextBuild == old(nextBuild) && slots == old(slots) && params == old(params)
      ensures builds.Keys == old(builds).Keys
      ensures old(builds)[id].localState !in {Testing, Running} ==> r.Failure? && builds == old(builds)
      ensures NotLowered(old(builds), builds)
      ensures OnlyEndsChanged(old(builds), builds, id)
      ensures r == Success(KillTimedOut) && old(builds)[id].host == Some(host) ==>
        builds[id].localState == Done && builds[id].localResult.Some?
      ensures r.Success? && r.value in {KeepWaiting, GraceWait} ==> builds[id].localState == old(builds)[id].localState
      ensures r == Success(CollectResults) && old(builds)[id].localState == Testing && builds[id].localState in {Running, Done} ==>
        builds[id].localResult.Some? && builds[id].buildEnd.Some?
    {
      var b := builds[id];
      if b.localState != Testing && b.localState != Running {
        return Failure("Build is not testing/running");
      }
      ghost var t0 := builds;
      FailFast(id, env.ignoreTriggered);
      ghost var t1 := builds;
      b := builds[id];
      var d := ScheduleDecision(env.docker, b.localState, env.isDockerStep, JobTime(b.jobStart, b.jobEnd, now),
                                env.cpuLimit, runbotTimeout, now, b.dockerStart, b.jobStart);
      OnlyChangedEnds(t0, t1, id, t1[id]);
      if d == KillTimedOut {
        KillOne(id, now, Some(Killed));
        NotLoweredTrans(t0, t1, builds);
        OnlyChangedEnds(t1, builds, id, builds[id]);
        OnlyEndsTrans(t0, t1, builds, id);
        KillNeverLowers(t1[id], now, Some(Killed));
        return Success(d);
      }
      if d == KeepWaiting || d == GraceWait {
        return Success(d);
      }
      if d == NoStartReference {
        return Failure("neither docker_start nor job_start is set");
      }
      CloseStep(id, now, env);
      NotLoweredTrans(t0, t1, builds);
      OnlyEndsTrans(t0, t1, builds, id);
      return Success(d);
    }

    /** The fail-fast part of `_schedule`: a more severe triggered result becomes the build's result. */
    /** Taking a triggered result worse than the local one lowers nothing. */
    static lemma TriggeredResultRaises(b: Build)
      requires b.triggeredResult.Some? && Some(WorstResult([b.triggeredResult, b.localResult], None)) != b.localResult
      ensures !Lowers(b, NoValues.(localResult := Set(b.triggeredResult)))
    {
      ScoresAreTotalOrders(WorstResult([b.triggeredResult, b.localResult], None), b.triggeredResult.value, Pending, Pending);
    }

    method FailFast(id: BuildId, ignoreTriggered: bool)
      requires Valid() && id in builds
      modifies this
      ensures Valid() && nextBuild == old(nextBuild) && slots == old(slots) && params == old(params)
      ensures NotLowered(old(builds), builds)
      ensures var b := old(builds)[id];
        OnlyChanged(old(builds), builds, id,
                    if b.localState == Testing && b.triggeredResult.Some? && !ignoreTriggered
                       && Some(WorstResult([b.triggeredResult, b.localResult], None)) != b.localResult
                    then b.(localResult := b.triggeredResult) else b)
    {
      var b := builds[id];
      if b.localState == Testing && b.triggeredResult.Some? && !ignoreTriggered {
        if Some(WorstResult([b.triggeredResult, b.localResult], None)) != b.localResult {
          var _ := Write([id], NoValues.(localResult := Set(b.triggeredResult)));
          TriggeredResultRaises(b);
        }
      }
    }

    /**
     * The closing part of `_schedule`: end the job, record the step's result
     * (ko when computing it raised), move to the next step, stamp `build_end`
     * and default the result to ok when a testing build ends, then start the
     * next step, killing the build with ko when that raises.
     */
    method CloseStep(id: BuildId, now: int, env: StepEnv)
      requires Valid() && id in builds && builds[id].localState in {Testing, Running}
      modifies this
      ensures Valid() && nextBuild == old(nextBuild) && slots == old(slots) && params == old(params)
      ensures NotLowered(old(builds), builds) && OnlyEndsChanged(old(builds), builds, id)
      ensures old(builds)[id].localState == Testing && builds[id].localState in {Running, Done} ==>
        builds[id].localResult.Some? && builds[id].buildEnd.Some?
    {
      ghost var t0 := builds;
      var b := builds[id];
      var nv := NextJobValues(env.steps, b.activeStep, b.localState, b.localResult, env.domainHolds);
      var v := CloseValues(nv, if env.resultsRaise then Some(Ko) else env.stepResult, now);
      var ending := b.localState == Testing && (nv.localState == Done || nv.localState == Running);
      FinishJob(id, now, v, ending);
      ghost var t1 := builds;
      if builds[id].localState != Done && !env.runOk {
        KillOne(id, now, Some(Ko));
        OnlyChangedEnds(t1, builds, id, builds[id]);
        OnlyEndsTrans(t0, t1, builds, id);
        NotLoweredTrans(t0, t1, builds);
        KillNeverLowers(t1[id], now, Some(Ko));
      }
    }

    /**
     * Writes the job's closing values `v` on build `id`; when the job `ending`
     * a testing build, `build_end` is stamped first and an unset result
     * defaults to ok.
     */
    method FinishJob(id: BuildId, now: int, v: Values, ending: bool)
      requires Valid() && id in builds && v.localResult != Set(None) && v.buildEnd.Keep?
      modifies this
      ensures Valid() && nextBuild == old(nextBuild) && slots == old(slots) && params == old(params)
      ensures NotLowered(old(builds), builds) && OnlyEndsChanged(old(builds), builds, id)
      ensures v.localState.Set? ==> builds[id].localState == v.localState.value
      ensures ending ==> builds[id].localResult.Some? && builds[id].buildEnd.Some?
    {
      ghost var t0 := builds;
      if ending {
        UpdateBuildEnd(id, now);
      }
      ghost var t1 := builds;
      WriteClose(id, v, ending);
      OnlyEndsTrans(t0, t1, builds, id);
      NotLoweredTrans(t0, t1, builds);
    }

    /** The two writes of `FinishJob`: the closing values, then ok for an ending build still without result. */
    method WriteClose(id: BuildId, v: Values, ending: bool)
      requires Valid() && id in builds && v.localResult != Set(None) && v.buildEnd.Keep?
      modifies this
      ensures Valid() && nextBuild == old(nextBuild) && slots == old(slots) && params == old(params)
      ensures NotLowered(old(builds), builds) && OnlyEndsChanged(old(builds), builds, id)
      ensures v.localState.Set? ==> builds[id].localState == v.localState.value
      ensures builds[id].buildEnd == old(builds)[id].buildEnd
      ensures ending ==> builds[id].localResult.Some?
    {
      ghost var t1 := builds;
      WriteOne(id, v);
      OnlyChangedEnds(t1, builds, id, builds[id]);
      ghost var t2 := builds;
      if ending && builds[id].localResult.None? {
        WriteOne(id, NoValues.(localResult := Set(Some(Ok))));
        OnlyChangedEnds(t2, builds, id, builds[id]);
        OnlyEndsTrans(t1, t2, builds, id);
        NotLoweredTrans(t1, t2, builds);
      }
    }

    /** `_skip`: the build is done, with result skipped unless the write guard keeps a more severe one. */
    method Skip(id: BuildId)
      requires Valid() && id in builds
      modifies this
      ensures Valid() && nextBuild == old(nextBuild) && slots == old(slots) && params == old(params)
      ensures OnlyChanged(old(builds), builds, id, ApplyValues(old(builds)[id], GuardOne(old(builds)[id], SkipValues)))
      ensures builds[id].localState == Done
      ensures builds[id].localResult ==
        if KeepsNewResult(old(builds)[id].localResult, Skipped) then Some(Skipped) else old(builds)[id].localResult
    {
      WriteOne(id, SkipValues);
    }

    /** Assigns `killable` on one build. */
    method SetKillable(id: BuildId, killable: bool)
      requires Valid() && id in builds
      modifies this
      ensures Valid() && nextBuild == old(nextBuild) && slots == old(slots) && params == old(params)
      ensures builds == old(builds)[id := old(builds)[id].(killable := killable)]
    {
      ghost var t := builds;
      builds := builds[id := builds[id].(killable := killable)];
      assert SameLinks(t, builds);
      SameLinksKeepValid(t, builds, nextBuild, slots, params);
    }

    /** `search([('params_id', '=', p), ('parent_id', '=', False)], order='id desc', limit=1)`. */
    method FindRootBuild(p: nat) returns (found: Option<BuildId>)
      requires Valid()
      ensures found.Some? ==> found.value in builds && builds[found.value].params == p && builds[found.value].parent.None?
      ensures found.Some? ==> forall x :: x in builds && x > found.value ==> builds[x].params != p || builds[x].parent.Some?
      ensures found.None? <==> forall x :: x in builds ==> builds[x].params != p || builds[x].parent.Some?
    {
      var i := nextBuild;
      while i > 0
        invariant 0 <= i <= nextBuild
        invariant forall x :: x in builds && x >= i ==> builds[x].params != p || builds[x].parent.Some?
      {
        i := i - 1;
        if i in builds && builds[i].params == p && builds[i].parent.None? {
          return Some(i);
        }
      }
      return None;
    }

    /** `create` of a root build: it takes the next id. */
    method CreateBuild(b: Build) returns (id: BuildId)
      requires Valid() && b.parent.None? && b.params < |params|
      modifies this
      ensures Valid() && slots == old(slots) && params == old(params)
      ensures id == old(nextBuild) && id !in old(builds) && nextBuild == id + 1
      ensures builds == old(builds)[id := b]
    {
      id := nextBuild;
      builds := builds[id := b];
      nextBuild := nextBuild + 1;
    }

    /** `runbot.batch.slot` creation. */
    method AddSlot(s: Slot)
      requires Valid() && s.params < |params| && (s.build.Some? ==> s.build.value in builds)
      modifies this
      ensures Valid() && builds == old(builds) && nextBuild == old(nextBuild) && params == old(params)
      ensures slots == old(slots) + [s]
    {
      slots := slots + [s];
    }

    /** Writes slot `i`. */
    method SetSlot(i: nat, s: Slot)
      requires Valid() && i < |slots| && s.params < |params| && (s.build.Some? ==> s.build.value in builds)
      modifies this
      ensures Valid() && builds == old(builds) && nextBuild == old(nextBuild) && params == old(params)
      ensures slots == old(slots)[i := s]
    {
      slots := slots[i := s];
    }
  }
}
