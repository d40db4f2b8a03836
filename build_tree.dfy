// The build table as a parent-linked tree (`parent_id`, `children_ids`) and
// the two stored aggregates computed over it: `global_state` and
// `global_result`. A parent is always created before its children, so a
// parent id is smaller than the ids of its children; the recursion below
// walks children in increasing id order up to `bound`, the next free id.
module BuildTree {
  import opened Wrappers
  import opened Text
  import opened BuildOrder

  type BuildId = nat

  /** `requested_action`. */
  datatype Action = Deathrow | WakeUp

  /** `build_type`. */
  datatype BuildType = Scheduled | Rebuild | Normal | Indirect

  /** One `runbot.build` row (the fields the modelled operations read or write). */
  datatype Build = Build(
    params: nat,
    parent: Option<BuildId>,
    orphanResult: bool,
    localState: BuildState,
    localResult: Option<BuildResult>,
    triggeredResult: Option<BuildResult>,
    requestedAction: Option<Action>,
    activeStep: Option<nat>,
    host: Option<String>,
    keepHost: bool,
    killable: bool,
    port: int,
    createDate: int,
    jobStart: Option<int>,
    jobEnd: Option<int>,
    buildStart: Option<int>,
    buildEnd: Option<int>,
    dockerStart: Option<int>,
    gcDelay: int,
    logCounter: int,
    buildType: BuildType,
    description: Option<String>)

  type Table = map<BuildId, Build>

  /** Every id is below `bound` and every parent exists and is older than its child. */
  predicate IsTree(t: Table, bound: nat)
  {
    forall id {:trigger t[id]} :: id in t ==> id < bound && (t[id].parent.Some? ==> t[id].parent.value in t && t[id].parent.value < id)
  }

  /** `c` is one of the children of `id` that `global_state`/`global_result` look at. */
  predicate CountsAsChild(t: Table, id: BuildId, c: BuildId)
  {
    c in t && t[c].parent == Some(id) && !t[c].orphanResult
  }

  /** `_compute_global_state`. */
  function GlobalState(t: Table, bound: nat, id: BuildId): (s: BuildState)
    requires IsTree(t, bound) && id in t
    ensures s == t[id].localState || s == Waiting
    ensures StateScore(t[id].localState) <= StateScore(Waiting) ==> s == t[id].localState
    decreases bound - id, 1
  {
    var local := t[id].localState;
    var kids := ChildStates(t, bound, id, id + 1);
    if StateScore(local) > StateScore(Waiting) && |kids| > 0 then
      if StateScore(YoungestState(kids)) > StateScore(Waiting) then local else Waiting
    else local
  }

  /** Global states of the counting children of `id` whose ids are at least `k`. */
  function ChildStates(t: Table, bound: nat, id: BuildId, k: nat): seq<BuildState>
    requires IsTree(t, bound) && id in t && id < k
    decreases bound - id, 0, bound - k
  {
    if k >= bound then []
    else (if CountsAsChild(t, id, k) then [GlobalState(t, bound, k)] else []) + ChildStates(t, bound, id, k + 1)
  }

  /**
   * `_compute_global_result`: a local result of ko or worse is reported as is;
   * otherwise the worst counting child result, capped at ko, is combined with
   * the local result. The result is never less severe than the local one and
   * exceeds ko only when the local result does.
   */
  function GlobalResult(t: Table, bound: nat, id: BuildId): (r: Option<BuildResult>)
    requires IsTree(t, bound) && id in t
    ensures t[id].localResult.Some? && ResultScore(t[id].localResult.value) >= ResultScore(Ko) ==> r == t[id].localResult
    ensures t[id].localResult.Some? ==> r.Some? && ResultScore(t[id].localResult.value) <= ResultScore(r.value)
    ensures r.Some? && ResultScore(r.value) > ResultScore(Ko) ==> r == t[id].localResult
    decreases bound - id, 1
  {
    var local := t[id].localResult;
    if local.Some? && ResultScore(local.value) >= ResultScore(Ko) then local
    else
      var kids := ChildResults(t, bound, id, id + 1);
      if |kids| > 0 then
        var childrenResult := WorstResult(kids, Some(Ko));
        Some(if local.Some? then WorstResult([local, Some(childrenResult)], None) else childrenResult)
      else local
  }

  /** Global results of the counting children of `id` whose ids are at least `k`. */
  function ChildResults(t: Table, bound: nat, id: BuildId, k: nat): seq<Option<BuildResult>>
    requires IsTree(t, bound) && id in t && id < k
    decreases bound - id, 0, bound - k
  {
    if k >= bound then []
    else (if CountsAsChild(t, id, k) then [GlobalResult(t, bound, k)] else []) + ChildResults(t, bound, id, k + 1)
  }

  /** `a` is `c` or one of its ancestors. */
  predicate AncestorOrSelf(t: Table, bound: nat, a: BuildId, c: BuildId)
    requires IsTree(t, bound) && c in t
    decreases c
  {
    a == c || (t[c].parent.Some? && AncestorOrSelf(t, bound, a, t[c].parent.value))
  }

  /** `d` is reached from `id` through children that count for the parent. */
  predicate CountingDescendant(t: Table, bound: nat, id: BuildId, d: BuildId)
    requires IsTree(t, bound) && d in t
    decreases d
  {
    d == id || (t[d].parent.Some? && !t[d].orphanResult && CountingDescendant(t, bound, id, t[d].parent.value))
  }

  lemma {:induction false} AncestorIsOlder(t: Table, bound: nat, a: BuildId, c: BuildId)
    requires IsTree(t, bound) && c in t && AncestorOrSelf(t, bound, a, c)
    ensures a <= c
    decreases c
  {
    if a != c {
      AncestorIsOlder(t, bound, a, t[c].parent.value);
    }
  }

  lemma {:induction false} ChildStatesHas(t: Table, bound: nat, id: BuildId, k: nat, c: BuildId)
    requires IsTree(t, bound) && id in t && id < k <= c && CountsAsChild(t, id, c)
    ensures GlobalState(t, bound, c) in ChildStates(t, bound, id, k)
    decreases c - k
  {
    if k < c {
      ChildStatesHas(t, bound, id, k + 1, c);
    }
  }

  lemma {:induction false} ChildStatesFrom(t: Table, bound: nat, id: BuildId, k: nat, i: nat)
    requires IsTree(t, bound) && id in t && id < k && i < |ChildStates(t, bound, id, k)|
    ensures exists c :: k <= c < bound && CountsAsChild(t, id, c) && GlobalState(t, bound, c) == ChildStates(t, bound, id, k)[i]
    decreases bound - k
  {
    if k < bound {
      if CountsAsChild(t, id, k) && i == 0 {
        assert ChildStates(t, bound, id, k)[0] == GlobalState(t, bound, k);
      } else {
        var skip := if CountsAsChild(t, id, k) then 1 else 0;
        assert ChildStates(t, bound, id, k)[i] == ChildStates(t, bound, id, k + 1)[i - skip];
        ChildStatesFrom(t, bound, id, k + 1, i - skip);
      }
    }
  }

  lemma {:induction false} ChildResultsHas(t: Table, bound: nat, id: BuildId, k: nat, c: BuildId)
    requires IsTree(t, bound) && id in t && id < k <= c && CountsAsChild(t, id, c)
    ensures GlobalResult(t, bound, c) in ChildResults(t, bound, id, k)
    decreases c - k
  {
    if k < c {
      ChildResultsHas(t, bound, id, k + 1, c);
    }
  }

  lemma {:induction false} ChildResultsFrom(t: Table, bound: nat, id: BuildId, k: nat, i: nat)
    requires IsTree(t, bound) && id in t && id < k && i < |ChildResults(t, bound, id, k)|
    ensures exists c :: k <= c < bound && CountsAsChild(t, id, c) && GlobalResult(t, bound, c) == ChildResults(t, bound, id, k)[i]
    decreases bound - k
  {
    if k < bound {
      if CountsAsChild(t, id, k) && i == 0 {
        assert ChildResults(t, bound, id, k)[0] == GlobalResult(t, bound, k);
      } else {
        var skip := if CountsAsChild(t, id, k) then 1 else 0;
        assert ChildResults(t, bound, id, k)[i] == ChildResults(t, bound, id, k + 1)[i - skip];
        ChildResultsFrom(t, bound, id, k + 1, i - skip);
      }
    }
  }

  /** `c` counts for `id` and its global result, capped at ko, is `r`. */
  predicate CappedChildResult(t: Table, bound: nat, id: BuildId, c: BuildId, r: BuildResult)
    requires IsTree(t, bound) && id in t
  {
    id < c < bound && CountsAsChild(t, id, c) && GlobalResult(t, bound, c).Some?
    && r == ResultAt(Min(ResultScore(GlobalResult(t, bound, c).value), ResultScore(Ko)))
  }

  /** Below ko, `global_result` unfolds to the combination with the capped worst child result. */
  lemma GlobalResultBelowKo(t: Table, bound: nat, id: BuildId)
    requires IsTree(t, bound) && id in t
    requires t[id].localResult.None? || ResultScore(t[id].localResult.value) < ResultScore(Ko)
    ensures var kids := ChildResults(t, bound, id, id + 1);
      var local := t[id].localResult;
      GlobalResult(t, bound, id)
      == if |kids| == 0 then local
         else if local.Some? then Some(WorstResult([local, Some(WorstResult(kids, Some(Ko)))], None))
         else Some(WorstResult(kids, Some(Ko)))
  {
  }

  /**
   * Below ko, `global_result` is at least as severe as the global result of
   * every counting child, capped at ko.
   */
  lemma GlobalResultCoversChildren(t: Table, bound: nat, id: BuildId, c: BuildId)
    requires IsTree(t, bound) && id in t
    requires t[id].localResult.None? || ResultScore(t[id].localResult.value) < ResultScore(Ko)
    requires id < c < bound && CountsAsChild(t, id, c) && GlobalResult(t, bound, c).Some?
    ensures GlobalResult(t, bound, id).Some?
    ensures Min(ResultScore(GlobalResult(t, bound, c).value), ResultScore(Ko)) <= ResultScore(GlobalResult(t, bound, id).value)
  {
    var local := t[id].localResult;
    var kids := ChildResults(t, bound, id, id + 1);
    GlobalResultBelowKo(t, bound, id);
    ChildResultsHas(t, bound, id, id + 1, c);
    var i :| 0 <= i < |kids| && kids[i] == GlobalResult(t, bound, c);
    var cr := WorstResult(kids, Some(Ko));
    assert Min(ResultScore(kids[i].value), ResultScore(Ko)) <= ResultScore(cr);
    if local.Some? {
      assert [local, Some(cr)][1] == Some(cr);
    }
  }

  /**
   * Below ko, `global_result` is the local result, 'ok', or the global
   * result of some counting child capped at ko.
   */
  lemma GlobalResultComesFromChildren(t: Table, bound: nat, id: BuildId)
    requires IsTree(t, bound) && id in t
    requires t[id].localResult.None? || ResultScore(t[id].localResult.value) < ResultScore(Ko)
    ensures var r := GlobalResult(t, bound, id);
      r == t[id].localResult || r == Some(Ok) || exists c :: CappedChildResult(t, bound, id, c, r.value)
  {
    var local := t[id].localResult;
    var kids := ChildResults(t, bound, id, id + 1);
    var r := GlobalResult(t, bound, id);
    GlobalResultBelowKo(t, bound, id);
    if |kids| > 0 {
      var cr := WorstResult(kids, Some(Ko));
      assert r == local || r == Some(cr) by {
        if local.Some? {
          PairWorstIsOne(local.value, cr);
        }
      }
      if r == Some(cr) && cr != Ok {
        var i := CappedWorstEntry(kids, Ko);
        ChildResultsFrom(t, bound, id, id + 1, i);
        var c :| id + 1 <= c < bound && CountsAsChild(t, id, c) && GlobalResult(t, bound, c) == kids[i];
        assert CappedChildResult(t, bound, id, c, cr);
      }
    }
  }


  /**
   * `global_state` differs from `local_state` exactly when the build is past 'waiting'
   * and some child that counts is at or below 'waiting'; it is then 'waiting'.
   */
  lemma GlobalStateWaitsForChildren(t: Table, bound: nat, id: BuildId)
    requires IsTree(t, bound) && id in t
    ensures GlobalState(t, bound, id) != t[id].localState <==>
      StateScore(t[id].localState) > StateScore(Waiting) &&
      exists c :: id < c < bound && CountsAsChild(t, id, c) && StateScore(GlobalState(t, bound, c)) <= StateScore(Waiting)
  {
    if StateScore(t[id].localState) > StateScore(Waiting) &&
       exists c :: id < c < bound && CountsAsChild(t, id, c) && StateScore(GlobalState(t, bound, c)) <= StateScore(Waiting) {
      var c :| id < c < bound && CountsAsChild(t, id, c) && StateScore(GlobalState(t, bound, c)) <= StateScore(Waiting);
      UnsettledChildHolds(t, bound, id, c);
    }
    if GlobalState(t, bound, id) != t[id].localState {
      var c := HeldByChild(t, bound, id);
    }
  }

  /** A counting child at or below 'waiting' holds a build past 'waiting' at 'waiting'. */
  lemma UnsettledChildHolds(t: Table, bound: nat, id: BuildId, c: BuildId)
    requires IsTree(t, bound) && id in t
    requires id < c < bound && CountsAsChild(t, id, c) && StateScore(GlobalState(t, bound, c)) <= StateScore(Waiting)
    requires StateScore(t[id].localState) > StateScore(Waiting)
    ensures GlobalState(t, bound, id) == Waiting
  {
    ChildStatesHas(t, bound, id, id + 1, c);
  }

  /** A build reported at another state than its own is held by a counting child at or below 'waiting'. */
  lemma HeldByChild(t: Table, bound: nat, id: BuildId) returns (c: BuildId)
    requires IsTree(t, bound) && id in t
    requires GlobalState(t, bound, id) != t[id].localState
    ensures StateScore(t[id].localState) > StateScore(Waiting)
    ensures id < c < bound && CountsAsChild(t, id, c) && StateScore(GlobalState(t, bound, c)) <= StateScore(Waiting)
  {
    var kids := ChildStates(t, bound, id, id + 1);
    var y := YoungestState(kids);
    var i :| 0 <= i < |kids| && kids[i] == y;
    ChildStatesFrom(t, bound, id, id + 1, i);
    c :| id + 1 <= c < bound && CountsAsChild(t, id, c) && GlobalState(t, bound, c) == kids[i];
  }

  /**
   * A build reported running or done has every counting descendant running
   * or done too: no descendant that counts is still pending, testing or waiting.
   */
  lemma {:induction false} SettledBuildHasSettledDescendants(t: Table, bound: nat, id: BuildId, d: BuildId)
    requires IsTree(t, bound) && id in t && d in t
    requires GlobalState(t, bound, id) in {Running, Done}
    requires CountingDescendant(t, bound, id, d)
    ensures GlobalState(t, bound, d) in {Running, Done}
    ensures t[d].localState in {Running, Done}
    decreases d
  {
    if d != id {
      var p := t[d].parent.value;
      SettledBuildHasSettledDescendants(t, bound, id, p);
      SettledParentHasSettledChild(t, bound, p, d);
    }
  }

  lemma {:induction false} SettledParentHasSettledChild(t: Table, bound: nat, p: BuildId, d: BuildId)
    requires IsTree(t, bound) && p in t && CountsAsChild(t, p, d) && p < d
    requires GlobalState(t, bound, p) in {Running, Done} && t[p].localState in {Running, Done}
    ensures GlobalState(t, bound, d) in {Running, Done}
  {
    ChildStatesHas(t, bound, p, p + 1, d);
    var kids := ChildStates(t, bound, p, p + 1);
    var gd := GlobalState(t, bound, d);
    assert gd in kids;
    var y := YoungestState(kids);
    assert StateScore(y) <= StateScore(gd);
    assert StateScore(y) > StateScore(Waiting);
  }

  /** `t2` differs from `t` at most in the record of `c`, which keeps its parent link and orphan flag. */
  predicate SameLinksExcept(t: Table, t2: Table, c: BuildId)
  {
    c in t && c in t2 && t2 == t[c := t2[c]]
    && t2[c].parent == t[c].parent && t2[c].orphanResult == t[c].orphanResult
  }

  lemma {:induction false} AncestorOfChild(t: Table, bound: nat, a: BuildId, c: BuildId)
    requires IsTree(t, bound) && c in t && AncestorOrSelf(t, bound, a, c) && a != c
    ensures t[c].parent.Some? && AncestorOrSelf(t, bound, a, t[c].parent.value)
  {
  }

  /** Lifting: the parent of an ancestor-or-self of `c` is an ancestor of `c`. */
  lemma {:induction false} ParentOfAncestor(t: Table, bound: nat, x: BuildId, k: BuildId, c: BuildId)
    requires IsTree(t, bound) && c in t && k in t && t[k].parent == Some(x)
    requires AncestorOrSelf(t, bound, k, c)
    ensures AncestorOrSelf(t, bound, x, c)
    decreases c
  {
    if k != c {
      ParentOfAncestor(t, bound, x, k, t[c].parent.value);
    }
  }

  /** The aggregates of a build depend only on its own subtree. */
  lemma {:induction false} AggregatesOutsideSubtree(t: Table, t2: Table, bound: nat, c: BuildId, x: BuildId)
    requires IsTree(t, bound) && SameLinksExcept(t, t2, c) && x in t
    requires !AncestorOrSelf(t, bound, x, c)
    ensures IsTree(t2, bound)
    ensures GlobalState(t2, bound, x) == GlobalState(t, bound, x)
    ensures GlobalResult(t2, bound, x) == GlobalResult(t, bound, x)
    decreases bound - x, 1
  {
    forall k | x < k < bound && CountsAsChild(t, x, k)
      ensures !AncestorOrSelf(t, bound, k, c)
    {
      if AncestorOrSelf(t, bound, k, c) {
        ParentOfAncestor(t, bound, x, k, c);
      }
    }
    ChildAggregatesOutsideSubtree(t, t2, bound, c, x, x + 1);
  }

  lemma {:induction false} ChildAggregatesOutsideSubtree(t: Table, t2: Table, bound: nat, c: BuildId, x: BuildId, k: nat)
    requires IsTree(t, bound) && SameLinksExcept(t, t2, c) && x in t && x < k
    requires forall j :: k <= j < bound && CountsAsChild(t, x, j) ==> !AncestorOrSelf(t, bound, j, c)
    ensures IsTree(t2, bound)
    ensures ChildStates(t2, bound, x, k) == ChildStates(t, bound, x, k)
    ensures ChildResults(t2, bound, x, k) == ChildResults(t, bound, x, k)
    decreases bound - x, 0, bound - k
  {
    if k < bound {
      if CountsAsChild(t, x, k) {
        AggregatesOutsideSubtree(t, t2, bound, c, k);
      }
      ChildAggregatesOutsideSubtree(t, t2, bound, c, x, k + 1);
    }
  }

  /**
   * Orphan children never affect the parent: whatever happens to the record of
   * an orphan child, the parent's global state and result stay the same.
   */
  lemma OrphanChildNeverAffectsParent(t: Table, t2: Table, bound: nat, c: BuildId)
    requires IsTree(t, bound) && SameLinksExcept(t, t2, c)
    requires t[c].parent.Some? && t[c].orphanResult
    ensures IsTree(t2, bound)
    ensures GlobalState(t2, bound, t[c].parent.value) == GlobalState(t, bound, t[c].parent.value)
    ensures GlobalResult(t2, bound, t[c].parent.value) == GlobalResult(t, bound, t[c].parent.value)
  {
    var p := t[c].parent.value;
    forall j | p < j < bound && CountsAsChild(t, p, j)
      ensures !AncestorOrSelf(t, bound, j, c)
    {
      if AncestorOrSelf(t, bound, j, c) {
        AncestorOfChild(t, bound, j, c);
        AncestorIsOlder(t, bound, j, p);
      }
    }
    ChildAggregatesOutsideSubtree(t, t2, bound, c, p, p + 1);
  }

  /** `t2` has the same builds as `t`, with the same parent links and params. */
  predicate SameLinks(t: Table, t2: Table)
  {
    t2.Keys == t.Keys && forall x :: x in t ==> t2[x].parent == t[x].parent && t2[x].params == t[x].params
  }

  lemma SameLinksKeepTree(t: Table, t2: Table, bound: nat)
    requires IsTree(t, bound) && SameLinks(t, t2)
    ensures IsTree(t2, bound)
  {
  }

  /** Ancestry only looks at parent links. */
  lemma {:induction false} AncestorSameLinks(t: Table, t2: Table, bound: nat, a: BuildId, c: BuildId)
    requires IsTree(t, bound) && SameLinks(t, t2) && c in t
    ensures IsTree(t2, bound)
    ensures AncestorOrSelf(t2, bound, a, c) == AncestorOrSelf(t, bound, a, c)
    decreases c
  {
    if a != c && t[c].parent.Some? {
      AncestorSameLinks(t, t2, bound, a, t[c].parent.value);
    }
  }

  /** The child of `a` on the path from `a` down to its descendant `x`. */
  function BranchOf(t: Table, bound: nat, a: BuildId, x: BuildId): (c: BuildId)
    requires IsTree(t, bound) && x in t && AncestorOrSelf(t, bound, a, x) && a != x
    ensures c in t && t[c].parent == Some(a) && AncestorOrSelf(t, bound, c, x)
    decreases x
  {
    var p := t[x].parent.value;
    if p == a then x else BranchOf(t, bound, a, p)
  }

  /** A descendant of `a` lies below exactly one child of `a`. */
  lemma {:induction false} BranchUnique(t: Table, bound: nat, a: BuildId, k: BuildId, x: BuildId)
    requires IsTree(t, bound) && x in t && k in t && t[k].parent == Some(a)
    requires AncestorOrSelf(t, bound, k, x)
    ensures AncestorOrSelf(t, bound, a, x) && a != x
    ensures BranchOf(t, bound, a, x) == k
    decreases x
  {
    ParentOfAncestor(t, bound, a, k, x);
    AncestorIsOlder(t, bound, k, x);
    if x != k {
      var p := t[x].parent.value;
      if p == a {
        AncestorIsOlder(t, bound, k, p);
        assert false;
      }
      BranchUnique(t, bound, a, k, p);
    }
  }
}
