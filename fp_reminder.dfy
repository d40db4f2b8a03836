// Reminders about forward-ports left open (`Project._outstanding` and `Project._reminder`
// in forwardport/models/project.py): forward-ports neither merged nor closed whose source
// was merged before a cutoff are grouped by source, and each source is reminded with an
// exponential back-off of `2 ** reminder_backoff_factor` days.
module Reminders {
  import opened Wrappers
  import Sorting
  import Freeze

  /** A pull request as the reminder sees it; `source` is unset on an original. */
  datatype FpPr = FpPr(id: nat, number: nat, source: Option<nat>, state: Freeze.PrState)

  /** The outstanding forward-ports of one source, in id order. */
  datatype Group = Group(source: nat, prs: seq<FpPr>)

  /** The feedback posted on a source, listing its outstanding forward-ports by number. */
  datatype Reminder = Reminder(source: nat, prs: seq<FpPr>)

  function Number(p: FpPr): int
  {
    p.number
  }

  /**
   * The search of `_outstanding`: a forward-port, neither merged nor closed, whose source
   * was merged before the cutoff; `mergeDate` holds the merge day of merged pull requests.
   */
  predicate Outstanding(p: FpPr, mergeDate: map<nat, real>, cutoff: real)
  {
    p.source.Some? && p.state != Freeze.Merged && p.state != Freeze.Closed &&
    p.source.value in mergeDate && mergeDate[p.source.value] < cutoff
  }

  function Id(x: nat): int
  {
    x
  }

  /** A sorted list without its repetitions. */
  function Dedup(s: seq<nat>): (r: seq<nat>)
    requires Sorting.SortedBy(s, Id)
    ensures forall x :: x in r <==> x in s
    ensures s != [] ==> r != [] && r[0] == s[0]
    ensures forall i, j :: 0 <= i < j < |r| ==> r[i] < r[j]
  {
    if |s| <= 1 then s
    else if s[0] == s[1] then Dedup(s[1..])
    else
      var rest := Dedup(s[1..]);
      assert s[0] < rest[0];
      assert forall x :: x in rest ==> s[0] < x by {
        forall x | x in rest
          ensures s[0] < x
        {
          var k :| 1 <= k < |s| && s[k] == x;
        }
      }
      [s[0]] + rest
  }

  /** The sources of the outstanding forward-ports among `prs`, with repetitions. */
  function SourceList(prs: seq<FpPr>, mergeDate: map<nat, real>, cutoff: real): (r: seq<nat>)
    ensures forall x :: x in r ==> exists p :: p in prs && Outstanding(p, mergeDate, cutoff) && p.source == Some(x)
    ensures forall p :: p in prs && Outstanding(p, mergeDate, cutoff) ==> p.source.value in r
  {
    if prs == [] then []
    else
      var p := prs[0];
      (if Outstanding(p, mergeDate, cutoff) then [p.source.value] else [])
      + SourceList(prs[1..], mergeDate, cutoff)
  }

  /** The `order='source_id'` of the search: the distinct sources, in increasing order. */
  function Sources(prs: seq<FpPr>, mergeDate: map<nat, real>, cutoff: real): (r: seq<nat>)
    ensures forall x :: x in r ==> exists p :: p in prs && Outstanding(p, mergeDate, cutoff) && p.source == Some(x)
    ensures forall p :: p in prs && Outstanding(p, mergeDate, cutoff) ==> p.source.value in r
    ensures forall i, j :: 0 <= i < j < |r| ==> r[i] < r[j]
  {
    var all := SourceList(prs, mergeDate, cutoff);
    Sorting.SortByIsSortedPermutation(all, Id);
    var sorted := Sorting.SortBy(all, Id);
    assert forall x :: x in sorted <==> x in all by {
      forall x
        ensures x in sorted <==> x in all
      {
        assert x in sorted <==> x in multiset(sorted);
        assert x in all <==> x in multiset(all);
      }
    }
    Dedup(sorted)
  }

  /** The outstanding forward-ports of `source`, in the order of `prs`. */
  function OfSource(prs: seq<FpPr>, source: nat, mergeDate: map<nat, real>, cutoff: real): (r: seq<FpPr>)
    ensures forall p :: p in r <==> p in prs && Outstanding(p, mergeDate, cutoff) && p.source == Some(source)
  {
    if prs == [] then []
    else
      var p := prs[0];
      (if Outstanding(p, mergeDate, cutoff) && p.source == Some(source) then [p] else [])
      + OfSource(prs[1..], source, mergeDate, cutoff)
  }

  /**
   * `_outstanding(cutoff)` over the pull requests `prs` in id order: one group per source,
   * sources in increasing id order, each holding exactly that source's outstanding forward-ports.
   */
  function OutstandingGroups(prs: seq<FpPr>, mergeDate: map<nat, real>, cutoff: real): (r: seq<Group>)
    ensures forall i, j :: 0 <= i < j < |r| ==> r[i].source < r[j].source
    ensures forall i :: 0 <= i < |r| ==> r[i].prs != [] && r[i].source in mergeDate
    ensures forall i, p :: 0 <= i < |r| && p in r[i].prs ==>
      p in prs && Outstanding(p, mergeDate, cutoff) && p.source == Some(r[i].source)
    ensures forall p :: p in prs && Outstanding(p, mergeDate, cutoff) ==>
      exists i :: 0 <= i < |r| && p in r[i].prs
  {
    var sources := Sources(prs, mergeDate, cutoff);
    var r := seq(|sources|, i requires 0 <= i < |sources| => Group(sources[i], OfSource(prs, sources[i], mergeDate, cutoff)));
    forall i | 0 <= i < |r|
      ensures r[i].prs != [] && r[i].source in mergeDate
    {
      assert sources[i] in sources;
      var p :| p in prs && Outstanding(p, mergeDate, cutoff) && p.source == Some(sources[i]);
      assert p in r[i].prs;
    }
    forall p | p in prs && Outstanding(p, mergeDate, cutoff)
      ensures exists i :: 0 <= i < |r| && p in r[i].prs
    {
      var i :| 0 <= i < |sources| && sources[i] == p.source.value;
      assert p in r[i].prs;
    }
    r
  }

  function Pow2Nat(n: nat): (r: nat)
    ensures r >= 1
  {
    if n == 0 then 1 else 2 * Pow2Nat(n - 1)
  }

  /** `2 ** f` days, for a factor which starts negative. */
  function Pow2(f: int): (r: real)
    ensures r > 0.0
  {
    if f >= 0 then Pow2Nat(f) as real else 1.0 / (Pow2Nat(-f) as real)
  }

  /** Raising the factor by one doubles the back-off. */
  lemma Pow2Succ(f: int)
    ensures Pow2(f + 1) == 2.0 * Pow2(f)
  {
    if f < -1 {
      var d := Pow2Nat(-f - 1) as real;
      assert Pow2Nat(-f) as real == 2.0 * d;
      assert 1.0 / d == 2.0 * (1.0 / (2.0 * d));
    }
  }

  /** A source is reminded when its merge is at least the back-off older than the cutoff. */
  predicate Due(merged: real, factor: int, cutoff: real)
  {
    !(merged > cutoff - Pow2(factor))
  }

  /** Each reminder doubles the wait before the next one. */
  lemma BackoffDoubles(merged: real, factor: int, cutoff: real)
    ensures Due(merged, factor + 1, cutoff) <==> cutoff - merged >= 2.0 * Pow2(factor)
    ensures Due(merged, factor + 1, cutoff) ==> Due(merged, factor, cutoff)
  {
    Pow2Succ(factor);
  }

  predicate Known(groups: seq<Group>, factor: map<nat, int>, mergeDate: map<nat, real>)
  {
    forall i :: 0 <= i < |groups| ==> groups[i].source in factor && groups[i].source in mergeDate
  }

  /** The reminders `_reminder` sends for `groups` and the back-off factors it leaves. */
  function RemindAll(groups: seq<Group>, factor: map<nat, int>, mergeDate: map<nat, real>, cutoff: real)
    : (r: (seq<Reminder>, map<nat, int>))
    requires Known(groups, factor, mergeDate)
    ensures r.1.Keys == factor.Keys
    ensures forall m :: m in r.0 ==> Sorting.SortedBy(m.prs, Number)
    decreases |groups|
  {
    if groups == [] then ([], factor)
    else
      var (sent, f) := RemindAll(groups[..|groups| - 1], factor, mergeDate, cutoff);
      var g := groups[|groups| - 1];
      if Due(mergeDate[g.source], f[g.source], cutoff) then
        Sorting.SortByIsSortedPermutation(g.prs, Number);
        (sent + [Reminder(g.source, Sorting.SortBy(g.prs, Number))], f[g.source := f[g.source] + 1])
      else (sent, f)
  }

  predicate DistinctSources(groups: seq<Group>)
  {
    forall i, j :: 0 <= i < j < |groups| ==> groups[i].source != groups[j].source
  }

  /**
   * With one group per source, exactly the due sources are reminded, in group order, each
   * with all of its forward-ports sorted by number, and exactly their factors go up by one.
   */
  lemma {:induction false} RemindAllBumpsDue(groups: seq<Group>, factor: map<nat, int>, mergeDate: map<nat, real>, cutoff: real)
    requires Known(groups, factor, mergeDate) && DistinctSources(groups)
    ensures var r := RemindAll(groups, factor, mergeDate, cutoff);
      (forall i :: 0 <= i < |groups| ==> var s := groups[i].source;
        r.1[s] == factor[s] + (if Due(mergeDate[s], factor[s], cutoff) then 1 else 0)) &&
      (forall s :: s in factor && (forall i :: 0 <= i < |groups| ==> groups[i].source != s) ==> r.1[s] == factor[s]) &&
      |r.0| == |DueGroups(groups, factor, mergeDate, cutoff)| &&
      forall k :: 0 <= k < |r.0| ==>
        r.0[k].source == DueGroups(groups, factor, mergeDate, cutoff)[k].source &&
        multiset(r.0[k].prs) == multiset(DueGroups(groups, factor, mergeDate, cutoff)[k].prs)
  {
    RemindAllFactors(groups, factor, mergeDate, cutoff);
    RemindAllSent(groups, factor, mergeDate, cutoff);
  }

  /** The factor of each grouped source goes up by one exactly when it is due; other factors stay. */
  lemma {:induction false} RemindAllFactors(groups: seq<Group>, factor: map<nat, int>, mergeDate: map<nat, real>, cutoff: real)
    requires Known(groups, factor, mergeDate) && DistinctSources(groups)
    ensures var f := RemindAll(groups, factor, mergeDate, cutoff).1;
      (forall i :: 0 <= i < |groups| ==> var s := groups[i].source;
        f[s] == factor[s] + (if Due(mergeDate[s], factor[s], cutoff) then 1 else 0)) &&
      (forall s :: s in factor && (forall i :: 0 <= i < |groups| ==> groups[i].source != s) ==> f[s] == factor[s])
    decreases |groups|
  {
    if groups != [] {
      var n := |groups| - 1;
      var init := groups[..n];
      var g := groups[n];
      assert forall i :: 0 <= i < n ==> init[i] == groups[i];
      RemindAllFactors(init, factor, mergeDate, cutoff);
      var f := RemindAll(init, factor, mergeDate, cutoff).1;
      assert forall i :: 0 <= i < n ==> init[i].source != g.source;
      assert f[g.source] == factor[g.source];
    }
  }

  /** The reminders sent are the due groups, in order, each with all of its forward-ports. */
  lemma {:induction false} RemindAllSent(groups: seq<Group>, factor: map<nat, int>, mergeDate: map<nat, real>, cutoff: real)
    requires Known(groups, factor, mergeDate) && DistinctSources(groups)
    ensures var sent := RemindAll(groups, factor, mergeDate, cutoff).0;
      var due := DueGroups(groups, factor, mergeDate, cutoff);
      |sent| == |due| &&
      forall k :: 0 <= k < |sent| ==> sent[k].source == due[k].source && multiset(sent[k].prs) == multiset(due[k].prs)
    decreases |groups|
  {
    if groups != [] {
      var n := |groups| - 1;
      var init := groups[..n];
      var g := groups[n];
      assert forall i :: 0 <= i < n ==> init[i] == groups[i];
      RemindAllSent(init, factor, mergeDate, cutoff);
      RemindAllFactors(init, factor, mergeDate, cutoff);
      var f := RemindAll(init, factor, mergeDate, cutoff).1;
      assert forall i :: 0 <= i < n ==> init[i].source != g.source;
      assert f[g.source] == factor[g.source];
      Sorting.SortByIsSortedPermutation(g.prs, Number);
    }
  }

  /** The groups whose sources are due at their current factor, in order. */
  function DueGroups(groups: seq<Group>, factor: map<nat, int>, mergeDate: map<nat, real>, cutoff: real): seq<Group>
    requires Known(groups, factor, mergeDate)
    decreases |groups|
  {
    if groups == [] then []
    else
      var init := groups[..|groups| - 1];
      var g := groups[|groups| - 1];
      DueGroups(init, factor, mergeDate, cutoff)
      + (if Due(mergeDate[g.source], factor[g.source], cutoff) then [g] else [])
  }

  /** The back-off factors of sources (`reminder_backoff_factor`), updated in place by `_reminder`. */
  class Backoff {
    var factor: map<nat, int>

    /** Every source starts at `-4`, a back-off of 1/16 day. */
    constructor (sources: set<nat>)
      ensures factor == map s | s in sources :: -4
    {
      factor := map s | s in sources :: -4;
    }

    /** `_reminder`: one pass over the outstanding groups. */
    method Remind(groups: seq<Group>, mergeDate: map<nat, real>, cutoff: real) returns (sent: seq<Reminder>)
      requires Known(groups, factor, mergeDate)
      modifies this
      ensures (sent, factor) == RemindAll(groups, old(factor), mergeDate, cutoff)
    {
      sent := [];
      var i := 0;
      while i < |groups|
        invariant 0 <= i <= |groups|
        invariant Known(groups[..i], old(factor), mergeDate)
        invariant (sent, factor) == RemindAll(groups[..i], old(factor), mergeDate, cutoff)
      {
        var g := groups[i];
        assert groups[..i + 1][..i] == groups[..i];
        var backoff := Pow2(factor[g.source]);
        if mergeDate[g.source] > cutoff - backoff {
          i := i + 1;
          continue;
        }
        factor := factor[g.source := factor[g.source] + 1];
        sent := sent + [Reminder(g.source, Sorting.SortBy(g.prs, Number))];
        i := i + 1;
      }
      assert groups[..i] == groups;
    }
  }
}
