// The two total orders of runbot builds (results by severity, states by
// progress) and the rules that combine results.
module BuildOrder {
  import opened Wrappers
  import opened Text

  /** `result_order`: ok < warn < ko < skipped < killed < manually_killed. */
  datatype BuildResult = Ok | Warn | Ko | Skipped | Killed | ManuallyKilled

  /** `state_order`: pending < testing < waiting < running < done. */
  datatype BuildState = Pending | Testing | Waiting | Running | Done

  const ResultCount: nat := 6

  /** Position in `result_order` (`_get_result_score`). */
  function ResultScore(r: BuildResult): nat
  {
    match r
    case Ok => 0
    case Warn => 1
    case Ko => 2
    case Skipped => 3
    case Killed => 4
    case ManuallyKilled => 5
  }

  /** `result_order[i]`. */
  function ResultAt(i: nat): (r: BuildResult)
    requires i < ResultCount
    ensures ResultScore(r) == i
  {
    if i == 0 then Ok
    else if i == 1 then Warn
    else if i == 2 then Ko
    else if i == 3 then Skipped
    else if i == 4 then Killed
    else ManuallyKilled
  }

  /** Position in `state_order` (`_get_state_score`). */
  function StateScore(s: BuildState): nat
  {
    match s
    case Pending => 0
    case Testing => 1
    case Waiting => 2
    case Running => 3
    case Done => 4
  }

  /** The selection value stored in the database. */
  function ResultName(r: BuildResult): String
  {
    match r
    case Ok => "ok"
    case Warn => "warn"
    case Ko => "ko"
    case Skipped => "skipped"
    case Killed => "killed"
    case ManuallyKilled => "manually_killed"
  }

  /** Both orders are total orders: the score is a bijection onto an initial segment. */
  lemma ScoresAreTotalOrders(a: BuildResult, b: BuildResult, s: BuildState, t: BuildState)
    ensures ResultScore(a) < ResultCount && ResultAt(ResultScore(a)) == a
    ensures ResultScore(a) == ResultScore(b) <==> a == b
    ensures StateScore(s) < 5
    ensures StateScore(s) == StateScore(t) <==> s == t
  {
  }

  /** Highest score among the set entries, 0 when there is none. */
  function MaxScore(results: seq<Option<BuildResult>>): (m: nat)
    ensures m < ResultCount
    ensures forall i :: 0 <= i < |results| && results[i].Some? ==> ResultScore(results[i].value) <= m
    ensures m == 0 || exists i :: 0 <= i < |results| && results[i].Some? && ResultScore(results[i].value) == m
  {
    if results == [] then 0
    else
      var rest := MaxScore(results[1..]);
      if results[0].Some? && ResultScore(results[0].value) > rest then ResultScore(results[0].value)
      else rest
  }

  function Min(a: nat, b: nat): nat { if a <= b then a else b }

  /**
   * `_get_worst_result(results, max_res)`: unset entries are ignored, the most
   * severe entry wins, 'ok' when there is none, and a given cap is never exceeded.
   */
  function WorstResult(results: seq<Option<BuildResult>>, cap: Option<BuildResult>): (r: BuildResult)
    ensures cap.None? ==> forall i :: 0 <= i < |results| && results[i].Some? ==> ResultScore(results[i].value) <= ResultScore(r)
    ensures cap.Some? ==> ResultScore(r) <= ResultScore(cap.value)
    ensures cap.Some? ==> forall i :: 0 <= i < |results| && results[i].Some? ==>
      Min(ResultScore(results[i].value), ResultScore(cap.value)) <= ResultScore(r)
    ensures r == Ok || Some(r) in results || Some(r) == cap
    ensures r == Ok || exists i :: 0 <= i < |results| && results[i].Some? && ResultScore(r) <= ResultScore(results[i].value)
  {
    var m := MaxScore(results);
    var index := if cap.Some? then Min(m, ResultScore(cap.value)) else m;
    var r := ResultAt(index);
    assert r == Ok || exists i :: 0 <= i < |results| && results[i].Some? && ResultScore(r) <= ResultScore(results[i].value) by {
      if m > 0 {
        var i :| 0 <= i < |results| && results[i].Some? && ResultScore(results[i].value) == m;
        assert ResultScore(r) <= ResultScore(results[i].value);
      }
    }
    assert r == Ok || Some(r) in results || Some(r) == cap by {
      if m > 0 && index == m {
        var i :| 0 <= i < |results| && results[i].Some? && ResultScore(results[i].value) == m;
        ScoresAreTotalOrders(r, results[i].value, Pending, Pending);
        assert results[i] == Some(r);
      }
    }
    r
  }

  /** The worse of two results is one of them. */
  lemma PairWorstIsOne(a: BuildResult, b: BuildResult)
    ensures WorstResult([Some(a), Some(b)], None) in {a, b}
  {
    var w := WorstResult([Some(a), Some(b)], None);
    assert [Some(a), Some(b)][0] == Some(a);
  }

  /** A capped worst result other than 'ok' is some set entry, capped. */
  lemma CappedWorstEntry(results: seq<Option<BuildResult>>, cap: BuildResult) returns (i: nat)
    requires WorstResult(results, Some(cap)) != Ok
    ensures i < |results| && results[i].Some?
    ensures WorstResult(results, Some(cap)) == ResultAt(Min(ResultScore(results[i].value), ResultScore(cap)))
  {
    var r := WorstResult(results, Some(cap));
    i :| 0 <= i < |results| && results[i].Some? && ResultScore(r) <= ResultScore(results[i].value);
    assert ResultScore(r) == Min(ResultScore(results[i].value), ResultScore(cap));
    ScoresAreTotalOrders(r, ResultAt(ResultScore(r)), Pending, Pending);
  }

  /** Capping `[warn]` at ko gives warn: the cap bounds the result but is not attained by itself. */
  lemma CapIsOnlyABound()
    ensures WorstResult([Some(Warn)], Some(Ko)) == Warn
  {
    var r := WorstResult([Some(Warn)], Some(Ko));
    assert ResultScore(r) <= 1 by {
      if r != Ok {
        var i :| 0 <= i < 1 && [Some(Warn)][i].Some? && ResultScore(r) <= ResultScore([Some(Warn)][i].value);
      }
    }
    assert Min(ResultScore(Warn), ResultScore(Ko)) <= ResultScore(r) by {
      assert [Some(Warn)][0] == Some(Warn);
    }
  }

  /** With no entry set, the worst result is 'ok'. */
  lemma WorstOfNothingIsOk(results: seq<Option<BuildResult>>, cap: Option<BuildResult>)
    requires forall i :: 0 <= i < |results| ==> results[i].None?
    ensures WorstResult(results, cap) == Ok
  {
  }

  /**
   * The `write` guard of one build: an incoming `local_result` is kept only when it
   * equals `_get_worst_result([current, incoming])`.
   */
  predicate KeepsNewResult(current: Option<BuildResult>, incoming: BuildResult)
  {
    incoming == WorstResult([current, Some(incoming)], None)
  }

  /** The guard lets a result through exactly when it is at least as severe as the current one. */
  lemma KeepsNewResultIffNotLessSevere(current: Option<BuildResult>, incoming: BuildResult)
    ensures KeepsNewResult(current, incoming) <==> (current.None? || ResultScore(current.value) <= ResultScore(incoming))
  {
    var w := WorstResult([current, Some(incoming)], None);
    assert ResultScore(incoming) <= ResultScore(w);
    if current.Some? {
      assert ResultScore(current.value) <= ResultScore(w);
      if ResultScore(current.value) <= ResultScore(incoming) {
        ScoresAreTotalOrders(w, incoming, Pending, Pending);
      }
    } else {
      ScoresAreTotalOrders(w, incoming, Pending, Pending);
      assert w == Ok || Some(w) in [current, Some(incoming)];
    }
  }

  /** `_get_youngest_state`: the least progressed of a non-empty list of states. */
  function YoungestState(states: seq<BuildState>): (y: BuildState)
    requires |states| > 0
    ensures y in states
    ensures forall i :: 0 <= i < |states| ==> StateScore(y) <= StateScore(states[i])
  {
    if |states| == 1 then states[0]
    else
      var rest := YoungestState(states[1..]);
      if StateScore(states[0]) <= StateScore(rest) then states[0] else rest
  }

  /** Return value of `result_multi`. */
  datatype MultiResult = MultiOk | MultiKilled | MultiKo | MultiWarning

  predicate IsOkOrUnset(r: Option<BuildResult>) { r.None? || r.value == Ok }
  predicate IsKilledLike(r: Option<BuildResult>) { r.Some? && r.value in {Skipped, Killed, ManuallyKilled} }

  /**
   * `result_multi` as written: the fourth test compares the stored value with
   * the string 'warning', which is not a value of `result_order`.
   */
  function ResultMultiAsWritten(results: seq<Option<BuildResult>>): MultiResult
  {
    if forall i :: 0 <= i < |results| ==> IsOkOrUnset(results[i]) then MultiOk
    else if exists i :: 0 <= i < |results| && IsKilledLike(results[i]) then MultiKilled
    else if Some(Ko) in results then MultiKo
    else if exists i :: 0 <= i < |results| && results[i].Some? && ResultName(results[i].value) == "warning" then MultiWarning
    else MultiKo
  }

  /** No stored result is named 'warning', so a 'warn' group is reported as 'ko'. */
  lemma ResultMultiReportsWarnAsKo()
    ensures forall r :: ResultName(r) != "warning"
    ensures ResultMultiAsWritten([Some(Warn)]) == MultiKo
    ensures ResultMultiAsWritten([Some(Ok), Some(Warn), None]) == MultiKo
  {
    forall r | true ensures ResultName(r) != "warning" {
      assert |ResultName(r)| != |"warning"| || ResultName(r)[..4] != "warn" || ResultName(r) == "warn";
    }
    var one := [Some(Warn)];
    assert !IsOkOrUnset(one[0]);
    assert forall i :: 0 <= i < |one| ==> !IsKilledLike(one[i]) && one[i] == Some(Warn);
    var three := [Some(Ok), Some(Warn), None];
    assert !IsOkOrUnset(three[1]);
    assert forall i :: 0 <= i < |three| ==> !IsKilledLike(three[i]) && three[i] != Some(Ko);
  }

  /** `result_multi` comparing with the stored value 'warn'. */
  function ResultMulti(results: seq<Option<BuildResult>>): MultiResult
  {
    if forall i :: 0 <= i < |results| ==> IsOkOrUnset(results[i]) then MultiOk
    else if exists i :: 0 <= i < |results| && IsKilledLike(results[i]) then MultiKilled
    else if Some(Ko) in results then MultiKo
    else if Some(Warn) in results then MultiWarning
    else MultiKo
  }

  /** Collapses the three "killed" results into the one 'killed' of `result_multi`. */
  function Collapse(r: BuildResult): MultiResult
  {
    match r
    case Ok => MultiOk
    case Warn => MultiWarning
    case Ko => MultiKo
    case _ => MultiKilled
  }

  /** Corrected `result_multi` reports the worst result of the group, the killed kinds merged. */
  lemma ResultMultiIsCollapsedWorst(results: seq<Option<BuildResult>>)
    ensures ResultMulti(results) == Collapse(WorstResult(results, None))
  {
    var w := WorstResult(results, None);
    if !forall i :: 0 <= i < |results| ==> IsOkOrUnset(results[i]) {
      var i :| 0 <= i < |results| && !IsOkOrUnset(results[i]);
      assert ResultScore(results[i].value) <= ResultScore(w);
      assert w != Ok && Some(w) in results;
      var j :| 0 <= j < |results| && results[j] == Some(w);
      if exists k :: 0 <= k < |results| && IsKilledLike(results[k]) {
        var k :| 0 <= k < |results| && IsKilledLike(results[k]);
        assert ResultScore(results[k].value) <= ResultScore(w);
      } else {
        assert !IsKilledLike(results[j]);
        if Some(Ko) in results {
          var k :| 0 <= k < |results| && results[k] == Some(Ko);
          assert ResultScore(Ko) <= ResultScore(w);
        } else {
          assert w == Warn;
        }
      }
    }
  }
}
