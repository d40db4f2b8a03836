// The forward-port bot's view of a project's branches (forwardport/models/project.py):
// the order it walks them in, the next branch a merged pull request is ported to,
// the ancestry of forward-port pull requests, and the checks made when a project's
// branch list is rewritten.
module ForwardPort {
  import opened Wrappers
  import opened Text

  /** A branch of a project as the forward-port bot sees it. */
  datatype Branch = Branch(id: nat, name: String, active: bool, fpTarget: bool)

  /** `fp_enabled`: a branch takes forward-ports when it is both active and a forward-port target. */
  predicate FpEnabled(b: Branch)
  {
    b.active && b.fpTarget
  }

  predicate UniqueIds(bs: seq<Branch>)
  {
    forall i, j :: 0 <= i < j < |bs| ==> bs[i].id != bs[j].id
  }

  // ---------------------------------------------------------------------------
  // The forward-port ordering: the branch model's own ordering, prefixed with
  // `fp_sequence` and with every item's direction reversed.
  // ---------------------------------------------------------------------------

  const Desc: String := " desc"

  /** One ordering item reversed: a trailing ` desc` (in any case) is dropped, otherwise one is added. */
  function Flip(item: String): String
  {
    if EndsWith(Lower(item), Desc) then item[..|item| - |Desc|] else item + Desc
  }

  function FlipAll(items: seq<String>): (r: seq<String>)
    ensures |r| == |items| && forall i :: 0 <= i < |items| ==> r[i] == Flip(items[i])
  {
    if items == [] then [] else [Flip(items[0])] + FlipAll(items[1..])
  }

  /** `re.split(r',\s*', 'fp_sequence,' + order)`: the items of an ordering, each without the blanks after its comma. */
  function OrderingItems(order: String): (r: seq<String>)
    ensures |r| >= 2 && r[0] == "fp_sequence"
    ensures forall i :: 1 <= i < |r| ==> ',' !in r[i] && (r[i] == [] || !IsSpace(r[i][0]))
  {
    var parts := Split(order, ',');
    ["fp_sequence"] + StripAll(parts)
  }

  function StripAll(parts: seq<String>): (r: seq<String>)
    requires forall i :: 0 <= i < |parts| ==> ',' !in parts[i]
    ensures |r| == |parts|
    ensures forall i :: 0 <= i < |r| ==> ',' !in r[i] && (r[i] == [] || !IsSpace(r[i][0]))
  {
    if parts == [] then []
    else
      var s := StripLeft(parts[0], IsSpace);
      assert forall c :: c in s ==> c in parts[0];
      [s] + StripAll(parts[1..])
  }

  /** `_forward_port_ordered`'s ordering clause for a branch model ordered by `order`. */
  function ForwardPortOrdering(order: String): String
  {
    Join(FlipAll(OrderingItems(order)), ",")
  }

  lemma LowerAppend(a: String, b: String)
    ensures Lower(a + b) == Lower(a) + Lower(b)
  {
    assert forall i :: 0 <= i < |a + b| ==> Lower(a + b)[i] == (Lower(a) + Lower(b))[i];
  }

  /** An ascending item flipped twice is itself again. */
  lemma FlipAscendingTwice(item: String)
    requires !EndsWith(Lower(item), Desc)
    ensures Flip(item) == item + Desc
    ensures Flip(Flip(item)) == item
  {
    LowerAppend(item, Desc);
    LowerDesc();
    var l := Lower(item);
    assert |l| == |item| && (l + Desc)[|item|..] == Desc;
    assert (item + Desc)[..|item + Desc| - |Desc|] == item;
  }

  lemma LowerDesc()
    ensures Lower(Desc) == Desc
  {
    var d := Desc;
    assert d == [' ', 'd', 'e', 's', 'c'];
    forall j | 0 <= j < |d|
      ensures Lower(d)[j] == d[j]
    {
      assert LowerChar(d[j]) == d[j];
    }
  }

  /** A descending item flipped twice is itself again, its ` desc` normalised to lower case. */
  lemma FlipDescendingTwice(stem: String, suffix: String)
    requires |suffix| == |Desc| && Lower(suffix) == Desc && !EndsWith(Lower(stem), Desc)
    ensures Flip(stem + suffix) == stem
    ensures Flip(Flip(stem + suffix)) == stem + Desc
  {
    LowerAppend(stem, suffix);
    assert Lower(stem + suffix)[|stem|..] == Desc;
    assert (stem + suffix)[..|stem + suffix| - |Desc|] == stem;
    FlipAscendingTwice(stem);
  }

  /** Flipping every item of an all-ascending ordering twice gives it back. */
  lemma FlipAllTwice(items: seq<String>)
    requires forall i :: 0 <= i < |items| ==> !EndsWith(Lower(items[i]), Desc)
    ensures FlipAll(FlipAll(items)) == items
  {
    forall i | 0 <= i < |items|
      ensures FlipAll(FlipAll(items))[i] == items[i]
    {
      FlipAscendingTwice(items[i]);
    }
  }

  /** The forward-port sequence comes first, descending, ahead of the model's own ordering items. */
  lemma ForwardPortOrderingHead(order: String)
    ensures ForwardPortOrdering(order) == "fp_sequence desc," + Join(FlipAll(OrderingItems(order))[1..], ",")
  {
    var items := OrderingItems(order);
    var flipped := FlipAll(items);
    FpSequenceFlips();
    assert flipped[0] == Flip(items[0]);
    JoinAfterHead(flipped);
  }

  /** The `fp_sequence` head item is ascending, so it becomes `fp_sequence desc`. */
  lemma FpSequenceFlips()
    ensures Flip("fp_sequence") == "fp_sequence" + Desc
  {
    var head := "fp_sequence";
    assert head[|head| - 1] == 'e';
    AscendingByLastChar(head);
    FlipAscendingTwice(head);
  }

  /** An item whose last character is not a `c` in any case does not end in ` desc`. */
  lemma AscendingByLastChar(item: String)
    requires item != [] && LowerChar(item[|item| - 1]) != 'c'
    ensures !EndsWith(Lower(item), Desc)
  {
    var l := Lower(item);
    assert l[|l| - 1] == LowerChar(item[|item| - 1]);
    assert |Desc| > 0 && Desc[|Desc| - 1] == 'c';
  }

  lemma JoinAfterHead(flipped: seq<String>)
    requires |flipped| >= 2 && flipped[0] == "fp_sequence" + Desc
    ensures Join(flipped, ",") == "fp_sequence desc," + Join(flipped[1..], ",")
  {
    assert Join(flipped, ",") == flipped[0] + "," + Join(flipped[1..], ",");
    assert "fp_sequence" + Desc + "," == "fp_sequence desc,";
  }

  // ---------------------------------------------------------------------------
  // `_find_next_target`
  // ---------------------------------------------------------------------------

  /** Python's `list.index` on branches by id: the first position, or nothing (the call raises). */
  function IndexOf(bs: seq<Branch>, id: nat): (r: Option<nat>)
    ensures r.Some? ==> r.value < |bs| && bs[r.value].id == id && forall j :: 0 <= j < r.value ==> bs[j].id != id
    ensures r.None? ==> forall j :: 0 <= j < |bs| ==> bs[j].id != id
  {
    if bs == [] then None
    else if bs[0].id == id then Some(0)
    else match IndexOf(bs[1..], id)
      case None => None
      case Some(k) => Some(k + 1)
  }

  /** The first forward-port-enabled branch at a position in `[lo, hi)`. */
  function FirstEnabled(bs: seq<Branch>, lo: nat, hi: nat): (r: Option<nat>)
    requires hi <= |bs|
    ensures r.Some? ==> lo <= r.value < hi && FpEnabled(bs[r.value])
    ensures r.Some? ==> forall j :: lo <= j < r.value ==> !FpEnabled(bs[j])
    ensures r.None? ==> forall j :: lo <= j < hi ==> !FpEnabled(bs[j])
    decreases hi - lo
  {
    if hi <= lo then None
    else if FpEnabled(bs[lo]) then Some(lo)
    else FirstEnabled(bs, lo + 1, hi)
  }

  /**
   * The positions the next target is looked for in, `branches[from_+1:to_+1]`,
   * when the source's target, the reference's target and the source's limit are all listed.
   */
  function Window(branches: seq<Branch>, target: nat, refTarget: nat, limit: Option<nat>): Option<(nat, nat)>
  {
    match (IndexOf(branches, target), IndexOf(branches, refTarget), if limit.Some? then IndexOf(branches, limit.value) else None)
      case (Some(t), Some(f), Some(l)) => Some(((if t < f then f else t) + 1, l + 1))
      case _ => None
  }

  /**
   * `source._find_next_target(reference)`: `target` and `limit` are the source's branch and
   * forward-port limit, `refTarget` the reference's branch, `branches` the project's branches
   * in forward-port order. A failure is the `ValueError` of a branch missing from the list.
   */
  function FindNextTarget(branches: seq<Branch>, target: nat, refTarget: nat, limit: Option<nat>): (r: Result<Option<Branch>, ()>)
    ensures limit == Some(refTarget) ==> r == Success(None)
    ensures limit != Some(refTarget) ==> (r.Failure? <==> Window(branches, target, refTarget, limit).None?)
    ensures r.Success? && r.value.Some? ==>
      var w := Window(branches, target, refTarget, limit);
      w.Some? && w.value.1 <= |branches| &&
      exists k :: w.value.0 <= k < w.value.1 && branches[k] == r.value.value && FpEnabled(branches[k]) &&
        forall j :: w.value.0 <= j < k ==> !FpEnabled(branches[j])
    ensures r == Success(None) && limit != Some(refTarget) ==>
      var w := Window(branches, target, refTarget, limit);
      w.Some? && w.value.1 <= |branches| && forall j :: w.value.0 <= j < w.value.1 ==> !FpEnabled(branches[j])
  {
    if limit == Some(refTarget) then Success(None)
    else match Window(branches, target, refTarget, limit)
      case None => Failure(())
      case Some((lo, hi)) =>
        match FirstEnabled(branches, lo, hi)
          case None => Success(None)
          case Some(k) => Success(Some(branches[k]))
  }

  /**
   * Porting again from the branch just found moves strictly further along the project:
   * the following target, if any, comes after it, so a chain of forward-ports ends.
   */
  lemma NextTargetAdvances(branches: seq<Branch>, target: nat, refTarget: nat, limit: Option<nat>, b: Branch)
    requires UniqueIds(branches)
    requires FindNextTarget(branches, target, refTarget, limit) == Success(Some(b))
    ensures var r := FindNextTarget(branches, target, b.id, limit);
      r.Success? && (r.value.Some? ==>
        exists i, j :: 0 <= i < j < |branches| && branches[i] == b && branches[j] == r.value.value)
  {
    var w := Window(branches, target, refTarget, limit).value;
    var k :| w.0 <= k < w.1 && branches[k] == b && FpEnabled(branches[k]);
    WindowAfter(branches, target, refTarget, limit, k);
    var r := FindNextTarget(branches, target, b.id, limit);
    if limit != Some(b.id) && r.value.Some? {
      var k2 :| k + 1 <= k2 < w.1 && branches[k2] == r.value.value && FpEnabled(branches[k2]) &&
        forall j :: k + 1 <= j < k2 ==> !FpEnabled(branches[j]);
      assert 0 <= k < k2 < |branches| && branches[k] == b && branches[k2] == r.value.value;
    }
  }

  /** Looking again from the branch found at `k` searches the rest of the same window. */
  lemma WindowAfter(branches: seq<Branch>, target: nat, refTarget: nat, limit: Option<nat>, k: nat)
    requires UniqueIds(branches) && Window(branches, target, refTarget, limit).Some?
    requires Window(branches, target, refTarget, limit).value.0 <= k < Window(branches, target, refTarget, limit).value.1
    requires k < |branches|
    ensures Window(branches, target, branches[k].id, limit) == Some((k + 1, Window(branches, target, refTarget, limit).value.1))
  {
    IndexOfUnique(branches, k);
  }

  /** With unique ids, a branch is found at its own position. */
  lemma IndexOfUnique(bs: seq<Branch>, k: nat)
    requires UniqueIds(bs) && k < |bs|
    ensures IndexOf(bs, bs[k].id) == Some(k)
  {
  }

  // ---------------------------------------------------------------------------
  // Ancestry: `_iter_ancestors` and `_get_root`.
  // ---------------------------------------------------------------------------

  /** Parent links between pull requests; a parent was created, and numbered, before its child. */
  predicate ParentsOlder(parents: map<nat, nat>)
  {
    forall k :: k in parents ==> parents[k] < k
  }

  /** `_iter_ancestors`: the pull request itself, then its parent, grand-parent, ... up to the root. */
  function Ancestors(parents: map<nat, nat>, pr: nat): (r: seq<nat>)
    requires ParentsOlder(parents)
    ensures r != [] && r[0] == pr && r[|r| - 1] !in parents
    ensures forall i :: 0 <= i < |r| - 1 ==> r[i] in parents && parents[r[i]] == r[i + 1]
    decreases pr
  {
    if pr in parents then [pr] + Ancestors(parents, parents[pr]) else [pr]
  }

  /** Every ancestor is older than its descendants, so the walk never revisits a pull request. */
  lemma {:induction false} AncestorsOlder(parents: map<nat, nat>, pr: nat)
    requires ParentsOlder(parents)
    ensures forall i, j :: 0 <= i < j < |Ancestors(parents, pr)| ==> Ancestors(parents, pr)[j] < Ancestors(parents, pr)[i]
    decreases pr
  {
    if pr in parents {
      var rest := Ancestors(parents, parents[pr]);
      AncestorsOlder(parents, parents[pr]);
      assert forall i', j' :: 0 <= i' < j' < |rest| ==> rest[j'] < rest[i'];
      var r := Ancestors(parents, pr);
      assert r == [pr] + rest;
      forall i, j | 0 <= i < j < |r|
        ensures r[j] < r[i]
      {
        if i == 0 {
          assert r[j] == rest[j - 1];
          assert rest[0] == parents[pr] < pr;
          if j > 1 {
            assert rest[j - 1] < rest[0];
          }
        }
      }
    }
  }

  /** `_get_root`: follows parent links while there is one. */
  method GetRoot(parents: map<nat, nat>, pr: nat) returns (root: nat)
    requires ParentsOlder(parents)
    ensures root !in parents
    ensures root == Ancestors(parents, pr)[|Ancestors(parents, pr)| - 1]
  {
    root := pr;
    while root in parents
      invariant Ancestors(parents, root)[|Ancestors(parents, root)| - 1] == Ancestors(parents, pr)[|Ancestors(parents, pr)| - 1]
      decreases root
    {
      root := parents[root];
    }
  }

  // ---------------------------------------------------------------------------
  // Rewriting a project's branch list (`Project.write`): the forward-port order
  // before and after, as branch ids.
  // ---------------------------------------------------------------------------

  datatype BranchChange =
    | Unchanged
    | Appended
    | Inserted(before: seq<nat>, inserted: nat, after: seq<nat>)

  datatype WriteError =
    | ReorderedOrRemoved   // "Branches can not be reordered or removed after saving."
    | MultipleInserted     // "Inserting multiple branches at the same time is not supported"
    | NothingBefore        // `before[-1]` on an empty record set: an insertion in first position raises

  /** How many of `xs` were not in the prev list. */
  function CountNew(xs: seq<nat>, prev: seq<nat>): nat
  {
    if xs == [] then 0 else CountNew(xs[..|xs| - 1], prev) + (if xs[|xs| - 1] in prev then 0 else 1)
  }

  function Glue(b: seq<nat>, n: Option<nat>, a: seq<nat>): seq<nat>
  {
    b + (if n.Some? then [n.value] else []) + a
  }

  /**
   * The loop splitting the new order into the branches before the inserted one, the inserted
   * one, and those after it; a second new branch fails.
   */
  function Partition(xs: seq<nat>, prev: seq<nat>): (r: Result<(seq<nat>, Option<nat>, seq<nat>), WriteError>)
    ensures r.Failure? <==> CountNew(xs, prev) >= 2
    ensures r.Failure? ==> r.error == MultipleInserted
    ensures r.Success? ==> Glue(r.value.0, r.value.1, r.value.2) == xs
    ensures r.Success? ==> (r.value.1.Some? <==> CountNew(xs, prev) == 1)
    ensures r.Success? && r.value.1.Some? ==> r.value.1.value !in prev
    ensures r.Success? ==> forall y :: y in r.value.0 || y in r.value.2 ==> y in prev
    ensures r.Success? && r.value.1.None? ==> r.value.2 == []
  {
    if xs == [] then Success(([], None, []))
    else
      var x := xs[|xs| - 1];
      assert xs == xs[..|xs| - 1] + [x];
      match Partition(xs[..|xs| - 1], prev)
        case Failure(e) => Failure(e)
        case Success((b, n, a)) =>
          if x in prev then
            if n.Some? then Success((b, n, a + [x])) else Success((b + [x], n, a))
          else if n.Some? then Failure(MultipleInserted)
          else Success((b, Some(x), a))
  }

  /** The classification `Project.write` makes of a change to the forward-port order. */
  function Classify(before: seq<nat>, after: seq<nat>): Result<BranchChange, WriteError>
  {
    if after == before then Success(Unchanged)
    else if after != [] && after[..|after| - 1] == before then Success(Appended)
    else if forall x :: x in after ==> x in before then Failure(ReorderedOrRemoved)
    else match Partition(after, before)
      case Failure(e) => Failure(e)
      case Success((_, None, _)) => Failure(ReorderedOrRemoved)
      case Success((b, Some(n), a)) =>
        if b == [] then Failure(NothingBefore) else Success(Inserted(b, n, a))
  }

  /** The partitioning loop of `Project.write`, over the new order. */
  method PartitionBranches(after: seq<nat>, before: seq<nat>) returns (r: Result<(seq<nat>, Option<nat>, seq<nat>), WriteError>)
    ensures r == Partition(after, before)
  {
    var b: seq<nat> := [];
    var n: Option<nat> := None;
    var a: seq<nat> := [];
    var i := 0;
    while i < |after|
      invariant 0 <= i <= |after|
      invariant Partition(after[..i], before) == Success((b, n, a))
    {
      var x := after[i];
      assert after[..i + 1][..i] == after[..i];
      if x in before {
        if n.Some? {
          a := a + [x];
        } else {
          b := b + [x];
        }
      } else if n.Some? {
        assert after[..i + 1] == after[..i + 1];
        PartitionFailurePersists(after, before, i + 1);
        return Failure(MultipleInserted);
      } else {
        n := Some(x);
      }
      i := i + 1;
    }
    assert after[..|after|] == after;
    r := Success((b, n, a));
  }

  /** Once two new branches have been seen, the rest of the list cannot save the partition. */
  lemma {:induction false} PartitionFailurePersists(xs: seq<nat>, prev: seq<nat>, k: nat)
    requires k <= |xs| && Partition(xs[..k], prev).Failure?
    ensures Partition(xs, prev) == Failure(MultipleInserted)
    decreases |xs| - k
  {
    if k < |xs| {
      assert xs[..k + 1][..k] == xs[..k];
      PartitionFailurePersists(xs, prev, k + 1);
    } else {
      assert xs[..k] == xs;
    }
  }

  /** `Project.write`'s check of a branch-list update. */
  method CheckBranchUpdate(before: seq<nat>, after: seq<nat>) returns (r: Result<BranchChange, WriteError>)
    ensures r == Classify(before, after)
  {
    if after == before {
      return Success(Unchanged);
    }
    if after != [] && after[..|after| - 1] == before {
      return Success(Appended);
    }
    if forall x :: x in after ==> x in before {
      return Failure(ReorderedOrRemoved);
    }
    var p := PartitionBranches(after, before);
    match p
    case Failure(e) =>
      r := Failure(e);
    case Success((b, n, a)) =>
      if n.None? {
        r := Failure(ReorderedOrRemoved);
      } else if b == [] {
        r := Failure(NothingBefore);
      } else {
        r := Success(Inserted(b, n.value, a));
      }
  }

  /** A branch added at the end of the order is accepted as is. */
  lemma AppendAccepted(before: seq<nat>, x: nat)
    ensures Classify(before, before + [x]) == Success(Appended)
  {
    assert (before + [x])[..|before|] == before;
  }

  /** Reordering the same branches is refused. */
  lemma ReorderRefused(before: seq<nat>, after: seq<nat>)
    requires multiset(after) == multiset(before) && after != before
    ensures Classify(before, after) == Failure(ReorderedOrRemoved)
  {
    assert |after| == |before| by {
      assert |multiset(after)| == |multiset(before)|;
    }
    forall x | x in after
      ensures x in before
    {
      assert x in multiset(after);
    }
  }

  /** Dropping branches, with or without reordering the rest, is refused. */
  lemma RemovalRefused(before: seq<nat>, after: seq<nat>)
    requires after != before && |after| <= |before|
    requires forall x :: x in after ==> x in before
    ensures Classify(before, after) == Failure(ReorderedOrRemoved)
  {
  }

  /** Adding two or more new branches in one write is refused. */
  lemma TwoNewRefused(before: seq<nat>, after: seq<nat>)
    requires CountNew(after, before) >= 2
    ensures Classify(before, after) == Failure(MultipleInserted)
  {
    if forall x :: x in after ==> x in before {
      CountNewOfOld(after, before);
    }
    if after != [] && after[..|after| - 1] == before {
      CountNewOfOld(before, before);
    }
    if after == before {
      CountNewOfOld(before, before);
    }
  }

  /** A list of old branches has no new branch in it. */
  lemma {:induction false} CountNewOfOld(xs: seq<nat>, prev: seq<nat>)
    requires forall x :: x in xs ==> x in prev
    ensures CountNew(xs, prev) == 0
  {
    if xs != [] {
      CountNewOfOld(xs[..|xs| - 1], prev);
    }
  }

  lemma {:induction false} PartitionAllOld(p: seq<nat>, prev: seq<nat>)
    requires forall y :: y in p ==> y in prev
    ensures Partition(p, prev) == Success((p, None, []))
  {
    if p != [] {
      var q := p[..|p| - 1];
      assert p == q + [p[|p| - 1]];
      PartitionAllOld(q, prev);
    }
  }

  lemma {:induction false} PartitionTail(p: seq<nat>, x: nat, q: seq<nat>, prev: seq<nat>)
    requires forall y :: y in p ==> y in prev
    requires x !in prev
    requires forall y :: y in q ==> y in prev
    ensures Partition(p + [x] + q, prev) == Success((p, Some(x), q))
  {
    if q == [] {
      PartitionAllOld(p, prev);
      assert (p + [x] + q)[..|p + [x] + q| - 1] == p;
    } else {
      var q' := q[..|q| - 1];
      PartitionTail(p, x, q', prev);
      assert (p + [x] + q)[..|p + [x] + q| - 1] == p + [x] + q';
      assert q' + [q[|q| - 1]] == q;
    }
  }

  /**
   * One branch inserted between existing ones, the others kept in order, is accepted and
   * split around the insertion point.
   */
  lemma InsertionAccepted(b: seq<nat>, x: nat, a: seq<nat>)
    requires b != [] && a != [] && x !in b && x !in a
    ensures Classify(b + a, b + [x] + a) == Success(Inserted(b, x, a))
  {
    var before := b + a;
    var after := b + [x] + a;
    assert after[..|after| - 1] != before by {
      assert after[..|after| - 1][|b|] == x;
      assert before[|b|] == a[0] != x;
    }
    assert after != before by {
      assert |after| != |before|;
    }
    assert x in after && x !in before;
    PartitionTail(b, x, a, before);
  }

  /** An insertion in first position fails on the missing branch before it. */
  lemma InsertionFirstFails(x: nat, a: seq<nat>)
    requires a != [] && x !in a
    ensures Classify(a, [x] + a) == Failure(NothingBefore)
  {
    assert [x] + a == [] + [x] + a;
    PartitionTail([], x, a, a);
    assert ([x] + a)[..|a|] != a by {
      assert ([x] + a)[..|a|][0] == x;
    }
    assert x in [x] + a;
  }

  /**
   * A new order holding one new branch, with old branches on both sides of
   * it, is taken for a plain insertion of that branch, whatever old branches
   * were removed or moved around it: `write` never compares the two sides
   * with the old order.
   */
  lemma RemovalWithInsertionAccepted(before: seq<nat>, b: seq<nat>, x: nat, a: seq<nat>)
    requires b != [] && a != [] && x !in before
    requires forall y :: y in b || y in a ==> y in before
    ensures Classify(before, b + [x] + a) == Success(Inserted(b, x, a))
  {
    var after := b + [x] + a;
    assert after[|b|] == x;
    assert after[..|after| - 1] != before by {
      assert after[..|after| - 1][|b|] == x;
    }
    PartitionTail(b, x, a, before);
  }
}
