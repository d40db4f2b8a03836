// The freeze wizard of the merge bot: its validation, the freeze itself
// (resequencing of the project's branches, retargeting of the release pull
// requests, creation of the new branch on every repository), the write guard
// of release rows, and the colour of a pull request state
// (runbot_merge/models/project_freeze/__init__.py).
module Freeze {
  import opened Wrappers
  import opened Text

  datatype PrState = Opened | Closed | Validated | Approved | Ready | Merged | Error

  /** A pull request as the freeze sees it; `target` is a branch id. */
  datatype PullRequest = PullRequest(repository: nat, headLabel: String, state: PrState, target: nat, priority: int)

  /** A release row of the wizard: the repository and its release pull request, if chosen. */
  datatype ReleaseRow = ReleaseRow(wizard: nat, repository: nat, repositoryName: String, pr: Option<nat>)

  /** The wizard: release rows, required pull requests (ids), name of the branch to create. */
  datatype Wizard = Wizard(rows: seq<ReleaseRow>, required: seq<nat>, branchName: String)

  datatype FreezeError =
    | MissingReleasePrs(repositories: seq<String>)   // rows without a pull request
    | LabelMismatch(labels: set<String>)             // not exactly one label among the release PRs
    | Unready(count: nat)                            // required PRs neither closed nor merged

  /** Every pull request the wizard refers to exists. */
  predicate Known(w: Wizard, prs: map<nat, PullRequest>)
  {
    (forall i :: 0 <= i < |w.rows| && w.rows[i].pr.Some? ==> w.rows[i].pr.value in prs)
    && forall i :: 0 <= i < |w.required| ==> w.required[i] in prs
  }

  /** Names of the repositories whose row has no pull request, in row order. */
  function MissingNames(rows: seq<ReleaseRow>): (r: seq<String>)
    ensures |r| <= |rows|
    ensures r == [] <==> forall i :: 0 <= i < |rows| ==> rows[i].pr.Some?
    ensures forall n :: n in r ==> exists i :: 0 <= i < |rows| && rows[i].pr.None? && rows[i].repositoryName == n
    ensures forall i :: 0 <= i < |rows| && rows[i].pr.None? ==> rows[i].repositoryName in r
  {
    if rows == [] then []
    else
      var tail := MissingNames(rows[1..]);
      assert forall n :: n in tail ==> exists i :: 0 <= i < |rows| && rows[i].pr.None? && rows[i].repositoryName == n by {
        forall n | n in tail
          ensures exists i :: 0 <= i < |rows| && rows[i].pr.None? && rows[i].repositoryName == n
        {
          var j :| 0 <= j < |rows[1..]| && rows[1..][j].pr.None? && rows[1..][j].repositoryName == n;
          assert rows[j + 1] == rows[1..][j];
        }
      }
      assert forall i :: 1 <= i < |rows| ==> rows[i] == rows[1..][i - 1];
      (if rows[0].pr.None? then [rows[0].repositoryName] else []) + tail
  }

  /** The set of labels of the release pull requests. */
  function Labels(rows: seq<ReleaseRow>, prs: map<nat, PullRequest>): set<String>
  {
    set i | 0 <= i < |rows| && rows[i].pr.Some? && rows[i].pr.value in prs :: prs[rows[i].pr.value].headLabel
  }

  predicate Done(s: PrState) { s == Closed || s == Merged }

  /** How many required pull requests are neither closed nor merged. */
  function UnreadyCount(required: seq<nat>, prs: map<nat, PullRequest>): (n: nat)
    requires forall i :: 0 <= i < |required| ==> required[i] in prs
    ensures n <= |required|
    ensures n == 0 <==> forall i :: 0 <= i < |required| ==> Done(prs[required[i]].state)
  {
    if required == [] then 0
    else
      assert forall i :: 1 <= i < |required| ==> required[i] == required[1..][i - 1];
      (if Done(prs[required[0]].state) then 0 else 1) + UnreadyCount(required[1..], prs)
  }

  /** `_compute_errors`: the errors in the order the wizard lists them. */
  function Errors(w: Wizard, prs: map<nat, PullRequest>): (r: seq<FreezeError>)
    requires Known(w, prs)
    ensures |r| <= 3
    ensures MissingReleasePrs(MissingNames(w.rows)) in r <==> exists i :: 0 <= i < |w.rows| && w.rows[i].pr.None?
    ensures LabelMismatch(Labels(w.rows, prs)) in r <==> |Labels(w.rows, prs)| != 1
    ensures Unready(UnreadyCount(w.required, prs)) in r <==>
      exists i :: 0 <= i < |w.required| && !Done(prs[w.required[i]].state)
    ensures forall e :: e in r ==>
      e == MissingReleasePrs(MissingNames(w.rows)) || e == LabelMismatch(Labels(w.rows, prs))
      || e == Unready(UnreadyCount(w.required, prs))
  {
    ErrorList(MissingNames(w.rows), Labels(w.rows, prs), UnreadyCount(w.required, prs))
  }

  /** The three rules of `_compute_errors`, each appending its error when it fires. */
  function ErrorList(missing: seq<String>, labels: set<String>, unready: nat): (r: seq<FreezeError>)
    ensures |r| <= 3
    ensures MissingReleasePrs(missing) in r <==> missing != []
    ensures LabelMismatch(labels) in r <==> |labels| != 1
    ensures Unready(unready) in r <==> unready > 0
    ensures forall e :: e in r ==> e == MissingReleasePrs(missing) || e == LabelMismatch(labels) || e == Unready(unready)
  {
    (if missing != [] then [MissingReleasePrs(missing)] else [])
    + (if |labels| != 1 then [LabelMismatch(labels)] else [])
    + (if unready > 0 then [Unready(unready)] else [])
  }

  /** A wizard with a pull request on every row, one shared label and every required PR done has no error. */
  lemma ReadyWizardHasNoErrors(w: Wizard, prs: map<nat, PullRequest>, common: String)
    requires Known(w, prs) && w.rows != []
    requires forall i :: 0 <= i < |w.rows| ==> w.rows[i].pr.Some? && prs[w.rows[i].pr.value].headLabel == common
    requires forall i :: 0 <= i < |w.required| ==> Done(prs[w.required[i]].state)
    ensures Errors(w, prs) == []
  {
    assert Labels(w.rows, prs) == {common} by {
      assert prs[w.rows[0].pr.value].headLabel in Labels(w.rows, prs);
    }
  }

  /** With no release row, the label rule always fires. */
  lemma NoRowsMismatchLabels(w: Wizard, prs: map<nat, PullRequest>)
    requires Known(w, prs) && w.rows == []
    ensures LabelMismatch({}) in Errors(w, prs)
  {
    assert Labels(w.rows, prs) == {};
  }

  // ------------------------------------------------------------ the freeze

  datatype Branch = Branch(id: nat, name: String, sequence: int)

  /** What the freeze reports when the new branch can not be made. */
  datatype FreezeMessage =
    | Unresolved(master: String, repository: String)              // the base branch did not resolve
    | NotCreated(master: String, repository: String, reason: String)
    | NotDeleted(branch: String, repository: String)               // clean-up of an already created branch failed

  datatype FreezeOutcome =
    | Reopened                                                   // errors remain: the wizard is shown again
    | NoBranch                                                   // the project has no branch (IndexError)
    | Failed(messages: seq<FreezeMessage>, deletions: seq<nat>)  // UserError after the clean-up attempts
    | Frozen(newBranch: nat)

  /**
   * The rest of the branches numbered from `from` on, in their order.
   */
  function Renumbered(rest: seq<Branch>, from: int): (r: seq<Branch>)
    ensures |r| == |rest|
    ensures forall k :: 0 <= k < |rest| ==> r[k] == rest[k].(sequence := from + k)
  {
    if rest == [] then [] else [rest[0].(sequence := from)] + Renumbered(rest[1..], from + 1)
  }

  /** The branches after the freeze: the first branch, the new one, then the others. */
  function Resequenced(branches: seq<Branch>, name: String, newId: nat): (r: seq<Branch>)
    requires branches != []
  {
    [branches[0].(sequence := 1), Branch(newId, name, 2)] + Renumbered(branches[1..], 3)
  }

  /** Resequencing numbers the branches 1, 2, 3, … in their new order and keeps every other field. */
  lemma ResequencedNumbering(branches: seq<Branch>, name: String, newId: nat)
    requires branches != []
    ensures var r := Resequenced(branches, name, newId);
      |r| == |branches| + 1
      && (forall i :: 0 <= i < |r| ==> r[i].sequence == i + 1)
      && r[0].id == branches[0].id && r[0].name == branches[0].name
      && r[1] == Branch(newId, name, 2)
      && forall k :: 1 <= k < |branches| ==> r[k + 1].id == branches[k].id && r[k + 1].name == branches[k].name
  {
    var r := Resequenced(branches, name, newId);
    var tail := Renumbered(branches[1..], 3);
    assert forall k :: 0 <= k < |tail| ==> r[k + 2] == tail[k];
    assert forall k :: 1 <= k < |branches| ==> branches[1..][k - 1] == branches[k];
  }

  /** Ids of the release pull requests. */
  function ReleasePrIds(w: Wizard): set<nat>
  {
    set i | 0 <= i < |w.rows| && w.rows[i].pr.Some? :: w.rows[i].pr.value
  }

  /** The release pull requests retargeted to the new branch with priority 0. */
  function Retargeted(prs: map<nat, PullRequest>, ids: set<nat>, target: nat): (r: map<nat, PullRequest>)
    ensures r.Keys == prs.Keys
    ensures forall id :: id in ids && id in prs ==>
      (r[id].target == target && r[id].priority == 0
       && r[id].repository == prs[id].repository && r[id].headLabel == prs[id].headLabel && r[id].state == prs[id].state)
    ensures forall id :: id in prs && id !in ids ==> r[id] == prs[id]
  {
    map id | id in prs :: if id in ids then prs[id].(target := target, priority := 0) else prs[id]
  }

  /**
   * The first row on which the branch can not be made, with its message:
   * `resolve(r)` tells whether the base branch resolves on repository `r`,
   * `create(r)` is the error GitHub returns when creating the branch there.
   */
  function CreationFailure(rows: seq<ReleaseRow>, master: String,
                           resolve: nat -> bool, create: nat -> Option<String>): (r: Option<(nat, FreezeMessage)>)
    ensures r.Some? ==> r.value.0 < |rows|
    ensures r.Some? ==> var k := r.value.0;
      (!resolve(rows[k].repository) || create(rows[k].repository).Some?)
      && forall j :: 0 <= j < k ==> resolve(rows[j].repository) && create(rows[j].repository).None?
    ensures r.None? <==> forall j :: 0 <= j < |rows| ==> resolve(rows[j].repository) && create(rows[j].repository).None?
    decreases |rows|
  {
    if rows == [] then None
    else
      var n := |rows| - 1;
      var earlier := CreationFailure(rows[..n], master, resolve, create);
      assert forall j :: 0 <= j < n ==> rows[..n][j] == rows[j];
      if earlier.Some? then earlier
      else if !resolve(rows[n].repository) then Some((n, Unresolved(master, rows[n].repositoryName)))
      else if create(rows[n].repository).Some? then
        Some((n, NotCreated(master, rows[n].repositoryName, create(rows[n].repository).value)))
      else None
  }

  /**
   * The clean-up after a failure on repository `failed`: every row before the
   * first row of that repository gets its new branch deleted; `deleteOk(r)`
   * tells whether that worked. Returns the repositories attempted and the
   * messages of the failed deletions.
   */
  function Cleanup(rows: seq<ReleaseRow>, failed: nat, branch: String, deleteOk: nat -> bool): (r: (seq<nat>, seq<FreezeMessage>))
    ensures |r.0| <= |rows| && |r.1| <= |r.0|
    ensures forall x :: x in r.0 ==> x != failed
  {
    if rows == [] || rows[0].repository == failed then ([], [])
    else
      var rest := Cleanup(rows[1..], failed, branch, deleteOk);
      ([rows[0].repository] + rest.0,
       (if deleteOk(rows[0].repository) then [] else [NotDeleted(branch, rows[0].repositoryName)]) + rest.1)
  }

  function Repositories(rows: seq<ReleaseRow>): (r: seq<nat>)
    ensures |r| == |rows| && forall j :: 0 <= j < |rows| ==> r[j] == rows[j].repository
  {
    if rows == [] then [] else [rows[0].repository] + Repositories(rows[1..])
  }

  /** The clean-up deletes the new branch exactly on the repositories of the rows before the failing one. */
  lemma {:induction false} CleanupAttemptsEarlierRows(rows: seq<ReleaseRow>, k: nat, branch: String, deleteOk: nat -> bool)
    requires k < |rows| && forall j :: 0 <= j < k ==> rows[j].repository != rows[k].repository
    ensures Cleanup(rows, rows[k].repository, branch, deleteOk).0 == Repositories(rows[..k])
    decreases k
  {
    if k > 0 {
      CleanupAttemptsEarlierRows(rows[1..], k - 1, branch, deleteOk);
      assert rows[1..][k - 1] == rows[k];
      assert rows[0].repository != rows[k].repository;
      assert rows[1..][..k - 1] == rows[..k][1..];
      assert Repositories(rows[..k]) == [rows[0].repository] + Repositories(rows[..k][1..]);
    } else {
      assert Repositories(rows[..k]) == [];
    }
  }

  /** How `action_freeze` as written stops when a repository fails. */
  datatype FreezeRaise =
    | HttpError                               // the GET of the base branch raised: the client checks by default
    | NoDeleteMethod                          // the clean-up called `delete`, which the GitHub client lacks
    | Reported(messages: seq<FreezeMessage>)  // the UserError, with no earlier row to clean up

  datatype AsWrittenFreeze =
    | AllCreated
    | Raised(error: FreezeRaise, leftBehind: seq<nat>)

  /**
   * The creation and clean-up of `action_freeze` as the source writes them,
   * with `repository.github()` the client of runbot_merge/github.py: the GET
   * of the base branch raises on any error status, so `prev.ok` is never
   * false, and the clean-up's first deletion raises because the client has no
   * `delete`. `leftBehind` are the repositories whose new branch stays.
   */
  function FreezeAsWritten(rows: seq<ReleaseRow>, master: String,
                           resolve: nat -> bool, create: nat -> Option<String>): (r: AsWrittenFreeze)
    ensures r.AllCreated? <==> CreationFailure(rows, master, resolve, create).None?
    ensures r.Raised? ==> r.leftBehind == Repositories(rows[..CreationFailure(rows, master, resolve, create).value.0])
    ensures r.Raised? && r.error.Reported? ==> r.error.messages == [CreationFailure(rows, master, resolve, create).value.1]
  {
    var failure := CreationFailure(rows, master, resolve, create);
    if failure.None? then AllCreated
    else
      var k := failure.value.0;
      var failed := rows[k].repository;
      var created := Repositories(rows[..k]);
      if !resolve(failed) then Raised(HttpError, created)
      else if rows[0].repository != failed then Raised(NoDeleteMethod, created)
      else Raised(Reported([failure.value.1]), created)
  }

  /**
   * Whenever creation fails after other repositories got the branch, the
   * source as written leaves behind exactly the branches the clean-up was
   * meant to delete.
   */
  lemma AsWrittenLeavesWhatCleanupDeletes(rows: seq<ReleaseRow>, master: String, resolve: nat -> bool,
                                          create: nat -> Option<String>, branch: String, deleteOk: nat -> bool)
    requires CreationFailure(rows, master, resolve, create).Some?
    requires var k := CreationFailure(rows, master, resolve, create).value.0;
      forall j :: 0 <= j < k ==> rows[j].repository != rows[k].repository
    ensures var k := CreationFailure(rows, master, resolve, create).value.0;
      FreezeAsWritten(rows, master, resolve, create).leftBehind == Cleanup(rows, rows[k].repository, branch, deleteOk).0
  {
    var k := CreationFailure(rows, master, resolve, create).value.0;
    CleanupAttemptsEarlierRows(rows, k, branch, deleteOk);
  }

  /** Two repositories, the base branch not resolving on the second: as written the first keeps its new branch. */
  lemma GetFailureEscapesAsWritten(resolve: nat -> bool, create: nat -> Option<String>, deleteOk: nat -> bool)
    requires resolve(1) && create(1).None? && !resolve(2)
    ensures var rows := [ReleaseRow(0, 1, "a", Some(10)), ReleaseRow(0, 2, "b", Some(11))];
      FreezeAsWritten(rows, "m", resolve, create) == Raised(HttpError, [1])
      && CreationFailure(rows, "m", resolve, create) == Some((1, Unresolved("m", "b")))
      && Cleanup(rows, 2, "x", deleteOk).0 == [1]
  {
    var rows := [ReleaseRow(0, 1, "a", Some(10)), ReleaseRow(0, 2, "b", Some(11))];
    assert rows[..1] == [rows[0]] && rows[..2] == rows;
    assert rows[..1][..0] == [];
    assert Repositories(rows[..1]) == [1];
    assert rows[1..][1..] == [];
  }

  /** Two repositories, creation failing on the second: as written the clean-up raises and the first keeps its branch. */
  lemma CleanupRaisesAsWritten(resolve: nat -> bool, create: nat -> Option<String>, deleteOk: nat -> bool)
    requires resolve(1) && create(1).None? && resolve(2) && create(2).Some?
    ensures var rows := [ReleaseRow(0, 1, "a", Some(10)), ReleaseRow(0, 2, "b", Some(11))];
      FreezeAsWritten(rows, "m", resolve, create) == Raised(NoDeleteMethod, [1])
      && Cleanup(rows, 2, "x", deleteOk).0 == [1]
  {
    var rows := [ReleaseRow(0, 1, "a", Some(10)), ReleaseRow(0, 2, "b", Some(11))];
    assert rows[..1] == [rows[0]] && rows[..2] == rows;
    assert rows[..1][..0] == [];
    assert Repositories(rows[..1]) == [1];
    assert rows[1..][1..] == [];
  }

  class Project {
    var branches: seq<Branch>
    var prs: map<nat, PullRequest>
    var nextBranchId: nat

    /** Branch ids are below the next id to hand out. */
    predicate Valid()
      reads this
    {
      forall i :: 0 <= i < |branches| ==> branches[i].id < nextBranchId
    }

    constructor (branches: seq<Branch>, prs: map<nat, PullRequest>)
      ensures this.branches == branches && this.prs == prs
      ensures Valid()
    {
      this.branches := branches;
      this.prs := prs;
      var top: nat := 0;
      var i := 0;
      while i < |branches|
        invariant 0 <= i <= |branches|
        invariant forall j :: 0 <= j < i ==> branches[j].id < top
      {
        if branches[i].id >= top {
          top := branches[i].id + 1;
        }
        i := i + 1;
      }
      this.nextBranchId := top;
    }

    /**
     * `action_freeze` as it is evidently meant to work (see `FreezeAsWritten`
     * for the text as written). A raised error rolls the transaction back, so
     * every outcome but `Frozen` leaves the project as it was; a base branch
     * that does not resolve is reported, and branches already created on
     * GitHub are deleted again, up to the failing repository.
     */
    method ActionFreeze(w: Wizard, resolve: nat -> bool, create: nat -> Option<String>, deleteOk: nat -> bool)
      returns (outcome: FreezeOutcome)
      requires Valid() && Known(w, prs)
      modifies this
      ensures Valid()
      ensures Errors(w, old(prs)) != [] ==> outcome == Reopened
      ensures Errors(w, old(prs)) == [] && old(branches) == [] ==> outcome == NoBranch
      ensures Errors(w, old(prs)) == [] && old(branches) != [] ==>
        var failure := CreationFailure(w.rows, old(branches)[0].name, resolve, create);
        if failure.Some? then
          var cleanup := Cleanup(w.rows, w.rows[failure.value.0].repository, w.branchName, deleteOk);
          outcome == Failed([failure.value.1] + cleanup.1, cleanup.0)
        else
          outcome == Frozen(old(nextBranchId))
      ensures outcome.Frozen? ==>
        branches == Resequenced(old(branches), w.branchName, old(nextBranchId))
        && prs == Retargeted(old(prs), ReleasePrIds(w), old(nextBranchId))
        && nextBranchId == old(nextBranchId) + 1
      ensures !outcome.Frozen? ==> branches == old(branches) && prs == old(prs) && nextBranchId == old(nextBranchId)
    {
      if Errors(w, prs) != [] {
        return Reopened;
      }
      if branches == [] {
        return NoBranch;
      }
      var master := branches[0];
      var newId := nextBranchId;
      var newBranches := Resequenced(branches, w.branchName, newId);
      var newPrs := Retargeted(prs, ReleasePrIds(w), newId);

      var failure := FindCreationFailure(w.rows, master.name, resolve, create);
      if failure.Some? {
        var deletions, messages := CleanUp(w.rows, w.rows[failure.value.0].repository, w.branchName, deleteOk);
        return Failed([failure.value.1] + messages, deletions);
      }

      branches := newBranches;
      prs := newPrs;
      nextBranchId := newId + 1;
      outcome := Frozen(newId);
    }
  }

  /** Once a prefix of the rows fails, the whole creation fails at the same row. */
  lemma {:induction false} CreationFailurePersists(rows: seq<ReleaseRow>, k: nat, master: String,
                                                   resolve: nat -> bool, create: nat -> Option<String>)
    requires k <= |rows| && CreationFailure(rows[..k], master, resolve, create).Some?
    ensures CreationFailure(rows, master, resolve, create) == CreationFailure(rows[..k], master, resolve, create)
    decreases |rows| - k
  {
    if k < |rows| {
      assert rows[..k + 1][..k] == rows[..k];
      CreationFailurePersists(rows, k + 1, master, resolve, create);
    } else {
      assert rows[..k] == rows;
    }
  }

  /** The creation loop of `action_freeze`: the first row where the branch can not be made. */
  method FindCreationFailure(rows: seq<ReleaseRow>, master: String, resolve: nat -> bool, create: nat -> Option<String>)
    returns (failure: Option<(nat, FreezeMessage)>)
    ensures failure == CreationFailure(rows, master, resolve, create)
  {
    var i := 0;
    while i < |rows|
      invariant 0 <= i <= |rows|
      invariant CreationFailure(rows[..i], master, resolve, create).None?
    {
      assert rows[..i + 1][..i] == rows[..i];
      var repository := rows[i].repository;
      if !resolve(repository) {
        failure := Some((i, Unresolved(master, rows[i].repositoryName)));
        CreationFailurePersists(rows, i + 1, master, resolve, create);
        return;
      }
      var err := create(repository);
      if err.Some? {
        failure := Some((i, NotCreated(master, rows[i].repositoryName, err.value)));
        CreationFailurePersists(rows, i + 1, master, resolve, create);
        return;
      }
      i := i + 1;
    }
    assert rows[..i] == rows;
    failure := None;
  }

  /** One row of the clean-up loop: deleting the first row left moves it from what is left to what was done. */
  lemma CleanupStep(left: seq<ReleaseRow>, failed: nat, branch: String, deleteOk: nat -> bool,
                    deletions: seq<nat>, messages: seq<FreezeMessage>)
    requires left != [] && left[0].repository != failed
    ensures var rest := Cleanup(left[1..], failed, branch, deleteOk);
      var step := if deleteOk(left[0].repository) then [] else [NotDeleted(branch, left[0].repositoryName)];
      deletions + Cleanup(left, failed, branch, deleteOk).0 == (deletions + [left[0].repository]) + rest.0
      && messages + Cleanup(left, failed, branch, deleteOk).1 == (messages + step) + rest.1
  {
    var rest := Cleanup(left[1..], failed, branch, deleteOk);
    var step := if deleteOk(left[0].repository) then [] else [NotDeleted(branch, left[0].repositoryName)];
    AppendAssoc(deletions, [left[0].repository], rest.0);
    AppendAssoc(messages, step, rest.1);
  }

  /** The clean-up loop of `action_freeze`. */
  method CleanUp(rows: seq<ReleaseRow>, failed: nat, branch: String, deleteOk: nat -> bool)
    returns (deletions: seq<nat>, messages: seq<FreezeMessage>)
    ensures deletions == Cleanup(rows, failed, branch, deleteOk).0
    ensures messages == Cleanup(rows, failed, branch, deleteOk).1
  {
    ghost var total := Cleanup(rows, failed, branch, deleteOk);
    deletions := [];
    messages := [];
    var left := rows;
    AppendEmpty(total.0);
    AppendEmpty(total.1);
    while left != [] && left[0].repository != failed
      invariant total.0 == deletions + Cleanup(left, failed, branch, deleteOk).0
      invariant total.1 == messages + Cleanup(left, failed, branch, deleteOk).1
    {
      CleanupStep(left, failed, branch, deleteOk, deletions, messages);
      var row := left[0];
      var step := if deleteOk(row.repository) then [] else [NotDeleted(branch, row.repositoryName)];
      deletions := deletions + [row.repository];
      messages := messages + step;
      left := left[1..];
    }
    AppendEmpty(deletions);
    AppendEmpty(messages);
  }

  // ------------------------------------------------------------ release rows

  /** The values written to a release row; `pr == Some(None)` clears the pull request. */
  datatype RowValues = RowValues(wizard: Option<nat>, repository: Option<nat>, pr: Option<Option<nat>>)

  /**
   * `ReleasePullRequest.write` on one row: the wizard and the repository can
   * not be written, and a pull request written must exist and belong to the
   * row's repository (clearing it compares an empty repository: refused too).
   */
  function WriteRow(row: ReleaseRow, vals: RowValues, prs: map<nat, PullRequest>): (r: Result<ReleaseRow, ()>)
    ensures r.Success? ==> r.value.wizard == row.wizard && r.value.repository == row.repository
    ensures r.Success? && vals.pr.Some? ==> r.value.pr == vals.pr.value
    ensures r.Success? && vals.pr.None? ==> r.value == row
    ensures vals.wizard.Some? || vals.repository.Some? ==> r.Failure?
  {
    if vals.wizard.Some? || vals.repository.Some? then Failure(())
    else if vals.pr.None? then Success(row)
    else if vals.pr.value.None? then Failure(())
    else if vals.pr.value.value !in prs || prs[vals.pr.value.value].repository != row.repository then Failure(())
    else Success(row.(pr := vals.pr.value))
  }

  /** A row whose pull request belongs to its repository. */
  predicate Consistent(row: ReleaseRow, prs: map<nat, PullRequest>)
  {
    row.pr.Some? ==> row.pr.value in prs && prs[row.pr.value].repository == row.repository
  }

  /** Writes keep rows consistent. */
  lemma WriteRowKeepsConsistent(row: ReleaseRow, vals: RowValues, prs: map<nat, PullRequest>)
    requires Consistent(row, prs) && WriteRow(row, vals, prs).Success?
    ensures Consistent(WriteRow(row, vals, prs).value, prs)
  {
  }

  /** Setting a pull request of another repository is refused. */
  lemma WriteRowRefusesForeignPr(row: ReleaseRow, pr: nat, prs: map<nat, PullRequest>)
    requires pr in prs && prs[pr].repository != row.repository
    ensures WriteRow(row, RowValues(None, None, Some(Some(pr))), prs).Failure?
  {
  }

  // ------------------------------------------------------------ colours

  const No := 0
  const Red := 1
  const Orange := 2
  const LightBlue := 4
  const Green := 10

  /** `STATE_COLORMAP`. */
  function StateColor(s: PrState): (c: nat)
    ensures c == No <==> s == Opened || s == Validated || s == Approved
    ensures c == Green <==> s == Merged
    ensures c == Red <==> s == Error
    ensures c == Orange <==> s == Closed
    ensures c == LightBlue <==> s == Ready
  {
    match s
    case Opened => No
    case Closed => Orange
    case Validated => No
    case Approved => No
    case Ready => LightBlue
    case Merged => Green
    case Error => Red
  }
}
