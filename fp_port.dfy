// The checks `PullRequests._port_forward` (forwardport/models/project.py) makes on a
// merged batch before creating its forward-ports: every pull request of the batch must
// have a next branch, the same one, not already ported, with a token and a remote.
module PortForward {
  import opened Wrappers
  import opened Text
  import opened ForwardPort

  /**
   * A pull request of the batch: `source` is its source's id (its own when it is an
   * original), `sourceTarget`/`sourceLimit` its source's branch and limit, `target` its
   * own branch, `branches` its project's branches under its repository's branch filter.
   */
  datatype PortPr = PortPr(
    id: nat,
    source: nat,
    sourceTarget: nat,
    sourceLimit: Option<nat>,
    target: nat,
    branches: seq<Branch>,
    repository: String,
    hasRemote: bool)

  /** The feedback posted on one pull request of a batch whose next branches disagree. */
  datatype Notice = Notice(pr: nat, next: Option<Branch>, linked: nat, other: Option<Branch>)

  datatype Decision =
    | NothingToPort                       // an empty batch
    | NoNextTarget                        // the first pull request goes no further
    | AlreadyPorted                       // a forward-port of a source to that branch exists
    | Refused(notices: seq<Notice>)       // the batch's next branches disagree
    | NoToken                             // the project has no forward-port token
    | NoRemote(repositories: seq<String>) // repositories without a forward-port remote
    | Port(target: Branch)                // go ahead and port the batch to `target`

  datatype PortError =
    | TargetNotListed   // `_find_next_target`'s `ValueError`
    | NoName            // `None.name` while writing a notice

  /** `_find_next_target` of every pull request of the batch, failing like the first failing call. */
  function NextTargets(prs: seq<PortPr>): (r: Result<seq<Option<Branch>>, PortError>)
    ensures r.Success? ==> |r.value| == |prs|
    ensures r.Success? ==> forall i :: 0 <= i < |prs| ==>
      FindNextTarget(prs[i].branches, prs[i].sourceTarget, prs[i].target, prs[i].sourceLimit) == Success(r.value[i])
    ensures r.Failure? <==>
      exists i :: 0 <= i < |prs| && FindNextTarget(prs[i].branches, prs[i].sourceTarget, prs[i].target, prs[i].sourceLimit).Failure?
  {
    if prs == [] then Success([])
    else
      var p := prs[0];
      match FindNextTarget(p.branches, p.sourceTarget, p.target, p.sourceLimit)
      case Failure(_) => Failure(TargetNotListed)
      case Success(t) =>
        match NextTargets(prs[1..])
        case Failure(e) => Failure(e)
        case Success(ts) =>
          assert forall i :: 1 <= i < |prs| ==> prs[i] == prs[1..][i - 1];
          Success([t] + ts)
  }

  /** The first position whose next branch differs from `t`. */
  function FirstDifferent(targets: seq<Option<Branch>>, t: Option<Branch>): (r: Option<nat>)
    ensures r.Some? ==> r.value < |targets| && targets[r.value] != t
    ensures r.Some? ==> forall j :: 0 <= j < r.value ==> targets[j] == t
    ensures r.None? ==> forall j :: 0 <= j < |targets| ==> targets[j] == t
  {
    if targets == [] then None
    else if targets[0] != t then Some(0)
    else match FirstDifferent(targets[1..], t)
      case None => None
      case Some(k) => Some(k + 1)
  }

  /**
   * The notice for the pull request at `i`: its next branch, and the pull request and branch
   * it disagrees with (the first differing one, or the batch's first pull request).
   */
  function NoticeAt(prs: seq<PortPr>, targets: seq<Option<Branch>>, target: Branch, k: nat, i: nat): Notice
    requires |targets| == |prs| && k < |prs| && i < |prs|
  {
    if targets[i] != Some(target) then Notice(prs[i].id, targets[i], prs[0].id, Some(target))
    else Notice(prs[i].id, targets[i], prs[k].id, targets[k])
  }

  /** One notice per pull request of the batch, each about a branch other than its own next one. */
  function Notices(prs: seq<PortPr>, targets: seq<Option<Branch>>, target: Branch, k: nat): (r: seq<Notice>)
    requires |targets| == |prs| && k < |prs| && targets[k] != Some(target)
    ensures |r| == |prs|
    ensures forall i :: 0 <= i < |prs| ==> r[i].pr == prs[i].id && r[i].next == targets[i]
    ensures forall i :: 0 <= i < |prs| ==> r[i].next != r[i].other
  {
    seq(|prs|, i requires 0 <= i < |prs| => NoticeAt(prs, targets, target, k, i))
  }

  /** The repositories of the batch without a forward-port remote, in batch order. */
  function MissingRemotes(prs: seq<PortPr>): (r: seq<String>)
    ensures r == [] <==> forall i :: 0 <= i < |prs| ==> prs[i].hasRemote
  {
    if prs == [] then []
    else (if prs[0].hasRemote then [] else [prs[0].repository]) + MissingRemotes(prs[1..])
  }

  /** The checks after the next branch is agreed on: the project's token, then every repository's remote. */
  function Final(prs: seq<PortPr>, target: Branch, hasToken: bool): Decision
  {
    if !hasToken then NoToken
    else
      var missing := MissingRemotes(prs);
      if missing != [] then NoRemote(missing) else Port(target)
  }

  predicate Ported(prs: seq<PortPr>, target: Branch, ported: set<(nat, nat)>)
  {
    exists i :: 0 <= i < |prs| && (prs[i].source, target.id) in ported
  }

  /**
   * `_port_forward` as written: the walrus `if different_target := next(..., None)` takes a
   * differing next branch which is `None` for "no difference", and a notice's `t.name`
   * fails when some next branch is `None`. `ported` holds the (source, branch) pairs which
   * already have a forward-port.
   */
  function PortForwardAsWritten(prs: seq<PortPr>, ported: set<(nat, nat)>, hasToken: bool): Result<Decision, PortError>
  {
    if prs == [] then Success(NothingToPort)
    else match NextTargets(prs)
      case Failure(e) => Failure(e)
      case Success(targets) =>
        match targets[0]
        case None => Success(NoNextTarget)
        case Some(target) =>
          if Ported(prs, target, ported) then Success(AlreadyPorted)
          else match FirstDifferent(targets, Some(target))
            case None => Success(Final(prs, target, hasToken))
            case Some(k) =>
              if targets[k].None? then Success(Final(prs, target, hasToken))
              else if exists i :: 0 <= i < |targets| && targets[i].None? then Failure(NoName)
              else Success(Refused(Notices(prs, targets, target, k)))
  }

  /**
   * `_port_forward` with every disagreement refused, a missing next branch included. A batch
   * is ported only when every one of its pull requests has that same next branch, none was
   * ported there already, the project has a token and every repository a remote; a refusal
   * notifies every pull request about a branch other than its own next one.
   */
  function PortForward(prs: seq<PortPr>, ported: set<(nat, nat)>, hasToken: bool): (r: Result<Decision, PortError>)
    ensures r.Failure? <==> prs != [] && NextTargets(prs).Failure?
    ensures r.Success? && r.value.Port? ==>
      NextTargets(prs).Success? &&
      (forall i :: 0 <= i < |prs| ==> NextTargets(prs).value[i] == Some(r.value.target)) &&
      !Ported(prs, r.value.target, ported) && hasToken &&
      forall i :: 0 <= i < |prs| ==> prs[i].hasRemote
    ensures r.Success? && r.value.Refused? ==>
      NextTargets(prs).Success? && |r.value.notices| == |prs| &&
      (forall i :: 0 <= i < |prs| ==>
        r.value.notices[i].pr == prs[i].id && r.value.notices[i].next == NextTargets(prs).value[i] &&
        r.value.notices[i].next != r.value.notices[i].other) &&
      exists i :: 0 <= i < |prs| && NextTargets(prs).value[i] != NextTargets(prs).value[0]
  {
    if prs == [] then Success(NothingToPort)
    else match NextTargets(prs)
      case Failure(e) => Failure(e)
      case Success(targets) =>
        match targets[0]
        case None => Success(NoNextTarget)
        case Some(target) =>
          if Ported(prs, target, ported) then Success(AlreadyPorted)
          else match FirstDifferent(targets, Some(target))
            case None => Success(Final(prs, target, hasToken))
            case Some(k) => Success(Refused(Notices(prs, targets, target, k)))
  }

  /** Every pull request of the batch goes next to `t`, and no source was ported there yet. */
  predicate AllAgreeOn(prs: seq<PortPr>, targets: seq<Option<Branch>>, t: Branch, ported: set<(nat, nat)>)
    requires |targets| == |prs|
  {
    (forall i :: 0 <= i < |prs| ==> targets[i] == Some(t)) && !Ported(prs, t, ported)
  }

  /**
   * Once every next branch is known, each decision of `_port_forward` is taken
   * exactly in its own case: no next branch for the first pull request, a
   * forward-port already there, disagreeing next branches, then, on agreement,
   * no token, missing remotes, or the port.
   */
  lemma PortForwardDecides(prs: seq<PortPr>, ported: set<(nat, nat)>, hasToken: bool, t: Branch)
    requires prs != [] && NextTargets(prs).Success?
    ensures var targets := NextTargets(prs).value;
      var r := PortForward(prs, ported, hasToken);
      && (r == Success(NoNextTarget) <==> targets[0].None?)
      && (r == Success(AlreadyPorted) <==> targets[0].Some? && Ported(prs, targets[0].value, ported))
      && (r.Success? && r.value.Refused? <==>
            targets[0].Some? && !Ported(prs, targets[0].value, ported) && exists i :: 0 <= i < |prs| && targets[i] != targets[0])
      && (r == Success(NoToken) <==> targets[0].Some? && AllAgreeOn(prs, targets, targets[0].value, ported) && !hasToken)
      && (r == Success(NoRemote(MissingRemotes(prs))) <==>
            targets[0].Some? && AllAgreeOn(prs, targets, targets[0].value, ported) && hasToken && MissingRemotes(prs) != [])
      && (r == Success(Port(t)) <==>
            AllAgreeOn(prs, targets, t, ported) && hasToken && forall i :: 0 <= i < |prs| ==> prs[i].hasRemote)
  {
  }

  /** An empty batch has nothing to port; any other batch is decided on its next branches. */
  lemma EmptyBatchNothingToPort(prs: seq<PortPr>, ported: set<(nat, nat)>, hasToken: bool)
    ensures PortForward(prs, ported, hasToken) == Success(NothingToPort) <==> prs == []
  {
  }

  /** The two agree whenever no next branch is missing. */
  lemma AsWrittenAgreesWithoutMissingTargets(prs: seq<PortPr>, ported: set<(nat, nat)>, hasToken: bool)
    ensures (NextTargets(prs).Success? && forall i :: 0 <= i < |prs| ==> NextTargets(prs).value[i].Some?) ==>
      PortForwardAsWritten(prs, ported, hasToken) == PortForward(prs, ported, hasToken)
  {
    if prs != [] && NextTargets(prs).Success? && forall i :: 0 <= i < |prs| ==> NextTargets(prs).value[i].Some? {
      var targets := NextTargets(prs).value;
      var t := targets[0].value;
      var d := FirstDifferent(targets, Some(t));
      if d.Some? {
        assert targets[d.value].Some?;
        assert !exists i :: 0 <= i < |targets| && targets[i].None?;
      }
    }
  }

  /**
   * A batch of two on branch `a` whose second pull request is already at its source's limit:
   * as written the first one's next branch `b` is taken for both, and the second is ported
   * past its limit.
   */
  lemma PortPastLimitAsWritten()
    ensures var a := Branch(1, "a", true, true);
      var b := Branch(2, "b", true, true);
      var first := PortPr(10, 10, 1, Some(2), 1, [a, b], "x", true);
      var second := PortPr(20, 20, 1, Some(1), 1, [a, b], "y", true);
      PortForwardAsWritten([first, second], {}, true) == Success(Port(b)) &&
      PortForward([first, second], {}, true).value.Refused?
  {
    var a := Branch(1, "a", true, true);
    var b := Branch(2, "b", true, true);
    var first := PortPr(10, 10, 1, Some(2), 1, [a, b], "x", true);
    var second := PortPr(20, 20, 1, Some(1), 1, [a, b], "y", true);
    var prs := [first, second];
    assert IndexOf([a, b], 1) == Some(0);
    assert IndexOf([a, b], 2) == Some(1);
    assert Window([a, b], 1, 1, Some(2)) == Some((1, 2));
    assert FirstEnabled([a, b], 1, 2) == Some(1);
    assert FindNextTarget(first.branches, first.sourceTarget, first.target, first.sourceLimit) == Success(Some(b));
    assert FindNextTarget(second.branches, second.sourceTarget, second.target, second.sourceLimit) == Success(None);
    assert prs[1..] == [second] && [second][1..] == [];
    assert NextTargets([]) == Success([]);
    assert NextTargets([second]).value == [None];
    assert prs[0] == first;
    assert NextTargets(prs).Success?;
    assert NextTargets(prs).value == [Some(b)] + [None];
    assert !Ported(prs, b, {});
    assert FirstDifferent([Some(b), None], Some(b)) == Some(1);
    assert MissingRemotes(prs) == [] by {
      assert prs[0].hasRemote && prs[1].hasRemote;
    }
  }
}
