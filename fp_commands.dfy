// The forward-port bot's own commands in pull-request comments
// (`PullRequests._parse_commands` in forwardport/models/project.py): `ci`/`skipci`
// policies, `r+` on the ancestors of a forward-port, `close`, and the
// forward-port limit set by `up to <branch>` or `ignore`.
module ForwardPortCommands {
  import opened Wrappers
  import opened Text
  import opened ForwardPort
  import MergeProject
  import Freeze

  type PrState = Freeze.PrState

  /** The feedback comments the bot posts. */
  datatype Message =
    | NotWaitingForCi          // skipci accepted
    | WaitingForCi             // ci accepted
    | NotTrusted               // ci/skipci from someone who is not a reviewer
    | NotAForwardPort          // r+ on a pull request which is not a forward-port
    | CannotClose              // close from someone who is not a reviewer of the source
    | CannotSetLimit           // up to from someone who is not the author
    | NoBranchGiven            // up to with nothing after it
    | LimitOnlyOnOrigin        // up to on a forward-port
    | LimitOnlyBeforeMerge     // up to on a merged or closed pull request
    | NoSuchBranch(name: String)
    | ForwardPortDisabled      // the limit is the pull request's own branch
    | BranchDisabled(name: String)
    | PortingTo(name: String)

  /** What one command does. */
  datatype Effect =
    | Reply(message: Message)            // a feedback comment
    | CloseReply                         // a feedback which closes the pull request
    | SetPolicy(pr: nat, policy: String) // `fw_policy` of the pull request (or its source)
    | SetLimit(branch: nat)              // `limit_id` of the pull request
    | Approve(pr: nat)                   // the merge bot's `r+` parsed on that ancestor

  /**
   * The pull request the comment is on and what the commands look at: its branch, its
   * source (for a forward-port), its state, the project's branches (active or not), the
   * parent links and states of pull requests, whether the commenter is its author, and the
   * pull requests the commenter may review.
   */
  datatype Context = Context(
    pr: nat,
    target: Branch,
    source: Option<nat>,
    state: PrState,
    branches: seq<Branch>,
    parents: map<nat, nat>,
    states: map<nat, PrState>,
    isAuthor: bool,
    reviewerOf: set<nat>)

  predicate Done(s: PrState)
  {
    s == Freeze.Merged || s == Freeze.Closed
  }

  /** The branch of the project called `name`, if any. */
  function FindBranch(bs: seq<Branch>, name: String): (r: Option<Branch>)
    ensures r.Some? ==> r.value in bs && r.value.name == name
    ensures r.None? ==> forall b :: b in bs ==> b.name != name
  {
    if bs == [] then None
    else if bs[0].name == name then Some(bs[0])
    else FindBranch(bs[1..], name)
  }

  /** Every word of every command line addressed to the bot. */
  function Tokens(body: Option<String>, fpName: String): seq<String>
    requires MergeProject.PlainPrefix(fpName)
  {
    AllWords(MergeProject.FindCommands(body.GetOr(""), fpName))
  }

  function AllWords(lines: seq<String>): seq<String>
  {
    if lines == [] then [] else Words(lines[0]) + AllWords(lines[1..])
  }

  /** `ci` / `skipci`: only a reviewer of the source (or of the pull request itself) sets the policy. */
  function Policy(token: String, c: Context): (r: seq<Effect>)
    ensures forall e :: e in r && e.SetPolicy? ==> e.pr in c.reviewerOf
    ensures (SetPolicy(if c.source.Some? then c.source.value else c.pr, token) in r) <==>
      (if c.source.Some? then c.source.value else c.pr) in c.reviewerOf
  {
    var holder := if c.source.Some? then c.source.value else c.pr;
    if holder in c.reviewerOf then
      [SetPolicy(holder, token), Reply(if token == "skipci" then NotWaitingForCi else WaitingForCi)]
    else [Reply(NotTrusted)]
  }

  /** Whether `p` gets the merge bot's `r+`: it has a parent and its state accepts a review. */
  predicate Approvable(p: nat, c: Context, rplus: set<PrState>)
  {
    p in c.parents && p in c.states && c.states[p] in rplus
  }

  function ApproveEach(ps: seq<nat>, c: Context, rplus: set<PrState>): (r: seq<Effect>)
    ensures forall e :: e in r ==> e.Approve? && e.pr in ps && Approvable(e.pr, c, rplus)
    ensures forall p :: p in ps && Approvable(p, c, rplus) ==> Approve(p) in r
  {
    if ps == [] then []
    else (if Approvable(ps[0], c, rplus) then [Approve(ps[0])] else []) + ApproveEach(ps[1..], c, rplus)
  }

  /** `r+` on a forward-port: every ancestor which has a parent (never the root) and a reviewable state. */
  function Approvals(c: Context, rplus: set<PrState>): (r: seq<Effect>)
    requires ParentsOlder(c.parents)
    ensures forall e :: e in r ==> e.Approve? && e.pr in Ancestors(c.parents, c.pr) && Approvable(e.pr, c, rplus)
    ensures forall p :: p in Ancestors(c.parents, c.pr) && Approvable(p, c, rplus) ==> Approve(p) in r
  {
    ApproveEach(Ancestors(c.parents, c.pr), c, rplus)
  }

  /** The limit checks once the author has asked for `up to <limit>`. */
  function LimitEffects(limit: Option<String>, c: Context): (r: seq<Effect>)
    ensures |r| >= 1 && r[|r| - 1].Reply?
    ensures forall e :: e in r && e.SetLimit? ==>
      c.source.None? && !Done(c.state) && exists b :: b in c.branches && b.id == e.branch && (b == c.target || FpEnabled(b))
    ensures limit.Some? && c.source.None? && !Done(c.state) && FindBranch(c.branches, limit.value) == Some(c.target) ==>
      r == [SetLimit(c.target.id), Reply(ForwardPortDisabled)]
  {
    match limit
    case None => [Reply(NoBranchGiven)]
    case Some(name) =>
      if c.source.Some? then [Reply(LimitOnlyOnOrigin)]
      else if Done(c.state) then [Reply(LimitOnlyBeforeMerge)]
      else match FindBranch(c.branches, name)
        case None => [Reply(NoSuchBranch(name))]
        case Some(b) =>
          if b == c.target then [SetLimit(b.id), Reply(ForwardPortDisabled)]
          else if !FpEnabled(b) then [Reply(BranchDisabled(b.name))]
          else [SetLimit(b.id), Reply(PortingTo(b.name))]
  }

  /** `up to <limit>`: only the author may set a limit. */
  function LimitStep(limit: Option<String>, c: Context): seq<Effect>
  {
    if c.isAuthor then LimitEffects(limit, c) else [Reply(CannotSetLimit)]
  }

  /**
   * One turn of the token loop: what the first command does, and the words left after it
   * (`up` consumes the word after it, `up to` the limit as well).
   */
  function Next(tokens: seq<String>, c: Context, rplus: set<PrState>): (r: (seq<Effect>, seq<String>))
    requires tokens != [] && ParentsOlder(c.parents)
    ensures |r.1| < |tokens|
  {
    var token := tokens[0];
    var rest := tokens[1..];
    if token == "ci" || token == "skipci" then (Policy(token, c), rest)
    else if token == "ignore" then (LimitStep(Some(c.target.name), c), rest)
    else if token == "r+" || token == "review+" then
      (if c.source.None? then [Reply(NotAForwardPort)] else Approvals(c, rplus), rest)
    else if token == "close" then
      (if c.source.Some? && c.source.value in c.reviewerOf then [CloseReply] else [Reply(CannotClose)], rest)
    else if token == "up" && rest != [] && rest[0] == "to" then
      (LimitStep(if |rest| > 1 then Some(rest[1]) else None, c), if |rest| > 1 then rest[2..] else [])
    else if token == "up" && rest != [] then ([], rest[1..])
    else ([], rest)
  }

  /** What the commands `tokens` do, in order; `rplus` is the states in which `r+` is accepted. */
  function Run(tokens: seq<String>, c: Context, rplus: set<PrState>): seq<Effect>
    requires ParentsOlder(c.parents)
    decreases |tokens|
  {
    if tokens == [] then []
    else
      var (step, rest) := Next(tokens, c, rplus);
      step + Run(rest, c, rplus)
  }

  /** `_parse_commands`, the forward-port bot's half: the token loop over the comment's commands. */
  method ParseCommands(c: Context, body: Option<String>, fpName: String, rplus: set<PrState>) returns (effects: seq<Effect>)
    requires MergeProject.PlainPrefix(fpName) && ParentsOlder(c.parents)
    ensures effects == Run(Tokens(body, fpName), c, rplus)
  {
    var tokens := Tokens(body, fpName);
    effects := [];
    if tokens == [] {
      return;
    }
    effects := RunTokens(tokens, c, rplus);
  }

  /** The token loop: each command consumes its token and the words it takes as arguments. */
  method RunTokens(tokens: seq<String>, c: Context, rplus: set<PrState>) returns (effects: seq<Effect>)
    requires ParentsOlder(c.parents)
    ensures effects == Run(tokens, c, rplus)
  {
    effects := [];
    var queue := tokens;
    while queue != []
      invariant Run(tokens, c, rplus) == effects + Run(queue, c, rplus)
      decreases |queue|
    {
      var token := queue[0];
      var step, remaining := Command(token, queue[1..], c, rplus);
      assert [token] + queue[1..] == queue;
      AppendAssoc(effects, step, Run(remaining, c, rplus));
      effects := effects + step;
      queue := remaining;
    }
  }

  /** The body of the token loop for one token, `queue` being the words after it. */
  method Command(token: String, queue: seq<String>, c: Context, rplus: set<PrState>)
    returns (step: seq<Effect>, remaining: seq<String>)
    requires ParentsOlder(c.parents)
    ensures (step, remaining) == Next([token] + queue, c, rplus)
  {
    ghost var tokens := [token] + queue;
    assert tokens[0] == token && tokens[1..] == queue;
    var token := token;
    remaining := queue;
    var close := false;
    var msg: Option<Message> := None;
    step := [];
    if token == "ci" || token == "skipci" {
      var holder := if c.source.Some? then c.source.value else c.pr;
      if holder in c.reviewerOf {
        step := [SetPolicy(holder, token)];
        msg := Some(if token == "skipci" then NotWaitingForCi else WaitingForCi);
      } else {
        msg := Some(NotTrusted);
      }
      assert step + [Reply(msg.value)] == Policy(token, c);
      assert Next(tokens, c, rplus) == (Policy(token, c), queue);
    }
    if token == "ignore" {
      token := "up";
      remaining := ["to", c.target.name] + remaining;
      assert remaining[0] == "to" && remaining[1..][0] == c.target.name && remaining[1..][1..] == queue;
    }
    if token == "r+" || token == "review+" {
      if c.source.None? {
        return [Reply(NotAForwardPort)], remaining;
      }
      step := Approvals(c, rplus);
    } else if token == "close" {
      msg := Some(CannotClose);
      if c.source.Some? && c.source.value in c.reviewerOf {
        close := true;
        msg := None;
      }
      assert step == [];
      assert Next(tokens, c, rplus) == (if close then [CloseReply] else [Reply(CannotClose)], queue);
    } else if token == "up" {
      var next: Option<String> := None;
      if remaining != [] {
        next := Some(remaining[0]);
        remaining := remaining[1..];
      }
      if next == Some("to") {
        var limit: Option<String> := None;
        if remaining != [] {
          limit := Some(remaining[0]);
          remaining := remaining[1..];
        }
        if !c.isAuthor {
          return [Reply(CannotSetLimit)], remaining;
        }
        step := LimitEffects(limit, c);
      }
    }
    if msg.Some? {
      step := step + [Reply(msg.value)];
    } else if close {
      step := step + [CloseReply];
    }
    if tokens[0] == "ci" || tokens[0] == "skipci" {
      assert token == tokens[0] && remaining == queue && step == Policy(token, c);
    } else if tokens[0] == "close" {
      assert token == "close" && remaining == queue;
      assert step == if close then [CloseReply] else [Reply(CannotClose)];
    }
  }

  /** `ignore` is `up to` the pull request's own branch. */
  lemma IgnoreIsUpToOwnBranch(rest: seq<String>, c: Context, rplus: set<PrState>)
    requires ParentsOlder(c.parents)
    ensures Run(["ignore"] + rest, c, rplus) == Run(["up", "to", c.target.name] + rest, c, rplus)
  {
    assert (["ignore"] + rest)[1..] == rest;
    var t := ["up", "to", c.target.name] + rest;
    assert t[1..][0] == "to" && t[1..][1] == c.target.name && t[1..][2..] == rest;
  }

  /** On an open origin pull request, the author's `ignore` sets the limit to its own branch: no forward-port. */
  lemma IgnoreDisablesForwardPort(rest: seq<String>, c: Context, rplus: set<PrState>)
    requires ParentsOlder(c.parents)
    requires c.isAuthor && c.source.None? && !Done(c.state)
    requires FindBranch(c.branches, c.target.name) == Some(c.target)
    ensures Run(["ignore"] + rest, c, rplus) == [SetLimit(c.target.id), Reply(ForwardPortDisabled)] + Run(rest, c, rplus)
  {
    assert (["ignore"] + rest)[1..] == rest;
  }

  /** After `up`, the next word is consumed even when it is not `to`. */
  lemma UpSwallowsNextWord(word: String, rest: seq<String>, c: Context, rplus: set<PrState>)
    requires ParentsOlder(c.parents)
    requires word != "to"
    ensures Run(["up", word] + rest, c, rplus) == Run(rest, c, rplus)
  {
    var t := ["up", word] + rest;
    assert t[1..][0] == word && t[1..][1..] == rest;
  }

  /**
   * Who may do what: only a reviewer sets a policy, only a reviewer of the source closes,
   * only forward-ports approve their ancestors (never the root), and only the author of an
   * open origin pull request sets a limit, to its own branch or to a forward-port-enabled one.
   */
  predicate Permitted(e: Effect, c: Context, rplus: set<PrState>)
    requires ParentsOlder(c.parents)
  {
    match e
    case SetPolicy(p, _) => p in c.reviewerOf
    case CloseReply => c.source.Some? && c.source.value in c.reviewerOf
    case Approve(p) => c.source.Some? && p in Ancestors(c.parents, c.pr) && Approvable(p, c, rplus)
    case SetLimit(id) =>
      c.isAuthor && c.source.None? && !Done(c.state) &&
      exists b :: b in c.branches && b.id == id && (b == c.target || FpEnabled(b))
    case Reply(_) => true
  }

  lemma NextPermitted(tokens: seq<String>, c: Context, rplus: set<PrState>)
    requires tokens != [] && ParentsOlder(c.parents)
    ensures forall e :: e in Next(tokens, c, rplus).0 ==> Permitted(e, c, rplus)
  {
  }

  /** Every effect of a comment's commands is one its author is allowed. */
  lemma {:induction false} EffectsPermitted(tokens: seq<String>, c: Context, rplus: set<PrState>)
    requires ParentsOlder(c.parents)
    ensures forall e :: e in Run(tokens, c, rplus) ==> Permitted(e, c, rplus)
    decreases |tokens|
  {
    if tokens != [] {
      NextPermitted(tokens, c, rplus);
      EffectsPermitted(Next(tokens, c, rplus).1, c, rplus);
    }
  }
}
