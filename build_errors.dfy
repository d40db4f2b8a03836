// Classification of build errors: cleaning and filter regexes, team
// assignment by module-path globs, test tags, linking of errors and the
// grouping of server logs into errors.
//
// The regex engine, `fnmatch` and SHA-256 are not modelled: `re.sub(p, '%', s)`,
// `re.search(p, s)` and `fnmatch(name, p)` are function parameters, and the
// digest of a cleaned message is the cleaned message itself (an injective
// fingerprint). Error records live in a table indexed by their id.
module BuildErrors {
  import opened Wrappers
  import opened Text

  /** `re.sub(pattern, '%', s)`, given the pattern and the subject. */
  type Substitute = (String, String) -> String
  /** `re.search(pattern, s)` is not None. */
  type Search = (String, String) -> bool
  /** `fnmatch(name, pattern)`. */
  type FnMatch = (String, String) -> bool

  datatype RegexType = FilterOut | Cleaning

  /** A `runbot.error.regex` row; tables of them are in `sequence, id` order. */
  datatype ErrorRegex = ErrorRegex(regex: String, reType: RegexType)

  /** The patterns of the regexes of one type, in table order. */
  function Patterns(regexes: seq<ErrorRegex>, t: RegexType): (ps: seq<String>)
    ensures |ps| <= |regexes|
    ensures forall p :: p in ps <==> exists i :: 0 <= i < |regexes| && regexes[i].reType == t && regexes[i].regex == p
  {
    if regexes == [] then []
    else (if regexes[0].reType == t then [regexes[0].regex] else []) + Patterns(regexes[1..], t)
  }

  /** Every pattern applied in turn to the output of the previous one. */
  function SubAll(patterns: seq<String>, s: String, sub: Substitute): String
    decreases |patterns|
  {
    if patterns == [] then s else SubAll(patterns[1..], sub(patterns[0], s), sub)
  }

  /** Cleaning with two lists in a row is cleaning with their concatenation. */
  lemma {:induction false} SubAllAppend(p: seq<String>, q: seq<String>, s: String, sub: Substitute)
    ensures SubAll(p + q, s, sub) == SubAll(q, SubAll(p, s, sub), sub)
    decreases |p|
  {
    if p != [] {
      assert (p + q)[0] == p[0] && (p + q)[1..] == p[1..] + q;
      SubAllAppend(p[1..], q, sub(p[0], s), sub);
      calc {
        SubAll(p + q, s, sub);
        SubAll(p[1..] + q, sub(p[0], s), sub);
        SubAll(q, SubAll(p[1..], sub(p[0], s), sub), sub);
        SubAll(q, SubAll(p, s, sub), sub);
      }
    } else {
      assert p + q == q;
    }
  }

  /**
   * `ErrorRegex.r_sub(replace, s)`: each regex of the recordset, in order,
   * replaces all its matches. The `replace` argument is not used: every match
   * becomes '%'.
   */
  method RSub(patterns: seq<String>, replace: String, s: String, sub: Substitute) returns (r: String)
    ensures r == SubAll(patterns, s, sub)
  {
    r := s;
    var i := 0;
    while i < |patterns|
      invariant 0 <= i <= |patterns|
      invariant r == SubAll(patterns[..i], s, sub)
    {
      SubAllAppend(patterns[..i], [patterns[i]], s, sub);
      assert patterns[..i + 1] == patterns[..i] + [patterns[i]];
      r := sub(patterns[i], r);
      i := i + 1;
    }
    assert patterns[..i] == patterns;
  }

  /** `ErrorRegex.r_search(s)`: true exactly when one of the regexes is found in `s`. */
  function RSearch(patterns: seq<String>, s: String, search: Search): (found: bool)
    ensures found <==> exists i :: 0 <= i < |patterns| && search(patterns[i], s)
  {
    if patterns == [] then false
    else search(patterns[0], s) || RSearch(patterns[1..], s, search)
  }

  // ---------------------------------------------------------------- teams

  /** A `runbot.team` with a `path_glob`; tables of them are in `name, id` order. */
  datatype Team = Team(id: nat, pathGlob: String)

  /** A comma-separated entry starting with '-' (after stripping) is a negative wildcard. */
  predicate Negative(pattern: String)
  {
    StartsWith(Strip(pattern), "-")
  }

  /** `pattern.strip().strip('-')`. */
  function NegativeGlob(pattern: String): String
  {
    StripChars(Strip(pattern), {'-'})
  }

  /** Some negative wildcard of `patterns` matches the module. */
  predicate AnyNegativeMatch(patterns: seq<String>, moduleName: String, fnmatch: FnMatch)
  {
    patterns != []
    && ((Negative(patterns[0]) && fnmatch(moduleName, NegativeGlob(patterns[0])))
        || AnyNegativeMatch(patterns[1..], moduleName, fnmatch))
  }

  /** Some positive wildcard of `patterns` matches the module. */
  predicate AnyPositiveMatch(patterns: seq<String>, moduleName: String, fnmatch: FnMatch)
  {
    patterns != []
    && ((!Negative(patterns[0]) && fnmatch(moduleName, Strip(patterns[0])))
        || AnyPositiveMatch(patterns[1..], moduleName, fnmatch))
  }

  predicate Excludes(team: Team, moduleName: String, fnmatch: FnMatch)
  {
    AnyNegativeMatch(Split(team.pathGlob, ','), moduleName, fnmatch)
  }

  predicate Claims(team: Team, moduleName: String, fnmatch: FnMatch)
  {
    AnyPositiveMatch(Split(team.pathGlob, ','), moduleName, fnmatch)
  }

  /** A team takes a module when no negative wildcard matches it and a positive one does. */
  predicate Assigns(team: Team, moduleName: String, fnmatch: FnMatch)
  {
    !Excludes(team, moduleName, fnmatch) && Claims(team, moduleName, fnmatch)
  }

  /** Index of the first team from `from` on that `takes`, `|teams|` when none does. */
  function FirstAssigning(teams: seq<Team>, from: nat, takes: Team -> bool): (i: nat)
    requires from <= |teams|
    ensures from <= i <= |teams|
    ensures i < |teams| ==> takes(teams[i])
    ensures forall j :: from <= j < i ==> !takes(teams[j])
    decreases |teams| - from
  {
    if from == |teams| then from
    else if takes(teams[from]) then from
    else FirstAssigning(teams, from + 1, takes)
  }

  /** The team `_get_team` returns: the first team that takes the module, `False` when none does. */
  function TeamOf(teams: seq<Team>, moduleName: String, fnmatch: FnMatch): (r: Option<nat>)
    ensures r.None? <==> forall i :: 0 <= i < |teams| ==> !Assigns(teams[i], moduleName, fnmatch)
    ensures r.Some? ==> exists i :: (0 <= i < |teams| && teams[i].id == r.value && Assigns(teams[i], moduleName, fnmatch)
      && forall j :: 0 <= j < i ==> !Assigns(teams[j], moduleName, fnmatch))
  {
    var i := FirstAssigning(teams, 0, t => Assigns(t, moduleName, fnmatch));
    if i < |teams| then Some(teams[i].id) else None
  }

  /** `RunbotTeam._get_team(module_name)`. */
  method GetTeam(teams: seq<Team>, moduleName: String, fnmatch: FnMatch) returns (r: Option<nat>)
    ensures r == TeamOf(teams, moduleName, fnmatch)
  {
    ghost var takes := t => Assigns(t, moduleName, fnmatch);
    var i := 0;
    while i < |teams|
      invariant 0 <= i <= |teams|
      invariant FirstAssigning(teams, 0, takes) == FirstAssigning(teams, i, takes)
    {
      if !Excludes(teams[i], moduleName, fnmatch) {
        if Claims(teams[i], moduleName, fnmatch) {
          assert takes(teams[i]);
          return Some(teams[i].id);
        }
      }
      assert !takes(teams[i]);
      i := i + 1;
    }
    r := None;
  }

  // --------------------------------------------------------------- errors

  /**
   * A `runbot.build.error`. `responsible` is the rank of the assigned user in
   * the users' own order (`None` when unassigned).
   */
  datatype BuildError = BuildError(
    content: String,
    cleaned: String,
    fingerprint: String,
    moduleName: Option<String>,
    active: bool,
    random: bool,
    responsible: Option<nat>,
    parent: Option<nat>,
    builds: set<nat>,
    team: Option<nat>,
    testTags: Option<String>)

  /** The `_check_test_tags` constraint: test tags are never negated. */
  predicate TestTagsAllowed(tags: Option<String>)
  {
    tags.None? || '-' !in tags.value
  }

  /** `test_tags_list`: the comma-split tags of the active errors that have tags, in id order. */
  function TestTagsList(errors: seq<BuildError>): (tags: seq<String>)
    ensures forall t :: t in tags <==>
      exists i :: 0 <= i < |errors| && errors[i].active && errors[i].testTags.Some? && t in Split(errors[i].testTags.value, ',')
    decreases |errors|
  {
    if errors == [] then []
    else
      var n := |errors| - 1;
      var last := errors[n];
      var rest := TestTagsList(errors[..n]);
      assert forall i :: 0 <= i < n ==> errors[..n][i] == errors[i];
      rest + (if last.active && last.testTags.Some? then Split(last.testTags.value, ',') else [])
  }

  /** `disabling_tags`: each test tag prefixed with '-'. */
  function DisablingTags(errors: seq<BuildError>): (tags: seq<String>)
    ensures |tags| == |TestTagsList(errors)|
    ensures forall i :: 0 <= i < |tags| ==> tags[i] == ['-'] + TestTagsList(errors)[i]
  {
    var list := TestTagsList(errors);
    seq(|list|, i requires 0 <= i < |list| => ['-'] + list[i])
  }

  /**
   * With the test-tags constraint in force, a disabling tag carries exactly one
   * '-', in front, so removing it gives back a tag of an active error.
   */
  lemma DisablingTagsNegateOnce(errors: seq<BuildError>, i: nat)
    requires forall k :: 0 <= k < |errors| ==> TestTagsAllowed(errors[k].testTags)
    requires i < |DisablingTags(errors)|
    ensures DisablingTags(errors)[i][0] == '-' && '-' !in DisablingTags(errors)[i][1..]
    ensures DisablingTags(errors)[i][1..] in TestTagsList(errors)
  {
    var list := TestTagsList(errors);
    var t := list[i];
    assert t in list;
    var k :| 0 <= k < |errors| && errors[k].active && errors[k].testTags.Some? && t in Split(errors[k].testTags.value, ',');
    SplitPartsOmitNothing(errors[k].testTags.value, ',', t);
    assert DisablingTags(errors)[i][1..] == t;
  }

  /** A part of `s.split(sep)` holds only characters of `s`. */
  lemma {:induction false} SplitPartsOmitNothing(s: String, sep: char, part: String)
    requires part in Split(s, sep)
    ensures forall c :: c in part ==> c in s
    decreases |s|
  {
    var i := IndexWhere(s, c => c == sep);
    if i < |s| {
      if part != s[..i] {
        assert part in Split(s[i + 1..], sep);
        SplitPartsOmitNothing(s[i + 1..], sep, part);
      }
    }
  }

  /** All builds of an error's children (`child_ids.build_ids`), inactive children included. */
  function ChildBuilds(errors: seq<BuildError>, k: nat): (bs: set<nat>)
    ensures forall b :: b in bs <==> exists j :: 0 <= j < |errors| && errors[j].parent == Some(k) && b in errors[j].builds
    decreases |errors|
  {
    if errors == [] then {}
    else
      var n := |errors| - 1;
      var rest := ChildBuilds(errors[..n], k);
      assert forall j :: 0 <= j < n ==> errors[..n][j] == errors[j];
      rest + (if errors[n].parent == Some(k) then errors[n].builds else {})
  }

  /** `_compute_build_counts`: the builds seen by the error or by any of its children, each once. */
  function BuildCount(errors: seq<BuildError>, k: nat): nat
    requires k < |errors|
  {
    |errors[k].builds + ChildBuilds(errors, k)|
  }

  lemma SubsetCard(a: set<nat>, b: set<nat>)
    requires a <= b
    ensures |a| <= |b|
  {
    assert b == a + (b - a);
  }

  /** The count covers the error's own builds and those of each child, and no other build. */
  lemma BuildCountBounds(errors: seq<BuildError>, k: nat, c: nat)
    requires k < |errors| && c < |errors| && errors[c].parent == Some(k)
    ensures |errors[k].builds| <= BuildCount(errors, k)
    ensures |errors[c].builds| <= BuildCount(errors, k)
    ensures errors[c].builds !! errors[k].builds ==> |errors[k].builds| + |errors[c].builds| <= BuildCount(errors, k)
  {
    var all := errors[k].builds + ChildBuilds(errors, k);
    SubsetCard(errors[k].builds, all);
    SubsetCard(errors[c].builds, all);
    SubsetCard(errors[k].builds + errors[c].builds, all);
  }

  /** A responsible user sorts before none; users sort by rank. */
  predicate ResponsibleBefore(a: Option<nat>, b: Option<nat>)
  {
    a.Some? && (b.None? || a.value < b.value)
  }

  /**
   * Error `a` comes before error `b` in `responsible asc, random desc, id asc`
   * (an unassigned error sorts last, as NULL does in an ascending order).
   */
  predicate LinkBefore(errors: seq<BuildError>, a: nat, b: nat)
    requires a < |errors| && b < |errors|
  {
    var x, y := errors[a], errors[b];
    if x.responsible != y.responsible then ResponsibleBefore(x.responsible, y.responsible)
    else if x.random != y.random then x.random
    else a < b
  }

  lemma LinkBeforeTotal(errors: seq<BuildError>, a: nat, b: nat)
    requires a < |errors| && b < |errors| && a != b
    ensures LinkBefore(errors, a, b) != LinkBefore(errors, b, a)
  {
  }

  lemma LinkBeforeTransitive(errors: seq<BuildError>, a: nat, b: nat, c: nat)
    requires a < |errors| && b < |errors| && c < |errors|
    requires LinkBefore(errors, a, b) && LinkBefore(errors, b, c)
    ensures LinkBefore(errors, a, c)
  {
  }

  /** The children of error `k`. */
  function Children(errors: seq<BuildError>, k: nat): set<nat>
  {
    set j | 0 <= j < |errors| && errors[j].parent == Some(k)
  }

  /** Every id of the recordset names an existing error. */
  predicate InTable(ids: set<nat>, n: nat)
  {
    forall k :: k in ids ==> k < n
  }

  lemma {:induction false} CardBelow(s: set<nat>, n: nat)
    requires InTable(s, n)
    ensures |s| <= n
    decreases n
  {
    if n > 0 {
      CardBelow(s - {n - 1}, n - 1);
    } else {
      assert s == {};
    }
  }

  /**
   * The errors that one `write({'active': v})` on the recordset `ids` reaches:
   * the recordset, and the children of every reached error.
   */
  ghost predicate ActiveClosure(errors: seq<BuildError>, ids: set<nat>, reached: set<nat>)
  {
    ids <= reached && InTable(reached, |errors|)
    && (forall k :: k in reached ==> Children(errors, k) <= reached)
    && (forall k :: k in reached && k !in ids ==> errors[k].parent.Some? && errors[k].parent.value in reached)
  }

  /** The state of the recursive write: `todo` is still to be written, `done` was written. */
  ghost predicate Frontier(errors: seq<BuildError>, ids: set<nat>, todo: set<nat>, done: set<nat>)
  {
    InTable(todo, |errors|) && InTable(done, |errors|) && todo !! done
    && ids <= todo + done
    && (forall k :: k in done ==> Children(errors, k) <= todo + done)
    && (forall k :: k in todo + done && k !in ids ==> errors[k].parent.Some? && errors[k].parent.value in done)
  }

  lemma FrontierStep(errors: seq<BuildError>, ids: set<nat>, todo: set<nat>, done: set<nat>, k: nat, children: set<nat>)
    requires Frontier(errors, ids, todo, done) && k in todo
    requires children == set j | 0 <= j < |errors| && errors[j].parent == Some(k) && j !in done && j != k
    ensures Frontier(errors, ids, (todo - {k}) + children, done + {k})
  {
    var todo', done' := (todo - {k}) + children, done + {k};
    assert todo' + done' == todo + done + children;
    forall m | m in done'
      ensures Children(errors, m) <= todo' + done'
    {
      if m == k {
        forall j | j in Children(errors, k) ensures j in todo' + done' {
          if j !in done && j != k {
            assert j in children;
          }
        }
      }
    }
    forall m | m in todo' + done' && m !in ids
      ensures errors[m].parent.Some? && errors[m].parent.value in done'
    {
      if m in children {
        assert errors[m].parent == Some(k);
      }
    }
  }

  lemma FrontierClosed(errors: seq<BuildError>, ids: set<nat>, done: set<nat>)
    requires Frontier(errors, ids, {}, done)
    ensures ActiveClosure(errors, ids, done)
  {
  }

  /** The errors the recursive write of `active` reaches from `ids`: the recordset and every error below it. */
  method ReachBelow(errors: seq<BuildError>, ids: set<nat>) returns (reached: set<nat>)
    requires InTable(ids, |errors|)
    ensures ActiveClosure(errors, ids, reached)
    ensures forall other :: ActiveClosure(errors, ids, other) ==> reached <= other
  {
    var todo := ids;
    reached := {};
    while todo != {}
      invariant Frontier(errors, ids, todo, reached)
      invariant forall other :: ActiveClosure(errors, ids, other) ==> todo + reached <= other
      decreases |errors| - |reached|
    {
      CardBelow(reached, |errors|);
      var k :| k in todo;
      var children := set j | 0 <= j < |errors| && errors[j].parent == Some(k) && j !in reached && j != k;
      forall other | ActiveClosure(errors, ids, other)
        ensures (todo - {k}) + children + (reached + {k}) <= other
      {
        assert k in other && children <= Children(errors, k) <= other;
      }
      FrontierStep(errors, ids, todo, reached, k, children);
      todo := (todo - {k}) + children;
      reached := reached + {k};
      CardBelow(reached, |errors|);
    }
    FrontierClosed(errors, ids, reached);
  }

  /**
   * A parent cycle hanging from no error of the recordset is not reached:
   * the recordset alone is closed, so the least closure `ReachBelow`
   * returns leaves the cycle out.
   */
  lemma DetachedCycleNotReached(e0: BuildError, e1: BuildError, e2: BuildError)
    requires e0.parent.None? && e1.parent == Some(2) && e2.parent == Some(1)
    ensures ActiveClosure([e0, e1, e2], {0}, {0})
  {
    var errors := [e0, e1, e2];
    assert Children(errors, 0) == {} by {
      forall j | 0 <= j < |errors| ensures errors[j].parent != Some(0) {
        assert j == 0 || j == 1 || j == 2;
      }
    }
  }

  function SetActive(errors: seq<BuildError>, reached: set<nat>, value: bool): (r: seq<BuildError>)
    ensures |r| == |errors|
    ensures forall i :: 0 <= i < |errors| ==> r[i] == if i in reached then errors[i].(active := value) else errors[i]
  {
    seq(|errors|, i requires 0 <= i < |errors| => if i in reached then errors[i].(active := value) else errors[i])
  }

  // ------------------------------------------------------------ the recursive write, as run

  /** Every parent link names an existing error. */
  predicate ParentsInTable(errors: seq<BuildError>)
  {
    forall k :: 0 <= k < |errors| && errors[k].parent.Some? ==> errors[k].parent.value < |errors|
  }

  /** The error `n` parent links above `k`, when the chain is that long. */
  function Up(errors: seq<BuildError>, k: nat, n: nat): (r: Option<nat>)
    requires ParentsInTable(errors) && k < |errors|
    ensures r.Some? ==> r.value < |errors|
    decreases n
  {
    if n == 0 then Some(k)
    else match errors[k].parent
      case None => None
      case Some(p) => Up(errors, p, n - 1)
  }

  /** `k` lies on a cycle of `n` parent links through at least one other error. */
  predicate OnCycle(errors: seq<BuildError>, k: nat, n: nat)
    requires ParentsInTable(errors) && k < |errors|
  {
    1 <= n && Up(errors, k, n) == Some(k) && errors[k].parent != Some(k)
  }

  /**
   * A parent cycle leads out of the recordset `ids`: an error outside `ids`
   * lies on a cycle and has its parent in `ids`. No cycle is longer than the
   * table.
   */
  predicate MixedCycle(errors: seq<BuildError>, ids: set<nat>)
    requires ParentsInTable(errors)
  {
    exists c, n :: 0 <= c < |errors| && 1 <= n <= |errors| && c !in ids
      && errors[c].parent.Some? && errors[c].parent.value in ids && OnCycle(errors, c, n)
  }

  /**
   * `write({'active': v})` on the recordset `t` as the interpreter runs it:
   * each error of `t` first writes its children outside `t`, recursively, and
   * then `t` itself is written. `depth` is the recursion limit: `None` is the
   * RecursionError that rolls the whole write back, `Some(w)` the errors written.
   */
  function WriteCalls(errors: seq<BuildError>, t: set<nat>, depth: nat): Option<set<nat>>
    requires ParentsInTable(errors) && InTable(t, |errors|)
    decreases depth, 0, 0
  {
    if depth == 0 then None
    else match WriteEach(errors, t, 0, depth - 1)
      case None => None
      case Some(w) => Some(w + t)
  }

  /** The loop `for build_error in self` of that write, from error `i` on. */
  function WriteEach(errors: seq<BuildError>, t: set<nat>, i: nat, depth: nat): Option<set<nat>>
    requires ParentsInTable(errors) && InTable(t, |errors|)
    decreases depth, 1, |errors| - i
  {
    if i >= |errors| then Some({})
    else
      var rest := WriteEach(errors, t, i + 1, depth);
      if i !in t then rest
      else match WriteCalls(errors, Children(errors, i) - t, depth)
        case None => None
        case Some(w) => if rest.None? then None else Some(w + rest.value)
  }

  lemma {:induction false} UpLast(errors: seq<BuildError>, k: nat, n: nat)
    requires ParentsInTable(errors) && k < |errors|
    ensures Up(errors, k, n + 1) == if Up(errors, k, n).None? then None else errors[Up(errors, k, n).value].parent
    decreases n
  {
    if n > 0 {
      match errors[k].parent {
        case None =>
        case Some(p) => UpLast(errors, p, n - 1);
      }
    }
  }

  /** The error just below `c` on its cycle: another error, on the same cycle. */
  lemma CycleSuccessor(errors: seq<BuildError>, c: nat, n: nat) returns (d: nat)
    requires ParentsInTable(errors) && c < |errors| && OnCycle(errors, c, n)
    ensures d < |errors| && d != c && errors[d].parent == Some(c) && OnCycle(errors, d, n)
  {
    UpLast(errors, c, n - 1);
    d := Up(errors, c, n - 1).value;
  }

  lemma {:induction false} EachFails(errors: seq<BuildError>, t: set<nat>, i: nat, e: nat, depth: nat)
    requires ParentsInTable(errors) && InTable(t, |errors|)
    requires i <= e && e in t && WriteCalls(errors, Children(errors, e) - t, depth).None?
    ensures WriteEach(errors, t, i, depth).None?
    decreases e - i
  {
    if i < e {
      EachFails(errors, t, i + 1, e, depth);
    }
  }

  /**
   * Once the write holds an error `e` whose child `c` lies outside the
   * recordset and on a cycle, it goes round that cycle for ever.
   */
  lemma {:induction false} CycleNeverEnds(errors: seq<BuildError>, t: set<nat>, e: nat, c: nat, n: nat, depth: nat)
    requires ParentsInTable(errors) && InTable(t, |errors|)
    requires e in t && c < |errors| && c !in t && errors[c].parent == Some(e) && OnCycle(errors, c, n)
    ensures WriteCalls(errors, t, depth).None?
    decreases depth
  {
    if depth > 0 {
      var below := Children(errors, e) - t;
      var d := CycleSuccessor(errors, c, n);
      assert c in below;
      assert d !in below by {
        assert errors[d].parent != Some(e);
      }
      CycleNeverEnds(errors, below, c, d, n, depth - 1);
      EachFails(errors, t, 0, e, depth - 1);
    }
  }

  /** With a cycle leading out of the recordset, the write raises whatever the recursion limit. */
  lemma MixedCycleNeverEnds(errors: seq<BuildError>, ids: set<nat>, depth: nat)
    requires ParentsInTable(errors) && InTable(ids, |errors|) && MixedCycle(errors, ids)
    ensures WriteCalls(errors, ids, depth).None?
  {
    var c, n :| 0 <= c < |errors| && 1 <= n <= |errors| && c !in ids
      && errors[c].parent.Some? && errors[c].parent.value in ids && OnCycle(errors, c, n);
    CycleNeverEnds(errors, ids, errors[c].parent.value, c, n, depth);
  }

  /**
   * Error 0 has parent 1, and `link_errors` on both, choosing 0, made 0 the
   * parent of 1. Writing `active` on error 0 alone then never ends; writing it
   * on both ends and writes both.
   */
  lemma LinkedPairWrite(e0: BuildError, e1: BuildError, depth: nat)
    requires e0.parent == Some(1) && e1.parent == Some(0)
    ensures MixedCycle([e0, e1], {0}) && WriteCalls([e0, e1], {0}, depth).None?
    ensures !MixedCycle([e0, e1], {0, 1}) && WriteCalls([e0, e1], {0, 1}, 2) == Some({0, 1})
  {
    var errors := [e0, e1];
    assert OnCycle(errors, 1, 2);
    assert 1 !in {0} && errors[1].parent.value in {0};
    MixedCycleNeverEnds(errors, {0}, depth);
    var both: set<nat>, none: set<nat> := {0, 1}, {};
    assert WriteEach(errors, none, 2, 0) == Some(none);
    assert WriteEach(errors, none, 1, 0) == Some(none);
    assert WriteEach(errors, none, 0, 0) == Some(none);
    assert none + none == none;
    assert WriteCalls(errors, none, 1) == Some(none);
    assert Children(errors, 1) - both == {};
    assert Children(errors, 0) - both == {};
    assert WriteEach(errors, both, 2, 1) == Some({});
    assert WriteEach(errors, both, 1, 1) == Some({});
    assert WriteEach(errors, both, 0, 1) == Some({});
    assert none + both == both;
    assert WriteCalls(errors, both, 2) == Some(both);
    assert !MixedCycle(errors, both) by {
      forall c | 0 <= c < |errors| ensures c in both {
        assert c == 0 || c == 1;
      }
    }
  }

  /** A new error built by `create`: cleaned with the cleaning regexes, fingerprinted, a team looked up. */
  function NewError(content: String, moduleName: String, builds: set<nat>,
                    cleaning: seq<String>, sub: Substitute, teams: seq<Team>, fnmatch: FnMatch): BuildError
  {
    var cleaned := SubAll(cleaning, content, sub);
    BuildError(content, cleaned, cleaned, Some(moduleName), true, false, None, None, builds,
               TeamOf(teams, moduleName, fnmatch), None)
  }

  // ------------------------------------------------------------ log scan

  /** An `ir.logging` row handed to `_parse_logs`. */
  datatype IrLog = IrLog(build: nat, message: String, name: String)

  /** `hash_dict`: fingerprints in first-seen order and the logs of each. */
  datatype Grouping = Grouping(keys: seq<String>, groups: map<String, seq<IrLog>>)

  predicate Distinct(keys: seq<String>)
  {
    forall i, j :: 0 <= i < j < |keys| ==> keys[i] != keys[j]
  }

  predicate WellGrouped(g: Grouping)
  {
    Distinct(g.keys) && (forall k :: k in g.groups ==> k in g.keys) && (forall k :: k in g.keys ==> k in g.groups)
    && forall k :: k in g.groups ==> g.groups[k] != []
  }

  /** The first loop of `_parse_logs`: filtered logs dropped, the rest grouped by cleaned message. */
  function GroupLogs(logs: seq<IrLog>, filters: seq<String>, cleaning: seq<String>, sub: Substitute, search: Search): (g: Grouping)
    ensures WellGrouped(g)
    ensures forall k, l :: k in g.groups && l in g.groups[k] ==>
      l in logs && !RSearch(filters, l.message, search) && SubAll(cleaning, l.message, sub) == k
    ensures forall l :: l in logs && !RSearch(filters, l.message, search) ==>
      SubAll(cleaning, l.message, sub) in g.groups && l in g.groups[SubAll(cleaning, l.message, sub)]
    decreases |logs|
  {
    if logs == [] then Grouping([], map[])
    else
      var n := |logs| - 1;
      var g := GroupLogs(logs[..n], filters, cleaning, sub, search);
      AddLogWellGrouped(g, logs[n], filters, cleaning, sub, search);
      AddLogSound(g, logs, filters, cleaning, sub, search);
      AddLogComplete(g, logs, filters, cleaning, sub, search);
      AddLog(g, logs[n], filters, cleaning, sub, search)
  }

  /** One step of the grouping loop: log `l` joins the group of its cleaned message, unless filtered out. */
  function AddLog(g: Grouping, l: IrLog, filters: seq<String>, cleaning: seq<String>, sub: Substitute, search: Search): Grouping
  {
    if RSearch(filters, l.message, search) then g
    else
      var fp := SubAll(cleaning, l.message, sub);
      if fp in g.groups then Grouping(g.keys, g.groups[fp := g.groups[fp] + [l]])
      else Grouping(g.keys + [fp], g.groups[fp := [l]])
  }

  lemma AddLogWellGrouped(g: Grouping, l: IrLog, filters: seq<String>, cleaning: seq<String>, sub: Substitute, search: Search)
    requires WellGrouped(g)
    ensures WellGrouped(AddLog(g, l, filters, cleaning, sub, search))
  {
  }

  lemma AddLogSound(g: Grouping, logs: seq<IrLog>, filters: seq<String>, cleaning: seq<String>, sub: Substitute, search: Search)
    requires logs != []
    requires forall k, x :: k in g.groups && x in g.groups[k] ==>
      x in logs[..|logs| - 1] && !RSearch(filters, x.message, search) && SubAll(cleaning, x.message, sub) == k
    ensures var g2 := AddLog(g, logs[|logs| - 1], filters, cleaning, sub, search);
      forall k, x :: k in g2.groups && x in g2.groups[k] ==>
        x in logs && !RSearch(filters, x.message, search) && SubAll(cleaning, x.message, sub) == k
  {
    var l := logs[|logs| - 1];
    var g2 := AddLog(g, l, filters, cleaning, sub, search);
    forall k, x | k in g2.groups && x in g2.groups[k]
      ensures x in logs && !RSearch(filters, x.message, search) && SubAll(cleaning, x.message, sub) == k
    {
      if x != l || (k in g.groups && x in g.groups[k]) {
        assert x in logs[..|logs| - 1];
      }
    }
  }

  lemma AddLogComplete(g: Grouping, logs: seq<IrLog>, filters: seq<String>, cleaning: seq<String>, sub: Substitute, search: Search)
    requires logs != []
    requires forall x :: x in logs[..|logs| - 1] && !RSearch(filters, x.message, search) ==>
      SubAll(cleaning, x.message, sub) in g.groups && x in g.groups[SubAll(cleaning, x.message, sub)]
    ensures var g2 := AddLog(g, logs[|logs| - 1], filters, cleaning, sub, search);
      forall x :: x in logs && !RSearch(filters, x.message, search) ==>
        SubAll(cleaning, x.message, sub) in g2.groups && x in g2.groups[SubAll(cleaning, x.message, sub)]
  {
    assert logs == logs[..|logs| - 1] + [logs[|logs| - 1]];
  }

  function BuildsOf(logs: seq<IrLog>): set<nat>
  {
    set l | l in logs :: l.build
  }

  /** Error `i` is active and its fingerprint is one of the scanned fingerprints. */
  predicate KnownAt(errors: seq<BuildError>, i: nat, g: Grouping)
    requires i < |errors|
  {
    errors[i].active && errors[i].fingerprint in g.groups
  }

  /**
   * Error `i` is the first active error (in id order) with its scanned
   * fingerprint: the one that finds the logs still in `hash_dict`.
   */
  predicate FirstKnownAt(errors: seq<BuildError>, i: nat, g: Grouping)
    requires i < |errors|
  {
    KnownAt(errors, i, g) && forall k :: 0 <= k < i && errors[k].active ==> errors[k].fingerprint != errors[i].fingerprint
  }

  /** Some active error already has fingerprint `fp`. */
  predicate Known(errors: seq<BuildError>, fp: String)
  {
    exists i :: 0 <= i < |errors| && errors[i].active && errors[i].fingerprint == fp
  }

  /**
   * The second loop: the first active error with a scanned fingerprint gains
   * the builds of its logs; a later one finds the fingerprint already deleted,
   * reads an empty list from the `defaultdict` and gains nothing.
   */
  function Attached(errors: seq<BuildError>, g: Grouping): (r: seq<BuildError>)
    ensures |r| == |errors|
    ensures forall i :: 0 <= i < |errors| ==> r[i].active == errors[i].active && r[i].fingerprint == errors[i].fingerprint
  {
    seq(|errors|, i requires 0 <= i < |errors| =>
      if FirstKnownAt(errors, i, g) then errors[i].(builds := errors[i].builds + BuildsOf(g.groups[errors[i].fingerprint]))
      else errors[i])
  }

  /** The third loop: one new error per fingerprint that no active error has, in first-seen order. */
  function Created(keys: seq<String>, g: Grouping, errors: seq<BuildError>,
                   cleaning: seq<String>, sub: Substitute, teams: seq<Team>, fnmatch: FnMatch): (r: seq<BuildError>)
    requires forall k :: k in keys ==> k in g.groups && g.groups[k] != []
    ensures |r| <= |keys|
    decreases |keys|
  {
    if keys == [] then []
    else
      var n := |keys| - 1;
      var rest := Created(keys[..n], g, errors, cleaning, sub, teams, fnmatch);
      var logs := g.groups[keys[n]];
      if Known(errors, keys[n]) then rest
      else rest + [NewError(logs[0].message, logs[0].name, BuildsOf(logs), cleaning, sub, teams, fnmatch)]
  }

  /** No two active errors share a fingerprint. */
  predicate UniqueActive(errors: seq<BuildError>)
  {
    forall i, j :: 0 <= i < j < |errors| && errors[i].active && errors[j].active ==> errors[i].fingerprint != errors[j].fingerprint
  }

  class ErrorStore {
    var errors: seq<BuildError>

    ghost predicate Valid()
      reads this
    {
      forall k :: 0 <= k < |errors| ==>
        (errors[k].parent.Some? ==> errors[k].parent.value < |errors|) && TestTagsAllowed(errors[k].testTags)
    }

    constructor ()
      ensures Valid() && errors == []
    {
      errors := [];
    }

    /** Writing `test_tags`: refused (ValidationError) when the value contains '-'. */
    method WriteTestTags(k: nat, tags: Option<String>) returns (ok: bool)
      requires Valid() && k < |errors|
      modifies this
      ensures Valid()
      ensures ok == TestTagsAllowed(tags)
      ensures errors == if ok then old(errors)[k := old(errors)[k].(testTags := tags)] else old(errors)
    {
      ok := tags.None? || '-' !in tags.value;
      if ok {
        errors := errors[k := errors[k].(testTags := tags)];
      }
    }

    /**
     * `write({'active': value})` on the recordset `ids`. The recursive write on
     * `child_ids - self` never ends when a parent cycle leads out of the
     * recordset (`MixedCycleNeverEnds`), and the RecursionError leaves every
     * error as it was. Otherwise the value is written to the recordset and to
     * every error below it.
     */
    method WriteActive(ids: set<nat>, value: bool) returns (ok: bool, ghost reached: set<nat>)
      requires Valid() && InTable(ids, |errors|)
      modifies this
      ensures Valid()
      ensures ok <==> !MixedCycle(old(errors), ids)
      ensures !ok ==> errors == old(errors)
      ensures ok ==> ActiveClosure(old(errors), ids, reached) && errors == SetActive(old(errors), reached, value)
      ensures ok ==> forall other :: ActiveClosure(old(errors), ids, other) ==> reached <= other
    {
      if MixedCycle(errors, ids) {
        return false, {};
      }
      ok := true;
      var r := ReachBelow(errors, ids);
      reached := r;
      var es := errors;
      errors := SetActive(es, r, value);
      assert forall i :: 0 <= i < |errors| ==> errors[i].parent == es[i].parent && errors[i].testTags == es[i].testTags;
    }

    /**
     * `link_errors` on the recordset `ids`: with two errors or more, the first
     * one in `responsible asc, random desc, id asc` becomes the parent of all
     * the others.
     */
    method LinkErrors(ids: set<nat>) returns (chosen: Option<nat>)
      requires Valid() && InTable(ids, |errors|)
      modifies this
      ensures Valid()
      ensures chosen.None? <==> |ids| < 2
      ensures chosen.Some? ==> (chosen.value in ids
        && forall k :: k in ids && k != chosen.value ==> LinkBefore(old(errors), chosen.value, k))
      ensures errors == if chosen.None? then old(errors) else
        seq(|old(errors)|, i requires 0 <= i < |old(errors)| =>
          if i in ids && i != chosen.value then old(errors)[i].(parent := chosen) else old(errors)[i])
    {
      if |ids| < 2 {
        return None;
      }
      var best: Option<nat> := None;
      var j := 0;
      while j < |errors|
        invariant 0 <= j <= |errors| && errors == old(errors)
        invariant best.None? <==> forall k :: k in ids ==> k >= j
        invariant best.Some? ==> (best.value in ids && best.value < j
          && forall k :: k in ids && k < j && k != best.value ==> LinkBefore(errors, best.value, k))
      {
        if j in ids {
          if best.None? || LinkBefore(errors, j, best.value) {
            if best.Some? {
              forall k | k in ids && k < j && k != best.value
                ensures LinkBefore(errors, j, k)
              {
                LinkBeforeTransitive(errors, j, best.value, k);
              }
            }
            best := Some(j);
          } else {
            LinkBeforeTotal(errors, j, best.value);
          }
        }
        j := j + 1;
      }
      assert best.Some? by {
        var k :| k in ids;
        assert k < |errors|;
      }
      chosen := best;
      var es := errors;
      errors := seq(|es|, i requires 0 <= i < |es| =>
        if i in ids && i != best.value then es[i].(parent := best) else es[i]);
    }

    /** `_parse_logs(ir_logs)`: attach the builds to the known errors, then create the new ones. */
    method ParseLogs(logs: seq<IrLog>, regexes: seq<ErrorRegex>, sub: Substitute, search: Search,
                     teams: seq<Team>, fnmatch: FnMatch)
      requires Valid()
      modifies this
      ensures Valid()
      ensures errors == AfterParse(old(errors), GroupLogs(logs, Patterns(regexes, FilterOut), Patterns(regexes, Cleaning), sub, search),
                                   Patterns(regexes, Cleaning), sub, teams, fnmatch)
    {
      var filters := Patterns(regexes, FilterOut);
      var cleaning := Patterns(regexes, Cleaning);
      var g := GroupLogsIter(logs, filters, cleaning, sub, search);
      var attached, deleted := AttachAll(errors, g);
      var created := CreateAll(g, deleted, errors, cleaning, sub, teams, fnmatch);
      CreatedFresh(g.keys, g, errors, cleaning, sub, teams, fnmatch);
      errors := attached + created;
    }
  }

  lemma GroupLogsStep(logs: seq<IrLog>, i: nat, filters: seq<String>, cleaning: seq<String>, sub: Substitute, search: Search)
    requires i < |logs|
    ensures GroupLogs(logs[..i + 1], filters, cleaning, sub, search)
      == AddLog(GroupLogs(logs[..i], filters, cleaning, sub, search), logs[i], filters, cleaning, sub, search)
  {
    assert logs[..i + 1][..i] == logs[..i];
  }

  /** The grouping loop of `_parse_logs`. */
  method GroupLogsIter(logs: seq<IrLog>, filters: seq<String>, cleaning: seq<String>, sub: Substitute, search: Search)
    returns (g: Grouping)
    ensures g == GroupLogs(logs, filters, cleaning, sub, search)
  {
    var keys: seq<String> := [];
    var groups: map<String, seq<IrLog>> := map[];
    var i := 0;
    while i < |logs|
      invariant 0 <= i <= |logs|
      invariant Grouping(keys, groups) == GroupLogs(logs[..i], filters, cleaning, sub, search)
    {
      GroupLogsStep(logs, i, filters, cleaning, sub, search);
      var l := logs[i];
      if !RSearch(filters, l.message, search) {
        var fp := RSub(cleaning, "%", l.message, sub);
        if fp in groups {
          groups := groups[fp := groups[fp] + [l]];
        } else {
          keys := keys + [fp];
          groups := groups[fp := [l]];
        }
      }
      i := i + 1;
    }
    assert logs[..i] == logs;
    g := Grouping(keys, groups);
  }

  /**
   * The attaching loop of `_parse_logs`, over the active errors with a
   * scanned fingerprint in id order: the first one of each fingerprint gains
   * the builds of its logs and the fingerprint leaves `hash_dict`
   * (`deleted`); a later one looks the fingerprint up again, gets the
   * `defaultdict`'s fresh empty list, gains nothing and deletes that list.
   */
  method AttachAll(errors: seq<BuildError>, g: Grouping) returns (r: seq<BuildError>, deleted: set<String>)
    ensures r == Attached(errors, g)
    ensures forall fp :: fp in g.groups ==> (fp in deleted <==> Known(errors, fp))
  {
    r := errors;
    deleted := {};
    var j := 0;
    while j < |errors|
      invariant 0 <= j <= |errors| && |r| == |errors|
      invariant forall k :: 0 <= k < j ==> r[k] == Attached(errors, g)[k]
      invariant forall k :: j <= k < |errors| ==> r[k] == errors[k]
      invariant forall fp :: fp in deleted <==> exists k :: 0 <= k < j && KnownAt(errors, k, g) && errors[k].fingerprint == fp
    {
      var e := errors[j];
      if e.active && e.fingerprint in g.groups {
        var found := if e.fingerprint in deleted then [] else g.groups[e.fingerprint];
        r := r[j := e.(builds := e.builds + BuildsOf(found))];
        deleted := deleted + {e.fingerprint};
      }
      j := j + 1;
    }
    assert r == Attached(errors, g);
  }

  /** The creating loop of `_parse_logs`: one error per fingerprint left in `hash_dict`. */
  method CreateAll(g: Grouping, deleted: set<String>, errors: seq<BuildError>,
                   cleaning: seq<String>, sub: Substitute, teams: seq<Team>, fnmatch: FnMatch) returns (created: seq<BuildError>)
    requires WellGrouped(g)
    requires forall fp :: fp in g.groups ==> (fp in deleted <==> Known(errors, fp))
    ensures created == Created(g.keys, g, errors, cleaning, sub, teams, fnmatch)
  {
    var keys := g.keys;
    created := [];
    var n := 0;
    while n < |keys|
      invariant 0 <= n <= |keys|
      invariant created == Created(keys[..n], g, errors, cleaning, sub, teams, fnmatch)
    {
      CreatedExtend(keys, n, g, errors, cleaning, sub, teams, fnmatch);
      var key := keys[n];
      if key !in deleted {
        var ls := g.groups[key];
        var team := GetTeam(teams, ls[0].name, fnmatch);
        var cleaned := RSub(cleaning, "%", ls[0].message, sub);
        var e := BuildError(ls[0].message, cleaned, cleaned, Some(ls[0].name), true, false, None, None,
                            BuildsOf(ls), team, None);
        assert e == NewError(ls[0].message, ls[0].name, BuildsOf(ls), cleaning, sub, teams, fnmatch);
        created := created + [e];
      }
      n := n + 1;
    }
    assert keys[..n] == keys;
  }

  /** One step of the creating loop, in terms of `Created`. */
  lemma CreatedExtend(keys: seq<String>, n: nat, g: Grouping, errors: seq<BuildError>,
                      cleaning: seq<String>, sub: Substitute, teams: seq<Team>, fnmatch: FnMatch)
    requires forall k :: k in keys ==> k in g.groups && g.groups[k] != []
    requires n < |keys|
    ensures var logs := g.groups[keys[n]];
      Created(keys[..n + 1], g, errors, cleaning, sub, teams, fnmatch)
      == if Known(errors, keys[n]) then Created(keys[..n], g, errors, cleaning, sub, teams, fnmatch)
         else Created(keys[..n], g, errors, cleaning, sub, teams, fnmatch)
              + [NewError(logs[0].message, logs[0].name, BuildsOf(logs), cleaning, sub, teams, fnmatch)]
  {
    assert keys[..n + 1][..n] == keys[..n];
  }

  /** Created errors have no parent and no test tags. */
  lemma {:induction false} CreatedFresh(keys: seq<String>, g: Grouping, errors: seq<BuildError>,
                                       cleaning: seq<String>, sub: Substitute, teams: seq<Team>, fnmatch: FnMatch)
    requires forall k :: k in keys ==> k in g.groups && g.groups[k] != []
    ensures forall e :: e in Created(keys, g, errors, cleaning, sub, teams, fnmatch) ==> e.parent.None? && e.testTags.None?
    decreases |keys|
  {
    if keys != [] {
      CreatedFresh(keys[..|keys| - 1], g, errors, cleaning, sub, teams, fnmatch);
    }
  }

  /** What `_parse_logs` leaves behind when it succeeds. */
  function AfterParse(errors: seq<BuildError>, g: Grouping, cleaning: seq<String>, sub: Substitute,
                      teams: seq<Team>, fnmatch: FnMatch): seq<BuildError>
    requires WellGrouped(g)
  {
    Attached(errors, g) + Created(g.keys, g, errors, cleaning, sub, teams, fnmatch)
  }

  // ------------------------------------------------------------ scan properties

  /** Every log of a group cleans to the group's fingerprint. */
  ghost predicate GroupSound(g: Grouping, cleaning: seq<String>, sub: Substitute)
  {
    forall k, l :: k in g.groups && l in g.groups[k] ==> SubAll(cleaning, l.message, sub) == k
  }

  /** The fingerprint `k` without an active error gets one new active error carrying the builds of its logs. */
  lemma {:induction false} CreatedCovers(keys: seq<String>, g: Grouping, errors: seq<BuildError>,
                                        cleaning: seq<String>, sub: Substitute, teams: seq<Team>, fnmatch: FnMatch, k: String)
    requires forall k :: k in keys ==> k in g.groups && g.groups[k] != []
    requires GroupSound(g, cleaning, sub)
    requires k in keys && !Known(errors, k)
    ensures exists e :: (e in Created(keys, g, errors, cleaning, sub, teams, fnmatch)
                         && e.active && e.fingerprint == k && e.builds == BuildsOf(g.groups[k]))
    decreases |keys|
  {
    var n := |keys| - 1;
    if k == keys[n] {
      CreatedLast(keys, g, errors, cleaning, sub, teams, fnmatch);
    } else {
      assert k in keys[..n];
      CreatedCovers(keys[..n], g, errors, cleaning, sub, teams, fnmatch, k);
      var e :| e in Created(keys[..n], g, errors, cleaning, sub, teams, fnmatch)
               && e.active && e.fingerprint == k && e.builds == BuildsOf(g.groups[k]);
      CreatedGrows(keys, g, errors, cleaning, sub, teams, fnmatch, e);
    }
  }

  /** Scanning one more fingerprint keeps every error already created. */
  lemma CreatedGrows(keys: seq<String>, g: Grouping, errors: seq<BuildError>,
                     cleaning: seq<String>, sub: Substitute, teams: seq<Team>, fnmatch: FnMatch, e: BuildError)
    requires forall k :: k in keys ==> k in g.groups && g.groups[k] != []
    requires keys != [] && e in Created(keys[..|keys| - 1], g, errors, cleaning, sub, teams, fnmatch)
    ensures e in Created(keys, g, errors, cleaning, sub, teams, fnmatch)
  {
  }

  /** The last fingerprint scanned, when no active error has it, gets its own new error. */
  lemma CreatedLast(keys: seq<String>, g: Grouping, errors: seq<BuildError>,
                    cleaning: seq<String>, sub: Substitute, teams: seq<Team>, fnmatch: FnMatch)
    requires forall k :: k in keys ==> k in g.groups && g.groups[k] != []
    requires GroupSound(g, cleaning, sub)
    requires keys != [] && !Known(errors, keys[|keys| - 1])
    ensures exists e :: (e in Created(keys, g, errors, cleaning, sub, teams, fnmatch)
                         && e.active && e.fingerprint == keys[|keys| - 1]
                         && e.builds == BuildsOf(g.groups[keys[|keys| - 1]]))
  {
    var k := keys[|keys| - 1];
    var logs := g.groups[k];
    assert logs[0] in logs;
    var e := NewError(logs[0].message, logs[0].name, BuildsOf(logs), cleaning, sub, teams, fnmatch);
    assert e.fingerprint == k;
    assert e in Created(keys, g, errors, cleaning, sub, teams, fnmatch);
  }

  /** Created errors are active, have distinct fingerprints, and none of those belongs to an active error. */
  lemma {:induction false} CreatedDistinct(keys: seq<String>, g: Grouping, errors: seq<BuildError>,
                                          cleaning: seq<String>, sub: Substitute, teams: seq<Team>, fnmatch: FnMatch)
    requires forall k :: k in keys ==> k in g.groups && g.groups[k] != []
    requires GroupSound(g, cleaning, sub) && Distinct(keys)
    ensures var r := Created(keys, g, errors, cleaning, sub, teams, fnmatch);
      (forall e :: e in r ==> e.active && e.fingerprint in keys && !Known(errors, e.fingerprint))
      && forall a, b :: 0 <= a < b < |r| ==> r[a].fingerprint != r[b].fingerprint
    decreases |keys|
  {
    if keys != [] {
      var n := |keys| - 1;
      CreatedDistinct(keys[..n], g, errors, cleaning, sub, teams, fnmatch);
      CreatedExtend(keys, n, g, errors, cleaning, sub, teams, fnmatch);
      assert keys[..n + 1] == keys;
      var rest := Created(keys[..n], g, errors, cleaning, sub, teams, fnmatch);
      assert forall k :: k in keys[..n] ==> k in keys;
      if !Known(errors, keys[n]) {
        var logs := g.groups[keys[n]];
        assert logs[0] in logs;
        var e := NewError(logs[0].message, logs[0].name, BuildsOf(logs), cleaning, sub, teams, fnmatch);
        assert e.fingerprint == keys[n];
        assert keys[n] !in keys[..n];
        AppendFreshFingerprint(rest, e);
      }
    }
  }

  /** Appending an error whose fingerprint none of `rest` has keeps the fingerprints distinct. */
  lemma AppendFreshFingerprint(rest: seq<BuildError>, e: BuildError)
    requires forall x :: x in rest ==> x.fingerprint != e.fingerprint
    requires forall a, b :: 0 <= a < b < |rest| ==> rest[a].fingerprint != rest[b].fingerprint
    ensures var r := rest + [e];
      forall a, b :: 0 <= a < b < |r| ==> r[a].fingerprint != r[b].fingerprint
  {
    var r := rest + [e];
    forall a, b | 0 <= a < b < |r|
      ensures r[a].fingerprint != r[b].fingerprint
    {
      assert r[a] in rest;
    }
  }

  /**
   * A successful scan leaves every unfiltered log's build on an active error
   * whose fingerprint is that log's cleaned message.
   */
  lemma ParseLogsCoversEveryLog(errors: seq<BuildError>, logs: seq<IrLog>, filters: seq<String>, cleaning: seq<String>,
                                sub: Substitute, search: Search, teams: seq<Team>, fnmatch: FnMatch, l: IrLog)
    requires l in logs && !RSearch(filters, l.message, search)
    ensures var g := GroupLogs(logs, filters, cleaning, sub, search);
      var after := AfterParse(errors, g, cleaning, sub, teams, fnmatch);
      exists e :: e in after && e.active && e.fingerprint == SubAll(cleaning, l.message, sub) && l.build in e.builds
  {
    var g := GroupLogs(logs, filters, cleaning, sub, search);
    var fp := SubAll(cleaning, l.message, sub);
    var att := Attached(errors, g);
    var created := Created(g.keys, g, errors, cleaning, sub, teams, fnmatch);
    assert l in g.groups[fp];
    assert l.build in BuildsOf(g.groups[fp]);
    if Known(errors, fp) {
      var i :| 0 <= i < |errors| && errors[i].active && errors[i].fingerprint == fp;
      var f := FirstKnown(errors, g, i);
      assert att[f] in att + created;
    } else {
      CreatedCovers(g.keys, g, errors, cleaning, sub, teams, fnmatch, fp);
      var e :| e in created && e.active && e.fingerprint == fp && e.builds == BuildsOf(g.groups[fp]);
      assert e in att + created;
    }
  }

  /** The first active error (in id order) with the fingerprint of known error `i`. */
  lemma {:induction false} FirstKnown(errors: seq<BuildError>, g: Grouping, i: nat) returns (f: nat)
    requires i < |errors| && KnownAt(errors, i, g)
    ensures f <= i && FirstKnownAt(errors, f, g) && errors[f].fingerprint == errors[i].fingerprint
    decreases i
  {
    if FirstKnownAt(errors, i, g) {
      f := i;
    } else {
      var k :| 0 <= k < i && errors[k].active && errors[k].fingerprint == errors[i].fingerprint;
      f := FirstKnown(errors, g, k);
    }
  }

  /**
   * Two active errors share a scanned fingerprint: the first (in id order)
   * gains the builds of the fingerprint's logs and the later one is left
   * exactly as it was; nothing fails.
   */
  lemma DuplicateGainsNothing(errors: seq<BuildError>, g: Grouping, i: nat, j: nat)
    requires i < j < |errors| && FirstKnownAt(errors, i, g)
    requires errors[j].active && errors[j].fingerprint == errors[i].fingerprint
    ensures Attached(errors, g)[i].builds == errors[i].builds + BuildsOf(g.groups[errors[i].fingerprint])
    ensures Attached(errors, g)[j] == errors[j]
  {
    assert !FirstKnownAt(errors, j, g);
  }

  /** Two tables without a shared active fingerprint join into one. */
  lemma UniqueActiveAppend(a: seq<BuildError>, b: seq<BuildError>)
    requires UniqueActive(a) && UniqueActive(b)
    requires forall i, e :: 0 <= i < |a| && e in b && a[i].active && e.active ==> a[i].fingerprint != e.fingerprint
    ensures UniqueActive(a + b)
  {
    var r := a + b;
    forall i, j | 0 <= i < j < |r| && r[i].active && r[j].active
      ensures r[i].fingerprint != r[j].fingerprint
    {
      if j < |a| {
        assert r[i] == a[i] && r[j] == a[j];
      } else if i < |a| {
        assert r[j] == b[j - |a|] && b[j - |a|] in b;
      } else {
        assert r[i] == b[i - |a|] && r[j] == b[j - |a|];
      }
    }
  }

  /** With at most one active error per fingerprint, the scan keeps that property. */
  lemma ParseLogsKeepsUniqueActive(errors: seq<BuildError>, logs: seq<IrLog>, filters: seq<String>, cleaning: seq<String>,
                                   sub: Substitute, search: Search, teams: seq<Team>, fnmatch: FnMatch)
    requires UniqueActive(errors)
    ensures var g := GroupLogs(logs, filters, cleaning, sub, search);
      UniqueActive(AfterParse(errors, g, cleaning, sub, teams, fnmatch))
  {
    var g := GroupLogs(logs, filters, cleaning, sub, search);
    var att := Attached(errors, g);
    var created := Created(g.keys, g, errors, cleaning, sub, teams, fnmatch);
    CreatedDistinct(g.keys, g, errors, cleaning, sub, teams, fnmatch);
    assert UniqueActive(att);
    forall i, e | 0 <= i < |att| && e in created && att[i].active && e.active
      ensures att[i].fingerprint != e.fingerprint
    {
      assert !Known(errors, e.fingerprint);
      assert errors[i].active;
    }
    UniqueActiveAppend(att, created);
  }
}
