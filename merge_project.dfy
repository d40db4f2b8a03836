// Rules of the merge bot's project: the name of the next freeze branch, the
// recognition of bot commands in comments, and the staging cron loops
// (runbot_merge/models/project.py).
module MergeProject {
  import opened Wrappers
  import opened Text

  // ------------------------------------------------------------ next freeze

  /** `\d+(?:\.\d+)?` covering the whole of `s`: the major digits and the optional minor digits. */
  predicate VersionShaped(s: String)
  {
    exists k :: 0 < k <= |s| && VersionAt(s, k)
  }

  /** `s` is `X` or `X.Y` with the major digits `X` ending at `k`. */
  predicate VersionAt(s: String, k: int)
  {
    0 < k <= |s| && AllDigits(s[..k]) && (k == |s| || (k < |s| - 1 && s[k] == '.' && AllDigits(s[k + 1..])))
  }

  predicate IsDot(c: char)
  {
    c == '.'
  }

  /** The first '.' of `a.b` for digits `a` is the one after `a`. */
  lemma DotAfterDigits(a: String, b: String)
    requires AllDigits(a)
    ensures IndexWhere(a + "." + b, IsDot) == |a|
  {
    var s := a + "." + b;
    assert IsDot(s[|a|]);
    DigitsLackChar(a, '.');
    assert forall j :: 0 <= j < |a| ==> s[j] == a[j];
  }

  /** Split of a version-shaped string into its two groups. */
  function VersionGroups(s: String): (r: (String, Option<String>))
    requires VersionShaped(s)
    ensures r.0 != [] && AllDigits(r.0)
    ensures r.1.Some? ==> r.1.value != [] && AllDigits(r.1.value)
    ensures s == r.0 + (if r.1.Some? then "." + r.1.value else "")
  {
    VersionDot(s);
    var k := IndexWhere(s, IsDot);
    if k == |s| then
      assert s[..k] == s;
      (s, None)
    else
      assert s == s[..k] + "." + s[k + 1..];
      (s[..k], Some(s[k + 1..]))
  }

  /** In a version-shaped string the first '.' ends the major digits. */
  lemma VersionDot(s: String)
    requires VersionShaped(s)
    ensures var k := IndexWhere(s, IsDot);
      0 < k <= |s| && AllDigits(s[..k]) && (k == |s| || (k < |s| - 1 && s[k] == '.' && AllDigits(s[k + 1..])))
  {
    var k := IndexWhere(s, IsDot);
    var k0 :| 0 < k0 <= |s| && VersionAt(s, k0);
    forall j | 0 <= j < k0
      ensures !IsDot(s[j])
    {
      assert s[j] == s[..k0][j];
    }
    assert k0 < |s| ==> IsDot(s[k0]);
    assert k == k0;
  }

  /** The leftmost position from `i` on where `(\d+)(?:\.(\d+))?$` matches. */
  function VersionStart(s: String, i: nat): (r: Option<nat>)
    requires i <= |s|
    ensures r.Some? ==> i <= r.value < |s| && VersionShaped(s[r.value..])
    ensures r.Some? ==> forall j :: i <= j < r.value ==> !VersionShaped(s[j..])
    ensures r.None? ==> forall j :: i <= j <= |s| ==> !VersionShaped(s[j..])
    decreases |s| - i
  {
    if i == |s| then None
    else if VersionShaped(s[i..]) then Some(i)
    else VersionStart(s, i + 1)
  }

  /**
   * `_next_freeze`: from the project's second branch (in branch order), the
   * leftmost trailing `X` or `X.Y` becomes `X.(Y+1)` (`X.1` without `Y`);
   * a name without trailing number gives `post-<name>`; no second branch (or
   * an empty name) gives None.
   */
  function NextFreeze(branches: seq<String>): (r: Option<String>)
    ensures |branches| < 2 ==> r.None?
  {
    if |branches| < 2 || branches[1] == [] then None
    else
      var prev := branches[1];
      match VersionStart(prev, 0)
      case None => Some("post-" + prev)
      case Some(i) =>
        var (major, minor) := VersionGroups(prev[i..]);
        var next := (if minor.Some? then DigitsValue(minor.value) else 0) + 1;
        Some(major + "." + NatToString(next))
  }

  /** No suffix starting inside a prefix ending in a character other than a digit or '.' is version-shaped. */
  lemma NoVersionAcrossSeparator(p: String, v: String, j: nat)
    requires p != [] && !IsDigit(p[|p| - 1]) && p[|p| - 1] != '.' && j < |p|
    ensures !VersionShaped((p + v)[j..])
  {
    var s := (p + v)[j..];
    var c := |p| - 1 - j;
    assert s[c] == p[|p| - 1];
    forall k | 0 < k <= |s|
      ensures !VersionAt(s, k)
    {
      if c < k {
        assert s[..k][c] == s[c];
      } else if k < c {
        assert s[k + 1..][c - k - 1] == s[c];
      }
    }
  }

  lemma {:induction false} VersionStartAfter(p: String, v: String, i: nat)
    requires p == [] || (!IsDigit(p[|p| - 1]) && p[|p| - 1] != '.')
    requires VersionShaped(v) && i <= |p|
    ensures VersionStart(p + v, i) == Some(|p|)
    decreases |p| - i
  {
    var s := p + v;
    assert s[|p|..] == v;
    if i < |p| {
      NoVersionAcrossSeparator(p, v, i);
      VersionStartAfter(p, v, i + 1);
    }
  }

  lemma MajorShaped(x: nat)
    ensures VersionShaped(NatToString(x)) && VersionGroups(NatToString(x)) == (NatToString(x), None)
  {
    var v := NatToString(x);
    assert v[..|v|] == v;
    assert VersionAt(v, |v|);
    var g := VersionGroups(v);
    assert v + "" == v;
    DotAfterDigits(g.0, "");
  }

  lemma MinorShaped(x: nat, y: nat)
    ensures var v := NatToString(x) + "." + NatToString(y);
      VersionShaped(v) && VersionGroups(v) == (NatToString(x), Some(NatToString(y)))
  {
    var sx := NatToString(x);
    var v := sx + "." + NatToString(y);
    assert v[..|sx|] == sx;
    assert v[|sx|] == '.' && v[|sx| + 1..] == NatToString(y);
    assert VersionAt(v, |sx|);
    var g := VersionGroups(v);
    DigitsLackChar(sx, '.');
    assert g.1.Some? by {
      DotAfterDigits(sx, NatToString(y));
    }
    VersionSplitUnique(g.0, g.1.value, sx, NatToString(y));
  }

  lemma VersionSplitUnique(a: String, b: String, c: String, d: String)
    requires AllDigits(a) && AllDigits(c) && a + "." + b == c + "." + d
    ensures a == c && b == d
  {
    DotAfterDigits(a, b);
    DotAfterDigits(c, d);
    var s := a + "." + b;
    assert a == s[..|a|] && c == s[..|c|];
    assert b == s[|a| + 1..] && d == s[|c| + 1..];
  }

  /** `NextFreeze` once the version suffix `v` of the second branch is located at `i`. */
  lemma NextFreezeAt(branches: seq<String>, i: nat, v: String)
    requires |branches| >= 2 && branches[1] != [] && VersionStart(branches[1], 0) == Some(i)
    requires i <= |branches[1]| && branches[1][i..] == v && VersionShaped(v)
    ensures var g := VersionGroups(v);
      NextFreeze(branches) == Some(g.0 + "." + NatToString((if g.1.Some? then DigitsValue(g.1.value) else 0) + 1))
  {
  }

  /** A second branch `<p>X.Y` gives `X.(Y+1)`, for a prefix `p` not ending in a digit or '.'. */
  lemma NextFreezeBumpsMinor(first: String, p: String, x: nat, y: nat, rest: seq<String>)
    requires p == [] || (!IsDigit(p[|p| - 1]) && p[|p| - 1] != '.')
    ensures NextFreeze([first, p + NatToString(x) + "." + NatToString(y)] + rest) == Some(NatToString(x) + "." + NatToString(y + 1))
  {
    var sx, sy := NatToString(x), NatToString(y);
    var v := sx + "." + sy;
    MinorShaped(x, y);
    DigitsValueOfNatToString(y);
    SecondBranchVersion(first, p, v, rest);
    PrefixedVersion(p, sx, sy);
  }

  lemma PrefixedVersion(p: String, sx: String, sy: String)
    ensures p + sx + "." + sy == p + (sx + "." + sy)
  {
  }

  /** `NextFreeze` when the second branch is a prefix `p` followed by a version suffix `v`. */
  lemma SecondBranchVersion(first: String, p: String, v: String, rest: seq<String>)
    requires p == [] || (!IsDigit(p[|p| - 1]) && p[|p| - 1] != '.')
    requires VersionShaped(v)
    ensures var g := VersionGroups(v);
      NextFreeze([first, p + v] + rest) == Some(g.0 + "." + NatToString((if g.1.Some? then DigitsValue(g.1.value) else 0) + 1))
  {
    var branches := [first, p + v] + rest;
    VersionSuffixAt(p, v);
    assert branches[1] == p + v;
    NextFreezeAt(branches, |p|, v);
  }

  lemma VersionSuffixAt(p: String, v: String)
    requires p == [] || (!IsDigit(p[|p| - 1]) && p[|p| - 1] != '.')
    requires VersionShaped(v)
    ensures p + v != [] && VersionStart(p + v, 0) == Some(|p|) && (p + v)[|p|..] == v
  {
    VersionStartAfter(p, v, 0);
    assert (p + v)[|p|..] == v;
  }

  /** A second branch `<p>X` gives `X.1`. */
  lemma NextFreezeStartsMinor(first: String, p: String, x: nat, rest: seq<String>)
    requires p == [] || (!IsDigit(p[|p| - 1]) && p[|p| - 1] != '.')
    ensures NextFreeze([first, p + NatToString(x)] + rest) == Some(NatToString(x) + ".1")
  {
    var v := NatToString(x);
    MajorShaped(x);
    SecondBranchVersion(first, p, v, rest);
    assert NatToString(0 + 1) == "1";
    assert v + "." + "1" == v + ".1";
  }

  lemma VersionEndsInDigit(s: String)
    ensures VersionShaped(s) ==> s != [] && IsDigit(s[|s| - 1])
  {
    if VersionShaped(s) {
      var k :| 0 < k <= |s| && VersionAt(s, k);
      if k == |s| {
        assert s[..k][k - 1] == s[k - 1];
      } else {
        assert s[k + 1..][|s| - k - 2] == s[|s| - 1];
      }
    }
  }

  /** A second branch not ending in a digit gives `post-<name>`. */
  lemma NextFreezeWithoutNumber(first: String, name: String, rest: seq<String>)
    requires name != [] && !IsDigit(name[|name| - 1])
    ensures NextFreeze([first, name] + rest) == Some("post-" + name)
  {
    forall j | 0 <= j <= |name|
      ensures !VersionShaped(name[j..])
    {
      VersionEndsInDigit(name[j..]);
      assert j < |name| ==> name[j..][|name| - j - 1] == name[|name| - 1];
    }
  }

  // ------------------------------------------------------------ commands

  /** Characters the bot prefix is made of; other characters would be read as regex syntax. */
  predicate PlainPrefix(prefix: String)
  {
    prefix != [] && forall i :: 0 <= i < |prefix| ==>
      ('a' <= prefix[i] <= 'z' || 'A' <= prefix[i] <= 'Z' || '0' <= prefix[i] <= '9' || prefix[i] == '_' || prefix[i] == '-')
  }

  /** `<prefix in any case><':' or not> ` */
  predicate PrefixHead(v: String, prefix: String)
  {
    |v| > |prefix| && Lower(v[..|prefix|]) == Lower(prefix) && (v[|prefix|..] == " " || v[|prefix|..] == ": ")
  }

  /** An optional '@', '|' or '#', then a `PrefixHead`. */
  predicate MarkedHead(m: String, prefix: String)
  {
    PrefixHead(m, prefix) || (m != [] && (m[0] == '@' || m[0] == '|' || m[0] == '#') && PrefixHead(m[1..], prefix))
  }

  /** Whitespace, then a `MarkedHead`: what the pattern matches before its `(.*)` group. */
  predicate CommandHead(h: String, prefix: String)
  {
    exists b :: 0 <= b <= |h| && (forall i :: 0 <= i < b ==> IsSpace(h[i])) && MarkedHead(h[b..], prefix)
  }

  /** `line` ends in `c`, and what comes before `c` is a `CommandHead`. */
  predicate Carries(line: String, c: String, prefix: String)
  {
    |c| < |line| && c == line[|line| - |c|..] && CommandHead(line[..|line| - |c|], prefix)
  }

  /**
   * One line of a comment against `^\s*[@|#]?<prefix>:? (.*)$`: leading
   * whitespace, an optional '@', '|' or '#', the prefix in any letter case,
   * an optional ':', one space; the rest of the line is the command.
   */
  function LineCommand(line: String, prefix: String): (r: Option<String>)
    requires PlainPrefix(prefix)
    ensures r.Some? ==> Carries(line, r.value, prefix)
  {
    LineCommandCarries(line, prefix);
    PrefixedCommand(AfterMarker(StripLeft(line, IsSpace)), prefix)
  }

  lemma LineCommandCarries(line: String, prefix: String)
    requires PlainPrefix(prefix)
    ensures var r := PrefixedCommand(AfterMarker(StripLeft(line, IsSpace)), prefix);
      r.Some? ==> Carries(line, r.value, prefix)
  {
    var t := StripLeft(line, IsSpace);
    var r := PrefixedCommand(AfterMarker(t), prefix);
    if r.Some? {
      MarkedHeadOf(t, prefix, r.value);
      LineHeadOf(line, t, r.value, prefix);
    }
  }

  /** Leading whitespace before a marked head makes a command head. */
  lemma LineHeadOf(line: String, t: String, c: String, prefix: String)
    requires |t| <= |line| && t == line[|line| - |t|..]
    requires forall i :: 0 <= i < |line| - |t| ==> IsSpace(line[i])
    requires |c| < |t| && c == t[|t| - |c|..] && MarkedHead(t[..|t| - |c|], prefix)
    ensures Carries(line, c, prefix)
  {
    var b := |line| - |t|;
    var h := line[..|line| - |c|];
    assert h[b..] == t[..|t| - |c|];
    assert forall i :: 0 <= i < b ==> IsSpace(h[i]) by {
      forall i | 0 <= i < b ensures IsSpace(h[i]) {
        assert h[i] == line[i];
      }
    }
    assert 0 <= b <= |h| && MarkedHead(h[b..], prefix);
  }

  lemma MarkedHeadOf(t: String, prefix: String, c: String)
    requires PlainPrefix(prefix) && PrefixedCommand(AfterMarker(t), prefix) == Some(c)
    ensures |c| < |t| && c == t[|t| - |c|..] && MarkedHead(t[..|t| - |c|], prefix)
  {
    var u := AfterMarker(t);
    var m := t[..|t| - |c|];
    if |u| < |t| {
      assert m[1..] == u[..|u| - |c|];
    } else {
      assert m == u[..|u| - |c|];
    }
  }

  /** Drops one leading '@', '|' or '#'. */
  function AfterMarker(t: String): (u: String)
    ensures u == t || (t != [] && (t[0] == '@' || t[0] == '|' || t[0] == '#') && u == t[1..])
    ensures t != [] && (t[0] == '@' || t[0] == '|' || t[0] == '#') ==> u != t
  {
    if t != [] && (t[0] == '@' || t[0] == '|' || t[0] == '#') then t[1..] else t
  }

  /** The prefix in any letter case, an optional ':', one space: the rest is the command. */
  function PrefixedCommand(u: String, prefix: String): (r: Option<String>)
    requires PlainPrefix(prefix)
    ensures r.Some? ==> |r.value| < |u| && r.value == u[|u| - |r.value|..] && PrefixHead(u[..|u| - |r.value|], prefix)
  {
    if |u| >= |prefix| && Lower(u[..|prefix|]) == Lower(prefix) then
      var v := u[|prefix|..];
      var w := if v != [] && v[0] == ':' then v[1..] else v;
      if w != [] && w[0] == ' ' then
        var h := u[..|u| - |w| + 1];
        assert h[..|prefix|] == u[..|prefix|];
        assert h[|prefix|..] == (if |w| < |v| then ": " else " ");
        Some(w[1..])
      else None
    else None
  }

  /** What each line carries, line by line. */
  function LineResults(lines: seq<String>, prefix: String): (rs: seq<Option<String>>)
    requires PlainPrefix(prefix)
    ensures |rs| == |lines|
    ensures forall i :: 0 <= i < |lines| ==> rs[i] == LineCommand(lines[i], prefix)
  {
    seq(|lines|, i requires 0 <= i < |lines| => LineCommand(lines[i], prefix))
  }

  /** The present values, in order. */
  function Present(rs: seq<Option<String>>): (r: seq<String>)
    ensures |r| <= |rs|
    ensures forall c :: c in r <==> Some(c) in rs
  {
    if rs == [] then []
    else
      var rest := Present(rs[1..]);
      assert forall c :: Some(c) in rs <==> rs[0] == Some(c) || Some(c) in rs[1..];
      if rs[0].Some? then [rs[0].value] + rest else rest
  }

  /** The commands of every matching line, in order. */
  function LinesCommands(lines: seq<String>, prefix: String): (r: seq<String>)
    requires PlainPrefix(prefix)
    ensures |r| <= |lines|
    ensures forall c :: c in r <==> Some(c) in LineResults(lines, prefix)
  {
    Present(LineResults(lines, prefix))
  }

  /** `_find_commands(comment)`: `re.findall` in multiline, case-insensitive mode; lines end at '\n'. */
  function FindCommands(comment: String, prefix: String): (r: seq<String>)
    requires PlainPrefix(prefix)
    ensures forall c :: c in r <==> OnSomeLine(Split(comment, '\n'), c, prefix)
    ensures forall c :: c in r ==> '\n' !in c
  {
    FoundOnALine(Split(comment, '\n'), prefix);
    LinesCommands(Split(comment, '\n'), prefix)
  }

  /** Some line of `lines` carries the command `c`. */
  predicate OnSomeLine(lines: seq<String>, c: String, prefix: String)
    requires PlainPrefix(prefix)
  {
    exists i :: 0 <= i < |lines| && LineCommand(lines[i], prefix) == Some(c)
  }

  lemma FoundOnALine(lines: seq<String>, prefix: String)
    requires PlainPrefix(prefix)
    requires forall i :: 0 <= i < |lines| ==> '\n' !in lines[i]
    ensures forall c :: c in LinesCommands(lines, prefix) <==> OnSomeLine(lines, c, prefix)
    ensures forall c :: c in LinesCommands(lines, prefix) ==> '\n' !in c
  {
    var r := LinesCommands(lines, prefix);
    var rs := LineResults(lines, prefix);
    forall c ensures c in r <==> OnSomeLine(lines, c, prefix) {
      if c in r {
        var i :| 0 <= i < |rs| && rs[i] == Some(c);
      }
      if OnSomeLine(lines, c, prefix) {
        var i :| 0 <= i < |lines| && LineCommand(lines[i], prefix) == Some(c);
        assert rs[i] == Some(c);
      }
    }
    forall c | c in r ensures '\n' !in c {
      var i :| 0 <= i < |lines| && LineCommand(lines[i], prefix) == Some(c);
    }
  }

  /** The characters that may precede the bot prefix on a command line. */
  predicate Marker(marker: String)
  {
    marker == "" || marker == "@" || marker == "|" || marker == "#"
  }

  /** The line `<blank><marker><prefix in any case><':' or not> <command>` carries `command`. */
  lemma AddressedLineCommand(blank: String, marker: String, written: String, colon: bool,
                             command: String, prefix: String)
    requires PlainPrefix(prefix)
    requires forall i :: 0 <= i < |blank| ==> blank[i] == ' ' || blank[i] == '\t'
    requires Marker(marker)
    requires |written| == |prefix| && Lower(written) == Lower(prefix)
    ensures LineCommand(blank + (marker + (written + (if colon then ":" else "") + " " + command)), prefix) == Some(command)
  {
    var u := written + (if colon then ":" else "") + " " + command;
    var rest := marker + u;
    var line := blank + (marker + (written + (if colon then ":" else "") + " " + command));
    var head := LowerPrefixHead(written, prefix);
    assert u[0] == head;
    AfterMarkerOf(marker, u);
    StripLeftPrefix(blank, rest);
    PrefixedCommandOf(written, colon, command, prefix);
    assert StripLeft(line, IsSpace) == rest;
    assert LineCommand(line, prefix) == PrefixedCommand(u, prefix);
  }

  lemma AfterMarkerOf(marker: String, u: String)
    requires Marker(marker) && u != [] && !IsSpace(u[0]) && u[0] != '@' && u[0] != '|' && u[0] != '#'
    ensures AfterMarker(marker + u) == u && !IsSpace((marker + u)[0])
  {
    if marker == "" {
      assert marker + u == u;
    } else {
      assert (marker + u)[1..] == u;
    }
  }

  lemma PrefixedCommandOf(written: String, colon: bool, command: String, prefix: String)
    requires PlainPrefix(prefix)
    requires |written| == |prefix| && Lower(written) == Lower(prefix)
    ensures PrefixedCommand(written + (if colon then ":" else "") + " " + command, prefix) == Some(command)
  {
    var w := " " + command;
    assert w[0] == ' ' && w[1..] == command;
    if colon {
      ColonSpaceSplit(written, command);
      PrefixedCommandAt(written + ":" + " " + command, written, ":" + w, prefix);
      assert (":" + w)[0] == ':' && (":" + w)[1..] == w;
    } else {
      AppendEmpty(written);
      AppendAssoc(written, " ", command);
      PrefixedCommandAt(written + "" + " " + command, written, w, prefix);
    }
  }

  lemma ColonSpaceSplit(written: String, command: String)
    ensures written + ":" + " " + command == written + (":" + (" " + command))
  {
    AppendAssoc(written, ":", " ");
    AppendAssoc(written, ":" + " ", command);
    AppendAssoc(":", " ", command);
  }

  lemma PrefixedCommandAt(u: String, written: String, v: String, prefix: String)
    requires PlainPrefix(prefix)
    requires |written| == |prefix| && Lower(written) == Lower(prefix) && u == written + v
    ensures PrefixedCommand(u, prefix) ==
      var w := if v != [] && v[0] == ':' then v[1..] else v;
      if w != [] && w[0] == ' ' then Some(w[1..]) else None
  {
    assert u[..|prefix|] == written;
    assert u[|prefix|..] == v;
  }

  /**
   * A comment made of one line `<blank><marker><prefix in any case><':' or not> <command>`
   * yields exactly that command.
   */
  lemma AddressedLineYieldsCommand(blank: String, marker: String, written: String, colon: bool,
                                   command: String, prefix: String)
    requires PlainPrefix(prefix)
    requires forall i :: 0 <= i < |blank| ==> blank[i] == ' ' || blank[i] == '\t'
    requires Marker(marker)
    requires |written| == |prefix| && Lower(written) == Lower(prefix)
    requires '\n' !in command
    ensures FindCommands(blank + (marker + (written + (if colon then ":" else "") + " " + command)), prefix) == [command]
  {
    var line := blank + (marker + (written + (if colon then ":" else "") + " " + command));
    AddressedLineCommand(blank, marker, written, colon, command, prefix);
    AddressedLineLacksNewline(blank, marker, written, colon, command, prefix);
    OneLineYields(line, prefix, command);
  }

  /** A comment of a single line yields what that line carries. */
  lemma OneLineYields(line: String, prefix: String, command: String)
    requires PlainPrefix(prefix) && '\n' !in line && LineCommand(line, prefix) == Some(command)
    ensures FindCommands(line, prefix) == [command]
  {
    SplitWithoutSeparator(line, '\n');
    OneLineCommands(line, prefix, command);
  }

  lemma OneLineCommands(line: String, prefix: String, command: String)
    requires PlainPrefix(prefix) && LineCommand(line, prefix) == Some(command)
    ensures LinesCommands([line], prefix) == [command]
  {
    var rs := LineResults([line], prefix);
    assert rs[0] == LineCommand([line][0], prefix);
    assert rs == [Some(command)];
    PresentOne(command);
  }

  lemma PresentOne(c: String)
    ensures Present([Some(c)]) == [c]
  {
    assert [Some(c)][1..] == [];
  }

  lemma AddressedLineLacksNewline(blank: String, marker: String, written: String, colon: bool,
                                  command: String, prefix: String)
    requires PlainPrefix(prefix)
    requires forall i :: 0 <= i < |blank| ==> blank[i] == ' ' || blank[i] == '\t'
    requires Marker(marker)
    requires |written| == |prefix| && Lower(written) == Lower(prefix)
    requires '\n' !in command
    ensures '\n' !in blank + (marker + (written + (if colon then ":" else "") + " " + command))
  {
    WrittenLacksNewline(written, prefix);
    assert '\n' !in blank && '\n' !in marker;
  }

  lemma WrittenLacksNewline(written: String, prefix: String)
    requires PlainPrefix(prefix) && |written| == |prefix| && Lower(written) == Lower(prefix)
    ensures '\n' !in written
  {
    forall i | 0 <= i < |written|
      ensures written[i] != '\n'
    {
      assert LowerChar(written[i]) == Lower(written)[i] == Lower(prefix)[i] == LowerChar(prefix[i]);
    }
  }

  /** The first written character is a letter, digit, '_' or '-' (never whitespace or a marker). */
  function LowerPrefixHead(written: String, prefix: String): (c: char)
    requires PlainPrefix(prefix) && |written| == |prefix| && Lower(written) == Lower(prefix)
    ensures c == written[0] && !IsSpace(c) && c != '@' && c != '|' && c != '#' && c != '\n'
  {
    assert LowerChar(written[0]) == Lower(written)[0] == Lower(prefix)[0] == LowerChar(prefix[0]);
    written[0]
  }

  lemma {:induction false} StripLeftPrefix(blank: String, rest: String)
    requires forall i :: 0 <= i < |blank| ==> IsSpace(blank[i])
    requires rest != [] && !IsSpace(rest[0])
    ensures StripLeft(blank + rest, IsSpace) == rest
    decreases |blank|
  {
    var s := blank + rest;
    if blank != [] {
      assert s[0] == blank[0] && IsSpace(s[0]);
      assert s[1..] == blank[1..] + rest;
      assert forall i :: 0 <= i < |blank[1..]| ==> blank[1..][i] == blank[i + 1];
      StripLeftPrefix(blank[1..], rest);
      assert StripLeft(s, IsSpace) == StripLeft(s[1..], IsSpace);
    } else {
      assert s == rest;
      assert StripLeft(s, IsSpace) == s;
    }
  }

  lemma SplitWithoutSeparator(s: String, sep: char)
    requires sep !in s
    ensures Split(s, sep) == [s]
  {
  }

  // ------------------------------------------------------------ staging crons

  /** A branch as the staging crons see it. */
  datatype Branch = Branch(name: String, active: bool, activeStaging: Option<nat>)

  /**
   * What an external call did: it raised (the savepoint rolls it back), or it
   * left the branch with this active staging.
   */
  datatype Outcome = Raised | Left(staging: Option<nat>)

  /** The branch after one attempt: a raising attempt changes nothing. */
  function Apply(b: Branch, o: Outcome): Branch
  {
    if o.Raised? then b else b.(activeStaging := o.staging)
  }

  /** Branches `_create_stagings` tries: active ones without an active staging. */
  predicate NeedsStaging(b: Branch) { b.active && b.activeStaging.None? }

  /** Branches `_check_stagings` checks: active ones with an active staging. */
  predicate HasStaging(b: Branch) { b.active && b.activeStaging.Some? }

  /**
   * `_create_stagings`: `tryStaging(i)` is what `try_staging` does on branch
   * `i`. Returns the branches afterwards and the positions attempted.
   */
  method CreateStagings(branches: seq<Branch>, tryStaging: nat -> Outcome) returns (after: seq<Branch>, tried: seq<nat>)
    ensures |after| == |branches|
    ensures forall i :: 0 <= i < |branches| ==>
      after[i] == if NeedsStaging(branches[i]) then Apply(branches[i], tryStaging(i)) else branches[i]
    ensures forall i :: i in tried <==> 0 <= i < |branches| && NeedsStaging(branches[i])
    ensures forall a, b :: 0 <= a < b < |tried| ==> tried[a] < tried[b]
  {
    after := branches;
    tried := [];
    var i := 0;
    while i < |branches|
      invariant 0 <= i <= |branches| && |after| == |branches|
      invariant forall k :: 0 <= k < i ==>
        after[k] == if NeedsStaging(branches[k]) then Apply(branches[k], tryStaging(k)) else branches[k]
      invariant forall k :: i <= k < |branches| ==> after[k] == branches[k]
      invariant forall k :: k in tried <==> 0 <= k < i && NeedsStaging(branches[k])
      invariant forall a, b :: 0 <= a < b < |tried| ==> tried[a] < tried[b]
    {
      var b := branches[i];
      if b.active && b.activeStaging.None? {
        var o := tryStaging(i);
        if !o.Raised? {
          after := after[i := b.(activeStaging := o.staging)];
        }
        assert forall a :: 0 <= a < |tried| ==> tried[a] in tried;
        tried := tried + [i];
      }
      i := i + 1;
    }
  }

  /**
   * `_check_stagings`: `checkStatus(i)` is what `check_status` does on the
   * active staging of branch `i`.
   */
  method CheckStagings(branches: seq<Branch>, checkStatus: nat -> Outcome) returns (after: seq<Branch>, checked: seq<nat>)
    ensures |after| == |branches|
    ensures forall i :: 0 <= i < |branches| ==>
      after[i] == if HasStaging(branches[i]) then Apply(branches[i], checkStatus(i)) else branches[i]
    ensures forall i :: i in checked <==> 0 <= i < |branches| && HasStaging(branches[i])
    ensures forall a, b :: 0 <= a < b < |checked| ==> checked[a] < checked[b]
  {
    after := branches;
    checked := [];
    var i := 0;
    while i < |branches|
      invariant 0 <= i <= |branches| && |after| == |branches|
      invariant forall k :: 0 <= k < i ==>
        after[k] == if HasStaging(branches[k]) then Apply(branches[k], checkStatus(k)) else branches[k]
      invariant forall k :: i <= k < |branches| ==> after[k] == branches[k]
      invariant forall k :: k in checked <==> 0 <= k < i && HasStaging(branches[k])
      invariant forall a, b :: 0 <= a < b < |checked| ==> checked[a] < checked[b]
    {
      var b := branches[i];
      if b.active && b.activeStaging.Some? {
        var o := checkStatus(i);
        if !o.Raised? {
          after := after[i := b.(activeStaging := o.staging)];
        }
        assert forall a :: 0 <= a < |checked| ==> checked[a] in checked;
        checked := checked + [i];
      }
      i := i + 1;
    }
  }
}
