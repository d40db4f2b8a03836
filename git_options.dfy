// Two helpers of the forward-port bot's git driver (forwardport/models/project.py):
// `GitCommand._to_options`, which renders keyword arguments as command-line options, and
// `_clean_rename`, which drops cherry-pick's rename-detection chatter from its output.
module GitOptions {
  import opened Wrappers
  import opened Text

  /** The Python values passed as keyword arguments. */
  datatype Value = NoneValue | BoolValue(b: bool) | IntValue(i: int) | StrValue(s: String)

  /** `-k` for a one-letter key, otherwise `--` and the key with '_' written '-'. */
  function Flag(key: String): (r: String)
    ensures |r| >= 2 && r[0] == '-'
    ensures |key| == 1 ==> r == "-" + key
  {
    if |key| == 1 then "-" + key else "--" + ReplaceChar(key, '_', "-")
  }

  /** Python's `str(v)`. */
  function Show(v: Value): String
  {
    match v
    case NoneValue => "None"
    case BoolValue(b) => if b then "True" else "False"
    case IntValue(i) => if i < 0 then "-" + NatToString(-i) else NatToString(i)
    case StrValue(s) => s
  }

  /** Whether an option carries a value: anything but `None` and `True`. */
  predicate Valued(v: Value)
  {
    v != NoneValue && v != BoolValue(true)
  }

  function ValuedCount(items: seq<(String, Value)>): nat
  {
    if items == [] then 0 else (if Valued(items[0].1) then 1 else 0) + ValuedCount(items[1..])
  }

  /**
   * `_to_options`: each key's flag, followed by its value unless that is `None` or `True`;
   * `False` fails the assertion, and the git command is not run.
   */
  function ToOptions(items: seq<(String, Value)>): (r: Result<seq<String>, ()>)
    ensures r.Failure? <==> exists i :: 0 <= i < |items| && items[i].1 == BoolValue(false)
    ensures r.Success? ==> |r.value| == |items| + ValuedCount(items)
  {
    if items == [] then Success([])
    else
      var (key, v) := items[0];
      if v == BoolValue(false) then Failure(())
      else match ToOptions(items[1..])
        case Failure(e) => Failure(e)
        case Success(rest) => Success([Flag(key)] + (if Valued(v) then [Show(v)] else []) + rest)
  }

  /** One keyword argument: its flag, then its value unless that is `None` or `True`. */
  lemma ToOptionsOne(key: String, v: Value)
    requires v != BoolValue(false)
    ensures ToOptions([(key, v)]) == Success([Flag(key)] + (if Valued(v) then [Show(v)] else []))
  {
    assert [(key, v)][1..] == [];
    AppendEmpty([Flag(key)] + (if Valued(v) then [Show(v)] else []));
  }

  /** The options of a longer argument list are the options of its parts, one after the other. */
  lemma {:induction false} ToOptionsAppend(a: seq<(String, Value)>, b: seq<(String, Value)>)
    ensures ToOptions(a).Success? && ToOptions(b).Success? ==>
      ToOptions(a + b) == Success(ToOptions(a).value + ToOptions(b).value)
    ensures ToOptions(a + b).Success? ==> ToOptions(a).Success? && ToOptions(b).Success?
  {
    if a != [] {
      assert (a + b)[0] == a[0] && (a + b)[1..] == a[1..] + b;
      ToOptionsAppend(a[1..], b);
      if ToOptions(a).Success? && ToOptions(b).Success? {
        var head := [Flag(a[0].0)] + (if Valued(a[0].1) then [Show(a[0].1)] else []);
        assert ToOptions(a).value == head + ToOptions(a[1..]).value;
        AppendAssoc(head, ToOptions(a[1..]).value, ToOptions(b).value);
      }
    } else {
      assert a + b == b && ToOptions(a) == Success([]);
      if ToOptions(b).Success? {
        var v := ToOptions(b).value;
        assert ToOptions(a).value + v == v;
      }
    }
  }

  /** A key without '-' is read back from its long flag by writing '-' as '_' again. */
  lemma {:induction false} FlagRoundTrip(key: String)
    requires |key| != 1 && '-' !in key
    ensures Flag(key)[..2] == "--"
    ensures ReplaceChar(Flag(key)[2..], '-', "_") == key
  {
    assert Flag(key)[2..] == ReplaceChar(key, '_', "-");
    UnderscoresBack(key);
  }

  lemma {:induction false} UnderscoresBack(key: String)
    requires '-' !in key
    ensures ReplaceChar(ReplaceChar(key, '_', "-"), '-', "_") == key
    decreases |key|
  {
    if key != [] {
      UnderscoresBack(key[1..]);
      var head := if key[0] == '_' then "-" else [key[0]];
      assert ReplaceChar(key, '_', "-") == head + ReplaceChar(key[1..], '_', "-");
      ReplaceCharAppend(head, ReplaceChar(key[1..], '_', "-"), '-', "_");
    }
  }

  lemma {:induction false} ReplaceCharAppend(a: String, b: String, c: char, repl: String)
    ensures ReplaceChar(a + b, c, repl) == ReplaceChar(a, c, repl) + ReplaceChar(b, c, repl)
    decreases |a|
  {
    if a != [] {
      assert (a + b)[0] == a[0] && (a + b)[1..] == a[1..] + b;
      ReplaceCharAppend(a[1..], b, c, repl);
    } else {
      assert a + b == b;
    }
  }

  /**
   * `_to_options` as written: `v not in (None, True)` compares with `==`, and `1 == True`
   * in Python, so an integer 1 is taken for the flag-only `True` and its value is lost.
   */
  function ToOptionsAsWritten(items: seq<(String, Value)>): Result<seq<String>, ()>
  {
    if items == [] then Success([])
    else
      var (key, v) := items[0];
      var skipped := v == NoneValue || v == BoolValue(true) || v == IntValue(1);
      if !skipped && v == BoolValue(false) then Failure(())
      else match ToOptionsAsWritten(items[1..])
        case Failure(e) => Failure(e)
        case Success(rest) => Success([Flag(key)] + (if skipped then [] else [Show(v)]) + rest)
  }

  /** Without an integer 1 among the values, the code as written renders the intended options. */
  lemma {:induction false} AsWrittenAgreesWithoutOne(items: seq<(String, Value)>)
    ensures (forall i :: 0 <= i < |items| ==> items[i].1 != IntValue(1)) ==>
      ToOptionsAsWritten(items) == ToOptions(items)
  {
    if items != [] {
      AsWrittenAgreesWithoutOne(items[1..]);
      if forall i :: 0 <= i < |items| ==> items[i].1 != IntValue(1) {
        assert forall i :: 0 <= i < |items[1..]| ==> items[1..][i] == items[i + 1];
      }
    }
  }

  /** `n=1` loses its value: `-n` alone is passed, where `-n 1` was meant. */
  lemma OneIsDroppedAsWritten()
    ensures ToOptionsAsWritten([("n", IntValue(1))]) == Success(["-n"])
    ensures ToOptions([("n", IntValue(1))]) == Success(["-n", "1"])
  {
    var items := [("n", IntValue(1))];
    assert items[1..] == [];
    assert ToOptions([]) == Success([]) && ToOptionsAsWritten([]) == Success([]);
    assert Flag("n") == "-n";
    assert Show(IntValue(1)) == "1" by {
      assert DigitChar(1) == '1';
    }
    var x := [Flag("n")] + [Show(IntValue(1))] + [];
    assert ToOptions(items) == Success(x);
    assert x == ["-n", "1"];
    assert ToOptions(items) == Success(["-n", "1"]);
    var y := [Flag("n")] + [] + [];
    assert ToOptionsAsWritten(items) == Success(y);
    assert y == ["-n"];
  }

  // ---------------------------------------------------------------------------
  // `_clean_rename`
  // ---------------------------------------------------------------------------

  const RenameNoise: String := "Performing inexact rename detection"

  /** The lines which are not rename-detection chatter, in order. */
  function KeptLines(lines: seq<String>): (r: seq<String>)
    ensures forall l :: l in r <==> l in lines && !StartsWith(l, RenameNoise)
    ensures |r| <= |lines|
  {
    if lines == [] then []
    else (if StartsWith(lines[0], RenameNoise) then [] else [lines[0]]) + KeptLines(lines[1..])
  }

  /** `_clean_rename(s)`: the lines of `s` without the chatter, joined with '\n'. */
  function CleanRename(s: String): String
  {
    Join(KeptLines(SplitLines(s)), "\n")
  }

  predicate NoBreaks(lines: seq<String>)
  {
    forall i :: 0 <= i < |lines| ==> forall c :: c in lines[i] ==> !IsLineBreak(c)
  }

  /** A non-empty line without breaks splits to itself. */
  lemma SplitLinesOne(a: String)
    requires a != [] && forall c :: c in a ==> !IsLineBreak(c)
    ensures SplitLines(a) == [a]
  {
    forall j | 0 <= j < |a|
      ensures !IsLineBreak(a[j])
    {
      assert a[j] in a;
    }
  }

  /** A line without breaks followed by '\n' splits off in front of the rest. */
  lemma SplitLinesCons(a: String, t: String)
    requires forall c :: c in a ==> !IsLineBreak(c)
    ensures SplitLines(a + "\n" + t) == [a] + SplitLines(t)
  {
    var s := a + "\n" + t;
    forall j | 0 <= j < |a|
      ensures !IsLineBreak(s[j])
    {
      assert s[j] == a[j] && a[j] in a;
    }
    assert s[|a|] == '\n';
    assert IndexWhere(s, IsLineBreak) == |a|;
    assert s[..|a|] == a && s[|a| + 1..] == t;
  }

  /** Joining lines with '\n' and splitting them again gives them back, unless the last one is empty. */
  lemma {:induction false} SplitLinesJoin(lines: seq<String>)
    requires NoBreaks(lines)
    requires lines == [] || lines[|lines| - 1] != []
    ensures SplitLines(Join(lines, "\n")) == lines
    decreases |lines|
  {
    if |lines| == 1 {
      SplitLinesOne(lines[0]);
    } else if |lines| > 1 {
      var rest := lines[1..];
      SplitLinesJoin(rest);
      assert Join(lines, "\n") == lines[0] + "\n" + Join(rest, "\n");
      SplitLinesCons(lines[0], Join(rest, "\n"));
    }
  }

  /**
   * Cleaning twice is cleaning once, as long as the last line kept is not empty
   * (an empty last line is lost when split again).
   */
  lemma CleanRenameIdempotent(s: String)
    requires var kept := KeptLines(SplitLines(s)); kept == [] || kept[|kept| - 1] != []
    ensures CleanRename(CleanRename(s)) == CleanRename(s)
  {
    var kept := KeptLines(SplitLines(s));
    assert NoBreaks(kept) by {
      forall i | 0 <= i < |kept|
        ensures forall c :: c in kept[i] ==> !IsLineBreak(c)
      {
        assert kept[i] in SplitLines(s);
      }
    }
    SplitLinesJoin(kept);
    KeptLinesOfKept(kept);
  }

  lemma {:induction false} KeptLinesOfKept(lines: seq<String>)
    requires forall l :: l in lines ==> !StartsWith(l, RenameNoise)
    ensures KeptLines(lines) == lines
  {
    if lines != [] {
      assert lines[0] in lines;
      KeptLinesOfKept(lines[1..]);
    }
  }
}
