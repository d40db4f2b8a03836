// Upgrade exceptions: the `suppress_upgrade_warnings` flag built from the
// recorded exceptions, and the scan of a build's logs that proposes new ones
// (runbot/models/upgrade.py).
module Upgrade {
  import opened Wrappers
  import opened Text

  const FlagPrefix: String := "suppress_upgrade_warnings="

  /**
   * `_generate`: no exception record gives False; otherwise the flag followed
   * by every record's elements joined with ',', with spaces removed and
   * newlines turned into ','. A record whose elements are unset (`None`) makes
   * the join raise (`Failure`).
   */
  function Generate(elements: seq<Option<String>>): (r: Result<Option<String>, ()>)
    ensures elements == [] ==> r == Success(None)
    ensures r.Failure? <==> exists i :: 0 <= i < |elements| && elements[i].None?
    ensures r.Success? && r.value.Some? ==>
      StartsWith(r.value.value, FlagPrefix) && ' ' !in r.value.value[|FlagPrefix|..] && '\n' !in r.value.value[|FlagPrefix|..]
  {
    if elements == [] then Success(None)
    else if exists i :: 0 <= i < |elements| && elements[i].None? then Failure(())
    else
      var joined := Join(Values(elements), ",");
      var cleaned := ReplaceChar(ReplaceChar(joined, ' ', ""), '\n', ",");
      assert (FlagPrefix + cleaned)[|FlagPrefix|..] == cleaned;
      Success(Some(FlagPrefix + cleaned))
  }

  function Values(elements: seq<Option<String>>): (r: seq<String>)
    requires forall i :: 0 <= i < |elements| ==> elements[i].Some?
    ensures |r| == |elements| && forall i :: 0 <= i < |elements| ==> r[i] == elements[i].value
  {
    if elements == [] then [] else [elements[0].value] + Values(elements[1..])
  }

  /** A log row of the build being scanned. */
  datatype Log = Log(build: nat, level: String, kind: String, message: String)

  /** An `runbot.upgrade.regex` record; an unset prefix prints as `False`. */
  datatype UpgradeRegex = UpgradeRegex(prefix: Option<String>, regex: String)

  /** The outcome of `re.search`: no match, or the match's groups (an unmatched group is `None`). */
  datatype Match = NoMatch | Matched(groups: seq<Option<String>>)

  type Search = (String, String) -> Match

  datatype ScanError =
    | NothingFound   // UserError('Nothing found here')
    | NoGroup        // `m.groups()[0]` on a regex without groups: IndexError

  /** The action opened on the exception form. */
  datatype Proposal = Proposal(defaultElements: String, defaultBundle: Option<nat>, defaultInfo: String)

  /** Log rows that `_parse_upgrade_errors` reads. */
  predicate Scanned(log: Log, build: nat)
  {
    (log.level == "ERROR" || log.level == "WARNING" || log.level == "CRITICAL") && log.kind == "server" && log.build == build
  }

  /** Python's `str(x)` for a Char field or a regex group. */
  function Show(v: Option<String>): String
  {
    if v.Some? then v.value else "False"
  }

  function ShowGroup(v: Option<String>): String
  {
    if v.Some? then v.value else "None"
  }

  /** The `'<prefix>:<first group>'` entries one message contributes, regex by regex. */
  function MessageEntries(message: String, regexes: seq<UpgradeRegex>, search: Search): Result<seq<String>, ScanError>
    decreases |regexes|
  {
    if regexes == [] then Success([])
    else
      var n := |regexes| - 1;
      match MessageEntries(message, regexes[..n], search)
      case Failure(e) => Failure(e)
      case Success(entries) =>
        match search(regexes[n].regex, message)
        case NoMatch => Success(entries)
        case Matched(groups) =>
          if groups == [] then Failure(NoGroup)
          else Success(entries + [Show(regexes[n].prefix) + ":" + ShowGroup(groups[0])])
  }

  /** Entries of every scanned log, in log order. */
  function Entries(logs: seq<Log>, build: nat, regexes: seq<UpgradeRegex>, search: Search): Result<seq<String>, ScanError>
    decreases |logs|
  {
    if logs == [] then Success([])
    else
      var n := |logs| - 1;
      match Entries(logs[..n], build, regexes, search)
      case Failure(e) => Failure(e)
      case Success(entries) =>
        if !Scanned(logs[n], build) then Success(entries)
        else
          match MessageEntries(logs[n].message, regexes, search)
          case Failure(e) => Failure(e)
          case Success(more) => Success(entries + more)
  }

  /** One regex of the inner loop, in terms of `MessageEntries`. */
  lemma MessageEntriesStep(message: String, regexes: seq<UpgradeRegex>, j: nat, search: Search, more: seq<String>)
    requires j < |regexes| && MessageEntries(message, regexes[..j], search) == Success(more)
    ensures MessageEntries(message, regexes[..j + 1], search)
      == match search(regexes[j].regex, message)
         case NoMatch => Success(more)
         case Matched(groups) =>
           if groups == [] then Failure(NoGroup)
           else Success(more + [Show(regexes[j].prefix) + ":" + ShowGroup(groups[0])])
  {
    assert regexes[..j + 1][..j] == regexes[..j];
  }

  /** The inner loop of `_parse_upgrade_errors`: the entries one log message yields. */
  method ScanMessage(message: String, regexes: seq<UpgradeRegex>, search: Search) returns (r: Result<seq<String>, ScanError>)
    ensures r == MessageEntries(message, regexes, search)
  {
    var j := 0;
    var more: seq<String> := [];
    while j < |regexes|
      invariant 0 <= j <= |regexes|
      invariant MessageEntries(message, regexes[..j], search) == Success(more)
    {
      MessageEntriesStep(message, regexes, j, search, more);
      var m := search(regexes[j].regex, message);
      if m.Matched? {
        if m.groups == [] {
          MessageEntriesFailurePersists(message, regexes, search, j + 1);
          return Failure(NoGroup);
        }
        more := more + [Show(regexes[j].prefix) + ":" + ShowGroup(m.groups[0])];
      }
      j := j + 1;
    }
    assert regexes[..j] == regexes;
    r := Success(more);
  }

  /**
   * `_parse_upgrade_errors` for build `build`; `batchBundles` are the bundles
   * of the batches of the build's top parent, in slot order.
   */
  method ParseUpgradeErrors(logs: seq<Log>, build: nat, regexes: seq<UpgradeRegex>, search: Search,
                            batchBundles: seq<nat>) returns (r: Result<Proposal, ScanError>)
    ensures Entries(logs, build, regexes, search).Failure? ==> r == Failure(Entries(logs, build, regexes, search).error)
    ensures Entries(logs, build, regexes, search) == Success([]) ==> r == Failure(NothingFound)
    ensures r.Success? <==> Entries(logs, build, regexes, search).Success? && Entries(logs, build, regexes, search).value != []
    ensures r.Success? ==>
      r.value.defaultElements == Join(Entries(logs, build, regexes, search).value, "\n")
      && r.value.defaultBundle == (if batchBundles == [] then None else Some(batchBundles[0]))
      && r.value.defaultInfo == "Automatically generated from build " + NatToString(build)
  {
    var exception: seq<String> := [];
    var i := 0;
    while i < |logs|
      invariant 0 <= i <= |logs|
      invariant Entries(logs[..i], build, regexes, search) == Success(exception)
    {
      assert logs[..i + 1][..i] == logs[..i];
      if Scanned(logs[i], build) {
        var more := ScanMessage(logs[i].message, regexes, search);
        if more.Failure? {
          EntriesFailurePersists(logs, build, regexes, search, i + 1);
          assert logs[..|logs|] == logs;
          return Failure(more.error);
        }
        exception := exception + more.value;
      }
      i := i + 1;
    }
    assert logs[..i] == logs;
    if exception == [] {
      return Failure(NothingFound);
    }
    var bundle := if batchBundles != [] then Some(batchBundles[0]) else None;
    r := Success(Proposal(Join(exception, "\n"), bundle, "Automatically generated from build " + NatToString(build)));
  }

  /** Once a prefix of the regexes fails, the whole message fails the same way. */
  lemma {:induction false} MessageEntriesFailurePersists(message: String, regexes: seq<UpgradeRegex>, search: Search, k: nat)
    requires k <= |regexes| && MessageEntries(message, regexes[..k], search).Failure?
    ensures MessageEntries(message, regexes, search) == MessageEntries(message, regexes[..k], search)
    decreases |regexes| - k
  {
    if k < |regexes| {
      assert regexes[..k + 1][..k] == regexes[..k];
      MessageEntriesFailurePersists(message, regexes, search, k + 1);
    } else {
      assert regexes[..k] == regexes;
    }
  }

  /** Once a prefix of the logs fails, the whole scan fails the same way. */
  lemma {:induction false} EntriesFailurePersists(logs: seq<Log>, build: nat, regexes: seq<UpgradeRegex>, search: Search, k: nat)
    requires k <= |logs| && Entries(logs[..k], build, regexes, search).Failure?
    ensures Entries(logs, build, regexes, search) == Entries(logs[..k], build, regexes, search)
    decreases |logs| - k
  {
    if k < |logs| {
      assert logs[..k + 1][..k] == logs[..k];
      EntriesFailurePersists(logs, build, regexes, search, k + 1);
    } else {
      assert logs[..k] == logs;
    }
  }

  // ------------------------------------------------------------ round trip

  lemma {:induction false} ReplaceCharAbsent(s: String, c: char, repl: String)
    requires c !in s
    ensures ReplaceChar(s, c, repl) == s
    decreases |s|
  {
    if s != [] {
      ReplaceCharAbsent(s[1..], c, repl);
      assert s == [s[0]] + s[1..];
    }
  }

  lemma {:induction false} ReplaceCharAppend(a: String, b: String, c: char, repl: String)
    ensures ReplaceChar(a + b, c, repl) == ReplaceChar(a, c, repl) + ReplaceChar(b, c, repl)
    decreases |a|
  {
    if a != [] {
      ReplaceCharAppend(a[1..], b, c, repl);
      assert (a + b)[1..] == a[1..] + b;
    } else {
      assert a + b == b;
    }
  }

  /** Turning the newlines of a newline-joined list into ',' gives the comma-joined list. */
  lemma {:induction false} NewlinesBecomeCommas(es: seq<String>)
    requires forall i :: 0 <= i < |es| ==> '\n' !in es[i]
    ensures ReplaceChar(Join(es, "\n"), '\n', ",") == Join(es, ",")
    decreases |es|
  {
    if |es| == 1 {
      ReplaceCharAbsent(es[0], '\n', ",");
    } else if |es| > 1 {
      NewlinesBecomeCommas(es[1..]);
      ReplaceCharAppend(es[0] + "\n", Join(es[1..], "\n"), '\n', ",");
      ReplaceCharAppend(es[0], "\n", '\n', ",");
      ReplaceCharAbsent(es[0], '\n', ",");
    }
  }

  lemma {:induction false} JoinLacks(es: seq<String>, sep: String, c: char)
    requires c !in sep && forall i :: 0 <= i < |es| ==> c !in es[i]
    ensures c !in Join(es, sep)
    decreases |es|
  {
    if |es| > 1 {
      JoinLacks(es[1..], sep, c);
    }
  }

  /**
   * Recording the proposal of a scan as the only exception record turns the
   * flag into exactly the scanned entries separated by ',' (for entries
   * without spaces or newlines).
   */
  lemma ProposalGeneratesEntries(entries: seq<String>)
    requires entries != []
    requires forall i :: 0 <= i < |entries| ==> ' ' !in entries[i] && '\n' !in entries[i]
    ensures Generate([Some(Join(entries, "\n"))]) == Success(Some(FlagPrefix + Join(entries, ",")))
  {
    var joined := Join(entries, "\n");
    assert Values([Some(joined)]) == [joined];
    assert Join([joined], ",") == joined;
    JoinLacks(entries, "\n", ' ');
    ReplaceCharAbsent(joined, ' ', "");
    NewlinesBecomeCommas(entries);
  }
}
