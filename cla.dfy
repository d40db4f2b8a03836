// The CLA check step: every distinct author e-mail of a build's commits must
// appear in the CLA files, unless it belongs to the company's own domains
// (runbot_cla/build_config.py).
module Cla {
  import opened Wrappers
  import opened Text
  import opened BuildOrder

  // ------------------------------------------------------------ address extraction

  /** First index at or after `i` whose character is in `stop`, or `|s|`. */
  function RunEnd(s: String, i: nat, stop: set<char>): (j: nat)
    requires i <= |s|
    ensures i <= j <= |s|
    ensures forall k :: i <= k < j ==> s[k] !in stop
    ensures j < |s| ==> s[j] in stop
    decreases |s| - i
  {
    if i == |s| || s[i] in stop then i else RunEnd(s, i + 1, stop)
  }

  const LocalStop: set<char> := {' ', '<', '@'}
  const DomainStop: set<char> := {' ', '@', '>'}

  /** The match of `[^ <@]+@[^ @>]+` starting at `i`, if any (greedy on both sides). */
  function MatchAt(s: String, i: nat): Option<String>
    requires i <= |s|
  {
    var k := RunEnd(s, i, LocalStop);
    if k > i && k < |s| && s[k] == '@' then
      var e := RunEnd(s, k + 1, DomainStop);
      if e > k + 1 then Some(s[i..e]) else None
    else None
  }

  /** An address as the pattern describes it: a local part, one '@', a domain part. */
  predicate AddressShaped(a: String)
  {
    exists k :: 0 < k < |a| - 1 && a[k] == '@'
      && (forall j :: 0 <= j < k ==> a[j] !in LocalStop)
      && (forall j :: k < j < |a| ==> a[j] !in DomainStop)
  }

  /** `re.search('[^ <@]+@[^ @>]+', s)` from position `i`: the leftmost match. */
  function SearchAddress(s: String, i: nat): (r: Option<String>)
    requires i <= |s|
    ensures r.Some? ==> AddressShaped(r.value)
    ensures r.None? <==> forall j :: i <= j <= |s| ==> MatchAt(s, j).None?
    decreases |s| - i
  {
    var m := MatchAt(s, i);
    if m.Some? then
      var k := RunEnd(s, i, LocalStop);
      assert m.value[k - i] == '@';
      m
    else if i == |s| then None
    else SearchAddress(s, i + 1)
  }

  /** The address of an e-mail field: an unset field searches the empty string. */
  function Address(email: Option<String>): Option<String>
  {
    var s := if email.Some? then email.value else "";
    var m := SearchAddress(s, 0);
    if m.Some? then Some(Lower(m.value)) else None
  }

  /** `re.match('.*@(odoo|openerp|tinyerp)\.com$', address)`. */
  predicate Exempt(address: String)
  {
    exists k :: 0 <= k < |address| && address[k] == '@' && '\n' !in address[..k]
      && address[k + 1..] in {"odoo.com", "openerp.com", "tinyerp.com", "odoo.com\n", "openerp.com\n", "tinyerp.com\n"}
  }

  // ------------------------------------------------------------ the step

  /** What the step logs. */
  datatype ClaLog =
    | Checking(email: Option<String>)   // the markdown line announcing the check of one author
    | NotFound(address: String)         // 'Email not found in cla file'
    | InvalidEncoding                   // 'Invalid CLA encoding (must be utf-8)'
    | InvalidFormat(email: Option<String>)
    | MissingFile                       // 'Missing cla file'

  /** The concatenated CLA files, or `None` when one of them is not valid UTF-8. */
  function ClaText(files: seq<Option<String>>): (r: Option<String>)
    ensures r.None? <==> exists i :: 0 <= i < |files| && files[i].None?
  {
    if files == [] then Some("")
    else
      var rest := ClaText(files[1..]);
      if files[0].None? || rest.None? then None
      else Some(files[0].value + rest.value)
  }

  /** The error the check of one author e-mail logs, if any. */
  function EmailError(email: Option<String>, files: seq<Option<String>>): (r: Option<ClaLog>)
    ensures r.Some? ==> !r.value.Checking?
  {
    match Address(email)
    case None => Some(InvalidFormat(email))
    case Some(address) =>
      if Exempt(address) then None
      else match ClaText(files)
        case None => Some(InvalidEncoding)
        case Some(cla) => if Contains(Lower(cla), address) then None else Some(NotFound(address))
  }

  /** The error check of one author e-mail, as the step runs it. */
  type Check = Option<String> -> Option<ClaLog>

  /** Everything logged for the authors `emails`, each distinct e-mail once, in first-seen order. */
  function AuthorLogs(emails: seq<Option<String>>, check: Check): seq<ClaLog>
    decreases |emails|
  {
    if emails == [] then []
    else
      var n := |emails| - 1;
      var before := AuthorLogs(emails[..n], check);
      if emails[n] in emails[..n] then before
      else before + CheckLogs(emails[n], check(emails[n]))
  }

  /** The lines logged for one author: the announcement, then its error if any. */
  function CheckLogs(email: Option<String>, err: Option<ClaLog>): (r: seq<ClaLog>)
    ensures r != [] && r[0] == Checking(email)
    ensures (err.None? || !err.value.Checking?) ==> forall j :: 1 <= j < |r| ==> !r[j].Checking?
    ensures (err.None? || !err.value.Checking?) ==> (HasError(r) <==> err.Some?)
  {
    var r := [Checking(email)] + (if err.Some? then [err.value] else []);
    assert err.Some? ==> r[1] == err.value;
    r
  }

  /** Some logged line is an error. */
  predicate HasError(logs: seq<ClaLog>)
  {
    exists k :: 0 <= k < |logs| && !logs[k].Checking?
  }

  lemma HasErrorAppend(a: seq<ClaLog>, b: seq<ClaLog>)
    ensures HasError(a + b) <==> HasError(a) || HasError(b)
  {
    if HasError(a + b) {
      var k :| 0 <= k < |a + b| && !(a + b)[k].Checking?;
      if k >= |a| {
        assert b[k - |a|] == (a + b)[k];
      }
    }
    if HasError(a) {
      var k :| 0 <= k < |a| && !a[k].Checking?;
      assert (a + b)[k] == a[k];
    }
    if HasError(b) {
      var k :| 0 <= k < |b| && !b[k].Checking?;
      assert (a + b)[|a| + k] == b[k];
    }
  }

  /** The authors' logs hold an error line exactly when some author's check fails. */
  lemma {:induction false} AuthorLogsHasError(emails: seq<Option<String>>, check: Check)
    requires forall e :: check(e).Some? ==> !check(e).value.Checking?
    ensures HasError(AuthorLogs(emails, check)) <==> exists j :: 0 <= j < |emails| && check(emails[j]).Some?
    decreases |emails|
  {
    if emails != [] {
      var n := |emails| - 1;
      AuthorLogsHasError(emails[..n], check);
      var before := AuthorLogs(emails[..n], check);
      if emails[n] in emails[..n] {
        var i :| 0 <= i < n && emails[..n][i] == emails[n];
        assert emails[i] == emails[n];
        if exists j :: 0 <= j < |emails| && check(emails[j]).Some? {
          var j :| 0 <= j < |emails| && check(emails[j]).Some?;
          if j == n {
            assert check(emails[..n][i]).Some?;
          } else {
            assert emails[..n][j] == emails[j];
          }
        }
      } else {
        HasErrorAppend(before, CheckLogs(emails[n], check(emails[n])));
        if exists j :: 0 <= j < |emails| && check(emails[j]).Some? {
          var j :| 0 <= j < |emails| && check(emails[j]).Some?;
          if j < n {
            assert emails[..n][j] == emails[j];
          }
        }
      }
      if exists j :: 0 <= j < n && check(emails[..n][j]).Some? {
        var j :| 0 <= j < n && check(emails[..n][j]).Some?;
        assert emails[j] == emails[..n][j];
      }
    }
  }

  /** Whether some distinct author fails. */
  predicate AnyAuthorFails(emails: seq<Option<String>>, files: seq<Option<String>>)
  {
    exists i :: 0 <= i < |emails| && EmailError(emails[i], files).Some?
  }

  /** The step's logs. */
  function ClaLogs(emails: seq<Option<String>>, files: seq<Option<String>>): seq<ClaLog>
  {
    if files == [] then [MissingFile] else AuthorLogs(emails, e => EmailError(e, files))
  }

  /** Whether the step fails. */
  predicate ClaFails(emails: seq<Option<String>>, files: seq<Option<String>>)
  {
    files == [] || AnyAuthorFails(emails, files)
  }

  /**
   * The build's `local_result` afterwards: 'ko' on failure (through the write
   * guard of builds, so a more severe result stays), otherwise 'ok' only when
   * no result was set.
   */
  function ClaResult(current: Option<BuildResult>, fails: bool): Option<BuildResult>
  {
    if fails then (if KeepsNewResult(current, Ko) then Some(Ko) else current)
    else if current.None? then Some(Ok)
    else current
  }

  /**
   * `_run_cla_check`: `emails` are the author e-mails of the build's commits
   * (unset ones are `None`), `files` the CLA files found (`None` for a file
   * that is not valid UTF-8), `current` the build's `local_result`.
   */
  method RunClaCheck(emails: seq<Option<String>>, files: seq<Option<String>>, current: Option<BuildResult>)
    returns (result: Option<BuildResult>, logs: seq<ClaLog>)
    ensures logs == ClaLogs(emails, files)
    ensures result == ClaResult(current, ClaFails(emails, files))
  {
    var error;
    if files != [] {
      logs, error := CheckAuthors(emails, files);
    } else {
      error := true;
      logs := [MissingFile];
    }
    if error {
      result := if KeepsNewResult(current, Ko) then Some(Ko) else current;
    } else if current.None? {
      result := Some(Ok);
    } else {
      result := current;
    }
  }

  /** The loop over the commits' author e-mails, skipping those already checked. */
  method CheckAuthors(emails: seq<Option<String>>, files: seq<Option<String>>) returns (logs: seq<ClaLog>, error: bool)
    requires files != []
    ensures logs == ClaLogs(emails, files)
    ensures error == AnyAuthorFails(emails, files)
  {
    ghost var check: Check := e => EmailError(e, files);
    var checked: set<Option<String>> := {};
    logs := [];
    error := false;
    var i := 0;
    while i < |emails|
      invariant 0 <= i <= |emails|
      invariant checked == Seen(emails[..i])
      invariant logs == AuthorLogs(emails[..i], check)
      invariant error <==> HasError(logs)
    {
      var email := emails[i];
      SeenExtend(emails, i);
      if email !in checked {
        checked := checked + {email};
        var err := CheckEmail(email, files);
        assert err == check(email);
        AuthorLogsStep(emails, i, check);
        HasErrorAppend(logs, CheckLogs(email, err));
        logs := logs + CheckLogs(email, err);
        error := error || err.Some?;
      } else {
        AuthorLogsStep(emails, i, check);
      }
      i := i + 1;
    }
    assert emails[..i] == emails;
    ClaLogsHasError(emails, files);
  }

  /** The e-mails of `s`, as a set. */
  function Seen(s: seq<Option<String>>): (r: set<Option<String>>)
    ensures forall e :: e in r <==> e in s
    decreases |s|
  {
    if s == [] then {}
    else
      var n := |s| - 1;
      assert forall e :: e in s <==> e in s[..n] || e == s[n] by {
        assert s == s[..n] + [s[n]];
      }
      Seen(s[..n]) + {s[n]}
  }

  /** The set of e-mails seen so far after one more commit. */
  lemma SeenExtend(emails: seq<Option<String>>, i: nat)
    requires i < |emails|
    ensures Seen(emails[..i + 1]) == Seen(emails[..i]) + {emails[i]}
  {
    assert emails[..i + 1][..i] == emails[..i];
  }

  /** One more author e-mail adds its lines unless it was seen before. */
  lemma AuthorLogsStep(emails: seq<Option<String>>, i: nat, check: Check)
    requires i < |emails|
    ensures AuthorLogs(emails[..i + 1], check) ==
      if emails[i] in emails[..i] then AuthorLogs(emails[..i], check)
      else AuthorLogs(emails[..i], check) + CheckLogs(emails[i], check(emails[i]))
  {
    var t := emails[..i + 1];
    assert t[..i] == emails[..i];
  }

  /** With CLA files present, the step's logs hold an error line exactly when some author fails. */
  lemma ClaLogsHasError(emails: seq<Option<String>>, files: seq<Option<String>>)
    requires files != []
    ensures HasError(ClaLogs(emails, files)) <==> AnyAuthorFails(emails, files)
  {
    var check: Check := e => EmailError(e, files);
    AuthorLogsHasError(emails, check);
    assert forall j :: 0 <= j < |emails| ==> check(emails[j]) == EmailError(emails[j], files);
  }

  /** The checks done on one author e-mail, in the order the step does them. */
  method CheckEmail(email: Option<String>, files: seq<Option<String>>) returns (err: Option<ClaLog>)
    ensures err == EmailError(email, files)
  {
    var raw := if email.Some? then email.value else "";
    var mo := SearchAddress(raw, 0);
    if mo.Some? {
      var address := Lower(mo.value);
      if !Exempt(address) {
        var cla := ClaText(files);
        if cla.None? {
          return Some(InvalidEncoding);
        } else if !Contains(Lower(cla.value), address) {
          return Some(NotFound(address));
        }
      }
      return None;
    } else {
      return Some(InvalidFormat(email));
    }
  }

  // ------------------------------------------------------------ properties

  /** The distinct e-mails in first-seen order. */
  function Distinct(emails: seq<Option<String>>): (r: seq<Option<String>>)
    ensures forall e :: e in r <==> e in emails
    ensures forall a, b :: 0 <= a < b < |r| ==> r[a] != r[b]
    decreases |emails|
  {
    if emails == [] then []
    else
      var n := |emails| - 1;
      var before := Distinct(emails[..n]);
      assert forall e :: e in emails <==> e in emails[..n] || e == emails[n];
      if emails[n] in emails[..n] then before else before + [emails[n]]
  }

  /** The e-mails announced by `Checking` lines. */
  function Announced(logs: seq<ClaLog>): seq<Option<String>>
  {
    if logs == [] then []
    else (if logs[0].Checking? then [logs[0].email] else []) + Announced(logs[1..])
  }

  lemma {:induction false} AnnouncedAppend(a: seq<ClaLog>, b: seq<ClaLog>)
    ensures Announced(a + b) == Announced(a) + Announced(b)
    decreases |a|
  {
    if a != [] {
      assert (a + b)[1..] == a[1..] + b;
      AnnouncedAppend(a[1..], b);
    } else {
      assert a + b == b;
    }
  }

  /** Each distinct author e-mail is announced exactly once, in first-seen order. */
  lemma {:induction false} EachEmailAnnouncedOnce(emails: seq<Option<String>>, check: Check)
    requires forall e :: check(e).Some? ==> !check(e).value.Checking?
    ensures Announced(AuthorLogs(emails, check)) == Distinct(emails)
    decreases |emails|
  {
    if emails != [] {
      var n := |emails| - 1;
      EachEmailAnnouncedOnce(emails[..n], check);
      if emails[n] !in emails[..n] {
        var before := AuthorLogs(emails[..n], check);
        var tail := CheckLogs(emails[n], check(emails[n]));
        AnnouncedAppend(before, tail);
        AnnouncedOneCheck(tail, emails[n]);
      }
    }
  }

  /** With CLA files present, each distinct author e-mail is checked exactly once, in first-seen order. */
  lemma EachEmailCheckedOnce(emails: seq<Option<String>>, files: seq<Option<String>>)
    requires files != []
    ensures Announced(ClaLogs(emails, files)) == Distinct(emails)
  {
    EachEmailAnnouncedOnce(emails, e => EmailError(e, files));
  }

  lemma {:induction false} AnnouncedNone(logs: seq<ClaLog>)
    requires forall j :: 0 <= j < |logs| ==> !logs[j].Checking?
    ensures Announced(logs) == []
    decreases |logs|
  {
    if logs != [] {
      AnnouncedNone(logs[1..]);
    }
  }

  lemma AnnouncedOneCheck(logs: seq<ClaLog>, email: Option<String>)
    requires logs != [] && logs[0] == Checking(email)
    requires forall j :: 1 <= j < |logs| ==> !logs[j].Checking?
    ensures Announced(logs) == [email]
  {
    AnnouncedNone(logs[1..]);
  }

  /** Without any CLA file the build is ko (unless already worse), whatever the authors. */
  lemma MissingFileFails(emails: seq<Option<String>>, current: Option<BuildResult>)
    ensures ClaLogs(emails, []) == [MissingFile]
    ensures ClaResult(current, ClaFails(emails, [])) ==
      (if current.Some? && ResultScore(current.value) > ResultScore(Ko) then current else Some(Ko))
  {
    KeepsNewResultIffNotLessSevere(current, Ko);
  }

  /** A successful check sets 'ok' only on a build without result and leaves any existing result alone. */
  lemma PassKeepsExistingResult(current: Option<BuildResult>)
    ensures ClaResult(current, false) == if current.None? then Some(Ok) else current
    ensures ClaResult(current, true).Some? && ResultScore(ClaResult(current, true).value) >= ResultScore(Ko)
  {
    KeepsNewResultIffNotLessSevere(current, Ko);
  }

  /** Company addresses are exempt, even when absent from the CLA files. */
  lemma CompanyAddressExempt(local: String, files: seq<Option<String>>)
    requires local != [] && forall j :: 0 <= j < |local| ==> 'a' <= local[j] <= 'z'
    ensures EmailError(Some(local + "@odoo.com"), files).None?
  {
    var s := local + "@odoo.com";
    CompanyAddressChars(local);
    PlainAddressFound(s, |local|);
    LowerOfLowerCase(s);
    CompanyAddressShape(local);
    assert Address(Some(s)) == Some(s);
  }

  /** A text of lower-case letters and '.' around one '@' is found whole by the address search. */
  lemma PlainAddressFound(s: String, at: nat)
    requires 0 < at < |s| - 1 && s[at] == '@'
    requires forall j :: 0 <= j < |s| && j != at ==> ('a' <= s[j] <= 'z' || s[j] == '.')
    ensures SearchAddress(s, 0) == Some(s)
  {
    var k := RunEnd(s, 0, LocalStop);
    assert k == at;
    var e := RunEnd(s, k + 1, DomainStop);
    assert e == |s|;
    assert s[0..e] == s;
    assert MatchAt(s, 0) == Some(s);
  }

  /** A text without upper-case letters is its own lower-case form. */
  lemma LowerOfLowerCase(s: String)
    requires forall j :: 0 <= j < |s| ==> !('A' <= s[j] <= 'Z')
    ensures Lower(s) == s
  {
    forall j | 0 <= j < |s|
      ensures Lower(s)[j] == s[j]
    {
      assert LowerChar(s[j]) == s[j];
    }
  }

  /** Past the local part, an odoo.com address holds '@' and then only lower-case letters and '.'. */
  lemma CompanyAddressChars(local: String)
    requires forall j :: 0 <= j < |local| ==> 'a' <= local[j] <= 'z'
    ensures var s := local + "@odoo.com";
      |s| == |local| + 9 && s[|local|] == '@' &&
      forall j :: 0 <= j < |s| && j != |local| ==> ('a' <= s[j] <= 'z' || s[j] == '.')
  {
    var d := "@odoo.com";
    assert d == ['@', 'o', 'd', 'o', 'o', '.', 'c', 'o', 'm'];
    var s := local + d;
    forall j | 0 <= j < |s| && j != |local|
      ensures 'a' <= s[j] <= 'z' || s[j] == '.'
    {
      if j < |local| {
        assert s[j] == local[j];
      } else {
        assert s[j] == d[j - |local|];
      }
    }
  }

  lemma CompanyAddressShape(local: String)
    requires forall j :: 0 <= j < |local| ==> 'a' <= local[j] <= 'z'
    ensures Exempt(local + "@odoo.com")
  {
    var s := local + "@odoo.com";
    assert s[|local|] == '@';
    assert s[|local| + 1..] == "odoo.com";
    assert s[..|local|] == local;
    assert '\n' !in local by {
      forall j | 0 <= j < |local| ensures local[j] != '\n' {
        assert 'a' <= local[j] <= 'z';
      }
    }
  }
}
