// Partners as the merge bot sees them: the e-mail used for commits, the
// fetch of missing e-mails from GitHub, and the transfer of GitHub logins
// when partners are merged (runbot_merge/models/res_partner.py).
module Partners {
  import opened Wrappers
  import opened Text

  /** A partner; an unset field is None, and the login is compared case-insensitively. */
  datatype Partner = Partner(name: Option<String>, email: Option<String>, login: Option<String>)

  /** Python truthiness of a Char field: set and not empty. */
  predicate Truthy(v: Option<String>) { v.Some? && v.value != [] }

  /** An unset Char field formats as `False`. */
  function ShowField(v: Option<String>): String { if v.Some? then v.value else "False" }

  const NoReplyDomain: String := "@users.noreply.github.com"

  /**
   * The address of the commit e-mail: the address `parseaddr` extracts from
   * the e-mail, else the GitHub no-reply address of the login, else nothing.
   */
  function CommitAddress(p: Partner, parseaddr: String -> String): String
  {
    if Truthy(p.email) then parseaddr(p.email.value)
    else if Truthy(p.login) then p.login.value + NoReplyDomain
    else ""
  }

  /** `_rfc5322_formatted`: `<name> <<address>>`. */
  function FormattedEmail(p: Partner, parseaddr: String -> String): (r: String)
    ensures StartsWith(r, ShowField(p.name) + " <") && r[|r| - 1] == '>'
  {
    var r := ShowField(p.name) + " <" + CommitAddress(p, parseaddr) + ">";
    assert r[..|ShowField(p.name) + " <"|] == ShowField(p.name) + " <";
    r
  }

  /** The last position of `c` in `s`. */
  function LastIndexOf(s: String, c: char): (r: Option<nat>)
    ensures r.Some? ==> r.value < |s| && s[r.value] == c && forall j :: r.value < j < |s| ==> s[j] != c
    ensures r.None? ==> c !in s
  {
    if s == [] then None
    else if s[|s| - 1] == c then Some(|s| - 1)
    else
      var r := LastIndexOf(s[..|s| - 1], c);
      assert forall j :: 0 <= j < |s| - 1 ==> s[..|s| - 1][j] == s[j];
      r
  }

  /** The address of a `<name> <<address>>` string: between the last '<' and the final '>'. */
  function AddressOf(formatted: String): (r: Option<String>)
    ensures r.Some? ==> '<' !in r.value
  {
    if formatted == [] || formatted[|formatted| - 1] != '>' then None
    else
      var body := formatted[..|formatted| - 1];
      match LastIndexOf(body, '<')
      case None => None
      case Some(k) =>
        Some(body[k + 1..])
  }

  /** The commit e-mail gives back its address whenever that address has no '<'. */
  lemma FormattedEmailAddress(p: Partner, parseaddr: String -> String)
    requires '<' !in CommitAddress(p, parseaddr)
    ensures AddressOf(FormattedEmail(p, parseaddr)) == Some(CommitAddress(p, parseaddr))
  {
    var head := ShowField(p.name) + " <";
    var a := CommitAddress(p, parseaddr);
    var f := FormattedEmail(p, parseaddr);
    var body := head + a;
    assert f == body + ">";
    assert f[..|f| - 1] == body;
    assert body[|head| - 1] == '<';
    assert forall j :: |head| <= j < |body| ==> body[j] == a[j - |head|];
    var k := LastIndexOf(body, '<');
    assert k == Some(|head| - 1);
    assert body[|head|..] == a;
  }

  /** A partner with an e-mail commits as `<name> <<parsed address>>`. */
  lemma FormattedWithEmail(name: String, email: String, login: Option<String>, parseaddr: String -> String)
    requires email != []
    ensures FormattedEmail(Partner(Some(name), Some(email), login), parseaddr) == name + " <" + parseaddr(email) + ">"
  {
  }

  /** Without an e-mail, the login's GitHub no-reply address. */
  lemma FormattedWithLogin(name: String, login: String, parseaddr: String -> String)
    requires login != []
    ensures FormattedEmail(Partner(Some(name), None, Some(login)), parseaddr)
      == name + " <" + login + "@users.noreply.github.com>"
  {
  }

  /** With neither, an empty address. */
  lemma FormattedWithNeither(name: String, parseaddr: String -> String)
    ensures FormattedEmail(Partner(Some(name), None, None), parseaddr) == name + " <>"
  {
  }

  // ------------------------------------------------------------ fetching e-mails

  /** Partners `fetch_github_email` updates: a login, and an e-mail that is exactly unset. */
  predicate NeedsEmail(p: Partner) { Truthy(p.login) && p.email.None? }

  /**
   * GitHub's answer for a login: the user's e-mail (None when GitHub gives
   * none), or a failure when the request fails (`raise_for_status` on an
   * unknown login or a refused token).
   */
  type UserLookup = String -> Result<Option<String>, String>

  /** The partner after the fetch: GitHub's e-mail, or unset when GitHub has none. */
  function WithFetchedEmail(p: Partner, lookup: UserLookup): Partner
    requires Truthy(p.login) && lookup(p.login.value).Success?
  {
    var e := lookup(p.login.value).value;
    p.(email := if Truthy(e) then e else None)
  }

  lemma FetchDependsOnLogin(p: Partner, q: Partner, lookup: UserLookup)
    requires p.name == q.name && p.login == q.login && Truthy(p.login) && lookup(p.login.value).Success?
    ensures WithFetchedEmail(p, lookup) == WithFetchedEmail(q, lookup)
  {
  }

  /** Some partner of `ids` needing an e-mail has a login GitHub answers with an error. */
  predicate FetchFails(partners: map<nat, Partner>, ids: set<nat>, lookup: UserLookup)
  {
    exists id :: id in ids && id in partners && NeedsEmail(partners[id]) && lookup(partners[id].login.value).Failure?
  }

  /** Every partner of `ids` needing an e-mail gets the one GitHub has for its login. */
  function Fetched(partners: map<nat, Partner>, ids: set<nat>, lookup: UserLookup): (r: map<nat, Partner>)
    requires !FetchFails(partners, ids, lookup)
    ensures r.Keys == partners.Keys
    ensures forall id :: id in partners ==>
      (r[id].name == partners[id].name && r[id].login == partners[id].login)
    ensures forall id :: id in partners && (id !in ids || !NeedsEmail(partners[id])) ==> r[id] == partners[id]
  {
    map id | id in partners ::
      if id in ids && NeedsEmail(partners[id]) then WithFetchedEmail(partners[id], lookup) else partners[id]
  }

  /** A fetch that succeeded succeeds again, and changes nothing more. */
  lemma FetchedIdempotent(partners: map<nat, Partner>, ids: set<nat>, lookup: UserLookup)
    requires !FetchFails(partners, ids, lookup)
    ensures !FetchFails(Fetched(partners, ids, lookup), ids, lookup)
    ensures Fetched(Fetched(partners, ids, lookup), ids, lookup) == Fetched(partners, ids, lookup)
  {
    var once := Fetched(partners, ids, lookup);
    assert !FetchFails(once, ids, lookup) by {
      forall id | id in ids && id in once && NeedsEmail(once[id])
        ensures lookup(once[id].login.value).Success?
      {
        assert NeedsEmail(partners[id]);
      }
    }
    var twice := Fetched(once, ids, lookup);
    forall id | id in partners
      ensures twice[id] == once[id]
    {
      if id in ids && NeedsEmail(once[id]) {
        assert NeedsEmail(partners[id]);
      }
    }
  }

  // ------------------------------------------------------------ merging

  /** The last truthy login among the source partners. */
  function LastLogin(partners: map<nat, Partner>, src: seq<nat>): (r: Option<String>)
    requires forall i :: 0 <= i < |src| ==> src[i] in partners
    ensures r.Some? ==> Truthy(r) && exists i :: 0 <= i < |src| && partners[src[i]].login == r
    ensures r.None? <==> forall i :: 0 <= i < |src| ==> !Truthy(partners[src[i]].login)
    decreases |src|
  {
    if src == [] then None
    else
      var n := |src| - 1;
      assert forall i :: 0 <= i < n ==> src[..n][i] == src[i];
      if Truthy(partners[src[n]].login) then partners[src[n]].login else LastLogin(partners, src[..n])
  }

  /**
   * The logins after merging `src` into `dst`: when some source has a login,
   * every source loses its login, and the destination takes the last one
   * unless it has its own.
   */
  function Merged(partners: map<nat, Partner>, src: seq<nat>, dst: nat): (r: map<nat, Partner>)
    requires dst in partners && forall i :: 0 <= i < |src| ==> src[i] in partners
    ensures r.Keys == partners.Keys
  {
    var newLogin := LastLogin(partners, src);
    if newLogin.None? then partners
    else
      map id | id in partners ::
        if id in src then partners[id].(login := None)
        else if id == dst && !Truthy(partners[dst].login) then partners[id].(login := newLogin)
        else partners[id]
  }

  /** Logins are unique up to letter case (a unique index on a case-insensitive column). */
  predicate UniqueLogins(partners: map<nat, Partner>)
  {
    forall a, b :: a in partners && b in partners && a != b && Truthy(partners[a].login) && Truthy(partners[b].login) ==>
      Lower(partners[a].login.value) != Lower(partners[b].login.value)
  }

  /** Merging moves at most one login and never creates a duplicate. */
  lemma MergedKeepsLoginsUnique(partners: map<nat, Partner>, src: seq<nat>, dst: nat)
    requires dst in partners && dst !in src && forall i :: 0 <= i < |src| ==> src[i] in partners
    requires UniqueLogins(partners)
    ensures UniqueLogins(Merged(partners, src, dst))
  {
    var r := Merged(partners, src, dst);
    var newLogin := LastLogin(partners, src);
    if newLogin.Some? {
      var i :| 0 <= i < |src| && partners[src[i]].login == newLogin;
      forall a, b | a in r && b in r && a != b && Truthy(r[a].login) && Truthy(r[b].login)
        ensures Lower(r[a].login.value) != Lower(r[b].login.value)
      {
        if a == dst && !Truthy(partners[dst].login) {
          assert r[b] == partners[b] && b != src[i];
        } else if b == dst && !Truthy(partners[dst].login) {
          assert r[a] == partners[a] && a != src[i];
        } else {
          assert r[a] == partners[a] && r[b] == partners[b];
        }
      }
    }
  }

  /** After a merge with a source login, no source keeps a login and the destination has one. */
  lemma MergedLogins(partners: map<nat, Partner>, src: seq<nat>, dst: nat)
    requires dst in partners && dst !in src && forall i :: 0 <= i < |src| ==> src[i] in partners
    requires exists i :: 0 <= i < |src| && Truthy(partners[src[i]].login)
    ensures var r := Merged(partners, src, dst);
      (forall i :: 0 <= i < |src| ==> r[src[i]].login.None?)
      && r[dst].login == (if Truthy(partners[dst].login) then partners[dst].login else LastLogin(partners, src))
      && Truthy(r[dst].login)
  {
  }

  class Directory {
    var partners: map<nat, Partner>

    constructor (partners: map<nat, Partner>)
      ensures this.partners == partners
    {
      this.partners := partners;
    }

    /**
     * `fetch_github_email` on the partners `ids`. `anyProject` says whether
     * there is a project whose token to use (`random.choice` raises on none);
     * `lookup(login)` is GitHub's answer for that user. Either raise aborts
     * the call and the transaction leaves every partner as it was.
     */
    method FetchGithubEmail(ids: seq<nat>, anyProject: bool, lookup: UserLookup) returns (ok: bool)
      requires forall i :: 0 <= i < |ids| ==> ids[i] in partners
      modifies this
      ensures ok <==> anyProject && !FetchFails(old(partners), set i | 0 <= i < |ids| :: ids[i], lookup)
      ensures !ok ==> partners == old(partners)
      ensures ok ==> partners == Fetched(old(partners), set i | 0 <= i < |ids| :: ids[i], lookup)
    {
      if !anyProject {
        return false;
      }
      var before := partners;
      ghost var selected := set i | 0 <= i < |ids| :: ids[i];
      var todo := FilterNeedsEmail(ids, before);
      var i := 0;
      while i < |todo|
        invariant 0 <= i <= |todo|
        invariant partners.Keys == before.Keys
        invariant forall id :: id in todo[..i] ==>
          id in before && NeedsEmail(before[id]) && lookup(before[id].login.value).Success?
        invariant forall id :: id in before ==>
          partners[id] == if id in todo[..i] then WithFetchedEmail(before[id], lookup) else before[id]
      {
        assert todo[i] in todo;
        var p := partners[todo[i]];
        assert p.name == before[todo[i]].name && p.login == before[todo[i]].login;
        if lookup(p.login.value).Failure? {
          partners := before;
          assert todo[i] in selected;
          return false;
        }
        FetchDependsOnLogin(p, before[todo[i]], lookup);
        partners := partners[todo[i] := WithFetchedEmail(p, lookup)];
        assert todo[..i + 1] == todo[..i] + [todo[i]];
        i := i + 1;
      }
      assert todo[..i] == todo;
      assert !FetchFails(before, selected, lookup) by {
        forall id | id in selected && id in before && NeedsEmail(before[id])
          ensures lookup(before[id].login.value).Success?
        {
          assert id in todo;
        }
      }
      ok := true;
    }

    /**
     * `PartnerMerge._update_values`: the login part of merging the partners
     * `src` into `dst`.
     */
    method UpdateValues(src: seq<nat>, dst: nat)
      requires dst in partners && dst !in src && forall i :: 0 <= i < |src| ==> src[i] in partners
      modifies this
      ensures partners == Merged(old(partners), src, dst)
    {
      var newLogin: Option<String> := None;
      var i := 0;
      while i < |src|
        invariant 0 <= i <= |src|
        invariant newLogin == LastLogin(partners, src[..i])
      {
        assert src[..i + 1][..i] == src[..i];
        var login := partners[src[i]].login;
        newLogin := if Truthy(login) then login else newLogin;
        i := i + 1;
      }
      assert src[..i] == src;
      if newLogin.Some? {
        var before := partners;
        partners := map id | id in partners :: if id in src then partners[id].(login := None) else partners[id];
        if !Truthy(partners[dst].login) {
          partners := partners[dst := partners[dst].(login := newLogin)];
        }
        assert partners == Merged(before, src, dst);
      }
    }
  }

  /** The partners of `ids` that `fetch_github_email` selects, in order. */
  function FilterNeedsEmail(ids: seq<nat>, partners: map<nat, Partner>): (r: seq<nat>)
    requires forall i :: 0 <= i < |ids| ==> ids[i] in partners
    ensures forall id :: id in r <==> id in ids && NeedsEmail(partners[id])
  {
    if ids == [] then []
    else
      assert forall id :: id in ids <==> id == ids[0] || id in ids[1..];
      (if NeedsEmail(partners[ids[0]]) then [ids[0]] else []) + FilterNeedsEmail(ids[1..], partners)
  }
}
