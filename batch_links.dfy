// The commit links of a bundle batch (`runbot.commit.link` rows of
// `commit_link_ids`): one per repository, added when a branch gets a new head
// during the throttle window, filled from a chain of fallback sources when a
// trigger needs a repository the bundle did not push, and annotated with the
// merge base and diff counters against the base bundle's heads. Git is an
// input: each git command is a function from its arguments to its output, or
// to `None` when the command fails.
module BatchLinks {
  import opened Wrappers
  import opened Text

  datatype Commit = Commit(id: nat, repo: nat, name: String)

  datatype Branch = Branch(id: nat, name: String, isPr: bool, alive: bool, head: Commit)

  /** `match_type` of a commit link. */
  datatype MatchType = New | Head | BaseMatch | BaseHead

  /** `match_type.startswith('base')`. */
  predicate IsBaseMatch(m: MatchType)
  {
    m == BaseMatch || m == BaseHead
  }

  datatype CommitLink = CommitLink(
    commit: Commit,
    branch: Branch,
    matchType: MatchType,
    baseCommit: Option<Commit>,
    mergeBaseCommit: Option<Commit>,
    baseAhead: int,
    baseBehind: int,
    fileChanged: int,
    diffAdd: int,
    diffRemove: int)

  /** A freshly created link: no base information and zero counters. */
  function NewLink(commit: Commit, branch: Branch, matchType: MatchType): CommitLink
  {
    CommitLink(commit, branch, matchType, None, None, 0, 0, 0, 0, 0)
  }

  /** A batch never holds two links for one repository. */
  predicate OneLinkPerRepo(links: seq<CommitLink>)
  {
    forall i, j :: 0 <= i < j < |links| ==> links[i].commit.repo != links[j].commit.repo
  }

  /** `commit_link_ids.mapped('commit_id.repo_id')`. */
  function LinkedRepos(links: seq<CommitLink>): set<nat>
  {
    set i | 0 <= i < |links| :: links[i].commit.repo
  }

  lemma LinkedReposAppend(links: seq<CommitLink>, more: seq<CommitLink>)
    ensures LinkedRepos(links + more) == LinkedRepos(links) + LinkedRepos(more)
  {
    var all := links + more;
    forall r | r in LinkedRepos(all) ensures r in LinkedRepos(links) + LinkedRepos(more) {
      var i :| 0 <= i < |all| && all[i].commit.repo == r;
      if i >= |links| {
        assert more[i - |links|].commit.repo == r;
      }
    }
    forall r | r in LinkedRepos(links) + LinkedRepos(more) ensures r in LinkedRepos(all) {
      if r in LinkedRepos(links) {
        var i :| 0 <= i < |links| && links[i].commit.repo == r;
        assert all[i].commit.repo == r;
      } else {
        var i :| 0 <= i < |more| && more[i].commit.repo == r;
        assert all[|links| + i].commit.repo == r;
      }
    }
  }

  lemma LinkedReposOne(l: CommitLink)
    ensures LinkedRepos([l]) == {l.commit.repo}
  {
    assert [l][0].commit.repo in LinkedRepos([l]);
  }

  // ------------------------------------------------------------ _new_commit

  /** Index of the first link of `repo`, or `|links|` when there is none. */
  function FirstLinkOf(links: seq<CommitLink>, repo: nat): (i: nat)
    ensures i <= |links|
    ensures i < |links| ==> links[i].commit.repo == repo
    ensures forall j :: 0 <= j < i ==> links[j].commit.repo != repo
  {
    if links == [] then 0
    else if links[0].commit.repo == repo then 0
    else 1 + FirstLinkOf(links[1..], repo)
  }

  /**
   * The links after `_new_commit(branch, match_type)`: the link of the head's
   * repository takes the new commit and branch when the commit differs, takes
   * the branch when the commit is the same and the branch is a PR replacing a
   * plain branch, and is otherwise kept; without such a link a new one is
   * appended.
   */
  function NewCommitLinks(links: seq<CommitLink>, branch: Branch, matchType: MatchType): seq<CommitLink>
  {
    var commit := branch.head;
    var i := FirstLinkOf(links, commit.repo);
    if i == |links| then links + [NewLink(commit, branch, matchType)]
    else if links[i].commit.id != commit.id then links[i := links[i].(commit := commit, branch := branch)]
    else if !links[i].branch.isPr && branch.isPr then links[i := links[i].(branch := branch)]
    else links
  }

  /**
   * After `_new_commit` the head's repository has exactly one link, it holds
   * the head commit (by id), it is on a PR branch whenever `branch` is one,
   * and every other link is untouched.
   */
  lemma NewCommitKeepsOneLinkPerRepo(links: seq<CommitLink>, branch: Branch, matchType: MatchType)
    requires OneLinkPerRepo(links)
    ensures var r := NewCommitLinks(links, branch, matchType);
      && OneLinkPerRepo(r)
      && LinkedRepos(r) == LinkedRepos(links) + {branch.head.repo}
      && |r| >= |links|
      && (forall i :: 0 <= i < |r| && r[i].commit.repo == branch.head.repo ==>
            r[i].commit.id == branch.head.id && (branch.isPr ==> r[i].branch.isPr))
      && (forall i :: 0 <= i < |links| && links[i].commit.repo != branch.head.repo ==> r[i] == links[i])
  {
    var r := NewCommitLinks(links, branch, matchType);
    var i := FirstLinkOf(links, branch.head.repo);
    if i == |links| {
      LinkedReposAppend(links, [NewLink(branch.head, branch, matchType)]);
      LinkedReposOne(NewLink(branch.head, branch, matchType));
    } else {
      assert LinkedRepos(r) == LinkedRepos(links) by {
        forall x | x in LinkedRepos(links) ensures x in LinkedRepos(r) {
          var j :| 0 <= j < |links| && links[j].commit.repo == x;
          assert r[j].commit.repo == x;
        }
        forall x | x in LinkedRepos(r) ensures x in LinkedRepos(links) {
          var j :| 0 <= j < |r| && r[j].commit.repo == x;
          assert links[j].commit.repo == x;
        }
      }
    }
  }

  /** A second `_new_commit` with the same branch changes nothing more. */
  lemma NewCommitIdempotent(links: seq<CommitLink>, branch: Branch, matchType: MatchType)
    requires OneLinkPerRepo(links)
    ensures NewCommitLinks(NewCommitLinks(links, branch, matchType), branch, matchType)
         == NewCommitLinks(links, branch, matchType)
  {
    var r := NewCommitLinks(links, branch, matchType);
    NewCommitKeepsOneLinkPerRepo(links, branch, matchType);
    var i := FirstLinkOf(links, branch.head.repo);
    var k := FirstLinkOf(r, branch.head.repo);
    if i < |links| {
      assert k == i;
    } else {
      assert r[|links|].commit.repo == branch.head.repo;
      assert k == |links|;
    }
  }

  // ----------------------------------------------------------- fill_missing

  /** One entry of the dict handed to `fill_missing`: a branch and the commit to link. */
  datatype Candidate = Candidate(branch: Branch, commit: Commit)

  /** The link `fill_missing` creates for a candidate: base information is the commit itself for base match types. */
  function FilledLink(c: Candidate, matchType: MatchType): (l: CommitLink)
    ensures l.commit == c.commit && l.branch == c.branch && l.matchType == matchType
    ensures IsBaseMatch(matchType) ==> l.baseCommit == Some(c.commit) && l.mergeBaseCommit == Some(c.commit)
    ensures !IsBaseMatch(matchType) ==> l == NewLink(c.commit, c.branch, matchType)
  {
    if IsBaseMatch(matchType) then
      NewLink(c.commit, c.branch, matchType).(baseCommit := Some(c.commit), mergeBaseCommit := Some(c.commit))
    else NewLink(c.commit, c.branch, matchType)
  }

  /** What `fill_missing` produces: the new links, the repositories still missing, and the dead branches it skipped. */
  datatype Filled = Filled(links: seq<CommitLink>, left: set<nat>, deadSkipped: seq<String>)

  /**
   * `fill_missing(candidates, match_type)` with `missing` the missing
   * repositories: each candidate whose commit's repository is still missing
   * is linked when its branch is alive (and logged as skipped otherwise), and
   * its repository is no longer missing. Every repository is filled at most
   * once, only from a live branch, and only if it was missing.
   */
  function Fill(cands: seq<Candidate>, matchType: MatchType, missing: set<nat>): (r: Filled)
    ensures r.left <= missing && LinkedRepos(r.links) == missing - r.left
  {
    if cands == [] then Filled([], missing, [])
    else
      var before := Fill(cands[..|cands| - 1], matchType, missing);
      var c := cands[|cands| - 1];
      if c.commit.repo !in before.left then before
      else if !c.branch.alive then before.(deadSkipped := before.deadSkipped + [c.branch.name])
      else
        LinkedReposAppend(before.links, [FilledLink(c, matchType)]);
        LinkedReposOne(FilledLink(c, matchType));
        Filled(before.links + [FilledLink(c, matchType)], before.left - {c.commit.repo}, before.deadSkipped)
  }

  /** `fill_missing` links each repository at most once, and only from a live branch. */
  lemma {:induction false} FillLinksAreFresh(cands: seq<Candidate>, matchType: MatchType, missing: set<nat>)
    ensures var r := Fill(cands, matchType, missing);
      && OneLinkPerRepo(r.links)
      && forall i :: 0 <= i < |r.links| ==>
           r.links[i].branch.alive && r.links[i] == FilledLink(Candidate(r.links[i].branch, r.links[i].commit), matchType)
  {
    if cands != [] {
      var front := cands[..|cands| - 1];
      FillLinksAreFresh(front, matchType, missing);
      var before := Fill(front, matchType, missing);
      var c := cands[|cands| - 1];
      if c.commit.repo in before.left && c.branch.alive {
        var l := FilledLink(c, matchType);
        var links := before.links + [l];
        assert Fill(cands, matchType, missing).links == links;
        forall i | 0 <= i < |before.links| ensures links[i].commit.repo != l.commit.repo {
          assert before.links[i].commit.repo in LinkedRepos(before.links);
        }
      }
    }
  }

  /** Index of the first candidate of `repo` on a live branch, or `|cands|`. */
  function FirstAlive(cands: seq<Candidate>, repo: nat): (i: nat)
    ensures i <= |cands|
    ensures i < |cands| ==> cands[i].commit.repo == repo && cands[i].branch.alive
    ensures forall j :: 0 <= j < i ==> !(cands[j].commit.repo == repo && cands[j].branch.alive)
  {
    if cands == [] then 0
    else if cands[0].commit.repo == repo && cands[0].branch.alive then 0
    else 1 + FirstAlive(cands[1..], repo)
  }

  /**
   * Which candidate fills a missing repository: the first one on a live
   * branch, and the repository stays missing when there is none.
   */
  lemma {:induction false} FillTakesFirstAlive(cands: seq<Candidate>, matchType: MatchType, missing: set<nat>, repo: nat)
    requires repo in missing
    ensures var r := Fill(cands, matchType, missing);
      && (repo in r.left <==> FirstAlive(cands, repo) == |cands|)
      && (forall i :: 0 <= i < |r.links| && r.links[i].commit.repo == repo ==>
            r.links[i] == FilledLink(cands[FirstAlive(cands, repo)], matchType))
  {
    if cands != [] {
      var n := |cands| - 1;
      var front := cands[..n];
      FillTakesFirstAlive(front, matchType, missing, repo);
      var before := Fill(front, matchType, missing);
      var c := cands[n];
      var k := FirstAlive(front, repo);
      if k < n {
        assert cands[k] == front[k];
        assert FirstAlive(cands, repo) == k by {
          FirstAliveUnique(cands, repo, k);
        }
      } else {
        if c.commit.repo == repo && c.branch.alive {
          FirstAliveUnique(cands, repo, n);
        } else {
          forall j | 0 <= j < |cands| ensures !(cands[j].commit.repo == repo && cands[j].branch.alive) {
            if j < n {
              assert cands[j] == front[j];
            }
          }
          FirstAliveNone(cands, repo);
        }
      }
    }
  }

  lemma FirstAliveUnique(cands: seq<Candidate>, repo: nat, k: nat)
    requires k < |cands| && cands[k].commit.repo == repo && cands[k].branch.alive
    requires forall j :: 0 <= j < k ==> !(cands[j].commit.repo == repo && cands[j].branch.alive)
    ensures FirstAlive(cands, repo) == k
  {
  }

  lemma FirstAliveNone(cands: seq<Candidate>, repo: nat)
    requires forall j :: 0 <= j < |cands| ==> !(cands[j].commit.repo == repo && cands[j].branch.alive)
    ensures FirstAlive(cands, repo) == |cands|
  {
  }

  /** One fallback source of the chain: its candidates, in order, and the match type of the links it creates. */
  datatype Source = Source(cands: seq<Candidate>, matchType: MatchType)

  /**
   * The fallback chain: each source in turn fills what the previous ones left
   * missing. A repository is filled by the first source, in order, that has a
   * live candidate for it.
   */
  function FillChain(sources: seq<Source>, missing: set<nat>): (r: Filled)
    ensures r.left <= missing && LinkedRepos(r.links) == missing - r.left
    ensures OneLinkPerRepo(r.links)
    decreases |sources|
  {
    if sources == [] then Filled([], missing, [])
    else
      var before := FillChain(sources[..|sources| - 1], missing);
      var s := sources[|sources| - 1];
      var step := Fill(s.cands, s.matchType, before.left);
      FillLinksAreFresh(s.cands, s.matchType, before.left);
      LinkedReposAppend(before.links, step.links);
      OneLinkPerRepoAppend(before.links, step.links);
      Filled(before.links + step.links, step.left, before.deadSkipped + step.deadSkipped)
  }

  lemma OneLinkPerRepoAppend(a: seq<CommitLink>, b: seq<CommitLink>)
    requires OneLinkPerRepo(a) && OneLinkPerRepo(b) && LinkedRepos(a) !! LinkedRepos(b)
    ensures OneLinkPerRepo(a + b)
  {
    var ab := a + b;
    forall i, j | 0 <= i < j < |ab| ensures ab[i].commit.repo != ab[j].commit.repo {
      if i < |a| && j >= |a| {
        assert ab[i].commit.repo in LinkedRepos(a);
        assert ab[j] == b[j - |a|];
        assert ab[j].commit.repo in LinkedRepos(b);
      } else if i >= |a| {
        assert ab[i] == b[i - |a|] && ab[j] == b[j - |a|];
      }
    }
  }

  /** Appending what the chain fills to links that cover none of the missing repositories keeps one link per repository. */
  lemma ChainKeepsOneLinkPerRepo(links: seq<CommitLink>, sources: seq<Source>, missing: set<nat>)
    requires OneLinkPerRepo(links) && LinkedRepos(links) !! missing
    ensures OneLinkPerRepo(links + FillChain(sources, missing).links)
    ensures LinkedRepos(links + FillChain(sources, missing).links) !! FillChain(sources, missing).left
  {
    var r := FillChain(sources, missing);
    OneLinkPerRepoAppend(links, r.links);
    LinkedReposAppend(links, r.links);
  }

  // ----------------------------------------------------- _update_commits_infos

  /** The git commands `_update_commits_infos` runs, with `None` for a failing command (CalledProcessError). */
  datatype Git = Git(
    mergeBase: (String, String) -> Option<String>,
    revListCount: (String, String) -> Option<String>,
    diffNumstat: (String, String) -> Option<String>,
    commitOf: (String, nat) -> Commit)

  /** `ahead, behind = out.strip().split('\t')` then `int()` of each; `None` is the ValueError. */
  function ParseAheadBehind(out: String): (r: Option<(int, int)>)
    ensures r.Some? ==> |Split(Strip(out), '\t')| == 2
  {
    var parts := Split(Strip(out), '\t');
    if |parts| != 2 then None
    else match (ParseInt(parts[0]), ParseInt(parts[1]))
      case (Some(a), Some(b)) => Some((a, b))
      case _ => None
  }

  lemma ParseAheadBehindCounts(ahead: nat, behind: nat)
    ensures ParseAheadBehind(NatToString(ahead) + "\t" + NatToString(behind)) == Some((ahead, behind))
  {
    ParseTwoCounts(NatToString(ahead), NatToString(behind));
    DigitsValueOfNatToString(ahead);
    DigitsValueOfNatToString(behind);
  }

  /** Two runs of digits separated by a tab parse to their two values. */
  lemma ParseTwoCounts(a: String, b: String)
    requires a != [] && b != [] && AllDigits(a) && AllDigits(b)
    ensures ParseAheadBehind(a + "\t" + b) == Some((DigitsValue(a), DigitsValue(b)))
  {
    var s := a + "\t" + b;
    assert s == a + ['\t'] + b && s[0] == a[0] && s[|s| - 1] == b[|b| - 1];
    assert IsDigit(a[0]) && IsDigit(b[|b| - 1]);
    StripTrimmed(s);
    DigitsLackChar(a, '\t');
    DigitsLackChar(b, '\t');
    SplitTwo(a, b, '\t');
    ParseIntOfDigits(a);
    ParseIntOfDigits(b);
  }

  lemma SplitTwo(a: String, b: String, sep: char)
    requires sep !in a && sep !in b
    ensures Split(a + [sep] + b, sep) == [a, b]
  {
    var s := a + [sep] + b;
    var i := IndexWhere(s, c => c == sep);
    assert s[|a|] == sep;
    assert forall j :: 0 <= j < |a| ==> s[j] == a[j];
    assert i == |a|;
    assert s[..i] == a;
    assert s[i + 1..] == b;
    var k := IndexWhere(b, c => c == sep);
    assert k == |b|;
  }

  /** Running totals of `diff --numstat` lines: files changed, lines added, lines removed. */
  datatype Numstat = Numstat(files: nat, added: int, removed: int)

  /**
   * One numstat line: `add, remove, _ = line.split(None, 2)` (a ValueError,
   * `None`, with fewer than three fields), then the file is counted, and
   * `int(add)` then `int(remove)` are added until one of them is not a
   * number (the binary `-`).
   */
  function NumstatLine(acc: Numstat, ws: seq<String>): (r: Option<Numstat>)
    ensures r.Some? ==> r.value.files == acc.files + 1
  {
    if |ws| < 3 then None
    else
      var counted := acc.(files := acc.files + 1);
      match ParseInt(ws[0])
      case None => Some(counted)
      case Some(add) =>
        match ParseInt(ws[1])
        case None => Some(counted.(added := acc.added + add))
        case Some(remove) => Some(counted.(added := acc.added + add, removed := acc.removed + remove))
  }

  /** The totals over `lines`, or `None` when a line does not unpack. */
  function NumstatTotals(lines: seq<String>): (r: Option<Numstat>)
    ensures r.Some? ==> r.value.files == |lines|
  {
    if lines == [] then Some(Numstat(0, 0, 0))
    else match NumstatTotals(lines[..|lines| - 1])
      case None => None
      case Some(acc) => NumstatLine(acc, Words(lines[|lines| - 1]))
  }

  /** A binary entry (`-` for the added count) counts as a changed file and adds nothing. */
  lemma BinaryEntryAddsNothing(acc: Numstat, ws: seq<String>)
    requires |ws| >= 3 && ws[0] == "-"
    ensures NumstatLine(acc, ws) == Some(acc.(files := acc.files + 1))
  {
    var dash: String := ['-'];
    assert ws[0] == dash;
    assert !IsSpace('-');
    assert StripLeft(dash, IsSpace) == dash;
    assert StripRight(dash, IsSpace) == dash;
    assert Strip(dash) == dash;
  }

  /** A line with numeric counts adds them to the totals. */
  lemma NumericEntryAdds(lines: seq<String>, line: String, n: Numstat, add: int, remove: int)
    requires NumstatTotals(lines) == Some(n)
    requires var ws := Words(line); |ws| >= 3 && ParseInt(ws[0]) == Some(add) && ParseInt(ws[1]) == Some(remove)
    ensures NumstatTotals(lines + [line]) == Some(Numstat(n.files + 1, n.added + add, n.removed + remove))
  {
    NumstatTotalsSnoc(lines, line, n);
    NumericWordsAdd(n, Words(line), add, remove);
  }

  lemma NumstatTotalsSnoc(lines: seq<String>, line: String, n: Numstat)
    requires NumstatTotals(lines) == Some(n)
    ensures NumstatTotals(lines + [line]) == NumstatLine(n, Words(line))
  {
    var all := lines + [line];
    assert all[..|all| - 1] == lines && all[|all| - 1] == line;
  }

  lemma NumericWordsAdd(n: Numstat, ws: seq<String>, add: int, remove: int)
    requires |ws| >= 3 && ParseInt(ws[0]) == Some(add) && ParseInt(ws[1]) == Some(remove)
    ensures NumstatLine(n, ws) == Some(Numstat(n.files + 1, n.added + add, n.removed + remove))
  {
  }

  /** What happens to one link: it is updated (and `failed` when a git command failed), or a ValueError escapes. */
  datatype LinkOutcome = LinkUpdated(link: CommitLink, failed: bool) | LinkRaised

  /**
   * The body of `_update_commits_infos` for one link whose repository has a
   * base head: the base commit is set and the counters reset, the merge base
   * starts as the commit itself; unless the commit is the base head, git gives
   * the merge base, the ahead/behind counts, and (unless the merge base is the
   * commit itself) the numstat totals.
   */
  function LinkInfo(l: CommitLink, base: Commit, git: Git): (r: LinkOutcome)
    ensures r.LinkUpdated? ==> r.link.commit == l.commit && r.link.branch == l.branch
                               && r.link.matchType == l.matchType && r.link.baseCommit == Some(base)
  {
    var commit := l.commit;
    var reset := l.(baseCommit := Some(base), baseAhead := 0, baseBehind := 0, fileChanged := 0,
                    diffAdd := 0, diffRemove := 0, mergeBaseCommit := Some(commit));
    if commit.name == base.name then LinkUpdated(reset, false)
    else match git.mergeBase(commit.name, base.name)
      case None => LinkUpdated(reset, true)
      case Some(out) =>
        var mbSha := Strip(out);
        var withMb := reset.(mergeBaseCommit := Some(git.commitOf(mbSha, commit.repo)));
        match git.revListCount(commit.name, base.name)
        case None => LinkUpdated(withMb, true)
        case Some(counts) =>
          match ParseAheadBehind(counts)
          case None => LinkRaised
          case Some(ab) =>
            LinkDiff(withMb.(baseAhead := ab.0, baseBehind := ab.1), mbSha, git)
  }

  /**
   * The last stage of `LinkInfo`: unless the merge base is the commit itself,
   * the numstat of the diff from the merge base gives the file and line counts.
   */
  function LinkDiff(counted: CommitLink, mbSha: String, git: Git): (r: LinkOutcome)
    ensures r.LinkUpdated? ==> r.link.(fileChanged := 0, diffAdd := 0, diffRemove := 0)
                               == counted.(fileChanged := 0, diffAdd := 0, diffRemove := 0)
  {
    if mbSha == counted.commit.name then LinkUpdated(counted, false)
    else match git.diffNumstat(mbSha, counted.commit.name)
      case None => LinkUpdated(counted, true)
      case Some(diffOut) =>
        var diff := Strip(diffOut);
        if diff == [] then LinkUpdated(counted, false)
        else match NumstatTotals(Split(diff, '\n'))
          case None => LinkRaised
          case Some(n) =>
            LinkUpdated(counted.(fileChanged := n.files, diffAdd := n.added, diffRemove := n.removed), false)
  }

  /** A link already on the base head keeps zero counters, and the commit is its own merge base. */
  lemma SameCommitHasNoDiff(l: CommitLink, base: Commit, git: Git)
    requires l.commit.name == base.name
    ensures var r := LinkInfo(l, base, git);
      && r == LinkUpdated(r.link, false)
      && r.link.baseAhead == 0 && r.link.baseBehind == 0 && r.link.fileChanged == 0
      && r.link.diffAdd == 0 && r.link.diffRemove == 0 && r.link.mergeBaseCommit == Some(l.commit)
  {
  }

  /** When the merge base cannot be computed the link keeps the defaults and the failure is reported. */
  lemma MergeBaseFailureKeepsDefaults(l: CommitLink, base: Commit, git: Git)
    requires l.commit.name != base.name && git.mergeBase(l.commit.name, base.name).None?
    ensures var r := LinkInfo(l, base, git);
      && r.LinkUpdated? && r.failed
      && r.link.baseAhead == 0 && r.link.baseBehind == 0 && r.link.fileChanged == 0
      && r.link.diffAdd == 0 && r.link.diffRemove == 0 && r.link.mergeBaseCommit == Some(l.commit)
  {
  }
}
