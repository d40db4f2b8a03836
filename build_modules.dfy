// Selection of the modules a build installs and tests (`_get_modules_to_test`
// and its inner `filter_patterns`). `fnmatch` is a parameter: glob matching
// itself is not modelled.
module BuildModules {
  import opened Wrappers
  import opened Text

  type Glob = (String, String) -> bool

  /** `patterns.split(',')` with every pattern stripped. */
  function PatternList(patterns: Option<String>): seq<String>
  {
    var raw := Split(if patterns.Some? then patterns.value else "", ',');
    seq(|raw|, i requires 0 <= i < |raw| => Strip(raw[i]))
  }

  predicate IsNegative(pat: String) { StartsWith(pat, "-") }

  /** The glob of a '-' pattern: `pat.strip('- ')`. */
  function NegativeGlob(pat: String): String { StripChars(pat, {'-', ' '}) }

  /** One pattern applied to the current selection. */
  function ApplyPattern(pat: String, current: set<String>, all: set<String>, fnmatch: Glob): set<String>
  {
    if IsNegative(pat) then set m | m in current && !fnmatch(m, NegativeGlob(pat))
    else if pat != "" then current + set m | m in all && fnmatch(m, pat)
    else current
  }

  function ApplyPatterns(pats: seq<String>, current: set<String>, all: set<String>, fnmatch: Glob): set<String>
  {
    if pats == [] then current
    else ApplyPatterns(pats[1..], ApplyPattern(pats[0], current, all, fnmatch), all, fnmatch)
  }

  /** `filter_patterns(patterns, default, all)`. */
  function FilterPatterns(patterns: Option<String>, default: set<String>, all: set<String>, fnmatch: Glob): set<String>
  {
    ApplyPatterns(PatternList(patterns), default, all, fnmatch)
  }

  /**
   * What one pattern says about module `m`: a matching '-' pattern removes it,
   * a matching non-empty pattern adds it when it is available; anything else
   * says nothing.
   */
  function Verdict(pat: String, m: String, all: set<String>, fnmatch: Glob): Option<bool>
  {
    if IsNegative(pat) then (if fnmatch(m, NegativeGlob(pat)) then Some(false) else None)
    else if pat != "" && m in all && fnmatch(m, pat) then Some(true)
    else None
  }

  /** The verdict of the last pattern that says something about `m`. */
  function LastVerdict(pats: seq<String>, m: String, all: set<String>, fnmatch: Glob): Option<bool>
  {
    if pats == [] then None
    else
      var later := LastVerdict(pats[1..], m, all, fnmatch);
      if later.Some? then later else Verdict(pats[0], m, all, fnmatch)
  }

  /**
   * The last pattern that matches a module decides whether it is selected;
   * a module no pattern speaks about keeps its default membership.
   */
  lemma {:induction false} LastMatchingPatternDecides(pats: seq<String>, current: set<String>, all: set<String>,
                                                      fnmatch: Glob, m: String)
    ensures m in ApplyPatterns(pats, current, all, fnmatch) <==>
      match LastVerdict(pats, m, all, fnmatch)
      case Some(b) => b
      case None => m in current
  {
    if pats != [] {
      LastMatchingPatternDecides(pats[1..], ApplyPattern(pats[0], current, all, fnmatch), all, fnmatch, m);
    }
  }

  /** Filtering never invents modules: the result comes from the defaults or the available modules. */
  lemma {:induction false} PatternsStayWithinModules(pats: seq<String>, current: set<String>, all: set<String>, fnmatch: Glob)
    ensures ApplyPatterns(pats, current, all, fnmatch) <= current + all
  {
    if pats != [] {
      var next := ApplyPattern(pats[0], current, all, fnmatch);
      PatternsStayWithinModules(pats[1..], next, all, fnmatch);
    }
  }

  /** One entry of `_get_available_modules()`: the repo's `modules` patterns and its module list. */
  datatype RepoModules = RepoModules(patterns: Option<String>, modules: seq<String>)

  function ModuleSet(modules: seq<String>): set<String>
  {
    set m | m in modules
  }

  function AvailableModules(repos: seq<RepoModules>): set<String>
  {
    if repos == [] then {} else AvailableModules(repos[..|repos| - 1]) + ModuleSet(repos[|repos| - 1].modules)
  }

  /** Union over repos of each repo's own selection. */
  function RepoSelection(repos: seq<RepoModules>, fnmatch: Glob): set<String>
  {
    if repos == [] then {}
    else
      var r := repos[|repos| - 1];
      var own := ModuleSet(r.modules);
      RepoSelection(repos[..|repos| - 1], fnmatch) + FilterPatterns(r.patterns, own, own, fnmatch)
  }

  lemma {:induction false} RepoSelectionIsAvailable(repos: seq<RepoModules>, fnmatch: Glob)
    ensures RepoSelection(repos, fnmatch) <= AvailableModules(repos)
  {
    if repos != [] {
      var r := repos[|repos| - 1];
      var own := ModuleSet(r.modules);
      RepoSelectionIsAvailable(repos[..|repos| - 1], fnmatch);
      PatternsStayWithinModules(PatternList(r.patterns), own, own, fnmatch);
    }
  }

  /**
   * `_get_modules_to_test`: each repo's patterns select among its own modules,
   * then the params' `modules` and the extra patterns filter the union against
   * every available module. Only available modules are ever selected.
   * (The source returns the set sorted.)
   */
  method ModulesToTest(repos: seq<RepoModules>, paramsModules: Option<String>, extraPatterns: Option<String>, fnmatch: Glob)
    returns (selected: set<String>)
    ensures selected <= AvailableModules(repos)
    ensures selected == FilterPatterns(extraPatterns,
                          FilterPatterns(paramsModules, RepoSelection(repos, fnmatch), AvailableModules(repos), fnmatch),
                          AvailableModules(repos), fnmatch)
  {
    var available: set<String> := {};
    var toInstall: set<String> := {};
    var i := 0;
    while i < |repos|
      invariant 0 <= i <= |repos|
      invariant available == AvailableModules(repos[..i])
      invariant toInstall == RepoSelection(repos[..i], fnmatch)
    {
      var own := ModuleSet(repos[i].modules);
      available := available + own;
      toInstall := toInstall + FilterPatterns(repos[i].patterns, own, own, fnmatch);
      assert repos[..i + 1][..i] == repos[..i];
      i := i + 1;
    }
    assert repos[..i] == repos;
    var afterParams := FilterPatterns(paramsModules, toInstall, available, fnmatch);
    selected := FilterPatterns(extraPatterns, afterParams, available, fnmatch);
    RepoSelectionIsAvailable(repos, fnmatch);
    PatternsStayWithinModules(PatternList(paramsModules), toInstall, available, fnmatch);
    PatternsStayWithinModules(PatternList(extraPatterns), afterParams, available, fnmatch);
  }
}
