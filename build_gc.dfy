// Retention of build databases and work directories: `gc_date` and the
// selection of what `_local_cleanup` may drop (`_filter_to_clean`). Instants
// are integer seconds; the configuration parameters are inputs.
module BuildGc {
  import opened Wrappers
  import opened Text
  import opened BuildOrder
  import opened BuildTree

  const Day: int := 86400

  /** `runbot.db_gc_days`, `runbot.db_gc_days_child` and `runbot.full_gc_days`. */
  datatype GcConfig = GcConfig(mainDays: int, childDays: int, fullGcDays: int)

  const DefaultGcConfig := GcConfig(30, 15, 365)

  /** The instant retention counts from: `job_end or create_date or now`. */
  function GcReference(jobEnd: Option<int>, createDate: Option<int>, now: int): int
  {
    if jobEnd.Some? then jobEnd.value else if createDate.Some? then createDate.value else now
  }

  /** `_compute_gc_date`. */
  function GcDate(b: Build, cfg: GcConfig, now: int): int
  {
    var days := (if b.parent.None? then cfg.mainDays else cfg.childDays) + b.gcDelay;
    GcReference(b.jobEnd, Some(b.createDate), now) + days * Day
  }

  /**
   * With the default configuration a root build is kept 30 days after it
   * ended and a child 15, each extended by its `gc_delay` days.
   */
  lemma DefaultRetention(b: Build, now: int)
    requires b.jobEnd.Some?
    ensures b.parent.None? ==> GcDate(b, DefaultGcConfig, now) == b.jobEnd.value + (30 + b.gcDelay) * Day
    ensures b.parent.Some? ==> GcDate(b, DefaultGcConfig, now) == b.jobEnd.value + (15 + b.gcDelay) * Day
    ensures b.parent.Some? ==> GcDate(b, DefaultGcConfig, now) == GcDate(b.(parent := None), DefaultGcConfig, now) - 15 * Day
  {
  }

  /** What one database or directory name becomes in `_filter_to_clean`. */
  predicate Cleanable(t: Table, id: BuildId, cfg: GcConfig, now: int)
  {
    id in t && GcDate(t[id], cfg, now) < now && t[id].localState == Done
  }

  function IsFull(t: Table, id: BuildId, cfg: GcConfig, now: int): bool
    requires id in t
  {
    GcDate(t[id], cfg, now) + cfg.fullGcDays * Day < now
  }

  predicate WarnedAbout(t: Table, id: BuildId, cfg: GcConfig, now: int)
  {
    id in t && GcDate(t[id], cfg, now) < now && t[id].localState != Done && t[id].localState != Running
  }

  /** A yielded `(name, full)` pair is the name of a cleanable build with its `full` flag. */
  predicate CleanEntry(e: (String, bool), parseDest: String -> Option<BuildId>, t: Table, cfg: GcConfig, now: int)
  {
    parseDest(e.0).Some? && Cleanable(t, parseDest(e.0).value, cfg, now) && e.1 == IsFull(t, parseDest(e.0).value, cfg, now)
  }

  /** The `dest_by_builds_ids` dictionary: build ids in first-seen order and the names of each. */
  method GroupDests(dests: seq<String>, parseDest: String -> Option<BuildId>, template: String)
    returns (order: seq<BuildId>, byBuild: map<BuildId, seq<String>>, ignored: set<String>)
    ensures forall id :: id in byBuild <==> id in order
    ensures forall id :: id in byBuild ==> byBuild[id] != []
    ensures forall id, d :: id in byBuild && d in byBuild[id] ==> d in dests && parseDest(d) == Some(id)
    ensures forall d :: d in dests && parseDest(d).Some? ==> parseDest(d).value in byBuild && d in byBuild[parseDest(d).value]
    ensures forall d :: d in ignored <==> d in dests && parseDest(d).None? && d != template
  {
    order := [];
    byBuild := map[];
    ignored := {};
    var i := 0;
    while i < |dests|
      invariant 0 <= i <= |dests|
      invariant forall id :: id in byBuild <==> id in order
      invariant forall id :: id in byBuild ==> byBuild[id] != []
      invariant forall id, d :: id in byBuild && d in byBuild[id] ==> d in dests && parseDest(d) == Some(id)
      invariant forall d :: d in dests[..i] && parseDest(d).Some? ==> parseDest(d).value in byBuild && d in byBuild[parseDest(d).value]
      invariant forall d :: d in ignored <==> d in dests[..i] && parseDest(d).None? && d != template
    {
      var dest := dests[i];
      var parsed := parseDest(dest);
      if parsed.Some? {
        var id := parsed.value;
        if id !in byBuild {
          order := order + [id];
          byBuild := byBuild[id := []];
        }
        byBuild := byBuild[id := byBuild[id] + [dest]];
      } else if dest != template {
        ignored := ignored + {dest};
      }
      assert dests[..i + 1] == dests[..i] + [dest];
      i := i + 1;
    }
    assert dests[..i] == dests;
  }

  function Pairs(dbs: seq<String>, full: bool): (r: seq<(String, bool)>)
    ensures forall d :: d in dbs <==> (d, full) in r
    ensures forall e :: e in r ==> e.1 == full && e.0 in dbs
  {
    if dbs == [] then [] else [(dbs[0], full)] + Pairs(dbs[1..], full)
  }

  /** The second loop of `_filter_to_clean`, over the builds in the order their names were first seen. */
  method SelectBuilds(order: seq<BuildId>, byBuild: map<BuildId, seq<String>>, parseDest: String -> Option<BuildId>,
                      t: Table, cfg: GcConfig, now: int)
    returns (clean: seq<(String, bool)>, warned: seq<BuildId>)
    requires forall id :: id in order ==> id in byBuild
    requires forall id, d :: id in byBuild && d in byBuild[id] ==> parseDest(d) == Some(id)
    ensures forall e :: e in clean ==> CleanEntry(e, parseDest, t, cfg, now)
    ensures forall id, d :: id in order && Cleanable(t, id, cfg, now) && d in byBuild[id] ==>
      (d, IsFull(t, id, cfg, now)) in clean
    ensures forall id :: id in warned <==> id in order && WarnedAbout(t, id, cfg, now)
  {
    clean := [];
    warned := [];
    var k := 0;
    while k < |order|
      invariant 0 <= k <= |order|
      invariant forall e :: e in clean ==> CleanEntry(e, parseDest, t, cfg, now)
      invariant forall id, d :: id in order[..k] && Cleanable(t, id, cfg, now) && d in byBuild[id] ==>
        (d, IsFull(t, id, cfg, now)) in clean
      invariant forall id :: id in warned <==> id in order[..k] && WarnedAbout(t, id, cfg, now)
    {
      var id := order[k];
      if id in t && GcDate(t[id], cfg, now) < now {
        if t[id].localState == Done {
          var full := GcDate(t[id], cfg, now) + cfg.fullGcDays * Day < now;
          clean := clean + Pairs(byBuild[id], full);
        } else if t[id].localState != Running {
          warned := warned + [id];
        }
      }
      assert order[..k + 1] == order[..k] + [id];
      k := k + 1;
    }
    assert order[..k] == order;
  }

  /**
   * `_filter_to_clean`: names are grouped by the build they belong to
   * (`parseDest` stands for `dest_reg` and the leading id). Only names of
   * existing builds that are done and past their gc_date are yielded, marked
   * full once `full_gc_days` more have passed; builds past their gc_date that
   * are neither done nor running are only warned about; names that are not
   * build names, except the template, are reported as ignored.
   */
  method FilterToClean(dests: seq<String>, parseDest: String -> Option<BuildId>, template: String,
                       t: Table, cfg: GcConfig, now: int)
    returns (clean: seq<(String, bool)>, warned: seq<BuildId>, ignored: set<String>)
    ensures forall e :: e in clean ==> CleanEntry(e, parseDest, t, cfg, now)
    ensures forall d :: d in dests && parseDest(d).Some? && Cleanable(t, parseDest(d).value, cfg, now) ==>
      (d, IsFull(t, parseDest(d).value, cfg, now)) in clean
    ensures forall id :: id in warned <==> WarnedAbout(t, id, cfg, now) && exists d :: d in dests && parseDest(d) == Some(id)
    ensures forall d :: d in ignored <==> d in dests && parseDest(d).None? && d != template
  {
    var order, byBuild;
    order, byBuild, ignored := GroupDests(dests, parseDest, template);
    clean, warned := SelectBuilds(order, byBuild, parseDest, t, cfg, now);
    forall id: BuildId | WarnedAbout(t, id, cfg, now) && (exists d :: d in dests && parseDest(d) == Some(id))
      ensures id in warned
    {
      var d :| d in dests && parseDest(d) == Some(id);
      assert id in byBuild;
    }
    forall id | id in warned
      ensures exists d :: d in dests && parseDest(d) == Some(id)
    {
      assert id in order;
      var d := byBuild[id][0];
      assert d in byBuild[id];
      assert d in dests && parseDest(d) == Some(id);
    }
  }

  /** `_compute_build_age` as written: tests `job_start` but subtracts `build_start` (`None`: `dt2time(False)` fails). */
  function BuildAgeAsWritten(jobStart: Option<int>, buildStart: Option<int>, now: int): Option<int>
  {
    if jobStart.Some? then (if buildStart.Some? then Some(now - buildStart.value) else None) else Some(0)
  }

  lemma BuildAgeAsWrittenMeasuresTheWrongStart()
    ensures BuildAgeAsWritten(Some(100), None, 200) == None
    ensures BuildAgeAsWritten(Some(100), Some(40), 200) == Some(160)
  {
  }

  /** `_compute_build_age` as its docstring describes it: the time since `job_start`, 0 before it. */
  function BuildAge(jobStart: Option<int>, now: int): (age: int)
    ensures jobStart.Some? ==> jobStart.value + age == now
    ensures jobStart.None? ==> age == 0
  {
    if jobStart.Some? then now - jobStart.value else 0
  }
}
