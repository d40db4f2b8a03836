// The `ir_logging` insert trigger `runbot_set_logging_build` and the
// known-error lookup of log rows (runbot/models/event.py).
module EventLog {
  import opened Wrappers
  import opened Text
  import opened BuildOrder
  import BuildErrors

  /** A row about to be inserted into `ir_logging` (the trigger's NEW). */
  datatype LogRow = LogRow(build: Option<int>, dbname: Option<String>, message: String,
                           level: String, func: String, kind: String, activeStep: Option<nat>)

  /** The columns of `runbot_build` the trigger reads and writes. */
  datatype BuildLog = BuildLog(logCounter: int, triggeredResult: Option<BuildResult>, activeStep: Option<nat>)

  /** Why PostgreSQL refuses the insert. */
  datatype InsertError =
    | BadBuildId     // `split_part(dbname, '-', 1)::integer` is not an integer
    | UnknownBuild   // the row names a build that does not exist (foreign key)

  const LogLimitMessage: String := "Log limit reached (full logs are still available in the log file)"

  const Int32Min: int := -0x8000_0000
  const Int32Max: int := 0x7FFF_FFFF

  /** `split_part(dbname, '-', 1)::integer`: the text before the first '-' as a PostgreSQL integer. */
  function DbnameBuildId(dbname: String): (r: Option<int>)
    ensures r.Some? ==> Int32Min <= r.value <= Int32Max && ParseInt(Split(dbname, '-')[0]) == r
  {
    var v := ParseInt(Split(dbname, '-')[0]);
    if v.Some? && Int32Min <= v.value <= Int32Max then v else None
  }

  /** The row's build after the first block of the trigger. */
  function RowBuild(row: LogRow, currentDb: String): Result<Option<int>, InsertError>
  {
    if row.build.None? && row.dbname.Some? && row.dbname.value != currentDb then
      match DbnameBuildId(row.dbname.value)
      case None => Failure(BadBuildId)
      case Some(b) => Success(Some(b))
    else Success(row.build)
  }

  /** A 'server' row spends one unit of its build's `log_counter`. */
  predicate Counted(row: LogRow)
  {
    row.kind == "server"
  }

  /** Any level other than INFO and SEPARATOR (in any case) sets the build's `triggered_result`. */
  predicate SetsResult(row: LogRow)
  {
    Upper(row.level) != "INFO" && Upper(row.level) != "SEPARATOR"
  }

  /** The result a level sets: warning for WARNING, ko for anything else. */
  function LevelResult(row: LogRow): BuildResult
  {
    if Upper(row.level) == "WARNING" then Warn else Ko
  }

  /** What one insert leaves behind: the build table and the stored row, if any. */
  datatype Inserted = Inserted(builds: map<int, BuildLog>, row: Option<LogRow>)

  /**
   * `runbot_set_logging_build` followed by the insert: the build id is taken
   * from a foreign database name, a 'server' row spends one unit of the
   * build's `log_counter` (the row that reaches 0 becomes the limit notice,
   * later ones are dropped), and any level other than INFO and SEPARATOR
   * overwrites the build's `triggered_result`.
   */
  function SetLoggingBuild(builds: map<int, BuildLog>, row: LogRow, currentDb: String): Result<Inserted, InsertError>
  {
    match RowBuild(row, currentDb)
    case Failure(e) => Failure(e)
    case Success(None) => Success(Inserted(builds, Some(row)))
    case Success(Some(b)) =>
      if b !in builds then Failure(UnknownBuild)
      else
        var fromDb := row.build.None?;
        var row1 := if fromDb then row.(build := Some(b), activeStep := builds[b].activeStep) else row;
        Success(Record(builds, row1, b))
  }

  /** The trigger's second half on a row whose build `b` exists: the log counter, then the result. */
  function Record(builds: map<int, BuildLog>, row1: LogRow, b: int): Inserted
    requires b in builds
  {
    var counted := Counted(row1);
    var builds1 := if counted then builds[b := builds[b].(logCounter := builds[b].logCounter - 1)] else builds;
    if counted && builds1[b].logCounter == 0 then
      Inserted(builds1, Some(row1.(message := LogLimitMessage, level := "SEPARATOR", func := "", kind := "runbot")))
    else if counted && builds1[b].logCounter < 0 then
      Inserted(builds1, None)
    else if SetsResult(row1) then
      Inserted(builds1[b := builds1[b].(triggeredResult := Some(LevelResult(row1)))], Some(row1))
    else Inserted(builds1, Some(row1))
  }

  /** The rows an insert appends: the stored row, or none when it was dropped. */
  function Stored(row: Option<LogRow>): (r: seq<LogRow>)
    ensures |r| <= 1 && (r != [] <==> row.Some?) && (row.Some? ==> r[0] == row.value)
  {
    if row.Some? then [row.value] else []
  }

  class LoggingTable {
    var builds: map<int, BuildLog>
    var rows: seq<LogRow>

    constructor (builds0: map<int, BuildLog>)
      ensures builds == builds0 && rows == []
    {
      builds := builds0;
      rows := [];
    }

    /** An `INSERT INTO ir_logging`: the trigger runs on the new row, then the row is stored unless dropped. */
    method Insert(row: LogRow, currentDb: String) returns (err: Option<InsertError>)
      modifies this
      ensures SetLoggingBuild(old(builds), row, currentDb).Failure? ==>
        err == Some(SetLoggingBuild(old(builds), row, currentDb).error) && builds == old(builds) && rows == old(rows)
      ensures SetLoggingBuild(old(builds), row, currentDb).Success? ==> err.None?
      ensures SetLoggingBuild(old(builds), row, currentDb).Success? ==>
        builds == SetLoggingBuild(old(builds), row, currentDb).value.builds
      ensures SetLoggingBuild(old(builds), row, currentDb).Success? ==>
        rows == old(rows) + Stored(SetLoggingBuild(old(builds), row, currentDb).value.row)
    {
      var rec := row;
      if rec.build.None? && rec.dbname.Some? && rec.dbname.value != currentDb {
        var id := DbnameBuildId(rec.dbname.value);
        if id.None? {
          return Some(BadBuildId);
        }
        rec := rec.(build := id);
        if id.value in builds {
          rec := rec.(activeStep := builds[id.value].activeStep);
        } else {
          rec := rec.(activeStep := None);
        }
      }
      if rec.build.Some? && rec.build.value !in builds {
        return Some(UnknownBuild);
      }
      if rec.build.Some? {
        Store(rec, rec.build.value);
      } else {
        rows := rows + [rec];
      }
      err := None;
    }

    /** The trigger's second half and the insert, for a row whose build `b` exists. */
    method Store(rec: LogRow, b: int)
      requires b in builds
      modifies this
      ensures builds == Record(old(builds), rec, b).builds
      ensures rows == old(rows) + Stored(Record(old(builds), rec, b).row)
    {
      var row := rec;
      if Counted(row) {
        builds := builds[b := builds[b].(logCounter := builds[b].logCounter - 1)];
        var counter := builds[b].logCounter;
        if counter == 0 {
          row := row.(message := LogLimitMessage, level := "SEPARATOR", func := "", kind := "runbot");
          rows := rows + [row];
          return;
        } else if counter < 0 {
          return;
        }
      }
      if SetsResult(row) {
        builds := builds[b := builds[b].(triggeredResult := Some(LevelResult(row)))];
      }
      rows := rows + [row];
    }
  }

  // ------------------------------------------------------------ trigger properties

  /** A row without a build from a foreign database takes the integer before the first '-' as its build. */
  lemma ForeignDbnameGivesBuild(builds: map<int, BuildLog>, row: LogRow, currentDb: String, n: nat, rest: String)
    requires row.build.None? && row.dbname == Some(NatToString(n) + "-" + rest) && NatToString(n) + "-" + rest != currentDb
    requires n <= Int32Max && n in builds && row.kind != "server"
    ensures var r := SetLoggingBuild(builds, row, currentDb);
      r.Success? && r.value.row.Some? && r.value.row.value.build == Some(n)
      && r.value.row.value.activeStep == builds[n].activeStep
  {
    var d := NatToString(n) + "-" + rest;
    var i := IndexWhere(d, c => c == '-');
    DigitsLackChar(NatToString(n), '-');
    assert d[|NatToString(n)|] == '-';
    assert i == |NatToString(n)|;
    assert d[..i] == NatToString(n);
    assert Split(d, '-')[0] == NatToString(n);
    ParseIntOfNatToString(n);
  }

  /** A 'server' row for an existing build spends one unit of that build's counter and touches no other build's counter. */
  lemma ServerRowDecrements(builds: map<int, BuildLog>, row: LogRow, currentDb: String, b: int)
    requires row.build == Some(b) && b in builds && row.kind == "server"
    ensures var r := SetLoggingBuild(builds, row, currentDb);
      r.Success? && b in r.value.builds && r.value.builds[b].logCounter == builds[b].logCounter - 1
      && r.value.builds.Keys == builds.Keys
      && forall o :: o in builds && o != b ==> r.value.builds[o] == builds[o]
  {
  }

  /** The 'server' row that brings the counter to exactly 0 is stored as the limit notice and leaves `triggered_result` alone. */
  lemma CounterZeroRewrites(builds: map<int, BuildLog>, row: LogRow, currentDb: String, b: int)
    requires row.build == Some(b) && b in builds && row.kind == "server" && builds[b].logCounter == 1
    ensures var r := SetLoggingBuild(builds, row, currentDb);
      r.Success? && r.value.row == Some(row.(message := LogLimitMessage, level := "SEPARATOR", func := "", kind := "runbot"))
      && r.value.builds[b].triggeredResult == builds[b].triggeredResult
  {
  }

  /** Once the counter is spent, further 'server' rows are dropped. */
  lemma CounterSpentDrops(builds: map<int, BuildLog>, row: LogRow, currentDb: String, b: int)
    requires row.build == Some(b) && b in builds && row.kind == "server" && builds[b].logCounter <= 0
    ensures var r := SetLoggingBuild(builds, row, currentDb);
      r.Success? && r.value.row.None? && r.value.builds[b].triggeredResult == builds[b].triggeredResult
  {
  }

  /**
   * A stored row of a build whose level is not INFO or SEPARATOR (in any
   * case) sets `triggered_result` to warn for WARNING and to ko otherwise;
   * other levels leave it alone.
   */
  lemma LevelSetsTriggeredResult(builds: map<int, BuildLog>, row: LogRow, currentDb: String, b: int)
    requires row.build == Some(b) && b in builds
    requires row.kind != "server" || builds[b].logCounter > 1
    ensures var r := SetLoggingBuild(builds, row, currentDb);
      var level := Upper(row.level);
      r.Success? && r.value.row == Some(row)
      && r.value.builds[b].triggeredResult ==
         (if level == "INFO" || level == "SEPARATOR" then builds[b].triggeredResult
          else if level == "WARNING" then Some(Warn) else Some(Ko))
  {
  }

  /** The trigger overwrites: a warning after an error turns a `ko` triggered result back into `warn`. */
  lemma WarningReplacesKo(currentDb: String)
    ensures var builds := map[7 := BuildLog(100, Some(Ko), None)];
      var row := LogRow(Some(7), None, "deprecated", "warning", "", "server", None);
      var r := SetLoggingBuild(builds, row, currentDb);
      r.Success? && r.value.builds[7].triggeredResult == Some(Warn)
      && ResultScore(Warn) < ResultScore(Ko)
  {
    var row := LogRow(Some(7), None, "deprecated", "warning", "", "server", None);
    var u := Upper(row.level);
    assert u[0] == 'W' && u[1] == 'A' && u[2] == 'R' && u[3] == 'N' && u[4] == 'I' && u[5] == 'N' && u[6] == 'G';
    assert u == "WARNING";
    assert |u| != |"INFO"| && u[0] != "SEPARATOR"[0];
  }

  /** A row whose foreign database name does not start with an integer is refused and nothing changes. */
  lemma NonNumericDbnameRefused(builds: map<int, BuildLog>, row: LogRow, currentDb: String)
    requires row.build.None? && row.dbname.Some? && row.dbname.value != currentDb
    requires row.dbname.value != [] && row.dbname.value[0] == 'x'
    ensures SetLoggingBuild(builds, row, currentDb) == Failure(BadBuildId)
  {
    var d := row.dbname.value;
    var p := Split(d, '-')[0];
    assert d[0] != '-';
    assert p != [] && p[0] == 'x';
    StripNoSpaceHead(p);
  }

  lemma StripNoSpaceHead(s: String)
    requires s != [] && !IsSpace(s[0])
    ensures Strip(s) != [] && Strip(s)[0] == s[0]
  {
    StripRightKeepsHead(s);
  }

  lemma {:induction false} StripRightKeepsHead(s: String)
    requires s != [] && !IsSpace(s[0])
    ensures StripRight(s, IsSpace) != [] && StripRight(s, IsSpace)[0] == s[0]
    decreases |s|
  {
    if |s| > 1 && IsSpace(s[|s| - 1]) {
      StripRightKeepsHead(s[..|s| - 1]);
    }
  }

  // ------------------------------------------------------------ known error

  /** Logs that `_compute_known_error` looks up: level ERROR and type 'server'. */
  predicate LooksUp(row: LogRow)
  {
    row.level == "ERROR" && row.kind == "server"
  }

  /** The last active error (in id order) whose fingerprint is `fp`. */
  function LastActiveWith(errors: seq<BuildErrors.BuildError>, fp: String): (r: Option<nat>)
    ensures r.Some? ==> r.value < |errors| && errors[r.value].active && errors[r.value].fingerprint == fp
    ensures r.Some? ==> forall j :: r.value < j < |errors| ==> !(errors[j].active && errors[j].fingerprint == fp)
    ensures r.None? <==> forall j :: 0 <= j < |errors| ==> !(errors[j].active && errors[j].fingerprint == fp)
    decreases |errors|
  {
    if errors == [] then None
    else
      var n := |errors| - 1;
      if errors[n].active && errors[n].fingerprint == fp then Some(n)
      else LastActiveWith(errors[..n], fp)
  }

  /** The error a log row is shown as: looked-up rows get the last active error with their cleaned fingerprint. */
  function KnownError(row: LogRow, errors: seq<BuildErrors.BuildError>, cleaning: seq<String>,
                      sub: BuildErrors.Substitute): Option<nat>
  {
    if LooksUp(row) then LastActiveWith(errors, BuildErrors.SubAll(cleaning, row.message, sub)) else None
  }

  /** `_compute_known_error` over a recordset of log rows. */
  method ComputeKnownError(rows: seq<LogRow>, errors: seq<BuildErrors.BuildError>, cleaning: seq<String>,
                           sub: BuildErrors.Substitute) returns (errorIds: seq<Option<nat>>)
    ensures |errorIds| == |rows|
    ensures forall i :: 0 <= i < |rows| ==> errorIds[i] == KnownError(rows[i], errors, cleaning, sub)
  {
    var fingerprints: map<String, seq<nat>> := map[];
    errorIds := [];
    var i := 0;
    while i < |rows|
      invariant 0 <= i <= |rows| && |errorIds| == i
      invariant forall k :: 0 <= k < i ==> errorIds[k] == None
      invariant forall fp :: fp in fingerprints ==> forall k :: k in fingerprints[fp] ==> k < i
      invariant forall k :: 0 <= k < i && LooksUp(rows[k]) ==>
        var fp := BuildErrors.SubAll(cleaning, rows[k].message, sub);
        fp in fingerprints && k in fingerprints[fp]
      invariant forall fp, k :: fp in fingerprints && k in fingerprints[fp] ==>
        LooksUp(rows[k]) && BuildErrors.SubAll(cleaning, rows[k].message, sub) == fp
    {
      errorIds := errorIds + [None];
      if LooksUp(rows[i]) {
        var fp := BuildErrors.RSub(cleaning, "%", rows[i].message, sub);
        var group := if fp in fingerprints then fingerprints[fp] else [];
        fingerprints := fingerprints[fp := group + [i]];
      }
      i := i + 1;
    }
    var j := 0;
    while j < |errors|
      invariant 0 <= j <= |errors| && |errorIds| == |rows|
      invariant forall k :: 0 <= k < |rows| ==>
        errorIds[k] == if LooksUp(rows[k]) then LastActiveWith(errors[..j], BuildErrors.SubAll(cleaning, rows[k].message, sub)) else None
    {
      assert errors[..j + 1][..j] == errors[..j];
      if errors[j].active && errors[j].fingerprint in fingerprints {
        var group := fingerprints[errors[j].fingerprint];
        var m := 0;
        while m < |group|
          invariant 0 <= m <= |group| && |errorIds| == |rows|
          invariant forall k :: 0 <= k < |rows| ==>
            errorIds[k] == if !LooksUp(rows[k]) then None
                           else if k in group[..m] then Some(j)
                           else LastActiveWith(errors[..j], BuildErrors.SubAll(cleaning, rows[k].message, sub))
        {
          assert group[..m + 1] == group[..m] + [group[m]];
          assert group[m] in fingerprints[errors[j].fingerprint];
          errorIds := errorIds[group[m] := Some(j)];
          m := m + 1;
        }
        assert group[..m] == group;
      }
      j := j + 1;
    }
    assert errors[..j] == errors;
  }
}
