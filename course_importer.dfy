/**
 * `course_importer`: reads `moodle_crs.xml` into a course table, acting on
 * each row's `ACTION` (`U` inserts the row, `D` only logs it), logging
 * every row it acts on with the action and the run's time, and records the
 * run's metadata for the table.
 */
module CourseImport {
  import opened Php
  import opened Errors
  import opened Paths
  import opened RowMapping
  import opened SiteState
  import opened XmlStream
  import opened ImportRun

  const COURSEIMPORT_FILENAME := "moodle_crs.xml"

  /** The course importer's `$rowmapping` (`ACTION` is read separately). */
  const CourseMapping: FieldMap := [
    Field("COURSE_IDNUMBER", "course_idnumber"),
    Field("COURSE_FULLNAME", "course_fullname"),
    Field("COURSE_SHORTNAME", "course_shortname"),
    Field("COURSE_TEMPLATE", "course_template"),
    Field("COURSE_VISIBILITY", "course_visibility")
  ]

  /** The course mapping's XML fields are distinct, and so are its columns. */
  lemma CourseMappingWellFormed()
    ensures WellFormed(CourseMapping)
  {
  }

  /** The course importer's `get_filepath`: the sync directory joined to `moodle_crs.xml`. */
  function CourseFilepath(basepath: string): (r: Result<string>)
    ensures Empty(basepath) <==> r.Err?
    ensures r.Err? ==> r.error == NoSyncPath
    ensures r.Ok? ==> NoDoubleSlash(r.value)
    ensures r.Ok? ==> Unslashed(r.value) == Unslashed(basepath) + Unslashed(COURSEIMPORT_FILENAME)
  {
    var r := GetFilepath(basepath, COURSEIMPORT_FILENAME);
    if r.Ok? then FilepathContent(basepath, COURSEIMPORT_FILENAME); r else r
  }

  /** The row's `ACTION` element, null when it has none. */
  function Action(row: Row): Option<string> {
    GetRowElement(row, XMLACTION)
  }

  /** An action a live import acts on; any other one (or none) makes it throw. */
  predicate IsKnown(action: Option<string>) {
    action == Some(ACTION_UPDATE) || action == Some(ACTION_DELETE)
  }

  /**
   * The `$logdata` of a row: the mapped fields, then the row's action
   * (null when it has none) and the run's timestamp.
   */
  function LogRecord(row: Row, m: FieldMap, now: int): Record {
    var action := Action(row);
    MapRow(row, m)["rowaction" := if action.Some? then Str(action.value) else Null]["rowprocessed" := Int(now)]
  }

  /** Whether a live run has thrown, and on which action. */
  datatype Halt = Running | Unknown(action: Option<string>)

  /**
   * What the row loop has done after some nodes: the records inserted into
   * the course table and into its log, `$importcount`, `$actioncounts`, the
   * last `ROWCOUNT` text and whether it has thrown.
   */
  datatype Scan = Scan(inserted: seq<Record>, logged: seq<Record>, count: nat, tally: ActionCounts,
                       rowcount: Option<string>, halt: Halt)

  const Start := Scan([], [], 0, ActionCounts(0, 0), None, Running)

  /** One node of the loop; after an unknown action nothing more is read. */
  function ScanStep(s: Scan, e: Event, m: FieldMap, live: bool, now: int): Scan {
    if s.halt.Unknown? then s
    else
      match e
      case RowElement(row) =>
        var action := Action(row);
        if !live then s.(count := s.count + 1)
        else if action == Some(ACTION_UPDATE) then
          s.(inserted := s.inserted + [MapRow(row, m)], logged := s.logged + [LogRecord(row, m, now)],
             count := s.count + 1, tally := s.tally.(update := s.tally.update + 1))
        else if action == Some(ACTION_DELETE) then
          s.(logged := s.logged + [LogRecord(row, m, now)],
             count := s.count + 1, tally := s.tally.(delete := s.tally.delete + 1))
        else s.(halt := Unknown(action))
      case RowCountElement(text) => s.(rowcount := Some(text))
      case OtherNode => s
  }

  /** The loop over a stream, from the start. */
  function CourseScan(body: seq<Event>, m: FieldMap, live: bool, now: int): Scan {
    if body == [] then Start
    else ScanStep(CourseScan(body[..|body| - 1], m, live, now), body[|body| - 1], m, live, now)
  }

  /** Reading one more node of the stream. */
  lemma ScanNext(body: seq<Event>, i: int, m: FieldMap, live: bool, now: int)
    requires 0 <= i < |body|
    ensures CourseScan(body[..i + 1], m, live, now) == ScanStep(CourseScan(body[..i], m, live, now), body[i], m, live, now)
  {
    assert body[..i + 1][..i] == body[..i];
  }

  /** Once the loop has thrown, the rest of the stream changes nothing. */
  lemma {:induction false} ScanHaltStays(body: seq<Event>, i: int, m: FieldMap, live: bool, now: int)
    requires 0 <= i <= |body|
    requires CourseScan(body[..i], m, live, now).halt.Unknown?
    ensures CourseScan(body, m, live, now) == CourseScan(body[..i], m, live, now)
    decreases |body| - i
  {
    if i < |body| {
      ScanNext(body, i, m, live, now);
      ScanHaltStays(body, i + 1, m, live, now);
    } else {
      assert body[..i] == body;
    }
  }

  // Reference definitions over the rows of the file.

  /** Every row carries an action the import acts on. */
  predicate KnownActions(rows: seq<Row>) {
    forall i :: 0 <= i < |rows| ==> IsKnown(Action(rows[i]))
  }

  /** The rows whose action is `U`, in order. */
  function Updates(rows: seq<Row>): seq<Row> {
    if rows == [] then []
    else Updates(rows[..|rows| - 1]) + if Action(rows[|rows| - 1]) == Some(ACTION_UPDATE) then [rows[|rows| - 1]] else []
  }

  /** The log records of the rows, in order. */
  function LogRecords(rows: seq<Row>, m: FieldMap, now: int): (r: seq<Record>)
    ensures |r| == |rows|
    ensures forall i :: 0 <= i < |rows| ==> r[i] == LogRecord(rows[i], m, now)
  {
    if rows == [] then []
    else LogRecords(rows[..|rows| - 1], m, now) + [LogRecord(rows[|rows| - 1], m, now)]
  }

  /** How many rows carry each action. */
  function Tally(rows: seq<Row>): ActionCounts {
    if rows == [] then ActionCounts(0, 0)
    else
      var t := Tally(rows[..|rows| - 1]);
      var action := Action(rows[|rows| - 1]);
      if action == Some(ACTION_UPDATE) then t.(update := t.update + 1)
      else if action == Some(ACTION_DELETE) then t.(delete := t.delete + 1)
      else t
  }

  /** With every action known, the two tallies add up to the rows, and the updates are the `U` rows. */
  lemma {:induction false} TallyCounts(rows: seq<Row>)
    requires KnownActions(rows)
    ensures Tally(rows).update + Tally(rows).delete == |rows|
    ensures Tally(rows).update == |Updates(rows)|
  {
    if rows != [] {
      TallyCounts(rows[..|rows| - 1]);
    }
  }

  /**
   * A dry run reads the whole stream and touches no table: it counts every
   * row, tallies no action and never throws.
   */
  lemma {:induction false} DryScan(body: seq<Event>, m: FieldMap, now: int)
    ensures var s := CourseScan(body, m, false, now);
            s.inserted == [] && s.logged == [] && s.tally == ActionCounts(0, 0) && s.halt == Running
            && s.count == |Rows(body)| && s.rowcount == LastRowCountText(body)
  {
    if body != [] {
      DryScan(body[..|body| - 1], m, now);
    }
  }

  /** The reference definitions over one more row. */
  lemma RowsSnoc(rows: seq<Row>, row: Row, m: FieldMap, now: int)
    ensures Updates(rows + [row]) == Updates(rows) + if Action(row) == Some(ACTION_UPDATE) then [row] else []
    ensures LogRecords(rows + [row], m, now) == LogRecords(rows, m, now) + [LogRecord(row, m, now)]
    ensures Tally(rows + [row]) == var t := Tally(rows);
              if Action(row) == Some(ACTION_UPDATE) then t.(update := t.update + 1)
              else if Action(row) == Some(ACTION_DELETE) then t.(delete := t.delete + 1)
              else t
  {
    assert (rows + [row])[..|rows|] == rows;
  }

  /** The rows of a stream with one more node. */
  lemma RowsLast(body: seq<Event>)
    requires body != []
    ensures var e := body[|body| - 1];
            Rows(body) == Rows(body[..|body| - 1]) + if e.RowElement? then [e.row] else []
  {
  }

  /** A live run completes the loop exactly when every row's action is known. */
  lemma {:induction false} LiveScanRunning(body: seq<Event>, m: FieldMap, now: int)
    ensures CourseScan(body, m, true, now).halt.Running? <==> KnownActions(Rows(body))
  {
    if body != [] {
      var init := body[..|body| - 1];
      var e := body[|body| - 1];
      var s0 := CourseScan(init, m, true, now);
      var s := CourseScan(body, m, true, now);
      assert s == ScanStep(s0, e, m, true, now);
      LiveScanRunning(init, m, now);
      RowsLast(body);
      var rows := Rows(body);
      if e.RowElement? {
        assert rows == Rows(init) + [e.row];
        if s0.halt.Running? {
          assert s.halt.Running? <==> IsKnown(Action(e.row));
          assert KnownActions(rows) <==> KnownActions(Rows(init)) && IsKnown(Action(e.row)) by {
            assert forall k :: 0 <= k < |Rows(init)| ==> rows[k] == Rows(init)[k];
            assert rows[|rows| - 1] == e.row;
          }
        } else {
          assert s == s0;
          var k :| 0 <= k < |Rows(init)| && !IsKnown(Action(Rows(init)[k]));
          assert rows[k] == Rows(init)[k];
        }
      } else {
        assert rows == Rows(init);
        assert s.halt == s0.halt;
      }
    }
  }

  /** The loop's records and counters agree with the reference definitions over `rows`. */
  predicate Reflects(s: Scan, rows: seq<Row>, m: FieldMap, now: int) {
    s.inserted == MapRows(Updates(rows), m) && s.logged == LogRecords(rows, m, now)
    && s.tally == Tally(rows) && s.count == |rows|
  }

  /** One node of a live run that does not throw keeps the loop in step with the rows read. */
  lemma LiveStep(s: Scan, e: Event, rows: seq<Row>, m: FieldMap, now: int)
    requires s.halt.Running? && ScanStep(s, e, m, true, now).halt.Running?
    requires Reflects(s, rows, m, now)
    ensures Reflects(ScanStep(s, e, m, true, now), rows + if e.RowElement? then [e.row] else [], m, now)
  {
    match e {
      case RowElement(row) =>
        RowsSnoc(rows, row, m, now);
        if Action(row) == Some(ACTION_UPDATE) {
          MapRowsSnoc(Updates(rows), row, m);
        }
      case RowCountElement(_) =>
        assert rows + [] == rows;
      case OtherNode =>
        assert rows + [] == rows;
    }
  }

  /**
   * A live run that completes the loop has inserted the `U` rows, logged
   * every row and tallied each action.
   */
  lemma {:induction false} LiveScan(body: seq<Event>, m: FieldMap, now: int)
    requires CourseScan(body, m, true, now).halt.Running?
    ensures Reflects(CourseScan(body, m, true, now), Rows(body), m, now)
    ensures CourseScan(body, m, true, now).rowcount == LastRowCountText(body)
  {
    if body != [] {
      var init := body[..|body| - 1];
      var e := body[|body| - 1];
      var s0 := CourseScan(init, m, true, now);
      assert CourseScan(body, m, true, now) == ScanStep(s0, e, m, true, now);
      assert s0.halt.Running?;
      LiveScan(init, m, now);
      RowsLast(body);
      LiveStep(s0, e, Rows(init), m, now);
    }
  }

  /** A thrown run names an action the import does not act on. */
  lemma {:induction false} HaltIsUnknown(body: seq<Event>, m: FieldMap, live: bool, now: int)
    ensures CourseScan(body, m, live, now).halt.Unknown? ==> live && !IsKnown(CourseScan(body, m, live, now).halt.action)
  {
    if body != [] {
      HaltIsUnknown(body[..|body| - 1], m, live, now);
    }
  }

  /** The position of the first row whose action is neither `U` nor `D`. */
  function FirstUnknown(rows: seq<Row>): (i: nat)
    requires !KnownActions(rows)
    ensures i < |rows|
  {
    var init := rows[..|rows| - 1];
    if !KnownActions(init) then FirstUnknown(init) else |rows| - 1
  }

  /** The action of that row (null when it has none). */
  function FirstUnknownAction(rows: seq<Row>): Option<string>
    requires !KnownActions(rows)
  {
    Action(rows[FirstUnknown(rows)])
  }

  /** `FirstUnknown` is a row that is not acted on, every row before it being acted on. */
  lemma {:induction false} FirstUnknownIsFirst(rows: seq<Row>)
    requires !KnownActions(rows)
    ensures KnownActions(rows[..FirstUnknown(rows)]) && !IsKnown(Action(rows[FirstUnknown(rows)]))
  {
    var last := |rows| - 1;
    var init := rows[..last];
    if !KnownActions(init) {
      FirstUnknownIsFirst(init);
      var i := FirstUnknown(init);
      assert rows[i] == init[i] && rows[..i] == init[..i];
    } else {
      assert rows[..last] == init;
    }
  }

  /** Reading one more row (or none) after an unknown action leaves the first one where it was. */
  lemma FirstUnknownStays(rows0: seq<Row>, rows: seq<Row>)
    requires !KnownActions(rows0)
    requires rows == rows0 || (|rows| == |rows0| + 1 && rows[..|rows0|] == rows0)
    ensures !KnownActions(rows) && FirstUnknown(rows) == FirstUnknown(rows0)
    ensures rows[..FirstUnknown(rows0)] == rows0[..FirstUnknown(rows0)]
    ensures rows[FirstUnknown(rows0)] == rows0[FirstUnknown(rows0)]
  {
    var k := FirstUnknown(rows0);
    FirstUnknownIsFirst(rows0);
    if rows != rows0 {
      assert rows[k] == rows0[k] && rows[..k] == rows0[..k];
      assert rows[..|rows| - 1] == rows0;
    }
  }

  /** A live run throws on the first row whose action is neither `U` nor `D`. */
  lemma {:induction false} LiveScanHalts(body: seq<Event>, m: FieldMap, now: int)
    requires !KnownActions(Rows(body))
    ensures CourseScan(body, m, true, now).halt == Unknown(FirstUnknownAction(Rows(body)))
  {
    var init := body[..|body| - 1];
    var e := body[|body| - 1];
    var s0 := CourseScan(init, m, true, now);
    assert CourseScan(body, m, true, now) == ScanStep(s0, e, m, true, now);
    RowsLast(body);
    var rows, rows0 := Rows(body), Rows(init);
    if !KnownActions(rows0) {
      LiveScanHalts(init, m, now);
      FirstUnknownStays(rows0, rows);
    } else {
      LiveScanRunning(init, m, now);
      if e.RowElement? {
        assert rows[..|rows| - 1] == rows0 && rows[|rows| - 1] == e.row;
      } else {
        assert false;
      }
    }
  }

  /**
   * A live loop that throws has acted on exactly the rows before the first
   * row whose action is neither `U` nor `D`.
   */
  lemma {:induction false} HaltedScan(body: seq<Event>, m: FieldMap, now: int)
    requires !KnownActions(Rows(body))
    ensures Reflects(CourseScan(body, m, true, now), Rows(body)[..FirstUnknown(Rows(body))], m, now)
  {
    var init := body[..|body| - 1];
    var e := body[|body| - 1];
    var s0 := CourseScan(init, m, true, now);
    assert CourseScan(body, m, true, now) == ScanStep(s0, e, m, true, now);
    RowsLast(body);
    var rows, rows0 := Rows(body), Rows(init);
    if !KnownActions(rows0) {
      HaltedScan(init, m, now);
      LiveScanHalts(init, m, now);
      FirstUnknownStays(rows0, rows);
    } else {
      LiveScanRunning(init, m, now);
      LiveScan(init, m, now);
      if e.RowElement? {
        assert rows[..|rows| - 1] == rows0;
      } else {
        assert false;
      }
    }
  }

  /**
   * The part of `import` after the duplicate check, from the site `st` it
   * left: the row loop's inserts into the course table and its log, then,
   * unless the loop threw, the metadata of a live run.
   */
  function CourseFinish(st: Store, m: FieldMap, tablename: string, live: bool, file: XmlFile, clock: Clock): Outcome {
    var scan := CourseScan(file.body, m, live, clock.now);
    var st1 := Append(Append(st, live, ImportTable(tablename), scan.inserted), live, LogTable(tablename), scan.logged);
    if scan.halt.Unknown? then Outcome(Err(UnknownAction(scan.halt.action)), st1)
    else if live then
      Outcome(Ok(true), st1.(metadata := st1.metadata[tablename :=
        RunMetadata(file, CastRowCount(scan.rowcount), Some(scan.tally), scan.count, clock)]))
    else Outcome(Ok(false), st1)
  }

  /**
   * The effect of `import($tablename, $flush)` on the site, in closed form.
   * An empty name is a dry run; otherwise the name must pass the course
   * table validator (`valid`), and the table is flushed when asked, before
   * the duplicate check.
   */
  function CourseRun(st: Store, m: FieldMap, tablename: string, flush: bool, valid: set<string>, seed: Seed,
                     file: XmlFile, clock: Clock, th: Thresholds): Outcome
  {
    var live := !Empty(tablename);
    if live && tablename !in valid then Outcome(Err(InvalidCourseImport(tablename)), st)
    else
      var st1 := WarnStale(Flush(st, live, flush, ImportTable(tablename)), IsStale(file, clock, th),
                           StaleCourseFile(file.timestamp));
      if IsDuplicate(seed, file) then Outcome(Ok(false), st1)
      else CourseFinish(st1, m, tablename, live, file, clock)
  }

  /**
   * What the course `import` promises about the run's result and the
   * metadata: a dry run always returns false and writes nothing; a live run
   * on a valid table completes exactly when the file is new and every row's
   * action is `U` or `D`, and only then records the metadata with the
   * action tally; it otherwise throws on an unknown action.
   */
  lemma CourseRunResult(st: Store, m: FieldMap, tablename: string, flush: bool, valid: set<string>, seed: Seed,
                        file: XmlFile, clock: Clock, th: Thresholds)
    ensures var o := CourseRun(st, m, tablename, flush, valid, seed, file, clock, th);
            o.store.settings == st.settings
    ensures var o := CourseRun(st, m, tablename, flush, valid, seed, file, clock, th);
            Empty(tablename) ==> o.result == Ok(false) && o.store.tables == st.tables && o.store.metadata == st.metadata
    ensures var o := CourseRun(st, m, tablename, flush, valid, seed, file, clock, th);
            !Empty(tablename) && tablename !in valid ==> o == Outcome(Err(InvalidCourseImport(tablename)), st)
    ensures var o := CourseRun(st, m, tablename, flush, valid, seed, file, clock, th);
            o.result == Ok(true) <==>
              !Empty(tablename) && tablename in valid && !IsDuplicate(seed, file) && KnownActions(Rows(file.body))
    ensures var o := CourseRun(st, m, tablename, flush, valid, seed, file, clock, th);
            o.result == Ok(true) ==>
              o.store.metadata == st.metadata[tablename :=
                RunMetadata(file, LastRowCount(file.body), Some(Tally(Rows(file.body))), |Rows(file.body)|, clock)]
    ensures var o := CourseRun(st, m, tablename, flush, valid, seed, file, clock, th);
            o.result != Ok(true) ==> o.store.metadata == st.metadata
    ensures var o := CourseRun(st, m, tablename, flush, valid, seed, file, clock, th);
            o.result.Err? && tablename in valid ==> o.result.error.UnknownAction? && !IsKnown(o.result.error.action)
    ensures var o := CourseRun(st, m, tablename, flush, valid, seed, file, clock, th);
            !Empty(tablename) && tablename in valid && !IsDuplicate(seed, file) && !KnownActions(Rows(file.body)) ==>
              o.result == Err(UnknownAction(FirstUnknownAction(Rows(file.body))))
    ensures var o := CourseRun(st, m, tablename, flush, valid, seed, file, clock, th);
            Empty(tablename) || tablename in valid ==>
              o.store.alerts == st.alerts + if IsStale(file, clock, th) then [StaleCourseFile(file.timestamp)] else []
  {
    var live := !Empty(tablename);
    var scan := CourseScan(file.body, m, live, clock.now);
    HaltIsUnknown(file.body, m, live, clock.now);
    if live {
      LiveScanRunning(file.body, m, clock.now);
      if scan.halt.Running? {
        LiveScan(file.body, m, clock.now);
      } else {
        LiveScanHalts(file.body, m, clock.now);
      }
    } else {
      DryScan(file.body, m, clock.now);
    }
  }

  /**
   * The metadata of a completed run counts every row once: `importcount`
   * is the sum of the two action tallies, and the `U` tally is the number
   * of rows inserted into the course table.
   */
  lemma CompletedRunCounts(st: Store, m: FieldMap, tablename: string, flush: bool, valid: set<string>, seed: Seed,
                           file: XmlFile, clock: Clock, th: Thresholds)
    requires CourseRun(st, m, tablename, flush, valid, seed, file, clock, th).result == Ok(true)
    ensures var o := CourseRun(st, m, tablename, flush, valid, seed, file, clock, th);
            tablename in o.store.metadata && o.store.metadata[tablename].actioncounts.Some?
    ensures var md := CourseRun(st, m, tablename, flush, valid, seed, file, clock, th).store.metadata[tablename];
            md.importcount == Some(md.actioncounts.value.update + md.actioncounts.value.delete)
            && md.actioncounts.value.update == |Updates(Rows(file.body))|
  {
    CourseRunResult(st, m, tablename, flush, valid, seed, file, clock, th);
    TallyCounts(Rows(file.body));
  }

  /** The loop's inserts land in the course table and its log, and nowhere else. */
  lemma CourseFinishTables(st: Store, m: FieldMap, tablename: string, live: bool, file: XmlFile, clock: Clock)
    ensures var o := CourseFinish(st, m, tablename, live, file, clock);
            forall t :: t != ImportTable(tablename) && t != LogTable(tablename) ==> TableOf(o.store, t) == TableOf(st, t)
    ensures var o := CourseFinish(st, m, tablename, live, file, clock);
            var scan := CourseScan(file.body, m, live, clock.now);
            TableOf(o.store, ImportTable(tablename)) == TableOf(st, ImportTable(tablename)) + (if live then scan.inserted else [])
            && TableOf(o.store, LogTable(tablename)) == TableOf(st, LogTable(tablename)) + (if live then scan.logged else [])
  {
    LogTableDiffers(tablename);
    var scan := CourseScan(file.body, m, live, clock.now);
    var st1 := Append(st, live, ImportTable(tablename), scan.inserted);
    AppendTables(st, live, ImportTable(tablename), scan.inserted);
    AppendTables(st1, live, LogTable(tablename), scan.logged);
  }

  /**
   * What the course `import` does to the tables: nothing outside the course
   * table and its log; the flush empties the course table even when the
   * file then turns out to be a duplicate; a completed run appends the `U`
   * rows to the course table and a log record for every row to the log.
   */
  lemma CourseRunTables(st: Store, m: FieldMap, tablename: string, flush: bool, valid: set<string>, seed: Seed,
                        file: XmlFile, clock: Clock, th: Thresholds)
    ensures var o := CourseRun(st, m, tablename, flush, valid, seed, file, clock, th);
            forall t :: t != ImportTable(tablename) && t != LogTable(tablename) ==> TableOf(o.store, t) == TableOf(st, t)
    ensures var o := CourseRun(st, m, tablename, flush, valid, seed, file, clock, th);
            !Empty(tablename) && tablename in valid && IsDuplicate(seed, file) ==>
              o.result == Ok(false)
              && TableOf(o.store, ImportTable(tablename)) == (if flush then [] else TableOf(st, ImportTable(tablename)))
              && TableOf(o.store, LogTable(tablename)) == TableOf(st, LogTable(tablename))
    ensures var o := CourseRun(st, m, tablename, flush, valid, seed, file, clock, th);
            o.result == Ok(true) ==>
              TableOf(o.store, ImportTable(tablename))
                == (if flush then [] else TableOf(st, ImportTable(tablename))) + MapRows(Updates(Rows(file.body)), m)
              && TableOf(o.store, LogTable(tablename))
                == TableOf(st, LogTable(tablename)) + LogRecords(Rows(file.body), m, clock.now)
  {
    var live := !Empty(tablename);
    LogTableDiffers(tablename);
    if !live || tablename in valid {
      var st1 := WarnStale(Flush(st, live, flush, ImportTable(tablename)), IsStale(file, clock, th),
                           StaleCourseFile(file.timestamp));
      if !IsDuplicate(seed, file) {
        CourseFinishTables(st1, m, tablename, live, file, clock);
        if live {
          LiveScanRunning(file.body, m, clock.now);
          if CourseScan(file.body, m, live, clock.now).halt.Running? {
            LiveScan(file.body, m, clock.now);
          }
        }
      }
    }
  }

  /** The part after the duplicate check, when the loop throws: the rows before the offending one are kept. */
  lemma ThrownFinishKeepsPrefix(st: Store, m: FieldMap, tablename: string, file: XmlFile, clock: Clock)
    requires !KnownActions(Rows(file.body))
    ensures var o := CourseFinish(st, m, tablename, true, file, clock);
            var rows := Rows(file.body);
            var done := rows[..FirstUnknown(rows)];
            TableOf(o.store, ImportTable(tablename)) == TableOf(st, ImportTable(tablename)) + MapRows(Updates(done), m)
            && TableOf(o.store, LogTable(tablename)) == TableOf(st, LogTable(tablename)) + LogRecords(done, m, clock.now)
  {
    CourseFinishTables(st, m, tablename, true, file, clock);
    HaltedScan(file.body, m, clock.now);
  }

  /**
   * No transaction guards the loop: a live run that throws on an unknown
   * action leaves in the course table the `U` rows before the first row
   * whose action is neither `U` nor `D`, and in the log a record for each
   * row before it.
   */
  lemma ThrownRunKeepsPrefix(st: Store, m: FieldMap, tablename: string, flush: bool, valid: set<string>, seed: Seed,
                             file: XmlFile, clock: Clock, th: Thresholds)
    requires !Empty(tablename) && tablename in valid && !IsDuplicate(seed, file) && !KnownActions(Rows(file.body))
    ensures var o := CourseRun(st, m, tablename, flush, valid, seed, file, clock, th);
            var rows := Rows(file.body);
            var done := rows[..FirstUnknown(rows)];
            TableOf(o.store, ImportTable(tablename))
              == (if flush then [] else TableOf(st, ImportTable(tablename))) + MapRows(Updates(done), m)
            && TableOf(o.store, LogTable(tablename)) == TableOf(st, LogTable(tablename)) + LogRecords(done, m, clock.now)
  {
    var st1 := WarnStale(Flush(st, true, flush, ImportTable(tablename)), IsStale(file, clock, th),
                         StaleCourseFile(file.timestamp));
    LogTableDiffers(tablename);
    assert TableOf(st1, ImportTable(tablename)) == if flush then [] else TableOf(st, ImportTable(tablename));
    assert TableOf(st1, LogTable(tablename)) == TableOf(st, LogTable(tablename));
    var o := CourseFinish(st1, m, tablename, true, file, clock);
    assert CourseRun(st, m, tablename, flush, valid, seed, file, clock, th) == o;
    ThrownFinishKeepsPrefix(st1, m, tablename, file, clock);
  }

  class CourseImporter {
    var lastimportcount: Option<int>
    var lastsourcetimestamp: Option<int>
    const rowmapping: FieldMap
    const filepath: string
    const reader: XmlFile

    /** A fresh importer on an opened file: nothing seeded. */
    constructor(filepath: string, reader: XmlFile)
      ensures this.filepath == filepath && this.reader == reader && rowmapping == CourseMapping
      ensures lastimportcount == None && lastsourcetimestamp == None
    {
      rowmapping := CourseMapping;
      this.filepath := filepath;
      this.reader := reader;
      lastimportcount := None;
      lastsourcetimestamp := None;
    }

    /**
     * The `while ($reader->read())` loop of `import`: every `ROW` is
     * counted; in a live run a `U` row is inserted into `importtable`, a
     * `U` or `D` row is tallied and logged into `logtable`, and any other
     * action stops the loop (the exception, raised by the caller).
     */
    method ReadRows(site: Site, live: bool, importtable: string, logtable: string, now: int)
      returns (halt: Halt, importcount: nat, actioncounts: ActionCounts, rowcount: Option<string>)
      requires importtable != logtable
      modifies site
      ensures var scan := CourseScan(reader.body, rowmapping, live, now);
              halt == scan.halt && importcount == scan.count && actioncounts == scan.tally && rowcount == scan.rowcount
      ensures var scan := CourseScan(reader.body, rowmapping, live, now);
              site.Snapshot() == Append(Append(old(site.Snapshot()), live, importtable, scan.inserted), live, logtable, scan.logged)
    {
      ghost var st := site.Snapshot();
      var body := reader.body;
      importcount := 0;
      actioncounts := ActionCounts(0, 0);
      rowcount := None;
      ghost var inserted: seq<Record> := [];
      ghost var logged: seq<Record> := [];
      var i := 0;
      while i < |body|
        invariant 0 <= i <= |body|
        invariant CourseScan(body[..i], rowmapping, live, now) == Scan(inserted, logged, importcount, actioncounts, rowcount, Running)
        invariant site.Snapshot() == Append(Append(st, live, importtable, inserted), live, logtable, logged)
      {
        ScanNext(body, i, rowmapping, live, now);
        ghost var next := CourseScan(body[..i + 1], rowmapping, live, now);
        ghost var prev := Scan(inserted, logged, importcount, actioncounts, rowcount, Running);
        assert next == ScanStep(prev, body[i], rowmapping, live, now);
        match body[i] {
        case RowElement(row) =>
          var rowdata := BuildRecord(row, rowmapping);
          var logdata := BuildRecord(row, rowmapping);
          var rowaction := GetRowElement(row, XMLACTION);
          logdata := logdata["rowaction" := if rowaction.Some? then Str(rowaction.value) else Null];
          logdata := logdata["rowprocessed" := Int(now)];
          assert logdata == LogRecord(row, rowmapping, now);
          if live {
            if rowaction == Some(ACTION_UPDATE) {
              site.InsertRecord(importtable, rowdata);
              AppendOneUnder(st, importtable, inserted, logtable, logged, rowdata);
              inserted := inserted + [rowdata];
              actioncounts := actioncounts.(update := actioncounts.update + 1);
            } else if rowaction == Some(ACTION_DELETE) {
              actioncounts := actioncounts.(delete := actioncounts.delete + 1);
            } else {
              assert next == prev.(halt := Unknown(rowaction));
              halt := Unknown(rowaction);
              ScanHaltStays(body, i + 1, rowmapping, live, now);
              return;
            }
            site.InsertRecord(logtable, logdata);
            AppendOne(Append(st, true, importtable, inserted), logtable, logged, logdata);
            logged := logged + [logdata];
          }
          importcount := importcount + 1;
          assert next == Scan(inserted, logged, importcount, actioncounts, rowcount, Running);
        case RowCountElement(text) =>
          rowcount := Some(text);
        case OtherNode =>
        }
        i := i + 1;
      }
      assert body[..i] == body;
      halt := Running;
    }

    /**
     * `import($tablename, $flush)`; `validtables` are the names the course
     * table validator accepts.
     */
    method Import(site: Site, tablename: string, flush: bool, validtables: set<string>, clock: Clock, th: Thresholds)
      returns (r: Result<bool>)
      requires reader.root == XMLROWSET
      modifies site
      ensures Outcome(r, site.Snapshot())
              == CourseRun(old(site.Snapshot()), rowmapping, tablename, flush, validtables,
                           Seed(lastimportcount, lastsourcetimestamp), reader, clock, th)
    {
      ghost var st := site.Snapshot();
      var live: bool;
      if Empty(tablename) {
        live := false;
      } else {
        if tablename !in validtables {
          return Err(InvalidCourseImport(tablename));
        }
        live := true;
        if flush {
          site.DeleteRecords(ImportTable(tablename));
        }
      }
      assert site.Snapshot() == Flush(st, live, flush, ImportTable(tablename));

      var sourcetimestamp := reader.sourcetimestamp;
      if clock.now - sourcetimestamp > th.stale {
        site.Warn(StaleCourseFile(reader.timestamp));
      }

      if Truthy(lastsourcetimestamp) {
        if lastsourcetimestamp.value == sourcetimestamp {
          return Ok(false);
        }
      }

      r := Complete(site, tablename, live, clock);
    }

    /**
     * The rest of `import` once the file is known to be new: the row loop,
     * the exception on an unknown action and, in a live run, the metadata.
     */
    method Complete(site: Site, tablename: string, live: bool, clock: Clock) returns (r: Result<bool>)
      modifies site
      ensures Outcome(r, site.Snapshot()) == CourseFinish(old(site.Snapshot()), rowmapping, tablename, live, reader, clock)
    {
      LogTableDiffers(tablename);
      var halt, importcount, actioncounts, rowcount :=
        ReadRows(site, live, ImportTable(tablename), LogTable(tablename), clock.now);
      if halt.Unknown? {
        return Err(UnknownAction(halt.action));
      }
      if live {
        site.SetMetadata(tablename, RunMetadata(reader, CastRowCount(rowcount), Some(actioncounts), importcount, clock));
        return Ok(true);
      } else {
        return Ok(false);
      }
    }
  }

  /**
   * The importer's constructor: the file path from the `syncpath` setting,
   * then the file opened from the files present.
   */
  method OpenCourseImporter(syncpath: string, files: map<string, XmlFile>) returns (r: Result<CourseImporter>)
    ensures r.Err? <==> CourseFilepath(syncpath).Err? || CourseFilepath(syncpath).value !in files
    ensures r.Err? ==> r.error == if CourseFilepath(syncpath).Err? then NoSyncPath else NoOpen(CourseFilepath(syncpath).value)
    ensures r.Ok? ==> fresh(r.value) && r.value.filepath == CourseFilepath(syncpath).value
                      && r.value.reader == files[r.value.filepath] && r.value.rowmapping == CourseMapping
                      && r.value.lastimportcount == None && r.value.lastsourcetimestamp == None
  {
    var path := CourseFilepath(syncpath);
    if path.Err? {
      return Err(path.error);
    }
    if path.value !in files {
      return Err(NoOpen(path.value));
    }
    var importer := new CourseImporter(path.value, files[path.value]);
    return Ok(importer);
  }
}
