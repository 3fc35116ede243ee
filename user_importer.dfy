/**
 * `user_importer`: reads `moodle_per.xml` into one of the two user
 * replica tables and records the run's metadata for that replica.
 */
module UserImport {
  import opened Php
  import opened Errors
  import opened Paths
  import opened RowMapping
  import opened SiteState
  import opened XmlStream
  import opened Replicas
  import opened ImportRun

  const USER_IMPORT_FILENAME := "moodle_per.xml"

  /** The user importer's `$rowmapping`. */
  const UserMapping: FieldMap := [
    Field("USERNAME", "username"),
    Field("PASSWORD", "password"),
    Field("EMAIL", "email"),
    Field("FIRSTNAME", "firstname"),
    Field("LASTNAME", "lastname"),
    Field("CITY", "city"),
    Field("COUNTRY", "country"),
    Field("LANG", "lang"),
    Field("DESCRIPTION", "description"),
    Field("IDNUMBER", "idnumber"),
    Field("INSTITUTION", "institution"),
    Field("DEPARTMENT", "department"),
    Field("PHONE1", "phone1"),
    Field("PHONE2", "phone2"),
    Field("MIDDLENAME", "middlename"),
    Field("ACTIVATION_DT", "activation_dt"),
    Field("DEACTIVATE_DT", "deactivate_dt"),
    Field("ARCHIVE_DT", "archive_dt"),
    Field("PURGE_DT", "purge_dt")
  ]

  /** The user mapping's XML fields are distinct, and so are its columns. */
  lemma UserMappingWellFormed()
    ensures WellFormed(UserMapping)
  {
    UserXmlFieldsDistinct();
    UserColumnsDistinct();
  }

  lemma UserXmlFieldsDistinct()
    ensures forall i, j :: 0 <= i < j < |UserMapping| ==> UserMapping[i].xml != UserMapping[j].xml
  {
  }

  lemma UserColumnsDistinct()
    ensures forall i, j :: 0 <= i < j < |UserMapping| ==> UserMapping[i].column != UserMapping[j].column
  {
  }

  /**
   * The user importer's own `get_filepath`: the sync directory joined to
   * `moodle_per.xml`.
   */
  function UserFilepath(basepath: string): (r: Result<string>)
    ensures Empty(basepath) <==> r.Err?
    ensures r.Err? ==> r.error == NoSyncPath
    ensures r.Ok? ==> NoDoubleSlash(r.value)
    ensures r.Ok? ==> Unslashed(r.value) == Unslashed(basepath) + Unslashed(USER_IMPORT_FILENAME)
  {
    var r := GetFilepath(basepath, USER_IMPORT_FILENAME);
    if r.Ok? then FilepathContent(basepath, USER_IMPORT_FILENAME); r else r
  }

  /**
   * The part of `import` after the duplicate check, from the site `st` it
   * left: the rows appended in a live run, then the row-count check, the
   * drift check and, in a live run, the metadata.
   */
  function UserFinish(st: Store, m: FieldMap, replicaname: string, live: bool, seed: Seed, file: XmlFile,
                      clock: Clock, th: Thresholds): Outcome
  {
    UserChecks(Append(st, live, ImportTable(replicaname), MapRows(Rows(file.body), m)), replicaname, live, seed,
               file, |Rows(file.body)|, LastRowCount(file.body), clock, th)
  }

  /**
   * The checks after the loop, on the site `st1` the loop left, the number
   * of rows read and the `ROWCOUNT` value: the row-count check, the drift
   * check and, in a live run, the metadata.
   */
  function UserChecks(st1: Store, replicaname: string, live: bool, seed: Seed, file: XmlFile,
                      count: nat, rowcount: Option<int>, clock: Clock, th: Thresholds): Outcome
  {
    if CountMismatch(count, rowcount) then Outcome(Err(RowCountMismatch(count, rowcount)), st1)
    else if DriftExceeded(count, seed, th) then
      Outcome(Err(ImportCountOverThreshold(count - seed.lastimportcount.value, th.maxdelta)), st1)
    else if live then
      Outcome(Ok(true), st1.(metadata := st1.metadata[replicaname := RunMetadata(file, rowcount, None, count, clock)]))
    else Outcome(Ok(false), st1)
  }

  /** What the part after the duplicate check returns, and what it does to the settings, alerts and metadata. */
  lemma UserFinishSpec(st: Store, m: FieldMap, replicaname: string, live: bool, seed: Seed, file: XmlFile,
                       clock: Clock, th: Thresholds)
    ensures var o := UserFinish(st, m, replicaname, live, seed, file, clock, th);
            o.store.settings == st.settings && o.store.alerts == st.alerts
    ensures var o := UserFinish(st, m, replicaname, live, seed, file, clock, th);
            o.result == Ok(true) <==>
              live && !CountMismatch(|Rows(file.body)|, LastRowCount(file.body)) && !DriftExceeded(|Rows(file.body)|, seed, th)
    ensures var o := UserFinish(st, m, replicaname, live, seed, file, clock, th);
            o.result.Err? ==>
              if CountMismatch(|Rows(file.body)|, LastRowCount(file.body))
              then o.result.error == RowCountMismatch(|Rows(file.body)|, LastRowCount(file.body))
              else DriftExceeded(|Rows(file.body)|, seed, th) && o.result.error.ImportCountOverThreshold?
    ensures var o := UserFinish(st, m, replicaname, live, seed, file, clock, th);
            CountMismatch(|Rows(file.body)|, LastRowCount(file.body)) ==>
              o.result == Err(RowCountMismatch(|Rows(file.body)|, LastRowCount(file.body)))
    ensures var o := UserFinish(st, m, replicaname, live, seed, file, clock, th);
            !CountMismatch(|Rows(file.body)|, LastRowCount(file.body)) && DriftExceeded(|Rows(file.body)|, seed, th) ==>
              o.result == Err(ImportCountOverThreshold(|Rows(file.body)| - seed.lastimportcount.value, th.maxdelta))
    ensures var o := UserFinish(st, m, replicaname, live, seed, file, clock, th);
            !CountMismatch(|Rows(file.body)|, LastRowCount(file.body)) && !DriftExceeded(|Rows(file.body)|, seed, th) ==>
              o.result == Ok(live)
    ensures var o := UserFinish(st, m, replicaname, live, seed, file, clock, th);
            o.result == Ok(true) ==>
              o.store.metadata == st.metadata[replicaname := RunMetadata(file, LastRowCount(file.body), None, |Rows(file.body)|, clock)]
    ensures var o := UserFinish(st, m, replicaname, live, seed, file, clock, th);
            o.result != Ok(true) ==> o.store.metadata == st.metadata
  {
    var rows := Rows(file.body);
    var count := |rows|;
    var rowcount := LastRowCount(file.body);
    var st1 := Append(st, live, ImportTable(replicaname), MapRows(rows, m));
    var o := UserChecks(st1, replicaname, live, seed, file, count, rowcount, clock, th);
    assert UserFinish(st, m, replicaname, live, seed, file, clock, th) == o;
    if CountMismatch(count, rowcount) {
      assert o == Outcome(Err(RowCountMismatch(count, rowcount)), st1);
    } else if DriftExceeded(count, seed, th) {
      assert o == Outcome(Err(ImportCountOverThreshold(count - seed.lastimportcount.value, th.maxdelta)), st1);
    } else if live {
      assert o == Outcome(Ok(true), st1.(metadata := st1.metadata[replicaname := RunMetadata(file, rowcount, None, count, clock)]));
    } else {
      assert o == Outcome(Ok(false), st1);
    }
  }

  /** The part after the duplicate check appends the file's records to the replica in a live run, and nothing else. */
  lemma UserFinishTables(st: Store, m: FieldMap, replicaname: string, live: bool, seed: Seed, file: XmlFile,
                         clock: Clock, th: Thresholds)
    ensures var o := UserFinish(st, m, replicaname, live, seed, file, clock, th);
            !live ==> o.store.tables == st.tables
    ensures var o := UserFinish(st, m, replicaname, live, seed, file, clock, th);
            forall t :: t != ImportTable(replicaname) ==> TableOf(o.store, t) == TableOf(st, t)
    ensures var o := UserFinish(st, m, replicaname, live, seed, file, clock, th);
            TableOf(o.store, ImportTable(replicaname))
              == TableOf(st, ImportTable(replicaname)) + if live then MapRows(Rows(file.body), m) else []
  {
    var records := MapRows(Rows(file.body), m);
    var st1 := Append(st, live, ImportTable(replicaname), records);
    AppendTables(st, live, ImportTable(replicaname), records);
    var o := UserChecks(st1, replicaname, live, seed, file, |Rows(file.body)|, LastRowCount(file.body), clock, th);
    assert o.store.tables == st1.tables;
    assert UserFinish(st, m, replicaname, live, seed, file, clock, th) == o;
  }

  /**
   * The effect of `import($replicaname, $flush)` on the site, in closed form.
   * An empty name is a dry run; otherwise the name must be a replica, its
   * table is flushed when asked, and the rows are appended to it. The run
   * completes (returns true) only when it is live, the file is no
   * duplicate, its row count matches and the count has not drifted; only
   * then is the replica's metadata written.
   */
  function UserRun(st: Store, m: FieldMap, replicaname: string, flush: bool, seed: Seed, file: XmlFile,
                   clock: Clock, th: Thresholds): Outcome
  {
    var live := !Empty(replicaname);
    if live && !IsReplica(UserReplicas, replicaname) then Outcome(Err(InvalidReplica(replicaname)), st)
    else
      var table := ImportTable(replicaname);
      var st1 := WarnStale(Flush(st, live, flush, table), IsStale(file, clock, th), StaleUserFile(file.timestamp));
      if IsDuplicate(seed, file) then Outcome(Ok(false), st1)
      else UserFinish(st1, m, replicaname, live, seed, file, clock, th)
  }

  /**
   * What `import` promises: only a live run on a replica, with a new file
   * whose row count matches and has not drifted, completes; only that run
   * writes the replica's metadata; the replica's table is flushed when
   * asked and then holds the file's rows; no other table changes; a stale
   * file raises an alert.
   */
  lemma UserRunSpec(st: Store, m: FieldMap, replicaname: string, flush: bool, seed: Seed, file: XmlFile,
                    clock: Clock, th: Thresholds)
    ensures var o := UserRun(st, m, replicaname, flush, seed, file, clock, th);
            o.store.settings == st.settings
    ensures var o := UserRun(st, m, replicaname, flush, seed, file, clock, th);
            Empty(replicaname) ==>
              o.store.tables == st.tables && o.store.metadata == st.metadata && o.result != Ok(true)
    ensures var o := UserRun(st, m, replicaname, flush, seed, file, clock, th);
            !Empty(replicaname) && !IsReplica(UserReplicas, replicaname) ==>
              o == Outcome(Err(InvalidReplica(replicaname)), st)
    ensures var o := UserRun(st, m, replicaname, flush, seed, file, clock, th);
            o.result == Ok(true) <==>
              !Empty(replicaname) && IsReplica(UserReplicas, replicaname) && !IsDuplicate(seed, file)
              && !CountMismatch(|Rows(file.body)|, LastRowCount(file.body))
              && !DriftExceeded(|Rows(file.body)|, seed, th)
    ensures var o := UserRun(st, m, replicaname, flush, seed, file, clock, th);
            o.result == Ok(true) ==>
              o.store.metadata == st.metadata[replicaname := RunMetadata(file, LastRowCount(file.body), None, |Rows(file.body)|, clock)]
    ensures var o := UserRun(st, m, replicaname, flush, seed, file, clock, th);
            o.result != Ok(true) ==> o.store.metadata == st.metadata
    ensures var o := UserRun(st, m, replicaname, flush, seed, file, clock, th);
            forall t :: t != ImportTable(replicaname) ==> TableOf(o.store, t) == TableOf(st, t)
    ensures var o := UserRun(st, m, replicaname, flush, seed, file, clock, th);
            !Empty(replicaname) && IsReplica(UserReplicas, replicaname) ==>
              TableOf(o.store, ImportTable(replicaname))
                == (if flush then [] else TableOf(st, ImportTable(replicaname)))
                   + (if IsDuplicate(seed, file) then [] else MapRows(Rows(file.body), m))
    ensures var o := UserRun(st, m, replicaname, flush, seed, file, clock, th);
            Empty(replicaname) || IsReplica(UserReplicas, replicaname) ==>
              o.store.alerts == st.alerts + if IsStale(file, clock, th) then [StaleUserFile(file.timestamp)] else []
    ensures var o := UserRun(st, m, replicaname, flush, seed, file, clock, th);
            o.result.Err? && (Empty(replicaname) || IsReplica(UserReplicas, replicaname)) ==>
              if CountMismatch(|Rows(file.body)|, LastRowCount(file.body))
              then o.result.error == RowCountMismatch(|Rows(file.body)|, LastRowCount(file.body))
              else DriftExceeded(|Rows(file.body)|, seed, th) && o.result.error.ImportCountOverThreshold?
    ensures var o := UserRun(st, m, replicaname, flush, seed, file, clock, th);
            (Empty(replicaname) || IsReplica(UserReplicas, replicaname)) && IsDuplicate(seed, file) ==>
              o.result == Ok(false)
    ensures var o := UserRun(st, m, replicaname, flush, seed, file, clock, th);
            (Empty(replicaname) || IsReplica(UserReplicas, replicaname)) && !IsDuplicate(seed, file)
            && CountMismatch(|Rows(file.body)|, LastRowCount(file.body)) ==>
              o.result == Err(RowCountMismatch(|Rows(file.body)|, LastRowCount(file.body)))
    ensures var o := UserRun(st, m, replicaname, flush, seed, file, clock, th);
            (Empty(replicaname) || IsReplica(UserReplicas, replicaname)) && !IsDuplicate(seed, file)
            && !CountMismatch(|Rows(file.body)|, LastRowCount(file.body)) && DriftExceeded(|Rows(file.body)|, seed, th) ==>
              o.result == Err(ImportCountOverThreshold(|Rows(file.body)| - seed.lastimportcount.value, th.maxdelta))
  {
    var live := !Empty(replicaname);
    if !live || IsReplica(UserReplicas, replicaname) {
      var table := ImportTable(replicaname);
      var st1 := WarnStale(Flush(st, live, flush, table), IsStale(file, clock, th), StaleUserFile(file.timestamp));
      if !IsDuplicate(seed, file) {
        UserFinishSpec(st1, m, replicaname, live, seed, file, clock, th);
        UserFinishTables(st1, m, replicaname, live, seed, file, clock, th);
      }
    }
  }

  /**
   * A dry run (`empty($replicaname)`: `""` or `"0"`) never changes a table
   * or the metadata, whatever the file holds, and never completes.
   */
  lemma DryRunChangesNothing(st: Store, replicaname: string, flush: bool, seed: Seed, file: XmlFile,
                             clock: Clock, th: Thresholds)
    requires Empty(replicaname)
    ensures var o := UserRun(st, UserMapping, replicaname, flush, seed, file, clock, th);
            o.store.tables == st.tables && o.store.metadata == st.metadata
            && (o.result.Ok? ==> o.result.value == false)
  {
    UserRunSpec(st, UserMapping, replicaname, flush, seed, file, clock, th);
  }

  /** An import that completes leaves its replica holding exactly the file's rows when it flushes. */
  lemma FlushedRunHoldsFile(st: Store, replicaname: string, seed: Seed, file: XmlFile, clock: Clock, th: Thresholds)
    requires UserRun(st, UserMapping, replicaname, true, seed, file, clock, th).result == Ok(true)
    ensures TableOf(UserRun(st, UserMapping, replicaname, true, seed, file, clock, th).store, ImportTable(replicaname))
              == MapRows(Rows(file.body), UserMapping)
  {
    UserRunSpec(st, UserMapping, replicaname, true, seed, file, clock, th);
  }

  class UserImporter {
    var lastimportcount: Option<int>
    var lastsourcetimestamp: Option<int>
    const rowmapping: FieldMap
    const filepath: string
    const reader: XmlFile

    /** A fresh importer on an opened file: nothing seeded. */
    constructor(filepath: string, reader: XmlFile)
      ensures this.filepath == filepath && this.reader == reader && rowmapping == UserMapping
      ensures lastimportcount == None && lastsourcetimestamp == None
    {
      rowmapping := UserMapping;
      this.filepath := filepath;
      this.reader := reader;
      lastimportcount := None;
      lastsourcetimestamp := None;
    }

    /**
     * The `while ($reader->read())` loop of `import`: every `ROW` is
     * counted and, in a live run, its record inserted into `importtable`;
     * each `ROWCOUNT` overwrites the expected count.
     */
    method ReadRows(site: Site, live: bool, importtable: string) returns (importcount: nat, rowcount: Option<string>)
      modifies site
      ensures site.Snapshot() == Append(old(site.Snapshot()), live, importtable, MapRows(Rows(reader.body), rowmapping))
      ensures importcount == |Rows(reader.body)|
      ensures rowcount == LastRowCountText(reader.body)
    {
      ghost var st := site.Snapshot();
      var body := reader.body;
      importcount := 0;
      rowcount := None;
      ghost var rows: seq<Row> := [];
      var i := 0;
      while i < |body|
        invariant 0 <= i <= |body|
        invariant rows == Rows(body[..i])
        invariant importcount == |rows|
        invariant rowcount == LastRowCountText(body[..i])
        invariant site.Snapshot() == Append(st, live, importtable, MapRows(rows, rowmapping))
      {
        NextNode(body, i);
        match body[i] {
        case RowElement(row) =>
          ImportRow(site, live, importtable, row, st, rows);
          rows := rows + [row];
          importcount := importcount + 1;
        case RowCountElement(text) =>
          rowcount := Some(text);
        case OtherNode =>
        }
        i := i + 1;
      }
      assert body[..i] == body;
    }

    /**
     * One `ROW` of the loop: its record built field by field and, in a live
     * run, inserted into the replica after the records of the rows before it.
     */
    method ImportRow(site: Site, live: bool, importtable: string, row: Row, ghost st: Store, ghost rows: seq<Row>)
      requires site.Snapshot() == Append(st, live, importtable, MapRows(rows, rowmapping))
      modifies site
      ensures site.Snapshot() == Append(st, live, importtable, MapRows(rows + [row], rowmapping))
    {
      var rowdata := BuildRecord(row, rowmapping);
      MapRowsSnoc(rows, row, rowmapping);
      if live {
        site.InsertRecord(importtable, rowdata);
        AppendOne(st, importtable, MapRows(rows, rowmapping), rowdata);
      }
    }

    /** `import($replicaname, $flush)`. */
    method Import(site: Site, replicaname: string, flush: bool, clock: Clock, th: Thresholds)
      returns (r: Result<bool>)
      requires reader.root == XMLROWSET
      modifies site
      ensures Outcome(r, site.Snapshot())
              == UserRun(old(site.Snapshot()), rowmapping, replicaname, flush, Seed(lastimportcount, lastsourcetimestamp),
                         reader, clock, th)
    {
      ghost var st := site.Snapshot();
      var seed := Seed(lastimportcount, lastsourcetimestamp);
      var live: bool;
      var importtable := ImportTable(replicaname);
      if Empty(replicaname) {
        live := false;
      } else {
        var valid := Validate(UserReplicas, replicaname);
        if valid.Err? {
          return Err(valid.error);
        }
        live := true;
        if flush {
          site.DeleteRecords(importtable);
        }
      }
      assert site.Snapshot() == Flush(st, live, flush, importtable);

      var sourcetimestamp := reader.sourcetimestamp;
      if clock.now - sourcetimestamp > th.stale {
        site.Warn(StaleUserFile(reader.timestamp));
      }
      ghost var st1 := site.Snapshot();
      assert st1 == WarnStale(Flush(st, live, flush, importtable), IsStale(reader, clock, th), StaleUserFile(reader.timestamp));

      if Truthy(lastsourcetimestamp) {
        if lastsourcetimestamp.value == sourcetimestamp {
          return Ok(false);
        }
      }

      r := Complete(site, replicaname, live, clock, th);
    }

    /**
     * The rest of `import` once the file is known to be new: the row loop,
     * the row-count and drift checks and, in a live run, the metadata.
     */
    method Complete(site: Site, replicaname: string, live: bool, clock: Clock, th: Thresholds)
      returns (r: Result<bool>)
      modifies site
      ensures Outcome(r, site.Snapshot())
              == UserFinish(old(site.Snapshot()), rowmapping, replicaname, live, Seed(lastimportcount, lastsourcetimestamp),
                            reader, clock, th)
    {
      ghost var st := site.Snapshot();
      ghost var seed := Seed(lastimportcount, lastsourcetimestamp);
      var importcount, rowcount := ReadRows(site, live, ImportTable(replicaname));
      var expected := CastRowCount(rowcount);
      ghost var st1 := site.Snapshot();
      assert st1 == Append(st, live, ImportTable(replicaname), MapRows(Rows(reader.body), rowmapping));
      assert expected == LastRowCount(reader.body);
      ghost var spec := UserChecks(st1, replicaname, live, seed, reader, importcount, expected, clock, th);
      if CountMismatch(importcount, expected) {
        return Err(RowCountMismatch(importcount, expected));
      }
      if Truthy(lastimportcount) {
        var countdelta := importcount - lastimportcount.value;
        if th.maxdelta > 0 && th.maxdelta < Abs(countdelta) {
          assert DriftExceeded(importcount, seed, th);
          return Err(ImportCountOverThreshold(countdelta, th.maxdelta));
        }
      }
      assert !DriftExceeded(importcount, seed, th);

      if live {
        var metadata := RunMetadata(reader, expected, None, importcount, clock);
        site.SetMetadata(replicaname, metadata);
        return Ok(true);
      } else {
        return Ok(false);
      }
    }
  }

  /**
   * The importer's constructor: the file path from the `syncpath` setting,
   * then the file opened from the files present.
   */
  method OpenUserImporter(syncpath: string, files: map<string, XmlFile>) returns (r: Result<UserImporter>)
    ensures r.Err? <==> UserFilepath(syncpath).Err? || UserFilepath(syncpath).value !in files
    ensures r.Err? ==> r.error == if UserFilepath(syncpath).Err? then NoSyncPath else NoOpen(UserFilepath(syncpath).value)
    ensures r.Ok? ==> fresh(r.value) && r.value.filepath == UserFilepath(syncpath).value
                      && r.value.reader == files[r.value.filepath] && r.value.rowmapping == UserMapping
                      && r.value.lastimportcount == None && r.value.lastsourcetimestamp == None
  {
    var path := UserFilepath(syncpath);
    if path.Err? {
      return Err(path.error);
    }
    if path.value !in files {
      return Err(NoOpen(path.value));
    }
    var importer := new UserImporter(path.value, files[path.value]);
    return Ok(importer);
  }
}
