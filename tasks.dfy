/**
 * The scheduled tasks' `execute` methods: each opens its importer, seeds
 * it from the previous run's metadata where the task does so, runs the
 * import and, for the replicated imports, makes the freshly imported
 * replica active only when the import completed.
 */
module Tasks {
  import opened Php
  import opened Errors
  import opened RowMapping
  import opened SiteState
  import opened XmlStream
  import opened Replicas
  import opened ImportRun
  import opened UserImport
  import opened CourseImport
  import opened EnrolImport

  /** The setting holding the directory the import files are read from. */
  const SYNCPATH := "syncpath"

  /** What a task raises, if anything, and the site afterwards. */
  datatype TaskOutcome = TaskOutcome(result: Result<()>, store: Store)

  /** Every file the importers may open starts with a `ROWSET` element. */
  predicate Rowsets(files: map<string, XmlFile>) {
    forall p :: p in files ==> files[p].root == XMLROWSET
  }

  /**
   * After `import($inactive)` returned or raised: an exception propagates,
   * a completed import makes `inactive` the active replica, and anything
   * else leaves the setting alone.
   */
  function Promote(s: Scheme, st: Store, inactive: string, imported: Result<bool>): (o: TaskOutcome)
    requires ValidScheme(s)
    ensures o.store.tables == st.tables && o.store.metadata == st.metadata && o.store.alerts == st.alerts
    ensures imported != Ok(true) ==> o.store.settings == st.settings
    ensures imported.Err? ==> o.result == Err(imported.error)
    ensures imported == Ok(true) && IsReplica(s, inactive) ==> o.result.Ok? && Active(s, o.store.settings) == inactive
    ensures imported == Ok(true) && IsReplica(s, inactive) ==> o.store.settings == st.settings[s.setting := inactive]
    ensures imported == Ok(false) ==> o == TaskOutcome(Ok(()), st)
    ensures imported == Ok(true) && !IsReplica(s, inactive) ==> o == TaskOutcome(Err(InvalidReplica(inactive)), st)
  {
    match imported
    case Err(e) => TaskOutcome(Err(e), st)
    case Ok(completed) =>
      if !completed then TaskOutcome(Ok(()), st)
      else
        match SetActive(s, st.settings, inactive)
        case Err(e) => TaskOutcome(Err(e), st)
        case Ok(settings) => TaskOutcome(Ok(()), st.(settings := settings))
  }

  /**
   * The importer's `lastimportcount` and `lastsourcetimestamp` after the
   * task copies over those keys present in the previous run's metadata;
   * a key that is missing, or no metadata at all, leaves the field null.
   */
  function MetadataSeed(meta: Option<Metadata>): Seed {
    if meta.None? then Seed(None, None) else Seed(meta.value.importcount, meta.value.sourcetimestamp)
  }

  // The user import task.

  /**
   * `user_import_task::execute` in closed form: the user importer on the
   * sync directory's file, never seeded, imports into the replica inactive
   * at the start, flushing it, and that replica is made active when the
   * import completes.
   */
  function UserTaskRun(st: Store, files: map<string, XmlFile>, clock: Clock, th: Thresholds): TaskOutcome {
    var path := UserFilepath(Setting(st.settings, SYNCPATH));
    if path.Err? then TaskOutcome(Err(path.error), st)
    else if path.value !in files then TaskOutcome(Err(NoOpen(path.value)), st)
    else
      UserReplicasValid();
      var inactive := Inactive(UserReplicas, st.settings);
      var o := UserRun(st, UserMapping, inactive, true, Seed(None, None), files[path.value], clock, th);
      Promote(UserReplicas, o.store, inactive, o.result)
  }

  /**
   * A user task run promotes exactly when it succeeds: on success the
   * replica that was inactive becomes active (and the previously active
   * one, when it was a replica, becomes inactive); on failure no setting
   * changes. As nothing is seeded the drift check never fires.
   */
  lemma UserTaskPromotes(st: Store, files: map<string, XmlFile>, clock: Clock, th: Thresholds)
    ensures var o := UserTaskRun(st, files, clock, th);
            o.result.Ok? ==> Active(UserReplicas, o.store.settings) == Inactive(UserReplicas, st.settings)
    ensures var o := UserTaskRun(st, files, clock, th);
            o.result.Ok? && IsReplica(UserReplicas, Active(UserReplicas, st.settings)) ==>
              Inactive(UserReplicas, o.store.settings) == Active(UserReplicas, st.settings)
    ensures var o := UserTaskRun(st, files, clock, th);
            o.result.Ok? ==>
              o.store.settings == st.settings[USERIMPORT_ACTIVE_REPLICA_SETTING := Inactive(UserReplicas, st.settings)]
    ensures var o := UserTaskRun(st, files, clock, th);
            o.result.Err? ==> o.store.settings == st.settings
    ensures var o := UserTaskRun(st, files, clock, th);
            o.result.Err? ==> o.result.error.NoSyncPath? || o.result.error.NoOpen? || o.result.error.RowCountMismatch?
  {
    UserReplicasValid();
    var path := UserFilepath(Setting(st.settings, SYNCPATH));
    if path.Ok? && path.value in files {
      var inactive := Inactive(UserReplicas, st.settings);
      var file := files[path.value];
      UserRunSpec(st, UserMapping, inactive, true, Seed(None, None), file, clock, th);
      var o := UserRun(st, UserMapping, inactive, true, Seed(None, None), file, clock, th);
      assert UserTaskRun(st, files, clock, th) == Promote(UserReplicas, o.store, inactive, o.result);
      assert o.store.settings == st.settings;
      assert o.result.Err? ==> o.result.error.RowCountMismatch?;
      if o.result == Ok(true) && IsReplica(UserReplicas, Active(UserReplicas, st.settings)) {
        SwapReplicas(UserReplicas, st.settings);
      }
    }
  }

  /** The replica active when the task starts, the one readers use, is never written to. */
  lemma UserTaskSparesActive(st: Store, files: map<string, XmlFile>, clock: Clock, th: Thresholds)
    ensures var o := UserTaskRun(st, files, clock, th);
            var active := ImportTable(Active(UserReplicas, st.settings));
            TableOf(o.store, active) == TableOf(st, active)
  {
    UserReplicasValid();
    var path := UserFilepath(Setting(st.settings, SYNCPATH));
    if path.Ok? && path.value in files {
      var inactive := Inactive(UserReplicas, st.settings);
      var file := files[path.value];
      UserRunSpec(st, UserMapping, inactive, true, Seed(None, None), file, clock, th);
      ImportTableInjective(Active(UserReplicas, st.settings), inactive);
    }
  }

  /**
   * On the file the task opens: the run succeeds exactly when the file's
   * row count matches, and the replica then active holds exactly the
   * file's rows.
   */
  lemma UserTaskLoadsFile(st: Store, files: map<string, XmlFile>, clock: Clock, th: Thresholds, path: string)
    requires UserFilepath(Setting(st.settings, SYNCPATH)) == Ok(path) && path in files
    ensures var o := UserTaskRun(st, files, clock, th);
            o.result.Ok? <==> !CountMismatch(|Rows(files[path].body)|, LastRowCount(files[path].body))
    ensures var o := UserTaskRun(st, files, clock, th);
            o.result.Ok? ==>
              TableOf(o.store, ImportTable(Active(UserReplicas, o.store.settings))) == MapRows(Rows(files[path].body), UserMapping)
  {
    UserReplicasValid();
    var inactive := Inactive(UserReplicas, st.settings);
    UserRunSpec(st, UserMapping, inactive, true, Seed(None, None), files[path], clock, th);
  }

  /** `user_import_task::execute`. */
  method UserImportTask(site: Site, files: map<string, XmlFile>, clock: Clock, th: Thresholds) returns (r: Result<()>)
    requires Rowsets(files)
    modifies site
    ensures TaskOutcome(r, site.Snapshot()) == UserTaskRun(old(site.Snapshot()), files, clock, th)
  {
    var created := OpenUserImporter(Setting(site.settings, SYNCPATH), files);
    if created.Err? {
      return Err(created.error);
    }
    var importer := created.value;
    UserReplicasValid();
    var inactive := Inactive(UserReplicas, site.settings);
    var importresult := importer.Import(site, inactive, true, clock, th);
    r := PromoteReplica(site, UserReplicas, inactive, importresult);
  }

  /** The `if ($importresult)` step of the replicated tasks. */
  method PromoteReplica(site: Site, s: Scheme, inactive: string, imported: Result<bool>) returns (r: Result<()>)
    requires ValidScheme(s)
    modifies site
    ensures TaskOutcome(r, site.Snapshot()) == Promote(s, old(site.Snapshot()), inactive, imported)
  {
    if imported.Err? {
      return Err(imported.error);
    }
    if imported.value {
      r := SetActiveReplica(site, s, inactive);
    } else {
      r := Ok(());
    }
  }

  // The enrol import task.

  /**
   * `enrol_import_task::execute` in closed form, for the enrol replica
   * scheme `s`: the active replica's metadata is read (which raises when
   * the stored active name is no replica), then the stub import into the
   * inactive replica, which never completes.
   */
  function EnrolTaskRun(s: Scheme, st: Store, files: map<string, XmlFile>): TaskOutcome
    requires ValidScheme(s)
  {
    var path := EnrolFilepath(Setting(st.settings, SYNCPATH));
    if path.Err? then TaskOutcome(Err(path.error), st)
    else if path.value !in files then TaskOutcome(Err(NoOpen(path.value)), st)
    else
      match GetMetadata(s, st, Active(s, st.settings))
      case Err(e) => TaskOutcome(Err(e), st)
      case Ok(_) => Promote(s, st, Inactive(s, st.settings), Ok(false))
  }

  /** The enrol task changes nothing on the site: with the stub import, no replica is ever promoted. */
  lemma EnrolTaskChangesNothing(s: Scheme, st: Store, files: map<string, XmlFile>)
    requires ValidScheme(s)
    ensures EnrolTaskRun(s, st, files).store == st
    ensures EnrolTaskRun(s, st, files).result.Err? ==>
              var e := EnrolTaskRun(s, st, files).result.error;
              e.NoSyncPath? || e.NoOpen? || e == InvalidReplica(Active(s, st.settings))
    ensures var path := EnrolFilepath(Setting(st.settings, SYNCPATH));
            EnrolTaskRun(s, st, files).result.Ok? <==>
              path.Ok? && path.value in files && IsReplica(s, Active(s, st.settings))
  {
  }

  /**
   * `enrol_import_task::execute`; `seed` is what the importer held when
   * `import` ran.
   */
  method EnrolImportTask(site: Site, s: Scheme, files: map<string, XmlFile>) returns (r: Result<()>, seed: Seed)
    requires ValidScheme(s)
    modifies site
    ensures TaskOutcome(r, site.Snapshot()) == EnrolTaskRun(s, old(site.Snapshot()), files)
    ensures r.Ok? ==> seed == MetadataSeed(GetMetadata(s, old(site.Snapshot()), Active(s, old(site.settings))).value)
  {
    seed := Seed(None, None);
    var created := OpenEnrolImporter(Setting(site.settings, SYNCPATH), files);
    if created.Err? {
      return Err(created.error), seed;
    }
    var importer := created.value;
    var active := Active(s, site.settings);
    var activemeta := GetMetadata(s, site.Snapshot(), active);
    if activemeta.Err? {
      return Err(activemeta.error), seed;
    }
    if activemeta.value.Some? {
      var meta := activemeta.value.value;
      if meta.importcount.Some? {
        importer.lastimportcount := meta.importcount;
      }
      if meta.sourcetimestamp.Some? {
        importer.lastsourcetimestamp := meta.sourcetimestamp;
      }
    }
    seed := Seed(importer.lastimportcount, importer.lastsourcetimestamp);
    var inactive := Inactive(s, site.settings);
    var importcompleted := importer.Import(inactive, true);
    r := PromoteReplica(site, s, inactive, importcompleted);
  }

  // The course import task.

  /**
   * `course_import_task::execute` in closed form: the course importer,
   * seeded from the course metadata `meta`, imports into its default table
   * `main` (flushing it); `validtables` are the names the course table
   * validator accepts. Nothing is promoted.
   */
  function CourseTaskRun(st: Store, files: map<string, XmlFile>, main: string, meta: Option<Metadata>,
                         validtables: set<string>, clock: Clock, th: Thresholds): TaskOutcome
  {
    var path := CourseFilepath(Setting(st.settings, SYNCPATH));
    if path.Err? then TaskOutcome(Err(path.error), st)
    else if path.value !in files then TaskOutcome(Err(NoOpen(path.value)), st)
    else
      var o := CourseRun(st, CourseMapping, main, true, validtables, MetadataSeed(meta), files[path.value], clock, th);
      TaskOutcome(if o.result.Err? then Err(o.result.error) else Ok(()), o.store)
  }

  /** The course task never changes a setting, whatever the import does. */
  lemma CourseTaskKeepsSettings(st: Store, files: map<string, XmlFile>, main: string, meta: Option<Metadata>,
                                validtables: set<string>, clock: Clock, th: Thresholds)
    ensures CourseTaskRun(st, files, main, meta, validtables, clock, th).store.settings == st.settings
  {
    var path := CourseFilepath(Setting(st.settings, SYNCPATH));
    if path.Ok? && path.value in files {
      CourseRunResult(st, CourseMapping, main, true, validtables, MetadataSeed(meta), files[path.value], clock, th);
    }
  }

  /**
   * When the previous metadata records a (truthy) source timestamp equal to
   * the file's, the run is skipped as a duplicate only after the flush: the
   * task succeeds, the default table is left empty and no metadata is written.
   */
  lemma CourseTaskDuplicateEmpties(st: Store, files: map<string, XmlFile>, main: string, meta: Option<Metadata>,
                                   validtables: set<string>, clock: Clock, th: Thresholds, path: string)
    requires CourseFilepath(Setting(st.settings, SYNCPATH)) == Ok(path) && path in files
    requires !Empty(main) && main in validtables
    requires meta.Some? && Truthy(meta.value.sourcetimestamp) && meta.value.sourcetimestamp.value == files[path].sourcetimestamp
    ensures var o := CourseTaskRun(st, files, main, meta, validtables, clock, th);
            o.result.Ok? && TableOf(o.store, ImportTable(main)) == [] && o.store.metadata == st.metadata
  {
    var file := files[path];
    CourseRunResult(st, CourseMapping, main, true, validtables, MetadataSeed(meta), file, clock, th);
    CourseRunTables(st, CourseMapping, main, true, validtables, MetadataSeed(meta), file, clock, th);
  }

  /** `course_import_task::execute`; `seed` is what the importer held when `import` ran. */
  method CourseImportTask(site: Site, files: map<string, XmlFile>, main: string, meta: Option<Metadata>,
                          validtables: set<string>, clock: Clock, th: Thresholds) returns (r: Result<()>, seed: Seed)
    requires Rowsets(files)
    modifies site
    ensures TaskOutcome(r, site.Snapshot()) == CourseTaskRun(old(site.Snapshot()), files, main, meta, validtables, clock, th)
    ensures r.Ok? ==> seed == MetadataSeed(meta)
  {
    seed := Seed(None, None);
    var created := OpenCourseImporter(Setting(site.settings, SYNCPATH), files);
    if created.Err? {
      return Err(created.error), seed;
    }
    var importer := created.value;
    if meta.Some? {
      if meta.value.importcount.Some? {
        importer.lastimportcount := meta.value.importcount;
      }
      if meta.value.sourcetimestamp.Some? {
        importer.lastsourcetimestamp := meta.value.sourcetimestamp;
      }
    }
    seed := Seed(importer.lastimportcount, importer.lastsourcetimestamp);
    var importcompleted := importer.Import(site, main, true, validtables, clock, th);
    if importcompleted.Err? {
      return Err(importcompleted.error), seed;
    }
    r := Ok(());
  }
}
