# local_xmlsync import pipeline, in Dafny

`local_xmlsync` is a Moodle plugin. Scheduled tasks read XML exports from a sync directory into the plugin's own tables:
- `moodle_per.xml` holds users;
- `moodle_crs.xml` holds courses;
- `moodle_enr.xml` holds enrolments.

User data is kept blue/green. There are two replica tables, `local_xmlsync_userimport_a` and `_b`. One stored setting names the active replica, which readers use. Each import fills the other, inactive replica. The setting is flipped only when that import completes.

This project models that pipeline:

- **Path helpers.** `get_filepath` joins the sync directory and a file name, then collapses every run of `/`.
- **Row mapping.** `import_rowfield` and `get_row_element` map one `ROW`'s child elements onto table columns. Columns ending in `_dt` are cast with `(int)`.
- **User importer.** `import` handles:
  - dry and live runs, replica validation and the flush;
  - the stale-file alert and the duplicate-timestamp skip;
  - the row loop, the `ROWCOUNT` check and the drift check against the previous run's count;
  - the metadata written by a completed run.
- **Course importer.** `import` handles:
  - dispatch on each row's `ACTION`: `U` inserts the row, `D` only logs it, anything else throws;
  - the per-row log table and the action tallies;
  - the absence of count checks.
- **Replica manager** (`locallib.php`): active, inactive, validate, set-active and metadata.
- **Scheduled tasks.** The `execute` of each task:
  - the user task imports into the inactive user replica with a fresh, unseeded importer, flushing it, and makes that replica active only when the import completes;
  - the enrol task seeds its importer from the active enrol replica's metadata and would flip the replicas the same way, but its importer is a stub that never completes;
  - the course task seeds its importer from the course metadata, imports into the default course table `COURSEIMPORT_MAIN` (flushing it) and never changes the active-replica setting.

## How the model is built

The site is a `Site` object. Its fields are:
- the tables, each a sequence of records;
- the plain settings;
- the decoded `<name>_metadata` settings;
- the alerts sent.

`Site.Snapshot()` gives its value as a `Store`.

Each importer is a class holding `lastimportcount` and `lastsourcetimestamp`, as the PHP classes do. Its `Import` method runs the steps in order: it flushes, warns and skips as the source does, and its row loop inserts record by record.

Each `Import` is proved against a closed-form function of the old site:
- `UserImport.UserRun` for the user importer;
- `CourseImport.CourseRun` for the course importer.

The properties of those functions are proved as lemmas. The course loop's reference definition is `CourseImport.CourseScan`, a fold over the event stream that stops at the first unknown action. A completed live scan is related to plain definitions over the file's rows:
- `Updates` (the `U` rows);
- `LogRecords` (one log record per row);
- `Tally` (the action counts).

The tasks are methods too. Each is proved against a closed-form function (`Tasks.UserTaskRun`, `Tasks.EnrolTaskRun`, `Tasks.CourseTaskRun`), and the promotion rules are lemmas about those functions.

The XML input is an abstract stream of events:
- a `ROW` start tag with the row's child elements, as (tag, text) pairs in document order;
- a `ROWCOUNT` start tag with its text;
- any other node.

The file's `timestamp` attribute is given both as text and as the Unix time it parses to.

`now` and the `importedtime` of a run are inputs (`ImportRun.Clock`). So are the `stale_threshold` and `import_count_threshold` settings (`ImportRun.Thresholds`).

Where the code and the intended design differ, the model follows the code:
- A mapped element missing from a row reads as PHP null. The record then holds null, or `0` for a `_dt` column; the run does not refuse the row.
- A user dry run still performs the row-count and drift checks, so it can raise.
- A course row without `ACTION` makes a live run throw, and the error carries null.
- The course flush happens before the duplicate check, so a repeated file leaves the flushed table empty (`Tasks.CourseTaskDuplicateEmpties`).

## Model

| member | source | states |
|---|---|---|
| Php.IntCastDecimal | local/xmlsync/classes/import/user_importer.php:208 | `(int)` reads back the decimal text of every integer, sign included |
| Paths.GetFilepath | local/xmlsync/classes/import/base_importer.php:69-78 | raises `nosyncpath` exactly when the base path is PHP-empty (`""` or `"0"`); otherwise the path holds no doubled slash |
| Paths.FilepathContent | local/xmlsync/classes/import/base_importer.php:70-77 | the path holds the directory's non-slash characters followed by the file name's: only slashes are added or removed |
| Paths.CollapseSlashes | local/xmlsync/classes/import/base_importer.php:77 | `preg_replace('#/+#', '/', ...)`: each run of slashes replaced by one (its properties are the `Collapse*` lemmas) |
| Paths.CollapseRun | local/xmlsync/classes/import/base_importer.php:77 | after an already collapsed prefix not ending in `/`, a run of any `k >= 1` slashes followed by a non-slash becomes exactly one `/`, for every such input |
| Paths.CollapseLeadingRun | local/xmlsync/classes/import/base_importer.php:77 | a leading run of `k >= 1` slashes before a non-slash collapses to one `/` |
| Paths.CollapseShape | local/xmlsync/classes/import/base_importer.php:77 | collapsing leaves no doubled slash, never lengthens the string and keeps its first character |
| Paths.CollapseKeepsContent | local/xmlsync/classes/import/base_importer.php:77 | collapsing removes only slashes, keeping every other character in order |
| Paths.CollapseFixpoint | local/xmlsync/classes/import/base_importer.php:77 | collapsing leaves a string unchanged if and only if it has no doubled slash |
| Paths.CollapseIdempotent | local/xmlsync/classes/import/base_importer.php:77 | collapsing twice equals collapsing once |
| Paths.PlainJoin | local/xmlsync/classes/import/base_importer.php:70-77 | a clean directory without a trailing slash and a clean file name join to `base + "/" + name` exactly |
| Paths.DoubledSeparator | local/xmlsync/classes/import/base_importer.php:77 | two slashes between a clean directory and a clean file name collapse to one |
| Paths.TrailingSlashJoin | local/xmlsync/classes/import/base_importer.php:70-77 | a directory given with a trailing slash (as in `/data/sync/`) joins to `dir/name`, the separator not repeated |
| RowMapping.GetRowElement | local/xmlsync/classes/import/base_importer.php:109-111 | `get_row_element`: the text of the first child element with the tag, null when there is none (its properties are `GetRowElementFirst`) |
| RowMapping.GetRowElementFirst | local/xmlsync/classes/import/base_importer.php:109-111 | `get_row_element` gives the text of the first element with the tag, unconverted, and null exactly when there is none |
| RowMapping.UniqueTagElement | local/xmlsync/classes/import/base_importer.php:100-111 | when the tag occurs once in the row (the assumption the helper documents), that element's text is returned |
| RowMapping.ImportRowfield | local/xmlsync/classes/import/base_importer.php:88-98 | only the key `rowmapping[xmlfield]` is set, every other key is kept; the value is an integer exactly for a `_dt` column, otherwise the element text or null |
| RowMapping.ColumnOfField | local/xmlsync/classes/import/user_importer.php:53-73 | in a mapping with distinct XML fields and columns, looking up a field's XML name gives that field's column |
| UserImport.UserMappingWellFormed | local/xmlsync/classes/import/user_importer.php:53-73 | the user `$rowmapping` has distinct XML fields and distinct columns, so `MapFieldsContent` applies to it |
| CourseImport.CourseMappingWellFormed | local/xmlsync/classes/import/course_importer.php:51-57 | the course `$rowmapping` has distinct XML fields and distinct columns |
| RowMapping.MapFieldsContent | local/xmlsync/classes/import/user_importer.php:195-199 | after the `foreach` over the mapping's keys, the record has exactly the mapped columns, each holding its element's text converted for that column |
| RowMapping.BuildRecord | local/xmlsync/classes/import/user_importer.php:195-199 | the loop over the mapping's keys builds exactly the record `MapRow` defines |
| RowMapping.MapRows | local/xmlsync/classes/import/user_importer.php:191-205 | one record per row, in order, each the row's mapped record |
| XmlStream.RowsAppend | local/xmlsync/classes/import/user_importer.php:191-212 | the rows of a stream read in two parts are the rows of each part, in turn |
| XmlStream.RowsAreRowElements | local/xmlsync/classes/import/user_importer.php:193-194 | the rows counted are exactly the `ROW` start elements of the stream, each counted as often as it occurs |
| XmlStream.NoRowCount | local/xmlsync/classes/import/user_importer.php:207-208 | `$metadata["rowcount"]` stays unset if and only if the stream has no `ROWCOUNT` element |
| XmlStream.LastRowCountIsLast | local/xmlsync/classes/import/user_importer.php:207-208 | the row count recorded is the text of a `ROWCOUNT` element with no other one after it: a later one overrides an earlier one |
| SiteState.LogTableDiffers | local/xmlsync/classes/import/course_importer.php:82-83 | a course table and its `_log` table are different tables |
| SiteState.ImportTableInjective | local/xmlsync/classes/import/user_importer.php:143 | different replica names give different tables |
| Replicas.Active | local/xmlsync/locallib.php:37-45 | `userimport_a` when the setting is unset or PHP-empty, otherwise the stored value as it is; never empty |
| Replicas.Inactive | local/xmlsync/locallib.php:52-58 | differs from the active replica and is always one of the two replicas; it is `userimport_b` exactly when `userimport_a` is active and `userimport_a` otherwise, also when the stored active name is no replica |
| Replicas.Validate | local/xmlsync/locallib.php:87-91 | accepts exactly the two replica names (strict comparison) and raises `invalidreplica` otherwise |
| Replicas.GetMetadata | local/xmlsync/locallib.php:66-75 | raises for a name that is no replica; otherwise the replica's stored metadata, and null exactly when none is stored |
| Replicas.SetActive | local/xmlsync/locallib.php:99-102 | raises for a name that is no replica; otherwise that name becomes the active replica and no other setting changes |
| Replicas.SetActiveReplica | local/xmlsync/locallib.php:99-102 | the stored setting changes only for a valid name, to that name; an invalid name raises and leaves the whole site unchanged |
| Replicas.SetActiveKeepsValid | local/xmlsync/locallib.php:87-102 | a name that is no replica is never stored, and while the setting is valid the active replica is a replica |
| Replicas.SwapReplicas | local/xmlsync/locallib.php:52-58 | making the inactive replica active swaps active and inactive |
| Replicas.SwapTwice | local/xmlsync/locallib.php:52-58 | swapping twice restores the original active replica |
| ImportRun.IsStale | local/xmlsync/classes/import/user_importer.php:169-173 | the stale test `$now - $sourcetimestamp > $stalethreshold` (used in `UserRunSpec`, `CourseRunResult`) |
| ImportRun.IsDuplicate | local/xmlsync/classes/import/user_importer.php:183-184 | the duplicate test: a truthy previous source timestamp equal to the file's (used in `UserRunSpec`, `CourseRunResult`) |
| ImportRun.CountMismatch | local/xmlsync/classes/import/user_importer.php:215 | `$importcount != $metadata["rowcount"]` under PHP's loose comparison: with no `ROWCOUNT`, only a count of 0 matches (used in `UserRunSpec`) |
| ImportRun.DriftExceeded | local/xmlsync/classes/import/user_importer.php:220-224 | the drift test: a truthy previous count, a positive threshold, and a change in the count strictly above it (used in `UserRunSpec`) |
| ImportRun.Flush | local/xmlsync/classes/import/user_importer.php:146-150 | a live flushing run empties the target table and changes nothing else |
| ImportRun.WarnStale | local/xmlsync/classes/import/user_importer.php:169-180 | a stale file adds one alert and changes nothing else |
| ImportRun.AppendTables | local/xmlsync/classes/import/user_importer.php:201-203 | a live run's inserts land at the end of the one target table; no other table changes, and a dry run inserts nothing |
| ImportRun.AppendSwap | local/xmlsync/classes/import/course_importer.php:165-180 | inserts into two different tables commute |
| UserImport.UserFilepath | local/xmlsync/classes/import/user_importer.php:93-102 | raises `nosyncpath` exactly for a PHP-empty base; otherwise a path without doubled slashes holding the base's non-slash characters followed by those of `moodle_per.xml` (the exact `base/moodle_per.xml` for a clean base is `Paths.PlainJoin`) |
| UserImport.UserFinishSpec | local/xmlsync/classes/import/user_importer.php:214-247 | after the loop: a count differing from `ROWCOUNT` raises `RowCountMismatch(count, rowcount)`; failing that, a drift past the threshold raises `ImportCountOverThreshold(count - lastimportcount, maxdelta)`; otherwise a live run returns true and writes the metadata and a dry run returns false |
| UserImport.UserFinishTables | local/xmlsync/classes/import/user_importer.php:191-212 | the loop appends one record per row to the replica in a live run and to no other table; a dry run writes no table |
| UserImport.UserRunSpec | local/xmlsync/classes/import/user_importer.php:134-248 | all of `import`'s effects, listed in the note below the table |
| UserImport.DryRunChangesNothing | local/xmlsync/classes/import/user_importer.php:137-139 | a dry run (`empty($replicaname)`: `""` or `"0"`) changes no table and no metadata, and never returns true |
| UserImport.FlushedRunHoldsFile | local/xmlsync/classes/import/user_importer.php:146-148 | a completed flushing import leaves the replica holding exactly the file's records, in order |
| UserImport.UserImporter.ReadRows | local/xmlsync/classes/import/user_importer.php:191-212 | the loop counts every `ROW`, keeps the last `ROWCOUNT` text and, in a live run, appends each row's record to the replica |
| UserImport.UserImporter.ImportRow | local/xmlsync/classes/import/user_importer.php:195-203 | one `ROW`: its record is built and, in a live run, inserted after the records of the rows before it |
| UserImport.UserImporter.Import | local/xmlsync/classes/import/user_importer.php:134-248 | the site afterwards and the result or exception equal `UserRun` on the old site |
| UserImport.UserImporter.Complete | local/xmlsync/classes/import/user_importer.php:190-247 | the site afterwards and the result or exception after the duplicate check equal `UserFinish` |
| UserImport.OpenUserImporter | local/xmlsync/classes/import/user_importer.php:78-84 | the constructor raises `nosyncpath` or `noopen`, or builds an unseeded importer on the file at `UserFilepath` |
| CourseImport.CourseFilepath | local/xmlsync/classes/import/course_importer.php:63 | raises `nosyncpath` exactly for a PHP-empty base; otherwise a path without doubled slashes holding the base's non-slash characters followed by those of `moodle_crs.xml` |
| CourseImport.ScanHaltStays | local/xmlsync/classes/import/course_importer.php:176-177 | once the loop has thrown, the rest of the stream changes nothing |
| CourseImport.HaltIsUnknown | local/xmlsync/classes/import/course_importer.php:162-178 | only a live run throws, and only on an action other than `U` or `D` |
| CourseImport.DryScan | local/xmlsync/classes/import/course_importer.php:162-186 | a dry run counts every row, inserts and logs nothing, tallies nothing and never throws |
| CourseImport.LiveScanRunning | local/xmlsync/classes/import/course_importer.php:162-178 | a live loop completes if and only if every row's action is `U` or `D` |
| CourseImport.LiveScan | local/xmlsync/classes/import/course_importer.php:145-189 | a completed live loop has inserted exactly the `U` rows into the course table, logged every row, tallied each action and counted every row |
| CourseImport.LogRecords | local/xmlsync/classes/import/course_importer.php:149-160 | one log record per row, each the mapped columns plus `rowaction` and the run's single `now` |
| CourseImport.TallyCounts | local/xmlsync/classes/import/course_importer.php:163-183 | with every action known, the `U` and `D` tallies add up to the rows, and the `U` tally counts the `U` rows |
| CourseImport.CompletedRunCounts | local/xmlsync/classes/import/course_importer.php:163-199 | the metadata of a completed run has `importcount == actioncounts[U] + actioncounts[D]`, with `actioncounts[U]` the number of rows inserted |
| CourseImport.FirstUnknownIsFirst | local/xmlsync/classes/import/course_importer.php:162-178 | the row at `FirstUnknown` (whose action is `FirstUnknownAction`) is neither `U` nor `D`, every row before it being `U` or `D` |
| CourseImport.LiveScanHalts | local/xmlsync/classes/import/course_importer.php:145-178 | a live loop over rows not all `U` or `D` throws on the first row that is neither, with that row's action |
| CourseImport.HaltedScan | local/xmlsync/classes/import/course_importer.php:145-178 | a live loop that throws has inserted the `U` rows, and logged every row, strictly before `FirstUnknown` and no other |
| CourseImport.ThrownFinishKeepsPrefix | local/xmlsync/classes/import/course_importer.php:145-178 | after the duplicate check, a throwing loop appends to the course table the mapped `U` rows before the offending row, and to the log one record per row before it |
| CourseImport.ThrownRunKeepsPrefix | local/xmlsync/classes/import/course_importer.php:145-189 | a live `import` that throws on an unknown action leaves the (possibly flushed) course table extended by the `U` rows before the offending row, and the log by a record for each row before it |
| CourseImport.CourseRunResult | local/xmlsync/classes/import/course_importer.php:79-207 | the course `import`'s result, metadata, settings and alerts, listed in the note below the table |
| CourseImport.CourseFinishTables | local/xmlsync/classes/import/course_importer.php:145-189 | the loop's inserts land only in the course table and its log, in loop order |
| CourseImport.CourseRunTables | local/xmlsync/classes/import/course_importer.php:85-189 | tables outside the course table and its log never change; the flush empties only the course table, before the duplicate skip; a completed run appends the `U` rows to the course table and one log record per row to the log |
| CourseImport.CourseImporter.ReadRows | local/xmlsync/classes/import/course_importer.php:145-189 | the loop's result, counters, last `ROWCOUNT` and inserts equal the `CourseScan` fold over the stream |
| CourseImport.CourseImporter.Import | local/xmlsync/classes/import/course_importer.php:79-207 | the site afterwards and the result or exception equal `CourseRun` on the old site |
| CourseImport.CourseImporter.Complete | local/xmlsync/classes/import/course_importer.php:144-206 | the site afterwards and the result or exception after the duplicate check equal `CourseFinish` |
| CourseImport.OpenCourseImporter | local/xmlsync/classes/import/course_importer.php:62-68 | the constructor raises `nosyncpath` or `noopen`, or builds an unseeded importer on the file at `CourseFilepath` |
| EnrolImport.EnrolFilepath | local/xmlsync/classes/import/enrol_importer.php:47 | raises `nosyncpath` exactly for a PHP-empty base; otherwise a path without doubled slashes holding the base's non-slash characters followed by those of `moodle_enr.xml` |
| EnrolImport.EnrolImporter.Import | local/xmlsync/classes/import/enrol_importer.php:63-66 | the stub never completes an import |
| EnrolImport.OpenEnrolImporter | local/xmlsync/classes/import/enrol_importer.php:46-52 | the constructor raises `nosyncpath` or `noopen`, or builds an unseeded importer on the file at `EnrolFilepath` |
| Tasks.Promote | local/xmlsync/classes/task/user_import_task.php:57-64 | an exception propagates; only an import returning true sets the active replica, to the one imported into, keeping every other setting; an import returning false finishes the task normally with the site untouched; no table or metadata changes |
| Tasks.PromoteReplica | local/xmlsync/classes/task/user_import_task.php:59-64 | the `if ($importresult)` step changes the site exactly as `Promote` says |
| Tasks.UserTaskPromotes | local/xmlsync/classes/task/user_import_task.php:47-65 | a successful task makes the replica inactive at the start active (no other setting changes), and the one active before (when a replica) inactive; a failed one changes no setting; its only errors are the path, the file and a row-count mismatch, since an unseeded run never fails the drift check |
| Tasks.UserTaskSparesActive | local/xmlsync/classes/task/user_import_task.php:54-57 | the replica readers use when the task starts is never written to |
| Tasks.UserTaskLoadsFile | local/xmlsync/classes/task/user_import_task.php:52-64 | on an opened file the task succeeds exactly when the row count matches, and the replica then active holds exactly the file's records |
| Tasks.UserImportTask | local/xmlsync/classes/task/user_import_task.php:47-65 | `execute`'s effect on the site and its exception equal `UserTaskRun` |
| Tasks.EnrolTaskChangesNothing | local/xmlsync/classes/task/enrol_import_task.php:47-77 | with the stub import the task changes nothing on the site; it raises only for the path, the file or an active name that is no replica, and succeeds exactly when the path resolves, the file opens and the active name is a replica |
| Tasks.EnrolImportTask | local/xmlsync/classes/task/enrol_import_task.php:47-77 | `execute` equals `EnrolTaskRun`; the importer is seeded with `importcount` and `sourcetimestamp` from the active metadata only where present |
| Tasks.CourseTaskKeepsSettings | local/xmlsync/classes/task/course_import_task.php:66-72 | the course task never changes a setting, whatever the import returns |
| Tasks.CourseTaskDuplicateEmpties | local/xmlsync/classes/task/course_import_task.php:54-67 | a file whose timestamp equals the seeded one succeeds without completing: the default table is left flushed and empty, and no metadata is written |
| Tasks.CourseImportTask | local/xmlsync/classes/task/course_import_task.php:47-73 | `execute` equals `CourseTaskRun`, importing into the default table with the seed taken from the course metadata only where keys are present |

`UserImport.UserRunSpec` states all of `import`'s effects:
- the settings never change;
- a dry run writes no table and no metadata;
- an invalid replica raises before anything changes;
- the run returns true if and only if it is live, the file is new, the count matches `ROWCOUNT` and the drift is within the threshold (a delta equal to the threshold passes);
- only that run writes the metadata;
- no other table changes;
- the replica is flushed when asked and then holds the file's records;
- a stale file adds one alert;
- on a valid or empty name, a duplicate file returns false; otherwise a count differing from `ROWCOUNT` raises `RowCountMismatch(count, rowcount)`, and failing that, a drift past the threshold raises `ImportCountOverThreshold(count - lastimportcount, maxdelta)`;
- each exception is named.

`CourseImport.CourseRunResult` states the course `import`'s result, metadata, settings and alerts:
- a dry run returns false and writes no table and no metadata;
- an invalid table name raises before anything changes;
- the run returns true if and only if it is live, valid, not a duplicate, and every action is `U` or `D`; `ROWCOUNT` is never checked;
- only that run writes the metadata, with the tally, the row count and the last `ROWCOUNT`;
- a live run on a valid table with a new file, over rows not all `U` or `D`, raises `UnknownAction` with the action of the first such row;
- any other exception is an unknown action;
- a stale file adds one alert;
- the settings never change.

## Left out

- XMLReader and DOM: the file is an event stream, and `getElementsByTagName` is modelled as a search among a row's direct children. The model therefore does not capture a descendant match, or a `ROW`/`ROWCOUNT` tag nested inside a row.
- Time: `DateTimeImmutable` parsing of the `timestamp` attribute and the wall clock are inputs (`XmlFile.sourcetimestamp`, `Clock`). An unparseable `timestamp` makes `new DateTimeImmutable` throw after the flush (user_importer.php line 161, course_importer.php line 109); that exception path is not modelled.
- Thresholds: `stale_threshold` and `import_count_threshold` are taken as integers. PHP comparisons with an unset (false) or non-numeric setting are not modelled.
- Php.IntCast: models decimal text with leading whitespace and a sign. Exponent and hexadecimal forms, and saturation at PHP_INT_MAX, are not modelled.
- Integer width: counts, timestamps and deltas are unbounded integers; 64-bit overflow is not modelled.
- Metadata encoding: `json_encode`, `ksort` and `json_decode` are not modelled; metadata is a decoded record. The enrol and course metadata helpers the tasks call are not part of this model; they are assumed to decode the stored JSON as `local_xmlsync_get_userimport_metadata` does (locallib.php lines 66-75, `json_decode` without `true`, giving an object). `array_key_exists` on such an object is not modelled; the model reads the tasks' test as the key-presence test the code intends.
- Output: `echo`, `var_dump` and `get_string` messages are output only.
- Alerts: `local_xmlsync_warn_userimport` and `local_xmlsync_warn_import` are not part of this model. Each stale file appends one alert to an alert log.
- Unshown course helpers: `local_xmlsync_validate_courseimport`, `local_xmlsync_get_courseimport_main` with `COURSEIMPORT_MAIN`, and `local_xmlsync_get_courseimport_metadata` are not part of this model. They are parameters: the set of valid table names, the default table `main` and the metadata `meta`.
- Unshown enrol helpers: the `local_xmlsync_*_enrolimport_*` replica functions are not part of this model. The enrol task takes a replica scheme and uses the same generic active/inactive/validate/metadata functions as the user replicas.
- Constructors: they open the file (I/O). They are modelled as the path computation plus a lookup in a map of files present; a missing file raises `noopen`.
- Root element: the `assert($reader->name == ROWSET)` is a precondition of `Import`, as a PHP `assert` may be disabled.
- Configuration store: the plain settings and the `<name>_metadata` settings are two maps. A stored metadata string that is PHP-falsy is treated as none stored.
- Transactions: inserts made before a row-count, drift or unknown-action exception stay in the table, as no transaction is shown; the model keeps them (`CourseImport.ThrownRunKeepsPrefix` states which).
- `local/xmlsync/db/upgrade.php` (table DDL), `local/xmlsync/lang/en/local_xmlsync.php` (strings), `local/xmlsync/classes/util.php` (a lookup wrapper) and the tasks' `get_name` are not part of this model.
