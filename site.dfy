/**
 * The parts of the Moodle site the importers touch: the database tables
 * (`$DB`), the plugin's configuration (`get_config`/`set_config` for
 * `local_xmlsync`) and the alerts sent about stale files.
 */
module SiteState {
  import opened Php
  import opened RowMapping

  /** `$actioncounts`: rows seen per course action. */
  datatype ActionCounts = ActionCounts(update: nat, delete: nat)

  /**
   * The decoded `<name>_metadata` setting an import stores. A key missing
   * from the stored JSON is `None`.
   */
  datatype Metadata = Metadata(
    sourcefile: Option<string>,
    sourcetimestamp: Option<int>,
    rowcount: Option<int>,
    actioncounts: Option<ActionCounts>,
    importcount: Option<int>,
    importedtime: Option<int>)

  /** An alert sent by `local_xmlsync_warn_userimport` or `local_xmlsync_warn_import`. */
  datatype Alert = StaleUserFile(timestamp: string) | StaleCourseFile(timestamp: string)

  /**
   * A snapshot of the site: table contents, plain settings, import
   * metadata keyed by replica or table name (the `<name>_metadata`
   * settings, decoded) and the alerts sent so far.
   */
  datatype Store = Store(
    tables: map<string, seq<Record>>,
    settings: map<string, string>,
    metadata: map<string, Metadata>,
    alerts: seq<Alert>)

  /** The records of a table; a table never written to is empty. */
  function TableOf(st: Store, name: string): seq<Record> {
    if name in st.tables then st.tables[name] else []
  }

  /** `get_config('local_xmlsync', $name)` for a plain setting; unset reads as "" (PHP-empty). */
  function Setting(settings: map<string, string>, name: string): string {
    if name in settings then settings[name] else ""
  }

  /** The database table behind a replica or course table name. */
  function ImportTable(name: string): string {
    "local_xmlsync_" + name
  }

  /** The course importer's per-row log table. */
  function LogTable(name: string): string {
    "local_xmlsync_" + name + "_log"
  }

  /** A course table and its log table are different tables. */
  lemma LogTableDiffers(name: string)
    ensures ImportTable(name) != LogTable(name)
  {
    assert |LogTable(name)| == |ImportTable(name)| + 4;
  }

  /** Different names give different tables. */
  lemma ImportTableInjective(a: string, b: string)
    requires a != b
    ensures ImportTable(a) != ImportTable(b)
  {
    assert ImportTable(a)[14..] == a && ImportTable(b)[14..] == b;
  }

  class Site {
    var tables: map<string, seq<Record>>
    var settings: map<string, string>
    var metadata: map<string, Metadata>
    var alerts: seq<Alert>

    function Snapshot(): Store
      reads this
    {
      Store(tables, settings, metadata, alerts)
    }

    constructor(st: Store)
      ensures Snapshot() == st
    {
      tables, settings, metadata, alerts := st.tables, st.settings, st.metadata, st.alerts;
    }

    /** `$DB->delete_records($table)`: the table is emptied. */
    method DeleteRecords(table: string)
      modifies this
      ensures Snapshot() == old(Snapshot()).(tables := old(tables)[table := []])
    {
      tables := tables[table := []];
    }

    /** `$DB->insert_record($table, $record)`: the record is appended. */
    method InsertRecord(table: string, record: Record)
      modifies this
      ensures Snapshot() == old(Snapshot()).(tables := old(tables)[table := TableOf(old(Snapshot()), table) + [record]])
    {
      tables := tables[table := TableOf(Snapshot(), table) + [record]];
    }

    /** `set_config($name, $value, 'local_xmlsync')` for a plain setting. */
    method SetConfig(name: string, value: string)
      modifies this
      ensures Snapshot() == old(Snapshot()).(settings := old(settings)[name := value])
    {
      settings := settings[name := value];
    }

    /** `set_config("{$name}_metadata", json_encode($metadata), 'local_xmlsync')`. */
    method SetMetadata(name: string, m: Metadata)
      modifies this
      ensures Snapshot() == old(Snapshot()).(metadata := old(metadata)[name := m])
    {
      metadata := metadata[name := m];
    }

    /** Sends an alert. */
    method Warn(alert: Alert)
      modifies this
      ensures Snapshot() == old(Snapshot()).(alerts := old(alerts) + [alert])
    {
      alerts := alerts + [alert];
    }
  }
}
