/**
 * What the user and course imports share: the run's clock and thresholds,
 * the checks made on the file before and after the row loop, and the
 * steps that change the site outside the loop.
 */
module ImportRun {
  import opened Php
  import opened Errors
  import opened RowMapping
  import opened SiteState
  import opened XmlStream

  /** The importer's `lastimportcount` and `lastsourcetimestamp`, as the task seeded them. */
  datatype Seed = Seed(lastimportcount: Option<int>, lastsourcetimestamp: Option<int>)

  /**
   * The two reads of the clock in a run: `$now`, taken before the row loop
   * (and stamped on every course log record), and the `importedtime` taken
   * when the metadata is completed.
   */
  datatype Clock = Clock(now: int, importedtime: int)

  /** The `stale_threshold` and `import_count_threshold` settings, as numbers. */
  datatype Thresholds = Thresholds(stale: int, maxdelta: int)

  /** What an import returns or raises, and the site afterwards. */
  datatype Outcome = Outcome(result: Result<bool>, store: Store)

  /** The file is older than the stale threshold allows: `$filedelta > $stalethreshold`. */
  predicate IsStale(file: XmlFile, clock: Clock, th: Thresholds) {
    clock.now - file.sourcetimestamp > th.stale
  }

  /** The previous source timestamp is truthy and equal to the file's. */
  predicate IsDuplicate(seed: Seed, file: XmlFile) {
    Truthy(seed.lastsourcetimestamp) && seed.lastsourcetimestamp.value == file.sourcetimestamp
  }

  /**
   * `$importcount != $metadata["rowcount"]`: with no `ROWCOUNT` the expected
   * value is null, which PHP's loose comparison equates with 0 only.
   */
  predicate CountMismatch(count: nat, rowcount: Option<int>) {
    match rowcount
    case None => count != 0
    case Some(expected) => count != expected
  }

  /**
   * The drift check: there is a truthy previous count, the threshold is
   * positive and the change in the count exceeds it.
   */
  predicate DriftExceeded(count: nat, seed: Seed, th: Thresholds) {
    Truthy(seed.lastimportcount) && th.maxdelta > 0 && th.maxdelta < Abs(count - seed.lastimportcount.value)
  }

  /** The table emptied when the run is live and flushes. */
  function Flush(st: Store, live: bool, flush: bool, table: string): (r: Store)
    ensures r.settings == st.settings && r.metadata == st.metadata && r.alerts == st.alerts
    ensures forall t :: t != table ==> TableOf(r, t) == TableOf(st, t)
    ensures TableOf(r, table) == if live && flush then [] else TableOf(st, table)
  {
    if live && flush then st.(tables := st.tables[table := []]) else st
  }

  /** The alert appended when the file is stale. */
  function WarnStale(st: Store, stale: bool, alert: Alert): (r: Store)
    ensures r.tables == st.tables && r.settings == st.settings && r.metadata == st.metadata
    ensures r.alerts == st.alerts + if stale then [alert] else []
  {
    if stale then st.(alerts := st.alerts + [alert]) else st
  }

  /** The records appended to the table in a live run (none inserted: nothing changes). */
  function Append(st: Store, live: bool, table: string, records: seq<Record>): (r: Store)
    ensures r.settings == st.settings && r.metadata == st.metadata && r.alerts == st.alerts
    ensures !live ==> r.tables == st.tables
  {
    if live && records != [] then st.(tables := st.tables[table := TableOf(st, table) + records]) else st
  }

  /** A live append adds the records to the end of the table and changes no other table. */
  lemma AppendTables(st: Store, live: bool, table: string, records: seq<Record>)
    ensures forall t :: t != table ==> TableOf(Append(st, live, table, records), t) == TableOf(st, t)
    ensures TableOf(Append(st, live, table, records), table) == TableOf(st, table) + if live then records else []
  {
  }

  /** Inserting one more record after appending some is appending them all. */
  lemma AppendOne(st: Store, table: string, records: seq<Record>, record: Record)
    ensures var s := Append(st, true, table, records);
            s.(tables := s.tables[table := TableOf(s, table) + [record]]) == Append(st, true, table, records + [record])
  {
    var s := Append(st, true, table, records);
    assert TableOf(s, table) + [record] == TableOf(st, table) + (records + [record]);
    if records == [] {
      assert records + [record] == [record];
    }
  }

  /** Appending to two different tables can be done in either order. */
  lemma AppendSwap(st: Store, live: bool, t1: string, a: seq<Record>, t2: string, b: seq<Record>)
    requires t1 != t2
    ensures Append(Append(st, live, t1, a), live, t2, b) == Append(Append(st, live, t2, b), live, t1, a)
  {
    if live && a != [] && b != [] {
      var x := Append(Append(st, live, t1, a), live, t2, b);
      var y := Append(Append(st, live, t2, b), live, t1, a);
      assert x.tables == y.tables;
    }
  }

  /**
   * Inserting one more record into the first of two tables already
   * appended to is appending it with the others.
   */
  lemma AppendOneUnder(st: Store, t1: string, a: seq<Record>, t2: string, b: seq<Record>, record: Record)
    requires t1 != t2
    ensures var s := Append(Append(st, true, t1, a), true, t2, b);
            s.(tables := s.tables[t1 := TableOf(s, t1) + [record]]) == Append(Append(st, true, t1, a + [record]), true, t2, b)
  {
    AppendSwap(st, true, t1, a, t2, b);
    AppendOne(Append(st, true, t2, b), t1, a, record);
    AppendSwap(st, true, t1, a + [record], t2, b);
  }

  /** The metadata a completed run records. */
  function RunMetadata(file: XmlFile, rowcount: Option<int>, actioncounts: Option<ActionCounts>,
                       count: nat, clock: Clock): Metadata
  {
    Metadata(file.sourcefile, Some(file.sourcetimestamp), rowcount, actioncounts, Some(count), Some(clock.importedtime))
  }
}
