/**
 * Turning one XML `ROW` into a database record: the row's child elements
 * are looked up by tag, each mapped XML field is written under its column
 * name, and columns whose name ends in `_dt` hold integers.
 */
module RowMapping {
  import opened Php

  /** One child element of a `ROW`: its tag and its text content. */
  datatype Element = Element(tag: string, text: string)

  /** The child elements of a `ROW`, in document order. */
  type Row = seq<Element>

  /**
   * A column value: the element text, the integer a timestamp column holds,
   * or null when the row has no such element.
   */
  datatype Value = Str(s: string) | Int(i: int) | Null

  /** A record as handed to the database: column name to value. */
  type Record = map<string, Value>

  /** One entry of an importer's `$rowmapping`: XML field name to column name. */
  datatype Field = Field(xml: string, column: string)

  /** A `$rowmapping` array, in declaration order. */
  type FieldMap = seq<Field>

  /** Some element of the row has the tag. */
  predicate HasElement(row: Row, tag: string) {
    row != [] && (row[0].tag == tag || HasElement(row[1..], tag))
  }

  /** The position of the first element of the row with the tag. */
  function FirstIndex(row: Row, tag: string): (i: nat)
    requires HasElement(row, tag)
    ensures i < |row| && row[i].tag == tag
    ensures forall j :: 0 <= j < i ==> row[j].tag != tag
  {
    if row[0].tag == tag then 0
    else
      var i := FirstIndex(row[1..], tag);
      assert forall j :: 1 <= j <= i ==> row[j] == row[1..][j - 1];
      i + 1
  }

  /**
   * `get_row_element`: the text of the first element of the row with the
   * given tag, unconverted; null (`None`) when the row has none.
   */
  function GetRowElement(row: Row, tag: string): Option<string> {
    if row == [] then None
    else if row[0].tag == tag then Some(row[0].text)
    else GetRowElement(row[1..], tag)
  }

  /** `get_row_element` reads the first element carrying the tag, and null only when there is none. */
  lemma {:induction false} GetRowElementFirst(row: Row, tag: string)
    ensures GetRowElement(row, tag).None? <==> !HasElement(row, tag)
    ensures HasElement(row, tag) ==> GetRowElement(row, tag) == Some(row[FirstIndex(row, tag)].text)
  {
    if row != [] && row[0].tag != tag {
      GetRowElementFirst(row[1..], tag);
    }
  }

  /** A row holding the tag exactly once yields that element's text. */
  lemma UniqueTagElement(row: Row, i: int, tag: string)
    requires 0 <= i < |row| && row[i].tag == tag
    requires forall j :: 0 <= j < |row| && j != i ==> row[j].tag != tag
    ensures GetRowElement(row, tag) == Some(row[i].text)
  {
    HasElementAt(row, i);
    GetRowElementFirst(row, tag);
  }

  lemma {:induction false} HasElementAt(row: Row, i: int)
    requires 0 <= i < |row|
    ensures HasElement(row, row[i].tag)
  {
    if i > 0 {
      assert row[1..][i - 1] == row[i];
      HasElementAt(row[1..], i - 1);
    }
  }

  /** The column name ends in `_dt` (the `substr_compare` test). */
  predicate IsTimestampColumn(column: string) {
    |column| >= 3 && column[|column| - 3..] == "_dt"
  }

  /** XML field names are distinct (array keys) and so are column names. */
  predicate WellFormed(m: FieldMap) {
    forall i, j :: 0 <= i < j < |m| ==> m[i].xml != m[j].xml && m[i].column != m[j].column
  }

  /** The XML field is a key of the mapping. */
  predicate HasXmlField(m: FieldMap, xml: string) {
    m != [] && (m[0].xml == xml || HasXmlField(m[1..], xml))
  }

  lemma {:induction false} HasXmlFieldAt(m: FieldMap, k: int)
    requires 0 <= k < |m|
    ensures HasXmlField(m, m[k].xml)
  {
    if k > 0 {
      assert m[1..][k - 1] == m[k];
      HasXmlFieldAt(m[1..], k - 1);
    }
  }

  /** `$this->rowmapping[$xmlfield]`: the column of the first entry for the field. */
  function ColumnOf(m: FieldMap, xml: string): string
    requires HasXmlField(m, xml)
  {
    if m[0].xml == xml then m[0].column else ColumnOf(m[1..], xml)
  }

  /** In a well-formed mapping, looking up a field's XML name gives that field's column. */
  lemma {:induction false} ColumnOfField(m: FieldMap, k: int)
    requires WellFormed(m) && 0 <= k < |m|
    ensures HasXmlField(m, m[k].xml) && ColumnOf(m, m[k].xml) == m[k].column
  {
    HasXmlFieldAt(m, k);
    if k > 0 {
      assert m[1..][k - 1] == m[k] && m[0].xml != m[k].xml;
      assert WellFormed(m[1..]) by {
        forall i, j | 0 <= i < j < |m| - 1
          ensures m[1..][i].xml != m[1..][j].xml && m[1..][i].column != m[1..][j].column
        {
          assert m[1..][i] == m[i + 1] && m[1..][j] == m[j + 1];
        }
      }
      ColumnOfField(m[1..], k - 1);
    }
  }

  /**
   * The value stored for an element's text under `column`: `(int)` of the
   * text for a timestamp column (null casts to 0), the text itself
   * otherwise.
   */
  function Coerce(column: string, text: Option<string>): Value {
    if IsTimestampColumn(column) then Int(if text.Some? then IntCast(text.value) else 0)
    else if text.Some? then Str(text.value)
    else Null
  }

  /**
   * `import_rowfield`: writes the value of element `xmlfield` of the row
   * into `rowdata` under the field's column, converted by `(int)` when the
   * column is a timestamp column.
   */
  function ImportRowfield(rowdata: Record, row: Row, m: FieldMap, xmlfield: string): (r: Record)
    requires HasXmlField(m, xmlfield)
    ensures r.Keys == rowdata.Keys + {ColumnOf(m, xmlfield)}
    ensures forall k :: k in rowdata && k != ColumnOf(m, xmlfield) ==> r[k] == rowdata[k]
    ensures r[ColumnOf(m, xmlfield)].Int? <==> IsTimestampColumn(ColumnOf(m, xmlfield))
    ensures r[ColumnOf(m, xmlfield)].Str? ==> Some(r[ColumnOf(m, xmlfield)].s) == GetRowElement(row, xmlfield)
    ensures r[ColumnOf(m, xmlfield)].Null? <==>
              !IsTimestampColumn(ColumnOf(m, xmlfield)) && GetRowElement(row, xmlfield).None?
  {
    var column := ColumnOf(m, xmlfield);
    rowdata[column := Coerce(column, GetRowElement(row, xmlfield))]
  }

  /** The record after the `foreach` over the first `n` keys of the mapping. */
  function MapFields(row: Row, m: FieldMap, n: nat): Record
    requires n <= |m|
  {
    if n == 0 then map[]
    else
      HasXmlFieldAt(m, n - 1);
      ImportRowfield(MapFields(row, m, n - 1), row, m, m[n - 1].xml)
  }

  /** The columns of the first `n` entries of the mapping. */
  function Columns(m: FieldMap, n: nat): set<string>
    requires n <= |m|
  {
    if n == 0 then {} else Columns(m, n - 1) + {m[n - 1].column}
  }

  /**
   * After the first `n` keys, the record holds exactly their columns, each
   * with its element's text converted for that column.
   */
  lemma {:induction false} MapFieldsContent(row: Row, m: FieldMap, n: nat)
    requires n <= |m| && WellFormed(m)
    ensures MapFields(row, m, n).Keys == Columns(m, n)
    ensures forall k :: 0 <= k < n ==>
              (m[k].column in MapFields(row, m, n) &&
               MapFields(row, m, n)[m[k].column] == Coerce(m[k].column, GetRowElement(row, m[k].xml)))
  {
    if n > 0 {
      MapFieldsContent(row, m, n - 1);
      ColumnOfField(m, n - 1);
      var prev := MapFields(row, m, n - 1);
      var r := MapFields(row, m, n);
      var c := m[n - 1].column;
      assert r == ImportRowfield(prev, row, m, m[n - 1].xml);
      assert r[c] == Coerce(c, GetRowElement(row, m[n - 1].xml));
      forall k | 0 <= k < n - 1
        ensures m[k].column in r && r[m[k].column] == Coerce(m[k].column, GetRowElement(row, m[k].xml))
      {
        assert m[k].column != c;
      }
    }
  }

  /** The record built for one row: every key of the mapping in turn. */
  function MapRow(row: Row, m: FieldMap): Record
  {
    MapFields(row, m, |m|)
  }

  /**
   * The `foreach (array_keys($this->rowmapping) ...)` loop of the importers,
   * building a row's record one field at a time.
   */
  method BuildRecord(row: Row, m: FieldMap) returns (rowdata: Record)
    ensures rowdata == MapRow(row, m)
  {
    rowdata := map[];
    var n := 0;
    while n < |m|
      invariant 0 <= n <= |m|
      invariant rowdata == MapFields(row, m, n)
    {
      HasXmlFieldAt(m, n);
      rowdata := ImportRowfield(rowdata, row, m, m[n].xml);
      assert rowdata == MapFields(row, m, n + 1) by {
        assert m[(n + 1) - 1] == m[n];
      }
      n := n + 1;
    }
  }

  /** The records of a sequence of rows, in order. */
  function MapRows(rows: seq<Row>, m: FieldMap): (r: seq<Record>)
    ensures |r| == |rows|
    ensures forall i :: 0 <= i < |rows| ==> r[i] == MapRow(rows[i], m)
  {
    if rows == [] then []
    else MapRows(rows[..|rows| - 1], m) + [MapRow(rows[|rows| - 1], m)]
  }

  /** One more row maps to one more record at the end. */
  lemma MapRowsSnoc(rows: seq<Row>, row: Row, m: FieldMap)
    ensures MapRows(rows + [row], m) == MapRows(rows, m) + [MapRow(row, m)]
  {
    assert (rows + [row])[..|rows|] == rows;
  }
}
