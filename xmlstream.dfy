/**
 * An import file as the importers read it with `XMLReader`: the root
 * element with its attributes, then the element start nodes that follow
 * it in document order.
 */
module XmlStream {
  import opened Php
  import opened RowMapping

  const XMLROWSET := "ROWSET"
  const XMLACTION := "ACTION"
  const ACTION_UPDATE := "U"  // includes inserts
  const ACTION_DELETE := "D"

  /**
   * A node the reader stops on after the root: a `ROW` start tag with the
   * row's children, a `ROWCOUNT` start tag with its text, or any other node
   * (the children of a row, text and end tags), which the loop skips.
   */
  datatype Event = RowElement(row: Row) | RowCountElement(text: string) | OtherNode

  /**
   * The file: the root element's name, its `timestamp` attribute (as text
   * and as the Unix time it parses to), its `sourcefile` attribute (null
   * when absent) and the nodes after the root.
   */
  datatype XmlFile = XmlFile(root: string, timestamp: string, sourcetimestamp: int,
                             sourcefile: Option<string>, body: seq<Event>)

  /** The rows of the stream, in order. */
  function Rows(body: seq<Event>): (rows: seq<Row>)
    ensures |rows| <= |body|
  {
    if body == [] then []
    else
      var last := body[|body| - 1];
      Rows(body[..|body| - 1]) + (if last.RowElement? then [last.row] else [])
  }

  /** The text of the last `ROWCOUNT` node, if any. */
  function LastRowCountText(body: seq<Event>): Option<string> {
    if body == [] then None
    else if body[|body| - 1].RowCountElement? then Some(body[|body| - 1].text)
    else LastRowCountText(body[..|body| - 1])
  }

  /**
   * The value `$metadata["rowcount"]` holds after the loop: each `ROWCOUNT`
   * read overwrites it with its text cast by `(int)`; it is unset when there
   * is none.
   */
  function LastRowCount(body: seq<Event>): Option<int> {
    CastRowCount(LastRowCountText(body))
  }

  /** `(int) $reader->readString()` on the `ROWCOUNT` text read, if any. */
  function CastRowCount(text: Option<string>): Option<int> {
    if text.Some? then Some(IntCast(text.value)) else None
  }

  /** Reading a stream in two parts reads the rows of each part in turn. */
  lemma {:induction false} RowsAppend(a: seq<Event>, b: seq<Event>)
    ensures Rows(a + b) == Rows(a) + Rows(b)
  {
    if b != [] {
      assert (a + b)[..|a + b| - 1] == a + b[..|b| - 1];
      RowsAppend(a, b[..|b| - 1]);
    } else {
      assert a + b == a;
    }
  }

  /**
   * Every row of the stream is a `ROW` node of it, and every `ROW` node is
   * a row, counted as often as the node occurs.
   */
  lemma {:induction false} RowsAreRowElements(body: seq<Event>)
    ensures forall r :: r in Rows(body) <==> RowElement(r) in body
    ensures forall r :: multiset(Rows(body))[r] == multiset(body)[RowElement(r)]
  {
    if body != [] {
      var init := body[..|body| - 1];
      RowsAreRowElements(init);
      assert body == init + [body[|body| - 1]];
    }
  }

  /** `$metadata["rowcount"]` stays unset exactly when the stream has no `ROWCOUNT` node. */
  lemma {:induction false} NoRowCount(body: seq<Event>)
    ensures LastRowCount(body).None? <==> forall i :: 0 <= i < |body| ==> !body[i].RowCountElement?
  {
    if body != [] && !body[|body| - 1].RowCountElement? {
      var init := body[..|body| - 1];
      NoRowCount(init);
      assert forall i :: 0 <= i < |init| ==> body[i] == init[i];
    }
  }

  /**
   * A later `ROWCOUNT` overrides an earlier one: the text read is that of a
   * `ROWCOUNT` node with no other one after it.
   */
  lemma {:induction false} LastRowCountIsLast(body: seq<Event>)
    requires LastRowCountText(body).Some?
    ensures exists i :: 0 <= i < |body| && body[i] == RowCountElement(LastRowCountText(body).value)
                        && forall j :: i < j < |body| ==> !body[j].RowCountElement?
  {
    var last := |body| - 1;
    if body[last].RowCountElement? {
      assert body[last] == RowCountElement(LastRowCountText(body).value);
    } else {
      var init := body[..last];
      assert LastRowCountText(body) == LastRowCountText(init);
      LastRowCountIsLast(init);
      var i :| 0 <= i < |init| && init[i] == RowCountElement(LastRowCountText(init).value)
               && forall j :: i < j < |init| ==> !init[j].RowCountElement?;
      forall j | i < j < |body|
        ensures !body[j].RowCountElement?
      {
        if j < last {
          assert body[j] == init[j];
        }
      }
      assert body[i] == init[i];
    }
  }

  /** Reading one more node of the stream. */
  lemma NextNode(body: seq<Event>, i: int)
    requires 0 <= i < |body|
    ensures Rows(body[..i + 1]) == Rows(body[..i]) + (if body[i].RowElement? then [body[i].row] else [])
    ensures LastRowCountText(body[..i + 1])
              == if body[i].RowCountElement? then Some(body[i].text) else LastRowCountText(body[..i])
  {
    assert body[..i + 1][..i] == body[..i];
  }
}
