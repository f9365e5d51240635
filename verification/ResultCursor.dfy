/**
 Reading an ad-hoc result through a cursor, up to a row cap
 (backend/internal/repository/query_repository.go:102-150).
 */
module ResultCursor {
  import opened Wrappers

  type Row = seq<Option<string>>

  datatype Item = Readable(row: Row) | Unreadable

  /** What the server would deliver: column names or an error, rows, and whether it breaks off after them. */
  datatype Feed = Feed(columns: Result<seq<string>, string>, items: seq<Item>, breaks: bool)

  datatype ResultSet = ResultSet(columns: seq<string>, rows: seq<Row>, truncated: bool)

  class Cursor {
    const feed: Feed
    var position: nat
    var calls: nat
    var broken: bool

    ghost predicate Valid()
      reads this
    {
      position <= |feed.items|
    }

    constructor (feed: Feed)
      ensures Valid() && this.feed == feed && position == 0 && calls == 0 && !broken
    {
      this.feed := feed;
      position, calls, broken := 0, 0, false;
    }

    /** Steps to the next row. False at the end, and then `broken` tells a clean end from an error. */
    method Next() returns (more: bool)
      requires Valid()
      modifies this
      ensures Valid() && calls == old(calls) + 1
      ensures more <==> old(position) < |feed.items|
      ensures position == if more then old(position) + 1 else old(position)
      ensures broken == if more then old(broken) else feed.breaks
    {
      calls := calls + 1;
      more := position < |feed.items|;
      if more {
        position := position + 1;
      } else {
        broken := feed.breaks;
      }
    }

    method Scan() returns (row: Option<Row>)
      requires Valid() && position > 0
      ensures row == if feed.items[position - 1].Readable? then Some(feed.items[position - 1].row) else None
    {
      row := if feed.items[position - 1].Readable? then Some(feed.items[position - 1].row) else None;
    }
  }

  predicate AllReadable(items: seq<Item>) {
    forall i :: 0 <= i < |items| ==> items[i].Readable?
  }

  function Rows(items: seq<Item>): seq<Row>
    requires AllReadable(items)
  {
    seq(|items|, i requires 0 <= i < |items| => items[i].row)
  }

  /** The rows a cap lets through. */
  function Kept(feed: Feed, maxRows: nat): seq<Item> {
    feed.items[..if |feed.items| < maxRows then |feed.items| else maxRows]
  }

  /** Something goes wrong within the reads a capped collection makes. */
  predicate FailsWithin(feed: Feed, maxRows: nat) {
    || feed.columns.Failure?
    || !AllReadable(Kept(feed, maxRows))
    || (|feed.items| <= maxRows && feed.breaks)
  }

  /** What a cap lets through of a feed that does not fail within it: truncated exactly when there is more. */
  function Capped(feed: Feed, maxRows: nat): ResultSet
    requires !FailsWithin(feed, maxRows)
  {
    ResultSet(feed.columns.value, Rows(Kept(feed, maxRows)), |feed.items| > maxRows)
  }

  /** The rows are the first of the feed, as many as the cap allows, each as it was sent. */
  ghost predicate AreFirstRows(rows: seq<Row>, feed: Feed, maxRows: nat) {
    && |rows| == (if |feed.items| < maxRows then |feed.items| else maxRows)
    && forall i :: 0 <= i < |rows| ==> feed.items[i] == Readable(rows[i])
  }

  /** A result that says it is not truncated is the whole feed, which ended without an error. */
  predicate IsWhole(result: ResultSet, feed: Feed) {
    !result.truncated ==> |result.rows| == |feed.items| && !feed.breaks
  }

  /** Of a feed that does not fail within it, a cap makes its first rows, and the whole of it if it says so. */
  lemma CappedIs(feed: Feed, maxRows: nat)
    requires !FailsWithin(feed, maxRows)
    ensures Success(Capped(feed, maxRows).columns) == feed.columns
    ensures AreFirstRows(Capped(feed, maxRows).rows, feed, maxRows)
    ensures IsWhole(Capped(feed, maxRows), feed)
    ensures Capped(feed, maxRows).truncated <==> |feed.items| > maxRows
  {
    forall i | 0 <= i < |Kept(feed, maxRows)|
      ensures feed.items[i] == Readable(Rows(Kept(feed, maxRows))[i])
    {
      assert Kept(feed, maxRows)[i] == feed.items[i];
    }
  }

  /** What a cap can run into: no columns, a row that cannot be read among those it keeps, or a break where it reads to the end. */
  lemma FailsWithinIff(feed: Feed, maxRows: nat)
    ensures FailsWithin(feed, maxRows) <==>
            || feed.columns.Failure?
            || (exists i :: 0 <= i < |feed.items| && i < maxRows && feed.items[i].Unreadable?)
            || (feed.breaks && |feed.items| <= maxRows)
  {
    var kept := Kept(feed, maxRows);
    if i :| 0 <= i < |feed.items| && i < maxRows && feed.items[i].Unreadable? {
      assert kept[i].Unreadable?;
    }
    if !AllReadable(kept) {
      var i :| 0 <= i < |kept| && !kept[i].Readable?;
      assert feed.items[i].Unreadable?;
    }
  }

  /**
   The first rows up to the cap, in order; truncated exactly when there are more. One look-ahead is
   all it reads beyond the cap, and errors further on go unseen.
   */
  method CollectResultSet(cursor: Cursor, maxRows: nat) returns (result: Result<ResultSet, string>)
    requires cursor.Valid() && cursor.position == 0 && cursor.calls == 0 && !cursor.broken
    modifies cursor
    ensures cursor.calls <= maxRows + 1
    ensures result.Failure? <==> FailsWithin(cursor.feed, maxRows)
    ensures result.Success? ==> result.value == Capped(cursor.feed, maxRows)
    ensures result.Success? ==>
              && AreFirstRows(result.value.rows, cursor.feed, maxRows) && IsWhole(result.value, cursor.feed)
              && Success(result.value.columns) == cursor.feed.columns
    ensures cursor.broken ==> result.Failure?
  {
    if cursor.feed.columns.Failure? {
      return Failure("read columns");
    }
    var rows: seq<Row> := [];
    var items := cursor.feed.items;
    while |rows| < maxRows
      invariant cursor.Valid() && |rows| == cursor.position == cursor.calls <= maxRows && !cursor.broken
      invariant AllReadable(items[..|rows|]) && rows == Rows(items[..|rows|])
      decreases maxRows - |rows|
    {
      var more := cursor.Next();
      if !more {
        break;
      }
      var row := cursor.Scan();
      if row.None? {
        assert Kept(cursor.feed, maxRows)[|rows|].Unreadable?;
        return Failure("scan row");
      }
      rows := rows + [row.value];
      assert items[..|rows|] == items[..|rows| - 1] + [items[|rows| - 1]];
    }
    assert items[..|rows|] == Kept(cursor.feed, maxRows);
    var truncated := false;
    if |rows| == maxRows {
      truncated := cursor.Next();
    }
    if cursor.broken {
      return Failure("rows");
    }
    CappedIs(cursor.feed, maxRows);
    return Success(ResultSet(cursor.feed.columns.value, rows, truncated));
  }
}
