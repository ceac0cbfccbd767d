/** The bulk insert of event rows (picolytics/db/copyfrom.go): the cursor pgx drives, and the
    positional encoding of a row that its column list decodes. */
module CopyFrom {
  import opened Wrappers

  /** `CreateEventsParams`, and at the same time the columns of an `events` row that are not
      generated by the database. */
  datatype EventRow = EventRow(
    domainId: nat, sessionId: nat, visitorId: string,
    name: string, path: string, referrer: string, loadTime: int, ttfb: int)

  datatype Cell = Number(n: int) | Text(s: string)

  /** The column list `CreateEvents` hands to CopyFrom. */
  const COLUMNS: seq<string> :=
    ["domain_id", "session_id", "visitor_id", "name", "path", "referrer", "load_time", "ttfb"]

  function Values(row: EventRow): seq<Cell> {
    [Number(row.domainId), Number(row.sessionId), Text(row.visitorId), Text(row.name),
     Text(row.path), Text(row.referrer), Number(row.loadTime), Number(row.ttfb)]
  }

  /** The cell COPY stores in a column: the one at the position of that name in the column list. */
  function CellOf(column: string, columns: seq<string>, cells: seq<Cell>): Option<Cell> {
    if columns == [] || cells == [] then None
    else if columns[0] == column then Some(cells[0])
    else CellOf(column, columns[1..], cells[1..])
  }

  ghost predicate Stores(columns: seq<string>, cells: seq<Cell>, row: EventRow) {
    && CellOf("domain_id", columns, cells) == Some(Number(row.domainId))
    && CellOf("session_id", columns, cells) == Some(Number(row.sessionId))
    && CellOf("visitor_id", columns, cells) == Some(Text(row.visitorId))
    && CellOf("name", columns, cells) == Some(Text(row.name))
    && CellOf("path", columns, cells) == Some(Text(row.path))
    && CellOf("referrer", columns, cells) == Some(Text(row.referrer))
    && CellOf("load_time", columns, cells) == Some(Number(row.loadTime))
    && CellOf("ttfb", columns, cells) == Some(Number(row.ttfb))
  }

  lemma {:induction false} CellAt(columns: seq<string>, cells: seq<Cell>, k: nat)
    requires k < |columns| == |cells|
    requires forall i | 0 <= i < k :: columns[i] != columns[k]
    ensures CellOf(columns[k], columns, cells) == Some(cells[k])
  {
    if k > 0 {
      CellAt(columns[1..], cells[1..], k - 1);
    }
  }

  /** The positional encoding and the column list fit: every cell lands in its own column, and the
      stored row determines the original. */
  lemma {:induction false} ValuesFitColumns(row: EventRow, stored: EventRow)
    ensures Stores(COLUMNS, Values(row), stored) <==> stored == row
  {
    var cells := Values(row);
    CellAt(COLUMNS, cells, 0);
    CellAt(COLUMNS, cells, 1);
    CellAt(COLUMNS, cells, 2);
    CellAt(COLUMNS, cells, 3);
    CellAt(COLUMNS, cells, 4);
    CellAt(COLUMNS, cells, 5);
    CellAt(COLUMNS, cells, 6);
    CellAt(COLUMNS, cells, 7);
  }

  /** `iteratorForCreateEvents`. */
  class EventsIterator {
    var rows: seq<EventRow>
    var skippedFirstNextCall: bool

    constructor (rows: seq<EventRow>)
      ensures this.rows == rows && !skippedFirstNextCall
      ensures Remaining() == rows
    {
      this.rows := rows;
      skippedFirstNextCall := false;
    }

    /** The rows no call of `Next` has announced yet. */
    ghost function Remaining(): seq<EventRow>
      reads this
    {
      if skippedFirstNextCall && rows != [] then rows[1..] else rows
    }

    /** Moves to the next unannounced row; false exactly when there is none. */
    method Next() returns (more: bool)
      modifies this
      ensures more <==> old(Remaining()) != []
      ensures more ==> rows != [] && [rows[0]] + Remaining() == old(Remaining())
      ensures !more ==> Remaining() == []
    {
      if |rows| == 0 {
        return false;
      }
      if !skippedFirstNextCall {
        skippedFirstNextCall := true;
        return true;
      }
      rows := rows[1..];
      return |rows| > 0;
    }

    method GetValues() returns (cells: seq<Cell>)
      requires rows != []
      ensures cells == Values(rows[0])
    {
      cells := [Number(rows[0].domainId), Number(rows[0].sessionId), Text(rows[0].visitorId),
                Text(rows[0].name), Text(rows[0].path), Text(rows[0].referrer),
                Number(rows[0].loadTime), Number(rows[0].ttfb)];
    }
  }

  /** How pgx drains a CopyFromSource. Every row comes out once, in order, in column order. */
  method Drain(it: EventsIterator) returns (out: seq<seq<Cell>>)
    modifies it
    ensures |out| == |old(it.Remaining())|
    ensures forall i | 0 <= i < |out| :: out[i] == Values(old(it.Remaining())[i])
    ensures it.Remaining() == []
  {
    hide Values;
    out := [];
    ghost var all := it.Remaining();
    var more := it.Next();
    while more
      invariant |out| <= |all|
      invariant more ==> it.rows != [] && all[|out|..] == [it.rows[0]] + it.Remaining()
      invariant !more ==> |out| == |all| && it.Remaining() == []
      invariant forall i | 0 <= i < |out| :: out[i] == Values(all[i])
      decreases |all| - |out|
    {
      var cells := it.GetValues();
      assert it.rows[0] == all[|out|..][0] && it.Remaining() == all[|out|..][1..];
      out := out + [cells];
      assert it.Remaining() == all[|out|..];
      more := it.Next();
    }
  }
}
