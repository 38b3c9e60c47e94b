/** Handing rows to a consumer one at a time, whatever the consumer does. */
module RowFold {
  import opened Wrappers
  import opened CsvRows

  /** The consumer's state after all rows, or its first refusal. */
  function Feed<S, E>(step: (S, Row) -> Result<S, E>, st: S, rows: seq<Row>): Result<S, E> {
    if rows == [] then Ok(st)
    else
      var next :- step(st, rows[0]);
      Feed(step, next, rows[1..])
  }

  /** What a scan amounts to: the first refused row decides, then a bad ending. */
  function Judge<S, E>(step: (S, Row) -> Result<S, E>, st: S, scan: Scan, bad: Outcome -> Option<E>): Result<S, E> {
    var end :- Feed(step, st, scan.rows);
    match bad(scan.outcome)
    case Some(e) => Err(e)
    case None => Ok(end)
  }

  lemma JudgeEmit<S, E>(step: (S, Row) -> Result<S, E>, st: S, row: Row, rest: Scan, bad: Outcome -> Option<E>)
    ensures Judge(step, st, Emit(row, rest), bad) == match step(st, row)
                                                     case Ok(next) => Judge(step, next, rest, bad)
                                                     case Err(e) => Err(e)
  {
    assert Emit(row, rest).rows[1..] == rest.rows;
  }

  lemma {:induction false} FeedAppend<S, E>(step: (S, Row) -> Result<S, E>, st: S, a: seq<Row>, b: seq<Row>)
    ensures Feed(step, st, a + b) == match Feed(step, st, a)
                                     case Ok(mid) => Feed(step, mid, b)
                                     case Err(e) => Err(e)
    decreases |a|
  {
    if a == [] {
      assert a + b == b;
    } else {
      assert (a + b)[1..] == a[1..] + b;
      var next := step(st, a[0]);
      if next.Ok? {
        FeedAppend(step, next.value, a[1..], b);
      }
    }
  }

  /** Feeding rows fails only as some row does. */
  lemma {:induction false} FeedErrorIsAStep<S(!new), E>(step: (S, Row) -> Result<S, E>, st: S, rows: seq<Row>, e: E)
    requires forall s, row :: step(s, row) != Err(e)
    ensures Feed(step, st, rows) != Err(e)
    decreases |rows|
  {
    if rows != [] && step(st, rows[0]).Ok? {
      FeedErrorIsAStep(step, step(st, rows[0]).value, rows[1..], e);
    }
  }

  /** A refused complete row refuses the input, whatever follows it. */
  lemma RefusedPrefix<S, E>(step: (S, Row) -> Result<S, E>, st: S, p: string, t: string, bad: Outcome -> Option<E>)
    requires EndsAtRow(p, Start, true) && Feed(step, st, ScanRows(p).rows).Err?
    ensures Judge(step, st, ScanRows(p + t), bad) == Err(Feed(step, st, ScanRows(p).rows).error)
  {
    RowsOfPrefix(p, t, Start, "", [], true);
    FeedAppend(step, st, ScanRows(p).rows, ScanRows(AfterBreak(p, t)).rows);
  }

  // ----- Consumers that collect -----------------------------------------

  /** The rows that hold data, in order. */
  function DataRows(rows: seq<Row>, blank: Row -> bool): seq<Row> {
    if rows == [] then []
    else (if blank(rows[0]) then [] else [rows[0]]) + DataRows(rows[1..], blank)
  }

  /** Each row reads as the value at its place. */
  predicate Reads<T(==)>(rows: seq<Row>, read: Row -> Option<T>, values: seq<T>) {
    |rows| == |values| && forall i | 0 <= i < |rows| :: read(rows[i]) == Some(values[i])
  }

  /** A blank row adds nothing and any other row adds what it reads as. */
  predicate Extends<T(==)>(before: seq<T>, after: seq<T>, row: Row, blank: Row -> bool, read: Row -> Option<T>) {
    if blank(row) then after == before
    else read(row).Some? && after == before + [read(row).value]
  }

  /** A collecting consumer ends with what it had and one value per data row. */
  lemma {:induction false} Collects<S(!new), E, T>(
      step: (S, Row) -> Result<S, E>, st: S, rows: seq<Row>, good: S -> bool, values: S -> seq<T>, blank: Row -> bool,
      read: Row -> Option<T>) returns (added: seq<T>)
    requires good(st) && Feed(step, st, rows).Ok?
    requires forall s, row | good(s) && step(s, row).Ok? ::
               good(step(s, row).value) && Extends(values(s), values(step(s, row).value), row, blank, read)
    ensures good(Feed(step, st, rows).value)
    ensures values(Feed(step, st, rows).value) == values(st) + added && Reads(DataRows(rows, blank), read, added)
    decreases |rows|
  {
    if rows == [] {
      added := [];
    } else {
      var next := step(st, rows[0]).value;
      var more := Collects(step, next, rows[1..], good, values, blank, read);
      added := (if blank(rows[0]) then [] else [read(rows[0]).value]) + more;
    }
  }
}
