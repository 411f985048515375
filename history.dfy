/**
 * The shift-history table (backend/app/models/shift_history.py) and the
 * replace-by-date write of `_persist_history`: the rows of the run's date are
 * deleted, then one row per history entry of the run is added.
 */
module History {

  datatype Kind = General | Water | Check

  /** One entry of a run's `history_rows` (times in minutes; HH:MM rendering is abstract). */
  datatype HistoryEntry = HistoryEntry(guard: string, location: string, start: int, end: int, kind: Kind)

  /** One persisted `ShiftHistory` row; `date` is the run's (Jalali) date key. */
  datatype HistoryRow = HistoryRow(date: string, guard: string, location: string, start: int, end: int, kind: Kind)

  function ToRow(date: string, e: HistoryEntry): HistoryRow
  {
    HistoryRow(date, e.guard, e.location, e.start, e.end, e.kind)
  }

  /** The rows `_persist_history` adds for the entries, in order. */
  function RowsOf(date: string, es: seq<HistoryEntry>): (r: seq<HistoryRow>)
    ensures |r| == |es|
    ensures forall i :: 0 <= i < |es| ==> r[i] == ToRow(date, es[i])
  {
    seq(|es|, i requires 0 <= i < |es| => ToRow(date, es[i]))
  }

  /** The rows of one date, in their order. */
  function OnDate(rows: seq<HistoryRow>, d: string): (r: seq<HistoryRow>)
    ensures forall x :: x in r <==> x in rows && x.date == d
  {
    if rows == [] then []
    else if rows[|rows| - 1].date == d then OnDate(rows[..|rows| - 1], d) + [rows[|rows| - 1]]
    else OnDate(rows[..|rows| - 1], d)
  }

  /** The rows of every other date, in their order (what `existing.delete()` leaves). */
  function WithoutDate(rows: seq<HistoryRow>, d: string): (r: seq<HistoryRow>)
    ensures forall x :: x in r <==> x in rows && x.date != d
  {
    if rows == [] then []
    else if rows[|rows| - 1].date != d then WithoutDate(rows[..|rows| - 1], d) + [rows[|rows| - 1]]
    else WithoutDate(rows[..|rows| - 1], d)
  }

  /** The table after a run for date `d` has persisted its entries `es`. */
  function Replaced(rows: seq<HistoryRow>, d: string, es: seq<HistoryEntry>): seq<HistoryRow>
  {
    WithoutDate(rows, d) + RowsOf(d, es)
  }

  lemma {:induction false} OnDateConcat(a: seq<HistoryRow>, b: seq<HistoryRow>, d: string)
    ensures OnDate(a + b, d) == OnDate(a, d) + OnDate(b, d)
    decreases |b|
  {
    if b == [] {
      assert a + b == a;
    } else {
      assert (a + b)[..|a + b| - 1] == a + b[..|b| - 1];
      OnDateConcat(a, b[..|b| - 1], d);
    }
  }

  lemma {:induction false} OnDateOfWithout(rows: seq<HistoryRow>, d: string, d': string)
    ensures OnDate(WithoutDate(rows, d), d') == if d == d' then [] else OnDate(rows, d')
  {
    if rows != [] {
      var init := rows[..|rows| - 1];
      OnDateOfWithout(init, d, d');
      if rows[|rows| - 1].date != d {
        OnDateConcat(WithoutDate(init, d), [rows[|rows| - 1]], d');
      }
    }
  }

  lemma {:induction false} OnDateAll(rows: seq<HistoryRow>, d: string)
    requires forall i :: 0 <= i < |rows| ==> rows[i].date == d
    ensures OnDate(rows, d) == rows
  {
    if rows != [] {
      OnDateAll(rows[..|rows| - 1], d);
    }
  }

  lemma {:induction false} OnDateNone(rows: seq<HistoryRow>, d: string)
    requires forall i :: 0 <= i < |rows| ==> rows[i].date != d
    ensures OnDate(rows, d) == []
  {
    if rows != [] {
      OnDateNone(rows[..|rows| - 1], d);
    }
  }

  /** After the replace, the rows of the run's date are exactly the run's entries. */
  lemma ReplacedOnDate(rows: seq<HistoryRow>, d: string, es: seq<HistoryEntry>)
    ensures OnDate(Replaced(rows, d, es), d) == RowsOf(d, es)
    ensures |OnDate(Replaced(rows, d, es), d)| == |es|
  {
    OnDateConcat(WithoutDate(rows, d), RowsOf(d, es), d);
    OnDateOfWithout(rows, d, d);
    OnDateAll(RowsOf(d, es), d);
  }

  /** After the replace, the rows of every other date are untouched. */
  lemma ReplacedOtherDates(rows: seq<HistoryRow>, d: string, es: seq<HistoryEntry>, d': string)
    requires d' != d
    ensures OnDate(Replaced(rows, d, es), d') == OnDate(rows, d')
  {
    OnDateConcat(WithoutDate(rows, d), RowsOf(d, es), d');
    OnDateOfWithout(rows, d, d');
    OnDateNone(RowsOf(d, es), d');
  }

  lemma {:induction false} WithoutDateTwice(rows: seq<HistoryRow>, d: string, extra: seq<HistoryRow>)
    requires forall i :: 0 <= i < |extra| ==> extra[i].date == d
    ensures WithoutDate(rows + extra, d) == WithoutDate(rows, d)
    decreases |extra|
  {
    if extra == [] {
      assert rows + extra == rows;
    } else {
      assert (rows + extra)[..|rows + extra| - 1] == rows + extra[..|extra| - 1];
      WithoutDateTwice(rows, d, extra[..|extra| - 1]);
    }
  }

  lemma {:induction false} WithoutDateIdempotent(rows: seq<HistoryRow>, d: string)
    ensures WithoutDate(WithoutDate(rows, d), d) == WithoutDate(rows, d)
  {
    if rows != [] {
      var init := rows[..|rows| - 1];
      WithoutDateIdempotent(init, d);
      if rows[|rows| - 1].date != d {
        var w := WithoutDate(init, d) + [rows[|rows| - 1]];
        assert w[..|w| - 1] == WithoutDate(init, d);
      }
    }
  }

  /**
   * Re-running for the same date supersedes the first run completely: the
   * table is as if only the second run had been persisted.
   */
  lemma ReplacedTwice(rows: seq<HistoryRow>, d: string, first: seq<HistoryEntry>, second: seq<HistoryEntry>)
    ensures Replaced(Replaced(rows, d, first), d, second) == Replaced(rows, d, second)
  {
    WithoutDateTwice(WithoutDate(rows, d), d, RowsOf(d, first));
    WithoutDateIdempotent(rows, d);
  }

  /** The anti-repetition query: a row for this date, guard and location exists. */
  predicate Repeated(rows: seq<HistoryRow>, date: string, guard: string, location: string)
  {
    exists r :: r in rows && r.date == date && r.guard == guard && r.location == location
  }

  /** The `ShiftHistory` table. */
  class HistoryTable {
    var rows: seq<HistoryRow>

    constructor (initial: seq<HistoryRow>)
      ensures rows == initial
    {
      rows := initial;
    }

    /** `query(...).filter(date_jalali == d).delete()`. */
    method DeleteDate(d: string)
      modifies this
      ensures rows == WithoutDate(old(rows), d)
    {
      rows := WithoutDate(rows, d);
    }

    /** `session.add(row)`. */
    method Add(row: HistoryRow)
      modifies this
      ensures rows == old(rows) + [row]
    {
      rows := rows + [row];
    }
  }
}
