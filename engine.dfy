/**
 * The daily allocation run (`AllocationEngine` in
 * backend/app/services/allocation_engine.py): for every active location in
 * the given order, cut the day into slots and fill each with the best
 * available guard; at water locations, hand out the periodic checks from the
 * round-robin queue; then replace the day's history and keep the result for
 * export.
 */
module Engine {
  import opened Wrappers
  import opened Entities
  import opened Settings
  import opened Availability
  import opened Roster
  import opened Scoring
  import opened Slots
  import opened Rotation
  import opened History

  /** One row of the flat ("long") schedule. */
  datatype Entry = Entry(location: string, start: int, end: int, assignee: string, kind: Kind)

  /** One cell of the grid ("wide") schedule: a name, `"--"`, or the text of a hand-off. */
  datatype Cell =
    | Unfilled
    | Assigned(name: string)
    | SplitCell(primary: string, start: int, swap: int, end: int, backup: string)

  /**
   * One grid row: the location, then its shift columns (`شیفت i (HH:MM-HH:MM)`)
   * and, at water locations, its check columns (`چک i`), in column order.
   * Each cell is kept with the interval its column stands for.
   */
  datatype WideRow = WideRow(location: string, shifts: seq<(Interval, Cell)>, checks: seq<(Interval, Cell)>)

  /** One `team` entry (`_guard_to_dict`). */
  datatype Member = Member(id: int, name: string, experience: string, role: string, team: Option<string>)

  /** What `allocate` returns (apart from the caption text). */
  datatype Allocation = Allocation(wide: seq<WideRow>, long: seq<Entry>, team: seq<Member>, history: seq<HistoryEntry>)

  /** `ValueError` from `int(...)` on a malformed offset, or `IndexError` from the empty check queue. */
  datatype AllocationError = MalformedCheckWindows | EmptyCheckRotation

  /** "No allocation available". */
  datatype ExportError = NoAllocation

  /** The location of a check's history row is `"چک - " + location`. */
  const CheckPrefix: string := "چک - "

  function KindOf(loc: Location): Kind
  {
    if loc.isWater then Water else General
  }

  /** The history entry the run records for one flat row. */
  function ToHistory(e: Entry): HistoryEntry
  {
    if e.kind == Check then HistoryEntry(e.assignee, CheckPrefix + e.location, e.start, e.end, Check)
    else HistoryEntry(e.assignee, e.location, e.start, e.end, e.kind)
  }

  function HistoryOf(es: seq<Entry>): (r: seq<HistoryEntry>)
    ensures |r| == |es|
    ensures forall i :: 0 <= i < |es| ==> r[i] == ToHistory(es[i])
  {
    seq(|es|, i requires 0 <= i < |es| => ToHistory(es[i]))
  }

  /** Hard exclusions of the first pass: checkers off water, leads off water that is not hard. */
  predicate Barred(g: Guard, loc: Location)
  {
    (loc.isWater && g.role == Checker) ||
    (g.role == Lead && loc.isWater && loc.difficulty != "hard")
  }

  /** The intervals the flat rows give to the guard named `n`, in order. */
  ghost function Ledger(es: seq<Entry>, n: string): seq<Interval>
  {
    if es == [] then []
    else
      var e := es[|es| - 1];
      Ledger(es[..|es| - 1], n) + (if e.assignee == n then [Interval(e.start, e.end)] else [])
  }

  lemma {:induction false} LedgerConcat(a: seq<Entry>, b: seq<Entry>, n: string)
    ensures Ledger(a + b, n) == Ledger(a, n) + Ledger(b, n)
    decreases |b|
  {
    if b == [] {
      assert a + b == a;
    } else {
      assert (a + b)[..|a + b| - 1] == a + b[..|b| - 1];
      LedgerConcat(a, b[..|b| - 1], n);
    }
  }

  lemma LedgerOne(e: Entry, n: string)
    ensures Ledger([e], n) == if e.assignee == n then [Interval(e.start, e.end)] else []
  {
    assert [e][..0] == [];
  }

  /**
   * A guard's assignments after two batches of rows: the first batch's
   * intervals, then the second's. This is `LedgerConcat` behind a prefix,
   * in the association the loops of `Engine` produce.
   */
  lemma LedgerAppend(a: seq<Interval>, b: seq<Entry>, c: seq<Entry>, n: string)
    ensures a + Ledger(b + c, n) == a + Ledger(b, n) + Ledger(c, n)
  {
    LedgerConcat(b, c, n);
  }

  function ToMember(g: Guard): Member
  {
    Member(g.id, g.name, g.experience, g.role, g.team)
  }

  function Team(gs: seq<Guard>): (r: seq<Member>)
    ensures |r| == |gs|
    ensures forall i :: 0 <= i < |gs| ==> r[i] == ToMember(gs[i])
  {
    seq(|gs|, i requires 0 <= i < |gs| => ToMember(gs[i]))
  }

  /** The flat rows a run of columns produces: one per filled cell, in column order. */
  function Filled(location: string, kind: Kind, cells: seq<(Interval, Cell)>): (r: seq<Entry>)
    ensures |r| <= |cells|
    ensures forall j :: 0 <= j < |r| ==> r[j].location == location && r[j].kind == kind
  {
    if cells == [] then []
    else
      var last := cells[|cells| - 1];
      Filled(location, kind, cells[..|cells| - 1]) +
      (if last.1.Assigned? then [Entry(location, last.0.start, last.0.end, last.1.name, kind)] else [])
  }

  lemma FilledSnoc(location: string, kind: Kind, cells: seq<(Interval, Cell)>, c: (Interval, Cell))
    ensures Filled(location, kind, cells + [c]) ==
            Filled(location, kind, cells) + (if c.1.Assigned? then [Entry(location, c.0.start, c.0.end, c.1.name, kind)] else [])
  {
    assert (cells + [c])[..|cells|] == cells;
  }

  /** Every grid cell of a location's slots is a name or `"--"`, never a hand-off text. */
  predicate NoSplit(cells: seq<(Interval, Cell)>)
  {
    forall k :: 0 <= k < |cells| ==> !cells[k].1.SplitCell?
  }

  /** The first `|cells|` slots, each with a cell that is a non-empty name or `"--"`. */
  predicate SlotColumns(cells: seq<(Interval, Cell)>, slots: seq<Interval>)
  {
    |cells| <= |slots| && NoSplit(cells) &&
    forall k :: 0 <= k < |cells| ==> cells[k].0 == slots[k] && (cells[k].1.Assigned? ==> cells[k].1.name != "")
  }

  lemma SlotColumnsSnoc(cells: seq<(Interval, Cell)>, slots: seq<Interval>, c: Cell)
    requires SlotColumns(cells, slots) && |cells| < |slots|
    requires !c.SplitCell? && (c.Assigned? ==> c.name != "")
    ensures SlotColumns(cells + [(slots[|cells|], c)], slots)
  {
  }

  /** The flat rows of one grid row: its shifts, then its checks. */
  function RowEntries(loc: Location, row: WideRow): seq<Entry>
  {
    Filled(loc.name, KindOf(loc), row.shifts) + Filled(loc.name, Check, row.checks)
  }

  /** The flat schedule the grid rows stand for, location by location. */
  function LongOf(locs: seq<Location>, wide: seq<WideRow>): seq<Entry>
    requires |locs| == |wide|
  {
    if locs == [] then []
    else
      var k := |locs| - 1;
      LongOf(locs[..k], wide[..k]) + RowEntries(locs[k], wide[k])
  }

  /** The check columns of all rows, in the order the run fills them. */
  function ChecksOf(wide: seq<WideRow>): seq<(Interval, Cell)>
  {
    if wide == [] then [] else ChecksOf(wide[..|wide| - 1]) + wide[|wide| - 1].checks
  }

  lemma LongOfSnoc(locs: seq<Location>, wide: seq<WideRow>, row: WideRow)
    requires |wide| < |locs|
    ensures LongOf(locs[..|wide| + 1], wide + [row]) ==
            LongOf(locs[..|wide|], wide) + RowEntries(locs[|wide|], row)
  {
    assert locs[..|wide| + 1][..|wide|] == locs[..|wide|];
    assert (wide + [row])[..|wide|] == wide;
  }

  lemma ChecksOfSnoc(wide: seq<WideRow>, row: WideRow)
    ensures ChecksOf(wide + [row]) == ChecksOf(wide) + row.checks
  {
    assert (wide + [row])[..|wide|] == wide;
  }

  /**
   * The check columns drawn from position `from` of the rotation on: each
   * shows `"--"` or the name `from + j + 1` places along the seed, cyclically.
   */
  ghost predicate FollowsRotation(cells: seq<(Interval, Cell)>, seed: seq<string>, from: nat)
  {
    forall j :: 0 <= j < |cells| ==>
      cells[j].1.Unfilled? ||
      (cells[j].1.Assigned? && |seed| > 0 && cells[j].1.name == Drawn(seed, from + j + 1))
  }

  lemma FollowsOne(c: (Interval, Cell), seed: seq<string>, from: nat)
    requires c.1.Unfilled? || (c.1.Assigned? && |seed| > 0 && c.1.name == Drawn(seed, from + 1))
    ensures FollowsRotation([c], seed, from)
  {
  }

  lemma FollowsConcat(a: seq<(Interval, Cell)>, b: seq<(Interval, Cell)>, seed: seq<string>, from: nat)
    requires FollowsRotation(a, seed, from) && FollowsRotation(b, seed, from + |a|)
    ensures FollowsRotation(a + b, seed, from)
  {
    forall j | |a| <= j < |a + b|
      ensures (a + b)[j] == b[j - |a|] && from + |a| + (j - |a|) + 1 == from + j + 1
    {
    }
  }

  function Min(a: int, b: int): int
  {
    if a < b then a else b
  }

  /** The interval of the check `minute` minutes after opening, cut at closing. */
  function CheckSpan(st: Settings, minute: int): Interval
  {
    Interval(st.start + minute, Min(st.start + minute + st.checkWindowLenMin, st.end))
  }

  /** The shift columns are the slots `_build_slots` cuts for the location. */
  ghost predicate Slotting(cells: seq<(Interval, Cell)>, start: int, end: int, len: int)
  {
    (start >= end ==> cells == []) &&
    (start < end ==> |cells| > 0 && cells[0].0.start == start && cells[|cells| - 1].0.end == end) &&
    (forall i :: 0 <= i < |cells| - 1 ==> cells[i].0.end == cells[i + 1].0.start) &&
    (forall i :: 0 <= i < |cells| - 1 ==> cells[i].0.end - cells[i].0.start == len) &&
    (forall i :: 0 <= i < |cells| ==> 0 < cells[i].0.end - cells[i].0.start <= len)
  }

  lemma SlottingOfSlots(cells: seq<(Interval, Cell)>, slots: seq<Interval>, start: int, end: int, len: int)
    requires |cells| == |slots| && forall k :: 0 <= k < |slots| ==> cells[k].0 == slots[k]
    requires start >= end ==> slots == []
    requires start < end ==> len > 0
    requires start < end ==> |slots| > 0 && slots[0].start == start && slots[|slots| - 1].end == end
    requires forall i :: 0 <= i < |slots| - 1 ==> slots[i].end == slots[i + 1].start
    requires forall i :: 0 <= i < |slots| - 1 ==> slots[i].end - slots[i].start == len
    requires forall i :: 0 <= i < |slots| ==> 0 < slots[i].end - slots[i].start <= len
    ensures Slotting(cells, start, end, len)
  {
  }

  /** Some location of `locs` is a water location. */
  predicate AnyWater(locs: seq<Location>)
  {
    locs != [] && (AnyWater(locs[..|locs| - 1]) || locs[|locs| - 1].isWater)
  }

  lemma {:induction false} AnyWaterExists(locs: seq<Location>)
    ensures AnyWater(locs) <==> exists k :: 0 <= k < |locs| && locs[k].isWater
  {
    if locs != [] {
      var init := locs[..|locs| - 1];
      AnyWaterExists(init);
      if exists k :: 0 <= k < |init| && init[k].isWater {
        var k :| 0 <= k < |init| && init[k].isWater;
        assert locs[k].isWater;
      }
      if exists k :: 0 <= k < |locs| && locs[k].isWater {
        var k :| 0 <= k < |locs| && locs[k].isWater;
        if k < |init| {
          assert init[k].isWater;
        }
      }
    }
  }

  lemma AnyWaterSnoc(locs: seq<Location>, k: nat)
    requires k < |locs|
    ensures AnyWater(locs[..k + 1]) <==> AnyWater(locs[..k]) || locs[k].isWater
  {
    assert locs[..k + 1][..k] == locs[..k];
  }

  lemma {:induction false} AnyWaterPrefix(locs: seq<Location>, k: nat)
    requires k <= |locs| && AnyWater(locs[..k])
    ensures AnyWater(locs)
    decreases |locs| - k
  {
    if k < |locs| {
      AnyWaterSnoc(locs, k);
      AnyWaterPrefix(locs, k + 1);
    } else {
      assert locs[..k] == locs;
    }
  }

  /** The run fails exactly when a water location is reached with unusable check settings. */
  predicate ChecksFail(st: Settings, rosterEmpty: bool)
  {
    match CheckWindows(st.checkWindowsMin)
    case None => true
    case Some(ws) => ws != [] && rosterEmpty
  }

  /**
   * The shape of one grid row: the location's name, its slots as shift
   * columns (never a hand-off, never an empty name), and one check column
   * per offset at a water location, none elsewhere.
   */
  ghost predicate RowShape(st: Settings, loc: Location, row: WideRow, windows: Option<seq<int>>)
  {
    row.location == loc.name &&
    NoSplit(row.shifts) &&
    (forall k :: 0 <= k < |row.shifts| && row.shifts[k].1.Assigned? ==> row.shifts[k].1.name != "") &&
    Slotting(row.shifts, st.start, st.end, SlotLength(loc, st)) &&
    (loc.isWater ==> windows.Some? && |row.checks| == |windows.value| &&
                     forall j :: 0 <= j < |row.checks| ==> row.checks[j].0 == CheckSpan(st, windows.value[j])) &&
    (!loc.isWater ==> row.checks == [])
  }

  /** The rows of a grid, location by location, each of the shape `RowShape` describes. */
  ghost predicate GridShape(st: Settings, locs: seq<Location>, wide: seq<WideRow>, windows: Option<seq<int>>)
  {
    |locs| == |wide| &&
    (locs != [] ==>
       GridShape(st, locs[..|locs| - 1], wide[..|wide| - 1], windows) &&
       RowShape(st, locs[|locs| - 1], wide[|wide| - 1], windows))
  }

  lemma GridShapeSnoc(st: Settings, locs: seq<Location>, wide: seq<WideRow>, row: WideRow, windows: Option<seq<int>>)
    requires |wide| < |locs| && GridShape(st, locs[..|wide|], wide, windows)
    requires RowShape(st, locs[|wide|], row, windows)
    ensures GridShape(st, locs[..|wide| + 1], wide + [row], windows)
  {
    assert locs[..|wide| + 1][..|wide|] == locs[..|wide|];
    assert (wide + [row])[..|wide|] == wide;
  }

  /** Every row of a grid of that shape has the shape of its own location. */
  lemma {:induction false} GridShapeAt(st: Settings, locs: seq<Location>, wide: seq<WideRow>, windows: Option<seq<int>>, k: nat)
    requires GridShape(st, locs, wide, windows) && k < |locs|
    ensures RowShape(st, locs[k], wide[k], windows)
    decreases |locs|
  {
    if k < |locs| - 1 {
      GridShapeAt(st, locs[..|locs| - 1], wide[..|wide| - 1], windows, k);
    }
  }

  // ---------------------------------------------------------------------
  // Selection and checks as a specification on values: the guards, the
  // settings, and each roster position's bookings.
  // ---------------------------------------------------------------------

  /** The assignments each roster position carries, position by position. */
  type Bookings = seq<seq<Interval>>

  /** Every position's bookings extended by the intervals the flat rows `es` give its guard. */
  ghost function Advance(A: Bookings, gs: seq<Guard>, es: seq<Entry>): (r: Bookings)
    ensures |r| == |A|
    ensures forall i :: 0 <= i < |A| && i < |gs| ==> r[i] == A[i] + Ledger(es, gs[i].name)
  {
    seq(|A|, i requires 0 <= i < |A| => A[i] + (if i < |gs| then Ledger(es, gs[i].name) else []))
  }

  /** Guard `i` is free over `iv`: clear of the breaks loaded for it and of its bookings. */
  ghost predicate FreeIn(gs: seq<Guard>, st: Settings, A: Bookings, i: int, iv: Interval)
  {
    0 <= i < |gs| && i < |A| &&
    ClearOf(LoadBreaks(gs[i], st), iv.start, iv.end) && ClearOf(A[i], iv.start, iv.end)
  }

  /** The key of guard `i`, its workload being the number of its bookings. */
  function KeyIn(gs: seq<Guard>, A: Bookings, i: int, loc: Location, date: string, prior: seq<HistoryRow>): Score
    requires 0 <= i < |gs| && i < |A|
  {
    ScoreGuard(gs[i], |A[i]|, loc, date, prior)
  }

  /** Guard `i` passes every filter of the first pass. */
  ghost predicate FirstIn(gs: seq<Guard>, st: Settings, A: Bookings, loc: Location, iv: Interval,
                          date: string, prior: seq<HistoryRow>, i: int)
  {
    FreeIn(gs, st, A, i, iv) &&
    LunchGate(gs, gs[i], iv.start, iv.end, st) &&
    !Barred(gs[i], loc) &&
    KeyIn(gs, A, i, loc, date, prior).rank < DisqualifiedRank
  }

  ghost function FirstSetIn(gs: seq<Guard>, st: Settings, A: Bookings, loc: Location, iv: Interval,
                            date: string, prior: seq<HistoryRow>): set<int>
  {
    set i | 0 <= i < |gs| && FirstIn(gs, st, A, loc, iv, date, prior, i)
  }

  ghost function FreeSetIn(gs: seq<Guard>, st: Settings, A: Bookings, iv: Interval): set<int>
  {
    set i | 0 <= i < |gs| && FreeIn(gs, st, A, i, iv)
  }

  /** `p` has strictly the least key of the candidates. */
  ghost predicate LeastIn(gs: seq<Guard>, A: Bookings, loc: Location, date: string, prior: seq<HistoryRow>,
                          p: int, cands: set<int>)
  {
    p in cands && 0 <= p < |gs| && p < |A| &&
    forall j :: j in cands && j != p && 0 <= j < |gs| && j < |A| ==>
      ScoreLess(KeyIn(gs, A, p, loc, date, prior), KeyIn(gs, A, j, loc, date, prior))
  }

  /**
   * `_select_guard` as a specification: no pick exactly when nobody is free;
   * otherwise the least key among the first-pass candidates, or among all
   * free guards when there are no first-pass candidates.
   */
  ghost predicate Selects(gs: seq<Guard>, st: Settings, A: Bookings, loc: Location, iv: Interval,
                          date: string, prior: seq<HistoryRow>, pick: Option<nat>)
  {
    (pick.None? <==> FreeSetIn(gs, st, A, iv) == {}) &&
    (pick.Some? ==>
       LeastIn(gs, A, loc, date, prior, pick.value,
               if FirstSetIn(gs, st, A, loc, iv, date, prior) != {} then FirstSetIn(gs, st, A, loc, iv, date, prior)
               else FreeSetIn(gs, st, A, iv)))
  }

  /** The specification leaves no choice: at most one pick meets it. */
  lemma SelectsUnique(gs: seq<Guard>, st: Settings, A: Bookings, loc: Location, iv: Interval,
                      date: string, prior: seq<HistoryRow>, p: Option<nat>, p': Option<nat>)
    requires Selects(gs, st, A, loc, iv, date, prior, p) && Selects(gs, st, A, loc, iv, date, prior, p')
    ensures p == p'
  {
    if p.Some? && p'.Some? && p.value != p'.value {
      var x := KeyIn(gs, A, p.value, loc, date, prior);
      var y := KeyIn(gs, A, p'.value, loc, date, prior);
      ScoreLessTransitive(x, y, x);
      ScoreLessIrreflexive(x);
    }
  }

  /** The grid cell of a slot given the pick: the guard's name, or `"--"` for none or an empty name. */
  function SlotCell(gs: seq<Guard>, pick: Option<nat>): Cell
  {
    if pick.Some? && pick.value < |gs| && gs[pick.value].name != "" then Assigned(gs[pick.value].name) else Unfilled
  }

  /** A slot's cell is the one the selection gives for the bookings `A`. */
  ghost predicate ShiftCellIn(gs: seq<Guard>, st: Settings, A: Bookings, loc: Location, iv: Interval,
                              date: string, prior: seq<HistoryRow>, c: Cell)
  {
    exists p :: Selects(gs, st, A, loc, iv, date, prior, p) && c == SlotCell(gs, p)
  }

  /** A check's cell: the drawn name when that guard is on the roster and free, otherwise `"--"`. */
  ghost function CheckCell(gs: seq<Guard>, st: Settings, A: Bookings, iv: Interval, name: string): Cell
  {
    match IndexOfName(gs, name)
    case Some(c) => if FreeIn(gs, st, A, c, iv) then Assigned(name) else Unfilled
    case None => Unfilled
  }

  /**
   * Each shift column is what the selection gives in the bookings left by
   * the columns before it.
   */
  ghost predicate ShiftsAsSelected(gs: seq<Guard>, st: Settings, A: Bookings, loc: Location,
                                   date: string, prior: seq<HistoryRow>, cells: seq<(Interval, Cell)>)
  {
    cells != [] ==>
      var init := cells[..|cells| - 1];
      var last := cells[|cells| - 1];
      ShiftsAsSelected(gs, st, A, loc, date, prior, init) &&
      ShiftCellIn(gs, st, Advance(A, gs, Filled(loc.name, KindOf(loc), init)), loc, last.0, date, prior, last.1)
  }

  /** A column filled by the selection in the bookings the earlier columns leave extends the row. */
  lemma ShiftsAsSelectedSnoc(gs: seq<Guard>, st: Settings, A: Bookings, loc: Location, date: string,
                             prior: seq<HistoryRow>, cells: seq<(Interval, Cell)>, slot: Interval, pick: Option<nat>)
    requires ShiftsAsSelected(gs, st, A, loc, date, prior, cells)
    requires Selects(gs, st, Advance(A, gs, Filled(loc.name, KindOf(loc), cells)), loc, slot, date, prior, pick)
    ensures ShiftsAsSelected(gs, st, A, loc, date, prior, cells + [(slot, SlotCell(gs, pick))])
  {
    assert (cells + [(slot, SlotCell(gs, pick))])[..|cells|] == cells;
  }

  /** Column `k` is the selection's cell for the bookings after columns `0..k-1`. */
  lemma {:induction false} ShiftsAsSelectedAt(gs: seq<Guard>, st: Settings, A: Bookings, loc: Location, date: string,
                                              prior: seq<HistoryRow>, cells: seq<(Interval, Cell)>, k: nat)
    requires ShiftsAsSelected(gs, st, A, loc, date, prior, cells) && k < |cells|
    ensures ShiftCellIn(gs, st, Advance(A, gs, Filled(loc.name, KindOf(loc), cells[..k])), loc, cells[k].0, date, prior, cells[k].1)
  {
    var init := cells[..|cells| - 1];
    if k < |cells| - 1 {
      ShiftsAsSelectedAt(gs, st, A, loc, date, prior, init, k);
      assert init[..k] == cells[..k] && init[k] == cells[k];
    }
  }

  /**
   * Each check column is the `CheckCell` of the name drawn for it, in the
   * bookings left by the columns before it; draws start after `from`.
   */
  ghost predicate ChecksAsDrawn(gs: seq<Guard>, st: Settings, A: Bookings, location: string,
                                cells: seq<(Interval, Cell)>, seed: seq<string>, from: nat)
  {
    cells != [] ==>
      var init := cells[..|cells| - 1];
      var last := cells[|cells| - 1];
      ChecksAsDrawn(gs, st, A, location, init, seed, from) &&
      |seed| > 0 &&
      last.1 == CheckCell(gs, st, Advance(A, gs, Filled(location, Check, init)), last.0, Drawn(seed, from + |init| + 1))
  }

  /** Bookings that are `A` grown position by position by the ledger of `es` are `Advance(A, gs, es)`. */
  lemma AdvancePointwise(A: Bookings, B: Bookings, gs: seq<Guard>, es: seq<Entry>)
    requires |B| == |A| == |gs|
    requires forall i :: 0 <= i < |A| ==> B[i] == A[i] + Ledger(es, gs[i].name)
    ensures B == Advance(A, gs, es)
  {
  }

  /** A check column holding the `CheckCell` of the next draw, in the bookings `B` the earlier columns leave, extends the row. */
  lemma ChecksAsDrawnSnoc(gs: seq<Guard>, st: Settings, A: Bookings, location: string,
                          cells: seq<(Interval, Cell)>, seed: seq<string>, from: nat,
                          B: Bookings, name: string, span: Interval, c: Cell)
    requires ChecksAsDrawn(gs, st, A, location, cells, seed, from) && |seed| > 0
    requires B == Advance(A, gs, Filled(location, Check, cells)) && name == Drawn(seed, from + |cells| + 1)
    requires c == CheckCell(gs, st, B, span, name)
    ensures ChecksAsDrawn(gs, st, A, location, cells + [(span, c)], seed, from)
  {
    assert (cells + [(span, c)])[..|cells|] == cells;
  }

  /** Check column `k` is the `CheckCell` of draw `from + k + 1` for the bookings after columns `0..k-1`. */
  lemma {:induction false} ChecksAsDrawnAt(gs: seq<Guard>, st: Settings, A: Bookings, location: string,
                                           cells: seq<(Interval, Cell)>, seed: seq<string>, from: nat, k: nat)
    requires ChecksAsDrawn(gs, st, A, location, cells, seed, from) && k < |cells|
    ensures |seed| > 0 &&
            cells[k].1 == CheckCell(gs, st, Advance(A, gs, Filled(location, Check, cells[..k])), cells[k].0, Drawn(seed, from + k + 1))
  {
    var init := cells[..|cells| - 1];
    if k < |cells| - 1 {
      ChecksAsDrawnAt(gs, st, A, location, init, seed, from, k);
      assert init[..k] == cells[..k] && init[k] == cells[k];
    }
  }

  /** Checks as drawn show each drawn name or `"--"`: they follow the rotation. */
  lemma {:induction false} DrawnFollowsRotation(gs: seq<Guard>, st: Settings, A: Bookings, location: string,
                                                cells: seq<(Interval, Cell)>, seed: seq<string>, from: nat)
    requires ChecksAsDrawn(gs, st, A, location, cells, seed, from)
    ensures FollowsRotation(cells, seed, from)
  {
    if cells != [] {
      var init := cells[..|cells| - 1];
      var last := cells[|cells| - 1];
      DrawnFollowsRotation(gs, st, A, location, init, seed, from);
      FollowsOne(last, seed, from + |init|);
      FollowsConcat(init, [last], seed, from);
      assert init + [last] == cells;
    }
  }

  /** The first `|cells|` check columns span the check offsets `windows`, in order. */
  predicate CheckColumns(st: Settings, cells: seq<(Interval, Cell)>, windows: seq<int>)
  {
    |cells| <= |windows| && forall j :: 0 <= j < |cells| ==> cells[j].0 == CheckSpan(st, windows[j])
  }

  lemma CheckColumnsSnoc(st: Settings, cells: seq<(Interval, Cell)>, windows: seq<int>, c: Cell)
    requires CheckColumns(st, cells, windows) && |cells| < |windows|
    ensures CheckColumns(st, cells + [(CheckSpan(st, windows[|cells|]), c)], windows)
  {
  }

  /** One grid row as the run fills it from bookings `A`: the shifts as selected, then the checks as drawn. */
  ghost predicate RowAsSelected(gs: seq<Guard>, st: Settings, date: string, prior: seq<HistoryRow>, A: Bookings,
                                loc: Location, row: WideRow, seed: seq<string>, from: nat)
  {
    ShiftsAsSelected(gs, st, A, loc, date, prior, row.shifts) &&
    ChecksAsDrawn(gs, st, Advance(A, gs, Filled(loc.name, KindOf(loc), row.shifts)), loc.name, row.checks, seed, from)
  }

  /** Row `k` of the grid as the run fills it, from the bookings the rows before it leave. */
  ghost predicate RowAt(gs: seq<Guard>, st: Settings, date: string, prior: seq<HistoryRow>, A: Bookings,
                        locs: seq<Location>, wide: seq<WideRow>, seed: seq<string>, k: int)
  {
    0 <= k < |locs| && k < |wide| &&
    RowAsSelected(gs, st, date, prior, Advance(A, gs, LongOf(locs[..k], wide[..k])), locs[k], wide[k], seed,
                  |ChecksOf(wide[..k])|)
  }

  /** Every row as the run fills it, from the bookings the rows before it leave. */
  ghost predicate GridAsSelected(gs: seq<Guard>, st: Settings, date: string, prior: seq<HistoryRow>, A: Bookings,
                                 locs: seq<Location>, wide: seq<WideRow>, seed: seq<string>)
  {
    |locs| == |wide| &&
    forall k :: 0 <= k < |wide| ==> RowAt(gs, st, date, prior, A, locs, wide, seed, k)
  }

  lemma GridAsSelectedSnoc(gs: seq<Guard>, st: Settings, date: string, prior: seq<HistoryRow>, A: Bookings,
                           locs: seq<Location>, wide: seq<WideRow>, seed: seq<string>, row: WideRow)
    requires |wide| < |locs| && GridAsSelected(gs, st, date, prior, A, locs[..|wide|], wide, seed)
    requires RowAsSelected(gs, st, date, prior, Advance(A, gs, LongOf(locs[..|wide|], wide)), locs[|wide|], row, seed,
                           |ChecksOf(wide)|)
    ensures GridAsSelected(gs, st, date, prior, A, locs[..|wide| + 1], wide + [row], seed)
  {
    var L, W := locs[..|wide| + 1], wide + [row];
    forall k | 0 <= k < |W|
      ensures RowAt(gs, st, date, prior, A, L, W, seed, k)
    {
      if k < |wide| {
        assert RowAt(gs, st, date, prior, A, locs[..|wide|], wide, seed, k);
        assert L[..k] == locs[..|wide|][..k] && W[..k] == wide[..k];
      } else {
        assert L[..k] == locs[..|wide|] && W[..k] == wide;
      }
    }
  }

  /** The check columns of the first `n` rows of a grid filled as the run fills it follow the rotation from its start. */
  lemma {:induction false} GridPrefixFollows(gs: seq<Guard>, st: Settings, date: string, prior: seq<HistoryRow>,
                                             A: Bookings, locs: seq<Location>, wide: seq<WideRow>, seed: seq<string>, n: nat)
    requires GridAsSelected(gs, st, date, prior, A, locs, wide, seed) && n <= |wide|
    ensures FollowsRotation(ChecksOf(wide[..n]), seed, 0)
  {
    if n > 0 {
      var k := n - 1;
      GridPrefixFollows(gs, st, date, prior, A, locs, wide, seed, k);
      assert RowAt(gs, st, date, prior, A, locs, wide, seed, k);
      var base := Advance(A, gs, LongOf(locs[..k], wide[..k]));
      DrawnFollowsRotation(gs, st, Advance(base, gs, Filled(locs[k].name, KindOf(locs[k]), wide[k].shifts)),
                           locs[k].name, wide[k].checks, seed, |ChecksOf(wide[..k])|);
      FollowsConcat(ChecksOf(wide[..k]), wide[k].checks, seed, 0);
      assert wide[..n] == wide[..k] + [wide[k]];
      ChecksOfSnoc(wide[..k], wide[k]);
    }
  }

  /** The check columns of a grid filled as the run fills it follow the rotation from its start. */
  lemma GridFollowsRotation(gs: seq<Guard>, st: Settings, date: string, prior: seq<HistoryRow>,
                            A: Bookings, locs: seq<Location>, wide: seq<WideRow>, seed: seq<string>)
    requires GridAsSelected(gs, st, date, prior, A, locs, wide, seed)
    ensures FollowsRotation(ChecksOf(wide), seed, 0)
  {
    GridPrefixFollows(gs, st, date, prior, A, locs, wide, seed, |wide|);
    assert wide[..|wide|] == wide;
  }

  /**
   * The run after its first `|wide|` locations: the grid so far has the
   * shape the settings give, `long` is its flat rows, `draws` its check
   * columns, and every row is filled as the run fills it from `A`.
   */
  ghost predicate RunSoFar(st: Settings, locs: seq<Location>, windows: Option<seq<int>>, gs: seq<Guard>,
                           date: string, prior: seq<HistoryRow>, A: Bookings, seed: seq<string>,
                           wide: seq<WideRow>, long: seq<Entry>, draws: nat)
  {
    |wide| <= |locs| &&
    GridShape(st, locs[..|wide|], wide, windows) &&
    long == LongOf(locs[..|wide|], wide) &&
    draws == |ChecksOf(wide)| &&
    GridAsSelected(gs, st, date, prior, A, locs[..|wide|], wide, seed)
  }

  /** A run past its last location has the whole grid. */
  lemma RunSoFarWhole(st: Settings, locs: seq<Location>, windows: Option<seq<int>>, gs: seq<Guard>,
                      date: string, prior: seq<HistoryRow>, A: Bookings, seed: seq<string>,
                      wide: seq<WideRow>, long: seq<Entry>, draws: nat)
    requires |wide| == |locs| && RunSoFar(st, locs, windows, gs, date, prior, A, seed, wide, long, draws)
    ensures GridShape(st, locs, wide, windows) && long == LongOf(locs, wide)
    ensures GridAsSelected(gs, st, date, prior, A, locs, wide, seed)
  {
    assert locs[..|wide|] == locs;
  }

  /** The allocation engine of one run. */
  class Engine {
    const settings: Settings
    const roster: seq<GuardState>      // the name-keyed `lifeguards` dict, in its order
    const locations: seq<Location>     // active locations, in the order the query returns them
    const date: string                 // the run's (Jalali) date key
    var longCache: seq<Entry>
    var wideCache: seq<WideRow>

    ghost function Objs(): set<GuardState>
    {
      set i | 0 <= i < |roster| :: roster[i]
    }

    function Guards(): seq<Guard>
    {
      GuardsOf(roster)
    }

    /**
     * One state per name, breaks as loaded, and no assignment overlapping
     * the guard's breaks or earlier assignments.
     */
    ghost predicate Valid()
      reads Objs()
    {
      DistinctNames(Guards()) &&
      (forall i :: 0 <= i < |roster| ==> roster[i].breaks == LoadBreaks(roster[i].guard, settings)) &&
      (forall i :: 0 <= i < |roster| ==> roster[i].Consistent())
    }

    lemma DistinctStates()
      requires DistinctNames(Guards())
      ensures forall i, j :: 0 <= i < |roster| && 0 <= j < |roster| && i != j ==> roster[i] != roster[j]
    {
      forall i, j | 0 <= i < |roster| && 0 <= j < |roster| && i != j ensures roster[i] != roster[j] {
        assert Guards()[i].name != Guards()[j].name;
      }
    }

    /** `AllocationEngine.__init__` once the settings row has been read. */
    constructor (st: Settings, present: seq<Guard>, locs: seq<Location>, day: string)
      ensures Valid() && fresh(Objs())
      ensures settings == st && locations == locs && date == day
      ensures Guards() == RosterOf(present)
      ensures forall i :: 0 <= i < |roster| ==> roster[i].assignments == []
      ensures longCache == [] && wideCache == []
    {
      var states := LoadLifeguards(present, st);
      settings := st;
      roster := states;
      locations := locs;
      date := day;
      longCache := [];
      wideCache := [];
      new;
      RosterDistinct(present);
    }

    /** `lifeguards.get(name)`. */
    function Lookup(n: string): (r: Option<nat>)
      ensures r.Some? ==> r.value < |roster| && roster[r.value].guard.name == n
      ensures r.None? <==> forall j :: 0 <= j < |roster| ==> roster[j].guard.name != n
    {
      IndexOfName(Guards(), n)
    }

    /** The score key of guard `i` for a slot of `loc`, with its current workload. */
    function ScoreOf(i: nat, loc: Location, prior: seq<HistoryRow>): Score
      requires i < |roster|
      reads roster[i]
    {
      ScoreGuard(roster[i].guard, |roster[i].assignments|, loc, date, prior)
    }

    /** Guard `i` passes every filter of the first pass of `_select_guard`. */
    ghost predicate FirstPass(loc: Location, s: int, e: int, prior: seq<HistoryRow>, i: int)
      reads Objs()
    {
      0 <= i < |roster| &&
      roster[i].IsAvailable(s, e) &&
      LunchGate(Guards(), roster[i].guard, s, e, settings) &&
      !Barred(roster[i].guard, loc) &&
      ScoreOf(i, loc, prior).rank < DisqualifiedRank
    }

    ghost predicate SecondPass(s: int, e: int, i: int)
      reads Objs()
    {
      0 <= i < |roster| && roster[i].IsAvailable(s, e)
    }

    /** `p` has strictly the least key of the candidates. */
    ghost predicate Winner(p: int, cands: set<int>, loc: Location, prior: seq<HistoryRow>)
      reads Objs()
    {
      p in cands && 0 <= p < |roster| &&
      forall j :: j in cands && j != p && 0 <= j < |roster| ==>
        ScoreLess(ScoreOf(p, loc, prior), ScoreOf(j, loc, prior))
    }

    ghost function FirstPassSet(loc: Location, s: int, e: int, prior: seq<HistoryRow>): set<int>
      reads Objs()
    {
      set i | 0 <= i < |roster| && FirstPass(loc, s, e, prior, i)
    }

    ghost function AvailableSet(s: int, e: int): set<int>
      reads Objs()
    {
      set i | 0 <= i < |roster| && SecondPass(s, e, i)
    }

    /** Each roster position's assignments, as a value. */
    ghost function Booked(): (r: Bookings)
      reads Objs()
      ensures |r| == |roster|
      ensures forall i :: 0 <= i < |roster| ==> r[i] == roster[i].assignments
    {
      seq(|roster|, i reads Objs() requires 0 <= i < |roster| => roster[i].assignments)
    }

    /** Assignments that grew by the ledger of `es` from `A` are `Advance(A, Guards(), es)`. */
    lemma BookedAdvance(A: Bookings, es: seq<Entry>)
      requires |A| == |roster|
      requires forall i :: 0 <= i < |roster| ==> roster[i].assignments == A[i] + Ledger(es, roster[i].guard.name)
      ensures Booked() == Advance(A, Guards(), es)
    {
    }

    /** In a valid roster, `IsAvailable` is `FreeIn` on the bookings. */
    lemma FreeInAvailable(i: nat, s: int, e: int)
      requires Valid() && i < |roster|
      ensures FreeIn(Guards(), settings, Booked(), i, Interval(s, e)) <==> roster[i].IsAvailable(s, e)
    {
    }

    /** The two passes of `_select_guard` and their winner are the value-level ones on `Booked()`. */
    lemma SelectionOnValues(loc: Location, s: int, e: int, prior: seq<HistoryRow>)
      requires Valid()
      ensures FirstPassSet(loc, s, e, prior) == FirstSetIn(Guards(), settings, Booked(), loc, Interval(s, e), date, prior)
      ensures AvailableSet(s, e) == FreeSetIn(Guards(), settings, Booked(), Interval(s, e))
      ensures forall i :: 0 <= i < |roster| ==> ScoreOf(i, loc, prior) == KeyIn(Guards(), Booked(), i, loc, date, prior)
    {
      forall i | 0 <= i < |roster|
        ensures FreeIn(Guards(), settings, Booked(), i, Interval(s, e)) <==> roster[i].IsAvailable(s, e)
      {
        FreeInAvailable(i, s, e);
      }
    }

    /** `_check_lunch_concurrency` for guard `i` and the slot `[s, e)`. */
    method CheckLunchConcurrency(s: int, e: int, i: nat) returns (ok: bool)
      requires i < |roster|
      ensures ok == LunchGate(Guards(), roster[i].guard, s, e, settings)
    {
      var g := roster[i].guard;
      if g.lunchAt.None? {
        return true;
      }
      var w := LunchWindow(g.lunchAt.value, settings);
      if e <= w.start || s >= w.end {
        return true;
      }
      var overlapping := 0;
      for j := 0 to |roster|
        invariant overlapping == OtherLunches(Guards()[..j], g, settings)
      {
        assert Guards()[..j + 1][..j] == Guards()[..j];
        var other := roster[j].guard;
        if other.name == g.name {
          continue;
        }
        if other.lunchAt.None? {
          continue;
        }
        var ow := LunchWindow(other.lunchAt.value, settings);
        if !(w.end <= ow.start || w.start >= ow.end) {
          overlapping := overlapping + 1;
        }
      }
      assert Guards()[..|roster|] == Guards();
      ok := overlapping < settings.maxConcurrentLunch;
    }

    /**
     * `_select_guard`. The first pass keeps the available guards that pass the
     * lunch rule and both role exclusions and are qualified; the second pass,
     * used only when the first finds none, keeps every available guard,
     * disqualified ones ranking last. The winner has the least key, which is
     * what the stable sort puts first.
     */
    method SelectGuard(loc: Location, s: int, e: int, prior: seq<HistoryRow>) returns (pick: Option<nat>)
      requires Valid()
      ensures pick.Some? ==> pick.value < |roster| && roster[pick.value].IsAvailable(s, e)
      ensures pick.None? <==> AvailableSet(s, e) == {}
      ensures FirstPassSet(loc, s, e, prior) != {} ==>
                pick.Some? && Winner(pick.value, FirstPassSet(loc, s, e, prior), loc, prior)
      ensures FirstPassSet(loc, s, e, prior) == {} && pick.Some? ==>
                Winner(pick.value, AvailableSet(s, e), loc, prior)
      ensures Selects(Guards(), settings, Booked(), loc, Interval(s, e), date, prior, pick)
    {
      DistinctStates();
      pick := FirstPassPick(loc, s, e, prior);
      if pick.None? {
        assert FirstPassSet(loc, s, e, prior) == {};
        pick := FallbackPick(loc, s, e, prior);
        if pick.Some? {
          assert pick.value in AvailableSet(s, e);
        }
      } else {
        assert pick.value in FirstPassSet(loc, s, e, prior);
        assert pick.value in AvailableSet(s, e);
      }
      SelectsOfPasses(loc, s, e, prior, pick);
    }

    /** A pick meeting the contract of `SelectGuard` meets `Selects` on `Booked()`. */
    lemma SelectsOfPasses(loc: Location, s: int, e: int, prior: seq<HistoryRow>, pick: Option<nat>)
      requires Valid()
      requires pick.Some? ==> pick.value < |roster|
      requires pick.None? <==> AvailableSet(s, e) == {}
      requires FirstPassSet(loc, s, e, prior) != {} ==>
                 pick.Some? && Winner(pick.value, FirstPassSet(loc, s, e, prior), loc, prior)
      requires FirstPassSet(loc, s, e, prior) == {} && pick.Some? ==>
                 Winner(pick.value, AvailableSet(s, e), loc, prior)
      ensures Selects(Guards(), settings, Booked(), loc, Interval(s, e), date, prior, pick)
    {
      SelectionOnValues(loc, s, e, prior);
      if pick.Some? {
        var p := pick.value;
        var C := if FirstPassSet(loc, s, e, prior) != {} then FirstPassSet(loc, s, e, prior) else AvailableSet(s, e);
        assert Winner(p, C, loc, prior);
        forall j | j in C && j != p && 0 <= j < |Guards()| && j < |Booked()|
          ensures ScoreLess(KeyIn(Guards(), Booked(), p, loc, date, prior), KeyIn(Guards(), Booked(), j, loc, date, prior))
        {
          assert ScoreLess(ScoreOf(p, loc, prior), ScoreOf(j, loc, prior));
        }
        assert LeastIn(Guards(), Booked(), loc, date, prior, p, C);
      }
    }

    /** The first pass of `_select_guard`: the least key among the guards passing every filter. */
    method FirstPassPick(loc: Location, s: int, e: int, prior: seq<HistoryRow>) returns (best: Option<nat>)
      requires DistinctNames(Guards())
      ensures best.None? ==> forall j :: 0 <= j < |roster| ==> !FirstPass(loc, s, e, prior, j)
      ensures best.Some? ==> FirstPass(loc, s, e, prior, best.value)
      ensures best.Some? ==> forall j :: 0 <= j < |roster| && j != best.value && FirstPass(loc, s, e, prior, j) ==>
                ScoreLess(ScoreOf(best.value, loc, prior), ScoreOf(j, loc, prior))
    {
      best := None;
      for i := 0 to |roster|
        invariant best.None? ==> forall j :: 0 <= j < i ==> !FirstPass(loc, s, e, prior, j)
        invariant best.Some? ==> best.value < i && FirstPass(loc, s, e, prior, best.value)
        invariant best.Some? ==> forall j :: 0 <= j < i && j != best.value && FirstPass(loc, s, e, prior, j) ==>
                    ScoreLess(ScoreOf(best.value, loc, prior), ScoreOf(j, loc, prior))
      {
        var state := roster[i];
        if !state.IsAvailable(s, e) {
          continue;
        }
        label Before:
        var lunchOk := CheckLunchConcurrency(s, e, i);
        // the check changes nothing: carry the loop's facts across the call
        forall j | 0 <= j < |roster|
          ensures FirstPass(loc, s, e, prior, j) == old@Before(FirstPass(loc, s, e, prior, j))
          ensures ScoreOf(j, loc, prior) == old@Before(ScoreOf(j, loc, prior))
        {
        }
        if !lunchOk {
          continue;
        }
        if loc.isWater && state.guard.role == Checker {
          continue;
        }
        if state.guard.role == Lead && loc.isWater && loc.difficulty != "hard" {
          continue;
        }
        var score := ScoreGuard(state.guard, |state.assignments|, loc, date, prior);
        assert score == ScoreOf(i, loc, prior);
        if score.rank < DisqualifiedRank {
          if best.None? {
            best := Some(i);
          } else if ScoreLess(ScoreOf(i, loc, prior), ScoreOf(best.value, loc, prior)) {
            forall j | 0 <= j < i && j != best.value && FirstPass(loc, s, e, prior, j)
              ensures ScoreLess(ScoreOf(i, loc, prior), ScoreOf(j, loc, prior))
            {
              ScoreLessTransitive(ScoreOf(i, loc, prior), ScoreOf(best.value, loc, prior), ScoreOf(j, loc, prior));
            }
            best := Some(i);
          } else {
            assert Guards()[best.value].name != Guards()[i].name;
            ScoreLessTotal(ScoreOf(best.value, loc, prior), ScoreOf(i, loc, prior));
          }
        }
      }
    }

    /** The second pass: the least key among all available guards, disqualified ones last. */
    method FallbackPick(loc: Location, s: int, e: int, prior: seq<HistoryRow>) returns (best: Option<nat>)
      requires DistinctNames(Guards())
      ensures best.None? ==> forall j :: 0 <= j < |roster| ==> !SecondPass(s, e, j)
      ensures best.Some? ==> SecondPass(s, e, best.value)
      ensures best.Some? ==> forall j :: 0 <= j < |roster| && j != best.value && SecondPass(s, e, j) ==>
                ScoreLess(ScoreOf(best.value, loc, prior), ScoreOf(j, loc, prior))
    {
      best := None;
      for i := 0 to |roster|
        invariant best.None? ==> forall j :: 0 <= j < i ==> !SecondPass(s, e, j)
        invariant best.Some? ==> best.value < i && SecondPass(s, e, best.value)
        invariant best.Some? ==> forall j :: 0 <= j < i && j != best.value && SecondPass(s, e, j) ==>
                    ScoreLess(ScoreOf(best.value, loc, prior), ScoreOf(j, loc, prior))
      {
        var state := roster[i];
        if !state.IsAvailable(s, e) {
          continue;
        }
        if best.None? {
          best := Some(i);
        } else if ScoreLess(ScoreOf(i, loc, prior), ScoreOf(best.value, loc, prior)) {
          forall j | 0 <= j < i && j != best.value && SecondPass(s, e, j)
            ensures ScoreLess(ScoreOf(i, loc, prior), ScoreOf(j, loc, prior))
          {
            ScoreLessTransitive(ScoreOf(i, loc, prior), ScoreOf(best.value, loc, prior), ScoreOf(j, loc, prior));
          }
          best := Some(i);
        } else {
          assert Guards()[best.value].name != Guards()[i].name;
          ScoreLessTotal(ScoreOf(best.value, loc, prior), ScoreOf(i, loc, prior));
        }
      }
    }

    /** `assign` on guard `c`, who is free over `[s, e)`: the roster stays valid. */
    method AssignGuard(c: nat, s: int, e: int)
      requires Valid() && c < |roster| && roster[c].IsAvailable(s, e)
      modifies roster[c]
      ensures Valid()
      ensures roster[c].assignments == old(roster[c].assignments) + [Interval(s, e)]
      ensures forall i :: 0 <= i < |roster| && i != c ==> roster[i].assignments == old(roster[i].assignments)
    {
      DistinctStates();
      roster[c].Assign(s, e);
    }

    /** A hand-off applies: the slot straddles the swap time and the backup is on the roster and free from then on. */
    ghost predicate HandOff(p: nat, s: int, e: int)
      requires p < |roster|
      reads Objs()
    {
      var g := roster[p].guard;
      HasSwap(g) && s < g.swapAt.value < e &&
      Lookup(g.backupName.value).Some? &&
      roster[Lookup(g.backupName.value).value].IsAvailable(g.swapAt.value, e)
    }

    /**
     * `_build_assignment` for guard `p`, already assigned the slot: on a
     * hand-off the backup takes the rest of the slot from the swap time and
     * the cell shows both halves; otherwise the primary's name.
     */
    method BuildAssignment(p: nat, loc: Location, s: int, e: int) returns (cell: Cell, entries: seq<Entry>)
      requires Valid() && p < |roster|
      modifies Objs()
      ensures Valid()
      ensures !old(HandOff(p, s, e)) ==>
                cell == Assigned(roster[p].guard.name) &&
                entries == [Entry(loc.name, s, e, roster[p].guard.name, KindOf(loc))] &&
                forall i :: 0 <= i < |roster| ==> roster[i].assignments == old(roster[i].assignments)
      ensures old(HandOff(p, s, e)) ==>
                var g := roster[p].guard;
                var w := g.swapAt.value;
                var b := Lookup(g.backupName.value).value;
                cell == SplitCell(g.name, s, w, e, g.backupName.value) &&
                entries == [Entry(loc.name, s, w, g.name, KindOf(loc)), Entry(loc.name, w, e, g.backupName.value, KindOf(loc))] &&
                roster[b].assignments == old(roster[b].assignments) + [Interval(w, e)] &&
                forall i :: 0 <= i < |roster| && i != b ==> roster[i].assignments == old(roster[i].assignments)
    {
      DistinctStates();
      var g := roster[p].guard;
      if HasSwap(g) {
        var w := g.swapAt.value;
        if s < w < e {
          match Lookup(g.backupName.value)
          case Some(b) =>
            if roster[b].IsAvailable(w, e) {
              AssignGuard(b, w, e);
              entries := [Entry(loc.name, s, w, g.name, KindOf(loc)), Entry(loc.name, w, e, roster[b].guard.name, KindOf(loc))];
              return SplitCell(g.name, s, w, e, roster[b].guard.name), entries;
            }
          case None =>
        }
      }
      entries := [Entry(loc.name, s, e, g.name, KindOf(loc))];
      cell := Assigned(g.name);
    }

    /**
     * One slot of `allocate`: the selected guard takes it, or it shows
     * `"--"` when there is none (or the name is empty, which the source
     * tests as false). The hand-off branch is never taken here: the guard
     * was free over the whole slot, and its zero-length block at the swap
     * time excludes every slot that has the swap time strictly inside.
     */
    method FillSlot(loc: Location, slot: Interval, prior: seq<HistoryRow>) returns (cell: Cell, added: seq<Entry>, ghost pick: Option<nat>)
      requires Valid()
      modifies Objs()
      ensures Valid()
      ensures !cell.SplitCell? && (cell.Assigned? ==> cell.name != "")
      ensures added == Filled(loc.name, KindOf(loc), [(slot, cell)])
      ensures forall i :: 0 <= i < |roster| ==>
                roster[i].assignments == old(roster[i].assignments) + Ledger(added, roster[i].guard.name)
      ensures Selects(Guards(), settings, old(Booked()), loc, slot, date, prior, pick)
      ensures cell == SlotCell(Guards(), pick)
    {
      var choice := SelectGuard(loc, slot.start, slot.end, prior);
      pick := choice;
      cell, added := BookSlot(loc, slot, choice);
    }

    /** The selected guard, when there is one with a non-empty name, takes the whole slot. */
    method BookSlot(loc: Location, slot: Interval, pick: Option<nat>) returns (cell: Cell, added: seq<Entry>)
      requires Valid()
      requires pick.Some? ==> pick.value < |roster| && roster[pick.value].IsAvailable(slot.start, slot.end)
      modifies Objs()
      ensures Valid()
      ensures cell == SlotCell(Guards(), pick)
      ensures added == Filled(loc.name, KindOf(loc), [(slot, cell)])
      ensures forall i :: 0 <= i < |roster| ==>
                roster[i].assignments == old(roster[i].assignments) + Ledger(added, roster[i].guard.name)
    {
      DistinctStates();
      cell := Unfilled;
      added := [];
      if pick.Some? && roster[pick.value].guard.name != "" {
        var p := pick.value;
        var g := roster[p].guard;
        assert ClearOf(roster[p].breaks, slot.start, slot.end) by {
          ClearOfAllApart(roster[p].breaks, slot.start, slot.end);
        }
        LoadedBreaksBlock(g, settings, slot.start, slot.end);
        AssignGuard(p, slot.start, slot.end);
        assert !HandOff(p, slot.start, slot.end);
        cell, added := BuildAssignment(p, loc, slot.start, slot.end);
        forall i | 0 <= i < |roster|
          ensures Ledger(added, roster[i].guard.name) == (if i == p then [slot] else [])
        {
          if i != p {
            assert Guards()[i].name != Guards()[p].name;
          }
        }
      }
      assert [(slot, cell)][..0] == [];
    }

    /** The slot loop of `allocate` for one location. */
    method FillSlots(loc: Location, slots: seq<Interval>, prior: seq<HistoryRow>) returns (cells: seq<(Interval, Cell)>, entries: seq<Entry>)
      requires Valid()
      modifies Objs()
      ensures Valid()
      ensures |cells| == |slots| && NoSplit(cells)
      ensures forall k :: 0 <= k < |slots| ==> cells[k].0 == slots[k]
      ensures forall k :: 0 <= k < |slots| && cells[k].1.Assigned? ==> cells[k].1.name != ""
      ensures entries == Filled(loc.name, KindOf(loc), cells)
      ensures forall i :: 0 <= i < |roster| ==>
                roster[i].assignments == old(roster[i].assignments) + Ledger(entries, roster[i].guard.name)
      ensures ShiftsAsSelected(Guards(), settings, old(Booked()), loc, date, prior, cells)
    {
      ghost var A0 := Booked();
      cells := [];
      entries := [];
      for k := 0 to |slots|
        invariant Valid()
        invariant |cells| == k && SlotColumns(cells, slots)
        invariant entries == Filled(loc.name, KindOf(loc), cells)
        invariant forall i :: 0 <= i < |roster| ==>
                    roster[i].assignments == old(roster[i].assignments) + Ledger(entries, roster[i].guard.name)
        invariant ShiftsAsSelected(Guards(), settings, A0, loc, date, prior, cells)
      {
        BookedAdvance(A0, entries);
        var cell, added, pick := FillSlot(loc, slots[k], prior);
        ShiftsAsSelectedSnoc(Guards(), settings, A0, loc, date, prior, cells, slots[k], pick);
        SlotColumnsSnoc(cells, slots, cell);
        FilledSnoc(loc.name, KindOf(loc), cells, (slots[k], cell));
        forall i | 0 <= i < |roster|
          ensures roster[i].assignments == old(roster[i].assignments) + Ledger(entries + added, roster[i].guard.name)
        {
          LedgerAppend(old(roster[i].assignments), entries, added, roster[i].guard.name);
        }
        cells := cells + [(slots[k], cell)];
        entries := entries + added;
      }
    }

    /**
     * The drawn guard takes the check if it is on the roster and free;
     * otherwise the column shows `"--"`.
     */
    method TakeCheck(loc: Location, span: Interval, name: string, ghost A: Bookings) returns (cell: Cell, added: seq<Entry>)
      requires Valid()
      requires |A| == |roster| && forall i :: 0 <= i < |roster| ==> roster[i].assignments == A[i]
      modifies Objs()
      ensures Valid()
      ensures cell.Unfilled? || cell == Assigned(name)
      ensures cell.Assigned? <==>
                Lookup(name).Some? && old(roster[Lookup(name).value].IsAvailable(span.start, span.end))
      ensures cell == CheckCell(Guards(), settings, A, span, name)
      ensures added == Filled(loc.name, Check, [(span, cell)])
      ensures forall i :: 0 <= i < |roster| ==>
                roster[i].assignments == old(roster[i].assignments) + Ledger(added, roster[i].guard.name)
    {
      DistinctStates();
      if Lookup(name).Some? {
        assert FreeIn(Guards(), settings, A, Lookup(name).value, span) <==>
               roster[Lookup(name).value].IsAvailable(span.start, span.end);
      }
      cell := Unfilled;
      added := [];
      assert [(span, cell)][..0] == [];
      match Lookup(name)
      case Some(c) =>
        if roster[c].IsAvailable(span.start, span.end) {
          AssignGuard(c, span.start, span.end);
          cell := Assigned(name);
          added := [Entry(loc.name, span.start, span.end, name, Check)];
          assert [(span, cell)][..0] == [];
          forall i | 0 <= i < |roster|
            ensures roster[i].assignments == old(roster[i].assignments) + Ledger(added, roster[i].guard.name)
          {
            LedgerOne(added[0], roster[i].guard.name);
            if i != c {
              assert Guards()[i].name != Guards()[c].name;
            }
          }
        }
      case None =>
    }

    /**
     * One check of `allocate`: draw the next name from the queue; that guard
     * takes the check if free, otherwise the column shows `"--"` (the queue
     * has moved on either way). An empty queue fails the draw.
     */
    method CheckOne(loc: Location, span: Interval, q: CheckQueue, ghost A: Bookings) returns (ok: bool, cell: Cell, added: seq<Entry>)
      requires Valid() && q.Valid()
      requires |A| == |roster| && forall i :: 0 <= i < |roster| ==> roster[i].assignments == A[i]
      modifies Objs(), q
      ensures Valid() && q.Valid() && |q.queue| == |old(q.queue)|
      ensures ok <==> old(q.queue) != []
      ensures ok ==> q.draws == old(q.draws) + 1
      ensures ok ==> cell.Unfilled? || (cell.Assigned? && |q.seed| > 0 && cell.name == Drawn(q.seed, q.draws))
      ensures ok ==> |q.seed| > 0 && cell == CheckCell(Guards(), settings, A, span, Drawn(q.seed, q.draws))
      ensures !ok ==> q.draws == old(q.draws) && cell.Unfilled?
      ensures added == Filled(loc.name, Check, [(span, cell)])
      ensures forall i :: 0 <= i < |roster| ==>
                roster[i].assignments == old(roster[i].assignments) + Ledger(added, roster[i].guard.name)
    {
      var drawn := q.Draw();
      if drawn.None? {
        assert [(span, Unfilled)][..0] == [];
        return false, Unfilled, [];
      }
      ok := true;
      cell, added := TakeCheck(loc, span, drawn.value, A);
    }

    /**
     * The check loop of `allocate` at a water location: one column per
     * offset, `minute` minutes after opening, each drawn from the queue.
     */
    method RunChecks(loc: Location, windows: seq<int>, q: CheckQueue) returns (ok: bool, cells: seq<(Interval, Cell)>, entries: seq<Entry>)
      requires Valid() && q.Valid()
      modifies Objs(), q
      ensures Valid() && q.Valid() && |q.queue| == |old(q.queue)|
      ensures ok <==> windows == [] || old(q.queue) != []
      ensures ok ==> |cells| == |windows| && q.draws == old(q.draws) + |windows|
      ensures ok ==> forall k :: 0 <= k < |windows| ==> cells[k].0 == CheckSpan(settings, windows[k])
      ensures ok ==> FollowsRotation(cells, q.seed, old(q.draws))
      ensures ok ==> ChecksAsDrawn(Guards(), settings, old(Booked()), loc.name, cells, q.seed, old(q.draws))
      ensures entries == Filled(loc.name, Check, cells)
      ensures forall i :: 0 <= i < |roster| ==>
                roster[i].assignments == old(roster[i].assignments) + Ledger(entries, roster[i].guard.name)
    {
      ghost var A0 := Booked();
      cells := [];
      entries := [];
      for k := 0 to |windows|
        invariant Valid() && q.Valid() && |q.queue| == |old(q.queue)|
        invariant windows != [] && k > 0 ==> old(q.queue) != []
        invariant |cells| == k && q.draws == old(q.draws) + k
        invariant CheckColumns(settings, cells, windows)
        invariant ChecksAsDrawn(Guards(), settings, A0, loc.name, cells, q.seed, old(q.draws))
        invariant entries == Filled(loc.name, Check, cells)
        invariant forall i :: 0 <= i < |roster| ==>
                    roster[i].assignments == A0[i] + Ledger(entries, roster[i].guard.name)
      {
        var span := CheckSpan(settings, windows[k]);
        var drawn, cell, added := NextCheck(loc, span, q, A0, old(q.draws), cells, entries);
        if !drawn {
          return false, cells, entries;
        }
        CheckColumnsSnoc(settings, cells, windows, cell);
        cells := cells + [(span, cell)];
        entries := entries + added;
      }
      DrawnFollowsRotation(Guards(), settings, A0, loc.name, cells, q.seed, old(q.draws));
      ok := true;
    }

    /** One more check column after `cells`, whose flat rows are `entries`, drawn `from` draws in. */
    method NextCheck(loc: Location, span: Interval, q: CheckQueue, ghost A0: Bookings, ghost from: nat,
                     ghost cells: seq<(Interval, Cell)>, ghost entries: seq<Entry>)
      returns (ok: bool, cell: Cell, added: seq<Entry>)
      requires Valid() && q.Valid() && |A0| == |roster|
      requires entries == Filled(loc.name, Check, cells) && q.draws == from + |cells|
      requires forall i :: 0 <= i < |roster| ==> roster[i].assignments == A0[i] + Ledger(entries, roster[i].guard.name)
      requires ChecksAsDrawn(Guards(), settings, A0, loc.name, cells, q.seed, from)
      modifies Objs(), q
      ensures Valid() && q.Valid() && |q.queue| == |old(q.queue)|
      ensures ok <==> old(q.queue) != []
      ensures !ok ==> q.draws == old(q.draws) && added == []
      ensures ok ==> q.draws == old(q.draws) + 1
      ensures ok ==> ChecksAsDrawn(Guards(), settings, A0, loc.name, cells + [(span, cell)], q.seed, from)
      ensures entries + added == Filled(loc.name, Check, cells + [(span, cell)])
      ensures forall i :: 0 <= i < |roster| ==>
                roster[i].assignments == A0[i] + Ledger(entries + added, roster[i].guard.name)
    {
      ghost var B := Advance(A0, Guards(), entries);
      ok, cell, added := CheckOne(loc, span, q, B);
      assert entries + added == Filled(loc.name, Check, cells + [(span, cell)]) by {
        FilledSnoc(loc.name, Check, cells, (span, cell));
      }
      if ok {
        assert ChecksAsDrawn(Guards(), settings, A0, loc.name, cells + [(span, cell)], q.seed, from) by {
          ChecksAsDrawnSnoc(Guards(), settings, A0, loc.name, cells, q.seed, from, B, Drawn(q.seed, q.draws), span, cell);
        }
      }
      forall i | 0 <= i < |roster|
        ensures roster[i].assignments == A0[i] + Ledger(entries + added, roster[i].guard.name)
      {
        LedgerAppend(A0[i], entries, added, roster[i].guard.name);
      }
    }

    /**
     * The checks of one location: none off water; at water, the offsets
     * must parse and, when there are any, the queue must be non-empty.
     */
    method LocationChecks(loc: Location, windows: Option<seq<int>>, q: CheckQueue)
      returns (r: Result<seq<(Interval, Cell)>, AllocationError>, entries: seq<Entry>)
      requires Valid() && q.Valid()
      modifies Objs(), q
      ensures Valid() && q.Valid() && |q.queue| == |old(q.queue)|
      ensures r.Err? <==> loc.isWater && (windows.None? || (windows.value != [] && old(q.queue) == []))
      ensures r.Err? ==> r.error == if windows.None? then MalformedCheckWindows else EmptyCheckRotation
      ensures r.Ok? && !loc.isWater ==> r.value == [] && q.draws == old(q.draws)
      ensures r.Ok? && loc.isWater ==>
                windows.Some? && |r.value| == |windows.value| &&
                forall j :: 0 <= j < |r.value| ==> r.value[j].0 == CheckSpan(settings, windows.value[j])
      ensures r.Ok? ==> q.draws == old(q.draws) + |r.value|
      ensures r.Ok? ==> FollowsRotation(r.value, q.seed, old(q.draws))
      ensures r.Ok? ==> ChecksAsDrawn(Guards(), settings, old(Booked()), loc.name, r.value, q.seed, old(q.draws))
      ensures r.Ok? ==> entries == Filled(loc.name, Check, r.value)
      ensures r.Ok? ==> forall i :: 0 <= i < |roster| ==>
                roster[i].assignments == old(roster[i].assignments) + Ledger(entries, roster[i].guard.name)
    {
      if !loc.isWater {
        return Ok([]), [];
      }
      if windows.None? {
        return Err(MalformedCheckWindows), [];
      }
      var ok, checks, checkEntries := RunChecks(loc, windows.value, q);
      if !ok {
        return Err(EmptyCheckRotation), [];
      }
      return Ok(checks), checkEntries;
    }

    /** The shift columns of one location: its slots, each filled in turn. */
    method LocationShifts(loc: Location, prior: seq<HistoryRow>) returns (shifts: seq<(Interval, Cell)>, entries: seq<Entry>)
      requires Valid() && (settings.start < settings.end ==> SlotLength(loc, settings) > 0)
      modifies Objs()
      ensures Valid()
      ensures Slotting(shifts, settings.start, settings.end, SlotLength(loc, settings))
      ensures NoSplit(shifts) && forall k :: 0 <= k < |shifts| && shifts[k].1.Assigned? ==> shifts[k].1.name != ""
      ensures entries == Filled(loc.name, KindOf(loc), shifts)
      ensures forall i :: 0 <= i < |roster| ==>
                roster[i].assignments == old(roster[i].assignments) + Ledger(entries, roster[i].guard.name)
      ensures ShiftsAsSelected(Guards(), settings, old(Booked()), loc, date, prior, shifts)
    {
      var len := SlotLength(loc, settings);
      var slots := BuildSlots(settings.start, settings.end, len);
      shifts, entries := FillSlots(loc, slots, prior);
      SlottingOfSlots(shifts, slots, settings.start, settings.end, len);
    }

    /** The body of `allocate`'s location loop: the slots, then the checks. */
    method AllocateLocation(loc: Location, windows: Option<seq<int>>, q: CheckQueue, prior: seq<HistoryRow>)
      returns (r: Result<WideRow, AllocationError>, entries: seq<Entry>)
      requires Valid() && q.Valid() && (settings.start < settings.end ==> SlotLength(loc, settings) > 0)
      modifies Objs(), q
      ensures Valid() && q.Valid() && |q.queue| == |old(q.queue)|
      ensures r.Err? <==> loc.isWater && (windows.None? || (windows.value != [] && old(q.queue) == []))
      ensures r.Err? ==> r.error == if windows.None? then MalformedCheckWindows else EmptyCheckRotation
      ensures r.Ok? ==> RowShape(settings, loc, r.value, windows)
      ensures r.Ok? ==> q.draws == old(q.draws) + |r.value.checks|
      ensures r.Ok? ==> FollowsRotation(r.value.checks, q.seed, old(q.draws))
      ensures r.Ok? ==> RowAsSelected(Guards(), settings, date, prior, old(Booked()), loc, r.value, q.seed, old(q.draws))
      ensures r.Ok? ==> entries == RowEntries(loc, r.value)
      ensures r.Ok? ==> forall i :: 0 <= i < |roster| ==>
                roster[i].assignments == old(roster[i].assignments) + Ledger(entries, roster[i].guard.name)
    {
      ghost var A0 := Booked();
      var shifts, slotEntries := LocationShifts(loc, prior);
      ghost var A1 := Booked();
      assert A1 == Advance(A0, Guards(), Filled(loc.name, KindOf(loc), shifts)) by {
        AdvancePointwise(A0, A1, Guards(), slotEntries);
      }
      var checks, checkEntries := LocationChecks(loc, windows, q);
      if checks.Err? {
        return Err(checks.error), [];
      }
      forall i | 0 <= i < |roster|
        ensures roster[i].assignments == old(roster[i].assignments) + Ledger(slotEntries + checkEntries, roster[i].guard.name)
      {
        LedgerAppend(old(roster[i].assignments), slotEntries, checkEntries, roster[i].guard.name);
      }
      r := Ok(WideRow(loc.name, shifts, checks.value));
      entries := slotEntries + checkEntries;
    }

    /**
     * One more location of the run: the row of `locations[|wide|]` extends
     * the grid, the flat rows and the check columns built so far.
     */
    method ExtendRun(windows: Option<seq<int>>, q: CheckQueue, prior: seq<HistoryRow>,
                     wide: seq<WideRow>, long: seq<Entry>, ghost A0: Bookings)
      returns (r: Result<WideRow, AllocationError>, entries: seq<Entry>)
      requires Valid() && q.Valid()
      requires |A0| == |roster| && forall i :: 0 <= i < |roster| ==> roster[i].assignments == A0[i] + Ledger(long, roster[i].guard.name)
      requires |wide| < |locations| && (settings.start < settings.end ==> SlotLength(locations[|wide|], settings) > 0)
      requires RunSoFar(settings, locations, windows, Guards(), date, prior, A0, q.seed, wide, long, q.draws)
      modifies Objs(), q
      ensures Valid() && q.Valid() && |q.queue| == |old(q.queue)|
      ensures r.Err? <==> locations[|wide|].isWater && (windows.None? || (windows.value != [] && old(q.queue) == []))
      ensures r.Err? ==> r.error == if windows.None? then MalformedCheckWindows else EmptyCheckRotation
      ensures r.Ok? ==> RunSoFar(settings, locations, windows, Guards(), date, prior, A0, q.seed, wide + [r.value], long + entries, q.draws)
      ensures r.Ok? ==> forall i :: 0 <= i < |roster| ==>
                roster[i].assignments == A0[i] + Ledger(long + entries, roster[i].guard.name)
    {
      ghost var B := Booked();
      assert B == Advance(A0, Guards(), LongOf(locations[..|wide|], wide)) by {
        AdvancePointwise(A0, B, Guards(), long);
      }
      r, entries := AllocateLocation(locations[|wide|], windows, q, prior);
      if r.Ok? {
        assert GridAsSelected(Guards(), settings, date, prior, A0, locations[..|wide| + 1], wide + [r.value], q.seed) by {
          GridAsSelectedSnoc(Guards(), settings, date, prior, A0, locations, wide, q.seed, r.value);
        }
        GridShapeSnoc(settings, locations, wide, r.value, windows);
        LongOfSnoc(locations, wide, r.value);
        ChecksOfSnoc(wide, r.value);
        forall i | 0 <= i < |roster|
          ensures roster[i].assignments == A0[i] + Ledger(long + entries, roster[i].guard.name)
        {
          LedgerAppend(A0[i], long, entries, roster[i].guard.name);
        }
      }
    }

    /**
     * The location loop of `allocate`, sharing one check queue `q` across
     * the water locations. It stops at the first water location reached
     * while the check offsets cannot be parsed, or while there are offsets
     * but nobody to draw.
     */
    method RunLocations(windows: Option<seq<int>>, q: CheckQueue, prior: seq<HistoryRow>, ghost A0: Bookings)
      returns (r: Result<(seq<WideRow>, seq<Entry>), AllocationError>)
      requires Valid() && q.Valid() && q.draws == 0
      requires |A0| == |roster| && forall i :: 0 <= i < |roster| ==> roster[i].assignments == A0[i]
      requires forall k :: 0 <= k < |locations| ==> (settings.start < settings.end ==> SlotLength(locations[k], settings) > 0)
      modifies Objs(), q
      ensures Valid()
      ensures r.Err? <==> (windows.None? || (windows.value != [] && old(q.queue) == [])) && AnyWater(locations)
      ensures r.Err? ==> r.error == if windows.None? then MalformedCheckWindows else EmptyCheckRotation
      ensures r.Ok? ==> |r.value.0| == |locations| &&
                        RunSoFar(settings, locations, windows, Guards(), date, prior, A0, q.seed, r.value.0, r.value.1, q.draws)
      ensures r.Ok? ==> forall i :: 0 <= i < |roster| ==>
                roster[i].assignments == A0[i] + Ledger(r.value.1, roster[i].guard.name)
    {
      var wide: seq<WideRow> := [];
      var long: seq<Entry> := [];
      for k := 0 to |locations|
        invariant Valid() && q.Valid() && |q.queue| == |old(q.queue)|
        invariant |wide| == k && RunSoFar(settings, locations, windows, Guards(), date, prior, A0, q.seed, wide, long, q.draws)
        invariant (windows.None? || (windows.value != [] && old(q.queue) == [])) ==> !AnyWater(locations[..k])
        invariant forall i :: 0 <= i < |roster| ==>
                    roster[i].assignments == A0[i] + Ledger(long, roster[i].guard.name)
      {
        var row, entries := ExtendRun(windows, q, prior, wide, long, A0);
        AnyWaterSnoc(locations, k);
        if row.Err? {
          AnyWaterPrefix(locations, k + 1);
          return Err(row.error);
        }
        wide := wide + [row.value];
        long := long + entries;
      }
      assert locations[..|locations|] == locations;
      r := Ok((wide, long));
    }

    /**
     * `allocate`: the location loop with the check queue seeded from the
     * roster, then the caches and the day's history replaced. It fails,
     * leaving history and caches as they were, exactly when some water
     * location is reached while the check offsets cannot be parsed, or
     * while there are offsets but the roster is empty.
     */
    method Allocate(table: HistoryTable) returns (r: Result<Allocation, AllocationError>)
      requires Valid()
      requires forall k :: 0 <= k < |locations| ==> (settings.start < settings.end ==> SlotLength(locations[k], settings) > 0)
      modifies this, Objs(), table
      ensures Valid()
      ensures r.Err? <==> ChecksFail(settings, roster == []) && exists k :: 0 <= k < |locations| && locations[k].isWater
      ensures r.Err? ==> r.error == if CheckWindows(settings.checkWindowsMin).None? then MalformedCheckWindows else EmptyCheckRotation
      ensures r.Err? ==> table.rows == old(table.rows) && longCache == old(longCache) && wideCache == old(wideCache)
      ensures r.Ok? ==> GridShape(settings, locations, r.value.wide, CheckWindows(settings.checkWindowsMin))
      ensures r.Ok? ==> r.value.long == LongOf(locations, r.value.wide)
      ensures r.Ok? ==> FollowsRotation(ChecksOf(r.value.wide), CheckSeed(Guards()), 0)
      ensures r.Ok? ==> GridAsSelected(Guards(), settings, date, old(table.rows), old(Booked()), locations, r.value.wide, CheckSeed(Guards()))
      ensures r.Ok? ==> r.value.history == HistoryOf(r.value.long) && r.value.team == Team(Guards())
      ensures r.Ok? ==> longCache == r.value.long && wideCache == r.value.wide
      ensures r.Ok? ==> table.rows == Replaced(old(table.rows), date, r.value.history)
      ensures r.Ok? ==> forall i :: 0 <= i < |roster| ==>
                roster[i].assignments == old(roster[i].assignments) + Ledger(r.value.long, roster[i].guard.name)
    {
      ghost var A0 := Booked();
      var run := Run(table.rows, A0);
      if run.Err? {
        return Err(run.error);
      }
      var (wide, long) := run.value;
      var history := HistoryOf(long);
      Publish(wide, long, history, table);
      r := Ok(Allocation(wide, long, Team(Guards()), history));
    }

    /** The location loop of `allocate` with a check queue seeded from the roster. */
    method Run(prior: seq<HistoryRow>, ghost A0: Bookings) returns (run: Result<(seq<WideRow>, seq<Entry>), AllocationError>)
      requires Valid()
      requires |A0| == |roster| && forall i :: 0 <= i < |roster| ==> roster[i].assignments == A0[i]
      requires forall k :: 0 <= k < |locations| ==> (settings.start < settings.end ==> SlotLength(locations[k], settings) > 0)
      modifies Objs()
      ensures Valid()
      ensures run.Err? <==> ChecksFail(settings, roster == []) && exists k :: 0 <= k < |locations| && locations[k].isWater
      ensures run.Err? ==> run.error == if CheckWindows(settings.checkWindowsMin).None? then MalformedCheckWindows else EmptyCheckRotation
      ensures run.Ok? ==> GridShape(settings, locations, run.value.0, CheckWindows(settings.checkWindowsMin))
      ensures run.Ok? ==> run.value.1 == LongOf(locations, run.value.0)
      ensures run.Ok? ==> FollowsRotation(ChecksOf(run.value.0), CheckSeed(Guards()), 0)
      ensures run.Ok? ==> GridAsSelected(Guards(), settings, date, prior, A0, locations, run.value.0, CheckSeed(Guards()))
      ensures run.Ok? ==> forall i :: 0 <= i < |roster| ==>
                roster[i].assignments == A0[i] + Ledger(run.value.1, roster[i].guard.name)
    {
      var windows := CheckWindows(settings.checkWindowsMin);
      var q := new CheckQueue(CheckSeed(Guards()));
      run := RunLocations(windows, q, prior, A0);
      assert AnyWater(locations) <==> exists k :: 0 <= k < |locations| && locations[k].isWater by {
        AnyWaterExists(locations);
      }
      if run.Ok? {
        var (wide, long) := run.value;
        assert GridShape(settings, locations, wide, windows) && long == LongOf(locations, wide) &&
               GridAsSelected(Guards(), settings, date, prior, A0, locations, wide, q.seed) by {
          RunSoFarWhole(settings, locations, windows, Guards(), date, prior, A0, q.seed, wide, long, q.draws);
        }
        assert FollowsRotation(ChecksOf(wide), q.seed, 0) by {
          GridFollowsRotation(Guards(), settings, date, prior, A0, locations, wide, q.seed);
        }
      }
    }

    /** The end of `allocate`: keep the grid and the flat rows for export, then replace the day's history. */
    method Publish(wide: seq<WideRow>, long: seq<Entry>, history: seq<HistoryEntry>, table: HistoryTable)
      modifies this, table
      ensures longCache == long && wideCache == wide
      ensures table.rows == Replaced(old(table.rows), date, history)
      ensures unchanged(Objs())
    {
      longCache := long;
      wideCache := wide;
      PersistHistory(table, history);
    }

    /** `_persist_history`: delete the run date's rows, then add one row per entry. */
    method PersistHistory(table: HistoryTable, entries: seq<HistoryEntry>)
      modifies table
      ensures table.rows == Replaced(old(table.rows), date, entries)
    {
      table.DeleteDate(date);
      for i := 0 to |entries|
        invariant table.rows == WithoutDate(old(table.rows), date) + RowsOf(date, entries[..i])
      {
        assert RowsOf(date, entries[..i + 1]) == RowsOf(date, entries[..i]) + [ToRow(date, entries[i])];
        table.Add(ToRow(date, entries[i]));
      }
      assert entries[..|entries|] == entries;
    }

    /** The empty-cache guard of `export_wide_csv`: the rows to write, or "No allocation available". */
    function ExportWide(): (r: Result<seq<WideRow>, ExportError>)
      reads this
      ensures r.Err? <==> wideCache == []
      ensures r.Ok? ==> r.value == wideCache
    {
      if wideCache == [] then Err(NoAllocation) else Ok(wideCache)
    }

    /** The empty-cache guard of `export_long_csv`. */
    function ExportLong(): (r: Result<seq<Entry>, ExportError>)
      reads this
      ensures r.Err? <==> longCache == []
      ensures r.Ok? ==> r.value == longCache
    {
      if longCache == [] then Err(NoAllocation) else Ok(longCache)
    }
  }
}
