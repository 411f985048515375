/**
 * Roster loading (`_load_lifeguards`): one availability state per present
 * guard, keyed by name, each pre-blocked with its lunch-plus-shower window,
 * a zero-length block at its hand-off time and the common dinner block.
 */
module Roster {
  import opened Wrappers
  import opened Entities
  import opened Settings
  import opened Availability

  /** Dinner starts at 17:00 for everyone. */
  const DinnerStart: int := 17 * 60

  /** `lifeguards.get(name)`: the position of the guard with that name. */
  function IndexOfName(gs: seq<Guard>, n: string): (r: Option<nat>)
    ensures r.Some? ==> r.value < |gs| && gs[r.value].name == n
    ensures r.Some? ==> forall j :: 0 <= j < r.value ==> gs[j].name != n
    ensures r.None? <==> forall j :: 0 <= j < |gs| ==> gs[j].name != n
  {
    if gs == [] then None
    else if gs[0].name == n then Some(0)
    else match IndexOfName(gs[1..], n)
      case None => None
      case Some(k) => Some(k + 1)
  }

  /**
   * One step of the dict comprehension `{g.name: state(g) for g in present}`:
   * a repeated name keeps its first position and takes the newer guard.
   */
  function Upsert(gs: seq<Guard>, g: Guard): seq<Guard>
  {
    match IndexOfName(gs, g.name)
    case Some(k) => gs[k := g]
    case None => gs + [g]
  }

  /** The guards of the roster dict, in its iteration order. */
  function RosterOf(present: seq<Guard>): seq<Guard>
    decreases |present|
  {
    if present == [] then []
    else Upsert(RosterOf(present[..|present| - 1]), present[|present| - 1])
  }

  /** The roster has one guard per name. */
  lemma {:induction false} RosterDistinct(present: seq<Guard>)
    ensures DistinctNames(RosterOf(present))
    decreases |present|
  {
    if present != [] {
      RosterDistinct(present[..|present| - 1]);
    }
  }

  /** A name is on the roster exactly when some present guard carries it. */
  lemma {:induction false} RosterNames(present: seq<Guard>, n: string)
    ensures (exists k :: 0 <= k < |RosterOf(present)| && RosterOf(present)[k].name == n)
        <==> (exists i :: 0 <= i < |present| && present[i].name == n)
    decreases |present|
  {
    if present != [] {
      var init := present[..|present| - 1];
      RosterNames(init, n);
      var r := RosterOf(init);
      var g := present[|present| - 1];
      if (exists i :: 0 <= i < |init| && init[i].name == n) {
        var i :| 0 <= i < |init| && init[i].name == n;
        assert present[i].name == n;
      }
      if (exists i :: 0 <= i < |present| && present[i].name == n) {
        var i :| 0 <= i < |present| && present[i].name == n;
        if i < |init| {
          assert init[i].name == n;
          var k :| 0 <= k < |r| && r[k].name == n;
          match IndexOfName(r, g.name)
          case Some(j) =>
            assert RosterOf(present)[if j == k then j else k].name == n;
          case None =>
            assert RosterOf(present)[k].name == n;
        } else {
          assert g.name == n;
          match IndexOfName(r, g.name)
          case Some(j) => assert RosterOf(present)[j].name == n;
          case None => assert RosterOf(present)[|r|].name == n;
        }
      }
    }
  }

  /** The position of the last guard with name `n`. */
  function LastWithName(gs: seq<Guard>, n: string): (r: Option<nat>)
    ensures r.Some? ==> r.value < |gs| && gs[r.value].name == n
    ensures r.Some? ==> forall j :: r.value < j < |gs| ==> gs[j].name != n
    ensures r.None? <==> forall j :: 0 <= j < |gs| ==> gs[j].name != n
  {
    if gs == [] then None
    else if gs[|gs| - 1].name == n then Some(|gs| - 1)
    else LastWithName(gs[..|gs| - 1], n)
  }

  /** The guard kept under a name is the last present guard with that name. */
  lemma {:induction false} RosterLastWins(present: seq<Guard>, k: nat)
    requires k < |RosterOf(present)|
    ensures LastWithName(present, RosterOf(present)[k].name).Some?
    ensures present[LastWithName(present, RosterOf(present)[k].name).value] == RosterOf(present)[k]
    decreases |present|
  {
    var init := present[..|present| - 1];
    var r := RosterOf(init);
    var g := present[|present| - 1];
    var out := RosterOf(present);
    assert out == Upsert(r, g);
    match IndexOfName(r, g.name)
    case Some(m) =>
      if k != m {
        RosterDistinct(init);
        assert out[k] == r[k] && r[k].name != g.name;
        RosterLastWins(init, k);
        assert LastWithName(present, r[k].name) == LastWithName(init, r[k].name);
      }
    case None =>
      if k != |r| {
        assert out[k] == r[k] && r[k].name != g.name;
        RosterLastWins(init, k);
        assert LastWithName(present, r[k].name) == LastWithName(init, r[k].name);
      }
  }

  /** The window a guard's lunch and shower take: `[lunch_at, lunch_at + lunch + shower)`. */
  function LunchWindow(lunch: int, st: Settings): Interval
  {
    Interval(lunch, lunch + st.lunchMin + st.showerMin)
  }

  function DinnerWindow(st: Settings): Interval
  {
    Interval(DinnerStart, DinnerStart + st.dinnerMin)
  }

  /** The breaks `_load_lifeguards` blocks for one guard, in the order it blocks them. */
  function LoadBreaks(g: Guard, st: Settings): seq<Interval>
  {
    (if g.lunchAt.Some? then [LunchWindow(g.lunchAt.value, st)] else []) +
    (if HasSwap(g) then [Interval(g.swapAt.value, g.swapAt.value)] else []) +
    [DinnerWindow(st)]
  }

  /**
   * What the loaded breaks exclude: the lunch window, dinner, and, for a guard
   * with a hand-off, every interval that has the hand-off time strictly inside.
   */
  lemma LoadedBreaksBlock(g: Guard, st: Settings, s: int, e: int)
    ensures ClearOf(LoadBreaks(g, st), s, e) <==>
      (g.lunchAt.Some? ==> Apart(LunchWindow(g.lunchAt.value, st), s, e)) &&
      (HasSwap(g) ==> !(s < g.swapAt.value < e)) &&
      Apart(DinnerWindow(st), s, e)
  {
    var lunch := if g.lunchAt.Some? then [LunchWindow(g.lunchAt.value, st)] else [];
    var swap := if HasSwap(g) then [Interval(g.swapAt.value, g.swapAt.value)] else [];
    var b := LoadBreaks(g, st);
    assert b == lunch + swap + [DinnerWindow(st)];
    ClearOfAllApart(b, s, e);
    assert b[|b| - 1] == DinnerWindow(st);
    if g.lunchAt.Some? {
      assert b[0] == LunchWindow(g.lunchAt.value, st);
    }
    if HasSwap(g) {
      assert b[|lunch|] == Interval(g.swapAt.value, g.swapAt.value);
    }
    assert forall k :: 0 <= k < |b| ==> b[k] in lunch || b[k] in swap || b[k] == DinnerWindow(st);
  }

  /** The guards behind a sequence of states. */
  function GuardsOf(states: seq<GuardState>): (r: seq<Guard>)
    ensures |r| == |states|
    ensures forall i :: 0 <= i < |states| ==> r[i] == states[i].guard
  {
    seq(|states|, i requires 0 <= i < |states| => states[i].guard)
  }

  /**
   * `_load_lifeguards`: builds the name-keyed states of the present guards,
   * then blocks each guard's breaks.
   */
  method LoadLifeguards(present: seq<Guard>, st: Settings) returns (states: seq<GuardState>)
    ensures GuardsOf(states) == RosterOf(present)
    ensures forall i :: 0 <= i < |states| ==> fresh(states[i])
    ensures forall i :: 0 <= i < |states| ==>
              states[i].assignments == [] && states[i].breaks == LoadBreaks(states[i].guard, st)
  {
    states := NewStates(present);
    BlockAll(states, st);
  }

  /** The dict comprehension of `_load_lifeguards`: one fresh state per name, the last guard of a name winning. */
  method NewStates(present: seq<Guard>) returns (states: seq<GuardState>)
    ensures GuardsOf(states) == RosterOf(present)
    ensures forall i :: 0 <= i < |states| ==> fresh(states[i])
    ensures forall i, j :: 0 <= i < j < |states| ==> states[i] != states[j]
    ensures forall i :: 0 <= i < |states| ==> states[i].assignments == [] && states[i].breaks == []
  {
    states := [];
    for i := 0 to |present|
      invariant GuardsOf(states) == RosterOf(present[..i])
      invariant forall k :: 0 <= k < |states| ==> fresh(states[k])
      invariant forall k :: 0 <= k < |states| ==> states[k].assignments == [] && states[k].breaks == []
    {
      assert present[..i + 1][..i] == present[..i];
      var g := present[i];
      var state := new GuardState(g);
      match IndexOfName(GuardsOf(states), g.name)
      case Some(k) =>
        states := states[k := state];
      case None =>
        states := states + [state];
    }
    assert present[..|present|] == present;
    RosterDistinct(present);
    forall a, b | 0 <= a < b < |states| ensures states[a] != states[b] {
      assert states[a].guard.name == RosterOf(present)[a].name;
      assert states[b].guard.name == RosterOf(present)[b].name;
    }
  }

  /** The blocking loop of `_load_lifeguards`. */
  method BlockAll(states: seq<GuardState>, st: Settings)
    requires forall i, j :: 0 <= i < j < |states| ==> states[i] != states[j]
    requires forall i :: 0 <= i < |states| ==> states[i].breaks == []
    modifies set i | 0 <= i < |states| :: states[i]
    ensures forall i :: 0 <= i < |states| ==>
              states[i].assignments == old(states[i].assignments) && states[i].breaks == LoadBreaks(states[i].guard, st)
  {
    for j := 0 to |states|
      invariant forall k :: 0 <= k < |states| ==> states[k].assignments == old(states[k].assignments)
      invariant forall k :: 0 <= k < j ==> states[k].breaks == LoadBreaks(states[k].guard, st)
      invariant forall k :: j <= k < |states| ==> states[k].breaks == []
    {
      BlockBreaks(states[j], st);
    }
  }

  /** The blocking half of `_load_lifeguards` for one guard: lunch and shower, the hand-off, dinner. */
  method BlockBreaks(state: GuardState, st: Settings)
    requires state.breaks == []
    modifies state
    ensures state.breaks == LoadBreaks(state.guard, st)
    ensures state.assignments == old(state.assignments)
  {
    var g := state.guard;
    if g.lunchAt.Some? {
      var w := LunchWindow(g.lunchAt.value, st);
      state.Block(w.start, w.end);
    }
    if HasSwap(g) {
      state.Block(g.swapAt.value, g.swapAt.value);
    }
    state.Block(DinnerStart, DinnerStart + st.dinnerMin);
  }
}
