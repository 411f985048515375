/**
 * Per-guard availability (`GuardState` in backend/app/services/allocation_engine.py):
 * the intervals committed to a guard during one run and the intervals blocked
 * for breaks, with the half-open overlap test that decides availability.
 */
module Availability {
  import opened Entities

  /** `[start, end)` in minutes since midnight. */
  datatype Interval = Interval(start: int, end: int)

  /** The test of `is_available` for one interval: `[s, e)` does not overlap `iv`. */
  predicate Apart(iv: Interval, s: int, e: int)
  {
    e <= iv.start || s >= iv.end
  }

  /** One loop of `is_available`: false at the first interval that overlaps `[s, e)`. */
  function ClearOf(ivs: seq<Interval>, s: int, e: int): bool
  {
    if ivs == [] then true
    else if !Apart(ivs[0], s, e) then false
    else ClearOf(ivs[1..], s, e)
  }

  lemma {:induction false} ClearOfAllApart(ivs: seq<Interval>, s: int, e: int)
    ensures ClearOf(ivs, s, e) <==> forall k :: 0 <= k < |ivs| ==> Apart(ivs[k], s, e)
  {
    if ivs != [] {
      ClearOfAllApart(ivs[1..], s, e);
      assert forall k :: 1 <= k < |ivs| ==> ivs[k] == ivs[1..][k - 1];
    }
  }

  /**
   * Assignments made one after another as `is_available` allows: each
   * overlaps no break and none of the assignments before it.
   */
  ghost predicate FreeWhenMade(breaks: seq<Interval>, assignments: seq<Interval>)
  {
    assignments != [] ==>
      var last := assignments[|assignments| - 1];
      var before := assignments[..|assignments| - 1];
      FreeWhenMade(breaks, before) && ClearOf(breaks, last.start, last.end) && ClearOf(before, last.start, last.end)
  }

  /** Each assignment overlaps no break and no earlier assignment. */
  lemma {:induction false} FreeWhenMadeAt(breaks: seq<Interval>, assignments: seq<Interval>, k: nat)
    requires FreeWhenMade(breaks, assignments) && k < |assignments|
    ensures ClearOf(breaks, assignments[k].start, assignments[k].end)
    ensures ClearOf(assignments[..k], assignments[k].start, assignments[k].end)
    decreases |assignments|
  {
    var before := assignments[..|assignments| - 1];
    if k < |before| {
      FreeWhenMadeAt(breaks, before, k);
      assert before[k] == assignments[k] && before[..k] == assignments[..k];
    }
  }

  class GuardState {
    const guard: Guard
    var assignments: seq<Interval>
    var breaks: seq<Interval>

    constructor (g: Guard)
      ensures guard == g && assignments == [] && breaks == []
    {
      guard := g;
      assignments := [];
      breaks := [];
    }

    /** `is_available`: `[s, e)` overlaps no break and no assignment. */
    function IsAvailable(s: int, e: int): (r: bool)
      reads this
      ensures r <==>
        (forall k :: 0 <= k < |breaks| ==> Apart(breaks[k], s, e)) &&
        (forall k :: 0 <= k < |assignments| ==> Apart(assignments[k], s, e))
    {
      ClearOfAllApart(breaks, s, e);
      ClearOfAllApart(assignments, s, e);
      ClearOf(breaks, s, e) && ClearOf(assignments, s, e)
    }

    /** Every assignment was free when it was made. */
    ghost predicate Consistent()
      reads this
    {
      FreeWhenMade(breaks, assignments)
    }

    /** `assign`: appends one assignment and changes nothing else. */
    method Assign(s: int, e: int)
      modifies this
      ensures assignments == old(assignments) + [Interval(s, e)]
      ensures breaks == old(breaks)
      ensures old(Consistent() && IsAvailable(s, e)) ==> Consistent()
    {
      ghost var before := assignments;
      assignments := assignments + [Interval(s, e)];
      assert assignments[..|before|] == before;
    }

    /** `block`: appends one break and changes nothing else. */
    method Block(s: int, e: int)
      modifies this
      ensures breaks == old(breaks) + [Interval(s, e)]
      ensures assignments == old(assignments)
    {
      breaks := breaks + [Interval(s, e)];
    }
  }
}
