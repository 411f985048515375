/**
 * Slot generation (`_build_slots`): the operating window cut into slots of the
 * location's length, the last one cut short at the window's close.
 */
module Slots {
  import opened Availability
  import opened Arith

  /**
   * `n * len` by repeated addition, so that the loop invariants of
   * `BuildSlots` stay linear; `MulIsTimes` relates it to `*`.
   */
  function Mul(n: nat, len: int): int
  {
    if n == 0 then 0 else Mul(n - 1, len) + len
  }

  lemma {:induction false} MulIsTimes(n: nat, len: int)
    ensures Mul(n, len) == n * len
  {
    if n > 0 {
      MulIsTimes(n - 1, len);
      assert n * len == (n - 1) * len + len;
    }
  }

  lemma SlotCount(n: nat, len: int, d: int)
    requires len > 0 && n >= 1
    requires Mul(n - 1, len) < d <= Mul(n, len)
    ensures (n - 1) * len < d <= n * len
    ensures n == (d + len - 1) / len
  {
    MulIsTimes(n, len);
    MulIsTimes(n - 1, len);
    CeilDiv(d, len, n);
  }

  /** `_build_slots` on the window `[start, end)` with slot length `len`. */
  method BuildSlots(start: int, end: int, len: int) returns (slots: seq<Interval>)
    requires start < end ==> len > 0
    ensures start >= end ==> slots == []
    ensures start < end ==> (|slots| - 1) * len < end - start <= |slots| * len
    ensures start < end ==> |slots| == (end - start + len - 1) / len
    ensures start < end ==> |slots| > 0 && slots[0].start == start && slots[|slots| - 1].end == end
    ensures forall i :: 0 <= i < |slots| - 1 ==> slots[i].end == slots[i + 1].start
    ensures forall i :: 0 <= i < |slots| - 1 ==> slots[i].end - slots[i].start == len
    ensures forall i :: 0 <= i < |slots| ==> 0 < slots[i].end - slots[i].start <= len
  {
    slots := [];
    var cur := start;
    while cur < end
      invariant |slots| == 0 ==> cur == start
      invariant |slots| > 0 ==> start < end && cur <= end
      invariant |slots| > 0 ==> slots[0].start == start && slots[|slots| - 1].end == cur
      invariant forall i :: 0 <= i < |slots| - 1 ==> slots[i].end == slots[i + 1].start
      invariant forall i :: 0 <= i < |slots| - 1 ==> slots[i].end - slots[i].start == len
      invariant forall i :: 0 <= i < |slots| ==> 0 < slots[i].end - slots[i].start <= len
      invariant |slots| > 0 && cur < end ==> slots[|slots| - 1].end - slots[|slots| - 1].start == len
      invariant cur - start <= Mul(|slots|, len)
      invariant |slots| > 0 ==> Mul(|slots| - 1, len) < cur - start
      invariant cur < end ==> cur - start == Mul(|slots|, len)
      decreases end - cur
    {
      var next := if cur + len < end then cur + len else end;
      slots := slots + [Interval(cur, next)];
      cur := next;
    }
    if start < end {
      SlotCount(|slots|, len, end - start);
    }
  }

  /** Slots that follow one another without gaps and each have positive length. */
  ghost predicate Contiguous(slots: seq<Interval>)
  {
    (forall i :: 0 <= i < |slots| - 1 ==> slots[i].end == slots[i + 1].start) &&
    (forall i :: 0 <= i < |slots| ==> slots[i].start < slots[i].end)
  }

  predicate Covers(iv: Interval, t: int)
  {
    iv.start <= t < iv.end
  }

  lemma {:induction false} ContiguousOrdered(slots: seq<Interval>, i: int, j: int)
    requires Contiguous(slots) && 0 <= i < j < |slots|
    ensures slots[i].end <= slots[j].start
    decreases j - i
  {
    if i + 1 < j {
      ContiguousOrdered(slots, i + 1, j);
    }
  }

  lemma {:induction false} ContiguousCover(slots: seq<Interval>, t: int)
    requires Contiguous(slots) && |slots| > 0
    requires slots[0].start <= t < slots[|slots| - 1].end
    ensures exists i :: 0 <= i < |slots| && Covers(slots[i], t)
  {
    if t >= slots[0].end {
      var rest := slots[1..];
      assert Contiguous(rest) by {
        forall i | 0 <= i < |rest| - 1 ensures rest[i].end == rest[i + 1].start {
          assert rest[i] == slots[i + 1] && rest[i + 1] == slots[i + 2];
        }
      }
      ContiguousCover(rest, t);
      var i :| 0 <= i < |rest| && Covers(rest[i], t);
      assert Covers(slots[i + 1], t);
    } else {
      assert Covers(slots[0], t);
    }
  }

  /**
   * The slots of a window cover every minute of it exactly once, and no
   * minute outside it.
   */
  lemma SlotsPartitionWindow(slots: seq<Interval>, start: int, end: int, t: int)
    requires Contiguous(slots) && start < end
    requires |slots| > 0 && slots[0].start == start && slots[|slots| - 1].end == end
    ensures start <= t < end ==> exists i :: 0 <= i < |slots| && Covers(slots[i], t)
    ensures forall i, j :: 0 <= i < |slots| && 0 <= j < |slots| && Covers(slots[i], t) && Covers(slots[j], t) ==> i == j
    ensures forall i :: 0 <= i < |slots| && Covers(slots[i], t) ==> start <= t < end
  {
    if start <= t < end {
      ContiguousCover(slots, t);
    }
    forall i, j | 0 <= i < |slots| && 0 <= j < |slots| && Covers(slots[i], t) && Covers(slots[j], t)
      ensures i == j
    {
      if i < j { ContiguousOrdered(slots, i, j); }
      if j < i { ContiguousOrdered(slots, j, i); }
    }
    forall i | 0 <= i < |slots| && Covers(slots[i], t) ensures start <= t < end {
      if 0 < i { ContiguousOrdered(slots, 0, i); }
      if i < |slots| - 1 { ContiguousOrdered(slots, i, |slots| - 1); }
    }
  }
}
