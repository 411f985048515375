/**
 * The round-robin queue of check (inspection) duty: `check_rot`, a `deque`
 * seeded once per run, and `_rotate_check`, which rotates it left by one and
 * returns its head.
 */
module Rotation {
  import opened Wrappers
  import opened Entities
  import opened Arith

  /** `deque.rotate(-1)`. */
  function RotateLeft<T>(q: seq<T>): (r: seq<T>)
    ensures |r| == |q|
  {
    if q == [] then [] else q[1..] + [q[0]]
  }

  /** The queue after `k` rotations. */
  function RotateBy<T>(q: seq<T>, k: nat): (r: seq<T>)
    ensures |r| == |q|
  {
    if k == 0 then q else RotateLeft(RotateBy(q, k - 1))
  }

  lemma RotateLeftAt<T>(q: seq<T>, i: nat)
    requires i < |q|
    ensures RotateLeft(q)[i] == if i < |q| - 1 then q[i + 1] else q[0]
  {
  }

  /** After `k` rotations position `i` holds the seed element `k` places further on, cyclically. */
  lemma {:induction false} RotateByAt<T>(q: seq<T>, k: nat, i: nat)
    requires i < |q|
    ensures RotateBy(q, k)[i] == q[(i + k) % |q|]
  {
    var n := |q|;
    if k == 0 {
      ModUnique(i, n, 0, i);
    } else {
      var prev := RotateBy(q, k - 1);
      RotateLeftAt(prev, i);
      if i < n - 1 {
        RotateByAt(q, k - 1, i + 1);
        assert i + 1 + (k - 1) == i + k;
      } else {
        RotateByAt(q, k - 1, 0);
        ShiftMod(k - 1, n);
        assert (k - 1) + n == i + k;
      }
    }
  }

  /** The names of the guards that have role `role`, in roster order. */
  function RoleNames(gs: seq<Guard>, role: string): (r: seq<string>)
    ensures r == [] <==> forall i :: 0 <= i < |gs| ==> gs[i].role != role
    ensures forall n :: n in r ==> exists i :: 0 <= i < |gs| && gs[i].name == n && gs[i].role == role
    ensures forall i :: 0 <= i < |gs| && gs[i].role == role ==> gs[i].name in r
  {
    if gs == [] then []
    else
      var rest := RoleNames(gs[1..], role);
      RoleNamesTail(gs, role, rest);
      if gs[0].role == role then [gs[0].name] + rest else rest
  }

  /** What the filter of `gs[1..]` states, restated over `gs` from its second guard on. */
  lemma RoleNamesTail(gs: seq<Guard>, role: string, rest: seq<string>)
    requires gs != []
    requires forall n :: n in rest ==> exists i :: 0 <= i < |gs[1..]| && gs[1..][i].name == n && gs[1..][i].role == role
    requires forall i :: 0 <= i < |gs[1..]| && gs[1..][i].role == role ==> gs[1..][i].name in rest
    ensures forall n :: n in rest ==> exists i :: 1 <= i < |gs| && gs[i].name == n && gs[i].role == role
    ensures forall i :: 1 <= i < |gs| && gs[i].role == role ==> gs[i].name in rest
  {
    forall n | n in rest ensures exists i :: 1 <= i < |gs| && gs[i].name == n && gs[i].role == role {
      var j :| 0 <= j < |gs[1..]| && gs[1..][j].name == n && gs[1..][j].role == role;
      assert gs[j + 1] == gs[1..][j];
    }
    forall i | 1 <= i < |gs| && gs[i].role == role ensures gs[i].name in rest {
      assert gs[1..][i - 1] == gs[i];
    }
  }

  /** One guard contributes its name exactly when it has the role. */
  lemma RoleNamesOne(g: Guard, role: string)
    ensures RoleNames([g], role) == if g.role == role then [g.name] else []
  {
    assert [g][1..] == [];
  }

  /**
   * The role filter distributes over concatenation; with `RoleNamesOne`
   * this fixes it as the order-preserving filter of the roster.
   */
  lemma {:induction false} RoleNamesConcat(a: seq<Guard>, b: seq<Guard>, role: string)
    ensures RoleNames(a + b, role) == RoleNames(a, role) + RoleNames(b, role)
  {
    if a == [] {
      assert a + b == b;
    } else {
      assert (a + b)[1..] == a[1..] + b;
      assert (a + b)[0] == a[0];
      RoleNamesConcat(a[1..], b, role);
    }
  }

  /**
   * The seed of the check queue: all checkers, else all leads, else every
   * guard of the roster, each in roster order. It is empty only when the
   * roster is.
   */
  function CheckSeed(gs: seq<Guard>): (r: seq<string>)
    ensures r == [] <==> gs == []
    ensures forall n :: n in r ==> n in Names(gs)
    ensures (exists i :: 0 <= i < |gs| && gs[i].role == Checker) ==> r == RoleNames(gs, Checker)
    ensures (forall i :: 0 <= i < |gs| ==> gs[i].role != Checker) && (exists i :: 0 <= i < |gs| && gs[i].role == Lead) ==>
              r == RoleNames(gs, Lead)
    ensures (forall i :: 0 <= i < |gs| ==> gs[i].role != Checker && gs[i].role != Lead) ==> r == Names(gs)
  {
    var checkers := RoleNames(gs, Checker);
    if checkers != [] then checkers
    else
      var leads := RoleNames(gs, Lead);
      if leads != [] then leads
      else
        assert gs != [] ==> gs[0].name in Names(gs);
        Names(gs)
  }

  /** Which guards the seed holds: exactly the checkers, else exactly the leads, else everyone. */
  lemma CheckSeedMembers(gs: seq<Guard>, n: string)
    ensures (exists i :: 0 <= i < |gs| && gs[i].role == Checker) ==>
              (n in CheckSeed(gs) <==> exists i :: 0 <= i < |gs| && gs[i].name == n && gs[i].role == Checker)
    ensures (forall i :: 0 <= i < |gs| ==> gs[i].role != Checker) && (exists i :: 0 <= i < |gs| && gs[i].role == Lead) ==>
              (n in CheckSeed(gs) <==> exists i :: 0 <= i < |gs| && gs[i].name == n && gs[i].role == Lead)
    ensures (forall i :: 0 <= i < |gs| ==> gs[i].role != Checker && gs[i].role != Lead) ==>
              (n in CheckSeed(gs) <==> exists i :: 0 <= i < |gs| && gs[i].name == n)
  {
    if forall i :: 0 <= i < |gs| ==> gs[i].role != Checker && gs[i].role != Lead {
      if n in CheckSeed(gs) {
        var k :| 0 <= k < |Names(gs)| && Names(gs)[k] == n;
        assert gs[k].name == n;
      }
    }
  }

  /** The name the `k`-th rotation puts at the head of a queue seeded with `seed`: the seed read cyclically. */
  function Drawn(seed: seq<string>, k: nat): string
    requires |seed| > 0
    decreases k
  {
    if k < |seed| then seed[k] else Drawn(seed, k - |seed|)
  }

  /** The `k`-th draw is the seed element at `k` modulo the seed's length. */
  lemma {:induction false} DrawnCyclic(seed: seq<string>, k: nat)
    requires |seed| > 0
    ensures Drawn(seed, k) == seed[k % |seed|]
    decreases k
  {
    if k < |seed| {
      ModUnique(k, |seed|, 0, k);
    } else {
      DrawnCyclic(seed, k - |seed|);
      ShiftMod(k - |seed|, |seed|);
    }
  }

  /** After `k` rotations the head of the queue is the `k`-th draw. */
  lemma RotatedHead(seed: seq<string>, k: nat)
    requires |seed| > 0
    ensures RotateBy(seed, k)[0] == Drawn(seed, k)
  {
    RotateByAt(seed, k, 0);
    DrawnCyclic(seed, k);
  }

  class CheckQueue {
    var queue: seq<string>
    ghost const seed: seq<string>
    ghost var draws: nat

    /** The queue is the seed rotated once per draw. */
    ghost predicate Valid()
      reads this
    {
      queue == RotateBy(seed, draws)
    }

    constructor (initial: seq<string>)
      ensures Valid() && seed == initial && draws == 0 && queue == initial
    {
      queue := initial;
      seed := initial;
      draws := 0;
    }

    /**
     * `_rotate_check`: rotates left by one and returns the new head, so the
     * k-th draw returns `seed[k % |seed|]` (`DrawnCyclic`). On an empty queue the rotation
     * does nothing and reading the head fails (`IndexError`).
     */
    method Draw() returns (r: Option<string>)
      requires Valid()
      modifies this
      ensures Valid() && |queue| == |old(queue)|
      ensures old(queue) == [] ==> r.None? && queue == [] && draws == old(draws)
      ensures old(queue) != [] ==> queue == RotateLeft(old(queue)) && draws == old(draws) + 1
      ensures old(queue) != [] ==> r == Some(queue[0]) && r.value == Drawn(seed, draws)
    {
      if queue == [] {
        r := None;
      } else {
        queue := RotateLeft(queue);
        draws := draws + 1;
        r := Some(queue[0]);
        RotatedHead(seed, draws);
      }
    }
  }
}
