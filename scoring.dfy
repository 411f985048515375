/**
 * The decisions the allocation engine takes about one guard and one slot:
 * the slot length of a location (`_slot_length`), the lexicographic score key
 * (`_score_guard`) with its order, and the lunch-concurrency rule
 * (`_check_lunch_concurrency`) as a specification.
 */
module Scoring {
  import opened Entities
  import opened Settings
  import opened Availability
  import opened Roster
  import opened History

  // ---------------------------------------------------------------------
  // Slot length
  // ---------------------------------------------------------------------

  /** The word for "pit": locations whose name contains it get the extended length. */
  const Pit: string := "چاله"

  /** `t` occurs in `s` starting at position `i`. */
  predicate OccursAt(s: string, t: string, i: int)
  {
    0 <= i && i + |t| <= |s| && s[i..i + |t|] == t
  }

  ghost predicate HasSubstring(s: string, t: string)
  {
    exists i :: OccursAt(s, t, i)
  }

  /** Python's `t in s` on strings. */
  function Contains(s: string, t: string): (r: bool)
    ensures r <==> HasSubstring(s, t)
    decreases |s|
  {
    if |t| > |s| then false
    else if s[..|t|] == t then assert OccursAt(s, t, 0); true
    else
      var rest := Contains(s[1..], t);
      assert HasSubstring(s[1..], t) ==> HasSubstring(s, t) by {
        if HasSubstring(s[1..], t) {
          var i :| OccursAt(s[1..], t, i);
          assert s[i + 1..i + 1 + |t|] == s[1..][i..i + |t|];
          assert OccursAt(s, t, i + 1);
        }
      }
      assert HasSubstring(s, t) ==> HasSubstring(s[1..], t) by {
        if HasSubstring(s, t) {
          var i :| OccursAt(s, t, i);
          assert i != 0 by { assert s[0..|t|] == s[..|t|]; }
          assert s[1..][i - 1..i - 1 + |t|] == s[i..i + |t|];
          assert OccursAt(s[1..], t, i - 1);
        }
      }
      rest
  }

  /** `_slot_length`: extended for a name containing "(" or the word for "pit". */
  function SlotLength(loc: Location, st: Settings): (r: int)
    ensures r == if '(' in loc.name || HasSubstring(loc.name, Pit) then st.specialMin else st.shiftMin
  {
    assert Contains(loc.name, "(") <==> '(' in loc.name by {
      if '(' in loc.name {
        var i :| 0 <= i < |loc.name| && loc.name[i] == '(';
        assert loc.name[i..i + 1] == "(";
        assert OccursAt(loc.name, "(", i);
      }
      if HasSubstring(loc.name, "(") {
        var i :| OccursAt(loc.name, "(", i);
        assert loc.name[i] == loc.name[i..i + 1][0];
      }
    }
    if Contains(loc.name, "(") || Contains(loc.name, Pit) then st.specialMin else st.shiftMin
  }

  // ---------------------------------------------------------------------
  // Score key
  // ---------------------------------------------------------------------

  /** `SKILL_TO_DIFFICULTY.get(experience, {"easy"})`. */
  function Skills(experience: string): set<string>
  {
    if experience == "expert" then {"easy", "medium", "hard"}
    else if experience == "medium" then {"easy", "medium"}
    else {"easy"}
  }

  /** `ROLE_PRIORITY.get(role, 3)`. */
  function RolePriority(role: string): int
  {
    if role == Lead then 0
    else if role == Standard then 1
    else if role == Checker then 2
    else 3
  }

  /** The rank a disqualified guard gets; `(99, 99, 99, name)` in the source. */
  const DisqualifiedRank: int := 99

  /**
   * The key `(rank, workload, name)`. The source's disqualified key has one
   * more component, `(99, 99, 99, name)`; since a qualified rank never
   * reaches 99, `Score(99, 99, name)` orders exactly as that tuple does.
   */
  datatype Score = Score(rank: int, workload: int, name: string)

  predicate Qualified(g: Guard, loc: Location)
  {
    loc.difficulty in Skills(g.experience)
  }

  /** `_score_guard` with the history query given as the rows of the table. */
  function ScoreGuard(g: Guard, workload: nat, loc: Location, date: string, prior: seq<HistoryRow>): (r: Score)
    ensures r.name == g.name
    ensures r.rank == DisqualifiedRank <==> !Qualified(g, loc)
    ensures Qualified(g, loc) ==> -1 <= r.rank <= 8 && r.workload == workload
  {
    if !Qualified(g, loc) then Score(DisqualifiedRank, 99, g.name)
    else
      var priority := RolePriority(g.role)
        + (if g.role == Checker && loc.isWater then 1 else 0)
        - (if g.role == Lead && loc.difficulty == "hard" then 1 else 0);
      var repeat := if Repeated(prior, date, g.name, loc.name) then 5 else 0;
      Score(priority + repeat, workload, g.name)
  }

  /** The anti-repetition penalty adds exactly 5 when the guard already served the location that day. */
  lemma RepeatPenalty(g: Guard, workload: nat, loc: Location, date: string, prior: seq<HistoryRow>)
    requires Qualified(g, loc)
    ensures ScoreGuard(g, workload, loc, date, prior).rank ==
            ScoreGuard(g, workload, loc, date, []).rank + (if Repeated(prior, date, g.name, loc.name) then 5 else 0)
  {
    assert !Repeated([], date, g.name, loc.name);
  }

  /**
   * The rank of a qualified guard, case by case: a lead ranks 0 (-1 at a
   * hard location), a standard guard 1, a checker 2 (3 at water), any other
   * role 3, and a repeat of the same location that day adds 5.
   */
  lemma QualifiedRank(g: Guard, workload: nat, loc: Location, date: string, prior: seq<HistoryRow>)
    requires Qualified(g, loc)
    ensures ScoreGuard(g, workload, loc, date, prior).rank ==
            (if Repeated(prior, date, g.name, loc.name) then 5 else 0) +
            (if g.role == Lead then (if loc.difficulty == "hard" then -1 else 0)
             else if g.role == Standard then 1
             else if g.role == Checker then (if loc.isWater then 3 else 2)
             else 3)
  {
  }

  /**
   * Among qualified guards with no repeat that day, a lead ranks before a
   * standard guard, and a standard guard before a checker or any other role,
   * whatever their workloads.
   */
  lemma RoleOrder(g: Guard, w: nat, h: Guard, v: nat, loc: Location, date: string, prior: seq<HistoryRow>)
    requires Qualified(g, loc) && Qualified(h, loc)
    requires !Repeated(prior, date, g.name, loc.name) && !Repeated(prior, date, h.name, loc.name)
    ensures g.role == Lead && h.role != Lead ==>
              ScoreLess(ScoreGuard(g, w, loc, date, prior), ScoreGuard(h, v, loc, date, prior))
    ensures g.role == Standard && h.role != Lead && h.role != Standard ==>
              ScoreLess(ScoreGuard(g, w, loc, date, prior), ScoreGuard(h, v, loc, date, prior))
  {
    QualifiedRank(g, w, loc, date, prior);
    QualifiedRank(h, v, loc, date, prior);
  }

  /** Python's `<` on strings: lexicographic by code point, a proper prefix first. */
  predicate StringLess(a: string, b: string)
  {
    if a == [] then b != []
    else if b == [] then false
    else if a[0] != b[0] then a[0] < b[0]
    else StringLess(a[1..], b[1..])
  }

  lemma {:induction false} StringLessIrreflexive(a: string)
    ensures !StringLess(a, a)
  {
    if a != [] { StringLessIrreflexive(a[1..]); }
  }

  lemma {:induction false} StringLessTransitive(a: string, b: string, c: string)
    requires StringLess(a, b) && StringLess(b, c)
    ensures StringLess(a, c)
  {
    if a != [] && b != [] && c != [] && a[0] == b[0] && b[0] == c[0] {
      StringLessTransitive(a[1..], b[1..], c[1..]);
    }
  }

  lemma {:induction false} StringLessTotal(a: string, b: string)
    requires a != b
    ensures StringLess(a, b) || StringLess(b, a)
  {
    if a != [] && b != [] && a[0] == b[0] {
      assert a == [a[0]] + a[1..] && b == [b[0]] + b[1..];
      StringLessTotal(a[1..], b[1..]);
    }
  }

  /** Python's `<` on the key tuples. */
  predicate ScoreLess(x: Score, y: Score)
  {
    x.rank < y.rank ||
    (x.rank == y.rank && (x.workload < y.workload ||
                          (x.workload == y.workload && StringLess(x.name, y.name))))
  }

  lemma ScoreLessIrreflexive(x: Score)
    ensures !ScoreLess(x, x)
  {
    StringLessIrreflexive(x.name);
  }

  lemma ScoreLessTransitive(x: Score, y: Score, z: Score)
    requires ScoreLess(x, y) && ScoreLess(y, z)
    ensures ScoreLess(x, z)
  {
    if x.rank == y.rank == z.rank && x.workload == y.workload == z.workload {
      StringLessTransitive(x.name, y.name, z.name);
    }
  }

  /** Keys of guards with different names are always ordered one way or the other. */
  lemma ScoreLessTotal(x: Score, y: Score)
    requires x.name != y.name
    ensures ScoreLess(x, y) || ScoreLess(y, x)
  {
    StringLessTotal(x.name, y.name);
  }

  /** Every qualified guard ranks before every disqualified one. */
  lemma QualifiedFirst(g: Guard, w: nat, h: Guard, v: nat, loc: Location, date: string, prior: seq<HistoryRow>)
    requires Qualified(g, loc) && !Qualified(h, loc)
    ensures ScoreLess(ScoreGuard(g, w, loc, date, prior), ScoreGuard(h, v, loc, date, prior))
  {
  }

  // ---------------------------------------------------------------------
  // Lunch concurrency
  // ---------------------------------------------------------------------

  /** Whether another guard's lunch window overlaps `g`'s (the test inside the counting loop). */
  predicate LunchClash(other: Guard, g: Guard, st: Settings)
    requires g.lunchAt.Some?
  {
    other.name != g.name && other.lunchAt.Some? &&
    !Apart(LunchWindow(other.lunchAt.value, st),
           LunchWindow(g.lunchAt.value, st).start, LunchWindow(g.lunchAt.value, st).end)
  }

  /** How many of `others` have a lunch window that overlaps `g`'s. */
  function OtherLunches(others: seq<Guard>, g: Guard, st: Settings): (r: nat)
    requires g.lunchAt.Some?
    ensures r <= |others|
  {
    if others == [] then 0
    else OtherLunches(others[..|others| - 1], g, st) + (if LunchClash(others[|others| - 1], g, st) then 1 else 0)
  }

  /**
   * `_check_lunch_concurrency`: a guard without lunch, or a slot that misses
   * the guard's lunch window, passes; otherwise the guard passes when fewer
   * than `max_concurrent_lunch` other guards have overlapping lunch windows.
   */
  predicate LunchGate(roster: seq<Guard>, g: Guard, s: int, e: int, st: Settings)
  {
    g.lunchAt.None? ||
    Apart(LunchWindow(g.lunchAt.value, st), s, e) ||
    OtherLunches(roster, g, st) < st.maxConcurrentLunch
  }

  /**
   * The guard's own lunch is one of its breaks, so once `is_available` has
   * passed, the counting branch of the lunch rule is never consulted and the
   * rule lets the guard through.
   */
  lemma LunchGateAfterAvailable(roster: seq<Guard>, g: Guard, st: Settings, s: int, e: int)
    requires ClearOf(LoadBreaks(g, st), s, e)
    ensures g.lunchAt.Some? ==> Apart(LunchWindow(g.lunchAt.value, st), s, e)
    ensures LunchGate(roster, g, s, e, st)
  {
    LoadedBreaksBlock(g, st, s, e);
  }
}
