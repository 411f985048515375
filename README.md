# Lifeguard shift allocation, modelled in Dafny

This project models the allocation engine of a lifeguard shift manager
(`backend/app/services/allocation_engine.py`), together with its settings
record (`backend/app/models/setting.py`), and proves properties of it.

One run of the engine works like this:

- It loads the present guards into a roster keyed by name. Each guard is
  pre-blocked for lunch plus shower, for the 17:00 dinner, and for a
  zero-length block at its hand-off time.
- It walks the active locations in the order it is given and cuts the
  operating day into slots of the location's length. Locations whose name
  contains "(" or the word for "pit" get the special length.
- It fills each slot by a two-pass selection:
  - The first pass keeps the guards that are available, pass the lunch
    concurrency rule, are not barred by role, and are qualified for the
    location's difficulty.
  - The fallback pass keeps every available guard.
  - The winner is the guard with the least key (rank, workload, name).
    The rank counts role priority plus a penalty of 5 when the guard already
    served that location on the same date.
  - The chosen guard is booked for the whole slot. `_build_assignment` has
    a hand-off branch for a slot that has the guard's swap time strictly
    inside, when the backup is on the roster and free from the swap time
    to the slot's end; from `allocate` that branch never fires (see below).
- At water locations it hands out the periodic checks round-robin from a
  queue. The queue is seeded with the checkers, else the head lifeguards,
  else everyone. A check goes to the drawn guard only when that guard is
  free; the queue advances either way.
- Finally it keeps the grid ("wide") and flat ("long") schedules for CSV
  export and replaces that date's rows in the shift-history table.

Files, one module each:

| file | module | what it holds |
|---|---|---|
| `wrappers.dfy` | `Wrappers` | `Option` and `Result` |
| `arith.dfy` | `Arith` | division facts |
| `entities.dfy` | `Entities` | guards and locations as values, times in minutes since midnight |
| `settings.dfy` | `Settings` | the settings record, its defaults, and `check_windows` with its parser and serialiser |
| `availability.dfy` | `Availability` | `GuardState` as a class with `assignments` and `breaks` fields |
| `roster.dfy` | `Roster` | `_load_lifeguards` |
| `slots.dfy` | `Slots` | `_build_slots` |
| `scoring.dfy` | `Scoring` | `_slot_length`, `_score_guard` and the lunch rule |
| `rotation.dfy` | `Rotation` | the check queue as a class |
| `history.dfy` | `History` | the history table |
| `engine.dfy` | `Engine` | the `Engine` class: selection, booking, the check loop, `allocate`, `_persist_history`, the export guards |

The methods that produce flat rows (`BookSlot` up to `Allocate`) say, for
every guard, that its assignments are the old ones followed by exactly the
intervals the new flat rows give it (`Ledger`), in order. `GuardState.Assign`,
`GuardState.Block`, `AssignGuard` and `BuildAssignment` state the intervals
they book explicitly instead. That says both what was booked and that nothing else
changed. `Engine.Valid` keeps these facts:

- one state per name;
- breaks exactly as loaded;
- every assignment was free, against both breaks and earlier assignments,
  when it was made (`FreeWhenMade`).

Which guard fills each cell is stated on values. `Bookings` holds each
roster position's assignments; `Advance` extends them by what flat rows
book. `Selects` is `_select_guard` over bookings, and `CheckCell` is the
check rule. `ShiftsAsSelected`, `ChecksAsDrawn` and `GridAsSelected` say
that every cell is what these give for the bookings the cells before it
leave. `SelectsUnique` shows that this leaves no choice. Several methods
take the bookings they start from as a ghost parameter, tied to the roster
position by position by their `requires`.

A consequence proved along the way: the hand-off branch of
`_build_assignment` can never fire from `allocate`. The guard was free for
the whole slot, and its zero-length block at the swap time makes every slot
with the swap time strictly inside unavailable. `FillSlot` therefore never
produces a hand-off cell, and `BuildAssignment` models both branches on
their own.

## Model

| member | source | states |
|---|---|---|
| Settings.LoadSettings | backend/app/services/allocation_engine.py:42-44 | A missing settings row is the `SettingsMissing` error; a present row is used as it is |
| Settings.Split | backend/app/models/setting.py:19 | `split(",")` never returns an empty list |
| Settings.SplitConcat | backend/app/models/setting.py:19 | Splitting around a comma gives the segments of each side, concatenated |
| Settings.SplitJoin | backend/app/models/setting.py:19 | No segment contains a comma, and joining the segments with commas gives back the string |
| Settings.SplitOfJoin | backend/app/models/setting.py:19 | Splitting segments joined with commas gives back the segments, when none contains a comma |
| Settings.ParseInt | backend/app/models/setting.py:19 | `int(v)` has a value exactly when `v` is an optionally signed decimal numeral |
| Settings.ParseAll | backend/app/models/setting.py:19 | The list comprehension succeeds exactly when every segment parses, giving one value per segment in order |
| Settings.CheckWindows | backend/app/models/setting.py:17-19 | Succeeds exactly when every non-empty segment is a numeral; then one integer per non-empty segment, in order, each that segment's value |
| Settings.EmptyHasNoWindows | backend/app/models/setting.py:19 | An empty string gives no offsets, and is not an error |
| Settings.DoubleCommaIgnored | backend/app/models/setting.py:19 | An empty segment between two commas is skipped |
| Settings.TrailingCommaIgnored | backend/app/models/setting.py:19 | A trailing comma changes nothing |
| Settings.LeadingCommaIgnored | backend/app/models/setting.py:19 | A leading comma changes nothing |
| Settings.IntToStringParses | backend/app/services/import_export.py:111 | `int(str(x)) == x`, and `str(x)` contains no comma |
| Settings.CheckWindowsRoundTrip | backend/app/api/settings.py:45 | A list saved as `",".join(str(x) ...)` reads back unchanged through `check_windows` |
| Settings.DefaultsSerialized | backend/app/services/import_export.py:111 | The import's fallback list `[30, 60, 90, 120]` serialises to the column default |
| Settings.DefaultCheckWindows | backend/app/models/setting.py:14 | The default `"30,60,90,120"` gives the offsets `[30, 60, 90, 120]` |
| Availability.ClearOfAllApart | backend/app/services/allocation_engine.py:24-29 | The early-return loop over a list passes exactly when no interval of the list overlaps `[s, e)` |
| Availability.GuardState.IsAvailable | backend/app/services/allocation_engine.py:23-30 | True if and only if `[s, e)` overlaps no break and no assignment |
| Availability.GuardState.Assign | backend/app/services/allocation_engine.py:32-33 | Appends exactly `[s, e)` to the assignments and leaves the breaks unchanged; an assignment made while available keeps every assignment free when made |
| Availability.GuardState.Block | backend/app/services/allocation_engine.py:35-36 | Appends exactly `[s, e)` to the breaks and leaves the assignments unchanged |
| Availability.FreeWhenMadeAt | backend/app/services/allocation_engine.py:23-33 | Each assignment of a consistent state overlaps no break and no earlier assignment |
| Roster.IndexOfName | backend/app/services/allocation_engine.py:208 | `lifeguards.get(name)` finds the guard with that name, or none exactly when no guard has it |
| Roster.RosterDistinct | backend/app/services/allocation_engine.py:92-95 | The dict built from the present guards has one guard per name |
| Roster.RosterNames | backend/app/services/allocation_engine.py:92-95 | A name is on the roster exactly when some present guard has it |
| Roster.RosterLastWins | backend/app/services/allocation_engine.py:92-95 | The guard kept under a name is the last present guard with that name |
| Roster.LoadedBreaksBlock | backend/app/services/allocation_engine.py:96-107 | The loaded breaks leave `[s, e)` free exactly when it misses the lunch-plus-shower window and dinner and, for a guard with a hand-off, does not have the swap time strictly inside |
| Roster.NewStates | backend/app/services/allocation_engine.py:92-95 | One fresh, distinct, empty state per roster guard, in roster order |
| Roster.BlockBreaks | backend/app/services/allocation_engine.py:100-107 | One guard's breaks become lunch+shower (when set), the zero-length swap block (when time and backup are both set), then dinner; assignments untouched |
| Roster.BlockAll | backend/app/services/allocation_engine.py:99-107 | Every state gets exactly its loaded breaks; assignments untouched |
| Roster.LoadLifeguards | backend/app/services/allocation_engine.py:91-108 | The states are fresh, stand for the roster of the present guards, have no assignments, and have exactly the loaded breaks |
| Scoring.Contains | backend/app/services/allocation_engine.py:119 | Python's substring test holds exactly when the word occurs at some position |
| Scoring.SlotLength | backend/app/services/allocation_engine.py:118-120 | The special length exactly when the name contains "(" or the word for "pit", else the shift length |
| Scoring.ScoreGuard | backend/app/services/allocation_engine.py:134-152 | The key names the guard; rank 99 exactly when the guard is not qualified; a qualified guard has rank in -1..8 and its workload as second component |
| Scoring.QualifiedRank | backend/app/services/allocation_engine.py:139-151 | A qualified guard's rank, case by case: lead 0 (-1 at a hard location), standard 1, checker 2 (3 at water), other roles 3, plus 5 for a repeat that day |
| Scoring.RoleOrder | backend/app/services/allocation_engine.py:139-151 | Without repeats, a qualified lead sorts before any other qualified role, and a standard guard before a checker or other role, whatever the workloads |
| Scoring.RepeatPenalty | backend/app/services/allocation_engine.py:145-151 | Serving the location already that date adds exactly 5 to a qualified guard's rank |
| Scoring.QualifiedFirst | backend/app/services/allocation_engine.py:136-138 | Every qualified guard's key is below every disqualified guard's key |
| Scoring.ScoreLessIrreflexive | backend/app/services/allocation_engine.py:324 | No key sorts before itself |
| Scoring.ScoreLessTransitive | backend/app/services/allocation_engine.py:324 | The key order is transitive |
| Scoring.ScoreLessTotal | backend/app/services/allocation_engine.py:324 | Keys of guards with different names are always ordered, so the sort's first element is the unique least key |
| Scoring.LunchGateAfterAvailable | backend/app/services/allocation_engine.py:154-171 | An interval clear of the guard's breaks misses its lunch window, so the lunch rule always passes after `is_available` has |
| Slots.BuildSlots | backend/app/services/allocation_engine.py:122-132 | No slots for an empty window; otherwise `ceil((end-start)/len)` contiguous slots from open to close, all of full length except possibly a shorter last one |
| Slots.SlotsPartitionWindow | backend/app/services/allocation_engine.py:122-132 | Every minute of the window lies in exactly one slot, and no minute outside it lies in any |
| Rotation.RotateLeft | backend/app/services/allocation_engine.py:246 | Rotation keeps the queue's length |
| Rotation.RotateByAt | backend/app/services/allocation_engine.py:245-247 | After `k` rotations, position `i` holds the seed element at `(i + k) mod n` |
| Rotation.RoleNames | backend/app/services/allocation_engine.py:178 | Empty exactly when no guard has the role; every name is that of a guard with the role, and every guard with the role has its name in it |
| Rotation.RoleNamesOne | backend/app/services/allocation_engine.py:178 | A single guard contributes its name exactly when it has the role |
| Rotation.RoleNamesConcat | backend/app/services/allocation_engine.py:178 | The filter of a joined roster is the filter of each part, joined: names come out in roster order |
| Rotation.CheckSeed | backend/app/services/allocation_engine.py:178-183 | Empty exactly when the roster is; the checkers' names in roster order when there is a checker, else the head lifeguards' when there is one, else every roster name in order |
| Rotation.CheckSeedMembers | backend/app/services/allocation_engine.py:178-183 | A name is in the seed exactly when it belongs to a checker (if any), else to a head lifeguard (if any), else to any roster guard |
| Rotation.DrawnCyclic | backend/app/services/allocation_engine.py:245-247 | The `k`-th draw is `seed[k mod n]` |
| Rotation.RotatedHead | backend/app/services/allocation_engine.py:245-247 | After `k` rotations the head of the queue is the `k`-th draw |
| Rotation.CheckQueue.Draw | backend/app/services/allocation_engine.py:245-247 | Rotates left and returns the new head, the next draw of the seed; on an empty queue fails and changes nothing; the length never changes |
| History.RowsOf | backend/app/services/allocation_engine.py:330-340 | One row per entry, in order, stamped with the run date |
| History.WithoutDate | backend/app/services/allocation_engine.py:328-329 | The delete leaves exactly the rows of other dates |
| History.HistoryTable.DeleteDate | backend/app/services/allocation_engine.py:328-329 | The table keeps only the rows of other dates |
| History.HistoryTable.Add | backend/app/services/allocation_engine.py:331-340 | One row appended |
| History.ReplacedOnDate | backend/app/services/allocation_engine.py:327-341 | After the replace, the run date's rows are exactly the run's entries |
| History.ReplacedOtherDates | backend/app/services/allocation_engine.py:327-341 | After the replace, every other date's rows are untouched |
| History.ReplacedTwice | backend/app/services/allocation_engine.py:327-341 | A second run for the same date supersedes the first completely |
| Engine.HistoryOf | backend/app/services/allocation_engine.py:219-225 | One history entry per flat row, a check's location carrying the "چک - " prefix |
| Engine.Team | backend/app/services/allocation_engine.py:240 | One team member per roster guard, in roster order |
| Engine.GridShapeAt | backend/app/services/allocation_engine.py:185-228 | In a grid of that shape, every row names its location, has its slots as shift columns, and has one check column per offset at water |
| Engine.Engine.constructor | backend/app/services/allocation_engine.py:81-89 | The engine starts valid with the loaded roster, no assignments and empty caches |
| Engine.Engine.Lookup | backend/app/services/allocation_engine.py:208 | `lifeguards.get(name)` on the engine's roster: the state with that name, none exactly when absent |
| Engine.Engine.CheckLunchConcurrency | backend/app/services/allocation_engine.py:154-171 | The lunch rule: passes with no lunch or a slot missing the lunch window, else exactly when fewer than `max_concurrent_lunch` other guards' lunch windows overlap |
| Engine.Engine.FirstPassPick | backend/app/services/allocation_engine.py:303-315 | None exactly when no guard passes every first-pass filter; else a passing guard with strictly the least key among them |
| Engine.Engine.FallbackPick | backend/app/services/allocation_engine.py:316-321 | None exactly when no guard is available; else an available guard with strictly the least key among them |
| Engine.Engine.SelectGuard | backend/app/services/allocation_engine.py:302-325 | Picks an available guard; none exactly when nobody is available; the first-pass winner when the first pass has candidates, else the fallback winner; so the pick meets `Selects` for the engine's current bookings |
| Engine.Engine.SelectsOfPasses | backend/app/services/allocation_engine.py:302-325 | The two passes' outcome over the roster's states is the value-level selection `Selects` over the bookings |
| Engine.SelectsUnique | backend/app/services/allocation_engine.py:302-325 | The selection leaves no choice: two picks that both meet `Selects` are equal |
| Engine.Engine.AssignGuard | backend/app/services/allocation_engine.py:193-194 | Booking a free guard appends the slot to that guard only, and the roster stays valid |
| Engine.Engine.BuildAssignment | backend/app/services/allocation_engine.py:258-300 | With a hand-off, the backup is booked from the swap time and two flat rows split the slot; otherwise one row for the primary; nobody else is booked |
| Engine.Engine.FillSlot | backend/app/services/allocation_engine.py:188-199 | The pick meets `Selects` for the bookings before the slot; the cell is the picked guard's name, "--" with no pick or an empty name, never a hand-off; the flat rows are those of the cell, and exactly they are booked |
| Engine.Engine.BookSlot | backend/app/services/allocation_engine.py:190-199 | Given a free pick (or none), the cell is its name or "--", and exactly the cell's flat rows are booked |
| Engine.Engine.FillSlots | backend/app/services/allocation_engine.py:188-200 | One cell per slot, in order, with its slot's interval; each cell is the selection for the bookings the earlier cells leave (`ShiftsAsSelected`); the flat rows are the filled cells, booked in order |
| Engine.ShiftsAsSelectedAt | backend/app/services/allocation_engine.py:188-199 | In a row filled as selected, shift column `k` is the selection's cell for the bookings after columns before `k` |
| Engine.Engine.LocationShifts | backend/app/services/allocation_engine.py:186-201 | The shift columns are the location's slots, each filled with the selection for the bookings the earlier ones leave |
| Engine.Engine.TakeCheck | backend/app/services/allocation_engine.py:208-228 | The cell is `CheckCell` for the current bookings: the drawn guard exactly when on the roster and free over the check's interval, otherwise "--"; exactly its flat row is booked |
| Engine.Engine.CheckOne | backend/app/services/allocation_engine.py:205-228 | Fails exactly on an empty queue; otherwise the queue advances one draw and the cell is `CheckCell` of the drawn name for the current bookings |
| Engine.Engine.NextCheck | backend/app/services/allocation_engine.py:204-228 | One more check column extends the columns drawn so far (`ChecksAsDrawn`), the draws and the bookings |
| Engine.Engine.RunChecks | backend/app/services/allocation_engine.py:204-228 | Fails exactly when there are offsets but the queue is empty; otherwise one column per offset at its check interval, each the `CheckCell` of its draw for the bookings the earlier columns leave |
| Engine.ChecksAsDrawnAt | backend/app/services/allocation_engine.py:204-228 | In checks as drawn, column `k` is the `CheckCell` of draw `from + k + 1` for the bookings after the earlier columns |
| Engine.DrawnFollowsRotation | backend/app/services/allocation_engine.py:207-228 | Checks as drawn show each column's drawn name or "--" |
| Engine.Engine.LocationChecks | backend/app/services/allocation_engine.py:203-228 | No checks off water; at water, fails on unparsable offsets or an empty queue with offsets; otherwise one column per offset, each drawn as `RunChecks` says |
| Engine.Engine.AllocateLocation | backend/app/services/allocation_engine.py:185-228 | One location's row, or the check error: its shape, its draws, its shifts as selected and its checks as drawn from the bookings before it (`RowAsSelected`), its flat rows and exactly those bookings |
| Engine.Engine.ExtendRun | backend/app/services/allocation_engine.py:185-228 | One location more keeps the grid's shape, its flat rows, its check columns and every row filled from the bookings the earlier rows leave (`RunSoFar`) |
| Engine.Engine.RunLocations | backend/app/services/allocation_engine.py:185-228 | Fails exactly when some water location meets unusable check settings; otherwise the whole grid as `RunSoFar` describes it, and exactly its bookings |
| Engine.Engine.Run | backend/app/services/allocation_engine.py:178-228 | The queue seeded from the roster, then the location loop: the error cases, or a grid of the locations' shape, its flat rows, checks following the rotation, every cell as selected or drawn (`GridAsSelected`), and exactly those bookings |
| Engine.GridFollowsRotation | backend/app/services/allocation_engine.py:203-228 | In a grid filled as the run fills it, the check columns of all rows together follow the rotation from its start |
| Engine.Engine.Allocate | backend/app/services/allocation_engine.py:173-243 | The whole run: the error cases with history and caches untouched, or the grid with every cell as selected or drawn from the bookings the earlier cells leave, flat rows, checks drawn from the check seed, history, team, caches, and the date's history replaced |
| Engine.Engine.PersistHistory | backend/app/services/allocation_engine.py:327-341 | The table becomes the other dates' rows followed by the run's rows |
| Engine.Engine.Publish | backend/app/services/allocation_engine.py:233-236 | Caches hold the run's results and the date's history is replaced; no guard state changes |
| Engine.Engine.ExportWide | backend/app/services/allocation_engine.py:343-348 | "No allocation available" exactly when the grid cache is empty; else the cached rows |
| Engine.Engine.ExportLong | backend/app/services/allocation_engine.py:357-362 | "No allocation available" exactly when the flat cache is empty; else the cached rows |

## Left out

- Database access, the FastAPI routes, and the request-scoped engine cache are left out. The present guards, the active locations (in their queried order), the settings row, the run date and the history table's rows are parameters of the model.
- The wall clock and the Jalali calendar are left out. The run date is an opaque string.
- Times are whole minutes since midnight. `strptime`/`strftime` formatting is not modelled, and neither are the datetime arithmetic and the float hours of `shift_hours`/`special_hours`; slot lengths are minutes.
- CSV rendering of the exports is left out; only the empty-cache guard and the rows written are modelled.
- The caption text, the `wide_headers` counter and the unused `CHECK_PRIORITY` table are left out.
- Grid columns are modelled as the cell together with the interval its column header names, not as header strings.
- Slots.BuildSlots: requires a positive slot length when the window is non-empty, because the source loop does not terminate there for a zero or negative length.
- Dict iteration order is modelled on insertion order: a repeated name keeps its first position and its last guard (`RosterOf`).
- The stable `sort` followed by `[0]` is modelled as the strict least key. This is the same result, because keys of distinct names never tie (`ScoreLessTotal`).
- The disqualified key `(99, 99, 99, name)` is modelled as `Score(99, 99, name)`. It orders the same way against every key that can occur.
- A `lunch_at` of `""` is treated by `_load_lifeguards` as no lunch, but `_check_lunch_concurrency` would pass it to `strptime` and raise. The model treats it as absent everywhere.
- Python's `int()` also accepts surrounding whitespace, underscores between digits and non-ASCII digits; `ParseInt` accepts only an optionally signed ASCII numeral.
- In `_persist_history`, an empty field falls back to the flat row's field through `or`. The model always takes the history entry's own fields.
- The `id` and `created_at` columns of history rows, and the transaction around delete-and-insert, are left out.
