/**
 * The records the allocation engine reads: lifeguards and locations
 * (backend/app/models/lifeguard.py, location.py). Time-of-day fields are
 * minutes since midnight; a field that is absent, `None` or `"-"` is `None`.
 */
module Entities {
  import opened Wrappers

  /** The three role names of the roster. */
  const Lead: string := "سر ناجی"       // head lifeguard
  const Standard: string := "ناجی"      // lifeguard
  const Checker: string := "ناجی چک"    // check (inspection) lifeguard

  datatype Guard = Guard(
    id: int,
    name: string,
    experience: string,          // "expert" | "medium" | "low", anything else is unknown
    role: string,
    team: Option<string>,
    lunchAt: Option<int>,
    swapAt: Option<int>,
    backupName: Option<string>)

  /** A hand-off is configured only when both the time and the backup are set. */
  predicate HasSwap(g: Guard)
  {
    g.swapAt.Some? && g.backupName.Some?
  }

  datatype Location = Location(
    name: string,
    difficulty: string,          // "easy" | "medium" | "hard"
    isWater: bool)

  function Names(gs: seq<Guard>): (r: seq<string>)
    ensures |r| == |gs|
    ensures forall i :: 0 <= i < |gs| ==> r[i] == gs[i].name
  {
    seq(|gs|, i requires 0 <= i < |gs| => gs[i].name)
  }

  predicate DistinctNames(gs: seq<Guard>)
  {
    forall i, j :: 0 <= i < j < |gs| ==> gs[i].name != gs[j].name
  }
}
