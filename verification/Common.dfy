/** Small types and sequence facts shared by the other modules. */
module Common {

  datatype Option<+T> = None | Some(value: T)

  /** Go's `min` and `max` built-ins. */
  function Min(a: int, b: int): int { if a <= b then a else b }
  function MinR(a: real, b: real): real { if a <= b then a else b }
  function MaxR(a: real, b: real): real { if a >= b then a else b }
  function AbsR(a: real): real { if a >= 0.0 then a else -a }

  /** Which way an energy flows: charging, unless it is negative. */
  function Direction(energyWh: real): real { if energyWh < 0.0 then -1.0 else 1.0 }

  /** EventStatus.CurrentStatus of a cancelled event. */
  const EVENT_CANCELLED: nat := 2

  ghost predicate NoDup<T(!new)>(s: seq<T>) {
    forall i, j :: 0 <= i < j < |s| ==> s[i] != s[j]
  }

  /** `s` lists every member of `xs` once, in some order: what a loop over a Go map visits. */
  ghost predicate Lists<T(!new)>(s: seq<T>, xs: set<T>) {
    NoDup(s) && forall x :: x in s <==> x in xs
  }
}
