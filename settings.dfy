/**
 * The age filter on the settings screen: the "- Min", "+ Min", "- Max" and
 * "+ Max" buttons move one bound by a step and clamp it into 13..120 without
 * crossing the other bound. Both bounds are stored afterwards.
 */
module Settings {
  import opened Common
  import opened Records
  import opened Matching

  datatype Bound = MinBound | MaxBound

  /** The bounds the settings screen assumes when none is stored. */
  const SettingsDefaultMin: int := 18
  const SettingsDefaultMax: int := 120

  const AgeFloor: int := 13
  const AgeCeiling: int := 120

  /** The stored lower bound, or the settings default. */
  function StoredMin(prefs: Option<AgePrefs>): int
  {
    if prefs.Some? && prefs.value.minAge.Some? then prefs.value.minAge.value else SettingsDefaultMin
  }

  /** The stored upper bound, or the settings default. */
  function StoredMax(prefs: Option<AgePrefs>): int
  {
    if prefs.Some? && prefs.value.maxAge.Some? then prefs.value.maxAge.value else SettingsDefaultMax
  }

  /** Both bounds inside 13..120 and in order. */
  predicate WellFormed(minAge: int, maxAge: int)
  {
    AgeFloor <= minAge <= maxAge <= AgeCeiling
  }

  /**
   * The preferences row after moving bound `which` by `delta`. The moved bound
   * lands on its target when that lies inside its allowed range, and otherwise on
   * the nearer end of it; the other bound is written back unchanged.
   */
  function UpdateAgePref(prefs: Option<AgePrefs>, which: Bound, delta: int): (r: AgePrefs)
    ensures r.minAge.Some? && r.maxAge.Some?
    ensures r.minAge.value <= r.maxAge.value
    ensures which == MinBound ==> r.maxAge.value == StoredMax(prefs)
    ensures which == MaxBound ==> r.minAge.value == StoredMin(prefs)
    ensures which == MinBound && AgeFloor <= StoredMin(prefs) + delta <= StoredMax(prefs) ==>
              r.minAge.value == StoredMin(prefs) + delta
    ensures which == MinBound && StoredMin(prefs) + delta < AgeFloor <= StoredMax(prefs) ==>
              r.minAge.value == AgeFloor
    ensures which == MinBound && StoredMin(prefs) + delta > StoredMax(prefs) ==>
              r.minAge.value == StoredMax(prefs)
    ensures which == MaxBound && StoredMin(prefs) <= StoredMax(prefs) + delta <= AgeCeiling ==>
              r.maxAge.value == StoredMax(prefs) + delta
    ensures which == MaxBound && StoredMin(prefs) <= AgeCeiling < StoredMax(prefs) + delta ==>
              r.maxAge.value == AgeCeiling
    ensures which == MaxBound && StoredMax(prefs) + delta < StoredMin(prefs) ==>
              r.maxAge.value == StoredMin(prefs)
  {
    var minAge := StoredMin(prefs);
    var maxAge := StoredMax(prefs);
    match which
    case MinBound => AgePrefs(Some(Min(Max(AgeFloor, minAge + delta), maxAge)), Some(maxAge))
    case MaxBound => AgePrefs(Some(minAge), Some(Max(Min(AgeCeiling, maxAge + delta), minAge)))
  }

  /** Bounds that start inside 13..120 and in order stay so, whatever the step. */
  lemma UpdateKeepsWellFormed(prefs: Option<AgePrefs>, which: Bound, delta: int)
    requires WellFormed(StoredMin(prefs), StoredMax(prefs))
    ensures var r := UpdateAgePref(prefs, which, delta);
            WellFormed(r.minAge.value, r.maxAge.value)
  {
  }

  /** A user with no stored bounds starts from 18..120, which is well formed. */
  lemma DefaultsWellFormed()
    ensures WellFormed(StoredMin(None), StoredMax(None))
  {
  }

  /**
   * The settings screen and the queue builder disagree on the default lower
   * bound of a minor: with no stored bounds a minor browses from 13, but any
   * press on a Max button stores 18 as the lower bound.
   */
  lemma MaxButtonPinsAdultMinimum(delta: int)
    ensures EffectiveWindow(None, false).min == 13
    ensures EffectiveWindow(Some(UpdateAgePref(None, MaxBound, delta)), false).min == 18
  {
  }

  /** Bounds reset to null browse exactly like a user without a preferences row. */
  lemma ResetRestoresDefaultWindow(isAdult: bool)
    ensures EffectiveWindow(Some(AgePrefs(None, None)), isAdult) == EffectiveWindow(None, isAdult)
    ensures StoredMin(Some(AgePrefs(None, None))) == SettingsDefaultMin
    ensures StoredMax(Some(AgePrefs(None, None))) == SettingsDefaultMax
  {
  }
}
