/** The adaptive-mode state machine of the display controller, as pure
    transitions over the state it keeps: the current mode, the last non-manual
    mode, `lastModeWasAuto`, the clamshell flag and the two persisted settings
    `overrideAdaptiveMode` and `adaptiveBrightnessMode`. The class
    `Controller.DisplayController` performs these transitions in place. */
module AdaptiveModes {
  import opened Common

  /** `AdaptiveModeKey`; each key stands for its shared mode object. */
  datatype ModeKey = Manual | Sync | Location | Sensor

  /** Whether the sensor, sync and location modes currently report themselves
      available (`ifAvailable()` / `available`). */
  datatype Availability = Availability(sensor: bool, sync: bool, location: bool)

  /** Availability of a mode; manual mode is always available. */
  predicate Available(m: ModeKey, a: Availability)
  {
    match m
    case Manual => true
    case Sync => a.sync
    case Location => a.location
    case Sensor => a.sensor
  }

  /** `autoMode()`: the first available of Sensor, Sync and Location, else Manual. */
  function AutoMode(a: Availability): (m: ModeKey)
    ensures Available(m, a)
    ensures m == Sensor <==> a.sensor
    ensures m == Sync <==> !a.sensor && a.sync
    ensures m == Location <==> !a.sensor && !a.sync && a.location
    ensures m == Manual <==> !a.sensor && !a.sync && !a.location
  {
    if a.sensor then Sensor
    else if a.sync then Sync
    else if a.location then Location
    else Manual
  }

  datatype ModeState = ModeState(
    mode: ModeKey,
    lastNonManual: ModeKey,
    lastModeWasAuto: bool,
    clamshellMode: bool,
    overrideMode: bool,     // the persisted `overrideAdaptiveMode`
    storedMode: ModeKey)    // the persisted `adaptiveBrightnessMode`

  /** The result of `getAdaptiveMode()`: the mode it returns and the state after
      its write to the persisted mode key. */
  datatype Resolved = Resolved(mode: ModeKey, state: ModeState)

  /** `getAdaptiveMode()`: with the override set, the persisted mode; otherwise
      the automatic mode, which is also persisted. */
  function GetAdaptiveMode(s: ModeState, a: Availability): (r: Resolved)
    ensures s.overrideMode ==> r == Resolved(s.storedMode, s)
    ensures !s.overrideMode ==> r.mode == AutoMode(a) && r.state == s.(storedMode := AutoMode(a))
  {
    if s.overrideMode then Resolved(s.storedMode, s)
    else
      var m := AutoMode(a);
      Resolved(m, if m != s.storedMode then s.(storedMode := m) else s)
  }

  /** The `adaptiveMode` setter: the old mode, when not manual, becomes the last
      non-manual mode; nothing else changes. */
  function AssignMode(s: ModeState, m: ModeKey): (r: ModeState)
    ensures r.mode == m
    ensures s.mode != Manual ==> r.lastNonManual == s.mode
    ensures s.mode == Manual ==> r.lastNonManual == s.lastNonManual
    ensures r.(mode := s.mode, lastNonManual := s.lastNonManual) == s
  {
    var last := if s.mode != Manual then s.mode else s.lastNonManual;
    s.(mode := m, lastNonManual := last)
  }

  /** The state the controller starts in: both the mode and the last non-manual
      mode are `getAdaptiveMode()`, and `lastModeWasAuto` is the negated override. */
  function Initial(overrideMode: bool, storedMode: ModeKey, a: Availability): (r: ModeState)
    ensures r.mode == r.lastNonManual == r.storedMode
    ensures r.mode == if overrideMode then storedMode else AutoMode(a)
    ensures r.lastModeWasAuto == !overrideMode && r.overrideMode == overrideMode && !r.clamshellMode
  {
    var s := ModeState(Manual, Manual, false, false, overrideMode, storedMode);
    var resolved := GetAdaptiveMode(s, a);
    var again := GetAdaptiveMode(resolved.state, a);
    again.state.(mode := resolved.mode, lastNonManual := again.mode, lastModeWasAuto := !overrideMode)
  }

  /** What `disable()` leaves behind: manual mode, the override set and the
      persisted mode manual, the mode it left remembered as the last non-manual
      one, and `lastModeWasAuto` raised when the override was not yet set. */
  predicate DisabledFrom(s: ModeState, r: ModeState)
  {
    r.mode == Manual && r.overrideMode && r.storedMode == Manual &&
    r.lastModeWasAuto == (s.lastModeWasAuto || !s.overrideMode) &&
    r.lastNonManual == (if s.mode != Manual then s.mode else s.lastNonManual)
  }

  /** What `enable()` without an explicit mode leaves behind: after an automatic
      disable, the automatic mode with the override cleared; otherwise the last
      non-manual mode when it is available, else what `getAdaptiveMode()`
      returns. The chosen mode is persisted and `lastModeWasAuto` is kept. */
  predicate ResumedFrom(s: ModeState, a: Availability, r: ModeState)
  {
    r.storedMode == r.mode && r.lastModeWasAuto == s.lastModeWasAuto &&
    r.lastNonManual == (if s.mode != Manual then s.mode else s.lastNonManual) &&
    (s.lastModeWasAuto ==> r.mode == AutoMode(a) && !r.overrideMode) &&
    (!s.lastModeWasAuto && Available(s.lastNonManual, a) ==>
       r.mode == s.lastNonManual && r.overrideMode == s.overrideMode) &&
    (!s.lastModeWasAuto && !Available(s.lastNonManual, a) ==>
       r.mode == (if s.overrideMode then s.storedMode else AutoMode(a)) && r.overrideMode == s.overrideMode)
  }

  /** `disable()`. */
  function Disable(s: ModeState): (r: ModeState)
    ensures DisabledFrom(s, r)
    ensures r.clamshellMode == s.clamshellMode
  {
    var s1 := if s.mode != Manual then AssignMode(s, Manual) else s;
    var s2 := if !s.overrideMode then s1.(lastModeWasAuto := true, overrideMode := true) else s1;
    s2.(storedMode := Manual)
  }

  /** `enable(mode:)`: an explicit mode wins; otherwise, after an automatic
      disable, automatic resolution with the override cleared; otherwise the last
      non-manual mode if it is available; otherwise `getAdaptiveMode()`. The
      chosen mode is persisted in every case. */
  function Enable(s: ModeState, requested: Option<ModeKey>, a: Availability): (r: ModeState)
    ensures r.storedMode == r.mode
    ensures requested.Some? ==> r.mode == requested.value && r.overrideMode == s.overrideMode
    ensures requested.None? ==> ResumedFrom(s, a, r)
    ensures r.lastNonManual == (if s.mode != Manual then s.mode else s.lastNonManual)
    ensures r.lastModeWasAuto == s.lastModeWasAuto && r.clamshellMode == s.clamshellMode
  {
    var s1 :=
      match requested
      case Some(m) => AssignMode(s, m)
      case None =>
        if s.lastModeWasAuto then
          var resolved := GetAdaptiveMode(s.(overrideMode := false), a);
          AssignMode(resolved.state, resolved.mode)
        else if Available(s.lastNonManual, a) then
          AssignMode(s, s.lastNonManual)
        else
          var resolved := GetAdaptiveMode(s, a);
          AssignMode(resolved.state, resolved.mode);
    s1.(storedMode := s1.mode)
  }

  /** `toggle()`: enable from manual mode, disable from any other. */
  function Toggle(s: ModeState, a: Availability): (r: ModeState)
    ensures s.mode != Manual ==> DisabledFrom(s, r)
    ensures s.mode == Manual ==> ResumedFrom(s, a, r)
    ensures r.clamshellMode == s.clamshellMode
  {
    if s.mode == Manual then Enable(s, None, a) else Disable(s)
  }

  /** `autoAdaptMode()`: without the override, switch to the automatic mode and
      persist it; with the override, do nothing. */
  function AutoAdapt(s: ModeState, a: Availability): (r: ModeState)
    ensures s.overrideMode ==> r == s
    ensures !s.overrideMode ==> r.mode == AutoMode(a) && r.storedMode == AutoMode(a)
    ensures r.overrideMode == s.overrideMode && r.lastModeWasAuto == s.lastModeWasAuto
    ensures r.clamshellMode == s.clamshellMode
    ensures !s.overrideMode ==>
              r.lastNonManual == (if AutoMode(a) != s.mode && s.mode != Manual then s.mode else s.lastNonManual)
  {
    if s.overrideMode then s
    else
      var m := AutoMode(a);
      var s1 := if m != s.mode then AssignMode(s, m) else s;
      if m != s1.storedMode then s1.(storedMode := m) else s1
  }

  /** `activateClamshellMode()`: with the lid closed in sync mode, remember it
      and disable. */
  function ActivateClamshell(s: ModeState): (r: ModeState)
    ensures s.mode == Sync ==> r.clamshellMode && DisabledFrom(s, r) && r.lastNonManual == Sync
    ensures s.mode != Sync ==> r == s
  {
    if s.mode == Sync then Disable(s.(clamshellMode := true)) else s
  }

  /** `deactivateClamshellMode()`: from manual mode, clear the flag and enable. */
  function DeactivateClamshell(s: ModeState, a: Availability): (r: ModeState)
    ensures s.mode == Manual ==> !r.clamshellMode && ResumedFrom(s, a, r)
    ensures s.mode != Manual ==> r == s
  {
    if s.mode == Manual then Enable(s.(clamshellMode := false), None, a) else s
  }

  // ---------------------------------------------------------------------------
  // Properties across transitions

  /** Disabling and enabling again resumes automatic selection when the mode was
      automatic (no override) before the disable. */
  lemma DisableEnableResumesAuto(s: ModeState, a: Availability)
    requires !s.overrideMode
    ensures var r := Enable(Disable(s), None, a);
            r.mode == AutoMode(a) && !r.overrideMode && r.storedMode == AutoMode(a)
  {
  }

  /** Disabling and enabling again restores an explicitly chosen mode, provided
      it is still available and no automatic disable happened before. */
  lemma DisableEnableResumesExplicit(s: ModeState, a: Availability)
    requires s.overrideMode && !s.lastModeWasAuto && s.mode != Manual && Available(s.mode, a)
    ensures var r := Enable(Disable(s), None, a);
            r.mode == s.mode && r.overrideMode && r.storedMode == s.mode
  {
  }

  /** Toggling twice from an automatically chosen, non-manual mode comes back to
      it under the same availability. */
  lemma ToggleTwiceRestores(s: ModeState, a: Availability)
    requires s.mode != Manual
    requires (!s.overrideMode && s.mode == AutoMode(a)) ||
             (s.overrideMode && !s.lastModeWasAuto && Available(s.mode, a))
    ensures Toggle(Toggle(s, a), a).mode == s.mode
  {
    if s.overrideMode {
      DisableEnableResumesExplicit(s, a);
    } else {
      DisableEnableResumesAuto(s, a);
    }
  }

  /** A second `autoAdaptMode()` under the same availability changes nothing. */
  lemma AutoAdaptIdempotent(s: ModeState, a: Availability)
    ensures AutoAdapt(AutoAdapt(s, a), a) == AutoAdapt(s, a)
  {
  }

  /** Nothing in the controller lowers `lastModeWasAuto` once it is raised. */
  lemma LastModeWasAutoSticks(s: ModeState, requested: Option<ModeKey>, m: ModeKey, a: Availability)
    requires s.lastModeWasAuto
    ensures AssignMode(s, m).lastModeWasAuto && Disable(s).lastModeWasAuto
    ensures Enable(s, requested, a).lastModeWasAuto && Toggle(s, a).lastModeWasAuto
    ensures AutoAdapt(s, a).lastModeWasAuto
  {
  }

  /** Closing the lid in automatically chosen sync mode and opening it again
      returns to sync mode. */
  lemma ClamshellRoundTrip(s: ModeState, a: Availability)
    requires s.mode == Sync && !s.overrideMode && AutoMode(a) == Sync
    ensures var r := DeactivateClamshell(ActivateClamshell(s), a);
            r.mode == Sync && !r.clamshellMode && !r.overrideMode
  {
  }
}
