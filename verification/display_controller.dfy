/** `DisplayController`: the display registry, the adaptive-mode state it keeps
    in place, display matching, the fallback-prompt bookkeeping and the
    keyboard adjustment of brightness, contrast and volume. */
module Controller {
  import opened Common
  import opened FilledChiclets
  import opened DisplayIdentity
  import opened AdaptiveModes
  import opened Fallback
  import opened Displays

  /** A per-application brightness and contrast offset. */
  datatype AppException = AppException(identifier: string, brightness: int, contrast: int)

  /** The volume bounds `adjustVolume` clamps to. */
  const MinVolume: int := 0
  const MaxVolume: int := 100

  /** `activeDisplays` as the `displays` observer computes it: the entries whose
      display is active. */
  function ActiveOf(ds: map<DisplayId, Display>): (r: map<DisplayId, Display>)
    reads ds.Values
    ensures forall id :: id in r <==> id in ds && ds[id].active
    ensures forall id :: id in r ==> r[id] == ds[id]
  {
    map id | id in ds && ds[id].active :: ds[id]
  }

  /** Removing an id from the registry removes it from the active displays and
      leaves every other active display in place. */
  lemma ActiveAfterRemoval(ds: map<DisplayId, Display>, id: DisplayId)
    ensures ActiveOf(ds - {id}) == ActiveOf(ds) - {id}
    ensures id !in ActiveOf(ds - {id})
  {
    assert forall k :: k in ActiveOf(ds - {id}) <==> k in ActiveOf(ds) - {id};
  }

  /** The last running app exception, the one whose offsets apply. */
  function LastException(running: Option<seq<AppException>>): Option<AppException>
  {
    if running.Some? && |running.value| > 0 then Some(running.value[|running.value| - 1]) else None
  }

  /** `appBrightnessOffset`, over the controller's `runningAppExceptions`. */
  function AppBrightnessOffset(running: Option<seq<AppException>>): (r: int)
    ensures running.None? ==> r == 0
    ensures r != 0 ==> running.Some? && exists i :: 0 <= i < |running.value| && running.value[i].brightness == r
  {
    match LastException(running)
    case None => 0
    case Some(e) => e.brightness
  }

  /** `appContrastOffset`, over the controller's `runningAppExceptions`. */
  function AppContrastOffset(running: Option<seq<AppException>>): (r: int)
    ensures running.None? ==> r == 0
    ensures r != 0 ==> running.Some? && exists i :: 0 <= i < |running.value| && running.value[i].contrast == r
  {
    match LastException(running)
    case None => 0
    case Some(e) => e.contrast
  }

  /** Without running exceptions there is no offset, and a single running
      exception supplies its own offsets. */
  lemma OffsetsOfFewApps(e: AppException)
    ensures AppBrightnessOffset(None) == 0 && AppContrastOffset(None) == 0
    ensures AppBrightnessOffset(Some([])) == 0 && AppContrastOffset(Some([])) == 0
    ensures AppBrightnessOffset(Some([e])) == e.brightness && AppContrastOffset(Some([e])) == e.contrast
  {
  }

  /** Offsets are last-write-wins: once apps are appended to the running list,
      the offsets are those of the last app appended, whatever ran before;
      appending nothing leaves them as they were. */
  lemma OffsetsFollowLatestApps(earlier: seq<AppException>, later: seq<AppException>)
    ensures |later| > 0 ==>
              AppBrightnessOffset(Some(earlier + later)) == AppBrightnessOffset(Some(later)) == later[|later| - 1].brightness &&
              AppContrastOffset(Some(earlier + later)) == AppContrastOffset(Some(later)) == later[|later| - 1].contrast
    ensures |later| == 0 ==>
              AppBrightnessOffset(Some(earlier + later)) == AppBrightnessOffset(Some(earlier)) &&
              AppContrastOffset(Some(earlier + later)) == AppContrastOffset(Some(earlier))
  {
    if |later| == 0 {
      assert earlier + later == earlier;
    }
  }

  function OptionSet(o: Option<Display>): (r: set<Display>)
    ensures |r| <= 1
    ensures o.Some? ==> r == {o.value}
    ensures o.None? ==> r == {}
  {
    if o.Some? then {o.value} else {}
  }

  class DisplayController {
    var displays: map<DisplayId, Display>
    var activeDisplays: map<DisplayId, Display>

    var clamshellMode: bool
    var adaptiveMode: ModeKey
    var lastNonManualAdaptiveMode: ModeKey
    var lastModeWasAuto: bool
    /** The persisted `overrideAdaptiveMode` and `adaptiveBrightnessMode` settings. */
    var overrideAdaptiveMode: bool
    var adaptiveBrightnessMode: ModeKey

    var runningAppExceptions: Option<seq<AppException>>
    var fallbackPromptTime: map<DisplayId, int>

    /** The adaptive-mode state, as the pure transitions see it. */
    function Modes(): ModeState
      reads this
    {
      ModeState(adaptiveMode, lastNonManualAdaptiveMode, lastModeWasAuto, clamshellMode,
                overrideAdaptiveMode, adaptiveBrightnessMode)
    }

    /** Everything besides the adaptive-mode state. */
    function Registry(): (map<DisplayId, Display>, map<DisplayId, Display>, Option<seq<AppException>>, map<DisplayId, int>)
      reads this
    {
      (displays, activeDisplays, runningAppExceptions, fallbackPromptTime)
    }

    /** The controller as it starts: no displays, and the mode and the last
        non-manual mode both resolved by `getAdaptiveMode()`. */
    constructor(overrideMode: bool, storedMode: ModeKey, a: Availability)
      ensures Modes() == Initial(overrideMode, storedMode, a)
      ensures displays == map[] && activeDisplays == map[]
      ensures runningAppExceptions == None && fallbackPromptTime == map[]
    {
      displays := map[];
      activeDisplays := map[];
      clamshellMode := false;
      adaptiveMode := Manual;
      lastNonManualAdaptiveMode := Manual;
      lastModeWasAuto := false;
      overrideAdaptiveMode := overrideMode;
      adaptiveBrightnessMode := storedMode;
      runningAppExceptions := None;
      fallbackPromptTime := map[];
      new;
      // property initialisers do not run the `adaptiveMode` observer
      var mode := GetAdaptiveMode(a);
      var last := GetAdaptiveMode(a);
      adaptiveMode := mode;
      lastNonManualAdaptiveMode := last;
      lastModeWasAuto := !overrideAdaptiveMode;
    }

    // -------------------------------------------------------------------------
    // Adaptive mode

    method GetAdaptiveMode(a: Availability) returns (mode: ModeKey)
      modifies this
      ensures Resolved(mode, Modes()) == AdaptiveModes.GetAdaptiveMode(old(Modes()), a)
      ensures Registry() == old(Registry())
    {
      if overrideAdaptiveMode {
        return adaptiveBrightnessMode;
      }
      mode := AutoMode(a);
      if mode != adaptiveBrightnessMode {
        adaptiveBrightnessMode := mode;
      }
    }

    /** Assignment to `adaptiveMode`, with its observer. */
    method SetAdaptiveMode(mode: ModeKey)
      modifies this
      ensures Modes() == AssignMode(old(Modes()), mode)
      ensures Registry() == old(Registry())
    {
      var oldValue := adaptiveMode;
      adaptiveMode := mode;
      if oldValue != Manual {
        lastNonManualAdaptiveMode := oldValue;
      }
    }

    method Disable()
      modifies this
      ensures Modes() == AdaptiveModes.Disable(old(Modes()))
      ensures Registry() == old(Registry())
    {
      if adaptiveMode != Manual {
        SetAdaptiveMode(Manual);
      }
      if !overrideAdaptiveMode {
        lastModeWasAuto := true;
        overrideAdaptiveMode := true;
      }
      adaptiveBrightnessMode := Manual;
    }

    method Enable(requested: Option<ModeKey>, a: Availability)
      modifies this
      ensures Modes() == AdaptiveModes.Enable(old(Modes()), requested, a)
      ensures Registry() == old(Registry())
    {
      if requested.Some? {
        SetAdaptiveMode(requested.value);
      } else if lastModeWasAuto {
        overrideAdaptiveMode := false;
        var mode := GetAdaptiveMode(a);
        SetAdaptiveMode(mode);
      } else if Available(lastNonManualAdaptiveMode, a) {
        SetAdaptiveMode(lastNonManualAdaptiveMode);
      } else {
        var mode := GetAdaptiveMode(a);
        SetAdaptiveMode(mode);
      }
      adaptiveBrightnessMode := adaptiveMode;
    }

    method Toggle(a: Availability)
      modifies this
      ensures Modes() == AdaptiveModes.Toggle(old(Modes()), a)
      ensures Registry() == old(Registry())
    {
      if adaptiveMode == Manual {
        Enable(None, a);
      } else {
        Disable();
      }
    }

    method AutoAdaptMode(a: Availability)
      modifies this
      ensures Modes() == AutoAdapt(old(Modes()), a)
      ensures Registry() == old(Registry())
    {
      if overrideAdaptiveMode {
        return;
      }
      var mode := AutoMode(a);
      if mode != adaptiveMode {
        SetAdaptiveMode(mode);
      }
      if mode != adaptiveBrightnessMode {
        adaptiveBrightnessMode := mode;
      }
    }

    method ActivateClamshellMode()
      modifies this
      ensures Modes() == ActivateClamshell(old(Modes()))
      ensures Registry() == old(Registry())
    {
      if adaptiveMode == Sync {
        clamshellMode := true;
        Disable();
      }
    }

    method DeactivateClamshellMode(a: Availability)
      modifies this
      ensures Modes() == DeactivateClamshell(old(Modes()), a)
      ensures Registry() == old(Registry())
    {
      if adaptiveMode == Manual {
        clamshellMode := false;
        Enable(None, a);
      }
    }

    // -------------------------------------------------------------------------
    // Registry

    /** Assignment to `displays`, with its observer recomputing `activeDisplays`. */
    method SetDisplays(ds: map<DisplayId, Display>)
      modifies this
      ensures displays == ds && activeDisplays == ActiveOf(ds)
      ensures Modes() == old(Modes())
      ensures runningAppExceptions == old(runningAppExceptions) && fallbackPromptTime == old(fallbackPromptTime)
    {
      displays := ds;
      activeDisplays := ActiveOf(ds);
    }

    method RemoveDisplay(id: DisplayId)
      modifies this
      ensures displays == old(displays) - {id}
      ensures activeDisplays == ActiveOf(displays) && id !in activeDisplays
      ensures Modes() == old(Modes())
      ensures runningAppExceptions == old(runningAppExceptions) && fallbackPromptTime == old(fallbackPromptTime)
    {
      SetDisplays(displays - {id});
      ActiveAfterRemoval(old(displays), id);
    }

    // -------------------------------------------------------------------------
    // Fallback prompt

    /** One display's turn in the control watchdog: while the screens sleep the
        tick does nothing; otherwise re-resolve the display's control, decide
        whether to prompt, and if so record the prompt time. The prompt itself
        and its outcomes are not part of this model. */
    method CheckFallback(d: Display, screensSleeping: bool, controlResponsive: bool, now: int) returns (prompt: bool)
      modifies this`fallbackPromptTime, d`control
      ensures d.control == if screensSleeping then old(d.control) else d.bestControl(d.enabledControls)
      ensures !screensSleeping ==>
                prompt == ShouldPromptAboutFallback(d.neverFallbackControl, screensSleeping, d.screen,
                                                    controlResponsive, old(fallbackPromptTime), d.id, now)
      ensures screensSleeping ==> !prompt
      ensures fallbackPromptTime == if prompt then old(fallbackPromptTime)[d.id := now] else old(fallbackPromptTime)
      ensures d.enabledControls == old(d.enabledControls) && d.screen == old(d.screen) && d.info == old(d.info)
      ensures d.neverFallbackControl == old(d.neverFallbackControl) && d.active == old(d.active)
      ensures d.brightness == old(d.brightness) && d.contrast == old(d.contrast) && d.volume == old(d.volume)
      ensures d.adaptive == old(d.adaptive) && d.isSource == old(d.isSource)
      ensures Modes() == old(Modes()) && displays == old(displays) && activeDisplays == old(activeDisplays)
      ensures runningAppExceptions == old(runningAppExceptions)
    {
      if screensSleeping {
        return false;
      }
      d.control := d.bestControl(d.enabledControls);
      prompt := ShouldPromptAboutFallback(d.neverFallbackControl, screensSleeping, d.screen,
                                          controlResponsive, fallbackPromptTime, d.id, now);
      if prompt {
        fallbackPromptTime := fallbackPromptTime[d.id := now];
      }
    }

    // -------------------------------------------------------------------------
    // Matching

    /** `getMatchingDisplay`: a fully matching display if there is one, otherwise
        one with the highest partial score; nothing only without displays. */
    method GetMatchingDisplay(q: MatchQuery) returns (r: Option<Display>)
      ensures r.None? <==> displays == map[]
      ensures r.Some? ==> r.value in displays.Values
      ensures (exists d :: d in displays.Values && FullMatch(d.info, q)) ==> r.Some? && FullMatch(r.value.info, q)
      ensures r.Some? && !FullMatch(r.value.info, q) ==>
                forall d :: d in displays.Values ==>
                  !FullMatch(d.info, q) && PartialMatchScore(d.info, q) <= PartialMatchScore(r.value.info, q)
    {
      var rest := displays.Values;
      while rest != {}
        invariant rest <= displays.Values
        invariant forall d :: d in displays.Values && d !in rest ==> !FullMatch(d.info, q)
        decreases |rest|
      {
        var d :| d in rest;
        if FullMatch(d.info, q) {
          return Some(d);
        }
        rest := rest - {d};
      }
      rest := displays.Values;
      r := None;
      while rest != {}
        invariant rest <= displays.Values
        invariant r.None? ==> rest == displays.Values
        invariant r.Some? ==> r.value in displays.Values
        invariant r.Some? ==> forall d :: d in displays.Values && d !in rest ==>
                                PartialMatchScore(d.info, q) <= PartialMatchScore(r.value.info, q)
        invariant displays.Values != {} ==> r.Some? || rest != {}
        decreases |rest|
      {
        var d :| d in rest;
        if r.None? || PartialMatchScore(r.value.info, q) <= PartialMatchScore(d.info, q) {
          r := Some(d);
        }
        rest := rest - {d};
      }
      if displays != map[] {
        var k :| k in displays;
        assert displays[k] in displays.Values;
      }
    }

    // -------------------------------------------------------------------------
    // Adjustment

    /** The displays `adjustValue` works on: the current audio display when asked
        for, else the current display when asked for, else the given list, else
        every active display. The current and audio displays are inputs. */
    function TargetSet(explicit: Option<seq<Display>>, useCurrent: bool, useAudio: bool,
                       current: Option<Display>, audio: Option<Display>): (r: set<Display>)
      reads this
      ensures useAudio ==> r == OptionSet(audio)
      ensures !useAudio && useCurrent ==> r == OptionSet(current)
      ensures !useAudio && !useCurrent && explicit.Some? ==> r == Elements(explicit.value)
      ensures !useAudio && !useCurrent && explicit.None? ==> r == activeDisplays.Values
    {
      if useAudio then OptionSet(audio)
      else if useCurrent then OptionSet(current)
      else if explicit.Some? then Elements(explicit.value)
      else activeDisplays.Values
    }

    /** How many times `adjustValue` calls its closure. */
    function TargetCount(explicit: Option<seq<Display>>, useCurrent: bool, useAudio: bool,
                         current: Option<Display>, audio: Option<Display>): (n: nat)
      reads this
      ensures |TargetSet(explicit, useCurrent, useAudio, current, audio)| <= n
    {
      if useAudio then |OptionSet(audio)|
      else if useCurrent then |OptionSet(current)|
      else if explicit.Some? then DistinctByCount(explicit.value); |explicit.value|
      else ValuesCount(activeDisplays); |activeDisplays|
    }

    /** `adjustValue`'s choice of targets, in the order the closure runs: the
        given list keeps its order; the active displays come once per id, in
        an unspecified order. */
    method TargetDisplays(explicit: Option<seq<Display>>, useCurrent: bool, useAudio: bool,
                          current: Option<Display>, audio: Option<Display>) returns (ts: seq<Display>)
      ensures Elements(ts) == TargetSet(explicit, useCurrent, useAudio, current, audio)
      ensures |ts| == TargetCount(explicit, useCurrent, useAudio, current, audio)
      ensures !useAudio && !useCurrent && explicit.Some? ==> ts == explicit.value
      ensures forall j :: 0 <= j < |ts| ==> old(allocated(ts[j]))
    {
      if useAudio {
        ts := if audio.Some? then [audio.value] else [];
      } else if useCurrent {
        ts := if current.Some? then [current.value] else [];
      } else if explicit.Some? {
        ts := explicit.value;
      } else {
        var keys := activeDisplays.Keys;
        ts := [];
        while keys != {}
          invariant keys <= activeDisplays.Keys
          invariant |ts| + |keys| == |activeDisplays.Keys|
          invariant forall d :: d in ts ==> d in activeDisplays.Values
          invariant forall k :: k in activeDisplays && k !in keys ==> activeDisplays[k] in ts
          decreases |keys|
        {
          var k :| k in keys;
          ts := ts + [activeDisplays[k]];
          keys := keys - {k};
        }
        forall d | d in activeDisplays.Values
          ensures d in ts
        {
          var k :| k in activeDisplays && activeDisplays[k] == d;
        }
      }
    }

    /** `adjustBrightness(by:)`: each target's brightness is stepped (snapping
        ±6 steps to the chiclet table) and clamped to its own range. With no
        secure adjustments left nothing changes. */
    method AdjustBrightness(offset: int, explicit: Option<seq<Display>>, useCurrent: bool,
                            current: Option<Display>, adjustmentsLeft: bool)
      modifies TargetSet(explicit, useCurrent, false, current, None)`brightness
      ensures !adjustmentsLeft ==> forall d :: d in TargetSet(explicit, useCurrent, false, current, None) ==> d.brightness == old(d.brightness)
      ensures forall d :: d in TargetSet(explicit, useCurrent, false, current, None) && adjustmentsLeft ==>
                d.minBrightness <= d.brightness && (d.minBrightness <= d.maxBrightness ==> d.brightness <= d.maxBrightness)
      ensures |TargetSet(explicit, useCurrent, false, current, None)| == TargetCount(explicit, useCurrent, false, current, None) ==>
                forall d :: d in TargetSet(explicit, useCurrent, false, current, None) ==>
                  d.brightness == if adjustmentsLeft then Cap(FilledChicletValue(old(d.brightness), offset), d.minBrightness, d.maxBrightness)
                                  else old(d.brightness)
    {
      if !adjustmentsLeft {
        return;
      }
      var ts := TargetDisplays(explicit, useCurrent, false, current, None);
      DistinctByCount(ts);
      StepBrightness(ts, offset);
    }

    /** `adjustContrast(by:)`, the same for contrast. */
    method AdjustContrast(offset: int, explicit: Option<seq<Display>>, useCurrent: bool,
                          current: Option<Display>, adjustmentsLeft: bool)
      modifies TargetSet(explicit, useCurrent, false, current, None)`contrast
      ensures !adjustmentsLeft ==> forall d :: d in TargetSet(explicit, useCurrent, false, current, None) ==> d.contrast == old(d.contrast)
      ensures forall d :: d in TargetSet(explicit, useCurrent, false, current, None) && adjustmentsLeft ==>
                d.minContrast <= d.contrast && (d.minContrast <= d.maxContrast ==> d.contrast <= d.maxContrast)
      ensures |TargetSet(explicit, useCurrent, false, current, None)| == TargetCount(explicit, useCurrent, false, current, None) ==>
                forall d :: d in TargetSet(explicit, useCurrent, false, current, None) ==>
                  d.contrast == if adjustmentsLeft then Cap(FilledChicletValue(old(d.contrast), offset), d.minContrast, d.maxContrast)
                                else old(d.contrast)
    {
      if !adjustmentsLeft {
        return;
      }
      var ts := TargetDisplays(explicit, useCurrent, false, current, None);
      DistinctByCount(ts);
      StepContrast(ts, offset);
    }

    /** `adjustVolume(by:)`: the same for volume, clamped to the fixed volume
        bounds; it targets the current audio display when asked to. */
    method AdjustVolume(offset: int, explicit: Option<seq<Display>>, useCurrent: bool, useAudio: bool,
                        current: Option<Display>, audio: Option<Display>)
      modifies TargetSet(explicit, useCurrent, useAudio, current, audio)`volume
      ensures forall d :: d in TargetSet(explicit, useCurrent, useAudio, current, audio) ==>
                MinVolume <= d.volume <= MaxVolume
      ensures |TargetSet(explicit, useCurrent, useAudio, current, audio)| == TargetCount(explicit, useCurrent, useAudio, current, audio) ==>
                forall d :: d in TargetSet(explicit, useCurrent, useAudio, current, audio) ==>
                  d.volume == Cap(FilledChicletValue(old(d.volume), offset), MinVolume, MaxVolume)
    {
      var ts := TargetDisplays(explicit, useCurrent, useAudio, current, audio);
      DistinctByCount(ts);
      StepVolume(ts, offset);
    }
  }

  /** The loop shared by the adjust closures, for brightness: every display in
      `ts` is stepped and clamped in turn. A display listed twice is stepped
      twice, so the exact new value is promised for a list without repeats. */
  method StepBrightness(ts: seq<Display>, offset: int)
    modifies Elements(ts)`brightness
    ensures forall d :: d in ts ==>
              d.minBrightness <= d.brightness && (d.minBrightness <= d.maxBrightness ==> d.brightness <= d.maxBrightness)
    ensures Distinct(ts) ==> forall d :: d in ts ==>
              d.brightness == Cap(FilledChicletValue(old(d.brightness), offset), d.minBrightness, d.maxBrightness)
  {
    var i := 0;
    while i < |ts|
      invariant 0 <= i <= |ts|
      invariant forall j :: 0 <= j < i ==>
                  ts[j].minBrightness <= ts[j].brightness &&
                  (ts[j].minBrightness <= ts[j].maxBrightness ==> ts[j].brightness <= ts[j].maxBrightness)
      invariant Distinct(ts) ==> forall j :: 0 <= j < i ==>
                  ts[j].brightness == Cap(FilledChicletValue(old(ts[j].brightness), offset), ts[j].minBrightness, ts[j].maxBrightness)
      invariant Distinct(ts) ==> forall j :: i <= j < |ts| ==> ts[j].brightness == old(ts[j].brightness)
    {
      var d := ts[i];
      var value := FilledChicletValue(d.brightness, offset);
      value := Cap(value, d.minBrightness, d.maxBrightness);
      d.brightness := value;
      i := i + 1;
    }
  }

  /** The same loop for contrast. */
  method StepContrast(ts: seq<Display>, offset: int)
    modifies Elements(ts)`contrast
    ensures forall d :: d in ts ==>
              d.minContrast <= d.contrast && (d.minContrast <= d.maxContrast ==> d.contrast <= d.maxContrast)
    ensures Distinct(ts) ==> forall d :: d in ts ==>
              d.contrast == Cap(FilledChicletValue(old(d.contrast), offset), d.minContrast, d.maxContrast)
  {
    var i := 0;
    while i < |ts|
      invariant 0 <= i <= |ts|
      invariant forall j :: 0 <= j < i ==>
                  ts[j].minContrast <= ts[j].contrast &&
                  (ts[j].minContrast <= ts[j].maxContrast ==> ts[j].contrast <= ts[j].maxContrast)
      invariant Distinct(ts) ==> forall j :: 0 <= j < i ==>
                  ts[j].contrast == Cap(FilledChicletValue(old(ts[j].contrast), offset), ts[j].minContrast, ts[j].maxContrast)
      invariant Distinct(ts) ==> forall j :: i <= j < |ts| ==> ts[j].contrast == old(ts[j].contrast)
    {
      var d := ts[i];
      var value := FilledChicletValue(d.contrast, offset);
      value := Cap(value, d.minContrast, d.maxContrast);
      d.contrast := value;
      i := i + 1;
    }
  }

  /** The same loop for volume, with the fixed volume bounds. */
  method StepVolume(ts: seq<Display>, offset: int)
    modifies Elements(ts)`volume
    ensures forall d :: d in ts ==> MinVolume <= d.volume <= MaxVolume
    ensures Distinct(ts) ==> forall d :: d in ts ==>
              d.volume == Cap(FilledChicletValue(old(d.volume), offset), MinVolume, MaxVolume)
  {
    var i := 0;
    while i < |ts|
      invariant 0 <= i <= |ts|
      invariant forall j :: 0 <= j < i ==> MinVolume <= ts[j].volume <= MaxVolume
      invariant Distinct(ts) ==> forall j :: 0 <= j < i ==>
                  ts[j].volume == Cap(FilledChicletValue(old(ts[j].volume), offset), MinVolume, MaxVolume)
      invariant Distinct(ts) ==> forall j :: i <= j < |ts| ==> ts[j].volume == old(ts[j].volume)
    {
      var d := ts[i];
      var value := FilledChicletValue(d.volume, offset);
      value := Cap(value, MinVolume, MaxVolume);
      d.volume := value;
      i := i + 1;
    }
  }

  /** A map has at most as many distinct values as keys. */
  lemma ValuesCount<K, V>(m: map<K, V>)
    ensures |m.Values| <= |m|
  {
    var keys := m.Keys;
    assert m.Values == set k | k in keys :: m[k];
    ImageCount(keys, m);
  }

  lemma {:induction false} ImageCount<K, V>(keys: set<K>, m: map<K, V>)
    requires keys <= m.Keys
    ensures |set k | k in keys :: m[k]| <= |keys|
    decreases |keys|
  {
    if keys != {} {
      var k :| k in keys;
      var rest := keys - {k};
      ImageCount(rest, m);
      assert (set j | j in keys :: m[j]) == (set j | j in rest :: m[j]) + {m[k]};
    }
  }
}
