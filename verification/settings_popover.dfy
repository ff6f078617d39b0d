/** The per-display settings popover: the four control-capability toggles, the
    "adapt automatically" and "sync source" toggles, and the guard that keeps at
    least one way of controlling the display enabled. */
module SettingsPopover {
  import opened Common
  import opened Displays

  const AllControls: set<ControlKind> := {Network, CoreDisplay, DDC, Gamma}

  /** Position of a checkbox in the popover, top to bottom. */
  function Position(k: ControlKind): (p: nat)
    ensures p < 4
  {
    match k
    case Network => 0
    case CoreDisplay => 1
    case DDC => 2
    case Gamma => 3
  }

  /** The two properties of an `NSButton` checkbox the popover uses:
      `state == .on` and `isEnabled`. */
  datatype Checkbox = Checkbox(on: bool, isEnabled: bool)

  datatype Checkboxes = Checkboxes(network: Checkbox, coreDisplay: Checkbox, ddc: Checkbox, gamma: Checkbox)
  {
    function Get(k: ControlKind): Checkbox {
      match k
      case Network => network
      case CoreDisplay => coreDisplay
      case DDC => ddc
      case Gamma => gamma
    }

    function With(k: ControlKind, c: Checkbox): (r: Checkboxes)
      ensures r.Get(k) == c
      ensures forall j :: j != k ==> r.Get(j) == Get(j)
    {
      match k
      case Network => this.(network := c)
      case CoreDisplay => this.(coreDisplay := c)
      case DDC => this.(ddc := c)
      case Gamma => this.(gamma := c)
    }
  }

  /** `lastEnabledCheckbox`: the topmost checkbox that is on, if any. */
  function LastEnabledCheckbox(cs: Checkboxes): (r: Option<ControlKind>)
    ensures r.Some? ==> cs.Get(r.value).on
    ensures r.Some? ==> forall k :: Position(k) < Position(r.value) ==> !cs.Get(k).on
    ensures r.None? <==> forall k :: !cs.Get(k).on
  {
    if cs.network.on then Some(Network)
    else if cs.coreDisplay.on then Some(CoreDisplay)
    else if cs.ddc.on then Some(DDC)
    else if cs.gamma.on then Some(Gamma)
    else None
  }

  /** The number of `true` values in `enabledControls`; absent keys do not count. */
  function EnabledCount(m: map<ControlKind, bool>): nat {
    |set k | k in m && m[k]|
  }

  /** `enabledControls[k] ?? true`: a control is enabled unless explicitly off. */
  predicate EffectivelyEnabled(m: map<ControlKind, bool>, k: ControlKind) {
    k !in m || m[k]
  }

  function Effective(m: map<ControlKind, bool>): set<ControlKind> {
    set k | k in AllControls && EffectivelyEnabled(m, k)
  }

  /** The result of `ensureAtLeastOneControlEnabled` on the controls and the checkboxes. */
  datatype Outcome = Outcome(controls: map<ControlKind, bool>, checkboxes: Checkboxes, forcedGamma: bool)

  /** `ensureAtLeastOneControlEnabled`: with at most one control on, lock the
      topmost checked checkbox, or, with no checkbox checked, force gamma on and
      lock its checkbox; with more than one control on, unlock every checkbox. */
  function EnsureControls(m: map<ControlKind, bool>, cs: Checkboxes): (r: Outcome)
    ensures EnabledCount(m) <= 1 && LastEnabledCheckbox(cs).Some? ==>
              var k := LastEnabledCheckbox(cs).value;
              r == Outcome(m, cs.With(k, cs.Get(k).(isEnabled := false)), false)
    ensures EnabledCount(m) <= 1 && LastEnabledCheckbox(cs).None? ==>
              r == Outcome(m[Gamma := true], cs.(gamma := cs.gamma.(isEnabled := false)), true)
    ensures EnabledCount(m) > 1 ==>
              r.controls == m && !r.forcedGamma &&
              forall k :: r.checkboxes.Get(k) == cs.Get(k).(isEnabled := true)
  {
    if EnabledCount(m) <= 1 then
      match LastEnabledCheckbox(cs)
      case Some(k) => Outcome(m, cs.With(k, cs.Get(k).(isEnabled := false)), false)
      case None => Outcome(m[Gamma := true], cs.(gamma := cs.gamma.(isEnabled := false)), true)
    else
      Outcome(m, Checkboxes(cs.network.(isEnabled := true), cs.coreDisplay.(isEnabled := true),
                            cs.ddc.(isEnabled := true), cs.gamma.(isEnabled := true)), false)
  }

  // ---------------------------------------------------------------------------
  // The guard keeps the display controllable

  /** Each checkbox shows whether its control is enabled. */
  predicate Mirrors(m: map<ControlKind, bool>, cs: Checkboxes) {
    forall k :: cs.Get(k).on == EffectivelyEnabled(m, k)
  }

  /** When only one control is still enabled, its checkbox cannot be clicked. */
  predicate LastControlLocked(m: map<ControlKind, bool>, cs: Checkboxes) {
    forall k :: Effective(m) == {k} ==> !cs.Get(k).isEnabled
  }

  /** A user click on checkbox `k`: the checkbox flips, the capability setter
      writes the new value into `enabledControls`, and the guard runs. Only the
      clicked entry changes, except that the guard may switch gamma on; no
      other checkbox changes its state. */
  function Click(m: map<ControlKind, bool>, cs: Checkboxes, k: ControlKind): (r: Outcome)
    ensures k in r.controls && r.controls[k] == (!cs.Get(k).on || (k == Gamma && r.forcedGamma))
    ensures r.checkboxes.Get(k).on == !cs.Get(k).on
    ensures forall j :: j != k && !(j == Gamma && r.forcedGamma) ==>
              (j in r.controls <==> j in m) && (j in m ==> r.controls[j] == m[j])
    ensures forall j :: j != k ==> r.checkboxes.Get(j).on == cs.Get(j).on
    ensures r.forcedGamma ==> Gamma in r.controls && r.controls[Gamma]
  {
    var v := !cs.Get(k).on;
    EnsureControls(m[k := v], cs.With(k, cs.Get(k).(on := v)))
  }

  lemma AllControlsListed()
    ensures forall k: ControlKind :: k in AllControls
  {
    forall k: ControlKind
      ensures k in AllControls
    {
      match k
      case Network =>
      case CoreDisplay =>
      case DDC =>
      case Gamma =>
    }
  }

  lemma ExplicitAreEffective(m: map<ControlKind, bool>)
    ensures (set k | k in m && m[k]) <= Effective(m)
    ensures EnabledCount(m) <= |Effective(m)|
  {
    AllControlsListed();
    var explicit := set k | k in m && m[k];
    assert explicit <= Effective(m);
    SubsetCard(explicit, Effective(m));
  }

  lemma SubsetCard<T>(a: set<T>, b: set<T>)
    requires a <= b
    ensures |a| <= |b|
  {
    assert b == a + (b - a);
  }

  /** A click on an enabled checkbox keeps the checkboxes showing the controls
      and leaves some control enabled: the last enabled control is locked, so
      the click cannot switch it off. */
  lemma ClickLeavesOneEnabled(m: map<ControlKind, bool>, cs: Checkboxes, k: ControlKind)
    requires Mirrors(m, cs) && Effective(m) != {} && LastControlLocked(m, cs)
    requires cs.Get(k).isEnabled
    ensures var v := !cs.Get(k).on;
            Mirrors(m[k := v], cs.With(k, cs.Get(k).(on := v))) && Effective(m[k := v]) != {}
  {
    AllControlsListed();
    var v := !cs.Get(k).on;
    var m1 := m[k := v];
    if !v {
      assert EffectivelyEnabled(m, k);
      assert Effective(m) != {k};
      var j :| j in Effective(m) && j != k;
      assert j in Effective(m1);
    } else {
      assert k in Effective(m1);
    }
  }

  /** Whatever the locks, a click on a checkbox that shows its control leaves
      some control enabled: either a checked checkbox remains, whose control is
      enabled, or the guard forces gamma on. */
  lemma ClickAlwaysLeavesOne(m: map<ControlKind, bool>, cs: Checkboxes, k: ControlKind)
    requires Mirrors(m, cs)
    ensures Effective(Click(m, cs, k).controls) != {}
  {
    AllControlsListed();
    var v := !cs.Get(k).on;
    var m1 := m[k := v];
    var cs1 := cs.With(k, cs.Get(k).(on := v));
    var r := Click(m, cs, k);
    if r.forcedGamma {
      assert Gamma in Effective(r.controls);
    } else if EnabledCount(m1) > 1 {
      var explicit := set j | j in m1 && m1[j];
      var x :| x in explicit;
      assert x in Effective(r.controls);
    } else {
      var j := LastEnabledCheckbox(cs1).value;
      assert cs1.Get(j).on;
      assert EffectivelyEnabled(m1, j);
      assert j in Effective(r.controls);
    }
  }

  /** With at most one control explicitly on and some control enabled, the guard
      locks the topmost checked checkbox, which is the last enabled control's
      whenever only one is left. */
  lemma GuardLocksLast(m: map<ControlKind, bool>, cs: Checkboxes)
    requires Mirrors(m, cs) && Effective(m) != {} && EnabledCount(m) <= 1
    ensures var r := EnsureControls(m, cs);
            !r.forcedGamma && r.controls == m && Mirrors(m, r.checkboxes) && LastControlLocked(m, r.checkboxes)
  {
    AllControlsListed();
    var j :| j in Effective(m);
    assert cs.Get(j).on;
    var first := LastEnabledCheckbox(cs).value;
    var r := EnsureControls(m, cs);
    forall i | Effective(m) == {i}
      ensures !r.checkboxes.Get(i).isEnabled
    {
      assert first in Effective(m);
    }
  }

  /** With two or more controls explicitly on, no control is the last one. */
  lemma ManyHaveNoLast(m: map<ControlKind, bool>)
    requires EnabledCount(m) > 1
    ensures forall i :: Effective(m) != {i}
  {
    ExplicitAreEffective(m);
    var explicit := set i | i in m && m[i];
    var x :| x in explicit;
    assert |explicit - {x}| >= 1;
    var y :| y in explicit - {x};
    forall i
      ensures Effective(m) != {i}
    {
      var z := if x != i then x else y;
      assert z in Effective(m) && z != i;
    }
  }

  /** Clicking an enabled checkbox leaves at least one control enabled, never
      reaches the branch that forces gamma, keeps every checkbox showing its
      control and keeps the last enabled control locked: starting from a
      controllable display, no sequence of clicks makes it uncontrollable. */
  lemma ClickKeepsControllable(m: map<ControlKind, bool>, cs: Checkboxes, k: ControlKind)
    requires Mirrors(m, cs) && Effective(m) != {} && LastControlLocked(m, cs)
    requires cs.Get(k).isEnabled
    ensures var r := Click(m, cs, k);
            !r.forcedGamma && Effective(r.controls) != {} &&
            Mirrors(r.controls, r.checkboxes) && LastControlLocked(r.controls, r.checkboxes)
  {
    ClickLeavesOneEnabled(m, cs, k);
    var v := !cs.Get(k).on;
    var m1 := m[k := v];
    var cs1 := cs.With(k, cs.Get(k).(on := v));
    if EnabledCount(m1) <= 1 {
      GuardLocksLast(m1, cs1);
    } else {
      ManyHaveNoLast(m1);
    }
  }

  /** Checked checkboxes exist exactly when some control is enabled, so under
      `Mirrors` the forcing branch runs only when every control is switched off. */
  lemma ForcedOnlyWhenAllOff(m: map<ControlKind, bool>, cs: Checkboxes)
    requires Mirrors(m, cs)
    ensures EnsureControls(m, cs).forcedGamma <==> EnabledCount(m) <= 1 && Effective(m) == {}
  {
    AllControlsListed();
    if Effective(m) != {} {
      var j :| j in Effective(m);
      assert cs.Get(j).on;
      assert LastEnabledCheckbox(cs).Some?;
    } else {
      forall k
        ensures !cs.Get(k).on
      {
        assert k !in Effective(m);
      }
      assert LastEnabledCheckbox(cs).None?;
    }
  }

  /** After forcing, gamma is enabled. */
  lemma ForcedGammaEnabled(m: map<ControlKind, bool>, cs: Checkboxes)
    requires EnsureControls(m, cs).forcedGamma
    ensures var r := EnsureControls(m, cs);
            EnabledCount(r.controls) >= 1 && r.controls[Gamma] && !r.checkboxes.gamma.isEnabled
  {
    var r := EnsureControls(m, cs);
    var explicit := set k | k in r.controls && r.controls[k];
    assert Gamma in explicit;
    SubsetCard({Gamma}, explicit);
  }

  // ---------------------------------------------------------------------------
  // The controller

  class SettingsPopoverController {
    var display: Display?
    var applySettings: bool
    var adaptive: bool
    var isSource: bool
    var networkEnabled: bool
    var coreDisplayEnabled: bool
    var ddcEnabled: bool
    var gammaEnabled: bool
    var checkboxes: Checkboxes

    /** The display the popover shows, as a set of at most one object. */
    function DisplaySet(): set<Display>
      reads this
    {
      if display == null then {} else {display}
    }

    /** The capability flag bound to control `k`. */
    function Flag(k: ControlKind): bool
      reads this
    {
      match k
      case Network => networkEnabled
      case CoreDisplay => coreDisplayEnabled
      case DDC => ddcEnabled
      case Gamma => gammaEnabled
    }

    constructor(checkboxes: Checkboxes)
      ensures display == null && applySettings && adaptive && !isSource
      ensures forall k :: Flag(k)
      ensures this.checkboxes == checkboxes
    {
      display := null;
      applySettings := true;
      adaptive := true;
      isSource := false;
      networkEnabled := true;
      coreDisplayEnabled := true;
      ddcEnabled := true;
      gammaEnabled := true;
      this.checkboxes := checkboxes;
    }

    /** Plain assignment to one capability flag, without its observer. */
    method AssignFlag(k: ControlKind, v: bool)
      modifies this
      ensures Flag(k) == v && forall j :: j != k ==> Flag(j) == old(Flag(j))
      ensures display == old(display) && applySettings == old(applySettings)
      ensures checkboxes == old(checkboxes) && adaptive == old(adaptive) && isSource == old(isSource)
    {
      match k
      case Network => networkEnabled := v;
      case CoreDisplay => coreDisplayEnabled := v;
      case DDC => ddcEnabled := v;
      case Gamma => gammaEnabled := v;
    }

    /** Assignment to `display`: with `applySettings` off, so that no observer
        writes back, the flags are loaded from the display's `enabledControls`
        (absent keys reading as enabled) and the two toggles are set to the
        display's `adaptive` and `isSource`. Whether setting a toggle runs its
        callback is up to the toggle class, which is not part of this model, so
        it is the parameter `togglesRunCallbacks`. When it does, the popover's
        `adaptive` and `isSource` take the display's values, and a sync toggle
        switched on clears `isSource` on every display of `registry`, the
        controller's displays. */
    method SetDisplay(d: Display?, togglesRunCallbacks: bool, registry: set<Display>)
      modifies this, registry`isSource
      ensures display == d && applySettings == (d != null || old(applySettings))
      ensures d != null ==> forall k :: Flag(k) == EffectivelyEnabled(d.enabledControls, k)
      ensures d == null ==> forall k :: Flag(k) == old(Flag(k))
      ensures checkboxes == old(checkboxes)
      ensures d != null && togglesRunCallbacks ==> adaptive == old(d.adaptive) && isSource == old(d.isSource)
      ensures !(d != null && togglesRunCallbacks) ==> adaptive == old(adaptive) && isSource == old(isSource)
      ensures d != null && togglesRunCallbacks && old(d.isSource) ==> forall e :: e in registry ==> !e.isSource
      ensures !(d != null && togglesRunCallbacks && old(d.isSource)) ==>
                forall e :: e in registry ==> e.isSource == old(e.isSource)
    {
      display := d;
      if d == null {
        return;
      }
      applySettings := false;
      LoadFlags(d.enabledControls);
      if togglesRunCallbacks {
        ToggleCallbacks(d.adaptive, d.isSource, registry);
      }
      applySettings := true;
    }

    /** The four flag assignments of the `display` observer, each reading an
        absent key as enabled. */
    method LoadFlags(m: map<ControlKind, bool>)
      modifies this`networkEnabled, this`coreDisplayEnabled, this`ddcEnabled, this`gammaEnabled
      ensures forall k :: Flag(k) == EffectivelyEnabled(m, k)
    {
      networkEnabled := EffectivelyEnabled(m, Network);
      coreDisplayEnabled := EffectivelyEnabled(m, CoreDisplay);
      ddcEnabled := EffectivelyEnabled(m, DDC);
      gammaEnabled := EffectivelyEnabled(m, Gamma);
    }

    /** The callbacks of the "adapt automatically" and "sync source" toggles, set
        to `adaptiveOn` and `sourceOn` while `applySettings` is off, so that the
        observers of `adaptive` and `isSource` return at once. Switching the sync
        toggle on clears `isSource` on every display of `registry`. */
    method ToggleCallbacks(adaptiveOn: bool, sourceOn: bool, registry: set<Display>)
      modifies this`adaptive, this`isSource, registry`isSource
      ensures adaptive == adaptiveOn && isSource == sourceOn
      ensures sourceOn ==> forall e :: e in registry ==> !e.isSource
      ensures !sourceOn ==> forall e :: e in registry ==> e.isSource == old(e.isSource)
    {
      adaptive := adaptiveOn;
      isSource := sourceOn;
      if sourceOn {
        forall e | e in registry {
          e.isSource := false;
        }
      }
    }

    /** Assignment to `adaptive`: resuming clears the display's pause; pausing
        leaves it as it was. */
    method SetAdaptive(v: bool)
      modifies this, DisplaySet()`adaptive, DisplaySet()`adaptivePaused
      ensures adaptive == v && display == old(display) && applySettings == old(applySettings)
      ensures old(applySettings) && display != null ==>
                display.adaptive == v && display.adaptivePaused == (old(display.adaptivePaused) && !v)
      ensures !old(applySettings) && display != null ==>
                display.adaptive == old(display.adaptive) && display.adaptivePaused == old(display.adaptivePaused)
      ensures display != null ==> display.enabledControls == old(display.enabledControls) && display.isSource == old(display.isSource)
      ensures forall k :: Flag(k) == old(Flag(k))
      ensures checkboxes == old(checkboxes) && isSource == old(isSource)
    {
      adaptive := v;
      if !applySettings || display == null {
        return;
      }
      if v {
        display.adaptivePaused := false;
      }
      display.adaptive := v;
    }

    /** Assignment to `isSource`, copied to the display. */
    method SetIsSource(v: bool)
      modifies this, DisplaySet()`isSource
      ensures isSource == v && display == old(display) && applySettings == old(applySettings)
      ensures display != null ==> display.isSource == if old(applySettings) then v else old(display.isSource)
      ensures display != null ==> display.enabledControls == old(display.enabledControls) && display.adaptive == old(display.adaptive)
      ensures forall k :: Flag(k) == old(Flag(k))
      ensures checkboxes == old(checkboxes) && adaptive == old(adaptive)
    {
      isSource := v;
      if !applySettings || display == null {
        return;
      }
      display.isSource := v;
    }

    method EnsureAtLeastOneControlEnabled()
      modifies this, DisplaySet()`enabledControls
      ensures display == old(display) && adaptive == old(adaptive) && isSource == old(isSource)
      ensures display == null ==> checkboxes == old(checkboxes) && applySettings == old(applySettings) &&
                                  forall k :: Flag(k) == old(Flag(k))
      ensures display != null ==>
                var o := EnsureControls(old(display.enabledControls), old(checkboxes));
                display.enabledControls == o.controls && checkboxes == o.checkboxes &&
                applySettings == (o.forcedGamma || old(applySettings)) &&
                Flag(Gamma) == (o.forcedGamma || old(Flag(Gamma))) &&
                forall k :: k != Gamma ==> Flag(k) == old(Flag(k))
      ensures display != null ==> display.control == old(display.control) && display.adaptive == old(display.adaptive)
      ensures display != null ==> display.isSource == old(display.isSource)
    {
      if display == null {
        return;
      }
      if EnabledCount(display.enabledControls) <= 1 {
        var last := LastEnabledCheckbox(checkboxes);
        if last.Some? {
          var k := last.value;
          checkboxes := checkboxes.With(k, checkboxes.Get(k).(isEnabled := false));
        } else {
          applySettings := false;
          // the flag's observer returns at once while `applySettings` is off
          AssignFlag(Gamma, true);
          display.enabledControls := display.enabledControls[Gamma := gammaEnabled];
          assert forall k :: k != Gamma ==> Flag(k) == old(Flag(k));
          applySettings := true;
          checkboxes := checkboxes.(gamma := checkboxes.gamma.(isEnabled := false));
        }
      } else {
        checkboxes := Checkboxes(checkboxes.network.(isEnabled := true), checkboxes.coreDisplay.(isEnabled := true),
                                 checkboxes.ddc.(isEnabled := true), checkboxes.gamma.(isEnabled := true));
      }
    }

    /** Assignment to one of `networkEnabled`, `coreDisplayEnabled`, `ddcEnabled`
        and `gammaEnabled`: the observer writes that one key of the display's
        `enabledControls`, re-resolves the display's control from the new map and
        runs the guard. */
    method SetControlEnabled(k: ControlKind, v: bool)
      modifies this, DisplaySet()`enabledControls, DisplaySet()`control
      ensures display == old(display) && adaptive == old(adaptive) && isSource == old(isSource)
      ensures !old(applySettings) || display == null ==>
                Flag(k) == v && (forall j :: j != k ==> Flag(j) == old(Flag(j))) &&
                checkboxes == old(checkboxes) && applySettings == old(applySettings)
      ensures !old(applySettings) && display != null ==>
                display.enabledControls == old(display.enabledControls) && display.control == old(display.control)
      ensures old(applySettings) && display != null ==>
                var written := old(display.enabledControls)[k := v];
                var o := EnsureControls(written, old(checkboxes));
                display.control == display.bestControl(written) &&
                display.enabledControls == o.controls && checkboxes == o.checkboxes && applySettings &&
                forall j :: Flag(j) == ((if j == k then v else old(Flag(j))) || (j == Gamma && o.forcedGamma))
      ensures display != null ==> display.adaptive == old(display.adaptive) && display.isSource == old(display.isSource)
    {
      AssignFlag(k, v);
      if !applySettings || display == null {
        return;
      }
      display.enabledControls := display.enabledControls[k := v];
      display.control := display.bestControl(display.enabledControls);
      EnsureAtLeastOneControlEnabled();
    }
  }
}
