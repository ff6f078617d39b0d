/** The part of a `Display` object that the controller and the settings popover
    read and write. The class itself lives in `Display.swift`, which is not part
    of this model; only the fields used by the modelled code appear here. */
module Displays {
  import opened Common
  import opened DisplayIdentity
  import opened Fallback

  /** The kinds of control a display can be driven through, the keys of
      `enabledControls`. */
  datatype ControlKind = Network | CoreDisplay | DDC | Gamma

  class Display {
    const id: DisplayId
    /** EDID name and the info-dictionary entries used for matching. */
    var info: DisplayInfo
    var active: bool

    var brightness: int
    var minBrightness: int
    var maxBrightness: int
    var contrast: int
    var minContrast: int
    var maxContrast: int
    var volume: int

    var adaptive: bool
    var adaptivePaused: bool
    var isSource: bool

    var enabledControls: map<ControlKind, bool>
    var control: ControlKind
    var neverFallbackControl: bool
    var screen: Option<Screen>

    /** `getBestControl()`, whose body is not part of this model: the control it
        picks is taken to depend on the enabled controls only. */
    const bestControl: map<ControlKind, bool> -> ControlKind

    /** A display as the modelled code receives it; the values of its other
        fields are set by code that is not part of this model. */
    constructor(id: DisplayId, info: DisplayInfo, active: bool,
                brightness: int, minBrightness: int, maxBrightness: int,
                contrast: int, minContrast: int, maxContrast: int, volume: int,
                enabledControls: map<ControlKind, bool>,
                bestControl: map<ControlKind, bool> -> ControlKind)
      ensures this.id == id && this.info == info && this.active == active
      ensures this.brightness == brightness && this.minBrightness == minBrightness && this.maxBrightness == maxBrightness
      ensures this.contrast == contrast && this.minContrast == minContrast && this.maxContrast == maxContrast
      ensures this.volume == volume && this.enabledControls == enabledControls
      ensures this.bestControl == bestControl && control == bestControl(enabledControls)
      ensures adaptive && !adaptivePaused && !isSource && !neverFallbackControl && screen.None?
    {
      this.id := id;
      this.info := info;
      this.active := active;
      this.brightness := brightness;
      this.minBrightness := minBrightness;
      this.maxBrightness := maxBrightness;
      this.contrast := contrast;
      this.minContrast := minContrast;
      this.maxContrast := maxContrast;
      this.volume := volume;
      this.enabledControls := enabledControls;
      this.bestControl := bestControl;
      control := bestControl(enabledControls);
      adaptive := true;
      adaptivePaused := false;
      isSource := false;
      neverFallbackControl := false;
      screen := None;
    }
  }
}
