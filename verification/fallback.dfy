/** The decision whether to offer the software (gamma) fallback for a display
    whose hardware control stopped responding, with its 20-minute cooldown per
    display. Time is a whole number of seconds. */
module Fallback {
  import opened Common

  /** `20.minutes`, in seconds. */
  const PromptCooldown: int := 20 * 60

  /** What the decision reads from the display's `NSScreen`: whether its visible
      frame is empty. `None` stands for a display without a screen. */
  datatype Screen = Screen(visibleFrameEmpty: bool)

  /** `shouldPromptAboutFallback(display)`: never when the user opted out or the
      screens sleep; otherwise only for a display with a visible screen whose
      control is unresponsive, and then only if the last prompt for that display
      is more than 20 minutes old, or there was none. */
  function ShouldPromptAboutFallback(
    neverFallbackControl: bool, screensSleeping: bool, screen: Option<Screen>,
    controlResponsive: bool, promptTimes: map<DisplayId, int>, id: DisplayId, now: int): (r: bool)
    ensures (neverFallbackControl || screensSleeping || screen.None? ||
             (screen.Some? && screen.value.visibleFrameEmpty) || controlResponsive) ==> !r
    ensures (!neverFallbackControl && !screensSleeping && screen.Some? &&
             !screen.value.visibleFrameEmpty && !controlResponsive) ==>
              (r <==> id !in promptTimes || promptTimes[id] + PromptCooldown < now)
  {
    if neverFallbackControl then false
    else if !screensSleeping && screen.Some? && !screen.value.visibleFrameEmpty && !controlResponsive then
      if id in promptTimes then promptTimes[id] + PromptCooldown < now else true
    else false
  }

  /** Once a prompt is recorded at time `t`, the same display is not prompted
      again until more than 20 minutes have passed, while the decision for every
      other display is what it was before. */
  lemma PromptCooldownHolds(
    neverFallbackControl: bool, screensSleeping: bool, screen: Option<Screen>,
    controlResponsive: bool, promptTimes: map<DisplayId, int>, id: DisplayId, t: int, other: DisplayId, now: int)
    ensures now <= t + PromptCooldown ==>
              !ShouldPromptAboutFallback(neverFallbackControl, screensSleeping, screen, controlResponsive,
                                         promptTimes[id := t], id, now)
    ensures other != id ==>
              ShouldPromptAboutFallback(neverFallbackControl, screensSleeping, screen, controlResponsive,
                                        promptTimes[id := t], other, now) ==
              ShouldPromptAboutFallback(neverFallbackControl, screensSleeping, screen, controlResponsive,
                                        promptTimes, other, now)
  {
  }

  /** The cooldown ends: a display that would be prompted without a record is
      prompted again once more than 20 minutes have passed since the last one. */
  lemma PromptResumesAfterCooldown(
    screen: Option<Screen>, promptTimes: map<DisplayId, int>, id: DisplayId, t: int, now: int)
    requires screen.Some? && !screen.value.visibleFrameEmpty
    requires t + PromptCooldown < now
    ensures ShouldPromptAboutFallback(false, false, screen, false, promptTimes[id := t], id, now)
    ensures ShouldPromptAboutFallback(false, false, screen, false, map[], id, now)
  {
  }
}
