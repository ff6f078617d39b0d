# Lunar display controller, modelled in Dafny

This project models the core of Lunar's display control in Dafny and proves properties of it. Two source files make up that core:

- `DisplayController`, the engine that keeps track of the connected displays, chooses the adaptive brightness mode, matches stored displays against freshly enumerated ones, decides when to offer the software (gamma) fallback, and applies keyboard adjustments of brightness, contrast and volume.
- The settings popover, whose capability toggles must never leave a display without a way of being controlled.

The files are laid out as follows.

- `common.dfy` (`Common`): `Option`, `Abs`, `Cap` and the display id type.
- `chiclets.dfy` (`FilledChiclets`): `getFilledChicletValue`. A key step of exactly ±6 snaps onto the threshold table drawn as the on-screen "chiclets".
- `identity.dfy` (`DisplayIdentity`): the exact and the fuzzy comparison of a stored display with enumerated EDID attributes. It also holds the rewrite that makes display serials unique.
- `adaptive_mode.dfy` (`AdaptiveModes`): the adaptive-mode state machine, as pure transitions over the mode state.
- `fallback.dfy` (`Fallback`): the decision to prompt about the fallback, with its 20-minute cooldown per display.
- `display.dfy` (`Displays`): the fields of a display object that the modelled code reads and writes.
- `display_controller.dfy` (`Controller`): the `DisplayController` class. Its methods change the registry and mode fields in place and are proved equal to the pure transitions. It also holds display matching, the fallback bookkeeping and the adjustment loops.
- `settings_popover.dfy` (`SettingsPopover`): the popover's setters and `ensureAtLeastOneControlEnabled` as a class. The guard is also a pure function. Lemmas prove about it that, when every checkbox shows its capability flag, a click never leaves the display with no enabled control, and that, with the last enabled control locked, no sequence of clicks even reaches the branch that forces gamma on.

## Model

| member | source | states |
|---|---|---|
| FilledChiclets.NearestIndex | Lunar/Utils/DisplayController.swift:893 | The index picked is a closest table entry to the target. Every later entry is strictly farther, so of equally close entries the last one is picked, as `min(by: <=)` does. |
| FilledChiclets.SnapToThresholds | Lunar/Utils/DisplayController.swift:889-899 | An offset other than ±6 is added unchanged. An offset of ±6 always yields an entry of the table. |
| FilledChiclets.FilledChicletValue | Lunar/Utils/DisplayController.swift:889-899 | On Lunar's table, an offset other than ±6 is added as is. A ±6 step lands on a table entry between 0 and 100. |
| FilledChiclets.ThresholdsWellSpaced | Lunar/Utils/DisplayController.swift:907 | The threshold table is non-empty and ascending, with neighbouring entries 6 to 11 apart. |
| FilledChiclets.SpacedApart | Lunar/Utils/DisplayController.swift:907 | In such a table, entries j−i positions apart differ by at least 6·(j−i). |
| FilledChiclets.InTableBounds | Lunar/Utils/DisplayController.swift:907 | Every entry lies between the first and the last entry. |
| FilledChiclets.SnapWithinTable | Lunar/Utils/DisplayController.swift:892-896 | A ±6 step never leaves the span of the table. |
| FilledChiclets.NearestIsUnique | Lunar/Utils/DisplayController.swift:893 | An entry strictly closer than all others is the one picked. |
| FilledChiclets.NearestIsLastClosest | Lunar/Utils/DisplayController.swift:893 | An entry picked from a tie is the last of the equally close entries. |
| FilledChiclets.StepUpFromEntry | Lunar/Utils/DisplayController.swift:892-896 | From a table entry, +6 gives the next entry, or the last entry again at the top. |
| FilledChiclets.StepDownFromEntry | Lunar/Utils/DisplayController.swift:892-896 | From a table entry, −6 gives the previous entry, or the first entry again at the bottom. |
| FilledChiclets.FirstAbove | Lunar/Utils/DisplayController.swift:907 | Below the last entry, some entry is the first one above the value. |
| FilledChiclets.LastBelow | Lunar/Utils/DisplayController.swift:907 | Above the first entry, some entry is the last one below the value. |
| FilledChiclets.StepUpProgresses | Lunar/Utils/DisplayController.swift:892-896 | Below the top of the table, a +6 step always increases the value. |
| FilledChiclets.StepDownProgresses | Lunar/Utils/DisplayController.swift:892-896 | Above the bottom of the table, a −6 step always decreases the value. |
| FilledChiclets.StaysOnlyAtEnds | Lunar/Utils/DisplayController.swift:894-896 | A ±6 step leaves the value unchanged if and only if it goes down from the first entry or up from the last one, where the backup index is clamped. |
| FilledChiclets.FilledChicletStepping | Lunar/Utils/DisplayController.swift:889-899 | On Lunar's table, a step from an entry moves to the neighbouring entry. The value stays put only at 0 going down or 100 going up. For other values between 0 and 100, the step moves it in its direction; outside that range a ±6 step snaps back onto the table instead. |
| FilledChiclets.ChicletStepFromSix | Lunar/Utils/DisplayController.swift:889-899 | From 6, +6 gives 12. |
| FilledChiclets.ChicletEndExamples | Lunar/Utils/DisplayController.swift:889-899 | 100 + 6 stays at 100, 0 − 6 stays at 0, and 50 + 3 gives 53. |
| FilledChiclets.StepTieGoesUp | Lunar/Utils/DisplayController.swift:893-896 | On any well-spaced table, a +6 step aimed exactly between two neighbouring entries lands on the later one. |
| FilledChiclets.ChicletTieExample | Lunar/Utils/DisplayController.swift:893-896 | From 3, +6 aims at 9, which is equally far from 6 and from 12. The later entry, 12, wins. |
| DisplayIdentity.FullMatch | Lunar/Utils/DisplayController.swift:439-467 | A stored display missing any of the year, serial, product id or vendor entries never fully matches, and a full match needs an equal name or a given vendor id. Both directions of the full case analysis are stated by `FullMatchCases`, and a display matching its own attributes by `FullMatchOwnAttributes`. |
| DisplayIdentity.FullMatchCases | Lunar/Utils/DisplayController.swift:439-467 | A missing year, serial, product id or vendor entry means no full match. With all four entries present, it is a full match if and only if name, year, serial and product id are all equal, or a vendor id is given and equals the stored one. |
| DisplayIdentity.FullMatchOwnAttributes | Lunar/Utils/DisplayController.swift:455-460 | A display with all four entries fully matches its own attributes. |
| DisplayIdentity.NameScore | Lunar/Utils/DisplayController.swift:417 | The name term is 1 exactly for an equal EDID name, and 0 otherwise. |
| DisplayIdentity.YearScore | Lunar/Utils/DisplayController.swift:421-423 | The year term is 1 exactly when the year is present and equal, and 0 otherwise. |
| DisplayIdentity.SerialScore | Lunar/Utils/DisplayController.swift:424-426 | The serial term is between 0 and 3. It is positive exactly when the stored serial is within 2 of the given one, and then it is 3 minus that distance. |
| DisplayIdentity.ProductIDScore | Lunar/Utils/DisplayController.swift:427-429 | The product-id term is nonzero only when the product ids are within 2. Then it equals 3 minus the distance between the stored product id and the serial. |
| DisplayIdentity.VendorScore | Lunar/Utils/DisplayController.swift:430-434 | The vendor term is 0 without a vendor argument. It is positive exactly when a vendor id is given and stored within 2 of it, and then it is 3 minus that distance. |
| DisplayIdentity.AgreeingScore | Lunar/Utils/DisplayController.swift:408-437 | A stored display agreeing on name, year, serial, product id and vendor fully matches, and its partial score is 11 − \|productID − serial\|, because of the product-id term. |
| DisplayIdentity.PartialMatchScore | Lunar/Utils/DisplayController.swift:408-437 | The score never exceeds 11. Its value for a fully agreeing display is stated by `AgreeingScore`, and without a product id by `ScoreWithoutProductID`. |
| DisplayIdentity.ScoreWithoutProductID | Lunar/Utils/DisplayController.swift:417-435 | Without a product-id entry, the score lies between 0 and 8. It is 8 exactly when name, year, serial and vendor id all agree. |
| DisplayIdentity.ProductIDTermMisranks | Lunar/Utils/DisplayController.swift:427-429 | For example, for an LG Ultra HD whose product id is far from its serial, the product-id term makes a display agreeing on every attribute it stores score below zero, while a display agreeing only on the name scores above it. |
| DisplayIdentity.DecimalString | Lunar/Utils/DisplayController.swift:557 | An id renders as a non-empty string of digits. |
| DisplayIdentity.DecimalStringInjective | Lunar/Utils/DisplayController.swift:557 | Different ids render differently. |
| DisplayIdentity.SuffixedSerialsDiffer | Lunar/Utils/DisplayController.swift:557 | `serial-id` strings built from different ids are different, whatever the serials. |
| DisplayIdentity.DistinctByCount | Lunar/Utils/DisplayController.swift:556 | Comparing a list's count with the count of its set detects duplicates exactly. |
| DisplayIdentity.UniqueSerials | Lunar/Utils/DisplayController.swift:555-559 | Without collisions the serials are kept. Otherwise each serial becomes `serial-id` (zip length). Either way the result has no duplicates when the ids have none. |
| DisplayIdentity.SuffixedDistinct | Lunar/Utils/DisplayController.swift:557 | Suffixing with distinct ids yields distinct serials. |
| AdaptiveModes.AutoMode | Lunar/Utils/DisplayController.swift:141-151 | The result is Sensor if available; else Sync if available; else Location if available; else Manual. Each case is an if-and-only-if, and the result is always available. |
| AdaptiveModes.GetAdaptiveMode | Lunar/Utils/DisplayController.swift:129-139 | With the override set, the stored mode is returned and nothing changes. Otherwise the automatic mode is returned and stored. |
| AdaptiveModes.AssignMode | Lunar/Utils/DisplayController.swift:46-54 | The mode becomes the new one. The old mode becomes the last non-manual mode exactly when it was not manual. Nothing else changes. |
| AdaptiveModes.Initial | Lunar/Utils/DisplayController.swift:46-61 | At start, mode, last non-manual mode and stored mode are all the resolved mode, and `lastModeWasAuto` is the negated override. |
| AdaptiveModes.Disable | Lunar/Utils/DisplayController.swift:161-170 | Afterwards the mode is manual, the override is set and the stored mode is manual. The mode left becomes the last non-manual mode, and `lastModeWasAuto` is raised only if the override was off. |
| AdaptiveModes.Enable | Lunar/Utils/DisplayController.swift:172-185 | A requested mode is taken. Otherwise, after an automatic disable, the automatic mode is taken with the override cleared; else the last non-manual mode if available; else the resolved mode. The chosen mode is always stored, and the mode left is remembered as the last non-manual mode when it was not manual. |
| AdaptiveModes.Toggle | Lunar/Utils/DisplayController.swift:153-159 | From a non-manual mode the result is the disabled state: manual, override set, stored mode manual, the old mode remembered, `lastModeWasAuto` raised if the override was off. From manual the mode resumes: the automatic mode with the override cleared after an automatic disable, else the last non-manual mode if available, else the resolved mode. The resumed mode is stored. |
| AdaptiveModes.AutoAdapt | Lunar/Utils/DisplayController.swift:278-288 | With the override set, nothing changes. Otherwise the mode and the stored mode become the automatic mode, and a non-manual mode that is switched away from is remembered as the last non-manual mode. The clamshell flag, the override and `lastModeWasAuto` are kept. |
| AdaptiveModes.ActivateClamshell | Lunar/Utils/DisplayController.swift:671-676 | In sync mode, the clamshell flag is set and the state is the disabled state, with sync remembered as the last non-manual mode. Otherwise nothing changes. |
| AdaptiveModes.DeactivateClamshell | Lunar/Utils/DisplayController.swift:678-683 | In manual mode, the clamshell flag is cleared and the mode resumes as `Toggle` describes for enabling. Otherwise nothing changes. |
| AdaptiveModes.DisableEnableResumesAuto | Lunar/Utils/DisplayController.swift:161-185 | Disable then enable, starting without the override, returns to the automatic mode with the override cleared. |
| AdaptiveModes.DisableEnableResumesExplicit | Lunar/Utils/DisplayController.swift:161-185 | Disable then enable restores an explicitly chosen mode that is still available. |
| AdaptiveModes.ToggleTwiceRestores | Lunar/Utils/DisplayController.swift:153-185 | Toggling twice returns to the non-manual mode toggled away from, when that mode is the automatic one without the override, or an available explicit choice made while `lastModeWasAuto` is off. |
| AdaptiveModes.AutoAdaptIdempotent | Lunar/Utils/DisplayController.swift:278-288 | A second automatic adaptation changes nothing. |
| AdaptiveModes.LastModeWasAutoSticks | Lunar/Utils/DisplayController.swift:165-168 | No transition ever lowers `lastModeWasAuto`. |
| AdaptiveModes.ClamshellRoundTrip | Lunar/Utils/DisplayController.swift:671-683 | Closing and reopening the lid in automatic sync mode returns to sync mode. |
| Fallback.ShouldPromptAboutFallback | Lunar/Utils/DisplayController.swift:198-209 | There is no prompt when the user opted out, the screens sleep, the display has no screen or an empty visible frame, or the control responds. Otherwise there is a prompt exactly when no prompt was recorded for the display, or the last one was more than 20 minutes ago. |
| Fallback.PromptCooldownHolds | Lunar/Utils/DisplayController.swift:202-203 | After a prompt is recorded at t, the display is not prompted again up to t + 20 minutes, and other displays are unaffected. |
| Fallback.PromptResumesAfterCooldown | Lunar/Utils/DisplayController.swift:202-205 | Once more than 20 minutes have passed, and also with no record at all, an eligible display is prompted. |
| Controller.ActiveOf | Lunar/Utils/DisplayController.swift:27-36 | The active displays are exactly the registered displays that are active, under the same ids. |
| Controller.ActiveAfterRemoval | Lunar/Utils/DisplayController.swift:121-127 | Removing an id removes it from the active displays and keeps every other active display. |
| Controller.AppBrightnessOffset | Lunar/Utils/DisplayController.swift:63-65 | With no running list the offset is 0, and a non-zero offset is the brightness of a running exception. Which one, the last, is stated by `OffsetsOfFewApps` and `OffsetsFollowLatestApps`. |
| Controller.AppContrastOffset | Lunar/Utils/DisplayController.swift:67-69 | The same for contrast. |
| Controller.OffsetsOfFewApps | Lunar/Utils/DisplayController.swift:63-69 | With no running exceptions, or an empty list, both offsets are 0. A single running exception supplies its own brightness and contrast offsets. |
| Controller.OffsetsFollowLatestApps | Lunar/Utils/DisplayController.swift:63-69 | Last write wins: once apps are appended (as at line 719), both offsets are those of the last app appended, whatever ran before. Appending nothing leaves the offsets as they were. |
| Controller.DisplayController.constructor | Lunar/Utils/DisplayController.swift:46-61 | The initial mode state is the one `Initial` describes. The registry, the exceptions and the prompt times start empty. |
| Controller.DisplayController.GetAdaptiveMode | Lunar/Utils/DisplayController.swift:129-139 | The returned mode and the new mode state are those of the pure `GetAdaptiveMode`. The registry is unchanged. |
| Controller.DisplayController.SetAdaptiveMode | Lunar/Utils/DisplayController.swift:46-54 | The new mode state is `AssignMode` of the old one. The registry is unchanged. |
| Controller.DisplayController.Disable | Lunar/Utils/DisplayController.swift:161-170 | The new mode state is `Disable` of the old one. The registry is unchanged. |
| Controller.DisplayController.Enable | Lunar/Utils/DisplayController.swift:172-185 | The new mode state is `Enable` of the old one. The registry is unchanged. |
| Controller.DisplayController.Toggle | Lunar/Utils/DisplayController.swift:153-159 | The new mode state is `Toggle` of the old one. The registry is unchanged. |
| Controller.DisplayController.AutoAdaptMode | Lunar/Utils/DisplayController.swift:278-288 | The new mode state is `AutoAdapt` of the old one. The registry is unchanged. |
| Controller.DisplayController.ActivateClamshellMode | Lunar/Utils/DisplayController.swift:671-676 | The new mode state is `ActivateClamshell` of the old one. |
| Controller.DisplayController.DeactivateClamshellMode | Lunar/Utils/DisplayController.swift:678-683 | The new mode state is `DeactivateClamshell` of the old one. |
| Controller.DisplayController.SetDisplays | Lunar/Utils/DisplayController.swift:27-36 | Assigning the registry recomputes the active displays from it. Nothing else changes. |
| Controller.DisplayController.RemoveDisplay | Lunar/Utils/DisplayController.swift:121-127 | The id leaves the registry and the active displays, which are recomputed. Mode state, exceptions and prompt times are kept. |
| Controller.DisplayController.CheckFallback | Lunar/Utils/DisplayController.swift:216-222 | While the screens sleep, nothing changes and there is no prompt. Otherwise the display's control is re-resolved, the prompt decision is `ShouldPromptAboutFallback`, and the prompt time is recorded exactly when prompting. No other field of the display or the controller changes. |
| Controller.DisplayController.GetMatchingDisplay | Lunar/Utils/DisplayController.swift:367-406 | The result is nothing only when there are no displays. If a full match exists, a fully matching display is returned. Otherwise the returned display has the highest partial score. |
| Controller.DisplayController.TargetSet | Lunar/Utils/DisplayController.swift:864-887 | `adjustValue` looks first at the "current audio display" flag, then at the "current display" flag, then at the given list, and only then takes all active displays. |
| Controller.DisplayController.TargetCount | Lunar/Utils/DisplayController.swift:864-887 | The number of closure calls is at least the number of distinct targets. |
| Controller.DisplayController.TargetDisplays | Lunar/Utils/DisplayController.swift:864-887 | The targets enumerated are exactly `TargetSet`, as many as `TargetCount`. A given list keeps its order. |
| Controller.DisplayController.AdjustBrightness | Lunar/Utils/DisplayController.swift:826-843 | Each target's brightness ends within its own [min, max]. When no target repeats, it is exactly the chiclet step of the old value, clamped. With no secure adjustments left, nothing changes. |
| Controller.DisplayController.AdjustContrast | Lunar/Utils/DisplayController.swift:845-862 | The same as `AdjustBrightness`, for contrast. |
| Controller.DisplayController.AdjustVolume | Lunar/Utils/DisplayController.swift:818-824 | Each target's volume ends within [MIN_VOLUME, MAX_VOLUME]. When no target repeats, it is exactly the clamped chiclet step. |
| Controller.StepBrightness | Lunar/Utils/DisplayController.swift:829-837 | The per-display closure of `adjustBrightness`, run over a target list: every listed display ends within its own brightness range. For a list without repeats, each value is the clamped chiclet step of its old value. |
| Controller.StepContrast | Lunar/Utils/DisplayController.swift:848-856 | The same closure for contrast. |
| Controller.StepVolume | Lunar/Utils/DisplayController.swift:819-822 | The same closure for volume, clamped to [MIN_VOLUME, MAX_VOLUME]. |
| SettingsPopover.LastEnabledCheckbox | Lunar/Controllers/SettingsPopoverController.swift:72-75 | The result is the topmost checkbox that is on, or none exactly when no checkbox is on. |
| SettingsPopover.EnsureControls | Lunar/Controllers/SettingsPopoverController.swift:201-233 | With at most one control on and some checkbox on, the topmost checked checkbox is locked and the controls are unchanged. With no checkbox on, gamma is forced on and its checkbox locked. With more than one control on, every checkbox is unlocked. |
| SettingsPopover.Click | Lunar/Controllers/SettingsPopoverController.swift:121-167 | A click flips the clicked checkbox and writes the new value under its key. Every other entry of `enabledControls` and every other checkbox state is kept, except that the guard may switch gamma on. |
| SettingsPopover.ClickAlwaysLeavesOne | Lunar/Controllers/SettingsPopoverController.swift:121-233 | With the checkboxes showing the controls, and whatever the locks, a click leaves at least one control enabled. |
| SettingsPopover.ExplicitAreEffective | Lunar/Controllers/SettingsPopoverController.swift:203 | Controls counted as on (explicit `true`) are also enabled under the `?? true` reading, so the count is at most the number of enabled controls. |
| SettingsPopover.ClickLeavesOneEnabled | Lunar/Controllers/SettingsPopoverController.swift:121-167 | Clicking an unlocked checkbox keeps the checkboxes in step with the controls and leaves some control enabled. |
| SettingsPopover.GuardLocksLast | Lunar/Controllers/SettingsPopoverController.swift:203-208 | With at most one control on and some control enabled, the guard forces nothing and locks the checkbox of the last enabled control. |
| SettingsPopover.ManyHaveNoLast | Lunar/Controllers/SettingsPopoverController.swift:220-231 | With two controls on, no single control is the last one enabled. |
| SettingsPopover.ClickKeepsControllable | Lunar/Controllers/SettingsPopoverController.swift:201-233 | A click on an unlocked checkbox preserves all of the following: some control is enabled, the checkboxes show the controls, and the last enabled control is locked. Gamma is never forced. So no sequence of clicks from such a state leaves a display uncontrollable. |
| SettingsPopover.ForcedOnlyWhenAllOff | Lunar/Controllers/SettingsPopoverController.swift:203-213 | With checkboxes showing the controls, gamma is forced exactly when no control is enabled. |
| SettingsPopover.ForcedGammaEnabled | Lunar/Controllers/SettingsPopoverController.swift:209-213 | After forcing, gamma is on (so at least one control is on) and its checkbox is locked. |
| SettingsPopover.SettingsPopoverController.constructor | Lunar/Controllers/SettingsPopoverController.swift:100-167 | The popover starts with no display, settings applied, adaptive on, not a source, and every capability flag on. |
| SettingsPopover.SettingsPopoverController.SetDisplay | Lunar/Controllers/SettingsPopoverController.swift:78-97 | With a display set, each flag is loaded as `enabledControls[k] ?? true` without writing back, and `applySettings` is on again afterwards. If the toggles run their callbacks, `adaptive` and `isSource` take the display's values, and a source display clears `isSource` on every registered display. Otherwise they are kept. Assigning no display changes no flag. |
| SettingsPopover.SettingsPopoverController.LoadFlags | Lunar/Controllers/SettingsPopoverController.swift:90-93 | Each capability flag becomes `enabledControls[k] ?? true`. |
| SettingsPopover.SettingsPopoverController.ToggleCallbacks | Lunar/Controllers/SettingsPopoverController.swift:267-280 | The popover's `adaptive` and `isSource` take the toggles' values. Switching the sync toggle on clears `isSource` on every registered display; otherwise no display changes. |
| SettingsPopover.SettingsPopoverController.SetAdaptive | Lunar/Controllers/SettingsPopoverController.swift:102-111 | When applied, the display's `adaptive` is copied; resuming clears `adaptivePaused` and pausing keeps it. When not applied, the display is unchanged. No other field of the display can change. |
| SettingsPopover.SettingsPopoverController.SetIsSource | Lunar/Controllers/SettingsPopoverController.swift:113-119 | When applied, the display's `isSource` is copied. Otherwise it is unchanged. No other field of the display can change. |
| SettingsPopover.SettingsPopoverController.EnsureAtLeastOneControlEnabled | Lunar/Controllers/SettingsPopoverController.swift:201-233 | The display's controls and the checkboxes become `EnsureControls` of the old ones. The gamma flag is set only when forcing, and no other flag changes. Of the display, only `enabledControls` can change. |
| SettingsPopover.SettingsPopoverController.SetControlEnabled | Lunar/Controllers/SettingsPopoverController.swift:121-167 | The flag takes the new value. If applied with a display set, only that key is written, the control is re-resolved from the written map, and the guard runs. Otherwise the display and the checkboxes are unchanged. Of the display, only `enabledControls` and `control` can change. |

## Left out

- The control and mode watchdogs (`watchControlAvailability` beyond one display's decision and record, `watchModeAvailability`, timers, semaphores) and the `ask` prompt with its outcomes, timeout and "always fallback" flag: these are concurrency and UI blocking.
- `Date()` is an integer number of seconds passed in as `now`. Screen sleep, the screen's visible frame and control responsiveness are inputs.
- `currentDisplay`, `mainDisplay` and `currentAudioDisplay` (mouse position, CoreGraphics, CoreAudio and name distance) are optional inputs to the adjustment methods. `firstDisplay` is not modelled.
- `AdaptiveMode.adapt`, `ManualMode.compute`, `adaptBrightness` (also called at the end of `enable`), `setBrightnessPercent`, `setContrastPercent`, `setBrightness`, `setContrast`, `toggleAudioMuted`, `fetchValues` and `gammaUnlock`: they hand values to mode and display code that is not part of this model, or involve floating point.
- The user data points recorded by `adjustBrightness` and `adjustContrast` in non-manual modes: these calls go into display code that is not part of this model.
- `Defaults[.secure].checkRemainingAdjustments()` is the boolean input `adjustmentsLeft`.
- `getDisplays` beyond the serial rewrite (IOKit and DDC enumeration, the datastore, record creation) and `allDisplayProperties` / `armDisplayProperties`: these are foreign calls.
- `resetDisplayList`, `addSentryData`, the lid detection in `manageClamshellMode`, `listenForRunningApps` and `adaptiveModeString`: these are I/O or observer registration. The appending done by `listenForRunningApps` is covered only by `OffsetsFollowLatestApps`, and its removal of closed apps is not modelled.
- Persistence beyond the two mode settings is not modelled: `display.save()`, the `Defaults[.displays]` write in `removeDisplay`, `hasActiveDisplays` and `activeDisplaysByReadableID`. The last one needs `readableID`, which is not part of this model.
- The mode objects' `watch()` / `stopWatching()` in the `adaptiveMode` observer, and `removeObservers`.
- `cap`, `MIN_VOLUME` / `MAX_VOLUME` and `ManualMode.available` are defined in code that is not part of this model. `cap` is taken as "bound above by the maximum, then below by the minimum". The volume bounds are taken as 0 and 100, and manual mode as always available.
- `getBestControl()` is not part of this model. It is an opaque function of the display's enabled controls.
- The `Display` class itself is not part of this model. Only the fields read or written here are declared.
- `Int64` and `Float` conversions: the integers are unbounded, and every entry of the threshold table is whole. The `Float` distances of `getFilledChicletValue` are exact only for targets within ±2^24; beyond that, rounding can create ties the model does not have, so a target such as −2^30 picks 62 in the code and 0 in the model.
- Dictionary and set iteration order is not modelled: the choice is arbitrary.
- Display names are compared with `==` on `seq<char>`, which is code-point equality rather than Swift's canonical-equivalence `String ==`. The two agree on ASCII EDID names.
- GetMatchingDisplay: states only that the returned display has maximal score, because the tie-breaking of the `max(count:sortedBy:)` extension is defined elsewhere.
- AdjustBrightness: states the exact new value only when no display is targeted twice. A display listed twice is stepped twice and is only known to end in range.
- AdjustContrast: the same restriction as `AdjustBrightness`.
- AdjustVolume: the same restriction as `AdjustBrightness`.
- StepBrightness: states the exact new value only for a list without repeats, for the same reason as `AdjustBrightness`.
- StepContrast: the same restriction as `StepBrightness`.
- StepVolume: the same restriction as `StepBrightness`.
- `mainThread { … }` is taken to run synchronously. The checkbox `needsDisplay` redraws, `setupDDCLimits`, `onControlChange`, `resetDDC`, `resetNetworkController`, the rest of `viewDidLoad` (help texts and the `displays` settings observer) and `mouseDown` are left out as UI work.
- SetDisplay: whether assigning a toggle's `isOn` runs its callback depends on `MacToggle`, which is not part of this model; it is the input `togglesRunCallbacks`. The callback's `datastore.storeDisplays` and its update of `SyncMode.sourceDisplay` are not modelled.
- The binding between each checkbox's state and its capability flag is not in the code. The popover lemmas take it as the hypothesis `Mirrors`.
- `Lunar/Views/PopUpButton.swift` (drawing) and `Lunar/Controllers/SettingsPageController.swift` (chart filling) are not part of this model.
