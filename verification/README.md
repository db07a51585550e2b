# Gamepad enumerations and SOCD cleaning policy (Dafny model)

This project models the enumerations at the heart of the MPG gamepad library and the behaviour their declarations promise:

- the input modes (XInput, Switch, HID, Config) and dpad modes (digital, left analog, right analog), with their stored integer values;
- the 28 SOCD cleaning modes. SOCD means simultaneous opposite cardinal directions: both directions of one axis held at once. The 3 legacy modes come first, then 25 comprehensive modes, one per pair of an X (Left+Right) rule and a Y (Up+Down) rule;
- the `DpadDirection` record that the cleaner keeps between polling cycles;
- the hotkey actions, which are single bits of an unsigned 32-bit mask.

The header declares these enumerations, and the comment beside each SOCD mode gives its rule pair ("U+D=U, L+R=N", "U>D=D, L>R=R", "L+R=LIP, U+D=FIP"). The model turns those comments into definitions:

- `SocdPolicy.Decode` maps each mode to a pair of axis rules. The rules are Neutral, up/left wins, down/right wins, last-input priority (LIP) and first-input priority (FIP).
- `SocdResolver.ResolveAxis` resolves one axis in one cycle from the two held flags and the axis' last-direction record. `SocdResolver.Resolve` applies it to both axes under a mode.
- `SocdTrace` runs the cleaner over a sequence of cycles. It proves that the one-direction record is enough: from power-on, LIP reports the direction whose current hold began later, and FIP the one whose hold began earlier. Press order is defined independently by `SocdTrace.HoldStart`.
- `HotkeyMask` encodes a set of actions as a mask and decodes it again. Both directions of the round trip are proved.

The header holds no executable code. It documents each mode's rule pair and declares a last-direction record for the second-input method, but it does not say how that record is kept. The following are therefore choices of this model, made to agree with the comments:

- A lone held direction, or none, is reported as held, whatever the rule and the record.
- The record becomes the direction held alone in this cycle. It resets to `DIRECTION_NONE` when both directions are released. It is kept while both are held. A record naming the other axis' directions is treated as no record.
- With both held:
  - Neutral reports neither direction.
  - Up/left-wins and down/right-wins report their own direction.
  - LIP reports the direction other than the recorded one, and FIP reports the recorded one.
  - With no record, both directions were pressed in the same cycle, and LIP and FIP report neither.

`SocdTrace` justifies the choice: with this record, LIP and FIP report exactly the later and the earlier press, measured against an independent definition of press order.

The enumeration declares 28 SOCD modes: 3 legacy and 25 comprehensive, all 5 x 5 pairs. Each legacy mode is proved to be an alias of exactly one comprehensive mode.

## Model

| member | source | states |
|---|---|---|
| GamepadEnums.InputModeFromOrdinal | src/GamepadEnums.h:12-18 | a stored integer decodes to an input mode exactly when it is that mode's value (0, 1, 2 or 255); every other integer decodes to none |
| GamepadEnums.DpadModeFromOrdinal | src/GamepadEnums.h:21-26 | a stored integer decodes to a dpad mode exactly when it is that mode's ordinal 0..2; every other integer decodes to none |
| GamepadEnums.SocdModeOrdinalIsIndex | src/GamepadEnums.h:29-62 | there are exactly 28 SOCD modes, and each mode's ordinal is its position in declaration order |
| GamepadEnums.SocdModeIndexIsOrdinal | src/GamepadEnums.h:29-62 | the mode declared at position n has ordinal n |
| GamepadEnums.SocdModeFromOrdinal | src/GamepadEnums.h:29-62 | an integer names an SOCD mode exactly when it lies in 0..27, and then it names exactly the mode with that ordinal |
| GamepadEnums.DpadDirectionFromOrdinal | src/GamepadEnums.h:65-72 | a stored integer decodes to a direction exactly when it is that direction's ordinal 0..4 |
| GamepadEnums.HotkeyBit | src/GamepadEnums.h:78-87 | every action other than HOTKEY_NONE owns a bit position below 10 |
| GamepadEnums.HotkeyValueIsBit | src/GamepadEnums.h:77-87 | HOTKEY_NONE is 0 and no other action is 0; every other action's value is `1U << bit` for its own bit |
| GamepadEnums.HotkeyBitsDistinct | src/GamepadEnums.h:78-87 | two actions other than HOTKEY_NONE share a bit exactly when they are the same action |
| GamepadEnums.HotkeyFromValue | src/GamepadEnums.h:75-88 | a 32-bit word decodes to an action exactly when it equals that action's value; all other words decode to none |
| SocdPolicy.Decode | src/GamepadEnums.h:31-61 | the documented rule pair of every comprehensive mode fixes its ordinal as 3 + 5 * (X rule position: N, L, R, LIP, FIP) + (Y rule position: N, D, U, LIP, FIP); the pairs of the 3 legacy modes are pinned by LegacyAliases and the scenario lemmas below |
| SocdPolicy.DecodeAtPairIndex | src/GamepadEnums.h:37-61 | for every X rule and Y rule, the mode declared at position 3 + 5 * X + Y is documented with exactly that rule pair |
| SocdPolicy.ComprehensiveMode | src/GamepadEnums.h:37-61 | every one of the 5 x 5 rule pairs has a comprehensive mode, and that mode is the only comprehensive mode with that pair |
| SocdPolicy.ComprehensiveModesArePairs | src/GamepadEnums.h:37-61 | the comprehensive mode of a comprehensive mode's own rule pair is that mode, so the 25 modes and the 25 pairs correspond one to one |
| SocdPolicy.CanonicalMode | src/GamepadEnums.h:32-61 | every mode, legacy or comprehensive, has the rule pair of exactly one comprehensive mode, and a comprehensive mode is its own |
| SocdPolicy.LegacyAliases | src/GamepadEnums.h:32-55 | UP_PRIORITY has the rules of X_NEUTRAL_Y_UP, NEUTRAL those of X_NEUTRAL_Y_NEUTRAL, SECOND_INPUT_PRIORITY those of X_LIP_Y_LIP |
| SocdResolver.NextLast | src/GamepadEnums.h:64-72 | the last-direction record after a cycle always names none or a direction of its own axis, and is kept while both directions are held |
| SocdResolver.ResolveAxis | src/GamepadEnums.h:36-61 | one axis never reports both directions and never reports an unheld one; a lone held direction passes through; with both held, up/left-wins reports up/left, down/right-wins reports down/right and Neutral reports neither |
| SocdResolver.Resolve | src/GamepadEnums.h:29-62 | for every mode, every one of the 16 held combinations and every record, neither axis reports both directions, no unheld direction is reported, lone directions pass through, and the new records stay on their axes |
| SocdResolver.AxisIndependence | src/GamepadEnums.h:37-61 | the reported flags and record of one axis depend only on that axis' held flags and record, so changing up/down never changes left/right and the reverse |
| SocdResolver.SameRulesSameBehaviour | src/GamepadEnums.h:32-61 | two modes with the same rule pair clean every input identically on every record |
| SocdResolver.LegacyModesBehaveAsAliases | src/GamepadEnums.h:32-55 | UP_PRIORITY, NEUTRAL and SECOND_INPUT_PRIORITY behave exactly as X_NEUTRAL_Y_UP, X_NEUTRAL_Y_NEUTRAL and X_LIP_Y_LIP on every input and record |
| SocdResolver.UpPriorityResolves | src/GamepadEnums.h:32 | under UP_PRIORITY, up+down reports up alone and left+right reports neither, whatever is held on the other axis |
| SocdResolver.NeutralResolves | src/GamepadEnums.h:33 | under NEUTRAL, up+down reports neither up nor down and left+right neither left nor right, whatever is held on the other axis |
| SocdTrace.HoldStart | src/GamepadEnums.h:36 | the reference notion of press order: the cycle at which a still-held direction's current hold began, held from there on and released just before |
| SocdTrace.RunAxisAt | src/GamepadEnums.h:64-72 | over a run of cycles, each cycle's output is the resolver applied to that cycle's input and the record left by the earlier cycles only, with no lookahead |
| SocdTrace.RecordIsPressOrder | src/GamepadEnums.h:64-72 | while both directions are held, the record names up/left exactly when up/left's hold began strictly first, and down/right exactly when down/right's did |
| SocdTrace.LastInputReportsLaterPress | src/GamepadEnums.h:34-36 | under LIP, with both held, a direction is reported exactly when its hold began strictly later than the other's |
| SocdTrace.FirstInputReportsEarlierPress | src/GamepadEnums.h:36-41 | under FIP, with both held, a direction is reported exactly when its hold began strictly earlier than the other's |
| SocdTrace.RunSocdProjects | src/GamepadEnums.h:37-61 | each axis of a full dpad run equals the single-axis run of that axis' flags under the rule the mode gives that axis |
| SocdTrace.ModeLastInputReportsLaterPress | src/GamepadEnums.h:34-61 | every mode whose rule for an axis is LIP, SECOND_INPUT_PRIORITY included, reports from power-on the later-pressed of two held opposing directions |
| SocdTrace.ModeFirstInputReportsEarlierPress | src/GamepadEnums.h:36-61 | every mode whose rule for an axis is FIP reports from power-on the earlier-pressed of two held opposing directions |
| SocdTrace.SecondInputPriorityScenario | src/GamepadEnums.h:34 | under SECOND_INPUT_PRIORITY, up then up+down reports up then down, and left then left+right reports left then right |
| SocdTrace.LastInputScenario | src/GamepadEnums.h:55 | under X_LIP_Y_LIP, down, then down+up, then down alone reports down, up, down |
| SocdTrace.FirstInputScenario | src/GamepadEnums.h:61 | under X_FIP_Y_FIP, left, then left+right, then right alone reports left, left, right |
| HotkeyMask.Mask | src/GamepadEnums.h:75-88 | the mask of a set of actions uses only bits 0..9, and has an action's bit set exactly when that action is in the set and is not HOTKEY_NONE |
| HotkeyMask.Flags | src/GamepadEnums.h:75-88 | the actions decoded from a mask are exactly those whose bit is set; HOTKEY_NONE is never among them |
| HotkeyMask.FlagsOfMask | src/GamepadEnums.h:77-87 | decoding the mask of any set of actions gives back that set, less HOTKEY_NONE |
| HotkeyMask.MaskOfFlags | src/GamepadEnums.h:77-87 | encoding the actions decoded from any 32-bit word gives back the word with bits 10..31 cleared |
| HotkeyMask.MasksAreDefinedBits | src/GamepadEnums.h:77-87 | a word is the mask of some set of actions exactly when it has no bit above bit 9 set |
| HotkeyMask.MaskOfOne | src/GamepadEnums.h:77-87 | the mask of a single action is that action's own value, and 0 for HOTKEY_NONE |
| HotkeyMask.MaskOfUnion | src/GamepadEnums.h:77-87 | the mask of a union of action sets is the bitwise OR of their masks, so actions combine independently |

## Left out

- Debouncing, edge detection of hotkey chords, applying hotkey actions to the runtime configuration, and dpad-to-analog emulation are not modelled. Their implementations are not part of this model: the header only names the enumerations they use. In particular, the mapping from `HOTKEY_SOCD_*` and `HOTKEY_DPAD_*` actions to modes is not modelled.
- Reading physical inputs, USB transport and the XInput, Switch and HID report encodings are platform I/O. The input modes are modelled only as values.
- Persistent configuration storage and clocks are not modelled. Stored integers are decoded to `None` when no enumerator has that value. The model does not choose a fallback mode for them, because the header does not define one.
- SocdResolver.ResolveAxis: LIP and FIP are modelled with a one-direction record per axis, following the record the header declares for the second-input method. When both directions are first pressed in the same cycle, there is no order to go by, and the model reports neither.
- SocdTrace.LastInputReportsLaterPress: press order is measured in polling cycles from power-on. Presses within one cycle are not distinguished.
- SocdResolver.NextLast: the record-update rule (take the lone held direction, keep while both are held, reset on release, drop an off-axis record) is this model's design. The header declares the record but not its update, so the model promises only that this rule yields press order, as `SocdTrace.RecordIsPressOrder` proves.
