/** The enumerations of the gamepad core and the integers that encode them.
    Each enumeration has an ordinal (the value the firmware stores, compares
    and persists) and a partial inverse that maps an arbitrary stored integer
    back to an enumerator, or to None when no enumerator has that value. */
module GamepadEnums {
  import opened Wrappers

  /** The USB protocol the controller presents itself with. */
  datatype InputMode = XInput | Switch | Hid | Config

  function InputModeOrdinal(m: InputMode): nat
  {
    match m
    case XInput => 0
    case Switch => 1
    case Hid => 2
    case Config => 255
  }

  function InputModeFromOrdinal(n: int): (r: Option<InputMode>)
    ensures forall m :: InputModeOrdinal(m) == n <==> r == Some(m)
  {
    if n == 0 then Some(XInput)
    else if n == 1 then Some(Switch)
    else if n == 2 then Some(Hid)
    else if n == 255 then Some(Config)
    else None
  }

  /** Whether the cleaned directions stay digital or drive an analog stick. */
  datatype DpadMode = DpadDigital | DpadLeftAnalog | DpadRightAnalog

  function DpadModeOrdinal(m: DpadMode): nat
  {
    match m
    case DpadDigital => 0
    case DpadLeftAnalog => 1
    case DpadRightAnalog => 2
  }

  function DpadModeFromOrdinal(n: int): (r: Option<DpadMode>)
    ensures forall m :: DpadModeOrdinal(m) == n <==> r == Some(m)
  {
    if n == 0 then Some(DpadDigital)
    else if n == 1 then Some(DpadLeftAnalog)
    else if n == 2 then Some(DpadRightAnalog)
    else None
  }

  /** The SOCD cleaning methods: three legacy modes kept for compatibility,
      then one comprehensive mode per pair of an X rule and a Y rule. */
  datatype SocdMode =
    | SocdUpPriority | SocdNeutral | SocdSecondInputPriority
    | XNeutralYNeutral | XNeutralYDown | XNeutralYUp | XNeutralYLip | XNeutralYFip
    | XLeftYNeutral | XLeftYDown | XLeftYUp | XLeftYLip | XLeftYFip
    | XRightYNeutral | XRightYDown | XRightYUp | XRightYLip | XRightYFip
    | XLipYNeutral | XLipYDown | XLipYUp | XLipYLip | XLipYFip
    | XFipYNeutral | XFipYDown | XFipYUp | XFipYLip | XFipYFip

  /** The SOCD modes in declaration order, so that a mode's ordinal is its index. */
  const AllSocdModes: seq<SocdMode> := [
    SocdUpPriority, SocdNeutral, SocdSecondInputPriority,
    XNeutralYNeutral, XNeutralYDown, XNeutralYUp, XNeutralYLip, XNeutralYFip,
    XLeftYNeutral, XLeftYDown, XLeftYUp, XLeftYLip, XLeftYFip,
    XRightYNeutral, XRightYDown, XRightYUp, XRightYLip, XRightYFip,
    XLipYNeutral, XLipYDown, XLipYUp, XLipYLip, XLipYFip,
    XFipYNeutral, XFipYDown, XFipYUp, XFipYLip, XFipYFip
  ]

  function SocdModeOrdinal(m: SocdMode): nat
  {
    match m
    case SocdUpPriority => 0
    case SocdNeutral => 1
    case SocdSecondInputPriority => 2
    case XNeutralYNeutral => 3
    case XNeutralYDown => 4
    case XNeutralYUp => 5
    case XNeutralYLip => 6
    case XNeutralYFip => 7
    case XLeftYNeutral => 8
    case XLeftYDown => 9
    case XLeftYUp => 10
    case XLeftYLip => 11
    case XLeftYFip => 12
    case XRightYNeutral => 13
    case XRightYDown => 14
    case XRightYUp => 15
    case XRightYLip => 16
    case XRightYFip => 17
    case XLipYNeutral => 18
    case XLipYDown => 19
    case XLipYUp => 20
    case XLipYLip => 21
    case XLipYFip => 22
    case XFipYNeutral => 23
    case XFipYDown => 24
    case XFipYUp => 25
    case XFipYLip => 26
    case XFipYFip => 27
  }

  /** The declaration-order list and the ordinal agree: every mode sits at the
      index of its ordinal, and there are exactly 28 modes. */
  lemma SocdModeOrdinalIsIndex(m: SocdMode)
    ensures |AllSocdModes| == 28
    ensures SocdModeOrdinal(m) < |AllSocdModes|
    ensures AllSocdModes[SocdModeOrdinal(m)] == m
  {
  }

  /** The mode at each index of the declaration-order list has that index as its ordinal. */
  lemma SocdModeIndexIsOrdinal(n: int)
    requires 0 <= n < |AllSocdModes|
    ensures SocdModeOrdinal(AllSocdModes[n]) == n
  {
  }

  function SocdModeFromOrdinal(n: int): (r: Option<SocdMode>)
    ensures r.Some? <==> 0 <= n < 28
    ensures forall m :: SocdModeOrdinal(m) == n <==> r == Some(m)
  {
    if 0 <= n < |AllSocdModes| then
      var m := AllSocdModes[n];
      SocdModeIndexIsOrdinal(n);
      forall m' | SocdModeOrdinal(m') == n
        ensures m' == m
      {
        SocdModeOrdinalIsIndex(m');
      }
      Some(m)
    else
      forall m' ensures SocdModeOrdinal(m') != n {
        SocdModeOrdinalIsIndex(m');
      }
      None
  }

  /** The last-direction record of the SOCD cleaner: which direction of an
      opposing pair was held on its own most recently. */
  datatype DpadDirection = DirectionNone | DirectionUp | DirectionDown | DirectionLeft | DirectionRight

  function DpadDirectionOrdinal(d: DpadDirection): nat
  {
    match d
    case DirectionNone => 0
    case DirectionUp => 1
    case DirectionDown => 2
    case DirectionLeft => 3
    case DirectionRight => 4
  }

  function DpadDirectionFromOrdinal(n: int): (r: Option<DpadDirection>)
    ensures forall d :: DpadDirectionOrdinal(d) == n <==> r == Some(d)
  {
    if n == 0 then Some(DirectionNone)
    else if n == 1 then Some(DirectionUp)
    else if n == 2 then Some(DirectionDown)
    else if n == 3 then Some(DirectionLeft)
    else if n == 4 then Some(DirectionRight)
    else None
  }

  /** The hotkey actions. Every action except HotkeyNone is one bit of an
      unsigned 32-bit mask, so that several actions can be combined. */
  datatype GamepadHotkey =
    | HotkeyNone
    | HotkeyDpadDigital | HotkeyDpadLeftAnalog | HotkeyDpadRightAnalog
    | HotkeyHomeButton | HotkeyCaptureButton
    | HotkeySocdUpPriority | HotkeySocdNeutral | HotkeySocdLastInput
    | HotkeyInvertXAxis | HotkeyInvertYAxis

  /** The bit position of an action other than HotkeyNone. */
  function HotkeyBit(h: GamepadHotkey): (i: nat)
    requires h != HotkeyNone
    ensures i < 10
  {
    match h
    case HotkeyDpadDigital => 0
    case HotkeyDpadLeftAnalog => 1
    case HotkeyDpadRightAnalog => 2
    case HotkeyHomeButton => 3
    case HotkeyCaptureButton => 4
    case HotkeySocdUpPriority => 5
    case HotkeySocdNeutral => 6
    case HotkeySocdLastInput => 7
    case HotkeyInvertXAxis => 8
    case HotkeyInvertYAxis => 9
  }

  /** The enumerator's integer value as an unsigned 32-bit word. */
  function HotkeyValue(h: GamepadHotkey): bv32
  {
    match h
    case HotkeyNone => 0x000
    case HotkeyDpadDigital => 0x001
    case HotkeyDpadLeftAnalog => 0x002
    case HotkeyDpadRightAnalog => 0x004
    case HotkeyHomeButton => 0x008
    case HotkeyCaptureButton => 0x010
    case HotkeySocdUpPriority => 0x020
    case HotkeySocdNeutral => 0x040
    case HotkeySocdLastInput => 0x080
    case HotkeyInvertXAxis => 0x100
    case HotkeyInvertYAxis => 0x200
  }

  /** HotkeyNone is 0 and every other action is `1 << bit` for its own bit below 10. */
  lemma HotkeyValueIsBit(h: GamepadHotkey)
    ensures h == HotkeyNone <==> HotkeyValue(h) == 0
    ensures h != HotkeyNone ==> HotkeyValue(h) == (1 as bv32) << HotkeyBit(h)
  {
  }

  /** Two actions other than HotkeyNone share a bit exactly when they are the same action. */
  lemma HotkeyBitsDistinct(g: GamepadHotkey, h: GamepadHotkey)
    requires g != HotkeyNone && h != HotkeyNone
    ensures HotkeyValue(g) & HotkeyValue(h) != 0 <==> g == h
  {
  }

  function HotkeyFromValue(v: bv32): (r: Option<GamepadHotkey>)
    ensures forall h :: HotkeyValue(h) == v <==> r == Some(h)
  {
    if v == 0x000 then Some(HotkeyNone)
    else if v == 0x001 then Some(HotkeyDpadDigital)
    else if v == 0x002 then Some(HotkeyDpadLeftAnalog)
    else if v == 0x004 then Some(HotkeyDpadRightAnalog)
    else if v == 0x008 then Some(HotkeyHomeButton)
    else if v == 0x010 then Some(HotkeyCaptureButton)
    else if v == 0x020 then Some(HotkeySocdUpPriority)
    else if v == 0x040 then Some(HotkeySocdNeutral)
    else if v == 0x080 then Some(HotkeySocdLastInput)
    else if v == 0x100 then Some(HotkeyInvertXAxis)
    else if v == 0x200 then Some(HotkeyInvertYAxis)
    else None
  }
}
