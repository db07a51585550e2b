/** Combining hotkey actions into an unsigned 32-bit mask and recovering them:
    each action other than HotkeyNone owns one of bits 0 to 9, so a set of
    actions and its mask determine each other. */
module HotkeyMask {
  import opened GamepadEnums

  /** The actions that own a bit, in declaration order. */
  const AllFlags: seq<GamepadHotkey> := [
    HotkeyDpadDigital, HotkeyDpadLeftAnalog, HotkeyDpadRightAnalog,
    HotkeyHomeButton, HotkeyCaptureButton,
    HotkeySocdUpPriority, HotkeySocdNeutral, HotkeySocdLastInput,
    HotkeyInvertXAxis, HotkeyInvertYAxis
  ]

  /** The bits that some action owns. */
  const DefinedBits: bv32 := 0x3FF

  /** Whether the bit of action `h` is set in mask `m`; HotkeyNone owns no bit. */
  predicate HasBit(m: bv32, h: GamepadHotkey)
  {
    h != HotkeyNone && m & HotkeyValue(h) != 0
  }

  function BitIf(b: bool, v: bv32): bv32
  {
    if b then v else 0
  }

  /** Bits 0 to 9 set from ten flags, bit 0 first. */
  function Pack(b0: bool, b1: bool, b2: bool, b3: bool, b4: bool,
                b5: bool, b6: bool, b7: bool, b8: bool, b9: bool): bv32
  {
    BitIf(b0, 0x001) | BitIf(b1, 0x002) | BitIf(b2, 0x004) | BitIf(b3, 0x008) | BitIf(b4, 0x010)
    | BitIf(b5, 0x020) | BitIf(b6, 0x040) | BitIf(b7, 0x080) | BitIf(b8, 0x100) | BitIf(b9, 0x200)
  }

  /** Each of the ten flags can be read back from its own bit, and no other bit is set. */
  lemma PackBits(b0: bool, b1: bool, b2: bool, b3: bool, b4: bool,
                 b5: bool, b6: bool, b7: bool, b8: bool, b9: bool)
    ensures var m := Pack(b0, b1, b2, b3, b4, b5, b6, b7, b8, b9);
      && (m & 0x001 != 0 <==> b0) && (m & 0x002 != 0 <==> b1) && (m & 0x004 != 0 <==> b2)
      && (m & 0x008 != 0 <==> b3) && (m & 0x010 != 0 <==> b4) && (m & 0x020 != 0 <==> b5)
      && (m & 0x040 != 0 <==> b6) && (m & 0x080 != 0 <==> b7) && (m & 0x100 != 0 <==> b8)
      && (m & 0x200 != 0 <==> b9) && m & DefinedBits == m
  {
  }

  /** The mask of a set of actions: the OR of their values, HotkeyNone adding nothing. */
  function Mask(flags: set<GamepadHotkey>): (m: bv32)
    ensures m & DefinedBits == m
    ensures forall h :: HasBit(m, h) <==> h in flags && h != HotkeyNone
  {
    var m := Pack(HotkeyDpadDigital in flags, HotkeyDpadLeftAnalog in flags, HotkeyDpadRightAnalog in flags,
                  HotkeyHomeButton in flags, HotkeyCaptureButton in flags,
                  HotkeySocdUpPriority in flags, HotkeySocdNeutral in flags, HotkeySocdLastInput in flags,
                  HotkeyInvertXAxis in flags, HotkeyInvertYAxis in flags);
    PackBits(HotkeyDpadDigital in flags, HotkeyDpadLeftAnalog in flags, HotkeyDpadRightAnalog in flags,
             HotkeyHomeButton in flags, HotkeyCaptureButton in flags,
             HotkeySocdUpPriority in flags, HotkeySocdNeutral in flags, HotkeySocdLastInput in flags,
             HotkeyInvertXAxis in flags, HotkeyInvertYAxis in flags);
    m
  }

  /** The actions whose bit is set in a mask; bits 10 to 31 name no action. */
  function Flags(m: bv32): (r: set<GamepadHotkey>)
    ensures HotkeyNone !in r
    ensures forall h :: h in r <==> HasBit(m, h)
  {
    set h | h in AllFlags && HasBit(m, h)
  }

  /** Decoding the mask of any set of actions gives back the set, less HotkeyNone. */
  lemma FlagsOfMask(flags: set<GamepadHotkey>)
    ensures Flags(Mask(flags)) == flags - {HotkeyNone}
  {
  }

  /** A word within bits 0 to 9 that agrees with `m` on every action's bit is
      `m` with its other bits cleared. */
  lemma LowBitsDetermine(x: bv32, m: bv32)
    requires x & DefinedBits == x
    requires HasBit(x, HotkeyDpadDigital) == HasBit(m, HotkeyDpadDigital)
    requires HasBit(x, HotkeyDpadLeftAnalog) == HasBit(m, HotkeyDpadLeftAnalog)
    requires HasBit(x, HotkeyDpadRightAnalog) == HasBit(m, HotkeyDpadRightAnalog)
    requires HasBit(x, HotkeyHomeButton) == HasBit(m, HotkeyHomeButton)
    requires HasBit(x, HotkeyCaptureButton) == HasBit(m, HotkeyCaptureButton)
    requires HasBit(x, HotkeySocdUpPriority) == HasBit(m, HotkeySocdUpPriority)
    requires HasBit(x, HotkeySocdNeutral) == HasBit(m, HotkeySocdNeutral)
    requires HasBit(x, HotkeySocdLastInput) == HasBit(m, HotkeySocdLastInput)
    requires HasBit(x, HotkeyInvertXAxis) == HasBit(m, HotkeyInvertXAxis)
    requires HasBit(x, HotkeyInvertYAxis) == HasBit(m, HotkeyInvertYAxis)
    ensures x == m & DefinedBits
  {
  }

  /** Re-encoding the actions of a mask keeps every action's bit. */
  lemma MaskOfFlagsBit(m: bv32, h: GamepadHotkey)
    ensures HasBit(Mask(Flags(m)), h) == HasBit(m, h)
  {
  }

  /** Encoding the actions of a mask gives back the mask, less the bits no action owns. */
  lemma MaskOfFlags(m: bv32)
    ensures Mask(Flags(m)) == m & DefinedBits
  {
    var x := Mask(Flags(m));
    MaskOfFlagsBit(m, HotkeyDpadDigital);
    MaskOfFlagsBit(m, HotkeyDpadLeftAnalog);
    MaskOfFlagsBit(m, HotkeyDpadRightAnalog);
    MaskOfFlagsBit(m, HotkeyHomeButton);
    MaskOfFlagsBit(m, HotkeyCaptureButton);
    MaskOfFlagsBit(m, HotkeySocdUpPriority);
    MaskOfFlagsBit(m, HotkeySocdNeutral);
    MaskOfFlagsBit(m, HotkeySocdLastInput);
    MaskOfFlagsBit(m, HotkeyInvertXAxis);
    MaskOfFlagsBit(m, HotkeyInvertYAxis);
    LowBitsDetermine(x, m);
  }

  /** A word is the mask of some set of actions exactly when it uses only bits 0 to 9. */
  lemma MasksAreDefinedBits(m: bv32)
    ensures (exists flags :: Mask(flags) == m) <==> m & DefinedBits == m
  {
    if m & DefinedBits == m {
      MaskOfFlags(m);
    }
  }

  /** A single action's mask is its own enumerator value, and HotkeyNone's is 0. */
  lemma MaskOfOne(h: GamepadHotkey)
    ensures Mask({h}) == HotkeyValue(h)
  {
  }

  /** Each action's bit in the mask of a union is set when it is set in either mask. */
  lemma MaskOfUnionBit(a: set<GamepadHotkey>, b: set<GamepadHotkey>, h: GamepadHotkey)
    ensures HasBit(Mask(a + b), h) == HasBit(Mask(a) | Mask(b), h)
    ensures (Mask(a) | Mask(b)) & DefinedBits == Mask(a) | Mask(b)
  {
  }

  /** The mask of a union of action sets is the OR of their masks, so actions
      combine independently. */
  lemma MaskOfUnion(a: set<GamepadHotkey>, b: set<GamepadHotkey>)
    ensures Mask(a + b) == Mask(a) | Mask(b)
  {
    MaskOfUnionBit(a, b, HotkeyDpadDigital);
    MaskOfUnionBit(a, b, HotkeyDpadLeftAnalog);
    MaskOfUnionBit(a, b, HotkeyDpadRightAnalog);
    MaskOfUnionBit(a, b, HotkeyHomeButton);
    MaskOfUnionBit(a, b, HotkeyCaptureButton);
    MaskOfUnionBit(a, b, HotkeySocdUpPriority);
    MaskOfUnionBit(a, b, HotkeySocdNeutral);
    MaskOfUnionBit(a, b, HotkeySocdLastInput);
    MaskOfUnionBit(a, b, HotkeyInvertXAxis);
    MaskOfUnionBit(a, b, HotkeyInvertYAxis);
    LowBitsDetermine(Mask(a + b), Mask(a) | Mask(b));
  }
}
