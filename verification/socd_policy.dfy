/** What each SOCD cleaning mode means: a rule for Left+Right (the X axis)
    and a rule for Up+Down (the Y axis). The legacy modes are aliases of
    comprehensive modes, and the comprehensive modes are exactly the 5 x 5
    combinations of an X rule and a Y rule, laid out in declaration order. */
module SocdPolicy {
  import opened Wrappers
  import opened GamepadEnums

  /** How one axis resolves both of its opposing directions being held. */
  datatype AxisRule =
    | Neutral        // neither direction is reported
    | UpLeftWins     // up (Y axis) or left (X axis) is reported
    | DownRightWins  // down (Y axis) or right (X axis) is reported
    | LastInput      // the direction pressed more recently is reported
    | FirstInput     // the direction pressed earlier is reported

  datatype RulePair = RulePair(x: AxisRule, y: AxisRule)

  /** The rule pair of every mode, as documented beside its enumerator. The
      comprehensive modes are laid out in X-major blocks of five, so a
      comprehensive mode's ordinal is fixed by its two rules. */
  function Decode(m: SocdMode): (r: RulePair)
    ensures IsComprehensive(m) ==> SocdModeOrdinal(m) == 3 + 5 * XIndex(r.x) + YIndex(r.y)
  {
    match m
    case SocdUpPriority => RulePair(Neutral, UpLeftWins)
    case SocdNeutral => RulePair(Neutral, Neutral)
    case SocdSecondInputPriority => RulePair(LastInput, LastInput)
    case XNeutralYNeutral => RulePair(Neutral, Neutral)
    case XNeutralYDown => RulePair(Neutral, DownRightWins)
    case XNeutralYUp => RulePair(Neutral, UpLeftWins)
    case XNeutralYLip => RulePair(Neutral, LastInput)
    case XNeutralYFip => RulePair(Neutral, FirstInput)
    case XLeftYNeutral => RulePair(UpLeftWins, Neutral)
    case XLeftYDown => RulePair(UpLeftWins, DownRightWins)
    case XLeftYUp => RulePair(UpLeftWins, UpLeftWins)
    case XLeftYLip => RulePair(UpLeftWins, LastInput)
    case XLeftYFip => RulePair(UpLeftWins, FirstInput)
    case XRightYNeutral => RulePair(DownRightWins, Neutral)
    case XRightYDown => RulePair(DownRightWins, DownRightWins)
    case XRightYUp => RulePair(DownRightWins, UpLeftWins)
    case XRightYLip => RulePair(DownRightWins, LastInput)
    case XRightYFip => RulePair(DownRightWins, FirstInput)
    case XLipYNeutral => RulePair(LastInput, Neutral)
    case XLipYDown => RulePair(LastInput, DownRightWins)
    case XLipYUp => RulePair(LastInput, UpLeftWins)
    case XLipYLip => RulePair(LastInput, LastInput)
    case XLipYFip => RulePair(LastInput, FirstInput)
    case XFipYNeutral => RulePair(FirstInput, Neutral)
    case XFipYDown => RulePair(FirstInput, DownRightWins)
    case XFipYUp => RulePair(FirstInput, UpLeftWins)
    case XFipYLip => RulePair(FirstInput, LastInput)
    case XFipYFip => RulePair(FirstInput, FirstInput)
  }

  /** The three legacy modes come first in the enumeration. */
  predicate IsLegacy(m: SocdMode)
  {
    SocdModeOrdinal(m) < 3
  }

  predicate IsComprehensive(m: SocdMode)
  {
    !IsLegacy(m)
  }

  /** Position of an X rule in the comprehensive block: Neutral, Left, Right, LIP, FIP. */
  function XIndex(r: AxisRule): nat
  {
    match r
    case Neutral => 0
    case UpLeftWins => 1
    case DownRightWins => 2
    case LastInput => 3
    case FirstInput => 4
  }

  /** Position of a Y rule within an X block: Neutral, Down, Up, LIP, FIP.
      Unlike the X order, the down-wins rule comes before the up-wins rule. */
  function YIndex(r: AxisRule): nat
  {
    match r
    case Neutral => 0
    case DownRightWins => 1
    case UpLeftWins => 2
    case LastInput => 3
    case FirstInput => 4
  }

  /** Distinct rules have distinct positions, on either axis. */
  lemma RuleIndexInjective(a: AxisRule, b: AxisRule)
    ensures XIndex(a) < 5 && YIndex(a) < 5
    ensures XIndex(a) == XIndex(b) ==> a == b
    ensures YIndex(a) == YIndex(b) ==> a == b
  {
  }

  /** The mode at position 3 + 5 * XIndex + YIndex carries the given rules:
      that mode's ordinal is the position, and the position determines both rules. */
  lemma DecodeAtPairIndex(p: RulePair)
    ensures 3 + 5 * XIndex(p.x) + YIndex(p.y) < |AllSocdModes|
    ensures Decode(AllSocdModes[3 + 5 * XIndex(p.x) + YIndex(p.y)]) == p
  {
    RuleIndexInjective(p.x, p.x);
    RuleIndexInjective(p.y, p.y);
    var n := 3 + 5 * XIndex(p.x) + YIndex(p.y);
    SocdModeIndexIsOrdinal(n);
    var q := Decode(AllSocdModes[n]);
    RuleIndexInjective(q.x, p.x);
    RuleIndexInjective(q.y, p.y);
  }

  /** The comprehensive mode of a rule pair, found by its position in the
      enumeration; it is the unique comprehensive mode with those rules. */
  function ComprehensiveMode(p: RulePair): (m: SocdMode)
    ensures IsComprehensive(m)
    ensures Decode(m) == p
    ensures forall m' :: IsComprehensive(m') && Decode(m') == p ==> m' == m
  {
    var n := 3 + 5 * XIndex(p.x) + YIndex(p.y);
    DecodeAtPairIndex(p);
    SocdModeIndexIsOrdinal(n);
    var m := AllSocdModes[n];
    forall m' | IsComprehensive(m') && Decode(m') == p
      ensures m' == m
    {
      SocdModeOrdinalIsIndex(m');
    }
    m
  }

  /** Every comprehensive mode is the one its own rule pair selects, so the
      comprehensive modes and the rule pairs are in one-to-one correspondence. */
  lemma ComprehensiveModesArePairs(m: SocdMode)
    requires IsComprehensive(m)
    ensures ComprehensiveMode(Decode(m)) == m
  {
  }

  /** Every mode, legacy ones included, behaves like exactly one comprehensive
      mode: the one with the same rule pair. */
  function CanonicalMode(m: SocdMode): (c: SocdMode)
    ensures IsComprehensive(c)
    ensures Decode(c) == Decode(m)
    ensures IsComprehensive(m) ==> c == m
  {
    ComprehensiveMode(Decode(m))
  }

  /** The three legacy modes and the comprehensive mode each is an alias of. */
  lemma LegacyAliases()
    ensures CanonicalMode(SocdUpPriority) == XNeutralYUp
    ensures CanonicalMode(SocdNeutral) == XNeutralYNeutral
    ensures CanonicalMode(SocdSecondInputPriority) == XLipYLip
  {
  }
}
