/** One cycle of SOCD cleaning. Each axis is resolved on its own, by the rule
    the active mode gives it, from the two held flags of that axis and the
    axis' last-direction record. */
module SocdResolver {
  import opened GamepadEnums
  import opened SocdPolicy

  /** Vertical pairs up with down; horizontal pairs left with right. */
  datatype Axis = Vertical | Horizontal

  /** Up or left: the direction an UpLeftWins rule reports. */
  function Negative(axis: Axis): DpadDirection
  {
    if axis == Vertical then DirectionUp else DirectionLeft
  }

  /** Down or right: the direction a DownRightWins rule reports. */
  function Positive(axis: Axis): DpadDirection
  {
    if axis == Vertical then DirectionDown else DirectionRight
  }

  /** The rule a mode's rule pair gives an axis: Y for vertical, X for horizontal. */
  function RuleFor(axis: Axis, p: RulePair): AxisRule
  {
    if axis == Vertical then p.y else p.x
  }

  /** The two opposing flags of one axis: neg is up or left, pos is down or right. */
  datatype AxisState = AxisState(neg: bool, pos: bool)

  const Released := AxisState(false, false)

  /** The outcome of one axis in one cycle: the reported flags and the new record. */
  datatype AxisStep = AxisStep(out: AxisState, last: DpadDirection)

  /** A record is meaningful for an axis when it names none or one of its directions. */
  predicate OnAxis(axis: Axis, d: DpadDirection)
  {
    d == DirectionNone || d == Negative(axis) || d == Positive(axis)
  }

  /** The record after a cycle: the direction held on its own, none once both
      are released, and unchanged while both are held (a record naming the
      other axis' directions carries no order and is reset to none). */
  function NextLast(axis: Axis, held: AxisState, last: DpadDirection): (r: DpadDirection)
    ensures OnAxis(axis, r)
    ensures held.neg && held.pos && OnAxis(axis, last) ==> r == last
  {
    if held.neg && !held.pos then Negative(axis)
    else if held.pos && !held.neg then Positive(axis)
    else if held.neg && held.pos && OnAxis(axis, last) then last
    else DirectionNone
  }

  /** Resolves one axis. A lone held direction, or none, is reported as is;
      when both are held the rule decides. LastInput reports the direction
      that was not the one held alone before, FirstInput the one that was; with
      no record (both pressed in the same cycle) both report neither. */
  function ResolveAxis(rule: AxisRule, axis: Axis, held: AxisState, last: DpadDirection): (r: AxisStep)
    ensures !(r.out.neg && r.out.pos)
    ensures r.out.neg ==> held.neg
    ensures r.out.pos ==> held.pos
    ensures held.neg != held.pos ==> r.out == held
    ensures rule == UpLeftWins ==> r.out.neg == held.neg
    ensures rule == DownRightWins ==> r.out.pos == held.pos
    ensures rule == Neutral ==> (r.out.neg <==> held.neg && !held.pos) && (r.out.pos <==> held.pos && !held.neg)
    ensures r.last == NextLast(axis, held, last)
  {
    var out :=
      if !(held.neg && held.pos) then held
      else match rule
        case Neutral => Released
        case UpLeftWins => AxisState(true, false)
        case DownRightWins => AxisState(false, true)
        case LastInput =>
          if last == Negative(axis) then AxisState(false, true)
          else if last == Positive(axis) then AxisState(true, false)
          else Released
        case FirstInput =>
          if last == Negative(axis) then AxisState(true, false)
          else if last == Positive(axis) then AxisState(false, true)
          else Released;
    AxisStep(out, NextLast(axis, held, last))
  }

  /** The four dpad flags, held or reported. */
  datatype Dpad = Dpad(up: bool, down: bool, left: bool, right: bool)

  /** The SOCD cleaner's memory across cycles: one record per axis. */
  datatype SocdHistory = SocdHistory(lastUD: DpadDirection, lastLR: DpadDirection)

  const InitialHistory := SocdHistory(DirectionNone, DirectionNone)

  function AxisOf(axis: Axis, d: Dpad): AxisState
  {
    if axis == Vertical then AxisState(d.up, d.down) else AxisState(d.left, d.right)
  }

  function LastOf(axis: Axis, h: SocdHistory): DpadDirection
  {
    if axis == Vertical then h.lastUD else h.lastLR
  }

  datatype SocdStep = SocdStep(dpad: Dpad, history: SocdHistory)

  /** One cycle of SOCD cleaning under a mode. */
  function Resolve(mode: SocdMode, held: Dpad, hist: SocdHistory): (r: SocdStep)
    ensures !(r.dpad.up && r.dpad.down)
    ensures !(r.dpad.left && r.dpad.right)
    ensures (r.dpad.up ==> held.up) && (r.dpad.down ==> held.down)
    ensures (r.dpad.left ==> held.left) && (r.dpad.right ==> held.right)
    ensures held.up != held.down ==> r.dpad.up == held.up && r.dpad.down == held.down
    ensures held.left != held.right ==> r.dpad.left == held.left && r.dpad.right == held.right
    ensures OnAxis(Vertical, r.history.lastUD) && OnAxis(Horizontal, r.history.lastLR)
  {
    var rules := Decode(mode);
    var v := ResolveAxis(RuleFor(Vertical, rules), Vertical, AxisOf(Vertical, held), LastOf(Vertical, hist));
    var h := ResolveAxis(RuleFor(Horizontal, rules), Horizontal, AxisOf(Horizontal, held), LastOf(Horizontal, hist));
    SocdStep(Dpad(v.out.neg, v.out.pos, h.out.neg, h.out.pos), SocdHistory(v.last, h.last))
  }

  /** Each axis' reported flags and record depend only on that axis' held flags
      and record: changing up/down never changes left/right, and the reverse. */
  lemma AxisIndependence(mode: SocdMode, axis: Axis, a: Dpad, b: Dpad, ha: SocdHistory, hb: SocdHistory)
    requires AxisOf(axis, a) == AxisOf(axis, b)
    requires LastOf(axis, ha) == LastOf(axis, hb)
    ensures AxisOf(axis, Resolve(mode, a, ha).dpad) == AxisOf(axis, Resolve(mode, b, hb).dpad)
    ensures LastOf(axis, Resolve(mode, a, ha).history) == LastOf(axis, Resolve(mode, b, hb).history)
  {
  }

  /** Two modes with the same rule pair clean every input identically, on every record. */
  lemma SameRulesSameBehaviour(m1: SocdMode, m2: SocdMode, held: Dpad, hist: SocdHistory)
    requires Decode(m1) == Decode(m2)
    ensures Resolve(m1, held, hist) == Resolve(m2, held, hist)
  {
  }

  /** Each legacy mode behaves as its comprehensive alias on every input and record. */
  lemma LegacyModesBehaveAsAliases(held: Dpad, hist: SocdHistory)
    ensures Resolve(SocdUpPriority, held, hist) == Resolve(XNeutralYUp, held, hist)
    ensures Resolve(SocdNeutral, held, hist) == Resolve(XNeutralYNeutral, held, hist)
    ensures Resolve(SocdSecondInputPriority, held, hist) == Resolve(XLipYLip, held, hist)
  {
  }

  /** Up priority: up+down reports up alone, and left+right reports neither,
      whatever is held on the other axis. */
  lemma UpPriorityResolves(hist: SocdHistory, up: bool, down: bool, left: bool, right: bool)
    ensures var r := Resolve(SocdUpPriority, Dpad(true, true, left, right), hist).dpad;
      r.up && !r.down
    ensures var r := Resolve(SocdUpPriority, Dpad(up, down, true, true), hist).dpad;
      !r.left && !r.right
  {
  }

  /** Neutral: up+down reports neither up nor down, and left+right neither left
      nor right, whatever is held on the other axis. */
  lemma NeutralResolves(hist: SocdHistory, up: bool, down: bool, left: bool, right: bool)
    ensures var r := Resolve(SocdNeutral, Dpad(true, true, left, right), hist).dpad;
      !r.up && !r.down
    ensures var r := Resolve(SocdNeutral, Dpad(up, down, true, true), hist).dpad;
      !r.left && !r.right
  {
  }
}
