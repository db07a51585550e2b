/** SOCD cleaning over a sequence of polling cycles. The cleaner only keeps a
    one-direction record per axis, yet under LastInput the direction whose
    current hold began later wins, and under FirstInput the one whose hold
    began earlier, exactly as if press times had been remembered. */
module SocdTrace {
  import opened GamepadEnums
  import opened SocdPolicy
  import opened SocdResolver

  datatype Side = NegSide | PosSide

  predicate Held(s: AxisState, side: Side)
  {
    if side == NegSide then s.neg else s.pos
  }

  /** The cycle at which the hold of `side` that is still on at cycle k began:
      held from there through k, and released just before (or at the first
      cycle, after power-on with nothing held). */
  function HoldStart(ins: seq<AxisState>, k: nat, side: Side): (start: nat)
    requires k < |ins| && Held(ins[k], side)
    ensures start <= k
    ensures forall i :: start <= i <= k ==> Held(ins[i], side)
    ensures start == 0 || !Held(ins[start - 1], side)
    decreases k
  {
    if k == 0 || !Held(ins[k - 1], side) then k else HoldStart(ins, k - 1, side)
  }

  /** The record after running the cycles of `ins` from record `last`. */
  function Track(axis: Axis, last: DpadDirection, ins: seq<AxisState>): DpadDirection
    decreases |ins|
  {
    if |ins| == 0 then last else Track(axis, NextLast(axis, ins[0], last), ins[1..])
  }

  /** The reported flags of one axis over the cycles of `ins`, from record `last`. */
  function RunAxis(rule: AxisRule, axis: Axis, ins: seq<AxisState>, last: DpadDirection): (outs: seq<AxisState>)
    ensures |outs| == |ins|
    decreases |ins|
  {
    if |ins| == 0 then []
    else
      var s := ResolveAxis(rule, axis, ins[0], last);
      [s.out] + RunAxis(rule, axis, ins[1..], s.last)
  }

  /** Running one more cycle extends the record by that cycle. */
  lemma {:induction false} TrackSnoc(axis: Axis, last: DpadDirection, ins: seq<AxisState>, s: AxisState)
    ensures Track(axis, last, ins + [s]) == NextLast(axis, s, Track(axis, last, ins))
    decreases |ins|
  {
    if |ins| == 0 {
      assert (ins + [s])[1..] == [];
    } else {
      assert (ins + [s])[0] == ins[0];
      assert (ins + [s])[1..] == ins[1..] + [s];
      TrackSnoc(axis, NextLast(axis, ins[0], last), ins[1..], s);
    }
  }

  /** No lookahead: the output at cycle k is the resolver applied to cycle k's
      input and the record left by the cycles before it. */
  lemma {:induction false} RunAxisAt(rule: AxisRule, axis: Axis, ins: seq<AxisState>, last: DpadDirection, k: nat)
    requires k < |ins|
    ensures RunAxis(rule, axis, ins, last)[k] == ResolveAxis(rule, axis, ins[k], Track(axis, last, ins[..k])).out
    decreases k
  {
    if k > 0 {
      var l1 := NextLast(axis, ins[0], last);
      RunAxisAt(rule, axis, ins[1..], l1, k - 1);
      assert ins[..k][0] == ins[0];
      assert ins[..k][1..] == ins[1..][..k - 1];
    }
  }

  /** While both directions are held, the record before the cycle names the
      direction whose current hold began strictly earlier, and is none when
      both holds began together. */
  lemma {:induction false} RecordIsPressOrder(axis: Axis, ins: seq<AxisState>, k: nat)
    requires k < |ins| && ins[k].neg && ins[k].pos
    ensures var h := Track(axis, DirectionNone, ins[..k]);
      && (h == Negative(axis) <==> HoldStart(ins, k, NegSide) < HoldStart(ins, k, PosSide))
      && (h == Positive(axis) <==> HoldStart(ins, k, PosSide) < HoldStart(ins, k, NegSide))
    decreases k
  {
    var a := HoldStart(ins, k, NegSide);
    var b := HoldStart(ins, k, PosSide);
    if k == 0 {
      assert ins[..0] == [];
    } else {
      var p := ins[k - 1];
      assert ins[..k] == ins[..k - 1] + [p];
      TrackSnoc(axis, DirectionNone, ins[..k - 1], p);
      if p.neg && p.pos {
        RecordIsPressOrder(axis, ins, k - 1);
        assert a == HoldStart(ins, k - 1, NegSide);
        assert b == HoldStart(ins, k - 1, PosSide);
      }
    }
  }

  /** LastInput: while both are held, the direction whose hold began later is
      reported alone; when both began in the same cycle, neither is. */
  lemma LastInputReportsLaterPress(axis: Axis, ins: seq<AxisState>, k: nat)
    requires k < |ins| && ins[k].neg && ins[k].pos
    ensures var out := RunAxis(LastInput, axis, ins, DirectionNone)[k];
      && (out.neg <==> HoldStart(ins, k, NegSide) > HoldStart(ins, k, PosSide))
      && (out.pos <==> HoldStart(ins, k, PosSide) > HoldStart(ins, k, NegSide))
  {
    RunAxisAt(LastInput, axis, ins, DirectionNone, k);
    RecordIsPressOrder(axis, ins, k);
  }

  /** FirstInput: while both are held, the direction whose hold began earlier
      is reported alone; when both began in the same cycle, neither is. */
  lemma FirstInputReportsEarlierPress(axis: Axis, ins: seq<AxisState>, k: nat)
    requires k < |ins| && ins[k].neg && ins[k].pos
    ensures var out := RunAxis(FirstInput, axis, ins, DirectionNone)[k];
      && (out.neg <==> HoldStart(ins, k, NegSide) < HoldStart(ins, k, PosSide))
      && (out.pos <==> HoldStart(ins, k, PosSide) < HoldStart(ins, k, NegSide))
  {
    RunAxisAt(FirstInput, axis, ins, DirectionNone, k);
    RecordIsPressOrder(axis, ins, k);
  }

  /** The cleaned dpad over the cycles of `ins`, from history `hist`. */
  function RunSocd(mode: SocdMode, ins: seq<Dpad>, hist: SocdHistory): (outs: seq<Dpad>)
    ensures |outs| == |ins|
    decreases |ins|
  {
    if |ins| == 0 then []
    else
      var s := Resolve(mode, ins[0], hist);
      [s.dpad] + RunSocd(mode, ins[1..], s.history)
  }

  function Project(axis: Axis, ins: seq<Dpad>): (r: seq<AxisState>)
    ensures |r| == |ins|
    ensures forall i :: 0 <= i < |ins| ==> r[i] == AxisOf(axis, ins[i])
  {
    seq(|ins|, i requires 0 <= i < |ins| => AxisOf(axis, ins[i]))
  }

  /** Each axis of a full-dpad run is the single-axis run of that axis' flags
      under the rule the mode gives it. */
  lemma {:induction false} RunSocdProjects(mode: SocdMode, axis: Axis, ins: seq<Dpad>, hist: SocdHistory)
    ensures Project(axis, RunSocd(mode, ins, hist))
         == RunAxis(RuleFor(axis, Decode(mode)), axis, Project(axis, ins), LastOf(axis, hist))
    decreases |ins|
  {
    if |ins| > 0 {
      var s := Resolve(mode, ins[0], hist);
      RunSocdProjects(mode, axis, ins[1..], s.history);
      assert Project(axis, ins)[1..] == Project(axis, ins[1..]);
      var lhs := Project(axis, RunSocd(mode, ins, hist));
      var rhs := RunAxis(RuleFor(axis, Decode(mode)), axis, Project(axis, ins), LastOf(axis, hist));
      assert lhs[0] == rhs[0];
      assert lhs[1..] == Project(axis, RunSocd(mode, ins[1..], s.history));
      assert lhs == [lhs[0]] + lhs[1..];
    }
  }

  /** Any mode whose rule for an axis is LastInput (the legacy second-input
      priority mode among them) reports, from power-on, the later-pressed of
      two held opposing directions. */
  lemma ModeLastInputReportsLaterPress(mode: SocdMode, axis: Axis, ins: seq<Dpad>, k: nat)
    requires RuleFor(axis, Decode(mode)) == LastInput
    requires k < |ins| && AxisOf(axis, ins[k]) == AxisState(true, true)
    ensures var out := AxisOf(axis, RunSocd(mode, ins, InitialHistory)[k]);
      var p := Project(axis, ins);
      && (out.neg <==> HoldStart(p, k, NegSide) > HoldStart(p, k, PosSide))
      && (out.pos <==> HoldStart(p, k, PosSide) > HoldStart(p, k, NegSide))
  {
    RunSocdProjects(mode, axis, ins, InitialHistory);
    LastInputReportsLaterPress(axis, Project(axis, ins), k);
  }

  /** Any mode whose rule for an axis is FirstInput reports, from power-on, the
      earlier-pressed of two held opposing directions. */
  lemma ModeFirstInputReportsEarlierPress(mode: SocdMode, axis: Axis, ins: seq<Dpad>, k: nat)
    requires RuleFor(axis, Decode(mode)) == FirstInput
    requires k < |ins| && AxisOf(axis, ins[k]) == AxisState(true, true)
    ensures var out := AxisOf(axis, RunSocd(mode, ins, InitialHistory)[k]);
      var p := Project(axis, ins);
      && (out.neg <==> HoldStart(p, k, NegSide) < HoldStart(p, k, PosSide))
      && (out.pos <==> HoldStart(p, k, PosSide) < HoldStart(p, k, NegSide))
  {
    RunSocdProjects(mode, axis, ins, InitialHistory);
    FirstInputReportsEarlierPress(axis, Project(axis, ins), k);
  }

  const Up := Dpad(true, false, false, false)
  const Down := Dpad(false, true, false, false)
  const Left := Dpad(false, false, true, false)
  const Right := Dpad(false, false, false, true)
  const UpDown := Dpad(true, true, false, false)
  const LeftRight := Dpad(false, false, true, true)

  /** Second input priority: up then down reports down, left then right reports right. */
  lemma SecondInputPriorityScenario()
    ensures RunSocd(SocdSecondInputPriority, [Up, UpDown], InitialHistory) == [Up, Down]
    ensures RunSocd(SocdSecondInputPriority, [Left, LeftRight], InitialHistory) == [Left, Right]
  {
  }

  /** Last input: down then up reports up; releasing up with down held reports down. */
  lemma LastInputScenario()
    ensures RunSocd(XLipYLip, [Down, UpDown, Down], InitialHistory) == [Down, Up, Down]
  {
    var h1 := SocdHistory(DirectionDown, DirectionNone);
    assert RunSocd(XLipYLip, [Down], h1) == [Down];
    assert RunSocd(XLipYLip, [UpDown, Down], h1) == [Up, Down];
  }

  /** First input: left then right reports left; releasing left with right held reports right. */
  lemma FirstInputScenario()
    ensures RunSocd(XFipYFip, [Left, LeftRight, Right], InitialHistory) == [Left, Left, Right]
  {
    var h1 := SocdHistory(DirectionNone, DirectionLeft);
    assert RunSocd(XFipYFip, [Right], h1) == [Right];
    assert RunSocd(XFipYFip, [LeftRight, Right], h1) == [Left, Right];
  }
}
