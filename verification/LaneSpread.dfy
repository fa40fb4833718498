/** Spreading a player's lane powers around their average. */
module LaneSpread {
  import opened Rounding

  const ROLES: nat := 5

  datatype LaneRecord = LaneRecord(before: real, adjustment: real, power: real, spread: real)

  /** Lane powers before the spread are clamped to hundredths between 0 and 100. */
  ghost predicate ValidBefore(b: real) {
    IsCents(b) && 0.0 <= b <= 100.0
  }

  function Target(before: real, average: real): (r: real) {
    Clamp(average + (before - average) * 1.28, 0.0, 100.0)
  }

  function SpreadAdjustment(before: real, average: real): (r: real) {
    Clamp(Clamp(Target(before, average) - before, -2.8, 2.8), -1.8, 1.8)
  }

  function Spread(before: real, average: real): (r: real) {
    Clamp(before + SpreadAdjustment(before, average), 0.0, 100.0)
  }

  function Total(roles: seq<LaneRecord>): (r: real) {
    if roles == [] then 0.0 else roles[0].before + Total(roles[1..])
  }

  function Average(roles: seq<LaneRecord>): (r: real) {
    Total(roles) / ROLES as real
  }

  function SpreadRecord(x: LaneRecord, average: real): (r: LaneRecord) {
    var s := SpreadAdjustment(x.before, average);
    LaneRecord(x.before, Clamp(x.adjustment + s, -10.2, 12.6), Spread(x.before, average), s)
  }

  /** The loop that rewrites every role's record in place. */
  method ApplySpread(roles: array<LaneRecord>)
    requires roles.Length == ROLES
    modifies roles
    ensures forall i :: 0 <= i < ROLES ==> roles[i] == SpreadRecord(old(roles[i]), Average(old(roles[..])))
  {
    var average := Average(roles[..]);
    var i := 0;
    while i < roles.Length
      invariant 0 <= i <= roles.Length
      invariant forall k :: 0 <= k < i ==> roles[k] == SpreadRecord(old(roles[k]), average)
      invariant forall k :: i <= k < roles.Length ==> roles[k] == old(roles[k])
    {
      roles[i] := SpreadRecord(roles[i], average);
      i := i + 1;
    }
  }

  lemma Constants()
    ensures IsCents(0.0) && IsCents(100.0) && IsCents(2.8) && IsCents(-2.8) && IsCents(1.8) && IsCents(-1.8)
  {
    assert 0.0 == Cents(0) && 100.0 == Cents(10000);
    assert 2.8 == Cents(280) && -2.8 == Cents(-280);
    assert 1.8 == Cents(180) && -1.8 == Cents(-180);
  }

  /** All roundings but the first are no-ops: the result is the spread target cut to 1.8 around the old
      power. */
  lemma SpreadIsCut(before: real, average: real)
    requires ValidBefore(before)
    ensures var target := Target(before, average);
      Spread(before, average) ==
        if target > before + 1.8 then before + 1.8 else if target < before - 1.8 then before - 1.8 else target
  {
    Constants();
    var target := Target(before, average);
    ClampYieldsCents(average + (before - average) * 1.28, 0.0, 100.0);
    CentsAdd(target, before);
    ClampCuts(target - before, -2.8, 2.8);
    ClampYieldsCents(target - before, -2.8, 2.8);
    ClampCuts(Clamp(target - before, -2.8, 2.8), -1.8, 1.8);
    var s := SpreadAdjustment(before, average);
    ClampYieldsCents(Clamp(target - before, -2.8, 2.8), -1.8, 1.8);
    CentsAdd(before, s);
    ClampCuts(before + s, 0.0, 100.0);
  }

  /** The spread keeps the order of the roles. */
  lemma SpreadKeepsOrder(x: real, y: real, average: real)
    requires ValidBefore(x) && ValidBefore(y) && x <= y
    ensures Spread(x, average) <= Spread(y, average)
  {
    SpreadIsCut(x, average);
    SpreadIsCut(y, average);
    ClampMonotone(average + (x - average) * 1.28, average + (y - average) * 1.28, 0.0, 100.0);
  }

  /** Roles at or above the average never fall, roles at or below it never rise, and none moves more
      than 1.8. */
  lemma SpreadMovesAway(before: real, average: real)
    requires ValidBefore(before)
    ensures before >= average ==> Spread(before, average) >= before
    ensures before <= average ==> Spread(before, average) <= before
    ensures before - 1.8 <= Spread(before, average) <= before + 1.8
  {
    SpreadIsCut(before, average);
    var target := average + (before - average) * 1.28;
    Constants();
    ClampCuts(before, 0.0, 100.0);
    if before >= average {
      assert target >= before;
      ClampMonotone(before, target, 0.0, 100.0);
    }
    if before <= average {
      assert target <= before;
      ClampMonotone(target, before, 0.0, 100.0);
    }
  }

  lemma {:induction false} TotalBounds(roles: seq<LaneRecord>, low: real, high: real)
    requires forall i :: 0 <= i < |roles| ==> low <= roles[i].before <= high
    ensures low * |roles| as real <= Total(roles) <= high * |roles| as real
  {
    if roles == [] {
    } else {
      TotalBounds(roles[1..], low, high);
    }
  }

  lemma AverageBetween(roles: seq<LaneRecord>, low: real, high: real)
    requires |roles| == ROLES
    requires forall i :: 0 <= i < |roles| ==> low <= roles[i].before <= high
    ensures low <= Average(roles) <= high
  {
    TotalBounds(roles, low, high);
  }

  lemma GapAround(roles: seq<LaneRecord>, top: real, bottom: real)
    requires |roles| == ROLES
    requires ValidBefore(top) && ValidBefore(bottom)
    requires forall i :: 0 <= i < |roles| ==> bottom <= roles[i].before <= top
    ensures Spread(top, Average(roles)) - Spread(bottom, Average(roles)) >= top - bottom
  {
    AverageBetween(roles, bottom, top);
    SpreadMovesAway(top, Average(roles));
    SpreadMovesAway(bottom, Average(roles));
  }

  function Highest(xs: seq<real>): (r: real)
    requires xs != []
  {
    if |xs| == 1 then xs[0]
    else
      var rest := Highest(xs[1..]);
      if xs[0] > rest then xs[0] else rest
  }

  function Lowest(xs: seq<real>): (r: real)
    requires xs != []
  {
    if |xs| == 1 then xs[0]
    else
      var rest := Lowest(xs[1..]);
      if xs[0] < rest then xs[0] else rest
  }

  lemma {:induction false} ExtremesAttained(xs: seq<real>) returns (top: nat, bottom: nat)
    requires xs != []
    ensures top < |xs| && xs[top] == Highest(xs) && bottom < |xs| && xs[bottom] == Lowest(xs)
    ensures forall i :: 0 <= i < |xs| ==> Lowest(xs) <= xs[i] <= Highest(xs)
  {
    if |xs| == 1 {
      top, bottom := 0, 0;
    } else {
      var t, b := ExtremesAttained(xs[1..]);
      forall i | 0 < i < |xs| ensures Lowest(xs[1..]) <= xs[i] <= Highest(xs[1..]) {
        assert xs[i] == xs[1..][i - 1];
      }
      top := if xs[0] > Highest(xs[1..]) then 0 else t + 1;
      bottom := if xs[0] < Lowest(xs[1..]) then 0 else b + 1;
    }
  }

  function Befores(roles: seq<LaneRecord>): (r: seq<real>) {
    seq(|roles|, (i: nat) requires i < |roles| => roles[i].before)
  }

  /** The lane powers the loop leaves behind. */
  function Powers(roles: seq<LaneRecord>): (r: seq<real>) {
    seq(|roles|, (i: nat) requires i < |roles| => SpreadRecord(roles[i], Average(roles)).power)
  }

  /** The gap between the strongest and the weakest role never shrinks. */
  lemma GapNeverShrinks(roles: seq<LaneRecord>)
    requires |roles| == ROLES && forall i :: 0 <= i < ROLES ==> ValidBefore(roles[i].before)
    ensures Highest(Powers(roles)) - Lowest(Powers(roles)) >= Highest(Befores(roles)) - Lowest(Befores(roles))
  {
    var top, bottom := ExtremesAttained(Befores(roles));
    var h, l := ExtremesAttained(Powers(roles));
    forall i | 0 <= i < |roles| ensures roles[bottom].before <= roles[i].before <= roles[top].before {
      assert Befores(roles)[i] == roles[i].before;
    }
    GapAround(roles, roles[top].before, roles[bottom].before);
    assert Powers(roles)[top] == Spread(roles[top].before, Average(roles));
    assert Powers(roles)[bottom] == Spread(roles[bottom].before, Average(roles));
  }

  lemma TargetNear(before: real, average: real)
    requires 0.0 <= average + 1.28 * (before - average) <= 100.0
    ensures -0.005 <= Target(before, average) - (before + 0.28 * (before - average)) <= 0.005
  {
    Constants();
    ClampIsClose(average + (before - average) * 1.28, 0.0, 100.0);
  }

  /** A role moves away from the average by 28 percent of its distance, to within half a hundredth; by 1.8 where that
      would be more; and never beyond 0 and 100. */
  lemma SpreadRate(before: real, average: real)
    requires ValidBefore(before)
    ensures var move := 0.28 * (before - average);
      && (-1.795 <= move <= 1.795 && 0.0 <= before + move <= 100.0 ==>
            -0.005 <= Spread(before, average) - (before + move) <= 0.005)
      && (1.805 <= move && before <= 98.2 ==> Spread(before, average) == before + 1.8)
      && (move <= -1.805 && before >= 1.8 ==> Spread(before, average) == before - 1.8)
      && (before + move >= 100.0 && before >= 98.2 ==> Spread(before, average) == 100.0)
      && (before + move <= 0.0 && before <= 1.8 ==> Spread(before, average) == 0.0)
  {
    SpreadIsCut(before, average);
    var move := 0.28 * (before - average);
    var goal := average + (before - average) * 1.28;
    assert goal == before + move;
    Constants();
    ClampAtBounds(goal, 0.0, 100.0);
    if 0.0 <= goal <= 100.0 {
      TargetNear(before, average);
    }
  }

  lemma TargetApart(before: real, average: real)
    requires ValidBefore(before)
    ensures before >= average + 0.02 && before < 100.0 ==> Target(before, average) > before
    ensures before <= average - 0.02 && before > 0.0 ==> Target(before, average) < before
  {
    var goal := average + (before - average) * 1.28;
    assert goal == before + 0.28 * (before - average);
    Constants();
    ClampAtBounds(goal, 0.0, 100.0);
    if 0.0 <= goal <= 100.0 {
      TargetNear(before, average);
    }
  }

  /** So a role 0.02 or more off the average strictly moves away from it, unless it is at the end of the scale. */
  lemma SpreadStrictly(before: real, average: real)
    requires ValidBefore(before)
    ensures before >= average + 0.02 && before < 100.0 ==> Spread(before, average) > before
    ensures before <= average - 0.02 && before > 0.0 ==> Spread(before, average) < before
  {
    TargetApart(before, average);
    SpreadIsCut(before, average);
  }

  /** What the loop leaves in a role's record: the power before it, the power after it, their difference, and the
      adjustment so far with that difference added, cut to -10.2 and 12.6. */
  lemma RecordAfter(x: LaneRecord, average: real)
    requires ValidBefore(x.before) && IsCents(x.adjustment)
    ensures var y := SpreadRecord(x, average);
      && y.before == x.before && y.power == Spread(x.before, average) && y.spread == y.power - x.before
      && y.adjustment == (if x.adjustment + y.spread < -10.2 then -10.2
                          else if x.adjustment + y.spread > 12.6 then 12.6 else x.adjustment + y.spread)
  {
    AdjustmentIsDifference(x.before, average);
    CentsAdd(x.adjustment, SpreadAdjustment(x.before, average));
    ClampCuts(x.adjustment + SpreadAdjustment(x.before, average), -10.2, 12.6);
  }

  lemma AdjustmentIsDifference(before: real, average: real)
    requires ValidBefore(before)
    ensures SpreadAdjustment(before, average) == Spread(before, average) - before
    ensures IsCents(SpreadAdjustment(before, average))
  {
    Constants();
    var target, s := Target(before, average), SpreadAdjustment(before, average);
    ClampYieldsCents(average + (before - average) * 1.28, 0.0, 100.0);
    CentsAdd(target, before);
    ClampCuts(target - before, -2.8, 2.8);
    ClampYieldsCents(target - before, -2.8, 2.8);
    ClampCuts(Clamp(target - before, -2.8, 2.8), -1.8, 1.8);
    ClampYieldsCents(Clamp(target - before, -2.8, 2.8), -1.8, 1.8);
    CentsAdd(before, s);
    ClampCuts(before + s, 0.0, 100.0);
  }

  /** The average is the fifth of the five powers together. */
  lemma AverageOfFive(roles: seq<LaneRecord>)
    requires |roles| == ROLES
    ensures Average(roles)
         == (roles[0].before + roles[1].before + roles[2].before + roles[3].before + roles[4].before) / 5.0
  {
    assert roles[4..][1..] == [] && roles[3..][1..] == roles[4..] && roles[2..][1..] == roles[3..];
    assert roles[1..][1..] == roles[2..];
    assert Total(roles[4..]) == roles[4].before;
    assert Total(roles[3..]) == roles[3].before + Total(roles[4..]);
    assert Total(roles[2..]) == roles[2].before + Total(roles[3..]);
    assert Total(roles[1..]) == roles[1].before + Total(roles[2..]);
  }
}
