/** Yaw angles on a circle: normalisation, the limit test on wrapped limits, and the clamp of a
    relative rotation. Angles are exact reals; one turn is the source's 6.28. */
module YawLimits {
  const DEGREE_CIRCLED_MAX := 6.28
  const NO_LIMIT_MAX := 3.1415927
  const NO_LIMIT_MIN := -3.1415926
  const YAW_OFFSET := 0.2

  /** The angle `a` after `k` whole turns. */
  function AtTurn(a: real, k: int): real {
    a + k as real * 6.28
  }

  predicate InRange(a: real) {
    -3.1415926 <= a <= 3.1415927
  }

  /** `k` turns bring `a` into range and no fewer do. The range is wider than a turn, so being in range
      alone would not determine `k`. */
  predicate Normalises(a: real, k: int) {
    && InRange(AtTurn(a, k))
    && (k > 0 ==> !InRange(AtTurn(a, k - 1)) && a < NO_LIMIT_MIN)
    && (k < 0 ==> !InRange(AtTurn(a, k + 1)) && a > NO_LIMIT_MAX)
  }

  lemma TurnsAreUnique(a: real, k: int, m: int)
    requires Normalises(a, k) && Normalises(a, m)
    ensures k == m
  {
    if k < m {
      assert false;
    } else if m < k {
      assert false;
    }
  }

  function Ceiling(x: real): int {
    -(-x).Floor
  }

  /** The turns that normalise `a`, in closed form. */
  function Turns(a: real): (k: int)
    ensures Normalises(a, k)
  {
    if a > NO_LIMIT_MAX then -Ceiling((a - NO_LIMIT_MAX) / DEGREE_CIRCLED_MAX)
    else if a < NO_LIMIT_MIN then Ceiling((NO_LIMIT_MIN - a) / DEGREE_CIRCLED_MAX)
    else 0
  }

  function NormalForm(a: real): real {
    AtTurn(a, Turns(a))
  }

  /** Normalising twice is normalising once. */
  lemma NormalFormIsIdempotent(a: real)
    ensures InRange(NormalForm(a)) && Congruent(a, NormalForm(a)) && NormalForm(NormalForm(a)) == NormalForm(a)
  {
    assert NormalForm(a) == AtTurn(a, Turns(a));
  }

  /** Two angles point the same way. */
  ghost predicate Congruent(a: real, b: real) {
    exists k :: b == AtTurn(a, k)
  }

  /** Two angles that point the same way and lie out of range on the same side have one normal form. On
      different sides they need not, because the range is wider than a turn. */
  lemma SameSideSameForm(a: real, b: real)
    requires Congruent(a, b)
    requires (a > NO_LIMIT_MAX && b > NO_LIMIT_MAX) || (a < NO_LIMIT_MIN && b < NO_LIMIT_MIN)
    ensures NormalForm(a) == NormalForm(b)
  {
    var k :| b == AtTurn(a, k);
    var m := Turns(b);
    assert AtTurn(b, m) == AtTurn(a, k + m);
    assert AtTurn(b, m - 1) == AtTurn(a, k + m - 1);
    assert AtTurn(b, m + 1) == AtTurn(a, k + m + 1);
    TurnsAreUnique(a, Turns(a), k + m);
  }

  /** The loops of `FormatLimit` for one angle: from above first, then from below. */
  method FormatAngle(angle: real) returns (yaw: real)
    ensures yaw == NormalForm(angle)
  {
    yaw := angle;
    ghost var k := 0;
    var flag := yaw > NO_LIMIT_MAX;
    while flag
      invariant yaw == AtTurn(angle, k) && k <= 0 && flag == (yaw > NO_LIMIT_MAX)
      invariant k < 0 ==> AtTurn(angle, k + 1) > NO_LIMIT_MAX && angle > NO_LIMIT_MAX
      decreases yaw
    {
      yaw, k := yaw - DEGREE_CIRCLED_MAX, k - 1;
      flag := yaw > NO_LIMIT_MAX;
    }
    flag := yaw < NO_LIMIT_MIN;
    while flag
      invariant yaw == AtTurn(angle, k) && yaw <= NO_LIMIT_MAX && flag == (yaw < NO_LIMIT_MIN)
      invariant flag ==> k >= 0 && angle < NO_LIMIT_MIN
      invariant !flag ==> Normalises(angle, k)
      decreases -yaw
    {
      yaw, k := yaw + DEGREE_CIRCLED_MAX, k + 1;
      flag := yaw < NO_LIMIT_MIN;
    }
    TurnsAreUnique(angle, k, Turns(angle));
  }

  /** The loops of the yaw and speed checks: from below first, then from above. They compute the same
      normal form. */
  method NormaliseResult(angle: real) returns (yaw: real)
    ensures yaw == NormalForm(angle)
  {
    yaw := angle;
    ghost var k := 0;
    var flag := yaw < NO_LIMIT_MIN;
    while flag
      invariant yaw == AtTurn(angle, k) && k >= 0 && flag == (yaw < NO_LIMIT_MIN)
      invariant k > 0 ==> AtTurn(angle, k - 1) < NO_LIMIT_MIN && angle < NO_LIMIT_MIN
      decreases -yaw
    {
      yaw, k := yaw + DEGREE_CIRCLED_MAX, k + 1;
      flag := yaw < NO_LIMIT_MIN;
    }
    flag := yaw > NO_LIMIT_MAX;
    while flag
      invariant yaw == AtTurn(angle, k) && yaw >= NO_LIMIT_MIN && flag == (yaw > NO_LIMIT_MAX)
      invariant flag ==> k <= 0 && angle > NO_LIMIT_MAX
      invariant !flag ==> Normalises(angle, k)
      decreases yaw
    {
      yaw, k := yaw - DEGREE_CIRCLED_MAX, k - 1;
      flag := yaw > NO_LIMIT_MAX;
    }
    TurnsAreUnique(angle, k, Turns(angle));
  }

  /** The three-case sign test, as written. */
  predicate IsLimited(negMax: real, posMax: real, position: real) {
    || (negMax < 0.0 && posMax < 0.0 && position < negMax && position > posMax)
    || (negMax > 0.0 && posMax > 0.0 && position < negMax && position > posMax)
    || (negMax < 0.0 && posMax > 0.0
        && ((position > 0.0 && position > posMax) || (position < 0.0 && position < negMax)))
  }

  /** A device may point at `p` if some whole number of turns brings it between the raw limits. */
  ghost predicate Reachable(neg: real, pos: real, p: real) {
    exists k :: neg <= AtTurn(p, k) <= pos
  }

  /** Raw limits as devices report them: around straight ahead, less than a turn apart. */
  predicate Limits(neg: real, pos: real) {
    neg < 0.0 < pos && pos - neg < DEGREE_CIRCLED_MAX
  }

  /** At most one of the two limits needs wrapping, and then both end up on the same side of zero. */
  lemma WrappedLimits(neg: real, pos: real)
    requires Limits(neg, pos)
    ensures NormalForm(pos) == if pos > NO_LIMIT_MAX then pos - DEGREE_CIRCLED_MAX else pos
    ensures NormalForm(neg) == if neg < NO_LIMIT_MIN then neg + DEGREE_CIRCLED_MAX else neg
    ensures pos > NO_LIMIT_MAX ==> neg >= NO_LIMIT_MIN && NormalForm(pos) < NormalForm(neg) < 0.0
    ensures neg < NO_LIMIT_MIN ==> pos <= NO_LIMIT_MAX && 0.0 < NormalForm(pos) < NormalForm(neg)
  {
    TurnsAreUnique(pos, Turns(pos), if pos > NO_LIMIT_MAX then -1 else 0);
    TurnsAreUnique(neg, Turns(neg), if neg < NO_LIMIT_MIN then 1 else 0);
  }

  /** In range, only the angle itself and its two neighbours a turn away can lie between the limits. */
  lemma ReachableByOneTurn(neg: real, pos: real, p: real)
    requires Limits(neg, pos) && InRange(p)
    ensures Reachable(neg, pos, p) <==>
              neg <= p <= pos || neg <= p + DEGREE_CIRCLED_MAX <= pos || neg <= p - DEGREE_CIRCLED_MAX <= pos
  {
    assert AtTurn(p, 0) == p && AtTurn(p, 1) == p + DEGREE_CIRCLED_MAX && AtTurn(p, -1) == p - DEGREE_CIRCLED_MAX;
  }

  /** Where the range overlaps itself and the wrapped test is too strict: an angle outside limits that
      needed no wrapping whose neighbour a turn away lies inside them. */
  predicate Overlap(neg: real, pos: real, p: real) {
    && NO_LIMIT_MIN <= neg && pos <= NO_LIMIT_MAX
    && ((p > pos && p - DEGREE_CIRCLED_MAX >= neg) || (p < neg && p + DEGREE_CIRCLED_MAX <= pos))
  }

  /** For every angle in range, the sign test on wrapped limits is the interval test on raw ones exactly
      when the angle is not in the overlap; what it lets through is always reachable. */
  lemma LimitTestIsExact(neg: real, pos: real, p: real)
    requires Limits(neg, pos) && InRange(p)
    ensures (IsLimited(NormalForm(neg), NormalForm(pos), p) <==> !Reachable(neg, pos, p)) <==> !Overlap(neg, pos, p)
    ensures !IsLimited(NormalForm(neg), NormalForm(pos), p) ==> Reachable(neg, pos, p)
  {
    WrappedLimits(neg, pos);
    ReachableByOneTurn(neg, pos, p);
  }

  /** A sufficient condition on the angle alone: closer to straight ahead than any overlap. */
  lemma LimitTestNearAhead(neg: real, pos: real, p: real)
    requires Limits(neg, pos)
    requires -(DEGREE_CIRCLED_MAX - NO_LIMIT_MAX) < p < DEGREE_CIRCLED_MAX - NO_LIMIT_MAX
    ensures IsLimited(NormalForm(neg), NormalForm(pos), p) <==> !Reachable(neg, pos, p)
  {
    LimitTestIsExact(neg, pos, p);
  }

  /** The overlap is not empty: just past half a turn, an angle the device can reach is called limited. */
  lemma OverlapExample()
    ensures Limits(-3.14, 3.0) && InRange(3.1415)
    ensures IsLimited(NormalForm(-3.14), NormalForm(3.0), 3.1415) && Reachable(-3.14, 3.0, 3.1415)
  {
    LimitTestIsExact(-3.14, 3.0, 3.1415);
  }

  datatype AxisLimited = NOT_LIMITED | NEG_LIMITED | POS_LIMITED

  /** The margin the clamp keeps, on the side of the request. */
  function Margin(yaw: real): real {
    if yaw > 0.0 then YAW_OFFSET else -YAW_OFFSET
  }

  datatype EulerAngles = EulerAngles(yaw: real, roll: real, pitch: real)

  class RotateParam {
    var yaw: real
    var roll: real
    var pitch: real

    constructor (degree: EulerAngles)
      ensures Degree() == degree
    {
      yaw, roll, pitch := degree.yaw, degree.roll, degree.pitch;
    }

    ghost function Degree(): EulerAngles
      reads this
    {
      EulerAngles(yaw, roll, pitch)
    }
  }

  /** The yaw a clamped request is changed to. */
  function ClampedYaw(negMax: real, posMax: real, current: real, yaw: real): real {
    var target := NormalForm(current + yaw + Margin(yaw));
    if !IsLimited(negMax, posMax, target) then yaw
    else if yaw > 0.0 then yaw - (target - posMax)
    else yaw - (target - negMax)
  }

  /** What the yaw check answers to a request. The landing point, with a margin of 0.2 on the side of the
      request, is brought into range by `k` whole turns. If it is not limited there, the request stays as
      it is; if it is, the answer lands, with the same margin and after the same turns, on the limit of the
      side of the request, which is recorded. */
  ghost predicate YawAnswer(negMax: real, posMax: real, current: real, asked: real, answer: real, side: AxisLimited) {
    var margin := if asked > 0.0 then 0.2 else -0.2;
    && (side == NOT_LIMITED ==> answer == asked)
    && (side == POS_LIMITED ==> asked > 0.0) && (side == NEG_LIMITED ==> asked <= 0.0)
    && LandsInRange(negMax, posMax, current + asked + margin, current + answer + margin, side)
  }

  ghost predicate LandsInRange(negMax: real, posMax: real, asked: real, answer: real, side: AxisLimited) {
    forall k | Normalises(asked, k) ::
      && (side != NOT_LIMITED <==> IsLimited(negMax, posMax, AtTurn(asked, k)))
      && (side == POS_LIMITED ==> AtTurn(answer, k) == posMax)
      && (side == NEG_LIMITED ==> AtTurn(answer, k) == negMax)
  }

  lemma LandsWhereClamped(negMax: real, posMax: real, current: real, asked: real, side: AxisLimited)
    requires side == if !IsLimited(negMax, posMax, NormalForm(current + asked + Margin(asked))) then NOT_LIMITED
                     else if asked > 0.0 then POS_LIMITED else NEG_LIMITED
    ensures LandsInRange(negMax, posMax, current + asked + Margin(asked),
                         current + ClampedYaw(negMax, posMax, current, asked) + Margin(asked), side)
  {
    var start := current + asked + Margin(asked);
    var answer := ClampedYaw(negMax, posMax, current, asked);
    forall k | Normalises(start, k)
      ensures k == Turns(start)
    {
      TurnsAreUnique(start, k, Turns(start));
    }
    assert forall k :: AtTurn(current + answer + Margin(asked), k) == AtTurn(start, k) + (answer - asked);
  }

  lemma ClampedYawAnswers(negMax: real, posMax: real, current: real, asked: real, side: AxisLimited)
    requires side == if !IsLimited(negMax, posMax, NormalForm(current + asked + Margin(asked))) then NOT_LIMITED
                     else if asked > 0.0 then POS_LIMITED else NEG_LIMITED
    ensures YawAnswer(negMax, posMax, current, asked, ClampedYaw(negMax, posMax, current, asked), side)
  {
    LandsWhereClamped(negMax, posMax, current, asked, side);
  }

  /** After the clamp the request, with its margin, leads to an angle the limit test accepts: the
      formatted limit of its own side if it was limited, the unchanged target otherwise. */
  lemma ClampEndsAcceptably(negMax: real, posMax: real, current: real, yaw: real)
    ensures var target := NormalForm(current + yaw + Margin(yaw));
            var end := if !IsLimited(negMax, posMax, target) then target
                       else if yaw > 0.0 then posMax else negMax;
            && Congruent(current + ClampedYaw(negMax, posMax, current, yaw) + Margin(yaw), end)
            && !IsLimited(negMax, posMax, end)
  {
    var start := current + yaw + Margin(yaw);
    var k := Turns(start);
    var clamped := current + ClampedYaw(negMax, posMax, current, yaw) + Margin(yaw);
    assert AtTurn(clamped, k) == AtTurn(start, k) + (ClampedYaw(negMax, posMax, current, yaw) - yaw);
  }

  lemma CongruentIsReachable(neg: real, pos: real, a: real, b: real)
    requires Congruent(a, b) && Reachable(neg, pos, b)
    ensures Reachable(neg, pos, a)
  {
    var k :| b == AtTurn(a, k);
    var m :| neg <= AtTurn(b, m) <= pos;
    assert AtTurn(a, k + m) == AtTurn(b, m);
  }

  /** The property the clamp exists for: with the limits a device reports, however the request and the
      current yaw lie, the clamped request keeps its margin from leaving the raw limits. */
  lemma ClampedRequestIsReachable(neg: real, pos: real, current: real, yaw: real)
    requires Limits(neg, pos)
    ensures Reachable(neg, pos, current + ClampedYaw(NormalForm(neg), NormalForm(pos), current, yaw) + Margin(yaw))
  {
    var target := NormalForm(current + yaw + Margin(yaw));
    var clamped := current + ClampedYaw(NormalForm(neg), NormalForm(pos), current, yaw) + Margin(yaw);
    ClampEndsAcceptably(NormalForm(neg), NormalForm(pos), current, yaw);
    LimitTestIsExact(neg, pos, target);
    if !IsLimited(NormalForm(neg), NormalForm(pos), target) {
      CongruentIsReachable(neg, pos, clamped, target);
    } else {
      var limit := if yaw > 0.0 then pos else neg;
      assert AtTurn(limit, 0) == limit;
      assert AtTurn(NormalForm(limit), -Turns(limit)) == limit;
      CongruentIsReachable(neg, pos, clamped, NormalForm(limit));
    }
  }

  /** The turn that ends at the lower bound. */
  predicate BelowRange(a: real) {
    -3.1415926 - 6.28 < a <= -3.1415926
  }

  /** Where the loops of the roll and pitch checks leave an angle: both compare with the lower bound, so
      the result is the first congruent angle at or below it. */
  function RollForm(a: real): (b: real)
    ensures BelowRange(b) && Congruent(a, b)
  {
    AtTurn(a, -Ceiling((a - NO_LIMIT_MIN) / DEGREE_CIRCLED_MAX))
  }

  function ClampedRoll(negMax: real, posMax: real, current: real, roll: real): real {
    var target := RollForm(current + roll);
    if !IsLimited(negMax, posMax, target) then roll
    else if roll > 0.0 then roll - (target - posMax)
    else roll - (target - negMax)
  }

  lemma RollFormIsUnique(a: real, k: int)
    requires BelowRange(AtTurn(a, k))
    ensures AtTurn(a, k) == RollForm(a) && k == -Ceiling((a - NO_LIMIT_MIN) / DEGREE_CIRCLED_MAX)
  {
    assert k == -Ceiling((a - NO_LIMIT_MIN) / DEGREE_CIRCLED_MAX);
  }

  /** What the roll and pitch checks answer: the same without a margin, on the turn below the lower bound. */
  ghost predicate RollAnswer(negMax: real, posMax: real, current: real, asked: real, answer: real, side: AxisLimited) {
    && (side == NOT_LIMITED ==> answer == asked)
    && (side == POS_LIMITED ==> asked > 0.0) && (side == NEG_LIMITED ==> asked <= 0.0)
    && LandsBelowRange(negMax, posMax, current + asked, current + answer, side)
  }

  ghost predicate LandsBelowRange(negMax: real, posMax: real, asked: real, answer: real, side: AxisLimited) {
    forall k | BelowRange(AtTurn(asked, k)) ::
      && (side != NOT_LIMITED <==> IsLimited(negMax, posMax, AtTurn(asked, k)))
      && (side == POS_LIMITED ==> AtTurn(answer, k) == posMax)
      && (side == NEG_LIMITED ==> AtTurn(answer, k) == negMax)
  }

  lemma ClampedRollAnswers(negMax: real, posMax: real, current: real, asked: real, side: AxisLimited)
    requires side == if !IsLimited(negMax, posMax, RollForm(current + asked)) then NOT_LIMITED
                     else if asked > 0.0 then POS_LIMITED else NEG_LIMITED
    ensures RollAnswer(negMax, posMax, current, asked, ClampedRoll(negMax, posMax, current, asked), side)
  {
    var start := current + asked;
    var answer := ClampedRoll(negMax, posMax, current, asked);
    forall k: int
      ensures BelowRange(AtTurn(start, k)) ==> AtTurn(start, k) == RollForm(start)
    {
      if BelowRange(AtTurn(start, k)) {
        RollFormIsUnique(start, k);
      }
    }
    assert forall k :: AtTurn(current + answer, k) == AtTurn(start, k) + (answer - asked);
  }

  /** So these two checks do not test what the yaw check tests: they call every request limited, wherever
      it would lead, exactly when the negative limit lies above the lower bound. */
  lemma EveryRollIsLimitedExactlyWhen(negMax: real, posMax: real)
    requires negMax < 0.0 < posMax
    ensures (forall landing :: IsLimited(negMax, posMax, RollForm(landing))) <==> negMax > NO_LIMIT_MIN
  {
    if negMax > NO_LIMIT_MIN {
      forall landing
        ensures IsLimited(negMax, posMax, RollForm(landing))
      {
      }
    } else {
      RollFormIsUnique(NO_LIMIT_MIN, 0);
      assert RollForm(NO_LIMIT_MIN) == NO_LIMIT_MIN;
    }
  }

  /** For one landing angle, the check compares the angle its loops produce with the negative limit alone. It
      never lets an unreachable angle through, and agrees with the interval test exactly unless the angle is
      reachable and its turn below the lower bound falls short of the negative limit. */
  lemma RollTestIsExact(negMax: real, posMax: real, landing: real)
    requires negMax < 0.0 < posMax
    ensures IsLimited(negMax, posMax, RollForm(landing)) <==> RollForm(landing) < negMax
    ensures !IsLimited(negMax, posMax, RollForm(landing)) ==> Reachable(negMax, posMax, landing)
    ensures (IsLimited(negMax, posMax, RollForm(landing)) <==> !Reachable(negMax, posMax, landing)) <==>
              !(Reachable(negMax, posMax, landing) && RollForm(landing) < negMax)
  {
    var form := RollForm(landing);
    if form >= negMax {
      assert AtTurn(form, 0) == form;
      CongruentIsReachable(negMax, posMax, landing, form);
    }
  }

  /** And a limited request is turned into one for the limit on its own side. */
  lemma LimitedRollGoesToLimit(negMax: real, posMax: real, current: real, roll: real)
    requires IsLimited(negMax, posMax, RollForm(current + roll))
    ensures Congruent(current + ClampedRoll(negMax, posMax, current, roll), if roll > 0.0 then posMax else negMax)
  {
    var k :| RollForm(current + roll) == AtTurn(current + roll, k);
    var clamped := current + ClampedRoll(negMax, posMax, current, roll);
    assert AtTurn(clamped, k) == AtTurn(current + roll, k) + (ClampedRoll(negMax, posMax, current, roll) - roll);
  }

  class RotateDegreeLimit {
    var negYaw: real
    var posYaw: real

    constructor (negYaw: real, posYaw: real)
      ensures this.negYaw == negYaw && this.posYaw == posYaw
    {
      this.negYaw, this.posYaw := negYaw, posYaw;
    }
  }

  /** Wraps both yaw limits in place, so that the sign test on them tests the raw limits. */
  method FormatLimit(limit: RotateDegreeLimit)
    modifies limit
    ensures limit.negYaw == NormalForm(old(limit.negYaw)) && limit.posYaw == NormalForm(old(limit.posYaw))
    ensures Limits(old(limit.negYaw), old(limit.posYaw)) ==>
              forall p | InRange(p) && !Overlap(old(limit.negYaw), old(limit.posYaw), p) ::
                IsLimited(limit.negYaw, limit.posYaw, p) <==> !Reachable(old(limit.negYaw), old(limit.posYaw), p)
  {
    limit.negYaw := FormatAngle(limit.negYaw);
    limit.posYaw := FormatAngle(limit.posYaw);
    if Limits(old(limit.negYaw), old(limit.posYaw)) {
      forall p | InRange(p) && !Overlap(old(limit.negYaw), old(limit.posYaw), p)
        ensures IsLimited(limit.negYaw, limit.posYaw, p) <==> !Reachable(old(limit.negYaw), old(limit.posYaw), p)
      {
        LimitTestIsExact(old(limit.negYaw), old(limit.posYaw), p);
      }
    }
  }

  class MotionManager {
    var yawLimited: AxisLimited
    var rollLimited: AxisLimited
    var pitchLimited: AxisLimited

    constructor ()
      ensures yawLimited == NOT_LIMITED && rollLimited == NOT_LIMITED && pitchLimited == NOT_LIMITED
    {
      yawLimited, rollLimited, pitchLimited := NOT_LIMITED, NOT_LIMITED, NOT_LIMITED;
    }

    /** The check of a relative rotation: every axis is clamped in place by its own limits, and a change of
        the recorded sides is reported. */
    method HandelRotateParam(rotateParam: RotateParam, negMax: EulerAngles, posMax: EulerAngles, current: EulerAngles)
      returns (willLimitChange: bool)
      modifies rotateParam, this
      ensures rotateParam.Degree() ==
              var asked := old(rotateParam.Degree());
              EulerAngles(ClampedYaw(negMax.yaw, posMax.yaw, current.yaw, asked.yaw),
                          ClampedRoll(negMax.roll, posMax.roll, current.roll, asked.roll),
                          ClampedRoll(negMax.pitch, posMax.pitch, current.pitch, asked.pitch))
      ensures willLimitChange <==>
                (yawLimited, rollLimited, pitchLimited) != old((yawLimited, rollLimited, pitchLimited))
      ensures YawAnswer(negMax.yaw, posMax.yaw, current.yaw, old(rotateParam.yaw), rotateParam.yaw, yawLimited)
      ensures RollAnswer(negMax.roll, posMax.roll, current.roll, old(rotateParam.roll), rotateParam.roll, rollLimited)
      ensures RollAnswer(negMax.pitch, posMax.pitch, current.pitch, old(rotateParam.pitch), rotateParam.pitch,
                         pitchLimited)
    {
      var yaw, roll, pitch := yawLimited, rollLimited, pitchLimited;
      CheckYawDegree(rotateParam, negMax.yaw, posMax.yaw, current.yaw);
      CheckRollDegree(rotateParam, negMax.roll, posMax.roll, current.roll);
      CheckPitchDegree(rotateParam, negMax.pitch, posMax.pitch, current.pitch);
      willLimitChange := yaw != yawLimited || roll != rollLimited || pitch != pitchLimited;
    }

    /** Clamps a relative yaw in place and records the side it was limited on. */
    method CheckYawDegree(rotateParam: RotateParam, negMax: real, posMax: real, current: real)
      modifies rotateParam`yaw, this`yawLimited
      ensures rotateParam.yaw == ClampedYaw(negMax, posMax, current, old(rotateParam.yaw))
      ensures YawAnswer(negMax, posMax, current, old(rotateParam.yaw), rotateParam.yaw, yawLimited)
    {
      var yawResult := current + rotateParam.yaw;
      yawResult := yawResult + (if rotateParam.yaw > 0.0 then YAW_OFFSET else -YAW_OFFSET);
      yawResult := NormaliseResult(yawResult);
      if IsLimited(negMax, posMax, yawResult) {
        if rotateParam.yaw > 0.0 {
          rotateParam.yaw := rotateParam.yaw - (yawResult - posMax);
          yawLimited := POS_LIMITED;
        } else {
          rotateParam.yaw := rotateParam.yaw - (yawResult - negMax);
          yawLimited := NEG_LIMITED;
        }
      } else {
        yawLimited := NOT_LIMITED;
      }
      ClampedYawAnswers(negMax, posMax, current, old(rotateParam.yaw), yawLimited);
    }

    /** The check of a rotation by speed records a limit and leaves the request alone; a side already
        recorded is kept for as long as the landing point stays limited. */
    method CheckYawSpeed(yawSpeed: real, negMax: real, posMax: real, landing: real)
      modifies this`yawLimited
      ensures yawLimited != NOT_LIMITED <==>
                IsLimited(negMax, posMax, NormalForm(landing + if yawSpeed > 0.0 then 0.2 else -0.2))
      ensures yawLimited != NOT_LIMITED && old(yawLimited) != NOT_LIMITED ==> yawLimited == old(yawLimited)
      ensures yawLimited != NOT_LIMITED && old(yawLimited) == NOT_LIMITED ==>
                (yawLimited == POS_LIMITED <==> yawSpeed > 0.0)
    {
      var yawResult := landing + (if yawSpeed > 0.0 then YAW_OFFSET else -YAW_OFFSET);
      yawResult := NormaliseResult(yawResult);
      if IsLimited(negMax, posMax, yawResult) {
        if yawLimited == POS_LIMITED || yawLimited == NEG_LIMITED {
          return;
        }
        if yawSpeed > 0.0 {
          yawLimited := POS_LIMITED;
        } else {
          yawLimited := NEG_LIMITED;
        }
      } else {
        yawLimited := NOT_LIMITED;
      }
    }

    /** The roll check, loops as written. */
    method CheckRollDegree(rotateParam: RotateParam, negMax: real, posMax: real, current: real)
      modifies rotateParam`roll, this`rollLimited
      ensures rotateParam.roll == ClampedRoll(negMax, posMax, current, old(rotateParam.roll))
      ensures RollAnswer(negMax, posMax, current, old(rotateParam.roll), rotateParam.roll, rollLimited)
      ensures rollLimited == if !IsLimited(negMax, posMax, RollForm(current + old(rotateParam.roll))) then NOT_LIMITED
                             else if old(rotateParam.roll) > 0.0 then POS_LIMITED else NEG_LIMITED
    {
      var rollResult := NormaliseBelow(current + rotateParam.roll);
      if IsLimited(negMax, posMax, rollResult) {
        if rotateParam.roll > 0.0 {
          rotateParam.roll := rotateParam.roll - (rollResult - posMax);
          rollLimited := POS_LIMITED;
        } else {
          rotateParam.roll := rotateParam.roll - (rollResult - negMax);
          rollLimited := NEG_LIMITED;
        }
      } else {
        rollLimited := NOT_LIMITED;
      }
      ClampedRollAnswers(negMax, posMax, current, old(rotateParam.roll), rollLimited);
    }

    /** The pitch check, the same text over the pitch fields. */
    method CheckPitchDegree(rotateParam: RotateParam, negMax: real, posMax: real, current: real)
      modifies rotateParam`pitch, this`pitchLimited
      ensures rotateParam.pitch == ClampedRoll(negMax, posMax, current, old(rotateParam.pitch))
      ensures RollAnswer(negMax, posMax, current, old(rotateParam.pitch), rotateParam.pitch, pitchLimited)
      ensures pitchLimited == if !IsLimited(negMax, posMax, RollForm(current + old(rotateParam.pitch))) then NOT_LIMITED
                              else if old(rotateParam.pitch) > 0.0 then POS_LIMITED else NEG_LIMITED
    {
      var pitchResult := NormaliseBelow(current + rotateParam.pitch);
      if IsLimited(negMax, posMax, pitchResult) {
        if rotateParam.pitch > 0.0 {
          rotateParam.pitch := rotateParam.pitch - (pitchResult - posMax);
          pitchLimited := POS_LIMITED;
        } else {
          rotateParam.pitch := rotateParam.pitch - (pitchResult - negMax);
          pitchLimited := NEG_LIMITED;
        }
      } else {
        pitchLimited := NOT_LIMITED;
      }
      ClampedRollAnswers(negMax, posMax, current, old(rotateParam.pitch), pitchLimited);
    }

    method NormaliseBelow(angle: real) returns (rollResult: real)
      ensures rollResult == RollForm(angle)
    {
      rollResult := angle;
      ghost var k := 0;
      var flag := rollResult < NO_LIMIT_MIN;
      while flag
        invariant rollResult == AtTurn(angle, k) && flag == (rollResult < NO_LIMIT_MIN)
        invariant flag || NO_LIMIT_MIN - DEGREE_CIRCLED_MAX < rollResult
        decreases -rollResult
      {
        rollResult, k := rollResult + DEGREE_CIRCLED_MAX, k + 1;
        flag := rollResult < NO_LIMIT_MIN;
      }
      flag := rollResult > NO_LIMIT_MIN;
      while flag
        invariant rollResult == AtTurn(angle, k) && flag == (rollResult > NO_LIMIT_MIN)
        invariant NO_LIMIT_MIN - DEGREE_CIRCLED_MAX < rollResult
        decreases rollResult - NO_LIMIT_MIN + DEGREE_CIRCLED_MAX
      {
        rollResult, k := rollResult - DEGREE_CIRCLED_MAX, k - 1;
        flag := rollResult > NO_LIMIT_MIN;
      }
      RollFormIsUnique(angle, k);
    }
  }
}
