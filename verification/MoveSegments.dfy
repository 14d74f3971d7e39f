/** Move requests of a wheel base, converted to timed segments of constant speed. Distances are whole
    centimetres, angles exact real degrees, durations 16-bit milliseconds. */
module MoveSegments {
  const UINT16_MAX := 0xFFFF
  const CM_CONVERSION := 10
  const MS_CONVERSION := 1000
  const ANGLE_SPEED_DEFAULT := 50.0
  const TWO_TO_64 := 0x1_0000_0000_0000_0000

  type Int16 = n: int | -0x8000 <= n < 0x8000
  type Int32 = n: int | -0x8000_0000 <= n < 0x8000_0000
  type Millis = n: nat | n <= 0xFFFF
  type Uint64 = n: nat | n < 0x1_0000_0000_0000_0000

  /** A gear outside the table has the code the client sent. */
  datatype SpeedGear = LOW_SPEED | MIDDLE_SPEED | HIGH_SPEED | OTHER_GEAR(code: int)
  datatype MarchingMode = TURN_THEN_MOVE | TURNING_MOVING

  datatype MoveParams = MoveParams(distance: Int32, angle: real, speedGear: SpeedGear, mode: MarchingMode)
  datatype SpeedParams = SpeedParams(speed: Int16, angle: real, mode: MarchingMode)

  /** The quotient of a nonzero angle by a zero time is an infinity. */
  datatype TurningSpeed = Finite(value: real) | Infinite(negative: bool)

  datatype Segment = Segment(duration: Millis, forwardSpeed: Int16, turningSpeed: TurningSpeed)

  const STANDING := Finite(0.0)

  function DistanceSpeed(gear: SpeedGear): Int16 {
    match gear
    case LOW_SPEED => 20
    case MIDDLE_SPEED => 50
    case HIGH_SPEED => 80
    case OTHER_GEAR(_) => 0
  }

  function AbsInt(n: int): nat {
    if n < 0 then -n else n
  }

  function AbsReal(a: real): real {
    if a < 0.0 then -a else a
  }

  function GetFinalSpeed(negative: bool, speed: Int16): Int16
    requires speed > -0x8000
  {
    if negative then -speed else speed
  }

  function SafeMsToUint16(ms: Uint64): Millis {
    if UINT16_MAX < ms then UINT16_MAX else ms
  }

  function DistanceToMs(distanceCm: Int32, speedCmPerSec: Int16): (ms: Uint64)
    requires distanceCm > -0x8000_0000
  {
    if speedCmPerSec <= 0 then 0
    else
      DivisionShrinks(AbsInt(distanceCm) * CM_CONVERSION * MS_CONVERSION, speedCmPerSec);
      AbsInt(distanceCm) * CM_CONVERSION * MS_CONVERSION / speedCmPerSec
  }

  lemma DivisionShrinks(a: nat, b: nat)
    requires b > 0
    ensures 0 <= a / b <= a
    ensures b * (a / b) <= a < b * (a / b) + b
  {
    var q := a / b;
    assert a == b * q + a % b;
    ProductGrows(b, q);
  }

  lemma ProductGrows(b: nat, q: int)
    requires b > 0
    ensures q >= 0 ==> b * q >= q
    ensures q < 0 ==> b * q < 0
  {
    if q >= 0 {
      assert b * q == q + (b - 1) * q;
    }
  }

  /** Angles for which the cast to an unsigned integer is defined. */
  predicate CastFits(angle: real) {
    AbsReal(angle) * 1000.0 / ANGLE_SPEED_DEFAULT < TWO_TO_64 as real
  }

  function AngleToMs(angle: real): Uint64
    requires CastFits(angle)
  {
    (AbsReal(angle) * 1000.0 / ANGLE_SPEED_DEFAULT).Floor
  }

  function Quotient(angle: real, moveTime: Millis): TurningSpeed
    requires angle != 0.0
  {
    if moveTime == 0 then Infinite(angle < 0.0) else Finite(angle / (moveTime as real / 1000.0))
  }

  // What a list of segments does -------------------------------------------------------------------------

  /** Ground covered, in units of a ten-thousandth of a centimetre. */
  ghost function Travelled(segments: seq<Segment>): int {
    if |segments| == 0 then 0 else segments[0].duration * segments[0].forwardSpeed + Travelled(segments[1..])
  }

  ghost predicate AllFinite(segments: seq<Segment>) {
    forall s <- segments :: s.turningSpeed.Finite?
  }

  /** The angle turned, in thousandths of a degree. */
  ghost function Turned(segments: seq<Segment>): real
    requires AllFinite(segments)
  {
    if |segments| == 0 then 0.0
    else segments[0].duration as real * segments[0].turningSpeed.value + Turned(segments[1..])
  }

  /** Turns come before moves, each in a segment of its own. */
  ghost predicate TurnsThenMoves(segments: seq<Segment>) {
    && (forall s <- segments :: s.forwardSpeed == 0 || s.turningSpeed == STANDING)
    && (forall i, j | 0 <= i < j < |segments| :: segments[i].forwardSpeed == 0 && segments[j].turningSpeed == STANDING)
  }

  /** `done` has the direction of `asked`, does not exceed it, and falls short of it by less than `step`, unless
      the time was capped; then all of the 65535 steps there are have been made. */
  ghost predicate Approaches(done: real, asked: real, step: real, capped: bool) {
    && (asked >= 0.0 ==> 0.0 <= done <= asked)
    && (asked <= 0.0 ==> asked <= done <= 0.0)
    && (!capped ==> AbsReal(asked) - AbsReal(done) < step)
    && (capped ==> AbsReal(done) == 65535.0 * step)
  }

  predicate DistanceCapped(distance: Int32, gear: SpeedGear) {
    AbsInt(distance) * 10_000 >= 65536 * DistanceSpeed(gear)
  }

  predicate AngleCapped(angle: real) {
    AbsReal(angle) * 1000.0 >= 65536.0 * 50.0
  }

  /** Every move request in a gear of the table: at most two segments, the turn before the move. The base
      covers the distance asked for to within a millisecond of motion and never more, unless the time
      is capped; a turn by itself likewise; and a turn made while moving comes to exactly the angle asked. */
  ghost predicate Realises(p: MoveParams, segments: seq<Segment>) {
    && |segments| <= 2
    && AllFinite(segments)
    && (p.mode == TURN_THEN_MOVE ==> TurnsThenMoves(segments))
    && (p.mode == TURNING_MOVING ==> |segments| <= 1)
    && MovesRight(p.distance, p.speedGear, Travelled(segments))
    && (if p.mode == TURNING_MOVING && p.distance != 0 then Turned(segments) == p.angle * 1000.0
        else TurnsRight(p.angle, Turned(segments)))
  }

  /** The largest whole number of milliseconds that does not overshoot, saturated. */
  lemma MillisFor(distance: Int32, gear: SpeedGear)
    requires !gear.OTHER_GEAR? && distance > -0x8000_0000 && distance != 0
    ensures var v := DistanceSpeed(gear);
            var ms := SafeMsToUint16(DistanceToMs(distance, v));
            && ms > 0 && v * ms <= AbsInt(distance) * 10_000
            && (if DistanceCapped(distance, gear) then ms == 65535 else AbsInt(distance) * 10_000 < v * ms + v)
  {
    var v := DistanceSpeed(gear);
    DivisionShrinks(AbsInt(distance) * 10_000, v);
    var full := AbsInt(distance) * 10_000 / v;
    if DistanceCapped(distance, gear) {
      assert v * full > 65535 * v;
    }
  }

  lemma MoveTime(distance: Int32, gear: SpeedGear)
    requires !gear.OTHER_GEAR? && distance > -0x8000_0000 && distance != 0
    ensures var ms := SafeMsToUint16(DistanceToMs(distance, DistanceSpeed(gear)));
            var speed := GetFinalSpeed(distance < 0, DistanceSpeed(gear));
            && ms > 0
            && Approaches((ms * speed) as real, distance as real * 10_000.0, DistanceSpeed(gear) as real,
                          DistanceCapped(distance, gear))
  {
    MillisFor(distance, gear);
    var v := DistanceSpeed(gear);
    var ms := SafeMsToUint16(DistanceToMs(distance, v));
    ApproachInWholeNumbers(distance, v, ms, DistanceCapped(distance, gear));
  }

  lemma ApproachInWholeNumbers(distance: Int32, v: int, ms: nat, capped: bool)
    requires v >= 0 && v * ms <= AbsInt(distance) * 10_000
    requires if capped then ms == 65535 else AbsInt(distance) * 10_000 < v * ms + v
    ensures Approaches((ms * if distance < 0 then -v else v) as real, distance as real * 10_000.0, v as real, capped)
  {
    assert ms * -v == -(v * ms) && ms * v == v * ms;
    assert (v * ms) as real <= AbsInt(distance) as real * 10_000.0;
  }

  lemma TurnTime(angle: real)
    requires CastFits(angle)
    ensures var ms := SafeMsToUint16(AngleToMs(angle));
            var speed := if angle < 0.0 then -ANGLE_SPEED_DEFAULT else ANGLE_SPEED_DEFAULT;
            Approaches(ms as real * speed, angle * 1000.0, ANGLE_SPEED_DEFAULT, AngleCapped(angle))
  {
    var x := AbsReal(angle) * 1000.0 / ANGLE_SPEED_DEFAULT;
    assert x * ANGLE_SPEED_DEFAULT == AbsReal(angle) * 1000.0;
    assert x.Floor as real <= x < x.Floor as real + 1.0;
  }

  lemma QuotientTimesTime(angle: real, moveTime: Millis)
    requires angle != 0.0 && moveTime > 0
    ensures moveTime as real * (angle / (moveTime as real / 1000.0)) == angle * 1000.0
  {
    var t := moveTime as real / 1000.0;
    assert t * (angle / t) == angle;
    assert moveTime as real == 1000.0 * t;
    assert 1000.0 * t * (angle / t) == 1000.0 * angle;
  }

  lemma One(s: Segment)
    ensures Travelled([s]) == s.duration * s.forwardSpeed
    ensures s.turningSpeed.Finite? ==> AllFinite([s]) && Turned([s]) == s.duration as real * s.turningSpeed.value
  {
  }

  lemma Two(s: Segment, t: Segment)
    ensures Travelled([s, t]) == s.duration * s.forwardSpeed + t.duration * t.forwardSpeed
    ensures s.turningSpeed.Finite? && t.turningSpeed.Finite? ==>
              && AllFinite([s, t])
              && Turned([s, t]) == s.duration as real * s.turningSpeed.value + t.duration as real * t.turningSpeed.value
  {
    assert [s, t][1..] == [t];
    One(t);
  }

  function TurnSegment(angle: real): Segment
    requires CastFits(angle)
  {
    var speed := if angle < 0.0 then -ANGLE_SPEED_DEFAULT else ANGLE_SPEED_DEFAULT;
    Segment(SafeMsToUint16(AngleToMs(angle)), 0, Finite(speed))
  }

  function MoveSegment(distance: Int32, gear: SpeedGear, turningSpeed: TurningSpeed): Segment
    requires distance > -0x8000_0000
  {
    var speed := DistanceSpeed(gear);
    Segment(SafeMsToUint16(DistanceToMs(distance, speed)), GetFinalSpeed(distance < 0, speed), turningSpeed)
  }

  ghost predicate TurnsRight(angle: real, turned: real) {
    Approaches(turned, angle * 1000.0, 50.0, AngleCapped(angle))
  }

  /** A segment moves at the speed of the gear, 20, 50 or 80, or stands. */
  ghost predicate InGear(gear: SpeedGear, segments: seq<Segment>) {
    forall s <- segments | s.forwardSpeed != 0 ::
      match gear
      case LOW_SPEED => AbsInt(s.forwardSpeed) == 20
      case MIDDLE_SPEED => AbsInt(s.forwardSpeed) == 50
      case HIGH_SPEED => AbsInt(s.forwardSpeed) == 80
      case OTHER_GEAR(_) => false
  }

  /** A turn by itself is made at 50 degrees a second. */
  ghost predicate TurnsAtFifty(segments: seq<Segment>) {
    forall s <- segments | s.forwardSpeed == 0 :: s.turningSpeed in {STANDING, Finite(50.0), Finite(-50.0)}
  }

  ghost predicate MovesRight(distance: Int32, gear: SpeedGear, travelled: int) {
    Approaches(travelled as real, distance as real * 10_000.0, DistanceSpeed(gear) as real,
               DistanceCapped(distance, gear))
  }

  lemma TurnAlone(angle: real)
    requires CastFits(angle)
    ensures var s := [TurnSegment(angle)];
            AllFinite(s) && Travelled(s) == 0 && TurnsRight(angle, Turned(s)) && TurnsThenMoves(s)
  {
    TurnTime(angle);
    One(TurnSegment(angle));
  }

  lemma MoveAlone(distance: Int32, gear: SpeedGear)
    requires distance > -0x8000_0000 && distance != 0
    ensures var s := [MoveSegment(distance, gear, STANDING)];
            && AllFinite(s) && Turned(s) == 0.0 && TurnsThenMoves(s)
            && (if gear.OTHER_GEAR? then Travelled(s) == 0 else MovesRight(distance, gear, Travelled(s)))
  {
    One(MoveSegment(distance, gear, STANDING));
    if !gear.OTHER_GEAR? {
      MoveTime(distance, gear);
    }
  }

  lemma TurnAndMove(angle: real, move: Segment)
    requires CastFits(angle) && move.turningSpeed == STANDING
    ensures var s := [TurnSegment(angle), move];
            && AllFinite(s) && TurnsThenMoves(s)
            && Travelled(s) == Travelled([move]) && TurnsRight(angle, Turned(s))
  {
    TurnAlone(angle);
    One(TurnSegment(angle));
    One(move);
    Two(TurnSegment(angle), move);
  }

  lemma MoveWhileTurning(angle: real, moveTime: Millis, forwardSpeed: Int16)
    requires angle != 0.0
    ensures var s := [Segment(moveTime, forwardSpeed, Quotient(angle, moveTime))];
            && (AllFinite(s) <==> moveTime > 0) && (moveTime > 0 ==> Turned(s) == angle * 1000.0)
            && Travelled(s) == moveTime * forwardSpeed
  {
    var s := Segment(moveTime, forwardSpeed, Quotient(angle, moveTime));
    One(s);
    if moveTime > 0 {
      QuotientTimesTime(angle, moveTime);
    } else {
      assert s in [s];
    }
  }

  /** The segments of a move request. A gear outside the table gives a time of zero. */
  function Segments(p: MoveParams): seq<Segment>
    requires p.distance > -0x8000_0000 && CastFits(p.angle)
  {
    var turn := if p.angle == 0.0 then [] else [TurnSegment(p.angle)];
    if p.distance == 0 then turn
    else
      var move := MoveSegment(p.distance, p.speedGear, STANDING);
      if p.mode == TURN_THEN_MOVE then turn + [move]
      else if p.angle == 0.0 then [move]
      else [move.(turningSpeed := Quotient(p.angle, move.duration))]
  }

  lemma MoveIsRealised(p: MoveParams)
    requires p.distance > -0x8000_0000 && CastFits(p.angle) && !p.speedGear.OTHER_GEAR?
    ensures Realises(p, Segments(p))
    ensures Segments(p) == [] <==> p.distance == 0 && p.angle == 0.0
  {
    if p.distance == 0 {
      if p.angle != 0.0 {
        TurnAlone(p.angle);
      }
    } else {
      var move := MoveSegment(p.distance, p.speedGear, STANDING);
      MoveAlone(p.distance, p.speedGear);
      if p.angle != 0.0 {
        if p.mode == TURN_THEN_MOVE {
          TurnAndMove(p.angle, move);
          assert Segments(p) == [TurnSegment(p.angle), move];
        } else {
          One(move);
          MoveTime(p.distance, p.speedGear);
          MoveWhileTurning(p.angle, move.duration, move.forwardSpeed);
        }
      }
    }
  }

  /** And it does so at the speeds there are. */
  lemma MoveKeepsToSpeeds(p: MoveParams)
    requires p.distance > -0x8000_0000 && CastFits(p.angle) && !p.speedGear.OTHER_GEAR?
    ensures InGear(p.speedGear, Segments(p)) && TurnsAtFifty(Segments(p))
  {
    if p.distance != 0 {
      var move := MoveSegment(p.distance, p.speedGear, STANDING);
      assert AbsInt(move.forwardSpeed) == DistanceSpeed(p.speedGear);
    }
  }

  /** In a gear outside the table nothing moves, and a turn to be made meanwhile has an infinite speed. */
  lemma OtherGearDoesNotMove(p: MoveParams)
    requires p.distance > -0x8000_0000 && CastFits(p.angle) && p.speedGear.OTHER_GEAR?
    ensures Travelled(Segments(p)) == 0
    ensures AllFinite(Segments(p)) <==> p.mode == TURN_THEN_MOVE || p.distance == 0 || p.angle == 0.0
  {
    if p.angle != 0.0 {
      TurnAlone(p.angle);
    }
    if p.distance != 0 {
      var move := MoveSegment(p.distance, p.speedGear, STANDING);
      MoveAlone(p.distance, p.speedGear);
      if p.angle != 0.0 {
        TurnAndMove(p.angle, move);
        MoveWhileTurning(p.angle, move.duration, move.forwardSpeed);
      }
    }
  }

  method ConvertMoveParamsToRotateParams(p: MoveParams) returns (result: seq<Segment>)
    requires p.distance > -0x8000_0000 && CastFits(p.angle)
    ensures result == Segments(p)
  {
    result := [];
    var hasDistance, hasAngle := p.distance != 0, p.angle != 0.0;
    if !hasDistance && !hasAngle {
      return;
    }
    if p.mode == TURN_THEN_MOVE {
      if hasAngle {
        var angleTime := SafeMsToUint16(AngleToMs(p.angle));
        var turnSpeed := if p.angle < 0.0 then -ANGLE_SPEED_DEFAULT else ANGLE_SPEED_DEFAULT;
        result := result + [Segment(angleTime, 0, Finite(turnSpeed))];
      }
      if hasDistance {
        var speed := DistanceSpeed(p.speedGear);
        var distanceTime := SafeMsToUint16(DistanceToMs(p.distance, speed));
        var forwardSpeed := GetFinalSpeed(p.distance < 0, speed);
        result := result + [Segment(distanceTime, forwardSpeed, STANDING)];
      }
    } else if hasDistance {
      var speed := DistanceSpeed(p.speedGear);
      var moveTime := SafeMsToUint16(DistanceToMs(p.distance, speed));
      var forwardSpeed := GetFinalSpeed(p.distance < 0, speed);
      var turningSpeed := STANDING;
      if hasAngle {
        turningSpeed := Quotient(p.angle, moveTime);
      }
      result := result + [Segment(moveTime, forwardSpeed, turningSpeed)];
    } else {
      var moveTime := SafeMsToUint16(AngleToMs(p.angle));
      var turnSpeed := if p.angle < 0.0 then -ANGLE_SPEED_DEFAULT else ANGLE_SPEED_DEFAULT;
      result := result + [Segment(moveTime, 0, Finite(turnSpeed))];
    }
  }

  /** Requests by speed and duration: the base covers exactly speed times duration, and a turn made meanwhile
      comes to exactly the angle asked unless the duration is zero. */
  ghost predicate RealisesSpeed(p: SpeedParams, duration: Millis, segments: seq<Segment>) {
    && |segments| <= 2
    && Travelled(segments) == p.speed * duration
    && (forall s <- segments | s.forwardSpeed != 0 :: s.forwardSpeed == p.speed && s.duration == duration)
    && (p.mode == TURN_THEN_MOVE ==> TurnsThenMoves(segments))
    && (p.mode == TURNING_MOVING ==> |segments| <= 1)
    && (AllFinite(segments) <==> p.mode == TURN_THEN_MOVE || p.speed == 0 || p.angle == 0.0 || duration > 0)
    && (AllFinite(segments) ==>
          if p.mode == TURNING_MOVING && p.speed != 0 then Turned(segments) == p.angle * 1000.0
          else TurnsRight(p.angle, Turned(segments)))
  }

  function SpeedSegments(p: SpeedParams, duration: Millis): seq<Segment>
    requires CastFits(p.angle)
  {
    var turn := if p.angle == 0.0 then [] else [TurnSegment(p.angle)];
    if p.speed == 0 then turn
    else if p.angle == 0.0 then [Segment(duration, p.speed, STANDING)]
    else if p.mode == TURN_THEN_MOVE then turn + [Segment(duration, p.speed, STANDING)]
    else [Segment(duration, p.speed, Quotient(p.angle, duration))]
  }

  lemma SpeedIsRealised(p: SpeedParams, duration: Millis)
    requires CastFits(p.angle)
    ensures RealisesSpeed(p, duration, SpeedSegments(p, duration))
    ensures SpeedSegments(p, duration) == [] <==> p.speed == 0 && p.angle == 0.0
  {
    if p.speed == 0 {
      if p.angle != 0.0 {
        TurnAlone(p.angle);
      }
    } else {
      var move := Segment(duration, p.speed, STANDING);
      One(move);
      if p.angle != 0.0 {
        if p.mode == TURN_THEN_MOVE {
          TurnAndMove(p.angle, move);
          assert SpeedSegments(p, duration) == [TurnSegment(p.angle), move];
        } else {
          MoveWhileTurning(p.angle, duration, p.speed);
        }
      }
    }
  }

  method ConvertSpeedParamsToRotateParams(p: SpeedParams, moveDurationMs: Millis) returns (result: seq<Segment>)
    requires CastFits(p.angle)
    ensures result == SpeedSegments(p, moveDurationMs)
  {
    result := [];
    var hasSpeed, hasAngle := p.speed != 0, p.angle != 0.0;
    if !hasSpeed && !hasAngle {
      return;
    }
    if !hasSpeed {
      var turnTime := SafeMsToUint16(AngleToMs(p.angle));
      var turnSpeed := if p.angle < 0.0 then -ANGLE_SPEED_DEFAULT else ANGLE_SPEED_DEFAULT;
      result := result + [Segment(turnTime, 0, Finite(turnSpeed))];
    } else if !hasAngle {
      var moveTime := SafeMsToUint16(moveDurationMs);
      result := result + [Segment(moveTime, p.speed, STANDING)];
    } else {
      var turnTime := SafeMsToUint16(AngleToMs(p.angle));
      var moveTime := SafeMsToUint16(moveDurationMs);
      if p.mode == TURN_THEN_MOVE {
        var turnSpeed := if p.angle < 0.0 then -ANGLE_SPEED_DEFAULT else ANGLE_SPEED_DEFAULT;
        result := result + [Segment(turnTime, 0, Finite(turnSpeed))];
        result := result + [Segment(moveTime, p.speed, STANDING)];
      } else {
        var turningSpeed := Quotient(p.angle, moveTime);
        result := result + [Segment(moveTime, p.speed, turningSpeed)];
      }
    }
  }
}
