/** The offset of the tracked target in the picture: the stick moves a target offset, and every frame moves
    the offset in use a step towards it. Offsets are exact reals. */
module OffsetSlew {
  const TRACKING_LOST_CHECK := 0.0001
  const OFFSET_VALUE_BASE := 0.02
  const OFFSET_VALUE_BASE_1 := 0.01
  const OFFSET_VALUE_MAX := 0.3
  const OFFSET_VALUE_MIN := -0.3
  const OFFSET_VALUE := 0.2
  const MIDDLE_VALUE_HORIZONTAL := 0.5
  const MIDDLE_MAX := 0.55
  const MIDDLE_MIN := 0.45
  const STICK_BASE := 300

  type Int16 = n: int | -0x8000 <= n < 0x8000

  datatype CameraTrackingLayout = DEFAULT | LEFT | MIDDLE | RIGHT

  function Abs(a: real): real {
    if a < 0.0 then -a else a
  }

  /** The value of [low, high] closest to `a`. */
  function Clamp(a: real, low: real, high: real): real {
    if a > high then high else if a < low then low else a
  }

  datatype Axis = Axis(current: real, target: real)
  datatype State = State(horizontal: Axis, vertical: Axis)
  datatype Step = Frame | Stick(x: Int16, y: Int16) | Layout(layout: CameraTrackingLayout) | Reset | UnInit

  const CENTRED := Axis(0.0, 0.0)
  const START := State(CENTRED, CENTRED)

  function Slew(a: Axis): Axis {
    if Abs(a.target - a.current) <= TRACKING_LOST_CHECK then a
    else if a.target > a.current then a.(current := a.current + OFFSET_VALUE_BASE_1)
    else a.(current := a.current - OFFSET_VALUE_BASE_1)
  }

  function Nudge(a: Axis, stick: Int16): Axis {
    var moved := if stick > STICK_BASE then a.target + OFFSET_VALUE_BASE
                 else if stick < -STICK_BASE then a.target - OFFSET_VALUE_BASE
                 else a.target;
    a.(target := Clamp(moved, OFFSET_VALUE_MIN, OFFSET_VALUE_MAX))
  }

  function LayoutOffset(layout: CameraTrackingLayout): real {
    match layout
    case RIGHT => OFFSET_VALUE
    case LEFT => -OFFSET_VALUE
    case _ => 0.0
  }

  function Apply(s: State, step: Step): State {
    match step
    case Frame => State(Slew(s.horizontal), Slew(s.vertical))
    case Stick(x, y) => State(Nudge(s.horizontal, x), Nudge(s.vertical, y))
    case Layout(l) => State(Axis(LayoutOffset(l), LayoutOffset(l)), CENTRED)
    case Reset => START
    case UnInit => State(s.horizontal.(current := 0.0), s.vertical.(current := 0.0))
  }

  function After(s: State, steps: seq<Step>): State {
    if |steps| == 0 then s else Apply(After(s, steps[..|steps| - 1]), steps[|steps| - 1])
  }

  function LayoutAt(horizontal: real): CameraTrackingLayout {
    if horizontal + MIDDLE_VALUE_HORIZONTAL > MIDDLE_MAX then RIGHT
    else if horizontal + MIDDLE_VALUE_HORIZONTAL < MIDDLE_MIN then LEFT
    else MIDDLE
  }

  // The grid ---------------------------------------------------------------------------------------------

  function Hundredths(n: int): real {
    n as real * 0.01
  }

  /** The current offset is a whole number of hundredths, the target an even one, both within 0.3. */
  ghost predicate OnGrid(a: Axis) {
    exists n, m :: -30 <= n <= 30 && -15 <= m <= 15 && a == Axis(Hundredths(n), Hundredths(2 * m))
  }

  lemma GridPoint(n: int, m: int)
    requires -30 <= n <= 30 && -15 <= m <= 15
    ensures OnGrid(Axis(Hundredths(n), Hundredths(2 * m)))
  {
  }

  lemma SlewStaysOnGrid(a: Axis)
    requires OnGrid(a)
    ensures OnGrid(Slew(a))
  {
    var n, m :| -30 <= n <= 30 && -15 <= m <= 15 && a == Axis(Hundredths(n), Hundredths(2 * m));
    if 2 * m > n {
      GridPoint(n + 1, m);
    } else if 2 * m < n {
      GridPoint(n - 1, m);
    }
  }

  lemma NudgeStaysOnGrid(a: Axis, stick: Int16)
    requires OnGrid(a)
    ensures OnGrid(Nudge(a, stick))
  {
    var n, m :| -30 <= n <= 30 && -15 <= m <= 15 && a == Axis(Hundredths(n), Hundredths(2 * m));
    if stick > STICK_BASE {
      GridPoint(n, if m == 15 then 15 else m + 1);
    } else if stick < -STICK_BASE {
      GridPoint(n, if m == -15 then -15 else m - 1);
    }
  }

  /** Whatever the stick, the layout, the frames and the resets do, both axes stay on the grid. */
  lemma {:induction false} EveryRunStaysOnGrid(steps: seq<Step>)
    ensures OnGrid(After(START, steps).horizontal) && OnGrid(After(START, steps).vertical)
  {
    if |steps| == 0 {
      GridPoint(0, 0);
    } else {
      var s := After(START, steps[..|steps| - 1]);
      EveryRunStaysOnGrid(steps[..|steps| - 1]);
      match steps[|steps| - 1]
      case Frame =>
        SlewStaysOnGrid(s.horizontal);
        SlewStaysOnGrid(s.vertical);
      case Stick(x, y) =>
        NudgeStaysOnGrid(s.horizontal, x);
        NudgeStaysOnGrid(s.vertical, y);
      case Layout(l) =>
        GridPoint(0, 0);
        GridPoint(20, 10);
        GridPoint(-20, -10);
        assert LayoutOffset(l) in {Hundredths(20), Hundredths(-20), Hundredths(0)};
      case Reset =>
        GridPoint(0, 0);
      case UnInit =>
        UnInitStaysOnGrid(s.horizontal);
        UnInitStaysOnGrid(s.vertical);
    }
  }

  lemma UnInitStaysOnGrid(a: Axis)
    requires OnGrid(a)
    ensures OnGrid(a.(current := 0.0))
  {
    var n, m :| -30 <= n <= 30 && -15 <= m <= 15 && a == Axis(Hundredths(n), Hundredths(2 * m));
    GridPoint(0, m);
  }

  // Slewing ----------------------------------------------------------------------------------------------

  function Frames(a: Axis, k: nat): Axis {
    if k == 0 then a else Slew(Frames(a, k - 1))
  }

  /** After `k` frames the offset has moved towards its target by 0.01 a frame, no further than the target:
      no overshoot, no change of direction, and no rest before it is reached. */
  lemma {:induction false} SlewInClosedForm(a: Axis, k: nat)
    requires OnGrid(a)
    ensures OnGrid(Frames(a, k)) && Frames(a, k).target == a.target
    ensures Frames(a, k).current == a.current + Clamp(a.target - a.current, -Hundredths(k), Hundredths(k))
  {
    if k > 0 {
      SlewInClosedForm(a, k - 1);
      SlewStaysOnGrid(Frames(a, k - 1));
      ClampGrows(a, k);
    }
  }

  lemma ClampGrows(a: Axis, k: nat)
    requires OnGrid(a) && k > 0
    ensures var moved := Axis(a.current + Clamp(a.target - a.current, -Hundredths(k - 1), Hundredths(k - 1)), a.target);
            Slew(moved).current == a.current + Clamp(a.target - a.current, -Hundredths(k), Hundredths(k))
  {
    var n, m :| -30 <= n <= 30 && -15 <= m <= 15 && a == Axis(Hundredths(n), Hundredths(2 * m));
    assert a.target - a.current == Hundredths(2 * m - n);
    assert Hundredths(k) == Hundredths(k - 1) + OFFSET_VALUE_BASE_1;
    var d := 2 * m - n;
    if d >= k {
      assert Hundredths(d) >= Hundredths(k);
    } else if d + k <= 0 {
      assert Hundredths(d) <= -Hundredths(k);
    } else {
      assert Hundredths(d) <= Hundredths(k - 1) && Hundredths(d) >= -Hundredths(k - 1);
    }
  }

  /** The offset is at its target after as many frames as there are hundredths between them, at most sixty,
      not earlier, and stays there. */
  lemma TargetIsReached(a: Axis, k: nat)
    requires OnGrid(a)
    ensures Frames(a, k).current == a.target <==> k as real >= 100.0 * Abs(a.target - a.current)
    ensures 100.0 * Abs(a.target - a.current) <= 60.0
  {
    SlewInClosedForm(a, k);
    var n, m :| -30 <= n <= 30 && -15 <= m <= 15 && a == Axis(Hundredths(n), Hundredths(2 * m));
    assert 100.0 * Hundredths(k) == k as real;
  }

  lemma {:induction false} FramesOnly(s: State, k: nat)
    ensures After(s, seq(k, _ => Frame)) == State(Frames(s.horizontal, k), Frames(s.vertical, k))
  {
    if k > 0 {
      FramesOnly(s, k - 1);
      assert seq(k, _ => Frame)[..k - 1] == seq(k - 1, _ => Frame);
    }
  }

  /** In every run, sixty undisturbed frames bring both offsets to their targets. */
  lemma SixtyFramesSettle(steps: seq<Step>, k: nat)
    requires k >= 60
    ensures var s, t := After(START, steps), After(After(START, steps), seq(k, _ => Frame));
            && t.horizontal == Axis(s.horizontal.target, s.horizontal.target)
            && t.vertical == Axis(s.vertical.target, s.vertical.target)
  {
    var s := After(START, steps);
    EveryRunStaysOnGrid(steps);
    FramesOnly(s, k);
    SlewInClosedForm(s.horizontal, k);
    SlewInClosedForm(s.vertical, k);
    TargetIsReached(s.horizontal, k);
    TargetIsReached(s.vertical, k);
  }

  /** Where `n` pushes of the stick in one direction move a target in range: 0.02 a push, at most to 0.3; right
      and up raise it, left and down lower it, and a stick within 300 of its rest does nothing. */
  function Pushed(target: real, stick: Int16, n: nat): real {
    if stick > 300 then (if target + 0.02 * n as real < 0.3 then target + 0.02 * n as real else 0.3)
    else if stick < -300 then (if target - 0.02 * n as real > -0.3 then target - 0.02 * n as real else -0.3)
    else target
  }

  lemma {:induction false} PushesAdd(s: State, x: Int16, y: Int16, n: nat)
    requires -0.3 <= s.horizontal.target <= 0.3 && -0.3 <= s.vertical.target <= 0.3
    ensures After(s, seq(n, _ => Stick(x, y))) ==
            State(s.horizontal.(target := Pushed(s.horizontal.target, x, n)),
                  s.vertical.(target := Pushed(s.vertical.target, y, n)))
  {
    if n > 0 {
      PushesAdd(s, x, y, n - 1);
      assert seq(n, _ => Stick(x, y))[..n - 1] == seq(n - 1, _ => Stick(x, y));
    }
  }

  lemma GridIsInRange(a: Axis)
    requires OnGrid(a)
    ensures -0.3 <= a.current <= 0.3 && -0.3 <= a.target <= 0.3
  {
  }

  lemma {:induction false} AfterSticks(steps: seq<Step>, x: Int16, y: Int16, n: nat)
    ensures After(START, steps + seq(n, _ => Stick(x, y))) == After(After(START, steps), seq(n, _ => Stick(x, y)))
  {
    var more := steps + seq(n, _ => Stick(x, y));
    if n == 0 {
      assert more == steps;
    } else {
      AfterSticks(steps, x, y, n - 1);
      assert seq(n, _ => Stick(x, y))[..n - 1] == seq(n - 1, _ => Stick(x, y));
      assert more[..|more| - 1] == steps + seq(n - 1, _ => Stick(x, y));
    }
  }

  /** In every run, `n` pushes of the stick and then sixty frames leave both offsets where the pushes say. */
  lemma PushesMoveTheOffset(steps: seq<Step>, x: Int16, y: Int16, n: nat, k: nat)
    requires k >= 60
    ensures var s := After(START, steps);
            var t := After(After(START, steps + seq(n, _ => Stick(x, y))), seq(k, _ => Frame));
            && t.horizontal.current == Pushed(s.horizontal.target, x, n)
            && t.vertical.current == Pushed(s.vertical.target, y, n)
  {
    EveryRunStaysOnGrid(steps);
    GridIsInRange(After(START, steps).horizontal);
    GridIsInRange(After(START, steps).vertical);
    PushesAdd(After(START, steps), x, y, n);
    AfterSticks(steps, x, y, n);
    SixtyFramesSettle(steps + seq(n, _ => Stick(x, y)), k);
  }

  /** The grid is what makes this work: an axis off the grid swings about its target for ever. */
  lemma {:induction false} OffTheGridItNeverSettles(a: Axis, k: nat)
    requires TRACKING_LOST_CHECK < a.target - a.current < OFFSET_VALUE_BASE_1 - TRACKING_LOST_CHECK
    ensures Frames(a, k) == if k % 2 == 0 then a else a.(current := a.current + OFFSET_VALUE_BASE_1)
  {
    if k > 0 {
      OffTheGridItNeverSettles(a, k - 1);
    }
  }

  /** A layout that was set is the layout that is read back, however many frames follow. */
  lemma LayoutStays(steps: seq<Step>, layout: CameraTrackingLayout, k: nat)
    ensures LayoutAt(After(Apply(After(START, steps), Layout(layout)), seq(k, _ => Frame)).horizontal.current) ==
            if layout == DEFAULT then MIDDLE else layout
  {
    var s := Apply(After(START, steps), Layout(layout));
    FramesOnly(s, k);
    AtTargetStays(s.horizontal, k);
  }

  lemma {:induction false} AtTargetStays(a: Axis, k: nat)
    requires a.current == a.target
    ensures Frames(a, k) == a
  {
    if k > 0 {
      AtTargetStays(a, k - 1);
    }
  }

  /** One hundredth of the way up or down, unless the target is there. */
  function Stepped(from: real, target: real): real {
    if target - from > 0.0001 then from + 0.01 else if from - target > 0.0001 then from - 0.01 else from
  }

  class McCameraTrackingController {
    var vertical: real
    var horizontal: real
    var targetVertical: real
    var targetHorizontal: real

    ghost function View(): State
      reads this
    {
      State(Axis(horizontal, targetHorizontal), Axis(vertical, targetVertical))
    }

    constructor ()
      ensures View() == START
    {
      vertical, horizontal, targetVertical, targetHorizontal := 0.0, 0.0, 0.0, 0.0;
    }

    method SetStickOffset(stickX: Int16, stickY: Int16)
      modifies this
      ensures View() == Apply(old(View()), Stick(stickX, stickY))
      ensures horizontal == old(horizontal) && vertical == old(vertical)
      ensures -0.3 <= targetHorizontal <= 0.3 && -0.3 <= targetVertical <= 0.3
      ensures -0.3 <= old(targetHorizontal) <= 0.3 ==> targetHorizontal == Pushed(old(targetHorizontal), stickX, 1)
      ensures -0.3 <= old(targetVertical) <= 0.3 ==> targetVertical == Pushed(old(targetVertical), stickY, 1)
    {
      if stickX > STICK_BASE {
        targetHorizontal := targetHorizontal + OFFSET_VALUE_BASE;
      }
      if stickX < -STICK_BASE {
        targetHorizontal := targetHorizontal - OFFSET_VALUE_BASE;
      }
      if stickY > STICK_BASE {
        targetVertical := targetVertical + OFFSET_VALUE_BASE;
      }
      if stickY < -STICK_BASE {
        targetVertical := targetVertical - OFFSET_VALUE_BASE;
      }
      targetHorizontal := if targetHorizontal > OFFSET_VALUE_MAX then OFFSET_VALUE_MAX else targetHorizontal;
      targetHorizontal := if targetHorizontal < OFFSET_VALUE_MIN then OFFSET_VALUE_MIN else targetHorizontal;
      targetVertical := if targetVertical > OFFSET_VALUE_MAX then OFFSET_VALUE_MAX else targetVertical;
      targetVertical := if targetVertical < OFFSET_VALUE_MIN then OFFSET_VALUE_MIN else targetVertical;
    }

    /** The slewing at the head of a frame's adjustment. */
    method AdjustOffset()
      modifies this
      ensures View() == Apply(old(View()), Frame)
      ensures targetHorizontal == old(targetHorizontal) && targetVertical == old(targetVertical)
      ensures horizontal == Stepped(old(horizontal), targetHorizontal)
      ensures vertical == Stepped(old(vertical), targetVertical)
    {
      if Abs(targetVertical - vertical) > TRACKING_LOST_CHECK {
        if targetVertical > vertical {
          vertical := vertical + OFFSET_VALUE_BASE_1;
        } else if targetVertical < vertical {
          vertical := vertical - OFFSET_VALUE_BASE_1;
        }
      }
      if Abs(targetHorizontal - horizontal) > TRACKING_LOST_CHECK {
        if targetHorizontal > horizontal {
          horizontal := horizontal + OFFSET_VALUE_BASE_1;
        } else if targetHorizontal < horizontal {
          horizontal := horizontal - OFFSET_VALUE_BASE_1;
        }
      }
    }

    method SetTrackingLayout(layout: CameraTrackingLayout)
      modifies this
      ensures View() == Apply(old(View()), Layout(layout))
      ensures horizontal == targetHorizontal == (if layout == RIGHT then 0.2 else if layout == LEFT then -0.2 else 0.0)
      ensures vertical == targetVertical == 0.0
    {
      horizontal := if layout == RIGHT then OFFSET_VALUE else if layout == LEFT then -OFFSET_VALUE else 0.0;
      targetHorizontal := horizontal;
      targetVertical := 0.0;
      vertical := 0.0;
    }

    method GetTrackingLayout() returns (layout: CameraTrackingLayout)
      ensures layout == LayoutAt(View().horizontal.current)
      ensures layout == RIGHT <==> horizontal > 0.05
      ensures layout == LEFT <==> horizontal < -0.05
      ensures layout != DEFAULT
    {
      layout := if horizontal + MIDDLE_VALUE_HORIZONTAL > MIDDLE_MAX then RIGHT
                else if horizontal + MIDDLE_VALUE_HORIZONTAL < MIDDLE_MIN then LEFT
                else MIDDLE;
    }

    /** A change of camera or of the rotation of the device. */
    method ResetOffsets()
      modifies this
      ensures View() == Apply(old(View()), Reset)
      ensures horizontal == vertical == targetVertical == targetHorizontal == 0.0
    {
      horizontal, vertical, targetVertical, targetHorizontal := 0.0, 0.0, 0.0, 0.0;
    }

    /** The end of a session clears the offsets in use but not their targets. */
    method UnInitOffsets()
      modifies this
      ensures View() == Apply(old(View()), UnInit)
      ensures horizontal == vertical == 0.0
      ensures targetHorizontal == old(targetHorizontal) && targetVertical == old(targetVertical)
    {
      horizontal, vertical := 0.0, 0.0;
    }
  }
}
