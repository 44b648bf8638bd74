/** The arithmetic of `scrollToSection` in src/hooks/useSmoothScroll.js: where
    the page scrolls to, how long it takes, and where every animation frame
    puts it. Positions and times are exact reals; the browser (the element
    lookup, its bounding box, `pageYOffset`, frame timestamps) supplies them. */
module SmoothScroll {
  import opened Wrappers

  /** Room left above the section for the fixed navigation bar. */
  const NavOffset: real := 80.0

  /** The longest animation, in milliseconds. */
  const MaxDuration: real := 1500.0

  function Abs(x: real): real {
    if x < 0.0 then -x else x
  }

  function Min(a: real, b: real): real {
    if a <= b then a else b
  }

  /** One animation: where it starts, how far it goes and for how long. */
  datatype Plan = Plan(start: real, distance: real, duration: real) {
    function Target(): real { start + distance }
  }

  /** `Math.min(Math.abs(distance) * 0.5, 1500)`: half a millisecond per pixel,
      capped at a second and a half. */
  function Duration(distance: real): (d: real)
    ensures 0.0 <= d <= MaxDuration
    ensures d == 0.0 <==> distance == 0.0
    ensures d <= Abs(distance) / 2.0
    ensures d < MaxDuration ==> d == Abs(distance) / 2.0
  {
    Min(Abs(distance) * 0.5, MaxDuration)
  }

  /** 200 ms for 400 pixels either way, a second for 2000, and the cap from
      3000 pixels on. */
  lemma DurationExamples()
    ensures Duration(400.0) == 200.0 && Duration(-400.0) == 200.0
    ensures Duration(2000.0) == 1000.0
    ensures forall d :: Abs(d) >= 3000.0 ==> Duration(d) == MaxDuration
  {
  }

  /** A longer way never takes less time. */
  lemma DurationMonotonic(a: real, b: real)
    requires Abs(a) <= Abs(b)
    ensures Duration(a) <= Duration(b)
  {
  }

  /** `scrollToSection(id)` up to the first frame request: nothing at all when
      no element has the id (`top` is `None`), otherwise the plan from the
      current offset to 80 pixels above the element's top. */
  function PlanScroll(top: Option<real>, pageOffset: real): (r: Option<Plan>)
    ensures r.None? <==> top.None?
    ensures r.Some? ==> r.value.start == pageOffset
    ensures r.Some? ==> r.value.Target() == top.value + pageOffset - NavOffset
    ensures r.Some? ==> r.value.duration == Duration(r.value.distance)
    ensures r.Some? ==> 0.0 <= r.value.duration <= MaxDuration
  {
    match top
    case None => None
    case Some(t) =>
      var target := t + pageOffset - NavOffset;
      var distance := target - pageOffset;
      Some(Plan(pageOffset, distance, Duration(distance)))
  }

  /** The distance is the element's place in the viewport less the bar: it does
      not depend on how far the page is already scrolled. */
  lemma DistanceIgnoresOffset(top: real, offset1: real, offset2: real)
    ensures PlanScroll(Some(top), offset1).value.distance == PlanScroll(Some(top), offset2).value.distance
  {
  }

  // ---------------------------------------------------------------------------
  // Easing.

  function Pow4(x: real): real {
    x * x * x * x
  }

  /** `easeOutQuart(t) = 1 - (1 - t)^4`. */
  function EaseOutQuart(t: real): real {
    1.0 - Pow4(1.0 - t)
  }

  lemma MulMono(a: real, b: real, c: real, d: real)
    requires 0.0 <= a <= b && 0.0 <= c <= d
    ensures a * c <= b * d
  {
    assert a * c <= b * c;
    assert b * c <= b * d;
  }

  lemma Pow4Mono(a: real, b: real)
    requires 0.0 <= a <= b
    ensures 0.0 <= Pow4(a) <= Pow4(b)
  {
    MulMono(a, b, a, b);
    MulMono(a * a, b * b, a, b);
    MulMono(a * a * a, b * b * b, a, b);
  }

  /** The easing starts at 0, ends at 1 and stays within them. */
  lemma EaseRange(t: real)
    requires 0.0 <= t <= 1.0
    ensures 0.0 <= EaseOutQuart(t) <= 1.0
    ensures t == 0.0 ==> EaseOutQuart(t) == 0.0
    ensures t == 1.0 ==> EaseOutQuart(t) == 1.0
  {
    Pow4Mono(1.0 - t, 1.0);
  }

  /** The easing never moves backwards. */
  lemma EaseMonotonic(s: real, t: real)
    requires 0.0 <= s <= t <= 1.0
    ensures EaseOutQuart(s) <= EaseOutQuart(t)
  {
    Pow4Mono(1.0 - t, 1.0 - s);
  }

  // ---------------------------------------------------------------------------
  // Frames.

  /** What one call of `animation` does: the position it scrolls to and whether
      it asks for another frame. */
  datatype Frame = Frame(position: real, again: bool)

  /** `Math.min(elapsed / duration, 1)`, with the empty animation counted as
      finished at once. */
  function Progress(plan: Plan, elapsed: real): (p: real)
    requires elapsed >= 0.0 && plan.duration >= 0.0
    ensures 0.0 <= p <= 1.0
    ensures p == 1.0 <==> elapsed >= plan.duration
    ensures 0.0 < plan.duration && elapsed < plan.duration ==> p == elapsed / plan.duration
  {
    if plan.duration == 0.0 then 1.0
    else
      FractionOfDuration(elapsed, plan.duration);
      Min(elapsed / plan.duration, 1.0)
  }

  /** A time is a fraction below one of a positive duration exactly when it
      comes before the end. */
  lemma FractionOfDuration(elapsed: real, duration: real)
    requires elapsed >= 0.0 && duration > 0.0
    ensures 0.0 <= elapsed / duration
    ensures elapsed / duration < 1.0 <==> elapsed < duration
  {
    var x := elapsed / duration;
    assert x * duration == elapsed;
    if x < 1.0 {
      MulBelow(x, duration);
    } else {
      MulMono(1.0, x, duration, duration);
    }
  }

  lemma MulBelow(x: real, d: real)
    requires x < 1.0 && d > 0.0
    ensures x * d < d
  {
    assert d - x * d == (1.0 - x) * d;
  }

  /** The frame drawn `elapsed` milliseconds after the first one. */
  function FrameAt(plan: Plan, elapsed: real): (f: Frame)
    requires elapsed >= 0.0 && plan.duration >= 0.0
    ensures f.again <==> elapsed < plan.duration
    ensures !f.again ==> f.position == plan.Target()
  {
    var p := Progress(plan, elapsed);
    EaseRange(p);
    Frame(plan.start + plan.distance * EaseOutQuart(p), elapsed < plan.duration)
  }

  lemma FramePosition(plan: Plan, elapsed: real)
    requires elapsed >= 0.0 && plan.duration >= 0.0
    ensures FrameAt(plan, elapsed).position == plan.start + plan.distance * EaseOutQuart(Progress(plan, elapsed))
  {
  }

  /** No frame overshoots: every position lies between the start and the target. */
  lemma NoOvershoot(plan: Plan, elapsed: real)
    requires elapsed >= 0.0 && plan.duration >= 0.0
    ensures Min(plan.start, plan.Target()) <= FrameAt(plan, elapsed).position
    ensures FrameAt(plan, elapsed).position <= Min(plan.start, plan.Target()) + Abs(plan.distance)
  {
    var p := Progress(plan, elapsed);
    EaseRange(p);
    ScaleWithin(plan.start, plan.distance, EaseOutQuart(p));
  }

  /** Going a fraction of the way stays between the two ends. */
  lemma ScaleWithin(start: real, d: real, e: real)
    requires 0.0 <= e <= 1.0
    ensures Min(start, start + d) <= start + d * e <= Min(start, start + d) + Abs(d)
  {
    if d >= 0.0 {
      MulMono(d, d, e, 1.0);
      MulMono(d, d, 0.0, e);
      assert 0.0 <= d * e <= d;
    } else {
      MulMono(-d, -d, e, 1.0);
      MulMono(-d, -d, 0.0, e);
      assert d <= d * e <= 0.0;
    }
  }

  lemma ProgressMonotonic(plan: Plan, e1: real, e2: real)
    requires 0.0 <= e1 <= e2 && plan.duration >= 0.0
    ensures Progress(plan, e1) <= Progress(plan, e2)
  {
    if plan.duration > 0.0 {
      DivMono(e1, e2, plan.duration);
    }
  }

  lemma DivMono(a: real, b: real, d: real)
    requires 0.0 <= a <= b && d > 0.0
    ensures a / d <= b / d
  {
    assert b / d - a / d == (b - a) / d;
  }

  /** Scaling a distance by a larger factor moves farther in its direction. */
  lemma ScaleMono(start: real, d: real, a: real, b: real)
    requires 0.0 <= a <= b
    ensures d >= 0.0 ==> start + d * a <= start + d * b
    ensures d < 0.0 ==> start + d * b <= start + d * a
  {
    assert d * b - d * a == d * (b - a);
    if d >= 0.0 {
      MulMono(0.0, d, 0.0, b - a);
    } else {
      MulMono(0.0, -d, 0.0, b - a);
    }
  }

  /** Later frames are never farther from the target than earlier ones. */
  lemma ApproachesTarget(plan: Plan, e1: real, e2: real)
    requires 0.0 <= e1 <= e2 && plan.duration >= 0.0
    ensures plan.distance >= 0.0 ==> FrameAt(plan, e1).position <= FrameAt(plan, e2).position
    ensures plan.distance < 0.0 ==> FrameAt(plan, e2).position <= FrameAt(plan, e1).position
  {
    var p1, p2 := Progress(plan, e1), Progress(plan, e2);
    var a, b := EaseOutQuart(p1), EaseOutQuart(p2);
    assert 0.0 <= a <= b by {
      ProgressMonotonic(plan, e1, e2);
      EaseMonotonic(p1, p2);
      EaseRange(p1);
    }
    FramePosition(plan, e1);
    FramePosition(plan, e2);
    ScaleMono(plan.start, plan.distance, a, b);
  }

  /** The frames drawn for the given timestamps, timed from `t0`: one position
      per frame, up to and including the first frame that does not ask for
      another. */
  function Positions(plan: Plan, t0: real, stamps: seq<real>): (ps: seq<real>)
    requires plan.duration >= 0.0
    requires forall i :: 0 <= i < |stamps| ==> t0 <= stamps[i]
    ensures |ps| <= |stamps|
    decreases |stamps|
  {
    if stamps == [] then []
    else
      var f := FrameAt(plan, stamps[0] - t0);
      [f.position] + (if f.again then Positions(plan, t0, stamps[1..]) else [])
  }

  /** One animation: the first frame sets `start` to its own timestamp, so
      every time counts from the first timestamp. */
  function Animate(plan: Plan, stamps: seq<real>): (ps: seq<real>)
    requires plan.duration >= 0.0
    requires forall i :: 0 <= i < |stamps| ==> stamps[0] <= stamps[i]
    ensures |ps| <= |stamps|
    ensures stamps != [] ==> ps != [] && ps[0] == (if plan.duration > 0.0 then plan.start else plan.Target())
  {
    if stamps == [] then []
    else
      PositionsCons(plan, stamps[0], stamps);
      FirstFrame(plan);
      Positions(plan, stamps[0], stamps)
  }

  /** Once a frame comes at least the duration after the first one, the
      animation has stopped, exactly on the target. */
  lemma AnimateLands(plan: Plan, stamps: seq<real>, k: nat)
    requires plan.duration >= 0.0
    requires forall i :: 0 <= i < |stamps| ==> stamps[0] <= stamps[i]
    requires k < |stamps| && stamps[k] - stamps[0] >= plan.duration
    ensures 0 < |Animate(plan, stamps)| <= k + 1
    ensures Animate(plan, stamps)[|Animate(plan, stamps)| - 1] == plan.Target()
  {
    LandsOnTarget(plan, stamps[0], stamps, k);
  }

  /** The first frame, at no time elapsed, is drawn at the start, or at the
      target straight away when there is nothing to animate. */
  lemma FirstFrame(plan: Plan)
    requires plan.duration >= 0.0
    ensures FrameAt(plan, 0.0).position == if plan.duration > 0.0 then plan.start else plan.Target()
  {
    if plan.duration > 0.0 {
      assert Progress(plan, 0.0) == 0.0;
      assert EaseOutQuart(0.0) == 0.0;
      FramePosition(plan, 0.0);
    }
  }

  /** Each drawn position is the frame for its timestamp, every frame but the
      last asked for another, and when frames are left over the last one drawn
      asked for none. */
  lemma {:induction false} PositionsAreFrames(plan: Plan, t0: real, stamps: seq<real>)
    requires plan.duration >= 0.0
    requires forall i :: 0 <= i < |stamps| ==> t0 <= stamps[i]
    ensures forall i :: 0 <= i < |Positions(plan, t0, stamps)| ==>
      Positions(plan, t0, stamps)[i] == FrameAt(plan, stamps[i] - t0).position
    ensures forall i :: 0 <= i < |Positions(plan, t0, stamps)| - 1 ==> FrameAt(plan, stamps[i] - t0).again
    ensures stamps != [] ==> Positions(plan, t0, stamps) != []
    ensures 0 < |Positions(plan, t0, stamps)| < |stamps| ==>
      !FrameAt(plan, stamps[|Positions(plan, t0, stamps)| - 1] - t0).again
  {
    forall i | 0 <= i < |Positions(plan, t0, stamps)|
      ensures Positions(plan, t0, stamps)[i] == FrameAt(plan, stamps[i] - t0).position
      ensures i < |Positions(plan, t0, stamps)| - 1 ==> FrameAt(plan, stamps[i] - t0).again
      ensures i == |Positions(plan, t0, stamps)| - 1 < |stamps| - 1 ==> !FrameAt(plan, stamps[i] - t0).again
    {
      PositionAt(plan, t0, stamps, i);
    }
    if stamps != [] {
      PositionsCons(plan, t0, stamps);
    }
  }

  /** The frame drawn at index `i`, by induction on `i`. */
  lemma {:induction false} PositionAt(plan: Plan, t0: real, stamps: seq<real>, i: nat)
    requires plan.duration >= 0.0
    requires forall j :: 0 <= j < |stamps| ==> t0 <= stamps[j]
    requires i < |Positions(plan, t0, stamps)|
    ensures Positions(plan, t0, stamps)[i] == FrameAt(plan, stamps[i] - t0).position
    ensures i < |Positions(plan, t0, stamps)| - 1 ==> FrameAt(plan, stamps[i] - t0).again
    ensures i == |Positions(plan, t0, stamps)| - 1 < |stamps| - 1 ==> !FrameAt(plan, stamps[i] - t0).again
    decreases i
  {
    PositionsCons(plan, t0, stamps);
    if i > 0 {
      var rest := stamps[1..];
      PositionAt(plan, t0, rest, i - 1);
      assert rest[i - 1] == stamps[i];
    }
  }

  /** One frame, then the frames of the remaining timestamps if it asked for
      another. */
  lemma {:induction false} PositionsCons(plan: Plan, t0: real, stamps: seq<real>)
    requires plan.duration >= 0.0
    requires forall j :: 0 <= j < |stamps| ==> t0 <= stamps[j]
    requires stamps != []
    ensures forall j :: 0 <= j < |stamps[1..]| ==> t0 <= stamps[1..][j]
    ensures Positions(plan, t0, stamps) == [FrameAt(plan, stamps[0] - t0).position] +
      (if FrameAt(plan, stamps[0] - t0).again then Positions(plan, t0, stamps[1..]) else [])
    ensures FrameAt(plan, stamps[0] - t0).again ==> |Positions(plan, t0, stamps[1..])| + 1 == |Positions(plan, t0, stamps)|
  {
    assert forall j :: 0 <= j < |stamps[1..]| ==> stamps[1..][j] == stamps[j + 1];
  }

  /** Given a frame late enough, the animation stops, and it stops exactly on
      the target. */
  lemma {:induction false} LandsOnTarget(plan: Plan, t0: real, stamps: seq<real>, k: nat)
    requires plan.duration >= 0.0
    requires forall i :: 0 <= i < |stamps| ==> t0 <= stamps[i]
    requires k < |stamps| && stamps[k] - t0 >= plan.duration
    ensures var ps := Positions(plan, t0, stamps);
      0 < |ps| <= k + 1 && ps[|ps| - 1] == plan.Target()
    decreases |stamps|
  {
    var f := FrameAt(plan, stamps[0] - t0);
    if f.again {
      assert k > 0;
      var rest := stamps[1..];
      assert forall i :: 0 <= i < |rest| ==> t0 <= rest[i] by {
        forall i | 0 <= i < |rest| ensures t0 <= rest[i] {
          assert rest[i] == stamps[i + 1];
        }
      }
      assert rest[k - 1] == stamps[k];
      LandsOnTarget(plan, t0, rest, k - 1);
    }
  }

  // ---------------------------------------------------------------------------
  // The frame as the source computes it, with the division it performs.

  /** A written coordinate: a number, or NaN. */
  datatype Written = Finite(y: real) | NaN

  /** The frame position exactly as the source computes it. With a zero
      duration the division `elapsed / duration` is 0/0 on the first frame,
      which is NaN, and NaN then flows through `Math.min`, the easing and the
      position; a later frame would divide a positive number by zero, which
      is Infinity and clamps to 1. */
  function PositionAsWritten(plan: Plan, elapsed: real): (w: Written)
    requires elapsed >= 0.0 && plan.duration >= 0.0
  {
    if plan.duration == 0.0 then
      if elapsed == 0.0 then NaN else Finite(plan.start + plan.distance * EaseOutQuart(1.0))
    else
      Finite(plan.start + plan.distance * EaseOutQuart(Min(elapsed / plan.duration, 1.0)))
  }

  /** Away from the empty animation the source computes exactly `FrameAt`. */
  lemma AsWrittenAgrees(plan: Plan, elapsed: real)
    requires elapsed >= 0.0 && plan.duration >= 0.0
    requires plan.duration > 0.0 || elapsed > 0.0
    ensures PositionAsWritten(plan, elapsed) == Finite(FrameAt(plan, elapsed).position)
  {
  }

  /** When the section is already in place (the element's top is exactly 80
      pixels down), the first and only frame writes NaN instead of staying
      put, while `FrameAt` writes the current offset. */
  lemma ZeroDistanceWritesNaN(top: real, pageOffset: real)
    requires top == NavOffset
    ensures var plan := PlanScroll(Some(top), pageOffset).value;
      && plan.duration == 0.0
      && PositionAsWritten(plan, 0.0) == NaN
      && FrameAt(plan, 0.0) == Frame(pageOffset, false)
  {
    var plan := PlanScroll(Some(top), pageOffset).value;
    EaseRange(1.0);
  }
}
