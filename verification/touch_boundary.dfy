/**
  The touch handlers of `HeartbeatTouchBoundary` as a state machine: touch
  start, move (scroll classification and a one-second activity throttle),
  end/cancel, the 2 s scroll-reset timer and unmount. One boundary
  instance is modelled together with the module-level scrolling flag.
  Recording activity is reported as an output of each step.
 */
module TouchBoundary {
  import opened JsSemantics

  const TouchMoveThrottleMs: int := 1000
  const ScrollThreshold: int := 10
  const ScrollTimeoutMs: int := 2000

  /**
    The refs of one boundary plus the module-level `isGloballyScrolling`.
    `scrollReset` is the due time of the pending scroll-reset timer, if any.
   */
  datatype Boundary = Boundary(
    lastTouchMoveTime: int,
    touchStartX: int,
    touchStartY: int,
    isScrolling: bool,
    globallyScrolling: bool,
    scrollReset: Option<int>)

  const Initial: Boundary := Boundary(0, 0, 0, false, false, None)

  /** A step's new state and whether it called `recordActivity`. */
  datatype Outcome = Outcome(boundary: Boundary, recordedActivity: bool)

  function Abs(x: int): (r: nat)
    ensures r == x || r == -x
  {
    if x < 0 then -x else x
  }

  /** A move is probably a scroll when it is mostly vertical and beyond the threshold, measured from the touch start. */
  predicate IsProbablyScrolling(b: Boundary, x: int, y: int) {
    var deltaY := Abs(y - b.touchStartY);
    var deltaX := Abs(x - b.touchStartX);
    deltaY > ScrollThreshold && deltaY > deltaX
  }

  /** `_onTouchStart`: remember the start point, clear both scroll flags, record activity; the reset timer is left pending. */
  function TouchStart(b: Boundary, x: int, y: int): (o: Outcome)
    ensures o.recordedActivity
    ensures o.boundary.touchStartX == x && o.boundary.touchStartY == y
    ensures !o.boundary.isScrolling && !o.boundary.globallyScrolling
    ensures o.boundary.scrollReset == b.scrollReset && o.boundary.lastTouchMoveTime == b.lastTouchMoveTime
  {
    Outcome(b.(touchStartX := x, touchStartY := y, isScrolling := false, globallyScrolling := false), true)
  }

  /**
    `_onTouchMove`: the first probable scroll of a gesture raises both flags
    and replaces any pending reset timer with one due in 2 s; separately,
    activity is recorded when a second has passed since the last recorded move.
   */
  function TouchMove(b: Boundary, x: int, y: int, now: int): (o: Outcome)
    ensures var rises := IsProbablyScrolling(b, x, y) && !b.isScrolling;
      && (o.boundary.isScrolling <==> b.isScrolling || rises)
      && o.boundary.globallyScrolling == (if rises then true else b.globallyScrolling)
      && o.boundary.scrollReset == (if rises then Some(now + ScrollTimeoutMs) else b.scrollReset)
    ensures o.recordedActivity <==> now - b.lastTouchMoveTime >= TouchMoveThrottleMs
    ensures o.boundary.lastTouchMoveTime == (if o.recordedActivity then now else b.lastTouchMoveTime)
    ensures o.boundary.touchStartX == b.touchStartX && o.boundary.touchStartY == b.touchStartY
  {
    var b1 :=
      if IsProbablyScrolling(b, x, y) && !b.isScrolling then
        b.(isScrolling := true, globallyScrolling := true, scrollReset := Some(now + ScrollTimeoutMs))
      else b;
    if now - b1.lastTouchMoveTime >= TouchMoveThrottleMs then
      Outcome(b1.(lastTouchMoveTime := now), true)
    else
      Outcome(b1, false)
  }

  /** `_onTouchEnd` (also the cancel handler): clear the timer and both flags, whatever the state. */
  function TouchEnd(b: Boundary): (o: Outcome)
    ensures !o.recordedActivity
    ensures o.boundary.scrollReset.None? && !o.boundary.isScrolling && !o.boundary.globallyScrolling
    ensures o.boundary.lastTouchMoveTime == b.lastTouchMoveTime
    ensures o.boundary.touchStartX == b.touchStartX && o.boundary.touchStartY == b.touchStartY
  {
    Outcome(b.(scrollReset := None, isScrolling := false, globallyScrolling := false), false)
  }

  /** The scroll-reset timer firing: both flags drop. Without a pending timer nothing happens. */
  function ScrollTimeoutFires(b: Boundary): (o: Outcome)
    ensures !o.recordedActivity
    ensures b.scrollReset.None? ==> o.boundary == b
    ensures b.scrollReset.Some? ==> (o.boundary.scrollReset.None? && !o.boundary.isScrolling && !o.boundary.globallyScrolling)
    ensures o.boundary.lastTouchMoveTime == b.lastTouchMoveTime
  {
    if b.scrollReset.None? then Outcome(b, false)
    else Outcome(b.(scrollReset := None, isScrolling := false, globallyScrolling := false), false)
  }

  /** The unmount cleanup clears the timer and the module flag, but leaves the instance's own flag as it is. */
  function Unmount(b: Boundary): (o: Outcome)
    ensures !o.recordedActivity
    ensures o.boundary.scrollReset.None? && !o.boundary.globallyScrolling
    ensures o.boundary.isScrolling == b.isScrolling
  {
    Outcome(b.(scrollReset := None, globallyScrolling := false), false)
  }

  /** A touch move event: page coordinates and the time it is handled. */
  datatype Move = Move(x: int, y: int, at: int)

  /** The state after a run of moves within one gesture. */
  function AfterMoves(b: Boundary, ms: seq<Move>): Boundary
    decreases |ms|
  {
    if |ms| == 0 then b
    else AfterMoves(TouchMove(b, ms[0].x, ms[0].y, ms[0].at).boundary, ms[1..])
  }

  /** How many moves of the run raised the scroll flag. */
  function Rises(b: Boundary, ms: seq<Move>): nat
    decreases |ms|
  {
    if |ms| == 0 then 0
    else
      var next := TouchMove(b, ms[0].x, ms[0].y, ms[0].at).boundary;
      (if !b.isScrolling && next.isScrolling then 1 else 0) + Rises(next, ms[1..])
  }

  /** How many moves of the run recorded activity. */
  function RecordedMoves(b: Boundary, ms: seq<Move>): nat
    decreases |ms|
  {
    if |ms| == 0 then 0
    else
      var o := TouchMove(b, ms[0].x, ms[0].y, ms[0].at);
      (if o.recordedActivity then 1 else 0) + RecordedMoves(o.boundary, ms[1..])
  }

  /** Along moves with no reset firing in between, the scroll flag rises at most once, and not at all once it is up. */
  lemma {:induction false} ScrollRisesAtMostOnce(b: Boundary, ms: seq<Move>)
    ensures Rises(b, ms) <= 1
    ensures b.isScrolling ==> Rises(b, ms) == 0
    ensures b.isScrolling ==> AfterMoves(b, ms).isScrolling
    decreases |ms|
  {
    if |ms| > 0 {
      var next := TouchMove(b, ms[0].x, ms[0].y, ms[0].at).boundary;
      ScrollRisesAtMostOnce(next, ms[1..]);
    }
  }

  /** What can happen during a drag: a move, or the pending scroll-reset timer firing. */
  datatype DragEvent = MoveEvent(move: Move) | ResetFires

  function DragStep(b: Boundary, e: DragEvent): Boundary {
    match e
    case MoveEvent(m) => TouchMove(b, m.x, m.y, m.at).boundary
    case ResetFires => ScrollTimeoutFires(b).boundary
  }

  /** How many events of a drag raised the scroll flag. */
  function DragRises(b: Boundary, es: seq<DragEvent>): nat
    decreases |es|
  {
    if |es| == 0 then 0
    else
      var next := DragStep(b, es[0]);
      (if !b.isScrolling && next.isScrolling then 1 else 0) + DragRises(next, es[1..])
  }

  /** How many times the reset timer fired during a drag. */
  function ResetFirings(es: seq<DragEvent>): nat
    decreases |es|
  {
    if |es| == 0 then 0 else (if es[0].ResetFires? then 1 else 0) + ResetFirings(es[1..])
  }

  /**
    During a drag the flag rises at most once more than the reset timer
    fires: the timer clears it and a later move can raise it again.
   */
  lemma {:induction false} DragRisesBoundedByResets(b: Boundary, es: seq<DragEvent>)
    ensures DragRises(b, es) <= (if b.isScrolling then 0 else 1) + ResetFirings(es)
    decreases |es|
  {
    if |es| > 0 {
      var next := DragStep(b, es[0]);
      DragRisesBoundedByResets(next, es[1..]);
    }
  }

  /** A drag held past the 2 s reset raises the flag twice: once at the first move, again after the timer clears it. */
  lemma LongDragRisesTwice()
    ensures var b := TouchStart(Initial, 0, 0).boundary;
      var es := [MoveEvent(Move(0, 20, 5000)), ResetFires, MoveEvent(Move(0, 40, 7500))];
      DragRises(b, es) == 2 && ResetFirings(es) == 1
  {
    var b := TouchStart(Initial, 0, 0).boundary;
    var es := [MoveEvent(Move(0, 20, 5000)), ResetFires, MoveEvent(Move(0, 40, 7500))];
    var b1 := DragStep(b, es[0]);
    var b2 := DragStep(b1, es[1]);
    assert b1.isScrolling && !b2.isScrolling;
    assert DragStep(b2, es[2]).isScrolling;
    assert es[1..][1..] == [es[2]];
  }

  /**
    The throttle: every recorded move is at least a second after the
    previously recorded one, so k recorded moves push the last recorded
    time k seconds past where it started.
   */
  lemma {:induction false} MoveThrottle(b: Boundary, ms: seq<Move>)
    ensures AfterMoves(b, ms).lastTouchMoveTime >= b.lastTouchMoveTime + TouchMoveThrottleMs * RecordedMoves(b, ms)
    decreases |ms|
  {
    if |ms| > 0 {
      var next := TouchMove(b, ms[0].x, ms[0].y, ms[0].at).boundary;
      MoveThrottle(next, ms[1..]);
    }
  }

  /** The exported `isCurrentlyScrolling`, as written: a copy of the flag's value when the module loaded. */
  const IsCurrentlyScrollingAsWritten: bool := false

  /** The module flag raised by a vertical drag while the exported constant still reads false. */
  lemma ExportedFlagGoesStale()
    ensures var b := TouchMove(TouchStart(Initial, 0, 0).boundary, 0, 20, 5000).boundary;
      b.globallyScrolling && !IsCurrentlyScrollingAsWritten
  {
  }

  /** The evidently intended export: a getter that reads the live module flag. */
  function CurrentlyScrolling(b: Boundary): (r: bool)
    ensures r <==> b.globallyScrolling
  {
    b.globallyScrolling
  }

  /** The live getter follows a gesture: up after a vertical drag, down again after the touch ends or the reset timer fires. */
  lemma CurrentlyScrollingFollowsGesture(b: Boundary, x: int, y: int, now: int)
    ensures var moved := TouchMove(TouchStart(b, x, y).boundary, x, y + ScrollThreshold + 1, now).boundary;
      && CurrentlyScrolling(moved)
      && !CurrentlyScrolling(TouchEnd(moved).boundary)
      && !CurrentlyScrolling(ScrollTimeoutFires(moved).boundary)
  {
  }
}
