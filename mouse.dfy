// The boot-protocol mouse of src/hidp/btmouse.cpp: the pointer position,
// the latched buttons, the gesture state and the held-report counter that
// `CBTMouse::Parser` updates on every input report, and the GUI event it
// posts for the report (include/graphics/event.h). This module is the
// specification: one report is one step of `Respond`; the device object
// that keeps the fields and queues the events is `Devices.Device`.
module Mouse {
  import opened Bytes

  /** The report ID of a boot-protocol mouse report. */
  const BOOT_REPORT_ID: byte := 0x02

  // Standard mouse buttons.
  const BUTTON_LEFT: byte := 0x01
  const BUTTON_RIGHT: byte := 0x02
  const BUTTON_WHEEL: byte := 0x04

  // Mouse event kinds.
  const EVENT_MOVE: byte := 0x01
  const EVENT_CLICK: byte := 0x02
  const EVENT_PRESS: byte := 0x04
  const EVENT_RELEASE: byte := 0x08
  const EVENT_SCROLL: byte := 0x10

  /** The event source of mouse events. */
  const SOURCE_MOUSE: byte := 0x01

  /** The starting position and scroll value of a new mouse. */
  const START_X: u16 := 320
  const START_Y: u16 := 240
  const START_SCROLL: u16 := 240

  /** TBTMouseState. */
  datatype Gesture = Normal | ButtonPressed | WheelPressed

  /**
   * The events the parser posts. Deltas are the report's signed bytes as
   * they are stored (two's complement); `Signed` gives their value.
   */
  datatype UiEvent =
    | Move(dx: byte, dy: byte)
    | Click(button: byte)
    | Press(button: byte)
    | Release(button: byte)
    | Scroll(w: byte)

  /**
   * The fields `Parser` keeps between reports. The constructor leaves the
   * gesture state unset (None here) until a report sets it.
   */
  datatype Fields = Fields(x: u16, y: u16, scroll: u16, left: bool, right: bool, wheel: bool,
                           gesture: Option<Gesture>, count: u16)

  /** One boot report: three button bits and the signed x, y and wheel deltas. */
  datatype Sample = Sample(left: bool, right: bool, wheel: bool, dx: byte, dy: byte, dw: byte)

  /** The fields of a new `CBTMouse`. */
  function Initial(): (m: Fields)
    ensures m.x == START_X && m.y == START_Y && m.scroll == START_SCROLL
    ensures !m.left && !m.right && !m.wheel && m.count == 0 && m.gesture.None?
  {
    Fields(START_X, START_Y, START_SCROLL, false, false, false, None, 0)
  }

  /** A signed char's value. */
  function Signed(b: byte): (v: int)
    ensures -0x80 <= v < 0x80
    ensures v % 0x100 == b
  {
    if b < 0x80 then b else b - 0x100
  }

  /** Unsigned 16-bit wrap-around. */
  function Wrap16(v: int): u16
  {
    v % 0x1_0000
  }

  /** A well-formed boot report: the report ID, a button byte and three deltas. */
  predicate IsBootReport(report: Bytes)
  {
    |report| >= 5 && report[0] == BOOT_REPORT_ID
  }

  /** The sample a report carries: bit 0 left, bit 1 right, bit 2 wheel, deltas at offsets 2..4. */
  function ReadReport(report: Bytes): (s: Sample)
    requires IsBootReport(report)
    ensures s.dx == report[2] && s.dy == report[3] && s.dw == report[4]
    ensures s.left <==> report[1] % 2 == 1
    ensures s.right <==> report[1] / 2 % 2 == 1
    ensures s.wheel <==> report[1] / 4 % 2 == 1
  {
    Sample(report[1] % 2 == 1, report[1] / 2 % 2 == 1, report[1] / 4 % 2 == 1, report[2], report[3], report[4])
  }

  /** The three deltas added, each coordinate wrapping modulo 2^16. */
  function Moved(m: Fields, s: Sample): Fields
  {
    m.(x := Wrap16(m.x + Signed(s.dx)), y := Wrap16(m.y + Signed(s.dy)), scroll := Wrap16(m.scroll + Signed(s.dw)))
  }

  predicate Idle(s: Sample)
  {
    !s.left && !s.right && !s.wheel && s.dx == 0 && s.dy == 0 && s.dw == 0
  }

  /**
   * One report, with the wheel-release branch clearing the wheel flag.
   * The branches are taken in the order left held, right held, wheel held,
   * movement, scroll, left release, right release, wheel release; each
   * posts at most one event. A held button posts nothing on the report
   * that first shows it down, Press on the next held report and Move on
   * the later ones; a release posts Click when no held report intervened
   * and Release otherwise.
   */
  function Respond(m: Fields, s: Sample): (Fields, Option<UiEvent>)
  {
    var n := Moved(m, s);
    if s.left then
      if !n.left then (n.(count := 0, left := true), None)
      else (n.(gesture := Some(ButtonPressed), count := Wrap16(n.count + 1)),
            Some(if n.count != 0 then Move(s.dx, s.dy) else Press(BUTTON_LEFT)))
    else if s.right then
      if !n.right then (n.(count := 0, right := true), None)
      else (n.(gesture := Some(ButtonPressed), count := Wrap16(n.count + 1)),
            Some(if n.count != 0 then Move(s.dx, s.dy) else Press(BUTTON_RIGHT)))
    else if s.wheel then (n.(wheel := true, gesture := Some(WheelPressed)), Some(Press(BUTTON_WHEEL)))
    else if s.dx != 0 || s.dy != 0 then (n, Some(Move(s.dx, s.dy)))
    else if s.dw != 0 then (n, Some(Scroll(s.dw)))
    else if n.left then
      (n.(left := false, gesture := Some(Normal)), Some(if n.count == 0 then Click(BUTTON_LEFT) else Release(BUTTON_LEFT)))
    else if n.right then
      (n.(right := false, gesture := Some(Normal)), Some(if n.count == 0 then Click(BUTTON_RIGHT) else Release(BUTTON_RIGHT)))
    else if n.wheel then (n.(wheel := false, gesture := Some(Normal)), Some(Release(BUTTON_WHEEL)))
    else (n, None)
  }

  /** The report takes the wheel-release branch. */
  predicate ReleasesWheel(m: Fields, s: Sample)
  {
    Idle(s) && !m.left && !m.right && m.wheel
  }

  /** One report as written: the wheel-release branch sets the wheel flag instead of clearing it. */
  function RespondAsWritten(m: Fields, s: Sample): (Fields, Option<UiEvent>)
  {
    var r := Respond(m, s);
    if ReleasesWheel(m, s) then (r.0.(wheel := true), r.1) else r
  }

  /** `CBTMouse::Parser` on a report, corrected. */
  function Parse(m: Fields, report: Bytes): (Fields, Option<UiEvent>)
    requires IsBootReport(report)
  {
    Respond(m, ReadReport(report))
  }

  /**
   * `CBTMouse::Parser` on a report as written: the same step but for a
   * report that releases the wheel, after which the wheel flag stays set.
   */
  function ParseAsWritten(m: Fields, report: Bytes): (r: (Fields, Option<UiEvent>))
    requires IsBootReport(report)
    ensures !ReleasesWheel(m, ReadReport(report)) ==> r == Parse(m, report)
    ensures ReleasesWheel(m, ReadReport(report)) ==>
              r.1 == Parse(m, report).1 && r.0 == Parse(m, report).0.(wheel := true) && !Parse(m, report).0.wheel
  {
    AsWrittenDiffersOnlyThere(m, ReadReport(report));
    RespondAsWritten(m, ReadReport(report))
  }

  /** The event as a sequence of zero or one. */
  function Posted(e: Option<UiEvent>): seq<UiEvent>
  {
    if e.Some? then [e.value] else []
  }

  /** A run of reports through one of the two parsers: the final fields and every event posted, in order. */
  function Run(respond: (Fields, Sample) -> (Fields, Option<UiEvent>), m: Fields, ss: seq<Sample>)
    : (Fields, seq<UiEvent>)
    decreases |ss|
  {
    if |ss| == 0 then (m, [])
    else
      var r := respond(m, ss[0]);
      var rest := Run(respond, r.0, ss[1..]);
      (rest.0, Posted(r.1) + rest.1)
  }

  /** The first report of a non-empty run, then the rest. */
  lemma RunFront(respond: (Fields, Sample) -> (Fields, Option<UiEvent>), m: Fields, ss: seq<Sample>)
    requires |ss| > 0
    ensures Run(respond, m, ss).0 == Run(respond, respond(m, ss[0]).0, ss[1..]).0
    ensures Run(respond, m, ss).1 == Posted(respond(m, ss[0]).1) + Run(respond, respond(m, ss[0]).0, ss[1..]).1
  {
  }

  // ---------------------------------------------------------------------
  // Position

  datatype Axis = X | Y | Wheel

  function Coordinate(m: Fields, a: Axis): u16
  {
    match a
    case X => m.x
    case Y => m.y
    case Wheel => m.scroll
  }

  function Delta(s: Sample, a: Axis): int
  {
    match a
    case X => Signed(s.dx)
    case Y => Signed(s.dy)
    case Wheel => Signed(s.dw)
  }

  /** The sum of the signed deltas of a run along one axis. */
  function Travel(ss: seq<Sample>, a: Axis): int
    decreases |ss|
  {
    if |ss| == 0 then 0 else Delta(ss[0], a) + Travel(ss[1..], a)
  }

  lemma WrapAdd(a: int, b: int)
    ensures Wrap16(Wrap16(a) + b) == Wrap16(a + b)
  {
    var q := a / 0x1_0000;
    assert a == q * 0x1_0000 + Wrap16(a);
    assert Wrap16(a) + b == (a + b) - q * 0x1_0000;
  }

  lemma WrapInRange(v: u16)
    ensures Wrap16(v) == v
  {
  }

  /** Every report moves each coordinate by its delta, modulo 2^16, whichever branch it takes. */
  lemma RespondMoves(m: Fields, s: Sample, a: Axis)
    ensures Coordinate(Respond(m, s).0, a) == Wrap16(Coordinate(m, a) + Delta(s, a))
    ensures Coordinate(RespondAsWritten(m, s).0, a) == Wrap16(Coordinate(m, a) + Delta(s, a))
  {
  }

  /**
   * The position and scroll value after a run are the starting values
   * plus the sum of the signed deltas, modulo 2^16.
   */
  lemma RunAccumulates(m: Fields, ss: seq<Sample>, a: Axis)
    ensures Coordinate(Run(Respond, m, ss).0, a) == Wrap16(Coordinate(m, a) + Travel(ss, a))
  {
    forall f: Fields, s: Sample
      ensures Coordinate(Respond(f, s).0, a) == Wrap16(Coordinate(f, a) + Delta(s, a))
    {
      RespondMoves(f, s, a);
    }
    Accumulates(Respond, m, ss, a);
  }

  /** The sum over a run of any step that moves each coordinate by its delta, modulo 2^16. */
  lemma {:induction false} Accumulates(respond: (Fields, Sample) -> (Fields, Option<UiEvent>),
                                       m: Fields, ss: seq<Sample>, a: Axis)
    requires forall f: Fields, s: Sample :: Coordinate(respond(f, s).0, a) == Wrap16(Coordinate(f, a) + Delta(s, a))
    ensures Coordinate(Run(respond, m, ss).0, a) == Wrap16(Coordinate(m, a) + Travel(ss, a))
    decreases |ss|
  {
    if |ss| > 0 {
      var n := respond(m, ss[0]).0;
      RunFront(respond, m, ss);
      Accumulates(respond, n, ss[1..], a);
      WrapStep(Coordinate(m, a), Delta(ss[0], a), Travel(ss[1..], a));
    } else {
      WrapInRange(Coordinate(m, a));
    }
  }

  lemma WrapStep(c: int, d: int, t: int)
    ensures Wrap16(Wrap16(c + d) + t) == Wrap16(c + (d + t))
  {
    WrapAdd(c + d, t);
    assert (c + d) + t == c + (d + t);
  }

  // ---------------------------------------------------------------------
  // Branch priority

  /**
   * The order of the branches: a held left button decides the event
   * whatever the other bits say, then a held right button, then the
   * wheel, then movement, then scroll; releases come only from reports
   * with no button and no delta.
   */
  lemma Priority(m: Fields, s: Sample)
    ensures s.left ==> Respond(m, s).1 in {None, Some(Press(BUTTON_LEFT)), Some(Move(s.dx, s.dy))}
    ensures !s.left && s.right ==> Respond(m, s).1 in {None, Some(Press(BUTTON_RIGHT)), Some(Move(s.dx, s.dy))}
    ensures !s.left && !s.right && s.wheel ==> Respond(m, s).1 == Some(Press(BUTTON_WHEEL))
    ensures !s.left && !s.right && !s.wheel && (s.dx != 0 || s.dy != 0) ==> Respond(m, s).1 == Some(Move(s.dx, s.dy))
    ensures !s.left && !s.right && !s.wheel && s.dx == 0 && s.dy == 0 && s.dw != 0 ==>
              Respond(m, s).1 == Some(Scroll(s.dw))
    ensures Respond(m, s).1.Some? && (Respond(m, s).1.value.Click? || Respond(m, s).1.value.Release?) ==> Idle(s)
  {
  }

  /** A report with a delta but no button leaves every latched button and the counter as they were. */
  lemma MotionKeepsLatches(m: Fields, s: Sample)
    requires !s.left && !s.right && !s.wheel && (s.dx != 0 || s.dy != 0 || s.dw != 0)
    ensures var n := Respond(m, s).0;
            n.left == m.left && n.right == m.right && n.wheel == m.wheel && n.count == m.count
            && n.gesture == m.gesture
  {
  }

  // ---------------------------------------------------------------------
  // Held buttons

  /** The report that first shows the left button down posts nothing, latches it and restarts the count. */
  lemma FirstHeldPostsNothing(m: Fields, s: Sample)
    requires s.left && !m.left
    ensures Respond(m, s).1.None?
    ensures Respond(m, s).0.left && Respond(m, s).0.count == 0
  {
  }

  /** A held report after the first posts Press when the count is 0 and Move otherwise, counting up. */
  lemma HeldPostsPressThenMove(m: Fields, s: Sample)
    requires s.left && m.left
    ensures Respond(m, s).1 == Some(if m.count == 0 then Press(BUTTON_LEFT) else Move(s.dx, s.dy))
    ensures Respond(m, s).0.count == Wrap16(m.count + 1)
    ensures Respond(m, s).0.gesture == Some(ButtonPressed) && Respond(m, s).0.left
  {
  }

  /**
   * Holding the left button over three reports: nothing, then Press, then
   * Move with the third report's deltas.
   */
  lemma HoldLeft(m: Fields, s1: Sample, s2: Sample, s3: Sample)
    requires !m.left && s1.left && s2.left && s3.left
    ensures Run(Respond, m, [s1, s2, s3]).1 == [Press(BUTTON_LEFT), Move(s3.dx, s3.dy)]
  {
    var r1 := Respond(m, s1);
    FirstHeldPostsNothing(m, s1);
    var r2 := Respond(r1.0, s2);
    HeldPostsPressThenMove(r1.0, s2);
    var r3 := Respond(r2.0, s3);
    HeldPostsPressThenMove(r2.0, s3);
    assert [s1, s2, s3][1..] == [s2, s3];
    assert [s2, s3][1..] == [s3];
    assert Run(Respond, r2.0, [s3]).1 == [Move(s3.dx, s3.dy)];
  }

  // ---------------------------------------------------------------------
  // Releases

  /**
   * An idle report with the left button latched releases it: Click when
   * the count is 0 (no held report since it went down), Release otherwise.
   */
  lemma LeftRelease(m: Fields, s: Sample)
    requires Idle(s) && m.left
    ensures Respond(m, s).1 == Some(if m.count == 0 then Click(BUTTON_LEFT) else Release(BUTTON_LEFT))
    ensures !Respond(m, s).0.left && Respond(m, s).0.gesture == Some(Normal)
  {
  }

  /** Down then up: a click. */
  lemma QuickClick(m: Fields, down: Sample, up: Sample)
    requires !m.left && down.left && Idle(up)
    ensures Run(Respond, m, [down, up]).1 == [Click(BUTTON_LEFT)]
    ensures !Run(Respond, m, [down, up]).0.left
  {
    var r1 := Respond(m, down);
    FirstHeldPostsNothing(m, down);
    LeftRelease(r1.0, up);
    assert [down, up][1..] == [up];
    assert Run(Respond, r1.0, [up]).1 == [Click(BUTTON_LEFT)];
  }

  /** Down, held, up: Press and then Release, not a click. */
  lemma PressAndRelease(m: Fields, down: Sample, held: Sample, up: Sample)
    requires !m.left && down.left && held.left && Idle(up)
    ensures Run(Respond, m, [down, held, up]).1 == [Press(BUTTON_LEFT), Release(BUTTON_LEFT)]
  {
    var r1 := Respond(m, down);
    FirstHeldPostsNothing(m, down);
    var r2 := Respond(r1.0, held);
    HeldPostsPressThenMove(r1.0, held);
    LeftRelease(r2.0, up);
    assert [down, held, up][1..] == [held, up];
    assert [held, up][1..] == [up];
    assert Run(Respond, r2.0, [up]).1 == [Release(BUTTON_LEFT)];
  }

  /**
   * A report with the button up but carrying movement posts Move and
   * leaves the button latched: the release waits for a report without
   * movement.
   */
  lemma MovingReleaseKeepsLatch(m: Fields, s: Sample)
    requires !s.left && !s.right && !s.wheel && (s.dx != 0 || s.dy != 0) && m.left
    ensures Respond(m, s).1 == Some(Move(s.dx, s.dy)) && Respond(m, s).0.left
  {
  }

  // ---------------------------------------------------------------------
  // The right button mirrors the left

  function SwapButton(b: byte): byte
  {
    if b == BUTTON_LEFT then BUTTON_RIGHT else if b == BUTTON_RIGHT then BUTTON_LEFT else b
  }

  function SwapFields(m: Fields): Fields
  {
    m.(left := m.right, right := m.left)
  }

  function SwapSample(s: Sample): Sample
  {
    s.(left := s.right, right := s.left)
  }

  function SwapEvent(e: Option<UiEvent>): Option<UiEvent>
  {
    match e
    case Some(Click(b)) => Some(Click(SwapButton(b)))
    case Some(Press(b)) => Some(Press(SwapButton(b)))
    case Some(Release(b)) => Some(Release(SwapButton(b)))
    case _ => e
  }

  /**
   * With the right button neither latched nor down, swapping the two
   * buttons in the fields and in the report swaps them in what the
   * report does: the right-button branches are the left ones with the
   * right button's flag and id.
   */
  lemma RightMirrorsLeft(m: Fields, s: Sample)
    requires !m.right && !s.right
    ensures Respond(SwapFields(m), SwapSample(s)).0 == SwapFields(Respond(m, s).0)
    ensures Respond(SwapFields(m), SwapSample(s)).1 == SwapEvent(Respond(m, s).1)
  {
  }

  // ---------------------------------------------------------------------
  // The wheel

  /** `k` idle reports. */
  function IdleReports(k: nat): (ss: seq<Sample>)
    ensures |ss| == k && forall i :: 0 <= i < k ==> Idle(ss[i])
  {
    seq(k, _ => Sample(false, false, false, 0, 0, 0))
  }

  function Releases(k: nat): seq<UiEvent>
  {
    seq(k, _ => Release(BUTTON_WHEEL))
  }

  /**
   * As written, once the wheel has been pressed and let go, every idle
   * report posts another wheel Release: `k` idle reports post `k`
   * Releases and the wheel stays latched.
   */
  lemma {:induction false} WheelReleaseRepeatsAsWritten(m: Fields, k: nat)
    requires !m.left && !m.right && m.wheel
    ensures Run(RespondAsWritten, m, IdleReports(k)).1 == Releases(k)
    ensures Run(RespondAsWritten, m, IdleReports(k)).0.wheel
    decreases k
  {
    if k > 0 {
      var ss := IdleReports(k);
      var r := RespondAsWritten(m, ss[0]);
      assert ss[1..] == IdleReports(k - 1);
      WheelReleaseRepeatsAsWritten(r.0, k - 1);
      assert Releases(k) == [Release(BUTTON_WHEEL)] + Releases(k - 1);
    }
  }

  /** Nothing latched: idle reports post nothing and change nothing but the (zero) deltas. */
  lemma {:induction false} IdleRunQuiet(m: Fields, k: nat)
    requires !m.left && !m.right && !m.wheel
    ensures Run(Respond, m, IdleReports(k)).1 == []
    ensures Run(Respond, m, IdleReports(k)).0 == m
    decreases k
  {
    if k > 0 {
      var ss := IdleReports(k);
      assert Respond(m, ss[0]).0 == m;
      assert ss[1..] == IdleReports(k - 1);
      IdleRunQuiet(m, k - 1);
    }
  }

  /** Corrected, the wheel release is posted once: `k + 1` idle reports post one Release. */
  lemma WheelReleasedOnce(m: Fields, k: nat)
    requires !m.left && !m.right && m.wheel
    ensures Run(Respond, m, IdleReports(k + 1)).1 == [Release(BUTTON_WHEEL)]
    ensures !Run(Respond, m, IdleReports(k + 1)).0.wheel
  {
    var ss := IdleReports(k + 1);
    var r := Respond(m, ss[0]);
    assert ss[1..] == IdleReports(k);
    IdleRunQuiet(r.0, k);
  }

  /** The two parsers differ only on the wheel-release branch, and there only in the wheel flag. */
  lemma AsWrittenDiffersOnlyThere(m: Fields, s: Sample)
    ensures !ReleasesWheel(m, s) ==> RespondAsWritten(m, s) == Respond(m, s)
    ensures ReleasesWheel(m, s) ==> RespondAsWritten(m, s).1 == Respond(m, s).1 == Some(Release(BUTTON_WHEEL))
    ensures ReleasesWheel(m, s) ==> RespondAsWritten(m, s).0.wheel && !Respond(m, s).0.wheel
  {
  }

  // ---------------------------------------------------------------------
  // The event records as they are queued

  function Kind(e: UiEvent): byte
  {
    match e
    case Move(_, _) => EVENT_MOVE
    case Click(_) => EVENT_CLICK
    case Press(_) => EVENT_PRESS
    case Release(_) => EVENT_RELEASE
    case Scroll(_) => EVENT_SCROLL
  }

  /**
   * The packed event object `PostEvent` copies into the queue: a 32-bit
   * word holding the 24-bit kind and the 8-bit source, little-endian,
   * then the two signed deltas of a move or the one byte (button or
   * scroll delta) of the others.
   */
  function Encode(e: UiEvent): (b: Bytes)
    ensures |b| == (if e.Move? then 6 else 5)
    ensures b[..4] == [Kind(e), 0, 0, SOURCE_MOUSE]
  {
    var header := [Kind(e), 0, 0, SOURCE_MOUSE];
    match e
    case Move(dx, dy) => header + [dx, dy]
    case Click(b) => header + [b]
    case Press(b) => header + [b]
    case Release(b) => header + [b]
    case Scroll(w) => header + [w]
  }

  /** The event a queued record holds, None for a record no mouse event has. */
  function Decode(b: Bytes): (r: Option<UiEvent>)
  {
    if |b| < 5 || b[1] != 0 || b[2] != 0 || b[3] != SOURCE_MOUSE then None
    else if b[0] == EVENT_MOVE then (if |b| == 6 then Some(Move(b[4], b[5])) else None)
    else if |b| != 5 then None
    else if b[0] == EVENT_CLICK then Some(Click(b[4]))
    else if b[0] == EVENT_PRESS then Some(Press(b[4]))
    else if b[0] == EVENT_RELEASE then Some(Release(b[4]))
    else if b[0] == EVENT_SCROLL then Some(Scroll(b[4]))
    else None
  }

  /** Every event is read back from its record. */
  lemma DecodeEncode(e: UiEvent)
    ensures Decode(Encode(e)) == Some(e)
  {
  }

  /** A record that reads as an event is exactly that event's record. */
  lemma EncodeDecode(b: Bytes)
    requires Decode(b).Some?
    ensures Encode(Decode(b).value) == b
  {
    var e := Decode(b).value;
    assert Encode(e) == b[..|b|];
  }
}
