/**
 * The session player page of frontend/src/Player.js: the playback clock that the
 * play/pause button, the "undo" button, the slider and a 50 ms interval drive;
 * the identifiers given to the recorded events; the click test of the event
 * stream; and the minutes:seconds label.
 */
module Player {

  import opened Wrappers
  import opened Strings

  /** Period of the playback interval and the step it advances the clock by, in ms. */
  const TickPeriod := 50
  /** How far the "undo" button rewinds, in ms. */
  const RewindStep := 7000

  // ---------------------------------------------------------------------------
  // The clock as values: what one user action or one interval callback does.
  // ---------------------------------------------------------------------------

  /** The clock's observable state: the playback position in ms and the paused flag. */
  datatype Snapshot = Snapshot(time: int, paused: bool)

  /** What can change the clock: the interval callback, the two buttons, the slider. */
  datatype Control = IntervalFired | PlayPauseClicked | UndoClicked | SliderMoved(value: int)

  /** The position the "undo" button moves to: 7 s earlier, never before the start. */
  function RewoundTime(time: int): (r: int)
    ensures r >= 0
    ensures time >= RewindStep ==> r == time - RewindStep
    ensures time < RewindStep ==> r == 0
    ensures time >= 0 ==> r <= time
  {
    if time - RewindStep < 0 then 0 else time - RewindStep
  }

  /** One transition of the clock. The interval advances without clamping and pauses
      only when it finds the position already at or past the end. */
  function Apply(s: Snapshot, totalTime: int, c: Control): Snapshot {
    match c
    case IntervalFired =>
      if s.time < totalTime then s.(time := s.time + TickPeriod) else s.(paused := true)
    case PlayPauseClicked => s.(paused := !s.paused)
    case UndoClicked => s.(time := RewoundTime(s.time))
    case SliderMoved(v) => s.(time := v)
  }

  /** The clock after a sequence of controls, first to last. */
  function Run(s: Snapshot, totalTime: int, cs: seq<Control>): Snapshot
    decreases |cs|
  {
    if cs == [] then s else Run(Apply(s, totalTime, cs[0]), totalTime, cs[1..])
  }

  /** The range the position stays in: never negative, and at most 49 ms past the end. */
  predicate InRange(s: Snapshot, totalTime: int) {
    0 <= s.time < totalTime + TickPeriod
  }

  /** The slider only reports values between its minimum 0 and its maximum `totalTime`. */
  predicate SliderWithin(cs: seq<Control>, totalTime: int) {
    forall i :: 0 <= i < |cs| && cs[i].SliderMoved? ==> 0 <= cs[i].value <= totalTime
  }

  /** One control keeps the position in range. */
  lemma ApplyStaysInRange(s: Snapshot, totalTime: nat, c: Control)
    requires InRange(s, totalTime)
    requires c.SliderMoved? ==> 0 <= c.value <= totalTime
    ensures InRange(Apply(s, totalTime, c), totalTime)
  {
  }

  /** Any sequence of controls keeps the position in range. */
  lemma {:induction false} RunStaysInRange(s: Snapshot, totalTime: nat, cs: seq<Control>)
    requires InRange(s, totalTime)
    requires SliderWithin(cs, totalTime)
    ensures InRange(Run(s, totalTime, cs), totalTime)
    decreases |cs|
  {
    if cs != [] {
      ApplyStaysInRange(s, totalTime, cs[0]);
      assert SliderWithin(cs[1..], totalTime) by {
        forall i | 0 <= i < |cs[1..]| && cs[1..][i].SliderMoved?
          ensures 0 <= cs[1..][i].value <= totalTime
        {
          assert cs[1..][i] == cs[i + 1];
        }
      }
      RunStaysInRange(Apply(s, totalTime, cs[0]), totalTime, cs[1..]);
    }
  }

  /** The clock after `n` interval callbacks. */
  function Ticks(s: Snapshot, totalTime: int, n: nat): Snapshot
    decreases n
  {
    if n == 0 then s else Ticks(Apply(s, totalTime, IntervalFired), totalTime, n - 1)
  }

  /** How many callbacks still advance the position before it reaches the end. */
  function TicksToEnd(time: int, totalTime: int): nat {
    if time >= totalTime then 0 else (totalTime - time + TickPeriod - 1) / TickPeriod
  }

  function Min(a: int, b: int): int {
    if a <= b then a else b
  }

  /** While playing, each callback adds 50 ms until the position reaches the end;
      the first callback after that pauses, and the position stays put from then on. */
  lemma {:induction false} TicksClosedForm(s: Snapshot, totalTime: int, n: nat)
    ensures Ticks(s, totalTime, n).time == s.time + TickPeriod * Min(n, TicksToEnd(s.time, totalTime))
    ensures Ticks(s, totalTime, n).paused == (s.paused || n > TicksToEnd(s.time, totalTime))
    decreases n
  {
    if n > 0 {
      var s' := Apply(s, totalTime, IntervalFired);
      TicksClosedForm(s', totalTime, n - 1);
      if s.time < totalTime {
        assert TicksToEnd(s'.time, totalTime) == TicksToEnd(s.time, totalTime) - 1;
      }
    }
  }

  /** Where playback stops: at or past the end, by less than one tick. */
  lemma StopsWithinOneTick(s: Snapshot, totalTime: int)
    requires s.time < totalTime
    ensures var end := s.time + TickPeriod * TicksToEnd(s.time, totalTime);
            totalTime <= end < totalTime + TickPeriod
  {
  }

  /** From 9980 ms of a 10000 ms session two callbacks give 10030 ms and a paused clock:
      the interval never clamps the position to the end. */
  lemma OvershootExample()
    ensures Ticks(Snapshot(9980, false), 10000, 1) == Snapshot(10030, false)
    ensures Ticks(Snapshot(9980, false), 10000, 2) == Snapshot(10030, true)
  {
  }

  // ---------------------------------------------------------------------------
  // The clock as the component holds it.
  // ---------------------------------------------------------------------------

  /** Calls the page makes on the replayer. */
  datatype ReplayerCommand = Play(at: int) | Pause | PauseAt(at: int)

  /**
   * The player's state hooks `time`, `paused` and `ticker`, the session length
   * `totalTime` (read once from the replayer's metadata when the session loads),
   * and the calls issued to the replayer. `ticker` is the handle returned by
   * `setInterval`; 0 stands for "no interval" (the source's initial 0 and the later
   * `undefined` are both falsy). `liveTimers` is the set of intervals the browser
   * is running.
   */
  class Clock {
    var time: int
    var paused: bool
    var ticker: nat
    var nextHandle: nat
    ghost var liveTimers: set<nat>
    var commands: seq<ReplayerCommand>
    const totalTime: nat

    ghost predicate Valid()
      reads this
    {
      && InRange(View(), totalTime)
      && 0 < nextHandle
      && (ticker == 0 ==> liveTimers == {})
      && (ticker != 0 ==> liveTimers == {ticker} && ticker < nextHandle)
    }

    function View(): Snapshot
      reads this
    {
      Snapshot(time, paused)
    }

    /** The state right after the session has loaded: at the start, paused, no interval. */
    constructor (totalTime: nat)
      ensures Valid()
      ensures View() == Snapshot(0, true) && ticker == 0 && commands == []
      ensures this.totalTime == totalTime
    {
      time := 0;
      paused := true;
      ticker := 0;
      nextHandle := 1;
      liveTimers := {};
      commands := [];
      this.totalTime := totalTime;
    }

    /** The interval callback: advance by 50 ms while before the end, otherwise pause. */
    method Tick()
      requires Valid() && ticker != 0
      modifies this`time, this`paused
      ensures Valid()
      ensures old(time) < totalTime ==> time == old(time) + TickPeriod && paused == old(paused)
      ensures old(time) >= totalTime ==> time == old(time) && paused
      ensures View() == Apply(old(View()), totalTime, IntervalFired)
    {
      if time < totalTime {
        time := time + TickPeriod;
      } else {
        paused := true;
      }
    }

    /** The interval-managing effect: clear the interval when paused; start one
        when playing and none is running. */
    method SyncTicker()
      requires Valid()
      modifies this`ticker, this`nextHandle, this`liveTimers
      ensures Valid()
      ensures ticker != 0 <==> !paused
      ensures |liveTimers| <= 1
      ensures paused ==> liveTimers == {}
      ensures !paused && old(ticker) != 0 ==> ticker == old(ticker) && liveTimers == old(liveTimers)
      ensures !paused && old(ticker) == 0 ==>
                ticker == old(nextHandle) && liveTimers == {ticker} && ticker !in old(liveTimers)
    {
      if paused {
        liveTimers := liveTimers - {ticker};
        ticker := 0;
        return;
      }
      if ticker == 0 {
        ticker := nextHandle;
        nextHandle := nextHandle + 1;
        liveTimers := liveTimers + {ticker};
      }
    }

    /** The play/pause button. */
    method TogglePlay()
      requires Valid()
      modifies this`paused, this`commands
      ensures Valid()
      ensures paused == !old(paused)
      ensures old(paused) ==> commands == old(commands) + [Play(time)]
      ensures !old(paused) ==> commands == old(commands) + [Pause]
      ensures View() == Apply(old(View()), totalTime, PlayPauseClicked)
    {
      if paused {
        commands := commands + [Play(time)];
        paused := false;
      } else {
        commands := commands + [Pause];
        paused := true;
      }
    }

    /** The "undo" button: seek the replayer 7 s back and keep playing or paused. */
    method Rewind()
      requires Valid()
      modifies this`time, this`commands
      ensures Valid()
      ensures time == RewoundTime(old(time)) && paused == old(paused)
      ensures paused ==> commands == old(commands) + [PauseAt(time)]
      ensures !paused ==> commands == old(commands) + [Play(time)]
      ensures View() == Apply(old(View()), totalTime, UndoClicked)
    {
      var newTime := RewoundTime(time);
      if paused {
        commands := commands + [PauseAt(newTime)];
        time := newTime;
      } else {
        commands := commands + [Play(newTime)];
        time := newTime;
      }
    }

    /** The slider's change handler: set the displayed position; the replayer is not told. */
    method SliderSeek(value: int)
      requires Valid()
      requires 0 <= value <= totalTime
      modifies this`time
      ensures Valid()
      ensures time == value && paused == old(paused)
      ensures View() == Apply(old(View()), totalTime, SliderMoved(value))
    {
      time := value;
    }
  }

  // ---------------------------------------------------------------------------
  // Recorded events, their identifiers, and the click stream.
  // ---------------------------------------------------------------------------

  /** The recorded event's `type` for an incremental snapshot. */
  const IncrementalSnapshot := 3
  /** The `data.type` value of a mouse click. */
  const MouseClick := 2

  /** The `data` of a recorded event: its `type` field is absent on most kinds. */
  datatype EventData = EventData(dataType: Option<int>, nodeId: int)

  /** A recorded event; `identifier` is absent until the page numbers the events. */
  datatype Event = Event(kind: int, data: EventData, timestamp: int, identifier: Option<int>)

  /** `isClick`: an incremental snapshot whose data is of the click type. */
  predicate IsClick(e: Event) {
    e.kind == IncrementalSnapshot && e.data.dataType == Some(MouseClick)
  }

  /** An event whose data has no `type` is never a click, whatever its kind. */
  lemma UntypedDataIsNoClick(e: Event)
    requires e.data.dataType.None?
    ensures !IsClick(e)
  {
  }

  /** Copies of `events` with identifiers `from`, `from + 1`, ... in order. */
  function NumberFrom(events: seq<Event>, from: int): (r: seq<Event>)
    ensures |r| == |events|
    ensures forall i :: 0 <= i < |r| ==> r[i] == events[i].(identifier := Some(from + i))
    decreases |events|
  {
    if events == [] then []
    else [events[0].(identifier := Some(from))] + NumberFrom(events[1..], from + 1)
  }

  /** The `map` that gives each event its position as identifier. */
  function AssignIdentifiers(events: seq<Event>): (r: seq<Event>)
    ensures |r| == |events|
    ensures forall i :: 0 <= i < |r| ==> r[i].identifier == Some(i)
    ensures forall i :: 0 <= i < |r| ==>
              r[i].kind == events[i].kind && r[i].data == events[i].data &&
              r[i].timestamp == events[i].timestamp
  {
    NumberFrom(events, 0)
  }

  /** No two events share an identifier. */
  lemma IdentifiersDistinct(events: seq<Event>, i: int, j: int)
    requires 0 <= i < j < |events|
    ensures AssignIdentifiers(events)[i].identifier != AssignIdentifiers(events)[j].identifier
  {
  }

  /** Numbering does not change which events are clicks. */
  lemma AssignIdentifiersKeepsClicks(events: seq<Event>, i: int)
    requires 0 <= i < |events|
    ensures IsClick(AssignIdentifiers(events)[i]) == IsClick(events[i])
  {
  }

  /** The events handed to the replayer once the session's data arrives: only when
      there are at least two, numbered by position. */
  function PrepareEvents(events: Option<seq<Event>>): (r: Option<seq<Event>>)
    ensures r.Some? <==> events.Some? && |events.value| > 1
    ensures r.Some? ==> r.value == AssignIdentifiers(events.value)
  {
    if events.Some? && |events.value| > 1 then Some(AssignIdentifiers(events.value)) else None
  }

  /** The replayer's "event-cast" listener: a click highlights its own identifier. */
  function OnEventCast(currClick: Option<int>, e: Event): (r: Option<int>)
    ensures IsClick(e) ==> r == e.identifier
    ensures !IsClick(e) ==> r == currClick
  {
    if IsClick(e) then e.identifier else currClick
  }

  /** Casting the i-th numbered event highlights row i of the stream exactly when it is a click. */
  lemma CastHighlightsRow(events: seq<Event>, currClick: Option<int>, i: int)
    requires 0 <= i < |events|
    ensures OnEventCast(currClick, AssignIdentifiers(events)[i]) ==
            if IsClick(events[i]) then Some(i) else currClick
  {
  }

  // ---------------------------------------------------------------------------
  // The minutes:seconds label.
  // ---------------------------------------------------------------------------

  const MillisPerMinute := 60000
  const MillisPerSecond := 1000

  /** JavaScript's `a % b` for a positive divisor: the remainder takes the dividend's sign. */
  function JsRemainder(a: int, b: int): (r: int)
    requires b > 0
    ensures -b < r < b
    ensures a >= 0 ==> r == a % b
    ensures a < 0 ==> r <= 0
  {
    if a >= 0 then a % b else -((-a) % b)
  }

  /** Unlike Dafny's `%`, the remainder is odd in the dividend. */
  lemma JsRemainderOdd(a: int, b: int)
    requires b > 0
    ensures JsRemainder(-a, b) == -JsRemainder(a, b)
  {
  }

  /** Two-digit seconds field: a leading "0" below ten. */
  function TwoDigits(n: nat): (s: string)
    ensures n < 100 ==> s == [DigitChar(n / 10), DigitChar(n % 10)]
    ensures AllDigits(s)
  {
    assert 10 <= n < 100 ==> NatToString(n / 10) == [DigitChar(n / 10)];
    (if n < 10 then "0" else "") + NatToString(n)
  }

  /**
   * `millisToMinutesAndSeconds`, as written: whole minutes by `Math.floor`, then the
   * remaining milliseconds by JavaScript's `%`, divided by 1000 and rendered by
   * `toFixed(0)` (rounding half away from zero, with a "-" for a negative value), and
   * a "0" prefix whenever that text reads as a number below 10.
   */
  function MillisToMinutesAndSeconds(millis: int): (s: string)
    ensures millis >= 0 ==> s == NatToString(millis / MillisPerMinute) + ":" +
                                 TwoDigits((millis % MillisPerMinute + 500) / MillisPerSecond)
  {
    var minutes := millis / MillisPerMinute;  // Dafny's division floors for a positive divisor
    var rem := JsRemainder(millis, MillisPerMinute);
    var magnitude := if rem < 0 then -rem else rem;
    var rounded := (magnitude + 500) / MillisPerSecond;
    var seconds := (if rem < 0 then "-" else "") + NatToString(rounded);
    IntToString(minutes) + ":" + (if rem < 0 || rounded < 10 then "0" else "") + seconds
  }

  /** For a non-negative duration the seconds field is two digits worth at most 60. */
  lemma SecondsFieldAtMostSixty(millis: nat)
    ensures var secs := (millis % MillisPerMinute + 500) / MillisPerSecond;
            secs <= 60 && |TwoDigits(secs)| == 2
  {
  }

  /** 59999 ms renders as "0:60": the seconds round up to 60 without carrying into the minutes. */
  lemma SixtySecondsShown()
    ensures MillisToMinutesAndSeconds(59999) == "0:60"
  {
  }

  /** The label the source evidently intends: round to the nearest second first, then
      split into minutes and seconds, so the seconds field is always below 60. */
  function MillisToMinutesAndSecondsCarried(millis: nat): (s: string)
    ensures |s| >= 4 && s[|s| - 3] == ':'
    ensures AllDigits(s[|s| - 2..]) && s[|s| - 2] <= '5'
  {
    var totalSeconds := (millis + 500) / MillisPerSecond;
    NatToString(totalSeconds / 60) + ":" + TwoDigits(totalSeconds % 60)
  }

  /** The corrected label shows the nearest whole second (halves rounded up) as
      minutes and seconds, with seconds below 60. */
  lemma CarriedIsNearestSecond(millis: nat, minutes: nat, seconds: nat)
    requires seconds < 60
    requires millis + 500 >= MillisPerSecond * (60 * minutes + seconds)
    requires millis + 500 < MillisPerSecond * (60 * minutes + seconds) + MillisPerSecond
    ensures MillisToMinutesAndSecondsCarried(millis) == NatToString(minutes) + ":" + TwoDigits(seconds)
  {
  }

  /** The label as written agrees with the corrected one whenever its seconds field is below 60. */
  lemma {:induction false} AgreesBelowSixty(millis: nat)
    requires (millis % MillisPerMinute + 500) / MillisPerSecond < 60
    ensures MillisToMinutesAndSeconds(millis) == MillisToMinutesAndSecondsCarried(millis)
  {
    var minutes := millis / MillisPerMinute;
    var seconds := (millis % MillisPerMinute + 500) / MillisPerSecond;
    assert millis == MillisPerMinute * minutes + millis % MillisPerMinute;
    CarriedIsNearestSecond(millis, minutes, seconds);
  }
}
