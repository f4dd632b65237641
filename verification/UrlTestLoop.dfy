/** The life of a URL-test group's ticker and its check loop, with every interleaving of the parties. */
module UrlTestLoop {
  import opened Nodes

  /** Where a spawned loop is: before its first look at the clock, in its first check, about to wait on the
      ticker, waiting, woken by a tick, in a check, about to stop the ticker, or gone. */
  datatype Place = Entering | FirstCheck | AboutToWait | Waiting | Woken | Checking | Stopping | Gone

  datatype Crash = NilTicker | CloseOfClosedChannel

  /** Tickers are numbered; `paused` is the ticker whose pause callback is registered. `loops` lists every loop
      ever spawned, oldest first. */
  datatype LoopState = LoopState(
    started: bool,
    ticker: Option<nat>,
    paused: Option<nat>,
    tickersMade: nat,
    loops: seq<Place>,
    now: nat,
    lastActive: nat,
    closed: bool,
    crash: Option<Crash>)

  const INITIAL := LoopState(false, None, None, 0, [], 0, 0, false, None)

  datatype Timing = Timing(interval: nat, idleTimeout: nat)

  datatype LoopStep =
    | PostStart
    | Touch
    | ResetTicker
    | CloseGroup
    | Elapse(time: nat)
    | Advance(i: nat, tick: bool)

  function TouchState(s: LoopState): LoopState {
    if !s.started then s
    else if s.ticker.Some? then s.(lastActive := s.now)
    else
      s.(ticker := Some(s.tickersMade), tickersMade := s.tickersMade + 1,
         loops := s.loops + [Entering], paused := Some(s.tickersMade))
  }

  function CloseGroupState(s: LoopState): LoopState {
    if s.ticker.None? then s
    else if s.closed then s.(paused := None, crash := Some(CloseOfClosedChannel))
    else s.(paused := None, closed := true)
  }

  /** The next move of loop `i`. A waiting loop takes a tick, or leaves once the channel is closed. */
  function AdvanceState(t: Timing, s: LoopState, i: nat, tick: bool): LoopState
    requires i < |s.loops|
  {
    match s.loops[i]
    case Entering =>
      if s.now - s.lastActive > t.interval then s.(lastActive := s.now, loops := s.loops[i := FirstCheck])
      else s.(loops := s.loops[i := AboutToWait])
    case FirstCheck => s.(loops := s.loops[i := AboutToWait])
    case AboutToWait => if s.ticker.None? then s.(crash := Some(NilTicker)) else s.(loops := s.loops[i := Waiting])
    case Waiting =>
      if tick then s.(loops := s.loops[i := Woken])
      else if s.closed then s.(loops := s.loops[i := Gone]) else s
    case Woken => s.(loops := s.loops[i := if s.now - s.lastActive > t.idleTimeout then Stopping else Checking])
    case Checking => s.(loops := s.loops[i := AboutToWait])
    case Stopping =>
      if s.ticker.None? then s.(crash := Some(NilTicker))
      else s.(ticker := None, paused := None, loops := s.loops[i := Gone])
    case Gone => s
  }

  function ApplyLoop(t: Timing, s: LoopState, step: LoopStep): LoopState {
    if s.crash.Some? then s
    else
      match step
      case PostStart => s.(started := true, lastActive := s.now)
      case Touch => TouchState(s)
      case ResetTicker => s
      case CloseGroup => CloseGroupState(s)
      case Elapse(time) => s.(now := s.now + time)
      case Advance(i, tick) => if i < |s.loops| then AdvanceState(t, s, i, tick) else s
  }

  function RunLoop(t: Timing, s: LoopState, steps: seq<LoopStep>): LoopState {
    if steps == [] then s else ApplyLoop(t, RunLoop(t, s, steps[..|steps| - 1]), steps[|steps| - 1])
  }

  predicate LastLives(s: LoopState) {
    s.loops != [] && s.loops[|s.loops| - 1] != Gone
  }

  /** Only the newest loop can be alive, and while it is the ticker exists; until the group is closed the ticker
      exists exactly then, with its own pause callback registered; and no loop has met a missing ticker. */
  ghost predicate LoopInvariant(s: LoopState) {
    && (forall i :: 0 <= i < |s.loops| - 1 ==> s.loops[i] == Gone)
    && (LastLives(s) ==> s.ticker.Some?)
    && (s.paused.Some? ==> s.paused == s.ticker)
    && (!s.closed ==> (s.ticker.Some? <==> LastLives(s)) && s.paused == s.ticker)
    && s.crash != Some(NilTicker)
    && (s.crash.Some? ==> s.closed)
  }

  lemma AdvanceKeepsLoop(t: Timing, s: LoopState, i: nat, tick: bool)
    requires LoopInvariant(s) && i < |s.loops|
    ensures LoopInvariant(AdvanceState(t, s, i, tick))
  {
    if i < |s.loops| - 1 {
      assert AdvanceState(t, s, i, tick) == s;
    }
  }

  lemma StepKeepsLoop(t: Timing, s: LoopState, step: LoopStep)
    requires LoopInvariant(s)
    ensures LoopInvariant(ApplyLoop(t, s, step))
  {
    if step.Advance? && step.i < |s.loops| {
      AdvanceKeepsLoop(t, s, step.i, step.tick);
    }
  }

  /** Over every interleaving, closing included: there is never a second live loop, and no loop ever reads a
      missing ticker. */
  lemma {:induction false} RunKeepsLoop(t: Timing, steps: seq<LoopStep>)
    ensures LoopInvariant(RunLoop(t, INITIAL, steps))
  {
    if steps != [] {
      RunKeepsLoop(t, steps[..|steps| - 1]);
      StepKeepsLoop(t, RunLoop(t, INITIAL, steps[..|steps| - 1]), steps[|steps| - 1]);
    }
  }

  lemma OnlyCloseStepCloses(t: Timing, s: LoopState, step: LoopStep)
    requires step != CloseGroup
    ensures ApplyLoop(t, s, step).closed == s.closed
  {
  }

  lemma {:induction false} OnlyCloseCloses(t: Timing, s: LoopState, steps: seq<LoopStep>)
    requires CloseGroup !in steps
    ensures RunLoop(t, s, steps).closed == s.closed
  {
    if steps != [] {
      var init, last := steps[..|steps| - 1], steps[|steps| - 1];
      assert last in steps && forall x :: x in init ==> x in steps;
      OnlyCloseCloses(t, s, init);
      OnlyCloseStepCloses(t, RunLoop(t, s, init), last);
    }
  }

  function LiveLoops(loops: seq<Place>): nat {
    if loops == [] then 0 else LiveLoops(loops[..|loops| - 1]) + if loops[|loops| - 1] == Gone then 0 else 1
  }

  lemma {:induction false} GoneLoopsDoNotCount(loops: seq<Place>)
    requires forall i :: 0 <= i < |loops| ==> loops[i] == Gone
    ensures LiveLoops(loops) == 0
  {
    if loops != [] { GoneLoopsDoNotCount(loops[..|loops| - 1]); }
  }

  /** Before any close, the ticker exists exactly when one loop has not yet stopped, otherwise none runs; the pause
      callback goes with it; and nothing has crashed. */
  lemma TickerIffOneLoop(t: Timing, steps: seq<LoopStep>)
    requires CloseGroup !in steps
    ensures var s := RunLoop(t, INITIAL, steps);
      LiveLoops(s.loops) == (if s.ticker.Some? then 1 else 0) && s.paused == s.ticker && s.crash.None?
  {
    RunKeepsLoop(t, steps);
    OnlyCloseCloses(t, INITIAL, steps);
    var s := RunLoop(t, INITIAL, steps);
    if s.loops != [] { GoneLoopsDoNotCount(s.loops[..|s.loops| - 1]); }
  }

  /** With closes anywhere, still at most one loop runs. */
  lemma NeverASecondLoop(t: Timing, steps: seq<LoopStep>)
    ensures LiveLoops(RunLoop(t, INITIAL, steps).loops) <= 1
    ensures RunLoop(t, INITIAL, steps).crash != Some(NilTicker)
  {
    RunKeepsLoop(t, steps);
    var s := RunLoop(t, INITIAL, steps);
    if s.loops != [] { GoneLoopsDoNotCount(s.loops[..|s.loops| - 1]); }
  }

  /** How many closes of the run met a ticker. */
  function ClosesMeetingTicker(t: Timing, steps: seq<LoopStep>): nat {
    if steps == [] then 0
    else
      var init, last := steps[..|steps| - 1], steps[|steps| - 1];
      ClosesMeetingTicker(t, init) + if last == CloseGroup && RunLoop(t, INITIAL, init).ticker.Some? then 1 else 0
  }

  lemma CloseStep(t: Timing, s: LoopState, step: LoopStep)
    requires LoopInvariant(s)
    ensures var s' := ApplyLoop(t, s, step);
      var meets := step == CloseGroup && s.ticker.Some?;
      && (s'.closed <==> s.closed || meets)
      && (s'.crash.Some? <==> s.crash.Some? || (meets && s.closed))
  {
    StepKeepsLoop(t, s, step);
    if step != CloseGroup { OnlyCloseStepCloses(t, s, step); }
  }

  /** Over every run: the group is closed exactly when some close met a ticker, and the program has crashed exactly
      when two did, whatever happened between them: the first leaves the closed channel in place for the second. */
  lemma {:induction false} CrashesExactly(t: Timing, steps: seq<LoopStep>)
    ensures var s := RunLoop(t, INITIAL, steps);
      && (s.closed <==> ClosesMeetingTicker(t, steps) >= 1)
      && (s.crash.Some? <==> ClosesMeetingTicker(t, steps) >= 2)
  {
    if steps != [] {
      var init, last := steps[..|steps| - 1], steps[|steps| - 1];
      CrashesExactly(t, init);
      RunKeepsLoop(t, init);
      CloseStep(t, RunLoop(t, INITIAL, init), last);
    }
  }

  lemma {:induction false} MeetingClosesAreCloses(t: Timing, steps: seq<LoopStep>)
    ensures ClosesMeetingTicker(t, steps) <= multiset(steps)[CloseGroup]
  {
    if steps != [] {
      var init, last := steps[..|steps| - 1], steps[|steps| - 1];
      assert steps == init + [last];
      MeetingClosesAreCloses(t, init);
    }
  }

  /** A run that closes the group at most once never crashes. */
  lemma OneCloseNeverCrashes(t: Timing, steps: seq<LoopStep>)
    requires multiset(steps)[CloseGroup] <= 1
    ensures RunLoop(t, INITIAL, steps).crash.None?
  {
    CrashesExactly(t, steps);
    MeetingClosesAreCloses(t, steps);
  }

  /** After a touched group is closed, neither touches nor the passing of time in between save a second close. */
  lemma {:induction false} SecondCloseCrashes(t: Timing, s: LoopState, between: seq<LoopStep>)
    requires s.crash.None? && s.ticker.Some?
    requires forall x :: x in between ==> x == Touch || x == PostStart || x == ResetTicker || x.Elapse?
    ensures var closed := ApplyLoop(t, s, CloseGroup);
      && RunLoop(t, closed, between).ticker.Some? && RunLoop(t, closed, between).closed
      && ApplyLoop(t, RunLoop(t, closed, between), CloseGroup).crash.Some?
  {
    if between != [] {
      var init, last := between[..|between| - 1], between[|between| - 1];
      assert between == init + [last];
      SecondCloseCrashes(t, s, init);
    }
  }

  /** A touch that arrives after the loop has decided to stop is lost: the loop stops the ticker all the same. */
  lemma TouchDuringStopIsLost(t: Timing, s: LoopState)
    requires LoopInvariant(s) && s.started && s.crash.None? && s.loops != [] && s.loops[|s.loops| - 1] == Stopping
    ensures var s1 := ApplyLoop(t, s, Touch);
      var s2 := ApplyLoop(t, s1, Advance(|s.loops| - 1, false));
      s1.lastActive == s1.now && s2.ticker.None? && LiveLoops(s2.loops) == 0
  {
    var s2 := ApplyLoop(t, ApplyLoop(t, s, Touch), Advance(|s.loops| - 1, false));
    assert forall i :: 0 <= i < |s2.loops| ==> s2.loops[i] == Gone;
    GoneLoopsDoNotCount(s2.loops);
  }

  function Elapsed(steps: seq<LoopStep>): nat {
    if steps == [] then 0
    else Elapsed(steps[..|steps| - 1]) + if steps[|steps| - 1].Elapse? then steps[|steps| - 1].time else 0
  }

  /** A group whose live loop has not decided to stop, last active at most `age` ago. */
  ghost predicate ActiveWithin(s: LoopState, age: nat) {
    && LoopInvariant(s) && s.crash.None? && !s.closed && s.ticker.Some?
    && s.loops[|s.loops| - 1] != Stopping && s.now - s.lastActive <= age
  }

  lemma ActiveStep(t: Timing, s: LoopState, step: LoopStep, age: nat)
    requires ActiveWithin(s, age) && step != CloseGroup && age <= t.idleTimeout
    ensures var s' := ApplyLoop(t, s, step);
      ActiveWithin(s', age + if step.Elapse? then step.time else 0) && s'.ticker == s.ticker
  {
    StepKeepsLoop(t, s, step);
  }

  lemma {:induction false} ActiveRun(t: Timing, s: LoopState, steps: seq<LoopStep>)
    requires ActiveWithin(s, 0) && CloseGroup !in steps && Elapsed(steps) <= t.idleTimeout
    ensures ActiveWithin(RunLoop(t, s, steps), Elapsed(steps)) && RunLoop(t, s, steps).ticker == s.ticker
  {
    if steps != [] {
      var init, last := steps[..|steps| - 1], steps[|steps| - 1];
      assert steps == init + [last];
      ActiveRun(t, s, init);
      ActiveStep(t, RunLoop(t, s, init), last, Elapsed(init));
    }
  }

  /** A touch of a group with a ticker holds that ticker for the idle timeout, whatever else happens short of a
      close, exactly when the loop had not yet decided to stop. */
  lemma TouchHoldsExactly(t: Timing, s: LoopState)
    requires LoopInvariant(s) && s.started && s.crash.None? && !s.closed && s.ticker.Some?
    ensures (forall steps :: CloseGroup !in steps && Elapsed(steps) <= t.idleTimeout ==>
               RunLoop(t, ApplyLoop(t, s, Touch), steps).ticker == s.ticker)
      <==> s.loops[|s.loops| - 1] != Stopping
  {
    var s1 := ApplyLoop(t, s, Touch);
    if s.loops[|s.loops| - 1] != Stopping {
      forall steps | CloseGroup !in steps && Elapsed(steps) <= t.idleTimeout
        ensures RunLoop(t, s1, steps).ticker == s.ticker
      {
        ActiveRun(t, s1, steps);
      }
    } else {
      var stop := [Advance(|s.loops| - 1, false)];
      assert stop[..0] == [] && Elapsed(stop[..0]) == 0 && RunLoop(t, s1, stop[..0]) == s1;
      TouchDuringStopIsLost(t, s);
      assert RunLoop(t, s1, stop) == ApplyLoop(t, s1, stop[0]) && RunLoop(t, s1, stop).ticker != s.ticker;
      assert CloseGroup !in stop && Elapsed(stop) == 0;
    }
  }

  // ---------------------------------------------------------------------------
  // The life of a loop
  // ---------------------------------------------------------------------------

  /** A touch before the start does nothing; one of a group with a ticker counts as activity; any other makes a new
      ticker with its pause callback and the one live loop. */
  lemma TouchExactly(t: Timing, s: LoopState)
    requires LoopInvariant(s) && s.crash.None?
    ensures var s' := ApplyLoop(t, s, Touch);
      && (!s.started ==> s' == s)
      && (s.started && s.ticker.Some? ==> s' == s.(lastActive := s.now))
      && (s.started && s.ticker.None? ==>
            && s'.ticker == Some(s.tickersMade) == s'.paused && s'.lastActive == s.lastActive
            && LastLives(s') && LiveLoops(s'.loops) == 1)
  {
    var s' := ApplyLoop(t, s, Touch);
    if s.started && s.ticker.None? {
      assert forall i :: 0 <= i < |s.loops| ==> s.loops[i] == Gone;
      GoneLoopsDoNotCount(s.loops);
      assert s'.loops[..|s'.loops| - 1] == s.loops;
    }
  }

  /** A new loop checks at once exactly when the group has been idle for more than the interval, and that counts as
      activity; then it waits for its ticker. */
  lemma FirstCheckExactly(t: Timing, s: LoopState, i: nat)
    requires s.crash.None? && i < |s.loops| && s.loops[i] == Entering
    ensures var s' := ApplyLoop(t, s, Advance(i, false));
      && (s'.loops[i] == FirstCheck <==> s.now - s.lastActive > t.interval)
      && (s'.loops[i] == FirstCheck ==>
            s'.lastActive == s.now && ApplyLoop(t, s', Advance(i, false)) == s'.(loops := s'.loops[i := AboutToWait]))
      && (s'.loops[i] != FirstCheck ==> s' == s.(loops := s.loops[i := AboutToWait]))
  {
  }

  /** A waiting loop takes a tick, leaves once the group is closed, and otherwise goes on waiting. */
  lemma WaitingExactly(t: Timing, s: LoopState, i: nat, tick: bool)
    requires s.crash.None? && i < |s.loops| && s.loops[i] == Waiting
    ensures ApplyLoop(t, s, Advance(i, tick)) ==
      s.(loops := s.loops[i := if tick then Woken else if s.closed then Gone else Waiting])
  {
    assert s.loops[i := Waiting] == s.loops;
  }

  function Twice(t: Timing, s: LoopState, first: LoopStep, second: LoopStep): LoopState {
    ApplyLoop(t, ApplyLoop(t, s, first), second)
  }

  lemma TickWakes(t: Timing, s: LoopState, i: nat)
    requires s.crash.None? && s.ticker.Some? && i < |s.loops| && s.loops[i] == AboutToWait
    ensures Twice(t, s, Advance(i, false), Advance(i, true)) == s.(loops := s.loops[i := Woken])
  {
    assert s.loops[i := Waiting][i := Woken] == s.loops[i := Woken];
  }

  lemma WokenDecides(t: Timing, s: LoopState, i: nat)
    requires s.crash.None? && s.ticker.Some? && i < |s.loops| && s.loops[i] == Woken
    ensures Twice(t, s, Advance(i, false), Advance(i, false)) ==
      if s.now - s.lastActive > t.idleTimeout
      then s.(ticker := None, paused := None, loops := s.loops[i := Gone])
      else s.(loops := s.loops[i := AboutToWait])
  {
    assert s.loops[i := Stopping][i := Gone] == s.loops[i := Gone];
    assert s.loops[i := Checking][i := AboutToWait] == s.loops[i := AboutToWait];
  }

  /** One round of the loop, from one wait to the next: on its tick it retires ticker and pause callback and ends,
      exactly when the group has been idle for more than the idle timeout; otherwise it checks and waits again. */
  lemma RoundExactly(t: Timing, s: LoopState, i: nat)
    requires s.crash.None? && s.ticker.Some? && i < |s.loops| && s.loops[i] == AboutToWait
    ensures var woken := Twice(t, s, Advance(i, false), Advance(i, true));
      Twice(t, woken, Advance(i, false), Advance(i, false)) ==
        if s.now - s.lastActive > t.idleTimeout
        then s.(ticker := None, paused := None, loops := s.loops[i := Gone])
        else s
  {
    TickWakes(t, s, i);
    WokenDecides(t, s.(loops := s.loops[i := Woken]), i);
    assert s.loops[i := Woken][i := Gone] == s.loops[i := Gone];
    assert s.loops[i := Woken][i := AboutToWait] == s.loops;
  }

  /** A close without a ticker does nothing. With one it gives up the pause callback, and closes the channel or, if that
      is closed, crashes; the ticker stays in place either way. */
  lemma CloseExactly(t: Timing, s: LoopState)
    requires s.crash.None?
    ensures var s' := ApplyLoop(t, s, CloseGroup);
      && (s.ticker.None? ==> s' == s)
      && (s.ticker.Some? ==>
            && s'.paused.None? && s'.ticker == s.ticker && s'.closed && s'.loops == s.loops
            && (s'.crash.Some? <==> s.closed))
  {
  }

  /** The start and the clock: a group becomes touchable and active at its start, and time passes for all. */
  lemma StartIsActivity(t: Timing, s: LoopState, time: nat)
    requires s.crash.None?
    ensures ApplyLoop(t, s, PostStart) == s.(started := true, lastActive := s.now)
    ensures ApplyLoop(t, s, Elapse(time)) == s.(now := s.now + time)
  {
  }

  /** The group's fields and the sections it runs under its lock. */
  class TickerGroup {
    var started: bool
    var ticker: Option<nat>
    var paused: Option<nat>
    var tickersMade: nat
    var loops: seq<Place>
    var now: nat
    var lastActive: nat
    var closed: bool
    var crash: Option<Crash>

    ghost function View(): LoopState
      reads this
    {
      LoopState(started, ticker, paused, tickersMade, loops, now, lastActive, closed, crash)
    }

    constructor ()
      ensures View() == INITIAL
    {
      started, ticker, paused, tickersMade, loops := false, None, None, 0, [];
      now, lastActive, closed, crash := 0, 0, false, None;
    }

    method Touch()
      modifies this
      ensures View() == TouchState(old(View()))
    {
      if !started {
        return;
      }
      if ticker.Some? {
        lastActive := now;
        return;
      }
      ticker := Some(tickersMade);
      tickersMade := tickersMade + 1;
      loops := loops + [Entering];
      paused := ticker;
    }

    method Close()
      modifies this
      ensures View() == CloseGroupState(old(View()))
    {
      if ticker.None? {
        return;
      }
      paused := None;
      if closed {
        crash := Some(CloseOfClosedChannel);
        return;
      }
      closed := true;
    }

    /** The part of the loop that retires the ticker. */
    method StopTicker(i: nat)
      requires i < |loops| && loops[i] == Stopping
      modifies this
      ensures forall t, tick :: View() == AdvanceState(t, old(View()), i, tick)
    {
      if ticker.None? {
        crash := Some(NilTicker);
        return;
      }
      ticker := None;
      paused := None;
      loops := loops[i := Gone];
    }
  }
}
