/** The session page and its countdown timer together. After every change of the
    page's state React re-renders it, handing the timer `duration = 1200 -
    elapsedTime` and `isRunning = isSessionActive`. Two one-second intervals then
    compete: the page's, which adds to the elapsed time, and the timer's, which
    counts down and calls the page's `handleTimerComplete` at the end. Which of the
    two fires first within a second is left open: any order in which each fires
    only while it exists is a possible run. */
module SessionClock {
  import opened JsRuntime
  import opened TimeFormat
  import S = SessionLifecycle
  import T = CountdownTimer

  datatype Clock = Clock(page: S.Page, timer: T.TimerState, navigations: seq<string>)

  /** The page with its new state, and the timer re-rendered with the page's props. */
  function Rendered(page: S.Page, timer: T.TimerState, navigations: seq<string>): (c: Clock)
    ensures c.timer.duration == S.TimerDuration(page) && c.timer.isRunning == page.isSessionActive
  {
    Clock(page, T.Rerender(timer, S.TimerDuration(page), page.isSessionActive), navigations)
  }

  /** Mounting the page mounts the timer with 20 minutes, not running. */
  const Initial: Clock := Clock(S.InitialPage, T.Mount(S.SessionDuration, false), [])

  /** The inputs: the four buttons and the two intervals. Unlike the page's own
      `Event`, there is no free-standing timer completion: it happens only when
      the timer's interval fires at 1 or below. */
  datatype Input = StartClick | EndClick | CancelClick | ToggleClick | PageSecond | TimerSecond

  /** A button can be pressed only while it is rendered; an interval fires only
      while it exists. */
  predicate Enabled(c: Clock, i: Input)
  {
    match i
    case StartClick => !c.page.isSessionActive
    case EndClick => c.page.isSessionActive
    case CancelClick => c.page.isSessionActive && c.page.showConfirmEnd
    case ToggleClick => c.page.isSessionActive
    case PageSecond => c.page.isSessionActive
    case TimerSecond => T.Scheduled(c.timer)
  }

  /** One input, as the code is written. */
  function Step(c: Clock, i: Input): (d: Clock)
    ensures d.timer.duration == S.TimerDuration(d.page) && d.timer.isRunning == d.page.isSessionActive
    ensures c.navigations <= d.navigations
  {
    match i
    case StartClick => Rendered(S.Started(c.page), c.timer, c.navigations)
    case EndClick =>
      var r := S.AfterEndRequest(c.page);
      Rendered(r.page, c.timer, c.navigations + r.navigations)
    case CancelClick => Rendered(S.AfterCancel(c.page), c.timer, c.navigations)
    case ToggleClick =>
      var p := c.page.(visualizationComplexity := S.NextComplexity(c.page.visualizationComplexity));
      Rendered(p, c.timer, c.navigations)
    case PageSecond => Rendered(S.AfterSecond(c.page), c.timer, c.navigations)
    case TimerSecond =>
      var st := T.Second(c.timer);
      if st.completed then
        var r := S.AfterTimerComplete(c.page);
        Rendered(r.page, st.state, c.navigations + r.navigations)
      else Rendered(c.page, st.state, c.navigations)
  }

  /** `n` firings of the page's interval and nothing else. */
  function PageSeconds(c: Clock, n: nat): Clock
    decreases n
  {
    if n == 0 then c else PageSeconds(Step(c, PageSecond), n - 1)
  }

  /** The page's interval, firing alone, drags the timer along: each re-render
      resets the remaining time to `1200 - elapsedTime`, and none of this ever
      completes the timer. */
  lemma {:induction false} PageDragsTimer(c: Clock, n: nat)
    requires c.page.isSessionActive && c.timer.isRunning
    requires c.timer.duration == S.TimerDuration(c.page)
    ensures var d := PageSeconds(c, n);
      d.page == c.page.(elapsedTime := c.page.elapsedTime + n)
      && d.navigations == c.navigations
      && (n > 0 ==> d.timer == T.TimerState(S.TimerDuration(d.page), true, S.TimerDuration(d.page)))
      && (n == 0 ==> d.timer == c.timer)
    decreases n
  {
    if n > 0 {
      PageDragsTimer(Step(c, PageSecond), n - 1);
    }
  }

  /** The schedule in which the page's interval always fires before the timer's
      (each reset re-creates the timer's interval a moment after the page's tick,
      so the timer's own interval never gets to fire). */
  function PageFirst(n: nat): (inputs: seq<Input>)
    ensures |inputs| == n + 1 && inputs[0] == StartClick
    ensures forall k :: 1 <= k <= n ==> inputs[k] == PageSecond
  {
    [StartClick] + seq(n, _ => PageSecond)
  }

  function Replay(c: Clock, inputs: seq<Input>): Clock
    decreases |inputs|
  {
    if inputs == [] then c else Replay(Step(c, inputs[0]), inputs[1..])
  }

  predicate AllEnabled(c: Clock, inputs: seq<Input>)
    decreases |inputs|
  {
    inputs == [] || (Enabled(c, inputs[0]) && AllEnabled(Step(c, inputs[0]), inputs[1..]))
  }

  lemma {:induction false} PageSecondsReplay(c: Clock, n: nat)
    requires c.page.isSessionActive
    ensures AllEnabled(c, seq(n, _ => PageSecond))
    ensures Replay(c, seq(n, _ => PageSecond)) == PageSeconds(c, n)
    decreases n
  {
    if n > 0 {
      assert seq(n, _ => PageSecond)[1..] == seq(n - 1, _ => PageSecond);
      PageSecondsReplay(Step(c, PageSecond), n - 1);
    }
  }

  /** As written, the timer can miss its completion: started and then with the
      page's interval always first, the session is still active after any number
      `n >= 1200` of seconds, nothing navigated, and the timer, at `1200 - n`, will
      never fire again. After 1201 seconds its display reads `-1:-1`. */
  lemma TimerMissesCompletion(n: nat)
    requires n >= S.SessionDuration
    ensures AllEnabled(Initial, PageFirst(n))
    ensures var c := Replay(Initial, PageFirst(n));
      c.page.isSessionActive && c.page.elapsedTime == n
      && c.navigations == [] && c.timer.timeLeft == S.SessionDuration - n && !T.Scheduled(c.timer)
      && (n == S.SessionDuration + 1 ==> FormatTime(c.timer.timeLeft) == "-1:-1")
  {
    var started := Step(Initial, StartClick);
    StartThenPageSeconds(n);
    PageDragsTimer(started, n);
    MinusOneSecond();
  }

  /** Starting from the mounted page and then letting only the page's interval fire. */
  lemma StartThenPageSeconds(n: nat)
    ensures AllEnabled(Initial, PageFirst(n))
    ensures Replay(Initial, PageFirst(n)) == PageSeconds(Step(Initial, StartClick), n)
  {
    var started := Step(Initial, StartClick);
    assert started.page.isSessionActive;
    assert PageFirst(n)[1..] == seq(n, _ => PageSecond);
    PageSecondsReplay(started, n);
  }

  lemma MinusOneSecond()
    ensures FormatTime(-1) == "-1:-1"
  {
    assert FloorDiv(-1, 60) == -1;
    assert JsRem(-1, 60) == -1;
    assert NatToString(1) == "1";
    assert IntToString(-1) == "-1";
    assert PadStart("-1", 2, '0') == "-1";
  }

  /** The correction: while running, a timer whose remaining time is at or below
      zero (after a reset as much as after a tick) calls `onComplete` at once. */
  function Settle(c: Clock): (d: Clock)
    ensures d.timer.isRunning ==> d.timer.timeLeft > 0
    ensures c.timer.isRunning && c.timer.timeLeft <= 0 ==>
      !d.page.isSessionActive && d.navigations == c.navigations + [S.Home]
    ensures !(c.timer.isRunning && c.timer.timeLeft <= 0) ==> d == c
  {
    if c.timer.isRunning && c.timer.timeLeft <= 0 then
      var r := S.AfterTimerComplete(c.page);
      Rendered(r.page, c.timer, c.navigations + r.navigations)
    else c
  }

  function FixedStep(c: Clock, i: Input): Clock
  {
    Settle(Step(c, i))
  }

  function FixedReplay(c: Clock, inputs: seq<Input>): Clock
    decreases |inputs|
  {
    if inputs == [] then c else FixedReplay(FixedStep(c, inputs[0]), inputs[1..])
  }

  predicate FixedAllEnabled(c: Clock, inputs: seq<Input>)
    decreases |inputs|
  {
    inputs == [] || (Enabled(c, inputs[0]) && FixedAllEnabled(FixedStep(c, inputs[0]), inputs[1..]))
  }

  /** What the corrected page and timer keep: the timer shows the page's props, its
      remaining time never exceeds its duration, and it is positive while running. */
  ghost predicate Synced(c: Clock)
  {
    S.Consistent(c.page)
    && c.timer.duration == S.TimerDuration(c.page)
    && c.timer.isRunning == c.page.isSessionActive
    && c.timer.timeLeft <= c.timer.duration
    && (c.timer.isRunning ==> c.timer.timeLeft >= 1)
  }

  /** Before settling, a step keeps everything but positivity. */
  ghost predicate SyncedButUnsettled(c: Clock)
  {
    S.Consistent(c.page)
    && c.timer.duration == S.TimerDuration(c.page)
    && c.timer.isRunning == c.page.isSessionActive
    && c.timer.timeLeft <= c.timer.duration
  }

  lemma StepKeepsSync(c: Clock, i: Input)
    requires Synced(c) && Enabled(c, i)
    ensures SyncedButUnsettled(Step(c, i))
  {
    S.ApplyPreservesConsistent(c.page, S.Tick);
    S.ApplyPreservesConsistent(c.page, S.TimerDone);
    S.ApplyPreservesConsistent(c.page, S.EndClick);
  }

  lemma SettleSyncs(c: Clock)
    requires SyncedButUnsettled(c)
    ensures Synced(Settle(c))
  {
  }

  /** The corrected clock keeps the invariant on every input it allows. */
  lemma FixedStepKeepsSync(c: Clock, i: Input)
    requires Synced(c) && Enabled(c, i)
    ensures Synced(FixedStep(c, i))
  {
    StepKeepsSync(c, i);
    SettleSyncs(Step(c, i));
  }

  /** With the correction, in every order the two intervals may fire in, an active
      session never has 20 minutes or more on its clock. */
  lemma {:induction false} FixedNeverOverruns(c: Clock, inputs: seq<Input>)
    requires Synced(c) && FixedAllEnabled(c, inputs)
    ensures var d := FixedReplay(c, inputs);
      Synced(d) && (d.page.isSessionActive ==> 0 <= d.page.elapsedTime < S.SessionDuration)
    decreases |inputs|
  {
    if inputs != [] {
      FixedStepKeepsSync(c, inputs[0]);
      FixedNeverOverruns(FixedStep(c, inputs[0]), inputs[1..]);
    }
  }

  lemma InitialSynced()
    ensures Synced(Initial)
  {
  }

  /** With the correction, the schedule that overran before now ends the session on
      time: after 1200 seconds it is over and the page went home. */
  lemma FixedEndsOnTime()
    ensures var c := FixedReplay(Initial, PageFirst(1200));
      !c.page.isSessionActive && c.page.elapsedTime == 0 && c.navigations == [S.Home]
  {
    var started := FixedStep(Initial, StartClick);
    assert started == Step(Initial, StartClick);
    assert PageFirst(1200)[1..] == seq(1200, _ => PageSecond);
    FixedPageSeconds(started, 1199);
  }

  /** Before the last second the corrected clock runs like the original. */
  lemma {:induction false} FixedPageSeconds(c: Clock, n: nat)
    requires c.page.isSessionActive && c.timer.isRunning && c.navigations == []
    requires c.timer.duration == S.TimerDuration(c.page) && c.timer.timeLeft == c.timer.duration
    requires c.page.elapsedTime + n == S.SessionDuration - 1
    ensures var d := FixedReplay(c, seq(n + 1, _ => PageSecond));
      !d.page.isSessionActive && d.page.elapsedTime == 0 && d.navigations == [S.Home]
    decreases n
  {
    var next := FixedStep(c, PageSecond);
    assert seq(n + 1, _ => PageSecond)[1..] == seq(n, _ => PageSecond);
    if n > 0 {
      assert next == Step(c, PageSecond);
      FixedPageSeconds(next, n - 1);
    } else {
      assert seq(0, _ => PageSecond) == [];
    }
  }
}
