/** The countdown `Timer` component. Its state is the remaining time `timeLeft`
    together with the two props it reacts to, `duration` and `isRunning`. A
    re-render with a different `duration` resets `timeLeft`; while `isRunning`
    holds and `timeLeft` is positive, a one-second interval runs whose state
    updater decrements `timeLeft`, clamps it at 0 and calls `onComplete`.
    Real time is replaced by explicit one-second steps. */
module CountdownTimer {
  import opened JsRuntime
  import opened TimeFormat

  /** What the interval's state updater returns for `prev`, and whether it
      called `onComplete` on the way. */
  datatype TickResult = TickResult(timeLeft: int, completed: bool)

  /** The updater `prev => prev <= 1 ? (onComplete(), 0) : prev - 1`. */
  function TickUpdate(prev: int): (r: TickResult)
    ensures r.timeLeft >= 0
    ensures r.timeLeft == if prev > 1 then prev - 1 else 0
    ensures r.completed <==> r.timeLeft == 0
  {
    if prev <= 1 then TickResult(0, true) else TickResult(prev - 1, false)
  }

  /** The component's view of the world: the last props it rendered with and its state. */
  datatype TimerState = TimerState(duration: int, isRunning: bool, timeLeft: int)

  /** First render: `useState(duration)`; the mount run of the duration effect
      sets the same value again. */
  function Mount(duration: int, isRunning: bool): (s: TimerState)
    ensures s.timeLeft == s.duration == duration && s.isRunning == isRunning
  {
    TimerState(duration, isRunning, duration)
  }

  /** A re-render with new props. The effect on `[duration]` runs only when
      `duration` differs from the previous render's and then resets `timeLeft`. */
  function Rerender(s: TimerState, duration: int, isRunning: bool): (t: TimerState)
    ensures t.duration == duration && t.isRunning == isRunning
    ensures duration != s.duration ==> t.timeLeft == duration
    ensures duration == s.duration ==> t.timeLeft == s.timeLeft
  {
    TimerState(duration, isRunning, if duration != s.duration then duration else s.timeLeft)
  }

  /** The interval exists exactly when this holds: the tick effect, which re-runs on
      every change of `isRunning` or `timeLeft`, only creates it under this condition. */
  predicate Scheduled(s: TimerState)
  {
    s.isRunning && s.timeLeft > 0
  }

  datatype Step = Step(state: TimerState, completed: bool)

  /** One second of wall-clock time. */
  function Second(s: TimerState): (r: Step)
    ensures r.state.duration == s.duration && r.state.isRunning == s.isRunning
    ensures !Scheduled(s) ==> r == Step(s, false)
    ensures Scheduled(s) ==> r.state.timeLeft == s.timeLeft - 1 >= 0
    ensures r.completed <==> Scheduled(s) && r.state.timeLeft == 0
  {
    if Scheduled(s) then
      var u := TickUpdate(s.timeLeft);
      Step(s.(timeLeft := u.timeLeft), u.completed)
    else Step(s, false)
  }

  /** `n` seconds from `s`: the final state and, second by second, whether
      `onComplete` was called. */
  datatype Trace = Trace(state: TimerState, completions: seq<bool>)

  function Run(s: TimerState, n: nat): (t: Trace)
    ensures |t.completions| == n
    decreases n
  {
    if n == 0 then Trace(s, [])
    else
      var first := Second(s);
      var rest := Run(first.state, n - 1);
      Trace(rest.state, [first.completed] + rest.completions)
  }

  /** The number of `true`s in `bs`. */
  function CountTrue(bs: seq<bool>): nat
  {
    if bs == [] then 0 else (if bs[0] then 1 else 0) + CountTrue(bs[1..])
  }

  function Nothing(n: nat): (bs: seq<bool>)
    ensures |bs| == n && CountTrue(bs) == 0
  {
    if n == 0 then [] else assert ([false] + Nothing(n - 1))[1..] == Nothing(n - 1); [false] + Nothing(n - 1)
  }

  lemma {:induction false} CountTrueAppend(a: seq<bool>, b: seq<bool>)
    ensures CountTrue(a + b) == CountTrue(a) + CountTrue(b)
  {
    if a == [] {
      assert a + b == b;
    } else {
      assert (a + b)[1..] == a[1..] + b;
      CountTrueAppend(a[1..], b);
    }
  }

  /** Running `a` seconds and then `b` seconds is running `a + b` seconds. */
  lemma {:induction false} RunAppend(s: TimerState, a: nat, b: nat)
    ensures var first := Run(s, a);
      var second := Run(first.state, b);
      Run(s, a + b) == Trace(second.state, first.completions + second.completions)
    decreases a
  {
    if a > 0 {
      RunAppend(Second(s).state, a - 1, b);
    }
  }

  /** Without a scheduled interval the timer is frozen: not running, or already at
      (or below) zero, nothing changes and `onComplete` is never called. This includes
      a non-positive `duration`, for which no completion ever fires. */
  lemma {:induction false} FrozenWhenNotScheduled(s: TimerState, n: nat)
    requires !Scheduled(s)
    ensures Run(s, n) == Trace(s, Nothing(n))
  {
    if n > 0 {
      FrozenWhenNotScheduled(s, n - 1);
    }
  }

  /** Before it reaches zero a running timer loses exactly one second per second
      and does not complete. */
  lemma {:induction false} CountsDown(s: TimerState, n: nat)
    requires s.isRunning && n < s.timeLeft
    ensures Run(s, n) == Trace(s.(timeLeft := s.timeLeft - n), Nothing(n))
    decreases n
  {
    if n > 0 {
      CountsDown(Second(s).state, n - 1);
      assert Second(s).state.(timeLeft := s.timeLeft - 1 - (n - 1)) == s.(timeLeft := s.timeLeft - n);
    }
  }

  /** From `D > 0`, running, exactly `D` seconds bring the timer to 0, and
      `onComplete` is called once, on the last of them. */
  lemma ReachesZero(s: TimerState)
    requires s.isRunning && s.timeLeft > 0
    ensures var t := Run(s, s.timeLeft);
      t.state == s.(timeLeft := 0) && t.completions == Nothing(s.timeLeft - 1) + [true]
  {
    var d := s.timeLeft;
    var last := s.(timeLeft := 1);
    CountsDown(s, d - 1);
    RunAppend(s, d - 1, 1);
    assert Run(last, 1) == Trace(s.(timeLeft := 0), [true]);
  }

  /** However long it keeps running afterwards, a timer started from `D > 0` calls
      `onComplete` exactly once and stays at 0. */
  lemma CompletesOnce(s: TimerState, n: nat)
    requires s.isRunning && s.timeLeft > 0 && n >= s.timeLeft
    ensures var t := Run(s, n);
      t.state == s.(timeLeft := 0) && CountTrue(t.completions) == 1
      && t.completions[s.timeLeft - 1]
  {
    var d := s.timeLeft;
    ReachesZero(s);
    RunAppend(s, d, n - d);
    FrozenWhenNotScheduled(s.(timeLeft := 0), n - d);
    CountTrueAppend(Nothing(d - 1), [true]);
    CountTrueAppend(Nothing(d - 1) + [true], Nothing(n - d));
    assert (Nothing(d - 1) + [true] + Nothing(n - d))[d - 1] == true;
  }

  /** Stopping and restarting (the same duration, `isRunning` false then true)
      keeps the remaining time: no reset, and nothing is lost while stopped. */
  lemma {:induction false} StopAndResume(s: TimerState, n: nat)
    ensures var stopped := Rerender(s, s.duration, false);
      var resumed := Rerender(Run(stopped, n).state, s.duration, true);
      resumed == s.(isRunning := true) && Run(stopped, n).completions == Nothing(n)
  {
    FrozenWhenNotScheduled(Rerender(s, s.duration, false), n);
  }

  /** After the countdown the display reads `00:00`. */
  lemma DisplaysZeroAtEnd(s: TimerState)
    requires s.isRunning && s.timeLeft > 0
    ensures FormatTime(Run(s, s.timeLeft).state.timeLeft) == "00:00"
  {
    ReachesZero(s);
    FormatZero();
  }

  /** The `Timer` component as an object: its props and state as fields;
      `completions` counts the calls of `onComplete`. */
  class Timer {
    var duration: int
    var isRunning: bool
    var timeLeft: int
    var completions: nat

    function State(): TimerState
      reads this
    {
      TimerState(duration, isRunning, timeLeft)
    }

    constructor (duration: int, isRunning: bool)
      ensures State() == Mount(duration, isRunning) && completions == 0
    {
      this.duration := duration;
      this.isRunning := isRunning;
      this.timeLeft := duration;
      this.completions := 0;
    }

    /** The parent re-renders the timer with new props. */
    method Render(duration: int, isRunning: bool)
      modifies this
      ensures State() == Rerender(old(State()), duration, isRunning)
      ensures completions == old(completions)
    {
      if duration != this.duration {
        timeLeft := duration;
      }
      this.duration := duration;
      this.isRunning := isRunning;
    }

    /** One second passes; `completed` tells whether `onComplete` was called. */
    method Tick() returns (completed: bool)
      modifies this
      ensures Step(State(), completed) == Second(old(State()))
      ensures completions == old(completions) + (if completed then 1 else 0)
    {
      completed := false;
      if isRunning && timeLeft > 0 {
        if timeLeft <= 1 {
          completed := true;
          completions := completions + 1;
          timeLeft := 0;
        } else {
          timeLeft := timeLeft - 1;
        }
      }
    }

    /** The rendered text, `formatTime(timeLeft)`, which reads back as `timeLeft`. */
    function Display(): (t: string)
      reads this
      ensures timeLeft >= 0 ==> ParseTime(t) == Some(timeLeft)
    {
      ReadBack(timeLeft);
      FormatTime(timeLeft)
    }
  }
}
