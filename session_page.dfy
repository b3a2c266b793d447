/** The session page: whether a session is running, the seconds elapsed in it,
    whether the end-confirmation buttons are showing, and the visualization
    label. Ending takes two clicks (the first only asks for confirmation), the
    timer's completion ends at once, and every end resets the elapsed time and
    navigates to the entry route. Navigation is recorded as the list of routes
    the page asked for; the per-second interval is an explicit step. */
module SessionLifecycle {
  import opened JsRuntime
  import opened TimeFormat

  /** `sessionDuration`: 20 minutes, in seconds. */
  const SessionDuration: int := 20 * 60

  /** The labels `toggleVisualization` cycles through, in order. */
  const Complexities: seq<string> := ["simple", "medium", "complex"]

  /** The entry route that ending a session navigates to. */
  const Home: string := "/"

  datatype Page = Page(
    isSessionActive: bool,
    elapsedTime: int,
    showConfirmEnd: bool,
    visualizationComplexity: string)

  /** The initial `useState` values. */
  const InitialPage: Page := Page(false, 0, false, "medium")

  /** A handler's effect: the new state and the routes it navigated to, in order. */
  datatype Reaction = Reaction(page: Page, navigations: seq<string>)

  /** `handleStartSession`: only sets the active flag. */
  function Started(p: Page): Page
  {
    p.(isSessionActive := true)
  }

  /** `endSession`: inactive, elapsed 0, no confirmation, then `navigate('/')`. */
  function Ended(p: Page): Reaction
  {
    Reaction(p.(isSessionActive := false, elapsedTime := 0, showConfirmEnd := false), [Home])
  }

  /** `handleEndSession`: the first request only arms the confirmation. */
  function AfterEndRequest(p: Page): Reaction
  {
    if !p.showConfirmEnd then Reaction(p.(showConfirmEnd := true), []) else Ended(p)
  }

  /** `handleCancelEnd`. */
  function AfterCancel(p: Page): Page
  {
    p.(showConfirmEnd := false)
  }

  /** `handleTimerComplete`: ends without asking. */
  function AfterTimerComplete(p: Page): Reaction
  {
    Ended(p)
  }

  /** One second: the interval adds 1 to the elapsed time, and only exists while a
      session is active. */
  function AfterSecond(p: Page): Page
  {
    if p.isSessionActive then p.(elapsedTime := p.elapsedTime + 1) else p
  }

  /** `toggleVisualization`: the label after the current one's position, cyclically.
      A label not in the list has position -1, so the next one is the first. */
  function NextComplexity(current: string): (next: string)
    ensures next in Complexities
    ensures current !in Complexities ==> next == Complexities[0]
  {
    var i := IndexOf(Complexities, current);
    Complexities[(i + 1) % |Complexities|]
  }

  /** The duration the page hands the timer: what is left of the 20 minutes. */
  function TimerDuration(p: Page): int
  {
    SessionDuration - p.elapsedTime
  }

  /** The footer clock: the formatted elapsed time while active, `00:00` otherwise. */
  function FooterTime(p: Page): (t: string)
    ensures p.elapsedTime >= 0 ==>
      ParseTime(t) == Some(if p.isSessionActive then p.elapsedTime else 0)
  {
    ReadBack(p.elapsedTime);
    FormatZero();
    ReadBack(0);
    if p.isSessionActive then FormatTime(p.elapsedTime) else "00:00"
  }

  /** What every handler keeps: the elapsed time is a natural number, and it is 0
      whenever no session is active. */
  ghost predicate Consistent(p: Page)
  {
    p.elapsedTime >= 0 && (!p.isSessionActive ==> p.elapsedTime == 0)
  }

  /** The first end request changes nothing but the confirmation flag and does not
      navigate; the second ends the session, whatever the elapsed time was. */
  lemma TwoStepEnd(p: Page)
    requires !p.showConfirmEnd
    ensures var first := AfterEndRequest(p);
      first == Reaction(p.(showConfirmEnd := true), [])
      && AfterEndRequest(first.page)
         == Reaction(Page(false, 0, false, p.visualizationComplexity), [Home])
  {
  }

  /** An end request while confirming ends the session and navigates home. */
  lemma ConfirmedEndRequest(p: Page)
    requires p.showConfirmEnd
    ensures AfterEndRequest(p) == Reaction(Page(false, 0, false, p.visualizationComplexity), [Home])
  {
  }

  /** Cancel clears the confirmation flag and nothing else, so it undoes a first end request. */
  lemma CancelUndoesEndRequest(p: Page)
    ensures AfterCancel(p) == p.(showConfirmEnd := false)
    ensures !p.showConfirmEnd ==> AfterCancel(AfterEndRequest(p).page) == p
  {
  }

  /** Timer completion reaches the same state as a confirmed end, in one step and
      whether or not the confirmation was showing. */
  lemma TimerCompleteSkipsConfirmation(p: Page)
    ensures AfterTimerComplete(p) == AfterEndRequest(p.(showConfirmEnd := true))
    ensures AfterTimerComplete(p) == AfterEndRequest(AfterEndRequest(p.(showConfirmEnd := false)).page)
  {
  }

  /** Every way of ending forgets the elapsed time: the result does not depend on it. */
  lemma EndForgetsElapsed(p: Page, e: int)
    ensures Ended(p) == Ended(p.(elapsedTime := e))
    ensures Ended(p).page.elapsedTime == 0 && !Ended(p).page.isSessionActive
  {
  }

  /** `n` seconds of the elapsed-time interval. */
  function Seconds(p: Page, n: nat): Page
    decreases n
  {
    if n == 0 then p else Seconds(AfterSecond(p), n - 1)
  }

  /** While active each second adds exactly 1; while inactive the time stands still. */
  lemma {:induction false} SecondsCount(p: Page, n: nat)
    ensures p.isSessionActive ==> Seconds(p, n) == p.(elapsedTime := p.elapsedTime + n)
    ensures !p.isSessionActive ==> Seconds(p, n) == p
    decreases n
  {
    if n > 0 {
      SecondsCount(AfterSecond(p), n - 1);
    }
  }

  /** Start sets the active flag and keeps the elapsed time. */
  lemma StartKeepsElapsed(p: Page)
    ensures Started(p).isSessionActive && Started(p).elapsedTime == p.elapsedTime
    ensures Started(p).(isSessionActive := p.isSessionActive) == p
  {
  }

  /** The label cycles simple → medium → complex → simple, so three toggles give the
      label back; an unknown label becomes "simple". */
  lemma ComplexityCycle(current: string)
    ensures NextComplexity("simple") == "medium"
    ensures NextComplexity("medium") == "complex"
    ensures NextComplexity("complex") == "simple"
    ensures current in Complexities ==> NextComplexity(NextComplexity(NextComplexity(current))) == current
    ensures current !in Complexities ==> NextComplexity(current) == "simple"
  {
    assert IndexOf(Complexities, "simple") == 0;
    assert IndexOf(Complexities, "medium") == 1;
    assert IndexOf(Complexities, "complex") == 2;
  }

  /** For a consistent page the footer is simply the formatted elapsed time. */
  lemma FooterShowsElapsed(p: Page)
    requires Consistent(p)
    ensures FooterTime(p) == FormatTime(p.elapsedTime)
  {
    FormatZero();
  }

  /** The timer is handed what is left of the 20 minutes: added to the elapsed
      time the session duration comes out; before start that is all 20 minutes. */
  lemma TimerGetsRemaining(p: Page)
    requires Consistent(p)
    ensures TimerDuration(p) + p.elapsedTime == 1200 && TimerDuration(p) <= 1200
    ensures !p.isSessionActive ==> TimerDuration(p) == 1200
  {
  }

  /** The page's inputs, one per button or timer callback. Here the page stands
      alone: the timer is abstracted to its `onComplete` callback, which may arrive
      at any moment of an active session. `SessionClock` adds the timer's own state
      and decides when that callback can happen. */
  datatype Event = StartClick | EndClick | CancelClick | Tick | TimerDone | ToggleClick

  /** Which events can occur: the start button is only rendered while inactive; the
      end and toggle buttons while active; "Continue Session" while the confirmation
      shows; the timer runs, and so completes, only while the session is active. */
  predicate Enabled(p: Page, e: Event)
  {
    match e
    case StartClick => !p.isSessionActive
    case EndClick => p.isSessionActive
    case CancelClick => p.isSessionActive && p.showConfirmEnd
    case Tick => true
    case TimerDone => p.isSessionActive
    case ToggleClick => p.isSessionActive
  }

  /** One event's handler. Only an ending navigates, and then once, to `/`. */
  function Apply(p: Page, e: Event): (r: Reaction)
    ensures |r.navigations| <= 1
    ensures r.navigations != [] ==> r.navigations == [Home] && !r.page.isSessionActive && r.page.elapsedTime == 0
  {
    match e
    case StartClick => Reaction(Started(p), [])
    case EndClick => AfterEndRequest(p)
    case CancelClick => Reaction(AfterCancel(p), [])
    case Tick => Reaction(AfterSecond(p), [])
    case TimerDone => AfterTimerComplete(p)
    case ToggleClick => Reaction(p.(visualizationComplexity := NextComplexity(p.visualizationComplexity)), [])
  }

  /** Every handler keeps the page consistent, whatever the UI shows. */
  lemma ApplyPreservesConsistent(p: Page, e: Event)
    requires Consistent(p)
    ensures Consistent(Apply(p, e).page)
  {
  }

  /** What holds on every page the UI can reach: consistency, no confirmation
      outside a session, and a label from the list. */
  ghost predicate Reachable(p: Page)
  {
    Consistent(p) && (!p.isSessionActive ==> !p.showConfirmEnd) && p.visualizationComplexity in Complexities
  }

  /** Replaying a sequence of events: the final page and all navigations on the way. */
  function Replay(p: Page, events: seq<Event>): Reaction
    decreases |events|
  {
    if events == [] then Reaction(p, [])
    else
      var r := Apply(p, events[0]);
      var rest := Replay(r.page, events[1..]);
      Reaction(rest.page, r.navigations + rest.navigations)
  }

  predicate AllEnabled(p: Page, events: seq<Event>)
    decreases |events|
  {
    events == [] || (Enabled(p, events[0]) && AllEnabled(Apply(p, events[0]).page, events[1..]))
  }

  /** Every navigation is to the entry route. */
  predicate OnlyHome(navigations: seq<string>)
  {
    forall k :: 0 <= k < |navigations| ==> navigations[k] == Home
  }

  /** One event the UI allows keeps the page reachable and navigates only home. */
  lemma ApplyReachable(p: Page, e: Event)
    requires Reachable(p) && Enabled(p, e)
    ensures Reachable(Apply(p, e).page) && OnlyHome(Apply(p, e).navigations)
  {
    ComplexityCycle(p.visualizationComplexity);
  }

  /** From a reachable page, any sequence of events the UI allows keeps the page
      reachable, and every navigation goes to the entry route. */
  lemma {:induction false} ReplayReachable(p: Page, events: seq<Event>)
    requires Reachable(p) && AllEnabled(p, events)
    ensures Reachable(Replay(p, events).page) && OnlyHome(Replay(p, events).navigations)
    decreases |events|
  {
    if events != [] {
      var r := Apply(p, events[0]);
      ApplyReachable(p, events[0]);
      ReplayReachable(r.page, events[1..]);
      var rest := Replay(r.page, events[1..]);
      assert Replay(p, events).navigations == r.navigations + rest.navigations;
    }
  }

  lemma InitialReachable()
    ensures Reachable(InitialPage)
  {
  }

  /** Start, `n` seconds, an end request and a cancel: the session is still active
      with `n` seconds elapsed and no confirmation showing. */
  lemma CancelKeepsSession(n: nat)
    ensures var p := Seconds(Started(InitialPage), n);
      AfterCancel(AfterEndRequest(p).page) == Page(true, n, false, "medium")
  {
    SecondsCount(Started(InitialPage), n);
  }

  /** The page as an object: the `useState` values as fields, and the routes it
      navigated to. */
  class SessionPage {
    var isSessionActive: bool
    var elapsedTime: int
    var showConfirmEnd: bool
    var visualizationComplexity: string
    var navigations: seq<string>

    function State(): Page
      reads this
    {
      Page(isSessionActive, elapsedTime, showConfirmEnd, visualizationComplexity)
    }

    ghost predicate Valid()
      reads this
    {
      Consistent(State())
    }

    constructor ()
      ensures State() == InitialPage && navigations == [] && Valid()
    {
      isSessionActive := false;
      elapsedTime := 0;
      showConfirmEnd := false;
      visualizationComplexity := "medium";
      navigations := [];
    }

    method HandleStartSession()
      requires Valid()
      modifies this
      ensures Valid()
      ensures State() == Started(old(State())) && navigations == old(navigations)
    {
      isSessionActive := true;
    }

    method EndSession()
      requires Valid()
      modifies this
      ensures Valid()
      ensures var r := Ended(old(State()));
        State() == r.page && navigations == old(navigations) + r.navigations
    {
      isSessionActive := false;
      elapsedTime := 0;
      showConfirmEnd := false;
      navigations := navigations + [Home];
    }

    method HandleEndSession()
      requires Valid()
      modifies this
      ensures Valid()
      ensures var r := AfterEndRequest(old(State()));
        State() == r.page && navigations == old(navigations) + r.navigations
    {
      if !showConfirmEnd {
        showConfirmEnd := true;
        return;
      }
      EndSession();
    }

    method HandleCancelEnd()
      requires Valid()
      modifies this
      ensures Valid()
      ensures State() == AfterCancel(old(State())) && navigations == old(navigations)
    {
      showConfirmEnd := false;
    }

    method HandleTimerComplete()
      requires Valid()
      modifies this
      ensures Valid()
      ensures var r := AfterTimerComplete(old(State()));
        State() == r.page && navigations == old(navigations) + r.navigations
    {
      EndSession();
    }

    /** One second of the elapsed-time interval. */
    method ElapsedTick()
      requires Valid()
      modifies this
      ensures Valid()
      ensures State() == AfterSecond(old(State())) && navigations == old(navigations)
    {
      if isSessionActive {
        elapsedTime := elapsedTime + 1;
      }
    }

    method ToggleVisualization()
      requires Valid()
      modifies this
      ensures Valid()
      ensures State() == old(State()).(visualizationComplexity := NextComplexity(old(visualizationComplexity)))
      ensures navigations == old(navigations)
    {
      var currentIndex := IndexOf(Complexities, visualizationComplexity);
      var nextIndex := (currentIndex + 1) % |Complexities|;
      visualizationComplexity := Complexities[nextIndex];
    }

    /** The duration prop passed to the timer. */
    function TimerDurationProp(): (d: int)
      reads this
      requires Valid()
      ensures d == TimerDuration(State()) && d <= SessionDuration
    {
      SessionDuration - elapsedTime
    }

    /** The footer clock text. */
    function Footer(): (t: string)
      reads this
      requires Valid()
      ensures t == FormatTime(elapsedTime)
    {
      FooterShowsElapsed(State());
      FooterTime(State())
    }
  }
}
