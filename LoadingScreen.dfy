/**
 * The loading screen: a letter-drop intro, a progress bar that fills in
 * steps of 2, and a short settle pause before the screen renders nothing.
 *
 * Each timer callback is a discrete event. A timer is a flag that is set
 * while the callback is armed and cleared when it fires or is cancelled; a
 * callback whose flag is off never runs. `Step` is the transition function,
 * `Run` replays a sequence of events, and the class `LoadingScreen` holds the
 * component's fields and performs one event per method, each proved equal to
 * `Step`.
 */
module Loading {
  import opened Wrappers

  /** The title whose letters drop in, one stagger step per character. */
  const AppName: string := "SyncScript"
  /** Dwell time of the intro before the bar appears. */
  const IntroDelayMs: nat := 2500
  /** Period of the progress interval. */
  const TickIntervalMs: nat := 30
  /** Pause between reaching 100 and hiding the screen. */
  const SettleDelayMs: nat := 300
  /** Progress added by one tick. */
  const ProgressStep: int := 2
  /** The value progress is pinned at. */
  const FullProgress: int := 100

  /** The component's three state fields, `mounted`, and the three timer handles. */
  datatype Status = Status(
    mounted: bool,
    animationComplete: bool,
    progress: int,
    loadingComplete: bool,
    introPending: bool,
    intervalRunning: bool,
    settlePending: bool)

  /** What can happen to a mounted screen: one of its timers fires, or the host unmounts it. */
  datatype Event = IntroTimer | IntervalTick | SettleTimer | Unmount

  /** Right after mount: only the intro timer is armed (the other two effects return early). */
  const Mounted: Status := Status(true, false, 0, false, true, false, false)

  /**
   * The state updater of one tick: 100 is its only fixed point, and from an
   * even value in 0..100 it moves to an even value no smaller, still in 0..100.
   */
  function NextProgress(prev: int): (next: int)
    ensures next == prev <==> prev == FullProgress
    ensures 0 <= prev <= FullProgress && prev % 2 == 0 ==>
              prev <= next <= FullProgress && next % 2 == 0
  {
    if prev >= FullProgress then FullProgress else prev + ProgressStep
  }

  /**
   * One event. The intro timer sets `animationComplete`, and the effect that
   * depends on it then starts the interval. A tick that sees 100 clears the
   * interval; a tick that changes `progress` re-runs the effect that depends
   * on it, which cancels the previous settle timer and arms a new one when
   * the value is 100. A tick that leaves the value as it was re-runs nothing.
   * Unmounting runs every cleanup.
   *
   * On a reachable state no event lowers progress or clears
   * `animationComplete` or `loadingComplete`; the first becomes true only by
   * the armed intro timer, the second only by the settle timer armed at 100.
   */
  function Step(s: Status, e: Event): (r: Status)
    ensures Inv(s) ==> s.progress <= r.progress
    ensures s.animationComplete ==> r.animationComplete
    ensures s.loadingComplete ==> r.loadingComplete
    ensures !s.animationComplete && r.animationComplete ==> e == IntroTimer && s.introPending
    ensures Inv(s) && !s.loadingComplete && r.loadingComplete ==>
              e == SettleTimer && s.settlePending && s.progress == FullProgress
  {
    match e
    case IntroTimer =>
      if s.introPending then s.(animationComplete := true, introPending := false, intervalRunning := true)
      else s
    case IntervalTick =>
      if !s.intervalRunning then s
      else
        var p := NextProgress(s.progress);
        var s1 := s.(progress := p, intervalRunning := s.progress < FullProgress);
        if p == s.progress then s1 else s1.(settlePending := p == FullProgress)
    case SettleTimer =>
      if s.settlePending then s.(loadingComplete := true, settlePending := false) else s
    case Unmount =>
      s.(mounted := false, introPending := false, intervalRunning := false, settlePending := false)
  }

  /** The state after the events es, in order. */
  function Run(s: Status, es: seq<Event>): (end: Status)
    decreases |es|
  {
    if |es| == 0 then s else Run(Step(s, es[0]), es[1..])
  }

  /** n events e in a row. */
  function Repeat(e: Event, n: nat): (es: seq<Event>)
    ensures |es| == n
    ensures forall k :: 0 <= k < n ==> es[k] == e
  {
    if n == 0 then [] else [e] + Repeat(e, n - 1)
  }

  function Min(a: int, b: int): (m: int) { if a <= b then a else b }

  /**
   * What holds of every reachable state: progress is even and within
   * 0..100, nothing but the intro happens before the intro timer fires,
   * each timer is armed exactly while the source keeps it armed, and
   * loading completes only at 100.
   */
  ghost predicate Inv(s: Status)
  {
    && 0 <= s.progress <= FullProgress
    && s.progress % 2 == 0
    && (!s.animationComplete ==> s.progress == 0 && !s.intervalRunning && !s.settlePending && !s.loadingComplete)
    && (s.introPending <==> s.mounted && !s.animationComplete)
    && (s.intervalRunning ==> s.mounted && s.animationComplete)
    && (s.mounted && s.animationComplete && s.progress < FullProgress ==> s.intervalRunning)
    && (s.settlePending <==> s.mounted && s.progress == FullProgress && !s.loadingComplete)
    && (s.loadingComplete ==> s.progress == FullProgress)
  }

  // ------------------------------------------------------------ invariant

  lemma MountedInv()
    ensures Inv(Mounted)
  {
  }

  /** Every event keeps the invariant. */
  lemma StepInv(s: Status, e: Event)
    requires Inv(s)
    ensures Inv(Step(s, e))
  {
  }

  /** Every run of events keeps the invariant. */
  lemma {:induction false} RunInv(s: Status, es: seq<Event>)
    requires Inv(s)
    ensures Inv(Run(s, es))
    decreases |es|
  {
    if |es| > 0 {
      StepInv(s, es[0]);
      RunInv(Step(s, es[0]), es[1..]);
    }
  }

  /** Replaying a + b is replaying a, then b. */
  lemma {:induction false} RunAppend(s: Status, a: seq<Event>, b: seq<Event>)
    ensures Run(s, a + b) == Run(Run(s, a), b)
    decreases |a|
  {
    if |a| == 0 {
      assert a + b == b;
    } else {
      assert (a + b)[0] == a[0];
      assert (a + b)[1..] == a[1..] + b;
      RunAppend(Step(s, a[0]), a[1..], b);
    }
  }

  // ---------------------------------------------- monotonicity, ordering

  /** Over any run progress never decreases and both completion flags stay set. */
  lemma {:induction false} RunMonotone(s: Status, es: seq<Event>)
    requires Inv(s)
    ensures s.progress <= Run(s, es).progress
    ensures s.animationComplete ==> Run(s, es).animationComplete
    ensures s.loadingComplete ==> Run(s, es).loadingComplete
    decreases |es|
  {
    if |es| > 0 {
      StepInv(s, es[0]);
      RunMonotone(Step(s, es[0]), es[1..]);
    }
  }

  /** Progress seen after a prefix of a run is at most progress seen after the whole run. */
  lemma ProgressNeverDecreases(s: Status, es: seq<Event>, k: nat)
    requires Inv(s) && k <= |es|
    ensures Run(s, es[..k]).progress <= Run(s, es).progress
  {
    assert es == es[..k] + es[k..];
    RunAppend(s, es[..k], es[k..]);
    RunInv(s, es[..k]);
    RunMonotone(Run(s, es[..k]), es[k..]);
  }

  /** Before the intro timer fires no tick runs and no other event changes progress. */
  lemma {:induction false} NothingBeforeIntro(s: Status, es: seq<Event>)
    requires Inv(s) && !s.animationComplete
    requires IntroTimer !in es
    ensures Run(s, es).progress == 0
    ensures !Run(s, es).animationComplete && !Run(s, es).loadingComplete
    decreases |es|
  {
    if |es| > 0 {
      assert es[0] in es;
      StepInv(s, es[0]);
      forall e | e in es[1..] ensures e in es {
      }
      NothingBeforeIntro(Step(s, es[0]), es[1..]);
    }
  }

  // --------------------------------------------------------------- ticks

  /**
   * Once the bar is showing on a mounted screen, n ticks bring progress to
   * min(progress + 2n, 100); a running interval is still running exactly
   * while that sum is at most 100 (the tick that sees 100 clears it).
   */
  lemma {:induction false} Ticks(s: Status, n: nat)
    requires Inv(s) && s.mounted && s.animationComplete
    ensures Run(s, Repeat(IntervalTick, n)).progress == Min(s.progress + ProgressStep * n, FullProgress)
    ensures s.intervalRunning ==>
              (Run(s, Repeat(IntervalTick, n)).intervalRunning <==> s.progress + ProgressStep * n <= FullProgress)
    ensures !s.intervalRunning ==> Run(s, Repeat(IntervalTick, n)) == s
    ensures Run(s, Repeat(IntervalTick, n)).mounted && Run(s, Repeat(IntervalTick, n)).animationComplete
    ensures Run(s, Repeat(IntervalTick, n)).loadingComplete == s.loadingComplete
    decreases n
  {
    if n > 0 {
      var s1 := Step(s, IntervalTick);
      StepInv(s, IntervalTick);
      assert Repeat(IntervalTick, n)[1..] == Repeat(IntervalTick, n - 1);
      Ticks(s1, n - 1);
    }
  }

  /** The state right after the intro timer fires. */
  const AfterIntro: Status := Step(Mounted, IntroTimer)

  /**
   * From the end of the intro, 50 ticks reach exactly 100 and arm the settle
   * timer, and any number of further ticks leaves progress at 100.
   */
  lemma FiftyTicksFill(extra: nat)
    ensures Run(AfterIntro, Repeat(IntervalTick, 50)).progress == FullProgress
    ensures Run(AfterIntro, Repeat(IntervalTick, 50)).settlePending
    ensures Run(AfterIntro, Repeat(IntervalTick, 49)).progress == 98
    ensures Run(AfterIntro, Repeat(IntervalTick, 50 + extra)).progress == FullProgress
  {
    StepInv(Mounted, IntroTimer);
    Ticks(AfterIntro, 49);
    Ticks(AfterIntro, 50);
    RunInv(AfterIntro, Repeat(IntervalTick, 50));
    Ticks(AfterIntro, 50 + extra);
  }

  /**
   * The nominal schedule: intro, 51 ticks (the last one clears the interval),
   * settle. It ends with loading complete, every timer idle and nothing shown.
   */
  lemma NominalRun()
    ensures var end := Run(Mounted, [IntroTimer] + Repeat(IntervalTick, 51) + [SettleTimer]);
      && end.loadingComplete && end.progress == FullProgress && end.mounted
      && !end.introPending && !end.intervalRunning && !end.settlePending
      && ViewOf(end) == Hidden
  {
    var ticks := Repeat(IntervalTick, 51);
    RunAppend(Mounted, [IntroTimer] + ticks, [SettleTimer]);
    RunAppend(Mounted, [IntroTimer], ticks);
    StepInv(Mounted, IntroTimer);
    Ticks(AfterIntro, 51);
    RunInv(AfterIntro, ticks);
  }

  // ------------------------------------------------ unmount and completion

  /** With every timer idle, no event but another unmount changes anything. */
  lemma {:induction false} IdleIsFrozen(s: Status, es: seq<Event>)
    requires !s.introPending && !s.intervalRunning && !s.settlePending && !s.mounted
    ensures Run(s, es) == s
    decreases |es|
  {
    if |es| > 0 {
      IdleIsFrozen(Step(s, es[0]), es[1..]);
    }
  }

  /** Unmounting cancels whatever is pending: no later event changes the state. */
  lemma NoChangeAfterUnmount(s: Status, es: seq<Event>)
    ensures Run(Step(s, Unmount), es) == Step(s, Unmount)
  {
    IdleIsFrozen(Step(s, Unmount), es);
  }

  /** An unmount before loading completes means loading never completes. */
  lemma UnmountBeforeDoneNeverDone(s: Status, es: seq<Event>)
    requires !s.loadingComplete
    ensures !Run(Step(s, Unmount), es).loadingComplete
  {
    NoChangeAfterUnmount(s, es);
  }

  /** Once loading is complete the screen renders nothing, whatever happens later. */
  lemma {:induction false} DoneIsFinal(s: Status, es: seq<Event>)
    requires Inv(s) && s.loadingComplete
    ensures ViewOf(Run(s, es)) == Hidden
    ensures Run(s, es).progress == FullProgress
  {
    RunMonotone(s, es);
    RunInv(s, es);
  }

  // --------------------------------------------------------------- render

  /**
   * The rendered output: nothing once loading is complete; otherwise the
   * dropping letters, the bar and its label (only after the intro), and the
   * "Initializing Workspace..." footer (only during the intro).
   */
  datatype View = Hidden | Overlay(letters: string, bar: Option<int>, footer: bool)

  /**
   * The screen's output: hidden exactly when loading is complete; otherwise
   * the title's letters, the bar (at the current progress) exactly once the
   * intro is over, and the footer exactly while it is not.
   */
  function ViewOf(s: Status): (v: View)
    ensures v == Hidden <==> s.loadingComplete
    ensures v.Overlay? ==>
              && v.letters == AppName
              && (v.bar.Some? <==> s.animationComplete)
              && (v.footer <==> !s.animationComplete)
              && (v.bar.Some? ==> v.bar.value == s.progress)
  {
    if s.loadingComplete then Hidden
    else Overlay(AppName, if s.animationComplete then Some(s.progress) else None, !s.animationComplete)
  }

  /**
   * On a reachable state, while shown, exactly one of bar and footer is
   * present and the bar's value is an even number in 0..100, and 0 until the
   * intro is over.
   */
  lemma DisplayRules(s: Status)
    requires Inv(s)
    ensures ViewOf(s).Overlay? ==>
              && (ViewOf(s).bar.Some? <==> !ViewOf(s).footer)
              && (ViewOf(s).bar.Some? ==> 0 <= ViewOf(s).bar.value <= 100 && ViewOf(s).bar.value % 2 == 0)
    ensures !s.animationComplete ==> s.progress == 0 && ViewOf(s).Overlay?
  {
  }

  // --------------------------------------------------------- the component

  class LoadingScreen {
    var mounted: bool
    var animationComplete: bool
    var progress: int
    var loadingComplete: bool
    var introPending: bool
    var intervalRunning: bool
    var settlePending: bool

    function State(): Status
      reads this
    {
      Status(mounted, animationComplete, progress, loadingComplete, introPending, intervalRunning, settlePending)
    }

    ghost predicate Valid()
      reads this
    {
      Inv(State())
    }

    /** Mount: the three `useState` initial values and the intro `setTimeout`. */
    constructor ()
      ensures State() == Mounted && Valid()
    {
      mounted := true;
      animationComplete := false;
      progress := 0;
      loadingComplete := false;
      introPending := true;
      intervalRunning := false;
      settlePending := false;
    }

    /** The intro timer's callback, followed by the effect that starts the interval. */
    method OnIntroTimer()
      requires Valid()
      modifies this
      ensures Valid() && State() == Step(old(State()), IntroTimer)
    {
      StepInv(State(), IntroTimer);
      if introPending {
        animationComplete := true;
        introPending := false;
        intervalRunning := true;
      }
    }

    /** One interval callback, followed by the effect keyed on `progress` if the value changed. */
    method OnIntervalTick()
      requires Valid()
      modifies this
      ensures Valid() && State() == Step(old(State()), IntervalTick)
    {
      StepInv(State(), IntervalTick);
      if intervalRunning {
        var prev := progress;
        if prev >= FullProgress {
          intervalRunning := false;
          progress := FullProgress;
        } else {
          progress := prev + ProgressStep;
        }
        if progress != prev {
          settlePending := progress == FullProgress;
        }
      }
    }

    /** The settle timer's callback. */
    method OnSettleTimer()
      requires Valid()
      modifies this
      ensures Valid() && State() == Step(old(State()), SettleTimer)
    {
      StepInv(State(), SettleTimer);
      if settlePending {
        loadingComplete := true;
        settlePending := false;
      }
    }

    /** The host unmounts the screen: every effect's cleanup cancels its pending timer. */
    method Unmount()
      requires Valid()
      modifies this
      ensures Valid() && State() == Step(old(State()), Event.Unmount)
    {
      StepInv(State(), Event.Unmount);
      mounted := false;
      introPending := false;
      intervalRunning := false;
      settlePending := false;
    }

    /** The component's render output. */
    method Render() returns (v: View)
      requires Valid()
      ensures v == ViewOf(State())
      ensures v == Hidden <==> loadingComplete
    {
      v := ViewOf(State());
    }
  }
}
