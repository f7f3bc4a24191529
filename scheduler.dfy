/** The service loop (TimedDnsZoneUpdater.ExecuteAsync): one pass before the
    timer exists, then one pass per timer tick until cancellation. Time is
    abstracted away: a run is described by how each pass ends and by how
    many waits return a tick before the wait that observes cancellation. */
module Scheduler {
  import opened Reconcile

  /** How one call of DoWork ends. `Canceled` is any
      `OperationCanceledException` out of the pass: cancellation through
      the stopping token, and also a `TaskCanceledException` from a timed-out
      HTTP request for the public address. */
  datatype PassOutcome = Completed | Failed(failure: PassFailure) | Canceled

  datatype Fault = PassFault(failure: PassFailure) | TimerRejected

  /** How ExecuteAsync ends. */
  datatype Exit =
    | Stopped               // cancellation caught by the loop's handler: a clean stop
    | CanceledBeforeTimer   // the first pass was canceled; it runs outside that handler
    | Faulted(fault: Fault) // an exception left ExecuteAsync and the service ends

  /** Passes started, and how the service ended. */
  datatype Run = Run(passes: nat, exit: Exit)

  /** The largest period, in milliseconds, a periodic timer accepts. */
  const MaxTimerPeriodMs: int := 0xFFFF_FFFE

  /** A periodic timer of `intervalSeconds` can be created: its period is at
      least one millisecond and at most MaxTimerPeriodMs. */
  function TimerAccepts(intervalSeconds: int): (accepted: bool)
    ensures accepted <==> 1 <= intervalSeconds <= 4294967
  {
    1 <= intervalSeconds * 1000 <= MaxTimerPeriodMs
  }

  /** The timer loop after `k` passes, about to wait for tick number `k`;
      waits 1..ticks return a tick, wait ticks + 1 sees cancellation. */
  function Loop(outcomes: seq<PassOutcome>, ticks: nat, k: nat): (run: Run)
    requires 1 <= k <= ticks + 1 <= |outcomes|
    ensures k <= run.passes <= ticks + 1
    ensures run.exit !in {CanceledBeforeTimer, Faulted(TimerRejected)}
    decreases ticks + 1 - k
  {
    if k == ticks + 1 then Run(k, Stopped)
    else
      match outcomes[k]
      case Completed => Loop(outcomes, ticks, k + 1)
      case Canceled => Run(k + 1, Stopped)
      case Failed(f) => Run(k + 1, Faulted(PassFault(f)))
  }

  /** The whole of ExecuteAsync. `outcomes[k]` is how pass k ends. */
  function Schedule(interval: int, outcomes: seq<PassOutcome>, ticks: nat): (run: Run)
    requires ticks + 1 <= |outcomes|
    ensures 1 <= run.passes <= ticks + 1
    ensures run.exit == Faulted(TimerRejected) ==> run.passes == 1
  {
    match outcomes[0]
    case Failed(f) => Run(1, Faulted(PassFault(f)))
    case Canceled => Run(1, CanceledBeforeTimer)
    case Completed =>
      if !TimerAccepts(interval) then Run(1, Faulted(TimerRejected))
      else Loop(outcomes, ticks, 1)
  }

  method ExecuteAsync(interval: int, outcomes: seq<PassOutcome>, ticks: nat)
    returns (passes: nat, exit: Exit)
    requires ticks + 1 <= |outcomes|
    ensures Run(passes, exit) == Schedule(interval, outcomes, ticks)
  {
    // await DoWork(...) before the timer is created
    passes := 1;
    match outcomes[0] {
      case Failed(f) =>
        return 1, Faulted(PassFault(f));
      case Canceled =>
        return 1, CanceledBeforeTimer;
      case Completed =>
    }
    // new PeriodicTimer(TimeSpan.FromSeconds(interval))
    if !TimerAccepts(interval) {
      return 1, Faulted(TimerRejected);
    }
    var waited := 0;
    while waited < ticks
      invariant 0 <= waited <= ticks
      invariant passes == waited + 1
      invariant Loop(outcomes, ticks, passes) == Schedule(interval, outcomes, ticks)
    {
      waited := waited + 1;
      var outcome := outcomes[passes];
      passes := passes + 1;
      match outcome {
        case Canceled =>
          return passes, Stopped;
        case Failed(f) =>
          return passes, Faulted(PassFault(f));
        case Completed =>
      }
    }
    // the next wait observes cancellation
    exit := Stopped;
  }

  // ---------------------------------------------------------------------
  // Properties of the schedule

  /** The first pass runs outside the handler: its cancellation escapes
      ExecuteAsync before the timer exists, and nothing else does. */
  lemma FirstPassCancellationEscapes(interval: int, outcomes: seq<PassOutcome>, ticks: nat)
    requires ticks + 1 <= |outcomes|
    ensures var run := Schedule(interval, outcomes, ticks);
      && (outcomes[0] == Canceled ==> run == Run(1, CanceledBeforeTimer))
      && (run.exit == CanceledBeforeTimer ==> outcomes[0] == Canceled)
  {
  }

  lemma {:induction false} LoopAllCompleted(outcomes: seq<PassOutcome>, ticks: nat, k: nat)
    requires 1 <= k <= ticks + 1 <= |outcomes|
    requires forall j :: k <= j <= ticks ==> outcomes[j] == Completed
    ensures Loop(outcomes, ticks, k) == Run(ticks + 1, Stopped)
    decreases ticks + 1 - k
  {
    if k < ticks + 1 {
      LoopAllCompleted(outcomes, ticks, k + 1);
    }
  }

  /** When every pass completes, the service runs the first pass and one
      per tick, and cancellation during a wait ends it cleanly without
      starting another pass. */
  lemma QuietServiceStopsCleanly(interval: int, outcomes: seq<PassOutcome>, ticks: nat)
    requires ticks + 1 <= |outcomes|
    requires TimerAccepts(interval)
    requires forall j :: 0 <= j <= ticks ==> outcomes[j] == Completed
    ensures Schedule(interval, outcomes, ticks) == Run(ticks + 1, Stopped)
  {
    LoopAllCompleted(outcomes, ticks, 1);
  }

  lemma {:induction false} LoopFirstFailure(outcomes: seq<PassOutcome>, ticks: nat, k: nat, i: nat)
    requires 1 <= k <= i <= ticks < |outcomes|
    requires forall j :: k <= j < i ==> outcomes[j] == Completed
    requires !outcomes[i].Completed?
    ensures Loop(outcomes, ticks, k) ==
      Run(i + 1, if outcomes[i].Failed? then Faulted(PassFault(outcomes[i].failure)) else Stopped)
    decreases i - k
  {
    if k < i {
      LoopFirstFailure(outcomes, ticks, k + 1, i);
    }
  }

  /** A failing pass ends the service: there is no retry on the next tick.
      A pass canceled inside the timer loop ends it cleanly. Either way the
      failing pass is the last one. */
  lemma FailedPassEndsService(interval: int, outcomes: seq<PassOutcome>, ticks: nat, i: nat)
    requires i <= ticks < |outcomes|
    requires forall j :: 0 <= j < i ==> outcomes[j] == Completed
    requires outcomes[i].Failed?
    requires i > 0 ==> TimerAccepts(interval)
    ensures Schedule(interval, outcomes, ticks) == Run(i + 1, Faulted(PassFault(outcomes[i].failure)))
  {
    if i > 0 {
      assert outcomes[0] == Completed;
      LoopFirstFailure(outcomes, ticks, 1, i);
    }
  }

  /** Cancellation during a pass inside the timer loop is not a failure. */
  lemma CanceledPassStopsCleanly(interval: int, outcomes: seq<PassOutcome>, ticks: nat, i: nat)
    requires 1 <= i <= ticks < |outcomes|
    requires forall j :: 0 <= j < i ==> outcomes[j] == Completed
    requires outcomes[i] == Canceled
    requires TimerAccepts(interval)
    ensures Schedule(interval, outcomes, ticks) == Run(i + 1, Stopped)
  {
    assert outcomes[0] == Completed;
    LoopFirstFailure(outcomes, ticks, 1, i);
  }

  /** A period the timer refuses ends the service right after the first
      pass, before any wait. */
  lemma BadIntervalFaultsAfterFirstPass(interval: int, outcomes: seq<PassOutcome>, ticks: nat)
    requires ticks + 1 <= |outcomes|
    requires outcomes[0] == Completed
    ensures !TimerAccepts(interval) <==> Schedule(interval, outcomes, ticks) == Run(1, Faulted(TimerRejected))
  {
  }
}
