/** No promise of an unsignalled run gets stuck: whatever has happened, something is still
    to come that settles it; and the one way in which a scheduled forced kill is dropped. */
module ProcessProgress {
  import opened Text
  import opened ProcessOutput
  import opened ProcessMachine
  import opened ProcessSafety

  /** An unsettled run that was not signalled: its timeout is armed or has fired; while it
      waits for the grace period its kill timer is set; and once its child has closed it
      does wait, with the exit remembered. */
  predicate StillMoving(r: Run) {
    !r.settled && r.parentSignalPending.None? ==>
      && (r.timeoutArmed || r.timedOut)
      && (r.waitingForKillGrace ==> r.killTimer == TimeoutKill)
      && (r.log.closed ==> r.waitingForKillGrace && r.childClosedResult.Some?)
  }

  /** The events that may reach a run. */
  predicate MayHandle(r: Run, e: Event) {
    match e
    case Timeout(_, _) => r.timeoutArmed
    case KillTimerFires(_, _) => r.killTimer != Unset
    case Stdout(_, _) => !r.log.closed
    case Stderr(_, _) => !r.log.closed
    case ErrorOccurs(_) => !r.log.errored
    case Close(_, _, _) => !r.log.closed
    case _ => false
  }

  lemma HandlerKeepsMoving(r: Run, e: Event)
    requires RunInv(r) && StillMoving(r) && OfOneRun(e) && MayHandle(r, e)
    ensures StillMoving(EffectOf(r, e).run)
  {
  }

  predicate AllMoving(w: World) { forall r <- w.runs :: StillMoving(r) }

  lemma ApplyKeepsMoving(w: World, i: nat, effect: Effect)
    requires Indexed(w) && AllMoving(w) && i < |w.runs| && StillMoving(effect.run)
    ensures AllMoving(Apply(w, i, effect))
  {
    var next := Apply(w, i, effect);
    forall r <- next.runs ensures StillMoving(r) {
      var j :| 0 <= j < |next.runs| && next.runs[j] == r;
      if j != i { assert r == w.runs[j] && w.runs[j] in w.runs; }
    }
  }

  lemma {:induction false} RelayKeepsMoving(w: World, signal: Signal, answers: seq<Answer>, i: nat)
    requires Indexed(w) && AllMoving(w) && |answers| == |w.runs| && i <= |w.runs|
    ensures AllMoving(Relay(w, signal, answers, i))
    decreases |w.runs| - i
  {
    if i < |w.runs| {
      if w.runs[i].handlersInstalled {
        ApplyKeepsMoving(w, i, OnParentSignal(w.runs[i], signal, answers[i].kill, answers[i].alive));
      }
      RelayKeepsMoving(RelayOne(w, signal, answers[i], i), signal, answers, i + 1);
    }
  }

  lemma StepKeepsMoving(w: World, e: Event)
    requires WorldInv(w) && AllMoving(w) && Enabled(w, e)
    ensures AllMoving(Step(w, e))
  {
    match e
    case Start(_) =>
    case ParentSignal(signal, answers) => RelayKeepsMoving(w, signal, answers, 0);
    case _ =>
      HandlerKeeps(w, e);
      HandlerKeepsMoving(w.runs[e.run], e);
      ApplyKeepsMoving(w, e.run, EffectOf(w.runs[e.run], e));
  }

  lemma {:induction false} HistoryKeepsMoving(worlds: seq<World>, events: seq<Event>, k: nat)
    requires IsHistory(worlds, events) && k <= |events|
    ensures AllMoving(worlds[k])
  {
    if k > 0 {
      HistoryKeepsMoving(worlds, events, k - 1);
      HistoryKeeps(worlds, events, k - 1);
      assert StepsTo(worlds[k - 1], events[k - 1], worlds[k]);
      StepKeepsMoving(worlds[k - 1], events[k - 1]);
    }
  }

  lemma KillTimerSettles(w: World, i: nat, answer: KillAnswer)
    requires WorldInv(w) && i < |w.runs| && w.runs[i].killTimer == TimeoutKill && w.runs[i].childClosedResult.Some?
    ensures Enabled(w, KillTimerFires(i, answer)) && Step(w, KillTimerFires(i, answer)).runs[i].settled
  {
  }

  /** In every history, a run that is neither settled nor signalled either still awaits its
      child's close, under a timeout that is armed or has sent SIGTERM and then keeps the
      forced kill scheduled until it is sent; or its child has closed, and then its kill
      timer is set and settles it whatever the kill answers. */
  lemma NoPromiseIsStuck(worlds: seq<World>, events: seq<Event>, k: nat, i: nat, answer: KillAnswer)
    requires IsHistory(worlds, events) && k <= |events| && i < |worlds[k].runs|
    requires !worlds[k].runs[i].settled && worlds[k].runs[i].parentSignalPending.None?
    ensures var r := worlds[k].runs[i];
      if r.log.closed then
        r.killTimer == TimeoutKill && Enabled(worlds[k], KillTimerFires(i, answer)) &&
        Indexed(worlds[k]) && Step(worlds[k], KillTimerFires(i, answer)).runs[i].settled
      else r.timeoutArmed || (r.timedOut && (r.killTimer == TimeoutKill || KillIssued(r)))
  {
    HistoryKeeps(worlds, events, k);
    HistoryKeepsMoving(worlds, events, k);
    assert worlds[k].runs[i] in worlds[k].runs && RunInv(worlds[k].runs[i]);
    if worlds[k].runs[i].log.closed {
      KillTimerSettles(worlds[k], i, answer);
    }
  }

  // ----- a dropped kill

  /** The forced kill that a timeout scheduled is cancelled, with the process group neither
      seen dead nor sent SIGKILL. */
  predicate KillDropped(r: Run, next: Run) {
    r.killTimer == TimeoutKill && next.killTimer == Unset && !Ended(next)
  }

  /** That happens exactly when the child's `error` event comes while the kill is scheduled
      and no parent signal is pending: settling cancels the timer. */
  lemma KillDroppedExactly(r: Run, e: Event)
    requires RunInv(r) && OfOneRun(e) && MayHandle(r, e)
    ensures KillDropped(r, EffectOf(r, e).run) <==>
            e.ErrorOccurs? && !r.settled && r.killTimer == TimeoutKill && r.parentSignalPending.None? && !Ended(r)
  {
    assert e.Timeout? || e.KillTimerFires? || EffectOf(r, e).run.log.issued == r.log.issued;
    match e
    case KillTimerFires(_, answer) =>
      KillTimerKeeps(r, answer);
      if r.killTimer == TimeoutKill { KilledKeeps(r, answer); }
    case Timeout(_, answer) =>
      IssuingKeeps(r.(timedOut := true, timeoutArmed := false), SIGTERM, answer);
    case _ =>
  }

  const ERROR_AFTER_TIMEOUT := [
    Start(Config(true, 10, false)),
    Timeout(0, Delivered),
    ErrorOccurs(0)]

  /** A run that timed out, is rejected with the error, and is never sent SIGKILL. */
  lemma ErrorAfterTimeoutDropsKill() returns (worlds: seq<World>)
    ensures IsHistory(worlds, ERROR_AFTER_TIMEOUT)
    ensures |worlds[3].runs| == 1 && worlds[3].runs[0].timedOut && worlds[3].runs[0].settled
    ensures KillDropped(worlds[2].runs[0], worlds[3].runs[0])
  {
    var w1 := Step(NO_RUNS, ERROR_AFTER_TIMEOUT[0]);
    var w2 := Step(w1, ERROR_AFTER_TIMEOUT[1]);
    var w3 := Step(w2, ERROR_AFTER_TIMEOUT[2]);
    worlds := [NO_RUNS, w1, w2, w3];
    assert w3.runs[0].log.issued == [Issued(SIGTERM, true)];
  }
}
