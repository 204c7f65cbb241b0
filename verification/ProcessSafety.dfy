/** Safety of the process supervisor over every interleaving of events of any number of
    concurrent runs. */
module ProcessSafety {
  import opened Text
  import opened ProcessOutput
  import opened ProcessMachine

  predicate KillIssued(r: Run) {
    exists k :: 0 <= k < |r.log.issued| && r.log.issued[k].signal == SIGKILL
  }

  /** The run's process group is known to be gone or has been sent SIGKILL. */
  predicate Ended(r: Run) { r.log.seenDead || KillIssued(r) }

  /** The run needs no more attention from the parent. */
  predicate Accounted(r: Run) { r.log.closed || r.log.errored || Ended(r) }

  // ----- one run

  /** The promise settles at most once, only after close or error. */
  predicate SettlesOnce(r: Run) {
    |r.log.outcomes| == (if r.settled then 1 else 0) &&
    (r.settled ==> (r.log.closed || r.log.errored) && !r.timeoutArmed && !r.handlersInstalled) &&
    (r.childClosedResult.Some? ==> r.log.closed)
  }

  /** A run that timed out is never resolved, and is only rejected for it once its process
      group is gone or has been sent SIGKILL. */
  predicate TimesOutSafely(r: Run) {
    (r.timedOut ==> r.waitingForKillGrace || KillIssued(r)) &&
    (forall o <- r.log.outcomes :: o.Resolved? ==> !r.timedOut) &&
    (forall o <- r.log.outcomes :: o == Rejected(TimedOut) ==> Ended(r))
  }

  /** A signal the parent has relayed: the run is done only when ended, and until it is
      done its forced kill is scheduled. */
  predicate RelaysSafely(r: Run) {
    (r.done ==> r.parentSignalPending.Some? && Ended(r)) &&
    (r.parentSignalPending.Some? ==> !r.handlersInstalled) &&
    (r.parentSignalPending.Some? && !r.done ==>
      r.killTimer == RelayKill(r.parentSignalPending.value) && r.waitingForKillGrace) &&
    (r.killTimer.RelayKill? ==> r.parentSignalPending == Some(r.killTimer.signal)) &&
    (r.killTimer != Unset ==> r.waitingForKillGrace) &&
    (r.parentSignalPending.None? && !r.settled ==> r.handlersInstalled)
  }

  /** Captured output is the tail of the output, and success carries all of it. */
  predicate CapturesOutput(r: Run) {
    r.streams.stdout == CaptureOf(r.streams.output, r.config.maxOutputChars) &&
    forall o <- r.log.outcomes :: o.Resolved? ==> r.log.closed && (o.code == 0 ==> o.stdout == r.streams.output)
  }

  predicate RunInv(r: Run) {
    SettlesOnce(r) && TimesOutSafely(r) && RelaysSafely(r) && CapturesOutput(r)
  }

  /** A run only moves forward. */
  predicate Later(r: Run, next: Run) {
    (r.settled ==> next.settled) && (r.timedOut ==> next.timedOut) &&
    (r.parentSignalPending.Some? ==> next.parentSignalPending == r.parentSignalPending && (r.done ==> next.done)) &&
    (Accounted(r) ==> Accounted(next)) &&
    r.log.outcomes <= next.log.outcomes
  }

  /** What every handler guarantees of its effect. */
  predicate GoodEffect(r: Run, e: Effect) {
    RunInv(e.run) && Later(r, e.run) &&
    (e.leaves <==> e.run.settled && !r.settled && e.run.parentSignalPending.None?) &&
    (e.reraise.Some? ==> e.run.done && e.reraise == e.run.parentSignalPending) &&
    (e.run.done && !r.done ==> e.reraise.Some?) &&
    (r.settled && r.parentSignalPending.None? ==> e.run.parentSignalPending.None?)
  }

  lemma IssuingKeeps(r: Run, signal: Signal, answer: KillAnswer)
    ensures var k := SignalChild(r, signal, answer);
      (KillIssued(r) || signal == SIGKILL ==> KillIssued(k)) &&
      k == r.(log := r.log.(issued := k.log.issued), streams := r.streams.(stderr := k.streams.stderr))
  {
    var k := SignalChild(r, signal, answer);
    if signal == SIGKILL {
      assert k.log.issued[|r.log.issued|].signal == SIGKILL;
    }
    if i :| 0 <= i < |r.log.issued| && r.log.issued[i].signal == SIGKILL {
      assert k.log.issued[i].signal == SIGKILL;
    }
  }

  lemma SettleKeeps(r: Run, outcome: Outcome)
    requires RunInv(r) && (r.log.closed || r.log.errored)
    requires outcome.Resolved? ==> !r.timedOut && r.log.closed && (outcome.code == 0 ==> outcome.stdout == r.streams.output)
    requires outcome == Rejected(TimedOut) ==> Ended(r)
    ensures GoodEffect(r, Settle(r, outcome))
  {
  }

  lemma FinishCloseKeeps(r: Run, exit: Exit)
    requires RunInv(r) && r.log.closed && (r.timedOut ==> Ended(r))
    ensures GoodEffect(r, FinishClose(r, exit))
  {
    SettleKeeps(r, CloseOutcome(r, exit));
  }

  lemma TimeoutKeeps(r: Run, answer: KillAnswer)
    requires RunInv(r) && r.timeoutArmed
    ensures GoodEffect(r, OnTimeout(r, answer))
  {
    IssuingKeeps(r.(timedOut := true, timeoutArmed := false), SIGTERM, answer);
  }

  lemma KilledKeeps(r: Run, answer: KillAnswer)
    requires RunInv(r) && (r.parentSignalPending.Some? ==> r.done)
    ensures var k := ForceKill(r, answer);
      RunInv(k) && Later(r, k) && KillIssued(k) && k.settled == r.settled && k.log.closed == r.log.closed
      && k.childClosedResult == r.childClosedResult && k.parentSignalPending == r.parentSignalPending && k.done == r.done
  {
    IssuingKeeps(r.(waitingForKillGrace := false, killTimer := Unset), SIGKILL, answer);
  }

  lemma RelayKillKeeps(r: Run, answer: KillAnswer)
    requires RunInv(r) && r.killTimer.RelayKill?
    ensures GoodEffect(r, OnKillTimer(r, answer)) && KillIssued(OnKillTimer(r, answer).run)
  {
    IssuingKeeps(r.(waitingForKillGrace := false, killTimer := Unset), SIGKILL, answer);
  }

  lemma KillTimerKeeps(r: Run, answer: KillAnswer)
    requires RunInv(r) && r.killTimer != Unset
    ensures GoodEffect(r, OnKillTimer(r, answer))
  {
    if r.killTimer.RelayKill? {
      RelayKillKeeps(r, answer);
    } else {
      KilledKeeps(r, answer);
      if r.childClosedResult.Some? {
        FinishCloseKeeps(ForceKill(r, answer), r.childClosedResult.value);
      }
    }
  }

  lemma RelayScheduledKeeps(r: Run, signal: Signal, issued: seq<Issued>, stderr: Capture)
    requires RunInv(r) && (KillIssued(r) ==> KillIssued(r.(log := r.log.(issued := issued))))
    ensures var k := r.(parentSignalPending := Some(signal), log := r.log.(issued := issued), streams := r.streams.(stderr := stderr), handlersInstalled := false,
                        waitingForKillGrace := true, killTimer := RelayKill(signal), done := false);
      r.parentSignalPending.None? ==> RunInv(k) && Later(r, k)
  {
  }

  lemma RelayDeadKeeps(r: Run, signal: Signal, issued: seq<Issued>, stderr: Capture)
    requires RunInv(r) && (KillIssued(r) ==> KillIssued(r.(log := r.log.(issued := issued)))) && !r.killTimer.RelayKill?
    ensures var k := r.(parentSignalPending := Some(signal), log := r.log.(issued := issued, seenDead := true), streams := r.streams.(stderr := stderr),
                        handlersInstalled := false, done := true);
      r.parentSignalPending.None? ==> RunInv(k) && Later(r, k)
  {
  }

  lemma ParentSignalKeeps(r: Run, signal: Signal, answer: KillAnswer, alive: bool)
    requires RunInv(r) && r.handlersInstalled
    ensures GoodEffect(r, OnParentSignal(r, signal, answer, alive))
    ensures OnParentSignal(r, signal, answer, alive).run.parentSignalPending == Some(signal)
  {
    var pending := r.(parentSignalPending := Some(signal), handlersInstalled := false);
    var k := SignalChild(pending, signal, answer);
    IssuingKeeps(pending, signal, answer);
    if GroupIsAlive(r, alive) {
      RelayScheduledKeeps(r, signal, k.log.issued, k.streams.stderr);
    } else {
      RelayDeadKeeps(r, signal, k.log.issued, k.streams.stderr);
    }
  }

  lemma OutputKeeps(r: Run, chunk: string)
    requires RunInv(r) && !r.log.closed
    ensures GoodEffect(r, OnStdout(r, chunk)) && GoodEffect(r, OnStderr(r, chunk))
  {
    CaptureGrows(r.streams.output, chunk, r.config.maxOutputChars);
  }

  lemma ErrorKeeps(r: Run)
    requires RunInv(r)
    ensures GoodEffect(r, OnError(r))
  {
    SettleKeeps(r.(log := r.log.(errored := true)), Rejected(ChildError));
  }

  /** Closing without settling. */
  lemma ClosedKeeps(r: Run, seenDead: bool)
    requires RunInv(r)
    ensures var c := r.(log := r.log.(closed := true, seenDead := r.log.seenDead || seenDead)); RunInv(c) && Later(r, c)
  {
  }

  lemma AwaitedCloseKeeps(r: Run, exit: Exit)
    requires RunInv(r)
    ensures var c := r.(log := r.log.(closed := true), childClosedResult := Some(exit)); RunInv(c) && Later(r, c)
  {
  }

  lemma RelayedCloseKeeps(r: Run)
    requires RunInv(r) && r.parentSignalPending.Some?
    ensures var c := r.(log := r.log.(closed := true, seenDead := true), killTimer := Unset, done := true); RunInv(c) && Later(r, c)
  {
  }

  lemma UnsignalledCloseKeeps(r: Run, exit: Exit, alive: bool)
    requires RunInv(r) && r.parentSignalPending.None? && !(r.waitingForKillGrace && GroupIsAlive(r, alive))
    ensures GoodEffect(r, OnClose(r, exit, alive))
  {
    var c := r.(log := r.log.(closed := true, seenDead := r.log.seenDead || r.waitingForKillGrace));
    ClosedKeeps(r, r.waitingForKillGrace);
    assert OnClose(r, exit, alive) == FinishClose(c, exit);
    FinishCloseKeeps(c, exit);
  }

  lemma CloseKeeps(r: Run, exit: Exit, alive: bool)
    requires RunInv(r) && !r.log.closed
    ensures GoodEffect(r, OnClose(r, exit, alive))
  {
    if GroupIsAlive(r, alive) && (r.parentSignalPending.Some? || r.waitingForKillGrace) {
      AwaitedCloseKeeps(r, exit);
    } else if r.parentSignalPending.Some? {
      RelayedCloseKeeps(r);
    } else {
      UnsignalledCloseKeeps(r, exit, alive);
    }
  }

  // ----- all runs together

  /** A run leaves the active set exactly when it settles without a relayed signal. */
  predicate ActiveExactly(w: World, i: nat)
    requires i < |w.runs|
  {
    i in w.active <==> !(w.runs[i].settled && w.runs[i].parentSignalPending.None?)
  }

  predicate WorldInv(w: World) {
    Indexed(w) && forall i: nat :: i < |w.runs| ==> RunInv(w.runs[i]) && ActiveExactly(w, i)
  }

  /** Every run ever started has closed, errored, been seen dead, or been sent SIGKILL. */
  predicate AllAccounted(w: World) {
    forall r <- w.runs :: Accounted(r)
  }

  /** Nothing moves backward, and a newly logged re-raise finds every run accounted for. */
  predicate GoodStep(w: World, next: World) {
    WorldInv(next) && |w.runs| <= |next.runs| && w.reraised <= next.reraised &&
    (forall i: nat :: i < |w.runs| ==> Later(w.runs[i], next.runs[i])) &&
    (next.reraised != w.reraised ==> AllAccounted(next))
  }

  lemma AllDoneAccounts(w: World)
    requires WorldInv(w) && AllDone(w)
    ensures AllAccounted(w)
  {
    forall r <- w.runs ensures Accounted(r) {
      var i: nat :| i < |w.runs| && w.runs[i] == r;
      assert ActiveExactly(w, i);
    }
  }

  lemma ApplyKeeps(w: World, i: nat, effect: Effect)
    requires WorldInv(w) && i < |w.runs| && GoodEffect(w.runs[i], effect)
    ensures GoodStep(w, Apply(w, i, effect))
  {
    var next := Apply(w, i, effect);
    assert ActiveExactly(w, i);
    forall j: nat | j < |next.runs| ensures RunInv(next.runs[j]) && ActiveExactly(next, j) {
      assert ActiveExactly(w, j);
    }
    if next.reraised != w.reraised {
      AllDoneAccounts(next);
    }
  }

  lemma GoodStepsCompose(w: World, mid: World, next: World)
    requires GoodStep(w, mid) && GoodStep(mid, next) && |mid.runs| == |next.runs|
    ensures GoodStep(w, next)
  {
    if mid.reraised != w.reraised {
      forall i: nat | i < |next.runs| ensures Accounted(next.runs[i]) {
        assert mid.runs[i] in mid.runs;
        assert Later(mid.runs[i], next.runs[i]);
      }
    }
  }

  lemma RelayOneKeeps(w: World, signal: Signal, answer: Answer, i: nat)
    requires WorldInv(w) && i < |w.runs|
    ensures GoodStep(w, RelayOne(w, signal, answer, i))
  {
    if w.runs[i].handlersInstalled {
      ParentSignalKeeps(w.runs[i], signal, answer.kill, answer.alive);
      ApplyKeeps(w, i, OnParentSignal(w.runs[i], signal, answer.kill, answer.alive));
    }
  }

  lemma {:induction false} RelayKeeps(w: World, signal: Signal, answers: seq<Answer>, i: nat)
    requires WorldInv(w) && |answers| == |w.runs| && i <= |w.runs|
    ensures GoodStep(w, Relay(w, signal, answers, i))
    decreases |w.runs| - i
  {
    if i < |w.runs| {
      var mid := RelayOne(w, signal, answers[i], i);
      RelayOneKeeps(w, signal, answers[i], i);
      RelayKeeps(mid, signal, answers, i + 1);
      GoodStepsCompose(w, mid, Relay(mid, signal, answers, i + 1));
    }
  }

  lemma StartKeeps(w: World, config: Config)
    requires WorldInv(w)
    ensures GoodStep(w, World(w.runs + [NewRun(config)], w.active + {|w.runs|}, w.reraised))
  {
    var next := World(w.runs + [NewRun(config)], w.active + {|w.runs|}, w.reraised);
    forall j: nat | j < |next.runs| ensures RunInv(next.runs[j]) && ActiveExactly(next, j) {
      if j < |w.runs| { assert ActiveExactly(w, j); }
    }
  }

  /** The effect of the handler that an event of a single run triggers. */
  function EffectOf(r: Run, e: Event): Effect {
    match e
    case Timeout(_, kill) => OnTimeout(r, kill)
    case KillTimerFires(_, kill) => OnKillTimer(r, kill)
    case Stdout(_, chunk) => OnStdout(r, chunk)
    case Stderr(_, chunk) => OnStderr(r, chunk)
    case ErrorOccurs(_) => OnError(r)
    case Close(_, exit, alive) => OnClose(r, exit, alive)
    case _ => Only(r)
  }

  predicate OfOneRun(e: Event) { !e.Start? && !e.ParentSignal? }

  lemma HandlerKeeps(w: World, e: Event)
    requires WorldInv(w) && Enabled(w, e) && OfOneRun(e)
    ensures Step(w, e) == Apply(w, e.run, EffectOf(w.runs[e.run], e))
    ensures GoodEffect(w.runs[e.run], EffectOf(w.runs[e.run], e))
  {
    var r := w.runs[e.run];
    match e
    case Timeout(_, kill) => TimeoutKeeps(r, kill);
    case KillTimerFires(_, kill) => KillTimerKeeps(r, kill);
    case Stdout(_, chunk) => OutputKeeps(r, chunk);
    case Stderr(_, chunk) => OutputKeeps(r, chunk);
    case ErrorOccurs(_) => ErrorKeeps(r);
    case Close(_, exit, alive) => CloseKeeps(r, exit, alive);
    case _ =>
  }

  lemma StepKeeps(w: World, e: Event)
    requires WorldInv(w) && Enabled(w, e)
    ensures GoodStep(w, Step(w, e))
  {
    match e
    case Start(config) => StartKeeps(w, config);
    case ParentSignal(signal, answers) => RelayKeeps(w, signal, answers, 0);
    case _ =>
      HandlerKeeps(w, e);
      ApplyKeeps(w, e.run, EffectOf(w.runs[e.run], e));
  }

  lemma {:induction false} HistoryKeeps(worlds: seq<World>, events: seq<Event>, k: nat)
    requires IsHistory(worlds, events) && k <= |events|
    ensures WorldInv(worlds[k])
  {
    if k > 0 {
      HistoryKeeps(worlds, events, k - 1);
      assert StepsTo(worlds[k - 1], events[k - 1], worlds[k]);
      StepKeeps(worlds[k - 1], events[k - 1]);
    }
  }

  lemma {:induction false} HistoryGrows(worlds: seq<World>, events: seq<Event>, k: nat, m: nat, i: nat)
    requires IsHistory(worlds, events) && k <= m <= |events| && i < |worlds[k].runs|
    ensures i < |worlds[m].runs| && Later(worlds[k].runs[i], worlds[m].runs[i])
    decreases m
  {
    if k < m {
      HistoryGrows(worlds, events, k, m - 1, i);
      HistoryKeeps(worlds, events, m - 1);
      assert StepsTo(worlds[m - 1], events[m - 1], worlds[m]);
      StepKeeps(worlds[m - 1], events[m - 1]);
    }
  }

  /** In every history: a promise settles at most once and its outcome never changes; a run
      that has timed out never resolves, and is rejected for the timeout only after its
      group was seen dead or sent SIGKILL; and a run resolved with code 0 carries the
      complete output. */
  lemma PromisesAreSafe(worlds: seq<World>, events: seq<Event>, k: nat, m: nat, i: nat)
    requires IsHistory(worlds, events) && k <= m <= |events| && i < |worlds[k].runs|
    ensures i < |worlds[m].runs| && |worlds[m].runs[i].log.outcomes| <= 1
    ensures worlds[k].runs[i].log.outcomes <= worlds[m].runs[i].log.outcomes
    ensures worlds[k].runs[i].timedOut ==> forall o <- worlds[m].runs[i].log.outcomes :: !o.Resolved?
    ensures forall o <- worlds[m].runs[i].log.outcomes :: o == Rejected(TimedOut) ==>
              worlds[m].runs[i].log.seenDead || exists n :: 0 <= n < |worlds[m].runs[i].log.issued| && worlds[m].runs[i].log.issued[n].signal == SIGKILL
    ensures forall o <- worlds[m].runs[i].log.outcomes :: o.Resolved? && o.code == 0 ==> o.stdout == worlds[m].runs[i].streams.output
  {
    HistoryKeeps(worlds, events, m);
    HistoryGrows(worlds, events, k, m, i);
  }

  /** In every history: when the parent re-raises its signal, every run ever started has
      closed, errored, been seen dead, or been sent SIGKILL. */
  lemma ReraiseFindsAllAccounted(worlds: seq<World>, events: seq<Event>, k: nat)
    requires IsHistory(worlds, events) && k < |events| && worlds[k + 1].reraised != worlds[k].reraised
    ensures forall r <- worlds[k + 1].runs ::
              r.log.closed || r.log.errored || r.log.seenDead || exists n :: 0 <= n < |r.log.issued| && r.log.issued[n].signal == SIGKILL
  {
    HistoryKeeps(worlds, events, k);
    assert StepsTo(worlds[k], events[k], worlds[k + 1]);
    StepKeeps(worlds[k], events[k]);
    assert forall r <- worlds[k + 1].runs :: Accounted(r);
  }

  /** In every history: until a signalled run is done, its forced kill stays scheduled. */
  lemma RelayStaysScheduled(worlds: seq<World>, events: seq<Event>, k: nat, i: nat)
    requires IsHistory(worlds, events) && k <= |events| && i < |worlds[k].runs|
    ensures var r := worlds[k].runs[i];
      r.parentSignalPending.Some? && !r.done ==> r.killTimer == RelayKill(r.parentSignalPending.value)
  {
    HistoryKeeps(worlds, events, k);
  }
}
