/** Which outcome a run's promise gets, which signals its child is sent, and which signal the
    parent raises again, in terms of what the environment delivered. */
module ProcessOutcomes {
  import opened Text
  import opened ProcessOutput
  import opened ProcessMachine
  import opened ProcessSafety
  import opened ProcessProgress

  // ----- what each handler leaves as it was

  /** Two states of a run that differ at most in settling, waiting and the given marks. */
  predicate Alike(r: Run, next: Run, timedOut: bool, issued: seq<Issued>, remembered: Option<Exit>) {
    next.config == r.config && next.timedOut == timedOut && next.parentSignalPending == r.parentSignalPending &&
    next.log.issued == issued && next.childClosedResult == remembered
  }

  lemma SettleFrame(r: Run, o: Outcome)
    ensures var next := Settle(r, o).run;
      Alike(r, next, r.timedOut, r.log.issued, r.childClosedResult) && next.streams == r.streams && next.log.closed == r.log.closed
  {
  }

  lemma SendFrame(r: Run, signal: Signal, answer: KillAnswer)
    ensures var next := SignalChild(r, signal, answer);
      Alike(r, next, r.timedOut, r.log.issued + [Issued(signal, r.config.hasPid && answer.Delivered?)], r.childClosedResult) &&
      next.log.closed == r.log.closed && next.streams.output == r.streams.output && next.streams.stdout == r.streams.stdout
  {
  }

  lemma TimeoutFrame(r: Run, answer: KillAnswer)
    ensures var next := OnTimeout(r, answer).run;
      Alike(r, next, true, r.log.issued + [Issued(SIGTERM, r.config.hasPid && answer.Delivered?)], r.childClosedResult) &&
      next.log.closed == r.log.closed && next.streams.output == r.streams.output
  {
    SendFrame(r.(timedOut := true, timeoutArmed := false), SIGTERM, answer);
  }

  lemma ForceKillFrame(r: Run, answer: KillAnswer)
    ensures var next := ForceKill(r, answer);
      Alike(r, next, r.timedOut, r.log.issued + [Issued(SIGKILL, r.config.hasPid && answer.Delivered?)], r.childClosedResult) &&
      next.log.closed == r.log.closed && next.streams.output == r.streams.output && next.streams.stdout == r.streams.stdout &&
      next.settled == r.settled && next.log.outcomes == r.log.outcomes
  {
    SendFrame(r.(waitingForKillGrace := false, killTimer := Unset), SIGKILL, answer);
  }

  lemma KillTimerFrame(r: Run, answer: KillAnswer)
    ensures var next := OnKillTimer(r, answer).run;
      Alike(r, next, r.timedOut, r.log.issued + [Issued(SIGKILL, r.config.hasPid && answer.Delivered?)], r.childClosedResult) &&
      next.log.closed == r.log.closed && next.streams.output == r.streams.output
  {
    var killed := ForceKill(r, answer);
    ForceKillFrame(r, answer);
    if !r.killTimer.RelayKill? && r.childClosedResult.Some? {
      SettleFrame(killed, CloseOutcome(killed, r.childClosedResult.value));
    }
  }

  /** The run at its close, before anything else is decided. */
  function AtClose(r: Run, alive: bool): Run {
    var probed := r.parentSignalPending.Some? || r.waitingForKillGrace;
    r.(log := r.log.(closed := true, seenDead := r.log.seenDead || (probed && !GroupIsAlive(r, alive))))
  }

  predicate Awaits(r: Run, alive: bool) {
    (r.parentSignalPending.Some? || r.waitingForKillGrace) && GroupIsAlive(r, alive)
  }

  lemma CloseFrame(r: Run, exit: Exit, alive: bool)
    ensures var next := OnClose(r, exit, alive).run;
      Alike(r, next, r.timedOut, r.log.issued, if Awaits(r, alive) then Some(exit) else r.childClosedResult) &&
      next.log.closed && next.streams == r.streams
  {
    SettleFrame(AtClose(r, alive), CloseOutcome(AtClose(r, alive), exit));
  }

  // ----- the outcome of a close

  /** The child exited cleanly: with a code, and the code is 0. */
  predicate Clean(exit: Exit) { exit.code == Some(0) }

  /** What a close with this exit amounts to, for a run that wrote `output` to stdout. */
  predicate Describes(config: Config, timedOut: bool, output: string, exit: Exit, o: Outcome) {
    && (o == Rejected(TimedOut) <==> timedOut)
    && (o == Rejected(Failed) <==> !timedOut && config.rejectOnFailure && !Clean(exit))
    && (o == Rejected(TooMuchOutput) <==> !timedOut && Clean(exit) && |output| > config.maxOutputChars)
    && (o.Resolved? <==> !timedOut && if Clean(exit) then |output| <= config.maxOutputChars else !config.rejectOnFailure)
    && (o.Resolved? ==> o.code == (if exit.code.Some? then exit.code.value else 1) && o.stdout == Tail(output, config.maxOutputChars))
  }

  /** What the event, if it settles the run, settles it with. */
  predicate SettledBy(r: Run, e: Event, o: Outcome) {
    match e
    case ErrorOccurs(_) => o == Rejected(ChildError)
    case Close(_, exit, _) => Describes(r.config, r.timedOut, r.streams.output, exit, o)
    case KillTimerFires(_, _) =>
      r.childClosedResult.Some? && Describes(r.config, r.timedOut, r.streams.output, r.childClosedResult.value, o)
    case _ => false
  }

  lemma CloseOutcomeDescribes(r: Run, exit: Exit)
    requires CapturesOutput(r)
    ensures Describes(r.config, r.timedOut, r.streams.output, exit, CloseOutcome(r, exit))
  {
  }

  lemma FinishCloseSettles(r: Run, exit: Exit)
    requires RunInv(r)
    ensures var next := FinishClose(r, exit).run;
      if r.settled then next.log.outcomes == r.log.outcomes
      else next.settled && |next.log.outcomes| == 1 && Describes(r.config, r.timedOut, r.streams.output, exit, next.log.outcomes[0])
  {
    CloseOutcomeDescribes(r, exit);
  }

  lemma CloseSettlesRightly(r: Run, exit: Exit, alive: bool)
    requires RunInv(r)
    ensures var next := OnClose(r, exit, alive).run;
      if next.settled && !r.settled
      then |next.log.outcomes| == 1 && Describes(r.config, r.timedOut, r.streams.output, exit, next.log.outcomes[0])
      else next.log.outcomes == r.log.outcomes && next.settled == r.settled
  {
    var closed := AtClose(r, alive);
    ClosedKeeps(r, (r.parentSignalPending.Some? || r.waitingForKillGrace) && !GroupIsAlive(r, alive));
    FinishCloseSettles(closed, exit);
  }

  lemma KillTimerSettlesRightly(r: Run, answer: KillAnswer)
    requires RunInv(r) && r.killTimer != Unset
    ensures var next := OnKillTimer(r, answer).run;
      if next.settled && !r.settled
      then r.childClosedResult.Some? && |next.log.outcomes| == 1 &&
           Describes(r.config, r.timedOut, r.streams.output, r.childClosedResult.value, next.log.outcomes[0])
      else next.log.outcomes == r.log.outcomes && next.settled == r.settled
  {
    var killed := ForceKill(r, answer);
    ForceKillFrame(r, answer);
    if !r.killTimer.RelayKill? && r.childClosedResult.Some? {
      CloseOutcomeDescribes(killed, r.childClosedResult.value);
      assert OnKillTimer(r, answer) == Settle(killed, CloseOutcome(killed, r.childClosedResult.value));
    }
  }

  /** Whatever event settles a run settles it with the outcome the event calls for. */
  lemma SettlesRightly(r: Run, e: Event)
    requires RunInv(r) && OfOneRun(e) && MayHandle(r, e)
    ensures var next := EffectOf(r, e).run;
      if next.settled && !r.settled then |next.log.outcomes| == 1 && SettledBy(r, e, next.log.outcomes[0])
      else next.log.outcomes == r.log.outcomes && next.settled == r.settled
  {
    match e
    case Close(_, exit, alive) => CloseSettlesRightly(r, exit, alive);
    case KillTimerFires(_, answer) => KillTimerSettlesRightly(r, answer);
    case _ =>
  }

  /** Nothing that the outcome depends on differs. */
  predicate SamePromise(r: Run, next: Run) {
    next.config == r.config && next.timedOut == r.timedOut && next.streams.output == r.streams.output &&
    next.childClosedResult == r.childClosedResult && next.settled == r.settled && next.log.outcomes == r.log.outcomes
  }

  lemma ParentSignalSamePromise(r: Run, signal: Signal, answer: KillAnswer, alive: bool)
    ensures SamePromise(r, OnParentSignal(r, signal, answer, alive).run)
  {
  }

  // ----- over whole histories

  /** Event `j` closed run `i` with this exit. */
  predicate Closed(events: seq<Event>, j: nat, i: nat, exit: Exit) {
    j < |events| && events[j].Close? && events[j].run == i && events[j].exit == exit
  }

  predicate Errored(events: seq<Event>, j: nat, i: nat) {
    j < |events| && events[j].ErrorOccurs? && events[j].run == i
  }

  /** A remembered exit was delivered, and so was what settled the promise. */
  ghost predicate Explained(events: seq<Event>, i: nat, r: Run) {
    && (r.childClosedResult.Some? ==> exists j :: Closed(events, j, i, r.childClosedResult.value))
    && (r.settled ==> |r.log.outcomes| == 1 && SettlementExplained(events, i, r))
  }

  ghost predicate SettlementExplained(events: seq<Event>, i: nat, r: Run)
    requires |r.log.outcomes| == 1
  {
    || (r.log.outcomes[0] == Rejected(ChildError) && exists j :: Errored(events, j, i))
    || (r.log.closed && exists j, exit :: ClosedInto(events, j, i, exit, r))
  }

  /** Event `j` closed the run with this exit, and the outcome is the one it calls for. */
  predicate ClosedInto(events: seq<Event>, j: nat, i: nat, exit: Exit, r: Run)
    requires |r.log.outcomes| == 1
  {
    Closed(events, j, i, exit) && Describes(r.config, r.timedOut, r.streams.output, exit, r.log.outcomes[0])
  }

  lemma ExplainedLater(events: seq<Event>, e: Event, i: nat, r: Run)
    requires Explained(events, i, r)
    ensures Explained(events + [e], i, r)
  {
    if j :| Errored(events, j, i) { assert Errored(events + [e], j, i); }
    if r.childClosedResult.Some? {
      var j :| Closed(events, j, i, r.childClosedResult.value);
      assert Closed(events + [e], j, i, r.childClosedResult.value);
    }
    if r.settled && r.log.closed {
      if j, exit :| ClosedInto(events, j, i, exit, r) {
        assert ClosedInto(events + [e], j, i, exit, r);
      }
    }
  }

  lemma ExplainedSame(events: seq<Event>, i: nat, r: Run, next: Run)
    requires Explained(events, i, r) && SamePromise(r, next) && (r.log.closed ==> next.log.closed)
    ensures Explained(events, i, next)
  {
    if r.settled && r.log.closed {
      if j, exit :| ClosedInto(events, j, i, exit, r) { assert ClosedInto(events, j, i, exit, next); }
    }
  }

  /** The signals an event sends to the child of its run. */
  function SentBy(r: Run, e: Event): seq<Issued> {
    match e
    case Timeout(_, kill) => [Issued(SIGTERM, r.config.hasPid && kill.Delivered?)]
    case KillTimerFires(_, kill) => [Issued(SIGKILL, r.config.hasPid && kill.Delivered?)]
    case _ => []
  }

  /** What the handler of an event changes of what the outcome depends on. */
  predicate Framed(r: Run, e: Event, next: Run) {
    Alike(r, next, r.timedOut || e.Timeout?, r.log.issued + SentBy(r, e),
          if e.Close? && Awaits(r, e.alive) then Some(e.exit) else r.childClosedResult) &&
    next.log.closed == (r.log.closed || e.Close?) &&
    (!e.Stdout? ==> next.streams.output == r.streams.output)
  }

  lemma TimeoutFramed(r: Run, e: Event)
    requires e.Timeout?
    ensures Framed(r, e, OnTimeout(r, e.kill).run)
  {
    TimeoutFrame(r, e.kill);
  }

  lemma KillTimerFramed(r: Run, e: Event)
    requires e.KillTimerFires?
    ensures Framed(r, e, OnKillTimer(r, e.kill).run)
  {
    KillTimerFrame(r, e.kill);
  }

  lemma CloseFramed(r: Run, e: Event)
    requires e.Close?
    ensures Framed(r, e, OnClose(r, e.exit, e.alive).run)
  {
    CloseFrame(r, e.exit, e.alive);
    assert r.log.issued + [] == r.log.issued;
  }

  lemma ErrorFramed(r: Run, e: Event)
    requires e.ErrorOccurs?
    ensures Framed(r, e, OnError(r).run)
  {
    SettleFrame(r.(log := r.log.(errored := true)), Rejected(ChildError));
    assert r.log.issued + [] == r.log.issued;
  }

  lemma OutputFramed(r: Run, e: Event)
    ensures e.Stdout? ==> Framed(r, e, OnStdout(r, e.chunk).run)
    ensures e.Stderr? ==> Framed(r, e, OnStderr(r, e.chunk).run)
  {
    assert r.log.issued + [] == r.log.issued;
  }

  lemma HandlerFrame(r: Run, e: Event)
    requires OfOneRun(e) && MayHandle(r, e)
    ensures Framed(r, e, EffectOf(r, e).run)
  {
    match e
    case Timeout(_, _) => TimeoutFramed(r, e);
    case KillTimerFires(_, _) => KillTimerFramed(r, e);
    case Close(_, _, _) => CloseFramed(r, e);
    case ErrorOccurs(_) => ErrorFramed(r, e);
    case _ => OutputFramed(r, e);
  }

  lemma UnsettledStep(r: Run, e: Event)
    requires RunInv(r) && OfOneRun(e) && MayHandle(r, e)
    ensures var next := EffectOf(r, e).run;
      next.config == r.config && (r.log.closed ==> next.log.closed) &&
      (r.settled ==> next.timedOut == r.timedOut && (r.log.closed ==> next.streams.output == r.streams.output)) &&
      (next.childClosedResult != r.childClosedResult ==> e.Close? && next.childClosedResult == Some(e.exit))
  {
    HandlerFrame(r, e);
  }

  /** What a settling event leaves as it was. */
  lemma SettlingStep(r: Run, e: Event)
    requires RunInv(r) && OfOneRun(e) && MayHandle(r, e) && !r.settled && EffectOf(r, e).run.settled
    ensures var next := EffectOf(r, e).run;
      next.timedOut == r.timedOut && next.streams.output == r.streams.output && (!e.ErrorOccurs? ==> next.log.closed)
  {
    HandlerFrame(r, e);
    SettlesRightly(r, e);
  }

  lemma HandlerExplained(events: seq<Event>, e: Event, r: Run)
    requires RunInv(r) && OfOneRun(e) && MayHandle(r, e) && Explained(events, e.run, r)
    ensures Explained(events + [e], e.run, EffectOf(r, e).run)
  {
    var all, next, n := events + [e], EffectOf(r, e).run, |events|;
    ExplainedLater(events, e, e.run, r);
    SettlesRightly(r, e);
    UnsettledStep(r, e);
    if e.Close? { assert Closed(all, n, e.run, e.exit); }
    if r.settled && r.log.closed {
      if j, exit :| ClosedInto(all, j, e.run, exit, r) { assert ClosedInto(all, j, e.run, exit, next); }
    }
    if next.settled && !r.settled {
      SettlingStep(r, e);
      if e.ErrorOccurs? {
        assert Errored(all, n, e.run);
      } else if e.Close? {
        assert ClosedInto(all, n, e.run, e.exit, next);
      } else {
        var j :| Closed(all, j, e.run, r.childClosedResult.value);
        assert ClosedInto(all, j, e.run, r.childClosedResult.value, next);
      }
    }
  }

  ghost predicate AllExplained(events: seq<Event>, w: World) {
    forall i: nat :: i < |w.runs| ==> Explained(events, i, w.runs[i])
  }

  lemma {:induction false} RelayExplained(events: seq<Event>, w: World, signal: Signal, answers: seq<Answer>, i: nat)
    requires Indexed(w) && AllExplained(events, w) && |answers| == |w.runs| && i <= |w.runs|
    ensures AllExplained(events, Relay(w, signal, answers, i))
    decreases |w.runs| - i
  {
    if i < |w.runs| {
      var next := RelayOne(w, signal, answers[i], i);
      ParentSignalSamePromise(w.runs[i], signal, answers[i].kill, answers[i].alive);
      forall j: nat | j < |next.runs| ensures Explained(events, j, next.runs[j]) {
        ExplainedSame(events, j, w.runs[j], next.runs[j]);
      }
      RelayExplained(events, next, signal, answers, i + 1);
    }
  }

  lemma StepExplained(events: seq<Event>, w: World, e: Event)
    requires WorldInv(w) && Enabled(w, e) && AllExplained(events, w)
    ensures AllExplained(events + [e], Step(w, e))
  {
    forall i: nat | i < |w.runs| ensures Explained(events + [e], i, w.runs[i]) { ExplainedLater(events, e, i, w.runs[i]); }
    match e
    case Start(_) =>
    case ParentSignal(signal, answers) => RelayExplained(events + [e], w, signal, answers, 0);
    case _ =>
      HandlerKeeps(w, e);
      HandlerExplained(events, e, w.runs[e.run]);
  }

  lemma {:induction false} HistoryExplained(worlds: seq<World>, events: seq<Event>, k: nat)
    requires IsHistory(worlds, events) && k <= |events|
    ensures AllExplained(events[..k], worlds[k])
  {
    if k > 0 {
      HistoryExplained(worlds, events, k - 1);
      HistoryKeeps(worlds, events, k - 1);
      assert StepsTo(worlds[k - 1], events[k - 1], worlds[k]);
      StepExplained(events[..k - 1], worlds[k - 1], events[k - 1]);
      assert events[..k] == events[..k - 1] + [events[k - 1]];
    }
  }

  /** In every history: a settled promise was rejected by the child's error event, or has the
      outcome that the exit of the child's close event calls for, given whether the run timed
      out and all that was written to stdout. */
  lemma OutcomesAreRight(worlds: seq<World>, events: seq<Event>, k: nat, i: nat)
    requires IsHistory(worlds, events) && k <= |events| && i < |worlds[k].runs| && worlds[k].runs[i].settled
    ensures var r := worlds[k].runs[i];
      |r.log.outcomes| == 1 && SettlementExplained(events[..k], i, r)
  {
    HistoryExplained(worlds, events, k);
    assert Explained(events[..k], i, worlds[k].runs[i]);
  }

  // ----- signals to the child

  lemma SignalsSent(r: Run, e: Event)
    requires OfOneRun(e) && MayHandle(r, e)
    ensures EffectOf(r, e).run.log.issued == r.log.issued + SentBy(r, e)
  {
    HandlerFrame(r, e);
  }

  /** A parent signal is passed on as it is; the run is done with it at once exactly when its
      group is dead, and otherwise the forced kill is scheduled. */
  lemma SignalPassedOn(r: Run, signal: Signal, answer: KillAnswer, alive: bool)
    requires RunInv(r) && r.handlersInstalled && r.parentSignalPending.None?
    ensures var next := OnParentSignal(r, signal, answer, alive).run;
      next.log.issued == r.log.issued + [Issued(signal, r.config.hasPid && answer.Delivered?)] &&
      next.parentSignalPending == Some(signal) &&
      if r.config.hasPid && alive then !next.done && next.killTimer == RelayKill(signal)
      else next.done && next.killTimer == r.killTimer
  {
  }

  /** A run with a relayed signal becomes done by its kill timer, and by the close of its
      child exactly when its group is dead by then. */
  lemma RelayedRunDone(r: Run, e: Event)
    requires RunInv(r) && OfOneRun(e) && MayHandle(r, e) && r.parentSignalPending.Some? && !r.done
    ensures EffectOf(r, e).run.done <==> e.KillTimerFires? || (e.Close? && !(r.config.hasPid && e.alive))
  {
  }

  /** Each signal sent is SIGKILL, SIGTERM after a timeout, or the relayed signal; and a
      timed-out run was sent SIGTERM, a signalled one its signal. */
  ghost predicate SentRightly(r: Run) {
    && (forall x <- r.log.issued :: x.signal == SIGKILL || (x.signal == SIGTERM && r.timedOut) || r.parentSignalPending == Some(x.signal))
    && (r.timedOut ==> Sent(r, SIGTERM))
    && (r.parentSignalPending.Some? ==> Sent(r, r.parentSignalPending.value))
  }

  ghost predicate Sent(r: Run, signal: Signal) { exists x <- r.log.issued :: x.signal == signal }

  lemma SentLater(r: Run, next: Run, more: seq<Issued>, signal: Signal)
    requires next.log.issued == r.log.issued + more && (Sent(r, signal) || exists x <- more :: x.signal == signal)
    ensures Sent(next, signal)
  {
    if x :| x in r.log.issued && x.signal == signal { assert x in next.log.issued; }
    if x :| x in more && x.signal == signal { assert x in next.log.issued; }
  }

  lemma HandlerSendsRightly(r: Run, e: Event)
    requires RunInv(r) && SentRightly(r) && OfOneRun(e) && MayHandle(r, e)
    ensures SentRightly(EffectOf(r, e).run)
  {
    var next := EffectOf(r, e).run;
    HandlerFrame(r, e);
    var more := SentBy(r, e);
    if e.Timeout? { assert more[0] in more && more[0].signal == SIGTERM; }
    if next.timedOut { SentLater(r, next, more, SIGTERM); }
    if next.parentSignalPending.Some? { SentLater(r, next, more, next.parentSignalPending.value); }
  }

  lemma ParentSignalSendsRightly(r: Run, signal: Signal, answer: KillAnswer, alive: bool)
    requires RunInv(r) && SentRightly(r) && r.handlersInstalled && r.parentSignalPending.None?
    ensures SentRightly(OnParentSignal(r, signal, answer, alive).run)
  {
    var next := OnParentSignal(r, signal, answer, alive).run;
    SignalPassedOn(r, signal, answer, alive);
    var more := next.log.issued[|r.log.issued|..];
    assert next.log.issued == r.log.issued + more && more[0] in more;
    SentLater(r, next, more, signal);
    if r.timedOut { SentLater(r, next, more, SIGTERM); }
  }

  ghost predicate AllSendRightly(w: World) { forall i: nat :: i < |w.runs| ==> SentRightly(w.runs[i]) }

  lemma ApplySendsRightly(w: World, i: nat, effect: Effect)
    requires Indexed(w) && AllSendRightly(w) && i < |w.runs| && SentRightly(effect.run)
    ensures AllSendRightly(Apply(w, i, effect))
  {
  }

  lemma RelayOneSendsRightly(w: World, signal: Signal, answer: Answer, i: nat)
    requires WorldInv(w) && AllSendRightly(w) && i < |w.runs|
    ensures AllSendRightly(RelayOne(w, signal, answer, i))
  {
    if w.runs[i].handlersInstalled {
      assert RunInv(w.runs[i]) && SentRightly(w.runs[i]);
      ParentSignalSendsRightly(w.runs[i], signal, answer.kill, answer.alive);
      ApplySendsRightly(w, i, OnParentSignal(w.runs[i], signal, answer.kill, answer.alive));
    }
  }

  lemma {:induction false} RelaySendsRightly(w: World, signal: Signal, answers: seq<Answer>, i: nat)
    requires WorldInv(w) && AllSendRightly(w) && |answers| == |w.runs| && i <= |w.runs|
    ensures AllSendRightly(Relay(w, signal, answers, i))
    decreases |w.runs| - i
  {
    if i < |w.runs| {
      RelayOneKeeps(w, signal, answers[i], i);
      RelayOneSendsRightly(w, signal, answers[i], i);
      RelaySendsRightly(RelayOne(w, signal, answers[i], i), signal, answers, i + 1);
    }
  }

  /** In every history every run is sent exactly the signals it should be. */
  lemma {:induction false} SignalsAreRight(worlds: seq<World>, events: seq<Event>, k: nat)
    requires IsHistory(worlds, events) && k <= |events|
    ensures AllSendRightly(worlds[k])
  {
    if k > 0 {
      var w, e := worlds[k - 1], events[k - 1];
      SignalsAreRight(worlds, events, k - 1);
      HistoryKeeps(worlds, events, k - 1);
      assert StepsTo(w, e, worlds[k]);
      match e
      case Start(_) =>
      case ParentSignal(signal, answers) => RelaySendsRightly(w, signal, answers, 0);
      case _ =>
        HandlerKeeps(w, e);
        HandlerSendsRightly(w.runs[e.run], e);
        ApplySendsRightly(w, e.run, EffectOf(w.runs[e.run], e));
    }
  }

  // ----- the signal raised again

  /** The parent received the signal. */
  ghost predicate Received(events: seq<Event>, signal: Signal) {
    exists e <- events :: e.ParentSignal? && e.signal == signal
  }

  ghost predicate OnlyReceived(events: seq<Event>, w: World) {
    && (forall i: nat :: i < |w.runs| && w.runs[i].parentSignalPending.Some? ==> Received(events, w.runs[i].parentSignalPending.value))
    && (forall signal <- w.reraised :: Received(events, signal))
  }

  lemma ReceivedLater(events: seq<Event>, e: Event, w: World)
    requires OnlyReceived(events, w)
    ensures OnlyReceived(events + [e], w)
  {
    forall signal | Received(events, signal) ensures Received(events + [e], signal) {
      var x :| x in events && x.ParentSignal? && x.signal == signal;
      assert x in events + [e];
    }
  }

  lemma ApplyOnlyReceived(events: seq<Event>, w: World, i: nat, effect: Effect)
    requires WorldInv(w) && i < |w.runs| && GoodEffect(w.runs[i], effect) && OnlyReceived(events, w)
    requires effect.run.parentSignalPending.Some? ==> Received(events, effect.run.parentSignalPending.value)
    ensures OnlyReceived(events, Apply(w, i, effect))
  {
  }

  lemma {:induction false} RelayOnlyReceived(events: seq<Event>, w: World, signal: Signal, answers: seq<Answer>, i: nat)
    requires WorldInv(w) && OnlyReceived(events, w) && Received(events, signal) && |answers| == |w.runs| && i <= |w.runs|
    ensures OnlyReceived(events, Relay(w, signal, answers, i))
    decreases |w.runs| - i
  {
    if i < |w.runs| {
      RelayOneKeeps(w, signal, answers[i], i);
      if w.runs[i].handlersInstalled {
        ParentSignalKeeps(w.runs[i], signal, answers[i].kill, answers[i].alive);
        ApplyOnlyReceived(events, w, i, OnParentSignal(w.runs[i], signal, answers[i].kill, answers[i].alive));
      }
      RelayOnlyReceived(events, RelayOne(w, signal, answers[i], i), signal, answers, i + 1);
    }
  }

  lemma {:induction false} ReraisedWereReceived(worlds: seq<World>, events: seq<Event>, k: nat)
    requires IsHistory(worlds, events) && k <= |events|
    ensures OnlyReceived(events[..k], worlds[k])
  {
    if k > 0 {
      var w, e := worlds[k - 1], events[k - 1];
      ReraisedWereReceived(worlds, events, k - 1);
      HistoryKeeps(worlds, events, k - 1);
      assert StepsTo(w, e, worlds[k]);
      assert events[..k] == events[..k - 1] + [e];
      ReceivedLater(events[..k - 1], e, w);
      match e
      case Start(_) =>
      case ParentSignal(signal, answers) =>
        assert e in events[..k];
        RelayOnlyReceived(events[..k], w, signal, answers, 0);
      case _ =>
        HandlerKeeps(w, e);
        HandlerFrame(w.runs[e.run], e);
        ApplyOnlyReceived(events[..k], w, e.run, EffectOf(w.runs[e.run], e));
    }
  }

  // ----- captured stderr

  /** What an event adds to the captured stderr: a chunk, or the refusal of a signal. */
  function StderrText(r: Run, e: Event): string {
    match e
    case Stderr(_, chunk) => chunk
    case Timeout(_, kill) => if r.config.hasPid && kill.Refused? then kill.message else ""
    case KillTimerFires(_, kill) => if r.config.hasPid && kill.Refused? then kill.message else ""
    case _ => ""
  }

  lemma RefusalGrows(r: Run, signal: Signal, answer: KillAnswer, text: string)
    requires r.streams.stderr == CaptureOf(text, r.config.maxOutputChars)
    ensures var refusal := if r.config.hasPid && answer.Refused? then answer.message else "";
      SignalChild(r, signal, answer).streams.stderr == CaptureOf(text + refusal, r.config.maxOutputChars)
  {
    if r.config.hasPid && answer.Refused? { CaptureGrows(text, answer.message, r.config.maxOutputChars); }
    assert text + "" == text;
  }

  lemma KillTimerStderr(r: Run, answer: KillAnswer)
    ensures OnKillTimer(r, answer).run.streams.stderr == ForceKill(r, answer).streams.stderr
  {
    var killed := ForceKill(r, answer);
    ForceKillFrame(r, answer);
    if !r.killTimer.RelayKill? && r.childClosedResult.Some? {
      SettleFrame(killed, CloseOutcome(killed, r.childClosedResult.value));
    }
  }

  lemma StderrGrows(r: Run, e: Event, text: string)
    requires OfOneRun(e) && MayHandle(r, e) && r.streams.stderr == CaptureOf(text, r.config.maxOutputChars)
    ensures EffectOf(r, e).run.streams.stderr == CaptureOf(text + StderrText(r, e), r.config.maxOutputChars)
  {
    assert text + "" == text;
    match e
    case Stderr(_, chunk) => CaptureGrows(text, chunk, r.config.maxOutputChars);
    case Timeout(_, answer) => RefusalGrows(r.(timedOut := true, timeoutArmed := false), SIGTERM, answer, text);
    case KillTimerFires(_, answer) =>
      RefusalGrows(r.(waitingForKillGrace := false, killTimer := Unset), SIGKILL, answer, text);
      KillTimerStderr(r, answer);
    case Close(_, exit, alive) => CloseFrame(r, exit, alive);
    case ErrorOccurs(_) => SettleFrame(r.(log := r.log.(errored := true)), Rejected(ChildError));
    case _ =>
  }
}
