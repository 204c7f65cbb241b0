/** When the parent's signal is re-raised, and when it is not: the re-raise is checked
    only when a relayed run becomes done, not when the last other run leaves the set. */
module ProcessReraise {
  import opened Text
  import opened ProcessMachine
  import opened ProcessSafety

  /** Some run was signalled and no active run is still to be relayed to. */
  predicate Ready(w: World)
    requires Indexed(w)
  {
    w.active != {} && AllDone(w)
  }

  ghost predicate SomeRunLeaves(w: World, next: World) {
    exists i :: i in w.active && i !in next.active
  }

  /** A step made the parent ready but did not log the re-raise. */
  predicate Missed(w: World, next: World)
    requires Indexed(w) && Indexed(next)
  {
    Ready(next) && !Ready(w) && |next.reraised| <= |w.reraised|
  }

  /** The event settles a run that has no parent signal pending. */
  predicate SettlesUnsignalled(r: Run, e: Event) {
    !r.settled && r.parentSignalPending.None? &&
    match e
    case ErrorOccurs(_) => true
    case Close(_, _, alive) => !(r.waitingForKillGrace && GroupIsAlive(r, alive))
    case KillTimerFires(_, _) => r.childClosedResult.Some?
    case _ => false
  }

  /** Some other run is active, and all other active runs have been relayed to. */
  predicate OthersDone(w: World, i: nat)
    requires Indexed(w)
  {
    w.active - {i} != {} && forall j <- w.active - {i} :: w.runs[j].parentSignalPending.Some? && w.runs[j].done
  }

  /** The event settles the one active run that was not signalled. */
  predicate LosesReraise(w: World, e: Event)
    requires Indexed(w) && Enabled(w, e)
  {
    OfOneRun(e) && SettlesUnsignalled(w.runs[e.run], e) && OthersDone(w, e.run)
  }

  lemma LeavesExactly(r: Run, e: Event)
    requires RunInv(r) && OfOneRun(e)
    ensures EffectOf(r, e).leaves <==> SettlesUnsignalled(r, e)
  {
  }

  /** A step that makes the parent ready fails to log the re-raise exactly when its event
      settles the last active run that was not signalled. */
  lemma MissedExactlyOnLeaving(w: World, e: Event)
    requires WorldInv(w) && Enabled(w, e)
    ensures Missed(w, Step(w, e)) <==> LosesReraise(w, e)
  {
    match e
    case Start(_) =>
      assert |w.runs| in Step(w, e).active;
    case ParentSignal(signal, answers) =>
      RelayRaises(w, signal, answers, 0);
    case _ =>
      HandlerKeeps(w, e);
      LeavesExactly(w.runs[e.run], e);
      HandlerMisses(w, e.run, EffectOf(w.runs[e.run], e));
      assert ActiveExactly(w, e.run);
  }

  lemma HandlerMisses(w: World, i: nat, effect: Effect)
    requires WorldInv(w) && i < |w.runs| && GoodEffect(w.runs[i], effect)
    ensures var next := Apply(w, i, effect);
      (SomeRunLeaves(w, next) <==> effect.leaves) &&
      (Missed(w, next) <==> Ready(next) && effect.leaves) &&
      (effect.leaves ==> w.runs[i].parentSignalPending.None? && next.reraised == w.reraised)
  {
    var next := Apply(w, i, effect);
    assert ActiveExactly(w, i);
    if effect.leaves {
      assert i in w.active && i !in next.active;
    } else if !Ready(w) && Ready(next) {
      var j :| j in w.active && !(w.runs[j].parentSignalPending.Some? && w.runs[j].done);
      assert j == i;
    }
  }

  lemma RelayOneRaises(w: World, signal: Signal, answer: Answer, i: nat)
    requires WorldInv(w) && i < |w.runs|
    ensures var next := RelayOne(w, signal, answer, i); next.active == w.active && !Missed(w, next)
  {
    if w.runs[i].handlersInstalled {
      ParentSignalKeeps(w.runs[i], signal, answer.kill, answer.alive);
      HandlerMisses(w, i, OnParentSignal(w.runs[i], signal, answer.kill, answer.alive));
    }
  }

  lemma {:induction false} RelayRaises(w: World, signal: Signal, answers: seq<Answer>, i: nat)
    requires WorldInv(w) && |answers| == |w.runs| && i <= |w.runs|
    ensures var next := Relay(w, signal, answers, i); next.active == w.active && !Missed(w, next) && |w.reraised| <= |next.reraised|
    decreases |w.runs| - i
  {
    if i < |w.runs| {
      var mid := RelayOne(w, signal, answers[i], i);
      RelayOneKeeps(w, signal, answers[i], i);
      RelayOneRaises(w, signal, answers[i], i);
      RelayRaises(mid, signal, answers, i + 1);
    }
  }

  // ----- a guard that rules the missed re-raise out

  predicate Signalled(w: World)
    requires Indexed(w)
  {
    exists i <- w.active :: w.runs[i].parentSignalPending.Some?
  }

  /** Either no active run has been signalled or all have, and readiness was never missed. */
  predicate Uniform(w: World)
    requires Indexed(w)
  {
    (Signalled(w) ==> forall i <- w.active :: w.runs[i].parentSignalPending.Some?) &&
    (Ready(w) ==> w.reraised != [])
  }

  lemma {:induction false} RelaySignalsAll(w: World, signal: Signal, answers: seq<Answer>, i: nat)
    requires WorldInv(w) && |answers| == |w.runs| && i <= |w.runs|
    requires forall j <- w.active :: j < i ==> w.runs[j].parentSignalPending.Some?
    ensures forall j <- Relay(w, signal, answers, i).active :: Relay(w, signal, answers, i).runs[j].parentSignalPending.Some?
    decreases |w.runs| - i
  {
    if i < |w.runs| {
      var mid := RelayOne(w, signal, answers[i], i);
      RelayOneKeeps(w, signal, answers[i], i);
      assert ActiveExactly(w, i);
      assert Later(w.runs[i], mid.runs[i]);
      if w.runs[i].handlersInstalled {
        ParentSignalKeeps(w.runs[i], signal, answers[i].kill, answers[i].alive);
      }
      forall j | j in mid.active && j < i + 1 ensures mid.runs[j].parentSignalPending.Some? {
        assert Later(w.runs[j], mid.runs[j]);
      }
      RelaySignalsAll(mid, signal, answers, i + 1);
    }
  }

  lemma UniformKeeps(w: World, e: Event)
    requires WorldInv(w) && Enabled(w, e) && Uniform(w) && (e.Start? ==> !Signalled(w))
    ensures Uniform(Step(w, e))
  {
    match e
    case Start(_) =>
      assert |w.runs| in Step(w, e).active;
    case ParentSignal(signal, answers) =>
      RelayRaises(w, signal, answers, 0);
      RelaySignalsAll(w, signal, answers, 0);
    case _ =>
      HandlerKeeps(w, e);
      HandlerPending(w.runs[e.run], e);
      HandlerUniform(w, e.run, EffectOf(w.runs[e.run], e));
  }

  lemma HandlerPending(r: Run, e: Event)
    requires OfOneRun(e)
    ensures EffectOf(r, e).run.parentSignalPending == r.parentSignalPending
  {
    match e
    case KillTimerFires(_, kill) => KillTimerPending(r, kill);
    case Close(_, exit, alive) => ClosePending(r, exit, alive);
    case Timeout(_, kill) =>
    case Stdout(_, _) =>
    case Stderr(_, _) =>
    case ErrorOccurs(_) =>
  }

  lemma FinishClosePending(r: Run, exit: Exit)
    ensures FinishClose(r, exit).run.parentSignalPending == r.parentSignalPending
    ensures FinishClose(r, exit).reraise.None?
  {
    var outcome := CloseOutcome(r, exit);
    assert Settle(r, outcome).run.parentSignalPending == r.parentSignalPending && Settle(r, outcome).reraise.None?;
  }

  lemma KillTimerPending(r: Run, answer: KillAnswer)
    ensures OnKillTimer(r, answer).run.parentSignalPending == r.parentSignalPending
    ensures OnKillTimer(r, answer).reraise.Some? ==> r.killTimer.RelayKill?
  {
    var killed := ForceKill(r, answer);
    if r.childClosedResult.Some? { FinishClosePending(killed, r.childClosedResult.value); }
  }

  lemma ClosePending(r: Run, exit: Exit, alive: bool)
    ensures OnClose(r, exit, alive).run.parentSignalPending == r.parentSignalPending
    ensures OnClose(r, exit, alive).reraise.Some? ==> r.parentSignalPending.Some?
  {
    FinishClosePending(r.(log := r.log.(closed := true, seenDead := r.log.seenDead || r.waitingForKillGrace)), exit);
  }

  lemma HandlerUniform(w: World, i: nat, effect: Effect)
    requires WorldInv(w) && i < |w.runs| && GoodEffect(w.runs[i], effect) && Uniform(w)
    requires effect.run.parentSignalPending == w.runs[i].parentSignalPending
    ensures Uniform(Apply(w, i, effect))
  {
    var next := Apply(w, i, effect);
    assert ActiveExactly(w, i);
    HandlerMisses(w, i, effect);
    if j :| j in next.active && next.runs[j].parentSignalPending.Some? {
      assert j in w.active && w.runs[j].parentSignalPending.Some?;
    }
  }

  /** No run was started while an active run had a parent signal pending. */
  ghost predicate StartsUnsignalled(worlds: seq<World>, events: seq<Event>)
    requires IsHistory(worlds, events)
  {
    forall k :: 0 <= k < |events| && events[k].Start? ==> Quiet(worlds[k], events[k], worlds[k + 1])
  }

  ghost predicate Quiet(w: World, e: Event, next: World) { Indexed(w) && !Signalled(w) }

  /** Under that guard a parent that has relayed its signal to every active run, all of
      them done, has re-raised it. */
  lemma {:induction false} GuardedHistoryReraises(worlds: seq<World>, events: seq<Event>, k: nat)
    requires IsHistory(worlds, events) && StartsUnsignalled(worlds, events) && k <= |events|
    ensures WorldInv(worlds[k]) && Uniform(worlds[k])
    ensures Ready(worlds[k]) ==> worlds[k].reraised != []
  {
    HistoryKeeps(worlds, events, k);
    if k > 0 {
      GuardedHistoryReraises(worlds, events, k - 1);
      assert StepsTo(worlds[k - 1], events[k - 1], worlds[k]);
      assert events[k - 1].Start? ==> Quiet(worlds[k - 1], events[k - 1], worlds[k]);
      UniformKeeps(worlds[k - 1], events[k - 1]);
    }
  }

  ghost predicate ReadyUnraised(w: World) { Indexed(w) && Ready(w) && w.reraised == [] }

  ghost predicate LosesFirst(worlds: seq<World>, events: seq<Event>, j: nat)
    requires IsHistory(worlds, events) && j < |events|
  {
    assert StepsTo(worlds[j], events[j], worlds[j + 1]);
    worlds[j].reraised == [] && LosesReraise(worlds[j], events[j])
  }

  lemma {:induction false} UnraisedWasLost(worlds: seq<World>, events: seq<Event>, k: nat) returns (j: nat)
    requires IsHistory(worlds, events) && k <= |events| && ReadyUnraised(worlds[k])
    ensures j < k && LosesFirst(worlds, events, j)
  {
    assert StepsTo(worlds[k - 1], events[k - 1], worlds[k]);
    HistoryKeeps(worlds, events, k - 1);
    StepKeeps(worlds[k - 1], events[k - 1]);
    if Ready(worlds[k - 1]) {
      j := UnraisedWasLost(worlds, events, k - 1);
    } else {
      MissedExactlyOnLeaving(worlds[k - 1], events[k - 1]);
      j := k - 1;
    }
  }

  /** A history comes to a parent that is ready and has never re-raised exactly when, before
      any re-raise, some event settles the last active run that was not signalled. */
  lemma ReraiseLostExactly(worlds: seq<World>, events: seq<Event>)
    requires IsHistory(worlds, events)
    ensures (exists k :: 0 <= k <= |events| && ReadyUnraised(worlds[k])) <==>
            (exists j :: 0 <= j < |events| && LosesFirst(worlds, events, j))
  {
    if k :| 0 <= k <= |events| && ReadyUnraised(worlds[k]) {
      var j := UnraisedWasLost(worlds, events, k);
    }
    if j :| 0 <= j < |events| && LosesFirst(worlds, events, j) {
      assert StepsTo(worlds[j], events[j], worlds[j + 1]);
      HistoryKeeps(worlds, events, j);
      MissedExactlyOnLeaving(worlds[j], events[j]);
      assert ReadyUnraised(worlds[j + 1]);
    }
  }

  // ----- the missed re-raise

  /** SIGINT reaches run 0, run 1 starts, run 0 is killed and closes, run 1 exits: the
      parent is ready and has not re-raised. */
  const LATE_START: seq<Event> := [
    Start(Config(true, 10, false)),
    ParentSignal(SIGINT, [Answer(Delivered, true)]),
    Start(Config(true, 10, false)),
    KillTimerFires(0, Delivered),
    Close(0, Exit(None, Some(SIGKILL)), false),
    Close(1, Exit(Some(0), None), false)]

  lemma LateStartMissesReraise() returns (worlds: seq<World>)
    ensures IsHistory(worlds, LATE_START)
    ensures Indexed(worlds[6]) && Ready(worlds[6]) && worlds[6].reraised == []
    ensures LostForGood(worlds[6])
  {
    var w1 := Step(NO_RUNS, LATE_START[0]);
    var w2 := Step(w1, LATE_START[1]);
    assert w2 == Relay(RelayOne(w1, SIGINT, Answer(Delivered, true), 0), SIGINT, [Answer(Delivered, true)], 1);
    var w3 := Step(w2, LATE_START[2]);
    var w4 := Step(w3, LATE_START[3]);
    var w5 := Step(w4, LATE_START[4]);
    var w6 := Step(w5, LATE_START[5]);
    worlds := [NO_RUNS, w1, w2, w3, w4, w5, w6];
  }

  /** Every active run is signalled, done and closed, and nothing is scheduled that asks
      for the re-raise. */
  predicate LostForGood(w: World) {
    Indexed(w) && forall i <- w.active ::
      var r := w.runs[i];
      r.parentSignalPending.Some? && r.done && r.log.closed && !r.killTimer.RelayKill? && !r.handlersInstalled
  }

  /** From there no event of the runs, and no further parent signal, ever re-raises. */
  lemma LostStaysLost(w: World, e: Event)
    requires WorldInv(w) && LostForGood(w) && Enabled(w, e) && !e.Start?
    ensures LostForGood(Step(w, e)) && Step(w, e).reraised == w.reraised
  {
    if e.ParentSignal? {
      LostRelay(w, e.signal, e.answers, 0);
    } else {
      HandlerKeeps(w, e);
      assert ActiveExactly(w, e.run);
      LostHandler(w.runs[e.run], e);
      LostApply(w, e.run, EffectOf(w.runs[e.run], e));
    }
  }

  /** The event asks for no re-raise and schedules none. */
  lemma LostHandler(r: Run, e: Event)
    requires RunInv(r) && OfOneRun(e) && !(r.log.closed && e.Close?)
    requires (r.settled && r.parentSignalPending.None?) || (r.parentSignalPending.Some? && r.log.closed && !r.killTimer.RelayKill?)
    ensures EffectOf(r, e).reraise.None?
    ensures r.log.closed && !r.killTimer.RelayKill? ==> EffectOf(r, e).run.log.closed && !EffectOf(r, e).run.killTimer.RelayKill?
  {
    match e
    case KillTimerFires(_, kill) => KillTimerPending(r, kill);
    case Close(_, exit, alive) => ClosePending(r, exit, alive);
    case Timeout(_, kill) =>
    case Stdout(_, _) =>
    case Stderr(_, _) =>
    case ErrorOccurs(_) =>
  }

  lemma LostApply(w: World, i: nat, effect: Effect)
    requires WorldInv(w) && LostForGood(w) && i < |w.runs| && GoodEffect(w.runs[i], effect) && effect.reraise.None?
    requires w.runs[i].log.closed && !w.runs[i].killTimer.RelayKill? ==> effect.run.log.closed && !effect.run.killTimer.RelayKill?
    ensures LostForGood(Apply(w, i, effect)) && Apply(w, i, effect).reraised == w.reraised
  {
    assert ActiveExactly(w, i);
  }

  lemma {:induction false} LostRelay(w: World, signal: Signal, answers: seq<Answer>, i: nat)
    requires WorldInv(w) && LostForGood(w) && |answers| == |w.runs| && i <= |w.runs|
    ensures Relay(w, signal, answers, i) == w
    decreases |w.runs| - i
  {
    if i < |w.runs| {
      assert ActiveExactly(w, i);
      LostRelay(w, signal, answers, i + 1);
    }
  }
}
