/** The supervisor in its own form (scripts/control-ui-i18n.ts, runProcess): closures that
    event handlers update in place, sharing one module-level set. Every handler is proved
    to take the step that ProcessMachine gives it. */
module RunProcess {
  import opened Text
  import opened ProcessOutput
  import M = ProcessMachine
  import opened ProcessMachine

  /** The module-level state: the runs whose parent signal still matters, and the signals
      the parent has sent to itself. */
  class ParentProcess {
    var active: set<ChildRun>
    var reraised: seq<Signal>
    var started: seq<ChildRun>

    ghost predicate Valid()
      reads this, started
    {
      (forall i :: 0 <= i < |started| ==> started[i].index == i && started[i].parent == this) &&
      forall r <- active :: r in started
    }

    ghost function Snapshot(): World
      reads this, started
    {
      World(seq(|started|, i requires 0 <= i < |started| reads this, started => started[i].View()),
            (set i: nat | i < |started| && started[i] in active), reraised)
    }

    constructor ()
      ensures Valid() && Snapshot() == NO_RUNS
    {
      active, reraised, started := {}, [], [];
    }

    ghost predicate AllRelayed()
      reads this, active
    {
      forall r <- active :: r.parentSignalPending.Some? && r.done
    }

    lemma SnapshotRelayed()
      requires Valid()
      ensures Indexed(Snapshot()) && (AllDone(Snapshot()) <==> AllRelayed())
    {
      if AllDone(Snapshot()) {
        forall r <- active ensures r.parentSignalPending.Some? && r.done {
          assert r.index in Snapshot().active;
        }
      }
    }

    /** maybeReraiseRunProcessParentSignal: stop at the first run still to be relayed to. */
    method MaybeReraise(signal: Signal)
      modifies this`reraised
      ensures reraised == if AllRelayed() then old(reraised) + [signal] else old(reraised)
    {
      var rest := active;
      while rest != {}
        invariant rest <= active
        invariant forall r <- active - rest :: r.parentSignalPending.Some? && r.done
        decreases rest
      {
        var state :| state in rest;
        if state.parentSignalPending.None? || !state.done {
          return;
        }
        rest := rest - {state};
      }
      reraised := reraised + [signal];
    }

    method StartRun(config: Config) returns (run: ChildRun)
      requires Valid() && config.maxOutputChars >= 1
      modifies this
      ensures Valid() && fresh(run) && started == old(started) + [run]
      ensures Snapshot() == Step(old(Snapshot()), Start(config))
    {
      run := new ChildRun(this, |started|, config);
      started := started + [run];
      active := active + {run};
      ghost var before, after := old(Snapshot()), Snapshot();
      assert after.runs == before.runs + [run.View()];
      forall i: nat ensures i in after.active <==> i in before.active + {|before.runs|} {
        if i < |before.runs| { assert started[i] == old(started)[i] && started[i] != run; }
      }
    }

    method Deliver(i: nat, signal: Signal, answer: Answer)
      requires Valid() && i < |started|
      modifies this, started
      ensures Valid() && started == old(started)
      ensures Snapshot() == RelayOne(old(Snapshot()), signal, answer, i)
    {
      var run := started[i];
      assert Snapshot().runs[i] == run.View();
      if run.handlersInstalled {
        run.OnParentSignal(signal, answer.kill, answer.alive);
      }
    }

    /** One emit of a parent signal: every installed handler runs once, in order. */
    method Emit(signal: Signal, answers: seq<Answer>)
      requires Valid() && signal != SIGKILL && |answers| == |started|
      modifies this, started
      ensures Valid() && started == old(started)
      ensures Snapshot() == Step(old(Snapshot()), ParentSignal(signal, answers))
    {
      ghost var first := Snapshot();
      for i := 0 to |started|
        invariant Valid() && started == old(started)
        invariant Relay(first, signal, answers, 0) == Relay(Snapshot(), signal, answers, i)
      {
        Deliver(i, signal, answers[i]);
      }
    }
  }

  class ChildRun {
    const parent: ParentProcess
    const index: nat
    const config: Config
    var stdout: Capture
    var stderr: Capture
    var timedOut: bool
    var settled: bool
    var waitingForKillGrace: bool
    var childClosedResult: Option<Exit>
    var killTimer: KillTimer
    var timeoutArmed: bool
    var parentSignalPending: Option<Signal>
    var done: bool
    var handlersInstalled: bool
    ghost var output: string
    ghost var log: Log

    ghost function View(): Run
      reads this
    {
      Run(config, Streams(stdout, stderr, output), timedOut, settled, waitingForKillGrace, childClosedResult,
          killTimer, timeoutArmed, parentSignalPending, done, handlersInstalled, log)
    }

    constructor (parent: ParentProcess, index: nat, config: Config)
      ensures this.parent == parent && this.index == index && View() == NewRun(config)
    {
      this.parent, this.index, this.config := parent, index, config;
      stdout, stderr := EMPTY, EMPTY;
      timedOut, settled, waitingForKillGrace := false, false, false;
      childClosedResult, killTimer, timeoutArmed := None, Unset, true;
      parentSignalPending, done, handlersInstalled := None, false, true;
      output, log := "", Log([], false, false, false, []);
    }

    ghost predicate Registered()
      reads parent, parent.started
    {
      parent.Valid() && this in parent.started
    }

    // ----- the closure's helpers

    method SignalChild(signal: Signal, answer: KillAnswer)
      modifies this`stderr, this`log
      ensures View() == M.SignalChild(old(View()), signal, answer)
    {
      if config.hasPid {
        if answer.Delivered? {
          log := log.(issued := log.issued + [Issued(signal, true)]);
          return;
        }
        if answer.Refused? {
          stderr := AppendBounded(stderr, answer.message, config.maxOutputChars);
        }
      }
      log := log.(issued := log.issued + [Issued(signal, false)]);
    }

    method ProcessGroupIsAlive(answer: bool) returns (alive: bool)
      modifies this`log
      ensures alive == GroupIsAlive(old(View()), answer)
      ensures log == old(log).(seenDead := old(log).seenDead || !alive)
    {
      alive := config.hasPid && answer;
      log := log.(seenDead := log.seenDead || !alive);
    }

    method Settle(outcome: Outcome)
      modifies this`settled, this`timeoutArmed, this`killTimer, this`handlersInstalled, this`log, parent`active
      ensures View() == M.Settle(old(View()), outcome).run
      ensures parent.active == if M.Settle(old(View()), outcome).leaves then old(parent.active) - {this} else old(parent.active)
    {
      if settled {
        return;
      }
      settled := true;
      timeoutArmed := false;
      if parentSignalPending.None? {
        killTimer := Unset;
        parent.active := parent.active - {this};
      }
      handlersInstalled := false;
      log := log.(outcomes := log.outcomes + [outcome]);
    }

    method FinishClose(exit: Exit)
      modifies this`settled, this`timeoutArmed, this`killTimer, this`handlersInstalled, this`log, parent`active
      ensures View() == M.FinishClose(old(View()), exit).run
      ensures parent.active == if M.FinishClose(old(View()), exit).leaves then old(parent.active) - {this} else old(parent.active)
    {
      var code := if exit.code.Some? then exit.code.value else 1;
      var outcome;
      if timedOut {
        outcome := Rejected(TimedOut);
      } else if code != 0 && config.rejectOnFailure {
        outcome := Rejected(Failed);
      } else if code == 0 && stdout.truncatedChars > 0 {
        outcome := Rejected(TooMuchOutput);
      } else {
        outcome := Resolved(code, stdout.text);
      }
      Settle(outcome);
    }

    method ScheduleKill()
      modifies this`waitingForKillGrace, this`killTimer
      ensures View() == M.ScheduleKill(old(View()))
    {
      if waitingForKillGrace {
        return;
      }
      waitingForKillGrace := true;
      killTimer := TimeoutKill;
    }

    method ForceKill(answer: KillAnswer)
      modifies this`waitingForKillGrace, this`killTimer, this`stderr, this`log
      ensures View() == M.ForceKill(old(View()), answer)
    {
      waitingForKillGrace := false;
      killTimer := Unset;
      SignalChild(SIGKILL, answer);
    }

    method PassOn(signal: Signal, answer: KillAnswer)
      modifies this`parentSignalPending, this`handlersInstalled, this`stderr, this`log
      ensures View() == M.PassOn(old(View()), signal, answer)
    {
      parentSignalPending := Some(signal);
      handlersInstalled := false;
      SignalChild(signal, answer);
    }

    /** A handler that has changed this run, the set and the log as an effect says has
        taken the world's step. */
    twostate lemma Recorded(effect: Effect)
      requires old(Registered()) && parent.started == old(parent.started)
      requires forall r <- parent.started :: r != this ==> r.View() == old(r.View())
      requires View() == effect.run
      requires parent.active == if effect.leaves then old(parent.active) - {this} else old(parent.active)
      requires parent.reraised == if effect.reraise.Some? && parent.AllRelayed()
        then old(parent.reraised) + [effect.reraise.value] else old(parent.reraised)
      ensures Registered()
      ensures parent.Snapshot() == Apply(old(parent.Snapshot()), index, effect)
    {
      var before, after := old(parent.Snapshot()), parent.Snapshot();
      assert parent.started[index] == this;
      forall i | 0 <= i < |parent.started| ensures after.runs[i] == before.runs[index := effect.run][i] {
        if i != index { assert parent.started[i] != this; }
      }
      assert after.runs == before.runs[index := effect.run];
      assert after.active == if effect.leaves then before.active - {index} else before.active;
      parent.SnapshotRelayed();
      assert Apply(before, index, effect).runs == after.runs;
    }

    // ----- the event handlers

    method OnTimeout(answer: KillAnswer)
      requires Registered() && timeoutArmed
      modifies this
      ensures Registered() && parent.Snapshot() == Step(old(parent.Snapshot()), Timeout(index, answer))
    {
      ghost var effect := M.OnTimeout(View(), answer);
      timedOut := true;
      timeoutArmed := false;
      SignalChild(SIGTERM, answer);
      ScheduleKill();
      Recorded(effect);
    }

    /** The callback scheduled by the timeout. */
    method OnTimeoutKill(answer: KillAnswer)
      requires Registered() && killTimer.TimeoutKill?
      modifies this, parent`active
      ensures Registered() && parent.Snapshot() == Step(old(parent.Snapshot()), KillTimerFires(index, answer))
    {
      ghost var effect := M.OnKillTimer(View(), answer);
      ForceKill(answer);
      if childClosedResult.Some? {
        FinishClose(childClosedResult.value);
      }
      Recorded(effect);
    }

    /** The callback scheduled by a relayed parent signal. */
    method OnRelayKill(answer: KillAnswer)
      requires Registered() && killTimer.RelayKill?
      modifies this, parent`reraised
      ensures Registered() && parent.Snapshot() == Step(old(parent.Snapshot()), KillTimerFires(index, answer))
    {
      ghost var effect := M.OnKillTimer(View(), answer);
      var signal := killTimer.signal;
      ForceKill(answer);
      BecomeDone(signal);
      Recorded(effect);
    }

    /** The relay has nothing left to do for this run. */
    method BecomeDone(signal: Signal)
      requires Registered()
      modifies this`done, parent`reraised
      ensures done
      ensures parent.reraised == if parent.AllRelayed() then old(parent.reraised) + [signal] else old(parent.reraised)
    {
      done := true;
      parent.MaybeReraise(signal);
    }

    method OnParentSignal(signal: Signal, answer: KillAnswer, alive: bool)
      requires Registered() && handlersInstalled
      modifies this, parent`reraised
      ensures Registered()
      ensures parent.Snapshot() == Apply(old(parent.Snapshot()), index, M.OnParentSignal(old(View()), signal, answer, alive))
    {
      ghost var effect := M.OnParentSignal(View(), signal, answer, alive);
      PassOn(signal, answer);
      var groupAlive := ProcessGroupIsAlive(alive);
      if !groupAlive {
        BecomeDone(signal);
      } else {
        waitingForKillGrace := true;
        killTimer := RelayKill(signal);
      }
      Recorded(effect);
    }

    method OnStdout(chunk: string)
      requires Registered() && !log.closed
      modifies this
      ensures Registered() && parent.Snapshot() == Step(old(parent.Snapshot()), Stdout(index, chunk))
    {
      ghost var effect := M.OnStdout(View(), chunk);
      stdout := AppendBounded(stdout, chunk, config.maxOutputChars);
      output := output + chunk;
      Recorded(effect);
    }

    method OnStderr(chunk: string)
      requires Registered() && !log.closed
      modifies this
      ensures Registered() && parent.Snapshot() == Step(old(parent.Snapshot()), Stderr(index, chunk))
    {
      ghost var effect := M.OnStderr(View(), chunk);
      stderr := AppendBounded(stderr, chunk, config.maxOutputChars);
      Recorded(effect);
    }

    method OnError()
      requires Registered() && !log.errored
      modifies this, parent`active
      ensures Registered() && parent.Snapshot() == Step(old(parent.Snapshot()), ErrorOccurs(index))
    {
      ghost var effect := M.OnError(View());
      log := log.(errored := true);
      Settle(Rejected(ChildError));
      Recorded(effect);
    }

    /** The close handler once a parent signal has been relayed. */
    method CloseRelayed(exit: Exit, answer: bool)
      requires Registered() && parentSignalPending.Some?
      modifies this`log, this`childClosedResult, this`killTimer, this`done, parent`reraised
      ensures View() == M.OnClose(old(View()), exit, answer).run
      ensures parent.reraised == if M.OnClose(old(View()), exit, answer).reraise.Some? && parent.AllRelayed()
        then old(parent.reraised) + [parentSignalPending.value] else old(parent.reraised)
    {
      log := log.(closed := true);
      var alive := ProcessGroupIsAlive(answer);
      if alive {
        childClosedResult := Some(exit);
        return;
      }
      killTimer := Unset;
      BecomeDone(parentSignalPending.value);
    }

    method CloseUnsignalled(exit: Exit, answer: bool)
      requires parentSignalPending.None?
      modifies this, parent`active
      ensures View() == M.OnClose(old(View()), exit, answer).run
      ensures parent.active == if M.OnClose(old(View()), exit, answer).leaves then old(parent.active) - {this} else old(parent.active)
    {
      log := log.(closed := true);
      if waitingForKillGrace {
        var alive := ProcessGroupIsAlive(answer);
        if alive {
          childClosedResult := Some(exit);
          return;
        }
      }
      FinishClose(exit);
    }

    method OnClose(exit: Exit, answer: bool)
      requires Registered() && !log.closed
      modifies this, parent`active, parent`reraised
      ensures Registered() && parent.Snapshot() == Step(old(parent.Snapshot()), Close(index, exit, answer))
    {
      ghost var effect := M.OnClose(View(), exit, answer);
      CloseEffect(View(), exit, answer);
      if parentSignalPending.Some? {
        CloseRelayed(exit, answer);
      } else {
        CloseUnsignalled(exit, answer);
      }
      Recorded(effect);
    }
  }

  lemma CloseEffect(r: Run, exit: Exit, answer: bool)
    ensures var e := M.OnClose(r, exit, answer);
      (r.parentSignalPending.Some? ==> !e.leaves && (e.reraise.Some? ==> e.reraise == r.parentSignalPending)) &&
      (r.parentSignalPending.None? ==> e.reraise.None?)
  {
  }
}
