/** The event-driven life of child processes run by scripts/control-ui-i18n.ts
    (runProcess): every event handler as a function of the closure's variables, and any
    number of runs sharing the set that decides when the parent re-raises its signal.
    POSIX branch. The environment supplies liveness answers and `kill` results. */
module ProcessMachine {
  import opened Text
  import opened ProcessOutput

  datatype Signal = SIGINT | SIGTERM | SIGHUP | SIGKILL

  /** Result of `process.kill(-pid, signal)`; `message` is the line a refusal adds to stderr. */
  datatype KillAnswer = Delivered | NoSuchProcess | Refused(message: string)

  datatype Issued = Issued(signal: Signal, toGroup: bool)

  datatype Exit = Exit(code: Option<int>, signal: Option<Signal>)

  datatype Rejection = TimedOut | Failed | TooMuchOutput | ChildError

  datatype Outcome = Resolved(code: int, stdout: string) | Rejected(reason: Rejection)

  /** The kill timer, with what its callback will do. */
  datatype KillTimer = Unset | TimeoutKill | RelayKill(signal: Signal)

  datatype Config = Config(hasPid: bool, maxOutputChars: nat, rejectOnFailure: bool)

  /** Captured streams, and everything ever written to stdout. */
  datatype Streams = Streams(stdout: Capture, stderr: Capture, output: string)

  /** The history of a run: signals sent, a probe that found its group dead, the child's
      close and error events, and the calls of `resolve` and `reject`. */
  datatype Log = Log(issued: seq<Issued>, seenDead: bool, closed: bool, errored: bool, outcomes: seq<Outcome>)

  /** The closure of one run. */
  datatype Run = Run(
    config: Config,
    streams: Streams,
    timedOut: bool,
    settled: bool,
    waitingForKillGrace: bool,
    childClosedResult: Option<Exit>,
    killTimer: KillTimer,
    timeoutArmed: bool,
    parentSignalPending: Option<Signal>,
    done: bool,
    handlersInstalled: bool,
    log: Log)

  function NewRun(config: Config): Run {
    Run(config, Streams(EMPTY, EMPTY, ""), false, false, false, None, Unset, true, None, false, true,
        Log([], false, false, false, []))
  }

  /** What one handler does: the new closure, whether the run leaves the active set, and
      the signal it asks the parent to re-raise. */
  datatype Effect = Effect(run: Run, leaves: bool, reraise: Option<Signal>)

  function Only(run: Run): Effect { Effect(run, false, None) }

  /** Signal the process group, or the child alone when that fails. */
  function SignalChild(r: Run, signal: Signal, answer: KillAnswer): Run {
    var toGroup := r.config.hasPid && answer.Delivered?;
    var stderr := if r.config.hasPid && answer.Refused? then AppendBounded(r.streams.stderr, answer.message, r.config.maxOutputChars) else r.streams.stderr;
    r.(log := r.log.(issued := r.log.issued + [Issued(signal, toGroup)]), streams := r.streams.(stderr := stderr))
  }

  predicate GroupIsAlive(r: Run, answer: bool) { r.config.hasPid && answer }

  function Settle(r: Run, outcome: Outcome): Effect {
    if r.settled then Only(r)
    else
      Effect(
        r.(settled := true, timeoutArmed := false, handlersInstalled := false, log := r.log.(outcomes := r.log.outcomes + [outcome]),
           killTimer := if r.parentSignalPending.None? then Unset else r.killTimer),
        r.parentSignalPending.None?, None)
  }

  function CloseOutcome(r: Run, exit: Exit): Outcome {
    var code := if exit.code.Some? then exit.code.value else 1;
    if r.timedOut then Rejected(TimedOut)
    else if code != 0 && r.config.rejectOnFailure then Rejected(Failed)
    else if code == 0 && r.streams.stdout.truncatedChars > 0 then Rejected(TooMuchOutput)
    else Resolved(code, r.streams.stdout.text)
  }

  function FinishClose(r: Run, exit: Exit): Effect { Settle(r, CloseOutcome(r, exit)) }

  function ScheduleKill(r: Run): Run {
    r.(waitingForKillGrace := true, killTimer := if r.waitingForKillGrace then r.killTimer else TimeoutKill)
  }

  function OnTimeout(r: Run, answer: KillAnswer): Effect {
    Only(ScheduleKill(SignalChild(r.(timedOut := true, timeoutArmed := false), SIGTERM, answer)))
  }

  /** The grace period is over. */
  function ForceKill(r: Run, answer: KillAnswer): Run {
    SignalChild(r.(waitingForKillGrace := false, killTimer := Unset), SIGKILL, answer)
  }

  function OnKillTimer(r: Run, answer: KillAnswer): Effect {
    var killed := ForceKill(r, answer);
    match r.killTimer
    case RelayKill(signal) => Effect(killed.(done := true), false, Some(signal))
    case _ => if r.childClosedResult.Some? then FinishClose(killed, r.childClosedResult.value) else Only(killed)
  }

  /** Pass the parent's signal on and stop listening for others. */
  function PassOn(r: Run, signal: Signal, answer: KillAnswer): Run {
    SignalChild(r.(parentSignalPending := Some(signal), handlersInstalled := false), signal, answer)
  }

  function OnParentSignal(r: Run, signal: Signal, answer: KillAnswer, alive: bool): Effect {
    var relayed := PassOn(r, signal, answer);
    if !GroupIsAlive(r, alive) then Effect(relayed.(log := relayed.log.(seenDead := true), done := true), false, Some(signal))
    else Only(relayed.(waitingForKillGrace := true, killTimer := RelayKill(signal)))
  }

  function OnStdout(r: Run, chunk: string): Effect {
    Only(r.(streams := r.streams.(stdout := AppendBounded(r.streams.stdout, chunk, r.config.maxOutputChars), output := r.streams.output + chunk)))
  }

  function OnStderr(r: Run, chunk: string): Effect {
    Only(r.(streams := r.streams.(stderr := AppendBounded(r.streams.stderr, chunk, r.config.maxOutputChars))))
  }

  function OnError(r: Run): Effect { Settle(r.(log := r.log.(errored := true)), Rejected(ChildError)) }

  /** The group is probed when a parent signal or a kill is pending; while it is alive
      the exit is only remembered. */
  function OnClose(r: Run, exit: Exit, answer: bool): Effect {
    var probed := r.parentSignalPending.Some? || r.waitingForKillGrace;
    var alive := GroupIsAlive(r, answer);
    var c := r.(log := r.log.(closed := true, seenDead := r.log.seenDead || (probed && !alive)));
    if probed && alive then Only(c.(childClosedResult := Some(exit)))
    else if r.parentSignalPending.Some? then Effect(c.(killTimer := Unset, done := true), false, r.parentSignalPending)
    else FinishClose(c, exit)
  }

  // ----- any number of runs

  datatype World = World(runs: seq<Run>, active: set<nat>, reraised: seq<Signal>)

  const NO_RUNS := World([], {}, [])

  datatype Answer = Answer(kill: KillAnswer, alive: bool)

  /** What the environment does next. A parent signal reaches, in one emit, every run
      whose handlers are installed; `answers` holds one answer per run. */
  datatype Event =
    | Start(config: Config)
    | Timeout(run: nat, kill: KillAnswer)
    | KillTimerFires(run: nat, kill: KillAnswer)
    | Stdout(run: nat, chunk: string)
    | Stderr(run: nat, chunk: string)
    | ErrorOccurs(run: nat)
    | Close(run: nat, exit: Exit, alive: bool)
    | ParentSignal(signal: Signal, answers: seq<Answer>)

  predicate AllDone(w: World)
    requires Indexed(w)
  {
    forall i <- w.active :: w.runs[i].parentSignalPending.Some? && w.runs[i].done
  }

  predicate Indexed(w: World) {
    forall i <- w.active :: i < |w.runs|
  }

  /** Run `i` handles an event; the parent re-raises if asked to and no active run is
      still to be relayed to. */
  function Apply(w: World, i: nat, effect: Effect): (next: World)
    requires Indexed(w) && i < |w.runs|
    ensures Indexed(next) && |next.runs| == |w.runs|
  {
    var handled := World(w.runs[i := effect.run], if effect.leaves then w.active - {i} else w.active, w.reraised);
    if effect.reraise.Some? && AllDone(handled) then handled.(reraised := w.reraised + [effect.reraise.value]) else handled
  }

  /** Deliver a parent signal to the runs from `i` on. */
  function Relay(w: World, signal: Signal, answers: seq<Answer>, i: nat): (next: World)
    requires Indexed(w) && |answers| == |w.runs| && i <= |w.runs|
    ensures Indexed(next) && |next.runs| == |w.runs|
    decreases |w.runs| - i
  {
    if i == |w.runs| then w
    else Relay(RelayOne(w, signal, answers[i], i), signal, answers, i + 1)
  }

  function RelayOne(w: World, signal: Signal, answer: Answer, i: nat): (next: World)
    requires Indexed(w) && i < |w.runs|
    ensures Indexed(next) && |next.runs| == |w.runs|
  {
    if w.runs[i].handlersInstalled then Apply(w, i, OnParentSignal(w.runs[i], signal, answer.kill, answer.alive)) else w
  }

  /** Timers fire only while armed; `close` and `error` are delivered at most once, and
      output only before `close`. */
  predicate Enabled(w: World, e: Event) {
    match e
    case Start(config) => config.maxOutputChars >= 1
    case Timeout(i, _) => i < |w.runs| && w.runs[i].timeoutArmed
    case KillTimerFires(i, _) => i < |w.runs| && w.runs[i].killTimer != Unset
    case Stdout(i, _) => i < |w.runs| && !w.runs[i].log.closed
    case Stderr(i, _) => i < |w.runs| && !w.runs[i].log.closed
    case ErrorOccurs(i) => i < |w.runs| && !w.runs[i].log.errored
    case Close(i, _, _) => i < |w.runs| && !w.runs[i].log.closed
    case ParentSignal(signal, answers) => signal != SIGKILL && |answers| == |w.runs|
  }

  function Step(w: World, e: Event): (next: World)
    requires Indexed(w) && Enabled(w, e)
    ensures Indexed(next)
  {
    match e
    case Start(config) =>
      World(w.runs + [NewRun(config)], w.active + {|w.runs|}, w.reraised)
    case Timeout(i, kill) => Apply(w, i, OnTimeout(w.runs[i], kill))
    case KillTimerFires(i, kill) => Apply(w, i, OnKillTimer(w.runs[i], kill))
    case Stdout(i, chunk) => Apply(w, i, OnStdout(w.runs[i], chunk))
    case Stderr(i, chunk) => Apply(w, i, OnStderr(w.runs[i], chunk))
    case ErrorOccurs(i) => Apply(w, i, OnError(w.runs[i]))
    case Close(i, exit, alive) => Apply(w, i, OnClose(w.runs[i], exit, alive))
    case ParentSignal(signal, answers) => Relay(w, signal, answers, 0)
  }

  /** A history: consecutive worlds, each reached from the one before by an enabled event. */
  ghost predicate IsHistory(worlds: seq<World>, events: seq<Event>) {
    |worlds| == |events| + 1 && worlds[0] == NO_RUNS &&
    forall k :: 0 <= k < |events| ==> StepsTo(worlds[k], events[k], worlds[k + 1])
  }

  ghost predicate StepsTo(w: World, e: Event, next: World) {
    Indexed(w) && Enabled(w, e) && next == Step(w, e)
  }
}
