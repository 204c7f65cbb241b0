/** The probe that watches a restart (scripts/bench-gateway-restart.ts,
    waitForRestartProbe): a loop over attempts, stopped by a deadline, by the process, by
    the caller, or by a recovery. */
module RestartProbe {
  import opened Text

  /** One attempt: status 200, another status, or no status with a reason. */
  datatype Attempt = Ready | HttpError(code: int) | NoAnswer(kind: string)

  predicate IsAttempt(a: Attempt) { a.HttpError? ==> a.code != 200 }

  function Status(a: Attempt): Option<int> {
    match a
    case Ready => Some(200)
    case HttpError(code) => Some(code)
    case NoAnswer(_) => None
  }

  /** One turn of the loop: what the three stop tests say, then the attempt and the time
      since the signal once it has been answered. */
  datatype Tick = Tick(expired: bool, processDone: bool, done: bool, attempt: Attempt, elapsed: int)

  datatype Observation = Observation(attempt: Attempt, elapsed: int)

  datatype ProbeResult = ProbeResult(
    downtimeMs: Option<int>,
    firstError: Option<Attempt>,
    firstRecoveryMs: Option<int>,
    ms: Option<int>,
    status: Option<int>,
    transitions: seq<Observation>,
    unavailableMs: Option<int>)

  // ----- which attempts are made

  /** The attempts made on these ticks, given whether the target has been down and up. */
  function Observed(ticks: seq<Tick>, down: bool, up: bool): seq<Observation> {
    if ticks == [] || ticks[0].expired || ticks[0].processDone || (ticks[0].done && !down && up) then []
    else
      var t := ticks[0];
      [Observation(t.attempt, t.elapsed)] +
      (if t.attempt.Ready? && down then [] else Observed(ticks[1..], down || !t.attempt.Ready?, up || t.attempt.Ready?))
  }

  // ----- what they amount to

  function FirstDown(obs: seq<Observation>): Option<nat> {
    if obs == [] then None
    else
      var n := |obs| - 1;
      var before := FirstDown(obs[..n]);
      if before.Some? then before else if obs[n].attempt.Ready? then None else Some(n)
  }

  /** The attempts without immediate repetitions. */
  function Collapse(obs: seq<Observation>): seq<Observation> {
    if obs == [] then []
    else
      var n := |obs| - 1;
      if n > 0 && obs[n].attempt == obs[n - 1].attempt then Collapse(obs[..n]) else Collapse(obs[..n]) + [obs[n]]
  }

  lemma {:induction false} FirstDownExact(obs: seq<Observation>)
    ensures FirstDown(obs).None? <==> forall o <- obs :: o.attempt.Ready?
    ensures FirstDown(obs).Some? ==> var i := FirstDown(obs).value;
      i < |obs| && !obs[i].attempt.Ready? && forall j :: 0 <= j < i ==> obs[j].attempt.Ready?
  {
    if obs != [] {
      var n := |obs| - 1;
      FirstDownExact(obs[..n]);
      assert obs == obs[..n] + [obs[n]];
    }
  }

  function Summarize(obs: seq<Observation>): ProbeResult {
    FirstDownExact(obs);
    var down := FirstDown(obs);
    if obs == [] then ProbeResult(None, None, None, None, None, [], None)
    else
      var last := obs[|obs| - 1];
      var since := if down.Some? then Some(obs[down.value].elapsed) else None;
      var error := if down.Some? then Some(obs[down.value].attempt) else None;
      if down.Some? && last.attempt.Ready? then
        ProbeResult(Some(last.elapsed - since.value), error, Some(last.elapsed), Some(last.elapsed), Some(200), Collapse(obs), since)
      else
        ProbeResult(None, error, None, if down.None? then Some(last.elapsed) else None, Status(last.attempt), Collapse(obs), since)
  }

  /** The loop's variables. */
  datatype Vars = Vars(firstError: Option<Attempt>, lastStatus: Option<int>, lastState: Option<Attempt>,
                       lastSuccessMs: Option<int>, unavailableMs: Option<int>, transitions: seq<Observation>)

  const START := Vars(None, None, None, None, None, [])

  /** One attempt's effect on them. */
  function Note(v: Vars, o: Observation): Vars {
    var up := o.attempt.Ready?;
    Vars(if !up && v.firstError.None? then Some(o.attempt) else v.firstError,
         Status(o.attempt), Some(o.attempt),
         if up then Some(o.elapsed) else v.lastSuccessMs,
         if !up && v.unavailableMs.None? then Some(o.elapsed) else v.unavailableMs,
         if Some(o.attempt) != v.lastState then v.transitions + [o] else v.transitions)
  }

  function Track(obs: seq<Observation>): Vars {
    if obs == [] then START else Note(Track(obs[..|obs| - 1]), obs[|obs| - 1])
  }

  /** No attempt succeeded after one had failed. */
  ghost predicate Unrecovered(obs: seq<Observation>) {
    forall i, j :: 0 <= i < j < |obs| && !obs[i].attempt.Ready? ==> !obs[j].attempt.Ready?
  }

  /** What the variables hold after some attempts. */
  lemma {:induction false} TrackMeans(obs: seq<Observation>)
    ensures var v, n := Track(obs), |obs|;
      v.transitions == Collapse(obs) &&
      v.lastState == (if n > 0 then Some(obs[n - 1].attempt) else None) &&
      v.lastStatus == (if n > 0 then Status(obs[n - 1].attempt) else None)
  {
    if obs != [] { TrackMeans(obs[..|obs| - 1]); }
  }

  lemma {:induction false} TrackFirstDown(obs: seq<Observation>)
    ensures var v, down := Track(obs), FirstDown(obs);
      (down.Some? ==> down.value < |obs|) &&
      v.unavailableMs == (if down.Some? then Some(obs[down.value].elapsed) else None) &&
      v.firstError == (if down.Some? then Some(obs[down.value].attempt) else None) &&
      (down.None? ==> v.lastSuccessMs == if obs == [] then None else Some(obs[|obs| - 1].elapsed))
  {
    FirstDownExact(obs);
    if obs != [] { TrackFirstDown(obs[..|obs| - 1]); }
  }

  /** The result when the loop ends without a recovery. */
  function Unfinished(v: Vars): ProbeResult {
    ProbeResult(None, v.firstError, None, if v.unavailableMs.None? then v.lastSuccessMs else None,
                v.lastStatus, v.transitions, v.unavailableMs)
  }

  lemma UnfinishedIsSummary(obs: seq<Observation>)
    requires Unrecovered(obs)
    ensures Summarize(obs) == Unfinished(Track(obs))
    ensures Track(obs).unavailableMs.None? && Track(obs).lastSuccessMs.Some? ==> Track(obs).lastStatus == Some(200)
  {
    TrackMeans(obs);
    TrackFirstDown(obs);
    FirstDownExact(obs);
    if obs != [] && FirstDown(obs).None? { assert obs[|obs| - 1] in obs; }
  }

  lemma RecoveredIsSummary(obs: seq<Observation>)
    requires obs != [] && obs[|obs| - 1].attempt.Ready? && Track(obs).unavailableMs.Some?
    ensures var v, last := Track(obs), obs[|obs| - 1].elapsed;
      Summarize(obs) == ProbeResult(Some(last - v.unavailableMs.value), v.firstError, Some(last), Some(last), Some(200), v.transitions, v.unavailableMs)
  {
    TrackMeans(obs);
    TrackFirstDown(obs);
  }

  lemma StillUnrecovered(obs: seq<Observation>, o: Observation)
    requires Unrecovered(obs) && !(o.attempt.Ready? && Track(obs).unavailableMs.Some?)
    ensures Unrecovered(obs + [o])
  {
    TrackFirstDown(obs);
    FirstDownExact(obs);
  }

  lemma TrackNext(obs: seq<Observation>, o: Observation)
    ensures Track(obs + [o]) == Note(Track(obs), o)
  {
    assert (obs + [o])[..|obs|] == obs;
  }

  predicate Stops(t: Tick, v: Vars) {
    t.expired || t.processDone || (t.done && v.unavailableMs.None? && v.lastSuccessMs.Some?)
  }

  /** The loop from a given state. */
  function Loop(ticks: seq<Tick>, v: Vars): ProbeResult {
    if ticks == [] || ticks[0].expired || ticks[0].processDone then Unfinished(v)
    else if Stops(ticks[0], v) then ProbeResult(None, v.firstError, None, v.lastSuccessMs, Some(200), v.transitions, None)
    else
      var o := Observation(ticks[0].attempt, ticks[0].elapsed);
      var next := Note(v, o);
      if o.attempt.Ready? && next.unavailableMs.Some? then
        ProbeResult(Some(o.elapsed - next.unavailableMs.value), next.firstError, Some(o.elapsed), Some(o.elapsed),
                    Some(200), next.transitions, next.unavailableMs)
      else Loop(ticks[1..], next)
  }

  method WaitForRestartProbe(ticks: seq<Tick>) returns (r: ProbeResult)
    ensures r == Summarize(Observed(ticks, false, false))
  {
    var firstError: Option<Attempt> := None;
    var lastStatus: Option<int> := None;
    var lastState: Option<Attempt> := None;
    var lastSuccessMs: Option<int> := None;
    var unavailableMs: Option<int> := None;
    var transitions: seq<Observation> := [];
    LoopFromStart(ticks);
    ghost var whole := Loop(ticks, START);
    assert ticks[0..] == ticks;
    var i := 0;
    while i < |ticks| && !ticks[i].expired
      invariant i <= |ticks|
      invariant Loop(ticks[i..], Vars(firstError, lastStatus, lastState, lastSuccessMs, unavailableMs, transitions)) == whole
    {
      var tick := ticks[i];
      assert ticks[i..][0] == tick && ticks[i..][1..] == ticks[i + 1..];
      if tick.processDone {
        break;
      }
      if tick.done && unavailableMs.None? && lastSuccessMs.Some? {
        return ProbeResult(None, firstError, None, lastSuccessMs, Some(200), transitions, None);
      }
      var attempt, elapsedMs := tick.attempt, tick.elapsed;
      lastStatus := Status(attempt);
      if Some(attempt) != lastState {
        transitions := transitions + [Observation(attempt, elapsedMs)];
        lastState := Some(attempt);
      }
      if !attempt.Ready? && firstError.None? {
        firstError := Some(attempt);
      }
      if !attempt.Ready? && unavailableMs.None? {
        unavailableMs := Some(elapsedMs);
      }
      if attempt.Ready? {
        lastSuccessMs := Some(elapsedMs);
      }
      if attempt.Ready? && unavailableMs.Some? {
        return ProbeResult(Some(elapsedMs - unavailableMs.value), firstError, Some(elapsedMs), Some(elapsedMs),
                           Status(attempt), transitions, unavailableMs);
      }
      i := i + 1;
    }
    return ProbeResult(None, firstError, None, if unavailableMs.None? then lastSuccessMs else None,
                       lastStatus, transitions, unavailableMs);
  }

  /** From the state that some attempts led to, the loop summarizes those attempts and the
      ones it makes itself. */
  lemma {:induction false} LoopSummarizes(ticks: seq<Tick>, obs: seq<Observation>)
    requires Unrecovered(obs)
    ensures var v := Track(obs);
      Loop(ticks, v) == Summarize(obs + Observed(ticks, v.unavailableMs.Some?, v.lastSuccessMs.Some?))
    decreases |ticks|
  {
    var v := Track(obs);
    if ticks == [] || Stops(ticks[0], v) {
      assert obs + [] == obs;
      UnfinishedIsSummary(obs);
    } else {
      var o := Observation(ticks[0].attempt, ticks[0].elapsed);
      TrackNext(obs, o);
      if o.attempt.Ready? && v.unavailableMs.Some? {
        assert [o] + [] == [o];
        RecoveredIsSummary(obs + [o]);
      } else {
        StillUnrecovered(obs, o);
        LoopSummarizes(ticks[1..], obs + [o]);
        JoinAttempts(obs, o, Observed(ticks[1..], v.unavailableMs.Some? || !o.attempt.Ready?, v.lastSuccessMs.Some? || o.attempt.Ready?));
      }
    }
  }

  lemma LoopFromStart(ticks: seq<Tick>)
    ensures Loop(ticks, START) == Summarize(Observed(ticks, false, false))
  {
    LoopSummarizes(ticks, []);
    assert [] + Observed(ticks, false, false) == Observed(ticks, false, false);
  }

  lemma JoinAttempts(obs: seq<Observation>, o: Observation, rest: seq<Observation>)
    ensures obs + ([o] + rest) == obs + [o] + rest
  {
  }

  // ----- what the summary means

  ghost predicate Ordered(obs: seq<Observation>) {
    forall i, j :: 0 <= i < j < |obs| ==> obs[i].elapsed <= obs[j].elapsed
  }

  ghost predicate Recovers(obs: seq<Observation>) {
    exists i, j :: 0 <= i < j < |obs| && !obs[i].attempt.Ready? && obs[j].attempt.Ready?
  }

  /** The loop stops at the first recovery: after a failed attempt, only the last attempt
      can be successful. */
  lemma {:induction false} ObservedStopsAtRecovery(ticks: seq<Tick>, down: bool, up: bool)
    ensures var obs := Observed(ticks, down, up);
      forall i, j :: 0 <= i < j < |obs| && (down || !obs[i].attempt.Ready?) && obs[j].attempt.Ready? ==> j == |obs| - 1
    ensures down ==> forall j :: 0 <= j < |Observed(ticks, down, up)| - 1 ==> !Observed(ticks, down, up)[j].attempt.Ready?
  {
    var obs := Observed(ticks, down, up);
    if obs != [] {
      var t := ticks[0];
      if !(t.attempt.Ready? && down) {
        ObservedStopsAtRecovery(ticks[1..], down || !t.attempt.Ready?, up || t.attempt.Ready?);
        assert obs[1..] == Observed(ticks[1..], down || !t.attempt.Ready?, up || t.attempt.Ready?);
        forall i, j | 0 <= i < j < |obs| && (down || !obs[i].attempt.Ready?) && obs[j].attempt.Ready?
          ensures j == |obs| - 1
        {
          assert obs[j] == obs[1..][j - 1];
          if i > 0 { assert obs[i] == obs[1..][i - 1]; }
        }
      }
    }
  }

  /** In every run: `ms` is given exactly when the last status is 200, and a downtime
      exactly when a failed attempt was followed by a successful one. */
  lemma ProbeResultGivenWhen(ticks: seq<Tick>)
    requires forall t <- ticks :: IsAttempt(t.attempt)
    ensures var obs := Observed(ticks, false, false);
      (Summarize(obs).ms.Some? <==> Summarize(obs).status == Some(200)) &&
      (Summarize(obs).downtimeMs.Some? <==> Recovers(obs))
  {
    var obs := Observed(ticks, false, false);
    ObservedStopsAtRecovery(ticks, false, false);
    ObservedAttempts(ticks, false, false);
    FirstDownExact(obs);
    if obs != [] { assert obs[|obs| - 1] in obs; }
    if Recovers(obs) {
      var i, j :| 0 <= i < j < |obs| && !obs[i].attempt.Ready? && obs[j].attempt.Ready?;
      assert j == |obs| - 1 && obs[i] in obs;
    }
  }

  /** The attempts before the outage, during it, and the one that ends it. */
  ghost predicate OutageFrom(obs: seq<Observation>, i: nat) {
    i < |obs| - 1 && forall j :: 0 <= j < |obs| ==> (obs[j].attempt.Ready? <==> j < i || j == |obs| - 1)
  }

  /** A reported downtime runs from the first failed attempt to the recovery, the last
      attempt, with nothing but failures between; on a clock that does not go back it is
      not negative. */
  lemma DowntimeSpansTheOutage(ticks: seq<Tick>)
    requires Summarize(Observed(ticks, false, false)).downtimeMs.Some?
    ensures var obs := Observed(ticks, false, false);
      exists i: nat :: OutageFrom(obs, i) &&
        Summarize(obs).downtimeMs == Some(obs[|obs| - 1].elapsed - obs[i].elapsed)
    ensures Ordered(Observed(ticks, false, false)) ==> Summarize(Observed(ticks, false, false)).downtimeMs.value >= 0
  {
    var obs := Observed(ticks, false, false);
    ObservedStopsAtRecovery(ticks, false, false);
    FirstDownExact(obs);
    assert OutageFrom(obs, FirstDown(obs).value);
  }

  lemma {:induction false} ObservedAttempts(ticks: seq<Tick>, down: bool, up: bool)
    requires forall t <- ticks :: IsAttempt(t.attempt)
    ensures forall o <- Observed(ticks, down, up) :: IsAttempt(o.attempt)
  {
    if Observed(ticks, down, up) != [] {
      ObservedAttempts(ticks[1..], down || !ticks[0].attempt.Ready?, up || ticks[0].attempt.Ready?);
    }
  }

  /** After the attempts up to the i-th, the latest transition is the i-th attempt, and it
      stays in the list for good. */
  ghost predicate ShownBy(obs: seq<Observation>, i: nat)
    requires i < |obs|
  {
    var c := Collapse(obs[..i + 1]);
    c != [] && c <= Collapse(obs) && c[|c| - 1].attempt == obs[i].attempt
  }

  /** The transitions are the attempts with repetitions removed: neighbours differ, and
      every attempt is the one of the latest transition not after it. */
  lemma {:induction false} CollapseMeans(obs: seq<Observation>)
    ensures forall k :: 0 <= k && k + 1 < |Collapse(obs)| ==> Collapse(obs)[k].attempt != Collapse(obs)[k + 1].attempt
    ensures forall i: nat :: i < |obs| ==> ShownBy(obs, i)
  {
    if obs != [] {
      var n := |obs| - 1;
      var shorter := obs[..n];
      CollapseMeans(shorter);
      assert n > 0 ==> ShownBy(shorter, n - 1) && shorter[..n] == shorter;
      assert obs[..n + 1] == obs;
      forall i: nat | i < n ensures ShownBy(obs, i) {
        assert ShownBy(shorter, i) && shorter[..i + 1] == obs[..i + 1];
      }
    }
  }
}
