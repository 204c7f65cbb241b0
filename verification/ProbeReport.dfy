/** The fields of a restart probe's result, read off the attempts that were made, and which
    attempts those are (scripts/bench-gateway-restart.ts, waitForRestartProbe). */
module ProbeReport {
  import opened Text
  import opened RestartProbe

  /** Attempt `i` is the first that failed. */
  ghost predicate FirstFailure(obs: seq<Observation>, i: nat) {
    i < |obs| && !obs[i].attempt.Ready? && forall j :: 0 <= j < i ==> obs[j].attempt.Ready?
  }

  ghost predicate AllReady(obs: seq<Observation>) { forall o <- obs :: o.attempt.Ready? }

  lemma FirstFailureIs(obs: seq<Observation>, i: nat)
    requires FirstFailure(obs, i)
    ensures FirstDown(obs) == Some(i)
  {
    FirstDownExact(obs);
    assert obs[i] in obs;
  }

  /** The status an attempt came back with. */
  ghost predicate HasStatus(a: Attempt, status: Option<int>) {
    && (a.Ready? ==> status == Some(200))
    && (a.HttpError? ==> status == Some(a.code))
    && (a.NoAnswer? ==> status == None)
  }

  /** The status is that of the last attempt, and `ms` its time if it was successful. */
  lemma LastAttemptFields(obs: seq<Observation>)
    ensures var r, n := Summarize(obs), |obs|;
      && (if n == 0 then r.status == None else HasStatus(obs[n - 1].attempt, r.status))
      && r.ms == (if n > 0 && obs[n - 1].attempt.Ready? then Some(obs[n - 1].elapsed) else None)
      && r.transitions == Collapse(obs)
  {
    FirstDownExact(obs);
    if obs != [] { assert obs[|obs| - 1] in obs; }
  }

  /** Without a failed attempt there is no error, no outage and no recovery. */
  lemma NoFailureFields(obs: seq<Observation>)
    requires AllReady(obs)
    ensures var r := Summarize(obs);
      r.firstError == None && r.unavailableMs == None && r.firstRecoveryMs == None && r.downtimeMs == None
  {
    FirstDownExact(obs);
  }

  /** The error and the start of the outage are those of the first failed attempt; a
      recovery is a successful last attempt, and the downtime is the time between. */
  lemma FirstFailureFields(obs: seq<Observation>, i: nat)
    requires FirstFailure(obs, i)
    ensures var r, last := Summarize(obs), obs[|obs| - 1];
      && r.firstError == Some(obs[i].attempt)
      && r.unavailableMs == Some(obs[i].elapsed)
      && r.firstRecoveryMs == (if last.attempt.Ready? then Some(last.elapsed) else None)
      && r.downtimeMs == (if last.attempt.Ready? then Some(last.elapsed - obs[i].elapsed) else None)
  {
    FirstFailureIs(obs, i);
  }

  /** An attempt that shows something new. */
  predicate Changes(obs: seq<Observation>, i: nat)
    requires i < |obs|
  {
    i == 0 || obs[i].attempt != obs[i - 1].attempt
  }

  /** The places of the transitions among the attempts: in order, and exactly those attempts
      that differ from the one before. */
  ghost predicate TransitionsAt(obs: seq<Observation>, transitions: seq<Observation>, places: seq<nat>) {
    && |places| == |transitions|
    && (forall j, k :: 0 <= j < k < |places| ==> places[j] < places[k])
    && (forall k :: 0 <= k < |places| ==> places[k] < |obs| && transitions[k] == obs[places[k]])
    && (forall i: nat :: i < |obs| ==> (i in places <==> Changes(obs, i)))
  }

  lemma ChangesEarlier(obs: seq<Observation>, n: nat)
    requires n < |obs|
    ensures forall i: nat :: i < n ==> (Changes(obs, i) <==> Changes(obs[..n], i))
  {
  }

  lemma TransitionsGrow(obs: seq<Observation>, transitions: seq<Observation>, places: seq<nat>)
    requires obs != [] && TransitionsAt(obs[..|obs| - 1], transitions, places)
    ensures var n := |obs| - 1;
      if Changes(obs, n) then TransitionsAt(obs, transitions + [obs[n]], places + [n]) else TransitionsAt(obs, transitions, places)
  {
    var n := |obs| - 1;
    ChangesEarlier(obs, n);
    assert n !in places;
    if Changes(obs, n) {
      var all := places + [n];
      forall i: nat | i < |obs| ensures i in all <==> Changes(obs, i) { assert i in all <==> i in places || i == n; }
    }
  }

  /** The transitions, with their times, are the attempts that differ from the one before. */
  lemma {:induction false} TransitionsExactly(obs: seq<Observation>) returns (places: seq<nat>)
    ensures TransitionsAt(obs, Collapse(obs), places)
  {
    if obs == [] {
      places := [];
    } else {
      var n := |obs| - 1;
      var earlier := TransitionsExactly(obs[..n]);
      TransitionsGrow(obs, Collapse(obs[..n]), earlier);
      places := if Changes(obs, n) then earlier + [n] else earlier;
    }
  }

  /** The loop stops before this tick, after these attempts. */
  ghost predicate StopsBefore(t: Tick, obs: seq<Observation>) {
    t.expired || t.processDone || (t.done && obs != [] && AllReady(obs))
  }

  ghost predicate Recovered(obs: seq<Observation>) {
    obs != [] && obs[|obs| - 1].attempt.Ready? && exists o <- obs :: !o.attempt.Ready?
  }

  /** One attempt per tick, from the first tick on. */
  ghost predicate MadeOn(ticks: seq<Tick>, obs: seq<Observation>) {
    |obs| <= |ticks| && forall k :: 0 <= k < |obs| ==> obs[k] == Observation(ticks[k].attempt, ticks[k].elapsed)
  }

  /** The loop makes attempt `k` of `more` and did not end with the one before it. */
  ghost predicate Continues(ticks: seq<Tick>, before: seq<Observation>, more: seq<Observation>, k: nat)
    requires k < |more| && k < |ticks|
  {
    var all := before + more[..k];
    !StopsBefore(ticks[k], all) && (k > 0 ==> !Recovered(all))
  }

  /** After the attempts `before` the loop goes on with `more`: it stops where it should and
      nowhere else. */
  ghost predicate GoesOn(ticks: seq<Tick>, before: seq<Observation>, more: seq<Observation>) {
    && MadeOn(ticks, more)
    && (forall k :: 0 <= k < |more| ==> Continues(ticks, before, more, k))
    && (|more| < |ticks| ==> StopsBefore(ticks[|more|], before + more) || (more != [] && Recovered(before + more)))
  }

  lemma ContinuesLater(ticks: seq<Tick>, before: seq<Observation>, o: Observation, rest: seq<Observation>, k: nat)
    requires 0 < k <= |rest| && k < |ticks| && Continues(ticks[1..], before + [o], rest, k - 1)
    requires !Recovered(before + [o])
    ensures Continues(ticks, before, [o] + rest, k)
  {
    assert before + ([o] + rest)[..k] == before + [o] + rest[..k - 1];
    assert rest[..0] == [] && before + [o] + [] == before + [o];
  }

  lemma GoesOnFrom(ticks: seq<Tick>, before: seq<Observation>, o: Observation, rest: seq<Observation>)
    requires ticks != [] && o == Observation(ticks[0].attempt, ticks[0].elapsed) && !StopsBefore(ticks[0], before)
    requires !Recovered(before + [o]) && GoesOn(ticks[1..], before + [o], rest)
    ensures GoesOn(ticks, before, [o] + rest)
  {
    var more := [o] + rest;
    assert MadeOn(ticks, more) by {
      assert forall k :: 0 < k < |more| ==> more[k] == rest[k - 1] && ticks[k] == ticks[1..][k - 1];
    }
    forall k | 0 <= k < |more| ensures Continues(ticks, before, more, k) {
      if k == 0 {
        assert before + more[..0] == before;
      } else {
        ContinuesLater(ticks, before, o, rest, k);
      }
    }
    assert before + more == before + [o] + rest;
    assert before + [o] + [] == before + [o];
  }

  lemma RecoveredOnce(ticks: seq<Tick>, before: seq<Observation>, o: Observation)
    requires ticks != [] && o == Observation(ticks[0].attempt, ticks[0].elapsed) && !StopsBefore(ticks[0], before)
    requires Recovered(before + [o])
    ensures GoesOn(ticks, before, [o])
  {
    assert [o][..0] == [] && before + [] == before;
  }

  lemma StopsAtOnce(ticks: seq<Tick>, before: seq<Observation>)
    requires ticks != [] ==> StopsBefore(ticks[0], before)
    ensures GoesOn(ticks, before, [])
  {
    assert before + [] == before;
  }

  lemma {:induction false} ObservedGoesOn(ticks: seq<Tick>, before: seq<Observation>)
    ensures var down, up := exists o <- before :: !o.attempt.Ready?, exists o <- before :: o.attempt.Ready?;
      GoesOn(ticks, before, Observed(ticks, down, up))
    decreases |ticks|
  {
    var down, up := exists o <- before :: !o.attempt.Ready?, exists o <- before :: o.attempt.Ready?;
    assert AllReady(before) <==> !down;
    assert before != [] && !down ==> before[0] in before;
    if ticks == [] || StopsBefore(ticks[0], before) {
      StopsAtOnce(ticks, before);
    } else {
      var o := Observation(ticks[0].attempt, ticks[0].elapsed);
      var all := before + [o];
      assert (exists x <- all :: !x.attempt.Ready?) <==> down || !o.attempt.Ready?;
      assert (exists x <- all :: x.attempt.Ready?) <==> up || o.attempt.Ready?;
      if o.attempt.Ready? && down {
        RecoveredOnce(ticks, before, o);
      } else {
        ObservedGoesOn(ticks[1..], all);
        GoesOnFrom(ticks, before, o, Observed(ticks[1..], down || !o.attempt.Ready?, up || o.attempt.Ready?));
      }
    }
  }

  /** In every run, one attempt is made per tick until the loop stops, and it stops exactly at
      a deadline, at the end of the process, at a recovery, or when the caller is done and
      all attempts, of which there is one, were successful. */
  lemma AttemptsAreMade(ticks: seq<Tick>)
    ensures GoesOn(ticks, [], Observed(ticks, false, false))
  {
    ObservedGoesOn(ticks, []);
  }
}
