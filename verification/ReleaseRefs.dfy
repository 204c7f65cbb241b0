/** Write-once release refs (scripts/mobile-release-ref.ts): recorders read the remote ref,
    create it if it is absent, and read it back, while other recorders do the same.
    A push with `--force-with-lease=<ref>:` is taken to create the ref atomically, and only
    if it is absent; git may also report success for a ref that already has the value. */
module ReleaseRefs {
  import opened Text

  type Ref = string
  type Sha = string
  type Refs = map<Ref, Sha>

  datatype Status = AlreadyRecorded | Created

  /** Where a call of `recordMobileReleaseRef` has got to. */
  datatype Phase = Inspecting | Pushing | Verifying | Succeeded(status: Status) | Threw

  datatype Recorder = Recorder(ref: Ref, sha: Sha, phase: Phase)

  function Lookup(refs: Refs, ref: Ref): Option<Sha> {
    if ref in refs then Some(refs[ref]) else None
  }

  // ----- what each git answer leads to

  /** `read` is what `git ls-remote` said, or None if it failed. */
  function AfterInspection(sha: Sha, read: Option<Option<Sha>>): Phase {
    match read
    case None => Threw
    case Some(None) => Pushing
    case Some(Some(existing)) => if existing == sha then Succeeded(AlreadyRecorded) else Threw
  }

  function AfterPush(reportedOk: bool): Phase { if reportedOk then Verifying else Threw }

  function AfterVerification(sha: Sha, read: Option<Option<Sha>>): Phase {
    if read == Some(Some(sha)) then Succeeded(Created) else Threw
  }

  /** One push attempt: whether it took effect at the remote and what it reported. */
  datatype Push = Push(applied: bool, reportedOk: bool)

  /** A push takes effect only on an absent ref; it reports success only if it took effect
      or the ref already had the value. A push that took effect may still report failure. */
  predicate PossiblePush(refs: Refs, ref: Ref, sha: Sha, push: Push) {
    (push.applied ==> ref !in refs) &&
    (push.reportedOk ==> push.applied || Lookup(refs, ref) == Some(sha))
  }

  function Pushed(refs: Refs, ref: Ref, sha: Sha, push: Push): Refs {
    if push.applied then refs[ref := sha] else refs
  }

  // ----- any number of interleaved recorders

  datatype World = World(refs: Refs, recorders: seq<Recorder>)

  datatype Event =
    | Begin(ref: Ref, sha: Sha)
    | Inspect(i: nat, answered: bool)
    | Attempt(i: nat, push: Push)
    | Verify(i: nat, answered: bool)

  function Read(refs: Refs, ref: Ref, answered: bool): Option<Option<Sha>> {
    if answered then Some(Lookup(refs, ref)) else None
  }

  predicate Enabled(w: World, e: Event) {
    match e
    case Begin(_, _) => true
    case Inspect(i, _) => i < |w.recorders| && w.recorders[i].phase == Inspecting
    case Attempt(i, push) => i < |w.recorders| && w.recorders[i].phase == Pushing &&
      PossiblePush(w.refs, w.recorders[i].ref, w.recorders[i].sha, push)
    case Verify(i, _) => i < |w.recorders| && w.recorders[i].phase == Verifying
  }

  function Step(w: World, e: Event): World
    requires Enabled(w, e)
  {
    match e
    case Begin(ref, sha) => w.(recorders := w.recorders + [Recorder(ref, sha, Inspecting)])
    case Inspect(i, answered) =>
      var r := w.recorders[i];
      w.(recorders := w.recorders[i := r.(phase := AfterInspection(r.sha, Read(w.refs, r.ref, answered)))])
    case Attempt(i, push) =>
      var r := w.recorders[i];
      World(Pushed(w.refs, r.ref, r.sha, push), w.recorders[i := r.(phase := AfterPush(push.reportedOk))])
    case Verify(i, answered) =>
      var r := w.recorders[i];
      w.(recorders := w.recorders[i := r.(phase := AfterVerification(r.sha, Read(w.refs, r.ref, answered)))])
  }

  ghost predicate StepsTo(w: World, e: Event, next: World) {
    Enabled(w, e) && next == Step(w, e)
  }

  ghost predicate IsHistory(worlds: seq<World>, events: seq<Event>) {
    |worlds| == |events| + 1 && worlds[0].recorders == [] &&
    forall k :: 0 <= k < |events| ==> StepsTo(worlds[k], events[k], worlds[k + 1])
  }

  /** A set ref stays set, with the same value. */
  predicate Keeps(refs: Refs, later: Refs) {
    forall ref <- refs :: ref in later && later[ref] == refs[ref]
  }

  /** A recorder that has succeeded, or whose push was accepted, finds its sha recorded;
      one that is done stays as it is. */
  predicate Recorded(w: World) {
    forall r <- w.recorders :: r.phase.Succeeded? || r.phase.Verifying? ==> Lookup(w.refs, r.ref) == Some(r.sha)
  }

  predicate Forward(r: Recorder, later: Recorder) {
    later.ref == r.ref && later.sha == r.sha && (r.phase.Succeeded? || r.phase.Threw? ==> later.phase == r.phase)
  }

  predicate GoodStep(w: World, next: World) {
    Keeps(w.refs, next.refs) && Recorded(next) && |w.recorders| <= |next.recorders| &&
    forall i :: 0 <= i < |w.recorders| ==> Forward(w.recorders[i], next.recorders[i])
  }

  lemma StepKeeps(w: World, e: Event)
    requires Recorded(w) && Enabled(w, e)
    ensures GoodStep(w, Step(w, e))
  {
    var next := Step(w, e);
    forall r | r in next.recorders && (r.phase.Succeeded? || r.phase.Verifying?)
      ensures Lookup(next.refs, r.ref) == Some(r.sha)
    {
      var i :| 0 <= i < |next.recorders| && next.recorders[i] == r;
      if i < |w.recorders| { assert w.recorders[i] in w.recorders; }
    }
  }

  lemma {:induction false} HistoryKeeps(worlds: seq<World>, events: seq<Event>, k: nat, m: nat)
    requires IsHistory(worlds, events) && k <= m <= |events|
    ensures Recorded(worlds[m]) && Keeps(worlds[k].refs, worlds[m].refs) && |worlds[k].recorders| <= |worlds[m].recorders|
    ensures forall i :: 0 <= i < |worlds[k].recorders| ==> Forward(worlds[k].recorders[i], worlds[m].recorders[i])
    decreases m
  {
    if m > 0 {
      HistoryKeeps(worlds, events, if k < m then k else m - 1, m - 1);
      assert StepsTo(worlds[m - 1], events[m - 1], worlds[m]);
      StepKeeps(worlds[m - 1], events[m - 1]);
    }
  }

  // ----- agreement

  /** In every history: once a recorder has succeeded, its ref holds its sha for ever, and
      every lookup that is answered says so. */
  lemma SuccessIsPermanent(worlds: seq<World>, events: seq<Event>, k: nat, m: nat, i: nat, answered: bool)
    requires IsHistory(worlds, events) && k <= m <= |events|
    requires i < |worlds[k].recorders| && worlds[k].recorders[i].phase.Succeeded?
    ensures var r := worlds[k].recorders[i];
      Resolve(worlds[m].refs, r.ref, answered) == if answered then Some(r.sha) else None
  {
    HistoryKeeps(worlds, events, k, k);
    HistoryKeeps(worlds, events, k, m);
    assert worlds[k].recorders[i] in worlds[k].recorders;
  }

  /** `resolveMobileReleaseRef`: the recorded sha, or an error. */
  function Resolve(refs: Refs, ref: Ref, answered: bool): Option<Sha> {
    match Read(refs, ref, answered)
    case None => None
    case Some(existing) => existing
  }

  /** Any two successes for one ref, at any times, carry the same sha. */
  lemma SuccessesAgree(worlds: seq<World>, events: seq<Event>, k: nat, i: nat, m: nat, j: nat)
    requires IsHistory(worlds, events) && k <= |events| && m <= |events|
    requires i < |worlds[k].recorders| && worlds[k].recorders[i].phase.Succeeded?
    requires j < |worlds[m].recorders| && worlds[m].recorders[j].phase.Succeeded?
    requires worlds[k].recorders[i].ref == worlds[m].recorders[j].ref
    ensures worlds[k].recorders[i].sha == worlds[m].recorders[j].sha
  {
    var n := if k < m then m else k;
    SuccessIsPermanent(worlds, events, k, n, i, true);
    SuccessIsPermanent(worlds, events, m, n, j, true);
  }

  /** Every set ref was set before the history or holds the sha of a recorder of that ref. */
  lemma {:induction false} RefsComeFromRecorders(worlds: seq<World>, events: seq<Event>, m: nat, ref: Ref)
    requires IsHistory(worlds, events) && m <= |events| && ref in worlds[m].refs
    ensures (ref in worlds[0].refs && worlds[0].refs[ref] == worlds[m].refs[ref]) ||
            exists r <- worlds[m].recorders :: r.ref == ref && r.sha == worlds[m].refs[ref]
    decreases m
  {
    if m > 0 {
      var w, e := worlds[m - 1], events[m - 1];
      assert StepsTo(w, e, worlds[m]);
      HistoryKeeps(worlds, events, m - 1, m);
      if ref in w.refs {
        RefsComeFromRecorders(worlds, events, m - 1, ref);
        if r :| r in w.recorders && r.ref == ref && r.sha == w.refs[ref] {
          var i :| 0 <= i < |w.recorders| && w.recorders[i] == r;
          assert Forward(w.recorders[i], worlds[m].recorders[i]);
          assert worlds[m].recorders[i] in worlds[m].recorders;
        }
      } else {
        assert worlds[m].recorders[e.i] in worlds[m].recorders;
      }
    }
  }

  // ----- one recorder at a time

  /** The answers git gives to one call. */
  datatype Answers = Answers(inspected: bool, push: Push, verified: bool)

  /** What a call leaves behind. */
  datatype Call = Call(refs: Refs, phase: Phase)

  /** The whole call with nobody else at work. */
  function Record(refs: Refs, ref: Ref, sha: Sha, answers: Answers): Call {
    var first := AfterInspection(sha, Read(refs, ref, answers.inspected));
    if first != Pushing then Call(refs, first)
    else
      var pushed := Pushed(refs, ref, sha, answers.push);
      if !answers.push.reportedOk then Call(pushed, Threw)
      else Call(pushed, AfterVerification(sha, Read(pushed, ref, answers.verified)))
  }

  /** The same call as consecutive events of the history machine. */
  function RunAlone(w: World, ref: Ref, sha: Sha, answers: Answers): World
    requires ref !in w.refs ==> PossiblePush(w.refs, ref, sha, answers.push)
  {
    var i := |w.recorders|;
    var inspected := Step(Step(w, Begin(ref, sha)), Inspect(i, answers.inspected));
    if inspected.recorders[i].phase != Pushing then inspected
    else
      var pushed := Step(inspected, Attempt(i, answers.push));
      if pushed.recorders[i].phase != Verifying then pushed else Step(pushed, Verify(i, answers.verified))
  }

  lemma RecordIsAnUndisturbedRun(w: World, ref: Ref, sha: Sha, answers: Answers)
    requires ref !in w.refs ==> PossiblePush(w.refs, ref, sha, answers.push)
    ensures var call := Record(w.refs, ref, sha, answers);
      RunAlone(w, ref, sha, answers) == World(call.refs, w.recorders + [Recorder(ref, sha, call.phase)])
  {
    var final := RunAlone(w, ref, sha, answers);
    var call := Record(w.refs, ref, sha, answers);
    assert final.refs == call.refs && |final.recorders| == |w.recorders| + 1;
    assert final.recorders[|w.recorders|] == Recorder(ref, sha, call.phase);
    assert final.recorders == w.recorders + [Recorder(ref, sha, call.phase)];
  }

  /** What one undisturbed call does: it never changes a set ref; success means the ref
      holds the sha; on a free ref with every answer given it succeeds as created; on a
      ref that holds another sha it always throws. */
  lemma RecordAlone(refs: Refs, ref: Ref, sha: Sha, answers: Answers)
    requires ref !in refs ==> PossiblePush(refs, ref, sha, answers.push)
    ensures var call := Record(refs, ref, sha, answers);
      var later, phase := call.refs, call.phase;
      Keeps(refs, later) && later.Keys <= refs.Keys + {ref} &&
      (phase.Succeeded? ==> Lookup(later, ref) == Some(sha)) &&
      (phase == Succeeded(Created) <==> ref !in refs && answers.inspected && answers.push.reportedOk && answers.verified) &&
      (Lookup(refs, ref) == Some(sha) && answers.inspected ==> later == refs && phase == Succeeded(AlreadyRecorded)) &&
      (ref in refs && refs[ref] != sha ==> later == refs && phase == Threw)
  {
  }

  /** Re-running a successful record at any later time changes nothing and succeeds. */
  lemma RerunChangesNothing(worlds: seq<World>, events: seq<Event>, k: nat, m: nat, i: nat, answers: Answers)
    requires IsHistory(worlds, events) && k <= m <= |events|
    requires i < |worlds[k].recorders| && worlds[k].recorders[i].phase.Succeeded? && answers.inspected
    ensures var r := worlds[k].recorders[i];
      Record(worlds[m].refs, r.ref, r.sha, answers) == Call(worlds[m].refs, Succeeded(AlreadyRecorded))
  {
    SuccessIsPermanent(worlds, events, k, m, i, true);
  }
}
