/** The crash-resumable labeller (scripts/label-open-issues.ts): every work batch is
    classified item by item and progress is saved after each batch. A run may die before or
    after any model call, at any page, and before any save takes effect; saves are atomic
    and the state file stays readable. */
module Labeller {
  import opened Text
  import opened LabelBatches

  datatype Kind = Issues | PullRequests

  /** The numbers already dealt with, in memory and in the state file alike. */
  datatype State = State(issues: set<int>, pullRequests: set<int>)

  function Done(state: State, kind: Kind): set<int> {
    if kind == Issues then state.issues else state.pullRequests
  }

  function Add(state: State, kind: Kind, number: int): State {
    if kind == Issues then state.(issues := state.issues + {number})
    else state.(pullRequests := state.pullRequests + {number})
  }

  /** A run in progress: its sets, the state file, the items it asked the model about, the
      items it finished, how many more steps it survives (None: all), and whether it died.
      Reaching an item, finishing it and saving a batch are one step each. */
  datatype Progress = Progress(memory: State, file: State, classified: seq<(Kind, int)>, finished: seq<(Kind, int)>,
                               budget: Option<nat>, crashed: bool)

  /** A pull request that carries the skill label already is passed without a model call. */
  predicate AsksModel(kind: Kind, item: Item) { kind == Issues || !item.skillLabelled }

  /** The run dies here if its steps are used up. */
  function Spend(p: Progress): Progress {
    match p.budget
    case None => p
    case Some(steps) => if steps == 0 then p.(crashed := true) else p.(budget := Some(steps - 1))
  }

  function Ask(kind: Kind, p: Progress, item: Item): Progress {
    if AsksModel(kind, item) then p.(classified := p.classified + [(kind, item.number)]) else p
  }

  function Finish(kind: Kind, p: Progress, item: Item): Progress {
    p.(memory := Add(p.memory, kind, item.number), finished := p.finished + [(kind, item.number)])
  }

  /** One pending item: the run may die before it is asked about, or before it is finished
      and added to the sets. */
  function WorkItem(kind: Kind, p: Progress, item: Item): Progress {
    var reached := Spend(p);
    if reached.crashed then reached
    else
      var asked := Spend(Ask(kind, reached, item));
      if asked.crashed then asked else Finish(kind, asked, item)
  }

  function WorkItems(kind: Kind, p: Progress, items: seq<Item>): Progress
    decreases |items|
  {
    if items == [] || p.crashed then p else WorkItems(kind, WorkItem(kind, p, items[0]), items[1..])
  }

  function Pending(items: seq<Item>, done: set<int>): seq<Item> {
    if items == [] then []
    else
      var n := |items| - 1;
      Pending(items[..n], done) + (if items[n].number !in done then [items[n]] else [])
  }

  /** The checkpoint after a batch; the run may die before the file is replaced. */
  function Save(p: Progress, dryRun: bool, worked: bool): Progress {
    if p.crashed || dryRun || !worked then p
    else
      var reached := Spend(p);
      if reached.crashed then reached else reached.(file := p.memory)
  }

  function WorkBatch(kind: Kind, p: Progress, batch: seq<Item>, dryRun: bool): Progress {
    var pending := Pending(batch, Done(p.memory, kind));
    Save(WorkItems(kind, p, pending), dryRun, |pending| > 0)
  }

  function WorkBatches(kind: Kind, p: Progress, batches: seq<seq<Item>>, dryRun: bool): Progress
    decreases |batches|
  {
    if batches == [] || p.crashed then p
    else WorkBatches(kind, WorkBatch(kind, p, batches[0], dryRun), batches[1..], dryRun)
  }

  /** What the generator of one kind yields; `complete` is false when a later page failed. */
  datatype Fetched = Fetched(batches: seq<seq<Item>>, complete: bool)

  function WorkKind(kind: Kind, p: Progress, fetched: Fetched, dryRun: bool): Progress {
    var after := WorkBatches(kind, p, fetched.batches, dryRun);
    if fetched.complete then after else after.(crashed := true)
  }

  datatype Input = Input(issues: Fetched, pullRequests: Fetched, dryRun: bool, budget: Option<nat>)

  function Load(file: State, input: Input): Progress { Progress(file, file, [], [], input.budget, false) }

  /** A whole run of the script: load, issues, pull requests. */
  function RunScript(file: State, input: Input): Progress {
    var afterIssues := WorkKind(Issues, Load(file, input), input.issues, input.dryRun);
    if afterIssues.crashed then afterIssues
    else WorkKind(PullRequests, afterIssues, input.pullRequests, input.dryRun)
  }

  // ----- the script

  class LabelAudit {
    var file: State

    constructor (file: State)
      ensures this.file == file
    {
      this.file := file;
    }

    method FilterPending(items: seq<Item>, done: set<int>) returns (pending: seq<Item>)
      ensures pending == Pending(items, done)
    {
      pending := [];
      for i := 0 to |items|
        invariant pending == Pending(items[..i], done)
      {
        assert items[..i + 1][..i] == items[..i];
        if items[i].number !in done {
          pending := pending + [items[i]];
        }
      }
      assert items[..|items|] == items;
    }

    /** One pending item. */
    method ProcessItem(kind: Kind, p: Progress, item: Item) returns (next: Progress)
      requires !p.crashed
      ensures next == WorkItem(kind, p, item) && next.file == p.file
    {
      next := Spend(p);
      if next.crashed {
        return;
      }
      if kind == Issues || !item.skillLabelled {
        next := next.(classified := next.classified + [(kind, item.number)]);
      }
      next := Spend(next);
      if next.crashed {
        return;
      }
      var memory := next.memory;
      if kind == Issues {
        memory := memory.(issues := memory.issues + {item.number});
      } else {
        memory := memory.(pullRequests := memory.pullRequests + {item.number});
      }
      next := next.(memory := memory, finished := next.finished + [(kind, item.number)]);
    }

    /** The loop over the pending items of one batch. */
    method ProcessItems(kind: Kind, start: Progress, items: seq<Item>) returns (p: Progress)
      requires !start.crashed
      ensures p == WorkItems(kind, start, items) && p.file == start.file
    {
      p := start;
      assert items[0..] == items;
      var i := 0;
      while i < |items| && !p.crashed
        invariant i <= |items| && p.file == start.file
        invariant WorkItems(kind, start, items) == WorkItems(kind, p, items[i..])
      {
        assert items[i..][1..] == items[i + 1..];
        p := ProcessItem(kind, p, items[i]);
        i := i + 1;
      }
    }

    /** The checkpoint loop over the batches of one kind. */
    method ProcessBatches(kind: Kind, start: Progress, batches: seq<seq<Item>>, dryRun: bool) returns (p: Progress)
      requires start.file == file && !start.crashed
      modifies this
      ensures p == WorkBatches(kind, start, batches, dryRun) && file == p.file
    {
      p := start;
      assert batches[0..] == batches;
      for i := 0 to |batches|
        invariant !p.crashed && p.file == file
        invariant WorkBatches(kind, start, batches, dryRun) == WorkBatches(kind, p, batches[i..], dryRun)
      {
        assert batches[i..][1..] == batches[i + 1..];
        var pending := FilterPending(batches[i], Done(p.memory, kind));
        p := ProcessItems(kind, p, pending);
        if p.crashed {
          return;
        }
        if !dryRun && |pending| > 0 {
          p := Spend(p);
          if p.crashed {
            return;
          }
          file := p.memory;
          p := p.(file := file);
        }
      }
    }

    method Run(input: Input) returns (p: Progress)
      modifies this
      ensures p == RunScript(old(file), input) && file == p.file
    {
      p := Progress(file, file, [], [], input.budget, false);
      p := ProcessBatches(Issues, p, input.issues.batches, input.dryRun);
      if !input.issues.complete {
        p := p.(crashed := true);
      }
      if p.crashed {
        return;
      }
      p := ProcessBatches(PullRequests, p, input.pullRequests.batches, input.dryRun);
      if !input.pullRequests.complete {
        p := p.(crashed := true);
      }
    }
  }

  // ----- what one run keeps

  predicate Within(a: State, b: State) { a.issues <= b.issues && a.pullRequests <= b.pullRequests }

  predicate NoneKnown(entries: seq<(Kind, int)>, known: State) {
    forall e <- entries :: e.1 !in Done(known, e.0)
  }

  /** Memory is exactly what was loaded and what this run finished. */
  ghost predicate Accounts(loaded: State, p: Progress) {
    forall kind, n :: n in Done(p.memory, kind) <==> n in Done(loaded, kind) || (kind, n) in p.finished
  }

  /** How many finished numbers the state file does not hold yet. */
  function Unsaved(p: Progress): nat {
    |p.memory.issues - p.file.issues| + |p.memory.pullRequests - p.file.pullRequests|
  }

  ghost predicate Sound(loaded: State, dryRun: bool, p: Progress) {
    && Within(loaded, p.file)
    && Within(p.file, p.memory)
    && (dryRun ==> p.file == loaded)
    && NoneKnown(p.classified, loaded)
    && Accounts(loaded, p)
  }

  /** Between batches nothing is unsaved; a death costs at most one batch. */
  ghost predicate Saved(dryRun: bool, p: Progress) {
    !dryRun ==> if p.crashed then Unsaved(p) <= WORK_BATCH_SIZE else p.file == p.memory
  }

  lemma FinishCosts(kind: Kind, p: Progress, item: Item)
    ensures Unsaved(Finish(kind, p, item)) <= Unsaved(p) + 1
  {
    var n := item.number;
    if kind == Issues {
      Smaller(p.memory.issues + {n} - p.file.issues, (p.memory.issues - p.file.issues) + {n});
    } else {
      Smaller(p.memory.pullRequests + {n} - p.file.pullRequests, (p.memory.pullRequests - p.file.pullRequests) + {n});
    }
  }

  lemma ItemCosts(kind: Kind, p: Progress, item: Item)
    ensures Unsaved(WorkItem(kind, p, item)) <= Unsaved(p) + 1
  {
    FinishCosts(kind, Spend(Ask(kind, Spend(p), item)), item);
  }

  lemma Smaller(a: set<int>, b: set<int>)
    requires a <= b
    ensures |a| <= |b|
  {
    assert b == a + (b - a);
  }

  lemma ItemKeeps(kind: Kind, loaded: State, dryRun: bool, p: Progress, item: Item)
    requires Sound(loaded, dryRun, p) && item.number !in Done(loaded, kind)
    ensures Sound(loaded, dryRun, WorkItem(kind, p, item))
  {
  }

  lemma {:induction false} ItemsKeep(kind: Kind, loaded: State, dryRun: bool, p: Progress, items: seq<Item>)
    requires Sound(loaded, dryRun, p) && forall item <- items :: item.number !in Done(loaded, kind)
    requires !p.crashed
    ensures var after := WorkItems(kind, p, items);
      Sound(loaded, dryRun, after) && Unsaved(after) <= Unsaved(p) + |items|
    decreases |items|
  {
    if items != [] {
      var next := WorkItem(kind, p, items[0]);
      ItemKeeps(kind, loaded, dryRun, p, items[0]);
      ItemCosts(kind, p, items[0]);
      if !next.crashed { ItemsKeep(kind, loaded, dryRun, next, items[1..]); }
    }
  }

  lemma {:induction false} PendingIsNew(items: seq<Item>, done: set<int>)
    ensures var pending := Pending(items, done);
      |pending| <= |items| && forall item :: item in pending <==> item in items && item.number !in done
  {
    if items != [] {
      var n := |items| - 1;
      PendingIsNew(items[..n], done);
      assert items == items[..n] + [items[n]];
    }
  }

  lemma SaveKeeps(loaded: State, dryRun: bool, p: Progress, worked: bool)
    requires Sound(loaded, dryRun, p) && (!dryRun ==> Unsaved(p) <= WORK_BATCH_SIZE)
    requires !dryRun && !p.crashed && !worked ==> p.file == p.memory
    ensures Sound(loaded, dryRun, Save(p, dryRun, worked)) && Saved(dryRun, Save(p, dryRun, worked))
  {
  }

  lemma BatchKeeps(kind: Kind, loaded: State, p: Progress, batch: seq<Item>, dryRun: bool)
    requires Sound(loaded, dryRun, p) && Saved(dryRun, p) && !p.crashed && |batch| <= WORK_BATCH_SIZE
    ensures var after := WorkBatch(kind, p, batch, dryRun);
      Sound(loaded, dryRun, after) && Saved(dryRun, after)
  {
    var pending := Pending(batch, Done(p.memory, kind));
    PendingIsNew(batch, Done(p.memory, kind));
    assert Done(loaded, kind) <= Done(p.memory, kind);
    ItemsKeep(kind, loaded, dryRun, p, pending);
    if !dryRun { NothingUnsaved(p); }
    SaveKeeps(loaded, dryRun, WorkItems(kind, p, pending), |pending| > 0);
  }

  lemma NothingUnsaved(p: Progress)
    requires p.file == p.memory
    ensures Unsaved(p) == 0
  {
    assert p.memory.issues - p.file.issues == {} && p.memory.pullRequests - p.file.pullRequests == {};
  }

  predicate InBatches(batches: seq<seq<Item>>) { forall batch <- batches :: |batch| <= WORK_BATCH_SIZE }

  /** What the generator yields is in batches of at most the batch size, cut short or not. */
  lemma YieldedInBatches(batches: seq<seq<Item>>)
    requires Chunked(batches) || AllFull(batches)
    ensures InBatches(batches)
  {
    forall batch <- batches ensures |batch| <= WORK_BATCH_SIZE {
      var j :| 0 <= j < |batches| && batches[j] == batch;
      assert j == |batches| - 1 || |batches[j]| == WORK_BATCH_SIZE;
    }
  }

  lemma {:induction false} BatchesKeep(kind: Kind, loaded: State, p: Progress, batches: seq<seq<Item>>, dryRun: bool)
    requires Sound(loaded, dryRun, p) && Saved(dryRun, p) && InBatches(batches)
    ensures var after := WorkBatches(kind, p, batches, dryRun);
      Sound(loaded, dryRun, after) && Saved(dryRun, after)
    decreases |batches|
  {
    if batches != [] && !p.crashed {
      BatchKeeps(kind, loaded, p, batches[0], dryRun);
      BatchesKeep(kind, loaded, WorkBatch(kind, p, batches[0], dryRun), batches[1..], dryRun);
    }
  }

  lemma KindKeeps(kind: Kind, loaded: State, p: Progress, fetched: Fetched, dryRun: bool)
    requires Sound(loaded, dryRun, p) && Saved(dryRun, p) && InBatches(fetched.batches)
    ensures var after := WorkKind(kind, p, fetched, dryRun);
      Sound(loaded, dryRun, after) && Saved(dryRun, after)
  {
    BatchesKeep(kind, loaded, p, fetched.batches, dryRun);
    var after := WorkBatches(kind, p, fetched.batches, dryRun);
    if !dryRun && !after.crashed {
      assert after.memory.issues - after.file.issues == {} && after.memory.pullRequests - after.file.pullRequests == {};
    }
  }

  predicate InputInBatches(input: Input) { InBatches(input.issues.batches) && InBatches(input.pullRequests.batches) }

  /** A run only adds to the file, adds only what it finished, never asks about a number the
      file already held, and a death loses at most one batch of finished numbers. */
  lemma RunIsSafe(file: State, input: Input)
    requires InputInBatches(input)
    ensures var p := RunScript(file, input);
      Sound(file, input.dryRun, p) && Saved(input.dryRun, p)
  {
    var loaded := Load(file, input);
    KindKeeps(Issues, file, loaded, input.issues, input.dryRun);
    var p := WorkKind(Issues, loaded, input.issues, input.dryRun);
    if !p.crashed { KindKeeps(PullRequests, file, p, input.pullRequests, input.dryRun); }
  }

  // ----- a run that survives covers its input

  predicate Covers(state: State, kind: Kind, items: seq<Item>) {
    forall item <- items :: item.number in Done(state, kind)
  }

  lemma {:induction false} ItemsCovered(kind: Kind, p: Progress, items: seq<Item>)
    requires !WorkItems(kind, p, items).crashed
    ensures Within(p.memory, WorkItems(kind, p, items).memory) && Covers(WorkItems(kind, p, items).memory, kind, items)
    decreases |items|
  {
    if items != [] {
      ItemsCovered(kind, WorkItem(kind, p, items[0]), items[1..]);
      assert items == [items[0]] + items[1..];
    }
  }

  lemma BatchCovered(kind: Kind, p: Progress, batch: seq<Item>, dryRun: bool)
    requires !WorkBatch(kind, p, batch, dryRun).crashed
    ensures var after := WorkBatch(kind, p, batch, dryRun);
      Within(p.memory, after.memory) && Covers(after.memory, kind, batch)
  {
    var pending := Pending(batch, Done(p.memory, kind));
    PendingIsNew(batch, Done(p.memory, kind));
    ItemsCovered(kind, p, pending);
  }

  lemma {:induction false} BatchesCovered(kind: Kind, p: Progress, batches: seq<seq<Item>>, dryRun: bool)
    requires !WorkBatches(kind, p, batches, dryRun).crashed
    ensures var after := WorkBatches(kind, p, batches, dryRun);
      Within(p.memory, after.memory) && Covers(after.memory, kind, Flatten(batches))
    decreases |batches|
  {
    if batches != [] {
      var next := WorkBatch(kind, p, batches[0], dryRun);
      BatchesCovered(kind, next, batches[1..], dryRun);
      BatchCovered(kind, p, batches[0], dryRun);
      FlattenPrepend(batches[0], batches[1..]);
      assert batches == [batches[0]] + batches[1..];
    }
  }

  /** A real run that does not die leaves every listed number in the file. */
  lemma SurvivingRunRecordsAll(file: State, input: Input)
    requires InputInBatches(input) && !input.dryRun && !RunScript(file, input).crashed
    ensures Covers(RunScript(file, input).file, Issues, Flatten(input.issues.batches))
    ensures Covers(RunScript(file, input).file, PullRequests, Flatten(input.pullRequests.batches))
  {
    RunIsSafe(file, input);
    var p := WorkBatches(Issues, Load(file, input), input.issues.batches, false);
    BatchesCovered(Issues, Load(file, input), input.issues.batches, false);
    BatchesCovered(PullRequests, p, input.pullRequests.batches, false);
  }

  // ----- the loss of a whole batch

  function Numbers(items: seq<Item>): set<int> { set item <- items :: item.number }

  ghost predicate DistinctNumbers(items: seq<Item>) {
    forall i, j :: 0 <= i < j < |items| ==> items[i].number != items[j].number
  }

  lemma {:induction false} NumbersCount(items: seq<Item>)
    requires DistinctNumbers(items)
    ensures |Numbers(items)| == |items|
  {
    if items == [] {
      assert Numbers(items) == {};
    } else {
      var n := |items| - 1;
      NumbersCount(items[..n]);
      assert items == items[..n] + [items[n]];
      assert Numbers(items) == Numbers(items[..n]) + {items[n].number};
    }
  }

  lemma {:induction false} AllPending(items: seq<Item>, done: set<int>)
    requires Numbers(items) !! done
    ensures Pending(items, done) == items
  {
    if items != [] {
      var n := |items| - 1;
      assert items == items[..n] + [items[n]];
      assert items[n].number in Numbers(items);
      AllPending(items[..n], done);
    }
  }

  /** With two steps left for each item, all are finished and no step is left. */
  lemma {:induction false} AllFinished(p: Progress, items: seq<Item>)
    requires !p.crashed && p.budget == Some(2 * |items|)
    ensures var after := WorkItems(Issues, p, items);
      !after.crashed && after.budget == Some(0) && after.file == p.file &&
      after.memory == p.memory.(issues := p.memory.issues + Numbers(items))
    decreases |items|
  {
    if items == [] {
      assert p.memory.issues + Numbers(items) == p.memory.issues;
    } else {
      AllFinished(WorkItem(Issues, p, items[0]), items[1..]);
      assert items == [items[0]] + items[1..];
      assert Numbers(items) == {items[0].number} + Numbers(items[1..]);
    }
  }

  lemma OneBatch(kind: Kind, p: Progress, batch: seq<Item>, dryRun: bool)
    requires !p.crashed
    ensures WorkBatches(kind, p, [batch], dryRun) == WorkBatch(kind, p, batch, dryRun)
  {
    assert [batch][1..] == [];
  }

  lemma BatchDiesOnSave(p: Progress, batch: seq<Item>)
    requires !p.crashed && p.budget == Some(2 * |batch|) && p.memory == p.file
    requires batch != [] && DistinctNumbers(batch) && Numbers(batch) !! p.file.issues
    ensures var after := WorkBatch(Issues, p, batch, false);
      after.crashed && after.file == p.file && Unsaved(after) == |batch|
  {
    AllPending(batch, p.file.issues);
    AllFinished(p, batch);
    NumbersCount(batch);
    var worked := WorkItems(Issues, p, batch);
    assert Save(worked, false, true) == worked.(crashed := true);
    assert worked.memory.issues - p.file.issues == Numbers(batch);
    assert worked.memory.pullRequests - p.file.pullRequests == {};
  }

  /** The bound is exact: a run that dies on the save after a full batch of new issues loses
      all of them. */
  lemma SaveDeathLosesBatch(file: State, batch: seq<Item>)
    requires |batch| == WORK_BATCH_SIZE && DistinctNumbers(batch) && Numbers(batch) !! file.issues
    ensures var p := RunScript(file, Input(Fetched([batch], true), Fetched([], true), false, Some(2 * |batch|)));
      p.crashed && p.file == file && Unsaved(p) == WORK_BATCH_SIZE
  {
    var input := Input(Fetched([batch], true), Fetched([], true), false, Some(2 * |batch|));
    BatchDiesOnSave(Load(file, input), batch);
    OneBatch(Issues, Load(file, input), batch, false);
  }

  // ----- any series of runs

  /** The state file after each run of a series; every run loads what the one before left. */
  ghost predicate IsSeries(disks: seq<State>, inputs: seq<Input>) {
    && |disks| == |inputs| + 1
    && forall k :: 0 <= k < |inputs| ==> InputInBatches(inputs[k]) && disks[k + 1] == RunScript(disks[k], inputs[k]).file
  }

  lemma {:induction false} FileOnlyGrows(disks: seq<State>, inputs: seq<Input>, j: nat, k: nat)
    requires IsSeries(disks, inputs) && j <= k < |disks|
    ensures Within(disks[j], disks[k])
    decreases k - j
  {
    if j < k {
      FileOnlyGrows(disks, inputs, j, k - 1);
      RunIsSafe(disks[k - 1], inputs[k - 1]);
    }
  }

  /** What the file holds after any run, no later run ever asks the model about. */
  lemma NeverClassifiedAgain(disks: seq<State>, inputs: seq<Input>, j: nat, k: nat)
    requires IsSeries(disks, inputs) && j <= k < |inputs|
    ensures NoneKnown(RunScript(disks[k], inputs[k]).classified, disks[j])
  {
    FileOnlyGrows(disks, inputs, j, k);
    RunIsSafe(disks[k], inputs[k]);
  }

  /** A number in the file was there at first or was finished by an earlier real run. */
  lemma {:induction false} PersistedWereFinished(disks: seq<State>, inputs: seq<Input>, k: nat, kind: Kind, n: int)
    requires IsSeries(disks, inputs) && k < |disks| && n in Done(disks[k], kind) && n !in Done(disks[0], kind)
    ensures exists j :: 0 <= j < k && !inputs[j].dryRun && (kind, n) in RunScript(disks[j], inputs[j]).finished
  {
    RunIsSafe(disks[k - 1], inputs[k - 1]);
    var p := RunScript(disks[k - 1], inputs[k - 1]);
    assert n in Done(p.memory, kind);
    if n in Done(disks[k - 1], kind) {
      PersistedWereFinished(disks, inputs, k - 1, kind, n);
    }
  }
}
