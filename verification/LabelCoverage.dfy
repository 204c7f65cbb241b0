/** Which items a labelling run asks the model about: every issue it finishes, and of the
    pull requests it finishes exactly those without the skill label
    (scripts/label-open-issues.ts). */
module LabelCoverage {
  import opened Text
  import opened LabelBatches
  import opened Labeller

  function Entries(kind: Kind, items: seq<Item>): (entries: seq<(Kind, int)>)
    ensures |entries| == |items|
  {
    seq(|items|, i requires 0 <= i < |items| => (kind, items[i].number))
  }

  lemma EntriesConcat(kind: Kind, a: seq<Item>, b: seq<Item>)
    ensures Entries(kind, a + b) == Entries(kind, a) + Entries(kind, b)
  {
  }

  lemma EntryOf(kind: Kind, items: seq<Item>)
    ensures forall n :: (kind, n) in Entries(kind, items) <==> exists item <- items :: item.number == n
    ensures forall entry <- Entries(kind, items) :: entry.0 == kind
  {
    forall item <- items ensures (kind, item.number) in Entries(kind, items) {
      var i :| 0 <= i < |items| && items[i] == item;
      assert Entries(kind, items)[i] == (kind, item.number);
    }
  }

  /** The items to be classified: issues, and pull requests without the skill label. */
  function Unlabelled(kind: Kind, items: seq<Item>): seq<Item> {
    if items == [] then []
    else
      var n := |items| - 1;
      Unlabelled(kind, items[..n]) + (if kind == PullRequests && items[n].skillLabelled then [] else [items[n]])
  }

  lemma {:induction false} UnlabelledConcat(kind: Kind, a: seq<Item>, b: seq<Item>)
    ensures Unlabelled(kind, a + b) == Unlabelled(kind, a) + Unlabelled(kind, b)
  {
    if b == [] {
      assert a + b == a;
    } else {
      var n := |b| - 1;
      assert (a + b)[..|a + b| - 1] == a + b[..n];
      UnlabelledConcat(kind, a, b[..n]);
    }
  }

  lemma {:induction false} UnlabelledMembers(kind: Kind, items: seq<Item>)
    ensures forall item :: item in Unlabelled(kind, items) <==> item in items && !(kind == PullRequests && item.skillLabelled)
  {
    if items != [] {
      var n := |items| - 1;
      UnlabelledMembers(kind, items[..n]);
      assert items == items[..n] + [items[n]];
    }
  }

  /** Between the two states the run reached these items and finished those of them. */
  ghost predicate Logs(kind: Kind, p: Progress, next: Progress, finished: seq<Item>, reached: seq<Item>) {
    && next.finished == p.finished + Entries(kind, finished)
    && next.classified == p.classified + Entries(kind, Unlabelled(kind, reached))
    && Done(next.memory, kind) == Done(p.memory, kind) + Numbers(finished)
    && finished <= reached
  }

  lemma LogsNothing(kind: Kind, p: Progress, next: Progress)
    requires next.finished == p.finished && next.classified == p.classified && next.memory == p.memory
    ensures Logs(kind, p, next, [], [])
  {
    assert p.finished + [] == p.finished && p.classified + [] == p.classified;
    assert Numbers([]) == {};
  }

  lemma NumbersConcat(a: seq<Item>, b: seq<Item>)
    ensures Numbers(a + b) == Numbers(a) + Numbers(b)
  {
  }

  lemma LogsBoth(kind: Kind, p: Progress, mid: Progress, next: Progress, all: seq<Item>, finished: seq<Item>, reached: seq<Item>)
    requires Logs(kind, p, mid, all, all) && Logs(kind, mid, next, finished, reached)
    ensures Logs(kind, p, next, all + finished, all + reached)
  {
    EntriesConcat(kind, all, finished);
    UnlabelledConcat(kind, all, reached);
    EntriesConcat(kind, Unlabelled(kind, all), Unlabelled(kind, reached));
    NumbersConcat(all, finished);
    assert all + finished <= all + reached;
    var a, b := Entries(kind, all), Entries(kind, finished);
    assert p.finished + a + b == p.finished + (a + b);
    var c, d := Entries(kind, Unlabelled(kind, all)), Entries(kind, Unlabelled(kind, reached));
    assert p.classified + c + d == p.classified + (c + d);
  }

  lemma OneUnlabelled(kind: Kind, item: Item)
    ensures Unlabelled(kind, [item]) == if kind == PullRequests && item.skillLabelled then [] else [item]
    ensures Entries(kind, [item]) == [(kind, item.number)] && Entries(kind, []) == [] && Numbers([item]) == {item.number}
  {
    assert [item][..0] == [];
  }

  /** One item: finished, or reached at most. */
  lemma ItemLogs(kind: Kind, p: Progress, item: Item) returns (reached: seq<Item>)
    requires !p.crashed
    ensures var next := WorkItem(kind, p, item);
      if next.crashed then reached <= [item] && Logs(kind, p, next, [], reached) else reached == [item] && Logs(kind, p, next, [item], [item])
  {
    var next := WorkItem(kind, p, item);
    OneUnlabelled(kind, item);
    assert p.finished + [] == p.finished && p.classified + [] == p.classified && Numbers([]) == {};
    reached := if Spend(p).crashed then [] else [item];
  }

  lemma {:induction false} ItemsLog(kind: Kind, p: Progress, items: seq<Item>) returns (finished: seq<Item>, reached: seq<Item>)
    requires !p.crashed
    ensures var next := WorkItems(kind, p, items);
      Logs(kind, p, next, finished, reached) && reached <= items && (!next.crashed ==> finished == items)
    decreases |items|
  {
    if items == [] {
      finished, reached := [], [];
      LogsNothing(kind, p, p);
    } else {
      var next := WorkItem(kind, p, items[0]);
      var first := ItemLogs(kind, p, items[0]);
      if next.crashed {
        finished, reached := [], first;
      } else {
        var rest, more := ItemsLog(kind, next, items[1..]);
        LogsBoth(kind, p, next, WorkItems(kind, next, items[1..]), [items[0]], rest, more);
        finished, reached := [items[0]] + rest, [items[0]] + more;
        assert items == [items[0]] + items[1..];
      }
    }
  }

  lemma BatchLogs(kind: Kind, p: Progress, batch: seq<Item>, dryRun: bool) returns (finished: seq<Item>, reached: seq<Item>)
    requires !p.crashed
    ensures var next, pending := WorkBatch(kind, p, batch, dryRun), Pending(batch, Done(p.memory, kind));
      Logs(kind, p, next, finished, reached) && reached <= pending && (!next.crashed ==> finished == pending)
  {
    finished, reached := ItemsLog(kind, p, Pending(batch, Done(p.memory, kind)));
  }

  /** The items come from this list and were not done before. */
  ghost predicate PendingFrom(reached: seq<Item>, listed: seq<Item>, done: set<int>) {
    forall item <- reached :: item in listed && item.number !in done
  }

  /** Everything on the list was done before or is among these. */
  ghost predicate Exhausts(finished: seq<Item>, listed: seq<Item>, done: set<int>) {
    forall item <- listed :: item.number in done || item in finished
  }

  lemma FlattenFirst(batches: seq<seq<Item>>)
    requires batches != []
    ensures Flatten(batches) == batches[0] + Flatten(batches[1..])
  {
    FlattenPrepend(batches[0], batches[1..]);
    assert batches == [batches[0]] + batches[1..];
  }

  lemma DistinctParts(a: seq<Item>, b: seq<Item>)
    requires DistinctNumbers(a + b)
    ensures DistinctNumbers(a) && DistinctNumbers(b) && forall x <- a, y <- b :: x.number != y.number
  {
    var all := a + b;
    assert forall i :: 0 <= i < |a| ==> all[i] == a[i];
    assert forall i :: 0 <= i < |b| ==> all[|a| + i] == b[i];
  }

  lemma JoinExhausts(first: seq<Item>, rest: seq<Item>, batch: seq<Item>, others: seq<Item>, done: set<int>)
    requires DistinctNumbers(batch + others) && Exhausts(first, batch, done)
    requires Exhausts(rest, others, done + Numbers(first)) && PendingFrom(first, batch, done)
    ensures Exhausts(first + rest, batch + others, done)
  {
    DistinctParts(batch, others);
    assert forall x <- first :: x in batch;
    assert forall item <- others :: item.number !in Numbers(first);
  }

  lemma {:induction false} BatchesLog(kind: Kind, p: Progress, batches: seq<seq<Item>>, dryRun: bool)
      returns (finished: seq<Item>, reached: seq<Item>)
    requires !p.crashed && DistinctNumbers(Flatten(batches))
    ensures var next, done := WorkBatches(kind, p, batches, dryRun), Done(p.memory, kind);
      Logs(kind, p, next, finished, reached) && PendingFrom(reached, Flatten(batches), done) &&
      (!next.crashed ==> finished == reached && Exhausts(finished, Flatten(batches), done))
    decreases |batches|
  {
    if batches == [] {
      finished, reached := [], [];
      LogsNothing(kind, p, p);
    } else {
      var next, done := WorkBatch(kind, p, batches[0], dryRun), Done(p.memory, kind);
      FlattenFirst(batches);
      PendingIsNew(batches[0], done);
      var first, firstReached := BatchLogs(kind, p, batches[0], dryRun);
      assert forall item <- firstReached :: item in Pending(batches[0], done);
      if next.crashed {
        finished, reached := first, firstReached;
      } else {
        DistinctParts(batches[0], Flatten(batches[1..]));
        assert firstReached == first;
        var rest, restReached := BatchesLog(kind, next, batches[1..], dryRun);
        LogsBoth(kind, p, next, WorkBatches(kind, next, batches[1..], dryRun), first, rest, restReached);
        finished, reached := first + rest, first + restReached;
        if !WorkBatches(kind, next, batches[1..], dryRun).crashed {
          JoinExhausts(first, rest, batches[0], Flatten(batches[1..]), done);
        }
      }
    }
  }

  // ----- one kind

  function Listed(fetched: Fetched): seq<Item> { Flatten(fetched.batches) }

  /** What the logs of one kind say about a list of items with distinct numbers. */
  ghost predicate Covered(kind: Kind, p: Progress, listed: seq<Item>) {
    && (forall entry <- p.finished :: entry.0 == kind ==> exists item <- listed :: item.number == entry.1)
    && (forall item <- listed :: (kind, item.number) in p.finished && !(kind == PullRequests && item.skillLabelled)
          ==> (kind, item.number) in p.classified)
    && (forall item <- listed :: kind == PullRequests && item.skillLabelled ==> (kind, item.number) !in p.classified)
  }

  /** A complete pass: finished and classified are exactly the pending items, less, for the
      latter, the labelled pull requests. */
  ghost predicate Complete(kind: Kind, p: Progress, listed: seq<Item>, done: set<int>) {
    && (forall item <- listed :: (kind, item.number) in p.finished <==> item.number !in done)
    && (forall item <- listed :: (kind, item.number) in p.classified <==>
          item.number !in done && !(kind == PullRequests && item.skillLabelled))
    && (forall entry <- p.classified :: entry.0 == kind ==> exists item <- listed :: item.number == entry.1)
  }

  /** No entry of this kind is logged yet. */
  ghost predicate Fresh(kind: Kind, p: Progress) {
    (forall entry <- p.finished :: entry.0 != kind) && (forall entry <- p.classified :: entry.0 != kind)
  }

  lemma LogMembers(kind: Kind, p: Progress, next: Progress, finished: seq<Item>, reached: seq<Item>)
    requires Fresh(kind, p) && Logs(kind, p, next, finished, reached)
    ensures forall n :: (kind, n) in next.finished <==> exists item <- finished :: item.number == n
    ensures forall n :: (kind, n) in next.classified <==>
      exists item <- reached :: item.number == n && !(kind == PullRequests && item.skillLabelled)
  {
    EntryOf(kind, finished);
    EntryOf(kind, Unlabelled(kind, reached));
    UnlabelledMembers(kind, reached);
    forall n ensures (kind, n) in next.classified <==>
      exists item <- reached :: item.number == n && !(kind == PullRequests && item.skillLabelled)
    {
      assert (kind, n) in next.classified <==> (kind, n) in Entries(kind, Unlabelled(kind, reached));
      assert (exists item <- Unlabelled(kind, reached) :: item.number == n) <==>
             exists item <- reached :: item.number == n && !(kind == PullRequests && item.skillLabelled);
    }
  }

  lemma SameNumberSameItem(listed: seq<Item>, a: Item, b: Item)
    requires DistinctNumbers(listed) && a in listed && b in listed && a.number == b.number
    ensures a == b
  {
  }

  lemma LogsCover(kind: Kind, p: Progress, next: Progress, finished: seq<Item>, reached: seq<Item>, listed: seq<Item>)
    requires Fresh(kind, p) && Logs(kind, p, next, finished, reached) && DistinctNumbers(listed)
    requires PendingFrom(reached, listed, Done(p.memory, kind))
    ensures Covered(kind, next, listed)
  {
    LogMembers(kind, p, next, finished, reached);
    assert forall item <- finished :: item in reached;
    forall entry <- next.finished | entry.0 == kind ensures exists item <- listed :: item.number == entry.1 {
      assert entry == (kind, entry.1);
      var item :| item in finished && item.number == entry.1;
    }
    forall item <- listed | (kind, item.number) in next.finished && !(kind == PullRequests && item.skillLabelled)
      ensures (kind, item.number) in next.classified
    {
      var x :| x in finished && x.number == item.number;
      SameNumberSameItem(listed, x, item);
    }
    forall item <- listed | kind == PullRequests && item.skillLabelled ensures (kind, item.number) !in next.classified {
      if x :| x in reached && x.number == item.number && !(kind == PullRequests && x.skillLabelled) {
        SameNumberSameItem(listed, x, item);
      }
    }
  }

  lemma LogsComplete(kind: Kind, p: Progress, next: Progress, finished: seq<Item>, listed: seq<Item>)
    requires Fresh(kind, p) && Logs(kind, p, next, finished, finished) && DistinctNumbers(listed)
    requires PendingFrom(finished, listed, Done(p.memory, kind)) && Exhausts(finished, listed, Done(p.memory, kind))
    ensures Complete(kind, next, listed, Done(p.memory, kind))
  {
    LogMembers(kind, p, next, finished, finished);
    forall item <- listed ensures (kind, item.number) in next.finished <==> item.number !in Done(p.memory, kind) {}
    forall item <- listed ensures (kind, item.number) in next.classified <==>
      item.number !in Done(p.memory, kind) && !(kind == PullRequests && item.skillLabelled)
    {
      if x :| x in finished && x.number == item.number { SameNumberSameItem(listed, x, item); }
    }
    forall entry <- next.classified | entry.0 == kind ensures exists item <- listed :: item.number == entry.1 {
      assert entry == (kind, entry.1);
      var item :| item in finished && item.number == entry.1;
    }
  }

  /** One kind of items, from a state that has logged nothing of that kind. */
  lemma KindCovers(kind: Kind, p: Progress, fetched: Fetched, dryRun: bool)
    requires !p.crashed && Fresh(kind, p) && DistinctNumbers(Listed(fetched))
    ensures var next := WorkKind(kind, p, fetched, dryRun);
      Covered(kind, next, Listed(fetched)) && (!next.crashed ==> Complete(kind, next, Listed(fetched), Done(p.memory, kind)))
    ensures LogsOnly(kind, p, WorkKind(kind, p, fetched, dryRun))
  {
    var after := WorkBatches(kind, p, fetched.batches, dryRun);
    var finished, reached := BatchesLog(kind, p, fetched.batches, dryRun);
    LogsCover(kind, p, after, finished, reached, Listed(fetched));
    if !after.crashed { LogsComplete(kind, p, after, finished, Listed(fetched)); }
    EntryOf(kind, finished);
    EntryOf(kind, Unlabelled(kind, reached));
  }

  /** Entries of the other kind are as before. */
  ghost predicate LogsOnly(kind: Kind, p: Progress, next: Progress) {
    forall entry: (Kind, int) :: entry.0 != kind ==>
      (entry in next.finished <==> entry in p.finished) && (entry in next.classified <==> entry in p.classified)
  }

  lemma OtherKindKeeps(kind: Kind, other: Kind, p: Progress, next: Progress, listed: seq<Item>, done: set<int>)
    requires kind != other && LogsOnly(kind, p, next)
    ensures Covered(other, p, listed) ==> Covered(other, next, listed)
    ensures Complete(other, p, listed, done) ==> Complete(other, next, listed, done)
    ensures Fresh(other, p) ==> Fresh(other, next)
  {
  }

  // ----- a whole run

  /** The numbers on each list are distinct. */
  ghost predicate DistinctLists(input: Input) {
    DistinctNumbers(Listed(input.issues)) && DistinctNumbers(Listed(input.pullRequests))
  }

  ghost predicate KeepsDone(kind: Kind, p: Progress, next: Progress) { Done(next.memory, kind) == Done(p.memory, kind) }

  lemma {:induction false} OtherMemoryKept(kind: Kind, other: Kind, p: Progress, items: seq<Item>)
    requires kind != other
    ensures KeepsDone(other, p, WorkItems(kind, p, items))
    decreases |items|
  {
    if items != [] && !p.crashed { OtherMemoryKept(kind, other, WorkItem(kind, p, items[0]), items[1..]); }
  }

  lemma {:induction false} OtherMemoryKeptByBatches(kind: Kind, other: Kind, p: Progress, batches: seq<seq<Item>>, dryRun: bool)
    requires kind != other
    ensures KeepsDone(other, p, WorkBatches(kind, p, batches, dryRun))
    decreases |batches|
  {
    if batches != [] && !p.crashed {
      OtherMemoryKept(kind, other, p, Pending(batches[0], Done(p.memory, kind)));
      OtherMemoryKeptByBatches(kind, other, WorkBatch(kind, p, batches[0], dryRun), batches[1..], dryRun);
    }
  }

  lemma FreshStart(file: State, input: Input)
    ensures Fresh(Issues, Load(file, input)) && Fresh(PullRequests, Load(file, input))
    ensures Covered(PullRequests, Load(file, input), Listed(input.pullRequests))
  {
  }

  /** Every run, dying or not: a finished issue was classified in that run; a finished pull
      request was classified exactly if it had no skill label; and a labelled one never is. */
  lemma FinishedWereClassified(file: State, input: Input)
    requires DistinctLists(input)
    ensures var p := RunScript(file, input);
      (forall item <- Listed(input.issues) :: (Issues, item.number) in p.finished ==> (Issues, item.number) in p.classified) &&
      (forall item <- Listed(input.pullRequests) :: (PullRequests, item.number) in p.finished ==>
        ((PullRequests, item.number) in p.classified <==> !item.skillLabelled)) &&
      (forall item <- Listed(input.pullRequests) :: item.skillLabelled ==> (PullRequests, item.number) !in p.classified)
  {
    RunCovers(file, input);
  }

  /** A finished or classified entry is of an item on the list of its kind. */
  lemma FinishedWereListed(file: State, input: Input, entry: (Kind, int))
    requires DistinctLists(input) && entry in RunScript(file, input).finished
    ensures exists item <- Listed(if entry.0 == Issues then input.issues else input.pullRequests) :: item.number == entry.1
  {
    RunCovers(file, input);
  }

  lemma RunCovers(file: State, input: Input)
    requires DistinctLists(input)
    ensures Covered(Issues, RunScript(file, input), Listed(input.issues))
    ensures Covered(PullRequests, RunScript(file, input), Listed(input.pullRequests))
  {
    var loaded := Load(file, input);
    var p := WorkKind(Issues, loaded, input.issues, input.dryRun);
    FreshStart(file, input);
    KindCovers(Issues, loaded, input.issues, input.dryRun);
    OtherKindKeeps(Issues, PullRequests, loaded, p, Listed(input.pullRequests), {});
    if !p.crashed {
      KindCovers(PullRequests, p, input.pullRequests, input.dryRun);
      OtherKindKeeps(PullRequests, Issues, p, RunScript(file, input), Listed(input.issues), {});
    }
  }

  /** A run that survives finishes exactly the listed items that the file did not hold, and
      classifies exactly those issues and those pull requests without the skill label. */
  lemma SurvivingRunClassifies(file: State, input: Input)
    requires DistinctLists(input) && !RunScript(file, input).crashed
    ensures var p := RunScript(file, input);
      Complete(Issues, p, Listed(input.issues), file.issues) &&
      Complete(PullRequests, p, Listed(input.pullRequests), file.pullRequests)
  {
    var loaded := Load(file, input);
    var p := WorkKind(Issues, loaded, input.issues, input.dryRun);
    FreshStart(file, input);
    KindCovers(Issues, loaded, input.issues, input.dryRun);
    OtherKindKeeps(Issues, PullRequests, loaded, p, Listed(input.pullRequests), {});
    OtherMemoryKeptByBatches(Issues, PullRequests, loaded, input.issues.batches, input.dryRun);
    KindCovers(PullRequests, p, input.pullRequests, input.dryRun);
    OtherKindKeeps(PullRequests, Issues, p, RunScript(file, input), Listed(input.issues), file.issues);
  }

  /** Over a series of runs: a number in the file was there at first, or some real run that
      listed it finished it, after classifying it if it is an issue or an unlabelled pull
      request. */
  lemma RecordedWereClassified(disks: seq<State>, inputs: seq<Input>, k: nat, kind: Kind, n: int)
    requires IsSeries(disks, inputs) && k < |disks| && n in Done(disks[k], kind) && n !in Done(disks[0], kind)
    requires forall input <- inputs :: DistinctLists(input)
    ensures exists j :: 0 <= j < k && !inputs[j].dryRun && ClassifiedAsNeeded(disks[j], inputs[j], kind, n)
  {
    PersistedWereFinished(disks, inputs, k, kind, n);
    var j :| 0 <= j < k && !inputs[j].dryRun && (kind, n) in RunScript(disks[j], inputs[j]).finished;
    FinishedWereListed(disks[j], inputs[j], (kind, n));
    FinishedWereClassified(disks[j], inputs[j]);
    assert ClassifiedAsNeeded(disks[j], inputs[j], kind, n);
  }

  ghost predicate ClassifiedAsNeeded(file: State, input: Input, kind: Kind, n: int) {
    exists item <- Listed(if kind == Issues then input.issues else input.pullRequests) ::
      item.number == n &&
      ((kind, n) in RunScript(file, input).classified <==> kind == Issues || !item.skillLabelled)
  }
}
