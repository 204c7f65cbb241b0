/** Greedy batching of translation items under a character budget
    (scripts/control-ui-i18n.ts, buildTranslationBatches). */
module TranslationBatches {
  import opened Text

  datatype Item = Item(key: string, text: string)

  const MAX_BATCH_ITEMS: nat := 20

  function EstimateBatchChars(items: seq<Item>): nat {
    if items == [] then 2
    else EstimateBatchChars(items[..|items| - 1]) + |items[|items| - 1].key| + |items[|items| - 1].text| + 8
  }

  /** What the batcher charges a batch: 2 for the batch and, for each item, the estimate
      of that item alone, whose own 2 is thereby counted again. */
  function Charge(items: seq<Item>): nat {
    if items == [] then 2
    else Charge(items[..|items| - 1]) + EstimateBatchChars([items[|items| - 1]])
  }

  /** A batch the batcher may emit. */
  predicate GoodBatch(batch: seq<Item>, budget: real) {
    1 <= |batch| <= MAX_BATCH_ITEMS && (|batch| > 1 ==> Charge(batch) as real <= budget)
  }

  predicate GoodBatches(batches: seq<seq<Item>>, budget: real) {
    forall b <- batches :: GoodBatch(b, budget)
  }

  /** Every batch but the last is too full for the first item of the next. */
  predicate Greedy(batches: seq<seq<Item>>, budget: real) {
    GoodBatches(batches, budget) &&
    forall j :: 0 <= j && j + 1 < |batches| ==> Full(batches, j, budget)
  }

  predicate Full(batches: seq<seq<Item>>, j: nat, budget: real)
    requires j + 1 < |batches|
  {
    |batches[j + 1]| > 0 && !GoodBatch(batches[j] + [batches[j + 1][0]], budget)
  }

  /** The state of the batcher: finished batches, and the open one. */
  ghost predicate Batching(batches: seq<seq<Item>>, current: seq<Item>, budget: real) {
    if current == [] then batches == [] else GoodBatch(current, budget) && Greedy(batches + [current], budget)
  }

  /** The batcher has placed exactly the items `done`. */
  ghost predicate Placed(batches: seq<seq<Item>>, current: seq<Item>, done: seq<Item>, budget: real) {
    Flatten(batches) + current == done && |current| <= MAX_BATCH_ITEMS && Batching(batches, current, budget)
  }

  method BuildTranslationBatches(items: seq<Item>, budget: real) returns (batches: seq<seq<Item>>)
    ensures Flatten(batches) == items && Greedy(batches, budget)
  {
    batches := [];
    var current: seq<Item> := [];
    var currentChars := 2;
    ghost var done: seq<Item> := [];
    for i := 0 to |items|
      invariant done == items[..i]
      invariant currentChars == Charge(current)
      invariant Placed(batches, current, done, budget)
    {
      var item := items[i];
      var itemChars := EstimateBatchChars([item]);
      var wouldOverflow := |current| > 0 && (currentChars + itemChars) as real > budget;
      var reachedMaxItems := |current| >= MAX_BATCH_ITEMS;
      PlaceItem(batches, current, done, item, budget);
      if wouldOverflow || reachedMaxItems {
        batches := batches + [current];
        current := [];
        currentChars := 2;
      }
      current := current + [item];
      currentChars := currentChars + itemChars;
      done := done + [item];
    }
    FlattenAppend(batches, current);
    if |current| > 0 {
      batches := batches + [current];
    }
  }

  lemma ChargeAppend(current: seq<Item>, item: Item)
    ensures Charge(current + [item]) == Charge(current) + EstimateBatchChars([item])
  {
    assert (current + [item])[..|current|] == current;
  }

  /** The two tests decide whether the item still fits; either way it is placed. */
  lemma PlaceItem(batches: seq<seq<Item>>, current: seq<Item>, done: seq<Item>, item: Item, budget: real)
    requires Placed(batches, current, done, budget)
    ensures Charge(current + [item]) == Charge(current) + EstimateBatchChars([item])
    ensures Charge([] + [item]) == 2 + EstimateBatchChars([item])
    ensures
      if (|current| > 0 && (Charge(current) + EstimateBatchChars([item])) as real > budget) || |current| >= MAX_BATCH_ITEMS
      then Placed(batches + [current], [] + [item], done + [item], budget)
      else Placed(batches, current + [item], done + [item], budget)
  {
    ChargeAppend(current, item);
    ChargeAppend([], item);
    if GoodBatch(current + [item], budget) {
      if current != [] { GreedyExtend(batches, current, item, budget); }
      assert Flatten(batches) + (current + [item]) == done + [item];
    } else {
      CutStep(batches, current, item, budget, done);
    }
  }

  lemma CutStep(batches: seq<seq<Item>>, current: seq<Item>, item: Item, budget: real, done: seq<Item>)
    requires Placed(batches, current, done, budget) && current != [] && !GoodBatch(current + [item], budget)
    ensures Placed(batches + [current], [] + [item], done + [item], budget)
  {
    FlattenAppend(batches, current);
    GreedyAppend(batches + [current], [item], budget);
    assert [] + [item] == [item];
  }

  lemma GreedyAppend(closed: seq<seq<Item>>, next: seq<Item>, budget: real)
    requires closed != [] && Greedy(closed, budget) && GoodBatch(next, budget)
    requires !GoodBatch(closed[|closed| - 1] + [next[0]], budget)
    ensures Greedy(closed + [next], budget)
  {
    var all := closed + [next];
    forall j | 0 <= j && j + 1 < |all| ensures Full(all, j, budget) {
      if j + 1 < |closed| { assert Full(closed, j, budget); }
    }
  }

  lemma GreedyExtend(batches: seq<seq<Item>>, current: seq<Item>, item: Item, budget: real)
    requires current != [] && Greedy(batches + [current], budget) && GoodBatch(current + [item], budget)
    ensures Greedy(batches + [current + [item]], budget)
  {
    var before, after := batches + [current], batches + [current + [item]];
    forall j | 0 <= j && j + 1 < |after| ensures Full(after, j, budget) {
      assert Full(before, j, budget);
    }
    forall b <- after ensures GoodBatch(b, budget) {
      if b in batches { assert b in before; }
    }
  }

  // ----- what a batch costs

  lemma EstimateOne(item: Item)
    ensures EstimateBatchChars([item]) == |item.key| + |item.text| + 10
  {
    assert [item][..0] == [] && EstimateBatchChars([]) == 2;
  }

  /** The charge never underestimates, so a batch of several items fits the budget by the
      prompt estimate too. */
  lemma {:induction false} ChargeCoversEstimate(batch: seq<Item>)
    ensures Charge(batch) == EstimateBatchChars(batch) + 2 * |batch|
  {
    if batch != [] {
      var n := |batch| - 1;
      ChargeCoversEstimate(batch[..n]);
      EstimateOne(batch[n]);
    }
  }

  lemma GoodBatchFitsBudget(batch: seq<Item>, budget: real)
    requires GoodBatch(batch, budget) && |batch| > 1
    ensures EstimateBatchChars(batch) as real <= budget
  {
    ChargeCoversEstimate(batch);
  }

  // ----- the greedy cut is the coarsest

  lemma {:induction false} ChargeConcat(a: seq<Item>, b: seq<Item>)
    ensures Charge(a + b) == Charge(a) + Charge(b) - 2
  {
    if b == [] {
      assert a + b == a;
    } else {
      var n := |b| - 1;
      assert (a + b)[..|a| + n] == a + b[..n];
      ChargeConcat(a, b[..n]);
    }
  }

  /** Every non-empty contiguous part of a good batch is good. */
  lemma PartOfGoodIsGood(batch: seq<Item>, from: nat, to: nat, budget: real)
    requires GoodBatch(batch, budget) && from < to <= |batch|
    ensures GoodBatch(batch[from..to], budget)
  {
    assert batch == batch[..from] + batch[from..to] + batch[to..];
    ChargeConcat(batch[..from] + batch[from..to], batch[to..]);
    ChargeConcat(batch[..from], batch[from..to]);
    ChargeAtLeast(batch[..from]);
    ChargeAtLeast(batch[to..]);
  }

  lemma {:induction false} ChargeAtLeast(batch: seq<Item>)
    ensures Charge(batch) >= 2
  {
    if batch != [] { ChargeAtLeast(batch[..|batch| - 1]); }
  }

  /** Items in the first `k` batches. */
  function Reach(batches: seq<seq<Item>>, k: nat): nat
    requires k <= |batches|
  {
    |Flatten(batches[..k])|
  }

  lemma {:induction false} FlattenSlice(batches: seq<seq<Item>>, k: nat)
    requires k < |batches|
    ensures Reach(batches, k + 1) == Reach(batches, k) + |batches[k]|
    ensures Reach(batches, k + 1) <= |Flatten(batches)|
    ensures Flatten(batches)[Reach(batches, k)..Reach(batches, k + 1)] == batches[k]
    decreases |batches|
  {
    assert batches[..k + 1][..k] == batches[..k];
    var n := |batches| - 1;
    if k == n {
      assert batches[..n + 1] == batches;
    } else {
      FlattenSlice(batches[..n], k);
      assert batches[..n][..k] == batches[..k] && batches[..n][..k + 1] == batches[..k + 1];
    }
  }

  /** No other cut into good batches gets further in as many batches. */
  lemma {:induction false} GreedyReachesFurthest(greedy: seq<seq<Item>>, other: seq<seq<Item>>, budget: real, k: nat)
    requires Flatten(greedy) == Flatten(other)
    requires Greedy(greedy, budget) && GoodBatches(other, budget)
    requires k <= |greedy| && k <= |other|
    ensures Reach(other, k) <= Reach(greedy, k)
  {
    if k > 0 {
      var j := k - 1;
      GreedyReachesFurthest(greedy, other, budget, j);
      FlattenSlice(greedy, j);
      FlattenSlice(other, j);
      var a, b, c, d := Reach(other, j), Reach(greedy, j), Reach(greedy, k), Reach(other, k);
      if c < d {
        FlattenSlice(greedy, k) by { assert k < |greedy| by { ReachAll(greedy, k); } }
        var items := Flatten(greedy);
        assert Full(greedy, j, budget);
        assert items[b..c + 1] == greedy[j] + [greedy[k][0]] by {
          assert items[c] == items[c..Reach(greedy, k + 1)][0];
          assert items[b..c + 1] == items[b..c] + [items[c]];
        }
        SliceOfSlice(items, a, d, b - a, c + 1 - a);
        PartOfGoodIsGood(other[j], b - a, c + 1 - a, budget);
      }
    }
  }

  lemma ReachAll(batches: seq<seq<Item>>, k: nat)
    requires k <= |batches|
    ensures k == |batches| ==> Reach(batches, k) == |Flatten(batches)|
  {
    assert batches[..|batches|] == batches;
  }

  /** The batcher emits as few batches as any cut of the items into good batches. */
  lemma GreedyIsFewest(greedy: seq<seq<Item>>, other: seq<seq<Item>>, budget: real)
    requires Flatten(greedy) == Flatten(other)
    requires Greedy(greedy, budget) && GoodBatches(other, budget)
    ensures |greedy| <= |other|
  {
    if |greedy| > |other| {
      var n := |other|;
      assert greedy[n] in greedy;
      GreedyReachesFurthest(greedy, other, budget, n);
      ReachAll(other, n);
      FlattenSlice(greedy, n);
    }
  }
}
