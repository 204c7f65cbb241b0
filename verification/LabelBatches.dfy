/** Fetching open items page by page and yielding them in work batches
    (scripts/label-open-issues.ts). A page that cannot be fetched ends the generator early. */
module LabelBatches {
  import opened Text

  const WORK_BATCH_SIZE: nat := 500

  /** An open issue or pull request; `skillLabelled` says whether it carries the skill label. */
  datatype Item = Item(number: int, skillLabelled: bool)

  datatype Page = Page(nodes: seq<Item>, hasNextPage: bool)

  /** The nodes of the pages up to and including the first without a successor. */
  function Listed(pages: seq<Page>): seq<Item> {
    if pages == [] then []
    else if pages[0].hasNextPage then pages[0].nodes + Listed(pages[1..]) else pages[0].nodes
  }

  function Limited(nodes: seq<Item>, limit: Option<nat>): seq<Item> {
    if limit.Some? && limit.value < |nodes| then nodes[..limit.value] else nodes
  }

  /** A batch list in which every batch is full except perhaps the last. */
  predicate Chunked(batches: seq<seq<Item>>) {
    (forall j :: 0 <= j < |batches| - 1 ==> |batches[j]| == WORK_BATCH_SIZE) &&
    (batches != [] ==> 0 < |batches[|batches| - 1]| <= WORK_BATCH_SIZE)
  }

  predicate AllFull(batches: seq<seq<Item>>) { forall b <- batches :: |b| == WORK_BATCH_SIZE }

  /** Full batches and an open one hold exactly these nodes. */
  ghost predicate Holding(batches: seq<seq<Item>>, results: seq<Item>, taken: seq<Item>) {
    AllFull(batches) && |results| < WORK_BATCH_SIZE && Flatten(batches) + results == taken
  }

  lemma HoldOneMore(batches: seq<seq<Item>>, results: seq<Item>, taken: seq<Item>, node: Item)
    requires Holding(batches, results, taken)
    ensures if |results| + 1 >= WORK_BATCH_SIZE then Holding(batches + [results + [node]], [], taken + [node])
            else Holding(batches, results + [node], taken + [node])
  {
    FlattenAppend(batches, results + [node]);
  }

  /** How many more nodes may be taken. */
  function Room(limit: Option<nat>, fetched: nat): Option<nat>
    requires limit.Some? ==> fetched <= limit.value
  {
    if limit.Some? then Some(limit.value - fetched) else None
  }

  /** The inner loop over the nodes of one page. */
  method TakeNodes(nodes: seq<Item>, limit: Option<nat>, before: seq<seq<Item>>, open: seq<Item>, fetched: nat, ghost held: seq<Item>)
      returns (batches: seq<seq<Item>>, results: seq<Item>, fetchedCount: nat)
    requires Holding(before, open, held) && (limit.Some? ==> fetched <= limit.value)
    ensures Holding(batches, results, held + Limited(nodes, Room(limit, fetched)))
    ensures fetchedCount == fetched + |Limited(nodes, Room(limit, fetched))|
  {
    batches, results, fetchedCount := before, open, fetched;
    ghost var taken := held;
    var i := 0;
    while i < |nodes| && (limit.None? || fetchedCount < limit.value)
      invariant i <= |nodes| && fetchedCount == fetched + i
      invariant limit.Some? ==> fetchedCount <= limit.value
      invariant taken == held + nodes[..i] && Holding(batches, results, taken)
    {
      HoldOneMore(batches, results, taken, nodes[i]);
      assert nodes[..i + 1] == nodes[..i] + [nodes[i]];
      taken := taken + [nodes[i]];
      results := results + [nodes[i]];
      fetchedCount := fetchedCount + 1;
      if |results| >= WORK_BATCH_SIZE {
        batches := batches + [results];
        results := [];
      }
      i := i + 1;
    }
    assert nodes[..|nodes|] == nodes;
  }

  lemma LimitedConcat(taken: seq<Item>, a: seq<Item>, b: seq<Item>, limit: Option<nat>, fetched: nat)
    requires limit.Some? ==> fetched <= limit.value
    ensures var more := Limited(a, Room(limit, fetched));
      (limit.Some? ==> fetched + |more| <= limit.value) &&
      taken + Limited(a + b, Room(limit, fetched)) == taken + more + Limited(b, Room(limit, fetched + |more|))
  {
  }

  /** What is still to come once the pages before `page` have been taken. */
  ghost predicate StillToCome(pages: seq<Page>, page: nat, limit: Option<nat>, taken: seq<Item>)
    requires page <= |pages|
  {
    (limit.Some? ==> |taken| <= limit.value) &&
    taken + Limited(Listed(pages[page..]), Room(limit, |taken|)) == Limited(Listed(pages), limit)
  }

  lemma TakePage(pages: seq<Page>, page: nat, limit: Option<nat>, taken: seq<Item>)
    requires page < |pages| && StillToCome(pages, page, limit, taken)
    ensures var more := taken + Limited(pages[page].nodes, Room(limit, |taken|));
      (limit.Some? ==> |more| <= limit.value) &&
      if pages[page].hasNextPage then StillToCome(pages, page + 1, limit, more) else more == Limited(Listed(pages), limit)
  {
    var data := pages[page];
    var rest := if data.hasNextPage then Listed(pages[page + 1..]) else [];
    assert pages[page..][0] == data && pages[page..][1..] == pages[page + 1..];
    assert data.nodes + [] == data.nodes;
    LimitedConcat(taken, data.nodes, rest, limit, |taken|);
    if !data.hasNextPage {
      var more := taken + Limited(data.nodes, Room(limit, |taken|));
      assert Limited([], Room(limit, |more|)) == [] && more + [] == more;
    }
  }

  lemma StartFetching(pages: seq<Page>, limit: Option<nat>)
    ensures StillToCome(pages, 0, limit, []) && Holding([], [], [])
  {
    assert pages[0..] == pages;
    assert [] + Limited(Listed(pages), limit) == Limited(Listed(pages), limit);
  }

  /** The batches yielded after the last page. */
  lemma LastBatch(batches: seq<seq<Item>>, results: seq<Item>, taken: seq<Item>)
    requires Holding(batches, results, taken)
    ensures var all := if |results| > 0 then batches + [results] else batches;
      Flatten(all) == taken && Chunked(all)
  {
    FlattenAppend(batches, results);
    assert results == [] ==> Flatten(batches) + results == Flatten(batches);
  }

  /** The batches yielded before a page fails. */
  lemma CutShort(pages: seq<Page>, page: nat, limit: Option<nat>, batches: seq<seq<Item>>, results: seq<Item>, taken: seq<Item>)
    requires page <= |pages| && StillToCome(pages, page, limit, taken) && Holding(batches, results, taken)
    ensures Flatten(batches) <= Limited(Listed(pages), limit)
  {
    assert Flatten(batches) <= taken;
  }

  /** Nothing is still to come once the limit is reached. */
  lemma LimitReached(pages: seq<Page>, page: nat, limit: Option<nat>, taken: seq<Item>)
    requires page <= |pages| && StillToCome(pages, page, limit, taken) && limit == Some(|taken|)
    ensures taken == Limited(Listed(pages), limit)
  {
    var rest := Limited(Listed(pages[page..]), Room(limit, |taken|));
    assert rest == [];
    assert taken + rest == taken;
  }

  /** The loop over the pages; the open batch is left to the caller. */
  method FetchPages(pages: seq<Page>, limit: Option<nat>)
      returns (batches: seq<seq<Item>>, results: seq<Item>, complete: bool, ghost taken: seq<Item>)
    ensures Holding(batches, results, taken)
    ensures if complete then taken == Limited(Listed(pages), limit)
            else exists page :: 0 <= page <= |pages| && StillToCome(pages, page, limit, taken)
  {
    batches, results, complete, taken := [], [], true, [];
    var fetchedCount: nat := 0;
    var page := 0;
    StartFetching(pages, limit);
    while limit.None? || fetchedCount < limit.value
      invariant page <= |pages| && |taken| == fetchedCount
      invariant StillToCome(pages, page, limit, taken)
      invariant Holding(batches, results, taken)
      decreases |pages| - page
    {
      if page == |pages| {
        complete := false;
        return;
      }
      var data := pages[page];
      TakePage(pages, page, limit, taken);
      ghost var before := taken;
      taken := taken + Limited(data.nodes, Room(limit, |taken|));
      batches, results, fetchedCount := TakeNodes(data.nodes, limit, batches, results, fetchedCount, before);
      if !data.hasNextPage {
        return;
      }
      page := page + 1;
    }
    LimitReached(pages, page, limit, taken);
  }

  /** The generator: `complete` is false when a page could not be fetched, in which case
      the open batch is lost. */
  method FetchBatches(pages: seq<Page>, limit: Option<nat>) returns (batches: seq<seq<Item>>, complete: bool)
    ensures complete ==> Flatten(batches) == Limited(Listed(pages), limit) && Chunked(batches)
    ensures !complete ==> AllFull(batches) && Flatten(batches) <= Limited(Listed(pages), limit)
  {
    var results: seq<Item>;
    ghost var taken: seq<Item>;
    batches, results, complete, taken := FetchPages(pages, limit);
    if !complete {
      ghost var page :| 0 <= page <= |pages| && StillToCome(pages, page, limit, taken);
      CutShort(pages, page, limit, batches, results, taken);
      return;
    }
    LastBatch(batches, results, taken);
    if |results| > 0 {
      batches := batches + [results];
    }
  }

  function NodesOf(pages: seq<Page>): (nodes: seq<seq<Item>>)
    ensures |nodes| == |pages|
  {
    seq(|pages|, i requires 0 <= i < |pages| => pages[i].nodes)
  }

  /** Everything listed: the nodes of the pages up to the first one without a successor. */
  lemma {:induction false} ListedExactly(pages: seq<Page>, k: nat)
    requires k < |pages| && !pages[k].hasNextPage && forall j :: 0 <= j < k ==> pages[j].hasNextPage
    ensures Listed(pages) == Flatten(NodesOf(pages[..k + 1]))
    decreases k
  {
    var nodes := NodesOf(pages[..k + 1]);
    assert nodes == [pages[0].nodes] + nodes[1..];
    FlattenPrepend(pages[0].nodes, nodes[1..]);
    if k > 0 {
      ListedExactly(pages[1..], k - 1);
      assert nodes[1..] == NodesOf(pages[1..][..k]);
    } else {
      assert nodes[1..] == [] && pages[0].nodes + [] == pages[0].nodes;
    }
  }

  /** With a limit, its first nodes. */
  lemma LimitedExactly(nodes: seq<Item>, limit: nat)
    ensures Limited(nodes, Some(limit)) <= nodes && |Limited(nodes, Some(limit))| == if limit < |nodes| then limit else |nodes|
    ensures Limited(nodes, None) == nodes
  {
  }
}
