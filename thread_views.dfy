/** The read-only walks over a built thread tree in threading.js:
    `getMessageCount`, `getAllMessages`, `flattenThreads` and `getThreadStats`.
    They follow `children` from the roots; a ghost `rank` that decreases from a
    node to each of its children stands for the tree having no cycle. */
module ThreadViews {
  import opened Wrappers
  import opened Text
  import opened Threading

  /** Node `i` is one the walks may visit: it exists and has a positive rank.
      Nodes of rank 0 are never visited, so they may hold reference cycles. */
  predicate Walked(rank: seq<nat>, i: nat)
  {
    i < |rank| && 0 < rank[i]
  }

  /** Every child of a visited node is a visited node, and ranks strictly fall
      from parent to child. */
  predicate Ranked(nodes: seq<ThreadNode>, rank: seq<nat>)
  {
    |rank| == |nodes|
    && forall i, k :: 0 <= i < |nodes| && 0 < rank[i] && 0 <= k < |nodes[i].children| ==>
         Walked(rank, nodes[i].children[k]) && rank[nodes[i].children[k]] < rank[i]
  }

  /** The nodes `cs` are all visited and rank below `bound`. */
  predicate Below(nodes: seq<ThreadNode>, rank: seq<nat>, cs: seq<nat>, bound: nat)
    requires |rank| == |nodes|
  {
    forall k :: 0 <= k < |cs| ==> Walked(rank, cs[k]) && rank[cs[k]] < bound
  }

  /** An article that references itself is made its own child and is never a
      root. Giving it rank 0 leaves it unvisited, and the walks over the other
      threads are defined and never reach it. */
  lemma SelfCycleUnvisited(a: Article, b: Article)
    ensures var nodes := [ThreadNode(a, [], [0], Some(0), 1), ThreadNode(b, [], [], None, 0)];
      Ranked(nodes, [0, 1]) && Below(nodes, [0, 1], [1], Above([0, 1]))
      && Count(nodes, [0, 1], 1) == 1 && AllMessages(nodes, [0, 1], 1) == [1]
  {
    var nodes := [ThreadNode(a, [], [0], Some(0), 1), ThreadNode(b, [], [], None, 0)];
    assert nodes[1].children == [];
  }

  /** A rank above every node's. */
  function Above(rank: seq<nat>): (b: nat)
    ensures forall i :: 0 <= i < |rank| ==> rank[i] < b
  {
    if rank == [] then 0
    else
      var b := Above(rank[..|rank| - 1]);
      if rank[|rank| - 1] < b then b else rank[|rank| - 1] + 1
  }

  function Max(a: int, b: int): int
  {
    if a < b then b else a
  }

  // ---- getMessageCount

  /** `thread.getMessageCount()`: the node and all its descendants. */
  function Count(nodes: seq<ThreadNode>, ghost rank: seq<nat>, i: nat): (r: nat)
    requires Ranked(nodes, rank) && Walked(rank, i)
    ensures r >= 1 + |nodes[i].children|
    decreases rank[i], 1, 0
  {
    1 + CountAll(nodes, rank, nodes[i].children, rank[i])
  }

  /** The `reduce` over a child list, summing from the left. */
  function CountAll(nodes: seq<ThreadNode>, ghost rank: seq<nat>, cs: seq<nat>, ghost bound: nat): (r: nat)
    requires Ranked(nodes, rank) && Below(nodes, rank, cs, bound)
    ensures r >= |cs|
    decreases bound, 0, |cs|
  {
    if cs == [] then 0
    else CountAll(nodes, rank, cs[..|cs| - 1], bound) + Count(nodes, rank, cs[|cs| - 1])
  }

  // ---- getAllMessages

  /** `thread.getAllMessages()`: the node, then each child's messages in order. */
  function AllMessages(nodes: seq<ThreadNode>, rank: seq<nat>, i: nat): (r: seq<nat>)
    requires Ranked(nodes, rank) && Walked(rank, i)
    ensures r != [] && r[0] == i
    ensures forall k :: 0 <= k < |r| ==> Walked(rank, r[k])
    decreases rank[i], 1, 0
  {
    [i] + AllOf(nodes, rank, nodes[i].children, rank[i])
  }

  function AllOf(nodes: seq<ThreadNode>, rank: seq<nat>, cs: seq<nat>, bound: nat): (r: seq<nat>)
    requires Ranked(nodes, rank) && Below(nodes, rank, cs, bound)
    ensures forall k :: 0 <= k < |r| ==> Walked(rank, r[k])
    decreases bound, 0, |cs|
  {
    if cs == [] then []
    else AllOf(nodes, rank, cs[..|cs| - 1], bound) + AllMessages(nodes, rank, cs[|cs| - 1])
  }

  /** The `getAllMessages` loop: itself, then each child's messages pushed. */
  method GetAllMessages(nodes: seq<ThreadNode>, ghost rank: seq<nat>, i: nat) returns (messages: seq<nat>)
    requires Ranked(nodes, rank) && Walked(rank, i)
    ensures messages == AllMessages(nodes, rank, i)
    decreases rank[i]
  {
    messages := [i];
    var children := nodes[i].children;
    for k := 0 to |children|
      invariant messages == [i] + AllOf(nodes, rank, children[..k], rank[i])
    {
      var sub := GetAllMessages(nodes, rank, children[k]);
      assert children[..k + 1][..k] == children[..k];
      AppendAssoc([i], AllOf(nodes, rank, children[..k], rank[i]), sub);
      messages := messages + sub;
    }
    assert children[..|children|] == children;
  }

  /** `getMessageCount` counts what `getAllMessages` lists. */
  lemma {:induction false} AllMessagesCount(nodes: seq<ThreadNode>, rank: seq<nat>, i: nat)
    requires Ranked(nodes, rank) && Walked(rank, i)
    ensures |AllMessages(nodes, rank, i)| == Count(nodes, rank, i)
    decreases rank[i], 1, 0
  {
    AllOfCount(nodes, rank, nodes[i].children, rank[i]);
  }

  lemma {:induction false} AllOfCount(nodes: seq<ThreadNode>, rank: seq<nat>, cs: seq<nat>, bound: nat)
    requires Ranked(nodes, rank) && Below(nodes, rank, cs, bound)
    ensures |AllOf(nodes, rank, cs, bound)| == CountAll(nodes, rank, cs, bound)
    decreases bound, 0, |cs|
  {
    if cs != [] {
      AllOfCount(nodes, rank, cs[..|cs| - 1], bound);
      AllMessagesCount(nodes, rank, cs[|cs| - 1]);
    }
  }

  /** A child list counts at least as much as any one of its threads. */
  lemma {:induction false} CountAllAtLeast(nodes: seq<ThreadNode>, rank: seq<nat>, cs: seq<nat>, bound: nat, k: nat)
    requires Ranked(nodes, rank) && Below(nodes, rank, cs, bound) && k < |cs|
    ensures Count(nodes, rank, cs[k]) <= CountAll(nodes, rank, cs, bound)
    decreases |cs|
  {
    if k < |cs| - 1 {
      CountAllAtLeast(nodes, rank, cs[..|cs| - 1], bound, k);
    }
  }

  /** A reply's thread is strictly smaller than its parent's. */
  lemma ChildCountBelow(nodes: seq<ThreadNode>, rank: seq<nat>, i: nat, k: nat)
    requires Ranked(nodes, rank) && Walked(rank, i) && k < |nodes[i].children|
    ensures Count(nodes, rank, nodes[i].children[k]) < Count(nodes, rank, i)
  {
    CountAllAtLeast(nodes, rank, nodes[i].children, rank[i], k);
  }

  // ---- flattenThreads

  /** One entry of `flattenThreads`: the article with its node's depth, thread
      size and whether it has replies; `isExpanded` is always true. */
  datatype FlatEntry = FlatEntry(
    article: Article,
    depth: int,
    threadMessageCount: nat,
    hasChildren: bool,
    isExpanded: bool)

  function Entry(nodes: seq<ThreadNode>, ghost rank: seq<nat>, i: nat): FlatEntry
    requires Ranked(nodes, rank) && Walked(rank, i)
  {
    FlatEntry(nodes[i].article, nodes[i].depth, Count(nodes, rank, i), |nodes[i].children| > 0, true)
  }

  /** `traverse(thread)`: the node's entry, then its children's, depth first. */
  function FlatTree(nodes: seq<ThreadNode>, rank: seq<nat>, i: nat): (r: seq<FlatEntry>)
    requires Ranked(nodes, rank) && Walked(rank, i)
    ensures r != [] && r[0].article == nodes[i].article && r[0].depth == nodes[i].depth
    decreases rank[i], 1, 0
  {
    [Entry(nodes, rank, i)] + FlatAll(nodes, rank, nodes[i].children, rank[i])
  }

  function FlatAll(nodes: seq<ThreadNode>, rank: seq<nat>, cs: seq<nat>, bound: nat): seq<FlatEntry>
    requires Ranked(nodes, rank) && Below(nodes, rank, cs, bound)
    decreases bound, 0, |cs|
  {
    if cs == [] then []
    else FlatAll(nodes, rank, cs[..|cs| - 1], bound) + FlatTree(nodes, rank, cs[|cs| - 1])
  }

  /** The entries of the listed nodes, in the same order. */
  function EntriesOf(nodes: seq<ThreadNode>, rank: seq<nat>, ms: seq<nat>): (r: seq<FlatEntry>)
    requires Ranked(nodes, rank) && forall k :: 0 <= k < |ms| ==> Walked(rank, ms[k])
    ensures |r| == |ms|
  {
    if ms == [] then []
    else EntriesOf(nodes, rank, ms[..|ms| - 1]) + [Entry(nodes, rank, ms[|ms| - 1])]
  }

  /** The `traverse` of `flattenThreads`, pushing onto `flattened`. */
  method Traverse(nodes: seq<ThreadNode>, ghost rank: seq<nat>, i: nat, flattened: seq<FlatEntry>)
    returns (out: seq<FlatEntry>)
    requires Ranked(nodes, rank) && Walked(rank, i)
    ensures out == flattened + FlatTree(nodes, rank, i)
    decreases rank[i]
  {
    out := flattened + [Entry(nodes, rank, i)];
    var children := nodes[i].children;
    for k := 0 to |children|
      invariant out == flattened + ([Entry(nodes, rank, i)] + FlatAll(nodes, rank, children[..k], rank[i]))
    {
      assert children[..k + 1][..k] == children[..k];
      var before := out;
      out := Traverse(nodes, rank, children[k], out);
      AppendAssoc([Entry(nodes, rank, i)], FlatAll(nodes, rank, children[..k], rank[i]), FlatTree(nodes, rank, children[k]));
      AppendAssoc(flattened, [Entry(nodes, rank, i)] + FlatAll(nodes, rank, children[..k], rank[i]), FlatTree(nodes, rank, children[k]));
    }
    assert children[..|children|] == children;
  }

  /** `flattenThreads(rootThreads)`: every root's thread, depth first. */
  method FlattenThreads(nodes: seq<ThreadNode>, ghost rank: seq<nat>, roots: seq<nat>) returns (flattened: seq<FlatEntry>)
    requires Ranked(nodes, rank) && forall k :: 0 <= k < |roots| ==> Walked(rank, roots[k])
    ensures flattened == FlatAll(nodes, rank, roots, Above(rank))
  {
    flattened := [];
    for k := 0 to |roots|
      invariant flattened == FlatAll(nodes, rank, roots[..k], Above(rank))
    {
      assert roots[..k + 1][..k] == roots[..k];
      flattened := Traverse(nodes, rank, roots[k], flattened);
    }
    assert roots[..|roots|] == roots;
  }

  lemma {:induction false} EntriesAppend(nodes: seq<ThreadNode>, rank: seq<nat>, a: seq<nat>, b: seq<nat>)
    requires Ranked(nodes, rank)
    requires forall k :: 0 <= k < |a| ==> Walked(rank, a[k])
    requires forall k :: 0 <= k < |b| ==> Walked(rank, b[k])
    ensures EntriesOf(nodes, rank, a + b) == EntriesOf(nodes, rank, a) + EntriesOf(nodes, rank, b)
  {
    if b != [] {
      var init := b[..|b| - 1];
      EntriesAppend(nodes, rank, a, init);
      assert (a + b)[..|a + b| - 1] == a + init;
      AppendAssoc(EntriesOf(nodes, rank, a), EntriesOf(nodes, rank, init), [Entry(nodes, rank, b[|b| - 1])]);
    } else {
      AppendNil(a);
      AppendNil(EntriesOf(nodes, rank, a));
    }
  }

  /** `flattenThreads` lists the messages of `getAllMessages`, in the same
      order, each with its own entry. */
  lemma {:induction false} FlatTreeEntries(nodes: seq<ThreadNode>, rank: seq<nat>, i: nat)
    requires Ranked(nodes, rank) && Walked(rank, i)
    ensures FlatTree(nodes, rank, i) == EntriesOf(nodes, rank, AllMessages(nodes, rank, i))
    decreases rank[i], 1, 0
  {
    var rest := AllOf(nodes, rank, nodes[i].children, rank[i]);
    FlatAllEntries(nodes, rank, nodes[i].children, rank[i]);
    EntriesAppend(nodes, rank, [i], rest);
    assert EntriesOf(nodes, rank, [i]) == [Entry(nodes, rank, i)];
  }

  lemma {:induction false} FlatAllEntries(nodes: seq<ThreadNode>, rank: seq<nat>, cs: seq<nat>, bound: nat)
    requires Ranked(nodes, rank) && Below(nodes, rank, cs, bound)
    ensures FlatAll(nodes, rank, cs, bound) == EntriesOf(nodes, rank, AllOf(nodes, rank, cs, bound))
    decreases bound, 0, |cs|
  {
    if cs != [] {
      var init := cs[..|cs| - 1];
      FlatAllEntries(nodes, rank, init, bound);
      FlatTreeEntries(nodes, rank, cs[|cs| - 1]);
      EntriesAppend(nodes, rank, AllOf(nodes, rank, init, bound), AllMessages(nodes, rank, cs[|cs| - 1]));
    }
  }

  // ---- getThreadStats

  /** The counters of `getThreadStats`; `avgMessagesPerThread` is left out. */
  datatype ThreadStats = ThreadStats(totalThreads: nat, totalMessages: nat, maxDepth: nat, longestThread: nat)

  /** The number of levels below node `i`: 0 for a leaf. */
  function Height(nodes: seq<ThreadNode>, rank: seq<nat>, i: nat): nat
    requires Ranked(nodes, rank) && Walked(rank, i)
    decreases rank[i], 1, 0
  {
    HeightAll(nodes, rank, nodes[i].children, rank[i])
  }

  /** One more than the greatest height in a child list, 0 for none. */
  function HeightAll(nodes: seq<ThreadNode>, rank: seq<nat>, cs: seq<nat>, bound: nat): nat
    requires Ranked(nodes, rank) && Below(nodes, rank, cs, bound)
    decreases bound, 0, |cs|
  {
    if cs == [] then 0
    else Max(HeightAll(nodes, rank, cs[..|cs| - 1], bound), Height(nodes, rank, cs[|cs| - 1]) + 1)
  }

  /** The greatest height among the roots `cs`, 0 for none. */
  function Deepest(nodes: seq<ThreadNode>, rank: seq<nat>, cs: seq<nat>): nat
    requires Ranked(nodes, rank) && Below(nodes, rank, cs, Above(rank))
  {
    if cs == [] then 0
    else Max(Deepest(nodes, rank, cs[..|cs| - 1]), Height(nodes, rank, cs[|cs| - 1]))
  }

  /** The largest thread among the roots `cs`, 0 for none. */
  function Longest(nodes: seq<ThreadNode>, rank: seq<nat>, cs: seq<nat>): nat
    requires Ranked(nodes, rank) && Below(nodes, rank, cs, Above(rank))
  {
    if cs == [] then 0
    else Max(Longest(nodes, rank, cs[..|cs| - 1]), Count(nodes, rank, cs[|cs| - 1]))
  }

  /** `analyze(thread, depth)` over the counters `totalMessages`, `maxDepth` and
      `longestThread`: it counts the thread's messages, raises the deepest depth
      seen to `depth` plus the thread's height, and the longest thread to the
      thread's size (its replies' threads are smaller). */
  method Analyze(nodes: seq<ThreadNode>, ghost rank: seq<nat>, i: nat, depth: nat,
                 total: nat, deepest: nat, longest: nat)
    returns (total': nat, deepest': nat, longest': nat)
    requires Ranked(nodes, rank) && Walked(rank, i)
    ensures total' == total + Count(nodes, rank, i)
    ensures deepest' == Max(deepest, depth + Height(nodes, rank, i))
    ensures longest' == Max(longest, Count(nodes, rank, i))
    decreases rank[i]
  {
    total' := total + 1;
    deepest' := Max(deepest, depth);
    var size := Count(nodes, rank, i);
    longest' := Max(longest, size);
    var children := nodes[i].children;
    for k := 0 to |children|
      invariant total' == total + 1 + CountAll(nodes, rank, children[..k], rank[i])
      invariant deepest' == Max(deepest, depth + HeightAll(nodes, rank, children[..k], rank[i]))
      invariant longest' == Max(longest, size)
    {
      assert children[..k + 1][..k] == children[..k];
      ChildCountBelow(nodes, rank, i, k);
      total', deepest', longest' := Analyze(nodes, rank, children[k], depth + 1, total', deepest', longest');
    }
    assert children[..|children|] == children;
  }

  /** `getThreadStats(rootThreads)` without the average. */
  method GetThreadStats(nodes: seq<ThreadNode>, ghost rank: seq<nat>, roots: seq<nat>) returns (stats: ThreadStats)
    requires Ranked(nodes, rank) && forall k :: 0 <= k < |roots| ==> Walked(rank, roots[k])
    ensures stats == ThreadStats(|roots|, CountAll(nodes, rank, roots, Above(rank)),
                                 Deepest(nodes, rank, roots), Longest(nodes, rank, roots))
  {
    var totalMessages, maxDepth, longestThread := 0, 0, 0;
    for k := 0 to |roots|
      invariant totalMessages == CountAll(nodes, rank, roots[..k], Above(rank))
      invariant maxDepth == Deepest(nodes, rank, roots[..k])
      invariant longestThread == Longest(nodes, rank, roots[..k])
    {
      assert roots[..k + 1][..k] == roots[..k];
      totalMessages, maxDepth, longestThread := Analyze(nodes, rank, roots[k], 0, totalMessages, maxDepth, longestThread);
    }
    assert roots[..|roots|] == roots;
    stats := ThreadStats(|roots|, totalMessages, maxDepth, longestThread);
  }

  /** The flattened list has one entry per message `getThreadStats` counts. */
  lemma {:induction false} FlatAllLength(nodes: seq<ThreadNode>, rank: seq<nat>, cs: seq<nat>, bound: nat)
    requires Ranked(nodes, rank) && Below(nodes, rank, cs, bound)
    ensures |FlatAll(nodes, rank, cs, bound)| == CountAll(nodes, rank, cs, bound)
  {
    FlatAllEntries(nodes, rank, cs, bound);
    AllOfCount(nodes, rank, cs, bound);
  }

  /** A thread is deeper than it is long by at least one message. */
  lemma {:induction false} HeightBelowCount(nodes: seq<ThreadNode>, rank: seq<nat>, i: nat)
    requires Ranked(nodes, rank) && Walked(rank, i)
    ensures Height(nodes, rank, i) < Count(nodes, rank, i)
    decreases rank[i], 1, 0
  {
    HeightAllBelowCount(nodes, rank, nodes[i].children, rank[i]);
  }

  lemma {:induction false} HeightAllBelowCount(nodes: seq<ThreadNode>, rank: seq<nat>, cs: seq<nat>, bound: nat)
    requires Ranked(nodes, rank) && Below(nodes, rank, cs, bound)
    ensures HeightAll(nodes, rank, cs, bound) <= CountAll(nodes, rank, cs, bound)
    decreases bound, 0, |cs|
  {
    if cs != [] {
      HeightAllBelowCount(nodes, rank, cs[..|cs| - 1], bound);
      HeightBelowCount(nodes, rank, cs[|cs| - 1]);
    }
  }

  /** The statistics are consistent: no thread is longer than all messages
      together, no thread is deeper than it is long, and there are no more
      threads than messages. */
  lemma {:induction false} StatsBounds(nodes: seq<ThreadNode>, rank: seq<nat>, roots: seq<nat>)
    requires Ranked(nodes, rank) && Below(nodes, rank, roots, Above(rank))
    ensures Longest(nodes, rank, roots) <= CountAll(nodes, rank, roots, Above(rank))
    ensures roots != [] ==> Deepest(nodes, rank, roots) < CountAll(nodes, rank, roots, Above(rank))
    ensures |roots| <= CountAll(nodes, rank, roots, Above(rank))
  {
    if roots != [] {
      StatsBounds(nodes, rank, roots[..|roots| - 1]);
      HeightBelowCount(nodes, rank, roots[|roots| - 1]);
    }
  }
}
