/** Aggregation of worker evidence into one bounded ledger. */
module EvidenceAggregation {
  import opened Prelude
  import opened Sequences
  import opened Sorting

  /** `attribution` stands for the identity fields other than the evidence id; `size` is the UTF-8
      length of the text. */
  datatype Evidence = Evidence(chunk: string, evidenceId: string, attribution: string, rank: int, score: real,
                               size: nat)

  datatype WorkerResult = WorkerResult(taskId: string, evidence: seq<Evidence>)

  datatype Item = Item(taskId: string, evidence: Evidence)

  datatype Entry = Entry(evidence: Evidence, taskIds: seq<string>)

  datatype Ledger = Ledger(entries: seq<Entry>, totalCharacters: nat, droppedItems: nat)

  /** `rejects` is true of evidence from another build, with untrusted instructions, or outside the
      principal's authorization. */
  datatype Policy = Policy(rejects: Evidence -> bool, maximumItems: nat, maximumCharacters: nat)

  predicate ByTaskId(a: WorkerResult, b: WorkerResult) {
    StringLe(a.taskId, b.taskId)
  }

  function Items(taskId: string, evidence: seq<Evidence>): (r: seq<Item>)
    ensures |r| == |evidence|
  {
    seq(|evidence|, i requires 0 <= i < |evidence| => Item(taskId, evidence[i]))
  }

  function AllItems(results: seq<WorkerResult>): seq<Item> {
    if results == [] then []
    else AllItems(results[..|results| - 1]) + Items(results[|results| - 1].taskId, results[|results| - 1].evidence)
  }

  predicate SameIdentity(a: Evidence, b: Evidence) {
    a.evidenceId == b.evidenceId && a.attribution == b.attribution
  }

  /** The sort key (final_rank, -hybrid_score) of `a` is at most that of `b`. */
  predicate NotWorse(a: Evidence, b: Evidence) {
    a.rank < b.rank || (a.rank == b.rank && a.score >= b.score)
  }

  /** `sorted({*task_ids, id})` for ids without duplicates. */
  function WithId(taskIds: seq<string>, id: string): seq<string> {
    Sort(StringLe, if id in taskIds then taskIds else taskIds + [id])
  }

  // ---- The collecting loop ---------------------------------------------------------------------

  /** `order` is the insertion order of the `collected` dictionary. */
  datatype Collection = Collection(
    collected: map<string, Entry>, order: seq<string>, evidenceToChunk: map<string, string>, dropped: nat)

  const EMPTY := Collection(map[], [], map[], 0)

  predicate OrderKnown(c: Collection) {
    forall k :: k in c.order ==> k in c.collected
  }

  function Collect(policy: Policy, c: Collection, item: Item): (c': Collection)
    ensures OrderKnown(c) ==> OrderKnown(c')
  {
    var source := item.evidence;
    var key := source.chunk;
    if policy.rejects(source) then c.(dropped := c.dropped + 1)
    else if source.evidenceId in c.evidenceToChunk && c.evidenceToChunk[source.evidenceId] != key then
      c.(dropped := c.dropped + 1)
    else if key in c.collected then
      var existing := c.collected[key];
      if !SameIdentity(existing.evidence, source) then c.(dropped := c.dropped + 1)
      else
        var best := if NotWorse(existing.evidence, source) then existing.evidence else source;
        c.(collected := c.collected[key := Entry(best, WithId(existing.taskIds, item.taskId))])
    else
      Collection(c.collected[key := Entry(source, [item.taskId])], c.order + [key],
                 c.evidenceToChunk[source.evidenceId := key], c.dropped)
  }

  function CollectAll(policy: Policy, items: seq<Item>): (c: Collection)
    ensures OrderKnown(c)
  {
    if items == [] then EMPTY
    else Collect(policy, CollectAll(policy, items[..|items| - 1]), items[|items| - 1])
  }

  // ---- What the loop computes ------------------------------------------------------------------

  /** An item contributes unless it is rejected, or disagrees with an item that contributed before
      it: one evidence id names one chunk, and one chunk has one identity. */
  predicate Admissible(policy: Policy, item: Item, earlier: seq<Item>) {
    && !policy.rejects(item.evidence)
    && forall y :: y in earlier ==>
                     && (y.evidence.evidenceId == item.evidence.evidenceId ==> y.evidence.chunk == item.evidence.chunk)
                     && (y.evidence.chunk == item.evidence.chunk ==>
                           && y.evidence.evidenceId == item.evidence.evidenceId
                           && y.evidence.attribution == item.evidence.attribution)
  }

  /** The contributing items, in order. */
  function Contributing(policy: Policy, items: seq<Item>): seq<Item> {
    if items == [] then []
    else
      var earlier := Contributing(policy, items[..|items| - 1]);
      if Admissible(policy, items[|items| - 1], earlier) then earlier + [items[|items| - 1]] else earlier
  }

  /** A smaller rank, or the same rank with a higher score. */
  ghost predicate Better(a: Evidence, b: Evidence) {
    a.rank < b.rank || (a.rank == b.rank && b.score < a.score)
  }

  /** Item i is the first of the best copies of its chunk. */
  ghost predicate BestAt(items: seq<Item>, chunk: string, i: int) {
    && 0 <= i < |items| && items[i].evidence.chunk == chunk
    && forall j :: 0 <= j < |items| && items[j].evidence.chunk == chunk ==>
                     && !Better(items[j].evidence, items[i].evidence)
                     && (j < i ==> Better(items[i].evidence, items[j].evidence))
  }

  ghost predicate HoldsBest(items: seq<Item>, chunk: string, e: Evidence) {
    exists i :: BestAt(items, chunk, i) && items[i].evidence == e
  }

  function Contributors(items: seq<Item>, chunk: string): set<string> {
    set x | x in items && x.evidence.chunk == chunk :: x.taskId
  }

  function Members(s: seq<string>): set<string> {
    set x | x in s
  }

  /** The entry of a chunk: the first of its best copies, under exactly the contributing task ids,
      sorted and without repetition. */
  ghost predicate EntryFor(kept: seq<Item>, chunk: string, entry: Entry) {
    && HoldsBest(kept, chunk, entry.evidence)
    && Members(entry.taskIds) == Contributors(kept, chunk)
    && Distinct(entry.taskIds) && Sorted(StringLe, entry.taskIds)
  }

  ghost predicate HasChunk(items: seq<Item>, chunk: string) {
    exists y :: y in items && y.evidence.chunk == chunk
  }

  ghost predicate HasId(items: seq<Item>, id: string) {
    exists y :: y in items && y.evidence.evidenceId == id
  }

  ghost predicate EntriesDescribed(collected: map<string, Entry>, kept: seq<Item>) {
    && (forall k :: k in collected <==> HasChunk(kept, k))
    && (forall k :: k in collected ==> EntryFor(kept, k, collected[k]))
  }

  ghost predicate OwnersDescribed(owners: map<string, string>, kept: seq<Item>) {
    && (forall y :: y in kept ==> y.evidence.evidenceId in owners && owners[y.evidence.evidenceId] == y.evidence.chunk)
    && (forall e :: e in owners ==> HasId(kept, e))
  }

  ghost predicate OneIdentity(kept: seq<Item>) {
    forall x, y :: x in kept && y in kept && x.evidence.chunk == y.evidence.chunk ==>
      SameIdentity(x.evidence, y.evidence)
  }

  /** What the collection says about the items that contributed. */
  ghost predicate Describes(c: Collection, kept: seq<Item>) {
    && EntriesDescribed(c.collected, kept)
    && OwnersDescribed(c.evidenceToChunk, kept)
    && OneIdentity(kept)
    && Distinct(c.order) && Members(c.order) == c.collected.Keys
  }

  lemma WithIdShape(taskIds: seq<string>, id: string)
    requires Distinct(taskIds)
    ensures Distinct(WithId(taskIds, id)) && Sorted(StringLe, WithId(taskIds, id))
    ensures Members(WithId(taskIds, id)) == Members(taskIds) + {id}
  {
    var longer := if id in taskIds then taskIds else taskIds + [id];
    AddedId(taskIds, id);
    hide StringLe, Sort, Sorted, TotalPreorder, Distinct, Members;
    StringOrder();
    SortSorted(StringLe, longer);
    SameStrings(longer, Sort(StringLe, longer));
  }

  lemma AddedId(taskIds: seq<string>, id: string)
    requires Distinct(taskIds)
    ensures var longer := if id in taskIds then taskIds else taskIds + [id];
            Distinct(longer) && Members(longer) == Members(taskIds) + {id}
  {
  }

  lemma SameStrings(a: seq<string>, b: seq<string>)
    requires Distinct(a) && multiset(a) == multiset(b)
    ensures Distinct(b) && Members(a) == Members(b)
  {
    DistinctByPermutation((s: string) => s, a, b);
    SameMembers(a, b);
  }

  lemma FirstEntry(kept: seq<Item>, item: Item)
    requires forall y :: y in kept ==> y.evidence.chunk != item.evidence.chunk
    ensures EntryFor(kept + [item], item.evidence.chunk, Entry(item.evidence, [item.taskId]))
  {
    var chunk := item.evidence.chunk;
    var longer := kept + [item];
    assert forall j :: 0 <= j < |kept| ==> longer[j] in kept;
    assert BestAt(longer, chunk, |kept|);
    assert Contributors(longer, chunk) == {item.taskId};
  }

  lemma OtherEntry(kept: seq<Item>, item: Item, chunk: string, entry: Entry)
    requires EntryFor(kept, chunk, entry) && item.evidence.chunk != chunk
    ensures EntryFor(kept + [item], chunk, entry)
  {
    var longer := kept + [item];
    var i :| BestAt(kept, chunk, i) && kept[i].evidence == entry.evidence;
    assert forall j :: 0 <= j < |longer| ==> longer[j] == if j < |kept| then kept[j] else item;
    assert BestAt(longer, chunk, i);
    assert Contributors(longer, chunk) == Contributors(kept, chunk);
  }

  lemma ContributorsMore(kept: seq<Item>, item: Item)
    ensures Contributors(kept + [item], item.evidence.chunk) == Contributors(kept, item.evidence.chunk) + {item.taskId}
  {
    assert forall y :: y in kept + [item] <==> y in kept || y == item;
  }

  lemma BestMore(kept: seq<Item>, item: Item, best: Evidence)
    requires HoldsBest(kept, item.evidence.chunk, best)
    ensures HoldsBest(kept + [item], item.evidence.chunk, if NotWorse(best, item.evidence) then best else item.evidence)
  {
    var chunk, longer := item.evidence.chunk, kept + [item];
    var i :| BestAt(kept, chunk, i) && kept[i].evidence == best;
    assert forall j :: 0 <= j < |longer| ==> longer[j] == if j < |kept| then kept[j] else item;
    if NotWorse(best, item.evidence) {
      assert BestAt(longer, chunk, i);
    } else {
      assert BestAt(longer, chunk, |kept|);
    }
  }

  lemma MergedEntry(kept: seq<Item>, item: Item, existing: Entry)
    requires EntryFor(kept, item.evidence.chunk, existing)
    ensures var best := if NotWorse(existing.evidence, item.evidence) then existing.evidence else item.evidence;
            EntryFor(kept + [item], item.evidence.chunk, Entry(best, WithId(existing.taskIds, item.taskId)))
  {
    hide HoldsBest, Contributors, Members, Distinct, Sorted, WithId, NotWorse;
    BestMore(kept, item, existing.evidence);
    WithIdShape(existing.taskIds, item.taskId);
    ContributorsMore(kept, item);
  }

  /** The code's three tests amount to admissibility. */
  lemma ChunkTest(c: Collection, kept: seq<Item>, source: Evidence)
    requires Describes(c, kept)
    ensures (forall y :: y in kept && y.evidence.chunk == source.chunk ==> SameIdentity(y.evidence, source))
       <==> (source.chunk in c.collected ==> SameIdentity(c.collected[source.chunk].evidence, source))
  {
    if source.chunk in c.collected {
      var z := BestItem(kept, source.chunk, c.collected[source.chunk]);
      hide EntryFor, HasChunk;
      forall y | y in kept && y.evidence.chunk == source.chunk
        ensures SameIdentity(y.evidence, z.evidence)
      {
      }
    } else {
      hide EntryFor, SameIdentity;
      forall y | y in kept
        ensures y.evidence.chunk != source.chunk
      {
        assert HasChunk(kept, y.evidence.chunk);
      }
    }
  }

  lemma BestItem(kept: seq<Item>, chunk: string, entry: Entry) returns (z: Item)
    requires EntryFor(kept, chunk, entry)
    ensures z in kept && z.evidence == entry.evidence && z.evidence.chunk == chunk
  {
    var i :| BestAt(kept, chunk, i) && kept[i].evidence == entry.evidence;
    z := kept[i];
  }

  lemma OwnerTest(c: Collection, kept: seq<Item>, source: Evidence)
    requires Describes(c, kept)
    ensures (forall y :: y in kept && y.evidence.evidenceId == source.evidenceId ==> y.evidence.chunk == source.chunk)
       <==> (source.evidenceId in c.evidenceToChunk ==> c.evidenceToChunk[source.evidenceId] == source.chunk)
  {
    hide EntriesDescribed, OneIdentity;
    if source.evidenceId in c.evidenceToChunk {
      assert HasId(kept, source.evidenceId);
      var y :| y in kept && y.evidence.evidenceId == source.evidenceId;
    }
  }

  lemma AdmissibleTest(policy: Policy, c: Collection, kept: seq<Item>, item: Item)
    requires Describes(c, kept)
    ensures var source := item.evidence;
            Admissible(policy, item, kept) <==>
            && !policy.rejects(source)
            && (source.evidenceId in c.evidenceToChunk ==> c.evidenceToChunk[source.evidenceId] == source.chunk)
            && (source.chunk in c.collected ==>
                  && c.collected[source.chunk].evidence.evidenceId == source.evidenceId
                  && c.collected[source.chunk].evidence.attribution == source.attribution)
  {
    hide Describes;
    ChunkTest(c, kept, item.evidence);
    OwnerTest(c, kept, item.evidence);
  }

  lemma IdentityEquivalence(a: Evidence, b: Evidence)
    ensures SameIdentity(a, a)
    ensures SameIdentity(a, b) ==> SameIdentity(b, a)
  {
  }

  lemma HasChunkMore(kept: seq<Item>, item: Item, chunk: string)
    ensures HasChunk(kept + [item], chunk) <==> HasChunk(kept, chunk) || chunk == item.evidence.chunk
  {
    var longer := kept + [item];
    assert item in longer && forall y :: y in kept ==> y in longer;
  }

  lemma HasIdMore(kept: seq<Item>, item: Item, id: string)
    ensures HasId(kept + [item], id) <==> HasId(kept, id) || id == item.evidence.evidenceId
  {
    var longer := kept + [item];
    assert item in longer && forall y :: y in kept ==> y in longer;
  }

  lemma OneIdentityMore(kept: seq<Item>, item: Item)
    requires OneIdentity(kept)
    requires forall y :: y in kept && y.evidence.chunk == item.evidence.chunk ==>
             SameIdentity(y.evidence, item.evidence)
    ensures OneIdentity(kept + [item])
  {
    hide SameIdentity;
    var longer := kept + [item];
    forall x, y | x in longer && y in longer && x.evidence.chunk == y.evidence.chunk
      ensures SameIdentity(x.evidence, y.evidence)
    {
      IdentityEquivalence(x.evidence, y.evidence);
      IdentityEquivalence(y.evidence, x.evidence);
    }
  }

  lemma EntriesMore(collected: map<string, Entry>, kept: seq<Item>, item: Item, entry: Entry)
    requires EntriesDescribed(collected, kept) && EntryFor(kept + [item], item.evidence.chunk, entry)
    ensures EntriesDescribed(collected[item.evidence.chunk := entry], kept + [item])
  {
    hide EntryFor, HasChunk;
    forall k
      ensures HasChunk(kept + [item], k) <==> HasChunk(kept, k) || k == item.evidence.chunk
    {
      HasChunkMore(kept, item, k);
    }
    forall k | k in collected && k != item.evidence.chunk
      ensures EntryFor(kept + [item], k, collected[k])
    {
      OtherEntry(kept, item, k, collected[k]);
    }
  }

  lemma OwnersMore(owners: map<string, string>, kept: seq<Item>, item: Item)
    requires OwnersDescribed(owners, kept)
    requires forall y :: y in kept && y.evidence.evidenceId == item.evidence.evidenceId ==>
             y.evidence.chunk == item.evidence.chunk
    ensures OwnersDescribed(owners[item.evidence.evidenceId := item.evidence.chunk], kept + [item])
  {
    hide HasId;
    var longer := kept + [item];
    forall e
      ensures HasId(longer, e) <==> HasId(kept, e) || e == item.evidence.evidenceId
    {
      HasIdMore(kept, item, e);
    }
    assert forall y :: y in longer <==> y in kept || y == item;
  }

  /** An item of a known chunk under an id that is already recorded adds nothing to the owners. */
  lemma OwnersKept(owners: map<string, string>, kept: seq<Item>, item: Item)
    requires OwnersDescribed(owners, kept)
    requires item.evidence.evidenceId in owners && owners[item.evidence.evidenceId] == item.evidence.chunk
    ensures OwnersDescribed(owners, kept + [item])
  {
    hide HasId;
    var longer := kept + [item];
    forall e | e in owners
      ensures HasId(longer, e)
    {
      HasIdMore(kept, item, e);
    }
    assert forall y :: y in longer <==> y in kept || y == item;
  }

  lemma OrderMore(order: seq<string>, key: string)
    requires Distinct(order) && key !in Members(order)
    ensures Distinct(order + [key]) && Members(order + [key]) == Members(order) + {key}
  {
    assert key !in order;
  }

  lemma DescribesNew(c: Collection, kept: seq<Item>, item: Item)
    requires Describes(c, kept) && item.evidence.chunk !in c.collected
    requires forall y :: y in kept && y.evidence.evidenceId == item.evidence.evidenceId ==>
             y.evidence.chunk == item.evidence.chunk
    ensures var key := item.evidence.chunk;
            Describes(Collection(c.collected[key := Entry(item.evidence, [item.taskId])], c.order + [key],
                                 c.evidenceToChunk[item.evidence.evidenceId := key], c.dropped), kept + [item])
  {
    var key := item.evidence.chunk;
    forall y | y in kept
      ensures y.evidence.chunk != key
    {
      assert HasChunk(kept, y.evidence.chunk);
    }
    FirstEntry(kept, item);
    hide EntryFor, HasChunk, SameIdentity;
    EntriesMore(c.collected, kept, item, Entry(item.evidence, [item.taskId]));
    OwnersMore(c.evidenceToChunk, kept, item);
    OneIdentityMore(kept, item);
    OrderMore(c.order, key);
  }

  lemma DescribesMerge(c: Collection, kept: seq<Item>, item: Item, entry: Entry)
    requires Describes(c, kept) && item.evidence.chunk in c.collected
    requires EntryFor(kept + [item], item.evidence.chunk, entry)
    requires forall y :: y in kept && y.evidence.chunk == item.evidence.chunk ==>
             SameIdentity(y.evidence, item.evidence)
    ensures Describes(c.(collected := c.collected[item.evidence.chunk := entry]), kept + [item])
  {
    hide EntryFor, HasId;
    var z :| z in kept && z.evidence.chunk == item.evidence.chunk;
    assert z.evidence.evidenceId == item.evidence.evidenceId;
    hide SameIdentity;
    EntriesMore(c.collected, kept, item, entry);
    OwnersKept(c.evidenceToChunk, kept, item);
    OneIdentityMore(kept, item);
  }

  lemma CollectStep(policy: Policy, c: Collection, kept: seq<Item>, item: Item)
    requires Describes(c, kept)
    ensures if Admissible(policy, item, kept)
            then Describes(Collect(policy, c, item), kept + [item]) && Collect(policy, c, item).dropped == c.dropped
            else Collect(policy, c, item) == c.(dropped := c.dropped + 1)
  {
    AdmissibleTest(policy, c, kept, item);
    if Admissible(policy, item, kept) {
      if item.evidence.chunk in c.collected {
        var existing := c.collected[item.evidence.chunk];
        MergedEntry(kept, item, existing);
        hide Describes, EntryFor;
        var best := if NotWorse(existing.evidence, item.evidence) then existing.evidence else item.evidence;
        DescribesMerge(c, kept, item, Entry(best, WithId(existing.taskIds, item.taskId)));
      } else {
        hide Describes;
        DescribesNew(c, kept, item);
      }
    }
  }

  /** The collection describes exactly the contributing items; every other item was dropped. */
  lemma {:induction false} CollectionDescribes(policy: Policy, items: seq<Item>)
    ensures Describes(CollectAll(policy, items), Contributing(policy, items))
    ensures CollectAll(policy, items).dropped + |Contributing(policy, items)| == |items|
  {
    if items != [] {
      var n := |items| - 1;
      CollectionDescribes(policy, items[..n]);
      hide Describes, Collect, Admissible;
      CollectStep(policy, CollectAll(policy, items[..n]), Contributing(policy, items[..n]), items[n]);
      var c := CollectAll(policy, items[..n]);
      DescribesIgnoresDropped(c, c.dropped + 1, Contributing(policy, items[..n]));
    } else {
      NothingDescribed();
    }
  }

  lemma NothingDescribed()
    ensures Describes(EMPTY, [])
  {
    assert Members([]) == {};
  }

  lemma DescribesIgnoresDropped(c: Collection, dropped: nat, kept: seq<Item>)
    requires Describes(c, kept)
    ensures Describes(c.(dropped := dropped), kept)
  {
    hide EntryFor;
  }

  // ---- Ordering and acceptance -----------------------------------------------------------------

  function Values(c: Collection): (r: seq<Entry>)
    requires OrderKnown(c)
    ensures |r| == |c.order| && forall i :: 0 <= i < |r| ==> r[i] == c.collected[c.order[i]]
  {
    seq(|c.order|, i requires 0 <= i < |c.order| => assert c.order[i] in c.order; c.collected[c.order[i]])
  }

  /** The sort key (final_rank, -hybrid_score, chunk id). */
  predicate EntryLe(a: Entry, b: Entry) {
    || a.evidence.rank < b.evidence.rank
    || (a.evidence.rank == b.evidence.rank &&
        (a.evidence.score > b.evidence.score
         || (a.evidence.score == b.evidence.score && StringLe(a.evidence.chunk, b.evidence.chunk))))
  }

  function Accept(policy: Policy, ledger: Ledger, entry: Entry): Ledger {
    var size := entry.evidence.size;
    if |ledger.entries| >= policy.maximumItems || ledger.totalCharacters + size > policy.maximumCharacters
    then ledger.(droppedItems := ledger.droppedItems + 1)
    else Ledger(ledger.entries + [entry], ledger.totalCharacters + size, ledger.droppedItems)
  }

  function AcceptAll(policy: Policy, dropped: nat, entries: seq<Entry>): Ledger {
    if entries == [] then Ledger([], 0, dropped)
    else Accept(policy, AcceptAll(policy, dropped, entries[..|entries| - 1]), entries[|entries| - 1])
  }

  function SortedItems(results: seq<WorkerResult>): seq<Item> {
    AllItems(Sort(ByTaskId, results))
  }

  function Ordered(policy: Policy, items: seq<Item>): seq<Entry> {
    Sort(EntryLe, Values(CollectAll(policy, items)))
  }

  /** `aggregate_evidence` as a function. */
  function Aggregated(policy: Policy, results: seq<WorkerResult>): Ledger {
    var items := SortedItems(results);
    AcceptAll(policy, CollectAll(policy, items).dropped, Ordered(policy, items))
  }

  /** The body of the collecting loop. */
  method CollectItem(policy: Policy, start: Collection, item: Item) returns (c: Collection)
    ensures c == Collect(policy, start, item)
  {
    var collected, order, evidenceToChunk, dropped :=
      start.collected, start.order, start.evidenceToChunk, start.dropped;
    var source := item.evidence;
    var key := source.chunk;
    if policy.rejects(source) {
      return start.(dropped := dropped + 1);
    }
    if source.evidenceId in evidenceToChunk && evidenceToChunk[source.evidenceId] != key {
      return start.(dropped := dropped + 1);
    }
    if key in collected {
      var existing := collected[key];
      if !SameIdentity(existing.evidence, source) {
        return start.(dropped := dropped + 1);
      }
      var best := if NotWorse(existing.evidence, source) then existing.evidence else source;
      collected := collected[key := Entry(best, WithId(existing.taskIds, item.taskId))];
    } else {
      evidenceToChunk := evidenceToChunk[source.evidenceId := key];
      collected := collected[key := Entry(source, [item.taskId])];
      order := order + [key];
    }
    c := Collection(collected, order, evidenceToChunk, dropped);
  }

  lemma CollectOneMore(policy: Policy, items: seq<Item>, item: Item)
    ensures CollectAll(policy, items + [item]) == Collect(policy, CollectAll(policy, items), item)
  {
    assert (items + [item])[..|items|] == items;
  }

  /** The inner loop over one worker's evidence. */
  method CollectResult(policy: Policy, start: Collection, result: WorkerResult, ghost earlier: seq<Item>)
    returns (c: Collection)
    requires start == CollectAll(policy, earlier)
    ensures c == CollectAll(policy, earlier + Items(result.taskId, result.evidence))
  {
    hide Collect, CollectAll;
    ghost var items := Items(result.taskId, result.evidence);
    c := start;
    assert earlier + items[..0] == earlier;
    for i := 0 to |result.evidence|
      invariant c == CollectAll(policy, earlier + items[..i])
    {
      assert items[..i + 1] == items[..i] + [items[i]];
      Associative(earlier, items[..i], [items[i]]);
      CollectOneMore(policy, earlier + items[..i], items[i]);
      c := CollectItem(policy, c, Item(result.taskId, result.evidence[i]));
    }
    assert items[..|items|] == items;
  }

  method AggregateEvidence(policy: Policy, results: seq<WorkerResult>) returns (ledger: Ledger)
    ensures ledger == Aggregated(policy, results)
  {
    hide Collect, Accept;
    var sorted := Sort(ByTaskId, results);
    var c := EMPTY;
    for i := 0 to |sorted|
      invariant c == CollectAll(policy, AllItems(sorted[..i]))
    {
      assert sorted[..i + 1][..i] == sorted[..i];
      c := CollectResult(policy, c, sorted[i], AllItems(sorted[..i]));
    }
    assert sorted[..|sorted|] == sorted;
    var ordered := Sort(EntryLe, Values(c));
    ledger := AcceptLoop(policy, c.dropped, ordered);
  }

  method AcceptLoop(policy: Policy, dropped: nat, ordered: seq<Entry>) returns (ledger: Ledger)
    ensures ledger == AcceptAll(policy, dropped, ordered)
  {
    var accepted: seq<Entry> := [];
    var characters: nat := 0;
    var drops := dropped;
    for i := 0 to |ordered|
      invariant Ledger(accepted, characters, drops) == AcceptAll(policy, dropped, ordered[..i])
    {
      assert ordered[..i + 1][..i] == ordered[..i];
      var size := ordered[i].evidence.size;
      if |accepted| >= policy.maximumItems || characters + size > policy.maximumCharacters {
        drops := drops + 1;
        continue;
      }
      accepted := accepted + [ordered[i]];
      characters := characters + size;
    }
    assert ordered[..|ordered|] == ordered;
    ledger := Ledger(accepted, characters, drops);
  }

  function TotalSize(entries: seq<Entry>): nat {
    if entries == [] then 0 else TotalSize(entries[..|entries| - 1]) + entries[|entries| - 1].evidence.size
  }

  lemma TotalSizeSnoc(entries: seq<Entry>, entry: Entry)
    ensures TotalSize(entries + [entry]) == TotalSize(entries) + entry.evidence.size
  {
    assert (entries + [entry])[..|entries|] == entries;
  }

  lemma {:induction false} AcceptedCounts(policy: Policy, dropped: nat, entries: seq<Entry>)
    ensures var ledger := AcceptAll(policy, dropped, entries);
            && |ledger.entries| <= policy.maximumItems
            && ledger.totalCharacters == TotalSize(ledger.entries) <= policy.maximumCharacters
            && ledger.droppedItems == dropped + |entries| - |ledger.entries|
    decreases |entries|
  {
    if entries != [] {
      var n := |entries| - 1;
      AcceptedCounts(policy, dropped, entries[..n]);
      hide TotalSize;
      TotalSizeSnoc(AcceptAll(policy, dropped, entries[..n]).entries, entries[n]);
    } else {
      assert TotalSize([]) == 0;
    }
  }

  lemma {:induction false} AcceptedAreEntries(policy: Policy, dropped: nat, entries: seq<Entry>)
    ensures forall e :: e in AcceptAll(policy, dropped, entries).entries ==> e in entries
    decreases |entries|
  {
    if entries != [] {
      var n := |entries| - 1;
      AcceptedAreEntries(policy, dropped, entries[..n]);
      assert entries == entries[..n] + [entries[n]];
    }
  }

  lemma SortedSnoc(entries: seq<Entry>, entry: Entry)
    requires Sorted(EntryLe, entries) && forall e :: e in entries ==> EntryLe(e, entry)
    ensures Sorted(EntryLe, entries + [entry])
  {
    hide EntryLe;
  }

  lemma SortedInit(entries: seq<Entry>)
    requires Sorted(EntryLe, entries) && entries != []
    ensures var n := |entries| - 1;
            Sorted(EntryLe, entries[..n]) && forall e :: e in entries[..n] ==> EntryLe(e, entries[n])
  {
    hide EntryLe;
  }

  lemma {:induction false} AcceptedAreSorted(policy: Policy, dropped: nat, entries: seq<Entry>)
    requires Sorted(EntryLe, entries)
    ensures Sorted(EntryLe, AcceptAll(policy, dropped, entries).entries)
    decreases |entries|
  {
    if entries != [] {
      var n := |entries| - 1;
      SortedInit(entries);
      hide Sorted, EntryLe;
      AcceptedAreSorted(policy, dropped, entries[..n]);
      AcceptedAreEntries(policy, dropped, entries[..n]);
      SortedSnoc(AcceptAll(policy, dropped, entries[..n]).entries, entries[n]);
    }
  }

  lemma AcceptedWithinBudgets(policy: Policy, dropped: nat, entries: seq<Entry>)
    ensures var ledger := AcceptAll(policy, dropped, entries);
            && |ledger.entries| <= policy.maximumItems
            && ledger.totalCharacters == TotalSize(ledger.entries) <= policy.maximumCharacters
            && ledger.droppedItems == dropped + |entries| - |ledger.entries|
            && (forall e :: e in ledger.entries ==> e in entries)
            && (Sorted(EntryLe, entries) ==> Sorted(EntryLe, ledger.entries))
  {
    hide AcceptAll, EntryLe, Sorted, TotalSize;
    AcceptedCounts(policy, dropped, entries);
    AcceptedAreEntries(policy, dropped, entries);
    if Sorted(EntryLe, entries) { AcceptedAreSorted(policy, dropped, entries); }
  }

  /** What fits as a whole is accepted as a whole. */
  lemma {:induction false} WhatFitsIsTaken(policy: Policy, dropped: nat, entries: seq<Entry>)
    requires |entries| <= policy.maximumItems && TotalSize(entries) <= policy.maximumCharacters
    ensures AcceptAll(policy, dropped, entries) == Ledger(entries, TotalSize(entries), dropped)
  {
    if entries != [] {
      var n := |entries| - 1;
      WhatFitsIsTaken(policy, dropped, entries[..n]);
      assert entries[..n] + [entries[n]] == entries;
    }
  }

  /** What is accepted from a beginning of the entries stays first; the rest comes from the other entries. */
  lemma {:induction false} AcceptedSplit(policy: Policy, dropped: nat, entries: seq<Entry>, i: nat)
    returns (later: seq<Entry>)
    requires i <= |entries|
    ensures AcceptAll(policy, dropped, entries).entries == AcceptAll(policy, dropped, entries[..i]).entries + later
    ensures forall e :: e in later ==> e in entries[i..]
    decreases |entries|
  {
    if i == |entries| {
      assert entries[..i] == entries;
      later := [];
    } else {
      var n := |entries| - 1;
      later := AcceptedSplit(policy, dropped, entries[..n], i);
      assert entries[..n][..i] == entries[..i];
      assert entries[i..] == entries[..n][i..] + [entries[n]];
      var before := AcceptAll(policy, dropped, entries[..i]).entries;
      if |AcceptAll(policy, dropped, entries).entries| > |before + later| {
        Associative(before, later, [entries[n]]);
        later := later + [entries[n]];
      }
    }
  }

  /** Within the budgets next to the entries already taken. */
  predicate HasRoom(policy: Policy, taken: seq<Entry>, entry: Entry) {
    |taken| < policy.maximumItems && TotalSize(taken) + entry.evidence.size <= policy.maximumCharacters
  }

  /** An entry is accepted exactly when it fits next to the accepted entries that come before it; `k` counts
      them. */
  lemma AcceptedIffRoom(policy: Policy, dropped: nat, entries: seq<Entry>, i: nat) returns (k: nat)
    requires Distinct(entries) && i < |entries|
    ensures var accepted := AcceptAll(policy, dropped, entries).entries;
            && k <= |accepted|
            && (forall e :: e in accepted[..k] <==> e in accepted && e in entries[..i])
            && (entries[i] in accepted <==> HasRoom(policy, accepted[..k], entries[i]))
  {
    var before := AcceptAll(policy, dropped, entries[..i]).entries;
    var next := AcceptAll(policy, dropped, entries[..i + 1]).entries;
    AcceptedStep(policy, dropped, entries, i);
    hide AcceptAll, TotalSize;
    AcceptedAreEntries(policy, dropped, entries[..i]);
    var later := AcceptedSplit(policy, dropped, entries, i);
    var rest := AcceptedSplit(policy, dropped, entries, i + 1);
    k := |before|;
    var accepted := AcceptAll(policy, dropped, entries).entries;
    assert accepted[..k] == before;
    DistinctSplit(entries, i);
    DistinctSplit(entries, i + 1);
    assert entries[i] in entries[..i + 1] && entries[i] in entries[i..];
  }

  lemma AcceptedStep(policy: Policy, dropped: nat, entries: seq<Entry>, i: nat)
    requires i < |entries|
    ensures var before := AcceptAll(policy, dropped, entries[..i]).entries;
            AcceptAll(policy, dropped, entries[..i + 1]).entries ==
            if HasRoom(policy, before, entries[i]) then before + [entries[i]] else before
  {
    AcceptedCounts(policy, dropped, entries[..i]);
    hide TotalSize;
    assert entries[..i + 1][..i] == entries[..i];
  }

  lemma DistinctSplit(entries: seq<Entry>, i: nat)
    requires Distinct(entries) && i <= |entries|
    ensures forall e :: e in entries[..i] ==> e !in entries[i..]
  {
  }

  /** Conservation: every input item is accepted (as an entry), merged into an entry's chunk as a
      further copy, or counted as dropped. */
  lemma ItemsConserved(policy: Policy, results: seq<WorkerResult>)
    ensures var items := SortedItems(results); var kept := Contributing(policy, items);
            var ledger, chunks := Aggregated(policy, results), |CollectAll(policy, items).order|;
            && chunks <= |kept| <= |items|
            && |items| == |ledger.entries| + (|kept| - chunks) + ledger.droppedItems
  {
    var items := SortedItems(results);
    var kept := Contributing(policy, items);
    var c := CollectAll(policy, items);
    CollectionDescribes(policy, items);
    ChunksAtMostKept(c, kept);
    AcceptedWithinBudgets(policy, c.dropped, Ordered(policy, items));
  }

  lemma ChunksAtMostKept(c: Collection, kept: seq<Item>)
    requires Describes(c, kept)
    ensures |c.order| <= |kept|
  {
    hide EntryFor;
    var chunks := set y | y in kept :: y.evidence.chunk;
    DistinctCount(c.order);
    assert Members(c.order) == chunks;
    ImageCount(kept);
  }

  lemma {:induction false} DistinctCount(s: seq<string>)
    requires Distinct(s)
    ensures |Members(s)| == |s|
  {
    if s != [] {
      var n := |s| - 1;
      DistinctCount(s[..n]);
      assert Members(s) == Members(s[..n]) + {s[n]} && s[n] !in Members(s[..n]);
    }
  }

  lemma {:induction false} ImageCount(kept: seq<Item>)
    ensures |set y | y in kept :: y.evidence.chunk| <= |kept|
  {
    if kept != [] {
      var n := |kept| - 1;
      ImageCount(kept[..n]);
      assert (set y | y in kept :: y.evidence.chunk) ==
             (set y | y in kept[..n] :: y.evidence.chunk) + {kept[n].evidence.chunk};
    }
  }

  lemma EntryOrder()
    ensures TotalPreorder(EntryLe)
  {
    StringOrder();
  }

  /** Every entry kept before the budgets is the entry of its chunk, and no two entries share a
      chunk or an evidence id. */
  lemma ValuesDescribed(c: Collection, kept: seq<Item>)
    requires Describes(c, kept) && OrderKnown(c)
    ensures var entries := Values(c);
            && (forall e :: e in entries ==> EntryFor(kept, e.evidence.chunk, e))
            && DistinctBy((e: Entry) => e.evidence.chunk, entries)
            && DistinctBy((e: Entry) => e.evidence.evidenceId, entries)
  {
    hide EntryFor, HasChunk;
    var entries := Values(c);
    forall i | 0 <= i < |entries|
      ensures entries[i].evidence.chunk == c.order[i] && EntryFor(kept, c.order[i], entries[i])
    {
      assert c.order[i] in c.order;
      var z := BestItem(kept, c.order[i], entries[i]);
    }
    forall i, j | 0 <= i < j < |entries|
      ensures entries[i].evidence.evidenceId != entries[j].evidence.evidenceId
    {
      assert entries[i].evidence.chunk == c.order[i] && entries[j].evidence.chunk == c.order[j];
      DifferentIds(c, kept, entries[i], entries[j]);
    }
  }

  /** Entries of different chunks have different evidence ids. */
  lemma DifferentIds(c: Collection, kept: seq<Item>, a: Entry, b: Entry)
    requires OwnersDescribed(c.evidenceToChunk, kept)
    requires EntryFor(kept, a.evidence.chunk, a) && EntryFor(kept, b.evidence.chunk, b)
    requires a.evidence.chunk != b.evidence.chunk
    ensures a.evidence.evidenceId != b.evidence.evidenceId
  {
    var x := BestItem(kept, a.evidence.chunk, a);
    var y := BestItem(kept, b.evidence.chunk, b);
  }

  /** The ledger: in sort order, within both budgets, with the sizes adding up; each entry is the
      first best copy of its chunk under exactly the task ids that contributed it; chunks and
      evidence ids correspond one to one. */
  lemma LedgerDescribed(policy: Policy, results: seq<WorkerResult>)
    ensures var kept := Contributing(policy, SortedItems(results)); var ledger := Aggregated(policy, results);
            && Sorted(EntryLe, ledger.entries)
            && (forall i, j :: 0 <= i < j < |ledger.entries| ==>
                  InLedgerOrder(ledger.entries[i].evidence, ledger.entries[j].evidence))
            && |ledger.entries| <= policy.maximumItems
            && ledger.totalCharacters == TotalSize(ledger.entries) <= policy.maximumCharacters
            && (forall e :: e in ledger.entries ==> EntryFor(kept, e.evidence.chunk, e))
            && (forall e, f :: e in ledger.entries && f in ledger.entries && e != f ==>
                                 e.evidence.chunk != f.evidence.chunk && e.evidence.evidenceId != f.evidence.evidenceId)
  {
    var items := SortedItems(results);
    var kept := Contributing(policy, items);
    var c := CollectAll(policy, items);
    CollectionDescribes(policy, items);
    ValuesDescribed(c, kept);
    hide Describes, CollectAll, EntryFor, EntryLe, Contributing, Sort, SortedItems;
    EntryOrder();
    SortSorted(EntryLe, Values(c));
    SameMembers(Values(c), Ordered(policy, items));
    AcceptedWithinBudgets(policy, c.dropped, Ordered(policy, items));
    DistinctMembers(Values(c));
    var entries := Aggregated(policy, results).entries;
    forall i, j | 0 <= i < j < |entries|
      ensures InLedgerOrder(entries[i].evidence, entries[j].evidence)
    {
      EntryLeMeans(entries[i], entries[j]);
    }
  }

  /** The better evidence first, then by chunk id. */
  ghost predicate InLedgerOrder(a: Evidence, b: Evidence) {
    !Better(b, a) && (!Better(a, b) ==> InDictionaryOrder(a.chunk, b.chunk))
  }

  lemma EntryLeMeans(a: Entry, b: Entry)
    ensures EntryLe(a, b) <==> InLedgerOrder(a.evidence, b.evidence)
  {
    StringLeMeans(a.evidence.chunk, b.evidence.chunk);
    hide StringLe, InDictionaryOrder;
  }

  /** Nothing is dropped without need: of the entries in their order, the ledger takes each one that fits the
      budgets next to those it took before, and leaves out every other one. */
  lemma NothingDroppedWithoutNeed(policy: Policy, results: seq<WorkerResult>, i: nat) returns (k: nat)
    requires i < |Ordered(policy, SortedItems(results))|
    ensures var entries, accepted := Ordered(policy, SortedItems(results)), Aggregated(policy, results).entries;
            && k <= |accepted|
            && (forall e :: e in accepted[..k] <==> e in accepted && e in entries[..i])
            && (entries[i] in accepted <==> HasRoom(policy, accepted[..k], entries[i]))
  {
    hide Describes, CollectAll, EntryFor, EntryLe, Contributing, SortedItems, AcceptAll, HasRoom;
    var items := SortedItems(results);
    OrderedDistinct(policy, items);
    k := AcceptedIffRoom(policy, CollectAll(policy, items).dropped, Ordered(policy, items), i);
  }

  lemma OrderedDistinct(policy: Policy, items: seq<Item>)
    ensures Distinct(Ordered(policy, items))
  {
    var c := CollectAll(policy, items);
    CollectionDescribes(policy, items);
    ValuesDescribed(c, Contributing(policy, items));
    hide Describes, CollectAll, EntryFor, EntryLe, Contributing, Sort;
    DistinctByPermutation((e: Entry) => e.evidence.chunk, Values(c), Ordered(policy, items));
  }

  lemma DistinctMembers(entries: seq<Entry>)
    requires DistinctBy((e: Entry) => e.evidence.chunk, entries)
          && DistinctBy((e: Entry) => e.evidence.evidenceId, entries)
    ensures forall e, f :: e in entries && f in entries && e != f ==>
                             e.evidence.chunk != f.evidence.chunk && e.evidence.evidenceId != f.evidence.evidenceId
  {
    var chunk, id := (e: Entry) => e.evidence.chunk, (e: Entry) => e.evidence.evidenceId;
    forall i, j | 0 <= i < |entries| && 0 <= j < |entries| && i != j
      ensures entries[i].evidence.chunk != entries[j].evidence.chunk
      ensures entries[i].evidence.evidenceId != entries[j].evidence.evidenceId
    {
      assert i < j ==> chunk(entries[i]) != chunk(entries[j]) && id(entries[i]) != id(entries[j]);
      assert j < i ==> chunk(entries[j]) != chunk(entries[i]) && id(entries[j]) != id(entries[i]);
    }
  }

  /** For distinct task ids the ledger does not depend on the order in which workers finished. */
  lemma OrderIrrelevant(policy: Policy, a: seq<WorkerResult>, b: seq<WorkerResult>)
    requires multiset(a) == multiset(b)
    requires forall i, j :: 0 <= i < j < |a| ==> a[i].taskId != a[j].taskId
    ensures Aggregated(policy, a) == Aggregated(policy, b)
  {
    StringOrder();
    forall x, y | x in a && y in a && ByTaskId(x, y) && ByTaskId(y, x)
      ensures x == y
    {
      StringTotal(x.taskId, y.taskId);
    }
    SortIgnoresOrder(ByTaskId, a, b);
  }
}
