/** Research rounds: fan-out of workers under a shared budget ledger, and aggregation of their child
    task proposals into the next round.  Workers are arbitrary; they report their own task id and
    depth, and may spend any resource of the ledger other than tasks. */
module ResearchRounds {
  import opened Prelude
  import opened Sorting
  import opened Reducers
  import opened Sequences
  import Plan = ResearchPlan

  // ---- The budget ledger -----------------------------------------------------------------------

  datatype Resource = Tasks | RetrievalCalls | AnalysisCalls | LlmCalls | EvidenceItems | EvidenceCharacters

  class BudgetLedger {
    const limits: Resource -> nat
    var used: map<Resource, nat>
    var exhausted: bool

    ghost predicate Valid()
      reads this
    {
      forall r: Resource :: r in used && used[r] <= limits(r)
    }

    constructor (limits: Resource -> nat)
      ensures this.limits == limits && Valid() && !exhausted && forall r: Resource :: used[r] == 0
    {
      this.limits := limits;
      used := map[Tasks := 0, RetrievalCalls := 0, AnalysisCalls := 0, LlmCalls := 0, EvidenceItems := 0,
                  EvidenceCharacters := 0];
      exhausted := false;
      new;
      forall r: Resource
        ensures r in used && used[r] == 0
      {
        match r { case Tasks => case RetrievalCalls => case AnalysisCalls => case LlmCalls =>
                  case EvidenceItems => case EvidenceCharacters => }
      }
    }

    /** Grants the amount exactly when it still fits the limit; a refusal marks exhaustion and
        spends nothing. */
    method Consume(resource: Resource, amount: nat) returns (granted: bool)
      requires Valid()
      modifies this
      ensures Valid()
      ensures granted <==> old(used)[resource] + amount <= limits(resource)
      ensures used == if granted then old(used)[resource := old(used)[resource] + amount] else old(used)
      ensures exhausted == (old(exhausted) || !granted)
    {
      var current := used[resource];
      if current + amount > limits(resource) {
        exhausted := true;
        return false;
      }
      used := used[resource := current + amount];
      return true;
    }
  }

  // ---- Tasks and results -----------------------------------------------------------------------

  datatype Task = Task(id: string, parent: Option<string>, depth: nat, kind: string, queries: seq<string>)

  datatype Proposal = Proposal(kind: string, queries: seq<string>)

  /** `content` is everything the result holds besides the other fields. */
  datatype WorkerResult = WorkerResult(taskId: string, depth: nat, proposals: seq<Proposal>, content: string)

  datatype Spending = Spending(resource: Resource, amount: nat)

  datatype Report = Report(proposals: seq<Proposal>, content: string)

  /** What the workers of one round do: the report on each dispatched task by its position, and their
      spending in any order. */
  datatype Work = Work(reports: nat -> Report, spending: seq<Spending>)

  datatype Settings = Settings(maximumDepth: nat, maximumTotalTasks: nat, maximumChildren: nat, fold: string -> string)

  /** The bounds the settings class puts on its fields. */
  predicate InBounds(settings: Settings) {
    settings.maximumDepth <= 5 && settings.maximumChildren <= 5
  }

  datatype Key = Key(kind: string, queries: seq<string>)

  /** `_equivalence`: tasks with the same type and the same word set per query. */
  function Equivalence(settings: Settings, task: Task): Key {
    Key(task.kind, seq(|task.queries|, i requires 0 <= i < |task.queries| => settings.fold(task.queries[i])))
  }

  function Digit(n: nat): char
    requires n < 10
  {
    '0' + n as char
  }

  /** `f"{task_id}.C{index:02d}"` for an index of at most two digits. */
  function ChildId(parent: string, index: nat): string
    requires index < 100
  {
    parent + ['.', 'C', Digit(index / 10), Digit(index % 10)]
  }

  lemma ChildIdInjective(p: string, i: nat, q: string, j: nat)
    requires i < 100 && j < 100 && ChildId(p, i) == ChildId(q, j)
    ensures p == q && i == j
  {
    var a, b := ChildId(p, i), ChildId(q, j);
    assert |a| == |p| + 4 && |b| == |q| + 4;
    assert a[..|p|] == p && b[..|q|] == q;
    assert a[|p| + 2] == Digit(i / 10) && b[|q| + 2] == Digit(j / 10);
    assert a[|p| + 3] == Digit(i % 10) && b[|q| + 3] == Digit(j % 10);
  }

  /** The number of dots in an id: how many rounds after the plan a task was proposed. */
  function Dots(id: string): nat {
    if id == "" then 0 else Dots(id[..|id| - 1]) + (if id[|id| - 1] == '.' then 1 else 0)
  }

  lemma ChildHasOneMoreDot(parent: string, index: nat)
    requires index < 100
    ensures Dots(ChildId(parent, index)) == Dots(parent) + 1
  {
    DotsAppend(parent, '.');
    DotsAppend(parent + ['.'], 'C');
    DotsAppend(parent + ['.'] + ['C'], Digit(index / 10));
    DotsAppend(parent + ['.'] + ['C'] + [Digit(index / 10)], Digit(index % 10));
    assert ChildId(parent, index) == parent + ['.'] + ['C'] + [Digit(index / 10)] + [Digit(index % 10)];
  }

  lemma DotsAppend(s: string, c: char)
    ensures Dots(s + [c]) == Dots(s) + (if c == '.' then 1 else 0)
  {
    assert (s + [c])[..|s|] == s;
  }

  ghost predicate DistinctIds(tasks: seq<Task>) {
    forall i, j :: 0 <= i < j < |tasks| ==> tasks[i].id != tasks[j].id
  }

  ghost predicate DistinctResults(results: seq<WorkerResult>) {
    forall i, j :: 0 <= i < j < |results| ==> results[i].taskId != results[j].taskId
  }

  /** `t` is the child task made from the `index`-th proposal of `result`. */
  ghost predicate ChildOf(settings: Settings, result: WorkerResult, index: nat, t: Task) {
    && 1 <= index <= settings.maximumChildren && index <= |result.proposals| && index < 100
    && t.id == ChildId(result.taskId, index)
    && t.parent == Some(result.taskId)
    && t.depth == result.depth + 1 <= settings.maximumDepth
    && t.kind == result.proposals[index - 1].kind
    && t.queries == result.proposals[index - 1].queries
  }

  ghost predicate ChildOfAny(settings: Settings, results: seq<WorkerResult>, t: Task) {
    exists i, k :: 0 <= i < |results| && ChildOf(settings, results[i], k, t)
  }

  ghost predicate FreshKeys(settings: Settings, before: set<Key>, children: seq<Task>) {
    && (forall t :: t in children ==> Equivalence(settings, t) !in before)
    && (forall t, u :: t in children && u in children && t != u ==>
          Equivalence(settings, t) != Equivalence(settings, u))
  }

  function KeysOf(settings: Settings, tasks: seq<Task>): set<Key> {
    set t | t in tasks :: Equivalence(settings, t)
  }

  predicate ByTaskId(a: WorkerResult, b: WorkerResult) {
    StringLe(a.taskId, b.taskId)
  }

  predicate ById(a: Task, b: Task) {
    StringLe(a.id, b.id)
  }

  function ChildLimit(settings: Settings, result: WorkerResult): nat {
    if |result.proposals| < settings.maximumChildren then |result.proposals| else settings.maximumChildren
  }

  function ChildTask(result: WorkerResult, index: nat): Task
    requires 1 <= index <= |result.proposals| && index < 100
  {
    var proposal := result.proposals[index - 1];
    Task(ChildId(result.taskId, index), Some(result.taskId), result.depth + 1, proposal.kind, proposal.queries)
  }

  /** The child tasks that the first n proposals of a result offer; none at the maximum depth. */
  function Offered(settings: Settings, result: WorkerResult, n: nat): seq<Task>
    requires InBounds(settings) && n <= ChildLimit(settings, result)
  {
    if n == 0 || result.depth >= settings.maximumDepth then []
    else Offered(settings, result, n - 1) + [ChildTask(result, n)]
  }

  function AllOffered(settings: Settings, results: seq<WorkerResult>): seq<Task>
    requires InBounds(settings)
  {
    if results == [] then []
    else
      var n := |results| - 1;
      AllOffered(settings, results[..n]) + Offered(settings, results[n], ChildLimit(settings, results[n]))
  }

  /** Candidates are admitted in order while they are new and there is room. */
  function Admitted(settings: Settings, known: set<Key>, room: nat, candidates: seq<Task>): seq<Task> {
    if candidates == [] then []
    else
      var n := |candidates| - 1;
      var earlier := Admitted(settings, known, room, candidates[..n]);
      if Equivalence(settings, candidates[n]) in known + KeysOf(settings, earlier) || |earlier| >= room then earlier
      else earlier + [candidates[n]]
  }

  /** A candidate is left out only if an equivalent task was known or admitted, or the room was used up. */
  lemma {:induction false} NothingRefusedWithoutReason(settings: Settings, known: set<Key>, room: nat,
                                                       candidates: seq<Task>)
    ensures var admitted := Admitted(settings, known, room, candidates);
            && |admitted| <= room
            && (forall t :: t in admitted ==> t in candidates)
            && forall t :: t in candidates ==>
                 t in admitted || Equivalence(settings, t) in known + KeysOf(settings, admitted) || |admitted| == room
  {
    hide Equivalence;
    if candidates != [] {
      var n := |candidates| - 1;
      NothingRefusedWithoutReason(settings, known, room, candidates[..n]);
      assert candidates == candidates[..n] + [candidates[n]];
    }
  }

  lemma AdmitStep(settings: Settings, known: set<Key>, room: nat, candidates: seq<Task>, t: Task)
    ensures var earlier := Admitted(settings, known, room, candidates);
            Admitted(settings, known, room, candidates + [t]) ==
              if Equivalence(settings, t) in known + KeysOf(settings, earlier) || |earlier| >= room then earlier
              else earlier + [t]
  {
    assert (candidates + [t])[..|candidates|] == candidates;
  }

  lemma {:induction false} OfferedShape(settings: Settings, result: WorkerResult, n: nat)
    requires InBounds(settings) && n <= ChildLimit(settings, result)
    ensures var offered := Offered(settings, result, n);
            && |offered| <= n && (offered != [] ==> result.depth < settings.maximumDepth)
            && forall k :: 0 <= k < |offered| ==> offered[k] == ChildTask(result, k + 1)
  {
    hide ChildTask;
    if n > 0 {
      OfferedShape(settings, result, n - 1);
      OfferedInFull(settings, result, n);
    }
  }

  lemma {:induction false} OfferedInFull(settings: Settings, result: WorkerResult, n: nat)
    requires InBounds(settings) && n <= ChildLimit(settings, result)
    ensures |Offered(settings, result, n)| == if result.depth < settings.maximumDepth then n else 0
  {
    if n > 0 { OfferedInFull(settings, result, n - 1); }
  }

  /** What a result offers are its children. */
  lemma OfferedChild(settings: Settings, result: WorkerResult, t: Task)
    requires InBounds(settings) && t in Offered(settings, result, ChildLimit(settings, result))
    ensures exists k :: ChildOf(settings, result, k, t)
  {
    hide Offered, ChildId;
    var n := ChildLimit(settings, result);
    OfferedShape(settings, result, n);
    var k :| 0 <= k < |Offered(settings, result, n)| && Offered(settings, result, n)[k] == t;
    assert ChildOf(settings, result, k + 1, t);
  }

  lemma {:induction false} OfferedByResults(settings: Settings, results: seq<WorkerResult>)
    requires InBounds(settings)
    ensures forall t :: t in AllOffered(settings, results) ==> ChildOfAny(settings, results, t)
  {
    hide ChildOf, Offered;
    if results != [] {
      var n := |results| - 1;
      OfferedByResults(settings, results[..n]);
      forall t | t in AllOffered(settings, results)
        ensures ChildOfAny(settings, results, t)
      {
        if t in AllOffered(settings, results[..n]) {
          var i, k :| 0 <= i < n && ChildOf(settings, results[..n][i], k, t);
          assert ChildOf(settings, results[i], k, t);
        } else {
          OfferedChild(settings, results[n], t);
        }
      }
    }
  }

  /** The children that one result offers: one for each proposal up to the limit, in order, and none when they
      would be too deep. */
  ghost predicate OffersOf(settings: Settings, result: WorkerResult, offered: seq<Task>) {
    var n := if |result.proposals| <= settings.maximumChildren then |result.proposals| else settings.maximumChildren;
    && |offered| == (if result.depth < settings.maximumDepth then n else 0)
    && forall k :: 0 <= k < |offered| ==> ChildOf(settings, result, k + 1, offered[k])
  }

  /** All children are offered, result by result. */
  lemma {:induction false} AllOfferedMeans(settings: Settings, results: seq<WorkerResult>)
    returns (parts: seq<seq<Task>>)
    requires InBounds(settings)
    ensures AllOffered(settings, results) == Flatten(parts)
    ensures |parts| == |results| && forall i :: 0 <= i < |results| ==> OffersOf(settings, results[i], parts[i])
    decreases |results|
  {
    hide OffersOf, Offered, ChildLimit, Flatten;
    if results == [] {
      parts := [];
      NothingFlattened();
    } else {
      var n := |results| - 1;
      var last := Offered(settings, results[n], ChildLimit(settings, results[n]));
      parts := AllOfferedMeans(settings, results[..n]);
      FlattenAppend(parts, last);
      OfferedMeans(settings, results[n]);
      parts := parts + [last];
    }
  }

  lemma NothingFlattened()
    ensures Flatten<Task>([]) == []
  {
  }

  lemma OfferedMeans(settings: Settings, result: WorkerResult)
    requires InBounds(settings)
    ensures OffersOf(settings, result, Offered(settings, result, ChildLimit(settings, result)))
  {
    hide Offered, ChildId;
    OfferedShape(settings, result, ChildLimit(settings, result));
    OfferedInFull(settings, result, ChildLimit(settings, result));
  }

  /** Tasks are equivalent exactly when they have one kind and their queries the same folded forms in order. */
  lemma EquivalenceMeans(settings: Settings, a: Task, b: Task)
    ensures Equivalence(settings, a) == Equivalence(settings, b) <==>
            && a.kind == b.kind && |a.queries| == |b.queries|
            && forall i :: 0 <= i < |a.queries| ==> settings.fold(a.queries[i]) == settings.fold(b.queries[i])
  {
    var x, y := Equivalence(settings, a).queries, Equivalence(settings, b).queries;
    assert |x| == |a.queries| && |y| == |b.queries|;
    assert forall i :: 0 <= i < |x| ==> x[i] == settings.fold(a.queries[i]);
    assert forall i :: 0 <= i < |y| ==> y[i] == settings.fold(b.queries[i]);
  }

  /** The candidate at k is equivalent neither to a known task nor to an earlier candidate. */
  ghost predicate NewAt(settings: Settings, known: set<Key>, candidates: seq<Task>, k: int) {
    && 0 <= k < |candidates| && Equivalence(settings, candidates[k]) !in known
    && forall j :: 0 <= j < k ==> Equivalence(settings, candidates[j]) != Equivalence(settings, candidates[k])
  }

  /** The positions of the new candidates, in order. */
  ghost predicate NewsAt(settings: Settings, known: set<Key>, candidates: seq<Task>, at: seq<int>) {
    && (forall i :: 0 <= i < |at| ==> NewAt(settings, known, candidates, at[i]))
    && (forall i, j :: 0 <= i < j < |at| ==> at[i] < at[j])
    && forall k :: NewAt(settings, known, candidates, k) ==> k in at
  }

  /** Exactly the first new candidates are admitted, as many as there is room for. */
  lemma {:induction false} AdmittedMeans(settings: Settings, known: set<Key>, room: nat, candidates: seq<Task>)
    returns (at: seq<int>)
    ensures NewsAt(settings, known, candidates, at)
    ensures var admitted := Admitted(settings, known, room, candidates);
            && |admitted| == (if |at| <= room then |at| else room)
            && forall i :: 0 <= i < |admitted| ==> admitted[i] == candidates[at[i]]
    decreases |candidates|
  {
    hide Equivalence;
    if candidates == [] {
      at := [];
    } else {
      var n := |candidates| - 1;
      at := AdmittedMeans(settings, known, room, candidates[..n]);
      NewsSnoc(settings, known, candidates, at);
      var earlier := Admitted(settings, known, room, candidates[..n]);
      KeysOfNews(settings, known, candidates[..n], at, earlier);
      assert |earlier| < room ==> |earlier| == |at|;
      if NewAt(settings, known, candidates, n) {
        KeyIsFresh(settings, known, candidates, earlier);
        at := at + [n];
      } else if |earlier| < room {
        KeyIsKnown(settings, known, candidates, earlier, at);
      }
    }
  }

  lemma NewsSnoc(settings: Settings, known: set<Key>, candidates: seq<Task>, at: seq<int>)
    requires candidates != [] && NewsAt(settings, known, candidates[..|candidates| - 1], at)
    ensures var n := |candidates| - 1;
            if NewAt(settings, known, candidates, n) then NewsAt(settings, known, candidates, at + [n])
            else NewsAt(settings, known, candidates, at)
  {
    hide Equivalence;
    var n := |candidates| - 1;
    forall k | 0 <= k < n
      ensures NewAt(settings, known, candidates, k) <==> NewAt(settings, known, candidates[..n], k)
    {
    }
    var longer := at + [n];
    forall k | NewAt(settings, known, candidates, k)
      ensures k in longer && (k < n ==> k in at)
    {
      if k < n { assert NewAt(settings, known, candidates[..n], k); } else { assert longer[|at|] == k; }
    }
  }

  lemma KeysOfNews(settings: Settings, known: set<Key>, candidates: seq<Task>, at: seq<int>, admitted: seq<Task>)
    requires NewsAt(settings, known, candidates, at) && |admitted| <= |at|
    requires forall i :: 0 <= i < |admitted| ==> admitted[i] == candidates[at[i]]
    ensures forall t :: t in admitted ==> t in candidates
  {
    hide Equivalence;
  }

  lemma KeyIsFresh(settings: Settings, known: set<Key>, candidates: seq<Task>, admitted: seq<Task>)
    requires candidates != [] && NewAt(settings, known, candidates, |candidates| - 1)
    requires forall t :: t in admitted ==> t in candidates[..|candidates| - 1]
    ensures Equivalence(settings, candidates[|candidates| - 1]) !in known + KeysOf(settings, admitted)
  {
    hide Equivalence;
    var n := |candidates| - 1;
    forall t | t in admitted
      ensures Equivalence(settings, t) != Equivalence(settings, candidates[n])
    {
      var j :| 0 <= j < n && candidates[..n][j] == t;
      assert candidates[j] == t;
    }
  }

  lemma KeyIsKnown(settings: Settings, known: set<Key>, candidates: seq<Task>, admitted: seq<Task>, at: seq<int>)
    requires candidates != [] && !NewAt(settings, known, candidates, |candidates| - 1)
    requires NewsAt(settings, known, candidates[..|candidates| - 1], at) && |admitted| == |at|
    requires forall i :: 0 <= i < |admitted| ==> admitted[i] == candidates[at[i]]
    ensures Equivalence(settings, candidates[|candidates| - 1]) in known + KeysOf(settings, admitted)
  {
    hide Equivalence;
    var n := |candidates| - 1;
    var key := Equivalence(settings, candidates[n]);
    if key !in known {
      var j :| 0 <= j < n && Equivalence(settings, candidates[j]) == key;
      var k := FirstAlike(settings, candidates, j);
      assert NewAt(settings, known, candidates[..n], k);
      var i :| 0 <= i < |at| && at[i] == k;
      assert admitted[i] in admitted;
    }
  }

  lemma FirstAlike(settings: Settings, candidates: seq<Task>, j: nat) returns (k: nat)
    requires j < |candidates|
    ensures k <= j && Equivalence(settings, candidates[k]) == Equivalence(settings, candidates[j])
    ensures forall i :: 0 <= i < k ==> Equivalence(settings, candidates[i]) != Equivalence(settings, candidates[k])
    decreases j
  {
    hide Equivalence;
    k := j;
    if i :| 0 <= i < j && Equivalence(settings, candidates[i]) == Equivalence(settings, candidates[j]) {
      k := FirstAlike(settings, candidates, i);
    }
  }

  /** Rounds dispatch tasks, and aggregation takes results, in dictionary order of their ids. */
  lemma InOrderOfId(tasks: seq<Task>, results: seq<WorkerResult>)
    ensures var sorted := Sort(ById, tasks);
            && multiset(sorted) == multiset(tasks)
            && forall i, j :: 0 <= i < j < |sorted| ==> InDictionaryOrder(sorted[i].id, sorted[j].id)
    ensures var sorted := Sort(ByTaskId, results);
            && multiset(sorted) == multiset(results)
            && forall i, j :: 0 <= i < j < |sorted| ==> InDictionaryOrder(sorted[i].taskId, sorted[j].taskId)
  {
    StringOrder();
    hide StringLe, InDictionaryOrder, Sort;
    SortSorted(ById, tasks);
    SortSorted(ByTaskId, results);
    forall a, b
      ensures StringLe(a, b) <==> InDictionaryOrder(a, b)
    {
      StringLeMeans(a, b);
    }
  }

  lemma DistinctConcat(a: seq<Task>, b: seq<Task>)
    requires DistinctIds(a) && DistinctIds(b)
    requires forall s, t :: s in a && t in b ==> s.id != t.id
    ensures DistinctIds(a + b)
  {
  }

  lemma OfferedDistinct(settings: Settings, result: WorkerResult)
    requires InBounds(settings)
    ensures DistinctIds(Offered(settings, result, ChildLimit(settings, result)))
  {
    hide Offered, ChildId;
    var n := ChildLimit(settings, result);
    OfferedShape(settings, result, n);
    var offered := Offered(settings, result, n);
    forall i, j | 0 <= i < j < |offered|
      ensures offered[i].id != offered[j].id
    {
      if offered[i].id == offered[j].id { ChildIdInjective(result.taskId, i + 1, result.taskId, j + 1); }
    }
  }

  /** Results of different tasks offer children with different ids. */
  lemma {:induction false} AllOfferedDistinct(settings: Settings, results: seq<WorkerResult>)
    requires InBounds(settings) && DistinctResults(results)
    ensures DistinctIds(AllOffered(settings, results))
  {
    hide Offered, DistinctIds, ChildId;
    if results == [] {
      NothingDistinct();
    } else {
      var n := |results| - 1;
      AllOfferedDistinct(settings, results[..n]);
      OfferedDistinct(settings, results[n]);
      OfferedByResults(settings, results[..n]);
      forall s, t | s in AllOffered(settings, results[..n]) &&
                    t in Offered(settings, results[n], ChildLimit(settings, results[n]))
        ensures s.id != t.id
      {
        OfferedChild(settings, results[n], t);
        var i, j :| 0 <= i < n && ChildOf(settings, results[..n][i], j, s);
        var k :| ChildOf(settings, results[n], k, t);
        if s.id == t.id { ChildIdInjective(results[i].taskId, j, results[n].taskId, k); }
      }
      DistinctConcat(AllOffered(settings, results[..n]),
                     Offered(settings, results[n], ChildLimit(settings, results[n])));
    }
  }

  lemma NothingDistinct()
    ensures DistinctIds([])
  {
  }

  lemma {:induction false} AdmittedDistinct(settings: Settings, known: set<Key>, room: nat, candidates: seq<Task>)
    requires DistinctIds(candidates)
    ensures DistinctIds(Admitted(settings, known, room, candidates))
  {
    hide Equivalence, KeysOf;
    if candidates != [] {
      var n := |candidates| - 1;
      AdmittedDistinct(settings, known, room, candidates[..n]);
      NothingRefusedWithoutReason(settings, known, room, candidates[..n]);
      assert forall t :: t in candidates[..n] ==> t.id != candidates[n].id;
    }
  }

  /** Admitted tasks are equivalent neither to known tasks nor to each other. */
  lemma {:induction false} AdmittedFresh(settings: Settings, known: set<Key>, room: nat, candidates: seq<Task>)
    ensures FreshKeys(settings, known, Admitted(settings, known, room, candidates))
  {
    if candidates != [] {
      hide Equivalence, FreshKeys;
      var n := |candidates| - 1;
      AdmittedFresh(settings, known, room, candidates[..n]);
      var earlier := Admitted(settings, known, room, candidates[..n]);
      if Equivalence(settings, candidates[n]) !in known + KeysOf(settings, earlier) {
        KeysAppend(settings, known, earlier, candidates[n]);
      }
    }
  }

  /** One result's share of the aggregation loop. */
  method CollectChildren(settings: Settings, ledger: BudgetLedger, result: WorkerResult,
                         ghost earlier: seq<WorkerResult>, known: set<Key>, children: seq<Task>,
                         ghost before: set<Key>, ghost room: nat)
    returns (known': set<Key>, children': seq<Task>)
    requires InBounds(settings) && ledger.Valid()
    requires known == before + KeysOf(settings, children)
    requires ledger.used[Tasks] + room == ledger.limits(Tasks) + |children|
    requires children == Admitted(settings, before, room, AllOffered(settings, earlier))
    modifies ledger
    ensures children' == Admitted(settings, before, room, AllOffered(settings, earlier + [result]))
    ensures ledger.Valid() && ledger.used == old(ledger.used)[Tasks := ledger.used[Tasks]]
    ensures ledger.used[Tasks] + |children| == old(ledger.used[Tasks]) + |children'|
    ensures known' == before + KeysOf(settings, children')
  {
    hide Equivalence, KeysOf, Admitted, ChildId, FreshKeys;
    known', children' := known, children;
    var limit := ChildLimit(settings, result);
    ghost var candidates := AllOffered(settings, earlier);
    assert candidates + Offered(settings, result, 0) == candidates;
    for index := 0 to limit
      invariant children' == Admitted(settings, before, room, candidates + Offered(settings, result, index))
      invariant ledger.Valid() && ledger.used == old(ledger.used)[Tasks := ledger.used[Tasks]]
      invariant ledger.used[Tasks] + |children| == old(ledger.used[Tasks]) + |children'|
      invariant known' == before + KeysOf(settings, children')
    {
      if result.depth >= settings.maximumDepth { continue; }
      var proposal := result.proposals[index];
      var child := Task(ChildId(result.taskId, index + 1), Some(result.taskId), result.depth + 1,
                        proposal.kind, proposal.queries);
      var key := Equivalence(settings, child);
      AdmitStep(settings, before, room, candidates + Offered(settings, result, index), child);
      assert candidates + Offered(settings, result, index) + [child] ==
             candidates + Offered(settings, result, index + 1);
      if key in known' { continue; }
      var granted := ledger.Consume(Tasks, 1);
      if !granted { continue; }
      AdmittedFresh(settings, before, room, candidates + Offered(settings, result, index));
      KeysAppend(settings, before, children', child);
      known' := known' + {key};
      children' := children' + [child];
    }
    OfferedByLast(settings, earlier, result);
  }

  lemma OfferedByLast(settings: Settings, earlier: seq<WorkerResult>, result: WorkerResult)
    requires InBounds(settings)
    ensures AllOffered(settings, earlier + [result]) ==
            AllOffered(settings, earlier) + Offered(settings, result, ChildLimit(settings, result))
  {
    assert (earlier + [result])[..|earlier|] == earlier;
  }

  lemma KeysAppend(settings: Settings, before: set<Key>, children: seq<Task>, child: Task)
    requires FreshKeys(settings, before, children)
    requires Equivalence(settings, child) !in before + KeysOf(settings, children)
    ensures FreshKeys(settings, before, children + [child])
    ensures before + KeysOf(settings, children + [child]) ==
            before + KeysOf(settings, children) + {Equivalence(settings, child)}
  {
    hide Equivalence;
    assert forall t :: t in children + [child] <==> t in children || t == child;
    assert KeysOf(settings, children + [child]) == KeysOf(settings, children) + {Equivalence(settings, child)};
  }

  /** The loop of `aggregate` over the round's results. */
  method AggregateRound(settings: Settings, ledger: BudgetLedger, current: seq<WorkerResult>, before: set<Key>)
    returns (children: seq<Task>)
    requires InBounds(settings) && ledger.Valid()
    modifies ledger
    ensures ledger.Valid() && ledger.used == old(ledger.used)[Tasks := ledger.used[Tasks]]
    ensures ledger.used[Tasks] == old(ledger.used[Tasks]) + |children|
    ensures children == Admitted(settings, before, ledger.limits(Tasks) - old(ledger.used[Tasks]),
                                 AllOffered(settings, current))
    ensures FreshKeys(settings, before, children) && (DistinctResults(current) ==> DistinctIds(children))
    ensures forall t :: t in children ==> ChildOfAny(settings, current, t)
  {
    hide Equivalence, Admitted, Offered, DistinctIds, DistinctResults, ChildOfAny;
    children := [];
    var known := before;
    ghost var room := ledger.limits(Tasks) - ledger.used[Tasks];
    assert Admitted(settings, before, room, []) == [] by { AdmittedFromNothing(settings, before, room); }
    for i := 0 to |current|
      invariant children == Admitted(settings, before, room, AllOffered(settings, current[..i]))
      invariant ledger.Valid() && ledger.used == old(ledger.used)[Tasks := ledger.used[Tasks]]
      invariant ledger.used[Tasks] == old(ledger.used[Tasks]) + |children|
      invariant known == before + KeysOf(settings, children)
    {
      assert current[..i] + [current[i]] == current[..i + 1];
      known, children := CollectChildren(settings, ledger, current[i], current[..i], known, children, before, room);
    }
    assert current[..|current|] == current;
    AdmittedChildren(settings, before, room, current);
  }

  lemma AdmittedChildren(settings: Settings, known: set<Key>, room: nat, current: seq<WorkerResult>)
    requires InBounds(settings)
    ensures var children := Admitted(settings, known, room, AllOffered(settings, current));
            && FreshKeys(settings, known, children) && (DistinctResults(current) ==> DistinctIds(children))
            && forall t :: t in children ==> ChildOfAny(settings, current, t)
  {
    hide Admitted, AllOffered, DistinctIds, DistinctResults, ChildOfAny, FreshKeys;
    var candidates := AllOffered(settings, current);
    AdmittedFresh(settings, known, room, candidates);
    NothingRefusedWithoutReason(settings, known, room, candidates);
    OfferedByResults(settings, current);
    if DistinctResults(current) {
      AllOfferedDistinct(settings, current);
      AdmittedDistinct(settings, known, room, candidates);
    }
  }

  lemma AdmittedFromNothing(settings: Settings, known: set<Key>, room: nat)
    ensures Admitted(settings, known, room, []) == []
  {
  }

  // ---- Rounds ----------------------------------------------------------------------------------

  /** `t` was proposed by the worker of `p`. */
  ghost predicate TaskChild(settings: Settings, p: Task, t: Task) {
    && t.parent == Some(p.id)
    && t.depth == p.depth + 1 <= settings.maximumDepth
    && exists k :: 1 <= k <= settings.maximumChildren && k < 100 && t.id == ChildId(p.id, k)
  }

  /** Every task of a round is a child of a task of the round before, and no two tasks of the round,
      nor one of them and a task of the plan or of the round before, are equivalent. */
  ghost predicate NextGeneration(settings: Settings, plan: seq<Task>, previous: seq<Task>, tasks: seq<Task>) {
    && (forall t :: t in tasks ==> exists p :: p in previous && TaskChild(settings, p, t))
    && FreshKeys(settings, KeysOf(settings, plan) + KeysOf(settings, previous), tasks)
  }

  function ExecuteAll(tasks: seq<Task>, work: Work): (r: seq<WorkerResult>)
    ensures |r| == |tasks|
    ensures forall i :: 0 <= i < |tasks| ==>
                          r[i] == WorkerResult(tasks[i].id, tasks[i].depth, work.reports(i).proposals,
                                               work.reports(i).content)
  {
    seq(|tasks|, i requires 0 <= i < |tasks| =>
          WorkerResult(tasks[i].id, tasks[i].depth, work.reports(i).proposals, work.reports(i).content))
  }

  /** The results of a round as the state's reducer adds them: equal ones once. */
  function RoundResults(tasks: seq<Task>, work: Work): seq<WorkerResult> {
    AppendNew([], ExecuteAll(tasks, work))
  }

  /** Everything the workers of these rounds returned. */
  function Returned(rounds: seq<seq<Task>>, work: nat -> Work): seq<WorkerResult> {
    if rounds == [] then []
    else
      var n := |rounds| - 1;
      Returned(rounds[..n], work) + ExecuteAll(rounds[n], work(n))
  }

  function NotProcessed(results: seq<WorkerResult>, processed: set<string>): seq<WorkerResult> {
    if results == [] then []
    else
      var n := |results| - 1;
      NotProcessed(results[..n], processed) + (if results[n].taskId in processed then [] else [results[n]])
  }

  function Ids(tasks: seq<Task>): set<string> {
    set t | t in tasks :: t.id
  }

  function ResultIds(results: seq<WorkerResult>): set<string> {
    set r | r in results :: r.taskId
  }

  /** Results answer tasks one for one. */
  ghost predicate Answers(results: seq<WorkerResult>, tasks: seq<Task>) {
    && |results| == |tasks|
    && forall i :: 0 <= i < |tasks| ==> results[i].taskId == tasks[i].id && results[i].depth == tasks[i].depth
  }

  lemma {:induction false} AllProcessed(results: seq<WorkerResult>, processed: set<string>)
    requires forall r :: r in results ==> r.taskId in processed
    ensures NotProcessed(results, processed) == []
  {
    if results != [] {
      AllProcessed(results[..|results| - 1], processed);
    }
  }

  lemma {:induction false} NotProcessedSplit(earlier: seq<WorkerResult>, added: seq<WorkerResult>,
                                             processed: set<string>)
    requires forall r :: r in earlier ==> r.taskId in processed
    requires forall r :: r in added ==> r.taskId !in processed
    ensures NotProcessed(earlier + added, processed) == added
    decreases |added|
  {
    if added == [] {
      assert earlier + added == earlier;
      AllProcessed(earlier, processed);
    } else {
      var n := |added| - 1;
      var all := earlier + added;
      assert all[..|all| - 1] == earlier + added[..n] && all[|all| - 1] == added[n];
      NotProcessedSplit(earlier, added[..n], processed);
    }
  }

  ghost predicate Lineage(settings: Settings, plan: seq<Task>, rounds: seq<seq<Task>>) {
    forall r :: 0 <= r < |rounds| ==> Upcoming(settings, plan, rounds[..r], rounds[r])
  }

  /** What a round may contain, given the rounds before it. */
  ghost predicate Upcoming(settings: Settings, plan: seq<Task>, rounds: seq<seq<Task>>, tasks: seq<Task>) {
    if rounds == [] then forall t :: t in tasks ==> t in plan
    else NextGeneration(settings, plan, rounds[|rounds| - 1], tasks)
  }

  /** `pending` tasks may be dispatched after `rounds`: they sit one dot and at least one level
      deeper per round. */
  ghost predicate Levels(settings: Settings, rounds: seq<seq<Task>>, pending: seq<Task>) {
    && (forall t :: t in Flatten(rounds) ==> Dots(t.id) < |rounds| && t.depth <= settings.maximumDepth)
    && (forall t :: t in pending ==> Dots(t.id) == |rounds| <= t.depth <= settings.maximumDepth)
  }

  lemma LineageAppend(settings: Settings, plan: seq<Task>, rounds: seq<seq<Task>>, tasks: seq<Task>)
    requires Lineage(settings, plan, rounds) && Upcoming(settings, plan, rounds, tasks)
    ensures Lineage(settings, plan, rounds + [tasks])
  {
    hide Upcoming;
    var longer := rounds + [tasks];
    forall r | 0 <= r < |longer|
      ensures Upcoming(settings, plan, longer[..r], longer[r])
    {
      assert longer[..r] == rounds[..r];
      assert r == |rounds| ==> rounds[..r] == rounds;
    }
  }

  lemma UpcomingPermutation(settings: Settings, plan: seq<Task>, rounds: seq<seq<Task>>, a: seq<Task>, b: seq<Task>)
    requires Upcoming(settings, plan, rounds, a) && forall t :: t in a <==> t in b
    ensures Upcoming(settings, plan, rounds, b)
  {
    hide Equivalence, TaskChild;
  }

  lemma KeysOfPermutation(settings: Settings, a: seq<Task>, b: seq<Task>)
    requires forall t :: t in a <==> t in b
    ensures KeysOf(settings, a) == KeysOf(settings, b)
  {
    hide Equivalence;
  }

  /** The children of a round form its next generation. */
  lemma ChildrenFollow(settings: Settings, plan: seq<Task>, dispatched: seq<Task>, work: Work,
                       current: seq<WorkerResult>, children: seq<Task>)
    requires forall r :: r in current ==> r in ExecuteAll(dispatched, work)
    requires forall t :: t in children ==> ChildOfAny(settings, current, t)
    requires FreshKeys(settings, KeysOf(settings, plan) + KeysOf(settings, dispatched), children)
    ensures NextGeneration(settings, plan, dispatched, children)
  {
    hide FreshKeys, KeysOf;
    forall t | t in children
      ensures exists p :: p in dispatched && TaskChild(settings, p, t)
    {
      var i, k :| 0 <= i < |current| && ChildOf(settings, current[i], k, t);
      assert current[i] in ExecuteAll(dispatched, work);
      var j :| 0 <= j < |dispatched| && ExecuteAll(dispatched, work)[j] == current[i];
      assert dispatched[j] in dispatched && TaskChild(settings, dispatched[j], t);
    }
  }

  lemma GenerationLevels(settings: Settings, plan: seq<Task>, rounds: seq<seq<Task>>, dispatched: seq<Task>,
                         children: seq<Task>)
    requires Levels(settings, rounds, dispatched) && NextGeneration(settings, plan, dispatched, children)
    ensures Levels(settings, rounds + [dispatched], children)
  {
    hide FreshKeys;
    FlattenAppend(rounds, dispatched);
    forall t | t in children
      ensures Dots(t.id) == |rounds| + 1 <= t.depth <= settings.maximumDepth
    {
      var p :| p in dispatched && TaskChild(settings, p, t);
      var k :| 1 <= k <= settings.maximumChildren && k < 100 && t.id == ChildId(p.id, k);
      ChildHasOneMoreDot(p.id, k);
    }
  }

  lemma {:induction false} ReturnedAnswers(rounds: seq<seq<Task>>, work: nat -> Work)
    ensures Answers(Returned(rounds, work), Flatten(rounds))
  {
    hide ExecuteAll;
    if rounds != [] {
      var n := |rounds| - 1;
      ReturnedAnswers(rounds[..n], work);
      assert rounds == rounds[..n] + [rounds[n]];
      FlattenAppend(rounds[..n], rounds[n]);
    }
  }

  lemma ReturnedAppend(rounds: seq<seq<Task>>, work: nat -> Work, dispatched: seq<Task>)
    ensures Returned(rounds + [dispatched], work) == Returned(rounds, work) + ExecuteAll(dispatched, work(|rounds|))
  {
    hide ExecuteAll;
    assert (rounds + [dispatched])[..|rounds|] == rounds;
  }

  lemma AnswersIds(results: seq<WorkerResult>, tasks: seq<Task>)
    requires Answers(results, tasks)
    ensures ResultIds(results) == Ids(tasks)
    ensures DistinctIds(tasks) ==> DistinctResults(results)
  {
    forall r | r in results
      ensures r.taskId in Ids(tasks)
    {
      var i :| 0 <= i < |results| && results[i] == r;
      assert tasks[i] in tasks;
    }
    forall t | t in tasks
      ensures t.id in ResultIds(results)
    {
      var i :| 0 <= i < |tasks| && tasks[i] == t;
      assert results[i] in results;
    }
  }

  lemma DistinctResultsKept(results: seq<WorkerResult>)
    requires DistinctResults(results)
    ensures AppendNew([], results) == results
  {
    AppendNewKeepsAll([], results);
    assert [] + results == results;
  }

  lemma SameIds(a: seq<WorkerResult>, b: seq<WorkerResult>)
    requires forall r :: r in a <==> r in b
    ensures ResultIds(a) == ResultIds(b)
  {
  }

  lemma RoundResultIds(dispatched: seq<Task>, work: Work)
    ensures ResultIds(RoundResults(dispatched, work)) == Ids(dispatched)
    ensures DistinctIds(dispatched) ==>
              && RoundResults(dispatched, work) == ExecuteAll(dispatched, work)
              && DistinctResults(RoundResults(dispatched, work))
  {
    var added := ExecuteAll(dispatched, work);
    assert Answers(added, dispatched);
    hide ExecuteAll, DistinctIds, DistinctResults, Answers, ResultIds, Ids, AppendNew;
    AnswersIds(added, dispatched);
    AppendNewMembers([], added);
    SameIds(RoundResults(dispatched, work), added);
    if DistinctIds(dispatched) { DistinctResultsKept(added); }
  }

  /** The reducer puts a round's results after the earlier ones, and they are the unprocessed ones. */
  lemma NewResults(flat: seq<Task>, results: seq<WorkerResult>, dispatched: seq<Task>, work: Work)
    requires ResultIds(results) == Ids(flat) && Ids(flat) !! Ids(dispatched)
    ensures AppendNew(results, ExecuteAll(dispatched, work)) == results + RoundResults(dispatched, work)
    ensures NotProcessed(results + RoundResults(dispatched, work), Ids(flat)) == RoundResults(dispatched, work)
  {
    var added, kept := ExecuteAll(dispatched, work), RoundResults(dispatched, work);
    hide ExecuteAll, Ids, AppendNew;
    RoundResultIds(dispatched, work);
    AppendNewMembers([], added);
    forall r | r in kept
      ensures r.taskId !in Ids(flat)
    {
      assert r.taskId in ResultIds(kept);
    }
    forall r | r in results
      ensures r.taskId in Ids(flat)
    {
      assert r.taskId in ResultIds(results);
    }
    NotProcessedSplit(results, kept, Ids(flat));
    AppendNewDisjoint(results, [], added);
    assert results + [] == results;
  }

  lemma LevelsDisjoint(settings: Settings, rounds: seq<seq<Task>>, dispatched: seq<Task>)
    requires Levels(settings, rounds, dispatched)
    ensures Ids(Flatten(rounds)) !! Ids(dispatched)
    ensures DistinctIds(Flatten(rounds)) && DistinctIds(dispatched) ==> DistinctIds(Flatten(rounds) + dispatched)
  {
    var flat := Flatten(rounds);
    forall s, t | s in flat && t in dispatched
      ensures s.id != t.id
    {
      assert Dots(s.id) < |rounds| == Dots(t.id);
    }
    if DistinctIds(flat) && DistinctIds(dispatched) { DistinctConcat(flat, dispatched); }
  }

  /** The plan's tasks as far as the task budget allows. */
  function Approved(settings: Settings, plan: seq<Task>): seq<Task> {
    if |plan| <= settings.maximumTotalTasks then plan else plan[..settings.maximumTotalTasks]
  }

  /** Between rounds of the research graph. */
  ghost predicate RunState(settings: Settings, plan: seq<Task>, work: nat -> Work, rounds: seq<seq<Task>>,
                           pending: seq<Task>, results: seq<WorkerResult>, processed: set<string>, tasksUsed: nat) {
    && Lineage(settings, plan, rounds) && Upcoming(settings, plan, rounds, pending)
    && Levels(settings, rounds, pending)
    && results == AppendNew([], Returned(rounds, work)) && processed == Ids(Flatten(rounds))
    && tasksUsed == |Flatten(rounds)| + |pending|
    && (DistinctIds(Approved(settings, plan)) ==> DistinctIds(Flatten(rounds)) && DistinctIds(pending))
  }

  lemma RunStep(settings: Settings, plan: seq<Task>, work: nat -> Work, rounds: seq<seq<Task>>, pending: seq<Task>,
                results: seq<WorkerResult>, processed: set<string>, tasksUsed: nat,
                dispatched: seq<Task>, current: seq<WorkerResult>, children: seq<Task>, next: seq<Task>)
    requires RunState(settings, plan, work, rounds, pending, results, processed, tasksUsed)
    requires multiset(dispatched) == multiset(pending) && |dispatched| == |pending|
    requires multiset(current) == multiset(RoundResults(dispatched, work(|rounds|)))
    requires forall t :: t in children ==> ChildOfAny(settings, current, t)
    requires FreshKeys(settings, KeysOf(settings, plan) + KeysOf(settings, pending), children)
    requires DistinctResults(current) ==> DistinctIds(children)
    requires multiset(next) == multiset(children) && |next| == |children|
    ensures RunState(settings, plan, work, rounds + [dispatched], next,
                     AppendNew(results, ExecuteAll(dispatched, work(|rounds|))),
                     processed + Ids(dispatched), tasksUsed + |children|)
  {
    hide FreshKeys, KeysOf, ChildOfAny, NextGeneration, Lineage, Levels, DistinctIds, DistinctResults, ExecuteAll,
         Flatten;
    hide AppendNew, Approved, Upcoming, RoundResults, Returned;
    FlattenAppend(rounds, dispatched);
    IdsAppend(Flatten(rounds), dispatched);
    PendingDispatched(settings, plan, rounds, pending, dispatched);
    LineageAppend(settings, plan, rounds, dispatched);
    GenerationFollows(settings, plan, rounds, pending, dispatched, work(|rounds|), current, children, next);
    ReturnedAppend(rounds, work, dispatched);
    AppendNewTwice([], Returned(rounds, work), ExecuteAll(dispatched, work(|rounds|)));
    if DistinctIds(Approved(settings, plan)) {
      RoundResultIds(dispatched, work(|rounds|));
      ResultsPermutation(RoundResults(dispatched, work(|rounds|)), current);
      DistinctPermutation(children, next);
    }
  }

  lemma GenerationFollows(settings: Settings, plan: seq<Task>, rounds: seq<seq<Task>>, pending: seq<Task>,
                          dispatched: seq<Task>, work: Work, current: seq<WorkerResult>, children: seq<Task>,
                          next: seq<Task>)
    requires multiset(dispatched) == multiset(pending) && Levels(settings, rounds, dispatched)
    requires multiset(current) == multiset(RoundResults(dispatched, work))
    requires forall t :: t in children ==> ChildOfAny(settings, current, t)
    requires FreshKeys(settings, KeysOf(settings, plan) + KeysOf(settings, pending), children)
    requires multiset(next) == multiset(children)
    ensures Upcoming(settings, plan, rounds + [dispatched], next) && Levels(settings, rounds + [dispatched], next)
  {
    hide FreshKeys, KeysOf, ChildOfAny, NextGeneration, Levels, ExecuteAll, AppendNew;
    SameMembers(dispatched, pending);
    KeysOfPermutation(settings, pending, dispatched);
    SameMembers(current, RoundResults(dispatched, work));
    AppendNewMembers([], ExecuteAll(dispatched, work));
    ChildrenFollow(settings, plan, dispatched, work, current, children);
    SameMembers(next, children);
    UpcomingPermutation(settings, plan, rounds + [dispatched], children, next);
    GenerationLevels(settings, plan, rounds, dispatched, next);
  }

  lemma DistinctPermutation(a: seq<Task>, b: seq<Task>)
    requires DistinctIds(a) && multiset(a) == multiset(b)
    ensures DistinctIds(b)
  {
    DistinctByPermutation((t: Task) => t.id, a, b);
  }

  lemma ResultsPermutation(a: seq<WorkerResult>, b: seq<WorkerResult>)
    requires DistinctResults(a) && multiset(a) == multiset(b)
    ensures DistinctResults(b)
  {
    DistinctByPermutation((r: WorkerResult) => r.taskId, a, b);
  }

  lemma PendingDispatched(settings: Settings, plan: seq<Task>, rounds: seq<seq<Task>>, pending: seq<Task>,
                          dispatched: seq<Task>)
    requires multiset(pending) == multiset(dispatched)
    requires Upcoming(settings, plan, rounds, pending) && Levels(settings, rounds, pending)
    ensures Upcoming(settings, plan, rounds, dispatched) && Levels(settings, rounds, dispatched)
    ensures Ids(Flatten(rounds)) !! Ids(dispatched)
    ensures DistinctIds(pending) ==> DistinctIds(dispatched)
    ensures DistinctIds(Flatten(rounds)) && DistinctIds(pending) ==> DistinctIds(Flatten(rounds) + dispatched)
  {
    hide Upcoming, NextGeneration, DistinctIds, Ids, Flatten;
    SameMembers(pending, dispatched);
    UpcomingPermutation(settings, plan, rounds, pending, dispatched);
    if DistinctIds(pending) { DistinctPermutation(pending, dispatched); }
    LevelsDisjoint(settings, rounds, dispatched);
  }

  lemma IdsAppend(a: seq<Task>, b: seq<Task>)
    ensures Ids(a + b) == Ids(a) + Ids(b)
  {
    assert forall t :: t in a + b <==> t in a || t in b;
  }

  /** The tasks that wait after these rounds: at first the plan as far as the budget allows; after a round
      the new tasks its results offer, as far as the budget that is left allows. */
  ghost function Waiting(settings: Settings, plan: seq<Task>, work: nat -> Work, rounds: seq<seq<Task>>): seq<Task>
    requires InBounds(settings)
  {
    var limit := settings.maximumTotalTasks;
    if rounds == [] then Approved(settings, plan)
    else
      var n := |rounds| - 1;
      var used := |Flatten(rounds)|;
      Sort(ById, Admitted(settings, KeysOf(settings, plan) + KeysOf(settings, rounds[n]),
                          if used <= limit then limit - used else 0,
                          AllOffered(settings, Sort(ByTaskId, RoundResults(rounds[n], work(n))))))
  }

  /** Each round dispatches, in order of id, exactly the tasks that wait after the rounds before it. */
  ghost predicate Unfolds(settings: Settings, plan: seq<Task>, work: nat -> Work, rounds: seq<seq<Task>>)
    requires InBounds(settings)
  {
    forall k :: 0 <= k < |rounds| ==> rounds[k] == Sort(ById, Waiting(settings, plan, work, rounds[..k]))
  }

  lemma UnfoldsAppend(settings: Settings, plan: seq<Task>, work: nat -> Work, rounds: seq<seq<Task>>)
    requires InBounds(settings) && Unfolds(settings, plan, work, rounds)
    ensures Unfolds(settings, plan, work, rounds + [Sort(ById, Waiting(settings, plan, work, rounds))])
  {
    hide Waiting, Sort;
    var longer := rounds + [Sort(ById, Waiting(settings, plan, work, rounds))];
    forall k | 0 <= k < |longer|
      ensures longer[k] == Sort(ById, Waiting(settings, plan, work, longer[..k]))
    {
      assert longer[..k] == rounds[..k];
      assert rounds[..|rounds|] == rounds;
    }
  }

  lemma WaitingAfter(settings: Settings, plan: seq<Task>, work: nat -> Work, rounds: seq<seq<Task>>,
                     dispatched: seq<Task>, known: set<Key>, room: nat)
    requires InBounds(settings) && known == KeysOf(settings, plan) + KeysOf(settings, dispatched)
    requires |Flatten(rounds)| + |dispatched| + room == settings.maximumTotalTasks
    ensures Waiting(settings, plan, work, rounds + [dispatched]) ==
            Sort(ById, Admitted(settings, known, room,
                                AllOffered(settings, Sort(ByTaskId, RoundResults(dispatched, work(|rounds|))))))
  {
    hide KeysOf, Admitted, AllOffered, RoundResults, Sort;
    FlattenAppend(rounds, dispatched);
  }

  /** `initialize`: plan tasks are approved in order while the task budget lasts. */
  method Approve(plan: seq<Task>, ledger: BudgetLedger) returns (approved: seq<Task>)
    requires ledger.Valid() && ledger.used[Tasks] == 0
    modifies ledger
    ensures ledger.Valid() && ledger.used == old(ledger.used)[Tasks := ledger.used[Tasks]]
    ensures approved == if |plan| <= ledger.limits(Tasks) then plan else plan[..ledger.limits(Tasks)]
    ensures ledger.used[Tasks] == |approved|
  {
    approved := [];
    ghost var limit := ledger.limits(Tasks);
    for i := 0 to |plan|
      invariant ledger.Valid() && ledger.used == old(ledger.used)[Tasks := ledger.used[Tasks]]
      invariant approved == if i <= limit then plan[..i] else plan[..limit]
      invariant ledger.used[Tasks] == |approved|
    {
      var granted := ledger.Consume(Tasks, 1);
      if granted {
        approved := approved + [plan[i]];
      }
    }
  }

  /** The workers' own use of the ledger, in whatever order it happens. */
  method Spend(spending: seq<Spending>, ledger: BudgetLedger)
    requires ledger.Valid() && forall s :: s in spending ==> s.resource != Tasks
    modifies ledger
    ensures ledger.Valid() && ledger.used[Tasks] == old(ledger.used)[Tasks]
  {
    for i := 0 to |spending|
      invariant ledger.Valid() && ledger.used[Tasks] == old(ledger.used)[Tasks]
    {
      assert spending[i] in spending;
      var granted := ledger.Consume(spending[i].resource, spending[i].amount);
    }
  }

  /** What a round dispatches and what its aggregation starts from. */
  lemma RoundStarts(settings: Settings, plan: seq<Task>, work: nat -> Work, rounds: seq<seq<Task>>, pending: seq<Task>,
                    results: seq<WorkerResult>, processed: set<string>, used: nat)
    requires RunState(settings, plan, work, rounds, pending, results, processed, used)
    ensures var dispatched := Sort(ById, pending);
            var kept := RoundResults(dispatched, work(|rounds|));
            && AppendNew(results, ExecuteAll(dispatched, work(|rounds|))) == results + kept
            && NotProcessed(results + kept, processed) == kept
            && ResultIds(Sort(ByTaskId, kept)) == Ids(dispatched)
            && KeysOf(settings, pending) == KeysOf(settings, dispatched)
            && used == |Flatten(rounds)| + |dispatched|
  {
    hide Lineage, Levels, Answers, DistinctIds, Upcoming, ExecuteAll, Equivalence, Sort, AppendNew, Returned, Flatten;
    hide ResultIds, Ids, NotProcessed, RoundResults, Approved;
    var dispatched := Sort(ById, pending);
    var kept := RoundResults(dispatched, work(|rounds|));
    PendingDispatched(settings, plan, rounds, pending, dispatched);
    ReturnedAnswers(rounds, work);
    AnswersIds(Returned(rounds, work), Flatten(rounds));
    AppendNewMembers([], Returned(rounds, work));
    SameIds(results, Returned(rounds, work));
    NewResults(Flatten(rounds), results, dispatched, work(|rounds|));
    RoundResultIds(dispatched, work(|rounds|));
    SameMembers(Sort(ByTaskId, kept), kept);
    SameIds(Sort(ByTaskId, kept), kept);
    SameMembers(dispatched, pending);
    KeysOfPermutation(settings, pending, dispatched);
  }

  /** One superstep of workers and one of aggregation. */
  method RunRound(settings: Settings, plan: seq<Task>, work: nat -> Work, ledger: BudgetLedger, rounds: seq<seq<Task>>,
                  pending: seq<Task>, results: seq<WorkerResult>, processed: set<string>)
    returns (rounds': seq<seq<Task>>, pending': seq<Task>, results': seq<WorkerResult>, processed': set<string>)
    requires InBounds(settings) && ledger.Valid() && ledger.limits(Tasks) == settings.maximumTotalTasks
    requires forall n, s :: s in work(n).spending ==> s.resource != Tasks
    requires RunState(settings, plan, work, rounds, pending, results, processed, ledger.used[Tasks])
    requires Unfolds(settings, plan, work, rounds) && pending == Waiting(settings, plan, work, rounds)
    modifies ledger
    ensures ledger.Valid() && |rounds'| == |rounds| + 1
    ensures RunState(settings, plan, work, rounds', pending', results', processed', ledger.used[Tasks])
    ensures Unfolds(settings, plan, work, rounds') && pending' == Waiting(settings, plan, work, rounds')
  {
    hide RunState, DistinctResults, DistinctIds, FreshKeys, ChildOfAny, ChildOf, KeysOf, Equivalence, ExecuteAll,
         Waiting, Unfolds, RoundResults, AllOffered, Admitted, Sort, NotProcessed, AppendNew, Ids, ResultIds, Flatten;
    var todo := work(|rounds|);
    RoundStarts(settings, plan, work, rounds, pending, results, processed, ledger.used[Tasks]);
    // Dispatch: one worker per pending task, in order of id.
    var dispatched := Sort(ById, pending);
    Spend(todo.spending, ledger);
    results' := AppendNew(results, ExecuteAll(dispatched, todo));
    // Aggregate.
    var current := Sort(ByTaskId, NotProcessed(results', processed));
    var known := KeysOf(settings, plan) + KeysOf(settings, pending);
    ghost var before := ledger.used[Tasks];
    var children := AggregateRound(settings, ledger, current, known);
    pending' := Sort(ById, children);
    processed' := processed + ResultIds(current);
    rounds' := rounds + [dispatched];
    RunStep(settings, plan, work, rounds, pending, results, processed, before, dispatched, current, children, pending');
    UnfoldsAppend(settings, plan, work, rounds);
    WaitingAfter(settings, plan, work, rounds, dispatched, known, ledger.limits(Tasks) - before);
  }

  /** The research graph from `initialize_research` to `finalize_research`, for arbitrary workers.
      `rounds` are the tasks dispatched, round by round; `steps` counts the graph's supersteps. */
  method RunRounds(settings: Settings, plan: seq<Task>, work: nat -> Work, limits: Resource -> nat)
    returns (rounds: seq<seq<Task>>, results: seq<WorkerResult>, tasksUsed: nat, steps: nat)
    requires InBounds(settings) && limits(Tasks) == settings.maximumTotalTasks
    requires forall t :: t in plan ==> t.depth <= settings.maximumDepth && Dots(t.id) == 0
    requires forall n, s :: s in work(n).spending ==> s.resource != Tasks
    // The rounds end, within the depth limit and within the graph's recursion limit.
    ensures |rounds| <= settings.maximumDepth + 1 && steps == 2 * |rounds| + 2 <= 25
    // Only plan tasks in the first round; after that children of the round before, one level deeper.
    ensures Lineage(settings, plan, rounds)
    // The rounds are determined: nothing new is left out while the budget lasts, and they end only when
    // nothing is waiting.
    ensures Unfolds(settings, plan, work, rounds) && Waiting(settings, plan, work, rounds) == []
    // The results kept are everything the workers returned, equal results once.
    ensures results == AppendNew([], Returned(rounds, work)) && Answers(Returned(rounds, work), Flatten(rounds))
    // No id is dispatched twice exactly when the approved tasks have distinct ids, and then the results
    // answer the tasks one for one.
    ensures DistinctIds(Flatten(rounds)) <==> DistinctIds(Approved(settings, plan))
    ensures DistinctIds(Approved(settings, plan)) ==> results == Returned(rounds, work)
    ensures forall t :: t in Flatten(rounds) ==> t.depth <= settings.maximumDepth
    // The ledger has counted exactly the tasks dispatched, and never more than its limit.
    ensures tasksUsed == |Flatten(rounds)| <= settings.maximumTotalTasks
  {
    hide Lineage, Levels, Answers, DistinctIds, Upcoming, ExecuteAll, Equivalence, Waiting, Unfolds, AllOffered,
         Admitted, RunState, Flatten, Returned, AppendNew, Approved;
    var ledger := new BudgetLedger(limits);
    var planning := ledger.Consume(LlmCalls, 1);
    var pending := Approve(plan, ledger);
    rounds, results, steps := [], [], 1;
    var processed: set<string> := {};
    NothingDispatched(settings, plan, work);
    InitialState(settings, plan, work);
    while pending != []
      invariant fresh(ledger) && ledger.Valid() && ledger.limits == limits
      invariant RunState(settings, plan, work, rounds, pending, results, processed, ledger.used[Tasks])
      invariant |rounds| <= settings.maximumDepth + 1 && steps == 2 * |rounds| + 1
      invariant Unfolds(settings, plan, work, rounds) && pending == Waiting(settings, plan, work, rounds)
      decreases settings.maximumDepth + 1 - |rounds|
    {
      RoundWithinDepth(settings, plan, work, rounds, pending, results, processed, ledger.used[Tasks]);
      rounds, pending, results, processed :=
        RunRound(settings, plan, work, ledger, rounds, pending, results, processed);
      steps := steps + 2;
    }
    steps := steps + 1;
    tasksUsed := ledger.used[Tasks];
    RunEnds(settings, plan, work, rounds, results, processed, tasksUsed);
  }

  lemma NothingDispatched(settings: Settings, plan: seq<Task>, work: nat -> Work)
    requires InBounds(settings)
    ensures Unfolds(settings, plan, work, [])
    ensures Waiting(settings, plan, work, []) == Approved(settings, plan) ==
            if |plan| <= settings.maximumTotalTasks then plan else plan[..settings.maximumTotalTasks]
  {
  }

  lemma InitialState(settings: Settings, plan: seq<Task>, work: nat -> Work)
    requires forall t :: t in plan ==> t.depth <= settings.maximumDepth && Dots(t.id) == 0
    ensures RunState(settings, plan, work, [], Approved(settings, plan), [], {}, |Approved(settings, plan)|)
  {
    assert forall t :: t in Approved(settings, plan) ==> t in plan;
    NothingDistinct();
  }

  lemma RoundWithinDepth(settings: Settings, plan: seq<Task>, work: nat -> Work, rounds: seq<seq<Task>>,
                         pending: seq<Task>, results: seq<WorkerResult>, processed: set<string>, tasksUsed: nat)
    requires RunState(settings, plan, work, rounds, pending, results, processed, tasksUsed) && pending != []
    ensures |rounds| <= settings.maximumDepth
  {
    hide Lineage, Upcoming, Returned, AppendNew, DistinctIds, Approved;
    assert pending[0] in pending;
  }

  lemma FirstRound(settings: Settings, plan: seq<Task>, work: nat -> Work, rounds: seq<seq<Task>>)
    requires InBounds(settings) && Unfolds(settings, plan, work, rounds)
    requires rounds == [] ==> Approved(settings, plan) == []
    ensures DistinctIds(Flatten(rounds)) ==> DistinctIds(Approved(settings, plan))
  {
    hide Approved, Sort;
    var approved := Approved(settings, plan);
    if rounds != [] && DistinctIds(Flatten(rounds)) {
      assert rounds[..0] == [];
      assert rounds[0] == Sort(ById, approved);
      assert Flatten(rounds)[..|rounds[0]|] == rounds[0];
      DistinctPermutation(rounds[0], approved);
    }
  }

  lemma RunEnds(settings: Settings, plan: seq<Task>, work: nat -> Work, rounds: seq<seq<Task>>,
                results: seq<WorkerResult>, processed: set<string>, tasksUsed: nat)
    requires InBounds(settings) && RunState(settings, plan, work, rounds, [], results, processed, tasksUsed)
    requires Unfolds(settings, plan, work, rounds) && Waiting(settings, plan, work, rounds) == []
    ensures Lineage(settings, plan, rounds) && tasksUsed == |Flatten(rounds)|
    ensures results == AppendNew([], Returned(rounds, work)) && Answers(Returned(rounds, work), Flatten(rounds))
    ensures DistinctIds(Flatten(rounds)) <==> DistinctIds(Approved(settings, plan))
    ensures DistinctIds(Approved(settings, plan)) ==> results == Returned(rounds, work)
    ensures forall t :: t in Flatten(rounds) ==> t.depth <= settings.maximumDepth
  {
    hide Lineage, Upcoming, DistinctIds, DistinctResults, Returned, AppendNew, Unfolds, Sort, Flatten, Approved,
         Answers;
    NothingDispatched(settings, plan, work);
    FirstRound(settings, plan, work, rounds);
    ReturnedAnswers(rounds, work);
    AnswersIds(Returned(rounds, work), Flatten(rounds));
    if DistinctIds(Flatten(rounds)) { DistinctResultsKept(Returned(rounds, work)); }
  }

  // ---- Compiled plans start runs ---------------------------------------------------------------

  lemma {:induction false} DecimalHasNoDot(n: nat)
    ensures Dots(Plan.Decimal(n)) == 0
  {
    if n >= 10 {
      DecimalHasNoDot(n / 10);
      DotsAppend(Plan.Decimal(n / 10), Plan.DIGITS[n % 10]);
    } else {
      DotsAppend("", Plan.DIGITS[n]);
      assert "" + [Plan.DIGITS[n]] == Plan.Decimal(n);
    }
  }

  lemma {:induction false} DotsConcat(a: string, b: string)
    ensures Dots(a + b) == Dots(a) + Dots(b)
  {
    if b == "" {
      assert a + b == a;
    } else {
      var n := |b| - 1;
      DotsConcat(a, b[..n]);
      assert (a + b)[..|a + b| - 1] == a + b[..n];
    }
  }

  lemma TaskIdHasNoDot(n: nat)
    ensures Dots(Plan.TaskId(n)) == 0
  {
    DecimalHasNoDot(n);
    var prefix := "T" + (if n < 10 then "0" else "");
    DotsAppend("", 'T');
    DotsAppend("T", '0');
    assert "" + ['T'] == "T" && "T" + ['0'] == "T0" && "T" + "" == "T";
    DotsConcat(prefix, Plan.Decimal(n));
    assert Plan.TaskId(n) == prefix + Plan.Decimal(n);
  }

  lemma {:induction false} CheckedDepths(rules: Plan.Rules, tasks: seq<Plan.Task>)
    requires Plan.FirstTaskError(rules, tasks).None?
    ensures forall t :: t in tasks ==> t.depth <= rules.maximumDepth
  {
    if tasks != [] {
      var n := |tasks| - 1;
      CheckedDepths(rules, tasks[..n]);
      assert tasks == tasks[..n] + [tasks[n]];
    }
  }

  /** The tasks of a compiled plan meet what a run of the rounds starts from, and share no id exactly when
      the tasks the compiler keeps share none. */
  lemma CompiledPlanStartsRun(rules: Plan.Rules, tasks: seq<Plan.Task>, planSize: nat)
    requires Plan.Compiled(rules, tasks, planSize).Ok?
    ensures var plan := Plan.Compiled(rules, tasks, planSize).value;
            && (Plan.DistinctIds(plan) <==> Plan.DistinctIds(Plan.Unique(rules, tasks)))
            && forall i :: 0 <= i < |plan| ==> Dots(plan[i].id) == 0 && plan[i].depth <= rules.maximumDepth
  {
    hide Plan.FirstTaskError, Plan.Unique, Plan.FirstDependencyError, Plan.NameMap, Plan.GraphOf, Plan.TaskId,
         Plan.PlanLe, Plan.DistinctIds, Sort, Dots;
    Plan.PlanIdsDistinct(rules, tasks, planSize);
    OrderedDepths(rules, tasks);
    var ordered := Sort(Plan.PlanLe, Plan.Unique(rules, tasks));
    var plan := Plan.Compiled(rules, tasks, planSize).value;
    Plan.AllNameable(ordered);
    assert plan == Plan.CompileAll(Plan.NameMap(ordered), ordered);
    forall i | 0 <= i < |plan|
      ensures Dots(plan[i].id) == 0 && plan[i].depth <= rules.maximumDepth
    {
      assert ordered[i] in ordered;
      Plan.NameMapKeys(ordered);
      NewNameHasNoDot(ordered, ordered[i].id);
      assert plan[i] == Plan.CompileTask(Plan.NameMap(ordered), ordered[i]);
      assert plan[i].depth == ordered[i].depth;
      assert plan[i].id == Plan.NameMap(ordered)[ordered[i].id];
    }
  }

  /** Every new name is some task id. */
  lemma {:induction false} NewNameHasNoDot(ordered: seq<Plan.Task>, id: string)
    requires id in Plan.NameMap(ordered)
    ensures Dots(Plan.NameMap(ordered)[id]) == 0
  {
    hide Plan.TaskId, Dots;
    var n := |ordered| - 1;
    TaskIdHasNoDot(n + 1);
    if ordered[n].id != id { NewNameHasNoDot(ordered[..n], id); }
  }

  lemma OrderedDepths(rules: Plan.Rules, tasks: seq<Plan.Task>)
    requires Plan.FirstTaskError(rules, tasks).None?
    ensures var ordered := Sort(Plan.PlanLe, Plan.Unique(rules, tasks));
            forall t :: t in ordered ==> t.depth <= rules.maximumDepth
  {
    hide Plan.FirstTaskError, Plan.Unique, Plan.PlanLe, Plan.Keys, Plan.DistinctIds, Sort;
    var kept := Plan.Unique(rules, tasks);
    CheckedDepths(rules, tasks);
    Plan.UniqueShape(rules, tasks);
    SameMembers(kept, Sort(Plan.PlanLe, kept));
  }
}
