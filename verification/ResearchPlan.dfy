/** The research-plan compiler: per-task checks, duplicate removal, ordering, renumbering,
    dependency rewriting and cycle rejection. */
module ResearchPlan {
  import opened Prelude
  import opened Sorting
  import opened DependencyGraph

  datatype Task = Task(
    id: string, depth: nat, kind: string, question: string, queries: seq<string>, dependencies: seq<string>,
    priority: nat)

  /** The limits of the settings, and the text classifications the compiler uses: whether a text is
      blank or unsafe, and the folded form of a query. */
  datatype Rules = Rules(
    maximumPlanCharacters: nat, maximumInitialTasks: nat, maximumDepth: nat, maximumQueries: nat,
    maximumQueryCharacters: nat, blank: string -> bool, unsafe: string -> bool, fold: string -> string)

  datatype PlanError =
    | PlanTooLarge
    | TooManyTasks
    | InvalidDepthOrQuestion
    | UnsafeContent
    | InvalidQuery(repairable: bool)
    | UnknownDependency
    | SelfDependency
    | DependencyCycle

  // ---- Checks of one task ----------------------------------------------------------------------

  predicate AnyUnsafe(rules: Rules, queries: seq<string>) {
    exists q :: q in queries && rules.unsafe(q)
  }

  predicate BadQueries(rules: Rules, queries: seq<string>) {
    || queries == []
    || |queries| > rules.maximumQueries
    || exists q :: q in queries && (|q| > rules.maximumQueryCharacters || rules.unsafe(q))
  }

  function TaskError(rules: Rules, task: Task): Option<PlanError> {
    if task.depth > rules.maximumDepth || rules.blank(task.question) then Some(InvalidDepthOrQuestion)
    else if rules.unsafe(task.question) then Some(UnsafeContent)
    else if BadQueries(rules, task.queries) then Some(InvalidQuery(!AnyUnsafe(rules, task.queries)))
    else None
  }

  function FirstTaskError(rules: Rules, tasks: seq<Task>): Option<PlanError> {
    if tasks == [] then None
    else
      var earlier := FirstTaskError(rules, tasks[..|tasks| - 1]);
      if earlier.Some? then earlier else TaskError(rules, tasks[|tasks| - 1])
  }

  // ---- Duplicate removal and ordering ----------------------------------------------------------

  datatype Key = Key(kind: string, queries: seq<string>)

  function KeyOf(rules: Rules, task: Task): Key {
    Key(task.kind, seq(|task.queries|, i requires 0 <= i < |task.queries| => rules.fold(task.queries[i])))
  }

  function Keys(rules: Rules, tasks: seq<Task>): set<Key> {
    set task | task in tasks :: KeyOf(rules, task)
  }

  /** The first task of every key, in order of appearance. */
  function Unique(rules: Rules, tasks: seq<Task>): seq<Task> {
    if tasks == [] then []
    else
      var earlier := Unique(rules, tasks[..|tasks| - 1]);
      var task := tasks[|tasks| - 1];
      if KeyOf(rules, task) in Keys(rules, earlier) then earlier else earlier + [task]
  }

  /** The sort key (-priority, task type, question). */
  predicate PlanLe(a: Task, b: Task) {
    || a.priority > b.priority
    || (a.priority == b.priority &&
        (if a.kind == b.kind then StringLe(a.question, b.question) else StringLe(a.kind, b.kind)))
  }

  // ---- Renumbering -----------------------------------------------------------------------------

  function Decimal(n: nat): string {
    if n < 10 then [DIGITS[n]] else Decimal(n / 10) + [DIGITS[n % 10]]
  }

  const DIGITS := "0123456789"

  /** `f"T{index:02d}"`. */
  function TaskId(n: nat): string {
    "T" + (if n < 10 then "0" else "") + Decimal(n)
  }

  function NameMap(ordered: seq<Task>): map<string, string> {
    if ordered == [] then map[]
    else
      var n := |ordered|;
      NameMap(ordered[..n - 1])[ordered[n - 1].id := TaskId(n)]
  }

  function RenameAll(names: map<string, string>, ids: seq<string>): (r: seq<string>)
    requires forall d :: d in ids ==> d in names
    ensures |r| == |ids|
  {
    seq(|ids|, i requires 0 <= i < |ids| => assert ids[i] in ids; names[ids[i]])
  }

  function DependencyError(names: map<string, string>, item: Task): Option<PlanError> {
    if exists d :: d in item.dependencies && d !in names then Some(UnknownDependency)
    else if item.id in item.dependencies then Some(SelfDependency)
    else None
  }

  function FirstDependencyError(names: map<string, string>, items: seq<Task>): Option<PlanError> {
    if items == [] then None
    else
      var earlier := FirstDependencyError(names, items[..|items| - 1]);
      if earlier.Some? then earlier else DependencyError(names, items[|items| - 1])
  }

  predicate Nameable(names: map<string, string>, item: Task) {
    item.id in names && forall d :: d in item.dependencies ==> d in names
  }

  function CompileTask(names: map<string, string>, item: Task): Task
    requires Nameable(names, item)
  {
    item.(id := names[item.id], dependencies := Sort(StringLe, RenameAll(names, item.dependencies)))
  }

  function CompileAll(names: map<string, string>, items: seq<Task>): (r: seq<Task>)
    requires forall item :: item in items ==> Nameable(names, item)
    ensures |r| == |items| && forall i :: 0 <= i < |items| ==> r[i] == CompileTask(names, items[i])
  {
    seq(|items|, i requires 0 <= i < |items| => assert items[i] in items; CompileTask(names, items[i]))
  }

  /** The dictionary from task id to dependencies; a later task with the same id replaces an earlier one. */
  function GraphOf(tasks: seq<Task>): Graph {
    if tasks == [] then map[]
    else
      var n := |tasks|;
      GraphOf(tasks[..n - 1])[tasks[n - 1].id := tasks[n - 1].dependencies]
  }

  lemma {:induction false} NameMapKeys(ordered: seq<Task>)
    ensures forall v :: v in NameMap(ordered) <==> exists t :: t in ordered && t.id == v
  {
    if ordered != [] {
      var n := |ordered|;
      NameMapKeys(ordered[..n - 1]);
      assert ordered == ordered[..n - 1] + [ordered[n - 1]];
    }
  }

  lemma {:induction false} NoDependencyError(names: map<string, string>, items: seq<Task>)
    ensures FirstDependencyError(names, items).None? <==>
            forall item :: item in items ==> DependencyError(names, item).None?
  {
    hide DependencyError;
    if items != [] {
      var n := |items|;
      NoDependencyError(names, items[..n - 1]);
      assert items == items[..n - 1] + [items[n - 1]];
    }
  }

  lemma AllNameable(ordered: seq<Task>)
    requires FirstDependencyError(NameMap(ordered), ordered).None?
    ensures forall item :: item in ordered ==> Nameable(NameMap(ordered), item)
  {
    hide NameMap;
    NameMapKeys(ordered);
    NoDependencyError(NameMap(ordered), ordered);
    forall item | item in ordered
      ensures Nameable(NameMap(ordered), item)
    {
      assert DependencyError(NameMap(ordered), item).None?;
    }
  }

  /** `compile_plan`, with cycle detection replaced by its meaning. */
  ghost function Compiled(rules: Rules, tasks: seq<Task>, planSize: nat): Result<seq<Task>, PlanError> {
    if planSize > rules.maximumPlanCharacters then Err(PlanTooLarge)
    else if |tasks| > rules.maximumInitialTasks then Err(TooManyTasks)
    else if FirstTaskError(rules, tasks).Some? then Err(FirstTaskError(rules, tasks).value)
    else
      var ordered := Sort(PlanLe, Unique(rules, tasks));
      var names := NameMap(ordered);
      if FirstDependencyError(names, ordered).Some? then Err(FirstDependencyError(names, ordered).value)
      else
        AllNameable(ordered);
        var compiled := CompileAll(names, ordered);
        if Cyclic(GraphOf(compiled)) then Err(DependencyCycle) else Ok(compiled)
  }

  lemma {:induction false} GraphKeys(tasks: seq<Task>)
    ensures forall v :: v in GraphOf(tasks) <==> exists t :: t in tasks && t.id == v
    ensures forall v :: v in GraphOf(tasks) ==>
                          exists t :: t in tasks && t.id == v && t.dependencies == GraphOf(tasks)[v]
  {
    if tasks != [] {
      var n := |tasks|;
      GraphKeys(tasks[..n - 1]);
      assert tasks == tasks[..n - 1] + [tasks[n - 1]];
    }
  }

  /** A rewritten dependency is the new name of a source dependency, and conversely. */
  lemma RewrittenDependencies(names: map<string, string>, item: Task)
    requires Nameable(names, item)
    ensures forall d :: d in item.dependencies ==> names[d] in CompileTask(names, item).dependencies
    ensures forall w :: w in CompileTask(names, item).dependencies ==>
                          exists d :: d in item.dependencies && names[d] == w
    ensures Sorted(StringLe, CompileTask(names, item).dependencies)
    ensures |CompileTask(names, item).dependencies| == |item.dependencies|
  {
    StringOrder();
    SortSorted(StringLe, RenameAll(names, item.dependencies));
    hide StringLe;
    var renamed := RenameAll(names, item.dependencies);
    var sorted := Sort(StringLe, renamed);
    forall d | d in item.dependencies
      ensures names[d] in sorted
    {
      var j :| 0 <= j < |item.dependencies| && item.dependencies[j] == d;
      assert renamed[j] in multiset(renamed);
    }
    forall w | w in sorted
      ensures exists d :: d in item.dependencies && names[d] == w
    {
      assert w in multiset(sorted) && w in renamed;
      var j :| 0 <= j < |renamed| && renamed[j] == w;
      assert item.dependencies[j] in item.dependencies;
    }
  }

  lemma {:induction false} NameComesFrom(ordered: seq<Task>, v: string)
    requires v in NameMap(ordered)
    ensures exists i :: 0 <= i < |ordered| && ordered[i].id == v && NameMap(ordered)[v] == TaskId(i + 1)
  {
    var n := |ordered|;
    if ordered[n - 1].id != v {
      NameComesFrom(ordered[..n - 1], v);
      var i :| 0 <= i < n - 1 && ordered[..n - 1][i].id == v && NameMap(ordered[..n - 1])[v] == TaskId(i + 1);
      assert ordered[i].id == v;
    }
  }

  /** After renumbering, every dependency is the id of a task of the plan. */
  lemma CompiledClosed(items: seq<Task>)
    requires forall item :: item in items ==> Nameable(NameMap(items), item)
    ensures Closed(GraphOf(CompileAll(NameMap(items), items)))
  {
    var compiled := CompileAll(NameMap(items), items);
    hide NameMap, TaskId, CompileAll, CompileTask;
    forall i, w | 0 <= i < |compiled| && w in compiled[i].dependencies
      ensures exists t :: t in compiled && t.id == w
    {
      DependencyIsCompiled(items, i, w);
    }
    DependenciesInside(compiled);
  }

  lemma DependenciesInside(tasks: seq<Task>)
    requires forall i, w :: 0 <= i < |tasks| && w in tasks[i].dependencies ==> exists t :: t in tasks && t.id == w
    ensures Closed(GraphOf(tasks))
  {
    GraphKeys(tasks);
    hide GraphOf;
    forall v, w | v in GraphOf(tasks) && w in GraphOf(tasks)[v]
      ensures w in GraphOf(tasks)
    {
      var t :| t in tasks && t.id == v && t.dependencies == GraphOf(tasks)[v];
      var i :| 0 <= i < |tasks| && tasks[i] == t;
    }
  }

  lemma DependencyIsCompiled(items: seq<Task>, i: nat, w: string)
    requires forall item :: item in items ==> Nameable(NameMap(items), item)
    requires i < |items| && w in CompileAll(NameMap(items), items)[i].dependencies
    ensures exists t :: t in CompileAll(NameMap(items), items) && t.id == w
  {
    var names := NameMap(items);
    assert items[i] in items;
    RewrittenDependencies(names, items[i]);
    assert w in CompileTask(names, items[i]).dependencies;
    hide NameMap, CompileTask;
    var d :| d in items[i].dependencies && names[d] == w;
    NewNameIsAnId(items, d);
  }

  lemma NewNameIsAnId(items: seq<Task>, d: string)
    requires forall item :: item in items ==> Nameable(NameMap(items), item)
    requires d in NameMap(items)
    ensures exists t :: t in CompileAll(NameMap(items), items) && t.id == NameMap(items)[d]
  {
    hide NameMap, TaskId;
    NameComesFrom(items, d);
    var k :| 0 <= k < |items| && items[k].id == d;
    assert items[k] in items;
    assert CompileAll(NameMap(items), items)[k] in CompileAll(NameMap(items), items);
  }

  /** The first loop of `compile_plan`. */
  method CheckAndDedupe(rules: Rules, tasks: seq<Task>) returns (result: Result<seq<Task>, PlanError>)
    ensures result == if FirstTaskError(rules, tasks).Some? then Err(FirstTaskError(rules, tasks).value)
                      else Ok(Unique(rules, tasks))
  {
    hide TaskError, KeyOf, Keys;
    var unique: seq<Task> := [];
    for i := 0 to |tasks|
      invariant FirstTaskError(rules, tasks[..i]).None? && unique == Unique(rules, tasks[..i])
    {
      assert tasks[..i + 1][..i] == tasks[..i];
      var error := TaskError(rules, tasks[i]);
      if error.Some? {
        ErrorStays(rules, tasks, i + 1);
        return Err(error.value);
      }
      if KeyOf(rules, tasks[i]) !in Keys(rules, unique) {
        unique := unique + [tasks[i]];
      }
    }
    assert tasks[..|tasks|] == tasks;
    return Ok(unique);
  }

  /** The second loop of `compile_plan`. */
  method Renumber(ordered: seq<Task>) returns (result: Result<seq<Task>, PlanError>)
    ensures var names := NameMap(ordered); var error := FirstDependencyError(names, ordered);
            if error.Some? then result == Err(error.value)
            else (forall item :: item in ordered ==> Nameable(names, item)) && result == Ok(CompileAll(names, ordered))
  {
    hide NameMap, CompileTask, Nameable, DependencyError, RenameAll;
    var names := NameMap(ordered);
    var compiled: seq<Task> := [];
    for i := 0 to |ordered|
      invariant FirstDependencyError(names, ordered[..i]).None?
      invariant forall k :: 0 <= k < i ==> Nameable(names, ordered[k])
      invariant |compiled| == i && forall k :: 0 <= k < i ==> compiled[k] == CompileTask(names, ordered[k])
    {
      var item := ordered[i];
      assert ordered[..i + 1][..i] == ordered[..i];
      var error := DependencyError(names, item);
      if error.Some? {
        DependencyErrorStays(names, ordered, i + 1);
        return Err(error.value);
      }
      CheckedNameable(ordered, item);
      compiled := compiled + [CompileTask(names, item)];
    }
    assert ordered[..|ordered|] == ordered;
    assert compiled == CompileAll(names, ordered);
    return Ok(compiled);
  }

  lemma CheckedNameable(ordered: seq<Task>, item: Task)
    requires item in ordered && DependencyError(NameMap(ordered), item).None?
    ensures Nameable(NameMap(ordered), item)
  {
    hide NameMap;
    NameMapKeys(ordered);
  }

  /** `compile_plan`; `planSize` is the length of the plan's JSON text. */
  method CompilePlan(rules: Rules, tasks: seq<Task>, planSize: nat) returns (result: Result<seq<Task>, PlanError>)
    ensures result == Compiled(rules, tasks, planSize)
  {
    hide FirstTaskError, Unique, NameMap, FirstDependencyError, CompileTask, GraphOf, Nameable;
    if planSize > rules.maximumPlanCharacters { return Err(PlanTooLarge); }
    if |tasks| > rules.maximumInitialTasks { return Err(TooManyTasks); }
    var checked := CheckAndDedupe(rules, tasks);
    if checked.Err? { return Err(checked.error); }
    var ordered := Sort(PlanLe, checked.value);
    var renumbered := Renumber(ordered);
    if renumbered.Err? { return Err(renumbered.error); }
    var compiled := renumbered.value;
    CompiledClosed(ordered);
    GraphKeys(compiled);
    var order := seq(|compiled|, i requires 0 <= i < |compiled| => compiled[i].id);
    assert forall i :: 0 <= i < |compiled| ==> order[i] == compiled[i].id && compiled[i] in compiled;
    var raised := RejectCycles(GraphOf(compiled), order);
    if raised { return Err(DependencyCycle); }
    return Ok(compiled);
  }

  lemma {:induction false} ErrorStays(rules: Rules, tasks: seq<Task>, i: nat)
    requires i <= |tasks| && FirstTaskError(rules, tasks[..i]).Some?
    ensures FirstTaskError(rules, tasks) == FirstTaskError(rules, tasks[..i])
    decreases |tasks| - i
  {
    if i == |tasks| {
      assert tasks[..i] == tasks;
    } else {
      assert tasks[..i + 1][..i] == tasks[..i];
      ErrorStays(rules, tasks, i + 1);
    }
  }

  lemma {:induction false} DependencyErrorStays(names: map<string, string>, items: seq<Task>, i: nat)
    requires i <= |items| && FirstDependencyError(names, items[..i]).Some?
    ensures FirstDependencyError(names, items) == FirstDependencyError(names, items[..i])
    decreases |items| - i
  {
    if i == |items| {
      assert items[..i] == items;
    } else {
      assert items[..i + 1][..i] == items[..i];
      DependencyErrorStays(names, items, i + 1);
    }
  }

  // ---- What a compiled plan is -----------------------------------------------------------------

  function DigitValue(c: char): nat {
    if '0' <= c <= '9' then (c - '0') as nat else 0
  }

  function NumberOf(digits: string): nat {
    if digits == "" then 0 else NumberOf(digits[..|digits| - 1]) * 10 + DigitValue(digits[|digits| - 1])
  }

  lemma {:induction false} DecimalRoundTrip(n: nat)
    ensures Decimal(n) != "" && NumberOf(Decimal(n)) == n
  {
    if n >= 10 {
      DecimalRoundTrip(n / 10);
      assert Decimal(n)[..|Decimal(n)| - 1] == Decimal(n / 10);
    } else {
      assert Decimal(n)[..0] == "";
    }
  }

  lemma {:induction false} LeadingZero(digits: string)
    ensures NumberOf("0" + digits) == NumberOf(digits)
  {
    var padded := "0" + digits;
    if digits == "" {
      assert padded[..0] == "";
    } else {
      LeadingZero(digits[..|digits| - 1]);
      assert padded[..|padded| - 1] == "0" + digits[..|digits| - 1];
    }
  }

  lemma TaskIdInjective(m: nat, n: nat)
    requires TaskId(m) == TaskId(n)
    ensures m == n
  {
    TaskIdNumber(m);
    TaskIdNumber(n);
  }

  lemma TaskIdNumber(n: nat)
    ensures TaskId(n) != "" && NumberOf(TaskId(n)[1..]) == n
  {
    DecimalRoundTrip(n);
    LeadingZero(Decimal(n));
    hide Decimal, NumberOf;
    var digits := (if n < 10 then "0" else "") + Decimal(n);
    assert TaskId(n)[1..] == digits;
    assert "" + Decimal(n) == Decimal(n);
  }

  ghost predicate AllDigits(digits: string) {
    forall i :: 0 <= i < |digits| ==> '0' <= digits[i] <= '9'
  }

  lemma {:induction false} DecimalMeans(n: nat)
    ensures AllDigits(Decimal(n)) && Decimal(n) != ""
    ensures n < 10 ==> |Decimal(n)| == 1
    ensures n >= 10 ==> |Decimal(n)| >= 2 && Decimal(n)[0] != '0'
  {
    if n >= 10 { DecimalMeans(n / 10); }
  }

  /** The letter T and the decimal number, with a leading zero only to make it two digits. */
  lemma TaskIdMeans(n: nat)
    ensures var id := TaskId(n);
            && |id| >= 3 && id[0] == 'T' && AllDigits(id[1..]) && NumberOf(id[1..]) == n
            && (id[1] == '0' ==> |id| == 3)
  {
    TaskIdNumber(n);
    DecimalMeans(n);
    hide Decimal, NumberOf;
    var padding := if n < 10 then "0" else "";
    assert TaskId(n) == "T" + padding + Decimal(n);
    assert TaskId(n)[1..] == padding + Decimal(n);
  }

  ghost predicate DistinctIds(tasks: seq<Task>) {
    forall i, j :: 0 <= i < j < |tasks| ==> tasks[i].id != tasks[j].id
  }

  /** A task is kept exactly when no earlier task has its key, and kept tasks stay in order. */
  lemma UniqueKeepsFirst(rules: Rules, tasks: seq<Task>, i: nat)
    requires i < |tasks|
    ensures Unique(rules, tasks[..i + 1]) ==
            Unique(rules, tasks[..i])
            + if forall j :: 0 <= j < i ==> KeyOf(rules, tasks[j]) != KeyOf(rules, tasks[i]) then [tasks[i]] else []
  {
    hide KeyOf, Keys;
    assert tasks[..i + 1][..i] == tasks[..i];
    UniqueShape(rules, tasks[..i]);
    KeySeen(rules, tasks, i, KeyOf(rules, tasks[i]));
    var earlier := Unique(rules, tasks[..i]);
    assert earlier + [] == earlier;
  }

  lemma KeySeen(rules: Rules, tasks: seq<Task>, n: nat, key: Key)
    requires n <= |tasks|
    ensures key in Keys(rules, tasks[..n]) <==> exists j :: 0 <= j < n && KeyOf(rules, tasks[j]) == key
  {
    hide KeyOf;
    if key in Keys(rules, tasks[..n]) {
      var t :| t in tasks[..n] && KeyOf(rules, t) == key;
      var j :| 0 <= j < n && tasks[..n][j] == t;
      assert tasks[j] == t;
    }
    if exists j :: 0 <= j < n && KeyOf(rules, tasks[j]) == key {
      var j :| 0 <= j < n && KeyOf(rules, tasks[j]) == key;
      assert tasks[..n][j] in tasks[..n];
    }
  }

  lemma KeysAppend(rules: Rules, tasks: seq<Task>, task: Task)
    ensures Keys(rules, tasks + [task]) == Keys(rules, tasks) + {KeyOf(rules, task)}
  {
    hide KeyOf;
    assert forall t :: t in tasks + [task] <==> t in tasks || t == task;
  }

  lemma {:induction false} UniqueMembers(rules: Rules, tasks: seq<Task>)
    ensures forall t :: t in Unique(rules, tasks) ==> t in tasks
    decreases |tasks|
  {
    hide KeyOf, Keys;
    if tasks != [] {
      UniqueMembers(rules, tasks[..|tasks| - 1]);
      assert tasks == tasks[..|tasks| - 1] + [tasks[|tasks| - 1]];
    }
  }

  lemma {:induction false} UniqueKeys(rules: Rules, tasks: seq<Task>)
    ensures Keys(rules, Unique(rules, tasks)) == Keys(rules, tasks)
    decreases |tasks|
  {
    if tasks != [] {
      hide KeyOf, Keys;
      var n := |tasks| - 1;
      UniqueKeys(rules, tasks[..n]);
      assert tasks == tasks[..n] + [tasks[n]];
      KeysAppend(rules, Unique(rules, tasks[..n]), tasks[n]);
      KeysAppend(rules, tasks[..n], tasks[n]);
    }
  }

  lemma {:induction false} UniqueIds(rules: Rules, tasks: seq<Task>)
    requires DistinctIds(tasks)
    ensures DistinctIds(Unique(rules, tasks))
    decreases |tasks|
  {
    hide KeyOf, Keys;
    if tasks != [] {
      var n := |tasks| - 1;
      UniqueIds(rules, tasks[..n]);
      UniqueMembers(rules, tasks[..n]);
      assert forall t :: t in tasks[..n] ==> t.id != tasks[n].id;
    }
  }

  lemma UniqueShape(rules: Rules, tasks: seq<Task>)
    ensures forall t :: t in Unique(rules, tasks) ==> t in tasks
    ensures Keys(rules, Unique(rules, tasks)) == Keys(rules, tasks)
    ensures DistinctIds(tasks) ==> DistinctIds(Unique(rules, tasks))
  {
    hide Unique, Keys, DistinctIds;
    UniqueMembers(rules, tasks);
    UniqueKeys(rules, tasks);
    if DistinctIds(tasks) { UniqueIds(rules, tasks); }
  }

  lemma {:induction false} GraphOfDistinct(tasks: seq<Task>)
    requires DistinctIds(tasks)
    ensures forall t :: t in tasks ==> t.id in GraphOf(tasks) && GraphOf(tasks)[t.id] == t.dependencies
  {
    if tasks != [] {
      var n := |tasks| - 1;
      GraphOfDistinct(tasks[..n]);
      assert tasks == tasks[..n] + [tasks[n]];
      assert forall t :: t in tasks[..n] ==> t.id != tasks[n].id;
    }
  }

  lemma {:induction false} NameMapDistinct(ordered: seq<Task>, i: nat)
    requires DistinctIds(ordered) && i < |ordered|
    ensures ordered[i].id in NameMap(ordered) && NameMap(ordered)[ordered[i].id] == TaskId(i + 1)
  {
    var n := |ordered| - 1;
    if i < n {
      NameMapDistinct(ordered[..n], i);
      assert ordered[i].id != ordered[n].id;
    }
  }

  ghost function Renaming(names: map<string, string>): string -> string {
    v => if v in names then names[v] else ""
  }

  /** Reordering tasks with distinct ids keeps them distinct and keeps their graph. */
  lemma SortedGraph(kept: seq<Task>)
    requires DistinctIds(kept)
    ensures DistinctIds(Sort(PlanLe, kept)) && GraphOf(Sort(PlanLe, kept)) == GraphOf(kept)
    ensures forall t :: t in kept <==> t in Sort(PlanLe, kept)
  {
    hide PlanLe, GraphOf;
    var ordered := Sort(PlanLe, kept);
    SameMembers(kept, ordered);
    DistinctByPermutation((t: Task) => t.id, kept, ordered);
    SameGraph(kept, ordered);
  }

  lemma SameGraph(a: seq<Task>, b: seq<Task>)
    requires DistinctIds(a) && DistinctIds(b) && forall t :: t in a <==> t in b
    ensures GraphOf(a) == GraphOf(b)
  {
    hide GraphOf;
    GraphOfDistinct(a);
    GraphOfDistinct(b);
    GraphKeys(a);
    GraphKeys(b);
    forall v
      ensures v in GraphOf(a) <==> v in GraphOf(b)
      ensures v in GraphOf(a) ==> GraphOf(a)[v] == GraphOf(b)[v]
    {
      if v in GraphOf(a) {
        var t :| t in a && t.id == v;
        assert t in b;
      }
      if v in GraphOf(b) {
        var t :| t in b && t.id == v;
        assert t in a;
      }
    }
  }

  lemma RenumberedIds(ordered: seq<Task>)
    requires DistinctIds(ordered) && forall item :: item in ordered ==> Nameable(NameMap(ordered), item)
    ensures var compiled := CompileAll(NameMap(ordered), ordered);
            DistinctIds(compiled) && forall i :: 0 <= i < |compiled| ==> compiled[i].id == TaskId(i + 1)
  {
    var names := NameMap(ordered);
    var compiled := CompileAll(names, ordered);
    hide NameMap, TaskId, DistinctIds;
    forall i | 0 <= i < |ordered|
      ensures compiled[i].id == TaskId(i + 1)
    {
      NameMapDistinct(ordered, i);
      assert ordered[i] in ordered;
    }
    NumberedIdsDistinct(compiled);
  }

  lemma NumberedIdsDistinct(tasks: seq<Task>)
    requires forall i :: 0 <= i < |tasks| ==> tasks[i].id == TaskId(i + 1)
    ensures DistinctIds(tasks)
  {
    hide TaskId;
    forall i, j | 0 <= i < j < |tasks|
      ensures tasks[i].id != tasks[j].id
    {
      if TaskId(i + 1) == TaskId(j + 1) { TaskIdInjective(i + 1, j + 1); }
    }
  }

  /** The graph of a renumbered plan is the kept tasks' graph under one injective renaming. */
  lemma RenumberedGraph(ordered: seq<Task>)
    requires DistinctIds(ordered) && forall item :: item in ordered ==> Nameable(NameMap(ordered), item)
    ensures var names, g := NameMap(ordered), GraphOf(ordered); var compiled := CompileAll(names, ordered);
            && Closed(g) && InjectiveOn(g.Keys, Renaming(names))
            && Renamed(g, GraphOf(compiled), Renaming(names)) && DistinctIds(compiled)
            && forall i :: 0 <= i < |compiled| ==> compiled[i].id == TaskId(i + 1)
  {
    hide NameMap, GraphOf, TaskId, Renaming, Renamed, InjectiveOn, DistinctIds, CompileTask;
    RenumberedIds(ordered);
    NamesInjective(ordered);
    RenumberedEdges(ordered);
    KeptClosed(ordered);
  }

  lemma KeptClosed(ordered: seq<Task>)
    requires forall item :: item in ordered ==> Nameable(NameMap(ordered), item)
    ensures Closed(GraphOf(ordered))
  {
    hide NameMap, GraphOf;
    GraphKeys(ordered);
    NameMapKeys(ordered);
    forall v | v in GraphOf(ordered)
      ensures forall d :: d in GraphOf(ordered)[v] ==> d in GraphOf(ordered)
    {
      var t :| t in ordered && t.id == v && t.dependencies == GraphOf(ordered)[v];
      assert Nameable(NameMap(ordered), t);
    }
  }

  lemma NamesInjective(ordered: seq<Task>)
    requires DistinctIds(ordered)
    ensures InjectiveOn(GraphOf(ordered).Keys, Renaming(NameMap(ordered)))
  {
    var names := NameMap(ordered);
    hide NameMap, GraphOf, TaskId;
    GraphKeys(ordered);
    forall v, w | v in GraphOf(ordered) && w in GraphOf(ordered) && Renaming(names)(v) == Renaming(names)(w)
      ensures v == w
    {
      var i :| 0 <= i < |ordered| && ordered[i].id == v;
      var j :| 0 <= j < |ordered| && ordered[j].id == w;
      NameMapDistinct(ordered, i);
      NameMapDistinct(ordered, j);
      TaskIdInjective(i + 1, j + 1);
    }
  }

  lemma RenumberedNodes(ordered: seq<Task>, w: string)
    requires DistinctIds(ordered) && forall item :: item in ordered ==> Nameable(NameMap(ordered), item)
    ensures var g, h := GraphOf(ordered), GraphOf(CompileAll(NameMap(ordered), ordered));
            w in h <==> NewName(g, Renaming(NameMap(ordered)), w)
  {
    var compiled := CompileAll(NameMap(ordered), ordered);
    var name := Renaming(NameMap(ordered));
    forall i | 0 <= i < |ordered|
      ensures name(ordered[i].id) == compiled[i].id
    {
      NewIdOf(ordered, i);
    }
    SameNames(ordered, compiled, name, w);
  }

  /** The nodes of a graph of renamed tasks are the new names of the nodes. */
  lemma SameNames(tasks: seq<Task>, renamed: seq<Task>, name: string -> string, w: string)
    requires |renamed| == |tasks| && forall i :: 0 <= i < |tasks| ==> name(tasks[i].id) == renamed[i].id
    ensures w in GraphOf(renamed) <==> NewName(GraphOf(tasks), name, w)
  {
    GraphKeys(tasks);
    GraphKeys(renamed);
    hide GraphOf;
    if w in GraphOf(renamed) {
      var t :| t in renamed && t.id == w;
      var i :| 0 <= i < |renamed| && renamed[i] == t;
      assert tasks[i] in tasks && name(tasks[i].id) == w;
    }
    if NewName(GraphOf(tasks), name, w) {
      var v :| v in GraphOf(tasks) && name(v) == w;
      var t :| t in tasks && t.id == v;
      var i :| 0 <= i < |tasks| && tasks[i] == t;
      assert renamed[i] in renamed;
    }
  }

  lemma NewIdOf(ordered: seq<Task>, i: nat)
    requires i < |ordered| && forall item :: item in ordered ==> Nameable(NameMap(ordered), item)
    ensures ordered[i] in ordered
    ensures Renaming(NameMap(ordered))(ordered[i].id) == CompileAll(NameMap(ordered), ordered)[i].id
  {
    hide NameMap;
    assert ordered[i] in ordered;
  }

  lemma RenumberedEdge(ordered: seq<Task>, i: nat, d: string)
    requires DistinctIds(ordered) && forall item :: item in ordered ==> Nameable(NameMap(ordered), item)
    requires i < |ordered| && d in GraphOf(ordered)
    ensures var names := NameMap(ordered);
            d in names && ordered[i] in ordered &&
            (d in ordered[i].dependencies <==> names[d] in CompileTask(names, ordered[i]).dependencies)
  {
    var names := NameMap(ordered);
    hide NameMap, GraphOf, TaskId, CompileTask;
    NameMapKeys(ordered);
    GraphKeys(ordered);
    NamesInjective(ordered);
    assert ordered[i] in ordered;
    RewrittenDependencies(names, ordered[i]);
    if names[d] in CompileTask(names, ordered[i]).dependencies {
      var e :| e in ordered[i].dependencies && names[e] == names[d];
      assert e in GraphOf(ordered) && Renaming(names)(e) == Renaming(names)(d);
    }
  }

  lemma RenumberedEdges(ordered: seq<Task>)
    requires DistinctIds(ordered) && forall item :: item in ordered ==> Nameable(NameMap(ordered), item)
    requires DistinctIds(CompileAll(NameMap(ordered), ordered))
    ensures Renamed(GraphOf(ordered), GraphOf(CompileAll(NameMap(ordered), ordered)), Renaming(NameMap(ordered)))
  {
    var names, g := NameMap(ordered), GraphOf(ordered);
    var compiled := CompileAll(names, ordered);
    var h := GraphOf(compiled);
    hide NameMap, GraphOf, TaskId, DistinctIds, CompileTask, Edge, Renaming, NewName;
    forall w
      ensures w in h <==> NewName(g, Renaming(names), w)
    {
      RenumberedNodes(ordered, w);
    }
    forall v, d | v in g && d in g
      ensures Edge(g, v, d) <==> Edge(h, Renaming(names)(v), Renaming(names)(d))
    {
      RenumberedEdgeOf(ordered, v, d);
    }
  }

  lemma RenumberedEdgeOf(ordered: seq<Task>, v: string, d: string)
    requires DistinctIds(ordered) && forall item :: item in ordered ==> Nameable(NameMap(ordered), item)
    requires DistinctIds(CompileAll(NameMap(ordered), ordered))
    requires v in GraphOf(ordered) && d in GraphOf(ordered)
    ensures var name := Renaming(NameMap(ordered));
            Edge(GraphOf(ordered), v, d) <==> Edge(GraphOf(CompileAll(NameMap(ordered), ordered)), name(v), name(d))
  {
    var names := NameMap(ordered);
    var compiled := CompileAll(names, ordered);
    hide NameMap, GraphOf, TaskId;
    GraphKeys(ordered);
    GraphOfDistinct(ordered);
    GraphOfDistinct(compiled);
    var t :| t in ordered && t.id == v;
    var i :| 0 <= i < |ordered| && ordered[i] == t;
    assert compiled[i] in compiled;
    RenumberedEdge(ordered, i, d);
  }

  /** When the kept tasks have distinct ids: a plan is refused for a cycle exactly when its earlier checks pass and
      the kept tasks' own graph has one; an accepted plan is the kept tasks, ordered and renamed
      T01, T02, ..., with every other field unchanged, closed under dependencies, acyclic, and with
      exactly the kept tasks' edges under one injective renaming. */
  lemma CompiledPlan(rules: Rules, tasks: seq<Task>, planSize: nat)
    requires DistinctIds(Unique(rules, tasks))
    ensures var kept := Unique(rules, tasks); var ordered := Sort(PlanLe, kept); var names := NameMap(ordered);
            var g := GraphOf(kept);
            match Compiled(rules, tasks, planSize)
            case Err(e) => e == DependencyCycle ==> Closed(g) && Cyclic(g)
            case Ok(plan) =>
              && Closed(g) && !Cyclic(g)
              && Closed(GraphOf(plan)) && !Cyclic(GraphOf(plan))
              && InjectiveOn(g.Keys, Renaming(names)) && Renamed(g, GraphOf(plan), Renaming(names))
              && |plan| == |ordered| && multiset(ordered) == multiset(kept) && Sorted(PlanLe, ordered)
              && forall i :: 0 <= i < |plan| ==>
                               plan[i] == ordered[i].(id := TaskId(i + 1), dependencies := plan[i].dependencies)
  {
    hide FirstTaskError, Unique, NameMap, FirstDependencyError, GraphOf, Nameable, PlanLe, TaskId;
    var kept := Unique(rules, tasks);
    SortedGraph(kept);
    PlanOrder();
    SortSorted(PlanLe, kept);
    var ordered := Sort(PlanLe, kept);
    if FirstDependencyError(NameMap(ordered), ordered).None? {
      AllNameable(ordered);
      CompiledClosed(ordered);
      RenumberedGraph(ordered);
      RenamingKeepsCycles(GraphOf(ordered), GraphOf(CompileAll(NameMap(ordered), ordered)), Renaming(NameMap(ordered)));
    }
    OtherErrors(rules, tasks, NameMap(ordered), ordered);
  }

  lemma PlanOrder()
    ensures TotalPreorder(PlanLe)
  {
    StringOrder();
  }

  lemma {:induction false} OtherErrors(rules: Rules, tasks: seq<Task>, names: map<string, string>, items: seq<Task>)
    ensures FirstTaskError(rules, tasks) != Some(DependencyCycle)
    ensures FirstDependencyError(names, items) != Some(DependencyCycle)
    decreases |tasks| + |items|
  {
    if tasks != [] {
      OtherErrors(rules, tasks[..|tasks| - 1], names, items);
    }
    if items != [] {
      OtherErrors(rules, tasks, names, items[..|items| - 1]);
    }
  }

  // ---- The checks and the order of a plan ------------------------------------------------------

  /** At least one query, at most as many as allowed, each short enough and safe. */
  ghost predicate UsableQueries(rules: Rules, queries: seq<string>) {
    && 1 <= |queries| <= rules.maximumQueries
    && forall q :: q in queries ==> |q| <= rules.maximumQueryCharacters && !rules.unsafe(q)
  }

  ghost predicate Acceptable(rules: Rules, task: Task) {
    && task.depth <= rules.maximumDepth && !rules.blank(task.question) && !rules.unsafe(task.question)
    && UsableQueries(rules, task.queries)
  }

  /** The error of a task that is not acceptable: the first of its checks to fail, and for its queries whether
      all of them are safe. */
  ghost predicate FailsWith(rules: Rules, task: Task, e: PlanError) {
    var misplaced := task.depth > rules.maximumDepth || rules.blank(task.question);
    match e
    case InvalidDepthOrQuestion => misplaced
    case UnsafeContent => !misplaced && rules.unsafe(task.question)
    case InvalidQuery(repairable) =>
      && !misplaced && !rules.unsafe(task.question) && !UsableQueries(rules, task.queries)
      && (repairable <==> forall q :: q in task.queries ==> !rules.unsafe(q))
    case _ => false
  }

  ghost predicate FirstFailure(rules: Rules, tasks: seq<Task>, k: int, e: PlanError) {
    && 0 <= k < |tasks| && FailsWith(rules, tasks[k], e)
    && forall j :: 0 <= j < k ==> Acceptable(rules, tasks[j])
  }

  lemma TaskErrorMeans(rules: Rules, task: Task)
    ensures TaskError(rules, task).None? <==> Acceptable(rules, task)
    ensures forall e :: TaskError(rules, task) == Some(e) <==> FailsWith(rules, task, e)
  {
  }

  /** The checks pass exactly when every task is acceptable, and otherwise tell the error of the first that
      is not. */
  lemma {:induction false} TaskChecksMean(rules: Rules, tasks: seq<Task>)
    ensures FirstTaskError(rules, tasks).None? <==> forall k :: 0 <= k < |tasks| ==> Acceptable(rules, tasks[k])
    ensures FirstTaskError(rules, tasks).Some? ==>
              exists k :: FirstFailure(rules, tasks, k, FirstTaskError(rules, tasks).value)
    decreases |tasks|
  {
    if tasks != [] {
      var n := |tasks| - 1;
      TaskChecksMean(rules, tasks[..n]);
      TaskErrorMeans(rules, tasks[n]);
      hide TaskError, Acceptable, FailsWith;
      var error := FirstTaskError(rules, tasks);
      if FirstTaskError(rules, tasks[..n]).Some? {
        var k :| FirstFailure(rules, tasks[..n], k, error.value);
        assert FirstFailure(rules, tasks, k, error.value);
      } else {
        assert forall k :: 0 <= k < n ==> tasks[..n][k] == tasks[k];
        if error.Some? { assert FirstFailure(rules, tasks, n, error.value); }
      }
    }
  }

  /** Every dependency names a task, and none the task itself. */
  ghost predicate Resolved(tasks: seq<Task>, task: Task) {
    (forall d :: d in task.dependencies ==> exists t :: t in tasks && t.id == d) && task.id !in task.dependencies
  }

  ghost predicate UnresolvedAt(tasks: seq<Task>, k: int, e: PlanError) {
    && 0 <= k < |tasks| && (forall j :: 0 <= j < k ==> Resolved(tasks, tasks[j])) && !Resolved(tasks, tasks[k])
    && e == if forall d :: d in tasks[k].dependencies ==> exists t :: t in tasks && t.id == d then SelfDependency
            else UnknownDependency
  }

  lemma DependencyErrorMeans(tasks: seq<Task>, task: Task)
    ensures var error := DependencyError(NameMap(tasks), task);
            if Resolved(tasks, task) then error == None
            else error == Some(if forall d :: d in task.dependencies ==> exists t :: t in tasks && t.id == d
                               then SelfDependency else UnknownDependency)
  {
    NameMapKeys(tasks);
    hide NameMap;
  }

  /** Renumbering succeeds exactly when all dependencies are resolved, and otherwise tells the error of the first
      task with one that is not. */
  lemma DependencyChecksMean(tasks: seq<Task>)
    ensures var error := FirstDependencyError(NameMap(tasks), tasks);
            && (error.None? <==> forall k :: 0 <= k < |tasks| ==> Resolved(tasks, tasks[k]))
            && (error.Some? ==> exists k :: UnresolvedAt(tasks, k, error.value))
  {
    assert tasks[..|tasks|] == tasks;
    DependencyChecksUpTo(tasks, |tasks|);
  }

  lemma {:induction false} DependencyChecksUpTo(tasks: seq<Task>, n: nat)
    requires n <= |tasks|
    ensures var error := FirstDependencyError(NameMap(tasks), tasks[..n]);
            && (error.None? <==> forall k :: 0 <= k < n ==> Resolved(tasks, tasks[k]))
            && (error.Some? ==> exists k :: UnresolvedAt(tasks, k, error.value))
    decreases n
  {
    hide NameMap, DependencyError, Resolved;
    if n > 0 {
      DependencyChecksUpTo(tasks, n - 1);
      DependencyErrorMeans(tasks, tasks[n - 1]);
      assert tasks[..n][..n - 1] == tasks[..n - 1] && tasks[..n][n - 1] == tasks[n - 1];
      var error := FirstDependencyError(NameMap(tasks), tasks[..n]);
      if FirstDependencyError(NameMap(tasks), tasks[..n - 1]).None? && error.Some? {
        assert UnresolvedAt(tasks, n - 1, error.value);
      }
    }
  }

  /** Tasks have the same key exactly when they have one kind and their queries the same folded forms in order. */
  lemma KeyMeans(rules: Rules, a: Task, b: Task)
    ensures KeyOf(rules, a) == KeyOf(rules, b) <==>
            && a.kind == b.kind && |a.queries| == |b.queries|
            && forall i :: 0 <= i < |a.queries| ==> rules.fold(a.queries[i]) == rules.fold(b.queries[i])
  {
    var x, y := KeyOf(rules, a).queries, KeyOf(rules, b).queries;
    assert |x| == |a.queries| && |y| == |b.queries|;
    assert forall i :: 0 <= i < |x| ==> x[i] == rules.fold(a.queries[i]);
    assert forall i :: 0 <= i < |y| ==> y[i] == rules.fold(b.queries[i]);
  }

  /** Higher priorities first, then by kind, then by question. */
  ghost predicate InPlanOrder(a: Task, b: Task) {
    && b.priority <= a.priority
    && (a.priority == b.priority ==> InDictionaryOrder(a.kind, b.kind))
    && (a.priority == b.priority && a.kind == b.kind ==> InDictionaryOrder(a.question, b.question))
  }

  lemma PlanLeMeans(a: Task, b: Task)
    ensures PlanLe(a, b) <==> InPlanOrder(a, b)
  {
    StringLeMeans(a.kind, b.kind);
    StringLeMeans(a.question, b.question);
    StringLeMeans(a.kind, a.kind);
    hide StringLe;
  }

  /** The tasks that agree in priority, kind and question with this one, in their order. */
  function Ties(task: Task, tasks: seq<Task>): seq<Task> {
    if tasks == [] then []
    else
      var t := tasks[0];
      (if t.priority == task.priority && t.kind == task.kind && t.question == task.question then [t] else [])
      + Ties(task, tasks[1..])
  }

  lemma {:induction false} TiesAreAlike(task: Task, tasks: seq<Task>)
    ensures AlikeIn(PlanLe, task, tasks) == Ties(task, tasks)
    decreases |tasks|
  {
    hide StringLe;
    if tasks != [] {
      TiesAreAlike(task, tasks[1..]);
      StringTotal(task.kind, tasks[0].kind);
      StringTotal(task.question, tasks[0].question);
    }
  }

  /** A plan is refused, in this order, for its size, for its number of tasks, for the first task that is not
      acceptable, or for the first kept task with an unresolved dependency; otherwise it is refused only for a
      cycle.  An accepted plan lists the kept tasks by priority, kind and question, ties in their order of
      appearance. */
  lemma PlanOutcome(rules: Rules, tasks: seq<Task>, planSize: nat)
    ensures var result, kept := Compiled(rules, tasks, planSize), Unique(rules, tasks);
            var ordered := Sort(PlanLe, kept);
            if planSize > rules.maximumPlanCharacters then result == Err(PlanTooLarge)
            else if |tasks| > rules.maximumInitialTasks then result == Err(TooManyTasks)
            else if exists k :: 0 <= k < |tasks| && !Acceptable(rules, tasks[k]) then
              result.Err? && exists k :: FirstFailure(rules, tasks, k, result.error)
            else if exists k :: 0 <= k < |ordered| && !Resolved(ordered, ordered[k]) then
              result.Err? && exists k :: UnresolvedAt(ordered, k, result.error)
            else result.Ok? || result == Err(DependencyCycle)
    ensures var result, kept := Compiled(rules, tasks, planSize), Unique(rules, tasks);
            var ordered := Sort(PlanLe, kept);
            && (result.Ok? ==> |result.value| == |ordered|)
            && (result.Ok? ==> forall i :: 0 <= i < |ordered| ==>
                  var t := result.value[i]; t == ordered[i].(id := t.id, dependencies := t.dependencies))
            && (forall i, j :: 0 <= i < j < |ordered| ==> InPlanOrder(ordered[i], ordered[j]))
            && (forall t :: Ties(t, ordered) == Ties(t, kept)) && multiset(ordered) == multiset(kept)
  {
    hide FirstTaskError, Unique, NameMap, FirstDependencyError, GraphOf, Nameable, PlanLe, TaskId, Acceptable, Resolved,
         InPlanOrder, Ties;
    var kept := Unique(rules, tasks);
    var ordered := Sort(PlanLe, kept);
    TaskChecksMean(rules, tasks);
    DependencyChecksMean(ordered);
    PlanOrder();
    SortSorted(PlanLe, kept);
    forall i, j | 0 <= i < j < |ordered|
      ensures InPlanOrder(ordered[i], ordered[j])
    {
      PlanLeMeans(ordered[i], ordered[j]);
    }
    forall t
      ensures Ties(t, ordered) == Ties(t, kept)
    {
      SortStable(PlanLe, kept, t);
      TiesAreAlike(t, kept);
      TiesAreAlike(t, ordered);
    }
  }

  // ---- Repeated ids ----------------------------------------------------------------------------

  /** An accepted plan has distinct ids, which are then T01, T02, ... in order, exactly when the tasks that
      are kept have distinct ids; a repeated id on a dropped task does no harm. */
  lemma PlanIdsDistinct(rules: Rules, tasks: seq<Task>, planSize: nat)
    requires Compiled(rules, tasks, planSize).Ok?
    ensures var plan := Compiled(rules, tasks, planSize).value;
            && (DistinctIds(plan) <==> DistinctIds(Unique(rules, tasks)))
            && ((forall i :: 0 <= i < |plan| ==> plan[i].id == TaskId(i + 1)) <==> DistinctIds(Unique(rules, tasks)))
  {
    hide FirstTaskError, Unique, NameMap, FirstDependencyError, GraphOf, PlanLe, TaskId, Sort, DistinctIds;
    var ordered := Sort(PlanLe, Unique(rules, tasks));
    AllNameable(ordered);
    assert Compiled(rules, tasks, planSize).value == CompileAll(NameMap(ordered), ordered);
    NewIdsDistinct(Unique(rules, tasks));
  }

  lemma NewIdsDistinct(kept: seq<Task>)
    requires forall item :: item in Sort(PlanLe, kept) ==> Nameable(NameMap(Sort(PlanLe, kept)), item)
    ensures var ordered := Sort(PlanLe, kept);
            var plan := CompileAll(NameMap(ordered), ordered);
            && (DistinctIds(plan) <==> DistinctIds(kept))
            && ((forall i :: 0 <= i < |plan| ==> plan[i].id == TaskId(i + 1)) <==> DistinctIds(kept))
  {
    hide NameMap, GraphOf, PlanLe, TaskId, Sort, DistinctIds, Nameable;
    var ordered := Sort(PlanLe, kept);
    var plan := CompileAll(NameMap(ordered), ordered);
    if DistinctIds(kept) {
      SortedGraph(kept);
      RenumberedIds(ordered);
    } else {
      SharedIdStays(kept, ordered);
      if forall i :: 0 <= i < |plan| ==> plan[i].id == TaskId(i + 1) { NumberedIdsDistinct(plan); }
    }
  }

  lemma SharedIdStays(kept: seq<Task>, ordered: seq<Task>)
    requires !DistinctIds(kept) && multiset(kept) == multiset(ordered)
    requires forall item :: item in ordered ==> Nameable(NameMap(ordered), item)
    ensures !DistinctIds(CompileAll(NameMap(ordered), ordered))
  {
    hide NameMap;
    if DistinctIds(ordered) { DistinctByPermutation((t: Task) => t.id, ordered, kept); }
    var i, j :| 0 <= i < j < |ordered| && ordered[i].id == ordered[j].id;
    assert ordered[i] in ordered && ordered[j] in ordered;
    var plan := CompileAll(NameMap(ordered), ordered);
    assert plan[i].id == plan[j].id;
  }

  /** Two kept tasks that share an id share one new id, whatever else they ask. */
  lemma SharedIdsMerge(rules: Rules, a: Task, b: Task, planSize: nat)
    requires a.id == b.id && a.dependencies == [] == b.dependencies
    requires KeyOf(rules, a) != KeyOf(rules, b) && TaskError(rules, a).None? && TaskError(rules, b).None?
    requires planSize <= rules.maximumPlanCharacters && rules.maximumInitialTasks >= 2
    ensures var result := Compiled(rules, [a, b], planSize);
            result.Ok? && |result.value| == 2 && result.value[0].id == result.value[1].id
  {
    hide KeyOf, TaskError, FirstTaskError, PlanLe, NameMap, FirstDependencyError, GraphOf, Nameable, Unique, Sort,
         Cyclic;
    TwoAreKept(rules, a, b);
    var ordered := Sort(PlanLe, [a, b]);
    SortedPair(a, b);
    PairCompiles(ordered);
    hide CompileAll;
  }

  lemma SortedPair(a: Task, b: Task)
    requires a.id == b.id && a.dependencies == [] == b.dependencies
    ensures var ordered := Sort(PlanLe, [a, b]);
            && |ordered| == 2 && ordered[0].id == ordered[1].id
            && ordered[0].dependencies == [] == ordered[1].dependencies
  {
    hide PlanLe, Sort;
    var ordered := Sort(PlanLe, [a, b]);
    SameMembers([a, b], ordered);
    assert ordered[0] in ordered && ordered[1] in ordered;
  }

  lemma PairCompiles(ordered: seq<Task>)
    requires |ordered| == 2 && ordered[0].id == ordered[1].id
    requires ordered[0].dependencies == [] == ordered[1].dependencies
    ensures var names := NameMap(ordered);
            && FirstDependencyError(names, ordered).None?
            && (forall item :: item in ordered ==> Nameable(names, item))
            && var plan := CompileAll(names, ordered);
            && !Cyclic(GraphOf(plan)) && plan[0].id == plan[1].id
  {
    hide NameMap;
    var names := NameMap(ordered);
    NoDependencyError(names, ordered);
    forall item | item in ordered
      ensures DependencyError(names, item).None?
    {
      assert item == ordered[0] || item == ordered[1];
    }
    AllNameable(ordered);
    WithoutDependencies(names, ordered);
    hide GraphOf;
    EdgelessIsAcyclic(CompileAll(names, ordered));
    assert ordered[0] in ordered && ordered[1] in ordered;
  }

  lemma TwoAreKept(rules: Rules, a: Task, b: Task)
    requires KeyOf(rules, a) != KeyOf(rules, b) && TaskError(rules, a).None? && TaskError(rules, b).None?
    ensures Unique(rules, [a, b]) == [a, b] && FirstTaskError(rules, [a, b]).None?
  {
    hide KeyOf, TaskError;
    var none: seq<Task> := [];
    assert Unique(rules, none) == [] && FirstTaskError(rules, none).None? && Keys(rules, none) == {};
    KeptNext(rules, none, a);
    assert none + [a] == [a];
    KeptNext(rules, [a], b);
    assert [a] + [b] == [a, b];
  }

  lemma KeptNext(rules: Rules, tasks: seq<Task>, task: Task)
    requires Unique(rules, tasks) == tasks && FirstTaskError(rules, tasks).None?
    requires TaskError(rules, task).None? && forall t :: t in tasks ==> KeyOf(rules, t) != KeyOf(rules, task)
    ensures Unique(rules, tasks + [task]) == tasks + [task] && FirstTaskError(rules, tasks + [task]).None?
  {
    hide KeyOf, TaskError;
    var longer := tasks + [task];
    assert longer[..|longer| - 1] == tasks && longer[|longer| - 1] == task;
    assert KeyOf(rules, task) !in Keys(rules, tasks);
  }

  lemma WithoutDependencies(names: map<string, string>, items: seq<Task>)
    requires forall item :: item in items ==> Nameable(names, item) && item.dependencies == []
    ensures forall i :: 0 <= i < |items| ==> CompileAll(names, items)[i].dependencies == []
  {
    forall i | 0 <= i < |items|
      ensures CompileAll(names, items)[i].dependencies == []
    {
      assert items[i] in items;
    }
  }

  lemma EdgelessIsAcyclic(tasks: seq<Task>)
    requires forall i :: 0 <= i < |tasks| ==> tasks[i].dependencies == []
    ensures !Cyclic(GraphOf(tasks))
  {
    hide GraphOf;
    GraphKeys(tasks);
    forall v | v in GraphOf(tasks)
      ensures GraphOf(tasks)[v] == []
    {
      var t :| t in tasks && t.id == v && t.dependencies == GraphOf(tasks)[v];
    }
    forall p
      ensures !IsCycle(GraphOf(tasks), p)
    {
      if IsCycle(GraphOf(tasks), p) { CycleHasEdge(GraphOf(tasks), p); }
    }
  }

  lemma CycleHasEdge(g: Graph, p: seq<string>)
    requires IsCycle(g, p)
    ensures Edge(g, p[0], p[1])
  {
  }

  /** Such a plan exists: distinct ids cannot be left to the compiler. */
  lemma SharedIdsOccur() returns (rules: Rules, tasks: seq<Task>)
    ensures Compiled(rules, tasks, 0).Ok? && !DistinctIds(Compiled(rules, tasks, 0).value)
  {
    rules := Rules(12000, 5, 2, 4, 1000, text => false, text => false, text => text);
    var a := Task("A", 0, "lookup", "first", ["x"], [], 1);
    var b := Task("A", 0, "lookup", "second", ["y"], [], 1);
    tasks := [a, b];
    PlainTask(rules, a);
    PlainTask(rules, b);
    hide Compiled, TaskError;
    assert KeyOf(rules, a).queries == ["x"] && KeyOf(rules, b).queries == ["y"];
    assert "x"[0] != "y"[0];
    hide KeyOf;
    SharedIdsMerge(rules, a, b, 0);
  }

  lemma PlainTask(rules: Rules, task: Task)
    requires task.depth <= rules.maximumDepth && |task.queries| == 1 <= rules.maximumQueries
    requires |task.queries[0]| <= rules.maximumQueryCharacters
    requires forall s :: !rules.blank(s) && !rules.unsafe(s)
    ensures TaskError(rules, task).None?
  {
  }
}
