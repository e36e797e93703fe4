/** One graph run: which events its nodes emit, how they are numbered, and what the runtime filter
    and the chat stream make of them.

    Node bodies are arbitrary: a behaviour says which events a node emits, whether it then raises,
    and what it writes to the state.  The wrapper around the nodes, the event journal, the history
    reducer, the edges and the two unguarded end nodes are modelled as they are written. */
module GraphEvents {
  import opened Prelude
  import opened ChatTypes
  import opened StreamContract
  import opened Reducers
  import opened Sequences

  const MAX_RETAINED_ACTIVITY_EVENTS := 200

  // ---- Reducers --------------------------------------------------------------------------------

  function LastRetained(events: seq<AgentEvent>): seq<AgentEvent> {
    if |events| <= MAX_RETAINED_ACTIVITY_EVENTS then events
    else events[|events| - MAX_RETAINED_ACTIVITY_EVENTS..]
  }

  /** `append_events`. */
  function AppendEvents(left: seq<AgentEvent>, right: seq<AgentEvent>): seq<AgentEvent> {
    if right != [] && right[0].sequence == 0 then LastRetained(right) else LastRetained(AppendUnique(left, right))
  }

  // ---- Event construction ----------------------------------------------------------------------

  /** The sequence number that follows a history. */
  function NextSequence(history: seq<AgentEvent>): nat {
    if history == [] then 0 else history[|history| - 1].sequence + 1
  }

  datatype Emission = Emission(name: string, status: EventStatus)

  function Emitted(ids: Ids, node: Node, n: nat, emissions: seq<Emission>): seq<AgentEvent> {
    if emissions == [] then []
    else
      var k := |emissions| - 1;
      Emitted(ids, node, n, emissions[..k])
      + [AgentEvent(Activity(emissions[k].name), n + k, ids, Some(node), emissions[k].status)]
  }

  lemma {:induction false} EmittedShape(ids: Ids, node: Node, n: nat, emissions: seq<Emission>)
    ensures var events := Emitted(ids, node, n, emissions);
            |events| == |emissions| &&
            forall k :: 0 <= k < |events| ==>
                          events[k].sequence == n + k && events[k].ids == ids && !TerminalKind(events[k].kind)
  {
    if emissions != [] {
      EmittedShape(ids, node, n, emissions[..|emissions| - 1]);
    }
  }

  /** Events emitted during one guarded node execution. */
  class EventJournal {
    const ids: Ids
    var nextSequence: nat
    var emitted: seq<AgentEvent>

    constructor (ids: Ids, nextSequence: nat)
      ensures this.ids == ids && this.nextSequence == nextSequence && emitted == []
    {
      this.ids := ids;
      this.nextSequence := nextSequence;
      emitted := [];
    }

    /** Raises, leaving the journal alone, on an event that does not continue it. */
    method Append(item: AgentEvent) returns (raised: bool)
      modifies this
      ensures raised <==> item.ids != ids || item.sequence != old(nextSequence)
      ensures raised ==> emitted == old(emitted) && nextSequence == old(nextSequence)
      ensures !raised ==> emitted == old(emitted) + [item] && nextSequence == old(nextSequence) + 1
    {
      if item.ids != ids || item.sequence != nextSequence { return true; }
      emitted := emitted + [item];
      nextSequence := nextSequence + 1;
      return false;
    }

    /** `event` while this journal is active: the event takes the journal's number and is kept. */
    method Event(kind: AgentKind, node: Option<Node>, status: EventStatus) returns (item: AgentEvent)
      modifies this
      ensures item == AgentEvent(kind, old(nextSequence), ids, node, status)
      ensures emitted == old(emitted) + [item] && nextSequence == old(nextSequence) + 1
    {
      item := AgentEvent(kind, nextSequence, ids, node, status);
      var raised := Append(item);
    }
  }

  // ---- Nodes -----------------------------------------------------------------------------------

  datatype GraphState = GraphState(
    ids: Ids, history: seq<AgentEvent>, failure: bool, status: Option<RunStatus>, route: Option<Route>,
    steps: nat, output: Option<Output>)

  /** What an arbitrary guarded node does: emit, then raise or return these writes.  No guarded
      node writes the status FAILED. */
  datatype Behaviour = Behaviour(
    emissions: seq<Emission>, raises: bool, failure: Option<bool>, status: Option<RunStatus>, route: Option<Route>)

  predicate Guardable(b: Behaviour) {
    b.status != Some(Failed)
  }

  datatype Update = Update(
    failure: Option<bool>, status: Option<RunStatus>, route: Option<Route>,
    events: Option<seq<AgentEvent>>, steps: Option<nat>, output: Option<Output>)

  function Write<T>(current: T, written: Option<T>): T {
    if written.Some? then written.value else current
  }

  /** A channel without a write keeps its value; the event history goes through its reducer. */
  function Apply(s: GraphState, u: Update): GraphState {
    GraphState(
      s.ids,
      if u.events.Some? then AppendEvents(s.history, u.events.value) else s.history,
      Write(s.failure, u.failure),
      if u.status.Some? then u.status else s.status,
      if u.route.Some? then u.route else s.route,
      Write(s.steps, u.steps),
      if u.output.Some? then u.output else s.output)
  }

  const STEP_BUDGET_UPDATE := Update(Some(true), None, None, None, None, None)

  function FailureName(node: Node): string {
    match node
    case PythonAnalysisNode => "tool.failed"
    case ExecuteMcpTool => "mcp.failed"
    case CrossDocumentResearch => "research.failed"
    case GenerateResponse => "response.generation_failed"
    case ValidateCitations => "citation.validation_failed"
    case UpdateMemory => "memory.failed"
    case _ => "node.failed"
  }

  predicate ReportsFailure(node: Node, events: seq<AgentEvent>) {
    exists e :: e in events && e.node == Some(node) && e.status == Faulted
  }

  /** Everything one guarded execution emits. */
  function GuardedEvents(s: GraphState, node: Node, b: Behaviour): seq<AgentEvent> {
    var n := NextSequence(s.history);
    var events := Emitted(s.ids, node, n, b.emissions);
    if b.raises && !ReportsFailure(node, events)
    then events + [AgentEvent(Activity(FailureName(node)), n + |events|, s.ids, Some(node), Faulted)]
    else events
  }

  function GuardedUpdate(s: GraphState, node: Node, b: Behaviour): Update {
    var events := GuardedEvents(s, node, b);
    if b.raises then Update(Some(true), None, None, Some(events), None, None)
    else Update(b.failure, b.status, b.route, if events == [] then None else Some(events), Some(s.steps + 1), None)
  }

  /** The node body's calls of `event`, one after the other. */
  method EmitAll(journal: EventJournal, node: Node, emissions: seq<Emission>)
    requires journal.emitted == []
    modifies journal
    ensures journal.emitted == Emitted(journal.ids, node, old(journal.nextSequence), emissions)
    ensures journal.nextSequence == old(journal.nextSequence) + |journal.emitted|
  {
    ghost var first := journal.nextSequence;
    for i := 0 to |emissions|
      invariant journal.emitted == Emitted(journal.ids, node, first, emissions[..i])
      invariant journal.nextSequence == first + i && |journal.emitted| == i
    {
      assert emissions[..i + 1][..i] == emissions[..i];
      var item := journal.Event(Activity(emissions[i].name), Some(node), emissions[i].status);
    }
    assert emissions[..|emissions|] == emissions;
  }

  /** `guarded(node_name, node)`: `streamed` are the events written to the custom stream. */
  method RunGuarded(s: GraphState, node: Node, b: Behaviour, maximumSteps: nat)
    returns (update: Update, streamed: seq<AgentEvent>)
    ensures s.steps >= maximumSteps ==> update == STEP_BUDGET_UPDATE && streamed == []
    ensures s.steps < maximumSteps ==> update == GuardedUpdate(s, node, b) && streamed == GuardedEvents(s, node, b)
  {
    if s.steps >= maximumSteps { return STEP_BUDGET_UPDATE, []; }
    hide ReportsFailure, FailureName, Emitted;
    var journal := new EventJournal(s.ids, NextSequence(s.history));
    EmitAll(journal, node, b.emissions);
    if b.raises {
      if !ReportsFailure(node, journal.emitted) {
        var failed := journal.Event(Activity(FailureName(node)), Some(node), Faulted);
      }
      update := Update(Some(true), None, None, Some(journal.emitted), None, None);
    } else {
      var events := if journal.emitted == [] then None else Some(journal.emitted);
      update := Update(b.failure, b.status, b.route, events, Some(s.steps + 1), None);
    }
    streamed := journal.emitted;
  }

  function InitializeEvents(ids: Ids): seq<AgentEvent> {
    [AgentEvent(Activity("request.accepted"), 0, ids, None, Accepted),
     AgentEvent(Activity("graph.started"), 1, ids, None, Started)]
  }

  function InitializeUpdate(s: GraphState): Update {
    Update(Some(s.failure), Some(Running), None, Some(InitializeEvents(s.ids)), Some(1), None)
  }

  /** `_node_events` without an active journal. */
  function FailureEvents(s: GraphState): seq<AgentEvent> {
    var started := AgentEvent(Activity("node.started"), NextSequence(s.history), s.ids, Some(HandleFailure), Started);
    [started,
     AgentEvent(Activity("node.completed"), NextSequence(s.history + [started]), s.ids, Some(HandleFailure), Completed)]
  }

  function FailureUpdate(s: GraphState): Update {
    Update(None, Some(Failed), Some(FailureRoute), Some(FailureEvents(s)), None, None)
  }

  function FinalStatus(s: GraphState): RunStatus {
    if s.status.None? || s.status.value == Running then RunCompleted else s.status.value
  }

  function FinalEvent(s: GraphState): AgentEvent {
    AgentEvent(if FinalStatus(s) == Failed then ResponseFailed else ResponseCompleted, NextSequence(s.history), s.ids,
               Some(FinalizeExecution), if FinalStatus(s) == Failed then Faulted else Completed)
  }

  function FinalUpdate(s: GraphState): Update
    requires s.route.Some?
  {
    Update(None, Some(FinalStatus(s)), None, Some([FinalEvent(s)]), None,
           Some(Output(s.ids, FinalStatus(s), s.route.value)))
  }

  // ---- Edges -----------------------------------------------------------------------------------

  function RouteNode(route: Route): Node {
    match route
    case SimpleRetrieval => SimpleRetrievalNode
    case DirectResponse => DirectResponseNode
    case Deny => DenyRequest
    case FailureRoute => HandleFailure
    case RecursiveResearch => CrossDocumentResearch
    case PythonAnalysis => PythonAnalysisNode
    case McpTool => ExecuteMcpTool
    case HumanApproval => UnsupportedNode
    case Unsupported => UnsupportedNode
  }

  /** The successor of a node that is neither `handle_failure` nor `finalize_execution`; None is the
      KeyError of a state without a selected route. */
  function Successor(node: Node, s: GraphState): Option<Node>
    requires node != HandleFailure && node != FinalizeExecution
  {
    if node == InitializeRequest then Some(ValidateRequest)
    else if s.failure then Some(HandleFailure)
    else match node
      case ValidateRequest => Some(LoadMemory)
      case LoadMemory => Some(ResolveFollowup)
      case ResolveFollowup => Some(ClassifyIntent)
      case ClassifyIntent => Some(Supervisor)
      case Supervisor => if s.route.Some? then Some(RouteNode(s.route.value)) else None
      case SimpleRetrievalNode => Some(ValidateEvidence)
      case CrossDocumentResearch => Some(ValidateEvidence)
      case ValidateEvidence => Some(GenerateResponse)
      case PythonAnalysisNode => Some(GenerateResponse)
      case ExecuteMcpTool => Some(PrepareOutput)
      case GenerateResponse => Some(ValidateCitations)
      case ValidateCitations => Some(PrepareOutput)
      case PrepareOutput => Some(UpdateMemory)
      case UpdateMemory => Some(FinalizeExecution)
      case _ => Some(PrepareOutput)
  }

  /** The graph is acyclic: every edge lowers the rank. */
  function Rank(node: Node): nat {
    match node
    case InitializeRequest => 13
    case ValidateRequest => 12
    case LoadMemory => 11
    case ResolveFollowup => 10
    case ClassifyIntent => 9
    case Supervisor => 8
    case ValidateEvidence => 6
    case GenerateResponse => 5
    case ValidateCitations => 4
    case PrepareOutput => 3
    case UpdateMemory => 2
    case HandleFailure => 1
    case FinalizeExecution => 0
    case _ => 7
  }

  function NextNode(node: Node, s: GraphState): (next: Option<Node>)
    requires node != FinalizeExecution
    ensures next.Some? ==> Rank(next.value) < Rank(node)
  {
    if node == HandleFailure then Some(FinalizeExecution) else Successor(node, s)
  }

  // ---- Runs ------------------------------------------------------------------------------------

  datatype Run = Run(parts: seq<Part>, raised: bool)

  function CustomParts(events: seq<AgentEvent>): seq<Part> {
    seq(|events|, i requires 0 <= i < |events| => Custom(Some(events[i])))
  }

  /** Events and update of one node other than `finalize_execution`. */
  function StepEvents(s: GraphState, node: Node, b: Behaviour, maximumSteps: nat): seq<AgentEvent> {
    if node == InitializeRequest then InitializeEvents(s.ids)
    else if node == HandleFailure then FailureEvents(s)
    else if s.steps >= maximumSteps then []
    else GuardedEvents(s, node, b)
  }

  function StepUpdate(s: GraphState, node: Node, b: Behaviour, maximumSteps: nat): Update {
    if node == InitializeRequest then InitializeUpdate(s)
    else if node == HandleFailure then FailureUpdate(s)
    else if s.steps >= maximumSteps then STEP_BUDGET_UPDATE
    else GuardedUpdate(s, node, b)
  }

  /** The stream parts of the run from `node` on: each node's events as they are written, then the
      state after the node. */
  function RunFrom(s: GraphState, node: Node, plan: Node -> Behaviour, maximumSteps: nat): Run
    decreases Rank(node)
  {
    if node == FinalizeExecution then
      var final := [Custom(Some(FinalEvent(s)))];
      if s.route.None? then Run(final, true) else Run(final + [Values(Apply(s, FinalUpdate(s)).output)], false)
    else
      var s' := Apply(s, StepUpdate(s, node, plan(node), maximumSteps));
      var here := CustomParts(StepEvents(s, node, plan(node), maximumSteps)) + [Values(s'.output)];
      var next := NextNode(node, s');
      if next.None? then Run(here, true)
      else
        var rest := RunFrom(s', next.value, plan, maximumSteps);
        Run(here + rest.parts, rest.raised)
  }

  /** A run on the thread state left by earlier turns; the request's input writes an empty history. */
  function GraphRun(thread: GraphState, plan: Node -> Behaviour, maximumSteps: nat): Run {
    var s := thread.(history := AppendEvents(thread.history, []));
    var run := RunFrom(s, InitializeRequest, plan, maximumSteps);
    Run([Values(s.output)] + run.parts, run.raised)
  }

  // ---- Numbering -------------------------------------------------------------------------------

  /** A history whose last event has number n - 1 and no event a later one. */
  predicate EndsAt(history: seq<AgentEvent>, n: nat) {
    history != [] && history[|history| - 1].sequence == n - 1 && forall e :: e in history ==> e.sequence < n
  }

  /** Activity events of one request numbered n, n + 1, ... */
  predicate NumberedFrom(ids: Ids, events: seq<AgentEvent>, n: nat) {
    forall k :: 0 <= k < |events| ==>
                  events[k].sequence == n + k && events[k].ids == ids && !TerminalKind(events[k].kind)
  }

  /** The reducer never loses the end of the history: the next number continues it, even after
      truncation. */
  lemma HistoryContinues(history: seq<AgentEvent>, events: seq<AgentEvent>, ids: Ids, n: nat)
    requires EndsAt(history, n) && NumberedFrom(ids, events, n) && events != [] && n > 0
    ensures EndsAt(AppendEvents(history, events), n + |events|)
  {
    AppendNewKeepsAll(history, events);
    var all := history + events;
    assert all[|all| - 1] == events[|events| - 1];
    assert forall e :: e in all ==> e.sequence < n + |events|;
    var kept := LastRetained(all);
    assert forall e :: e in kept ==> e in all;
    assert kept[|kept| - 1] == all[|all| - 1];
  }

  lemma StepNumbered(s: GraphState, node: Node, b: Behaviour, maximumSteps: nat, n: nat)
    requires node != InitializeRequest && node != FinalizeExecution && EndsAt(s.history, n) && n > 0
    ensures var events := StepEvents(s, node, b, maximumSteps);
            && NumberedFrom(s.ids, events, n)
            && EndsAt(Apply(s, StepUpdate(s, node, b, maximumSteps)).history, n + |events|)
  {
    hide AppendEvents, Emitted, EndsAt, NumberedFrom, GuardedEvents;
    LastNumber(s.history, n);
    StepEventsNumbered(s, node, b, maximumSteps, n);
    var events := StepEvents(s, node, b, maximumSteps);
    if events != [] {
      HistoryContinues(s.history, events, s.ids, n);
    } else {
      RaisingReports(s, node, b);
    }
  }

  lemma StepEventsNumbered(s: GraphState, node: Node, b: Behaviour, maximumSteps: nat, n: nat)
    requires node != InitializeRequest && NextSequence(s.history) == n
    ensures NumberedFrom(s.ids, StepEvents(s, node, b, maximumSteps), n)
  {
    hide GuardedEvents;
    if node != HandleFailure {
      GuardedNumbered(s, node, b);
    }
  }

  lemma GuardedNumbered(s: GraphState, node: Node, b: Behaviour)
    ensures NumberedFrom(s.ids, GuardedEvents(s, node, b), NextSequence(s.history))
  {
    hide Emitted, ReportsFailure, FailureName;
    EmittedShape(s.ids, node, NextSequence(s.history), b.emissions);
  }

  lemma RaisingReports(s: GraphState, node: Node, b: Behaviour)
    ensures b.raises ==> GuardedEvents(s, node, b) != []
  {
  }

  // ---- The filtered run ------------------------------------------------------------------------

  function EventItems(events: seq<AgentEvent>): seq<Item> {
    if events == [] then [] else [EventItem(events[0])] + EventItems(events[1..])
  }

  /** All events the run writes to the custom stream. */
  function Streamed(parts: seq<Part>): seq<AgentEvent> {
    if parts == [] then []
    else (if parts[0].Custom? && parts[0].event.Some? then [parts[0].event.value] else []) + Streamed(parts[1..])
  }

  lemma {:induction false} StreamedSplit(a: seq<Part>, b: seq<Part>)
    ensures Streamed(a + b) == Streamed(a) + Streamed(b)
  {
    if a == [] {
      assert a + b == b;
    } else {
      assert (a + b)[1..] == a[1..] + b;
      StreamedSplit(a[1..], b);
    }
  }

  lemma {:induction false} StreamedCustom(events: seq<AgentEvent>)
    ensures Streamed(CustomParts(events)) == events
  {
    if events != [] {
      assert CustomParts(events)[1..] == CustomParts(events[1..]);
      StreamedCustom(events[1..]);
    }
  }

  lemma FilterCons(ids: Ids, f: FilterState, part: Part, rest: seq<Part>)
    ensures Filtered(ids, f, [part] + rest) ==
            FilterStep(ids, f, part).1 + Filtered(ids, FilterStep(ids, f, part).0, rest)
  {
    assert ([part] + rest)[1..] == rest;
  }

  /** While no terminal event has passed, the filter lets a numbered step through unchanged. */
  lemma {:induction false} FilterStepThrough(ids: Ids, n: nat, events: seq<AgentEvent>, output: Option<Output>,
                                             rest: seq<Part>)
    requires NumberedFrom(ids, events, n)
    ensures Filtered(ids, FilterState(n, false, false), CustomParts(events) + [Values(output)] + rest)
         == EventItems(events) + Filtered(ids, FilterState(n + |events|, false, false), rest)
    decreases |events|
  {
    var f := FilterState(n, false, false);
    if events == [] {
      NothingAround([Values(output)]);
      NothingAround(Filtered(ids, f, rest));
      hide Filtered;
      FilterCons(ids, f, Values(output), rest);
    } else {
      hide Filtered;
      CustomFirst(events, output, rest);
      hide CustomParts, EventItems;
      var later := CustomParts(events[1..]) + [Values(output)] + rest;
      FilterCons(ids, f, Custom(Some(events[0])), later);
      FilterStepThrough(ids, n + 1, events[1..], output, rest);
      Associative([EventItem(events[0])], EventItems(events[1..]),
                  Filtered(ids, FilterState(n + |events|, false, false), rest));
    }
  }

  lemma CustomFirst(events: seq<AgentEvent>, output: Option<Output>, rest: seq<Part>)
    requires events != []
    ensures CustomParts(events) + [Values(output)] + rest ==
            [Custom(Some(events[0]))] + (CustomParts(events[1..]) + [Values(output)] + rest)
    ensures EventItems(events) == [EventItem(events[0])] + EventItems(events[1..])
  {
  }

  /** How a run ends: before any terminal event (only when it raised), right after it (only when it
      raised), or with the output that the terminal event announced. */
  predicate Closing(ids: Ids, n: nat, tail: seq<Item>) {
    tail != [] ==>
      && tail[0].EventItem?
      && TerminalKind(tail[0].event.kind) && tail[0].event.sequence == n && tail[0].event.ids == ids
      && |tail| <= 2
      && (|tail| == 2 ==>
            && tail[1].OutputItem?
            && tail[1].output.ids == ids
            && (tail[0].event.kind == ResponseFailed <==> tail[1].output.status == Failed)
            && (tail[1].output.status == Failed ==> tail[1].output.route == FailureRoute))
  }

  function EventsOf(items: seq<Item>): seq<AgentEvent> {
    if items == [] then []
    else (if items[0].EventItem? then [items[0].event] else []) + EventsOf(items[1..])
  }

  lemma {:induction false} EventItemsSplit(a: seq<AgentEvent>, b: seq<AgentEvent>)
    ensures EventItems(a + b) == EventItems(a) + EventItems(b)
  {
    if a == [] {
      assert a + b == b;
    } else {
      assert (a + b)[1..] == a[1..] + b;
      EventItemsSplit(a[1..], b);
    }
  }

  /** From here to the end, the run of `parts` streams the numbered activity `events` and then closes with `tail`. */
  ghost predicate RunsAs(ids: Ids, n: nat, run: Run, events: seq<AgentEvent>, tail: seq<Item>) {
    && NumberedFrom(ids, events, n)
    && Closing(ids, n + |events|, tail)
    && (!run.raised <==> |tail| == 2)
    && Filtered(ids, FilterState(n, false, false), run.parts) == EventItems(events) + tail
    && Streamed(run.parts) == events + EventsOf(tail)
  }

  /** FAILED is only ever the status after `handle_failure`, which also selects the failure route. */
  predicate StatusInvariant(s: GraphState, node: Node) {
    s.status == Some(Failed) ==> node == FinalizeExecution && s.route == Some(FailureRoute)
  }

  lemma FinalRuns(s: GraphState, plan: Node -> Behaviour, maximumSteps: nat, n: nat) returns (tail: seq<Item>)
    requires NextSequence(s.history) == n && StatusInvariant(s, FinalizeExecution)
    ensures RunsAs(s.ids, n, RunFrom(s, FinalizeExecution, plan, maximumSteps), [], tail)
  {
    tail := FinalItems(s);
    FinalCloses(s, n, tail);
    FinalFiltered(s, n, tail);
    FinalRun(s, plan, maximumSteps);
    hide Closing, Filtered, Streamed, FinalEvent, FinalUpdate, EventsOf, StatusInvariant, NextSequence, RunFrom,
         FinalStatus;
    assert EventItems([]) == [];
    NothingAround(tail);
    NothingAround(EventsOf(tail));
  }

  lemma FinalRun(s: GraphState, plan: Node -> Behaviour, maximumSteps: nat)
    ensures RunFrom(s, FinalizeExecution, plan, maximumSteps) ==
            Run([Custom(Some(FinalEvent(s)))]
                + (if s.route.None? then [] else [Values(Apply(s, FinalUpdate(s)).output)]), s.route.None?)
  {
    hide FinalEvent, FinalUpdate, Apply;
    NothingAround([Custom(Some(FinalEvent(s)))]);
  }

  /** What the filter makes of the last node's event and output. */
  function FinalItems(s: GraphState): seq<Item> {
    [EventItem(FinalEvent(s))]
    + if s.route.None? then [] else [OutputItem(Output(s.ids, FinalStatus(s), s.route.value))]
  }

  lemma FinalCloses(s: GraphState, n: nat, tail: seq<Item>)
    requires NextSequence(s.history) == n && StatusInvariant(s, FinalizeExecution) && tail == FinalItems(s)
    ensures Closing(s.ids, n, tail) && EventsOf(tail) == [FinalEvent(s)]
  {
    assert EventsOf(tail[1..]) == [];
  }

  lemma FinalFiltered(s: GraphState, n: nat, tail: seq<Item>)
    requires NextSequence(s.history) == n && tail == FinalItems(s)
    ensures var parts := [Custom(Some(FinalEvent(s)))]
                         + if s.route.None? then [] else [Values(Apply(s, FinalUpdate(s)).output)];
            Filtered(s.ids, FilterState(n, false, false), parts) == tail && Streamed(parts) == [FinalEvent(s)]
  {
    var first := Custom(Some(FinalEvent(s)));
    var f1 := FilterState(n + 1, true, false);
    if s.route.None? {
      FilterCons(s.ids, FilterState(n, false, false), first, []);
      assert [first] + [] == [first] && [first][1..] == [];
    } else {
      var last := Values(Some(Output(s.ids, FinalStatus(s), s.route.value)));
      FilterCons(s.ids, FilterState(n, false, false), first, [last]);
      FilterCons(s.ids, f1, last, []);
      assert [last] + [] == [last] && [first] + [last] == [first, last];
      StreamedSplit([first], [last]);
      assert [first][1..] == [] && [last][1..] == [];
    }
  }

  lemma RunsAsPrepend(ids: Ids, n: nat, here: seq<AgentEvent>, output: Option<Output>, rest: Run,
                      events: seq<AgentEvent>, tail: seq<Item>)
    requires NumberedFrom(ids, here, n) && RunsAs(ids, n + |here|, rest, events, tail)
    ensures RunsAs(ids, n, Run(CustomParts(here) + [Values(output)] + rest.parts, rest.raised), here + events, tail)
  {
    hide Closing, TerminalKind, CustomParts, Filtered, Streamed, EventItems, EventsOf;
    FilterStepThrough(ids, n, here, output, rest.parts);
    EventItemsSplit(here, events);
    assert EventItems(here) + (EventItems(events) + tail) == (EventItems(here) + EventItems(events)) + tail;
    StreamedStep(here, output, rest.parts);
    assert here + (events + EventsOf(tail)) == (here + events) + EventsOf(tail);
    assert n + |here + events| == n + |here| + |events|;
  }

  lemma StreamedStep(here: seq<AgentEvent>, output: Option<Output>, rest: seq<Part>)
    ensures Streamed(CustomParts(here) + [Values(output)] + rest) == here + Streamed(rest)
  {
    StreamedSplit(CustomParts(here) + [Values(output)], rest);
    StreamedSplit(CustomParts(here), [Values(output)]);
    StreamedCustom(here);
    assert here + [] == here;
  }

  lemma RunsAsStop(ids: Ids, n: nat, here: seq<AgentEvent>, output: Option<Output>)
    requires NumberedFrom(ids, here, n)
    ensures RunsAs(ids, n, Run(CustomParts(here) + [Values(output)], true), here, [])
  {
    assert CustomParts(here) + [Values(output)] + [] == CustomParts(here) + [Values(output)];
    assert here + [] == here;
    RunsAsPrepend(ids, n, here, output, Run([], true), [], []);
  }

  lemma StepKeepsStatus(s: GraphState, node: Node, b: Behaviour, maximumSteps: nat)
    requires Guardable(b) && node != InitializeRequest && node != FinalizeExecution && StatusInvariant(s, node)
    ensures var s' := Apply(s, StepUpdate(s, node, b, maximumSteps)); var next := NextNode(node, s');
            && s'.ids == s.ids
            && (next.Some? ==> StatusInvariant(s', next.value) && next.value != InitializeRequest)
  {
    hide AppendEvents, GuardedEvents;
  }

  lemma {:induction false} RunNumbered(s: GraphState, node: Node, plan: Node -> Behaviour, maximumSteps: nat, n: nat)
    returns (events: seq<AgentEvent>, tail: seq<Item>)
    requires forall b :: Guardable(plan(b))
    requires node != InitializeRequest && EndsAt(s.history, n) && n > 0 && StatusInvariant(s, node)
    ensures RunsAs(s.ids, n, RunFrom(s, node, plan, maximumSteps), events, tail)
    decreases Rank(node)
  {
    hide RunsAs, NumberedFrom, AppendEvents, EndsAt, StepEvents, StepUpdate, Apply, StatusInvariant;
    if node == FinalizeExecution {
      LastNumber(s.history, n);
      tail := FinalRuns(s, plan, maximumSteps, n);
      events := [];
    } else {
      StepNumbered(s, node, plan(node), maximumSteps, n);
      StepKeepsStatus(s, node, plan(node), maximumSteps);
      var here := StepEvents(s, node, plan(node), maximumSteps);
      var s' := Apply(s, StepUpdate(s, node, plan(node), maximumSteps));
      var next := NextNode(node, s');
      if next.None? {
        RunsAsStop(s.ids, n, here, s'.output);
        events, tail := here, [];
      } else {
        var later, end := RunNumbered(s', next.value, plan, maximumSteps, n + |here|);
        RunsAsPrepend(s.ids, n, here, s'.output, RunFrom(s', next.value, plan, maximumSteps), later, end);
        events, tail := here + later, end;
      }
    }
  }

  lemma LastNumber(history: seq<AgentEvent>, n: nat)
    requires EndsAt(history, n)
    ensures NextSequence(history) == n
  {
  }

  /** Across a whole run, on any thread and with any node behaviour, including raising nodes, a
      tripped step budget and a truncated history: the events streamed are numbered 0, 1, 2, ...;
      the runtime filter drops none of them; at most one is terminal, the last one streamed; and
      unless the run raised, exactly one is, followed by the output it announces. */
  lemma GraphRunNumbered(thread: GraphState, plan: Node -> Behaviour, maximumSteps: nat)
    returns (events: seq<AgentEvent>, tail: seq<Item>)
    requires forall b :: Guardable(plan(b))
    ensures RunsAs(thread.ids, 0, GraphRun(thread, plan, maximumSteps), events, tail)
  {
    hide RunFrom, RunsAs, InitializeEvents, InitializeUpdate, Apply, Filtered, Streamed, Closing;
    var s := thread.(history := AppendEvents(thread.history, []));
    var first := InitializeEvents(s.ids);
    var s1 := Apply(s, InitializeUpdate(s));
    InitialStep(s, plan, maximumSteps);
    var later, end := RunNumbered(s1, ValidateRequest, plan, maximumSteps, 2);
    var rest := RunFrom(s1, ValidateRequest, plan, maximumSteps);
    RunsAsPrepend(s.ids, 0, first, s1.output, rest, later, end);
    events, tail := first + later, end;
    StatePartFirst(s.ids, s.output, RunFrom(s, InitializeRequest, plan, maximumSteps), events, tail);
  }

  lemma InitialStep(s: GraphState, plan: Node -> Behaviour, maximumSteps: nat)
    requires s.history == []
    ensures var first, s1 := InitializeEvents(s.ids), Apply(s, InitializeUpdate(s));
            && s1.ids == s.ids && EndsAt(s1.history, 2) && |first| == 2 && NumberedFrom(s.ids, first, 0)
            && StatusInvariant(s1, ValidateRequest)
            && (var rest := RunFrom(s1, ValidateRequest, plan, maximumSteps);
                RunFrom(s, InitializeRequest, plan, maximumSteps)
                == Run(CustomParts(first) + [Values(s1.output)] + rest.parts, rest.raised))
  {
    assert Apply(s, InitializeUpdate(s)).history == InitializeEvents(s.ids);
  }

  lemma StatePartFirst(ids: Ids, output: Option<Output>, run: Run, events: seq<AgentEvent>, tail: seq<Item>)
    requires RunsAs(ids, 0, run, events, tail)
    ensures RunsAs(ids, 0, Run([Values(output)] + run.parts, run.raised), events, tail)
  {
    FilterCons(ids, FILTER_START, Values(output), run.parts);
    assert ([Values(output)] + run.parts)[1..] == run.parts;
    assert [] + Filtered(ids, FILTER_START, run.parts) == Filtered(ids, FILTER_START, run.parts);
    assert [] + Streamed(run.parts) == Streamed(run.parts);
  }

  // ---- How nodes are wired ---------------------------------------------------------------------

  /** History keeps the longest end of at most 200 events. */
  lemma RetainedMeans(events: seq<AgentEvent>)
    ensures var kept := LastRetained(events);
            && |kept| == (if |events| <= 200 then |events| else 200)
            && kept == events[|events| - |kept|..]
  {
  }

  /** The events of a guarded node: one for each emission, in order, and after a raise one more that reports the
      failure unless an emission already did. */
  lemma GuardedMeans(s: GraphState, node: Node, b: Behaviour)
    ensures var events, n, k := GuardedEvents(s, node, b), NextSequence(s.history), |b.emissions|;
            var silent := b.raises && forall i :: 0 <= i < k ==> b.emissions[i].status != Faulted;
            && |events| == (if silent then k + 1 else k)
            && (forall i :: 0 <= i < k ==>
                  var Emission(name, status) := b.emissions[i];
                  events[i] == AgentEvent(Activity(name), n + i, s.ids, Some(node), status))
            && (silent ==> events[k] == AgentEvent(Activity(FailureName(node)), n + k, s.ids, Some(node), Faulted))
  {
    hide FailureName, Emitted, NextSequence, ReportsFailure;
    EmittedEvents(s.ids, node, NextSequence(s.history), b.emissions);
    ReportMeans(s.ids, node, NextSequence(s.history), b.emissions);
  }

  lemma ReportMeans(ids: Ids, node: Node, n: nat, emissions: seq<Emission>)
    ensures ReportsFailure(node, Emitted(ids, node, n, emissions)) <==>
            exists i :: 0 <= i < |emissions| && emissions[i].status == Faulted
  {
    EmittedEvents(ids, node, n, emissions);
    var events := Emitted(ids, node, n, emissions);
    hide Emitted;
    assert forall i :: 0 <= i < |events| ==> events[i] in events;
  }

  lemma {:induction false} EmittedEvents(ids: Ids, node: Node, n: nat, emissions: seq<Emission>)
    ensures var events := Emitted(ids, node, n, emissions);
            |events| == |emissions| && forall i :: 0 <= i < |events| ==>
              events[i] == AgentEvent(Activity(emissions[i].name), n + i, ids, Some(node), emissions[i].status)
    decreases |emissions|
  {
    if emissions != [] { EmittedEvents(ids, node, n, emissions[..|emissions| - 1]); }
  }

  /** The nodes that answer a request on each route, when none of them fails. */
  function RoutePath(route: Route): seq<Node> {
    match route
    case SimpleRetrieval =>
      [SimpleRetrievalNode, ValidateEvidence, GenerateResponse, ValidateCitations, PrepareOutput]
    case RecursiveResearch =>
      [CrossDocumentResearch, ValidateEvidence, GenerateResponse, ValidateCitations, PrepareOutput]
    case PythonAnalysis => [PythonAnalysisNode, GenerateResponse, ValidateCitations, PrepareOutput]
    case McpTool => [ExecuteMcpTool, PrepareOutput]
    case DirectResponse => [DirectResponseNode, PrepareOutput]
    case Deny => [DenyRequest, PrepareOutput]
    case FailureRoute => [HandleFailure]
    case HumanApproval => [UnsupportedNode, PrepareOutput]
    case Unsupported => [UnsupportedNode, PrepareOutput]
  }

  ghost predicate LeadsTo(a: Node, b: Node, s: GraphState) {
    a != FinalizeExecution && NextNode(a, s) == Some(b)
  }

  ghost predicate WiredAt(path: seq<Node>, s: GraphState, i: nat)
    requires 0 < i < |path|
  {
    LeadsTo(path[i - 1], path[i], s)
  }

  /** Each node hands over to the next of these. */
  ghost predicate Wired(path: seq<Node>, s: GraphState) {
    forall i :: 0 < i < |path| ==> WiredAt(path, s, i)
  }

  lemma WiredPair(a: Node, b: Node, rest: seq<Node>, s: GraphState)
    requires LeadsTo(a, b, s) && Wired([b] + rest, s)
    ensures Wired([a] + ([b] + rest), s)
  {
    hide LeadsTo;
    var path := [a] + ([b] + rest);
    forall i | 0 < i < |path|
      ensures WiredAt(path, s, i)
    {
      if i > 1 { assert WiredAt([b] + rest, s, i - 1); }
    }
  }

  lemma OneNode(a: Node, s: GraphState)
    ensures Wired([a] + [], s)
  {
  }

  lemma WiredThree(a: Node, b: Node, c: Node, s: GraphState)
    requires LeadsTo(a, b, s) && LeadsTo(b, c, s)
    ensures Wired([a, b, c], s)
  {
    OneNode(c, s);
    WiredPair(b, c, [], s);
    assert [b] + ([c] + []) == [b] + [c];
    WiredPair(a, b, [c], s);
    assert [a] + ([b] + [c]) == [a, b, c];
  }

  lemma WiredFront(a: Node, path: seq<Node>, s: GraphState)
    requires path != [] && LeadsTo(a, path[0], s) && Wired(path, s)
    ensures Wired([a] + path, s)
  {
    assert path == [path[0]] + path[1..];
    WiredPair(a, path[0], path[1..], s);
  }

  lemma OpeningIsWired(s: GraphState)
    requires !s.failure
    ensures Wired([InitializeRequest, ValidateRequest, LoadMemory, ResolveFollowup, ClassifyIntent, Supervisor], s)
  {
    hide Wired;
    WiredThree(ResolveFollowup, ClassifyIntent, Supervisor, s);
    WiredFront(LoadMemory, [ResolveFollowup, ClassifyIntent, Supervisor], s);
    WiredFront(ValidateRequest, [LoadMemory] + [ResolveFollowup, ClassifyIntent, Supervisor], s);
    var path := [ValidateRequest] + ([LoadMemory] + [ResolveFollowup, ClassifyIntent, Supervisor]);
    WiredFront(InitializeRequest, path, s);
    assert [InitializeRequest] + path ==
           [InitializeRequest, ValidateRequest, LoadMemory, ResolveFollowup, ClassifyIntent, Supervisor];
  }

  lemma RouteIsWired(s: GraphState)
    requires !s.failure && s.route.Some?
    ensures Wired([Supervisor] + RoutePath(s.route.value), s)
  {
    hide Wired;
    match s.route.value {
      case SimpleRetrieval => EvidenceRoute(SimpleRetrievalNode, s);
      case RecursiveResearch => EvidenceRoute(CrossDocumentResearch, s);
      case PythonAnalysis => AnswerRoute(PythonAnalysisNode, s);
      case FailureRoute =>
        OneNode(HandleFailure, s);
        assert [HandleFailure] + [] == RoutePath(FailureRoute);
        WiredFront(Supervisor, RoutePath(FailureRoute), s);
      case McpTool => ShortRoute(ExecuteMcpTool, s);
      case DirectResponse => ShortRoute(DirectResponseNode, s);
      case Deny => ShortRoute(DenyRequest, s);
      case HumanApproval => ShortRoute(UnsupportedNode, s);
      case Unsupported => ShortRoute(UnsupportedNode, s);
    }
  }

  lemma EvidenceRoute(node: Node, s: GraphState)
    requires !s.failure && LeadsTo(Supervisor, node, s) && LeadsTo(node, ValidateEvidence, s)
    ensures Wired([Supervisor] + [node, ValidateEvidence, GenerateResponse, ValidateCitations, PrepareOutput], s)
  {
    hide Wired;
    var answer := [GenerateResponse, ValidateCitations, PrepareOutput];
    assert LeadsTo(ValidateEvidence, GenerateResponse, s);
    WiredThree(GenerateResponse, ValidateCitations, PrepareOutput, s);
    hide LeadsTo;
    WiredFront(ValidateEvidence, answer, s);
    WiredFront(node, [ValidateEvidence] + answer, s);
    WiredFront(Supervisor, [node] + ([ValidateEvidence] + answer), s);
    assert [node] + ([ValidateEvidence] + answer) ==
           [node, ValidateEvidence, GenerateResponse, ValidateCitations, PrepareOutput];
  }

  lemma AnswerRoute(node: Node, s: GraphState)
    requires !s.failure && LeadsTo(Supervisor, node, s) && LeadsTo(node, GenerateResponse, s)
    ensures Wired([Supervisor] + [node, GenerateResponse, ValidateCitations, PrepareOutput], s)
  {
    hide Wired;
    var answer := [GenerateResponse, ValidateCitations, PrepareOutput];
    WiredThree(GenerateResponse, ValidateCitations, PrepareOutput, s);
    hide LeadsTo;
    WiredFront(node, answer, s);
    WiredFront(Supervisor, [node] + answer, s);
    assert [node] + answer == [node, GenerateResponse, ValidateCitations, PrepareOutput];
  }

  lemma ShortRoute(node: Node, s: GraphState)
    requires LeadsTo(Supervisor, node, s) && LeadsTo(node, PrepareOutput, s)
    ensures Wired([Supervisor] + [node, PrepareOutput], s)
  {
    hide Wired, LeadsTo;
    WiredThree(Supervisor, node, PrepareOutput, s);
    assert [Supervisor] + [node, PrepareOutput] == [Supervisor, node, PrepareOutput];
  }

  /** Without a failure a request goes through the same five nodes to the supervisor, then along the path of its
      route, and ends with the memory update; a failure leads from everywhere but the start to its handler, and
      from there to the end. */
  lemma RoutesAreWired(s: GraphState)
    ensures !s.failure ==>
              Wired([InitializeRequest, ValidateRequest, LoadMemory, ResolveFollowup, ClassifyIntent, Supervisor], s)
    ensures !s.failure && s.route.Some? ==> Wired([Supervisor] + RoutePath(s.route.value), s)
    ensures !s.failure ==> Wired([PrepareOutput, UpdateMemory, FinalizeExecution], s)
    ensures !s.failure && s.route.None? ==> NextNode(Supervisor, s) == None
    ensures LeadsTo(InitializeRequest, ValidateRequest, s) && LeadsTo(HandleFailure, FinalizeExecution, s)
    ensures s.failure ==> forall node :: node !in {InitializeRequest, HandleFailure, FinalizeExecution} ==>
              LeadsTo(node, HandleFailure, s)
  {
    hide Wired;
    if !s.failure {
      OpeningIsWired(s);
      if s.route.Some? { RouteIsWired(s); }
      WiredThree(PrepareOutput, UpdateMemory, FinalizeExecution, s);
    }
  }

  // ---- How a run closes ------------------------------------------------------------------------

  /** The last event a run streams and the output after it. */
  ghost predicate ClosesAs(ids: Ids, run: Run, status: RunStatus, route: Route) {
    var n := |run.parts|;
    && !run.raised && n >= 2 && run.parts[n - 1] == Values(Some(Output(ids, status, route)))
    && run.parts[n - 2].Custom? && run.parts[n - 2].event.Some?
    && var e := run.parts[n - 2].event.value;
    && e.ids == ids && e.node == Some(FinalizeExecution)
    && e.kind == (if status == Failed then ResponseFailed else ResponseCompleted)
    && e.status == (if status == Failed then Faulted else Completed)
  }

  lemma FinalClosesAs(s: GraphState, plan: Node -> Behaviour, maximumSteps: nat)
    requires s.route.Some?
    ensures var status := if s.status.None? || s.status == Some(Running) then RunCompleted else s.status.value;
            ClosesAs(s.ids, RunFrom(s, FinalizeExecution, plan, maximumSteps), status, s.route.value)
  {
    hide AppendEvents, NextSequence;
    FinalRun(s, plan, maximumSteps);
    hide RunFrom;
  }

  lemma ClosesLater(ids: Ids, here: seq<Part>, rest: Run, status: RunStatus, route: Route)
    requires ClosesAs(ids, rest, status, route)
    ensures ClosesAs(ids, Run(here + rest.parts, rest.raised), status, route)
  {
  }

  lemma StepRun(s: GraphState, node: Node, plan: Node -> Behaviour, maximumSteps: nat, next: Node)
    requires node != FinalizeExecution
    requires NextNode(node, Apply(s, StepUpdate(s, node, plan(node), maximumSteps))) == Some(next)
    ensures var s' := Apply(s, StepUpdate(s, node, plan(node), maximumSteps));
            var rest := RunFrom(s', next, plan, maximumSteps);
            var here := CustomParts(StepEvents(s, node, plan(node), maximumSteps)) + [Values(s'.output)];
            RunFrom(s, node, plan, maximumSteps) == Run(here + rest.parts, rest.raised)
  {
    hide Apply, StepUpdate, StepEvents, CustomParts, NextNode;
  }

  lemma HandlerCloses(s: GraphState, plan: Node -> Behaviour, maximumSteps: nat)
    ensures ClosesAs(s.ids, RunFrom(s, HandleFailure, plan, maximumSteps), Failed, FailureRoute)
  {
    hide AppendEvents, FailureEvents, RunFrom, CustomParts, ClosesAs;
    var s' := Apply(s, StepUpdate(s, HandleFailure, plan(HandleFailure), maximumSteps));
    StepRun(s, HandleFailure, plan, maximumSteps, FinalizeExecution);
    FinalClosesAs(s', plan, maximumSteps);
    ClosesLater(s.ids, CustomParts(StepEvents(s, HandleFailure, plan(HandleFailure), maximumSteps))
                       + [Values(s'.output)], RunFrom(s', FinalizeExecution, plan, maximumSteps), Failed, FailureRoute);
  }

  /** The node fails: the step budget is used up, it raises, or it leaves the failure flag set. */
  ghost predicate Fails(s: GraphState, b: Behaviour, maximumSteps: nat) {
    s.steps >= maximumSteps || b.raises || b.failure == Some(true) || (b.failure == None && s.failure)
  }

  /** A run in which a node fails closes with the failed response, status FAILED and route FAILURE, whatever the
      nodes would have done otherwise. */
  lemma FailureCloses(s: GraphState, node: Node, plan: Node -> Behaviour, maximumSteps: nat)
    requires node !in {InitializeRequest, HandleFailure, FinalizeExecution} && Fails(s, plan(node), maximumSteps)
    ensures ClosesAs(s.ids, RunFrom(s, node, plan, maximumSteps), Failed, FailureRoute)
  {
    hide AppendEvents, GuardedEvents, RunFrom, CustomParts, ClosesAs;
    var s' := Apply(s, StepUpdate(s, node, plan(node), maximumSteps));
    RoutesAreWired(s');
    assert s'.failure && s'.ids == s.ids;
    assert LeadsTo(node, HandleFailure, s');
    StepRun(s, node, plan, maximumSteps, HandleFailure);
    HandlerCloses(s', plan, maximumSteps);
    ClosesLater(s.ids, CustomParts(StepEvents(s, node, plan(node), maximumSteps)) + [Values(s'.output)],
                RunFrom(s', HandleFailure, plan, maximumSteps), Failed, FailureRoute);
  }

  /** The node neither fails nor selects the failure route. */
  ghost predicate Succeeds(b: Behaviour) {
    Guardable(b) && !b.raises && b.failure != Some(true) && b.route != Some(FailureRoute)
  }

  /** A run whose nodes all succeed within the step budget closes with the completed response and a status other
      than FAILED, unless no route was selected. */
  lemma {:induction false} SuccessCloses(s: GraphState, node: Node, plan: Node -> Behaviour, maximumSteps: nat)
    returns (status: RunStatus, route: Route)
    requires forall n :: Succeeds(plan(n))
    requires node != InitializeRequest && node != HandleFailure && s.steps + Rank(node) <= maximumSteps
    requires !s.failure && s.status != Some(Failed) && s.route != Some(FailureRoute)
    ensures status != Failed && route != FailureRoute
    ensures var run := RunFrom(s, node, plan, maximumSteps);
            run.raised || ClosesAs(s.ids, run, status, route)
    decreases Rank(node)
  {
    hide AppendEvents, GuardedEvents, RunFrom, CustomParts, ClosesAs;
    status, route := RunCompleted, Deny;
    if node == FinalizeExecution {
      if s.route.Some? {
        FinalClosesAs(s, plan, maximumSteps);
        status := if s.status.None? || s.status == Some(Running) then RunCompleted else s.status.value;
        route := s.route.value;
      } else {
        FinalRun(s, plan, maximumSteps);
      }
    } else {
      assert Succeeds(plan(node));
      var s' := Apply(s, StepUpdate(s, node, plan(node), maximumSteps));
      SuccessStep(s, node, plan, maximumSteps);
      var next := NextNode(node, s');
      if next.Some? {
        StepRun(s, node, plan, maximumSteps, next.value);
        status, route := SuccessCloses(s', next.value, plan, maximumSteps);
        var rest := RunFrom(s', next.value, plan, maximumSteps);
        if !rest.raised {
          ClosesLater(s.ids, CustomParts(StepEvents(s, node, plan(node), maximumSteps)) + [Values(s'.output)], rest,
                      status, route);
        }
      } else {
        StoppedRun(s, node, plan, maximumSteps);
      }
    }
  }

  lemma SuccessStep(s: GraphState, node: Node, plan: Node -> Behaviour, maximumSteps: nat)
    requires Succeeds(plan(node)) && s.steps + Rank(node) <= maximumSteps
    requires node !in {InitializeRequest, HandleFailure, FinalizeExecution}
    requires !s.failure && s.status != Some(Failed) && s.route != Some(FailureRoute)
    ensures var s' := Apply(s, StepUpdate(s, node, plan(node), maximumSteps)); var next := NextNode(node, s');
            && s'.ids == s.ids && !s'.failure && s'.status != Some(Failed) && s'.route != Some(FailureRoute)
            && s'.steps == s.steps + 1
            && (next.Some? ==> next.value != InitializeRequest && next.value != HandleFailure)
  {
    hide AppendEvents, GuardedEvents;
  }

  lemma StoppedRun(s: GraphState, node: Node, plan: Node -> Behaviour, maximumSteps: nat)
    requires node != FinalizeExecution
    requires NextNode(node, Apply(s, StepUpdate(s, node, plan(node), maximumSteps))) == None
    ensures RunFrom(s, node, plan, maximumSteps).raised
  {
    hide Apply, StepUpdate, StepEvents, CustomParts, NextNode;
  }

  /** From the start of a request on a thread without a failure and without the failure route: when all nodes
      succeed, thirteen steps are enough. */
  lemma GraphRunSucceeds(thread: GraphState, plan: Node -> Behaviour, maximumSteps: nat)
    returns (status: RunStatus, route: Route)
    requires (forall n :: Succeeds(plan(n))) && 13 <= maximumSteps
    requires !thread.failure && thread.route != Some(FailureRoute)
    ensures status != Failed && route != FailureRoute
    ensures var run := GraphRun(thread, plan, maximumSteps);
            run.raised || ClosesAs(thread.ids, run, status, route)
  {
    hide RunFrom, AppendEvents, ClosesAs, CustomParts;
    var s := thread.(history := AppendEvents(thread.history, []));
    var s1 := Apply(s, StepUpdate(s, InitializeRequest, plan(InitializeRequest), maximumSteps));
    StepRun(s, InitializeRequest, plan, maximumSteps, ValidateRequest);
    status, route := SuccessCloses(s1, ValidateRequest, plan, maximumSteps);
    var rest := RunFrom(s1, ValidateRequest, plan, maximumSteps);
    var first := StepEvents(s, InitializeRequest, plan(InitializeRequest), maximumSteps);
    var here := CustomParts(first) + [Values(s1.output)];
    if !rest.raised {
      ClosesLater(thread.ids, here, rest, status, route);
      ClosesLater(thread.ids, [Values(s.output)], RunFrom(s, InitializeRequest, plan, maximumSteps), status, route);
    }
  }
}
