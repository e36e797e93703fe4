/** The chat stream: the runtime filter over graph parts, the producer of public envelopes, and the
    frontend's contract validator, which must accept every stream the producer can emit. */
module StreamContract {

  import opened Prelude
  import opened ChatTypes

  // ---- The runtime filter ----------------------------------------------------------------------

  /** One part of the graph stream: a custom event (absent when it fails validation), or the state
      after a step (with the final output it carries, if any). */
  datatype Part = Custom(event: Option<AgentEvent>) | Values(output: Option<Output>) | Other

  datatype Item = EventItem(event: AgentEvent) | OutputItem(output: Output)

  datatype FilterState = FilterState(expected: nat, terminalSeen: bool, outputEmitted: bool)

  const FILTER_START := FilterState(0, false, false)

  function FilterStep(ids: Ids, f: FilterState, part: Part): (FilterState, seq<Item>) {
    match part
    case Custom(Some(e)) =>
      if f.terminalSeen || e.sequence != f.expected || e.ids != ids then (f, [])
      else (f.(expected := f.expected + 1, terminalSeen := TerminalKind(e.kind)), [EventItem(e)])
    case Values(Some(output)) =>
      if f.terminalSeen && !f.outputEmitted then (f.(outputEmitted := true), [OutputItem(output)]) else (f, [])
    case _ => (f, [])
  }

  function Filtered(ids: Ids, f: FilterState, parts: seq<Part>): seq<Item>
    decreases |parts|
  {
    if parts == [] then []
    else var (f', items) := FilterStep(ids, f, parts[0]); items + Filtered(ids, f', parts[1..])
  }

  /** `_astream_untraced`. */
  method RuntimeItems(ids: Ids, parts: seq<Part>) returns (items: seq<Item>)
    ensures items == Filtered(ids, FILTER_START, parts)
  {
    var expectedSequence, terminalSeen, outputEmitted := 0, false, false;
    items := [];
    for i := 0 to |parts|
      invariant items + Filtered(ids, FilterState(expectedSequence, terminalSeen, outputEmitted), parts[i..])
             == Filtered(ids, FILTER_START, parts)
    {
      FilterUnfold(ids, FilterState(expectedSequence, terminalSeen, outputEmitted), parts, i, items);
      hide Filtered;
      match parts[i] {
        case Custom(Some(e)) =>
          if !terminalSeen && e.sequence == expectedSequence && e.ids == ids {
            expectedSequence := expectedSequence + 1;
            terminalSeen := TerminalKind(e.kind);
            items := items + [EventItem(e)];
          }
        case Values(Some(output)) =>
          if terminalSeen && !outputEmitted {
            outputEmitted := true;
            items := items + [OutputItem(output)];
          }
        case _ =>
      }
    }
  }

  lemma FilterUnfold(ids: Ids, f: FilterState, parts: seq<Part>, i: nat, items: seq<Item>)
    requires i < |parts|
    ensures var step := FilterStep(ids, f, parts[i]);
            && items + Filtered(ids, f, parts[i..]) == (items + step.1) + Filtered(ids, step.0, parts[i + 1..])
            && (step.1 == [] ==> items + step.1 == items)
  {
    var step := FilterStep(ids, f, parts[i]);
    assert parts[i..][1..] == parts[i + 1..];
    assert items + (step.1 + Filtered(ids, step.0, parts[i + 1..])) ==
           (items + step.1) + Filtered(ids, step.0, parts[i + 1..]);
  }

  predicate TerminalItem(item: Item) {
    item.EventItem? && TerminalKind(item.event.kind)
  }

  /** Nothing comes after the item at `k` but at most one output. */
  predicate EndsBefore(items: seq<Item>, k: nat)
    requires k < |items|
  {
    k == |items| - 1 || (k == |items| - 2 && items[k + 1].OutputItem?)
  }

  /** The item at `k` is the last and comes after a terminal event, or at the start when one was seen before. */
  predicate EndsAt(items: seq<Item>, k: nat, terminalSeen: bool)
    requires k < |items|
  {
    k == |items| - 1 && if k == 0 then terminalSeen else TerminalItem(items[k - 1])
  }

  /** What may leave the filter from state `f` on: events of the request numbered on from the next expected
      number, nothing but at most one output after a terminal event, and no output before it. */
  ghost predicate FilterOutput(ids: Ids, f: FilterState, items: seq<Item>) {
    && (forall k :: 0 <= k < |items| && items[k].EventItem? ==>
          !f.terminalSeen && items[k].event.sequence == f.expected + k && items[k].event.ids == ids)
    && (forall k :: 0 <= k < |items| && items[k].OutputItem? ==> !f.outputEmitted && EndsAt(items, k, f.terminalSeen))
    && (forall k :: 0 <= k < |items| && TerminalItem(items[k]) ==> EndsBefore(items, k))
  }

  lemma {:induction false} FilteredFrom(ids: Ids, f: FilterState, parts: seq<Part>)
    ensures FilterOutput(ids, f, Filtered(ids, f, parts))
    decreases |parts|
  {
    hide TerminalKind;
    if parts != [] {
      var (f', step) := FilterStep(ids, f, parts[0]);
      var rest := Filtered(ids, f', parts[1..]);
      FilteredFrom(ids, f', parts[1..]);
      assert [] + rest == rest;
      hide Filtered, FilterOutput;
      if step != [] {
        assert Filtered(ids, f, parts) == [step[0]] + rest;
        PutFirst(ids, f, f', step[0], rest);
      }
    }
  }

  lemma PutFirst(ids: Ids, f: FilterState, f': FilterState, item: Item, rest: seq<Item>)
    requires FilterOutput(ids, f', rest)
    requires match item
             case EventItem(e) =>
               && !f.terminalSeen && e.sequence == f.expected && e.ids == ids
               && f' == f.(expected := f.expected + 1, terminalSeen := TerminalKind(e.kind))
             case OutputItem(_) => f.terminalSeen && !f.outputEmitted && f' == f.(outputEmitted := true)
    ensures FilterOutput(ids, f, [item] + rest)
  {
    hide TerminalKind;
    var items := [item] + rest;
    assert items[0] == item && forall k :: 0 < k < |items| ==> items[k] == rest[k - 1];
    if rest != [] {
      assert rest[0].EventItem? ==> !f'.terminalSeen;
      assert rest[0].OutputItem? ==> |rest| == 1 && !f'.outputEmitted;
      assert items[1] == rest[0];
    }
    forall k | 0 <= k < |items| && TerminalItem(items[k])
      ensures EndsBefore(items, k)
    {
      if k > 0 { assert EndsBefore(rest, k - 1); }
    }
    forall k | 0 <= k < |items| && items[k].OutputItem?
      ensures !f.outputEmitted && EndsAt(items, k, f.terminalSeen)
    {
      if k > 0 { assert EndsAt(rest, k - 1, f'.terminalSeen); }
    }
  }

  /** Whatever the graph streams, the items that pass carry the request's ids, their events are numbered
      0, 1, 2, ..., and one output may pass, which comes last and directly after the one terminal event. */
  lemma FilteredShape(ids: Ids, parts: seq<Part>)
    ensures var items := Filtered(ids, FILTER_START, parts);
            && (forall k :: 0 <= k < |items| && items[k].EventItem? ==>
                  items[k].event.sequence == k && items[k].event.ids == ids)
            && (forall k :: 0 <= k < |items| && items[k].OutputItem? ==> EndsAt(items, k, false))
            && (forall k :: 0 <= k < |items| && TerminalItem(items[k]) ==> EndsBefore(items, k))
  {
    hide Filtered, TerminalItem, EndsAt, EndsBefore;
    FilteredFrom(ids, FILTER_START, parts);
  }

  // ---- The producer ----------------------------------------------------------------------------

  /** What the producer's wait loop meets: a ping timeout, or the next stream item. */
  datatype Tick = Ping | Next(item: Item)

  datatype Ending = Exhausted | Raised

  datatype Wire = Keepalive | Sent(envelope: Envelope)

  function Envelopes(wire: seq<Wire>): seq<Envelope> {
    if wire == [] then []
    else Envelopes(wire[..|wire| - 1]) + (if wire[|wire| - 1].Sent? then [wire[|wire| - 1].envelope] else [])
  }

  function Message(ids: Ids, uuid: nat -> nat, sequence: nat, kind: EnvelopeKind,
                   event: Option<AgentEvent>, response: Option<Output>, hasError: bool): Envelope {
    Envelope(uuid(sequence), sequence, ids, kind, event, response, hasError)
  }

  function FirstEnvelope(ids: Ids, uuid: nat -> nat): Envelope {
    Message(ids, uuid, 0, StreamStarted, None, None, false)
  }

  function ErrorEnvelope(ids: Ids, uuid: nat -> nat, sequence: nat): Envelope {
    Message(ids, uuid, sequence, StreamError, None, None, true)
  }

  function FinalEnvelope(ids: Ids, uuid: nat -> nat, sequence: nat, terminal: Option<AgentEvent>,
                         output: Output): Envelope {
    var kind := if terminal.Some? then terminal.value.kind else ResponseCompleted;
    Message(ids, uuid, sequence, Agent(kind), terminal, Some(output), false)
  }

  /** The envelopes sent for the rest of a run, from sequence number `n` on. */
  function Produced(ids: Ids, uuid: nat -> nat, n: nat, terminal: Option<AgentEvent>, script: seq<Tick>): seq<Envelope>
    decreases |script|
  {
    if script == [] then [ErrorEnvelope(ids, uuid, n)]
    else match script[0]
      case Ping => Produced(ids, uuid, n, terminal, script[1..])
      case Next(OutputItem(output)) => [FinalEnvelope(ids, uuid, n, terminal, output)]
      case Next(EventItem(e)) =>
        if TerminalKind(e.kind) then Produced(ids, uuid, n, Some(e), script[1..])
        else [Message(ids, uuid, n, Agent(e.kind), Some(e), None, false)]
             + Produced(ids, uuid, n + 1, terminal, script[1..])
  }

  /** The whole stream of one request. */
  function Stream(ids: Ids, uuid: nat -> nat, script: seq<Tick>): seq<Envelope> {
    [FirstEnvelope(ids, uuid)] + Produced(ids, uuid, 1, None, script)
  }

  lemma EnvelopesAppend(wire: seq<Wire>, w: Wire)
    ensures Envelopes(wire + [w]) == Envelopes(wire) + (if w.Sent? then [w.envelope] else [])
  {
    assert (wire + [w])[..|wire + [w]| - 1] == wire;
  }

  lemma ProducedUnfold(ids: Ids, uuid: nat -> nat, n: nat, terminal: Option<AgentEvent>, script: seq<Tick>, i: nat,
                       sent: seq<Envelope>)
    requires i < |script|
    ensures var rest, tick := script[i + 1..], script[i];
            var here := Produced(ids, uuid, n, terminal, script[i..]);
            && (tick.Ping? ==> here == Produced(ids, uuid, n, terminal, rest))
            && (tick.Next? && tick.item.OutputItem? ==>
                  here == [FinalEnvelope(ids, uuid, n, terminal, tick.item.output)])
            && (tick.Next? && tick.item.EventItem? ==>
                  var e := tick.item.event;
                  if TerminalKind(e.kind) then here == Produced(ids, uuid, n, Some(e), rest)
                  else sent + here == (sent + [Message(ids, uuid, n, Agent(e.kind), Some(e), None, false)])
                                      + Produced(ids, uuid, n + 1, terminal, rest))
  {
    hide Message, FinalEnvelope;
    assert script[i..][1..] == script[i + 1..];
    if script[i].Next? && script[i].item.EventItem? {
      var e := script[i].item.event;
      var message := Message(ids, uuid, n, Agent(e.kind), Some(e), None, false);
      var tail := Produced(ids, uuid, n + 1, terminal, script[i + 1..]);
      assert sent + ([message] + tail) == (sent + [message]) + tail;
    }
  }

  lemma ProducedEnd(ids: Ids, uuid: nat -> nat, n: nat, terminal: Option<AgentEvent>)
    ensures Produced(ids, uuid, n, terminal, []) == [ErrorEnvelope(ids, uuid, n)]
  {
  }

  lemma StreamStart(ids: Ids, uuid: nat -> nat, script: seq<Tick>)
    ensures Envelopes([Sent(FirstEnvelope(ids, uuid))]) + Produced(ids, uuid, 1, None, script[0..]) ==
            Stream(ids, uuid, script)
  {
    hide FirstEnvelope, Produced;
    EnvelopesAppend([], Sent(FirstEnvelope(ids, uuid)));
    assert [] + [Sent(FirstEnvelope(ids, uuid))] == [Sent(FirstEnvelope(ids, uuid))];
    assert script[0..] == script;
  }

  // ---- What the stream delivers ----------------------------------------------------------------

  /** The stream items of a script, without the ping timeouts. */
  function ItemsOf(script: seq<Tick>): seq<Item> {
    if script == [] then []
    else (if script[0].Next? then [script[0].item] else []) + ItemsOf(script[1..])
  }

  /** Ping timeouts leave no item behind. */
  lemma ItemsUnfold(script: seq<Tick>)
    requires script != []
    ensures script[0].Ping? ==> ItemsOf(script) == ItemsOf(script[1..])
    ensures script[0].Next? ==> ItemsOf(script) == [script[0].item] + ItemsOf(script[1..])
  {
    assert [] + ItemsOf(script[1..]) == ItemsOf(script[1..]);
  }

  /** The position of the first output among the items, or their number when there is none. */
  function FirstOutput(items: seq<Item>): (k: nat)
    ensures k <= |items| && (k < |items| ==> items[k].OutputItem?)
    ensures forall j :: 0 <= j < k ==> items[j].EventItem?
  {
    if items == [] || items[0].OutputItem? then 0 else 1 + FirstOutput(items[1..])
  }

  /** The events that are no response events, in order. */
  function Activities(items: seq<Item>): seq<AgentEvent> {
    if items == [] then []
    else (if items[0].EventItem? && items[0].event.kind.Activity? then [items[0].event] else [])
         + Activities(items[1..])
  }

  /** The event is the last response event among the items, and `start` when there is none. */
  ghost predicate LastResponseEvent(start: Option<AgentEvent>, items: seq<Item>, event: Option<AgentEvent>) {
    || (event == start && forall i :: 0 <= i < |items| && items[i].EventItem? ==> items[i].event.kind.Activity?)
    || exists j :: LastResponseAt(items, event, j)
  }

  ghost predicate LastResponseAt(items: seq<Item>, event: Option<AgentEvent>, j: int) {
    && 0 <= j < |items| && items[j].EventItem? && event == Some(items[j].event) && !items[j].event.kind.Activity?
    && forall i :: j < i < |items| && items[i].EventItem? ==> items[i].event.kind.Activity?
  }

  predicate CarriesEvent(sent: Envelope, event: AgentEvent) {
    sent.kind == Agent(event.kind) && sent.event == Some(event) && sent.response.None? && !sent.hasError
  }

  /** An error without event and response when there is no output, and otherwise the output with the last
      response event before it, whose kind it takes. */
  ghost predicate ClosesWith(start: Option<AgentEvent>, items: seq<Item>, last: Envelope) {
    var k := FirstOutput(items);
    if k == |items| then last.kind == StreamError && last.event.None? && last.response.None? && last.hasError
    else
      && last.response == Some(items[k].output) && !last.hasError
      && LastResponseEvent(start, items[..k], last.event)
      && last.kind == Agent(if last.event.Some? then last.event.value.kind else ResponseCompleted)
  }

  /** One envelope for each activity before the first output, in order, and a closing one. */
  ghost predicate DeliversFrom(start: Option<AgentEvent>, items: seq<Item>, sent: seq<Envelope>) {
    var activities := Activities(items[..FirstOutput(items)]);
    && |sent| == |activities| + 1
    && (forall j :: 0 <= j < |activities| ==> CarriesEvent(sent[j], activities[j]))
    && ClosesWith(start, items, sent[|activities|])
  }

  /** A bare opening envelope, then the activities before the first output, and the closing envelope; all with
      the ids of the request, numbered from 0, each with an id of its own. */
  ghost predicate Delivers(ids: Ids, uuid: nat -> nat, items: seq<Item>, sent: seq<Envelope>) {
    && sent != [] && sent[0].kind == StreamStarted
    && sent[0].event.None? && sent[0].response.None? && !sent[0].hasError
    && DeliversFrom(None, items, sent[1..])
    && forall k :: 0 <= k < |sent| ==> sent[k].sequence == k && sent[k].eventId == uuid(k) && sent[k].ids == ids
  }

  lemma ItemFirst(start: Option<AgentEvent>, item: Item, rest: seq<Item>)
    requires item.EventItem?
    ensures var items := [item] + rest;
            && FirstOutput(items) == FirstOutput(rest) + 1
            && items[..FirstOutput(items)] == [item] + rest[..FirstOutput(rest)]
            && Activities(items[..FirstOutput(items)]) ==
                 (if item.event.kind.Activity? then [item.event] else []) + Activities(rest[..FirstOutput(rest)])
  {
    var items := [item] + rest;
    assert items[1..] == rest;
    var before, short := items[..FirstOutput(items)], rest[..FirstOutput(rest)];
    assert before == [item] + short && before[1..] == short;
  }

  lemma ResponseEventFirst(start: Option<AgentEvent>, item: Item, rest: seq<Item>, event: Option<AgentEvent>)
    requires item.EventItem?
    requires LastResponseEvent(if item.event.kind.Activity? then start else Some(item.event), rest, event)
    ensures LastResponseEvent(start, [item] + rest, event)
  {
    var items := [item] + rest;
    assert items[0] == item && forall i :: 0 < i < |items| ==> items[i] == rest[i - 1];
    if j :| LastResponseAt(rest, event, j) {
      assert LastResponseAt(items, event, j + 1);
    } else if !item.event.kind.Activity? {
      assert LastResponseAt(items, event, 0);
    }
  }

  lemma ClosesFirst(start: Option<AgentEvent>, item: Item, rest: seq<Item>, last: Envelope)
    requires item.EventItem?
    requires ClosesWith(if item.event.kind.Activity? then start else Some(item.event), rest, last)
    ensures ClosesWith(start, [item] + rest, last)
  {
    hide LastResponseEvent, FirstOutput, Activities;
    ItemFirst(start, item, rest);
    var k := FirstOutput(rest);
    if k < |rest| { ResponseEventFirst(start, item, rest[..k], last.event); }
  }

  lemma ActivityDelivered(start: Option<AgentEvent>, e: AgentEvent, rest: seq<Item>, first: Envelope,
                          sent: seq<Envelope>)
    requires e.kind.Activity? && CarriesEvent(first, e) && DeliversFrom(start, rest, sent)
    ensures DeliversFrom(start, [EventItem(e)] + rest, [first] + sent)
  {
    hide ClosesWith, FirstOutput, Activities, CarriesEvent;
    ItemFirst(start, EventItem(e), rest);
    ClosesFirst(start, EventItem(e), rest, sent[|sent| - 1]);
  }

  lemma ResponseDelivered(start: Option<AgentEvent>, e: AgentEvent, rest: seq<Item>, sent: seq<Envelope>)
    requires !e.kind.Activity? && DeliversFrom(Some(e), rest, sent)
    ensures DeliversFrom(start, [EventItem(e)] + rest, sent)
  {
    hide ClosesWith, FirstOutput, Activities, CarriesEvent;
    ItemFirst(start, EventItem(e), rest);
    ClosesFirst(start, EventItem(e), rest, sent[|sent| - 1]);
    assert [] + Activities(rest[..FirstOutput(rest)]) == Activities(rest[..FirstOutput(rest)]);
  }

  lemma {:induction false} ProducedDelivers(ids: Ids, uuid: nat -> nat, n: nat, terminal: Option<AgentEvent>,
                                            script: seq<Tick>)
    ensures DeliversFrom(terminal, ItemsOf(script), Produced(ids, uuid, n, terminal, script))
    decreases |script|
  {
    hide DeliversFrom, ItemsOf;
    if script == [] {
      NothingDelivered(ids, uuid, n, terminal);
    } else {
      ItemsUnfold(script);
      match script[0] {
        case Ping => ProducedDelivers(ids, uuid, n, terminal, script[1..]);
        case Next(OutputItem(output)) => OutputDelivered(ids, uuid, n, terminal, output, ItemsOf(script[1..]));
        case Next(EventItem(e)) =>
          if TerminalKind(e.kind) {
            ProducedDelivers(ids, uuid, n, Some(e), script[1..]);
            ResponseDelivered(terminal, e, ItemsOf(script[1..]), Produced(ids, uuid, n, Some(e), script[1..]));
          } else {
            ProducedDelivers(ids, uuid, n + 1, terminal, script[1..]);
            var message := Message(ids, uuid, n, Agent(e.kind), Some(e), None, false);
            ActivityDelivered(terminal, e, ItemsOf(script[1..]), message,
                              Produced(ids, uuid, n + 1, terminal, script[1..]));
          }
      }
    }
  }

  lemma NothingDelivered(ids: Ids, uuid: nat -> nat, n: nat, terminal: Option<AgentEvent>)
    ensures DeliversFrom(terminal, ItemsOf([]), [ErrorEnvelope(ids, uuid, n)])
  {
  }

  lemma OutputDelivered(ids: Ids, uuid: nat -> nat, n: nat, terminal: Option<AgentEvent>, output: Output,
                        rest: seq<Item>)
    ensures DeliversFrom(terminal, [OutputItem(output)] + rest, [FinalEnvelope(ids, uuid, n, terminal, output)])
  {
    var items := [OutputItem(output)] + rest;
    assert FirstOutput(items) == 0 && items[..0] == [];
    assert LastResponseEvent(terminal, [], terminal);
  }

  lemma {:induction false} ProducedNumbered(ids: Ids, uuid: nat -> nat, n: nat, terminal: Option<AgentEvent>,
                                            script: seq<Tick>)
    ensures forall k :: 0 <= k < |Produced(ids, uuid, n, terminal, script)| ==>
              var e := Produced(ids, uuid, n, terminal, script)[k];
              e.sequence == n + k && e.eventId == uuid(n + k) && e.ids == ids
    decreases |script|
  {
    if script != [] {
      match script[0] {
        case Ping => ProducedNumbered(ids, uuid, n, terminal, script[1..]);
        case Next(OutputItem(output)) =>
        case Next(EventItem(e)) =>
          if TerminalKind(e.kind) {
            ProducedNumbered(ids, uuid, n, Some(e), script[1..]);
          } else {
            ProducedNumbered(ids, uuid, n + 1, terminal, script[1..]);
          }
      }
    }
  }

  /** For every script the stream delivers exactly its activities before the first output, that output with the
      last response event before it, or an error when there is no output. */
  lemma StreamDelivers(ids: Ids, uuid: nat -> nat, script: seq<Tick>)
    ensures Delivers(ids, uuid, ItemsOf(script), Stream(ids, uuid, script))
  {
    hide Produced, ItemsOf, DeliversFrom;
    ProducedDelivers(ids, uuid, 1, None, script);
    ProducedNumbered(ids, uuid, 1, None, script);
    assert Stream(ids, uuid, script)[1..] == Produced(ids, uuid, 1, None, script);
  }

  /** The ping timeouts before the first output. */
  function Pings(script: seq<Tick>): nat {
    if script == [] then 0
    else match script[0]
      case Ping => 1 + Pings(script[1..])
      case Next(OutputItem(_)) => 0
      case Next(EventItem(_)) => Pings(script[1..])
  }

  function Keepalives(wire: seq<Wire>): nat {
    if wire == [] then 0
    else Keepalives(wire[..|wire| - 1]) + if wire[|wire| - 1].Keepalive? then 1 else 0
  }

  lemma KeepalivesAppend(wire: seq<Wire>, w: Wire)
    ensures Keepalives(wire + [w]) == Keepalives(wire) + if w.Keepalive? then 1 else 0
  {
    assert (wire + [w])[..|wire + [w]| - 1] == wire;
  }

  lemma NoKeepalive(first: Envelope)
    ensures Keepalives([Sent(first)]) == 0
  {
    assert [Sent(first)][..0] == [];
  }

  /** A non-cancelled run of `chat_event_stream`; `uuid` is the supply of envelope ids and
      `script` what the graph iterator and the ping timer deliver before the iterator ends,
      normally or by raising. */
  method ChatEventStream(ids: Ids, uuid: nat -> nat, script: seq<Tick>, ending: Ending) returns (wire: seq<Wire>)
    ensures Envelopes(wire) == Stream(ids, uuid, script)
    ensures Delivers(ids, uuid, ItemsOf(script), Envelopes(wire)) && Keepalives(wire) == Pings(script)
  {
    hide FinalEnvelope, ErrorEnvelope, Message, FirstEnvelope, TerminalKind, Envelopes, Produced, Stream, Delivers,
         Keepalives;
    wire := [Sent(FirstEnvelope(ids, uuid))];
    StreamStart(ids, uuid, script);
    StreamDelivers(ids, uuid, script);
    NoKeepalive(FirstEnvelope(ids, uuid));
    assert script[0..] == script;
    var sequence := 1;
    var terminalEvent: Option<AgentEvent> := None;
    var position := 0;
    while position < |script|
      invariant position <= |script|
      invariant Envelopes(wire) + Produced(ids, uuid, sequence, terminalEvent, script[position..])
             == Stream(ids, uuid, script)
      invariant Keepalives(wire) + Pings(script[position..]) == Pings(script)
    {
      var tick := script[position];
      assert script[position..][1..] == script[position + 1..];
      ProducedUnfold(ids, uuid, sequence, terminalEvent, script, position, Envelopes(wire));
      position := position + 1;
      match tick {
        case Ping =>
          EnvelopesAppend(wire, Keepalive);
          KeepalivesAppend(wire, Keepalive);
          assert Envelopes(wire) + [] == Envelopes(wire);
          wire := wire + [Keepalive];
        case Next(EventItem(e)) =>
          if TerminalKind(e.kind) {
            terminalEvent := Some(e);
          } else {
            var message := Message(ids, uuid, sequence, Agent(e.kind), Some(e), None, false);
            EnvelopesAppend(wire, Sent(message));
            KeepalivesAppend(wire, Sent(message));
            wire := wire + [Sent(message)];
            sequence := sequence + 1;
          }
        case Next(OutputItem(output)) =>
          var last := FinalEnvelope(ids, uuid, sequence, terminalEvent, output);
          EnvelopesAppend(wire, Sent(last));
          KeepalivesAppend(wire, Sent(last));
          wire := wire + [Sent(last)];
          return;
      }
    }
    // An iterator that ends without an output and one that raises get the same public envelope.
    EnvelopesAppend(wire, Sent(ErrorEnvelope(ids, uuid, sequence)));
    KeepalivesAppend(wire, Sent(ErrorEnvelope(ids, uuid, sequence)));
    assert script[position..] == [];
    ProducedEnd(ids, uuid, sequence, terminalEvent);
    match ending {
      case Exhausted => wire := wire + [Sent(ErrorEnvelope(ids, uuid, sequence))];
      case Raised => wire := wire + [Sent(ErrorEnvelope(ids, uuid, sequence))];
    }
  }

  // ---- The validator ---------------------------------------------------------------------------

  datatype Contract = Contract(expected: nat, seen: set<nat>, ids: Option<Ids>, terminal: Option<EnvelopeKind>)

  const CONTRACT_START := Contract(0, {}, None, None)

  datatype Checked = Checked(contract: Contract, rejected: bool)

  predicate EventAgrees(e: Envelope) {
    e.event.Some? ==> Agent(e.event.value.kind) == e.kind && e.event.value.ids == e.ids
  }

  predicate ResponseAgrees(e: Envelope) {
    e.response.Some? ==> e.response.value.ids == e.ids
  }

  predicate FailureConsistent(output: Output) {
    output.status == Failed && output.route == FailureRoute
  }

  /** The checks made on a terminal envelope after it was recorded. */
  predicate TerminalComplete(e: Envelope) {
    && (e.kind == Agent(ResponseCompleted) ==> e.response.Some?)
    && (e.kind == Agent(ResponseFailed) ==> e.response.Some? && FailureConsistent(e.response.value))
    && (e.kind == StreamError ==> e.hasError)
  }

  function Accepting(c: Contract, e: Envelope): Checked {
    if c.terminal.Some? || e.sequence != c.expected || e.eventId in c.seen then Checked(c, true)
    else
      var counted := c.(expected := c.expected + 1, seen := c.seen + {e.eventId});
      if counted.ids.Some? && counted.ids.value != e.ids then Checked(counted, true)
      else
        var known := counted.(ids := Some(e.ids));
        if !EventAgrees(e) || !ResponseAgrees(e) then Checked(known, true)
        else if !Terminal(e.kind) then Checked(known, false)
        else Checked(known.(terminal := Some(e.kind)), !TerminalComplete(e))
  }

  function AcceptAll(c: Contract, sent: seq<Envelope>): Checked
    decreases |sent|
  {
    if sent == [] then Checked(c, false)
    else
      var first := Accepting(c, sent[0]);
      if first.rejected then first else AcceptAll(first.contract, sent[1..])
  }

  /** Accepted envelope by envelope and then by `finish`. */
  predicate Accepts(sent: seq<Envelope>) {
    var checked := AcceptAll(CONTRACT_START, sent);
    !checked.rejected && checked.contract.terminal.Some?
  }

  class StreamContractValidator {
    var expectedSequence: nat
    var eventIds: set<nat>
    var ids: Option<Ids>
    var terminalEvent: Option<EnvelopeKind>

    function State(): Contract
      reads this
    {
      Contract(expectedSequence, eventIds, ids, terminalEvent)
    }

    constructor ()
      ensures State() == CONTRACT_START
    {
      expectedSequence, eventIds, ids, terminalEvent := 0, {}, None, None;
    }

    method Accept(e: Envelope) returns (rejected: bool)
      modifies this
      ensures Checked(State(), rejected) == Accepting(old(State()), e)
    {
      if terminalEvent.Some? { return true; }
      if e.sequence != expectedSequence || e.eventId in eventIds { return true; }
      expectedSequence := expectedSequence + 1;
      eventIds := eventIds + {e.eventId};
      if ids.None? {
        ids := Some(e.ids);
      } else if e.ids != ids.value {
        return true;
      }
      if !EventAgrees(e) || !ResponseAgrees(e) { return true; }
      if Terminal(e.kind) {
        terminalEvent := Some(e.kind);
        if e.kind == Agent(ResponseCompleted) && e.response.None? { return true; }
        if e.kind == Agent(ResponseFailed) {
          if e.response.None? { return true; }
          if e.response.value.status != Failed || e.response.value.route != FailureRoute { return true; }
        }
        if e.kind == StreamError && !e.hasError { return true; }
      }
      return false;
    }

    method Finish() returns (rejected: bool)
      ensures rejected == State().terminal.None?
    {
      rejected := terminalEvent.None?;
    }
  }

  /** What the contract asks of a complete stream, stated without the validator's state. */
  ghost predicate MeetsContract(sent: seq<Envelope>) {
    && sent != []
    && (forall k :: 0 <= k < |sent| ==> sent[k].sequence == k && sent[k].ids == sent[0].ids)
    && (forall j, k :: 0 <= j < k < |sent| ==> sent[j].eventId != sent[k].eventId)
    && (forall k :: 0 <= k < |sent| ==> EventAgrees(sent[k]) && ResponseAgrees(sent[k]))
    && (forall k :: 0 <= k < |sent| ==> (Terminal(sent[k].kind) <==> k == |sent| - 1))
    && TerminalComplete(sent[|sent| - 1])
  }

  /** The validator's state after the whole non-terminal prefix `sent`. */
  ghost function After(sent: seq<Envelope>): Contract {
    Contract(|sent|, set k | 0 <= k < |sent| :: sent[k].eventId,
             if sent == [] then None else Some(sent[0].ids), None)
  }

  /** The prefix conditions under which the validator has not raised yet. */
  ghost predicate GoodPrefix(sent: seq<Envelope>) {
    && (forall k :: 0 <= k < |sent| ==> sent[k].sequence == k && sent[k].ids == sent[0].ids)
    && (forall j, k :: 0 <= j < k < |sent| ==> sent[j].eventId != sent[k].eventId)
    && (forall k :: 0 <= k < |sent| ==> EventAgrees(sent[k]) && ResponseAgrees(sent[k]))
    && (forall k :: 0 <= k < |sent| ==> !Terminal(sent[k].kind))
  }

  lemma GoodPrefixStep(prefix: seq<Envelope>, e: Envelope)
    requires GoodPrefix(prefix)
    ensures var checked := Accepting(After(prefix), e);
            && (!checked.rejected && !Terminal(e.kind) <==> GoodPrefix(prefix + [e]))
            && (GoodPrefix(prefix + [e]) ==> checked.contract == After(prefix + [e]))
            && (!checked.rejected && Terminal(e.kind) <==> MeetsContract(prefix + [e]))
            && (!checked.rejected && Terminal(e.kind) ==> checked.contract.terminal.Some?)
  {
    hide EventAgrees, ResponseAgrees, TerminalComplete, Terminal;
    var longer, c := prefix + [e], After(prefix);
    assert longer[|prefix|] == e && forall k :: 0 <= k < |prefix| ==> longer[k] == prefix[k];
    if prefix != [] && e.ids != prefix[0].ids {
      assert longer[|prefix|].ids != longer[0].ids;
    } else {
      AfterStep(prefix, e);
      SeenBefore(prefix, e);
    }
  }

  lemma SeenBefore(prefix: seq<Envelope>, e: Envelope)
    ensures var longer := prefix + [e];
            e.eventId in After(prefix).seen <==>
            exists k :: 0 <= k < |prefix| && longer[k].eventId == longer[|prefix|].eventId
  {
    var longer := prefix + [e];
    assert longer[|prefix|] == e && forall k :: 0 <= k < |prefix| ==> longer[k] == prefix[k];
    if e.eventId in After(prefix).seen {
      var k :| 0 <= k < |prefix| && prefix[k].eventId == e.eventId;
      assert longer[k].eventId == e.eventId;
    }
  }

  lemma AfterStep(prefix: seq<Envelope>, e: Envelope)
    requires prefix != [] ==> e.ids == prefix[0].ids
    ensures After(prefix + [e]) == Contract(|prefix| + 1, After(prefix).seen + {e.eventId}, Some(e.ids), None)
  {
    var longer := prefix + [e];
    assert longer[|prefix|] == e;
    assert forall k :: 0 <= k < |prefix| ==> longer[k] == prefix[k];
    assert After(longer).seen == After(prefix).seen + {e.eventId};
  }

  lemma {:induction false} AfterTerminalRejected(c: Contract, rest: seq<Envelope>)
    requires c.terminal.Some?
    ensures AcceptAll(c, rest).rejected <==> rest != []
    ensures rest == [] ==> AcceptAll(c, rest).contract == c
  {
  }

  lemma {:induction false} AcceptAllFrom(prefix: seq<Envelope>, rest: seq<Envelope>)
    requires GoodPrefix(prefix)
    ensures var checked := AcceptAll(After(prefix), rest);
            !checked.rejected && checked.contract.terminal.Some? <==> MeetsContract(prefix + rest)
    decreases |rest|
  {
    hide Accepting;
    if rest == [] {
      assert prefix + rest == prefix;
      NoTerminalNoContract(prefix);
    } else {
      var e := rest[0];
      var longer := prefix + [e];
      GoodPrefixStep(prefix, e);
      assert longer + rest[1..] == prefix + rest;
      var checked := Accepting(After(prefix), e);
      if GoodPrefix(longer) {
        AcceptAllFrom(longer, rest[1..]);
      } else {
        if !checked.rejected {
          AfterTerminalRejected(checked.contract, rest[1..]);
        }
        if rest[1..] == [] {
          assert longer + rest[1..] == longer;
        } else {
          BadPrefixNoContract(prefix, e, rest[1..]);
        }
      }
    }
  }

  lemma NoTerminalNoContract(prefix: seq<Envelope>)
    requires GoodPrefix(prefix)
    ensures !MeetsContract(prefix)
  {
    hide EventAgrees, ResponseAgrees, TerminalComplete, Terminal;
    var last := |prefix| - 1;
    assert prefix != [] ==> !Terminal(prefix[last].kind);
  }

  lemma BadPrefixNoContract(prefix: seq<Envelope>, e: Envelope, rest: seq<Envelope>)
    requires GoodPrefix(prefix) && !GoodPrefix(prefix + [e]) && rest != []
    ensures !MeetsContract(prefix + [e] + rest)
  {
    hide EventAgrees, ResponseAgrees, TerminalComplete, Terminal;
    var longer, sent := prefix + [e], prefix + [e] + rest;
    assert forall k :: 0 <= k < |longer| ==> sent[k] == longer[k];
  }

  /** The validator accepts, through `finish`, exactly the streams that meet the contract. */
  lemma AcceptsIff(sent: seq<Envelope>)
    ensures Accepts(sent) <==> MeetsContract(sent)
  {
    hide Accepting, MeetsContract;
    assert After([]) == CONTRACT_START;
    AcceptAllFrom([], sent);
    assert [] + sent == sent;
  }

  /** The events and outputs of an envelope are of its request, and an event gives the envelope its kind. */
  ghost predicate Consistent(e: Envelope) {
    && (e.event != None ==> Some(e.event.value.ids) == Some(e.ids) && e.kind == Agent(e.event.value.kind))
    && (e.response != None ==> e.response.value.ids == e.ids)
  }

  /** An error says so, and a response carries the output; a failed one is FAILED on the failure route. */
  ghost predicate Conclusive(e: Envelope) {
    match e.kind
    case StreamError => e.hasError
    case Agent(ResponseCompleted) => e.response != None
    case Agent(ResponseFailed) =>
      e.response != None && e.response.value == Output(e.response.value.ids, Failed, FailureRoute)
    case _ => false
  }

  /** Accepted streams, field by field: numbered from 0, of one request, without a repeated id, consistent, and with
      one envelope that concludes, the last. */
  lemma AcceptsMeans(sent: seq<Envelope>)
    ensures Accepts(sent) <==>
            && sent != []
            && (forall k :: 0 <= k < |sent| ==> sent[k].sequence == k && sent[k].ids == sent[0].ids)
            && (forall j, k :: 0 <= j < k < |sent| ==> sent[j].eventId != sent[k].eventId)
            && (forall k :: 0 <= k < |sent| ==> Consistent(sent[k]))
            && Conclusive(sent[|sent| - 1])
            && (forall k :: 0 <= k < |sent| - 1 ==>
                  sent[k].kind !in {StreamError, Agent(ResponseCompleted), Agent(ResponseFailed)})
  {
    AcceptsIff(sent);
    hide Accepts, EventAgrees, ResponseAgrees, TerminalComplete, Terminal, Consistent, Conclusive;
    forall e
      ensures EventAgrees(e) && ResponseAgrees(e) <==> Consistent(e)
      ensures Terminal(e.kind) && TerminalComplete(e) <==> Conclusive(e)
      ensures Terminal(e.kind) <==> e.kind in {StreamError, Agent(ResponseCompleted), Agent(ResponseFailed)}
    {
      EnvelopeMeans(e);
    }
  }

  lemma EnvelopeMeans(e: Envelope)
    ensures EventAgrees(e) && ResponseAgrees(e) <==> Consistent(e)
    ensures Terminal(e.kind) && TerminalComplete(e) <==> Conclusive(e)
    ensures Terminal(e.kind) <==> e.kind in {StreamError, Agent(ResponseCompleted), Agent(ResponseFailed)}
  {
  }

  // ---- Every stream the producer emits satisfies the contract -----------------------------------

  ghost predicate Injective(uuid: nat -> nat) {
    forall i, j :: i != j ==> uuid(i) != uuid(j)
  }

  /** The runtime filter lets only correlated events through. */
  predicate Correlated(ids: Ids, tick: Tick) {
    tick.Next? && tick.item.EventItem? ==> tick.item.event.ids == ids
  }

  /** What the last envelope of a stream needs to be accepted. */
  predicate LastConsistent(e: Envelope) {
    ResponseAgrees(e) && (e.kind == Agent(ResponseFailed) ==> e.response.Some? && FailureConsistent(e.response.value))
  }

  /** Numbered from n, correlated, with fresh ids, and terminal exactly at the end. */
  ghost predicate WellFormedFrom(ids: Ids, uuid: nat -> nat, n: nat, sent: seq<Envelope>) {
    && sent != []
    && (forall k :: 0 <= k < |sent| ==>
          sent[k].sequence == n + k && sent[k].eventId == uuid(n + k) && sent[k].ids == ids && EventAgrees(sent[k]))
    && (forall k :: 0 <= k < |sent| ==> (Terminal(sent[k].kind) <==> k == |sent| - 1))
    && (forall k :: 0 <= k < |sent| - 1 ==> sent[k].response.None?)
    && (LastConsistent(sent[|sent| - 1]) <==> ResponseAgrees(sent[|sent| - 1]) && TerminalComplete(sent[|sent| - 1]))
  }

  lemma WellFormedCons(ids: Ids, uuid: nat -> nat, n: nat, e: Envelope, sent: seq<Envelope>)
    requires e.sequence == n && e.eventId == uuid(n) && e.ids == ids && !Terminal(e.kind)
    requires EventAgrees(e) && e.response.None?
    requires WellFormedFrom(ids, uuid, n + 1, sent)
    ensures WellFormedFrom(ids, uuid, n, [e] + sent)
  {
    hide EventAgrees, ResponseAgrees, TerminalComplete, Terminal, LastConsistent;
    var longer := [e] + sent;
    assert forall k :: 0 < k < |longer| ==> longer[k] == sent[k - 1];
  }

  lemma OneEnvelope(ids: Ids, uuid: nat -> nat, n: nat, e: Envelope)
    requires e.sequence == n && e.eventId == uuid(n) && e.ids == ids && Terminal(e.kind) && EventAgrees(e)
    requires LastConsistent(e) <==> ResponseAgrees(e) && TerminalComplete(e)
    ensures WellFormedFrom(ids, uuid, n, [e])
  {
  }

  lemma {:induction false} ProducedWellFormed(ids: Ids, uuid: nat -> nat, n: nat, terminal: Option<AgentEvent>,
                                              script: seq<Tick>)
    requires terminal.Some? ==> TerminalKind(terminal.value.kind) && terminal.value.ids == ids
    requires forall tick :: tick in script ==> Correlated(ids, tick)
    ensures WellFormedFrom(ids, uuid, n, Produced(ids, uuid, n, terminal, script))
    decreases |script|
  {
    hide WellFormedFrom;
    if script == [] {
      OneEnvelope(ids, uuid, n, ErrorEnvelope(ids, uuid, n));
    } else {
      assert Correlated(ids, script[0]);
      match script[0] {
        case Ping => ProducedWellFormed(ids, uuid, n, terminal, script[1..]);
        case Next(OutputItem(output)) => OneEnvelope(ids, uuid, n, FinalEnvelope(ids, uuid, n, terminal, output));
        case Next(EventItem(e)) =>
          if TerminalKind(e.kind) {
            ProducedWellFormed(ids, uuid, n, Some(e), script[1..]);
          } else {
            ProducedWellFormed(ids, uuid, n + 1, terminal, script[1..]);
            WellFormedCons(ids, uuid, n, Message(ids, uuid, n, Agent(e.kind), Some(e), None, false),
                           Produced(ids, uuid, n + 1, terminal, script[1..]));
          }
      }
    }
  }

  lemma WellFormedMeets(ids: Ids, uuid: nat -> nat, sent: seq<Envelope>)
    requires Injective(uuid) && WellFormedFrom(ids, uuid, 0, sent)
    ensures MeetsContract(sent) <==> LastConsistent(sent[|sent| - 1])
  {
    hide EventAgrees, TerminalComplete, Terminal, LastConsistent;
  }

  /** The first output delivered carries the request's ids and, if a failure was announced before it
      as the terminal event, has status FAILED and route FAILURE. */
  predicate OutputConsistent(ids: Ids, terminal: Option<AgentEvent>, items: seq<Item>)
    decreases |items|
  {
    if items == [] then true
    else match items[0]
      case OutputItem(output) =>
        output.ids == ids &&
        (terminal.Some? && terminal.value.kind.ResponseFailed? ==> FailureConsistent(output))
      case EventItem(e) =>
        OutputConsistent(ids, if TerminalKind(e.kind) then Some(e) else terminal, items[1..])
  }

  lemma ErrorIsConsistent(ids: Ids, uuid: nat -> nat, n: nat)
    ensures LastConsistent(ErrorEnvelope(ids, uuid, n))
  {
  }

  lemma FinalIsConsistent(ids: Ids, uuid: nat -> nat, n: nat, terminal: Option<AgentEvent>, output: Output)
    ensures LastConsistent(FinalEnvelope(ids, uuid, n, terminal, output)) <==>
            output.ids == ids && (terminal.Some? && terminal.value.kind.ResponseFailed? ==> FailureConsistent(output))
  {
  }

  lemma ConsistentUnfold(ids: Ids, terminal: Option<AgentEvent>, item: Item, rest: seq<Item>)
    ensures OutputConsistent(ids, terminal, [item] + rest) <==>
            match item
            case OutputItem(output) =>
              output.ids == ids && (terminal.Some? && terminal.value.kind.ResponseFailed? ==> FailureConsistent(output))
            case EventItem(e) => OutputConsistent(ids, if TerminalKind(e.kind) then Some(e) else terminal, rest)
  {
    hide FailureConsistent, TerminalKind;
    assert ([item] + rest)[1..] == rest;
  }

  lemma {:induction false} LastEnvelope(ids: Ids, uuid: nat -> nat, n: nat, terminal: Option<AgentEvent>,
                                        script: seq<Tick>)
    requires terminal.Some? ==> TerminalKind(terminal.value.kind)
    ensures var sent := Produced(ids, uuid, n, terminal, script);
            sent != [] && (LastConsistent(sent[|sent| - 1]) <==> OutputConsistent(ids, terminal, ItemsOf(script)))
    decreases |script|
  {
    hide LastConsistent, FinalEnvelope, FailureConsistent, Message, ItemsOf, ErrorEnvelope;
    if script == [] {
      ErrorIsConsistent(ids, uuid, n);
      assert ItemsOf(script) == [] by { NoItems(); }
    } else {
      ItemsUnfold(script);
      if script[0].Next? { ConsistentUnfold(ids, terminal, script[0].item, ItemsOf(script[1..])); }
      hide OutputConsistent;
      match script[0] {
        case Ping => LastEnvelope(ids, uuid, n, terminal, script[1..]);
        case Next(OutputItem(output)) => FinalIsConsistent(ids, uuid, n, terminal, output);
        case Next(EventItem(e)) =>
          if TerminalKind(e.kind) {
            LastEnvelope(ids, uuid, n, Some(e), script[1..]);
          } else {
            LastEnvelope(ids, uuid, n + 1, terminal, script[1..]);
          }
      }
    }
  }

  lemma NoItems()
    ensures ItemsOf([]) == []
  {
  }

  /** Whatever the graph iterator delivers and however it ends, the producer numbers its envelopes
      0, 1, 2, ... with exactly one terminal envelope, the last; and the validator accepts the
      stream through `finish` exactly when the output delivered is consistent with the request and
      with the terminal event announced before it. */
  lemma StreamMeetsContract(ids: Ids, uuid: nat -> nat, script: seq<Tick>)
    requires Injective(uuid)
    requires forall tick :: tick in script ==> Correlated(ids, tick)
    ensures WellFormedFrom(ids, uuid, 0, Stream(ids, uuid, script))
    ensures Accepts(Stream(ids, uuid, script)) <==> OutputConsistent(ids, None, ItemsOf(script))
  {
    hide WellFormedFrom, Accepts, MeetsContract, Produced, LastConsistent, Injective, OutputConsistent;
    ProducedWellFormed(ids, uuid, 1, None, script);
    LastEnvelope(ids, uuid, 1, None, script);
    WellFormedCons(ids, uuid, 0, FirstEnvelope(ids, uuid), Produced(ids, uuid, 1, None, script));
    WellFormedMeets(ids, uuid, Stream(ids, uuid, script));
    AcceptsIff(Stream(ids, uuid, script));
  }

  lemma {:induction false} TicksCorrelated(ids: Ids, script: seq<Tick>)
    requires forall item :: item in ItemsOf(script) && item.EventItem? ==> item.event.ids == ids
    ensures forall tick :: tick in script ==> Correlated(ids, tick)
    decreases |script|
  {
    if script != [] {
      var rest := ItemsOf(script[1..]);
      assert forall item :: item in rest ==> item in ItemsOf(script);
      TicksCorrelated(ids, script[1..]);
      if script[0].Next? {
        assert ItemsOf(script) == [script[0].item] + rest && ItemsOf(script)[0] == script[0].item;
      }
    }
  }

  /** The same for whatever the graph streams: the filter correlates what it lets through, so however the
      stream is cut short, only the consistency of the output is left to the graph. */
  lemma FilteredStreamMeetsContract(ids: Ids, uuid: nat -> nat, parts: seq<Part>, script: seq<Tick>)
    requires Injective(uuid) && ItemsOf(script) <= Filtered(ids, FILTER_START, parts)
    ensures WellFormedFrom(ids, uuid, 0, Stream(ids, uuid, script))
    ensures Accepts(Stream(ids, uuid, script)) <==> OutputConsistent(ids, None, ItemsOf(script))
  {
    hide WellFormedFrom, Accepts, Stream, Injective, OutputConsistent, ItemsOf, Filtered, TerminalItem;
    var all := Filtered(ids, FILTER_START, parts);
    FilteredShape(ids, parts);
    forall item | item in ItemsOf(script) && item.EventItem?
      ensures item.event.ids == ids
    {
      var k :| 0 <= k < |ItemsOf(script)| && ItemsOf(script)[k] == item;
      assert all[k] == item;
    }
    TicksCorrelated(ids, script);
    StreamMeetsContract(ids, uuid, script);
  }

  /** Cutting a consistent item stream short keeps it consistent. */
  lemma {:induction false} PrefixConsistent(ids: Ids, terminal: Option<AgentEvent>, items: seq<Item>, cut: seq<Item>)
    requires cut <= items && OutputConsistent(ids, terminal, items)
    ensures OutputConsistent(ids, terminal, cut)
    decreases |cut|
  {
    if cut != [] {
      assert cut[1..] <= items[1..];
      match cut[0] {
        case OutputItem(_) =>
        case EventItem(e) =>
          PrefixConsistent(ids, if TerminalKind(e.kind) then Some(e) else terminal, items[1..], cut[1..]);
      }
    }
  }
}
