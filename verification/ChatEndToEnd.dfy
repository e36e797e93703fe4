/** The whole path of one chat request: graph run, runtime filter, envelope producer, frames cut
    into arbitrary chunks, frontend parser, envelope decoding, contract validator. */
module ChatEndToEnd {
  import opened Prelude
  import opened ChatTypes
  import opened StreamContract
  import opened GraphEvents
  import opened Sequences
  import Sse = SseParser

  lemma {:induction false} RunConsistent(ids: Ids, n: nat, events: seq<AgentEvent>, tail: seq<Item>)
    requires NumberedFrom(ids, events, n) && Closing(ids, n + |events|, tail)
    ensures OutputConsistent(ids, None, EventItems(events) + tail)
    decreases |events|
  {
    var items := EventItems(events) + tail;
    if events == [] {
      assert items == tail;
    } else {
      assert items[0] == EventItem(events[0]) && items[1..] == EventItems(events[1..]) + tail;
      RunConsistent(ids, n + 1, events[1..], tail);
    }
  }

  /** Whatever the nodes of a run do, and wherever the run is cut short by a failure or a timeout,
      the public stream made of it satisfies the frontend's contract. */
  lemma ChatRunAccepted(thread: GraphState, plan: Node -> Behaviour, maximumSteps: nat, uuid: nat -> nat,
                        script: seq<Tick>)
    requires (forall b :: Guardable(plan(b))) && Injective(uuid)
    requires ItemsOf(script) <= Filtered(thread.ids, FILTER_START, GraphRun(thread, plan, maximumSteps).parts)
    ensures Accepts(Stream(thread.ids, uuid, script))
  {
    var events, tail := GraphRunNumbered(thread, plan, maximumSteps);
    hide GraphRun, Closing, Accepts, OutputConsistent, Injective;
    RunConsistent(thread.ids, 0, events, tail);
    PrefixConsistent(thread.ids, None, EventItems(events) + tail, ItemsOf(script));
    FilteredStreamMeetsContract(thread.ids, uuid, GraphRun(thread, plan, maximumSteps).parts, script);
  }

  /** How envelopes are written to and read from event frames; JSON is not modelled further. */
  datatype Codec = Codec(
    name: EnvelopeKind -> string, id: nat -> string, encode: Envelope -> string, decode: string -> Option<Envelope>)

  function RawEvent(codec: Codec, e: Envelope): Sse.RawEvent {
    Sse.RawEvent(codec.name(e.kind), codec.id(e.eventId), codec.encode(e))
  }

  /** `decode_envelope`. */
  function DecodeEnvelope(codec: Codec, raw: Sse.RawEvent): Option<Envelope> {
    var e := codec.decode(raw.data);
    if e.Some? && raw.event == codec.name(e.value.kind) && raw.id == codec.id(e.value.eventId) then e else None
  }

  /** The envelopes the client decodes; None when one of them is refused. */
  function DecodeAll(codec: Codec, raw: seq<Sse.RawEvent>): Option<seq<Envelope>> {
    if raw == [] then Some([])
    else
      var first := DecodeEnvelope(codec, raw[0]);
      var rest := DecodeAll(codec, raw[1..]);
      if first.None? || rest.None? then None else Some([first.value] + rest.value)
  }

  /** `item` is a frame of what was put on the wire, in any layout. */
  predicate FrameOf(codec: Codec, item: Sse.Item, w: Wire) {
    match w
    case Keepalive => item.Comment? && item.text == "keepalive"
    case Sent(e) => item.Message? && item.event == RawEvent(codec, e)
  }

  predicate Carries(codec: Codec, limit: nat, item: Sse.Item, w: Wire) {
    && FrameOf(codec, item, w) && Sse.Sendable(item) && Sse.FrameCost(item) <= limit
    && (w.Sent? ==> codec.decode(codec.encode(w.envelope)) == Some(w.envelope))
  }

  /** The frames carry the wire one for one. */
  ghost predicate AllCarried(codec: Codec, limit: nat, items: seq<Sse.Item>, wire: seq<Wire>) {
    |items| == |wire| && forall i :: 0 <= i < |wire| ==> Carries(codec, limit, items[i], wire[i])
  }

  lemma {:induction false} EnvelopesCons(wire: seq<Wire>)
    requires wire != []
    ensures Envelopes(wire) == (if wire[0].Sent? then [wire[0].envelope] else []) + Envelopes(wire[1..])
    decreases |wire|
  {
    var n := |wire| - 1;
    if n == 0 {
      assert wire[..n] == [] && wire[1..] == [];
    } else {
      EnvelopesCons(wire[..n]);
      assert wire[1..][..n - 1] == wire[..n][1..];
    }
  }

  lemma {:induction false} WireDecodes(codec: Codec, limit: nat, items: seq<Sse.Item>, wire: seq<Wire>)
    requires AllCarried(codec, limit, items, wire)
    ensures DecodeAll(codec, Sse.Messages(items)) == Some(Envelopes(wire))
    ensures forall item :: item in items ==> Sse.Sendable(item) && Sse.FrameCost(item) <= limit
    decreases |wire|
  {
    if wire != [] {
      hide Sse.Sendable, Sse.FrameCost, Envelopes;
      assert Carries(codec, limit, items[0], wire[0]);
      WireDecodes(codec, limit, items[1..], wire[1..]);
      EnvelopesCons(wire);
      var rest := Sse.Messages(items[1..]);
      if wire[0].Sent? {
        assert Sse.Messages(items) == [RawEvent(codec, wire[0].envelope)] + rest;
        assert Sse.Messages(items)[1..] == rest;
      } else {
        assert [] + rest == rest;
        assert [] + Envelopes(wire[1..]) == Envelopes(wire[1..]);
      }
    } else {
      assert Envelopes(wire) == [] && items == [];
    }
  }

  /** What the frontend does with a complete stream of chunks. */
  predicate ClientAccepts(codec: Codec, limit: nat, chunks: seq<string>) {
    var fed := Sse.FeedAll(Sse.INITIAL, chunks, limit);
    !fed.rejected && Sse.Finished(fed.state) &&
    var decoded := DecodeAll(codec, fed.events);
    decoded.Some? && Accepts(decoded.value)
  }

  /** A chat run that is not cancelled reaches the user: however its frames and keepalives are laid out
      and cut into chunks, the frontend parses them, decodes exactly the envelopes sent, and accepts the
      stream to the end. */
  lemma ChatReachesClient(thread: GraphState, plan: Node -> Behaviour, maximumSteps: nat, uuid: nat -> nat,
                          script: seq<Tick>, wire: seq<Wire>, codec: Codec, items: seq<Sse.Item>, chunks: seq<string>,
                          limit: nat)
    requires (forall b :: Guardable(plan(b))) && Injective(uuid)
    requires ItemsOf(script) <= Filtered(thread.ids, FILTER_START, GraphRun(thread, plan, maximumSteps).parts)
    requires Envelopes(wire) == Stream(thread.ids, uuid, script)
    requires AllCarried(codec, limit, items, wire) && Flatten(chunks) == Sse.Frames(items)
    ensures ClientAccepts(codec, limit, chunks)
  {
    hide AllCarried, Accepts, Stream, Sse.FrameCost, Sse.Sendable;
    ChatRunAccepted(thread, plan, maximumSteps, uuid, script);
    WireDecodes(codec, limit, items, wire);
    Sse.FramesRoundTrip(items, chunks, limit);
  }
}
