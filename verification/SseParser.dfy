/** The frontend's incremental server-sent-event parser.

    The wire format is the event-stream format of section 9.2.5 and 9.2.6 of the WHATWG HTML Living
    Standard, restricted as the code restricts it: lines end in LF or CRLF only, and an event that
    has a name or an id but no data is still dispatched.  Characters arrive already decoded; each
    one counts with its UTF-8 width against the byte budget. */
module SseParser {
  import opened Sequences
  import opened Text

  // ---- Characters and bytes --------------------------------------------------------------------

  function CharBytes(c: char): nat {
    if c as int < 0x80 then 1 else if c as int < 0x800 then 2 else if c as int < 0x1_0000 then 3 else 4
  }

  function Power(n: nat): nat {
    if n == 0 then 1 else 2 * Power(n - 1)
  }

  /** The payload bits of a UTF-8 sequence of n bytes. */
  function Payload(n: nat): nat {
    if n == 1 then 7 else 5 * n + 1
  }

  /** A character takes the least number of bytes whose payload holds its code point. */
  lemma CharBytesIsLeast(c: char)
    ensures var n := CharBytes(c);
            1 <= n <= 4 && (n < 4 ==> c as int < Power(Payload(n))) && (n > 1 ==> c as int >= Power(Payload(n - 1)))
  {
    assert Power(7) == 0x80;
    assert Power(11) == 16 * Power(7);
    assert Power(14) == 8 * Power(11);
    assert Power(16) == 4 * Power(14);
  }

  function Bytes(s: string): nat {
    if s == "" then 0 else Bytes(s[..|s| - 1]) + CharBytes(s[|s| - 1])
  }

  lemma {:induction false} BytesConcat(a: string, b: string)
    ensures Bytes(a + b) == Bytes(a) + Bytes(b)
  {
    if b == "" {
      assert a + b == a;
    } else {
      var b' := b[..|b| - 1];
      assert (a + b)[..|a + b| - 1] == a + b';
      BytesConcat(a, b');
    }
  }

  /** The position of the first `c` in `s`, or |s| when there is none. */
  function IndexOf(s: string, c: char): (k: nat)
    ensures k <= |s| && c !in s[..k] && (k < |s| ==> s[k] == c)
    ensures k == |s| <==> c !in s
  {
    if s == "" then 0 else if s[0] == c then 0
    else
      var k := IndexOf(s[1..], c);
      assert s == [s[0]] + s[1..];
      assert s[..k + 1] == [s[0]] + s[1..][..k];
      k + 1
  }

  lemma IndexUnique(s: string, c: char, k: nat)
    requires k <= |s| && c !in s[..k] && (k < |s| ==> s[k] == c)
    ensures IndexOf(s, c) == k
  {
    var j := IndexOf(s, c);
    assert forall i :: 0 <= i < k ==> s[..k][i] == s[i];
    assert forall i :: 0 <= i < j ==> s[..j][i] == s[i];
  }

  // ---- The parser as a state machine -----------------------------------------------------------

  datatype RawEvent = RawEvent(event: string, id: string, data: string)

  /** The fields of the event under construction and the bytes its lines have used. */
  datatype Pending = Pending(event: string, id: string, data: seq<string>, size: nat)

  datatype ParserState = ParserState(pending: Pending, buffer: string)

  /** `rejected` stands for a raised protocol error; the state is the one at the raise. */
  datatype Fed = Fed(state: ParserState, events: seq<RawEvent>, rejected: bool)

  datatype Lined = Lined(pending: Pending, events: seq<RawEvent>, rejected: bool)

  const EMPTY := Pending("", "", [], 0)
  const INITIAL := ParserState(EMPTY, "")

  function StripCr(line: string): string {
    if line != "" && line[|line| - 1] == '\r' then line[..|line| - 1] else line
  }

  function FieldName(line: string): string {
    line[..IndexOf(line, ':')]
  }

  function FieldValue(line: string): string {
    var k := IndexOf(line, ':');
    if k == |line| then ""
    else
      var value := line[k + 1..];
      if value != "" && value[0] == ' ' then value[1..] else value
  }

  /** `_line` as a function of the pending event. */
  function LineStep(p: Pending, line: string, limit: nat): Lined {
    var q := p.(size := p.size + Bytes(line) + 1);
    if q.size > limit then Lined(q, [], true)
    else if line == "" then
      if q.event == "" && q.id == "" && q.data == [] then Lined(q.(size := 0), [], false)
      else Lined(EMPTY, [RawEvent(if q.event == "" then "message" else q.event, q.id, Join("\n", q.data))], false)
    else if line[0] == ':' then Lined(q, [], false)
    else
      var value := FieldValue(line);
      match FieldName(line)
      case "event" => Lined(q.(event := value), [], false)
      case "id" => if '\0' in value then Lined(q, [], true) else Lined(q.(id := value), [], false)
      case "data" => Lined(q.(data := q.data + [value]), [], false)
      case _ => Lined(q, [], false)
  }

  /** The loop of `feed`: consume every complete line of `text`. */
  function Drain(p: Pending, text: string, limit: nat): Fed
    decreases |text|
  {
    var k := IndexOf(text, '\n');
    if k == |text| then Fed(ParserState(p, text), [], false)
    else
      var step := LineStep(p, StripCr(text[..k]), limit);
      if step.rejected then Fed(ParserState(step.pending, text[k + 1..]), [], true)
      else
        var rest := Drain(step.pending, text[k + 1..], limit);
        rest.(events := step.events + rest.events)
  }

  predicate Oversized(s: ParserState, limit: nat) {
    s.pending.size + Bytes(s.buffer) > limit
  }

  function FeedStep(s: ParserState, chunk: string, limit: nat): Fed {
    var drained := Drain(s.pending, s.buffer + chunk, limit);
    if drained.rejected then drained
    else drained.(rejected := Oversized(drained.state, limit))
  }

  /** Feeding chunk after chunk, stopping at the first protocol error. */
  function FeedAll(s: ParserState, chunks: seq<string>, limit: nat): Fed
    decreases |chunks|
  {
    if chunks == [] then Fed(s, [], false)
    else
      var first := FeedStep(s, chunks[0], limit);
      if first.rejected then first
      else
        var rest := FeedAll(first.state, chunks[1..], limit);
        rest.(events := first.events + rest.events)
  }

  /** What holds of the parser between two feeds: no complete line is buffered, and the bytes used
      by the event under construction and the buffer together stay within the limit. */
  predicate Between(s: ParserState, limit: nat) {
    '\n' !in s.buffer && !Oversized(s, limit)
  }

  predicate Finished(s: ParserState) {
    s.buffer == "" && s.pending.event == "" && s.pending.id == "" && s.pending.data == []
  }

  /** `whole` is `rest` with `events` dispatched before it. */
  predicate Preceded(events: seq<RawEvent>, rest: Fed, whole: Fed) {
    whole == rest.(events := events + rest.events)
  }

  lemma PrecededStep(events: seq<RawEvent>, item: seq<RawEvent>, rest: Fed, here: Fed, whole: Fed)
    requires Preceded(events, here, whole) && Preceded(item, rest, here)
    ensures Preceded(events + item, rest, whole)
  {
    assert events + (item + rest.events) == (events + item) + rest.events;
  }

  // ---- The class -------------------------------------------------------------------------------

  class SSEParser {
    const limit: nat
    var buffer: string
    var event: string
    var eventId: string
    var data: seq<string>
    var frameSize: nat

    function State(): ParserState
      reads this
    {
      ParserState(Pending(event, eventId, data, frameSize), buffer)
    }

    constructor (limit: nat)
      requires 1_024 <= limit
      ensures this.limit == limit && State() == INITIAL
    {
      this.limit := limit;
      buffer, event, eventId, data, frameSize := "", "", "", [], 0;
    }

    method Line(line: string) returns (item: seq<RawEvent>, rejected: bool)
      modifies this`event, this`eventId, this`data, this`frameSize
      ensures Lined(State().pending, item, rejected) == LineStep(old(State().pending), line, limit)
    {
      frameSize := frameSize + Bytes(line) + 1;
      if frameSize > limit { return [], true; }
      if line == "" {
        if event == "" && eventId == "" && data == [] {
          frameSize := 0;
          return [], false;
        }
        item := [RawEvent(if event == "" then "message" else event, eventId, Join("\n", data))];
        event, eventId, data, frameSize := "", "", [], 0;
        return item, false;
      }
      if line[0] == ':' { return [], false; }
      var field, value := FieldName(line), FieldValue(line);
      if field == "event" {
        event := value;
      } else if field == "id" {
        if '\0' in value { return [], true; }
        eventId := value;
      } else if field == "data" {
        data := data + [value];
      }
      return [], false;
    }

    method Feed(chunk: string) returns (events: seq<RawEvent>, rejected: bool)
      modifies this
      ensures rejected == FeedStep(old(State()), chunk, limit).rejected
      ensures State() == FeedStep(old(State()), chunk, limit).state
      ensures !rejected ==> events == FeedStep(old(State()), chunk, limit).events
    {
      hide LineStep, StripCr, IndexOf;
      buffer := buffer + chunk;
      events := [];
      ghost var whole := Drain(State().pending, buffer, limit);
      while '\n' in buffer
        invariant Preceded(events, Drain(State().pending, buffer, limit), whole)
        decreases |buffer|
      {
        var k := IndexOf(buffer, '\n');
        DrainUnfold(State().pending, buffer, k, limit);
        hide Drain;
        ghost var here := Drain(State().pending, buffer, limit);
        ghost var rest := buffer[k + 1..];
        var line := StripCr(buffer[..k]);
        buffer := buffer[k + 1..];
        var item, bad := Line(line);
        if bad {
          return events, true;
        }
        PrecededStep(events, item, Drain(State().pending, rest, limit), here, whole);
        events := events + item;
      }
      DrainUnfold(State().pending, buffer, |buffer|, limit);
      rejected := frameSize + Bytes(buffer) > limit;
    }

    method Finish() returns (rejected: bool)
      ensures rejected == !Finished(State())
      ensures rejected <==> buffer != "" || event != "" || eventId != "" || data != []
    {
      rejected := buffer != "" || event != "" || eventId != "" || data != [];
    }
  }

  // ---- Chunking does not matter ----------------------------------------------------------------

  /** Drain after the first complete line `text[..k]`. */
  function DrainRest(p: Pending, text: string, k: nat, limit: nat): Fed
    requires k < |text|
  {
    var step := LineStep(p, StripCr(text[..k]), limit);
    if step.rejected then Fed(ParserState(step.pending, text[k + 1..]), [], true)
    else
      var rest := Drain(step.pending, text[k + 1..], limit);
      rest.(events := step.events + rest.events)
  }

  lemma DrainUnfold(p: Pending, text: string, k: nat, limit: nat)
    requires k <= |text| && '\n' !in text[..k] && (k < |text| ==> text[k] == '\n')
    ensures Drain(p, text, limit) ==
            if k == |text| then Fed(ParserState(p, text), [], false) else DrainRest(p, text, k, limit)
  {
    hide LineStep, StripCr, IndexOf;
    IndexUnique(text, '\n', k);
  }

  /** `whole` is what `first` followed by `rest` amounts to. */
  predicate Composes(first: Fed, rest: Fed, whole: Fed) {
    if first.rejected then whole.rejected else whole == rest.(events := first.events + rest.events)
  }

  lemma ComposesUnder(events: seq<RawEvent>, first: Fed, rest: Fed, whole: Fed)
    requires Composes(first, rest, whole)
    ensures Composes(first.(events := events + first.events), rest, whole.(events := events + whole.events))
  {
    assert events + (first.events + rest.events) == (events + first.events) + rest.events;
  }

  lemma LineOfLonger(a: string, b: string, k: nat)
    requires k < |a|
    ensures (a + b)[k] == a[k] && (a + b)[..k] == a[..k] && (a + b)[k + 1..] == a[k + 1..] + b
  {
  }

  lemma {:induction false} DrainSplit(p: Pending, a: string, b: string, limit: nat)
    ensures var first := Drain(p, a, limit);
            Composes(first, Drain(first.state.pending, first.state.buffer + b, limit), Drain(p, a + b, limit))
    decreases |a|
  {
    hide LineStep, StripCr, IndexOf, Drain;
    var k := IndexOf(a, '\n');
    DrainUnfold(p, a, k, limit);
    if k == |a| {
      var whole := Drain(p, a + b, limit);
      assert [] + whole.events == whole.events;
    } else {
      LineOfLonger(a, b, k);
      DrainUnfold(p, a + b, k, limit);
      var step := LineStep(p, StripCr(a[..k]), limit);
      if !step.rejected {
        var rest := a[k + 1..];
        DrainSplit(step.pending, rest, b, limit);
        var first := Drain(step.pending, rest, limit);
        ComposesUnder(step.events, first, Drain(first.state.pending, first.state.buffer + b, limit),
                      Drain(step.pending, rest + b, limit));
      }
    }
  }

  lemma {:induction false} DrainLeavesNoLine(p: Pending, text: string, limit: nat)
    ensures var d := Drain(p, text, limit); !d.rejected ==> '\n' !in d.state.buffer
    decreases |text|
  {
    hide LineStep, IndexOf, StripCr;
    var k := IndexOf(text, '\n');
    if k < |text| {
      DrainLeavesNoLine(LineStep(p, StripCr(text[..k]), limit).pending, text[k + 1..], limit);
    }
  }

  lemma StripCrBytes(line: string)
    ensures Bytes(line) <= Bytes(StripCr(line)) + 1
  {
  }

  /** Once the buffered bytes exceed the budget, no continuation can be accepted. */
  lemma OversizedIsFatal(s: ParserState, more: string, limit: nat)
    requires '\n' !in s.buffer && Oversized(s, limit)
    ensures FeedStep(s, more, limit).rejected
  {
    var text := s.buffer + more;
    var k := IndexOf(text, '\n');
    assert forall i :: 0 <= i < |s.buffer| ==> text[i] == s.buffer[i];
    assert text[..k] == s.buffer + more[..k - |s.buffer|];
    BytesConcat(s.buffer, more[..k - |s.buffer|]);
    StripCrBytes(text[..k]);
    assert k == |text| ==> text[..k] == text;
  }

  lemma FeedKeepsBetween(s: ParserState, chunk: string, limit: nat)
    ensures var fed := FeedStep(s, chunk, limit); !fed.rejected ==> Between(fed.state, limit)
  {
    DrainLeavesNoLine(s.pending, s.buffer + chunk, limit);
  }

  lemma FeedTwice(s: ParserState, a: string, b: string, limit: nat)
    ensures var first := FeedStep(s, a, limit);
            Composes(first, FeedStep(first.state, b, limit), FeedStep(s, a + b, limit))
  {
    hide Drain, Bytes, Oversized;
    DrainSplit(s.pending, s.buffer + a, b, limit);
    assert s.buffer + (a + b) == (s.buffer + a) + b;
    var drained := Drain(s.pending, s.buffer + a, limit);
    DrainLeavesNoLine(s.pending, s.buffer + a, limit);
    if !drained.rejected && Oversized(drained.state, limit) {
      OversizedIsFatal(drained.state, b, limit);
    }
  }

  /** Any split of a stream gets the verdict of one single feed; when accepted, the same events and
      the same final state. */
  lemma {:induction false} ChunkingIrrelevant(s: ParserState, chunks: seq<string>, limit: nat)
    requires Between(s, limit)
    ensures var split, whole := FeedAll(s, chunks, limit), FeedStep(s, Flatten(chunks), limit);
            split.rejected == whole.rejected && (!split.rejected ==> split == whole)
    decreases |chunks|
  {
    if chunks == [] {
      assert s.buffer + "" == s.buffer;
    } else {
      hide FeedStep;
      FeedTwice(s, chunks[0], Flatten(chunks[1..]), limit);
      var first := FeedStep(s, chunks[0], limit);
      if !first.rejected {
        FeedKeepsBetween(s, chunks[0], limit);
        ChunkingIrrelevant(first.state, chunks[1..], limit);
      }
    }
  }

  /** After every accepted feed of a run the byte budget holds and no complete line is buffered. */
  lemma {:induction false} BudgetAlwaysHolds(s: ParserState, chunks: seq<string>, limit: nat)
    requires Between(s, limit)
    ensures var fed := FeedAll(s, chunks, limit); !fed.rejected ==> Between(fed.state, limit)
    decreases |chunks|
  {
    hide FeedStep;
    if chunks != [] {
      FeedKeepsBetween(s, chunks[0], limit);
      var first := FeedStep(s, chunks[0], limit);
      if !first.rejected {
        BudgetAlwaysHolds(first.state, chunks[1..], limit);
      }
    }
  }

  // ---- The frames of the stream come back as the events they were made from ---------------------

  datatype Field = IdField | EventField | DataField

  /** How a message frame is written: the order of its three field lines, and what ends a line. */
  datatype Layout = Layout(order: seq<Field>, ending: string)

  datatype Item = Message(event: RawEvent, layout: Layout) | Comment(text: string, ending: string)

  predicate LineEnding(ending: string) {
    ending == "\n" || ending == "\r\n"
  }

  /** Each field once, in any order, and either line ending. */
  predicate Legal(layout: Layout) {
    var order := layout.order;
    |order| == 3 && order[0] != order[1] && order[0] != order[2] && order[1] != order[2] && LineEnding(layout.ending)
  }

  function FieldLine(e: RawEvent, field: Field): string {
    match field
    case IdField => "id: " + e.id
    case EventField => "event: " + e.event
    case DataField => "data: " + e.data
  }

  function FieldLines(e: RawEvent, order: seq<Field>, ending: string): string {
    if order == [] then "" else FieldLine(e, order[0]) + ending + FieldLines(e, order[1..], ending)
  }

  function Frame(item: Item): string {
    match item
    case Message(e, layout) => FieldLines(e, layout.order, layout.ending) + layout.ending
    case Comment(text, ending) => ": " + text + ending + ending
  }

  function Frames(items: seq<Item>): string {
    if items == [] then "" else Frame(items[0]) + Frames(items[1..])
  }

  function Messages(items: seq<Item>): seq<RawEvent> {
    if items == [] then []
    else (if items[0].Message? then [items[0].event] else []) + Messages(items[1..])
  }

  /** The bytes the parser charges for one frame, whatever its layout. */
  function FrameCost(item: Item): nat {
    match item
    case Message(e, _) => Bytes("id: " + e.id) + Bytes("event: " + e.event) + Bytes("data: " + e.data) + 4
    case Comment(text, _) => Bytes(": " + text) + 2
  }

  /** Text that one line can carry: a carriage return at the end would merge with a bare line feed. */
  predicate Carried(text: string, ending: string) {
    '\n' !in text && (ending == "\n" && text != "" ==> text[|text| - 1] != '\r')
  }

  /** A frame that can be sent: single-line fields, a named event, no NUL in the id. */
  predicate Sendable(item: Item) {
    match item
    case Message(e, layout) =>
      && Legal(layout) && e.event != "" && '\0' !in e.id
      && Carried(e.id, layout.ending) && Carried(e.event, layout.ending) && Carried(e.data, layout.ending)
    case Comment(text, ending) => LineEnding(ending) && Carried(text, ending)
  }

  lemma DrainLine(p: Pending, line: string, ending: string, rest: string, limit: nat)
    requires '\n' !in line && (ending == "\r\n" || (ending == "\n" && StripCr(line) == line))
    ensures var step, whole := LineStep(p, line, limit), Drain(p, line + ending + rest, limit);
            if step.rejected then whole.rejected
            else
              var d := Drain(step.pending, rest, limit);
              whole == d.(events := step.events + d.events) && (step.events == [] ==> whole == d)
  {
    assert forall events: seq<RawEvent> :: [] + events == events;
    var text := line + ending + rest;
    var k := |line| + |ending| - 1;
    assert text[..k] == line + ending[..|ending| - 1];
    assert text[k + 1..] == rest;
    IndexUnique(text, '\n', k);
    assert StripCr(text[..k]) == line by {
      if ending == "\r\n" {
        assert text[..k] == line + "\r" && (line + "\r")[..|line|] == line;
      } else {
        assert text[..k] == line;
      }
    }
  }

  lemma FieldParts(name: string, value: string)
    requires ':' !in name && name != ""
    ensures var line := name + ": " + value;
            line != "" && line[0] != ':' && FieldName(line) == name && FieldValue(line) == value
  {
    var line := name + ": " + value;
    assert line[..|name|] == name;
    IndexUnique(line, ':', |name|);
    assert line[|name| + 1..] == " " + value;
    assert (" " + value)[1..] == value;
  }

  /** The pending event after charging `line` to it. */
  function Charged(p: Pending, line: string): Pending {
    p.(size := p.size + Bytes(line) + 1)
  }

  /** The pending event after one field line. */
  function WithField(p: Pending, e: RawEvent, field: Field): Pending {
    var q := Charged(p, FieldLine(e, field));
    match field
    case IdField => q.(id := e.id)
    case EventField => q.(event := e.event)
    case DataField => q.(data := q.data + [e.data])
  }

  function WithFields(p: Pending, e: RawEvent, order: seq<Field>): Pending
    decreases |order|
  {
    if order == [] then p else WithFields(WithField(p, e, order[0]), e, order[1..])
  }

  lemma FieldStep(p: Pending, e: RawEvent, field: Field, limit: nat)
    requires '\0' !in e.id
    ensures var q := Charged(p, FieldLine(e, field));
            LineStep(p, FieldLine(e, field), limit) ==
            if q.size > limit then Lined(q, [], true) else Lined(WithField(p, e, field), [], false)
  {
    hide Bytes, IndexOf, FieldName, FieldValue;
    match field {
      case IdField =>
        assert "id: " + e.id == "id" + ": " + e.id;
        FieldParts("id", e.id);
      case EventField =>
        assert "event: " + e.event == "event" + ": " + e.event;
        FieldParts("event", e.event);
      case DataField =>
        assert "data: " + e.data == "data" + ": " + e.data;
        FieldParts("data", e.data);
    }
  }

  lemma {:induction false} FieldsOnlyGrow(p: Pending, e: RawEvent, order: seq<Field>)
    ensures WithFields(p, e, order).size >= p.size
    decreases |order|
  {
    hide Bytes, FieldLine;
    if order != [] { FieldsOnlyGrow(WithField(p, e, order[0]), e, order[1..]); }
  }

  lemma CarriedLine(e: RawEvent, field: Field, ending: string)
    requires LineEnding(ending) && Carried(e.id, ending) && Carried(e.event, ending) && Carried(e.data, ending)
    ensures '\n' !in FieldLine(e, field) && (ending == "\n" ==> StripCr(FieldLine(e, field)) == FieldLine(e, field))
  {
  }

  lemma {:induction false} DrainFields(p: Pending, e: RawEvent, order: seq<Field>, ending: string, rest: string,
                                       limit: nat)
    requires p.size <= limit && LineEnding(ending) && '\0' !in e.id
    requires Carried(e.id, ending) && Carried(e.event, ending) && Carried(e.data, ending)
    ensures var whole := Drain(p, FieldLines(e, order, ending) + rest, limit);
            var q := WithFields(p, e, order);
            if q.size > limit then whole.rejected else whole == Drain(q, rest, limit)
    decreases |order|
  {
    hide LineStep, Drain, Bytes, Carried, StripCr, IndexOf, FieldLine;
    if order == [] {
      assert "" + rest == rest;
    } else {
      var line, more := FieldLine(e, order[0]), FieldLines(e, order[1..], ending);
      assert FieldLines(e, order, ending) + rest == line + ending + (more + rest);
      CarriedLine(e, order[0], ending);
      DrainLine(p, line, ending, more + rest, limit);
      FieldStep(p, e, order[0], limit);
      var q := WithField(p, e, order[0]);
      FieldsOnlyGrow(q, e, order[1..]);
      if q.size <= limit { DrainFields(q, e, order[1..], ending, rest, limit); }
    }
  }

  /** The order of the fields makes no difference to the event. */
  lemma AllFields(e: RawEvent, layout: Layout)
    requires Legal(layout)
    ensures WithFields(EMPTY, e, layout.order) ==
            Pending(e.event, e.id, [e.data], FrameCost(Message(e, layout)) - 1)
  {
    hide Bytes;
    var order := layout.order;
    assert order == [order[0], order[1], order[2]];
    var p1 := WithField(EMPTY, e, order[0]);
    var p2 := WithField(p1, e, order[1]);
    assert WithFields(p2, e, [order[2]]) == WithField(p2, e, order[2]);
    assert order[1..] == [order[1], order[2]] && order[1..][1..] == [order[2]];
    assert [] + [e.data] == [e.data];
  }

  /** What draining one comment frame from an empty pending event amounts to. */
  lemma DrainComment(text: string, ending: string, rest: string, limit: nat)
    requires Sendable(Comment(text, ending))
    ensures var whole := Drain(EMPTY, Frame(Comment(text, ending)) + rest, limit);
            if FrameCost(Comment(text, ending)) > limit then whole.rejected else whole == Drain(EMPTY, rest, limit)
  {
    var line := ": " + text;
    var tail := "" + ending + rest;
    assert Frame(Comment(text, ending)) + rest == line + ending + tail;
    assert ending == "\n" ==> StripCr(line) == line;
    DrainLine(EMPTY, line, ending, tail, limit);
    var p1 := LineStep(EMPTY, line, limit).pending;
    DrainLine(p1, "", ending, rest, limit);
    assert LineStep(EMPTY, line, limit) == Lined(Charged(EMPTY, line), [], Charged(EMPTY, line).size > limit);
  }

  /** What draining one message frame from an empty pending event amounts to. */
  lemma DrainMessage(e: RawEvent, layout: Layout, rest: string, limit: nat)
    requires Sendable(Message(e, layout))
    ensures var whole := Drain(EMPTY, Frame(Message(e, layout)) + rest, limit);
            if FrameCost(Message(e, layout)) > limit then whole.rejected
            else
              var d := Drain(EMPTY, rest, limit);
              whole == d.(events := [e] + d.events)
  {
    hide Drain, IndexOf, Bytes, Carried, FieldLines, FieldLine, WithFields, FrameCost, Legal;
    var tail := "" + layout.ending + rest;
    assert Frame(Message(e, layout)) + rest == FieldLines(e, layout.order, layout.ending) + tail;
    LegalEnding(layout);
    DrainFields(EMPTY, e, layout.order, layout.ending, tail, limit);
    AllFields(e, layout);
    var p := WithFields(EMPTY, e, layout.order);
    BlankLine(p, limit);
    hide LineStep;
    DrainLine(p, "", layout.ending, rest, limit);
  }

  lemma LegalEnding(layout: Layout)
    requires Legal(layout)
    ensures LineEnding(layout.ending)
  {
  }

  lemma BlankLine(p: Pending, limit: nat)
    requires p.event != "" && |p.data| == 1
    ensures Charged(p, "").size == p.size + 1
    ensures LineStep(p, "", limit) ==
            if p.size + 1 > limit then Lined(Charged(p, ""), [], true)
            else Lined(EMPTY, [RawEvent(p.event, p.id, p.data[0])], false)
  {
  }

  lemma {:induction false} DrainFrames(items: seq<Item>, limit: nat)
    requires forall item :: item in items ==> Sendable(item)
    ensures var d := Drain(EMPTY, Frames(items), limit);
            if forall item :: item in items ==> FrameCost(item) <= limit
            then d == Fed(INITIAL, Messages(items), false) else d.rejected
  {
    hide Sendable, Frame, FrameCost, LineStep, IndexOf;
    if items != [] {
      var rest := Frames(items[1..]);
      match items[0] {
        case Comment(text, ending) => DrainComment(text, ending, rest, limit);
        case Message(e, layout) => DrainMessage(e, layout, rest, limit);
      }
      hide Drain;
      DrainFrames(items[1..], limit);
      assert items == [items[0]] + items[1..];
    }
  }

  /** However the fields of each frame are ordered and its lines ended, and however the stream of
      frames is cut into chunks, the parser accepts it exactly when every frame
      fits the budget, and then returns the messages sent, in order, with nothing left over. */
  lemma FramesRoundTrip(items: seq<Item>, chunks: seq<string>, limit: nat)
    requires forall item :: item in items ==> Sendable(item)
    requires Flatten(chunks) == Frames(items)
    ensures var fed := FeedAll(INITIAL, chunks, limit);
            if forall item :: item in items ==> FrameCost(item) <= limit
            then fed == Fed(INITIAL, Messages(items), false) && Finished(fed.state)
            else fed.rejected
  {
    ChunkingIrrelevant(INITIAL, chunks, limit);
    DrainFrames(items, limit);
    assert INITIAL.buffer + Frames(items) == Frames(items);
  }

  // ---- A stream that is cut inside a message ---------------------------------------------------

  lemma {:induction false} FramesThen(items: seq<Item>, rest: string, limit: nat)
    requires forall item :: item in items ==> Sendable(item) && FrameCost(item) <= limit
    ensures Preceded(Messages(items), Drain(EMPTY, rest, limit), Drain(EMPTY, Frames(items) + rest, limit))
    decreases |items|
  {
    hide Sendable, Frame, FrameCost, LineStep, IndexOf, Drain;
    if items == [] {
      assert Frames(items) + rest == rest;
      var d := Drain(EMPTY, rest, limit);
      assert [] + d.events == d.events;
    } else {
      var more := Frames(items[1..]) + rest;
      assert Frames(items) + rest == Frame(items[0]) + more;
      assert items[0] in items;
      FramesThen(items[1..], rest, limit);
      var d := Drain(EMPTY, rest, limit);
      match items[0] {
        case Comment(text, ending) =>
          DrainComment(text, ending, more, limit);
          assert Messages(items) == [] + Messages(items[1..]);
        case Message(e, layout) =>
          DrainMessage(e, layout, more, limit);
          assert [e] + (Messages(items[1..]) + d.events) == Messages(items) + d.events;
      }
    }
  }

  /** A proper start of the field lines and the blank line: some whole lines and a part of the next. */
  lemma {:induction false} CutFields(e: RawEvent, order: seq<Field>, ending: string, n: nat)
    returns (m: nat, part: string)
    requires LineEnding(ending) && Carried(e.id, ending) && Carried(e.event, ending) && Carried(e.data, ending)
    requires n < |FieldLines(e, order, ending) + ending|
    ensures m <= |order| && '\n' !in part
    ensures m < |order| ==> |part| < |FieldLine(e, order[m])| + |ending|
    ensures (FieldLines(e, order, ending) + ending)[..n] == FieldLines(e, order[..m], ending) + part
    decreases |order|
  {
    hide Carried, FieldLine;
    var text := FieldLines(e, order, ending) + ending;
    if order == [] {
      m, part := 0, ending[..n];
    } else {
      var line := FieldLine(e, order[0]) + ending;
      var more := FieldLines(e, order[1..], ending) + ending;
      assert text == line + more;
      if n < |line| {
        m, part := 0, text[..n];
        CarriedLine(e, order[0], ending);
        assert part == line[..n];
      } else {
        var k;
        k, part := CutFields(e, order[1..], ending, n - |line|);
        m := k + 1;
        assert order[..m][1..] == order[1..][..k];
        assert text[..n] == line + more[..n - |line|];
      }
    }
  }

  /** The fields of the pending event after some of the lines. */
  lemma SomeFields(e: RawEvent, layout: Layout, m: nat)
    requires Legal(layout) && m <= 3 && e.event != ""
    ensures var p := WithFields(EMPTY, e, layout.order[..m]);
            (p.event == "" && p.id == "" && p.data == []) <==>
            m == 0 || (m == 1 && layout.order[0] == IdField && e.id == "")
  {
    hide Bytes, FieldLine, LineEnding;
    var order := layout.order;
    var p1 := WithField(EMPTY, e, order[0]);
    var p2 := WithField(p1, e, order[1]);
    FieldsSnoc(EMPTY, e, order, 0);
    if m > 0 { FieldsSnoc(EMPTY, e, order, 1); }
    if m > 1 { FieldsSnoc(EMPTY, e, order, 2); }
    if m > 2 { FieldsSnoc(EMPTY, e, order, 3); }
  }

  lemma {:induction false} FieldsSnoc(p: Pending, e: RawEvent, order: seq<Field>, m: nat)
    requires m <= |order|
    ensures WithFields(p, e, order[..m]) ==
            if m == 0 then p else WithField(WithFields(p, e, order[..m - 1]), e, order[m - 1])
    decreases |order|
  {
    hide WithField;
    if m > 0 {
      var q := WithField(p, e, order[0]);
      assert order[..m][1..] == order[1..][..m - 1];
      if m > 1 {
        assert order[..m - 1][1..] == order[1..][..m - 2];
        FieldsSnoc(q, e, order[1..], m - 1);
      }
    }
  }

  /** The cut leaves nothing of the message that shows: at its start, or right after a first line without an id. */
  predicate Silent(e: RawEvent, layout: Layout, n: nat) {
    n == 0 || (layout.order != [] && layout.order[0] == IdField && e.id == "" && n == 4 + |layout.ending|)
  }

  /** Draining a message that is cut: the whole lines are used up, the part of the next stays in the buffer. */
  lemma DrainCut(e: RawEvent, layout: Layout, n: nat, limit: nat) returns (m: nat, part: string)
    requires Sendable(Message(e, layout)) && n < |Frame(Message(e, layout))|
    ensures m <= 3 && n == |FieldLines(e, layout.order[..m], layout.ending)| + |part|
    ensures m < 3 ==> |part| < |FieldLine(e, layout.order[m])| + |layout.ending|
    ensures var drained := Drain(EMPTY, Frame(Message(e, layout))[..n], limit);
            drained.rejected || drained == Fed(ParserState(WithFields(EMPTY, e, layout.order[..m]), part), [], false)
    ensures Drain(EMPTY, Frame(Message(e, layout))[..n], limit).rejected ==> m > 0
    ensures WithFields(EMPTY, e, layout.order[..m]).size > limit ==>
              Drain(EMPTY, Frame(Message(e, layout))[..n], limit).rejected
    ensures WithFields(EMPTY, e, layout.order[..m]).size <= limit ==>
              !Drain(EMPTY, Frame(Message(e, layout))[..n], limit).rejected
  {
    hide Drain, IndexOf, Bytes, Carried, FieldLines, FieldLine, WithFields, LineStep;
    m, part := CutFields(e, layout.order, layout.ending, n);
    DrainFields(EMPTY, e, layout.order[..m], layout.ending, part, limit);
    NoLineLeft(WithFields(EMPTY, e, layout.order[..m]), part, limit);
    assert m == 0 ==> WithFields(EMPTY, e, layout.order[..m]) == EMPTY by { NoFields(e, layout.order); }
  }

  lemma NoFields(e: RawEvent, order: seq<Field>)
    ensures WithFields(EMPTY, e, order[..0]) == EMPTY
  {
  }

  lemma NoLineLeft(p: Pending, text: string, limit: nat)
    requires '\n' !in text
    ensures Drain(p, text, limit) == Fed(ParserState(p, text), [], false)
  {
  }

  /** A stream that ends inside a message is refused, by the budget or at the end, unless nothing of the
      message shows; and nothing of the message is returned. */
  lemma CutStreamIsRefused(items: seq<Item>, e: RawEvent, layout: Layout, n: nat, chunks: seq<string>, limit: nat)
    requires forall item :: item in items ==> Sendable(item) && FrameCost(item) <= limit
    requires Sendable(Message(e, layout)) && n < |Frame(Message(e, layout))|
    requires Flatten(chunks) == Frames(items) + Frame(Message(e, layout))[..n]
    ensures var fed := FeedAll(INITIAL, chunks, limit);
            && (fed.rejected || !Finished(fed.state) || Silent(e, layout, n))
            && (Silent(e, layout, n) && n <= limit ==> !fed.rejected && Finished(fed.state))
            && (!fed.rejected ==> fed.events == Messages(items))
  {
    hide Drain, FeedAll, Sendable, FrameCost, Frame, WithFields, FieldLines, FieldLine, Flatten, Silent;
    var text := Frame(Message(e, layout))[..n];
    ChunkingIrrelevant(INITIAL, chunks, limit);
    assert INITIAL.buffer + (Frames(items) + text) == Frames(items) + text;
    FramesThen(items, text, limit);
    var m, part := DrainCut(e, layout, n, limit);
    CutShows(e, layout, m, part, n);
    assert Messages(items) + [] == Messages(items);
  }

  lemma CutShows(e: RawEvent, layout: Layout, m: nat, part: string, n: nat)
    requires Sendable(Message(e, layout)) && m <= 3
    requires n == |FieldLines(e, layout.order[..m], layout.ending)| + |part|
    requires m < 3 ==> |part| < |FieldLine(e, layout.order[m])| + |layout.ending|
    ensures var p := WithFields(EMPTY, e, layout.order[..m]);
            && (Finished(ParserState(p, part)) <==> Silent(e, layout, n))
            && (Silent(e, layout, n) ==> p.size + Bytes(part) <= n)
  {
    hide Carried;
    SomeFields(e, layout, m);
    FirstLineLength(e, layout, m);
    if m == 1 { assert layout.order[..1] == [layout.order[0]]; }
    hide FieldLines;
    if Silent(e, layout, n) && n > 0 { SilentSize(e, layout); }
  }

  lemma FirstLineLength(e: RawEvent, layout: Layout, m: nat)
    requires Legal(layout) && m <= 3
    ensures var first, whole := FieldLine(e, layout.order[0]) + layout.ending,
                                FieldLines(e, layout.order[..m], layout.ending);
            && (m == 0 ==> whole == "") && (m == 1 ==> |whole| == |first|) && (m > 1 ==> |whole| > |first|)
  {
    hide FieldLine;
    assert m > 0 ==> layout.order[..m][0] == layout.order[0];
    assert m > 1 ==> layout.order[..m][1..][0] == layout.order[1];
  }

  lemma SilentSize(e: RawEvent, layout: Layout)
    requires Legal(layout) && layout.order[0] == IdField && e.id == ""
    ensures WithFields(EMPTY, e, layout.order[..1]).size == 5 && |FieldLine(e, IdField)| == 4
  {
    assert layout.order[..1] == [IdField];
    assert "id: " + "" == "id: ";
    assert "id: "[..3] == "id:" && "id:"[..2] == "id" && "id"[..1] == "i" && "i"[..0] == "";
  }
}
