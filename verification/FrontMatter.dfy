/** The printer and the parser of the sample documents' front matter. */
module FrontMatter {
  import opened Prelude
  import opened Text
  import J = JsonStrings

  datatype Value = Scalar(text: string) | Items(items: seq<string>)

  datatype Entry = Entry(key: string, value: Value)

  datatype Failure = MissingFrontMatter | NotTerminated | ItemWithoutKey | InvalidLine(line: string) | BadJson

  // ---- The printer -----------------------------------------------------------------------------

  function ItemLines(items: seq<string>): seq<string> {
    seq(|items|, i requires 0 <= i < |items| => "  - " + J.Dumps(items[i]))
  }

  function EntryLines(entry: Entry): seq<string> {
    match entry.value
    case Scalar(text) => [entry.key + ": " + J.Dumps(text)]
    case Items(items) => if items == [] then [entry.key + ": []"] else [entry.key + ":"] + ItemLines(items)
  }

  function Lines(entries: seq<Entry>): seq<string> {
    if entries == [] then [] else EntryLines(entries[0]) + Lines(entries[1..])
  }

  function Printed(entries: seq<Entry>): string {
    Join("\n", ["---"] + Lines(entries) + ["---", ""])
  }

  method Print(entries: seq<Entry>) returns (text: string)
    ensures text == Printed(entries)
  {
    hide Join, EntryLines;
    var lines := ["---"];
    for i := 0 to |entries|
      invariant lines + Lines(entries[i..]) == ["---"] + Lines(entries)
    {
      assert entries[i..][1..] == entries[i + 1..];
      var added := EntryText(entries[i]);
      assert lines + (added + Lines(entries[i + 1..])) == lines + added + Lines(entries[i + 1..]);
      lines := lines + added;
    }
    assert lines == ["---"] + Lines(entries);
    text := Join("\n", lines + ["---", ""]);
  }

  method EntryText(entry: Entry) returns (lines: seq<string>)
    ensures lines == EntryLines(entry)
  {
    match entry.value
    case Scalar(text) =>
      lines := [entry.key + ": " + J.Dumps(text)];
    case Items(items) =>
      if items != [] {
        lines := [entry.key + ":"];
        for i := 0 to |items|
          invariant lines == [entry.key + ":"] + ItemLines(items)[..i]
        {
          lines := lines + ["  - " + J.Dumps(items[i])];
        }
      } else {
        lines := [entry.key + ": []"];
      }
  }

  // ---- The parser ------------------------------------------------------------------------------

  /** `active` is the key whose list, shared with the dictionary entry, takes the next items. */
  datatype State = State(entries: seq<Entry>, active: Option<string>)

  const START := State([], None)

  function Assign(entries: seq<Entry>, key: string, value: Value): seq<Entry> {
    if entries == [] then [Entry(key, value)]
    else if entries[0].key == key then [Entry(key, value)] + entries[1..]
    else [entries[0]] + Assign(entries[1..], key, value)
  }

  function AppendItem(entries: seq<Entry>, key: string, item: string): seq<Entry> {
    if entries == [] then []
    else if entries[0].key == key && entries[0].value.Items? then
      [Entry(key, Items(entries[0].value.items + [item]))] + entries[1..]
    else [entries[0]] + AppendItem(entries[1..], key, item)
  }

  const MARKER := "  - "

  function ColonAt(line: string): (n: nat)
    ensures n <= |line| && (n < |line| ==> line[n] == ':') && forall i :: 0 <= i < n ==> line[i] != ':'
  {
    if line == "" || line[0] == ':' then 0 else 1 + ColonAt(line[1..])
  }

  function LineStep(state: State, line: string): Result<State, Failure> {
    if MARKER <= line then
      if state.active.None? then Err(ItemWithoutKey)
      else
        var item := J.Loads(line[4..]);
        if item.Some? && item.value.Text? then
          Ok(State(AppendItem(state.entries, state.active.value, item.value.text), state.active))
        else Err(BadJson)
    else
      var n := ColonAt(line);
      if n == |line| then Err(InvalidLine(line))
      else
        var key, encoded := line[..n], Strip(line[n + 1..]);
        if encoded == "" then Ok(State(Assign(state.entries, key, Items([])), Some(key)))
        else
          var loaded := J.Loads(encoded);
          if loaded.None? then Err(BadJson)
          else if loaded.value.Text? then Ok(State(Assign(state.entries, key, Scalar(loaded.value.text)), None))
          else Ok(State(Assign(state.entries, key, Items([])), None))
  }

  function Fold(state: State, lines: seq<string>): Result<State, Failure>
    decreases |lines|
  {
    if lines == [] then Ok(state)
    else
      var next := LineStep(state, lines[0]);
      if next.Err? then next else Fold(next.value, lines[1..])
  }

  function DropNewlines(body: string): string {
    if body != "" && body[0] == '\n' then DropNewlines(body[1..]) else body
  }

  const FENCE := "\n---\n"

  function Parsed(text: string): Result<(seq<Entry>, string), Failure> {
    if !("---\n" <= text) then Err(MissingFrontMatter)
    else
      var rest := text[4..];
      var cut := Find(rest, FENCE, 0);
      if cut.None? then Err(NotTerminated)
      else
        var end := Fold(START, SplitLines(rest[..cut.value]));
        if end.Err? then Err(end.error) else Ok((end.value.entries, DropNewlines(rest[cut.value + 5..])))
  }

  method Parse(text: string) returns (result: Result<(seq<Entry>, string), Failure>)
    ensures result == Parsed(text)
  {
    hide LineStep, SplitLines;
    if !("---\n" <= text) { return Err(MissingFrontMatter); }
    var rest := text[4..];
    var cut := Find(rest, FENCE, 0);
    if cut.None? { return Err(NotTerminated); }
    var lines, state := SplitLines(rest[..cut.value]), START;
    for i := 0 to |lines|
      invariant Fold(state, lines[i..]) == Fold(START, lines)
    {
      assert lines[i..][1..] == lines[i + 1..];
      var next := LineStep(state, lines[i]);
      if next.Err? { return Err(next.error); }
      state := next.value;
    }
    return Ok((state.entries, DropNewlines(rest[cut.value + 5..])));
  }

  // ---- What the printer writes -----------------------------------------------------------------

  /** A key that the line format can carry. */
  ghost predicate PlainKey(key: string) {
    BreakFree(key) && ':' !in key && !(MARKER <= key)
  }

  /** The value is free of the line separators that the JSON writer leaves as they are. */
  ghost predicate PlainText(text: string) {
    forall i :: 0 <= i < |text| ==> text[i] as int != 0x85 && text[i] as int != 0x2028 && text[i] as int != 0x2029
  }

  ghost predicate PlainValue(value: Value) {
    match value
    case Scalar(text) => PlainText(text)
    case Items(items) => forall i :: 0 <= i < |items| ==> PlainText(items[i])
  }

  ghost predicate PlainValues(entries: seq<Entry>) {
    forall i :: 0 <= i < |entries| ==> PlainValue(entries[i].value)
  }

  ghost predicate Dictionary(entries: seq<Entry>) {
    && (forall i :: 0 <= i < |entries| ==> PlainKey(entries[i].key))
    && forall i, j :: 0 <= i < j < |entries| ==> entries[i].key != entries[j].key
  }

  ghost predicate NewlineFree(line: string) {
    '\n' !in line
  }

  lemma EscapeCharPlain(c: char)
    ensures NewlineFree(J.EscapeChar(c))
    ensures BreakFree(J.EscapeChar(c)) <==> PlainText([c])
  {
    var text := J.EscapeChar(c);
    if (c as int) < 32 || c == '"' || c == '\\' {
      assert BreakFree(text);
      assert [c][0] == c;
    } else {
      assert text == [c];
    }
  }

  lemma BreakFreeConcat(a: string, b: string)
    ensures BreakFree(a + b) <==> BreakFree(a) && BreakFree(b)
  {
    if BreakFree(a + b) {
      forall i | 0 <= i < |a| ensures !IsLineBreak(a[i]) { assert (a + b)[i] == a[i]; }
      forall i | 0 <= i < |b| ensures !IsLineBreak(b[i]) { assert (a + b)[|a| + i] == b[i]; }
    }
  }

  lemma {:induction false} EscapedPlain(s: string)
    ensures NewlineFree(J.Escaped(s))
    ensures BreakFree(J.Escaped(s)) <==> PlainText(s)
  {
    if s != "" {
      EscapedPlain(s[1..]);
      EscapeCharPlain(s[0]);
      BreakFreeConcat(J.EscapeChar(s[0]), J.Escaped(s[1..]));
      hide J.EscapeChar;
      assert s == [s[0]] + s[1..];
      assert PlainText(s) <==> PlainText([s[0]]) && PlainText(s[1..]) by { PlainConcat([s[0]], s[1..]); }
    }
  }

  lemma PlainConcat(a: string, b: string)
    ensures PlainText(a + b) <==> PlainText(a) && PlainText(b)
  {
    if PlainText(a + b) {
      forall i | 0 <= i < |a| ensures a[i] as int != 0x85 && a[i] as int != 0x2028 && a[i] as int != 0x2029 {
        assert (a + b)[i] == a[i];
      }
      forall i | 0 <= i < |b| ensures b[i] as int != 0x85 && b[i] as int != 0x2028 && b[i] as int != 0x2029 {
        assert (a + b)[|a| + i] == b[i];
      }
    }
  }

  lemma DumpsPlain(s: string)
    ensures NewlineFree(J.Dumps(s))
    ensures BreakFree(J.Dumps(s)) <==> PlainText(s)
  {
    EscapedPlain(s);
    BreakFreeConcat("\"" + J.Escaped(s), "\"");
    BreakFreeConcat("\"", J.Escaped(s));
  }

  /** Cut at its first line break, the line is refused in any state. */
  ghost predicate FailsWhenCut(line: string) {
    forall state :: LineStep(state, line[..FirstBreak(line)]).Err?
  }

  /** What the proofs need of a printed line. */
  ghost predicate GoodLine(line: string) {
    && line != "" && NewlineFree(line) && line != "---"
    && (!BreakFree(line) ==> FailsWhenCut(line))
  }

  lemma KeyIsFound(key: string, rest: string)
    requires PlainKey(key)
    ensures var line := key + ":" + rest;
            ColonAt(line) == |key| && line[..|key|] == key && line[|key| + 1..] == rest && !(MARKER <= line)
  {
    var line := key + ":" + rest;
    assert line[|key|] == ':';
    assert forall i :: 0 <= i < |key| ==> line[i] == key[i];
    if |key| >= 4 {
      assert line[..4] == key[..4];
    } else {
      assert MARKER[|key|] != ':' == line[|key|];
    }
  }

  lemma {:induction false} TrimRightNotAll(s: string, i: nat)
    requires i < |s| && !IsSpace(s[i])
    ensures |TrimRight(s)| > i && TrimRight(s) <= s
  {
    if IsSpace(s[|s| - 1]) { TrimRightNotAll(s[..|s| - 1], i); }
  }

  /** Stripping the text after the colon removes the space that the printer wrote, and spaces at the end. */
  lemma StripEncoded(text: string)
    requires text != "" && !IsSpace(text[0])
    ensures Strip(" " + text) == TrimRight(text) && TrimRight(text) <= text && TrimRight(text) != ""
    ensures !IsSpace(text[|text| - 1]) ==> TrimRight(text) == text
  {
    assert (" " + text)[1..] == text;
    assert TrimLeft(text) == text;
    TrimRightNotAll(text, 0);
  }

  lemma CutScalarFails(key: string, text: string, n: nat, state: State)
    requires PlainKey(key) && n <= |J.Escaped(text)|
    ensures LineStep(state, key + ": " + "\"" + J.Escaped(text)[..n]).Err?
  {
    hide J.Loads, J.Escaped;
    var encoded := "\"" + J.Escaped(text)[..n];
    var line := key + ": " + "\"" + J.Escaped(text)[..n];
    assert line == key + ":" + (" " + encoded);
    CutLiteralFails(text, n);
    StripEncoded(encoded);
    hide TrimRight, Strip;
    KeyIsFound(key, " " + encoded);
  }

  /** A literal cut before its closing quote is refused, with or without the white space at its end. */
  lemma CutLiteralFails(text: string, n: nat)
    requires n <= |J.Escaped(text)|
    ensures J.Loads(TrimRight("\"" + J.Escaped(text)[..n])).None?
  {
    hide J.Loads, J.Escaped;
    var encoded := "\"" + J.Escaped(text)[..n];
    StripEncoded(encoded);
    var kept := TrimRight(encoded);
    hide TrimRight, Strip;
    assert kept == "\"" + J.Escaped(text)[..|kept| - 1];
    J.LoadsCut(text, |kept| - 1);
  }

  lemma CutItemFails(item: string, n: nat, state: State)
    requires n <= |J.Escaped(item)|
    ensures LineStep(state, MARKER + "\"" + J.Escaped(item)[..n]).Err?
  {
    hide J.Loads, J.Escaped;
    var line := MARKER + "\"" + J.Escaped(item)[..n];
    assert line[4..] == "\"" + J.Escaped(item)[..n];
    J.LoadsCut(item, n);
  }

  /** A line made of a break-free head and a literal breaks, if at all, inside the literal. */
  lemma CutInLiteral(head: string, text: string)
    requires BreakFree(head) && !BreakFree(head + J.Dumps(text))
    ensures var n := FirstBreak(head + J.Dumps(text)) - |head| - 1;
            0 <= n <= |J.Escaped(text)|
            && (head + J.Dumps(text))[..FirstBreak(head + J.Dumps(text))] == head + "\"" + J.Escaped(text)[..n]
  {
    hide J.Escaped;
    CutInside(head + "\"", J.Escaped(text), head + J.Dumps(text));
    BreakFreeConcat(head, "\"");
    assert head + J.Dumps(text) == head + "\"" + J.Escaped(text) + "\"";
  }

  lemma CutInside(head: string, middle: string, line: string)
    requires line == head + middle + "\"" && !BreakFree(line) && BreakFree(head)
    ensures |head| <= FirstBreak(line) <= |head| + |middle|
    ensures line[..FirstBreak(line)] == head + middle[..FirstBreak(line) - |head|]
  {
    var n := FirstBreak(line);
    assert forall i :: 0 <= i < |head| ==> line[i] == head[i];
    assert line[|line| - 1] == '"';
  }

  lemma ScalarLineIsGood(key: string, text: string)
    requires PlainKey(key)
    ensures GoodLine(key + ": " + J.Dumps(text))
    ensures BreakFree(key + ": " + J.Dumps(text)) <==> PlainText(text)
  {
    hide J.Escaped, LineStep;
    var head := key + ": ";
    var line := head + J.Dumps(text);
    DumpsPlain(text);
    BreakFreeConcat(key, ": ");
    BreakFreeConcat(head, J.Dumps(text));
    KeyNewlineFree(key);
    assert line[|key|] == ':';
    if !BreakFree(line) {
      CutInLiteral(head, text);
      forall state
        ensures LineStep(state, line[..FirstBreak(line)]).Err?
      {
        CutScalarFails(key, text, FirstBreak(line) - |head| - 1, state);
      }
    }
  }

  lemma KeyNewlineFree(key: string)
    requires BreakFree(key)
    ensures NewlineFree(key)
  {
  }

  lemma ItemLineIsGood(item: string)
    ensures GoodLine(MARKER + J.Dumps(item))
    ensures BreakFree(MARKER + J.Dumps(item)) <==> PlainText(item)
  {
    hide J.Escaped, LineStep;
    var line := MARKER + J.Dumps(item);
    DumpsPlain(item);
    BreakFreeConcat(MARKER, J.Dumps(item));
    assert line[0] == ' ';
    if !BreakFree(line) {
      CutInLiteral(MARKER, item);
      forall state
        ensures LineStep(state, line[..FirstBreak(line)]).Err?
      {
        CutItemFails(item, FirstBreak(line) - 5, state);
      }
    }
  }

  lemma KeyLineIsGood(key: string, tail: string)
    requires PlainKey(key) && (tail == ":" || tail == ": []")
    ensures GoodLine(key + tail) && BreakFree(key + tail)
  {
    hide LineStep;
    BreakFreeConcat(key, tail);
    KeyNewlineFree(key);
    assert (key + tail)[|key|] == ':';
  }

  ghost predicate AllGood(lines: seq<string>) {
    forall i :: 0 <= i < |lines| ==> GoodLine(lines[i])
  }

  ghost predicate AllBreakFree(lines: seq<string>) {
    forall i :: 0 <= i < |lines| ==> BreakFree(lines[i])
  }

  lemma AllConcat(a: seq<string>, b: seq<string>)
    ensures AllGood(a) && AllGood(b) ==> AllGood(a + b)
    ensures AllBreakFree(a + b) <==> AllBreakFree(a) && AllBreakFree(b)
  {
    hide GoodLine, BreakFree;
    if AllBreakFree(a + b) {
      forall i | 0 <= i < |a| ensures BreakFree(a[i]) { assert (a + b)[i] == a[i]; }
      forall i | 0 <= i < |b| ensures BreakFree(b[i]) { assert (a + b)[|a| + i] == b[i]; }
    }
  }

  lemma EntryLinesAreGood(entry: Entry)
    requires PlainKey(entry.key)
    ensures AllGood(EntryLines(entry)) && EntryLines(entry) != []
    ensures AllBreakFree(EntryLines(entry)) <==> PlainValue(entry.value)
  {
    hide GoodLine, BreakFree, PlainText;
    match entry.value
    case Scalar(text) =>
      ScalarLineIsGood(entry.key, text);
      assert EntryLines(entry)[0] == entry.key + ": " + J.Dumps(text);
    case Items(items) =>
      if items == [] {
        KeyLineIsGood(entry.key, ": []");
      } else {
        KeyLineIsGood(entry.key, ":");
        forall i | 0 <= i < |items|
          ensures GoodLine(ItemLines(items)[i]) && (BreakFree(ItemLines(items)[i]) <==> PlainText(items[i]))
        {
          ItemLineIsGood(items[i]);
        }
        AllConcat([entry.key + ":"], ItemLines(items));
        if AllBreakFree(ItemLines(items)) {
          forall i | 0 <= i < |items| ensures PlainText(items[i]) { assert BreakFree(ItemLines(items)[i]); }
        }
      }
  }

  lemma {:induction false} LinesAreGood(entries: seq<Entry>)
    requires forall i :: 0 <= i < |entries| ==> PlainKey(entries[i].key)
    ensures AllGood(Lines(entries)) && (entries != [] ==> Lines(entries) != [])
    ensures AllBreakFree(Lines(entries)) <==> PlainValues(entries)
  {
    hide AllGood, AllBreakFree, EntryLines, PlainValue, PlainKey;
    if entries == [] {
      NoLinesAreGood();
    } else {
      EntryLinesAreGood(entries[0]);
      LinesAreGood(entries[1..]);
      AllConcat(EntryLines(entries[0]), Lines(entries[1..]));
      PlainValuesSplit(entries);
    }
  }

  lemma NoLinesAreGood()
    ensures AllGood([]) && AllBreakFree([])
  {
  }

  lemma PlainValuesSplit(entries: seq<Entry>)
    requires entries != []
    ensures PlainValues(entries) <==> PlainValue(entries[0].value) && PlainValues(entries[1..])
  {
    hide PlainValue;
    assert forall i :: 0 <= i < |entries[1..]| ==> entries[1..][i] == entries[i + 1];
    if PlainValues(entries[1..]) && PlainValue(entries[0].value) {
      forall i | 0 <= i < |entries| ensures PlainValue(entries[i].value) {
        if i > 0 { assert entries[1..][i - 1] == entries[i]; }
      }
    }
  }

  // ---- Finding the end of the front matter -----------------------------------------------------

  lemma {:induction false} NoFenceInside(lines: seq<string>, tail: string, j: nat)
    requires lines != [] && AllGood(lines) && tail != "" && tail[0] == '\n'
    requires j < |Join("\n", lines)|
    ensures !IsAt(Join("\n", lines) + tail, FENCE, j)
    decreases |lines|
  {
    hide LineStep;
    var text := Join("\n", lines) + tail;
    var first := lines[0];
    assert GoodLine(first);
    if j < |first| {
      assert text[j] == first[j] != '\n';
    } else {
      var more := Join("\n", lines[1..]) + tail;
      assert text == first + "\n" + more;
      if j == |first| {
        assert GoodLine(lines[1]);
        NoFenceAtStart(lines[1..], tail);
        assert text[j + 1..] == more;
        if IsAt(text, FENCE, j) { FenceTail(text, j); }
      } else {
        NoFenceInside(lines[1..], tail, j - |first| - 1);
        assert text[|first| + 1..] == more;
        if IsAt(text, FENCE, j) { ShiftedIsAt(text, FENCE, |first| + 1, j); }
      }
    }
  }

  lemma NoFenceAtStart(lines: seq<string>, tail: string)
    requires lines != [] && GoodLine(lines[0]) && tail != "" && tail[0] == '\n'
    ensures !("---\n" <= Join("\n", lines) + tail)
  {
    hide LineStep;
    var text, first := Join("\n", lines) + tail, lines[0];
    assert first <= text && |text| > |first| && text[|first|] == '\n';
    if "---\n" <= text { DashesStart(text, first); }
  }

  lemma DashesStart(text: string, first: string)
    requires "---\n" <= text && first <= text && |text| > |first| && text[|first|] == '\n' && NewlineFree(first)
    ensures first == "---"
  {
    assert text[0] == '-' && text[1] == '-' && text[2] == '-' && text[3] == '\n';
    assert forall i :: 0 <= i < |first| ==> text[i] == first[i] != '\n';
  }

  lemma FenceTail(text: string, j: nat)
    requires IsAt(text, FENCE, j)
    ensures "---\n" <= text[j + 1..]
  {
    assert text[j + 1..][..4] == text[j..j + 5][1..];
  }

  lemma ShiftedIsAt(text: string, pattern: string, k: nat, j: nat)
    requires k <= j && IsAt(text, pattern, j)
    ensures IsAt(text[k..], pattern, j - k)
  {
    assert text[k..][j - k..j - k + |pattern|] == text[j..j + |pattern|];
  }

  lemma PrintedShape(entries: seq<Entry>, body: string)
    requires entries != [] && Lines(entries) != []
    ensures Printed(entries) + body == "---\n" + (Join("\n", Lines(entries)) + (FENCE + body))
  {
    var lines := Lines(entries);
    hide Lines;
    JoinSnoc("\n", ["---"] + lines + ["---"], "");
    JoinSnoc("\n", ["---"] + lines, "---");
    assert ["---"] + lines + ["---"] + [""] == ["---"] + lines + ["---", ""];
    assert (["---"] + lines)[1..] == lines;
  }

  lemma CutIsFound(lines: seq<string>, body: string)
    requires lines != [] && AllGood(lines)
    ensures Find(Join("\n", lines) + (FENCE + body), FENCE, 0) == Some(|Join("\n", lines)|)
  {
    hide AllGood;
    var raw := Join("\n", lines);
    var text := raw + (FENCE + body);
    forall j | 0 <= j < |raw|
      ensures !IsAt(text, FENCE, j)
    {
      NoFenceInside(lines, FENCE + body, j);
    }
    hide Join;
    assert text[|raw|..|raw| + 5] == FENCE;
    assert IsAt(text, FENCE, |raw|);
  }

  lemma ParsedPrinted(entries: seq<Entry>, body: string)
    requires entries != [] && forall i :: 0 <= i < |entries| ==> PlainKey(entries[i].key)
    ensures var end := Fold(START, SplitLines(Join("\n", Lines(entries))));
            Parsed(Printed(entries) + body) ==
              if end.Err? then Err(end.error) else Ok((end.value.entries, DropNewlines(body)))
  {
    hide Lines, Printed, Fold, SplitLines, PlainKey, AllGood, AllBreakFree, PlainValues, Parsed, Join, Find,
         DropNewlines;
    LinesAreGood(entries);
    PrintedShape(entries, body);
    CutIsFound(Lines(entries), body);
    ParsedCut(Join("\n", Lines(entries)), body);
  }

  /** Parsing a text whose fence is found right after its raw metadata. */
  lemma ParsedCut(raw: string, body: string)
    requires Find(raw + (FENCE + body), FENCE, 0) == Some(|raw|)
    ensures var end := Fold(START, SplitLines(raw));
            Parsed("---\n" + (raw + (FENCE + body))) ==
              if end.Err? then Err(end.error) else Ok((end.value.entries, DropNewlines(body)))
  {
    hide Fold, SplitLines, Find, DropNewlines;
    var text := "---\n" + (raw + (FENCE + body));
    assert text[4..] == raw + (FENCE + body);
    assert text[4..][..|raw|] == raw && text[4..][|raw| + 5..] == body;
  }

  // ---- Reading the lines back ------------------------------------------------------------------

  lemma {:induction false} FoldSplit(state: State, a: seq<string>, b: seq<string>)
    ensures Fold(state, a + b) == if Fold(state, a).Err? then Fold(state, a) else Fold(Fold(state, a).value, b)
    decreases |a|
  {
    hide LineStep;
    if a == [] {
      assert a + b == b;
    } else {
      assert (a + b)[1..] == a[1..] + b;
      if LineStep(state, a[0]).Ok? { FoldSplit(LineStep(state, a[0]).value, a[1..], b); }
    }
  }

  ghost predicate Unused(entries: seq<Entry>, key: string) {
    forall i :: 0 <= i < |entries| ==> entries[i].key != key
  }

  lemma {:induction false} AssignNew(entries: seq<Entry>, key: string, value: Value)
    requires Unused(entries, key)
    ensures Assign(entries, key, value) == entries + [Entry(key, value)]
  {
    if entries != [] { AssignNew(entries[1..], key, value); }
  }

  lemma {:induction false} AppendToLast(entries: seq<Entry>, key: string, items: seq<string>, item: string)
    requires Unused(entries, key)
    ensures AppendItem(entries + [Entry(key, Items(items))], key, item) == entries + [Entry(key, Items(items + [item]))]
  {
    var all := entries + [Entry(key, Items(items))];
    if entries != [] {
      assert all[1..] == entries[1..] + [Entry(key, Items(items))];
      AppendToLast(entries[1..], key, items, item);
    }
  }

  lemma ScalarStep(state: State, key: string, text: string)
    requires PlainKey(key) && Unused(state.entries, key)
    ensures LineStep(state, key + ": " + J.Dumps(text)) == Ok(State(state.entries + [Entry(key, Scalar(text))], None))
  {
    hide J.Loads, J.Escaped;
    var encoded := J.Dumps(text);
    assert key + ": " + encoded == key + ":" + (" " + encoded);
    KeyIsFound(key, " " + encoded);
    assert encoded[0] == '"' && encoded[|encoded| - 1] == '"';
    StripEncoded(encoded);
    hide Strip;
    J.LoadsDumps(text);
    AssignNew(state.entries, key, Scalar(text));
  }

  lemma EmptyListStep(state: State, key: string)
    requires PlainKey(key) && Unused(state.entries, key)
    ensures LineStep(state, key + ": []") == Ok(State(state.entries + [Entry(key, Items([]))], None))
  {
    hide J.Loads, TrimRight, ColonAt, Assign;
    assert key + ": []" == key + ":" + (" " + "[]");
    KeyIsFound(key, " " + "[]");
    StripEncoded("[]");
    hide Strip;
    J.LoadsEmptyList();
    AssignNew(state.entries, key, Items([]));
  }

  lemma ListStep(state: State, key: string)
    requires PlainKey(key) && Unused(state.entries, key)
    ensures LineStep(state, key + ":") == Ok(State(state.entries + [Entry(key, Items([]))], Some(key)))
  {
    assert key + ":" == key + ":" + "";
    KeyIsFound(key, "");
    AssignNew(state.entries, key, Items([]));
  }

  lemma ItemStep(entries: seq<Entry>, key: string, items: seq<string>, item: string)
    requires Unused(entries, key)
    ensures LineStep(State(entries + [Entry(key, Items(items))], Some(key)), MARKER + J.Dumps(item))
              == Ok(State(entries + [Entry(key, Items(items + [item]))], Some(key)))
  {
    hide J.Loads, J.Escaped;
    var line := MARKER + J.Dumps(item);
    assert MARKER <= line && line[4..] == J.Dumps(item);
    J.LoadsDumps(item);
    AppendToLast(entries, key, items, item);
  }

  lemma {:induction false} ItemsFold(entries: seq<Entry>, key: string, done: seq<string>, items: seq<string>)
    requires Unused(entries, key)
    ensures Fold(State(entries + [Entry(key, Items(done))], Some(key)), ItemLines(items))
              == Ok(State(entries + [Entry(key, Items(done + items))], Some(key)))
    decreases |items|
  {
    hide LineStep, Unused;
    if items == [] {
      assert done + items == done;
    } else {
      ItemStep(entries, key, done, items[0]);
      ItemsFold(entries, key, done + [items[0]], items[1..]);
      assert ItemLines(items)[1..] == ItemLines(items[1..]);
      assert done + [items[0]] + items[1..] == done + items;
    }
  }

  lemma EntryFold(state: State, entry: Entry)
    requires PlainKey(entry.key) && Unused(state.entries, entry.key)
    ensures Fold(state, EntryLines(entry)).Ok?
    ensures Fold(state, EntryLines(entry)).value.entries == state.entries + [entry]
  {
    hide LineStep, Unused, PlainKey, ItemLines;
    match entry.value
    case Scalar(text) =>
      ScalarStep(state, entry.key, text);
    case Items(items) =>
      if items == [] {
        EmptyListStep(state, entry.key);
      } else {
        ListStep(state, entry.key);
        assert EntryLines(entry)[1..] == ItemLines(items);
        ItemsFold(state.entries, entry.key, [], items);
        assert [] + items == items;
      }
  }

  lemma {:induction false} LinesFold(state: State, entries: seq<Entry>)
    requires Dictionary(state.entries + entries)
    ensures Fold(state, Lines(entries)).Ok?
    ensures Fold(state, Lines(entries)).value.entries == state.entries + entries
    decreases |entries|
  {
    hide EntryLines, PlainKey, LineStep;
    if entries == [] {
      assert state.entries + entries == state.entries;
    } else {
      var all := state.entries + entries;
      assert all[|state.entries|] == entries[0];
      forall i | 0 <= i < |state.entries| ensures state.entries[i].key != entries[0].key {
        assert all[i] == state.entries[i];
      }
      EntryFold(state, entries[0]);
      FoldSplit(state, EntryLines(entries[0]), Lines(entries[1..]));
      assert state.entries + [entries[0]] + entries[1..] == all;
      hide Fold;
      LinesFold(Fold(state, EntryLines(entries[0])).value, entries[1..]);
    }
  }

  // ---- Lines that break ------------------------------------------------------------------------

  /** Joined lines split into the whole lines before the first broken one, its first piece, and more. */
  lemma {:induction false} SplitBroken(lines: seq<string>, i: nat) returns (more: seq<string>)
    requires i < |lines| && AllGood(lines)
    requires forall k :: 0 <= k < i ==> BreakFree(lines[k])
    requires !BreakFree(lines[i])
    ensures SplitLines(Join("\n", lines)) == lines[..i] + [lines[i][..FirstBreak(lines[i])]] + more
    decreases |lines|
  {
    hide GoodLine, SplitLines, FirstBreak, BreakFree;
    var line := lines[0];
    if i == 0 {
      assert line <= Join("\n", lines);
      more := SplitInside(line, Join("\n", lines));
      var cut := [line[..FirstBreak(line)]];
      assert lines[..0] + cut + more == cut + more;
    } else {
      var rest := lines[1..];
      assert forall k :: 0 <= k < |rest| ==> rest[k] == lines[k + 1];
      more := SplitBroken(rest, i - 1);
      var cut := [lines[i][..FirstBreak(lines[i])]];
      JoinedSplitsFirst(lines);
      assert lines[..i] == [line] + rest[..i - 1];
      assert [line] + (rest[..i - 1] + cut + more) == lines[..i] + cut + more;
    }
  }

  lemma JoinedSplitsFirst(lines: seq<string>)
    requires |lines| > 1 && BreakFree(lines[0])
    ensures SplitLines(Join("\n", lines)) == [lines[0]] + SplitLines(Join("\n", lines[1..]))
  {
    hide SplitLines;
    SplitFirst(lines[0], '\n', Join("\n", lines[1..]));
    assert "\n" == ['\n'];
  }

  lemma SplitInside(line: string, text: string) returns (more: seq<string>)
    requires line <= text && !BreakFree(line)
    ensures SplitLines(text) == [line[..FirstBreak(line)]] + more
  {
    var n := FirstBreak(line);
    assert text[..n] == line[..n];
    assert BreakFree(text[..n]);
    assert text[n] == line[n];
    FirstBreakAt(text, n);
    var next := if text[n] == '\r' && n + 1 < |text| && text[n + 1] == '\n' then n + 2 else n + 1;
    more := SplitLines(text[next..]);
  }

  lemma {:induction false} FirstBroken(lines: seq<string>) returns (i: nat)
    requires !AllBreakFree(lines)
    ensures i < |lines| && !BreakFree(lines[i]) && forall k :: 0 <= k < i ==> BreakFree(lines[k])
  {
    hide BreakFree;
    if BreakFree(lines[0]) {
      assert !AllBreakFree(lines[1..]) by {
        assert lines == [lines[0]] + lines[1..];
        AllConcat([lines[0]], lines[1..]);
      }
      var j := FirstBroken(lines[1..]);
      i := j + 1;
    } else {
      i := 0;
    }
  }

  lemma BrokenLinesFail(lines: seq<string>)
    requires AllGood(lines) && !AllBreakFree(lines)
    ensures Fold(START, SplitLines(Join("\n", lines))).Err?
  {
    var i := FirstBroken(lines);
    var more := SplitBroken(lines, i);
    var cut := lines[i][..FirstBreak(lines[i])];
    assert FailsWhenCut(lines[i]) by { assert GoodLine(lines[i]); }
    hide AllGood, AllBreakFree, BreakFree, SplitLines;
    FoldSplit(START, lines[..i] + [cut], more);
    FoldSplit(START, lines[..i], [cut]);
    assert forall state :: Fold(state, [cut]).Err?;
  }

  // ---- The round trip --------------------------------------------------------------------------

  /** Parsing what was printed gives the metadata and the body back, without the newlines the body starts
      with, exactly when there is metadata and no value has a separator that the JSON writer leaves raw;
      otherwise the parser refuses the text. */
  lemma PrintedParsesBack(entries: seq<Entry>, body: string)
    requires Dictionary(entries)
    ensures if entries != [] && PlainValues(entries)
            then Parsed(Printed(entries) + body) == Ok((entries, DropNewlines(body)))
            else Parsed(Printed(entries) + body).Err?
  {
    hide Lines, Printed, Parsed, Fold, SplitLines, PlainKey, Join, DropNewlines, PlainValue;
    if entries == [] {
      EmptyMetadataFails(body);
    } else {
      LinesAreGood(entries);
      ParsedPrinted(entries, body);
      if PlainValues(entries) {
        GoodLinesSplit(Lines(entries));
        assert START.entries + entries == entries;
        LinesFold(START, entries);
      } else {
        BrokenLinesFail(Lines(entries));
      }
    }
  }

  lemma GoodLinesSplit(lines: seq<string>)
    requires lines != [] && AllGood(lines) && AllBreakFree(lines)
    ensures SplitLines(Join("\n", lines)) == lines
  {
    hide BreakFree;
    assert GoodLine(lines[|lines| - 1]);
    SplitJoined(lines);
  }

  lemma EmptyMetadataFails(body: string)
    ensures Parsed(Printed([]) + body).Err?
  {
    var text := Printed([]) + body;
    PrintedEmpty();
    hide Printed, Fold, SplitLines;
    assert text[4..] == "---\n" + body;
    var rest := text[4..];
    var cut := Find(rest, FENCE, 0);
    hide Find;
    if cut.Some? {
      assert rest[0] == '-' && rest[1] == '-' && rest[2] == '-' && rest[3] == '\n';
      assert rest[cut.value] == rest[cut.value..cut.value + 5][0] == '\n';
      FirstLineIsDashes(rest[..cut.value]);
    }
  }

  lemma PrintedEmpty()
    ensures Printed([]) == "---\n---\n"
  {
    assert ["---"] + Lines([]) + ["---", ""] == ["---", "---", ""];
    assert ["---", "---", ""][1..] == ["---", ""] && ["---", ""][1..] == [""];
    assert Join("\n", ["---", ""]) == "---" + "\n" + "";
    assert Join("\n", ["---", "---", ""]) == "---" + "\n" + Join("\n", ["---", ""]);
  }

  lemma FirstLineIsDashes(raw: string)
    requires |raw| >= 3 && raw[..3] == "---" && (|raw| > 3 ==> raw[3] == '\n')
    ensures Fold(START, SplitLines(raw)).Err?
  {
    DashesFail();
    hide LineStep, SplitLines;
    if |raw| == 3 {
      assert raw == "---";
      SplitOnly(raw);
      assert SplitLines(raw)[0] == "---";
    } else {
      assert raw == "---" + ['\n'] + raw[4..];
      SplitFirst("---", '\n', raw[4..]);
      assert SplitLines(raw)[0] == "---";
    }
  }

  lemma DashesFail()
    ensures LineStep(START, "---").Err?
  {
    assert ColonAt("---") == 3;
    assert !(MARKER <= "---");
  }

  /** The body comes back as it is exactly when it does not start with a newline. */
  lemma {:induction false} BodyIsKept(body: string)
    ensures DropNewlines(body) == body <==> (body == "" || body[0] != '\n')
    ensures |DropNewlines(body)| <= |body|
  {
    if body != "" && body[0] == '\n' { BodyIsKept(body[1..]); }
  }
}
