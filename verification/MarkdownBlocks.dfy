/** The Markdown parser: normalized lines become sections at headings and blocks of one kind. */
module MarkdownBlocks {
  import opened Prelude
  import opened Sequences
  import opened Text
  import opened Words

  datatype Kind = Heading | Paragraph | List | Table | Blockquote | CodeFence

  datatype Line = Line(text: string, source: nat)

  type Path = seq<string>

  datatype Block = Block(kind: Kind, text: string, start: nat, end: nat, path: Path)

  datatype Section = Section(heading: string, path: Path, level: nat, start: nat, end: nat, blocks: seq<Block>)

  datatype ParseError = NoSections

  // ---- Kinds of lines --------------------------------------------------------------------------

  function Hashes(text: string): (n: nat)
    ensures n <= |text|
  {
    if text != "" && text[0] == '#' then 1 + Hashes(text[1..]) else 0
  }

  /** One to six hashes, white space, and at least one more character. */
  predicate IsHeading(text: string) {
    var n := Hashes(text);
    1 <= n <= 6 && n + 2 <= |text| && IsSpace(text[n])
  }

  function Title(text: string): string {
    Strip(text[Hashes(text)..])
  }

  function Digits(unicode: Unicode, text: string): (n: nat)
    ensures n <= |text|
  {
    if text != "" && unicode.digit(text[0]) then 1 + Digits(unicode, text[1..]) else 0
  }

  /** A bullet, or a number and a dot or parenthesis, followed by white space. */
  predicate IsListItem(unicode: Unicode, text: string) {
    var t := TrimLeft(text);
    || (|t| >= 2 && (t[0] == '-' || t[0] == '+' || t[0] == '*') && IsSpace(t[1]))
    || (var n := Digits(unicode, t);
        n >= 1 && n + 2 <= |t| && (t[n] == '.' || t[n] == ')') && IsSpace(t[n + 1]))
  }

  function KindOf(unicode: Unicode, text: string): Kind {
    if IsHeading(text) then Heading
    else if "```" <= TrimLeft(text) then CodeFence
    else if "|" <= TrimLeft(text) then Table
    else if ">" <= TrimLeft(text) then Blockquote
    else if IsListItem(unicode, text) then List
    else Paragraph
  }

  // ---- Blocks ----------------------------------------------------------------------------------

  function Texts(lines: seq<Line>): seq<string> {
    seq(|lines|, i requires 0 <= i < |lines| => lines[i].text)
  }

  /** Past the closing fence at or after `k`, or at the end. */
  function FenceEnd(lines: seq<Line>, k: nat): (n: nat)
    requires k <= |lines|
    ensures k <= n <= |lines|
    decreases |lines| - k
  {
    if k == |lines| then k
    else if "```" <= Strip(lines[k].text) then k + 1
    else FenceEnd(lines, k + 1)
  }

  /** Past the lines of one kind. */
  function KindEnd(unicode: Unicode, lines: seq<Line>, kind: Kind, k: nat): (n: nat)
    requires k <= |lines|
    ensures k <= n <= |lines|
    decreases |lines| - k
  {
    if k < |lines| && lines[k].text != "" && KindOf(unicode, lines[k].text) == kind then
      KindEnd(unicode, lines, kind, k + 1)
    else k
  }

  function GroupEnd(unicode: Unicode, lines: seq<Line>): (n: nat)
    requires lines != []
    ensures 1 <= n <= |lines|
  {
    var kind := KindOf(unicode, lines[0].text);
    if kind == CodeFence then FenceEnd(lines, 1)
    else if kind == Heading then 1
    else KindEnd(unicode, lines, kind, 1)
  }

  function GroupText(group: seq<Line>): string {
    Strip(Join("\n", Texts(group)))
  }

  function GroupBlock(unicode: Unicode, group: seq<Line>, path: Path): Block
    requires group != []
  {
    Block(KindOf(unicode, group[0].text), GroupText(group), group[0].source, group[|group| - 1].source, path)
  }

  function BlocksOf(unicode: Unicode, lines: seq<Line>, path: Path): seq<Block>
    decreases |lines|
  {
    if lines == [] then []
    else if lines[0].text == "" then BlocksOf(unicode, lines[1..], path)
    else
      var n := GroupEnd(unicode, lines);
      (if GroupText(lines[..n]) == "" then [] else [GroupBlock(unicode, lines[..n], path)])
      + BlocksOf(unicode, lines[n..], path)
  }

  method Blocks(unicode: Unicode, lines: seq<Line>, path: Path) returns (blocks: seq<Block>)
    ensures blocks == BlocksOf(unicode, lines, path)
  {
    hide BlocksOf, KindOf, GroupEnd, GroupText, GroupBlock;
    blocks := [];
    var index := 0;
    ghost var whole := BlocksOf(unicode, lines, path);
    NothingAround(whole);
    while index < |lines|
      invariant index <= |lines|
      invariant blocks + BlocksOf(unicode, lines[index..], path) == whole
    {
      var left := lines[index..];
      BlocksStep(unicode, left, path);
      if lines[index].text == "" {
        assert left[1..] == lines[index + 1..];
        index := index + 1;
        continue;
      }
      var group := Group(unicode, left);
      assert left[|group|..] == lines[index + |group|..];
      index := index + |group|;
      if GroupText(group) != "" {
        Associative(blocks, [GroupBlock(unicode, group, path)], BlocksOf(unicode, lines[index..], path));
        blocks := blocks + [GroupBlock(unicode, group, path)];
      }
    }
    NoBlocksLeft(unicode, lines[index..], path);
    NothingAround(blocks);
  }

  lemma BlocksStep(unicode: Unicode, lines: seq<Line>, path: Path)
    requires lines != []
    ensures lines[0].text == "" ==> BlocksOf(unicode, lines, path) == BlocksOf(unicode, lines[1..], path)
    ensures lines[0].text != "" ==>
              var n := GroupEnd(unicode, lines);
              BlocksOf(unicode, lines, path) ==
              if GroupText(lines[..n]) == "" then BlocksOf(unicode, lines[n..], path)
              else [GroupBlock(unicode, lines[..n], path)] + BlocksOf(unicode, lines[n..], path)
  {
    hide KindOf, GroupEnd, GroupText, GroupBlock;
    if lines[0].text != "" { NothingAround(BlocksOf(unicode, lines[GroupEnd(unicode, lines)..], path)); }
  }

  lemma NoBlocksLeft(unicode: Unicode, lines: seq<Line>, path: Path)
    requires lines == []
    ensures BlocksOf(unicode, lines, path) == []
  {
  }

  /** The first lines that form one block. */
  method Group(unicode: Unicode, lines: seq<Line>) returns (group: seq<Line>)
    requires lines != []
    ensures group == lines[..GroupEnd(unicode, lines)]
  {
    hide KindOf, Strip;
    var kind := KindOf(unicode, lines[0].text);
    var index := 1;
    group := [lines[0]];
    if kind == CodeFence {
      while index < |lines|
        invariant 1 <= index <= |lines| && group == lines[..index]
        invariant FenceEnd(lines, index) == FenceEnd(lines, 1)
      {
        group := group + [lines[index]];
        index := index + 1;
        if "```" <= Strip(group[|group| - 1].text) {
          assert FenceEnd(lines, index - 1) == index;
          return;
        }
      }
    } else if kind != Heading {
      while index < |lines| && lines[index].text != "" && KindOf(unicode, lines[index].text) == kind
        invariant 1 <= index <= |lines| && group == lines[..index]
        invariant KindEnd(unicode, lines, kind, index) == KindEnd(unicode, lines, kind, 1)
      {
        group := group + [lines[index]];
        index := index + 1;
      }
    }
  }

  // ---- Sections --------------------------------------------------------------------------------

  function Shorter(path: Path, n: nat): Path {
    if |path| <= n then path else path[..n]
  }

  /** The heading path below a heading line. */
  function PathBelow(path: Path, text: string): Path
    requires IsHeading(text)
  {
    Shorter(path, Hashes(text) - 1) + [Title(text)]
  }

  /** The section being collected. */
  datatype Open = Open(lines: seq<Line>, heading: string, level: nat, path: Path)

  const NO_HEADING := Open([], "Document", 0, [])

  function Below(open: Open, line: Line): Open
    requires IsHeading(line.text)
  {
    Open([line], Title(line.text), Hashes(line.text), PathBelow(open.path, line.text))
  }

  /** The finished section, if it has blocks. */
  function Finished(unicode: Unicode, open: Open): seq<Section> {
    var blocks := BlocksOf(unicode, open.lines, open.path);
    if blocks == [] then []
    else [Section(open.heading, open.path, open.level, blocks[0].start, blocks[|blocks| - 1].end, blocks)]
  }

  function SectionsFrom(unicode: Unicode, open: Open, lines: seq<Line>): seq<Section>
    decreases |lines|
  {
    if lines == [] then Finished(unicode, open)
    else if IsHeading(lines[0].text) then
      Finished(unicode, open) + SectionsFrom(unicode, Below(open, lines[0]), lines[1..])
    else SectionsFrom(unicode, open.(lines := open.lines + [lines[0]]), lines[1..])
  }

  function SectionsOf(unicode: Unicode, lines: seq<Line>): seq<Section> {
    SectionsFrom(unicode, NO_HEADING, lines)
  }

  method Sections(unicode: Unicode, lines: seq<Line>) returns (result: Result<seq<Section>, ParseError>)
    ensures result == if SectionsOf(unicode, lines) == [] then Err(NoSections) else Ok(SectionsOf(unicode, lines))
  {
    hide IsHeading, BlocksOf, Strip, Finished, Below, Hashes, Title, Shorter;
    var sections, current := [], [];
    var heading, level, path := "Document", 0, [];
    for i := 0 to |lines|
      invariant sections + SectionsFrom(unicode, Open(current, heading, level, path), lines[i..]) ==
                SectionsOf(unicode, lines)
    {
      assert lines[i..][1..] == lines[i + 1..];
      ghost var open := Open(current, heading, level, path);
      if IsHeading(lines[i].text) {
        sections := Finish(unicode, sections, current, heading, level, path);
        level := Hashes(lines[i].text);
        heading := Title(lines[i].text);
        HeadingLevel(lines[i].text);
        path := Shorter(path, level - 1);
        path := path + [heading];
        current := [lines[i]];
        BelowIs(open, lines[i]);
      } else {
        current := current + [lines[i]];
      }
    }
    sections := Finish(unicode, sections, current, heading, level, path);
    return if sections == [] then Err(NoSections) else Ok(sections);
  }

  lemma BelowIs(open: Open, line: Line)
    requires IsHeading(line.text)
    ensures Below(open, line) ==
            Open([line], Title(line.text), Hashes(line.text),
                 Shorter(open.path, Hashes(line.text) - 1) + [Title(line.text)])
  {
  }

  lemma HeadingLevel(text: string)
    requires IsHeading(text)
    ensures 1 <= Hashes(text) <= 6
  {
  }

  method Finish(unicode: Unicode, sections: seq<Section>, current: seq<Line>, heading: string, level: nat, path: Path)
    returns (more: seq<Section>)
    ensures more == sections + Finished(unicode, Open(current, heading, level, path))
  {
    NoBlocksLeft(unicode, [], path);
    NothingAround(sections);
    hide BlocksOf;
    if current == [] { return sections; }
    var blocks := Blocks(unicode, current, path);
    if blocks == [] { return sections; }
    return sections + [Section(heading, path, level, blocks[0].start, blocks[|blocks| - 1].end, blocks)];
  }

  // ---- What a group and its kind are -----------------------------------------------------------

  lemma {:induction false} FenceEndMeans(lines: seq<Line>, k: nat)
    requires k <= |lines|
    ensures var n := FenceEnd(lines, k);
            && (forall i :: k <= i < n - 1 ==> !("```" <= Strip(lines[i].text)))
            && (n < |lines| ==> n > k && "```" <= Strip(lines[n - 1].text))
    decreases |lines| - k
  {
    hide Strip;
    if k < |lines| && !("```" <= Strip(lines[k].text)) { FenceEndMeans(lines, k + 1); }
  }

  lemma {:induction false} KindEndMeans(unicode: Unicode, lines: seq<Line>, kind: Kind, k: nat)
    requires k <= |lines|
    ensures var n := KindEnd(unicode, lines, kind, k);
            && (forall i :: k <= i < n ==> lines[i].text != "" && KindOf(unicode, lines[i].text) == kind)
            && (n < |lines| ==> lines[n].text == "" || KindOf(unicode, lines[n].text) != kind)
    decreases |lines| - k
  {
    hide KindOf;
    if k < |lines| && lines[k].text != "" && KindOf(unicode, lines[k].text) == kind {
      KindEndMeans(unicode, lines, kind, k + 1);
    }
  }

  /** A heading is a group of its own; a fence runs to the first line that closes it, or to the end; any other
      group takes all following lines of its kind up to the first blank or different one. */
  lemma GroupMeans(unicode: Unicode, lines: seq<Line>)
    requires lines != []
    ensures var n, kind := GroupEnd(unicode, lines), KindOf(unicode, lines[0].text);
            && 1 <= n <= |lines|
            && (kind == Heading ==> n == 1)
            && (kind == CodeFence ==>
                  && (forall i :: 0 < i < n - 1 ==> !("```" <= Strip(lines[i].text)))
                  && (n < |lines| ==> n > 1 && "```" <= Strip(lines[n - 1].text)))
            && (kind != Heading && kind != CodeFence ==>
                  && (forall i :: 0 < i < n ==> lines[i].text != "" && KindOf(unicode, lines[i].text) == kind)
                  && (n < |lines| ==> lines[n].text == "" || KindOf(unicode, lines[n].text) != kind))
  {
    hide KindOf, Strip;
    FenceEndMeans(lines, 1);
    KindEndMeans(unicode, lines, KindOf(unicode, lines[0].text), 1);
  }

  /** The shown part of the text starts with this mark. */
  ghost predicate Marked(text: string, mark: string) {
    exists k :: 0 <= k <= |text| - |mark| && AllSpace(text[..k]) && text[k..k + |mark|] == mark
  }

  /** From k on the text has a bullet, or digits and a dot or parenthesis, up to m, and white space there. */
  ghost predicate ItemAt(unicode: Unicode, text: string, k: int, m: int) {
    && 0 <= k < m < |text| && AllSpace(text[..k]) && !IsSpace(text[k]) && IsSpace(text[m])
    && (|| (m == k + 1 && text[k] in "-+*")
        || (m > k + 1 && (forall i :: k <= i < m - 1 ==> unicode.digit(text[i])) && !unicode.digit(text[m - 1])
            && text[m - 1] in ".)"))
  }

  lemma MarkedMeans(text: string, mark: string)
    requires mark != "" && !IsSpace(mark[0])
    ensures mark <= TrimLeft(text) <==> Marked(text, mark)
  {
    TrimLeftMeans(text);
    var n := |text| - |TrimLeft(text)|;
    hide TrimLeft, IsSpace;
    if mark <= TrimLeft(text) {
      assert text[n..n + |mark|] == mark;
    }
    forall k | 0 <= k <= |text| - |mark| && AllSpace(text[..k]) && text[k..k + |mark|] == mark
      ensures k == n
    {
      assert text[k] == text[k..k + |mark|][0];
      FirstShown(text, n, k);
    }
    if Marked(text, mark) {
      assert text[n..][..|mark|] == text[n..n + |mark|];
    }
  }

  /** Two positions with only white space before them and none on them are one. */
  lemma FirstShown(text: string, n: nat, k: nat)
    requires n <= |text| && k < |text| && AllSpace(text[..n]) && AllSpace(text[..k])
    requires !IsSpace(text[k]) && (n < |text| ==> !IsSpace(text[n]))
    ensures n == k
  {
    assert forall i :: 0 <= i < n ==> text[..n][i] == text[i];
    assert forall i :: 0 <= i < k ==> text[..k][i] == text[i];
  }

  lemma {:induction false} DigitsMeans(unicode: Unicode, text: string)
    ensures forall i :: 0 <= i < Digits(unicode, text) ==> unicode.digit(text[i])
    ensures Digits(unicode, text) < |text| ==> !unicode.digit(text[Digits(unicode, text)])
  {
    if text != "" && unicode.digit(text[0]) {
      DigitsMeans(unicode, text[1..]);
      assert forall i :: 0 < i < |text| ==> text[i] == text[1..][i - 1];
    }
  }

  lemma ListItemMeans(unicode: Unicode, text: string)
    ensures IsListItem(unicode, text) ==> exists k, m :: ItemAt(unicode, text, k, m)
    ensures forall k, m :: ItemAt(unicode, text, k, m) ==> IsListItem(unicode, text)
  {
    TrimLeftMeans(text);
    var t := TrimLeft(text);
    var n, d := |text| - |t|, Digits(unicode, t);
    DigitsMeans(unicode, t);
    assert forall i :: 0 <= i < |t| ==> t[i] == text[n + i];
    hide TrimLeft, IsSpace, Digits;
    if IsListItem(unicode, text) {
      if |t| >= 2 && (t[0] == '-' || t[0] == '+' || t[0] == '*') && IsSpace(t[1]) {
        assert ItemAt(unicode, text, n, n + 1);
      } else {
        NumberedItem(unicode, text, n, d);
      }
    }
    forall k, m | ItemAt(unicode, text, k, m)
      ensures IsListItem(unicode, text)
    {
      FirstShown(text, n, k);
      if m == k + 1 && text[k] in "-+*" {
        assert t[0] == text[k] && t[1] == text[m];
      } else {
        ItemDigits(unicode, t, d, m - k - 1);
        assert t[d] == text[m - 1] && t[d + 1] == text[m];
      }
    }
  }

  lemma NumberedItem(unicode: Unicode, text: string, n: nat, d: nat)
    requires n + d + 1 < |text| && d >= 1 && AllSpace(text[..n]) && !IsSpace(text[n])
    requires forall i :: 0 <= i < d ==> unicode.digit(text[n..][i])
    requires !unicode.digit(text[n..][d])
    requires (text[n..][d] == '.' || text[n..][d] == ')') && IsSpace(text[n..][d + 1])
    ensures ItemAt(unicode, text, n, n + d + 1)
  {
    hide IsSpace;
    assert forall i :: n <= i < n + d ==> text[i] == text[n..][i - n];
  }

  lemma ItemDigits(unicode: Unicode, t: string, d: nat, e: nat)
    requires d <= |t| && (forall i :: 0 <= i < d ==> unicode.digit(t[i])) && (d < |t| ==> !unicode.digit(t[d]))
    requires e < |t| && (forall i :: 0 <= i < e ==> unicode.digit(t[i])) && !unicode.digit(t[e])
    ensures d == e
  {
  }

  /** The kind of a line: a heading, or else what its first shown characters mark. */
  lemma KindMeans(unicode: Unicode, text: string)
    ensures var kind := KindOf(unicode, text);
            && (kind == Heading <==> SomeHeading(text))
            && (kind == CodeFence <==> !SomeHeading(text) && Marked(text, "```"))
            && (kind == Table <==> !SomeHeading(text) && Marked(text, "|"))
            && (kind == Blockquote <==> !SomeHeading(text) && Marked(text, ">"))
            && (kind == List <==>
                  && !SomeHeading(text) && !Marked(text, "```") && !Marked(text, "|") && !Marked(text, ">")
                  && exists k, m :: ItemAt(unicode, text, k, m))
  {
    HeadingMeans(text);
    MarkedMeans(text, "```");
    MarkedMeans(text, "|");
    MarkedMeans(text, ">");
    ListItemMeans(unicode, text);
    hide IsHeading, IsListItem, TrimLeft, Marked, ItemAt, HeadingLine, Hashes, Title;
    var t := TrimLeft(text);
    assert "```" <= t ==> t[0] == '`';
    assert "|" <= t ==> t[0] == '|';
    assert ">" <= t ==> t[0] == '>';
  }

  // ---- Where the lines go ----------------------------------------------------------------------

  /** Lines as the normalizer leaves them: numbered upwards, and empty unless they show something. */
  ghost predicate Normalized(lines: seq<Line>) {
    && (forall i, j :: 0 <= i < j < |lines| ==> lines[i].source < lines[j].source)
    && forall i :: 0 <= i < |lines| ==> lines[i].text == "" || !Blank(lines[i].text)
  }

  function LinesIn(lines: seq<Line>, start: nat, end: nat): seq<Line> {
    if lines == [] then []
    else (if start <= lines[0].source <= end then [lines[0]] else []) + LinesIn(lines[1..], start, end)
  }

  /** The block is what its range of lines says, joined and stripped. */
  ghost predicate Covers(unicode: Unicode, block: Block, lines: seq<Line>) {
    var group := LinesIn(lines, block.start, block.end);
    && block.start <= block.end
    && group != [] && group[0].source == block.start && group[|group| - 1].source == block.end
    && block.text == GroupText(group) && block.text != "" && block.kind == KindOf(unicode, group[0].text)
  }

  ghost predicate InRange(block: Block, line: Line) {
    block.start <= line.source <= block.end
  }

  ghost predicate Somewhere(blocks: seq<Block>, line: Line) {
    exists i :: 0 <= i < |blocks| && InRange(blocks[i], line)
  }

  /** Blocks with disjoint increasing ranges that together hold every non-blank line. */
  ghost predicate Partition(unicode: Unicode, blocks: seq<Block>, lines: seq<Line>) {
    && (forall i :: 0 <= i < |blocks| ==> Covers(unicode, blocks[i], lines))
    && (forall i, j :: 0 <= i < j < |blocks| ==> blocks[i].end < blocks[j].start)
    && forall k :: 0 <= k < |lines| && lines[k].text != "" ==> Somewhere(blocks, lines[k])
  }

  lemma {:induction false} LinesInConcat(a: seq<Line>, b: seq<Line>, start: nat, end: nat)
    ensures LinesIn(a + b, start, end) == LinesIn(a, start, end) + LinesIn(b, start, end)
  {
    if a == [] {
      assert a + b == b;
    } else {
      assert (a + b)[1..] == a[1..] + b;
      LinesInConcat(a[1..], b, start, end);
    }
  }

  lemma {:induction false} AllInside(lines: seq<Line>, start: nat, end: nat)
    requires forall i :: 0 <= i < |lines| ==> start <= lines[i].source <= end
    ensures LinesIn(lines, start, end) == lines
  {
    if lines != [] {
      assert lines == [lines[0]] + lines[1..];
      AllInside(lines[1..], start, end);
    }
  }

  lemma {:induction false} AllOutside(lines: seq<Line>, start: nat, end: nat)
    requires forall i :: 0 <= i < |lines| ==> !(start <= lines[i].source <= end)
    ensures LinesIn(lines, start, end) == []
  {
    if lines != [] { AllOutside(lines[1..], start, end); }
  }

  lemma {:induction false} LinesInside(lines: seq<Line>, start: nat, end: nat)
    ensures forall k :: k in LinesIn(lines, start, end) ==> k in lines && start <= k.source <= end
  {
    if lines != [] {
      LinesInside(lines[1..], start, end);
      assert lines == [lines[0]] + lines[1..];
    }
  }

  ghost predicate Precede(a: seq<Line>, b: seq<Line>) {
    forall x, y :: x in a && y in b ==> x.source < y.source
  }

  lemma NormalizedParts(a: seq<Line>, b: seq<Line>)
    requires Normalized(a + b)
    ensures Normalized(a) && Normalized(b) && Precede(a, b)
  {
    var all := a + b;
    assert forall i :: 0 <= i < |a| ==> all[i] == a[i];
    assert forall i :: 0 <= i < |b| ==> all[|a| + i] == b[i];
  }

  lemma CoversMore(unicode: Unicode, block: Block, a: seq<Line>, lines: seq<Line>, b: seq<Line>)
    requires Covers(unicode, block, lines) && Precede(a, lines) && Precede(lines, b)
    ensures Covers(unicode, block, a + lines + b)
  {
    RangeInLines(unicode, block, lines);
    LinesOutside(a, lines, b, block.start, block.end);
    hide GroupText, KindOf, LinesIn, Precede;
  }

  lemma LinesOutside(a: seq<Line>, lines: seq<Line>, b: seq<Line>, start: nat, end: nat)
    requires Precede(a, lines) && Precede(lines, b)
    requires (exists x :: x in lines && x.source == start) && (exists y :: y in lines && y.source == end)
    ensures LinesIn(a + lines + b, start, end) == LinesIn(lines, start, end)
  {
    hide LinesIn;
    LinesInConcat(a + lines, b, start, end);
    LinesInConcat(a, lines, start, end);
    NothingAround(LinesIn(lines, start, end));
    forall i | 0 <= i < |a|
      ensures a[i].source < start
    {
      assert a[i] in a;
    }
    forall i | 0 <= i < |b|
      ensures b[i].source > end
    {
      assert b[i] in b;
    }
    AllOutside(a, start, end);
    AllOutside(b, start, end);
  }

  lemma RangeInLines(unicode: Unicode, block: Block, lines: seq<Line>)
    requires Covers(unicode, block, lines)
    ensures exists x :: x in lines && x.source == block.start
    ensures exists y :: y in lines && y.source == block.end
  {
    hide GroupText, KindOf, LinesIn;
    var group := LinesIn(lines, block.start, block.end);
    LinesInside(lines, block.start, block.end);
    assert group[0] in group && group[|group| - 1] in group;
  }

  lemma SomewhereMore(a: seq<Block>, blocks: seq<Block>, b: seq<Block>, line: Line)
    requires Somewhere(blocks, line)
    ensures Somewhere(a + blocks + b, line)
  {
    var i :| 0 <= i < |blocks| && InRange(blocks[i], line);
    assert (a + blocks + b)[|a| + i] == blocks[i];
  }

  lemma PartitionConcat(unicode: Unicode, a: seq<Block>, x: seq<Line>, b: seq<Block>, y: seq<Line>)
    requires Partition(unicode, a, x) && Partition(unicode, b, y) && Precede(x, y)
    ensures Partition(unicode, a + b, x + y)
  {
    hide Covers, Somewhere;
    assert [] + x + y == x + y && x + y + [] == x + y && [] + a + b == a + b && a + b + [] == a + b;
    forall i | 0 <= i < |a + b|
      ensures Covers(unicode, (a + b)[i], x + y)
    {
      if i < |a| { CoversMore(unicode, a[i], [], x, y); } else { CoversMore(unicode, b[i - |a|], x, y, []); }
    }
    forall i, j | 0 <= i < |a| && 0 <= j < |b|
      ensures a[i].end < b[j].start
    {
      RangeInLines(unicode, a[i], x);
      RangeInLines(unicode, b[j], y);
    }
    forall k | 0 <= k < |x + y| && (x + y)[k].text != ""
      ensures Somewhere(a + b, (x + y)[k])
    {
      if k < |x| { SomewhereMore([], a, b, x[k]); } else { SomewhereMore(a, b, [], y[k - |x|]); }
    }
  }

  lemma GroupIsCovered(unicode: Unicode, group: seq<Line>, path: Path)
    requires Normalized(group) && group != [] && group[0].text != ""
    ensures GroupText(group) != ""
    ensures Partition(unicode, [GroupBlock(unicode, group, path)], group)
  {
    hide GroupText, KindOf, Blank, LinesIn;
    GroupShows(group);
    var block := GroupBlock(unicode, group, path);
    WholeGroup(group);
    forall k | 0 <= k < |group|
      ensures Somewhere([block], group[k])
    {
      assert InRange([block][0], group[k]);
    }
    assert Covers(unicode, block, group);
  }

  lemma WholeGroup(group: seq<Line>)
    requires Normalized(group) && group != []
    ensures forall i :: 0 <= i < |group| ==> group[0].source <= group[i].source <= group[|group| - 1].source
    ensures LinesIn(group, group[0].source, group[|group| - 1].source) == group
  {
    hide Blank, LinesIn;
    var last := |group| - 1;
    forall i | 0 <= i < |group|
      ensures group[0].source <= group[i].source <= group[last].source
    {
      assert i > 0 ==> group[0].source < group[i].source;
      assert i < last ==> group[i].source < group[last].source;
    }
    AllInside(group, group[0].source, group[last].source);
  }

  /** A group that starts with a shown line shows something. */
  lemma GroupShows(group: seq<Line>)
    requires group != [] && !Blank(group[0].text)
    ensures GroupText(group) != ""
  {
    var text := Join("\n", Texts(group));
    NewlineIsBlank();
    JoinWords("\n", Texts(group));
    BlankHasNoWords(group[0].text);
    assert Texts(group)[0] == group[0].text;
    assert AllWords(Texts(group)) != [];
    StripWords(text);
    hide Strip, Join, Blank, AllWords;
    assert WordsOf("") == [];
  }

  lemma NewlineIsBlank()
    ensures Blank("\n") && Blank("\n\n")
  {
  }

  lemma BlankLineIsCovered(unicode: Unicode, line: Line)
    requires line.text == ""
    ensures Partition(unicode, [], [line])
  {
  }

  /** Within one section. */
  lemma {:induction false} BlocksPartition(unicode: Unicode, lines: seq<Line>, path: Path)
    requires Normalized(lines)
    ensures Partition(unicode, BlocksOf(unicode, lines, path), lines)
    decreases |lines|
  {
    hide Normalized, Partition, GroupBlock, Blank;
    if lines == [] {
      NothingIsPartitioned(unicode);
    } else {
      var n := if lines[0].text == "" then 1 else GroupEnd(unicode, lines);
      assert lines == lines[..n] + lines[n..];
      NormalizedParts(lines[..n], lines[n..]);
      BlocksPartition(unicode, lines[n..], path);
      if lines[0].text == "" {
        BlankLineIsCovered(unicode, lines[0]);
        assert lines[..1] == [lines[0]];
        PartitionConcat(unicode, [], lines[..n], BlocksOf(unicode, lines[n..], path), lines[n..]);
        assert [] + BlocksOf(unicode, lines[n..], path) == BlocksOf(unicode, lines[n..], path);
      } else {
        GroupIsCovered(unicode, lines[..n], path);
        PartitionConcat(unicode, [GroupBlock(unicode, lines[..n], path)], lines[..n],
                        BlocksOf(unicode, lines[n..], path), lines[n..]);
      }
    }
  }

  lemma NothingIsPartitioned(unicode: Unicode)
    ensures Partition(unicode, [], [])
  {
  }

  function AllBlocks(sections: seq<Section>): seq<Block> {
    if sections == [] then [] else sections[0].blocks + AllBlocks(sections[1..])
  }

  lemma FinishedBlocks(unicode: Unicode, open: Open, rest: seq<Section>)
    ensures AllBlocks(Finished(unicode, open) + rest) == BlocksOf(unicode, open.lines, open.path) + AllBlocks(rest)
  {
    hide BlocksOf;
    if BlocksOf(unicode, open.lines, open.path) == [] {
      assert Finished(unicode, open) + rest == rest;
    } else {
      assert (Finished(unicode, open) + rest)[1..] == rest;
    }
  }

  lemma {:induction false} SectionsPartition(unicode: Unicode, open: Open, lines: seq<Line>)
    requires Normalized(open.lines + lines)
    ensures Partition(unicode, AllBlocks(SectionsFrom(unicode, open, lines)), open.lines + lines)
    decreases |lines|
  {
    hide Normalized, Partition, BlocksOf, IsHeading, Below;
    if lines == [] {
      assert open.lines + lines == open.lines;
      BlocksPartition(unicode, open.lines, open.path);
      FinishedBlocks(unicode, open, []);
      assert Finished(unicode, open) + [] == Finished(unicode, open);
      assert BlocksOf(unicode, open.lines, open.path) + AllBlocks([]) == BlocksOf(unicode, open.lines, open.path);
    } else if IsHeading(lines[0].text) {
      var next := Below(open, lines[0]);
      BelowHasLine(open, lines[0]);
      assert lines == [lines[0]] + lines[1..];
      NormalizedParts(open.lines, lines);
      BlocksPartition(unicode, open.lines, open.path);
      SectionsPartition(unicode, next, lines[1..]);
      FinishedBlocks(unicode, open, SectionsFrom(unicode, next, lines[1..]));
      PartitionConcat(unicode, BlocksOf(unicode, open.lines, open.path), open.lines,
                      AllBlocks(SectionsFrom(unicode, next, lines[1..])), lines);
    } else {
      assert open.lines + lines == open.lines + [lines[0]] + lines[1..];
      SectionsPartition(unicode, open.(lines := open.lines + [lines[0]]), lines[1..]);
    }
  }

  lemma BelowHasLine(open: Open, line: Line)
    requires IsHeading(line.text)
    ensures Below(open, line).lines == [line]
  {
  }

  /** Every non-blank line of a document lands in exactly one block, in order and with increasing ranges,
      and each block is exactly the text of its range of lines. */
  lemma DocumentPartition(unicode: Unicode, lines: seq<Line>)
    requires Normalized(lines)
    ensures Partition(unicode, AllBlocks(SectionsOf(unicode, lines)), lines)
  {
    assert NO_HEADING.lines + lines == lines;
    SectionsPartition(unicode, NO_HEADING, lines);
  }

  // ---- Words -----------------------------------------------------------------------------------

  function BlockWords(blocks: seq<Block>): seq<string> {
    if blocks == [] then [] else WordsOf(blocks[0].text) + BlockWords(blocks[1..])
  }

  lemma {:induction false} BlockWordsConcat(a: seq<Block>, b: seq<Block>)
    ensures BlockWords(a + b) == BlockWords(a) + BlockWords(b)
  {
    if a == [] {
      assert a + b == b;
    } else {
      assert (a + b)[1..] == a[1..] + b;
      BlockWordsConcat(a[1..], b);
    }
  }

  lemma GroupWords(group: seq<Line>)
    ensures WordsOf(GroupText(group)) == AllWords(Texts(group))
  {
    NewlineIsBlank();
    JoinWords("\n", Texts(group));
    StripWords(Join("\n", Texts(group)));
  }

  lemma TextsConcat(a: seq<Line>, b: seq<Line>)
    ensures AllWords(Texts(a + b)) == AllWords(Texts(a)) + AllWords(Texts(b))
  {
    assert Texts(a + b) == Texts(a) + Texts(b);
    AllWordsConcat(Texts(a), Texts(b));
  }

  /** Blocks keep every word of the lines, in order, whatever the lines are. */
  lemma {:induction false} BlocksKeepWords(unicode: Unicode, lines: seq<Line>, path: Path)
    ensures BlockWords(BlocksOf(unicode, lines, path)) == AllWords(Texts(lines))
    decreases |lines|
  {
    hide GroupText, Texts, WordsOf;
    if lines == [] {
      assert Texts(lines) == [] by { NoTexts(); }
    } else {
      var n := if lines[0].text == "" then 1 else GroupEnd(unicode, lines);
      assert lines == lines[..n] + lines[n..];
      TextsConcat(lines[..n], lines[n..]);
      BlocksKeepWords(unicode, lines[n..], path);
      if lines[0].text == "" {
        EmptyLineHasNoWords(lines[..n]);
      } else {
        GroupWords(lines[..n]);
        var first := if GroupText(lines[..n]) == "" then [] else [GroupBlock(unicode, lines[..n], path)];
        assert WordsOf("") == [] by { BlankHasNoWords(""); }
        BlockWordsConcat(first, BlocksOf(unicode, lines[n..], path));
        assert first != [] ==> BlockWords(first) == WordsOf(first[0].text) + BlockWords([]);
      }
    }
  }

  lemma NoTexts()
    ensures Texts([]) == []
  {
  }

  lemma EmptyLineHasNoWords(lines: seq<Line>)
    requires |lines| == 1 && lines[0].text == ""
    ensures AllWords(Texts(lines)) == []
  {
    assert Texts(lines) == [""];
    assert AllWords([""]) == WordsOf("") + AllWords([""][1..]);
  }

  lemma {:induction false} SectionsKeepWords(unicode: Unicode, open: Open, lines: seq<Line>)
    ensures BlockWords(AllBlocks(SectionsFrom(unicode, open, lines))) == AllWords(Texts(open.lines + lines))
    decreases |lines|
  {
    hide Texts, WordsOf, BlocksOf, IsHeading, Below;
    BlocksKeepWords(unicode, open.lines, open.path);
    if lines == [] {
      assert open.lines + lines == open.lines;
      FinishedBlocks(unicode, open, []);
      assert Finished(unicode, open) + [] == Finished(unicode, open);
      assert BlocksOf(unicode, open.lines, open.path) + AllBlocks([]) == BlocksOf(unicode, open.lines, open.path);
    } else if IsHeading(lines[0].text) {
      var next := Below(open, lines[0]);
      BelowHasLine(open, lines[0]);
      SectionsKeepWords(unicode, next, lines[1..]);
      var rest := SectionsFrom(unicode, next, lines[1..]);
      FinishedBlocks(unicode, open, rest);
      BlockWordsConcat(BlocksOf(unicode, open.lines, open.path), AllBlocks(rest));
      assert lines == [lines[0]] + lines[1..];
      TextsConcat(open.lines, lines);
    } else {
      assert open.lines + lines == open.lines + [lines[0]] + lines[1..];
      SectionsKeepWords(unicode, open.(lines := open.lines + [lines[0]]), lines[1..]);
    }
  }

  // ---- Sections and heading lines --------------------------------------------------------------

  /** The line is a heading of this level and title: so many hashes, at most six, then white space and at least
      one more character, and the title is what they leave without white space at its ends. */
  ghost predicate HeadingLine(text: string, level: nat, title: string) {
    && 1 <= level <= 6 && level + 2 <= |text| && IsSpace(text[level])
    && (forall i :: 0 <= i < level ==> text[i] == '#')
    && exists left :: StripsTo(text[level..], title, left)
  }

  lemma {:induction false} HashesMeans(text: string)
    ensures forall i :: 0 <= i < Hashes(text) ==> text[i] == '#'
    ensures Hashes(text) < |text| ==> text[Hashes(text)] != '#'
  {
    if text != "" && text[0] == '#' {
      HashesMeans(text[1..]);
      assert forall i :: 0 < i < |text| ==> text[i] == text[1..][i - 1];
    }
  }

  lemma HeadingMeans(text: string)
    ensures IsHeading(text) ==> HeadingLine(text, Hashes(text), Title(text))
    ensures !IsHeading(text) ==> forall level, title :: !HeadingLine(text, level, title)
  {
    HashesMeans(text);
    var left := StripMeans(text[Hashes(text)..]);
    hide Hashes, Strip, StripsTo;
    forall level: nat, title | HeadingLine(text, level, title)
      ensures level == Hashes(text)
    {
    }
  }

  ghost predicate SomeHeading(text: string) {
    exists level, title :: HeadingLine(text, level, title)
  }

  /** The positions of the heading lines from `from` on, in order. */
  ghost predicate HeadingsFrom(lines: seq<Line>, from: nat, heads: seq<nat>) {
    && (forall i :: 0 <= i < |heads| ==> from <= heads[i] < |lines|)
    && (forall i, j :: 0 <= i < j < |heads| ==> heads[i] < heads[j])
    && forall k :: from <= k < |lines| ==> (k in heads <==> SomeHeading(lines[k].text))
  }

  /** Where the lines of heading i end: at the next heading, or with the document. */
  function Until(lines: seq<Line>, heads: seq<nat>, i: nat): nat {
    if i < |heads| then heads[i] else |lines|
  }

  /** The section of the heading line at one position, up to another: its level and title are those of the line,
      its path keeps at most level - 1 titles of the path before and adds the title, its blocks are those of its
      lines, and its range is theirs. */
  ghost predicate SectionOfHeading(unicode: Unicode, lines: seq<Line>, before: Path, at: nat, end: nat, s: Section)
    requires at < end <= |lines|
  {
    var n := if |before| <= s.level - 1 then |before| else s.level - 1;
    && HeadingLine(lines[at].text, s.level, s.heading)
    && s.path == before[..n] + [s.heading]
    && s.blocks == BlocksOf(unicode, lines[at..end], s.path) && s.blocks != []
    && s.start == lines[at].source && s.end == s.blocks[|s.blocks| - 1].end
  }

  /** Section i is that of heading i, below the section before it. */
  ghost predicate SectionAt(unicode: Unicode, lines: seq<Line>, before: Path, heads: seq<nat>, sections: seq<Section>,
                            i: nat)
    requires i < |heads| == |sections|
  {
    && heads[i] < Until(lines, heads, i + 1) <= |lines|
    && SectionOfHeading(unicode, lines, if i == 0 then before else sections[i - 1].path, heads[i],
                        Until(lines, heads, i + 1), sections[i])
  }

  /** One section for each heading, in order. */
  ghost predicate SectionsOfHeadings(
      unicode: Unicode, lines: seq<Line>, before: Path, heads: seq<nat>, sections: seq<Section>)
  {
    |sections| == |heads| && forall i :: 0 <= i < |heads| ==> SectionAt(unicode, lines, before, heads, sections, i)
  }

  /** What is collected before the first heading: nothing, or one untitled section. */
  ghost predicate FrontSection(unicode: Unicode, lines: seq<Line>, sections: seq<Section>) {
    var blocks := BlocksOf(unicode, lines, []);
    sections == if blocks == [] then []
                else [Section("Document", [], 0, blocks[0].start, blocks[|blocks| - 1].end, blocks)]
  }

  lemma HeadingsCons(lines: seq<Line>, from: nat, heads: seq<nat>)
    requires from < |lines| && HeadingsFrom(lines, from + 1, heads)
    ensures SomeHeading(lines[from].text) ==> HeadingsFrom(lines, from, [from] + heads)
    ensures !SomeHeading(lines[from].text) ==> HeadingsFrom(lines, from, heads)
  {
    hide SomeHeading;
    assert forall k :: k in [from] + heads <==> k == from || k in heads;
  }

  /** A section opened by a heading starts with the line of the heading. */
  lemma FirstBlockStart(unicode: Unicode, lines: seq<Line>, path: Path)
    requires lines != [] && IsHeading(lines[0].text)
    ensures BlocksOf(unicode, lines, path) != [] && BlocksOf(unicode, lines, path)[0].start == lines[0].source
  {
    hide KindOf, GroupText, Strip;
    assert lines[0].text[0] == '#';
    var n := GroupEnd(unicode, lines);
    GroupShows(lines[..n]);
    BlocksStep(unicode, lines, path);
  }

  lemma FinishedHeading(unicode: Unicode, lines: seq<Line>, open: Open, at: nat, end: nat)
    requires at < end <= |lines| && IsHeading(lines[at].text)
    ensures var own := Below(open, lines[at]).(lines := lines[at..end]);
            && |Finished(unicode, own)| == 1
            && SectionOfHeading(unicode, lines, open.path, at, end, Finished(unicode, own)[0])
  {
    FirstBlockStart(unicode, lines[at..end], PathBelow(open.path, lines[at].text));
    HeadingMeans(lines[at].text);
    hide BlocksOf, HeadingLine, Title, Hashes;
    HeadingLevel(lines[at].text);
  }

  lemma SectionsCons(unicode: Unicode, lines: seq<Line>, before: Path, at: nat, heads: seq<nat>, s: Section,
                     sections: seq<Section>)
    requires SectionsOfHeadings(unicode, lines, s.path, heads, sections)
    requires at < Until(lines, heads, 0) <= |lines|
    requires SectionOfHeading(unicode, lines, before, at, Until(lines, heads, 0), s)
    ensures SectionsOfHeadings(unicode, lines, before, [at] + heads, [s] + sections)
  {
    hide SectionOfHeading;
    var longer, all := [at] + heads, [s] + sections;
    forall i | 0 <= i < |longer|
      ensures SectionAt(unicode, lines, before, longer, all, i)
    {
      if i > 0 { LaterSection(unicode, lines, before, at, heads, s, sections, i - 1); }
    }
  }

  lemma LaterSection(unicode: Unicode, lines: seq<Line>, before: Path, at: nat, heads: seq<nat>, s: Section,
                     sections: seq<Section>, i: nat)
    requires i < |heads| == |sections| && SectionAt(unicode, lines, s.path, heads, sections, i)
    ensures SectionAt(unicode, lines, before, [at] + heads, [s] + sections, i + 1)
  {
    hide SectionOfHeading;
    var longer, all := [at] + heads, [s] + sections;
    assert longer[i + 1] == heads[i] && all[i + 1] == sections[i];
    assert all[i] == if i == 0 then s else sections[i - 1];
    assert Until(lines, longer, i + 2) == Until(lines, heads, i + 1);
  }

  lemma {:induction false} SectionsFromMean(unicode: Unicode, lines: seq<Line>, q: nat, p: nat, open: Open)
    returns (heads: seq<nat>, sections: seq<Section>)
    requires q <= p <= |lines| && open.lines == lines[q..p]
    ensures HeadingsFrom(lines, p, heads) && p <= Until(lines, heads, 0) <= |lines|
    ensures SectionsOfHeadings(unicode, lines, open.path, heads, sections)
    ensures SectionsFrom(unicode, open, lines[p..]) ==
            Finished(unicode, open.(lines := lines[q..Until(lines, heads, 0)])) + sections
    decreases |lines| - p
  {
    hide Finished, IsHeading, Below, HeadingLine, SectionOfHeading, SectionsOfHeadings, HeadingsFrom;
    if p == |lines| {
      heads, sections := [], [];
      NoHeadingsLeft(unicode, lines, open.path);
      NothingAround(Finished(unicode, open));
    } else {
      assert lines[p..][1..] == lines[p + 1..];
      HeadingMeans(lines[p].text);
      if IsHeading(lines[p].text) {
        var next := Below(open, lines[p]);
        BelowHasLine(open, lines[p]);
        assert lines[p..p + 1] == [lines[p]];
        heads, sections := SectionsFromMean(unicode, lines, p, p + 1, next);
        HeadingsCons(lines, p, heads);
        var own := next.(lines := lines[p..Until(lines, heads, 0)]);
        FinishedHeading(unicode, lines, open, p, Until(lines, heads, 0));
        var s := Finished(unicode, own)[0];
        FinishedPath(unicode, own);
        SectionsCons(unicode, lines, open.path, p, heads, s, sections);
        assert Finished(unicode, own) == [s];
        heads, sections := [p] + heads, [s] + sections;
      } else {
        assert lines[q..p] + [lines[p]] == lines[q..p + 1];
        heads, sections := SectionsFromMean(unicode, lines, q, p + 1, open.(lines := open.lines + [lines[p]]));
        HeadingsCons(lines, p, heads);
      }
    }
  }

  lemma FinishedPath(unicode: Unicode, open: Open)
    requires |Finished(unicode, open)| == 1
    ensures Finished(unicode, open)[0].path == open.path
  {
    hide BlocksOf;
  }

  lemma NoHeadingsLeft(unicode: Unicode, lines: seq<Line>, before: Path)
    ensures HeadingsFrom(lines, |lines|, []) && SectionsOfHeadings(unicode, lines, before, [], [])
  {
  }

  /** The sections of every document are one for each heading line, in order, with the level and the title of
      that line on a path that keeps at most level - 1 titles of the path before; in front of them may be one
      untitled section of what comes before the first heading. */
  lemma SectionsMean(unicode: Unicode, lines: seq<Line>) returns (heads: seq<nat>, front: seq<Section>)
    ensures HeadingsFrom(lines, 0, heads)
    ensures FrontSection(unicode, lines[..Until(lines, heads, 0)], front)
    ensures var sections := SectionsOf(unicode, lines);
            && front <= sections
            && SectionsOfHeadings(unicode, lines, [], heads, sections[|front|..])
  {
    hide SectionsFrom, SectionsOfHeadings, HeadingsFrom, BlocksOf;
    var sections;
    assert lines[0..] == lines && lines[0..0] == [];
    heads, sections := SectionsFromMean(unicode, lines, 0, 0, NO_HEADING);
    var cut := Until(lines, heads, 0);
    assert lines[0..cut] == lines[..cut];
    front := Finished(unicode, NO_HEADING.(lines := lines[..cut]));
    assert (front + sections)[|front|..] == sections;
  }

  // ---- Paths -----------------------------------------------------------------------------------

  lemma {:induction false} BlocksHavePath(unicode: Unicode, lines: seq<Line>, path: Path)
    ensures forall i :: 0 <= i < |BlocksOf(unicode, lines, path)| ==> BlocksOf(unicode, lines, path)[i].path == path
    decreases |lines|
  {
    hide GroupText, GroupEnd;
    if lines != [] {
      if lines[0].text == "" {
        BlocksHavePath(unicode, lines[1..], path);
      } else {
        BlocksHavePath(unicode, lines[GroupEnd(unicode, lines)..], path);
      }
    }
  }

  /** Between neighbouring blocks the path stays, or is cut back and gets one title. */
  ghost predicate Step(p: Path, q: Path) {
    q == p || (q != [] && q[..|q| - 1] <= p)
  }

  ghost predicate StepAt(blocks: seq<Block>, i: nat)
    requires 0 < i < |blocks|
  {
    Step(blocks[i - 1].path, blocks[i].path)
  }

  ghost predicate Chained(blocks: seq<Block>) {
    forall i :: 0 < i < |blocks| ==> StepAt(blocks, i)
  }

  lemma ChainedConcat(a: seq<Block>, b: seq<Block>)
    requires Chained(a) && Chained(b)
    requires a != [] && b != [] ==> Step(a[|a| - 1].path, b[0].path)
    ensures Chained(a + b)
  {
    hide Step;
    var all := a + b;
    forall i | 0 < i < |all|
      ensures StepAt(all, i)
    {
      if i < |a| { assert StepAt(a, i); } else if i > |a| { assert StepAt(b, i - |a|); }
    }
  }

  lemma ChainedParts(a: seq<Block>, b: seq<Block>)
    requires Chained(a + b)
    ensures Chained(a) && Chained(b)
    ensures a != [] && b != [] ==> Step(a[|a| - 1].path, b[0].path)
  {
    hide Step;
    var all := a + b;
    forall i | 0 < i < |a|
      ensures StepAt(a, i)
    {
      assert StepAt(all, i);
    }
    forall i | 0 < i < |b|
      ensures StepAt(b, i)
    {
      assert StepAt(all, |a| + i);
    }
    if a != [] && b != [] { assert StepAt(all, |a|); }
  }

  lemma OnePathChained(blocks: seq<Block>, path: Path)
    requires forall i :: 0 <= i < |blocks| ==> blocks[i].path == path
    ensures Chained(blocks)
  {
  }

  /** A section opened by a heading has the heading's block, on the section's own path. */
  lemma HeadingHasBlock(unicode: Unicode, open: Open)
    requires open.lines != [] && IsHeading(open.lines[0].text)
    ensures BlocksOf(unicode, open.lines, open.path) != []
  {
    hide KindOf, GroupText, Strip;
    var n := GroupEnd(unicode, open.lines);
    assert open.lines[0].text[0] == '#';
    GroupShows(open.lines[..n]);
  }

  /** What the blocks of the open section and of the lines after it look like: chained, starting at the
      open section's path or one step below it, and exactly there when a heading opened it. */
  ghost predicate ChainFrom(open: Open, blocks: seq<Block>) {
    && Chained(blocks)
    && (blocks != [] ==> Step(open.path, blocks[0].path))
    && (open.lines != [] && IsHeading(open.lines[0].text) ==> blocks != [] && blocks[0].path == open.path)
  }

  lemma {:induction false} SectionChain(unicode: Unicode, open: Open, lines: seq<Line>)
    ensures ChainFrom(open, AllBlocks(SectionsFrom(unicode, open, lines)))
    decreases |lines|
  {
    hide BlocksOf, IsHeading, Below, Step;
    var own := BlocksOf(unicode, open.lines, open.path);
    BlocksHavePath(unicode, open.lines, open.path);
    OnePathChained(own, open.path);
    if open.lines != [] && IsHeading(open.lines[0].text) { HeadingHasBlock(unicode, open); }
    SamePath(open.path);
    if lines == [] {
      FinishedBlocks(unicode, open, []);
      assert Finished(unicode, open) + [] == Finished(unicode, open);
      assert own + AllBlocks([]) == own;
    } else if IsHeading(lines[0].text) {
      var next := Below(open, lines[0]);
      BelowIsStep(open, lines[0]);
      SectionChain(unicode, next, lines[1..]);
      FinishedBlocks(unicode, open, SectionsFrom(unicode, next, lines[1..]));
      ChainedConcat(own, AllBlocks(SectionsFrom(unicode, next, lines[1..])));
    } else {
      SectionChain(unicode, open.(lines := open.lines + [lines[0]]), lines[1..]);
    }
  }

  lemma SamePath(path: Path)
    ensures Step(path, path)
  {
  }

  lemma BelowIsStep(open: Open, line: Line)
    requires IsHeading(line.text)
    ensures Below(open, line).lines == [line] && Step(open.path, Below(open, line).path)
  {
  }

  /** Only the blocks before the first heading have an empty path. */
  ghost predicate EmptyPathsFirst(blocks: seq<Block>) {
    forall i, j :: 0 <= i < j < |blocks| && blocks[j].path == [] ==> blocks[i].path == []
  }

  lemma {:induction false} ChainedFrom(blocks: seq<Block>, i: nat, j: nat)
    requires Chained(blocks) && i <= j < |blocks| && blocks[i].path != []
    ensures blocks[j].path != []
    decreases j - i
  {
    if i < j {
      assert StepAt(blocks, i + 1);
      ChainedFrom(blocks, i + 1, j);
    }
  }

  lemma ChainedEmptyFirst(blocks: seq<Block>)
    requires Chained(blocks)
    ensures EmptyPathsFirst(blocks)
  {
    forall i, j | 0 <= i < j < |blocks| && blocks[j].path == []
      ensures blocks[i].path == []
    {
      if blocks[i].path != [] { ChainedFrom(blocks, i, j); }
    }
  }

  /** Along a document every block has the path of the block before it, or that path cut back and one title
      below the cut; so only the blocks before the first heading have an empty path. */
  lemma DocumentChained(unicode: Unicode, lines: seq<Line>)
    ensures Chained(AllBlocks(SectionsOf(unicode, lines)))
    ensures EmptyPathsFirst(AllBlocks(SectionsOf(unicode, lines)))
  {
    hide Chained, EmptyPathsFirst, SectionsOf, AllBlocks;
    SectionsChained(unicode, lines);
    ChainedEmptyFirst(AllBlocks(SectionsOf(unicode, lines)));
  }

  lemma SectionsChained(unicode: Unicode, lines: seq<Line>)
    ensures Chained(AllBlocks(SectionsOf(unicode, lines)))
  {
    SectionChain(unicode, NO_HEADING, lines);
  }

  /** Every block of a document shows at least one word. */
  ghost predicate Worded(blocks: seq<Block>) {
    forall i :: 0 <= i < |blocks| ==> WordsOf(blocks[i].text) != []
  }

  lemma StrippedHasWords(s: string)
    requires Strip(s) != ""
    ensures WordsOf(Strip(s)) != []
  {
    TrimRightPrefix(TrimLeft(s));
    BlankHasNoWords(Strip(s));
    assert !IsSpace(Strip(s)[|Strip(s)| - 1]);
  }

  lemma {:induction false} BlocksWorded(unicode: Unicode, lines: seq<Line>, path: Path)
    ensures Worded(BlocksOf(unicode, lines, path))
    decreases |lines|
  {
    hide GroupEnd, WordsOf, Strip, KindOf, Join;
    if lines != [] {
      if lines[0].text == "" {
        BlocksWorded(unicode, lines[1..], path);
      } else {
        var n := GroupEnd(unicode, lines);
        BlocksWorded(unicode, lines[n..], path);
        if GroupText(lines[..n]) != "" { StrippedHasWords(Join("\n", Texts(lines[..n]))); }
      }
    }
  }

  lemma {:induction false} SectionsWorded(unicode: Unicode, open: Open, lines: seq<Line>)
    ensures Worded(AllBlocks(SectionsFrom(unicode, open, lines)))
    decreases |lines|
  {
    hide BlocksOf, IsHeading, Below, WordsOf;
    var own := BlocksOf(unicode, open.lines, open.path);
    BlocksWorded(unicode, open.lines, open.path);
    if lines == [] {
      FinishedBlocks(unicode, open, []);
      assert Finished(unicode, open) + [] == Finished(unicode, open);
      assert own + AllBlocks([]) == own;
    } else if IsHeading(lines[0].text) {
      var next := Below(open, lines[0]);
      SectionsWorded(unicode, next, lines[1..]);
      FinishedBlocks(unicode, open, SectionsFrom(unicode, next, lines[1..]));
    } else {
      SectionsWorded(unicode, open.(lines := open.lines + [lines[0]]), lines[1..]);
    }
  }
}
