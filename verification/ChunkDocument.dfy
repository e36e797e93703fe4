/** From a parsed document to chunk records: expansion, packing, records and the checks on them. */
module ChunkDocument {
  import opened Prelude
  import opened Text
  import opened Words
  import opened MarkdownBlocks
  import opened BlockSplitting
  import opened Sequences
  import opened ChunkPacking

  datatype Record = Record(text: string, path: Path, start: nat, end: nat, tokens: nat, overlapTokens: nat)

  datatype ChunkingError = InvalidCount | TokenMaximum | NotPreserved | PoorQuality

  // ---- Expansion -------------------------------------------------------------------------------

  function Expanded(unicode: Unicode, blocks: seq<Block>, maximum: nat): seq<Block>
    requires maximum >= 1
  {
    if blocks == [] then [] else SplitBlock(unicode, blocks[0], maximum) + Expanded(unicode, blocks[1..], maximum)
  }

  lemma {:induction false} ExpansionKeepsWords(unicode: Unicode, blocks: seq<Block>, maximum: nat)
    requires maximum >= 1
    ensures BlockWords(Expanded(unicode, blocks, maximum)) == BlockWords(blocks)
  {
    hide SplitBlock, WordsOf;
    if blocks != [] {
      SplittingKeepsWords(unicode, blocks[0], maximum);
      ExpansionKeepsWords(unicode, blocks[1..], maximum);
      BlockWordsConcat(SplitBlock(unicode, blocks[0], maximum), Expanded(unicode, blocks[1..], maximum));
    }
  }

  // ---- The common section path -----------------------------------------------------------------

  /** The entries of `common` that the path repeats at the same position. */
  function Kept(common: Path, path: Path, i: nat): Path
    requires i <= |common|
    decreases |common| - i
  {
    if i == |common| then []
    else (if i < |path| && path[i] == common[i] then [common[i]] else []) + Kept(common, path, i + 1)
  }

  function CommonFrom(common: Path, blocks: seq<Block>): Path
    decreases |blocks|
  {
    if blocks == [] then common else CommonFrom(Kept(common, blocks[0].path, 0), blocks[1..])
  }

  function CommonPath(blocks: seq<Block>): Path
    requires blocks != []
  {
    CommonFrom(blocks[0].path, blocks[1..])
  }

  method CommonSectionPath(blocks: seq<Block>) returns (common: Path)
    requires blocks != []
    ensures common == CommonPath(blocks)
  {
    common := blocks[0].path;
    for i := 1 to |blocks|
      invariant CommonFrom(common, blocks[i..]) == CommonPath(blocks)
    {
      assert blocks[i..][1..] == blocks[i + 1..];
      common := Kept(common, blocks[i].path, 0);
    }
    assert blocks[|blocks|..] == [];
  }

  ghost predicate PrefixOfAll(prefix: Path, blocks: seq<Block>) {
    forall i :: 0 <= i < |blocks| ==> prefix <= blocks[i].path
  }

  lemma {:induction false} KeptPrefix(common: Path, path: Path, prefix: Path, i: nat)
    requires i <= |prefix| && prefix <= common && prefix <= path
    ensures prefix[i..] <= Kept(common, path, i)
    decreases |prefix| - i
  {
    if i < |prefix| {
      KeptPrefix(common, path, prefix, i + 1);
      assert prefix[i..] == [prefix[i]] + prefix[i + 1..];
      assert path[i] == prefix[i] == common[i];
    }
  }

  /** A path common to all blocks is always a prefix of the section path of the chunk. */
  lemma {:induction false} CommonPrefixIsKept(common: Path, blocks: seq<Block>, prefix: Path)
    requires prefix <= common && PrefixOfAll(prefix, blocks)
    ensures prefix <= CommonFrom(common, blocks)
    decreases |blocks|
  {
    if blocks != [] {
      KeptPrefix(common, blocks[0].path, prefix, 0);
      assert prefix[0..] == prefix;
      assert forall i :: 0 <= i < |blocks[1..]| ==> blocks[1..][i] == blocks[i + 1];
      CommonPrefixIsKept(Kept(common, blocks[0].path, 0), blocks[1..], prefix);
    }
  }

  lemma {:induction false} KeptSplit(a: Path, b: Path, i: nat, n: nat)
    requires i <= n <= |a| && n <= |b| && a[..n] == b[..n]
    ensures Kept(a, b, i) == a[i..n] + Kept(a, b, n)
    decreases n - i
  {
    if i < n {
      KeptSplit(a, b, i + 1, n);
      assert a[i] == a[..n][i] == b[i];
      assert a[i..n] == [a[i]] + a[i + 1..n];
    }
  }

  lemma {:induction false} NothingBeyond(common: Path, path: Path, i: nat)
    requires |path| <= i <= |common|
    ensures Kept(common, path, i) == []
    decreases |common| - i
  {
    if i < |common| { NothingBeyond(common, path, i + 1); }
  }

  /** Filtering a prefix of one path by the path one step further leaves a prefix of both. */
  lemma KeptAfterStep(common: Path, p: Path, q: Path)
    requires common <= p && Step(p, q)
    ensures Kept(common, q, 0) <= common && Kept(common, q, 0) <= q
  {
    hide Kept;
    if common <= q {
      KeptSplit(common, q, 0, |common|);
      NothingLeft(common, q);
      assert common[0..|common|] + [] == common;
    } else {
      var k := |q| - 1;
      assert q[..k] <= p && k < |common|;
      assert forall i :: 0 <= i < k ==> q[i] == q[..k][i] == p[i] == common[i];
      KeptOfCut(common, q);
    }
  }

  lemma NothingLeft(common: Path, path: Path)
    ensures Kept(common, path, |common|) == []
  {
  }

  /** When the paths agree but for the last title of the second. */
  lemma KeptOfCut(common: Path, q: Path)
    requires q != [] && |q| <= |common| && forall i :: 0 <= i < |q| - 1 ==> q[i] == common[i]
    ensures Kept(common, q, 0) <= common && Kept(common, q, 0) <= q
  {
    var k := |q| - 1;
    assert common[..k] == q[..k];
    LastKept(common, q);
    hide Kept;
    KeptSplit(common, q, 0, k);
    assert common[0..k] == common[..k];
    if q[k] == common[k] {
      PrefixAndOne(common, k);
      PrefixAndOne(q, k);
      assert common[..k] + [common[k]] == q[..k] + [q[k]];
    } else {
      assert common[..k] + [] == common[..k] == q[..k];
    }
  }

  lemma PrefixAndOne(path: Path, k: nat)
    requires k < |path|
    ensures path[..k] + [path[k]] == path[..k + 1] && path[..k + 1] <= path
  {
  }

  lemma LastKept(common: Path, q: Path)
    requires q != [] && |q| <= |common|
    ensures Kept(common, q, |q| - 1) == if q[|q| - 1] == common[|q| - 1] then [common[|q| - 1]] else []
  {
    NothingBeyond(common, q, |q|);
    assert [common[|q| - 1]] + [] == [common[|q| - 1]];
  }

  lemma {:induction false} CommonOfChained(common: Path, p: Path, blocks: seq<Block>)
    requires common <= p && Chained(blocks) && (blocks != [] ==> Step(p, blocks[0].path))
    ensures CommonFrom(common, blocks) <= common && PrefixOfAll(CommonFrom(common, blocks), blocks)
    decreases |blocks|
  {
    hide Step, Kept, Chained;
    if blocks != [] {
      var next := Kept(common, blocks[0].path, 0);
      KeptAfterStep(common, p, blocks[0].path);
      assert blocks == [blocks[0]] + blocks[1..];
      ChainedParts([blocks[0]], blocks[1..]);
      CommonOfChained(next, blocks[0].path, blocks[1..]);
    }
  }

  /** `path` is the longest path that all the blocks share. */
  ghost predicate LongestCommon(path: Path, blocks: seq<Block>) {
    && PrefixOfAll(path, blocks)
    && forall prefix: Path :: PrefixOfAll(prefix, blocks) ==> prefix <= path
  }

  lemma ChainedCommonPath(blocks: seq<Block>)
    requires blocks != [] && Chained(blocks)
    ensures LongestCommon(CommonPath(blocks), blocks)
  {
    hide Step, Chained, CommonFrom;
    var first, rest := blocks[0].path, blocks[1..];
    assert blocks == [blocks[0]] + rest;
    ChainedParts([blocks[0]], rest);
    CommonOfChained(first, first, rest);
    forall prefix: Path | PrefixOfAll(prefix, blocks)
      ensures prefix <= CommonPath(blocks)
    {
      CommonPrefixIsKept(first, rest, prefix);
    }
  }

  // ---- Records ---------------------------------------------------------------------------------

  function FirstLine(blocks: seq<Block>): nat
    requires blocks != []
  {
    if |blocks| == 1 then blocks[0].start else Least(blocks[0].start, FirstLine(blocks[1..]))
  }

  function LastLine(blocks: seq<Block>): nat
    requires blocks != []
  {
    if |blocks| == 1 then blocks[0].end
    else if blocks[0].end >= LastLine(blocks[1..]) then blocks[0].end else LastLine(blocks[1..])
  }

  function RecordOf(unicode: Unicode, draft: Draft): Record
    requires draft.blocks != []
  {
    Record(TextOf(draft.blocks), CommonPath(draft.blocks), FirstLine(draft.blocks), LastLine(draft.blocks),
           Count(unicode, TextOf(draft.blocks)), draft.overlapTokens)
  }

  ghost predicate Filled(drafts: seq<Draft>) {
    forall i :: 0 <= i < |drafts| ==> drafts[i].blocks != []
  }

  function Records(unicode: Unicode, drafts: seq<Draft>): (records: seq<Record>)
    requires Filled(drafts)
    ensures |records| == |drafts|
    ensures forall i :: 0 <= i < |records| ==> records[i] == RecordOf(unicode, drafts[i])
  {
    seq(|drafts|, i requires 0 <= i < |drafts| => RecordOf(unicode, drafts[i]))
  }

  function RecordTexts(records: seq<Record>): seq<string> {
    seq(|records|, i requires 0 <= i < |records| => records[i].text)
  }

  predicate PartOfText(text: string, part: string) {
    Find(text, part, 0).Some?
  }

  /** The block's text is in one record, or each of its words is in some record. */
  predicate Preserved(block: Block, records: seq<Record>) {
    || (exists i :: 0 <= i < |records| && PartOfText(records[i].text, block.text))
    || (forall i :: 0 <= i < |WordsOf(block.text)| ==>
          PartOfText(Join("\n", RecordTexts(records)), WordsOf(block.text)[i]))
  }

  predicate HeadingsOnly(text: string) {
    var lines := SplitLines(text);
    && (exists i :: 0 <= i < |lines| && Strip(lines[i]) != "")
    && forall i :: 0 <= i < |lines| && Strip(lines[i]) != "" ==> "#" <= TrimLeft(lines[i])
  }

  /** The record at position i is no mere heading, no repetition and not avoidably small. */
  predicate GoodQuality(config: Config, records: seq<Record>, i: nat)
    requires i < |records|
  {
    && Strip(records[i].text) != ""
    && !HeadingsOnly(records[i].text)
    && (forall j :: 0 <= j < i ==> records[j].text != records[i].text)
    && !(records[i].tokens < config.minimum && |records| > 1)
  }

  /** The lines of a record run from the first start of its blocks to their last end. */
  lemma {:induction false} LinesMean(blocks: seq<Block>)
    requires blocks != []
    ensures exists i :: 0 <= i < |blocks| && blocks[i].start == FirstLine(blocks)
    ensures forall i :: 0 <= i < |blocks| ==> FirstLine(blocks) <= blocks[i].start
    ensures exists i :: 0 <= i < |blocks| && blocks[i].end == LastLine(blocks)
    ensures forall i :: 0 <= i < |blocks| ==> blocks[i].end <= LastLine(blocks)
    decreases |blocks|
  {
    if |blocks| > 1 {
      var rest := blocks[1..];
      LinesMean(rest);
      var first :| 0 <= first < |rest| && rest[first].start == FirstLine(rest);
      var last :| 0 <= last < |rest| && rest[last].end == LastLine(rest);
      assert blocks[first + 1] == rest[first] && blocks[last + 1] == rest[last] && blocks[0] == blocks[0];
      assert forall i :: 0 < i < |blocks| ==> blocks[i] == rest[i - 1];
    } else {
      assert blocks[0].start == FirstLine(blocks) && blocks[0].end == LastLine(blocks);
    }
  }

  /** The record of a draft: the text, path, lines and exact tokens of its blocks, and its overlap. */
  lemma RecordMeans(unicode: Unicode, draft: Draft)
    requires Sound(unicode) && draft.blocks != []
    ensures var record := RecordOf(unicode, draft);
            && record.text == TextOf(draft.blocks) && record.path == CommonPath(draft.blocks)
            && record.tokens == Total(unicode, draft.blocks) && record.overlapTokens == draft.overlapTokens
            && (forall i :: 0 <= i < |draft.blocks| ==>
                  record.start <= draft.blocks[i].start && draft.blocks[i].end <= record.end)
            && (exists i :: 0 <= i < |draft.blocks| && draft.blocks[i].start == record.start)
            && exists i :: 0 <= i < |draft.blocks| && draft.blocks[i].end == record.end
  {
    hide TextOf, CommonPath, Count, Total, FirstLine, LastLine;
    LinesMean(draft.blocks);
    TextCount(unicode, draft.blocks);
  }

  ghost predicate Shows(text: string) {
    exists k :: 0 <= k < |text| && !IsSpace(text[k])
  }

  /** The first character shown is a hash. */
  ghost predicate Hashed(line: string) {
    exists k :: 0 <= k < |line| && line[k] == '#' && AllSpace(line[..k])
  }

  lemma ShowsMeans(text: string)
    ensures Strip(text) != "" <==> Shows(text)
  {
    var left := StripMeans(text);
    hide Strip;
    if Strip(text) != "" {
      assert Strip(text)[0] == text[left];
    } else {
      assert forall k :: 0 <= k < left ==> text[..left][k] == text[k];
      assert forall k :: left <= k < |text| ==> text[left..][k - left] == text[k];
    }
  }

  lemma HashedMeans(line: string)
    ensures "#" <= TrimLeft(line) <==> Hashed(line)
  {
    TrimLeftMeans(line);
    var n := |line| - |TrimLeft(line)|;
    hide TrimLeft;
    forall k | 0 <= k < |line| && !IsSpace(line[k])
      ensures AllSpace(line[..k]) <==> k == n
    {
      SpaceBefore(line, n);
      SpaceBefore(line, k);
    }
    hide AllSpace;
  }

  lemma SpaceBefore(line: string, k: nat)
    requires k <= |line|
    ensures AllSpace(line[..k]) <==> forall i :: 0 <= i < k ==> IsSpace(line[i])
  {
    assert forall i :: 0 <= i < k ==> line[..k][i] == line[i];
  }

  /** A record passes exactly when it shows something, more than headings, repeats no earlier record, and has the
      minimum of tokens unless it is the only one. */
  lemma QualityMeans(config: Config, records: seq<Record>, i: nat)
    requires i < |records|
    ensures var lines := SplitLines(records[i].text);
            GoodQuality(config, records, i) <==>
            && Shows(records[i].text)
            && ((exists k :: 0 <= k < |lines| && Shows(lines[k]) && !Hashed(lines[k]))
                || forall k :: 0 <= k < |lines| ==> !Shows(lines[k]))
            && (forall j :: 0 <= j < i ==> records[j].text != records[i].text)
            && (records[i].tokens >= config.minimum || |records| == 1)
  {
    hide Strip, TrimLeft, Shows, Hashed, SplitLines;
    forall text
      ensures Strip(text) != "" <==> Shows(text)
      ensures "#" <= TrimLeft(text) <==> Hashed(text)
    {
      ShowsMeans(text);
      HashedMeans(text);
    }
  }

  method Chunk(unicode: Unicode, config: Config, blocks: seq<Block>, maximumChunks: nat)
    returns (result: Result<seq<Record>, ChunkingError>)
    requires Sound(unicode) && InBounds(config)
    ensures Filled(Packed(unicode, config, Expanded(unicode, blocks, config.maximum)))
    ensures var drafts := Packed(unicode, config, Expanded(unicode, blocks, config.maximum));
            var cores := Cores(unicode, config, Expanded(unicode, blocks, config.maximum));
            if drafts == [] || |drafts| > maximumChunks then result == Err(InvalidCount)
            else if TooLarge(unicode, config, cores) then result == Err(TokenMaximum)
            else if forall i :: 0 <= i < |drafts| ==> GoodQuality(config, Records(unicode, drafts), i)
            then result == Ok(Records(unicode, drafts))
            else result == Err(PoorQuality)
  {
    hide Packed, Cores, Count, TextOf, CommonPath, SplitBlock, PartOfText, GoodQuality, Preserved, RecordOf;
    var expanded := Expand(unicode, blocks, config.maximum);
    var drafts := PackDocument(unicode, config, expanded);
    PackedIsFilled(unicode, config, expanded);
    if drafts == [] || |drafts| > maximumChunks { return Err(InvalidCount); }
    var records := Records(unicode, drafts);
    TooLargeMeans(unicode, config, expanded);
    if exists i :: 0 <= i < |records| && records[i].tokens > config.maximum { return Err(TokenMaximum); }
    CoverageNeverFires(unicode, config, blocks);
    for i := 0 to |blocks| {
      if !Preserved(blocks[i], records) { return Err(NotPreserved); }
    }
    for i := 0 to |records|
      invariant forall j :: 0 <= j < i ==> GoodQuality(config, records, j)
    {
      if !GoodQuality(config, records, i) { return Err(PoorQuality); }
    }
    return Ok(records);
  }

  method Expand(unicode: Unicode, blocks: seq<Block>, maximum: nat) returns (expanded: seq<Block>)
    requires maximum >= 1
    ensures expanded == Expanded(unicode, blocks, maximum)
  {
    hide SplitBlock;
    expanded := [];
    for i := 0 to |blocks|
      invariant expanded + Expanded(unicode, blocks[i..], maximum) == Expanded(unicode, blocks, maximum)
    {
      assert blocks[i..][1..] == blocks[i + 1..];
      var parts := SplitOversizedBlock(unicode, blocks[i], maximum);
      expanded := expanded + parts;
    }
    assert blocks[|blocks|..] == [];
  }

  lemma PackedIsFilled(unicode: Unicode, config: Config, blocks: seq<Block>)
    requires InBounds(config)
    ensures Filled(Packed(unicode, config, blocks))
    ensures |Packed(unicode, config, blocks)| == |Cores(unicode, config, blocks)|
  {
    hide Packed, Cores, MayOverlap, Total;
    PackedDraftsFit(unicode, config, blocks);
  }

  // ---- The token maximum -----------------------------------------------------------------------

  /** Some core is over the maximum. */
  ghost predicate TooLarge(unicode: Unicode, config: Config, cores: seq<seq<Block>>) {
    exists i :: 0 <= i < |cores| && Total(unicode, cores[i]) > config.maximum
  }

  /** A record is over the maximum exactly when a core is: overlap is never to blame.  Such a core is a
      run of headings below the target and one block. */
  lemma TooLargeMeans(unicode: Unicode, config: Config, blocks: seq<Block>)
    requires Sound(unicode) && InBounds(config)
    ensures Filled(Packed(unicode, config, blocks))
    ensures var records := Records(unicode, Packed(unicode, config, blocks));
            (exists i :: 0 <= i < |records| && records[i].tokens > config.maximum) <==>
            TooLarge(unicode, config, Cores(unicode, config, blocks))
    ensures forall core :: core in Cores(unicode, config, blocks) && Total(unicode, core) > config.maximum ==>
              core != [] && AllHeadings(core[..|core| - 1]) && Total(unicode, core[..|core| - 1]) < config.target
  {
    hide Packed, Cores, Total, Count, TextOf, Flatten, Coherent, TailCrosses;
    PackedIsFilled(unicode, config, blocks);
    CoresAreGood(unicode, config, blocks);
    PackedDraftsFit(unicode, config, blocks);
    var cores, drafts := Cores(unicode, config, blocks), Packed(unicode, config, blocks);
    var records := Records(unicode, drafts);
    forall i | 0 <= i < |cores|
      ensures records[i].tokens > config.maximum <==> Total(unicode, cores[i]) > config.maximum
    {
      TextCount(unicode, drafts[i].blocks);
      DraftTotal(unicode, config, drafts[i], Preceding([], cores, i), cores[i]);
    }
  }

  lemma DraftTotal(unicode: Unicode, config: Config, draft: Draft, previous: seq<Block>, core: seq<Block>)
    requires core != [] && DraftFits(unicode, config, draft, previous, core)
    ensures Total(unicode, draft.blocks) > config.maximum <==> Total(unicode, core) > config.maximum
  {
    hide MayOverlap, Total;
    var n := |draft.blocks| - |core|;
    assert draft.blocks == draft.blocks[..n] + core;
    TotalConcat(unicode, draft.blocks[..n], core);
  }

  // ---- Coverage --------------------------------------------------------------------------------

  lemma FindMeans(text: string, part: string)
    ensures PartOfText(text, part) <==> Contains(text, part)
  {
  }

  /** The check asks for the block's text in one record, or for each of its words in their joined texts. */
  lemma PreservedMeans(block: Block, records: seq<Record>)
    ensures Preserved(block, records) <==>
            || (exists i :: 0 <= i < |records| && Contains(records[i].text, block.text))
            || (forall w :: w in WordsOf(block.text) ==> Contains(Join("\n", RecordTexts(records)), w))
  {
    hide Contains, PartOfText, WordsOf, Join;
    forall text, part
      ensures PartOfText(text, part) <==> Contains(text, part)
    {
      FindMeans(text, part);
    }
    assert forall i :: 0 <= i < |WordsOf(block.text)| ==> WordsOf(block.text)[i] in WordsOf(block.text);
  }

  lemma {:induction false} WordsOfPart(blocks: seq<Block>, w: string)
    requires w in BlockWords(blocks)
    ensures exists i :: 0 <= i < |blocks| && w in WordsOf(blocks[i].text)
  {
    hide WordsOf;
    if w in WordsOf(blocks[0].text) {
    } else {
      WordsOfPart(blocks[1..], w);
      var i :| 0 <= i < |blocks[1..]| && w in WordsOf(blocks[1..][i].text);
      assert blocks[i + 1] == blocks[1..][i];
    }
  }

  lemma {:induction false} WordInBlocks(blocks: seq<Block>, i: nat, w: string)
    requires i < |blocks| && w in WordsOf(blocks[i].text)
    ensures w in BlockWords(blocks)
  {
    hide WordsOf;
    if i > 0 { WordInBlocks(blocks[1..], i - 1, w); }
  }

  lemma {:induction false} WordInCores(cores: seq<seq<Block>>, w: string)
    requires w in BlockWords(Flatten(cores))
    ensures exists i :: 0 <= i < |cores| && w in BlockWords(cores[i])
  {
    hide WordsOf, BlockWords;
    if cores == [] {
      NoBlockWords();
    } else {
      BlockWordsConcat(cores[0], Flatten(cores[1..]));
      if w !in BlockWords(cores[0]) {
        WordInCores(cores[1..], w);
        var i :| 0 <= i < |cores[1..]| && w in BlockWords(cores[1..][i]);
        assert cores[i + 1] == cores[1..][i];
      }
    }
  }

  lemma NoBlockWords()
    ensures BlockWords([]) == []
  {
  }

  lemma {:induction false} WordInTexts(texts: seq<string>, i: nat, w: string)
    requires i < |texts| && w in WordsOf(texts[i])
    ensures w in AllWords(texts)
  {
    hide WordsOf;
    if i > 0 { WordInTexts(texts[1..], i - 1, w); }
  }

  /** Every word of the blocks is found in the joined texts of the records. */
  lemma WordIsCombined(unicode: Unicode, config: Config, blocks: seq<Block>, w: string)
    requires InBounds(config) && w in BlockWords(blocks) && Filled(Packed(unicode, config, blocks))
    ensures PartOfText(Join("\n", RecordTexts(Records(unicode, Packed(unicode, config, blocks)))), w)
  {
    hide Packed, Cores, WordsOf, TextOf, PartOfText, Join, BlockWords, Flatten, AllWords, MayOverlap, CommonPath;
    PackedDraftsFit(unicode, config, blocks);
    CoresCover(unicode, config, blocks);
    var cores, drafts := Cores(unicode, config, blocks), Packed(unicode, config, blocks);
    WordInCores(cores, w);
    var i :| 0 <= i < |cores| && w in BlockWords(cores[i]);
    assert DraftFits(unicode, config, drafts[i], Preceding([], cores, i), cores[i]);
    DraftHasWord(unicode, config, drafts[i], Preceding([], cores, i), cores[i], w);
    var texts := RecordTexts(Records(unicode, drafts));
    assert texts[i] == TextOf(drafts[i].blocks);
    WordInTexts(texts, i, w);
    NewlineIsBlank();
    JoinWords("\n", texts);
    WordsAreParts(Join("\n", texts), w);
    FindMeans(Join("\n", texts), w);
  }

  lemma CoresCover(unicode: Unicode, config: Config, blocks: seq<Block>)
    requires InBounds(config)
    ensures Flatten(Cores(unicode, config, blocks)) == blocks
  {
    hide Cores, TailCrosses;
    CoresAreGood(unicode, config, blocks);
  }

  lemma DraftHasWord(unicode: Unicode, config: Config, draft: Draft, previous: seq<Block>, core: seq<Block>, w: string)
    requires core != [] && DraftFits(unicode, config, draft, previous, core) && w in BlockWords(core)
    ensures w in WordsOf(TextOf(draft.blocks))
  {
    hide MayOverlap, Total, WordsOf, TextOf;
    var n := |draft.blocks| - |core|;
    assert draft.blocks == draft.blocks[..n] + core;
    BlockWordsConcat(draft.blocks[..n], core);
    TextWords(draft.blocks);
  }

  /** The coverage check accepts the chunks of every document. */
  lemma CoverageNeverFires(unicode: Unicode, config: Config, blocks: seq<Block>)
    requires InBounds(config)
    ensures Filled(Packed(unicode, config, Expanded(unicode, blocks, config.maximum)))
    ensures var records := Records(unicode, Packed(unicode, config, Expanded(unicode, blocks, config.maximum)));
            forall i :: 0 <= i < |blocks| ==> Preserved(blocks[i], records)
  {
    hide Packed, WordsOf, Expanded, PartOfText, Join;
    var expanded := Expanded(unicode, blocks, config.maximum);
    PackedIsFilled(unicode, config, expanded);
    ExpansionKeepsWords(unicode, blocks, config.maximum);
    var records := Records(unicode, Packed(unicode, config, expanded));
    forall i, k | 0 <= i < |blocks| && 0 <= k < |WordsOf(blocks[i].text)|
      ensures PartOfText(Join("\n", RecordTexts(records)), WordsOf(blocks[i].text)[k])
    {
      WordInBlocks(blocks, i, WordsOf(blocks[i].text)[k]);
      WordIsCombined(unicode, config, expanded, WordsOf(blocks[i].text)[k]);
    }
  }

  /** From the lines of a document to the cores of its chunks every word is kept, in order. */
  lemma LinesReachChunks(unicode: Unicode, config: Config, lines: seq<Line>)
    requires InBounds(config)
    ensures var blocks := Expanded(unicode, AllBlocks(SectionsOf(unicode, lines)), config.maximum);
            BlockWords(Flatten(Cores(unicode, config, blocks))) == AllWords(Texts(lines))
  {
    hide Cores, Expanded, AllBlocks, WordsOf, BlockWords, AllWords, Texts;
    var parsed := AllBlocks(SectionsOf(unicode, lines));
    SectionsKeepWords(unicode, NO_HEADING, lines);
    assert NO_HEADING.lines + lines == lines;
    ExpansionKeepsWords(unicode, parsed, config.maximum);
    CoresCover(unicode, config, Expanded(unicode, parsed, config.maximum));
  }

  // ---- One root per chunk ----------------------------------------------------------------------

  lemma {:induction false} PartsKeepPath(block: Block, texts: seq<string>, line: nat)
    ensures forall i :: 0 <= i < |Parts(block, texts, line)| ==> Parts(block, texts, line)[i].path == block.path
  {
    hide Strip;
    if texts != [] { PartsKeepPath(block, texts[1..], line); }
  }

  lemma {:induction false} LinesKeepPath(unicode: Unicode, lines: seq<string>, offset: nat, block: Block, maximum: nat)
    requires maximum >= 1
    ensures OnPath(SplitLinesOf(unicode, lines, offset, block, maximum), block.path)
    decreases |lines|
  {
    hide Parts, Finals, Pieces;
    if lines != [] {
      LinesKeepPath(unicode, lines[1..], offset + 1, block, maximum);
      PartsKeepPath(block, Finals(unicode, Pieces(unicode, lines[0], maximum), maximum),
                    Least(block.start + offset, block.end));
    }
  }

  lemma SplitKeepsPath(unicode: Unicode, block: Block, maximum: nat)
    requires maximum >= 1
    ensures OnPath(SplitBlock(unicode, block, maximum), block.path)
  {
    hide Parts, Finals, Pieces, SplitLinesOf, Count, SplitLines;
    LinesKeepPath(unicode, SplitLines(block.text), 0, block, maximum);
    PartsKeepPath(block, Finals(unicode, Pieces(unicode, block.text, maximum), maximum), block.start);
  }

  lemma SplitHasBlock(unicode: Unicode, block: Block, maximum: nat)
    requires maximum >= 1 && WordsOf(block.text) != []
    ensures SplitBlock(unicode, block, maximum) != []
  {
    hide SplitBlock, WordsOf;
    SplittingKeepsWords(unicode, block, maximum);
    NoBlockWords();
  }

  lemma {:induction false} ExpansionChained(unicode: Unicode, blocks: seq<Block>, maximum: nat)
    requires maximum >= 1 && Chained(blocks) && Worded(blocks)
    ensures Chained(Expanded(unicode, blocks, maximum))
    ensures blocks != [] ==>
              Expanded(unicode, blocks, maximum) != [] && Expanded(unicode, blocks, maximum)[0].path == blocks[0].path
  {
    hide SplitBlock, WordsOf, Step, Chained;
    if blocks == [] {
      OnePathChained([], []);
    } else {
      var parts, rest := SplitBlock(unicode, blocks[0], maximum), blocks[1..];
      assert blocks == [blocks[0]] + rest;
      ChainedParts([blocks[0]], rest);
      ExpansionChained(unicode, rest, maximum);
      SplitKeepsPath(unicode, blocks[0], maximum);
      SplitHasBlock(unicode, blocks[0], maximum);
      OnePathChained(parts, blocks[0].path);
      ChainedConcat(parts, Expanded(unicode, rest, maximum));
    }
  }

  lemma {:induction false} CoresChained(previous: seq<Block>, cores: seq<seq<Block>>, i: nat)
    requires i < |cores| && Chained(previous + Flatten(cores))
    ensures Chained(Preceding(previous, cores, i) + cores[i])
    decreases i
  {
    hide Chained;
    if i == 0 {
      assert previous + Flatten(cores) == (previous + cores[0]) + Flatten(cores[1..]);
      ChainedParts(previous + cores[0], Flatten(cores[1..]));
    } else {
      ChainedParts(previous, Flatten(cores));
      CoresChained(cores[0], cores[1..], i - 1);
      assert cores[1..][i - 1] == cores[i];
      assert Preceding(cores[0], cores[1..], i - 1) == Preceding(previous, cores, i);
    }
  }

  lemma DraftChained(unicode: Unicode, config: Config, draft: Draft, previous: seq<Block>, core: seq<Block>)
    requires core != [] && DraftFits(unicode, config, draft, previous, core) && Chained(previous + core)
    ensures Chained(draft.blocks)
  {
    hide Chained, DraftFits;
    var k := DraftStart(unicode, config, draft, previous, core);
    ChainedEnd(previous, core, k);
  }

  lemma ChainedEnd(previous: seq<Block>, core: seq<Block>, k: nat)
    requires k <= |previous| && Chained(previous + core)
    ensures Chained(previous[k..] + core)
  {
    hide Chained;
    assert previous + core == previous[..k] + (previous[k..] + core);
    ChainedParts(previous[..k], previous[k..] + core);
  }

  lemma DraftStart(unicode: Unicode, config: Config, draft: Draft, previous: seq<Block>, core: seq<Block>)
    returns (k: nat)
    requires core != [] && DraftFits(unicode, config, draft, previous, core)
    ensures k <= |previous| && draft.blocks == previous[k..] + core
  {
    hide Total, OnPath;
    var n := |draft.blocks| - |core|;
    k := |previous| - n;
    assert draft.blocks == draft.blocks[..n] + draft.blocks[n..];
  }

  /** The blocks of every chunk of a parsed document are chained. */
  lemma DraftsChained(unicode: Unicode, config: Config, lines: seq<Line>)
    requires InBounds(config)
    ensures var blocks := Expanded(unicode, AllBlocks(SectionsOf(unicode, lines)), config.maximum);
            var drafts := Packed(unicode, config, blocks);
            Filled(drafts) && forall i :: 0 <= i < |drafts| ==> Chained(drafts[i].blocks)
  {
    hide Packed, Cores, Expanded, AllBlocks, Chained, EmptyPathsFirst, TailCrosses, DraftFits, Flatten, Worded;
    var parsed := AllBlocks(SectionsOf(unicode, lines));
    DocumentChained(unicode, lines);
    SectionsWorded(unicode, NO_HEADING, lines);
    ExpansionChained(unicode, parsed, config.maximum);
    var blocks := Expanded(unicode, parsed, config.maximum);
    var cores, drafts := Cores(unicode, config, blocks), Packed(unicode, config, blocks);
    CoresCover(unicode, config, blocks);
    PackedIsFilled(unicode, config, blocks);
    PackedDraftsFit(unicode, config, blocks);
    assert [] + Flatten(cores) == blocks;
    forall i | 0 <= i < |drafts|
      ensures Chained(drafts[i].blocks)
    {
      CoresChained([], cores, i);
      DraftChained(unicode, config, drafts[i], Preceding([], cores, i), cores[i]);
    }
  }

  /** The section path of every chunk of every parsed document is the longest path its blocks share,
      although the filter looks at one position at a time. */
  lemma ChunkPathIsLongestCommon(unicode: Unicode, config: Config, lines: seq<Line>)
    requires InBounds(config)
    ensures var blocks := Expanded(unicode, AllBlocks(SectionsOf(unicode, lines)), config.maximum);
            var drafts := Packed(unicode, config, blocks);
            forall i :: 0 <= i < |drafts| ==>
              drafts[i].blocks != [] && LongestCommon(CommonPath(drafts[i].blocks), drafts[i].blocks)
  {
    hide Packed, Expanded, AllBlocks, SectionsOf, Chained, LongestCommon, CommonPath;
    DraftsChained(unicode, config, lines);
    var drafts := Packed(unicode, config, Expanded(unicode, AllBlocks(SectionsOf(unicode, lines)), config.maximum));
    forall i | 0 <= i < |drafts|
      ensures LongestCommon(CommonPath(drafts[i].blocks), drafts[i].blocks)
    {
      ChainedCommonPath(drafts[i].blocks);
    }
  }

  /** For a parsed document every chunk has one first heading exactly when the short tail was not merged
      across a boundary. */
  lemma OneRootPerChunk(unicode: Unicode, config: Config, lines: seq<Line>)
    requires InBounds(config)
    ensures var blocks := Expanded(unicode, AllBlocks(SectionsOf(unicode, lines)), config.maximum);
            var drafts := Packed(unicode, config, blocks);
            (forall i :: 0 <= i < |drafts| ==> OneRoot(drafts[i].blocks)) <==> !TailCrosses(unicode, config, blocks)
  {
    hide Packed, Expanded, AllBlocks, SectionsOf, Chained, Coherent, OneRoot, TailCrosses;
    DraftsChained(unicode, config, lines);
    var blocks := Expanded(unicode, AllBlocks(SectionsOf(unicode, lines)), config.maximum);
    var drafts := Packed(unicode, config, blocks);
    forall i | 0 <= i < |drafts|
      ensures OneRoot(drafts[i].blocks) <==> Coherent(drafts[i].blocks)
    {
      ChainedEmptyFirst(drafts[i].blocks);
      CoherentIsOneRoot(drafts[i].blocks);
    }
    DraftsCoherent(unicode, config, blocks);
  }

  // ---- A tail merged across a boundary ---------------------------------------------------------

  /** A heading line and one short paragraph. */
  function SectionLines(title: string, n: nat): seq<Line> {
    [Line("# " + title, n), Line("a", n + 1)]
  }

  const EXAMPLE := SectionLines("A", 1) + SectionLines("B", 3)
  const TIGHT := Config(7, 7, 0, 4)

  function HeadingBlock(title: string, line: nat): Block {
    Block(Heading, "# " + title, line, line, [title])
  }

  function TextBlock(title: string, line: nat): Block {
    Block(Paragraph, "a", line, line, [title])
  }

  lemma HeadingLine(title: string)
    requires |title| == 1 && !IsSpace(title[0])
    ensures var text := "# " + title;
            && IsHeading(text) && Hashes(text) == 1 && Title(text) == title && Strip(text) == text
  {
    var text := "# " + title;
    assert text[1..] == " " + title && text[1..][1..] == title;
    assert Hashes(text[1..]) == 0;
    assert TrimLeft(text[1..]) == title && TrimRight(title) == title;
    assert TrimRight(text) == text;
  }

  lemma PlainLine(unicode: Unicode)
    ensures Strip("a") == "a" && KindOf(unicode, "a") == Paragraph && !IsHeading("a")
  {
    assert TrimLeft("a") == "a" && TrimRight("a") == "a";
    assert Hashes("a") == 0;
    assert "a"[0] == 'a' && "`" == "```"[..1];
    assert |"```"| == 3 && "|"[0] == '|' && ">"[0] == '>';
  }

  lemma OneLine(line: Line)
    requires Strip(line.text) == line.text
    ensures GroupText([line]) == line.text
  {
    assert Texts([line]) == [line.text];
  }

  lemma SectionBlocks(unicode: Unicode, title: string, n: nat)
    requires |title| == 1 && !IsSpace(title[0])
    ensures BlocksOf(unicode, SectionLines(title, n), [title]) ==
            [HeadingBlock(title, n), TextBlock(title, n + 1)]
  {
    hide Strip, IsHeading, GroupText, TrimLeft;
    HeadingLine(title);
    PlainLine(unicode);
    var first, second := Line("# " + title, n), Line("a", n + 1);
    OneLine(first);
    OneLine(second);
    assert KindOf(unicode, first.text) == Heading;
    hide KindOf;
    assert [first, second][..1] == [first] && [first, second][1..] == [second];
    assert [second][..1] == [second] && [second][1..] == [];
    assert GroupEnd(unicode, [first, second]) == 1 && GroupEnd(unicode, [second]) == 1;
    assert BlocksOf(unicode, [second], [title]) == [TextBlock(title, n + 1)] + BlocksOf(unicode, [], [title]);
  }

  function OneSection(title: string, n: nat): Open {
    Open(SectionLines(title, n), title, 1, [title])
  }

  lemma SectionFollows(unicode: Unicode, open: Open, title: string, n: nat, rest: seq<Line>)
    requires |title| == 1 && !IsSpace(title[0])
    ensures SectionsFrom(unicode, open, SectionLines(title, n) + rest) ==
            Finished(unicode, open) + SectionsFrom(unicode, OneSection(title, n), rest)
  {
    hide Strip, IsHeading, Hashes, Title, Finished;
    HeadingLine(title);
    PlainLine(unicode);
    var first, second := Line("# " + title, n), Line("a", n + 1);
    var open' := Open([first], title, 1, [title]);
    BelowIs(open, first);
    assert Shorter(open.path, 0) + [title] == [title];
    assert (SectionLines(title, n) + rest)[1..] == [second] + rest && ([second] + rest)[1..] == rest;
    assert [first] + [second] == [first, second];
    assert SectionsFrom(unicode, open', [second] + rest) == SectionsFrom(unicode, OneSection(title, n), rest);
  }

  /** The last section of a document. */
  lemma SectionEnds(unicode: Unicode, open: Open, title: string, n: nat)
    requires |title| == 1 && !IsSpace(title[0])
    ensures SectionsFrom(unicode, open, SectionLines(title, n)) ==
            Finished(unicode, open) + Finished(unicode, OneSection(title, n))
  {
    hide Strip, Finished;
    SectionFollows(unicode, open, title, n, []);
    hide OneSection;
    assert SectionLines(title, n) + [] == SectionLines(title, n);
  }

  lemma TwoSections(unicode: Unicode)
    ensures AllBlocks(SectionsOf(unicode, EXAMPLE)) ==
            [HeadingBlock("A", 1), TextBlock("A", 2)] + [HeadingBlock("B", 3), TextBlock("B", 4)]
  {
    hide BlocksOf, Finished, SectionsFrom, HeadingBlock, TextBlock, AllBlocks, SectionLines;
    var first, last := Finished(unicode, OneSection("A", 1)), Finished(unicode, OneSection("B", 3));
    SectionFollows(unicode, NO_HEADING, "A", 1, SectionLines("B", 3));
    SectionEnds(unicode, OneSection("A", 1), "B", 3);
    FinishedBlocks(unicode, NO_HEADING, first + last);
    FinishedBlocks(unicode, OneSection("A", 1), last);
    FinishedBlocks(unicode, OneSection("B", 3), []);
    assert last + [] == last;
    NoBlocks(unicode);
    SectionBlocks(unicode, "A", 1);
    SectionBlocks(unicode, "B", 3);
  }

  lemma NoBlocks(unicode: Unicode)
    ensures BlocksOf(unicode, [], []) == [] && AllBlocks([]) == []
  {
  }

  lemma ExampleCounts(unicode: Unicode)
    requires unicode.word('a') && unicode.word('A') && unicode.word('B') && !unicode.word('#') && !unicode.word(' ')
    ensures Count(unicode, "a") == 1 && Count(unicode, "# A") == 2 && Count(unicode, "# B") == 2
  {
    assert "a"[1..] == "" && "A"[1..] == "" && "B"[1..] == "";
    assert Count(unicode, "A") == 1 && Count(unicode, "B") == 1;
    assert "# A"[1..] == " A" && " A"[1..] == "A" && "# B"[1..] == " B" && " B"[1..] == "B";
    assert Count(unicode, " A") == 1 && Count(unicode, " B") == 1;
  }

  lemma ExampleExpanded(unicode: Unicode, blocks: seq<Block>)
    requires forall i :: 0 <= i < |blocks| ==> Count(unicode, blocks[i].text) <= 7
    ensures Expanded(unicode, blocks, 7) == blocks
  {
    hide Count, SplitLinesOf, SplitTextOf;
    if blocks != [] {
      ExampleExpanded(unicode, blocks[1..]);
      assert blocks == [blocks[0]] + blocks[1..];
    }
  }

  lemma ExamplePacks(unicode: Unicode)
    requires Count(unicode, "a") == 1 && Count(unicode, "# A") == 2 && Count(unicode, "# B") == 2
    ensures var b1, b2, b3, b4 := HeadingBlock("A", 1), TextBlock("A", 2), HeadingBlock("B", 3), TextBlock("B", 4);
            FinalState(unicode, TIGHT, [b1, b2, b3, b4]) == State([[b1, b2]], [b3, b4], 5)
  {
    hide Count;
    var b1, b2, b3, b4 := HeadingBlock("A", 1), TextBlock("A", 2), HeadingBlock("B", 3), TextBlock("B", 4);
    assert b1.text == "# A" && b3.text == "# B";
    assert "A"[0] != "B"[0];
    var s1, s2, s3 := State([], [b1], 2), State([], [b1, b2], 4), State([[b1, b2]], [b3], 3);
    assert PackStep(unicode, TIGHT, START, b1) == s1;
    assert PackStep(unicode, TIGHT, s1, b2) == s2;
    assert PackStep(unicode, TIGHT, s2, b3) == s3;
    assert PackStep(unicode, TIGHT, s3, b4) == State([[b1, b2]], [b3, b4], 5);
    hide PackStep;
    assert [b1, b2, b3, b4][1..] == [b2, b3, b4] && [b2, b3, b4][1..] == [b3, b4] && [b3, b4][1..] == [b4];
    assert [b4][1..] == [];
    assert Greedy(unicode, TIGHT, s3, [b4]) == State([[b1, b2]], [b3, b4], 5);
    assert Greedy(unicode, TIGHT, s2, [b3, b4]) == Greedy(unicode, TIGHT, s3, [b4]);
    assert Greedy(unicode, TIGHT, s1, [b2, b3, b4]) == Greedy(unicode, TIGHT, s2, [b3, b4]);
  }

  lemma ExampleMerges(unicode: Unicode)
    requires Count(unicode, "a") == 1 && Count(unicode, "# A") == 2 && Count(unicode, "# B") == 2
    ensures TailCrosses(unicode, TIGHT,
                        [HeadingBlock("A", 1), TextBlock("A", 2), HeadingBlock("B", 3), TextBlock("B", 4)])
  {
    hide Count, FinalState;
    var b1, b2, b3, b4 := HeadingBlock("A", 1), TextBlock("A", 2), HeadingBlock("B", 3), TextBlock("B", 4);
    ExamplePacks(unicode);
    var state := State([[b1, b2]], [b3, b4], 5);
    assert b1.text == "# A" && b3.text == "# B" && "A"[0] != "B"[0];
    assert [b1, b2] + [b3, b4] == [b1, b2, b3, b4];
    TotalOne(unicode, b2);
    TotalOne(unicode, b4);
    TotalConcat(unicode, [b1], [b2]);
    TotalConcat(unicode, [b3], [b4]);
    TotalConcat(unicode, [b1, b2], [b3, b4]);
    TotalOne(unicode, b1);
    TotalOne(unicode, b3);
    assert [b1] + [b2] == [b1, b2] && [b3] + [b4] == [b3, b4];
    assert state.cores[|state.cores| - 1] == [b1, b2];
  }

  /** The merge of a short tail does put two first headings into one chunk: a document of two short
      sections, packed with a target they fit together. */
  lemma MergeCanCross(unicode: Unicode)
    requires unicode.word('a') && unicode.word('A') && unicode.word('B') && !unicode.word('#') && !unicode.word(' ')
    ensures InBounds(TIGHT)
    ensures var blocks := Expanded(unicode, AllBlocks(SectionsOf(unicode, EXAMPLE)), TIGHT.maximum);
            var drafts := Packed(unicode, TIGHT, blocks);
            exists i :: 0 <= i < |drafts| && !OneRoot(drafts[i].blocks)
  {
    hide Packed, Expanded, AllBlocks, SectionsOf, OneRoot, TailCrosses, Count;
    ExampleCounts(unicode);
    TwoSections(unicode);
    assert "# " + "A" == "# A" && "# " + "B" == "# B";
    assert AllBlocks(SectionsOf(unicode, EXAMPLE)) ==
           [HeadingBlock("A", 1), TextBlock("A", 2), HeadingBlock("B", 3), TextBlock("B", 4)];
    assert forall i :: 0 <= i < |AllBlocks(SectionsOf(unicode, EXAMPLE))| ==>
                         Count(unicode, AllBlocks(SectionsOf(unicode, EXAMPLE))[i].text) <= 7;
    ExampleExpanded(unicode, AllBlocks(SectionsOf(unicode, EXAMPLE)));
    ExampleMerges(unicode);
    OneRootPerChunk(unicode, TIGHT, EXAMPLE);
  }
}
