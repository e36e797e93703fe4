/** Packing blocks into chunks: greedy cores, a merged tail, a rebalanced last pair, and overlap. */
module ChunkPacking {
  import opened Sequences
  import opened Text
  import opened Words
  import opened MarkdownBlocks

  datatype Config = Config(target: nat, maximum: nat, overlap: nat, minimum: nat)

  /** What the configuration class guarantees. */
  predicate InBounds(config: Config) {
    1 <= config.minimum <= config.target <= config.maximum && config.overlap < config.maximum
  }

  datatype Draft = Draft(blocks: seq<Block>, overlapTokens: nat)

  // ---- Texts and tokens of blocks --------------------------------------------------------------

  function BlockTexts(blocks: seq<Block>): seq<string> {
    seq(|blocks|, i requires 0 <= i < |blocks| => blocks[i].text)
  }

  function TextOf(blocks: seq<Block>): string {
    Strip(Join("\n\n", BlockTexts(blocks)))
  }

  /** A chunk text is the texts of its blocks with one blank line between neighbours, stripped. */
  lemma TextMeans(a: seq<Block>, b: seq<Block>, one: Block) returns (left: nat)
    ensures var joined := Join("\n\n", BlockTexts(a + b)); StripsTo(joined, TextOf(a + b), left)
    ensures Join("\n\n", BlockTexts([one])) == one.text
    ensures a != [] && b != [] ==>
              Join("\n\n", BlockTexts(a + b)) == Join("\n\n", BlockTexts(a)) + "\n\n" + Join("\n\n", BlockTexts(b))
  {
    left := StripMeans(Join("\n\n", BlockTexts(a + b)));
    hide Join, Strip, StripsTo;
    assert BlockTexts([one]) == [one.text];
    JoinOne("\n\n", one.text);
    assert BlockTexts(a + b) == BlockTexts(a) + BlockTexts(b);
    if a != [] && b != [] { JoinConcat("\n\n", BlockTexts(a), BlockTexts(b)); }
  }

  function Total(unicode: Unicode, blocks: seq<Block>): nat {
    if blocks == [] then 0 else Count(unicode, blocks[0].text) + Total(unicode, blocks[1..])
  }

  lemma {:induction false} TotalConcat(unicode: Unicode, a: seq<Block>, b: seq<Block>)
    ensures Total(unicode, a + b) == Total(unicode, a) + Total(unicode, b)
  {
    hide Count;
    if a == [] {
      assert a + b == b;
    } else {
      assert (a + b)[1..] == a[1..] + b;
      TotalConcat(unicode, a[1..], b);
    }
  }

  lemma TotalOne(unicode: Unicode, block: Block)
    ensures Total(unicode, [block]) == Count(unicode, block.text)
  {
    assert Total(unicode, [block]) == Count(unicode, block.text) + Total(unicode, []);
  }

  lemma {:induction false} BlockTextsWords(blocks: seq<Block>)
    ensures AllWords(BlockTexts(blocks)) == BlockWords(blocks)
  {
    if blocks != [] {
      BlockTextsWords(blocks[1..]);
      assert BlockTexts(blocks)[1..] == BlockTexts(blocks[1..]);
    }
  }

  /** Joining blocks with blank lines and stripping keeps their words. */
  lemma TextWords(blocks: seq<Block>)
    ensures WordsOf(TextOf(blocks)) == BlockWords(blocks)
  {
    NewlineIsBlank();
    BlockTextsWords(blocks);
    JoinWords("\n\n", BlockTexts(blocks));
    StripWords(Join("\n\n", BlockTexts(blocks)));
  }

  lemma {:induction false} BlockWordsTokens(unicode: Unicode, blocks: seq<Block>)
    requires Sound(unicode)
    ensures Tokens(unicode, BlockWords(blocks)) == Total(unicode, blocks)
  {
    hide WordsOf, Count;
    if blocks != [] {
      BlockWordsTokens(unicode, blocks[1..]);
      CountIsTokens(unicode, blocks[0].text);
      TokensConcat(unicode, WordsOf(blocks[0].text), BlockWords(blocks[1..]));
    }
  }

  /** The tokens of a chunk text are the sum of those of its blocks. */
  lemma TextCount(unicode: Unicode, blocks: seq<Block>)
    requires Sound(unicode)
    ensures Count(unicode, TextOf(blocks)) == Total(unicode, blocks)
  {
    CountIsTokens(unicode, TextOf(blocks));
    TextWords(blocks);
    BlockWordsTokens(unicode, blocks);
  }

  // ---- Greedy packing --------------------------------------------------------------------------

  predicate Compatible(left: Path, right: Path) {
    left == [] || right == [] || left[0] == right[0]
  }

  predicate AllHeadings(blocks: seq<Block>) {
    forall i :: 0 <= i < |blocks| ==> blocks[i].kind == Heading
  }

  function Last(blocks: seq<Block>): Block
    requires blocks != []
  {
    blocks[|blocks| - 1]
  }

  /** `count` is the running count of `current`, with one more for each separator charged. */
  datatype State = State(cores: seq<seq<Block>>, current: seq<Block>, count: nat)

  const START := State([], [], 0)

  predicate Flushes(unicode: Unicode, config: Config, state: State, block: Block) {
    state.current != []
    && (!Compatible(Last(state.current).path, block.path)
        || (state.count + 1 + Count(unicode, block.text) > config.target && !AllHeadings(state.current)))
  }

  /** The separator is charged when a block was waiting, even if it has just been flushed. */
  function PackStep(unicode: Unicode, config: Config, state: State, block: Block): State {
    var separator := if state.current != [] then 1 else 0;
    var flushes := Flushes(unicode, config, state, block);
    var cores := if flushes then state.cores + [state.current] else state.cores;
    var current := (if flushes then [] else state.current) + [block];
    var count := (if flushes then 0 else state.count) + separator + Count(unicode, block.text);
    if count >= config.target then State(cores + [current], [], 0) else State(cores, current, count)
  }

  function Greedy(unicode: Unicode, config: Config, state: State, blocks: seq<Block>): State
    decreases |blocks|
  {
    if blocks == [] then state else Greedy(unicode, config, PackStep(unicode, config, state, blocks[0]), blocks[1..])
  }

  /** The waiting tail joins the last core. */
  predicate Merges(unicode: Unicode, config: Config, state: State) {
    && state.current != [] && state.cores != []
    && Total(unicode, state.current) < config.minimum
    && Total(unicode, state.cores[|state.cores| - 1] + state.current) <= config.maximum
  }

  function Tailed(unicode: Unicode, config: Config, state: State): seq<seq<Block>> {
    var n := |state.cores|;
    if state.current == [] then state.cores
    else if Merges(unicode, config, state) then state.cores[n - 1 := state.cores[n - 1] + state.current]
    else state.cores + [state.current]
  }

  // ---- Rebalancing -----------------------------------------------------------------------------

  /** Where the run of blocks with the last block's path starts. */
  function TrailStart(blocks: seq<Block>, k: nat): (n: nat)
    requires k < |blocks|
    ensures n <= k
  {
    if k > 0 && blocks[k - 1].path == Last(blocks).path then TrailStart(blocks, k - 1) else k
  }

  function Floor(config: Config): nat {
    if config.minimum >= config.target / 2 then config.minimum else config.target / 2
  }

  /** A step moves the trailing run of `previous` in front of `last`. */
  predicate Moves(unicode: Unicode, config: Config, previous: seq<Block>, last: seq<Block>)
    requires previous != [] && last != []
  {
    var k := TrailStart(previous, |previous| - 1);
    && Total(unicode, last) < Floor(config)
    && k > 0
    && Compatible(Last(previous).path, last[0].path)
    && Total(unicode, previous[..k]) >= Floor(config)
    && Total(unicode, previous[k..] + last) <= config.maximum
  }

  function Balanced(unicode: Unicode, config: Config, previous: seq<Block>, last: seq<Block>): (seq<Block>, seq<Block>)
    requires previous != [] && last != []
    decreases |previous|
  {
    if Moves(unicode, config, previous, last) then
      var k := TrailStart(previous, |previous| - 1);
      Balanced(unicode, config, previous[..k], previous[k..] + last)
    else (previous, last)
  }

  ghost predicate NoneEmpty(cores: seq<seq<Block>>) {
    forall i :: 0 <= i < |cores| ==> cores[i] != []
  }

  function Rebalanced(unicode: Unicode, config: Config, cores: seq<seq<Block>>): seq<seq<Block>>
    requires NoneEmpty(cores)
  {
    var n := |cores|;
    if n < 2 then cores
    else
      var pair := Balanced(unicode, config, cores[n - 2], cores[n - 1]);
      cores[n - 2 := pair.0][n - 1 := pair.1]
  }

  // ---- Overlap ---------------------------------------------------------------------------------

  /** The longest end of the blocks that shares the path and fits the budget. */
  function Backwards(unicode: Unicode, blocks: seq<Block>, path: Path, budget: nat): seq<Block> {
    if blocks == [] then []
    else
      var last, count := Last(blocks), Count(unicode, Last(blocks).text);
      if last.path != path || count > budget then []
      else Backwards(unicode, blocks[..|blocks| - 1], path, budget - count) + [last]
  }

  function Trimmed(unicode: Unicode, overlap: seq<Block>, core: seq<Block>, maximum: nat): seq<Block>
    decreases |overlap|
  {
    if overlap != [] && Total(unicode, overlap + core) > maximum then Trimmed(unicode, overlap[1..], core, maximum)
    else overlap
  }

  function Overlap(unicode: Unicode, config: Config, previous: seq<Block>, core: seq<Block>): seq<Block>
    requires core != []
  {
    var found :=
      if Total(unicode, core) >= config.target then Backwards(unicode, previous, core[0].path, config.overlap) else [];
    Trimmed(unicode, found, core, config.maximum)
  }

  function DraftOf(unicode: Unicode, config: Config, previous: seq<Block>, core: seq<Block>): Draft
    requires core != []
  {
    var overlap := Overlap(unicode, config, previous, core);
    Draft(overlap + core, Total(unicode, overlap))
  }

  function Drafts(unicode: Unicode, config: Config, previous: seq<Block>, cores: seq<seq<Block>>): seq<Draft>
    requires NoneEmpty(cores)
    decreases |cores|
  {
    if cores == [] then []
    else
      assert NoneEmpty(cores[1..]);
      [DraftOf(unicode, config, previous, cores[0])] + Drafts(unicode, config, cores[0], cores[1..])
  }

  // ---- The separator charge --------------------------------------------------------------------

  /** What the running count charges beyond the tokens of the current blocks and one for each gap between them. */
  function Excess(unicode: Unicode, state: State): int {
    state.count - Total(unicode, state.current) - if state.current == [] then 0 else |state.current| - 1
  }

  /** A block that follows a flush is charged for the separator before it although it stands first: one too
      many for the core it starts, until that core is closed. */
  lemma SeparatorCharge(unicode: Unicode, config: Config, state: State, block: Block)
    requires state.current == [] ==> state.count == 0
    ensures var next := PackStep(unicode, config, state, block);
            Excess(unicode, next) ==
            if next.current == [] || state.current == [] then 0
            else if Flushes(unicode, config, state, block) then 1
            else Excess(unicode, state)
  {
    hide Count, Flushes;
    TotalOne(unicode, block);
    TotalConcat(unicode, state.current, [block]);
    assert [] + [block] == [block];
  }

  /** Over any blocks the running count is the current tokens and separators, or one more. */
  lemma {:induction false} ChargedAtMostOnce(unicode: Unicode, config: Config, state: State, blocks: seq<Block>)
    requires 0 <= Excess(unicode, state) <= 1 && (state.current == [] ==> state.count == 0)
    ensures 0 <= Excess(unicode, Greedy(unicode, config, state, blocks)) <= 1
    decreases |blocks|
  {
    hide PackStep, Flushes, Excess;
    if blocks != [] {
      SeparatorCharge(unicode, config, state, blocks[0]);
      StepCount(unicode, config, state, blocks[0]);
      ChargedAtMostOnce(unicode, config, PackStep(unicode, config, state, blocks[0]), blocks[1..]);
    }
  }

  lemma StepCount(unicode: Unicode, config: Config, state: State, block: Block)
    ensures var next := PackStep(unicode, config, state, block); next.current == [] ==> next.count == 0
  {
    hide Count;
  }

  // ---- What greedy packing keeps ---------------------------------------------------------------

  /** Neighbouring blocks agree on their first heading. */
  ghost predicate Coherent(blocks: seq<Block>) {
    forall i :: 0 < i < |blocks| ==> Compatible(blocks[i - 1].path, blocks[i].path)
  }

  /** At most the target, or one block after a run of headings below the target. */
  ghost predicate GreedySize(unicode: Unicode, config: Config, core: seq<Block>) {
    core != []
    && (Total(unicode, core) <= config.target
        || (AllHeadings(core[..|core| - 1]) && Total(unicode, core[..|core| - 1]) < config.target))
  }

  ghost predicate GreedyCore(unicode: Unicode, config: Config, core: seq<Block>) {
    GreedySize(unicode, config, core) && Coherent(core)
  }

  ghost predicate GreedyCores(unicode: Unicode, config: Config, cores: seq<seq<Block>>) {
    forall i :: 0 <= i < |cores| ==> GreedyCore(unicode, config, cores[i])
  }

  ghost predicate Packing(unicode: Unicode, config: Config, state: State, done: seq<Block>) {
    && Flatten(state.cores) + state.current == done
    && GreedyCores(unicode, config, state.cores)
    && Coherent(state.current)
    && Total(unicode, state.current) <= state.count < config.target
  }

  lemma StepKeepsBlocks(unicode: Unicode, config: Config, state: State, block: Block, done: seq<Block>)
    requires Flatten(state.cores) + state.current == done
    ensures var next := PackStep(unicode, config, state, block);
            Flatten(next.cores) + next.current == done + [block]
  {
    hide Count, Flushes;
    var cores := if Flushes(unicode, config, state, block) then state.cores + [state.current] else state.cores;
    var current := (if Flushes(unicode, config, state, block) then [] else state.current) + [block];
    FlattenAppend(state.cores, state.current);
    assert Flatten(cores) + current == done + [block];
    FlattenAppend(cores, current);
    assert Flatten(cores) + current + [] == Flatten(cores) + current;
  }

  /** The core that a step flushes, or the one the next block joins. */
  lemma StepIsBounded(unicode: Unicode, config: Config, state: State, block: Block)
    requires InBounds(config) && Total(unicode, state.current) <= state.count < config.target
    ensures var current := (if Flushes(unicode, config, state, block) then [] else state.current) + [block];
            GreedySize(unicode, config, current)
            && Total(unicode, current) <=
               (if Flushes(unicode, config, state, block) then 0 else state.count)
               + (if state.current != [] then 1 else 0) + Count(unicode, block.text)
  {
    hide Count;
    TotalOne(unicode, block);
    TotalConcat(unicode, state.current, [block]);
    assert [] + [block] == [block] && [block][..0] == [];
    assert (state.current + [block])[..|state.current|] == state.current;
  }

  lemma StepIsCoherent(unicode: Unicode, config: Config, state: State, block: Block)
    requires Coherent(state.current)
    ensures Coherent((if Flushes(unicode, config, state, block) then [] else state.current) + [block])
  {
    hide Count;
  }

  lemma GreedyCoresSnoc(unicode: Unicode, config: Config, cores: seq<seq<Block>>, core: seq<Block>)
    requires GreedyCores(unicode, config, cores) && GreedyCore(unicode, config, core)
    ensures GreedyCores(unicode, config, cores + [core])
  {
    hide GreedyCore;
  }

  lemma StepKeepsPacking(unicode: Unicode, config: Config, state: State, block: Block, done: seq<Block>)
    requires InBounds(config) && Packing(unicode, config, state, done)
    ensures Packing(unicode, config, PackStep(unicode, config, state, block), done + [block])
  {
    StepKeepsBlocks(unicode, config, state, block, done);
    StepIsBounded(unicode, config, state, block);
    StepIsCoherent(unicode, config, state, block);
    hide Count, Flushes, Flatten, Coherent, GreedySize, GreedyCores;
    var flushes := Flushes(unicode, config, state, block);
    var cores := if flushes then state.cores + [state.current] else state.cores;
    var current := (if flushes then [] else state.current) + [block];
    if flushes {
      WaitingIsGreedy(unicode, config, state, block);
      GreedyCoresSnoc(unicode, config, state.cores, state.current);
    }
    GreedyCoresSnoc(unicode, config, cores, current);
    NothingIsCoherent();
    assert Total(unicode, []) == 0;
  }

  lemma NothingIsCoherent()
    ensures Coherent([])
  {
  }

  lemma WaitingIsGreedy(unicode: Unicode, config: Config, state: State, block: Block)
    requires Flushes(unicode, config, state, block) && Coherent(state.current)
    requires Total(unicode, state.current) <= state.count < config.target
    ensures GreedyCore(unicode, config, state.current)
  {
  }

  lemma {:induction false} GreedyKeepsPacking(unicode: Unicode, config: Config, state: State, blocks: seq<Block>,
                                              done: seq<Block>)
    requires InBounds(config) && Packing(unicode, config, state, done)
    ensures Packing(unicode, config, Greedy(unicode, config, state, blocks), done + blocks)
    decreases |blocks|
  {
    hide Packing, PackStep;
    if blocks == [] {
      assert done + blocks == done;
    } else {
      StepKeepsPacking(unicode, config, state, blocks[0], done);
      GreedyKeepsPacking(unicode, config, PackStep(unicode, config, state, blocks[0]), blocks[1..], done + [blocks[0]]);
      assert done + [blocks[0]] + blocks[1..] == done + blocks;
    }
  }

  // ---- Greedy packing fills the cores ----------------------------------------------------------

  /** What a part following these parts is charged: its tokens, one for each separator inside, and one more
      when the part before it was closed short of the target. */
  ghost function Charge(unicode: Unicode, config: Config, earlier: seq<seq<Block>>, part: seq<Block>): int
    decreases |earlier|
  {
    var n := |earlier|;
    Total(unicode, part) + |part| - 1
    + if n > 0 && Charge(unicode, config, earlier[..n - 1], earlier[n - 1]) < config.target then 1 else 0
  }

  /** The blocks of a part up to k were still open for the next one: below the target, under the same first
      heading, and with room for it, where a run of headings always has room. */
  ghost predicate OpenAt(unicode: Unicode, config: Config, earlier: seq<seq<Block>>, part: seq<Block>, k: int)
    requires 0 < k < |part|
  {
    var charge := Charge(unicode, config, earlier, part[..k]);
    && charge < config.target
    && (part[k - 1].path == [] || part[k].path == [] || part[k - 1].path[0] == part[k].path[0])
    && (charge + 1 + Count(unicode, part[k].text) <= config.target
        || forall j :: 0 <= j < k ==> part[j].kind == Heading)
  }

  ghost predicate Grown(unicode: Unicode, config: Config, earlier: seq<seq<Block>>, part: seq<Block>) {
    part != [] && forall k :: 0 < k < |part| ==> OpenAt(unicode, config, earlier, part, k)
  }

  /** A part is closed before this block for a reason: it has reached the target, or the block is under another
      first heading, or it is not all headings and the block with its separator would pass the target. */
  ghost predicate ClosedBefore(unicode: Unicode, config: Config, earlier: seq<seq<Block>>, part: seq<Block>,
                               block: Block)
    requires part != []
  {
    var charge, last := Charge(unicode, config, earlier, part), part[|part| - 1];
    || charge >= config.target
    || (last.path != [] && block.path != [] && last.path[0] != block.path[0])
    || (charge + 1 + Count(unicode, block.text) > config.target
        && exists j :: 0 <= j < |part| && part[j].kind != Heading)
  }

  /** The part at position i took every block it was open for, and the one before it was closed for a reason. */
  ghost predicate FilledAt(unicode: Unicode, config: Config, parts: seq<seq<Block>>, i: int)
    requires 0 <= i < |parts|
  {
    && Grown(unicode, config, parts[..i], parts[i])
    && (i > 0 ==> parts[i - 1] != []
                  && ClosedBefore(unicode, config, parts[..i - 1], parts[i - 1], parts[i][0]))
  }

  ghost predicate AllFilled(unicode: Unicode, config: Config, parts: seq<seq<Block>>) {
    forall i :: 0 <= i < |parts| ==> FilledAt(unicode, config, parts, i)
  }

  /** The cores of a state and the blocks waiting in it. */
  function GreedyParts(state: State): seq<seq<Block>> {
    if state.current == [] then state.cores else state.cores + [state.current]
  }

  /** The last part has reached the target. */
  ghost predicate LastIsFull(unicode: Unicode, config: Config, parts: seq<seq<Block>>) {
    var n := |parts|;
    n == 0 || Charge(unicode, config, parts[..n - 1], parts[n - 1]) >= config.target
  }

  /** What packing keeps: the parts are filled, and the last one waits until it has reached the target. */
  ghost predicate Filling(unicode: Unicode, config: Config, state: State) {
    && AllFilled(unicode, config, GreedyParts(state))
    && if state.current == [] then state.count == 0 && LastIsFull(unicode, config, state.cores)
       else state.count == Charge(unicode, config, state.cores, state.current) < config.target
  }

  lemma FilledSnoc(unicode: Unicode, config: Config, parts: seq<seq<Block>>, part: seq<Block>)
    requires AllFilled(unicode, config, parts) && Grown(unicode, config, parts, part)
    requires var n := |parts|;
             n > 0 ==> parts[n - 1] != []
                       && ClosedBefore(unicode, config, parts[..n - 1], parts[n - 1], part[0])
    ensures AllFilled(unicode, config, parts + [part])
  {
    hide Grown, ClosedBefore;
    var all, n := parts + [part], |parts|;
    forall i | 0 <= i <= n
      ensures FilledAt(unicode, config, all, i)
    {
      assert i < n ==> FilledAt(unicode, config, parts, i);
      assert all[..i] == parts[..i];
      if i > 0 { assert all[..i - 1] == parts[..i - 1]; }
    }
  }

  lemma FilledInit(unicode: Unicode, config: Config, parts: seq<seq<Block>>, part: seq<Block>)
    requires AllFilled(unicode, config, parts + [part])
    ensures AllFilled(unicode, config, parts) && FilledAt(unicode, config, parts + [part], |parts|)
    ensures Grown(unicode, config, parts, part)
  {
    hide Grown, ClosedBefore;
    var all := parts + [part];
    forall i | 0 <= i < |parts|
      ensures FilledAt(unicode, config, parts, i)
    {
      assert FilledAt(unicode, config, all, i);
      assert all[..i] == parts[..i];
      if i > 0 { assert all[..i - 1] == parts[..i - 1]; }
    }
    assert all[..|parts|] == parts;
  }

  lemma ChargeOne(unicode: Unicode, config: Config, parts: seq<seq<Block>>, block: Block)
    ensures Charge(unicode, config, parts, [block]) ==
            Count(unicode, block.text) + if LastIsFull(unicode, config, parts) then 0 else 1
    ensures Grown(unicode, config, parts, [block])
  {
    TotalOne(unicode, block);
  }

  lemma ChargeMore(unicode: Unicode, config: Config, parts: seq<seq<Block>>, part: seq<Block>, block: Block)
    ensures Charge(unicode, config, parts, part + [block]) ==
            Charge(unicode, config, parts, part) + 1 + Count(unicode, block.text)
  {
    hide Total, Count;
    TotalOne(unicode, block);
    TotalConcat(unicode, part, [block]);
  }

  lemma GrownMore(unicode: Unicode, config: Config, parts: seq<seq<Block>>, part: seq<Block>, block: Block)
    requires Grown(unicode, config, parts, part) && OpenAt(unicode, config, parts, part + [block], |part|)
    ensures Grown(unicode, config, parts, part + [block])
  {
    hide Charge, Count;
    var all := part + [block];
    forall k | 0 < k < |all|
      ensures OpenAt(unicode, config, parts, all, k)
    {
      if k < |part| {
        assert OpenAt(unicode, config, parts, part, k);
        assert all[..k] == part[..k];
      }
    }
  }

  /** The part a step leaves the block in, with its count and the parts before it. */
  function Extended(unicode: Unicode, config: Config, state: State, block: Block): State {
    var flushes := Flushes(unicode, config, state, block);
    State(if flushes then state.cores + [state.current] else state.cores,
          (if flushes then [] else state.current) + [block],
          (if flushes then 0 else state.count) + (if state.current != [] then 1 else 0) + Count(unicode, block.text))
  }

  lemma FlushFills(unicode: Unicode, config: Config, state: State, block: Block)
    requires Filling(unicode, config, state) && Flushes(unicode, config, state, block)
    ensures var next := Extended(unicode, config, state, block);
            AllFilled(unicode, config, GreedyParts(next))
            && next.count == Charge(unicode, config, next.cores, next.current)
  {
    hide Charge, Count, Grown, OpenAt;
    var parts, current := state.cores + [state.current], [] + [block];
    assert current == [block] && parts[..|state.cores|] == state.cores;
    ChargeOne(unicode, config, parts, block);
    assert ClosedBefore(unicode, config, state.cores, state.current, block);
    FilledSnoc(unicode, config, parts, current);
  }

  lemma JoinFills(unicode: Unicode, config: Config, state: State, block: Block)
    requires Filling(unicode, config, state) && !Flushes(unicode, config, state, block)
    ensures var next := Extended(unicode, config, state, block);
            AllFilled(unicode, config, GreedyParts(next))
            && next.count == Charge(unicode, config, next.cores, next.current)
  {
    hide Charge, Count, Grown, AllFilled;
    var parts, joined := state.cores, state.current + [block];
    if state.current == [] {
      assert joined == [block];
      ChargeOne(unicode, config, parts, block);
      FullIsClosed(unicode, config, parts, block);
    } else {
      ChargeMore(unicode, config, parts, state.current, block);
      FilledInit(unicode, config, parts, state.current);
      OpenForBlock(unicode, config, state, block);
      GrownMore(unicode, config, parts, state.current, block);
      SameFirst(unicode, config, parts, state.current, block);
    }
    FilledSnoc(unicode, config, parts, joined);
  }

  lemma FullIsClosed(unicode: Unicode, config: Config, parts: seq<seq<Block>>, block: Block)
    requires AllFilled(unicode, config, parts) && LastIsFull(unicode, config, parts)
    ensures var n := |parts|;
            n > 0 ==> parts[n - 1] != []
                      && ClosedBefore(unicode, config, parts[..n - 1], parts[n - 1], block)
  {
    hide Charge, Count;
    if parts != [] { assert FilledAt(unicode, config, parts, |parts| - 1); }
  }

  lemma OpenForBlock(unicode: Unicode, config: Config, state: State, block: Block)
    requires state.current != [] && !Flushes(unicode, config, state, block)
    requires state.count == Charge(unicode, config, state.cores, state.current) < config.target
    ensures OpenAt(unicode, config, state.cores, state.current + [block], |state.current|)
  {
    hide Charge, Count;
    var all := state.current + [block];
    assert all[..|state.current|] == state.current;
  }

  lemma SameFirst(unicode: Unicode, config: Config, parts: seq<seq<Block>>, part: seq<Block>, block: Block)
    requires part != [] && FilledAt(unicode, config, parts + [part], |parts|)
    ensures var n := |parts|;
            n > 0 ==> parts[n - 1] != []
                      && ClosedBefore(unicode, config, parts[..n - 1], parts[n - 1], (part + [block])[0])
  {
    hide Charge, Count, Grown;
    var all, n := parts + [part], |parts|;
    if n > 0 { assert all[..n - 1] == parts[..n - 1]; }
  }

  lemma StepKeepsFilling(unicode: Unicode, config: Config, state: State, block: Block)
    requires Filling(unicode, config, state)
    ensures Filling(unicode, config, PackStep(unicode, config, state, block))
  {
    hide Charge, Count, AllFilled, Flushes;
    if Flushes(unicode, config, state, block) {
      FlushFills(unicode, config, state, block);
    } else {
      JoinFills(unicode, config, state, block);
    }
    var next := Extended(unicode, config, state, block);
    assert (next.cores + [next.current])[..|next.cores|] == next.cores;
  }

  lemma {:induction false} GreedyKeepsFilling(unicode: Unicode, config: Config, state: State, blocks: seq<Block>)
    requires Filling(unicode, config, state)
    ensures Filling(unicode, config, Greedy(unicode, config, state, blocks))
    decreases |blocks|
  {
    hide Filling, PackStep;
    if blocks != [] {
      StepKeepsFilling(unicode, config, state, blocks[0]);
      GreedyKeepsFilling(unicode, config, PackStep(unicode, config, state, blocks[0]), blocks[1..]);
    }
  }

  /** Greedy packing cuts the blocks into parts that each take every block they are open for and are closed
      only for a reason; the last part is left waiting exactly when it has not reached the target. */
  lemma GreedyFills(unicode: Unicode, config: Config, blocks: seq<Block>)
    requires InBounds(config)
    ensures var state := FinalState(unicode, config, blocks);
            && Flatten(GreedyParts(state)) == blocks
            && AllFilled(unicode, config, GreedyParts(state))
            && (state.current == [] <==> LastIsFull(unicode, config, GreedyParts(state)))
  {
    hide Greedy, AllFilled, Charge, Flatten, GreedyCores, Coherent;
    var state := FinalState(unicode, config, blocks);
    FinalIsPacking(unicode, config, blocks);
    StartIsFilling(unicode, config);
    GreedyKeepsFilling(unicode, config, START, blocks);
    FlattenAppend(state.cores, state.current);
    assert Flatten(state.cores) + [] == Flatten(state.cores);
    assert (state.cores + [state.current])[..|state.cores|] == state.cores;
  }

  lemma StartIsFilling(unicode: Unicode, config: Config)
    ensures Filling(unicode, config, START)
  {
  }

  // ---- The cores -------------------------------------------------------------------------------

  function FinalState(unicode: Unicode, config: Config, blocks: seq<Block>): State {
    Greedy(unicode, config, START, blocks)
  }

  lemma FinalIsPacking(unicode: Unicode, config: Config, blocks: seq<Block>)
    requires InBounds(config)
    ensures Packing(unicode, config, FinalState(unicode, config, blocks), blocks)
  {
    assert Packing(unicode, config, START, []);
    GreedyKeepsPacking(unicode, config, START, blocks, []);
    assert [] + blocks == blocks;
  }

  /** The tail joins a core whose last block has another first heading: the guard never asks. */
  predicate TailCrosses(unicode: Unicode, config: Config, blocks: seq<Block>) {
    var state := FinalState(unicode, config, blocks);
    Merges(unicode, config, state)
    && state.cores[|state.cores| - 1] != []
    && !Compatible(Last(state.cores[|state.cores| - 1]).path, state.current[0].path)
  }

  /** The greedy cores, followed by a last core within the maximum or greedy as well. */
  ghost predicate Bounded(unicode: Unicode, config: Config, cores: seq<seq<Block>>) {
    forall i :: 0 <= i < |cores| ==>
      GreedySize(unicode, config, cores[i])
      || (i == |cores| - 1 && cores[i] != [] && Total(unicode, cores[i]) <= config.maximum)
  }

  /** Every core is coherent, except that the last one has a seam if `seam` says so. */
  ghost predicate CoherentUnless(cores: seq<seq<Block>>, seam: bool) {
    && (forall i :: 0 <= i < |cores| - 1 ==> Coherent(cores[i]))
    && (seam ==> cores != [])
    && (cores != [] ==> (Coherent(cores[|cores| - 1]) <==> !seam))
  }

  lemma CoherentJoin(a: seq<Block>, b: seq<Block>)
    requires a != [] && b != []
    ensures Coherent(a + b) <==> Coherent(a) && Coherent(b) && Compatible(Last(a).path, b[0].path)
  {
    var all := a + b;
    if Coherent(all) {
      forall i | 0 < i < |a|
        ensures Compatible(a[i - 1].path, a[i].path)
      {
        assert all[i] == a[i] && all[i - 1] == a[i - 1];
      }
      forall i | 0 < i < |b| ensures Compatible(b[i - 1].path, b[i].path) {
        assert all[|a| + i] == b[i] && all[|a| + i - 1] == b[i - 1];
      }
      assert all[|a|] == b[0] && all[|a| - 1] == Last(a);
    }
  }

  ghost predicate GoodCores(unicode: Unicode, config: Config, cores: seq<seq<Block>>, blocks: seq<Block>, seam: bool) {
    && NoneEmpty(cores) && Flatten(cores) == blocks
    && Bounded(unicode, config, cores) && CoherentUnless(cores, seam)
  }

  lemma GreedyCoresAreGood(unicode: Unicode, config: Config, cores: seq<seq<Block>>)
    requires GreedyCores(unicode, config, cores)
    ensures NoneEmpty(cores) && Bounded(unicode, config, cores) && CoherentUnless(cores, false)
  {
    hide Total, Coherent;
  }

  lemma TailIsGood(unicode: Unicode, config: Config, state: State, blocks: seq<Block>)
    requires InBounds(config) && Packing(unicode, config, state, blocks)
    ensures GoodCores(unicode, config, Tailed(unicode, config, state), blocks,
              Merges(unicode, config, state)
              && !Compatible(Last(state.cores[|state.cores| - 1]).path, state.current[0].path))
  {
    hide Coherent, Flatten, Total;
    var n := |state.cores|;
    GreedyCoresAreGood(unicode, config, state.cores);
    if state.current == [] {
      assert Flatten(state.cores) + [] == Flatten(state.cores);
    } else if Merges(unicode, config, state) {
      MergedTail(unicode, config, state);
      CoherentJoin(state.cores[n - 1], state.current);
    } else {
      assert GreedyCore(unicode, config, state.current);
      GreedyCoresSnoc(unicode, config, state.cores, state.current);
      GreedyCoresAreGood(unicode, config, state.cores + [state.current]);
      FlattenAppend(state.cores, state.current);
    }
  }

  lemma MergedTail(unicode: Unicode, config: Config, state: State)
    requires Merges(unicode, config, state)
    ensures Flatten(Tailed(unicode, config, state)) == Flatten(state.cores) + state.current
  {
    hide Total, Flatten;
    var n := |state.cores|;
    var front, last := state.cores[..n - 1], state.cores[n - 1];
    assert state.cores == front + [last];
    assert Tailed(unicode, config, state) == front + [last + state.current];
    FlattenAppend(front, last);
    FlattenAppend(front, last + state.current);
  }

  // ---- Rebalancing keeps it --------------------------------------------------------------------

  lemma PrefixIsGreedy(unicode: Unicode, config: Config, core: seq<Block>, k: nat)
    requires GreedySize(unicode, config, core) && 0 < k < |core|
    ensures GreedySize(unicode, config, core[..k])
  {
    hide Count;
    assert core == core[..k] + core[k..];
    TotalConcat(unicode, core[..k], core[k..]);
    assert core[..|core| - 1] == core[..k] + core[k..|core| - 1];
    TotalConcat(unicode, core[..k], core[k..|core| - 1]);
  }

  /** One step keeps both cores in their bounds, the blocks in order, and the seams. */
  lemma MoveKeeps(unicode: Unicode, config: Config, previous: seq<Block>, last: seq<Block>)
    requires previous != [] && last != [] && Moves(unicode, config, previous, last)
    requires GreedySize(unicode, config, previous) && Coherent(previous)
    ensures var k := TrailStart(previous, |previous| - 1);
            && previous[..k] + (previous[k..] + last) == previous + last
            && GreedySize(unicode, config, previous[..k]) && Coherent(previous[..k])
            && Total(unicode, previous[k..] + last) <= config.maximum
            && (Coherent(previous[k..] + last) <==> Coherent(last))
  {
    hide Count, Total, GreedySize, Coherent;
    var k := TrailStart(previous, |previous| - 1);
    PrefixIsGreedy(unicode, config, previous, k);
    CutApart(previous, k, last);
    hide TrailStart;
    CoherentJoin(previous[..k], previous[k..]);
    CoherentJoin(previous[k..], last);
  }

  lemma CutApart(previous: seq<Block>, k: nat, last: seq<Block>)
    requires k < |previous|
    ensures previous == previous[..k] + previous[k..] && Last(previous[k..]) == Last(previous)
    ensures previous[..k] + (previous[k..] + last) == previous + last
  {
  }

  lemma {:induction false} BalancedKeeps(unicode: Unicode, config: Config, previous: seq<Block>, last: seq<Block>)
    requires previous != [] && last != [] && GreedySize(unicode, config, previous) && Coherent(previous)
    ensures var (kept, tail) := Balanced(unicode, config, previous, last);
            && kept != [] && tail != [] && kept + tail == previous + last
            && GreedySize(unicode, config, kept) && Coherent(kept)
            && (tail == last || Total(unicode, tail) <= config.maximum)
            && (Coherent(tail) <==> Coherent(last))
            && (kept == previous || Total(unicode, kept) >= Floor(config))
    decreases |previous|
  {
    hide GreedySize, Coherent, Total, TrailStart;
    if Moves(unicode, config, previous, last) {
      MoveKeeps(unicode, config, previous, last);
      var k := TrailStart(previous, |previous| - 1);
      BalancedKeeps(unicode, config, previous[..k], previous[k..] + last);
    }
  }

  lemma RebalancedIsGood(unicode: Unicode, config: Config, cores: seq<seq<Block>>, blocks: seq<Block>, seam: bool)
    requires GoodCores(unicode, config, cores, blocks, seam)
    ensures GoodCores(unicode, config, Rebalanced(unicode, config, cores), blocks, seam)
  {
    hide GreedySize, Coherent, Total, Flatten;
    var n := |cores|;
    if n >= 2 {
      BalancedKeeps(unicode, config, cores[n - 2], cores[n - 1]);
      var pair := Balanced(unicode, config, cores[n - 2], cores[n - 1]);
      PairFlattens(cores, pair.0, pair.1);
    }
  }

  lemma PairFlattens(cores: seq<seq<Block>>, kept: seq<Block>, tail: seq<Block>)
    requires |cores| >= 2 && kept + tail == cores[|cores| - 2] + cores[|cores| - 1]
    ensures Flatten(cores[|cores| - 2 := kept][|cores| - 1 := tail]) == Flatten(cores)
  {
    hide Flatten;
    var n := |cores|;
    var front := cores[..n - 2];
    assert cores == front + [cores[n - 2]] + [cores[n - 1]];
    assert cores[n - 2 := kept][n - 1 := tail] == front + [kept] + [tail];
    FlattenAppend(front + [cores[n - 2]], cores[n - 1]);
    FlattenAppend(front, cores[n - 2]);
    FlattenAppend(front + [kept], tail);
    FlattenAppend(front, kept);
    assert Flatten(front) + kept + tail == Flatten(front) + (kept + tail);
    assert Flatten(front) + cores[n - 2] + cores[n - 1] == Flatten(front) + (cores[n - 2] + cores[n - 1]);
  }

  function Cores(unicode: Unicode, config: Config, blocks: seq<Block>): seq<seq<Block>>
    requires InBounds(config)
  {
    FinalIsPacking(unicode, config, blocks);
    TailIsGood(unicode, config, FinalState(unicode, config, blocks), blocks);
    Rebalanced(unicode, config, Tailed(unicode, config, FinalState(unicode, config, blocks)))
  }

  /** The cores partition the blocks in order.  Each is at most the target, or a run of headings and one
      block, or, the last one only, at most the maximum.  Neighbouring blocks share their first heading in
      every core exactly unless the tail was merged across a boundary. */
  lemma CoresAreGood(unicode: Unicode, config: Config, blocks: seq<Block>)
    requires InBounds(config)
    ensures GoodCores(unicode, config, Cores(unicode, config, blocks), blocks, TailCrosses(unicode, config, blocks))
  {
    hide GoodCores, Rebalanced, Tailed, Greedy;
    var state := FinalState(unicode, config, blocks);
    FinalIsPacking(unicode, config, blocks);
    TailIsGood(unicode, config, state, blocks);
    var seam := TailCrosses(unicode, config, blocks);
    assert Merges(unicode, config, state) ==> state.cores[|state.cores| - 1] != [] by {
      GreedyCoresAreGood(unicode, config, state.cores);
    }
    assert seam <==> (Merges(unicode, config, state)
                      && !Compatible(Last(state.cores[|state.cores| - 1]).path, state.current[0].path));
    assert GoodCores(unicode, config, Tailed(unicode, config, state), blocks, seam);
    assert NoneEmpty(Tailed(unicode, config, state)) by {
      GoodIsNotEmpty(unicode, config, Tailed(unicode, config, state), blocks, seam);
    }
    RebalancedIsGood(unicode, config, Tailed(unicode, config, state), blocks, seam);
    assert Cores(unicode, config, blocks) == Rebalanced(unicode, config, Tailed(unicode, config, state));
  }

  lemma GoodIsNotEmpty(unicode: Unicode, config: Config, cores: seq<seq<Block>>, blocks: seq<Block>, seam: bool)
    requires GoodCores(unicode, config, cores, blocks, seam)
    ensures NoneEmpty(cores)
  {
  }

  // ---- What the tail and the balance come to ---------------------------------------------------

  /** The waiting part joins the core before it exactly when it has less than the minimum and both fit the
      maximum together; otherwise all parts stay as they are. */
  lemma TailMeans(unicode: Unicode, config: Config, blocks: seq<Block>)
    requires InBounds(config)
    ensures var state := FinalState(unicode, config, blocks);
            var parts, n := GreedyParts(state), |GreedyParts(state)|;
            var joins := && n >= 2 && !LastIsFull(unicode, config, parts)
                         && Total(unicode, parts[n - 1]) < config.minimum
                         && Total(unicode, parts[n - 2] + parts[n - 1]) <= config.maximum;
            Tailed(unicode, config, state) == if joins then parts[..n - 2] + [parts[n - 2] + parts[n - 1]] else parts
  {
    hide Greedy, AllFilled, Total, LastIsFull;
    var state := FinalState(unicode, config, blocks);
    GreedyFills(unicode, config, blocks);
  }

  /** At k starts the run of blocks that share the path of the last one. */
  ghost predicate TrailAt(blocks: seq<Block>, k: int) {
    && 0 <= k < |blocks|
    && (forall j :: k <= j < |blocks| ==> blocks[j].path == blocks[|blocks| - 1].path)
    && (k > 0 ==> blocks[k - 1].path != blocks[|blocks| - 1].path)
  }

  /** The trailing run from k may move: the last core is below the floor, the larger of the minimum and half the
      target, the rest stays at or above it, the first headings agree and the last core keeps to the maximum. */
  ghost predicate MayMove(unicode: Unicode, config: Config, previous: seq<Block>, last: seq<Block>, k: int) {
    var floor := if config.minimum * 2 >= config.target then config.minimum else config.target / 2;
    && 0 < k && TrailAt(previous, k)
    && Total(unicode, last) < floor <= Total(unicode, previous[..k])
    && last != []
    && (previous[|previous| - 1].path == [] || last[0].path == []
        || previous[|previous| - 1].path[0] == last[0].path[0])
    && Total(unicode, previous[k..] + last) <= config.maximum
  }

  lemma {:induction false} TrailStartAt(blocks: seq<Block>, k: nat)
    requires k < |blocks| && forall j :: k <= j < |blocks| ==> blocks[j].path == Last(blocks).path
    ensures TrailAt(blocks, TrailStart(blocks, k))
    decreases k
  {
    if k > 0 && blocks[k - 1].path == Last(blocks).path { TrailStartAt(blocks, k - 1); }
  }

  lemma MovesMeans(unicode: Unicode, config: Config, previous: seq<Block>, last: seq<Block>)
    requires previous != [] && last != []
    ensures var k := TrailStart(previous, |previous| - 1);
            && TrailAt(previous, k)
            && (Moves(unicode, config, previous, last) <==> MayMove(unicode, config, previous, last, k))
    ensures forall k :: MayMove(unicode, config, previous, last, k) ==> k == TrailStart(previous, |previous| - 1)
  {
    hide Total, TrailStart, TrailAt, Moves;
    TrailStartAt(previous, |previous| - 1);
    MoveTest(unicode, config, previous, last);
    forall k | MayMove(unicode, config, previous, last, k)
      ensures k == TrailStart(previous, |previous| - 1)
    {
      OneTrail(previous, k, TrailStart(previous, |previous| - 1));
    }
  }

  lemma MoveTest(unicode: Unicode, config: Config, previous: seq<Block>, last: seq<Block>)
    requires previous != [] && last != [] && TrailAt(previous, TrailStart(previous, |previous| - 1))
    ensures Moves(unicode, config, previous, last)
            <==> MayMove(unicode, config, previous, last, TrailStart(previous, |previous| - 1))
  {
    hide Total, TrailStart, TrailAt;
  }

  lemma OneTrail(blocks: seq<Block>, k: int, l: int)
    requires TrailAt(blocks, k) && TrailAt(blocks, l)
    ensures k == l
  {
  }

  /** The core before the last ends here or changes its path. */
  predicate IsCut(blocks: seq<Block>, m: int) {
    0 < m <= |blocks| && (m == |blocks| || blocks[m - 1].path != blocks[m].path)
  }

  ghost predicate MovesOn(unicode: Unicode, config: Config, previous: seq<Block>, last: seq<Block>, m: nat)
    requires m <= |previous|
  {
    exists k :: MayMove(unicode, config, previous[..m], previous[m..] + last, k)
  }

  /** Everything from c on is moved: at every cut after c a run may move, and at c none may. */
  ghost predicate MovesDownTo(unicode: Unicode, config: Config, previous: seq<Block>, last: seq<Block>, c: nat) {
    && IsCut(previous, c)
    && (forall m :: c < m && IsCut(previous, m) ==> MovesOn(unicode, config, previous, last, m))
    && !MovesOn(unicode, config, previous, last, c)
  }

  lemma CutOfPrefix(previous: seq<Block>, k: nat, m: nat)
    requires 0 < m <= k <= |previous| && TrailAt(previous, k)
    ensures IsCut(previous, m) <==> IsCut(previous[..k], m)
  {
    if m == k { assert previous[k].path == previous[|previous| - 1].path; }
  }

  lemma MovesOnPrefix(unicode: Unicode, config: Config, previous: seq<Block>, last: seq<Block>, k: nat, m: nat)
    requires m <= k <= |previous|
    ensures MovesOn(unicode, config, previous, last, m) <==>
            MovesOn(unicode, config, previous[..k], previous[k..] + last, m)
  {
    assert previous[..k][..m] == previous[..m];
    assert previous[..k][m..] + (previous[k..] + last) == previous[m..] + last;
  }

  /** Rebalancing moves whole runs of one path as long as each may move, and stops only when none may. */
  lemma {:induction false} BalancedMeans(unicode: Unicode, config: Config, previous: seq<Block>, last: seq<Block>)
    requires previous != [] && last != []
    ensures var (kept, tail) := Balanced(unicode, config, previous, last);
            && |kept| <= |previous| && kept == previous[..|kept|] && tail == previous[|kept|..] + last
            && MovesDownTo(unicode, config, previous, last, |kept|)
    decreases |previous|
  {
    hide TrailStart, Moves, MayMove, MovesOn;
    MovesMeans(unicode, config, previous, last);
    WholeMoves(unicode, config, previous, last);
    if Moves(unicode, config, previous, last) {
      var k := TrailStart(previous, |previous| - 1);
      MovedRun(unicode, config, previous, last);
      BalancedMeans(unicode, config, previous[..k], previous[k..] + last);
      var kept := Balanced(unicode, config, previous, last).0;
      var c := |kept|;
      CutOfPrefix(previous, k, c);
      MovesOnPrefix(unicode, config, previous, last, k, c);
      assert previous[..k][..c] == previous[..c];
      assert previous[..k][c..] + (previous[k..] + last) == previous[c..] + last;
      forall m | c < m && IsCut(previous, m)
        ensures MovesOn(unicode, config, previous, last, m)
      {
        if m <= k {
          CutOfPrefix(previous, k, m);
          MovesOnPrefix(unicode, config, previous, last, k, m);
        }
      }
    } else {
      assert previous[..|previous|] == previous && previous[|previous|..] + last == last;
    }
  }

  lemma MovedRun(unicode: Unicode, config: Config, previous: seq<Block>, last: seq<Block>)
    requires previous != [] && last != [] && Moves(unicode, config, previous, last)
    ensures TrailStart(previous, |previous| - 1) > 0
  {
  }

  lemma WholeMoves(unicode: Unicode, config: Config, previous: seq<Block>, last: seq<Block>)
    requires previous != [] && last != []
    ensures MovesOn(unicode, config, previous, last, |previous|) <==> Moves(unicode, config, previous, last)
  {
    MovesMeans(unicode, config, previous, last);
    hide Moves, MayMove, TrailStart;
    assert previous[..|previous|] == previous && previous[|previous|..] + last == last;
  }

  /** The final cores are the tailed ones, with everything that may move moved from the last core but one. */
  lemma CoresMeans(unicode: Unicode, config: Config, blocks: seq<Block>)
    requires InBounds(config)
    ensures var tailed := Tailed(unicode, config, FinalState(unicode, config, blocks));
            var cores, n := Cores(unicode, config, blocks), |tailed|;
            && |cores| == n
            && if n < 2 then cores == tailed
               else
                 var previous, last, c := tailed[n - 2], tailed[n - 1], |cores[n - 2]|;
                 && cores[..n - 2] == tailed[..n - 2]
                 && MovesDownTo(unicode, config, previous, last, c)
                 && cores[n - 2] == previous[..c] && cores[n - 1] == previous[c..] + last
  {
    hide FinalState, Tailed, MovesDownTo, GoodCores, Balanced, Packing;
    TailNotEmpty(unicode, config, blocks);
    var tailed := Tailed(unicode, config, FinalState(unicode, config, blocks));
    var n := |tailed|;
    if n >= 2 { BalancedMeans(unicode, config, tailed[n - 2], tailed[n - 1]); }
  }

  // ---- Overlap and drafts ----------------------------------------------------------------------

  ghost predicate EndOf(part: seq<Block>, whole: seq<Block>) {
    |part| <= |whole| && part == whole[|whole| - |part|..]
  }

  ghost predicate OnPath(blocks: seq<Block>, path: Path) {
    forall i :: 0 <= i < |blocks| ==> blocks[i].path == path
  }

  /** An end of the previous core that may be repeated in front of the core: blocks of the section the core
      starts in, within the overlap budget, in front of a full core, and within the maximum with it. */
  ghost predicate MayOverlap(unicode: Unicode, config: Config, overlap: seq<Block>, previous: seq<Block>,
                             core: seq<Block>)
    requires core != []
  {
    && EndOf(overlap, previous)
    && (overlap != [] ==>
          && Total(unicode, core) >= config.target
          && OnPath(overlap, core[0].path)
          && Total(unicode, overlap) <= config.overlap
          && Total(unicode, overlap + core) <= config.maximum)
  }

  lemma EndWithLast(part: seq<Block>, whole: seq<Block>)
    requires whole != [] && part != [] && EndOf(part, whole)
    ensures part == part[..|part| - 1] + [Last(whole)] && EndOf(part[..|part| - 1], whole[..|whole| - 1])
  {
    var init := whole[..|whole| - 1];
    assert part == init[|init| + 1 - |part|..] + [Last(whole)];
    assert part[..|part| - 1] == init[|init| + 1 - |part|..];
  }

  lemma EndExtends(part: seq<Block>, whole: seq<Block>)
    requires whole != [] && EndOf(part, whole[..|whole| - 1])
    ensures EndOf(part + [Last(whole)], whole)
  {
    assert part + [Last(whole)] == whole[|whole| - |part| - 1..];
  }

  /** The backward scan finds the longest end on the path within the budget. */
  lemma {:induction false} BackwardsShape(unicode: Unicode, blocks: seq<Block>, path: Path, budget: nat)
    ensures var found := Backwards(unicode, blocks, path, budget);
            && EndOf(found, blocks) && OnPath(found, path) && Total(unicode, found) <= budget
            && forall s: seq<Block> :: EndOf(s, blocks) && OnPath(s, path) && Total(unicode, s) <= budget ==>
                   |s| <= |found|
    decreases |blocks|
  {
    hide Count, EndOf, OnPath, Total;
    EmptyEnd(blocks);
    OnNoPath(unicode, path);
    if blocks == [] {
      EndIsShorter(blocks);
    } else {
      var init, last := blocks[..|blocks| - 1], Last(blocks);
      var count := Count(unicode, last.text);
      var found := Backwards(unicode, blocks, path, budget);
      if last.path == path && count <= budget {
        var rest := Backwards(unicode, init, path, budget - count);
        BackwardsShape(unicode, init, path, budget - count);
        EndExtends(rest, blocks);
        OnPathSnoc(unicode, rest, last, path);
      }
      forall s: seq<Block> | EndOf(s, blocks) && OnPath(s, path) && Total(unicode, s) <= budget
        ensures |s| <= |found|
      {
        if s != [] {
          EndWithLast(s, blocks);
          OnPathSnoc(unicode, s[..|s| - 1], last, path);
        }
      }
    }
  }

  lemma OnNoPath(unicode: Unicode, path: Path)
    ensures OnPath([], path) && Total(unicode, []) == 0
  {
  }

  lemma OnPathSnoc(unicode: Unicode, blocks: seq<Block>, last: Block, path: Path)
    ensures OnPath(blocks + [last], path) <==> OnPath(blocks, path) && last.path == path
    ensures Total(unicode, blocks + [last]) == Total(unicode, blocks) + Count(unicode, last.text)
  {
    TotalConcat(unicode, blocks, [last]);
    TotalOne(unicode, last);
    hide Total;
    var all := blocks + [last];
    assert all[|blocks|] == last;
    assert forall i :: 0 <= i < |blocks| ==> all[i] == blocks[i];
  }

  lemma EmptyEnd(blocks: seq<Block>)
    ensures EndOf([], blocks)
  {
  }

  lemma EndIsShorter(blocks: seq<Block>)
    ensures forall s: seq<Block> :: EndOf(s, blocks) ==> |s| <= |blocks|
  {
  }

  lemma EndOfEnd(a: seq<Block>, b: seq<Block>, c: seq<Block>)
    requires EndOf(b, c)
    ensures EndOf(a, b) ==> EndOf(a, c)
    ensures EndOf(a, c) && |a| <= |b| ==> EndOf(a, b)
  {
    if |a| <= |b| { assert b[|b| - |a|..] == c[|c| - |a|..]; }
  }

  lemma EndTotal(unicode: Unicode, part: seq<Block>, whole: seq<Block>)
    requires EndOf(part, whole)
    ensures Total(unicode, part) <= Total(unicode, whole)
  {
    var k := |whole| - |part|;
    assert whole == whole[..k] + part;
    TotalConcat(unicode, whole[..k], part);
  }

  /** Trimming keeps the longest end that fits the maximum together with the core. */
  lemma {:induction false} TrimmedShape(unicode: Unicode, overlap: seq<Block>, core: seq<Block>, maximum: nat)
    ensures var kept := Trimmed(unicode, overlap, core, maximum);
            && EndOf(kept, overlap) && (kept != [] ==> Total(unicode, kept + core) <= maximum)
            && forall s: seq<Block> :: EndOf(s, overlap) && Total(unicode, s + core) <= maximum ==> |s| <= |kept|
    decreases |overlap|
  {
    hide Total;
    EndIsShorter(overlap);
    if overlap != [] && Total(unicode, overlap + core) > maximum {
      var rest := overlap[1..];
      var kept := Trimmed(unicode, rest, core, maximum);
      TrimmedShape(unicode, rest, core, maximum);
      assert EndOf(rest, overlap);
      EndOfEnd(kept, rest, overlap);
      forall s: seq<Block> | EndOf(s, overlap) && Total(unicode, s + core) <= maximum
        ensures |s| <= |kept|
      {
        EndOfEnd(s, rest, overlap);
        assert |s| == |overlap| ==> s == overlap;
      }
    }
  }

  lemma OnPathEnd(part: seq<Block>, whole: seq<Block>, path: Path)
    requires EndOf(part, whole) && OnPath(whole, path)
    ensures OnPath(part, path)
  {
  }

  /** The overlap is the longest end of the previous core that may be repeated. */
  lemma OverlapIsLongest(unicode: Unicode, config: Config, previous: seq<Block>, core: seq<Block>)
    requires core != []
    ensures var overlap := Overlap(unicode, config, previous, core);
            && MayOverlap(unicode, config, overlap, previous, core)
            && forall s: seq<Block> :: MayOverlap(unicode, config, s, previous, core) ==> |s| <= |overlap|
  {
    hide Total, Backwards, Trimmed, EndOf, OnPath;
    var path := core[0].path;
    var found :=
      if Total(unicode, core) >= config.target then Backwards(unicode, previous, path, config.overlap) else [];
    var overlap := Overlap(unicode, config, previous, core);
    BackwardsShape(unicode, previous, path, config.overlap);
    EmptyEnd(previous);
    TrimmedShape(unicode, found, core, config.maximum);
    EndOfEnd(overlap, found, previous);
    if overlap != [] {
      EndIsShorter(found);
      OnPathEnd(overlap, found, path);
      EndTotal(unicode, overlap, found);
    }
    forall s: seq<Block> | MayOverlap(unicode, config, s, previous, core)
      ensures |s| <= |overlap|
    {
      if s != [] { EndOfEnd(s, found, previous); }
    }
  }

  /** Draft i repeats the longest permitted end of core i - 1 in front of core i, counts its tokens, and
      the overlap never takes a draft over the maximum. */
  ghost predicate DraftFits(unicode: Unicode, config: Config, draft: Draft, previous: seq<Block>, core: seq<Block>)
    requires core != []
  {
    var n := |draft.blocks| - |core|;
    && n >= 0 && draft.blocks[n..] == core
    && MayOverlap(unicode, config, draft.blocks[..n], previous, core)
    && (forall s: seq<Block> :: MayOverlap(unicode, config, s, previous, core) ==> |s| <= n)
    && draft.overlapTokens == Total(unicode, draft.blocks[..n]) <= config.overlap
    && (Total(unicode, core) <= config.maximum ==> Total(unicode, draft.blocks) <= config.maximum)
  }

  lemma DraftOfFits(unicode: Unicode, config: Config, previous: seq<Block>, core: seq<Block>)
    requires core != []
    ensures DraftFits(unicode, config, DraftOf(unicode, config, previous, core), previous, core)
  {
    OverlapIsLongest(unicode, config, previous, core);
    hide Overlap, EndOf, OnPath;
    var overlap := Overlap(unicode, config, previous, core);
    var blocks := overlap + core;
    assert blocks[|overlap|..] == core && blocks[..|overlap|] == overlap;
    assert Total(unicode, []) == 0;
    assert overlap == [] ==> blocks == core;
  }

  function Preceding(previous: seq<Block>, cores: seq<seq<Block>>, i: nat): seq<Block>
    requires i < |cores|
  {
    if i == 0 then previous else cores[i - 1]
  }

  ghost predicate DraftsFit(unicode: Unicode, config: Config, drafts: seq<Draft>, previous: seq<Block>,
                            cores: seq<seq<Block>>)
    requires NoneEmpty(cores)
  {
    && |drafts| == |cores|
    && forall i :: 0 <= i < |cores| ==>
         DraftFits(unicode, config, drafts[i], Preceding(previous, cores, i), cores[i])
  }

  lemma {:induction false} DraftsAreFit(unicode: Unicode, config: Config, previous: seq<Block>, cores: seq<seq<Block>>)
    requires NoneEmpty(cores)
    ensures DraftsFit(unicode, config, Drafts(unicode, config, previous, cores), previous, cores)
    decreases |cores|
  {
    hide DraftFits, DraftOf;
    if cores != [] {
      DraftOfFits(unicode, config, previous, cores[0]);
      assert NoneEmpty(cores[1..]);
      var drafts, rest := Drafts(unicode, config, previous, cores), Drafts(unicode, config, cores[0], cores[1..]);
      DraftsAreFit(unicode, config, cores[0], cores[1..]);
      assert drafts == [DraftOf(unicode, config, previous, cores[0])] + rest;
      forall i | 0 <= i < |cores|
        ensures DraftFits(unicode, config, drafts[i], Preceding(previous, cores, i), cores[i])
      {
        if i > 0 {
          assert DraftFits(unicode, config, rest[i - 1], Preceding(cores[0], cores[1..], i - 1), cores[1..][i - 1]);
        }
      }
    }
  }

  function Packed(unicode: Unicode, config: Config, blocks: seq<Block>): seq<Draft>
    requires InBounds(config)
  {
    CoresAreGood(unicode, config, blocks);
    Drafts(unicode, config, [], Cores(unicode, config, blocks))
  }

  lemma PackedDraftsFit(unicode: Unicode, config: Config, blocks: seq<Block>)
    requires InBounds(config)
    ensures NoneEmpty(Cores(unicode, config, blocks))
    ensures DraftsFit(unicode, config, Packed(unicode, config, blocks), [], Cores(unicode, config, blocks))
  {
    hide Cores;
    CoresAreGood(unicode, config, blocks);
    DraftsAreFit(unicode, config, [], Cores(unicode, config, blocks));
  }

  // ---- One first heading per chunk -------------------------------------------------------------

  lemma OverlapIsCoherent(overlap: seq<Block>, core: seq<Block>)
    requires core != [] && OnPath(overlap, core[0].path)
    ensures Coherent(overlap + core) <==> Coherent(core)
  {
    if overlap == [] {
      assert overlap + core == core;
    } else {
      assert forall i :: 0 <= i < |overlap| ==> overlap[i].path == core[0].path;
      CoherentJoin(overlap, core);
    }
  }

  ghost predicate AllCoherent(drafts: seq<Draft>) {
    forall i :: 0 <= i < |drafts| ==> Coherent(drafts[i].blocks)
  }

  /** Every draft is coherent exactly when the tail was not merged across a boundary. */
  lemma DraftsCoherent(unicode: Unicode, config: Config, blocks: seq<Block>)
    requires InBounds(config)
    ensures AllCoherent(Packed(unicode, config, blocks)) <==> !TailCrosses(unicode, config, blocks)
  {
    hide Cores, TailCrosses, Packed, GoodCores, DraftsFit;
    var cores, drafts := Cores(unicode, config, blocks), Packed(unicode, config, blocks);
    CoresAreGood(unicode, config, blocks);
    CoresCoherent(unicode, config, cores, blocks, TailCrosses(unicode, config, blocks));
    PackedDraftsFit(unicode, config, blocks);
    DraftsFollowCores(unicode, config, drafts, cores);
  }

  lemma CoresCoherent(unicode: Unicode, config: Config, cores: seq<seq<Block>>, blocks: seq<Block>, seam: bool)
    requires GoodCores(unicode, config, cores, blocks, seam)
    ensures (forall i :: 0 <= i < |cores| ==> Coherent(cores[i])) <==> !seam
  {
    hide Coherent, GreedySize, Flatten, Bounded;
    if seam { assert !Coherent(cores[|cores| - 1]); }
  }

  lemma DraftsFollowCores(unicode: Unicode, config: Config, drafts: seq<Draft>, cores: seq<seq<Block>>)
    requires NoneEmpty(cores) && DraftsFit(unicode, config, drafts, [], cores)
    ensures AllCoherent(drafts) <==> (forall i :: 0 <= i < |cores| ==> Coherent(cores[i]))
  {
    hide Coherent, DraftFits;
    forall i | 0 <= i < |cores|
      ensures Coherent(drafts[i].blocks) <==> Coherent(cores[i])
    {
      DraftIsCoherent(unicode, config, drafts[i], Preceding([], cores, i), cores[i]);
    }
  }

  lemma DraftIsCoherent(unicode: Unicode, config: Config, draft: Draft, previous: seq<Block>, core: seq<Block>)
    requires core != [] && DraftFits(unicode, config, draft, previous, core)
    ensures Coherent(draft.blocks) <==> Coherent(core)
  {
    hide Coherent, Total;
    var n := |draft.blocks| - |core|;
    assert draft.blocks == draft.blocks[..n] + core;
    OverlapIsCoherent(draft.blocks[..n], core);
  }

  /** All blocks with a path are under one first heading. */
  ghost predicate OneRoot(blocks: seq<Block>) {
    forall i, j :: 0 <= i < j < |blocks| ==> Compatible(blocks[i].path, blocks[j].path)
  }

  /** Where only leading blocks lack a path, neighbours that agree make the whole chunk agree. */
  lemma {:induction false} CoherentIsOneRoot(blocks: seq<Block>)
    requires EmptyPathsFirst(blocks)
    ensures Coherent(blocks) <==> OneRoot(blocks)
    decreases |blocks|
  {
    if |blocks| > 1 {
      var n := |blocks| - 1;
      var init := blocks[..n];
      CoherentIsOneRoot(init);
      assert init + [blocks[n]] == blocks;
      CoherentJoin(init, [blocks[n]]);
      if Coherent(blocks) {
        forall i | 0 <= i < n
          ensures Compatible(blocks[i].path, blocks[n].path)
        {
          assert i < n - 1 ==> Compatible(init[i].path, init[n - 1].path);
          assert blocks[n].path == [] || (blocks[n - 1].path == [] ==> blocks[i].path == []);
        }
      }
    }
  }

  // ---- The loops -------------------------------------------------------------------------------

  method PackGreedily(unicode: Unicode, config: Config, blocks: seq<Block>)
    returns (cores: seq<seq<Block>>, current: seq<Block>, count: nat)
    ensures State(cores, current, count) == FinalState(unicode, config, blocks)
  {
    hide Count, Compatible, AllHeadings;
    cores, current, count := [], [], 0;
    for i := 0 to |blocks|
      invariant Greedy(unicode, config, State(cores, current, count), blocks[i..]) ==
                FinalState(unicode, config, blocks)
    {
      var block := blocks[i];
      assert blocks[i..][1..] == blocks[i + 1..];
      ghost var before := State(cores, current, count);
      var tokens := Count(unicode, block.text);
      var separator := if current != [] then 1 else 0;
      var incompatible := current != [] && !Compatible(Last(current).path, block.path);
      if current != [] && (incompatible || (count + separator + tokens > config.target && !AllHeadings(current))) {
        cores := cores + [current];
        current := [];
        count := 0;
      }
      current := current + [block];
      count := count + separator + tokens;
      if count >= config.target {
        cores := cores + [current];
        current := [];
        count := 0;
      }
      assert State(cores, current, count) == PackStep(unicode, config, before, block);
    }
  }

  method MergeTail(unicode: Unicode, config: Config, cores: seq<seq<Block>>, current: seq<Block>)
    returns (all: seq<seq<Block>>)
    requires Sound(unicode)
    ensures forall count: nat :: all == Tailed(unicode, config, State(cores, current, count))
  {
    all := cores;
    if current != [] {
      TextCount(unicode, current);
      if cores != [] && Count(unicode, TextOf(current)) < config.minimum {
        var candidate := cores[|cores| - 1] + current;
        TextCount(unicode, candidate);
        if Count(unicode, TextOf(candidate)) <= config.maximum {
          all := cores[|cores| - 1 := candidate];
        } else {
          all := cores + [current];
        }
      } else {
        all := cores + [current];
      }
    }
  }

  method FindTrailStart(previous: seq<Block>) returns (split: nat)
    requires previous != []
    ensures split == TrailStart(previous, |previous| - 1)
  {
    split := |previous| - 1;
    while split > 0 && previous[split - 1].path == Last(previous).path
      invariant split < |previous| && TrailStart(previous, split) == TrailStart(previous, |previous| - 1)
    {
      split := split - 1;
    }
  }

  method RebalanceFinalCore(unicode: Unicode, config: Config, cores: seq<seq<Block>>)
    returns (balanced: seq<seq<Block>>)
    requires Sound(unicode) && NoneEmpty(cores)
    ensures balanced == Rebalanced(unicode, config, cores)
  {
    hide Count, TextOf, Total, TrailStart, Floor;
    var n := |cores|;
    if n < 2 { return cores; }
    var previous, last := cores[n - 2], cores[n - 1];
    var floor := Floor(config);
    TextCount(unicode, last);
    while Count(unicode, TextOf(last)) < floor
      invariant previous != [] && last != []
      invariant Balanced(unicode, config, previous, last) == Balanced(unicode, config, cores[n - 2], cores[n - 1])
      invariant Count(unicode, TextOf(last)) == Total(unicode, last)
      decreases |previous|
    {
      var split := FindTrailStart(previous);
      if split == 0 { break; }
      var retained, moved := previous[..split], previous[split..];
      if !Compatible(Last(moved).path, last[0].path) { break; }
      var candidate := moved + last;
      TextCount(unicode, retained);
      TextCount(unicode, candidate);
      if Count(unicode, TextOf(retained)) < floor || Count(unicode, TextOf(candidate)) > config.maximum { break; }
      assert Moves(unicode, config, previous, last);
      previous, last := retained, candidate;
    }
    assert !Moves(unicode, config, previous, last);
    balanced := cores[n - 2 := previous][n - 1 := last];
  }

  method FindOverlap(unicode: Unicode, config: Config, previous: seq<Block>, core: seq<Block>)
    returns (overlap: seq<Block>, tokens: nat)
    requires Sound(unicode) && core != []
    ensures overlap == Overlap(unicode, config, previous, core) && tokens == Total(unicode, overlap)
  {
    hide Count, TextOf;
    overlap, tokens := [], 0;
    TextCount(unicode, core);
    if Count(unicode, TextOf(core)) >= config.target {
      overlap, tokens := ScanBack(unicode, previous, core[0].path, config.overlap);
    }
    TextCount(unicode, overlap + core);
    while overlap != [] && Count(unicode, TextOf(overlap + core)) > config.maximum
      invariant Count(unicode, TextOf(overlap + core)) == Total(unicode, overlap + core)
      invariant Trimmed(unicode, overlap, core, config.maximum) == Overlap(unicode, config, previous, core)
      invariant tokens == Total(unicode, overlap)
      decreases |overlap|
    {
      tokens := tokens - Count(unicode, overlap[0].text);
      overlap := overlap[1..];
      TextCount(unicode, overlap + core);
    }
  }

  method ScanBack(unicode: Unicode, previous: seq<Block>, path: Path, budget: nat)
    returns (overlap: seq<Block>, tokens: nat)
    ensures overlap == Backwards(unicode, previous, path, budget) && tokens == Total(unicode, overlap)
  {
    hide Count;
    overlap, tokens := [], 0;
    var j := |previous|;
    assert previous[..j] == previous;
    while j > 0
      invariant j <= |previous| && tokens == Total(unicode, overlap) <= budget
      invariant Backwards(unicode, previous[..j], path, budget - tokens) + overlap ==
                Backwards(unicode, previous, path, budget)
    {
      var block := previous[j - 1];
      var left := previous[..j];
      assert Last(left) == block && left[..j - 1] == previous[..j - 1];
      var count := Count(unicode, block.text);
      if block.path != path || tokens + count > budget {
        assert [] + overlap == overlap;
        break;
      }
      var rest := Backwards(unicode, previous[..j - 1], path, budget - tokens - count);
      assert rest + [block] + overlap == rest + ([block] + overlap);
      assert ([block] + overlap)[1..] == overlap;
      overlap, tokens := [block] + overlap, tokens + count;
      j := j - 1;
    }
    assert j == 0 ==> [] + overlap == overlap;
  }

  method PackDocument(unicode: Unicode, config: Config, blocks: seq<Block>) returns (drafts: seq<Draft>)
    requires Sound(unicode) && InBounds(config)
    ensures drafts == Packed(unicode, config, blocks)
  {
    hide Tailed, Rebalanced, Overlap, GoodCores, Greedy, Packing, Total;
    if blocks == [] {
      NothingIsPacked(unicode, config);
      return [];
    }
    var greedy, current, count := PackGreedily(unicode, config, blocks);
    var tailed := MergeTail(unicode, config, greedy, current);
    FinalIsPacking(unicode, config, blocks);
    TailIsGood(unicode, config, FinalState(unicode, config, blocks), blocks);
    CoresAreGood(unicode, config, blocks);
    GoodIsNotEmpty(unicode, config, Cores(unicode, config, blocks), blocks, TailCrosses(unicode, config, blocks));
    assert tailed == Tailed(unicode, config, FinalState(unicode, config, blocks));
    TailNotEmpty(unicode, config, blocks);
    var cores := RebalanceFinalCore(unicode, config, tailed);
    drafts := MakeDrafts(unicode, config, cores);
  }

  lemma TailNotEmpty(unicode: Unicode, config: Config, blocks: seq<Block>)
    requires InBounds(config)
    ensures NoneEmpty(Tailed(unicode, config, FinalState(unicode, config, blocks)))
    ensures Cores(unicode, config, blocks) ==
            Rebalanced(unicode, config, Tailed(unicode, config, FinalState(unicode, config, blocks)))
  {
    hide Greedy, Tailed, Rebalanced, Packing, Merges;
    var state := FinalState(unicode, config, blocks);
    FinalIsPacking(unicode, config, blocks);
    TailIsGood(unicode, config, state, blocks);
  }

  lemma NothingIsPacked(unicode: Unicode, config: Config)
    requires InBounds(config)
    ensures Packed(unicode, config, []) == []
  {
  }

  method MakeDrafts(unicode: Unicode, config: Config, cores: seq<seq<Block>>) returns (drafts: seq<Draft>)
    requires Sound(unicode) && NoneEmpty(cores)
    ensures drafts == Drafts(unicode, config, [], cores)
  {
    hide Overlap, Total, Drafts;
    drafts := [];
    var previous := [];
    ghost var whole := Drafts(unicode, config, [], cores);
    NothingAround(whole);
    assert cores[0..] == cores;
    for i := 0 to |cores|
      invariant drafts + Drafts(unicode, config, previous, cores[i..]) == whole
    {
      assert cores[i..][1..] == cores[i + 1..];
      DraftsStep(unicode, config, previous, cores[i..]);
      Associative(drafts, [DraftOf(unicode, config, previous, cores[i])],
                  Drafts(unicode, config, cores[i], cores[i + 1..]));
      var overlap, tokens := FindOverlap(unicode, config, previous, cores[i]);
      drafts := drafts + [Draft(overlap + cores[i], tokens)];
      previous := cores[i];
    }
    assert cores[|cores|..] == [];
    NoDrafts(unicode, config, previous);
    NothingAround(drafts);
  }

  lemma DraftsStep(unicode: Unicode, config: Config, previous: seq<Block>, cores: seq<seq<Block>>)
    requires NoneEmpty(cores) && cores != []
    ensures NoneEmpty(cores[1..])
    ensures Drafts(unicode, config, previous, cores) ==
            [DraftOf(unicode, config, previous, cores[0])] + Drafts(unicode, config, cores[0], cores[1..])
  {
    hide DraftOf;
  }

  lemma NoDrafts(unicode: Unicode, config: Config, previous: seq<Block>)
    ensures Drafts(unicode, config, previous, []) == []
  {
  }
}
