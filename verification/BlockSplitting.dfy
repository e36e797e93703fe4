/** Splitting blocks that are too large for a chunk: by lines, by sentences, and at last by words. */
module BlockSplitting {
  import opened Sequences
  import opened Text
  import opened Words
  import opened MarkdownBlocks

  // ---- Sentences -------------------------------------------------------------------------------

  predicate Ends(c: char) {
    c == '.' || c == '!' || c == '?'
  }

  predicate Starts(c: char) {
    'A' <= c <= 'Z' || '0' <= c <= '9'
  }

  function SpaceEnd(s: string, i: nat): (n: nat)
    requires i <= |s|
    ensures i <= n <= |s| && forall k :: i <= k < n ==> IsSpace(s[k])
    decreases |s| - i
  {
    if i < |s| && IsSpace(s[i]) then SpaceEnd(s, i + 1) else i
  }

  /** White space at position `i` between the end of a sentence and the start of another. */
  predicate BoundaryAt(s: string, i: nat)
    requires 1 <= i <= |s|
  {
    i < |s| && Ends(s[i - 1]) && IsSpace(s[i]) && SpaceEnd(s, i) < |s| && Starts(s[SpaceEnd(s, i)])
  }

  function NextBoundary(s: string, i: nat): (n: nat)
    requires 1 <= i <= |s|
    ensures i <= n <= |s| && (n < |s| ==> BoundaryAt(s, n))
    decreases |s| - i
  {
    if i == |s| || BoundaryAt(s, i) then i else NextBoundary(s, i + 1)
  }

  /** `SENTENCE_END.split`. */
  function Sentences(s: string): seq<string>
    decreases |s|
  {
    if s == "" then [s]
    else
      var n := NextBoundary(s, 1);
      if n == |s| then [s] else [s[..n]] + Sentences(s[SpaceEnd(s, n)..])
  }

  lemma SentencesStep(s: string)
    requires s != ""
    ensures var n := NextBoundary(s, 1);
            if n == |s| then Sentences(s) == [s]
            else n < SpaceEnd(s, n) && Sentences(s) == [s[..n]] + Sentences(s[SpaceEnd(s, n)..])
  {
    hide IsSpace, Ends, Starts;
  }

  lemma BlankBetween(s: string, n: nat, e: nat)
    requires n <= e <= |s| && forall k :: n <= k < e ==> IsSpace(s[k])
    ensures Blank(s[n..e])
  {
  }

  lemma {:induction false} SentencesKeepWords(s: string)
    ensures AllWords(Sentences(s)) == WordsOf(s)
    decreases |s|
  {
    hide WordsOf;
    AllWordsCons(s, []);
    NothingAround([s]);
    if s != "" {
      SentencesStep(s);
      var n := NextBoundary(s, 1);
      hide Sentences, NextBoundary, AllWords;
      if n < |s| {
        var e := SpaceEnd(s, n);
        SentencesKeepWords(s[e..]);
        BlankBetween(s, n, e);
        hide SpaceEnd, Blank;
        WordsAroundBreak(s, n, e);
        AllWordsCons(s[..n], Sentences(s[e..]));
      }
    }
  }

  /** Between n and e white space parts the end of a sentence from a capital letter or a digit. */
  ghost predicate Break(s: string, n: int, e: int) {
    && 0 < n < e < |s| && s[n - 1] in ".!?" && AllSpace(s[n..e])
    && ('A' <= s[e] <= 'Z' || '0' <= s[e] <= '9')
  }

  ghost predicate Unbroken(s: string) {
    forall n, e :: !Break(s, n, e)
  }

  /** The parts are the text without the white space of its breaks, and no part has a break. */
  ghost predicate CutAtBreaks(s: string, parts: seq<string>)
    decreases |parts|
  {
    && parts != [] && Unbroken(parts[0]) && parts[0] <= s
    && if |parts| == 1 then s == parts[0]
       else exists e :: Break(s, |parts[0]|, e) && CutAtBreaks(s[e..], parts[1..])
  }

  lemma {:induction false} SpaceEndMeans(s: string, i: nat)
    requires i <= |s|
    ensures SpaceEnd(s, i) < |s| ==> !IsSpace(s[SpaceEnd(s, i)])
    decreases |s| - i
  {
    if i < |s| && IsSpace(s[i]) { SpaceEndMeans(s, i + 1); }
  }

  lemma BoundaryMeans(s: string, i: nat)
    requires 1 <= i <= |s|
    ensures BoundaryAt(s, i) ==> Break(s, i, SpaceEnd(s, i))
    ensures forall e :: Break(s, i, e) ==> BoundaryAt(s, i)
  {
    SpaceEndMeans(s, i);
    forall e | Break(s, i, e)
      ensures BoundaryAt(s, i)
    {
      assert forall k :: i <= k < e ==> s[k] == s[i..e][k - i];
      assert !IsSpace(s[e]);
      assert IsSpace(s[i]) && SpaceEnd(s, i) == e;
    }
  }

  lemma {:induction false} NoBoundaryBefore(s: string, i: nat)
    requires 1 <= i <= |s|
    ensures forall k :: i <= k < NextBoundary(s, i) ==> !BoundaryAt(s, k)
    decreases |s| - i
  {
    hide BoundaryAt;
    if i < |s| && !BoundaryAt(s, i) { NoBoundaryBefore(s, i + 1); }
  }

  lemma FirstIsUnbroken(s: string)
    requires s != ""
    ensures Unbroken(s[..NextBoundary(s, 1)])
  {
    var n := NextBoundary(s, 1);
    NoBoundaryBefore(s, 1);
    hide NextBoundary, BoundaryAt;
    forall m, e | Break(s[..n], m, e)
      ensures BoundaryAt(s, m)
    {
      assert s[..n][m..e] == s[m..e];
      BoundaryMeans(s, m);
      assert Break(s, m, e);
    }
  }

  /** Sentences are cut exactly at the breaks of the text. */
  lemma {:induction false} SentencesMean(s: string)
    ensures CutAtBreaks(s, Sentences(s))
    decreases |s|
  {
    if s != "" {
      SentencesStep(s);
      FirstIsUnbroken(s);
      var n := NextBoundary(s, 1);
      hide Sentences, NextBoundary, Unbroken;
      if n < |s| {
        var e := SpaceEnd(s, n);
        BoundaryMeans(s, n);
        SentencesMean(s[e..]);
        assert ([s[..n]] + Sentences(s[e..]))[1..] == Sentences(s[e..]);
        assert Break(s, |s[..n]|, e);
      } else {
        assert s[..n] == s;
      }
    }
  }

  // ---- Pieces ----------------------------------------------------------------------------------

  /** Sentences are gathered until the next one would pass the maximum. */
  function Gathered(unicode: Unicode, maximum: nat, current: string, sentences: seq<string>): seq<string>
    decreases |sentences|
  {
    if sentences == [] then (if current == "" then [] else [current])
    else
      var candidate := Strip(current + " " + sentences[0]);
      if current != "" && Count(unicode, candidate) > maximum then
        [current] + Gathered(unicode, maximum, sentences[0], sentences[1..])
      else Gathered(unicode, maximum, candidate, sentences[1..])
  }

  lemma CandidateWords(current: string, sentence: string)
    ensures WordsOf(Strip(current + " " + sentence)) == WordsOf(current) + WordsOf(sentence)
  {
    StripWords(current + " " + sentence);
    WordsAround(current, " ", sentence);
  }

  lemma {:induction false} GatheredKeepsWords(unicode: Unicode, maximum: nat, current: string, sentences: seq<string>)
    ensures AllWords(Gathered(unicode, maximum, current, sentences)) == WordsOf(current) + AllWords(sentences)
    decreases |sentences|
  {
    hide WordsOf, Strip, Count;
    if sentences == [] {
      assert WordsOf("") == [] by { BlankHasNoWords(""); }
      assert AllWords([current]) == WordsOf(current) + AllWords([]);
    } else {
      var candidate := Strip(current + " " + sentences[0]);
      CandidateWords(current, sentences[0]);
      if current != "" && Count(unicode, candidate) > maximum {
        var rest := Gathered(unicode, maximum, sentences[0], sentences[1..]);
        GatheredKeepsWords(unicode, maximum, sentences[0], sentences[1..]);
        assert ([current] + rest)[1..] == rest;
      } else {
        GatheredKeepsWords(unicode, maximum, candidate, sentences[1..]);
      }
    }
  }

  /** Sentences put together one by one. */
  function TogetherWith(current: string, sentences: seq<string>): string
    decreases |sentences|
  {
    if sentences == [] then current else TogetherWith(Strip(current + " " + sentences[0]), sentences[1..])
  }

  /** The sentences that start after these are no longer taken in: the next one would pass the maximum. */
  ghost predicate FullBefore(unicode: Unicode, maximum: nat, piece: string, sentences: seq<string>, cut: int) {
    0 <= cut < |sentences| && Count(unicode, Strip(piece + " " + sentences[cut])) > maximum
  }

  /** Piece j ends before the sentence at cuts[j], and the piece after it starts with that sentence. */
  ghost predicate PieceAt(unicode: Unicode, maximum: nat, sentences: seq<string>, i: nat, current: string,
                          cuts: seq<nat>, pieces: seq<string>, j: nat)
    requires j < |cuts| == |pieces|
  {
    && i <= cuts[j] <= |sentences|
    && (if j == 0 then pieces[0] == TogetherWith(current, sentences[i..cuts[0]])
        else
          && cuts[j - 1] < cuts[j]
          && FullBefore(unicode, maximum, pieces[j - 1], sentences, cuts[j - 1])
          && pieces[j] == TogetherWith(sentences[cuts[j - 1]], sentences[cuts[j - 1] + 1..cuts[j]]))
  }

  ghost predicate PiecesAt(unicode: Unicode, maximum: nat, sentences: seq<string>, i: nat, current: string,
                           cuts: seq<nat>, pieces: seq<string>)
  {
    |cuts| == |pieces| && forall j :: 0 <= j < |cuts| ==>
      PieceAt(unicode, maximum, sentences, i, current, cuts, pieces, j)
  }

  /** A piece is closed only before a sentence that would take it over the maximum. */
  lemma GatheredMeans(unicode: Unicode, maximum: nat, sentences: seq<string>) returns (cuts: seq<nat>)
    ensures PiecesAt(unicode, maximum, sentences, 0, "", cuts, Gathered(unicode, maximum, "", sentences))
  {
    assert sentences[0..] == sentences;
    cuts := GatheredFrom(unicode, maximum, sentences, 0, "");
  }

  lemma {:induction false} GatheredFrom(unicode: Unicode, maximum: nat, sentences: seq<string>, i: nat,
                                        current: string) returns (cuts: seq<nat>)
    requires i <= |sentences|
    ensures PiecesAt(unicode, maximum, sentences, i, current, cuts, Gathered(unicode, maximum, current, sentences[i..]))
    decreases |sentences| - i
  {
    hide Strip, Count, Gathered, PiecesAt;
    var rest := sentences[i..];
    if i == |sentences| {
      GatheredEnd(unicode, maximum, current, rest);
      cuts := if current == "" then [] else [i];
      LastPiece(unicode, maximum, sentences, current);
    } else {
      GatheredStep(unicode, maximum, current, rest);
      assert rest[1..] == sentences[i + 1..];
      var candidate := Strip(current + " " + sentences[i]);
      if current != "" && Count(unicode, candidate) > maximum {
        cuts := GatheredFrom(unicode, maximum, sentences, i + 1, sentences[i]);
        var pieces := Gathered(unicode, maximum, sentences[i], sentences[i + 1..]);
        PieceFirst(unicode, maximum, sentences, i, current, cuts, pieces);
        cuts := [i] + cuts;
      } else {
        cuts := GatheredFrom(unicode, maximum, sentences, i + 1, candidate);
        PieceGrows(unicode, maximum, sentences, i, current, cuts,
                   Gathered(unicode, maximum, candidate, sentences[i + 1..]));
      }
    }
  }

  lemma LastPiece(unicode: Unicode, maximum: nat, sentences: seq<string>, current: string)
    ensures var n := |sentences|;
            && PiecesAt(unicode, maximum, sentences, n, current, [], [])
            && PiecesAt(unicode, maximum, sentences, n, current, [n], [current])
  {
    assert sentences[|sentences|..|sentences|] == [];
  }

  lemma PieceFirst(unicode: Unicode, maximum: nat, sentences: seq<string>, i: nat, current: string, cuts: seq<nat>,
                   pieces: seq<string>)
    requires i < |sentences| && FullBefore(unicode, maximum, current, sentences, i)
    requires PiecesAt(unicode, maximum, sentences, i + 1, sentences[i], cuts, pieces)
    ensures PiecesAt(unicode, maximum, sentences, i, current, [i] + cuts, [current] + pieces)
  {
    hide FullBefore, TogetherWith;
    var moreCuts, more := [i] + cuts, [current] + pieces;
    forall j | 0 <= j < |moreCuts|
      ensures PieceAt(unicode, maximum, sentences, i, current, moreCuts, more, j)
    {
      if j == 0 {
        assert sentences[i..i] == [];
        NothingTogether(current);
      } else {
        assert PieceAt(unicode, maximum, sentences, i + 1, sentences[i], cuts, pieces, j - 1);
        assert moreCuts[j] == cuts[j - 1] && more[j] == pieces[j - 1];
        assert j > 1 ==> moreCuts[j - 1] == cuts[j - 2] && more[j - 1] == pieces[j - 2];
      }
    }
  }

  lemma NothingTogether(current: string)
    ensures TogetherWith(current, []) == current
  {
  }

  lemma PieceGrows(unicode: Unicode, maximum: nat, sentences: seq<string>, i: nat, current: string, cuts: seq<nat>,
                   pieces: seq<string>)
    requires i < |sentences|
    requires PiecesAt(unicode, maximum, sentences, i + 1, Strip(current + " " + sentences[i]), cuts, pieces)
    ensures PiecesAt(unicode, maximum, sentences, i, current, cuts, pieces)
  {
    hide FullBefore, Strip;
    forall j | 0 <= j < |cuts|
      ensures PieceAt(unicode, maximum, sentences, i, current, cuts, pieces, j)
    {
      assert PieceAt(unicode, maximum, sentences, i + 1, Strip(current + " " + sentences[i]), cuts, pieces, j);
      if j == 0 {
        assert sentences[i..cuts[0]][1..] == sentences[i + 1..cuts[0]];
      } else {
        hide TogetherWith;
      }
    }
  }

  // ---- Words -----------------------------------------------------------------------------------

  /** The positions of the words, as a search for runs of non-space characters finds them. */
  function Spans(s: string, i: nat): seq<(nat, nat)>
    requires i <= |s|
    decreases |s| - i
  {
    if i == |s| then []
    else if IsSpace(s[i]) then Spans(s, i + 1)
    else
      var e := i + WordEnd(s[i..]);
      [(i, e)] + Spans(s, e)
  }

  function Least(a: nat, b: nat): nat {
    if a <= b then a else b
  }

  function Slice(s: string, start: nat, end: nat): string {
    if start <= end <= |s| then s[start..end] else ""
  }

  /** Groups of at most `maximum` words, each with the text between its first and last word. */
  function Groups(s: string, spans: seq<(nat, nat)>, maximum: nat): seq<string>
    requires maximum >= 1
    decreases |spans|
  {
    if spans == [] then []
    else
      var n := Least(maximum, |spans|);
      [Slice(s, spans[0].0, spans[n - 1].1)] + Groups(s, spans[n..], maximum)
  }

  function HardSplit(s: string, maximum: nat): seq<string>
    requires maximum >= 1
  {
    Groups(s, Spans(s, 0), maximum)
  }

  /** The search finds a word where one starts. */
  lemma WordHead(s: string, i: nat)
    requires i < |s| && !IsSpace(s[i])
    ensures var e := i + WordEnd(s[i..]);
            && i < e <= |s| && (e == |s| || IsSpace(s[e]))
            && WordsOf(s[i..e]) == [s[i..e]] && WordsOf(s[i..]) == [s[i..e]] + WordsOf(s[e..])
  {
    hide IsSpace;
    var rest := s[i..];
    var n := WordEnd(rest);
    assert rest[..n] == s[i..i + n] && rest[n..] == s[i + n..];
    assert IsWord(rest[..n]);
    if n < |rest| { assert rest[n] == s[i + n]; }
    WordOfItself(rest[..n]);
  }

  lemma SpaceHead(s: string, i: nat, end: nat)
    requires i < end <= |s| && IsSpace(s[i])
    ensures WordsOf(s[i..end]) == WordsOf(s[i + 1..end])
  {
    assert s[i..end][1..] == s[i + 1..end];
  }

  lemma SpaceHeadAll(s: string, i: nat)
    requires i < |s| && IsSpace(s[i])
    ensures WordsOf(s[i..]) == WordsOf(s[i + 1..])
  {
    assert s[i..][1..] == s[i + 1..];
  }

  lemma WordThenMore(s: string, i: nat, e: nat, end: nat)
    requires i < e <= end <= |s| && (e == |s| || IsSpace(s[e]))
    ensures WordsOf(s[i..end]) == WordsOf(s[i..e]) + WordsOf(s[e..end])
  {
    hide IsSpace, WordsOf;
    assert s[i..end] == s[i..e] + s[e..end];
    assert e < end ==> s[e..end][0] == s[e];
    WordsConcat(s[i..e], s[e..end]);
  }

  /** The text up to the n-th word has the first n words, and the search goes on behind it. */
  lemma {:induction false} SpanPrefix(s: string, i: nat, n: nat)
    requires i <= |s| && 1 <= n <= |Spans(s, i)|
    ensures var end := Spans(s, i)[n - 1].1;
            && i < end <= |s|
            && WordsOf(s[i..end]) + WordsOf(s[end..]) == WordsOf(s[i..])
            && |WordsOf(s[i..end])| == n && Spans(s, end) == Spans(s, i)[n..]
    decreases |s| - i
  {
    hide WordsOf, IsSpace, WordEnd;
    if IsSpace(s[i]) {
      SpanPrefix(s, i + 1, n);
      SpaceHead(s, i, Spans(s, i)[n - 1].1);
      SpaceHeadAll(s, i);
    } else {
      WordHead(s, i);
      var e := i + WordEnd(s[i..]);
      var spans, rest := Spans(s, i), Spans(s, e);
      assert spans == [(i, e)] + rest;
      hide Spans;
      if n == 1 {
        assert spans[1..] == rest;
      } else {
        SpanPrefix(s, e, n - 1);
        assert rest[n - 2] == spans[n - 1] && rest[n - 1..] == spans[n..];
        WordThenMore(s, i, e, spans[n - 1].1);
      }
    }
  }

  lemma {:induction false} SpanStart(s: string, i: nat)
    requires i <= |s| && Spans(s, i) != []
    ensures var start := Spans(s, i)[0].0;
            && i <= start < |s| && Spans(s, start) == Spans(s, i) && WordsOf(s[start..]) == WordsOf(s[i..])
    decreases |s| - i
  {
    hide WordsOf, IsSpace, WordEnd;
    if IsSpace(s[i]) {
      SpanStart(s, i + 1);
      SpaceHeadAll(s, i);
    }
  }

  lemma {:induction false} NoSpans(s: string, i: nat)
    requires i <= |s| && Spans(s, i) == []
    ensures WordsOf(s[i..]) == []
    decreases |s| - i
  {
    if i < |s| {
      NoSpans(s, i + 1);
      assert s[i..][1..] == s[i + 1..];
    }
  }

  /** Consecutive groups of the words. */
  function WordGroups(words: seq<string>, maximum: nat): seq<seq<string>>
    requires maximum >= 1
    decreases |words|
  {
    if words == [] then []
    else [words[..Least(maximum, |words|)]] + WordGroups(words[Least(maximum, |words|)..], maximum)
  }

  ghost predicate WordsAre(texts: seq<string>, groups: seq<seq<string>>) {
    |texts| == |groups| && forall i :: 0 <= i < |texts| ==> WordsOf(texts[i]) == groups[i]
  }

  /** The groups of the text hold consecutive groups of its words. */
  lemma {:induction false} GroupsHoldWords(s: string, i: nat, maximum: nat)
    requires i <= |s| && maximum >= 1
    ensures WordsAre(Groups(s, Spans(s, i), maximum), WordGroups(WordsOf(s[i..]), maximum))
    decreases |Spans(s, i)|
  {
    hide WordsOf, IsSpace, Spans;
    var spans := Spans(s, i);
    if spans == [] {
      NoSpans(s, i);
    } else {
      var n, start := Least(maximum, |spans|), spans[0].0;
      var end := spans[n - 1].1;
      SpanStart(s, i);
      SpanPrefix(s, start, n);
      CountSpans(s, start);
      var words := WordsOf(s[i..]);
      assert words[..n] == WordsOf(s[start..end]) && words[n..] == WordsOf(s[end..]);
      GroupsHoldWords(s, end, maximum);
      assert Groups(s, spans, maximum) == [Slice(s, start, end)] + Groups(s, Spans(s, end), maximum);
      assert WordGroups(words, maximum) == [words[..n]] + WordGroups(words[n..], maximum);
    }
  }

  lemma {:induction false} CountSpans(s: string, i: nat)
    requires i <= |s|
    ensures |WordsOf(s[i..])| == |Spans(s, i)|
    decreases |s| - i
  {
    if i < |s| {
      if IsSpace(s[i]) {
        CountSpans(s, i + 1);
        assert s[i..][1..] == s[i + 1..];
      } else {
        var e := i + WordEnd(s[i..]);
        CountSpans(s, e);
        assert s[i..][e - i..] == s[e..];
      }
    }
  }

  lemma {:induction false} WordGroupsFlat(words: seq<string>, maximum: nat)
    requires maximum >= 1
    ensures Flatten(WordGroups(words, maximum)) == words
    ensures forall i :: 0 <= i < |WordGroups(words, maximum)| ==> 1 <= |WordGroups(words, maximum)[i]| <= maximum
    ensures forall i :: 0 <= i < |WordGroups(words, maximum)| - 1 ==> |WordGroups(words, maximum)[i]| == maximum
    decreases |words|
  {
    if words != [] {
      var n := Least(maximum, |words|);
      var rest := WordGroups(words[n..], maximum);
      WordGroupsFlat(words[n..], maximum);
      assert WordGroups(words, maximum) == [words[..n]] + rest;
      assert ([words[..n]] + rest)[1..] == rest;
      assert words == words[..n] + words[n..];
    }
  }

  lemma {:induction false} WordsAreFlat(texts: seq<string>, groups: seq<seq<string>>)
    requires WordsAre(texts, groups)
    ensures AllWords(texts) == Flatten(groups)
  {
    if texts != [] {
      assert forall i :: 0 <= i < |texts[1..]| ==> texts[1..][i] == texts[i + 1] && groups[1..][i] == groups[i + 1];
      WordsAreFlat(texts[1..], groups[1..]);
    }
  }

  lemma HardSplitKeepsWords(s: string, maximum: nat)
    requires maximum >= 1
    ensures AllWords(HardSplit(s, maximum)) == WordsOf(s)
    ensures forall i :: 0 <= i < |HardSplit(s, maximum)| ==> 1 <= |WordsOf(HardSplit(s, maximum)[i])| <= maximum
    ensures forall i :: 0 <= i < |HardSplit(s, maximum)| - 1 ==> |WordsOf(HardSplit(s, maximum)[i])| == maximum
  {
    GroupsHoldWords(s, 0, maximum);
    assert s[0..] == s;
    WordGroupsFlat(WordsOf(s), maximum);
    WordsAreFlat(HardSplit(s, maximum), WordGroups(WordsOf(s), maximum));
  }

  // ---- When the hard split is small enough -----------------------------------------------------

  ghost predicate AllWithin(unicode: Unicode, texts: seq<string>, maximum: nat) {
    forall i :: 0 <= i < |texts| ==> Count(unicode, texts[i]) <= maximum
  }

  ghost predicate SingleTokens(unicode: Unicode, words: seq<string>) {
    forall w :: w in words ==> Count(unicode, w) == 1
  }

  /** How many of n words are in full groups: the largest multiple of the maximum up to n. */
  function FullPart(n: nat, maximum: nat): (m: nat)
    requires maximum >= 1
    ensures m <= n
  {
    if n < maximum then 0 else maximum + FullPart(n - maximum, maximum)
  }

  /** The words of the full groups are single tokens, and the others are few enough. */
  ghost predicate WordsFit(unicode: Unicode, words: seq<string>, maximum: nat)
    requires maximum >= 1
  {
    && SingleTokens(unicode, words[..FullPart(|words|, maximum)])
    && Tokens(unicode, words[FullPart(|words|, maximum)..]) <= maximum
  }

  /** Every part of the hard split is within the maximum exactly when its words fit. */
  lemma HardSplitFits(unicode: Unicode, s: string, maximum: nat)
    requires Sound(unicode) && maximum >= 1
    ensures AllWithin(unicode, HardSplit(s, maximum), maximum) <==> WordsFit(unicode, WordsOf(s), maximum)
  {
    GroupsHoldWords(s, 0, maximum);
    assert s[0..] == s;
    forall i | 0 <= i < |HardSplit(s, maximum)|
      ensures Count(unicode, HardSplit(s, maximum)[i]) == Tokens(unicode, WordGroups(WordsOf(s), maximum)[i])
    {
      CountIsTokens(unicode, HardSplit(s, maximum)[i]);
    }
    forall w | w in WordsOf(s)
      ensures IsWord(w)
    {
      WordsAreParts(s, w);
    }
    WordGroupsFit(unicode, WordsOf(s), maximum);
  }

  ghost predicate GroupsWithin(unicode: Unicode, groups: seq<seq<string>>, maximum: nat) {
    forall i :: 0 <= i < |groups| ==> Tokens(unicode, groups[i]) <= maximum
  }

  lemma {:induction false} WordGroupsFit(unicode: Unicode, words: seq<string>, maximum: nat)
    requires maximum >= 1 && forall w :: w in words ==> IsWord(w)
    ensures GroupsWithin(unicode, WordGroups(words, maximum), maximum) <==> WordsFit(unicode, words, maximum)
    decreases |words|
  {
    hide Tokens, Count, IsWord, FullPart, SingleTokens, GroupsWithin;
    if |words| < maximum {
      ShortGroup(unicode, words, maximum);
    } else {
      var first, rest := words[..maximum], words[maximum..];
      FullGroup(unicode, words, maximum);
      WordGroupsFit(unicode, rest, maximum);
      var groups := WordGroups(words, maximum);
      assert groups == [first] + WordGroups(rest, maximum);
      GroupsSplit(unicode, groups, maximum);
      FullPartStep(|words|, maximum);
      var m := FullPart(|words|, maximum);
      assert words[m..] == rest[m - maximum..];
      SingleSplit(unicode, words[..m], first, rest[..m - maximum]);
    }
  }

  /** A full group is within the maximum exactly when its words are single tokens. */
  lemma FullGroup(unicode: Unicode, words: seq<string>, maximum: nat)
    requires maximum <= |words| && forall w :: w in words ==> IsWord(w)
    ensures Tokens(unicode, words[..maximum]) <= maximum <==> SingleTokens(unicode, words[..maximum])
    ensures forall w :: w in words[maximum..] ==> IsWord(w)
  {
    hide Tokens, Count, IsWord;
    assert words == words[..maximum] + words[maximum..];
    assert forall w :: w in words[..maximum] ==> w in words;
    assert forall w :: w in words[maximum..] ==> w in words;
    TokensAtLeast(unicode, words[..maximum]);
  }

  lemma FullPartStep(n: nat, maximum: nat)
    requires 1 <= maximum <= n
    ensures FullPart(n, maximum) == maximum + FullPart(n - maximum, maximum)
  {
  }

  lemma GroupsSplit(unicode: Unicode, groups: seq<seq<string>>, maximum: nat)
    requires groups != []
    ensures GroupsWithin(unicode, groups, maximum) <==>
            Tokens(unicode, groups[0]) <= maximum && GroupsWithin(unicode, groups[1..], maximum)
  {
    hide Tokens;
    assert groups == [groups[0]] + groups[1..];
    if GroupsWithin(unicode, groups, maximum) {
      forall i | 0 <= i < |groups[1..]| ensures Tokens(unicode, groups[1..][i]) <= maximum {
        assert groups[1..][i] == groups[i + 1];
      }
    }
  }

  lemma SingleSplit(unicode: Unicode, words: seq<string>, a: seq<string>, b: seq<string>)
    requires words == a + b
    ensures SingleTokens(unicode, words) <==> SingleTokens(unicode, a) && SingleTokens(unicode, b)
  {
    assert forall w :: w in words <==> w in a || w in b;
  }

  lemma ShortGroup(unicode: Unicode, words: seq<string>, maximum: nat)
    requires maximum >= 1 && |words| < maximum
    ensures FullPart(|words|, maximum) == 0 && SingleTokens(unicode, words[..0]) && words[0..] == words
    ensures GroupsWithin(unicode, WordGroups(words, maximum), maximum) <==> Tokens(unicode, words) <= maximum
  {
    if words == [] {
      assert Tokens(unicode, words) == 0;
    } else {
      assert words[..|words|] == words && words[|words|..] == [];
      assert WordGroups(words, maximum) == [words] + WordGroups([], maximum);
      assert WordGroups(words, maximum)[0] == words;
    }
  }

  /** One word of three tokens cannot be split below a maximum of one. */
  lemma HardSplitCanExceed(unicode: Unicode)
    requires Sound(unicode) && unicode.word('a') && unicode.word('b') && !unicode.word('.')
    ensures HardSplit("a.b", 1) == ["a.b"] && Count(unicode, "a.b") == 3
  {
    HardSplitOfWord("a.b");
    var s := "a.b";
    assert s[1..] == ".b" && s[1..][1..] == "b" && "b"[1..] == "";
    assert Count(unicode, "b") == 1 by { TokenEndOfLetter(unicode, "b"); }
    assert Count(unicode, ".b") == 2;
    TokenEndOfLetter(unicode, s);
  }

  lemma HardSplitOfWord(w: string)
    requires IsWord(w)
    ensures HardSplit(w, 1) == [w]
  {
    assert w[0..] == w == w[0..|w|];
    WordEndOfWord(w);
    assert Spans(w, |w|) == [];
    assert Spans(w, 0) == [(0, |w|)];
    assert [(0, |w|)][1..] == [];
    assert Groups(w, [(0, |w|)], 1) == [Slice(w, 0, |w|)] + Groups(w, [], 1);
  }

  lemma TokenEndOfLetter(unicode: Unicode, s: string)
    requires s != "" && unicode.word(s[0]) && (|s| > 1 ==> !unicode.word(s[1]) && !Joiner(s[1]))
    ensures TokenEnd(unicode, s) == 1
  {
    assert RunEnd(unicode, s[1..]) == 0;
  }

  lemma WordEndOfWord(w: string)
    requires IsWord(w)
    ensures WordEnd(w) == |w|
  {
  }

  // ---- Splitting a block -----------------------------------------------------------------------

  function Pieces(unicode: Unicode, text: string, maximum: nat): seq<string> {
    Gathered(unicode, maximum, "", Sentences(text))
  }

  /** The pieces within the maximum, and the others split by words. */
  function Finals(unicode: Unicode, pieces: seq<string>, maximum: nat): seq<string>
    requires maximum >= 1
  {
    if pieces == [] then []
    else
      (if Count(unicode, pieces[0]) <= maximum then [pieces[0]] else HardSplit(pieces[0], maximum))
      + Finals(unicode, pieces[1..], maximum)
  }

  function PartOf(block: Block, text: string, line: nat): Block {
    block.(text := text, start := line, end := if line >= block.end then line else block.end)
  }

  function Parts(block: Block, texts: seq<string>, line: nat): seq<Block> {
    if texts == [] then []
    else (if Strip(texts[0]) == "" then [] else [PartOf(block, texts[0], line)]) + Parts(block, texts[1..], line)
  }

  function SplitTextOf(unicode: Unicode, text: string, block: Block, maximum: nat, line: nat): seq<Block>
    requires maximum >= 1
  {
    Parts(block, Finals(unicode, Pieces(unicode, text, maximum), maximum), line)
  }

  function SplitLinesOf(unicode: Unicode, lines: seq<string>, offset: nat, block: Block, maximum: nat): seq<Block>
    requires maximum >= 1
    decreases |lines|
  {
    if lines == [] then []
    else SplitTextOf(unicode, lines[0], block, maximum, Least(block.start + offset, block.end))
         + SplitLinesOf(unicode, lines[1..], offset + 1, block, maximum)
  }

  function SplitBlock(unicode: Unicode, block: Block, maximum: nat): seq<Block>
    requires maximum >= 1
  {
    if Count(unicode, block.text) <= maximum then [block]
    else
      var lines := SplitLines(block.text);
      if |lines| > 1 && block.kind != Table && block.kind != CodeFence then
        SplitLinesOf(unicode, lines, 0, block, maximum)
      else SplitTextOf(unicode, block.text, block, maximum, block.start)
  }

  /** What becomes of one piece: it stays whole within the maximum, and is cut by words above it. */
  ghost predicate FinalOf(unicode: Unicode, piece: string, maximum: nat, texts: seq<string>)
    requires maximum >= 1
  {
    texts == if Count(unicode, piece) > maximum then HardSplit(piece, maximum) else [piece]
  }

  lemma {:induction false} FinalsMean(unicode: Unicode, pieces: seq<string>, maximum: nat)
    returns (texts: seq<seq<string>>)
    requires maximum >= 1
    ensures Finals(unicode, pieces, maximum) == Flatten(texts)
    ensures |texts| == |pieces| && forall i :: 0 <= i < |pieces| ==> FinalOf(unicode, pieces[i], maximum, texts[i])
    decreases |pieces|
  {
    hide Count, HardSplit;
    texts := [];
    if pieces != [] {
      var first := if Count(unicode, pieces[0]) <= maximum then [pieces[0]] else HardSplit(pieces[0], maximum);
      var rest := FinalsMean(unicode, pieces[1..], maximum);
      texts := [first] + rest;
      assert texts[1..] == rest;
    }
  }

  /** The positions of the texts that show something, in order. */
  ghost predicate ShownAt(texts: seq<string>, at: seq<nat>) {
    && (forall k :: 0 <= k < |at| ==> at[k] < |texts| && WordsOf(texts[at[k]]) != [])
    && (forall k, l :: 0 <= k < l < |at| ==> at[k] < at[l])
    && forall i :: 0 <= i < |texts| && WordsOf(texts[i]) != [] ==> i in at
  }

  ghost predicate PartAt(block: Block, texts: seq<string>, line: nat, at: seq<nat>, parts: seq<Block>, k: nat)
    requires k < |at| == |parts|
  {
    && at[k] < |texts|
    && parts[k] == Block(block.kind, texts[at[k]], line, if block.end <= line then line else block.end, block.path)
  }

  /** The parts are the texts that show something, each with the block's kind and path, from the line given to the
      block's end, or on that line when it is the later one. */
  lemma {:induction false} PartsMean(block: Block, texts: seq<string>, line: nat) returns (at: seq<nat>)
    ensures ShownAt(texts, at) && |Parts(block, texts, line)| == |at|
    ensures forall k :: 0 <= k < |at| ==> PartAt(block, texts, line, at, Parts(block, texts, line), k)
    decreases |texts|
  {
    hide WordsOf, Strip, ShownAt, PartAt, Parts;
    if texts == [] {
      at := [];
      NoParts(block, texts, line);
      NothingShown();
    } else {
      var rest := PartsMean(block, texts[1..], line);
      var parts := Parts(block, texts[1..], line);
      PartsStep(block, texts, line);
      StripShows(texts[0]);
      ShownLater(texts, rest);
      at := Later(rest);
      if Strip(texts[0]) != "" {
        at := [0] + at;
        PartFirst(block, texts, line, rest, parts);
      } else {
        PartsLater(block, texts, line, rest, parts);
      }
    }
  }

  lemma NothingShown()
    ensures ShownAt([], [])
  {
  }

  lemma StripShows(text: string)
    ensures Strip(text) != "" <==> WordsOf(text) != []
  {
    StripWords(text);
    if Strip(text) != "" { StrippedHasWords(text); } else { BlankHasNoWords(""); }
    hide Strip, WordsOf;
  }

  function Later(at: seq<nat>): (r: seq<nat>)
    ensures |r| == |at| && forall k :: 0 <= k < |at| ==> r[k] == at[k] + 1
  {
    seq(|at|, k requires 0 <= k < |at| => at[k] + 1)
  }

  lemma PartsLater(block: Block, texts: seq<string>, line: nat, at: seq<nat>, parts: seq<Block>)
    requires texts != [] && |at| == |parts|
    requires forall k :: 0 <= k < |at| ==> PartAt(block, texts[1..], line, at, parts, k)
    ensures forall k :: 0 <= k < |at| ==> PartAt(block, texts, line, Later(at), parts, k)
  {
    forall k | 0 <= k < |at|
      ensures PartAt(block, texts, line, Later(at), parts, k)
    {
      assert PartAt(block, texts[1..], line, at, parts, k);
    }
  }

  lemma PartFirst(block: Block, texts: seq<string>, line: nat, at: seq<nat>, parts: seq<Block>)
    requires texts != [] && |at| == |parts|
    requires forall k :: 0 <= k < |at| ==> PartAt(block, texts[1..], line, at, parts, k)
    ensures var all, more := [PartOf(block, texts[0], line)] + parts, [0] + Later(at);
            forall k :: 0 <= k < |more| ==> PartAt(block, texts, line, more, all, k)
  {
    var all, more := [PartOf(block, texts[0], line)] + parts, [0] + Later(at);
    forall k | 0 <= k < |more|
      ensures PartAt(block, texts, line, more, all, k)
    {
      if k > 0 {
        assert PartAt(block, texts[1..], line, at, parts, k - 1);
        assert all[k] == parts[k - 1] && more[k] == at[k - 1] + 1;
      }
    }
  }

  lemma ShownLater(texts: seq<string>, at: seq<nat>)
    requires texts != [] && ShownAt(texts[1..], at)
    ensures ShownAt(texts, if WordsOf(texts[0]) != [] then [0] + Later(at) else Later(at))
  {
    hide WordsOf, ShownAt;
    LaterShown(texts, at);
    if WordsOf(texts[0]) != [] { ShownWithFirst(texts, Later(at)); } else { ShownWithoutFirst(texts, Later(at)); }
  }

  lemma LaterShown(texts: seq<string>, at: seq<nat>)
    requires texts != [] && ShownAt(texts[1..], at)
    ensures var later := Later(at);
            && (forall k :: 0 <= k < |later| ==> 0 < later[k] < |texts| && WordsOf(texts[later[k]]) != [])
            && (forall k, l :: 0 <= k < l < |later| ==> later[k] < later[l])
            && forall i :: 0 < i < |texts| && WordsOf(texts[i]) != [] ==> i in later
  {
    hide WordsOf;
    var later := Later(at);
    forall k | 0 <= k < |later|
      ensures 0 < later[k] < |texts| && WordsOf(texts[later[k]]) != []
    {
      assert texts[1..][at[k]] == texts[at[k] + 1];
    }
    forall i | 0 < i < |texts| && WordsOf(texts[i]) != []
      ensures i in later
    {
      assert texts[1..][i - 1] == texts[i];
      LaterMember(at, i - 1);
    }
  }

  lemma LaterMember(at: seq<nat>, i: nat)
    requires i in at
    ensures i + 1 in Later(at)
  {
    var k :| 0 <= k < |at| && at[k] == i;
    assert Later(at)[k] == i + 1;
  }

  lemma ShownWithoutFirst(texts: seq<string>, later: seq<nat>)
    requires texts != [] && WordsOf(texts[0]) == []
    requires forall k :: 0 <= k < |later| ==> 0 < later[k] < |texts| && WordsOf(texts[later[k]]) != []
    requires forall k, l :: 0 <= k < l < |later| ==> later[k] < later[l]
    requires forall i :: 0 < i < |texts| && WordsOf(texts[i]) != [] ==> i in later
    ensures ShownAt(texts, later)
  {
    hide WordsOf;
  }

  lemma ShownWithFirst(texts: seq<string>, later: seq<nat>)
    requires texts != [] && WordsOf(texts[0]) != []
    requires forall k :: 0 <= k < |later| ==> 0 < later[k] < |texts| && WordsOf(texts[later[k]]) != []
    requires forall k, l :: 0 <= k < l < |later| ==> later[k] < later[l]
    requires forall i :: 0 < i < |texts| && WordsOf(texts[i]) != [] ==> i in later
    ensures ShownAt(texts, [0] + later)
  {
    hide WordsOf;
    var all := [0] + later;
    assert all[0] == 0 && forall k :: 0 < k < |all| ==> all[k] == later[k - 1];
    forall i | 0 <= i < |texts| && WordsOf(texts[i]) != []
      ensures i in all
    {
      if i > 0 {
        var k :| 0 <= k < |later| && later[k] == i;
        assert all[k + 1] == i;
      }
    }
  }

  /** Splitting by lines splits the text of each line, numbered on from the start within the block. */
  lemma {:induction false} SplitLinesMean(unicode: Unicode, lines: seq<string>, offset: nat, block: Block, maximum: nat)
    returns (parts: seq<seq<Block>>)
    requires maximum >= 1
    ensures SplitLinesOf(unicode, lines, offset, block, maximum) == Flatten(parts) && |parts| == |lines|
    ensures forall i :: 0 <= i < |lines| ==>
              var line := block.start + offset + i;
              parts[i] == SplitTextOf(unicode, lines[i], block, maximum, if line <= block.end then line else block.end)
    decreases |lines|
  {
    hide SplitTextOf;
    parts := [];
    if lines != [] {
      var first := SplitTextOf(unicode, lines[0], block, maximum, Least(block.start + offset, block.end));
      var rest := SplitLinesMean(unicode, lines[1..], offset + 1, block, maximum);
      parts := [first] + rest;
      assert parts[1..] == rest;
    }
  }

  /** A block within the maximum stays whole; a larger one is split by lines when it has several and is neither a
      table nor a code fence, and as one text otherwise. */
  lemma SplittingMeans(unicode: Unicode, block: Block, maximum: nat)
    requires maximum >= 1
    ensures var parts, lines := SplitBlock(unicode, block, maximum), SplitLines(block.text);
            var byLines := 2 <= |lines| && block.kind !in {Table, CodeFence};
            && (Count(unicode, block.text) <= maximum ==> parts == [block])
            && (Count(unicode, block.text) > maximum && byLines ==>
                  parts == SplitLinesOf(unicode, lines, 0, block, maximum))
            && (Count(unicode, block.text) > maximum && !byLines ==>
                  parts == SplitTextOf(unicode, block.text, block, maximum, block.start))
  {
    hide Count, SplitLines, SplitLinesOf, SplitTextOf;
  }

  method GatherSentences(unicode: Unicode, sentences: seq<string>, maximum: nat) returns (pieces: seq<string>)
    ensures pieces == Gathered(unicode, maximum, "", sentences)
  {
    hide Strip, Count, Gathered;
    pieces := [];
    var current := "";
    ghost var whole := Gathered(unicode, maximum, "", sentences);
    NothingAround(whole);
    for i := 0 to |sentences|
      invariant pieces + Gathered(unicode, maximum, current, sentences[i..]) == whole
    {
      ghost var rest := sentences[i..];
      assert rest[1..] == sentences[i + 1..];
      GatheredStep(unicode, maximum, current, rest);
      var candidate := Strip(current + " " + sentences[i]);
      if current != "" && Count(unicode, candidate) > maximum {
        Associative(pieces, [current], Gathered(unicode, maximum, sentences[i], rest[1..]));
        pieces := pieces + [current];
        current := sentences[i];
      } else {
        current := candidate;
      }
    }
    GatheredEnd(unicode, maximum, current, sentences[|sentences|..]);
    NothingAround(pieces);
    if current != "" { pieces := pieces + [current]; }
  }

  lemma GatheredStep(unicode: Unicode, maximum: nat, current: string, sentences: seq<string>)
    requires sentences != []
    ensures var candidate := Strip(current + " " + sentences[0]);
            Gathered(unicode, maximum, current, sentences) ==
            if current != "" && Count(unicode, candidate) > maximum then
              [current] + Gathered(unicode, maximum, sentences[0], sentences[1..])
            else Gathered(unicode, maximum, candidate, sentences[1..])
  {
    hide Strip, Count;
  }

  lemma GatheredEnd(unicode: Unicode, maximum: nat, current: string, sentences: seq<string>)
    requires sentences == []
    ensures Gathered(unicode, maximum, current, sentences) == if current == "" then [] else [current]
  {
  }

  method SplitWords(piece: string, maximum: nat) returns (groups: seq<string>)
    requires maximum >= 1
    ensures groups == HardSplit(piece, maximum)
  {
    hide Spans, Slice, Groups;
    var matches := Spans(piece, 0);
    NoGroups(piece, maximum);
    var start := 0;
    groups := [];
    while start < |matches|
      invariant start <= |matches|
      invariant groups + Groups(piece, matches[start..], maximum) == Groups(piece, matches, maximum)
      decreases |matches| - start
    {
      var rest := matches[start..];
      var n := Least(maximum, |rest|);
      var group := Slice(piece, rest[0].0, rest[n - 1].1);
      assert rest[n..] == matches[start + n..];
      GroupsStep(piece, rest, maximum);
      groups := groups + [group];
      start := start + n;
    }
    assert matches[start..] == [];
  }

  lemma NoGroups(s: string, maximum: nat)
    requires maximum >= 1
    ensures Groups(s, [], maximum) == []
  {
  }

  lemma GroupsStep(s: string, spans: seq<(nat, nat)>, maximum: nat)
    requires maximum >= 1 && spans != []
    ensures var n := Least(maximum, |spans|);
            Groups(s, spans, maximum) == [Slice(s, spans[0].0, spans[n - 1].1)] + Groups(s, spans[n..], maximum)
  {
  }

  method FinishPieces(unicode: Unicode, pieces: seq<string>, maximum: nat) returns (final: seq<string>)
    requires maximum >= 1
    ensures final == Finals(unicode, pieces, maximum)
  {
    hide Count, HardSplit, Finals;
    final := [];
    ghost var whole := Finals(unicode, pieces, maximum);
    NothingAround(whole);
    for i := 0 to |pieces|
      invariant final + Finals(unicode, pieces[i..], maximum) == whole
    {
      var rest := pieces[i..];
      assert rest[1..] == pieces[i + 1..];
      FinalsStep(unicode, rest, maximum);
      if Count(unicode, pieces[i]) <= maximum {
        Associative(final, [pieces[i]], Finals(unicode, rest[1..], maximum));
        final := final + [pieces[i]];
      } else {
        var groups := SplitWords(pieces[i], maximum);
        Associative(final, groups, Finals(unicode, rest[1..], maximum));
        final := final + groups;
      }
    }
    NoFinals(unicode, pieces[|pieces|..], maximum);
    NothingAround(final);
  }

  lemma FinalsStep(unicode: Unicode, pieces: seq<string>, maximum: nat)
    requires maximum >= 1 && pieces != []
    ensures Finals(unicode, pieces, maximum) ==
            (if Count(unicode, pieces[0]) <= maximum then [pieces[0]] else HardSplit(pieces[0], maximum))
            + Finals(unicode, pieces[1..], maximum)
  {
  }

  lemma NoFinals(unicode: Unicode, pieces: seq<string>, maximum: nat)
    requires maximum >= 1 && pieces == []
    ensures Finals(unicode, pieces, maximum) == []
  {
  }

  method SplitText(unicode: Unicode, text: string, block: Block, maximum: nat, line: nat) returns (parts: seq<Block>)
    requires maximum >= 1
    ensures parts == SplitTextOf(unicode, text, block, maximum, line)
  {
    hide Gathered, Sentences, Strip, PartOf, Finals, Parts;
    var pieces := GatherSentences(unicode, Sentences(text), maximum);
    var final := FinishPieces(unicode, pieces, maximum);
    parts := ShownParts(block, final, line);
  }

  method ShownParts(block: Block, final: seq<string>, line: nat) returns (parts: seq<Block>)
    ensures parts == Parts(block, final, line)
  {
    hide Strip, PartOf, Parts;
    parts := [];
    ghost var whole := Parts(block, final, line);
    NothingAround(whole);
    for i := 0 to |final|
      invariant parts + Parts(block, final[i..], line) == whole
    {
      var rest := final[i..];
      assert rest[1..] == final[i + 1..];
      PartsStep(block, rest, line);
      if Strip(final[i]) != "" {
        Associative(parts, [PartOf(block, final[i], line)], Parts(block, rest[1..], line));
        parts := parts + [PartOf(block, final[i], line)];
      }
    }
    NoParts(block, final[|final|..], line);
    NothingAround(parts);
  }

  lemma PartsStep(block: Block, texts: seq<string>, line: nat)
    requires texts != []
    ensures Parts(block, texts, line) ==
            if Strip(texts[0]) == "" then Parts(block, texts[1..], line)
            else [PartOf(block, texts[0], line)] + Parts(block, texts[1..], line)
  {
    hide Strip, PartOf;
    NothingAround(Parts(block, texts[1..], line));
  }

  lemma NoParts(block: Block, texts: seq<string>, line: nat)
    requires texts == []
    ensures Parts(block, texts, line) == []
  {
  }

  method SplitOversizedBlock(unicode: Unicode, block: Block, maximum: nat) returns (parts: seq<Block>)
    requires maximum >= 1
    ensures parts == SplitBlock(unicode, block, maximum)
  {
    hide SplitTextOf, Count, SplitLines, SplitLinesOf;
    if Count(unicode, block.text) <= maximum { return [block]; }
    var lines := SplitLines(block.text);
    if |lines| > 1 && block.kind != Table && block.kind != CodeFence {
      parts := [];
      ghost var whole := SplitLinesOf(unicode, lines, 0, block, maximum);
      NothingAround(whole);
      for offset := 0 to |lines|
        invariant parts + SplitLinesOf(unicode, lines[offset..], offset, block, maximum) == whole
      {
        ghost var rest := lines[offset..];
        assert rest[1..] == lines[offset + 1..];
        SplitLinesStep(unicode, rest, offset, block, maximum);
        var more := SplitText(unicode, lines[offset], block, maximum, Least(block.start + offset, block.end));
        Associative(parts, more, SplitLinesOf(unicode, rest[1..], offset + 1, block, maximum));
        parts := parts + more;
      }
      NoLinesLeft(unicode, lines[|lines|..], |lines|, block, maximum);
      NothingAround(parts);
    } else {
      parts := SplitText(unicode, block.text, block, maximum, block.start);
    }
  }

  lemma SplitLinesStep(unicode: Unicode, lines: seq<string>, offset: nat, block: Block, maximum: nat)
    requires maximum >= 1 && lines != []
    ensures SplitLinesOf(unicode, lines, offset, block, maximum) ==
            SplitTextOf(unicode, lines[0], block, maximum, Least(block.start + offset, block.end))
            + SplitLinesOf(unicode, lines[1..], offset + 1, block, maximum)
  {
    hide SplitTextOf;
  }

  lemma NoLinesLeft(unicode: Unicode, lines: seq<string>, offset: nat, block: Block, maximum: nat)
    requires maximum >= 1 && lines == []
    ensures SplitLinesOf(unicode, lines, offset, block, maximum) == []
  {
  }

  // ---- What splitting keeps --------------------------------------------------------------------

  lemma {:induction false} FinalsKeepWords(unicode: Unicode, pieces: seq<string>, maximum: nat)
    requires maximum >= 1
    ensures AllWords(Finals(unicode, pieces, maximum)) == AllWords(pieces)
  {
    hide WordsOf, Count, HardSplit;
    if pieces != [] {
      FinalsKeepWords(unicode, pieces[1..], maximum);
      HardSplitKeepsWords(pieces[0], maximum);
      var first := if Count(unicode, pieces[0]) <= maximum then [pieces[0]] else HardSplit(pieces[0], maximum);
      AllWordsConcat(first, Finals(unicode, pieces[1..], maximum));
      assert AllWords([pieces[0]]) == WordsOf(pieces[0]) + AllWords([]);
    }
  }

  lemma {:induction false} PartsKeepWords(block: Block, texts: seq<string>, line: nat)
    ensures BlockWords(Parts(block, texts, line)) == AllWords(texts)
  {
    hide WordsOf, Strip;
    if texts != [] {
      PartsKeepWords(block, texts[1..], line);
      StripWords(texts[0]);
      BlankHasNoWords("");
      var rest := Parts(block, texts[1..], line);
      if Strip(texts[0]) != "" {
        assert ([PartOf(block, texts[0], line)] + rest)[1..] == rest;
      } else {
        assert [] + rest == rest;
      }
    }
  }

  lemma TextKeepsWords(unicode: Unicode, text: string, block: Block, maximum: nat, line: nat)
    requires maximum >= 1
    ensures BlockWords(SplitTextOf(unicode, text, block, maximum, line)) == WordsOf(text)
  {
    hide WordsOf, Gathered, Sentences, Finals, Parts, AllWords, BlockWords;
    SentencesKeepWords(text);
    GatheredKeepsWords(unicode, maximum, "", Sentences(text));
    BlankHasNoWords("");
    assert [] + AllWords(Sentences(text)) == AllWords(Sentences(text));
    var pieces := Pieces(unicode, text, maximum);
    FinalsKeepWords(unicode, pieces, maximum);
    PartsKeepWords(block, Finals(unicode, pieces, maximum), line);
  }

  lemma {:induction false} LinesKeepWords(unicode: Unicode, lines: seq<string>, offset: nat, block: Block, maximum: nat)
    requires maximum >= 1
    ensures BlockWords(SplitLinesOf(unicode, lines, offset, block, maximum)) == AllWords(lines)
    decreases |lines|
  {
    hide WordsOf, SplitTextOf, BlockWords, SplitLinesOf;
    if lines == [] {
      NoLinesLeft(unicode, lines, offset, block, maximum);
      NoBlocksNoWords();
    } else {
      var line := Least(block.start + offset, block.end);
      SplitLinesStep(unicode, lines, offset, block, maximum);
      TextKeepsWords(unicode, lines[0], block, maximum, line);
      LinesKeepWords(unicode, lines[1..], offset + 1, block, maximum);
      BlockWordsConcat(SplitTextOf(unicode, lines[0], block, maximum, line),
                       SplitLinesOf(unicode, lines[1..], offset + 1, block, maximum));
    }
  }

  lemma NoBlocksNoWords()
    ensures BlockWords([]) == []
  {
  }

  /** Splitting keeps the word sequence of the block. */
  lemma SplittingKeepsWords(unicode: Unicode, block: Block, maximum: nat)
    requires maximum >= 1
    ensures BlockWords(SplitBlock(unicode, block, maximum)) == WordsOf(block.text)
  {
    hide WordsOf, SplitTextOf, SplitLines, Count;
    var lines := SplitLines(block.text);
    assert BlockWords([block]) == WordsOf(block.text) + BlockWords([]);
    LinesKeepWords(unicode, lines, 0, block, maximum);
    SplitLinesWords(block.text);
    TextKeepsWords(unicode, block.text, block, maximum, block.start);
  }

  /** A part of the block: same kind and path, a line range inside the block's, and some words, but no
      more than the maximum. */
  ghost predicate PartFrom(part: Block, block: Block, maximum: nat) {
    && part.kind == block.kind && part.path == block.path
    && block.start <= part.start <= part.end == block.end
    && 1 <= |WordsOf(part.text)| <= maximum
  }

  ghost predicate PartsFrom(parts: seq<Block>, block: Block, maximum: nat) {
    forall i :: 0 <= i < |parts| ==> PartFrom(parts[i], block, maximum)
  }

  ghost predicate Small(texts: seq<string>, maximum: nat) {
    forall i :: 0 <= i < |texts| ==> |WordsOf(texts[i])| <= maximum
  }

  /** A text has no more words than tokens. */
  lemma WordsWithinCount(unicode: Unicode, text: string)
    requires Sound(unicode)
    ensures |WordsOf(text)| <= Count(unicode, text)
  {
    CountIsTokens(unicode, text);
    forall w | w in WordsOf(text)
      ensures IsWord(w)
    {
      WordsAreParts(text, w);
    }
    TokensAtLeast(unicode, WordsOf(text));
  }

  lemma {:induction false} FinalsAreSmall(unicode: Unicode, pieces: seq<string>, maximum: nat)
    requires Sound(unicode) && maximum >= 1
    ensures Small(Finals(unicode, pieces, maximum), maximum)
  {
    hide WordsOf, Count, HardSplit;
    if pieces != [] {
      FinalsAreSmall(unicode, pieces[1..], maximum);
      HardSplitKeepsWords(pieces[0], maximum);
      WordsWithinCount(unicode, pieces[0]);
    }
  }

  lemma {:induction false} PartsAreFrom(block: Block, texts: seq<string>, line: nat, maximum: nat)
    requires block.start <= line <= block.end && Small(texts, maximum)
    ensures PartsFrom(Parts(block, texts, line), block, maximum)
  {
    hide WordsOf, Strip;
    if texts != [] {
      assert forall i :: 0 <= i < |texts[1..]| ==> texts[1..][i] == texts[i + 1];
      PartsAreFrom(block, texts[1..], line, maximum);
      ShownHasWords(texts[0]);
    }
  }

  lemma ShownHasWords(text: string)
    ensures Strip(text) != "" <==> WordsOf(text) != []
  {
    StripWords(text);
    BlankHasNoWords(Strip(text));
    TrimRightPrefix(TrimLeft(text));
  }

  lemma TextIsFrom(unicode: Unicode, text: string, block: Block, maximum: nat, line: nat)
    requires Sound(unicode) && maximum >= 1 && block.start <= line <= block.end
    ensures PartsFrom(SplitTextOf(unicode, text, block, maximum, line), block, maximum)
  {
    hide Parts, Pieces, Finals, PartFrom;
    FinalsAreSmall(unicode, Pieces(unicode, text, maximum), maximum);
    PartsAreFrom(block, Finals(unicode, Pieces(unicode, text, maximum), maximum), line, maximum);
  }

  lemma {:induction false} LinesAreFrom(unicode: Unicode, lines: seq<string>, offset: nat, block: Block, maximum: nat)
    requires Sound(unicode) && maximum >= 1 && block.start <= block.end
    ensures PartsFrom(SplitLinesOf(unicode, lines, offset, block, maximum), block, maximum)
    decreases |lines|
  {
    hide PartFrom, SplitTextOf;
    if lines != [] {
      TextIsFrom(unicode, lines[0], block, maximum, Least(block.start + offset, block.end));
      LinesAreFrom(unicode, lines[1..], offset + 1, block, maximum);
    }
  }

  /** Every part belongs to its block and has at most `maximum` words, so only words of several tokens
      can take it over the maximum. */
  lemma SplittingStaysInside(unicode: Unicode, block: Block, maximum: nat)
    requires Sound(unicode) && maximum >= 1 && block.start <= block.end && WordsOf(block.text) != []
    ensures PartsFrom(SplitBlock(unicode, block, maximum), block, maximum)
  {
    hide SplitTextOf, SplitLinesOf, SplitLines, Count, WordsOf;
    LinesAreFrom(unicode, SplitLines(block.text), 0, block, maximum);
    TextIsFrom(unicode, block.text, block, maximum, block.start);
    WordsWithinCount(unicode, block.text);
  }

  /** The text is within the maximum, or its words fit into groups. */
  ghost predicate Fits(unicode: Unicode, text: string, maximum: nat)
    requires maximum >= 1
  {
    Count(unicode, text) <= maximum || WordsFit(unicode, WordsOf(text), maximum)
  }

  ghost predicate PiecesFit(unicode: Unicode, pieces: seq<string>, maximum: nat)
    requires maximum >= 1
  {
    forall i :: 0 <= i < |pieces| ==> Fits(unicode, pieces[i], maximum)
  }

  lemma {:induction false} FinalsFit(unicode: Unicode, pieces: seq<string>, maximum: nat)
    requires Sound(unicode) && maximum >= 1
    ensures AllWithin(unicode, Finals(unicode, pieces, maximum), maximum) <==> PiecesFit(unicode, pieces, maximum)
  {
    hide WordsOf, Count, HardSplit, WordsFit;
    if pieces != [] {
      var small := Count(unicode, pieces[0]) <= maximum;
      var first, rest := if small then [pieces[0]] else HardSplit(pieces[0], maximum), pieces[1..];
      FinalsFit(unicode, rest, maximum);
      HardSplitFits(unicode, pieces[0], maximum);
      WithinConcat(unicode, first, Finals(unicode, rest, maximum), maximum);
      assert small ==> AllWithin(unicode, first, maximum);
      PiecesFitSplit(unicode, pieces, maximum);
    }
  }

  lemma WithinConcat(unicode: Unicode, a: seq<string>, b: seq<string>, maximum: nat)
    ensures AllWithin(unicode, a + b, maximum) <==> AllWithin(unicode, a, maximum) && AllWithin(unicode, b, maximum)
  {
    hide Count;
    if AllWithin(unicode, a + b, maximum) {
      forall i | 0 <= i < |a| ensures Count(unicode, a[i]) <= maximum { assert (a + b)[i] == a[i]; }
      forall i | 0 <= i < |b| ensures Count(unicode, b[i]) <= maximum { assert (a + b)[|a| + i] == b[i]; }
    }
  }

  lemma PiecesFitSplit(unicode: Unicode, pieces: seq<string>, maximum: nat)
    requires maximum >= 1 && pieces != []
    ensures PiecesFit(unicode, pieces, maximum) <==>
            Fits(unicode, pieces[0], maximum) && PiecesFit(unicode, pieces[1..], maximum)
  {
    hide Fits;
    if PiecesFit(unicode, pieces[1..], maximum) {
      assert forall i :: 1 <= i < |pieces| ==> pieces[i] == pieces[1..][i - 1];
    } else {
      assert forall i :: 0 <= i < |pieces[1..]| ==> pieces[1..][i] == pieces[i + 1];
    }
  }

  ghost predicate PartsWithin(unicode: Unicode, parts: seq<Block>, maximum: nat) {
    forall i :: 0 <= i < |parts| ==> Count(unicode, parts[i].text) <= maximum
  }

  lemma {:induction false} PartsFit(unicode: Unicode, block: Block, texts: seq<string>, line: nat, maximum: nat)
    requires Sound(unicode)
    ensures PartsWithin(unicode, Parts(block, texts, line), maximum) <==> AllWithin(unicode, texts, maximum)
  {
    hide WordsOf, Count, Strip;
    if texts != [] {
      var rest := Parts(block, texts[1..], line);
      PartsFit(unicode, block, texts[1..], line, maximum);
      WithinConcat(unicode, [texts[0]], texts[1..], maximum);
      assert [texts[0]] + texts[1..] == texts;
      assert AllWithin(unicode, [texts[0]], maximum) <==> Count(unicode, [texts[0]][0]) <= maximum;
      if Strip(texts[0]) == "" {
        ShownHasWords(texts[0]);
        CountIsTokens(unicode, texts[0]);
        assert Parts(block, texts, line) == rest;
      } else {
        PartsWithinCons(unicode, PartOf(block, texts[0], line), rest, maximum);
      }
    }
  }

  lemma PartsWithinCons(unicode: Unicode, part: Block, rest: seq<Block>, maximum: nat)
    ensures PartsWithin(unicode, [part] + rest, maximum) <==>
            Count(unicode, part.text) <= maximum && PartsWithin(unicode, rest, maximum)
  {
    hide Count;
    var all := [part] + rest;
    assert all[0] == part;
    assert forall i :: 0 <= i < |rest| ==> all[i + 1] == rest[i];
    if PartsWithin(unicode, all, maximum) {
      forall i | 0 <= i < |rest| ensures Count(unicode, rest[i].text) <= maximum { assert all[i + 1] == rest[i]; }
    }
  }

  /** Gathering does not change what fits: only a sentence that is too large by itself makes a piece too large. */
  lemma {:induction false} GatheredFit(unicode: Unicode, maximum: nat, current: string, sentences: seq<string>)
    requires Sound(unicode) && maximum >= 1
    ensures PiecesFit(unicode, Gathered(unicode, maximum, current, sentences), maximum) <==>
            Fits(unicode, current, maximum) && PiecesFit(unicode, sentences, maximum)
    decreases |sentences|
  {
    hide WordsOf, Count, Strip, Fits, PiecesFit;
    NothingFits(unicode, maximum);
    if sentences == [] {
      if current != "" {
        PiecesFitSplit(unicode, [current], maximum);
        assert [current][1..] == [];
      }
    } else {
      var candidate, rest := Strip(current + " " + sentences[0]), sentences[1..];
      PiecesFitSplit(unicode, sentences, maximum);
      if current != "" && Count(unicode, candidate) > maximum {
        var pieces := [current] + Gathered(unicode, maximum, sentences[0], rest);
        GatheredFit(unicode, maximum, sentences[0], rest);
        PiecesFitSplit(unicode, pieces, maximum);
        assert pieces[1..] == Gathered(unicode, maximum, sentences[0], rest);
      } else {
        GatheredFit(unicode, maximum, candidate, rest);
        CandidateFits(unicode, maximum, current, sentences[0]);
      }
    }
  }

  lemma NothingFits(unicode: Unicode, maximum: nat)
    requires maximum >= 1
    ensures Fits(unicode, "", maximum) && PiecesFit(unicode, [], maximum)
  {
    hide WordsFit;
  }

  lemma CandidateFits(unicode: Unicode, maximum: nat, current: string, sentence: string)
    requires Sound(unicode) && maximum >= 1
    requires current == "" || Count(unicode, Strip(current + " " + sentence)) <= maximum
    ensures Fits(unicode, Strip(current + " " + sentence), maximum) <==>
            Fits(unicode, current, maximum) && Fits(unicode, sentence, maximum)
  {
    hide WordsOf, Count, Strip, WordsFit, Tokens;
    var candidate := Strip(current + " " + sentence);
    CandidateWords(current, sentence);
    CountIsTokens(unicode, candidate);
    CountIsTokens(unicode, current);
    CountIsTokens(unicode, sentence);
    TokensConcat(unicode, WordsOf(current), WordsOf(sentence));
    if current == "" {
      NothingFits(unicode, maximum);
      BlankHasNoWords("");
      assert [] + WordsOf(sentence) == WordsOf(sentence);
    }
  }

  /** All parts of a text are within the maximum exactly when every sentence over it has words that fit. */
  lemma SplitTextFits(unicode: Unicode, text: string, block: Block, maximum: nat, line: nat)
    requires Sound(unicode) && maximum >= 1
    ensures PartsWithin(unicode, SplitTextOf(unicode, text, block, maximum, line), maximum) <==>
            PiecesFit(unicode, Sentences(text), maximum)
  {
    hide Parts, Finals, Gathered, Fits, PiecesFit, AllWithin, PartsWithin;
    GatheredFit(unicode, maximum, "", Sentences(text));
    NothingFits(unicode, maximum);
    FinalsFit(unicode, Pieces(unicode, text, maximum), maximum);
    PartsFit(unicode, block, Finals(unicode, Pieces(unicode, text, maximum), maximum), line, maximum);
  }

  ghost predicate LinesFit(unicode: Unicode, lines: seq<string>, maximum: nat)
    requires maximum >= 1
  {
    forall i :: 0 <= i < |lines| ==> PiecesFit(unicode, Sentences(lines[i]), maximum)
  }

  lemma {:induction false} SplitLinesFit(unicode: Unicode, lines: seq<string>, offset: nat, block: Block, maximum: nat)
    requires Sound(unicode) && maximum >= 1
    ensures PartsWithin(unicode, SplitLinesOf(unicode, lines, offset, block, maximum), maximum) <==>
            LinesFit(unicode, lines, maximum)
    decreases |lines|
  {
    hide SplitTextOf, Sentences, PiecesFit, Count;
    if lines != [] {
      var line, rest := Least(block.start + offset, block.end), lines[1..];
      SplitTextFits(unicode, lines[0], block, maximum, line);
      SplitLinesFit(unicode, rest, offset + 1, block, maximum);
      PartsWithinConcat(unicode, SplitTextOf(unicode, lines[0], block, maximum, line),
                        SplitLinesOf(unicode, rest, offset + 1, block, maximum), maximum);
      assert lines == [lines[0]] + rest;
      LinesFitCons(unicode, lines[0], rest, maximum);
    }
  }

  lemma LinesFitCons(unicode: Unicode, line: string, rest: seq<string>, maximum: nat)
    requires maximum >= 1
    ensures LinesFit(unicode, [line] + rest, maximum) <==>
            PiecesFit(unicode, Sentences(line), maximum) && LinesFit(unicode, rest, maximum)
  {
    hide Sentences, PiecesFit;
    var all := [line] + rest;
    assert all[0] == line;
    forall i | 0 <= i < |rest|
      ensures PiecesFit(unicode, Sentences(all[i + 1]), maximum) <==> PiecesFit(unicode, Sentences(rest[i]), maximum)
    {
      assert all[i + 1] == rest[i];
    }
    if LinesFit(unicode, rest, maximum) && PiecesFit(unicode, Sentences(line), maximum) {
      forall i | 0 <= i < |all| ensures PiecesFit(unicode, Sentences(all[i]), maximum) {
        if i > 0 { assert all[i] == rest[i - 1]; }
      }
    }
  }

  lemma PartsWithinConcat(unicode: Unicode, a: seq<Block>, b: seq<Block>, maximum: nat)
    ensures PartsWithin(unicode, a + b, maximum) <==>
            (PartsWithin(unicode, a, maximum) && PartsWithin(unicode, b, maximum))
  {
    hide Count;
    if PartsWithin(unicode, a + b, maximum) {
      forall i | 0 <= i < |a| ensures Count(unicode, a[i].text) <= maximum { assert (a + b)[i] == a[i]; }
      forall i | 0 <= i < |b| ensures Count(unicode, b[i].text) <= maximum { assert (a + b)[|a| + i] == b[i]; }
    }
  }

  /** Splitting brings a block within the maximum exactly when the block is within it already or every
      sentence over it, taken line by line or from the whole text, has words that fit. */
  lemma SplittingFits(unicode: Unicode, block: Block, maximum: nat)
    requires Sound(unicode) && maximum >= 1
    ensures var lines := SplitLines(block.text);
            PartsWithin(unicode, SplitBlock(unicode, block, maximum), maximum) <==>
            (Count(unicode, block.text) <= maximum
             || if |lines| > 1 && block.kind != Table && block.kind != CodeFence then LinesFit(unicode, lines, maximum)
                else PiecesFit(unicode, Sentences(block.text), maximum))
  {
    hide SplitLines, SplitTextOf, SplitLinesOf, Sentences, PiecesFit, LinesFit, Count;
    var lines := SplitLines(block.text);
    if Count(unicode, block.text) <= maximum {
      assert PartsWithin(unicode, [block], maximum);
    } else if |lines| > 1 && block.kind != Table && block.kind != CodeFence {
      SplitLinesFit(unicode, lines, 0, block, maximum);
    } else {
      SplitTextFits(unicode, block.text, block, maximum, block.start);
    }
  }
}
