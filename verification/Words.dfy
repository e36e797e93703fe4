/** The white-space separated words of a text, and the lexical token count built on them. */
module Words {
  import opened Text

  /** The length of the word a text starts with. */
  function WordEnd(s: string): (n: nat)
    ensures n <= |s| && (n < |s| ==> IsSpace(s[n])) && forall i :: 0 <= i < n ==> !IsSpace(s[i])
  {
    if s == "" || IsSpace(s[0]) then 0 else 1 + WordEnd(s[1..])
  }

  /** `str.split()`. */
  function WordsOf(s: string): seq<string>
    decreases |s|
  {
    if s == "" then []
    else if IsSpace(s[0]) then WordsOf(s[1..])
    else [s[..WordEnd(s)]] + WordsOf(s[WordEnd(s)..])
  }

  ghost predicate Blank(s: string) {
    forall i :: 0 <= i < |s| ==> IsSpace(s[i])
  }

  ghost predicate IsWord(w: string) {
    w != "" && forall i :: 0 <= i < |w| ==> !IsSpace(w[i])
  }

  /** No word can reach across this boundary. */
  predicate Separated(a: string, b: string) {
    a == "" || b == "" || IsSpace(b[0]) || IsSpace(a[|a| - 1])
  }

  lemma WordEndPrefix(a: string, b: string)
    requires a != "" && !IsSpace(a[0]) && Separated(a, b)
    ensures WordEnd(a + b) == WordEnd(a)
  {
    var n, m := WordEnd(a), WordEnd(a + b);
    assert forall i :: 0 <= i < |a| ==> (a + b)[i] == a[i];
    if n == |a| && b != "" {
      assert (a + b)[n] == b[0];
    }
  }

  lemma {:induction false} WordsConcat(a: string, b: string)
    requires Separated(a, b)
    ensures WordsOf(a + b) == WordsOf(a) + WordsOf(b)
    decreases |a|
  {
    hide IsSpace;
    if a == "" {
      assert a + b == b;
    } else if IsSpace(a[0]) {
      assert (a + b)[1..] == a[1..] + b;
      WordsConcat(a[1..], b);
    } else {
      WordEndPrefix(a, b);
      var n := WordEnd(a);
      assert (a + b)[..n] == a[..n] && (a + b)[n..] == a[n..] + b;
      WordsConcat(a[n..], b);
    }
  }

  lemma {:induction false} BlankHasNoWords(s: string)
    ensures WordsOf(s) == [] <==> Blank(s)
    decreases |s|
  {
    if s != "" && IsSpace(s[0]) {
      BlankHasNoWords(s[1..]);
      assert s == [s[0]] + s[1..];
    }
  }

  lemma {:induction false} TrimLeftWords(s: string)
    ensures WordsOf(TrimLeft(s)) == WordsOf(s)
  {
    if s != "" && IsSpace(s[0]) { TrimLeftWords(s[1..]); }
  }

  lemma {:induction false} TrimRightWords(s: string)
    ensures WordsOf(TrimRight(s)) == WordsOf(s)
  {
    if s != "" && IsSpace(s[|s| - 1]) {
      var n := |s| - 1;
      TrimRightWords(s[..n]);
      WordsConcat(s[..n], s[n..]);
      assert s == s[..n] + s[n..];
      BlankHasNoWords(s[n..]);
    }
  }

  lemma StripWords(s: string)
    ensures WordsOf(Strip(s)) == WordsOf(s)
  {
    TrimLeftWords(s);
    TrimRightWords(TrimLeft(s));
  }

  /** Text on both sides of white space. */
  lemma WordsAround(a: string, separator: string, b: string)
    requires separator != "" && Blank(separator)
    ensures WordsOf(a + separator + b) == WordsOf(a) + WordsOf(b)
  {
    hide IsSpace, WordsOf;
    WordsConcat(a, separator);
    BlankHasNoWords(separator);
    assert (a + separator)[|a + separator| - 1] == separator[|separator| - 1];
    WordsConcat(a + separator, b);
  }

  function AllWords(texts: seq<string>): seq<string> {
    if texts == [] then [] else WordsOf(texts[0]) + AllWords(texts[1..])
  }

  lemma {:induction false} AllWordsConcat(a: seq<string>, b: seq<string>)
    ensures AllWords(a + b) == AllWords(a) + AllWords(b)
  {
    if a == [] {
      assert a + b == b;
    } else {
      assert (a + b)[1..] == a[1..] + b;
      AllWordsConcat(a[1..], b);
    }
  }

  lemma {:induction false} JoinWords(separator: string, texts: seq<string>)
    requires separator != "" && Blank(separator)
    ensures WordsOf(Join(separator, texts)) == AllWords(texts)
  {
    if |texts| == 1 {
      assert AllWords(texts[1..]) == [];
    } else if |texts| > 1 {
      JoinWords(separator, texts[1..]);
      WordsAround(texts[0], separator, Join(separator, texts[1..]));
    }
  }

  /** The first line of a text and the break after it. */
  lemma FirstLineOf(s: string) returns (n: nat, next: nat)
    requires s != ""
    ensures n <= |s| && (n == |s| ==> SplitLines(s) == [s])
    ensures n < |s| ==> n < next <= |s| && Blank(s[n..next]) && SplitLines(s) == [s[..n]] + SplitLines(s[next..])
  {
    hide IsLineBreak, FirstBreak;
    n := FirstBreak(s);
    next := n;
    if n < |s| {
      next := if s[n] == '\r' && n + 1 < |s| && s[n + 1] == '\n' then n + 2 else n + 1;
      assert SplitLines(s) == [s[..n]] + SplitLines(s[next..]);
      hide SplitLines;
      BreakIsBlank(s, n, next);
    }
  }

  lemma AllWordsCons(text: string, texts: seq<string>)
    ensures AllWords([text] + texts) == WordsOf(text) + AllWords(texts)
  {
    assert ([text] + texts)[1..] == texts;
  }

  lemma WordsAroundBreak(s: string, n: nat, next: nat)
    requires n < next <= |s| && Blank(s[n..next])
    ensures WordsOf(s) == WordsOf(s[..n]) + WordsOf(s[next..])
  {
    hide WordsOf, Blank;
    WordsAround(s[..n], s[n..next], s[next..]);
    assert s == s[..n] + s[n..next] + s[next..];
  }

  lemma {:induction false} SplitLinesWords(s: string)
    ensures AllWords(SplitLines(s)) == WordsOf(s)
    decreases |s|
  {
    if s == "" {
      BlankHasNoWords(s);
    } else {
      hide WordsOf, SplitLines, Blank;
      var n, next := FirstLineOf(s);
      if n == |s| {
        AllWordsCons(s, []);
        assert [s] + [] == [s];
      } else {
        hide AllWords;
        SplitLinesWords(s[next..]);
        AllWordsCons(s[..n], SplitLines(s[next..]));
        WordsAroundBreak(s, n, next);
      }
    }
  }

  lemma BreakIsBlank(s: string, n: nat, next: nat)
    requires n < next <= |s| && IsLineBreak(s[n])
    requires next == n + 1 || (next == n + 2 && s[n + 1] == '\n')
    ensures s[n..next] != "" && Blank(s[n..next])
  {
  }

  ghost predicate Contains(text: string, part: string) {
    exists i :: 0 <= i <= |text| && IsAt(text, part, i)
  }

  lemma ContainsInside(a: string, text: string, b: string, part: string)
    requires Contains(text, part)
    ensures Contains(a + text + b, part)
  {
    var i :| 0 <= i <= |text| && IsAt(text, part, i);
    assert (a + text + b)[|a| + i..|a| + i + |part|] == text[i..i + |part|];
    assert IsAt(a + text + b, part, |a| + i);
  }

  /** Every word of a text is a non-empty part of it without white space. */
  lemma {:induction false} WordsAreParts(s: string, w: string)
    requires w in WordsOf(s)
    ensures Contains(s, w) && IsWord(w)
    decreases |s|
  {
    hide IsSpace;
    if IsSpace(s[0]) {
      WordsAreParts(s[1..], w);
      ContainsInside(s[..1], s[1..], "", w);
      assert s == s[..1] + s[1..] + "";
    } else {
      var n := WordEnd(s);
      if w in WordsOf(s[n..]) {
        WordsAreParts(s[n..], w);
        ContainsInside(s[..n], s[n..], "", w);
        assert s == s[..n] + s[n..] + "";
      } else {
        assert w == s[..n] == s[0..0 + |w|];
        assert IsAt(s, w, 0);
      }
    }
  }

  lemma WordOfItself(w: string)
    requires IsWord(w)
    ensures WordsOf(w) == [w]
  {
    assert WordEnd(w) == |w|;
    assert w[..|w|] == w && w[|w|..] == "";
  }

  // ---- Tokens ----------------------------------------------------------------------------------

  /** The character tables behind the patterns: `\w` and `\d`. */
  datatype Unicode = Unicode(word: char -> bool, digit: char -> bool)

  /** White space is never part of a word. */
  ghost predicate Sound(unicode: Unicode) {
    forall c :: IsSpace(c) ==> !unicode.word(c)
  }

  predicate Joiner(c: char) {
    c == '-' || c == '\'' || c as int == 0x2019
  }

  function RunEnd(unicode: Unicode, s: string): (n: nat)
    ensures n <= |s| && (n < |s| ==> !unicode.word(s[n])) && forall i :: 0 <= i < n ==> unicode.word(s[i])
  {
    if s == "" || !unicode.word(s[0]) then 0 else 1 + RunEnd(unicode, s[1..])
  }

  /** The end of a lexical word: runs of word characters with single joiners between them. */
  function TokenEnd(unicode: Unicode, s: string): (n: nat)
    ensures n <= |s| && (s != "" && unicode.word(s[0]) ==> n > 0)
    decreases |s|
  {
    var n := RunEnd(unicode, s);
    if 0 < n && n + 1 < |s| && Joiner(s[n]) && unicode.word(s[n + 1]) then n + 1 + TokenEnd(unicode, s[n + 1..])
    else n
  }

  /** The number of matches of the token pattern: lexical words and single punctuation characters. */
  function Count(unicode: Unicode, s: string): nat
    decreases |s|
  {
    if s == "" then 0
    else if unicode.word(s[0]) then 1 + Count(unicode, s[TokenEnd(unicode, s)..])
    else if IsSpace(s[0]) then Count(unicode, s[1..])
    else 1 + Count(unicode, s[1..])
  }

  lemma RunEndPrefix(unicode: Unicode, a: string, b: string)
    requires Sound(unicode) && (b == "" || IsSpace(b[0]))
    ensures RunEnd(unicode, a + b) == RunEnd(unicode, a)
  {
    var n, m := RunEnd(unicode, a), RunEnd(unicode, a + b);
    assert forall i :: 0 <= i < |a| ==> (a + b)[i] == a[i];
    if n == |a| && b != "" {
      assert (a + b)[n] == b[0];
    }
  }

  lemma {:induction false} TokenEndPrefix(unicode: Unicode, a: string, b: string)
    requires Sound(unicode) && (b == "" || IsSpace(b[0]))
    ensures TokenEnd(unicode, a + b) == TokenEnd(unicode, a)
    decreases |a|
  {
    RunEndPrefix(unicode, a, b);
    var n := RunEnd(unicode, a);
    if 0 < n {
      if n + 1 < |a| {
        assert (a + b)[n] == a[n] && (a + b)[n + 1] == a[n + 1];
        assert (a + b)[n + 1..] == a[n + 1..] + b;
        TokenEndPrefix(unicode, a[n + 1..], b);
      } else if n + 1 == |a| && b != "" {
        assert (a + b)[n + 1] == b[0];
      } else if n == |a| && b != "" {
        assert (a + b)[n] == b[0];
        assert !Joiner(b[0]);
      }
    }
  }

  /** No token spans white space, so counts add up across it. */
  lemma CountStep(unicode: Unicode, s: string)
    requires s != ""
    ensures var n := if unicode.word(s[0]) then TokenEnd(unicode, s) else 1;
            Count(unicode, s) == (if unicode.word(s[0]) || !IsSpace(s[0]) then 1 else 0) + Count(unicode, s[n..])
  {
    hide IsSpace, TokenEnd;
  }

  lemma Longer(a: string, b: string, n: nat)
    requires n <= |a| && a != ""
    ensures (a + b)[0] == a[0] && (a + b)[n..] == a[n..] + b
  {
  }

  lemma {:induction false} CountConcat(unicode: Unicode, a: string, b: string)
    requires Sound(unicode) && (b == "" || IsSpace(b[0]))
    ensures Count(unicode, a + b) == Count(unicode, a) + Count(unicode, b)
    decreases |a|
  {
    if a == "" {
      assert a + b == b;
    } else {
      hide IsSpace, Count, TokenEnd;
      TokenEndPrefix(unicode, a, b);
      var n := if unicode.word(a[0]) then TokenEnd(unicode, a) else 1;
      Longer(a, b, n);
      CountStep(unicode, a);
      CountStep(unicode, a + b);
      CountConcat(unicode, a[n..], b);
    }
  }

  function Tokens(unicode: Unicode, words: seq<string>): nat {
    if words == [] then 0 else Count(unicode, words[0]) + Tokens(unicode, words[1..])
  }

  lemma {:induction false} TokensConcat(unicode: Unicode, a: seq<string>, b: seq<string>)
    ensures Tokens(unicode, a + b) == Tokens(unicode, a) + Tokens(unicode, b)
  {
    if a == [] {
      assert a + b == b;
    } else {
      assert (a + b)[1..] == a[1..] + b;
      TokensConcat(unicode, a[1..], b);
    }
  }

  /** The count of a text is the sum of the counts of its words. */
  lemma {:induction false} CountIsTokens(unicode: Unicode, s: string)
    requires Sound(unicode)
    ensures Count(unicode, s) == Tokens(unicode, WordsOf(s))
    decreases |s|
  {
    if s != "" {
      if IsSpace(s[0]) {
        CountIsTokens(unicode, s[1..]);
      } else {
        var n := WordEnd(s);
        CountIsTokens(unicode, s[n..]);
        CountConcat(unicode, s[..n], s[n..]);
        assert s == s[..n] + s[n..];
        assert WordsOf(s)[1..] == WordsOf(s[n..]);
      }
    }
  }

  /** Every word counts at least one token. */
  lemma WordCounts(unicode: Unicode, w: string)
    requires IsWord(w)
    ensures Count(unicode, w) >= 1
  {
  }

  lemma {:induction false} TokensAtLeast(unicode: Unicode, words: seq<string>)
    requires forall w :: w in words ==> IsWord(w)
    ensures Tokens(unicode, words) >= |words|
    ensures Tokens(unicode, words) == |words| <==> forall w :: w in words ==> Count(unicode, w) == 1
  {
    if words != [] {
      WordCounts(unicode, words[0]);
      assert forall w :: w in words[1..] ==> w in words;
      TokensAtLeast(unicode, words[1..]);
      assert words == [words[0]] + words[1..];
    }
  }

  // ---- What the count counts -------------------------------------------------------------------

  /** From a to b the text has word characters, and hyphens and apostrophes that stand between two of them. */
  ghost predicate Lexical(unicode: Unicode, s: string, a: int, b: int)
    requires 0 <= a <= b <= |s|
  {
    forall i :: a <= i < b ==> unicode.word(s[i]) || (a < i && i + 1 < b && Joined(unicode, s, i))
  }

  ghost predicate Joined(unicode: Unicode, s: string, i: int)
    requires 0 < i && i + 1 < |s|
  {
    s[i] in ['-', '\'', 0x2019 as char] && unicode.word(s[i - 1]) && unicode.word(s[i + 1])
  }

  /** The text from a to b is a match: a lexical word that cannot go on, or one shown character that is none. */
  ghost predicate MatchAt(unicode: Unicode, s: string, a: int, b: int) {
    && 0 <= a < b <= |s|
    && if unicode.word(s[a]) then
         && Lexical(unicode, s, a, b) && unicode.word(s[b - 1])
         && (b < |s| ==> !unicode.word(s[b]) && (b + 1 < |s| ==> !Joined(unicode, s, b)))
       else b == a + 1 && !IsSpace(s[a])
  }

  lemma {:induction false} TokenMeans(unicode: Unicode, s: string)
    requires s != "" && unicode.word(s[0])
    ensures MatchAt(unicode, s, 0, TokenEnd(unicode, s))
    decreases |s|
  {
    hide IsSpace, MatchAt, RunEnd;
    var n := RunEnd(unicode, s);
    if 0 < n && n + 1 < |s| && Joiner(s[n]) && unicode.word(s[n + 1]) {
      TokenMeans(unicode, s[n + 1..]);
      MatchLonger(unicode, s, n, TokenEnd(unicode, s[n + 1..]));
    } else {
      OneRun(unicode, s, n);
    }
  }

  lemma OneRun(unicode: Unicode, s: string, n: nat)
    requires 0 < n <= |s| && (forall i :: 0 <= i < n ==> unicode.word(s[i])) && (n < |s| ==> !unicode.word(s[n]))
    requires !(n + 1 < |s| && Joiner(s[n]) && unicode.word(s[n + 1]))
    ensures MatchAt(unicode, s, 0, n)
  {
    hide IsSpace;
  }

  lemma MatchLonger(unicode: Unicode, s: string, n: nat, m: nat)
    requires 0 < n && n + 1 < |s| && Joiner(s[n]) && unicode.word(s[n + 1]) && MatchAt(unicode, s[n + 1..], 0, m)
    requires forall i :: 0 <= i < n ==> unicode.word(s[i])
    ensures MatchAt(unicode, s, 0, n + 1 + m)
  {
    hide IsSpace;
    var rest := s[n + 1..];
    assert forall i :: n < i < |s| ==> s[i] == rest[i - n - 1];
    forall i | n + 1 < i && i + 1 < |s|
      ensures Joined(unicode, s, i) <==> Joined(unicode, rest, i - n - 1)
    {
    }
  }

  /** Matches in order, the first not before `from`, with only white space around them. */
  ghost predicate MatchesAt(unicode: Unicode, s: string, from: int, spans: seq<(int, int)>)
    requires 0 <= from <= |s|
    decreases |spans|
  {
    if spans == [] then AllSpace(s[from..])
    else
      var (a, b) := spans[0];
      from <= a && MatchAt(unicode, s, a, b) && AllSpace(s[from..a]) && MatchesAt(unicode, s, b, spans[1..])
  }

  lemma SpaceFirst(s: string, from: nat, a: nat)
    requires from < a <= |s| && IsSpace(s[from]) && AllSpace(s[from + 1..a])
    ensures AllSpace(s[from..a])
  {
    assert s[from..a] == [s[from]] + s[from + 1..a];
  }

  lemma MatchShift(unicode: Unicode, s: string, from: nat, m: nat)
    requires from < |s| && unicode.word(s[from]) && MatchAt(unicode, s[from..], 0, m)
    ensures MatchAt(unicode, s, from, from + m)
  {
    hide IsSpace;
    var rest := s[from..];
    assert forall i :: from <= i < |s| ==> s[i] == rest[i - from];
    forall i | from < i && i + 1 < |s|
      ensures Joined(unicode, s, i) <==> Joined(unicode, rest, i - from)
    {
    }
  }

  /** The count is the number of matches, one after the other, that cover all that is shown. */
  lemma {:induction false} CountMeans(unicode: Unicode, s: string, from: nat) returns (spans: seq<(int, int)>)
    requires from <= |s|
    ensures MatchesAt(unicode, s, from, spans) && Count(unicode, s[from..]) == |spans|
    decreases |s| - from
  {
    hide IsSpace, MatchAt, MatchesAt, TokenEnd, AllSpace, Count;
    var rest := s[from..];
    if from == |s| {
      spans := [];
      NoMatches(unicode, s);
    } else {
      CountStep(unicode, rest);
      if unicode.word(s[from]) {
        TokenMeans(unicode, rest);
        var n := TokenEnd(unicode, rest);
        MatchShift(unicode, s, from, n);
        MatchInside(unicode, s, from, from + n);
        spans := CountMeans(unicode, s, from + n);
        assert rest[n..] == s[from + n..];
        MatchFirst(unicode, s, from, from + n, spans);
        spans := [(from, from + n)] + spans;
      } else {
        spans := CountMeans(unicode, s, from + 1);
        assert rest[1..] == s[from + 1..];
        if IsSpace(s[from]) {
          SpaceBeforeMatches(unicode, s, from, spans);
        } else {
          OneCharacter(unicode, s, from);
          MatchFirst(unicode, s, from, from + 1, spans);
          spans := [(from, from + 1)] + spans;
        }
      }
    }
  }

  lemma NoMatches(unicode: Unicode, s: string)
    ensures MatchesAt(unicode, s, |s|, []) && Count(unicode, s[|s|..]) == 0
  {
  }

  lemma MatchFirst(unicode: Unicode, s: string, a: nat, b: nat, spans: seq<(int, int)>)
    requires a < b <= |s| && MatchAt(unicode, s, a, b) && MatchesAt(unicode, s, b, spans)
    ensures MatchesAt(unicode, s, a, [(a, b)] + spans)
  {
    hide MatchAt;
    assert ([(a, b)] + spans)[1..] == spans && s[a..a] == [];
  }

  lemma MatchInside(unicode: Unicode, s: string, a: int, b: int)
    requires MatchAt(unicode, s, a, b)
    ensures 0 <= a < b <= |s|
  {
  }

  lemma OneCharacter(unicode: Unicode, s: string, a: nat)
    requires a < |s| && !unicode.word(s[a]) && !IsSpace(s[a])
    ensures MatchAt(unicode, s, a, a + 1)
  {
  }

  lemma SpaceBeforeMatches(unicode: Unicode, s: string, from: nat, spans: seq<(int, int)>)
    requires from < |s| && IsSpace(s[from]) && MatchesAt(unicode, s, from + 1, spans)
    ensures MatchesAt(unicode, s, from, spans)
  {
    hide IsSpace, AllSpace, MatchAt;
    if spans == [] {
      assert s[from + 1..] == s[from + 1..|s|] && s[from..] == s[from..|s|];
      SpaceFirst(s, from, |s|);
    } else {
      MatchInside(unicode, s, spans[0].0, spans[0].1);
      SpaceFirst(s, from, spans[0].0);
    }
  }
}
