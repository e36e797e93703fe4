/** The string operations that the text tools share. */
module Text {
  import opened Prelude

  /** White space as `str.isspace` and `str.strip` see it. */
  predicate IsSpace(c: char) {
    var n := c as int;
    (9 <= n <= 13) || (28 <= n <= 32) || n == 0x85 || n == 0xA0 || n == 0x1680 || (0x2000 <= n <= 0x200A)
    || n == 0x2028 || n == 0x2029 || n == 0x202F || n == 0x205F || n == 0x3000
  }

  /** The characters at which `str.splitlines` ends a line. */
  predicate IsLineBreak(c: char) {
    var n := c as int;
    (10 <= n <= 13) || (28 <= n <= 30) || n == 0x85 || n == 0x2028 || n == 0x2029
  }

  function TrimLeft(s: string): string {
    if s != "" && IsSpace(s[0]) then TrimLeft(s[1..]) else s
  }

  function TrimRight(s: string): string {
    if s != "" && IsSpace(s[|s| - 1]) then TrimRight(s[..|s| - 1]) else s
  }

  function Strip(s: string): string {
    TrimRight(TrimLeft(s))
  }

  function Join(separator: string, parts: seq<string>): string {
    if parts == [] then ""
    else if |parts| == 1 then parts[0]
    else parts[0] + separator + Join(separator, parts[1..])
  }

  function FirstBreak(s: string): (n: nat)
    ensures n <= |s| && (n < |s| ==> IsLineBreak(s[n])) && forall i :: 0 <= i < n ==> !IsLineBreak(s[i])
  {
    if s == "" || IsLineBreak(s[0]) then 0 else 1 + FirstBreak(s[1..])
  }

  /** `str.splitlines`: a carriage return and the line feed after it end one line. */
  function SplitLines(s: string): seq<string>
    decreases |s|
  {
    if s == "" then []
    else
      var n := FirstBreak(s);
      if n == |s| then [s]
      else
        var next := if s[n] == '\r' && n + 1 < |s| && s[n + 1] == '\n' then n + 2 else n + 1;
        [s[..n]] + SplitLines(s[next..])
  }

  predicate IsAt(text: string, pattern: string, i: nat) {
    i + |pattern| <= |text| && text[i..i + |pattern|] == pattern
  }

  /** The first position of a pattern at or after `i`. */
  function Find(text: string, pattern: string, i: nat): (r: Option<nat>)
    requires i <= |text|
    ensures r.Some? ==> i <= r.value && IsAt(text, pattern, r.value)
    ensures forall j :: i <= j < (if r.Some? then r.value else |text| + 1) ==> !IsAt(text, pattern, j)
    decreases |text| - i
  {
    if IsAt(text, pattern, i) then Some(i)
    else if i == |text| then None
    else Find(text, pattern, i + 1)
  }

  ghost predicate BreakFree(line: string) {
    forall i :: 0 <= i < |line| ==> !IsLineBreak(line[i])
  }

  lemma {:induction false} TrimRightPrefix(s: string)
    ensures TrimRight(s) <= s
    ensures TrimRight(s) != "" ==> !IsSpace(TrimRight(s)[|TrimRight(s)| - 1])
  {
    if s != "" && IsSpace(s[|s| - 1]) { TrimRightPrefix(s[..|s| - 1]); }
  }

  ghost predicate AllSpace(s: string) {
    forall i :: 0 <= i < |s| ==> IsSpace(s[i])
  }

  /** `middle` is what is left of s between white space at both ends, and shows something at both of its own. */
  ghost predicate StripsTo(s: string, middle: string, left: nat) {
    && left + |middle| <= |s| && middle == s[left..left + |middle|]
    && AllSpace(s[..left]) && AllSpace(s[left + |middle|..])
    && (middle != "" ==> !IsSpace(middle[0]) && !IsSpace(middle[|middle| - 1]))
  }

  lemma {:induction false} TrimLeftMeans(s: string)
    ensures var n := |s| - |TrimLeft(s)|;
            0 <= n && TrimLeft(s) == s[n..] && AllSpace(s[..n]) && (n < |s| ==> !IsSpace(s[n]))
    decreases |s|
  {
    if s != "" && IsSpace(s[0]) {
      TrimLeftMeans(s[1..]);
      var n := |s| - |TrimLeft(s)|;
      assert s[1..][n - 1..] == s[n..];
      assert forall i :: 0 < i < n ==> s[i] == s[1..][..n - 1][i - 1];
    }
  }

  lemma {:induction false} TrimRightMeans(s: string)
    ensures var n := |TrimRight(s)|;
            n <= |s| && TrimRight(s) == s[..n] && AllSpace(s[n..]) && (n > 0 ==> !IsSpace(s[n - 1]))
    decreases |s|
  {
    if s != "" && IsSpace(s[|s| - 1]) {
      var init := s[..|s| - 1];
      TrimRightMeans(init);
      var n := |TrimRight(s)|;
      assert init[..n] == s[..n];
      assert forall i :: n <= i < |s| - 1 ==> s[i] == init[n..][i - n];
    }
  }

  /** Stripping takes off the white space at both ends and nothing else. */
  lemma StripMeans(s: string) returns (left: nat)
    ensures StripsTo(s, Strip(s), left)
  {
    TrimLeftMeans(s);
    TrimRightMeans(TrimLeft(s));
    var t, r := TrimLeft(s), Strip(s);
    left := |s| - |t|;
    hide TrimLeft, TrimRight, IsSpace;
    assert r == t[..|r|] == s[left..left + |r|];
    forall i | left + |r| <= i < |s|
      ensures IsSpace(s[i])
    {
      assert s[i] == t[|r|..][i - left - |r|];
    }
    assert r != "" ==> s[left] == r[0];
  }

  lemma {:induction false} JoinSnoc(separator: string, parts: seq<string>, last: string)
    requires parts != []
    ensures Join(separator, parts + [last]) == Join(separator, parts) + separator + last
  {
    if |parts| == 1 {
      assert (parts + [last])[1..] == [last];
    } else {
      assert (parts + [last])[1..] == parts[1..] + [last];
      JoinSnoc(separator, parts[1..], last);
      assert Join(separator, parts) + separator + last
          == parts[0] + separator + (Join(separator, parts[1..]) + separator + last);
    }
  }

  /** Joining puts one separator between what comes before and after any cut. */
  lemma {:induction false} JoinConcat(separator: string, a: seq<string>, b: seq<string>)
    requires a != [] && b != []
    ensures Join(separator, a + b) == Join(separator, a) + separator + Join(separator, b)
    decreases |a|
  {
    if |a| == 1 {
      assert (a + b)[1..] == b;
    } else {
      assert (a + b)[1..] == a[1..] + b;
      JoinConcat(separator, a[1..], b);
      assert a[0] + separator + (Join(separator, a[1..]) + separator + Join(separator, b)) ==
             Join(separator, a) + separator + Join(separator, b);
    }
  }

  lemma JoinOne(separator: string, part: string)
    ensures Join(separator, [part]) == part
  {
  }

  lemma FirstBreakAt(s: string, n: nat)
    requires n < |s| && BreakFree(s[..n]) && IsLineBreak(s[n])
    ensures FirstBreak(s) == n
  {
    assert forall i :: 0 <= i < n ==> s[i] == s[..n][i];
  }

  /** The first line of a text, up to its first break. */
  lemma SplitFirst(line: string, c: char, rest: string)
    requires BreakFree(line) && IsLineBreak(c) && c != '\r'
    ensures SplitLines(line + [c] + rest) == [line] + SplitLines(rest)
  {
    var s := line + [c] + rest;
    assert s[..|line|] == line && s[|line|] == c;
    FirstBreakAt(s, |line|);
    assert s[|line| + 1..] == rest;
  }

  lemma SplitOnly(line: string)
    requires BreakFree(line) && line != ""
    ensures SplitLines(line) == [line]
  {
  }

  /** Splitting the joined lines gives them back. */
  lemma {:induction false} SplitJoined(lines: seq<string>)
    requires lines != [] && lines[|lines| - 1] != ""
    requires forall i :: 0 <= i < |lines| ==> BreakFree(lines[i])
    ensures SplitLines(Join("\n", lines)) == lines
  {
    if |lines| == 1 {
      SplitOnly(lines[0]);
      assert lines == [lines[0]];
    } else {
      SplitJoined(lines[1..]);
      hide SplitLines;
      SplitFirst(lines[0], '\n', Join("\n", lines[1..]));
      assert lines == [lines[0]] + lines[1..];
      assert "\n" == ['\n'];
    }
  }
}
