/** Stable sorting by a total preorder, and the orders used as sort keys. */
module Sorting {
  import opened Sequences

  ghost predicate TotalPreorder<T(!new)>(le: (T, T) -> bool) {
    && (forall x, y :: le(x, y) || le(y, x))
    && (forall x, y, z :: le(x, y) && le(y, z) ==> le(x, z))
  }

  ghost predicate Sorted<T>(le: (T, T) -> bool, s: seq<T>) {
    forall i, j :: 0 <= i < j < |s| ==> le(s[i], s[j])
  }

  function Insert<T>(le: (T, T) -> bool, x: T, s: seq<T>): (r: seq<T>)
    ensures |r| == |s| + 1
    ensures multiset(r) == multiset{x} + multiset(s)
  {
    if s == [] then [x]
    else if le(x, s[0]) then [x] + s
    else
      assert s == [s[0]] + s[1..];
      [s[0]] + Insert(le, x, s[1..])
  }

  /** `sorted(s, key=...)`: elements with equal keys keep their order. */
  function Sort<T>(le: (T, T) -> bool, s: seq<T>): (r: seq<T>)
    ensures |r| == |s| && multiset(r) == multiset(s)
  {
    if s == [] then []
    else
      assert s == [s[0]] + s[1..];
      Insert(le, s[0], Sort(le, s[1..]))
  }

  lemma {:induction false} InsertSorted<T(!new)>(le: (T, T) -> bool, x: T, s: seq<T>)
    requires TotalPreorder(le) && Sorted(le, s)
    ensures Sorted(le, Insert(le, x, s))
  {
    if s != [] && !le(x, s[0]) {
      InsertSorted(le, x, s[1..]);
      var r := Insert(le, x, s[1..]);
      forall y | y in r
        ensures le(s[0], y)
      {
        assert y in multiset(r);
      }
      Prepend(le, s[0], r);
    } else if s != [] {
      forall y | y in s
        ensures le(x, y)
      {
        var i :| 0 <= i < |s| && s[i] == y;
        assert i == 0 || le(s[0], s[i]);
      }
      Prepend(le, x, s);
    }
  }

  lemma Prepend<T(!new)>(le: (T, T) -> bool, x: T, s: seq<T>)
    requires Sorted(le, s) && forall y :: y in s ==> le(x, y)
    ensures Sorted(le, [x] + s)
  {
  }

  lemma {:induction false} SortSorted<T(!new)>(le: (T, T) -> bool, s: seq<T>)
    requires TotalPreorder(le)
    ensures Sorted(le, Sort(le, s))
  {
    if s != [] {
      SortSorted(le, s[1..]);
      InsertSorted(le, s[0], Sort(le, s[1..]));
    }
  }

  /** The members that the order does not tell apart from x, in their order. */
  function AlikeIn<T>(le: (T, T) -> bool, x: T, s: seq<T>): seq<T> {
    if s == [] then []
    else (if le(x, s[0]) && le(s[0], x) then [s[0]] else []) + AlikeIn(le, x, s[1..])
  }

  lemma {:induction false} InsertStable<T(!new)>(le: (T, T) -> bool, y: T, s: seq<T>, x: T)
    requires TotalPreorder(le)
    ensures AlikeIn(le, x, Insert(le, y, s)) == AlikeIn(le, x, [y] + s)
    decreases |s|
  {
    hide TotalPreorder, AlikeIn;
    if s == [] {
      NothingAround([y]);
    } else if !le(y, s[0]) {
      InsertStable(le, y, s[1..], x);
      AlikeSwap(le, x, y, s[0], Insert(le, y, s[1..]), s[1..]);
      assert s == [s[0]] + s[1..];
    }
  }

  lemma AlikeSwap<T(!new)>(le: (T, T) -> bool, x: T, y: T, first: T, inserted: seq<T>, rest: seq<T>)
    requires TotalPreorder(le) && !le(y, first) && AlikeIn(le, x, inserted) == AlikeIn(le, x, [y] + rest)
    ensures AlikeIn(le, x, [first] + inserted) == AlikeIn(le, x, [y] + ([first] + rest))
  {
    NotAlikeBoth(le, x, y, first);
    AlikeCons(le, x, first, inserted);
    AlikeCons(le, x, y, rest);
    AlikeCons(le, x, y, [first] + rest);
    AlikeCons(le, x, first, rest);
    hide TotalPreorder, AlikeIn;
  }

  lemma AlikeCons<T>(le: (T, T) -> bool, x: T, y: T, s: seq<T>)
    ensures AlikeIn(le, x, [y] + s) ==
            if le(x, y) && le(y, x) then [y] + AlikeIn(le, x, s) else AlikeIn(le, x, s)
  {
    assert ([y] + s)[1..] == s;
  }

  lemma NotAlikeBoth<T(!new)>(le: (T, T) -> bool, x: T, a: T, b: T)
    requires TotalPreorder(le) && !le(a, b)
    ensures !(le(x, a) && le(a, x) && le(x, b) && le(b, x))
  {
    assert le(a, x) && le(x, b) ==> le(a, b);
  }

  /** Sorting keeps members with equal keys in their order. */
  lemma {:induction false} SortStable<T(!new)>(le: (T, T) -> bool, s: seq<T>, x: T)
    requires TotalPreorder(le)
    ensures AlikeIn(le, x, Sort(le, s)) == AlikeIn(le, x, s)
    decreases |s|
  {
    if s != [] {
      SortStable(le, s[1..], x);
      InsertStable(le, s[0], Sort(le, s[1..]), x);
      hide TotalPreorder, Insert;
      assert ([s[0]] + Sort(le, s[1..]))[1..] == Sort(le, s[1..]);
    }
  }

  /** Distinct members of `s` are never equivalent in the order. */
  ghost predicate Strict<T>(le: (T, T) -> bool, s: seq<T>) {
    forall x, y :: x in s && y in s && le(x, y) && le(y, x) ==> x == y
  }

  lemma MultisetTail<T>(s: seq<T>)
    requires s != []
    ensures multiset(s[1..]) == multiset(s) - multiset{s[0]}
  {
    assert s == [s[0]] + s[1..];
  }

  lemma SameTails<T>(a: seq<T>, b: seq<T>)
    requires a != [] && b != [] && a[0] == b[0] && multiset(a) == multiset(b)
    ensures multiset(a[1..]) == multiset(b[1..])
  {
    MultisetTail(a);
    MultisetTail(b);
  }

  lemma SameLength<T>(a: seq<T>, b: seq<T>)
    requires multiset(a) == multiset(b)
    ensures |a| == |b|
  {
    assert |a| == |multiset(a)| && |b| == |multiset(b)|;
  }

  lemma SortedTail<T>(le: (T, T) -> bool, s: seq<T>)
    requires Sorted(le, s) && s != []
    ensures Sorted(le, s[1..])
    ensures Strict(le, s) ==> Strict(le, s[1..])
  {
  }

  lemma SameFirst<T(!new)>(le: (T, T) -> bool, a: seq<T>, b: seq<T>)
    requires TotalPreorder(le) && Sorted(le, a) && Sorted(le, b) && multiset(a) == multiset(b) && Strict(le, a)
    requires a != [] && b != []
    ensures a[0] == b[0]
  {
    hide TotalPreorder, Sorted, Strict;
    SameMembers(a, b);
    assert a[0] in b && b[0] in a;
    Least(le, a, b[0]);
    Least(le, b, a[0]);
    StrictPair(le, a, a[0], b[0]);
  }

  lemma StrictPair<T>(le: (T, T) -> bool, s: seq<T>, x: T, y: T)
    requires Strict(le, s) && x in s && y in s && le(x, y) && le(y, x)
    ensures x == y
  {
  }

  /** A sorted sequence is determined by its members when no two of them are equivalent. */
  lemma {:induction false} SortedUnique<T(!new)>(le: (T, T) -> bool, a: seq<T>, b: seq<T>)
    requires TotalPreorder(le) && Sorted(le, a) && Sorted(le, b) && multiset(a) == multiset(b) && Strict(le, a)
    ensures a == b
    decreases |a|
  {
    hide TotalPreorder, Sorted, Strict;
    SameLength(a, b);
    if a != [] {
      SameFirst(le, a, b);
      SameTails(a, b);
      SortedTail(le, a);
      SortedTail(le, b);
      SortedUnique(le, a[1..], b[1..]);
      assert a == [a[0]] + a[1..];
      assert b == [b[0]] + b[1..];
    }
  }

  lemma Least<T(!new)>(le: (T, T) -> bool, s: seq<T>, x: T)
    requires TotalPreorder(le) && Sorted(le, s) && x in s
    ensures le(s[0], x)
  {
    var i :| 0 <= i < |s| && s[i] == x;
    assert le(s[0], s[0]);
  }

  /** Sorting does not depend on the order of the input when no two members are equivalent. */
  lemma SortIgnoresOrder<T(!new)>(le: (T, T) -> bool, a: seq<T>, b: seq<T>)
    requires TotalPreorder(le) && multiset(a) == multiset(b) && Strict(le, a)
    ensures Sort(le, a) == Sort(le, b)
  {
    SortSorted(le, a);
    SortSorted(le, b);
    StrictPermutation(le, a, Sort(le, a));
    SortedUnique(le, Sort(le, a), Sort(le, b));
  }

  lemma StrictPermutation<T(!new)>(le: (T, T) -> bool, a: seq<T>, b: seq<T>)
    requires Strict(le, a) && multiset(a) == multiset(b)
    ensures Strict(le, b)
  {
    SameMembers(a, b);
  }

  ghost predicate DistinctBy<T(!new), K(!new)>(key: T -> K, s: seq<T>) {
    forall i, j :: 0 <= i < j < |s| ==> key(s[i]) != key(s[j])
  }

  lemma TwiceCounted<T>(s: seq<T>, i: nat, j: nat)
    requires i < j < |s| && s[i] == s[j]
    ensures multiset(s)[s[i]] >= 2
  {
    assert s == s[..j] + [s[j]] + s[j + 1..];
    assert s[i] in s[..j];
  }

  lemma OnceCounted<T(!new), K(!new)>(key: T -> K, s: seq<T>, i: nat)
    requires DistinctBy(key, s) && i < |s|
    ensures multiset(s)[s[i]] == 1
  {
    assert s == s[..i] + [s[i]] + s[i + 1..];
    assert s[i] !in s[..i] && s[i] !in s[i + 1..];
    assert multiset(s) == multiset(s[..i]) + multiset{s[i]} + multiset(s[i + 1..]);
  }

  /** Reordering keeps keys distinct. */
  lemma DistinctByPermutation<T(!new), K(!new)>(key: T -> K, a: seq<T>, b: seq<T>)
    requires DistinctBy(key, a) && multiset(a) == multiset(b)
    ensures DistinctBy(key, b)
  {
    forall i, j | 0 <= i < j < |b|
      ensures key(b[i]) != key(b[j])
    {
      if key(b[i]) == key(b[j]) {
        assert b[i] in multiset(a) && b[j] in multiset(a);
        var x :| 0 <= x < |a| && a[x] == b[i];
        var y :| 0 <= y < |a| && a[y] == b[j];
        assert x == y;
        TwiceCounted(b, i, j);
        OnceCounted(key, a, x);
      }
    }
  }

  /** Reordering keeps the members. */
  lemma SameMembers<T>(a: seq<T>, b: seq<T>)
    requires multiset(a) == multiset(b)
    ensures forall x :: x in a <==> x in b
  {
    forall x
      ensures x in a <==> x in b
    {
      assert x in multiset(a) <==> x in multiset(b);
    }
  }

  // ---- Strings ---------------------------------------------------------------------------------

  /** Lexicographic order by code point. */
  predicate StringLe(a: string, b: string) {
    a == "" || (b != "" && (a[0] < b[0] || (a[0] == b[0] && StringLe(a[1..], b[1..]))))
  }

  ghost predicate FirstDifference(a: string, b: string, k: int) {
    0 <= k < |a| && k < |b| && a[..k] == b[..k] && a[k] < b[k]
  }

  /** One string is the start of the other, or the first difference decides. */
  ghost predicate InDictionaryOrder(a: string, b: string) {
    a <= b || exists k :: FirstDifference(a, b, k)
  }

  lemma {:induction false} StringLeMeans(a: string, b: string)
    ensures StringLe(a, b) <==> InDictionaryOrder(a, b)
    decreases |a|
  {
    if a != "" && b != "" {
      if a[0] == b[0] {
        StringLeMeans(a[1..], b[1..]);
        DictionaryTails(a, b);
        hide InDictionaryOrder;
      } else {
        DictionaryHeads(a, b);
      }
    }
  }

  lemma DictionaryHeads(a: string, b: string)
    requires a != "" && b != "" && a[0] != b[0]
    ensures InDictionaryOrder(a, b) <==> a[0] < b[0]
  {
    CommonStart(a, b);
    assert a[0] < b[0] ==> FirstDifference(a, b, 0);
  }

  lemma CommonStart(a: string, b: string)
    requires a != "" && b != ""
    ensures a <= b ==> a[0] == b[0]
    ensures forall k :: FirstDifference(a, b, k) && k > 0 ==> a[0] == b[0]
  {
    forall k | FirstDifference(a, b, k) && k > 0
      ensures a[0] == b[0]
    {
      assert a[..k][0] == a[0] && b[..k][0] == b[0];
    }
  }

  lemma DictionaryTails(a: string, b: string)
    requires a != "" && b != "" && a[0] == b[0]
    ensures InDictionaryOrder(a, b) <==> InDictionaryOrder(a[1..], b[1..])
  {
    assert a == [a[0]] + a[1..] && b == [b[0]] + b[1..];
    assert a <= b <==> a[1..] <= b[1..];
    forall k | FirstDifference(a, b, k)
      ensures FirstDifference(a[1..], b[1..], k - 1)
    {
      assert a[1..][..k - 1] == a[..k][1..] && b[1..][..k - 1] == b[..k][1..];
    }
    forall k | FirstDifference(a[1..], b[1..], k)
      ensures FirstDifference(a, b, k + 1)
    {
      assert a[..k + 1] == [a[0]] + a[1..][..k] && b[..k + 1] == [b[0]] + b[1..][..k];
    }
  }

  lemma {:induction false} StringTotal(a: string, b: string)
    ensures StringLe(a, b) || StringLe(b, a)
    ensures StringLe(a, b) && StringLe(b, a) ==> a == b
  {
    if a != "" && b != "" && a[0] == b[0] {
      StringTotal(a[1..], b[1..]);
      assert a == [a[0]] + a[1..] && b == [b[0]] + b[1..];
    }
  }

  lemma {:induction false} StringTransitive(a: string, b: string, c: string)
    requires StringLe(a, b) && StringLe(b, c)
    ensures StringLe(a, c)
  {
    if a != "" && b != "" && c != "" && a[0] == b[0] == c[0] {
      StringTransitive(a[1..], b[1..], c[1..]);
    }
  }

  lemma StringOrder()
    ensures TotalPreorder(StringLe)
    ensures forall a, b :: StringLe(a, b) && StringLe(b, a) ==> a == b
  {
    forall a, b
      ensures StringLe(a, b) || StringLe(b, a)
      ensures StringLe(a, b) && StringLe(b, a) ==> a == b
    {
      StringTotal(a, b);
    }
    forall a, b, c | StringLe(a, b) && StringLe(b, c)
      ensures StringLe(a, c)
    {
      StringTransitive(a, b, c);
    }
  }
}
