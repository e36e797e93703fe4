/** The list reducer shared by the graph states. */
module Reducers {
  function AppendNew<T(==)>(left: seq<T>, right: seq<T>): seq<T>
    decreases |right|
  {
    if right == [] then left
    else AppendNew(if right[0] in left then left else left + [right[0]], right[1..])
  }

  /** `append_unique`: an empty right operand resets. */
  function AppendUnique<T(==)>(left: seq<T>, right: seq<T>): seq<T> {
    if right == [] then [] else AppendNew(left, right)
  }

  method AppendUniqueLoop<T(==)>(left: seq<T>, right: seq<T>) returns (result: seq<T>)
    ensures result == AppendUnique(left, right)
  {
    if right == [] { return []; }
    result := left;
    for i := 0 to |right|
      invariant AppendNew(result, right[i..]) == AppendNew(left, right)
    {
      assert right[i..][1..] == right[i + 1..];
      if right[i] !in result {
        result := result + [right[i]];
      }
    }
  }

  /** Items that are new and pairwise distinct are all kept, in order. */
  lemma {:induction false} AppendNewKeepsAll<T>(left: seq<T>, right: seq<T>)
    requires forall i :: 0 <= i < |right| ==> right[i] !in left
    requires forall i, j :: 0 <= i < j < |right| ==> right[i] != right[j]
    ensures AppendNew(left, right) == left + right
    decreases |right|
  {
    if right == [] {
      assert left + right == left;
    } else {
      var longer := left + [right[0]];
      assert forall k :: 0 <= k < |right[1..]| ==> right[1..][k] == right[k + 1];
      AppendNewKeepsAll(longer, right[1..]);
      assert longer + right[1..] == left + right;
    }
  }

  lemma {:induction false} AppendNewMembers<T>(left: seq<T>, right: seq<T>)
    ensures forall x :: x in AppendNew(left, right) <==> x in left || x in right
    decreases |right|
  {
    if right != [] {
      AppendNewMembers(if right[0] in left then left else left + [right[0]], right[1..]);
      assert right == [right[0]] + right[1..];
    }
  }

  lemma {:induction false} AppendNewTwice<T>(left: seq<T>, a: seq<T>, b: seq<T>)
    ensures AppendNew(left, a + b) == AppendNew(AppendNew(left, a), b)
    decreases |a|
  {
    if a == [] {
      assert a + b == b;
    } else {
      assert (a + b)[0] == a[0] && (a + b)[1..] == a[1..] + b;
      AppendNewTwice(if a[0] in left then left else left + [a[0]], a[1..], b);
    }
  }

  /** What precedes has no influence on items it does not hold. */
  lemma {:induction false} AppendNewDisjoint<T>(earlier: seq<T>, left: seq<T>, right: seq<T>)
    requires forall x :: x in right ==> x !in earlier
    ensures AppendNew(earlier + left, right) == earlier + AppendNew(left, right)
    decreases |right|
  {
    if right != [] {
      assert right[0] in right;
      AppendNewDisjoint(earlier, if right[0] in left then left else left + [right[0]], right[1..]);
      assert earlier + (left + [right[0]]) == (earlier + left) + [right[0]];
    }
  }
}
