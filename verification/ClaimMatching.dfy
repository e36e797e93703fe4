/** Distinct-claim coverage of comparison dimensions.

    `_assign_distinct_claims` is Kuhn's augmenting-path search.  A failed search leaves behind a
    set of visited claims that is fully matched and closed: every candidate of every dimension
    holding one of those claims lies in the set.  No later search can leave such a region, which
    is what makes the greedy result a maximum matching (a Koenig/Hall argument). */
module ClaimMatching {

  /** table[i] lists the claim indices that could cover dimension i. */
  type Table = seq<seq<nat>>

  /** `a` gives every dimension of `dims` its own candidate claim. */
  ghost predicate IsAssignment(table: Table, dims: set<nat>, a: map<nat, nat>) {
    && a.Keys == dims
    && (forall d :: d in dims ==> d < |table| && a[d] in table[d])
    && (forall d, e :: d in dims && e in dims && d != e ==> a[d] != a[e])
  }

  ghost predicate Matchable(table: Table, dims: set<nat>) {
    exists a :: IsAssignment(table, dims, a)
  }

  /** The dimensions of `dims` below `i`. */
  ghost function Below(dims: set<nat>, i: nat): set<nat> {
    set d | d in dims && d < i
  }

  /** A claim-to-dimension map that uses only candidates and gives no dimension two claims. */
  ghost predicate Matching(table: Table, m: map<nat, nat>) {
    && (forall c :: c in m ==> m[c] < |table| && c in table[m[c]])
    && (forall c, e :: c in m && e in m && c != e ==> m[c] != m[e])
  }

  ghost function Candidates(table: Table, d: nat): set<nat>
    requires d < |table|
  {
    set c | c in table[d]
  }

  ghost predicate CandidatesWithin(table: Table, d: nat, region: set<nat>) {
    d < |table| && Candidates(table, d) <= region
  }

  /** Every claim of `region` is held by a dimension whose candidates all lie in `bound`. */
  ghost predicate HeldWithin(table: Table, m: map<nat, nat>, region: set<nat>, bound: set<nat>) {
    forall c :: c in region ==> c in m && CandidatesWithin(table, m[c], bound)
  }

  /** What a successful search for dimension `d` that started with `visited` makes of `m`. */
  ghost predicate Augmented(table: Table, m: map<nat, nat>, m': map<nat, nat>, d: nat, visited: set<nat>) {
    && m.Keys <= m'.Keys
    && m'.Values == m.Values + {d}
    && (forall c :: c in m' ==> m'[c] < |table| && c in table[m'[c]])
    && (forall c :: c in visited ==> (c in m <==> c in m') && (c in m ==> m'[c] == m[c]))
    && (exists c :: c in m' && c !in visited && m'[c] == d)
    && (forall c, e :: c in m' && e in m' && c != e && m'[c] == m'[e] ==>
                         m'[c] == d && (c in visited || e in visited))
  }

  ghost function AllClaims(table: Table): set<nat> {
    set i: nat, c | i < |table| && c in table[i] :: c
  }

  ghost function Holders(m: map<nat, nat>, region: set<nat>): set<nat>
    requires region <= m.Keys
  {
    set c | c in region :: m[c]
  }

  class Matcher {
    const table: Table
    var assignments: map<nat, nat>
    var visited: set<nat>

    constructor (table: Table)
      ensures this.table == table && assignments == map[] && visited == {}
    {
      this.table := table;
      assignments := map[];
      visited := {};
    }

    /** The nested `assign`.  `region` is any closed region left by earlier failed searches. */
    method Assign(d: nat, ghost region: set<nat>) returns (ok: bool)
      requires d < |table| && Matching(table, assignments)
      requires forall c :: c in assignments && assignments[c] == d ==> c in visited
      requires HeldWithin(table, assignments, region, region)
      modifies this
      ensures old(visited) <= visited
      ensures ok ==> Augmented(table, old(assignments), assignments, d, old(visited))
      ensures !ok ==> assignments == old(assignments) && CandidatesWithin(table, d, visited)
      ensures !ok ==> HeldWithin(table, assignments, visited - old(visited), visited)
      ensures CandidatesWithin(table, d, region) ==> !ok
      ensures forall c :: c in region ==> c in assignments && assignments[c] == old(assignments)[c]
      decreases AllClaims(table) - visited
    {
      for i := 0 to |table[d]|
        invariant old(visited) <= visited && assignments == old(assignments)
        invariant forall j :: 0 <= j < i ==> table[d][j] in visited
        invariant HeldWithin(table, assignments, visited - old(visited), visited)
      {
        var claim := table[d][i];
        if claim in visited { continue; }
        assert claim in AllClaims(table) by {
          assert claim in table[d];
        }
        ghost var before := visited;
        visited := visited + {claim};
        if claim !in assignments {
          FreeClaim(table, assignments, d, claim, old(visited));
          assignments := assignments[claim := d];
          return true;
        }
        var previous := assignments[claim];
        ghost var entry := visited;
        var moved := Assign(previous, region);
        if moved {
          Reassigned(table, old(assignments), assignments, previous, d, claim, old(visited), entry);
          assignments := assignments[claim := d];
          return true;
        }
        HeldStep(table, assignments, old(visited), before, claim, visited);
      }
      ok := false;
    }
  }

  lemma FreeClaim(table: Table, m: map<nat, nat>, d: nat, claim: nat, visited: set<nat>)
    requires Matching(table, m) && d < |table| && claim in table[d]
    requires forall c :: c in m && m[c] == d ==> c in visited
    requires claim !in m && claim !in visited
    ensures Augmented(table, m, m[claim := d], d, visited)
  {
    var m' := m[claim := d];
    assert m'[claim] == d;
    forall v | v in m.Values + {d}
      ensures v in m'.Values
    {
      if v != d {
        var c :| c in m && m[c] == v;
        assert m'[c] == v;
      }
    }
    assert forall v :: v in m'.Values ==> v in m.Values + {d};
  }

  lemma HeldStep(table: Table, m: map<nat, nat>, start: set<nat>, before: set<nat>, claim: nat, after: set<nat>)
    requires start <= before && before + {claim} <= after && claim in m
    requires HeldWithin(table, m, before - start, before) && CandidatesWithin(table, m[claim], after)
    requires HeldWithin(table, m, after - (before + {claim}), after)
    ensures HeldWithin(table, m, after - start, after)
  {
    forall c | c in after - start
      ensures c in m && CandidatesWithin(table, m[c], after)
    {
      if c in before {
        assert CandidatesWithin(table, m[c], before);
      }
    }
  }

  /** Handing `claim` over to `d` after its former holder found another claim. */
  lemma Reassigned(table: Table, m: map<nat, nat>, m1: map<nat, nat>, previous: nat, d: nat, claim: nat,
                   visited: set<nat>, entry: set<nat>)
    requires Matching(table, m) && d < |table| && claim in table[d]
    requires forall c :: c in m && m[c] == d ==> c in visited
    requires claim in m && m[claim] == previous && claim in entry && claim !in visited && visited <= entry
    requires Augmented(table, m, m1, previous, entry)
    ensures Augmented(table, m, m1[claim := d], d, visited)
  {
    hide Candidates, AllClaims;
    ReassignedValues(table, m, m1, previous, d, claim, entry);
    assert previous != d;
    KeepsToVisited(table, m, m1, previous, d, visited, entry);
    assert m1[claim := d][claim] == d;
  }

  lemma KeepsToVisited(table: Table, m: map<nat, nat>, m1: map<nat, nat>, previous: nat, d: nat,
                       visited: set<nat>, entry: set<nat>)
    requires previous in m.Values && previous != d && visited <= entry
    requires forall c :: c in m && m[c] == d ==> c in visited
    requires Augmented(table, m, m1, previous, entry)
    ensures forall e :: e in m1 && m1[e] == d ==> e in visited
  {
    assert d in m.Values ==> exists held :: held in m && m[held] == d && m1[held] == d;
    forall e | e in m1 && m1[e] == d
      ensures e in visited
    {
      assert d in m1.Values;
    }
  }

  lemma ReassignedValues(table: Table, m: map<nat, nat>, m1: map<nat, nat>, previous: nat, d: nat, claim: nat,
                         entry: set<nat>)
    requires claim in m && m[claim] == previous && claim in entry
    requires Augmented(table, m, m1, previous, entry)
    ensures m1[claim := d].Values == m.Values + {d}
  {
    assert previous in m.Values;
    assert m1.Values == m.Values;
    assert exists c :: c in m1 && c != claim && m1[c] == previous;
    assert claim in m1 && m1[claim] == previous;
    hide Augmented;
    ValuesReplaced(m1, claim, d);
  }

  /** Replacing a value that another key holds too loses no value. */
  lemma ValuesReplaced(m: map<nat, nat>, key: nat, d: nat)
    requires key in m && exists c :: c in m && c != key && m[c] == m[key]
    ensures m[key := d].Values == m.Values + {d}
  {
    var m2 := m[key := d];
    assert m2[key] == d;
    forall v | v in m.Values
      ensures v in m2.Values
    {
      var c :| c in m && m[c] == v && (v == m[key] ==> c != key);
      assert m2[c] == v;
    }
    forall v | v in m2.Values
      ensures v in m.Values + {d}
    {
      var c :| c in m2 && m2[c] == v;
      assert c != key ==> m[c] == v;
    }
  }

  /** Among the first `i` dimensions, one is left out exactly when it cannot join those covered before it. */
  ghost predicate GreedyUpTo(table: Table, covered: set<nat>, i: nat) {
    forall d: nat :: d < i ==> (d in covered <==> Matchable(table, Below(covered, d) + {d}))
  }

  /** The search state after `i` dimensions; `region` unites the visited sets of the failed searches. */
  ghost predicate Progress(table: Table, m: map<nat, nat>, region: set<nat>, covered: set<nat>, i: nat) {
    && Matching(table, m)
    && m.Values == covered
    && (forall d :: d in covered ==> d < i)
    && HeldWithin(table, m, region, region)
    && (forall d: nat :: d < i && d !in covered ==> CandidatesWithin(table, d, region))
    && GreedyUpTo(table, covered, i)
  }

  /** `_assign_distinct_claims`: the covered dimensions. */
  method AssignDistinctClaims(table: Table) returns (covered: set<nat>)
    ensures forall d :: d in covered ==> d < |table|
    // The covered dimensions have pairwise distinct claims ...
    ensures Matchable(table, covered)
    // ... no set of dimensions that has is larger ...
    ensures forall dims :: Matchable(table, dims) ==> |dims| <= |covered|
    // ... and a dimension is left out exactly when it cannot join those covered before it.
    ensures GreedyUpTo(table, covered, |table|)
  {
    var matcher := new Matcher(table);
    covered := {};
    ghost var region: set<nat> := {};
    for i := 0 to |table|
      invariant fresh(matcher) && matcher.table == table
      invariant Progress(table, matcher.assignments, region, covered, i)
    {
      ghost var m := matcher.assignments;
      matcher.visited := {};
      NotYetHeld(table, m, region, covered, i);
      var ok := matcher.Assign(i, region);
      if ok {
        CoverStep(table, m, matcher.assignments, region, covered, i);
        covered := covered + {i};
      } else {
        assert matcher.visited - {} == matcher.visited;
        LeaveStep(table, m, region, matcher.visited, covered, i);
        region := region + matcher.visited;
      }
    }
    MatchingCovers(table, matcher.assignments);
    forall dims | Matchable(table, dims)
      ensures |dims| <= |covered|
    {
      CoveredIsMaximum(table, matcher.assignments, region, dims);
    }
  }

  lemma NotYetHeld(table: Table, m: map<nat, nat>, region: set<nat>, covered: set<nat>, i: nat)
    requires Progress(table, m, region, covered, i)
    ensures forall c :: c in m ==> m[c] != i
  {
    assert forall c :: c in m ==> m[c] in m.Values;
  }

  lemma HeldUnchanged(table: Table, m: map<nat, nat>, m': map<nat, nat>, region: set<nat>)
    requires HeldWithin(table, m, region, region) && forall c :: c in region ==> c in m' && m'[c] == m[c]
    ensures HeldWithin(table, m', region, region)
  {
    hide CandidatesWithin;
  }

  lemma AugmentedIsMatching(table: Table, m: map<nat, nat>, m': map<nat, nat>, d: nat)
    requires Augmented(table, m, m', d, {})
    ensures Matching(table, m') && m'.Values == m.Values + {d}
  {
  }

  lemma CoverStep(table: Table, m: map<nat, nat>, m': map<nat, nat>, region: set<nat>, covered: set<nat>, i: nat)
    requires Progress(table, m, region, covered, i) && i < |table|
    requires Augmented(table, m, m', i, {}) && forall c :: c in region ==> c in m' && m'[c] == m[c]
    ensures Progress(table, m', region, covered + {i}, i + 1)
  {
    hide Matchable, Augmented, Matching, CandidatesWithin, HeldWithin, GreedyUpTo;
    AugmentedIsMatching(table, m, m', i);
    MatchingCovers(table, m');
    HeldUnchanged(table, m, m', region);
    GreedyStep(table, covered, covered + {i}, i);
  }

  lemma LeaveStep(table: Table, m: map<nat, nat>, region: set<nat>, visited: set<nat>, covered: set<nat>, i: nat)
    requires Progress(table, m, region, covered, i) && i < |table|
    requires HeldWithin(table, m, visited, visited) && CandidatesWithin(table, i, visited)
    ensures Progress(table, m, region + visited, covered, i + 1)
  {
    hide Matchable, Matching, GreedyUpTo, IsAssignment;
    ClosedRegionBlocks(table, m, visited, i);
    GreedyStep(table, covered, covered, i);
  }

  lemma GreedyStep(table: Table, covered: set<nat>, covered': set<nat>, i: nat)
    requires GreedyUpTo(table, covered, i) && forall d :: d in covered ==> d < i
    requires covered' == covered || covered' == covered + {i}
    requires i in covered' <==> Matchable(table, covered + {i})
    ensures GreedyUpTo(table, covered', i + 1)
  {
    forall d: nat | d < i + 1
      ensures d in covered' <==> Matchable(table, Below(covered', d) + {d})
    {
      assert Below(covered', d) == Below(covered, d);
      assert Below(covered, i) == covered;
    }
  }

  lemma MatchingCovers(table: Table, m: map<nat, nat>)
    requires Matching(table, m)
    ensures Matchable(table, m.Values)
  {
    var a := map d | d in m.Values :: var c :| c in m && m[c] == d; c;
    assert IsAssignment(table, m.Values, a);
  }

  lemma {:induction false} InjectionBound(s: set<nat>, f: map<nat, nat>, target: set<nat>)
    requires forall x :: x in s ==> x in f && f[x] in target
    requires forall x, y :: x in s && y in s && x != y ==> f[x] != f[y]
    ensures |s| <= |target|
  {
    if s != {} {
      var x :| x in s;
      InjectionBound(s - {x}, f, target - {f[x]});
    }
  }

  lemma {:induction false} HoldersCount(m: map<nat, nat>, region: set<nat>)
    requires region <= m.Keys
    requires forall c, e :: c in m && e in m && c != e ==> m[c] != m[e]
    ensures |Holders(m, region)| == |region|
  {
    if region == {} {
      assert Holders(m, region) == {};
    } else {
      var c :| c in region;
      HoldersCount(m, region - {c});
      assert Holders(m, region) == Holders(m, region - {c}) + {m[c]};
      assert m[c] !in Holders(m, region - {c});
    }
  }

  lemma ConfinedBound(table: Table, a: map<nat, nat>, dims: set<nat>, confined: set<nat>, region: set<nat>)
    requires IsAssignment(table, dims, a) && confined <= dims
    requires forall d :: d in confined ==> CandidatesWithin(table, d, region)
    ensures |confined| <= |region|
  {
    forall d | d in confined
      ensures d in a && a[d] in region
    {
      assert a[d] in Candidates(table, d);
    }
    InjectionBound(confined, a, region);
  }

  /** Hall: a closed, fully matched region keeps every further dimension confined to it unmatched. */
  lemma ClosedRegionBlocks(table: Table, m: map<nat, nat>, region: set<nat>, i: nat)
    requires Matching(table, m) && i !in m.Values
    requires HeldWithin(table, m, region, region) && CandidatesWithin(table, i, region)
    ensures !Matchable(table, m.Values + {i})
  {
    var holders := Holders(m, region);
    HoldersCount(m, region);
    assert |holders + {i}| == |region| + 1;
    forall a | IsAssignment(table, m.Values + {i}, a)
      ensures false
    {
      ConfinedBound(table, a, m.Values + {i}, holders + {i}, region);
    }
  }

  /** Koenig: the dimensions that are uncovered or hold a region claim compete for the region. */
  lemma CoveredIsMaximum(table: Table, m: map<nat, nat>, region: set<nat>, dims: set<nat>)
    requires Matching(table, m) && HeldWithin(table, m, region, region)
    requires forall d: nat :: d < |table| && d !in m.Values ==> CandidatesWithin(table, d, region)
    requires Matchable(table, dims)
    ensures |dims| <= |m.Values|
  {
    var a :| IsAssignment(table, dims, a);
    var holders := Holders(m, region);
    HoldersCount(m, region);
    var confined := set d | d in dims && (d !in m.Values || d in holders);
    assert forall d :: d in confined ==> CandidatesWithin(table, d, region);
    ConfinedBound(table, a, dims, confined, region);
    SplitBound(dims, confined, m.Values, holders);
  }

  lemma SplitBound(dims: set<nat>, confined: set<nat>, covered: set<nat>, holders: set<nat>)
    requires holders <= covered && confined <= dims && dims - confined <= covered - holders
    requires |confined| <= |holders|
    ensures |dims| <= |covered|
  {
    Cardinality(dims - confined, covered - holders);
    assert covered == holders + (covered - holders);
    assert dims == confined + (dims - confined);
  }

  lemma {:induction false} Cardinality(s: set<nat>, t: set<nat>)
    requires s <= t
    ensures |s| <= |t|
  {
    if s != {} {
      var x :| x in s;
      Cardinality(s - {x}, t - {x});
    }
  }

  /** The set the greedy rule determines: dimension d joins exactly when it fits those before it. */
  ghost function GreedyCover(table: Table, n: nat): set<nat> {
    if n == 0 then {}
    else
      var earlier := GreedyCover(table, n - 1);
      if Matchable(table, earlier + {n - 1}) then earlier + {n - 1} else earlier
  }

  lemma {:induction false} GreedyIsUnique(table: Table, covered: set<nat>, n: nat)
    requires GreedyUpTo(table, covered, n)
    ensures Below(covered, n) == GreedyCover(table, n)
    decreases n
  {
    hide Matchable, Below;
    if n == 0 {
      NothingBelow(covered);
    } else {
      GreedyBefore(table, covered, n - 1);
      hide GreedyUpTo;
      GreedyIsUnique(table, covered, n - 1);
      BelowStep(covered, n - 1);
    }
  }

  lemma NothingBelow(dims: set<nat>)
    ensures Below(dims, 0) == {}
  {
  }

  lemma GreedyBefore(table: Table, covered: set<nat>, n: nat)
    requires GreedyUpTo(table, covered, n + 1)
    ensures GreedyUpTo(table, covered, n)
    ensures n in covered <==> Matchable(table, Below(covered, n) + {n})
  {
    hide Matchable, Below;
  }

  lemma BelowStep(dims: set<nat>, i: nat)
    ensures Below(dims, i + 1) == if i in dims then Below(dims, i) + {i} else Below(dims, i)
  {
  }

  // ---- The draft validation that uses the matching -------------------------------------------

  /** `mentions` and `facets` hold the dimensions and shared facets the claim's text speaks about. */
  datatype Claim = Claim(factual: bool, evidence: set<string>, mentions: set<string>, facets: set<string>)

  datatype Requirement = Requirement(dimension: string, evidence: set<string>)

  datatype DraftError = CitationError(text: string) | DimensionUncovered | EvidenceCalledAbsent | FacetsUncovered

  datatype Validation = Validation(valid: bool, errors: seq<DraftError>)

  function Factual(claims: seq<Claim>): seq<Claim> {
    if claims == [] then []
    else (if claims[0].factual then [claims[0]] else []) + Factual(claims[1..])
  }

  predicate Supports(claim: Claim, requirement: Requirement) {
    claim.evidence * requirement.evidence != {} && requirement.dimension in claim.mentions
  }

  function Supporting(claims: seq<Claim>, requirement: Requirement): (r: seq<nat>)
    ensures forall k: nat :: k in r <==> k < |claims| && Supports(claims[k], requirement)
  {
    if claims == [] then []
    else
      var n := |claims| - 1;
      Supporting(claims[..n], requirement) + (if Supports(claims[n], requirement) then [n] else [])
  }

  function CandidateTable(requirements: seq<Requirement>, claims: seq<Claim>): (t: Table)
    ensures |t| == |requirements|
  {
    seq(|requirements|, i requires 0 <= i < |requirements| => Supporting(claims, requirements[i]))
  }

  function MissingDimensions(requirements: seq<Requirement>, covered: set<nat>): seq<string> {
    if requirements == [] then []
    else
      var n := |requirements| - 1;
      MissingDimensions(requirements[..n], covered) + (if n in covered then [] else [requirements[n].dimension])
  }

  lemma {:induction false} NothingMissing(requirements: seq<Requirement>, covered: set<nat>)
    ensures MissingDimensions(requirements, covered) == [] <==> forall i: nat :: i < |requirements| ==> i in covered
  {
    if requirements == [] {
    } else {
      NothingMissing(requirements[..|requirements| - 1], covered);
    }
  }

  /** The positions of the requirements that are not covered, in increasing order. */
  ghost predicate UncoveredAt(n: nat, covered: set<nat>, at: seq<nat>) {
    && (forall i :: 0 <= i < |at| ==> at[i] < n && at[i] !in covered)
    && (forall k :: 0 <= k < n && k !in covered ==> k in at)
    && forall i, j :: 0 <= i < j < |at| ==> at[i] < at[j]
  }

  /** What is missing are the dimensions of exactly the uncovered requirements, in their order. */
  lemma {:induction false} MissingMeans(requirements: seq<Requirement>, covered: set<nat>) returns (at: seq<nat>)
    ensures UncoveredAt(|requirements|, covered, at)
    ensures var missing := MissingDimensions(requirements, covered);
            |missing| == |at| && forall i :: 0 <= i < |at| ==> missing[i] == requirements[at[i]].dimension
    decreases |requirements|
  {
    if requirements == [] {
      at := [];
    } else {
      var n := |requirements| - 1;
      at := MissingMeans(requirements[..n], covered);
      UncoveredMore(n, covered, at);
      at := at + if n in covered then [] else [n];
      hide UncoveredAt;
    }
  }

  lemma UncoveredMore(n: nat, covered: set<nat>, at: seq<nat>)
    requires UncoveredAt(n, covered, at)
    ensures UncoveredAt(n + 1, covered, at + if n in covered then [] else [n])
  {
    if n !in covered { assert (at + [n])[|at|] == n; }
  }

  /** The positions of the factual claims, in order. */
  ghost predicate FactualAt(claims: seq<Claim>, at: seq<nat>) {
    && (forall k :: 0 <= k < |at| ==> at[k] < |claims| && claims[at[k]].factual)
    && (forall k, l :: 0 <= k < l < |at| ==> at[k] < at[l])
    && forall i :: 0 <= i < |claims| && claims[i].factual ==> i in at
  }

  lemma {:induction false} FactualConcat(a: seq<Claim>, b: seq<Claim>)
    ensures Factual(a + b) == Factual(a) + Factual(b)
    decreases |a|
  {
    hide Factual;
    if a == [] {
      assert a + b == b;
      NoFactual();
    } else {
      FactualConcat(a[1..], b);
      FactualCons(a[0], a[1..]);
      FactualCons(a[0], a[1..] + b);
      assert a == [a[0]] + a[1..] && a + b == [a[0]] + (a[1..] + b);
      var first := if a[0].factual then [a[0]] else [];
      assert first + (Factual(a[1..]) + Factual(b)) == (first + Factual(a[1..])) + Factual(b);
    }
  }

  lemma FactualCons(claim: Claim, rest: seq<Claim>)
    ensures Factual([claim] + rest) == (if claim.factual then [claim] else []) + Factual(rest)
  {
    assert ([claim] + rest)[1..] == rest;
  }

  /** Exactly the factual claims are considered, in their order. */
  lemma {:induction false} FactualMeans(claims: seq<Claim>) returns (at: seq<nat>)
    ensures FactualAt(claims, at)
    ensures |Factual(claims)| == |at|
    ensures forall k :: 0 <= k < |at| ==> at[k] < |claims| && Factual(claims)[k] == claims[at[k]]
    decreases |claims|
  {
    hide Factual, FactualAt;
    if claims == [] {
      at := [];
      NoFactual();
    } else {
      var n := |claims| - 1;
      at := FactualMeans(claims[..n]);
      FactualSnoc(claims);
      if claims[n].factual {
        FactualAdded(claims, at);
        at := at + [n];
      } else {
        FactualKept(claims, at);
      }
    }
  }

  lemma NoFactual()
    ensures Factual([]) == []
    ensures FactualAt([], [])
  {
  }

  lemma FactualSnoc(claims: seq<Claim>)
    requires claims != []
    ensures var n := |claims| - 1;
            Factual(claims) == if claims[n].factual then Factual(claims[..n]) + [claims[n]] else Factual(claims[..n])
  {
    hide Factual;
    var n := |claims| - 1;
    assert claims == claims[..n] + [claims[n]];
    FactualConcat(claims[..n], [claims[n]]);
    FactualOne(claims[n]);
    assert Factual(claims[..n]) + [] == Factual(claims[..n]);
  }

  lemma FactualOne(claim: Claim)
    ensures Factual([claim]) == if claim.factual then [claim] else []
  {
    assert [claim][1..] == [];
  }

  lemma FactualKept(claims: seq<Claim>, at: seq<nat>)
    requires claims != [] && !claims[|claims| - 1].factual && FactualAt(claims[..|claims| - 1], at)
    ensures FactualAt(claims, at)
  {
    var n := |claims| - 1;
    assert forall i :: 0 <= i < n ==> claims[..n][i] == claims[i];
  }

  lemma FactualAdded(claims: seq<Claim>, at: seq<nat>)
    requires claims != [] && claims[|claims| - 1].factual && FactualAt(claims[..|claims| - 1], at)
    ensures FactualAt(claims, at + [|claims| - 1])
  {
    var n := |claims| - 1;
    var more := at + [n];
    assert more[|at|] == n && forall k :: 0 <= k < |at| ==> more[k] == at[k];
    forall i | 0 <= i < n && claims[i].factual
      ensures i in more
    {
      assert claims[..n][i] == claims[i];
      var k :| 0 <= k < |at| && at[k] == i;
      assert more[k] == i;
    }
  }

  predicate CitesEveryDimension(claim: Claim, requirements: seq<Requirement>) {
    forall r :: r in requirements ==> claim.evidence * r.evidence != {}
  }

  predicate SharedFacetsStated(claims: seq<Claim>, requirements: seq<Requirement>, facets: set<string>) {
    facets == {} || exists c :: c in claims && CitesEveryDimension(c, requirements) && facets <= c.facets
  }

  /** There are no shared facets, or one of the claims states them all and cites evidence of every requirement. */
  ghost predicate FacetsStated(claims: seq<Claim>, requirements: seq<Requirement>, facets: set<string>) {
    facets != {} ==> exists i :: 0 <= i < |claims| && StatesFacets(claims[i], requirements, facets)
  }

  ghost predicate StatesFacets(claim: Claim, requirements: seq<Requirement>, facets: set<string>) {
    && (forall facet :: facet in facets ==> facet in claim.facets)
    && forall k :: 0 <= k < |requirements| ==> Cites(claim, requirements[k])
  }

  lemma FacetsMean(claims: seq<Claim>, requirements: seq<Requirement>, facets: set<string>)
    ensures SharedFacetsStated(claims, requirements, facets) <==> FacetsStated(claims, requirements, facets)
  {
    hide CitesEveryDimension, StatesFacets;
    forall i | 0 <= i < |claims|
      ensures CitesEveryDimension(claims[i], requirements) && facets <= claims[i].facets <==>
              StatesFacets(claims[i], requirements, facets)
    {
      StatementMeans(claims[i], requirements, facets);
    }
  }

  lemma StatementMeans(claim: Claim, requirements: seq<Requirement>, facets: set<string>)
    ensures CitesEveryDimension(claim, requirements) && facets <= claim.facets <==>
            StatesFacets(claim, requirements, facets)
  {
    hide Cites;
    forall r: Requirement
      ensures claim.evidence * r.evidence != {} <==> Cites(claim, r)
    {
      CitesMeans(claim, r);
    }
    if CitesEveryDimension(claim, requirements) {
      assert forall k :: 0 <= k < |requirements| ==> requirements[k] in requirements;
    }
  }

  ghost function AllDimensions(n: nat): (all: set<nat>)
    ensures forall d: nat :: d in all <==> d < n
  {
    if n == 0 then {} else AllDimensions(n - 1) + {n - 1}
  }

  ghost predicate OwnClaims(requirements: seq<Requirement>, factual: seq<Claim>, own: seq<nat>) {
    && |own| == |requirements|
    && (forall i :: 0 <= i < |own| ==>
          && own[i] < |factual| && requirements[i].dimension in factual[own[i]].mentions
          && Cites(factual[own[i]], requirements[i]))
    && (forall i, j :: 0 <= i < j < |own| ==> own[i] != own[j])
  }

  /** The claim cites some evidence of the requirement. */
  ghost predicate Cites(claim: Claim, requirement: Requirement) {
    exists e :: e in claim.evidence && e in requirement.evidence
  }

  lemma CitesMeans(claim: Claim, requirement: Requirement)
    ensures claim.evidence * requirement.evidence != {} <==> Cites(claim, requirement)
  {
    if Cites(claim, requirement) {
      var e :| e in claim.evidence && e in requirement.evidence;
      assert e in claim.evidence * requirement.evidence;
    }
  }

  lemma SupportsMeans(claim: Claim, requirement: Requirement)
    ensures Supports(claim, requirement) <==> requirement.dimension in claim.mentions && Cites(claim, requirement)
  {
    CitesMeans(claim, requirement);
  }

  /** Every requirement has a factual claim of its own that cites its evidence and speaks about it. */
  ghost predicate EachHasOwnClaim(requirements: seq<Requirement>, factual: seq<Claim>) {
    exists own :: OwnClaims(requirements, factual, own)
  }

  lemma OwnClaimsMatch(requirements: seq<Requirement>, factual: seq<Claim>, own: seq<nat>)
    requires OwnClaims(requirements, factual, own)
    ensures Matchable(CandidateTable(requirements, factual), AllDimensions(|requirements|))
  {
    hide Supports, IsAssignment, Cites;
    var n, table := |requirements|, CandidateTable(requirements, factual);
    var a := map d | d in AllDimensions(n) :: own[d];
    forall d | d in AllDimensions(n)
      ensures a[d] in table[d]
    {
      SupportsMeans(factual[own[d]], requirements[d]);
      assert Supports(factual[own[d]], requirements[d]);
    }
    hide CandidateTable;
    OwnIsAssignment(table, own, a);
  }

  lemma OwnIsAssignment(table: Table, own: seq<nat>, a: map<nat, nat>)
    requires |own| == |table| && a.Keys == AllDimensions(|table|)
    requires forall d :: d in a ==> a[d] == own[d] && a[d] in table[d]
    requires forall i, j :: 0 <= i < j < |own| ==> own[i] != own[j]
    ensures IsAssignment(table, AllDimensions(|table|), a)
  {
  }

  lemma MatchingGivesOwnClaims(requirements: seq<Requirement>, factual: seq<Claim>, a: map<nat, nat>)
    requires IsAssignment(CandidateTable(requirements, factual), AllDimensions(|requirements|), a)
    ensures EachHasOwnClaim(requirements, factual)
  {
    hide Supports, IsAssignment, CandidateTable, AllDimensions;
    var n := |requirements|;
    forall i: nat | i < n
      ensures i in a && a[i] < |factual| && Supports(factual[a[i]], requirements[i])
    {
      AssignedSupports(requirements, factual, a, i);
    }
    var own := Values(a, n);
    DistinctValues(CandidateTable(requirements, factual), AllDimensions(n), a, own);
    ValuesAreOwn(requirements, factual, a, own);
  }

  lemma ValuesAreOwn(requirements: seq<Requirement>, factual: seq<Claim>, a: map<nat, nat>, own: seq<nat>)
    requires |own| == |requirements|
    requires forall i: nat :: i < |own| ==> i in a && own[i] == a[i]
    requires forall i: nat :: i < |own| ==> i in a && a[i] < |factual| && Supports(factual[a[i]], requirements[i])
    requires forall i, j :: 0 <= i < j < |own| ==> own[i] != own[j]
    ensures EachHasOwnClaim(requirements, factual)
  {
    hide Supports, Cites;
    forall i | 0 <= i < |own|
      ensures own[i] < |factual| && requirements[i].dimension in factual[own[i]].mentions
      ensures Cites(factual[own[i]], requirements[i])
    {
      assert i in a && own[i] == a[i];
      SupportsMeans(factual[own[i]], requirements[i]);
    }
    assert OwnClaims(requirements, factual, own);
  }

  ghost function Values(a: map<nat, nat>, n: nat): (own: seq<nat>)
    requires forall i: nat :: i < n ==> i in a
    ensures |own| == n && forall i: nat :: i < n ==> own[i] == a[i]
  {
    if n == 0 then [] else Values(a, n - 1) + [a[n - 1]]
  }

  lemma AssignedSupports(requirements: seq<Requirement>, factual: seq<Claim>, a: map<nat, nat>, i: nat)
    requires IsAssignment(CandidateTable(requirements, factual), AllDimensions(|requirements|), a)
    requires i < |requirements|
    ensures i in a && a[i] < |factual| && Supports(factual[a[i]], requirements[i])
  {
    hide Supporting, Supports, AllDimensions;
    assert i in AllDimensions(|requirements|);
    assert a[i] in Supporting(factual, requirements[i]);
  }

  lemma DistinctValues(table: Table, dims: set<nat>, a: map<nat, nat>, own: seq<nat>)
    requires IsAssignment(table, dims, a)
    requires forall i: nat :: i < |own| ==> i in a && own[i] == a[i]
    ensures forall i, j :: 0 <= i < j < |own| ==> own[i] != own[j]
  {
  }

  lemma OwnClaimsAreAMatching(requirements: seq<Requirement>, factual: seq<Claim>)
    ensures EachHasOwnClaim(requirements, factual)
       <==> Matchable(CandidateTable(requirements, factual), AllDimensions(|requirements|))
  {
    if EachHasOwnClaim(requirements, factual) {
      var own :| OwnClaims(requirements, factual, own);
      OwnClaimsMatch(requirements, factual, own);
    }
    if Matchable(CandidateTable(requirements, factual), AllDimensions(|requirements|)) {
      var a :| IsAssignment(CandidateTable(requirements, factual), AllDimensions(|requirements|), a);
      MatchingGivesOwnClaims(requirements, factual, a);
    }
  }

  lemma FullCoverage(table: Table, covered: set<nat>)
    requires forall d :: d in covered ==> d < |table|
    requires Matchable(table, covered)
    requires forall dims :: Matchable(table, dims) ==> |dims| <= |covered|
    ensures (forall i: nat :: i < |table| ==> i in covered) <==> Matchable(table, AllDimensions(|table|))
  {
    FullSet(covered, |table|);
  }

  lemma FullSet(covered: set<nat>, n: nat)
    requires forall d :: d in covered ==> d < n
    ensures |AllDimensions(n)| <= |covered| ==> covered == AllDimensions(n)
    ensures (forall i: nat :: i < n ==> i in covered) ==> covered == AllDimensions(n)
  {
    var all := AllDimensions(n);
    assert covered <= all;
    assert all == covered + (all - covered);
  }

  /** `assigned` and the missing dimensions of one draft. */
  method UncoveredDimensions(requirements: seq<Requirement>, factual: seq<Claim>) returns (missing: seq<string>)
    ensures missing == [] <==> EachHasOwnClaim(requirements, factual)
    ensures var table := CandidateTable(requirements, factual);
            missing == MissingDimensions(requirements, GreedyCover(table, |table|))
  {
    var table := CandidateTable(requirements, factual);
    var covered := AssignDistinctClaims(table);
    GreedyIsUnique(table, covered, |table|);
    assert Below(covered, |table|) == covered;
    FullCoverage(table, covered);
    OwnClaimsAreAMatching(requirements, factual);
    NothingMissing(requirements, covered);
    missing := MissingDimensions(requirements, covered);
  }

  /** `_validate_comparison_draft`.  `absence` tells whether the draft describes evidence as missing. */
  method ValidateComparisonDraft(prior: Validation, claims: seq<Claim>, requirements: seq<Requirement>,
                                 facets: set<string>, absence: bool)
    returns (result: Validation, unvalidated: seq<string>)
    ensures requirements == [] ==> result == prior && unvalidated == []
    ensures requirements != [] ==>
              var factual := Factual(claims);
              var covered := EachHasOwnClaim(requirements, factual);
              var facetsStated := FacetsStated(factual, requirements, facets);
              var errors := prior.errors + (if covered then [] else [DimensionUncovered])
                                         + (if absence then [EvidenceCalledAbsent] else [])
                                         + (if facetsStated then [] else [FacetsUncovered]);
              if errors == [] then result == prior && unvalidated == []
              else
                && result == Validation(false, errors)
                && unvalidated != []
                && (if !covered then
                      var table := CandidateTable(requirements, factual);
                      unvalidated == MissingDimensions(requirements, GreedyCover(table, |table|))
                    else if !facetsStated then
                      unvalidated == ["shared comparison conclusion"]
                    else
                      |unvalidated| == |requirements| &&
                      forall i :: 0 <= i < |requirements| ==> unvalidated[i] == requirements[i].dimension)
  {
    hide SharedFacetsStated, FacetsStated, EachHasOwnClaim, Factual, CandidateTable, GreedyCover;
    if requirements == [] { return prior, []; }
    var factual := Factual(claims);
    var missing := UncoveredDimensions(requirements, factual);
    FacetsMean(factual, requirements, facets);
    var facetsStated := SharedFacetsStated(factual, requirements, facets);
    var errors := prior.errors;
    if missing != [] { errors := errors + [DimensionUncovered]; }
    if absence { errors := errors + [EvidenceCalledAbsent]; }
    if !facetsStated { errors := errors + [FacetsUncovered]; }
    if errors == [] { return prior, []; }
    if missing != [] {
      unvalidated := missing;
    } else if !facetsStated {
      unvalidated := ["shared comparison conclusion"];
    } else {
      unvalidated := seq(|requirements|, i requires 0 <= i < |requirements| => requirements[i].dimension);
    }
    result := Validation(false, errors);
  }
}
