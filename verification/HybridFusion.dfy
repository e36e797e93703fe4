/** Weighted fusion of the dense and the sparse result lists, over the reals. */
module HybridFusion {
  import opened Prelude
  import opened Sequences
  import opened Sorting
  import Reducers

  type Id = string

  /** `attribution` stands for the fields both branches have to agree on. */
  datatype Hit = Hit(id: Id, attribution: string, score: real)

  datatype Row = Row(
    evidence: Hit, rawDense: Option<real>, rawSparse: Option<real>, normalizedDense: real, normalizedSparse: real,
    hybrid: real, denseRank: Option<nat>, sparseRank: Option<nat>, finalRank: nat)

  datatype FusionError = InvalidWeights | AttributionMismatch

  // ---- One branch ------------------------------------------------------------------------------

  /** The branch as a dictionary: the last hit of an id wins. */
  function HitOf(hits: seq<Hit>, id: Id): Option<Hit> {
    if hits == [] then None
    else
      var n := |hits| - 1;
      if hits[n].id == id then Some(hits[n]) else HitOf(hits[..n], id)
  }

  /** The position, from 1, of the last hit of an id. */
  function Rank(hits: seq<Hit>, id: Id): Option<nat> {
    if hits == [] then None
    else
      var n := |hits| - 1;
      if hits[n].id == id then Some(n + 1) else Rank(hits[..n], id)
  }

  /** The values of the dictionary. */
  function Values(hits: seq<Hit>): seq<real> {
    if hits == [] then []
    else (if HitOf(hits[1..], hits[0].id).Some? then [] else [hits[0].score]) + Values(hits[1..])
  }

  function Lowest(scores: seq<real>): (r: real)
    requires scores != []
    ensures r in scores && forall x :: x in scores ==> r <= x
  {
    if |scores| == 1 then scores[0]
    else
      var rest := Lowest(scores[1..]);
      assert forall x :: x in scores ==> x == scores[0] || x in scores[1..];
      if scores[0] <= rest then scores[0] else rest
  }

  function Highest(scores: seq<real>): (r: real)
    requires scores != []
    ensures r in scores && forall x :: x in scores ==> x <= r
  {
    if |scores| == 1 then scores[0]
    else
      var rest := Highest(scores[1..]);
      assert forall x :: x in scores ==> x == scores[0] || x in scores[1..];
      if scores[0] >= rest then scores[0] else rest
  }

  function Scaled(score: real, low: real, high: real): real {
    if low == high then 1.0 else (score - low) / (high - low)
  }

  /** `normalize_scores(...).get(id, 0.0)`. */
  function Normalized(hits: seq<Hit>, id: Id): real {
    var found, scores := HitOf(hits, id), Values(hits);
    if found.None? || scores == [] then 0.0
    else Scaled(found.value.score, Lowest(scores), Highest(scores))
  }

  lemma {:induction false} FindInTail(hits: seq<Hit>, id: Id)
    requires hits != []
    ensures HitOf(hits, id) == if HitOf(hits[1..], id).Some? then HitOf(hits[1..], id)
                              else if hits[0].id == id then Some(hits[0]) else None
    decreases |hits|
  {
    var n := |hits| - 1;
    if n > 0 {
      assert hits[1..][n - 1] == hits[n] && hits[1..][..n - 1] == hits[..n][1..];
      if hits[n].id != id { FindInTail(hits[..n], id); }
    }
  }

  lemma {:induction false} FoundIsValue(hits: seq<Hit>, id: Id)
    requires HitOf(hits, id).Some?
    ensures HitOf(hits, id).value.score in Values(hits) && HitOf(hits, id).value in hits
         && HitOf(hits, id).value.id == id
    decreases |hits|
  {
    FindInTail(hits, id);
    if HitOf(hits[1..], id).Some? {
      FoundIsValue(hits[1..], id);
    }
  }

  lemma ScaledRange(score: real, low: real, high: real)
    requires low <= score <= high
    ensures 0.0 <= Scaled(score, low, high) <= 1.0
  {
    if low < high {
      QuotientOrder(0.0, score - low, high - low);
      QuotientOrder(score - low, high - low, high - low);
      assert (high - low) / (high - low) == 1.0;
    }
  }

  lemma ScaledOrder(a: real, b: real, low: real, high: real)
    requires low <= a <= b <= high
    ensures Scaled(a, low, high) <= Scaled(b, low, high)
  {
    if low < high { QuotientOrder(a - low, b - low, high - low); }
  }

  lemma QuotientOrder(x: real, y: real, d: real)
    requires x <= y && d > 0.0
    ensures x / d <= y / d
  {
    var p, q := x / d, y / d;
    assert p * d == x && q * d == y;
    assert (p - q) * d == x - y;
    assert p > q ==> (p - q) * d > 0.0;
  }

  /** Normalized scores lie in [0, 1]; the extremes of a branch get 0 and 1, and order is kept. */
  lemma NormalizedRange(hits: seq<Hit>, id: Id)
    ensures 0.0 <= Normalized(hits, id) <= 1.0
  {
    if HitOf(hits, id).Some? {
      FoundIsValue(hits, id);
      hide Scaled;
      ScaledRange(HitOf(hits, id).value.score, Lowest(Values(hits)), Highest(Values(hits)));
    }
  }

  /** At least as good: absent from the branch counts as worse than every score. */
  predicate AtLeast(a: Option<real>, b: Option<real>) {
    b.None? || (a.Some? && a.value >= b.value)
  }

  function Raw(hits: seq<Hit>, id: Id): Option<real> {
    if HitOf(hits, id).Some? then Some(HitOf(hits, id).value.score) else None
  }

  lemma NormalizedOrder(hits: seq<Hit>, a: Id, b: Id)
    requires AtLeast(Raw(hits, a), Raw(hits, b))
    ensures Normalized(hits, a) >= Normalized(hits, b)
  {
    NormalizedRange(hits, a);
    if HitOf(hits, b).Some? {
      FoundIsValue(hits, a);
      FoundIsValue(hits, b);
      hide Scaled;
      ScaledOrder(HitOf(hits, b).value.score, HitOf(hits, a).value.score, Lowest(Values(hits)), Highest(Values(hits)));
    }
  }

  // ---- Rows ------------------------------------------------------------------------------------

  function Mixed(dense: real, sparse: real, denseWeight: real, sparseWeight: real): real
    requires denseWeight + sparseWeight > 0.0
  {
    dense * (denseWeight / (denseWeight + sparseWeight)) + sparse * (sparseWeight / (denseWeight + sparseWeight))
  }

  predicate InUnion(dense: seq<Hit>, sparse: seq<Hit>, id: Id) {
    HitOf(dense, id).Some? || HitOf(sparse, id).Some?
  }

  function RowFor(dense: seq<Hit>, sparse: seq<Hit>, denseWeight: real, sparseWeight: real, id: Id): Row
    requires denseWeight + sparseWeight > 0.0
    requires InUnion(dense, sparse, id)
  {
    var d, s := Normalized(dense, id), Normalized(sparse, id);
    Row(
      if HitOf(dense, id).Some? then HitOf(dense, id).value else HitOf(sparse, id).value.(score := 0.0),
      Raw(dense, id), Raw(sparse, id), d, s, Mixed(d, s, denseWeight, sparseWeight),
      Rank(dense, id), Rank(sparse, id), 1)
  }

  predicate Disagree(dense: seq<Hit>, sparse: seq<Hit>, id: Id) {
    HitOf(dense, id).Some? && HitOf(sparse, id).Some?
    && HitOf(dense, id).value.attribution != HitOf(sparse, id).value.attribution
  }

  function IdsOf(hits: seq<Hit>): seq<Id> {
    if hits == [] then [] else [hits[0].id] + IdsOf(hits[1..])
  }

  /** The ids of both branches in order, each once. */
  function UnionIds(dense: seq<Hit>, sparse: seq<Hit>): seq<Id> {
    Sort(StringLe, Reducers.AppendNew([], IdsOf(dense) + IdsOf(sparse)))
  }

  /** Higher raw scores come first, an absent one last. */
  predicate Higher(a: Option<real>, b: Option<real>) {
    a.Some? && (b.None? || a.value > b.value)
  }

  /** The six-part sort key. */
  predicate RowLe(a: Row, b: Row) {
    if a.hybrid != b.hybrid then a.hybrid > b.hybrid
    else if a.normalizedDense != b.normalizedDense then a.normalizedDense > b.normalizedDense
    else if a.normalizedSparse != b.normalizedSparse then a.normalizedSparse > b.normalizedSparse
    else if a.rawDense != b.rawDense then Higher(a.rawDense, b.rawDense)
    else if a.rawSparse != b.rawSparse then Higher(a.rawSparse, b.rawSparse)
    else StringLe(a.evidence.id, b.evidence.id)
  }

  function AtMost(rows: seq<Row>, n: nat): seq<Row> {
    if |rows| <= n then rows else rows[..n]
  }

  function Ranked(rows: seq<Row>): seq<Row> {
    seq(|rows|, i requires 0 <= i < |rows| => rows[i].(finalRank := i + 1))
  }

  ghost predicate Known(dense: seq<Hit>, sparse: seq<Hit>, ids: seq<Id>) {
    forall i :: 0 <= i < |ids| ==> InUnion(dense, sparse, ids[i])
  }

  ghost function Rows(dense: seq<Hit>, sparse: seq<Hit>, denseWeight: real, sparseWeight: real,
                      ids: seq<Id>): (rows: seq<Row>)
    requires denseWeight + sparseWeight > 0.0 && Known(dense, sparse, ids)
    ensures |rows| == |ids|
    ensures forall i :: 0 <= i < |ids| ==> rows[i] == RowFor(dense, sparse, denseWeight, sparseWeight, ids[i])
  {
    seq(|ids|, i requires 0 <= i < |ids| => RowFor(dense, sparse, denseWeight, sparseWeight, ids[i]))
  }

  ghost predicate AnyDisagree(dense: seq<Hit>, sparse: seq<Hit>, ids: seq<Id>) {
    exists i :: 0 <= i < |ids| && Disagree(dense, sparse, ids[i])
  }

  ghost function Fused(dense: seq<Hit>, sparse: seq<Hit>, denseWeight: real, sparseWeight: real, topK: nat)
    : Result<seq<Row>, FusionError>
  {
    var ids := UnionIds(dense, sparse);
    UnionShape(dense, sparse);
    if denseWeight + sparseWeight <= 0.0 then Err(InvalidWeights)
    else if AnyDisagree(dense, sparse, ids) then Err(AttributionMismatch)
    else Ok(Ranked(AtMost(Sort(RowLe, Rows(dense, sparse, denseWeight, sparseWeight, ids)), topK)))
  }

  method Fuse(dense: seq<Hit>, sparse: seq<Hit>, denseWeight: real, sparseWeight: real, topK: nat)
    returns (result: Result<seq<Row>, FusionError>)
    ensures result == Fused(dense, sparse, denseWeight, sparseWeight, topK)
  {
    hide HitOf, Normalized, Mixed, Rank, Raw, UnionIds, RowLe, Disagree;
    if denseWeight + sparseWeight <= 0.0 { return Err(InvalidWeights); }
    var ids := UnionIds(dense, sparse);
    UnionShape(dense, sparse);
    var rows := [];
    for i := 0 to |ids|
      invariant |rows| == i
      invariant forall j :: 0 <= j < i ==>
        rows[j] == RowFor(dense, sparse, denseWeight, sparseWeight, ids[j]) && !Disagree(dense, sparse, ids[j])
    {
      if Disagree(dense, sparse, ids[i]) { return Err(AttributionMismatch); }
      rows := rows + [RowFor(dense, sparse, denseWeight, sparseWeight, ids[i])];
    }
    assert rows == Rows(dense, sparse, denseWeight, sparseWeight, ids);
    rows := AtMost(Sort(RowLe, rows), topK);
    return Ok(Ranked(rows));
  }

  // ---- The ids ---------------------------------------------------------------------------------

  lemma {:induction false} IdsShape(hits: seq<Hit>, id: Id)
    ensures id in IdsOf(hits) <==> HitOf(hits, id).Some?
    decreases |hits|
  {
    if hits != [] {
      FindInTail(hits, id);
      IdsShape(hits[1..], id);
    }
  }

  lemma {:induction false} AppendNewShape(left: seq<Id>, right: seq<Id>)
    requires Distinct(left)
    ensures Distinct(Reducers.AppendNew(left, right))
    ensures forall id :: id in Reducers.AppendNew(left, right) <==> id in left || id in right
    decreases |right|
  {
    if right != [] {
      var longer := if right[0] in left then left else left + [right[0]];
      assert Distinct(longer);
      assert forall id :: id in longer <==> id in left || id == right[0];
      assert forall id :: id in right <==> id == right[0] || id in right[1..] by {
        assert right == [right[0]] + right[1..];
      }
      hide Distinct;
      AppendNewShape(longer, right[1..]);
    }
  }

  /** Exactly the ids of the two branches, in strictly increasing order. */
  lemma UnionShape(dense: seq<Hit>, sparse: seq<Hit>)
    ensures var ids := UnionIds(dense, sparse);
            && Known(dense, sparse, ids)
            && (forall id :: id in ids <==> InUnion(dense, sparse, id))
            && forall i, j :: 0 <= i < j < |ids| ==> ids[i] != ids[j] && StringLe(ids[i], ids[j])
  {
    var all, ids := Reducers.AppendNew([], IdsOf(dense) + IdsOf(sparse)), UnionIds(dense, sparse);
    AppendNewShape([], IdsOf(dense) + IdsOf(sparse));
    StringOrder();
    SortSorted(StringLe, all);
    SameMembers(all, ids);
    DistinctByPermutation(Same, all, ids);
    hide HitOf, StringLe, Sort;
    forall id
      ensures id in ids <==> InUnion(dense, sparse, id)
    {
      IdsShape(dense, id);
      IdsShape(sparse, id);
    }
    forall i, j | 0 <= i < j < |ids|
      ensures ids[i] != ids[j]
    {
      assert Same(ids[i]) != Same(ids[j]);
    }
  }

  function Same(id: Id): Id {
    id
  }

  // ---- The ranking -----------------------------------------------------------------------------

  lemma MixedOrder(d: real, s: real, d': real, s': real, denseWeight: real, sparseWeight: real)
    requires denseWeight >= 0.0 && sparseWeight >= 0.0 && denseWeight + sparseWeight > 0.0
    requires d <= d' && s <= s'
    ensures Mixed(d, s, denseWeight, sparseWeight) <= Mixed(d', s', denseWeight, sparseWeight)
  {
    var total := denseWeight + sparseWeight;
    QuotientOrder(0.0, denseWeight, total);
    QuotientOrder(0.0, sparseWeight, total);
    ProductOrder(d, d', denseWeight / total);
    ProductOrder(s, s', sparseWeight / total);
  }

  lemma ProductOrder(x: real, y: real, w: real)
    requires x <= y && w >= 0.0
    ensures x * w <= y * w
  {
    assert (y - x) * w >= 0.0;
  }

  lemma MixedRange(d: real, s: real, denseWeight: real, sparseWeight: real)
    requires denseWeight >= 0.0 && sparseWeight >= 0.0 && denseWeight + sparseWeight > 0.0
    requires 0.0 <= d <= 1.0 && 0.0 <= s <= 1.0
    ensures 0.0 <= Mixed(d, s, denseWeight, sparseWeight) <= 1.0
  {
    var total := denseWeight + sparseWeight;
    MixedOrder(0.0, 0.0, d, s, denseWeight, sparseWeight);
    MixedOrder(d, s, 1.0, 1.0, denseWeight, sparseWeight);
    var x, y := denseWeight / total, sparseWeight / total;
    assert x * total == denseWeight && y * total == sparseWeight;
    assert (x + y) * total == x * total + y * total;
    assert (x + y - 1.0) * total == 0.0;
  }

  lemma RowOrder()
    ensures TotalPreorder(RowLe)
    ensures forall a, b :: RowLe(a, b) && RowLe(b, a) ==> a.evidence.id == b.evidence.id
  {
    StringOrder();
    hide StringLe;
    forall a, b, c | RowLe(a, b) && RowLe(b, c)
      ensures RowLe(a, c)
    {
    }
  }

  /** x comes strictly before y in the sort order. */
  ghost predicate Ahead(x: Row, y: Row) {
    RowLe(x, y) && !RowLe(y, x)
  }

  /** The hit at position k is the last one of its chunk: the one that counts. */
  ghost predicate Counts(hits: seq<Hit>, k: int) {
    0 <= k < |hits| && forall j :: k < j < |hits| ==> hits[j].id != hits[k].id
  }

  /** The counting hits at these positions are of one chunk and carry different attributions. */
  ghost predicate Clash(dense: seq<Hit>, sparse: seq<Hit>, k: int, l: int) {
    && Counts(dense, k) && Counts(sparse, l)
    && dense[k].id == sparse[l].id && dense[k].attribution != sparse[l].attribution
  }

  lemma {:induction false} HitIsLast(hits: seq<Hit>, id: Id)
    ensures Rank(hits, id).Some? <==> HitOf(hits, id).Some?
    ensures HitOf(hits, id).None? ==> forall k :: 0 <= k < |hits| ==> hits[k].id != id
    ensures HitOf(hits, id).Some? ==>
              var k := Rank(hits, id).value - 1;
              Counts(hits, k) && hits[k].id == id && HitOf(hits, id).value == hits[k]
    decreases |hits|
  {
    if hits != [] && hits[|hits| - 1].id != id { HitIsLast(hits[..|hits| - 1], id); }
  }

  lemma CountsOnce(hits: seq<Hit>, k: int)
    requires Counts(hits, k)
    ensures HitOf(hits, hits[k].id) == Some(hits[k]) && Rank(hits, hits[k].id) == Some(k + 1)
  {
    HitIsLast(hits, hits[k].id);
    assert HitOf(hits, hits[k].id).Some?;
    hide HitOf, Rank;
  }

  /** Fusion fails exactly for weights that do not add up to more than zero, or when the hits that count for
      some chunk have different attributions in the branches. */
  lemma FusionFails(dense: seq<Hit>, sparse: seq<Hit>, denseWeight: real, sparseWeight: real, topK: nat)
    ensures var result := Fused(dense, sparse, denseWeight, sparseWeight, topK);
            && (result == Err(InvalidWeights) <==> denseWeight + sparseWeight <= 0.0)
            && (result == Err(AttributionMismatch) <==>
                  denseWeight + sparseWeight > 0.0 && exists k, l :: Clash(dense, sparse, k, l))
  {
    UnionShape(dense, sparse);
    hide UnionIds, HitOf, Counts, Sort, RowLe, Rows;
    var ids := UnionIds(dense, sparse);
    if AnyDisagree(dense, sparse, ids) {
      var i :| 0 <= i < |ids| && Disagree(dense, sparse, ids[i]);
      HitIsLast(dense, ids[i]);
      HitIsLast(sparse, ids[i]);
      assert Clash(dense, sparse, Rank(dense, ids[i]).value - 1, Rank(sparse, ids[i]).value - 1);
    }
    if exists k, l :: Clash(dense, sparse, k, l) {
      var k, l :| Clash(dense, sparse, k, l);
      PositionInRange(dense, k);
      PositionInRange(sparse, l);
      CountsOnce(dense, k);
      CountsOnce(sparse, l);
      var id := dense[k].id;
      DisagreeIsFound(dense, sparse, id);
      var i :| 0 <= i < |ids| && ids[i] == id;
      assert Disagree(dense, sparse, ids[i]);
    }
  }

  lemma DisagreeIsFound(dense: seq<Hit>, sparse: seq<Hit>, id: Id)
    requires Disagree(dense, sparse, id)
    ensures HitOf(dense, id).Some? && id in UnionIds(dense, sparse)
  {
    UnionShape(dense, sparse);
  }

  ghost function AllRows(dense: seq<Hit>, sparse: seq<Hit>, denseWeight: real, sparseWeight: real): seq<Row>
    requires denseWeight + sparseWeight > 0.0
  {
    UnionShape(dense, sparse);
    Sort(RowLe, Rows(dense, sparse, denseWeight, sparseWeight, UnionIds(dense, sparse)))
  }

  lemma RowKeepsId(dense: seq<Hit>, sparse: seq<Hit>, denseWeight: real, sparseWeight: real, id: Id)
    requires denseWeight + sparseWeight > 0.0 && InUnion(dense, sparse, id)
    ensures RowFor(dense, sparse, denseWeight, sparseWeight, id).evidence.id == id
  {
    if HitOf(dense, id).Some? { FoundIsValue(dense, id); } else { FoundIsValue(sparse, id); }
  }

  function RowId(row: Row): Id {
    row.evidence.id
  }

  ghost predicate CompleteRanking(dense: seq<Hit>, sparse: seq<Hit>, denseWeight: real, sparseWeight: real,
                                  all: seq<Row>)
    requires denseWeight + sparseWeight > 0.0
  {
    && (forall i :: 0 <= i < |all| ==>
          && InUnion(dense, sparse, RowId(all[i]))
          && all[i] == RowFor(dense, sparse, denseWeight, sparseWeight, RowId(all[i])))
    && (forall id :: InUnion(dense, sparse, id) ==> RowFor(dense, sparse, denseWeight, sparseWeight, id) in all)
    && forall i, j :: 0 <= i < j < |all| ==> Ahead(all[i], all[j])
  }

  /** The sorted rows are those of the union, once each, each strictly ahead of the next. */
  lemma AllRowsShape(dense: seq<Hit>, sparse: seq<Hit>, denseWeight: real, sparseWeight: real)
    requires denseWeight + sparseWeight > 0.0
    ensures var all := AllRows(dense, sparse, denseWeight, sparseWeight);
            |all| == |UnionIds(dense, sparse)| && CompleteRanking(dense, sparse, denseWeight, sparseWeight, all)
  {
    UnionShape(dense, sparse);
    hide HitOf, UnionIds, RowFor, StringLe, Sort;
    var ids := UnionIds(dense, sparse);
    var rows := Rows(dense, sparse, denseWeight, sparseWeight, ids);
    var all := AllRows(dense, sparse, denseWeight, sparseWeight);
    RowOrder();
    hide RowLe;
    SortSorted(RowLe, rows);
    SameMembers(rows, all);
    forall i | 0 <= i < |ids|
      ensures RowId(rows[i]) == ids[i]
    {
      RowKeepsId(dense, sparse, denseWeight, sparseWeight, ids[i]);
    }
    assert DistinctBy(RowId, rows);
    DistinctByPermutation(RowId, rows, all);
    forall i | 0 <= i < |all|
      ensures InUnion(dense, sparse, RowId(all[i]))
      ensures all[i] == RowFor(dense, sparse, denseWeight, sparseWeight, RowId(all[i]))
    {
      assert all[i] in rows;
    }
    forall id | InUnion(dense, sparse, id)
      ensures RowFor(dense, sparse, denseWeight, sparseWeight, id) in all
    {
      var i :| 0 <= i < |ids| && ids[i] == id;
      assert rows[i] in rows;
    }
    forall i, j | 0 <= i < j < |all|
      ensures Ahead(all[i], all[j])
    {
      assert RowId(all[i]) != RowId(all[j]);
    }
  }

  /** No row of the result: the id is ranked at none of its positions. */
  ghost predicate NotAmong(rows: seq<Row>, id: Id) {
    forall i :: 0 <= i < |rows| ==> RowId(rows[i]) != id
  }

  /** The row at position i has the contents and the rank of its chunk, a score in [0, 1], and is strictly
      ahead of every chunk that is not ranked before it. */
  ghost predicate WellRanked(
      dense: seq<Hit>, sparse: seq<Hit>, denseWeight: real, sparseWeight: real, rows: seq<Row>, i: nat)
    requires denseWeight + sparseWeight > 0.0 && i < |rows|
  {
    && InUnion(dense, sparse, RowId(rows[i]))
    && rows[i] == RowFor(dense, sparse, denseWeight, sparseWeight, RowId(rows[i])).(finalRank := i + 1)
    && 0.0 <= rows[i].hybrid <= 1.0
    && NotAmong(rows[..i], RowId(rows[i]))
    && forall id :: InUnion(dense, sparse, id) && id != RowId(rows[i]) && NotAmong(rows[..i], id) ==>
         Ahead(rows[i], RowFor(dense, sparse, denseWeight, sparseWeight, id))
  }

  /** The result holds as many rows of the union as asked for, each of them well ranked. */
  lemma FusionRanks(dense: seq<Hit>, sparse: seq<Hit>, denseWeight: real, sparseWeight: real, topK: nat)
    requires denseWeight >= 0.0 && sparseWeight >= 0.0
    requires Fused(dense, sparse, denseWeight, sparseWeight, topK).Ok?
    ensures var rows := Fused(dense, sparse, denseWeight, sparseWeight, topK).value;
            && |rows| == (if topK <= |UnionIds(dense, sparse)| then topK else |UnionIds(dense, sparse)|)
            && forall i :: 0 <= i < |rows| ==> WellRanked(dense, sparse, denseWeight, sparseWeight, rows, i)
  {
    AllRowsShape(dense, sparse, denseWeight, sparseWeight);
    FusedIsRanked(dense, sparse, denseWeight, sparseWeight, topK);
    var all := AllRows(dense, sparse, denseWeight, sparseWeight);
    var rows := Fused(dense, sparse, denseWeight, sparseWeight, topK).value;
    hide UnionIds, AllRows, HitOf, InUnion, WellRanked, RowFor, Ahead, Fused, RowId, CompleteRanking;
    forall i | 0 <= i < |rows|
      ensures WellRanked(dense, sparse, denseWeight, sparseWeight, rows, i)
    {
      PrefixWellRanked(dense, sparse, denseWeight, sparseWeight, all, rows, i);
    }
  }

  lemma FusedIsRanked(dense: seq<Hit>, sparse: seq<Hit>, denseWeight: real, sparseWeight: real, topK: nat)
    requires Fused(dense, sparse, denseWeight, sparseWeight, topK).Ok?
    ensures denseWeight + sparseWeight > 0.0
    ensures Fused(dense, sparse, denseWeight, sparseWeight, topK).value
              == Ranked(AtMost(AllRows(dense, sparse, denseWeight, sparseWeight), topK))
  {
    hide HitOf, InUnion, UnionIds, RowFor, Sort, RowLe, Disagree, Rows;
  }

  lemma PrefixWellRanked(
      dense: seq<Hit>, sparse: seq<Hit>, denseWeight: real, sparseWeight: real, all: seq<Row>, rows: seq<Row>, i: nat)
    requires denseWeight >= 0.0 && sparseWeight >= 0.0 && denseWeight + sparseWeight > 0.0
    requires i < |rows| <= |all| && forall k :: 0 <= k < |rows| ==> rows[k] == all[k].(finalRank := k + 1)
    requires CompleteRanking(dense, sparse, denseWeight, sparseWeight, all)
    ensures WellRanked(dense, sparse, denseWeight, sparseWeight, rows, i)
  {
    hide HitOf, InUnion, RowFor, RowLe;
    HybridRange(dense, sparse, denseWeight, sparseWeight, RowId(all[i]));
    forall k | 0 <= k < i
      ensures RowId(rows[..i][k]) != RowId(rows[i])
    {
      assert Ahead(all[k], all[i]);
      AheadDiffers(dense, sparse, denseWeight, sparseWeight, all[k], all[i]);
    }
    forall id | InUnion(dense, sparse, id) && id != RowId(rows[i]) && NotAmong(rows[..i], id)
      ensures Ahead(rows[i], RowFor(dense, sparse, denseWeight, sparseWeight, id))
    {
      NextIsAhead(dense, sparse, denseWeight, sparseWeight, all, rows, i, id);
    }
  }

  lemma HybridRange(dense: seq<Hit>, sparse: seq<Hit>, denseWeight: real, sparseWeight: real, id: Id)
    requires denseWeight >= 0.0 && sparseWeight >= 0.0 && denseWeight + sparseWeight > 0.0 && InUnion(dense, sparse, id)
    ensures 0.0 <= RowFor(dense, sparse, denseWeight, sparseWeight, id).hybrid <= 1.0
  {
    hide Mixed, Normalized;
    NormalizedRange(dense, id);
    NormalizedRange(sparse, id);
    MixedRange(Normalized(dense, id), Normalized(sparse, id), denseWeight, sparseWeight);
  }

  lemma AheadDiffers(dense: seq<Hit>, sparse: seq<Hit>, denseWeight: real, sparseWeight: real, x: Row, y: Row)
    requires denseWeight + sparseWeight > 0.0
    requires InUnion(dense, sparse, RowId(x)) && x == RowFor(dense, sparse, denseWeight, sparseWeight, RowId(x))
    requires InUnion(dense, sparse, RowId(y)) && y == RowFor(dense, sparse, denseWeight, sparseWeight, RowId(y))
    requires Ahead(x, y)
    ensures RowId(x) != RowId(y)
  {
  }

  lemma NextIsAhead(
      dense: seq<Hit>, sparse: seq<Hit>, denseWeight: real, sparseWeight: real, all: seq<Row>, rows: seq<Row>, i: nat,
      id: Id)
    requires denseWeight + sparseWeight > 0.0 && InUnion(dense, sparse, id)
    requires i < |rows| <= |all| && forall k :: 0 <= k < |rows| ==> rows[k] == all[k].(finalRank := k + 1)
    requires CompleteRanking(dense, sparse, denseWeight, sparseWeight, all)
    requires id != RowId(rows[i]) && NotAmong(rows[..i], id)
    ensures Ahead(rows[i], RowFor(dense, sparse, denseWeight, sparseWeight, id))
  {
    var row := RowFor(dense, sparse, denseWeight, sparseWeight, id);
    RowKeepsId(dense, sparse, denseWeight, sparseWeight, id);
    hide RowFor, HitOf, InUnion;
    var j :| 0 <= j < |all| && all[j] == row;
    assert RowId(all[j]) == id;
    assert j < i ==> RowId(rows[..i][j]) == id;
    assert i < j;
    assert Ahead(all[i], all[j]);
  }

  /** A chunk at least as good in both branches and better in one is always ranked strictly earlier. */
  lemma BetterComesFirst(
      dense: seq<Hit>, sparse: seq<Hit>, denseWeight: real, sparseWeight: real, topK: nat, better: Id, worse: Id,
      j: nat)
    requires denseWeight >= 0.0 && sparseWeight >= 0.0
    requires Fused(dense, sparse, denseWeight, sparseWeight, topK).Ok?
    requires AtLeast(Raw(dense, better), Raw(dense, worse)) && AtLeast(Raw(sparse, better), Raw(sparse, worse))
    requires Higher(Raw(dense, better), Raw(dense, worse)) || Higher(Raw(sparse, better), Raw(sparse, worse))
    requires var rows := Fused(dense, sparse, denseWeight, sparseWeight, topK).value;
             j < |rows| && RowId(rows[j]) == worse
    ensures var rows := Fused(dense, sparse, denseWeight, sparseWeight, topK).value;
            exists i :: 0 <= i < j && RowId(rows[i]) == better
  {
    FusionRanks(dense, sparse, denseWeight, sparseWeight, topK);
    FusedIsRanked(dense, sparse, denseWeight, sparseWeight, topK);
    var rows := Fused(dense, sparse, denseWeight, sparseWeight, topK).value;
    BetterIsFound(dense, sparse, better, worse);
    hide Fused, RowFor, HitOf, InUnion, Raw, RowLe, UnionIds, AllRows, AtLeast, Higher, Ranked;
    assert WellRanked(dense, sparse, denseWeight, sparseWeight, rows, j);
    BetterIsAhead(dense, sparse, denseWeight, sparseWeight, better, worse);
    assert NotAmong(rows[..j], better) ==> Ahead(rows[j], RowFor(dense, sparse, denseWeight, sparseWeight, better));
    assert !NotAmong(rows[..j], better);
    var i :| 0 <= i < |rows[..j]| && RowId(rows[..j][i]) == better;
    assert RowId(rows[i]) == better;
  }

  lemma BetterIsFound(dense: seq<Hit>, sparse: seq<Hit>, better: Id, worse: Id)
    requires Higher(Raw(dense, better), Raw(dense, worse)) || Higher(Raw(sparse, better), Raw(sparse, worse))
    ensures InUnion(dense, sparse, better) && better != worse
  {
  }

  lemma BetterIsAhead(
      dense: seq<Hit>, sparse: seq<Hit>, denseWeight: real, sparseWeight: real, better: Id, worse: Id)
    requires denseWeight >= 0.0 && sparseWeight >= 0.0 && denseWeight + sparseWeight > 0.0
    requires InUnion(dense, sparse, better) && InUnion(dense, sparse, worse)
    requires AtLeast(Raw(dense, better), Raw(dense, worse)) && AtLeast(Raw(sparse, better), Raw(sparse, worse))
    requires Higher(Raw(dense, better), Raw(dense, worse)) || Higher(Raw(sparse, better), Raw(sparse, worse))
    ensures forall rank :: Ahead(RowFor(dense, sparse, denseWeight, sparseWeight, better),
                                 RowFor(dense, sparse, denseWeight, sparseWeight, worse).(finalRank := rank))
  {
    NormalizedOrder(dense, better, worse);
    NormalizedOrder(sparse, better, worse);
    MixedOrder(Normalized(dense, worse), Normalized(sparse, worse), Normalized(dense, better),
               Normalized(sparse, better),
               denseWeight, sparseWeight);
    hide Mixed, Normalized, HitOf, Rank, StringLe;
  }

  // ---- What the rows say -----------------------------------------------------------------------

  ghost predicate LowestAt(hits: seq<Hit>, k: int) {
    Counts(hits, k) && forall j :: Counts(hits, j) ==> hits[k].score <= hits[j].score
  }

  ghost predicate HighestAt(hits: seq<Hit>, k: int) {
    Counts(hits, k) && forall j :: Counts(hits, j) ==> hits[j].score <= hits[k].score
  }

  /** The contribution of the counting hit at position k, scaled between the extremes at low and high. */
  ghost predicate FromHit(hits: seq<Hit>, id: Id, raw: Option<real>, normalized: real, rank: Option<nat>,
                          k: int, low: int, high: int)
  {
    && Counts(hits, k) && LowestAt(hits, low) && HighestAt(hits, high)
    && hits[k].id == id && raw == Some(hits[k].score) && rank == Some(k + 1)
    && if hits[low].score == hits[high].score then normalized == 1.0
       else normalized * (hits[high].score - hits[low].score) == hits[k].score - hits[low].score
  }

  /** What a branch contributes to the row of a chunk: that of its counting hit, or nothing. */
  ghost predicate FromBranch(hits: seq<Hit>, id: Id, raw: Option<real>, normalized: real, rank: Option<nat>) {
    if forall k :: 0 <= k < |hits| ==> hits[k].id != id then raw == None && normalized == 0.0 && rank == None
    else exists k, low, high :: FromHit(hits, id, raw, normalized, rank, k, low, high)
  }

  /** The row passes on the hit of the dense branch, or else that of the sparse one without its score. */
  ghost predicate PassesOn(dense: seq<Hit>, sparse: seq<Hit>, row: Row) {
    match row.denseRank
    case Some(n) => 0 < n <= |dense| && row.evidence == dense[n - 1]
    case None =>
      && row.sparseRank.Some? && 0 < row.sparseRank.value <= |sparse|
      && row.evidence == sparse[row.sparseRank.value - 1].(score := 0.0)
  }

  /** The scores of a row, over the hits of the branches and the weights. */
  ghost predicate WeighedRow(dense: seq<Hit>, sparse: seq<Hit>, denseWeight: real, sparseWeight: real, row: Row) {
    && FromBranch(dense, row.evidence.id, row.rawDense, row.normalizedDense, row.denseRank)
    && FromBranch(sparse, row.evidence.id, row.rawSparse, row.normalizedSparse, row.sparseRank)
    && PassesOn(dense, sparse, row)
    && row.hybrid * (denseWeight + sparseWeight)
         == denseWeight * row.normalizedDense + sparseWeight * row.normalizedSparse
  }

  /** x before y by one score, higher first; a missing raw score comes last. */
  ghost predicate RawAbove(x: Option<real>, y: Option<real>) {
    x.Some? && (y.None? || y.value < x.value)
  }

  /** The order of two rows: the first difference among the five scores decides, and then the id. */
  ghost predicate InRowOrder(x: Row, y: Row) {
    var sameHybrid := x.hybrid == y.hybrid;
    var sameDense := sameHybrid && x.normalizedDense == y.normalizedDense;
    var sameBoth := sameDense && x.normalizedSparse == y.normalizedSparse;
    && y.hybrid <= x.hybrid
    && (sameHybrid ==> y.normalizedDense <= x.normalizedDense)
    && (sameDense ==> y.normalizedSparse <= x.normalizedSparse)
    && (sameBoth ==> x.rawDense == y.rawDense || RawAbove(x.rawDense, y.rawDense))
    && (sameBoth && x.rawDense == y.rawDense ==> x.rawSparse == y.rawSparse || RawAbove(x.rawSparse, y.rawSparse))
    && (sameBoth && x.rawDense == y.rawDense && x.rawSparse == y.rawSparse ==>
          InDictionaryOrder(x.evidence.id, y.evidence.id))
  }

  /** Every returned row carries its own hits, ranks and weighted score; the rows are in the order of their
      scores, of different chunks, and cover all chunks unless there are more than asked for. */
  lemma FusedRows(dense: seq<Hit>, sparse: seq<Hit>, denseWeight: real, sparseWeight: real, topK: nat)
    requires Fused(dense, sparse, denseWeight, sparseWeight, topK).Ok?
    ensures var rows := Fused(dense, sparse, denseWeight, sparseWeight, topK).value;
            && |rows| <= topK
            && (forall i :: 0 <= i < |rows| ==>
                  rows[i].finalRank == i + 1 && WeighedRow(dense, sparse, denseWeight, sparseWeight, rows[i]))
            && (forall i, j :: 0 <= i < j < |rows| ==>
                  rows[i].evidence.id != rows[j].evidence.id && InRowOrder(rows[i], rows[j]))
            && (|rows| < topK ==> forall hit :: hit in dense + sparse ==> !NotAmong(rows, hit.id))
  {
    hide HitOf, InUnion, UnionIds, AllRows, RowFor, Ahead, RowLe, Sort, Rows, Fused, AnyDisagree, WeighedRow,
         InRowOrder, CompleteRanking, NotAmong;
    FusedIsRanked(dense, sparse, denseWeight, sparseWeight, topK);
    AllRowsShape(dense, sparse, denseWeight, sparseWeight);
    var all := AllRows(dense, sparse, denseWeight, sparseWeight);
    var rows := Fused(dense, sparse, denseWeight, sparseWeight, topK).value;
    forall i | 0 <= i < |rows|
      ensures WeighedRow(dense, sparse, denseWeight, sparseWeight, rows[i])
    {
      RankedIsWeighed(dense, sparse, denseWeight, sparseWeight, all, i);
    }
    forall i, j | 0 <= i < j < |rows|
      ensures rows[i].evidence.id != rows[j].evidence.id && InRowOrder(rows[i], rows[j])
    {
      RankedInOrder(dense, sparse, denseWeight, sparseWeight, all, i, j);
    }
    forall hit | hit in dense + sparse && |rows| < topK
      ensures !NotAmong(rows, hit.id)
    {
      assert AtMost(all, topK) == all;
      EveryHitRanked(dense, sparse, denseWeight, sparseWeight, all, rows, hit);
    }
  }

  lemma RankedIsWeighed(
      dense: seq<Hit>, sparse: seq<Hit>, denseWeight: real, sparseWeight: real, all: seq<Row>, i: nat)
    requires denseWeight + sparseWeight > 0.0 && i < |all|
    requires CompleteRanking(dense, sparse, denseWeight, sparseWeight, all)
    ensures WeighedRow(dense, sparse, denseWeight, sparseWeight, all[i].(finalRank := i + 1))
  {
    hide InUnion, RowFor, WeighedRow, Ahead;
    RowIsWeighed(dense, sparse, denseWeight, sparseWeight, RowId(all[i]), i + 1);
  }

  lemma RankedInOrder(
      dense: seq<Hit>, sparse: seq<Hit>, denseWeight: real, sparseWeight: real, all: seq<Row>, i: nat, j: nat)
    requires denseWeight + sparseWeight > 0.0 && i < j < |all|
    requires CompleteRanking(dense, sparse, denseWeight, sparseWeight, all)
    ensures all[i].evidence.id != all[j].evidence.id
    ensures InRowOrder(all[i].(finalRank := i + 1), all[j].(finalRank := j + 1))
  {
    hide InUnion, RowFor, InRowOrder, RowLe;
    AheadDiffers(dense, sparse, denseWeight, sparseWeight, all[i], all[j]);
    RowLeMeans(all[i], all[j], i + 1, j + 1);
  }

  lemma EveryHitRanked(dense: seq<Hit>, sparse: seq<Hit>, denseWeight: real, sparseWeight: real, all: seq<Row>,
                       rows: seq<Row>, hit: Hit)
    requires denseWeight + sparseWeight > 0.0 && CompleteRanking(dense, sparse, denseWeight, sparseWeight, all)
    requires rows == Ranked(all) && hit in dense + sparse
    ensures !NotAmong(rows, hit.id)
  {
    HitIsInUnion(dense, sparse, hit);
    RowKeepsId(dense, sparse, denseWeight, sparseWeight, hit.id);
    hide InUnion, RowFor, Ahead;
    var i :| 0 <= i < |all| && all[i] == RowFor(dense, sparse, denseWeight, sparseWeight, hit.id);
    assert RowId(rows[i]) == hit.id;
  }

  lemma HitIsInUnion(dense: seq<Hit>, sparse: seq<Hit>, hit: Hit)
    requires hit in dense + sparse
    ensures InUnion(dense, sparse, hit.id)
  {
    HitIsLast(dense, hit.id);
    HitIsLast(sparse, hit.id);
    if hit in dense {
      var k :| 0 <= k < |dense| && dense[k] == hit;
    } else {
      var k :| 0 <= k < |sparse| && sparse[k] == hit;
    }
  }

  /** Asking for fewer rows cuts the same ranking shorter. */
  lemma FewerRows(dense: seq<Hit>, sparse: seq<Hit>, denseWeight: real, sparseWeight: real, topK: nat, fewer: nat)
    requires fewer <= topK && Fused(dense, sparse, denseWeight, sparseWeight, topK).Ok?
    ensures var rows := Fused(dense, sparse, denseWeight, sparseWeight, topK).value;
            Fused(dense, sparse, denseWeight, sparseWeight, fewer)
              == Ok(if fewer <= |rows| then rows[..fewer] else rows)
  {
    hide HitOf, InUnion, UnionIds, RowFor, AllRows, RowLe, Sort, Rows, AnyDisagree;
    FusedIsRanked(dense, sparse, denseWeight, sparseWeight, topK);
    assert Fused(dense, sparse, denseWeight, sparseWeight, fewer).Ok?;
    FusedIsRanked(dense, sparse, denseWeight, sparseWeight, fewer);
    PrefixRanked(AllRows(dense, sparse, denseWeight, sparseWeight), topK, fewer);
    hide Fused, Ranked, AtMost;
  }

  lemma PrefixRanked(all: seq<Row>, topK: nat, fewer: nat)
    requires fewer <= topK
    ensures var rows := Ranked(AtMost(all, topK));
            Ranked(AtMost(all, fewer)) == if fewer <= |rows| then rows[..fewer] else rows
  {
  }

  lemma RowLeMeans(x: Row, y: Row, m: nat, n: nat)
    requires RowLe(x, y)
    ensures InRowOrder(x.(finalRank := m), y.(finalRank := n))
  {
    StringLeMeans(x.evidence.id, y.evidence.id);
    hide StringLe, InDictionaryOrder;
  }

  lemma RowIsWeighed(dense: seq<Hit>, sparse: seq<Hit>, denseWeight: real, sparseWeight: real, id: Id, rank: nat)
    requires denseWeight + sparseWeight > 0.0 && InUnion(dense, sparse, id)
    ensures WeighedRow(dense, sparse, denseWeight, sparseWeight,
                       RowFor(dense, sparse, denseWeight, sparseWeight, id).(finalRank := rank))
  {
    hide HitOf, Rank, Normalized, Mixed, FromBranch, Counts, Values;
    RowKeepsId(dense, sparse, denseWeight, sparseWeight, id);
    BranchMeans(dense, id);
    BranchMeans(sparse, id);
    HitIsLast(dense, id);
    HitIsLast(sparse, id);
    if HitOf(dense, id).Some? { HitsInRange(dense, id); }
    if HitOf(sparse, id).Some? { HitsInRange(sparse, id); }
    MixedMeans(Normalized(dense, id), Normalized(sparse, id), denseWeight, sparseWeight);
  }

  lemma HitsInRange(hits: seq<Hit>, id: Id)
    requires HitOf(hits, id).Some?
    ensures Rank(hits, id).Some? && 0 < Rank(hits, id).value <= |hits|
    ensures HitOf(hits, id).value == hits[Rank(hits, id).value - 1]
  {
    HitIsLast(hits, id);
    hide HitOf, Rank;
  }

  lemma MixedMeans(d: real, s: real, denseWeight: real, sparseWeight: real)
    requires denseWeight + sparseWeight > 0.0
    ensures Mixed(d, s, denseWeight, sparseWeight) * (denseWeight + sparseWeight) == denseWeight * d + sparseWeight * s
  {
    var total := denseWeight + sparseWeight;
    var x, y := denseWeight / total, sparseWeight / total;
    assert x * total == denseWeight && y * total == sparseWeight;
    assert (d * x + s * y) * total == d * (x * total) + s * (y * total);
  }

  /** The score of a chunk in a branch is that of its counting hit, scaled between the branch's extremes. */
  lemma BranchMeans(hits: seq<Hit>, id: Id)
    ensures FromBranch(hits, id, Raw(hits, id), Normalized(hits, id), Rank(hits, id))
  {
    hide HitOf, Rank, Values, Scaled, Counts, FromHit;
    HitIsLast(hits, id);
    if HitOf(hits, id).Some? {
      HitsInRange(hits, id);
      var low, high := CountingHitMeans(hits, id);
      var k := Rank(hits, id).value - 1;
      assert FromHit(hits, id, Raw(hits, id), Normalized(hits, id), Rank(hits, id), k, low, high);
    }
  }

  lemma CountingHitMeans(hits: seq<Hit>, id: Id) returns (low: int, high: int)
    requires HitOf(hits, id).Some?
    ensures Rank(hits, id).Some?
    ensures FromHit(hits, id, Raw(hits, id), Normalized(hits, id), Rank(hits, id), Rank(hits, id).value - 1, low, high)
  {
    hide HitOf, Rank, Values, Scaled, Counts, LowestAt, HighestAt, Lowest, Highest;
    HitIsLast(hits, id);
    FoundIsValue(hits, id);
    HitsInRange(hits, id);
    var scores := Values(hits);
    low := PositionOf(hits, Lowest(scores));
    high := PositionOf(hits, Highest(scores));
    ExtremesAt(hits, low, high);
    PositionInRange(hits, low);
    PositionInRange(hits, high);
    ScaledMeans(HitOf(hits, id).value.score, Lowest(scores), Highest(scores));
  }

  lemma PositionInRange(hits: seq<Hit>, k: int)
    requires Counts(hits, k)
    ensures 0 <= k < |hits|
  {
  }

  lemma ScaledMeans(score: real, low: real, high: real)
    ensures if low == high then Scaled(score, low, high) == 1.0
            else Scaled(score, low, high) * (high - low) == score - low
  {
  }

  lemma ExtremesAt(hits: seq<Hit>, low: int, high: int)
    requires Values(hits) != [] && Counts(hits, low) && Counts(hits, high)
    requires hits[low].score == Lowest(Values(hits)) && hits[high].score == Highest(Values(hits))
    ensures LowestAt(hits, low) && HighestAt(hits, high)
  {
    forall j | Counts(hits, j)
      ensures hits[j].score in Values(hits)
    {
      CountsOnce(hits, j);
      FoundIsValue(hits, hits[j].id);
    }
    hide Counts;
  }

  /** Every value of the dictionary is the score of a counting hit. */
  lemma {:induction false} PositionOf(hits: seq<Hit>, score: real) returns (k: int)
    requires score in Values(hits)
    ensures Counts(hits, k) && hits[k].score == score
    decreases |hits|
  {
    if HitOf(hits[1..], hits[0].id).None? && score == hits[0].score {
      HitIsLast(hits[1..], hits[0].id);
      k := 0;
      assert forall j :: 0 < j < |hits| ==> hits[j] == hits[1..][j - 1];
    } else {
      var l := PositionOf(hits[1..], score);
      k := l + 1;
      assert forall j :: 0 < j < |hits| ==> hits[j] == hits[1..][j - 1];
    }
  }
}
