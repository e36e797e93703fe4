/** The compiler from typed retrieval filters to a metadata query, and the direct predicate of the sparse
    branch that the query has to agree with. */
module FilterCompiler {
  import opened Prelude
  import opened Calendar

  datatype AccessLevel = Public | Internal | Confidential | Restricted

  function LevelText(level: AccessLevel): string {
    match level
    case Public => "public"
    case Internal => "internal"
    case Confidential => "confidential"
    case Restricted => "restricted"
  }

  /** `levels` are the access levels of the role. */
  datatype Principal = Principal(role: string, levels: set<AccessLevel>)

  /** The fields of an ingestion chunk that the filter can reach; identifiers and enumerations are their text. */
  datatype Chunk = Chunk(
    documentId: string, department: string, documentType: string, status: string, accessLevel: AccessLevel,
    allowedRoles: seq<string>, tags: seq<string>, created: Date, updated: Date)

  datatype Filters = Filters(
    departments: seq<string>, documentTypes: seq<string>, statuses: seq<string>, documentIds: seq<string>,
    tags: seq<string>, accessLevels: seq<AccessLevel>,
    createdFrom: Option<Date>, createdTo: Option<Date>, updatedFrom: Option<Date>, updatedTo: Option<Date>)

  predicate ValidBound(bound: Option<Date>) {
    bound.Some? ==> Valid(bound.value)
  }

  predicate ValidFilters(filters: Filters) {
    && ValidBound(filters.createdFrom) && ValidBound(filters.createdTo)
    && ValidBound(filters.updatedFrom) && ValidBound(filters.updatedTo)
  }

  predicate ValidChunk(chunk: Chunk) {
    Valid(chunk.created) && Valid(chunk.updated)
  }

  // ---- Queries ---------------------------------------------------------------------------------

  datatype Field =
    | BuildFingerprint | AccessLevelField | AllowedRoles | Department | DocumentType | Status | DocumentId | Tags
    | CreatedDay | UpdatedDay

  datatype Value = Text(text: string) | Number(number: real) | Texts(texts: seq<string>)

  type Metadata = map<Field, Value>

  datatype Condition = Eq(text: string) | In(texts: seq<string>) | Range(lower: Option<real>, upper: Option<real>)

  datatype Clause = Clause(field: Field, condition: Condition)

  predicate Overlap(a: seq<string>, b: seq<string>) {
    exists i :: 0 <= i < |a| && a[i] in b
  }

  /** The vector store's reading of a clause: `$in` on a list field asks for a common member. */
  predicate Holds(clause: Clause, metadata: Metadata) {
    clause.field in metadata &&
    var value := metadata[clause.field];
    match clause.condition
    case Eq(text) => value == Text(text)
    case In(texts) => (value.Text? && value.text in texts) || (value.Texts? && Overlap(value.texts, texts))
    case Range(lower, upper) =>
      value.Number? && (lower.Some? ==> lower.value <= value.number) && (upper.Some? ==> value.number <= upper.value)
  }

  /** The conjunction `$and`. */
  predicate AllHold(clauses: seq<Clause>, metadata: Metadata) {
    forall i :: 0 <= i < |clauses| ==> Holds(clauses[i], metadata)
  }

  function ChunkMetadata(chunk: Chunk, fingerprint: string): Metadata
    requires ValidChunk(chunk)
  {
    map[
      BuildFingerprint := Text(fingerprint),
      AccessLevelField := Text(LevelText(chunk.accessLevel)),
      AllowedRoles := Texts(chunk.allowedRoles),
      Department := Text(chunk.department),
      DocumentType := Text(chunk.documentType),
      Status := Text(chunk.status),
      DocumentId := Text(chunk.documentId),
      Tags := Texts(chunk.tags),
      CreatedDay := Number(EpochDay(chunk.created) as real),
      UpdatedDay := Number(EpochDay(chunk.updated) as real)]
  }

  // ---- The direct predicate --------------------------------------------------------------------

  predicate DocumentAuthorized(principal: Principal, chunk: Chunk) {
    chunk.accessLevel in principal.levels && principal.role in chunk.allowedRoles
  }

  predicate OutsideBounds(date: Date, from: Option<Date>, to: Option<Date>) {
    (from.Some? && Before(date, from.value)) || (to.Some? && Before(to.value, date))
  }

  /** `_authorized` of the sparse retriever. */
  predicate Authorized(principal: Principal, chunk: Chunk, filters: Option<Filters>) {
    if !DocumentAuthorized(principal, chunk) then false
    else if filters.None? then true
    else Selected(chunk, filters.value)
  }

  predicate Selected(chunk: Chunk, filters: Filters) {
    if filters.accessLevels != [] && chunk.accessLevel !in filters.accessLevels then false
    else if filters.departments != [] && chunk.department !in filters.departments then false
    else if filters.documentTypes != [] && chunk.documentType !in filters.documentTypes then false
    else if filters.statuses != [] && chunk.status !in filters.statuses then false
    else if filters.documentIds != [] && chunk.documentId !in filters.documentIds then false
    else if filters.tags != [] && !Overlap(filters.tags, chunk.tags) then false
    else !(OutsideBounds(chunk.created, filters.createdFrom, filters.createdTo)
           || OutsideBounds(chunk.updated, filters.updatedFrom, filters.updatedTo))
  }

  // ---- The compiler ----------------------------------------------------------------------------

  datatype FilterError = BroadensAccess

  const LEVELS_BY_TEXT: seq<AccessLevel> := [Confidential, Internal, Public, Restricted]

  /** The texts of the levels in alphabetical order. */
  function SortedTexts(levels: set<AccessLevel>, order: seq<AccessLevel>): seq<string> {
    if order == [] then []
    else (if order[0] in levels then [LevelText(order[0])] else []) + SortedTexts(levels, order[1..])
  }

  function Members(levels: seq<AccessLevel>): set<AccessLevel> {
    set level | level in levels
  }

  /** The compiled query selects from any build exactly the chunks of the right build that the direct
      predicate lets through; it is refused exactly when the filters ask for more than the principal has. */
  method BuildAuthorizationFilter(principal: Principal, fingerprint: string, filters: Option<Filters>)
    returns (query: Result<seq<Clause>, FilterError>)
    requires filters.Some? ==> ValidFilters(filters.value)
    ensures query.Err? <==>
              filters.Some? && exists level :: level in filters.value.accessLevels && level !in principal.levels
    ensures query.Ok? ==> forall chunk, build :: ValidChunk(chunk) ==>
              (AllHold(query.value, ChunkMetadata(chunk, build)) <==>
               build == fingerprint && Authorized(principal, chunk, filters))
  {
    var selected: set<AccessLevel> := if filters.Some? then Members(filters.value.accessLevels) else {};
    if selected != {} && !(selected <= principal.levels) {
      return Err(BroadensAccess);
    }
    var levels := if selected != {} then selected else principal.levels;
    var clauses := [
      Clause(BuildFingerprint, Eq(fingerprint)),
      Clause(AccessLevelField, In(SortedTexts(levels, LEVELS_BY_TEXT))),
      Clause(AllowedRoles, In([principal.role]))];
    ghost var base := clauses;
    if filters.Some? {
      clauses := AppendOptional(clauses, filters.value);
    }
    forall chunk, build | ValidChunk(chunk)
      ensures AllHold(clauses, ChunkMetadata(chunk, build)) <==>
              build == fingerprint && Authorized(principal, chunk, filters)
    {
      BaseMeans(principal, fingerprint, levels, base, chunk, build);
      if filters.Some? {
        OptionalMeans(filters.value, chunk, build);
        LevelsNarrow(principal, filters.value, levels, chunk);
      }
    }
    return Ok(clauses);
  }

  /** What the optional part of a query asks of a record. */
  ghost predicate Asked(filters: Filters, metadata: Metadata) {
    && (forall i :: 0 <= i < 5 && Mappings(filters)[i].1 != [] ==>
          Holds(Clause(Mappings(filters)[i].0, In(Mappings(filters)[i].1)), metadata))
    && (forall i :: 0 <= i < 2 && Bounded(Ranges(filters)[i]) ==> Holds(RangeClause(Ranges(filters)[i]), metadata))
  }

  function Mappings(filters: Filters): (r: seq<(Field, seq<string>)>)
    ensures |r| == 5
  {
    [(Department, filters.departments), (DocumentType, filters.documentTypes), (Status, filters.statuses),
     (DocumentId, filters.documentIds), (Tags, filters.tags)]
  }

  function Ranges(filters: Filters): (r: seq<(Field, Option<Date>, Option<Date>)>)
    ensures |r| == 2
  {
    [(CreatedDay, filters.createdFrom, filters.createdTo), (UpdatedDay, filters.updatedFrom, filters.updatedTo)]
  }

  predicate Bounded(range: (Field, Option<Date>, Option<Date>)) {
    range.1.Some? || range.2.Some?
  }

  function Day(bound: Option<Date>): Option<real> {
    if bound.Some? && 1 <= bound.value.month <= 12 then Some(EpochDay(bound.value) as real) else None
  }

  function RangeClause(range: (Field, Option<Date>, Option<Date>)): Clause {
    Clause(range.0, Range(Day(range.1), Day(range.2)))
  }

  method AppendOptional(clauses: seq<Clause>, filters: Filters) returns (more: seq<Clause>)
    ensures clauses <= more
    ensures forall metadata :: AllHold(more, metadata) <==> AllHold(clauses, metadata) && Asked(filters, metadata)
  {
    hide Holds, Mappings, Ranges, RangeClause;
    more := clauses;
    var mappings, ranges := Mappings(filters), Ranges(filters);
    for i := 0 to 5
      invariant clauses <= more
      invariant forall metadata :: AllHold(more, metadata) <==>
        AllHold(clauses, metadata) && MappingsHold(mappings, i, metadata)
    {
      var (field, values) := mappings[i];
      if values != [] {
        AllHoldAppend(more, Clause(field, In(values)));
        more := more + [Clause(field, In(values))];
      }
    }
    ghost var middle := more;
    for i := 0 to 2
      invariant clauses <= more
      invariant forall metadata :: AllHold(more, metadata) <==>
        AllHold(middle, metadata) && RangesHold(ranges, i, metadata)
    {
      if Bounded(ranges[i]) {
        AllHoldAppend(more, RangeClause(ranges[i]));
        more := more + [RangeClause(ranges[i])];
      }
    }
  }

  ghost predicate MappingsHold(mappings: seq<(Field, seq<string>)>, n: nat, metadata: Metadata)
    requires n <= |mappings|
  {
    forall i :: 0 <= i < n && mappings[i].1 != [] ==> Holds(Clause(mappings[i].0, In(mappings[i].1)), metadata)
  }

  ghost predicate RangesHold(ranges: seq<(Field, Option<Date>, Option<Date>)>, n: nat, metadata: Metadata)
    requires n <= |ranges|
  {
    forall i :: 0 <= i < n && Bounded(ranges[i]) ==> Holds(RangeClause(ranges[i]), metadata)
  }

  lemma AllHoldAppend(clauses: seq<Clause>, clause: Clause)
    ensures forall metadata :: AllHold(clauses + [clause], metadata) <==>
                               (AllHold(clauses, metadata) && Holds(clause, metadata))
  {
    hide Holds;
    forall metadata
      ensures AllHold(clauses + [clause], metadata) <==> AllHold(clauses, metadata) && Holds(clause, metadata)
    {
      var more := clauses + [clause];
      assert more[|clauses|] == clause;
      if AllHold(more, metadata) {
        forall i | 0 <= i < |clauses| ensures Holds(clauses[i], metadata) {
          assert more[i] == clauses[i];
        }
      }
    }
  }

  // ---- What the clauses mean -------------------------------------------------------------------

  lemma LevelTextsDiffer(a: AccessLevel, b: AccessLevel)
    ensures LevelText(a) == LevelText(b) <==> a == b
  {
    assert LevelText(Public)[0] == 'p' && LevelText(Internal)[0] == 'i';
    assert LevelText(Confidential)[0] == 'c' && LevelText(Restricted)[0] == 'r';
  }

  lemma {:induction false} SortedTextsShape(levels: set<AccessLevel>, order: seq<AccessLevel>, level: AccessLevel)
    ensures LevelText(level) in SortedTexts(levels, order) <==> level in levels && level in order
  {
    if order != [] {
      SortedTextsShape(levels, order[1..], level);
      LevelTextsDiffer(level, order[0]);
      hide LevelText;
      assert order == [order[0]] + order[1..];
    }
  }

  lemma EveryLevelIsListed(level: AccessLevel)
    ensures level in LEVELS_BY_TEXT
  {
    assert LEVELS_BY_TEXT[0] == Confidential && LEVELS_BY_TEXT[1] == Internal;
    assert LEVELS_BY_TEXT[2] == Public && LEVELS_BY_TEXT[3] == Restricted;
  }

  lemma BaseMeans(
      principal: Principal, fingerprint: string, levels: set<AccessLevel>, base: seq<Clause>, chunk: Chunk,
      build: string)
    requires ValidChunk(chunk)
    requires base == [
      Clause(BuildFingerprint, Eq(fingerprint)),
      Clause(AccessLevelField, In(SortedTexts(levels, LEVELS_BY_TEXT))),
      Clause(AllowedRoles, In([principal.role]))]
    ensures AllHold(base, ChunkMetadata(chunk, build)) <==>
            build == fingerprint && chunk.accessLevel in levels && principal.role in chunk.allowedRoles
  {
    hide SortedTexts, LevelText, EpochDay;
    var metadata := ChunkMetadata(chunk, build);
    SortedTextsShape(levels, LEVELS_BY_TEXT, chunk.accessLevel);
    EveryLevelIsListed(chunk.accessLevel);
    assert Holds(base[0], metadata) <==> build == fingerprint;
    assert Holds(base[1], metadata) <==> chunk.accessLevel in levels;
    OverlapOne(chunk.allowedRoles, principal.role);
    assert Holds(base[2], metadata) <==> principal.role in chunk.allowedRoles;
  }

  lemma OverlapOne(texts: seq<string>, text: string)
    ensures Overlap(texts, [text]) <==> text in texts
  {
    assert [text][0] == text;
  }

  lemma OverlapSymmetric(a: seq<string>, b: seq<string>)
    ensures Overlap(a, b) <==> Overlap(b, a)
  {
  }

  lemma LevelsNarrow(principal: Principal, filters: Filters, levels: set<AccessLevel>, chunk: Chunk)
    requires filters.accessLevels != [] ==> Members(filters.accessLevels) <= principal.levels
    requires levels == if Members(filters.accessLevels) != {} then Members(filters.accessLevels) else principal.levels
    ensures chunk.accessLevel in levels <==>
            chunk.accessLevel in principal.levels
            && (filters.accessLevels != [] ==> chunk.accessLevel in filters.accessLevels)
  {
    if filters.accessLevels != [] { assert filters.accessLevels[0] in Members(filters.accessLevels); }
  }

  lemma RangeMeans(date: Date, from: Option<Date>, to: Option<Date>, field: Field, metadata: Metadata)
    requires Valid(date) && ValidBound(from) && ValidBound(to)
    requires field in metadata && metadata[field] == Number(EpochDay(date) as real)
    ensures (Bounded((field, from, to)) ==> Holds(RangeClause((field, from, to)), metadata)) <==>
            !OutsideBounds(date, from, to)
  {
    hide EpochDay;
    if from.Some? { OrdinalOrder(date, from.value); }
    if to.Some? { OrdinalOrder(to.value, date); }
  }

  lemma OptionalMeans(filters: Filters, chunk: Chunk, build: string)
    requires ValidFilters(filters) && ValidChunk(chunk)
    ensures (Asked(filters, ChunkMetadata(chunk, build))
             && (filters.accessLevels != [] ==> chunk.accessLevel in filters.accessLevels))
            <==> Selected(chunk, filters)
  {
    hide EpochDay, LevelText, Before, Valid;
    var metadata := ChunkMetadata(chunk, build);
    RangeMeans(chunk.created, filters.createdFrom, filters.createdTo, CreatedDay, metadata);
    RangeMeans(chunk.updated, filters.updatedFrom, filters.updatedTo, UpdatedDay, metadata);
    OverlapSymmetric(chunk.tags, filters.tags);
    AskedParts(filters, metadata);
  }

  lemma AskedParts(filters: Filters, metadata: Metadata)
    ensures Asked(filters, metadata) <==>
      && (filters.departments != [] ==> Holds(Clause(Department, In(filters.departments)), metadata))
      && (filters.documentTypes != [] ==> Holds(Clause(DocumentType, In(filters.documentTypes)), metadata))
      && (filters.statuses != [] ==> Holds(Clause(Status, In(filters.statuses)), metadata))
      && (filters.documentIds != [] ==> Holds(Clause(DocumentId, In(filters.documentIds)), metadata))
      && (filters.tags != [] ==> Holds(Clause(Tags, In(filters.tags)), metadata))
      && (Bounded((CreatedDay, filters.createdFrom, filters.createdTo)) ==>
            Holds(RangeClause((CreatedDay, filters.createdFrom, filters.createdTo)), metadata))
      && (Bounded((UpdatedDay, filters.updatedFrom, filters.updatedTo)) ==>
            Holds(RangeClause((UpdatedDay, filters.updatedFrom, filters.updatedTo)), metadata))
  {
    hide Holds, RangeClause, Bounded;
    var m, r := Mappings(filters), Ranges(filters);
    assert m[0] == (Department, filters.departments) && m[1] == (DocumentType, filters.documentTypes);
    assert m[2] == (Status, filters.statuses) && m[3] == (DocumentId, filters.documentIds);
    assert m[4] == (Tags, filters.tags);
    assert r[0] == (CreatedDay, filters.createdFrom, filters.createdTo);
    assert r[1] == (UpdatedDay, filters.updatedFrom, filters.updatedTo);
  }
}
