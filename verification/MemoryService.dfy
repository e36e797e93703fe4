/** The application service in front of the conversation store: what it hands over is capped so that the
    store can keep it. */
module MemoryService {
  import opened Prelude
  import opened Reducers
  import opened MemoryTurns
  import opened MemoryStore
  import opened MemoryRuns

  /** `reference` holds the fields copied into the stored reference. */
  datatype Evidence = Evidence(chunk: nat, roles: set<string>, level: string, reference: Reference)

  /** The role of a principal and the access levels its permissions allow. */
  datatype Principal = Principal(ownership: Ownership, role: string, levels: set<string>)

  datatype ServiceSettings = ServiceSettings(
    enabled: bool, maximumUser: nat, maximumAssistant: nat, maximumWarnings: nat, store: Settings)

  /** The bounds the settings class puts on its fields. */
  predicate ServiceBounds(settings: ServiceSettings) {
    && InBounds(settings.store) && 1 <= settings.maximumUser <= 4_000 && 1 <= settings.maximumAssistant <= 32_000
    && 1 <= settings.maximumWarnings <= 100
  }

  datatype Status = Completed | Partial | Denied | Failed

  datatype Exchange = Exchange(
    request: nat, userMessage: string, assistantMessage: string, warnings: seq<string>, details: string,
    status: Status, evidence: seq<Evidence>)

  predicate Visible(principal: Principal, item: Evidence) {
    principal.role in item.roles && item.level in principal.levels
  }

  predicate Repeats(items: seq<Evidence>, chunk: nat) {
    exists i :: 0 <= i < |items| && items[i].chunk == chunk
  }

  /** The visible items, each chunk at its first visible occurrence. */
  function FirstVisible(principal: Principal, evidence: seq<Evidence>): seq<Evidence> {
    if evidence == [] then []
    else
      var n := |evidence| - 1;
      var before := FirstVisible(principal, evidence[..n]);
      if Visible(principal, evidence[n]) && !Repeats(before, evidence[n].chunk) then before + [evidence[n]] else before
  }

  function Copied(items: seq<Evidence>): seq<Reference> {
    seq(|items|, i requires 0 <= i < |items| => items[i].reference)
  }

  function References(settings: ServiceSettings, principal: Principal, evidence: seq<Evidence>): seq<Reference> {
    Copied(AtMost(FirstVisible(principal, evidence), settings.store.maximumReferences))
  }

  /** Every reference that is built, also one past the cap, is within its bounds. */
  predicate Referable(principal: Principal, evidence: seq<Evidence>) {
    var kept := FirstVisible(principal, evidence);
    forall i :: 0 <= i < |kept| ==> ReferenceBounds(kept[i].reference)
  }

  method EvidenceReferences(settings: ServiceSettings, principal: Principal, evidence: seq<Evidence>)
    returns (result: Result<seq<Reference>, StoreError>)
    ensures result == if Referable(principal, evidence) then Ok(References(settings, principal, evidence))
                      else Err(InvalidReference)
  {
    hide ReferenceBounds;
    var seen: set<nat> := {};
    var references: seq<Reference> := [];
    for i := 0 to |evidence|
      invariant references == Copied(FirstVisible(principal, evidence[..i]))
      invariant Referable(principal, evidence[..i])
      invariant forall c :: c in seen <==> Repeats(FirstVisible(principal, evidence[..i]), c)
    {
      var item, before := evidence[i], FirstVisible(principal, evidence[..i]);
      assert evidence[..i + 1][..i] == evidence[..i];
      if item.chunk !in seen && principal.role in item.roles && item.level in principal.levels {
        RepeatsMore(before, item);
        seen := seen + {item.chunk};
        if !ReferenceBounds(item.reference) {
          assert FirstVisible(principal, evidence[..i + 1])[|before|] == item;
          NotReferable(principal, evidence, i + 1);
          return Err(InvalidReference);
        }
        references := references + [item.reference];
      }
    }
    assert evidence[..|evidence|] == evidence;
    var capped := AtMost(references, settings.store.maximumReferences);
    assert capped == References(settings, principal, evidence);
    return Ok(capped);
  }

  lemma {:induction false} FirstVisibleGrows(principal: Principal, evidence: seq<Evidence>, i: nat)
    requires i <= |evidence|
    ensures FirstVisible(principal, evidence[..i]) <= FirstVisible(principal, evidence)
    decreases |evidence| - i
  {
    hide Visible, Repeats;
    if i == |evidence| {
      assert evidence[..i] == evidence;
    } else {
      assert evidence[..i + 1][..i] == evidence[..i];
      FirstVisibleGrows(principal, evidence, i + 1);
    }
  }

  /** Once a reference is out of bounds, no further item makes up for it. */
  lemma NotReferable(principal: Principal, evidence: seq<Evidence>, i: nat)
    requires i <= |evidence| && !Referable(principal, evidence[..i])
    ensures !Referable(principal, evidence)
  {
    hide FirstVisible, ReferenceBounds;
    FirstVisibleGrows(principal, evidence, i);
    var kept := FirstVisible(principal, evidence[..i]);
    var k :| 0 <= k < |kept| && !ReferenceBounds(kept[k].reference);
    assert FirstVisible(principal, evidence)[k] == kept[k];
  }

  lemma RepeatsMore(items: seq<Evidence>, item: Evidence)
    ensures forall c :: Repeats(items + [item], c) <==> Repeats(items, c) || c == item.chunk
  {
    var more := items + [item];
    forall c
      ensures Repeats(more, c) <==> Repeats(items, c) || c == item.chunk
    {
      if Repeats(items, c) {
        var i :| 0 <= i < |items| && items[i].chunk == c;
        assert more[i].chunk == c;
      }
      assert more[|items|] == item;
    }
  }

  datatype Preparation = Skipped | Unreferable | Ready(update: Update)

  /** What is handed to the store, if anything. */
  function Prepared(settings: ServiceSettings, principal: Principal, exchange: Exchange): Preparation {
    if !settings.enabled || exchange.status == Failed then Skipped
    else if exchange.status != Denied && !Referable(principal, exchange.evidence) then Unreferable
    else Ready(Update(
      principal.ownership.session, principal.ownership.user, exchange.request,
      AtMost(exchange.userMessage, settings.maximumUser), AtMost(exchange.assistantMessage, settings.maximumAssistant),
      if exchange.status == Denied then [] else References(settings, principal, exchange.evidence),
      AtMost(AppendNew([], exchange.warnings), settings.maximumWarnings), exchange.details))
  }

  method UpdateMemory(
      settings: ServiceSettings, store: InMemoryConversationStore, principal: Principal, exchange: Exchange, now: int)
    returns (result: Result<Written, StoreError>)
    requires store.Valid() && store.settings == settings.store
    modifies store
    ensures store.Valid()
    ensures match Prepared(settings, principal, exchange)
            case Skipped => store.State() == old(store.State()) && result == Ok(Written(false, false, 0, 0))
            case Unreferable => store.State() == old(store.State()) && result == Err(InvalidReference)
            case Ready(update) =>
              (store.State(), result) ==
              UpsertStep(settings.store, old(store.State()), principal.ownership, update, now)
  {
    hide Referable;
    if !settings.enabled || exchange.status == Failed { return Ok(Written(false, false, 0, 0)); }
    var user := AtMost(exchange.userMessage, settings.maximumUser);
    var assistant := AtMost(exchange.assistantMessage, settings.maximumAssistant);
    var references := [];
    if exchange.status != Denied {
      var built := EvidenceReferences(settings, principal, exchange.evidence);
      if built.Err? { return Err(built.error); }
      references := built.value;
    }
    var warnings := AtMost(AppendNew([], exchange.warnings), settings.maximumWarnings);
    var update := Update(principal.ownership.session, principal.ownership.user, exchange.request,
                         user, assistant, references, warnings, exchange.details);
    result := store.UpsertTurn(principal.ownership, update, now);
  }

  // ---- The references --------------------------------------------------------------------------

  /** The role is allowed on the item and its level is one of those the principal may see. */
  ghost predicate MayRead(principal: Principal, item: Evidence) {
    (exists role :: role in item.roles && role == principal.role)
    && exists level :: level in principal.levels && level == item.level
  }

  /** Position i is kept when its item is visible and no visible item before it has the same chunk. */
  ghost predicate FirstOfItsChunk(principal: Principal, evidence: seq<Evidence>, i: nat)
    requires i < |evidence|
  {
    && MayRead(principal, evidence[i])
    && forall j :: 0 <= j < i && evidence[j].chunk == evidence[i].chunk ==> !MayRead(principal, evidence[j])
  }

  lemma VisibleMeans(principal: Principal)
    ensures forall item :: Visible(principal, item) <==> MayRead(principal, item)
  {
  }

  /** The kept items are exactly the first visible ones of their chunks, one for each chunk. */
  ghost predicate DistinctChunks(items: seq<Evidence>) {
    forall k, l :: 0 <= k < l < |items| ==> items[k].chunk != items[l].chunk
  }

  lemma DistinctMore(items: seq<Evidence>, item: Evidence)
    requires DistinctChunks(items) && !Repeats(items, item.chunk)
    ensures DistinctChunks(items + [item])
  {
  }

  lemma {:induction false} FirstVisibleDistinct(principal: Principal, evidence: seq<Evidence>)
    ensures DistinctChunks(FirstVisible(principal, evidence))
    ensures forall k :: 0 <= k < |FirstVisible(principal, evidence)| ==>
            Visible(principal, FirstVisible(principal, evidence)[k])
    decreases |evidence|
  {
    if evidence != [] {
      var n := |evidence| - 1;
      FirstVisibleDistinct(principal, evidence[..n]);
      var before := FirstVisible(principal, evidence[..n]);
      if !Repeats(before, evidence[n].chunk) { DistinctMore(before, evidence[n]); }
      hide DistinctChunks, Repeats;
    }
  }

  ghost predicate ShowsChunk(principal: Principal, evidence: seq<Evidence>, chunk: nat) {
    exists i :: 0 <= i < |evidence| && Visible(principal, evidence[i]) && evidence[i].chunk == chunk
  }

  lemma ShowsMore(principal: Principal, evidence: seq<Evidence>, item: Evidence)
    ensures forall c :: ShowsChunk(principal, evidence + [item], c) <==>
                        ShowsChunk(principal, evidence, c) || (Visible(principal, item) && c == item.chunk)
  {
    hide Visible;
    var more := evidence + [item];
    assert more[|evidence|] == item && forall i :: 0 <= i < |evidence| ==> more[i] == evidence[i];
    forall c
      ensures ShowsChunk(principal, more, c) <==>
              ShowsChunk(principal, evidence, c) || (Visible(principal, item) && c == item.chunk)
    {
      if ShowsChunk(principal, evidence, c) {
        var i :| 0 <= i < |evidence| && Visible(principal, evidence[i]) && evidence[i].chunk == c;
        assert more[i] == evidence[i];
      }
    }
  }

  lemma {:induction false} FirstVisibleChunks(principal: Principal, evidence: seq<Evidence>)
    ensures forall c :: Repeats(FirstVisible(principal, evidence), c) <==> ShowsChunk(principal, evidence, c)
    decreases |evidence|
  {
    if evidence != [] {
      var n := |evidence| - 1;
      FirstVisibleChunks(principal, evidence[..n]);
      RepeatsMore(FirstVisible(principal, evidence[..n]), evidence[n]);
      ShowsMore(principal, evidence[..n], evidence[n]);
      assert evidence == evidence[..n] + [evidence[n]];
      hide Repeats, ShowsChunk, Visible;
    }
  }

  lemma {:induction false} FirstsAreKept(principal: Principal, evidence: seq<Evidence>)
    ensures forall i :: 0 <= i < |evidence| && FirstOfItsChunk(principal, evidence, i) ==>
                          evidence[i] in FirstVisible(principal, evidence)
    decreases |evidence|
  {
    VisibleMeans(principal);
    hide Visible, MayRead;
    if evidence != [] {
      var n := |evidence| - 1;
      var before, kept := FirstVisible(principal, evidence[..n]), FirstVisible(principal, evidence);
      FirstsAreKept(principal, evidence[..n]);
      FirstVisibleChunks(principal, evidence[..n]);
      forall i | 0 <= i <= n && FirstOfItsChunk(principal, evidence, i)
        ensures evidence[i] in kept
      {
        if i < n {
          assert FirstOfItsChunk(principal, evidence[..n], i);
          assert evidence[..n][i] in before;
        } else {
          NoneBefore(principal, evidence);
        }
      }
    }
  }

  lemma NoneBefore(principal: Principal, evidence: seq<Evidence>)
    requires evidence != [] && FirstOfItsChunk(principal, evidence, |evidence| - 1)
    ensures !ShowsChunk(principal, evidence[..|evidence| - 1], evidence[|evidence| - 1].chunk)
  {
    VisibleMeans(principal);
    hide Visible, MayRead;
  }

  lemma FirstVisibleShape(principal: Principal, evidence: seq<Evidence>)
    ensures var kept := FirstVisible(principal, evidence);
            && (forall i :: 0 <= i < |evidence| && FirstOfItsChunk(principal, evidence, i) ==> evidence[i] in kept)
            && (forall k :: 0 <= k < |kept| ==> MayRead(principal, kept[k])) && DistinctChunks(kept)
            && (forall c :: Repeats(kept, c) <==> ShowsChunk(principal, evidence, c))
  {
    hide FirstVisible, Visible, MayRead, FirstOfItsChunk, Repeats, ShowsChunk, DistinctChunks;
    VisibleMeans(principal);
    FirstVisibleDistinct(principal, evidence);
    FirstsAreKept(principal, evidence);
    FirstVisibleChunks(principal, evidence);
  }

  /** The positions of the first visible items of their chunks, in order. */
  ghost predicate FirstsAt(principal: Principal, evidence: seq<Evidence>, at: seq<nat>) {
    && (forall k :: 0 <= k < |at| ==> at[k] < |evidence| && FirstOfItsChunk(principal, evidence, at[k]))
    && (forall k, l :: 0 <= k < l < |at| ==> at[k] < at[l])
    && forall i :: 0 <= i < |evidence| && FirstOfItsChunk(principal, evidence, i) ==> i in at
  }

  lemma {:induction false} FirstVisibleMeans(principal: Principal, evidence: seq<Evidence>) returns (at: seq<nat>)
    ensures FirstsAt(principal, evidence, at)
    ensures var kept := FirstVisible(principal, evidence);
            |kept| == |at| && forall k :: 0 <= k < |at| ==> kept[k] == evidence[at[k]]
    decreases |evidence|
  {
    hide Visible, MayRead, Repeats, ShowsChunk, FirstOfItsChunk, FirstsAt;
    if evidence == [] {
      at := [];
      NoFirsts(principal);
    } else {
      var n := |evidence| - 1;
      at := FirstVisibleMeans(principal, evidence[..n]);
      InRangeFirsts(principal, evidence[..n], at);
      FirstVisibleChunks(principal, evidence[..n]);
      LastIsFirst(principal, evidence);
      FirstsMore(principal, evidence, at);
      if FirstOfItsChunk(principal, evidence, n) { at := at + [n]; }
    }
  }

  lemma NoFirsts(principal: Principal)
    ensures FirstsAt(principal, [], [])
  {
  }

  lemma InRangeFirsts(principal: Principal, evidence: seq<Evidence>, at: seq<nat>)
    requires FirstsAt(principal, evidence, at)
    ensures forall k :: 0 <= k < |at| ==> at[k] < |evidence|
  {
  }

  lemma LastIsFirst(principal: Principal, evidence: seq<Evidence>)
    requires evidence != []
    ensures var n := |evidence| - 1;
            FirstOfItsChunk(principal, evidence, n) <==>
            Visible(principal, evidence[n]) && !ShowsChunk(principal, evidence[..n], evidence[n].chunk)
  {
    VisibleMeans(principal);
    hide Visible, MayRead;
    var n := |evidence| - 1;
    assert forall j :: 0 <= j < n ==> evidence[..n][j] == evidence[j];
  }

  lemma FirstsMore(principal: Principal, evidence: seq<Evidence>, at: seq<nat>)
    requires evidence != [] && FirstsAt(principal, evidence[..|evidence| - 1], at)
    ensures var n := |evidence| - 1;
            FirstsAt(principal, evidence, if FirstOfItsChunk(principal, evidence, n) then at + [n] else at)
  {
    hide FirstOfItsChunk;
    var n := |evidence| - 1;
    forall i | 0 <= i < n
      ensures FirstOfItsChunk(principal, evidence, i) <==> FirstOfItsChunk(principal, evidence[..n], i)
    {
      FirstInPrefix(principal, evidence, n, i);
    }
    var more := at + [n];
    assert more[|at|] == n && forall k :: 0 <= k < |at| ==> more[k] == at[k];
  }

  lemma FirstInPrefix(principal: Principal, evidence: seq<Evidence>, n: nat, i: nat)
    requires i < n <= |evidence|
    ensures FirstOfItsChunk(principal, evidence, i) <==> FirstOfItsChunk(principal, evidence[..n], i)
  {
    hide MayRead;
    assert forall j :: 0 <= j < n ==> evidence[..n][j] == evidence[j];
  }

  // ---- What is prepared ------------------------------------------------------------------------

  /** At most so much from the start. */
  ghost predicate CutTo<T>(part: seq<T>, whole: seq<T>, maximum: nat) {
    part <= whole && |part| == if |whole| <= maximum then |whole| else maximum
  }

  ghost predicate ReferencesOf(evidence: seq<Evidence>, at: seq<nat>, maximum: nat, references: seq<Reference>) {
    && |references| == (if |at| <= maximum then |at| else maximum)
    && forall k :: 0 <= k < |references| ==> at[k] < |evidence| && references[k] == evidence[at[k]].reference
  }

  /** Title, file, department and version say something and are short enough, and so are the section headings. */
  ghost predicate Acceptable(reference: Reference) {
    && 0 < |reference.title| < 501 && 0 < |reference.sourceFile| < 2_049
    && 0 < |reference.department| < 201 && 0 < |reference.version| < 101
    && forall heading :: heading in reference.section ==> |heading| < 501
  }

  lemma AcceptableMeans()
    ensures forall reference :: ReferenceBounds(reference) <==> Acceptable(reference)
  {
    forall reference
      ensures ReferenceBounds(reference) <==> Acceptable(reference)
    {
      assert forall i :: 0 <= i < |reference.section| ==> reference.section[i] in reference.section;
    }
  }

  /** Nothing is prepared when memory is off or the run failed; otherwise the update is the principal's own, with
      the starts of both messages and of the distinct warnings, and the references of the first visible items of
      their chunks, or none for a denied run.  It fails exactly when one of those items has no valid reference. */
  lemma PreparedMeans(settings: ServiceSettings, principal: Principal, exchange: Exchange) returns (at: seq<nat>)
    ensures FirstsAt(principal, exchange.evidence, at)
    ensures forall k :: 0 <= k < |at| ==> at[k] < |exchange.evidence|
    ensures Prepared(settings, principal, exchange).Skipped? <==> !settings.enabled || exchange.status == Failed
    ensures Prepared(settings, principal, exchange).Unreferable? <==>
              && settings.enabled && exchange.status != Failed && exchange.status != Denied
              && exists k :: 0 <= k < |at| && !Acceptable(exchange.evidence[at[k]].reference)
    ensures Prepared(settings, principal, exchange).Ready? ==>
              var update := Prepared(settings, principal, exchange).update;
              && update.session == principal.ownership.session && update.user == principal.ownership.user
              && update.request == exchange.request && update.details == exchange.details
              && CutTo(update.userMessage, exchange.userMessage, settings.maximumUser)
              && CutTo(update.assistantMessage, exchange.assistantMessage, settings.maximumAssistant)
              && CutTo(update.warnings, AppendNew([], exchange.warnings), settings.maximumWarnings)
              && (if exchange.status == Denied then update.references == []
                  else ReferencesOf(exchange.evidence, at, settings.store.maximumReferences, update.references))
  {
    hide FirstVisible, AppendNew, ReferenceBounds, FirstOfItsChunk, FirstsAt, Referable, References, ReferencesOf,
         CutTo, AtMost, Acceptable;
    at := FirstVisibleMeans(principal, exchange.evidence);
    AcceptableMeans();
    InRangeFirsts(principal, exchange.evidence, at);
    ReferableMeans(principal, exchange.evidence, at);
    ReferencesMean(settings, principal, exchange.evidence, at);
    CutMeans(exchange.userMessage, settings.maximumUser);
    CutMeans(exchange.assistantMessage, settings.maximumAssistant);
    CutMeans(AppendNew([], exchange.warnings), settings.maximumWarnings);
  }

  lemma CutMeans<T>(whole: seq<T>, maximum: nat)
    ensures CutTo(AtMost(whole, maximum), whole, maximum)
  {
  }

  lemma ReferencesMean(settings: ServiceSettings, principal: Principal, evidence: seq<Evidence>, at: seq<nat>)
    requires var kept := FirstVisible(principal, evidence);
             |kept| == |at| && forall k :: 0 <= k < |at| ==> at[k] < |evidence| && kept[k] == evidence[at[k]]
    ensures ReferencesOf(evidence, at, settings.store.maximumReferences, References(settings, principal, evidence))
  {
    hide FirstVisible;
  }

  lemma ReferableMeans(principal: Principal, evidence: seq<Evidence>, at: seq<nat>)
    requires var kept := FirstVisible(principal, evidence);
             |kept| == |at| && forall k :: 0 <= k < |at| ==> at[k] < |evidence| && kept[k] == evidence[at[k]]
    ensures !Referable(principal, evidence) <==>
            exists k :: 0 <= k < |at| && at[k] < |evidence| && !ReferenceBounds(evidence[at[k]].reference)
  {
    hide FirstVisible, ReferenceBounds;
  }

  // ---- What the caps buy -----------------------------------------------------------------------

  /** A turn prepared by the service is within the reference cap, so once stored it survives its own
      eviction pass, and repeating the request is recognised for as long as the session lives. */
  lemma ServiceTurnSurvives(
      settings: ServiceSettings, store: Store, principal: Principal, exchange: Exchange, now: int, later: int)
    requires InBounds(settings.store) && Ordered(store) && |store.sessions| <= settings.store.maximumSessions
    requires Prepared(settings, principal, exchange).Ready?
    requires var update := Prepared(settings, principal, exchange).update;
             var first := UpsertStep(settings.store, store, principal.ownership, update, now).1;
             first.Ok? && first.value.stored
    requires later < now + settings.store.ttl
    ensures var update := Prepared(settings, principal, exchange).update;
            var (after, first) := UpsertStep(settings.store, store, principal.ownership, update, now);
            && Ordered(after) && principal.ownership.session in after.sessions
            && var kept := after.sessions[principal.ownership.session].turns;
            && kept != [] && kept[|kept| - 1] == Turn(first.value.sequence, update)
            && UpsertStep(settings.store, after, principal.ownership, update, later)
                 == (after, Ok(Written(false, true, first.value.sequence, 0)))
  {
    hide Reopened, Evict, Fits, Ordered, TurnBounds, Referable;
    var update := Prepared(settings, principal, exchange).update;
    RetryIsRecognised(settings.store, store, principal.ownership, update, now, later);
    var ready := Reopened(settings.store, store, principal.ownership, now);
    var session := ready.sessions[principal.ownership.session];
    var t := Turn(session.nextSequence, update);
    SingleTurnFits(settings.store, t);
    NewTurnSurvives(settings.store, session.turns, t);
  }

  // ---- When the turn model refuses -------------------------------------------------------------

  /** Both messages say something, the assistant's cap or the message itself is within the turn's bound, and
      so are the warnings that are kept.  The user's cap is never above the turn's bound. */
  predicate Storable(settings: ServiceSettings, exchange: Exchange) {
    && exchange.userMessage != "" && exchange.assistantMessage != ""
    && (settings.maximumAssistant <= 8_000 || |exchange.assistantMessage| <= 8_000)
    && forall w :: w in AtMost(AppendNew([], exchange.warnings), settings.maximumWarnings) ==> |w| <= 500
  }

  lemma StorableIsInBounds(settings: ServiceSettings, principal: Principal, exchange: Exchange)
    requires ServiceBounds(settings) && Prepared(settings, principal, exchange).Ready?
    ensures TurnBounds(Prepared(settings, principal, exchange).update) <==> Storable(settings, exchange)
  {
    hide References, Referable, AppendNew, AtMost;
    MessagesWithin(exchange.userMessage, settings.maximumUser);
    MessagesWithin(exchange.assistantMessage, settings.maximumAssistant);
  }

  lemma MessagesWithin(message: string, maximum: nat)
    ensures |AtMost(message, maximum)| == if |message| <= maximum then |message| else maximum
  {
  }

  /** The turn model refuses a prepared update exactly when the exchange is not storable, unless the session
      belongs to someone else; the session has been opened by then and is left as it is. */
  lemma RefusedIff(settings: ServiceSettings, store: Store, principal: Principal, exchange: Exchange, now: int)
    requires ServiceBounds(settings) && Ordered(store) && Prepared(settings, principal, exchange).Ready?
    ensures var update := Prepared(settings, principal, exchange).update;
            var ready := Reopened(settings.store, store, principal.ownership, now);
            var (after, result) := UpsertStep(settings.store, store, principal.ownership, update, now);
            && (result == Err(InvalidTurn) <==>
                (ready.sessions[principal.ownership.session].ownership == principal.ownership
                 && !Storable(settings, exchange)))
            && (result == Err(InvalidTurn) ==> after == ready)
  {
    hide Reopened, Ordered, References, Referable, TurnBounds, Storable, Existing, Stored;
    StorableIsInBounds(settings, principal, exchange);
    var ready := Reopened(settings.store, store, principal.ownership, now);
    var session := ready.sessions[principal.ownership.session];
    assert ready.sessions[principal.ownership.session := session] == ready.sessions;
  }

  // ---- When the capacity error can occur -------------------------------------------------------

  /** The longest assistant message that can reach the store. */
  function AssistantLimit(settings: ServiceSettings): nat {
    if settings.maximumAssistant <= LONGEST_ASSISTANT_MESSAGE then settings.maximumAssistant
    else LONGEST_ASSISTANT_MESSAGE
  }

  /** The service can never meet the store's capacity error exactly when the longest messages it can store
      fit the store's character cap together; longer ones are refused before the cap is looked at. */
  lemma CapacityErrorIsRuledOut(settings: ServiceSettings)
    requires ServiceBounds(settings) && settings.enabled
    ensures settings.maximumUser + AssistantLimit(settings) <= settings.store.maximumCharacters <==>
            forall principal, exchange :: NeverOverCapacity(settings, principal, exchange)
  {
    if settings.maximumUser + AssistantLimit(settings) > settings.store.maximumCharacters {
      var principal, exchange := CapacityErrorOccurs(settings);
      assert !NeverOverCapacity(settings, principal, exchange);
    } else {
      forall principal, exchange
        ensures NeverOverCapacity(settings, principal, exchange)
      {
        WithinCapacity(settings, principal, exchange);
      }
    }
  }

  ghost predicate NeverOverCapacity(settings: ServiceSettings, principal: Principal, exchange: Exchange)
    requires InBounds(settings.store)
  {
    var prepared := Prepared(settings, principal, exchange);
    prepared.Ready? ==> forall store, now :: Ordered(store) ==>
      UpsertStep(settings.store, store, principal.ownership, prepared.update, now).1 != Err(CapacityError)
  }

  function Blank(n: nat): string {
    seq(n, i => ' ')
  }

  lemma WithinCapacity(settings: ServiceSettings, principal: Principal, exchange: Exchange)
    requires ServiceBounds(settings)
    requires settings.maximumUser + AssistantLimit(settings) <= settings.store.maximumCharacters
    ensures NeverOverCapacity(settings, principal, exchange)
  {
    hide Reopened, Ordered, References, Referable, AllWithin, AppendNew, Existing, Stored;
  }

  /** Two storable messages that do not fit together, in an exchange of a new session. */
  lemma CapacityErrorOccurs(settings: ServiceSettings) returns (principal: Principal, exchange: Exchange)
    requires ServiceBounds(settings) && settings.enabled
    requires settings.maximumUser + AssistantLimit(settings) > settings.store.maximumCharacters
    ensures Storable(settings, exchange) && Ordered(EMPTY) && Prepared(settings, principal, exchange).Ready?
    ensures var update := Prepared(settings, principal, exchange).update;
            UpsertStep(settings.store, EMPTY, principal.ownership, update, 0).1 == Err(CapacityError)
  {
    principal := Principal(Ownership(0, 0, ""), "", {});
    exchange := Exchange(0, Blank(settings.maximumUser), Blank(AssistantLimit(settings)), [], "", Denied, []);
    hide Capacity, Referable, References, Reopened;
    StorableIsInBounds(settings, principal, exchange);
    ReopenedShape(settings.store, EMPTY, principal.ownership, 0);
  }
}
