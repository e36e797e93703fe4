/** Runs of the conversation store, compared with the logs of its sessions. */
module MemoryRuns {
  import opened Prelude
  import opened Sequences
  import opened MemoryTurns
  import opened MemoryStore

  datatype Operation =
    | LoadSession(ownership: Ownership, now: int)
    | StoreTurn(ownership: Ownership, update: Update, now: int)
    | DeleteSession(ownership: Ownership)
    | CleanUp(now: int, maximum: nat)

  type Logs = map<SessionId, seq<Turn>>

  function Step(settings: Settings, store: Store, op: Operation): Store
    requires InBounds(settings) && Ordered(store)
  {
    match op
    case LoadSession(ownership, now) => LoadStep(store, ownership, now).0
    case StoreTurn(ownership, update, now) => UpsertStep(settings, store, ownership, update, now).0
    case DeleteSession(ownership) => DeleteStep(store, ownership).0
    case CleanUp(now, maximum) => Cleaned(store, now, maximum).0
  }

  predicate Identified(ownership: Ownership, update: Update) {
    update.session == ownership.session && update.user == ownership.user
  }

  function LogOf(logs: Logs, id: SessionId): seq<Turn> {
    if id in logs then logs[id] else []
  }

  /** Every turn stored since the session was created; a session that had expired is created anew. */
  function LogAfter(settings: Settings, store: Store, logs: Logs, op: Operation, id: SessionId): seq<Turn>
    requires InBounds(settings) && Ordered(store)
  {
    if op.StoreTurn? && id == op.ownership.session && Identified(op.ownership, op.update) then
      var before := if Live(store, id, op.now) then LogOf(logs, id) else [];
      var result := UpsertStep(settings, store, op.ownership, op.update, op.now).1;
      if result.Ok? && result.value.stored then before + [Turn(|before| + 1, op.update)] else before
    else LogOf(logs, id)
  }

  function LogsAfter(settings: Settings, store: Store, logs: Logs, op: Operation): Logs
    requires InBounds(settings) && Ordered(store)
  {
    map id | id in Step(settings, store, op).sessions :: LogAfter(settings, store, logs, op, id)
  }

  ghost predicate DistinctRequests(turns: seq<Turn>) {
    forall i, j :: 0 <= i < j < |turns| ==> turns[i].update.request != turns[j].update.request
  }

  ghost predicate AllInBounds(log: seq<Turn>) {
    forall t :: t in log ==> TurnBounds(t.update)
  }

  /** The session is what its log determines: the longest end that fits, numbered consecutively; every turn
      of the log is within the bounds of the turn model. */
  ghost predicate Follows(settings: Settings, session: Session, log: seq<Turn>) {
    && LongestFitting(settings, log, session.turns)
    && Numbered(log) && session.nextSequence == |log| + 1
    && DistinctRequests(session.turns)
    && AllInBounds(log)
  }

  ghost predicate AllFollow(settings: Settings, store: Store, logs: Logs) {
    && logs.Keys == store.sessions.Keys
    && forall id :: id in store.sessions ==> Follows(settings, store.sessions[id], logs[id])
  }

  ghost predicate Tracks(settings: Settings, store: Store, logs: Logs) {
    && Ordered(store) && |store.sessions| <= settings.maximumSessions
    && AllFollow(settings, store, logs)
  }

  // ---- One session -----------------------------------------------------------------------------

  lemma {:induction false} ExistingShape(turns: seq<Turn>, request: nat)
    ensures Existing(turns, request).Some? ==>
              Existing(turns, request).value in turns && Existing(turns, request).value.update.request == request
    ensures Existing(turns, request).None? <==> forall t :: t in turns ==> t.update.request != request
  {
    if turns != [] {
      ExistingShape(turns[1..], request);
      assert turns == [turns[0]] + turns[1..];
    }
  }

  lemma SuffixDistinct(kept: seq<Turn>, turns: seq<Turn>)
    requires IsSuffix(kept, turns) && DistinctRequests(turns)
    ensures DistinctRequests(kept)
  {
  }

  lemma NewSessionFollows(settings: Settings, ownership: Ownership, now: int)
    ensures Follows(settings, NewSession(settings, ownership, now), [])
  {
  }

  lemma NumberedExtends(log: seq<Turn>, update: Update)
    requires Numbered(log)
    ensures Numbered(log + [Turn(|log| + 1, update)])
  {
  }

  lemma AllInBoundsExtends(log: seq<Turn>, t: Turn)
    requires AllInBounds(log) && TurnBounds(t.update)
    ensures AllInBounds(log + [t])
  {
    hide TurnBounds;
  }

  lemma DistinctExtends(turns: seq<Turn>, t: Turn)
    requires DistinctRequests(turns) && Existing(turns, t.update.request).None?
    ensures DistinctRequests(turns + [t])
  {
    ExistingShape(turns, t.update.request);
    hide Existing;
  }

  lemma StoredFollows(settings: Settings, session: Session, log: seq<Turn>, update: Update, now: int)
    requires Follows(settings, session, log) && Existing(session.turns, update.request).None? && TurnBounds(update)
    ensures Follows(settings, Stored(settings, session, update, now), log + [Turn(|log| + 1, update)])
  {
    hide Fits, Evict, LongestFitting, TurnBounds, Existing, DistinctRequests, IsSuffix, Numbered, AllInBounds;
    var t := Turn(|log| + 1, update);
    EvictFromLog(settings, log, session.turns, t);
    NumberedExtends(log, update);
    AllInBoundsExtends(log, t);
    DistinctExtends(session.turns, t);
    EvictedIsSuffix(settings, session.turns + [t]);
    SuffixDistinct(Evict(settings, session.turns + [t]), session.turns + [t]);
  }

  lemma EvictedIsSuffix(settings: Settings, turns: seq<Turn>)
    ensures IsSuffix(Evict(settings, turns), turns)
  {
    EvictShape(settings, turns);
  }

  lemma SessionStepFollows(
      settings: Settings, session: Session, log: seq<Turn>, ownership: Ownership, update: Update, now: int)
    requires Follows(settings, session, log)
    ensures var (after, result) := SessionStep(settings, session, ownership, update, now);
            Follows(settings, after, if result.Ok? && result.value.stored then log + [Turn(|log| + 1, update)] else log)
  {
    hide Follows, Stored, TurnBounds;
    if Existing(session.turns, update.request).None? && TurnBounds(update) {
      StoredFollows(settings, session, log, update, now);
    }
  }

  /** The retained turns carry consecutive numbers ending just below the next one. */
  lemma RetainedNumbers(settings: Settings, session: Session, log: seq<Turn>)
    requires Follows(settings, session, log)
    ensures |session.turns| < session.nextSequence
    ensures forall i :: 0 <= i < |session.turns| ==>
              session.turns[i].sequence == session.nextSequence - |session.turns| + i
  {
  }

  // ---- Every run -------------------------------------------------------------------------------

  lemma DroppedShape(store: Store, id: SessionId, now: int)
    requires Ordered(store)
    ensures var left := Dropped(store, id, now);
            && Ordered(left) && SubStore(left, store) && |left.sessions| <= |store.sessions|
            && (forall other :: other in store.sessions && other != id ==> other in left.sessions)
            && (id in left.sessions <==> Live(store, id, now))
  {
    RemoveKeepsOrder(store, [id]);
    RemoveSize(store, [id]);
    hide Without;
  }

  /** Opening a session leaves every other one as it was, unless it expired or had to give way. */
  lemma ReopenedShape(settings: Settings, store: Store, ownership: Ownership, now: int)
    requires InBounds(settings) && Ordered(store) && |store.sessions| <= settings.maximumSessions
    ensures var id, after := ownership.session, Reopened(settings, store, ownership, now);
            && Ordered(after) && |after.sessions| <= settings.maximumSessions
            && after.sessions[id] ==
               (if Live(store, id, now) then store.sessions[id] else NewSession(settings, ownership, now))
            && (forall other :: other in after.sessions && other != id ==>
                  other in store.sessions && after.sessions[other] == store.sessions[other])
            && (forall other :: other in store.sessions && other != id && other !in after.sessions ==>
                  Expired(store.sessions[other], now) || EvictedFor(settings, store, after, ownership.session, other))
  {
    if !Live(store, ownership.session, now) {
      hide Capacity, Dropped, NewSession, Distinct, EvictedFor, Expired, Ordered;
      DroppedShape(store, ownership.session, now);
      CapacityShape(settings, Dropped(store, ownership.session, now), now);
      NewcomerShape(settings, store, Dropped(store, ownership.session, now), ownership.session,
                    NewSession(settings, ownership, now), now);
    }
  }

  /** The newcomer joins what dropping its own expired session and making room have left. */
  lemma NewcomerShape(settings: Settings, store: Store, left: Store, id: SessionId, session: Session, now: int)
    requires InBounds(settings) && Ordered(left) && SubStore(left, store) && id !in left.sessions
    requires |left.sessions| <= |store.sessions| <= settings.maximumSessions
    requires forall other :: other in store.sessions && other != id ==> other in left.sessions
    requires var roomy := Capacity(settings, left, now);
             && Ordered(roomy) && SubStore(roomy, left) && |roomy.sessions| < settings.maximumSessions
             && forall other :: other in left.sessions && other !in roomy.sessions ==>
                  Expired(left.sessions[other], now) || GivesWay(settings, left, roomy, other, now)
    ensures var roomy := Capacity(settings, left, now);
            var after := Store(roomy.sessions[id := session], roomy.order + [id], roomy.expiredRemoved);
            && Ordered(after) && |after.sessions| <= settings.maximumSessions
            && (forall other :: other in after.sessions && other != id ==>
                  other in store.sessions && after.sessions[other] == store.sessions[other])
            && (forall other :: other in store.sessions && other != id && other !in after.sessions ==>
                  Expired(store.sessions[other], now) || EvictedFor(settings, store, after, id, other))
  {
    hide Capacity, Ordered, Expired;
    var roomy := Capacity(settings, left, now);
    ReopenedOrder(roomy, id, session);
    assert roomy.sessions[id := session].Keys == roomy.sessions.Keys + {id};
  }

  /** The session was the one accessed longest ago in a full store. */
  ghost predicate EvictedFor(settings: Settings, store: Store, after: Store, newcomer: SessionId, id: SessionId) {
    && id in store.sessions && |store.sessions| >= settings.maximumSessions
    && forall other :: other in after.sessions && other != newcomer ==>
         other in store.sessions && store.sessions[id].lastAccessed <= store.sessions[other].lastAccessed
  }

  lemma UpsertFollows(settings: Settings, store: Store, logs: Logs, ownership: Ownership, update: Update, now: int)
    requires InBounds(settings) && Tracks(settings, store, logs) && Identified(ownership, update)
    ensures var id, after := ownership.session, UpsertStep(settings, store, ownership, update, now).0;
            id in after.sessions
            && Follows(settings, after.sessions[id],
                       LogAfter(settings, store, logs, StoreTurn(ownership, update, now), id))
  {
    hide Follows, Reopened, SessionStep, EvictedFor, Distinct;
    var id := ownership.session;
    ReopenedShape(settings, store, ownership, now);
    var ready := Reopened(settings, store, ownership, now);
    NewSessionFollows(settings, ownership, now);
    var before := if Live(store, id, now) then LogOf(logs, id) else [];
    SessionStepFollows(settings, ready.sessions[id], before, ownership, update, now);
  }

  lemma UpsertTracks(settings: Settings, store: Store, logs: Logs, ownership: Ownership, update: Update, now: int)
    requires InBounds(settings) && Tracks(settings, store, logs)
    ensures var op := StoreTurn(ownership, update, now);
            Tracks(settings, Step(settings, store, op), LogsAfter(settings, store, logs, op))
  {
    hide Follows, Reopened, UpsertStep, EvictedFor, Distinct;
    var op := StoreTurn(ownership, update, now);
    if Identified(ownership, update) {
      ReopenedShape(settings, store, ownership, now);
      UpsertFrame(settings, store, ownership, update, now);
      UpsertFollows(settings, store, logs, ownership, update, now);
      UpsertKeepsOrder(settings, store, ownership, update, now);
    } else {
      UnidentifiedStays(settings, store, ownership, update, now);
      assert LogsAfter(settings, store, logs, op) == logs;
    }
  }

  lemma UnidentifiedStays(settings: Settings, store: Store, ownership: Ownership, update: Update, now: int)
    requires InBounds(settings) && Ordered(store) && !Identified(ownership, update)
    ensures UpsertStep(settings, store, ownership, update, now) == (store, Err(OwnershipError))
  {
  }

  lemma UpsertKeepsOrder(settings: Settings, store: Store, ownership: Ownership, update: Update, now: int)
    requires InBounds(settings) && Ordered(store) && |store.sessions| <= settings.maximumSessions
    requires Identified(ownership, update)
    ensures var after := UpsertStep(settings, store, ownership, update, now).0;
            Ordered(after) && |after.sessions| <= settings.maximumSessions
  {
    hide Reopened, EvictedFor, Distinct, SessionStep;
    ReopenedShape(settings, store, ownership, now);
    UpsertFrame(settings, store, ownership, update, now);
    var ready := Reopened(settings, store, ownership, now);
    var after := UpsertStep(settings, store, ownership, update, now).0;
    assert |after.sessions.Keys| == |ready.sessions.Keys|;
  }

  /** Nothing but removals and access times. */
  ghost predicate Shrinks(store: Store, after: Store) {
    forall id :: id in after.sessions ==>
      id in store.sessions && after.sessions[id].turns == store.sessions[id].turns
      && after.sessions[id].nextSequence == store.sessions[id].nextSequence
  }

  lemma ShrinkTracks(settings: Settings, store: Store, after: Store, logs: Logs, op: Operation)
    requires InBounds(settings) && Tracks(settings, store, logs) && Ordered(after) && Shrinks(store, after)
    requires !op.StoreTurn? && after == Step(settings, store, op)
    ensures Tracks(settings, after, LogsAfter(settings, store, logs, op))
  {
    hide Ordered, Step, LongestFitting, Numbered, DistinctRequests, AllInBounds;
    assert after.sessions.Keys <= store.sessions.Keys;
    SubsetSize(after.sessions.Keys, store.sessions.Keys);
  }

  lemma StepTracks(settings: Settings, store: Store, logs: Logs, op: Operation)
    requires InBounds(settings) && Tracks(settings, store, logs)
    ensures Tracks(settings, Step(settings, store, op), LogsAfter(settings, store, logs, op))
  {
    if op.StoreTurn? {
      UpsertTracks(settings, store, logs, op.ownership, op.update, op.now);
    } else {
      OtherStepsShrink(settings, store, op);
      ShrinkTracks(settings, store, Step(settings, store, op), logs, op);
    }
  }

  lemma OtherStepsShrink(settings: Settings, store: Store, op: Operation)
    requires InBounds(settings) && Ordered(store) && !op.StoreTurn?
    ensures Ordered(Step(settings, store, op)) && Shrinks(store, Step(settings, store, op))
  {
    hide Without, Cleaned;
    if op.CleanUp? {
      CleanedShape(store, op.now, op.maximum);
    } else {
      RemoveKeepsOrder(store, [op.ownership.session]);
    }
  }

  lemma StepKeepsOrder(settings: Settings, store: Store, op: Operation)
    requires InBounds(settings) && Ordered(store)
    ensures Ordered(Step(settings, store, op))
  {
    hide Reopened, Distinct;
    if !op.StoreTurn? {
      OtherStepsShrink(settings, store, op);
    } else if Identified(op.ownership, op.update) {
      ReopenedOrdered(settings, store, op.ownership, op.now);
      UpsertFrame(settings, store, op.ownership, op.update, op.now);
    }
  }

  lemma ReopenedOrdered(settings: Settings, store: Store, ownership: Ownership, now: int)
    requires InBounds(settings) && Ordered(store)
    ensures Ordered(Reopened(settings, store, ownership, now))
  {
    hide Capacity, Without, Distinct;
    if !Live(store, ownership.session, now) {
      DroppedShape(store, ownership.session, now);
      var left := Dropped(store, ownership.session, now);
      hide Dropped;
      CapacityShape(settings, left, now);
      ReopenedOrder(Capacity(settings, left, now), ownership.session, NewSession(settings, ownership, now));
    }
  }

  /** The store and the logs after a run. */
  function Run(settings: Settings, store: Store, logs: Logs, ops: seq<Operation>): (Store, Logs)
    requires InBounds(settings) && Ordered(store)
    decreases |ops|
  {
    if ops == [] then (store, logs)
    else
      StepKeepsOrder(settings, store, ops[0]);
      Run(settings, Step(settings, store, ops[0]), LogsAfter(settings, store, logs, ops[0]), ops[1..])
  }

  lemma {:induction false} RunTracks(settings: Settings, store: Store, logs: Logs, ops: seq<Operation>)
    requires InBounds(settings) && Tracks(settings, store, logs)
    ensures var (end, longer) := Run(settings, store, logs, ops); Tracks(settings, end, longer)
    decreases |ops|
  {
    hide Step, LogsAfter, AllFollow, Distinct;
    if ops != [] {
      StepTracks(settings, store, logs, ops[0]);
      RunTracks(settings, Step(settings, store, ops[0]), LogsAfter(settings, store, logs, ops[0]), ops[1..]);
    }
  }

  /** After any run from the empty store: the sessions are within their maximum, and each holds exactly
      the longest end of its log that fits the caps, with consecutive numbers and distinct requests; no turn
      of a log is outside the bounds of the turn model. */
  lemma EveryRunFollowsItsLogs(settings: Settings, ops: seq<Operation>)
    requires InBounds(settings)
    ensures var (store, logs) := Run(settings, EMPTY, map[], ops);
            && |store.sessions| <= settings.maximumSessions
            && logs.Keys == store.sessions.Keys
            && forall id :: id in store.sessions ==>
                 var session, log := store.sessions[id], logs[id];
                 && LongestFitting(settings, log, session.turns)
                 && session.nextSequence == |log| + 1
                 && DistinctRequests(session.turns) && AllInBounds(log)
                 && forall i :: 0 <= i < |session.turns| ==>
                      session.turns[i].sequence == session.nextSequence - |session.turns| + i
  {
    hide LongestFitting, Run, AllInBounds;
    assert Tracks(settings, EMPTY, map[]);
    RunTracks(settings, EMPTY, map[], ops);
    var (store, logs) := Run(settings, EMPTY, map[], ops);
    forall id | id in store.sessions
      ensures forall i :: 0 <= i < |store.sessions[id].turns| ==>
        store.sessions[id].turns[i].sequence == store.sessions[id].nextSequence - |store.sessions[id].turns| + i
    {
      RetainedNumbers(settings, store.sessions[id], logs[id]);
    }
  }

  // ---- Who may change a session ----------------------------------------------------------------

  /** A session stays exactly as it was unless its owner acts on it, it has expired, or it is the one
      accessed longest ago when a full store needs room for another session. */
  lemma SessionsChangeForAReason(settings: Settings, store: Store, op: Operation, id: SessionId)
    requires InBounds(settings) && Ordered(store) && |store.sessions| <= settings.maximumSessions
    requires id in store.sessions
    ensures var session, after := store.sessions[id], Step(settings, store, op);
            || (id in after.sessions && after.sessions[id] == session)
            || (!op.CleanUp? && op.ownership == session.ownership)
            || (!op.DeleteSession? && Expired(session, op.now))
            || (op.StoreTurn? && op.ownership.session != id && id !in after.sessions
                && !Live(store, op.ownership.session, op.now)
                && EvictedFor(settings, store, after, op.ownership.session, id))
  {
    hide Without, Cleaned, Reopened;
    match op
    case CleanUp(now, maximum) => CleanedShape(store, now, maximum);
    case LoadSession(ownership, now) =>
    case DeleteSession(ownership) =>
    case StoreTurn(ownership, update, now) =>
      if Identified(ownership, update) { UpsertLeaves(settings, store, ownership, update, now, id); }
  }

  lemma UpsertLeaves(settings: Settings, store: Store, ownership: Ownership, update: Update, now: int, id: SessionId)
    requires InBounds(settings) && Ordered(store) && |store.sessions| <= settings.maximumSessions
    requires id in store.sessions && Identified(ownership, update)
    ensures var session, after := store.sessions[id], UpsertStep(settings, store, ownership, update, now).0;
            || (id in after.sessions && after.sessions[id] == session)
            || ownership == session.ownership
            || Expired(session, now)
            || (ownership.session != id && id !in after.sessions && !Live(store, ownership.session, now)
                && EvictedFor(settings, store, after, ownership.session, id))
  {
    hide Reopened, UpsertStep, Distinct;
    ReopenedShape(settings, store, ownership, now);
    UpsertFrame(settings, store, ownership, update, now);
    if Live(store, ownership.session, now) { LiveStays(settings, store, ownership, now); }
  }

  lemma UpsertFrame(settings: Settings, store: Store, ownership: Ownership, update: Update, now: int)
    requires InBounds(settings) && Ordered(store) && Identified(ownership, update)
    ensures var ready := Reopened(settings, store, ownership, now);
            var after := UpsertStep(settings, store, ownership, update, now).0;
            && after.sessions.Keys == ready.sessions.Keys
            && (forall id :: id in ready.sessions && id != ownership.session ==>
                  after.sessions[id] == ready.sessions[id])
            && (ready.sessions[ownership.session].ownership != ownership ==> after == ready)
  {
    hide Reopened;
    var ready := Reopened(settings, store, ownership, now);
    assert ready.sessions[ownership.session := ready.sessions[ownership.session]] == ready.sessions;
  }

  // ---- The answers of an upsert ----------------------------------------------------------------

  /** Position k holds the first retained turn of this request. */
  ghost predicate FirstOf(turns: seq<Turn>, request: nat, k: int) {
    && 0 <= k < |turns| && turns[k].update.request == request
    && forall j :: 0 <= j < k ==> turns[j].update.request != request
  }

  ghost predicate Requested(turns: seq<Turn>, request: nat) {
    exists k :: FirstOf(turns, request, k)
  }

  lemma {:induction false} ExistingIsFirst(turns: seq<Turn>, request: nat)
    ensures Existing(turns, request).Some? <==> Requested(turns, request)
    ensures forall k :: FirstOf(turns, request, k) ==> Existing(turns, request) == Some(turns[k])
    decreases |turns|
  {
    if turns != [] {
      ExistingIsFirst(turns[1..], request);
      if turns[0].update.request == request {
        assert FirstOf(turns, request, 0);
      } else {
        forall k | FirstOf(turns, request, k)
          ensures Existing(turns, request) == Some(turns[k])
        {
          assert FirstOf(turns[1..], request, k - 1);
        }
        if Requested(turns[1..], request) {
          var k :| FirstOf(turns[1..], request, k);
          assert FirstOf(turns, request, k + 1);
        }
      }
    }
  }

  /** The answer of an upsert in every case, in the source's order: identity, owner, the bounds of a turn, then
      for a known request its content and for a new one the character cap.  Only a stored turn changes the
      session that was opened. */
  lemma UpsertAnswers(settings: Settings, store: Store, ownership: Ownership, update: Update, now: int)
    requires InBounds(settings) && Ordered(store)
    ensures var ready := Reopened(settings, store, ownership, now);
            var session := ready.sessions[ownership.session];
            var (after, result) := UpsertStep(settings, store, ownership, update, now);
            var characters := |update.userMessage| + |update.assistantMessage|;
            if update.session != ownership.session || update.user != ownership.user then
              result == Err(OwnershipError) && after == store
            else if session.ownership != ownership then result == Err(OwnershipError) && after == ready
            else if !TurnBounds(update) then result == Err(InvalidTurn) && after == ready
            else if Requested(session.turns, update.request) then
              && after == ready
              && exists k :: FirstOf(session.turns, update.request, k)
                   && result == (if session.turns[k].update == update then
                                   Ok(Written(false, true, session.turns[k].sequence, 0)) else Err(IntegrityError))
            else if characters > settings.maximumCharacters then result == Err(CapacityError) && after == ready
            else
              var stored := after.sessions[ownership.session];
              && after == ready.(sessions := ready.sessions[ownership.session := stored])
              && LongestFitting(settings, session.turns + [Turn(session.nextSequence, update)], stored.turns)
              && stored == Session(ownership, stored.turns, session.nextSequence + 1, now + settings.ttl, now)
              && result == Ok(Written(true, false, session.nextSequence, |session.turns| + 1 - |stored.turns|))
  {
    hide Reopened, Existing, TurnBounds, LongestFitting, Evict, FirstOf, Ordered;
    var ready := Reopened(settings, store, ownership, now);
    var session := ready.sessions[ownership.session];
    ExistingIsFirst(session.turns, update.request);
    EvictShape(settings, session.turns + [Turn(session.nextSequence, update)]);
    assert ready.sessions[ownership.session := session] == ready.sessions;
  }

  /** A session that is opened anew belongs to the caller, is empty and lives for the whole time to live. */
  lemma OpenedAnew(settings: Settings, store: Store, ownership: Ownership, now: int)
    requires InBounds(settings) && Ordered(store) && |store.sessions| <= settings.maximumSessions
    ensures var session := Reopened(settings, store, ownership, now).sessions[ownership.session];
            session == if ownership.session in store.sessions && store.sessions[ownership.session].expiresAt > now
                       then store.sessions[ownership.session]
                       else Session(ownership, [], 1, now + settings.ttl, now)
  {
    hide Reopened, EvictedFor;
    ReopenedShape(settings, store, ownership, now);
  }

  /** Opening a session counts every expired session it removes, and no other; besides those at most one session
      gives way to the new one. */
  lemma OpenedCounts(settings: Settings, store: Store, ownership: Ownership, now: int) returns (evicted: nat)
    requires InBounds(settings) && Ordered(store)
    ensures var after := Reopened(settings, store, ownership, now);
            if Live(store, ownership.session, now) then after == store
            else
              && evicted <= 1 && after.expiredRemoved >= store.expiredRemoved
              && |after.sessions| + (after.expiredRemoved - store.expiredRemoved) + evicted == |store.sessions| + 1
  {
    hide Ordered, Without, ExpiredKeys, Oldest;
    var id := ownership.session;
    evicted := 0;
    if !Live(store, id, now) {
      var ready := Dropped(store, id, now);
      DroppedCount(store, id, now);
      CleanedShape(ready, now, CLEANUP_LIMIT);
      var left := Cleaned(ready, now, CLEANUP_LIMIT).0;
      hide Cleaned, Dropped;
      if |left.sessions| >= settings.maximumSessions {
        NotEmpty(left);
        OldestRemoved(left);
        evicted := 1;
      }
    }
  }

  lemma DroppedCount(store: Store, id: SessionId, now: int)
    requires Ordered(store)
    ensures var ready := Dropped(store, id, now);
            && Ordered(ready) && (Live(store, id, now) <==> id in ready.sessions)
            && |ready.sessions| + (ready.expiredRemoved - store.expiredRemoved) == |store.sessions|
  {
    RemoveKeepsOrder(store, [id]);
    if id in store.sessions { RemoveCount(store, [id]); }
  }

  lemma OldestRemoved(store: Store)
    requires Ordered(store) && store.order != []
    ensures var left := Remove(store, [Oldest(store.sessions, store.order)]);
            |left.sessions| + 1 == |store.sessions| && left.expiredRemoved == store.expiredRemoved
  {
    RemoveCount(store, [Oldest(store.sessions, store.order)]);
  }

  // ---- Repeated requests -----------------------------------------------------------------------

  /** A request that was stored before is answered as the duplicate of its turn exactly while that turn
      is retained. */
  lemma DuplicateIffRetained(
      settings: Settings, store: Store, logs: Logs, ownership: Ownership, update: Update, now: int, i: nat)
    requires InBounds(settings) && Tracks(settings, store, logs)
    requires Identified(ownership, update) && Live(store, ownership.session, now)
    requires store.sessions[ownership.session].ownership == ownership
    requires i < |logs[ownership.session]| && logs[ownership.session][i].update == update
    ensures var result := UpsertStep(settings, store, ownership, update, now).1;
            var log, kept := logs[ownership.session], store.sessions[ownership.session].turns;
            (result.Ok? && result.value.duplicate && result.value.sequence == i + 1) <==> i >= |log| - |kept|
  {
    hide Reopened, Follows, SessionStep, Distinct;
    LiveStays(settings, store, ownership, now);
    var id := ownership.session;
    DuplicateOnSession(settings, store.sessions[id], logs[id], ownership, update, now, i);
  }

  lemma DuplicateOnSession(
      settings: Settings, session: Session, log: seq<Turn>, ownership: Ownership, update: Update, now: int, i: nat)
    requires Follows(settings, session, log) && session.ownership == ownership
    requires i < |log| && log[i].update == update
    ensures var result := SessionStep(settings, session, ownership, update, now).1;
            (result.Ok? && result.value.duplicate && result.value.sequence == i + 1) <==> i >= |log| - |session.turns|
  {
    ExistingShape(session.turns, update.request);
    ExistingUnique(session.turns, update.request);
    hide Fits, Existing, TurnBounds;
    var first := |log| - |session.turns|;
    assert log[i] in log;
    assert session.turns == log[first..];
    if i >= first {
      assert session.turns[i - first] == log[i];
    }
  }

  lemma ExistingUnique(turns: seq<Turn>, request: nat)
    requires DistinctRequests(turns)
    ensures forall i :: 0 <= i < |turns| && turns[i].update.request == request ==>
              Existing(turns, request) == Some(turns[i])
  {
    ExistingShape(turns, request);
  }

  /** Sending a stored turn again before the session expires is recognised exactly when the turn's own
      references fit the cap; otherwise the same request is stored a second time. */
  lemma RetryIsRecognised(
      settings: Settings, store: Store, ownership: Ownership, update: Update, now: int, later: int)
    requires InBounds(settings) && Ordered(store) && Identified(ownership, update)
    requires |store.sessions| <= settings.maximumSessions
    requires var first := UpsertStep(settings, store, ownership, update, now).1; first.Ok? && first.value.stored
    requires later < now + settings.ttl
    ensures var (after, first) := UpsertStep(settings, store, ownership, update, now);
            && Ordered(after)
            && var (again, second) := UpsertStep(settings, after, ownership, update, later);
            if |update.references| <= settings.maximumReferences then
              second == Ok(Written(false, true, first.value.sequence, 0)) && again == after
            else
              second.Ok? && second.value.stored && second.value.sequence == first.value.sequence + 1
              && again.sessions[ownership.session].turns == []
  {
    hide Reopened, Evict, Fits, Without, TurnBounds;
    var id := ownership.session;
    ReopenedShape(settings, store, ownership, now);
    var ready := Reopened(settings, store, ownership, now);
    var after := UpsertStep(settings, store, ownership, update, now).0;
    assert after.sessions.Keys == ready.sessions.Keys;
    var session := ready.sessions[id];
    assert after.sessions[id] == Stored(settings, session, update, now);
    LiveStays(settings, after, ownership, later);
    RetryOnSession(settings, session, ownership, update, now, later);
  }

  lemma LiveStays(settings: Settings, store: Store, ownership: Ownership, now: int)
    requires InBounds(settings) && Ordered(store) && Live(store, ownership.session, now)
    ensures Reopened(settings, store, ownership, now) == store
  {
  }

  lemma RetryOnSession(settings: Settings, session: Session, ownership: Ownership, update: Update, now: int, later: int)
    requires InBounds(settings)
    requires var first := SessionStep(settings, session, ownership, update, now).1; first.Ok? && first.value.stored
    ensures var stored := Stored(settings, session, update, now);
            var (again, second) := SessionStep(settings, stored, ownership, update, later);
            if |update.references| <= settings.maximumReferences then
              second == Ok(Written(false, true, session.nextSequence, 0)) && again == stored
            else
              && second.Ok? && second.value.stored
              && second.value.sequence == session.nextSequence + 1 && again.turns == []
  {
    StoredMeans(settings, session, ownership, update, now);
    hide Evict, Fits, Existing, TurnBounds;
    var t := Turn(session.nextSequence, update);
    if |update.references| <= settings.maximumReferences {
      RetryFindsTurn(settings, session.turns, t);
    } else {
      NothingFound(update.request);
      TurnIsDropped(settings, session.turns, t);
      TurnIsDropped(settings, [], Turn(session.nextSequence + 1, update));
    }
  }

  lemma StoredMeans(settings: Settings, session: Session, ownership: Ownership, update: Update, now: int)
    requires var first := SessionStep(settings, session, ownership, update, now).1; first.Ok? && first.value.stored
    ensures session.ownership == ownership && Existing(session.turns, update.request).None?
    ensures TurnBounds(update) && |update.userMessage| + |update.assistantMessage| <= settings.maximumCharacters
  {
    hide Existing, Evict, TurnBounds;
  }

  lemma NothingFound(request: nat)
    ensures Existing([], request).None?
  {
  }

  /** A turn with more references than the cap is dropped at once. */
  lemma TurnIsDropped(settings: Settings, turns: seq<Turn>, t: Turn)
    requires InBounds(settings) && |t.update.references| > settings.maximumReferences
    ensures Evict(settings, turns + [t]) == []
  {
    hide Evict, Fits;
    SingleTurnFits(settings, t);
    NewTurnSurvives(settings, turns, t);
  }

  lemma RetryFindsTurn(settings: Settings, turns: seq<Turn>, t: Turn)
    requires InBounds(settings) && |t.update.references| <= settings.maximumReferences
    requires |t.update.userMessage| + |t.update.assistantMessage| <= settings.maximumCharacters
    requires Existing(turns, t.update.request).None?
    ensures Existing(Evict(settings, turns + [t]), t.update.request) == Some(t)
  {
    hide Evict, Fits, Existing;
    SingleTurnFits(settings, t);
    NewTurnSurvives(settings, turns, t);
    EvictedIsSuffix(settings, turns + [t]);
    OnlyLastMatches(Evict(settings, turns + [t]), turns, t);
  }

  lemma OnlyLastMatches(kept: seq<Turn>, turns: seq<Turn>, t: Turn)
    requires kept != [] && IsSuffix(kept, turns + [t])
    requires Existing(turns, t.update.request).None?
    ensures Existing(kept, t.update.request) == Some(t)
  {
    ExistingShape(turns, t.update.request);
    ExistingShape(kept, t.update.request);
    forall k | k in kept ensures k in turns || k == t {
      var j :| 0 <= j < |kept| && kept[j] == k;
      assert kept[j] == (turns + [t])[|turns| + 1 - |kept| + j];
    }
    assert kept[|kept| - 1] == t;
  }
}
