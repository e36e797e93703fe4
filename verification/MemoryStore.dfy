/** The bounded in-memory conversation store. */
module MemoryStore {
  import opened Prelude
  import opened Sequences
  import opened MemoryTurns

  datatype Session = Session(ownership: Ownership, turns: seq<Turn>, nextSequence: nat, expiresAt: int,
                             lastAccessed: int)

  /** `order` is the insertion order of the session dictionary. */
  datatype Store = Store(sessions: map<SessionId, Session>, order: seq<SessionId>, expiredRemoved: nat)

  const EMPTY := Store(map[], [], 0)

  /** `InvalidTurn` and `InvalidReference` stand for the validation errors of the models. */
  datatype StoreError = OwnershipError | IntegrityError | CapacityError | InvalidTurn | InvalidReference

  datatype Written = Written(stored: bool, duplicate: bool, sequence: nat, evicted: nat)

  predicate Expired(session: Session, now: int) {
    session.expiresAt <= now
  }

  // ---- The dictionary --------------------------------------------------------------------------

  /** The order lists every session once. */
  ghost predicate Ordered(store: Store) {
    Distinct(store.order) && forall id :: id in store.order <==> id in store.sessions
  }

  function Without(order: seq<SessionId>, gone: seq<SessionId>): seq<SessionId> {
    if order == [] then []
    else (if order[0] in gone then [] else [order[0]]) + Without(order[1..], gone)
  }

  function Remove(store: Store, gone: seq<SessionId>): Store {
    Store(map id | id in store.sessions && id !in gone :: store.sessions[id], Without(store.order, gone),
          store.expiredRemoved)
  }

  function Counted(store: Store, removed: nat): Store {
    store.(expiredRemoved := store.expiredRemoved + removed)
  }

  function ExpiredKeys(sessions: map<SessionId, Session>, order: seq<SessionId>, now: int): seq<SessionId> {
    if order == [] then []
    else (if order[0] in sessions && Expired(sessions[order[0]], now) then [order[0]] else [])
         + ExpiredKeys(sessions, order[1..], now)
  }

  function AtMost<T>(items: seq<T>, n: nat): seq<T> {
    if |items| <= n then items else items[..n]
  }

  /** The first of the sessions accessed longest ago. */
  function Oldest(sessions: map<SessionId, Session>, order: seq<SessionId>): SessionId
    requires order != [] && forall id :: id in order ==> id in sessions
    ensures Oldest(sessions, order) in order
  {
    if |order| == 1 then order[0]
    else
      var rest := Oldest(sessions, order[1..]);
      if sessions[order[0]].lastAccessed <= sessions[rest].lastAccessed then order[0] else rest
  }

  lemma {:induction false} WithoutShape(order: seq<SessionId>, gone: seq<SessionId>)
    ensures forall id :: id in Without(order, gone) <==> id in order && id !in gone
    ensures Distinct(order) ==> Distinct(Without(order, gone))
  {
    if order != [] {
      var rest := Without(order[1..], gone);
      WithoutShape(order[1..], gone);
      assert order == [order[0]] + order[1..];
      if Distinct(order) {
        assert Distinct(order[1..]);
        assert order[0] !in order[1..];
        if order[0] in gone {
          assert Without(order, gone) == rest;
        } else {
          assert Without(order, gone) == [order[0]] + rest;
        }
      }
    }
  }

  ghost predicate Precedes(order: seq<SessionId>, a: SessionId, b: SessionId) {
    exists i, j :: 0 <= i < j < |order| && order[i] == a && order[j] == b
  }

  lemma {:induction false} WithoutKeepsOrder(order: seq<SessionId>, gone: seq<SessionId>)
    ensures forall a, b :: Precedes(Without(order, gone), a, b) ==> Precedes(order, a, b)
    decreases |order|
  {
    if order != [] {
      var rest := Without(order[1..], gone);
      WithoutShape(order[1..], gone);
      WithoutKeepsOrder(order[1..], gone);
      forall a, b | Precedes(Without(order, gone), a, b)
        ensures Precedes(order, a, b)
      {
        hide Distinct, Without;
        PrecedesLater(order, rest, order[0] in gone, a, b);
      }
    }
  }

  lemma PrecedesLater(order: seq<SessionId>, rest: seq<SessionId>, dropped: bool, a: SessionId, b: SessionId)
    requires order != [] && Precedes((if dropped then [] else [order[0]]) + rest, a, b)
    requires Precedes(rest, a, b) ==> Precedes(order[1..], a, b)
    requires forall id :: id in rest ==> id in order[1..]
    ensures Precedes(order, a, b)
  {
    var left := (if dropped then [] else [order[0]]) + rest;
    var i, j :| 0 <= i < j < |left| && left[i] == a && left[j] == b;
    if dropped || i > 0 {
      var n := if dropped then 0 else 1;
      assert rest[i - n] == a && rest[j - n] == b;
      var p, q :| 0 <= p < q < |order[1..]| && order[1..][p] == a && order[1..][q] == b;
      assert order[p + 1] == a && order[q + 1] == b;
    } else {
      assert rest[j - 1] == b && b in order[1..];
      var q :| 0 <= q < |order[1..]| && order[1..][q] == b;
      assert order[0] == a && order[q + 1] == b;
    }
  }

  /** Up to some position of the order all expired sessions are in, and none after it. */
  ghost predicate ExpiredUpTo(
      sessions: map<SessionId, Session>, order: seq<SessionId>, now: int, gone: seq<SessionId>, cut: int)
  {
    && 0 <= cut <= |order|
    && forall i :: 0 <= i < |order| ==>
         (order[i] in gone <==> i < cut && order[i] in sessions && sessions[order[i]].expiresAt <= now)
  }

  lemma {:induction false} FirstExpired(
      sessions: map<SessionId, Session>, order: seq<SessionId>, now: int, maximum: nat) returns (cut: nat)
    requires Distinct(order)
    ensures ExpiredUpTo(sessions, order, now, AtMost(ExpiredKeys(sessions, order, now), maximum), cut)
    decreases |order|
  {
    hide Distinct, Expired;
    var keys := ExpiredKeys(sessions, order, now);
    ExpiredKeysShape(sessions, order, now);
    if |keys| <= maximum {
      AllExpired(sessions, order, now);
      cut := |order|;
    } else if maximum == 0 {
      cut := 0;
    } else {
      RestDistinct(order);
      var rest := ExpiredKeys(sessions, order[1..], now);
      var first := if order[0] in sessions && Expired(sessions[order[0]], now) then [order[0]] else [];
      var k := FirstExpired(sessions, order[1..], now, maximum - |first|);
      ExpiredKeysShape(sessions, order[1..], now);
      cut := k + 1;
      FirstExpiredStep(sessions, order, now, first, AtMost(rest, maximum - |first|), k);
      assert AtMost(keys, maximum) == first + AtMost(rest, maximum - |first|);
    }
  }

  lemma AllExpired(sessions: map<SessionId, Session>, order: seq<SessionId>, now: int)
    ensures ExpiredUpTo(sessions, order, now, ExpiredKeys(sessions, order, now), |order|)
  {
    ExpiredKeysShape(sessions, order, now);
    hide ExpiredKeys, Distinct;
  }

  lemma FirstExpiredStep(sessions: map<SessionId, Session>, order: seq<SessionId>, now: int,
                         first: seq<SessionId>, gone: seq<SessionId>, cut: nat)
    requires order != [] && order[0] !in gone && order[0] !in order[1..]
    requires first == if order[0] in sessions && Expired(sessions[order[0]], now) then [order[0]] else []
    requires ExpiredUpTo(sessions, order[1..], now, gone, cut)
    ensures ExpiredUpTo(sessions, order, now, first + gone, cut + 1)
  {
    forall i | 0 < i < |order|
      ensures order[i] in first + gone <==>
                i < cut + 1 && order[i] in sessions && sessions[order[i]].expiresAt <= now
    {
      assert order[i] == order[1..][i - 1];
    }
  }

  /** The order without this session, all others in place. */
  ghost predicate TakenOut(order: seq<SessionId>, id: SessionId, left: seq<SessionId>) {
    if id !in order then left == order
    else exists k :: 0 <= k < |order| && order[k] == id && left == order[..k] + order[k + 1..]
  }

  lemma {:induction false} WithoutOne(order: seq<SessionId>, id: SessionId)
    requires Distinct(order)
    ensures TakenOut(order, id, Without(order, [id]))
    ensures id !in order ==> TakenOut(order, id, order)
    decreases |order|
  {
    hide Distinct;
    if order != [] {
      var rest := Without(order[1..], [id]);
      WithoutShape(order[1..], [id]);
      RestDistinct(order);
      WithoutOne(order[1..], id);
      TakenOutLater(order, id, rest);
    }
  }

  lemma RestDistinct(order: seq<SessionId>)
    requires Distinct(order) && order != []
    ensures Distinct(order[1..]) && order[0] !in order[1..]
  {
  }

  lemma TakenOutLater(order: seq<SessionId>, id: SessionId, rest: seq<SessionId>)
    requires order != [] && order[0] !in order[1..] && TakenOut(order[1..], id, rest)
    ensures TakenOut(order, id, if order[0] == id then rest else [order[0]] + rest)
  {
    assert order == [order[0]] + order[1..];
    if order[0] == id {
      assert order[..0] + order[1..] == rest;
    } else if id in order[1..] {
      var k :| 0 <= k < |order[1..]| && order[1..][k] == id && rest == order[1..][..k] + order[1..][k + 1..];
      assert order[k + 1] == id && [order[0]] + rest == order[..k + 1] + order[k + 2..];
    }
  }

  lemma {:induction false} ExpiredKeysShape(sessions: map<SessionId, Session>, order: seq<SessionId>, now: int)
    ensures forall id :: id in ExpiredKeys(sessions, order, now) <==>
              id in order && id in sessions && Expired(sessions[id], now)
    ensures Distinct(order) ==> Distinct(ExpiredKeys(sessions, order, now))
  {
    if order != [] {
      ExpiredKeysShape(sessions, order[1..], now);
      assert order == [order[0]] + order[1..];
      if Distinct(order) {
        assert Distinct(order[1..]);
        assert order[0] !in order[1..];
      }
    }
  }

  lemma {:induction false} OldestIsMinimal(sessions: map<SessionId, Session>, order: seq<SessionId>)
    requires order != [] && forall id :: id in order ==> id in sessions
    ensures forall id :: id in order ==> sessions[Oldest(sessions, order)].lastAccessed <= sessions[id].lastAccessed
  {
    if |order| > 1 {
      OldestIsMinimal(sessions, order[1..]);
      assert order == [order[0]] + order[1..];
    }
  }

  /** Of the sessions accessed longest ago the first in dictionary order is meant. */
  lemma {:induction false} OldestIsFirst(sessions: map<SessionId, Session>, order: seq<SessionId>) returns (k: nat)
    requires order != [] && forall id :: id in order ==> id in sessions
    ensures k < |order| && Oldest(sessions, order) == order[k]
    ensures forall j :: 0 <= j < k ==> sessions[order[k]].lastAccessed < sessions[order[j]].lastAccessed
    ensures forall j :: k <= j < |order| ==> sessions[order[k]].lastAccessed <= sessions[order[j]].lastAccessed
    decreases |order|
  {
    k := 0;
    if |order| > 1 {
      var rest := order[1..];
      var l := OldestIsFirst(sessions, rest);
      assert forall j :: 0 < j < |order| ==> order[j] == rest[j - 1];
      if sessions[rest[l]].lastAccessed < sessions[order[0]].lastAccessed { k := l + 1; }
    }
  }

  lemma RemoveKeepsOrder(store: Store, gone: seq<SessionId>)
    requires Ordered(store)
    ensures Ordered(Remove(store, gone))
  {
    WithoutShape(store.order, gone);
  }

  lemma {:induction false} WithoutTwice(order: seq<SessionId>, a: seq<SessionId>, b: seq<SessionId>)
    ensures Without(Without(order, a), b) == Without(order, a + b)
  {
    if order != [] {
      WithoutTwice(order[1..], a, b);
      var rest := Without(order[1..], a);
      if order[0] in a {
        assert Without(order, a) == rest;
      } else {
        assert Without(order, a) == [order[0]] + rest;
        assert ([order[0]] + rest)[1..] == rest;
      }
    }
  }

  lemma RemoveOneMore(store: Store, gone: seq<SessionId>, id: SessionId)
    ensures Remove(Remove(store, gone), [id]) == Remove(store, gone + [id])
  {
    WithoutTwice(store.order, gone, [id]);
  }

  lemma {:induction false} RemoveNone(order: seq<SessionId>)
    ensures Without(order, []) == order
  {
    if order != [] { RemoveNone(order[1..]); }
  }

  lemma RemoveSize(store: Store, gone: seq<SessionId>)
    ensures |Remove(store, gone).sessions| <= |store.sessions|
    ensures (exists id :: id in gone && id in store.sessions) ==> |Remove(store, gone).sessions| < |store.sessions|
  {
    var left := Remove(store, gone).sessions;
    assert left.Keys <= store.sessions.Keys;
    SubsetSize(left.Keys, store.sessions.Keys);
  }

  lemma SubsetSize(a: set<SessionId>, b: set<SessionId>)
    requires a <= b
    ensures |a| <= |b|
    ensures a != b ==> |a| < |b|
  {
    assert b == a + (b - a);
    if a != b { assert b - a != {}; }
  }

  // ---- The operations on whole stores ----------------------------------------------------------

  const CLEANUP_LIMIT := 100

  function Cleaned(store: Store, now: int, maximum: nat): (Store, nat) {
    var gone := AtMost(ExpiredKeys(store.sessions, store.order, now), maximum);
    (Counted(Remove(store, gone), |gone|), |gone|)
  }

  /** The session accessed longest ago gives way when the store is full. */
  function Capacity(settings: Settings, store: Store, now: int): Store
    requires InBounds(settings) && Ordered(store)
  {
    var left := Cleaned(store, now, CLEANUP_LIMIT).0;
    RemoveKeepsOrder(store, AtMost(ExpiredKeys(store.sessions, store.order, now), CLEANUP_LIMIT));
    if |left.sessions| >= settings.maximumSessions then
      NotEmpty(left);
      Remove(left, [Oldest(left.sessions, left.order)])
    else left
  }

  lemma NotEmpty(store: Store)
    requires Ordered(store) && |store.sessions| > 0
    ensures store.order != []
  {
    assert store.sessions.Keys != {};
    var id :| id in store.sessions.Keys;
    assert id in store.order;
  }

  function LoadStep(store: Store, ownership: Ownership, now: int): (Store, Result<Option<Session>, StoreError>) {
    var id := ownership.session;
    if id !in store.sessions then (store, Ok(None))
    else
      var session := store.sessions[id];
      if session.ownership != ownership then (store, Err(OwnershipError))
      else if Expired(session, now) then (Counted(Remove(store, [id]), 1), Ok(None))
      else
        var seen := session.(lastAccessed := now);
        (store.(sessions := store.sessions[id := seen]), Ok(Some(seen)))
  }

  function DeleteStep(store: Store, ownership: Ownership): (Store, Result<bool, StoreError>) {
    var id := ownership.session;
    if id !in store.sessions then (store, Ok(false))
    else if store.sessions[id].ownership != ownership then (store, Err(OwnershipError))
    else (Remove(store, [id]), Ok(true))
  }

  predicate Live(store: Store, id: SessionId, now: int) {
    id in store.sessions && !Expired(store.sessions[id], now)
  }

  function NewSession(settings: Settings, ownership: Ownership, now: int): Session {
    Session(ownership, [], 1, now + settings.ttl, now)
  }

  /** The store without the expired session of this id. */
  function Dropped(store: Store, id: SessionId, now: int): Store {
    if id in store.sessions && Expired(store.sessions[id], now) then Counted(Remove(store, [id]), 1) else store
  }

  /** The store with a live session of this id. */
  function Reopened(settings: Settings, store: Store, ownership: Ownership, now: int): Store
    requires InBounds(settings) && Ordered(store)
    ensures ownership.session in Reopened(settings, store, ownership, now).sessions
  {
    RemoveKeepsOrder(store, [ownership.session]);
    if Live(store, ownership.session, now) then store
    else
      var roomy := Capacity(settings, Dropped(store, ownership.session, now), now);
      Store(roomy.sessions[ownership.session := NewSession(settings, ownership, now)],
            roomy.order + [ownership.session], roomy.expiredRemoved)
  }

  function Existing(turns: seq<Turn>, request: nat): Option<Turn> {
    if turns == [] then None
    else if turns[0].update.request == request then Some(turns[0])
    else Existing(turns[1..], request)
  }

  /** The session after a turn is stored. */
  function Stored(settings: Settings, session: Session, update: Update, now: int): Session {
    session.(
      turns := Evict(settings, session.turns + [Turn(session.nextSequence, update)]),
      nextSequence := session.nextSequence + 1, lastAccessed := now, expiresAt := now + settings.ttl)
  }

  /** What `upsert_turn` does to the live session of its id. */
  function SessionStep(settings: Settings, session: Session, ownership: Ownership, update: Update, now: int)
    : (Session, Result<Written, StoreError>)
  {
    if session.ownership != ownership then (session, Err(OwnershipError))
    else
      match Existing(session.turns, update.request)
      case Some(found) =>
        if !TurnBounds(update) then (session, Err(InvalidTurn))
        else if found.update != update then (session, Err(IntegrityError))
        else (session, Ok(Written(false, true, found.sequence, 0)))
      case None =>
        if !TurnBounds(update) then (session, Err(InvalidTurn))
        else if |update.userMessage| + |update.assistantMessage| > settings.maximumCharacters then
          (session, Err(CapacityError))
        else
          var stored := Stored(settings, session, update, now);
          (stored, Ok(Written(true, false, session.nextSequence, |session.turns| + 1 - |stored.turns|)))
  }

  function UpsertStep(settings: Settings, store: Store, ownership: Ownership, update: Update, now: int)
    : (Store, Result<Written, StoreError>)
    requires InBounds(settings) && Ordered(store)
  {
    if update.session != ownership.session || update.user != ownership.user then (store, Err(OwnershipError))
    else
      var ready := Reopened(settings, store, ownership, now);
      var (session, result) := SessionStep(settings, ready.sessions[ownership.session], ownership, update, now);
      (ready.(sessions := ready.sessions[ownership.session := session]), result)
  }

  // ---- The store -------------------------------------------------------------------------------

  class InMemoryConversationStore {
    const settings: Settings
    var sessions: map<SessionId, Session>
    var order: seq<SessionId>
    var expiredRemoved: nat

    ghost function State(): Store
      reads this
    {
      Store(sessions, order, expiredRemoved)
    }

    ghost predicate Valid()
      reads this
    {
      InBounds(settings) && Ordered(State())
    }

    constructor (settings: Settings)
      requires InBounds(settings)
      ensures Valid() && this.settings == settings && State() == EMPTY
    {
      this.settings := settings;
      sessions, order, expiredRemoved := map[], [], 0;
    }

    method Pop(id: SessionId)
      modifies this
      ensures State() == Remove(old(State()), [id])
    {
      sessions := map other | other in sessions && other !in [id] :: sessions[other];
      order := Without(order, [id]);
    }

    method MakeCapacity(now: int)
      requires Valid()
      modifies this
      ensures Valid() && State() == Capacity(settings, old(State()), now)
    {
      var expired := AtMost(ExpiredKeys(sessions, order, now), CLEANUP_LIMIT);
      PopAll(expired);
      if |sessions| >= settings.maximumSessions {
        NotEmpty(State());
        Pop(Oldest(sessions, order));
        RemoveKeepsOrder(old(State()), expired);
        ghost var left := Remove(old(State()), expired);
        RemoveKeepsOrder(left, [Oldest(left.sessions, left.order)]);
      }
    }

    method PopAll(expired: seq<SessionId>)
      requires Valid()
      modifies this
      ensures Valid() && State() == Counted(Remove(old(State()), expired), |expired|)
    {
      RemoveNone(order);
      for i := 0 to |expired|
        invariant State() == Counted(Remove(old(State()), expired[..i]), i)
      {
        RemoveOneMore(old(State()), expired[..i], expired[i]);
        assert expired[..i] + [expired[i]] == expired[..i + 1];
        Pop(expired[i]);
        expiredRemoved := expiredRemoved + 1;
      }
      assert expired[..|expired|] == expired;
      RemoveKeepsOrder(old(State()), expired);
    }

    method Load(ownership: Ownership, now: int) returns (result: Result<Option<Session>, StoreError>)
      requires Valid()
      modifies this
      ensures Valid() && (State(), result) == LoadStep(old(State()), ownership, now)
      // Only the owner gets an answer about a session, and a refusal changes nothing.
      ensures result.Err? <==>
                ownership.session in old(sessions) && old(sessions)[ownership.session].ownership != ownership
      ensures result.Err? ==> result.error == OwnershipError && State() == old(State())
      // Nothing is found exactly when the session is absent or the owner's session has expired.
      ensures result == Ok(None) <==>
                || ownership.session !in old(sessions)
                || (old(sessions)[ownership.session].ownership == ownership
                    && old(sessions)[ownership.session].expiresAt <= now)
      // An expired session is removed and counted.
      ensures result == Ok(None) ==>
                && sessions == old(sessions) - {ownership.session}
                && TakenOut(old(order), ownership.session, order)
                && expiredRemoved == old(expiredRemoved) + (if ownership.session in old(sessions) then 1 else 0)
      // Otherwise the owner gets the stored session, marked as accessed there too, and nothing else changes.
      ensures result.Ok? && result.value.Some? ==>
                && result.value.value == old(sessions)[ownership.session].(lastAccessed := now)
                && sessions == old(sessions)[ownership.session := result.value.value]
                && order == old(order) && expiredRemoved == old(expiredRemoved)
    {
      hide Distinct, Without, TakenOut;
      var id := ownership.session;
      if id !in sessions {
        WithoutOne(order, id);
        return Ok(None);
      }
      var session := sessions[id];
      if session.ownership != ownership { return Err(OwnershipError); }
      if Expired(session, now) {
        RemoveKeepsOrder(State(), [id]);
        WithoutOne(order, id);
        Pop(id);
        expiredRemoved := expiredRemoved + 1;
        return Ok(None);
      }
      session := session.(lastAccessed := now);
      sessions := sessions[id := session];
      return Ok(Some(session));
    }

    method UpsertTurn(ownership: Ownership, update: Update, now: int) returns (result: Result<Written, StoreError>)
      requires Valid()
      modifies this
      ensures Valid() && (State(), result) == UpsertStep(settings, old(State()), ownership, update, now)
    {
      hide Reopened, Evict, Existing, Distinct, TurnBounds;
      if update.session != ownership.session || update.user != ownership.user { return Err(OwnershipError); }
      var id := ownership.session;
      Open(ownership, now);
      var session := sessions[id];
      assert sessions == sessions[id := session];
      if session.ownership != ownership { return Err(OwnershipError); }
      var existing := Existing(session.turns, update.request);
      if existing.Some? {
        if !TurnBounds(update) { return Err(InvalidTurn); }
        if existing.value.update != update { return Err(IntegrityError); }
        return Ok(Written(false, true, existing.value.sequence, 0));
      }
      if !TurnBounds(update) { return Err(InvalidTurn); }
      var turn := Turn(session.nextSequence, update);
      if |update.userMessage| + |update.assistantMessage| > settings.maximumCharacters { return Err(CapacityError); }
      var kept, evicted := EvictTurns(settings, session.turns + [turn]);
      session := session.(turns := kept, nextSequence := session.nextSequence + 1,
                          lastAccessed := now, expiresAt := now + settings.ttl);
      sessions := sessions[id := session];
      return Ok(Written(true, false, turn.sequence, evicted));
    }

    method Open(ownership: Ownership, now: int)
      requires Valid()
      modifies this
      ensures Valid() && State() == Reopened(settings, old(State()), ownership, now)
    {
      hide Capacity, Without, Distinct;
      var id := ownership.session;
      RemoveKeepsOrder(State(), [id]);
      if id in sessions && Expired(sessions[id], now) {
        Pop(id);
        expiredRemoved := expiredRemoved + 1;
      }
      if id !in sessions {
        StaysAbsent(settings, State(), id, now);
        MakeCapacity(now);
        ReopenedOrder(State(), id, NewSession(settings, ownership, now));
        sessions := sessions[id := NewSession(settings, ownership, now)];
        order := order + [id];
      }
    }

    method Delete(ownership: Ownership) returns (result: Result<bool, StoreError>)
      requires Valid()
      modifies this
      ensures Valid() && (State(), result) == DeleteStep(old(State()), ownership)
      // Only the owner removes a session, and is told whether there was one.
      ensures result.Err? <==>
                ownership.session in old(sessions) && old(sessions)[ownership.session].ownership != ownership
      ensures result.Err? ==> result.error == OwnershipError && State() == old(State())
      ensures result.Ok? ==>
                && result.value == (ownership.session in old(sessions))
                && sessions == old(sessions) - {ownership.session}
                && TakenOut(old(order), ownership.session, order) && expiredRemoved == old(expiredRemoved)
    {
      hide Distinct, TakenOut;
      var id := ownership.session;
      WithoutOne(order, id);
      if id !in sessions { return Ok(false); }
      if sessions[id].ownership != ownership { return Err(OwnershipError); }
      RemoveKeepsOrder(State(), [id]);
      Pop(id);
      return Ok(true);
    }

    method CleanupExpired(now: int, maximum: nat) returns (removed: nat)
      requires Valid()
      modifies this
      ensures Valid() && (State(), removed) == Cleaned(old(State()), now, maximum)
    {
      var expired := AtMost(ExpiredKeys(sessions, order, now), maximum);
      PopAll(expired);
      return |expired|;
    }
  }

  // ---- What making room does -------------------------------------------------------------------

  ghost predicate SubStore(part: Store, whole: Store) {
    forall id :: id in part.sessions ==> id in whole.sessions && part.sessions[id] == whole.sessions[id]
  }

  /** One cleanup removes at most so many sessions, all expired, and counts them; below the maximum it leaves
      none that has expired. */
  lemma CleanedShape(store: Store, now: int, maximum: nat)
    requires Ordered(store)
    ensures var (left, removed) := Cleaned(store, now, maximum);
            && Ordered(left) && SubStore(left, store)
            && (forall id :: id in store.sessions && id !in left.sessions ==> Expired(store.sessions[id], now))
            && |left.sessions| + removed == |store.sessions| && left.expiredRemoved == store.expiredRemoved + removed
            && (removed == maximum || forall id :: id in left.sessions ==> !Expired(left.sessions[id], now))
            && removed <= maximum
  {
    var all := ExpiredKeys(store.sessions, store.order, now);
    ExpiredKeysShape(store.sessions, store.order, now);
    var gone := AtMost(all, maximum);
    RemoveKeepsOrder(store, gone);
    RemoveCount(store, gone);
  }

  /** The sessions that stay keep their order, and once an expired one stays all after it do: the first expired
      sessions in dictionary order are the ones removed. */
  lemma CleanedInOrder(store: Store, now: int, maximum: nat)
    requires Ordered(store)
    ensures var left := Cleaned(store, now, maximum).0;
            && (forall a, b :: Precedes(left.order, a, b) ==> Precedes(store.order, a, b))
            && forall a, b :: Precedes(store.order, a, b) && store.sessions[a].expiresAt <= now && a in left.sessions
                 ==> b in left.sessions
  {
    var gone := AtMost(ExpiredKeys(store.sessions, store.order, now), maximum);
    WithoutKeepsOrder(store.order, gone);
    var cut := FirstExpired(store.sessions, store.order, now, maximum);
    hide Distinct, Without, ExpiredKeys, AtMost;
  }

  lemma {:induction false} RemoveCount(store: Store, gone: seq<SessionId>)
    requires Distinct(gone) && forall id :: id in gone ==> id in store.sessions
    ensures |Remove(store, gone).sessions| + |gone| == |store.sessions|
    decreases |gone|
  {
    if gone == [] {
      assert Remove(store, gone).sessions == store.sessions;
    } else {
      var n := |gone| - 1;
      RemoveCount(store, gone[..n]);
      assert gone == gone[..n] + [gone[n]];
      assert gone[n] !in gone[..n];
      assert Remove(store, gone).sessions.Keys == Remove(store, gone[..n]).sessions.Keys - {gone[n]};
    }
  }

  lemma CapacityShape(settings: Settings, store: Store, now: int)
    requires InBounds(settings) && Ordered(store)
    ensures var left := Capacity(settings, store, now);
            && Ordered(left) && SubStore(left, store)
            && (|store.sessions| <= settings.maximumSessions ==> |left.sessions| < settings.maximumSessions)
            && forall id :: id in store.sessions && id !in left.sessions ==>
                 Expired(store.sessions[id], now) || GivesWay(settings, store, left, id, now)
  {
    hide Cleaned, Remove, Oldest, Ordered, Expired, GivesWay;
    var cleaned := Cleaned(store, now, CLEANUP_LIMIT).0;
    CleanedShape(store, now, CLEANUP_LIMIT);
    if |cleaned.sessions| >= settings.maximumSessions {
      NotEmpty(cleaned);
      OldestGivesWay(settings, store, cleaned, now);
      assert SubStore(Remove(cleaned, [Oldest(cleaned.sessions, cleaned.order)]), store);
    }
  }

  lemma OldestGivesWay(settings: Settings, store: Store, cleaned: Store, now: int)
    requires Ordered(cleaned) && SubStore(cleaned, store) && cleaned.order != []
    requires |store.sessions| >= |cleaned.sessions| >= settings.maximumSessions
    requires forall id :: id in store.sessions && id !in cleaned.sessions ==> Expired(store.sessions[id], now)
    ensures var oldest := Oldest(cleaned.sessions, cleaned.order);
            var left := Remove(cleaned, [oldest]);
            && Ordered(left) && SubStore(left, cleaned) && |left.sessions| < |cleaned.sessions|
            && (forall id :: id in cleaned.sessions && id !in left.sessions ==> id == oldest)
            && GivesWay(settings, store, left, oldest, now)
  {
    var oldest := Oldest(cleaned.sessions, cleaned.order);
    OldestIsMinimal(cleaned.sessions, cleaned.order);
    RemoveKeepsOrder(cleaned, [oldest]);
    RemoveSize(cleaned, [oldest]);
    assert oldest in [oldest];
    hide Without;
  }

  /** An unexpired session is evicted only from a full store, and only the one accessed longest ago. */
  ghost predicate GivesWay(settings: Settings, store: Store, left: Store, id: SessionId, now: int) {
    && id in store.sessions
    && |store.sessions| >= settings.maximumSessions
    && (forall other :: other in left.sessions ==> store.sessions[id].lastAccessed <= left.sessions[other].lastAccessed)
    && (forall other :: other in store.sessions && other != id && other !in left.sessions ==>
          Expired(store.sessions[other], now))
  }

  /** Making room brings no session back. */
  lemma StaysAbsent(settings: Settings, store: Store, id: SessionId, now: int)
    requires InBounds(settings) && Ordered(store) && id !in store.sessions
    ensures Ordered(Capacity(settings, store, now)) && id !in Capacity(settings, store, now).sessions
  {
    hide Capacity, GivesWay;
    CapacityShape(settings, store, now);
  }

  lemma ReopenedOrder(store: Store, id: SessionId, session: Session)
    requires Ordered(store) && id !in store.sessions
    ensures Ordered(Store(store.sessions[id := session], store.order + [id], store.expiredRemoved))
  {
  }
}
