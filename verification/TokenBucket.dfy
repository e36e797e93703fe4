/** The in-memory token-bucket store, over the reals.

    A bucket is characterised by its level, the tokens available at a given time.  Denied calls and
    evictions of idle buckets rewrite the stored state without changing any later level. */
module TokenBucket {
  import opened Prelude
  import opened Sequences

  type Key = string

  const EPSILON: real := 0.000000001

  datatype Policy = Policy(capacity: real, rate: real)

  predicate Positive(policy: Policy) {
    policy.capacity > 0.0 && policy.rate > 0.0
  }

  datatype Bucket = Bucket(tokens: real, lastRefill: real, lastSeen: real)

  datatype Evaluation = Evaluation(allowed: bool, remaining: real, retryAfter: Option<int>)

  datatype StoreError = InvalidInput | CorruptedState

  type Outcome = Result<Evaluation, StoreError>

  function Min(x: real, y: real): real {
    if x <= y then x else y
  }

  function Max(x: real, y: real): real {
    if x >= y then x else y
  }

  function Ceil(x: real): int {
    if x.Floor as real == x then x.Floor else x.Floor + 1
  }

  // ---- One bucket ------------------------------------------------------------------------------

  /** Tokens that refill in so many seconds. */
  function Accrued(policy: Policy, seconds: real): real {
    seconds * policy.rate
  }

  lemma AccruedNonNegative(policy: Policy, seconds: real)
    requires Positive(policy) && seconds >= 0.0
    ensures Accrued(policy, seconds) >= 0.0
  {
  }

  lemma AccruedSum(policy: Policy, x: real, y: real)
    ensures Accrued(policy, x + y) == Accrued(policy, x) + Accrued(policy, y)
  {
  }

  lemma AccruedMonotone(policy: Policy, x: real, y: real)
    requires Positive(policy)
    ensures Accrued(policy, x) < Accrued(policy, y) <==> x < y
  {
  }

  /** Tokens available in a bucket at time `now`. */
  function Available(policy: Policy, b: Bucket, now: real): real {
    Min(policy.capacity, b.tokens + Accrued(policy, Max(0.0, now - b.lastRefill)))
  }

  predicate ValidBucket(policy: Policy, b: Bucket) {
    0.0 <= b.tokens <= policy.capacity + EPSILON
  }

  function Decide(policy: Policy, available: real, cost: real): Evaluation
    requires policy.rate > 0.0
  {
    if available + EPSILON >= cost then Evaluation(true, Max(0.0, available - cost), None)
    else
      var remaining := Max(0.0, available);
      var retry := Ceil((cost - remaining) / policy.rate);
      Evaluation(false, remaining, Some(if retry >= 0 then retry else 0))
  }

  function Touched(b: Bucket, remaining: real, now: real): Bucket {
    Bucket(remaining, Max(now, b.lastRefill), Max(now, b.lastSeen))
  }

  function Fresh(policy: Policy, now: real): Bucket {
    Bucket(policy.capacity, now, now)
  }

  // ---- The store -------------------------------------------------------------------------------

  datatype Limits = Limits(ttl: real, interval: nat, scan: nat)

  predicate ValidLimits(limits: Limits) {
    limits.ttl > 0.0 && limits.interval > 0 && limits.scan > 0
  }

  /** `order` is the insertion order of the dictionary. */
  datatype Store = Store(buckets: map<Key, Bucket>, order: seq<Key>, accesses: nat)

  const EMPTY := Store(map[], [], 0)

  datatype Call = Call(key: Key, cost: real, now: real)

  function Lookup(policy: Policy, s: Store, call: Call): Bucket {
    if call.key in s.buckets then s.buckets[call.key] else Fresh(policy, call.now)
  }

  function Put(s: Store, key: Key, b: Bucket): Store {
    Store(s.buckets[key := b], if key in s.buckets then s.order else s.order + [key], s.accesses)
  }

  /** The critical section of `consume`. */
  function SectionStep(policy: Policy, s: Store, call: Call): (Store, Outcome)
    requires policy.rate > 0.0
  {
    var b := Lookup(policy, s, call);
    if !ValidBucket(policy, b) then (s, Err(CorruptedState))
    else
      var e := Decide(policy, Available(policy, b, call.now), call.cost);
      (Put(s, call.key, Touched(b, e.remaining, call.now)), Ok(e))
  }

  predicate Idle(limits: Limits, b: Bucket, now: real) {
    now - b.lastSeen > limits.ttl
  }

  function Surviving(limits: Limits, buckets: map<Key, Bucket>, keys: seq<Key>, now: real): seq<Key> {
    if keys == [] then []
    else
      var n := |keys| - 1;
      Surviving(limits, buckets, keys[..n], now)
      + (if keys[n] in buckets && Idle(limits, buckets[keys[n]], now) then [] else [keys[n]])
  }

  function Gone(limits: Limits, buckets: map<Key, Bucket>, keys: seq<Key>, now: real): set<Key> {
    set k | k in keys && k in buckets && Idle(limits, buckets[k], now)
  }

  /** The idle buckets among the first `scan` of the dictionary are removed. */
  function Cleaned(limits: Limits, s: Store, now: real): Store {
    var window := if |s.order| <= limits.scan then s.order else s.order[..limits.scan];
    Store(s.buckets - Gone(limits, s.buckets, window, now),
          Surviving(limits, s.buckets, window, now) + s.order[|window|..], s.accesses)
  }

  /** `consume` without the opportunistic cleanup. */
  function Kept(policy: Policy, s: Store, call: Call): (Store, Outcome)
    requires policy.rate > 0.0
  {
    if call.cost <= 0.0 then (s, Err(InvalidInput)) else SectionStep(policy, s, call)
  }

  /** `consume`. */
  function ConsumeStep(limits: Limits, policy: Policy, s: Store, call: Call): (Store, Outcome)
    requires policy.rate > 0.0 && limits.interval > 0
  {
    var (s1, outcome) := Kept(policy, s, call);
    if outcome.Err? then (s1, outcome)
    else
      var s2 := s1.(accesses := s1.accesses + 1);
      (if s2.accesses % limits.interval == 0 then Cleaned(limits, s2, call.now) else s2, outcome)
  }

  class InMemoryBucketStore {
    const limits: Limits
    var buckets: map<Key, Bucket>
    var order: seq<Key>
    var accesses: nat

    function State(): Store
      reads this
    {
      Store(buckets, order, accesses)
    }

    ghost predicate Valid()
      reads this
    {
      ValidLimits(limits) && DictionaryOrder(order, buckets)
    }

    constructor (limits: Limits)
      requires ValidLimits(limits)
      ensures Valid() && this.limits == limits && State() == EMPTY
    {
      this.limits := limits;
      buckets, order, accesses := map[], [], 0;
    }

    /** The part of `consume` that runs under the bucket's lock. */
    method Section(policy: Policy, call: Call) returns (outcome: Outcome)
      requires Valid() && Positive(policy)
      modifies this`buckets, this`order
      ensures Valid() && (State(), outcome) == SectionStep(policy, old(State()), call)
    {
      var b := if call.key in buckets then buckets[call.key] else Bucket(policy.capacity, call.now, call.now);
      if b.tokens < 0.0 || b.tokens > policy.capacity + EPSILON { return Err(CorruptedState); }
      var elapsed := Max(0.0, call.now - b.lastRefill);
      var available := Min(policy.capacity, b.tokens + elapsed * policy.rate);
      assert available == Available(policy, b, call.now);
      hide Available;
      var remaining, e;
      if available + EPSILON >= call.cost {
        remaining := Max(0.0, available - call.cost);
        e := Evaluation(true, remaining, None);
      } else {
        remaining := Max(0.0, available);
        var retry := Ceil((call.cost - remaining) / policy.rate);
        e := Evaluation(false, remaining, Some(if retry >= 0 then retry else 0));
      }
      assert e == Decide(policy, available, call.cost);
      hide Decide;
      if call.key !in buckets { order := order + [call.key]; }
      buckets := buckets[call.key := Bucket(remaining, Max(call.now, b.lastRefill), Max(call.now, b.lastSeen))];
      return Ok(e);
    }

    method Consume(policy: Policy, call: Call) returns (outcome: Outcome)
      requires Valid() && Positive(policy)
      modifies this
      ensures Valid() && (State(), outcome) == ConsumeStep(limits, policy, old(State()), call)
    {
      hide Cleaned, SectionStep, DictionaryOrder;
      if call.cost <= 0.0 { return Err(InvalidInput); }
      outcome := Section(policy, call);
      if outcome.Err? {
        SectionErrors(policy, old(State()), call);
        return outcome;
      }
      accesses := accesses + 1;
      if accesses % limits.interval == 0 {
        var removed := Cleanup(call.now);
      }
    }

    /** Scans a bounded prefix of the dictionary and drops the idle buckets in it. */
    method Cleanup(now: real) returns (removed: nat)
      requires Valid()
      modifies this
      ensures Valid() && State() == Cleaned(limits, old(State()), now)
      ensures removed + |buckets| == old(|buckets|)
    {
      hide Idle, DictionaryOrder;
      var window := if |order| <= limits.scan then order else order[..limits.scan];
      var rest := order[|window|..];
      assert order == window + rest;
      var kept, gone;
      kept, gone := Scan(window, now);
      OrderSurvives(limits, buckets, window, rest, now);
      removed := |gone|;
      CountRemoved(buckets, gone);
      buckets, order := buckets - gone, kept + rest;
    }

    method Scan(window: seq<Key>, now: real) returns (kept: seq<Key>, gone: set<Key>)
      ensures kept == Surviving(limits, buckets, window, now) && gone == Gone(limits, buckets, window, now)
    {
      hide Idle;
      kept, gone := [], {};
      for i := 0 to |window|
        invariant kept == Surviving(limits, buckets, window[..i], now)
        invariant gone == Gone(limits, buckets, window[..i], now)
      {
        assert window[..i + 1][..i] == window[..i] && window[..i + 1] == window[..i] + [window[i]];
        GoneAppend(limits, buckets, window[..i], window[i], now);
        if window[i] in buckets && Idle(limits, buckets[window[i]], now) {
          gone := gone + {window[i]};
        } else {
          kept := kept + [window[i]];
        }
      }
      assert window[..|window|] == window;
    }
  }

  // ---- The dictionary's insertion order --------------------------------------------------------

  ghost predicate DictionaryOrder(order: seq<Key>, buckets: map<Key, Bucket>) {
    && (forall k :: k in order <==> k in buckets)
    && Distinct(order)
  }

  lemma DistinctConcat(a: seq<Key>, b: seq<Key>)
    ensures Distinct(a + b) <==> Distinct(a) && Distinct(b) && forall k :: k in a ==> k !in b
  {
    var c := a + b;
    assert forall i :: 0 <= i < |a| ==> c[i] == a[i];
    assert forall j :: |a| <= j < |c| ==> c[j] == b[j - |a|];
    if Distinct(c) {
      forall i, j | 0 <= i < |a| && 0 <= j < |b|
        ensures a[i] != b[j]
      {
        assert c[i] != c[|a| + j];
      }
      forall i, j | 0 <= i < j < |b|
        ensures b[i] != b[j]
      {
        assert c[|a| + i] != c[|a| + j];
      }
    }
    if Distinct(a) && Distinct(b) && forall k :: k in a ==> k !in b {
      forall i, j | 0 <= i < j < |c|
        ensures c[i] != c[j]
      {
        if i < |a| <= j {
          assert c[i] in a && c[j] in b;
        }
      }
    }
  }

  lemma GoneAppend(limits: Limits, buckets: map<Key, Bucket>, keys: seq<Key>, k: Key, now: real)
    ensures Gone(limits, buckets, keys + [k], now) ==
            Gone(limits, buckets, keys, now) + if k in buckets && Idle(limits, buckets[k], now) then {k} else {}
  {
    assert forall x :: x in keys + [k] <==> x in keys || x == k;
  }

  lemma {:induction false} SurvivingMembers(limits: Limits, buckets: map<Key, Bucket>, keys: seq<Key>, now: real)
    requires Distinct(keys)
    ensures var kept := Surviving(limits, buckets, keys, now);
            && (forall k :: k in kept <==> k in keys && k !in Gone(limits, buckets, keys, now))
            && Distinct(kept)
  {
    hide Idle, Distinct;
    if keys != [] {
      var n := |keys| - 1;
      assert keys == keys[..n] + [keys[n]];
      DistinctConcat(keys[..n], [keys[n]]);
      SurvivingMembers(limits, buckets, keys[..n], now);
      GoneAppend(limits, buckets, keys[..n], keys[n], now);
      assert forall k :: k in Gone(limits, buckets, keys[..n], now) ==> k in keys[..n];
      var earlier := Surviving(limits, buckets, keys[..n], now);
      DistinctConcat(earlier, [keys[n]]);
      assert earlier + [] == earlier;
    } else {
      assert Distinct<Key>([]) by { DistinctEmpty(); }
    }
  }

  lemma DistinctEmpty()
    ensures Distinct<Key>([])
  {
  }

  lemma CountRemoved(buckets: map<Key, Bucket>, gone: set<Key>)
    requires gone <= buckets.Keys
    ensures |gone| + |buckets - gone| == |buckets|
  {
    var left := buckets - gone;
    assert left.Keys == buckets.Keys - gone;
    assert buckets.Keys == left.Keys + gone;
  }

  lemma OrderSurvives(limits: Limits, buckets: map<Key, Bucket>, window: seq<Key>, rest: seq<Key>, now: real)
    requires DictionaryOrder(window + rest, buckets)
    ensures DictionaryOrder(Surviving(limits, buckets, window, now) + rest,
                            buckets - Gone(limits, buckets, window, now))
  {
    hide Distinct, Idle;
    DistinctConcat(window, rest);
    SurvivingMembers(limits, buckets, window, now);
    var kept, gone := Surviving(limits, buckets, window, now), Gone(limits, buckets, window, now);
    assert forall k :: k in gone ==> k in window;
    hide Surviving, Gone;
    DistinctConcat(kept, rest);
    assert forall k :: k in window + rest <==> k in window || k in rest;
    assert forall k :: k in kept + rest <==> k in kept || k in rest;
  }

  lemma SectionErrors(policy: Policy, s: Store, call: Call)
    requires policy.rate > 0.0
    ensures SectionStep(policy, s, call).1.Err? ==> SectionStep(policy, s, call).0 == s
  {
  }

  // ---- What one call and one cleanup do --------------------------------------------------------

  /** The smaller of the capacity and what is left with what has refilled since. */
  ghost predicate AvailableIs(policy: Policy, tokens: real, since: real, now: real, available: real) {
    var refilled := if since < now then tokens + (now - since) * policy.rate else tokens;
    available == if refilled < policy.capacity then refilled else policy.capacity
  }

  /** The least number of whole seconds in which so much refills. */
  ghost predicate LeastSeconds(policy: Policy, missing: real, seconds: int) {
    && 0 <= seconds && missing <= Accrued(policy, seconds as real)
    && (0 < seconds ==> Accrued(policy, (seconds - 1) as real) < missing)
  }

  lemma CeilMeans(x: real)
    ensures x <= Ceil(x) as real < x + 1.0
  {
  }

  lemma WholeSeconds(policy: Policy, missing: real)
    requires Positive(policy) && missing > 0.0
    ensures var seconds := Ceil(missing / policy.rate); seconds >= 0 && LeastSeconds(policy, missing, seconds)
  {
    var exact := missing / policy.rate;
    assert Accrued(policy, exact) == missing && Accrued(policy, 0.0) == 0.0;
    hide Accrued, Ceil;
    CeilMeans(exact);
    var seconds := Ceil(exact);
    AccruedMonotone(policy, 0.0, exact);
    AccruedMonotone(policy, seconds as real, exact);
    AccruedMonotone(policy, (seconds - 1) as real, exact);
  }

  lemma AvailableMeans(policy: Policy, b: Bucket, now: real)
    requires Positive(policy)
    ensures AvailableIs(policy, b.tokens, b.lastRefill, now, Available(policy, b, now))
    ensures 0.0 <= b.tokens ==> 0.0 <= Available(policy, b, now)
  {
    AccruedNonNegative(policy, Max(0.0, now - b.lastRefill));
    assert Accrued(policy, 0.0) == 0.0;
    assert b.lastRefill < now ==> Accrued(policy, now - b.lastRefill) == (now - b.lastRefill) * policy.rate;
    hide Accrued;
  }

  /** Granted exactly when the cost fits what is available, give or take EPSILON; a denied call learns the least
      number of seconds to wait. */
  ghost predicate Answers(policy: Policy, available: real, cost: real, e: Evaluation) {
    if cost <= available + 0.000000001 then
      e == Evaluation(true, if cost <= available then available - cost else 0.0, None)
    else
      && !e.allowed && e.remaining == available && e.retryAfter.Some?
      && LeastSeconds(policy, cost - available, e.retryAfter.value)
  }

  lemma DecideMeans(policy: Policy, available: real, cost: real)
    requires Positive(policy) && 0.0 <= available
    ensures Answers(policy, available, cost, Decide(policy, available, cost))
  {
    if !(available + EPSILON >= cost) {
      assert Max(0.0, available) == available;
      WholeSeconds(policy, cost - available);
    }
    hide Ceil, LeastSeconds;
  }

  /** The bucket after a call: what remains, refilled and seen now at the earliest. */
  ghost predicate BucketAfter(b: Bucket, now: real, remaining: real, after: Bucket) {
    && after.tokens == remaining
    && after.lastRefill == (if b.lastRefill < now then now else b.lastRefill)
    && after.lastSeen == (if b.lastSeen < now then now else b.lastSeen)
  }

  /** One call on its bucket, or on a full one when there is none: it fails exactly when the tokens are outside
      [0, capacity + EPSILON], and then changes nothing; otherwise it is answered by what is available, and only its
      own bucket changes, which stands last when it is new. */
  lemma SectionMeans(policy: Policy, s: Store, call: Call)
    requires Positive(policy)
    ensures var known := call.key in s.buckets;
            var b := if known then s.buckets[call.key] else Bucket(policy.capacity, call.now, call.now);
            var (after, outcome) := SectionStep(policy, s, call);
            if b.tokens < 0.0 || policy.capacity + 0.000000001 < b.tokens then
              outcome == Err(CorruptedState) && after == s
            else
              && outcome.Ok? && call.key in after.buckets
              && AvailableIs(policy, b.tokens, b.lastRefill, call.now, Available(policy, b, call.now))
              && Answers(policy, Available(policy, b, call.now), call.cost, outcome.value)
              && BucketAfter(b, call.now, outcome.value.remaining, after.buckets[call.key])
              && after.buckets == s.buckets[call.key := after.buckets[call.key]]
              && after.order == (if known then s.order else s.order + [call.key]) && after.accesses == s.accesses
  {
    hide Answers, AvailableIs, Decide, Available;
    var b := Lookup(policy, s, call);
    AvailableMeans(policy, b, call.now);
    if ValidBucket(policy, b) { DecideMeans(policy, Available(policy, b, call.now), call.cost); }
  }

  /** Positions of a sequence, in order, at which these elements stand. */
  ghost predicate StandAt(part: seq<Key>, whole: seq<Key>, at: seq<nat>) {
    && |at| == |part| && (forall k :: 0 <= k < |at| ==> at[k] < |whole| && part[k] == whole[at[k]])
    && forall k, l :: 0 <= k < l < |at| ==> at[k] < at[l]
  }

  lemma {:induction false} SurvivingAt(limits: Limits, buckets: map<Key, Bucket>, keys: seq<Key>, now: real)
    returns (at: seq<nat>)
    ensures StandAt(Surviving(limits, buckets, keys, now), keys, at)
    decreases |keys|
  {
    hide Idle;
    at := [];
    if keys != [] {
      var n := |keys| - 1;
      at := SurvivingAt(limits, buckets, keys[..n], now);
      if keys[n] in buckets && Idle(limits, buckets[keys[n]], now) {
        NothingAround(Surviving(limits, buckets, keys[..n], now));
      } else {
        at := at + [n];
      }
    }
  }

  /** A cleanup removes exactly the buckets among the first of the dictionary that were not seen for longer than
      the ttl; all others stay as they are and in their order. */
  lemma CleanedMeans(limits: Limits, s: Store, now: real) returns (part: seq<Key>, at: seq<nat>)
    requires DictionaryOrder(s.order, s.buckets)
    ensures var cleaned := Cleaned(limits, s, now);
            var n := if limits.scan < |s.order| then limits.scan else |s.order|;
            && (forall k :: k in s.buckets ==>
                  (k !in cleaned.buckets <==> k in s.order[..n] && limits.ttl < now - s.buckets[k].lastSeen))
            && (forall k :: k in cleaned.buckets ==> k in s.buckets && cleaned.buckets[k] == s.buckets[k])
            && DictionaryOrder(cleaned.order, cleaned.buckets) && cleaned.accesses == s.accesses
            && cleaned.order == part + s.order[n..] && StandAt(part, s.order[..n], at)
  {
    var window := if |s.order| <= limits.scan then s.order else s.order[..limits.scan];
    part := Surviving(limits, s.buckets, window, now);
    at := SurvivingAt(limits, s.buckets, window, now);
    assert s.order == window + s.order[|window|..];
    OrderSurvives(limits, s.buckets, window, s.order[|window|..], now);
    assert s.order[..|window|] == window;
    hide Surviving, DictionaryOrder, StandAt;
  }
}
