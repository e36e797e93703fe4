/** Runs of the token-bucket store: what they grant, what cleanup changes, and when a retry succeeds. */
module TokenBucketRuns {
  import opened Prelude
  import opened TokenBucket

  // ---- Runs ------------------------------------------------------------------------------------

  /** Every key has one policy, which no call changes. */
  type Policies = Key -> Policy

  ghost predicate AllPositive(policies: Policies) {
    forall k :: Positive(policies(k))
  }

  function Run(limits: Limits, policies: Policies, s: Store, calls: seq<Call>): (Store, seq<Outcome>)
    requires AllPositive(policies) && limits.interval > 0
    decreases |calls|
  {
    if calls == [] then (s, [])
    else
      assert Positive(policies(calls[0].key));
      var (s', outcome) := ConsumeStep(limits, policies(calls[0].key), s, calls[0]);
      var (end, outcomes) := Run(limits, policies, s', calls[1..]);
      (end, [outcome] + outcomes)
  }

  /** The same run on a store that never cleans up. */
  function KeptRun(policies: Policies, s: Store, calls: seq<Call>): (r: (Store, seq<Outcome>))
    requires AllPositive(policies)
    ensures |r.1| == |calls|
    decreases |calls|
  {
    if calls == [] then (s, [])
    else
      assert Positive(policies(calls[0].key));
      var (s', outcome) := Kept(policies(calls[0].key), s, calls[0]);
      var (end, outcomes) := KeptRun(policies, s', calls[1..]);
      (end, [outcome] + outcomes)
  }

  // ---- Stored tokens stay in range -------------------------------------------------------------

  ghost predicate InRange(policies: Policies, s: Store) {
    forall k :: k in s.buckets ==> 0.0 <= s.buckets[k].tokens <= policies(k).capacity
  }

  lemma AvailableInRange(policy: Policy, b: Bucket, now: real)
    requires Positive(policy) && 0.0 <= b.tokens <= policy.capacity
    ensures 0.0 <= Available(policy, b, now) <= policy.capacity
  {
    AccruedNonNegative(policy, Max(0.0, now - b.lastRefill));
    hide Accrued;
  }

  lemma KeptInRange(policies: Policies, s: Store, call: Call)
    requires AllPositive(policies) && InRange(policies, s)
    ensures var (s', outcome) := Kept(policies(call.key), s, call);
            InRange(policies, s') && (outcome.Err? <==> call.cost <= 0.0) && outcome != Err(CorruptedState)
  {
    var policy := policies(call.key);
    assert Positive(policy);
    AvailableInRange(policy, Lookup(policy, s, call), call.now);
    hide Available;
  }

  /** With a fixed policy per key the stored tokens of every bucket stay within [0, capacity], so
      the corruption check never fires: a call fails exactly on a non-positive cost.  The clock may
      even run backwards. */
  lemma {:induction false} RunStaysInRange(limits: Limits, policies: Policies, s: Store, calls: seq<Call>)
    requires AllPositive(policies) && limits.interval > 0 && InRange(policies, s)
    ensures var (end, outcomes) := Run(limits, policies, s, calls);
            && InRange(policies, end) && |outcomes| == |calls|
            && forall i :: 0 <= i < |calls| ==>
                             outcomes[i] != Err(CorruptedState) && (outcomes[i].Err? <==> calls[i].cost <= 0.0)
    decreases |calls|
  {
    if calls != [] {
      hide Kept;
      KeptInRange(policies, s, calls[0]);
      assert Positive(policies(calls[0].key));
      var (s', outcome) := ConsumeStep(limits, policies(calls[0].key), s, calls[0]);
      RunStaysInRange(limits, policies, s', calls[1..]);
    }
  }

  /** No bucket ever holds enough for a cost above capacity + EPSILON, whatever came before and on any
      clock: every call that asks for it is denied. */
  lemma {:induction false} TooCostlyIsDenied(limits: Limits, policies: Policies, s: Store, calls: seq<Call>, i: nat)
    requires AllPositive(policies) && limits.interval > 0 && InRange(policies, s)
    requires i < |calls| && calls[i].cost > policies(calls[i].key).capacity + EPSILON
    ensures var outcomes := Run(limits, policies, s, calls).1;
            |outcomes| == |calls| && DeniedOutcome(outcomes[i])
    decreases |calls|
  {
    RunStaysInRange(limits, policies, s, calls);
    var policy := policies(calls[0].key);
    assert Positive(policy);
    if i == 0 {
      AvailableInRange(policy, Lookup(policy, s, calls[0]), calls[0].now);
      hide Available, Cleaned;
    } else {
      hide Kept, Cleaned;
      KeptInRange(policies, s, calls[0]);
      TooCostlyIsDenied(limits, policies, ConsumeStep(limits, policy, s, calls[0]).0, calls[1..], i - 1);
    }
  }

  ghost predicate NeverGranted(limits: Limits, policies: Policies, key: Key, cost: real)
    requires AllPositive(policies) && limits.interval > 0
  {
    forall calls: seq<Call>, i :: 0 <= i < |calls| && calls[i].key == key && calls[i].cost == cost ==>
      Denies(limits, policies, calls, i)
  }

  ghost predicate Denies(limits: Limits, policies: Policies, calls: seq<Call>, i: nat)
    requires AllPositive(policies) && limits.interval > 0
  {
    var outcomes := Run(limits, policies, EMPTY, calls).1;
    i < |outcomes| && DeniedOutcome(outcomes[i])
  }

  /** A positive cost is denied in every run exactly when it is above capacity + EPSILON. */
  lemma NeverGrantedIff(limits: Limits, policies: Policies, key: Key, cost: real)
    requires AllPositive(policies) && limits.interval > 0 && cost > 0.0
    ensures NeverGranted(limits, policies, key, cost) <==> cost > policies(key).capacity + EPSILON
  {
    if cost > policies(key).capacity + EPSILON {
      hide Run, DeniedOutcome;
      forall calls: seq<Call>, i | 0 <= i < |calls| && calls[i].key == key && calls[i].cost == cost
        ensures Denies(limits, policies, calls, i)
      {
        TooCostlyIsDenied(limits, policies, EMPTY, calls, i);
      }
    } else {
      FirstCallIsGranted(limits, policies, Call(key, cost, 0.0));
      assert [Call(key, cost, 0.0)][0].key == key;
    }
  }

  /** A new bucket is full. */
  lemma FirstCallIsGranted(limits: Limits, policies: Policies, call: Call)
    requires AllPositive(policies) && limits.interval > 0 && 0.0 < call.cost <= policies(call.key).capacity + EPSILON
    ensures !Denies(limits, policies, [call], 0)
  {
    hide Cleaned;
    var policy := policies(call.key);
    assert Positive(policy);
    AccruedNonNegative(policy, 0.0);
    assert Available(policy, Fresh(policy, call.now), call.now) == policy.capacity;
  }

  // ---- Levels ----------------------------------------------------------------------------------

  /** The tokens a call on `key` would find at time `t`. */
  function Level(policies: Policies, s: Store, key: Key, t: real): real {
    if key in s.buckets then Available(policies(key), s.buckets[key], t) else policies(key).capacity
  }

  /** A store reached by time `t` on a monotone clock. */
  ghost predicate Good(policies: Policies, s: Store, t: real) {
    && InRange(policies, s)
    && forall k :: k in s.buckets ==> s.buckets[k].lastRefill == s.buckets[k].lastSeen <= t
  }

  lemma LevelAdvances(policies: Policies, s: Store, key: Key, t: real, t': real)
    requires AllPositive(policies) && Good(policies, s, t) && t <= t'
    ensures 0.0 <= Level(policies, s, key, t) <= policies(key).capacity
    ensures Level(policies, s, key, t') ==
            Min(policies(key).capacity, Level(policies, s, key, t) + Accrued(policies(key), t' - t))
  {
    var policy := policies(key);
    assert Positive(policy);
    hide Accrued;
    AccruedNonNegative(policy, t' - t);
    if key in s.buckets {
      var b := s.buckets[key];
      AvailableInRange(policy, b, t);
      AccruedSum(policy, t' - t, t - b.lastRefill);
      assert (t' - t) + (t - b.lastRefill) == t' - b.lastRefill;
      AccruedNonNegative(policy, t - b.lastRefill);
    }
  }

  /** A call in terms of levels: it reads and lowers the level of its own key and no other. */
  lemma KeptLevels(policies: Policies, s: Store, call: Call, t: real)
    requires AllPositive(policies) && Good(policies, s, t) && t <= call.now && call.cost > 0.0
    ensures Positive(policies(call.key))
    ensures var policy, level := policies(call.key), Level(policies, s, call.key, call.now);
            var (s', outcome) := Kept(policy, s, call);
            && outcome == Ok(Decide(policy, level, call.cost))
            && Level(policies, s', call.key, call.now) == Decide(policy, level, call.cost).remaining
            && (forall k :: k != call.key ==> Level(policies, s', k, call.now) == Level(policies, s, k, call.now))
            && Good(policies, s', call.now)
  {
    var policy := policies(call.key);
    assert Positive(policy);
    KeptInRange(policies, s, call);
    var b := Lookup(policy, s, call);
    AvailableInRange(policy, b, call.now);
    assert Available(policy, b, call.now) == Level(policies, s, call.key, call.now);
    var remaining := Decide(policy, Available(policy, b, call.now), call.cost).remaining;
    assert 0.0 <= remaining <= policy.capacity;
    assert Available(policy, Touched(b, remaining, call.now), call.now) == remaining;
    hide Available, Decide;
  }

  ghost predicate Agree(policies: Policies, a: Store, b: Store, t: real) {
    forall k :: Level(policies, a, k, t) == Level(policies, b, k, t)
  }

  lemma AgreeLater(policies: Policies, a: Store, b: Store, t: real, t': real)
    requires AllPositive(policies) && Good(policies, a, t) && Good(policies, b, t) && t <= t'
          && Agree(policies, a, b, t)
    ensures Agree(policies, a, b, t')
  {
    hide Level;
    forall k
      ensures Level(policies, a, k, t') == Level(policies, b, k, t')
    {
      LevelAdvances(policies, a, k, t, t');
      LevelAdvances(policies, b, k, t, t');
    }
  }

  /** Stores that agree answer the next call alike and still agree afterwards. */
  lemma AgreeingStep(policies: Policies, a: Store, b: Store, call: Call, t: real)
    requires AllPositive(policies) && Good(policies, a, t) && Good(policies, b, t) && t <= call.now
          && Agree(policies, a, b, t)
    ensures Positive(policies(call.key))
    ensures var (a', x), (b', y) := Kept(policies(call.key), a, call), Kept(policies(call.key), b, call);
            x == y && Good(policies, a', call.now) && Good(policies, b', call.now) && Agree(policies, a', b', call.now)
  {
    assert Positive(policies(call.key));
    AgreeLater(policies, a, b, t, call.now);
    if call.cost > 0.0 {
      KeptLevels(policies, a, call, t);
      KeptLevels(policies, b, call, t);
      hide Kept, Level, Decide;
      var a', b' := Kept(policies(call.key), a, call).0, Kept(policies(call.key), b, call).0;
      forall k
        ensures Level(policies, a', k, call.now) == Level(policies, b', k, call.now)
      {
        if k != call.key {
          assert Level(policies, a, k, call.now) == Level(policies, b, k, call.now);
        }
      }
    }
  }

  ghost predicate Monotone(calls: seq<Call>, t: real)
    decreases |calls|
  {
    calls != [] ==> t <= calls[0].now && Monotone(calls[1..], calls[0].now)
  }

  // ---- Cleanup is invisible --------------------------------------------------------------------

  /** An idle bucket has refilled by the time it may be removed. */
  predicate RefillsInTime(limits: Limits, policy: Policy) {
    Accrued(policy, limits.ttl) >= policy.capacity
  }

  ghost predicate RefillsWithinTtl(limits: Limits, policies: Policies) {
    forall k :: RefillsInTime(limits, policies(k))
  }

  lemma CleanedAgrees(limits: Limits, policies: Policies, s: Store, now: real)
    requires AllPositive(policies) && RefillsWithinTtl(limits, policies) && Good(policies, s, now)
    ensures Good(policies, Cleaned(limits, s, now), now) && Agree(policies, s, Cleaned(limits, s, now), now)
  {
    var cleaned := Cleaned(limits, s, now);
    forall k
      ensures Level(policies, s, k, now) == Level(policies, cleaned, k, now)
    {
      if k in s.buckets && k !in cleaned.buckets {
        var b := s.buckets[k];
        assert Positive(policies(k));
        assert now - b.lastRefill > limits.ttl;
        AccruedMonotone(policies(k), limits.ttl, now - b.lastRefill);
        assert Accrued(policies(k), limits.ttl) >= policies(k).capacity;
      }
    }
  }

  /** On a monotone clock, a store with cleanup answers every call exactly as a store that never
      cleans up, provided an idle bucket refills within the time to live. */
  lemma {:induction false} CleanupInvisible(limits: Limits, policies: Policies, s: Store, kept: Store,
                                            calls: seq<Call>, t: real)
    requires AllPositive(policies) && ValidLimits(limits) && RefillsWithinTtl(limits, policies)
    requires Good(policies, s, t) && Good(policies, kept, t) && Agree(policies, s, kept, t) && Monotone(calls, t)
    ensures Run(limits, policies, s, calls).1 == KeptRun(policies, kept, calls).1
    decreases |calls|
  {
    hide ConsumeStep, Kept, Agree, Good, RefillsWithinTtl;
    if calls != [] {
      var call, policy := calls[0], policies(calls[0].key);
      AgreeingConsume(limits, policies, s, kept, call, t);
      var next, next' := ConsumeStep(limits, policy, s, call).0, Kept(policy, kept, call).0;
      CleanupInvisible(limits, policies, next, next', calls[1..], call.now);
    }
  }

  /** One call with its cleanup answers like one without, and the stores still agree. */
  lemma AgreeingConsume(limits: Limits, policies: Policies, s: Store, kept: Store, call: Call, t: real)
    requires AllPositive(policies) && ValidLimits(limits) && RefillsWithinTtl(limits, policies)
    requires Good(policies, s, t) && Good(policies, kept, t) && Agree(policies, s, kept, t) && t <= call.now
    ensures Positive(policies(call.key))
    ensures var (next, x) := ConsumeStep(limits, policies(call.key), s, call);
            var (next', y) := Kept(policies(call.key), kept, call);
            && x == y && Good(policies, next, call.now) && Good(policies, next', call.now)
            && Agree(policies, next, next', call.now)
  {
    hide Kept, Cleaned, Agree, Good, RefillsWithinTtl;
    AgreeingStep(policies, s, kept, call, t);
    var policy := policies(call.key);
    var s1 := Kept(policy, s, call).0;
    var s2 := s1.(accesses := s1.accesses + 1);
    AccessesIgnored(policies, s1, s2, call.now);
    CleanedAgrees(limits, policies, s2, call.now);
    AgreeTransitive(policies, Kept(policy, kept, call).0, s1, s2, ConsumeStep(limits, policy, s, call).0, call.now);
  }

  lemma AccessesIgnored(policies: Policies, a: Store, b: Store, t: real)
    requires Good(policies, a, t) && a.buckets == b.buckets
    ensures Good(policies, b, t) && Agree(policies, a, b, t)
  {
  }

  lemma AgreeTransitive(policies: Policies, a: Store, b: Store, c: Store, d: Store, t: real)
    requires Agree(policies, b, a, t) && Agree(policies, b, c, t) && (d == b || d == c || Agree(policies, c, d, t))
    ensures Agree(policies, d, a, t)
  {
    hide Level;
  }

  // ---- Denied calls leave no trace -------------------------------------------------------------

  predicate DeniedOutcome(outcome: Outcome) {
    outcome.Ok? && !outcome.value.allowed
  }

  /** The members of `s` whose flag is not set. */
  function Without<T>(s: seq<T>, dropped: seq<bool>): seq<T>
    requires |s| == |dropped|
    decreases |s|
  {
    if s == [] then [] else (if dropped[0] then [] else [s[0]]) + Without(s[1..], dropped[1..])
  }

  lemma {:induction false} KeptRunIgnoresDenied(policies: Policies, a: Store, b: Store, calls: seq<Call>,
                                                dropped: seq<bool>, t: real)
    requires AllPositive(policies) && |calls| == |dropped| && Monotone(calls, t)
    requires Good(policies, a, t) && Good(policies, b, t) && Agree(policies, a, b, t)
    requires forall i :: 0 <= i < |calls| && dropped[i] ==> DeniedOutcome(KeptRun(policies, a, calls).1[i])
    ensures KeptRun(policies, b, Without(calls, dropped)).1 == Without(KeptRun(policies, a, calls).1, dropped)
    decreases |calls|
  {
    if calls != [] {
      hide Kept, Agree, Good;
      var call, rest := calls[0], KeptRun(policies, Kept(policies(calls[0].key), a, calls[0]).0, calls[1..]);
      var outcomes := KeptRun(policies, a, calls).1;
      assert outcomes[1..] == rest.1;
      AgreeingStep(policies, a, b, call, t);
      var a' := Kept(policies(call.key), a, call).0;
      forall i | 0 <= i < |calls[1..]| && dropped[1..][i]
        ensures DeniedOutcome(rest.1[i])
      {
        assert DeniedOutcome(outcomes[i + 1]);
      }
      if dropped[0] {
        assert DeniedOutcome(outcomes[0]);
        DeniedAgrees(policies, a, b, call, t);
        KeptRunIgnoresDenied(policies, a', b, calls[1..], dropped[1..], call.now);
        assert [] + Without(calls[1..], dropped[1..]) == Without(calls[1..], dropped[1..]);
        assert [] + Without(rest.1, dropped[1..]) == Without(rest.1, dropped[1..]);
      } else {
        KeptRunIgnoresDenied(policies, a', Kept(policies(call.key), b, call).0, calls[1..], dropped[1..], call.now);
        assert ([call] + Without(calls[1..], dropped[1..]))[1..] == Without(calls[1..], dropped[1..]);
      }
    }
  }

  /** A denied call leaves every level as it was. */
  lemma DeniedAgrees(policies: Policies, a: Store, b: Store, call: Call, t: real)
    requires AllPositive(policies) && Good(policies, a, t) && Good(policies, b, t) && t <= call.now
          && Agree(policies, a, b, t)
    requires Positive(policies(call.key)) && DeniedOutcome(Kept(policies(call.key), a, call).1)
    ensures Agree(policies, Kept(policies(call.key), a, call).0, b, call.now) && Good(policies, b, call.now)
  {
    KeptLevels(policies, a, call, t);
    AgreeLater(policies, a, b, t, call.now);
    LevelAdvances(policies, a, call.key, t, call.now);
    AccruedNonNegative(policies(call.key), call.now - t);
    var level := Level(policies, a, call.key, call.now);
    assert Decide(policies(call.key), level, call.cost).remaining == level;
    hide Kept, Level, Decide;
    var a' := Kept(policies(call.key), a, call).0;
    forall k
      ensures Level(policies, a', k, call.now) == Level(policies, b, k, call.now)
    {
      if k != call.key {
        assert Level(policies, a', k, call.now) == Level(policies, a, k, call.now);
      }
    }
  }

  lemma {:induction false} WithoutIsMonotone(calls: seq<Call>, dropped: seq<bool>, t: real)
    requires |calls| == |dropped| && Monotone(calls, t)
    ensures Monotone(Without(calls, dropped), t)
    ensures Without(calls, dropped) != [] ==> t <= Without(calls, dropped)[0].now
    decreases |calls|
  {
    if calls != [] {
      var rest := Without(calls[1..], dropped[1..]);
      WithoutIsMonotone(calls[1..], dropped[1..], calls[0].now);
      if dropped[0] {
        assert Without(calls, dropped) == rest;
      } else {
        assert ([calls[0]] + rest)[1..] == rest;
      }
    }
  }

  /** Removing denied calls from a run, with all its cleanups, changes no other answer when idle buckets
      refill within the time to live. */
  lemma DeniedCallsLeaveNoTrace(
      limits: Limits, policies: Policies, s: Store, calls: seq<Call>, dropped: seq<bool>, t: real)
    requires AllPositive(policies) && ValidLimits(limits) && RefillsWithinTtl(limits, policies)
    requires |calls| == |dropped| && Good(policies, s, t) && Monotone(calls, t)
    requires var outcomes := Run(limits, policies, s, calls).1;
             |outcomes| == |calls| && forall i :: 0 <= i < |calls| && dropped[i] ==> DeniedOutcome(outcomes[i])
    ensures Run(limits, policies, s, Without(calls, dropped)).1 == Without(Run(limits, policies, s, calls).1, dropped)
  {
    hide Run, KeptRun, Good, RefillsWithinTtl;
    assert Agree(policies, s, s, t);
    CleanupInvisible(limits, policies, s, s, calls, t);
    WithoutIsMonotone(calls, dropped, t);
    CleanupInvisible(limits, policies, s, s, Without(calls, dropped), t);
    KeptRunIgnoresDenied(policies, s, s, calls, dropped, t);
  }

  // ---- How much can be granted -----------------------------------------------------------------

  predicate GrantedTo(key: Key, call: Call, outcome: Outcome) {
    call.key == key && outcome.Ok? && outcome.value.allowed
  }

  function TotalGranted(key: Key, calls: seq<Call>, outcomes: seq<Outcome>): real
    requires |calls| == |outcomes|
    decreases |calls|
  {
    if calls == [] then 0.0
    else (if GrantedTo(key, calls[0], outcomes[0]) then calls[0].cost else 0.0) +
         TotalGranted(key, calls[1..], outcomes[1..])
  }

  /** Granted costs add up over the parts of a run; one call adds its cost when it is the key's and granted. */
  lemma {:induction false} TotalGrantedSplit(
      key: Key, a: seq<Call>, x: seq<Outcome>, b: seq<Call>, y: seq<Outcome>)
    requires |a| == |x| && |b| == |y|
    ensures TotalGranted(key, a + b, x + y) == TotalGranted(key, a, x) + TotalGranted(key, b, y)
    ensures |a| == 1 ==>
              TotalGranted(key, a, x) ==
              if a[0].key == key && x[0].Ok? && x[0].value.allowed then a[0].cost else 0.0
    decreases |a|
  {
    if a == [] {
      assert a + b == b && x + y == y;
    } else {
      assert (a + b)[1..] == a[1..] + b && (x + y)[1..] == x[1..] + y;
      TotalGrantedSplit(key, a[1..], x[1..], b, y);
    }
  }

  function Grants(key: Key, calls: seq<Call>, outcomes: seq<Outcome>): nat
    requires |calls| == |outcomes|
    decreases |calls|
  {
    if calls == [] then 0
    else (if GrantedTo(key, calls[0], outcomes[0]) then 1 else 0) + Grants(key, calls[1..], outcomes[1..])
  }

  /** The positions of the calls granted to a key, in order. */
  ghost predicate GrantsAt(key: Key, calls: seq<Call>, outcomes: seq<Outcome>, at: seq<int>)
    requires |calls| == |outcomes|
  {
    && (forall k :: 0 <= k < |at| ==> 0 <= at[k] < |calls|)
    && (forall k, l :: 0 <= k < l < |at| ==> at[k] < at[l])
    && forall i :: 0 <= i < |calls| ==>
         (i in at <==> calls[i].key == key && outcomes[i].Ok? && outcomes[i].value.allowed)
  }

  function Shifted(at: seq<int>): (r: seq<int>)
    ensures |r| == |at| && forall k :: 0 <= k < |at| ==> r[k] == at[k] + 1
  {
    seq(|at|, k requires 0 <= k < |at| => at[k] + 1)
  }

  /** There are as many grants as calls granted to the key. */
  lemma {:induction false} GrantsMean(key: Key, calls: seq<Call>, outcomes: seq<Outcome>) returns (at: seq<int>)
    requires |calls| == |outcomes|
    ensures GrantsAt(key, calls, outcomes, at) && Grants(key, calls, outcomes) == |at|
    decreases |calls|
  {
    at := [];
    if calls != [] {
      var rest := GrantsMean(key, calls[1..], outcomes[1..]);
      at := Shifted(rest);
      if GrantedTo(key, calls[0], outcomes[0]) { at := [0] + at; }
      GrantsShift(key, calls, outcomes, rest);
    }
  }

  lemma GrantsShift(key: Key, calls: seq<Call>, outcomes: seq<Outcome>, rest: seq<int>)
    requires |calls| == |outcomes| && calls != [] && GrantsAt(key, calls[1..], outcomes[1..], rest)
    ensures GrantsAt(key, calls, outcomes,
                     (if GrantedTo(key, calls[0], outcomes[0]) then [0] else []) + Shifted(rest))
  {
    var first := if GrantedTo(key, calls[0], outcomes[0]) then [0] else [];
    ShiftedMembers(first, rest);
    forall i | 0 < i < |calls|
      ensures calls[i] == calls[1..][i - 1] && outcomes[i] == outcomes[1..][i - 1]
    {
    }
  }

  lemma ShiftedMembers(first: seq<int>, rest: seq<int>)
    requires first == [] || first == [0]
    ensures forall i :: i in first + Shifted(rest) <==> i in first || i - 1 in rest
  {
    var at := first + Shifted(rest);
    forall i | i - 1 in rest
      ensures i in at
    {
      var k :| 0 <= k < |rest| && rest[k] == i - 1;
      assert at[|first| + k] == i;
    }
  }

  function EndTime(calls: seq<Call>, t: real): real {
    if calls == [] then t else calls[|calls| - 1].now
  }

  lemma GoodLater(policies: Policies, s: Store, t: real, t': real)
    requires Good(policies, s, t) && t <= t'
    ensures Good(policies, s, t')
  {
  }

  lemma InvalidCall(policies: Policies, s: Store, call: Call)
    requires policies(call.key).rate > 0.0 && call.cost <= 0.0
    ensures Kept(policies(call.key), s, call) == (s, Err(InvalidInput))
  {
  }

  lemma DecideLowers(policy: Policy, level: real, cost: real)
    requires policy.rate > 0.0 && level >= 0.0
    ensures var e := Decide(policy, level, cost);
            e.remaining + (if e.allowed then cost - EPSILON else 0.0) <= level && (!e.allowed ==> e.remaining == level)
  {
  }

  /** The level of a key around one call on any key: unchanged unless the call is granted on it. */
  lemma LevelAround(policies: Policies, s: Store, call: Call, key: Key, t: real)
    requires AllPositive(policies) && Good(policies, s, t) && t <= call.now
    ensures Positive(policies(call.key))
    ensures var (s', outcome) := Kept(policies(call.key), s, call);
            var before, after := Level(policies, s, key, call.now), Level(policies, s', key, call.now);
            && Good(policies, s', call.now)
            && (if GrantedTo(key, call, outcome) then after + call.cost - EPSILON <= before else after == before)
  {
    hide Kept, Level, Good, Decide;
    assert Positive(policies(call.key));
    if call.cost > 0.0 {
      KeptLevels(policies, s, call, t);
      AvailableLevel(policies, s, call.key, t, call.now);
      DecideLowers(policies(call.key), Level(policies, s, call.key, call.now), call.cost);
    } else {
      InvalidCall(policies, s, call);
      GoodLater(policies, s, t, call.now);
    }
  }

  lemma AvailableLevel(policies: Policies, s: Store, key: Key, t: real, now: real)
    requires AllPositive(policies) && Good(policies, s, t) && t <= now
    ensures 0.0 <= Level(policies, s, key, now) <= policies(key).capacity
  {
    hide Level, Good;
    GoodLater(policies, s, t, now);
    LevelAdvances(policies, s, key, now, now);
  }

  lemma RefillsAtMost(policies: Policies, s: Store, key: Key, t: real, now: real)
    requires AllPositive(policies) && Good(policies, s, t) && t <= now
    ensures Level(policies, s, key, now) <= Level(policies, s, key, t) + Accrued(policies(key), now - t)
  {
    hide Level, Good;
    LevelAdvances(policies, s, key, t, now);
  }

  /** The tolerance of so many grants. */
  function Slack(grants: nat): real {
    grants as real * EPSILON
  }

  // ---- Evictions -------------------------------------------------------------------------------

  /** The cleanup after this call removes the key's bucket before it has refilled. */
  ghost predicate EvictedEarly(limits: Limits, policies: Policies, s: Store, call: Call, key: Key)
    requires policies(call.key).rate > 0.0 && limits.interval > 0
  {
    var kept := Kept(policies(call.key), s, call).0;
    && key in kept.buckets && key !in ConsumeStep(limits, policies(call.key), s, call).0.buckets
    && Level(policies, kept, key, call.now) < policies(key).capacity
  }

  /** How often a run removes the key's bucket before it has refilled. */
  ghost function EarlyEvictions(limits: Limits, policies: Policies, s: Store, calls: seq<Call>, key: Key): nat
    requires AllPositive(policies) && limits.interval > 0
    decreases |calls|
  {
    if calls == [] then 0
    else
      assert Positive(policies(calls[0].key));
      (if EvictedEarly(limits, policies, s, calls[0], key) then 1 else 0)
      + EarlyEvictions(limits, policies, ConsumeStep(limits, policies(calls[0].key), s, calls[0]).0, calls[1..], key)
  }

  /** The run never removes the key's bucket. */
  ghost predicate NeverRemoved(limits: Limits, policies: Policies, s: Store, calls: seq<Call>, key: Key)
    requires AllPositive(policies) && limits.interval > 0
    decreases |calls|
  {
    calls != [] ==>
      (assert Positive(policies(calls[0].key));
       var next := ConsumeStep(limits, policies(calls[0].key), s, calls[0]).0;
       && (key in Kept(policies(calls[0].key), s, calls[0]).0.buckets ==> key in next.buckets)
       && NeverRemoved(limits, policies, next, calls[1..], key))
  }

  lemma CleanedLevel(limits: Limits, policies: Policies, s: Store, key: Key, now: real)
    requires Good(policies, s, now)
    ensures var cleaned := Cleaned(limits, s, now);
            && Good(policies, cleaned, now)
            && Level(policies, cleaned, key, now) ==
                 (if key in s.buckets && key !in cleaned.buckets then policies(key).capacity
                  else Level(policies, s, key, now))
  {
    hide Available, Surviving;
  }

  /** A call with its cleanup: the levels of the critical section, except that the bucket of a key evicted
      early is full again. */
  lemma StepLevel(limits: Limits, policies: Policies, s: Store, call: Call, key: Key, t: real)
    requires AllPositive(policies) && limits.interval > 0 && Good(policies, s, t) && t <= call.now
    ensures Positive(policies(call.key))
    ensures var policy := policies(call.key);
            var (next, outcome) := ConsumeStep(limits, policy, s, call);
            var kept := Kept(policy, s, call).0;
            && outcome == Kept(policy, s, call).1 && Good(policies, next, call.now)
            && Level(policies, next, key, call.now) ==
                 (if EvictedEarly(limits, policies, s, call, key) then policies(key).capacity
                  else Level(policies, kept, key, call.now))
  {
    hide Kept, Cleaned, Level, Good;
    LevelAround(policies, s, call, key, t);
    var (kept, outcome) := Kept(policies(call.key), s, call);
    if outcome.Ok? {
      var counted := kept.(accesses := kept.accesses + 1);
      SameBuckets(policies, kept, counted, key, call.now);
      CleanedLevel(limits, policies, counted, key, call.now);
      AvailableLevel(policies, kept, key, call.now, call.now);
    }
  }

  lemma SameBuckets(policies: Policies, a: Store, b: Store, key: Key, t: real)
    requires Good(policies, a, t) && a.buckets == b.buckets
    ensures Good(policies, b, t) && Level(policies, a, key, t) == Level(policies, b, key, t)
  {
  }

  /** A bucket that refills within the time to live is never evicted early. */
  lemma {:induction false} RefilledIsNotEarly(
      limits: Limits, policies: Policies, s: Store, calls: seq<Call>, key: Key, t: real)
    requires AllPositive(policies) && ValidLimits(limits) && RefillsInTime(limits, policies(key))
    requires Good(policies, s, t) && Monotone(calls, t)
    ensures EarlyEvictions(limits, policies, s, calls, key) == 0
    decreases |calls|
  {
    hide Kept, Level, Good, RefillsInTime;
    if calls != [] {
      StepLevel(limits, policies, s, calls[0], key, t);
      NotEvictedEarly(limits, policies, s, calls[0], key, t);
      RefilledIsNotEarly(limits, policies, ConsumeStep(limits, policies(calls[0].key), s, calls[0]).0, calls[1..],
                         key, calls[0].now);
    }
  }

  lemma NotEvictedEarly(limits: Limits, policies: Policies, s: Store, call: Call, key: Key, t: real)
    requires AllPositive(policies) && ValidLimits(limits) && RefillsInTime(limits, policies(key))
    requires Positive(policies(call.key)) && Good(policies, s, t) && t <= call.now
    ensures !EvictedEarly(limits, policies, s, call, key)
  {
    hide Kept, Good, Level;
    LevelAround(policies, s, call, key, t);
    var (kept, outcome) := Kept(policies(call.key), s, call);
    if outcome.Ok? {
      SameBuckets(policies, kept, kept.(accesses := kept.accesses + 1), key, call.now);
      IdleIsFull(limits, policies, kept.(accesses := kept.accesses + 1), key, call.now);
    }
  }

  lemma IdleIsFull(limits: Limits, policies: Policies, s: Store, key: Key, now: real)
    requires AllPositive(policies) && RefillsInTime(limits, policies(key)) && Good(policies, s, now)
    ensures key in s.buckets && key !in Cleaned(limits, s, now).buckets ==>
            Level(policies, s, key, now) == policies(key).capacity
  {
    hide Accrued, Surviving;
    if key in s.buckets && key !in Cleaned(limits, s, now).buckets {
      var b := s.buckets[key];
      assert Positive(policies(key));
      assert now - b.lastRefill > limits.ttl;
      AccruedMonotone(policies(key), limits.ttl, now - b.lastRefill);
    }
  }

  lemma {:induction false} UnremovedIsNotEarly(limits: Limits, policies: Policies, s: Store, calls: seq<Call>, key: Key)
    requires AllPositive(policies) && limits.interval > 0 && NeverRemoved(limits, policies, s, calls, key)
    ensures EarlyEvictions(limits, policies, s, calls, key) == 0
    decreases |calls|
  {
    hide Kept, Level, Cleaned;
    if calls != [] {
      assert Positive(policies(calls[0].key));
      UnremovedIsNotEarly(limits, policies, ConsumeStep(limits, policies(calls[0].key), s, calls[0]).0, calls[1..],
                          key);
    }
  }

  // ---- Bounds --------------------------------------------------------------------------------

  /** What so many early evictions of a key can hand out anew. */
  function Renewed(policy: Policy, evictions: nat): real {
    evictions as real * policy.capacity
  }

  lemma CountedSums(policy: Policy, evictions: nat, grants: nat)
    ensures Renewed(policy, evictions + 1) == Renewed(policy, evictions) + policy.capacity
    ensures Slack(grants + 1) == Slack(grants) + EPSILON
    ensures Renewed(policy, 0) == 0.0 && Slack(0) == 0.0
  {
  }

  /** In every run, what is granted on a key plus what is left is at most what was there, plus what
      refilled, plus EPSILON for each grant, plus one capacity for each early eviction. */
  lemma {:induction false} GrantedPlusLevel(
      limits: Limits, policies: Policies, s: Store, calls: seq<Call>, key: Key, t: real)
    requires AllPositive(policies) && limits.interval > 0 && Good(policies, s, t) && Monotone(calls, t)
    ensures var (end, outcomes) := Run(limits, policies, s, calls);
            && |outcomes| == |calls| && t <= EndTime(calls, t) && Good(policies, end, EndTime(calls, t))
            && TotalGranted(key, calls, outcomes) + Level(policies, end, key, EndTime(calls, t))
               <= Level(policies, s, key, t) + Accrued(policies(key), EndTime(calls, t) - t)
                  + Slack(Grants(key, calls, outcomes))
                  + Renewed(policies(key), EarlyEvictions(limits, policies, s, calls, key))
    decreases |calls|
  {
    hide ConsumeStep, Kept, Level, Good, Accrued, GrantedTo, EvictedEarly, Slack, Renewed;
    CountedSums(policies(key), 0, 0);
    if calls == [] {
      AccruedSum(policies(key), 0.0, 0.0);
    } else {
      var call, rest := calls[0], calls[1..];
      StepLowers(limits, policies, s, call, key, t);
      var (next, outcome) := ConsumeStep(limits, policies(call.key), s, call);
      GrantedPlusLevel(limits, policies, next, rest, key, call.now);
      var outcomes := Run(limits, policies, next, rest).1;
      assert ([outcome] + outcomes)[1..] == outcomes;
      assert EndTime(rest, call.now) == EndTime(calls, t);
      AccruedSum(policies(key), call.now - t, EndTime(calls, t) - call.now);
      assert (call.now - t) + (EndTime(calls, t) - call.now) == EndTime(calls, t) - t;
      CountedSums(policies(key), EarlyEvictions(limits, policies, next, rest, key), Grants(key, rest, outcomes));
    }
  }

  /** One call of such a run. */
  lemma StepLowers(limits: Limits, policies: Policies, s: Store, call: Call, key: Key, t: real)
    requires AllPositive(policies) && limits.interval > 0 && Good(policies, s, t) && t <= call.now
    ensures Positive(policies(call.key))
    ensures var (next, outcome) := ConsumeStep(limits, policies(call.key), s, call);
            && Good(policies, next, call.now)
            && (if GrantedTo(key, call, outcome) then call.cost else 0.0) + Level(policies, next, key, call.now)
               <= Level(policies, s, key, t) + Accrued(policies(key), call.now - t)
                  + (if GrantedTo(key, call, outcome) then EPSILON else 0.0)
                  + (if EvictedEarly(limits, policies, s, call, key) then policies(key).capacity else 0.0)
  {
    hide ConsumeStep, Kept, Level, Good, Accrued, EvictedEarly;
    LevelAround(policies, s, call, key, t);
    RefillsAtMost(policies, s, key, t, call.now);
    StepLevel(limits, policies, s, call, key, t);
    AvailableLevel(policies, Kept(policies(call.key), s, call).0, key, call.now, call.now);
  }

  /** In any window of any run, the cost granted on a key is at most the capacity, plus what refills during
      the window, plus EPSILON for every grant, plus one capacity for every early eviction. */
  lemma WindowBound(limits: Limits, policies: Policies, s: Store, calls: seq<Call>, key: Key, t: real)
    requires AllPositive(policies) && limits.interval > 0 && Good(policies, s, t) && Monotone(calls, t)
    ensures var outcomes := Run(limits, policies, s, calls).1;
            |outcomes| == |calls| &&
            TotalGranted(key, calls, outcomes)
            <= policies(key).capacity + Accrued(policies(key), EndTime(calls, t) - t)
               + Slack(Grants(key, calls, outcomes))
               + Renewed(policies(key), EarlyEvictions(limits, policies, s, calls, key))
  {
    hide Run, Level, Good, Accrued, Slack, Renewed;
    GrantedPlusLevel(limits, policies, s, calls, key, t);
    AvailableLevel(policies, s, key, t, t);
    AvailableLevel(policies, Run(limits, policies, s, calls).0, key, EndTime(calls, t), EndTime(calls, t));
  }

  /** The bound without the last term, for every window in which the key is not removed, whatever the ttl. */
  lemma WindowBoundUnremoved(limits: Limits, policies: Policies, s: Store, calls: seq<Call>, key: Key, t: real)
    requires AllPositive(policies) && limits.interval > 0 && Good(policies, s, t) && Monotone(calls, t)
    requires NeverRemoved(limits, policies, s, calls, key)
    ensures var outcomes := Run(limits, policies, s, calls).1;
            |outcomes| == |calls| &&
            TotalGranted(key, calls, outcomes)
            <= policies(key).capacity + Accrued(policies(key), EndTime(calls, t) - t)
               + Slack(Grants(key, calls, outcomes))
  {
    hide Run, Good, Accrued, Slack;
    WindowBound(limits, policies, s, calls, key, t);
    UnremovedIsNotEarly(limits, policies, s, calls, key);
  }

  /** The same for every window, removals included, when the key's bucket refills within the ttl. */
  lemma WindowBoundWithCleanup(limits: Limits, policies: Policies, s: Store, calls: seq<Call>, key: Key, t: real)
    requires AllPositive(policies) && ValidLimits(limits) && RefillsInTime(limits, policies(key))
    requires Good(policies, s, t) && Monotone(calls, t)
    ensures var outcomes := Run(limits, policies, s, calls).1;
            |outcomes| == |calls| &&
            TotalGranted(key, calls, outcomes)
            <= policies(key).capacity + Accrued(policies(key), EndTime(calls, t) - t)
               + Slack(Grants(key, calls, outcomes))
  {
    hide Run, Good, Accrued, Slack, RefillsInTime;
    WindowBound(limits, policies, s, calls, key, t);
    RefilledIsNotEarly(limits, policies, s, calls, key, t);
  }

  // ---- retry_after -----------------------------------------------------------------------------

  lemma CeilBounds(x: real)
    ensures Ceil(x) as real - 1.0 < x <= Ceil(x) as real
  {
  }

  lemma QuotientAccrues(policy: Policy, deficit: real)
    requires Positive(policy)
    ensures Accrued(policy, deficit / policy.rate) == deficit
  {
  }

  /** A denied call's retry_after is positive; after it the deficit has refilled, one second earlier
      it has not. */
  lemma RetryCoversDeficit(policy: Policy, available: real, cost: real)
    requires Positive(policy) && 0.0 <= available && !Decide(policy, available, cost).allowed
    ensures var e := Decide(policy, available, cost);
            && e.remaining == available
            && e.retryAfter.Some? && e.retryAfter.value >= 1
            && available + Accrued(policy, e.retryAfter.value as real) >= cost
            && available + Accrued(policy, e.retryAfter.value as real - 1.0) < cost
  {
    hide Accrued;
    var x := (cost - available) / policy.rate;
    QuotientAccrues(policy, cost - available);
    CeilBounds(x);
    AccruedSum(policy, 0.0, 0.0);
    hide Ceil;
    AccruedMonotone(policy, 0.0, x);
    AccruedMonotone(policy, Ceil(x) as real, x);
    AccruedMonotone(policy, Ceil(x) as real - 1.0, x);
  }

  /** While nothing is granted on a key, its level only refills; an early eviction can only raise it. */
  lemma {:induction false} LevelWithoutGrants(
      limits: Limits, policies: Policies, s: Store, calls: seq<Call>, key: Key, t: real, later: real)
    requires AllPositive(policies) && limits.interval > 0
    requires Good(policies, s, t) && Monotone(calls, t) && EndTime(calls, t) <= later
    requires var outcomes := Run(limits, policies, s, calls).1;
             |outcomes| == |calls| && forall i :: 0 <= i < |calls| ==> !GrantedTo(key, calls[i], outcomes[i])
    ensures var end := Run(limits, policies, s, calls).0;
            && t <= EndTime(calls, t) && Good(policies, end, EndTime(calls, t))
            && Level(policies, end, key, later) >= Level(policies, s, key, later)
            && (EarlyEvictions(limits, policies, s, calls, key) == 0 ==>
                  Level(policies, end, key, later) == Level(policies, s, key, later))
    decreases |calls|
  {
    hide ConsumeStep, Kept, Level, Good, GrantedTo, Accrued, EvictedEarly;
    if calls != [] {
      var call, rest := calls[0], calls[1..];
      assert Positive(policies(call.key));
      var (next, outcome) := ConsumeStep(limits, policies(call.key), s, call);
      var outcomes := Run(limits, policies, s, calls).1;
      assert outcomes[0] == outcome && outcomes[1..] == Run(limits, policies, next, rest).1;
      forall i | 0 <= i < |rest|
        ensures !GrantedTo(key, rest[i], outcomes[1..][i])
      {
        assert !GrantedTo(key, calls[i + 1], outcomes[i + 1]);
      }
      StepRefills(limits, policies, s, call, key, t, later);
      LevelWithoutGrants(limits, policies, next, rest, key, call.now, later);
    }
  }

  lemma StepRefills(limits: Limits, policies: Policies, s: Store, call: Call, key: Key, t: real, later: real)
    requires AllPositive(policies) && limits.interval > 0 && Good(policies, s, t) && t <= call.now
    requires Positive(policies(call.key))
    requires !GrantedTo(key, call, ConsumeStep(limits, policies(call.key), s, call).1)
    ensures var next := ConsumeStep(limits, policies(call.key), s, call).0;
            && Good(policies, next, call.now)
            && (call.now <= later ==> Level(policies, next, key, later) >= Level(policies, s, key, later))
            && (call.now <= later && !EvictedEarly(limits, policies, s, call, key) ==>
                  Level(policies, next, key, later) == Level(policies, s, key, later))
  {
    hide ConsumeStep, Kept, Level, Good, GrantedTo, Accrued, EvictedEarly;
    LevelAround(policies, s, call, key, t);
    StepLevel(limits, policies, s, call, key, t);
    AvailableLevel(policies, s, key, t, call.now);
    GoodLater(policies, s, t, call.now);
    if call.now <= later {
      LevelAdvances(policies, ConsumeStep(limits, policies(call.key), s, call).0, key, call.now, later);
      LevelAdvances(policies, s, key, call.now, later);
    }
  }

  /** A call is denied on a monotone clock, and up to time `now` nothing is granted on its key, whatever
      calls come `between` and whatever their cleanups remove. */
  ghost predicate DeniedUntil(
      limits: Limits, policies: Policies, s: Store, denied: Call, between: seq<Call>, now: real, t: real)
    requires AllPositive(policies) && limits.interval > 0
  {
    && Good(policies, s, t) && t <= denied.now && Positive(policies(denied.key))
    && (var (s1, outcome) := ConsumeStep(limits, policies(denied.key), s, denied);
        var outcomes := Run(limits, policies, s1, between).1;
        && DeniedOutcome(outcome)
        && Monotone(between, denied.now) && EndTime(between, denied.now) <= now && |outcomes| == |between|
        && forall i :: 0 <= i < |between| ==> !GrantedTo(denied.key, between[i], outcomes[i]))
  }

  /** The store after the denied call and the calls between. */
  ghost function AfterDenied(limits: Limits, policies: Policies, s: Store, denied: Call, between: seq<Call>): Store
    requires AllPositive(policies) && limits.interval > 0 && Positive(policies(denied.key))
  {
    Run(limits, policies, ConsumeStep(limits, policies(denied.key), s, denied).0, between).0
  }

  /** The bucket of the denied key was not evicted early since the denial. */
  ghost predicate StaysOrRefills(limits: Limits, policies: Policies, s: Store, denied: Call, between: seq<Call>)
    requires AllPositive(policies) && limits.interval > 0 && Positive(policies(denied.key))
  {
    && !EvictedEarly(limits, policies, s, denied, denied.key)
    && EarlyEvictions(limits, policies, ConsumeStep(limits, policies(denied.key), s, denied).0, between,
                      denied.key) == 0
  }

  /** The level that settles a retry: at least what was left at the denial, refilled since. */
  lemma RetryLevel(
      limits: Limits, policies: Policies, s: Store, denied: Call, between: seq<Call>, now: real, t: real)
    requires AllPositive(policies) && limits.interval > 0 && DeniedUntil(limits, policies, s, denied, between, now, t)
    ensures var policy, available := policies(denied.key), Level(policies, s, denied.key, denied.now);
            var end := AfterDenied(limits, policies, s, denied, between);
            var refilled := Min(policy.capacity, available + Accrued(policy, now - denied.now));
            && 0.0 <= available
            && ConsumeStep(limits, policy, s, denied).1 == Ok(Decide(policy, available, denied.cost))
            && denied.now <= EndTime(between, denied.now) <= now
            && Good(policies, end, EndTime(between, denied.now))
            && Level(policies, end, denied.key, now) >= refilled
            && (StaysOrRefills(limits, policies, s, denied, between) ==>
                  Level(policies, end, denied.key, now) == refilled)
  {
    hide ConsumeStep, Run, Level, Good, Decide, Kept, Accrued, EvictedEarly;
    var policy, key := policies(denied.key), denied.key;
    var s1 := ConsumeStep(limits, policy, s, denied).0;
    AvailableLevel(policies, s, key, t, denied.now);
    StepLevel(limits, policies, s, denied, key, t);
    PositiveCost(policy, s, denied);
    KeptLevels(policies, s, denied, t);
    GoodLater(policies, s, t, denied.now);
    StepRefills(limits, policies, s, denied, key, t, now);
    LevelWithoutGrants(limits, policies, s1, between, key, denied.now, now);
    LevelAdvances(policies, s, key, denied.now, now);
  }

  /** A denied call told to retry after n seconds, in any run with its cleanups: n is at least 1; if its
      cost fits the capacity and nothing is granted on its key meanwhile, whatever other calls intervene,
      a call of the same cost n seconds later or after is granted; and n - 1 seconds later the tokens
      still fall short of the cost unless the bucket was evicted before it had refilled. */
  lemma RetryIsSound(
      limits: Limits, policies: Policies, s: Store, denied: Call, between: seq<Call>, retry: Call, t: real)
    requires AllPositive(policies) && limits.interval > 0
    requires DeniedUntil(limits, policies, s, denied, between, retry.now, t)
    requires retry.key == denied.key && retry.cost == denied.cost <= policies(denied.key).capacity
    ensures var policy, end := policies(denied.key), AfterDenied(limits, policies, s, denied, between);
            var retryAfter := ConsumeStep(limits, policy, s, denied).1.value.retryAfter;
            && retryAfter.Some? && retryAfter.value >= 1
            && (retry.now >= denied.now + retryAfter.value as real ==>
                  GrantedTo(retry.key, retry, ConsumeStep(limits, policy, end, retry).1))
            && (retry.now == denied.now + retryAfter.value as real - 1.0
                && StaysOrRefills(limits, policies, s, denied, between) ==>
                  Level(policies, end, retry.key, retry.now) < retry.cost)
  {
    hide ConsumeStep, Kept, Level, Good, Decide, Accrued, Run, AfterDenied, Monotone, StaysOrRefills;
    var policy, key := policies(denied.key), denied.key;
    StepCost(limits, policy, s, denied);
    RetryLevel(limits, policies, s, denied, between, retry.now, t);
    var available, end := Level(policies, s, key, denied.now), AfterDenied(limits, policies, s, denied, between);
    RetryCoversDeficit(policy, available, denied.cost);
    hide DeniedUntil;
    var n := Decide(policy, available, denied.cost).retryAfter.value as real;
    AccruedMonotone(policy, retry.now - denied.now, n);
    if retry.now >= denied.now + n {
      var level := Level(policies, end, key, retry.now);
      KeptLevels(policies, end, retry, EndTime(between, denied.now));
      StepLevel(limits, policies, end, retry, key, EndTime(between, denied.now));
      Covered(policy, level, retry.cost);
    }
  }

  lemma StepCost(limits: Limits, policy: Policy, s: Store, call: Call)
    requires policy.rate > 0.0 && limits.interval > 0 && ConsumeStep(limits, policy, s, call).1.Ok?
    ensures call.cost > 0.0
  {
  }

  /** A bucket that refills within the ttl stays or refills, whatever the calls between. */
  lemma RefilledStays(limits: Limits, policies: Policies, s: Store, denied: Call, between: seq<Call>, now: real,
                      t: real)
    requires AllPositive(policies) && ValidLimits(limits) && RefillsInTime(limits, policies(denied.key))
    requires DeniedUntil(limits, policies, s, denied, between, now, t)
    ensures StaysOrRefills(limits, policies, s, denied, between)
  {
    hide ConsumeStep, Run, Level, Good, RefillsInTime, EvictedEarly, GrantedTo;
    StepLevel(limits, policies, s, denied, denied.key, t);
    NotEvictedEarly(limits, policies, s, denied, denied.key, t);
    var s1 := ConsumeStep(limits, policies(denied.key), s, denied).0;
    RefilledIsNotEarly(limits, policies, s1, between, denied.key, denied.now);
  }

  lemma PositiveCost(policy: Policy, s: Store, call: Call)
    requires policy.rate > 0.0 && Kept(policy, s, call).1.Ok?
    ensures call.cost > 0.0
  {
  }

  lemma Covered(policy: Policy, available: real, cost: real)
    requires policy.rate > 0.0 && available >= cost
    ensures Decide(policy, available, cost).allowed
  {
  }

  // ---- When cleanup shows ----------------------------------------------------------------------

  /** A time by which an idle bucket may be removed although it has not refilled. */
  lemma TimeToEvict(limits: Limits, policy: Policy) returns (later: real)
    requires Positive(policy) && ValidLimits(limits) && !RefillsInTime(limits, policy)
    ensures limits.ttl < later && Accrued(policy, later) < policy.capacity
  {
    var needed := policy.capacity / policy.rate;
    QuotientAccrues(policy, policy.capacity);
    AccruedMonotone(policy, limits.ttl, needed);
    hide Accrued;
    later := (needed + limits.ttl) / 2.0;
    AccruedMonotone(policy, later, needed);
  }

  function Repeated(call: Call, n: nat): seq<Call> {
    if n == 0 then [] else [call] + Repeated(call, n - 1)
  }

  lemma {:induction false} RunSplit(limits: Limits, policies: Policies, s: Store, a: seq<Call>, b: seq<Call>)
    requires AllPositive(policies) && limits.interval > 0
    ensures var (middle, x) := Run(limits, policies, s, a);
            var (end, y) := Run(limits, policies, middle, b);
            Run(limits, policies, s, a + b) == (end, x + y)
    decreases |a|
  {
    hide ConsumeStep;
    if a == [] {
      assert a + b == b;
      var y := Run(limits, policies, s, b).1;
      assert [] + y == y;
    } else {
      assert Positive(policies(a[0].key));
      var (next, outcome) := ConsumeStep(limits, policies(a[0].key), s, a[0]);
      assert (a + b)[1..] == a[1..] + b;
      RunSplit(limits, policies, next, a[1..], b);
      var (middle, x) := Run(limits, policies, next, a[1..]);
      var y := Run(limits, policies, middle, b).1;
      assert [outcome] + (x + y) == [outcome] + x + y;
    }
  }

  lemma {:induction false} KeptRunSplit(policies: Policies, s: Store, a: seq<Call>, b: seq<Call>)
    requires AllPositive(policies)
    ensures var (middle, x) := KeptRun(policies, s, a);
            var (end, y) := KeptRun(policies, middle, b);
            KeptRun(policies, s, a + b) == (end, x + y)
    decreases |a|
  {
    hide Kept;
    if a == [] {
      assert a + b == b;
      var y := KeptRun(policies, s, b).1;
      assert [] + y == y;
    } else {
      var (next, outcome) := Kept(policies(a[0].key), s, a[0]);
      assert (a + b)[1..] == a[1..] + b;
      KeptRunSplit(policies, next, a[1..], b);
      var (middle, x) := KeptRun(policies, next, a[1..]);
      var y := KeptRun(policies, middle, b).1;
      assert [outcome] + (x + y) == [outcome] + x + y;
    }
  }

  lemma OneCall(limits: Limits, policies: Policies, s: Store, call: Call)
    requires AllPositive(policies) && limits.interval > 0
    ensures Positive(policies(call.key))
    ensures Run(limits, policies, s, [call]).0 == ConsumeStep(limits, policies(call.key), s, call).0
    ensures Run(limits, policies, s, [call]).1 == [Kept(policies(call.key), s, call).1]
    ensures KeptRun(policies, s, [call]) == (Kept(policies(call.key), s, call).0, [Kept(policies(call.key), s, call).1])
  {
    assert Positive(policies(call.key));
    assert [call][1..] == [];
    hide Kept, Cleaned;
  }

  /** The key's bucket is first in the dictionary, empty since time 0. */
  ghost predicate Drained(s: Store, key: Key) {
    s.order != [] && s.order[0] == key && key in s.buckets && s.buckets[key] == Bucket(0.0, 0.0, 0.0)
  }

  /** Spending a whole bucket at time 0 leaves it drained and first, with and without cleanup. */
  lemma FirstCall(limits: Limits, policy: Policy, key: Key)
    requires Positive(policy) && ValidLimits(limits)
    ensures var call := Call(key, policy.capacity, 0.0);
            && Drained(Kept(policy, EMPTY, call).0, key)
            && Drained(ConsumeStep(limits, policy, EMPTY, call).0, key)
            && ConsumeStep(limits, policy, EMPTY, call).0.accesses == 1
  {
    hide Kept, Cleaned;
    SpentFirst(policy, key);
    NothingIdle(limits, Kept(policy, EMPTY, Call(key, policy.capacity, 0.0)).0.(accesses := 1), key);
  }

  lemma SpentFirst(policy: Policy, key: Key)
    requires Positive(policy)
    ensures Kept(policy, EMPTY, Call(key, policy.capacity, 0.0)).1.Ok?
    ensures var s := Kept(policy, EMPTY, Call(key, policy.capacity, 0.0)).0;
            s.order == [key] && s.buckets == map[key := Bucket(0.0, 0.0, 0.0)] && s.accesses == 0
  {
  }

  lemma NothingIdle(limits: Limits, s: Store, key: Key)
    requires ValidLimits(limits) && s.order == [key] && s.buckets == map[key := Bucket(0.0, 0.0, 0.0)]
    ensures Drained(Cleaned(limits, s, 0.0), key) && Cleaned(limits, s, 0.0).accesses == s.accesses
  {
    assert |s.order| <= limits.scan;
    assert Gone(limits, s.buckets, s.order, 0.0) == {};
    assert [key][..0] == [] && Surviving(limits, s.buckets, [], 0.0) == [];
    assert Surviving(limits, s.buckets, s.order, 0.0) == [key];
  }

  /** Another key's call without a cleanup leaves the bucket drained. */
  lemma OtherCallWaits(limits: Limits, policy: Policy, s: Store, key: Key, call: Call)
    requires Positive(policy) && limits.interval > 0 && Drained(s, key) && call.key != key && call.cost > 0.0
    ensures Drained(Kept(policy, s, call).0, key) && Kept(policy, s, call).0.accesses == s.accesses
    ensures Kept(policy, s, call).1.Ok? && (s.accesses + 1) % limits.interval != 0 ==>
              var next := ConsumeStep(limits, policy, s, call).0;
              Drained(next, key) && next.accesses == s.accesses + 1
  {
    hide Decide, Available;
  }

  /** Calls on the other key wait until the next cleanup. */
  lemma {:induction false} OtherCallsWait(
      limits: Limits, policies: Policies, s: Store, key: Key, call: Call, n: nat, t: real)
    requires AllPositive(policies) && limits.interval > 0 && Drained(s, key) && call.key != key && call.cost > 0.0
    requires Good(policies, s, t) && t <= call.now
    requires n > 0 ==> s.accesses + n < limits.interval
    ensures var end := Run(limits, policies, s, Repeated(call, n)).0;
            Drained(end, key) && end.accesses == s.accesses + n && (n > 0 ==> Good(policies, end, call.now))
    decreases n
  {
    hide ConsumeStep, Kept, Good, Drained;
    if n > 0 {
      assert Positive(policies(call.key));
      OtherCallWaits(limits, policies(call.key), s, key, call);
      StepLevel(limits, policies, s, call, key, t);
      KeptLevels(policies, s, call, t);
      Unwrapped(limits, s.accesses + 1);
      OtherCallsWait(limits, policies, ConsumeStep(limits, policies(call.key), s, call).0, key, call, n - 1, call.now);
    }
  }

  lemma Unwrapped(limits: Limits, n: nat)
    requires 0 < n < limits.interval
    ensures n % limits.interval != 0
  {
  }

  lemma {:induction false} KeptCallsWait(policies: Policies, limits: Limits, s: Store, key: Key, call: Call, n: nat)
    requires AllPositive(policies) && limits.interval > 0 && Drained(s, key) && call.key != key && call.cost > 0.0
    ensures Drained(KeptRun(policies, s, Repeated(call, n)).0, key)
    decreases n
  {
    hide Kept, Drained;
    if n > 0 {
      assert Positive(policies(call.key));
      OtherCallWaits(limits, policies(call.key), s, key, call);
      KeptCallsWait(policies, limits, Kept(policies(call.key), s, call).0, key, call, n - 1);
    }
  }

  /** Another key's call whose cleanup reaches the idle bucket removes it. */
  lemma EvictedByOther(limits: Limits, policy: Policy, s: Store, key: Key, call: Call)
    requires Positive(policy) && ValidLimits(limits) && Drained(s, key) && call.key != key && call.cost > 0.0
    requires call.now > limits.ttl && Kept(policy, s, call).1.Ok? && (s.accesses + 1) % limits.interval == 0
    ensures key !in ConsumeStep(limits, policy, s, call).0.buckets
  {
    OtherCallWaits(limits, policy, s, key, call);
    var s1 := Kept(policy, s, call).0;
    hide Kept;
    var window := if |s1.order| <= limits.scan then s1.order else s1.order[..limits.scan];
    assert |window| >= 1 && window[0] == key;
    assert key in Gone(limits, s1.buckets, window, call.now);
  }

  lemma MoreIsSeen(policy: Policy, less: real, more: real, cost: real)
    requires Positive(policy) && 0.0 <= less < more && 0.0 < cost < more
    ensures Decide(policy, less, cost) != Decide(policy, more, cost)
  {
  }

  /** What a call finds: what refilled in a drained bucket, or a full one if there is none. */
  lemma LaterCall(policy: Policy, s: Store, call: Call)
    requires Positive(policy) && 0.0 < call.cost && call.now >= 0.0
    ensures Drained(s, call.key) && Accrued(policy, call.now) <= policy.capacity ==>
              Kept(policy, s, call).1 == Ok(Decide(policy, Accrued(policy, call.now), call.cost))
    ensures call.key !in s.buckets ==> Kept(policy, s, call).1 == Ok(Decide(policy, policy.capacity, call.cost))
  {
    AccruedNonNegative(policy, call.now);
    AccruedSum(policy, 0.0, 0.0);
    hide Accrued, Decide;
  }

  /** How many calls of another key bring the next cleanup after one access. */
  function CallsToCleanup(limits: Limits): nat
    requires limits.interval > 0
  {
    if limits.interval == 1 then 1 else limits.interval - 1
  }

  /** The calls that show a cleanup: spend the key's bucket, let another key's calls bring the cleanup, and
      come back. */
  function Telltale(limits: Limits, policy: Policy, key: Key, other: Key, later: real): seq<Call>
    requires limits.interval > 0
  {
    [Call(key, policy.capacity, 0.0)] + Repeated(Call(other, 1.0, later), CallsToCleanup(limits))
    + [Call(key, policy.capacity / 2.0, later)]
  }

  lemma {:induction false} RepeatedMonotone(call: Call, n: nat, last: seq<Call>, t: real)
    requires t <= call.now && Monotone(last, call.now)
    ensures Monotone(Repeated(call, n) + last, if n == 0 then call.now else t)
    decreases n
  {
    var all := Repeated(call, n) + last;
    if n == 0 {
      assert all == last;
    } else {
      RepeatedMonotone(call, n - 1, last, call.now);
      assert all[1..] == Repeated(call, n - 1) + last;
    }
  }

  /** If some key's bucket needs longer than the time to live to refill, the telltale calls get another
      answer from the store that cleans up. */
  lemma ShortTtlShows(limits: Limits, policies: Policies, key: Key, other: Key) returns (calls: seq<Call>)
    requires AllPositive(policies) && ValidLimits(limits) && key != other && !RefillsInTime(limits, policies(key))
    ensures Monotone(calls, 0.0)
    ensures Run(limits, policies, EMPTY, calls).1 != KeptRun(policies, EMPTY, calls).1
  {
    hide Run, KeptRun, Accrued, RefillsInTime;
    assert Positive(policies(key));
    var later := TimeToEvict(limits, policies(key));
    calls := Telltale(limits, policies(key), key, other, later);
    var first, last := calls[..1], calls[|calls| - 1..];
    var middle := Repeated(Call(other, 1.0, later), CallsToCleanup(limits));
    assert last == [Call(key, policies(key).capacity / 2.0, later)] && last[1..] == [];
    assert calls == first + (middle + last) && calls[1..] == middle + last;
    assert Monotone(last, later);
    RepeatedMonotone(Call(other, 1.0, later), CallsToCleanup(limits), last, 0.0);
    TelltaleDiffers(limits, policies, key, other, later);
  }

  lemma TelltaleDiffers(limits: Limits, policies: Policies, key: Key, other: Key, later: real)
    requires AllPositive(policies) && ValidLimits(limits) && key != other
    requires limits.ttl < later && Accrued(policies(key), later) < policies(key).capacity
    ensures var calls := Telltale(limits, policies(key), key, other, later);
            Run(limits, policies, EMPTY, calls).1 != KeptRun(policies, EMPTY, calls).1
  {
    hide Run, KeptRun, Kept, ConsumeStep, Accrued, Decide, Drained, Repeated;
    var policy := policies(key);
    assert Positive(policy);
    var a, c := Call(key, policy.capacity, 0.0), Call(key, policy.capacity / 2.0, later);
    var b := Repeated(Call(other, 1.0, later), CallsToCleanup(limits));
    BeforeLast(limits, policies, key, other, later);
    var r, k := Run(limits, policies, EMPTY, [a] + b).0, KeptRun(policies, EMPTY, [a] + b).0;
    RunSplit(limits, policies, EMPTY, [a] + b, [c]);
    KeptRunSplit(policies, EMPTY, [a] + b, [c]);
    OneCall(limits, policies, r, c);
    OneCall(limits, policies, k, c);
    LaterCall(policy, r, c);
    LaterCall(policy, k, c);
    AccruedNonNegative(policy, later);
    MoreIsSeen(policy, Accrued(policy, later), policy.capacity, c.cost);
    LastDiffers(Run(limits, policies, EMPTY, [a] + b).1, Kept(policy, r, c).1,
                KeptRun(policies, EMPTY, [a] + b).1, Kept(policy, k, c).1);
  }

  lemma LastDiffers(a: seq<Outcome>, x: Outcome, b: seq<Outcome>, y: Outcome)
    requires x != y
    ensures a + [x] != b + [y]
  {
    if |a| == |b| { assert (a + [x])[|a|] != (b + [y])[|b|]; }
  }

  /** Before the last of the telltale calls the bucket is gone, or drained where nothing is cleaned up. */
  lemma BeforeLast(limits: Limits, policies: Policies, key: Key, other: Key, later: real)
    requires AllPositive(policies) && ValidLimits(limits) && key != other && limits.ttl < later
    ensures var calls := [Call(key, policies(key).capacity, 0.0)]
                         + Repeated(Call(other, 1.0, later), CallsToCleanup(limits));
            key !in Run(limits, policies, EMPTY, calls).0.buckets && Drained(KeptRun(policies, EMPTY, calls).0, key)
  {
    hide Run, KeptRun, Kept, ConsumeStep, Good, Drained;
    var a, b, n := Call(key, policies(key).capacity, 0.0), Call(other, 1.0, later), CallsToCleanup(limits);
    assert Positive(policies(key)) && Positive(policies(other));
    FirstCall(limits, policies(key), key);
    OneCall(limits, policies, EMPTY, a);
    EmptyIsGood(policies);
    StepLevel(limits, policies, EMPTY, a, key, 0.0);
    var r, k := ConsumeStep(limits, policies(key), EMPTY, a).0, Kept(policies(key), EMPTY, a).0;
    RunSplit(limits, policies, EMPTY, [a], Repeated(b, n));
    KeptRunSplit(policies, EMPTY, [a], Repeated(b, n));
    KeptCallsWait(policies, limits, k, key, b, n);
    RepeatedLast(b, n);
    RunSplit(limits, policies, r, Repeated(b, n - 1), [b]);
    OtherCallsWait(limits, policies, r, key, b, n - 1, 0.0);
    var waiting := Run(limits, policies, r, Repeated(b, n - 1)).0;
    assert n == 1 ==> waiting == r by { NoCalls(limits, policies, r, b); }
    OneCall(limits, policies, waiting, b);
    KeptLevels(policies, waiting, b, if n == 1 then 0.0 else later);
    assert (waiting.accesses + 1) % limits.interval == 0;
    EvictedByOther(limits, policies(other), waiting, key, b);
  }

  lemma NoCalls(limits: Limits, policies: Policies, s: Store, call: Call)
    requires AllPositive(policies) && limits.interval > 0
    ensures Run(limits, policies, s, Repeated(call, 0)).0 == s
  {
  }

  lemma {:induction false} RepeatedLast(call: Call, n: nat)
    requires n > 0
    ensures Repeated(call, n) == Repeated(call, n - 1) + [call]
  {
    if n > 1 { RepeatedLast(call, n - 1); }
  }

  lemma EmptyIsGood(policies: Policies)
    ensures Good(policies, EMPTY, 0.0)
  {
  }

  /** Cleanup never shows. */
  ghost predicate CleanupNeverShows(limits: Limits, policies: Policies)
    requires AllPositive(policies) && limits.interval > 0
  {
    forall calls :: Monotone(calls, 0.0) ==> Run(limits, policies, EMPTY, calls).1 == KeptRun(policies, EMPTY, calls).1
  }

  /** For every cleanup interval and scan width: a store with cleanup answers every run on a monotone clock
      as one without, if and only if every bucket refills within the time to live. */
  lemma CleanupNeverShowsIff(limits: Limits, policies: Policies)
    requires AllPositive(policies) && ValidLimits(limits)
    ensures CleanupNeverShows(limits, policies) <==> RefillsWithinTtl(limits, policies)
  {
    hide RefillsInTime, Run, KeptRun, Good;
    if RefillsWithinTtl(limits, policies) {
      EmptyIsGood(policies);
      forall calls | Monotone(calls, 0.0)
        ensures Run(limits, policies, EMPTY, calls).1 == KeptRun(policies, EMPTY, calls).1
      {
        assert Agree(policies, EMPTY, EMPTY, 0.0);
        CleanupInvisible(limits, policies, EMPTY, EMPTY, calls, 0.0);
      }
    } else {
      var key :| !RefillsInTime(limits, policies(key));
      var calls := ShortTtlShows(limits, policies, key, if key == "" then "x" else "");
    }
  }
}
