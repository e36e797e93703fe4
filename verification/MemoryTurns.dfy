/** The turns of one conversation and their eviction.

    A session is characterised by its log: every turn stored since the session was created.  What is
    kept is always the longest end of the log that fits the three caps. */
module MemoryTurns {
  type SessionId = nat

  datatype Settings = Settings(
    maximumSessions: nat, maximumTurns: nat, maximumCharacters: nat, maximumReferences: nat, ttl: int)

  /** The bounds the settings class puts on its fields. */
  predicate InBounds(settings: Settings) {
    settings.maximumSessions >= 1 && settings.maximumTurns >= 1 && settings.maximumCharacters >= 1
    && settings.maximumReferences >= 1 && settings.ttl >= 1
  }

  /** `policy` stands for the role, permissions and policy fingerprint. */
  datatype Ownership = Ownership(session: SessionId, user: nat, policy: string)

  /** `details` stands for the fields of a reference that have no bound of their own. */
  datatype Reference = Reference(
    title: string, sourceFile: string, section: seq<string>, department: string, version: string, details: string)

  /** `details` stands for the fields of a turn that the store only compares. */
  datatype Update = Update(
    session: SessionId, user: nat, request: nat, userMessage: string, assistantMessage: string,
    references: seq<Reference>, warnings: seq<string>, details: string)

  datatype Turn = Turn(sequence: nat, update: Update)

  // ---- The bounds of stored values -------------------------------------------------------------

  const LONGEST_USER_MESSAGE := 4_000
  const LONGEST_ASSISTANT_MESSAGE := 8_000
  const LONGEST_WARNING := 500

  predicate AllWithin(texts: seq<string>, limit: nat) {
    forall i :: 0 <= i < |texts| ==> |texts[i]| <= limit
  }

  /** What the turn model accepts; building a turn outside these bounds raises. */
  predicate TurnBounds(update: Update) {
    && 1 <= |update.userMessage| <= LONGEST_USER_MESSAGE
    && 1 <= |update.assistantMessage| <= LONGEST_ASSISTANT_MESSAGE
    && AllWithin(update.warnings, LONGEST_WARNING)
  }

  /** What the reference model accepts. */
  predicate ReferenceBounds(reference: Reference) {
    && 1 <= |reference.title| <= 500 && 1 <= |reference.sourceFile| <= 2_048
    && AllWithin(reference.section, 500)
    && 1 <= |reference.department| <= 200 && 1 <= |reference.version| <= 100
  }

  // ---- Eviction of turns -----------------------------------------------------------------------

  function Characters(turns: seq<Turn>): nat {
    if turns == [] then 0
    else |turns[0].update.userMessage| + |turns[0].update.assistantMessage| + Characters(turns[1..])
  }

  function References(turns: seq<Turn>): nat {
    if turns == [] then 0 else |turns[0].update.references| + References(turns[1..])
  }

  predicate Fits(settings: Settings, turns: seq<Turn>) {
    && |turns| <= settings.maximumTurns
    && Characters(turns) <= settings.maximumCharacters
    && References(turns) <= settings.maximumReferences
  }

  /** `_evict_turns`: drop the oldest turn until the rest fits. */
  function Evict(settings: Settings, turns: seq<Turn>): (kept: seq<Turn>)
    ensures |kept| <= |turns|
    decreases |turns|
  {
    if turns == [] || Fits(settings, turns) then turns else Evict(settings, turns[1..])
  }

  method EvictTurns(settings: Settings, turns: seq<Turn>) returns (kept: seq<Turn>, evicted: nat)
    ensures kept == Evict(settings, turns) && evicted + |kept| == |turns|
  {
    hide Fits;
    kept, evicted := turns, 0;
    while kept != []
      invariant Evict(settings, kept) == Evict(settings, turns) && evicted + |kept| == |turns|
      decreases |kept|
    {
      if Fits(settings, kept) { break; }
      kept := kept[1..];
      evicted := evicted + 1;
    }
  }

  // ---- Logs ------------------------------------------------------------------------------------

  ghost predicate IsSuffix(turns: seq<Turn>, log: seq<Turn>) {
    |turns| <= |log| && turns == log[|log| - |turns|..]
  }

  /** `turns` is the longest suffix of `log` that fits the caps. */
  ghost predicate LongestFitting(settings: Settings, log: seq<Turn>, turns: seq<Turn>) {
    && IsSuffix(turns, log)
    && Fits(settings, turns)
    && forall s :: IsSuffix(s, log) && Fits(settings, s) ==> |s| <= |turns|
  }

  /** The turns of a log are numbered 1, 2, 3, ... */
  ghost predicate Numbered(log: seq<Turn>) {
    forall i :: 0 <= i < |log| ==> log[i].sequence == i + 1
  }

  lemma {:induction false} CountsSplit(a: seq<Turn>, b: seq<Turn>)
    ensures Characters(a + b) == Characters(a) + Characters(b)
    ensures References(a + b) == References(a) + References(b)
  {
    if a == [] {
      assert a + b == b;
    } else {
      assert (a + b)[1..] == a[1..] + b;
      CountsSplit(a[1..], b);
    }
  }

  /** A part of a fitting run of turns fits. */
  lemma PartFits(settings: Settings, a: seq<Turn>, b: seq<Turn>)
    requires Fits(settings, a + b)
    ensures Fits(settings, a) && Fits(settings, b)
  {
    CountsSplit(a, b);
  }

  lemma SuffixOfTail(s: seq<Turn>, turns: seq<Turn>)
    requires turns != []
    ensures IsSuffix(s, turns[1..]) <==> IsSuffix(s, turns) && s != turns
  {
    assert turns[0..] == turns;
    if |s| < |turns| {
      assert turns[|turns| - |s|..] == turns[1..][|turns[1..]| - |s|..];
    }
  }

  lemma SuffixOfSuffix(a: seq<Turn>, b: seq<Turn>, c: seq<Turn>)
    requires IsSuffix(b, c)
    ensures IsSuffix(a, b) ==> IsSuffix(a, c)
    ensures IsSuffix(a, c) && |a| <= |b| ==> IsSuffix(a, b)
  {
    if |a| <= |b| {
      assert b[|b| - |a|..] == c[|c| - |a|..];
    }
  }

  lemma SuffixExtends(s: seq<Turn>, log: seq<Turn>, t: Turn)
    requires IsSuffix(s, log)
    ensures IsSuffix(s + [t], log + [t])
  {
    assert log == log[..|log| - |s|] + s;
    assert log + [t] == log[..|log| - |s|] + (s + [t]);
  }

  lemma SuffixWithLast(s: seq<Turn>, log: seq<Turn>, t: Turn)
    requires s != [] && IsSuffix(s, log + [t])
    ensures s == s[..|s| - 1] + [t] && IsSuffix(s[..|s| - 1], log)
  {
    var n := |log| + 1 - |s|;
    assert s == log[n..] + [t];
    assert s[..|s| - 1] == log[n..];
  }

  lemma {:induction false} EvictShape(settings: Settings, turns: seq<Turn>)
    ensures LongestFitting(settings, turns, Evict(settings, turns))
    decreases |turns|
  {
    if turns != [] && !Fits(settings, turns) {
      EvictShape(settings, turns[1..]);
      hide Fits, IsSuffix;
      var kept := Evict(settings, turns[1..]);
      SuffixOfTail(kept, turns);
      forall s | IsSuffix(s, turns) && Fits(settings, s)
        ensures |s| <= |kept|
      {
        SuffixOfTail(s, turns);
      }
    }
  }

  /** Evicting from the kept turns is as good as evicting from the whole log. */
  lemma EvictFromLog(settings: Settings, log: seq<Turn>, turns: seq<Turn>, t: Turn)
    requires LongestFitting(settings, log, turns)
    ensures LongestFitting(settings, log + [t], Evict(settings, turns + [t]))
  {
    hide Evict, Fits;
    EvictShape(settings, turns + [t]);
    var longer, kept := log + [t], Evict(settings, turns + [t]);
    SuffixExtends(turns, log, t);
    hide IsSuffix;
    SuffixOfSuffix(kept, turns + [t], longer);
    forall s | IsSuffix(s, longer) && Fits(settings, s)
      ensures |s| <= |kept|
    {
      if s != [] {
        SuffixWithLast(s, log, t);
        PartFits(settings, s[..|s| - 1], [t]);
        assert |s| <= |turns + [t]|;
        SuffixOfSuffix(s, turns + [t], longer);
      }
    }
  }

  /** A newly stored turn survives its own eviction pass exactly when it fits the caps by itself. */
  lemma NewTurnSurvives(settings: Settings, turns: seq<Turn>, t: Turn)
    ensures var kept := Evict(settings, turns + [t]);
            (kept != [] && kept[|kept| - 1] == t) <==> Fits(settings, [t])
    ensures Evict(settings, turns + [t]) != [] <==> Fits(settings, [t])
  {
    var all := turns + [t];
    EvictShape(settings, all);
    hide Evict;
    var kept := Evict(settings, all);
    if Fits(settings, [t]) {
      assert IsSuffix([t], all);
      assert |kept| >= 1;
    }
    if kept != [] {
      assert kept[|kept| - 1] == t;
      assert kept == kept[..|kept| - 1] + [t];
      PartFits(settings, kept[..|kept| - 1], [t]);
    }
  }

  lemma SingleTurnFits(settings: Settings, t: Turn)
    requires InBounds(settings)
    ensures Fits(settings, [t]) <==>
            |t.update.userMessage| + |t.update.assistantMessage| <= settings.maximumCharacters
            && |t.update.references| <= settings.maximumReferences
  {
    assert [t][1..] == [];
    assert Characters([t]) == |t.update.userMessage| + |t.update.assistantMessage| + Characters([t][1..]);
    assert References([t]) == |t.update.references| + References([t][1..]);
  }

  /** What is kept is within all three caps, and one more turn of the log would break one of them. */
  lemma CapsHold(settings: Settings, log: seq<Turn>, turns: seq<Turn>)
    requires LongestFitting(settings, log, turns) && InBounds(settings)
    ensures |turns| <= settings.maximumTurns
    ensures Characters(turns) <= settings.maximumCharacters && References(turns) <= settings.maximumReferences
    ensures |turns| < |log| ==>
              var longer := log[|log| - |turns| - 1..];
              || |longer| > settings.maximumTurns
              || Characters(longer) > settings.maximumCharacters || References(longer) > settings.maximumReferences
  {
    hide Characters, References;
    if |turns| < |log| {
      var longer := log[|log| - |turns| - 1..];
      assert IsSuffix(longer, log);
    }
  }
}
