/**
 The match reference store over whole runs: whatever the clock readings, it holds the end of everything ever
 inserted; when readings never go back, a token resolves exactly until it expires or is crowded out.
 */
module MatchHistory {
  import opened Wrappers
  import opened Bytes
  import opened Collections
  import opened QueryState
  import opened MatchStore
  import CursorStore

  datatype Config = Config(capacity: nat, ttl: nat)

  /** One critical section, with the clock reading taken before the lock. */
  datatype Op =
    | InsertOp(data: MatchReferenceData, now: nat, token: Token)
    | ResolveOp(token: Token, now: nat)
    | LenOp(now: nat)

  /** The store, everything ever inserted, and the latest reading a purge has used. */
  datatype Log = Log(items: seq<Item>, history: seq<Item>, purgedAt: nat)

  const START_LOG: Log := Log([], [], 0)

  function Next(config: Config, log: Log, op: Op): Log
    requires config.capacity > 0
  {
    match op
    case InsertOp(data, now, token) =>
      var (items, r) := InsertResult(config.capacity, config.ttl, log.items, data, now, token);
      if r.Ok? then Log(items, log.history + [Item(token, data, now + config.ttl)], now) else log.(items := items)
    case ResolveOp(token, now) =>
      Log(ResolveResult(log.items, token, now).0, log.history,
          if CursorStore.ValidToken(token, MATCH_REFERENCE_PREFIX) then now else log.purgedAt)
    case LenOp(now) => Log(FrontPurged(log.items, now), log.history, now)
  }

  /** The states a run goes through. */
  ghost predicate Run(config: Config, logs: seq<Log>, ops: seq<Op>)
    requires config.capacity > 0
  {
    && |logs| == |ops| + 1 && logs[0] == START_LOG
    && forall i :: 0 <= i < |ops| ==> logs[i + 1] == Next(config, logs[i], ops[i])
  }

  // ---------- the end of the history ----------

  lemma PurgedIsEnd(items: seq<Item>, now: nat)
    ensures EndOf(FrontPurged(items, now), items)
  {
    PurgeIsSuffix(items, now);
  }

  lemma {:induction false} NewestIsEnd(items: seq<Item>, count: nat)
    ensures EndOf(Newest(items, count), items) && |Newest(items, count)| == Min(|items|, count)
  {
    if |items| <= count {
    } else {
      NewestIsEnd(items[1..], count);
      EndOfEnd(Newest(items, count), items[1..], items);
    }
  }

  /** Two ends of the same sequence with the same length are the same. */
  lemma SameEnd(a: seq<Item>, b: seq<Item>, s: seq<Item>)
    requires EndOf(a, s) && EndOf(b, s) && |a| == |b|
    ensures a == b
  {
  }

  lemma StepKeepsEnd(config: Config, log: Log, op: Op)
    requires config.capacity > 0 && EndOf(log.items, log.history)
    ensures EndOf(Next(config, log, op).items, Next(config, log, op).history)
  {
    hide EndOf, FrontPurged, Newest, MatchReferenceData.Valid, CursorStore.ValidToken;
    var items, now := log.items, op.now;
    PurgedIsEnd(items, now);
    EndOfEnd(FrontPurged(items, now), items, log.history);
    if op.InsertOp? {
      var purged := FrontPurged(items, now);
      NewestIsEnd(purged, config.capacity - 1);
      EndOfEnd(Newest(purged, config.capacity - 1), purged, log.history);
      EndSnoc(Newest(purged, config.capacity - 1), log.history, Item(op.token, op.data, now + config.ttl));
    }
  }

  /** In every state of every run, with clock readings in any order, the store holds the end of the history. */
  lemma {:induction false} AlwaysEndOfHistory(config: Config, logs: seq<Log>, ops: seq<Op>, i: nat)
    requires config.capacity > 0 && Run(config, logs, ops) && i < |logs|
    ensures EndOf(logs[i].items, logs[i].history)
  {
    hide Next;
    if i == 0 {
    } else {
      AlwaysEndOfHistory(config, logs, ops, i - 1);
      StepKeepsEnd(config, logs[i - 1], ops[i - 1]);
      assert logs[i - 1 + 1] == Next(config, logs[i - 1], ops[i - 1]);
    }
  }

  // ---------- clocks that never go back ----------

  /** Every purge uses a reading at least as late as the one before. */
  ghost predicate ClockRises(logs: seq<Log>, ops: seq<Op>)
    requires |logs| == |ops| + 1
  {
    forall i :: 0 <= i < |ops| ==> logs[i].purgedAt <= ops[i].now
  }

  /** What the store means: of the history's unexpired entries the newest ones, as many as fit. */
  ghost predicate Means(config: Config, log: Log) {
    && log.items == Newest(FrontPurged(log.history, log.purgedAt), config.capacity)
    && RisingExpiry(log.history)
    && (log.history != [] ==> log.history[|log.history| - 1].expiresAt <= log.purgedAt + config.ttl)
  }

  /** A later purge of what an earlier purge left is the later purge. */
  lemma {:induction false} PurgeAgain(s: seq<Item>, earlier: nat, later: nat)
    requires earlier <= later
    ensures FrontPurged(FrontPurged(s, earlier), later) == FrontPurged(s, later)
  {
    if s == [] || !Expired(s[0], earlier) {
    } else {
      PurgeAgain(s[1..], earlier, later);
    }
  }

  lemma TailRises(s: seq<Item>)
    requires s != [] && RisingExpiry(s)
    ensures RisingExpiry(s[1..])
  {
    assert forall i :: 0 <= i < |s[1..]| ==> s[1..][i] == s[i + 1];
  }

  /** Purging commutes with keeping the newest, when expiry times rise. */
  lemma {:induction false} PurgeNewest(s: seq<Item>, count: nat, now: nat)
    requires RisingExpiry(s)
    ensures FrontPurged(Newest(s, count), now) == Newest(FrontPurged(s, now), count)
  {
    hide RisingExpiry;
    if |s| <= count {
      PurgedIsEnd(s, now);
      NewestIsEnd(FrontPurged(s, now), count);
    } else {
      TailRises(s);
      PurgeNewest(s[1..], count, now);
      if !Expired(s[0], now) {
        NothingLaterExpired(s, now);
      }
    }
  }

  /** Nothing behind an unexpired entry is expired. */
  lemma NothingLaterExpired(s: seq<Item>, now: nat)
    requires s != [] && RisingExpiry(s) && !Expired(s[0], now)
    ensures FrontPurged(s[1..], now) == s[1..]
  {
    if |s| > 1 {
      assert s[1..][0] == s[1];
    }
  }

  lemma {:induction false} PurgeSnoc(s: seq<Item>, x: Item, now: nat)
    requires !Expired(x, now)
    ensures FrontPurged(s + [x], now) == FrontPurged(s, now) + [x]
  {
    if s == [] {
      assert s + [x] == [x];
    } else if Expired(s[0], now) {
      PurgeSnoc(s[1..], x, now);
      assert (s + [x])[1..] == s[1..] + [x];
    }
  }

  lemma {:induction false} NewestSnoc(s: seq<Item>, x: Item, count: nat)
    requires count > 0
    ensures Newest(Newest(s, count), count - 1) + [x] == Newest(s + [x], count)
  {
    hide Newest, EndOf;
    NewestIsEnd(s, count);
    NewestIsEnd(Newest(s, count), count - 1);
    EndOfEnd(Newest(Newest(s, count), count - 1), Newest(s, count), s);
    EndSnoc(Newest(Newest(s, count), count - 1), s, x);
    NewestIsEnd(s + [x], count);
    SameEnd(Newest(Newest(s, count), count - 1) + [x], Newest(s + [x], count), s + [x]);
  }

  lemma PurgeKeepsMeaning(config: Config, log: Log, now: nat)
    requires Means(config, log) && log.purgedAt <= now
    ensures FrontPurged(log.items, now) == Newest(FrontPurged(log.history, now), config.capacity)
  {
    hide Newest, FrontPurged;
    PurgedRises(log.history, log.purgedAt);
    PurgeNewest(FrontPurged(log.history, log.purgedAt), config.capacity, now);
    PurgeAgain(log.history, log.purgedAt, now);
  }

  lemma {:induction false} PurgedRises(s: seq<Item>, now: nat)
    requires RisingExpiry(s)
    ensures RisingExpiry(FrontPurged(s, now))
  {
    hide RisingExpiry;
    if s == [] || !Expired(s[0], now) {
    } else {
      TailRises(s);
      PurgedRises(s[1..], now);
    }
  }

  lemma RisesSnoc(s: seq<Item>, x: Item)
    requires RisingExpiry(s) && (s != [] ==> s[|s| - 1].expiresAt <= x.expiresAt)
    ensures RisingExpiry(s + [x])
  {
  }

  lemma StepKeepsMeaning(config: Config, log: Log, op: Op)
    requires config.capacity > 0 && config.ttl > 0 && Means(config, log) && log.purgedAt <= op.now
    ensures Means(config, Next(config, log, op))
  {
    hide Newest, FrontPurged, RisingExpiry, MatchReferenceData.Valid, CursorStore.ValidToken;
    PurgeKeepsMeaning(config, log, op.now);
    if op.InsertOp? && InsertResult(config.capacity, config.ttl, log.items, op.data, op.now, op.token).1.Ok? {
      var x := Item(op.token, op.data, op.now + config.ttl);
      PurgeSnoc(log.history, x, op.now);
      NewestSnoc(FrontPurged(log.history, op.now), x, config.capacity);
      RisesSnoc(log.history, x);
    }
  }

  lemma {:induction false} AlwaysMeans(config: Config, logs: seq<Log>, ops: seq<Op>, i: nat)
    requires config.capacity > 0 && config.ttl > 0 && Run(config, logs, ops) && ClockRises(logs, ops) && i < |logs|
    ensures Means(config, logs[i])
  {
    hide Next, Means;
    if i == 0 {
      StartMeans(config);
    } else {
      AlwaysMeans(config, logs, ops, i - 1);
      StepKeepsMeaning(config, logs[i - 1], ops[i - 1]);
      assert logs[i - 1 + 1] == Next(config, logs[i - 1], ops[i - 1]);
    }
  }

  lemma StartMeans(config: Config)
    ensures Means(config, START_LOG)
  {
  }

  /**
   Entry `k` of the history can still be resolved at `now`: not expired, and fewer than `capacity` inserts
   followed it.
   */
  predicate Alive(config: Config, history: seq<Item>, k: nat, now: nat) {
    k < |history| && !Expired(history[k], now) && |history| - 1 - k < config.capacity
  }

  /** The entries kept are exactly those that are alive. */
  lemma KeptAreAlive(config: Config, history: seq<Item>, now: nat, k: nat)
    requires RisingExpiry(history) && k < |history|
    ensures var kept := Newest(FrontPurged(history, now), config.capacity);
            |kept| <= |history| && (k >= |history| - |kept| <==> Alive(config, history, k, now))
  {
    hide Newest, FrontPurged;
    var unexpired := FrontPurged(history, now);
    PurgeIsSuffix(history, now);
    NewestIsEnd(unexpired, config.capacity);
    if k >= |history| - |unexpired| {
      assert unexpired[0] == history[|history| - |unexpired|];
    }
  }

  /** Purging at the front is the full purge in every state of a run whose clock readings never go back. */
  lemma PurgeIsExact(config: Config, logs: seq<Log>, ops: seq<Op>, i: nat, now: nat)
    requires config.capacity > 0 && config.ttl > 0 && Run(config, logs, ops) && ClockRises(logs, ops) && i < |logs|
    ensures FrontPurged(logs[i].items, now) == FullyPurged(logs[i].items, now)
  {
    hide Next, Newest, RisingExpiry, AlwaysExact, FrontPurged, FullyPurged;
    AlwaysMeans(config, logs, ops, i);
    PurgedRises(logs[i].history, logs[i].purgedAt);
    NewestRises(FrontPurged(logs[i].history, logs[i].purgedAt), config.capacity);
    ExactAt(logs[i].items, now);
  }

  lemma ExactAt(items: seq<Item>, now: nat)
    requires RisingExpiry(items)
    ensures FrontPurged(items, now) == FullyPurged(items, now)
  {
    hide FrontPurged, FullyPurged, RisingExpiry;
    FrontPurgeAlwaysExact(items);
  }

  lemma {:induction false} NewestRises(s: seq<Item>, count: nat)
    requires RisingExpiry(s)
    ensures RisingExpiry(Newest(s, count))
  {
    hide RisingExpiry;
    if |s| <= count {
    } else {
      TailRises(s);
      NewestRises(s[1..], count);
    }
  }

  /** Entry `k` is alive and was inserted under `token`. */
  predicate AliveUnder(config: Config, history: seq<Item>, k: nat, token: Token, now: nat) {
    Alive(config, history, k, now) && history[k].token == token
  }

  lemma AliveIsFound(config: Config, history: seq<Item>, k: nat, token: Token, now: nat)
    requires RisingExpiry(history) && DistinctTokens(history) && AliveUnder(config, history, k, token, now)
    ensures k < |history| && Find(Newest(FrontPurged(history, now), config.capacity), token) == Some(history[k].data)
  {
    hide RisingExpiry, DistinctTokens, Newest, FrontPurged, EndOf;
    var kept := Newest(FrontPurged(history, now), config.capacity);
    KeptIsEnd(config, history, now);
    DistinctEnd(kept, history);
    KeptAreAlive(config, history, now, k);
    FoundAt(kept, history, k, token);
  }

  lemma FoundIsAlive(config: Config, history: seq<Item>, token: Token, now: nat) returns (k: nat)
    requires RisingExpiry(history) && Find(Newest(FrontPurged(history, now), config.capacity), token).Some?
    ensures AliveUnder(config, history, k, token, now)
  {
    hide RisingExpiry, Newest, FrontPurged;
    var kept := Newest(FrontPurged(history, now), config.capacity);
    KeptIsEnd(config, history, now);
    FindFirst(kept, token);
    var j :| 0 <= j < |kept| && kept[j].token == token;
    k := |history| - |kept| + j;
    assert kept[j] == history[k];
    KeptAreAlive(config, history, now, k);
  }

  lemma KeptIsEnd(config: Config, history: seq<Item>, now: nat)
    ensures EndOf(Newest(FrontPurged(history, now), config.capacity), history)
  {
    hide EndOf;
    PurgedIsEnd(history, now);
    NewestIsEnd(FrontPurged(history, now), config.capacity);
    EndOfEnd(Newest(FrontPurged(history, now), config.capacity), FrontPurged(history, now), history);
  }

  /**
   With clock readings that never go back and tokens that are never reused, resolving gives back exactly what was
   inserted under the token, if and only if the entry is unexpired and fewer than `capacity` inserts followed it.
   */
  lemma ResolvesExactly(config: Config, logs: seq<Log>, ops: seq<Op>, i: nat, token: Token, now: nat)
    requires config.capacity > 0 && config.ttl > 0 && Run(config, logs, ops) && ClockRises(logs, ops) && i < |logs|
    requires logs[i].purgedAt <= now && DistinctTokens(logs[i].history)
    requires CursorStore.ValidToken(token, MATCH_REFERENCE_PREFIX)
    ensures var history, r := logs[i].history, ResolveResult(logs[i].items, token, now).1;
            && (r.Ok? <==> exists k: nat :: AliveUnder(config, history, k, token, now))
            && forall k: nat :: AliveUnder(config, history, k, token, now) ==> k < |history| && r == Ok(history[k].data)
  {
    hide Next, Run, ClockRises, Newest, RisingExpiry, FrontPurged, AliveUnder, DistinctTokens, CursorStore.ValidToken;
    AlwaysMeans(config, logs, ops, i);
    PurgeKeepsMeaning(config, logs[i], now);
    var history := logs[i].history;
    forall k: nat | AliveUnder(config, history, k, token, now)
      ensures k < |history| && Find(FrontPurged(logs[i].items, now), token) == Some(history[k].data)
    {
      AliveIsFound(config, history, k, token, now);
    }
    if Find(FrontPurged(logs[i].items, now), token).Some? {
      var k := FoundIsAlive(config, history, token, now);
    }
  }

  /** Only invalid data and the range of the clock refuse an insert: there is always room. */
  lemma InsertAnswers(config: Config, items: seq<Item>, data: MatchReferenceData, now: nat, token: Token)
    requires config.capacity > 0
    ensures InsertResult(config.capacity, config.ttl, items, data, now, token).1
            == if !data.Valid() then Err(data.Refusal())
               else if now + config.ttl >= U64_LIMIT then Err(ExpirationOverflow)
               else Ok(token)
    ensures data.Formed() && data.matchByteOffset + |data.keyword| >= U64_LIMIT
       <==> InsertResult(config.capacity, config.ttl, items, data, now, token).1 == Err(CounterOverflow)
  {
    hide MatchReferenceData.Formed, FrontPurged, Newest;
  }

  lemma FoundAt(kept: seq<Item>, history: seq<Item>, k: nat, token: Token)
    requires EndOf(kept, history) && |history| - |kept| <= k < |history| && history[k].token == token
             && DistinctTokens(kept)
    ensures Find(kept, token) == Some(history[k].data)
  {
    hide DistinctTokens;
    FindFirst(kept, token);
    assert kept[k - (|history| - |kept|)] == history[k];
  }

  lemma DistinctEnd(kept: seq<Item>, history: seq<Item>)
    requires EndOf(kept, history) && DistinctTokens(history)
    ensures DistinctTokens(kept)
  {
    assert forall i :: 0 <= i < |kept| ==> kept[i] == history[|history| - |kept| + i];
  }

  // ---------- clocks read before the lock ----------

  const TOKEN_A: Token := "mref_0000000000000000000000000000000a"
  const TOKEN_B: Token := "mref_0000000000000000000000000000000b"

  function SomeReference(): (data: MatchReferenceData)
    ensures data.Valid()
  {
    assert [97 as Byte][1..] == [];
    MatchReferenceData("s", "f", [[97]], FileIdentity(0, 0), 1, 1, 0, 0, [97], true)
  }

  /**
   Two inserts that lock in the opposite order of their clock readings, then an earlier-expiring token is resolved
   late.
   */
  function LateLock(): seq<Op> {
    [InsertOp(SomeReference(), 10, TOKEN_A), InsertOp(SomeReference(), 5, TOKEN_B)]
  }

  lemma LateInserts(a: Item, b: Item)
    requires a == Item(TOKEN_A, SomeReference(), 11) && b == Item(TOKEN_B, SomeReference(), 6)
    ensures Next(Config(2, 1), START_LOG, LateLock()[0]) == Log([a], [a], 10)
    ensures Next(Config(2, 1), Log([a], [a], 10), LateLock()[1]) == Log([a, b], [a, b], 5)
  {
    hide MatchReferenceData.Valid;
    assert FrontPurged([a], 5) == [a] && Newest([a], 1) == [a];
  }

  lemma LatePurges(a: Item, b: Item)
    requires a == Item(TOKEN_A, SomeReference(), 11) && b == Item(TOKEN_B, SomeReference(), 6)
    ensures FrontPurged([a, b], 8) == [a, b] && FullyPurged([a, b], 8) == [a]
    ensures Find([a, b], TOKEN_B) == Some(SomeReference())
  {
    hide MatchReferenceData.Valid;
    assert [a, b][1..] == [b] && [b][1..] == [];
    assert FullyPurged([b], 8) == FullyPurged([], 8) == [];
    assert TOKEN_A[36] != TOKEN_B[36];
  }

  /**
   Readings are taken before the lock, so they may go back; then the front purge is not the full purge, and a
   token resolves after it has expired.
   */
  lemma ExpiredTokenResolves()
    ensures var config, ops := Config(2, 1), LateLock();
            var first := Next(config, START_LOG, ops[0]);
            var second := Next(config, first, ops[1]);
            && Run(config, [START_LOG, first, second], ops)
            && second.items == second.history && |second.items| == 2
            && Expired(second.items[1], 8)
            && FrontPurged(second.items, 8) != FullyPurged(second.items, 8)
            && ResolveResult(second.items, TOKEN_B, 8).1 == Ok(SomeReference())
  {
    hide MatchReferenceData.Valid, Next, FrontPurged, FullyPurged, Newest, Find;
    var config, ops, data := Config(2, 1), LateLock(), SomeReference();
    var a, b := Item(TOKEN_A, data, 11), Item(TOKEN_B, data, 6);
    LateInserts(a, b);
    LatePurges(a, b);
    var logs := [START_LOG, Log([a], [a], 10), Log([a, b], [a, b], 5)];
    assert logs[0 + 1] == Next(config, logs[0], ops[0]) && logs[1 + 1] == Next(config, logs[1], ops[1]);
    assert CursorStore.ValidToken(TOKEN_B, MATCH_REFERENCE_PREFIX);
  }
}
