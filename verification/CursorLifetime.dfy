/**
 The life of a stored cursor, said by its entry alone: when an insert is refused and which entries make room for it,
 how long a new cursor can be leased, and by which query.
 */
module CursorLifetime {
  import opened Wrappers
  import opened Bytes
  import opened Collections
  import opened QueryState
  import opened CursorStore
  import CursorProtocol

  // ---------- who is alive, who is free, who is older ----------

  /** In the store, and leased or not yet expired. */
  predicate Alive(s: StoreState, t: Token, now: nat) {
    t in s.entries && (s.entries[t].leaseId.Some? || now < s.entries[t].expiresAt)
  }

  predicate Free(s: StoreState, t: Token) {
    t in s.entries && s.entries[t].leaseId.None?
  }

  function AliveTokens(s: StoreState, now: nat): set<Token> {
    set t | t in s.entries && Alive(s, t, now)
  }

  function LeasedTokens(s: StoreState): set<Token> {
    set t | t in s.entries && s.entries[t].leaseId.Some?
  }

  /** `a` stands in the queue before `b`. */
  ghost predicate Older(order: seq<Token>, a: Token, b: Token) {
    exists p, q :: 0 <= p < q < |order| && order[p] == a && order[q] == b
  }

  /** Only free entries go, the others are unchanged and keep their age; among the free ones the oldest go first. */
  ghost predicate OldestGone(s: StoreState, next: StoreState) {
    && (forall t :: t in next.entries ==> t in s.entries && next.entries[t] == s.entries[t])
    && (forall t :: t in s.entries && !Free(s, t) ==> t in next.entries)
    && (forall a, b :: Free(s, a) && Free(s, b) && Older(s.order, a, b) && a in next.entries ==> b in next.entries)
  }

  /** Free entries that stay keep their age. */
  ghost predicate AgeKept(s: StoreState, next: StoreState) {
    forall a, b :: Free(next, a) && Free(next, b) && Older(s.order, a, b) ==> Older(next.order, a, b)
  }

  lemma NothingGone(s: StoreState)
    ensures OldestGone(s, s) && AgeKept(s, s)
  {
  }

  lemma GoneTwice(s: StoreState, middle: StoreState, next: StoreState)
    requires OldestGone(s, middle) && AgeKept(s, middle) && OldestGone(middle, next) && AgeKept(middle, next)
    ensures OldestGone(s, next) && AgeKept(s, next)
  {
    hide Older;
    assert forall t :: Free(next, t) ==> Free(middle, t) && Free(s, t);
    forall a, b | Free(s, a) && Free(s, b) && Older(s.order, a, b) && a in next.entries
      ensures b in next.entries
    {
      assert Free(middle, a) && Free(middle, b);
    }
  }

  lemma {:induction false} RetainKeepsAge(order: seq<Token>, keys: set<Token>, a: Token, b: Token)
    requires Older(order, a, b) && a in keys && b in keys
    ensures Older(Retain(order, keys), a, b)
  {
    var p, q :| 0 <= p < q < |order| && order[p] == a && order[q] == b;
    var rest := Retain(order[1..], keys);
    RetainMembers(order[1..], keys);
    if p == 0 {
      assert order[1..][q - 1] == b;
      var k :| 0 <= k < |rest| && rest[k] == b;
      assert Retain(order, keys)[0] == a && Retain(order, keys)[1 + k] == b;
    } else {
      assert order[1..][p - 1] == a && order[1..][q - 1] == b;
      RetainKeepsAge(order[1..], keys, a, b);
      var i, j :| 0 <= i < j < |rest| && rest[i] == a && rest[j] == b;
      var skip := |Retain(order, keys)| - |rest|;
      assert Retain(order, keys)[skip + i] == a && Retain(order, keys)[skip + j] == b;
    }
  }

  lemma PurgeKeepsAge(s: StoreState, now: nat)
    requires WellFormed(s)
    ensures var purged := Purged(s, now);
            && WellFormed(purged) && purged.entries.Keys == AliveTokens(s, now)
            && (forall t :: t in purged.entries ==> purged.entries[t] == s.entries[t])
            && AgeKept(s, purged)
  {
    hide Older;
    PurgeKeepsForm(s, now);
    var purged := Purged(s, now);
    forall a, b | Free(purged, a) && Free(purged, b) && Older(s.order, a, b)
      ensures Older(purged.order, a, b)
    {
      RetainKeepsAge(s.order, purged.entries.Keys, a, b);
    }
  }

  // ---------- making room ----------

  /** Behind the gone token the queue stays as it is. */
  lemma RotationKeepsAge(front: seq<Token>, gone: Token, others: seq<Token>, a: Token, b: Token)
    requires Older(front + [gone] + others, a, b) && a !in front && a != gone
    ensures b in others && Older(others + front, a, b)
  {
    var order, k := front + [gone] + others, |front| + 1;
    var p, q :| 0 <= p < q < |order| && order[p] == a && order[q] == b;
    assert forall i :: 0 <= i < |order| ==> order[i] == if i < k - 1 then front[i] else if i == k - 1 then gone
                                                       else others[i - k];
    assert (others + front)[p - k] == a && (others + front)[q - k] == b;
  }

  lemma EvictsOldest(s: StoreState)
    requires WellFormed(s) && Evicted(s).1
    ensures var next := Evicted(s).0;
            && WellFormed(next) && |next.entries| == |s.entries| - 1 && OldestGone(s, next) && AgeKept(s, next)
  {
    hide WellFormed, Evicted, OldestGone, AgeKept, EvictsFirstFree;
    EvictKeepsForm(s);
    var front, gone, others := EvictionMeans(s);
    FreeStandBehind(s, Evicted(s).0, front, gone, others);
    OneGone(s, Evicted(s).0, front, gone, others);
  }

  /** Of the free entries only the first in the queue goes, and the others keep their age. */
  lemma FreeStandBehind(s: StoreState, next: StoreState, front: seq<Token>, gone: Token, others: seq<Token>)
    requires WellFormed(s) && EvictsFirstFree(s, next, front, gone, others)
    ensures OldestGone(s, next) && AgeKept(s, next)
  {
    hide Older, WellFormed;
    forall a, b | Free(s, a) && Free(s, b) && Older(s.order, a, b) && a in next.entries
      ensures b in next.entries && Older(next.order, a, b)
    {
      assert a !in front;
      RotationKeepsAge(front, gone, others, a, b);
      OthersStay(s, front, gone, others, b);
    }
  }

  lemma OthersStay(s: StoreState, front: seq<Token>, gone: Token, others: seq<Token>, b: Token)
    requires WellFormed(s) && s.order == front + [gone] + others && b in others
    ensures b in s.entries && b != gone
  {
    var q :| 0 <= q < |others| && others[q] == b;
    assert s.order[|front| + 1 + q] == b && s.order[|front|] == gone;
  }

  lemma OneGone(s: StoreState, next: StoreState, front: seq<Token>, gone: Token, others: seq<Token>)
    requires WellFormed(s) && EvictsFirstFree(s, next, front, gone, others)
    ensures |next.entries| == |s.entries| - 1
  {
    assert s.order[|front|] == gone;
    assert next.entries.Keys == s.entries.Keys - {gone};
  }

  lemma {:induction false} RoomTakesOldest(s: StoreState, capacity: nat)
    requires WellFormed(s) && capacity > 0
    ensures var (room, ok) := MadeRoom(s, capacity);
            && WellFormed(room) && OldestGone(s, room) && AgeKept(s, room)
            && (ok <==> |LeasedTokens(s)| < capacity)
            && (ok ==> |room.entries| == Min(|s.entries|, capacity - 1))
    decreases |s.entries|
  {
    hide Evicted, WellFormed, OldestGone, AgeKept;
    LeasedAmongAll(s);
    if |s.entries| < capacity {
      NothingGone(s);
    } else {
      var (next, ok) := Evicted(s);
      if ok {
        EvictsOldest(s);
        RoomTakesOldest(next, capacity);
        SameLeased(s, next);
        GoneTwice(s, next, MadeRoom(next, capacity).0);
      } else {
        NothingGone(s);
        EvictKeepsForm(s);
        assert LeasedTokens(s) == s.entries.Keys;
      }
    }
  }

  lemma LeasedAmongAll(s: StoreState)
    ensures |LeasedTokens(s)| <= |s.entries|
  {
    FewerMembers(LeasedTokens(s), s.entries.Keys);
  }

  lemma SameLeased(s: StoreState, next: StoreState)
    requires OldestGone(s, next)
    ensures LeasedTokens(next) == LeasedTokens(s)
  {
    hide Older;
  }

  // ---------- inserting ----------

  /** Why an insert is refused: only when leases alone fill the store is there no room. */
  lemma InsertAnswers(capacity: nat, ttl: nat, s: StoreState, data: SearchCursorData, now: nat, token: Token)
    requires WellFormed(s) && capacity > 0
    ensures InsertSection(capacity, ttl, s, data, now, token).1
            == if !data.Valid() then Err(data.Refusal())
               else if now + ttl >= U64_LIMIT then Err(ExpirationOverflow)
               else if |LeasedTokens(s)| >= capacity then Err(CapacityBusy)
               else Ok(token)
    ensures data.query.Valid() && data.after.lineNumber >= 1 && !data.usage.Valid()
       <==> InsertSection(capacity, ttl, s, data, now, token).1 == Err(CumulativeLimit)
  {
    hide QueryBinding.Valid, CumulativeQueryUsage.Valid, SearchCursorData.CandidatesValid, WellFormed, Purged, MadeRoom,
         OldestGone, AgeKept;
    PurgeKeepsAge(s, now);
    RoomTakesOldest(Purged(s, now), capacity);
    assert LeasedTokens(Purged(s, now)) == LeasedTokens(s);
  }

  /**
   What an insert leaves: the new entry, free and with the whole time to live before it, and of the entries that are
   leased or unexpired as many as there is room for, unchanged; the oldest free ones go first.
   */
  lemma InsertStores(capacity: nat, ttl: nat, s: StoreState, data: SearchCursorData, now: nat, token: Token)
    requires WellFormed(s) && capacity > 0 && token !in s.entries
    requires InsertSection(capacity, ttl, s, data, now, token).1 == Ok(token)
    ensures var after := InsertSection(capacity, ttl, s, data, now, token).0;
            && token in after.entries && after.entries[token] == StoredCursor(data, now + ttl, None)
            && |after.entries| == Min(|AliveTokens(s, now)| + 1, capacity)
            && (forall t :: t in after.entries && t != token ==>
                   Alive(s, t, now) && after.entries[t] == s.entries[t])
            && (forall t :: t in s.entries && s.entries[t].leaseId.Some? ==> t in after.entries)
            && (forall a, b ::
                  (Alive(s, a, now) && Alive(s, b, now) && Free(s, a) && Free(s, b) && Older(s.order, a, b)) ==>
                    (a in after.entries ==> b in after.entries))
  {
    hide SearchCursorData.Valid, WellFormed, Purged, MadeRoom, Older;
    InsertAnswers(capacity, ttl, s, data, now, token);
    PurgeKeepsAge(s, now);
    var purged := Purged(s, now);
    RoomTakesOldest(purged, capacity);
    assert |purged.entries.Keys| == |purged.entries|;
  }

  /** The new entry is the youngest, and the others keep their age. */
  lemma InsertIsYoungest(capacity: nat, ttl: nat, s: StoreState, data: SearchCursorData, now: nat, token: Token,
                         a: Token, b: Token)
    requires WellFormed(s) && capacity > 0 && token !in s.entries
    requires InsertSection(capacity, ttl, s, data, now, token).1 == Ok(token)
    requires var after := InsertSection(capacity, ttl, s, data, now, token).0;
             Free(after, a) && Free(after, b) && a != b
    requires Older(s.order, a, b) || b == token
    ensures Older(InsertSection(capacity, ttl, s, data, now, token).0.order, a, b)
  {
    hide SearchCursorData.Valid, Purged, MadeRoom, Older;
    InsertAnswers(capacity, ttl, s, data, now, token);
    PurgeKeepsAge(s, now);
    RoomTakesOldest(Purged(s, now), capacity);
    var room := MadeRoom(Purged(s, now), capacity).0;
    if b == token {
      LastIsYoungest(room.order, a, token);
    } else {
      OlderInside(s.order, a, b);
      assert a != token;
      assert Older(room.order, a, b);
      LongerKeepsAge(room.order, token, a, b);
    }
  }

  lemma LastIsYoungest(order: seq<Token>, a: Token, last: Token)
    requires a in order
    ensures Older(order + [last], a, last)
  {
    var p :| 0 <= p < |order| && order[p] == a;
    assert (order + [last])[p] == a && (order + [last])[|order|] == last;
  }

  lemma LongerKeepsAge(order: seq<Token>, last: Token, a: Token, b: Token)
    requires Older(order, a, b)
    ensures Older(order + [last], a, b)
  {
    var p, q :| 0 <= p < q < |order| && order[p] == a && order[q] == b;
    assert (order + [last])[p] == a && (order + [last])[q] == b;
  }

  lemma OlderInside(order: seq<Token>, a: Token, b: Token)
    requires Older(order, a, b)
    ensures a in order && b in order
  {
  }

  /** With room for one more nothing that is leased or unexpired goes. */
  lemma InsertWithRoom(capacity: nat, ttl: nat, s: StoreState, data: SearchCursorData, now: nat, token: Token)
    requires WellFormed(s) && capacity > |AliveTokens(s, now)| && token !in s.entries
    requires InsertSection(capacity, ttl, s, data, now, token).1 == Ok(token)
    ensures InsertSection(capacity, ttl, s, data, now, token).0.entries.Keys == AliveTokens(s, now) + {token}
  {
    hide InsertSection, WellFormed, Older;
    InsertStores(capacity, ttl, s, data, now, token);
    var keys, alive := InsertSection(capacity, ttl, s, data, now, token).0.entries.Keys, AliveTokens(s, now) + {token};
    assert |alive| == |AliveTokens(s, now)| + 1;
    assert keys <= alive;
    SameSize(keys, alive);
  }

  lemma SameSize<T>(a: set<T>, b: set<T>)
    requires a <= b && |a| == |b|
    ensures a == b
  {
    assert |b - a| == |b| - |a| by { assert a + (b - a) == b; }
  }

  // ---------- beginning ----------

  /**
   The answer to a caller who wants to continue with a token, by the token's entry alone. Whoever asks with another
   query than the stored one is told so, also when the cursor is leased.
   */
  lemma BeginAnswers(s: StoreState, token: Token, expected: QueryBinding, now: nat, leaseId: LeaseId)
    requires WellFormed(s)
    ensures BeginSection(s, token, expected, now, leaseId).1
            == if !expected.Valid() then Err(InvalidData)
               else if !ValidToken(token, CURSOR_PREFIX) || !Alive(s, token, now) then Err(UnknownOrExpired)
               else if expected != s.entries[token].data.query then Err(QueryMismatch)
               else if s.entries[token].leaseId.Some? then Err(Busy)
               else Ok(s.entries[token].data)
  {
    hide QueryBinding.Valid, ValidToken, Purged;
    PurgeKeepsForm(s, now);
  }

  /** A successful lease is noted in the entry; all other entries stay unless they are free and expired. */
  lemma BeginLeases(s: StoreState, token: Token, expected: QueryBinding, now: nat, leaseId: LeaseId)
    requires WellFormed(s) && BeginSection(s, token, expected, now, leaseId).1.Ok?
    ensures var after := BeginSection(s, token, expected, now, leaseId).0;
            && after.entries.Keys == AliveTokens(s, now) && token in AliveTokens(s, now)
            && (forall t :: t in after.entries ==>
                  after.entries[t] == if t == token then s.entries[t].(leaseId := Some(leaseId)) else s.entries[t])
  {
    hide QueryBinding.Valid, ValidToken, Purged;
    PurgeKeepsForm(s, now);
  }

  /**
   A new cursor can be leased with its own query until its time to live has passed since the insert, and by no
   other query.
   */
  lemma NewCursorIsLeasable(capacity: nat, ttl: nat, s: StoreState, data: SearchCursorData, now: nat, token: Token,
                            expected: QueryBinding, later: nat, leaseId: LeaseId)
    requires WellFormed(s) && capacity > 0 && token !in s.entries && ValidToken(token, CURSOR_PREFIX)
    requires InsertSection(capacity, ttl, s, data, now, token).1 == Ok(token) && expected.Valid()
    ensures var after := InsertSection(capacity, ttl, s, data, now, token).0;
            BeginSection(after, token, expected, later, leaseId).1
            == if later >= now + ttl then Err(UnknownOrExpired)
               else if expected != data.query then Err(QueryMismatch)
               else Ok(data)
  {
    hide InsertSection, BeginSection, WellFormed, QueryBinding.Valid, ValidToken, Older;
    InsertStores(capacity, ttl, s, data, now, token);
    InsertKeepsStore(capacity, ttl, s, data, now, token);
    BeginAnswers(InsertSection(capacity, ttl, s, data, now, token).0, token, expected, later, leaseId);
  }

  lemma InsertKeepsStore(capacity: nat, ttl: nat, s: StoreState, data: SearchCursorData, now: nat, token: Token)
    requires WellFormed(s) && capacity > 0 && token !in s.entries
    ensures WellFormed(InsertSection(capacity, ttl, s, data, now, token).0)
  {
    hide SearchCursorData.Valid, WellFormed, Purged, MadeRoom, OldestGone, AgeKept, InsertedNew;
    PurgeKeepsAge(s, now);
    var (room, ok) := MadeRoom(Purged(s, now), capacity);
    RoomTakesOldest(Purged(s, now), capacity);
    if ok && Expiration(now, ttl).Some? {
      assert token !in room.entries by { StaysOut(Purged(s, now), room, token); }
      InsertKeepsForm(room, token, data, Expiration(now, ttl).value);
    }
  }

  lemma StaysOut(s: StoreState, next: StoreState, token: Token)
    requires OldestGone(s, next) && token !in s.entries
    ensures token !in next.entries
  {
    hide Older;
  }

  // ---------- committing and dropping ----------

  /** The answer to a commit, by the entry of the token alone: the caller must hold the lease of this very state. */
  lemma FinishAnswers(ttl: nat, s: StoreState, token: Token, leaseId: LeaseId, current: SearchCursorData,
                      next: Option<SearchCursorData>, now: nat, newToken: Token)
    requires WellFormed(s)
    ensures FinishSection(ttl, s, token, leaseId, current, next, now, newToken).1
            == if next.Some? && !current.ContinuedBy(next.value) then Err(InvalidContinuation)
               else if next.Some? && now + ttl >= U64_LIMIT then Err(ExpirationOverflow)
               else if token in s.entries && s.entries[token].leaseId == Some(leaseId)
                       && s.entries[token].data == current then
                 Ok(if next.Some? then Some(newToken) else None)
               else Err(LeaseLost)
  {
    hide SearchCursorData.ContinuedBy, Purged, Removed, InsertedNew;
    PurgeKeepsForm(s, now);
  }

  /** Only the holder of the lease frees an entry, and an entry that has expired is removed then. */
  lemma ReleaseAnswers(s: StoreState, token: Token, leaseId: LeaseId, now: nat)
    ensures var entries := ReleaseSection(s, token, leaseId, now).entries;
            if token !in s.entries || s.entries[token].leaseId != Some(leaseId) then entries == s.entries
            else if s.entries[token].expiresAt <= now then entries == s.entries - {token}
            else entries == s.entries[token := s.entries[token].(leaseId := None)]
  {
    hide Retain;
  }

  /**
   The cursor of the next page can be leased with the same query until its time to live has passed since the commit;
   the page's own token is unknown from then on.
   */
  lemma NextCursorIsLeasable(config: CursorProtocol.Config, s: CursorProtocol.System, leaseId: LeaseId,
                             next: SearchCursorData, now: nat, newToken: Token, expected: QueryBinding, later: nat,
                             newLease: LeaseId)
    requires CursorProtocol.Inv(config, s) && leaseId in s.leases && newToken !in s.store.entries
    requires CursorProtocol.CommitResult(config, s, leaseId, Some(next), now, newToken).1.Ok?
    requires expected.Valid() && ValidToken(newToken, CURSOR_PREFIX)
    ensures var after := CursorProtocol.CommitResult(config, s, leaseId, Some(next), now, newToken).0;
            && BeginSection(after, newToken, expected, later, newLease).1
               == (if later >= now + config.ttl then Err(UnknownOrExpired)
                   else if expected != s.leases[leaseId].data.query then Err(QueryMismatch)
                   else Ok(next))
            && BeginSection(after, s.leases[leaseId].token, expected, later, newLease).1 == Err(UnknownOrExpired)
  {
    hide CursorProtocol.CommitResult, BeginSection, WellFormed, QueryBinding.Valid, ValidToken, SearchCursorData.Valid,
         CursorProtocol.Inv;
    CursorProtocol.CommitReplaces(config, s, leaseId, Some(next), now, newToken);
    CursorProtocol.LeaseIsNeverLost(config, s, leaseId, Some(next), now, newToken);
    CursorProtocol.CommitKeepsForm(config, s, leaseId, Some(next), now, newToken);
    var after := CursorProtocol.CommitResult(config, s, leaseId, Some(next), now, newToken).0;
    BeginAnswers(after, newToken, expected, later, newLease);
    BeginAnswers(after, s.leases[leaseId].token, expected, later, newLease);
  }
}
