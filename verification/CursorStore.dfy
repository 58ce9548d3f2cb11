/**
 The cursor store: one map of entries, one queue in insertion order, and critical sections that purge,
 evict, lease, commit and release. Every section is first a function on states; the class carries it out.
 */
module CursorStore {
  import opened Wrappers
  import opened Bytes
  import opened Collections
  import opened QueryState

  type Token = string
  type LeaseId = nat

  const CURSOR_PREFIX: string := "cur_"
  const TOKEN_HEX_LENGTH: nat := 32

  predicate HexDigit(c: char) {
    '0' <= c <= '9' || 'a' <= c <= 'f' || 'A' <= c <= 'F'
  }

  predicate ValidToken(token: Token, prefix: string) {
    && |token| == |prefix| + TOKEN_HEX_LENGTH
    && prefix <= token
    && forall i :: |prefix| <= i < |token| ==> HexDigit(token[i])
  }

  datatype StoredCursor = StoredCursor(data: SearchCursorData, expiresAt: nat, leaseId: Option<LeaseId>)

  datatype StoreState = StoreState(entries: map<Token, StoredCursor>, order: seq<Token>)

  const EMPTY: StoreState := StoreState(map[], [])

  // ---------- the queue ----------

  /** The queue lists the keys, each once. */
  ghost predicate WellFormed(s: StoreState) {
    NoDuplicates(s.order) && forall t :: t in s.order <==> t in s.entries
  }

  /** `VecDeque::retain` for tokens of `keys`. */
  function Retain(order: seq<Token>, keys: set<Token>): seq<Token> {
    if order == [] then [] else (if order[0] in keys then [order[0]] else []) + Retain(order[1..], keys)
  }

  lemma {:induction false} RetainMembers(order: seq<Token>, keys: set<Token>)
    ensures forall t :: t in Retain(order, keys) <==> t in order && t in keys
    ensures NoDuplicates(order) ==> NoDuplicates(Retain(order, keys))
  {
    if order == [] {
    } else {
      RetainMembers(order[1..], keys);
      assert order == [order[0]] + order[1..];
      var rest := Retain(order[1..], keys);
      if NoDuplicates(order) {
        assert order[0] !in order[1..];
        assert forall j :: 0 <= j < |rest| ==> rest[j] in order[1..];
      }
    }
  }

  lemma KeysAndOrder(s: StoreState)
    requires WellFormed(s)
    ensures |s.order| == |s.entries|
  {
    SeqCardinality(s.order);
    assert (set t | t in s.order) == s.entries.Keys;
  }

  // ---------- purge, evict, insert, remove ----------

  predicate Expired(entry: StoredCursor, now: nat) {
    entry.leaseId.None? && entry.expiresAt <= now
  }

  /** Drops the entries that are expired and not leased. */
  function Purged(s: StoreState, now: nat): StoreState {
    var entries := map t | t in s.entries && !Expired(s.entries[t], now) :: s.entries[t];
    StoreState(entries, Retain(s.order, entries.Keys))
  }

  /** Purging takes the expired entries out of the map, and then keeps the rest of the queue. */
  lemma PurgedParts(s: StoreState, now: nat, expired: set<Token>)
    requires forall t :: t in expired <==> t in s.entries && s.entries[t].leaseId.None? && s.entries[t].expiresAt <= now
    ensures Purged(s, now) == StoreState(s.entries - expired, Retain(s.order, (s.entries - expired).Keys))
  {
    hide Retain;
    assert Purged(s, now).entries == s.entries - expired;
  }

  predicate Leased(s: StoreState, t: Token) {
    t in s.entries && s.entries[t].leaseId.Some?
  }

  /** Position of the first token in the queue that is not leased, or the queue's length. */
  function FirstUnleased(s: StoreState, order: seq<Token>): (i: nat)
    ensures i <= |order|
    ensures forall j :: 0 <= j < i ==> Leased(s, order[j])
    ensures i < |order| ==> !Leased(s, order[i])
  {
    if order == [] || !Leased(s, order[0]) then 0 else 1 + FirstUnleased(s, order[1..])
  }

  /** Evicting takes the oldest unleased entry and leaves a rotation of the other tokens. */
  function Evicted(s: StoreState): (StoreState, bool) {
    var i := FirstUnleased(s, s.order);
    if i == |s.order| then (s, false)
    else (StoreState(s.entries - {s.order[i]}, s.order[i + 1..] + s.order[..i]), true)
  }

  function InsertedNew(s: StoreState, token: Token, data: SearchCursorData, expiresAt: nat): StoreState {
    StoreState(s.entries[token := StoredCursor(data, expiresAt, None)], s.order + [token])
  }

  function Removed(s: StoreState, token: Token): StoreState {
    StoreState(s.entries - {token}, Retain(s.order, s.entries.Keys - {token}))
  }

  lemma PurgeKeepsForm(s: StoreState, now: nat)
    requires WellFormed(s)
    ensures WellFormed(Purged(s, now))
    ensures forall t :: t in Purged(s, now).entries <==> t in s.entries && !Expired(s.entries[t], now)
    ensures forall t :: t in Purged(s, now).entries ==> Purged(s, now).entries[t] == s.entries[t]
    ensures |Purged(s, now).entries| <= |s.entries|
  {
    var p := Purged(s, now);
    RetainMembers(s.order, p.entries.Keys);
    assert p.entries.Keys <= s.entries.Keys;
    FewerMembers(p.entries.Keys, s.entries.Keys);
  }

  /** Leased tokens at the front of the queue go behind the others, and the first free one behind them goes. */
  ghost predicate EvictsFirstFree(s: StoreState, next: StoreState, front: seq<Token>, gone: Token, others: seq<Token>) {
    && s.order == front + [gone] + others && !Leased(s, gone)
    && (forall t :: t in front ==> Leased(s, t))
    && next.order == others + front && next.entries == s.entries - {gone}
  }

  /** Eviction fails exactly when everything is leased, and then changes nothing. */
  lemma EvictKeepsForm(s: StoreState)
    requires WellFormed(s)
    ensures var (next, ok) := Evicted(s);
            && WellFormed(next)
            && (ok <==> exists t :: t in s.entries && !Leased(s, t))
            && (!ok ==> next == s)
            && (ok ==> exists t :: t in s.entries && !Leased(s, t) && next.entries == s.entries - {t}
                                   && |next.entries| == |s.entries| - 1)
  {
    var i := FirstUnleased(s, s.order);
    if i < |s.order| {
      var t := s.order[i];
      var (next, _) := Evicted(s);
      assert t in s.entries;
      Rotation(s.order, i);
      assert next.entries.Keys == s.entries.Keys - {t};
    } else {
      assert forall t :: t in s.entries ==> t in s.order;
    }
  }

  /** What an eviction takes, and how it leaves the queue. */
  lemma EvictionMeans(s: StoreState) returns (front: seq<Token>, gone: Token, others: seq<Token>)
    requires Evicted(s).1
    ensures EvictsFirstFree(s, Evicted(s).0, front, gone, others)
  {
    var i := FirstUnleased(s, s.order);
    front, gone, others := s.order[..i], s.order[i], s.order[i + 1..];
  }

  lemma Rotation(order: seq<Token>, i: nat)
    requires i < |order| && NoDuplicates(order)
    ensures var rest := order[i + 1..] + order[..i];
            && NoDuplicates(rest)
            && forall t :: t in rest <==> t in order && t != order[i]
  {
    var rest := order[i + 1..] + order[..i];
    assert order == order[..i] + [order[i]] + order[i + 1..];
    forall t | t in order && t != order[i]
      ensures t in rest
    {
      var k :| 0 <= k < |order| && order[k] == t;
      if k < i {
        assert order[..i][k] == t;
      } else {
        assert order[i + 1..][k - i - 1] == t;
      }
    }
  }

  lemma InsertKeepsForm(s: StoreState, token: Token, data: SearchCursorData, expiresAt: nat)
    requires WellFormed(s) && token !in s.entries
    ensures WellFormed(InsertedNew(s, token, data, expiresAt))
    ensures |InsertedNew(s, token, data, expiresAt).entries| == |s.entries| + 1
  {
    assert token !in s.order;
  }

  lemma RemoveKeepsForm(s: StoreState, token: Token)
    requires WellFormed(s)
    ensures WellFormed(Removed(s, token))
    ensures token in s.entries ==> |Removed(s, token).entries| == |s.entries| - 1
  {
    RetainMembers(s.order, s.entries.Keys - {token});
    assert Removed(s, token).entries.Keys == s.entries.Keys - {token};
  }

  // ---------- the critical sections ----------

  /** `expiration`: instants are bounded. */
  function Expiration(now: nat, ttl: nat): Option<nat> {
    if now + ttl < U64_LIMIT then Some(now + ttl) else None
  }

  /** Evicts until there is room for one more. */
  function MadeRoom(s: StoreState, capacity: nat): (StoreState, bool)
    decreases |s.entries|
  {
    if |s.entries| < capacity then (s, true)
    else
      var (next, ok) := Evicted(s);
      if ok && |next.entries| < |s.entries| then MadeRoom(next, capacity) else (s, false)
  }

  function InsertSection(capacity: nat, ttl: nat, s: StoreState, data: SearchCursorData, now: nat, token: Token)
    : (StoreState, Result<Token, QueryStateError>)
  {
    if !data.Valid() then (s, Err(data.Refusal()))
    else if Expiration(now, ttl).None? then (s, Err(ExpirationOverflow))
    else
      var (room, ok) := MadeRoom(Purged(s, now), capacity);
      if !ok then (room, Err(CapacityBusy))
      else (InsertedNew(room, token, data, Expiration(now, ttl).value), Ok(token))
  }

  function BeginSection(s: StoreState, token: Token, expected: QueryBinding, now: nat, leaseId: LeaseId)
    : (StoreState, Result<SearchCursorData, QueryStateError>)
  {
    if !expected.Valid() then (s, Err(InvalidData))
    else if !ValidToken(token, CURSOR_PREFIX) then (s, Err(UnknownOrExpired))
    else
      var purged := Purged(s, now);
      if token !in purged.entries then (purged, Err(UnknownOrExpired))
      else
        var entry := purged.entries[token];
        if entry.data.query != expected then (purged, Err(QueryMismatch))
        else if entry.leaseId.Some? then (purged, Err(Busy))
        else (purged.(entries := purged.entries[token := entry.(leaseId := Some(leaseId))]), Ok(entry.data))
  }

  function LenSection(s: StoreState, now: nat): (StoreState, nat) {
    (Purged(s, now), |Purged(s, now).entries|)
  }

  function FinishSection(ttl: nat, s: StoreState, token: Token, leaseId: LeaseId, current: SearchCursorData,
                         next: Option<SearchCursorData>, now: nat, newToken: Token)
    : (StoreState, Result<Option<Token>, QueryStateError>)
  {
    if next.Some? && !current.ContinuedBy(next.value) then (s, Err(InvalidContinuation))
    else if next.Some? && Expiration(now, ttl).None? then (s, Err(ExpirationOverflow))
    else
      var purged := Purged(s, now);
      if token !in purged.entries || purged.entries[token].leaseId != Some(leaseId)
          || purged.entries[token].data != current
      then (purged, Err(LeaseLost))
      else
        var removed := Removed(purged, token);
        match next
        case None => (removed, Ok(None))
        case Some(data) => (InsertedNew(removed, newToken, data, Expiration(now, ttl).value), Ok(Some(newToken)))
  }

  function ReleaseSection(s: StoreState, token: Token, leaseId: LeaseId, now: nat): StoreState {
    if token in s.entries && s.entries[token].leaseId == Some(leaseId) then
      var free := s.(entries := s.entries[token := s.entries[token].(leaseId := None)]);
      if s.entries[token].expiresAt <= now then Removed(free, token) else free
    else s
  }

  // ---------- the store ----------

  class SearchCursorStore {
    const capacity: nat
    const ttl: nat
    var entries: map<Token, StoredCursor>
    var order: seq<Token>

    function State(): StoreState
      reads this
    {
      StoreState(entries, order)
    }

    ghost predicate Valid()
      reads this
    {
      capacity > 0 && ttl > 0 && WellFormed(State()) && |entries| <= capacity
    }

    constructor (capacity: nat, ttl: nat)
      requires capacity > 0 && ttl > 0
      ensures Valid() && State() == EMPTY && this.capacity == capacity && this.ttl == ttl
    {
      this.capacity := capacity;
      this.ttl := ttl;
      this.entries := map[];
      this.order := [];
    }

    method PurgeExpired(now: nat)
      requires WellFormed(State())
      modifies this
      ensures State() == Purged(old(State()), now) && WellFormed(State())
    {
      hide WellFormed, Purged;
      PurgeKeepsForm(State(), now);
      var expired := set t | t in entries && entries[t].leaseId.None? && entries[t].expiresAt <= now;
      PurgedParts(State(), now, expired);
      entries := entries - expired;
      order := Retain(order, entries.Keys);
    }

    /** Rotates leased tokens to the back until an unleased one can be dropped. */
    method EvictOldestUnleased() returns (ok: bool)
      requires WellFormed(State())
      modifies this
      ensures (State(), ok) == Evicted(old(State())) && WellFormed(State())
    {
      hide Evicted, Rotated, WellFormed;
      EvictKeepsForm(State());
      ghost var start := State();
      ghost var front: seq<Token> := [];
      ghost var rest := order;
      NothingRotated(start);
      var queue := order;
      for k := 0 to |order|
        invariant State() == start && |front| == k
        invariant Rotated(start, front, rest, queue)
      {
        QueueTurn(start, front, rest, queue);
        var token := queue[0];
        queue := queue[1..];
        if token in entries && entries[token].leaseId.Some? {
          queue := queue + [token];
          front := front + [token];
          rest := rest[1..];
        } else if token in entries {
          entries, order := entries - {token}, queue;
          return true;
        } else {
          assert false;
        }
      }
      NothingToEvict(start, front, rest, queue);
      order := queue;
      return false;
    }

    method InsertNew(token: Token, data: SearchCursorData, expiresAt: nat)
      requires WellFormed(State()) && token !in entries
      modifies this
      ensures State() == InsertedNew(old(State()), token, data, expiresAt) && WellFormed(State())
    {
      InsertKeepsForm(State(), token, data, expiresAt);
      order := order + [token];
      entries := entries[token := StoredCursor(data, expiresAt, None)];
    }

    method Remove(token: Token)
      requires WellFormed(State())
      modifies this
      ensures State() == Removed(old(State()), token) && WellFormed(State())
    {
      RemoveKeepsForm(State(), token);
      var keys := entries.Keys - {token};
      entries := entries - {token};
      order := Retain(order, keys);
    }

    /** `insert`: one critical section. */
    method Insert(data: SearchCursorData, now: nat, token: Token) returns (r: Result<Token, QueryStateError>)
      requires Valid() && token !in entries
      modifies this
      ensures (State(), r) == InsertSection(capacity, ttl, old(State()), data, now, token)
      ensures Valid()
    {
      hide Evicted, WellFormed, Purged, SearchCursorData.Valid;
      if !data.Valid() {
        return Err(data.Refusal());
      }
      var expiresAt := Expiration(now, ttl);
      if expiresAt.None? {
        return Err(ExpirationOverflow);
      }
      PurgeKeepsForm(State(), now);
      PurgeExpired(now);
      ghost var purged := State();
      while |entries| >= capacity
        invariant WellFormed(State()) && |entries| <= capacity && token !in entries
        invariant MadeRoom(purged, capacity) == MadeRoom(State(), capacity)
        decreases |entries|
      {
        EvictKeepsForm(State());
        var ok := EvictOldestUnleased();
        if !ok {
          return Err(CapacityBusy);
        }
      }
      InsertNew(token, data, expiresAt.value);
      KeysAndOrder(State());
      return Ok(token);
    }

    /** The critical section of `begin`; the lease object is built from its result. */
    method Begin(token: Token, expected: QueryBinding, now: nat, leaseId: LeaseId)
      returns (r: Result<SearchCursorData, QueryStateError>)
      requires Valid()
      modifies this
      ensures (State(), r) == BeginSection(old(State()), token, expected, now, leaseId)
      ensures Valid()
    {
      hide QueryBinding.Valid, Purged;
      if !expected.Valid() {
        return Err(InvalidData);
      }
      if !ValidToken(token, CURSOR_PREFIX) {
        return Err(UnknownOrExpired);
      }
      PurgeKeepsForm(State(), now);
      PurgeExpired(now);
      if token !in entries {
        return Err(UnknownOrExpired);
      }
      var entry := entries[token];
      if entry.data.query != expected {
        return Err(QueryMismatch);
      }
      if entry.leaseId.Some? {
        return Err(Busy);
      }
      LeaseKeepsForm(State(), token, entry.(leaseId := Some(leaseId)));
      entries := entries[token := entry.(leaseId := Some(leaseId))];
      return Ok(entry.data);
    }

    method Len(now: nat) returns (n: nat)
      requires Valid()
      modifies this
      ensures (State(), n) == LenSection(old(State()), now)
      ensures Valid()
    {
      PurgeKeepsForm(State(), now);
      PurgeExpired(now);
      return |entries|;
    }

    /** `finish_lease`: the checks before the lock, then one critical section. */
    method FinishLease(token: Token, leaseId: LeaseId, current: SearchCursorData, next: Option<SearchCursorData>,
                       now: nat, newToken: Token)
      returns (r: Result<Option<Token>, QueryStateError>)
      requires Valid() && newToken !in entries
      modifies this
      ensures (State(), r) == FinishSection(ttl, old(State()), token, leaseId, current, next, now, newToken)
      ensures Valid()
    {
      hide SearchCursorData.ContinuedBy, Purged, Removed;
      if next.Some? && !current.ContinuedBy(next.value) {
        return Err(InvalidContinuation);
      }
      var expiresAt := Expiration(now, ttl);
      if next.Some? && expiresAt.None? {
        return Err(ExpirationOverflow);
      }
      PurgeKeepsForm(State(), now);
      PurgeExpired(now);
      if token !in entries {
        return Err(LeaseLost);
      }
      if entries[token].leaseId != Some(leaseId) || entries[token].data != current {
        return Err(LeaseLost);
      }
      RemoveKeepsForm(State(), token);
      RemovedLacks(State(), token, newToken);
      Remove(token);
      match next {
        case None => return Ok(None);
        case Some(data) =>
          InsertKeepsForm(State(), newToken, data, expiresAt.value);
          InsertNew(newToken, data, expiresAt.value);
          return Ok(Some(newToken));
      }
    }

    method ReleaseLease(token: Token, leaseId: LeaseId, now: nat)
      requires Valid()
      modifies this
      ensures State() == ReleaseSection(old(State()), token, leaseId, now)
      ensures Valid()
    {
      hide Removed;
      var shouldRemove := false;
      if token in entries {
        var entry := entries[token];
        if entry.leaseId == Some(leaseId) {
          LeaseKeepsForm(State(), token, entry.(leaseId := None));
          entries := entries[token := entry.(leaseId := None)];
          shouldRemove := entry.expiresAt <= now;
        }
      }
      if shouldRemove {
        RemoveKeepsForm(State(), token);
        Remove(token);
      }
    }
  }

  lemma LeaseKeepsForm(s: StoreState, token: Token, entry: StoredCursor)
    requires WellFormed(s) && token in s.entries
    ensures WellFormed(s.(entries := s.entries[token := entry]))
    ensures |s.entries[token := entry]| == |s.entries|
  {
    assert s.entries[token := entry].Keys == s.entries.Keys;
    assert |s.entries[token := entry].Keys| == |s.entries.Keys|;
  }

  lemma RemovedLacks(s: StoreState, token: Token, newToken: Token)
    requires newToken !in s.entries
    ensures newToken !in Removed(s, token).entries
  {
  }

  /** A lease: it is released when it is dropped without having been completed. */
  class SearchCursorLease {
    const store: SearchCursorStore
    const token: Token
    const leaseId: LeaseId
    const data: SearchCursorData
    var completed: bool

    constructor (store: SearchCursorStore, token: Token, leaseId: LeaseId, data: SearchCursorData)
      ensures this.store == store && this.token == token && this.leaseId == leaseId && this.data == data && !completed
    {
      this.store := store;
      this.token := token;
      this.leaseId := leaseId;
      this.data := data;
      this.completed := false;
    }

    /** `commit`; an error leaves the lease to be dropped. */
    method Commit(next: Option<SearchCursorData>, now: nat, newToken: Token)
      returns (r: Result<Option<Token>, QueryStateError>)
      requires store.Valid() && newToken !in store.entries && !completed
      modifies this`completed, store
      ensures (store.State(), r)
              == FinishSection(store.ttl, old(store.State()), token, leaseId, data, next, now, newToken)
      ensures store.Valid() && completed == r.Ok?
    {
      hide FinishSection;
      r := store.FinishLease(token, leaseId, data, next, now, newToken);
      if r.Ok? {
        completed := true;
      }
    }

    method Drop(now: nat)
      requires store.Valid()
      modifies store
      ensures store.State() == if completed then old(store.State())
              else ReleaseSection(old(store.State()), token, leaseId, now)
      ensures store.Valid()
    {
      hide ReleaseSection;
      if !completed {
        store.ReleaseLease(token, leaseId, now);
      }
    }
  }

  ghost predicate AllLeased(s: StoreState, tokens: seq<Token>) {
    forall j :: 0 <= j < |tokens| ==> Leased(s, tokens[j])
  }

  /** The queue after `front` was found leased and moved to the back. */
  ghost predicate Rotated(start: StoreState, front: seq<Token>, rest: seq<Token>, order: seq<Token>) {
    start.order == front + rest && order == rest + front && AllLeased(start, front)
  }

  lemma NothingRotated(start: StoreState)
    ensures Rotated(start, [], start.order, start.order)
  {
  }

  /** One turn of the rotation: a leased token goes to the back, an unleased one is evicted. */
  lemma QueueTurn(start: StoreState, front: seq<Token>, rest: seq<Token>, order: seq<Token>)
    requires WellFormed(start) && Rotated(start, front, rest, order) && |front| < |start.order|
    ensures order != [] && rest != [] && order[0] in start.entries
    ensures Leased(start, order[0]) ==> Rotated(start, front + [order[0]], rest[1..], order[1..] + [order[0]])
    ensures !Leased(start, order[0]) ==> Evicted(start) == (StoreState(start.entries - {order[0]}, order[1..]), true)
  {
    assert start.order[|front|] == rest[0] == order[0];
    assert order[1..] == rest[1..] + front;
    if Leased(start, rest[0]) {
      assert start.order == (front + [rest[0]]) + rest[1..];
      assert order[1..] + [rest[0]] == rest[1..] + (front + [rest[0]]);
    } else {
      EvictsHere(start, front, rest);
    }
  }

  lemma RotatedAt(front: seq<Token>, rest: seq<Token>)
    requires rest != []
    ensures (front + rest)[|front| + 1..] == rest[1..] && (front + rest)[..|front|] == front
  {
  }

  lemma EvictsHere(start: StoreState, front: seq<Token>, rest: seq<Token>)
    requires start.order == front + rest && rest != []
    requires AllLeased(start, front)
    requires !Leased(start, rest[0])
    ensures Evicted(start) == (StoreState(start.entries - {rest[0]}, rest[1..] + front), true)
  {
    var i := FirstUnleased(start, start.order);
    assert start.order[|front|] == rest[0];
    assert forall j :: 0 <= j < |front| ==> start.order[j] == front[j];
    assert i == |front|;
    RotatedAt(front, rest);
  }

  lemma NothingToEvict(start: StoreState, front: seq<Token>, rest: seq<Token>, order: seq<Token>)
    requires Rotated(start, front, rest, order) && |front| == |start.order|
    ensures Evicted(start) == (start, false) && order == start.order
  {
    var i := FirstUnleased(start, start.order);
    assert start.order == front;
  }
}
