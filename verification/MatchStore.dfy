/**
 The match reference store: a bounded first-in-first-out cache that purges expired entries only at its front.
 Its contents are a suffix of everything ever inserted.
 */
module MatchStore {
  import opened Wrappers
  import opened QueryState
  import CursorStore

  type Token = string

  const MATCH_REFERENCE_PREFIX: string := "mref_"

  /** One stored reference, as an element of the queue. */
  datatype Item = Item(token: Token, data: MatchReferenceData, expiresAt: nat)

  datatype StoredMatch = StoredMatch(data: MatchReferenceData, expiresAt: nat)

  predicate Expired(item: Item, now: nat) {
    item.expiresAt <= now
  }

  // ---------- what the operations do to the queue ----------

  /** Purging at the front stops at the first entry that is not expired. */
  function FrontPurged(items: seq<Item>, now: nat): seq<Item> {
    if items == [] || !Expired(items[0], now) then items else FrontPurged(items[1..], now)
  }

  /** A full purge drops every expired entry. */
  function FullyPurged(items: seq<Item>, now: nat): seq<Item> {
    if items == [] then []
    else (if Expired(items[0], now) then [] else [items[0]]) + FullyPurged(items[1..], now)
  }

  /** The newest `count` entries. */
  function Newest(items: seq<Item>, count: nat): seq<Item> {
    if |items| <= count then items else Newest(items[1..], count)
  }

  function Find(items: seq<Item>, token: Token): Option<MatchReferenceData> {
    if items == [] then None else if items[0].token == token then Some(items[0].data) else Find(items[1..], token)
  }

  function InsertResult(capacity: nat, ttl: nat, items: seq<Item>, data: MatchReferenceData, now: nat, token: Token)
    : (seq<Item>, Result<Token, QueryStateError>)
    requires capacity > 0
  {
    if !data.Valid() then (items, Err(data.Refusal()))
    else if CursorStore.Expiration(now, ttl).None? then (items, Err(ExpirationOverflow))
    else
      (Newest(FrontPurged(items, now), capacity - 1) + [Item(token, data, CursorStore.Expiration(now, ttl).value)],
       Ok(token))
  }

  function ResolveResult(items: seq<Item>, token: Token, now: nat)
    : (seq<Item>, Result<MatchReferenceData, QueryStateError>)
  {
    if !CursorStore.ValidToken(token, MATCH_REFERENCE_PREFIX) then (items, Err(UnknownOrExpired))
    else
      var purged := FrontPurged(items, now);
      (purged, match Find(purged, token) case Some(data) => Ok(data) case None => Err(UnknownOrExpired))
  }

  // ---------- the store ----------

  ghost predicate DistinctTokens(items: seq<Item>) {
    forall i, j :: 0 <= i < j < |items| ==> items[i].token != items[j].token
  }

  /** The map and the queue hold these items. */
  ghost predicate Holds(entries: map<Token, StoredMatch>, order: seq<Token>, items: seq<Item>) {
    && |order| == |items| == |entries| && DistinctTokens(items)
    && (forall i :: 0 <= i < |items| ==> order[i] == items[i].token)
    && (forall i :: 0 <= i < |items| ==>
          items[i].token in entries && entries[items[i].token] == StoredMatch(items[i].data, items[i].expiresAt))
  }

  class MatchReferenceStore {
    const capacity: nat
    const ttl: nat
    var entries: map<Token, StoredMatch>
    var order: seq<Token>
    ghost var items: seq<Item>

    ghost predicate Consistent()
      reads this
    {
      Holds(entries, order, items)
    }

    ghost predicate Valid()
      reads this
    {
      capacity > 0 && ttl > 0 && Consistent() && |items| <= capacity
    }

    constructor (capacity: nat, ttl: nat)
      requires capacity > 0 && ttl > 0
      ensures Valid() && items == [] && this.capacity == capacity && this.ttl == ttl
    {
      this.capacity := capacity;
      this.ttl := ttl;
      this.entries := map[];
      this.order := [];
      this.items := [];
    }

    /** Takes the front of the queue away. */
    method PopFront()
      requires Consistent() && items != []
      modifies this
      ensures Consistent() && items == old(items)[1..]
    {
      FrontTaken(entries, order, items);
      var token := order[0];
      order := order[1..];
      entries := entries - {token};
      items := items[1..];
    }

    method PurgeExpired(now: nat)
      requires Consistent()
      modifies this
      ensures Consistent() && items == FrontPurged(old(items), now)
    {
      hide Holds;
      while order != []
        invariant Consistent()
        invariant FrontPurged(items, now) == FrontPurged(old(items), now)
        decreases |items|
      {
        HeldFront(entries, order, items);
        var token := order[0];
        if token in entries && entries[token].expiresAt <= now {
          PopFront();
        } else if token !in entries {
          assert false;
        } else {
          break;
        }
      }
      HeldFront(entries, order, items);
    }

    method EvictOldest()
      requires Consistent()
      modifies this
      ensures Consistent() && items == if old(items) == [] then [] else old(items)[1..]
    {
      hide Holds;
      HeldFront(entries, order, items);
      if order != [] {
        PopFront();
      }
    }

    /** `insert`: one critical section. */
    method Insert(data: MatchReferenceData, now: nat, token: Token) returns (r: Result<Token, QueryStateError>)
      requires Valid() && token !in entries
      modifies this
      ensures Valid()
      ensures (items, r) == InsertResult(capacity, ttl, old(items), data, now, token)
    {
      hide Holds, MatchReferenceData.Valid, FrontPurged, NoneHas;
      if !data.Valid() {
        return Err(data.Refusal());
      }
      var expiresAt := CursorStore.Expiration(now, ttl);
      if expiresAt.None? {
        return Err(ExpirationOverflow);
      }
      AbsentToken(entries, order, items, token);
      PurgeExpired(now);
      PurgeKeeps(old(items), now);
      PurgeLacks(old(items), now, token);
      ghost var purged := items;
      while |entries| >= capacity
        invariant Consistent() && Newest(items, capacity - 1) == Newest(purged, capacity - 1)
        invariant |items| <= capacity && NoneHas(items, token)
        decreases |items|
      {
        HeldFront(entries, order, items);
        NewestStep(items, capacity - 1, token);
        EvictOldest();
      }
      NewestStep(items, capacity - 1, token);
      HeldFront(entries, order, items);
      PresentToken(entries, order, items, token);
      Appended(entries, order, items, Item(token, data, expiresAt.value));
      order := order + [token];
      entries := entries[token := StoredMatch(data, expiresAt.value)];
      items := items + [Item(token, data, expiresAt.value)];
      return Ok(token);
    }

    /** `resolve`: one critical section. */
    method Resolve(token: Token, now: nat) returns (r: Result<MatchReferenceData, QueryStateError>)
      requires Valid()
      modifies this
      ensures Valid()
      ensures (items, r) == ResolveResult(old(items), token, now)
    {
      hide Holds, FrontPurged;
      if !CursorStore.ValidToken(token, MATCH_REFERENCE_PREFIX) {
        return Err(UnknownOrExpired);
      }
      PurgeExpired(now);
      PurgeKeeps(old(items), now);
      FindLooksUp(entries, order, items, token);
      if token !in entries {
        return Err(UnknownOrExpired);
      }
      return Ok(entries[token].data);
    }
  }

  lemma HeldFront(entries: map<Token, StoredMatch>, order: seq<Token>, items: seq<Item>)
    requires Holds(entries, order, items)
    ensures |order| == |items| == |entries|
    ensures order != [] ==>
              order[0] == items[0].token && order[0] in entries && entries[order[0]].expiresAt == items[0].expiresAt
  {
  }

  lemma FrontTaken(entries: map<Token, StoredMatch>, order: seq<Token>, items: seq<Item>)
    requires Holds(entries, order, items) && items != []
    ensures order != [] && Holds(entries - {order[0]}, order[1..], items[1..])
  {
    assert order[0] == items[0].token && order[0] in entries;
    assert (entries - {order[0]}).Keys == entries.Keys - {order[0]};
    assert |(entries - {order[0]}).Keys| == |entries.Keys| - 1;
  }

  lemma Appended(entries: map<Token, StoredMatch>, order: seq<Token>, items: seq<Item>, item: Item)
    requires Holds(entries, order, items) && item.token !in entries
    ensures Holds(entries[item.token := StoredMatch(item.data, item.expiresAt)], order + [item.token], items + [item])
  {
    AddedSize(entries, item.token, StoredMatch(item.data, item.expiresAt));
    var longer := items + [item];
    forall i, j | 0 <= i < j < |longer|
      ensures longer[i].token != longer[j].token
    {
      assert longer[i] == items[i];
      assert j < |items| ==> longer[j] == items[j];
    }
  }

  lemma AddedSize(entries: map<Token, StoredMatch>, token: Token, stored: StoredMatch)
    requires token !in entries
    ensures |entries[token := stored]| == |entries| + 1
  {
    assert entries[token := stored].Keys == entries.Keys + {token};
    assert |entries[token := stored].Keys| == |entries.Keys| + 1;
  }

  predicate NoneHas(items: seq<Item>, token: Token) {
    forall i :: 0 <= i < |items| ==> items[i].token != token
  }

  lemma AbsentToken(entries: map<Token, StoredMatch>, order: seq<Token>, items: seq<Item>, token: Token)
    requires Holds(entries, order, items) && token !in entries
    ensures NoneHas(items, token)
  {
  }

  lemma PurgeLacks(items: seq<Item>, now: nat, token: Token)
    requires NoneHas(items, token)
    ensures NoneHas(FrontPurged(items, now), token)
  {
    PurgeKeeps(items, now);
    var kept := FrontPurged(items, now);
    assert forall i :: 0 <= i < |kept| ==> kept[i] in items;
  }

  lemma NewestStep(items: seq<Item>, count: nat, token: Token)
    ensures |items| <= count ==> Newest(items, count) == items
    ensures |items| > count ==> Newest(items, count) == Newest(items[1..], count)
    ensures NoneHas(items, token) && items != [] ==> NoneHas(items[1..], token)
  {
  }

  /** The map holds nothing but the items. */
  lemma PresentToken(entries: map<Token, StoredMatch>, order: seq<Token>, items: seq<Item>, token: Token)
    requires Holds(entries, order, items)
    ensures token !in entries <==> NoneHas(items, token)
  {
    var tokens := set i | 0 <= i < |items| :: items[i].token;
    TokenCount(items);
    assert tokens <= entries.Keys;
    SameSize(tokens, entries.Keys);
  }

  lemma SameSize<T>(a: set<T>, b: set<T>)
    requires a <= b && |a| == |b|
    ensures a == b
  {
    assert |b - a| == |b| - |a| by {
      assert a + (b - a) == b;
    }
  }

  lemma TokensOf(init: seq<Item>, last: Item)
    ensures var items := init + [last];
            (set i | 0 <= i < |items| :: items[i].token) == (set i | 0 <= i < |init| :: init[i].token) + {last.token}
  {
    var items := init + [last];
    assert items[|init|] == last && forall i :: 0 <= i < |init| ==> init[i] == items[i];
  }

  lemma {:induction false} TokenCount(items: seq<Item>)
    requires DistinctTokens(items)
    ensures |set i | 0 <= i < |items| :: items[i].token| == |items|
  {
    if items == [] {
    } else {
      var init, last := items[..|items| - 1], items[|items| - 1];
      TokenCount(init);
      TokensOf(init, last);
      assert items == init + [last];
      assert last.token !in set i | 0 <= i < |init| :: init[i].token;
    }
  }

  lemma FindLooksUp(entries: map<Token, StoredMatch>, order: seq<Token>, items: seq<Item>, token: Token)
    requires Holds(entries, order, items)
    ensures Find(items, token) == if token in entries then Some(entries[token].data) else None
  {
    PresentToken(entries, order, items, token);
    FindFirst(items, token);
  }

  lemma {:induction false} FindFirst(items: seq<Item>, token: Token)
    ensures Find(items, token).None? <==> NoneHas(items, token)
    ensures DistinctTokens(items) ==> forall i :: 0 <= i < |items| && items[i].token == token ==>
              Find(items, token) == Some(items[i].data)
  {
    if items == [] {
    } else {
      FindFirst(items[1..], token);
      assert forall i :: 1 <= i < |items| ==> items[i] == items[1..][i - 1];
    }
  }

  // ---------- front purge and full purge ----------

  lemma {:induction false} PurgeIsSuffix(items: seq<Item>, now: nat)
    ensures var kept := FrontPurged(items, now);
            && |kept| <= |items| && kept == items[|items| - |kept|..]
            && (forall i :: 0 <= i < |items| - |kept| ==> Expired(items[i], now))
            && (kept != [] ==> !Expired(kept[0], now))
  {
    if items == [] || !Expired(items[0], now) {
    } else {
      PurgeIsSuffix(items[1..], now);
      var kept := FrontPurged(items[1..], now);
      assert items[|items| - |kept|..] == items[1..][|items[1..]| - |kept|..];
      assert forall i :: 1 <= i < |items| ==> items[i] == items[1..][i - 1];
    }
  }

  lemma {:induction false} PurgeKeeps(items: seq<Item>, now: nat)
    ensures |FrontPurged(items, now)| <= |items|
    ensures forall x :: x in FrontPurged(items, now) ==> x in items
  {
    if items == [] || !Expired(items[0], now) {
    } else {
      PurgeKeeps(items[1..], now);
    }
  }

  /** The expired entries stand at the front. */
  ghost predicate ExpiredFirst(items: seq<Item>, now: nat) {
    forall i, j :: 0 <= i < j < |items| && Expired(items[j], now) ==> Expired(items[i], now)
  }

  lemma {:induction false} NothingExpired(items: seq<Item>, now: nat)
    ensures (forall i :: 0 <= i < |items| ==> !Expired(items[i], now)) <==> FullyPurged(items, now) == items
    ensures |FullyPurged(items, now)| <= |items|
  {
    if items == [] {
    } else {
      NothingExpired(items[1..], now);
      assert forall i :: 1 <= i < |items| ==> items[i] == items[1..][i - 1];
      assert items == [items[0]] + items[1..];
      if FullyPurged(items, now) == items {
        assert !Expired(items[0], now);
        assert FullyPurged(items[1..], now) == items[1..];
      }
    }
  }

  /** Purging at the front removes exactly the expired entries if and only if these stand at the front. */
  lemma {:induction false} FrontPurgeIsFullPurge(items: seq<Item>, now: nat)
    ensures FrontPurged(items, now) == FullyPurged(items, now) <==> ExpiredFirst(items, now)
  {
    if items == [] {
    } else {
      var rest := items[1..];
      assert forall i :: 1 <= i < |items| ==> items[i] == rest[i - 1];
      if Expired(items[0], now) {
        FrontPurgeIsFullPurge(rest, now);
        assert ExpiredFirst(items, now) <==> ExpiredFirst(rest, now) by {
          if ExpiredFirst(items, now) {
            assert forall i, j :: 0 <= i < j < |rest| ==> rest[i] == items[i + 1] && rest[j] == items[j + 1];
          }
        }
      } else {
        NothingExpired(items, now);
        assert ExpiredFirst(items, now) <==> forall i :: 0 <= i < |items| ==> !Expired(items[i], now);
      }
    }
  }

  ghost predicate AlwaysExact(items: seq<Item>) {
    forall now: nat :: FrontPurged(items, now) == FullyPurged(items, now)
  }

  ghost predicate RisingExpiry(items: seq<Item>) {
    forall i, j :: 0 <= i < j < |items| ==> items[i].expiresAt <= items[j].expiresAt
  }

  /** Purging at the front is exact at every time if and only if expiry times never fall along the queue. */
  lemma FrontPurgeAlwaysExact(items: seq<Item>)
    ensures AlwaysExact(items) <==> RisingExpiry(items)
  {
    if AlwaysExact(items) {
      forall i, j | 0 <= i < j < |items|
        ensures items[i].expiresAt <= items[j].expiresAt
      {
        var now := items[j].expiresAt;
        FrontPurgeIsFullPurge(items, now);
        assert Expired(items[j], now);
      }
    }
    if RisingExpiry(items) {
      forall now: nat
        ensures FrontPurged(items, now) == FullyPurged(items, now)
      {
        FrontPurgeIsFullPurge(items, now);
      }
    }
  }
}
