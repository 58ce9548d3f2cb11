/**
 The lease protocol over every interleaving: any number of callers run the store's critical sections in any
 order, with clock readings taken before the lock and so in no particular order.
 */
module CursorProtocol {
  import opened Wrappers
  import opened Bytes
  import opened QueryState
  import opened CursorStore

  /** What a caller holds: a lease it may commit, or one whose commit failed and that is about to be dropped. */
  datatype Phase = Held | CommitFailed

  datatype Lease = Lease(token: Token, data: SearchCursorData, phase: Phase)

  datatype Config = Config(capacity: nat, ttl: nat)

  datatype System = System(store: StoreState, leases: map<LeaseId, Lease>)

  /** One critical section, with the choices that come from outside: clock, tokens and lease identifiers. */
  datatype Step =
    | InsertStep(data: SearchCursorData, now: nat, newToken: Token)
    | BeginStep(token: Token, expected: QueryBinding, now: nat, leaseId: LeaseId)
    | LenStep(now: nat)
    | CommitStep(leaseId: LeaseId, next: Option<SearchCursorData>, now: nat, newToken: Token)
    | DropStep(leaseId: LeaseId, now: nat)

  /** New tokens are not in use, new lease identifiers are unique, and only holders commit or drop. */
  predicate Enabled(s: System, step: Step) {
    match step
    case InsertStep(_, _, newToken) => newToken !in s.store.entries
    case BeginStep(_, _, _, leaseId) => leaseId !in s.leases
    case LenStep(_) => true
    case CommitStep(leaseId, _, _, newToken) =>
      leaseId in s.leases && s.leases[leaseId].phase == Held && newToken !in s.store.entries
    case DropStep(leaseId, _) => leaseId in s.leases
  }

  function CommitResult(config: Config, s: System, leaseId: LeaseId, next: Option<SearchCursorData>, now: nat,
                        newToken: Token)
    : (StoreState, Result<Option<Token>, QueryStateError>)
    requires leaseId in s.leases
  {
    var lease := s.leases[leaseId];
    FinishSection(config.ttl, s.store, lease.token, leaseId, lease.data, next, now, newToken)
  }

  function Next(config: Config, s: System, step: Step): System
    requires Enabled(s, step)
  {
    match step
    case InsertStep(data, now, newToken) =>
      s.(store := InsertSection(config.capacity, config.ttl, s.store, data, now, newToken).0)
    case BeginStep(token, expected, now, leaseId) =>
      var (store, r) := BeginSection(s.store, token, expected, now, leaseId);
      if r.Ok? then System(store, s.leases[leaseId := Lease(token, r.value, Held)]) else s.(store := store)
    case LenStep(now) => s.(store := LenSection(s.store, now).0)
    case CommitStep(leaseId, next, now, newToken) =>
      var (store, r) := CommitResult(config, s, leaseId, next, now, newToken);
      if r.Ok? then System(store, s.leases - {leaseId})
      else System(store, s.leases[leaseId := s.leases[leaseId].(phase := CommitFailed)])
    case DropStep(leaseId, now) =>
      System(ReleaseSection(s.store, s.leases[leaseId].token, leaseId, now), s.leases - {leaseId})
  }

  // ---------- the invariant ----------

  /** The lease is recorded in its entry, with the same data. */
  predicate Recorded(s: System, id: LeaseId) {
    id in s.leases &&
    var lease := s.leases[id];
    lease.token in s.store.entries
    && s.store.entries[lease.token].leaseId == Some(id)
    && s.store.entries[lease.token].data == lease.data
  }

  /** The entry is free, or its lease is live and is for this token. */
  predicate Accounted(s: System, token: Token) {
    token in s.store.entries &&
    match s.store.entries[token].leaseId
    case None => true
    case Some(id) => id in s.leases && s.leases[id].token == token
  }

  /** Live leases and leased entries are in one-to-one correspondence, with equal data. */
  ghost predicate Inv(config: Config, s: System) {
    && config.capacity > 0
    && WellFormed(s.store) && |s.store.entries| <= config.capacity
    && (forall id :: id in s.leases ==> Recorded(s, id))
    && (forall t :: t in s.store.entries ==> Accounted(s, t))
  }

  /** At most one live lease per token. */
  lemma OneLeasePerToken(config: Config, s: System, a: LeaseId, b: LeaseId)
    requires Inv(config, s) && a in s.leases && b in s.leases && s.leases[a].token == s.leases[b].token
    ensures a == b
  {
    assert Recorded(s, a) && Recorded(s, b);
  }

  lemma InitialInv(config: Config)
    requires config.capacity > 0
    ensures Inv(config, System(EMPTY, map[]))
  {
  }

  // ---------- what each section keeps ----------

  /** Entries that survive are unchanged, and only unleased entries disappear. */
  ghost predicate Shrinks(before: StoreState, after: StoreState) {
    && (forall t :: t in after.entries ==> t in before.entries && after.entries[t] == before.entries[t])
    && (forall t :: Leased(before, t) ==> t in after.entries)
  }

  lemma PurgeShrinks(s: StoreState, now: nat)
    requires WellFormed(s)
    ensures WellFormed(Purged(s, now)) && Shrinks(s, Purged(s, now)) && |Purged(s, now).entries| <= |s.entries|
  {
    hide Purged;
    PurgeKeepsForm(s, now);
  }

  lemma {:induction false} RoomShrinks(s: StoreState, capacity: nat)
    requires WellFormed(s) && capacity > 0
    ensures var (room, ok) := MadeRoom(s, capacity);
            && WellFormed(room) && Shrinks(s, room) && |room.entries| <= |s.entries|
            && (ok <==> |room.entries| < capacity)
            && (!ok ==> forall t :: t in room.entries ==> Leased(room, t))
    decreases |s.entries|
  {
    hide Evicted, WellFormed;
    if |s.entries| < capacity {
    } else {
      EvictKeepsForm(s);
      var (next, ok) := Evicted(s);
      if ok {
        RoomShrinks(next, capacity);
      }
    }
  }

  /** Leases stay in correspondence when only unleased entries disappear. */
  lemma ShrinkKeepsInv(config: Config, s: System, store: StoreState)
    requires Inv(config, s) && WellFormed(store) && Shrinks(s.store, store) && |store.entries| <= |s.store.entries|
    ensures Inv(config, s.(store := store))
  {
    hide WellFormed;
    var next := s.(store := store);
    forall id | id in next.leases
      ensures Recorded(next, id)
    {
      assert Recorded(s, id);
      assert Leased(s.store, s.leases[id].token);
    }
    forall t | t in store.entries
      ensures Accounted(next, t)
    {
      assert Accounted(s, t);
    }
  }

  lemma InsertKeepsInv(config: Config, s: System, data: SearchCursorData, now: nat, token: Token)
    requires Inv(config, s) && token !in s.store.entries
    ensures Inv(config, s.(store := InsertSection(config.capacity, config.ttl, s.store, data, now, token).0))
  {
    hide WellFormed, Purged, MadeRoom, SearchCursorData.Valid;
    var purged := Purged(s.store, now);
    PurgeShrinks(s.store, now);
    var (room, ok) := MadeRoom(purged, config.capacity);
    RoomShrinks(purged, config.capacity);
    assert Shrinks(s.store, room) by {
      forall t | Leased(s.store, t)
        ensures t in room.entries
      {
        assert Leased(purged, t);
      }
    }
    var shrunk := s.(store := room);
    ShrinkKeepsInv(config, s, room);
    if ok && Expiration(now, config.ttl).Some? {
      var expiresAt := Expiration(now, config.ttl).value;
      InsertKeepsForm(room, token, data, expiresAt);
      NewEntryKeepsInv(config, shrunk, token, data, expiresAt);
    }
  }

  lemma NewEntryKeepsInv(config: Config, s: System, token: Token, data: SearchCursorData, expiresAt: nat)
    requires Inv(config, s) && token !in s.store.entries && |s.store.entries| < config.capacity
    ensures Inv(config, s.(store := InsertedNew(s.store, token, data, expiresAt)))
  {
    hide WellFormed;
    var next := s.(store := InsertedNew(s.store, token, data, expiresAt));
    InsertKeepsForm(s.store, token, data, expiresAt);
    forall id | id in next.leases
      ensures Recorded(next, id)
    {
      assert Recorded(s, id);
    }
    forall t | t in next.store.entries
      ensures Accounted(next, t)
    {
      assert t != token ==> Accounted(s, t);
    }
  }

  lemma BeginKeepsInv(config: Config, s: System, token: Token, expected: QueryBinding, now: nat, leaseId: LeaseId)
    requires Inv(config, s) && leaseId !in s.leases
    ensures Inv(config, Next(config, s, BeginStep(token, expected, now, leaseId)))
  {
    hide WellFormed, Purged, QueryBinding.Valid, ValidToken;
    var purged := Purged(s.store, now);
    PurgeShrinks(s.store, now);
    ShrinkKeepsInv(config, s, purged);
    var (store, r) := BeginSection(s.store, token, expected, now, leaseId);
    if r.Ok? {
      var entry := purged.entries[token].(leaseId := Some(leaseId));
      LeaseKeepsForm(purged, token, entry);
      var shrunk, next := s.(store := purged), System(store, s.leases[leaseId := Lease(token, r.value, Held)]);
      forall id | id in next.leases
        ensures Recorded(next, id)
      {
        assert id != leaseId ==> Recorded(shrunk, id);
      }
      forall t | t in next.store.entries
        ensures Accounted(next, t)
      {
        assert Accounted(shrunk, t);
      }
    }
  }

  /** Taking a leased entry and its lease away together. */
  lemma TakenKeepsInv(config: Config, s: System, id: LeaseId)
    requires Inv(config, s) && id in s.leases
    ensures var next := System(Removed(s.store, s.leases[id].token), s.leases - {id});
            Inv(config, next) && |next.store.entries| < config.capacity
  {
    hide WellFormed;
    var token := s.leases[id].token;
    var next := System(Removed(s.store, token), s.leases - {id});
    assert Recorded(s, id);
    RemoveKeepsForm(s.store, token);
    forall other | other in next.leases
      ensures Recorded(next, other)
    {
      assert Recorded(s, other);
      OneTokenEach(s, id, other);
    }
    forall t | t in next.store.entries
      ensures Accounted(next, t)
    {
      assert Accounted(s, t);
    }
  }

  lemma OneTokenEach(s: System, a: LeaseId, b: LeaseId)
    requires Recorded(s, a) && Recorded(s, b) && a != b
    ensures s.leases[a].token != s.leases[b].token
  {
  }

  // ---------- commit ----------

  /** A holder's commit is never told that the lease was lost; only an invalid next state or the clock can refuse it. */
  lemma LeaseIsNeverLost(config: Config, s: System, leaseId: LeaseId, next: Option<SearchCursorData>, now: nat,
                         newToken: Token)
    requires Inv(config, s) && leaseId in s.leases
    ensures var (store, r) := CommitResult(config, s, leaseId, next, now, newToken);
            && r != Err(LeaseLost)
            && (r.Err? <==>
                  next.Some? && (!s.leases[leaseId].data.ContinuedBy(next.value) || Expiration(now, config.ttl).None?))
            && (r.Err? ==> store == s.store)
            && (r.Ok? ==> r.value == if next.Some? then Some(newToken) else None)
  {
    hide WellFormed, Purged, SearchCursorData.ContinuedBy, Removed;
    assert Recorded(s, leaseId);
    PurgeShrinks(s.store, now);
    assert Leased(s.store, s.leases[leaseId].token);
  }

  lemma CommitKeepsInv(config: Config, s: System, leaseId: LeaseId, next: Option<SearchCursorData>, now: nat,
                       newToken: Token)
    requires Inv(config, s) && Enabled(s, CommitStep(leaseId, next, now, newToken))
    ensures Inv(config, Next(config, s, CommitStep(leaseId, next, now, newToken)))
  {
    hide WellFormed, Purged, SearchCursorData.ContinuedBy, Removed;
    LeaseIsNeverLost(config, s, leaseId, next, now, newToken);
    var (store, r) := CommitResult(config, s, leaseId, next, now, newToken);
    if r.Ok? {
      var purged := Purged(s.store, now);
      PurgeShrinks(s.store, now);
      var shrunk := s.(store := purged);
      ShrinkKeepsInv(config, s, purged);
      TakenKeepsInv(config, shrunk, leaseId);
      var taken := System(Removed(purged, s.leases[leaseId].token), s.leases - {leaseId});
      if next.Some? {
        RemovedLacks(purged, s.leases[leaseId].token, newToken);
        NewEntryKeepsInv(config, taken, newToken, next.value, Expiration(now, config.ttl).value);
      }
    } else {
      FailedKeepsInv(config, s, leaseId);
    }
  }

  lemma FailedKeepsInv(config: Config, s: System, leaseId: LeaseId)
    requires Inv(config, s) && leaseId in s.leases
    ensures Inv(config, s.(leases := s.leases[leaseId := s.leases[leaseId].(phase := CommitFailed)]))
  {
    hide WellFormed;
    var next := s.(leases := s.leases[leaseId := s.leases[leaseId].(phase := CommitFailed)]);
    forall id | id in next.leases
      ensures Recorded(next, id)
    {
      assert Recorded(s, id);
    }
    forall t | t in next.store.entries
      ensures Accounted(next, t)
    {
      assert Accounted(s, t);
    }
  }

  lemma DropKeepsInv(config: Config, s: System, leaseId: LeaseId, now: nat)
    requires Inv(config, s) && leaseId in s.leases
    ensures Inv(config, Next(config, s, DropStep(leaseId, now)))
  {
    hide WellFormed, Removed;
    var lease := s.leases[leaseId];
    assert Recorded(s, leaseId);
    var entry := s.store.entries[lease.token];
    var free := s.store.(entries := s.store.entries[lease.token := entry.(leaseId := None)]);
    LeaseKeepsForm(s.store, lease.token, entry.(leaseId := None));
    var released := System(free, s.leases - {leaseId});
    forall id | id in released.leases
      ensures Recorded(released, id)
    {
      assert Recorded(s, id);
      OneTokenEach(s, leaseId, id);
    }
    forall t | t in free.entries
      ensures Accounted(released, t)
    {
      assert Accounted(s, t);
    }
    if entry.expiresAt <= now {
      FreeRemovalKeepsInv(config, released, lease.token);
    }
  }

  lemma FreeRemovalKeepsInv(config: Config, s: System, token: Token)
    requires Inv(config, s) && token in s.store.entries && s.store.entries[token].leaseId.None?
    ensures Inv(config, s.(store := Removed(s.store, token)))
  {
    hide WellFormed;
    RemoveKeepsForm(s.store, token);
    ShrinkKeepsInv(config, s, Removed(s.store, token));
  }

  // ---------- all runs ----------

  lemma StepKeepsInv(config: Config, s: System, step: Step)
    requires Inv(config, s) && Enabled(s, step)
    ensures Inv(config, Next(config, s, step))
  {
    hide Inv, InsertSection, BeginSection, FinishSection, ReleaseSection;
    match step
    case InsertStep(data, now, newToken) => InsertKeepsInv(config, s, data, now, newToken);
    case BeginStep(token, expected, now, leaseId) => BeginKeepsInv(config, s, token, expected, now, leaseId);
    case LenStep(now) =>
      LenKeepsInv(config, s, now);
    case CommitStep(leaseId, next, now, newToken) => CommitKeepsInv(config, s, leaseId, next, now, newToken);
    case DropStep(leaseId, now) => DropKeepsInv(config, s, leaseId, now);
  }

  lemma LenKeepsInv(config: Config, s: System, now: nat)
    requires Inv(config, s)
    ensures Inv(config, s.(store := Purged(s.store, now)))
  {
    hide Purged, WellFormed;
    PurgeShrinks(s.store, now);
    ShrinkKeepsInv(config, s, Purged(s.store, now));
  }

  /** A stored state was stored before, or is the acceptable one this step brings. */
  ghost predicate ComesFrom(s: System, step: Step, data: SearchCursorData) {
    || (exists t :: t in s.store.entries && s.store.entries[t].data == data)
    || (step.InsertStep? && step.data == data && data.Valid())
    || (step.CommitStep? && step.next == Some(data) && data.Valid())
  }

  lemma EntriesComeFrom(config: Config, s: System, step: Step)
    requires Inv(config, s) && Enabled(s, step)
    ensures var after := Next(config, s, step).store.entries;
            forall t :: t in after ==> ComesFrom(s, step, after[t].data)
  {
    hide SearchCursorData.Valid, WellFormed, Purged, MadeRoom, ValidToken, QueryBinding.Valid,
         SearchCursorData.ContinuedBy, Inv;
    match step
    case InsertStep(data, now, newToken) =>
      FormKept(config, s);
      PurgeShrinks(s.store, now);
      RoomShrinks(Purged(s.store, now), config.capacity);
    case BeginStep(token, expected, now, leaseId) =>
      FormKept(config, s);
      PurgeShrinks(s.store, now);
    case LenStep(now) =>
      FormKept(config, s);
      PurgeShrinks(s.store, now);
    case CommitStep(leaseId, next, now, newToken) => CommittedComesFrom(config, s, leaseId, next, now, newToken);
    case DropStep(leaseId, now) =>
  }

  lemma FormKept(config: Config, s: System)
    requires Inv(config, s)
    ensures WellFormed(s.store) && config.capacity > 0
  {
  }

  lemma CommittedComesFrom(config: Config, s: System, leaseId: LeaseId, next: Option<SearchCursorData>, now: nat,
                           newToken: Token)
    requires Inv(config, s) && Enabled(s, CommitStep(leaseId, next, now, newToken))
    ensures var step := CommitStep(leaseId, next, now, newToken);
            var after := Next(config, s, step).store.entries;
            forall t :: t in after ==> ComesFrom(s, step, after[t].data)
  {
    hide SearchCursorData.Valid, WellFormed, Purged, MadeRoom, ValidToken, QueryBinding.Valid;
    PurgeShrinks(s.store, now);
  }

  /** A run of the system from the empty store. */
  ghost predicate Run(config: Config, states: seq<System>, steps: seq<Step>) {
    && |states| == |steps| + 1
    && states[0] == System(EMPTY, map[])
    && forall i :: 0 <= i < |steps| ==>
         Enabled(states[i], steps[i]) && states[i + 1] == Next(config, states[i], steps[i])
  }

  /** The correspondence holds in every state of every run. */
  lemma {:induction false} EveryRunKeepsInv(config: Config, states: seq<System>, steps: seq<Step>, i: nat)
    requires config.capacity > 0 && Run(config, states, steps) && i < |states|
    ensures Inv(config, states[i])
  {
    hide Inv, Next;
    if i == 0 {
      InitialInv(config);
    } else {
      EveryRunKeepsInv(config, states, steps, i - 1);
      StepKeepsInv(config, states[i - 1], steps[i - 1]);
      assert states[i - 1 + 1] == Next(config, states[i - 1], steps[i - 1]);
    }
  }

  /** In no run is a holder ever told that its lease was lost. */
  lemma NoRunLosesLease(config: Config, states: seq<System>, steps: seq<Step>, i: nat)
    requires config.capacity > 0 && Run(config, states, steps) && i < |steps| && steps[i].CommitStep?
    ensures steps[i].leaseId in states[i].leases
    ensures CommitResult(config, states[i], steps[i].leaseId, steps[i].next, steps[i].now, steps[i].newToken).1
            != Err(LeaseLost)
  {
    hide Inv, Next, CommitResult;
    EveryRunKeepsInv(config, states, steps, i);
    assert Enabled(states[i], steps[i]);
    LeaseIsNeverLost(config, states[i], steps[i].leaseId, steps[i].next, steps[i].now, steps[i].newToken);
  }

  // ---------- what a lease guarantees ----------

  predicate Ends(step: Step, id: LeaseId) {
    (step.CommitStep? || step.DropStep?) && step.leaseId == id
  }

  /** The lease of `id` and its entry are the same in both states. */
  ghost predicate Untouched(s: System, next: System, id: LeaseId) {
    && id in s.leases && id in next.leases && next.leases[id] == s.leases[id]
    && s.leases[id].token in s.store.entries && s.leases[id].token in next.store.entries
    && next.store.entries[s.leases[id].token] == s.store.entries[s.leases[id].token]
  }

  lemma OthersUntouched(config: Config, s: System, store: StoreState, id: LeaseId)
    requires Inv(config, s) && id in s.leases && Shrinks(s.store, store)
    ensures s.leases[id].token in s.store.entries && s.leases[id].token in store.entries
    ensures store.entries[s.leases[id].token] == s.store.entries[s.leases[id].token]
  {
    hide WellFormed;
    assert Recorded(s, id);
    assert Leased(s.store, s.leases[id].token);
  }

  /** While a lease is live, no section run by anyone else touches it or its entry: not purge, not eviction. */
  lemma StepLeavesLease(config: Config, s: System, step: Step, id: LeaseId)
    requires Inv(config, s) && Enabled(s, step) && id in s.leases && !Ends(step, id)
    ensures Untouched(s, Next(config, s, step), id)
  {
    hide WellFormed, Purged, MadeRoom, Removed, SearchCursorData.ContinuedBy, SearchCursorData.Valid, ValidToken,
         QueryBinding.Valid;
    assert Recorded(s, id);
    match step
    case InsertStep(data, now, newToken) => InsertLeavesLease(config, s, data, now, newToken, id);
    case BeginStep(token, expected, now, leaseId) =>
      PurgeShrinks(s.store, now);
      OthersUntouched(config, s, Purged(s.store, now), id);
    case LenStep(now) =>
      PurgeShrinks(s.store, now);
      OthersUntouched(config, s, Purged(s.store, now), id);
    case CommitStep(leaseId, next, now, newToken) => CommitLeavesLease(config, s, leaseId, next, now, newToken, id);
    case DropStep(leaseId, now) => DropLeavesLease(config, s, leaseId, now, id);
  }

  lemma CommitLeavesLease(config: Config, s: System, leaseId: LeaseId, next: Option<SearchCursorData>, now: nat,
                          newToken: Token, id: LeaseId)
    requires var step := CommitStep(leaseId, next, now, newToken);
             Inv(config, s) && Enabled(s, step) && id in s.leases && !Ends(step, id)
    ensures Untouched(s, Next(config, s, CommitStep(leaseId, next, now, newToken)), id)
  {
    hide WellFormed, Purged, MadeRoom, Removed, SearchCursorData.ContinuedBy, SearchCursorData.Valid, ValidToken,
         QueryBinding.Valid;
    assert Recorded(s, id);
    LeaseIsNeverLost(config, s, leaseId, next, now, newToken);
    PurgeShrinks(s.store, now);
    OthersUntouched(config, s, Purged(s.store, now), id);
    OneLeaseOneToken(s, leaseId, id);
    RemoveLeaves(Purged(s.store, now), s.leases[leaseId].token, s.leases[id].token);
  }

  lemma DropLeavesLease(config: Config, s: System, leaseId: LeaseId, now: nat, id: LeaseId)
    requires Inv(config, s) && Enabled(s, DropStep(leaseId, now)) && id in s.leases && !Ends(DropStep(leaseId, now), id)
    ensures Untouched(s, Next(config, s, DropStep(leaseId, now)), id)
  {
    hide WellFormed, Purged, MadeRoom, Removed, SearchCursorData.ContinuedBy, SearchCursorData.Valid, ValidToken,
         QueryBinding.Valid;
    assert Recorded(s, id) && Recorded(s, leaseId);
    OneLeaseOneToken(s, leaseId, id);
    var token := s.leases[leaseId].token;
    var free := s.store.(entries := s.store.entries[token := s.store.entries[token].(leaseId := None)]);
    RemoveLeaves(free, token, s.leases[id].token);
  }

  lemma OneLeaseOneToken(s: System, a: LeaseId, b: LeaseId)
    requires (forall id :: id in s.leases ==> Recorded(s, id)) && a in s.leases && b in s.leases && a != b
    ensures s.leases[a].token != s.leases[b].token
  {
    OneTokenEach(s, a, b);
  }

  lemma RemoveLeaves(s: StoreState, token: Token, other: Token)
    requires other != token && other in s.entries
    ensures other in Removed(s, token).entries && Removed(s, token).entries[other] == s.entries[other]
  {
  }

  lemma InsertLeavesLease(config: Config, s: System, data: SearchCursorData, now: nat, token: Token, id: LeaseId)
    requires Inv(config, s) && token !in s.store.entries && id in s.leases
    ensures Untouched(s, s.(store := InsertSection(config.capacity, config.ttl, s.store, data, now, token).0), id)
  {
    hide WellFormed, Purged, MadeRoom, SearchCursorData.Valid;
    var purged := Purged(s.store, now);
    assert Recorded(s, id);
    PurgeShrinks(s.store, now);
    var (room, ok) := MadeRoom(purged, config.capacity);
    RoomShrinks(purged, config.capacity);
    OthersUntouched(config, s, purged, id);
    assert Leased(purged, s.leases[id].token);
  }

  /** A second caller cannot lease the token meanwhile. */
  lemma LeasedTokenIsBusy(config: Config, s: System, id: LeaseId, expected: QueryBinding, now: nat, leaseId: LeaseId)
    requires Inv(config, s) && id in s.leases
    ensures BeginSection(s.store, s.leases[id].token, expected, now, leaseId).1.Err?
    ensures expected.Valid() && ValidToken(s.leases[id].token, CURSOR_PREFIX) && expected == s.leases[id].data.query ==>
              BeginSection(s.store, s.leases[id].token, expected, now, leaseId).1 == Err(Busy)
  {
    hide WellFormed, Purged, QueryBinding.Valid, ValidToken;
    PurgeShrinks(s.store, now);
    OthersUntouched(config, s, Purged(s.store, now), id);
    assert Recorded(s, id);
  }

  /** A successful commit consumes the token; the next page's state is stored under the new one, free. */
  lemma CommitReplaces(config: Config, s: System, leaseId: LeaseId, next: Option<SearchCursorData>, now: nat,
                       newToken: Token)
    requires Inv(config, s) && leaseId in s.leases && newToken !in s.store.entries
    requires CommitResult(config, s, leaseId, next, now, newToken).1.Ok?
    ensures s.leases[leaseId].token !in CommitResult(config, s, leaseId, next, now, newToken).0.entries
    ensures next.Some? ==>
              var store := CommitResult(config, s, leaseId, next, now, newToken).0;
              newToken in store.entries && store.entries[newToken] == StoredCursor(next.value, now + config.ttl, None)
    ensures var store := CommitResult(config, s, leaseId, next, now, newToken).0;
            forall t :: t != s.leases[leaseId].token && t != newToken ==>
              && (t in store.entries <==>
                    t in s.store.entries && (s.store.entries[t].leaseId.Some? || now < s.store.entries[t].expiresAt))
              && (t in store.entries ==> store.entries[t] == s.store.entries[t])
  {
    hide WellFormed, Purged, SearchCursorData.ContinuedBy;
    assert Recorded(s, leaseId);
    PurgeKeepsForm(s.store, now);
  }

  lemma CommitKeepsForm(config: Config, s: System, leaseId: LeaseId, next: Option<SearchCursorData>, now: nat,
                        newToken: Token)
    requires Inv(config, s) && leaseId in s.leases && newToken !in s.store.entries
    ensures WellFormed(CommitResult(config, s, leaseId, next, now, newToken).0)
  {
    hide WellFormed, Purged, SearchCursorData.ContinuedBy, Removed, InsertedNew;
    var token, purged := s.leases[leaseId].token, Purged(s.store, now);
    PurgeShrinks(s.store, now);
    RemoveKeepsForm(purged, token);
    RemovedLacks(purged, token, newToken);
    if next.Some? && Expiration(now, config.ttl).Some? {
      InsertKeepsForm(Removed(purged, token), newToken, next.value, Expiration(now, config.ttl).value);
    }
  }

  /** Dropping a lease frees its entry with unchanged data, unless the entry has expired meanwhile. */
  lemma DropFrees(config: Config, s: System, leaseId: LeaseId, now: nat)
    requires Inv(config, s) && leaseId in s.leases
    ensures var lease, next := s.leases[leaseId], Next(config, s, DropStep(leaseId, now));
            var expiresAt := s.store.entries[lease.token].expiresAt;
            && leaseId !in next.leases
            && (lease.token in next.store.entries <==> expiresAt > now)
            && (expiresAt > now ==> next.store.entries[lease.token] == StoredCursor(lease.data, expiresAt, None))
            && (forall t :: t != lease.token ==>
                  && (t in next.store.entries <==> t in s.store.entries)
                  && (t in s.store.entries ==> next.store.entries[t] == s.store.entries[t]))
            && next.leases == s.leases - {leaseId}
  {
    hide WellFormed;
    assert Recorded(s, leaseId);
  }

  /** After a failed attempt the same cursor can be leased again with the same data until it expires. */
  lemma ReleasedIsLeasable(config: Config, s: System, leaseId: LeaseId, droppedAt: nat, now: nat, newLease: LeaseId)
    requires Inv(config, s) && leaseId in s.leases
    requires s.store.entries[s.leases[leaseId].token].expiresAt > Max(droppedAt, now)
    requires s.leases[leaseId].data.query.Valid() && ValidToken(s.leases[leaseId].token, CURSOR_PREFIX)
    ensures var next := Next(config, s, DropStep(leaseId, droppedAt));
            BeginSection(next.store, s.leases[leaseId].token, s.leases[leaseId].data.query, now, newLease).1
            == Ok(s.leases[leaseId].data)
  {
    hide WellFormed, Purged, QueryBinding.Valid, ValidToken, Next;
    var next := Next(config, s, DropStep(leaseId, droppedAt));
    DropFrees(config, s, leaseId, droppedAt);
    DropKeepsInv(config, s, leaseId, droppedAt);
    PurgeKeepsForm(next.store, now);
  }
}
