/**
 Exact pagination under concurrency: in every interleaved run whose cursors come from searches over unchanged
 snapshots, each stored or leased cursor is the last state of a session, so whoever leases it goes on exactly.
 */
module ConcurrentSessions {
  import opened Wrappers
  import opened QueryState
  import opened PageSpec
  import Counters
  import CursorStore
  import P = CursorProtocol
  import PageFacts
  import Pagination
  import Search

  /** The bytes frozen for the candidates of a query. They do not change while the cursors live. */
  type World = seq<CursorCandidate> -> seq<FrozenCandidate>

  /** What the service has established of the query behind a cursor. */
  ghost predicate Known(limits: LimitsConfig, world: World, cursor: SearchCursorData) {
    && cursor.query.Valid() && limits.Valid() && Search.Storable(cursor.query, cursor.candidates)
    && Search.Freezes(world(cursor.candidates), cursor.candidates)
    && PageFacts.DistinctIndexes(world(cursor.candidates))
  }

  /** The page a search returns for a cursor. */
  function PageFor(limits: LimitsConfig, world: World, cursor: SearchCursorData): ScannedPage {
    Page(cursor.query, limits, world(cursor.candidates), Some(cursor.after))
  }

  /** The step stores only what a search builds: behind its first page, or behind the page of the leased cursor. */
  ghost predicate BySearch(limits: LimitsConfig, world: World, s: P.System, step: P.Step)
    requires P.Enabled(s, step)
  {
    match step
    case InsertStep(data, _, _) =>
      && Known(limits, world, data)
      && Search.StoredAfter(data.query, data.candidates, NO_USAGE,
                            Page(data.query, limits, world(data.candidates), None), data)
    case CommitStep(leaseId, next, _, _) =>
      var cursor := s.leases[leaseId].data;
      next.Some? ==>
        Search.StoredAfter(cursor.query, cursor.candidates, cursor.usage, PageFor(limits, world, cursor), next.value)
    case _ => true
  }

  /** A run in which every cursor comes from a search. */
  ghost predicate SearchRun(limits: LimitsConfig, world: World, config: P.Config, states: seq<P.System>,
                            steps: seq<P.Step>)
  {
    && config.capacity > 0 && P.Run(config, states, steps)
    && forall i :: 0 <= i < |steps| ==> BySearch(limits, world, states[i], steps[i])
  }

  /** These pages and states are a session that ends with the cursor; its last page is the cursor's own. */
  ghost predicate EndsWith(limits: LimitsConfig, world: World, cursor: SearchCursorData, pages: seq<ScannedPage>,
                           states: seq<SearchCursorData>)
  {
    && states != [] && states[|states| - 1] == cursor
    && Search.Session(cursor.query, limits, world(cursor.candidates), cursor.candidates, pages, states)
  }

  ghost predicate InSession(limits: LimitsConfig, world: World, cursor: SearchCursorData) {
    && Known(limits, world, cursor)
    && exists pages: seq<ScannedPage>, states: seq<SearchCursorData> :: EndsWith(limits, world, cursor, pages, states)
  }

  ghost predicate AllInSession(limits: LimitsConfig, world: World, s: P.System) {
    forall t :: t in s.store.entries ==> InSession(limits, world, s.store.entries[t].data)
  }

  /** A first cursor is a session of its own. */
  lemma FirstInSession(limits: LimitsConfig, world: World, data: SearchCursorData)
    requires Known(limits, world, data)
    requires Search.StoredAfter(data.query, data.candidates, NO_USAGE,
                                Page(data.query, limits, world(data.candidates), None), data)
    ensures InSession(limits, world, data)
  {
    hide Page, Search.StoredAfter, Known;
    var first := Page(data.query, limits, world(data.candidates), None);
    assert Search.Session(data.query, limits, world(data.candidates), data.candidates, [first], []);
    Counters.SessionGrows(data.query, limits, world(data.candidates), data.candidates, [first], [], data);
    assert EndsWith(limits, world, data, [first] + [PageFor(limits, world, data)], [] + [data]);
  }

  /** What a search stores behind a cursor's page carries the session on. */
  lemma NextInSession(limits: LimitsConfig, world: World, cursor: SearchCursorData, next: SearchCursorData)
    requires InSession(limits, world, cursor)
    requires Search.StoredAfter(cursor.query, cursor.candidates, cursor.usage, PageFor(limits, world, cursor), next)
    ensures InSession(limits, world, next)
  {
    hide Page, Search.StoredAfter, Search.Session, Search.Storable, Search.Freezes, QueryBinding.Valid,
         PageFacts.DistinctIndexes;
    var pages: seq<ScannedPage>, states: seq<SearchCursorData> :| EndsWith(limits, world, cursor, pages, states);
    SameQuery(cursor, PageFor(limits, world, cursor), next);
    var frozen := world(cursor.candidates);
    Search.SessionBounds(cursor.query, limits, frozen, cursor.candidates, pages, states);
    Search.SessionNext(cursor.query, limits, frozen, cursor.candidates, pages, states, |states| - 1);
    Counters.SessionGrows(cursor.query, limits, frozen, cursor.candidates, pages, states, next);
    assert EndsWith(limits, world, next, pages + [PageFor(limits, world, next)], states + [next]);
  }

  lemma SameQuery(cursor: SearchCursorData, page: ScannedPage, next: SearchCursorData)
    requires Search.StoredAfter(cursor.query, cursor.candidates, cursor.usage, page, next)
    ensures next.query == cursor.query && next.candidates == cursor.candidates
  {
  }

  lemma StepKeepsSessions(limits: LimitsConfig, world: World, config: P.Config, s: P.System, step: P.Step)
    requires P.Inv(config, s) && P.Enabled(s, step) && BySearch(limits, world, s, step)
    requires AllInSession(limits, world, s)
    ensures AllInSession(limits, world, P.Next(config, s, step))
  {
    hide InSession, Page, Search.StoredAfter, P.Next, Known, SearchCursorData.Valid, CursorStore.WellFormed, PageFor;
    P.EntriesComeFrom(config, s, step);
    if step.InsertStep? {
      FirstInSession(limits, world, step.data);
    } else if step.CommitStep? && step.next.Some? {
      assert P.Recorded(s, step.leaseId);
      NextInSession(limits, world, s.leases[step.leaseId].data, step.next.value);
    }
  }

  /** In every state of such a run every stored cursor is the last state of a session. */
  lemma {:induction false} EveryRunKeepsSessions(limits: LimitsConfig, world: World, config: P.Config,
                                                 states: seq<P.System>, steps: seq<P.Step>, i: nat)
    requires SearchRun(limits, world, config, states, steps) && i < |states|
    ensures AllInSession(limits, world, states[i])
  {
    hide P.Next, P.Inv, InSession, BySearch;
    if i == 0 {
    } else {
      EveryRunKeepsSessions(limits, world, config, states, steps, i - 1);
      P.EveryRunKeepsInv(config, states, steps, i - 1);
      assert BySearch(limits, world, states[i - 1], steps[i - 1]);
      StepKeepsSessions(limits, world, config, states[i - 1], steps[i - 1]);
      assert states[i - 1 + 1] == P.Next(config, states[i - 1], steps[i - 1]);
    }
  }

  /**
   Pagination is exact for every lease holder, whatever other callers do at the same time: the page of its cursor
   is the last page of a session, which returns the sorted list of all matches from its beginning without gap or
   repetition, and the whole of it when that page is complete.
   */
  lemma LeasedPageIsExact(limits: LimitsConfig, world: World, config: P.Config, states: seq<P.System>,
                          steps: seq<P.Step>, i: nat, leaseId: CursorStore.LeaseId)
    returns (pages: seq<ScannedPage>, chain: seq<SearchCursorData>)
    requires SearchRun(limits, world, config, states, steps) && i < |states| && leaseId in states[i].leases
    ensures var cursor := states[i].leases[leaseId].data;
            var frozen := world(cursor.candidates);
            var all, shown := Pagination.AllResults(cursor.query, limits, frozen), Pagination.Returned(pages);
            && EndsWith(limits, world, cursor, pages, chain)
            && pages != [] && pages[|pages| - 1] == PageFor(limits, world, cursor)
            && |shown| <= |all| && Pagination.Shows(shown, all[..|shown|])
            && Pagination.PartsShown(pages, all, limits.maxReturnedContentBytes)
            && (PageFor(limits, world, cursor).stopReason == QueryPageStopReason.Complete ==> |shown| == |all|)
  {
    hide Page, Search.Session, Search.Storable, Search.Freezes, QueryBinding.Valid, LimitsConfig.Valid, P.Inv,
         PageFacts.DistinctIndexes, Pagination.AllResults, Pagination.Shows, Pagination.PartsShown, Pagination.Returned,
         SearchRun;
    var cursor := states[i].leases[leaseId].data;
    LeaseInSession(limits, world, config, states, steps, i, leaseId);
    pages, chain :| EndsWith(limits, world, cursor, pages, chain);
    var frozen := world(cursor.candidates);
    Search.SessionBounds(cursor.query, limits, frozen, cursor.candidates, pages, chain);
    Search.SessionNext(cursor.query, limits, frozen, cursor.candidates, pages, chain, |chain| - 1);
    Search.SessionIsExact(cursor.query, limits, frozen, cursor.candidates, pages, chain);
  }

  lemma LeaseInSession(limits: LimitsConfig, world: World, config: P.Config, states: seq<P.System>,
                       steps: seq<P.Step>, i: nat, leaseId: CursorStore.LeaseId)
    requires SearchRun(limits, world, config, states, steps) && i < |states| && leaseId in states[i].leases
    ensures InSession(limits, world, states[i].leases[leaseId].data)
  {
    hide InSession, BySearch, P.Next, CursorStore.WellFormed;
    EveryRunKeepsSessions(limits, world, config, states, steps, i);
    P.EveryRunKeepsInv(config, states, steps, i);
    assert P.Recorded(states[i], leaseId);
  }
}
