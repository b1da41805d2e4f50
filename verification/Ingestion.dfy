/** `IndexerIngestionService.ingest` of src/indexer/ingestion.ts over the in-memory store:
    reorgs found in a batch roll the store back before the batch is inserted. Ingests run one
    after the other. */
module Ingestion {
  import opened Numbers
  import opened Options
  import opened EventStore
  import opened CursorWalk
  import opened RateLimiter

  const MAX_EVENTS_PER_BATCH := 100
  const REORG_CLEAR_DISTANCE := 5

  /** A request body: one that is no batch of well-formed events, or its events in order. */
  datatype Body = Malformed | Batch(events: seq<Event>)

  datatype Answer =
    | Ingested(insertedEventIds: seq<nat>, duplicateEventIds: seq<nat>)
    | Unavailable
    | TooManyRequests
    | Invalid
    | Conflict

  // ----- Reorgs -----

  predicate HasLedger(events: seq<Event>, l: int) { exists i :: 0 <= i < |events| && events[i].ledger == l }

  /** The batch's first event of the ledger disagrees with the store about its hash. */
  predicate Conflicts(records: seq<Event>, events: seq<Event>, l: int) {
    && HasLedger(events, l)
    && HashAt(records, l).Some? && HashAt(records, l).value != ""
    && HashAt(records, l) != HashAt(events, l)
  }

  /** `fork` is the lowest conflicting ledger of the batch and `kept` everything below it; without a conflict
      there is no fork and everything is kept. */
  ghost predicate Survives(records: seq<Event>, events: seq<Event>, fork: Option<int>, kept: seq<Event>) {
    match fork
    case None => kept == records && forall l :: !Conflicts(records, events, l)
    case Some(m) =>
      && Conflicts(records, events, m) && (forall l :: l < m ==> !Conflicts(records, events, l))
      && kept == Where(records, [LedgerBelow(m)])
  }

  /** The same, for the conflicts among the ledgers handled so far. */
  ghost predicate SurvivesAmong(records: seq<Event>, events: seq<Event>, handled: seq<int>, fork: Option<int>, kept: seq<Event>) {
    match fork
    case None => kept == records && forall l :: l in handled ==> !Conflicts(records, events, l)
    case Some(m) =>
      && m in handled && Conflicts(records, events, m)
      && (forall l :: l in handled && l < m ==> !Conflicts(records, events, l))
      && kept == Where(records, [LedgerBelow(m)])
  }

  lemma {:induction false} HashOfLedger(records: seq<Event>, l: int)
    ensures HashAt(records, l).Some? <==> HasLedger(records, l)
    ensures HashAt(records, l).Some? ==> exists e :: e in records && e.ledger == l && e.ledgerHash == HashAt(records, l).value
  {
    if records != [] {
      var n := |records| - 1;
      HashOfLedger(records[..n], l);
      assert records == records[..n] + [records[n]];
      if HasLedger(records[..n], l) {
        var i :| 0 <= i < |records[..n]| && records[..n][i].ledger == l;
        assert records[i].ledger == l;
      }
      if HasLedger(records, l) && records[n].ledger != l {
        var i :| 0 <= i < |records| && records[i].ledger == l;
        assert records[..n][i].ledger == l;
      }
    }
  }

  /** Rolling back leaves the hashes below the fork and none at or above it. */
  lemma {:induction false} HashBelow(records: seq<Event>, m: int, l: int)
    ensures HashAt(Where(records, [LedgerBelow(m)]), l) == if l < m then HashAt(records, l) else None
  {
    if records != [] {
      var n := |records| - 1;
      HashBelow(records[..n], m, l);
      HoldsOne(LedgerBelow(m), records[n]);
      var before := Where(records[..n], [LedgerBelow(m)]);
      if records[n].ledger < m {
        assert Where(records, [LedgerBelow(m)]) == before + [records[n]];
        assert (before + [records[n]])[..|before|] == before;
      } else {
        assert Where(records, [LedgerBelow(m)]) == before;
      }
    }
  }

  lemma {:induction false} BelowBelow(records: seq<Event>, m: int, l: int)
    requires l <= m
    ensures Where(Where(records, [LedgerBelow(m)]), [LedgerBelow(l)]) == Where(records, [LedgerBelow(l)])
  {
    if records != [] {
      var n := |records| - 1;
      BelowBelow(records[..n], m, l);
      HoldsOne(LedgerBelow(m), records[n]);
      HoldsOne(LedgerBelow(l), records[n]);
      if records[n].ledger < m {
        WhereAppend(Where(records[..n], [LedgerBelow(m)]), records[n], [LedgerBelow(l)]);
      } else {
        assert Where(records, [LedgerBelow(m)]) == Where(records[..n], [LedgerBelow(m)]);
        assert Where(records, [LedgerBelow(l)]) == Where(records[..n], [LedgerBelow(l)]);
      }
    }
  }

  /** One turn of the loop over the batch's ledgers. */
  lemma HandleLedger(records: seq<Event>, events: seq<Event>, handled: seq<int>, fork: Option<int>, kept: seq<Event>, l: int)
    requires SurvivesAmong(records, events, handled, fork, kept) && HasLedger(events, l)
    ensures Conflicts(kept, events, l) ==> SurvivesAmong(records, events, handled + [l], Some(l), Where(kept, [LedgerBelow(l)]))
    ensures !Conflicts(kept, events, l) ==> SurvivesAmong(records, events, handled + [l], fork, kept)
  {
    hide HashAt, Where, HasLedger;
    assert l in handled + [l];
    if fork.Some? {
      HashBelow(records, fork.value, l);
      assert fork.value in handled + [l];
      if Conflicts(kept, events, l) {
        BelowBelow(records, fork.value, l);
      }
    }
  }

  lemma AllHandled(records: seq<Event>, events: seq<Event>, handled: seq<int>, fork: Option<int>, kept: seq<Event>)
    requires SurvivesAmong(records, events, handled, fork, kept)
    requires forall l :: HasLedger(events, l) ==> l in handled
    ensures Survives(records, events, fork, kept)
  {
    hide HashAt, Where, HasLedger;
  }

  /** Which old records survive does not depend on the order of the batch's events, only on each ledger's
      first hash. */
  lemma SurvivorsIgnoreOrder(records: seq<Event>, a: seq<Event>, b: seq<Event>,
                             forkA: Option<int>, keptA: seq<Event>, forkB: Option<int>, keptB: seq<Event>)
    requires forall l :: HashAt(a, l) == HashAt(b, l)
    requires Survives(records, a, forkA, keptA) && Survives(records, b, forkB, keptB)
    ensures forkA == forkB && keptA == keptB
  {
    forall l ensures Conflicts(records, a, l) <==> Conflicts(records, b, l) {
      HashOfLedger(a, l);
      HashOfLedger(b, l);
    }
    hide Conflicts;
  }

  /** A batch with one hash per ledger has the same first hashes in every order. */
  lemma FirstHashesIgnoreOrder(a: seq<Event>, b: seq<Event>, l: int)
    requires OneHash(a) && forall e :: e in a <==> e in b
    ensures HashAt(a, l) == HashAt(b, l)
  {
    hide HasLedger;
    HashOfLedger(a, l);
    HashOfLedger(b, l);
    if HasLedger(a, l) {
      SameFirstHash(a, b, l);
    }
    if HasLedger(b, l) {
      SameFirstHash(b, a, l);
    }
  }

  lemma SameFirstHash(a: seq<Event>, b: seq<Event>, l: int)
    requires OneHash(a) && HasLedger(a, l) && forall e :: e in a <==> e in b
    ensures HashAt(a, l) == HashAt(b, l)
  {
    var i :| 0 <= i < |a| && a[i].ledger == l;
    assert a[i] in a && a[i] in b;
    OneHashAt(a, a[i]);
    OneHashAt(b, a[i]);
  }

  // ----- One hash per ledger -----

  ghost predicate OneHash(records: seq<Event>) {
    forall d, e :: d in records && e in records && d.ledger == e.ledger ==> d.ledgerHash == e.ledgerHash
  }

  ghost predicate Hashed(records: seq<Event>) { forall e :: e in records ==> e.ledgerHash != "" }

  lemma OneHashAt(records: seq<Event>, e: Event)
    requires OneHash(records) && e in records
    ensures HashAt(records, e.ledger) == Some(e.ledgerHash)
  {
    var i :| 0 <= i < |records| && records[i] == e;
    assert HasLedger(records, e.ledger);
    HashOfLedger(records, e.ledger);
  }

  /** A batch in which each ledger has one hash leaves the store with one hash per ledger. */
  lemma IngestKeepsOneHash(records: seq<Event>, events: seq<Event>, fork: Option<int>, kept: seq<Event>)
    requires OneHash(records) && Hashed(records) && OneHash(events) && Hashed(events) && Survives(records, events, fork, kept)
    ensures OneHash(kept + Fresh(kept, events)) && Hashed(kept + Fresh(kept, events))
  {
    hide HashAt, Where, HasLedger, Fresh;
    InsertKeepsAndAdds(kept, events);
    SurvivorsAgree(records, events, fork, kept);
    var added := Fresh(kept, events);
    var after := kept + added;
    forall d, e | d in after && e in after && d.ledger == e.ledger ensures d.ledgerHash == e.ledgerHash {
      assert d in kept || d in added;
      assert e in kept || e in added;
    }
  }

  /** A surviving record and an event of the batch at the same ledger have the same hash. */
  lemma SurvivorsAgree(records: seq<Event>, events: seq<Event>, fork: Option<int>, kept: seq<Event>)
    requires OneHash(records) && Hashed(records) && OneHash(events) && Survives(records, events, fork, kept)
    ensures OneHash(kept) && Hashed(kept)
    ensures forall d, e :: d in kept && e in events && d.ledger == e.ledger ==> d.ledgerHash == e.ledgerHash
  {
    hide Where, HashAt;
    forall d | d in kept ensures d in records && !Conflicts(records, events, d.ledger) {
      SurvivorUnconflicted(records, events, fork, kept, d);
    }
    forall d, e | d in kept && e in events && d.ledger == e.ledger ensures d.ledgerHash == e.ledgerHash {
      OneHashAt(records, d);
      OneHashAt(events, e);
      var i :| 0 <= i < |events| && events[i] == e;
      assert HasLedger(events, e.ledger);
    }
  }

  lemma SurvivorUnconflicted(records: seq<Event>, events: seq<Event>, fork: Option<int>, kept: seq<Event>, d: Event)
    requires Survives(records, events, fork, kept) && d in kept
    ensures d in records && !Conflicts(records, events, d.ledger)
  {
    hide Where, Conflicts;
    if fork.Some? {
      WhereKeeps(records, [LedgerBelow(fork.value)]);
      HoldsOne(LedgerBelow(fork.value), d);
    }
  }

  /** For a batch of new ids the condition is exact. */
  lemma NewBatchKeepsOneHash(records: seq<Event>, events: seq<Event>, fork: Option<int>, kept: seq<Event>)
    requires OneHash(records) && Hashed(records) && Hashed(events) && Survives(records, events, fork, kept)
    requires UniqueIds(events) && forall i :: 0 <= i < |events| ==> !HasId(records, events[i].eventId)
    ensures OneHash(kept + Fresh(kept, events)) <==> OneHash(events)
  {
    hide HashAt, Where, HasLedger, Fresh, OneHash, Hashed, Conflicts;
    forall i | 0 <= i < |events| ensures !HasId(kept, events[i].eventId) {
      if HasId(kept, events[i].eventId) {
        var j :| 0 <= j < |kept| && kept[j].eventId == events[i].eventId;
        SurvivorUnconflicted(records, events, fork, kept, kept[j]);
        CursorFound(records, kept[j]);
      }
    }
    AllFresh(kept, events);
    if OneHash(events) {
      IngestKeepsOneHash(records, events, fork, kept);
    }
    if OneHash(kept + events) {
      OneHashPart(kept, events);
    }
  }

  lemma OneHashPart(kept: seq<Event>, events: seq<Event>)
    requires OneHash(kept + events)
    ensures OneHash(events)
  {
    assert forall e :: e in events ==> e in kept + events;
  }

  lemma {:induction false} AllFresh(records: seq<Event>, events: seq<Event>)
    requires UniqueIds(events) && forall i :: 0 <= i < |events| ==> !HasId(records, events[i].eventId)
    ensures Fresh(records, events) == events
  {
    if events != [] {
      var n := |events| - 1;
      AllFresh(records, events[..n]);
      assert events == events[..n] + [events[n]];
      assert !HasId(events[..n], events[n].eventId);
    }
  }

  /** A series of ingests from an empty store, each batch reorganising and extending what the one before left. */
  ghost predicate IngestRun(stores: seq<seq<Event>>, batches: seq<seq<Event>>) {
    && |stores| == |batches| + 1 && stores[0] == []
    && forall k: nat :: k < |batches| ==> IngestStep(stores[k], batches[k], stores[k + 1])
  }

  ghost predicate IngestStep(records: seq<Event>, events: seq<Event>, after: seq<Event>) {
    exists fork, kept :: Survives(records, events, fork, kept) && after == kept + Fresh(kept, events)
  }

  /** Whatever reorgs occur, no stored ledger ever has two hashes, as long as no batch gives one two. */
  lemma {:induction false} EveryIngestRunHasOneHash(stores: seq<seq<Event>>, batches: seq<seq<Event>>, k: nat)
    requires IngestRun(stores, batches) && k < |stores|
    requires forall b :: b in batches ==> OneHash(b) && Hashed(b)
    ensures OneHash(stores[k]) && Hashed(stores[k])
  {
    hide OneHash, Hashed, Survives, Fresh;
    if k == 0 {
      EmptyHasOneHash();
    } else {
      EveryIngestRunHasOneHash(stores, batches, k - 1);
      var batch := batches[k - 1];
      assert batch in batches;
      assert IngestStep(stores[k - 1], batches[k - 1], stores[k - 1 + 1]);
      var fork, kept :| Survives(stores[k - 1], batch, fork, kept) && stores[k] == kept + Fresh(kept, batch);
      IngestKeepsOneHash(stores[k - 1], batch, fork, kept);
    }
  }

  lemma EmptyHasOneHash()
    ensures OneHash([]) && Hashed([])
  {
  }

  // ----- The service -----

  predicate DistinctIds(events: seq<Event>) { forall i, j :: 0 <= i < j < |events| ==> events[i].eventId != events[j].eventId }

  /** The greatest ledger of a non-empty batch. */
  ghost predicate Greatest(events: seq<Event>, m: int) { HasLedger(events, m) && forall e :: e in events ==> e.ledger <= m }

  /** The reorg the service still reports after a batch that reached ledger `top`. */
  function ReorgAfter(before: Option<int>, fork: Option<int>, top: int): Option<int> {
    var height := if fork.Some? then fork else before;
    if height.Some? && top > height.value + REORG_CLEAR_DISTANCE then None else height
  }

  class IndexerIngestionService {
    const store: InMemoryContractEventStore
    const limiter: IngestRateLimiter
    var healthy: bool
    var acceptedBatchCount: nat
    var acceptedEventCount: nat
    var duplicateEventCount: nat
    var lastSafeLedger: int
    var reorgHeight: Option<int>      // set while reorgDetected is

    constructor (store: InMemoryContractEventStore, limiter: IngestRateLimiter)
      ensures this.store == store && this.limiter == limiter && healthy && reorgHeight == None && lastSafeLedger == 0
      ensures acceptedBatchCount == acceptedEventCount == duplicateEventCount == 0
    {
      this.store, this.limiter, healthy, reorgHeight := store, limiter, true, None;
      lastSafeLedger, acceptedBatchCount, acceptedEventCount, duplicateEventCount := 0, 0, 0, 0;
    }

    /** `fork` and `kept` tell what the reorgs found in the batch left of the store. The insert may fail after
        the rollback has been applied; it is then not undone. */
    method Ingest(actor: string, body: Body, now: int, insertFails: bool)
      returns (r: Answer, ghost fork: Option<int>, ghost kept: seq<Event>)
      requires store.Valid() && limiter.Valid() && limiter.clock <= now
      modifies this, store, limiter
      ensures store.Valid() && limiter.Valid()
      ensures !old(healthy) ==> r == Unavailable && unchanged(this) && unchanged(store) && unchanged(limiter)
      ensures r == TooManyRequests <==>
        old(healthy) && |Young(HistoryOf(old(limiter.history), actor), now)| >= MAX_RATE_LIMIT_REQUESTS
      ensures r.TooManyRequests? || r.Invalid? || r.Conflict? ==> unchanged(this) && unchanged(store)
      ensures old(healthy) && !r.TooManyRequests? ==>
        && (r.Invalid? <==> body.Malformed? || !(1 <= |body.events| <= MAX_EVENTS_PER_BATCH))
        && (r.Conflict? <==> !r.Invalid? && !DistinctIds(body.events))
      ensures old(healthy) && !r.TooManyRequests? && !r.Invalid? && !r.Conflict? ==>
        && Survives(old(store.records), body.events, fork, kept)
        && (if insertFails then
              r == Unavailable && store.records == kept && acceptedBatchCount == old(acceptedBatchCount)
              && acceptedEventCount == old(acceptedEventCount) && lastSafeLedger == old(lastSafeLedger)
            else
              && store.records == kept + Fresh(kept, body.events)
              && r == Ingested(Ids(Fresh(kept, body.events)), Ids(Stale(kept, body.events)))
              && acceptedBatchCount == old(acceptedBatchCount) + 1
              && acceptedEventCount == old(acceptedEventCount) + |Fresh(kept, body.events)|
              && duplicateEventCount == old(duplicateEventCount) + |Stale(kept, body.events)|
              && exists top :: Greatest(body.events, top) && lastSafeLedger == Max(old(lastSafeLedger), top - 1)
                               && reorgHeight == ReorgAfter(old(reorgHeight), fork, top))
    {
      hide Young, HashAt, Fresh, Stale, Survives;
      fork, kept := None, [];
      if !healthy {
        return Unavailable, None, [];
      }
      var admitted := limiter.EnforceRateLimit(actor, now);
      if !admitted {
        return TooManyRequests, None, [];
      }
      if body.Malformed? || |body.events| < 1 || |body.events| > MAX_EVENTS_PER_BATCH {
        return Invalid, None, [];
      }
      if !DistinctIds(body.events) {
        return Conflict, None, [];
      }
      fork := RollBackReorgs(body.events);
      kept := store.records;
      if insertFails {
        return Unavailable, fork, kept;
      }
      var inserted, duplicates := store.InsertMany(body.events);
      var maxLedger := MaxLedger(body.events);
      acceptedBatchCount := acceptedBatchCount + 1;
      acceptedEventCount := acceptedEventCount + |inserted|;
      duplicateEventCount := duplicateEventCount + |duplicates|;
      lastSafeLedger := Max(lastSafeLedger, maxLedger - 1);
      if reorgHeight.Some? && maxLedger > reorgHeight.value + REORG_CLEAR_DISTANCE {
        reorgHeight := None;
      }
      return Ingested(inserted, duplicates), fork, kept;
    }

    /** The loop over the batch's ledgers, in the order in which they first occur. */
    method RollBackReorgs(events: seq<Event>) returns (ghost fork: Option<int>)
      requires store.Valid()
      modifies this`reorgHeight, store
      ensures store.Valid() && Survives(old(store.records), events, fork, store.records)
      ensures reorgHeight == if fork.Some? then fork else old(reorgHeight)
    {
      hide HashAt, Where, Survives;
      var ledgers := LedgersOf(events);
      ghost var records := store.records;
      fork := None;
      for i := 0 to |ledgers|
        invariant store.Valid() && SurvivesAmong(records, events, ledgers[..i], fork, store.records)
        invariant reorgHeight == if fork.Some? then fork else old(reorgHeight)
      {
        var ledger := ledgers[i];
        var incomingHash := HashAt(events, ledger);
        var existingHash := store.GetLedgerHash(ledger);
        HandleLedger(records, events, ledgers[..i], fork, store.records, ledger);
        assert ledgers[..i + 1] == ledgers[..i] + [ledger];
        if existingHash.Some? && existingHash.value != "" && existingHash != incomingHash {
          reorgHeight := Some(ledger);
          fork := Some(ledger);
          store.RollbackBeforeLedger(ledger);
        }
      }
      assert ledgers[..|ledgers|] == ledgers;
      AllHandled(records, events, ledgers, fork, store.records);
    }

    method LedgersOf(events: seq<Event>) returns (ledgers: seq<int>)
      ensures forall l :: HasLedger(events, l) <==> l in ledgers
    {
      ledgers := [];
      for i := 0 to |events|
        invariant forall l :: l in ledgers <==> exists k :: 0 <= k < i && events[k].ledger == l
      {
        if events[i].ledger !in ledgers {
          ledgers := ledgers + [events[i].ledger];
        }
      }
    }

    method MaxLedger(events: seq<Event>) returns (m: int)
      requires events != []
      ensures Greatest(events, m)
    {
      m := events[0].ledger;
      for i := 1 to |events|
        invariant HasLedger(events, m) && forall k :: 0 <= k < i ==> events[k].ledger <= m
      {
        m := Max(m, events[i].ledger);
      }
    }
  }
}
