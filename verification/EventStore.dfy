/** The contract event stores of store.ts: idempotent insert, reorg rollback, and filtered pages
    with a cursor, in memory and as a SQL query. Event ids are given by their rank in the order
    both stores sort by, and times in milliseconds. */
module EventStore {
  import opened Numbers
  import opened Options
  import opened Sorting

  const DEFAULT_LIMIT := 100
  const MAX_LIMIT := 1000

  datatype Event = Event(eventId: nat, ledger: int, ledgerHash: string, contractId: string, topic: string, happenedAt: int)

  datatype Filter = Filter(fromLedger: Option<int>, toLedger: Option<int>, contractId: Option<string>, topic: Option<string>,
                           fromHappenedAt: Option<int>, toHappenedAt: Option<int>,
                           afterEventId: Option<nat>, limit: Option<nat>, offset: Option<nat>)

  datatype Page =
    | Page(events: seq<Event>, total: nat, limit: nat, offset: nat, nextCursor: Option<nat>)
    | StaleCursor(afterEventId: nat)

  datatype Reorg = Reorg(forkLedger: int, evictedHash: string, removedEventIds: seq<nat>)

  function EventKey(e: Event): Key { Key(e.ledger, e.eventId) }

  ghost predicate UniqueIds(records: seq<Event>) {
    forall i, j :: 0 <= i < j < |records| ==> records[i].eventId != records[j].eventId
  }

  function Ids(records: seq<Event>): seq<nat> { seq(|records|, i requires 0 <= i < |records| => records[i].eventId) }

  predicate HasId(records: seq<Event>, id: nat) { exists i :: 0 <= i < |records| && records[i].eventId == id }

  // ----- Selecting rows -----

  datatype Condition =
    | LedgerAtLeast(ledger: int)
    | LedgerAtMost(ledger: int)
    | LedgerBelow(ledger: int)
    | ContractIs(contractId: string)
    | TopicIs(topic: string)
    | HappenedFrom(time: int)
    | HappenedUntil(time: int)
    | AfterKey(ledger: int, eventId: nat)

  predicate Holds(c: Condition, e: Event) {
    match c
    case LedgerAtLeast(l) => e.ledger >= l
    case LedgerAtMost(l) => e.ledger <= l
    case LedgerBelow(l) => e.ledger < l
    case ContractIs(id) => e.contractId == id
    case TopicIs(topic) => e.topic == topic
    case HappenedFrom(t) => e.happenedAt >= t
    case HappenedUntil(t) => e.happenedAt <= t
    case AfterKey(l, id) => e.ledger > l || (e.ledger == l && e.eventId > id)
  }

  predicate AllHold(conditions: seq<Condition>, e: Event) { forall i :: 0 <= i < |conditions| ==> Holds(conditions[i], e) }

  /** The rows that meet every condition, in the order given. */
  function Where(s: seq<Event>, conditions: seq<Condition>): seq<Event> {
    if s == [] then []
    else Where(s[..|s| - 1], conditions) + if AllHold(conditions, s[|s| - 1]) then [s[|s| - 1]] else []
  }

  lemma {:induction false} WhereKeeps(s: seq<Event>, conditions: seq<Condition>)
    ensures forall e :: e in Where(s, conditions) <==> e in s && AllHold(conditions, e)
  {
    hide AllHold;
    if s != [] {
      WhereKeeps(s[..|s| - 1], conditions);
      assert s == s[..|s| - 1] + [s[|s| - 1]];
    }
  }

  lemma {:induction false} WhereAscends(s: seq<Event>, conditions: seq<Condition>)
    requires Ascending(s, EventKey)
    ensures Ascending(Where(s, conditions), EventKey)
  {
    hide AllHold;
    if s != [] {
      var n := |s| - 1;
      var before := Where(s[..n], conditions);
      WhereAscends(s[..n], conditions);
      WhereKeeps(s[..n], conditions);
      forall i | 0 <= i < |before| ensures Before(EventKey(before[i]), EventKey(s[n])) {
        assert before[i] in s[..n];
      }
    }
  }

  lemma {:induction false} WhereUnique(s: seq<Event>, conditions: seq<Condition>)
    requires UniqueIds(s)
    ensures UniqueIds(Where(s, conditions))
  {
    hide AllHold;
    if s != [] {
      var n := |s| - 1;
      var before := Where(s[..n], conditions);
      WhereUnique(s[..n], conditions);
      WhereKeeps(s[..n], conditions);
      forall i | 0 <= i < |before| ensures before[i].eventId != s[n].eventId {
        assert before[i] in s[..n];
      }
    }
  }

  lemma WhereAppend(s: seq<Event>, e: Event, conditions: seq<Condition>)
    ensures Where(s + [e], conditions) == Where(s, conditions) + if AllHold(conditions, e) then [e] else []
  {
    hide AllHold;
    assert (s + [e])[..|s|] == s;
  }

  lemma {:induction false} WhereThen(s: seq<Event>, conditions: seq<Condition>, c: Condition)
    ensures Where(Where(s, conditions), [c]) == Where(s, conditions + [c])
  {
    hide AllHold;
    if s != [] {
      var n := |s| - 1;
      WhereThen(s[..n], conditions, c);
      HoldsThen(conditions, c, s[n]);
      HoldsOne(c, s[n]);
      if AllHold(conditions, s[n]) {
        WhereAppend(Where(s[..n], conditions), s[n], [c]);
      } else {
        assert Where(s, conditions) == Where(s[..n], conditions);
        assert Where(s, conditions + [c]) == Where(s[..n], conditions + [c]);
      }
    }
  }

  lemma HoldsOne(c: Condition, e: Event)
    ensures AllHold([c], e) <==> Holds(c, e)
  {
    assert [c][0] == c;
  }

  lemma HoldsThen(conditions: seq<Condition>, c: Condition, e: Event)
    ensures AllHold(conditions + [c], e) <==> AllHold(conditions, e) && Holds(c, e)
  {
    var all := conditions + [c];
    assert all[|conditions|] == c;
    assert forall i :: 0 <= i < |conditions| ==> all[i] == conditions[i];
  }

  lemma {:induction false} WhereAlways(s: seq<Event>)
    ensures Where(s, []) == s
  {
    if s != [] {
      WhereAlways(s[..|s| - 1]);
    }
  }

  lemma UniqueDistinct(s: seq<Event>)
    requires UniqueIds(s)
    ensures Sorting.Distinct(s, EventKey)
  {
  }

  // ----- What a page shows -----

  predicate Matches(f: Filter, e: Event) {
    && (f.fromLedger.Some? ==> e.ledger >= f.fromLedger.value)
    && (f.toLedger.Some? ==> e.ledger <= f.toLedger.value)
    && (f.contractId.Some? ==> e.contractId == f.contractId.value)
    && (f.topic.Some? ==> e.topic == f.topic.value)
    && (f.fromHappenedAt.Some? ==> e.happenedAt >= f.fromHappenedAt.value)
    && (f.toHappenedAt.Some? ==> e.happenedAt <= f.toHappenedAt.value)
  }

  /** The filter's conditions, in the order in which both stores apply them. */
  function ConditionAt(f: Filter, k: nat): Option<Condition>
    requires k < 6
  {
    if k == 0 then (if f.fromLedger.Some? then Some(LedgerAtLeast(f.fromLedger.value)) else None)
    else if k == 1 then (if f.toLedger.Some? then Some(LedgerAtMost(f.toLedger.value)) else None)
    else if k == 2 then (if f.contractId.Some? then Some(ContractIs(f.contractId.value)) else None)
    else if k == 3 then (if f.topic.Some? then Some(TopicIs(f.topic.value)) else None)
    else if k == 4 then (if f.fromHappenedAt.Some? then Some(HappenedFrom(f.fromHappenedAt.value)) else None)
    else (if f.toHappenedAt.Some? then Some(HappenedUntil(f.toHappenedAt.value)) else None)
  }

  function FirstConditions(f: Filter, k: nat): seq<Condition>
    requires k <= 6
  {
    if k == 0 then []
    else FirstConditions(f, k - 1) + if ConditionAt(f, k - 1).Some? then [ConditionAt(f, k - 1).value] else []
  }

  function ConditionsOf(f: Filter): seq<Condition> { FirstConditions(f, 6) }

  lemma ConditionStep(f: Filter, k: nat)
    requires k < 6
    ensures FirstConditions(f, k + 1)
         == FirstConditions(f, k) + if ConditionAt(f, k).Some? then [ConditionAt(f, k).value] else []
  {
  }

  lemma NarrowStep(s: seq<Event>, f: Filter, k: nat)
    requires k < 6
    ensures Where(s, FirstConditions(f, k + 1))
         == if ConditionAt(f, k).Some? then Where(Where(s, FirstConditions(f, k)), [ConditionAt(f, k).value])
            else Where(s, FirstConditions(f, k))
  {
    hide Where, FirstConditions, ConditionAt;
    ConditionStep(f, k);
    if ConditionAt(f, k).Some? {
      WhereThen(s, FirstConditions(f, k), ConditionAt(f, k).value);
    } else {
      assert FirstConditions(f, k) + [] == FirstConditions(f, k);
    }
  }

  lemma {:induction false} FirstConditionsHold(f: Filter, k: nat, e: Event)
    requires k <= 6
    ensures AllHold(FirstConditions(f, k), e) <==>
            forall j: nat :: j < k && ConditionAt(f, j).Some? ==> Holds(ConditionAt(f, j).value, e)
  {
    hide ConditionAt, Holds, AllHold;
    if k > 0 {
      FirstConditionsHold(f, k - 1, e);
      if ConditionAt(f, k - 1).Some? {
        HoldsThen(FirstConditions(f, k - 1), ConditionAt(f, k - 1).value, e);
      } else {
        assert FirstConditions(f, k) == FirstConditions(f, k - 1);
      }
    } else {
      NothingHolds(e);
    }
  }

  lemma NothingHolds(e: Event)
    ensures AllHold([], e)
  {
  }

  lemma ConditionsMatch(f: Filter, e: Event)
    ensures AllHold(ConditionsOf(f), e) <==> Matches(f, e)
  {
    hide AllHold;
    FirstConditionsHold(f, 6, e);
    var at := [ConditionAt(f, 0), ConditionAt(f, 1), ConditionAt(f, 2), ConditionAt(f, 3), ConditionAt(f, 4), ConditionAt(f, 5)];
    assert forall j: nat :: j < 6 ==> at[j] == ConditionAt(f, j);
  }

  /** The stored events, or those beyond the cursor's key if there is a cursor. */
  ghost predicate Candidate(records: seq<Event>, f: Filter, e: Event) {
    && e in records
    && (f.afterEventId.Some? ==>
          exists c :: c in records && c.eventId == f.afterEventId.value && Before(EventKey(c), EventKey(e)))
  }

  ghost predicate Shown(records: seq<Event>, f: Filter, e: Event) { Candidate(records, f, e) && Matches(f, e) }

  /** `list` is everything the filter shows, ordered by ledger and event id. */
  ghost predicate Listing(records: seq<Event>, f: Filter, list: seq<Event>) {
    && Ascending(list, EventKey)
    && forall e :: e in list <==> Shown(records, f, e)
  }

  function LimitOf(f: Filter): nat { Min(f.limit.GetOr(DEFAULT_LIMIT), MAX_LIMIT) }

  function OffsetOf(f: Filter): nat { if f.afterEventId.Some? then 0 else f.offset.GetOr(0) }

  function Slice(list: seq<Event>, offset: nat, limit: nat): seq<Event> {
    list[Min(offset, |list|)..Min(offset + limit, |list|)]
  }

  /** A page of the listing; the cursor is offered only from a full page when more events match than the limit. */
  ghost predicate Answers(records: seq<Event>, f: Filter, page: Page) {
    if f.afterEventId.Some? && !HasId(records, f.afterEventId.value) then page == StaleCursor(f.afterEventId.value)
    else exists list :: Listing(records, f, list) && IsPage(list, f, page)
  }

  ghost predicate IsPage(list: seq<Event>, f: Filter, page: Page) {
    && page.Page? && page.total == |list| && page.limit == LimitOf(f) && page.offset == OffsetOf(f)
    && page.events == Slice(list, OffsetOf(f), LimitOf(f))
    && page.nextCursor == if |page.events| == page.limit && |list| > page.limit && page.events != []
                          then Some(page.events[|page.events| - 1].eventId) else None
  }

  lemma ListingUnique(records: seq<Event>, rows: seq<Event>, f: Filter, a: seq<Event>, b: seq<Event>)
    requires Listing(records, f, a) && Listing(rows, f, b) && forall e :: e in records <==> e in rows
    ensures a == b
  {
    forall e ensures e in a <==> e in b {
      assert Shown(records, f, e) <==> Shown(rows, f, e);
    }
    AscendingUnique(a, b, EventKey);
  }

  /** Two stores with the same events give the same page, in whatever order they hold them. */
  lemma SamePage(records: seq<Event>, rows: seq<Event>, f: Filter, p: Page, q: Page)
    requires forall e :: e in records <==> e in rows
    requires Answers(records, f, p) && Answers(rows, f, q)
    ensures p == q
  {
    hide Listing, IsPage;
    forall id ensures HasId(records, id) <==> HasId(rows, id) {
      SameIds(records, rows, id);
    }
    if !(f.afterEventId.Some? && !HasId(records, f.afterEventId.value)) {
      var a :| Listing(records, f, a) && IsPage(a, f, p);
      var b :| Listing(rows, f, b) && IsPage(b, f, q);
      ListingUnique(records, rows, f, a, b);
      OnePage(a, f, p, q);
    }
  }

  lemma OnePage(list: seq<Event>, f: Filter, p: Page, q: Page)
    requires IsPage(list, f, p) && IsPage(list, f, q)
    ensures p == q
  {
  }

  lemma SameIds(records: seq<Event>, rows: seq<Event>, id: nat)
    requires forall e :: e in records <==> e in rows
    ensures HasId(records, id) <==> HasId(rows, id)
  {
    if HasId(records, id) {
      var i :| 0 <= i < |records| && records[i].eventId == id;
      assert records[i] in rows;
    }
    if HasId(rows, id) {
      var i :| 0 <= i < |rows| && rows[i].eventId == id;
      assert rows[i] in records;
    }
  }

  // ----- The two stores -----

  method MakePage(results: seq<Event>, total: nat, f: Filter) returns (page: Page)
    requires |results| <= LimitOf(f)
    ensures page.Page? && page.events == results && page.total == total && page.limit == LimitOf(f) && page.offset == OffsetOf(f)
    ensures page.nextCursor == if |results| == LimitOf(f) && total > LimitOf(f) && results != []
                               then Some(results[|results| - 1].eventId) else None
  {
    var nextCursor := if |results| == LimitOf(f) && total > LimitOf(f) && |results| > 0
                      then Some(results[|results| - 1].eventId) else None;
    return Page(results, total, LimitOf(f), OffsetOf(f), nextCursor);
  }

  class InMemoryContractEventStore {
    var records: seq<Event>        // in insertion order
    var reorgLog: seq<Reorg>

    ghost predicate Valid()
      reads this
    {
      UniqueIds(records)
    }

    constructor ()
      ensures Valid() && records == [] && reorgLog == []
    {
      records, reorgLog := [], [];
    }

    method InsertMany(events: seq<Event>) returns (insertedEventIds: seq<nat>, duplicateEventIds: seq<nat>)
      requires Valid()
      modifies this`records
      ensures Valid() && records == old(records) + Fresh(old(records), events)
      ensures insertedEventIds == Ids(Fresh(old(records), events))
      ensures duplicateEventIds == Ids(Stale(old(records), events))
    {
      var staged: seq<Event> := [];
      insertedEventIds, duplicateEventIds := [], [];
      for i := 0 to |events|
        invariant staged == Fresh(records, events[..i])
        invariant insertedEventIds == Ids(staged) && duplicateEventIds == Ids(Stale(records, events[..i]))
      {
        var event := events[i];
        assert events[..i + 1][..i] == events[..i];
        if HasId(records, event.eventId) || HasId(staged, event.eventId) {
          duplicateEventIds := duplicateEventIds + [event.eventId];
        } else {
          staged := staged + [event];
          insertedEventIds := insertedEventIds + [event.eventId];
        }
      }
      assert events[..|events|] == events;
      FreshKeepsUnique(records, events);
      records := records + staged;
    }

    method RollbackBeforeLedger(forkLedger: int)
      requires Valid()
      modifies this
      ensures Valid() && records == Where(old(records), [LedgerBelow(forkLedger)])
      ensures reorgLog == old(reorgLog) + RollbackEntry(old(records), forkLedger)
    {
      hide Where, UniqueIds, HashAt;
      var evictedHash := HashAt(records, forkLedger).GetOr("");
      var removed, kept := Split(records, forkLedger);
      WhereUnique(records, [LedgerBelow(forkLedger)]);
      if removed != [] || evictedHash != "" {
        reorgLog := reorgLog + [Reorg(forkLedger, evictedHash, Ids(removed))];
      }
      records := kept;
    }

    method Split(all: seq<Event>, forkLedger: int) returns (removed: seq<Event>, kept: seq<Event>)
      ensures removed == Where(all, [LedgerAtLeast(forkLedger)]) && kept == Where(all, [LedgerBelow(forkLedger)])
    {
      removed, kept := [], [];
      for i := 0 to |all|
        invariant removed == Where(all[..i], [LedgerAtLeast(forkLedger)])
        invariant kept == Where(all[..i], [LedgerBelow(forkLedger)])
      {
        assert all[..i + 1][..i] == all[..i];
        HoldsOne(LedgerAtLeast(forkLedger), all[i]);
        HoldsOne(LedgerBelow(forkLedger), all[i]);
        if all[i].ledger >= forkLedger {
          removed := removed + [all[i]];
        } else {
          kept := kept + [all[i]];
        }
      }
      assert all[..|all|] == all;
    }

    /** The hash of the first stored record of the ledger. */
    method GetLedgerHash(ledger: int) returns (hash: Option<string>)
      ensures hash == HashAt(records, ledger)
    {
      for i := 0 to |records|
        invariant HashAt(records[..i], ledger) == None
      {
        HashAtExtends(records, i, ledger);
        if records[i].ledger == ledger {
          return Some(records[i].ledgerHash);
        }
        assert records[..i + 1][..i] == records[..i];
      }
      assert records[..|records|] == records;
      return None;
    }

    method GetEvents(f: Filter) returns (page: Page)
      requires Valid()
      ensures Answers(records, f, page)
    {
      hide Answers, Where, ConditionsOf, Ascending, Shown;
      var results := Sort(records, EventKey);
      SortedRecords(records);
      if f.afterEventId.Some? {
        var idx := 0;
        while idx < |results| && results[idx].eventId != f.afterEventId.value
          invariant 0 <= idx <= |results| && forall i :: 0 <= i < idx ==> results[i].eventId != f.afterEventId.value
        {
          idx := idx + 1;
        }
        SameIds(records, results, f.afterEventId.value);
        if idx == |results| {
          StaleAnswer(records, f);
          return StaleCursor(f.afterEventId.value);
        }
        CutShows(records, results, f, idx);
        results := results[idx + 1..];
      }
      var filtered := ApplyFilters(results, f);
      FilteredLists(records, f, results);
      var slice := if f.afterEventId.Some? then Slice(filtered, 0, LimitOf(f))
                   else Slice(filtered, f.offset.GetOr(0), LimitOf(f));
      page := MakePage(slice, |filtered|, f);
      PageAnswers(records, f, filtered, page);
    }

    method ApplyFilters(sorted: seq<Event>, f: Filter) returns (results: seq<Event>)
      ensures results == Where(sorted, ConditionsOf(f))
    {
      hide Where, FirstConditions;
      results := sorted;
      WhereAlways(sorted);
      Unfiltered(f);
      NarrowStep(sorted, f, 0);
      if f.fromLedger.Some? {
        results := Where(results, [LedgerAtLeast(f.fromLedger.value)]);
      }
      assert results == Where(sorted, FirstConditions(f, 1));
      NarrowStep(sorted, f, 1);
      if f.toLedger.Some? {
        results := Where(results, [LedgerAtMost(f.toLedger.value)]);
      }
      assert results == Where(sorted, FirstConditions(f, 2));
      NarrowStep(sorted, f, 2);
      if f.contractId.Some? {
        results := Where(results, [ContractIs(f.contractId.value)]);
      }
      assert results == Where(sorted, FirstConditions(f, 3));
      NarrowStep(sorted, f, 3);
      if f.topic.Some? {
        results := Where(results, [TopicIs(f.topic.value)]);
      }
      assert results == Where(sorted, FirstConditions(f, 4));
      NarrowStep(sorted, f, 4);
      if f.fromHappenedAt.Some? {
        results := Where(results, [HappenedFrom(f.fromHappenedAt.value)]);
      }
      assert results == Where(sorted, FirstConditions(f, 5));
      NarrowStep(sorted, f, 5);
      if f.toHappenedAt.Some? {
        results := Where(results, [HappenedUntil(f.toHappenedAt.value)]);
      }
      assert results == Where(sorted, FirstConditions(f, 6));
    }
  }

  /** `rows` is the table; the event id is its key. */
  class PostgresContractEventStore {
    var rows: seq<Event>

    /** One query for the cursor's ledger, one for the count, one for the page. */
    method GetEvents(f: Filter) returns (page: Page)
      requires UniqueIds(rows)
      ensures Answers(rows, f, page)
    {
      hide Answers, Where, ConditionsOf, Ascending, Shown;
      var conditions := Conditions(f);
      if f.afterEventId.Some? {
        var cursorRow: Option<Event> := None;
        for i := 0 to |rows|
          invariant cursorRow.None? ==> forall j :: 0 <= j < i ==> rows[j].eventId != f.afterEventId.value
          invariant cursorRow.Some? ==> cursorRow.value in rows && cursorRow.value.eventId == f.afterEventId.value
        {
          if rows[i].eventId == f.afterEventId.value {
            cursorRow := Some(rows[i]);
          }
        }
        if cursorRow.None? {
          StaleAnswer(rows, f);
          return StaleCursor(f.afterEventId.value);
        }
        conditions := conditions + [AfterKey(cursorRow.value.ledger, f.afterEventId.value)];
      }
      var total := |Where(rows, conditions)|;
      var ordered := Sort(Where(rows, conditions), EventKey);
      var events := Slice(ordered, if f.afterEventId.Some? then 0 else f.offset.GetOr(0), LimitOf(f));
      page := MakePage(events, total, f);
      QueryLists(rows, f, conditions);
      PageAnswers(rows, f, ordered, page);
    }

    method Conditions(f: Filter) returns (conditions: seq<Condition>)
      ensures conditions == ConditionsOf(f)
    {
      hide FirstConditions;
      conditions := [];
      Unfiltered(f);
      ConditionStep(f, 0);
      if f.fromLedger.Some? {
        conditions := conditions + [LedgerAtLeast(f.fromLedger.value)];
      }
      assert conditions == FirstConditions(f, 1);
      ConditionStep(f, 1);
      if f.toLedger.Some? {
        conditions := conditions + [LedgerAtMost(f.toLedger.value)];
      }
      assert conditions == FirstConditions(f, 2);
      ConditionStep(f, 2);
      if f.contractId.Some? {
        conditions := conditions + [ContractIs(f.contractId.value)];
      }
      assert conditions == FirstConditions(f, 3);
      ConditionStep(f, 3);
      if f.topic.Some? {
        conditions := conditions + [TopicIs(f.topic.value)];
      }
      assert conditions == FirstConditions(f, 4);
      ConditionStep(f, 4);
      if f.fromHappenedAt.Some? {
        conditions := conditions + [HappenedFrom(f.fromHappenedAt.value)];
      }
      assert conditions == FirstConditions(f, 5);
      ConditionStep(f, 5);
      if f.toHappenedAt.Some? {
        conditions := conditions + [HappenedUntil(f.toHappenedAt.value)];
      }
      assert conditions == FirstConditions(f, 6);
    }
  }

  lemma Unfiltered(f: Filter)
    ensures FirstConditions(f, 0) == []
  {
  }

  lemma StaleAnswer(records: seq<Event>, f: Filter)
    requires f.afterEventId.Some? && !HasId(records, f.afterEventId.value)
    ensures Answers(records, f, StaleCursor(f.afterEventId.value))
  {
  }

  lemma PageAnswers(records: seq<Event>, f: Filter, list: seq<Event>, page: Page)
    requires Listing(records, f, list) && IsPage(list, f, page)
    requires f.afterEventId.Some? ==> HasId(records, f.afterEventId.value)
    ensures Answers(records, f, page)
  {
  }

  lemma SortedRecords(records: seq<Event>)
    requires UniqueIds(records)
    ensures Ascending(Sort(records, EventKey), EventKey)
    ensures forall e :: e in records <==> e in Sort(records, EventKey)
  {
    UniqueDistinct(records);
    SortAscends(records, EventKey);
    SortKeeps(records, EventKey);
  }

  /** Cutting the sorted list behind the cursor leaves the events with a greater key. */
  lemma CutShows(records: seq<Event>, sorted: seq<Event>, f: Filter, idx: nat)
    requires Ascending(sorted, EventKey) && idx < |sorted| && forall e :: e in records <==> e in sorted
    requires UniqueIds(records) && f.afterEventId == Some(sorted[idx].eventId)
    ensures Ascending(sorted[idx + 1..], EventKey)
    ensures forall e :: e in sorted[idx + 1..] <==> Candidate(records, f, e)
  {
    var c := sorted[idx];
    var rest := sorted[idx + 1..];
    assert c in records;
    forall e ensures e in rest <==> Candidate(records, f, e) {
      if e in rest {
        var i :| 0 <= i < |rest| && rest[i] == e;
        assert sorted[idx + 1 + i] == e && e in sorted;
      }
      if Candidate(records, f, e) {
        OneWithId(records, f.afterEventId.value, c);
        assert e in sorted;
        var i :| 0 <= i < |sorted| && sorted[i] == e;
        assert i > idx;
        assert rest[i - idx - 1] == e;
      }
    }
  }

  lemma OneWithId(records: seq<Event>, id: nat, c: Event)
    requires UniqueIds(records) && c in records && c.eventId == id
    ensures forall d :: d in records && d.eventId == id ==> d == c
  {
  }

  lemma FilteredLists(records: seq<Event>, f: Filter, candidates: seq<Event>)
    requires Ascending(candidates, EventKey) && forall e :: e in candidates <==> Candidate(records, f, e)
    ensures Listing(records, f, Where(candidates, ConditionsOf(f)))
  {
    hide Ascending, ConditionsOf;
    WhereAscends(candidates, ConditionsOf(f));
    WhereKeeps(candidates, ConditionsOf(f));
    forall e ensures e in Where(candidates, ConditionsOf(f)) <==> Shown(records, f, e) {
      ConditionsMatch(f, e);
    }
  }

  lemma QueryLists(rows: seq<Event>, f: Filter, conditions: seq<Condition>)
    requires UniqueIds(rows)
    requires f.afterEventId.None? ==> conditions == ConditionsOf(f)
    requires f.afterEventId.Some? ==> exists c :: c in rows && c.eventId == f.afterEventId.value
                                                  && conditions == ConditionsOf(f) + [AfterKey(c.ledger, c.eventId)]
    ensures var ordered := Sort(Where(rows, conditions), EventKey);
      Listing(rows, f, ordered) && |ordered| == |Where(rows, conditions)|
  {
    hide Ascending, ConditionsOf, Where, UniqueIds;
    var found := Where(rows, conditions);
    WhereUnique(rows, conditions);
    SortedRecords(found);
    SortPermutes(found, EventKey);
    WhereKeeps(rows, conditions);
    forall e ensures e in found <==> Shown(rows, f, e) {
      ConditionsMatch(f, e);
      if f.afterEventId.Some? {
        var c :| c in rows && c.eventId == f.afterEventId.value
                 && conditions == ConditionsOf(f) + [AfterKey(c.ledger, c.eventId)];
        HoldsThen(ConditionsOf(f), AfterKey(c.ledger, c.eventId), e);
        OneWithId(rows, f.afterEventId.value, c);
      }
    }
  }

  /** The events of a batch whose ids are new, to the store and within the batch. */
  function Fresh(records: seq<Event>, events: seq<Event>): seq<Event> {
    if events == [] then []
    else
      var before := Fresh(records, events[..|events| - 1]);
      var event := events[|events| - 1];
      if HasId(records, event.eventId) || HasId(before, event.eventId) then before else before + [event]
  }

  function Stale(records: seq<Event>, events: seq<Event>): seq<Event> {
    if events == [] then []
    else
      var event := events[|events| - 1];
      Stale(records, events[..|events| - 1])
      + if HasId(records, event.eventId) || HasId(Fresh(records, events[..|events| - 1]), event.eventId) then [event] else []
  }

  /** The hash of the first record of a ledger. */
  function HashAt(records: seq<Event>, ledger: int): Option<string> {
    if records == [] then None
    else
      var before := HashAt(records[..|records| - 1], ledger);
      if before.Some? then before
      else if records[|records| - 1].ledger == ledger then Some(records[|records| - 1].ledgerHash)
      else None
  }

  function RollbackEntry(records: seq<Event>, forkLedger: int): seq<Reorg> {
    var removed := Where(records, [LedgerAtLeast(forkLedger)]);
    var evictedHash := HashAt(records, forkLedger).GetOr("");
    if removed == [] && evictedHash == "" then [] else [Reorg(forkLedger, evictedHash, Ids(removed))]
  }

  lemma HashAtExtends(records: seq<Event>, i: nat, ledger: int)
    requires i < |records| && HashAt(records[..i], ledger) == None
    ensures HashAt(records[..i + 1], ledger) == if records[i].ledger == ledger then Some(records[i].ledgerHash) else None
    ensures HashAt(records[..i + 1], ledger).Some? ==> HashAt(records, ledger) == HashAt(records[..i + 1], ledger)
  {
    assert records[..i + 1][..i] == records[..i];
    if records[i].ledger == ledger {
      HashAtStays(records, i + 1, ledger);
    }
  }

  lemma {:induction false} HashAtStays(records: seq<Event>, i: nat, ledger: int)
    requires i <= |records| && HashAt(records[..i], ledger).Some?
    ensures HashAt(records, ledger) == HashAt(records[..i], ledger)
    decreases |records| - i
  {
    if i < |records| {
      assert records[..i + 1][..i] == records[..i];
      HashAtStays(records, i + 1, ledger);
    } else {
      assert records[..i] == records;
    }
  }

  lemma {:induction false} FreshKeepsUnique(records: seq<Event>, events: seq<Event>)
    requires UniqueIds(records)
    ensures UniqueIds(records + Fresh(records, events))
  {
    if events != [] {
      var before := Fresh(records, events[..|events| - 1]);
      FreshKeepsUnique(records, events[..|events| - 1]);
      var event := events[|events| - 1];
      if !HasId(records, event.eventId) && !HasId(before, event.eventId) {
        assert records + (before + [event]) == (records + before) + [event];
      }
    }
  }
}
