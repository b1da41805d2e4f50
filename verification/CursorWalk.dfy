/** Following nextCursor through the pages of a contract event store (store.ts), with batches
    inserted between the pages but no rollback; and what inserting a batch does to a store. */
module CursorWalk {
  import opened Numbers
  import opened Options
  import opened Sorting
  import opened EventStore

  // ----- insertMany -----

  /** Stored records stay first and unchanged, and every event of the batch is then present under its id. */
  lemma {:induction false} InsertKeepsAndAdds(records: seq<Event>, events: seq<Event>)
    ensures records <= records + Fresh(records, events)
    ensures AllStored(records + Fresh(records, events), events)
    ensures forall e :: e in Fresh(records, events) ==> e in events && !HasId(records, e.eventId)
  {
    if events != [] {
      var n := |events| - 1;
      var before, after := Fresh(records, events[..n]), Fresh(records, events);
      InsertKeepsAndAdds(records, events[..n]);
      forall i | 0 <= i < |events| ensures HasId(records + after, events[i].eventId) {
        if i < n {
          assert events[..n][i] == events[i];
          HasIdMore(records + before, records + after, events[i].eventId);
        } else if HasId(records, events[n].eventId) {
          HasIdMore(records, records + after, events[n].eventId);
        } else if HasId(before, events[n].eventId) {
          var j :| 0 <= j < |before| && before[j].eventId == events[n].eventId;
          assert (records + after)[|records| + j] == before[j];
        } else {
          assert (records + after)[|records| + |before|] == events[n];
        }
      }
    }
  }

  lemma HasIdMore(few: seq<Event>, many: seq<Event>, id: nat)
    requires few <= many && HasId(few, id)
    ensures HasId(many, id)
  {
    var i :| 0 <= i < |few| && few[i].eventId == id;
    assert many[i].eventId == id;
  }

  ghost predicate AllStored(records: seq<Event>, events: seq<Event>) {
    forall i :: 0 <= i < |events| ==> HasId(records, events[i].eventId)
  }

  lemma NothingPlaced(records: seq<Event>)
    ensures Fresh(records, []) == Stale(records, []) == []
  {
  }

  lemma OnePlaced(records: seq<Event>, events: seq<Event>)
    requires events != []
    ensures var n := |events| - 1; var front, e := events[..n], events[n];
      if HasId(records, e.eventId) || HasId(Fresh(records, front), e.eventId)
      then Fresh(records, events) == Fresh(records, front) && Stale(records, events) == Stale(records, front) + [e]
      else Fresh(records, events) == Fresh(records, front) + [e] && Stale(records, events) == Stale(records, front)
  {
    hide HasId;
  }

  /** When every id of a batch is stored already, nothing is inserted and every event is a duplicate. */
  lemma {:induction false} AllDuplicates(records: seq<Event>, events: seq<Event>)
    requires AllStored(records, events)
    ensures Fresh(records, events) == [] && Stale(records, events) == events
  {
    hide *;
    if events == [] {
      NothingPlaced(records);
    } else {
      var n := |events| - 1;
      StoredParts(records, events);
      AllDuplicates(records, events[..n]);
      OnePlaced(records, events);
      assert events == events[..n] + [events[n]];
    }
  }

  lemma StoredParts(records: seq<Event>, events: seq<Event>)
    requires AllStored(records, events) && events != []
    ensures AllStored(records, events[..|events| - 1]) && HasId(records, events[|events| - 1].eventId)
  {
    hide HasId;
  }

  /** Inserting a batch again changes nothing. */
  lemma InsertIdempotent(records: seq<Event>, events: seq<Event>)
    ensures var after := records + Fresh(records, events);
      after + Fresh(after, events) == after && Stale(after, events) == events
  {
    InsertKeepsAndAdds(records, events);
    AllDuplicates(records + Fresh(records, events), events);
  }

  lemma OneMore<T>(a: seq<T>, b: seq<T>, a': seq<T>, b': seq<T>, both: seq<T>)
    requires both != [] && multiset(a) + multiset(b) == multiset(both[..|both| - 1])
    requires var e := both[|both| - 1]; (a' == a + [e] && b' == b) || (a' == a && b' == b + [e])
    ensures multiset(a') + multiset(b') == multiset(both)
  {
    assert both == both[..|both| - 1] + [both[|both| - 1]];
  }

  /** Each event of the batch is reported once, as inserted or as a duplicate. */
  lemma {:induction false} InsertAccounts(records: seq<Event>, events: seq<Event>)
    ensures multiset(Fresh(records, events)) + multiset(Stale(records, events)) == multiset(events)
  {
    hide *;
    if events == [] {
      NothingPlaced(records);
    } else {
      var front := events[..|events| - 1];
      InsertAccounts(records, front);
      OnePlaced(records, events);
      OneMore(Fresh(records, front), Stale(records, front), Fresh(records, events), Stale(records, events), events);
    }
  }

  // ----- The walk -----

  /** The store at each request: it only ever grows, as insertMany makes it grow. */
  ghost predicate Grows(stores: seq<seq<Event>>) {
    && (forall k :: 0 <= k < |stores| ==> UniqueIds(stores[k]))
    && (forall j, k :: 0 <= j < k < |stores| ==> stores[j] <= stores[k])
  }

  function Following(f: Filter, cursor: Option<nat>): Filter { f.(afterEventId := cursor) }

  /** The k-th page answers the request that carries the previous page's cursor. */
  ghost predicate Walk(stores: seq<seq<Event>>, f: Filter, pages: seq<Page>) {
    && |stores| == |pages| > 0 && Grows(stores)
    && f.afterEventId.None? && OffsetOf(f) == 0 && LimitOf(f) >= 1
    && Answers(stores[0], f, pages[0])
    && forall k: nat :: k + 1 < |pages| ==> Continues(stores[k + 1], f, pages[k], pages[k + 1])
  }

  ghost predicate Continues(store: seq<Event>, f: Filter, page: Page, next: Page) {
    page.Page? && page.nextCursor.Some? && Answers(store, Following(f, page.nextCursor), next)
  }

  function Returned(pages: seq<Page>): seq<Event> {
    if pages == [] then []
    else Returned(pages[..|pages| - 1]) + if pages[|pages| - 1].Page? then pages[|pages| - 1].events else []
  }

  /** `returned` holds every matching event of `store` up to `bound`, or every one when the walk has ended. */
  ghost predicate Complete(store: seq<Event>, f: Filter, returned: seq<Event>, bound: Option<Event>) {
    forall e :: e in store && Matches(f, e) && (bound.Some? ==> !Before(EventKey(bound.value), EventKey(e))) ==> e in returned
  }

  /** How far a walk has come: its last page, and the event its cursor names, if it goes on. */
  ghost predicate Reached(first: seq<Event>, store: seq<Event>, f: Filter, returned: seq<Event>, page: Page) {
    && page.Page? && Ascending(returned, EventKey)
    && (forall e :: e in returned ==> e in store && Matches(f, e))
    && (if page.nextCursor.None? then Complete(first, f, returned, None)
        else returned != [] && returned[|returned| - 1].eventId == page.nextCursor.value
             && Complete(first, f, returned, Some(returned[|returned| - 1])))
  }

  /** What a page from offset 0 with a limit of at least 1 holds of its listing. */
  lemma FirstOfListing(list: seq<Event>, f: Filter, page: Page)
    requires IsPage(list, f, page) && OffsetOf(f) == 0 && LimitOf(f) >= 1
    ensures page.events <= list && (page.nextCursor.None? <==> page.events == list)
    ensures page.nextCursor.Some? ==> page.events != [] && page.events[|page.events| - 1].eventId == page.nextCursor.value
    ensures page.events == [] ==> list == []
  {
  }

  lemma FirstPage(store: seq<Event>, f: Filter, page: Page)
    requires UniqueIds(store) && Answers(store, f, page) && f.afterEventId.None? && OffsetOf(f) == 0 && LimitOf(f) >= 1
    ensures Reached(store, store, f, page.events, page)
    ensures page.events != [] || page.nextCursor.None?
  {
    var list :| Listing(store, f, list) && IsPage(list, f, page);
    FirstOfListing(list, f, page);
    assert forall e :: e in page.events ==> e in list;
    forall e | e in store && Matches(f, e) ensures Shown(store, f, e) {
    }
    if page.nextCursor.Some? {
      PrefixComplete(list, page.events, store, f);
    }
  }

  /** A non-empty prefix of an ascending list holds everything in it up to its own last element. */
  lemma PrefixHolds(list: seq<Event>, events: seq<Event>, e: Event)
    requires Ascending(list, EventKey) && events <= list && events != [] && e in list
    requires !Before(EventKey(events[|events| - 1]), EventKey(e))
    ensures e in events
  {
    assert list[|events| - 1] == events[|events| - 1];
    assert forall i :: |events| <= i < |list| ==> Before(EventKey(list[|events| - 1]), EventKey(list[i]));
    var i :| 0 <= i < |list| && list[i] == e;
    assert events[i] == e;
  }

  lemma PrefixComplete(list: seq<Event>, events: seq<Event>, store: seq<Event>, f: Filter)
    requires Ascending(list, EventKey) && events <= list && events != []
    requires forall e :: e in store && Matches(f, e) ==> e in list
    ensures Complete(store, f, events, Some(events[|events| - 1]))
  {
    hide Ascending;
    forall e | e in store && Matches(f, e) && !Before(EventKey(events[|events| - 1]), EventKey(e)) ensures e in events {
      PrefixHolds(list, events, e);
    }
  }

  lemma NextPage(first: seq<Event>, store: seq<Event>, store': seq<Event>, f: Filter, returned: seq<Event>,
                 page: Page, next: Page)
    requires UniqueIds(store') && first <= store' && store <= store' && LimitOf(f) >= 1
    requires Reached(first, store, f, returned, page) && Continues(store', f, page, next)
    ensures next.Page? && Reached(first, store', f, returned + next.events, next)
    ensures next.events != [] || next.nextCursor.None?
  {
    hide Ascending, UniqueIds, IsPage, Answers;
    var last := returned[|returned| - 1];
    assert last in returned && last in store && last in store';
    var list := ListingAfter(store', f, last, page.nextCursor, next);
    FollowingPage(list, f, page, next);
    JoinAscends(returned, next.events, list);
    assert forall e :: e in next.events ==> e in list;
    forall e | e in first ensures e in store' {
    }
    if next.nextCursor.Some? {
      CompleteMore(first, f, returned, last, list, next.events);
    } else {
      CompleteAll(first, f, returned, last, list);
    }
  }

  /** What the next request lists: the matching events beyond the cursor's. */
  lemma ListingAfter(store: seq<Event>, f: Filter, last: Event, cursor: Option<nat>, next: Page) returns (list: seq<Event>)
    requires UniqueIds(store) && last in store && cursor == Some(last.eventId) && Answers(store, Following(f, cursor), next)
    ensures Ascending(list, EventKey) && IsPage(list, Following(f, cursor), next)
    ensures forall e :: e in list <==> e in store && Matches(f, e) && Before(EventKey(last), EventKey(e))
  {
    hide Ascending, UniqueIds, IsPage;
    var f' := Following(f, cursor);
    CursorFound(store, last);
    list :| Listing(store, f', list) && IsPage(list, f', next);
    forall e ensures e in list <==> e in store && Matches(f, e) && Before(EventKey(last), EventKey(e)) {
      OneWithId(store, last.eventId, last);
      assert Matches(f', e) <==> Matches(f, e);
    }
  }

  lemma CompleteMore(first: seq<Event>, f: Filter, returned: seq<Event>, last: Event, list: seq<Event>, events: seq<Event>)
    requires Complete(first, f, returned, Some(last)) && Ascending(list, EventKey) && events <= list && events != []
    requires forall e :: e in first && Matches(f, e) && Before(EventKey(last), EventKey(e)) ==> e in list
    ensures Complete(first, f, returned + events, Some((returned + events)[|returned + events| - 1]))
  {
    hide Ascending;
    var all := returned + events;
    assert all[|all| - 1] == events[|events| - 1];
    forall e | e in first && Matches(f, e) && !Before(EventKey(all[|all| - 1]), EventKey(e)) ensures e in all {
      if Before(EventKey(last), EventKey(e)) {
        PrefixHolds(list, events, e);
      }
    }
  }

  lemma CompleteAll(first: seq<Event>, f: Filter, returned: seq<Event>, last: Event, list: seq<Event>)
    requires Complete(first, f, returned, Some(last))
    requires forall e :: e in first && Matches(f, e) && Before(EventKey(last), EventKey(e)) ==> e in list
    ensures Complete(first, f, returned + list, None)
  {
  }

  lemma CursorFound(store: seq<Event>, e: Event)
    requires e in store
    ensures HasId(store, e.eventId)
  {
    var i :| 0 <= i < |store| && store[i] == e;
  }

  lemma FollowingPage(list: seq<Event>, f: Filter, page: Page, next: Page)
    requires page.Page? && page.nextCursor.Some? && LimitOf(f) >= 1 && IsPage(list, Following(f, page.nextCursor), next)
    ensures next.Page? && next.events <= list && (next.nextCursor.None? <==> next.events == list)
    ensures next.nextCursor.Some? ==> next.events != [] && next.events[|next.events| - 1].eventId == next.nextCursor.value
    ensures next.events != [] || next.nextCursor.None?
  {
    FirstOfListing(list, Following(f, page.nextCursor), next);
  }

  lemma JoinAscends(returned: seq<Event>, events: seq<Event>, list: seq<Event>)
    requires Ascending(returned, EventKey) && Ascending(list, EventKey) && events <= list && returned != []
    requires forall e :: e in events ==> Before(EventKey(returned[|returned| - 1]), EventKey(e))
    ensures Ascending(returned + events, EventKey)
  {
    var all := returned + events;
    forall i, j | 0 <= i < |returned| <= j < |all| ensures Before(EventKey(all[i]), EventKey(all[j])) {
      assert all[j] in events;
    }
  }

  lemma {:induction false} WalkReaches(stores: seq<seq<Event>>, f: Filter, pages: seq<Page>, k: nat)
    requires Walk(stores, f, pages) && k < |pages|
    ensures Reached(stores[0], stores[k], f, Returned(pages[..k + 1]), pages[k])
    ensures |Returned(pages[..k + 1])| >= if pages[k].nextCursor.Some? then k + 1 else k
  {
    hide Reached, Answers, UniqueIds;
    assert pages[..k + 1][..k] == pages[..k];
    if k == 0 {
      FirstPage(stores[0], f, pages[0]);
      assert Returned(pages[..1]) == pages[0].events;
    } else {
      WalkReaches(stores, f, pages, k - 1);
      assert Continues(stores[k - 1 + 1], f, pages[k - 1], pages[k - 1 + 1]);
      var before := Returned(pages[..k]);
      NextPage(stores[0], stores[k - 1], stores[k], f, before, pages[k - 1], pages[k]);
      assert Returned(pages[..k + 1]) == before + pages[k].events;
    }
  }

  /** Along a walk the keys strictly increase, so nothing is returned twice; and a walk that ends has
      returned every matching event that was stored when it began, and only matching stored events. */
  lemma WalkMissesNothing(stores: seq<seq<Event>>, f: Filter, pages: seq<Page>)
    requires Walk(stores, f, pages)
    ensures pages[|pages| - 1].Page? && Ascending(Returned(pages), EventKey)
    ensures forall e :: e in Returned(pages) ==> e in stores[|stores| - 1] && Matches(f, e)
    ensures pages[|pages| - 1].nextCursor.None? ==> forall e :: e in stores[0] && Matches(f, e) ==> e in Returned(pages)
  {
    hide Ascending, Answers, Continues, UniqueIds;
    WalkReaches(stores, f, pages, |pages| - 1);
    assert pages[..|pages|] == pages;
  }

  /** Without inserts a walk has at most one page more than there are matching events; when it ends it has
      returned the whole listing, in order. */
  lemma QuietWalk(records: seq<Event>, f: Filter, pages: seq<Page>, list: seq<Event>)
    requires Walk(seq(|pages|, _ => records), f, pages) && Listing(records, f, list)
    ensures pages[|pages| - 1].Page? && |pages| <= |list| + 1
    ensures pages[|pages| - 1].nextCursor.None? ==> Returned(pages) == list
  {
    hide Ascending, Answers, Continues, UniqueIds;
    var stores := seq(|pages|, _ => records);
    WalkReaches(stores, f, pages, |pages| - 1);
    WalkMissesNothing(stores, f, pages);
    assert pages[..|pages|] == pages;
    forall e | e in Returned(pages) ensures e in list {
      assert Shown(records, f, e);
    }
    NoLonger(Returned(pages), list);
    if pages[|pages| - 1].nextCursor.None? {
      forall e | e in list ensures e in Returned(pages) {
        assert Shown(records, f, e);
      }
      AscendingUnique(Returned(pages), list, EventKey);
    }
  }

  lemma NoLonger(a: seq<Event>, b: seq<Event>)
    requires Ascending(a, EventKey) && forall e :: e in a ==> e in b
    ensures |a| <= |b|
  {
    var s, t := set e | e in a, set e | e in b;
    DistinctSize(a);
    SeqSize(b);
    SubsetSize(s, t);
  }

  lemma {:induction false} DistinctSize(a: seq<Event>)
    requires Ascending(a, EventKey)
    ensures |set e | e in a| == |a|
  {
    if a == [] {
      assert (set e | e in a) == {};
    } else {
      var n := |a| - 1;
      DistinctSize(a[..n]);
      assert (set e | e in a) == (set e | e in a[..n]) + {a[n]};
      assert a[n] !in a[..n];
    }
  }

  lemma {:induction false} SeqSize(a: seq<Event>)
    ensures |set e | e in a| <= |a|
  {
    if a == [] {
      assert (set e | e in a) == {};
    } else {
      var n := |a| - 1;
      SeqSize(a[..n]);
      assert (set e | e in a) == (set e | e in a[..n]) + {a[n]};
    }
  }
}
