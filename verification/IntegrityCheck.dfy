/** `checkReplayIntegrity` of src/indexer/replayIntegrity.ts: the ledger range is cut into
    chunks, a few workers check them concurrently with retries, and the chunk results are
    merged and sorted. The table holds the rows of one contract and does not change. */
module IntegrityCheck {
  import opened Numbers
  import opened Options
  import opened Sorting

  const MAX_CONCURRENT_CHECKS := 4
  const INTEGRITY_CHUNK_SIZE := 10_000
  const INTEGRITY_RETRY_BUDGET := 3

  /** Event ids are given by their rank in the order that sorts them. */
  datatype Row = Row(eventId: nat, ledger: int)

  datatype Duplicate = Duplicate(eventId: nat, ledger: int, count: nat)

  datatype ChunkResult = ChunkResult(gaps: seq<int>, duplicates: seq<Duplicate>, error: Option<string>)

  datatype Report = Report(hasIssues: bool, gaps: seq<int>, duplicates: seq<Duplicate>,
                           fromLedger: int, toLedger: int, error: Option<string>)

  /** The database's answers: the error of the range query, and of the n-th attempt at the chunk that starts
      at a ledger; `None` where the query succeeds. */
  datatype Database = Database(rows: seq<Row>, rangeError: Option<string>, chunkError: (int, nat) -> Option<string>)

  // ----- The three queries -----

  ghost predicate Gap(rows: seq<Row>, l: int) { forall r :: r in rows ==> r.ledger != l }

  ghost predicate Repeated(rows: seq<Row>, d: Duplicate) {
    d.count == multiset(rows)[Row(d.eventId, d.ledger)] > 1
  }

  function GapKey(l: int): Key { Key(l, 0) }

  function DuplicateKey(d: Duplicate): Key { Key(d.ledger, d.eventId) }

  /** The gap query over [first, last]. */
  ghost predicate GapAnswer(rows: seq<Row>, first: int, last: int, gaps: seq<int>) {
    && Ascending(gaps, GapKey)
    && forall l :: l in gaps <==> first <= l <= last && Gap(rows, l)
  }

  /** The duplicate query over [first, last]. */
  ghost predicate DuplicateAnswer(rows: seq<Row>, first: int, last: int, duplicates: seq<Duplicate>) {
    && Ascending(duplicates, DuplicateKey)
    && forall d :: d in duplicates <==> first <= d.ledger <= last && Repeated(rows, d)
  }

  function FindGaps(rows: seq<Row>, first: int, last: int): seq<int>
    decreases last - first
  {
    if first > last then []
    else FindGaps(rows, first, last - 1) + if HasLedger(rows, last) then [] else [last]
  }

  predicate HasLedger(rows: seq<Row>, l: int) { exists i :: 0 <= i < |rows| && rows[i].ledger == l }

  lemma {:induction false} FindGapsAnswers(rows: seq<Row>, first: int, last: int)
    ensures GapAnswer(rows, first, last, FindGaps(rows, first, last))
    decreases last - first
  {
    if first <= last {
      var before := FindGaps(rows, first, last - 1);
      FindGapsAnswers(rows, first, last - 1);
      assert Gap(rows, last) <==> !HasLedger(rows, last);
      assert forall l :: l in before + [last] <==> l in before || l == last;
      forall i | 0 <= i < |before| ensures before[i] < last {
        assert before[i] in before;
      }
    }
  }

  function FindDuplicates(rows: seq<Row>, first: int, last: int): (duplicates: seq<Duplicate>)
    ensures DuplicateAnswer(rows, first, last, duplicates)
  {
    var groups := Groups(rows, first, last, |rows|);
    SortKeeps(groups, DuplicateKey);
    SortAscends(groups, DuplicateKey);
    Sort(groups, DuplicateKey)
  }

  lemma FindDuplicatesAnswers(rows: seq<Row>, first: int, last: int)
    ensures DuplicateAnswer(rows, first, last, FindDuplicates(rows, first, last))
  {
  }

  /** One entry per repeated row among the first `n`. */
  function Groups(rows: seq<Row>, first: int, last: int, n: nat): (groups: seq<Duplicate>)
    requires n <= |rows|
    ensures Sorting.Distinct(groups, DuplicateKey)
    ensures forall d :: d in groups <==> first <= d.ledger <= last && Repeated(rows, d) && Row(d.eventId, d.ledger) in rows[..n]
  {
    if n == 0 then []
    else
      var before := Groups(rows, first, last, n - 1);
      var r := rows[n - 1];
      if first <= r.ledger <= last && multiset(rows)[r] > 1 && r !in rows[..n - 1]
      then before + [Duplicate(r.eventId, r.ledger, multiset(rows)[r])]
      else before
  }

  // ----- Chunks -----

  /** A JavaScript error string that is empty counts as no error at the retry test. */
  predicate Falsy(error: Option<string>) { error.None? || error.value == "" }

  /** The attempt whose result a chunk keeps: the first that reports no error, or the last. */
  function KeptAttempt(db: Database, start: int, attempt: nat): (n: nat)
    requires attempt < INTEGRITY_RETRY_BUDGET
    ensures attempt <= n < INTEGRITY_RETRY_BUDGET
    decreases INTEGRITY_RETRY_BUDGET - attempt
  {
    if attempt == INTEGRITY_RETRY_BUDGET - 1 || Falsy(db.chunkError(start, attempt)) then attempt
    else KeptAttempt(db, start, attempt + 1)
  }

  function ChunkError(db: Database, start: int): Option<string> { db.chunkError(start, KeptAttempt(db, start, 0)) }

  /** A chunk is answered when one of its attempts succeeds and every earlier one failed with a message. */
  lemma ChunkAnswered(db: Database, start: int)
    ensures ChunkError(db, start).None? <==>
      exists n: nat :: n < INTEGRITY_RETRY_BUDGET && db.chunkError(start, n).None?
                       && forall m: nat :: m < n ==> !Falsy(db.chunkError(start, m))
  {
  }

  /** A failure without a message ends the retries: its empty error is kept, whatever a later attempt would do. */
  lemma EmptyMessageIsKept(db: Database, start: int, n: nat)
    requires n < INTEGRITY_RETRY_BUDGET && db.chunkError(start, n) == Some("")
    requires forall m: nat :: m < n ==> !Falsy(db.chunkError(start, m))
    ensures ChunkError(db, start) == Some("")
  {
  }

  function ChunkEnd(start: int, maxLedger: int): int { Min(start + INTEGRITY_CHUNK_SIZE - 1, maxLedger) }

  function ChunkOutcome(db: Database, start: int, maxLedger: int): ChunkResult {
    if ChunkError(db, start).Some? then ChunkResult([], [], ChunkError(db, start))
    else ChunkResult(FindGaps(db.rows, start, ChunkEnd(start, maxLedger)),
                     FindDuplicates(db.rows, start, ChunkEnd(start, maxLedger)), None)
  }

  method RunIntegrityChunk(db: Database, start: int, end: int, attempt: nat) returns (r: ChunkResult)
    ensures r.error == db.chunkError(start, attempt)
    ensures r.error.Some? ==> r.gaps == [] && r.duplicates == []
    ensures r.error.None? ==> r.gaps == FindGaps(db.rows, start, end) && r.duplicates == FindDuplicates(db.rows, start, end)
  {
    var error := db.chunkError(start, attempt);
    if error.Some? {
      return ChunkResult([], [], error);
    }
    return ChunkResult(FindGaps(db.rows, start, end), FindDuplicates(db.rows, start, end), None);
  }

  /** The worker: one chunk, retried while it reports an error. */
  method CheckChunk(db: Database, start: int, maxLedger: int) returns (r: ChunkResult)
    ensures r == ChunkOutcome(db, start, maxLedger)
  {
    hide FindGaps, FindDuplicates;
    var end := Min(start + INTEGRITY_CHUNK_SIZE - 1, maxLedger);
    var lastError: Option<string> := Some("unknown");
    for attempt := 0 to INTEGRITY_RETRY_BUDGET
      invariant attempt < INTEGRITY_RETRY_BUDGET ==> KeptAttempt(db, start, 0) == KeptAttempt(db, start, attempt)
      invariant attempt == INTEGRITY_RETRY_BUDGET ==> lastError == ChunkError(db, start) && lastError.Some?
    {
      var chunk := RunIntegrityChunk(db, start, end, attempt);
      if Falsy(chunk.error) {
        return chunk;
      }
      lastError := chunk.error;
    }
    return ChunkResult([], [], lastError);
  }

  // ----- mapWithConcurrency -----

  function Busy(inHand: seq<Option<nat>>): nat {
    if inHand == [] then 0 else Busy(inHand[..|inHand| - 1]) + if inHand[|inHand| - 1].Some? then 1 else 0
  }

  lemma {:induction false} BusyLess(inHand: seq<Option<nat>>, w: nat)
    requires w < |inHand| && inHand[w].Some?
    ensures Busy(inHand[w := None]) < Busy(inHand)
  {
    var n := |inHand| - 1;
    if w < n {
      BusyLess(inHand[..n], w);
      assert inHand[w := None][..n] == inHand[..n][w := None];
    } else {
      assert inHand[w := None][..n] == inHand[..n];
    }
  }

  /** Every started item is finished, with its own outcome, or in some worker's hand. */
  ghost predicate Started(db: Database, items: seq<int>, maxLedger: int, results: seq<Option<ChunkResult>>,
                          inHand: seq<Option<nat>>, nextIndex: nat) {
    && |results| == |items| && nextIndex <= |items|
    && (forall w :: 0 <= w < |inHand| && inHand[w].Some? ==> inHand[w].value < nextIndex)
    && (forall i: nat :: i < nextIndex ==> Some(i) in inHand || results[i] == Some(ChunkOutcome(db, items[i], maxLedger)))
  }

  /** Workers take the next item when they finish one; which of them finishes next is not determined. */
  method MapWithConcurrency(db: Database, items: seq<int>, concurrency: nat, maxLedger: int) returns (results: seq<ChunkResult>)
    requires concurrency >= 1
    ensures |results| == |items|
    ensures forall i :: 0 <= i < |items| ==> results[i] == ChunkOutcome(db, items[i], maxLedger)
  {
    hide ChunkOutcome;
    var slots := new Option<ChunkResult>[|items|](_ => None);
    var workers := Min(concurrency, |items|);
    var inHand: seq<Option<nat>> := seq(workers, i requires 0 <= i => Some(i));
    var nextIndex: nat := workers;
    assert forall i: nat :: i < workers ==> inHand[i] == Some(i);
    while exists w :: 0 <= w < |inHand| && inHand[w].Some?
      invariant |inHand| == workers && Started(db, items, maxLedger, slots[..], inHand, nextIndex)
      invariant (exists w :: 0 <= w < |inHand| && inHand[w].None?) ==> nextIndex == |items|
      decreases |items| - nextIndex, Busy(inHand)
    {
      var w: nat :| w < |inHand| && inHand[w].Some?;
      var i := inHand[w].value;
      var outcome := CheckChunk(db, items[i], maxLedger);
      ghost var before := slots[..];
      slots[i] := Some(outcome);
      assert slots[..] == before[i := Some(outcome)];
      if nextIndex < |items| {
        Turned(db, items, maxLedger, before, inHand, nextIndex, w, Some(nextIndex), nextIndex + 1);
        inHand := inHand[w := Some(nextIndex)];
        nextIndex := nextIndex + 1;
      } else {
        BusyLess(inHand, w);
        Turned(db, items, maxLedger, before, inHand, nextIndex, w, None, nextIndex);
        inHand := inHand[w := None];
      }
    }
    assert workers > 0 ==> inHand[0].None?;
    assert nextIndex == |items|;
    assert forall i: nat :: i < |items| ==> slots[i].Some?;
    results := seq(|items|, i requires 0 <= i < |items| && slots[i].Some? reads slots => slots[i].value);
  }

  /** Worker `w` stores the outcome of its item and turns to the next one, or to nothing. */
  lemma Turned(db: Database, items: seq<int>, maxLedger: int, results: seq<Option<ChunkResult>>,
               inHand: seq<Option<nat>>, nextIndex: nat, w: nat, item: Option<nat>, next': nat)
    requires Started(db, items, maxLedger, results, inHand, nextIndex) && w < |inHand| && inHand[w].Some?
    requires if nextIndex < |items| then item == Some(nextIndex) && next' == nextIndex + 1 else item == None && next' == nextIndex
    ensures var i := inHand[w].value;
      Started(db, items, maxLedger, results[i := Some(ChunkOutcome(db, items[i], maxLedger))], inHand[w := item], next')
  {
    hide ChunkOutcome;
    var hands := inHand[w := item];
    assert hands[w] == item;
    forall j: nat | j < next' && Some(j) in inHand && j != inHand[w].value ensures Some(j) in hands {
      var k :| 0 <= k < |inHand| && inHand[k] == Some(j);
      assert hands[k] == Some(j);
    }
  }

  // ----- checkReplayIntegrity -----

  /** The first ledger of the chunk that ledger `l` falls in. */
  function ChunkOf(minLedger: int, l: int): int
    requires minLedger <= l
  {
    minLedger + (l - minLedger) / INTEGRITY_CHUNK_SIZE * INTEGRITY_CHUNK_SIZE
  }

  /** The range query found `low` and `high`: the least and greatest ledgers present in [first, last]. */
  ghost predicate RangeAnswer(rows: seq<Row>, first: int, last: int, low: int, high: int) {
    && first <= low <= high <= last && !Gap(rows, low) && !Gap(rows, high)
    && forall l :: first <= l < low || high < l <= last ==> Gap(rows, l)
  }

  ghost predicate RangeFound(rows: seq<Row>, first: int, last: int, range: Option<(int, int)>) {
    match range
    case None => forall l :: first <= l <= last ==> Gap(rows, l)
    case Some(r) => RangeAnswer(rows, first, last, r.0, r.1)
  }

  function Widen(range: Option<(int, int)>, l: int): Option<(int, int)> {
    if range.None? then Some((l, l)) else Some((Min(range.value.0, l), Max(range.value.1, l)))
  }

  lemma RangeExtends(rows: seq<Row>, r: Row, first: int, last: int, range: Option<(int, int)>)
    requires RangeFound(rows, first, last, range)
    ensures RangeFound(rows + [r], first, last, if first <= r.ledger <= last then Widen(range, r.ledger) else range)
  {
    assert r in rows + [r];
    forall x | x in rows ensures x in rows + [r] {
    }
    forall l | Gap(rows, l) && l != r.ledger ensures Gap(rows + [r], l) {
    }
    forall l | !Gap(rows, l) ensures !Gap(rows + [r], l) {
      var x :| x in rows && x.ledger == l;
      assert x in rows + [r];
    }
  }

  method QueryRange(rows: seq<Row>, first: int, last: int) returns (range: Option<(int, int)>)
    ensures RangeFound(rows, first, last, range)
  {
    range := None;
    for i := 0 to |rows|
      invariant RangeFound(rows[..i], first, last, range)
    {
      RangeExtends(rows[..i], rows[i], first, last, range);
      assert rows[..i + 1] == rows[..i] + [rows[i]];
      if first <= rows[i].ledger <= last {
        range := Widen(range, rows[i].ledger);
      }
    }
    assert rows[..|rows|] == rows;
  }

  method ChunkStarts(minLedger: int, maxLedger: int) returns (starts: seq<int>)
    requires minLedger <= maxLedger
    ensures forall i :: 0 <= i < |starts| ==> starts[i] == minLedger + i * INTEGRITY_CHUNK_SIZE <= maxLedger
    ensures maxLedger < minLedger + |starts| * INTEGRITY_CHUNK_SIZE && starts != []
  {
    starts := [];
    var start := minLedger;
    while start <= maxLedger
      invariant start == minLedger + |starts| * INTEGRITY_CHUNK_SIZE && (starts == [] ==> start == minLedger)
      invariant forall i :: 0 <= i < |starts| ==> starts[i] == minLedger + i * INTEGRITY_CHUNK_SIZE <= maxLedger
      decreases maxLedger - start
    {
      starts := starts + [start];
      start := start + INTEGRITY_CHUNK_SIZE;
    }
  }

  /** The merged lists hold exactly the gaps and duplicates below `bound` whose chunks were answered, in order. */
  ghost predicate MergedGaps(db: Database, minLedger: int, maxLedger: int, bound: int, gaps: seq<int>) {
    && Ascending(gaps, GapKey)
    && forall l :: l in gaps <==>
         minLedger <= l < bound && l <= maxLedger && Gap(db.rows, l) && ChunkError(db, ChunkOf(minLedger, l)).None?
  }

  ghost predicate MergedDuplicates(db: Database, minLedger: int, maxLedger: int, bound: int, duplicates: seq<Duplicate>) {
    && Ascending(duplicates, DuplicateKey)
    && forall d :: d in duplicates <==>
         minLedger <= d.ledger < bound && d.ledger <= maxLedger && Repeated(db.rows, d)
         && ChunkError(db, ChunkOf(minLedger, d.ledger)).None?
  }

  lemma InChunk(minLedger: int, i: nat, l: int)
    requires minLedger + i * INTEGRITY_CHUNK_SIZE <= l < minLedger + (i + 1) * INTEGRITY_CHUNK_SIZE
    ensures minLedger <= l && ChunkOf(minLedger, l) == minLedger + i * INTEGRITY_CHUNK_SIZE
  {
  }

  lemma AddChunk(db: Database, minLedger: int, maxLedger: int, i: nat, gaps: seq<int>, duplicates: seq<Duplicate>)
    requires minLedger + i * INTEGRITY_CHUNK_SIZE <= maxLedger
    requires MergedGaps(db, minLedger, maxLedger, minLedger + i * INTEGRITY_CHUNK_SIZE, gaps)
    requires MergedDuplicates(db, minLedger, maxLedger, minLedger + i * INTEGRITY_CHUNK_SIZE, duplicates)
    ensures var r := ChunkOutcome(db, minLedger + i * INTEGRITY_CHUNK_SIZE, maxLedger);
      && MergedGaps(db, minLedger, maxLedger, minLedger + (i + 1) * INTEGRITY_CHUNK_SIZE, gaps + r.gaps)
      && MergedDuplicates(db, minLedger, maxLedger, minLedger + (i + 1) * INTEGRITY_CHUNK_SIZE, duplicates + r.duplicates)
  {
    hide ChunkOf, ChunkError, Gap, Repeated, FindGaps, FindDuplicates;
    var start := minLedger + i * INTEGRITY_CHUNK_SIZE;
    var r := ChunkOutcome(db, start, maxLedger);
    FindGapsAnswers(db.rows, start, ChunkEnd(start, maxLedger));
    forall l | start <= l < start + INTEGRITY_CHUNK_SIZE ensures minLedger <= l && ChunkOf(minLedger, l) == start {
      InChunk(minLedger, i, l);
    }
    AscendingJoin(gaps, r.gaps, GapKey, start);
    AscendingJoin(duplicates, r.duplicates, DuplicateKey, start);
  }

  lemma AscendingJoin<T>(a: seq<T>, b: seq<T>, key: T -> Key, bound: int)
    requires Ascending(a, key) && Ascending(b, key)
    requires (forall x :: x in a ==> key(x).major < bound) && (forall y :: y in b ==> bound <= key(y).major)
    ensures Ascending(a + b, key)
  {
    forall i, j | 0 <= i < |a| <= j < |a + b| ensures Before(key((a + b)[i]), key((a + b)[j])) {
      assert (a + b)[i] in a && (a + b)[j] in b;
    }
  }

  /** The error is that of the first chunk that could not be read, if there is one. */
  ghost predicate FirstError(db: Database, low: int, high: int, error: Option<string>) {
    match error
    case None => forall l :: low <= l <= high ==> ChunkError(db, ChunkOf(low, l)).None?
    case Some(_) => exists l :: low <= l <= high && FailsFirst(db, low, l, error)
  }

  ghost predicate FailsFirst(db: Database, low: int, l: int, error: Option<string>)
    requires low <= l
  {
    && ChunkError(db, ChunkOf(low, l)) == error
    && forall k :: low <= k < ChunkOf(low, l) ==> ChunkError(db, ChunkOf(low, k)).None?
  }

  /** What the check reports about the ledgers `low` to `high`, whichever chunks could be read. */
  ghost predicate Reports(db: Database, low: int, high: int, r: Report) {
    && r.fromLedger == low && r.toLedger == high
    && MergedGaps(db, low, high, high + 1, r.gaps) && MergedDuplicates(db, low, high, high + 1, r.duplicates)
    && r.hasIssues == (r.gaps != [] || r.duplicates != [])
    && FirstError(db, low, high, r.error)
  }

  method CheckReplayIntegrity(db: Database, fromLedger: int, toLedger: int) returns (r: Report)
    ensures var first, last := Min(fromLedger, toLedger), Max(fromLedger, toLedger);
      && (db.rangeError.Some? ==> r == Report(false, [], [], first, last, db.rangeError))
      && (db.rangeError.None? && (forall l :: first <= l <= last ==> Gap(db.rows, l)) ==>
            r == Report(false, [], [], first, last, None))
      && (db.rangeError.None? && !(forall l :: first <= l <= last ==> Gap(db.rows, l)) ==>
            RangeAnswer(db.rows, first, last, r.fromLedger, r.toLedger) && Reports(db, r.fromLedger, r.toLedger, r))
  {
    var effectiveFrom, effectiveTo := Min(fromLedger, toLedger), Max(fromLedger, toLedger);
    if db.rangeError.Some? {
      return Report(false, [], [], effectiveFrom, effectiveTo, db.rangeError);
    }
    var range := QueryRange(db.rows, effectiveFrom, effectiveTo);
    if range.None? {
      return Report(false, [], [], effectiveFrom, effectiveTo, None);
    }
    var minLedger, maxLedger := range.value.0, range.value.1;
    assert !Gap(db.rows, minLedger);
    var gaps, duplicates, error := CheckChunks(db, minLedger, maxLedger);
    return Report(gaps != [] || duplicates != [], gaps, duplicates, minLedger, maxLedger, error);
  }

  method CheckChunks(db: Database, minLedger: int, maxLedger: int)
    returns (gaps: seq<int>, duplicates: seq<Duplicate>, error: Option<string>)
    requires minLedger <= maxLedger
    ensures MergedGaps(db, minLedger, maxLedger, maxLedger + 1, gaps)
    ensures MergedDuplicates(db, minLedger, maxLedger, maxLedger + 1, duplicates)
    ensures FirstError(db, minLedger, maxLedger, error)
  {
    hide ChunkOf, Gap, Repeated, ChunkError, ChunkOutcome, MergedGaps, MergedDuplicates, FirstError;
    var chunkStarts := ChunkStarts(minLedger, maxLedger);
    var chunkResults := MapWithConcurrency(db, chunkStarts, MAX_CONCURRENT_CHECKS, maxLedger);
    gaps, duplicates, error := [], [], None;
    MergedNothing(db, minLedger, maxLedger);
    for i := 0 to |chunkResults|
      invariant MergedGaps(db, minLedger, maxLedger, minLedger + i * INTEGRITY_CHUNK_SIZE, gaps)
      invariant MergedDuplicates(db, minLedger, maxLedger, minLedger + i * INTEGRITY_CHUNK_SIZE, duplicates)
      invariant FirstErrorAmong(db, chunkStarts[..i], error)
    {
      var chunk := chunkResults[i];
      AddChunk(db, minLedger, maxLedger, i, gaps, duplicates);
      OutcomeError(db, chunkStarts[i], maxLedger);
      assert chunkStarts[..i + 1] == chunkStarts[..i] + [chunkStarts[i]];
      if chunk.error.Some? && error.None? {
        error := chunk.error;
      }
      if Falsy(chunk.error) {
        gaps := gaps + chunk.gaps;
        duplicates := duplicates + chunk.duplicates;
      } else {
        assert gaps + chunk.gaps == gaps && duplicates + chunk.duplicates == duplicates;
      }
    }
    assert chunkStarts[..|chunkStarts|] == chunkStarts;
    ErrorChunks(db, minLedger, maxLedger, chunkStarts, error);
    MergedAll(db, minLedger, maxLedger, minLedger + |chunkStarts| * INTEGRITY_CHUNK_SIZE, gaps, duplicates);
    gaps := Sort(gaps, GapKey);
    duplicates := Sort(duplicates, DuplicateKey);
  }

  lemma OutcomeError(db: Database, start: int, maxLedger: int)
    ensures var r := ChunkOutcome(db, start, maxLedger);
      r.error == ChunkError(db, start) && (r.error.Some? ==> r.gaps == [] && r.duplicates == [])
  {
  }

  lemma MergedNothing(db: Database, minLedger: int, maxLedger: int)
    ensures MergedGaps(db, minLedger, maxLedger, minLedger, []) && MergedDuplicates(db, minLedger, maxLedger, minLedger, [])
  {
  }

  /** Sorting the merged lists changes nothing: they come out in order. */
  lemma MergedAll(db: Database, minLedger: int, maxLedger: int, bound: int, gaps: seq<int>, duplicates: seq<Duplicate>)
    requires maxLedger < bound && MergedGaps(db, minLedger, maxLedger, bound, gaps)
    requires MergedDuplicates(db, minLedger, maxLedger, bound, duplicates)
    ensures MergedGaps(db, minLedger, maxLedger, maxLedger + 1, Sort(gaps, GapKey))
    ensures MergedDuplicates(db, minLedger, maxLedger, maxLedger + 1, Sort(duplicates, DuplicateKey))
  {
    hide Gap, Repeated, ChunkOf, ChunkError;
    SortedAlready(gaps, GapKey);
    SortedAlready(duplicates, DuplicateKey);
  }

  ghost predicate FirstErrorAmong(db: Database, starts: seq<int>, error: Option<string>) {
    if error.None? then forall j :: 0 <= j < |starts| ==> ChunkError(db, starts[j]).None?
    else exists j :: 0 <= j < |starts| && ChunkError(db, starts[j]) == error
                     && forall m :: 0 <= m < j ==> ChunkError(db, starts[m]).None?
  }

  lemma ErrorChunks(db: Database, minLedger: int, maxLedger: int, starts: seq<int>, error: Option<string>)
    requires forall i :: 0 <= i < |starts| ==> starts[i] == minLedger + i * INTEGRITY_CHUNK_SIZE <= maxLedger
    requires maxLedger < minLedger + |starts| * INTEGRITY_CHUNK_SIZE
    requires FirstErrorAmong(db, starts, error)
    ensures FirstError(db, minLedger, maxLedger, error)
  {
    hide ChunkError;
    forall l | minLedger <= l <= maxLedger
      ensures exists j :: 0 <= j < |starts| && starts[j] == ChunkOf(minLedger, l) <= l
    {
      var j := (l - minLedger) / INTEGRITY_CHUNK_SIZE;
      assert starts[j] == ChunkOf(minLedger, l);
    }
    if error.Some? {
      var j :| 0 <= j < |starts| && ChunkError(db, starts[j]) == error
               && forall m :: 0 <= m < j ==> ChunkError(db, starts[m]).None?;
      InChunk(minLedger, j, starts[j]);
      forall k | minLedger <= k < ChunkOf(minLedger, starts[j]) ensures ChunkError(db, ChunkOf(minLedger, k)).None? {
        var m :| 0 <= m < |starts| && starts[m] == ChunkOf(minLedger, k) <= k;
      }
      assert FailsFirst(db, minLedger, starts[j], error);
    }
  }

  /** A check without an error agrees with one query over the whole range. */
  lemma ChunkedIsWhole(db: Database, low: int, high: int, r: Report)
    requires low <= high && Reports(db, low, high, r) && r.error == None
    ensures r.gaps == FindGaps(db.rows, low, high) && r.duplicates == FindDuplicates(db.rows, low, high)
  {
    hide Gap, Repeated, ChunkOf, ChunkError, FindGaps, FindDuplicates;
    FindGapsAnswers(db.rows, low, high);
    FindDuplicatesAnswers(db.rows, low, high);
    forall l ensures l in r.gaps <==> l in FindGaps(db.rows, low, high) {
      if low <= l <= high {
        assert ChunkError(db, ChunkOf(low, l)).None?;
      }
    }
    AscendingUnique(r.gaps, FindGaps(db.rows, low, high), GapKey);
    forall d ensures d in r.duplicates <==> d in FindDuplicates(db.rows, low, high) {
      if low <= d.ledger <= high {
        assert ChunkError(db, ChunkOf(low, d.ledger)).None?;
      }
    }
    AscendingUnique(r.duplicates, FindDuplicates(db.rows, low, high), DuplicateKey);
  }

  /** With chunks that could not be read, the lists hold only true gaps and duplicates. */
  lemma PartialIsSound(db: Database, low: int, high: int, r: Report)
    requires low <= high && Reports(db, low, high, r)
    ensures forall l :: l in r.gaps ==> l in FindGaps(db.rows, low, high)
    ensures forall d :: d in r.duplicates ==> d in FindDuplicates(db.rows, low, high)
    ensures (exists l :: low <= l <= high && ChunkError(db, ChunkOf(low, l)).Some?) ==> r.error.Some?
  {
    hide Gap, Repeated, ChunkOf, ChunkError, FindGaps, FindDuplicates;
    FindGapsAnswers(db.rows, low, high);
    FindDuplicatesAnswers(db.rows, low, high);
  }

  /** A gap or a repeat at ledger `l`, in a chunk that was answered. */
  ghost predicate AnsweredIssue(db: Database, low: int, l: int)
    requires low <= l
  {
    ChunkError(db, ChunkOf(low, l)).None? && (Gap(db.rows, l) || exists d: Duplicate :: d.ledger == l && Repeated(db.rows, d))
  }

  /** With or without an error, the result has issues if and only if some answered chunk has one; an error
      does not clear them. */
  lemma IssuesIff(db: Database, low: int, high: int, r: Report)
    requires low <= high && Reports(db, low, high, r)
    ensures r.hasIssues <==> exists l :: low <= l <= high && AnsweredIssue(db, low, l)
  {
    hide Gap, Repeated, ChunkOf, ChunkError;
    if r.gaps != [] {
      assert r.gaps[0] in r.gaps;
      assert AnsweredIssue(db, low, r.gaps[0]);
    }
    if r.duplicates != [] {
      assert r.duplicates[0] in r.duplicates;
      assert AnsweredIssue(db, low, r.duplicates[0].ledger);
    }
    if l :| low <= l <= high && AnsweredIssue(db, low, l) {
      if Gap(db.rows, l) {
        assert l in r.gaps;
      } else {
        var d: Duplicate :| d.ledger == l && Repeated(db.rows, d);
        assert d in r.duplicates;
      }
    }
  }

  function Unreadable(): Database {
    Database([Row(0, 0), Row(1, 20_000)], None, (start, n) => if start == 10_000 then Some("timeout") else None)
  }

  /** Whatever the check reports for ledgers 0 to 20,000 of this database has an error, as the second of the
      three chunks cannot be read, and issues, as ledger 1 is missing. */
  lemma ErrorWithIssues(r: Report)
    requires RangeAnswer(Unreadable().rows, 0, 20_000, r.fromLedger, r.toLedger)
    requires Reports(Unreadable(), r.fromLedger, r.toLedger, r)
    ensures r.error == Some("timeout") && r.hasIssues
  {
    var db := Unreadable();
    assert db.rows[0] in db.rows && db.rows[1] in db.rows;
    assert !Gap(db.rows, 0) && !Gap(db.rows, 20_000) && Gap(db.rows, 1);
    assert r.fromLedger == 0 && r.toLedger == 20_000;
    assert ChunkOf(0, 10_000) == 10_000 && ChunkOf(0, 1) == 0;
    assert ChunkError(db, 10_000) == Some("timeout") && ChunkError(db, 0) == None;
    assert AnsweredIssue(db, 0, 1);
    IssuesIff(db, 0, 20_000, r);
    assert r.error.Some?;
  }
}
