/** `OrderedBackfillScheduler` of src/indexer/backfill.ts: batches run in waves of bounded
    concurrency, each with its retries, and the checkpoint follows the ordered prefix of
    successful batches. A wave waits for all its batches to settle, so the order in which
    they settle cannot be seen. */
module WaveScheduler {
  import opened Numbers
  import opened Options

  datatype Batch = Batch(fromLedger: int, toLedger: int, index: nat)

  /** What became of a batch after its retries; errors are paired with their attempt numbers. */
  datatype Settled = Fulfilled | Rejected(attempts: nat, errors: seq<(nat, string)>)

  datatype Failure = Failure(batchIndex: nat, fromLedger: int, toLedger: int, attempts: nat, errors: seq<(nat, string)>)

  datatype Outcome =
    | Finished(ok: bool, lastCheckpointLedger: Option<int>, failures: seq<Failure>, processedBatches: nat)
    | InvalidRange
    | PastLiveCursor

  /** The processor: the error of the n-th attempt at a batch, or `None` for success. */
  type Processor = (Batch, nat) -> Option<string>

  // ----- Specification, in which concurrency does not appear -----

  function BatchesFrom(start: int, toLedger: int, size: nat, index: nat): seq<Batch>
    requires size >= 1
    decreases toLedger - start
  {
    if start > toLedger then []
    else
      var end := Min(toLedger, start + size - 1);
      [Batch(start, end, index)] + BatchesFrom(end + 1, toLedger, size, index + 1)
  }

  /** The batches are numbered in order, contiguous, of the given size but for the last, and together
      are exactly the ledgers of the range. */
  ghost predicate Partitions(batches: seq<Batch>, fromLedger: int, toLedger: int, size: nat, first: nat) {
    && (forall i :: 0 <= i < |batches| ==>
          && batches[i].index == first + i && fromLedger <= batches[i].fromLedger <= batches[i].toLedger <= toLedger
          && batches[i].toLedger - batches[i].fromLedger < size)
    && (forall i :: 0 <= i < |batches| - 1 ==> batches[i].toLedger - batches[i].fromLedger == size - 1)
    && (forall l :: fromLedger <= l <= toLedger ==> Covered(batches, l))
    && (forall i, j :: 0 <= i < j < |batches| ==> batches[i].toLedger < batches[j].fromLedger)
  }

  predicate Covered(batches: seq<Batch>, l: int) {
    exists i :: 0 <= i < |batches| && batches[i].fromLedger <= l <= batches[i].toLedger
  }

  lemma {:induction false} BatchesPartition(start: int, toLedger: int, size: nat, index: nat)
    requires size >= 1
    ensures Partitions(BatchesFrom(start, toLedger, size, index), start, toLedger, size, index)
    decreases toLedger - start
  {
    if start <= toLedger {
      hide BatchesFrom, Covered;
      var end := Min(toLedger, start + size - 1);
      var rest := BatchesFrom(end + 1, toLedger, size, index + 1);
      BatchesPartition(end + 1, toLedger, size, index + 1);
      BatchesUnfold(start, toLedger, size, index);
      forall l | start <= l <= toLedger ensures Covered([Batch(start, end, index)] + rest, l) {
        CoveredBy(Batch(start, end, index), rest, l);
      }
    }
  }

  lemma BatchesUnfold(start: int, toLedger: int, size: nat, index: nat)
    requires size >= 1 && start <= toLedger
    ensures var end := Min(toLedger, start + size - 1); var rest := BatchesFrom(end + 1, toLedger, size, index + 1);
      BatchesFrom(start, toLedger, size, index) == [Batch(start, end, index)] + rest && (rest == [] <==> end == toLedger)
  {
  }

  lemma CoveredBy(first: Batch, rest: seq<Batch>, l: int)
    requires first.fromLedger <= l <= first.toLedger || Covered(rest, l)
    ensures Covered([first] + rest, l)
  {
    var all := [first] + rest;
    assert all[0] == first;
    if !(first.fromLedger <= l <= first.toLedger) {
      var i :| 0 <= i < |rest| && rest[i].fromLedger <= l <= rest[i].toLedger;
      assert all[i + 1] == rest[i];
    }
  }

  /** Some attempt within the budget succeeds. */
  ghost predicate Succeeds(process: Processor, b: Batch, maxAttempts: nat) {
    exists n: nat :: 1 <= n <= maxAttempts && process(b, n) == None
  }

  ghost predicate SucceedsAt(process: Processor, batches: seq<Batch>, maxAttempts: nat, i: int) {
    0 <= i < |batches| && Succeeds(process, batches[i], maxAttempts)
  }

  /** Batch `k` is the first of `batches` that never succeeds; all succeed when `k` is their number. */
  ghost predicate FirstFailure(process: Processor, batches: seq<Batch>, maxAttempts: nat, k: nat) {
    && k <= |batches|
    && (forall i :: 0 <= i < k ==> SucceedsAt(process, batches, maxAttempts, i))
    && !SucceedsAt(process, batches, maxAttempts, k)
  }

  ghost predicate AllAttemptsFailed(process: Processor, b: Batch, attempts: nat, errors: seq<(nat, string)>) {
    |errors| == attempts && forall n :: 0 <= n < attempts ==> process(b, n + 1) == Some(errors[n].1) && errors[n].0 == n + 1
  }

  /** The result the first failing batch `k` determines. */
  ghost predicate Describes(process: Processor, batches: seq<Batch>, maxAttempts: nat, k: nat, r: Outcome)
    requires k <= |batches|
  {
    && r.Finished? && r.ok == (k == |batches|) && r.processedBatches == k
    && r.lastCheckpointLedger == (if k == 0 then None else Some(batches[k - 1].toLedger))
    && (k == |batches| ==> r.failures == [])
    && (k < |batches| ==>
          && |r.failures| == 1 && r.failures[0].attempts == maxAttempts
          && r.failures[0].batchIndex == batches[k].index
          && r.failures[0].fromLedger == batches[k].fromLedger && r.failures[0].toLedger == batches[k].toLedger
          && AllAttemptsFailed(process, batches[k], maxAttempts, r.failures[0].errors))
  }

  /** Two outcomes described by the same processor are the same, whatever produced them. */
  lemma DescribedOnce(process: Processor, batches: seq<Batch>, maxAttempts: nat, j: nat, a: Outcome, k: nat, b: Outcome)
    requires FirstFailure(process, batches, maxAttempts, j) && Describes(process, batches, maxAttempts, j, a)
    requires FirstFailure(process, batches, maxAttempts, k) && Describes(process, batches, maxAttempts, k, b)
    ensures a == b
  {
    hide SucceedsAt;
    assert j == k;
    if j < |batches| {
      assert forall n :: 0 <= n < maxAttempts ==>
        Some(a.failures[0].errors[n].1) == process(batches[j], n + 1) == Some(b.failures[0].errors[n].1);
      assert a.failures[0].errors == b.failures[0].errors;
      assert a.failures == [a.failures[0]] == b.failures;
    }
  }

  /** The checkpoints handed to onCheckpoint: the end of each wave of `c` batches, from `start` on, that
      lies before batch `k`. */
  function WaveEnds(batches: seq<Batch>, c: nat, start: nat, k: nat): seq<int>
    requires c >= 1 && k <= |batches|
    decreases |batches| - start
  {
    if start >= |batches| then []
    else
      var stop := Min(|batches|, start + c);
      if stop > k then [] else [batches[stop - 1].toLedger] + WaveEnds(batches, c, start + c, k)
  }

  ghost predicate Increasing(s: seq<int>) { forall i, j :: 0 <= i < j < |s| ==> s[i] < s[j] }

  ghost predicate Within(s: seq<int>, low: int, high: int) { forall j :: 0 <= j < |s| ==> low <= s[j] <= high }

  lemma IncreasingPrepend(first: int, rest: seq<int>, low: int, high: int)
    requires Increasing(rest) && Within(rest, first + 1, high) && low <= first <= high
    ensures Increasing([first] + rest) && Within([first] + rest, low, high)
  {
  }

  /** Reported checkpoints strictly increase and never pass the end of the last batch before `k`. */
  lemma {:induction false} ReportsIncrease(batches: seq<Batch>, fromLedger: int, toLedger: int, size: nat,
                                           c: nat, start: nat, k: nat)
    requires c >= 1 && k <= |batches| && Partitions(batches, fromLedger, toLedger, size, 0)
    ensures Increasing(WaveEnds(batches, c, start, k))
    ensures WaveEnds(batches, c, start, k) == []
            || (start < k && Within(WaveEnds(batches, c, start, k), batches[start].toLedger, batches[k - 1].toLedger))
    decreases |batches| - start
  {
    hide Increasing, Within, Partitions;
    if start < |batches| && Min(|batches|, start + c) <= k {
      var stop := Min(|batches|, start + c);
      var rest := WaveEnds(batches, c, start + c, k);
      ReportsIncrease(batches, fromLedger, toLedger, size, c, start + c, k);
      Ordered(batches, fromLedger, toLedger, size, start, stop - 1);
      Ordered(batches, fromLedger, toLedger, size, stop - 1, k - 1);
      if rest == [] {
        OneIncreases(batches[stop - 1].toLedger, batches[start].toLedger, batches[k - 1].toLedger);
        assert [batches[stop - 1].toLedger] + rest == [batches[stop - 1].toLedger];
      } else {
        Ordered(batches, fromLedger, toLedger, size, stop - 1, stop);
        WithinMore(rest, batches[stop].toLedger, batches[stop - 1].toLedger + 1, batches[k - 1].toLedger);
        IncreasingPrepend(batches[stop - 1].toLedger, rest, batches[start].toLedger, batches[k - 1].toLedger);
      }
    } else {
      OneIncreases(0, 0, 0);
    }
  }

  lemma OneIncreases(x: int, low: int, high: int)
    requires low <= x <= high
    ensures Increasing([x]) && Increasing([]) && Within([x], low, high)
  {
  }

  lemma WithinMore(s: seq<int>, low: int, lower: int, high: int)
    requires Within(s, low, high) && lower <= low
    ensures Within(s, lower, high)
  {
  }

  lemma Ordered(batches: seq<Batch>, fromLedger: int, toLedger: int, size: nat, i: nat, j: nat)
    requires Partitions(batches, fromLedger, toLedger, size, 0) && i <= j < |batches|
    ensures batches[i].toLedger <= batches[j].toLedger && (i < j ==> batches[i].toLedger < batches[j].toLedger)
  {
  }

  /** A run without a failure ends by reporting its last ledger. */
  lemma {:induction false} SuccessReportsEnd(batches: seq<Batch>, c: nat, start: nat)
    requires c >= 1 && start < |batches|
    ensures var reported := WaveEnds(batches, c, start, |batches|);
      reported != [] && reported[|reported| - 1] == batches[|batches| - 1].toLedger
    decreases |batches| - start
  {
    if start + c < |batches| {
      SuccessReportsEnd(batches, c, start + c);
    } else {
      assert WaveEnds(batches, c, start + c, |batches|) == [];
    }
  }

  // ----- The scheduler -----

  class OrderedBackfillScheduler {
    const process: Processor
    const concurrency: nat
    const batchSize: nat
    const maxRetries: nat
    var reported: seq<int>        // the calls of onCheckpoint

    ghost predicate Valid() { concurrency >= 1 && batchSize >= 1 }

    constructor (process: Processor, concurrency: int, batchSize: int, maxRetries: int)
      ensures Valid() && this.process == process && reported == []
      ensures this.concurrency == (if concurrency < 1 then 1 else concurrency)
      ensures this.batchSize == (if batchSize < 1 then 1 else batchSize)
      ensures this.maxRetries == if maxRetries < 0 then 0 else maxRetries
    {
      this.process := process;
      this.concurrency := if concurrency < 1 then 1 else concurrency;
      this.batchSize := if batchSize < 1 then 1 else batchSize;
      this.maxRetries := if maxRetries < 0 then 0 else maxRetries;
      reported := [];
    }

    method BuildBatches(fromLedger: int, toLedger: int) returns (batches: seq<Batch>)
      requires Valid()
      ensures batches == BatchesFrom(fromLedger, toLedger, batchSize, 0)
    {
      batches := [];
      var start, index := fromLedger, 0;
      while start <= toLedger
        invariant batches + BatchesFrom(start, toLedger, batchSize, index) == BatchesFrom(fromLedger, toLedger, batchSize, 0)
        decreases toLedger - start
      {
        var end := Min(toLedger, start + batchSize - 1);
        ghost var rest := BatchesFrom(end + 1, toLedger, batchSize, index + 1);
        assert batches + ([Batch(start, end, index)] + rest) == batches + [Batch(start, end, index)] + rest;
        batches := batches + [Batch(start, end, index)];
        start := end + 1;
        index := index + 1;
      }
    }

    method ProcessWithRetries(batch: Batch) returns (r: Settled)
      ensures r.Fulfilled? <==> Succeeds(process, batch, maxRetries + 1)
      ensures r.Rejected? ==> r.attempts == maxRetries + 1 && AllAttemptsFailed(process, batch, maxRetries + 1, r.errors)
    {
      var errors: seq<(nat, string)> := [];
      var maxAttempts := maxRetries + 1;
      for attempt := 1 to maxAttempts + 1
        invariant AllAttemptsFailed(process, batch, attempt - 1, errors)
      {
        var e := process(batch, attempt);
        if e.None? {
          return Fulfilled;
        }
        errors := errors + [(attempt, e.value)];
      }
      forall n: nat | 1 <= n <= maxAttempts ensures process(batch, n) != None {
        assert process(batch, (n - 1) + 1) == Some(errors[n - 1].1);
      }
      return Rejected(maxAttempts, errors);
    }

    /** The wave's settled results, in batch order. */
    method SettleAll(wave: seq<Batch>) returns (results: seq<Settled>)
      ensures |results| == |wave|
      ensures forall i :: 0 <= i < |wave| ==> (results[i].Fulfilled? <==> Succeeds(process, wave[i], maxRetries + 1))
      ensures forall i :: 0 <= i < |wave| && results[i].Rejected? ==>
                results[i].attempts == maxRetries + 1
                && AllAttemptsFailed(process, wave[i], maxRetries + 1, results[i].errors)
    {
      results := [];
      for i := 0 to |wave|
        invariant |results| == i
        invariant forall j :: 0 <= j < i ==> (results[j].Fulfilled? <==> Succeeds(process, wave[j], maxRetries + 1))
        invariant forall j :: 0 <= j < i && results[j].Rejected? ==>
                    results[j].attempts == maxRetries + 1
                    && AllAttemptsFailed(process, wave[j], maxRetries + 1, results[j].errors)
      {
        var r := ProcessWithRetries(wave[i]);
        results := results + [r];
      }
    }

    method Run(fromLedger: int, toLedger: int, liveCursor: int) returns (r: Outcome, ghost k: nat)
      requires Valid() && reported == []
      modifies this
      ensures r == InvalidRange <==> fromLedger > toLedger
      ensures r == PastLiveCursor <==> fromLedger <= toLedger && toLedger > liveCursor
      ensures !r.Finished? ==> reported == []
      ensures r.Finished? ==>
        var batches := BatchesFrom(fromLedger, toLedger, batchSize, 0);
        && FirstFailure(process, batches, maxRetries + 1, k) && Describes(process, batches, maxRetries + 1, k, r)
        && reported == WaveEnds(batches, concurrency, 0, k)
    {
      ghost var maxAttempts := maxRetries + 1;
      hide BatchesFrom, Partitions, AllAttemptsFailed, WaveEnds, Succeeds;
      k := 0;
      if fromLedger > toLedger {
        return InvalidRange, 0;
      }
      if toLedger > liveCursor {
        return PastLiveCursor, 0;
      }
      var batches := BuildBatches(fromLedger, toLedger);
      var failures: seq<Failure> := [];
      var checkpointLedger: Option<int> := None;
      var processedBatches := 0;
      var start := 0;
      while start < |batches|
        invariant failures == [] && processedBatches == Min(start, |batches|)
        invariant forall i :: 0 <= i < processedBatches ==> SucceedsAt(process, batches, maxAttempts, i)
        invariant checkpointLedger == if processedBatches == 0 then None else Some(batches[processedBatches - 1].toLedger)
        invariant forall k: nat :: processedBatches <= k <= |batches| ==>
                    WaveEnds(batches, concurrency, 0, k) == reported + WaveEnds(batches, concurrency, start, k)
        decreases |batches| - start
      {
        var stop := Min(|batches|, start + concurrency);
        var wave := batches[start..stop];
        var results := SettleAll(wave);
        for i := 0 to |results|
          invariant processedBatches == start + i && failures == []
          invariant forall m :: 0 <= m < processedBatches ==> SucceedsAt(process, batches, maxAttempts, m)
          invariant checkpointLedger == if processedBatches == 0 then None else Some(batches[processedBatches - 1].toLedger)
        {
          assert wave[i] == batches[start + i];
          if results[i].Rejected? {
            failures := [Failure(start + i, wave[i].fromLedger, wave[i].toLedger, results[i].attempts, results[i].errors)];
            k := start + i;
            BatchIndex(fromLedger, toLedger, batchSize, k);
            FirstWaves(batches, concurrency, start, k);
            return Finished(false, checkpointLedger, failures, processedBatches), k;
          }
          checkpointLedger := Some(wave[i].toLedger);
          processedBatches := processedBatches + 1;
        }
        WaveReported(batches, concurrency, start, reported);
        reported := reported + [checkpointLedger.value];
        start := start + concurrency;
      }
      NoMoreWaves(batches, concurrency, start, |batches|);
      return Finished(true, checkpointLedger, failures, processedBatches), |batches|;
    }
  }

  lemma BatchIndex(fromLedger: int, toLedger: int, size: nat, k: nat)
    requires size >= 1 && k < |BatchesFrom(fromLedger, toLedger, size, 0)|
    ensures BatchesFrom(fromLedger, toLedger, size, 0)[k].index == k
  {
    BatchesPartition(fromLedger, toLedger, size, 0);
  }

  /** Nothing more is reported once a batch of the current wave has failed. */
  lemma FirstWaves(batches: seq<Batch>, c: nat, start: nat, k: nat)
    requires c >= 1 && start <= k < |batches| && k < start + c
    ensures WaveEnds(batches, c, start, k) == []
  {
  }

  lemma NoMoreWaves(batches: seq<Batch>, c: nat, start: nat, k: nat)
    requires c >= 1 && k <= |batches| <= start
    ensures WaveEnds(batches, c, start, k) == []
  {
  }

  lemma WaveReported(batches: seq<Batch>, c: nat, start: nat, reported: seq<int>)
    requires c >= 1 && start < |batches|
    ensures var stop := Min(|batches|, start + c);
      forall k: nat :: stop <= k <= |batches| ==>
        reported + WaveEnds(batches, c, start, k) == reported + [batches[stop - 1].toLedger] + WaveEnds(batches, c, start + c, k)
  {
  }
}
