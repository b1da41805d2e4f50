/** One replay runner as the source runs it (src/indexer/service.ts,
    replayBatchRunner.ts, replayCursorRepository.ts, replayRuntimeState.ts).

    Every answer the environment can give (a stop request arriving during a wait, a
    lost lease, an exhausted budget, a database error, a COMMIT that may or may not
    have been applied) is a nondeterministic choice, so the contracts hold for all. */
module ReplayService {
  import opened Numbers
  import opened Options
  import opened ReplayTables

  // ----- The database as values -----

  /** A row of `indexer_replay_progress`. */
  datatype Checkpoint = Checkpoint(cursor: nat, completed: bool)

  /** `replay_cursors` and `indexer_replay_progress`, each in the order its rows were started, `contract_events`,
      and the committed batches of each cursor in commit order. */
  datatype Tables = Tables(target: map<nat, Row>, cursors: seq<Cursor>, progress: seq<Checkpoint>, batches: seq<seq<Batch>>)

  /** A checkpoint row inserted last, or marked in progress where it is (`ON CONFLICT DO UPDATE`). */
  function Upserted(progress: seq<Checkpoint>, c: nat): seq<Checkpoint> {
    if exists i :: 0 <= i < |progress| && progress[i].cursor == c then Marked(progress, c, false)
    else progress + [Checkpoint(c, false)]
  }

  function Marked(progress: seq<Checkpoint>, c: nat, completed: bool): seq<Checkpoint> {
    seq(|progress|, i requires 0 <= i < |progress| => if progress[i].cursor == c then Checkpoint(c, completed) else progress[i])
  }

  ghost predicate ValidTables(src: Source, t: Tables) {
    && |t.batches| == |t.cursors|
    && (forall c :: 0 <= c < |t.cursors| ==>
          && t.cursors[c].offset <= t.cursors[c].total == |src.rowsOf(t.cursors[c].job)|
          && Copied(t.target, src.rowsOf(t.cursors[c].job), t.cursors[c].offset)
          && Tiles(t.batches[c], t.cursors[c].offset))
    && (forall i :: 0 <= i < |t.progress| ==>
          t.progress[i].cursor < |t.cursors| && t.progress[i].completed == t.cursors[t.progress[i].cursor].completed)
    && (forall i, j :: 0 <= i < j < |t.progress| ==> t.progress[i].cursor != t.progress[j].cursor)
  }

  /** The effect of one committed batch on the tables. */
  function ApplyBatch(t: Tables, c: nat, start: nat, rows: seq<Row>): Tables
    requires c < |t.cursors| == |t.batches|
  {
    var offset := Max(t.cursors[c].offset, start + |rows|);
    t.(target := InsertIgnore(t.target, rows),
       cursors := t.cursors[c := t.cursors[c].(offset := offset)],
       batches := t.batches[c := t.batches[c] + [Batch(start, |rows|)]])
  }

  function MarkCompleted(t: Tables, c: nat): Tables
    requires c < |t.cursors|
  {
    t.(cursors := t.cursors[c := t.cursors[c].(completed := true)],
       progress := Marked(t.progress, c, true))
  }

  /** The most recently started incomplete cursor of a job (`findActive`). */
  function LastActive(cursors: seq<Cursor>, job: Job): (r: Option<nat>)
    ensures r.Some? ==> r.value < |cursors| && cursors[r.value].job == job && !cursors[r.value].completed
    ensures r.Some? ==> forall d :: r.value < d < |cursors| && cursors[d].job == job ==> cursors[d].completed
    ensures r.None? ==> forall d :: 0 <= d < |cursors| && cursors[d].job == job ==> cursors[d].completed
  {
    if cursors == [] then None
    else
      var n := |cursors| - 1;
      if cursors[n].job == job && !cursors[n].completed then Some(n) else LastActive(cursors[..n], job)
  }

  /** The cursor of the last checkpoint still in progress (`findMostRecentInProgress`). */
  function LastInProgress(progress: seq<Checkpoint>): (r: Option<nat>)
    ensures r.Some? ==> exists i :: 0 <= i < |progress| && progress[i] == Checkpoint(r.value, false)
                                    && forall j :: i < j < |progress| ==> progress[j].completed
    ensures r.None? ==> forall j :: 0 <= j < |progress| ==> progress[j].completed
  {
    if progress == [] then None
    else
      var n := |progress| - 1;
      if !progress[n].completed then Some(progress[n].cursor) else LastInProgress(progress[..n])
  }

  /** What a run on cursor `c` may do to the tables: batches are only appended to `c`,
      its offset only grows, and no other cursor and no existing target row is touched. */
  ghost predicate RunOn(t: Tables, t': Tables, c: nat) {
    && |t.cursors| <= |t'.cursors| && |t.batches| <= |t'.batches|
    && (forall d :: 0 <= d < |t.cursors| && d != c ==> t'.cursors[d] == t.cursors[d])
    && (forall d :: 0 <= d < |t.batches| && d != c ==> t'.batches[d] == t.batches[d])
    && (c < |t.cursors| ==> t'.cursors[c].job == t.cursors[c].job && t'.cursors[c].offset >= t.cursors[c].offset)
    && (c < |t.batches| ==> t.batches[c] <= t'.batches[c])
    && (forall k :: k in t.target ==> k in t'.target && t'.target[k] == t.target[k])
  }

  // ----- Facts about the values -----

  lemma ApplyBatchKeepsValid(src: Source, t: Tables, c: nat, rows: seq<Row>)
    requires ValidTables(src, t) && c < |t.cursors| && rows != []
    requires var all, start := src.rowsOf(t.cursors[c].job), t.cursors[c].offset;
      start + |rows| <= |all| && rows == all[start..start + |rows|]
    ensures ValidTables(src, ApplyBatch(t, c, t.cursors[c].offset, rows))
    ensures RunOn(t, ApplyBatch(t, c, t.cursors[c].offset, rows), c)
  {
    hide InsertIgnore;
    var start := t.cursors[c].offset;
    var t' := ApplyBatch(t, c, start, rows);
    InsertIgnoreGains(t.target, rows);
    BatchExtendsPrefix(t.target, src.rowsOf(t.cursors[c].job), start, start, rows);
    assert t'.batches[c][..|t'.batches[c]| - 1] == t.batches[c];
    forall d | 0 <= d < |t'.cursors| && d != c
      ensures Copied(t'.target, src.rowsOf(t'.cursors[d].job), t'.cursors[d].offset)
    {
      CopiedGrows(t.target, t'.target, rows, src.rowsOf(t.cursors[d].job), t.cursors[d].offset);
    }
  }

  /** Over any chain of runs in which every COMMIT is settled before the next run, a source row below a
      cursor's offset was committed in exactly one of that cursor's batches. */
  lemma EachRowInOneBatch(src: Source, t: Tables, c: nat, i: nat) returns (k: nat)
    requires ValidTables(src, t) && c < |t.cursors| && i < t.cursors[c].offset
    ensures k < |t.batches[c]| && t.batches[c][k].start <= i < t.batches[c][k].start + t.batches[c][k].length
    ensures forall j :: 0 <= j < |t.batches[c]| && j != k ==>
      !(t.batches[c][j].start <= i < t.batches[c][j].start + t.batches[c][j].length)
  {
    k := TilesOnce(t.batches[c], t.cursors[c].offset, i);
  }

  lemma CreateKeepsValid(src: Source, t: Tables, job: Job)
    requires ValidTables(src, t)
    ensures var t' := t.(cursors := t.cursors + [Cursor(job, |src.rowsOf(job)|, 0, false)], batches := t.batches + [[]]);
      ValidTables(src, t') && RunOn(t, t', |t.cursors|)
  {
  }

  lemma UpsertKeepsValid(src: Source, t: Tables, c: nat)
    requires ValidTables(src, t) && c < |t.cursors| && !t.cursors[c].completed
    ensures ValidTables(src, t.(progress := Upserted(t.progress, c))) && RunOn(t, t.(progress := Upserted(t.progress, c)), c)
  {
  }

  lemma MarkKeepsValid(src: Source, t: Tables, c: nat)
    requires ValidTables(src, t) && c < |t.cursors|
    ensures ValidTables(src, MarkCompleted(t, c)) && RunOn(t, MarkCompleted(t, c), c)
  {
  }

  lemma OffsetInRange(src: Source, t: Tables, c: nat)
    requires ValidTables(src, t) && c < |t.cursors|
    ensures t.cursors[c].offset <= t.cursors[c].total == |src.rowsOf(t.cursors[c].job)|
    ensures Copied(t.target, src.rowsOf(t.cursors[c].job), t.cursors[c].offset)
  {
  }

  lemma RunOnItself(t: Tables, c: nat)
    ensures RunOn(t, t, c)
  {
  }

  lemma RunOnKeeps(t: Tables, t': Tables, c: nat)
    requires RunOn(t, t', c) && c < |t.cursors|
    ensures t'.cursors[c].job == t.cursors[c].job && t'.cursors[c].offset >= t.cursors[c].offset
  {
  }

  lemma RunOnTransitive(t: Tables, t': Tables, t'': Tables, c: nat)
    requires RunOn(t, t', c) && RunOn(t', t'', c)
    ensures RunOn(t, t'', c)
  {
  }

  // ----- The objects -----

  class Database {
    var target: map<nat, Row>
    var cursors: seq<Cursor>
    var progress: seq<Checkpoint>
    ghost var batches: seq<seq<Batch>>

    ghost function Contents(): Tables
      reads this
    {
      Tables(target, cursors, progress, batches)
    }

    /** `ORDER BY started_at DESC LIMIT 1`: cursors start in the order they are created. */
    method FindActive(job: Job) returns (r: Option<nat>)
      ensures r == LastActive(cursors, job)
    {
      var i: nat := |cursors|;
      assert cursors[..|cursors|] == cursors;
      while i > 0
        invariant 0 <= i <= |cursors| && LastActive(cursors, job) == LastActive(cursors[..i], job)
      {
        assert cursors[..i][..i - 1] == cursors[..i - 1];
        i := i - 1;
        if cursors[i].job == job && !cursors[i].completed {
          return Some(i);
        }
      }
      r := None;
    }

    method Create(job: Job, total: nat) returns (c: nat)
      modifies this
      ensures c == |old(cursors)|
      ensures Contents() == old(Contents()).(cursors := old(cursors) + [Cursor(job, total, 0, false)],
                                             batches := old(batches) + [[]])
    {
      c := |cursors|;
      cursors := cursors + [Cursor(job, total, 0, false)];
      batches := batches + [[]];
    }

    /** The checkpoint row of a cursor, inserted or marked in progress again. */
    method UpsertProgress(c: nat)
      modifies this
      ensures Contents() == old(Contents()).(progress := Upserted(old(progress), c))
    {
      progress := Upserted(progress, c);
    }

    /** The checkpoint in progress that was started last. */
    method FindMostRecentInProgress() returns (r: Option<nat>)
      ensures r == LastInProgress(progress)
    {
      var i: nat := |progress|;
      assert progress[..|progress|] == progress;
      while i > 0
        invariant 0 <= i <= |progress| && LastInProgress(progress) == LastInProgress(progress[..i])
      {
        assert progress[..i][..i - 1] == progress[..i - 1];
        i := i - 1;
        if !progress[i].completed {
          return Some(progress[i].cursor);
        }
      }
      r := None;
    }

    /** `completeCursor`: both rows in one transaction. */
    method CompleteCursor(c: nat)
      requires c < |cursors|
      modifies this
      ensures Contents() == MarkCompleted(old(Contents()), c)
    {
      cursors := cursors[c := cursors[c].(completed := true)];
      progress := Marked(progress, c, true);
    }
  }

  /** The private view of one batch transaction between BEGIN and COMMIT. */
  class Transaction {
    const db: Database
    var target: map<nat, Row>
    var cursors: seq<Cursor>

    constructor (db: Database)
      ensures this.db == db && target == db.target && cursors == db.cursors
    {
      this.db := db;
      target := db.target;
      cursors := db.cursors;
    }

    method InsertEvents(rows: seq<Row>)
      modifies this
      ensures target == InsertIgnore(old(target), rows) && cursors == old(cursors)
    {
      for i := 0 to |rows|
        invariant cursors == old(cursors)
        invariant InsertIgnore(target, rows[i..]) == InsertIgnore(old(target), rows)
      {
        assert rows[i..][1..] == rows[i + 1..];
        if rows[i].eventId !in target {
          target := target[rows[i].eventId := rows[i]];
        }
      }
    }

    method AdvanceOffset(c: nat, newOffset: nat)
      requires c < |cursors|
      modifies this
      ensures target == old(target)
      ensures cursors == old(cursors)[c := old(cursors)[c].(offset := Max(old(cursors)[c].offset, newOffset))]
    {
      cursors := cursors[c := cursors[c].(offset := Max(cursors[c].offset, newOffset))];
    }

    method Commit(ghost c: nat, ghost batch: Batch)
      requires c < |db.batches|
      modifies db
      ensures db.Contents() == old(db.Contents()).(target := target, cursors := cursors,
                                                   batches := old(db.batches)[c := old(db.batches)[c] + [batch]])
    {
      db.target := target;
      db.cursors := cursors;
      db.batches := db.batches[c := db.batches[c] + [batch]];
    }
  }

  /** The cooperative stop flag. Any wait gives the process a chance to receive a request. */
  class StopSignal {
    var requested: bool

    method Wait()
      modifies this
      ensures old(requested) ==> requested
    {
      if * {
        requested := true;
      }
    }

    method Reset()
      modifies this
      ensures !requested
    {
      requested := false;
    }
  }

  /** The in-memory progress polled by `/status`. */
  class ReplayState {
    var isReplaying: bool
    var rowsReplayed: nat
    var rowsRemaining: nat
    var totalRows: nat
    var currentOffset: nat

    ghost predicate Consistent()
      reads this
    {
      rowsReplayed == currentOffset && rowsRemaining == if totalRows > rowsReplayed then totalRows - rowsReplayed else 0
    }

    method StartReplay(total: nat, resumeFrom: nat)
      modifies this
      ensures Consistent() && isReplaying && totalRows == total && currentOffset == resumeFrom
    {
      isReplaying, totalRows, rowsReplayed, currentOffset := true, total, resumeFrom, resumeFrom;
      rowsRemaining := if total > resumeFrom then total - resumeFrom else 0;
    }

    method UpdateProgress(newOffset: nat)
      modifies this
      ensures isReplaying == old(isReplaying) && totalRows == old(totalRows)
      ensures currentOffset == Max(old(currentOffset), newOffset)
      ensures rowsReplayed == old(rowsReplayed) + (currentOffset - old(currentOffset))
      ensures old(Consistent()) ==> Consistent()
    {
      var previous := currentOffset;
      var monotonic := Max(previous, newOffset);
      rowsReplayed := rowsReplayed + (monotonic - previous);
      rowsRemaining := if totalRows > rowsReplayed then totalRows - rowsReplayed else 0;
      currentOffset := monotonic;
    }

    method EndReplay()
      modifies this
      ensures !isReplaying && Unchanged(old(rowsReplayed), old(currentOffset), old(totalRows), old(rowsRemaining))
    {
      isReplaying := false;
    }

    ghost predicate Unchanged(replayed: nat, offset: nat, total: nat, remaining: nat)
      reads this
    {
      rowsReplayed == replayed && currentOffset == offset && totalRows == total && rowsRemaining == remaining
    }
  }

  // ----- The service -----

  datatype BatchResult =
    | Fetched(rows: nat)        // 0: the source is exhausted
    | Aborted                   // a stop was honoured and the batch rolled back
    | Threw                     // an error or the forced stop; the COMMIT may have been applied

  datatype LoopExit = LeftLoop | StoppedByRequest | GaveUp

  datatype Outcome =
    | CancelledBeforeStart
    | AlreadyReplaying
    | NotLeader
    | Completed(cursor: nat)
    | Stopped(cursor: nat)
    | Failed

  class IndexerService {
    const src: Source
    const db: Database
    const state: ReplayState
    const stop: StopSignal
    var lockHeld: bool

    ghost predicate Valid()
      reads db
    {
      ValidSource(src) && ValidTables(src, db.Contents())
    }

    constructor (src: Source, db: Database, state: ReplayState, stop: StopSignal)
      requires ValidSource(src) && ValidTables(src, db.Contents())
      ensures Valid() && this.db == db && this.src == src && !lockHeld
    {
      this.src, this.db, this.state, this.stop, this.lockHeld := src, db, state, stop, false;
    }

    /** One batch: fetch, insert and advance in a transaction of its own. */
    method ProcessBatch(c: nat, offset: nat) returns (result: BatchResult)
      requires Valid() && c < |db.cursors| && offset == db.cursors[c].offset
      modifies db, stop
      ensures Valid()
      ensures var rows := Page(src.rowsOf(old(db.cursors[c].job)), offset, src.batchSize);
        match result
        case Fetched(n) =>
          n == |rows| && db.Contents() == if n == 0 then old(db.Contents()) else ApplyBatch(old(db.Contents()), c, offset, rows)
        case Aborted => stop.requested && db.Contents() == old(db.Contents())
        case Threw =>
          db.Contents() == old(db.Contents())
          || (rows != [] && db.Contents() == ApplyBatch(old(db.Contents()), c, offset, rows))
      ensures RunOn(old(db.Contents()), db.Contents(), c) && |db.cursors| == old(|db.cursors|)
      ensures db.cursors[c] == old(db.cursors[c]).(offset := db.cursors[c].offset)
      ensures result.Fetched? ==> db.cursors[c].offset == offset + result.rows
      ensures old(stop.requested) ==> stop.requested
    {
      hide InsertIgnore, Tiles, Copied, LastActive;
      stop.Wait();
      if * { return Threw; }
      var tx := new Transaction(db);
      if stop.requested { return Aborted; }
      var events := Page(src.rowsOf(tx.cursors[c].job), offset, src.batchSize);
      stop.Wait();
      if * { return Threw; }
      if |events| == 0 { return Fetched(0); }
      if stop.requested { return Aborted; }
      tx.InsertEvents(events);
      tx.AdvanceOffset(c, offset + |events|);
      stop.Wait();
      if * { return Threw; }
      if stop.requested { return Aborted; }
      ApplyBatchKeepsValid(src, db.Contents(), c, events);
      stop.Wait();
      if * { return Threw; }
      tx.Commit(c, Batch(offset, |events|));
      if * { return Threw; }
      result := Fetched(|events|);
    }

    /** The cursor a replay of `job` works on: the active one, or the next to be created. */
    static function CursorFor(cursors: seq<Cursor>, job: Job): nat {
      LastActive(cursors, job).GetOr(|cursors|)
    }

    /** Find the cursor to resume, or count the source and create one. `None` is a database error. */
    method ResolveOrCreateCursor(job: Job) returns (r: Option<nat>)
      requires Valid()
      modifies db
      ensures Valid() && RunOn(old(db.Contents()), db.Contents(), CursorFor(old(db.cursors), job))
      ensures r.Some? ==> r.value == CursorFor(old(db.cursors), job) < |db.cursors|
      ensures r.Some? ==> db.cursors[r.value].job == job && !db.cursors[r.value].completed
      ensures r.Some? ==> db.cursors[r.value].offset <= db.cursors[r.value].total
      ensures r.Some? && r.value < |old(db.cursors)| ==> db.cursors == old(db.cursors)
    {
      hide Copied, Tiles, LastActive, RunOn, ValidTables;
      ghost var start := db.Contents();
      RunOnItself(start, CursorFor(db.cursors, job));
      if * { return None; }
      var existing := db.FindActive(job);
      if existing.Some? {
        if * { return None; }
        UpsertKeepsValid(src, start, existing.value);
        OffsetInRange(src, start, existing.value);
        db.UpsertProgress(existing.value);
        return existing;
      }
      var total := |src.rowsOf(job)|;
      if * { return None; }
      CreateKeepsValid(src, start, job);
      var c := db.Create(job, total);
      if * { return None; }
      ghost var created := db.Contents();
      UpsertKeepsValid(src, created, c);
      db.UpsertProgress(c);
      RunOnTransitive(start, created, db.Contents(), c);
      r := Some(c);
    }

    /** `replayEvents`: resume or start the job's cursor and commit batch after batch.

        A run that reports completion has copied everything exactly when leadership held at
        every guard: losing it leaves the loop early and still marks the cursor completed. */
    method ReplayEvents(job: Job) returns (outcome: Outcome, ghost led: bool)
      requires Valid()
      modifies this, db, state, stop
      ensures Valid()
      ensures outcome.CancelledBeforeStart? <==> old(stop.requested)
      ensures outcome.AlreadyReplaying? <==> !old(stop.requested) && old(lockHeld)
      ensures outcome.CancelledBeforeStart? || outcome.AlreadyReplaying? ==>
        db.Contents() == old(db.Contents()) && lockHeld == old(lockHeld) && !stop.requested
      ensures outcome.NotLeader? ==> db.Contents() == old(db.Contents()) && unchanged(state)
      ensures outcome.Completed? || outcome.Stopped? || outcome.Failed? ==> !stop.requested && !state.isReplaying
      ensures outcome.Failed? ==>
        Behind(CursorFor(old(db.cursors), job))
        || state.Unchanged(old(state.rowsReplayed), old(state.currentOffset), old(state.totalRows), old(state.rowsRemaining))
      ensures !outcome.CancelledBeforeStart? && !outcome.AlreadyReplaying? ==> !lockHeld
      ensures RunOn(old(db.Contents()), db.Contents(), CursorFor(old(db.cursors), job))
      ensures outcome.Completed? || outcome.Stopped? ==>
        outcome.cursor == CursorFor(old(db.cursors), job) < |db.cursors| && db.cursors[outcome.cursor].job == job
        && !stop.requested && !state.isReplaying
        && (db.cursors[outcome.cursor].total > 0 ==>
              state.rowsReplayed == state.currentOffset == db.cursors[outcome.cursor].offset)
      ensures outcome.Stopped? ==> !db.cursors[outcome.cursor].completed
      ensures outcome.Completed? ==>
        var cursor := db.cursors[outcome.cursor];
        cursor.completed && (led <==> cursor.offset == cursor.total)
        && (led ==> Copied(db.target, src.rowsOf(job), |src.rowsOf(job)|))
    {
      led := true;
      if stop.requested {
        stop.Reset();
        return CancelledBeforeStart, led;
      }
      if lockHeld {
        return AlreadyReplaying, led;
      }
      lockHeld := true;
      stop.Wait();
      if * {
        lockHeld := false;
        return NotLeader, led;
      }
      hide ValidTables, RunOn, Copied, LastActive, Behind;
      outcome, led := Replay(job);
      if outcome.Completed? {
        OffsetInRange(src, db.Contents(), outcome.cursor);
      }
      state.EndReplay();
      lockHeld := false;
      stop.Wait();
      if stop.requested {
        stop.Reset();
      }
    }

    /** The progress shown is consistent and never ahead of the durable offset. */
    ghost predicate Behind(c: nat)
      reads db, state
    {
      c < |db.cursors| && state.rowsReplayed == state.currentOffset <= db.cursors[c].offset
    }

    /** The body of `replayEvents` between taking and releasing the lock and the lease. */
    method Replay(job: Job) returns (outcome: Outcome, ghost led: bool)
      requires Valid()
      modifies db, state, stop
      ensures Valid() && RunOn(old(db.Contents()), db.Contents(), CursorFor(old(db.cursors), job))
      ensures outcome.Completed? || outcome.Stopped? || outcome.Failed?
      ensures !outcome.Failed? ==>
        outcome.cursor == CursorFor(old(db.cursors), job) < |db.cursors| && db.cursors[outcome.cursor].job == job
        && (db.cursors[outcome.cursor].total > 0 ==>
              state.rowsReplayed == state.currentOffset == db.cursors[outcome.cursor].offset)
      ensures outcome.Failed? ==> unchanged(state) || Behind(CursorFor(old(db.cursors), job))
      ensures outcome.Stopped? ==> !db.cursors[outcome.cursor].completed
      ensures outcome.Completed? ==>
        db.cursors[outcome.cursor].completed
        && (led <==> db.cursors[outcome.cursor].offset == db.cursors[outcome.cursor].total)
    {
      hide Copied, Tiles, ApplyBatch, RunOn, LastActive, ValidTables;
      led := true;
      var resolved := ResolveOrCreateCursor(job);
      if resolved.None? {
        return Failed, led;
      }
      var c := resolved.value;
      var total := db.cursors[c].total;
      if total == 0 {
        ghost var before := db.Contents();
        var ok := CompleteOrFail(c);
        RunOnTransitive(old(db.Contents()), before, db.Contents(), c);
        return if ok then Completed(c) else Failed, led;
      }
      state.StartReplay(total, db.cursors[c].offset);
      ghost var started := db.Contents();
      var exit;
      exit, led := CopyBatches(c);
      RunOnTransitive(old(db.Contents()), started, db.Contents(), c);
      if exit.GaveUp? {
        return Failed, led;
      }
      if exit.StoppedByRequest? {
        return Stopped(c), led;
      }
      ghost var before := db.Contents();
      var ok := CompleteOrFail(c);
      RunOnTransitive(old(db.Contents()), before, db.Contents(), c);
      return if ok then Completed(c) else Failed, led;
    }

    /** The loop over the batches. */
    method CopyBatches(c: nat) returns (exit: LoopExit, ghost led: bool)
      requires Valid() && c < |db.cursors| && !db.cursors[c].completed
      requires state.Consistent() && state.currentOffset == db.cursors[c].offset
      modifies db, state, stop
      ensures Valid() && RunOn(old(db.Contents()), db.Contents(), c) && |db.cursors| == |old(db.cursors)|
      ensures db.cursors[c].job == old(db.cursors[c].job) && db.cursors[c].total == old(db.cursors[c].total)
      ensures !db.cursors[c].completed && state.Consistent() && state.currentOffset <= db.cursors[c].offset
      ensures !exit.GaveUp? ==> state.currentOffset == db.cursors[c].offset
      ensures exit.LeftLoop? ==> (led <==> db.cursors[c].offset == db.cursors[c].total)
    {
      hide Copied, Tiles, ApplyBatch, RunOn, LastActive, ValidTables;
      led := true;
      var offset, total := db.cursors[c].offset, db.cursors[c].total;
      RunOnItself(db.Contents(), c);
      OffsetInRange(src, db.Contents(), c);
      while offset < total
        invariant Valid() && RunOn(old(db.Contents()), db.Contents(), c) && led
        invariant |db.cursors| == |old(db.cursors)|
        invariant db.cursors[c].job == old(db.cursors[c].job) && db.cursors[c].total == total && !db.cursors[c].completed
        invariant offset == db.cursors[c].offset <= total
        invariant state.Consistent() && state.currentOffset == offset
      {
        if stop.requested {
          return StoppedByRequest, led;
        }
        if * { return LeftLoop, false; }         // the lease was lost
        if * { return GaveUp, led; }             // the wall-clock budget is spent
        ghost var before := db.Contents();
        var result := ProcessBatch(c, offset);
        OffsetInRange(src, db.Contents(), c);
        RunOnTransitive(old(db.Contents()), before, db.Contents(), c);
        RunOnKeeps(before, db.Contents(), c);
        match result {
          case Threw => return GaveUp, led;
          case Aborted => return StoppedByRequest, led;
          case Fetched(n) =>
            if n == 0 {
              break;
            }
            offset := offset + n;
            state.UpdateProgress(offset);
        }
      }
      exit := LeftLoop;
    }

    /** `resumeIncompleteReplay`: at start-up, the leader replays the job of the cursor whose checkpoint, among
        those in progress, was started last. The replay itself works on the last started incomplete cursor of
        that job, which is another one when a later cursor of the job is incomplete too. */
    method ResumeIncompleteReplay() returns (found: Option<nat>)
      requires Valid()
      modifies this, db, state, stop
      ensures Valid()
      ensures found.None? ==> db.Contents() == old(db.Contents())
      ensures found.Some? ==> found == LastInProgress(old(db.progress))
      ensures found.Some? ==> found.value < |old(db.cursors)| && !old(db.cursors)[found.value].completed
      ensures found.Some? ==>
        var job := old(db.cursors)[found.value].job;
        && RunOn(old(db.Contents()), db.Contents(), CursorFor(old(db.cursors), job))
        && (CursorFor(old(db.cursors), job) == found.value <==>
              forall d :: found.value < d < |old(db.cursors)| && old(db.cursors)[d].job == job ==> old(db.cursors)[d].completed)
    {
      if * { return None; }                      // not the leader
      if * { return None; }                      // a database error
      found := db.FindMostRecentInProgress();
      if found.Some? {
        var outcome, led := ReplayEvents(db.cursors[found.value].job);
      }
    }

    /** `completeCursor`; on an error the transaction may or may not have been applied. */
    method CompleteOrFail(c: nat) returns (ok: bool)
      requires Valid() && c < |db.cursors|
      modifies db
      ensures Valid() && RunOn(old(db.Contents()), db.Contents(), c)
      ensures ok ==> db.Contents() == MarkCompleted(old(db.Contents()), c)
      ensures !ok ==> db.Contents() == old(db.Contents()) || db.Contents() == MarkCompleted(old(db.Contents()), c)
    {
      hide ValidTables, RunOn;
      RunOnItself(db.Contents(), c);
      MarkKeepsValid(src, db.Contents(), c);
      if * { return false; }
      db.CompleteCursor(c);
      if * { return false; }
      ok := true;
    }
  }
}
