/** Which batches the runs of src/indexer/service.ts leave behind, in the interleaved model: when the
    batches applied to a cursor tile its rows, so that no row is copied by two of them. */
module ReplayBatches {
  import opened Numbers
  import opened Options
  import opened ReplayTables
  import opened ReplayProtocol

  /** Each cursor's history is recorded properly and has led to its offset. */
  ghost predicate Histories(s: State) { forall c: nat :: HistoryKept(s, c) }

  ghost predicate HistoryKept(s: State, c: nat) {
    if c < |s.cursors| then Recorded(HistoryOf(s, c)) && Reached(HistoryOf(s, c)) == s.cursors[c].offset
    else HistoryOf(s, c) == []
  }

  lemma ApplyKeepsHistory(src: Source, s: State, t: Txn, c: nat)
    requires Histories(s) && ValidTxn(src, s, t)
    ensures HistoryKept(Apply(s, t), c)
  {
    hide InsertIgnore, Recorded, Reached;
    assert HistoryKept(s, c) && HistoryKept(s, t.cursor);
    RecordedAppend(HistoryOf(s, t.cursor), Batch(t.start, |t.rows|));
  }

  lemma EmptyHistory()
    ensures Recorded([]) && Reached([]) == 0 && Sequential([])
  {
  }

  lemma StepKeepsHistories(src: Source, s: State, a: Action)
    requires Inv(src, s) && Histories(s) && Next(src, s, a).Some?
    ensures Histories(Next(src, s, a).value)
  {
    hide Inv, Recorded, Reached, InsertIgnore;
    var s' := Next(src, s, a).value;
    EmptyHistory();
    forall c: nat ensures HistoryKept(s', c) {
      assert HistoryKept(s, c);
      match a {
        case Commit(r) =>
          RunnerIsValid(src, s, r);
          ApplyKeepsHistory(src, s, RunnerOf(s, r).txn, c);
        case Land(k) =>
          InFlightIsValid(src, s, k);
          ApplyKeepsHistory(src, s, s.inFlight[k], c);
        case _ =>
      }
    }
  }

  lemma InFlightIsValid(src: Source, s: State, k: nat)
    requires Inv(src, s) && k < |s.inFlight|
    ensures ValidTxn(src, s, s.inFlight[k])
  {
  }

  lemma {:induction false} RunKeepsHistories(src: Source, run: seq<State>, actions: seq<Action>, i: nat)
    requires ValidSource(src) && IsRun(src, run, actions) && i < |run|
    ensures Histories(run[i])
  {
    hide Inv, Next, Recorded, Reached;
    if i > 0 {
      RunKeepsHistories(src, run, actions, i - 1);
      RunKeepsInv(src, run, actions, i - 1);
      StepOf(src, run, actions, i);
      StepKeepsHistories(src, run[i - 1], actions[i - 1]);
    } else {
      EmptyHistory();
    }
  }

  /** In every run, the batches applied to a cursor tile its rows up to the offset if and only if each of
      them started at the offset that was durable when it was applied. */
  lemma BatchesTileIff(src: Source, run: seq<State>, actions: seq<Action>, i: nat, c: nat)
    requires ValidSource(src) && IsRun(src, run, actions) && i < |run| && c < |run[i].cursors|
    ensures Tiles(Batches(HistoryOf(run[i], c)), run[i].cursors[c].offset) <==> Sequential(HistoryOf(run[i], c))
  {
    hide Next, Recorded, Reached, Tiles, Sequential;
    RunKeepsHistories(src, run, actions, i);
    assert HistoryKept(run[i], c);
    TilesIffSequential(HistoryOf(run[i], c));
  }

  /** It can fail with a single runner: a COMMIT whose outcome was unknown lands after the next run has
      fetched the same page, and every row of the page lies in two applied batches. */
  lemma LateCommitRepeatsRows(src: Source, job: Job) returns (run: seq<State>, actions: seq<Action>)
    requires ValidSource(src) && |src.rowsOf(job)| > 0
    ensures IsRun(src, run, actions) && |run| == 11
    ensures forall k :: 0 <= k < |actions| ==> actions[k] in [Begin(0, job), Count(0), Create(0), Fetch(0), CommitUnknown(0),
                                                              Resume(0, 0), Land(0), Commit(0)]
    ensures var page := Batch(0, |Page(src.rowsOf(job), 0, src.batchSize)|);
      Batches(HistoryOf(run[10], 0)) == [page, page] && page.length > 0 && !Sequential(HistoryOf(run[10], 0))
  {
    var n, rows := |src.rowsOf(job)|, Page(src.rowsOf(job), 0, src.batchSize);
    var t := Txn(0, 0, rows);
    var first, firstActions := CopiesUnknown(src, job);
    var second, secondActions := CopiesAgain(src, job, first[5]);
    var s9, s10 := CommitsTwice(src, second[3], t, n);
    var third, thirdActions := [second[3], s9, s10], [Land(0), Commit(0)];
    assert IsPath(src, third, thirdActions);
    hide Next;
    Joined(src, first, firstActions, second, secondActions);
    Joined(src, first + second[1..], firstActions + secondActions, third, thirdActions);
    run := first + second[1..] + third[1..];
    actions := firstActions + secondActions + thirdActions;
    var page := Batch(0, |rows|);
    assert Batches([Applied(page, 0), Applied(page, |rows|)]) == [page, page];
    assert HistoryOf(s10, 0)[1].batch.start != HistoryOf(s10, 0)[1].durable;
  }

  /** The state in which runner 0 is idle or at work on the job's only cursor, and the first COMMIT is in flight. */
  ghost predicate Pending(src: Source, job: Job, s: State) {
    && s.cursors == [Cursor(job, |src.rowsOf(job)|, 0, false)] && s.applied == map[]
    && s.inFlight == [Txn(0, 0, Page(src.rowsOf(job), 0, src.batchSize))]
  }

  /** The run of a cursor's first page up to a COMMIT whose outcome stays unknown. */
  lemma CopiesUnknown(src: Source, job: Job) returns (run: seq<State>, actions: seq<Action>)
    requires ValidSource(src) && |src.rowsOf(job)| > 0
    ensures |run| == 6 && IsRun(src, run, actions) && Pending(src, job, run[5]) && RunnerOf(run[5], 0) == Idle
    ensures actions == [Begin(0, job), Count(0), Create(0), Fetch(0), CommitUnknown(0)]
  {
    var n, rows := |src.rowsOf(job)|, Page(src.rowsOf(job), 0, src.batchSize);
    var t := Txn(0, 0, rows);
    var s0 := State(map[], [], map[], [], {}, map[], {});
    var s1 := At(s0, 0, Resolving(job));
    var s2 := At(s1, 0, Counted(job, n));
    var s3 := At(s2.(cursors := s2.cursors + [Cursor(job, n, 0, false)]), 0, Looping(0, 0, n));
    var s4 := At(s3, 0, InBatch(t, n));
    var s5 := At(s4.(inFlight := s4.inFlight + [t]), 0, Idle);
    assert Next(src, s0, Begin(0, job)) == Some(s1);
    assert Next(src, s1, Count(0)) == Some(s2);
    assert Next(src, s2, Create(0)) == Some(s3);
    assert Next(src, s3, Fetch(0)) == Some(s4);
    assert Next(src, s4, CommitUnknown(0)) == Some(s5);
    hide Next;
    run := [s0, s1, s2, s3, s4, s5];
    actions := [Begin(0, job), Count(0), Create(0), Fetch(0), CommitUnknown(0)];
  }

  /** The next run of the same job, up to its own COMMIT of the same page. */
  lemma CopiesAgain(src: Source, job: Job, s: State) returns (run: seq<State>, actions: seq<Action>)
    requires ValidSource(src) && |src.rowsOf(job)| > 0 && Pending(src, job, s) && RunnerOf(s, 0) == Idle
    ensures |run| == 4 && run[0] == s && Pending(src, job, run[3]) && IsPath(src, run, actions)
    ensures RunnerOf(run[3], 0) == InBatch(Txn(0, 0, Page(src.rowsOf(job), 0, src.batchSize)), |src.rowsOf(job)|)
    ensures actions == [Begin(0, job), Resume(0, 0), Fetch(0)]
  {
    var n := |src.rowsOf(job)|;
    var s6 := At(s, 0, Resolving(job));
    var s7 := At(s6, 0, Looping(0, 0, n));
    var s8 := At(s7, 0, InBatch(Txn(0, 0, Page(src.rowsOf(job), 0, src.batchSize)), n));
    assert Next(src, s, Begin(0, job)) == Some(s6);
    assert Next(src, s6, Resume(0, 0)) == Some(s7);
    assert Next(src, s7, Fetch(0)) == Some(s8);
    hide Next;
    run := [s, s6, s7, s8];
    actions := [Begin(0, job), Resume(0, 0), Fetch(0)];
  }

  lemma CommitsTwice(src: Source, s: State, t: Txn, n: nat) returns (s': State, s'': State)
    requires RunnerOf(s, 0) == InBatch(t, n) && s.inFlight == [t] && |s.cursors| == 1 && s.applied == map[]
    requires t.cursor == 0 && t.start == 0 && s.cursors[0].offset == 0
    ensures Next(src, s, Land(0)) == Some(s') && Next(src, s', Commit(0)) == Some(s'')
    ensures HistoryOf(s'', 0) == [Applied(Batch(0, |t.rows|), 0), Applied(Batch(0, |t.rows|), |t.rows|)]
  {
    hide InsertIgnore;
    s' := Apply(s, t).(inFlight := Without(s.inFlight, 0));
    s'' := At(Apply(s', t), 0, Looping(0, |t.rows|, n));
  }

  // ----- Runs that resume only settled cursors -----

  predicate WorksOn(runner: Runner, c: nat) {
    (runner.Looping? && runner.cursor == c) || (runner.InBatch? && runner.txn.cursor == c)
  }

  /** Where a runner at work on a cursor will write next. */
  function Stands(runner: Runner): nat
    requires runner.Looping? || runner.InBatch?
  {
    if runner.Looping? then runner.offset else runner.txn.start
  }

  /** Nobody else works on the cursor and no transaction of it is in flight. */
  ghost predicate Settled(s: State, r: nat, c: nat) {
    && (forall q: nat :: q != r ==> !WorksOn(RunnerOf(s, q), c))
    && (forall k :: 0 <= k < |s.inFlight| ==> s.inFlight[k].cursor != c)
  }

  ghost predicate ResumesSettled(s: State, a: Action) { a.Resume? ==> Settled(s, a.r, a.c) }

  /** At most one runner or one transaction in flight is at work on the cursor, from its durable offset. */
  ghost predicate Exclusive(s: State, c: nat) {
    && (forall q: nat, r: nat :: WorksOn(RunnerOf(s, q), c) && WorksOn(RunnerOf(s, r), c) ==> q == r)
    && (forall r: nat, k :: WorksOn(RunnerOf(s, r), c) && 0 <= k < |s.inFlight| ==> s.inFlight[k].cursor != c)
    && (forall j, k :: 0 <= j < k < |s.inFlight| && s.inFlight[j].cursor == c ==> s.inFlight[k].cursor != c)
    && (forall r: nat :: WorksOn(RunnerOf(s, r), c) && c < |s.cursors| ==> Stands(RunnerOf(s, r)) == s.cursors[c].offset)
    && (forall k :: 0 <= k < |s.inFlight| && s.inFlight[k].cursor == c && c < |s.cursors| ==>
          s.inFlight[k].start == s.cursors[c].offset)
    && Sequential(HistoryOf(s, c))
  }

  /** What a runner's move must respect: it works on from where it stood, or takes up a settled cursor. */
  ghost predicate MayMove(s: State, r: nat, runner: Runner, c: nat) {
    WorksOn(runner, c) ==>
      (WorksOn(RunnerOf(s, r), c) && Stands(RunnerOf(s, r)) == Stands(runner))
      || (Settled(s, r, c) && (c < |s.cursors| ==> Stands(runner) == s.cursors[c].offset))
  }

  lemma MoveKeepsExclusive(s: State, s': State, r: nat, c: nat)
    requires Exclusive(s, c) && s'.inFlight == s.inFlight && HistoryOf(s', c) == HistoryOf(s, c)
    requires forall q: nat :: q != r ==> RunnerOf(s', q) == RunnerOf(s, q)
    requires c < |s'.cursors| && c < |s.cursors| ==> s'.cursors[c].offset == s.cursors[c].offset
    requires c >= |s.cursors| ==> Settled(s, r, c) && (WorksOn(RunnerOf(s', r), c) ==> Stands(RunnerOf(s', r)) == 0)
    requires c >= |s.cursors| && c < |s'.cursors| ==> s'.cursors[c].offset == 0
    requires MayMove(s, r, RunnerOf(s', r), c)
    ensures Exclusive(s', c)
  {
    hide Sequential;
  }

  /** What applying a transaction does to a cursor's offset and history; nobody's position changes. */
  lemma ApplyEffect(s: State, t: Txn, c: nat)
    requires t.cursor < |s.cursors|
    ensures var s' := Apply(s, t);
      && s'.runners == s.runners && s'.inFlight == s.inFlight && |s'.cursors| == |s.cursors|
      && (c != t.cursor ==> HistoryOf(s', c) == HistoryOf(s, c) && (c < |s.cursors| ==> s'.cursors[c] == s.cursors[c]))
      && (c == t.cursor ==> s'.cursors[c].offset == Max(s.cursors[c].offset, t.start + |t.rows|))
      && (c == t.cursor && Sequential(HistoryOf(s, c)) && t.start == s.cursors[c].offset ==> Sequential(HistoryOf(s', c)))
  {
    hide InsertIgnore;
    var s' := Apply(s, t);
    if c == t.cursor {
      var last := Applied(Batch(t.start, |t.rows|), s.cursors[c].offset);
      assert HistoryOf(s', c) == HistoryOf(s, c) + [last];
      SequentialAppend(HistoryOf(s, c), last);
    }
  }

  lemma SequentialAppend(history: seq<Applied>, last: Applied)
    ensures Sequential(history + [last]) <==> Sequential(history) && last.batch.start == last.durable
  {
    var longer := history + [last];
    assert longer[..|longer| - 1] == history && longer[|longer| - 1] == last;
    SequentialPrefix(longer);
  }

  lemma CommitKeepsExclusive(s: State, r: nat, c: nat)
    requires Exclusive(s, c) && RunnerOf(s, r).InBatch? && RunnerOf(s, r).txn.cursor < |s.cursors|
    ensures var t := RunnerOf(s, r).txn;
      Exclusive(At(Apply(s, t), r, Looping(t.cursor, t.start + |t.rows|, RunnerOf(s, r).total)), c)
  {
    hide Sequential, Apply;
    var t := RunnerOf(s, r).txn;
    var s' := At(Apply(s, t), r, Looping(t.cursor, t.start + |t.rows|, RunnerOf(s, r).total));
    assert WorksOn(RunnerOf(s, r), t.cursor);
    ApplyEffect(s, t, c);
    assert HistoryOf(s', c) == HistoryOf(Apply(s, t), c);
    assert forall q: nat :: q != r ==> RunnerOf(s', q) == RunnerOf(s, q);
  }

  lemma UnknownKeepsExclusive(s: State, r: nat, c: nat)
    requires Exclusive(s, c) && RunnerOf(s, r).InBatch?
    ensures Exclusive(At(s.(inFlight := s.inFlight + [RunnerOf(s, r).txn]), r, Idle), c)
  {
    hide Sequential;
    var s' := At(s.(inFlight := s.inFlight + [RunnerOf(s, r).txn]), r, Idle);
    assert forall q: nat :: q != r ==> RunnerOf(s', q) == RunnerOf(s, q);
  }

  lemma DropKeepsExclusive(s: State, k: nat, c: nat)
    requires Exclusive(s, c) && k < |s.inFlight|
    ensures Exclusive(s.(inFlight := Without(s.inFlight, k)), c)
    ensures s.inFlight[k].cursor == c ==> forall j :: 0 <= j < |s.inFlight| - 1 ==> Without(s.inFlight, k)[j].cursor != c
  {
    hide Sequential;
    var all, less := s.inFlight, Without(s.inFlight, k);
    forall j | 0 <= j < |less| ensures less[j] == all[Back(j, k)] && Back(j, k) != k {
    }
    forall i, j | 0 <= i < j < |less| && less[i].cursor == c ensures less[j].cursor != c {
      assert Back(i, k) < Back(j, k) < |all|;
    }
    forall r: nat, j | WorksOn(RunnerOf(s, r), c) && 0 <= j < |less| ensures less[j].cursor != c {
      assert less[j] == all[Back(j, k)];
    }
    forall j | 0 <= j < |less| && less[j].cursor == c && c < |s.cursors| ensures less[j].start == s.cursors[c].offset {
      assert less[j] == all[Back(j, k)];
    }
    var s' := s.(inFlight := less);
    assert forall q: nat :: RunnerOf(s', q) == RunnerOf(s, q);
    assert HistoryOf(s', c) == HistoryOf(s, c);
    forall j | s.inFlight[k].cursor == c && 0 <= j < |less| ensures less[j].cursor != c {
      assert less[j] == all[Back(j, k)];
    }
  }

  function Back(j: int, k: nat): int { if j < k then j else j + 1 }

  lemma LandKeepsExclusive(s: State, k: nat, c: nat)
    requires Exclusive(s, c) && k < |s.inFlight| && s.inFlight[k].cursor < |s.cursors|
    ensures Exclusive(Apply(s, s.inFlight[k]).(inFlight := Without(s.inFlight, k)), c)
  {
    hide Sequential, Apply, Without;
    var t := s.inFlight[k];
    var s' := Apply(s, t).(inFlight := Without(s.inFlight, k));
    DropKeepsExclusive(s, k, c);
    ApplyEffect(s, t, c);
    assert HistoryOf(s', c) == HistoryOf(Apply(s, t), c);
    var dropped := s.(inFlight := Without(s.inFlight, k));
    assert forall q: nat :: RunnerOf(s', q) == RunnerOf(s, q) == RunnerOf(dropped, q);
    WithoutSize(s.inFlight, k);
    assert HistoryOf(dropped, c) == HistoryOf(s, c);
    assert c == t.cursor ==> forall q: nat :: !WorksOn(RunnerOf(s, q), c);
  }

  lemma WithoutSize(ts: seq<Txn>, k: nat)
    requires k < |ts|
    ensures |Without(ts, k)| == |ts| - 1
  {
  }

  /** No one is at work on a cursor that does not exist yet. */
  lemma UnbornIsSettled(src: Source, s: State, r: nat, c: nat)
    requires Inv(src, s) && c >= |s.cursors|
    ensures Settled(s, r, c) && !WorksOn(RunnerOf(s, r), c)
  {
    forall q: nat ensures !WorksOn(RunnerOf(s, q), c) {
      RunnerIsValid(src, s, q);
    }
  }

  lemma StepKeepsExclusive(src: Source, s: State, a: Action, c: nat)
    requires Inv(src, s) && Histories(s) && Next(src, s, a).Some? && ResumesSettled(s, a) && Exclusive(s, c)
    ensures Exclusive(Next(src, s, a).value, c)
  {
    hide InsertIgnore, ValidCursor, Recorded, Reached, Exclusive, Settled, Inv, Sequential, ValidRunner, Histories;
    var s' := Next(src, s, a).value;
    forall r: nat | c >= |s.cursors| ensures Settled(s, r, c) && !WorksOn(RunnerOf(s, r), c) {
      UnbornIsSettled(src, s, r, c);
    }
    match a {
      case Commit(r) => CommitKeepsExclusive(s, r, c);
      case CommitUnknown(r) => UnknownKeepsExclusive(s, r, c);
      case Land(k) => LandKeepsExclusive(s, k, c);
      case Drop(k) => DropKeepsExclusive(s, k, c);
      case LandCompletion(_) => MoveKeepsExclusive(s, s', 0, c);
      case _ => MoveKeepsExclusive(s, s', a.r, c);
    }
  }

  lemma {:induction false} RunKeepsExclusive(src: Source, run: seq<State>, actions: seq<Action>, i: nat, c: nat)
    requires ValidSource(src) && IsRun(src, run, actions) && i < |run|
    requires forall k :: 0 <= k < |actions| ==> ResumesSettled(run[k], actions[k])
    ensures Exclusive(run[i], c)
  {
    hide Inv, Next, Recorded, Reached, Exclusive;
    if i > 0 {
      RunKeepsExclusive(src, run, actions, i - 1, c);
      RunKeepsInv(src, run, actions, i - 1);
      RunKeepsHistories(src, run, actions, i - 1);
      StepOf(src, run, actions, i);
      StepKeepsExclusive(src, run[i - 1], actions[i - 1], c);
    } else {
      StartIsExclusive(run[0], c);
    }
  }

  lemma StartIsExclusive(s: State, c: nat)
    requires Init(s)
    ensures Exclusive(s, c)
  {
  }

  /** When every run resumes a cursor only once nobody else works on it and no transaction of it is in
      flight, the applied batches of every cursor tile its rows: each row below the offset lies in one. */
  lemma SettledRunsTile(src: Source, run: seq<State>, actions: seq<Action>, i: nat, c: nat)
    requires ValidSource(src) && IsRun(src, run, actions) && i < |run| && c < |run[i].cursors|
    requires forall k :: 0 <= k < |actions| ==> ResumesSettled(run[k], actions[k])
    ensures Tiles(Batches(HistoryOf(run[i], c)), run[i].cursors[c].offset)
  {
    hide Inv, Next, Recorded, Reached, Tiles, Sequential;
    RunKeepsExclusive(src, run, actions, i, c);
    BatchesTileIff(src, run, actions, i, c);
  }

  // ----- A single runner -----

  /** What a transaction in flight does without its runner. */
  predicate OfTransaction(a: Action) { a.Land? || a.Drop? || a.LandCompletion? }

  /** Only runner `r` ever acts; a transaction in flight may land or vanish at any time. */
  ghost predicate OnlyRunner(actions: seq<Action>, r: nat) {
    forall k :: 0 <= k < |actions| ==> OfTransaction(actions[k]) || actions[k].r == r
  }

  lemma {:induction false} OthersIdle(src: Source, run: seq<State>, actions: seq<Action>, r: nat, i: nat, q: nat)
    requires IsRun(src, run, actions) && OnlyRunner(actions, r) && i < |run| && q != r
    ensures RunnerOf(run[i], q) == Idle
  {
    if i > 0 {
      OthersIdle(src, run, actions, r, i - 1, q);
      StepOf(src, run, actions, i);
      StepLeavesOthers(src, run[i - 1], actions[i - 1], q);
    }
  }

  lemma StepLeavesOthers(src: Source, s: State, a: Action, q: nat)
    requires Next(src, s, a).Some? && (OfTransaction(a) || a.r != q)
    ensures RunnerOf(Next(src, s, a).value, q) == RunnerOf(s, q)
  {
    hide InsertIgnore;
  }

  /** Over any chain of one runner's stopped, crashed and resumed runs: when no transaction of the cursor
      is in flight at any resume, every row below the offset lies in exactly one applied batch. */
  lemma EachRowInOneBatch(src: Source, run: seq<State>, actions: seq<Action>, r: nat, i: nat, c: nat, row: nat) returns (b: nat)
    requires ValidSource(src) && IsRun(src, run, actions) && OnlyRunner(actions, r) && i < |run| && c < |run[i].cursors|
    requires forall k :: 0 <= k < |actions| && actions[k].Resume? ==>
      forall t :: t in run[k].inFlight ==> t.cursor != actions[k].c
    requires row < run[i].cursors[c].offset
    ensures var batches := Batches(HistoryOf(run[i], c));
      && b < |batches| && Holds(batches[b], row)
      && forall d :: 0 <= d < |batches| && Holds(batches[d], row) ==> d == b
  {
    hide Inv, Next, Recorded, Reached, Tiles, Sequential;
    forall k | 0 <= k < |actions| ensures ResumesSettled(run[k], actions[k]) {
      forall q: nat | q != r ensures RunnerOf(run[k], q) == Idle {
        OthersIdle(src, run, actions, r, k, q);
      }
    }
    SettledRunsTile(src, run, actions, i, c);
    b := TilesOnce(Batches(HistoryOf(run[i], c)), run[i].cursors[c].offset, row);
  }

  predicate Holds(b: Batch, row: nat) { b.start <= row < b.start + b.length }
}
