/** Any number of replay runners over one database, interleaved between their
    database statements (src/indexer/service.ts, replayBatchRunner.ts,
    replayCursorRepository.ts).

    Nothing here assumes that a runner really leads: several may work on the same
    job at once. A runner may crash anywhere. A COMMIT, of a batch or of a completion,
    whose runner crashed or stopped waiting stays in flight: it may still take effect
    at any later time, or never. Row locks are left out: they rule out some of these runs. */
module ReplayProtocol {
  import opened Numbers
  import opened Options
  import opened ReplayTables

  /** The writes of one batch transaction, applied together by its COMMIT. */
  datatype Txn = Txn(cursor: nat, start: nat, rows: seq<Row>)

  datatype Runner =
    | Idle
    | Resolving(job: Job)                                      // before `findActive`
    | Counted(job: Job, count: nat)                            // no active cursor seen; before `create`
    | Looping(cursor: nat, offset: nat, total: nat)            // at the loop guard
    | InBatch(txn: Txn, total: nat)                            // rows fetched; COMMIT, which writes them, not yet settled
    | Finishing(cursor: nat, led: bool)                        // before `completeCursor`; led at every guard?

  datatype State = State(
    target: map<nat, Row>,
    cursors: seq<Cursor>,
    runners: map<nat, Runner>,
    inFlight: seq<Txn>,
    completions: set<(nat, bool)>,                             // (cursor, led) of every completion that took effect
    applied: map<nat, seq<Applied>>,                           // each cursor's applied batches, in order
    unsettled: set<(nat, bool)>)                               // completions whose COMMIT was left in flight

  datatype Action =
    | Begin(r: nat, job: Job)
    | Resume(r: nat, c: nat)
    | Count(r: nat)
    | Create(r: nat)
    | Leave(r: nat)                                            // stop, budget, error, abort with ROLLBACK, or crash
    | LoseLeadership(r: nat)
    | ExitLoop(r: nat)
    | Fetch(r: nat)
    | Commit(r: nat)
    | CommitUnknown(r: nat)
    | Land(k: nat)
    | Drop(k: nat)
    | Complete(r: nat)
    | CompleteUnknown(r: nat)
    | LandCompletion(completion: (nat, bool))

  function RunnerOf(s: State, r: nat): Runner { if r in s.runners then s.runners[r] else Idle }

  function HistoryOf(s: State, c: nat): seq<Applied> { if c in s.applied then s.applied[c] else [] }

  function At(s: State, r: nat, runner: Runner): State { s.(runners := s.runners[r := runner]) }

  /** Where a run goes once it has its cursor: an empty job completes at once. */
  function Start(c: nat, cursor: Cursor): Runner {
    if cursor.total == 0 then Finishing(c, true) else Looping(c, cursor.offset, cursor.total)
  }

  /** COMMIT: insert the rows and move the offset with GREATEST, atomically. */
  function Apply(s: State, t: Txn): State
    requires t.cursor < |s.cursors|
  {
    var cursor := s.cursors[t.cursor];
    s.(target := InsertIgnore(s.target, t.rows),
       cursors := s.cursors[t.cursor := cursor.(offset := Max(cursor.offset, t.start + |t.rows|))],
       applied := s.applied[t.cursor := HistoryOf(s, t.cursor) + [Applied(Batch(t.start, |t.rows|), cursor.offset)]])
  }

  /** `completeCursor`, once its COMMIT takes effect. */
  function Completed(s: State, completion: (nat, bool)): State
    requires completion.0 < |s.cursors|
  {
    var cursor := s.cursors[completion.0];
    s.(cursors := s.cursors[completion.0 := cursor.(completed := true)], completions := s.completions + {completion})
  }

  function Without(ts: seq<Txn>, k: nat): seq<Txn>
    requires k < |ts|
  {
    ts[..k] + ts[k + 1..]
  }

  /** One atomic step, or `None` when the action is not enabled. */
  function Next(src: Source, s: State, a: Action): Option<State> {
    match a
    case Begin(r, job) =>
      if RunnerOf(s, r).Idle? then Some(At(s, r, Resolving(job))) else None
    case Resume(r, c) =>
      // `findActive` returns some incomplete cursor of the job.
      if RunnerOf(s, r).Resolving? && c < |s.cursors| && s.cursors[c].job == RunnerOf(s, r).job && !s.cursors[c].completed
      then Some(At(s, r, Start(c, s.cursors[c]))) else None
    case Count(r) =>
      if RunnerOf(s, r).Resolving?
         && (forall c :: 0 <= c < |s.cursors| && s.cursors[c].job == RunnerOf(s, r).job ==> s.cursors[c].completed)
      then Some(At(s, r, Counted(RunnerOf(s, r).job, |src.rowsOf(RunnerOf(s, r).job)|))) else None
    case Create(r) =>
      if RunnerOf(s, r).Counted? then
        var cursor := Cursor(RunnerOf(s, r).job, RunnerOf(s, r).count, 0, false);
        Some(At(s.(cursors := s.cursors + [cursor]), r, Start(|s.cursors|, cursor)))
      else None
    case Leave(r) =>
      Some(At(s, r, Idle))
    case LoseLeadership(r) =>
      if RunnerOf(s, r).Looping? && RunnerOf(s, r).offset < RunnerOf(s, r).total
      then Some(At(s, r, Finishing(RunnerOf(s, r).cursor, false))) else None
    case ExitLoop(r) =>
      if RunnerOf(s, r).Looping? && RunnerOf(s, r).offset >= RunnerOf(s, r).total
      then Some(At(s, r, Finishing(RunnerOf(s, r).cursor, true))) else None
    case Fetch(r) =>
      if RunnerOf(s, r).Looping? && RunnerOf(s, r).offset < RunnerOf(s, r).total && RunnerOf(s, r).cursor < |s.cursors| then
        var Looping(c, offset, total) := RunnerOf(s, r);
        var rows := Page(src.rowsOf(s.cursors[c].job), offset, src.batchSize);
        if rows == [] then Some(At(s, r, Finishing(c, true))) else Some(At(s, r, InBatch(Txn(c, offset, rows), total)))
      else None
    case Commit(r) =>
      if RunnerOf(s, r).InBatch? && RunnerOf(s, r).txn.cursor < |s.cursors| then
        var InBatch(t, total) := RunnerOf(s, r);
        Some(At(Apply(s, t), r, Looping(t.cursor, t.start + |t.rows|, total)))
      else None
    case CommitUnknown(r) =>
      if RunnerOf(s, r).InBatch?
      then Some(At(s.(inFlight := s.inFlight + [RunnerOf(s, r).txn]), r, Idle)) else None
    case Land(k) =>
      if k < |s.inFlight| && s.inFlight[k].cursor < |s.cursors|
      then Some(Apply(s, s.inFlight[k]).(inFlight := Without(s.inFlight, k))) else None
    case Drop(k) =>
      if k < |s.inFlight| then Some(s.(inFlight := Without(s.inFlight, k))) else None
    case Complete(r) =>
      if RunnerOf(s, r).Finishing? && RunnerOf(s, r).cursor < |s.cursors| then
        Some(At(Completed(s, (RunnerOf(s, r).cursor, RunnerOf(s, r).led)), r, Idle))
      else None
    case CompleteUnknown(r) =>
      if RunnerOf(s, r).Finishing?
      then Some(At(s.(unsettled := s.unsettled + {(RunnerOf(s, r).cursor, RunnerOf(s, r).led)}), r, Idle)) else None
    case LandCompletion(completion) =>
      // Taking effect again changes nothing, so that it may stay in the set.
      if completion in s.unsettled && completion.0 < |s.cursors| then Some(Completed(s, completion)) else None
  }

  // ----- Invariant -----

  /** A transaction's rows are the source rows at its offset, which the durable offset has reached. */
  ghost predicate ValidTxn(src: Source, s: State, t: Txn) {
    && t.cursor < |s.cursors|
    && t.start <= s.cursors[t.cursor].offset
    && t.rows != []
    && var rows := src.rowsOf(s.cursors[t.cursor].job);
       t.start + |t.rows| <= |rows| && t.rows == rows[t.start..t.start + |t.rows|]
  }

  ghost predicate ValidCursor(src: Source, target: map<nat, Row>, cursor: Cursor) {
    && cursor.offset <= cursor.total == |src.rowsOf(cursor.job)|
    && Copied(target, src.rowsOf(cursor.job), cursor.offset)
  }

  ghost predicate ValidRunner(src: Source, s: State, runner: Runner) {
    match runner
    case Idle => true
    case Resolving(_) => true
    case Counted(job, count) => count == |src.rowsOf(job)|
    case Looping(c, offset, total) => c < |s.cursors| && offset <= s.cursors[c].offset && total == s.cursors[c].total
    case InBatch(t, total) => ValidTxn(src, s, t) && total == s.cursors[t.cursor].total
    case Finishing(c, led) => c < |s.cursors| && (led ==> s.cursors[c].offset == s.cursors[c].total)
  }

  ghost predicate Inv(src: Source, s: State) {
    && (forall c :: 0 <= c < |s.cursors| ==> ValidCursor(src, s.target, s.cursors[c]))
    && (forall r :: r in s.runners ==> ValidRunner(src, s, s.runners[r]))
    && (forall k :: 0 <= k < |s.inFlight| ==> ValidTxn(src, s, s.inFlight[k]))
    && (forall done :: done in s.completions ==>
          done.0 < |s.cursors| && s.cursors[done.0].completed
          && (done.1 ==> s.cursors[done.0].offset == s.cursors[done.0].total))
    && (forall done :: done in s.unsettled ==> ValidRunner(src, s, Finishing(done.0, done.1)))
  }

  ghost predicate Init(s: State) {
    s.cursors == [] && s.runners == map[] && s.inFlight == [] && s.completions == {} && s.applied == map[] && s.unsettled == {}
  }

  /** What no step undoes: cursors stay, offsets never decrease, target rows are never changed or lost. */
  ghost predicate Progress(s: State, s': State) {
    && |s.cursors| <= |s'.cursors|
    && (forall c :: 0 <= c < |s.cursors| ==>
          && s'.cursors[c].job == s.cursors[c].job && s'.cursors[c].total == s.cursors[c].total
          && s.cursors[c].offset <= s'.cursors[c].offset
          && (s.cursors[c].completed ==> s'.cursors[c].completed))
    && (forall k :: k in s.target ==> k in s'.target && s'.target[k] == s.target[k])
    && s.completions <= s'.completions
  }

  ghost predicate ValidCursors(src: Source, s: State) {
    forall c :: 0 <= c < |s.cursors| ==> ValidCursor(src, s.target, s.cursors[c])
  }

  lemma ProgressKeepsRunner(src: Source, s: State, s': State, runner: Runner)
    requires ValidRunner(src, s, runner) && Progress(s, s') && ValidCursors(src, s')
    ensures ValidRunner(src, s', runner)
  {
    match runner
    case Looping(c, _, _) => assert ValidCursor(src, s'.target, s'.cursors[c]);
    case Finishing(c, _) => assert ValidCursor(src, s'.target, s'.cursors[c]);
    case _ =>
  }

  /** Whatever the tables gain, everything else that was valid stays valid. */
  lemma ProgressKeepsInv(src: Source, s: State, s': State)
    requires Inv(src, s) && Progress(s, s') && ValidCursors(src, s')
    requires s'.runners == s.runners && s'.inFlight == s.inFlight
    requires s'.completions == s.completions && s'.unsettled == s.unsettled
    ensures Inv(src, s')
  {
    forall r | r in s'.runners ensures ValidRunner(src, s', s'.runners[r]) {
      ProgressKeepsRunner(src, s, s', s.runners[r]);
    }
    forall done | done in s'.completions ensures done.1 ==> s'.cursors[done.0].offset == s'.cursors[done.0].total {
      assert ValidCursor(src, s'.target, s'.cursors[done.0]);
    }
    forall done | done in s'.unsettled ensures ValidRunner(src, s', Finishing(done.0, done.1)) {
      ProgressKeepsRunner(src, s, s', Finishing(done.0, done.1));
    }
  }

  lemma ApplyKeepsCursor(src: Source, s: State, t: Txn, c: nat)
    requires ValidCursors(src, s) && ValidTxn(src, s, t) && c < |s.cursors|
    ensures ValidCursor(src, Apply(s, t).target, Apply(s, t).cursors[c])
  {
    hide InsertIgnore;
    var cursor := s.cursors[c];
    assert ValidCursor(src, s.target, cursor);
    if c == t.cursor {
      BatchExtendsPrefix(s.target, src.rowsOf(cursor.job), cursor.offset, t.start, t.rows);
    } else {
      InsertIgnoreGains(s.target, t.rows);
      CopiedGrows(s.target, InsertIgnore(s.target, t.rows), t.rows, src.rowsOf(cursor.job), cursor.offset);
    }
  }

  /** A batch transaction, applied by its runner or landing late, keeps the invariant. */
  lemma ApplyKeeps(src: Source, s: State, t: Txn)
    requires Inv(src, s) && ValidTxn(src, s, t)
    ensures Inv(src, Apply(s, t)) && Progress(s, Apply(s, t))
    ensures Apply(s, t).cursors[t.cursor].offset >= t.start + |t.rows|
  {
    hide InsertIgnore, ValidCursor, ValidRunner;
    var s' := Apply(s, t);
    InsertIgnoreGains(s.target, t.rows);
    forall c | 0 <= c < |s'.cursors| ensures ValidCursor(src, s'.target, s'.cursors[c]) {
      ApplyKeepsCursor(src, s, t, c);
    }
    ProgressKeepsInv(src, s, s');
  }

  /** Moving one runner to another valid position touches nothing else. */
  lemma MoveKeeps(src: Source, s: State, r: nat, runner: Runner)
    requires Inv(src, s) && ValidRunner(src, s, runner)
    ensures Inv(src, At(s, r, runner)) && Progress(s, At(s, r, runner))
  {
    var s' := At(s, r, runner);
    forall q | q in s'.runners ensures ValidRunner(src, s', s'.runners[q]) {
      var position := s'.runners[q];
      assert ValidRunner(src, s, position);
      ProgressKeepsRunner(src, s, s', position);
    }
  }

  lemma CreateKeeps(src: Source, s: State, job: Job)
    requires Inv(src, s)
    ensures var s' := s.(cursors := s.cursors + [Cursor(job, |src.rowsOf(job)|, 0, false)]);
      Inv(src, s') && Progress(s, s')
  {
    ProgressKeepsInv(src, s, s.(cursors := s.cursors + [Cursor(job, |src.rowsOf(job)|, 0, false)]));
  }

  lemma CompleteKeeps(src: Source, s: State, c: nat, led: bool)
    requires Inv(src, s) && ValidRunner(src, s, Finishing(c, led))
    ensures Inv(src, Completed(s, (c, led))) && Progress(s, Completed(s, (c, led)))
  {
    hide Inv;
    var s' := s.(cursors := s.cursors[c := s.cursors[c].(completed := true)]);
    MarkKeeps(src, s, c);
    CompletionsKeep(src, s', c, led);
    assert Completed(s, (c, led)) == s'.(completions := s'.completions + {(c, led)});
  }

  lemma MarkKeeps(src: Source, s: State, c: nat)
    requires Inv(src, s) && c < |s.cursors|
    ensures var s' := s.(cursors := s.cursors[c := s.cursors[c].(completed := true)]); Inv(src, s') && Progress(s, s')
  {
    ProgressKeepsInv(src, s, s.(cursors := s.cursors[c := s.cursors[c].(completed := true)]));
  }

  lemma CompletionsKeep(src: Source, s: State, c: nat, led: bool)
    requires Inv(src, s) && ValidRunner(src, s, Finishing(c, led)) && s.cursors[c].completed
    ensures Inv(src, s.(completions := s.completions + {(c, led)}))
  {
    hide ValidCursor;
    var s' := s.(completions := s.completions + {(c, led)});
    assert forall t :: ValidTxn(src, s, t) ==> ValidTxn(src, s', t);
    assert forall runner :: ValidRunner(src, s, runner) ==> ValidRunner(src, s', runner);
  }

  lemma UnsettledKeeps(src: Source, s: State, c: nat, led: bool)
    requires Inv(src, s) && ValidRunner(src, s, Finishing(c, led))
    ensures var s' := s.(unsettled := s.unsettled + {(c, led)}); Inv(src, s') && Progress(s, s')
  {
    var s' := s.(unsettled := s.unsettled + {(c, led)});
    forall r | r in s'.runners ensures ValidRunner(src, s', s'.runners[r]) {
      ProgressKeepsRunner(src, s, s', s.runners[r]);
    }
  }

  lemma InFlightKeeps(src: Source, s: State, inFlight: seq<Txn>)
    requires Inv(src, s) && forall k :: 0 <= k < |inFlight| ==> ValidTxn(src, s, inFlight[k])
    ensures Inv(src, s.(inFlight := inFlight)) && Progress(s, s.(inFlight := inFlight))
  {
    var s' := s.(inFlight := inFlight);
    forall r | r in s'.runners ensures ValidRunner(src, s', s'.runners[r]) {
      ProgressKeepsRunner(src, s, s', s.runners[r]);
    }
  }

  lemma FetchedIsValid(src: Source, s: State, c: nat, offset: nat, total: nat)
    requires ValidSource(src) && Inv(src, s) && ValidRunner(src, s, Looping(c, offset, total)) && offset < total
    ensures var rows := Page(src.rowsOf(s.cursors[c].job), offset, src.batchSize);
      rows != [] && ValidTxn(src, s, Txn(c, offset, rows))
  {
    assert ValidCursor(src, s.target, s.cursors[c]);
  }

  lemma StartIsValid(src: Source, s: State, c: nat)
    requires Inv(src, s) && c < |s.cursors|
    ensures ValidRunner(src, s, Start(c, s.cursors[c]))
  {
    assert ValidCursor(src, s.target, s.cursors[c]);
  }

  /** One step of any runner, crash or late COMMIT keeps the invariant and undoes nothing. */
  lemma StepKeeps(src: Source, s: State, a: Action)
    requires ValidSource(src) && Inv(src, s) && Next(src, s, a).Some?
    ensures Inv(src, Next(src, s, a).value) && Progress(s, Next(src, s, a).value)
  {
    hide Inv, Progress, ValidTxn, InsertIgnore;
    var s' := Next(src, s, a).value;
    match a {
      case Begin(r, job) => MoveKeeps(src, s, r, Resolving(job));
      case Resume(r, c) => StartIsValid(src, s, c); MoveKeeps(src, s, r, Start(c, s.cursors[c]));
      case Count(r) => MoveKeeps(src, s, r, s'.runners[r]);
      case Create(r) => StepCreate(src, s, r);
      case Leave(r) => MoveKeeps(src, s, r, Idle);
      case LoseLeadership(r) => RunnerIsValid(src, s, r); MoveKeeps(src, s, r, s'.runners[r]);
      case ExitLoop(r) => RunnerIsValid(src, s, r); MoveKeeps(src, s, r, s'.runners[r]);
      case Fetch(r) =>
        RunnerIsValid(src, s, r);
        FetchedIsValid(src, s, s.runners[r].cursor, s.runners[r].offset, s.runners[r].total);
        MoveKeeps(src, s, r, s'.runners[r]);
      case Commit(r) => StepCommit(src, s, r);
      case CommitUnknown(r) => StepInFlight(src, s, a);
      case Land(k) => StepInFlight(src, s, a);
      case Drop(k) => StepInFlight(src, s, a);
      case Complete(r) => StepComplete(src, s, r);
      case CompleteUnknown(r) => StepCompleteUnknown(src, s, r);
      case LandCompletion(completion) =>
        UnsettledIsValid(src, s, completion);
        CompleteKeeps(src, s, completion.0, completion.1);
    }
  }

  lemma RunnerIsValid(src: Source, s: State, r: nat)
    requires Inv(src, s)
    ensures ValidRunner(src, s, RunnerOf(s, r))
    ensures RunnerOf(s, r).Looping? ==> s.cursors[RunnerOf(s, r).cursor].offset <= s.cursors[RunnerOf(s, r).cursor].total
  {
    if RunnerOf(s, r).Looping? {
      assert ValidCursor(src, s.target, s.cursors[RunnerOf(s, r).cursor]);
    }
  }

  lemma ProgressTransitive(s: State, s': State, s'': State)
    requires Progress(s, s') && Progress(s', s'')
    ensures Progress(s, s'')
  {
  }

  lemma StepCreate(src: Source, s: State, r: nat)
    requires Inv(src, s) && Next(src, s, Create(r)).Some?
    ensures Inv(src, Next(src, s, Create(r)).value) && Progress(s, Next(src, s, Create(r)).value)
  {
    hide Inv, Progress;
    RunnerIsValid(src, s, r);
    var cursor := Cursor(RunnerOf(s, r).job, RunnerOf(s, r).count, 0, false);
    var s' := s.(cursors := s.cursors + [cursor]);
    CreateKeeps(src, s, RunnerOf(s, r).job);
    StartIsValid(src, s', |s.cursors|);
    MoveKeeps(src, s', r, Start(|s.cursors|, cursor));
    ProgressTransitive(s, s', Next(src, s, Create(r)).value);
  }

  lemma StepCommit(src: Source, s: State, r: nat)
    requires Inv(src, s) && Next(src, s, Commit(r)).Some?
    ensures Inv(src, Next(src, s, Commit(r)).value) && Progress(s, Next(src, s, Commit(r)).value)
  {
    hide Inv, Progress, InsertIgnore;
    RunnerIsValid(src, s, r);
    var t := s.runners[r].txn;
    ApplyKeeps(src, s, t);
    MoveKeeps(src, Apply(s, t), r, Looping(t.cursor, t.start + |t.rows|, s.runners[r].total));
    ProgressTransitive(s, Apply(s, t), Next(src, s, Commit(r)).value);
  }

  lemma StepInFlight(src: Source, s: State, a: Action)
    requires a.CommitUnknown? || a.Land? || a.Drop?
    requires Inv(src, s) && Next(src, s, a).Some?
    ensures Inv(src, Next(src, s, a).value) && Progress(s, Next(src, s, a).value)
  {
    hide InsertIgnore, ValidCursor, Progress;
    var s' := Next(src, s, a).value;
    match a {
      case CommitUnknown(r) =>
        RunnerIsValid(src, s, r);
        var issued := s.(inFlight := s.inFlight + [s.runners[r].txn]);
        InFlightKeeps(src, s, issued.inFlight);
        MoveKeeps(src, issued, r, Idle);
        ProgressTransitive(s, issued, s');
      case Land(k) =>
        ApplyKeeps(src, s, s.inFlight[k]);
        var landed := Apply(s, s.inFlight[k]);
        InFlightKeeps(src, landed, Without(landed.inFlight, k));
        ProgressTransitive(s, landed, s');
      case Drop(k) =>
        InFlightKeeps(src, s, Without(s.inFlight, k));
    }
  }

  lemma StepComplete(src: Source, s: State, r: nat)
    requires Inv(src, s) && Next(src, s, Complete(r)).Some?
    ensures Inv(src, Next(src, s, Complete(r)).value) && Progress(s, Next(src, s, Complete(r)).value)
  {
    hide Inv, Progress;
    RunnerIsValid(src, s, r);
    var Finishing(c, led) := s.runners[r];
    var s' := Completed(s, (c, led));
    CompleteKeeps(src, s, c, led);
    MoveKeeps(src, s', r, Idle);
    ProgressTransitive(s, s', Next(src, s, Complete(r)).value);
  }

  lemma UnsettledIsValid(src: Source, s: State, completion: (nat, bool))
    requires Inv(src, s) && completion in s.unsettled
    ensures ValidRunner(src, s, Finishing(completion.0, completion.1))
  {
  }

  lemma StepCompleteUnknown(src: Source, s: State, r: nat)
    requires Inv(src, s) && Next(src, s, CompleteUnknown(r)).Some?
    ensures Inv(src, Next(src, s, CompleteUnknown(r)).value) && Progress(s, Next(src, s, CompleteUnknown(r)).value)
  {
    hide Inv, Progress;
    RunnerIsValid(src, s, r);
    var Finishing(c, led) := s.runners[r];
    var s' := s.(unsettled := s.unsettled + {(c, led)});
    UnsettledKeeps(src, s, c, led);
    MoveKeeps(src, s', r, Idle);
    ProgressTransitive(s, s', Next(src, s, CompleteUnknown(r)).value);
  }

  // ----- Whole runs -----

  /** Each state follows from the one before by the action between them. */
  ghost predicate IsPath(src: Source, path: seq<State>, actions: seq<Action>) {
    && |path| == |actions| + 1
    && (forall i :: 0 <= i < |actions| ==> Next(src, path[i], actions[i]) == Some(path[i + 1]))
  }

  ghost predicate IsRun(src: Source, run: seq<State>, actions: seq<Action>) {
    IsPath(src, run, actions) && Init(run[0])
  }

  lemma StepOf(src: Source, run: seq<State>, actions: seq<Action>, j: nat)
    requires IsRun(src, run, actions) && 0 < j < |run|
    ensures Next(src, run[j - 1], actions[j - 1]) == Some(run[j])
  {
    assert Next(src, run[j - 1], actions[j - 1]) == Some(run[(j - 1) + 1]);
  }

  lemma {:induction false} RunKeepsInv(src: Source, run: seq<State>, actions: seq<Action>, i: nat)
    requires ValidSource(src) && IsRun(src, run, actions) && i < |run|
    ensures Inv(src, run[i])
  {
    hide Next;
    if i > 0 {
      hide Inv;
      RunKeepsInv(src, run, actions, i - 1);
      StepOf(src, run, actions, i);
      StepKeeps(src, run[i - 1], actions[i - 1]);
    }
  }

  lemma {:induction false} EveryRunProgresses(src: Source, run: seq<State>, actions: seq<Action>, i: nat, j: nat)
    requires ValidSource(src) && IsRun(src, run, actions) && i <= j < |run|
    ensures Progress(run[i], run[j])
    decreases j - i
  {
    hide Inv, Next, Init;
    if i < j {
      EveryRunProgresses(src, run, actions, i, j - 1);
      RunKeepsInv(src, run, actions, j - 1);
      StepOf(src, run, actions, j);
      StepKeeps(src, run[j - 1], actions[j - 1]);
      ProgressTransitive(run[i], run[j - 1], run[j]);
    }
  }

  /** In every interleaving: offsets never decrease, the target never loses or changes a row,
      and every source row ranked below a cursor's offset is in the target. */
  lemma EveryRunIsSafe(src: Source, run: seq<State>, actions: seq<Action>, i: nat, j: nat)
    requires ValidSource(src) && IsRun(src, run, actions) && i <= j < |run|
    ensures Progress(run[i], run[j])
    ensures forall c :: 0 <= c < |run[j].cursors| ==>
      Copied(run[j].target, src.rowsOf(run[j].cursors[c].job), run[j].cursors[c].offset)
  {
    hide Progress, Next;
    EveryRunProgresses(src, run, actions, i, j);
    RunKeepsInv(src, run, actions, j);
    forall c | 0 <= c < |run[j].cursors|
      ensures Copied(run[j].target, src.rowsOf(run[j].cursors[c].job), run[j].cursors[c].offset)
    {
      assert ValidCursor(src, run[j].target, run[j].cursors[c]);
    }
  }

  /** The target holds what it held at the start and source rows, nothing else. */
  ghost predicate Sourced(src: Source, base: map<nat, Row>, target: map<nat, Row>) {
    forall k :: k in target ==> (k in base && target[k] == base[k]) || exists job :: target[k] in src.rowsOf(job)
  }

  lemma {:induction false} NothingInvented(src: Source, run: seq<State>, actions: seq<Action>, j: nat)
    requires ValidSource(src) && IsRun(src, run, actions) && j < |run|
    ensures Sourced(src, run[0].target, run[j].target)
  {
    hide Inv, Init, Next, Sourced;
    if j == 0 {
      StartIsSourced(src, run[0].target);
    } else {
      NothingInvented(src, run, actions, j - 1);
      RunKeepsInv(src, run, actions, j - 1);
      StepOf(src, run, actions, j);
      StepIsSourced(src, run[0].target, run[j - 1], actions[j - 1]);
    }
  }

  lemma StartIsSourced(src: Source, base: map<nat, Row>)
    ensures Sourced(src, base, base)
  {
  }

  lemma StepIsSourced(src: Source, base: map<nat, Row>, s: State, a: Action)
    requires Inv(src, s) && Next(src, s, a).Some? && Sourced(src, base, s.target)
    ensures Sourced(src, base, Next(src, s, a).value.target)
  {
    hide InsertIgnore, Sourced;
    match a {
      case Commit(r) =>
        RunnerIsValid(src, s, r);
        ApplyIsSourced(src, base, s, s.runners[r].txn);
      case Land(k) => ApplyIsSourced(src, base, s, s.inFlight[k]);
      case _ =>
    }
  }

  lemma ApplyIsSourced(src: Source, base: map<nat, Row>, s: State, t: Txn)
    requires ValidTxn(src, s, t) && Sourced(src, base, s.target)
    ensures Sourced(src, base, Apply(s, t).target)
  {
    var job := s.cursors[t.cursor].job;
    InsertIgnoreGains(s.target, t.rows);
    assert forall r :: r in t.rows ==> r in src.rowsOf(job);
  }

  /** A cursor completed by a run that led at every guard has had all its rows copied,
      whatever the other runners did. */
  lemma LedCompletionCopiedAll(src: Source, run: seq<State>, actions: seq<Action>, j: nat, c: nat)
    requires ValidSource(src) && IsRun(src, run, actions) && j < |run| && (c, true) in run[j].completions
    ensures c < |run[j].cursors| && run[j].cursors[c].completed
    ensures Copied(run[j].target, src.rowsOf(run[j].cursors[c].job), |src.rowsOf(run[j].cursors[c].job)|)
  {
    RunKeepsInv(src, run, actions, j);
    assert (c, true).0 == c && (c, true).1;
    assert ValidCursor(src, run[j].target, run[j].cursors[c]);
  }

  lemma Joined(src: Source, first: seq<State>, firstActions: seq<Action>, second: seq<State>, secondActions: seq<Action>)
    requires IsPath(src, first, firstActions) && IsPath(src, second, secondActions) && first[|first| - 1] == second[0]
    ensures IsPath(src, first + second[1..], firstActions + secondActions)
    ensures var joined := first + second[1..]; joined[0] == first[0] && joined[|joined| - 1] == second[|second| - 1]
  {
    hide Next;
    var path, actions := first + second[1..], firstActions + secondActions;
    forall i | 0 <= i < |actions| ensures Next(src, path[i], actions[i]) == Some(path[i + 1]) {
      if i < |firstActions| {
        assert path[i] == first[i] && path[i + 1] == first[i + 1];
      } else {
        var j := i - |firstActions|;
        assert path[i] == second[j] && path[i + 1] == second[j + 1] && actions[i] == secondActions[j];
      }
    }
  }

  /** Leadership is needed: on any source with rows to copy there is a run that loses the lease
      at its first guard, and completes its cursor with nothing copied. */
  lemma LostLeadershipCompletes(src: Source, job: Job) returns (run: seq<State>, actions: seq<Action>)
    requires |src.rowsOf(job)| > 0
    ensures IsRun(src, run, actions)
    ensures var last := run[|run| - 1];
      |last.cursors| == 1 && last.cursors[0].job == job && last.cursors[0].completed && last.cursors[0].offset == 0
      && last.target == map[] && last.inFlight == [] && RunnerOf(last, 0) == Idle
  {
    var n := |src.rowsOf(job)|;
    var s0 := State(map[], [], map[], [], {}, map[], {});
    var s1 := At(s0, 0, Resolving(job));
    var s2 := At(s1, 0, Counted(job, n));
    var s3 := At(s2.(cursors := s2.cursors + [Cursor(job, n, 0, false)]), 0, Looping(0, 0, n));
    var s4 := At(s3, 0, Finishing(0, false));
    var s5 := At(Completed(s4, (0, false)), 0, Idle);
    run := [s0, s1, s2, s3, s4, s5];
    actions := [Begin(0, job), Count(0), Create(0), LoseLeadership(0), Complete(0)];
    assert Next(src, s1, Count(0)) == Some(s2);
    assert Next(src, s2, Create(0)) == Some(s3);
    assert Next(src, s3, LoseLeadership(0)) == Some(s4);
    assert Next(src, s4, Complete(0)) == Some(s5);
  }

  /** Runner 1 stands at `offset` of the job's only cursor, and runner 0 still before its first batch. */
  ghost predicate Overtaking(src: Source, job: Job, s: State, offset: nat) {
    var n := |src.rowsOf(job)|;
    && s.cursors == [Cursor(job, n, offset, false)] && s.completions == {} && offset <= n
    && RunnerOf(s, 0) == Looping(0, 0, n) && RunnerOf(s, 1) == Looping(0, offset, n)
  }

  lemma {:induction false} OtherCopiesAll(src: Source, job: Job, s: State, offset: nat)
    returns (path: seq<State>, actions: seq<Action>)
    requires ValidSource(src) && Overtaking(src, job, s, offset)
    ensures IsPath(src, path, actions) && path[0] == s
    ensures Overtaking(src, job, path[|path| - 1], |src.rowsOf(job)|)
    decreases |src.rowsOf(job)| - offset
  {
    hide InsertIgnore;
    var n, rows := |src.rowsOf(job)|, Page(src.rowsOf(job), offset, src.batchSize);
    if offset == n {
      path, actions := [s], [];
    } else {
      var s1 := At(s, 1, InBatch(Txn(0, offset, rows), n));
      var s2 := At(Apply(s1, Txn(0, offset, rows)), 1, Looping(0, offset + |rows|, n));
      assert Next(src, s, Fetch(1)) == Some(s1) && Next(src, s1, Commit(1)) == Some(s2);
      path, actions := OtherCopiesAll(src, job, s2, offset + |rows|);
      assert IsPath(src, [s, s1, s2], [Fetch(1), Commit(1)]);
      hide Next, Overtaking;
      Joined(src, [s, s1, s2], [Fetch(1), Commit(1)], path, actions);
      path, actions := [s, s1, s2] + path[1..], [Fetch(1), Commit(1)] + actions;
    }
  }

  lemma BothResume(src: Source, job: Job) returns (run: seq<State>, actions: seq<Action>)
    requires |src.rowsOf(job)| > 0
    ensures IsRun(src, run, actions) && Overtaking(src, job, run[|run| - 1], 0)
  {
    var n := |src.rowsOf(job)|;
    var s0 := State(map[], [], map[], [], {}, map[], {});
    var s1 := At(s0, 0, Resolving(job));
    var s2 := At(s1, 0, Counted(job, n));
    var s3 := At(s2.(cursors := s2.cursors + [Cursor(job, n, 0, false)]), 0, Looping(0, 0, n));
    var s4 := At(s3, 1, Resolving(job));
    var s5 := At(s4, 1, Looping(0, 0, n));
    assert Next(src, s0, Begin(0, job)) == Some(s1);
    assert Next(src, s1, Count(0)) == Some(s2);
    assert Next(src, s2, Create(0)) == Some(s3);
    assert Next(src, s3, Begin(1, job)) == Some(s4);
    assert Next(src, s4, Resume(1, 0)) == Some(s5);
    hide Next;
    run := [s0, s1, s2, s3, s4, s5];
    actions := [Begin(0, job), Count(0), Create(0), Begin(1, job), Resume(1, 0)];
  }

  /** Leadership is not needed for the outcome: on any source with rows to copy there is a run in which a
      deposed runner makes the only completion, and another one has copied every row. */
  lemma DeposedCompletionCopiedAll(src: Source, job: Job) returns (run: seq<State>, actions: seq<Action>)
    requires ValidSource(src) && |src.rowsOf(job)| > 0
    ensures IsRun(src, run, actions)
    ensures var last := run[|run| - 1];
      last.completions == {(0, false)} && |last.cursors| == 1 && last.cursors[0].job == job && last.cursors[0].completed
      && Copied(last.target, src.rowsOf(job), |src.rowsOf(job)|)
  {
    var first, firstActions := BothResume(src, job);
    var second, secondActions := OtherCopiesAll(src, job, first[|first| - 1], 0);
    var s := second[|second| - 1];
    var s1 := At(s, 0, Finishing(0, false));
    var s2 := At(Completed(s1, (0, false)), 0, Idle);
    assert Next(src, s, LoseLeadership(0)) == Some(s1) && Next(src, s1, Complete(0)) == Some(s2);
    assert IsPath(src, [s, s1, s2], [LoseLeadership(0), Complete(0)]);
    hide Next;
    Joined(src, first, firstActions, second, secondActions);
    Joined(src, first + second[1..], firstActions + secondActions, [s, s1, s2], [LoseLeadership(0), Complete(0)]);
    run := first + second[1..] + [s, s1, s2][1..];
    actions := firstActions + secondActions + [LoseLeadership(0), Complete(0)];
    assert IsRun(src, run, actions);
    EveryRunIsSafe(src, run, actions, |run| - 1, |run| - 1);
  }
}
