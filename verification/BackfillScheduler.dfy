/** `runBackfill` of src/indexer/backfillScheduler.ts. Its workers share variables and
    interleave at their awaits, so one step here is what one worker (or the pause gate)
    does between two awaits. Lag reads, handler and callback outcomes and the abort signal
    are chosen by the environment. */
module BackfillScheduler {
  import opened Numbers
  import opened Options

  datatype Status = Pending | Done | Failed

  /** Why a worker may claim a batch. */
  datatype Reason =
    | YieldingOff
    | NotLagging(lag: Option<real>)    // its own read; `None` is an unusable value
    | GateClosed(gate: nat)            // it waited on this gate

  datatype Phase =
    | Top                                // at the loop guard
    | Reading                            // awaiting the lag
    | Waiting(gate: nat)                 // awaiting a pause gate
    | Clear(reason: Reason)              // allowed to claim
    | Handling(pos: nat, attempt: nat)
    | Committing(pos: nat, attempt: nat) // awaiting onCheckpoint
    | BackingOff(pos: nat, attempt: nat)
    | Left

  datatype Event = Paused | Resumed

  datatype Claim = Claim(worker: nat, reason: Reason)

  /** The options: `reports` says whether onCheckpoint is given, `yielding` whether a lag reader and a positive threshold are. */
  datatype Plan = Plan(indices: seq<int>, concurrency: nat, initial: int, retryLimit: nat,
                       reports: bool, yielding: bool, maxLag: real)

  /** The shared variables, the workers, and what has happened so far. `gate` is the source's pausePromise;
      `claims` is indexed by position, as `next` hands positions out. */
  datatype State = State(
    status: map<int, Status>, checkpoint: int, next: nat, error: bool, aborted: bool,
    gate: Option<nat>, settled: set<nat>, gatesOpened: nat, gauge: nat, events: seq<Event>,
    workers: seq<Phase>,
    succeeded: set<int>, claims: seq<Claim>, reported: seq<int>)

  datatype Action =
    | Begin(w: nat)
    | Observe(w: nat, lag: Option<real>)
    | Proceed(w: nat)
    | Take(w: nat)
    | Handled(w: nat, ok: bool)
    | Reported(w: nat, ok: bool)
    | Retry(w: nat)
    | Poll(lag: Option<real>)
    | Abort

  ghost predicate ValidPlan(plan: Plan) {
    && plan.retryLimit >= 1
    && forall i, j :: 0 <= i < j < |plan.indices| ==> plan.indices[i] < plan.indices[j]
  }

  function WorkerCount(plan: Plan): nat {
    var most := if plan.concurrency < |plan.indices| then plan.concurrency else |plan.indices|;
    if most < 1 then 1 else most
  }

  function StatusOf(status: map<int, Status>, i: int): Option<Status> { if i in status then Some(status[i]) else None }

  ghost predicate Init(plan: Plan, s: State) {
    && s.status == (map i | i in plan.indices :: Pending)
    && s.checkpoint == plan.initial && s.next == 0 && !s.error
    && s.gate == None && s.settled == {} && s.gatesOpened == 0 && s.gauge == 0 && s.events == []
    && s.workers == seq(WorkerCount(plan), _ => Top)
    && s.succeeded == {} && s.claims == [] && s.reported == []
  }

  // ----- commit -----

  function Ahead(status: map<int, Status>, checkpoint: int): set<int> {
    set i | i in status && i > checkpoint
  }

  lemma AheadShrinks(status: map<int, Status>, checkpoint: int)
    requires checkpoint + 1 in status
    ensures |Ahead(status, checkpoint + 1)| < |Ahead(status, checkpoint)|
  {
    assert Ahead(status, checkpoint) == Ahead(status, checkpoint + 1) + {checkpoint + 1};
  }

  /** The last index of the contiguous run of done batches that follows `checkpoint`. */
  function Advanced(status: map<int, Status>, checkpoint: int): (r: int)
    ensures checkpoint <= r && StatusOf(status, r + 1) != Some(Done)
    ensures forall i :: checkpoint < i <= r ==> StatusOf(status, i) == Some(Done)
    decreases |Ahead(status, checkpoint)|
  {
    if StatusOf(status, checkpoint + 1) == Some(Done) then
      AheadShrinks(status, checkpoint);
      Advanced(status, checkpoint + 1)
    else checkpoint
  }

  // ----- One step -----

  function At(s: State, w: nat): Phase { if w < |s.workers| then s.workers[w] else Left }

  function Put(s: State, w: nat, p: Phase): State { if w < |s.workers| then s.(workers := s.workers[w := p]) else s }

  predicate Stopping(s: State) { s.error || s.aborted }

  predicate Lags(plan: Plan, lag: Option<real>) { lag.Some? && lag.value >= plan.maxLag }

  /** The catch block. */
  function Caught(plan: Plan, s: State, w: nat, pos: nat, attempt: nat): State
    requires pos < |plan.indices|
  {
    if attempt == plan.retryLimit then
      Put(s.(error := true, status := s.status[plan.indices[pos] := Failed]), w, Top)
    else Put(s, w, BackingOff(pos, attempt))
  }

  /** The handler returned: mark the batch, commit, and report the checkpoint if there is progress. */
  function Committed(plan: Plan, s: State, w: nat, pos: nat, attempt: nat): State
    requires pos < |plan.indices|
  {
    var status := s.status[plan.indices[pos] := Done];
    var c := Advanced(status, s.checkpoint);
    var s' := s.(status := status, checkpoint := c, succeeded := s.succeeded + {plan.indices[pos]});
    if plan.reports && c > plan.initial then Put(s'.(reported := s.reported + [c]), w, Committing(pos, attempt))
    else Put(s', w, Top)
  }

  /** The worker opens the gate. Under abort the gate settles at once, yet stays assigned. */
  function OpenGate(s: State, w: nat): State {
    var g := s.gatesOpened;
    var s' := Put(s.(gatesOpened := g + 1, gate := Some(g)), w, Waiting(g));
    if s.aborted then s'.(gauge := 0, events := s.events + [Paused, Resumed], settled := s.settled + {g})
    else s'.(gauge := 1, events := s.events + [Paused])
  }

  function Next(plan: Plan, s: State, a: Action): Option<State> {
    match a
    case Begin(w) =>
      if At(s, w) != Top then None
      else if Stopping(s) then Some(Put(s, w, Left))
      else if !plan.yielding then Some(Put(s, w, Clear(YieldingOff)))
      else if s.gate.Some? then Some(Put(s, w, Waiting(s.gate.value)))
      else Some(Put(s, w, Reading))
    case Observe(w, lag) =>
      if At(s, w) != Reading then None
      else if s.gate.Some? then Some(Put(s, w, Waiting(s.gate.value)))
      else if !Lags(plan, lag) then Some(Put(s, w, Clear(NotLagging(lag))))
      else Some(OpenGate(s, w))
    case Proceed(w) =>
      if !At(s, w).Waiting? || At(s, w).gate !in s.settled then None
      else Some(Put(s, w, Clear(GateClosed(At(s, w).gate))))
    case Take(w) =>
      if !At(s, w).Clear? then None
      else if Stopping(s) then Some(Put(s, w, Left))
      else if s.next >= |plan.indices| then Some(Put(s.(next := s.next + 1), w, Left))
      else Some(Put(s.(next := s.next + 1, claims := s.claims + [Claim(w, At(s, w).reason)]), w, Handling(s.next, 1)))
    case Handled(w, ok) =>
      if !At(s, w).Handling? || At(s, w).pos >= |plan.indices| then None
      else if ok then Some(Committed(plan, s, w, At(s, w).pos, At(s, w).attempt))
      else Some(Caught(plan, s, w, At(s, w).pos, At(s, w).attempt))
    case Reported(w, ok) =>
      if !At(s, w).Committing? || At(s, w).pos >= |plan.indices| then None
      else if ok then Some(Put(s, w, Top))
      else Some(Caught(plan, s, w, At(s, w).pos, At(s, w).attempt))
    case Retry(w) =>
      if !At(s, w).BackingOff? then None
      else if s.aborted then Some(Put(s, w, Left))
      else Some(Put(s, w, Handling(At(s, w).pos, At(s, w).attempt + 1)))
    case Poll(lag) =>
      if s.gate.None? || s.gate.value in s.settled then None
      else if lag.GetOr(0.0) >= plan.maxLag && !s.aborted then Some(s)
      else Some(s.(gauge := 0, events := s.events + [Resumed], gate := None, settled := s.settled + {s.gate.value}))
    case Abort => Some(s.(aborted := true))
  }

  // ----- What every step keeps -----

  /** Everything up to the checkpoint was handled, and the checkpoint is as far as `commit` can take it. */
  ghost predicate Sound(plan: Plan, s: State) {
    && plan.initial <= s.checkpoint
    && (forall i :: plan.initial < i <= s.checkpoint ==> i in s.succeeded)
    && (forall i :: StatusOf(s.status, i) == Some(Done) ==> i in s.succeeded)
    && StatusOf(s.status, s.checkpoint + 1) != Some(Done)
  }

  ghost predicate ReportsOrdered(plan: Plan, s: State) {
    && (forall k :: 0 <= k < |s.reported| ==> plan.initial < s.reported[k] <= s.checkpoint)
    && (forall j, k :: 0 <= j < k < |s.reported| ==> s.reported[j] <= s.reported[k])
  }

  function InFlight(p: Phase): Option<nat> {
    match p
    case Handling(pos, _) => Some(pos)
    case Committing(pos, _) => Some(pos)
    case BackingOff(pos, _) => Some(pos)
    case _ => None
  }

  /** Position k is claimed k-th, by one worker, and only that worker works on it. */
  ghost predicate ClaimedOnce(plan: Plan, s: State) {
    && |s.claims| == Min(s.next, |plan.indices|)
    && forall w: nat :: InFlight(At(s, w)).Some? ==>
         InFlight(At(s, w)).value < |s.claims| && s.claims[InFlight(At(s, w)).value].worker == w
  }

  predicate Justified(plan: Plan, settled: set<nat>, r: Reason) {
    match r
    case YieldingOff => !plan.yielding
    case NotLagging(lag) => !Lags(plan, lag)
    case GateClosed(g) => g in settled
  }

  ghost predicate ClaimsJustified(plan: Plan, s: State) {
    && (forall k :: 0 <= k < |s.claims| ==> Justified(plan, s.settled, s.claims[k].reason))
    && (forall w: nat :: At(s, w).Clear? ==> Justified(plan, s.settled, At(s, w).reason))
  }

  /** Pause and resume alternate, starting with a pause; the gauge says which came last; every gate
      but the current one has settled. */
  ghost predicate Gated(s: State) {
    && (forall k :: 0 <= k < |s.events| ==> s.events[k] == if k % 2 == 0 then Paused else Resumed)
    && s.gauge == |s.events| % 2
    && (forall g: nat :: g in s.settled ==> g < s.gatesOpened)
    && (s.gauge == 1 <==> s.gate.Some? && s.gate.value !in s.settled)
    && (s.gate.Some? ==> s.gate.value < s.gatesOpened)
    && (forall g: nat :: g < s.gatesOpened && g !in s.settled ==> s.gate == Some(g))
  }

  /** A claimed batch is done, or still in some worker's hands, unless the run is stopping. */
  ghost predicate NothingDropped(plan: Plan, s: State) {
    && (forall k: nat :: k < |s.claims| && k < |plan.indices| ==> Accounted(plan, s, k))
    && (forall w: nat :: At(s, w).Committing? ==> IsDone(plan, s, At(s, w).pos))
    && (forall w: nat :: w < |s.workers| && At(s, w).Left? ==> Stopping(s) || s.next > |plan.indices|)
  }

  predicate IsDone(plan: Plan, s: State, k: nat) {
    k < |plan.indices| && StatusOf(s.status, plan.indices[k]) == Some(Done)
  }

  ghost predicate Accounted(plan: Plan, s: State, k: nat) {
    Stopping(s) || IsDone(plan, s, k) || exists w: nat :: InFlight(At(s, w)) == Some(k)
  }

  ghost predicate Inv(plan: Plan, s: State) {
    && |s.workers| == WorkerCount(plan)
    && Sound(plan, s) && ReportsOrdered(plan, s) && ClaimedOnce(plan, s) && ClaimsJustified(plan, s)
    && Gated(s) && NothingDropped(plan, s)
  }

  lemma InitInv(plan: Plan, s: State)
    requires ValidPlan(plan) && Init(plan, s)
    ensures Inv(plan, s)
  {
  }

  lemma CommittedSound(plan: Plan, s: State, w: nat, pos: nat, attempt: nat)
    requires Sound(plan, s) && pos < |plan.indices|
    ensures Sound(plan, Committed(plan, s, w, pos, attempt))
  {
    var s' := Committed(plan, s, w, pos, attempt);
    forall i | StatusOf(s'.status, i) == Some(Done) ensures i in s'.succeeded {
      assert i == plan.indices[pos] || StatusOf(s.status, i) == Some(Done);
    }
    forall i | plan.initial < i <= s'.checkpoint ensures i in s'.succeeded {
      assert i <= s.checkpoint || StatusOf(s'.status, i) == Some(Done);
    }
  }

  lemma CaughtSound(plan: Plan, s: State, w: nat, pos: nat, attempt: nat)
    requires Sound(plan, s) && pos < |plan.indices|
    ensures Sound(plan, Caught(plan, s, w, pos, attempt))
  {
    var s' := Caught(plan, s, w, pos, attempt);
    forall i | StatusOf(s'.status, i) == Some(Done) ensures StatusOf(s.status, i) == Some(Done) {
    }
  }

  lemma StepKeepsSound(plan: Plan, s: State, a: Action)
    requires Sound(plan, s) && Next(plan, s, a).Some?
    ensures Sound(plan, Next(plan, s, a).value) && s.checkpoint <= Next(plan, s, a).value.checkpoint
  {
    match a {
      case Handled(w, ok) =>
        hide Sound, Advanced;
        if ok {
          CommittedSound(plan, s, w, At(s, w).pos, At(s, w).attempt);
        } else {
          CaughtSound(plan, s, w, At(s, w).pos, At(s, w).attempt);
        }
      case Reported(w, ok) =>
        hide Advanced;
        if !ok {
          CaughtSound(plan, s, w, At(s, w).pos, At(s, w).attempt);
        }
      case _ =>
        SameProgress(plan, s, a);
    }
  }

  lemma SameProgress(plan: Plan, s: State, a: Action)
    requires !a.Handled? && !a.Reported? && Next(plan, s, a).Some?
    ensures var s' := Next(plan, s, a).value;
      s'.status == s.status && s'.checkpoint == s.checkpoint && s'.succeeded == s.succeeded
  {
    hide Caught, Committed;
  }

  lemma StepKeepsReports(plan: Plan, s: State, a: Action)
    requires Sound(plan, s) && ReportsOrdered(plan, s) && Next(plan, s, a).Some?
    ensures ReportsOrdered(plan, Next(plan, s, a).value) && s.reported <= Next(plan, s, a).value.reported
  {
    hide ReportsOrdered, Sound;
    StepKeepsSound(plan, s, a);
    ReportEffect(plan, s, a);
    hide Next;
    ReportsExtend(plan, s, Next(plan, s, a).value);
  }

  lemma ReportEffect(plan: Plan, s: State, a: Action)
    requires Next(plan, s, a).Some?
    ensures ReportsMove(plan, s, Next(plan, s, a).value)
  {
    hide Advanced;
  }

  ghost predicate ReportsMove(plan: Plan, s: State, s': State) {
    || s'.reported == s.reported
    || (s'.reported == s.reported + [s'.checkpoint] && s'.checkpoint > plan.initial)
  }

  lemma ReportsExtend(plan: Plan, s: State, s': State)
    requires ReportsOrdered(plan, s) && s.checkpoint <= s'.checkpoint && ReportsMove(plan, s, s')
    ensures ReportsOrdered(plan, s') && s.reported <= s'.reported
  {
  }

  /** What a step does to one worker. */
  ghost predicate WorkerMoves(plan: Plan, s: State, a: Action, s': State, w: nat) {
    && (|| InFlight(At(s', w)).None?
        || InFlight(At(s', w)) == InFlight(At(s, w))
        || (a == Take(w) && s.next < |plan.indices| && InFlight(At(s', w)) == Some(s.next)))
    && (At(s', w).Clear? ==>
          At(s', w) == At(s, w) || Justified(plan, s.settled, At(s', w).reason))
  }

  predicate ByWorker(a: Action) { !a.Poll? && !a.Abort? }

  lemma OthersStay(plan: Plan, s: State, a: Action, v: nat)
    requires Next(plan, s, a).Some? && !(ByWorker(a) && a.w == v)
    ensures At(Next(plan, s, a).value, v) == At(s, v)
  {
    hide Advanced, Lags;
  }

  lemma ActorMoves(plan: Plan, s: State, a: Action)
    requires Next(plan, s, a).Some? && ByWorker(a)
    ensures WorkerMoves(plan, s, a, Next(plan, s, a).value, a.w)
  {
    hide Advanced, Lags, Caught, Committed;
    if a.Handled? || a.Reported? {
      hide Next;
      HandlerMoves(plan, s, a);
    }
  }

  lemma HandlerMoves(plan: Plan, s: State, a: Action)
    requires Next(plan, s, a).Some? && (a.Handled? || a.Reported?)
    ensures WorkerMoves(plan, s, a, Next(plan, s, a).value, a.w)
  {
    hide Advanced, Lags, OpenGate, Justified;
  }

  lemma WorkerEffect(plan: Plan, s: State, a: Action, w: nat)
    requires Next(plan, s, a).Some?
    ensures WorkerMoves(plan, s, a, Next(plan, s, a).value, w)
  {
    hide Next;
    if ByWorker(a) && a.w == w {
      ActorMoves(plan, s, a);
    } else {
      OthersStay(plan, s, a, w);
    }
  }

  /** What a step does to the claims and the settled gates. */
  ghost predicate ClaimsMove(plan: Plan, s: State, a: Action, s': State) {
    && s.settled <= s'.settled
    && (if a.Take? && !Stopping(s) && s.next < |plan.indices| then
          && At(s, a.w).Clear? && s'.claims == s.claims + [Claim(a.w, At(s, a.w).reason)] && s'.next == s.next + 1
        else s'.claims == s.claims && (s'.next == s.next || (s.next >= |plan.indices| && s'.next > s.next)))
    && (a.Take? && Stopping(s) ==> InFlight(At(s', a.w)).None?)
  }

  lemma ClaimsEffect(plan: Plan, s: State, a: Action)
    requires Next(plan, s, a).Some?
    ensures ClaimsMove(plan, s, a, Next(plan, s, a).value)
  {
    hide Advanced;
  }

  lemma StepKeepsClaims(plan: Plan, s: State, a: Action)
    requires ClaimedOnce(plan, s) && Next(plan, s, a).Some?
    ensures ClaimedOnce(plan, Next(plan, s, a).value) && s.claims <= Next(plan, s, a).value.claims
  {
    hide Next;
    var s' := Next(plan, s, a).value;
    ClaimsEffect(plan, s, a);
    forall w: nat | InFlight(At(s', w)).Some?
      ensures InFlight(At(s', w)).value < |s'.claims| && s'.claims[InFlight(At(s', w)).value].worker == w
    {
      WorkerEffect(plan, s, a, w);
      assert InFlight(At(s, w)).Some? ==> InFlight(At(s, w)).value < |s.claims|;
    }
  }

  lemma StepKeepsJustified(plan: Plan, s: State, a: Action)
    requires ClaimsJustified(plan, s) && Next(plan, s, a).Some?
    ensures ClaimsJustified(plan, Next(plan, s, a).value)
  {
    hide Next;
    var s' := Next(plan, s, a).value;
    ClaimsEffect(plan, s, a);
    forall w: nat | At(s', w).Clear? ensures Justified(plan, s'.settled, At(s', w).reason) {
      WorkerEffect(plan, s, a, w);
      assert At(s, w).Clear? ==> Justified(plan, s.settled, At(s, w).reason);
    }
    forall k | 0 <= k < |s'.claims| ensures Justified(plan, s'.settled, s'.claims[k].reason) {
      if k < |s.claims| {
        assert s'.claims[k] == s.claims[k];
      }
    }
  }

  lemma StepKeepsGated(plan: Plan, s: State, a: Action)
    requires Gated(s) && Next(plan, s, a).Some?
    ensures Gated(Next(plan, s, a).value)
  {
    var s' := Next(plan, s, a).value;
    match a {
      case Observe(w, lag) =>
        if s.gate.None? && Lags(plan, lag) && At(s, w) == Reading {
          GateOpened(s, w);
        }
      case Poll(lag) =>
        hide Advanced;
      case _ =>
        SameGate(plan, s, a);
    }
  }

  lemma SameGate(plan: Plan, s: State, a: Action)
    requires !a.Observe? && !a.Poll? && Next(plan, s, a).Some?
    ensures var s' := Next(plan, s, a).value;
      && s'.gate == s.gate && s'.settled == s.settled && s'.gatesOpened == s.gatesOpened
      && s'.gauge == s.gauge && s'.events == s.events
  {
    hide Caught, Committed, OpenGate, Advanced;
    if (a.Handled? || a.Reported?) && At(s, a.w).pos < |plan.indices| {
      SettleFrame(plan, s, a.w, At(s, a.w).pos, At(s, a.w).attempt);
    }
  }

  lemma SettleFrame(plan: Plan, s: State, w: nat, pos: nat, attempt: nat)
    requires pos < |plan.indices|
    ensures forall s' :: s' in [Caught(plan, s, w, pos, attempt), Committed(plan, s, w, pos, attempt)] ==>
      && s'.gate == s.gate && s'.settled == s.settled && s'.gatesOpened == s.gatesOpened
      && s'.gauge == s.gauge && s'.events == s.events
  {
    hide Advanced;
  }

  lemma GateOpened(s: State, w: nat)
    requires Gated(s) && s.gate.None?
    ensures Gated(OpenGate(s, w))
  {
  }

  /** Only the worker that holds a position takes its batch out of done, and when it lets go of the
      position the batch is done, unless the run is stopping. */
  lemma DoneEffect(plan: Plan, s: State, a: Action, w: nat, k: nat)
    requires ValidPlan(plan) && ClaimedOnce(plan, s) && NothingDropped(plan, s) && Next(plan, s, a).Some?
    requires k < |plan.indices|
    ensures InFlight(At(s, w)) == Some(k) ==>
              var s' := Next(plan, s, a).value; Stopping(s') || IsDone(plan, s', k) || InFlight(At(s', w)) == Some(k)
  {
    hide Advanced, ClaimedOnce;
    assert At(s, w).Committing? ==> IsDone(plan, s, At(s, w).pos);
  }

  lemma DoneStays(plan: Plan, s: State, a: Action, k: nat)
    requires ValidPlan(plan) && Next(plan, s, a).Some? && IsDone(plan, s, k)
    ensures var s' := Next(plan, s, a).value;
            || IsDone(plan, s', k)
            || (s'.error && (a.Handled? || a.Reported?) && InFlight(At(s, a.w)) == Some(k) && At(s', a.w) == Top)
  {
    hide Advanced;
  }

  lemma StepKeepsAccount(plan: Plan, s: State, a: Action, k: nat)
    requires ValidPlan(plan) && ClaimedOnce(plan, s) && NothingDropped(plan, s) && Next(plan, s, a).Some?
    requires k < |Next(plan, s, a).value.claims| && k < |plan.indices|
    ensures Accounted(plan, Next(plan, s, a).value, k)
  {
    hide Next, IsDone;
    var s' := Next(plan, s, a).value;
    ClaimsEffect(plan, s, a);
    StoppingStays(plan, s, a);
    if k < |s.claims| {
      assert Accounted(plan, s, k);
      if w: nat :| InFlight(At(s, w)) == Some(k) {
        DoneEffect(plan, s, a, w, k);
      } else if IsDone(plan, s, k) {
        DoneStays(plan, s, a, k);
      }
    } else {
      TakeEffect(plan, s, a.w);
    }
  }

  lemma StoppingStays(plan: Plan, s: State, a: Action)
    requires Next(plan, s, a).Some?
    ensures Stopping(s) ==> Stopping(Next(plan, s, a).value)
  {
    hide Advanced;
  }

  lemma TakeEffect(plan: Plan, s: State, w: nat)
    requires Next(plan, s, Take(w)).Some? && !Stopping(s) && s.next < |plan.indices|
    ensures InFlight(At(Next(plan, s, Take(w)).value, w)) == Some(s.next)
  {
  }

  lemma ActorCommits(plan: Plan, s: State, a: Action)
    requires Next(plan, s, a).Some? && ByWorker(a) && At(Next(plan, s, a).value, a.w).Committing?
    ensures a == Handled(a.w, true) && IsDone(plan, Next(plan, s, a).value, At(Next(plan, s, a).value, a.w).pos)
  {
    hide Advanced, Lags;
  }

  lemma BecomesCommitting(plan: Plan, s: State, a: Action, w: nat)
    requires Next(plan, s, a).Some? && At(Next(plan, s, a).value, w).Committing?
    ensures a == Handled(w, true) ==> IsDone(plan, Next(plan, s, a).value, At(Next(plan, s, a).value, w).pos)
    ensures a != Handled(w, true) ==> At(Next(plan, s, a).value, w) == At(s, w)
  {
    hide Next, IsDone;
    if ByWorker(a) && a.w == w {
      ActorCommits(plan, s, a);
    } else {
      OthersStay(plan, s, a, w);
    }
  }

  lemma StepKeepsCommitting(plan: Plan, s: State, a: Action, w: nat)
    requires ValidPlan(plan) && ClaimedOnce(plan, s) && NothingDropped(plan, s) && Next(plan, s, a).Some?
    requires At(Next(plan, s, a).value, w).Committing?
    ensures IsDone(plan, Next(plan, s, a).value, At(Next(plan, s, a).value, w).pos)
  {
    hide Next, Accounted, IsDone;
    BecomesCommitting(plan, s, a, w);
    if a != Handled(w, true) {
      assert InFlight(At(s, w)).Some?;
      DoneStays(plan, s, a, At(s, w).pos);
    }
  }

  lemma StepKeepsLeft(plan: Plan, s: State, a: Action, w: nat)
    requires NothingDropped(plan, s) && Next(plan, s, a).Some?
    requires w < |Next(plan, s, a).value.workers| && At(Next(plan, s, a).value, w).Left?
    ensures var s' := Next(plan, s, a).value; Stopping(s') || s'.next > |plan.indices|
  {
    hide Advanced;
    assert w < |s.workers| && At(s, w).Left? ==> Stopping(s) || s.next > |plan.indices|;
  }

  lemma StepKeepsAccounts(plan: Plan, s: State, a: Action)
    requires ValidPlan(plan) && ClaimedOnce(plan, s) && NothingDropped(plan, s) && Next(plan, s, a).Some?
    ensures NothingDropped(plan, Next(plan, s, a).value)
  {
    hide Next, Accounted, IsDone, ClaimedOnce;
    var s' := Next(plan, s, a).value;
    forall k: nat | k < |s'.claims| && k < |plan.indices| ensures Accounted(plan, s', k) {
      StepKeepsAccount(plan, s, a, k);
    }
    forall w: nat | At(s', w).Committing? ensures IsDone(plan, s', At(s', w).pos) {
      StepKeepsCommitting(plan, s, a, w);
    }
    forall w: nat | w < |s'.workers| && At(s', w).Left? ensures Stopping(s') || s'.next > |plan.indices| {
      StepKeepsLeft(plan, s, a, w);
    }
  }

  lemma StepKeepsInv(plan: Plan, s: State, a: Action)
    requires ValidPlan(plan) && Inv(plan, s) && Next(plan, s, a).Some?
    ensures Inv(plan, Next(plan, s, a).value)
  {
    hide Sound, ReportsOrdered, ClaimedOnce, ClaimsJustified, Gated, NothingDropped, Advanced;
    StepKeepsSound(plan, s, a);
    StepKeepsReports(plan, s, a);
    StepKeepsClaims(plan, s, a);
    StepKeepsJustified(plan, s, a);
    StepKeepsGated(plan, s, a);
    StepKeepsAccounts(plan, s, a);
  }

  // ----- Whole runs -----

  ghost predicate Run(plan: Plan, run: seq<State>) {
    && run != [] && Init(plan, run[0])
    && forall k: nat :: k + 1 < |run| ==> Steps(plan, run[k], run[k + 1])
  }

  ghost predicate Steps(plan: Plan, s: State, s': State) { exists a :: Next(plan, s, a) == Some(s') }

  lemma {:induction false} EveryRunKeepsInv(plan: Plan, run: seq<State>, k: nat)
    requires ValidPlan(plan) && Run(plan, run) && k < |run|
    ensures Inv(plan, run[k])
  {
    hide Next, Inv, Init;
    if k == 0 {
      InitInv(plan, run[0]);
    } else {
      EveryRunKeepsInv(plan, run, k - 1);
      assert Steps(plan, run[k - 1], run[k - 1 + 1]);
      var a :| Next(plan, run[k - 1], a) == Some(run[k]);
      StepKeepsInv(plan, run[k - 1], a);
    }
  }

  /** At every moment of every run, each index above the initial checkpoint up to the checkpoint has had
      its handler succeed; checkpoints, reports and claims only ever grow. */
  lemma {:induction false} CheckpointsAreSafe(plan: Plan, run: seq<State>, j: nat, k: nat)
    requires ValidPlan(plan) && Run(plan, run) && j <= k < |run|
    ensures forall i :: plan.initial < i <= run[k].checkpoint ==> i in run[k].succeeded
    ensures run[j].checkpoint <= run[k].checkpoint && run[j].reported <= run[k].reported && run[j].claims <= run[k].claims
    ensures forall m, n :: 0 <= m < n < |run[k].reported| ==> run[k].reported[m] <= run[k].reported[n]
    decreases k
  {
    hide Next, Init;
    EveryRunKeepsInv(plan, run, k);
    if j < k {
      CheckpointsAreSafe(plan, run, j, k - 1);
      EveryRunKeepsInv(plan, run, k - 1);
      assert Steps(plan, run[k - 1], run[k - 1 + 1]);
      var a :| Next(plan, run[k - 1], a) == Some(run[k]);
      hide Sound, ReportsOrdered, ClaimedOnce, ClaimsJustified, Gated, NothingDropped;
      StepKeepsSound(plan, run[k - 1], a);
      StepKeepsReports(plan, run[k - 1], a);
      StepKeepsClaims(plan, run[k - 1], a);
    }
  }

  /** Two workers never work on the same batch, and no more batches are claimed than there are. */
  lemma OneWorkerPerBatch(plan: Plan, run: seq<State>, k: nat, v: nat, w: nat)
    requires ValidPlan(plan) && Run(plan, run) && k < |run|
    requires InFlight(At(run[k], v)).Some? && InFlight(At(run[k], v)) == InFlight(At(run[k], w))
    ensures v == w && InFlight(At(run[k], v)).value < |run[k].claims| <= |plan.indices|
  {
    hide Sound, ReportsOrdered, ClaimsJustified, Gated, NothingDropped, Run;
    EveryRunKeepsInv(plan, run, k);
  }

  /** Every index above the initial checkpoint up to `c` belongs to a batch. */
  ghost predicate Contiguous(plan: Plan, c: int) { forall i :: plan.initial < i <= c ==> i in plan.indices }

  /** When every worker has left without an error or an abort, every batch is done and the checkpoint is
      the end of the run of indices that follows the initial one. */
  lemma FinishIsMaximal(plan: Plan, run: seq<State>)
    requires ValidPlan(plan) && Run(plan, run)
    requires var s := run[|run| - 1]; !Stopping(s) && forall w: nat :: w < |s.workers| ==> At(s, w).Left?
    ensures var s := run[|run| - 1];
      && (forall i :: i in plan.indices ==> i in s.succeeded)
      && s.checkpoint + 1 !in plan.indices
      && forall c :: Contiguous(plan, c) ==> c <= s.checkpoint
  {
    hide ReportsOrdered, ClaimsJustified, Gated, Init, Steps;
    var s := run[|run| - 1];
    EveryRunKeepsInv(plan, run, |run| - 1);
    assert At(s, 0).Left?;
    forall k: nat | k < |plan.indices| ensures IsDone(plan, s, k) {
      assert Accounted(plan, s, k);
    }
    forall i | i in plan.indices ensures StatusOf(s.status, i) == Some(Done) {
      var k: nat :| k < |plan.indices| && plan.indices[k] == i;
      assert IsDone(plan, s, k);
    }
    assert s.checkpoint + 1 !in plan.indices;
  }

  function Count(events: seq<Event>, e: Event): nat {
    if events == [] then 0 else Count(events[..|events| - 1], e) + if events[|events| - 1] == e then 1 else 0
  }

  lemma {:induction false} AlternatingCounts(events: seq<Event>)
    requires forall k :: 0 <= k < |events| ==> events[k] == if k % 2 == 0 then Paused else Resumed
    ensures Count(events, Paused) - Count(events, Resumed) == |events| % 2
  {
    if events != [] {
      AlternatingCounts(events[..|events| - 1]);
    }
  }

  /** At most one pause gate is open, pauses and resumes alternate, and the gauge is their difference. */
  lemma PausesAreSingle(plan: Plan, run: seq<State>, k: nat)
    requires ValidPlan(plan) && Run(plan, run) && k < |run|
    ensures var s := run[k];
      && (forall g: nat, h: nat :: g < s.gatesOpened && h < s.gatesOpened && g !in s.settled && h !in s.settled ==> g == h)
      && (forall n :: 0 <= n < |s.events| - 1 ==> s.events[n] != s.events[n + 1])
      && s.gauge == Count(s.events, Paused) - Count(s.events, Resumed)
      && (s.gauge == 1 <==> exists g: nat :: g < s.gatesOpened && g !in s.settled)
  {
    hide Sound, ReportsOrdered, ClaimsJustified, ClaimedOnce, NothingDropped, Run;
    EveryRunKeepsInv(plan, run, k);
    AlternatingCounts(run[k].events);
  }

  /** Every claim followed the worker's own read of a lag below the threshold, or its wait on a gate that
      has closed, unless yielding is off. */
  lemma ClaimsWaitForLiveIndexing(plan: Plan, run: seq<State>, k: nat, c: nat)
    requires ValidPlan(plan) && Run(plan, run) && k < |run| && c < |run[k].claims| && plan.yielding
    ensures match run[k].claims[c].reason
            case YieldingOff => false
            case NotLagging(lag) => lag == None || lag.value < plan.maxLag
            case GateClosed(g) => g in run[k].settled
  {
    hide Sound, ReportsOrdered, Gated, ClaimedOnce, NothingDropped, Run;
    EveryRunKeepsInv(plan, run, k);
    assert Justified(plan, run[k].settled, run[k].claims[c].reason);
  }

  lemma PausedThenResumed(events: seq<Event>)
    ensures events + [Paused] + [Resumed] == events + [Paused, Resumed]
  {
  }

  // ----- The scheduler's own code -----

  /** The variables runBackfill closes over, and the segments of its functions between awaits. */
  class Scheduler {
    const plan: Plan
    var status: map<int, Status>
    var checkpoint: int
    var next: nat
    var error: bool
    var aborted: bool
    var pausePromise: Option<nat>
    var settled: set<nat>
    var gatesOpened: nat
    var paused: nat
    var events: seq<Event>
    var workers: seq<Phase>
    ghost var succeeded: set<int>
    ghost var claims: seq<Claim>
    ghost var reported: seq<int>

    ghost function Snapshot(): State
      reads this
    {
      State(status, checkpoint, next, error, aborted, pausePromise, settled, gatesOpened, paused, events, workers,
            succeeded, claims, reported)
    }

    constructor (plan: Plan, signalled: bool)
      requires ValidPlan(plan)
      ensures this.plan == plan && aborted == signalled && Init(plan, Snapshot())
    {
      this.plan := plan;
      status, checkpoint, next, error, aborted := map i | i in plan.indices :: Pending, plan.initial, 0, false, signalled;
      pausePromise, settled, gatesOpened, paused, events := None, {}, 0, 0, [];
      workers := seq(WorkerCount(plan), _ => Top);
      succeeded, claims, reported := {}, [], [];
    }

    method WaitForLiveIndexing(w: nat)
      requires Next(plan, Snapshot(), Begin(w)).Some?
      modifies this
      ensures Next(plan, old(Snapshot()), Begin(w)) == Some(Snapshot())
    {
      if error || aborted {
        Become(w, Left);
      } else if !plan.yielding {
        Become(w, Clear(YieldingOff));
      } else if pausePromise.Some? {
        Become(w, Waiting(pausePromise.value));
      } else {
        Become(w, Reading);
      }
    }

    method LagRead(w: nat, lag: Option<real>)
      requires Next(plan, Snapshot(), Observe(w, lag)).Some?
      modifies this
      ensures Next(plan, old(Snapshot()), Observe(w, lag)) == Some(Snapshot())
    {
      hide Advanced, Committed, Caught;
      if pausePromise.Some? {
        Become(w, Waiting(pausePromise.value));
        return;
      }
      if lag.None? || lag.value < plan.maxLag {
        Become(w, Clear(NotLagging(lag)));
        return;
      }
      OpenPause(w);
    }

    method OpenPause(w: nat)
      requires w < |workers|
      modifies this`paused, this`events, this`gatesOpened, this`pausePromise, this`settled, this`workers
      ensures workers == old(workers)[w := Waiting(old(gatesOpened))]
      ensures gatesOpened == old(gatesOpened) + 1 && pausePromise == Some(old(gatesOpened))
      ensures paused == (if aborted then 0 else 1) && events == old(events) + if aborted then [Paused, Resumed] else [Paused]
      ensures settled == if aborted then old(settled) + {old(gatesOpened)} else old(settled)
    {
      paused := 1;
      events := events + [Paused];
      var gate := gatesOpened;
      gatesOpened := gatesOpened + 1;
      if aborted {
        PausedThenResumed(old(events));
        CloseGate(gate);
      }
      pausePromise := Some(gate);
      Become(w, Waiting(gate));
    }

    method GatePolled(lag: Option<real>)
      requires Next(plan, Snapshot(), Poll(lag)).Some?
      modifies this
      ensures Next(plan, old(Snapshot()), Poll(lag)) == Some(Snapshot())
    {
      var currentLag := lag.GetOr(0.0);
      if currentLag < plan.maxLag || aborted {
        CloseGate(pausePromise.value);
      }
    }

    method CloseGate(gate: nat)
      modifies this`paused, this`events, this`pausePromise, this`settled
      ensures paused == 0 && events == old(events) + [Resumed] && pausePromise == None && settled == old(settled) + {gate}
    {
      paused := 0;
      events := events + [Resumed];
      pausePromise := None;
      settled := settled + {gate};
    }

    method ClaimNext(w: nat)
      requires Next(plan, Snapshot(), Take(w)).Some?
      modifies this
      ensures Next(plan, old(Snapshot()), Take(w)) == Some(Snapshot())
    {
      if error || aborted {
        Become(w, Left);
        return;
      }
      var pos := next;
      next := next + 1;
      if pos >= |plan.indices| {
        Become(w, Left);
        return;
      }
      claims := claims + [Claim(w, workers[w].reason)];
      Become(w, Handling(pos, 1));
    }

    method HandlerSettled(w: nat, ok: bool)
      requires Next(plan, Snapshot(), Handled(w, ok)).Some?
      modifies this
      ensures Next(plan, old(Snapshot()), Handled(w, ok)) == Some(Snapshot())
    {
      hide Advanced;
      var pos, attempt := workers[w].pos, workers[w].attempt;
      if ok {
        status := status[plan.indices[pos] := Done];
        succeeded := succeeded + {plan.indices[pos]};
        Commit();
        if plan.reports && checkpoint > plan.initial {
          reported := reported + [checkpoint];
          Become(w, Committing(pos, attempt));
        } else {
          Become(w, Top);
        }
      } else {
        Catch(w, pos, attempt);
      }
    }

    method CallbackSettled(w: nat, ok: bool)
      requires Next(plan, Snapshot(), Reported(w, ok)).Some?
      modifies this
      ensures Next(plan, old(Snapshot()), Reported(w, ok)) == Some(Snapshot())
    {
      if ok {
        Become(w, Top);
      } else {
        Catch(w, workers[w].pos, workers[w].attempt);
      }
    }

    method RetryDue(w: nat)
      requires Next(plan, Snapshot(), Retry(w)).Some?
      modifies this
      ensures Next(plan, old(Snapshot()), Retry(w)) == Some(Snapshot())
    {
      if aborted {
        Become(w, Left);
      } else {
        Become(w, Handling(workers[w].pos, workers[w].attempt + 1));
      }
    }

    method Catch(w: nat, pos: nat, attempt: nat)
      requires pos < |plan.indices| && w < |workers|
      modifies this
      ensures Snapshot() == Caught(plan, old(Snapshot()), w, pos, attempt)
    {
      if attempt == plan.retryLimit {
        error := true;
        status := status[plan.indices[pos] := Failed];
        Become(w, Top);
      } else {
        Become(w, BackingOff(pos, attempt));
      }
    }

    /** The loop of `commit`. */
    method Commit()
      modifies this`checkpoint
      ensures checkpoint == Advanced(status, old(checkpoint))
    {
      while StatusOf(status, checkpoint + 1) == Some(Done)
        invariant Advanced(status, checkpoint) == Advanced(status, old(checkpoint))
        decreases |Ahead(status, checkpoint)|
      {
        AheadShrinks(status, checkpoint);
        checkpoint := checkpoint + 1;
      }
    }

    method Become(w: nat, phase: Phase)
      requires w < |workers|
      modifies this`workers
      ensures workers == old(workers)[w := phase]
    {
      workers := workers[w := phase];
    }
  }
}
