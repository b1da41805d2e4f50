/** The lease and fencing protocol of src/indexer/leaderElection.ts: any number of
    instances share one Redis key with an expiry and one counter. Each Redis command
    is one atomic step; the instances' own fields change between commands. */
module LeaderElection {
  import opened Options

  /** Where an instance stands in the operation it is running, if any. */
  datatype Phase =
    | Idle
    | AwaitIncr          // SET NX succeeded; about to INCR the fencing counter
    | AwaitHolder        // SET NX failed; about to GET the holder
    | AwaitFence         // it is the holder already; about to GET the counter
    | ReleaseGet         // releasing; about to GET the holder
    | ReleaseDel         // it is the holder; about to DEL the key
    | RenewGet           // heartbeat; about to GET the holder
    | RenewExpire        // it is the holder; about to PEXPIRE the key
    | Dead               // the process is gone; a restart has a new instance id

  datatype Instance = Instance(phase: Phase, isLeader: bool, token: nat, heartbeat: bool)

  /** `issued` lists every value INCR has returned, with its recipient. */
  datatype State = State(key: Option<nat>, fence: nat, instances: map<nat, Instance>, issued: seq<(nat, nat)>)

  datatype Action =
    | SetNx(i: nat)
    | Incr(i: nat)
    | GetHolder(i: nat)
    | GetFence(i: nat)
    | BeginRelease(i: nat)
    | CheckRelease(i: nat)
    | Del(i: nat)
    | BeginRenew(i: nat, stale: bool)
    | CheckRenew(i: nat)
    | PExpire(i: nat)
    | Expire                               // the server drops the key
    | Fail(i: nat, applied: bool)          // the pending command errors, its effect applied or not
    | FailSetNx(i: nat, applied: bool)     // the same for the opening SET NX
    | Crash(i: nat)

  function InstanceOf(s: State, i: nat): Instance {
    if i in s.instances then s.instances[i] else Instance(Idle, false, 0, false)
  }

  function PhaseOf(s: State, i: nat): Phase { InstanceOf(s, i).phase }

  function TokenOf(s: State, i: nat): nat { InstanceOf(s, i).token }

  function Put(s: State, i: nat, x: Instance): State { s.(instances := s.instances[i := x]) }

  function Lead(x: Instance, token: nat): Instance { Instance(Idle, true, token, true) }

  function Resign(x: Instance): Instance { Instance(Idle, false, x.token, false) }

  /** One step, or `None` when the action is not enabled. */
  function Next(s: State, a: Action): Option<State> {
    match a
    case SetNx(i) =>
      if PhaseOf(s, i) != Idle then None
      else if s.key.None? then Some(Put(s.(key := Some(i)), i, InstanceOf(s, i).(phase := AwaitIncr)))
      else Some(Put(s, i, InstanceOf(s, i).(phase := AwaitHolder)))
    case Incr(i) =>
      if PhaseOf(s, i) != AwaitIncr then None
      else Some(Put(s.(fence := s.fence + 1, issued := s.issued + [(i, s.fence + 1)]), i, Lead(InstanceOf(s, i), s.fence + 1)))
    case GetHolder(i) =>
      if PhaseOf(s, i) != AwaitHolder then None
      else if s.key == Some(i) then Some(Put(s, i, InstanceOf(s, i).(phase := AwaitFence)))
      else Some(Put(s, i, InstanceOf(s, i).(phase := Idle, isLeader := false)))
    case GetFence(i) =>
      if PhaseOf(s, i) != AwaitFence then None
      else Some(Put(s, i, Lead(InstanceOf(s, i), s.fence)))
    case BeginRelease(i) =>
      if PhaseOf(s, i) != Idle then None
      else Some(Put(s, i, Resign(InstanceOf(s, i)).(phase := ReleaseGet)))
    case CheckRelease(i) =>
      if PhaseOf(s, i) != ReleaseGet then None
      else Some(Put(s, i, InstanceOf(s, i).(phase := if s.key == Some(i) then ReleaseDel else Idle)))
    case Del(i) =>
      if PhaseOf(s, i) != ReleaseDel then None
      else Some(Put(s.(key := None), i, InstanceOf(s, i).(phase := Idle)))
    case BeginRenew(i, stale) =>
      if PhaseOf(s, i) != Idle || !InstanceOf(s, i).heartbeat then None
      else if stale then Some(Put(s, i, Resign(InstanceOf(s, i))))
      else Some(Put(s, i, InstanceOf(s, i).(phase := RenewGet)))
    case CheckRenew(i) =>
      if PhaseOf(s, i) != RenewGet then None
      else if s.key == Some(i) then Some(Put(s, i, InstanceOf(s, i).(phase := RenewExpire)))
      else Some(Put(s, i, Resign(InstanceOf(s, i))))
    case PExpire(i) =>
      // PEXPIRE answers for whatever key is there.
      if PhaseOf(s, i) != RenewExpire then None
      else if s.key.Some? then Some(Put(s, i, InstanceOf(s, i).(phase := Idle)))
      else Some(Put(s, i, Resign(InstanceOf(s, i))))
    case Expire => Some(s.(key := None))
    case Fail(i, applied) =>
      (match PhaseOf(s, i)
       case Idle => None
       case Dead => None
       case AwaitIncr =>
         Some(Put(if applied then s.(fence := s.fence + 1, issued := s.issued + [(i, s.fence + 1)]) else s,
                  i, InstanceOf(s, i).(phase := Idle, isLeader := false)))
       case AwaitHolder => Some(Put(s, i, InstanceOf(s, i).(phase := Idle, isLeader := false)))
       case AwaitFence => Some(Put(s, i, InstanceOf(s, i).(phase := Idle, isLeader := false)))
       case ReleaseDel => Some(Put(if applied then s.(key := None) else s, i, InstanceOf(s, i).(phase := Idle)))
       case _ => Some(Put(s, i, InstanceOf(s, i).(phase := Idle))))
    case FailSetNx(i, applied) =>
      if PhaseOf(s, i) != Idle then None
      else Some(Put(if applied && s.key.None? then s.(key := Some(i)) else s, i, InstanceOf(s, i).(isLeader := false)))
    case Crash(i) =>
      Some(Put(s, i, InstanceOf(s, i).(phase := Dead)))
  }

  // ----- What holds whatever happens -----

  ghost predicate Init(s: State) { s.key == None && s.fence == 0 && s.instances == map[] && s.issued == [] }

  /** Every value INCR returned is new and larger than all before it, and no token exceeds the counter. */
  ghost predicate Counted(s: State) {
    && |s.issued| == s.fence
    && (forall k :: 0 <= k < |s.issued| ==> s.issued[k].1 == k + 1)
    && (forall i: nat :: TokenOf(s, i) <= s.fence)
  }

  lemma StepKeepsCounted(s: State, a: Action)
    requires Counted(s) && Next(s, a).Some?
    ensures Counted(Next(s, a).value)
  {
    var s' := Next(s, a).value;
    forall i: nat ensures TokenOf(s', i) <= s'.fence { assert TokenOf(s, i) <= s.fence; }
  }

  // ----- What holds when no command sequence is split -----

  /** Some other instance, dead or alive, carries the counter's value. */
  ghost predicate Rivalled(s: State, i: nat) { exists j: nat :: j != i && TokenOf(s, j) == s.fence }

  /** A step that splits the holder's own sequence: the key vanishes between SET NX and INCR, between
      confirming the holder and reading the counter, or between checking and deleting the key on release;
      or an error leaves a key without a new token while another instance carries the current one. */
  ghost predicate Splits(s: State, a: Action) {
    match a
    case Expire => s.key.Some? && PhaseOf(s, s.key.value) in {AwaitIncr, AwaitFence, ReleaseDel}
    case Fail(i, applied) => PhaseOf(s, i) == AwaitIncr && !applied && Rivalled(s, i)
    case FailSetNx(i, applied) => applied && s.key.None? && Rivalled(s, i)
    case _ => false
  }

  /** The key's holder is alive and past its acquisition. */
  ghost predicate Holds(s: State, h: nat) { s.key == Some(h) && PhaseOf(s, h) != AwaitIncr && PhaseOf(s, h) != Dead }

  /** A holder that believes it leads carries the counter's value; every other instance, leader or
      not, carries a smaller token. */
  ghost predicate Fenced(s: State) {
    forall h: nat :: Holds(s, h) ==>
      && s.fence > 0
      && (InstanceOf(s, h).isLeader ==> TokenOf(s, h) == s.fence)
      && forall j: nat :: j != h ==> TokenOf(s, j) < s.fence
  }

  ghost predicate Inv(s: State) {
    && Counted(s)
    && Fenced(s)
    && (forall i: nat :: PhaseOf(s, i) in {AwaitIncr, AwaitFence, ReleaseDel} ==> s.key == Some(i))
  }

  lemma StepKeepsOwnership(s: State, a: Action, i: nat)
    requires Inv(s) && Next(s, a).Some? && !Splits(s, a)
    requires PhaseOf(Next(s, a).value, i) in {AwaitIncr, AwaitFence, ReleaseDel}
    ensures Next(s, a).value.key == Some(i)
  {
    hide Counted, Fenced;
    assert PhaseOf(s, i) in {AwaitIncr, AwaitFence, ReleaseDel} ==> s.key == Some(i);
  }

  /** An instance that has never run. */
  lemma FreshInstance(s: State, i: nat) returns (j: nat)
    ensures j !in s.instances && j != i
  {
    var above := AboveAll(s.instances.Keys);
    j := above + i + 1;
  }

  lemma {:induction false} AboveAll(ids: set<nat>) returns (above: nat)
    ensures forall i :: i in ids ==> i < above
    decreases ids
  {
    above := 0;
    if ids != {} {
      var i :| i in ids;
      var rest := AboveAll(ids - {i});
      above := rest + i + 1;
      assert forall k :: k in ids ==> k == i || k in ids - {i};
    }
  }

  /** Without a rival, the counter is positive and every other token below it. */
  lemma Unrivalled(s: State, i: nat)
    requires Counted(s) && !Rivalled(s, i)
    ensures s.fence > 0 && forall j: nat :: j != i ==> TokenOf(s, j) < s.fence
  {
    var j := FreshInstance(s, i);
    assert TokenOf(s, j) == 0 && TokenOf(s, j) != s.fence;
    forall k: nat | k != i ensures TokenOf(s, k) < s.fence {
      assert TokenOf(s, k) <= s.fence && TokenOf(s, k) != s.fence;
    }
  }

  /** An error that leaves the key to an instance, without a rival. */
  ghost predicate HarmlessError(s: State, a: Action, h: nat) {
    && ((a == Fail(h, false) && PhaseOf(s, h) == AwaitIncr) || (a == FailSetNx(h, true) && s.key.None?))
    && !Rivalled(s, h)
  }

  lemma BecomesHolder(s: State, a: Action, h: nat)
    requires Inv(s) && Next(s, a).Some? && !Splits(s, a) && Holds(Next(s, a).value, h)
    ensures Holds(s, h) || (PhaseOf(s, h) == AwaitIncr && !a.Fail?) || a == Fail(h, true) || HarmlessError(s, a, h)
    ensures HarmlessError(s, a, h) ==> !InstanceOf(Next(s, a).value, h).isLeader
  {
    hide Counted, Fenced, Rivalled;
  }

  lemma HarmlessErrorHolds(s: State, a: Action, h: nat, j: nat)
    requires Inv(s) && Next(s, a).Some? && HarmlessError(s, a, h) && j != h
    ensures Next(s, a).value.fence == s.fence > 0 && TokenOf(Next(s, a).value, j) < s.fence
  {
    Unrivalled(s, h);
    assert TokenOf(s, j) < s.fence;
    hide Inv, Rivalled;
  }

  lemma StepKeepsHolder(s: State, a: Action, h: nat)
    requires Inv(s) && Next(s, a).Some? && !Splits(s, a) && Holds(Next(s, a).value, h)
    ensures Next(s, a).value.fence > 0
    ensures InstanceOf(Next(s, a).value, h).isLeader ==> TokenOf(Next(s, a).value, h) == Next(s, a).value.fence
  {
    hide Counted, Rivalled;
    BecomesHolder(s, a, h);
    if HarmlessError(s, a, h) {
      HarmlessErrorHolds(s, a, h, h + 1);
    }
  }

  lemma StepKeepsOthersBelow(s: State, a: Action, h: nat, j: nat)
    requires Inv(s) && Next(s, a).Some? && !Splits(s, a) && Holds(Next(s, a).value, h) && j != h
    ensures TokenOf(Next(s, a).value, j) < Next(s, a).value.fence
  {
    assert TokenOf(s, j) <= s.fence;
    hide Counted, Rivalled;
    BecomesHolder(s, a, h);
    if HarmlessError(s, a, h) {
      HarmlessErrorHolds(s, a, h, j);
    }
  }

  lemma StepKeepsInv(s: State, a: Action)
    requires Inv(s) && Next(s, a).Some? && !Splits(s, a)
    ensures Inv(Next(s, a).value)
  {
    hide Next, Splits, Counted;
    var s' := Next(s, a).value;
    StepKeepsCounted(s, a);
    forall h: nat | Holds(s', h) ensures s'.fence > 0 && (InstanceOf(s', h).isLeader ==> TokenOf(s', h) == s'.fence) {
      StepKeepsHolder(s, a, h);
    }
    forall h: nat, j: nat | Holds(s', h) && j != h ensures TokenOf(s', j) < s'.fence {
      StepKeepsOthersBelow(s, a, h, j);
    }
    forall i: nat | PhaseOf(s', i) in {AwaitIncr, AwaitFence, ReleaseDel} ensures s'.key == Some(i) {
      StepKeepsOwnership(s, a, i);
    }
  }

  // ----- Whole runs -----

  ghost predicate IsRun(run: seq<State>, actions: seq<Action>) {
    && |run| == |actions| + 1
    && Init(run[0])
    && (forall i :: 0 <= i < |actions| ==> Next(run[i], actions[i]) == Some(run[i + 1]))
  }

  ghost predicate NeverSplits(run: seq<State>, actions: seq<Action>)
    requires |run| == |actions| + 1
  {
    forall i :: 0 <= i < |actions| ==> !Splits(run[i], actions[i])
  }

  lemma {:induction false} RunKeepsInv(run: seq<State>, actions: seq<Action>, i: nat)
    requires IsRun(run, actions) && NeverSplits(run, actions) && i < |run|
    ensures Inv(run[i])
  {
    if i > 0 {
      RunKeepsInv(run, actions, i - 1);
      assert Next(run[i - 1], actions[i - 1]) == Some(run[i]) && !Splits(run[i - 1], actions[i - 1]);
      StepKeepsInv(run[i - 1], actions[i - 1]);
    }
  }

  /** In every run in which no command sequence is split, whatever crashes and other expiries occur:
      a leading holder's token is the counter and every other instance's token is strictly smaller. */
  lemma HolderIsFenced(run: seq<State>, actions: seq<Action>, i: nat, h: nat, j: nat)
    requires IsRun(run, actions) && NeverSplits(run, actions) && i < |run|
    requires Holds(run[i], h) && InstanceOf(run[i], h).isLeader && j != h
    ensures TokenOf(run[i], j) < TokenOf(run[i], h) == run[i].fence
  {
    RunKeepsInv(run, actions, i);
  }

  lemma {:induction false} RunKeepsCounted(run: seq<State>, actions: seq<Action>, i: nat)
    requires IsRun(run, actions) && i < |run|
    ensures Counted(run[i])
  {
    if i > 0 {
      RunKeepsCounted(run, actions, i - 1);
      assert Next(run[i - 1], actions[i - 1]) == Some(run[i]);
      StepKeepsCounted(run[i - 1], actions[i - 1]);
    } else {
      assert forall k: nat :: TokenOf(run[0], k) == 0;
    }
  }

  /** In every run at all, split or not, the values INCR hands out strictly increase, so no two
      acquisitions ever share one, and no token runs ahead of the counter. */
  lemma IssuedTokensIncrease(run: seq<State>, actions: seq<Action>, i: nat, k: nat, l: nat)
    requires IsRun(run, actions) && i < |run| && k < l < |run[i].issued|
    ensures run[i].issued[k].1 < run[i].issued[l].1 <= run[i].fence
    ensures forall x: nat :: TokenOf(run[i], x) <= run[i].fence
  {
    RunKeepsCounted(run, actions, i);
  }

  // ----- Each split breaks the fence -----

  function Perform(s: State, actions: seq<Action>): Option<State>
    decreases |actions|
  {
    if actions == [] then Some(s)
    else match Next(s, actions[0]) case None => None case Some(s') => Perform(s', actions[1..])
  }

  /** The key may expire between SET NX and INCR: the late INCR gives the loser the larger token. */
  lemma ExpiryBeforeIncr(s: State, h: nat, j: nat) returns (t: State)
    requires Inv(s) && PhaseOf(s, h) == AwaitIncr && PhaseOf(s, j) == Idle && j != h
    ensures Splits(s, Expire)
    ensures Perform(s, [Expire, SetNx(j), Incr(j), Incr(h)]) == Some(t)
    ensures Holds(t, j) && InstanceOf(t, j).isLeader && TokenOf(t, h) > TokenOf(t, j)
  {
    t := FourSteps(s, Expire, SetNx(j), Incr(j), Incr(h));
  }

  /** The key may expire between confirming it and reading the counter: both leaders get one token. */
  lemma ExpiryBeforeFenceRead(s: State, h: nat, j: nat) returns (t: State)
    requires Inv(s) && PhaseOf(s, h) == AwaitFence && PhaseOf(s, j) == Idle && j != h
    ensures Splits(s, Expire)
    ensures Perform(s, [Expire, SetNx(j), Incr(j), GetFence(h)]) == Some(t)
    ensures Holds(t, j) && InstanceOf(t, j).isLeader && InstanceOf(t, h).isLeader && TokenOf(t, h) == TokenOf(t, j)
  {
    t := FourSteps(s, Expire, SetNx(j), Incr(j), GetFence(h));
  }

  /** The key may expire between the check and the DEL of a release: the DEL then removes the
      next holder's key in the middle of its acquisition. */
  lemma ExpiryBeforeDel(s: State, h: nat, j: nat) returns (t: State)
    requires Inv(s) && PhaseOf(s, h) == ReleaseDel && PhaseOf(s, j) == Idle && j != h
    ensures Splits(s, Expire)
    ensures exists u :: Perform(s, [Expire, SetNx(j), Del(h), SetNx(h)]) == Some(u) && Perform(u, [Incr(h), Incr(j)]) == Some(t)
    ensures Holds(t, h) && InstanceOf(t, h).isLeader && TokenOf(t, j) > TokenOf(t, h)
  {
    var u := FourSteps(s, Expire, SetNx(j), Del(h), SetNx(h));
    t := TwoSteps(u, Incr(h), Incr(j));
  }

  /** An INCR that fails without effect leaves the key to an instance that later adopts the
      previous leader's token. */
  lemma FailedIncr(s: State, h: nat, j: nat) returns (t: State)
    requires Inv(s) && PhaseOf(s, h) == AwaitIncr && j != h && TokenOf(s, j) == s.fence
    ensures Splits(s, Fail(h, false))
    ensures Perform(s, [Fail(h, false), SetNx(h), GetHolder(h), GetFence(h)]) == Some(t)
    ensures Holds(t, h) && InstanceOf(t, h).isLeader && TokenOf(t, h) == TokenOf(t, j)
  {
    t := FourSteps(s, Fail(h, false), SetNx(h), GetHolder(h), GetFence(h));
  }

  /** So does a SET NX that is applied but reported as failed. */
  lemma FailedSetNx(s: State, h: nat, j: nat) returns (t: State)
    requires Inv(s) && s.key.None? && PhaseOf(s, h) == Idle && j != h && TokenOf(s, j) == s.fence
    ensures Splits(s, FailSetNx(h, true))
    ensures Perform(s, [FailSetNx(h, true), SetNx(h), GetHolder(h), GetFence(h)]) == Some(t)
    ensures Holds(t, h) && InstanceOf(t, h).isLeader && TokenOf(t, h) == TokenOf(t, j)
  {
    t := FourSteps(s, FailSetNx(h, true), SetNx(h), GetHolder(h), GetFence(h));
  }

  lemma TwoSteps(s: State, a: Action, b: Action) returns (t: State)
    requires Next(s, a).Some? && Next(Next(s, a).value, b).Some?
    ensures t == Next(Next(s, a).value, b).value && Perform(s, [a, b]) == Some(t)
  {
    hide Next;
    t := Next(Next(s, a).value, b).value;
    assert [a, b][1..] == [b] && [b][1..] == [];
    assert Perform(t, []) == Some(t);
    assert Perform(Next(s, a).value, [b]) == Some(t);
  }

  lemma FourSteps(s: State, a: Action, b: Action, c: Action, d: Action) returns (t: State)
    requires Next(s, a).Some? && Next(Next(s, a).value, b).Some?
    requires var u := Next(Next(s, a).value, b).value; Next(u, c).Some? && Next(Next(u, c).value, d).Some?
    ensures t == Next(Next(Next(Next(s, a).value, b).value, c).value, d).value
    ensures Perform(s, [a, b, c, d]) == Some(t)
  {
    hide Next;
    var u := Next(Next(s, a).value, b).value;
    t := TwoSteps(u, c, d);
    assert [a, b, c, d][1..] == [b, c, d] && [b, c, d][1..] == [c, d];
    assert Perform(Next(s, a).value, [b, c, d]) == Some(t);
  }

  // ----- Splits are exactly what can break it -----

  /** A leader that holds the key has been overtaken: another instance's token is at least its own. */
  ghost predicate Overtaken(s: State) {
    exists h: nat, j: nat :: Holds(s, h) && InstanceOf(s, h).isLeader && j != h && TokenOf(s, j) >= TokenOf(s, h)
  }

  /** The actions can be performed one after the other, and none of them splits a sequence. */
  ghost predicate Unsplit(s: State, actions: seq<Action>)
    decreases |actions|
  {
    actions == []
    || (Next(s, actions[0]).Some? && !Splits(s, actions[0]) && Unsplit(Next(s, actions[0]).value, actions[1..]))
  }

  /** From here, without any further split, a holding leader can be overtaken. */
  ghost predicate CanBeOvertaken(s: State) {
    exists actions, t :: Unsplit(s, actions) && Perform(s, actions) == Some(t) && Overtaken(t)
  }

  lemma {:induction false} UnsplitKeepsInv(s: State, actions: seq<Action>, t: State)
    requires Inv(s) && Unsplit(s, actions) && Perform(s, actions) == Some(t)
    ensures Inv(t)
    decreases |actions|
  {
    hide Inv, Next, Splits;
    if actions != [] {
      StepKeepsInv(s, actions[0]);
      UnsplitKeepsInv(Next(s, actions[0]).value, actions[1..], t);
    }
  }

  predicate Quiet(a: Action) { !a.Expire? && !a.Fail? && !a.FailSetNx? }

  lemma {:induction false} QuietUnsplit(s: State, actions: seq<Action>)
    requires Perform(s, actions).Some? && forall a :: a in actions ==> Quiet(a)
    ensures Unsplit(s, actions)
    decreases |actions|
  {
    hide Next;
    if actions != [] {
      assert actions[0] in actions;
      QuietUnsplit(Next(s, actions[0]).value, actions[1..]);
    }
  }

  lemma {:induction false} PerformJoin(s: State, first: seq<Action>, second: seq<Action>)
    requires Perform(s, first).Some?
    ensures Perform(s, first + second) == Perform(Perform(s, first).value, second)
    decreases |first|
  {
    hide Next;
    if first == [] {
      assert first + second == second;
    } else {
      assert (first + second)[1..] == first[1..] + second;
      PerformJoin(Next(s, first[0]).value, first[1..], second);
    }
  }

  lemma OvertakenAfter(s: State, a: Action, rest: seq<Action>, t: State, h: nat, j: nat)
    requires Perform(s, [a] + rest) == Some(t) && forall b :: b in rest ==> Quiet(b)
    requires Holds(t, h) && InstanceOf(t, h).isLeader && j != h && TokenOf(t, j) >= TokenOf(t, h)
    ensures Next(s, a).Some? && CanBeOvertaken(Next(s, a).value)
  {
    hide Next, Holds;
    assert ([a] + rest)[1..] == rest;
    assert Next(s, a).Some?;
    QuietUnsplit(Next(s, a).value, rest);
    assert Overtaken(t);
  }

  /** A step leads to where a holding leader can be overtaken if and only if it splits a sequence. */
  lemma SplitIffOvertaken(s: State, a: Action)
    requires Inv(s) && Next(s, a).Some?
    ensures Splits(s, a) <==> CanBeOvertaken(Next(s, a).value)
  {
    hide Next, Inv, Holds;
    if Splits(s, a) {
      SplitOvertakes(s, a);
    } else {
      StepKeepsInv(s, a);
      InvNeverOvertaken(Next(s, a).value);
    }
  }

  lemma InvNeverOvertaken(s: State)
    requires Inv(s)
    ensures !CanBeOvertaken(s)
  {
    forall actions, t | Unsplit(s, actions) && Perform(s, actions) == Some(t) ensures !Overtaken(t) {
      UnsplitKeepsInv(s, actions, t);
      FencedNotOvertaken(t);
    }
  }

  lemma FencedNotOvertaken(s: State)
    requires Inv(s)
    ensures !Overtaken(s)
  {
    hide Counted;
  }

  lemma SplitOvertakes(s: State, a: Action)
    requires Inv(s) && Next(s, a).Some? && Splits(s, a)
    ensures CanBeOvertaken(Next(s, a).value)
  {
    hide CanBeOvertaken, Holds, Perform;
    match a {
      case Expire => ExpiryOvertakes(s);
      case Fail(i, _) =>
        var j: nat :| j != i && TokenOf(s, j) == s.fence;
        var t := FailedIncr(s, i, j);
        hide Next, Inv;
        assert [a, SetNx(i), GetHolder(i), GetFence(i)] == [a] + [SetNx(i), GetHolder(i), GetFence(i)];
        OvertakenAfter(s, a, [SetNx(i), GetHolder(i), GetFence(i)], t, i, j);
      case FailSetNx(i, _) =>
        var j: nat :| j != i && TokenOf(s, j) == s.fence;
        var t := FailedSetNx(s, i, j);
        hide Next, Inv;
        assert [a, SetNx(i), GetHolder(i), GetFence(i)] == [a] + [SetNx(i), GetHolder(i), GetFence(i)];
        OvertakenAfter(s, a, [SetNx(i), GetHolder(i), GetFence(i)], t, i, j);
    }
  }

  lemma ExpiryOvertakes(s: State)
    requires Inv(s) && Splits(s, Expire)
    ensures CanBeOvertaken(Next(s, Expire).value)
  {
    hide CanBeOvertaken, Perform, Inv, Next, Holds;
    var h := s.key.value;
    var j := FreshInstance(s, h);
    if PhaseOf(s, h) == AwaitIncr {
      var t := ExpiryBeforeIncr(s, h, j);
      assert [Expire, SetNx(j), Incr(j), Incr(h)] == [Expire] + [SetNx(j), Incr(j), Incr(h)];
      OvertakenAfter(s, Expire, [SetNx(j), Incr(j), Incr(h)], t, j, h);
    } else if PhaseOf(s, h) == AwaitFence {
      var t := ExpiryBeforeFenceRead(s, h, j);
      assert [Expire, SetNx(j), Incr(j), GetFence(h)] == [Expire] + [SetNx(j), Incr(j), GetFence(h)];
      OvertakenAfter(s, Expire, [SetNx(j), Incr(j), GetFence(h)], t, j, h);
    } else {
      var t := ExpiryBeforeDel(s, h, j);
      var first, second := [Expire, SetNx(j), Del(h), SetNx(h)], [Incr(h), Incr(j)];
      var u :| Perform(s, first) == Some(u) && Perform(u, second) == Some(t);
      PerformJoin(s, first, second);
      assert first + second == [Expire] + [SetNx(j), Del(h), SetNx(h), Incr(h), Incr(j)];
      OvertakenAfter(s, Expire, [SetNx(j), Del(h), SetNx(h), Incr(h), Incr(j)], t, h, j);
    }
  }

  // ----- The heartbeat's clock -----

  /** What a heartbeat learns from Redis: an error, that the key is still ours, or that it is not. */
  datatype Answer = Error | Ours | NotOurs

  /** The part of an instance its heartbeat changes; `last` is the time stamp of the previous attempt. */
  datatype Beat = Beat(isLeader: bool, heartbeat: bool, last: int)

  /** More than a lease since the previous attempt; a clock that went back counts as no time. */
  predicate Stale(last: int, now: int, leaseMs: nat) { (if now >= last then now - last else 0) > leaseMs }

  /** One tick of the timer: the stamp is refreshed before Redis answers. */
  function Tick(b: Beat, leaseMs: nat, now: int, answer: Answer): Beat {
    if !b.heartbeat then b
    else if Stale(b.last, now, leaseMs) then Beat(false, false, b.last)
    else if answer.NotOurs? then Beat(false, false, now)
    else b.(last := now)
  }

  /** The ticks of an outage: every Redis command fails. */
  function AfterOutage(b: Beat, leaseMs: nat, ticks: seq<int>): Beat {
    if ticks == [] then b
    else Tick(AfterOutage(b, leaseMs, ticks[..|ticks| - 1]), leaseMs, ticks[|ticks| - 1], Error)
  }

  function GapBefore(last: int, ticks: seq<int>, i: nat): int
    requires i < |ticks|
  {
    ticks[i] - if i == 0 then last else ticks[i - 1]
  }

  /** No two consecutive attempts, from the last one before the outage on, are more than a lease apart. */
  ghost predicate NoLongGap(last: int, leaseMs: nat, ticks: seq<int>) {
    forall i :: 0 <= i < |ticks| ==> GapBefore(last, ticks, i) <= leaseMs
  }

  /** An outage revokes leadership if and only if two consecutive attempts lie more than a lease apart. */
  lemma {:induction false} OutageRevokesIff(b: Beat, leaseMs: nat, ticks: seq<int>)
    requires b.isLeader && b.heartbeat
    ensures AfterOutage(b, leaseMs, ticks).isLeader <==> NoLongGap(b.last, leaseMs, ticks)
    ensures AfterOutage(b, leaseMs, ticks).isLeader ==>
      AfterOutage(b, leaseMs, ticks).heartbeat && AfterOutage(b, leaseMs, ticks).last == LastOf(b.last, ticks)
    ensures !AfterOutage(b, leaseMs, ticks).isLeader ==> !AfterOutage(b, leaseMs, ticks).heartbeat
  {
    if ticks != [] {
      var n := |ticks| - 1;
      OutageRevokesIff(b, leaseMs, ticks[..n]);
      assert NoLongGap(b.last, leaseMs, ticks) <==>
        NoLongGap(b.last, leaseMs, ticks[..n]) && ticks[n] - LastOf(b.last, ticks[..n]) <= leaseMs by {
        GapsExtend(b.last, leaseMs, ticks);
      }
    }
  }

  function LastOf(last: int, ticks: seq<int>): int { if ticks == [] then last else ticks[|ticks| - 1] }

  lemma GapsExtend(last: int, leaseMs: nat, ticks: seq<int>)
    requires ticks != []
    ensures var n := |ticks| - 1;
      NoLongGap(last, leaseMs, ticks) <==>
        NoLongGap(last, leaseMs, ticks[..n]) && ticks[n] - LastOf(last, ticks[..n]) <= leaseMs
  {
    var n := |ticks| - 1;
    assert GapBefore(last, ticks, n) == ticks[n] - LastOf(last, ticks[..n]);
    assert forall i :: 0 <= i < n ==> GapBefore(last, ticks[..n], i) == GapBefore(last, ticks, i);
  }

  /** So an outage of any length, with ticks at any interval up to a lease, leaves the instance leading. */
  lemma OutageAloneKeepsLeadership(b: Beat, leaseMs: nat, interval: nat, n: nat)
    requires b.isLeader && b.heartbeat && 0 < interval <= leaseMs
    ensures var ticks := Regular(b.last, interval, n);
      |ticks| == n && LastOf(b.last, ticks) == b.last + n * interval && AfterOutage(b, leaseMs, ticks).isLeader
  {
    RegularGaps(b.last, leaseMs, interval, n);
    OutageRevokesIff(b, leaseMs, Regular(b.last, interval, n));
  }

  function Regular(last: int, interval: nat, n: nat): (ticks: seq<int>)
    ensures |ticks| == n
  {
    if n == 0 then [] else Regular(last, interval, n - 1) + [LastOf(last, Regular(last, interval, n - 1)) + interval]
  }

  lemma {:induction false} RegularGaps(last: int, leaseMs: nat, interval: nat, n: nat)
    requires interval <= leaseMs
    ensures NoLongGap(last, leaseMs, Regular(last, interval, n))
    ensures LastOf(last, Regular(last, interval, n)) == last + n * interval
  {
    if n > 0 {
      var ticks := Regular(last, interval, n);
      RegularGaps(last, leaseMs, interval, n - 1);
      assert ticks[..n - 1] == Regular(last, interval, n - 1);
      GapsExtend(last, leaseMs, ticks);
    }
  }

  // ----- One instance's operations -----

  /** While an instance is inside one of its sequences, no other instance's step moves the key or
      the counter: the guarantee on which the operations below rely. */
  lemma OthersWait(s: State, a: Action, i: nat)
    requires Inv(s) && Next(s, a).Some? && !Splits(s, a)
    requires PhaseOf(s, i) in {AwaitIncr, AwaitFence, ReleaseDel}
    requires InstanceOf(Next(s, a).value, i) == InstanceOf(s, i)
    ensures Next(s, a).value.key == s.key && Next(s, a).value.fence == s.fence
  {
  }

  /** The shared server. `Interlude` is what other instances may do between two of our commands. */
  class Redis {
    var key: Option<nat>
    var fence: nat

    method Interlude(me: nat, inSequence: bool)
      modifies this
      ensures inSequence ==> key == old(key) && fence == old(fence)
      ensures key == Some(me) ==> old(key) == Some(me) && fence == old(fence)
      ensures fence >= old(fence)
    {
      var quiet := inSequence;
      if * { quiet := true; }
      if !quiet {
        var other: Option<nat> :| other != Some(me);
        var more: nat :| more >= 0;
        key := other;
        fence := fence + more;
      }
    }

    method SetNx(id: nat) returns (acquired: bool)
      modifies this
      ensures fence == old(fence) && acquired == old(key).None? && key == if acquired then Some(id) else old(key)
    {
      acquired := key.None?;
      if acquired { key := Some(id); }
    }

    method Incr() returns (value: nat)
      modifies this
      ensures key == old(key) && fence == old(fence) + 1 == value
    {
      fence := fence + 1;
      value := fence;
    }

    method Del()
      modifies this
      ensures key == None && fence == old(fence)
    {
      key := None;
    }
  }

  class RedisIndexerLeaderElection {
    const redis: Redis
    const instanceId: nat
    const leaseMs: nat
    var isLeader: bool
    var fencingToken: nat
    var heartbeat: bool
    var lastRenewAttemptMs: int

    constructor (redis: Redis, instanceId: nat, leaseMs: nat)
      ensures this.redis == redis && this.instanceId == instanceId && this.leaseMs == leaseMs
      ensures !isLeader && fencingToken == 0 && !heartbeat && lastRenewAttemptMs == 0
    {
      this.redis, this.instanceId, this.leaseMs := redis, instanceId, leaseMs;
      isLeader, fencingToken, heartbeat, lastRenewAttemptMs := false, 0, false, 0;
    }

    ghost function Beating(): Beat
      reads this
    {
      Beat(isLeader, heartbeat, lastRenewAttemptMs)
    }

    /** Success means the key is ours and our token is the counter; a fresh acquisition's token is
        larger than any issued before. Any error, of any of the four commands, means "not leader". */
    method TryAcquire(now: int) returns (ok: bool)
      modifies this, redis
      ensures ok == isLeader
      ensures ok ==> redis.key == Some(instanceId) && fencingToken == redis.fence && heartbeat
      ensures ok && old(redis.key) != Some(instanceId) ==> fencingToken > old(redis.fence)
      ensures ok && old(redis.key) == Some(instanceId) ==> fencingToken == redis.fence == old(redis.fence)
      ensures ok && (old(redis.key).None? || !old(heartbeat)) ==> lastRenewAttemptMs == now
      ensures !ok ==> fencingToken == old(fencingToken) && heartbeat == old(heartbeat)
      ensures !ok ==> lastRenewAttemptMs == old(lastRenewAttemptMs)
    {
      if * {                                     // SET NX fails, applied or not
        if * { var unknown := redis.SetNx(instanceId); }
        isLeader := false;
        return false;
      }
      var acquired := redis.SetNx(instanceId);
      if acquired {
        redis.Interlude(instanceId, true);
        if * {                                   // INCR fails, applied or not
          if * { var unknown := redis.Incr(); }
          isLeader := false;
          return false;
        }
        fencingToken := redis.Incr();
        isLeader := true;
        lastRenewAttemptMs := now;
        heartbeat := true;
        return true;
      }
      redis.Interlude(instanceId, false);
      if * {
        isLeader := false;
        return false;
      }
      if redis.key == Some(instanceId) {
        redis.Interlude(instanceId, true);
        if * {
          isLeader := false;
          return false;
        }
        fencingToken := redis.fence;
        isLeader := true;
        if !heartbeat {
          lastRenewAttemptMs := now;
          heartbeat := true;
        }
        return true;
      }
      isLeader := false;
      ok := false;
    }

    /** Give up the lease; `seen` is the holder read, if the read succeeded. A key seen to be another's, or
        gone, is left as it was. */
    method Release() returns (ghost seen: Option<Option<nat>>)
      modifies this, redis
      ensures !isLeader && !heartbeat && fencingToken == old(fencingToken)
      ensures redis.key == Some(instanceId) ==> old(redis.key) == Some(instanceId)
      ensures seen.Some? && seen.value != Some(instanceId) ==> redis.key == seen.value
      ensures seen == Some(Some(instanceId)) ==> redis.key == None || redis.key == Some(instanceId)
      ensures redis.fence >= old(redis.fence)
    {
      heartbeat := false;
      isLeader := false;
      redis.Interlude(instanceId, false);
      seen := None;
      if * { return; }                           // GET fails
      seen := Some(redis.key);
      if redis.key == Some(instanceId) {
        redis.Interlude(instanceId, true);
        if * { return; }                         // DEL fails unapplied
        redis.Del();
      }
    }

    /** One heartbeat. A stale one resigns without contacting Redis; otherwise the stamp is refreshed first,
        and leadership is lost only on an answer that the key is not ours. */
    method Renew(now: int) returns (ghost answer: Answer)
      requires heartbeat
      modifies this, redis
      ensures Beating() == Tick(old(Beating()), leaseMs, now, answer) && fencingToken == old(fencingToken)
      ensures Stale(old(lastRenewAttemptMs), now, leaseMs) ==> redis.key == old(redis.key) && redis.fence == old(redis.fence)
      ensures !Stale(old(lastRenewAttemptMs), now, leaseMs) && answer.NotOurs? ==> redis.key != Some(instanceId)
      ensures !Stale(old(lastRenewAttemptMs), now, leaseMs) && answer.Ours? ==> redis.key.Some?
    {
      var elapsed := if now >= lastRenewAttemptMs then now - lastRenewAttemptMs else 0;
      if elapsed > leaseMs {
        isLeader := false;
        heartbeat := false;
        return Error;
      }
      lastRenewAttemptMs := now;
      redis.Interlude(instanceId, false);
      if * { return Error; }                     // an error keeps the flag for the next tick
      if redis.key != Some(instanceId) {
        isLeader := false;
        heartbeat := false;
        return NotOurs;
      }
      redis.Interlude(instanceId, false);
      if * { return Error; }
      if redis.key.None? {
        isLeader := false;
        heartbeat := false;
        return NotOurs;
      }
      return Ours;
    }
  }
}
