/** Why a request ends without generating, and what it does with its slot on the way. */
module RequestRuns {
  import opened Wrappers
  import opened ModelSlots
  import opened ModelLoss

  ghost predicate IsOwn(move: (Tid, Move), t: Tid) { move.0 == t && move.1.Run? }

  /** The three ways to end early: the client is gone, the backend cannot load, the model was taken away. */
  ghost predicate GivesUp(s: State, move: (Tid, Move), t: Tid) {
    && IsOwn(move, t) && t in s.tasks
    && match s.tasks[t].pc
       case Announce => move.1.choice.SendFails?
       case LoadModel => move.1.choice.LoadFails?
       case WantGen => !HasModel(s, s.tasks[t].key)
       case _ => false
  }

  ghost predicate GaveUp(trace: seq<State>, moves: seq<(Tid, Move)>, t: Tid, b: nat, j: nat)
    requires |trace| == |moves| + 1 && j < |trace|
  {
    exists i | b < i < j :: GivesUp(trace[i], moves[i], t)
  }

  predicate Generates(s: State, t: Tid) { t in s.tasks && s.tasks[t].pc.Generating? }

  ghost predicate Generated(trace: seq<State>, t: Tid, b: nat, j: nat)
    requires j < |trace|
  {
    exists i | b < i <= j :: Generates(trace[i], t)
  }

  // ---------------------------------------------------------------- one step

  /** Where the own step of a request leads. */
  ghost predicate Advances(s: State, k: Key, pc: Pc, choice: Choice, pc': Pc) {
    match pc
    case Check =>
      && (HasModel(s, k) ==> pc'.WantGen?)
      && (IsLoadingSlot(s, k) ==> pc' == Wait(false))
      && (!HasModel(s, k) && !IsLoadingSlot(s, k) ==> pc'.WantCold?)
    case Wait(notified) => notified && pc'.Check?
    case WantCold => pc'.Recheck?
    case Recheck => if HasModel(s, k) then pc' == ReleaseCold(WantGen) else pc'.Announce?
    case Announce => if choice.SendFails? then pc'.AbandonRelock? else pc'.Snapshot?
    case AbandonRelock => pc' == ReleaseCold(Finished)
    case Snapshot => pc'.Unload?
    case Unload(rest) => if rest == [] then pc'.LoadModel? else pc'.Unload?
    case LoadModel => if choice.LoadFails? then pc'.FailRelock? else pc'.StoreRelock?
    case FailRelock => pc'.FailSend?
    case FailSend => pc' == ReleaseCold(Finished)
    case StoreRelock => pc'.Stored?
    case Stored => pc'.Breaking?
    case Breaking => pc'.WantGen?
    case ReleaseCold(next) => pc' == next && (next.Finished? || next.WantGen?)
    case WantGen => if HasModel(s, k) then pc'.Generating? else pc'.Finished?
    case Generating => pc'.Finished?
    case Evict(_) => true
    case Finished => false
  }

  predicate IsLoadingSlot(s: State, k: Key) { k in s.slots && s.slots[k].Loading? }

  lemma LoadingAdvances(s: State, t: Tid, choice: Choice)
    requires t in s.tasks && CanRun(s, t, choice) && KnowsKeys(s, s.tasks[t]) && IsLoading(s.tasks[t].pc)
    ensures Advances(s, s.tasks[t].key, s.tasks[t].pc, choice, AfterRun(s, t, choice).tasks[t].pc)
  {}

  lemma OtherAdvances(s: State, t: Tid, choice: Choice)
    requires t in s.tasks && CanRun(s, t, choice) && KnowsKeys(s, s.tasks[t]) && !IsLoading(s.tasks[t].pc)
    requires s.tasks[t].pc.Recheck? ==> !IsLoadingSlot(s, s.tasks[t].key)
    ensures Advances(s, s.tasks[t].key, s.tasks[t].pc, choice, AfterRun(s, t, choice).tasks[t].pc)
  {}

  /** A request stays where it is in the steps of others, unless it waits and is woken. */
  ghost predicate Stays(pc: Pc, pc': Pc) { pc' == pc || (pc.Wait? && pc' == Wait(true)) }

  ghost predicate TaskMoves(s: State, t: Tid, move: (Tid, Move), s': State) {
    && t in s.tasks && t in s'.tasks && s'.tasks[t].key == s.tasks[t].key
    && if IsOwn(move, t) then Advances(s, s.tasks[t].key, s.tasks[t].pc, move.1.choice, s'.tasks[t].pc)
       else Stays(s.tasks[t].pc, s'.tasks[t].pc)
  }

  lemma TaskStep(s: State, t: Tid, move: (Tid, Move), s': State)
    requires Inv(s) && t in s.tasks && IsStep(s, move, s')
    ensures TaskMoves(s, t, move, s')
  {
    if move.1.Run? {
      var u, choice := move.0, move.1.choice;
      assert KnowsKeys(s, s.tasks[u]);
      RunOthersStay(s, u, choice);
      if u == t {
        if IsLoading(s.tasks[t].pc) {
          LoadingAdvances(s, t, choice);
        } else {
          OtherAdvances(s, t, choice);
        }
      }
    }
  }

  /** A task is woken only in a step that leaves its slot loaded or empty. */
  lemma WokenHasLeft(s: State, t: Tid, move: (Tid, Move), s': State)
    requires Inv(s) && t in s.tasks && s.tasks[t].pc == Wait(false) && IsStep(s, move, s') && !IsOwn(move, t)
    requires t in s'.tasks && s'.tasks[t] != s.tasks[t]
    ensures !IsLoadingSlot(s', s.tasks[t].key)
  {}

  lemma SpawnStep(s: State, t: Tid, k: Key, s': State)
    requires IsStep(s, (t, Spawn(k)), s')
    ensures t in s'.tasks && s'.tasks[t] == Task(k, Check)
  {}

  lemma RequestStep(trace: seq<State>, moves: seq<(Tid, Move)>, t: Tid, l: nat)
    requires IsRunOf(trace, moves) && l < |moves| && t in trace[l].tasks
    ensures TaskMoves(trace[l], t, moves[l], trace[l + 1])
  {
    RunStatesKeepInv(trace, moves, l);
    assert IsStep(trace[l], moves[l], trace[l + 1]);
    TaskStep(trace[l], t, moves[l], trace[l + 1]);
  }

  lemma FirstState(trace: seq<State>, moves: seq<(Tid, Move)>, t: Tid, k: Key, b: nat)
    requires IsRunOf(trace, moves) && b < |moves| && moves[b] == (t, Spawn(k))
    ensures t in trace[b + 1].tasks && trace[b + 1].tasks[t] == Task(k, Check)
  {
    assert IsStep(trace[b], moves[b], trace[b + 1]);
    SpawnStep(trace[b], t, k, trace[b + 1]);
  }

  // ---------------------------------------------------------------- why a request ends

  /** What has happened to a request by the time it is at `pc`. */
  ghost predicate Standing(pc: Pc, generated: bool, gaveUp: bool) {
    match pc
    case AbandonRelock => gaveUp && !generated
    case FailRelock => gaveUp && !generated
    case FailSend => gaveUp && !generated
    case ReleaseCold(next) => !generated && (gaveUp <==> next.Finished?)
    case Generating => generated && !gaveUp
    case Finished => generated <==> !gaveUp
    case Evict(_) => false
    case _ => !generated && !gaveUp
  }

  lemma StandingKept(s: State, t: Tid, move: (Tid, Move), s': State, generated: bool, gaveUp: bool)
    requires TaskMoves(s, t, move, s') && Standing(s.tasks[t].pc, generated, gaveUp)
    ensures Standing(s'.tasks[t].pc, generated || Generates(s', t), gaveUp || GivesUp(s, move, t))
  {}

  lemma {:induction false} RequestStands(
    trace: seq<State>, moves: seq<(Tid, Move)>, t: Tid, k: Key, b: nat, j: nat)
    requires IsRunOf(trace, moves) && b < j < |trace| && moves[b] == (t, Spawn(k))
    ensures t in trace[j].tasks && trace[j].tasks[t].key == k
    ensures Standing(trace[j].tasks[t].pc, Generated(trace, t, b, j), GaveUp(trace, moves, t, b, j))
    decreases j
  {
    if j == b + 1 {
      FirstState(trace, moves, t, k, b);
      assert !Generates(trace[j], t);
    } else {
      var l := j - 1;
      RequestStands(trace, moves, t, k, b, l);
      RequestStep(trace, moves, t, l);
      StandingKept(trace[l], t, moves[l], trace[j], Generated(trace, t, b, l), GaveUp(trace, moves, t, b, l));
      assert Generated(trace, t, b, j) <==> Generated(trace, t, b, l) || Generates(trace[j], t);
      assert GaveUp(trace, moves, t, b, j) <==> GaveUp(trace, moves, t, b, l) || GivesUp(trace[l], moves[l], t);
    }
  }

  /** A request that has ended has generated, unless the client was gone when the load was announced, the
      backend failed to load, or the slot held no model when the request locked it to generate. */
  lemma EndsWithoutGeneratingExactlyWhen(
    trace: seq<State>, moves: seq<(Tid, Move)>, t: Tid, k: Key, b: nat, j: nat)
    requires IsRunOf(trace, moves) && b < j < |trace| && moves[b] == (t, Spawn(k))
    requires t in trace[j].tasks && trace[j].tasks[t].pc.Finished?
    ensures !Generated(trace, t, b, j) <==> GaveUp(trace, moves, t, b, j)
  {
    RequestStands(trace, moves, t, k, b, j);
  }

  // ---------------------------------------------------------------- the locks of a request, one after the other

  ghost predicate TakesSlotLock(s: State, move: (Tid, Move), t: Tid) {
    IsOwn(move, t) && t in s.tasks && WantedSlot(s.tasks[t]).Some?
  }

  /** Steps `i` and `j` of the task take slot locks, and none in between does. */
  ghost predicate NextLock(trace: seq<State>, moves: seq<(Tid, Move)>, t: Tid, i: nat, j: nat)
    requires IsRunOf(trace, moves)
  {
    && i < j < |moves| && TakesSlotLock(trace[i], moves[i], t) && TakesSlotLock(trace[j], moves[j], t)
    && forall l | i < l < j :: !TakesSlotLock(trace[l], moves[l], t)
  }

  /** After a look at the slot in state `s`, from `pc`, the task locks a slot next at `pc'`. */
  ghost predicate LocksNext(s: State, k: Key, pc: Pc, pc': Pc) {
    match pc
    case Check => if HasModel(s, k) then pc'.WantGen? else if IsLoadingSlot(s, k) then pc'.Check? else pc'.Recheck?
    case Recheck => if HasModel(s, k) then pc'.WantGen? else pc'.AbandonRelock? || IsLockOfLoad(pc')
    case Unload(_) => IsLockOfLoad(pc')
    case StoreRelock => pc'.WantGen?
    case _ => false
  }

  ghost predicate IsLockOfLoad(pc: Pc) { pc.Unload? || pc.FailRelock? || pc.StoreRelock? }

  /** Where a task may stand between the two. */
  ghost predicate OnTheWay(s: State, k: Key, pc: Pc, now: Pc) {
    match pc
    case Check =>
      if HasModel(s, k) then now.WantGen?
      else if IsLoadingSlot(s, k) then now.Wait? || now.Check? else now.WantCold? || now.Recheck?
    case Recheck =>
      if HasModel(s, k) then now.WantGen? || now == ReleaseCold(WantGen)
      else now.Announce? || now.AbandonRelock? || now.Snapshot? || now.LoadModel? || IsLockOfLoad(now)
    case Unload(_) => now.LoadModel? || IsLockOfLoad(now)
    case StoreRelock => now.Stored? || now.Breaking? || now.WantGen?
    case AbandonRelock => now == ReleaseCold(Finished) || now.Finished?
    case FailRelock => now.FailSend? || now == ReleaseCold(Finished) || now.Finished?
    case WantGen => now.Generating? || now.Finished?
    case _ => false
  }

  lemma TakesTheWay(s: State, k: Key, pc: Pc, choice: Choice, pc': Pc)
    requires Advances(s, k, pc, choice, pc') && !pc.Evict? && WantedSlot(Task(k, pc)).Some?
    ensures OnTheWay(s, k, pc, pc')
  {}

  lemma StaysOnTheWay(first: State, pc: Pc, s: State, t: Tid, move: (Tid, Move), s': State)
    requires TaskMoves(s, t, move, s') && !TakesSlotLock(s, move, t)
    requires OnTheWay(first, s.tasks[t].key, pc, s.tasks[t].pc)
    ensures OnTheWay(first, s.tasks[t].key, pc, s'.tasks[t].pc)
  {}

  lemma {:induction false} BetweenLocks(
    trace: seq<State>, moves: seq<(Tid, Move)>, t: Tid, k: Key, b: nat, i: nat, l: nat)
    requires IsRunOf(trace, moves) && b < i < l < |trace| && moves[b] == (t, Spawn(k))
    requires TakesSlotLock(trace[i], moves[i], t) && forall m | i < m < l :: !TakesSlotLock(trace[m], moves[m], t)
    ensures t in trace[l].tasks && trace[l].tasks[t].key == k
    ensures OnTheWay(trace[i], k, trace[i].tasks[t].pc, trace[l].tasks[t].pc)
    decreases l
  {
    var m := l - 1;
    RequestStands(trace, moves, t, k, b, m);
    RequestStep(trace, moves, t, m);
    if m == i {
      TakesTheWay(trace[i], k, trace[i].tasks[t].pc, moves[i].1.choice, trace[l].tasks[t].pc);
    } else {
      BetweenLocks(trace, moves, t, k, b, i, m);
      StaysOnTheWay(trace[i], trace[i].tasks[t].pc, trace[m], t, moves[m], trace[l]);
    }
  }

  /** A request that finds its slot loaded, at the first look or under the cold lock, next locks it to
      generate; one that finds it loading looks again; one that finds it empty looks again under the cold
      lock and, if it is still empty, loads.  After it was stored the model is generated from, and no
      lock is taken after that, nor after giving up. */
  lemma NextLockTaken(trace: seq<State>, moves: seq<(Tid, Move)>, t: Tid, k: Key, b: nat, i: nat, j: nat)
    requires IsRunOf(trace, moves) && b < i < j < |moves| && moves[b] == (t, Spawn(k))
    requires NextLock(trace, moves, t, i, j)
    ensures LocksNext(trace[i], k, trace[i].tasks[t].pc, trace[j].tasks[t].pc)
  {
    BetweenLocks(trace, moves, t, k, b, i, j);
    RequestStands(trace, moves, t, k, b, i);
  }

  /** The first step of a request is a look at its slot. */
  lemma {:induction false} FirstStepIsCheck(trace: seq<State>, moves: seq<(Tid, Move)>, t: Tid, k: Key, b: nat, j: nat)
    requires IsRunOf(trace, moves) && b < j < |trace| && moves[b] == (t, Spawn(k))
    requires forall i | b < i < j :: !IsOwn(moves[i], t)
    ensures t in trace[j].tasks && trace[j].tasks[t] == Task(k, Check)
    decreases j
  {
    if j == b + 1 {
      FirstState(trace, moves, t, k, b);
    } else {
      FirstStepIsCheck(trace, moves, t, k, b, j - 1);
      RequestStep(trace, moves, t, j - 1);
    }
  }

  // ---------------------------------------------------------------- waiting

  ghost predicate LeftLoading(trace: seq<State>, k: Key, i: nat, j: nat)
    requires j < |trace|
  {
    exists f | i < f <= j :: !IsLoadingSlot(trace[f], k)
  }

  lemma {:induction false} WaitsOrWasLeft(
    trace: seq<State>, moves: seq<(Tid, Move)>, t: Tid, k: Key, i: nat, j: nat)
    requires IsRunOf(trace, moves) && i < j < |trace| && IsOwn(moves[i], t)
    requires t in trace[i].tasks && trace[i].tasks[t] == Task(k, Check) && IsLoadingSlot(trace[i], k)
    requires forall l | i < l < j :: !IsOwn(moves[l], t)
    ensures LeftLoading(trace, k, i, j) || (t in trace[j].tasks && trace[j].tasks[t] == Task(k, Wait(false)))
    decreases j
  {
    var l := j - 1;
    if l == i {
      RequestStep(trace, moves, t, i);
    } else {
      WaitsOrWasLeft(trace, moves, t, k, i, l);
      if !LeftLoading(trace, k, i, l) {
        RequestStep(trace, moves, t, l);
        if trace[j].tasks[t] != trace[l].tasks[t] {
          RunStatesKeepInv(trace, moves, l);
          assert IsStep(trace[l], moves[l], trace[j]);
          WokenHasLeft(trace[l], t, moves[l], trace[j]);
        }
      }
    }
  }

  /** A request that finds its slot loading takes its next step only after the slot has left that state. */
  lemma WaitsForTheLoad(trace: seq<State>, moves: seq<(Tid, Move)>, t: Tid, k: Key, i: nat, j: nat)
    requires IsRunOf(trace, moves) && i < j < |moves| && IsOwn(moves[i], t) && IsOwn(moves[j], t)
    requires t in trace[i].tasks && trace[i].tasks[t] == Task(k, Check) && IsLoadingSlot(trace[i], k)
    requires forall l | i < l < j :: !IsOwn(moves[l], t)
    ensures LeftLoading(trace, k, i, j)
  {
    WaitsOrWasLeft(trace, moves, t, k, i, j);
    assert IsStep(trace[j], moves[j], trace[j + 1]);
  }
}
