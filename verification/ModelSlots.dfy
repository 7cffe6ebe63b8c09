/** The protocol by which request tasks share the model slots of one inference runtime.

    A state holds the slots, the lock of each slot, the cold-load lock and every task's program
    counter; a move is one atomic step of one task.  A step that takes a lock needs it free.  A
    critical section without an await point is one step; a lock kept across one is in the state. */
module ModelSlots {
  import opened Wrappers

  type Key = string
  type Tid = nat

  datatype SlotState = Empty | Loading | Loaded

  datatype Pc =
    | Check                    // lock the own slot and look at its state
    | Wait(notified: bool)     // await `notified`
    | WantCold                 // await the cold-load lock
    | Recheck                  // cold lock held: lock the own slot and look again
    | Announce                 // send the loading message
    | AbandonRelock            // the client is gone: lock the slot to empty it
    | Snapshot                 // list the other slots
    | Unload(rest: seq<Key>)   // lock each of them and empty it if it is loaded
    | LoadModel                // the backend loads
    | FailRelock               // loading failed: lock the slot to empty it
    | FailSend                 // send the error, slot lock and cold lock still held
    | StoreRelock              // loading succeeded: lock the slot to fill it
    | Stored                   // slot lock and cold lock held
    | Breaking                 // slot lock held, cold lock dropped
    | ReleaseCold(next: Pc)    // slot lock dropped, cold lock still held
    | WantGen                  // lock the own slot to generate
    | Generating               // generate, slot lock held
    | Evict(todo: seq<Key>)    // `evict_model`: lock each listed slot and empty it if it is loaded
    | Finished

  datatype Task = Task(key: Key, pc: Pc)

  datatype State = State(slots: map<Key, SlotState>, lock: map<Key, Tid>, cold: Option<Tid>, tasks: map<Tid, Task>)

  /** What the outside decides in a step. */
  datatype Choice = Plain | SendFails | LoadFails | Order(keys: seq<Key>)

  datatype Move =
    | Spawn(key: Key)                // a request arrives: `get_or_create_model_slot`, then its task
    | SpawnEviction(todo: seq<Key>)  // `evict_model` lists some of the slots
    | Run(choice: Choice)

  predicate HoldsCold(pc: Pc) {
    pc.Recheck? || pc.Announce? || pc.AbandonRelock? || pc.Snapshot? || pc.Unload? || pc.LoadModel?
    || pc.FailRelock? || pc.FailSend? || pc.StoreRelock? || pc.Stored? || pc.ReleaseCold?
  }

  predicate HoldsSlot(pc: Pc) { pc.FailSend? || pc.Stored? || pc.Breaking? || pc.Generating? }

  /** The program points between setting the own slot to `Loading` and setting it to something else. */
  predicate IsLoading(pc: Pc) {
    pc.Announce? || pc.AbandonRelock? || pc.Snapshot? || pc.Unload? || pc.LoadModel? || pc.FailRelock?
    || pc.StoreRelock?
  }

  /** The slot whose lock the next step of the task takes. */
  function WantedSlot(task: Task): Option<Key> {
    match task.pc
    case Check => Some(task.key)
    case Recheck => Some(task.key)
    case AbandonRelock => Some(task.key)
    case FailRelock => Some(task.key)
    case StoreRelock => Some(task.key)
    case WantGen => Some(task.key)
    case Unload(rest) => if rest == [] then None else Some(rest[0])
    case Evict(todo) => if todo == [] then None else Some(todo[0])
    case _ => None
  }

  function Goto(s: State, t: Tid, pc: Pc): State
    requires t in s.tasks
  {
    s.(tasks := s.tasks[t := s.tasks[t].(pc := pc)])
  }

  function Woken(task: Task, k: Key): Task {
    if task.key == k && task.pc.Wait? then task.(pc := Wait(true)) else task
  }

  /** `notify_waiters`: reaches every `Notified` created so far. */
  function Notify(s: State, k: Key): State {
    s.(tasks := map t | t in s.tasks :: Woken(s.tasks[t], k))
  }

  ghost predicate Enabled(s: State, t: Tid, move: Move) {
    match move
    case Spawn(_) => t !in s.tasks
    case SpawnEviction(todo) => t !in s.tasks && forall k | k in todo :: k in s.slots
    case Run(choice) => t in s.tasks && CanRun(s, t, choice)
  }

  ghost predicate CanRun(s: State, t: Tid, choice: Choice)
    requires t in s.tasks
  {
    var task := s.tasks[t];
    var wanted := WantedSlot(task);
    && (wanted.Some? ==> wanted.value in s.slots && wanted.value !in s.lock)
    && (match task.pc
        case Wait(notified) => notified
        case WantCold => s.cold.None?
        case Snapshot => choice.Order? && forall k :: k in choice.keys <==> k in s.slots.Keys - {task.key}
        case Finished => false
        case _ => true)
  }

  function After(s: State, t: Tid, move: Move): State
    requires Enabled(s, t, move)
  {
    match move
    case Spawn(key) =>
      s.(tasks := s.tasks[t := Task(key, Check)], slots := if key in s.slots then s.slots else s.slots[key := Empty])
    case SpawnEviction(todo) => s.(tasks := s.tasks[t := Task("", Evict(todo))])
    case Run(choice) => AfterRun(s, t, choice)
  }

  function AfterRun(s: State, t: Tid, choice: Choice): State
    requires t in s.tasks && CanRun(s, t, choice)
  {
    var task := s.tasks[t];
    var k := task.key;
    match task.pc
    case Check =>
      Goto(s, t, match s.slots[k] case Loaded => WantGen case Loading => Wait(false) case Empty => WantCold)
    case Wait(_) => Goto(s, t, Check)
    case WantCold => Goto(s, t, Recheck).(cold := Some(t))
    case Recheck =>
      (match s.slots[k]
       case Loaded => Goto(s, t, ReleaseCold(WantGen))
       case Loading => Goto(s, t, Wait(false)).(cold := None)
       case Empty => Goto(s, t, Announce).(slots := s.slots[k := Loading]))
    case Announce => Goto(s, t, if choice.SendFails? then AbandonRelock else Snapshot)
    case AbandonRelock => Notify(Goto(s, t, ReleaseCold(Finished)).(slots := s.slots[k := Empty]), k)
    case Snapshot => Goto(s, t, Unload(choice.keys))
    case Unload(rest) =>
      if rest == [] then Goto(s, t, LoadModel)
      else
        Goto(s, t, Unload(rest[1..])).(slots := if s.slots[rest[0]].Loaded? then s.slots[rest[0] := Empty] else s.slots)
    case LoadModel => Goto(s, t, if choice.LoadFails? then FailRelock else StoreRelock)
    case FailRelock => Notify(Goto(s, t, FailSend).(slots := s.slots[k := Empty], lock := s.lock[k := t]), k)
    case FailSend => Goto(s, t, ReleaseCold(Finished)).(lock := s.lock - {k})
    case StoreRelock => Notify(Goto(s, t, Stored).(slots := s.slots[k := Loaded], lock := s.lock[k := t]), k)
    case Stored => Goto(s, t, Breaking).(cold := None)
    case Breaking => Goto(s, t, WantGen).(lock := s.lock - {k})
    case ReleaseCold(next) => Goto(s, t, next).(cold := None)
    case WantGen =>
      if s.slots[k].Loaded? then Goto(s, t, Generating).(lock := s.lock[k := t]) else Goto(s, t, Finished)
    case Generating => Goto(s, t, Finished).(lock := s.lock - {k})
    case Evict(todo) =>
      if todo == [] then Goto(s, t, Finished)
      else if s.slots[todo[0]].Loaded? then
        Notify(Goto(s, t, Evict(todo[1..])).(slots := s.slots[todo[0] := Empty]), todo[0])
      else Goto(s, t, Evict(todo[1..]))
    case Finished => s
  }

  const INIT := State(map[], map[], None, map[])

  // ---------------------------------------------------------------- what every state keeps

  /** The cold-load lock is held by the task whose program counter says so. */
  ghost predicate ColdOwned(s: State) {
    && (s.cold.Some? ==> s.cold.value in s.tasks && HoldsCold(s.tasks[s.cold.value].pc))
    && forall t | t in s.tasks && HoldsCold(s.tasks[t].pc) :: s.cold == Some(t)
  }

  /** So is every slot lock, and it is the lock of the task's own slot. */
  ghost predicate LocksOwned(s: State) {
    && (forall k | k in s.lock ::
          s.lock[k] in s.tasks && HoldsSlot(s.tasks[s.lock[k]].pc) && s.tasks[s.lock[k]].key == k)
    && forall t | t in s.tasks && HoldsSlot(s.tasks[t].pc) :: s.tasks[t].key in s.lock && s.lock[s.tasks[t].key] == t
  }

  /** The slots a task can name exist. */
  ghost predicate KnowsKeys(s: State, task: Task) {
    match task.pc
    case Unload(rest) => task.key in s.slots && forall k | k in rest :: k in s.slots
    case Evict(todo) => forall k | k in todo :: k in s.slots
    case Finished => true
    case ReleaseCold(next) => task.key in s.slots && (next.Finished? || next.WantGen?)
    case _ => task.key in s.slots
  }

  ghost predicate KeysKnown(s: State) { forall t | t in s.tasks :: KnowsKeys(s, s.tasks[t]) }

  /** A slot is `Loading` exactly while the holder of the cold-load lock loads into it. */
  ghost predicate LoadingOwned(s: State) {
    && (forall k | k in s.slots && s.slots[k].Loading? ::
          && s.cold.Some? && s.cold.value in s.tasks
          && s.tasks[s.cold.value].key == k && IsLoading(s.tasks[s.cold.value].pc))
    && forall t | t in s.tasks && IsLoading(s.tasks[t].pc) && s.tasks[t].key in s.slots ::
         s.slots[s.tasks[t].key].Loading?
  }

  predicate IsClearing(pc: Pc) { pc.Unload? || pc.LoadModel? || pc.StoreRelock? }

  /** While a task unloads the others, a loaded slot is still on its list; afterwards there is none. */
  ghost predicate Clearing(s: State, task: Task) {
    forall k | k in s.slots && k != task.key && s.slots[k].Loaded? :: task.pc.Unload? && k in task.pc.rest
  }

  ghost predicate LoaderIsClearing(s: State) {
    forall t | t in s.tasks && IsClearing(s.tasks[t].pc) :: Clearing(s, s.tasks[t])
  }

  ghost predicate AtMostOneLoaded(s: State) {
    forall j, k | j in s.slots && k in s.slots && s.slots[j].Loaded? && s.slots[k].Loaded? :: j == k
  }

  /** The slot of a task that generates is loaded. */
  ghost predicate GeneratesLoaded(s: State) {
    forall t | t in s.tasks && s.tasks[t].pc.Generating? && s.tasks[t].key in s.slots :: s.slots[s.tasks[t].key].Loaded?
  }

  /** A task that has not been notified waits for a slot that is still `Loading`. */
  ghost predicate NoLostWakeup(s: State) {
    forall t | t in s.tasks && s.tasks[t].pc == Wait(false) && s.tasks[t].key in s.slots ::
      s.slots[s.tasks[t].key].Loading?
  }

  ghost predicate Inv(s: State) {
    && ColdOwned(s) && LocksOwned(s) && KeysKnown(s) && LoadingOwned(s)
    && LoaderIsClearing(s) && AtMostOneLoaded(s) && GeneratesLoaded(s) && NoLostWakeup(s)
  }

  // One step, seen one field at a time.

  /** A step moves its own task; it does nothing to the others but wake them. */
  ghost predicate OthersStay(s: State, s': State, t: Tid) {
    && t in s.tasks && s'.tasks.Keys == s.tasks.Keys && s'.slots.Keys == s.slots.Keys
    && s'.tasks[t].key == s.tasks[t].key
    && forall u | u in s.tasks && u != t ::
         s'.tasks[u] == s.tasks[u] || (s.tasks[u].pc.Wait? && s'.tasks[u] == s.tasks[u].(pc := Wait(true)))
  }

  lemma RunOthersStay(s: State, t: Tid, choice: Choice)
    requires t in s.tasks && CanRun(s, t, choice) && KnowsKeys(s, s.tasks[t])
    ensures OthersStay(s, AfterRun(s, t, choice), t)
  {}

  ghost predicate ColdStep(s: State, s': State, t: Tid, pc: Pc, pc': Pc) {
    || (s'.cold == s.cold && HoldsCold(pc) == HoldsCold(pc'))
    || (s.cold.None? && s'.cold == Some(t) && HoldsCold(pc'))
    || (s'.cold.None? && HoldsCold(pc) && !HoldsCold(pc'))
  }

  lemma LoadingRunCold(s: State, t: Tid, choice: Choice)
    requires t in s.tasks && CanRun(s, t, choice) && KnowsKeys(s, s.tasks[t]) && IsLoading(s.tasks[t].pc)
    ensures var s' := AfterRun(s, t, choice); ColdStep(s, s', t, s.tasks[t].pc, s'.tasks[t].pc)
  {}

  lemma OtherRunCold(s: State, t: Tid, choice: Choice)
    requires t in s.tasks && CanRun(s, t, choice) && KnowsKeys(s, s.tasks[t]) && !IsLoading(s.tasks[t].pc)
    ensures var s' := AfterRun(s, t, choice); ColdStep(s, s', t, s.tasks[t].pc, s'.tasks[t].pc)
  {}

  ghost predicate LockStep(s: State, s': State, t: Tid, k: Key, pc: Pc, pc': Pc) {
    || (s'.lock == s.lock && HoldsSlot(pc) == HoldsSlot(pc'))
    || (k !in s.lock && s'.lock == s.lock[k := t] && HoldsSlot(pc'))
    || (s'.lock == s.lock - {k} && HoldsSlot(pc) && !HoldsSlot(pc'))
  }

  lemma LoadingRunLock(s: State, t: Tid, choice: Choice)
    requires t in s.tasks && CanRun(s, t, choice) && KnowsKeys(s, s.tasks[t]) && IsLoading(s.tasks[t].pc)
    ensures var s' := AfterRun(s, t, choice); LockStep(s, s', t, s.tasks[t].key, s.tasks[t].pc, s'.tasks[t].pc)
  {}

  lemma OtherRunLock(s: State, t: Tid, choice: Choice)
    requires t in s.tasks && CanRun(s, t, choice) && KnowsKeys(s, s.tasks[t]) && !IsLoading(s.tasks[t].pc)
    ensures var s' := AfterRun(s, t, choice); LockStep(s, s', t, s.tasks[t].key, s.tasks[t].pc, s'.tasks[t].pc)
  {}

  /** A slot goes from `Empty` to `Loading` as its task starts loading, leaves `Loading` as that
      task stops, and is otherwise only ever emptied, when it was loaded. */
  ghost predicate SlotStep(s: State, s': State, k: Key, victim: Option<Key>, pc: Pc, pc': Pc) {
    || (s'.slots == s.slots && IsLoading(pc) == IsLoading(pc'))
    || (k in s.slots && s.slots[k].Empty? && s'.slots == s.slots[k := Loading]
        && HoldsCold(pc) && !IsLoading(pc) && IsLoading(pc'))
    || (k in s.slots && s'.slots == s.slots[k := Empty] && IsLoading(pc) && !IsLoading(pc'))
    || (k in s.slots && s'.slots == s.slots[k := Loaded] && pc.StoreRelock? && !IsLoading(pc'))
    || (IsLoading(pc) == IsLoading(pc') && victim.Some? && victim.value in s.slots
        && s.slots[victim.value].Loaded? && s'.slots == s.slots[victim.value := Empty])
  }

  lemma RunSlots(s: State, t: Tid, choice: Choice)
    requires t in s.tasks && CanRun(s, t, choice) && KnowsKeys(s, s.tasks[t])
    ensures RunIsSlotStep(s, t, choice)
  {
    if IsLoading(s.tasks[t].pc) {
      LoadingRunSlots(s, t, choice);
    } else {
      OtherRunSlots(s, t, choice);
    }
  }

  ghost predicate RunIsSlotStep(s: State, t: Tid, choice: Choice)
    requires t in s.tasks && CanRun(s, t, choice)
  {
    var s' := AfterRun(s, t, choice);
    t in s'.tasks && SlotStep(s, s', s.tasks[t].key, WantedSlot(s.tasks[t]), s.tasks[t].pc, s'.tasks[t].pc)
  }

  lemma LoadingRunSlots(s: State, t: Tid, choice: Choice)
    requires t in s.tasks && CanRun(s, t, choice) && KnowsKeys(s, s.tasks[t]) && IsLoading(s.tasks[t].pc)
    ensures RunIsSlotStep(s, t, choice)
  {}

  lemma OtherRunSlots(s: State, t: Tid, choice: Choice)
    requires t in s.tasks && CanRun(s, t, choice) && KnowsKeys(s, s.tasks[t]) && !IsLoading(s.tasks[t].pc)
    ensures RunIsSlotStep(s, t, choice)
  {}

  // Each part of the invariant, step by step.

  lemma ColdOwnedKept(s: State, s': State, t: Tid)
    requires ColdOwned(s) && OthersStay(s, s', t)
    requires ColdStep(s, s', t, s.tasks[t].pc, s'.tasks[t].pc)
    ensures ColdOwned(s')
  {}

  lemma LocksOwnedKept(s: State, s': State, t: Tid)
    requires LocksOwned(s) && OthersStay(s, s', t)
    requires LockStep(s, s', t, s.tasks[t].key, s.tasks[t].pc, s'.tasks[t].pc)
    ensures LocksOwned(s')
  {}

  lemma LoadingOwnedKept(s: State, s': State, t: Tid)
    requires ColdOwned(s) && LoadingOwned(s) && OthersStay(s, s', t)
    requires ColdStep(s, s', t, s.tasks[t].pc, s'.tasks[t].pc)
    requires SlotStep(s, s', s.tasks[t].key, WantedSlot(s.tasks[t]), s.tasks[t].pc, s'.tasks[t].pc)
    ensures LoadingOwned(s')
  {}

  lemma ClearingKept(s: State, s': State, t: Tid)
    requires ColdOwned(s) && LoaderIsClearing(s) && OthersStay(s, s', t)
    requires SlotStep(s, s', s.tasks[t].key, WantedSlot(s.tasks[t]), s.tasks[t].pc, s'.tasks[t].pc)
    requires IsClearing(s'.tasks[t].pc) ==> Clearing(s', s'.tasks[t])
    ensures LoaderIsClearing(s')
  {}

  ghost predicate OwnClearing(s: State, t: Tid, choice: Choice)
    requires t in s.tasks && CanRun(s, t, choice)
  {
    var s' := AfterRun(s, t, choice);
    t in s'.tasks && (IsClearing(s'.tasks[t].pc) ==> Clearing(s', s'.tasks[t]))
  }

  lemma LoadingClearing(s: State, t: Tid, choice: Choice)
    requires t in s.tasks && CanRun(s, t, choice) && KnowsKeys(s, s.tasks[t]) && IsLoading(s.tasks[t].pc)
    requires IsClearing(s.tasks[t].pc) ==> Clearing(s, s.tasks[t])
    ensures OwnClearing(s, t, choice)
  {}

  lemma OtherClearing(s: State, t: Tid, choice: Choice)
    requires t in s.tasks && CanRun(s, t, choice) && KnowsKeys(s, s.tasks[t]) && !IsLoading(s.tasks[t].pc)
    ensures OwnClearing(s, t, choice)
  {}

  lemma ColdKeysKnown(s: State, t: Tid, choice: Choice)
    requires t in s.tasks && CanRun(s, t, choice) && KnowsKeys(s, s.tasks[t])
    requires !IsLoading(s.tasks[t].pc) && HoldsCold(s.tasks[t].pc)
    ensures var s' := AfterRun(s, t, choice); KnowsKeys(s', s'.tasks[t])
  {}

  lemma LoadingKeysKnown(s: State, t: Tid, choice: Choice)
    requires t in s.tasks && CanRun(s, t, choice) && KnowsKeys(s, s.tasks[t]) && IsLoading(s.tasks[t].pc)
    ensures var s' := AfterRun(s, t, choice); KnowsKeys(s', s'.tasks[t])
  {}

  lemma OtherKeysKnown(s: State, t: Tid, choice: Choice)
    requires t in s.tasks && CanRun(s, t, choice) && KnowsKeys(s, s.tasks[t])
    requires !IsLoading(s.tasks[t].pc) && !HoldsCold(s.tasks[t].pc)
    ensures var s' := AfterRun(s, t, choice); KnowsKeys(s', s'.tasks[t])
  {}

  lemma KeysKnownKept(s: State, s': State, t: Tid)
    requires KeysKnown(s) && OthersStay(s, s', t) && KnowsKeys(s', s'.tasks[t])
    ensures KeysKnown(s')
  {
    forall u | u in s'.tasks ensures KnowsKeys(s', s'.tasks[u]) {
      assert u in s.tasks && KnowsKeys(s, s.tasks[u]);
    }
  }

  lemma AtMostOneLoadedKept(s: State, t: Tid, choice: Choice)
    requires AtMostOneLoaded(s) && LoaderIsClearing(s)
    requires t in s.tasks && CanRun(s, t, choice) && KnowsKeys(s, s.tasks[t])
    ensures AtMostOneLoaded(AfterRun(s, t, choice))
  {}

  lemma OwnGeneratesLoaded(s: State, t: Tid, choice: Choice)
    requires t in s.tasks && CanRun(s, t, choice) && KnowsKeys(s, s.tasks[t])
    ensures var s' := AfterRun(s, t, choice);
            s'.tasks[t].pc.Generating? ==> s.slots[s.tasks[t].key].Loaded? && s'.slots == s.slots
  {}

  /** A slot that is being generated from is locked, so no step empties it. */
  lemma GeneratesLoadedKept(s: State, s': State, t: Tid)
    requires LocksOwned(s) && LoadingOwned(s) && GeneratesLoaded(s) && OthersStay(s, s', t)
    requires SlotStep(s, s', s.tasks[t].key, WantedSlot(s.tasks[t]), s.tasks[t].pc, s'.tasks[t].pc)
    requires var wanted := WantedSlot(s.tasks[t]); wanted.Some? ==> wanted.value !in s.lock
    requires s'.tasks[t].pc.Generating? ==>
               s'.slots == s.slots && s.tasks[t].key in s.slots && s.slots[s.tasks[t].key].Loaded?
    ensures GeneratesLoaded(s')
  {}

  lemma LoadingNoLostWakeup(s: State, t: Tid, choice: Choice)
    requires Inv(s) && t in s.tasks && CanRun(s, t, choice) && IsLoading(s.tasks[t].pc)
    ensures NoLostWakeup(AfterRun(s, t, choice))
  {}

  lemma OtherNoLostWakeup(s: State, t: Tid, choice: Choice)
    requires Inv(s) && t in s.tasks && CanRun(s, t, choice) && !IsLoading(s.tasks[t].pc)
    ensures NoLostWakeup(AfterRun(s, t, choice))
  {}

  lemma RunKeepsInv(s: State, t: Tid, choice: Choice)
    requires Inv(s) && t in s.tasks && CanRun(s, t, choice)
    ensures Inv(AfterRun(s, t, choice))
  {
    var s' := AfterRun(s, t, choice);
    RunOthersStay(s, t, choice);
    RunSlots(s, t, choice);
    OwnGeneratesLoaded(s, t, choice);
    if IsLoading(s.tasks[t].pc) {
      LoadingRunCold(s, t, choice);
      LoadingRunLock(s, t, choice);
      LoadingClearing(s, t, choice);
      LoadingKeysKnown(s, t, choice);
      LoadingNoLostWakeup(s, t, choice);
    } else {
      OtherRunCold(s, t, choice);
      OtherRunLock(s, t, choice);
      OtherClearing(s, t, choice);
      OtherNoLostWakeup(s, t, choice);
      if HoldsCold(s.tasks[t].pc) {
        ColdKeysKnown(s, t, choice);
      } else {
        OtherKeysKnown(s, t, choice);
      }
    }
    ColdOwnedKept(s, s', t);
    LocksOwnedKept(s, s', t);
    LoadingOwnedKept(s, s', t);
    ClearingKept(s, s', t);
    KeysKnownKept(s, s', t);
    AtMostOneLoadedKept(s, t, choice);
    GeneratesLoadedKept(s, s', t);
  }

  /** A new task, at a program counter that holds nothing, over slots that only grew by empty ones. */
  ghost predicate IsSpawn(s: State, s': State, t: Tid) {
    && t !in s.tasks && t in s'.tasks && s'.tasks == s.tasks[t := s'.tasks[t]]
    && (s'.tasks[t].pc.Check? || s'.tasks[t].pc.Evict?) && KnowsKeys(s', s'.tasks[t])
    && s'.cold == s.cold && s'.lock == s.lock
    && (forall k | k in s.slots :: k in s'.slots && s'.slots[k] == s.slots[k])
    && (forall k | k in s'.slots && k !in s.slots :: s'.slots[k].Empty?)
  }

  lemma SpawnKeepsOwners(s: State, s': State, t: Tid)
    requires Inv(s) && IsSpawn(s, s', t)
    ensures ColdOwned(s') && LocksOwned(s') && KeysKnown(s')
  {}

  lemma SpawnKeepsSlots(s: State, s': State, t: Tid)
    requires Inv(s) && IsSpawn(s, s', t)
    ensures LoadingOwned(s') && LoaderIsClearing(s') && AtMostOneLoaded(s') && GeneratesLoaded(s') && NoLostWakeup(s')
  {}

  lemma MoveKeepsInv(s: State, t: Tid, move: Move)
    requires Inv(s) && Enabled(s, t, move)
    ensures Inv(After(s, t, move))
  {
    if move.Run? {
      RunKeepsInv(s, t, move.choice);
    } else {
      SpawnKeepsOwners(s, After(s, t, move), t);
      SpawnKeepsSlots(s, After(s, t, move), t);
    }
  }

  // ---------------------------------------------------------------- runs

  /** A run: any number of moves of any tasks, in any order. */
  ghost predicate IsRun(trace: seq<State>) {
    && trace != [] && trace[0] == INIT
    && forall i | 0 < i < |trace| :: IsMove(trace[i - 1], trace[i])
  }

  ghost predicate IsMove(s: State, s': State) {
    exists t: Tid, move :: Enabled(s, t, move) && s' == After(s, t, move)
  }

  ghost predicate Reachable(s: State) { exists trace :: IsRun(trace) && trace[|trace| - 1] == s }

  lemma {:induction false} RunKeepsInvAlways(trace: seq<State>, i: nat)
    requires IsRun(trace) && i < |trace|
    ensures Inv(trace[i])
  {
    if i > 0 {
      RunKeepsInvAlways(trace, i - 1);
      assert IsMove(trace[i - 1], trace[i]);
      var t: Tid, move :| Enabled(trace[i - 1], t, move) && trace[i] == After(trace[i - 1], t, move);
      MoveKeepsInv(trace[i - 1], t, move);
    }
  }

  lemma ReachableInv(s: State)
    requires Reachable(s)
    ensures Inv(s)
  {
    var trace :| IsRun(trace) && trace[|trace| - 1] == s;
    RunKeepsInvAlways(trace, |trace| - 1);
  }

  lemma ReachableMove(s: State, t: Tid, move: Move)
    requires Reachable(s) && Enabled(s, t, move)
    ensures Reachable(After(s, t, move))
  {
    var trace :| IsRun(trace) && trace[|trace| - 1] == s;
    var longer := trace + [After(s, t, move)];
    assert IsMove(s, After(s, t, move));
    forall i | 0 < i < |longer| ensures IsMove(longer[i - 1], longer[i]) {
      if i < |trace| {
        assert IsMove(trace[i - 1], trace[i]);
      }
    }
    assert IsRun(longer);
  }

  // ---------------------------------------------------------------- safety

  /** At most one slot is loaded and at most one is loading, and loading means holding the cold lock. */
  lemma OneModelAtATime(s: State)
    requires Reachable(s)
    ensures forall j, k | j in s.slots && k in s.slots && s.slots[j].Loaded? && s.slots[k].Loaded? :: j == k
    ensures forall j, k | j in s.slots && k in s.slots && s.slots[j].Loading? && s.slots[k].Loading? :: j == k
    ensures forall k | k in s.slots && s.slots[k].Loading? ::
              && s.cold.Some? && s.cold.value in s.tasks
              && s.tasks[s.cold.value].key == k && IsLoading(s.tasks[s.cold.value].pc)
  {
    ReachableInv(s);
  }

  /** While the backend loads a model, every other slot is empty. */
  lemma LoadsAlone(s: State, t: Tid)
    requires Reachable(s) && t in s.tasks && s.tasks[t].pc.LoadModel?
    ensures s.cold == Some(t) && s.tasks[t].key in s.slots && s.slots[s.tasks[t].key].Loading?
    ensures forall k | k in s.slots && k != s.tasks[t].key :: s.slots[k].Empty?
  {
    ReachableInv(s);
    assert Clearing(s, s.tasks[t]);
  }

  /** The branch for `Loading` under the cold-load lock is never taken. */
  lemma InnerLoadingBranchIsUnreachable(s: State, t: Tid)
    requires Reachable(s) && t in s.tasks && s.tasks[t].pc.Recheck?
    ensures s.tasks[t].key in s.slots && !s.slots[s.tasks[t].key].Loading?
  {
    ReachableInv(s);
    assert HoldsCold(s.tasks[t].pc) && KnowsKeys(s, s.tasks[t]);
  }

  /** Whatever any task does, the slot of a task that is generating stays loaded until it stops. */
  lemma NotEmptiedWhileGenerating(s: State, t: Tid, u: Tid, move: Move)
    requires Reachable(s) && t in s.tasks && s.tasks[t].pc.Generating? && Enabled(s, u, move)
    ensures s.tasks[t].key in s.slots && s.slots[s.tasks[t].key].Loaded?
    ensures var s' := After(s, u, move);
            s.tasks[t].key in s'.slots && s'.slots[s.tasks[t].key].Loaded?
  {
    ReachableInv(s);
    assert KnowsKeys(s, s.tasks[t]) && HoldsSlot(s.tasks[t].pc);
    if move.Run? {
      assert KnowsKeys(s, s.tasks[u]);
      RunSlots(s, u, move.choice);
      assert u != t ==> !IsLoading(s.tasks[u].pc) || s.tasks[u].key != s.tasks[t].key;
    }
  }

  // ---------------------------------------------------------------- waiting

  /** `t` cannot go on before `u` releases a lock or notifies. */
  ghost predicate WaitsFor(s: State, t: Tid, u: Tid) {
    && t in s.tasks && u in s.tasks
    && (var wanted := WantedSlot(s.tasks[t]);
        || (wanted.Some? && wanted.value in s.lock && s.lock[wanted.value] == u)
        || (s.tasks[t].pc.WantCold? && s.cold == Some(u))
        || (s.tasks[t].pc == Wait(false) && s.cold == Some(u)
            && s.tasks[u].key == s.tasks[t].key && IsLoading(s.tasks[u].pc)))
  }

  /** How long a chain of waiting can start at a task: a holder of the cold lock waits for at most a
      slot lock, and a holder of a slot lock for nothing. */
  function Rank(task: Task): nat {
    if WantedSlot(task).Some? then 1 else if task.pc.WantCold? || task.pc.Wait? then 2 else 0
  }

  /** The wait-for graph has no cycle: waiting goes down in rank. */
  lemma WaitForIsAcyclic(s: State, t: Tid, u: Tid)
    requires Reachable(s) && WaitsFor(s, t, u)
    ensures Rank(s.tasks[u]) < Rank(s.tasks[t])
  {
    ReachableInv(s);
  }

  /** No task that waits for the cold-load lock holds the lock of a slot. */
  lemma NoSlotLockWhileWaitingForCold(s: State, t: Tid)
    requires Reachable(s) && t in s.tasks && s.tasks[t].pc.WantCold?
    ensures forall k | k in s.lock :: s.lock[k] != t
  {
    ReachableInv(s);
  }

  /** A task that waits without having been notified waits for a slot still loading, whose loader is
      alive and notifies every such task in the step in which the slot stops loading. */
  lemma NoWakeupIsLost(s: State, t: Tid)
    requires Reachable(s) && t in s.tasks && s.tasks[t].pc == Wait(false)
    ensures s.tasks[t].key in s.slots && s.slots[s.tasks[t].key].Loading?
    ensures s.cold.Some? && WaitsFor(s, t, s.cold.value)
  {
    ReachableInv(s);
    assert KnowsKeys(s, s.tasks[t]);
  }

  lemma LeavingLoadingNotifies(s: State, t: Tid, u: Tid, move: Move)
    requires Reachable(s) && t in s.tasks && s.tasks[t].pc == Wait(false) && Enabled(s, u, move)
    ensures var s' := After(s, u, move);
            t in s'.tasks && s.tasks[t].key in s'.slots
            && (s'.tasks[t].pc == Wait(true) || (s'.tasks[t].pc == Wait(false) && s'.slots[s.tasks[t].key].Loading?))
  {
    var s' := After(s, u, move);
    ReachableInv(s);
    assert KnowsKeys(s, s.tasks[t]);
    ReachableMove(s, u, move);
    MoveLeavesWaiting(s, t, u, move);
    if s'.tasks[t].pc == Wait(false) {
      NoWakeupIsLost(s', t);
    }
  }

  lemma MoveLeavesWaiting(s: State, t: Tid, u: Tid, move: Move)
    requires KeysKnown(s) && t in s.tasks && s.tasks[t].pc == Wait(false) && Enabled(s, u, move)
    ensures var s' := After(s, u, move);
            t in s'.tasks && (s'.tasks[t] == s.tasks[t] || s'.tasks[t] == s.tasks[t].(pc := Wait(true)))
    ensures forall k | k in s.slots :: k in After(s, u, move).slots
  {
    if move.Run? {
      assert KnowsKeys(s, s.tasks[u]);
      RunOthersStay(s, u, move.choice);
    }
  }

  lemma {:induction false} SetAsSeq(keys: set<Key>) returns (order: seq<Key>)
    ensures forall k :: k in order <==> k in keys
  {
    order := [];
    if keys != {} {
      var k :| k in keys;
      var rest := SetAsSeq(keys - {k});
      order := [k] + rest;
    }
  }

  /** A task with work left either can take a step or waits for another task. */
  lemma UnfinishedRunsOrWaits(s: State, t: Tid)
    requires Inv(s) && t in s.tasks && !s.tasks[t].pc.Finished?
    ensures (exists choice :: CanRun(s, t, choice)) || (exists u :: WaitsFor(s, t, u))
  {
    var task := s.tasks[t];
    assert KnowsKeys(s, task);
    if task.pc.Snapshot? {
      var order := SetAsSeq(s.slots.Keys - {task.key});
      assert CanRun(s, t, Order(order));
    } else if !CanRun(s, t, Plain) {
      var wanted := WantedSlot(task);
      if wanted.Some? {
        assert WaitsFor(s, t, s.lock[wanted.value]);
      } else {
        assert task.pc.WantCold? || task.pc == Wait(false);
        assert WaitsFor(s, t, s.cold.value);
      }
    }
  }

  ghost predicate SomeTaskCanRun(s: State) {
    exists u: Tid, choice :: u in s.tasks && CanRun(s, u, choice)
  }

  lemma {:induction false} WhoeverBlocksCanRun(s: State, t: Tid)
    requires Reachable(s) && t in s.tasks && !s.tasks[t].pc.Finished?
    ensures SomeTaskCanRun(s)
    decreases Rank(s.tasks[t])
  {
    ReachableInv(s);
    UnfinishedRunsOrWaits(s, t);
    if !(exists choice :: CanRun(s, t, choice)) {
      var v :| WaitsFor(s, t, v);
      WaitForIsAcyclic(s, t, v);
      WhoeverBlocksCanRun(s, v);
    }
  }

  /** No deadlock: as long as some task is unfinished, some task can take a step. */
  lemma NoDeadlock(s: State)
    requires Reachable(s) && exists t :: t in s.tasks && !s.tasks[t].pc.Finished?
    ensures SomeTaskCanRun(s)
  {
    var t :| t in s.tasks && !s.tasks[t].pc.Finished?;
    WhoeverBlocksCanRun(s, t);
  }
}
