/** When a loaded model is lost before the request that loaded it can generate. */
module ModelLoss {
  import opened Wrappers
  import opened ModelSlots

  /** A run with the task and the move of each step. */
  ghost predicate IsRunOf(trace: seq<State>, moves: seq<(Tid, Move)>) {
    && |trace| == |moves| + 1 && trace[0] == INIT
    && forall i | 0 <= i < |moves| :: IsStep(trace[i], moves[i], trace[i + 1])
  }

  ghost predicate IsStep(s: State, move: (Tid, Move), s': State) {
    Enabled(s, move.0, move.1) && s' == After(s, move.0, move.1)
  }

  lemma {:induction false} RunStatesKeepInv(trace: seq<State>, moves: seq<(Tid, Move)>, i: nat)
    requires IsRunOf(trace, moves) && i < |trace|
    ensures Inv(trace[i])
  {
    if i > 0 {
      RunStatesKeepInv(trace, moves, i - 1);
      assert IsStep(trace[i - 1], moves[i - 1], trace[i]);
      MoveKeepsInv(trace[i - 1], moves[i - 1].0, moves[i - 1].1);
    }
  }

  lemma RunOfIsRun(trace: seq<State>, moves: seq<(Tid, Move)>)
    requires IsRunOf(trace, moves)
    ensures IsRun(trace)
  {
    forall i | 0 < i < |trace| ensures IsMove(trace[i - 1], trace[i]) {
      assert IsStep(trace[i - 1], moves[i - 1], trace[i]);
    }
  }

  // ---------------------------------------------------------------- one step

  /** The step of a task that unloads others before its own load, or evicts, as it comes to slot `k`. */
  predicate Empties(s: State, move: (Tid, Move), k: Key) {
    && move.1.Run? && move.0 in s.tasks && (s.tasks[move.0].pc.Unload? || s.tasks[move.0].pc.Evict?)
    && WantedSlot(s.tasks[move.0]) == Some(k)
  }

  /** The step that puts a loaded model into slot `k`. */
  predicate Stores(s: State, move: (Tid, Move), k: Key) {
    move.1.Run? && move.0 in s.tasks && s.tasks[move.0] == Task(k, StoreRelock)
  }

  predicate HasModel(s: State, k: Key) { k in s.slots && s.slots[k].Loaded? }

  /** A loaded slot loses its model exactly in a step that unloads or evicts it, and a slot gets one
      exactly in the step that stores it. */
  lemma ModelComesAndGoes(s: State, move: (Tid, Move), k: Key)
    requires Inv(s) && Enabled(s, move.0, move.1)
    ensures HasModel(s, k) ==> (HasModel(After(s, move.0, move.1), k) <==> !Empties(s, move, k))
    ensures !HasModel(s, k) ==> (HasModel(After(s, move.0, move.1), k) <==> Stores(s, move, k))
  {
    var t := move.0;
    if move.1.Run? {
      assert KnowsKeys(s, s.tasks[t]);
      if IsLoading(s.tasks[t].pc) {
        LoaderComesAndGoes(s, t, move.1.choice, k);
      } else {
        OtherComesAndGoes(s, t, move.1.choice, k);
      }
    }
  }

  lemma LoaderComesAndGoes(s: State, t: Tid, choice: Choice, k: Key)
    requires LoadingOwned(s)
    requires t in s.tasks && CanRun(s, t, choice) && KnowsKeys(s, s.tasks[t]) && IsLoading(s.tasks[t].pc)
    ensures HasModel(s, k) ==> (HasModel(AfterRun(s, t, choice), k) <==> !Empties(s, (t, Run(choice)), k))
    ensures !HasModel(s, k) ==> (HasModel(AfterRun(s, t, choice), k) <==> Stores(s, (t, Run(choice)), k))
  {}

  lemma OtherComesAndGoes(s: State, t: Tid, choice: Choice, k: Key)
    requires t in s.tasks && CanRun(s, t, choice) && KnowsKeys(s, s.tasks[t]) && !IsLoading(s.tasks[t].pc)
    ensures HasModel(s, k) ==> (HasModel(AfterRun(s, t, choice), k) <==> !Empties(s, (t, Run(choice)), k))
    ensures !HasModel(s, k) ==> !HasModel(AfterRun(s, t, choice), k) && !Stores(s, (t, Run(choice)), k)
  {}

  /** Before a request takes its slot to generate, a step takes its model away if and only if it
      unloads or evicts that slot. */
  lemma LosesItsModelExactlyWhen(s: State, t: Tid, move: (Tid, Move))
    requires Reachable(s) && t in s.tasks && s.tasks[t].pc.WantGen? && HasModel(s, s.tasks[t].key)
    requires Enabled(s, move.0, move.1)
    ensures !HasModel(After(s, move.0, move.1), s.tasks[t].key) <==> Empties(s, move, s.tasks[t].key)
  {
    ReachableInv(s);
    ModelComesAndGoes(s, move, s.tasks[t].key);
  }

  // ---------------------------------------------------------------- runs

  /** Between steps `i` and `j`, whatever empties the slot is followed by a step that fills it again. */
  ghost predicate KeptOrReloaded(trace: seq<State>, moves: seq<(Tid, Move)>, k: Key, i: nat, j: nat)
    requires IsRunOf(trace, moves) && i <= j < |trace|
  {
    forall e | i <= e < j && Empties(trace[e], moves[e], k) :: ReloadedBetween(trace, moves, k, e, j)
  }

  ghost predicate ReloadedBetween(trace: seq<State>, moves: seq<(Tid, Move)>, k: Key, e: nat, j: nat)
    requires IsRunOf(trace, moves) && j < |trace|
  {
    exists f | e < f < j :: Stores(trace[f], moves[f], k)
  }

  lemma {:induction false} LoadedLaterExactlyWhen(trace: seq<State>, moves: seq<(Tid, Move)>, k: Key, i: nat, j: nat)
    requires IsRunOf(trace, moves) && i <= j < |trace| && HasModel(trace[i], k)
    ensures HasModel(trace[j], k) <==> KeptOrReloaded(trace, moves, k, i, j)
    decreases j
  {
    if i < j {
      var l := j - 1;
      LoadedLaterExactlyWhen(trace, moves, k, i, l);
      RunStatesKeepInv(trace, moves, l);
      assert IsStep(trace[l], moves[l], trace[j]);
      ModelComesAndGoes(trace[l], moves[l], k);
      OneStepLonger(trace, moves, k, i, l);
    }
  }

  lemma OneStepLonger(trace: seq<State>, moves: seq<(Tid, Move)>, k: Key, i: nat, l: nat)
    requires IsRunOf(trace, moves) && i <= l && l + 1 < |trace|
    ensures KeptOrReloaded(trace, moves, k, i, l + 1)
       <==> !Empties(trace[l], moves[l], k) && (Stores(trace[l], moves[l], k) || KeptOrReloaded(trace, moves, k, i, l))
  {
    if Empties(trace[l], moves[l], k) {
      assert !ReloadedBetween(trace, moves, k, l, l + 1);
    }
    forall e | i <= e < l && Empties(trace[e], moves[e], k)
      ensures ReloadedBetween(trace, moves, k, e, l + 1)
         <==> Stores(trace[l], moves[l], k) || ReloadedBetween(trace, moves, k, e, l)
    {}
  }

  /** A request that loaded its model generates if and only if every unloading or eviction of its slot,
      between storing the model and locking the slot to generate, is followed by another storing. */
  lemma GeneratesExactlyWhen(trace: seq<State>, moves: seq<(Tid, Move)>, t: Tid, k: Key, i: nat, j: nat)
    requires IsRunOf(trace, moves) && i < j < |moves| && moves[i].0 == t && Stores(trace[i], moves[i], k)
    requires moves[j].0 == t && moves[j].1.Run? && t in trace[j].tasks && trace[j].tasks[t] == Task(k, WantGen)
    ensures t in trace[j + 1].tasks
    ensures trace[j + 1].tasks[t].pc.Generating? <==> KeptOrReloaded(trace, moves, k, i + 1, j)
    ensures !trace[j + 1].tasks[t].pc.Generating? ==> trace[j + 1].tasks[t].pc.Finished?
  {
    RunStatesKeepInv(trace, moves, i);
    RunStatesKeepInv(trace, moves, j);
    assert IsStep(trace[i], moves[i], trace[i + 1]) && IsStep(trace[j], moves[j], trace[j + 1]);
    StoringFills(trace[i], t, moves[i].1.choice, k);
    LoadedLaterExactlyWhen(trace, moves, k, i + 1, j);
  }

  lemma StoringFills(s: State, t: Tid, choice: Choice, k: Key)
    requires Inv(s) && t in s.tasks && s.tasks[t] == Task(k, StoreRelock) && CanRun(s, t, choice)
    ensures HasModel(AfterRun(s, t, choice), k)
  {}

  // ---------------------------------------------------------------- two runs that lose the model

  lemma Longer(trace: seq<State>, moves: seq<(Tid, Move)>, t: Tid, move: Move)
    requires IsRunOf(trace, moves) && Enabled(trace[|moves|], t, move)
    ensures IsRunOf(trace + [After(trace[|moves|], t, move)], moves + [(t, move)])
  {
    var trace', moves' := trace + [After(trace[|moves|], t, move)], moves + [(t, move)];
    forall i | 0 <= i < |moves'| ensures IsStep(trace'[i], moves'[i], trace'[i + 1]) {
      if i < |moves| {
        assert IsStep(trace[i], moves[i], trace[i + 1]);
      }
    }
  }

  /** Task 0 alone on its way to generating from slot `k`, with or without the two locks. */
  function Alone(k: Key, slot: SlotState, locked: bool, cold: bool, pc: Pc): State {
    State(map[k := slot], if locked then map[k := 0] else map[], if cold then Some(0) else None, map[0 := Task(k, pc)])
  }

  function LoadingState(k: Key, i: nat): State {
    match i
    case 0 => INIT
    case 1 => Alone(k, Empty, false, false, Check)
    case 2 => Alone(k, Empty, false, false, WantCold)
    case 3 => Alone(k, Empty, false, true, Recheck)
    case 4 => Alone(k, Loading, false, true, Announce)
    case 5 => Alone(k, Loading, false, true, Snapshot)
    case 6 => Alone(k, Loading, false, true, Unload([]))
    case 7 => Alone(k, Loading, false, true, LoadModel)
    case 8 => Alone(k, Loading, false, true, StoreRelock)
    case 9 => Alone(k, Loaded, true, true, Stored)
    case 10 => Alone(k, Loaded, true, false, Breaking)
    case _ => Alone(k, Loaded, false, false, WantGen)
  }

  function LoadingMove(k: Key, i: nat): (Tid, Move) {
    (0, if i == 0 then Spawn(k) else if i == 5 then Run(Order([])) else Run(Plain))
  }

  ghost predicate LoadingStepHolds(k: Key, i: nat) {
    IsStep(LoadingState(k, i), LoadingMove(k, i), LoadingState(k, i + 1))
  }

  lemma FirstLoadingSteps(k: Key, i: nat)
    requires i < 6
    ensures LoadingStepHolds(k, i)
  {
    var s, move := LoadingState(k, i), LoadingMove(k, i).1;
    assert s.slots.Keys - {k} == {};
    assert After(s, 0, move).tasks == LoadingState(k, i + 1).tasks;
    assert After(s, 0, move).slots == LoadingState(k, i + 1).slots;
  }

  lemma LastLoadingSteps(k: Key, i: nat)
    requires 6 <= i < 11
    ensures LoadingStepHolds(k, i)
  {
    var s, move := LoadingState(k, i), LoadingMove(k, i).1;
    assert After(s, 0, move).tasks == LoadingState(k, i + 1).tasks;
    assert After(s, 0, move).slots == LoadingState(k, i + 1).slots;
    assert After(s, 0, move).lock == LoadingState(k, i + 1).lock;
  }

  /** A request that loads its model, alone, up to where it wants to generate. */
  lemma LoadingRun(k: Key) returns (trace: seq<State>, moves: seq<(Tid, Move)>)
    ensures IsRunOf(trace, moves) && |moves| == 11 && trace[11] == Alone(k, Loaded, false, false, WantGen)
    ensures moves[8].0 == 0 && Stores(trace[8], moves[8], k)
  {
    trace := seq(12, i requires 0 <= i < 12 => LoadingState(k, i));
    moves := seq(11, i requires 0 <= i < 11 => LoadingMove(k, i));
    forall i | 0 <= i < 11 ensures IsStep(trace[i], moves[i], trace[i + 1]) {
      if i < 6 { FirstLoadingSteps(k, i); } else { LastLoadingSteps(k, i); }
      assert LoadingStepHolds(k, i);
    }
  }

  /** The run goes on with the steps of task 1, and then task 0 finds its slot empty. */
  ghost predicate LosesTheModel(trace: seq<State>, moves: seq<(Tid, Move)>, k: Key) {
    && IsRunOf(trace, moves) && |moves| > 12
    && moves[8].0 == 0 && Stores(trace[8], moves[8], k)
    && (var j := |moves| - 1;
        && Empties(trace[j - 1], moves[j - 1], k) && moves[j] == (0, Run(Plain))
        && 0 in trace[j].tasks && trace[j].tasks[0] == Task(k, WantGen)
        && 0 in trace[j + 1].tasks && trace[j + 1].tasks[0].pc.Finished?)
  }

  /** Task 0 at `WantGen`, task 1 somewhere. */
  function Both(slots: map<Key, SlotState>, k: Key, cold: bool, other: Task): State {
    State(slots, map[], if cold then Some(1) else None, map[0 := Task(k, WantGen), 1 := other])
  }

  lemma Go(trace: seq<State>, moves: seq<(Tid, Move)>, k: Key, t: Tid, move: Move, s': State)
    returns (trace': seq<State>, moves': seq<(Tid, Move)>)
    requires IsRunOf(trace, moves) && |moves| >= 11 && moves[8].0 == 0 && Stores(trace[8], moves[8], k)
    requires IsStep(trace[|moves|], (t, move), s')
    ensures IsRunOf(trace', moves') && |moves'| == |moves| + 1 && moves'[8].0 == 0 && Stores(trace'[8], moves'[8], k)
    ensures trace'[|moves|] == trace[|moves|] && moves'[|moves|] == (t, move) && trace'[|moves'|] == s'
    ensures forall i | 0 <= i < |moves| :: moves'[i] == moves[i] && trace'[i] == trace[i]
  {
    Longer(trace, moves, t, move);
    trace', moves' := trace + [s'], moves + [(t, move)];
  }

  lemma EvictionSteps(k: Key)
    ensures IsStep(Alone(k, Loaded, false, false, WantGen), (1, SpawnEviction([k])),
                   Both(map[k := Loaded], k, false, Task("", Evict([k]))))
    ensures IsStep(Both(map[k := Loaded], k, false, Task("", Evict([k]))), (1, Run(Plain)),
                   Both(map[k := Empty], k, false, Task("", Evict([]))))
  {
    var s1 := Both(map[k := Loaded], k, false, Task("", Evict([k])));
    assert After(Alone(k, Loaded, false, false, WantGen), 1, SpawnEviction([k])) == s1;
    assert [k][1..] == [];
    assert After(s1, 1, Run(Plain)).tasks == Both(map[k := Empty], k, false, Task("", Evict([]))).tasks;
  }

  lemma NothingToGenerateFrom(slots: map<Key, SlotState>, k: Key, cold: bool, other: Task)
    requires k in slots && slots[k].Empty?
    ensures var s := Both(slots, k, cold, other);
            IsStep(s, (0, Run(Plain)), After(s, 0, Run(Plain))) && After(s, 0, Run(Plain)).tasks[0].pc.Finished?
  {}

  /** An eviction takes the model away. */
  lemma EvictionTakesTheModel(k: Key) returns (trace: seq<State>, moves: seq<(Tid, Move)>)
    ensures LosesTheModel(trace, moves, k) && |moves| == 14 && moves[11] == (1, SpawnEviction([k]))
  {
    trace, moves := LoadingRun(k);
    EvictionSteps(k);
    trace, moves := Go(trace, moves, k, 1, SpawnEviction([k]), Both(map[k := Loaded], k, false, Task("", Evict([k]))));
    trace, moves := Go(trace, moves, k, 1, Run(Plain), Both(map[k := Empty], k, false, Task("", Evict([]))));
    NothingToGenerateFrom(map[k := Empty], k, false, Task("", Evict([])));
    trace, moves := Go(trace, moves, k, 0, Run(Plain), After(trace[13], 0, Run(Plain)));
  }

  /** The states of task 1, which loads another model, after task 0 has loaded its own. */
  function OtherState(k: Key, other: Key, i: nat): State {
    match i
    case 0 => Alone(k, Loaded, false, false, WantGen)
    case 1 => Both(map[k := Loaded, other := Empty], k, false, Task(other, Check))
    case 2 => Both(map[k := Loaded, other := Empty], k, false, Task(other, WantCold))
    case 3 => Both(map[k := Loaded, other := Empty], k, true, Task(other, Recheck))
    case 4 => Both(map[k := Loaded, other := Loading], k, true, Task(other, Announce))
    case 5 => Both(map[k := Loaded, other := Loading], k, true, Task(other, Snapshot))
    case 6 => Both(map[k := Loaded, other := Loading], k, true, Task(other, Unload([k])))
    case _ => Both(map[k := Empty, other := Loading], k, true, Task(other, Unload([])))
  }

  function OtherMove(k: Key, other: Key, i: nat): Move {
    if i == 0 then Spawn(other) else if i == 5 then Run(Order([k])) else Run(Plain)
  }

  lemma OtherSteps(k: Key, other: Key, i: nat)
    requires k != other && i < 7
    ensures IsStep(OtherState(k, other, i), (1, OtherMove(k, other, i)), OtherState(k, other, i + 1))
  {
    var s, move := OtherState(k, other, i), OtherMove(k, other, i);
    assert i > 0 ==> s.slots.Keys - {other} == {k};
    assert [k][1..] == [];
    assert Enabled(s, 1, move);
    assert After(s, 1, move).tasks == OtherState(k, other, i + 1).tasks;
    assert After(s, 1, move).slots == OtherState(k, other, i + 1).slots;
  }

  /** So does another request that comes to load its own model. */
  lemma AnotherLoadTakesTheModel(k: Key, other: Key) returns (trace: seq<State>, moves: seq<(Tid, Move)>)
    requires k != other
    ensures LosesTheModel(trace, moves, k) && |moves| == 19 && moves[11] == (1, Spawn(other))
  {
    trace, moves := LoadingRun(k);
    for i := 0 to 7
      invariant IsRunOf(trace, moves) && |moves| == 11 + i && trace[11 + i] == OtherState(k, other, i)
      invariant moves[8].0 == 0 && Stores(trace[8], moves[8], k)
      invariant i > 0 ==> moves[11] == (1, Spawn(other)) && trace[10 + i] == OtherState(k, other, i - 1)
      invariant i > 0 ==> moves[10 + i] == (1, OtherMove(k, other, i - 1))
    {
      OtherSteps(k, other, i);
      trace, moves := Go(trace, moves, k, 1, OtherMove(k, other, i), OtherState(k, other, i + 1));
    }
    NothingToGenerateFrom(map[k := Empty, other := Loading], k, true, Task(other, Unload([])));
    trace, moves := Go(trace, moves, k, 0, Run(Plain), After(trace[18], 0, Run(Plain)));
  }
}
