/** Downloads of whole models: tasks that reserve an entry of the download manager and then write
    to it directly, until a last write marks it exited. */
module ModelDownloads {
  import opened Wrappers
  import opened DownloadManager

  /** A task resolves its model, initialises the entry, transfers the files, marks the end of the
      transfer or its failure, reports an error, and at last marks itself exited.  Two of the writes
      first look whether the entry is there (`seen`); `marked` says that the task has marked its entry
      exited before. */
  datatype Stage =
    | Resolving
    | Initialising(seen: bool)
    | Transferring
    | Closed(works: bool)
    | Reporting(seen: bool, marked: bool)
    | Ending(marked: bool)
    | Gone

  datatype Task = Task(id: string, stage: Stage)

  datatype Layer = Layer(downloads: Downloads, tasks: map<Tid, Task>)

  datatype Act =
    | Request(t: Tid, id: string)               // `download_model`: a reservation that is accepted
    | LookFirst(t: Tid)                         // `HfDownloadProgress::init`: is the entry there
    | Init(t: Tid)                              // and its write
    | Complete(t: Tid)                          // `complete`
    | FailTransfer(t: Tid, error: string)       // `fail`
    | LookLast(t: Tid)                          // `mark_download_failed`: is the entry there
    | MarkFailed(t: Tid, error: string)         // and its write
    | Return(t: Tid)                            // the model is resolved
    | Interrupt(t: Tid)                         // the cancellation is received
    | MarkExited(t: Tid)                        // `mark_download_task_exited`
    | CancelModel(id: string)
    | ClearModel(id: string)

  predicate Possible(s: Layer, a: Act) {
    match a
    case Request(t, id) => t !in s.tasks && !Blocked(s.downloads, id)
    case LookFirst(t) => t in s.tasks && s.tasks[t].stage.Resolving?
    case Init(t) => t in s.tasks && s.tasks[t].stage.Initialising?
    case Complete(t) => t in s.tasks && s.tasks[t].stage.Transferring?
    case FailTransfer(t, _) => t in s.tasks && s.tasks[t].stage.Transferring?
    case LookLast(t) =>
      t in s.tasks && (s.tasks[t].stage.Resolving? || s.tasks[t].stage.Transferring? || s.tasks[t].stage.Closed?)
    case MarkFailed(t, _) => t in s.tasks && s.tasks[t].stage.Reporting?
    case Return(t) => t in s.tasks && s.tasks[t].stage == Closed(true)
    case Interrupt(t) => t in s.tasks && (s.tasks[t].stage.Resolving? || s.tasks[t].stage.Transferring?)
    case MarkExited(t) => t in s.tasks && s.tasks[t].stage.Ending?
    case _ => true
  }

  function Initialised(p: Progress): Progress { if p.status.Cancelled? then p else STARTED }

  function Succeeded(p: Progress): Progress {
    p.(status := if p.status.Cancelled? then Cancelled else Completed, taskExited := true)
  }

  function FailedWith(p: Progress, error: string): Progress {
    if p.status.Cancelled? then p.(taskExited := true) else Progress(Failed, true, Some(error))
  }

  function InStage(s: Layer, t: Tid, stage: Stage): Layer
    requires t in s.tasks
  {
    s.(tasks := s.tasks[t := s.tasks[t].(stage := stage)])
  }

  /** The task goes to its next stage and its entry, if it is there, is updated. */
  function Advanced(s: Layer, t: Tid, stage: Stage, update: Progress -> Progress): Layer
    requires t in s.tasks
  {
    InStage(s, t, stage).(downloads := Updated(s.downloads, s.tasks[t].id, update))
  }

  /** The task goes to its next stage and its entry is written anew. */
  function Written(s: Layer, t: Tid, stage: Stage, p: Progress): Layer
    requires t in s.tasks
  {
    InStage(s, t, stage).(downloads := s.downloads[s.tasks[t].id := p])
  }

  function Next(s: Layer, a: Act): Layer
    requires Possible(s, a)
  {
    match a
    case Request(t, id) => Layer(Inserted(s.downloads, id, STARTED), s.tasks[t := Task(id, Resolving)])
    case LookFirst(t) => InStage(s, t, Initialising(s.tasks[t].id in s.downloads))
    case Init(t) =>
      if s.tasks[t].stage.seen then Advanced(s, t, Transferring, Initialised) else Written(s, t, Transferring, STARTED)
    case Complete(t) => Advanced(s, t, Closed(true), Succeeded)
    case FailTransfer(t, error) => Advanced(s, t, Closed(false), p => FailedWith(p, error))
    case LookLast(t) => InStage(s, t, Reporting(s.tasks[t].id in s.downloads, s.tasks[t].stage.Closed?))
    case MarkFailed(t, error) =>
      if s.tasks[t].stage.seen then Advanced(s, t, Ending(true), p => FailedWith(p, error))
      else Written(s, t, Ending(true), Progress(Failed, true, Some(error)))
    case Return(t) => InStage(s, t, Ending(true))
    case Interrupt(t) => InStage(s, t, Ending(false))
    case MarkExited(t) => Advanced(s, t, Gone, (p: Progress) => p.(taskExited := true))
    case CancelModel(id) => s.(downloads := WithCancelled(s.downloads, id))
    case ClearModel(id) => s.(downloads := Cleared(s.downloads, id))
  }

  // ---------------------------------------------------------------- one task for each model

  predicate Alive(s: Layer, t: Tid, id: string) { t in s.tasks && s.tasks[t].id == id && !s.tasks[t].stage.Gone? }

  /** Past `complete` or `fail`, before its last mark. */
  predicate InTheGap(s: Layer, t: Tid, id: string) {
    && Alive(s, t, id)
    && match s.tasks[t].stage
       case Closed(_) => true
       case Reporting(_, marked) => marked
       case Ending(marked) => marked
       case _ => false
  }

  ghost predicate AtMostOneTask(s: Layer, id: string) {
    forall t, u | Alive(s, t, id) && Alive(s, u, id) :: t == u
  }

  /** Before its first mark, a task's entry blocks its model and is not exited. */
  ghost predicate KeepsItsEntry(s: Layer, id: string) {
    forall t | Alive(s, t, id) && !InTheGap(s, t, id) ::
      id in s.downloads && !s.downloads[id].taskExited && Blocks(s.downloads[id])
  }

  /** A reservation of `id` is accepted while a task of that model is between `complete` or `fail` and
      its last mark. */
  ghost predicate ReservesInTheGap(s: Layer, a: Act, id: string) {
    a.Request? && a.id == id && exists t :: InTheGap(s, t, id)
  }

  lemma ActKeepsOneTask(s: Layer, a: Act, id: string)
    requires Possible(s, a) && AtMostOneTask(s, id) && KeepsItsEntry(s, id)
    ensures AtMostOneTask(Next(s, a), id) <==> !ReservesInTheGap(s, a, id)
    ensures !ReservesInTheGap(s, a, id) ==> KeepsItsEntry(Next(s, a), id)
  {
    var s' := Next(s, a);
    if a.Request? {
      RequestKeepsOneTask(s, a.t, a.id, id);
    } else if a.CancelModel? || a.ClearModel? {
      assert forall t :: Alive(s', t, id) <==> Alive(s, t, id);
      assert forall t :: InTheGap(s', t, id) <==> InTheGap(s, t, id);
    } else {
      StepKeepsOneTask(s, a, id);
    }
  }

  lemma StepKeepsOneTask(s: Layer, a: Act, id: string)
    requires Possible(s, a) && !a.Request? && !a.CancelModel? && !a.ClearModel?
    requires AtMostOneTask(s, id) && KeepsItsEntry(s, id)
    ensures AtMostOneTask(Next(s, a), id) && KeepsItsEntry(Next(s, a), id)
  {
    var s' := Next(s, a);
    assert forall t :: Alive(s', t, id) ==> Alive(s, t, id);
    forall t | Alive(s', t, id) && !InTheGap(s', t, id)
      ensures id in s'.downloads && !s'.downloads[id].taskExited && Blocks(s'.downloads[id])
    {
      assert Alive(s, t, id) && !InTheGap(s, t, id);
      assert a.t == t || s.tasks[a.t].id != id || !Alive(s, a.t, id);
    }
  }

  lemma RequestKeepsOneTask(s: Layer, t: Tid, requested: string, id: string)
    requires Possible(s, Request(t, requested)) && AtMostOneTask(s, id) && KeepsItsEntry(s, id)
    ensures var s' := Next(s, Request(t, requested));
            && (AtMostOneTask(s', id) <==> !ReservesInTheGap(s, Request(t, requested), id))
            && (!ReservesInTheGap(s, Request(t, requested), id) ==> KeepsItsEntry(s', id))
  {
    var s' := Next(s, Request(t, requested));
    assert forall u | u != t :: Alive(s', u, id) <==> Alive(s, u, id);
    assert forall u | u != t :: InTheGap(s', u, id) <==> InTheGap(s, u, id);
    if ReservesInTheGap(s, Request(t, requested), id) {
      var u :| InTheGap(s, u, id);
      assert Alive(s', u, id) && Alive(s', t, id);
    }
  }

  /** A run from any entries nobody works on, with the act of each step. */
  ghost predicate IsLayerRun(trace: seq<Layer>, acts: seq<Act>) {
    && |trace| == |acts| + 1 && trace[0].tasks == map[]
    && forall i | 0 <= i < |acts| :: IsAct(trace[i], acts[i], trace[i + 1])
  }

  ghost predicate IsAct(s: Layer, a: Act, s': Layer) { Possible(s, a) && s' == Next(s, a) }

  ghost predicate NoneInTheGap(trace: seq<Layer>, acts: seq<Act>, id: string, n: nat)
    requires n <= |acts| < |trace|
  {
    forall i | 0 <= i < n :: !ReservesInTheGap(trace[i], acts[i], id)
  }

  lemma {:induction false} WithoutGapReservations(trace: seq<Layer>, acts: seq<Act>, id: string, n: nat)
    requires IsLayerRun(trace, acts) && n <= |acts| && NoneInTheGap(trace, acts, id, n)
    ensures AtMostOneTask(trace[n], id) && KeepsItsEntry(trace[n], id)
  {
    if n > 0 {
      WithoutGapReservations(trace, acts, id, n - 1);
      assert IsAct(trace[n - 1], acts[n - 1], trace[n]);
      ActKeepsOneTask(trace[n - 1], acts[n - 1], id);
    }
  }

  /** In a run, a model has at most one task in every state if and only if no reservation of it falls
      between `complete` or `fail` and the last mark of a task. */
  lemma OneTaskExactlyWhenNoneInTheGap(trace: seq<Layer>, acts: seq<Act>, id: string)
    requires IsLayerRun(trace, acts)
    ensures (forall n: nat | n < |trace| :: AtMostOneTask(trace[n], id)) <==> NoneInTheGap(trace, acts, id, |acts|)
  {
    if NoneInTheGap(trace, acts, id, |acts|) {
      forall n: nat | n < |trace| ensures AtMostOneTask(trace[n], id) {
        WithoutGapReservations(trace, acts, id, n);
      }
    } else {
      var i := FirstInTheGap(trace, acts, id, |acts|);
      WithoutGapReservations(trace, acts, id, i);
      assert IsAct(trace[i], acts[i], trace[i + 1]);
      ActKeepsOneTask(trace[i], acts[i], id);
    }
  }

  lemma {:induction false} FirstInTheGap(trace: seq<Layer>, acts: seq<Act>, id: string, n: nat) returns (i: nat)
    requires n <= |acts| < |trace| && !NoneInTheGap(trace, acts, id, n)
    ensures i < n && ReservesInTheGap(trace[i], acts[i], id) && NoneInTheGap(trace, acts, id, i)
  {
    if NoneInTheGap(trace, acts, id, n - 1) {
      i := n - 1;
    } else {
      i := FirstInTheGap(trace, acts, id, n - 1);
    }
  }

  // ---------------------------------------------------------------- two downloads of one model

  const COMPLETED := Progress(Completed, true, None)
  const LATE := Progress(Downloading, true, None)
  const CANCELLED := Progress(Cancelled, true, None)

  /** Task 0 completes; task 1 reserves the model; the last mark of task 0 then says that task 1 has
      exited, so that cancelling it lets task 2 in. */
  function LateMarkAct(id: string, i: nat): Act {
    match i
    case 0 => Request(0, id)
    case 1 => LookFirst(0)
    case 2 => Init(0)
    case 3 => Complete(0)
    case 4 => Request(1, id)
    case 5 => Return(0)
    case 6 => MarkExited(0)
    case 7 => CancelModel(id)
    case _ => Request(2, id)
  }

  function LateMarkState(id: string, i: nat): Layer {
    match i
    case 0 => Layer(map[], map[])
    case 1 => Layer(map[id := STARTED], map[0 := Task(id, Resolving)])
    case 2 => Layer(map[id := STARTED], map[0 := Task(id, Initialising(true))])
    case 3 => Layer(map[id := STARTED], map[0 := Task(id, Transferring)])
    case 4 => Layer(map[id := COMPLETED], map[0 := Task(id, Closed(true))])
    case 5 => Layer(map[id := STARTED], map[0 := Task(id, Closed(true)), 1 := Task(id, Resolving)])
    case 6 => Layer(map[id := STARTED], map[0 := Task(id, Ending(true)), 1 := Task(id, Resolving)])
    case 7 => Layer(map[id := LATE], map[0 := Task(id, Gone), 1 := Task(id, Resolving)])
    case 8 => Layer(map[id := CANCELLED], map[0 := Task(id, Gone), 1 := Task(id, Resolving)])
    case _ => Layer(map[id := STARTED], map[0 := Task(id, Gone), 1 := Task(id, Resolving), 2 := Task(id, Resolving)])
  }

  ghost predicate LateMarkStepHolds(id: string, i: nat) {
    IsAct(LateMarkState(id, i), LateMarkAct(id, i), LateMarkState(id, i + 1))
  }

  lemma LateMarkStep(id: string, i: nat)
    requires i < 9
    ensures LateMarkStepHolds(id, i)
  {
    var s, a := LateMarkState(id, i), LateMarkAct(id, i);
    assert Next(s, a).tasks == LateMarkState(id, i + 1).tasks;
    assert Next(s, a).downloads == LateMarkState(id, i + 1).downloads;
  }

  /** Two tasks transfer the same model. */
  lemma TwoDownloadsOfOneModel(id: string) returns (trace: seq<Layer>, acts: seq<Act>)
    ensures IsLayerRun(trace, acts) && |acts| == 9 && trace[0] == Layer(map[], map[])
    ensures ReservesInTheGap(trace[4], acts[4], id)
    ensures Alive(trace[9], 1, id) && Alive(trace[9], 2, id) && !InTheGap(trace[9], 1, id) && !InTheGap(trace[9], 2, id)
  {
    trace := seq(10, i requires 0 <= i < 10 => LateMarkState(id, i));
    acts := seq(9, i requires 0 <= i < 9 => LateMarkAct(id, i));
    forall i | 0 <= i < 9 ensures IsAct(trace[i], acts[i], trace[i + 1]) {
      LateMarkStep(id, i);
      assert LateMarkStepHolds(id, i);
    }
    assert InTheGap(trace[4], 0, id);
  }
}
