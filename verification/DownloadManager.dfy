/** The download manager: a map of progress entries under a lock, and the background tasks that
    report into it. */
module DownloadManager {
  import opened Wrappers

  datatype Status = Downloading | Completed | Failed | Cancelled

  datatype Progress = Progress(status: Status, taskExited: bool, error: Option<string>)

  type Downloads = map<string, Progress>

  const STARTED := Progress(Downloading, false, None)

  /** An entry that keeps its model from being started or reserved again. */
  predicate Blocks(p: Progress) { p.status.Downloading? || (p.status.Cancelled? && !p.taskExited) }

  predicate Blocked(d: Downloads, id: string) { id in d && Blocks(d[id]) }

  /** The two maps differ in the entry of `id` at most. */
  ghost predicate OthersStay(d: Downloads, d': Downloads, id: string) {
    forall other | other != id :: (other in d' <==> other in d) && (other in d ==> d'[other] == d[other])
  }

  function Entry(d: Downloads, id: string): Option<Progress> { if id in d then Some(d[id]) else None }

  /** The entry of `id` is this one afterwards, and nothing else has changed. */
  ghost predicate BecomesEntry(d: Downloads, d': Downloads, id: string, entry: Option<Progress>) {
    OthersStay(d, d', id) && Entry(d', id) == entry
  }

  /** Downloading, or cancelled with the task still there. */
  predicate IsInTheWay(entry: Option<Progress>) {
    entry.Some? && (entry.value.status == Downloading || (entry.value.status == Cancelled && !entry.value.taskExited))
  }

  function Ended(entry: Option<Progress>, status: Status, error: Option<string>): Option<Progress> {
    if entry.None? then None else Some(Progress(status, true, error))
  }

  // What each section under the lock does to the map.

  function Inserted(d: Downloads, id: string, p: Progress): (d': Downloads)
    ensures OthersStay(d, d', id) && (Blocked(d', id) <==> Blocked(d, id) || Blocks(p))
  {
    if Blocked(d, id) then d else d[id := p]
  }

  /** A cancelled entry blocks its model until its download has exited. */
  function WithCancelled(d: Downloads, id: string): (d': Downloads)
    ensures OthersStay(d, d', id) && (Blocked(d', id) <==> id in d && !d[id].taskExited)
  {
    if id in d then d[id := d[id].(status := Cancelled)] else d
  }

  function WithSuccess(d: Downloads, id: string): (d': Downloads)
    ensures OthersStay(d, d', id) && !Blocked(d', id)
    ensures id in d ==> id in d' && d'[id].status.Completed? && d'[id].taskExited
  {
    if id in d then d[id := d[id].(status := Completed, taskExited := true)] else d
  }

  function WithFailure(d: Downloads, id: string, error: string): (d': Downloads)
    ensures OthersStay(d, d', id) && !Blocked(d', id)
    ensures id in d' ==> id in d && d'[id].error == Some(error)
    ensures id in d' ==> (d'[id].status.Cancelled? <==> d[id].status.Cancelled?)
  {
    if id in d then
      d[id := Progress(if d[id].status.Cancelled? then Cancelled else Failed, true, Some(error))]
    else d
  }

  /** What is cleared blocked nothing. */
  function Cleared(d: Downloads, id: string): (d': Downloads)
    ensures OthersStay(d, d', id) && (Blocked(d', id) <==> Blocked(d, id))
  {
    if id in d && !d[id].status.Downloading? && d[id].taskExited then d - {id} else d
  }

  function Updated(d: Downloads, id: string, update: Progress -> Progress): (d': Downloads)
    ensures OthersStay(d, d', id) && (Blocked(d', id) <==> id in d && Blocks(update(d[id])))
  {
    if id in d then d[id := update(d[id])] else d
  }

  class Manager {
    var downloads: Downloads

    constructor ()
      ensures downloads == map[]
    {
      downloads := map[];
    }

    /** A write past the rules of the other methods. */
    method SetProgress(id: string, progress: Progress)
      modifies this
      ensures downloads == old(downloads)[id := progress]
    {
      downloads := downloads[id := progress];
    }

    method UpdateProgress(id: string, update: Progress -> Progress)
      modifies this
      ensures downloads == Updated(old(downloads), id, update)
      ensures var entry := Entry(old(downloads), id);
              BecomesEntry(old(downloads), downloads, id, if entry.Some? then Some(update(entry.value)) else None)
    {
      if id in downloads {
        downloads := downloads[id := update(downloads[id])];
      }
    }

    method ReserveDownload(id: string, progress: Progress) returns (reserved: bool)
      modifies this
      ensures reserved == !Blocked(old(downloads), id)
      ensures downloads == Inserted(old(downloads), id, progress)
      ensures var entry := Entry(old(downloads), id);
              reserved == !IsInTheWay(entry)
              && BecomesEntry(old(downloads), downloads, id, if IsInTheWay(entry) then entry else Some(progress))
    {
      if id in downloads {
        var existing := downloads[id];
        if existing.status == Downloading || (existing.status == Cancelled && !existing.taskExited) {
          return false;
        }
      }
      downloads := downloads[id := progress];
      reserved := true;
    }

    /** The first locked section of a download. */
    method StartDownload(id: string) returns (started: bool)
      modifies this
      ensures started == !Blocked(old(downloads), id)
      ensures downloads == Inserted(old(downloads), id, STARTED)
      ensures var entry := Entry(old(downloads), id);
              started == !IsInTheWay(entry)
              && BecomesEntry(old(downloads), downloads, id,
                              if IsInTheWay(entry) then entry else Some(Progress(Downloading, false, None)))
    {
      if id in downloads {
        var existing := downloads[id];
        if existing.status == Downloading {
          return false;
        }
        if existing.status == Cancelled && !existing.taskExited {
          return false;
        }
      }
      downloads := downloads[id := STARTED];
      started := true;
    }

    method CancelDownload(id: string) returns (found: bool)
      modifies this
      ensures found == (id in old(downloads)) && downloads == WithCancelled(old(downloads), id)
      ensures var entry := Entry(old(downloads), id);
              BecomesEntry(old(downloads), downloads, id,
                           if found then Some(entry.value.(status := Cancelled)) else None)
    {
      if id !in downloads {
        return false;
      }
      downloads := downloads[id := downloads[id].(status := Cancelled)];
      found := true;
    }

    method ReportSuccess(id: string)
      modifies this
      ensures downloads == WithSuccess(old(downloads), id)
      ensures var entry := Entry(old(downloads), id);
              BecomesEntry(old(downloads), downloads, id,
                           Ended(entry, Completed, if entry.Some? then entry.value.error else None))
    {
      if id in downloads {
        downloads := downloads[id := downloads[id].(status := Completed)];
        downloads := downloads[id := downloads[id].(taskExited := true)];
      }
    }

    method ReportFailure(id: string, error: string)
      modifies this
      ensures downloads == WithFailure(old(downloads), id, error)
      ensures var entry := Entry(old(downloads), id);
              var status := if entry.Some? && entry.value.status == Cancelled then Cancelled else Failed;
              BecomesEntry(old(downloads), downloads, id, Ended(entry, status, Some(error)))
    {
      if id in downloads {
        var progress := downloads[id];
        if progress.status != Cancelled {
          progress := progress.(status := Failed);
        }
        downloads := downloads[id := progress.(error := Some(error), taskExited := true)];
      }
    }

    method ClearCompleted(id: string)
      modifies this
      ensures downloads == Cleared(old(downloads), id)
      ensures var entry := Entry(old(downloads), id);
              var goes := entry.Some? && entry.value.status != Downloading && entry.value.taskExited;
              BecomesEntry(old(downloads), downloads, id, if goes then None else entry)
    {
      if id in downloads {
        var progress := downloads[id];
        var isTerminal := progress.status == Completed || progress.status == Failed || progress.status == Cancelled;
        if isTerminal && progress.taskExited {
          downloads := downloads - {id};
        }
      }
    }
  }

  // ---------------------------------------------------------------- the manager and its tasks

  type Tid = nat

  /** A download from the insertion of its entry on: creating directories, transferring, and after an
      error removing the partial files one by one before reporting.  A removal that fails is ignored;
      `left` are the files it failed on. */
  datatype Phase = Preparing | Running | Cleaning(next: nat, left: set<nat>) | Exited | Dropped

  datatype Job = Job(id: string, files: nat, phase: Phase)

  datatype System = System(downloads: Downloads, jobs: map<Tid, Job>, partials: set<(string, nat)>)

  datatype Move =
    | Start(t: Tid, id: string, files: nat)
    | DirectoryFails(t: Tid)             // the call returns an error and no task is spawned
    | Spawn(t: Tid)
    | WritePartial(t: Tid, file: nat)
    | PromotePartial(t: Tid, file: nat)
    | Succeed(t: Tid)
    | Fail(t: Tid)
    | RemovePartial(t: Tid, works: bool)
    | Report(t: Tid, error: string)
    | Reserve(id: string, progress: Progress)
    | Cancel(id: string)
    | Clear(id: string)

  predicate InPhase(s: System, t: Tid, phase: Phase) { t in s.jobs && s.jobs[t].phase == phase }

  predicate Live(s: System, t: Tid) {
    t in s.jobs && !s.jobs[t].phase.Exited? && !s.jobs[t].phase.Dropped?
  }

  predicate Enabled(s: System, m: Move) {
    match m
    case Start(t, id, _) => t !in s.jobs && !Blocked(s.downloads, id)
    case DirectoryFails(t) => InPhase(s, t, Preparing)
    case Spawn(t) => InPhase(s, t, Preparing)
    case WritePartial(t, file) => InPhase(s, t, Running) && file < s.jobs[t].files
    case PromotePartial(t, file) => InPhase(s, t, Running) && file < s.jobs[t].files
    case Succeed(t) => InPhase(s, t, Running)
    case Fail(t) => InPhase(s, t, Running)
    case RemovePartial(t, _) => t in s.jobs && s.jobs[t].phase.Cleaning? && s.jobs[t].phase.next < s.jobs[t].files
    case Report(t, _) => t in s.jobs && s.jobs[t].phase.Cleaning? && s.jobs[t].phase.next == s.jobs[t].files
    case _ => true
  }

  function InNextPhase(s: System, t: Tid, phase: Phase): System
    requires t in s.jobs
  {
    s.(jobs := s.jobs[t := s.jobs[t].(phase := phase)])
  }

  function After(s: System, m: Move): System
    requires Enabled(s, m)
  {
    match m
    case Start(t, id, files) =>
      s.(downloads := Inserted(s.downloads, id, STARTED), jobs := s.jobs[t := Job(id, files, Preparing)])
    case DirectoryFails(t) => InNextPhase(s, t, Dropped)
    case Spawn(t) => InNextPhase(s, t, Running)
    case WritePartial(t, file) => s.(partials := s.partials + {(s.jobs[t].id, file)})
    case PromotePartial(t, file) => s.(partials := s.partials - {(s.jobs[t].id, file)})
    case Succeed(t) => InNextPhase(s, t, Exited).(downloads := WithSuccess(s.downloads, s.jobs[t].id))
    case Fail(t) => InNextPhase(s, t, Cleaning(0, {}))
    case RemovePartial(t, works) =>
      var next, left, file := s.jobs[t].phase.next, s.jobs[t].phase.left, (s.jobs[t].id, s.jobs[t].phase.next);
      if works || file !in s.partials then
        InNextPhase(s, t, Cleaning(next + 1, left)).(partials := s.partials - {file})
      else InNextPhase(s, t, Cleaning(next + 1, left + {next}))
    case Report(t, error) => InNextPhase(s, t, Exited).(downloads := WithFailure(s.downloads, s.jobs[t].id, error))
    case Reserve(id, progress) => s.(downloads := Inserted(s.downloads, id, progress))
    case Cancel(id) => s.(downloads := WithCancelled(s.downloads, id))
    case Clear(id) => s.(downloads := Cleared(s.downloads, id))
  }

  /** The entry of a live download: not exited, and downloading or cancelled. */
  ghost predicate EntriesOfLive(s: System) {
    forall t | Live(s, t) ::
      s.jobs[t].id in s.downloads && !s.downloads[s.jobs[t].id].taskExited && Blocks(s.downloads[s.jobs[t].id])
  }

  ghost predicate OnePerModel(s: System) {
    forall t, u | Live(s, t) && Live(s, u) && s.jobs[t].id == s.jobs[u].id :: t == u
  }

  /** Of the files a failed download has come to, exactly those it failed to remove are there. */
  ghost predicate CleanedUp(s: System) {
    forall t | t in s.jobs && s.jobs[t].phase.Cleaning? :: CleanedUpBy(s, s.jobs[t])
  }

  ghost predicate CleanedUpBy(s: System, job: Job)
    requires job.phase.Cleaning?
  {
    && job.phase.next <= job.files && (forall i | i in job.phase.left :: i < job.phase.next)
    && forall i: nat | i < job.phase.next :: (job.id, i) in s.partials <==> i in job.phase.left
  }

  ghost predicate Inv(s: System) { EntriesOfLive(s) && OnePerModel(s) && CleanedUp(s) }

  lemma MoveKeepsEntries(s: System, m: Move)
    requires EntriesOfLive(s) && OnePerModel(s) && Enabled(s, m)
    ensures EntriesOfLive(After(s, m)) && OnePerModel(After(s, m))
  {}

  lemma MoveKeepsInv(s: System, m: Move)
    requires Inv(s) && Enabled(s, m)
    ensures Inv(After(s, m))
  {
    MoveKeepsEntries(s, m);
    var s' := After(s, m);
    forall t | t in s'.jobs && s'.jobs[t].phase.Cleaning? ensures CleanedUpBy(s', s'.jobs[t]) {
      assert t in s.jobs && Live(s, t);
      assert s.jobs[t].phase.Cleaning? ==> CleanedUpBy(s, s.jobs[t]);
    }
  }

  /** A run from any map of entries nobody works on; partial files may be left from earlier. */
  ghost predicate IsRun(trace: seq<System>) {
    && trace != [] && trace[0].jobs == map[]
    && forall i | 0 < i < |trace| :: IsMove(trace[i - 1], trace[i])
  }

  ghost predicate IsMove(s: System, s': System) { exists m :: Enabled(s, m) && s' == After(s, m) }

  lemma {:induction false} RunKeepsInv(trace: seq<System>, i: nat)
    requires IsRun(trace) && i < |trace|
    ensures Inv(trace[i])
  {
    if i > 0 {
      RunKeepsInv(trace, i - 1);
      assert IsMove(trace[i - 1], trace[i]);
      var m :| Enabled(trace[i - 1], m) && trace[i] == After(trace[i - 1], m);
      MoveKeepsInv(trace[i - 1], m);
    }
  }

  /** In every state of every run, a model has at most one live download, and its entry says so. */
  lemma AtMostOneDownloadPerModel(trace: seq<System>, i: nat, t: Tid, u: Tid)
    requires IsRun(trace) && i < |trace| && Live(trace[i], t) && Live(trace[i], u)
    ensures trace[i].jobs[t].id == trace[i].jobs[u].id ==> t == u
    ensures var id := trace[i].jobs[t].id;
            && id in trace[i].downloads && !trace[i].downloads[id].taskExited
            && (trace[i].downloads[id].status.Downloading? || trace[i].downloads[id].status.Cancelled?)
  {
    RunKeepsInv(trace, i);
  }

  /** What becomes of the entry of a live download in one step. */
  ghost predicate EntryContinues(s: System, s': System, t: Tid)
    requires Live(s, t)
  {
    var id := s.jobs[t].id;
    && t in s'.jobs && s'.jobs[t].id == id && id in s.downloads && id in s'.downloads
    && (s'.downloads[id].taskExited ==> s'.jobs[t].phase.Exited?)
    && (s.downloads[id].status.Cancelled? ==> s'.downloads[id].status.Cancelled? || s'.downloads[id].status.Completed?)
    && (s'.downloads[id].status.Failed? ==> s.downloads[id].status.Downloading?)
  }

  lemma MoveContinues(s: System, m: Move, t: Tid)
    requires Inv(s) && Enabled(s, m) && Live(s, t)
    ensures EntryContinues(s, After(s, m), t)
  {}

  /** No move removes or restarts the entry of a live download; only its own end exits it, and a
      cancelled one then ends cancelled, or completed, but not failed. */
  lemma LiveEntryIsLeftAlone(trace: seq<System>, i: nat, t: Tid)
    requires IsRun(trace) && i + 1 < |trace| && Live(trace[i], t)
    ensures EntryContinues(trace[i], trace[i + 1], t)
  {
    RunKeepsInv(trace, i);
    assert IsMove(trace[i], trace[i + 1]);
    var m :| Enabled(trace[i], m) && trace[i + 1] == After(trace[i], m);
    MoveContinues(trace[i], m, t);
  }

  /** When a download reports its failure, of its partial files exactly those are there whose removal
      failed. */
  lemma FailureLeavesExactlyWhatItFailedToRemove(trace: seq<System>, i: nat, t: Tid, error: string, file: nat)
    requires IsRun(trace) && i < |trace| && Enabled(trace[i], Report(t, error)) && file < trace[i].jobs[t].files
    ensures (trace[i].jobs[t].id, file) in After(trace[i], Report(t, error)).partials
       <==> file in trace[i].jobs[t].phase.left
  {
    RunKeepsInv(trace, i);
    assert CleanedUpBy(trace[i], trace[i].jobs[t]);
  }

  /** Nor does one come back before the model is downloaded again. */
  lemma NoPartialFileWithoutDownload(s: System, m: Move, id: string, file: nat)
    requires Inv(s) && Enabled(s, m) && (id, file) !in s.partials
    requires forall t | Live(s, t) :: s.jobs[t].id != id
    ensures (id, file) !in After(s, m).partials
  {}
}
