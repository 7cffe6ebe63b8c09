/** Entries that keep their model from being downloaded although no download will ever end them. */
module StrandedDownloads {
  import opened DownloadManager

  /** An entry that blocks its model, is not marked exited, and belongs to no live download. */
  ghost predicate Stranded(s: System, id: string) {
    && id in s.downloads && !s.downloads[id].taskExited && Blocks(s.downloads[id])
    && forall t | Live(s, t) :: s.jobs[t].id != id
  }

  /** What may happen from a state on. */
  ghost predicate IsFuture(s: System, trace: seq<System>) {
    trace != [] && trace[0] == s && forall i | 0 < i < |trace| :: IsMove(trace[i - 1], trace[i])
  }

  // ---------------------------------------------------------------- what stranded means

  lemma MoveKeepsStranded(s: System, m: Move, id: string)
    requires Stranded(s, id) && Enabled(s, m)
    ensures Stranded(After(s, m), id)
  {}

  lemma {:induction false} StrandedForever(s: System, trace: seq<System>, i: nat, id: string)
    requires Stranded(s, id) && IsFuture(s, trace) && i < |trace|
    ensures Stranded(trace[i], id)
  {
    if i > 0 {
      StrandedForever(s, trace, i - 1, id);
      assert IsMove(trace[i - 1], trace[i]);
      var m :| Enabled(trace[i - 1], m) && trace[i] == After(trace[i - 1], m);
      MoveKeepsStranded(trace[i - 1], m, id);
    }
  }

  lemma FutureAfter(s: System, m: Move, rest: seq<System>)
    requires Enabled(s, m) && IsFuture(After(s, m), rest)
    ensures IsFuture(s, [s] + rest)
  {
    var trace := [s] + rest;
    forall i | 0 < i < |trace| ensures IsMove(trace[i - 1], trace[i]) {
      if i > 1 {
        assert IsMove(rest[i - 2], rest[i - 1]);
      }
    }
  }

  /** How far a live download is from its end. */
  function StepsLeft(job: Job): nat {
    match job.phase
    case Preparing => 2
    case Running => 1
    case Cleaning(next, _) => if next <= job.files then job.files - next + 1 else 0
    case _ => 0
  }

  /** A live download can end, and its end frees the model. */
  lemma {:induction false} EndOfDownload(s: System, t: Tid) returns (trace: seq<System>)
    requires Inv(s) && Live(s, t)
    ensures IsFuture(s, trace) && !Blocked(trace[|trace| - 1].downloads, s.jobs[t].id)
    decreases StepsLeft(s.jobs[t])
  {
    assert s.jobs[t].phase.Cleaning? ==> CleanedUpBy(s, s.jobs[t]);
    var m := match s.jobs[t].phase
      case Preparing => Spawn(t)
      case Running => Succeed(t)
      case Cleaning(next, _) => if next < s.jobs[t].files then RemovePartial(t, true) else Report(t, "");
    MoveKeepsInv(s, m);
    var s' := After(s, m);
    var rest := [s'];
    if Live(s', t) {
      rest := EndOfDownload(s', t);
    }
    FutureAfter(s, m, rest);
    trace := [s] + rest;
  }

  lemma CanBeFreed(s: System, id: string) returns (trace: seq<System>)
    requires Inv(s) && !Stranded(s, id)
    ensures IsFuture(s, trace) && !Blocked(trace[|trace| - 1].downloads, id)
  {
    trace := [s];
    if Blocked(s.downloads, id) {
      if s.downloads[id].taskExited {
        FutureAfter(s, Cancel(id), [After(s, Cancel(id))]);
        trace := [s] + [After(s, Cancel(id))];
      } else {
        var t :| Live(s, t) && s.jobs[t].id == id;
        trace := EndOfDownload(s, t);
      }
    }
  }

  /** Stranded is exactly what is blocked whatever the manager, its callers and its tasks do. */
  lemma StrandedExactlyWhenNeverFreed(s: System, id: string)
    requires Inv(s)
    ensures Stranded(s, id)
       <==> forall trace: seq<System> | IsFuture(s, trace) :: Blocked(trace[|trace| - 1].downloads, id)
  {
    if Stranded(s, id) {
      forall trace: seq<System> | IsFuture(s, trace) ensures Blocked(trace[|trace| - 1].downloads, id) {
        StrandedForever(s, trace, |trace| - 1, id);
      }
    } else {
      var trace := CanBeFreed(s, id);
    }
  }

  /** Only a direct write frees it: one whose entry is exited, or does not block. */
  lemma DirectWriteFreesExactlyWhen(s: System, id: string, p: Progress)
    requires Stranded(s, id)
    ensures !Stranded(s.(downloads := s.downloads[id := p]), id) <==> p.taskExited || !Blocks(p)
  {
    var s' := s.(downloads := s.downloads[id := p]);
    assert forall t :: Live(s', t) <==> Live(s, t);
  }

  // ---------------------------------------------------------------- how an entry gets stranded

  /** The moves that strand `id`: its download cannot create a directory; somebody reserves it with an
      entry that blocks and is not exited; or somebody cancels an entry that ended without being exited. */
  predicate Strands(s: System, m: Move, id: string)
    requires Enabled(s, m)
  {
    match m
    case DirectoryFails(t) => s.jobs[t].id == id
    case Reserve(other, p) => other == id && !Blocked(s.downloads, id) && Blocks(p) && !p.taskExited
    case Cancel(other) => other == id && id in s.downloads && !Blocks(s.downloads[id]) && !s.downloads[id].taskExited
    case _ => false
  }

  lemma MoveStrandsExactlyWhen(s: System, m: Move, id: string)
    requires Inv(s) && Enabled(s, m)
    ensures Stranded(After(s, m), id) <==> Stranded(s, id) || Strands(s, m, id)
  {
    if Stranded(s, id) {
      MoveKeepsStranded(s, m, id);
    } else if m.Reserve? || m.Cancel? || m.Clear? || m.WritePartial? || m.PromotePartial? {
      CallStrandsExactlyWhen(s, m, id);
    } else {
      StepStrandsExactlyWhen(s, m, id);
    }
  }

  lemma CallStrandsExactlyWhen(s: System, m: Move, id: string)
    requires Inv(s) && Enabled(s, m) && !Stranded(s, id)
    requires m.Reserve? || m.Cancel? || m.Clear? || m.WritePartial? || m.PromotePartial?
    ensures Stranded(After(s, m), id) <==> Strands(s, m, id)
  {
    assert forall u :: Live(After(s, m), u) <==> Live(s, u);
  }

  lemma StepStrandsExactlyWhen(s: System, m: Move, id: string)
    requires Inv(s) && Enabled(s, m) && !Stranded(s, id)
    requires !(m.Reserve? || m.Cancel? || m.Clear? || m.WritePartial? || m.PromotePartial?)
    ensures Stranded(After(s, m), id) <==> Strands(s, m, id)
  {
    var s' := After(s, m);
    assert Live(s', m.t) || (Live(s, m.t) && s'.jobs[m.t].id == s.jobs[m.t].id);
    assert forall u | u != m.t :: Live(s', u) <==> Live(s, u);
    assert forall u | u != m.t && Live(s, u) :: s'.jobs[u] == s.jobs[u];
  }

  ghost predicate IsStrandingMove(s: System, s': System, id: string) {
    exists m :: Enabled(s, m) && s' == After(s, m) && Strands(s, m, id)
  }

  lemma OneMoveStrands(s: System, s': System, id: string)
    requires Inv(s) && IsMove(s, s')
    ensures Stranded(s', id) <==> Stranded(s, id) || IsStrandingMove(s, s', id)
  {
    var m :| Enabled(s, m) && s' == After(s, m);
    MoveStrandsExactlyWhen(s, m, id);
    if IsStrandingMove(s, s', id) {
      var n :| Enabled(s, n) && s' == After(s, n) && Strands(s, n, id);
      MoveStrandsExactlyWhen(s, n, id);
    }
  }

  ghost predicate StrandingMoveBy(trace: seq<System>, j: nat, id: string)
    requires j < |trace|
  {
    exists i | 0 < i <= j :: IsStrandingMove(trace[i - 1], trace[i], id)
  }

  /** In every run, an entry is stranded if and only if it was from the start or such a move came. */
  lemma {:induction false} StrandedExactlyWhen(trace: seq<System>, j: nat, id: string)
    requires IsRun(trace) && j < |trace|
    ensures Stranded(trace[j], id) <==> Stranded(trace[0], id) || StrandingMoveBy(trace, j, id)
  {
    if j > 0 {
      StrandedExactlyWhen(trace, j - 1, id);
      RunKeepsInv(trace, j - 1);
      assert IsMove(trace[j - 1], trace[j]);
      OneMoveStrands(trace[j - 1], trace[j], id);
      assert StrandingMoveBy(trace, j, id)
        <==> StrandingMoveBy(trace, j - 1, id) || IsStrandingMove(trace[j - 1], trace[j], id);
    }
  }

  /** Started, and its directory cannot be created: the model can never be downloaded again. */
  lemma FailedDirectoryStrands(id: string, files: nat) returns (trace: seq<System>)
    ensures IsRun(trace) && |trace| == 3 && trace[0] == System(map[], map[], {})
    ensures trace[1] == After(trace[0], Start(0, id, files)) && trace[2] == After(trace[1], DirectoryFails(0))
    ensures Stranded(trace[2], id) && !Stranded(trace[1], id)
  {
    var s0 := System(map[], map[], {});
    var s1 := After(s0, Start(0, id, files));
    var s2 := After(s1, DirectoryFails(0));
    trace := [s0, s1, s2];
    assert IsMove(s0, s1) && IsMove(s1, s2);
    assert Live(s1, 0) && s1.jobs[0].id == id;
  }
}
