/**
 Who can be about to write the same file at the same time. `AtomicWrite` allows
 one writer per file; here is what breaks with two, and the proof that only two
 hub joins can ever be those two.
 */
module Writers {
  import opened Common
  import opened ClaimSystem
  import opened ClaimInvariants
  import opened ClaimTheorems
  import A = AtomicWrite

  // ---- What two writers of one file can do ----

  /** Writer 1 or writer 2 of one file takes a step; they share the temporary name. */
  datatype Pair = Pair(fs: A.Fs, first: A.Writer, second: A.Writer) {
    predicate FirstCan(step: A.Step) { A.Enabled(A.State(fs, first), step) }
    predicate SecondCan(step: A.Step) { A.Enabled(A.State(fs, second), step) }

    function First(step: A.Step): Pair
      requires FirstCan(step)
    {
      var t := A.Next(A.State(fs, first), step);
      Pair(t.fs, t.writer, second)
    }

    function Second(step: A.Step): Pair
      requires SecondCan(step)
    {
      var t := A.Next(A.State(fs, second), step);
      Pair(t.fs, first, t.writer)
    }
  }

  /**
   The second call truncates the first one's temporary file after it was synced
   and writes part of its own contents; the first renames that and returns `Ok`
   with a target that holds neither contents.
   */
  lemma TwoWritersTear(a: Bytes, b: Bytes, count: nat) returns (p: Pair)
    requires count <= |b|
    ensures A.Read(p.fs) == Some(b[..count]) && p.first.Idle?
  {
    p := Pair(A.Fs(map[], A.Dir(None, None), []), A.Idle, A.Idle);
    p := p.First(A.Begin(a));
    p := p.First(A.Open(0));
    A.LiveSnoc(A.Dir(None, None), [], A.CreateTmp(0));
    p := p.First(A.WriteAll);
    p := p.First(A.Flush);
    p := p.Second(A.Begin(b));
    p := p.Second(A.Open(1));
    p := p.Second(A.WritePart(count));
    p := p.First(A.Rename);
    A.LiveSnoc(A.Dir(None, None), [A.CreateTmp(0)], A.RenameTmp(0));
    p := p.First(A.SyncDir);
  }

  // ---- Who the two can be ----

  datatype Task = FinishTask(tid: Tid) | JoinTask(jid: Jid)
  datatype File = MarkerFile | BindingFile | CredentialsFile

  /** The file a task writes in its next step. */
  function AboutToWrite(p: Process, task: Task): Option<File> {
    match task
    case FinishTask(tid) =>
      if tid !in p.finishes then None
      else if p.finishes[tid].pc.CustodyKnown? then Some(MarkerFile)
      else if p.finishes[tid].pc.SecretDeleted? then Some(BindingFile)
      else None
    case JoinTask(jid) =>
      if jid !in p.joins then None
      else
        match p.joins[jid]
        case Approved(_) => Some(MarkerFile)
        case MarkedHub(_) => Some(CredentialsFile)
        case Loaded(_, _) => Some(BindingFile)
        case _ => None
  }

  /** Until the winner writes its binding there is none. */
  ghost predicate NoBindingYet(s: State) {
    s.phase.Up? ==>
      forall tid :: tid in s.phase.proc.finishes && MayWriteBinding(s.phase.proc.finishes[tid].pc) ==>
        s.disk.binding.now.None?
  }

  lemma OtherStepKeepsNoBindingYet(s: State, step: Step)
    requires Inv(s) && NoBindingYet(s) && Enabled(s, step) && !step.FinishMoves?
    ensures NoBindingYet(Next(s, step))
  {
    if step.JoinMoves? { JoinKeepsNoBindingYet(s, step.jid, step.jc); } else { QuietStepKeepsNoBindingYet(s, step); }
  }

  lemma JoinKeepsNoBindingYet(s: State, jid: Jid, c: JoinChoice)
    requires Inv(s) && NoBindingYet(s) && Enabled(s, JoinMoves(jid, c))
    ensures NoBindingYet(NextJoinMoves(s, jid, c))
  {
    assert JoinOk(s.disk, s.hist.commits, s.hist.approved, s.phase.proc.joins[jid]);
  }

  lemma QuietStepKeepsNoBindingYet(s: State, step: Step)
    requires NoBindingYet(s) && Enabled(s, step) && !step.FinishMoves? && !step.JoinMoves?
    ensures NoBindingYet(Next(s, step))
  {}

  lemma FinishKeepsNoBindingYet(s: State, tid: Tid, c: FinishChoice)
    requires Inv(s) && NoBindingYet(s) && Enabled(s, FinishMoves(tid, c))
    ensures NoBindingYet(Next(s, FinishMoves(tid, c)))
  {
    var pc := s.phase.proc.finishes[tid].pc;
    var s' := Next(s, FinishMoves(tid, c));
    if pc.CustodyKnown? {
      MarkerWriteKeepsNoBindingYet(s, tid, c);
    } else if pc.Marked? {
      RemovalKeepsNoBindingYet(s, tid, c);
    } else if pc.SecretDeleted? {
      BindingWriteKeepsNoBindingYet(s, tid, c);
    } else {
      if BeforeLock(pc) { UnlockedWritesNothing(s, tid, c); }
      else if pc.Locked? { LockedWritesNothing(s, tid, c); }
      else if Committing(pc) { TpmStepWritesNothing(s, tid, c); }
      else { ReleasedWritesNothing(s, tid, c); }
      OthersKeepNoBindingYet(s, s', tid);
    }
  }

  lemma OthersKeepNoBindingYet(s: State, s': State, tid: Tid)
    requires s.phase.Up? && NoBindingYet(s) && WritesNothing(s, s', tid)
    ensures NoBindingYet(s')
  {
    forall t | t in s'.phase.proc.finishes && MayWriteBinding(s'.phase.proc.finishes[t].pc)
      ensures s'.disk.binding.now.None?
    {
      assert t in s'.phase.proc.finishes - {tid};
    }
  }

  lemma TpmStepWritesNothing(s: State, tid: Tid, c: FinishChoice)
    requires s.phase.Up? && tid in s.phase.proc.finishes
    requires s.phase.proc.finishes[tid].pc.Rechecked? || s.phase.proc.finishes[tid].pc.TpmPresent?
    ensures WritesNothing(s, NextFinishMoves(s, tid, c), tid)
  {
    if s.phase.proc.finishes[tid].pc.Rechecked? {} else {}
  }

  /** Before the marker write there is no binding. */
  lemma NoBindingBeforeMarker(s: State, tid: Tid)
    requires Inv(s) && s.phase.Up? && tid in s.phase.proc.finishes && s.phase.proc.finishes[tid].pc.CustodyKnown?
    ensures s.disk.binding.now.None?
  {
    var p := s.phase.proc;
    assert FinishOk(s.disk, s.hist, p.me, p.secret, p.lock, tid, p.finishes[tid]);
    OneOpen(s, tid);
    UnclaimedMeansNothingYet(s, tid);
    assert s.disk.binding.now in s.disk.binding.mayBe;
  }

  lemma MarkerWriteLeavesBinding(s: State, tid: Tid, c: FinishChoice)
    requires s.phase.Up? && tid in s.phase.proc.finishes && s.phase.proc.finishes[tid].pc.CustodyKnown?
    requires s.disk.binding.now.None?
    ensures NoBindingYet(NextFinishMoves(s, tid, c))
  {}

  lemma MarkerWriteKeepsNoBindingYet(s: State, tid: Tid, c: FinishChoice)
    requires Inv(s) && Enabled(s, FinishMoves(tid, c)) && s.phase.proc.finishes[tid].pc.CustodyKnown?
    ensures NoBindingYet(NextFinishMoves(s, tid, c))
  {
    NoBindingBeforeMarker(s, tid);
    MarkerWriteLeavesBinding(s, tid, c);
  }

  lemma RemovalKeepsNoBindingYet(s: State, tid: Tid, c: FinishChoice)
    requires s.phase.Up? && NoBindingYet(s) && tid in s.phase.proc.finishes && s.phase.proc.finishes[tid].pc.Marked?
    ensures NoBindingYet(MoveAfterCommit(s, tid, s.phase.proc.finishes[tid], c))
  {}

  /** The winner holds the lock: nobody else is between the marker and the binding. */
  lemma BindingWriteKeepsNoBindingYet(s: State, tid: Tid, c: FinishChoice)
    requires Inv(s) && Enabled(s, FinishMoves(tid, c)) && s.phase.proc.finishes[tid].pc.SecretDeleted?
    ensures NoBindingYet(NextFinishMoves(s, tid, c))
  {
    var p := s.phase.proc;
    assert FinishOk(s.disk, s.hist, p.me, p.secret, p.lock, tid, p.finishes[tid]);
    forall t | t in p.finishes && t != tid ensures !MayWriteBinding(p.finishes[t].pc) {
      assert FinishOk(s.disk, s.hist, p.me, p.secret, p.lock, t, p.finishes[t]);
    }
  }

  lemma {:induction false} RunKeepsNoBindingYet(steps: seq<Step>)
    requires IsRun(FreshBox(), steps)
    ensures Inv(AfterRun(FreshBox(), steps)) && NoBindingYet(AfterRun(FreshBox(), steps))
  {
    FreshBoxInv();
    RunKeepsInv(FreshBox(), steps);
    if steps != [] {
      var init, step := steps[..|steps| - 1], steps[|steps| - 1];
      RunKeepsNoBindingYet(init);
      if step.FinishMoves? { FinishKeepsNoBindingYet(AfterRun(FreshBox(), init), step.tid, step.fc); }
      else { OtherStepKeepsNoBindingYet(AfterRun(FreshBox(), init), step); }
    }
  }

  /** In every reachable state, two tasks about to write the same file are both hub joins. */
  lemma {:induction false} OnlyJoinsOverlap(steps: seq<Step>, x: Task, y: Task)
    requires IsRun(FreshBox(), steps) && AfterRun(FreshBox(), steps).phase.Up? && x != y
    requires var p := AfterRun(FreshBox(), steps).phase.proc;
             AboutToWrite(p, x).Some? && AboutToWrite(p, x) == AboutToWrite(p, y)
    ensures x.JoinTask? && y.JoinTask?
  {
    RunKeepsNoBindingYet(steps);
    var t := AfterRun(FreshBox(), steps);
    if x.FinishTask? { FinishWritesAlone(t, x.tid, y); } else if y.FinishTask? { FinishWritesAlone(t, y.tid, x); }
  }

  lemma FinishWritesAlone(s: State, tid: Tid, other: Task)
    requires Inv(s) && NoBindingYet(s) && s.phase.Up? && other != FinishTask(tid)
    requires AboutToWrite(s.phase.proc, FinishTask(tid)).Some?
    ensures AboutToWrite(s.phase.proc, other) != AboutToWrite(s.phase.proc, FinishTask(tid))
  {
    var p := s.phase.proc;
    assert FinishOk(s.disk, s.hist, p.me, p.secret, p.lock, tid, p.finishes[tid]);
    match other
    case FinishTask(o) =>
      if o in p.finishes { assert FinishOk(s.disk, s.hist, p.me, p.secret, p.lock, o, p.finishes[o]); }
    case JoinTask(jid) =>
      if jid in p.joins { assert JoinOk(s.disk, s.hist.commits, s.hist.approved, p.joins[jid]); }
  }
}
