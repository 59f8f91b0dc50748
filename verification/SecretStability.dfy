/**
 The displayed secret: a restart must show the code the user is looking at.

 That holds over every run, except after a secret write that reported an error
 although its rename had taken effect: then the file is visible, the process
 that dinit restarts trusts it, and a machine crash may take it away. The
 exception is given as a run, with the exact condition that excludes it.
 */
module SecretStability {
  import opened Common
  import opened DurableFile
  import opened ClaimSystem
  import opened ClaimInvariants
  import opened ClaimTheorems
  import opened SoloRuns

  // ---- Over every run ----

  /** A secret file always holds 16 bytes, before and after any crash: the wrong-length branch is never taken. */
  lemma {:induction false} SecretFileAlways16(steps: seq<Step>, b: Bytes)
    requires IsRun(FreshBox(), steps) && Some(b) in AfterRun(FreshBox(), steps).disk.secret.mayBe
    ensures |b| == 16
  {
    FreshBoxInv();
    RunKeepsInv(FreshBox(), steps);
  }

  /** A secret displayed while no crash could change its file is the one every later boot displays. */
  lemma {:induction false} SettledSecretIsStable(steps: seq<Step>, i: nat, j: nat)
    requires IsRun(FreshBox(), steps) && i <= j < |AfterRun(FreshBox(), steps).hist.shown|
    requires AfterRun(FreshBox(), steps).hist.shown[i].settled
    ensures var shown := AfterRun(FreshBox(), steps).hist.shown; shown[j].secret == shown[i].secret
  {
    FreshBoxInv();
    RunKeepsInv(FreshBox(), steps);
  }

  /** No secret write of the run failed after its rename. */
  predicate NoHalfWrittenSecret(steps: seq<Step>) {
    forall k :: 0 <= k < |steps| && steps[k].LoadSecret? ==> !steps[k].outcome.Unsynced?
  }

  ghost predicate SecretSettled(s: State) {
    && (Settled(s.disk) || s.disk.secret.mayBe == {s.disk.secret.now})
    && (forall k :: 0 <= k < |s.hist.shown| ==> s.hist.shown[k].settled)
  }

  /** Before the marker write a finish leaves the secret file and the record of displays alone. */
  lemma EarlyMoveLeavesDisk(s: State, tid: Tid, c: FinishChoice)
    requires s.phase.Up? && tid in s.phase.proc.finishes
    requires var pc := s.phase.proc.finishes[tid].pc; BeforeLock(pc) || (Committing(pc) && !pc.CustodyKnown?)
    ensures NextFinishMoves(s, tid, c).disk == s.disk && NextFinishMoves(s, tid, c).hist.shown == s.hist.shown
  {
    var pc := s.phase.proc.finishes[tid].pc;
    if BeforeLock(pc) {} else if pc.Locked? {} else if pc.Rechecked? {} else {}
  }

  /** The marker write can only settle it. */
  lemma MarkerLeavesSecret(s: State, tid: Tid, c: FinishChoice)
    requires s.phase.Up? && tid in s.phase.proc.finishes && s.phase.proc.finishes[tid].pc.CustodyKnown?
    ensures var s' := NextFinishMoves(s, tid, c);
            && s'.hist.shown == s.hist.shown
            && (s'.disk.secret == s.disk.secret || s'.disk.secret == s.disk.secret.Settled())
  {}

  lemma FinishLeavesShown(s: State, tid: Tid, c: FinishChoice)
    requires s.phase.Up? && tid in s.phase.proc.finishes
    ensures NextFinishMoves(s, tid, c).hist.shown == s.hist.shown
  {
    var f := s.phase.proc.finishes[tid];
    if BeforeLock(f.pc) {} else if Committing(f.pc) {} else {}
  }

  lemma FinishKeepsSecretSettled(s: State, tid: Tid, c: FinishChoice)
    requires Inv(s) && SecretSettled(s) && Enabled(s, FinishMoves(tid, c))
    ensures SecretSettled(Next(s, FinishMoves(tid, c)))
  {
    var p := s.phase.proc;
    var f := p.finishes[tid];
    FinishLeavesShown(s, tid, c);
    if Settled(s.disk) {
      WinnerIsLast(s, FinishMoves(tid, c));
    } else if f.pc.CustodyKnown? {
      MarkerLeavesSecret(s, tid, c);
    } else if !Committed(f.pc) {
      EarlyMoveLeavesDisk(s, tid, c);
    } else {
      assert FinishOk(s.disk, s.hist, p.me, p.secret, p.lock, tid, f);
    }
  }

  lemma StepKeepsSecretSettled(s: State, step: Step)
    requires Inv(s) && SecretSettled(s) && Enabled(s, step)
    requires step.LoadSecret? ==> !step.outcome.Unsynced?
    ensures SecretSettled(Next(s, step))
  {
    match step
    case FinishMoves(tid, c) => FinishKeepsSecretSettled(s, tid, c);
    case JoinMoves(jid, c) => JoinKeepsSecretSettled(s, jid, c);
    case LoadSecret(generated, o) => LoadKeepsSecretSettled(s, generated, o);
    case _ => QuietStepKeepsSecretSettled(s, step);
  }

  lemma LoadKeepsSecretSettled(s: State, generated: Array16, o: WriteOutcome)
    requires Inv(s) && SecretSettled(s) && Enabled(s, LoadSecret(generated, o)) && !o.Unsynced?
    ensures SecretSettled(Next(s, LoadSecret(generated, o)))
  {
    assert s.disk.secret.now in s.disk.secret.mayBe;
  }

  lemma QuietStepKeepsSecretSettled(s: State, step: Step)
    requires SecretSettled(s) && Enabled(s, step) && (step.MachineCrash? ==> step.marker in s.disk.marker.mayBe)
    requires !step.FinishMoves? && !step.JoinMoves? && !step.LoadSecret?
    ensures SecretSettled(Next(s, step))
  {}

  lemma JoinKeepsSecretSettled(s: State, jid: Jid, c: JoinChoice)
    requires Inv(s) && SecretSettled(s) && Enabled(s, JoinMoves(jid, c))
    ensures SecretSettled(Next(s, JoinMoves(jid, c)))
  {
    if Settled(s.disk) {
      WinnerIsLast(s, JoinMoves(jid, c));
    } else {
      assert JoinOk(s.disk, s.hist.commits, s.hist.approved, s.phase.proc.joins[jid]);
    }
  }

  lemma {:induction false} RunKeepsSecretSettled(steps: seq<Step>)
    requires IsRun(FreshBox(), steps) && NoHalfWrittenSecret(steps)
    ensures SecretSettled(AfterRun(FreshBox(), steps))
  {
    if steps != [] {
      var init := steps[..|steps| - 1];
      RunKeepsSecretSettled(init);
      FreshBoxInv();
      RunKeepsInv(FreshBox(), init);
      StepKeepsSecretSettled(AfterRun(FreshBox(), init), steps[|steps| - 1]);
    }
  }

  /**
   Secret stability: unless a secret write failed after its rename, all boots of
   a run that display a secret display the same one, whatever machine crashes,
   process exits, claims and joins happen.
   */
  lemma {:induction false} SecretStable(steps: seq<Step>, i: nat, j: nat)
    requires IsRun(FreshBox(), steps) && NoHalfWrittenSecret(steps)
    requires i <= j < |AfterRun(FreshBox(), steps).hist.shown|
    ensures var shown := AfterRun(FreshBox(), steps).hist.shown; shown[i].secret == shown[j].secret
  {
    RunKeepsSecretSettled(steps);
    SettledSecretIsStable(steps, i, j);
  }

  // ---- Booting ----

  /** A boot with an existing device key, or one that has just been written. */
  function Booted(s: State, me: Identity, newKey: bool, generated: Array16, o: WriteOutcome): State {
    var s1 := NextLoadKey(s, me, if newKey then Some(Synced) else None);
    NextLoadSecret(s1.(phase := ClaimRead(me, IsClaimed(s1.disk))), generated, o)
  }

  lemma BootReaches(s: State, t: State, me: Identity, newKey: bool, generated: Array16, o: WriteOutcome)
    requires Reaches(s, t) && t.phase.Down? && generated !in t.net.attackerKeys
    ensures Reaches(s, Booted(t, me, newKey, generated, o))
  {
    var load := LoadKey(me, if newKey then Some(Synced) else None);
    ReachesNext(s, t, load);
    var t1 := Next(t, load);
    ReachesNext(s, t1, ReadClaimed);
    var t2 := Next(t1, ReadClaimed);
    ReachesNext(s, t2, LoadSecret(generated, o));
  }

  // ---- Exactly when a displayed secret is stable ----

  function LastShown(s: State): Shown
    requires s.hist.shown != []
  {
    s.hist.shown[|s.hist.shown| - 1]
  }

  /** Every later display, in every continuation, shows what was just shown. */
  ghost predicate StableFromNowOn(s: State)
    requires s.hist.shown != []
  {
    forall t :: Reaches(s, t) ==>
      forall j :: |s.hist.shown| <= j < |t.hist.shown| ==> t.hist.shown[j].secret == LastShown(s).secret
  }

  /** A boot that has just displayed its secret. */
  predicate JustShown(s: State) {
    && s.phase.Up? && !IsClaimed(s.disk) && s.hist.shown != []
    && s.disk.secret.now == Some(s.phase.proc.secret)
    && LastShown(s) == Shown(s.phase.proc.secret, s.disk.secret.mayBe == {Some(s.phase.proc.secret)})
  }

  /** Every boot of an unclaimed box ends so, whichever branch of the load it took. */
  lemma BootShows(s: State, generated: Array16, o: WriteOutcome)
    requires Inv(s) && Enabled(s, LoadSecret(generated, o)) && !IsClaimed(s.disk)
    ensures var t := Next(s, LoadSecret(generated, o));
            && (t.phase.Up? ==> JustShown(t))
            && (t.phase.Up? && t.disk != s.disk ==> LastShown(t).settled)
            && (t.phase.Up? && t.disk == s.disk && s.disk.secret.now.Some? ==>
                  (LastShown(t).settled <==> s.disk.secret.mayBe == {s.disk.secret.now}))
  {
    assert s.disk.secret.now in s.disk.secret.mayBe;
  }

  lemma CrashAndBoot(s: State, me: Identity, v: Option<Bytes>, generated: Array16) returns (t: State)
    requires Inv(s) && v in s.disk.secret.mayBe && !IsClaimed(s.disk) && generated !in s.net.attackerKeys
    ensures Reaches(s, t) && |t.hist.shown| == |s.hist.shown| + 1
    ensures LastShown(t).secret == (if v.Some? then v.value else generated)
  {
    var crash := MachineCrash(s.disk.marker.now, v, s.disk.binding.now, s.disk.creds.now);
    ReachesSelf(s);
    ReachesNext(s, s, crash);
    BootReaches(s, Next(s, crash), me, false, generated, Synced);
    t := Booted(Next(s, crash), me, false, generated, Synced);
    if v.Some? { assert SecretOk(s.net, v.value); }
  }

  /**
   The exact condition: a secret just displayed is shown by every later boot of
   every continuation if and only if its file was settled when it was displayed.
   `other` stands for any further secret the box could generate.
   */
  lemma StableIffSettled(s: State, me: Identity, other: Array16)
    requires Inv(s) && JustShown(s)
    requires other != LastShown(s).secret && other !in s.net.attackerKeys
    ensures StableFromNowOn(s) <==> LastShown(s).settled
  {
    if LastShown(s).settled {
      forall t | Reaches(s, t)
        ensures forall j :: |s.hist.shown| <= j < |t.hist.shown| ==> t.hist.shown[j].secret == LastShown(s).secret
      {
        ReachesKeepsInv(s, t);
        ShownGrowsAlong(s, t);
        assert t.hist.shown[|s.hist.shown| - 1] == LastShown(s);
      }
    } else {
      var v := AnotherCandidate(s);
      var t := CrashAndBoot(s, me, v, other);
      assert t.hist.shown[|s.hist.shown|].secret != LastShown(s).secret;
    }
  }

  lemma AnotherCandidate(s: State) returns (v: Option<Bytes>)
    requires Inv(s) && JustShown(s) && !LastShown(s).settled
    ensures v in s.disk.secret.mayBe && v != Some(LastShown(s).secret)
  {
    v :| v in s.disk.secret.mayBe && v != Some(LastShown(s).secret);
  }

  // ---- The same condition, in how the writes of the run ended ----

  /**
   A secret write of this run ended `Unsynced`, after its rename, and since then
   no write in the directory has succeeded and the machine has not crashed.
   */
  ghost predicate InDoubt(steps: seq<Step>)
    requires IsRun(FreshBox(), steps)
    decreases |steps|
  {
    steps != [] &&
    var init := steps[..|steps| - 1];
    match steps[|steps| - 1]
    case LoadKey(_, written) => InDoubt(init) && written != Some(Synced)
    case LoadSecret(_, o) =>
      if SecretOnDisk(AfterRun(FreshBox(), init).disk) then InDoubt(init)
      else o.Unsynced? || (o.Failed? && InDoubt(init))
    case MachineCrash(_, _, _, _) => false
    case _ => InDoubt(init)
  }

  predicate SecretOnDisk(d: Disk) { d.secret.now.Some? && |d.secret.now.value| == 16 }

  /** A crash could change the secret file. */
  predicate SecretLosable(d: Disk) { d.secret.mayBe != {d.secret.now} }

  lemma OtherStepKeepsLosable(s: State, step: Step)
    requires Inv(s) && Enabled(s, step) && !Settled(s.disk) && !Settled(Next(s, step).disk)
    requires !step.LoadKey? && !step.LoadSecret? && !step.MachineCrash?
    ensures SecretLosable(Next(s, step).disk) <==> SecretLosable(s.disk)
  {
    if step.FinishMoves? {
      FinishKeepsLosable(s, step.tid, step.fc);
    } else if step.JoinMoves? {
      assert JoinOk(s.disk, s.hist.commits, s.hist.approved, s.phase.proc.joins[step.jid]);
    }
  }

  lemma FinishKeepsLosable(s: State, tid: Tid, c: FinishChoice)
    requires Inv(s) && Enabled(s, FinishMoves(tid, c)) && !Settled(s.disk)
    requires !Settled(NextFinishMoves(s, tid, c).disk)
    ensures NextFinishMoves(s, tid, c).disk.secret == s.disk.secret
  {
    var p := s.phase.proc;
    assert FinishOk(s.disk, s.hist, p.me, p.secret, p.lock, tid, p.finishes[tid]);
    if p.finishes[tid].pc.CustodyKnown? {
      if c.markOutcome.Synced? {} else {}
    } else {
      EarlyMoveLeavesDisk(s, tid, c);
    }
  }

  lemma BootStepAndLosable(s: State, step: Step)
    requires Inv(s) && Enabled(s, step) && (step.LoadKey? || step.LoadSecret? || step.MachineCrash?)
    ensures step.LoadKey? ==>
              (SecretLosable(Next(s, step).disk) <==> SecretLosable(s.disk) && step.written != Some(Synced))
    ensures step.LoadSecret? && SecretOnDisk(s.disk) ==> Next(s, step).disk == s.disk
    ensures step.LoadSecret? && !SecretOnDisk(s.disk) ==>
              (SecretLosable(Next(s, step).disk) <==>
                 step.outcome.Unsynced? || (step.outcome.Failed? && SecretLosable(s.disk)))
    ensures step.MachineCrash? ==> !SecretLosable(Next(s, step).disk)
  {
    assert s.disk.secret.now in s.disk.secret.mayBe;
  }

  /** While the claim is not settled, a crash can change the secret file exactly when a write is in doubt. */
  lemma {:induction false} LosableIffInDoubt(steps: seq<Step>)
    requires IsRun(FreshBox(), steps) && !Settled(AfterRun(FreshBox(), steps).disk)
    ensures SecretLosable(AfterRun(FreshBox(), steps).disk) <==> InDoubt(steps)
  {
    if steps != [] {
      var init, step := steps[..|steps| - 1], steps[|steps| - 1];
      var t := AfterRun(FreshBox(), init);
      FreshBoxInv();
      RunKeepsInv(FreshBox(), init);
      if Settled(t.disk) { WinnerIsLast(t, step); }
      LosableIffInDoubt(init);
      if step.LoadKey? || step.LoadSecret? || step.MachineCrash? {
        BootStepAndLosable(t, step);
      } else {
        OtherStepKeepsLosable(t, step);
      }
    }
  }

  /**
   So a secret just displayed is displayed for ever after if and only if no
   secret write is in doubt: none ended `Unsynced`, after its rename, since the
   last successful write in the directory, or the last machine crash.
   */
  lemma {:induction false} StableIffNoWriteInDoubt(steps: seq<Step>, me: Identity, other: Array16)
    requires IsRun(FreshBox(), steps) && JustShown(AfterRun(FreshBox(), steps))
    requires other != LastShown(AfterRun(FreshBox(), steps)).secret
    requires other !in AfterRun(FreshBox(), steps).net.attackerKeys
    ensures StableFromNowOn(AfterRun(FreshBox(), steps)) <==> !InDoubt(steps)
  {
    FreshBoxInv();
    RunKeepsInv(FreshBox(), steps);
    LosableIffInDoubt(steps);
    StableIffSettled(AfterRun(FreshBox(), steps), me, other);
  }

  // ---- Growth ----

  lemma ShownGrows(s: State, step: Step)
    requires Enabled(s, step)
    ensures s.hist.shown <= Next(s, step).hist.shown
  {
    if step.FinishMoves? {
      var f := s.phase.proc.finishes[step.tid];
      if BeforeLock(f.pc) {} else if Committing(f.pc) {} else {}
    }
  }

  lemma {:induction false} ShownGrowsOverRun(s: State, steps: seq<Step>)
    requires IsRun(s, steps)
    ensures s.hist.shown <= AfterRun(s, steps).hist.shown
  {
    if steps != [] {
      var init := steps[..|steps| - 1];
      ShownGrowsOverRun(s, init);
      ShownGrows(AfterRun(s, init), steps[|steps| - 1]);
    }
  }

  lemma ShownGrowsAlong(s: State, t: State)
    requires Reaches(s, t)
    ensures s.hist.shown <= t.hist.shown
  {
    var steps :| IsRun(s, steps) && AfterRun(s, steps) == t;
    ShownGrowsOverRun(s, steps);
  }

  /**
   The condition is not always met. A first boot whose secret write fails after
   the rename exits; the restarted process reads and displays that secret; a
   machine crash loses the file; the next boot displays another code.
   */
  lemma SecretCanChange(me: Identity, first: Array16, second: Array16) returns (t: State)
    requires first != second
    ensures Reaches(FreshBox(), t)
    ensures t.hist.shown == [Shown(first, false), Shown(second, true)]
  {
    var s0 := FreshBox();
    FreshBoxInv();
    ReachesSelf(s0);
    BootReaches(s0, s0, me, true, first, Unsynced);
    var s1 := Booted(s0, me, true, first, Unsynced);
    BootReaches(s0, s1, me, false, second, Synced);
    var s2 := Booted(s1, me, false, second, Synced);
    assert s2.hist.shown == [Shown(first, false)];
    var crash := MachineCrash(None, None, None, None);
    ReachesNext(s0, s2, crash);
    BootReaches(s0, Next(s2, crash), me, false, second, Synced);
    t := Booted(Next(s2, crash), me, false, second, Synced);
  }
}
