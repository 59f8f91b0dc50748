/**
 What the two ownership files say, over all runs: whose key the marker holds and
 exactly when a hub join has replaced it, and exactly when a binding exists and
 when it can no longer be lost.
 */
module OwnerRecord {
  import opened Common
  import opened DurableFile
  import opened ChallengeStore
  import opened LocalAccountBinding
  import opened Tpm
  import opened ClaimSystem
  import opened ClaimInvariants
  import opened ClaimTheorems
  import opened SoloRuns
  import opened SecretStability
  import opened ClaimFinality

  // ---- The marker ----

  /**
   A local marker, on disk or recoverable, is the last commit's: its owner's key
   and its time. A hub's marker names an approved device and account.
   */
  ghost predicate MarkerNamesOwner(d: Disk, h: History) {
    forall m :: Some(m) in d.marker.mayBe ==>
      if m.LocalMarker? then h.commits != [] && m == MarkerOf(Last(h.commits))
      else Credentials(m.deviceId, m.accountId) in h.approved
  }

  lemma ApprovedGrows(s: State, step: Step)
    requires Enabled(s, step)
    ensures s.hist.approved <= Next(s, step).hist.approved
  {
    if step.FinishMoves? {
      var f := s.phase.proc.finishes[step.tid];
      if BeforeLock(f.pc) {} else if Committing(f.pc) {} else {}
    }
  }

  lemma StepKeepsMarkerNamesOwner(s: State, step: Step)
    requires Inv(s) && MarkerNamesOwner(s.disk, s.hist) && Enabled(s, step)
    ensures MarkerNamesOwner(Next(s, step).disk, Next(s, step).hist)
  {
    StepAndTheMarker(s, step);
    ApprovedGrows(s, step);
  }

  lemma {:induction false} RunKeepsMarkerNamesOwner(steps: seq<Step>)
    requires IsRun(FreshBox(), steps)
    ensures Inv(AfterRun(FreshBox(), steps))
    ensures MarkerNamesOwner(AfterRun(FreshBox(), steps).disk, AfterRun(FreshBox(), steps).hist)
  {
    FreshBoxInv();
    RunKeepsInv(FreshBox(), steps);
    if steps != [] {
      var init := steps[..|steps| - 1];
      RunKeepsMarkerNamesOwner(init);
      StepKeepsMarkerNamesOwner(AfterRun(FreshBox(), init), steps[|steps| - 1]);
    }
  }

  /** Since its creation an approved join has visibly written the marker; a crash gives back what it recovers. */
  ghost predicate HubWroteMarker(steps: seq<Step>)
    requires IsRun(FreshBox(), steps)
    decreases |steps|
  {
    steps != [] &&
    var init, step := steps[..|steps| - 1], steps[|steps| - 1];
    var t := AfterRun(FreshBox(), init);
    match step
    case MachineCrash(marker, _, _, _) => marker.Some? && marker.value.HubMarker?
    case JoinMoves(jid, c) => (t.phase.proc.joins[jid].Approved? && !c.markOutcome.Failed?) || HubWroteMarker(init)
    case FinishMoves(_, _) => IsClaimed(t.disk) && HubWroteMarker(init)
    case _ => HubWroteMarker(init)
  }

  /** The marker on disk names a hub. */
  predicate HubOnDisk(d: Disk) { d.marker.now.Some? && d.marker.now.value.HubMarker? }

  lemma JoinAndHubOnDisk(s: State, jid: Jid, c: JoinChoice)
    requires Inv(s) && Enabled(s, JoinMoves(jid, c))
    ensures HubOnDisk(NextJoinMoves(s, jid, c).disk) <==>
              (s.phase.proc.joins[jid].Approved? && !c.markOutcome.Failed?) || HubOnDisk(s.disk)
  {}

  lemma FinishAndHubOnDisk(s: State, tid: Tid, c: FinishChoice)
    requires Inv(s) && Enabled(s, FinishMoves(tid, c))
    ensures HubOnDisk(NextFinishMoves(s, tid, c).disk) <==> IsClaimed(s.disk) && HubOnDisk(s.disk)
  {
    StepAndTheMarker(s, FinishMoves(tid, c));
  }

  /** The marker names a hub exactly when an approved join's write of it reached the rename. */
  lemma {:induction false} HubOnDiskIffWritten(steps: seq<Step>)
    requires IsRun(FreshBox(), steps)
    ensures HubOnDisk(AfterRun(FreshBox(), steps).disk) <==> HubWroteMarker(steps)
  {
    if steps != [] {
      var init, step := steps[..|steps| - 1], steps[|steps| - 1];
      var t := AfterRun(FreshBox(), init);
      FreshBoxInv();
      RunKeepsInv(FreshBox(), init);
      HubOnDiskIffWritten(init);
      if step.JoinMoves? { JoinAndHubOnDisk(t, step.jid, step.jc); }
      else if step.FinishMoves? { FinishAndHubOnDisk(t, step.tid, step.fc); }
      else { StepAndTheMarker(t, step); }
    }
  }

  /**
   Exactly when the marker holds the owner's key: on every claimed box, if and
   only if no approved join's marker write has reached the rename since the claim.
   It is then the key and time of the last commit, which the register holds too.
   */
  lemma {:induction false} MarkerHoldsOwnerIff(steps: seq<Step>)
    requires IsRun(FreshBox(), steps) && IsClaimed(AfterRun(FreshBox(), steps).disk)
    ensures Inv(AfterRun(FreshBox(), steps))
    ensures var t := AfterRun(FreshBox(), steps);
            var m := t.disk.marker.now.value;
            && t.hist.commits != []
            && (m == MarkerOf(Last(t.hist.commits)) <==> !HubWroteMarker(steps))
            && (!HubWroteMarker(steps) ==>
                  RegisterOf(t) == Tentative(m.ownerPubkey) || RegisterOf(t) == Claimed(m.ownerPubkey))
  {
    RunKeepsMarkerNamesOwner(steps);
    HubOnDiskIffWritten(steps);
    var t := AfterRun(FreshBox(), steps);
    assert Some(t.disk.marker.now.value) in t.disk.marker.mayBe;
  }

  /** A settled claim whose marker a hub join has replaced: the owner's key is no longer in it. */
  lemma HubReplacesOwnerKey(me: Identity, secret: Array16, id: ChallengeId, nonce: Nonce,
                            owner: Array32, creds: Credentials)
    returns (t: State)
    ensures Reaches(FreshBox(), t) && Inv(t) && RegisterOf(t) == Claimed(owner)
    ensures t.disk.marker.now == Some(HubMarker(creds.deviceId, creds.accountId, 0))
  {
    var s0 := FreshBox();
    FreshBoxInv();
    ReachesSelf(s0);
    BootReaches(s0, s0, me, true, secret, Synced);
    var u := ClaimAlone(s0, Booted(s0, me, true, secret, Synced), id, nonce, owner,
                        FinishChoice(0, Absent, true, 0, Synced, true, Synced));
    t := JoinAfter(s0, u, creds);
    ReachesKeepsInv(s0, u);
    ReachesKeepsInv(s0, t);
  }

  lemma JoinAfter(s: State, u: State, creds: Credentials) returns (t: State)
    requires Inv(s) && Reaches(s, u) && u.phase.Up? && Settled(u.disk)
    ensures Reaches(s, t) && t.hist.commits == u.hist.commits && Settled(t.disk)
    ensures t.disk.marker.now == Some(HubMarker(creds.deviceId, creds.accountId, 0))
  {
    var c := JoinChoice(Some(creds), 0, Synced, Synced, true, Synced);
    ReachesNext(s, u, JoinArrives(true));
    var u1 := Next(u, JoinArrives(true));
    var jid := u.hist.nextJid;
    ReachesNext(s, u1, JoinMoves(jid, c));
    var u2 := Next(u1, JoinMoves(jid, c));
    ReachesNext(s, u2, JoinMoves(jid, c));
    t := Next(u2, JoinMoves(jid, c));
  }

  // ---- The binding ----

  /** A winner's binding write has reached the rename; a crash gives back what it recovers. */
  ghost predicate BindingWritten(steps: seq<Step>)
    requires IsRun(FreshBox(), steps)
    decreases |steps|
  {
    steps != [] &&
    var init, step := steps[..|steps| - 1], steps[|steps| - 1];
    var t := AfterRun(FreshBox(), init);
    match step
    case MachineCrash(_, _, binding, _) => binding.Some?
    case FinishMoves(tid, c) =>
      (t.phase.proc.finishes[tid].pc.SecretDeleted? && !c.bindOutcome.Failed?) || BindingWritten(init)
    case _ => BindingWritten(init)
  }

  lemma EarlyFinishAndBinding(s: State, tid: Tid, c: FinishChoice)
    requires s.phase.Up? && tid in s.phase.proc.finishes && !Committed(s.phase.proc.finishes[tid].pc)
    ensures NextFinishMoves(s, tid, c).disk.binding.now == s.disk.binding.now
  {
    if s.phase.proc.finishes[tid].pc.CustodyKnown? {
      if c.markOutcome.Synced? {} else {}
    } else {
      EarlyMoveLeavesDisk(s, tid, c);
    }
  }

  lemma LateFinishAndBinding(s: State, tid: Tid, c: FinishChoice)
    requires s.phase.Up? && tid in s.phase.proc.finishes && Committed(s.phase.proc.finishes[tid].pc)
    requires s.phase.proc.finishes[tid].req.clientPubkey.Some?
    ensures MoveAfterCommit(s, tid, s.phase.proc.finishes[tid], c).disk.binding.now.Some? <==>
              || (s.phase.proc.finishes[tid].pc.SecretDeleted? && !c.bindOutcome.Failed?)
              || s.disk.binding.now.Some?
  {
    var pc := s.phase.proc.finishes[tid].pc;
    if pc.SecretDeleted? {} else if pc.Marked? {} else if pc.Bound? {} else if pc.Invalidated? {} else {}
  }

  lemma FinishAndBinding(s: State, tid: Tid, c: FinishChoice)
    requires Inv(s) && Enabled(s, FinishMoves(tid, c))
    ensures NextFinishMoves(s, tid, c).disk.binding.now.Some? <==>
              || (s.phase.proc.finishes[tid].pc.SecretDeleted? && !c.bindOutcome.Failed?)
              || s.disk.binding.now.Some?
  {
    var p := s.phase.proc;
    assert FinishOk(s.disk, s.hist, p.me, p.secret, p.lock, tid, p.finishes[tid]);
    if Committed(p.finishes[tid].pc) { LateFinishAndBinding(s, tid, c); } else { EarlyFinishAndBinding(s, tid, c); }
  }

  lemma JoinAndBinding(s: State, jid: Jid, c: JoinChoice)
    requires Inv(s) && Enabled(s, JoinMoves(jid, c))
    ensures NextJoinMoves(s, jid, c).disk.binding.now.Some? <==> s.disk.binding.now.Some?
  {
    assert JoinOk(s.disk, s.hist.commits, s.hist.approved, s.phase.proc.joins[jid]);
  }

  lemma OtherStepAndBinding(s: State, step: Step)
    requires Enabled(s, step) && !step.FinishMoves? && !step.JoinMoves? && !step.MachineCrash?
    ensures Next(s, step).disk.binding.now == s.disk.binding.now
  {}

  /**
   Over all runs, whatever joins, other finishes, reboots and crashes there are:
   a binding exists if and only if a winner's write of it reached the rename.
   */
  lemma {:induction false} BindingExistsIffWritten(steps: seq<Step>)
    requires IsRun(FreshBox(), steps)
    ensures AfterRun(FreshBox(), steps).disk.binding.now.Some? <==> BindingWritten(steps)
  {
    if steps != [] {
      var init, step := steps[..|steps| - 1], steps[|steps| - 1];
      var t := AfterRun(FreshBox(), init);
      FreshBoxInv();
      RunKeepsInv(FreshBox(), init);
      BindingExistsIffWritten(init);
      if step.FinishMoves? { FinishAndBinding(t, step.tid, step.fc); }
      else if step.JoinMoves? { JoinAndBinding(t, step.jid, step.jc); }
      else if !step.MachineCrash? { OtherStepAndBinding(t, step); }
    }
  }

  lemma FinishKeepsBindingDurable(s: State, tid: Tid, c: FinishChoice)
    requires s.disk.binding.Durable() && s.phase.Up? && tid in s.phase.proc.finishes
    ensures NextFinishMoves(s, tid, c).disk.binding.Durable()
  {
    var f := s.phase.proc.finishes[tid];
    if BeforeLock(f.pc) {} else if Committing(f.pc) {} else {}
  }

  lemma StepKeepsBindingDurable(s: State, step: Step)
    requires s.disk.binding.Durable() && Enabled(s, step)
    ensures Next(s, step).disk.binding.Durable()
  {
    if step.FinishMoves? { FinishKeepsBindingDurable(s, step.tid, step.fc); }
  }

  lemma {:induction false} DurableBindingStays(s: State, steps: seq<Step>)
    requires s.disk.binding.Durable() && IsRun(s, steps)
    ensures AfterRun(s, steps).disk.binding.Durable()
  {
    if steps != [] {
      var init := steps[..|steps| - 1];
      DurableBindingStays(s, init);
      StepKeepsBindingDurable(AfterRun(s, init), steps[|steps| - 1]);
    }
  }

  /**
   An owner record is there in every continuation if and only if no crash can
   take it now; with `BindingNeverRewritten` it is then always the same record.
   */
  lemma BindingIsFinalIffDurable(s: State)
    requires Inv(s)
    ensures (forall t :: Reaches(s, t) ==> t.disk.binding.now.Some?) <==> s.disk.binding.Durable()
  {
    if s.disk.binding.Durable() {
      forall t | Reaches(s, t) ensures t.disk.binding.now.Some? {
        var steps :| IsRun(s, steps) && AfterRun(s, steps) == t;
        DurableBindingStays(s, steps);
      }
    } else {
      ReachesSelf(s);
      if s.disk.binding.now.Some? {
        var crash := MachineCrash(s.disk.marker.now, s.disk.secret.now, None, s.disk.creds.now);
        ReachesNext(s, s, crash);
        assert Next(s, crash).disk.binding.now.None?;
      }
    }
  }

  // ---- The hub's device in the binding ----

  /**
   The device of the last join write of the binding that reached the rename since
   the winner's own; a crash gives back what it recovers.
   */
  ghost function DeviceWritten(steps: seq<Step>): Option<DeviceId>
    requires IsRun(FreshBox(), steps)
    decreases |steps|
  {
    if steps == [] then None
    else
      var init := steps[..|steps| - 1];
      var t := AfterRun(FreshBox(), init);
      match steps[|steps| - 1]
      case MachineCrash(_, _, binding, _) => if binding.Some? then binding.value.hubDeviceId else None
      case FinishMoves(tid, c) =>
        if t.phase.proc.finishes[tid].pc.SecretDeleted? && !c.bindOutcome.Failed? then None else DeviceWritten(init)
      case JoinMoves(jid, c) =>
        var j := t.phase.proc.joins[jid];
        if j.Loaded? && !c.bindOutcome.Failed? then Some(j.creds.deviceId) else DeviceWritten(init)
      case _ => DeviceWritten(init)
  }

  lemma LateFinishAndDevice(s: State, tid: Tid, c: FinishChoice)
    requires s.phase.Up? && tid in s.phase.proc.finishes && Committed(s.phase.proc.finishes[tid].pc)
    requires s.phase.proc.finishes[tid].req.clientPubkey.Some?
    ensures var b := MoveAfterCommit(s, tid, s.phase.proc.finishes[tid], c).disk.binding.now;
            if s.phase.proc.finishes[tid].pc.SecretDeleted? && !c.bindOutcome.Failed?
            then b.Some? && b.value.hubDeviceId.None?
            else b == s.disk.binding.now
  {
    var pc := s.phase.proc.finishes[tid].pc;
    if pc.SecretDeleted? {} else if pc.Marked? {} else if pc.Bound? {} else if pc.Invalidated? {} else {}
  }

  lemma FinishAndDevice(s: State, tid: Tid, c: FinishChoice)
    requires Inv(s) && Enabled(s, FinishMoves(tid, c))
    ensures var b := NextFinishMoves(s, tid, c).disk.binding.now;
            if s.phase.proc.finishes[tid].pc.SecretDeleted? && !c.bindOutcome.Failed?
            then b.Some? && b.value.hubDeviceId.None?
            else b == s.disk.binding.now
  {
    var p := s.phase.proc;
    assert FinishOk(s.disk, s.hist, p.me, p.secret, p.lock, tid, p.finishes[tid]);
    if Committed(p.finishes[tid].pc) { LateFinishAndDevice(s, tid, c); } else { EarlyFinishAndBinding(s, tid, c); }
  }

  lemma JoinAndDevice(s: State, jid: Jid, c: JoinChoice)
    requires Inv(s) && Enabled(s, JoinMoves(jid, c))
    ensures var b, j := NextJoinMoves(s, jid, c).disk.binding.now, s.phase.proc.joins[jid];
            if j.Loaded? && !c.bindOutcome.Failed? then b.Some? && b.value.hubDeviceId == Some(j.creds.deviceId)
            else b == s.disk.binding.now
  {
    assert JoinOk(s.disk, s.hist.commits, s.hist.approved, s.phase.proc.joins[jid]);
  }

  /**
   Over all runs: the device a binding names is that of the last join whose write
   of it reached the rename, and none when no join's has.
   */
  lemma {:induction false} BindingNamesLastJoin(steps: seq<Step>)
    requires IsRun(FreshBox(), steps) && AfterRun(FreshBox(), steps).disk.binding.now.Some?
    ensures AfterRun(FreshBox(), steps).disk.binding.now.value.hubDeviceId == DeviceWritten(steps)
  {
    var init, step := steps[..|steps| - 1], steps[|steps| - 1];
    var t := AfterRun(FreshBox(), init);
    FreshBoxInv();
    RunKeepsInv(FreshBox(), init);
    if t.disk.binding.now.Some? { BindingNamesLastJoin(init); }
    if step.FinishMoves? { FinishAndDevice(t, step.tid, step.fc); }
    else if step.JoinMoves? { JoinAndDevice(t, step.jid, step.jc); }
    else if !step.MachineCrash? { OtherStepAndBinding(t, step); }
  }

  // ---- The secret file ----

  /** A secret write reached the rename and no winner has removed it since; a crash gives back what it recovers. */
  ghost predicate SecretKept(steps: seq<Step>)
    requires IsRun(FreshBox(), steps)
    decreases |steps|
  {
    steps != [] &&
    var init, step := steps[..|steps| - 1], steps[|steps| - 1];
    var t := AfterRun(FreshBox(), init);
    match step
    case MachineCrash(_, secret, _, _) => secret.Some?
    case LoadSecret(_, o) => !o.Failed? || SecretKept(init)
    case FinishMoves(tid, c) => !(t.phase.proc.finishes[tid].pc.Marked? && c.removed) && SecretKept(init)
    case _ => SecretKept(init)
  }

  lemma FinishAndSecret(s: State, tid: Tid, c: FinishChoice)
    requires Inv(s) && Enabled(s, FinishMoves(tid, c))
    ensures NextFinishMoves(s, tid, c).disk.secret.now.Some? <==>
              s.disk.secret.now.Some? && !(s.phase.proc.finishes[tid].pc.Marked? && c.removed)
  {
    var p := s.phase.proc;
    var pc := p.finishes[tid].pc;
    assert FinishOk(s.disk, s.hist, p.me, p.secret, p.lock, tid, p.finishes[tid]);
    if pc.CustodyKnown? { MarkerLeavesSecret(s, tid, c); }
    else if !Committed(pc) { EarlyMoveLeavesDisk(s, tid, c); }
    else { LateFinishAndSecret(s, tid, c); }
  }

  lemma LateFinishAndSecret(s: State, tid: Tid, c: FinishChoice)
    requires s.phase.Up? && tid in s.phase.proc.finishes && Committed(s.phase.proc.finishes[tid].pc)
    requires s.phase.proc.finishes[tid].req.clientPubkey.Some?
    ensures MoveAfterCommit(s, tid, s.phase.proc.finishes[tid], c).disk.secret.now.Some? <==>
              s.disk.secret.now.Some? && !(s.phase.proc.finishes[tid].pc.Marked? && c.removed)
  {
    var pc := s.phase.proc.finishes[tid].pc;
    if pc.SecretDeleted? {} else if pc.Marked? {} else if pc.Bound? {} else if pc.Invalidated? {} else {}
  }

  lemma OtherStepAndSecret(s: State, step: Step)
    requires Inv(s) && Enabled(s, step) && !step.FinishMoves? && !step.MachineCrash?
    ensures step.LoadSecret? ==>
              (Next(s, step).disk.secret.now.Some? <==> !step.outcome.Failed? || s.disk.secret.now.Some?)
    ensures !step.LoadSecret? ==> Next(s, step).disk.secret.now == s.disk.secret.now
  {
    assert s.disk.secret.now in s.disk.secret.mayBe;
  }

  /** Over all runs: a secret file exists if and only if one was written and no winner has removed it. */
  lemma {:induction false} SecretExistsIffKept(steps: seq<Step>)
    requires IsRun(FreshBox(), steps)
    ensures AfterRun(FreshBox(), steps).disk.secret.now.Some? <==> SecretKept(steps)
  {
    if steps != [] {
      var init, step := steps[..|steps| - 1], steps[|steps| - 1];
      var t := AfterRun(FreshBox(), init);
      FreshBoxInv();
      RunKeepsInv(FreshBox(), init);
      SecretExistsIffKept(init);
      if step.FinishMoves? { FinishAndSecret(t, step.tid, step.fc); }
      else if !step.MachineCrash? { OtherStepAndSecret(t, step); }
    }
  }
}
