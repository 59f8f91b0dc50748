/**
 When a claim is final, and what a claim leaves behind.

 A visible claim can be undone by a machine crash, and a claimed box may have no
 binding and may keep its secret file. For each there is a run in which it
 happens and the exact condition under which it does.
 */
module ClaimFinality {
  import opened Common
  import opened DurableFile
  import opened ChallengeStore
  import opened Handshake
  import opened Tpm
  import opened ClaimSystem
  import opened ClaimInvariants
  import opened ClaimTheorems
  import opened SoloRuns
  import opened SecretStability

  // ---- A claim that a crash undoes ----

  /** The honest client's finish for a claim. */
  function HonestRequest(id: ChallengeId, claim: Claim): FinishRequest {
    var proof := ClientTag(claim);
    FinishRequest(true, id, Some(claim.owner), Some(proof), Some(Signed(claim.owner, id, proof)), true)
  }

  /** A challenge and an honest proof, on a quiet unclaimed box. */
  lemma ChallengeAlone(s: State, t: State, id: ChallengeId, nonce: Nonce, owner: Array32) returns (u: State)
    requires Inv(s) && Reaches(s, t) && t.phase.Up? && t.phase.proc.finishes == map[] && t.phase.proc.pending == map[]
    requires !IsClaimed(t.disk)
    ensures Reaches(s, u) && Inv(u) && u.disk == t.disk && u.hist == t.hist
    ensures u.phase == Up(t.phase.proc.(pending := map[id := Pending(nonce, CHALLENGE_TTL)]))
    ensures u.net == t.net.(clientProofs := u.net.clientProofs, signatures := u.net.signatures)
    ensures var claim := Claim(t.phase.proc.secret, nonce, owner, t.phase.proc.me.boxKey);
            claim in u.net.clientProofs && SignedFor(u.net, claim, id)
  {
    var p := t.phase.proc;
    var claim := Claim(p.secret, nonce, owner, p.me.boxKey);
    assert Sweep(map[], 0) == map[];
    ReachesNext(s, t, ChallengeArrives(true));
    var t0 := Next(t, ChallengeArrives(true));
    ReachesNext(s, t0, ChallengeInserts(id, nonce, 0, None));
    var t1 := Next(t0, ChallengeInserts(id, nonce, 0, None));
    ReachesNext(s, t1, ClientProves(claim));
    var t2 := Next(t1, ClientProves(claim));
    ReachesNext(s, t2, Signs(Signed(owner, id, ClientTag(claim))));
    u := Next(t2, Signs(Signed(owner, id, ClientTag(claim))));
    ReachesKeepsInv(s, u);
  }

  lemma NoneLeft(tid: Tid, f: Finish)
    ensures map[tid := f] - {tid} == map[]
  {}

  /** An honest claim on a quiet unclaimed box. */
  lemma ClaimAlone(s: State, t: State, id: ChallengeId, nonce: Nonce, owner: Array32, c: FinishChoice)
    returns (u: State)
    requires Inv(s) && Reaches(s, t) && t.phase.Up? && t.phase.proc.finishes == map[] && t.phase.proc.pending == map[]
    requires !IsClaimed(t.disk) && c.now == 0
    ensures Reaches(s, u) && u.phase.Up?
    ensures var p := t.phase.proc;
            u.disk == CommitAttempt(t.disk, map[id := Pending(nonce, CHALLENGE_TTL)], p.me,
                                    Claim(p.secret, nonce, owner, p.me.boxKey), id, c).disk
    ensures u.phase.proc.finishes == map[]
    ensures u.hist.shown == t.hist.shown && u.net.attackerKeys == t.net.attackerKeys
    ensures CustodyFrom(c).Some? && !c.markOutcome.Failed? ==>
              u.hist.commits != [] && Last(u.hist.commits).claim.owner == owner
  {
    var t2 := ChallengeAlone(s, t, id, nonce, owner);
    u := FinishHonestly(t2, id, nonce, owner, c);
    ReachesThrough(s, t2, u);
  }

  lemma FinishHonestly(s: State, id: ChallengeId, nonce: Nonce, owner: Array32, c: FinishChoice) returns (u: State)
    requires Inv(s) && s.phase.Up? && s.phase.proc.finishes == map[] && !IsClaimed(s.disk)
    requires Peeked(s.phase.proc.pending, id, c.now) == Some(nonce)
    requires var claim := Claim(s.phase.proc.secret, nonce, owner, s.phase.proc.me.boxKey);
             claim in s.net.clientProofs && SignedFor(s.net, claim, id)
    ensures Reaches(s, u) && u.phase.Up? && u.phase.proc.finishes == map[]
    ensures var p := s.phase.proc;
            u.disk == CommitAttempt(s.disk, p.pending, p.me, Claim(p.secret, nonce, owner, p.me.boxKey), id, c).disk
    ensures u.hist.shown == s.hist.shown && u.net.attackerKeys == s.net.attackerKeys
    ensures CustodyFrom(c).Some? && !c.markOutcome.Failed? ==>
              u.hist.commits != [] && Last(u.hist.commits).claim.owner == owner
  {
    var p := s.phase.proc;
    var claim := Claim(p.secret, nonce, owner, p.me.boxKey);
    var req := HonestRequest(id, claim);
    InFlight(s);
    assert req.clientProof == Some(ClientTag(claim));
    u := FinishAloneIsRun(s, req, true, c);
    CorrectAttempt(s.disk, p.pending, p.me, claim, req, c);
    NoneLeft(s.hist.nextTid, Next(s, FinishArrives(req, true)).phase.proc.finishes[s.hist.nextTid]);
  }

  /**
   "Claimed" is not final before it is settled. A finish whose marker write fails
   after the rename is answered 500 and leaves the box claimed; a machine crash
   may undo that, and another owner may then claim the box.
   */
  lemma TentativeClaimCanBeLost(me: Identity, secret: Array16, id: ChallengeId, nonce: Nonce,
                                alice: Array32, bob: Array32)
    returns (t: State, u: State)
    ensures Reaches(FreshBox(), t) && Inv(t) && RegisterOf(t) == Tentative(alice)
    ensures Reaches(t, u) && Inv(u) && RegisterOf(u) == Claimed(bob)
  {
    var s0 := FreshBox();
    FreshBoxInv();
    ReachesSelf(s0);
    BootReaches(s0, s0, me, true, secret, Synced);
    t := ClaimAlone(s0, Booted(s0, me, true, secret, Synced), id, nonce, alice,
                    FinishChoice(0, Absent, true, 0, Unsynced, true, Synced));
    ReachesKeepsInv(s0, t);
    u := LoseAndReclaim(t, me, secret, id, nonce, bob);
  }

  lemma LoseAndReclaim(t: State, me: Identity, secret: Array16, id: ChallengeId, nonce: Nonce, bob: Array32)
    returns (u: State)
    requires Inv(t) && t.phase.Up? && None in t.disk.marker.mayBe && secret !in t.net.attackerKeys
    requires Some(secret) in t.disk.secret.mayBe && None in t.disk.binding.mayBe && None in t.disk.creds.mayBe
    ensures Reaches(t, u) && Inv(u) && RegisterOf(u) == Claimed(bob)
  {
    var crash := MachineCrash(None, Some(secret), None, None);
    ReachesSelf(t);
    ReachesNext(t, t, crash);
    var down := Next(t, crash);
    BootReaches(t, down, me, false, secret, Synced);
    u := ClaimAlone(t, Booted(down, me, false, secret, Synced), id, nonce, bob,
                    FinishChoice(0, Absent, true, 0, Synced, true, Synced));
    ReachesKeepsInv(t, u);
  }

  // ---- Exactly when a claim is final ----

  /** No continuation, whatever fails, is ever unclaimed again. */
  ghost predicate ClaimedFromNowOn(s: State) {
    forall t :: Reaches(s, t) ==> IsClaimed(t.disk)
  }

  /** A claimed box stays claimed in every continuation if and only if no crash can take its marker away. */
  lemma ClaimIsFinalIffSettled(s: State)
    requires Inv(s) && IsClaimed(s.disk)
    ensures ClaimedFromNowOn(s) <==> Settled(s.disk)
  {
    if Settled(s.disk) {
      forall t | Reaches(s, t) ensures IsClaimed(t.disk) {
        var steps :| IsRun(s, steps) && AfterRun(s, steps) == t;
        WinnerIsLastForever(s, steps);
      }
    } else {
      var crash := MachineCrash(None, s.disk.secret.now, s.disk.binding.now, s.disk.creds.now);
      ReachesSelf(s);
      ReachesNext(s, s, crash);
      assert !IsClaimed(Next(s, crash).disk);
    }
  }

  // ---- The same condition, in how the writes of the run ended ----

  /** The step makes a write in the state directory that returns `Ok`. */
  predicate Syncs(s: State, step: Step)
    requires Enabled(s, step)
  {
    match step
    case LoadKey(_, written) => written == Some(Synced)
    case LoadSecret(_, o) => !SecretOnDisk(s.disk) && o.Synced?
    case FinishMoves(tid, c) =>
      var f := s.phase.proc.finishes[tid];
      || (f.pc.CustodyKnown? && f.req.clientPubkey.Some? && c.markOutcome.Synced?)
      || (f.pc.SecretDeleted? && f.req.clientPubkey.Some? && c.bindOutcome.Synced?)
    case JoinMoves(jid, c) =>
      (match s.phase.proc.joins[jid]
       case Waiting => false
       case Approved(_) => c.markOutcome.Synced?
       case MarkedHub(_) => c.credsOutcome.Synced?
       case Stored(_) => false
       case Loaded(_, _) => c.bindOutcome.Synced?)
    case _ => false
  }

  /**
   The write that created the marker ended `Unsynced`, after its rename, and
   since then no write in the directory has succeeded and the machine has not crashed.
   */
  ghost predicate ClaimInDoubt(steps: seq<Step>)
    requires IsRun(FreshBox(), steps)
    decreases |steps|
  {
    steps != [] &&
    var init, step := steps[..|steps| - 1], steps[|steps| - 1];
    var t := AfterRun(FreshBox(), init);
    if Syncs(t, step) || step.MachineCrash? then false
    else (!IsClaimed(t.disk) && IsClaimed(Next(t, step).disk)) || ClaimInDoubt(init)
  }

  lemma FinishAndSettled(s: State, tid: Tid, c: FinishChoice)
    requires Inv(s) && Enabled(s, FinishMoves(tid, c)) && IsClaimed(NextFinishMoves(s, tid, c).disk)
    ensures Settled(NextFinishMoves(s, tid, c).disk) <==>
              Syncs(s, FinishMoves(tid, c)) || (IsClaimed(s.disk) && Settled(s.disk))
  {
    var p := s.phase.proc;
    var pc := p.finishes[tid].pc;
    assert FinishOk(s.disk, s.hist, p.me, p.secret, p.lock, tid, p.finishes[tid]);
    if BeforeLock(pc) || pc.Locked? || pc.Rechecked? || pc.TpmPresent? { EarlyMoveLeavesDisk(s, tid, c); }
    else if pc.CustodyKnown? {}
    else { assert Settled(s.disk); WinnerIsLast(s, FinishMoves(tid, c)); }
  }

  lemma JoinAndSettled(s: State, jid: Jid, c: JoinChoice)
    requires Inv(s) && Enabled(s, JoinMoves(jid, c))
    ensures var d := NextJoinMoves(s, jid, c).disk;
            IsClaimed(s.disk) && IsClaimed(d) && (Settled(d) <==> Syncs(s, JoinMoves(jid, c)) || Settled(s.disk))
  {
    assert JoinOk(s.disk, s.hist.commits, s.hist.approved, s.phase.proc.joins[jid]);
  }

  lemma StepAndSettled(s: State, step: Step)
    requires Inv(s) && Enabled(s, step) && IsClaimed(Next(s, step).disk)
    ensures Settled(Next(s, step).disk) <==>
              Syncs(s, step) || step.MachineCrash? || (IsClaimed(s.disk) && Settled(s.disk))
  {
    if step.FinishMoves? { FinishAndSettled(s, step.tid, step.fc); }
    else if step.JoinMoves? { JoinAndSettled(s, step.jid, step.jc); }
    else { StepAndTheMarker(s, step); }
  }

  /** A visible claim can be lost exactly while the write that made it is in doubt. */
  lemma {:induction false} LosableIffClaimInDoubt(steps: seq<Step>)
    requires IsRun(FreshBox(), steps) && IsClaimed(AfterRun(FreshBox(), steps).disk)
    ensures Settled(AfterRun(FreshBox(), steps).disk) <==> !ClaimInDoubt(steps)
  {
    var init, step := steps[..|steps| - 1], steps[|steps| - 1];
    var t := AfterRun(FreshBox(), init);
    FreshBoxInv();
    RunKeepsInv(FreshBox(), init);
    StepAndSettled(t, step);
    if IsClaimed(t.disk) { LosableIffClaimInDoubt(init); }
  }

  /** So a claimed box is claimed for ever if and only if its claim is not in doubt. */
  lemma {:induction false} FinalIffNotInDoubt(steps: seq<Step>)
    requires IsRun(FreshBox(), steps) && IsClaimed(AfterRun(FreshBox(), steps).disk)
    ensures ClaimedFromNowOn(AfterRun(FreshBox(), steps)) <==> !ClaimInDoubt(steps)
  {
    FreshBoxInv();
    RunKeepsInv(FreshBox(), steps);
    LosableIffClaimInDoubt(steps);
    ClaimIsFinalIffSettled(AfterRun(FreshBox(), steps));
  }

  // ---- Runs without a half-written marker ----

  /** No finish of the run had its marker write fail after the rename. */
  predicate NoHalfWrittenMarker(steps: seq<Step>) {
    forall k :: 0 <= k < |steps| && steps[k].FinishMoves? ==> !steps[k].fc.markOutcome.Unsynced?
  }

  /** Then a claim is final as soon as it is visible, and only one finish ever created the marker. */
  ghost predicate OneFinalCommit(s: State) {
    && |s.hist.commits| <= 1
    && (s.hist.commits != [] ==> Won(s.hist.commits))
    && (IsClaimed(s.disk) ==> Settled(s.disk))
  }

  lemma StepKeepsOneFinalCommit(s: State, step: Step)
    requires Inv(s) && OneFinalCommit(s) && Enabled(s, step)
    requires step.FinishMoves? ==> !step.fc.markOutcome.Unsynced?
    ensures OneFinalCommit(Next(s, step))
  {
    StepKeepsInv(s, step);
    StepAndTheMarker(s, step);
    if step.FinishMoves? { SyncedOrNoCommit(s, step.tid, step.fc); }
  }

  lemma SyncedOrNoCommit(s: State, tid: Tid, c: FinishChoice)
    requires s.phase.Up? && tid in s.phase.proc.finishes && !c.markOutcome.Unsynced?
    ensures var h := NextFinishMoves(s, tid, c).hist;
            h.commits == s.hist.commits || (h.commits != [] && Last(h.commits).synced)
  {
    var f := s.phase.proc.finishes[tid];
    if BeforeLock(f.pc) {} else if Committing(f.pc) {} else {}
  }

  /** At most one finish of a run ever replaces an absent marker, and its claim is final at once. */
  lemma {:induction false} OneCommitUnlessHalfWritten(steps: seq<Step>)
    requires IsRun(FreshBox(), steps) && NoHalfWrittenMarker(steps)
    ensures OneFinalCommit(AfterRun(FreshBox(), steps))
  {
    if steps != [] {
      var init := steps[..|steps| - 1];
      OneCommitUnlessHalfWritten(init);
      FreshBoxInv();
      RunKeepsInv(FreshBox(), init);
      StepKeepsOneFinalCommit(AfterRun(FreshBox(), init), steps[|steps| - 1]);
    }
  }

  // ---- What a claim leaves behind ----

  /**
   After a 200 a binding exists exactly when its write reached the rename, and
   is durable exactly when it returned `Ok`; the secret file is still there
   exactly when it was and its removal failed.
   */
  lemma LeftBehind(disk: Disk, pending: Store, me: Identity, claim: Claim, id: ChallengeId, c: FinishChoice)
    requires disk.binding.now.None?
    requires CommitAttempt(disk, pending, me, claim, id, c).status.Claimed200?
    ensures var d := CommitAttempt(disk, pending, me, claim, id, c).disk;
            && Settled(d)
            && (d.binding.now.Some? <==> !c.bindOutcome.Failed?)
            && (d.binding.Durable() <==> c.bindOutcome.Synced?)
            && (d.secret.now.Some? <==> disk.secret.now.Some? && !c.removed)
  {}

  /** A settled claim without a binding, whose secret file is still on disk. */
  lemma ClaimWithoutBinding(me: Identity, secret: Array16, id: ChallengeId, nonce: Nonce, owner: Array32)
    returns (t: State)
    ensures Reaches(FreshBox(), t) && Inv(t) && RegisterOf(t) == Claimed(owner)
    ensures BindingLost(t) && Settled(t.disk) && t.disk.secret.now == Some(secret)
  {
    var s0 := FreshBox();
    FreshBoxInv();
    ReachesSelf(s0);
    BootReaches(s0, s0, me, true, secret, Synced);
    t := ClaimAlone(s0, Booted(s0, me, true, secret, Synced), id, nonce, owner,
                    FinishChoice(0, Absent, true, 0, Synced, false, Failed));
    ReachesKeepsInv(s0, t);
  }

  /** A missing binding stays missing also on a claim that is not settled, until a machine crashes. */
  lemma {:induction false} MissingUntilCrash(s: State, steps: seq<Step>)
    requires Inv(s) && IsRun(s, steps) && BindingLost(s)
    requires forall k :: 0 <= k < |steps| ==> !steps[k].MachineCrash?
    ensures BindingLost(AfterRun(s, steps))
  {
    if steps != [] {
      var init, step := steps[..|steps| - 1], steps[|steps| - 1];
      RunKeepsInv(s, init);
      MissingUntilCrash(s, init);
      StepAndTheMarker(AfterRun(s, init), step);
      StepLeavesBindingLost(AfterRun(s, init), step);
    }
  }
}
