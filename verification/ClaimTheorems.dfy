/** The promises of the claim protocol, for every run from a fresh box. */
module ClaimTheorems {
  import opened Common
  import opened DurableFile
  import opened Handshake
  import opened ClaimSystem
  import opened ClaimInvariants

  // ---- Steps and the winner ----

  /** The marker is left alone, or merely settled by another file's write. */
  predicate MarkerKept(s: State, s': State) {
    && s'.hist.commits == s.hist.commits
    && (s'.disk.marker == s.disk.marker || s'.disk.marker == s.disk.marker.Settled())
  }

  /** The marker of a commit: its owner's key and its time. */
  function MarkerOf(c: Commit): Marker { LocalMarker(c.claim.owner, c.binding.createdAtMs) }

  /** The marker is created by a finish, with one new commit, and names its owner. */
  ghost predicate MarkerCreated(s: State, s': State, tid: Tid) {
    && s.phase.Up? && tid in s.phase.proc.finishes && !IsClaimed(s.disk)
    && |s'.hist.commits| == |s.hist.commits| + 1
    && s.phase.proc.finishes[tid].req.clientPubkey == Some(Last(s'.hist.commits).claim.owner)
    && s'.hist.commits[..|s.hist.commits|] == s.hist.commits && Last(s'.hist.commits).tid == tid
    && exists o: WriteOutcome :: !o.Failed? && Last(s'.hist.commits).synced == o.Synced?
                              && s'.disk.marker == s.disk.marker.Put(MarkerOf(Last(s'.hist.commits)), o)
  }

  lemma CommittingAndTheMarker(s: State, tid: Tid, c: FinishChoice)
    requires Inv(s) && s.phase.Up? && tid in s.phase.proc.finishes && Committing(s.phase.proc.finishes[tid].pc)
    ensures var s' := MoveToCommit(s, tid, s.phase.proc.finishes[tid], c);
            MarkerKept(s, s') || MarkerCreated(s, s', tid)
  {
    var p := s.phase.proc;
    var f := p.finishes[tid];
    assert FinishOk(s.disk, s.hist, p.me, p.secret, p.lock, tid, f);
    if f.pc.CustodyKnown? && ClaimOf(p.me, p.secret, f).Some? && !c.markOutcome.Failed? {
      var s' := MoveToCommit(s, tid, f, c);
      assert s'.disk.marker == s.disk.marker.Put(MarkerOf(Last(s'.hist.commits)), c.markOutcome);
    }
  }

  lemma CommittedAndTheMarker(s: State, tid: Tid, c: FinishChoice)
    requires s.phase.Up? && tid in s.phase.proc.finishes
    ensures MarkerKept(s, MoveAfterCommit(s, tid, s.phase.proc.finishes[tid], c))
  {}

  lemma JoinAndTheMarker(s: State, jid: Jid, c: JoinChoice)
    requires Inv(s) && s.phase.Up? && jid in s.phase.proc.joins
    ensures IsClaimed(s.disk)
    ensures HubRewrite(s, NextJoinMoves(s, jid, c)) || MarkerKept(s, NextJoinMoves(s, jid, c))
  {
    assert JoinOk(s.disk, s.hist.commits, s.hist.approved, s.phase.proc.joins[jid]);
    if s.phase.proc.joins[jid].Approved? {
      var creds := s.phase.proc.joins[jid].creds;
      var m := HubMarker(creds.deviceId, creds.accountId, c.atMs);
      assert NextJoinMoves(s, jid, c).disk.marker == s.disk.marker.Put(m, c.markOutcome);
    }
  }

  /** The only step that creates the marker, or adds a commit, is a finish on an unclaimed box. */
  lemma StepAndTheMarker(s: State, step: Step)
    requires Inv(s) && Enabled(s, step)
    ensures || (step.FinishMoves? && MarkerCreated(s, Next(s, step), step.tid))
            || (step.JoinMoves? && IsClaimed(s.disk) && HubRewrite(s, Next(s, step)))
            || (step.MachineCrash? && Next(s, step).hist.commits == s.hist.commits
                && Next(s, step).disk.marker == s.disk.marker.Recovered(step.marker))
            || MarkerKept(s, Next(s, step))
  {
    if step.FinishMoves? {
      var f := s.phase.proc.finishes[step.tid];
      if BeforeLock(f.pc) {
      } else if Committing(f.pc) {
        CommittingAndTheMarker(s, step.tid, step.fc);
      } else {
        CommittedAndTheMarker(s, step.tid, step.fc);
      }
    } else if step.JoinMoves? {
      JoinAndTheMarker(s, step.jid, step.jc);
    }
  }

  /** An approved hub join overwrites the marker of a claimed box, or tries to; the commits are not touched. */
  ghost predicate HubRewrite(s: State, s': State) {
    && s'.hist.commits == s.hist.commits
    && exists m: Marker, o: WriteOutcome ::
         && m.HubMarker? && Credentials(m.deviceId, m.accountId) in s.hist.approved
         && s'.disk.marker == s.disk.marker.Put(m, o)
  }

  /** Once no crash can lose the marker, no step adds a commit and no crash can lose it later. */
  lemma WinnerIsLast(s: State, step: Step)
    requires Inv(s) && Enabled(s, step) && Settled(s.disk)
    ensures Next(s, step).hist.commits == s.hist.commits && Settled(Next(s, step).disk)
  {
    StepAndTheMarker(s, step);
  }

  lemma {:induction false} WinnerIsLastForever(s: State, steps: seq<Step>)
    requires Inv(s) && IsRun(s, steps) && Settled(s.disk)
    ensures AfterRun(s, steps).hist.commits == s.hist.commits && Settled(AfterRun(s, steps).disk)
  {
    if steps != [] {
      var init := steps[..|steps| - 1];
      WinnerIsLastForever(s, init);
      RunKeepsInv(s, init);
      WinnerIsLast(AfterRun(s, init), steps[|steps| - 1]);
    }
  }

  // ---- The owner register ----

  /** `Tentative`: the marker is visible, but a machine crash may still take it away. */
  datatype Register = Unclaimed | Tentative(owner: Array32) | Claimed(owner: Array32)

  ghost function RegisterOf(s: State): Register
    requires Inv(s)
  {
    if !IsClaimed(s.disk) then Unclaimed
    else if Settled(s.disk) then Claimed(Last(s.hist.commits).claim.owner)
    else Tentative(Last(s.hist.commits).claim.owner)
  }

  /** All the register ever does; `asked` is the key of the finish that moves, if one does. */
  ghost predicate RegisterStep(r: Register, r': Register, step: Step, asked: Option<Array32>) {
    || r' == r
    || (r.Unclaimed? && step.FinishMoves? && asked.Some?
        && (r' == Tentative(asked.value) || r' == Claimed(asked.value)))
    || (r.Tentative? && r' == Claimed(r.owner))
    || (r.Tentative? && r' == Unclaimed && step.MachineCrash?)
  }

  /**
   Every step of every interleaving moves the owner register as described: only
   a local finish leaves `Unclaimed`, nothing leaves `Claimed` or changes an
   owner, and only a machine crash can lose a claim whose write failed to sync.
   */
  lemma {:induction false} RefinesRegister(s: State, step: Step)
    requires Inv(s) && Enabled(s, step)
    ensures Inv(Next(s, step))
    ensures var asked := if step.FinishMoves? then s.phase.proc.finishes[step.tid].req.clientPubkey else None;
            RegisterStep(RegisterOf(s), RegisterOf(Next(s, step)), step, asked)
  {
    StepKeepsInv(s, step);
    StepAndTheMarker(s, step);
  }

  /** `Claimed` is for ever, with the same owner. */
  lemma {:induction false} ClaimedForever(s: State, steps: seq<Step>)
    requires Inv(s) && IsRun(s, steps) && RegisterOf(s).Claimed?
    ensures Inv(AfterRun(s, steps)) && RegisterOf(AfterRun(s, steps)) == RegisterOf(s)
  {
    RunKeepsInv(s, steps);
    WinnerIsLastForever(s, steps);
  }

  /** At most one finish is ever answered 200, and it is the one whose owner the register holds. */
  lemma {:induction false} OneSuccess(steps: seq<Step>, tid: Tid, other: Tid)
    requires IsRun(FreshBox(), steps)
    ensures var t := AfterRun(FreshBox(), steps);
            var ok := (x: Tid) => x in t.hist.responses && t.hist.responses[x].Claimed200?;
            && Inv(t)
            && (ok(tid) && ok(other) ==> tid == other)
            && (ok(tid) ==>
                  && Last(t.hist.commits).tid == tid && Last(t.hist.commits).synced
                  && RegisterOf(t) == Claimed(Last(t.hist.commits).claim.owner))
  {
    FreshBoxInv();
    RunKeepsInv(FreshBox(), steps);
  }

  predicate IsLast(commits: seq<Commit>, tid: Tid) { Won(commits) && Last(commits).tid == tid }

  /** On a claimed box, every answer but the winner's own is a refusal, and the step that gives it has no effect. */
  lemma StepRefusesOthers(s: State, step: Step, tid: Tid)
    requires Inv(s) && Enabled(s, step) && IsClaimed(s.disk) && !IsLast(s.hist.commits, tid)
    requires tid in Next(s, step).hist.responses
    ensures if tid in s.hist.responses then Next(s, step).hist.responses[tid] == s.hist.responses[tid]
            else BurnsNothing(Next(s, step).hist.responses[tid]) && NoEffect(s, Next(s, step))
  {
    match step
    case FinishMoves(mover, c) => MoveRefusesOthers(s, mover, c, tid);
    case _ =>
  }

  lemma UnlockedAnswer(s: State, tid: Tid, c: FinishChoice)
    requires s.phase.Up? && tid in s.phase.proc.finishes && BeforeLock(s.phase.proc.finishes[tid].pc)
    ensures var r := NextFinishMoves(s, tid, c).hist.responses;
            r == s.hist.responses || (tid in r && r == s.hist.responses[tid := r[tid]] && BurnsNothing(r[tid]))
  {
    var pc := s.phase.proc.finishes[tid].pc;
    if pc.Admitted? {} else if pc.Checked? {} else if pc.NonceRead? {} else {}
  }

  lemma MoveRefusesOthers(s: State, mover: Tid, c: FinishChoice, tid: Tid)
    requires Inv(s) && Enabled(s, FinishMoves(mover, c)) && IsClaimed(s.disk) && !IsLast(s.hist.commits, tid)
    requires tid in NextFinishMoves(s, mover, c).hist.responses
    ensures var s' := NextFinishMoves(s, mover, c);
            if tid in s.hist.responses then s'.hist.responses[tid] == s.hist.responses[tid]
            else BurnsNothing(s'.hist.responses[tid]) && NoEffect(s, s')
  {
    var p := s.phase.proc;
    var f := p.finishes[mover];
    assert FinishOk(s.disk, s.hist, p.me, p.secret, p.lock, mover, f);
    if BeforeLock(f.pc) {
      UnlockedAnswer(s, mover, c);
      UnlockedHasNoEffect(s, mover, c);
    } else if Committed(f.pc) {
      CommittedAnswer(s, mover, c);
    }
  }

  lemma CommittedAnswer(s: State, tid: Tid, c: FinishChoice)
    requires s.phase.Up? && tid in s.phase.proc.finishes
    ensures var r := MoveAfterCommit(s, tid, s.phase.proc.finishes[tid], c).hist.responses;
            r == s.hist.responses || (tid in r && r == s.hist.responses[tid := r[tid]])
  {}

  /** The same over runs: once no crash can undo the claim, everyone but the winner is refused for ever. */
  lemma {:induction false} OthersRefusedForever(s: State, steps: seq<Step>, tid: Tid)
    requires Inv(s) && Settled(s.disk) && IsRun(s, steps)
    requires tid !in s.hist.responses && tid in AfterRun(s, steps).hist.responses && !IsLast(s.hist.commits, tid)
    ensures BurnsNothing(AfterRun(s, steps).hist.responses[tid])
  {
    if steps != [] {
      var init := steps[..|steps| - 1];
      RunKeepsInv(s, init);
      WinnerIsLastForever(s, init);
      if tid in AfterRun(s, init).hist.responses { OthersRefusedForever(s, init, tid); }
      StepRefusesOthers(AfterRun(s, init), steps[|steps| - 1], tid);
    }
  }

  // ---- The binding ----

  /** In every reachable state a binding is the winner's own record, up to the id of an approved hub join. */
  lemma {:induction false} OwnerStability(steps: seq<Step>)
    requires IsRun(FreshBox(), steps) && AfterRun(FreshBox(), steps).disk.binding.now.Some?
    ensures var t := AfterRun(FreshBox(), steps);
            var b, w := t.disk.binding.now.value, t.hist.commits;
            && Won(w)
            && b.ownerPubkey == Some(Last(w).claim.owner) && b.principalId == Last(w).claim.owner
            && b.tpmCustody == Some(Last(w).custody) && b.createdAtMs == Last(w).binding.createdAtMs
            && (b.hubDeviceId.Some? ==>
                  exists creds :: creds in t.hist.approved && b.hubDeviceId == Some(creds.deviceId))
            && b.(hubDeviceId := None) == Last(w).binding
  {
    FreshBoxInv();
    RunKeepsInv(FreshBox(), steps);
    var t := AfterRun(FreshBox(), steps);
    assert Some(t.disk.binding.now.value) in t.disk.binding.mayBe;
    assert CommitOk(t.hist, t.hist.commits[|t.hist.commits| - 1]);
  }

  /** Between any two states of a run, only the hub's device id can differ. */
  lemma {:induction false} BindingNeverRewritten(s: State, steps: seq<Step>)
    requires Inv(s) && IsRun(s, steps) && s.disk.binding.now.Some? && AfterRun(s, steps).disk.binding.now.Some?
    ensures var b, b' := s.disk.binding.now.value, AfterRun(s, steps).disk.binding.now.value;
            b' == b.(hubDeviceId := b'.hubDeviceId)
  {
    var t := AfterRun(s, steps);
    RunKeepsInv(s, steps);
    assert Some(s.disk.binding.now.value) in s.disk.binding.mayBe;
    assert Some(t.disk.binding.now.value) in t.disk.binding.mayBe;
    WinnerIsLastForever(s, steps);
  }

  predicate MayWriteBinding(pc: Pc) { pc.Marked? || pc.SecretDeleted? }

  /** The winner has not written its binding yet. */
  predicate WinnerRunning(s: State) {
    s.phase.Up? && exists tid :: tid in s.phase.proc.finishes && MayWriteBinding(s.phase.proc.finishes[tid].pc)
  }

  /** The box is claimed, no binding exists, and nobody is left to write one. */
  predicate BindingLost(s: State) {
    IsClaimed(s.disk) && s.disk.binding.now.None? && !WinnerRunning(s)
  }

  /** The disk is left alone, no other finish moves, and finish `tid` is not about to write a binding. */
  predicate WritesNothing(s: State, s': State, tid: Tid)
    requires s.phase.Up?
  {
    && s'.disk == s.disk && s'.phase.Up?
    && (tid in s'.phase.proc.finishes ==> !MayWriteBinding(s'.phase.proc.finishes[tid].pc))
    && s'.phase.proc.finishes - {tid} == s.phase.proc.finishes - {tid}
  }

  lemma UnlockedWritesNothing(s: State, tid: Tid, c: FinishChoice)
    requires s.phase.Up? && tid in s.phase.proc.finishes && BeforeLock(s.phase.proc.finishes[tid].pc)
    ensures WritesNothing(s, NextFinishMoves(s, tid, c), tid)
  {
    var pc := s.phase.proc.finishes[tid].pc;
    if pc.Admitted? {} else if pc.Checked? {} else if pc.NonceRead? {} else {}
  }

  lemma LockedWritesNothing(s: State, tid: Tid, c: FinishChoice)
    requires s.phase.Up? && tid in s.phase.proc.finishes && s.phase.proc.finishes[tid].pc.Locked?
    ensures WritesNothing(s, NextFinishMoves(s, tid, c), tid)
  {}

  lemma ReleasedWritesNothing(s: State, tid: Tid, c: FinishChoice)
    requires s.phase.Up? && tid in s.phase.proc.finishes && Committed(s.phase.proc.finishes[tid].pc)
    requires !MayWriteBinding(s.phase.proc.finishes[tid].pc)
    ensures WritesNothing(s, NextFinishMoves(s, tid, c), tid)
  {
    var pc := s.phase.proc.finishes[tid].pc;
    if pc.Bound? {} else if pc.Invalidated? {} else {}
  }

  /** On a claimed box a finish changes the disk only between its marker and its binding. */
  lemma OnlyWinnerWrites(s: State, tid: Tid, c: FinishChoice)
    requires Inv(s) && Enabled(s, FinishMoves(tid, c)) && IsClaimed(s.disk)
    requires !MayWriteBinding(s.phase.proc.finishes[tid].pc)
    ensures WritesNothing(s, Next(s, FinishMoves(tid, c)), tid)
  {
    var p := s.phase.proc;
    var f := p.finishes[tid];
    assert FinishOk(s.disk, s.hist, p.me, p.secret, p.lock, tid, f);
    if BeforeLock(f.pc) { UnlockedWritesNothing(s, tid, c); }
    else if f.pc.Locked? { LockedWritesNothing(s, tid, c); }
    else { ReleasedWritesNothing(s, tid, c); }
  }

  lemma FinishLeavesBindingLost(s: State, tid: Tid, c: FinishChoice)
    requires Inv(s) && Enabled(s, FinishMoves(tid, c)) && BindingLost(s)
    ensures BindingLost(Next(s, FinishMoves(tid, c)))
  {
    OnlyWinnerWrites(s, tid, c);
    var s' := Next(s, FinishMoves(tid, c));
    forall t | t in s'.phase.proc.finishes ensures !MayWriteBinding(s'.phase.proc.finishes[t].pc) {
      if t != tid { assert t in s'.phase.proc.finishes - {tid}; }
    }
  }

  /** A missing binding stays missing, as long as the box stays claimed. */
  lemma {:induction false} StepLeavesBindingLost(s: State, step: Step)
    requires Inv(s) && Enabled(s, step) && BindingLost(s) && IsClaimed(Next(s, step).disk)
    ensures BindingLost(Next(s, step))
  {
    match step
    case FinishMoves(tid, c) => FinishLeavesBindingLost(s, tid, c);
    case JoinMoves(jid, _) => assert JoinOk(s.disk, s.hist.commits, s.hist.approved, s.phase.proc.joins[jid]);
    case MachineCrash(_, _, _, _) => assert s.disk.binding.mayBe == {None};
    case _ =>
  }

  /** And once no crash can undo the claim, it stays missing for ever, whatever hub joins and reboots follow. */
  lemma {:induction false} MissingBindingStaysMissing(s: State, steps: seq<Step>)
    requires Inv(s) && IsRun(s, steps) && BindingLost(s) && Settled(s.disk)
    ensures BindingLost(AfterRun(s, steps))
  {
    if steps != [] {
      var init := steps[..|steps| - 1];
      RunKeepsInv(s, init);
      WinnerIsLastForever(s, init);
      MissingBindingStaysMissing(s, init);
      WinnerIsLastForever(s, steps);
      StepLeavesBindingLost(AfterRun(s, init), steps[|steps| - 1]);
    }
  }

  // ---- Hub joins ----

  /** The marker on disk now was created by a finish, at step `k`, and has been there ever since. */
  ghost predicate CreatedAt(s: State, steps: seq<Step>, k: nat)
    requires IsRun(s, steps)
  {
    && k < |steps| && steps[k].FinishMoves?
    && IsRun(s, steps[..k]) && IsRun(s, steps[..k + 1])
    && MarkerCreated(AfterRun(s, steps[..k]), AfterRun(s, steps[..k + 1]), steps[k].tid)
    && AfterRun(s, steps).hist.commits == AfterRun(s, steps[..k + 1]).hist.commits
    && forall j :: k < j <= |steps| ==> IsRun(s, steps[..j]) && IsClaimed(AfterRun(s, steps[..j]).disk)
  }

  /** Every claimed box was claimed by a local finish: the hub's writes never create a marker. */
  lemma {:induction false} ClaimHasItsFinish(s: State, steps: seq<Step>) returns (k: nat)
    requires Inv(s) && !IsClaimed(s.disk) && IsRun(s, steps) && IsClaimed(AfterRun(s, steps).disk)
    ensures CreatedAt(s, steps, k)
  {
    var init := steps[..|steps| - 1];
    RunKeepsInv(s, init);
    ClaimedByFinish(AfterRun(s, init), steps[|steps| - 1]);
    if IsClaimed(AfterRun(s, init).disk) {
      k := ClaimHasItsFinish(s, init);
      CreatedStays(s, steps, k);
    } else {
      k := |steps| - 1;
      CreatedNow(s, steps);
    }
  }

  lemma ClaimedByFinish(s: State, step: Step)
    requires Inv(s) && Enabled(s, step) && IsClaimed(Next(s, step).disk)
    ensures if IsClaimed(s.disk) then Next(s, step).hist.commits == s.hist.commits
            else step.FinishMoves? && MarkerCreated(s, Next(s, step), step.tid)
  {
    StepAndTheMarker(s, step);
  }

  lemma CreatedNow(s: State, steps: seq<Step>)
    requires steps != [] && IsRun(s, steps) && steps[|steps| - 1].FinishMoves?
    requires MarkerCreated(AfterRun(s, steps[..|steps| - 1]), AfterRun(s, steps), steps[|steps| - 1].tid)
    requires IsClaimed(AfterRun(s, steps).disk)
    ensures CreatedAt(s, steps, |steps| - 1)
  {
    assert steps[..|steps|] == steps;
  }

  /** One more step that finds the box claimed and leaves it claimed. */
  lemma CreatedStays(s: State, steps: seq<Step>, k: nat)
    requires steps != [] && IsRun(s, steps) && CreatedAt(s, steps[..|steps| - 1], k)
    requires AfterRun(s, steps).hist.commits == AfterRun(s, steps[..|steps| - 1]).hist.commits
    requires IsClaimed(AfterRun(s, steps).disk)
    ensures CreatedAt(s, steps, k)
  {
    var init := steps[..|steps| - 1];
    assert init[..k] == steps[..k] && init[..k + 1] == steps[..k + 1];
    forall j | k < j <= |steps| ensures IsRun(s, steps[..j]) && IsClaimed(AfterRun(s, steps[..j]).disk) {
      if j == |steps| { assert steps[..j] == steps; } else { assert init[..j] == steps[..j]; }
    }
  }

  /**
   A hub join in flight, or stored credentials, imply a claimed box, and every
   claimed box was claimed by a local finish whose marker has been there since.
   */
  lemma {:induction false} HubNeverEstablishesOwnership(steps: seq<Step>)
    requires IsRun(FreshBox(), steps)
    ensures var t := AfterRun(FreshBox(), steps);
            && (t.phase.Up? && t.phase.proc.joins != map[] ==> IsClaimed(t.disk))
            && (t.disk.creds.now.Some? ==>
                  Settled(t.disk) && t.disk.creds.now.value in t.hist.approved)
            && (IsClaimed(t.disk) ==> exists k :: CreatedAt(FreshBox(), steps, k))
  {
    FreshBoxInv();
    RunKeepsInv(FreshBox(), steps);
    var t := AfterRun(FreshBox(), steps);
    assert t.disk.creds.now in t.disk.creds.mayBe;
    if IsClaimed(t.disk) {
      var k := ClaimHasItsFinish(FreshBox(), steps);
    }
  }

  // ---- The TPM ----

  /** The TPM step fails closed, over all runs. */
  lemma {:induction false} TpmFailsClosed(steps: seq<Step>, k: nat)
    requires IsRun(FreshBox(), steps) && k < |AfterRun(FreshBox(), steps).hist.commits|
    ensures var h := AfterRun(FreshBox(), steps).hist;
            var c := h.commits[k];
            && c.tid in h.detected && !h.detected[c.tid].PresentButUnavailable?
            && (h.detected[c.tid].Absent? <==> c.custody.NoTpmPresent?)
            && (h.detected[c.tid].Present? ==> Discard(c.tid, true, false) in h.discards)
            && c.binding.tpmCustody == Some(c.custody)
            && (forall x :: x in h.discards ==> !x.claimed)
  {
    FreshBoxInv();
    RunKeepsInv(FreshBox(), steps);
    assert CommitOk(AfterRun(FreshBox(), steps).hist, AfterRun(FreshBox(), steps).hist.commits[k]);
  }

  // ---- Mutual agreement ----

  /**
   Over all runs, with a network party that never holds a box's secret: every
   claim the box commits was proved by a holder of that secret for that nonce,
   owner key and box key; and a client that accepts a box proof made with a
   box's secret is right that this box has durably claimed exactly that.
   */
  lemma {:induction false} MutualAgreement(steps: seq<Step>, claim: Claim)
    requires IsRun(FreshBox(), steps)
    ensures var t := AfterRun(FreshBox(), steps);
            && (forall c :: c in t.hist.commits && c.claim == claim ==>
                  && claim in t.net.clientProofs && SignedFor(t.net, claim, c.challenge)
                  && claim.secret in t.net.boxSecrets && claim.secret !in t.net.attackerKeys)
            && (claim in t.net.accepted && claim.secret in t.net.boxSecrets ==>
                  Won(t.hist.commits) && Last(t.hist.commits).claim == claim && Settled(t.disk))
  {
    FreshBoxInv();
    RunKeepsInv(FreshBox(), steps);
  }

  // ---- Failed attempts ----

  /** Nothing outside the finish's own record changes. */
  predicate NoEffect(s: State, s': State) {
    && s.phase.Up? && s'.phase.Up? && s'.disk == s.disk && s'.phase.proc.pending == s.phase.proc.pending
    && s'.hist.discards == s.hist.discards && s'.hist.commits == s.hist.commits && s'.hist.effects == s.hist.effects
  }

  lemma UnlockedHasNoEffect(s: State, tid: Tid, c: FinishChoice)
    requires s.phase.Up? && tid in s.phase.proc.finishes
    ensures NoEffect(s, MoveUnlocked(s, tid, s.phase.proc.finishes[tid], c))
  {}

  lemma CommittingEffects(s: State, tid: Tid, c: FinishChoice)
    requires s.phase.Up? && tid in s.phase.proc.finishes
    ensures var s' := MoveToCommit(s, tid, s.phase.proc.finishes[tid], c);
            s'.hist.effects == s.hist.effects + {tid} || NoEffect(s, s')
  {
    var f := s.phase.proc.finishes[tid];
    if f.pc.Locked? {} else if f.pc.Rechecked? {} else if f.pc.TpmPresent? {} else {}
  }

  /** A finish that changes a file, the challenges or the TPM is on record for it. */
  lemma {:induction false} EffectsAreRecorded(s: State, tid: Tid, c: FinishChoice)
    requires Inv(s) && Enabled(s, FinishMoves(tid, c))
    ensures var s' := Next(s, FinishMoves(tid, c));
            && s.hist.effects <= s'.hist.effects
            && (tid !in s'.hist.effects ==> NoEffect(s, s'))
  {
    var p := s.phase.proc;
    var f := p.finishes[tid];
    if BeforeLock(f.pc) {
      UnlockedHasNoEffect(s, tid, c);
    } else if Committing(f.pc) {
      CommittingEffects(s, tid, c);
    } else {
      assert FinishOk(s.disk, s.hist, p.me, p.secret, p.lock, tid, f);
      assert CommitOk(s.hist, s.hist.commits[|s.hist.commits| - 1]);
      CommittedKeepsEffects(s, tid, c);
    }
  }

  lemma CommittedKeepsEffects(s: State, tid: Tid, c: FinishChoice)
    requires s.phase.Up? && tid in s.phase.proc.finishes
    ensures MoveAfterCommit(s, tid, s.phase.proc.finishes[tid], c).hist.effects == s.hist.effects
  {}

  /** The steps of finishes only. */
  predicate FinishStep(step: Step) { step.FinishArrives? || step.FinishMoves? }

  lemma MovesStayInside(s: State, tid: Tid, c: FinishChoice)
    requires s.phase.Up? && tid in s.phase.proc.finishes
    ensures var s' := NextFinishMoves(s, tid, c);
            && s'.phase.Up? && s'.phase.proc.finishes.Keys <= s.phase.proc.finishes.Keys
            && s'.phase.proc.me == s.phase.proc.me && s'.phase.proc.secret == s.phase.proc.secret
            && s'.hist.nextTid == s.hist.nextTid
  {
    var f := s.phase.proc.finishes[tid];
    if BeforeLock(f.pc) {} else if Committing(f.pc) {} else {}
  }

  /** A run of finishes that begins with none in flight: effects are theirs, and no record means no effect. */
  lemma {:induction false} FinishRunEffects(s: State, steps: seq<Step>)
    requires Inv(s) && s.phase.Up? && s.phase.proc.finishes == map[] && IsRun(s, steps)
    requires forall k :: 0 <= k < |steps| ==> FinishStep(steps[k])
    ensures var t := AfterRun(s, steps);
            && t.phase.Up? && t.phase.proc.me == s.phase.proc.me && t.phase.proc.secret == s.phase.proc.secret
            && s.hist.effects <= t.hist.effects
            && (forall tid :: tid in t.phase.proc.finishes ==> tid >= s.hist.nextTid)
            && (forall tid :: tid in t.hist.effects && tid !in s.hist.effects ==> tid >= s.hist.nextTid)
            && t.hist.nextTid >= s.hist.nextTid
            && (t.hist.effects == s.hist.effects ==> NoEffect(s, t))
  {
    if steps != [] {
      var init, step := steps[..|steps| - 1], steps[|steps| - 1];
      FinishRunEffects(s, init);
      RunKeepsInv(s, init);
      var m := AfterRun(s, init);
      assert FinishStep(step);
      if step.FinishMoves? {
        EffectsAreRecorded(m, step.tid, step.fc);
        MovesStayInside(m, step.tid, step.fc);
        EffectsOfOneMove(m, step.tid, step.fc);
      }
    }
  }

  lemma EffectsOfOneMove(s: State, tid: Tid, c: FinishChoice)
    requires s.phase.Up? && tid in s.phase.proc.finishes
    ensures NextFinishMoves(s, tid, c).hist.effects <= s.hist.effects + {tid}
  {
    var f := s.phase.proc.finishes[tid];
    if BeforeLock(f.pc) { UnlockedHasNoEffect(s, tid, c); }
    else if Committing(f.pc) { CommittingEffects(s, tid, c); }
    else { CommittedKeepsEffects(s, tid, c); }
  }

  /**
   Failed attempts burn nothing: however many finishes interleave, if every one
   of them ends in 400, 401, 409, 410 or 429, the files, the pending challenges
   and the TPM are as they were.
   */
  lemma {:induction false} FailedAttemptsBurnNothing(s: State, steps: seq<Step>)
    requires Inv(s) && s.phase.Up? && s.phase.proc.finishes == map[] && IsRun(s, steps)
    requires forall k :: 0 <= k < |steps| ==> FinishStep(steps[k])
    requires var t := AfterRun(s, steps);
             forall tid :: s.hist.nextTid <= tid < t.hist.nextTid ==>
               tid in t.hist.responses && BurnsNothing(t.hist.responses[tid])
    ensures var t := AfterRun(s, steps);
            && Inv(t) && NoEffect(s, t)
            && t.phase.proc.me == s.phase.proc.me && t.phase.proc.secret == s.phase.proc.secret
            && t.phase.proc.finishes == map[] && t.phase.proc.lock.None?
  {
    var t := AfterRun(s, steps);
    RunKeepsInv(s, steps);
    FinishRunEffects(s, steps);
    assert t.hist.effects == s.hist.effects;
    InFlight(t);
    assert t.phase.proc.finishes.Keys == {};
  }
}
