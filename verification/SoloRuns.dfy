/**
 Requests that run without interference: what one `finish` and one hub join do
 from start to end, as a function of what they find, proved to be runs of the
 step system. The handlers are verified against these functions.
 */
module SoloRuns {
  import opened Common
  import opened DurableFile
  import opened ChallengeStore
  import opened Handshake
  import opened LocalAccountBinding
  import opened Tpm
  import opened ClaimSystem
  import opened ClaimInvariants
  import opened ClaimTheorems

  // ---- Reachability ----

  ghost predicate Reaches(s: State, t: State) {
    exists steps :: IsRun(s, steps) && AfterRun(s, steps) == t
  }

  lemma ReachesSelf(s: State)
    ensures Reaches(s, s)
  {
    assert IsRun(s, []) && AfterRun(s, []) == s;
  }

  lemma ReachesNext(s: State, t: State, step: Step)
    requires Reaches(s, t) && Enabled(t, step)
    ensures Reaches(s, Next(t, step))
  {
    var steps :| IsRun(s, steps) && AfterRun(s, steps) == t;
    assert (steps + [step])[..|steps|] == steps;
    assert IsRun(s, steps + [step]) && AfterRun(s, steps + [step]) == Next(t, step);
  }

  lemma ReachesKeepsInv(s: State, t: State)
    requires Inv(s) && Reaches(s, t)
    ensures Inv(t)
  {
    var steps :| IsRun(s, steps) && AfterRun(s, steps) == t;
    RunKeepsInv(s, steps);
  }

  // ---- One finish ----

  /**
   What one finish answers and leaves behind: `discard` is the result of its TPM
   discard if it tried one, `marked` the owner it wrote into the marker, `proved`
   the handshake its box proof confirms.
   */
  datatype Attempt = Attempt(
    status: Status, disk: Disk, pending: Store, discard: Option<bool>, marked: Option<Array32>, proved: Option<Claim>)

  function CustodyFrom(c: FinishChoice): Option<TpmCustodyState> {
    match c.presence
    case Present => if c.discardOk then Some(LockoutDiscarded) else None
    case Absent => Some(NoTpmPresent)
    case PresentButUnavailable => None
  }

  /** The critical section of a verified finish on an unclaimed box. */
  function CommitAttempt(disk: Disk, pending: Store, me: Identity, claim: Claim,
                         id: ChallengeId, c: FinishChoice): Attempt {
    var custody := CustodyFrom(c);
    var discard := if c.presence.Present? then Some(c.discardOk) else None;
    if custody.None? then Attempt(Internal500, disk, pending, discard, None, None)
    else
      var marked := PutMarker(disk, LocalMarker(claim.owner, c.atMs), c.markOutcome);
      var owner := if c.markOutcome.Failed? then None else Some(claim.owner);
      if !c.markOutcome.Synced? then Attempt(Internal500, marked, pending, discard, owner, None)
      else
        var binding := NewActiveLocal(me.hostId, claim.owner, me.deviceName, c.atMs, custody.value);
        var disk' := PutBinding(DeleteSecret(marked, c.removed), binding, c.bindOutcome);
        Attempt(Claimed200, disk', pending - {id}, discard, owner, Some(claim))
  }

  function Refused(status: Status, disk: Disk, pending: Store): Attempt {
    Attempt(status, disk, pending, None, None, None)
  }

  /** Everything under the commit lock: the authoritative re-check, then the commit. */
  function CriticalSection(disk: Disk, pending: Store, me: Identity, claim: Claim,
                           id: ChallengeId, c: FinishChoice): Attempt {
    if IsClaimed(disk) then Refused(AlreadyClaimed409, disk, pending)
    else CommitAttempt(disk, pending, me, claim, id, c)
  }

  /** What the checks before the lock conclude: a refusal, or the handshake they found proved. */
  datatype Judgement = Fails(status: Status) | Proves(claim: Claim)

  function Judged(disk: Disk, pending: Store, me: Identity, secret: Bytes, req: FinishRequest, now: nat): Judgement {
    if IsClaimed(disk) then Fails(AlreadyClaimed409)
    else if !req.wellFormed then Fails(Malformed400)
    else
      var nonce := Peeked(pending, req.id, now);
      if nonce.None? then Fails(ChallengeNotFound410)
      else
        var verdict := Verdict(req, nonce.value, me.boxKey, secret);
        if verdict.Some? then Fails(verdict.value)
        else Proves(Claim(secret, nonce.value, req.clientPubkey.value, me.boxKey))
  }

  function FinishAttempt(disk: Disk, pending: Store, me: Identity, secret: Bytes,
                         req: FinishRequest, withinBudget: bool, c: FinishChoice): Attempt {
    if !withinBudget then Refused(RateLimited429, disk, pending)
    else
      match Judged(disk, pending, me, secret, req, c.now)
      case Fails(status) => Refused(status, disk, pending)
      case Proves(claim) => CriticalSection(disk, pending, me, claim, req.id, c)
  }

  // ---- Driving one finish through its steps ----

  function Rank(pc: Pc): (r: nat)
    ensures 1 <= r <= 13
  {
    match pc
    case Admitted => 13 case Checked => 12 case NonceRead => 11 case Verified => 10
    case Locked => 9 case Rechecked => 8 case TpmPresent => 7 case CustodyKnown => 6
    case Marked => 5 case SecretDeleted => 4 case Bound => 3 case Invalidated => 2 case Released => 1
  }

  function RankOf(s: State, tid: Tid): nat {
    if s.phase.Up? && tid in s.phase.proc.finishes then Rank(s.phase.proc.finishes[tid].pc) else 0
  }

  lemma MoveDescends(s: State, tid: Tid, c: FinishChoice)
    requires s.phase.Up? && tid in s.phase.proc.finishes
    ensures NextFinishMoves(s, tid, c).phase.Up? && RankOf(NextFinishMoves(s, tid, c), tid) < RankOf(s, tid)
  {
    var f := s.phase.proc.finishes[tid];
    if BeforeLock(f.pc) { UnlockedDescends(s, tid, c); }
    else if Committing(f.pc) { CommittingDescends(s, tid, c); }
    else { CommittedDescends(s, tid, c); }
  }

  lemma UnlockedDescends(s: State, tid: Tid, c: FinishChoice)
    requires s.phase.Up? && tid in s.phase.proc.finishes && BeforeLock(s.phase.proc.finishes[tid].pc)
    ensures var s' := MoveUnlocked(s, tid, s.phase.proc.finishes[tid], c);
            s'.phase.Up? && RankOf(s', tid) < RankOf(s, tid)
  {}

  lemma CommittingDescends(s: State, tid: Tid, c: FinishChoice)
    requires s.phase.Up? && tid in s.phase.proc.finishes && Committing(s.phase.proc.finishes[tid].pc)
    ensures var s' := MoveToCommit(s, tid, s.phase.proc.finishes[tid], c);
            s'.phase.Up? && RankOf(s', tid) < RankOf(s, tid)
  {}

  lemma CommittedDescends(s: State, tid: Tid, c: FinishChoice)
    requires s.phase.Up? && tid in s.phase.proc.finishes && Committed(s.phase.proc.finishes[tid].pc)
    ensures var s' := MoveAfterCommit(s, tid, s.phase.proc.finishes[tid], c);
            s'.phase.Up? && RankOf(s', tid) < RankOf(s, tid)
  {}

  predicate CanMove(s: State, tid: Tid) {
    s.phase.Up? && tid in s.phase.proc.finishes && (s.phase.proc.finishes[tid].pc.Verified? ==> s.phase.proc.lock.None?)
  }

  function Drive(s: State, tid: Tid, c: FinishChoice): State
    decreases RankOf(s, tid)
  {
    if !CanMove(s, tid) then s
    else
      MoveDescends(s, tid, c);
      Drive(NextFinishMoves(s, tid, c), tid, c)
  }

  lemma {:induction false} DriveReaches(s: State, t: State, tid: Tid, c: FinishChoice)
    requires Reaches(s, t)
    ensures Reaches(s, Drive(t, tid, c))
    decreases RankOf(t, tid)
  {
    if CanMove(t, tid) {
      MoveDescends(t, tid, c);
      ReachesNext(s, t, FinishMoves(tid, c));
      DriveReaches(s, NextFinishMoves(t, tid, c), tid, c);
    }
  }

  /** `t` is `s` after finish `tid` has been answered as `a` says and is gone. */
  predicate Answered(s: State, t: State, tid: Tid, a: Attempt) {
    && s.phase.Up? && t.phase.Up?
    && t.disk == a.disk && t.phase.proc.pending == a.pending
    && tid in t.hist.responses && t.hist.responses[tid] == a.status
    && t.phase.proc.finishes == s.phase.proc.finishes - {tid}
    && t.phase.proc.me == s.phase.proc.me && t.phase.proc.secret == s.phase.proc.secret
    && t.phase.proc.joins == s.phase.proc.joins && t.phase.proc.lock.None?
    && t.net == s.net.(boxProofs := s.net.boxProofs + (if a.proved.Some? then {a.proved.value} else {}))
    && t.hist.nextTid == s.hist.nextTid && t.hist.shown == s.hist.shown
    && t.hist.discards == s.hist.discards + (if a.discard.Some? then [Discard(tid, a.discard.value, false)] else [])
    && CommitsAfter(s.hist.commits, t.hist.commits, a)
  }

  predicate CommitsAfter(before: seq<Commit>, after: seq<Commit>, a: Attempt) {
    if a.marked.None? then after == before
    else
      && |after| == |before| + 1 && after[..|before|] == before
      && Last(after).claim.owner == a.marked.value && (Last(after).synced <==> a.proved.Some?)
  }

  lemma DriveOnce(s: State, tid: Tid, c: FinishChoice)
    requires CanMove(s, tid)
    ensures Drive(s, tid, c) == Drive(NextFinishMoves(s, tid, c), tid, c)
  {}

  lemma DriveGone(s: State, tid: Tid, c: FinishChoice)
    requires s.phase.Up? && tid !in s.phase.proc.finishes
    ensures Drive(s, tid, c) == s
  {}

  /** After the marker write: the rest of the critical section and the answer. */
  lemma DriveMarked(s: State, tid: Tid, c: FinishChoice)
    requires s.phase.Up? && tid in s.phase.proc.finishes && s.phase.proc.lock == Some(tid)
    requires var f := s.phase.proc.finishes[tid]; f.pc.Marked? && f.req.clientPubkey.Some?
    ensures var p, f := s.phase.proc, s.phase.proc.finishes[tid];
            var claim := ClaimOf(p.me, p.secret, f).value;
            var disk := PutBinding(DeleteSecret(s.disk, c.removed), BindingOf(p.me, claim.owner, f), c.bindOutcome);
            Answered(s, Drive(s, tid, c), tid,
                     Attempt(Claimed200, disk, p.pending - {f.req.id}, None, None, Some(claim)))
  {
    var s1 := NextFinishMoves(s, tid, c);
    var s2 := NextFinishMoves(s1, tid, c);
    var s3 := NextFinishMoves(s2, tid, c);
    var s4 := NextFinishMoves(s3, tid, c);
    var s5 := NextFinishMoves(s4, tid, c);
    DriveOnce(s, tid, c);
    DriveOnce(s1, tid, c);
    DriveOnce(s2, tid, c);
    DriveOnce(s3, tid, c);
    DriveOnce(s4, tid, c);
    DriveGone(s5, tid, c);
    assert s5.phase.proc.finishes == s.phase.proc.finishes - {tid};
  }

  /** From the custody decision. */
  lemma DriveCustody(s: State, tid: Tid, c: FinishChoice)
    requires s.phase.Up? && tid in s.phase.proc.finishes && s.phase.proc.lock == Some(tid)
    requires var f := s.phase.proc.finishes[tid]; f.pc.CustodyKnown? && f.req.clientPubkey.Some?
    requires CustodyFrom(c) == Some(s.phase.proc.finishes[tid].custody)
    ensures var p, f := s.phase.proc, s.phase.proc.finishes[tid];
            Answered(s, Drive(s, tid, c), tid,
                     CommitAttempt(s.disk, p.pending, p.me, ClaimOf(p.me, p.secret, f).value, f.req.id, c)
                     .(discard := None))
  {
    var s' := NextFinishMoves(s, tid, c);
    DriveOnce(s, tid, c);
    if c.markOutcome.Synced? { DriveMarked(s', tid, c); } else { DriveGone(s', tid, c); }
  }

  /** From the lock: re-check, TPM, commit. */
  lemma DriveLocked(s: State, tid: Tid, c: FinishChoice)
    requires s.phase.Up? && tid in s.phase.proc.finishes && s.phase.proc.lock == Some(tid) && !IsClaimed(s.disk)
    requires var f := s.phase.proc.finishes[tid]; f.pc.Locked? && f.req.clientPubkey.Some?
    ensures var p, f := s.phase.proc, s.phase.proc.finishes[tid];
            Answered(s, Drive(s, tid, c), tid,
                     CommitAttempt(s.disk, p.pending, p.me, ClaimOf(p.me, p.secret, f).value, f.req.id, c))
  {
    var s1 := NextFinishMoves(s, tid, c);
    var s2 := NextFinishMoves(s1, tid, c);
    DriveOnce(s, tid, c);
    DriveOnce(s1, tid, c);
    match c.presence
    case Absent => DriveCustody(s2, tid, c);
    case PresentButUnavailable => DriveGone(s2, tid, c);
    case Present => DriveDiscard(s2, tid, c);
  }

  /** From a TPM found present. */
  lemma DriveDiscard(s: State, tid: Tid, c: FinishChoice)
    requires s.phase.Up? && tid in s.phase.proc.finishes && s.phase.proc.lock == Some(tid) && !IsClaimed(s.disk)
    requires var f := s.phase.proc.finishes[tid]; f.pc.TpmPresent? && f.req.clientPubkey.Some?
    requires c.presence.Present?
    ensures var p, f := s.phase.proc, s.phase.proc.finishes[tid];
            Answered(s, Drive(s, tid, c), tid,
                     CommitAttempt(s.disk, p.pending, p.me, ClaimOf(p.me, p.secret, f).value, f.req.id, c))
  {
    var s' := NextFinishMoves(s, tid, c);
    DriveOnce(s, tid, c);
    if c.discardOk { DriveCustody(s', tid, c); } else { DriveGone(s', tid, c); }
  }

  /**
   The critical section is atomic for other finishes: a finish that has passed
   its checks and takes the lock, on whatever disk it then finds, ends as
   `CriticalSection` says.
   */
  lemma DriveVerified(s: State, tid: Tid, c: FinishChoice)
    requires s.phase.Up? && tid in s.phase.proc.finishes && s.phase.proc.lock.None?
    requires var f := s.phase.proc.finishes[tid]; f.pc.Verified? && f.req.clientPubkey.Some?
    ensures var p, f := s.phase.proc, s.phase.proc.finishes[tid];
            Answered(s, Drive(s, tid, c), tid,
                     CriticalSection(s.disk, p.pending, p.me, ClaimOf(p.me, p.secret, f).value, f.req.id, c))
  {
    var s1 := NextFinishMoves(s, tid, c);
    DriveOnce(s, tid, c);
    if IsClaimed(s.disk) {
      DriveOnce(s1, tid, c);
      DriveGone(NextFinishMoves(s1, tid, c), tid, c);
    } else {
      DriveLocked(s1, tid, c);
    }
  }

  /** From the unlocked checks. */
  lemma DriveAdmitted(s: State, tid: Tid, c: FinishChoice)
    requires s.phase.Up? && tid in s.phase.proc.finishes && s.phase.proc.lock.None?
    requires s.phase.proc.finishes[tid].pc.Admitted?
    ensures var p, f := s.phase.proc, s.phase.proc.finishes[tid];
            Answered(s, Drive(s, tid, c), tid, FinishAttempt(s.disk, p.pending, p.me, p.secret, f.req, true, c))
  {
    var p, f := s.phase.proc, s.phase.proc.finishes[tid];
    var s1 := NextFinishMoves(s, tid, c);
    DriveOnce(s, tid, c);
    if IsClaimed(s.disk) {
      DriveGone(s1, tid, c);
    } else {
      var s2 := NextFinishMoves(s1, tid, c);
      DriveOnce(s1, tid, c);
      if !f.req.wellFormed || Peeked(p.pending, f.req.id, c.now).None? {
        DriveGone(s2, tid, c);
      } else {
        DriveNonceRead(s2, tid, c);
      }
    }
  }

  lemma DriveNonceRead(s: State, tid: Tid, c: FinishChoice)
    requires s.phase.Up? && tid in s.phase.proc.finishes && s.phase.proc.lock.None? && !IsClaimed(s.disk)
    requires s.phase.proc.finishes[tid].pc.NonceRead?
    ensures var p, f := s.phase.proc, s.phase.proc.finishes[tid];
            var verdict := Verdict(f.req, f.nonce, p.me.boxKey, p.secret);
            Answered(s, Drive(s, tid, c), tid,
              if verdict.Some? then Refused(verdict.value, s.disk, p.pending)
              else CommitAttempt(s.disk, p.pending, p.me, ClaimOf(p.me, p.secret, f).value, f.req.id, c))
  {
    var p, f := s.phase.proc, s.phase.proc.finishes[tid];
    var s1 := NextFinishMoves(s, tid, c);
    DriveOnce(s, tid, c);
    if Verdict(f.req, f.nonce, p.me.boxKey, p.secret).Some? {
      DriveGone(s1, tid, c);
    } else {
      DriveVerified(s1, tid, c);
    }
  }

  /** A finish that meets no other finish is a run of the step system with the outcome `FinishAttempt` gives. */
  lemma FinishAloneIsRun(s: State, req: FinishRequest, withinBudget: bool, c: FinishChoice) returns (t: State)
    requires s.phase.Up? && s.phase.proc.lock.None? && Enabled(s, FinishArrives(req, withinBudget))
    requires s.hist.nextTid !in s.phase.proc.finishes
    ensures Reaches(s, t)
    ensures var p := s.phase.proc;
            Answered(Next(s, FinishArrives(req, withinBudget)), t, s.hist.nextTid,
                     FinishAttempt(s.disk, p.pending, p.me, p.secret, req, withinBudget, c))
  {
    var tid, s1 := s.hist.nextTid, Next(s, FinishArrives(req, withinBudget));
    ReachesSelf(s);
    ReachesNext(s, s, FinishArrives(req, withinBudget));
    if withinBudget {
      DriveAdmitted(s1, tid, c);
      DriveReaches(s, s1, tid, c);
      t := Drive(s1, tid, c);
    } else {
      t := s1;
    }
  }

  // ---- One challenge ----

  /** A challenge request that meets no other: refused without a trace, or its challenge is pending for 120 seconds. */
  lemma ChallengeAloneIsRun(s: State, admitted: bool, id: ChallengeId, nonce: Nonce, now: nat,
                            victim: Option<ChallengeId>) returns (t: State)
    requires s.phase.Up? && MayEvict(s.phase.proc.pending, now, victim)
    ensures Reaches(s, t)
    ensures s.disk.marker.now.Some? || !admitted ==> t == s
    ensures s.disk.marker.now.None? && admitted ==>
      && t.phase.Up? && t == SetProc(s, s.phase.proc.(pending := t.phase.proc.pending))
      && t.phase.proc.pending == Inserted(s.phase.proc.pending, id, nonce, now, 120_000_000_000, victim)
      && t.phase.proc.pending[id] == Pending(nonce, now + 120_000_000_000)
  {
    ReachesSelf(s);
    ReachesNext(s, s, ChallengeArrives(admitted));
    t := Next(s, ChallengeArrives(admitted));
    if !IsClaimed(s.disk) && admitted {
      ReachesNext(s, t, ChallengeInserts(id, nonce, now, victim));
      t := Next(t, ChallengeInserts(id, nonce, now, victim));
    }
  }

  // ---- One hub join ----

  /** What an approved, rejected or failed join leaves on disk. */
  function JoinAttempt(disk: Disk, c: JoinChoice): Disk {
    if c.approved.None? then disk
    else
      var creds := c.approved.value;
      var marked := PutMarker(disk, HubMarker(creds.deviceId, creds.accountId, c.atMs), c.markOutcome);
      if !c.markOutcome.Synced? then marked
      else
        var stored := PutCreds(marked, creds, c.credsOutcome);
        if !c.credsOutcome.Synced? || !c.loadOk || stored.binding.now.None? then stored
        else PutBinding(stored, WithHubJoin(stored.binding.now.value, creds.deviceId), c.bindOutcome)
  }

  function JoinRank(s: State, jid: Jid): nat {
    if s.phase.Up? && jid in s.phase.proc.joins then
      match s.phase.proc.joins[jid]
      case Waiting => 5 case Approved(_) => 4 case MarkedHub(_) => 3 case Stored(_) => 2 case Loaded(_, _) => 1
    else 0
  }

  function DriveJoin(s: State, jid: Jid, c: JoinChoice): State
    decreases JoinRank(s, jid)
  {
    if s.phase.Up? && jid in s.phase.proc.joins then DriveJoin(NextJoinMoves(s, jid, c), jid, c) else s
  }

  lemma {:induction false} DriveJoinReaches(s: State, t: State, jid: Jid, c: JoinChoice)
    requires Reaches(s, t)
    ensures Reaches(s, DriveJoin(t, jid, c))
    decreases JoinRank(t, jid)
  {
    if t.phase.Up? && jid in t.phase.proc.joins {
      ReachesNext(s, t, JoinMoves(jid, c));
      DriveJoinReaches(s, NextJoinMoves(t, jid, c), jid, c);
    }
  }

  /** `t` is `s` after join `jid`, just `approved` by the hub or not, has left `disk` and is gone. */
  predicate Joined(s: State, t: State, jid: Jid, approved: Option<Credentials>, disk: Disk) {
    && s.phase.Up? && t.disk == disk && t.net == s.net
    && t.phase == Up(s.phase.proc.(joins := s.phase.proc.joins - {jid}))
    && t.hist == s.hist.(approved := s.hist.approved + (if approved.Some? then {approved.value} else {}))
  }

  lemma DriveStored(s: State, jid: Jid, c: JoinChoice)
    requires s.phase.Up? && jid in s.phase.proc.joins && s.phase.proc.joins[jid].Stored?
    ensures var creds := s.phase.proc.joins[jid].creds;
            Joined(s, DriveJoin(s, jid, c), jid, None,
                   if !c.loadOk || s.disk.binding.now.None? then s.disk
                   else PutBinding(s.disk, WithHubJoin(s.disk.binding.now.value, creds.deviceId), c.bindOutcome))
  {
    var s1 := NextJoinMoves(s, jid, c);
    if c.loadOk && s.disk.binding.now.Some? {
      var s2 := NextJoinMoves(s1, jid, c);
      assert DriveJoin(s, jid, c) == DriveJoin(s1, jid, c) == DriveJoin(s2, jid, c) == s2;
      assert s2.phase.proc.joins == s.phase.proc.joins - {jid};
    } else {
      assert DriveJoin(s, jid, c) == s1;
    }
  }

  /** A hub join that meets no other join is a run of the step system that leaves what `JoinAttempt` says. */
  lemma JoinAloneIsRun(s: State, jid: Jid, c: JoinChoice) returns (t: State)
    requires s.phase.Up? && jid in s.phase.proc.joins && s.phase.proc.joins[jid].Waiting?
    ensures Reaches(s, t) && Joined(s, t, jid, c.approved, JoinAttempt(s.disk, c))
  {
    ReachesSelf(s);
    DriveJoinReaches(s, s, jid, c);
    t := DriveJoin(s, jid, c);
    var s1 := NextJoinMoves(s, jid, c);
    assert t == DriveJoin(s1, jid, c);
    if c.approved.Some? {
      var s2 := NextJoinMoves(s1, jid, c);
      assert t == DriveJoin(s2, jid, c);
      if c.markOutcome.Synced? {
        var s3 := NextJoinMoves(s2, jid, c);
        assert t == DriveJoin(s3, jid, c);
        if c.credsOutcome.Synced? { DriveStored(s3, jid, c); }
      }
    }
    assert t.phase.proc.joins == s.phase.proc.joins - {jid};
  }

  // ---- One boot ----

  /** What a boot leaves on disk, the secret it serves with, and whether it displays it; `None` if it exits. */
  datatype Boot = Boot(disk: Disk, secret: Option<Bytes>, displayed: bool)

  function BootAttempt(disk: Disk, keyWritten: Option<WriteOutcome>, generated: Array16, o: WriteOutcome): Boot {
    var disk1 := if keyWritten.Some? then DirSync(disk, keyWritten.value) else disk;
    var onDisk := disk1.secret.now;
    if keyWritten.Some? && !keyWritten.value.Synced? then Boot(disk1, None, false)
    else if onDisk.Some? && |onDisk.value| == 16 then Boot(disk1, onDisk, !IsClaimed(disk1))
    else if o.Synced? then Boot(PutSecret(disk1, generated, o), Some(generated), !IsClaimed(disk1))
    else Boot(PutSecret(disk1, generated, o), None, false)
  }

  /** A boot is a run of the step system with the outcome `BootAttempt` gives. */
  lemma BootIsRun(s: State, me: Identity, keyWritten: Option<WriteOutcome>, generated: Array16, o: WriteOutcome)
    returns (t: State)
    requires s.phase.Down? && generated !in s.net.attackerKeys
    ensures Reaches(s, t)
    ensures var b := BootAttempt(s.disk, keyWritten, generated, o);
            && t.disk == b.disk
            && t.phase == (if b.secret.None? then Down
                           else Up(Process(me, b.secret.value, map[], None, 0, map[], map[])))
            && |t.hist.shown| == |s.hist.shown| + (if b.displayed then 1 else 0)
            && (b.displayed ==> t.hist.shown[|s.hist.shown|].secret == b.secret.value)
  {
    ReachesSelf(s);
    ReachesNext(s, s, LoadKey(me, keyWritten));
    t := Next(s, LoadKey(me, keyWritten));
    if t.phase.KeyLoaded? {
      ReachesNext(s, t, ReadClaimed);
      t := Next(t, ReadClaimed);
      ReachesNext(s, t, LoadSecret(generated, o));
      t := Next(t, LoadSecret(generated, o));
    }
  }

  // ---- A correct finish succeeds ----

  /** A request whose proof and signature are the honest client's for this challenge. */
  predicate Correct(req: FinishRequest, claim: Claim) {
    && req.wellFormed && req.clientPubkey == Some(claim.owner) && req.keyOnCurve
    && req.clientProof == Some(ClientTag(claim))
    && req.clientSig == Some(Signed(claim.owner, req.id, ClientTag(claim)))
  }

  /** A correct request on an unclaimed box passes every check: only the critical section decides. */
  lemma CorrectAttempt(disk: Disk, pending: Store, me: Identity, claim: Claim, req: FinishRequest, c: FinishChoice)
    requires !IsClaimed(disk) && claim.boxKey == me.boxKey && Correct(req, claim)
    requires Peeked(pending, req.id, c.now) == Some(claim.nonce)
    ensures FinishAttempt(disk, pending, me, claim.secret, req, true, c)
         == CommitAttempt(disk, pending, me, claim, req.id, c)
  {
    assert Verdict(req, claim.nonce, me.boxKey, claim.secret).None?;
  }

  /** The environment lets the commit through. */
  predicate Cooperative(c: FinishChoice) { CustodyFrom(c).Some? && c.markOutcome.Synced? }

  /**
   A correct finish on an unclaimed box is answered 200 and makes its sender the
   owner: the challenge must be pending and alive, the request within budget,
   the TPM step and the marker write must succeed.
   */
  lemma CorrectFinishSucceeds(s: State, req: FinishRequest, nonce: Nonce, owner: Array32, c: FinishChoice)
    returns (t: State)
    requires Inv(s) && s.phase.Up? && s.phase.proc.lock.None? && !IsClaimed(s.disk)
    requires var p := s.phase.proc;
             && Correct(req, Claim(p.secret, nonce, owner, p.me.boxKey))
             && Claim(p.secret, nonce, owner, p.me.boxKey) in s.net.clientProofs
             && SignedFor(s.net, Claim(p.secret, nonce, owner, p.me.boxKey), req.id)
             && Peeked(p.pending, req.id, c.now) == Some(nonce)
    requires Cooperative(c)
    ensures Reaches(s, t) && Inv(t)
    ensures s.hist.nextTid in t.hist.responses && t.hist.responses[s.hist.nextTid] == Claimed200
    ensures Won(t.hist.commits) && Last(t.hist.commits).claim.owner == owner && Settled(t.disk)
  {
    var p := s.phase.proc;
    InFlight(s);
    t := FinishAloneIsRun(s, req, true, c);
    ReachesKeepsInv(s, t);
    var claim := Claim(p.secret, nonce, owner, p.me.boxKey);
    CorrectAttempt(s.disk, p.pending, p.me, claim, req, c);
    assert claim in t.net.boxProofs;
  }

  /**
   A typo does not burn onboarding: after any interleaving of finishes that all
   end in a refusal, a correct finish on the same challenge still succeeds.
   */
  lemma {:induction false} RetrySucceeds(s: State, failed: seq<Step>, req: FinishRequest,
                                         nonce: Nonce, owner: Array32, c: FinishChoice)
    returns (t: State)
    requires Inv(s) && s.phase.Up? && s.phase.proc.finishes == map[] && !IsClaimed(s.disk) && IsRun(s, failed)
    requires forall k :: 0 <= k < |failed| ==> FinishStep(failed[k])
    requires var m := AfterRun(s, failed);
             forall tid :: s.hist.nextTid <= tid < m.hist.nextTid ==>
               tid in m.hist.responses && BurnsNothing(m.hist.responses[tid])
    requires var p := s.phase.proc;
             && Correct(req, Claim(p.secret, nonce, owner, p.me.boxKey))
             && Claim(p.secret, nonce, owner, p.me.boxKey) in s.net.clientProofs
             && SignedFor(s.net, Claim(p.secret, nonce, owner, p.me.boxKey), req.id)
             && Peeked(p.pending, req.id, c.now) == Some(nonce)
    requires Cooperative(c)
    ensures Reaches(s, t)
    ensures exists tid :: tid in t.hist.responses && tid !in s.hist.responses && t.hist.responses[tid] == Claimed200
    ensures Won(t.hist.commits) && Last(t.hist.commits).claim.owner == owner
  {
    var m := AfterRun(s, failed);
    FailedAttemptsBurnNothing(s, failed);
    FinishRunKeepsNet(s, failed);
    t := CorrectFinishSucceeds(m, req, nonce, owner, c);
    ReachesThrough(s, m, t);
    FinishRunEffects(s, failed);
    var tid := m.hist.nextTid;
    assert tid in t.hist.responses && t.hist.responses[tid] == Claimed200;
    assert tid !in s.hist.responses;
  }

  lemma {:induction false} FinishRunKeepsNet(s: State, steps: seq<Step>)
    requires s.phase.Up? && IsRun(s, steps)
    requires forall k :: 0 <= k < |steps| ==> FinishStep(steps[k])
    ensures AfterRun(s, steps).phase.Up? && s.net.clientProofs <= AfterRun(s, steps).net.clientProofs
    ensures s.net.signatures <= AfterRun(s, steps).net.signatures
  {
    if steps != [] {
      var init, step := steps[..|steps| - 1], steps[|steps| - 1];
      FinishRunKeepsNet(s, init);
      assert FinishStep(step);
      if step.FinishMoves? { MoveKeepsClientProofs(AfterRun(s, init), step.tid, step.fc); }
    }
  }

  lemma MoveKeepsClientProofs(s: State, tid: Tid, c: FinishChoice)
    requires s.phase.Up? && tid in s.phase.proc.finishes
    ensures var s' := NextFinishMoves(s, tid, c);
            && s'.phase.Up? && s'.net.clientProofs == s.net.clientProofs && s'.net.signatures == s.net.signatures
  {
    var f := s.phase.proc.finishes[tid];
    if BeforeLock(f.pc) {} else if Committing(f.pc) {} else {}
  }

  lemma ReachesThrough(s: State, m: State, t: State)
    requires Reaches(m, t) && Reaches(s, m)
    ensures Reaches(s, t)
  {
    var more :| IsRun(m, more) && AfterRun(m, more) == t;
    ReachesAlong(s, m, more);
  }

  lemma {:induction false} ReachesAlong(s: State, m: State, more: seq<Step>)
    requires Reaches(s, m) && IsRun(m, more)
    ensures Reaches(s, AfterRun(m, more))
    decreases |more|
  {
    if more != [] {
      var init := more[..|more| - 1];
      ReachesAlong(s, m, init);
      ReachesNext(s, AfterRun(m, init), more[|more| - 1]);
    }
  }
}
