/** What every reachable state of the claim protocol satisfies, and the proof that every step keeps it. */
module ClaimInvariants {
  import opened Common
  import opened DurableFile
  import opened ChallengeStore
  import opened Handshake
  import opened LocalAccountBinding
  import opened Tpm
  import opened ClaimSystem

  /** No crash can take the claimed marker away any more. */
  predicate Settled(d: Disk) { d.marker.Durable() }

  function Last(commits: seq<Commit>): Commit
    requires commits != []
  {
    commits[|commits| - 1]
  }

  /** There is a commit whose write returned `Ok`; it is then the last one. */
  predicate Won(commits: seq<Commit>) { commits != [] && Last(commits).synced }

  /** The winner's binding as the winner wrote it, or with one approved hub join recorded on it. */
  ghost predicate Faithful(commits: seq<Commit>, approved: set<Credentials>, b: Binding) {
    && Won(commits)
    && (|| b == Last(commits).binding
        || exists creds :: creds in approved && b == WithHubJoin(Last(commits).binding, creds.deviceId))
  }

  // ---- Disk ----

  ghost predicate DiskOk(d: Disk, commits: seq<Commit>, approved: set<Credentials>) {
    && d.marker.Valid() && d.secret.Valid() && d.binding.Valid() && d.creds.Valid()
    && (d.marker.now.None? ==> d.marker.mayBe == {None})
    && (d.marker.now.Some? ==> commits != [])
    && (Won(commits) ==> Settled(d))
    && (forall b :: Some(b) in d.binding.mayBe ==> Faithful(commits, approved, b))
    && (d.binding.now.None? ==> d.binding.mayBe == {None})
    && (forall c :: Some(c) in d.creds.mayBe ==> Settled(d) && c in approved)
  }

  // ---- Finishes and the lock ----

  /** A finish that has committed: the last commit is its own. */
  ghost predicate IsWinner(h: History, me: Identity, secret: Bytes, tid: Tid, f: Finish) {
    && Won(h.commits) && Last(h.commits).tid == tid
    && f.req.clientPubkey.Some?
    && ClaimOf(me, secret, f) == Some(Last(h.commits).claim)
    && BindingOf(me, f.req.clientPubkey.value, f) == Last(h.commits).binding
  }

  /** The custody a finish records is what its own TPM step gave. */
  ghost predicate CustodyOk(h: History, tid: Tid, custody: TpmCustodyState) {
    && tid in h.detected
    && (match custody
        case NoTpmPresent => h.detected[tid] == Absent
        case LockoutDiscarded => h.detected[tid] == Present && Discard(tid, true, false) in h.discards)
  }

  ghost predicate FinishOk(d: Disk, h: History, me: Identity, secret: Bytes, lock: Option<Tid>, tid: Tid, f: Finish) {
    && tid < h.nextTid && tid !in h.responses
    && (lock == Some(tid) <==> Holds(f.pc))
    && (AboutToCommit(f.pc) ==> d.marker.now.None?)
    && (f.pc.TpmPresent? ==> tid in h.detected && h.detected[tid] == Present)
    && (f.pc.CustodyKnown? ==> CustodyOk(h, tid, f.custody))
    && (Committed(f.pc) ==> IsWinner(h, me, secret, tid, f))
    && (BeforeLock(f.pc) || f.pc.Locked? || f.pc.Rechecked? ==> tid !in h.effects)
  }

  /** `but` is a finish in the middle of its step, whose own conditions are left open. */
  ghost predicate FinishesOk(d: Disk, h: History, me: Identity, secret: Bytes, lock: Option<Tid>,
                             finishes: map<Tid, Finish>, but: Option<Tid>) {
    && (forall tid :: tid in finishes && but != Some(tid) ==> FinishOk(d, h, me, secret, lock, tid, finishes[tid]))
    && (lock.Some? ==> lock.value in finishes)
  }

  ghost predicate JoinOk(d: Disk, commits: seq<Commit>, approved: set<Credentials>, j: Join) {
    match j
    case Waiting => true
    case Approved(creds) => creds in approved
    case MarkedHub(creds) => Settled(d) && creds in approved
    case Stored(creds) => Settled(d) && creds in approved
    case Loaded(creds, b) =>
      && Faithful(commits, approved, b) && d.binding.now.Some?
      && creds in approved && b.hubDeviceId == Some(creds.deviceId)
  }

  ghost predicate JoinsOk(d: Disk, commits: seq<Commit>, approved: set<Credentials>, joins: map<Jid, Join>) {
    && (joins != map[] ==> IsClaimed(d))
    && (forall jid :: jid in joins ==> JoinOk(d, commits, approved, joins[jid]))
  }

  // ---- What has happened ----

  predicate BurnsNothing(status: Status) {
    status.Malformed400? || status.InvalidProof401? || status.ChallengeNotFound410?
    || status.RateLimited429? || status.AlreadyClaimed409?
  }

  /** A commit's binding is a new local one: the proven owner everywhere, the custody of the TPM step, no hub. */
  predicate CommitShape(c: Commit) {
    && IsFreshOwnerRecord(c.binding, c.binding.hostId, c.claim.owner, c.binding.localUsername,
                          c.binding.createdAtMs, c.custody)
  }

  ghost predicate CommitOk(h: History, c: Commit) {
    c.tid < h.nextTid && c.tid in h.effects && CustodyOk(h, c.tid, c.custody) && CommitShape(c)
  }

  ghost predicate HistoryOk(h: History) {
    && (forall tid :: tid in h.responses || tid in h.effects ==> tid < h.nextTid)
    && (forall k :: 0 <= k < |h.commits| ==> CommitOk(h, h.commits[k]))
    && (forall k :: 0 <= k < |h.commits| && h.commits[k].synced ==> k == |h.commits| - 1)
    && (forall tid :: tid in h.responses && h.responses[tid].Claimed200? ==>
          Won(h.commits) && Last(h.commits).tid == tid)
    && (forall tid :: tid in h.responses && BurnsNothing(h.responses[tid]) ==> tid !in h.effects)
    && (forall x :: x in h.discards ==> !x.claimed)
  }

  // ---- Secrets and proofs ----

  ghost predicate SecretOk(net: Net, b: Bytes) { |b| == 16 && b in net.boxSecrets }

  ghost predicate NetOk(d: Disk, commits: seq<Commit>, net: Net) {
    && net.attackerKeys !! net.boxSecrets
    && (forall b :: Some(b) in d.secret.mayBe ==> SecretOk(net, b))
    && (forall k :: 0 <= k < |commits| ==>
          && commits[k].claim in net.clientProofs && commits[k].claim.secret in net.boxSecrets
          && SignedFor(net, commits[k].claim, commits[k].challenge))
    && (forall c :: c in net.boxProofs ==> Won(commits) && Last(commits).claim == c)
    && (forall c :: c in net.accepted ==> c in net.boxProofs || c.secret in net.attackerKeys)
  }

  /**
   A finish's proof was derivable and its signature made; once verified, a holder
   of the secret made the proof for this handshake, and the owner signed it.
   */
  ghost predicate ProofOk(net: Net, me: Identity, secret: Bytes, f: Finish) {
    && Sendable(net, f.req)
    && (!f.pc.Admitted? && !f.pc.Checked? && !f.pc.NonceRead? ==> Proven(net, me, secret, f))
  }

  ghost predicate Proven(net: Net, me: Identity, secret: Bytes, f: Finish) {
    var claim := ClaimOf(me, secret, f);
    claim.Some? && claim.value in net.clientProofs && SignedFor(net, claim.value, f.req.id)
  }

  ghost predicate ProofsOk(net: Net, me: Identity, secret: Bytes, finishes: map<Tid, Finish>, but: Option<Tid>) {
    && SecretOk(net, secret)
    && (forall tid :: tid in finishes && but != Some(tid) ==> ProofOk(net, me, secret, finishes[tid]))
  }

  ghost predicate ShownOk(d: Disk, shown: seq<Shown>) {
    forall i :: 0 <= i < |shown| && shown[i].settled ==>
      && (Settled(d) || d.secret.mayBe == {Some(shown[i].secret)})
      && (forall j :: i <= j < |shown| ==> shown[j].secret == shown[i].secret)
  }

  ghost predicate MemoryOk(s: State, but: Option<Tid>) {
    match s.phase
    case ClaimRead(_, already) => already == IsClaimed(s.disk)
    case Up(p) =>
      && FinishesOk(s.disk, s.hist, p.me, p.secret, p.lock, p.finishes, but)
      && JoinsOk(s.disk, s.hist.commits, s.hist.approved, p.joins)
      && ProofsOk(s.net, p.me, p.secret, p.finishes, but)
    case _ => true
  }

  ghost predicate InvBut(s: State, but: Option<Tid>) {
    && DiskOk(s.disk, s.hist.commits, s.hist.approved) && HistoryOk(s.hist) && NetOk(s.disk, s.hist.commits, s.net)
    && ShownOk(s.disk, s.hist.shown) && MemoryOk(s, but)
  }

  ghost predicate Inv(s: State) { InvBut(s, None) }

  lemma FreshBoxInv()
    ensures Inv(FreshBox())
  {}

  // ---- Boot and crash ----

  lemma LoadKeyKeepsInv(s: State, me: Identity, written: Option<WriteOutcome>)
    requires Inv(s) && Enabled(s, LoadKey(me, written))
    ensures Inv(Next(s, LoadKey(me, written)))
  {}

  /** A secret newly written at boot; only an absent or malformed file is replaced. */
  lemma PutSecretKeeps(s: State, generated: Array16, o: WriteOutcome)
    requires Inv(s) && !s.phase.Up? && !s.phase.ClaimRead? && generated !in s.net.attackerKeys
    requires s.disk.secret.now.Some? ==> |s.disk.secret.now.value| != 16
    ensures Inv(WithSecret(s, generated, o))
  {
    var d' := PutSecret(s.disk, generated, o);
    assert s.disk.secret.now in s.disk.secret.mayBe;
    assert ShownOk(d', s.hist.shown) by {
      forall i | 0 <= i < |s.hist.shown| && s.hist.shown[i].settled
        ensures Settled(s.disk)
      {
        assert s.disk.secret.mayBe == {Some(s.hist.shown[i].secret)} ==> s.disk.secret.now.Some?;
      }
    }
  }

  lemma ServingKeeps(s: State, me: Identity, already: bool, secret: Bytes)
    requires Inv(s) && !s.phase.Up? && SecretOk(s.net, secret)
    requires already == IsClaimed(s.disk) && s.disk.secret.now == Some(secret)
    ensures Inv(Serving(s, me, already, secret))
  {
    var s' := Serving(s, me, already, secret);
    if !already {
      forall i | 0 <= i < |s.hist.shown| && s.hist.shown[i].settled
        ensures s.hist.shown[i].secret == secret
      {
        assert s.disk.secret.now in s.disk.secret.mayBe;
      }
      assert ShownOk(s'.disk, s'.hist.shown);
    }
  }

  lemma LoadSecretKeepsInv(s: State, generated: Array16, o: WriteOutcome)
    requires Inv(s) && Enabled(s, LoadSecret(generated, o))
    ensures Inv(Next(s, LoadSecret(generated, o)))
  {
    var onDisk, me, already := s.disk.secret.now, s.phase.me, s.phase.alreadyClaimed;
    assert onDisk in s.disk.secret.mayBe;
    if onDisk.Some? && |onDisk.value| == 16 {
      ServingKeeps(s, me, already, onDisk.value);
    } else {
      var down := s.(phase := Down);
      PutSecretKeeps(down, generated, o);
      var written := WithSecret(down, generated, o);
      if o.Synced? {
        ServingKeeps(written, me, already, generated);
        assert Next(s, LoadSecret(generated, o)) == Serving(written, me, already, generated);
      } else {
        assert Next(s, LoadSecret(generated, o)) == written;
      }
    }
  }

  lemma CrashKeepsInv(s: State, step: Step)
    requires Inv(s) && step.MachineCrash? && Enabled(s, step)
    ensures Inv(Next(s, step))
  {}

  // ---- Requests ----

  lemma ChallengeKeepsInv(s: State, step: Step)
    requires Inv(s) && (step.ChallengeArrives? || step.ChallengeInserts?) && Enabled(s, step)
    ensures Inv(Next(s, step))
  {}

  lemma FinishArrivesKeepsInv(s: State, req: FinishRequest, within: bool)
    requires Inv(s) && Enabled(s, FinishArrives(req, within))
    ensures Inv(Next(s, FinishArrives(req, within)))
  {
    if within { FinishAdmittedKeepsInv(s, req); } else { FinishOverBudgetKeepsInv(s, req); }
  }

  lemma FinishOverBudgetKeepsInv(s: State, req: FinishRequest)
    requires Inv(s) && s.phase.Up?
    ensures Inv(NextFinishArrives(s, req, false))
  {}

  lemma FinishAdmittedKeepsInv(s: State, req: FinishRequest)
    requires Inv(s) && Enabled(s, FinishArrives(req, true))
    ensures Inv(NextFinishArrives(s, req, true))
  {}

  // ---- Finishes: leaving a step ----

  /** A finish goes on. */
  lemma AdvanceKeeps(s: State, tid: Tid, f: Finish)
    requires InvBut(s, Some(tid)) && s.phase.Up? && tid in s.phase.proc.finishes
    requires var p := s.phase.proc;
             FinishOk(s.disk, s.hist, p.me, p.secret, p.lock, tid, f) && ProofOk(s.net, p.me, p.secret, f)
    ensures Inv(Advance(s, tid, f))
  {}

  /** A finish is answered. */
  lemma RespondKeeps(s: State, tid: Tid, status: Status)
    requires InvBut(s, Some(tid)) && s.phase.Up? && tid in s.phase.proc.finishes && tid < s.hist.nextTid
    requires status.Claimed200? ==> Won(s.hist.commits) && Last(s.hist.commits).tid == tid
    requires BurnsNothing(status) ==> tid !in s.hist.effects
    ensures Inv(Respond(s, tid, status))
  {}

  lemma OneOpen(s: State, tid: Tid)
    requires Inv(s)
    ensures InvBut(s, Some(tid))
  {}

  // ---- Finishes: before the lock ----

  /** A proof that passes was made by a holder of the secret, for this very handshake. */
  lemma PassedProofIsGenuine(d: Disk, commits: seq<Commit>, net: Net, me: Identity, secret: Bytes, f: Finish)
    requires NetOk(d, commits, net) && SecretOk(net, secret) && ProofOk(net, me, secret, f)
    requires Verdict(f.req, f.nonce, me.boxKey, secret).None?
    ensures Proven(net, me, secret, f)
  {
    var claim := ClaimOf(me, secret, f).value;
    assert f.req.clientProof.value == ClientTag(claim);
    if c :| c in net.clientProofs && ClientTag(c) == ClientTag(claim) {
      TagsInjective(c, claim);
    } else {
      var c :| c in net.boxProofs && BoxTag(c) == ClientTag(claim);
      TagsInjective(claim, c);
    }
  }

  lemma TakeLockKeeps(s: State, tid: Tid)
    requires Inv(s) && s.phase.Up? && s.phase.proc.lock.None? && tid in s.phase.proc.finishes
    ensures InvBut(SetProc(s, s.phase.proc.(lock := Some(tid))), Some(tid))
  {}

  lemma AdmittedKeepsInv(s: State, tid: Tid, c: FinishChoice)
    requires Inv(s) && s.phase.Up? && tid in s.phase.proc.finishes && s.phase.proc.finishes[tid].pc.Admitted?
    ensures Inv(MoveUnlocked(s, tid, s.phase.proc.finishes[tid], c))
  {
    OneOpen(s, tid);
    if IsClaimed(s.disk) {
      RespondKeeps(s, tid, AlreadyClaimed409);
    } else {
      AdvanceKeeps(s, tid, s.phase.proc.finishes[tid].(pc := Checked));
    }
  }

  lemma CheckedKeepsInv(s: State, tid: Tid, c: FinishChoice)
    requires Inv(s) && s.phase.Up? && tid in s.phase.proc.finishes && s.phase.proc.finishes[tid].pc.Checked?
    ensures Inv(MoveUnlocked(s, tid, s.phase.proc.finishes[tid], c))
  {
    var f := s.phase.proc.finishes[tid];
    var nonce := Peeked(s.phase.proc.pending, f.req.id, c.now);
    OneOpen(s, tid);
    if !f.req.wellFormed { RespondKeeps(s, tid, Malformed400); }
    else if nonce.None? { RespondKeeps(s, tid, ChallengeNotFound410); }
    else { AdvanceKeeps(s, tid, f.(pc := NonceRead, nonce := nonce.value)); }
  }

  lemma NonceReadKeepsInv(s: State, tid: Tid, c: FinishChoice)
    requires Inv(s) && s.phase.Up? && tid in s.phase.proc.finishes && s.phase.proc.finishes[tid].pc.NonceRead?
    ensures Inv(MoveUnlocked(s, tid, s.phase.proc.finishes[tid], c))
  {
    var p := s.phase.proc;
    var f := p.finishes[tid];
    var verdict := Verdict(f.req, f.nonce, p.me.boxKey, p.secret);
    OneOpen(s, tid);
    if verdict.Some? {
      RespondKeeps(s, tid, verdict.value);
    } else {
      PassedProofIsGenuine(s.disk, s.hist.commits, s.net, p.me, p.secret, f);
      AdvanceKeeps(s, tid, f.(pc := Verified));
    }
  }

  lemma VerifiedKeepsInv(s: State, tid: Tid, c: FinishChoice)
    requires Inv(s) && Enabled(s, FinishMoves(tid, c)) && s.phase.proc.finishes[tid].pc.Verified?
    ensures Inv(MoveUnlocked(s, tid, s.phase.proc.finishes[tid], c))
  {
    TakeLockKeeps(s, tid);
    AdvanceKeeps(SetProc(s, s.phase.proc.(lock := Some(tid))), tid, s.phase.proc.finishes[tid].(pc := Locked));
  }

  lemma MoveUnlockedKeepsInv(s: State, tid: Tid, c: FinishChoice)
    requires Inv(s) && Enabled(s, FinishMoves(tid, c)) && BeforeLock(s.phase.proc.finishes[tid].pc)
    ensures Inv(MoveUnlocked(s, tid, s.phase.proc.finishes[tid], c))
  {
    match s.phase.proc.finishes[tid].pc
    case Admitted => AdmittedKeepsInv(s, tid, c);
    case Checked => CheckedKeepsInv(s, tid, c);
    case NonceRead => NonceReadKeepsInv(s, tid, c);
    case Verified => VerifiedKeepsInv(s, tid, c);
  }

  // ---- Finishes: the critical section ----

  lemma DetectKeeps(s: State, tid: Tid, presence: TpmPresence)
    requires InvBut(s, Some(tid)) && s.phase.Up? && tid !in s.hist.effects
    ensures InvBut(s.(hist := s.hist.(detected := s.hist.detected[tid := presence])), Some(tid))
  {
    var h, h' := s.hist, s.hist.(detected := s.hist.detected[tid := presence]);
    forall k | 0 <= k < |h.commits| ensures CommitOk(h', h.commits[k]) {
      assert CommitOk(h, h.commits[k]);
    }
  }

  lemma DiscardKeeps(s: State, tid: Tid, ok: bool)
    requires InvBut(s, Some(tid)) && s.phase.Up? && tid < s.hist.nextTid && tid !in s.hist.responses
    ensures var s' := Effect(s.(hist := s.hist.(discards := s.hist.discards + [Discard(tid, ok, false)])), tid);
            InvBut(s', Some(tid)) && Discard(tid, ok, false) in s'.hist.discards
  {
    var h := s.hist;
    var h' := h.(discards := h.discards + [Discard(tid, ok, false)], effects := h.effects + {tid});
    assert forall x :: x in h'.discards <==> x in h.discards || x == Discard(tid, ok, false);
    forall k | 0 <= k < |h.commits| ensures CommitOk(h', h.commits[k]) {
      assert CommitOk(h, h.commits[k]);
    }
  }

  /** While the marker is absent there is no winner, no binding, no credentials, no join and no box proof. */
  lemma UnclaimedMeansNothingYet(s: State, tid: Tid)
    requires InvBut(s, Some(tid)) && s.phase.Up? && s.phase.proc.lock == Some(tid) && !IsClaimed(s.disk)
    ensures !Won(s.hist.commits) && s.phase.proc.joins == map[] && s.net.boxProofs == {}
    ensures forall b :: Some(b) !in s.disk.binding.mayBe
    ensures forall c :: Some(c) !in s.disk.creds.mayBe
    ensures forall t :: t in s.phase.proc.finishes && t != tid ==>
              !AboutToCommit(s.phase.proc.finishes[t].pc) && !Committed(s.phase.proc.finishes[t].pc)
  {}

  ghost function MarkerWritten(s: State, tid: Tid, m: Marker, commit: Commit, o: WriteOutcome): State {
    Effect(s.(disk := PutMarker(s.disk, m, o), hist := s.hist.(commits := s.hist.commits + [commit])), tid)
  }

  lemma CommitKeepsDisk(s: State, tid: Tid, m: Marker, commit: Commit, o: WriteOutcome)
    requires InvBut(s, Some(tid)) && s.phase.Up? && s.phase.proc.lock == Some(tid) && !IsClaimed(s.disk)
    requires !o.Failed? && commit.synced == o.Synced?
    ensures var s' := MarkerWritten(s, tid, m, commit, o);
            DiskOk(s'.disk, s'.hist.commits, s'.hist.approved) && ShownOk(s'.disk, s'.hist.shown)
  {
    UnclaimedMeansNothingYet(s, tid);
    assert s.disk.secret.now in s.disk.secret.mayBe;
    assert s.disk.creds.now in s.disk.creds.mayBe;
  }

  lemma CommitKeepsHistory(s: State, tid: Tid, m: Marker, commit: Commit, o: WriteOutcome)
    requires InvBut(s, Some(tid)) && s.phase.Up? && s.phase.proc.lock == Some(tid) && !IsClaimed(s.disk)
    requires !o.Failed? && commit.synced == o.Synced? && commit.tid == tid && tid < s.hist.nextTid
    requires CustodyOk(s.hist, tid, commit.custody) && CommitShape(commit) && tid !in s.hist.responses
    requires commit.claim in s.net.clientProofs && commit.claim.secret in s.net.boxSecrets
    requires SignedFor(s.net, commit.claim, commit.challenge)
    ensures var s' := MarkerWritten(s, tid, m, commit, o);
            HistoryOk(s'.hist) && NetOk(s'.disk, s'.hist.commits, s'.net)
  {
    UnclaimedMeansNothingYet(s, tid);
    var h, h' := s.hist, MarkerWritten(s, tid, m, commit, o).hist;
    forall k | 0 <= k < |h'.commits|
      ensures CommitOk(h', h'.commits[k])
      ensures h'.commits[k].synced ==> k == |h'.commits| - 1
    {
      if k < |h.commits| {
        assert h'.commits[k] == h.commits[k] && CommitOk(h, h.commits[k]);
        assert h.commits[k].synced ==> Won(h.commits);
      }
    }
    assert s.disk.secret.now in s.disk.secret.mayBe;
  }

  lemma CommitKeepsMemory(s: State, tid: Tid, m: Marker, commit: Commit, o: WriteOutcome)
    requires InvBut(s, Some(tid)) && s.phase.Up? && s.phase.proc.lock == Some(tid) && !IsClaimed(s.disk)
    requires !o.Failed?
    ensures MemoryOk(MarkerWritten(s, tid, m, commit, o), Some(tid))
  {
    UnclaimedMeansNothingYet(s, tid);
  }

  lemma CommitKeeps(s: State, tid: Tid, m: Marker, commit: Commit, o: WriteOutcome)
    requires InvBut(s, Some(tid)) && s.phase.Up? && s.phase.proc.lock == Some(tid) && !IsClaimed(s.disk)
    requires !o.Failed? && commit.synced == o.Synced? && commit.tid == tid && tid < s.hist.nextTid
    requires CustodyOk(s.hist, tid, commit.custody) && CommitShape(commit) && tid !in s.hist.responses
    requires commit.claim in s.net.clientProofs && commit.claim.secret in s.net.boxSecrets
    requires SignedFor(s.net, commit.claim, commit.challenge)
    ensures InvBut(MarkerWritten(s, tid, m, commit, o), Some(tid))
  {
    CommitKeepsDisk(s, tid, m, commit, o);
    CommitKeepsHistory(s, tid, m, commit, o);
    CommitKeepsMemory(s, tid, m, commit, o);
  }

  /** The commit a finish is about to make. */
  function CommitOf(p: Process, tid: Tid, f: Finish, claim: Claim, c: FinishChoice): Commit {
    var binding := BindingOf(p.me, claim.owner, f.(at := c.atMs));
    Commit(tid, f.req.id, claim, f.custody, binding, c.markOutcome.Synced?)
  }

  lemma MarkerWrittenKeepsInv(s: State, tid: Tid, c: FinishChoice)
    requires Inv(s) && s.phase.Up? && tid in s.phase.proc.finishes && s.phase.proc.finishes[tid].pc.CustodyKnown?
    requires !c.markOutcome.Failed?
    ensures Inv(WriteMarker(s, tid, s.phase.proc.finishes[tid], c))
  {
    var p := s.phase.proc;
    var f := p.finishes[tid];
    OneOpen(s, tid);
    assert FinishOk(s.disk, s.hist, p.me, p.secret, p.lock, tid, f) && ProofOk(s.net, p.me, p.secret, f);
    var claim := ClaimOf(p.me, p.secret, f).value;
    var m, commit := LocalMarker(claim.owner, c.atMs), CommitOf(p, tid, f, claim, c);
    CommitKeeps(s, tid, m, commit, c.markOutcome);
    var s' := MarkerWritten(s, tid, m, commit, c.markOutcome);
    if c.markOutcome.Synced? {
      WinnerOk(s', tid, f, claim, c);
      AdvanceKeeps(s', tid, f.(at := c.atMs, pc := Marked));
    } else {
      RespondKeeps(s', tid, Internal500);
    }
  }

  /** A finish whose commit has just become the last, and settled, one. */
  lemma WinnerOk(s: State, tid: Tid, f: Finish, claim: Claim, c: FinishChoice)
    requires s.phase.Up? && s.phase.proc.lock == Some(tid) && tid < s.hist.nextTid && tid !in s.hist.responses
    requires c.markOutcome.Synced? && s.hist.commits != []
    requires Last(s.hist.commits) == CommitOf(s.phase.proc, tid, f, claim, c)
    requires ClaimOf(s.phase.proc.me, s.phase.proc.secret, f) == Some(claim)
    ensures var p := s.phase.proc; FinishOk(s.disk, s.hist, p.me, p.secret, p.lock, tid, f.(at := c.atMs, pc := Marked))
  {}

  lemma WriteMarkerKeepsInv(s: State, tid: Tid, c: FinishChoice)
    requires Inv(s) && s.phase.Up? && tid in s.phase.proc.finishes && s.phase.proc.finishes[tid].pc.CustodyKnown?
    ensures Inv(WriteMarker(s, tid, s.phase.proc.finishes[tid], c))
  {
    if c.markOutcome.Failed? {
      OneOpen(s, tid);
      RespondKeeps(s, tid, Internal500);
    } else {
      MarkerWrittenKeepsInv(s, tid, c);
    }
  }

  lemma RecheckKeepsInv(s: State, tid: Tid, c: FinishChoice)
    requires Inv(s) && s.phase.Up? && tid in s.phase.proc.finishes && s.phase.proc.finishes[tid].pc.Locked?
    ensures Inv(MoveToCommit(s, tid, s.phase.proc.finishes[tid], c))
  {
    var f := s.phase.proc.finishes[tid];
    OneOpen(s, tid);
    if IsClaimed(s.disk) { RespondKeeps(s, tid, AlreadyClaimed409); }
    else { AdvanceKeeps(s, tid, f.(pc := Rechecked)); }
  }

  lemma DetectStepKeepsInv(s: State, tid: Tid, c: FinishChoice)
    requires Inv(s) && s.phase.Up? && tid in s.phase.proc.finishes && s.phase.proc.finishes[tid].pc.Rechecked?
    ensures Inv(MoveToCommit(s, tid, s.phase.proc.finishes[tid], c))
  {
    var f := s.phase.proc.finishes[tid];
    OneOpen(s, tid);
    DetectKeeps(s, tid, c.presence);
    var s' := s.(hist := s.hist.(detected := s.hist.detected[tid := c.presence]));
    if c.presence.Present? { AdvanceKeeps(s', tid, f.(pc := TpmPresent)); }
    else if c.presence.Absent? { AdvanceKeeps(s', tid, f.(pc := CustodyKnown, custody := NoTpmPresent)); }
    else { RespondKeeps(s', tid, Internal500); }
  }

  lemma DiscardStepKeepsInv(s: State, tid: Tid, c: FinishChoice)
    requires Inv(s) && s.phase.Up? && tid in s.phase.proc.finishes && s.phase.proc.finishes[tid].pc.TpmPresent?
    ensures Inv(MoveToCommit(s, tid, s.phase.proc.finishes[tid], c))
  {
    var f := s.phase.proc.finishes[tid];
    OneOpen(s, tid);
    DiscardKeeps(s, tid, c.discardOk);
    var s' := Effect(s.(hist := s.hist.(discards := s.hist.discards + [Discard(tid, c.discardOk, false)])), tid);
    if c.discardOk {
      AdvanceKeeps(s', tid, f.(pc := CustodyKnown, custody := LockoutDiscarded));
    } else {
      RespondKeeps(s', tid, Internal500);
    }
  }

  lemma MoveToCommitKeepsInv(s: State, tid: Tid, c: FinishChoice)
    requires Inv(s) && Enabled(s, FinishMoves(tid, c)) && Committing(s.phase.proc.finishes[tid].pc)
    ensures Inv(MoveToCommit(s, tid, s.phase.proc.finishes[tid], c))
  {
    var pc := s.phase.proc.finishes[tid].pc;
    if pc.Locked? { RecheckKeepsInv(s, tid, c); }
    else if pc.Rechecked? { DetectStepKeepsInv(s, tid, c); }
    else if pc.TpmPresent? { DiscardStepKeepsInv(s, tid, c); }
    else { WriteMarkerKeepsInv(s, tid, c); }
  }

  // ---- Finishes: after the commit ----

  lemma DeleteSecretKeeps(s: State, tid: Tid, removed: bool)
    requires InvBut(s, Some(tid)) && Won(s.hist.commits)
    ensures InvBut(s.(disk := DeleteSecret(s.disk, removed)), Some(tid))
  {}

  lemma PutBindingKeeps(s: State, but: Option<Tid>, b: Binding, o: WriteOutcome)
    requires InvBut(s, but) && Faithful(s.hist.commits, s.hist.approved, b)
    ensures InvBut(s.(disk := PutBinding(s.disk, b, o)), but)
  {
    assert s.disk.secret.now in s.disk.secret.mayBe;
    assert s.disk.creds.now in s.disk.creds.mayBe;
  }

  lemma WinnerDeletesKeepsInv(s: State, tid: Tid, c: FinishChoice)
    requires Inv(s) && s.phase.Up? && tid in s.phase.proc.finishes && s.phase.proc.finishes[tid].pc.Marked?
    ensures Inv(MoveAfterCommit(s, tid, s.phase.proc.finishes[tid], c))
  {
    OneOpen(s, tid);
    DeleteSecretKeeps(s, tid, c.removed);
    var s' := s.(disk := DeleteSecret(s.disk, c.removed));
    AdvanceKeeps(s', tid, s.phase.proc.finishes[tid].(pc := SecretDeleted));
  }

  lemma WinnerBindsKeepsInv(s: State, tid: Tid, c: FinishChoice)
    requires Inv(s) && s.phase.Up? && tid in s.phase.proc.finishes && s.phase.proc.finishes[tid].pc.SecretDeleted?
    ensures Inv(MoveAfterCommit(s, tid, s.phase.proc.finishes[tid], c))
  {
    var p := s.phase.proc;
    var f := p.finishes[tid];
    var binding := BindingOf(p.me, ClaimOf(p.me, p.secret, f).value.owner, f);
    OneOpen(s, tid);
    PutBindingKeeps(s, Some(tid), binding, c.bindOutcome);
    AdvanceKeeps(s.(disk := PutBinding(s.disk, binding, c.bindOutcome)), tid, f.(pc := Bound));
  }

  lemma BoxProofKeeps(s: State, tid: Tid, claim: Claim)
    requires InvBut(s, Some(tid)) && Won(s.hist.commits) && Last(s.hist.commits).claim == claim
    ensures InvBut(s.(net := s.net.(boxProofs := s.net.boxProofs + {claim})), Some(tid))
  {
    var net' := s.net.(boxProofs := s.net.boxProofs + {claim});
    forall tag | Derivable(s.net, tag) ensures Derivable(net', tag) { DerivableGrows(s.net, net', tag); }
  }

  lemma WinnerInvalidatesKeepsInv(s: State, tid: Tid, c: FinishChoice)
    requires Inv(s) && s.phase.Up? && tid in s.phase.proc.finishes && s.phase.proc.finishes[tid].pc.Bound?
    ensures Inv(MoveAfterCommit(s, tid, s.phase.proc.finishes[tid], c))
  {
    var p := s.phase.proc;
    var f := p.finishes[tid];
    OneOpen(s, tid);
    AdvanceKeeps(SetProc(s, p.(pending := p.pending - {f.req.id})), tid, f.(pc := Invalidated));
  }

  lemma WinnerUnlocksKeepsInv(s: State, tid: Tid, c: FinishChoice)
    requires Inv(s) && s.phase.Up? && tid in s.phase.proc.finishes && s.phase.proc.finishes[tid].pc.Invalidated?
    ensures Inv(MoveAfterCommit(s, tid, s.phase.proc.finishes[tid], c))
  {
    OneOpen(s, tid);
    AdvanceKeeps(SetProc(s, s.phase.proc.(lock := None)), tid, s.phase.proc.finishes[tid].(pc := Released));
  }

  lemma WinnerAnswersKeepsInv(s: State, tid: Tid, c: FinishChoice)
    requires Inv(s) && s.phase.Up? && tid in s.phase.proc.finishes && s.phase.proc.finishes[tid].pc.Released?
    ensures Inv(MoveAfterCommit(s, tid, s.phase.proc.finishes[tid], c))
  {
    var claim := ClaimOf(s.phase.proc.me, s.phase.proc.secret, s.phase.proc.finishes[tid]).value;
    OneOpen(s, tid);
    BoxProofKeeps(s, tid, claim);
    RespondKeeps(s.(net := s.net.(boxProofs := s.net.boxProofs + {claim})), tid, Claimed200);
  }

  lemma MoveAfterCommitKeepsInv(s: State, tid: Tid, c: FinishChoice)
    requires Inv(s) && Enabled(s, FinishMoves(tid, c)) && Committed(s.phase.proc.finishes[tid].pc)
    ensures Inv(MoveAfterCommit(s, tid, s.phase.proc.finishes[tid], c))
  {
    var pc := s.phase.proc.finishes[tid].pc;
    if pc.Marked? { WinnerDeletesKeepsInv(s, tid, c); }
    else if pc.SecretDeleted? { WinnerBindsKeepsInv(s, tid, c); }
    else if pc.Bound? { WinnerInvalidatesKeepsInv(s, tid, c); }
    else if pc.Invalidated? { WinnerUnlocksKeepsInv(s, tid, c); }
    else { WinnerAnswersKeepsInv(s, tid, c); }
  }

  // ---- Hub joins ----

  lemma JoinArrivesKeepsInv(s: State, ok: bool)
    requires Inv(s) && Enabled(s, JoinArrives(ok))
    ensures Inv(Next(s, JoinArrives(ok)))
  {}

  lemma ApproveKeeps(s: State, creds: Credentials)
    requires Inv(s)
    ensures Inv(s.(hist := s.hist.(approved := s.hist.approved + {creds})))
  {}

  lemma SetJoinKeeps(s: State, jid: Jid, j: Join)
    requires Inv(s) && s.phase.Up? && IsClaimed(s.disk) && JoinOk(s.disk, s.hist.commits, s.hist.approved, j)
    ensures Inv(SetJoin(s, jid, j))
  {}

  lemma EndJoinKeeps(s: State, jid: Jid)
    requires Inv(s) && s.phase.Up?
    ensures Inv(EndJoin(s, jid))
  {}

  lemma HubMarkerKeeps(s: State, m: Marker, o: WriteOutcome)
    requires Inv(s) && s.phase.Up? && IsClaimed(s.disk)
    ensures Inv(s.(disk := PutMarker(s.disk, m, o)))
  {
    assert s.disk.secret.now in s.disk.secret.mayBe;
    assert s.disk.creds.now in s.disk.creds.mayBe;
  }

  lemma PutCredsKeeps(s: State, c: Credentials, o: WriteOutcome)
    requires Inv(s) && s.phase.Up? && Settled(s.disk) && c in s.hist.approved
    ensures Inv(s.(disk := PutCreds(s.disk, c, o)))
  {
    assert s.disk.secret.now in s.disk.secret.mayBe;
  }

  lemma JoinMovesKeepsInv(s: State, jid: Jid, c: JoinChoice)
    requires Inv(s) && Enabled(s, JoinMoves(jid, c))
    ensures Inv(Next(s, JoinMoves(jid, c)))
  {
    assert JoinOk(s.disk, s.hist.commits, s.hist.approved, s.phase.proc.joins[jid]);
    match s.phase.proc.joins[jid]
    case Waiting =>
      if c.approved.None? {
        EndJoinKeeps(s, jid);
      } else {
        ApproveKeeps(s, c.approved.value);
        SetJoinKeeps(s.(hist := s.hist.(approved := s.hist.approved + {c.approved.value})), jid,
                     Approved(c.approved.value));
      }
    case Approved(creds) =>
      var m := HubMarker(creds.deviceId, creds.accountId, c.atMs);
      HubMarkerKeeps(s, m, c.markOutcome);
      var s' := s.(disk := PutMarker(s.disk, m, c.markOutcome));
      if c.markOutcome.Synced? { SetJoinKeeps(s', jid, MarkedHub(creds)); } else { EndJoinKeeps(s', jid); }
    case MarkedHub(creds) =>
      PutCredsKeeps(s, creds, c.credsOutcome);
      var s' := s.(disk := PutCreds(s.disk, creds, c.credsOutcome));
      if c.credsOutcome.Synced? { SetJoinKeeps(s', jid, Stored(creds)); } else { EndJoinKeeps(s', jid); }
    case Stored(creds) =>
      if c.loadOk && s.disk.binding.now.Some? {
        LoadedIsFaithful(s, creds);
        SetJoinKeeps(s, jid, Loaded(creds, WithHubJoin(s.disk.binding.now.value, creds.deviceId)));
      } else {
        EndJoinKeeps(s, jid);
      }
    case Loaded(_, b) =>
      PutBindingKeeps(s, None, b, c.bindOutcome);
      EndJoinKeeps(s.(disk := PutBinding(s.disk, b, c.bindOutcome)), jid);
  }

  /** Recording one more join on a faithful binding gives a faithful binding: the device id is replaced. */
  lemma LoadedIsFaithful(s: State, creds: Credentials)
    requires Inv(s) && s.disk.binding.now.Some? && creds in s.hist.approved
    ensures Faithful(s.hist.commits, s.hist.approved, WithHubJoin(s.disk.binding.now.value, creds.deviceId))
  {
    var b, first := s.disk.binding.now.value, Last(s.hist.commits).binding;
    assert Some(b) in s.disk.binding.mayBe;
    assert WithHubJoin(b, creds.deviceId) == WithHubJoin(first, creds.deviceId);
  }

  // ---- The network ----

  lemma DerivableGrows(net: Net, net': Net, tag: Tag)
    requires net.attackerKeys <= net'.attackerKeys
    requires net.clientProofs <= net'.clientProofs && net.boxProofs <= net'.boxProofs
    requires Derivable(net, tag)
    ensures Derivable(net', tag)
  {}

  lemma NetKeepsInv(s: State, step: Step)
    requires Inv(s) && Enabled(s, step)
    requires step.ClientProves? || step.Signs? || step.ClientAccepts? || step.AttackerLearns?
    ensures Inv(Next(s, step))
  {
    var net' := Next(s, step).net;
    forall tag | Derivable(s.net, tag) ensures Derivable(net', tag) { DerivableGrows(s.net, net', tag); }
    if step.ClientAccepts? {
      if step.claim.secret !in s.net.attackerKeys { AcceptedIsReturned(s.net, step.claim); }
    }
    assert NetOk(s.disk, s.hist.commits, net');
  }

  /** A box proof that verifies, under a key the network party lacks, was returned by the box for this handshake. */
  lemma AcceptedIsReturned(net: Net, claim: Claim)
    requires Derivable(net, BoxTag(claim)) && claim.secret !in net.attackerKeys
    ensures claim in net.boxProofs
  {
    if c :| c in net.clientProofs && ClientTag(c) == BoxTag(claim) {
      TagsInjective(c, claim);
    } else {
      var c :| c in net.boxProofs && BoxTag(c) == BoxTag(claim);
      TagsInjective(c, claim);
    }
  }

  // ---- Every step, every run ----

  lemma {:induction false} StepKeepsInv(s: State, step: Step)
    requires Inv(s) && Enabled(s, step)
    ensures Inv(Next(s, step))
  {
    match step
    case LoadKey(me, written) => LoadKeyKeepsInv(s, me, written);
    case ReadClaimed =>
    case LoadSecret(generated, o) => LoadSecretKeepsInv(s, generated, o);
    case ProcessExit =>
    case MachineCrash(_, _, _, _) => CrashKeepsInv(s, step);
    case ChallengeArrives(_) => ChallengeKeepsInv(s, step);
    case ChallengeInserts(_, _, _, _) => ChallengeKeepsInv(s, step);
    case FinishArrives(req, within) => FinishArrivesKeepsInv(s, req, within);
    case FinishMoves(tid, c) =>
      var pc := s.phase.proc.finishes[tid].pc;
      if BeforeLock(pc) { MoveUnlockedKeepsInv(s, tid, c); }
      else if Committing(pc) { MoveToCommitKeepsInv(s, tid, c); }
      else { MoveAfterCommitKeepsInv(s, tid, c); }
    case JoinArrives(ok) => JoinArrivesKeepsInv(s, ok);
    case JoinMoves(jid, c) => JoinMovesKeepsInv(s, jid, c);
    case ClientProves(_) => NetKeepsInv(s, step);
    case Signs(_) => NetKeepsInv(s, step);
    case ClientAccepts(_) => NetKeepsInv(s, step);
    case AttackerLearns(_) => NetKeepsInv(s, step);
  }

  lemma {:induction false} RunKeepsInv(s: State, steps: seq<Step>)
    requires Inv(s) && IsRun(s, steps)
    ensures Inv(AfterRun(s, steps))
  {
    if steps != [] {
      RunKeepsInv(s, steps[..|steps| - 1]);
      StepKeepsInv(AfterRun(s, steps[..|steps| - 1]), steps[|steps| - 1]);
    }
  }

  /** A finish in flight has a number already given out, and no answer yet. */
  lemma InFlight(s: State)
    requires Inv(s) && s.phase.Up?
    ensures forall tid :: tid in s.phase.proc.finishes ==> tid < s.hist.nextTid && tid !in s.hist.responses
  {
    var p := s.phase.proc;
    forall tid | tid in p.finishes ensures tid < s.hist.nextTid && tid !in s.hist.responses {
      assert FinishOk(s.disk, s.hist, p.me, p.secret, p.lock, tid, p.finishes[tid]);
    }
  }
}
