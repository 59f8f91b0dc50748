/**
 The claim protocol as a step system: any number of `finish` requests, hub joins
 and challenges interleave with boots, process exits, machine crashes and a
 network that knows everything sent but not the box's secret.

 One step is one lock operation, one TPM call, one file replacement, one lookup
 or insertion in the challenge store, or a computation on a request's own data.
 Everything the environment decides (clock readings, failures, what a crash
 leaves on disk, scheduling) is a parameter of the step, so `Next` is a function
 and a run is a sequence of steps.
 */
module ClaimSystem {
  import opened Common
  import opened DurableFile
  import opened ChallengeStore
  import opened Handshake
  import opened LocalAccountBinding
  import opened Tpm

  type Tid = nat
  type Jid = nat

  // ---- Disk ----

  datatype Marker =
    | LocalMarker(ownerPubkey: Array32, claimedAtMs: int)
    | HubMarker(deviceId: DeviceId, accountId: string, claimedAtMs: int)

  datatype Credentials = Credentials(deviceId: DeviceId, accountId: string)

  datatype Disk = Disk(
    marker: DiskFile<Marker>, secret: DiskFile<Bytes>, binding: DiskFile<Binding>, creds: DiskFile<Credentials>)

  /** All files share one directory: a write that ends in `Ok` has synced every entry. */
  function DirSync(d: Disk, o: WriteOutcome): Disk {
    if o.Synced? then Disk(d.marker.Settled(), d.secret.Settled(), d.binding.Settled(), d.creds.Settled()) else d
  }

  function PutMarker(d: Disk, m: Marker, o: WriteOutcome): Disk { DirSync(d, o).(marker := d.marker.Put(m, o)) }
  function PutSecret(d: Disk, b: Bytes, o: WriteOutcome): Disk { DirSync(d, o).(secret := d.secret.Put(b, o)) }
  function PutBinding(d: Disk, b: Binding, o: WriteOutcome): Disk { DirSync(d, o).(binding := d.binding.Put(b, o)) }
  function PutCreds(d: Disk, c: Credentials, o: WriteOutcome): Disk { DirSync(d, o).(creds := d.creds.Put(c, o)) }

  /** `delete_claim_secret`; a missing file is no error. */
  function DeleteSecret(d: Disk, removed: bool): Disk {
    if removed && d.secret.now.Some? then d.(secret := d.secret.Unlinked()) else d
  }

  predicate IsClaimed(d: Disk) { d.marker.now.Some? }

  // ---- Memory ----

  /** Where a finish request stands; each value names what it has just done. */
  datatype Pc =
    | Admitted | Checked | NonceRead | Verified
    | Locked | Rechecked | TpmPresent | CustodyKnown | Marked | SecretDeleted | Bound | Invalidated
    | Released

  datatype Finish = Finish(pc: Pc, req: FinishRequest, nonce: Nonce, custody: TpmCustodyState, at: int)

  datatype Join =
    | Waiting
    | Approved(creds: Credentials)
    | MarkedHub(creds: Credentials)
    | Stored(creds: Credentials)
    | Loaded(creds: Credentials, binding: Binding)

  datatype Identity = Identity(boxKey: Array32, hostId: string, deviceName: string)

  datatype Process = Process(
    me: Identity,
    secret: Bytes,
    pending: Store,
    lock: Option<Tid>,
    issuing: nat,                  // challenge requests that have seen an unclaimed box and not inserted yet
    finishes: map<Tid, Finish>,
    joins: map<Jid, Join>)

  datatype Phase =
    | Down
    | KeyLoaded(me: Identity)
    | ClaimRead(me: Identity, alreadyClaimed: bool)
    | Up(proc: Process)

  // ---- What the network and honest clients have done ----

  datatype Net = Net(
    attackerKeys: set<Bytes>,      // keys the network party can compute tags with
    boxSecrets: set<Bytes>,        // secrets boxes generated
    clientProofs: set<Claim>,      // client tags made by holders of the claim's secret
    signatures: set<Signature>,    // signatures made, each by a holder of its key
    boxProofs: set<Claim>,         // box tags returned by a finish
    accepted: set<Claim>)          // handshakes whose box proof a client has verified

  /** The network party can produce this tag: from a key it has, or by repeating what was sent. */
  predicate Derivable(net: Net, tag: Tag) {
    || tag.Junk?
    || tag.key in net.attackerKeys
    || (exists c :: c in net.clientProofs && ClientTag(c) == tag)
    || (exists c :: c in net.boxProofs && BoxTag(c) == tag)
  }

  /** A request the network can deliver: a proof somebody could compute, a signature its key's holder made. */
  predicate Sendable(net: Net, req: FinishRequest) {
    && (req.clientProof.Some? ==> Derivable(net, req.clientProof.value))
    && (req.clientSig.Some? && req.clientSig.value.Signed? ==> req.clientSig.value in net.signatures)
  }

  /** The owner key's holder signed this challenge and this claim's proof. */
  predicate SignedFor(net: Net, claim: Claim, id: ChallengeId) {
    Signed(claim.owner, id, ClientTag(claim)) in net.signatures
  }

  // ---- What has happened ----

  /** A finish that created the claimed marker; `synced` when the write returned `Ok`. */
  datatype Commit = Commit(
    tid: Tid, challenge: ChallengeId, claim: Claim, custody: TpmCustodyState, binding: Binding, synced: bool)

  datatype Discard = Discard(tid: Tid, ok: bool, claimed: bool)

  /** A boot that displayed its secret; `settled` when no crash could then have changed the file. */
  datatype Shown = Shown(secret: Bytes, settled: bool)

  datatype History = History(
    nextTid: Tid,
    nextJid: Jid,
    responses: map<Tid, Status>,
    commits: seq<Commit>,
    detected: map<Tid, TpmPresence>,
    discards: seq<Discard>,
    effects: set<Tid>,             // finishes that changed a file, the challenges or the TPM
    approved: set<Credentials>,    // what the hub has answered approved joins with
    shown: seq<Shown>)

  datatype State = State(disk: Disk, phase: Phase, net: Net, hist: History)

  function FreshBox(): State {
    State(Disk(Missing(), Missing(), Missing(), Missing()),
          Down,
          Net({}, {}, {}, {}, {}, {}),
          History(0, 0, map[], [], map[], [], {}, {}, []))
  }

  // ---- Steps ----

  /** What the environment decides for a finish, each field read by the step it concerns. */
  datatype FinishChoice = FinishChoice(
    now: nat, presence: TpmPresence, discardOk: bool, atMs: int,
    markOutcome: WriteOutcome, removed: bool, bindOutcome: WriteOutcome)

  /** The same for a hub join; `approved` is the hub's answer, `None` for rejected, timed out or failed. */
  datatype JoinChoice = JoinChoice(
    approved: Option<Credentials>, atMs: int,
    markOutcome: WriteOutcome, credsOutcome: WriteOutcome, loadOk: bool, bindOutcome: WriteOutcome)

  datatype Step =
    | LoadKey(me: Identity, written: Option<WriteOutcome>)
    | ReadClaimed
    | LoadSecret(generated: Array16, outcome: WriteOutcome)
    | ProcessExit
    | MachineCrash(marker: Option<Marker>, secret: Option<Bytes>, binding: Option<Binding>, creds: Option<Credentials>)
    | ChallengeArrives(admitted: bool)
    | ChallengeInserts(id: ChallengeId, nonce: Nonce, now: nat, victim: Option<ChallengeId>)
    | FinishArrives(req: FinishRequest, withinBudget: bool)
    | FinishMoves(tid: Tid, fc: FinishChoice)
    | JoinArrives(pairClaimOk: bool)
    | JoinMoves(jid: Jid, jc: JoinChoice)
    | ClientProves(claim: Claim)
    | Signs(signature: Signature)
    | ClientAccepts(claim: Claim)
    | AttackerLearns(key: Bytes)

  predicate Enabled(s: State, step: Step) {
    match step
    case LoadKey(_, _) => s.phase.Down?
    case ReadClaimed => s.phase.KeyLoaded?
    case LoadSecret(generated, _) => s.phase.ClaimRead? && generated !in s.net.attackerKeys
    case ProcessExit => !s.phase.Down?
    case MachineCrash(marker, secret, binding, creds) =>
      && marker in s.disk.marker.mayBe && secret in s.disk.secret.mayBe
      && binding in s.disk.binding.mayBe && creds in s.disk.creds.mayBe
    case ChallengeArrives(_) => s.phase.Up?
    case ChallengeInserts(_, _, now, victim) =>
      s.phase.Up? && s.phase.proc.issuing > 0 && MayEvict(s.phase.proc.pending, now, victim)
    case FinishArrives(req, _) =>
      s.phase.Up? && Sendable(s.net, req)
    case FinishMoves(tid, _) =>
      && s.phase.Up? && tid in s.phase.proc.finishes
      && (s.phase.proc.finishes[tid].pc.Verified? ==> s.phase.proc.lock.None?)
    case JoinArrives(_) => s.phase.Up?
    case JoinMoves(jid, _) => s.phase.Up? && jid in s.phase.proc.joins
    case ClientProves(_) => true
    case Signs(_) => true
    case ClientAccepts(claim) => claim in s.net.clientProofs && Derivable(s.net, BoxTag(claim))
    case AttackerLearns(key) => key !in s.net.boxSecrets
  }

  // ---- Boot ----

  /** `load_or_create_keypair`: only a write, if one is needed, touches the directory. */
  function NextLoadKey(s: State, me: Identity, written: Option<WriteOutcome>): State {
    match written
    case None => s.(phase := KeyLoaded(me))
    case Some(o) => s.(disk := DirSync(s.disk, o), phase := if o.Synced? then KeyLoaded(me) else Down)
  }

  function Serving(s: State, me: Identity, alreadyClaimed: bool, secret: Bytes): State {
    var proc := Process(me, secret, map[], None, 0, map[], map[]);
    var shown := if alreadyClaimed then s.hist.shown
                 else s.hist.shown + [Shown(secret, s.disk.secret.mayBe == {Some(secret)})];
    s.(phase := Up(proc), hist := s.hist.(shown := shown))
  }

  function WithSecret(s: State, generated: Array16, o: WriteOutcome): State {
    s.(disk := PutSecret(s.disk, generated, o), net := s.net.(boxSecrets := s.net.boxSecrets + {generated}))
  }

  /** `load_or_create_secret`, then the display, then serving; a failed write ends the process. */
  function NextLoadSecret(s: State, generated: Array16, o: WriteOutcome): State
    requires s.phase.ClaimRead?
  {
    var onDisk := s.disk.secret.now;
    if onDisk.Some? && |onDisk.value| == 16 then Serving(s, s.phase.me, s.phase.alreadyClaimed, onDisk.value)
    else
      var s' := WithSecret(s, generated, o);
      if o.Synced? then Serving(s', s.phase.me, s.phase.alreadyClaimed, generated) else s'.(phase := Down)
  }

  // ---- Requests ----

  function SetProc(s: State, p: Process): State { s.(phase := Up(p)) }

  /** `admitted`: within budget, and the body is well formed. */
  function NextChallengeArrives(s: State, admitted: bool): State
    requires s.phase.Up?
  {
    if IsClaimed(s.disk) || !admitted then s
    else SetProc(s, s.phase.proc.(issuing := s.phase.proc.issuing + 1))
  }

  /** The insertion does not look at the marker again: a commit may have come in between. */
  function NextChallengeInserts(s: State, id: ChallengeId, nonce: Nonce, now: nat, victim: Option<ChallengeId>): State
    requires s.phase.Up? && s.phase.proc.issuing > 0
  {
    var p := s.phase.proc;
    SetProc(s, p.(pending := Inserted(p.pending, id, nonce, now, CHALLENGE_TTL, victim), issuing := p.issuing - 1))
  }

  function NextFinishArrives(s: State, req: FinishRequest, withinBudget: bool): State
    requires s.phase.Up?
  {
    var p, t := s.phase.proc, s.hist.nextTid;
    if !withinBudget then
      s.(hist := s.hist.(nextTid := t + 1, responses := s.hist.responses[t := RateLimited429]))
    else
      var f := Finish(Admitted, req, seq(16, _ => 0), NoTpmPresent, 0);
      SetProc(s, p.(finishes := p.finishes[t := f])).(hist := s.hist.(nextTid := t + 1))
  }

  /** Answer a finish and forget it, dropping the lock if it holds it. */
  function Respond(s: State, tid: Tid, status: Status): State
    requires s.phase.Up?
  {
    var p := s.phase.proc;
    var lock := if p.lock == Some(tid) then None else p.lock;
    SetProc(s, p.(finishes := p.finishes - {tid}, lock := lock))
    .(hist := s.hist.(responses := s.hist.responses[tid := status]))
  }

  function Advance(s: State, tid: Tid, f: Finish): State
    requires s.phase.Up?
  {
    SetProc(s, s.phase.proc.(finishes := s.phase.proc.finishes[tid := f]))
  }

  function Effect(s: State, tid: Tid): State { s.(hist := s.hist.(effects := s.hist.effects + {tid})) }

  /** The handshake a finish has proved, from its own request. */
  function ClaimOf(me: Identity, secret: Bytes, f: Finish): Option<Claim> {
    if f.req.clientPubkey.Some? then Some(Claim(secret, f.nonce, f.req.clientPubkey.value, me.boxKey)) else None
  }

  function BindingOf(me: Identity, owner: Array32, f: Finish): Binding {
    NewActiveLocal(me.hostId, owner, me.deviceName, f.at, f.custody)
  }

  /** Everything before the commit lock. */
  function MoveUnlocked(s: State, tid: Tid, f: Finish, c: FinishChoice): State
    requires s.phase.Up?
  {
    var p := s.phase.proc;
    match f.pc
    case Admitted =>
      if IsClaimed(s.disk) then Respond(s, tid, AlreadyClaimed409) else Advance(s, tid, f.(pc := Checked))
    case Checked =>
      if !f.req.wellFormed then Respond(s, tid, Malformed400)
      else
        var nonce := Peeked(p.pending, f.req.id, c.now);
        if nonce.None? then Respond(s, tid, ChallengeNotFound410)
        else Advance(s, tid, f.(pc := NonceRead, nonce := nonce.value))
    case NonceRead =>
      var verdict := Verdict(f.req, f.nonce, p.me.boxKey, p.secret);
      if verdict.Some? then Respond(s, tid, verdict.value) else Advance(s, tid, f.(pc := Verified))
    case _ =>
      Advance(SetProc(s, p.(lock := Some(tid))), tid, f.(pc := Locked))
  }

  /** From the authoritative re-check to the marker write. */
  function MoveToCommit(s: State, tid: Tid, f: Finish, c: FinishChoice): State
    requires s.phase.Up?
  {
    match f.pc
    case Locked =>
      if IsClaimed(s.disk) then Respond(s, tid, AlreadyClaimed409) else Advance(s, tid, f.(pc := Rechecked))
    case Rechecked =>
      var s' := s.(hist := s.hist.(detected := s.hist.detected[tid := c.presence]));
      (match c.presence
       case Present => Advance(s', tid, f.(pc := TpmPresent))
       case Absent => Advance(s', tid, f.(pc := CustodyKnown, custody := NoTpmPresent))
       case PresentButUnavailable => Respond(s', tid, Internal500))
    case TpmPresent =>
      var discard := Discard(tid, c.discardOk, IsClaimed(s.disk));
      var s' := Effect(s.(hist := s.hist.(discards := s.hist.discards + [discard])), tid);
      if c.discardOk then Advance(s', tid, f.(pc := CustodyKnown, custody := LockoutDiscarded))
      else Respond(s', tid, Internal500)
    case _ => WriteMarker(s, tid, f, c)
  }

  /** The marker write: `Ok`, an error before the rename, or an error after it. */
  function WriteMarker(s: State, tid: Tid, f: Finish, c: FinishChoice): State
    requires s.phase.Up?
  {
    var p, claim := s.phase.proc, ClaimOf(s.phase.proc.me, s.phase.proc.secret, f);
    if claim.None? || c.markOutcome.Failed? then Respond(s, tid, Internal500)
    else
      var f' := f.(at := c.atMs);
      var owner := claim.value.owner;
      var binding := BindingOf(p.me, owner, f');
      var commit := Commit(tid, f.req.id, claim.value, f.custody, binding, c.markOutcome.Synced?);
      var s' := Effect(s.(disk := PutMarker(s.disk, LocalMarker(owner, c.atMs), c.markOutcome),
                          hist := s.hist.(commits := s.hist.commits + [commit])), tid);
      if c.markOutcome.Synced? then Advance(s', tid, f'.(pc := Marked)) else Respond(s', tid, Internal500)
  }

  /** The best-effort rest of the critical section, and the answer. */
  function MoveAfterCommit(s: State, tid: Tid, f: Finish, c: FinishChoice): State
    requires s.phase.Up?
  {
    var p, claim := s.phase.proc, ClaimOf(s.phase.proc.me, s.phase.proc.secret, f);
    if claim.None? then Respond(s, tid, Internal500)
    else match f.pc
      case Marked => Advance(s.(disk := DeleteSecret(s.disk, c.removed)), tid, f.(pc := SecretDeleted))
      case SecretDeleted =>
        var binding := BindingOf(p.me, claim.value.owner, f);
        Advance(s.(disk := PutBinding(s.disk, binding, c.bindOutcome)), tid, f.(pc := Bound))
      case Bound => Advance(SetProc(s, p.(pending := p.pending - {f.req.id})), tid, f.(pc := Invalidated))
      case Invalidated =>
        Advance(SetProc(s, p.(lock := if p.lock == Some(tid) then None else p.lock)), tid, f.(pc := Released))
      case _ => Respond(s.(net := s.net.(boxProofs := s.net.boxProofs + {claim.value})), tid, Claimed200)
  }

  predicate BeforeLock(pc: Pc) { pc.Admitted? || pc.Checked? || pc.NonceRead? || pc.Verified? }
  predicate Committing(pc: Pc) { pc.Locked? || pc.Rechecked? || pc.TpmPresent? || pc.CustodyKnown? }
  predicate Committed(pc: Pc) { !BeforeLock(pc) && !Committing(pc) }
  /** Between taking the commit lock and dropping it. */
  predicate Holds(pc: Pc) { !BeforeLock(pc) && !pc.Released? }
  /** Past the re-check and before the marker write. */
  predicate AboutToCommit(pc: Pc) { pc.Rechecked? || pc.TpmPresent? || pc.CustodyKnown? }

  function NextFinishMoves(s: State, tid: Tid, c: FinishChoice): State
    requires s.phase.Up? && tid in s.phase.proc.finishes
  {
    var f := s.phase.proc.finishes[tid];
    if BeforeLock(f.pc) then MoveUnlocked(s, tid, f, c)
    else if Committing(f.pc) then MoveToCommit(s, tid, f, c)
    else MoveAfterCommit(s, tid, f, c)
  }

  // ---- Hub joins ----

  function SetJoin(s: State, jid: Jid, j: Join): State
    requires s.phase.Up?
  {
    SetProc(s, s.phase.proc.(joins := s.phase.proc.joins[jid := j]))
  }

  function EndJoin(s: State, jid: Jid): State
    requires s.phase.Up?
  {
    SetProc(s, s.phase.proc.(joins := s.phase.proc.joins - {jid}))
  }

  /** `onboard_claim`: refused while unclaimed; a background task only once the hub has answered. */
  function NextJoinArrives(s: State, pairClaimOk: bool): State
    requires s.phase.Up?
  {
    if !IsClaimed(s.disk) || !pairClaimOk then s
    else SetJoin(s, s.hist.nextJid, Waiting).(hist := s.hist.(nextJid := s.hist.nextJid + 1))
  }

  function NextJoinMoves(s: State, jid: Jid, c: JoinChoice): State
    requires s.phase.Up? && jid in s.phase.proc.joins
  {
    match s.phase.proc.joins[jid]
    case Waiting =>
      if c.approved.None? then EndJoin(s, jid)
      else SetJoin(s, jid, Approved(c.approved.value))
           .(hist := s.hist.(approved := s.hist.approved + {c.approved.value}))
    case Approved(creds) =>
      var s' := s.(disk := PutMarker(s.disk, HubMarker(creds.deviceId, creds.accountId, c.atMs), c.markOutcome));
      if c.markOutcome.Synced? then SetJoin(s', jid, MarkedHub(creds)) else EndJoin(s', jid)
    case MarkedHub(creds) =>
      var s' := s.(disk := PutCreds(s.disk, creds, c.credsOutcome));
      if c.credsOutcome.Synced? then SetJoin(s', jid, Stored(creds)) else EndJoin(s', jid)
    case Stored(creds) =>
      if c.loadOk && s.disk.binding.now.Some? then
        SetJoin(s, jid, Loaded(creds, WithHubJoin(s.disk.binding.now.value, creds.deviceId)))
      else EndJoin(s, jid)
    case Loaded(_, binding) => EndJoin(s.(disk := PutBinding(s.disk, binding, c.bindOutcome)), jid)
  }

  // ---- One step ----

  function Next(s: State, step: Step): State
    requires Enabled(s, step)
  {
    match step
    case LoadKey(me, written) => NextLoadKey(s, me, written)
    case ReadClaimed => s.(phase := ClaimRead(s.phase.me, IsClaimed(s.disk)))
    case LoadSecret(generated, outcome) => NextLoadSecret(s, generated, outcome)
    case ProcessExit => s.(phase := Down)
    case MachineCrash(marker, secret, binding, creds) =>
      var d := s.disk;
      s.(phase := Down, disk := Disk(d.marker.Recovered(marker), d.secret.Recovered(secret),
                                     d.binding.Recovered(binding), d.creds.Recovered(creds)))
    case ChallengeArrives(admitted) => NextChallengeArrives(s, admitted)
    case ChallengeInserts(id, nonce, now, victim) => NextChallengeInserts(s, id, nonce, now, victim)
    case FinishArrives(req, withinBudget) => NextFinishArrives(s, req, withinBudget)
    case FinishMoves(tid, c) => NextFinishMoves(s, tid, c)
    case JoinArrives(ok) => NextJoinArrives(s, ok)
    case JoinMoves(jid, c) => NextJoinMoves(s, jid, c)
    case ClientProves(claim) => s.(net := s.net.(clientProofs := s.net.clientProofs + {claim}))
    case Signs(signature) => s.(net := s.net.(signatures := s.net.signatures + {signature}))
    case ClientAccepts(claim) => s.(net := s.net.(accepted := s.net.accepted + {claim}))
    case AttackerLearns(key) => s.(net := s.net.(attackerKeys := s.net.attackerKeys + {key}))
  }

  // ---- Runs ----

  ghost predicate IsRun(s: State, steps: seq<Step>)
    decreases |steps|, 0
  {
    steps == [] || (IsRun(s, steps[..|steps| - 1]) && Enabled(AfterRun(s, steps[..|steps| - 1]), steps[|steps| - 1]))
  }

  ghost function AfterRun(s: State, steps: seq<Step>): State
    requires IsRun(s, steps)
    decreases |steps|, 1
  {
    if steps == [] then s else Next(AfterRun(s, steps[..|steps| - 1]), steps[|steps| - 1])
  }
}
