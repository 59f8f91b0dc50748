/**
 The request handlers, the hub-join task and the boot sequence over the shared
 mutable `AppState`, each verified against the function that `SoloRuns` proves
 to be a run of the step system. What the environment decides is a parameter.
 */
module ClaimHandlers {
  import opened Common
  import opened DurableFile
  import opened ChallengeStore
  import opened RateLimit
  import opened Handshake
  import opened LocalAccountBinding
  import opened Tpm
  import opened ClaimSystem
  import opened SoloRuns
  import opened StateDir
  import Crockford

  /** What the environment decides for one finish. */
  datatype FinishEnv = FinishEnv(
    now: nat, nodes: DeviceNodes, auth: Array32, child: Child, atMs: int,
    markOutcome: WriteOutcome, removed: bool, bindOutcome: WriteOutcome)
  {
    function Choice(): FinishChoice {
      FinishChoice(now, Detected(nodes), child == Exited(true), atMs, markOutcome, removed, bindOutcome)
    }
  }

  datatype ChallengeAnswer = Issued(id: ChallengeId, serverNonce: Nonce, boxPubkey: Array32) | Refusal(status: Status)

  datatype ClaimAnswer =
    | ClaimInitiated202 | NotLocallyClaimed403 | OnboardMalformed400
    | InvalidQr400 | HubUnreachable502 | OnboardRateLimited429

  /** Whether the body, then the QR payload, then `pair_claim` succeed. */
  datatype OnboardInput = OnboardInput(wellFormed: bool, qrValid: bool, pairClaimOk: bool)

  /** A refusal leaves the pending challenges alone; an issued challenge is inserted, at the cost of `victim`. */
  ghost predicate Kept(before: Store, after: Store, answer: ChallengeAnswer, now: nat, victim: Option<ChallengeId>) {
    match answer
    case Refusal(_) => after == before
    case Issued(id, nonce, _) =>
      MayEvict(before, now, victim) && after == Inserted(before, id, nonce, now, CHALLENGE_TTL, victim)
  }

  /** The TPM step lets the claim through: a lockout authority discarded, or no hint of a TPM. */
  predicate CustodyGranted(env: FinishEnv) {
    || (env.nodes.resourceManager.Opened? && env.child == Exited(true))
    || (env.nodes.resourceManager.NotFound? && true !in env.nodes.hardwareSignals)
  }

  class AppState {
    const me: Identity
    const secret: Array16
    const files: StateDirectory
    const limiter: RateLimiter
    const pending: PendingChallengeStore
    const tpm: SystemTpm

    ghost predicate Valid()
      reads this, limiter
    {
      limiter.Valid()
    }

    constructor (me: Identity, secret: Array16, files: StateDirectory, ratePerMinute: nat)
      ensures this.me == me && this.secret == secret && this.files == files
      ensures Valid() && limiter.history == [] && pending.challenges == map[] && tpm.authTexts == []
      ensures fresh(limiter) && fresh(pending) && fresh(tpm)
    {
      this.me, this.secret, this.files := me, secret, files;
      limiter := new RateLimiter(ratePerMinute);
      pending := new PendingChallengeStore();
      tpm := new SystemTpm();
    }

    /** The first check of every handler. */
    method WithinBudget(ip: IpAddr, callAt: nat) returns (granted: bool)
      requires Valid()
      modifies limiter
      ensures Valid() && limiter.history == old(limiter.history) + [Call(ip, callAt)]
      ensures granted <==> AnswerToLast(limiter.capacity, limiter.history)
    {
      granted := limiter.Allow(ip, callAt);
    }

    /** The handler past the rate limiter. `bodyOk` covers the content type, the JSON shape and the key's length. */
    method IssueChallenge(bodyOk: bool, id: ChallengeId, nonce: Nonce, now: nat)
      returns (answer: ChallengeAnswer, ghost victim: Option<ChallengeId>)
      modifies pending
      ensures answer ==
        if IsClaimed(files.Contents()) then Refusal(AlreadyClaimed409)
        else if !bodyOk then Refusal(Malformed400)
        else Issued(id, nonce, me.boxKey)
      ensures Kept(old(pending.challenges), pending.challenges, answer, now, victim)
    {
      victim := None;
      var claimed := files.Claimed();
      if claimed { return Refusal(AlreadyClaimed409), None; }
      if !bodyOk { return Refusal(Malformed400), None; }
      pending.Insert(id, nonce, now, CHALLENGE_TTL);
      victim :| MayEvict(old(pending.challenges), now, victim)
                && pending.challenges == Inserted(old(pending.challenges), id, nonce, now, CHALLENGE_TTL, victim);
      answer := Issued(id, nonce, me.boxKey);
    }

    method LocalClaimChallenge(ip: IpAddr, callAt: nat, bodyOk: bool, id: ChallengeId, nonce: Nonce, now: nat)
      returns (answer: ChallengeAnswer, ghost victim: Option<ChallengeId>)
      requires Valid()
      modifies limiter, pending
      ensures Valid() && limiter.history == old(limiter.history) + [Call(ip, callAt)]
      ensures answer ==
        if !AnswerToLast(limiter.capacity, limiter.history) then Refusal(RateLimited429)
        else if IsClaimed(files.Contents()) then Refusal(AlreadyClaimed409)
        else if !bodyOk then Refusal(Malformed400)
        else Issued(id, nonce, me.boxKey)
      ensures Kept(old(pending.challenges), pending.challenges, answer, now, victim)
      ensures answer.Issued? ==>
        && id in pending.challenges && pending.challenges[id] == Pending(nonce, now + 120_000_000_000)
        && forall other :: other in pending.challenges && other != id ==>
             other in old(pending.challenges) && pending.challenges[other] == old(pending.challenges)[other]
    {
      victim := None;
      var granted := WithinBudget(ip, callAt);
      answer := Refusal(RateLimited429);
      if granted { answer, victim := IssueChallenge(bodyOk, id, nonce, now); }
    }

    /**
     The checks before the lock. They change nothing. Each refusal has its own
     condition: what is on disk, which challenge is alive, what the request
     decodes to, and the tag and signature it should have carried.
     */
    method VerifyFinish(req: FinishRequest, now: nat) returns (j: Judgement)
      ensures j == Judged(files.Contents(), pending.challenges, me, secret, req, now)
      ensures j == Fails(AlreadyClaimed409) <==> files.marker.now.Some?
      ensures j == Fails(ChallengeNotFound410) <==>
        && files.marker.now.None? && req.wellFormed
        && (req.id in pending.challenges ==> pending.challenges[req.id].expiresAt <= now)
      ensures files.marker.now.None? && !req.wellFormed ==> j == Fails(Malformed400)
      ensures files.marker.now.None? && req.wellFormed
              && req.id in pending.challenges && now < pending.challenges[req.id].expiresAt ==>
        var nonce := pending.challenges[req.id].serverNonce;
        var decoded := req.clientPubkey.Some? && req.clientProof.Some?;
        var tag := if decoded
                   then Hmac(secret, Ascii("benix-claim/client") + nonce + req.clientPubkey.value + me.boxKey)
                   else Junk([]);
        var proved := decoded && req.clientProof.value == tag;
        var signed := proved && req.clientSig == Some(Signed(req.clientPubkey.value, req.id, tag));
        && (j == Fails(Malformed400) <==> !decoded || (proved && (req.clientSig.None? || !req.keyOnCurve)))
        && (j == Fails(InvalidProof401) <==>
              decoded && (!proved || (req.clientSig.Some? && req.keyOnCurve && !signed)))
        && (j.Proves? <==> signed && req.keyOnCurve)
        && (j.Proves? ==> j.claim == Claim(secret, nonce, req.clientPubkey.value, me.boxKey))
    {
      ghost var entry := pending.challenges;
      if req.id in entry { VerdictIs(req, entry[req.id].serverNonce, me.boxKey, secret); }
      var claimed := files.Claimed();
      if claimed { return Fails(AlreadyClaimed409); }
      if !req.wellFormed { return Fails(Malformed400); }
      var nonce := pending.Peek(req.id, now);
      if nonce.None? { return Fails(ChallengeNotFound410); }
      if req.clientPubkey.None? { return Fails(Malformed400); }
      var transcript := Transcript(nonce.value, req.clientPubkey.value, me.boxKey);
      if req.clientProof.None? { return Fails(Malformed400); }
      var clientMac := HmacWithLabel(secret, CLIENT_PROOF_LABEL, transcript);
      if req.clientProof.value != clientMac { return Fails(InvalidProof401); }
      if req.clientSig.None? { return Fails(Malformed400); }
      if !req.keyOnCurve { return Fails(Malformed400); }
      if req.clientSig.value != Signed(req.clientPubkey.value, req.id, req.clientProof.value) {
        return Fails(InvalidProof401);
      }
      j := Proves(Claim(secret, nonce.value, req.clientPubkey.value, me.boxKey));
    }

    /** The TPM step of the critical section: `None` aborts the claim. */
    method DecideCustody(env: FinishEnv) returns (custody: Option<TpmCustodyState>)
      modifies tpm
      ensures custody == CustodyFrom(env.Choice())
      ensures custody == Some(LockoutDiscarded) <==> env.nodes.resourceManager.Opened? && env.child == Exited(true)
      ensures custody == Some(NoTpmPresent) <==>
        env.nodes.resourceManager.NotFound? && true !in env.nodes.hardwareSignals
      ensures tpm.authTexts ==
        old(tpm.authTexts) + (if Detected(env.nodes).Present? then Crossed(env.auth, env.child) else [])
    {
      var presence := tpm.Detect(env.nodes);
      custody := None;
      if presence.Present? {
        var ok := tpm.DiscardLockoutAuth(env.auth, env.child);
        if ok { custody := Some(LockoutDiscarded); }
      } else if presence.Absent? {
        custody := Some(NoTpmPresent);
      }
    }

    /** The critical section, on whatever disk it finds once it holds the lock. */
    method CommitLocked(claim: Claim, id: ChallengeId, env: FinishEnv) returns (status: Status, boxProof: Option<Tag>)
      modifies files, pending, tpm
      ensures var a := CriticalSection(old(files.Contents()), old(pending.challenges), me, claim, id, env.Choice());
              && status == a.status && files.Contents() == a.disk && pending.challenges == a.pending
              && boxProof == (if a.proved.Some? then Some(BoxTag(a.proved.value)) else None)
              && tpm.authTexts == old(tpm.authTexts) + (if a.discard.Some? then Crossed(env.auth, env.child) else [])
      ensures status == AlreadyClaimed409 <==> old(files.marker).now.Some?
      ensures status == Claimed200 <==> old(files.marker).now.None? && CustodyGranted(env) && env.markOutcome.Synced?
      ensures status.AlreadyClaimed409? || status.Claimed200? || status.Internal500?
      ensures tpm.authTexts == if old(files.marker).now.None? && env.nodes.resourceManager.Opened?
                               then old(tpm.authTexts) + Crossed(env.auth, env.child) else old(tpm.authTexts)
      ensures status == Claimed200 ==> files.marker.mayBe == {files.marker.now}
      ensures boxProof == if status == Claimed200
                          then Some(Hmac(claim.secret, Ascii("benix-claim/box")
                                                       + claim.nonce + claim.owner + claim.boxKey))
                          else None
      ensures pending.challenges == if status == Claimed200 then old(pending.challenges) - {id}
                                    else old(pending.challenges)
      ensures files.marker.now == if old(files.marker).now.None? && CustodyGranted(env) && !env.markOutcome.Failed?
                                  then Some(LocalMarker(claim.owner, env.atMs)) else old(files.marker).now
      ensures files.secret.now == if status == Claimed200 && env.removed then None else old(files.secret).now
      ensures files.creds.now == old(files.creds).now
      ensures status == Claimed200 && env.bindOutcome.Synced? ==>
        files.secret.mayBe == {files.secret.now} && files.binding.mayBe == {files.binding.now}
      ensures status == Claimed200 && !env.bindOutcome.Failed? ==>
        files.binding.now.Some? && IsFreshOwnerRecord(files.binding.now.value, me.hostId, claim.owner, me.deviceName,
          env.atMs, if env.nodes.resourceManager.Opened? then LockoutDiscarded else NoTpmPresent)
      ensures status != Claimed200 || env.bindOutcome.Failed? ==> files.binding.now == old(files.binding).now
    {
      TagMessages(claim);
      boxProof := None;
      var claimed := files.Claimed();
      if claimed { return AlreadyClaimed409, None; }

      var custody := DecideCustody(env);
      if custody.None? { return Internal500, None; }

      var marked := files.MarkClaimedLocal(claim.owner, env.atMs, env.markOutcome);
      if !marked { return Internal500, None; }
      var _ := files.DeleteClaimSecret(env.removed);
      var binding := NewActiveLocal(me.hostId, claim.owner, me.deviceName, env.atMs, custody.value);
      var _ := files.PersistLocalAccountBinding(binding, env.bindOutcome);
      pending.Invalidate(id);

      var boxMac := HmacWithLabel(claim.secret, BOX_PROOF_LABEL, Transcript(claim.nonce, claim.owner, claim.boxKey));
      status, boxProof := Claimed200, Some(boxMac);
    }

    /** One whole finish, met by no other request. */
    method LocalClaimFinish(ip: IpAddr, callAt: nat, req: FinishRequest, env: FinishEnv)
      returns (status: Status, boxProof: Option<Tag>)
      requires Valid()
      modifies limiter, files, pending, tpm
      ensures Valid() && limiter.history == old(limiter.history) + [Call(ip, callAt)]
      ensures var within := AnswerToLast(limiter.capacity, limiter.history);
              var a := FinishAttempt(old(files.Contents()), old(pending.challenges), me, secret,
                                     req, within, env.Choice());
              && status == a.status && files.Contents() == a.disk && pending.challenges == a.pending
              && boxProof == (if a.proved.Some? then Some(BoxTag(a.proved.value)) else None)
              && tpm.authTexts == old(tpm.authTexts) + (if a.discard.Some? then Crossed(env.auth, env.child) else [])
      ensures status == RateLimited429 <==> !AnswerToLast(limiter.capacity, limiter.history)
      ensures AnswerToLast(limiter.capacity, limiter.history) ==>
        && (status == AlreadyClaimed409 <==> old(files.marker).now.Some?)
        && (status == ChallengeNotFound410 <==>
              && old(files.marker).now.None? && req.wellFormed
              && (req.id in old(pending.challenges) ==> old(pending.challenges)[req.id].expiresAt <= env.now))
        && (old(files.marker).now.None? && !req.wellFormed ==> status == Malformed400)
      ensures AnswerToLast(limiter.capacity, limiter.history) && old(files.marker).now.None? && req.wellFormed
              && req.id in old(pending.challenges) && env.now < old(pending.challenges)[req.id].expiresAt ==>
        var nonce := old(pending.challenges)[req.id].serverNonce;
        var decoded := req.clientPubkey.Some? && req.clientProof.Some?;
        var tag := if decoded
                   then Hmac(secret, Ascii("benix-claim/client") + nonce + req.clientPubkey.value + me.boxKey)
                   else Junk([]);
        var proved := decoded && req.clientProof.value == tag;
        var signed := proved && req.clientSig == Some(Signed(req.clientPubkey.value, req.id, tag));
        && (status == Malformed400 <==> !decoded || (proved && (req.clientSig.None? || !req.keyOnCurve)))
        && (status == InvalidProof401 <==>
              decoded && (!proved || (req.clientSig.Some? && req.keyOnCurve && !signed)))
        && (status == Claimed200 <==> signed && req.keyOnCurve && CustodyGranted(env) && env.markOutcome.Synced?)
        && (status == Internal500 <==> signed && req.keyOnCurve && !(CustodyGranted(env) && env.markOutcome.Synced?))
        && (status == Claimed200 ==>
              && files.marker.now == Some(LocalMarker(req.clientPubkey.value, env.atMs))
              && boxProof == Some(Hmac(secret, Ascii("benix-claim/box") + nonce + req.clientPubkey.value + me.boxKey)))
    {
      var granted := WithinBudget(ip, callAt);
      if !granted { return RateLimited429, None; }
      var judgement := VerifyFinish(req, env.now);
      match judgement
      case Fails(refused) => status, boxProof := refused, None;
      case Proves(claim) => status, boxProof := CommitLocked(claim, req.id, env);
    }

    /** Refused on an unclaimed box before the request is even parsed; `spawned` says a hub join now waits. */
    method OnboardClaim(ip: IpAddr, callAt: nat, input: OnboardInput) returns (answer: ClaimAnswer, spawned: bool)
      requires Valid()
      modifies limiter
      ensures Valid() && limiter.history == old(limiter.history) + [Call(ip, callAt)]
      ensures spawned <==> answer.ClaimInitiated202?
      ensures spawned ==> IsClaimed(files.Contents()) && AnswerToLast(limiter.capacity, limiter.history)
      ensures answer.OnboardRateLimited429? <==> !AnswerToLast(limiter.capacity, limiter.history)
      ensures answer.NotLocallyClaimed403? <==>
        AnswerToLast(limiter.capacity, limiter.history) && !IsClaimed(files.Contents())
      ensures AnswerToLast(limiter.capacity, limiter.history) && IsClaimed(files.Contents()) ==>
        && (answer.OnboardMalformed400? <==> !input.wellFormed)
        && (answer.InvalidQr400? <==> input.wellFormed && !input.qrValid)
        && (answer.HubUnreachable502? <==> input.wellFormed && input.qrValid && !input.pairClaimOk)
    {
      spawned := false;
      var granted := WithinBudget(ip, callAt);
      if !granted { return OnboardRateLimited429, false; }
      var claimed := files.Claimed();
      if !claimed { return NotLocallyClaimed403, false; }
      if !input.wellFormed { return OnboardMalformed400, false; }
      if !input.qrValid { return InvalidQr400, false; }
      if !input.pairClaimOk { return HubUnreachable502, false; }
      answer, spawned := ClaimInitiated202, true;
    }

    /** The background task of a hub join. Whatever happens, no binding appears and no owner changes. */
    method RunWaitForResult(c: JoinChoice)
      modifies files
      ensures files.Contents() == JoinAttempt(old(files.Contents()), c)
      ensures files.binding.now.Some? <==> old(files.binding).now.Some?
      ensures files.binding.now.Some? ==>
        files.binding.now.value == old(files.binding).now.value.(hubDeviceId := files.binding.now.value.hubDeviceId)
      ensures files.binding.now != old(files.binding).now ==>
        c.approved.Some? && files.binding.now.value.hubDeviceId == Some(c.approved.value.deviceId)
      ensures c.approved.None? ==> files.Contents() == old(files.Contents())
      ensures files.secret.now == old(files.secret).now
      ensures c.approved.Some? ==>
        var device, account := c.approved.value.deviceId, c.approved.value.accountId;
        var marked := c.markOutcome.Synced?;
        && files.marker.now == (if c.markOutcome.Failed? then old(files.marker).now
                                else Some(HubMarker(device, account, c.atMs)))
        && files.creds.now == (if marked && !c.credsOutcome.Failed? then Some(Credentials(device, account))
                               else old(files.creds).now)
        && files.binding.now == (if marked && c.credsOutcome.Synced? && c.loadOk && old(files.binding).now.Some?
                                    && !c.bindOutcome.Failed?
                                 then Some(old(files.binding).now.value.(hubDeviceId := Some(device)))
                                 else old(files.binding).now)
      ensures IsClaimed(old(files.Contents())) ==> IsClaimed(files.Contents())
    {
      if c.approved.None? { return; }
      var creds := c.approved.value;
      var marked := files.MarkClaimed(creds.deviceId, creds.accountId, c.atMs, c.markOutcome);
      if !marked { return; }
      var stored := files.PersistPairCredentials(creds, c.credsOutcome);
      if !stored { return; }
      var loaded := files.LoadLocalAccountBinding(c.loadOk);
      if loaded.LoadOk? && loaded.value.Some? {
        var record := new BindingRecord(loaded.value.value);
        record.RecordHubJoin(creds.deviceId);
        var _ := files.PersistLocalAccountBinding(record.value, c.bindOutcome);
      }
    }
  }

  /**
   The boot sequence: device key, claimed flag, secret, display, shared state; no
   state if the process exits. `seed` is what a newly generated key would store.
   */
  method Start(files: StateDirectory, me: Identity, seed: Array32, keyWritten: Option<WriteOutcome>,
               generated: Array16, secretOutcome: WriteOutcome, ratePerMinute: nat)
    returns (app: AppState?, screen: Option<string>)
    modifies files
    ensures var b := BootAttempt(old(files.Contents()), keyWritten, generated, secretOutcome);
            && files.Contents() == b.disk
            && (app == null <==> b.secret.None?)
            && (app != null ==> app.Valid() && app.files == files && app.me == me && Some(app.secret) == b.secret
                                && app.pending.challenges == map[] && app.limiter.history == [])
            && (screen.Some? <==> b.displayed)
            && (screen.Some? ==> app != null && screen.value == Crockford.Displayed(app.secret)
                                 && Crockford.Decoded(screen.value) == Some(app.secret))
    ensures var stored := old(files.secret).now;
            var keyStored := keyWritten.None? || keyWritten.value.Synced?;
            var found := stored.Some? && |stored.value| == 16;
            && (app != null <==> keyStored && (found || secretOutcome.Synced?))
            && (app != null ==> app.secret == if found then stored.value else generated)
            && (screen.Some? <==> app != null && old(files.marker).now.None?)
            && files.secret.now == (if keyStored && !found && !secretOutcome.Failed? then Some(generated) else stored)
    ensures files.marker.now == old(files.marker).now && files.binding.now == old(files.binding).now
    ensures files.creds.now == old(files.creds).now
  {
    app, screen := null, None;
    if keyWritten.Some? {
      var ok := files.PersistDeviceKey(seed, keyWritten.value);
      if !ok { return; }
    }
    var alreadyClaimed := files.Claimed();
    var secret := files.LoadOrCreateSecret(generated, secretOutcome);
    if secret.None? { return; }
    if !alreadyClaimed {
      var text := Crockford.EncodeDisplay(secret.value);
      Crockford.RoundTrip(secret.value);
      screen := Some(text);
    }
    app := new AppState(me, secret.value, files, ratePerMinute);
  }
}
