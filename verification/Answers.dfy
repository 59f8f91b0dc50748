/**
 Which answer a finish gets and when, in every interleaving: for each status
 exactly the step that gives it first, from what is on disk, in memory and in
 the request at that step.
 */
module Answers {
  import opened Common
  import opened DurableFile
  import opened ChallengeStore
  import opened Handshake
  import opened Tpm
  import opened ClaimSystem
  import opened ClaimInvariants
  import opened SoloRuns
  import opened Interleavings

  /** The step is finish `tid`'s own, taken at `pc`. */
  predicate Takes(s: State, step: Step, tid: Tid, pc: Pc) {
    && step.FinishMoves? && step.tid == tid
    && s.phase.Up? && tid in s.phase.proc.finishes && s.phase.proc.finishes[tid].pc == pc
  }

  /** After the step finish `tid` has been answered `status`. */
  predicate Gives(s: State, step: Step, tid: Tid, status: Status)
    requires Enabled(s, step)
  {
    var r := Next(s, step).hist.responses;
    tid in r && r[tid] == status
  }

  // ---- The answer of one move ----

  function AnswerOf(d: Disk, p: Process, f: Finish, c: FinishChoice): Option<Status> {
    match f.pc
    case Admitted => if IsClaimed(d) then Some(AlreadyClaimed409) else None
    case Checked =>
      if !f.req.wellFormed then Some(Malformed400)
      else if Peeked(p.pending, f.req.id, c.now).None? then Some(ChallengeNotFound410)
      else None
    case NonceRead => Verdict(f.req, f.nonce, p.me.boxKey, p.secret)
    case Locked => if IsClaimed(d) then Some(AlreadyClaimed409) else None
    case Rechecked => if c.presence.PresentButUnavailable? then Some(Internal500) else None
    case TpmPresent => if c.discardOk then None else Some(Internal500)
    case CustodyKnown => if c.markOutcome.Synced? then None else Some(Internal500)
    case Released => Some(Claimed200)
    case _ => None
  }

  /** `responses'` is `responses` with this answer for `tid`, if there is one. */
  predicate AnsweredAs(responses: map<Tid, Status>, responses': map<Tid, Status>, tid: Tid, answer: Option<Status>) {
    responses' == if answer.Some? then responses[tid := answer.value] else responses
  }

  lemma UnlockedAnswer(s: State, tid: Tid, c: FinishChoice)
    requires s.phase.Up? && tid in s.phase.proc.finishes && BeforeLock(s.phase.proc.finishes[tid].pc)
    ensures var p := s.phase.proc;
            AnsweredAs(s.hist.responses, MoveUnlocked(s, tid, p.finishes[tid], c).hist.responses, tid,
                       AnswerOf(s.disk, p, p.finishes[tid], c))
  {
    var pc := s.phase.proc.finishes[tid].pc;
    if pc.Admitted? {} else if pc.Checked? {} else if pc.NonceRead? {} else {}
  }

  lemma CommittingAnswer(s: State, tid: Tid, c: FinishChoice)
    requires s.phase.Up? && tid in s.phase.proc.finishes && Committing(s.phase.proc.finishes[tid].pc)
    requires s.phase.proc.finishes[tid].req.clientPubkey.Some?
    ensures var p := s.phase.proc;
            AnsweredAs(s.hist.responses, MoveToCommit(s, tid, p.finishes[tid], c).hist.responses, tid,
                       AnswerOf(s.disk, p, p.finishes[tid], c))
  {
    var pc := s.phase.proc.finishes[tid].pc;
    if pc.Locked? {} else if pc.Rechecked? {} else if pc.TpmPresent? {} else {}
  }

  lemma CommittedAnswer(s: State, tid: Tid, c: FinishChoice)
    requires s.phase.Up? && tid in s.phase.proc.finishes && Committed(s.phase.proc.finishes[tid].pc)
    requires s.phase.proc.finishes[tid].req.clientPubkey.Some?
    ensures var p := s.phase.proc;
            AnsweredAs(s.hist.responses, MoveAfterCommit(s, tid, p.finishes[tid], c).hist.responses, tid,
                       AnswerOf(s.disk, p, p.finishes[tid], c))
  {
    var pc := s.phase.proc.finishes[tid].pc;
    if pc.Marked? {} else if pc.SecretDeleted? {} else if pc.Bound? {} else if pc.Invalidated? {} else {}
  }

  lemma VerifiedHasKey(s: State, tid: Tid)
    requires Inv(s) && s.phase.Up? && tid in s.phase.proc.finishes && !BeforeLock(s.phase.proc.finishes[tid].pc)
    ensures s.phase.proc.finishes[tid].req.clientPubkey.Some?
  {
    assert ProofOk(s.net, s.phase.proc.me, s.phase.proc.secret, s.phase.proc.finishes[tid]);
  }

  lemma MoveAnswer(s: State, tid: Tid, c: FinishChoice)
    requires Inv(s) && s.phase.Up? && tid in s.phase.proc.finishes
    ensures var p := s.phase.proc;
            AnsweredAs(s.hist.responses, NextFinishMoves(s, tid, c).hist.responses, tid,
                       AnswerOf(s.disk, p, p.finishes[tid], c))
  {
    var f := s.phase.proc.finishes[tid];
    if BeforeLock(f.pc) {
      UnlockedAnswer(s, tid, c);
    } else {
      VerifiedHasKey(s, tid);
      if Committing(f.pc) { CommittingAnswer(s, tid, c); } else { CommittedAnswer(s, tid, c); }
    }
  }

  /** The answer a step gives to finish `tid`: only its own steps do, or its being turned away on arrival. */
  function AnswerTo(s: State, step: Step, tid: Tid): Option<Status> {
    match step
    case FinishArrives(_, within) => if !within && tid == s.hist.nextTid then Some(RateLimited429) else None
    case FinishMoves(mover, c) =>
      if mover == tid && s.phase.Up? && tid in s.phase.proc.finishes
      then AnswerOf(s.disk, s.phase.proc, s.phase.proc.finishes[tid], c) else None
    case _ => None
  }

  lemma OwnOrOtherMove(s: State, mover: Tid, c: FinishChoice, tid: Tid, status: Status)
    requires Inv(s) && Enabled(s, FinishMoves(mover, c)) && tid !in s.hist.responses
    ensures var r := NextFinishMoves(s, mover, c).hist.responses;
            (tid in r && r[tid] == status) <==> AnswerTo(s, FinishMoves(mover, c), tid) == Some(status)
  {
    MoveAnswer(s, mover, c);
  }

  lemma OtherAnswer(s: State, step: Step, tid: Tid, status: Status)
    requires Enabled(s, step) && tid !in s.hist.responses && !step.FinishMoves?
    ensures Gives(s, step, tid, status) <==> AnswerTo(s, step, tid) == Some(status)
  {}

  lemma StepAnswer(s: State, step: Step, tid: Tid, status: Status)
    requires Reaches(FreshBox(), s) && Enabled(s, step) && tid !in s.hist.responses
    ensures Gives(s, step, tid, status) <==> AnswerTo(s, step, tid) == Some(status)
  {
    if step.FinishMoves? {
      ReachableInv(s);
      OwnOrOtherMove(s, step.tid, step.fc, tid, status);
    } else {
      OtherAnswer(s, step, tid, status);
    }
  }

  lemma ReachableInv(s: State)
    requires Reaches(FreshBox(), s)
    ensures Inv(s)
  {
    FreshBoxInv();
    ReachesKeepsInv(FreshBox(), s);
  }

  // ---- Which step gives which answer ----

  /** 429: on arrival, over budget. */
  lemma GivesRateLimited(s: State, step: Step, tid: Tid)
    requires Reaches(FreshBox(), s) && Enabled(s, step) && tid !in s.hist.responses
    ensures Gives(s, step, tid, RateLimited429) <==>
      step.FinishArrives? && !step.withinBudget && tid == s.hist.nextTid
  {
    StepAnswer(s, step, tid, RateLimited429);
  }

  /** 409: at the unlocked or the locked look at the marker, when there is one. */
  lemma GivesAlreadyClaimed(s: State, step: Step, tid: Tid)
    requires Reaches(FreshBox(), s) && Enabled(s, step) && tid !in s.hist.responses
    ensures Gives(s, step, tid, AlreadyClaimed409) <==>
      (Takes(s, step, tid, Admitted) || Takes(s, step, tid, Locked)) && s.disk.marker.now.Some?
  {
    StepAnswer(s, step, tid, AlreadyClaimed409);
  }

  /** 410: at the lookup of a well-formed request, when its challenge is missing or has expired. */
  lemma GivesChallengeNotFound(s: State, step: Step, tid: Tid)
    requires Reaches(FreshBox(), s) && Enabled(s, step) && tid !in s.hist.responses
    ensures Gives(s, step, tid, ChallengeNotFound410) <==>
      && Takes(s, step, tid, Checked)
      && var req, pending := s.phase.proc.finishes[tid].req, s.phase.proc.pending;
         req.wellFormed && (req.id in pending ==> pending[req.id].expiresAt <= step.fc.now)
  {
    StepAnswer(s, step, tid, ChallengeNotFound410);
  }

  /**
   400: a malformed body, a key or proof that does not decode, or, once the proof
   has matched, a signature that does not decode or a key off the curve.
   */
  lemma GivesMalformed(s: State, step: Step, tid: Tid)
    requires Reaches(FreshBox(), s) && Enabled(s, step) && tid !in s.hist.responses
    ensures Gives(s, step, tid, Malformed400) <==>
      || (Takes(s, step, tid, Checked) && !s.phase.proc.finishes[tid].req.wellFormed)
      || (&& Takes(s, step, tid, NonceRead)
          && var f, p := s.phase.proc.finishes[tid], s.phase.proc;
             || f.req.clientPubkey.None? || f.req.clientProof.None?
             || (&& f.req.clientProof.value ==
                      Hmac(p.secret, Ascii("benix-claim/client")
                                     + f.nonce + f.req.clientPubkey.value + p.me.boxKey)
                 && (f.req.clientSig.None? || !f.req.keyOnCurve)))
  {
    StepAnswer(s, step, tid, Malformed400);
    if Takes(s, step, tid, NonceRead) {
      VerdictIs(s.phase.proc.finishes[tid].req, s.phase.proc.finishes[tid].nonce, s.phase.proc.me.boxKey,
                s.phase.proc.secret);
    }
  }

  /** 401: a proof other than the keyed tag, or a matching proof whose decoded signature is not the owner key's. */
  lemma GivesInvalidProof(s: State, step: Step, tid: Tid)
    requires Reaches(FreshBox(), s) && Enabled(s, step) && tid !in s.hist.responses
    ensures Gives(s, step, tid, InvalidProof401) <==>
      && Takes(s, step, tid, NonceRead)
      && var f, p := s.phase.proc.finishes[tid], s.phase.proc;
         && f.req.clientPubkey.Some? && f.req.clientProof.Some?
         && var tag := Hmac(p.secret, Ascii("benix-claim/client")
                                      + f.nonce + f.req.clientPubkey.value + p.me.boxKey);
            || f.req.clientProof.value != tag
            || (&& f.req.clientSig.Some? && f.req.keyOnCurve
                && f.req.clientSig.value != Signed(f.req.clientPubkey.value, f.req.id, tag))
  {
    StepAnswer(s, step, tid, InvalidProof401);
    if Takes(s, step, tid, NonceRead) {
      VerdictIs(s.phase.proc.finishes[tid].req, s.phase.proc.finishes[tid].nonce, s.phase.proc.me.boxKey,
                s.phase.proc.secret);
    }
  }

  /** 500: in the critical section, when the TPM cannot be reached, the discard fails, or the marker write fails. */
  lemma GivesInternal(s: State, step: Step, tid: Tid)
    requires Reaches(FreshBox(), s) && Enabled(s, step) && tid !in s.hist.responses
    ensures Gives(s, step, tid, Internal500) <==>
      || (Takes(s, step, tid, Rechecked) && step.fc.presence.PresentButUnavailable?)
      || (Takes(s, step, tid, TpmPresent) && !step.fc.discardOk)
      || (Takes(s, step, tid, CustodyKnown) && !step.fc.markOutcome.Synced?)
  {
    StepAnswer(s, step, tid, Internal500);
  }

  /** 200: once the lock is dropped, after everything else. */
  lemma GivesClaimed(s: State, step: Step, tid: Tid)
    requires Reaches(FreshBox(), s) && Enabled(s, step) && tid !in s.hist.responses
    ensures Gives(s, step, tid, Claimed200) <==> Takes(s, step, tid, Released)
  {
    StepAnswer(s, step, tid, Claimed200);
  }

  // ---- Over runs ----

  lemma AnswerStays(s: State, step: Step, tid: Tid)
    requires Inv(s) && Enabled(s, step) && tid in s.hist.responses
    ensures Gives(s, step, tid, s.hist.responses[tid])
  {
    if step.FinishMoves? {
      MoveAnswer(s, step.tid, step.fc);
      var p := s.phase.proc;
      assert FinishOk(s.disk, s.hist, p.me, p.secret, p.lock, step.tid, p.finishes[step.tid]);
    }
  }

  /** Step `k` of the run gave finish `tid` its first answer. */
  ghost predicate AnsweredBy(steps: seq<Step>, k: nat, tid: Tid, status: Status) {
    && k < |steps| && IsRun(FreshBox(), steps[..k]) && Enabled(AfterRun(FreshBox(), steps[..k]), steps[k])
    && tid !in AfterRun(FreshBox(), steps[..k]).hist.responses
    && Gives(AfterRun(FreshBox(), steps[..k]), steps[k], tid, status)
  }

  lemma AnswerStaysInRun(steps: seq<Step>, tid: Tid)
    requires steps != [] && IsRun(FreshBox(), steps)
    requires tid in AfterRun(FreshBox(), steps[..|steps| - 1]).hist.responses
    ensures var r, r' := AfterRun(FreshBox(), steps[..|steps| - 1]).hist.responses,
                         AfterRun(FreshBox(), steps).hist.responses;
            tid in r' && r'[tid] == r[tid]
  {
    var init := steps[..|steps| - 1];
    FreshBoxInv();
    RunKeepsInv(FreshBox(), init);
    AnswerStays(AfterRun(FreshBox(), init), steps[|steps| - 1], tid);
  }

  lemma AnsweredEarlier(steps: seq<Step>, k: nat, tid: Tid, status: Status)
    requires steps != [] && AnsweredBy(steps[..|steps| - 1], k, tid, status)
    ensures AnsweredBy(steps, k, tid, status)
  {
    assert steps[..|steps| - 1][..k] == steps[..k];
  }

  /** Every answer of a run was given by one step of it, from a reachable state, and is final. */
  lemma {:induction false} AnswerHasItsStep(steps: seq<Step>, tid: Tid) returns (k: nat)
    requires IsRun(FreshBox(), steps) && tid in AfterRun(FreshBox(), steps).hist.responses
    ensures AnsweredBy(steps, k, tid, AfterRun(FreshBox(), steps).hist.responses[tid])
    ensures Reaches(FreshBox(), AfterRun(FreshBox(), steps[..k]))
  {
    var init := steps[..|steps| - 1];
    if tid in AfterRun(FreshBox(), init).hist.responses {
      k := AnswerHasItsStep(init, tid);
      AnswerStaysInRun(steps, tid);
      AnsweredEarlier(steps, k, tid, AfterRun(FreshBox(), init).hist.responses[tid]);
    } else {
      k := |steps| - 1;
    }
  }

  /** The nonce has been read. */
  predicate PastLookup(pc: Pc) { !pc.Admitted? && !pc.Checked? }

  /** The step is finish `tid`'s lookup, and finds the challenge of `req` alive, with `nonce`. */
  predicate LooksUp(s: State, step: Step, tid: Tid, req: FinishRequest, nonce: Nonce) {
    && Takes(s, step, tid, Checked) && s.phase.proc.finishes[tid].req == req
    && var pending := s.phase.proc.pending;
       req.id in pending && step.fc.now < pending[req.id].expiresAt && pending[req.id].serverNonce == nonce
  }

  /** Past its lookup in both states, with the same request and nonce. */
  predicate SameLookup(s: State, s': State, tid: Tid)
    requires s'.phase.Up? && tid in s'.phase.proc.finishes
  {
    && s.phase.Up? && tid in s.phase.proc.finishes && PastLookup(s.phase.proc.finishes[tid].pc)
    && s.phase.proc.finishes[tid].req == s'.phase.proc.finishes[tid].req
    && s.phase.proc.finishes[tid].nonce == s'.phase.proc.finishes[tid].nonce
  }

  lemma UnlockedLookup(s: State, tid: Tid, c: FinishChoice)
    requires s.phase.Up? && tid in s.phase.proc.finishes && BeforeLock(s.phase.proc.finishes[tid].pc)
    ensures var s' := NextFinishMoves(s, tid, c);
            s'.phase.Up? && (tid in s'.phase.proc.finishes && PastLookup(s'.phase.proc.finishes[tid].pc) ==>
              var f := s'.phase.proc.finishes[tid];
              LooksUp(s, FinishMoves(tid, c), tid, f.req, f.nonce) || SameLookup(s, s', tid))
  {
    var pc := s.phase.proc.finishes[tid].pc;
    if pc.Admitted? {} else if pc.Checked? {} else if pc.NonceRead? {} else {}
  }

  lemma LaterMoveKeepsLookup(s: State, tid: Tid, c: FinishChoice)
    requires s.phase.Up? && tid in s.phase.proc.finishes && !BeforeLock(s.phase.proc.finishes[tid].pc)
    ensures var s' := NextFinishMoves(s, tid, c);
            s'.phase.Up? && (tid in s'.phase.proc.finishes ==> SameLookup(s, s', tid))
  {
    var pc := s.phase.proc.finishes[tid].pc;
    if Committing(pc) {
      if pc.Locked? {} else if pc.Rechecked? {} else if pc.TpmPresent? {} else {}
    } else {
      if pc.Marked? {} else if pc.SecretDeleted? {} else if pc.Bound? {} else if pc.Invalidated? {} else {}
    }
  }

  lemma StepLookup(s: State, step: Step, tid: Tid)
    requires Enabled(s, step) && Next(s, step).phase.Up? && tid in Next(s, step).phase.proc.finishes
    requires PastLookup(Next(s, step).phase.proc.finishes[tid].pc)
    ensures var f' := Next(s, step).phase.proc.finishes[tid];
            LooksUp(s, step, tid, f'.req, f'.nonce) || SameLookup(s, Next(s, step), tid)
  {
    if step.FinishMoves? {
      if step.tid != tid {
        OtherUnlockedMove(s, tid, step.tid, step.fc);
        OtherCommittingMove(s, tid, step.tid, step.fc);
        OtherCommittedMove(s, tid, step.tid, step.fc);
      } else if BeforeLock(s.phase.proc.finishes[tid].pc) {
        UnlockedLookup(s, tid, step.fc);
      } else {
        LaterMoveKeepsLookup(s, tid, step.fc);
      }
    }
  }

  /** Over runs: the nonce a finish is judged by is that of its own challenge, found alive at its own lookup. */
  lemma {:induction false} NonceIsOfItsChallenge(steps: seq<Step>, tid: Tid) returns (k: nat)
    requires IsRun(FreshBox(), steps)
    requires var t := AfterRun(FreshBox(), steps);
             t.phase.Up? && tid in t.phase.proc.finishes && PastLookup(t.phase.proc.finishes[tid].pc)
    ensures k < |steps| && IsRun(FreshBox(), steps[..k])
    ensures var f := AfterRun(FreshBox(), steps).phase.proc.finishes[tid];
            LooksUp(AfterRun(FreshBox(), steps[..k]), steps[k], tid, f.req, f.nonce)
  {
    var init, last := steps[..|steps| - 1], steps[|steps| - 1];
    var s, f := AfterRun(FreshBox(), init), AfterRun(FreshBox(), steps).phase.proc.finishes[tid];
    StepLookup(s, last, tid);
    if LooksUp(s, last, tid, f.req, f.nonce) {
      k := |steps| - 1;
    } else {
      k := NonceIsOfItsChallenge(init, tid);
      assert init[..k] == steps[..k];
    }
  }
}
