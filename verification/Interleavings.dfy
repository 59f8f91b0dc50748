/**
 What one finish is answered when any number of other requests, joins and
 challenges interleave with it: a correct one wins unless another finish commits
 first, and a late one is refused.
 */
module Interleavings {
  import opened Common
  import opened ChallengeStore
  import opened Handshake
  import opened ClaimSystem
  import opened ClaimInvariants
  import opened ClaimTheorems
  import opened SoloRuns

  // ---- Steps of others ----

  /** The process keeps running. */
  predicate NoCrash(steps: seq<Step>) {
    forall k :: 0 <= k < |steps| ==> !steps[k].MachineCrash? && !steps[k].ProcessExit?
  }

  /** Finish `tid`, its answer and the process's own identity are the same in both states. */
  predicate Undisturbed(s: State, s': State, tid: Tid)
    requires s.phase.Up?
  {
    && s'.phase.Up?
    && s'.phase.proc.me == s.phase.proc.me && s'.phase.proc.secret == s.phase.proc.secret
    && (tid in s'.phase.proc.finishes <==> tid in s.phase.proc.finishes)
    && (tid in s.phase.proc.finishes ==> s'.phase.proc.finishes[tid] == s.phase.proc.finishes[tid])
    && (tid in s'.hist.responses <==> tid in s.hist.responses)
    && (tid in s.hist.responses ==> s'.hist.responses[tid] == s.hist.responses[tid])
  }

  lemma OtherUnlockedMove(s: State, tid: Tid, other: Tid, c: FinishChoice)
    requires s.phase.Up? && other in s.phase.proc.finishes && other != tid
    ensures Undisturbed(s, MoveUnlocked(s, other, s.phase.proc.finishes[other], c), tid)
  {
    var pc := s.phase.proc.finishes[other].pc;
    if pc.Admitted? {} else if pc.Checked? {} else if pc.NonceRead? {} else {}
  }

  lemma OtherCommittingMove(s: State, tid: Tid, other: Tid, c: FinishChoice)
    requires s.phase.Up? && other in s.phase.proc.finishes && other != tid
    ensures Undisturbed(s, MoveToCommit(s, other, s.phase.proc.finishes[other], c), tid)
  {
    var pc := s.phase.proc.finishes[other].pc;
    if pc.Locked? {} else if pc.Rechecked? {} else if pc.TpmPresent? {} else {}
  }

  lemma OtherCommittedMove(s: State, tid: Tid, other: Tid, c: FinishChoice)
    requires s.phase.Up? && other in s.phase.proc.finishes && other != tid
    ensures Undisturbed(s, MoveAfterCommit(s, other, s.phase.proc.finishes[other], c), tid)
  {
    var pc := s.phase.proc.finishes[other].pc;
    if pc.Marked? {} else if pc.SecretDeleted? {} else if pc.Bound? {} else if pc.Invalidated? {} else {}
  }

  /** A finish in flight and its answer change only by its own steps. */
  lemma OtherStepLeavesAlone(s: State, step: Step, tid: Tid)
    requires s.phase.Up? && tid < s.hist.nextTid && Enabled(s, step)
    requires !step.MachineCrash? && !step.ProcessExit? && (step.FinishMoves? ==> step.tid != tid)
    ensures Undisturbed(s, Next(s, step), tid)
  {
    if step.FinishMoves? {
      OtherUnlockedMove(s, tid, step.tid, step.fc);
      OtherCommittingMove(s, tid, step.tid, step.fc);
      OtherCommittedMove(s, tid, step.tid, step.fc);
    }
  }

  lemma NumbersGrow(s: State, step: Step)
    requires Enabled(s, step)
    ensures Next(s, step).hist.nextTid >= s.hist.nextTid
  {
    if step.FinishMoves? { MovesStayInside(s, step.tid, step.fc); }
  }

  // ---- Every finish is answered ----

  /** How many steps of the run are finish `tid`'s own. */
  function OwnMoves(steps: seq<Step>, tid: Tid): nat {
    if steps == [] then 0
    else
      var last := steps[|steps| - 1];
      OwnMoves(steps[..|steps| - 1], tid) + (if last.FinishMoves? && last.tid == tid then 1 else 0)
  }

  /** Answered, or still in flight with at most `left` own steps to go. */
  predicate AnsweredWithin(s: State, tid: Tid, left: int) {
    && s.phase.Up? && tid < s.hist.nextTid
    && (tid in s.hist.responses || (tid in s.phase.proc.finishes && RankOf(s, tid) <= left))
  }

  lemma OwnMoveStaysOrAnswers(s: State, tid: Tid, c: FinishChoice)
    requires s.phase.Up? && tid in s.phase.proc.finishes
    ensures var s' := NextFinishMoves(s, tid, c);
            s'.phase.Up? && (tid in s'.phase.proc.finishes || tid in s'.hist.responses)
  {
    var f := s.phase.proc.finishes[tid];
    if BeforeLock(f.pc) {} else if Committing(f.pc) {} else {}
  }

  lemma StepNearsAnswer(s: State, step: Step, tid: Tid, left: int)
    requires Inv(s) && Enabled(s, step) && !step.MachineCrash? && !step.ProcessExit? && AnsweredWithin(s, tid, left)
    ensures AnsweredWithin(Next(s, step), tid, if step.FinishMoves? && step.tid == tid then left - 1 else left)
  {
    InFlight(s);
    NumbersGrow(s, step);
    if step.FinishMoves? && step.tid == tid {
      MoveDescends(s, tid, step.fc);
      OwnMoveStaysOrAnswers(s, tid, step.fc);
    } else {
      OtherStepLeavesAlone(s, step, tid);
    }
  }

  lemma {:induction false} RunNearsAnswer(s: State, steps: seq<Step>, tid: Tid, left: int)
    requires Inv(s) && IsRun(s, steps) && NoCrash(steps) && AnsweredWithin(s, tid, left)
    ensures AnsweredWithin(AfterRun(s, steps), tid, left - OwnMoves(steps, tid))
  {
    if steps != [] {
      var init := steps[..|steps| - 1];
      RunNearsAnswer(s, init, tid, left);
      RunKeepsInv(s, init);
      StepNearsAnswer(AfterRun(s, init), steps[|steps| - 1], tid, left - OwnMoves(init, tid));
    }
  }

  /** In every interleaving a finish that has taken thirteen steps of its own has been answered. */
  lemma {:induction false} AnsweredAfterThirteen(s: State, steps: seq<Step>, tid: Tid)
    requires Inv(s) && s.phase.Up? && tid in s.phase.proc.finishes && IsRun(s, steps) && NoCrash(steps)
    requires OwnMoves(steps, tid) >= 13
    ensures tid in AfterRun(s, steps).hist.responses
  {
    InFlight(s);
    RunNearsAnswer(s, steps, tid, 13);
    NoneLeftMeansAnswered(AfterRun(s, steps), tid, 13 - OwnMoves(steps, tid));
  }

  lemma NoneLeftMeansAnswered(s: State, tid: Tid, left: int)
    requires AnsweredWithin(s, tid, left) && left <= 0
    ensures tid in s.hist.responses
  {}

  /** While finishes are in flight one of them can move: the lock is free, or its holder is not waiting for it. */
  lemma NeverStuck(s: State, tid: Tid) returns (mover: Tid)
    requires Inv(s) && s.phase.Up? && tid in s.phase.proc.finishes
    ensures forall c :: Enabled(s, FinishMoves(mover, c))
    ensures s.phase.proc.lock.None? ==> mover == tid
  {
    var p := s.phase.proc;
    mover := if p.lock.Some? then p.lock.value else tid;
    assert FinishOk(s.disk, s.hist, p.me, p.secret, p.lock, mover, p.finishes[mover]);
  }

  // ---- A correct finish ----

  /** The environment favours finish `tid` in this step: its challenge is alive, its TPM and marker steps succeed. */
  predicate FavoursStep(s: State, step: Step, tid: Tid, nonce: Nonce) {
    step.FinishMoves? && step.tid == tid && s.phase.Up? && tid in s.phase.proc.finishes ==>
      var p, c := s.phase.proc, step.fc;
      match p.finishes[tid].pc
      case Checked => Peeked(p.pending, p.finishes[tid].req.id, c.now) == Some(nonce)
      case Rechecked => !c.presence.PresentButUnavailable?
      case TpmPresent => c.discardOk
      case CustodyKnown => c.markOutcome.Synced?
      case _ => true
  }

  ghost predicate Favours(s: State, steps: seq<Step>, tid: Tid, nonce: Nonce)
    requires IsRun(s, steps)
    decreases |steps|
  {
    steps == [] ||
    (var init := steps[..|steps| - 1];
     Favours(s, init, tid, nonce) && FavoursStep(AfterRun(s, init), steps[|steps| - 1], tid, nonce))
  }

  /** A commit of another finish, after the first `from`. */
  ghost predicate AnotherCommitted(from: nat, commits: seq<Commit>, tid: Tid) {
    exists k :: from <= k < |commits| && commits[k].tid != tid
  }

  /** Finish `tid` is on its way to 200, unless another has committed since there were `from` commits. */
  ghost predicate OnCourse(s: State, tid: Tid, req: FinishRequest, claim: Claim, from: nat) {
    && s.phase.Up? && s.phase.proc.secret == claim.secret && s.phase.proc.me.boxKey == claim.boxKey
    && tid < s.hist.nextTid && from <= |s.hist.commits|
    && if tid in s.hist.responses then
         || (s.hist.responses[tid].Claimed200? && Won(s.hist.commits) && Last(s.hist.commits).claim == claim)
         || (s.hist.responses[tid].AlreadyClaimed409? && AnotherCommitted(from, s.hist.commits, tid))
       else
         && tid in s.phase.proc.finishes
         && NotRefusedYet(s, s.phase.proc.finishes[tid], tid, req, claim, from)
  }

  ghost predicate NotRefusedYet(s: State, f: Finish, tid: Tid, req: FinishRequest, claim: Claim, from: nat) {
    && f.req == req
    && (!f.pc.Admitted? && !f.pc.Checked? ==> f.nonce == claim.nonce)
    && (IsClaimed(s.disk) && !Committed(f.pc) ==> AnotherCommitted(from, s.hist.commits, tid))
  }

  /** Finish `tid` itself moves, in a state that favours it. */
  ghost predicate OwnMove(s: State, tid: Tid, c: FinishChoice, claim: Claim, from: nat) {
    && Inv(s) && Enabled(s, FinishMoves(tid, c)) && tid !in s.hist.responses
    && Correct(s.phase.proc.finishes[tid].req, claim) && OnCourse(s, tid, s.phase.proc.finishes[tid].req, claim, from)
    && FavoursStep(s, FinishMoves(tid, c), tid, claim.nonce)
  }

  lemma OwnUnlockedMove(s: State, tid: Tid, c: FinishChoice, claim: Claim, from: nat)
    requires OwnMove(s, tid, c, claim, from) && BeforeLock(s.phase.proc.finishes[tid].pc)
    ensures OnCourse(Next(s, FinishMoves(tid, c)), tid, s.phase.proc.finishes[tid].req, claim, from)
  {
    var pc := s.phase.proc.finishes[tid].pc;
    if pc.NonceRead? { OwnVerdict(s, tid, c, claim, from); } else if pc.Admitted? {} else if pc.Checked? {} else {}
  }

  lemma OwnVerdict(s: State, tid: Tid, c: FinishChoice, claim: Claim, from: nat)
    requires OwnMove(s, tid, c, claim, from) && s.phase.proc.finishes[tid].pc.NonceRead?
    ensures OnCourse(Next(s, FinishMoves(tid, c)), tid, s.phase.proc.finishes[tid].req, claim, from)
  {
    assert Verdict(s.phase.proc.finishes[tid].req, claim.nonce, claim.boxKey, claim.secret).None?;
  }

  lemma OwnRecheck(s: State, tid: Tid, c: FinishChoice, claim: Claim, from: nat)
    requires OwnMove(s, tid, c, claim, from) && s.phase.proc.finishes[tid].pc.Locked?
    ensures OnCourse(Next(s, FinishMoves(tid, c)), tid, s.phase.proc.finishes[tid].req, claim, from)
  {}

  lemma OwnTpmMove(s: State, tid: Tid, c: FinishChoice, claim: Claim, from: nat)
    requires OwnMove(s, tid, c, claim, from)
    requires s.phase.proc.finishes[tid].pc.Rechecked? || s.phase.proc.finishes[tid].pc.TpmPresent?
    ensures OnCourse(Next(s, FinishMoves(tid, c)), tid, s.phase.proc.finishes[tid].req, claim, from)
  {
    if s.phase.proc.finishes[tid].pc.TpmPresent? {} else if c.presence.Present? {} else {}
  }

  lemma OwnMarkerWrite(s: State, tid: Tid, c: FinishChoice, claim: Claim, from: nat)
    requires OwnMove(s, tid, c, claim, from) && s.phase.proc.finishes[tid].pc.CustodyKnown?
    ensures OnCourse(Next(s, FinishMoves(tid, c)), tid, s.phase.proc.finishes[tid].req, claim, from)
  {}

  lemma OwnLateMove(s: State, tid: Tid, c: FinishChoice, claim: Claim, from: nat)
    requires s.phase.Up? && tid in s.phase.proc.finishes && tid !in s.hist.responses
    requires var f := s.phase.proc.finishes[tid];
             && Correct(f.req, claim) && OnCourse(s, tid, f.req, claim, from)
             && (f.pc.Marked? || f.pc.SecretDeleted? || f.pc.Bound? || f.pc.Invalidated?)
    ensures OnCourse(NextFinishMoves(s, tid, c), tid, s.phase.proc.finishes[tid].req, claim, from)
  {
    var pc := s.phase.proc.finishes[tid].pc;
    if pc.Marked? {} else if pc.SecretDeleted? {} else if pc.Bound? {} else {}
  }

  lemma OwnAnswer(s: State, tid: Tid, c: FinishChoice, claim: Claim, from: nat)
    requires OwnMove(s, tid, c, claim, from) && s.phase.proc.finishes[tid].pc.Released?
    ensures OnCourse(Next(s, FinishMoves(tid, c)), tid, s.phase.proc.finishes[tid].req, claim, from)
  {
    var p := s.phase.proc;
    assert FinishOk(s.disk, s.hist, p.me, p.secret, p.lock, tid, p.finishes[tid]);
  }

  lemma OwnMoveStaysOnCourse(s: State, tid: Tid, c: FinishChoice, claim: Claim, from: nat)
    requires OwnMove(s, tid, c, claim, from)
    ensures OnCourse(Next(s, FinishMoves(tid, c)), tid, s.phase.proc.finishes[tid].req, claim, from)
  {
    match s.phase.proc.finishes[tid].pc
    case Locked => OwnRecheck(s, tid, c, claim, from);
    case Rechecked => OwnTpmMove(s, tid, c, claim, from);
    case TpmPresent => OwnTpmMove(s, tid, c, claim, from);
    case CustodyKnown => OwnMarkerWrite(s, tid, c, claim, from);
    case Marked => OwnLateMove(s, tid, c, claim, from);
    case SecretDeleted => OwnLateMove(s, tid, c, claim, from);
    case Bound => OwnLateMove(s, tid, c, claim, from);
    case Invalidated => OwnLateMove(s, tid, c, claim, from);
    case Released => OwnAnswer(s, tid, c, claim, from);
    case _ => OwnUnlockedMove(s, tid, c, claim, from);
  }

  lemma OtherStepStaysOnCourse(s: State, step: Step, tid: Tid, req: FinishRequest, claim: Claim, from: nat)
    requires Inv(s) && Enabled(s, step) && !step.MachineCrash? && !step.ProcessExit?
    requires step.FinishMoves? ==> step.tid != tid || tid in s.hist.responses
    requires OnCourse(s, tid, req, claim, from)
    ensures OnCourse(Next(s, step), tid, req, claim, from)
  {
    InFlight(s);
    OtherStepLeavesAlone(s, step, tid);
    NumbersGrow(s, step);
    OtherStepAndTheCommits(s, step, tid, from);
    if tid in s.hist.responses && s.hist.responses[tid].Claimed200? {
      WinnerIsLast(s, step);
    }
  }

  /** A step of others never takes a commit away, and if it claims the box the commit is another's. */
  lemma OtherStepAndTheCommits(s: State, step: Step, tid: Tid, from: nat)
    requires Inv(s) && Enabled(s, step) && !step.MachineCrash? && (step.FinishMoves? ==> step.tid != tid)
    requires from <= |s.hist.commits|
    ensures var s' := Next(s, step);
            && |s'.hist.commits| >= |s.hist.commits|
            && (AnotherCommitted(from, s.hist.commits, tid) ==> AnotherCommitted(from, s'.hist.commits, tid))
            && (IsClaimed(s'.disk) && !IsClaimed(s.disk) ==> AnotherCommitted(from, s'.hist.commits, tid))
  {
    var s' := Next(s, step);
    StepAndTheMarker(s, step);
    AnotherStays(from, s.hist.commits, s'.hist.commits, tid);
    if step.FinishMoves? && MarkerCreated(s, s', step.tid) {
      assert s'.hist.commits[|s.hist.commits|].tid == step.tid;
    }
  }

  lemma AnotherStays(from: nat, commits: seq<Commit>, more: seq<Commit>, tid: Tid)
    requires commits <= more
    ensures AnotherCommitted(from, commits, tid) ==> AnotherCommitted(from, more, tid)
  {
    if k :| from <= k < |commits| && commits[k].tid != tid { assert more[k] == commits[k]; }
  }

  lemma StepStaysOnCourse(s: State, step: Step, tid: Tid, req: FinishRequest, claim: Claim, from: nat)
    requires Inv(s) && Enabled(s, step) && !step.MachineCrash? && !step.ProcessExit?
    requires Correct(req, claim) && OnCourse(s, tid, req, claim, from) && FavoursStep(s, step, tid, claim.nonce)
    ensures OnCourse(Next(s, step), tid, req, claim, from)
  {
    if step.FinishMoves? && step.tid == tid && tid !in s.hist.responses {
      OwnMoveStaysOnCourse(s, tid, step.fc, claim, from);
    } else {
      OtherStepStaysOnCourse(s, step, tid, req, claim, from);
    }
  }

  lemma {:induction false} RunStaysOnCourse(s: State, steps: seq<Step>, tid: Tid,
                                            req: FinishRequest, claim: Claim, from: nat)
    requires Inv(s) && IsRun(s, steps) && NoCrash(steps) && Favours(s, steps, tid, claim.nonce)
    requires Correct(req, claim) && OnCourse(s, tid, req, claim, from)
    ensures OnCourse(AfterRun(s, steps), tid, req, claim, from)
  {
    if steps != [] {
      var init := steps[..|steps| - 1];
      RunStaysOnCourse(s, init, tid, req, claim, from);
      RunKeepsInv(s, init);
      StepStaysOnCourse(AfterRun(s, init), steps[|steps| - 1], tid, req, claim, from);
    }
  }

  /**
   A correct finish admitted on an unclaimed box, whatever else happens in the
   process: if its challenge is alive at its lookup and its own TPM and marker
   steps succeed, it is answered, once it has taken its steps, with 200 and owns
   the box, or with 409 and another finish committed in the meantime.
   */
  lemma CorrectFinishWins(s: State, steps: seq<Step>, tid: Tid, nonce: Nonce, owner: Array32)
    requires Inv(s) && s.phase.Up? && tid in s.phase.proc.finishes && s.phase.proc.finishes[tid].pc.Admitted?
    requires var p := s.phase.proc; Correct(p.finishes[tid].req, Claim(p.secret, nonce, owner, p.me.boxKey))
    requires !IsClaimed(s.disk) && IsRun(s, steps) && NoCrash(steps) && Favours(s, steps, tid, nonce)
    ensures var h := AfterRun(s, steps).hist;
            tid in h.responses ==>
              || (h.responses[tid].Claimed200? && Won(h.commits) && Last(h.commits).claim.owner == owner)
              || (h.responses[tid].AlreadyClaimed409? && AnotherCommitted(|s.hist.commits|, h.commits, tid))
    ensures OwnMoves(steps, tid) >= 13 ==> tid in AfterRun(s, steps).hist.responses
  {
    var p := s.phase.proc;
    InFlight(s);
    if OwnMoves(steps, tid) >= 13 { AnsweredAfterThirteen(s, steps, tid); }
    RunStaysOnCourse(s, steps, tid, p.finishes[tid].req, Claim(p.secret, nonce, owner, p.me.boxKey), |s.hist.commits|);
  }

  /** The same for a retry: after any interleaving of refused finishes a correct one on the same challenge wins. */
  lemma RetryWins(s: State, failed: seq<Step>, req: FinishRequest, steps: seq<Step>, nonce: Nonce, owner: Array32)
    requires Inv(s) && s.phase.Up? && s.phase.proc.finishes == map[] && !IsClaimed(s.disk) && IsRun(s, failed)
    requires forall k :: 0 <= k < |failed| ==> FinishStep(failed[k])
    requires var m := AfterRun(s, failed);
             forall tid :: s.hist.nextTid <= tid < m.hist.nextTid ==>
               tid in m.hist.responses && BurnsNothing(m.hist.responses[tid])
    requires Correct(req, Claim(s.phase.proc.secret, nonce, owner, s.phase.proc.me.boxKey))
    requires var m := AfterRun(s, failed);
             && Enabled(m, FinishArrives(req, true))
             && IsRun(Next(m, FinishArrives(req, true)), steps) && NoCrash(steps)
             && Favours(Next(m, FinishArrives(req, true)), steps, m.hist.nextTid, nonce)
    ensures var m := AfterRun(s, failed);
            var h, tid := AfterRun(Next(m, FinishArrives(req, true)), steps).hist, m.hist.nextTid;
            && m.phase.Up? && m.phase.proc.pending == s.phase.proc.pending && m.disk == s.disk
            && (OwnMoves(steps, tid) >= 13 ==> tid in h.responses)
            && (tid in h.responses ==>
                  || (h.responses[tid].Claimed200? && Won(h.commits) && Last(h.commits).claim.owner == owner)
                  || (h.responses[tid].AlreadyClaimed409? && AnotherCommitted(|s.hist.commits|, h.commits, tid)))
  {
    var m := AfterRun(s, failed);
    FailedAttemptsBurnNothing(s, failed);
    StepKeepsInv(m, FinishArrives(req, true));
    CorrectFinishWins(Next(m, FinishArrives(req, true)), steps, m.hist.nextTid, nonce, owner);
  }

  // ---- A late finish ----

  /** The claim cannot be undone: it is settled, or no machine crashes. */
  predicate ClaimHolds(s: State, steps: seq<Step>) {
    IsClaimed(s.disk) && (Settled(s.disk) || forall k :: 0 <= k < |steps| ==> !steps[k].MachineCrash?)
  }

  lemma {:induction false} ClaimHoldsAlong(s: State, steps: seq<Step>)
    requires Inv(s) && IsRun(s, steps) && ClaimHolds(s, steps)
    ensures IsClaimed(AfterRun(s, steps).disk) && AfterRun(s, steps).hist.commits == s.hist.commits
  {
    if steps != [] {
      var init, step := steps[..|steps| - 1], steps[|steps| - 1];
      RunKeepsInv(s, init);
      if Settled(s.disk) {
        WinnerIsLastForever(s, steps);
      } else {
        ClaimHoldsAlong(s, init);
        StepAndTheMarker(AfterRun(s, init), step);
      }
    }
  }

  /** Finish `tid` is at one of the two looks at the marker, or has been refused there. */
  predicate RefusedOrAboutToBe(s: State, tid: Tid) {
    && tid < s.hist.nextTid && tid !in s.hist.effects
    && if tid in s.hist.responses then s.hist.responses[tid].AlreadyClaimed409?
       else
         s.phase.Up? && tid in s.phase.proc.finishes ==>
           var pc := s.phase.proc.finishes[tid].pc;
           pc.Admitted? || pc.Verified? || pc.Locked?
  }

  lemma StepRefusesLate(s: State, step: Step, tid: Tid)
    requires Inv(s) && Enabled(s, step) && IsClaimed(s.disk) && RefusedOrAboutToBe(s, tid)
    ensures RefusedOrAboutToBe(Next(s, step), tid)
  {
    NumbersGrow(s, step);
    if step.FinishMoves? && step.tid == tid {
      InFlight(s);
    } else if s.phase.Up? && !step.MachineCrash? && !step.ProcessExit? {
      OtherStepLeavesAlone(s, step, tid);
      if step.FinishMoves? { EffectsOfOneMove(s, step.tid, step.fc); }
    }
  }

  /**
   Every finish that reaches either look at the marker after a commit is refused
   with 409, in every continuation, and changes nothing: the unlocked check, or
   the authoritative one once it holds the lock.
   */
  lemma {:induction false} LateFinishGets409(s: State, steps: seq<Step>, tid: Tid)
    requires Inv(s) && IsRun(s, steps) && ClaimHolds(s, steps)
    requires s.phase.Up? && tid in s.phase.proc.finishes
    requires var pc := s.phase.proc.finishes[tid].pc; pc.Admitted? || pc.Verified? || pc.Locked?
    ensures RefusedOrAboutToBe(AfterRun(s, steps), tid)
    ensures var h := AfterRun(s, steps).hist;
            (tid in h.responses ==> h.responses[tid] == AlreadyClaimed409) && tid !in h.effects
  {
    if steps == [] {
      var p := s.phase.proc;
      assert FinishOk(s.disk, s.hist, p.me, p.secret, p.lock, tid, p.finishes[tid]);
    } else {
      var init := steps[..|steps| - 1];
      LateFinishGets409(s, init, tid);
      ClaimHoldsAlong(s, init);
      RunKeepsInv(s, init);
      StepRefusesLate(AfterRun(s, init), steps[|steps| - 1], tid);
    }
  }
}
