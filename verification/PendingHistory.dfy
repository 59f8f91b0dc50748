/**
 The challenge store inside the step system: in every reachable state the pending
 challenges are what a legal history of insertions and invalidations leaves, so
 everything proved of such histories holds of the running box.
 */
module PendingHistory {
  import opened Common
  import opened ClaimSystem
  import CS = ChallengeStore

  /** What one step adds to the history; a process that is not serving has none. */
  function OpsAfter(s: State, ops: seq<CS.Op>, step: Step): seq<CS.Op>
    requires Enabled(s, step)
  {
    match step
    case ChallengeInserts(id, nonce, now, victim) => ops + [CS.Insert(id, nonce, now, CS.CHALLENGE_TTL, victim)]
    case FinishMoves(tid, _) =>
      if Consumes(s.phase.proc.finishes[tid]) then ops + [CS.Invalidate(s.phase.proc.finishes[tid].req.id)] else ops
    case LoadKey(_, _) => []
    case ReadClaimed => []
    case LoadSecret(_, _) => []
    case ProcessExit => []
    case MachineCrash(_, _, _, _) => []
    case _ => ops
  }

  /** The finish invalidates its challenge next. */
  predicate Consumes(f: Finish) { f.pc.Bound? && f.req.clientPubkey.Some? }

  /** The insertions and invalidations since the process started, with the victims they evicted. */
  ghost function PendingOps(steps: seq<Step>): seq<CS.Op>
    requires IsRun(FreshBox(), steps)
    decreases |steps|
  {
    if steps == [] then []
    else
      var init := steps[..|steps| - 1];
      OpsAfter(AfterRun(FreshBox(), init), PendingOps(init), steps[|steps| - 1])
  }

  lemma MoveAndPending(s: State, tid: Tid, c: FinishChoice)
    requires s.phase.Up? && tid in s.phase.proc.finishes
    ensures var s', f := NextFinishMoves(s, tid, c), s.phase.proc.finishes[tid];
            && s'.phase.Up?
            && s'.phase.proc.pending ==
                 if Consumes(f) then s.phase.proc.pending - {f.req.id}
                 else s.phase.proc.pending
  {
    var f := s.phase.proc.finishes[tid];
    if BeforeLock(f.pc) {} else if Committing(f.pc) {} else {}
  }

  /** The pending challenges are what the history leaves. */
  ghost predicate IsHistory(s: State, ops: seq<CS.Op>) {
    CS.Legal(ops) && (s.phase.Up? ==> s.phase.proc.pending == CS.After(ops))
  }

  lemma InsertExtendsHistory(s: State, ops: seq<CS.Op>, step: Step)
    requires IsHistory(s, ops) && Enabled(s, step) && step.ChallengeInserts?
    ensures IsHistory(Next(s, step), OpsAfter(s, ops, step))
  {
    CS.LegalSnoc(ops, CS.Insert(step.id, step.nonce, step.now, CS.CHALLENGE_TTL, step.victim));
  }

  lemma FinishExtendsHistory(s: State, ops: seq<CS.Op>, tid: Tid, c: FinishChoice)
    requires IsHistory(s, ops) && Enabled(s, FinishMoves(tid, c))
    ensures IsHistory(NextFinishMoves(s, tid, c), OpsAfter(s, ops, FinishMoves(tid, c)))
  {
    MoveAndPending(s, tid, c);
    CS.LegalSnoc(ops, CS.Invalidate(s.phase.proc.finishes[tid].req.id));
  }

  lemma OtherStepKeepsHistory(s: State, ops: seq<CS.Op>, step: Step)
    requires IsHistory(s, ops) && Enabled(s, step) && !step.ChallengeInserts? && !step.FinishMoves?
    ensures IsHistory(Next(s, step), OpsAfter(s, ops, step))
  {}

  lemma {:induction false} PendingIsHistory(steps: seq<Step>)
    requires IsRun(FreshBox(), steps)
    ensures IsHistory(AfterRun(FreshBox(), steps), PendingOps(steps))
  {
    if steps != [] {
      var init, step := steps[..|steps| - 1], steps[|steps| - 1];
      var t := AfterRun(FreshBox(), init);
      PendingIsHistory(init);
      if step.ChallengeInserts? { InsertExtendsHistory(t, PendingOps(init), step); }
      else if step.FinishMoves? { FinishExtendsHistory(t, PendingOps(init), step.tid, step.fc); }
      else { OtherStepKeepsHistory(t, PendingOps(init), step); }
    }
  }

  /** Never more than 256 pending challenges, in any reachable state. */
  lemma {:induction false} PendingBounded(steps: seq<Step>)
    requires IsRun(FreshBox(), steps) && AfterRun(FreshBox(), steps).phase.Up?
    ensures |AfterRun(FreshBox(), steps).phase.proc.pending| <= 256
  {
    PendingIsHistory(steps);
    CS.StoreBounded(PendingOps(steps));
  }

  /** What a lookup of the running box answers, for any reading: the reference's answer unless evicted or swept. */
  lemma {:induction false} LookupInRun(steps: seq<Step>, id: CS.ChallengeId, now: nat)
    requires IsRun(FreshBox(), steps) && AfterRun(FreshBox(), steps).phase.Up?
    ensures CS.Peeked(AfterRun(FreshBox(), steps).phase.proc.pending, id, now)
         == if id in CS.Evicted(PendingOps(steps)) || id in CS.Swept(PendingOps(steps)) then None
            else CS.Peeked(CS.Unbounded(PendingOps(steps)), id, now)
  {
    PendingIsHistory(steps);
    CS.PeekIsReferenceExceptRemoved(PendingOps(steps), id, now);
  }

  /**
   A challenge of the running box is found, with its own nonce, within its 120
   seconds and through the next 255 challenges, while ids are fresh, insertion
   times increase and nothing has been invalidated.
   */
  lemma {:induction false} LookupSucceeds(steps: seq<Step>, entries: seq<CS.Entry>,
                                          victims: seq<Option<CS.ChallengeId>>, i: nat, now: nat)
    requires IsRun(FreshBox(), steps) && AfterRun(FreshBox(), steps).phase.Up?
    requires CS.Sequence(entries) && |victims| == |entries|
    requires PendingOps(steps) == CS.History(entries, CS.CHALLENGE_TTL, victims)
    requires i < |entries| && |entries| - 1 - i <= 255
    requires entries[|entries| - 1].at <= now < entries[i].at + CS.CHALLENGE_TTL
    ensures CS.Peeked(AfterRun(FreshBox(), steps).phase.proc.pending, entries[i].id, now) == Some(entries[i].nonce)
  {
    PendingIsHistory(steps);
    CS.SurvivesNext255(entries, CS.CHALLENGE_TTL, victims, i, now);
  }
}
