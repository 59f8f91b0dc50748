/**
 Calls on different files of one directory may interleave step by step. Once no
 call is in progress, the files are as some order of whole replacements leaves
 them: a call that returned `Ok` counts at its directory sync, one that failed
 after its rename counts before the sync, if any, that has settled it since.
 */
module OverlappingCalls {
  import opened Common
  import opened DurableFile
  import opened SharedDirectory
  import A = AtomicWrite

  // ---- Interleaved calls ----

  datatype Move = Move(file: FileId, step: A.Step)

  predicate OfACall(st: A.Step) { st.Begin? || A.WithinCall(st) }

  ghost predicate Interleaves(s: State, moves: seq<Move>)
    requires Inv(s)
    decreases |moves|, 0
  {
    moves == [] ||
    (var init, m := moves[..|moves| - 1], moves[|moves| - 1];
     Interleaves(s, init) && OfACall(m.step) && Enabled(AfterMoves(s, init), Call(m.file, m.step)))
  }

  ghost function AfterMoves(s: State, moves: seq<Move>): (t: State)
    requires Inv(s) && Interleaves(s, moves)
    ensures Inv(t) && |t.durable| == |s.durable|
    decreases |moves|, 1
  {
    if moves == [] then s
    else
      var before, m := AfterMoves(s, moves[..|moves| - 1]), moves[|moves| - 1];
      StepKeepsInv(before, Call(m.file, m.step));
      Next(before, Call(m.file, m.step))
  }

  predicate AllIdle(s: State) { forall i :: 0 <= i < |s.writers| ==> s.writers[i].Idle? }

  /** The files whose calls returned `Ok`, in order. */
  function OkOf(moves: seq<Move>): seq<FileId> {
    if moves == [] then []
    else
      var before, last := OkOf(moves[..|moves| - 1]), moves[|moves| - 1];
      if last.step.SyncDir? then before + [last.file] else before
  }

  // ---- Whole replacements, one after the other ----

  datatype Atomic = Atomic(file: FileId, contents: Bytes, outcome: WriteOutcome)

  function Applied(v: seq<DiskFile<Bytes>>, a: Atomic): (r: seq<DiskFile<Bytes>>)
    ensures |r| == |v|
  {
    if a.file < |v| then Replaced(v, a.file, a.contents, a.outcome) else v
  }

  function AllApplied(v: seq<DiskFile<Bytes>>, ops: seq<Atomic>): (r: seq<DiskFile<Bytes>>)
    ensures |r| == |v|
  {
    if ops == [] then v else Applied(AllApplied(v, ops[..|ops| - 1]), ops[|ops| - 1])
  }

  function SyncedOf(ops: seq<Atomic>): seq<FileId> {
    if ops == [] then []
    else
      var before, last := SyncedOf(ops[..|ops| - 1]), ops[|ops| - 1];
      if last.outcome.Synced? then before + [last.file] else before
  }

  lemma AppliedSnoc(v: seq<DiskFile<Bytes>>, ops: seq<Atomic>, a: Atomic)
    ensures AllApplied(v, ops + [a]) == Applied(AllApplied(v, ops), a)
    ensures SyncedOf(ops + [a]) == SyncedOf(ops) + (if a.outcome.Synced? then [a.file] else [])
  {
    assert (ops + [a])[..|ops|] == ops;
  }

  /** The last successful replacement of the list, at `k`, came after everything done to file `i`. */
  predicate LastSync(ops: seq<Atomic>, k: nat, i: FileId) {
    && k < |ops| && ops[k].outcome.Synced?
    && (forall m :: k < m < |ops| ==> !ops[m].outcome.Synced?)
    && (forall m :: k <= m < |ops| ==> ops[m].file != i)
  }

  function Inserted(ops: seq<Atomic>, k: nat, a: Atomic): seq<Atomic>
    requires k <= |ops|
  {
    ops[..k] + [a] + ops[k..]
  }

  lemma SettleCommutes(v: seq<DiskFile<Bytes>>, i: FileId, contents: Bytes, a: Atomic)
    requires i < |v| && a.file < |v| && a.file != i && a.outcome.Synced?
    ensures Applied(Replaced(v, i, contents, Unsynced), a)
         == Applied(v, a)[i := DiskFile(Some(contents), {Some(contents)})]
  {
    var x := Applied(Replaced(v, i, contents, Unsynced), a);
    var y := Applied(v, a)[i := DiskFile(Some(contents), {Some(contents)})];
    forall j | 0 <= j < |v| ensures x[j] == y[j] {}
  }

  lemma OtherCommutes(v: seq<DiskFile<Bytes>>, i: FileId, f: DiskFile<Bytes>, a: Atomic)
    requires i < |v| && a.file != i && !a.outcome.Synced?
    ensures Applied(v[i := f], a) == Applied(v, a)[i := f]
  {}

  /** A failed replacement of file `i` put in before the last sync: it is settled by it, and nothing else changes. */
  lemma {:induction false} InsertBeforeSync(v: seq<DiskFile<Bytes>>, ops: seq<Atomic>, k: nat,
                                            i: FileId, contents: Bytes)
    requires i < |v| && LastSync(ops, k, i) && ops[k].file < |v|
    ensures var all := Inserted(ops, k, Atomic(i, contents, Unsynced));
            && AllApplied(v, all) == AllApplied(v, ops)[i := DiskFile(Some(contents), {Some(contents)})]
            && SyncedOf(all) == SyncedOf(ops)
    decreases |ops|
  {
    var a, n := Atomic(i, contents, Unsynced), |ops| - 1;
    var fewer, all := ops[..n], Inserted(ops, k, a);
    assert ops == fewer + [ops[n]];
    if k == n {
      assert all == (fewer + [a]) + [ops[n]];
      AppliedSnoc(v, fewer + [a], ops[n]);
      AppliedSnoc(v, fewer, a);
      SettleCommutes(AllApplied(v, fewer), i, contents, ops[n]);
    } else {
      assert all == Inserted(fewer, k, a) + [ops[n]];
      AppliedSnoc(v, Inserted(fewer, k, a), ops[n]);
      InsertBeforeSync(v, fewer, k, i, contents);
      OtherCommutes(AllApplied(v, fewer), i, DiskFile(Some(contents), {Some(contents)}), ops[n]);
    }
    AppliedSnoc(v, fewer, ops[n]);
  }

  // ---- Every interleaving is explained by an order ----

  /** Where file `i` stands between the state the order `ops` gives and what its call in progress has done. */
  ghost predicate FileExplained(v: seq<DiskFile<Bytes>>, t: State, ops: seq<Atomic>, i: FileId)
    requires WellFormed(t) && i < |t.durable| == |v|
  {
    var now, then_ := Views(t)[i], AllApplied(v, ops)[i];
    match t.writers[i]
    case Renamed(c) =>
      || now == then_.Put(c, Unsynced)
      || (now == DiskFile(Some(c), {Some(c)}) && exists k: nat :: LastSync(ops, k, i))
    case _ => now == then_
  }

  ghost predicate Explained(v: seq<DiskFile<Bytes>>, t: State, ops: seq<Atomic>, moves: seq<Move>)
    requires WellFormed(t)
  {
    && |t.durable| == |v| && SyncedOf(ops) == OkOf(moves)
    && Begun(ops, moves, |v|)
    && (forall i :: 0 <= i < |v| && !t.writers[i].Idle? ==> Move(i, A.Begin(t.writers[i].contents)) in moves)
    && (forall i :: 0 <= i < |v| ==> FileExplained(v, t, ops, i))
  }

  lemma MovesSnoc(moves: seq<Move>, m: Move)
    ensures OkOf(moves + [m]) == OkOf(moves) + (if m.step.SyncDir? then [m.file] else [])
    ensures forall x :: x in moves ==> x in moves + [m]
    ensures m in moves + [m]
  {
    assert (moves + [m])[..|moves|] == moves;
  }

  /** The writers after one step: only the mover's changes, to a stage of the same call or a new one. */
  lemma WritersAfter(t: State, i: FileId, st: A.Step)
    requires Inv(t) && Enabled(t, Call(i, st)) && OfACall(st)
    ensures var u := Next(t, Call(i, st));
            && WellFormed(u) && |u.durable| == |t.durable|
            && (forall j :: 0 <= j < |t.durable| && j != i ==> u.writers[j] == t.writers[j])
            && u.writers[i] == A.Next(Part(t, i), st).writer
            && (!u.writers[i].Idle? ==>
                  u.writers[i].contents == if st.Begin? then st.contents else t.writers[i].contents)
            && (u.writers[i].Renamed? <==> st.Rename?)
  {
    var u := Next(t, Call(i, st));
    StepKeepsInv(t, Call(i, st));
    forall j | 0 <= j < |t.durable| && j != i ensures u.writers[j] == t.writers[j] { CallOfPart(t, i, st, j); }
    CallOfPart(t, i, st, i);
    if st.Rename? { A.RenameKeepsInv(Part(t, i)); }
  }

  /** A step that changes nothing visible and ends no renamed call. */
  lemma QuietExplained(v: seq<DiskFile<Bytes>>, t: State, ops: seq<Atomic>, moves: seq<Move>, i: FileId, st: A.Step)
    requires Inv(t) && Explained(v, t, ops, moves) && OfACall(st) && Enabled(t, Call(i, st))
    requires !st.Rename? && !t.writers[i].Renamed?
    ensures WellFormed(Next(t, Call(i, st))) && Explained(v, Next(t, Call(i, st)), ops, moves + [Move(i, st)])
  {
    var u := Next(t, Call(i, st));
    MovesSnoc(moves, Move(i, st));
    WritersAfter(t, i, st);
    CallRefines(t, i, st);
    assert Views(u) == Views(t);
    forall j | 0 <= j < |v| ensures FileExplained(v, u, ops, j) { assert FileExplained(v, t, ops, j); }
  }

  lemma RenameExplained(v: seq<DiskFile<Bytes>>, t: State, ops: seq<Atomic>, moves: seq<Move>, i: FileId)
    requires Inv(t) && Explained(v, t, ops, moves) && Enabled(t, Call(i, A.Rename))
    ensures WellFormed(Next(t, Call(i, A.Rename)))
    ensures Explained(v, Next(t, Call(i, A.Rename)), ops, moves + [Move(i, A.Rename)])
  {
    var u := Next(t, Call(i, A.Rename));
    MovesSnoc(moves, Move(i, A.Rename));
    WritersAfter(t, i, A.Rename);
    CallRefines(t, i, A.Rename);
    forall j | 0 <= j < |v| ensures FileExplained(v, u, ops, j) { assert FileExplained(v, t, ops, j); }
  }

  /** The sync settles what other calls have renamed. */
  lemma OtherFileSynced(v: seq<DiskFile<Bytes>>, t: State, ops: seq<Atomic>, i: FileId, j: FileId)
    requires Inv(t) && Enabled(t, Call(i, A.SyncDir)) && |t.durable| == |v| && j < |v| && j != i
    requires FileExplained(v, t, ops, j)
    ensures WellFormed(Next(t, Call(i, A.SyncDir))) && |Next(t, Call(i, A.SyncDir)).durable| == |v|
    ensures FileExplained(v, Next(t, Call(i, A.SyncDir)), ops + [Atomic(i, t.writers[i].contents, Synced)], j)
  {
    var a := Atomic(i, t.writers[i].contents, Synced);
    WritersAfter(t, i, A.SyncDir);
    CallRefines(t, i, A.SyncDir);
    AppliedSnoc(v, ops, a);
    assert LastSync(ops + [a], |ops|, j);
  }

  lemma OwnFileSynced(v: seq<DiskFile<Bytes>>, t: State, ops: seq<Atomic>, i: FileId)
    requires Inv(t) && Enabled(t, Call(i, A.SyncDir)) && |t.durable| == |v|
    requires FileExplained(v, t, ops, i)
    ensures WellFormed(Next(t, Call(i, A.SyncDir))) && |Next(t, Call(i, A.SyncDir)).durable| == |v|
    ensures FileExplained(v, Next(t, Call(i, A.SyncDir)), ops + [Atomic(i, t.writers[i].contents, Synced)], i)
  {
    WritersAfter(t, i, A.SyncDir);
    CallRefines(t, i, A.SyncDir);
    AppliedSnoc(v, ops, Atomic(i, t.writers[i].contents, Synced));
  }

  /** The sync ends the call with `Ok`: its replacement counts now. */
  lemma SyncExplained(v: seq<DiskFile<Bytes>>, t: State, ops: seq<Atomic>, moves: seq<Move>, i: FileId)
    returns (more: seq<Atomic>)
    requires Inv(t) && Explained(v, t, ops, moves) && Enabled(t, Call(i, A.SyncDir))
    ensures WellFormed(Next(t, Call(i, A.SyncDir)))
    ensures Explained(v, Next(t, Call(i, A.SyncDir)), more, moves + [Move(i, A.SyncDir)])
  {
    var a := Atomic(i, t.writers[i].contents, Synced);
    more := ops + [a];
    MovesSnoc(moves, Move(i, A.SyncDir));
    WritersAfter(t, i, A.SyncDir);
    AppliedSnoc(v, ops, a);
    forall j | 0 <= j < |v| ensures FileExplained(v, Next(t, Call(i, A.SyncDir)), more, j) {
      assert FileExplained(v, t, ops, j);
      if j == i { OwnFileSynced(v, t, ops, i); } else { OtherFileSynced(v, t, ops, i, j); }
    }
  }

  /** A call that gives up changes nothing visible. */
  lemma FailKeeps(t: State, i: FileId)
    requires Inv(t) && Enabled(t, Call(i, A.Fail))
    ensures var u := Next(t, Call(i, A.Fail));
            && WellFormed(u) && |u.durable| == |t.durable|
            && Views(u) == Views(t) && u.writers == t.writers[i := A.Idle]
  {
    WritersAfter(t, i, A.Fail);
    CallRefines(t, i, A.Fail);
  }

  lemma BegunSnoc(ops: seq<Atomic>, a: Atomic, moves: seq<Move>, m: Move, files: nat)
    requires Begun(ops, moves, files) && a.file < files && Move(a.file, A.Begin(a.contents)) in moves
    ensures Begun(ops + [a], moves + [m], files)
  {}

  lemma FileAfterFail(v: seq<DiskFile<Bytes>>, t: State, ops: seq<Atomic>, i: FileId, j: FileId)
    requires Inv(t) && Enabled(t, Call(i, A.Fail)) && t.writers[i].Renamed? && |t.durable| == |v| && j < |v|
    requires Views(t)[i] == AllApplied(v, ops)[i].Put(t.writers[i].contents, Unsynced)
    requires FileExplained(v, t, ops, j)
    ensures WellFormed(Next(t, Call(i, A.Fail))) && |Next(t, Call(i, A.Fail)).durable| == |v|
    ensures FileExplained(v, Next(t, Call(i, A.Fail)), ops + [Atomic(i, t.writers[i].contents, Unsynced)], j)
  {
    var a := Atomic(i, t.writers[i].contents, Unsynced);
    FailKeeps(t, i);
    AppliedSnoc(v, ops, a);
    if j != i { LastSyncSnoc(ops, a, j); }
  }

  /** An error after the rename, before any other call's sync. */
  lemma LateFailExplained(v: seq<DiskFile<Bytes>>, t: State, ops: seq<Atomic>, moves: seq<Move>, i: FileId)
    returns (more: seq<Atomic>)
    requires Inv(t) && Explained(v, t, ops, moves) && Enabled(t, Call(i, A.Fail)) && t.writers[i].Renamed?
    requires Views(t)[i] == AllApplied(v, ops)[i].Put(t.writers[i].contents, Unsynced)
    ensures WellFormed(Next(t, Call(i, A.Fail)))
    ensures Explained(v, Next(t, Call(i, A.Fail)), more, moves + [Move(i, A.Fail)])
  {
    var a := Atomic(i, t.writers[i].contents, Unsynced);
    more := ops + [a];
    MovesSnoc(moves, Move(i, A.Fail));
    FailKeeps(t, i);
    AppliedSnoc(v, ops, a);
    BegunSnoc(ops, a, moves, Move(i, A.Fail), |v|);
    forall j | 0 <= j < |v| ensures FileExplained(v, Next(t, Call(i, A.Fail)), more, j) {
      assert FileExplained(v, t, ops, j);
      FileAfterFail(v, t, ops, i, j);
    }
  }

  lemma LastSyncSnoc(ops: seq<Atomic>, a: Atomic, j: FileId)
    requires !a.outcome.Synced? && a.file != j
    ensures (exists k: nat :: LastSync(ops, k, j)) ==> exists k: nat :: LastSync(ops + [a], k, j)
  {
    if k: nat :| LastSync(ops, k, j) { assert LastSync(ops + [a], k, j); }
  }

  lemma LastSyncInserted(ops: seq<Atomic>, k: nat, i: FileId, a: Atomic, j: FileId)
    requires LastSync(ops, k, i) && !a.outcome.Synced?
    ensures (exists m: nat :: LastSync(ops, m, j)) ==> exists m: nat :: LastSync(Inserted(ops, k, a), m, j)
  {
    if m: nat :| LastSync(ops, m, j) {
      assert m == k;
      var all := Inserted(ops, k, a);
      assert forall x :: k <= x < |ops| ==> all[x + 1] == ops[x];
      forall x | k + 1 <= x < |all| ensures all[x].file != j && (x > k + 1 ==> !all[x].outcome.Synced?) {
        assert all[x] == ops[x - 1];
      }
      assert LastSync(all, k + 1, j);
    }
  }

  /** Each replacement of the list is of contents some call began to write to that file. */
  ghost predicate Begun(ops: seq<Atomic>, moves: seq<Move>, files: nat) {
    forall k :: 0 <= k < |ops| ==> ops[k].file < files && Move(ops[k].file, A.Begin(ops[k].contents)) in moves
  }

  lemma BegunInserted(ops: seq<Atomic>, k: nat, a: Atomic, moves: seq<Move>, files: nat)
    requires k <= |ops| && Begun(ops, moves, files) && a.file < files && Move(a.file, A.Begin(a.contents)) in moves
    ensures Begun(Inserted(ops, k, a), moves, files)
  {
    var all := Inserted(ops, k, a);
    forall x | 0 <= x < |all| ensures all[x].file < files && Move(all[x].file, A.Begin(all[x].contents)) in moves {
      assert all[x] == if x < k then ops[x] else if x == k then a else ops[x - 1];
    }
  }

  /** An error after the rename, when another call's sync has settled it: it counts before that sync. */
  lemma SettledFailExplained(v: seq<DiskFile<Bytes>>, t: State, ops: seq<Atomic>, moves: seq<Move>, i: FileId, k: nat)
    returns (more: seq<Atomic>)
    requires Inv(t) && Explained(v, t, ops, moves) && Enabled(t, Call(i, A.Fail)) && t.writers[i].Renamed?
    requires LastSync(ops, k, i)
    requires Views(t)[i] == DiskFile(Some(t.writers[i].contents), {Some(t.writers[i].contents)})
    ensures WellFormed(Next(t, Call(i, A.Fail)))
    ensures Explained(v, Next(t, Call(i, A.Fail)), more, moves + [Move(i, A.Fail)])
  {
    var u, c := Next(t, Call(i, A.Fail)), t.writers[i].contents;
    var a := Atomic(i, c, Unsynced);
    more := Inserted(ops, k, a);
    MovesSnoc(moves, Move(i, A.Fail));
    FailKeeps(t, i);
    InsertBeforeSync(v, ops, k, i, c);
    BegunInserted(ops, k, a, moves, |v|);
    forall j | 0 <= j < |v| ensures FileExplained(v, u, more, j) {
      assert FileExplained(v, t, ops, j);
      if j != i { LastSyncInserted(ops, k, i, a, j); }
    }
  }

  lemma StepExplained(v: seq<DiskFile<Bytes>>, t: State, ops: seq<Atomic>, moves: seq<Move>, i: FileId, st: A.Step)
    returns (more: seq<Atomic>)
    requires Inv(t) && Explained(v, t, ops, moves) && OfACall(st) && Enabled(t, Call(i, st))
    ensures WellFormed(Next(t, Call(i, st))) && Explained(v, Next(t, Call(i, st)), more, moves + [Move(i, st)])
  {
    if st.Rename? {
      RenameExplained(v, t, ops, moves, i);
      more := ops;
    } else if st.SyncDir? {
      more := SyncExplained(v, t, ops, moves, i);
    } else if t.writers[i].Renamed? {
      assert FileExplained(v, t, ops, i);
      if Views(t)[i] == AllApplied(v, ops)[i].Put(t.writers[i].contents, Unsynced) {
        more := LateFailExplained(v, t, ops, moves, i);
      } else {
        var k: nat :| LastSync(ops, k, i);
        more := SettledFailExplained(v, t, ops, moves, i, k);
      }
    } else {
      QuietExplained(v, t, ops, moves, i, st);
      more := ops;
    }
  }

  lemma StartExplained(s: State)
    requires Inv(s) && AllIdle(s)
    ensures Explained(Views(s), s, [], [])
  {
    forall i | 0 <= i < |s.durable| ensures FileExplained(Views(s), s, [], i) {}
  }

  lemma {:induction false} RunExplained(s: State, moves: seq<Move>) returns (ops: seq<Atomic>)
    requires Inv(s) && AllIdle(s) && Interleaves(s, moves)
    ensures Explained(Views(s), AfterMoves(s, moves), ops, moves)
  {
    if moves == [] {
      ops := [];
      StartExplained(s);
    } else {
      var init, m := moves[..|moves| - 1], moves[|moves| - 1];
      var before := RunExplained(s, init);
      ops := StepExplained(Views(s), AfterMoves(s, init), before, init, m.file, m.step);
      assert init + [m] == moves;
    }
  }

  /**
   However the calls of different files interleave and fail, once none is in
   progress every file is as whole replacements leave it, applied one after the
   other: each is of contents some call wrote to that file, and the successful
   ones are, in order, the calls that returned `Ok`.
   */
  lemma CallsAreReplacements(s: State, moves: seq<Move>) returns (ops: seq<Atomic>)
    requires Inv(s) && AllIdle(s) && Interleaves(s, moves) && AllIdle(AfterMoves(s, moves))
    ensures Views(AfterMoves(s, moves)) == AllApplied(Views(s), ops)
    ensures SyncedOf(ops) == OkOf(moves)
    ensures Begun(ops, moves, |s.durable|)
  {
    ops := RunExplained(s, moves);
    var t := AfterMoves(s, moves);
    forall i | 0 <= i < |s.durable| ensures Views(t)[i] == AllApplied(Views(s), ops)[i] {
      assert FileExplained(Views(s), t, ops, i);
    }
  }
}
