/**
 The state directory with all its files: one table of inodes, one list of
 directory changes not yet synced, one sync for everything. Each file has its
 own writer; a call touches its own file's names and inodes only.

 Seen from any one file the directory is the file system of `AtomicWrite`, where
 another file's directory sync is the step `OtherSyncsDir`. So everything proved
 there holds of every file here, and a crash may leave any combination of what
 it may leave of each.
 */
module SharedDirectory {
  import opened Common
  import opened DurableFile
  import A = AtomicWrite

  type FileId = nat

  /** An inode's data, and the file whose temporary name it was created under. */
  datatype Owned = Owned(file: FileId, data: A.FileData)

  datatype Op = Op(file: FileId, op: A.DirOp)

  datatype State = State(files: map<A.Inode, Owned>, durable: seq<A.Dir>, pending: seq<Op>, writers: seq<A.Writer>)

  datatype Step =
    | Call(file: FileId, step: A.Step)
    | Crash(keep: seq<bool>, garbage: map<A.Inode, Bytes>)

  // ---- One file's part ----

  function OpsOf(pending: seq<Op>, i: FileId): seq<A.DirOp> {
    if pending == [] then []
    else
      var before, last := OpsOf(pending[..|pending| - 1], i), pending[|pending| - 1];
      if last.file == i then before + [last.op] else before
  }

  /** Of the changes a crash keeps, those to file `i`. */
  function KeepOf(pending: seq<Op>, keep: seq<bool>, i: FileId): (r: seq<bool>)
    requires |keep| == |pending|
    ensures |r| == |OpsOf(pending, i)|
  {
    if pending == [] then []
    else
      var n := |pending| - 1;
      var before := KeepOf(pending[..n], keep[..n], i);
      if pending[n].file == i then before + [keep[n]] else before
  }

  function FilesOf(files: map<A.Inode, Owned>, i: FileId): map<A.Inode, A.FileData> {
    map x | x in files && files[x].file == i :: files[x].data
  }

  predicate WellFormed(s: State) {
    |s.writers| == |s.durable| && forall k :: 0 <= k < |s.pending| ==> s.pending[k].file < |s.durable|
  }

  /** File `i` and its writer, as `AtomicWrite` sees them. */
  function Part(s: State, i: FileId): A.State
    requires WellFormed(s) && i < |s.durable|
  {
    A.State(A.Fs(FilesOf(s.files, i), s.durable[i], OpsOf(s.pending, i)), s.writers[i])
  }

  // ---- The directory ----

  /** The directory after those pending changes that `keep` selects. */
  function Surviving(durable: seq<A.Dir>, pending: seq<Op>, keep: seq<bool>): (r: seq<A.Dir>)
    requires |keep| == |pending| && forall k :: 0 <= k < |pending| ==> pending[k].file < |durable|
    ensures |r| == |durable|
  {
    if pending == [] then durable
    else
      var n := |pending| - 1;
      var before := Surviving(durable, pending[..n], keep[..n]);
      var i := pending[n].file;
      if keep[n] then before[i := A.ApplyOp(before[i], pending[n].op)] else before
  }

  /** The directory as running programs see it. */
  function Live(s: State): seq<A.Dir>
    requires WellFormed(s)
  {
    Surviving(s.durable, s.pending, seq(|s.pending|, _ => true))
  }

  predicate Enabled(s: State, step: Step)
    requires WellFormed(s)
  {
    match step
    case Call(i, st) =>
      && i < |s.durable| && !st.Crash? && !st.OtherSyncsDir? && A.Enabled(Part(s, i), st)
      && (st.Open? ==> st.unused !in s.files)
    case Crash(keep, _) => |keep| == |s.pending|
  }

  /** The data of file `i`'s inodes are now `data`. */
  function WithFiles(files: map<A.Inode, Owned>, i: FileId, data: map<A.Inode, A.FileData>): map<A.Inode, Owned> {
    files + (map x | x in data :: Owned(i, data[x]))
  }

  function Tagged(ops: seq<A.DirOp>, i: FileId): seq<Op> { seq(|ops|, k requires 0 <= k < |ops| => Op(i, ops[k])) }

  /** A call does to its own file what it does alone; its changes join the shared list, its sync empties it. */
  function AfterCall(s: State, i: FileId, st: A.Step): State
    requires WellFormed(s) && Enabled(s, Call(i, st))
  {
    var next := A.Next(Part(s, i), st);
    var writers := s.writers[i := next.writer];
    if st.SyncDir? then State(s.files, Live(s), [], writers)
    else
      var had := |OpsOf(s.pending, i)|;
      var added := if had <= |next.fs.pending| then Tagged(next.fs.pending[had..], i) else [];
      State(WithFiles(s.files, i, next.fs.files), s.durable, s.pending + added, writers)
  }

  function AfterCrash(s: State, keep: seq<bool>, garbage: map<A.Inode, Bytes>): State
    requires WellFormed(s) && |keep| == |s.pending|
  {
    var files := map x | x in s.files ::
      if s.files[x].data.synced || x !in garbage then s.files[x].(data := s.files[x].data.(synced := true))
      else s.files[x].(data := A.FileData(garbage[x], true));
    State(files, Surviving(s.durable, s.pending, keep), [], seq(|s.writers|, _ => A.Idle))
  }

  function Next(s: State, step: Step): State
    requires WellFormed(s) && Enabled(s, step)
  {
    match step
    case Call(i, st) => AfterCall(s, i, st)
    case Crash(keep, garbage) => AfterCrash(s, keep, garbage)
  }

  // ---- Every file sees its own file system ----

  lemma {:induction false} SurvivingPart(durable: seq<A.Dir>, pending: seq<Op>, keep: seq<bool>, i: FileId)
    requires |keep| == |pending| && i < |durable| && forall k :: 0 <= k < |pending| ==> pending[k].file < |durable|
    ensures Surviving(durable, pending, keep)[i] == A.Surviving(durable[i], OpsOf(pending, i), KeepOf(pending, keep, i))
  {
    if pending != [] {
      var n := |pending| - 1;
      SurvivingPart(durable, pending[..n], keep[..n], i);
      if pending[n].file == i {
        var ops, kept := OpsOf(pending[..n], i), KeepOf(pending[..n], keep[..n], i);
        assert (ops + [pending[n].op])[..|ops|] == ops && (kept + [keep[n]])[..|kept|] == kept;
      }
    }
  }

  lemma {:induction false} SurvivingAll(d: A.Dir, ops: seq<A.DirOp>, keep: seq<bool>)
    requires |keep| == |ops| && forall k :: 0 <= k < |keep| ==> keep[k]
    ensures A.Surviving(d, ops, keep) == A.LiveAfter(d, ops)
  {
    if ops != [] { SurvivingAll(d, ops[..|ops| - 1], keep[..|ops| - 1]); }
  }

  lemma {:induction false} KeepAll(pending: seq<Op>, keep: seq<bool>, i: FileId)
    requires |keep| == |pending| && forall k :: 0 <= k < |keep| ==> keep[k]
    ensures forall k :: 0 <= k < |KeepOf(pending, keep, i)| ==> KeepOf(pending, keep, i)[k]
  {
    if pending != [] { KeepAll(pending[..|pending| - 1], keep[..|pending| - 1], i); }
  }

  lemma LivePart(s: State, i: FileId)
    requires WellFormed(s) && i < |s.durable|
    ensures Live(s)[i] == A.Live(Part(s, i).fs)
  {
    var keep := seq(|s.pending|, _ => true);
    SurvivingPart(s.durable, s.pending, keep, i);
    KeepAll(s.pending, keep, i);
    SurvivingAll(s.durable[i], OpsOf(s.pending, i), KeepOf(s.pending, keep, i));
  }

  lemma {:induction false} OpsOfTagged(pending: seq<Op>, ops: seq<A.DirOp>, i: FileId, j: FileId)
    ensures OpsOf(pending + Tagged(ops, i), j) == if i == j then OpsOf(pending, j) + ops else OpsOf(pending, j)
    decreases |ops|
  {
    if ops == [] {
      assert pending + Tagged(ops, i) == pending;
    } else {
      var n := |ops| - 1;
      var all := pending + Tagged(ops, i);
      assert all[..|all| - 1] == pending + Tagged(ops[..n], i);
      OpsOfTagged(pending, ops[..n], i, j);
      assert ops == ops[..n] + [ops[n]];
    }
  }

  /** A call of one file only ever appends to its list of changes, or syncs it. */
  lemma CallAppends(s: A.State, st: A.Step)
    requires A.Enabled(s, st) && !st.Crash? && !st.OtherSyncsDir? && !st.SyncDir?
    ensures var t := A.Next(s, st);
            && t.fs.durable == s.fs.durable && |s.fs.pending| <= |t.fs.pending|
            && t.fs.pending[..|s.fs.pending|] == s.fs.pending
            && s.fs.files.Keys <= t.fs.files.Keys
  {}

  /** The inodes it touches are its own, or the unused one. */
  lemma CallTouches(s: A.State, st: A.Step)
    requires A.Inv(s) && A.Enabled(s, st) && !st.Crash? && !st.OtherSyncsDir?
    ensures forall x :: x in A.Next(s, st).fs.files ==> x in s.fs.files || (st.Open? && x == st.unused)
  {
    A.LiveNames(s.fs.durable, s.fs.pending);
  }

  ghost predicate Inv(s: State) {
    WellFormed(s) && forall i :: 0 <= i < |s.durable| ==> A.Inv(Part(s, i))
  }

  lemma WithFilesPart(files: map<A.Inode, Owned>, i: FileId, data: map<A.Inode, A.FileData>, j: FileId)
    requires FilesOf(files, i).Keys <= data.Keys
    requires forall x :: x in data && x in files ==> files[x].file == i
    ensures FilesOf(WithFiles(files, i, data), j) == if j == i then data else FilesOf(files, j)
  {}

  lemma SyncOfPart(s: State, i: FileId, j: FileId)
    requires Inv(s) && Enabled(s, Call(i, A.SyncDir)) && j < |s.durable|
    ensures var t := Next(s, Call(i, A.SyncDir));
            && WellFormed(t) && |t.durable| == |s.durable|
            && Part(t, j) == if j == i then A.Next(Part(s, i), A.SyncDir) else A.Next(Part(s, j), A.OtherSyncsDir)
  {
    LivePart(s, j);
  }

  lemma DataCallOfPart(s: State, i: FileId, st: A.Step, j: FileId)
    requires Inv(s) && Enabled(s, Call(i, st)) && !st.SyncDir? && j < |s.durable|
    ensures var t := Next(s, Call(i, st));
            && WellFormed(t) && |t.durable| == |s.durable|
            && Part(t, j) == if j == i then A.Next(Part(s, i), st) else Part(s, j)
  {
    var next, had := A.Next(Part(s, i), st), |OpsOf(s.pending, i)|;
    CallAppends(Part(s, i), st);
    CallTouches(Part(s, i), st);
    OpsOfTagged(s.pending, next.fs.pending[had..], i, j);
    WithFilesPart(s.files, i, next.fs.files, j);
    assert next.fs.pending == next.fs.pending[..had] + next.fs.pending[had..];
  }

  /** A call is one step of its own file, and at most a directory sync to every other. */
  lemma CallOfPart(s: State, i: FileId, st: A.Step, j: FileId)
    requires Inv(s) && Enabled(s, Call(i, st)) && j < |s.durable|
    ensures var t := Next(s, Call(i, st));
            && WellFormed(t) && |t.durable| == |s.durable|
            && Part(t, j) == if j == i then A.Next(Part(s, i), st)
                             else if st.SyncDir? then A.Next(Part(s, j), A.OtherSyncsDir) else Part(s, j)
  {
    if st.SyncDir? { SyncOfPart(s, i, j); } else { DataCallOfPart(s, i, st, j); }
  }

  lemma CrashOfPart(s: State, keep: seq<bool>, garbage: map<A.Inode, Bytes>, j: FileId)
    requires Inv(s) && |keep| == |s.pending| && j < |s.durable|
    ensures var t := Next(s, Crash(keep, garbage));
            && WellFormed(t) && |t.durable| == |s.durable|
            && Part(t, j) == A.Next(Part(s, j), A.Crash(KeepOf(s.pending, keep, j), garbage))
  {
    SurvivingPart(s.durable, s.pending, keep, j);
  }

  lemma StepKeepsInv(s: State, step: Step)
    requires Inv(s) && Enabled(s, step)
    ensures Inv(Next(s, step)) && |Next(s, step).durable| == |s.durable|
  {
    forall j | 0 <= j < |s.durable| ensures A.Inv(Part(Next(s, step), j)) {
      match step
      case Call(i, st) =>
        CallOfPart(s, i, st, j);
        if j == i { A.StepKeepsInv(Part(s, i), st); } else { A.StepKeepsInv(Part(s, j), A.OtherSyncsDir); }
      case Crash(keep, garbage) =>
        CrashOfPart(s, keep, garbage, j);
        A.StepKeepsInv(Part(s, j), A.Crash(KeepOf(s.pending, keep, j), garbage));
    }
  }

  // ---- What is visible, and what a crash can leave ----

  /** Each file as the rest of the system sees it. */
  function Views(s: State): (v: seq<DiskFile<Bytes>>)
    requires WellFormed(s)
    ensures |v| == |s.durable|
  {
    seq(|s.durable|, i requires 0 <= i < |s.durable| => A.View(Part(s, i).fs))
  }

  function AllSettled(v: seq<DiskFile<Bytes>>): seq<DiskFile<Bytes>> {
    seq(|v|, i requires 0 <= i < |v| => v[i].Settled())
  }

  /** A call changes its own file as `AtomicWrite` says; others are settled by its sync, and otherwise left alone. */
  lemma CallRefines(s: State, i: FileId, st: A.Step)
    requires Inv(s) && Enabled(s, Call(i, st))
    ensures WellFormed(Next(s, Call(i, st)))
    ensures Views(Next(s, Call(i, st)))
         == (if st.SyncDir? then AllSettled(Views(s)) else Views(s))[i := A.Shadow(Views(s)[i], Part(s, i), st)]
  {
    var t := Next(s, Call(i, st));
    StepKeepsInv(s, Call(i, st));
    forall j | 0 <= j < |s.durable|
      ensures Views(t)[j] == if j == i then A.Shadow(Views(s)[i], Part(s, i), st)
                             else if st.SyncDir? then Views(s)[j].Settled() else Views(s)[j]
    {
      CallOfPart(s, i, st, j);
      if j == i { A.StepRefines(Part(s, i), st); } else if st.SyncDir? { A.StepRefines(Part(s, j), A.OtherSyncsDir); }
    }
  }

  /** Every file recovers one of its own candidates. */
  lemma CrashRefines(s: State, keep: seq<bool>, garbage: map<A.Inode, Bytes>, i: FileId)
    requires Inv(s) && |keep| == |s.pending| && i < |s.durable|
    ensures WellFormed(Next(s, Crash(keep, garbage))) && i < |Views(Next(s, Crash(keep, garbage)))|
    ensures var v := Views(Next(s, Crash(keep, garbage)))[i];
            v.now in Views(s)[i].mayBe && v == Views(s)[i].Recovered(v.now)
  {
    var crash := A.Crash(KeepOf(s.pending, keep, i), garbage);
    StepKeepsInv(s, Crash(keep, garbage));
    CrashOfPart(s, keep, garbage, i);
    A.StepRefines(Part(s, i), crash);
    A.CrashFindsCandidate(Part(s, i), crash.keep, garbage);
  }

  lemma OpsOfLast(pending: seq<Op>, i: FileId)
    requires pending != []
    ensures var n := |pending| - 1;
            |OpsOf(pending, i)| == |OpsOf(pending[..n], i)| + (if pending[n].file == i then 1 else 0)
  {}

  /** `keeps[i]` says of each change to file `i` whether it survives. */
  predicate Fits(pending: seq<Op>, keeps: seq<seq<bool>>) {
    && (forall k :: 0 <= k < |pending| ==> pending[k].file < |keeps|)
    && (forall i :: 0 <= i < |keeps| ==> |keeps[i]| == |OpsOf(pending, i)|)
  }

  lemma FewerFit(pending: seq<Op>, keeps: seq<seq<bool>>)
    requires pending != [] && Fits(pending, keeps)
    ensures var n := |pending| - 1;
            var own := keeps[pending[n].file];
            |own| > 0 && Fits(pending[..n], keeps[pending[n].file := own[..|own| - 1]])
  {
    var n := |pending| - 1;
    OpsOfLast(pending, pending[n].file);
    var own := keeps[pending[n].file];
    var fewer := keeps[pending[n].file := own[..|own| - 1]];
    forall i | 0 <= i < |fewer| ensures |fewer[i]| == |OpsOf(pending[..n], i)| { OpsOfLast(pending, i); }
  }

  /** A choice of surviving changes for every file, put together. */
  function Merged(pending: seq<Op>, keeps: seq<seq<bool>>): (r: seq<bool>)
    requires Fits(pending, keeps)
    ensures |r| == |pending|
  {
    if pending == [] then []
    else
      var n := |pending| - 1;
      var own := keeps[pending[n].file];
      FewerFit(pending, keeps);
      Merged(pending[..n], keeps[pending[n].file := own[..|own| - 1]]) + [own[|own| - 1]]
  }

  lemma {:induction false} MergedKeeps(pending: seq<Op>, keeps: seq<seq<bool>>, i: FileId)
    requires Fits(pending, keeps) && i < |keeps|
    ensures KeepOf(pending, Merged(pending, keeps), i) == keeps[i]
    decreases |pending|
  {
    if pending != [] {
      var n := |pending| - 1;
      var own := keeps[pending[n].file];
      FewerFit(pending, keeps);
      var fewer := keeps[pending[n].file := own[..|own| - 1]];
      var merged := Merged(pending, keeps);
      MergedKeeps(pending[..n], fewer, i);
      assert merged[..n] == Merged(pending[..n], fewer) && merged[n] == own[|own| - 1];
      if pending[n].file == i { assert own == own[..|own| - 1] + [own[|own| - 1]]; }
    }
  }

  /**
   The files' fates are independent: a crash can leave the directory with the
   contents `v` if and only if each is a candidate of its own file.
   */
  lemma CrashLeavesAnyCombination(s: State, v: seq<Option<Bytes>>)
    requires Inv(s) && |v| == |s.durable|
    ensures (forall i :: 0 <= i < |v| ==> v[i] in Views(s)[i].mayBe) <==> CanRecover(s, v)
  {
    if forall i :: 0 <= i < |v| ==> v[i] in Views(s)[i].mayBe { CrashRecovers(s, v); }
    forall keep, garbage, i | Recovers(s, keep, garbage, v) && 0 <= i < |v| ensures v[i] in Views(s)[i].mayBe {
      CrashRefines(s, keep, garbage, i);
    }
  }

  lemma CrashRecovers(s: State, v: seq<Option<Bytes>>)
    requires Inv(s) && |v| == |s.durable| && forall i :: 0 <= i < |v| ==> v[i] in Views(s)[i].mayBe
    ensures CanRecover(s, v)
  {
    var keeps := KeepsFor(s, v);
    var keep := Merged(s.pending, keeps);
    StepKeepsInv(s, Crash(keep, map[]));
    forall i | 0 <= i < |v| ensures Views(Next(s, Crash(keep, map[])))[i].now == v[i] {
      MergedKeeps(s.pending, keeps, i);
      RecoversOne(s, keep, keeps[i], v[i], i);
    }
    assert Recovers(s, keep, map[], v);
  }

  lemma RecoversOne(s: State, keep: seq<bool>, own: seq<bool>, v: Option<Bytes>, i: FileId)
    requires Inv(s) && |keep| == |s.pending| && i < |s.durable|
    requires KeepOf(s.pending, keep, i) == own && GivesBack(s, i, own, v)
    ensures var t := Next(s, Crash(keep, map[]));
            WellFormed(t) && i < |Views(t)| && Views(t)[i].now == v
  {
    CrashOfPart(s, keep, map[], i);
  }

  predicate Recovers(s: State, keep: seq<bool>, garbage: map<A.Inode, Bytes>, v: seq<Option<Bytes>>)
    requires WellFormed(s)
  {
    && |keep| == |s.pending| && WellFormed(Next(s, Crash(keep, garbage)))
    && |v| == |Views(Next(s, Crash(keep, garbage)))|
    && forall i :: 0 <= i < |v| ==> Views(Next(s, Crash(keep, garbage)))[i].now == v[i]
  }

  ghost predicate CanRecover(s: State, v: seq<Option<Bytes>>)
    requires WellFormed(s)
  {
    exists keep, garbage :: Recovers(s, keep, garbage, v)
  }

  /** For each file the surviving changes that give it `v[i]`. */
  lemma KeepsFor(s: State, v: seq<Option<Bytes>>) returns (keeps: seq<seq<bool>>)
    requires Inv(s) && |v| == |s.durable| && forall i :: 0 <= i < |v| ==> v[i] in Views(s)[i].mayBe
    ensures |keeps| == |v| && Fits(s.pending, keeps)
    ensures forall i :: 0 <= i < |v| ==> GivesBack(s, i, keeps[i], v[i])
  {
    keeps := [];
    while |keeps| < |v|
      invariant |keeps| <= |v|
      invariant forall i :: 0 <= i < |keeps| ==> |keeps[i]| == |OpsOf(s.pending, i)|
      invariant forall i :: 0 <= i < |keeps| ==> GivesBack(s, i, keeps[i], v[i])
    {
      var i := |keeps|;
      var part := Part(s, i);
      var k := A.CandidateIndex(part.fs, v[i]);
      var keep := A.KeepOnly(|part.fs.pending|, k);
      A.SurvivingOnly(part.fs.durable, part.fs.pending, k);
      A.CrashReads(part, keep, map[]);
      keeps := keeps + [keep];
    }
  }

  predicate GivesBack(s: State, i: FileId, keep: seq<bool>, v: Option<Bytes>)
    requires WellFormed(s)
  {
    && i < |s.durable| && |keep| == |OpsOf(s.pending, i)|
    && A.Read(A.Crashed(Part(s, i).fs, keep, map[])) == v
  }

  // ---- One whole replacement ----

  /** A replacement of file `i` with the given outcome: success settles every file. */
  function Replaced(v: seq<DiskFile<Bytes>>, i: FileId, contents: Bytes, o: WriteOutcome): seq<DiskFile<Bytes>>
    requires i < |v|
  {
    (if o.Synced? then AllSettled(v) else v)[i := v[i].Put(contents, o)]
  }

  ghost predicate IsCall(s: State, i: FileId, steps: seq<A.Step>)
    requires Inv(s)
    decreases |steps|, 0
  {
    steps == [] ||
    (var init, st := steps[..|steps| - 1], steps[|steps| - 1];
     IsCall(s, i, init) && A.WithinCall(st) && Enabled(AfterSteps(s, i, init), Call(i, st)))
  }

  ghost function AfterSteps(s: State, i: FileId, steps: seq<A.Step>): (t: State)
    requires Inv(s) && IsCall(s, i, steps)
    ensures Inv(t) && |t.durable| == |s.durable|
    decreases |steps|, 1
  {
    if steps == [] then s
    else
      var before, call := AfterSteps(s, i, steps[..|steps| - 1]), Call(i, steps[|steps| - 1]);
      StepKeepsInv(before, call);
      Next(before, call)
  }

  /** The call has returned `Ok`. */
  predicate ReturnedOk(steps: seq<A.Step>) { steps != [] && steps[|steps| - 1] == A.SyncDir }

  /** Where a replacement of `contents` stands, begun when the files were `v`; `ok` says it has returned `Ok`. */
  ghost predicate InReplacement(v: seq<DiskFile<Bytes>>, t: State, i: FileId, contents: Bytes, ok: bool)
    requires WellFormed(t)
  {
    && i < |t.durable| == |v|
    && match t.writers[i]
       case Idle => exists o: WriteOutcome :: o.Synced? == ok && Views(t) == Replaced(v, i, contents, o)
       case Renamed(c) => c == contents && Views(t) == Replaced(v, i, contents, Unsynced)
       case w => w.contents == contents && Views(t) == v
  }

  lemma SettledAfterRename(v: seq<DiskFile<Bytes>>, i: FileId, contents: Bytes)
    requires i < |v|
    ensures var renamed := Replaced(v, i, contents, Unsynced);
            AllSettled(renamed)[i := renamed[i].Settled()] == Replaced(v, i, contents, Synced)
  {
    var renamed := Replaced(v, i, contents, Unsynced);
    var x, y := AllSettled(renamed)[i := renamed[i].Settled()], Replaced(v, i, contents, Synced);
    forall j | 0 <= j < |v| ensures x[j] == y[j] {}
  }

  lemma StepOfReplacement(v: seq<DiskFile<Bytes>>, t: State, i: FileId, contents: Bytes, ok: bool, st: A.Step)
    requires Inv(t) && InReplacement(v, t, i, contents, ok) && A.WithinCall(st) && Enabled(t, Call(i, st))
    ensures WellFormed(Next(t, Call(i, st))) && InReplacement(v, Next(t, Call(i, st)), i, contents, st == A.SyncDir)
  {
    var u := Next(t, Call(i, st));
    StepKeepsInv(t, Call(i, st));
    CallRefines(t, i, st);
    CallOfPart(t, i, st, i);
    if st.SyncDir? {
      SettledAfterRename(v, i, contents);
      assert Views(u) == Replaced(v, i, contents, Synced);
    } else if st.Rename? {
      A.RenameKeepsInv(Part(t, i));
      assert Views(u) == Replaced(v, i, contents, Unsynced);
    } else if st.Fail? && t.writers[i].Renamed? {
      assert Views(u) == Replaced(v, i, contents, Unsynced);
    } else {
      assert Views(u) == v == Replaced(v, i, contents, Failed);
    }
  }

  /**
   A call of `write_private_atomic` for file `i`, wherever it fails, is a
   replacement with one of the three outcomes, for all files of the directory.
   */
  lemma {:induction false} CallIsReplacement(s: State, i: FileId, contents: Bytes, steps: seq<A.Step>)
    requires Inv(s) && i < |s.durable| && s.writers[i] == A.Begun(contents) && IsCall(s, i, steps)
    ensures InReplacement(Views(s), AfterSteps(s, i, steps), i, contents, ReturnedOk(steps))
  {
    if steps != [] {
      var init := steps[..|steps| - 1];
      CallIsReplacement(s, i, contents, init);
      StepOfReplacement(Views(s), AfterSteps(s, i, init), i, contents, ReturnedOk(init), steps[|steps| - 1]);
    }
  }
}
