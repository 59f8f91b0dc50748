/**
 `write_private_atomic`: write a temporary file, sync it, rename it over the
 target, sync the directory. The file system keeps synced and unsynced state
 apart: file contents that were not synced are arbitrary after a crash, and of
 the directory changes since the last directory sync any subset survives, each
 change (a rename included) entirely or not at all.

 The writer may fail at every call, and the machine may crash between any two
 steps, any number of times. The state directory itself exists durably.
 */
module AtomicWrite {
  import opened Common
  import opened DurableFile

  type Inode = nat

  datatype FileData = FileData(content: Bytes, synced: bool)

  datatype Dir = Dir(target: Option<Inode>, tmp: Option<Inode>)

  datatype DirOp = CreateTmp(inode: Inode) | RenameTmp(inode: Inode) | UnlinkTarget

  datatype Fs = Fs(files: map<Inode, FileData>, durable: Dir, pending: seq<DirOp>)

  /** Where the one writer of this file stands. */
  datatype Writer =
    | Idle
    | Begun(contents: Bytes)
    | Opened(contents: Bytes, handle: Inode)
    | Written(contents: Bytes, handle: Inode)
    | Flushed(contents: Bytes, handle: Inode)
    | Renamed(contents: Bytes)

  datatype State = State(fs: Fs, writer: Writer)

  // ---- The file system ----

  function ApplyOp(d: Dir, op: DirOp): Dir {
    match op
    case CreateTmp(i) => d.(tmp := Some(i))
    case RenameTmp(i) => Dir(Some(i), None)
    case UnlinkTarget => d.(target := None)
  }

  /** The directory with those pending changes applied that `keep` selects. */
  function Surviving(d: Dir, pending: seq<DirOp>, keep: seq<bool>): Dir
    requires |keep| == |pending|
  {
    if pending == [] then d
    else
      var n := |pending| - 1;
      var before := Surviving(d, pending[..n], keep[..n]);
      if keep[n] then ApplyOp(before, pending[n]) else before
  }

  /** The directory as running programs see it: every change applied. */
  function Live(fs: Fs): Dir {
    LiveAfter(fs.durable, fs.pending)
  }

  function LiveAfter(d: Dir, pending: seq<DirOp>): Dir {
    if pending == [] then d
    else ApplyOp(LiveAfter(d, pending[..|pending| - 1]), pending[|pending| - 1])
  }

  function ContentOf(fs: Fs, inode: Option<Inode>): Option<Bytes> {
    if inode.Some? && inode.value in fs.files then Some(fs.files[inode.value].content) else None
  }

  /** `fs::read` of the target. */
  function Read(fs: Fs): Option<Bytes> { ContentOf(fs, Live(fs).target) }

  function Crashed(fs: Fs, keep: seq<bool>, garbage: map<Inode, Bytes>): Fs
    requires |keep| == |fs.pending|
  {
    var files := map i | i in fs.files ::
      if fs.files[i].synced || i !in garbage then fs.files[i].(synced := true) else FileData(garbage[i], true);
    Fs(files, Surviving(fs.durable, fs.pending, keep), [])
  }

  function OpenTmp(fs: Fs, unused: Inode): (r: (Fs, Inode)) {
    var tmp := Live(fs).tmp;
    if tmp.Some? then (fs.(files := fs.files[tmp.value := FileData([], false)]), tmp.value)
    else (Fs(fs.files[unused := FileData([], false)], fs.durable, fs.pending + [CreateTmp(unused)]), unused)
  }

  function SyncedDir(fs: Fs): Fs { Fs(fs.files, Live(fs), []) }

  // ---- Steps ----

  datatype Step =
    | Begin(contents: Bytes)
    | Open(unused: Inode)
    | WritePart(count: nat)
    | WriteAll
    | Flush
    | Rename
    | SyncDir
    | Fail
    | Unlink
    | OtherSyncsDir
    | Crash(keep: seq<bool>, garbage: map<Inode, Bytes>)

  predicate Enabled(s: State, step: Step) {
    match step
    case Begin(_) => s.writer.Idle?
    case Open(unused) => s.writer.Begun? && unused !in s.fs.files
    case WritePart(count) => s.writer.Opened? && count <= |s.writer.contents|
    case WriteAll => s.writer.Opened?
    case Flush => s.writer.Written?
    case Rename => s.writer.Flushed?
    case SyncDir => s.writer.Renamed?
    case Fail => !s.writer.Idle?
    case Unlink => s.writer.Idle?
    case OtherSyncsDir => true
    case Crash(keep, _) => |keep| == |s.fs.pending|
  }

  function Next(s: State, step: Step): State
    requires Enabled(s, step)
  {
    var fs, w := s.fs, s.writer;
    match step
    case Begin(contents) => State(fs, Begun(contents))
    case Open(unused) =>
      var (fs', handle) := OpenTmp(fs, unused);
      State(fs', Opened(w.contents, handle))
    case WritePart(count) =>
      State(fs.(files := fs.files[w.handle := FileData(w.contents[..count], false)]), w)
    case WriteAll =>
      State(fs.(files := fs.files[w.handle := FileData(w.contents, false)]), Written(w.contents, w.handle))
    case Flush =>
      var content := if w.handle in fs.files then fs.files[w.handle].content else [];
      State(fs.(files := fs.files[w.handle := FileData(content, true)]), Flushed(w.contents, w.handle))
    case Rename =>
      var tmp := Live(fs).tmp;
      if tmp.Some? then State(fs.(pending := fs.pending + [RenameTmp(tmp.value)]), Renamed(w.contents))
      else State(fs, Idle)
    case SyncDir => State(SyncedDir(fs), Idle)
    case Fail => State(fs, Idle)
    case Unlink => State(if Live(fs).target.Some? then fs.(pending := fs.pending + [UnlinkTarget]) else fs, Idle)
    case OtherSyncsDir => State(SyncedDir(fs), w)
    case Crash(keep, garbage) => State(Crashed(fs, keep, garbage), Idle)
  }

  // ---- The invariant ----

  /** Inode `i` may be the target after a crash. */
  predicate MayBeTarget(fs: Fs, i: Inode) {
    fs.durable.target == Some(i) || RenameTmp(i) in fs.pending
  }

  /** No surviving directory can name one inode under both names. */
  ghost predicate Separated(d: Dir, pending: seq<DirOp>) {
    && (d.tmp.Some? ==> d.tmp != d.target)
    && (forall i: Inode :: CreateTmp(i) in pending ==> d.target != Some(i))
    && (forall a, b :: 0 <= a < b < |pending| && pending[a].RenameTmp? && pending[b].CreateTmp? ==>
          pending[a].inode != pending[b].inode)
  }

  ghost predicate Allocated(fs: Fs) {
    && (fs.durable.tmp.Some? ==> fs.durable.tmp.value in fs.files)
    && (fs.durable.target.Some? ==> fs.durable.target.value in fs.files)
    && (forall k :: 0 <= k < |fs.pending| && !fs.pending[k].UnlinkTarget? ==> fs.pending[k].inode in fs.files)
  }

  /** What may become the target is synced, and is not the file the next write truncates. */
  ghost predicate TargetsSafe(fs: Fs) {
    && (forall i: Inode :: MayBeTarget(fs, i) ==> i in fs.files && fs.files[i].synced)
    && (forall i: Inode :: MayBeTarget(fs, i) ==> Live(fs).tmp != Some(i))
  }

  ghost predicate WriterOk(s: State) {
    match s.writer
    case Opened(_, h) => Live(s.fs).tmp == Some(h)
    case Written(c, h) => Live(s.fs).tmp == Some(h) && h in s.fs.files && s.fs.files[h].content == c
    case Flushed(c, h) => Live(s.fs).tmp == Some(h) && h in s.fs.files && s.fs.files[h] == FileData(c, true)
    case Renamed(c) => Read(s.fs) == Some(c)
    case _ => true
  }

  ghost predicate Inv(s: State) {
    Separated(s.fs.durable, s.fs.pending) && Allocated(s.fs) && TargetsSafe(s.fs) && WriterOk(s)
  }

  lemma LiveSnoc(d: Dir, pending: seq<DirOp>, op: DirOp)
    ensures LiveAfter(d, pending + [op]) == ApplyOp(LiveAfter(d, pending), op)
  {
    assert (pending + [op])[..|pending|] == pending;
  }

  /** The live target is the durable one, a renamed one, or none. */
  lemma {:induction false} LiveNames(d: Dir, pending: seq<DirOp>)
    ensures var l := LiveAfter(d, pending);
            && (l.target.Some? ==> l.target == d.target || RenameTmp(l.target.value) in pending)
            && (l.tmp.Some? ==> l.tmp == d.tmp || CreateTmp(l.tmp.value) in pending)
  {
    if pending != [] { LiveNames(d, pending[..|pending| - 1]); }
  }

  lemma {:induction false} SurvivingNames(d: Dir, pending: seq<DirOp>, keep: seq<bool>)
    requires |keep| == |pending| && Separated(d, pending)
    ensures var r := Surviving(d, pending, keep);
            && (r.target.Some? ==> r.target == d.target || RenameTmp(r.target.value) in pending)
            && (r.target.None? ==> d.target.None? || UnlinkTarget in pending)
            && (r.tmp.Some? ==> r.tmp == d.tmp || CreateTmp(r.tmp.value) in pending)
            && (r.tmp.Some? ==> r.tmp != r.target)
  {
    if pending != [] {
      var n := |pending| - 1;
      assert Separated(d, pending[..n]) by {
        forall i: Inode | CreateTmp(i) in pending[..n] ensures d.target != Some(i) {
          assert CreateTmp(i) in pending;
        }
      }
      SurvivingNames(d, pending[..n], keep[..n]);
      var before := Surviving(d, pending[..n], keep[..n]);
      if before.target.Some? && RenameTmp(before.target.value) in pending[..n] {
        var a :| 0 <= a < n && pending[a] == RenameTmp(before.target.value);
        assert pending[n].CreateTmp? ==> pending[n].inode != before.target.value;
      }
      assert pending[n] in pending;
    }
  }

  // ---- Every step keeps the invariant ----

  lemma AppendKeepsMayBe(fs: Fs, op: DirOp, i: Inode)
    ensures MayBeTarget(fs.(pending := fs.pending + [op]), i) <==> MayBeTarget(fs, i) || op == RenameTmp(i)
  {}

  lemma OpenKeepsInv(s: State, unused: Inode)
    requires Inv(s) && Enabled(s, Open(unused))
    ensures Inv(Next(s, Open(unused)))
  {
    if Live(s.fs).tmp.None? { CreateKeepsInv(s, unused); } else { TruncateKeepsInv(s, unused); }
  }

  /** No temporary file is there: a new inode gets the name. */
  lemma CreateKeepsInv(s: State, unused: Inode)
    requires Inv(s) && Enabled(s, Open(unused)) && Live(s.fs).tmp.None?
    ensures Inv(Next(s, Open(unused)))
  {
    var fs := s.fs;
    var fs' := OpenTmp(fs, unused).0;
    LiveNames(fs.durable, fs.pending);
    LiveSnoc(fs.durable, fs.pending, CreateTmp(unused));
    forall i: Inode ensures MayBeTarget(fs', i) <==> MayBeTarget(fs, i) {
      AppendKeepsMayBe(fs, CreateTmp(unused), i);
    }
    forall a | 0 <= a < |fs.pending| && fs.pending[a].RenameTmp? ensures fs.pending[a].inode != unused {
      assert MayBeTarget(fs, fs.pending[a].inode);
    }
    assert Separated(fs'.durable, fs'.pending);
  }

  /** A temporary file was left behind: its inode, which nothing else names, is truncated. */
  lemma TruncateKeepsInv(s: State, unused: Inode)
    requires Inv(s) && Enabled(s, Open(unused)) && Live(s.fs).tmp.Some?
    ensures Inv(Next(s, Open(unused)))
  {
    var fs' := OpenTmp(s.fs, unused).0;
    LiveNames(s.fs.durable, s.fs.pending);
    forall i: Inode | MayBeTarget(fs', i) ensures i in fs'.files && fs'.files[i].synced {
      assert MayBeTarget(s.fs, i);
    }
  }

  lemma WriteKeepsInv(s: State, step: Step)
    requires Inv(s) && Enabled(s, step) && (step.WritePart? || step.WriteAll? || step.Flush?)
    ensures Inv(Next(s, step))
  {
    var fs' := Next(s, step).fs;
    LiveNames(s.fs.durable, s.fs.pending);
    forall i: Inode | MayBeTarget(fs', i) ensures i in fs'.files && fs'.files[i].synced {
      assert MayBeTarget(s.fs, i);
    }
  }

  lemma RenameKeepsInv(s: State)
    requires Inv(s) && Enabled(s, Rename)
    ensures Inv(Next(s, Rename))
    ensures Next(s, Rename).writer == Renamed(s.writer.contents)
    ensures Next(s, Rename).fs == s.fs.(pending := s.fs.pending + [RenameTmp(s.writer.handle)])
  {
    var fs, fs' := s.fs, Next(s, Rename).fs;
    LiveSnoc(fs.durable, fs.pending, RenameTmp(s.writer.handle));
    forall i: Inode ensures MayBeTarget(fs', i) <==> MayBeTarget(fs, i) || i == s.writer.handle {
      AppendKeepsMayBe(fs, RenameTmp(s.writer.handle), i);
    }
  }

  lemma SyncKeepsInv(s: State, step: Step)
    requires Inv(s) && Enabled(s, step) && (step.SyncDir? || step.OtherSyncsDir?)
    ensures Inv(Next(s, step))
    ensures Read(Next(s, step).fs) == Read(s.fs)
  {
    var fs, fs' := s.fs, SyncedDir(s.fs);
    LiveNames(fs.durable, fs.pending);
    forall i: Inode | MayBeTarget(fs', i) ensures MayBeTarget(fs, i) {}
    if Live(fs).target.Some? { assert MayBeTarget(fs, Live(fs).target.value); }
    if Live(fs).tmp.Some? {
      assert Live(fs).tmp.value in fs.files;
    }
  }

  lemma UnlinkKeepsInv(s: State)
    requires Inv(s) && Enabled(s, Unlink)
    ensures Inv(Next(s, Unlink))
  {
    var fs, fs' := s.fs, Next(s, Unlink).fs;
    if Live(fs).target.Some? {
      LiveSnoc(fs.durable, fs.pending, UnlinkTarget);
      forall i: Inode ensures MayBeTarget(fs', i) <==> MayBeTarget(fs, i) { AppendKeepsMayBe(fs, UnlinkTarget, i); }
    }
  }

  lemma CrashKeepsInv(s: State, keep: seq<bool>, garbage: map<Inode, Bytes>)
    requires Inv(s) && |keep| == |s.fs.pending|
    ensures Inv(Next(s, Crash(keep, garbage)))
  {
    var fs, fs' := s.fs, Crashed(s.fs, keep, garbage);
    SurvivingNames(fs.durable, fs.pending, keep);
    forall i: Inode | MayBeTarget(fs', i) ensures i in fs'.files && Live(fs').tmp != Some(i) {
      assert MayBeTarget(fs, i);
    }
    if fs'.durable.tmp.Some? && fs'.durable.tmp != fs.durable.tmp {
      var k :| 0 <= k < |fs.pending| && fs.pending[k] == CreateTmp(fs'.durable.tmp.value);
    }
  }

  lemma StepKeepsInv(s: State, step: Step)
    requires Inv(s) && Enabled(s, step)
    ensures Inv(Next(s, step))
  {
    match step
    case Begin(_) =>
    case Open(unused) => OpenKeepsInv(s, unused);
    case WritePart(_) => WriteKeepsInv(s, step);
    case WriteAll => WriteKeepsInv(s, step);
    case Flush => WriteKeepsInv(s, step);
    case Rename => RenameKeepsInv(s);
    case SyncDir => SyncKeepsInv(s, step);
    case Fail =>
    case Unlink => UnlinkKeepsInv(s);
    case OtherSyncsDir => SyncKeepsInv(s, step);
    case Crash(keep, garbage) => CrashKeepsInv(s, keep, garbage);
  }

  // ---- What a crash can leave, exactly ----

  /** The contents the target may have after a crash. */
  function Candidates(fs: Fs): set<Option<Bytes>> {
    {ContentOf(fs, fs.durable.target)}
    + (set k | 0 <= k < |fs.pending| && fs.pending[k].RenameTmp? :: ContentOf(fs, Some(fs.pending[k].inode)))
    + (if UnlinkTarget in fs.pending then {None} else {})
  }

  function View(fs: Fs): DiskFile<Bytes> { DiskFile(Read(fs), Candidates(fs)) }

  function KeepOnly(n: nat, k: int): seq<bool> { seq(n, i => i == k) }

  lemma {:induction false} SurvivingOnly(d: Dir, pending: seq<DirOp>, k: int)
    ensures Surviving(d, pending, KeepOnly(|pending|, k))
         == if 0 <= k < |pending| then ApplyOp(d, pending[k]) else d
  {
    if pending != [] {
      var n := |pending| - 1;
      assert KeepOnly(|pending|, k)[..n] == KeepOnly(n, k);
      SurvivingOnly(d, pending[..n], k);
    }
  }

  lemma CandidateOfTarget(fs: Fs, target: Option<Inode>)
    requires match target
             case Some(i) => MayBeTarget(fs, i)
             case None => fs.durable.target.None? || UnlinkTarget in fs.pending
    ensures ContentOf(fs, target) in Candidates(fs)
  {
    if target.Some? && fs.durable.target != target {
      var k :| 0 <= k < |fs.pending| && fs.pending[k] == RenameTmp(target.value);
    }
  }

  /**
   A crash leaves the target with one of the candidates, and with any of them:
   torn or mixed contents never, and nothing the candidates list in vain.
   */
  lemma CrashLeavesExactlyCandidates(s: State, v: Option<Bytes>)
    requires Inv(s)
    ensures v in Candidates(s.fs) <==>
      exists keep, garbage :: Enabled(s, Crash(keep, garbage)) && Read(Next(s, Crash(keep, garbage)).fs) == v
  {
    if v in Candidates(s.fs) {
      var k := CandidateIndex(s.fs, v);
      var keep := KeepOnly(|s.fs.pending|, k);
      SurvivingOnly(s.fs.durable, s.fs.pending, k);
      var target := Surviving(s.fs.durable, s.fs.pending, keep).target;
      CrashReads(s, keep, map[]);
      assert Enabled(s, Crash(keep, map[])) && Read(Next(s, Crash(keep, map[])).fs) == v;
    }
    forall keep, garbage | Enabled(s, Crash(keep, garbage))
      ensures Read(Next(s, Crash(keep, garbage)).fs) in Candidates(s.fs)
    {
      CrashFindsCandidate(s, keep, garbage);
    }
  }

  /** The pending change that alone makes `v` the contents; -1 when it is the durable one. */
  lemma CandidateIndex(fs: Fs, v: Option<Bytes>) returns (k: int)
    requires v in Candidates(fs)
    ensures -1 <= k < |fs.pending|
    ensures var d := if k >= 0 then ApplyOp(fs.durable, fs.pending[k]) else fs.durable;
            ContentOf(fs, d.target) == v
  {
    if v == ContentOf(fs, fs.durable.target) {
      k := -1;
    } else if j :| 0 <= j < |fs.pending| && fs.pending[j].RenameTmp? && ContentOf(fs, Some(fs.pending[j].inode)) == v {
      k := j;
    } else {
      k :| 0 <= k < |fs.pending| && fs.pending[k] == UnlinkTarget;
    }
  }

  lemma CrashReads(s: State, keep: seq<bool>, garbage: map<Inode, Bytes>)
    requires Inv(s) && |keep| == |s.fs.pending|
    ensures Read(Crashed(s.fs, keep, garbage)) == ContentOf(s.fs, Surviving(s.fs.durable, s.fs.pending, keep).target)
  {
    SurvivingNames(s.fs.durable, s.fs.pending, keep);
    var target := Surviving(s.fs.durable, s.fs.pending, keep).target;
    if target.Some? { assert MayBeTarget(s.fs, target.value); }
  }

  lemma CrashFindsCandidate(s: State, keep: seq<bool>, garbage: map<Inode, Bytes>)
    requires Inv(s) && |keep| == |s.fs.pending|
    ensures Read(Crashed(s.fs, keep, garbage)) in Candidates(s.fs)
  {
    CrashReads(s, keep, garbage);
    SurvivingNames(s.fs.durable, s.fs.pending, keep);
    CandidateOfTarget(s.fs, Surviving(s.fs.durable, s.fs.pending, keep).target);
  }

  // ---- Refinement of the file as the system sees it ----

  /** What each step does to the file as `DurableFile` describes it. */
  function Shadow(f: DiskFile<Bytes>, s: State, step: Step): DiskFile<Bytes>
    requires Enabled(s, step)
  {
    match step
    case Rename => f.Put(s.writer.contents, Unsynced)
    case SyncDir => f.Settled()
    case OtherSyncsDir => f.Settled()
    case Unlink => if f.now.Some? then f.Unlinked() else f
    case Crash(keep, garbage) => f.Recovered(Read(Next(s, step).fs))
    case _ => f
  }

  lemma DataStepKeepsView(s: State, step: Step)
    requires Inv(s) && Enabled(s, step) && (step.WritePart? || step.WriteAll? || step.Flush?)
    ensures View(Next(s, step).fs) == View(s.fs)
  {
    var fs, fs' := s.fs, Next(s, step).fs;
    LiveNames(fs.durable, fs.pending);
    SameTargetsSameView(fs, fs');
  }

  /** Changing only files that cannot become the target changes nothing visible. */
  lemma SameTargetsSameView(fs: Fs, fs': Fs)
    requires fs'.durable == fs.durable && fs'.pending == fs.pending
    requires forall i: Inode :: MayBeTarget(fs, i) ==> ContentOf(fs, Some(i)) == ContentOf(fs', Some(i))
    ensures View(fs') == View(fs)
  {
    LiveNames(fs.durable, fs.pending);
    var target := Live(fs).target;
    if target.Some? { assert MayBeTarget(fs, target.value); }
    if fs.durable.target.Some? { assert MayBeTarget(fs, fs.durable.target.value); }
    forall k | 0 <= k < |fs.pending| && fs.pending[k].RenameTmp?
      ensures ContentOf(fs, Some(fs.pending[k].inode)) == ContentOf(fs', Some(fs.pending[k].inode))
    {
      assert MayBeTarget(fs, fs.pending[k].inode);
    }
    assert Candidates(fs') == Candidates(fs);
  }

  lemma OpenKeepsView(s: State, unused: Inode)
    requires Inv(s) && Enabled(s, Open(unused))
    ensures View(Next(s, Open(unused)).fs) == View(s.fs)
  {
    var fs, fs' := s.fs, OpenTmp(s.fs, unused).0;
    var mid := fs.(files := fs'.files);
    SameTargetsSameView(fs, mid);
    if Live(fs).tmp.None? {
      LiveSnoc(fs.durable, fs.pending, CreateTmp(unused));
      CandidatesSnoc(mid, CreateTmp(unused));
    }
  }

  lemma CandidatesSnoc(fs: Fs, op: DirOp)
    ensures Candidates(fs.(pending := fs.pending + [op]))
         == Candidates(fs)
            + (match op case RenameTmp(i) => {ContentOf(fs, Some(i))} case UnlinkTarget => {None} case _ => {})
  {
    var fs', n := fs.(pending := fs.pending + [op]), |fs.pending|;
    assert fs'.pending[n] == op && forall k :: 0 <= k < n ==> fs'.pending[k] == fs.pending[k];
    var x := set k | 0 <= k < |fs.pending| && fs.pending[k].RenameTmp? :: ContentOf(fs, Some(fs.pending[k].inode));
    var y := set k | 0 <= k < |fs'.pending| && fs'.pending[k].RenameTmp? :: ContentOf(fs', Some(fs'.pending[k].inode));
    assert y == x + (if op.RenameTmp? then {ContentOf(fs, Some(op.inode))} else {}) by {
      forall v | v in x ensures v in y {
        var k :| 0 <= k < n && fs.pending[k].RenameTmp? && ContentOf(fs, Some(fs.pending[k].inode)) == v;
        assert fs'.pending[k].RenameTmp? && ContentOf(fs', Some(fs'.pending[k].inode)) == v;
      }
      if op.RenameTmp? { assert fs'.pending[n].RenameTmp?; }
    }
  }

  /** Every step changes what is visible and what a crash may leave as `DurableFile` says. */
  lemma StepRefines(s: State, step: Step)
    requires Inv(s) && Enabled(s, step)
    ensures View(Next(s, step).fs) == Shadow(View(s.fs), s, step)
    ensures View(s.fs).Valid()
  {
    var fs := s.fs;
    LiveNames(fs.durable, fs.pending);
    LiveIsCandidate(fs);
    match step
    case Begin(_) =>
    case Open(unused) => OpenKeepsView(s, unused);
    case WritePart(_) => DataStepKeepsView(s, step);
    case WriteAll => DataStepKeepsView(s, step);
    case Flush => DataStepKeepsView(s, step);
    case Rename =>
      RenameKeepsInv(s);
      LiveSnoc(fs.durable, fs.pending, RenameTmp(s.writer.handle));
      CandidatesSnoc(fs, RenameTmp(s.writer.handle));
    case SyncDir =>
    case Fail =>
    case Unlink =>
      if Live(fs).target.Some? {
        assert MayBeTarget(fs, Live(fs).target.value);
        LiveSnoc(fs.durable, fs.pending, UnlinkTarget);
        CandidatesSnoc(fs, UnlinkTarget);
      }
    case OtherSyncsDir =>
    case Crash(keep, garbage) =>
  }

  lemma {:induction false} LiveUnlinked(d: Dir, pending: seq<DirOp>)
    ensures LiveAfter(d, pending).target.None? ==> d.target.None? || UnlinkTarget in pending
  {
    if pending != [] { LiveUnlinked(d, pending[..|pending| - 1]); }
  }

  lemma LiveIsCandidate(fs: Fs)
    ensures Read(fs) in Candidates(fs)
  {
    LiveNames(fs.durable, fs.pending);
    LiveUnlinked(fs.durable, fs.pending);
    CandidateOfTarget(fs, Live(fs).target);
  }

  // ---- Runs: any writes, failures and crashes, any number of times ----

  ghost predicate Legal(s: State, steps: seq<Step>)
    decreases |steps|, 0
  {
    steps == [] || (Legal(s, steps[..|steps| - 1]) && Enabled(After(s, steps[..|steps| - 1]), steps[|steps| - 1]))
  }

  ghost function After(s: State, steps: seq<Step>): State
    requires Legal(s, steps)
    decreases |steps|, 1
  {
    if steps == [] then s else Next(After(s, steps[..|steps| - 1]), steps[|steps| - 1])
  }

  lemma {:induction false} RunKeepsInv(s: State, steps: seq<Step>)
    requires Inv(s) && Legal(s, steps)
    ensures Inv(After(s, steps))
  {
    if steps != [] {
      RunKeepsInv(s, steps[..|steps| - 1]);
      StepKeepsInv(After(s, steps[..|steps| - 1]), steps[|steps| - 1]);
    }
  }

  /** The contents written by the calls of a run. */
  ghost predicate SomeCallWrites(steps: seq<Step>, c: Bytes) { Begin(c) in steps }

  /**
   Over any run: what the writer is working on, what a read returns and what a
   crash may leave is always the whole contents of one call, or was there before.
   */
  lemma {:induction false} NeverTorn(s: State, steps: seq<Step>)
    requires Inv(s) && s.writer.Idle? && Legal(s, steps)
    ensures var t := After(s, steps);
            && (!t.writer.Idle? ==> SomeCallWrites(steps, t.writer.contents))
            && (forall v :: v in Candidates(t.fs) ==>
                  v.None? || v in Candidates(s.fs) || SomeCallWrites(steps, v.value))
  {
    if steps != [] {
      var init, step := steps[..|steps| - 1], steps[|steps| - 1];
      var t := After(s, init);
      NeverTorn(s, init);
      RunKeepsInv(s, init);
      StepRefines(t, step);
      if step.Crash? { CrashFindsCandidate(t, step.keep, step.garbage); }
      assert steps == init + [step];
      forall c | SomeCallWrites(init, c) ensures SomeCallWrites(steps, c) {}
      assert step in steps;
    }
  }

  /** The steps of one call, with other files' directory syncs in between. */
  predicate WithinCall(step: Step) {
    !step.Begin? && !step.Unlink? && !step.Crash?
  }

  lemma {:induction false} DuringCall(s: State, contents: Bytes, steps: seq<Step>)
    requires Inv(s) && s.writer == Begun(contents) && Legal(s, steps)
    requires forall k :: 0 <= k < |steps| ==> WithinCall(steps[k])
    ensures var t := After(s, steps);
            && (!t.writer.Idle? ==> t.writer.contents == contents)
            && Candidates(t.fs) <= Candidates(s.fs) + {Some(contents)}
            && (steps != [] && steps[|steps| - 1] == SyncDir ==> View(t.fs) == View(s.fs).Put(contents, Synced))
  {
    if steps != [] {
      var init, step := steps[..|steps| - 1], steps[|steps| - 1];
      DuringCall(s, contents, init);
      RunKeepsInv(s, init);
      StepRefines(After(s, init), step);
    }
  }

  /**
   Crash consistency of one call. After a crash at any point of the call the
   target holds `contents`, entire, or what a crash before the call could have
   left; and once the call has returned `Ok`, `contents`.
   */
  lemma {:induction false} OldOrNew(s: State, contents: Bytes, steps: seq<Step>,
                                    keep: seq<bool>, garbage: map<Inode, Bytes>)
    requires Inv(s) && s.writer == Begun(contents)
    requires Legal(s, steps) && forall k :: 0 <= k < |steps| ==> WithinCall(steps[k])
    requires Enabled(After(s, steps), Crash(keep, garbage))
    ensures var recovered := Read(Next(After(s, steps), Crash(keep, garbage)).fs);
            && (recovered == Some(contents) || recovered in Candidates(s.fs))
            && (Candidates(s.fs) == {Read(s.fs)} ==> recovered == Some(contents) || recovered == Read(s.fs))
            && (steps != [] && steps[|steps| - 1] == SyncDir ==> recovered == Some(contents))
  {
    DuringCall(s, contents, steps);
    RunKeepsInv(s, steps);
    CrashFindsCandidate(After(s, steps), keep, garbage);
  }

  /** Contents that are the only candidate outlive any number of crashes and failed calls that never rename. */
  lemma {:induction false} SettledStaysUntilRename(s: State, c: Bytes, steps: seq<Step>)
    requires Inv(s) && Legal(s, steps) && Candidates(s.fs) == {Some(c)}
    requires forall k :: 0 <= k < |steps| ==> !steps[k].Rename? && !steps[k].Unlink?
    ensures View(After(s, steps).fs) == DiskFile(Some(c), {Some(c)})
  {
    LiveIsCandidate(s.fs);
    if steps != [] {
      var init, step := steps[..|steps| - 1], steps[|steps| - 1];
      SettledStaysUntilRename(s, c, init);
      RunKeepsInv(s, init);
      StepRefines(After(s, init), step);
      if step.Crash? { CrashFindsCandidate(After(s, init), step.keep, step.garbage); }
    }
  }

  // ---- The helper itself ----

  lemma UnusedInodeExists(files: set<Inode>) returns (bound: Inode)
    ensures forall i :: i in files ==> i < bound
    ensures bound !in files
  {
    bound := 0;
    if files != {} {
      var i :| i in files;
      var b := UnusedInodeExists(files - {i});
      bound := if i < b then b else i + 1;
      assert forall j :: j in files ==> j == i || j in files - {i};
    }
  }

  /** One target file and its only writer. `steps` records every file-system step taken. */
  class FileStore {
    var fs: Fs
    var writer: Writer
    ghost const start: State
    ghost var steps: seq<Step>
    /** The file as the rest of the system sees it. */
    ghost var view: DiskFile<Bytes>

    ghost predicate Valid()
      reads this
    {
      Recorded(start, steps, State(fs, writer)) && view == View(fs)
    }

    constructor (fs: Fs)
      requires Inv(State(fs, Idle))
      ensures Valid() && this.fs == fs && writer.Idle? && steps == [] && view == View(fs)
    {
      this.fs, writer := fs, Idle;
      start := State(fs, Idle);
      steps := [];
      view := View(fs);
    }

    /** One file-system call. */
    method Do(step: Step)
      requires Valid() && Enabled(State(fs, writer), step)
      modifies this
      ensures Valid() && steps == old(steps) + [step]
      ensures State(fs, writer) == Next(old(State(fs, writer)), step)
      ensures view == Shadow(old(view), old(State(fs, writer)), step)
    {
      RecordStep(start, steps, State(fs, writer), step);
      var next := Next(State(fs, writer), step);
      fs, writer := next.fs, next.writer;
      steps := steps + [step];
      view := View(fs);
    }

    /** The call in progress gives up, at any point. */
    method GiveUp()
      requires Valid() && !writer.Idle?
      modifies this
      ensures Valid() && writer.Idle? && view == old(view) && steps == old(steps) + [Fail]
    {
      Do(Fail);
    }

    method OpenTmp()
      requires Valid() && writer.Begun?
      modifies this
      ensures Valid() && writer.Opened? && writer.contents == old(writer).contents && view == old(view)
      ensures |steps| == |old(steps)| + 1 && steps[..|old(steps)|] == old(steps) && steps[|old(steps)|].Open?
    {
      ghost var bound := UnusedInodeExists(fs.files.Keys);
      var unused: Inode :| unused !in fs.files;
      Do(Open(unused));
    }

    method WriteTmp()
      requires Valid() && writer.Opened?
      modifies this
      ensures Valid() && writer.Written? && writer.contents == old(writer).contents && view == old(view)
      ensures steps == old(steps) + [WriteAll]
    {
      Do(WriteAll);
    }

    method FlushTmp()
      requires Valid() && writer.Written?
      modifies this
      ensures Valid() && writer.Flushed? && writer.contents == old(writer).contents && view == old(view)
      ensures steps == old(steps) + [Flush]
    {
      Do(Flush);
    }

    method RenameTmpOverTarget()
      requires Valid() && writer.Flushed?
      modifies this
      ensures Valid() && writer == Renamed(old(writer).contents) && steps == old(steps) + [Rename]
      ensures view == old(view).Put(writer.contents, Unsynced)
    {
      RunKeepsInv(start, steps);
      RenameKeepsInv(State(fs, writer));
      Do(Rename);
    }

    method SyncDirectory()
      requires Valid() && writer.Renamed?
      modifies this
      ensures Valid() && writer.Idle? && steps == old(steps) + [SyncDir] && view == old(view).Settled()
    {
      Do(SyncDir);
    }

    method WriteAndFlush(contents: Bytes) returns (ok: bool)
      requires Valid() && writer.Opened? && writer.contents == contents
      modifies this
      ensures Valid() && view == old(view)
      ensures if ok then writer.Flushed? && writer.contents == contents else writer.Idle?
      ensures Extends(steps, old(steps))
    {
      if * {                               // write_all, after any part of the contents
        var count: nat :| count <= |contents|;
        Do(WritePart(count));
        GiveUp();
        return false;
      }
      WriteTmp();
      if * { GiveUp(); return false; }     // sync_all on the temporary file
      FlushTmp();
      return true;
    }

    /** Everything before the rename; nothing visible changes. */
    method Stage(contents: Bytes) returns (ok: bool)
      requires Valid() && writer == Begun(contents)
      modifies this
      ensures Valid() && view == old(view)
      ensures if ok then writer.Flushed? && writer.contents == contents else writer.Idle?
      ensures Extends(steps, old(steps))
    {
      if * { GiveUp(); return false; }     // create_dir_all, set_permissions
      if * { GiveUp(); return false; }     // open
      OpenTmp();
      ok := WriteAndFlush(contents);
    }

    /** The rename and the directory sync: an error here may come before or after the new contents are visible. */
    method Publish() returns (ok: bool)
      requires Valid() && writer.Flushed?
      modifies this
      ensures Valid() && writer.Idle?
      ensures Extends(steps, old(steps))
      ensures if ok then view == old(view).Put(old(writer).contents, Synced)
              else view == old(view) || view == old(view).Put(old(writer).contents, Unsynced)
    {
      if * { GiveUp(); return false; }     // rename
      RenameTmpOverTarget();
      if * { GiveUp(); return false; }     // open or sync the directory: an error after the rename
      SyncDirectory();
      return true;
    }

    method BeginCall(contents: Bytes)
      requires Valid() && writer.Idle?
      modifies this
      ensures Valid() && writer == Begun(contents) && view == old(view) && steps == old(steps) + [Begin(contents)]
    {
      Do(Begin(contents));
    }

    /**
     Write-then-rename with both syncs. Any call to the operating system may
     fail; the result tells which of the three outcomes of a replacement it was.
     */
    method WritePrivateAtomic(contents: Bytes) returns (ok: bool)
      requires Valid() && writer.Idle?
      modifies this
      ensures Valid() && writer.Idle?
      ensures Extends(steps, old(steps) + [Begin(contents)])
      ensures ok ==> view == old(view).Put(contents, Synced)
      ensures !ok ==> view == old(view).Put(contents, Failed) || view == old(view).Put(contents, Unsynced)
    {
      BeginCall(contents);
      ok := Stage(contents);
      if ok { ok := Publish(); }
    }
  }

  /** `steps` is `before` and then steps of one call only. */
  ghost predicate Extends(steps: seq<Step>, before: seq<Step>) {
    && |steps| >= |before| && steps[..|before|] == before
    && (forall k :: |before| <= k < |steps| ==> WithinCall(steps[k]))
  }

  ghost predicate Recorded(start: State, steps: seq<Step>, s: State) {
    Inv(start) && Legal(start, steps) && After(start, steps) == s
  }

  lemma RecordStep(start: State, steps: seq<Step>, s: State, step: Step)
    requires Recorded(start, steps, s) && Enabled(s, step)
    ensures Recorded(start, steps + [step], Next(s, step))
    ensures View(Next(s, step).fs) == Shadow(View(s.fs), s, step)
  {
    RunKeepsInv(start, steps);
    StepRefines(s, step);
    assert (steps + [step])[..|steps|] == steps;
  }
}
