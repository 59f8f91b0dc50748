/**
 The five state files in one shared directory. What the step system does to its
 `Disk` in one step is what a real call of the write helper, a real removal or a
 real crash does to the files, for any encoding of their contents.
 */
module StateFiles {
  import opened Common
  import opened DurableFile
  import opened LocalAccountBinding
  import opened ClaimSystem
  import S = SharedDirectory
  import A = AtomicWrite
  import O = OverlappingCalls

  const MARKER := 0
  const SECRET := 1
  const BINDING := 2
  const CREDENTIALS := 3
  const DEVICE_KEY := 4

  /** How contents become bytes; the secret is stored as it is. */
  datatype Codec = Codec(marker: Marker -> Bytes, binding: Binding -> Bytes, creds: Credentials -> Bytes)

  function EncodedValue<T>(v: Option<T>, enc: T -> Bytes): Option<Bytes> {
    if v.Some? then Some(enc(v.value)) else None
  }

  function Encoded<T>(f: DiskFile<T>, enc: T -> Bytes): DiskFile<Bytes> {
    DiskFile(EncodedValue(f.now, enc), set v | v in f.mayBe :: EncodedValue(v, enc))
  }

  /** The files `v` hold what `d` says, encoded; nothing is said of the device key. */
  ghost predicate Represents(v: seq<DiskFile<Bytes>>, d: Disk, c: Codec) {
    && |v| == 5
    && v[MARKER] == Encoded(d.marker, c.marker)
    && v[SECRET] == d.secret
    && v[BINDING] == Encoded(d.binding, c.binding)
    && v[CREDENTIALS] == Encoded(d.creds, c.creds)
  }

  lemma PutEncodes<T>(f: DiskFile<T>, enc: T -> Bytes, x: T, o: WriteOutcome)
    ensures Encoded(f.Put(x, o), enc) == Encoded(f, enc).Put(enc(x), o)
  {
    if o.Unsynced? {
      assert Encoded(f.Put(x, o), enc).mayBe == Encoded(f, enc).mayBe + {Some(enc(x))} by {
        assert EncodedValue(Some(x), enc) == Some(enc(x));
        forall v | v in f.mayBe ensures EncodedValue(v, enc) in Encoded(f.Put(x, o), enc).mayBe {
          assert v in f.Put(x, o).mayBe;
        }
        assert Some(x) in f.Put(x, o).mayBe;
      }
    }
  }

  lemma SettleEncodes<T>(f: DiskFile<T>, enc: T -> Bytes)
    ensures Encoded(f.Settled(), enc) == Encoded(f, enc).Settled()
  {}

  lemma RecoverEncodes<T>(f: DiskFile<T>, enc: T -> Bytes, x: Option<T>)
    ensures Encoded(f.Recovered(x), enc) == Encoded(f, enc).Recovered(EncodedValue(x, enc))
  {}

  lemma AllSettledIsDirSync(v: seq<DiskFile<Bytes>>, d: Disk, c: Codec)
    requires Represents(v, d, c)
    ensures Represents(S.AllSettled(v), DirSync(d, Synced), c)
  {
    SettleEncodes(d.marker, c.marker);
    SettleEncodes(d.binding, c.binding);
    SettleEncodes(d.creds, c.creds);
  }

  // ---- Writes ----

  datatype Write =
    | WriteMarker(marker: Marker)
    | WriteSecret(secret: Bytes)
    | WriteBinding(binding: Binding)
    | WriteCredentials(creds: Credentials)
    | WriteDeviceKey(key: Bytes)

  function FileOf(w: Write): S.FileId {
    match w
    case WriteMarker(_) => MARKER
    case WriteSecret(_) => SECRET
    case WriteBinding(_) => BINDING
    case WriteCredentials(_) => CREDENTIALS
    case WriteDeviceKey(_) => DEVICE_KEY
  }

  function BytesOf(w: Write, c: Codec): Bytes {
    match w
    case WriteMarker(m) => c.marker(m)
    case WriteSecret(b) => b
    case WriteBinding(b) => c.binding(b)
    case WriteCredentials(x) => c.creds(x)
    case WriteDeviceKey(k) => k
  }

  /** What the step system makes of a write. */
  function Written(d: Disk, w: Write, o: WriteOutcome): Disk {
    match w
    case WriteMarker(m) => PutMarker(d, m, o)
    case WriteSecret(b) => PutSecret(d, b, o)
    case WriteBinding(b) => PutBinding(d, b, o)
    case WriteCredentials(x) => PutCreds(d, x, o)
    case WriteDeviceKey(_) => DirSync(d, o)
  }

  lemma ReplacementIsWrite(v: seq<DiskFile<Bytes>>, d: Disk, c: Codec, w: Write, o: WriteOutcome)
    requires Represents(v, d, c)
    ensures Represents(S.Replaced(v, FileOf(w), BytesOf(w, c), o), Written(d, w, o), c)
  {
    if o.Synced? { AllSettledIsDirSync(v, d, c); }
    match w
    case WriteMarker(m) => PutEncodes(d.marker, c.marker, m, o);
    case WriteBinding(b) => PutEncodes(d.binding, c.binding, b, o);
    case WriteCredentials(x) => PutEncodes(d.creds, c.creds, x, o);
    case _ =>
  }

  /**
   A whole call of `write_private_atomic` on the shared directory, wherever it
   fails, is one of the three writes the step system knows; `Ok` is `Synced`.
   */
  lemma CallIsWrite(s: S.State, d: Disk, c: Codec, w: Write, steps: seq<A.Step>) returns (o: WriteOutcome)
    requires S.Inv(s) && |s.durable| == 5 && Represents(S.Views(s), d, c)
    requires s.writers[FileOf(w)] == A.Begun(BytesOf(w, c)) && S.IsCall(s, FileOf(w), steps)
    requires S.AfterSteps(s, FileOf(w), steps).writers[FileOf(w)].Idle?
    ensures o.Synced? == S.ReturnedOk(steps)
    ensures Represents(S.Views(S.AfterSteps(s, FileOf(w), steps)), Written(d, w, o), c)
  {
    S.CallIsReplacement(s, FileOf(w), BytesOf(w, c), steps);
    var t := S.AfterSteps(s, FileOf(w), steps);
    o :| o.Synced? == S.ReturnedOk(steps) && S.Views(t) == S.Replaced(S.Views(s), FileOf(w), BytesOf(w, c), o);
    ReplacementIsWrite(S.Views(s), d, c, w, o);
  }

  /** The writes `ws`, one after the other, with the outcomes of `ops`. */
  function AllWritten(d: Disk, ws: seq<Write>, ops: seq<O.Atomic>): Disk
    requires |ws| == |ops|
  {
    if ws == [] then d
    else Written(AllWritten(d, ws[..|ws| - 1], ops[..|ops| - 1]), ws[|ws| - 1], ops[|ops| - 1].outcome)
  }

  /** `a` is a replacement with what `w` writes. */
  predicate IsWriteOf(a: O.Atomic, w: Write, c: Codec) { a.file == FileOf(w) && a.contents == BytesOf(w, c) }

  lemma {:induction false} ReplacementsAreWrites(v: seq<DiskFile<Bytes>>, d: Disk, c: Codec,
                                                 ws: seq<Write>, ops: seq<O.Atomic>)
    requires Represents(v, d, c) && |ws| == |ops| && forall k :: 0 <= k < |ops| ==> IsWriteOf(ops[k], ws[k], c)
    ensures Represents(O.AllApplied(v, ops), AllWritten(d, ws, ops), c)
  {
    if ops != [] {
      var n := |ops| - 1;
      ReplacementsAreWrites(v, d, c, ws[..n], ops[..n]);
      assert IsWriteOf(ops[n], ws[n], c);
      ReplacementIsWrite(O.AllApplied(v, ops[..n]), AllWritten(d, ws[..n], ops[..n]), c, ws[n], ops[n].outcome);
    }
  }

  /** Every call begun in `moves` writes an encoded value to its own file. */
  ghost predicate CallsEncode(moves: seq<O.Move>, c: Codec) {
    forall m :: m in moves && m.step.Begin? ==> exists w :: m.file == FileOf(w) && m.step.contents == BytesOf(w, c)
  }

  lemma WriteOf(a: O.Atomic, moves: seq<O.Move>, c: Codec) returns (w: Write)
    requires CallsEncode(moves, c) && O.Move(a.file, A.Begin(a.contents)) in moves
    ensures IsWriteOf(a, w, c)
  {
    var m := O.Move(a.file, A.Begin(a.contents));
    assert m in moves && m.step.Begin?;
    w :| m.file == FileOf(w) && m.step.contents == BytesOf(w, c);
  }

  lemma {:induction false} WritesOf(ops: seq<O.Atomic>, moves: seq<O.Move>, c: Codec) returns (ws: seq<Write>)
    requires CallsEncode(moves, c) && O.Begun(ops, moves, 5)
    ensures |ws| == |ops| && forall k :: 0 <= k < |ops| ==> IsWriteOf(ops[k], ws[k], c)
  {
    if ops == [] {
      ws := [];
    } else {
      var n := |ops| - 1;
      var before := WritesOf(ops[..n], moves, c);
      var w := WriteOf(ops[n], moves, c);
      ws := before + [w];
    }
  }

  /**
   Calls for different state files that interleave step by step, and fail
   wherever they do: once none is in progress the disk is as the step system's
   one-step writes leave it, in some order, the calls that returned `Ok` being
   the `Synced` ones in the order they returned.
   */
  lemma OverlappingCallsAreWrites(s: S.State, d: Disk, c: Codec, moves: seq<O.Move>)
    returns (ws: seq<Write>, ops: seq<O.Atomic>)
    requires S.Inv(s) && |s.durable| == 5 && Represents(S.Views(s), d, c) && CallsEncode(moves, c)
    requires O.AllIdle(s) && O.Interleaves(s, moves) && O.AllIdle(O.AfterMoves(s, moves))
    ensures |ws| == |ops| && forall k :: 0 <= k < |ops| ==> IsWriteOf(ops[k], ws[k], c)
    ensures O.SyncedOf(ops) == O.OkOf(moves) && O.Begun(ops, moves, 5)
    ensures Represents(S.Views(O.AfterMoves(s, moves)), AllWritten(d, ws, ops), c)
  {
    ops := O.CallsAreReplacements(s, moves);
    ws := WritesOf(ops, moves, c);
    ReplacementsAreWrites(S.Views(s), d, c, ws, ops);
  }

  // ---- Removal ----

  /** Unlinking the secret file is the step system's removal. */
  lemma UnlinkIsRemoval(s: S.State, d: Disk, c: Codec)
    requires S.Inv(s) && |s.durable| == 5 && Represents(S.Views(s), d, c) && s.writers[SECRET].Idle?
    ensures S.WellFormed(S.Next(s, S.Call(SECRET, A.Unlink)))
    ensures Represents(S.Views(S.Next(s, S.Call(SECRET, A.Unlink))), DeleteSecret(d, true), c)
  {
    S.CallRefines(s, SECRET, A.Unlink);
  }

  // ---- Crashes ----

  /** The contents a crash of the step system leaves, as the files hold them. */
  function Contents(c: Codec, marker: Option<Marker>, secret: Option<Bytes>, binding: Option<Binding>,
                    creds: Option<Credentials>, key: Option<Bytes>): seq<Option<Bytes>> {
    [EncodedValue(marker, c.marker), secret, EncodedValue(binding, c.binding), EncodedValue(creds, c.creds), key]
  }

  /** Every crash the step system takes is one of the shared directory: the files' fates are independent. */
  lemma CrashCanHappen(s: S.State, d: Disk, c: Codec, marker: Option<Marker>, secret: Option<Bytes>,
                       binding: Option<Binding>, creds: Option<Credentials>)
    requires S.Inv(s) && |s.durable| == 5 && Represents(S.Views(s), d, c)
    requires marker in d.marker.mayBe && secret in d.secret.mayBe
    requires binding in d.binding.mayBe && creds in d.creds.mayBe
    ensures exists key :: S.CanRecover(s, Contents(c, marker, secret, binding, creds, key))
  {
    var key := S.Views(s)[DEVICE_KEY].now;
    KeyIsCandidate(s);
    AllCandidates(S.Views(s), d, c, marker, secret, binding, creds, key);
    S.CrashRecovers(s, Contents(c, marker, secret, binding, creds, key));
  }

  lemma EncodedCandidate<T>(f: DiskFile<T>, enc: T -> Bytes, x: Option<T>)
    requires x in f.mayBe
    ensures EncodedValue(x, enc) in Encoded(f, enc).mayBe
  {}

  lemma AllCandidates(v: seq<DiskFile<Bytes>>, d: Disk, c: Codec, marker: Option<Marker>, secret: Option<Bytes>,
                      binding: Option<Binding>, creds: Option<Credentials>, key: Option<Bytes>)
    requires Represents(v, d, c) && key in v[DEVICE_KEY].mayBe
    requires marker in d.marker.mayBe && secret in d.secret.mayBe
    requires binding in d.binding.mayBe && creds in d.creds.mayBe
    ensures var all := Contents(c, marker, secret, binding, creds, key);
            |all| == |v| && forall i :: 0 <= i < |all| ==> all[i] in v[i].mayBe
  {
    EncodedCandidate(d.marker, c.marker, marker);
    EncodedCandidate(d.binding, c.binding, binding);
    EncodedCandidate(d.creds, c.creds, creds);
  }

  lemma KeyIsCandidate(s: S.State)
    requires S.Inv(s) && |s.durable| == 5
    ensures S.Views(s)[DEVICE_KEY].now in S.Views(s)[DEVICE_KEY].mayBe
  {
    A.LiveIsCandidate(S.Part(s, DEVICE_KEY).fs);
  }

  /** And every crash of the shared directory is one the step system takes. */
  lemma CrashIsKnown(s: S.State, d: Disk, c: Codec, keep: seq<bool>, garbage: map<A.Inode, Bytes>)
    returns (marker: Option<Marker>, secret: Option<Bytes>, binding: Option<Binding>, creds: Option<Credentials>)
    requires S.Inv(s) && |s.durable| == 5 && Represents(S.Views(s), d, c) && |keep| == |s.pending|
    ensures marker in d.marker.mayBe && secret in d.secret.mayBe
    ensures binding in d.binding.mayBe && creds in d.creds.mayBe
    ensures S.WellFormed(S.Next(s, S.Crash(keep, garbage)))
    ensures Represents(S.Views(S.Next(s, S.Crash(keep, garbage))),
                       Disk(d.marker.Recovered(marker), d.secret.Recovered(secret),
                            d.binding.Recovered(binding), d.creds.Recovered(creds)), c)
  {
    S.StepKeepsInv(s, S.Crash(keep, garbage));
    S.CrashRefines(s, keep, garbage, MARKER);
    S.CrashRefines(s, keep, garbage, SECRET);
    S.CrashRefines(s, keep, garbage, BINDING);
    S.CrashRefines(s, keep, garbage, CREDENTIALS);
    var v := S.Views(S.Next(s, S.Crash(keep, garbage)));
    marker := Decoded(d.marker, c.marker, v[MARKER].now);
    secret := v[SECRET].now;
    binding := Decoded(d.binding, c.binding, v[BINDING].now);
    creds := Decoded(d.creds, c.creds, v[CREDENTIALS].now);
    RecoverEncodes(d.marker, c.marker, marker);
    RecoverEncodes(d.binding, c.binding, binding);
    RecoverEncodes(d.creds, c.creds, creds);
  }

  lemma Decoded<T>(f: DiskFile<T>, enc: T -> Bytes, b: Option<Bytes>) returns (x: Option<T>)
    requires b in Encoded(f, enc).mayBe
    ensures x in f.mayBe && EncodedValue(x, enc) == b
  {
    x :| x in f.mayBe && EncodedValue(x, enc) == b;
  }
}
