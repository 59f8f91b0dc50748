/**
 The bounded, expiring map of pending challenges.

 `insert` sweeps expired entries and, if still full, evicts one entry with the
 earliest deadline. Which one, when deadlines tie, depends on the hash map's
 iteration order, so an insertion is a relation between two maps. Two
 references explain it: the queue of the latest 256 insertions, and a map that
 is never bounded nor swept.
 */
module ChallengeStore {
  import opened Common

  type ChallengeId = string
  type Nonce = Array16

  const MAX_PENDING_CHALLENGES := 256
  /** 120 seconds, in nanoseconds of the monotonic clock. */
  const CHALLENGE_TTL := 120_000_000_000

  datatype Pending = Pending(serverNonce: Nonce, expiresAt: nat)

  type Store = map<ChallengeId, Pending>

  // ---- The operations on a map ----

  function Sweep(m: Store, now: nat): Store {
    map id | id in m && m[id].expiresAt > now :: m[id]
  }

  predicate Oldest(m: Store, id: ChallengeId) {
    id in m && forall other :: other in m ==> m[id].expiresAt <= m[other].expiresAt
  }

  /** `victim` is what an insertion at `now` may evict. */
  predicate MayEvict(m: Store, now: nat, victim: Option<ChallengeId>) {
    if |Sweep(m, now)| >= MAX_PENDING_CHALLENGES then victim.Some? && Oldest(Sweep(m, now), victim.value)
    else victim.None?
  }

  function Inserted(m: Store, id: ChallengeId, nonce: Nonce, now: nat, ttl: nat, victim: Option<ChallengeId>): Store {
    var kept := if victim.Some? then Sweep(m, now) - {victim.value} else Sweep(m, now);
    kept[id := Pending(nonce, now + ttl)]
  }

  function Peeked(m: Store, id: ChallengeId, now: nat): Option<Nonce> {
    if id in m && m[id].expiresAt > now then Some(m[id].serverNonce) else None
  }

  // ---- The store ----

  lemma OldestExists(m: Store)
    requires |m| > 0
    ensures exists id :: Oldest(m, id)
    decreases |m|
  {
    var id :| id in m;
    var rest := m - {id};
    if |rest| == 0 {
      assert rest == map[];
      assert forall other :: other in m ==> other == id || other in rest;
      assert Oldest(m, id);
    } else {
      OldestExists(rest);
      var old_ :| Oldest(rest, old_);
      assert forall other :: other in m ==> other == id || other in rest;
      if m[id].expiresAt <= m[old_].expiresAt {
        assert Oldest(m, id);
      } else {
        assert Oldest(m, old_);
      }
    }
  }

  class PendingChallengeStore {
    var challenges: Store

    constructor ()
      ensures challenges == map[]
    {
      challenges := map[];
    }

    method Insert(id: ChallengeId, nonce: Nonce, now: nat, ttl: nat)
      modifies this
      ensures exists victim :: MayEvict(old(challenges), now, victim)
                            && challenges == Inserted(old(challenges), id, nonce, now, ttl, victim)
    {
      ghost var before := challenges;
      ghost var victim: Option<ChallengeId> := None;
      challenges := map i | i in challenges && challenges[i].expiresAt > now :: challenges[i];
      assert challenges == Sweep(before, now);
      if |challenges| >= MAX_PENDING_CHALLENGES {
        OldestExists(challenges);
        var oldest :| oldest in challenges && Oldest(challenges, oldest);
        victim := Some(oldest);
        challenges := challenges - {oldest};
      }
      challenges := challenges[id := Pending(nonce, now + ttl)];
      assert MayEvict(before, now, victim);
      assert challenges == Inserted(before, id, nonce, now, ttl, victim);
    }

    method Peek(id: ChallengeId, now: nat) returns (nonce: Option<Nonce>)
      ensures nonce == Peeked(challenges, id, now)
    {
      nonce := None;
      if id in challenges && challenges[id].expiresAt > now {
        nonce := Some(challenges[id].serverNonce);
      }
    }

    method Invalidate(id: ChallengeId)
      modifies this
      ensures challenges == old(challenges) - {id}
    {
      challenges := challenges - {id};
    }
  }

  // ---- First reference: a map that is never bounded nor swept ----

  datatype Op =
    | Insert(id: ChallengeId, nonce: Nonce, now: nat, ttl: nat, victim: Option<ChallengeId>)
    | Invalidate(id: ChallengeId)

  /** A history is legal when every recorded eviction is one the store could make. */
  ghost predicate Legal(ops: seq<Op>) {
    ops == [] || (Legal(ops[..|ops| - 1]) &&
      match ops[|ops| - 1]
      case Insert(_, _, now, _, victim) => MayEvict(After(ops[..|ops| - 1]), now, victim)
      case Invalidate(_) => true)
  }

  /** The store after a history. */
  ghost function After(ops: seq<Op>): Store {
    if ops == [] then map[]
    else
      var m := After(ops[..|ops| - 1]);
      match ops[|ops| - 1]
      case Insert(id, nonce, now, ttl, victim) => Inserted(m, id, nonce, now, ttl, victim)
      case Invalidate(id) => m - {id}
  }

  /** The unbounded reference after the same history. */
  ghost function Unbounded(ops: seq<Op>): Store {
    if ops == [] then map[]
    else
      var m := Unbounded(ops[..|ops| - 1]);
      match ops[|ops| - 1]
      case Insert(id, nonce, now, ttl, _) => m[id := Pending(nonce, now + ttl)]
      case Invalidate(id) => m - {id}
  }

  /** The ids evicted and not inserted again since. */
  ghost function Evicted(ops: seq<Op>): set<ChallengeId> {
    if ops == [] then {}
    else
      var e := Evicted(ops[..|ops| - 1]);
      match ops[|ops| - 1]
      case Insert(id, _, _, _, victim) => (if victim.Some? then e + {victim.value} else e) - {id}
      case Invalidate(_) => e
  }

  /** The ids a sweep removed and no insertion or invalidation has touched since. */
  ghost function Swept(ops: seq<Op>): set<ChallengeId> {
    if ops == [] then {}
    else
      var before, m := Swept(ops[..|ops| - 1]), After(ops[..|ops| - 1]);
      match ops[|ops| - 1]
      case Insert(id, _, now, _, _) => before + (m.Keys - Sweep(m, now).Keys) - {id}
      case Invalidate(id) => before - {id}
  }

  /** The latest clock reading any insertion swept with. */
  ghost function LastSweep(ops: seq<Op>): nat {
    if ops == [] then 0
    else
      var t := LastSweep(ops[..|ops| - 1]);
      match ops[|ops| - 1]
      case Insert(_, _, now, _, _) => if now > t then now else t
      case Invalidate(_) => t
  }

  /** The store is the reference without what was evicted and what was swept. */
  lemma {:induction false} StoreWithinReference(ops: seq<Op>)
    ensures forall id :: id in After(ops) ==> id in Unbounded(ops) && After(ops)[id] == Unbounded(ops)[id]
    ensures forall id :: id in Unbounded(ops) && id !in After(ops) ==> id in Evicted(ops) || id in Swept(ops)
    ensures forall id :: id in Evicted(ops) || id in Swept(ops) ==> id !in After(ops)
  {
    if ops != [] {
      StoreWithinReference(ops[..|ops| - 1]);
    }
  }

  /** What a sweep removed had expired at the latest sweep. */
  lemma {:induction false} SweptHadExpired(ops: seq<Op>)
    ensures forall id :: id in Swept(ops) && id in Unbounded(ops) ==> Unbounded(ops)[id].expiresAt <= LastSweep(ops)
  {
    if ops != [] {
      StoreWithinReference(ops[..|ops| - 1]);
      SweptHadExpired(ops[..|ops| - 1]);
    }
  }

  /** The bound holds whatever the history. */
  lemma {:induction false} StoreBounded(ops: seq<Op>)
    requires Legal(ops)
    ensures |After(ops)| <= 256
  {
    if ops != [] {
      var before := ops[..|ops| - 1];
      StoreBounded(before);
      match ops[|ops| - 1]
      case Insert(id, nonce, now, ttl, victim) =>
        var swept := Sweep(After(before), now);
        SizeOfSubmap(swept, After(before));
        var kept := if victim.Some? then swept - {victim.value} else swept;
        if victim.Some? { SizeWithout(swept, victim.value); }
        assert kept[id := Pending(nonce, now + ttl)].Keys == kept.Keys + {id};
        SizeOfKeys(kept);
        SizeOfKeys(After(ops));
      case Invalidate(id) =>
        SizeOfSubmap(After(ops), After(before));
    }
  }

  lemma SizeOfKeys(m: Store)
    ensures |m| == |m.Keys|
  {}

  lemma SizeOfSubmap(m: Store, n: Store)
    requires m.Keys <= n.Keys
    ensures |m| <= |n|
  {
    SubsetSize(m.Keys, n.Keys);
  }

  lemma SubsetSize(x: set<ChallengeId>, y: set<ChallengeId>)
    requires x <= y
    ensures |x| <= |y|
  {
    assert y == x + (y - x);
  }

  lemma SizeWithout(m: Store, id: ChallengeId)
    requires id in m
    ensures |m - {id}| == |m| - 1
  {
    assert (m - {id}).Keys == m.Keys - {id};
  }

  /**
   What a lookup answers, exactly, for any clock readings in the history and of
   its own: the reference's answer, except that what was evicted or swept is
   gone. Readings are taken before the lock, so a lookup's own may lie before a
   sweep that has already happened.
   */
  lemma {:induction false} PeekIsReferenceExceptRemoved(ops: seq<Op>, id: ChallengeId, now: nat)
    ensures Peeked(After(ops), id, now)
         == if id in Evicted(ops) || id in Swept(ops) then None else Peeked(Unbounded(ops), id, now)
  {
    StoreWithinReference(ops);
  }

  /** At any time at all, the store never answers what the reference would not. */
  lemma {:induction false} PeekSound(ops: seq<Op>, id: ChallengeId, now: nat)
    ensures Peeked(After(ops), id, now).Some? ==> Peeked(Unbounded(ops), id, now) == Peeked(After(ops), id, now)
  {
    StoreWithinReference(ops);
  }

  /** The two agree on every lookup with reading `now` exactly when nothing removed is still alive at `now`. */
  lemma {:induction false} AgreesIffNothingAliveWasRemoved(ops: seq<Op>, now: nat)
    ensures (forall id :: Peeked(After(ops), id, now) == Peeked(Unbounded(ops), id, now))
       <==> (forall id :: id in Evicted(ops) || id in Swept(ops) ==> Peeked(Unbounded(ops), id, now).None?)
  {
    forall id ensures Peeked(After(ops), id, now)
                   == if id in Evicted(ops) || id in Swept(ops) then None else Peeked(Unbounded(ops), id, now)
    {
      PeekIsReferenceExceptRemoved(ops, id, now);
    }
  }

  /** For a reading not before the latest sweep only evictions matter. */
  lemma {:induction false} AgreesIffNothingAliveWasEvicted(ops: seq<Op>, now: nat)
    requires now >= LastSweep(ops)
    ensures (forall id :: Peeked(After(ops), id, now) == Peeked(Unbounded(ops), id, now))
       <==> (forall id :: id in Evicted(ops) ==> Peeked(Unbounded(ops), id, now).None?)
  {
    AgreesIffNothingAliveWasRemoved(ops, now);
    SweptHadExpired(ops);
  }

  /**
   For an earlier reading the sweep matters too: a challenge inserted at 0 is
   alive at `CHALLENGE_TTL - 1`, but a lookup with that reading misses it when
   another insertion, with a later reading, gets the lock first.
   */
  lemma EarlierReadingMissesSweptChallenge(a: ChallengeId, b: ChallengeId, n: Nonce)
    requires a != b
    ensures var ops := [Insert(a, n, 0, CHALLENGE_TTL, None), Insert(b, n, CHALLENGE_TTL, CHALLENGE_TTL, None)];
            && Legal(ops) && Evicted(ops) == {}
            && Peeked(Unbounded(ops), a, CHALLENGE_TTL - 1) == Some(n)
            && Peeked(After(ops), a, CHALLENGE_TTL - 1) == None
  {
    var first, second := Insert(a, n, 0, CHALLENGE_TTL, None), Insert(b, n, CHALLENGE_TTL, CHALLENGE_TTL, None);
    FirstInsert(a, n);
    LegalSnoc([first], second);
    assert Sweep(After([first]), CHALLENGE_TTL) == map[];
    assert [first, second] == [first] + [second];
  }

  lemma FirstInsert(a: ChallengeId, n: Nonce)
    ensures var ops := [Insert(a, n, 0, CHALLENGE_TTL, None)];
            Legal(ops) && After(ops) == map[a := Pending(n, CHALLENGE_TTL)] == Unbounded(ops) && Evicted(ops) == {}
  {
    var first := Insert(a, n, 0, CHALLENGE_TTL, None);
    assert Sweep(map[], 0) == map[];
    LegalSnoc([], first);
    assert [] + [first] == [first];
  }

  /** One more operation. */
  lemma LegalSnoc(ops: seq<Op>, op: Op)
    requires Legal(ops)
    ensures Legal(ops + [op]) <==> op.Invalidate? || MayEvict(After(ops), op.now, op.victim)
    ensures After(ops + [op]) == if op.Invalidate? then After(ops) - {op.id}
                                 else Inserted(After(ops), op.id, op.nonce, op.now, op.ttl, op.victim)
    ensures Unbounded(ops + [op]) == if op.Invalidate? then Unbounded(ops) - {op.id}
                                     else Unbounded(ops)[op.id := Pending(op.nonce, op.now + op.ttl)]
    ensures op.Insert? && op.victim.None? ==> Evicted(ops + [op]) == Evicted(ops) - {op.id}
  {
    assert (ops + [op])[..|ops|] == ops;
    UnboundedSnoc(ops, op);
  }

  lemma UnboundedSnoc(ops: seq<Op>, op: Op)
    ensures Unbounded(ops + [op]) == if op.Invalidate? then Unbounded(ops) - {op.id}
                                     else Unbounded(ops)[op.id := Pending(op.nonce, op.now + op.ttl)]
    ensures op.Insert? && op.victim.None? ==> Evicted(ops + [op]) == Evicted(ops) - {op.id}
  {
    assert (ops + [op])[..|ops|] == ops;
  }

  // ---- Second reference: the queue of the latest insertions ----

  datatype Entry = Entry(id: ChallengeId, nonce: Nonce, at: nat)

  /** Fresh ids and strictly increasing times. */
  ghost predicate Sequence(entries: seq<Entry>) {
    forall i, j :: 0 <= i < j < |entries| ==> entries[i].id != entries[j].id && entries[i].at < entries[j].at
  }

  ghost function History(entries: seq<Entry>, ttl: nat, victims: seq<Option<ChallengeId>>): seq<Op>
    requires |victims| == |entries|
  {
    seq(|entries|, i requires 0 <= i < |entries| =>
      Insert(entries[i].id, entries[i].nonce, entries[i].at, ttl, victims[i]))
  }

  /** Entry `i` is one of the last 256, and is the newest or has not expired when the newest arrives. */
  ghost predicate InQueue(entries: seq<Entry>, ttl: nat, i: int) {
    && 0 <= i < |entries| && i >= |entries| - MAX_PENDING_CHALLENGES
    && (i == |entries| - 1 || entries[i].at + ttl > entries[|entries| - 1].at)
  }

  ghost predicate IsQueue(m: Store, entries: seq<Entry>, ttl: nat) {
    && (forall i :: InQueue(entries, ttl, i) ==>
          entries[i].id in m && m[entries[i].id] == Pending(entries[i].nonce, entries[i].at + ttl))
    && (forall id :: id in m ==> exists i :: InQueue(entries, ttl, i) && entries[i].id == id)
  }

  ghost function Ids(entries: seq<Entry>, lo: nat, hi: nat): set<ChallengeId>
    requires lo <= hi <= |entries|
  {
    set i | lo <= i < hi :: entries[i].id
  }

  lemma {:induction false} IdsCount(entries: seq<Entry>, lo: nat, hi: nat)
    requires Sequence(entries) && lo <= hi <= |entries|
    ensures |Ids(entries, lo, hi)| == hi - lo
    decreases hi
  {
    if lo < hi {
      IdsCount(entries, lo, hi - 1);
      assert Ids(entries, lo, hi) == Ids(entries, lo, hi - 1) + {entries[hi - 1].id};
    }
  }

  /** Entry `i` is one of the last 256. */
  ghost predicate Recent(entries: seq<Entry>, i: int) {
    0 <= i < |entries| && i >= |entries| - MAX_PENDING_CHALLENGES
  }

  /** `s` holds exactly the recent entries still alive at `now`. */
  ghost predicate IsAlive(s: Store, entries: seq<Entry>, ttl: nat, now: nat) {
    && (forall i :: Recent(entries, i) ==> (entries[i].id in s <==> entries[i].at + ttl > now))
    && (forall i :: Recent(entries, i) && entries[i].id in s ==>
          s[entries[i].id] == Pending(entries[i].nonce, entries[i].at + ttl))
    && (forall id :: id in s ==> exists i :: Recent(entries, i) && entries[i].id == id)
  }

  lemma SequenceParts(entries: seq<Entry>, next: Entry)
    requires Sequence(entries + [next])
    ensures Sequence(entries)
    ensures forall i :: 0 <= i < |entries| ==> entries[i].id != next.id && entries[i].at < next.at
  {
    var all := entries + [next];
    assert forall i :: 0 <= i < |entries| ==> all[i] == entries[i];
    assert all[|entries|] == next;
  }

  /** What is left of the queue when the next entry sweeps. */
  lemma SweptQueue(m: Store, entries: seq<Entry>, ttl: nat, next: Entry)
    requires Sequence(entries + [next]) && IsQueue(m, entries, ttl)
    ensures IsAlive(Sweep(m, next.at), entries, ttl, next.at)
  {
    SequenceParts(entries, next);
    var s := Sweep(m, next.at);
    forall i | Recent(entries, i)
      ensures entries[i].id in s <==> entries[i].at + ttl > next.at
      ensures entries[i].id in s ==> s[entries[i].id] == Pending(entries[i].nonce, entries[i].at + ttl)
    {
      if entries[i].at + ttl > next.at { assert InQueue(entries, ttl, i); }
      if entries[i].id in s {
        var j :| InQueue(entries, ttl, j) && entries[j].id == entries[i].id;
      }
    }
    forall id | id in s ensures exists i :: Recent(entries, i) && entries[i].id == id {
      var i :| InQueue(entries, ttl, i) && entries[i].id == id;
      assert Recent(entries, i);
    }
  }

  lemma AliveFull(s: Store, entries: seq<Entry>, ttl: nat, now: nat, lo: nat)
    requires Sequence(entries) && IsAlive(s, entries, ttl, now)
    requires lo == |entries| - MAX_PENDING_CHALLENGES && entries[lo].at + ttl > now
    ensures |s| >= MAX_PENDING_CHALLENGES
  {
    forall i | lo <= i < |entries| ensures entries[i].id in s {
      assert Recent(entries, i) && entries[lo].at <= entries[i].at;
    }
    assert Ids(entries, lo, |entries|) <= s.Keys;
    IdsCount(entries, lo, |entries|);
    SubsetSize(Ids(entries, lo, |entries|), s.Keys);
    SizeOfKeys(s);
  }

  lemma AliveOldest(s: Store, entries: seq<Entry>, ttl: nat, now: nat, lo: nat)
    requires Sequence(entries) && IsAlive(s, entries, ttl, now)
    requires lo == |entries| - MAX_PENDING_CHALLENGES && entries[lo].at + ttl > now
    ensures Oldest(s, entries[lo].id)
    ensures forall id :: Oldest(s, id) ==> id == entries[lo].id
  {
    assert Recent(entries, lo);
    forall id | id in s
      ensures s[entries[lo].id].expiresAt <= s[id].expiresAt
      ensures s[id].expiresAt == s[entries[lo].id].expiresAt ==> id == entries[lo].id
    {
      var i :| Recent(entries, i) && entries[i].id == id;
    }
  }

  lemma AliveNotFull(s: Store, entries: seq<Entry>, ttl: nat, now: nat)
    requires Sequence(entries) && IsAlive(s, entries, ttl, now)
    requires var lo := |entries| - MAX_PENDING_CHALLENGES; lo >= 0 ==> entries[lo].at + ttl <= now
    ensures |s| < MAX_PENDING_CHALLENGES
  {
    var lo := |entries| - MAX_PENDING_CHALLENGES;
    var from := if lo >= 0 then lo + 1 else 0;
    forall id | id in s.Keys ensures id in Ids(entries, from, |entries|) {
      var i :| Recent(entries, i) && entries[i].id == id;
      assert i != lo;
    }
    IdsCount(entries, from, |entries|);
    SubsetSize(s.Keys, Ids(entries, from, |entries|));
    SizeOfKeys(s);
  }

  /** The swept queue is full exactly when its oldest possible entry is still alive; then that entry is the victim. */
  lemma VictimIsOldestEntry(m: Store, entries: seq<Entry>, ttl: nat, next: Entry, victim: Option<ChallengeId>)
    requires Sequence(entries + [next]) && IsQueue(m, entries, ttl) && MayEvict(m, next.at, victim)
    ensures var lo := |entries| - MAX_PENDING_CHALLENGES;
            victim == if lo >= 0 && entries[lo].at + ttl > next.at then Some(entries[lo].id) else None
  {
    var lo := |entries| - MAX_PENDING_CHALLENGES;
    SequenceParts(entries, next);
    SweptQueue(m, entries, ttl, next);
    if lo >= 0 && entries[lo].at + ttl > next.at {
      AliveFull(Sweep(m, next.at), entries, ttl, next.at, lo);
      AliveOldest(Sweep(m, next.at), entries, ttl, next.at, lo);
    } else {
      AliveNotFull(Sweep(m, next.at), entries, ttl, next.at);
    }
  }

  /**
   With fresh ids, strictly increasing insert times, one lifetime and no
   invalidation, the map is the queue of the last 256 insertions without those
   expired when the newest arrived.
   */
  lemma {:induction false} StoreIsQueue(entries: seq<Entry>, ttl: nat, victims: seq<Option<ChallengeId>>)
    requires Sequence(entries) && |victims| == |entries| && Legal(History(entries, ttl, victims))
    ensures IsQueue(After(History(entries, ttl, victims)), entries, ttl)
  {
    var n := |entries|;
    if n > 0 {
      var before, next, victim := entries[..n - 1], entries[n - 1], victims[n - 1];
      var ops := History(entries, ttl, victims);
      assert ops[..n - 1] == History(before, ttl, victims[..n - 1]);
      assert before + [next] == entries;
      StoreIsQueue(before, ttl, victims[..n - 1]);
      var m := After(ops[..n - 1]);
      QueueStep(m, before, ttl, next, victim);
    }
  }

  /** `kept` holds exactly the entries alive when `next` arrives, among the last 255. */
  ghost predicate IsKept(kept: Store, entries: seq<Entry>, ttl: nat, next: Entry) {
    && (forall i :: InQueue(entries + [next], ttl, i) && i < |entries| ==>
          entries[i].id in kept && kept[entries[i].id] == Pending(entries[i].nonce, entries[i].at + ttl))
    && (forall id :: id in kept ==>
          exists i :: InQueue(entries + [next], ttl, i) && i < |entries| && entries[i].id == id)
  }

  lemma QueueStep(m: Store, entries: seq<Entry>, ttl: nat, next: Entry, victim: Option<ChallengeId>)
    requires Sequence(entries + [next]) && IsQueue(m, entries, ttl) && MayEvict(m, next.at, victim)
    ensures IsQueue(Inserted(m, next.id, next.nonce, next.at, ttl, victim), entries + [next], ttl)
  {
    var kept := if victim.Some? then Sweep(m, next.at) - {victim.value} else Sweep(m, next.at);
    assert IsKept(kept, entries, ttl, next) by {
      assert Sequence(entries) by { SequenceParts(entries, next); }
      SweptQueue(m, entries, ttl, next);
      VictimIsOldestEntry(m, entries, ttl, next, victim);
      KeptAlive(Sweep(m, next.at), entries, ttl, next, victim);
    }
    QueueGrows(kept, entries, ttl, next);
  }

  lemma QueueGrows(kept: Store, entries: seq<Entry>, ttl: nat, next: Entry)
    requires Sequence(entries + [next]) && IsKept(kept, entries, ttl, next)
    ensures IsQueue(kept[next.id := Pending(next.nonce, next.at + ttl)], entries + [next], ttl)
  {
    SequenceParts(entries, next);
    var all, after := entries + [next], kept[next.id := Pending(next.nonce, next.at + ttl)];
    forall i | InQueue(all, ttl, i)
      ensures all[i].id in after && after[all[i].id] == Pending(all[i].nonce, all[i].at + ttl)
    {
      if i < |entries| { assert all[i] == entries[i]; }
    }
    forall id | id in after
      ensures exists i :: InQueue(all, ttl, i) && all[i].id == id
    {
      if id == next.id {
        assert InQueue(all, ttl, |entries|) && all[|entries|].id == id;
      } else {
        var i :| InQueue(all, ttl, i) && i < |entries| && entries[i].id == id;
        assert all[i].id == id;
      }
    }
  }

  /** The swept map without the victim holds the alive entries among the last 255. */
  lemma KeptAlive(s: Store, entries: seq<Entry>, ttl: nat, next: Entry, victim: Option<ChallengeId>)
    requires Sequence(entries + [next]) && IsAlive(s, entries, ttl, next.at)
    requires var lo := |entries| - MAX_PENDING_CHALLENGES;
             victim == if lo >= 0 && entries[lo].at + ttl > next.at then Some(entries[lo].id) else None
    ensures IsKept(if victim.Some? then s - {victim.value} else s, entries, ttl, next)
  {
    SequenceParts(entries, next);
    var lo, all := |entries| - MAX_PENDING_CHALLENGES, entries + [next];
    var kept := if victim.Some? then s - {victim.value} else s;
    forall i | InQueue(all, ttl, i) && i < |entries|
      ensures entries[i].id in kept && kept[entries[i].id] == Pending(entries[i].nonce, entries[i].at + ttl)
    {
      assert Recent(entries, i) && all[i] == entries[i];
    }
    forall id | id in kept
      ensures exists i :: InQueue(all, ttl, i) && i < |entries| && entries[i].id == id
    {
      var i :| Recent(entries, i) && entries[i].id == id;
      assert i != lo && all[i] == entries[i];
      assert InQueue(all, ttl, i);
    }
  }

  /** So a challenge answers lookups within its lifetime through the next 255 insertions. */
  lemma {:induction false} SurvivesNext255(entries: seq<Entry>, ttl: nat, victims: seq<Option<ChallengeId>>,
                                           i: nat, now: nat)
    requires Sequence(entries) && |victims| == |entries| && Legal(History(entries, ttl, victims))
    requires i < |entries| && |entries| - 1 - i <= 255
    requires entries[|entries| - 1].at <= now < entries[i].at + ttl
    ensures Peeked(After(History(entries, ttl, victims)), entries[i].id, now) == Some(entries[i].nonce)
  {
    StoreIsQueue(entries, ttl, victims);
    assert InQueue(entries, ttl, i);
  }

  /** And a challenge is gone after 256 later insertions, whatever its lifetime. */
  lemma {:induction false} GoneAfter256(entries: seq<Entry>, ttl: nat, victims: seq<Option<ChallengeId>>,
                                        i: nat, now: nat)
    requires Sequence(entries) && |victims| == |entries| && Legal(History(entries, ttl, victims))
    requires i < |entries| && |entries| - 1 - i >= 256
    ensures Peeked(After(History(entries, ttl, victims)), entries[i].id, now) == None
  {
    StoreIsQueue(entries, ttl, victims);
    forall j | InQueue(entries, ttl, j) ensures entries[j].id != entries[i].id {
      assert i < j;
    }
  }
}
