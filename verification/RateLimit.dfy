/**
 The per-source-IP token bucket in front of every claim route.

 The bucket is proved equal to an independent reference, a sliding-window
 limiter: a call is granted exactly when, for every earlier call of the same
 IP taken as the start of a window, the grants in that window stay within
 `capacity` plus `capacity` per minute of forward clock movement. No reading of
 the clock is excluded: `now` is read before the lock is taken, so a bucket may
 see its own time go backwards.
 Tokens are real numbers; the rounding of the source's `f64` is not modelled.
 */
module RateLimit {
  import opened Common

  type IpAddr = Bytes

  const NANOS_PER_SEC := 1_000_000_000.0

  datatype Bucket = Bucket(tokens: real, lastRefill: nat)

  type Buckets = map<IpAddr, Bucket>

  datatype Call = Call(ip: IpAddr, now: nat)

  function Min(x: real, y: real): real { if x <= y then x else y }

  /** `Instant::saturating_duration_since`, in seconds: a backward step counts as nothing. */
  function Elapsed(from: nat, to: nat): (r: real)
    ensures r >= 0.0
  {
    if from <= to then (to - from) as real / NANOS_PER_SEC else 0.0
  }

  function RefillRate(capacity: real): real { capacity / 60.0 }

  // ---- The reference: a sliding-window limiter over one IP's call times ----

  function Last(times: seq<nat>): nat
    requires times != []
  {
    times[|times| - 1]
  }

  function Init(times: seq<nat>): seq<nat>
    requires times != []
  {
    times[..|times| - 1]
  }

  /** Forward clock movement, in seconds, from call `start` to the last call. */
  function Forward(times: seq<nat>, start: nat): (r: real)
    ensures r >= 0.0
    decreases |times|
  {
    if |times| < 2 || start >= |times| - 1 then 0.0
    else Forward(Init(times), start) + Elapsed(times[|times| - 2], times[|times| - 1])
  }

  /** The tokens that flow in while the clock moves forward from call `start` to the last call. */
  function Inflow(capacity: real, times: seq<nat>, start: nat): real {
    RefillRate(capacity) * Forward(times, start)
  }

  /** How many of the calls from `start` on the reference grants. */
  ghost function Admitted(capacity: real, times: seq<nat>, start: nat): nat
    decreases |times|, 2
  {
    if start >= |times| then 0
    else Admitted(capacity, Init(times), start) + (if WindowAllows(capacity, times) then 1 else 0)
  }

  /** What the budget of the window starting at `start` leaves for the last call. */
  ghost function Slack(capacity: real, times: seq<nat>, start: nat): real
    requires times != []
    decreases |times|, 0
  {
    capacity + Inflow(capacity, times, start) - Admitted(capacity, Init(times), start) as real
  }

  /** The reference's answer to the last call of `times`: every window has room for one more grant. */
  ghost predicate WindowAllows(capacity: real, times: seq<nat>)
    requires times != []
    decreases |times|, 1
  {
    forall start :: 0 <= start < |times| ==> Slack(capacity, times, start) >= 1.0
  }

  // ---- The bucket's own recurrence ----

  function Spend(tokens: real): real { if tokens >= 1.0 then tokens - 1.0 else tokens }

  /** The tokens the last call of `times` finds after its refill. */
  function Available(capacity: real, times: seq<nat>): real
    requires times != []
    decreases |times|
  {
    if |times| == 1 then capacity
    else
      var gain := Elapsed(times[|times| - 2], times[|times| - 1]) * RefillRate(capacity);
      Min(Spend(Available(capacity, Init(times))) + gain, capacity)
  }

  function BucketAfter(capacity: real, times: seq<nat>): Bucket
    requires times != []
  {
    Bucket(Spend(Available(capacity, times)), Last(times))
  }

  // ---- Exactness ----

  lemma SlackStep(capacity: real, times: seq<nat>, start: nat)
    requires |times| >= 2 && start < |times| - 1
    ensures Slack(capacity, times, start)
         == Slack(capacity, Init(times), start) - (if WindowAllows(capacity, Init(times)) then 1.0 else 0.0)
            + Elapsed(times[|times| - 2], times[|times| - 1]) * RefillRate(capacity)
  {
    InflowStep(capacity, times, start);
  }

  lemma InflowStep(capacity: real, times: seq<nat>, start: nat)
    requires |times| >= 2 && start < |times| - 1
    ensures Inflow(capacity, times, start)
         == Inflow(capacity, Init(times), start)
            + Elapsed(times[|times| - 2], times[|times| - 1]) * RefillRate(capacity)
  {
    var f, e := Forward(Init(times), start), Elapsed(times[|times| - 2], times[|times| - 1]);
    Distribute(RefillRate(capacity), f, e, Forward(times, start));
  }

  lemma Distribute(r: real, x: real, y: real, sum: real)
    requires sum == x + y
    ensures r * sum == r * x + y * r
  {}

  /** The window that starts at the last call itself has its whole budget. */
  lemma FullWindow(capacity: real, times: seq<nat>)
    requires times != []
    ensures Slack(capacity, times, |times| - 1) == capacity
  {
    assert RefillRate(capacity) * 0.0 == 0.0;
  }

  /** `v` is the least slack over all window starts. */
  ghost predicate IsLeastSlack(capacity: real, times: seq<nat>, v: real)
    requires times != []
  {
    && (forall start :: 0 <= start < |times| ==> v <= Slack(capacity, times, start))
    && (exists start :: 0 <= start < |times| && v == Slack(capacity, times, start))
  }

  lemma LeastSlackDecides(capacity: real, times: seq<nat>, v: real)
    requires times != [] && IsLeastSlack(capacity, times, v)
    ensures v >= 1.0 <==> WindowAllows(capacity, times)
  {}

  /** One more call: every window loses the last grant and gains the inflow, and a full window starts. */
  lemma LeastSlackStep(capacity: real, times: seq<nat>, v: real, gain: real)
    requires |times| >= 2 && IsLeastSlack(capacity, Init(times), v)
    requires gain == Elapsed(times[|times| - 2], times[|times| - 1]) * RefillRate(capacity)
    ensures IsLeastSlack(capacity, times, Min(Spend(v) + gain, capacity))
  {
    var n, next := |times| - 1, Min(Spend(v) + gain, capacity);
    LeastSlackDecides(capacity, Init(times), v);
    forall start | 0 <= start < |times|
      ensures next <= Slack(capacity, times, start)
    {
      if start < n {
        SlackStep(capacity, times, start);
        assert v <= Slack(capacity, Init(times), start);
      } else {
        FullWindow(capacity, times);
      }
    }
    if next == capacity {
      FullWindow(capacity, times);
    } else {
      var best :| 0 <= best < n && v == Slack(capacity, Init(times), best);
      SlackStep(capacity, times, best);
      assert next == Slack(capacity, times, best);
    }
  }

  /** The tokens a call finds are the least slack, so the bucket grants exactly when the reference does. */
  lemma {:induction false} TokensAreLeastSlack(capacity: real, times: seq<nat>)
    requires times != []
    ensures IsLeastSlack(capacity, times, Available(capacity, times))
    ensures Available(capacity, times) >= 1.0 <==> WindowAllows(capacity, times)
    decreases |times|
  {
    if |times| > 1 {
      TokensAreLeastSlack(capacity, Init(times));
      var gain := Elapsed(times[|times| - 2], times[|times| - 1]) * RefillRate(capacity);
      LeastSlackStep(capacity, times, Available(capacity, Init(times)), gain);
    } else {
      FullWindow(capacity, times);
    }
    LeastSlackDecides(capacity, times, Available(capacity, times));
  }

  // ---- The same in whole nanoseconds ----

  /** Forward clock movement, in nanoseconds, from call `start` to the last call. */
  function ForwardNanos(times: seq<nat>, start: nat): nat
    decreases |times|
  {
    if |times| < 2 || start >= |times| - 1 then 0
    else
      var from, to := times[|times| - 2], times[|times| - 1];
      ForwardNanos(Init(times), start) + (if from <= to then to - from else 0)
  }

  lemma SumOfSeconds(x: nat, y: nat)
    ensures (x + y) as real / 1_000_000_000.0 == x as real / 1_000_000_000.0 + y as real / 1_000_000_000.0
  {}

  lemma {:induction false} ForwardIs(times: seq<nat>, start: nat)
    ensures Forward(times, start) == ForwardNanos(times, start) as real / 1_000_000_000.0
    decreases |times|
  {
    if |times| >= 2 && start < |times| - 1 {
      ForwardIs(Init(times), start);
      var from, to := times[|times| - 2], times[|times| - 1];
      SumOfSeconds(ForwardNanos(Init(times), start), if from <= to then to - from else 0);
    }
  }

  lemma PerMinute(capacity: real, nanos: real)
    ensures capacity / 60.0 * (nanos / 1_000_000_000.0) == capacity * nanos / 60_000_000_000.0
  {}

  /** The inflow is `capacity` for every minute of forward movement. */
  lemma InflowIs(capacity: real, times: seq<nat>, start: nat)
    ensures Inflow(capacity, times, start) == capacity * ForwardNanos(times, start) as real / 60_000_000_000.0
  {
    ForwardIs(times, start);
    PerMinute(capacity, ForwardNanos(times, start) as real);
  }

  /**
   One more grant fits the window from `start`: the earlier grants in it and this
   one stay within `capacity` and `capacity` more per minute of forward movement.
   */
  ghost predicate HasRoom(capacity: real, times: seq<nat>, start: nat)
    requires times != []
  {
    Admitted(capacity, Init(times), start) as real + 1.0
      <= capacity + capacity * ForwardNanos(times, start) as real / 60_000_000_000.0
  }

  lemma RoomIsSlack(capacity: real, times: seq<nat>, start: nat)
    requires times != []
    ensures Slack(capacity, times, start) >= 1.0 <==> HasRoom(capacity, times, start)
  {
    InflowIs(capacity, times, start);
  }

  /**
   Exactness, in the plain terms of the source: a call finds a token exactly
   when for every window start the earlier grants in the window, plus this one,
   stay within capacity + (capacity / 60) * seconds of forward clock movement.
   */
  lemma {:induction false} GrantedIffEveryWindowHasRoom(capacity: real, times: seq<nat>)
    requires times != []
    ensures Available(capacity, times) >= 1.0 <==>
      forall start :: 0 <= start < |times| ==> HasRoom(capacity, times, start)
    ensures WindowAllows(capacity, times) <==>
      forall start :: 0 <= start < |times| ==> HasRoom(capacity, times, start)
  {
    TokensAreLeastSlack(capacity, times);
    forall start | 0 <= start < |times|
      ensures Slack(capacity, times, start) >= 1.0 <==> HasRoom(capacity, times, start)
    {
      RoomIsSlack(capacity, times, start);
    }
  }

  lemma InflowNotNegative(capacity: real, from: nat, to: nat)
    requires capacity >= 1.0
    ensures Elapsed(from, to) * RefillRate(capacity) >= 0.0
  {}

  /** A bucket always holds between nothing and its capacity. */
  lemma {:induction false} BucketWithinCapacity(capacity: real, times: seq<nat>)
    requires times != [] && capacity >= 1.0
    ensures 0.0 <= Available(capacity, times) <= capacity
    ensures 0.0 <= BucketAfter(capacity, times).tokens <= capacity
    decreases |times|
  {
    if |times| > 1 {
      BucketWithinCapacity(capacity, Init(times));
      InflowNotNegative(capacity, times[|times| - 2], times[|times| - 1]);
    }
  }

  lemma {:induction false} WindowBudgetInflow(capacity: real, times: seq<nat>, start: nat)
    requires capacity >= 1.0 && start < |times|
    ensures Admitted(capacity, times, start) as real <= capacity + Inflow(capacity, times, start)
    decreases |times|
  {
    if WindowAllows(capacity, times) {
      assert Slack(capacity, times, start) >= 1.0;
    } else if start < |times| - 1 {
      WindowBudgetInflow(capacity, Init(times), start);
      InflowStep(capacity, times, start);
      InflowNotNegative(capacity, times[|times| - 2], times[|times| - 1]);
    } else {
      assert RefillRate(capacity) * 0.0 == 0.0;
    }
  }

  /** Whatever the clock does, no window of calls is granted more than its budget. */
  lemma WindowBudget(capacity: real, times: seq<nat>, start: nat)
    requires capacity >= 1.0 && start < |times|
    ensures Admitted(capacity, times, start) as real
         <= capacity + capacity * ForwardNanos(times, start) as real / 60_000_000_000.0
  {
    WindowBudgetInflow(capacity, times, start);
    InflowIs(capacity, times, start);
  }

  ghost predicate Nondecreasing(times: seq<nat>) {
    forall i, j :: 0 <= i <= j < |times| ==> times[i] <= times[j]
  }

  /** With a clock that never steps back, forward movement is the window's plain duration. */
  lemma {:induction false} PlainDuration(times: seq<nat>, start: nat)
    requires start < |times| && Nondecreasing(times)
    ensures ForwardNanos(times, start) == Last(times) - times[start]
    decreases |times|
  {
    if start < |times| - 1 { PlainDuration(Init(times), start); }
  }

  /** So a window of calls is granted at most `capacity` and `capacity` more for every minute it lasts. */
  lemma {:induction false} PlainBudget(capacity: real, times: seq<nat>, start: nat)
    requires capacity >= 1.0 && start < |times| && Nondecreasing(times)
    ensures Admitted(capacity, times, start) as real
         <= capacity + capacity * (Last(times) - times[start]) as real / 60_000_000_000.0
  {
    WindowBudget(capacity, times, start);
    PlainDuration(times, start);
  }

  // ---- What a caller who waits is sure of ----

  /** What flows in over one step of the clock. */
  lemma GainIs(capacity: real, from: nat, to: nat)
    requires from <= to
    ensures Elapsed(from, to) * RefillRate(capacity) == capacity * (to - from) as real / 60_000_000_000.0
  {
    PerMinute(capacity, (to - from) as real);
  }

  lemma FullMinute(capacity: real, nanos: real)
    requires capacity >= 1.0 && nanos >= 60_000_000_000.0
    ensures capacity * nanos / 60_000_000_000.0 >= capacity
  {
    assert capacity * nanos >= capacity * 60_000_000_000.0;
  }

  lemma OneShare(x: real)
    requires x >= 60_000_000_000.0
    ensures x / 60_000_000_000.0 >= 1.0
  {}

  lemma GainOfAMinute(capacity: real, from: nat, to: nat)
    requires capacity >= 1.0 && to >= from + 60_000_000_000
    ensures Elapsed(from, to) * RefillRate(capacity) >= capacity
  {
    GainIs(capacity, from, to);
    FullMinute(capacity, (to - from) as real);
  }

  lemma GainOfOneShare(capacity: real, from: nat, to: nat)
    requires from <= to && capacity * (to - from) as real >= 60_000_000_000.0
    ensures Elapsed(from, to) * RefillRate(capacity) >= 1.0
  {
    GainIs(capacity, from, to);
    OneShare(capacity * (to - from) as real);
  }

  /** At least what has flowed in since the call before is there, up to a full bucket. */
  lemma GainIsThere(capacity: real, times: seq<nat>, gain: real)
    requires |times| >= 2 && capacity >= 1.0
    requires Elapsed(times[|times| - 2], times[|times| - 1]) * RefillRate(capacity) >= gain
    ensures Min(gain, capacity) <= Available(capacity, times) <= capacity
  {
    BucketWithinCapacity(capacity, Init(times));
  }

  /** A first call finds a full bucket, and so does a call a minute or more after the one before. */
  lemma FullAfterAMinute(capacity: real, times: seq<nat>)
    requires times != [] && capacity >= 1.0
    requires |times| == 1 || times[|times| - 1] >= times[|times| - 2] + 60_000_000_000
    ensures Available(capacity, times) == capacity
  {
    if |times| > 1 {
      GainOfAMinute(capacity, times[|times| - 2], times[|times| - 1]);
      GainIsThere(capacity, times, capacity);
    }
  }

  /** A call that comes 60 / capacity seconds or more after the one before finds a token. */
  lemma GrantedAfterOneShare(capacity: real, times: seq<nat>)
    requires |times| >= 2 && capacity >= 1.0 && times[|times| - 2] <= times[|times| - 1]
    requires capacity * (times[|times| - 1] - times[|times| - 2]) as real >= 60_000_000_000.0
    ensures Available(capacity, times) >= 1.0
  {
    GainOfOneShare(capacity, times[|times| - 2], times[|times| - 1]);
    GainIsThere(capacity, times, 1.0);
  }

  // ---- Many IPs ----

  /** The clock readings of one IP's calls, in lock order. */
  function TimesOf(history: seq<Call>, ip: IpAddr): seq<nat> {
    if history == [] then []
    else
      var before, c := TimesOf(history[..|history| - 1], ip), history[|history| - 1];
      if c.ip == ip then before + [c.now] else before
  }

  function OnlyIp(history: seq<Call>, ip: IpAddr): seq<Call> {
    if history == [] then []
    else
      var before, c := OnlyIp(history[..|history| - 1], ip), history[|history| - 1];
      if c.ip == ip then before + [c] else before
  }

  lemma TimesOfSnoc(history: seq<Call>, c: Call, ip: IpAddr)
    ensures TimesOf(history + [c], ip) == if c.ip == ip then TimesOf(history, ip) + [c.now] else TimesOf(history, ip)
  {
    assert (history + [c])[..|history|] == history;
  }

  /** The reference's answer to the last call of an interleaved history: it looks at that IP's calls only. */
  ghost predicate AnswerToLast(capacity: real, history: seq<Call>)
    requires history != []
  {
    var ip := history[|history| - 1].ip;
    TimesOf(history, ip) != [] && WindowAllows(capacity, TimesOf(history, ip))
  }

  /** The answers one IP gets in an interleaved history. */
  ghost function AnswersTo(capacity: real, history: seq<Call>, ip: IpAddr): seq<bool> {
    if history == [] then []
    else
      var before := AnswersTo(capacity, history[..|history| - 1], ip);
      if history[|history| - 1].ip == ip then before + [AnswerToLast(capacity, history)] else before
  }

  lemma {:induction false} ReferenceNonInterference(capacity: real, history: seq<Call>, ip: IpAddr)
    ensures TimesOf(OnlyIp(history, ip), ip) == TimesOf(history, ip)
    ensures AnswersTo(capacity, history, ip) == AnswersTo(capacity, OnlyIp(history, ip), ip)
  {
    if history != [] {
      var before, c := history[..|history| - 1], history[|history| - 1];
      ReferenceNonInterference(capacity, before, ip);
      if c.ip == ip {
        var only := OnlyIp(before, ip);
        assert OnlyIp(history, ip)[..|only|] == only;
        TimesOfSnoc(only, c, ip);
        assert before + [c] == history;
        TimesOfSnoc(before, c, ip);
      }
    }
  }

  // ---- The limiter itself ----

  /** The tokens of a bucket at `now`, capped. */
  function Refilled(b: Bucket, capacity: real, refillPerSec: real, now: nat): real {
    Min(b.tokens + Elapsed(b.lastRefill, now) * refillPerSec, capacity)
  }

  /** The refill of one call, for a fresh bucket and for one that has seen `times`. */
  lemma RefillIsAvailable(capacity: real, times: seq<nat>, now: nat)
    ensures Refilled(if times == [] then Bucket(capacity, now) else BucketAfter(capacity, times),
                     capacity, RefillRate(capacity), now)
         == Available(capacity, times + [now])
  {
    assert Init(times + [now]) == times;
    if times == [] {
      assert Elapsed(now, now) * RefillRate(capacity) == 0.0;
    }
  }

  /** The map holds exactly the state of every IP's own calls. */
  ghost predicate Tracks(buckets: Buckets, capacity: real, history: seq<Call>) {
    && (forall ip :: ip in buckets <==> TimesOf(history, ip) != [])
    && (forall ip :: ip in buckets ==> buckets[ip] == BucketAfter(capacity, TimesOf(history, ip)))
  }

  lemma TracksStep(buckets: Buckets, capacity: real, history: seq<Call>, c: Call, b: Bucket)
    requires Tracks(buckets, capacity, history)
    requires b == BucketAfter(capacity, TimesOf(history, c.ip) + [c.now])
    ensures Tracks(buckets[c.ip := b], capacity, history + [c])
  {
    forall ip ensures TimesOf(history + [c], ip)
                   == if c.ip == ip then TimesOf(history, ip) + [c.now] else TimesOf(history, ip)
    {
      TimesOfSnoc(history, c, ip);
    }
  }

  // ---- The bucket map over a history ----

  /** One call: the answer and the new map. */
  function Served(buckets: Buckets, capacity: real, c: Call): (bool, Buckets) {
    var bucket := if c.ip in buckets then buckets[c.ip] else Bucket(capacity, c.now);
    var tokens := Refilled(bucket, capacity, RefillRate(capacity), c.now);
    (tokens >= 1.0, buckets[c.ip := Bucket(Spend(tokens), c.now)])
  }

  function BucketsAfter(buckets: Buckets, capacity: real, calls: seq<Call>): Buckets {
    if calls == [] then buckets
    else Served(BucketsAfter(buckets, capacity, calls[..|calls| - 1]), capacity, calls[|calls| - 1]).1
  }

  /** The answers the map gives to one IP's calls. */
  function AnswersGiven(buckets: Buckets, capacity: real, calls: seq<Call>, ip: IpAddr): seq<bool> {
    if calls == [] then []
    else
      var init, c := calls[..|calls| - 1], calls[|calls| - 1];
      var before := AnswersGiven(buckets, capacity, init, ip);
      if c.ip == ip then before + [Served(BucketsAfter(buckets, capacity, init), capacity, c).0] else before
  }

  /** `ip` has the same bucket in both maps, or none. */
  predicate SameBucket(x: Buckets, y: Buckets, ip: IpAddr) {
    (ip in x <==> ip in y) && (ip in x ==> x[ip] == y[ip])
  }

  /**
   From any two maps with the same bucket for `ip`, dropping every other IP's
   calls changes no answer given to `ip`, and leaves its bucket the same.
   */
  lemma {:induction false} NonInterference(x: Buckets, y: Buckets, capacity: real, calls: seq<Call>, ip: IpAddr)
    requires SameBucket(x, y, ip)
    ensures AnswersGiven(x, capacity, calls, ip) == AnswersGiven(y, capacity, OnlyIp(calls, ip), ip)
    ensures SameBucket(BucketsAfter(x, capacity, calls), BucketsAfter(y, capacity, OnlyIp(calls, ip)), ip)
  {
    if calls != [] {
      var init, c := calls[..|calls| - 1], calls[|calls| - 1];
      NonInterference(x, y, capacity, init, ip);
      if c.ip == ip {
        var only := OnlyIp(init, ip);
        assert (only + [c])[..|only|] == only;
      }
    }
  }

  class RateLimiter {
    const capacity: real
    const refillPerSec: real
    var buckets: Buckets
    /** Every call made so far, in lock order. */
    ghost var history: seq<Call>

    ghost predicate Valid()
      reads this
    {
      capacity >= 1.0 && refillPerSec == RefillRate(capacity) && Tracks(buckets, capacity, history)
    }

    constructor (capacityPerMinute: nat)
      ensures Valid() && history == []
      ensures capacity == (if capacityPerMinute >= 1 then capacityPerMinute as real else 1.0)
      ensures refillPerSec * 60.0 == capacity && buckets == map[]
    {
      var c := if capacityPerMinute >= 1 then capacityPerMinute as real else 1.0;
      capacity := c;
      refillPerSec := c / 60.0;
      buckets := map[];
      history := [];
    }

    /** Grants exactly what the sliding-window reference grants to this IP's own calls. */
    method Allow(ip: IpAddr, now: nat) returns (granted: bool)
      requires Valid()
      modifies this
      ensures Valid() && history == old(history) + [Call(ip, now)]
      ensures granted <==> AnswerToLast(capacity, history)
      ensures TimesOf(history, ip) != [] && (granted <==> Available(capacity, TimesOf(history, ip)) >= 1.0)
      ensures granted <==> forall start :: 0 <= start < |TimesOf(history, ip)| ==>
                             HasRoom(capacity, TimesOf(history, ip), start)
      ensures (granted, buckets) == Served(old(buckets), capacity, Call(ip, now))
      ensures buckets.Keys == old(buckets).Keys + {ip}
      ensures forall other :: other in old(buckets) && other != ip ==> buckets[other] == old(buckets)[other]
      ensures 0.0 <= buckets[ip].tokens <= capacity
    {
      ghost var times := TimesOf(history, ip);
      var bucket := if ip in buckets then buckets[ip] else Bucket(capacity, now);
      var tokens := Refilled(bucket, capacity, refillPerSec, now);
      RefillIsAvailable(capacity, times, now);
      granted := tokens >= 1.0;
      if granted {
        tokens := tokens - 1.0;
      }
      BucketWithinCapacity(capacity, times + [now]);
      TokensAreLeastSlack(capacity, times + [now]);
      GrantedIffEveryWindowHasRoom(capacity, times + [now]);
      TracksStep(buckets, capacity, history, Call(ip, now), Bucket(tokens, now));
      TimesOfSnoc(history, Call(ip, now), ip);
      buckets := buckets[ip := Bucket(tokens, now)];
      history := history + [Call(ip, now)];
    }
  }
}
