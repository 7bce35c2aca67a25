/**
 The per-API-key token bucket. Times and token counts are real numbers (seconds and tokens);
 the clock is the caller's argument and, unless a lemma says so, may even run backwards.
 */
module TokenBucket {
  import opened Wrappers

  datatype Bucket = Bucket(tokens: real, lastFill: real)

  type Buckets = map<string, Bucket>

  datatype Call = Call(key: string, now: real)

  function Lookup(bs: Buckets, key: string): Option<Bucket> {
    if key in bs then Some(bs[key]) else None
  }

  /** The tokens that flow in over a length of time. */
  function Flow(d: real, rate: real): real {
    d * rate
  }

  lemma FlowSum(a: real, b: real, rate: real)
    ensures Flow(a + b, rate) == Flow(a, rate) + Flow(b, rate)
  {
  }

  lemma FlowSign(d: real, rate: real)
    requires rate >= 0.0
    ensures Flow(0.0, rate) == 0.0
    ensures d >= 0.0 ==> Flow(d, rate) >= 0.0
  {
  }

  /** A bucket after the time-based refill of a call at `now`. */
  function Refill(b: Bucket, now: real, max: real, rate: real): Bucket {
    if now - b.lastFill > 0.0 then
      var t := b.tokens + Flow(now - b.lastFill, rate);
      Bucket(if t > max then max else t, now)
    else b
  }

  /** The bucket one call leaves behind, and whether the call is let through. */
  function Take(ob: Option<Bucket>, now: real, max: real, rate: real): (Bucket, bool) {
    match ob
    case None => (Bucket(max - 1.0, now), true)
    case Some(b) =>
      var f := Refill(b, now, max, rate);
      if f.tokens < 1.0 then (f, false) else (f.(tokens := f.tokens - 1.0), true)
  }

  function Step(bs: Buckets, c: Call, max: real, rate: real): Buckets {
    bs[c.key := Take(Lookup(bs, c.key), c.now, max, rate).0]
  }

  predicate Allowed(bs: Buckets, c: Call, max: real, rate: real) {
    Take(Lookup(bs, c.key), c.now, max, rate).1
  }

  function Run(bs: Buckets, calls: seq<Call>, max: real, rate: real): Buckets
    decreases |calls|
  {
    if calls == [] then bs else Run(Step(bs, calls[0], max, rate), calls[1..], max, rate)
  }

  /** How many calls for `key` the run lets through at a time in [lo, hi]. */
  function AllowedWithin(bs: Buckets, calls: seq<Call>, key: string, lo: real, hi: real, max: real, rate: real): nat
    decreases |calls|
  {
    if calls == [] then 0 else
      var c := calls[0];
      (if c.key == key && lo <= c.now <= hi && Allowed(bs, c, max, rate) then 1 else 0)
      + AllowedWithin(Step(bs, c, max, rate), calls[1..], key, lo, hi, max, rate)
  }

  predicate WellFilled(bs: Buckets, max: real) {
    forall k :: k in bs ==> 0.0 <= bs[k].tokens <= max
  }

  /** With a bucket of at least one token, every reachable state keeps every count in [0, max], on any clock. */
  lemma {:induction false} TokensStayInRange(bs: Buckets, calls: seq<Call>, max: real, rate: real)
    requires max >= 1.0 && rate >= 0.0 && WellFilled(bs, max)
    ensures WellFilled(Run(bs, calls, max, rate), max)
    decreases |calls|
  {
    if calls != [] {
      TakeKeepsRange(Lookup(bs, calls[0].key), calls[0].now, max, rate);
      TokensStayInRange(Step(bs, calls[0], max, rate), calls[1..], max, rate);
    }
  }

  lemma TakeKeepsRange(ob: Option<Bucket>, now: real, max: real, rate: real)
    requires max >= 1.0 && rate >= 0.0
    requires ob.Some? ==> 0.0 <= ob.value.tokens <= max
    ensures 0.0 <= Take(ob, now, max, rate).0.tokens <= max
  {
    hide Flow;
    if ob.Some? { FlowSign(now - ob.value.lastFill, rate); }
  }

  /** An upper bound on what a bucket can still let through at times in [lo, hi]. */
  function Potential(ob: Option<Bucket>, lo: real, hi: real, max: real, rate: real): real {
    if ob == None || ob.value.lastFill < lo then max + Flow(hi - lo, rate)
    else if ob.value.lastFill > hi then ob.value.tokens
    else ob.value.tokens + Flow(hi - ob.value.lastFill, rate)
  }

  /** No call up to time hi raises the potential, and one let through inside [lo, hi] costs one token. */
  lemma CallSpendsPotential(ob: Option<Bucket>, now: real, lo: real, hi: real, max: real, rate: real)
    requires max >= 1.0 && rate >= 0.0 && lo <= hi && now <= hi
    requires ob.Some? ==> 0.0 <= ob.value.tokens <= max
    ensures Potential(Some(Take(ob, now, max, rate).0), lo, hi, max, rate)
            + (if lo <= now && Take(ob, now, max, rate).1 then 1.0 else 0.0)
            <= Potential(ob, lo, hi, max, rate)
  {
    hide Flow;
    FlowSplit(lo, now, hi, rate);
    FlowSign(now - lo, rate);
    FlowSign(hi - now, rate);
    if ob.Some? {
      var last := ob.value.lastFill;
      FlowSplit(last, now, hi, rate);
      FlowSign(now - last, rate);
    }
  }

  lemma FlowSplit(a: real, b: real, c: real, rate: real)
    ensures Flow(c - a, rate) == Flow(b - a, rate) + Flow(c - b, rate)
  {
    hide Flow;
    FlowSum(b - a, c - b, rate);
    assert (b - a) + (c - b) == c - a;
  }

  lemma PotentialNonNegative(ob: Option<Bucket>, lo: real, hi: real, max: real, rate: real)
    requires max >= 1.0 && rate >= 0.0 && lo <= hi
    requires ob.Some? ==> 0.0 <= ob.value.tokens
    ensures Potential(ob, lo, hi, max, rate) >= 0.0
  {
    hide Flow;
    FlowSign(hi - lo, rate);
    if ob.Some? { FlowSign(hi - ob.value.lastFill, rate); }
  }

  ghost predicate Nondecreasing(calls: seq<Call>) {
    forall i, j :: 0 <= i < j < |calls| ==> calls[i].now <= calls[j].now
  }

  ghost predicate NeverPast(calls: seq<Call>, hi: real) {
    forall i :: 0 <= i < |calls| ==> calls[i].now <= hi
  }

  /** The rate limit, in any state with sane buckets: any clock that stays at or before hi, or a nondecreasing one. */
  lemma {:induction false} WithinPotential(
      bs: Buckets, calls: seq<Call>, key: string, lo: real, hi: real, max: real, rate: real)
    requires max >= 1.0 && rate >= 0.0 && lo <= hi && WellFilled(bs, max)
    requires Nondecreasing(calls) || NeverPast(calls, hi)
    ensures AllowedWithin(bs, calls, key, lo, hi, max, rate) as real <= Potential(Lookup(bs, key), lo, hi, max, rate)
    decreases |calls|
  {
    if calls == [] {
      PotentialNonNegative(Lookup(bs, key), lo, hi, max, rate);
    } else {
      var c := calls[0];
      TokensStayInRange(bs, [c], max, rate);
      assert Run(bs, [c], max, rate) == Step(bs, c, max, rate);
      if c.now > hi {
        AllLater(bs, calls, key, lo, hi, max, rate);
        PotentialNonNegative(Lookup(bs, key), lo, hi, max, rate);
      } else {
        WithinPotential(Step(bs, c, max, rate), calls[1..], key, lo, hi, max, rate);
        CallSpendsPotential(Lookup(bs, c.key), c.now, lo, hi, max, rate);
      }
    }
  }

  lemma {:induction false} AllLater(
      bs: Buckets, calls: seq<Call>, key: string, lo: real, hi: real, max: real, rate: real)
    requires Nondecreasing(calls) && (calls != [] ==> calls[0].now > hi)
    ensures AllowedWithin(bs, calls, key, lo, hi, max, rate) == 0
    decreases |calls|
  {
    if calls != [] {
      AllLater(Step(bs, calls[0], max, rate), calls[1..], key, lo, hi, max, rate);
    }
  }

  /** What a limiter is for: in every closed interval a key gets at most max + rate * length calls through. */
  ghost predicate LimitHolds(max: real, rate: real) {
    forall calls: seq<Call>, key: string, lo: real, hi: real ::
      Nondecreasing(calls) && lo <= hi ==>
        AllowedWithin(map[], calls, key, lo, hi, max, rate) as real <= max + Flow(hi - lo, rate)
  }

  /**
   The bound holds of every run from an empty limiter exactly when a bucket holds at least one
   whole token: the first call of a key is let through without looking at the bucket size.
   */
  lemma LimitHoldsIff(max: real, rate: real)
    requires rate >= 0.0
    ensures LimitHolds(max, rate) <==> max >= 1.0
  {
    if max >= 1.0 {
      forall calls: seq<Call>, key: string, lo: real, hi: real | Nondecreasing(calls) && lo <= hi
        ensures AllowedWithin(map[], calls, key, lo, hi, max, rate) as real <= max + Flow(hi - lo, rate)
      {
        WithinPotential(map[], calls, key, lo, hi, max, rate);
      }
    } else {
      var calls := [Call("", 0.0)];
      assert Nondecreasing(calls);
      assert AllowedWithin(map[], calls, "", 0.0, 0.0, max, rate)
             == 1 + AllowedWithin(Step(map[], calls[0], max, rate), [], "", 0.0, 0.0, max, rate);
    }
  }

  /**
   On a clock that may run backwards the bound still holds for every stretch of consecutive
   calls, measured by the latest and earliest times in it.
   */
  lemma StretchBound(before: seq<Call>, stretch: seq<Call>, key: string, lo: real, hi: real, max: real, rate: real)
    requires max >= 1.0 && rate >= 0.0 && lo <= hi
    requires forall i :: 0 <= i < |stretch| ==> lo <= stretch[i].now <= hi
    ensures AllowedWithin(Run(map[], before, max, rate), stretch, key, lo, hi, max, rate) as real
            <= max + Flow(hi - lo, rate)
  {
    var bs := Run(map[], before, max, rate);
    TokensStayInRange(map[], before, max, rate);
    WithinPotential(bs, stretch, key, lo, hi, max, rate);
    PotentialBelowFull(Lookup(bs, key), lo, hi, max, rate);
  }

  lemma PotentialBelowFull(ob: Option<Bucket>, lo: real, hi: real, max: real, rate: real)
    requires max >= 1.0 && rate >= 0.0 && lo <= hi
    requires ob.Some? ==> 0.0 <= ob.value.tokens <= max
    ensures Potential(ob, lo, hi, max, rate) <= max + Flow(hi - lo, rate)
  {
    hide Flow;
    FlowSign(hi - lo, rate);
    if ob.Some? {
      FlowSplit(lo, ob.value.lastFill, hi, rate);
      FlowSign(ob.value.lastFill - lo, rate);
    }
  }

  // ---- the bound is attained ----

  /** m calls at time zero. */
  function Burst(key: string, m: nat): seq<Call> {
    if m == 0 then [] else [Call(key, 0.0)] + Burst(key, m - 1)
  }

  /** The time of the i-th drop when tokens flow in d apart. */
  function At(i: nat, d: real): real {
    i as real * d
  }

  lemma AtStep(i: nat, d: real)
    requires d > 0.0
    ensures At(i + 1, d) - At(i, d) == d && At(0, d) == 0.0
  {
    assert (i + 1) as real * d == i as real * d + d;
  }

  lemma {:induction false} AtMonotone(i: nat, j: nat, d: real)
    requires d > 0.0 && i <= j
    ensures At(i, d) <= At(j, d)
  {
    hide At;
    if i < j {
      AtMonotone(i, j - 1, d);
      AtStep(j - 1, d);
    }
  }

  /** One call at each of the times of drops i + 1 to j. */
  function Drip(key: string, d: real, i: nat, j: nat): seq<Call>
    requires i <= j
    decreases j - i
  {
    if i == j then [] else [Call(key, At(i + 1, d))] + Drip(key, d, i + 1, j)
  }

  lemma {:induction false} DripTimes(key: string, d: real, i: nat, j: nat)
    requires i <= j
    ensures var calls := Drip(key, d, i, j);
            && |calls| == j - i
            && forall k :: 0 <= k < |calls| ==> calls[k].now == At(i + k + 1, d)
    decreases j - i
  {
    hide At;
    if i < j { DripTimes(key, d, i + 1, j); }
  }

  lemma {:induction false} BurstTimes(key: string, m: nat)
    ensures |Burst(key, m)| == m && forall k :: 0 <= k < m ==> Burst(key, m)[k].now == 0.0
  {
    if m > 0 { BurstTimes(key, m - 1); }
  }

  lemma DrippedTake(last: real, now: real, max: real, rate: real)
    requires max >= 1.0 && now > last && Flow(now - last, rate) == 1.0
    ensures Take(Some(Bucket(0.0, last)), now, max, rate) == (Bucket(0.0, now), true)
  {
    hide Flow;
  }

  /** A drained bucket lets one call through each time one token has flowed in. */
  lemma {:induction false} DripAllowed(
      bs: Buckets, key: string, d: real, i: nat, j: nat, max: real, rate: real)
    requires max >= 1.0 && d > 0.0 && Flow(d, rate) == 1.0 && i <= j
    requires Lookup(bs, key) == Some(Bucket(0.0, At(i, d)))
    ensures AllowedWithin(bs, Drip(key, d, i, j), key, 0.0, At(j, d), max, rate) == j - i
    decreases j - i
  {
    hide At, Take, Flow;
    if i < j {
      var now := At(i + 1, d);
      AtStep(i, d);
      AtMonotone(i + 1, j, d);
      AtMonotone(0, i + 1, d);
      var c := Call(key, now);
      DrippedTake(At(i, d), now, max, rate);
      DripAllowed(Step(bs, c, max, rate), key, d, i + 1, j, max, rate);
      var calls := Drip(key, d, i, j);
      assert calls[0] == c && calls[1..] == Drip(key, d, i + 1, j);
    }
  }

  /** A bucket holding m whole tokens lets a burst of m calls through and is then drained. */
  lemma {:induction false} BurstAllowed(
      bs: Buckets, rest: seq<Call>, key: string, m: nat, hi: real, max: real, rate: real)
    requires max >= m as real && hi >= 0.0 && Lookup(bs, key) == Some(Bucket(m as real, 0.0))
    ensures var after := bs[key := Bucket(0.0, 0.0)];
            AllowedWithin(bs, Burst(key, m) + rest, key, 0.0, hi, max, rate)
            == m + AllowedWithin(after, rest, key, 0.0, hi, max, rate)
    decreases m
  {
    hide Take, Step, Allowed, Lookup, AllowedWithin;
    if m == 0 {
      assert Burst(key, 0) + rest == rest;
      LookupSame(bs, key, Bucket(0.0, 0.0));
    } else {
      var c := Call(key, 0.0);
      var next := bs[key := Bucket((m - 1) as real, 0.0)];
      BurstStep(bs, key, m, max, rate);
      LookupUpdated(bs, key, Bucket((m - 1) as real, 0.0));
      BurstAllowed(next, rest, key, m - 1, hi, max, rate);
      assert next[key := Bucket(0.0, 0.0)] == bs[key := Bucket(0.0, 0.0)];
      assert Burst(key, m) + rest == [c] + (Burst(key, m - 1) + rest);
      AllowedFirst(bs, c, Burst(key, m - 1) + rest, key, 0.0, hi, max, rate);
    }
  }

  lemma AllowedFirst(
      bs: Buckets, c: Call, rest: seq<Call>, key: string, lo: real, hi: real, max: real, rate: real)
    ensures AllowedWithin(bs, [c] + rest, key, lo, hi, max, rate)
            == (if c.key == key && lo <= c.now <= hi && Allowed(bs, c, max, rate) then 1 else 0)
               + AllowedWithin(Step(bs, c, max, rate), rest, key, lo, hi, max, rate)
  {
    hide Step, Allowed;
    assert ([c] + rest)[1..] == rest;
  }

  lemma LookupSame(bs: Buckets, key: string, b: Bucket)
    requires Lookup(bs, key) == Some(b)
    ensures bs[key := b] == bs
  {
  }

  lemma LookupUpdated(bs: Buckets, key: string, b: Bucket)
    ensures Lookup(bs[key := b], key) == Some(b)
  {
  }

  lemma BurstStep(bs: Buckets, key: string, m: nat, max: real, rate: real)
    requires m >= 1 && Lookup(bs, key) == Some(Bucket(m as real, 0.0))
    ensures Allowed(bs, Call(key, 0.0), max, rate)
    ensures Step(bs, Call(key, 0.0), max, rate) == bs[key := Bucket((m - 1) as real, 0.0)]
  {
    hide Flow;
  }

  lemma FirstCall(rest: seq<Call>, key: string, hi: real, max: real, rate: real)
    requires hi >= 0.0
    ensures AllowedWithin(map[], [Call(key, 0.0)] + rest, key, 0.0, hi, max, rate)
         == 1 + AllowedWithin(map[key := Bucket(max - 1.0, 0.0)], rest, key, 0.0, hi, max, rate)
  {
    var calls := [Call(key, 0.0)] + rest;
    assert calls[1..] == rest;
    assert Step(map[], calls[0], max, rate) == map[key := Bucket(max - 1.0, 0.0)];
  }

  /** A burst of m calls at time zero, then one call for each of j drops. */
  function BurstThenDrip(key: string, d: real, m: nat, j: nat): seq<Call>
    requires m >= 1
  {
    [Call(key, 0.0)] + (Burst(key, m - 1) + Drip(key, d, 0, j))
  }

  lemma BurstThenDripOrdered(key: string, d: real, m: nat, j: nat)
    requires m >= 1 && d > 0.0
    ensures Nondecreasing(BurstThenDrip(key, d, m, j))
  {
    hide At, Burst, Drip;
    var calls := BurstThenDrip(key, d, m, j);
    BurstTimes(key, m - 1);
    DripTimes(key, d, 0, j);
    AtStep(0, d);
    forall a, b | 0 <= a < b < |calls| ensures calls[a].now <= calls[b].now {
      if m <= a {
        AtMonotone(a - m + 1, b - m + 1, d);
      } else if m <= b {
        AtMonotone(0, b - m + 1, d);
      }
    }
  }

  lemma {:induction false} Inflow(j: nat, d: real, rate: real)
    requires d > 0.0 && Flow(d, rate) == 1.0
    ensures Flow(At(j, d), rate) == j as real
  {
    hide Flow, At;
    FlowSum(0.0, 0.0, rate);
    if j > 0 {
      Inflow(j - 1, d, rate);
      FlowSum(At(j - 1, d), d, rate);
      AtStep(j - 1, d);
    } else {
      AtStep(0, d);
    }
  }

  /**
   The bound cannot be lowered: for every whole bucket size of at least one, every positive rate and
   every j, there is a run with a nondecreasing clock in which a key gets through exactly the bucket
   size plus rate times length in a closed interval, of the length in which j tokens flow in.
   */
  lemma BoundAttained(key: string, m: nat, j: nat, d: real, rate: real) returns (calls: seq<Call>)
    requires m >= 1 && d > 0.0 && Flow(d, rate) == 1.0
    ensures Nondecreasing(calls)
    ensures AllowedWithin(map[], calls, key, 0.0, At(j, d), m as real, rate) == m + j
    ensures m as real + Flow(At(j, d) - 0.0, rate) == (m + j) as real
  {
    hide At, Burst, Drip, Flow;
    calls := BurstThenDrip(key, d, m, j);
    var drip := Drip(key, d, 0, j);
    var hi := At(j, d);
    AtStep(0, d);
    AtMonotone(0, j, d);
    FirstCall(Burst(key, m - 1) + drip, key, hi, m as real, rate);
    var bs := map[key := Bucket(m as real - 1.0, 0.0)];
    BurstAllowed(bs, drip, key, m - 1, hi, m as real, rate);
    DripAllowed(bs[key := Bucket(0.0, 0.0)], key, d, 0, j, m as real, rate);
    BurstThenDripOrdered(key, d, m, j);
    Inflow(j, d, rate);
  }

  /** No run with a nondecreasing clock lets more than n calls of a key through in a closed interval of that length. */
  ghost predicate NeverMoreThan(n: nat, length: real, max: real, rate: real) {
    forall calls: seq<Call>, key: string, lo: real, hi: real ::
      Nondecreasing(calls) && hi - lo == length ==> AllowedWithin(map[], calls, key, lo, hi, max, rate) <= n
  }

  /** For a whole bucket size and a length in which j tokens flow in, size plus j is exactly the limit. */
  lemma LimitIs(m: nat, j: nat, d: real, rate: real, n: nat)
    requires m >= 1 && rate >= 0.0 && d > 0.0 && Flow(d, rate) == 1.0
    ensures NeverMoreThan(n, At(j, d), m as real, rate) <==> n >= m + j
  {
    hide At, Flow, AllowedWithin;
    var length, max := At(j, d), m as real;
    Inflow(j, d, rate);
    AtMonotone(0, j, d);
    AtStep(0, d);
    if n >= m + j {
      forall calls: seq<Call>, key: string, lo: real, hi: real | Nondecreasing(calls) && hi - lo == length
        ensures AllowedWithin(map[], calls, key, lo, hi, max, rate) <= n
      {
        WithinPotential(map[], calls, key, lo, hi, max, rate);
      }
    } else {
      var calls := BoundAttained("", m, j, d, rate);
      assert AllowedWithin(map[], calls, "", 0.0, length, max, rate) == m + j;
    }
  }

  /** The configured limiter, described as 120 requests a minute: in a closed minute the limit is exactly 240. */
  lemma MinuteLimitIs240(n: nat)
    ensures NeverMoreThan(n, 60.0, 120.0, 2.0) <==> n >= 240
  {
    hide NeverMoreThan;
    HalfSecond();
    LimitIs(120, 120, 0.5, 2.0, n);
  }

  lemma HalfSecond()
    ensures Flow(0.5, 2.0) == 1.0 && At(120, 0.5) == 60.0
  {
  }

  /** Every state reachable from an empty limiter keeps every token count in [0, max]. */
  ghost predicate RangeHolds(max: real, rate: real) {
    forall calls: seq<Call> :: WellFilled(Run(map[], calls, max, rate), max)
  }

  /** Below one token a key's first call leaves a negative count; from one token on the range always holds. */
  lemma RangeHoldsIff(max: real, rate: real)
    requires rate >= 0.0
    ensures RangeHolds(max, rate) <==> max >= 1.0
  {
    if max >= 1.0 {
      forall calls: seq<Call> ensures WellFilled(Run(map[], calls, max, rate), max) {
        TokensStayInRange(map[], calls, max, rate);
      }
    } else {
      var calls := [Call("", 0.0)];
      assert Run(map[], calls, max, rate) == Run(Step(map[], calls[0], max, rate), [], max, rate);
      assert Run(map[], calls, max, rate)[""].tokens < 0.0;
    }
  }

  /** The limiter object; the mutex makes each call to Allow one step. */
  class PerKeyLimiter {
    var buckets: Buckets
    const maxTokens: real
    const refillRate: real

    constructor (maxTokens: real, refillPerSec: real)
      ensures buckets == map[] && this.maxTokens == maxTokens && refillRate == refillPerSec
    {
      buckets := map[];
      this.maxTokens := maxTokens;
      this.refillRate := refillPerSec;
    }

    method Allow(key: string, now: real) returns (ok: bool)
      modifies this
      ensures ok == Allowed(old(buckets), Call(key, now), maxTokens, refillRate)
      ensures buckets == Step(old(buckets), Call(key, now), maxTokens, refillRate)
    {
      if key !in buckets {
        buckets := buckets[key := Bucket(maxTokens - 1.0, now)];
        return true;
      }
      var b := buckets[key];
      var elapsed := now - b.lastFill;
      if elapsed > 0.0 {
        b := b.(tokens := b.tokens + Flow(elapsed, refillRate));
        if b.tokens > maxTokens {
          b := b.(tokens := maxTokens);
        }
        b := b.(lastFill := now);
      }
      assert b == Refill(old(buckets)[key], now, maxTokens, refillRate);
      if b.tokens < 1.0 {
        buckets := buckets[key := b];
        return false;
      }
      buckets := buckets[key := b.(tokens := b.tokens - 1.0)];
      return true;
    }
  }
}
