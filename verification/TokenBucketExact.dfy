/**
 Exactly which calls the token bucket lets through on a nondecreasing clock: all it may. A call is
 refused only when the bound over some stretch ending with it leaves it no choice, and so no other
 limiter that keeps the bound ever lets more calls through.
 */
module TokenBucketExact {
  import opened Wrappers
  import opened TokenBucket

  /** The buckets before call k of a run from the empty limiter. */
  function Before(calls: seq<Call>, k: nat, max: real, rate: real): Buckets
    requires k <= |calls|
  {
    Run(map[], calls[..k], max, rate)
  }

  /** The limiter's answer to call k. */
  predicate Passes(calls: seq<Call>, k: nat, max: real, rate: real)
    requires k < |calls|
  {
    Allowed(Before(calls, k, max, rate), calls[k], max, rate)
  }

  /** How many of the calls j to k - 1 are for the key and let through. */
  function Passed(calls: seq<Call>, j: nat, k: nat, key: string, max: real, rate: real): nat
    requires j <= k <= |calls|
    decreases k - j
  {
    if j == k then 0
    else
      Passed(calls, j, k - 1, key, max, rate)
      + (if calls[k - 1].key == key && Passes(calls, k - 1, max, rate) then 1 else 0)
  }

  lemma {:induction false} RunSnoc(bs: Buckets, calls: seq<Call>, c: Call, max: real, rate: real)
    ensures Run(bs, calls + [c], max, rate) == Step(Run(bs, calls, max, rate), c, max, rate)
    decreases |calls|
  {
    hide Step;
    if calls == [] {
      assert Run(Step(bs, c, max, rate), [], max, rate) == Step(bs, c, max, rate);
      assert ([] + [c])[1..] == [];
    } else {
      assert (calls + [c])[1..] == calls[1..] + [c];
      RunSnoc(Step(bs, calls[0], max, rate), calls[1..], c, max, rate);
    }
  }

  lemma BeforeNext(calls: seq<Call>, k: nat, max: real, rate: real)
    requires k < |calls|
    ensures Before(calls, k + 1, max, rate) == Step(Before(calls, k, max, rate), calls[k], max, rate)
  {
    hide Run, Step;
    assert calls[..k + 1] == calls[..k] + [calls[k]];
    RunSnoc(map[], calls[..k], calls[k], max, rate);
  }

  /** What the bound over the calls from j on would leave for a call of the key at time t, before call k. */
  function Room(calls: seq<Call>, j: nat, k: nat, t: real, key: string, max: real, rate: real): real
    requires j <= k <= |calls| && j < |calls|
  {
    max + Flow(t - calls[j].now, rate) - Passed(calls, j, k, key, max, rate) as real
  }

  ghost predicate EarlierCall(calls: seq<Call>, j: nat, k: nat, key: string)
    requires k <= |calls|
  {
    j < k && calls[j].key == key
  }

  /** The key's bucket holds the least room that any stretch beginning with one of its calls leaves. */
  ghost predicate Holds(calls: seq<Call>, k: nat, b: Bucket, key: string, max: real, rate: real)
    requires k <= |calls|
  {
    && (forall i :: 0 <= i < k ==> calls[i].key == key ==> calls[i].now <= b.lastFill)
    && (exists i :: 0 <= i < k && calls[i].key == key && b.lastFill == calls[i].now)
    && (forall j :: EarlierCall(calls, j, k, key) ==> b.tokens <= Room(calls, j, k, b.lastFill, key, max, rate))
    && (exists j :: EarlierCall(calls, j, k, key) && b.tokens == Room(calls, j, k, b.lastFill, key, max, rate))
  }

  lemma RoomLater(calls: seq<Call>, j: nat, k: nat, t: real, t': real, key: string, max: real, rate: real)
    requires j <= k <= |calls| && j < |calls|
    ensures Room(calls, j, k, t', key, max, rate) == Room(calls, j, k, t, key, max, rate) + Flow(t' - t, rate)
  {
    hide Flow, Passed;
    FlowSplit(calls[j].now, t, t', rate);
  }

  lemma RoomNext(calls: seq<Call>, j: nat, k: nat, t: real, key: string, max: real, rate: real)
    requires j <= k < |calls|
    ensures Room(calls, j, k + 1, t, key, max, rate)
            == Room(calls, j, k, t, key, max, rate)
               - (if calls[k].key == key && Passes(calls, k, max, rate) then 1.0 else 0.0)
  {
    hide Flow, Passes;
  }

  lemma RoomNow(calls: seq<Call>, k: nat, key: string, max: real, rate: real)
    requires k < |calls|
    ensures Room(calls, k, k, calls[k].now, key, max, rate) == max
  {
  }

  /** The refilled bucket of an existing key, at a time not before its last refill. */
  lemma RefillIs(b: Bucket, now: real, max: real, rate: real)
    requires b.tokens <= max && b.lastFill <= now
    ensures var t := b.tokens + Flow(now - b.lastFill, rate);
            Refill(b, now, max, rate) == Bucket(if t > max then max else t, now)
  {
  }

  lemma TakeIs(b: Bucket, now: real, max: real, rate: real)
    requires b.tokens <= max && b.lastFill <= now
    ensures var t := b.tokens + Flow(now - b.lastFill, rate);
            var level := if t > max then max else t;
            Take(Some(b), now, max, rate) == (Bucket(if level >= 1.0 then level - 1.0 else level, now), level >= 1.0)
  {
    RefillIs(b, now, max, rate);
    hide Refill, Flow;
  }

  /**
   One call on an existing bucket, with nothing left unsaid: it is let through exactly when the smaller of
   the bucket size and what the bucket held plus what flowed in is at least one token, and leaves exactly
   that, less the token it costs.
   */
  lemma TakeIff(b: Bucket, now: real, max: real, rate: real)
    requires b.tokens <= max && b.lastFill <= now
    ensures var t := b.tokens + (now - b.lastFill) * rate;
            var level := if t > max then max else t;
            var (left, ok) := Take(Some(b), now, max, rate);
            && (ok <==> level >= 1.0)
            && left == Bucket(if ok then level - 1.0 else level, now)
  {
    hide Take;
    TakeIs(b, now, max, rate);
  }

  lemma HoldsFirst(calls: seq<Call>, k: nat, key: string, max: real, rate: real)
    requires k < |calls| && calls[k].key == key && key !in Before(calls, k, max, rate)
    requires forall i :: 0 <= i < k ==> calls[i].key != key
    ensures Holds(calls, k + 1, Bucket(max - 1.0, calls[k].now), key, max, rate)
  {
    hide Before, Room;
    assert Passes(calls, k, max, rate);
    RoomNow(calls, k, key, max, rate);
    RoomNext(calls, k, k, calls[k].now, key, max, rate);
    assert EarlierCall(calls, k, k + 1, key);
  }

  lemma HoldsNext(calls: seq<Call>, k: nat, b: Bucket, key: string, max: real, rate: real)
    requires k < |calls| && calls[k].key == key && Holds(calls, k, b, key, max, rate)
    requires Before(calls, k, max, rate)[key := b] == Before(calls, k, max, rate)
    requires b.tokens <= max && b.lastFill <= calls[k].now
    ensures Holds(calls, k + 1, Take(Some(b), calls[k].now, max, rate).0, key, max, rate)
  {
    hide Before, Room, Flow, Refill;
    var now := calls[k].now;
    var bs := Before(calls, k, max, rate);
    assert bs[key := b][key] == b && key in bs;
    assert Lookup(bs, key) == Some(b);
    var ok := Passes(calls, k, max, rate);
    RefillIs(b, now, max, rate);
    var left := Take(Some(b), now, max, rate).0;
    var n := k + 1;
    forall j | EarlierCall(calls, j, n, key) ensures left.tokens <= Room(calls, j, n, now, key, max, rate) {
      RoomNext(calls, j, k, now, key, max, rate);
      if j == k {
        RoomNow(calls, k, key, max, rate);
      } else {
        assert EarlierCall(calls, j, k, key);
        RoomLater(calls, j, k, b.lastFill, now, key, max, rate);
      }
    }
    var j :| EarlierCall(calls, j, k, key) && b.tokens == Room(calls, j, k, b.lastFill, key, max, rate);
    RoomLater(calls, j, k, b.lastFill, now, key, max, rate);
    RoomNext(calls, j, k, now, key, max, rate);
    RoomNow(calls, k, key, max, rate);
    RoomNext(calls, k, k, now, key, max, rate);
    assert EarlierCall(calls, j, k + 1, key) && EarlierCall(calls, k, k + 1, key);
  }

  lemma HoldsOther(calls: seq<Call>, k: nat, b: Bucket, key: string, max: real, rate: real)
    requires k < |calls| && calls[k].key != key && Holds(calls, k, b, key, max, rate)
    ensures Holds(calls, k + 1, b, key, max, rate)
  {
    hide Room;
    var n := k + 1;
    forall j | EarlierCall(calls, j, n, key) ensures b.tokens <= Room(calls, j, n, b.lastFill, key, max, rate) {
      RoomNext(calls, j, k, b.lastFill, key, max, rate);
      assert EarlierCall(calls, j, k, key);
    }
    var j :| EarlierCall(calls, j, k, key) && b.tokens == Room(calls, j, k, b.lastFill, key, max, rate);
    RoomNext(calls, j, k, b.lastFill, key, max, rate);
    assert EarlierCall(calls, j, k + 1, key);
  }

  lemma StepAt(bs: Buckets, c: Call, key: string, max: real, rate: real)
    ensures Lookup(Step(bs, c, max, rate), key)
            == if c.key == key then Some(Take(Lookup(bs, key), c.now, max, rate).0) else Lookup(bs, key)
  {
    hide Take;
  }

  /** A key has a bucket exactly when it has made a call, and then the bucket holds the least room. */
  lemma {:induction false} LeastRoom(calls: seq<Call>, k: nat, key: string, max: real, rate: real)
    requires k <= |calls| && Nondecreasing(calls) && max >= 1.0 && rate >= 0.0
    ensures var ob := Lookup(Before(calls, k, max, rate), key);
            && (ob.None? <==> forall i :: 0 <= i < k ==> calls[i].key != key)
            && (ob.Some? ==> Holds(calls, k, ob.value, key, max, rate) && ob.value.tokens <= max)
    decreases k
  {
    hide Holds, Take, Step, Run, Lookup;
    if k == 0 {
      NoneYet(calls, key, max, rate);
    } else {
      var n := k - 1;
      LeastRoom(calls, n, key, max, rate);
      BeforeNext(calls, n, max, rate);
      var bs := Before(calls, n, max, rate);
      StepAt(bs, calls[n], key, max, rate);
      InRange(calls, k, key, max, rate);
      var ob := Lookup(bs, key);
      LookupIs(bs, key);
      if calls[n].key != key {
        if ob.Some? { HoldsOther(calls, n, ob.value, key, max, rate); }
      } else if ob.None? {
        FirstTake(calls[n].now, max, rate);
        HoldsFirst(calls, n, key, max, rate);
      } else {
        LastFillPast(calls, n, ob.value, key, max, rate);
        HoldsNext(calls, n, ob.value, key, max, rate);
      }
    }
  }

  lemma NoneYet(calls: seq<Call>, key: string, max: real, rate: real)
    ensures Lookup(Before(calls, 0, max, rate), key) == None
  {
  }

  lemma FirstTake(now: real, max: real, rate: real)
    ensures Take(None, now, max, rate) == (Bucket(max - 1.0, now), true)
  {
  }

  lemma LookupIs(bs: Buckets, key: string)
    ensures Lookup(bs, key).None? <==> key !in bs
    ensures Lookup(bs, key).Some? ==> bs[key := Lookup(bs, key).value] == bs
  {
  }

  lemma LastFillPast(calls: seq<Call>, k: nat, b: Bucket, key: string, max: real, rate: real)
    requires k < |calls| && Nondecreasing(calls) && Holds(calls, k, b, key, max, rate)
    ensures b.lastFill <= calls[k].now
  {
    hide Room;
  }

  lemma InRange(calls: seq<Call>, k: nat, key: string, max: real, rate: real)
    requires k <= |calls| && max >= 1.0 && rate >= 0.0
    ensures var ob := Lookup(Before(calls, k, max, rate), key); ob.Some? ==> ob.value.tokens <= max
  {
    TokensStayInRange(map[], calls[..k], max, rate);
    hide Run;
  }

  lemma RefusedByRoom(calls: seq<Call>, k: nat, max: real, rate: real)
    requires k < |calls| && Nondecreasing(calls) && max >= 1.0 && rate >= 0.0
    ensures !Passes(calls, k, max, rate) <==>
              exists j :: 0 <= j < k && calls[j].key == calls[k].key
                          && Room(calls, j, k, calls[k].now, calls[k].key, max, rate) < 1.0
  {
    hide Run, Take, Refill, Room, Flow;
    var key, now := calls[k].key, calls[k].now;
    LeastRoom(calls, k, key, max, rate);
    var ob := Lookup(Before(calls, k, max, rate), key);
    if ob.None? {
      FirstTake(now, max, rate);
    } else {
      var b := ob.value;
      LastFillPast(calls, k, b, key, max, rate);
      TakeIs(b, now, max, rate);
      forall j | EarlierCall(calls, j, k, key)
        ensures Room(calls, j, k, now, key, max, rate)
                == Room(calls, j, k, b.lastFill, key, max, rate) + Flow(now - b.lastFill, rate)
      {
        RoomLater(calls, j, k, b.lastFill, now, key, max, rate);
      }
      hide Before, Lookup;
      if !Passes(calls, k, max, rate) {
        var j :| EarlierCall(calls, j, k, key) && b.tokens == Room(calls, j, k, b.lastFill, key, max, rate);
        assert Room(calls, j, k, now, key, max, rate) < 1.0;
      }
      forall j | 0 <= j < k && calls[j].key == key && Room(calls, j, k, now, key, max, rate) < 1.0
        ensures !Passes(calls, k, max, rate)
      {
        assert EarlierCall(calls, j, k, key);
      }
    }
  }

  /**
   A call is refused exactly when letting it through would exceed the bound over the stretch that begins
   with some earlier call of its key: size plus what flowed in since is less than what that stretch has
   already let through and one more.
   */
  lemma RefusedIff(calls: seq<Call>, k: nat, max: real, rate: real)
    requires k < |calls| && Nondecreasing(calls) && max >= 1.0 && rate >= 0.0
    ensures !Passes(calls, k, max, rate) <==>
              exists j :: 0 <= j < k && calls[j].key == calls[k].key
                          && max + (calls[k].now - calls[j].now) * rate
                             < Passed(calls, j, k, calls[k].key, max, rate) as real + 1.0
  {
    hide Passes, Passed;
    RefusedByRoom(calls, k, max, rate);
    forall j | 0 <= j < k
      ensures Room(calls, j, k, calls[k].now, calls[k].key, max, rate) < 1.0 <==>
                max + (calls[k].now - calls[j].now) * rate < Passed(calls, j, k, calls[k].key, max, rate) as real + 1.0
    {
    }
  }

  // ---- no limiter does better ----

  /** How many of the calls j to k - 1 for the key some choice of calls lets through. */
  function Chosen(calls: seq<Call>, pick: seq<bool>, j: nat, k: nat, key: string): nat
    requires j <= k <= |calls| == |pick|
    decreases k - j
  {
    if j == k then 0
    else Chosen(calls, pick, j, k - 1, key) + (if calls[k - 1].key == key && pick[k - 1] then 1 else 0)
  }

  /** The choice keeps the bound over every stretch of calls that begins and ends with one for the key. */
  ghost predicate KeepsBound(calls: seq<Call>, pick: seq<bool>, key: string, max: real, rate: real)
    requires |calls| == |pick|
  {
    forall j, k :: 0 <= j < k <= |calls| && calls[j].key == calls[k - 1].key == key ==>
      Chosen(calls, pick, j, k, key) as real <= max + Flow(calls[k - 1].now - calls[j].now, rate)
  }

  lemma {:induction false} ChosenSplit(calls: seq<Call>, pick: seq<bool>, i: nat, j: nat, k: nat, key: string)
    requires i <= j <= k <= |calls| == |pick|
    ensures Chosen(calls, pick, i, k, key) == Chosen(calls, pick, i, j, key) + Chosen(calls, pick, j, k, key)
    decreases k
  {
    if j < k { ChosenSplit(calls, pick, i, j, k - 1, key); }
  }

  lemma {:induction false} PassedSplit(calls: seq<Call>, i: nat, j: nat, k: nat, key: string, max: real, rate: real)
    requires i <= j <= k <= |calls|
    ensures Passed(calls, i, k, key, max, rate)
            == Passed(calls, i, j, key, max, rate) + Passed(calls, j, k, key, max, rate)
    decreases k
  {
    hide Passes;
    if j < k { PassedSplit(calls, i, j, k - 1, key, max, rate); }
  }

  lemma StretchUsedUp(calls: seq<Call>, k: nat, max: real, rate: real) returns (j: nat)
    requires k < |calls| && Nondecreasing(calls) && max >= 1.0 && rate >= 0.0 && !Passes(calls, k, max, rate)
    ensures j < k && calls[j].key == calls[k].key
    ensures max + Flow(calls[k].now - calls[j].now, rate) < Passed(calls, j, k, calls[k].key, max, rate) as real + 1.0
  {
    hide Passes, Passed, Flow;
    RefusedByRoom(calls, k, max, rate);
    j :| 0 <= j < k && calls[j].key == calls[k].key
         && Room(calls, j, k, calls[k].now, calls[k].key, max, rate) < 1.0;
  }

  /**
   The limiter is as generous as its bound allows: whatever else keeps the bound over every stretch, with
   foreknowledge or without, has at no point let more calls of a key through.
   */
  lemma {:induction false} NoLimiterDoesBetter(
      calls: seq<Call>, pick: seq<bool>, k: nat, key: string, max: real, rate: real)
    requires k <= |calls| == |pick| && Nondecreasing(calls) && max >= 1.0 && rate >= 0.0
    requires KeepsBound(calls, pick, key, max, rate)
    ensures Chosen(calls, pick, 0, k, key) <= Passed(calls, 0, k, key, max, rate)
    decreases k
  {
    hide Passes, Flow;
    if k > 0 {
      var n := k - 1;
      NoLimiterDoesBetter(calls, pick, n, key, max, rate);
      if calls[n].key == key && pick[n] && !Passes(calls, n, max, rate) {
        var j := StretchUsedUp(calls, n, max, rate);
        NoLimiterDoesBetter(calls, pick, j, key, max, rate);
        ChosenSplit(calls, pick, 0, j, k, key);
        PassedSplit(calls, 0, j, n, key, max, rate);
        assert Chosen(calls, pick, j, k, key) as real <= max + Flow(calls[n].now - calls[j].now, rate);
      }
    }
  }

  /** And it keeps that bound itself. */
  lemma {:induction false} KeepsItself(calls: seq<Call>, j: nat, k: nat, t: real, key: string, max: real, rate: real)
    requires j < k <= |calls| && Nondecreasing(calls) && max >= 1.0 && rate >= 0.0
    requires calls[j].key == key && calls[k - 1].now <= t
    ensures Passed(calls, j, k, key, max, rate) as real <= max + Flow(t - calls[j].now, rate)
    decreases k
  {
    hide Passes, Flow;
    var n := k - 1;
    FlowSplit(calls[j].now, calls[n].now, t, rate);
    FlowSign(t - calls[n].now, rate);
    if j < n {
      KeepsItself(calls, j, n, calls[n].now, key, max, rate);
    } else {
      FlowSign(calls[n].now - calls[j].now, rate);
    }
    if calls[n].key == key && Passes(calls, n, max, rate) {
      RefusedByRoom(calls, n, max, rate);
    }
  }

  // ---- idle time is paid back in full ----

  /** n calls at one instant. */
  function Instant(key: string, now: real, n: nat): seq<Call> {
    if n == 0 then [] else [Call(key, now)] + Instant(key, now, n - 1)
  }

  function Min(a: nat, b: nat): nat {
    if a < b then a else b
  }

  lemma HeldTake(held: nat, now: real, max: real, rate: real)
    requires max >= held as real
    ensures Take(Some(Bucket(held as real, now)), now, max, rate)
            == (Bucket((if held > 0 then held - 1 else 0) as real, now), held > 0)
  {
    hide Flow;
  }

  /** A bucket that holds a whole number of tokens lets that many calls of one instant through. */
  lemma {:induction false} InstantAllowed(
      bs: Buckets, key: string, now: real, held: nat, n: nat, max: real, rate: real)
    requires Lookup(bs, key) == Some(Bucket(held as real, now)) && max >= held as real
    ensures AllowedWithin(bs, Instant(key, now, n), key, now, now, max, rate) == Min(n, held)
    decreases n
  {
    hide Take, Lookup, Flow, Step;
    if n > 0 {
      var c := Call(key, now);
      HeldTake(held, now, max, rate);
      StepAt(bs, c, key, max, rate);
      AllowedFirst(bs, c, Instant(key, now, n - 1), key, now, now, max, rate);
      InstantAllowed(Step(bs, c, max, rate), key, now, if held > 0 then held - 1 else 0, n - 1, max, rate);
    }
  }

  /**
   After a drained bucket of whole size m has been idle while j tokens flow in, a burst of n calls gets
   exactly the smallest of n, j and m through.
   */
  lemma IdleBurst(bs: Buckets, key: string, last: real, now: real, j: nat, m: nat, n: nat, rate: real)
    requires Lookup(bs, key) == Some(Bucket(0.0, last)) && last <= now && Flow(now - last, rate) == j as real
    ensures AllowedWithin(bs, Instant(key, now, n), key, now, now, m as real, rate) == Min(n, Min(j, m))
  {
    hide Take, Lookup, Flow, Step;
    if n > 0 {
      var c, level, max := Call(key, now), Min(j, m), m as real;
      var held := if level > 0 then level - 1 else 0;
      IdleTake(last, now, j, m, rate);
      StepAt(bs, c, key, max, rate);
      AllowedFirst(bs, c, Instant(key, now, n - 1), key, now, now, max, rate);
      InstantAllowed(Step(bs, c, max, rate), key, now, held, n - 1, max, rate);
    }
  }

  lemma IdleTake(last: real, now: real, j: nat, m: nat, rate: real)
    requires last <= now && Flow(now - last, rate) == j as real
    ensures var level := Min(j, m);
            Take(Some(Bucket(0.0, last)), now, m as real, rate)
            == (Bucket((if level > 0 then level - 1 else 0) as real, now), level > 0)
  {
    hide Take, Flow;
    TakeIs(Bucket(0.0, last), now, m as real, rate);
  }
}
