/**
 Waiting times and the circuit breaker over whole runs: how far ahead a retry or a pause can be
 booked, and which attempts go out while a circuit is open.
 */
module WebhookBreaker {
  import opened Numerals
  import opened Wrappers
  import opened WebhookQueue

  // ---- no waiting time is booked further ahead than the two ceilings ----

  predicate RetriesWithin(q: seq<Event>, limit: int) {
    forall i :: 0 <= i < |q| ==> q[i].nextTryAt <= limit
  }

  predicate PausesWithin(objs: seq<Subscription>, limit: int) {
    forall h :: 0 <= h < |objs| ==> objs[h].circuitOpenUntil <= limit
  }

  predicate WaitsBounded(s: State) {
    && s.clock > ZERO_TIME
    && RetriesWithin(s.queue, s.clock + RETRY_AFTER_CEILING) && PausesWithin(s.objs, s.clock + BREAKER_COOLDOWN)
  }

  lemma {:induction false} EnqueueWaits(
      s: State, kind: string, body: seq<byte>, order: seq<string>, now: int, limit: int)
    requires RetriesWithin(s.queue, limit) && now <= limit
    ensures RetriesWithin(Enqueue(s, kind, body, order, now).queue, limit)
  {
    hide SubscribedTo;
    if order != [] { EnqueueWaits(s, kind, body, order[..|order| - 1], now, limit); }
  }

  lemma {:induction false} EnqueueBooks(s: State, kind: string, body: seq<byte>, order: seq<string>, now: int)
    ensures Enqueue(s, kind, body, order, now).objs == s.objs && Enqueue(s, kind, body, order, now).clock == now
    ensures Enqueue(s, kind, body, order, now).inflight == s.inflight
  {
    hide SubscribedTo;
    if order != [] { EnqueueBooks(s, kind, body, order[..|order| - 1], now); }
  }

  lemma {:induction false} RemainingWaits(s: State, q: seq<Event>, now: int, limit: int)
    requires RetriesWithin(q, limit) && PausesWithin(s.objs, limit)
    ensures RetriesWithin(Remaining(s, q, now), limit)
  {
    hide Due;
    if q != [] { RemainingWaits(s, q[..|q| - 1], now, limit); }
  }

  lemma BackoffWithin(attempt: int, backoff: int, sourceWorks: bool)
    requires BackoffMayBe(attempt, backoff, sourceWorks)
    ensures 0 <= backoff <= MAX_BACKOFF
  {
    hide ToInt64, Pow2;
  }

  lemma FailWaits(
      s: State, dlid: IdHash, i: nat, h: nat, code: int, retryAfter: int, backoff: int, t: Times)
    requires i < |s.inflight| && h < |s.objs| && WaitsBounded(s) && InOrder(s.clock, t)
    requires backoff <= MAX_BACKOFF
    ensures WaitsBounded(Fail(s, dlid, i, h, code, retryAfter, backoff, t))
  {
    hide Without, Truncated, CutOff, DeadUids;
  }

  /** One step books no waiting time beyond the ceilings, counted from the clock it leaves. */
  lemma WaitsStep(s: State, dlid: IdHash, op: Op)
    requires HandlesOk(s) && Enabled(s, op) && WaitsBounded(s)
    ensures WaitsBounded(Next(s, dlid, op))
  {
    hide Enqueue, Fail, Remaining, Pending, Kept, Expired, Without, BackoffMayBe, ValidRegistration, IsOrder;
    match op {
      case OpEnqueue(kind, body, order, now) =>
        EnqueueWaits(s, kind, body, order, now, now + RETRY_AFTER_CEILING);
        EnqueueBooks(s, kind, body, order, now);
      case OpSplit(now) => RemainingWaits(s, s.queue, now, now + RETRY_AFTER_CEILING);
      case OpFail(i, code, retryAfter, backoff, sourceWorks, t) =>
        BackoffWithin(s.inflight[i].event.attempts + 1, backoff, sourceWorks);
        FailWaits(s, dlid, i, s.inflight[i].sub.value, code, retryAfter, backoff, t);
      case _ =>
    }
  }

  /**
   In every state of every run, whatever the receivers answer: no queued event waits past 15 minutes
   from now, and no circuit is open past two minutes from now.
   */
  lemma {:induction false} WaitsAlwaysBounded(dlid: IdHash, ops: seq<Op>, k: nat)
    requires k <= |ops| && Legal(EMPTY, dlid, ops, k)
    ensures var s := After(EMPTY, dlid, ops, k);
            && (forall i :: 0 <= i < |s.queue| ==> s.queue[i].nextTryAt <= s.clock + 900_000_000_000)
            && (forall h :: 0 <= h < |s.objs| ==> s.objs[h].circuitOpenUntil <= s.clock + 120_000_000_000)
            && s.clock > ZERO_TIME
  {
    hide Next, Enabled, HandlesOk;
    if k > 0 {
      WaitsAlwaysBounded(dlid, ops, k - 1);
      WaitsStep(After(EMPTY, dlid, ops, k - 1), dlid, ops[k - 1]);
    }
  }

  lemma {:induction false} SentWhenDue(s: State, q: seq<Event>, now: int, i: nat)
    requires i < |q| && Due(s, q[i], now)
    ensures Flight(q[i], HandleOf(s, q[i].subId)) in Pending(s, q, now)
  {
    hide Due;
    if i < |q| - 1 { SentWhenDue(s, q[..|q| - 1], now, i); }
  }

  lemma {:induction false} HeldIn(s: State, q: seq<Event>, e: Event, now: int)
    requires e in q && !Due(s, e, now)
    ensures Deferred(s, e, now) in Remaining(s, q, now)
  {
    hide Due, Deferred;
    var front, last := q[..|q| - 1], q[|q| - 1];
    if e != last {
      assert e in front;
      HeldIn(s, front, e, now);
    }
  }

  /** Step k, if it is a split, finds the circuit of the subscription closed. */
  ghost predicate CircuitLets(dlid: IdHash, ops: seq<Op>, k: nat, id: string)
    requires k < |ops| && Legal(EMPTY, dlid, ops, k + 1)
  {
    ops[k].OpSplit? ==> !CircuitOpen(After(EMPTY, dlid, ops, k), id, ops[k].now)
  }

  /** Step k is a split that sends the event. */
  ghost predicate SentAt(dlid: IdHash, ops: seq<Op>, k: nat, e: Event)
    requires k < |ops| && Legal(EMPTY, dlid, ops, k + 1)
  {
    var s := After(EMPTY, dlid, ops, k);
    ops[k].OpSplit? && Flight(e, HandleOf(s, e.subId)) in Pending(s, s.queue, ops[k].now)
  }

  lemma SplitSendsOrKeeps(s: State, e: Event, now: int)
    requires e in s.queue && !CircuitOpen(s, e.subId, now)
    ensures e.nextTryAt <= now ==> Flight(e, HandleOf(s, e.subId)) in Pending(s, s.queue, now)
    ensures e.nextTryAt > now ==> e in Split(s, now).queue
  {
    hide Pending, Remaining, CircuitOpen, HandleOf, Kept, Expired;
    if e.nextTryAt <= now {
      var i :| 0 <= i < |s.queue| && s.queue[i] == e;
      SentWhenDue(s, s.queue, now, i);
    } else {
      HeldIn(s, s.queue, e, now);
    }
  }

  lemma {:induction false} EnqueueAppends(
      s: State, kind: string, body: seq<byte>, order: seq<string>, now: int, e: Event)
    requires e in s.queue
    ensures e in Enqueue(s, kind, body, order, now).queue
  {
    hide SubscribedTo;
    if order != [] { EnqueueAppends(s, kind, body, order[..|order| - 1], now, e); }
  }

  lemma StaysOrSent(s: State, dlid: IdHash, op: Op, e: Event)
    requires HandlesOk(s) && Enabled(s, op) && e in s.queue
    requires op.OpSplit? ==> !CircuitOpen(s, e.subId, op.now)
    ensures e in Next(s, dlid, op).queue
            || (op.OpSplit? && Flight(e, HandleOf(s, e.subId)) in Pending(s, s.queue, op.now))
  {
    hide Remaining, Pending, Truncated, CutOff, DeadUids, Delay, BackoffMayBe, IsOrder, Without, CircuitOpen;
    hide ValidRegistration, ReplayRefusal, Enqueue, HandlesOk, Split;
    match op {
      case OpEnqueue(kind, body, order, now) => EnqueueAppends(s, kind, body, order, now, e);
      case OpSplit(now) => SplitSendsOrKeeps(s, e, now);
      case _ =>
    }
  }

  lemma {:induction false} QueuedOrSent(dlid: IdHash, ops: seq<Op>, j: nat, k: nat, e: Event) returns (m: nat)
    requires j <= k <= |ops| && Legal(EMPTY, dlid, ops, k) && Legal(EMPTY, dlid, ops, j)
    requires e in After(EMPTY, dlid, ops, j).queue
    requires forall n :: j <= n < k && Legal(EMPTY, dlid, ops, n + 1) ==> CircuitLets(dlid, ops, n, e.subId)
    ensures e in After(EMPTY, dlid, ops, k).queue
            || (j <= m < k && Legal(EMPTY, dlid, ops, m + 1) && SentAt(dlid, ops, m, e))
    decreases k
  {
    hide Next, Enabled, HandlesOk, CircuitOpen, Pending;
    m := j;
    if j < k {
      m := QueuedOrSent(dlid, ops, j, k - 1, e);
      if e in After(EMPTY, dlid, ops, k - 1).queue {
        assert CircuitLets(dlid, ops, k - 1, e.subId);
        StaysOrSent(After(EMPTY, dlid, ops, k - 1), dlid, ops[k - 1], e);
        m := k - 1;
      }
    }
  }

  /**
   Nothing is pinned in the queue, whatever the receivers answer and whatever happens in between: an
   event queued at some moment of a run is sent at the latest by the first split fifteen minutes after
   that moment, as long as the splits find its circuit closed.
   */
  lemma NothingPinned(dlid: IdHash, ops: seq<Op>, j: nat, k: nat, e: Event) returns (m: nat)
    requires j <= k < |ops| && Legal(EMPTY, dlid, ops, k + 1) && Legal(EMPTY, dlid, ops, j)
    requires e in After(EMPTY, dlid, ops, j).queue
    requires forall n :: j <= n <= k && Legal(EMPTY, dlid, ops, n + 1) ==> CircuitLets(dlid, ops, n, e.subId)
    requires ops[k].OpSplit? && ops[k].now >= After(EMPTY, dlid, ops, j).clock + RETRY_AFTER_CEILING
    ensures j <= m <= k && Legal(EMPTY, dlid, ops, m + 1) && SentAt(dlid, ops, m, e)
  {
    WaitsAlwaysBounded(dlid, ops, j);
    m := QueuedOrSent(dlid, ops, j, k, e);
    if e in After(EMPTY, dlid, ops, k).queue {
      assert CircuitLets(dlid, ops, k, e.subId);
      SplitSendsOrKeeps(After(EMPTY, dlid, ops, k), e, ops[k].now);
      m := k;
    }
    hide After, Legal, Pending, CircuitOpen;
  }

  // ---- which attempts meet an open circuit ----

  /** Step j splits the flight off the queue. */
  ghost predicate SplitOffAt(dlid: IdHash, ops: seq<Op>, j: nat, f: Flight)
    requires j < |ops| && Legal(EMPTY, dlid, ops, j + 1)
  {
    ops[j].OpSplit? && f in Pending(After(EMPTY, dlid, ops, j), After(EMPTY, dlid, ops, j).queue, ops[j].now)
  }

  /** Step j trips the breaker of h and no step from there to k books a success on h. */
  ghost predicate TrippedSince(dlid: IdHash, ops: seq<Op>, j: nat, k: nat, h: nat)
    requires j < k <= |ops| && Legal(EMPTY, dlid, ops, j + 1)
  {
    && TripAt(EMPTY, dlid, ops, j, h)
    && forall m :: j < m < k && Legal(EMPTY, dlid, ops, m + 1) ==> !SuccessAt(EMPTY, dlid, ops, m, h)
  }

  /** At state k the cool-down of such a trip still runs. */
  ghost predicate CoolingSince(dlid: IdHash, ops: seq<Op>, j: nat, k: nat, h: nat)
    requires j < k <= |ops| && Legal(EMPTY, dlid, ops, j + 1) && Legal(EMPTY, dlid, ops, k)
  {
    TrippedSince(dlid, ops, j, k, h) && After(EMPTY, dlid, ops, k).clock < ops[j].t.open + BREAKER_COOLDOWN
  }

  /** Step j splits the flight off and leaves the circuit of h closed. */
  ghost predicate SplitOffClosedAt(dlid: IdHash, ops: seq<Op>, j: nat, f: Flight, h: nat)
    requires j < |ops| && Legal(EMPTY, dlid, ops, j + 1)
  {
    SplitOffAt(dlid, ops, j, f) && !OpenNow(After(EMPTY, dlid, ops, j + 1), h)
  }

  predicate OpenNow(s: State, h: nat) {
    h < |s.objs| && s.objs[h].circuitOpenUntil > s.clock
  }

  /** One step: an open circuit was opened by this step, or was open before and no success on it was booked. */
  lemma OpenStep(s: State, dlid: IdHash, op: Op, h: nat)
    requires HandlesOk(s) && Enabled(s, op) && s.clock > ZERO_TIME && OpenNow(Next(s, dlid, op), h)
    ensures h < |s.objs|
    ensures var until := Next(s, dlid, op).objs[h].circuitOpenUntil;
            if op.OpFail? && s.inflight[op.i].sub == Some(h) && Trips(s.objs[h], op.t.check) then
              until == op.t.open + BREAKER_COOLDOWN
            else
              OpenNow(s, h) && until == s.objs[h].circuitOpenUntil
              && !(op.OpSucceed? && s.inflight[op.i].sub == Some(h))
  {
    hide Remaining, Pending, Kept, Expired, Truncated, CutOff, DeadUids, Delay, BackoffMayBe, IsOrder, Without;
    hide ValidRegistration, ReplayRefusal, Enqueue;
    if op.OpEnqueue? { EnqueueBooks(s, op.kind, op.body, op.order, op.now); }
  }

  lemma {:induction false} TripBehind(dlid: IdHash, ops: seq<Op>, k: nat, h: nat) returns (j: nat)
    requires k <= |ops| && Legal(EMPTY, dlid, ops, k) && OpenNow(After(EMPTY, dlid, ops, k), h)
    ensures j < k && Legal(EMPTY, dlid, ops, j + 1) && TrippedSince(dlid, ops, j, k, h)
    ensures After(EMPTY, dlid, ops, k).objs[h].circuitOpenUntil == ops[j].t.open + BREAKER_COOLDOWN
  {
    hide Next, Enabled, HandlesOk, Trips;
    if k > 0 {
      var s := After(EMPTY, dlid, ops, k - 1);
      WaitsAlwaysBounded(dlid, ops, k - 1);
      OpenStep(s, dlid, ops[k - 1], h);
      j := k - 1;
      if !TripAt(EMPTY, dlid, ops, k - 1, h) {
        j := TripBehind(dlid, ops, k - 1, h);
        assert !SuccessAt(EMPTY, dlid, ops, k - 1, h);
      }
    }
  }

  /**
   A circuit is open exactly while the cool-down of an earlier trip lasts and no success has been booked
   on the subscription since.
   */
  lemma CircuitOpenIff(dlid: IdHash, ops: seq<Op>, k: nat, h: nat)
    requires k <= |ops| && Legal(EMPTY, dlid, ops, k)
    ensures OpenNow(After(EMPTY, dlid, ops, k), h) <==>
            exists j :: 0 <= j < k && Legal(EMPTY, dlid, ops, j + 1) && CoolingSince(dlid, ops, j, k, h)
  {
    hide Next, Enabled, HandlesOk, Trips;
    if OpenNow(After(EMPTY, dlid, ops, k), h) {
      var j := TripBehind(dlid, ops, k, h);
      assert CoolingSince(dlid, ops, j, k, h);
    }
    forall j | 0 <= j < k && Legal(EMPTY, dlid, ops, j + 1) && CoolingSince(dlid, ops, j, k, h)
      ensures OpenNow(After(EMPTY, dlid, ops, k), h)
    {
      OpenSince(EMPTY, dlid, ops, j, k, h);
    }
  }

  lemma {:induction false} SplitBehind(dlid: IdHash, ops: seq<Op>, k: nat, f: Flight) returns (j: nat)
    requires k <= |ops| && Legal(EMPTY, dlid, ops, k) && f in After(EMPTY, dlid, ops, k).inflight
    ensures j < k && Legal(EMPTY, dlid, ops, j + 1) && SplitOffAt(dlid, ops, j, f)
  {
    hide Next, Enabled, HandlesOk, Pending;
    if k > 0 {
      var s := After(EMPTY, dlid, ops, k - 1);
      FlightStep(s, dlid, ops[k - 1], f);
      j := k - 1;
      if f in s.inflight { j := SplitBehind(dlid, ops, k - 1, f); }
    }
  }

  lemma FlightStep(s: State, dlid: IdHash, op: Op, f: Flight)
    requires HandlesOk(s) && Enabled(s, op) && f in Next(s, dlid, op).inflight
    ensures f in s.inflight || (op.OpSplit? && f in Pending(s, s.queue, op.now))
  {
    hide Remaining, Pending, Kept, Expired, Truncated, CutOff, DeadUids, Delay, BackoffMayBe, IsOrder;
    hide ValidRegistration, ReplayRefusal, Enqueue, HandlesOk;
    if op.OpEnqueue? { EnqueueBooks(s, op.kind, op.body, op.order, op.now); }
  }

  lemma ClockStep(s: State, dlid: IdHash, op: Op)
    requires HandlesOk(s) && Enabled(s, op)
    ensures s.clock <= Next(s, dlid, op).clock
    ensures op.OpSplit? ==> Next(s, dlid, op).clock == op.now
  {
    hide Remaining, Pending, Kept, Expired, Truncated, CutOff, DeadUids, Delay, BackoffMayBe, IsOrder, Without;
    hide ValidRegistration, ReplayRefusal, Enqueue, HandlesOk;
    if op.OpEnqueue? { EnqueueBooks(s, op.kind, op.body, op.order, op.now); }
  }

  lemma {:induction false} ClockGrows(dlid: IdHash, ops: seq<Op>, j: nat, k: nat)
    requires j <= k <= |ops| && Legal(EMPTY, dlid, ops, k) && Legal(EMPTY, dlid, ops, j)
    ensures After(EMPTY, dlid, ops, j).clock <= After(EMPTY, dlid, ops, k).clock
    decreases k
  {
    hide Next, Enabled, HandlesOk;
    if j < k {
      ClockGrows(dlid, ops, j, k - 1);
      ClockStep(After(EMPTY, dlid, ops, k - 1), dlid, ops[k - 1]);
    }
  }

  /** A flight's circuit was closed when it was split off. */
  lemma ClosedAtSplit(s: State, q: seq<Event>, now: int, f: Flight)
    requires f in Pending(s, q, now)
    ensures f.sub.Some? && f.sub.value < |s.objs| ==> s.objs[f.sub.value].circuitOpenUntil <= now
  {
    hide Pending;
    var i :| 0 <= i < |Pending(s, q, now)| && Pending(s, q, now)[i] == f;
    SplitRespectsCircuit(s, q, now, i);
  }

  /**
   A trip whose cool-down still runs, with no success since, comes after every split of an attempt that
   is still in flight: no later split would have let the attempt go.
   */
  lemma SplitBeforeTrip(dlid: IdHash, ops: seq<Op>, j: nat, m: nat, k: nat, f: Flight, h: nat)
    requires j < k <= |ops| && m < k && Legal(EMPTY, dlid, ops, k)
    requires Legal(EMPTY, dlid, ops, j + 1) && Legal(EMPTY, dlid, ops, m + 1)
    requires SplitOffAt(dlid, ops, j, f) && f.sub == Some(h) && CoolingSince(dlid, ops, m, k, h)
    ensures j < m
  {
    hide Next, Enabled, HandlesOk, Trips, Pending, SuccessAt;
    if m < j {
      OpenSince(EMPTY, dlid, ops, m, j, h);
      ClosedAtSplit(After(EMPTY, dlid, ops, j), After(EMPTY, dlid, ops, j).queue, ops[j].now, f);
      ClockStep(After(EMPTY, dlid, ops, j), dlid, ops[j]);
      ClockGrows(dlid, ops, j + 1, k);
    }
  }

  /**
   The attempts that meet an open circuit are exactly those split off, their circuit closed, before a
   trip whose cool-down still runs with no success since: being paused stops splits, not what a split
   already sent out.
   */
  lemma OpenAttemptIff(dlid: IdHash, ops: seq<Op>, k: nat, f: Flight, h: nat)
    requires k <= |ops| && Legal(EMPTY, dlid, ops, k)
    requires f in After(EMPTY, dlid, ops, k).inflight && f.sub == Some(h)
    ensures OpenNow(After(EMPTY, dlid, ops, k), h) <==>
            exists j, m :: 0 <= j < m < k && Legal(EMPTY, dlid, ops, j + 1) && Legal(EMPTY, dlid, ops, m + 1)
                           && SplitOffClosedAt(dlid, ops, j, f, h) && CoolingSince(dlid, ops, m, k, h)
  {
    hide After, Legal, OpenNow, CoolingSince, SplitOffClosedAt, SplitOffAt;
    CircuitOpenIff(dlid, ops, k, h);
    if OpenNow(After(EMPTY, dlid, ops, k), h) {
      var j := SplitBehind(dlid, ops, k, f);
      var m :| 0 <= m < k && Legal(EMPTY, dlid, ops, m + 1) && CoolingSince(dlid, ops, m, k, h);
      SplitBeforeTrip(dlid, ops, j, m, k, f, h);
      SplitLeavesClosed(dlid, ops, j, f, h);
    }
  }

  lemma SplitLeavesClosed(dlid: IdHash, ops: seq<Op>, j: nat, f: Flight, h: nat)
    requires j < |ops| && Legal(EMPTY, dlid, ops, j + 1) && SplitOffAt(dlid, ops, j, f) && f.sub == Some(h)
    ensures SplitOffClosedAt(dlid, ops, j, f, h)
  {
    hide Remaining, Pending, Kept, Expired;
    ClosedAtSplit(After(EMPTY, dlid, ops, j), After(EMPTY, dlid, ops, j).queue, ops[j].now, f);
  }
}
