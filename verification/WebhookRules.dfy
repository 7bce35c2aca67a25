/**
 What each webhook operation does, in the units and numbers of the documentation: who may register,
 unregister and replay, which events a split sends, what a delivery and a failure book, and when
 something expires.
 */
module WebhookRules {
  import opened Numerals
  import opened Wrappers
  import opened WebhookQueue
  import WebhookBreaker

  const NANOSECONDS := 1_000_000_000

  // ---- subscriptions ----

  /** A registration is valid exactly with an http or https address and a non-empty list of known events. */
  lemma ValidRegistrationIff(url: string, events: seq<string>)
    ensures ValidRegistration(url, events) <==>
              && ((|url| >= 7 && url[..7] == "http://") || (|url| >= 8 && url[..8] == "https://"))
              && |events| >= 1
              && forall e :: e in events ==>
                   e in {"proof.verified", "proof.anchored", "slash.executed", "governance.executed",
                         "kyc.granted", "kyc.revoked"}
  {
    assert forall i :: 0 <= i < |events| ==> events[i] in events;
    assert KNOWN_EVENTS[0] in KNOWN_EVENTS;
  }

  /** Registering adds one idle subscription with the caller as owner, and touches nothing else. */
  lemma RegisterAdds(s: State, id: string, owner: string, url: string, events: seq<string>, now: int)
    requires HandlesOk(s)
    ensures var t := Register(s, id, owner, url, events, now);
            && HandlesOk(t) && t.subs.Keys == s.subs.Keys + {id} && t.objs[..|s.objs|] == s.objs
            && (forall k :: k in s.subs && k != id ==> t.subs[k] == s.subs[k])
            && t == s.(subs := t.subs, objs := t.objs, clock := now)
            && |t.objs| == |s.objs| + 1
            && var sub := t.objs[t.subs[id]];
               && sub.id == id && sub.ownerKey == owner && sub.url == url && sub.events == events
               && sub.createdAt == now && sub.attempts == sub.deliveries == sub.failures == 0
               && sub.consecutiveFailures == sub.circuitTrippedTotal == 0 && sub.circuitOpenUntil == 0
  {
  }

  /** Only the owner can unregister, and that removes the one subscription and nothing else. */
  lemma UnregisterIff(s: State, id: string, owner: string)
    requires HandlesOk(s)
    ensures Enabled(s, OpUnregister(id, owner)) <==> id in s.subs && s.objs[s.subs[id]].ownerKey == owner
    ensures var t := Unregister(s, id);
            && t == s.(subs := t.subs)
            && forall k :: (k in t.subs <==> k in s.subs && k != id) && (k in t.subs ==> t.subs[k] == s.subs[k])
  {
  }

  /** The fields of a subscription that no operation changes. */
  predicate SameRegistration(a: Subscription, b: Subscription) {
    a.id == b.id && a.ownerKey == b.ownerKey && a.url == b.url && a.events == b.events && a.createdAt == b.createdAt
  }

  lemma RegistrationStep(s: State, dlid: IdHash, op: Op, h: nat, id: string)
    requires HandlesOk(s) && Enabled(s, op) && h < |s.objs|
    ensures h < |Next(s, dlid, op).objs| && SameRegistration(s.objs[h], Next(s, dlid, op).objs[h])
    ensures id in s.subs && id !in Next(s, dlid, op).subs ==>
              op.OpUnregister? && op.id == id && op.owner == s.objs[s.subs[id]].ownerKey
  {
    hide Remaining, Pending, Kept, Expired, Truncated, CutOff, DeadUids, Delay, BackoffMayBe, IsOrder, Without;
    hide ValidRegistration, ReplayRefusal, Enqueue;
    if op.OpEnqueue? {
      EnqueueObjs(s, op.kind, op.body, op.order, op.now);
      EnqueueSubs(s, op.kind, op.body, op.order, op.now);
    }
  }

  lemma {:induction false} EnqueueSubs(s: State, kind: string, body: seq<byte>, order: seq<string>, now: int)
    ensures Enqueue(s, kind, body, order, now).subs == s.subs
  {
    if order != [] { EnqueueSubs(s, kind, body, order[..|order| - 1], now); }
  }

  /**
   In every run: whom a subscription belongs to, where it delivers and what it listens to never change,
   and it leaves only by its owner's own unregister.
   */
  lemma {:induction false} SubscriptionsAreTheirOwners(dlid: IdHash, ops: seq<Op>, j: nat, k: nat, h: nat, id: string)
    requires j <= k <= |ops| && Legal(EMPTY, dlid, ops, k) && Legal(EMPTY, dlid, ops, j)
    requires h < |After(EMPTY, dlid, ops, j).objs|
    ensures h < |After(EMPTY, dlid, ops, k).objs|
    ensures SameRegistration(After(EMPTY, dlid, ops, j).objs[h], After(EMPTY, dlid, ops, k).objs[h])
    ensures k < |ops| && Legal(EMPTY, dlid, ops, k + 1) && id in After(EMPTY, dlid, ops, k).subs
            && id !in After(EMPTY, dlid, ops, k + 1).subs ==>
              var s := After(EMPTY, dlid, ops, k);
              id in s.subs && s.subs[id] < |s.objs| && ops[k] == OpUnregister(id, s.objs[s.subs[id]].ownerKey)
    decreases k
  {
    hide Next, Enabled, SameRegistration;
    if j < k {
      SubscriptionsAreTheirOwners(dlid, ops, j, k - 1, h, id);
      var before := After(EMPTY, dlid, ops, k - 1);
      RegistrationStep(before, dlid, ops[k - 1], h, id);
      SameTwice(After(EMPTY, dlid, ops, j).objs[h], before.objs[h], After(EMPTY, dlid, ops, k).objs[h]);
    } else {
      SameTwice(After(EMPTY, dlid, ops, j).objs[h], After(EMPTY, dlid, ops, j).objs[h],
                After(EMPTY, dlid, ops, j).objs[h]);
    }
    if k < |ops| && Legal(EMPTY, dlid, ops, k + 1) {
      RegistrationStep(After(EMPTY, dlid, ops, k), dlid, ops[k], h, id);
    }
  }

  lemma SameTwice(a: Subscription, b: Subscription, c: Subscription)
    ensures SameRegistration(a, b) && SameRegistration(b, c) ==> SameRegistration(a, c)
    ensures SameRegistration(a, a)
  {
  }

  // ---- enqueue ----

  /** What an enqueue adds goes to the back of the queue, due at once and never tried, with its own body. */
  lemma {:induction false} EnqueueAppends(
      s: State, kind: string, body: seq<byte>, order: seq<string>, now: int, i: nat)
    ensures var t := Enqueue(s, kind, body, order, now);
            && |t.queue| >= |s.queue| && t.queue[..|s.queue|] == s.queue
            && t == s.(queue := t.queue, nextUid := s.nextUid + |t.queue| - |s.queue|, clock := now)
            && (|s.queue| <= i < |t.queue| ==>
                  && t.queue[i] == Event(s.nextUid + i - |s.queue|, t.queue[i].subId, kind, body, 0, now, now)
                  && t.queue[i].subId in order)
  {
    hide SubscribedTo;
    if order != [] {
      var front := order[..|order| - 1];
      EnqueueAppends(s, kind, body, front, now, i);
    }
  }

  /** A subscription listens to an event exactly when it names its kind or the wildcard. */
  lemma SubscribedIff(events: seq<string>, kind: string)
    ensures SubscribedTo(events, kind) <==> kind in events || "*" in events
  {
  }

  // ---- splitting ----

  ghost predicate Closed(s: State, id: string, now: int) {
    id in s.subs && s.subs[id] < |s.objs| ==> s.objs[s.subs[id]].circuitOpenUntil <= now
  }

  /** The subscription the worker's snapshot holds for an identifier, if any. */
  function SnapshotOf(s: State, id: string): Option<nat> {
    if id in s.subs then Some(s.subs[id]) else None
  }

  /**
   A split sends exactly the events that are due while no circuit of theirs is open, each with the
   subscription the snapshot holds for it.
   */
  lemma {:induction false} SentIff(s: State, q: seq<Event>, now: int, f: Flight)
    ensures f in Pending(s, q, now) <==>
              f.event in q && f.event.nextTryAt <= now && Closed(s, f.event.subId, now)
              && f.sub == SnapshotOf(s, f.event.subId)
  {
    if q != [] {
      var front, e := q[..|q| - 1], q[|q| - 1];
      SentIff(s, front, now, f);
      assert q == front + [e];
      assert Due(s, e, now) <==> e.nextTryAt <= now && Closed(s, e.subId, now);
    }
  }

  /** The others stay, in order: one not yet due as it is, one held back by a pause until the pause ends. */
  lemma {:induction false} StaysIff(s: State, q: seq<Event>, now: int, e: Event)
    ensures e in Remaining(s, q, now) <==>
              exists f :: f in q && !(f.nextTryAt <= now && Closed(s, f.subId, now))
                && e == (if f.nextTryAt > now || Closed(s, f.subId, now) then f
                         else f.(nextTryAt := s.objs[s.subs[f.subId]].circuitOpenUntil))
  {
    if q != [] {
      var front, last := q[..|q| - 1], q[|q| - 1];
      StaysIff(s, front, now, e);
      assert q == front + [last];
      assert Due(s, last, now) <==> last.nextTryAt <= now && Closed(s, last.subId, now);
      if e in Remaining(s, q, now) && e !in Remaining(s, front, now) {
        assert last in q && e == Deferred(s, last, now);
      }
      forall f | f in front ensures f in q {
      }
    }
  }

  /** A split goes through the queue from the front and changes the order of neither part. */
  lemma {:induction false} SplitsInOrder(s: State, a: seq<Event>, b: seq<Event>, now: int)
    ensures Pending(s, a + b, now) == Pending(s, a, now) + Pending(s, b, now)
    ensures Remaining(s, a + b, now) == Remaining(s, a, now) + Remaining(s, b, now)
  {
    hide Due, Deferred;
    if b == [] {
      assert a + b == a;
    } else {
      var front := b[..|b| - 1];
      SplitsInOrder(s, a, front, now);
      assert (a + b)[..|a + b| - 1] == a + front;
    }
  }

  /** A dead letter is kept for 24 hours, to the nanosecond. */
  lemma {:induction false} KeptIff(dead: seq<DeadLetter>, now: int, d: DeadLetter)
    ensures d in Kept(dead, now) <==> d in dead && now - d.failedAt < 24 * 60 * 60 * NANOSECONDS
  {
    if dead != [] {
      var front, last := dead[..|dead| - 1], dead[|dead| - 1];
      KeptIff(front, now, d);
      assert dead == front + [last];
    }
  }

  // ---- outcomes ----

  /** A delivery counts an attempt and a delivery, clears the streak and the pause, and touches no one else. */
  lemma SuccessBooks(s: State, i: nat, h: nat, code: int, now: int)
    requires i < |s.inflight| && h < |s.objs|
    ensures var t, was := Succeed(s, i, h, code, now), s.objs[h];
            && |t.objs| == |s.objs| && (forall k :: 0 <= k < |s.objs| && k != h ==> t.objs[k] == s.objs[k])
            && SameRegistration(was, t.objs[h])
            && t.objs[h].attempts == was.attempts + 1 && t.objs[h].deliveries == was.deliveries + 1
            && t.objs[h].failures == was.failures && t.objs[h].circuitTrippedTotal == was.circuitTrippedTotal
            && t.objs[h].lastAttemptAt == now && t.objs[h].lastStatusCode == code
            && t.objs[h].consecutiveFailures == 0 && t.objs[h].circuitOpenUntil == 0
            && t.queue == s.queue && t.dead == s.dead && t.delivered == s.delivered + [s.inflight[i].event.uid]
            && t.subs == s.subs && t.clock == now && t.inflight == s.inflight[..i] + s.inflight[i + 1..]
  {
  }

  /**
   A failure counts an attempt, a failure and one more in a row; from the twentieth in a row on, unless the
   circuit is open, it opens the circuit for two minutes and counts a trip.
   */
  lemma FailureBooks(s: State, dlid: IdHash, i: nat, h: nat, code: int, retryAfter: int, backoff: int, t: Times)
    requires i < |s.inflight| && h < |s.objs|
    ensures var u, was := Fail(s, dlid, i, h, code, retryAfter, backoff, t), s.objs[h];
            var trips := was.consecutiveFailures >= 19 && was.circuitOpenUntil < t.check;
            && |u.objs| == |s.objs| && (forall k :: 0 <= k < |s.objs| && k != h ==> u.objs[k] == s.objs[k])
            && SameRegistration(was, u.objs[h])
            && u.objs[h].attempts == was.attempts + 1 && u.objs[h].failures == was.failures + 1
            && u.objs[h].deliveries == was.deliveries
            && u.objs[h].lastAttemptAt == t.attempt && u.objs[h].lastStatusCode == code
            && u.objs[h].consecutiveFailures == was.consecutiveFailures + 1
            && u.objs[h].circuitOpenUntil == (if trips then t.open + 120 * NANOSECONDS else was.circuitOpenUntil)
            && u.objs[h].circuitTrippedTotal == was.circuitTrippedTotal + (if trips then 1 else 0)
  {
    hide Truncated, CutOff, DeadUids, Delay;
  }

  /**
   The eighth failure of an event makes it a dead letter that names its subscription's owner and address
   and the time; an earlier one sends it back to the queue. The list keeps its newest thousand.
   */
  lemma EighthFailureIsFinal(
      s: State, dlid: IdHash, i: nat, h: nat, code: int, retryAfter: int, backoff: int, t: Times)
    requires i < |s.inflight| && h < |s.objs|
    ensures var u, e, sub := Fail(s, dlid, i, h, code, retryAfter, backoff, t), s.inflight[i].event, s.objs[h];
            && u.delivered == s.delivered && u.dropped == s.dropped
            && u.subs == s.subs && u.clock == t.end && u.inflight == s.inflight[..i] + s.inflight[i + 1..]
            && (e.attempts < 7 ==> |u.queue| == |s.queue| + 1 && u.dead == s.dead && u.evicted == s.evicted)
            && (e.attempts >= 7 ==>
                  && u.queue == s.queue
                  && var grown := s.dead + [DeadLetter(dlid(sub.id, e.createdAt), e.(attempts := e.attempts + 1), t.end,
                                                       sub.url, sub.ownerKey)];
                     u.dead == if |grown| <= 1000 then grown else grown[|grown| - 1000..])
  {
    hide DeadUids, Delay;
  }

  // ---- backoff ----

  /** The cap of the random delay: doubling from one second, five minutes at most, for the first 34 attempts. */
  lemma BackoffCapIs(attempt: int)
    requires attempt <= 34
    ensures var seconds := if attempt < 1 then 1 else Pow2(attempt - 1);
            BackoffCap(attempt) == (if seconds < 300 then seconds else 300) * NANOSECONDS
  {
    var k: nat := (if attempt < 1 then 1 else attempt) - 1;
    PowersUpTo33(k);
    NoWrap(NANOSECONDS * Pow2(k));
    hide Pow2, ToInt64;
  }

  lemma NoWrap(x: int)
    requires 0 <= x < 0x8000_0000_0000_0000
    ensures ToInt64(x) == x
  {
    DivModUnique(0, x + 0x8000_0000_0000_0000, 0x1_0000_0000_0000_0000);
  }

  lemma PowersUpTo33(k: nat)
    requires k <= 33
    ensures Pow2(0) == 1 && Pow2(k) <= 0x2_0000_0000
    ensures k <= 8 ==> Pow2(k) <= 256
    ensures k >= 9 ==> Pow2(k) >= 512
  {
    hide Pow2;
    SomePowers();
    PowerGrows(0, k);
    PowerGrows(k, 33);
    if k <= 8 { PowerGrows(k, 8); }
    if k >= 9 { PowerGrows(9, k); }
  }

  lemma SomePowers()
    ensures Pow2(0) == 1 && Pow2(8) == 256 && Pow2(9) == 512 && Pow2(33) == 0x2_0000_0000
  {
    assert Pow2(8) == 256;
    assert Pow2(16) == 0x1_0000;
    assert Pow2(24) == 0x100_0000;
  }

  lemma {:induction false} PowerGrows(a: nat, b: nat)
    requires a <= b
    ensures Pow2(a) <= Pow2(b)
  {
    if a < b { PowerGrows(a, b - 1); }
  }

  /** Wrapping around keeps a number modulo 2^64 and brings it into the signed 64-bit range. */
  lemma WrapsAround(x: int)
    ensures -0x8000_0000_0000_0000 <= ToInt64(x) < 0x8000_0000_0000_0000
    ensures (x - ToInt64(x)) % 0x1_0000_0000_0000_0000 == 0
  {
  }

  // ---- replay ----

  /** The first dead letter with this identifier, if there is one. */
  ghost predicate FirstDead(s: State, id: string, i: int) {
    0 <= i < |s.dead| && s.dead[i].deliveryId == id && forall k :: 0 <= k < i ==> s.dead[k].deliveryId != id
  }

  /**
   A replay goes through exactly for the owner of the first dead letter with that identifier, while its
   subscription is still registered; it moves that letter's event, untried and due at once, to the back
   of the queue.
   */
  lemma ReplayIff(s: State, id: string, owner: string, now: int)
    ensures ReplayRefusal(s, id, owner) == None <==>
              exists i :: FirstDead(s, id, i) && s.dead[i].ownerKey == owner && s.dead[i].event.subId in s.subs
    ensures ReplayRefusal(s, id, owner) == Some(SubscriptionGone) <==>
              exists i :: FirstDead(s, id, i) && s.dead[i].ownerKey == owner && s.dead[i].event.subId !in s.subs
    ensures forall i :: FirstDead(s, id, i) ==>
              Replay(s, id, now)
              == s.(queue := s.queue + [s.dead[i].event.(attempts := 0, nextTryAt := now)],
                    dead := s.dead[..i] + s.dead[i + 1..], clock := now)
  {
    var i := FindDead(s.dead, id);
    if i < |s.dead| { assert FirstDead(s, id, i); }
    forall j | FirstDead(s, id, j) ensures j == i {
    }
  }

  // ---- over whole runs ----

  /** In every run each subscription's attempts are its deliveries and its failures together. */
  lemma StatisticsAddUp(dlid: IdHash, ops: seq<Op>, k: nat, h: nat)
    requires k <= |ops| && Legal(EMPTY, dlid, ops, k) && h < |After(EMPTY, dlid, ops, k).objs|
    ensures var sub := After(EMPTY, dlid, ops, k).objs[h];
            sub.attempts == sub.deliveries + sub.failures && sub.consecutiveFailures <= sub.failures
  {
    EmptyInv();
    InvAlways(EMPTY, dlid, ops, k);
    var s := After(EMPTY, dlid, ops, k);
    hide After, Legal, Conserved, Bounded, SortedBy;
    assert StatsOk(s.objs[h]);
  }

  lemma DropStep(s: State, dlid: IdHash, op: Op, uid: nat)
    requires HandlesOk(s) && Enabled(s, op) && uid in Next(s, dlid, op).dropped && uid !in s.dropped
    ensures op.OpDrop? && op.i < |s.inflight|
    ensures s.inflight[op.i].event.uid == uid && s.inflight[op.i].sub == None
  {
    hide Remaining, Pending, Kept, Expired, Truncated, CutOff, DeadUids, Delay, BackoffMayBe, IsOrder, Without;
    hide ValidRegistration, ReplayRefusal, Enqueue, HandlesOk;
    if op.OpEnqueue? { EnqueueAppends(s, op.kind, op.body, op.order, op.now, 0); }
  }

  /**
   In every run an event is dropped only if its subscription was no longer registered when a split sent it
   off: nobody who is subscribed loses an event that way.
   */
  lemma {:induction false} DroppedWasOrphan(dlid: IdHash, ops: seq<Op>, k: nat, uid: nat) returns (j: nat, e: Event)
    requires k <= |ops| && Legal(EMPTY, dlid, ops, k) && uid in After(EMPTY, dlid, ops, k).dropped
    ensures j < k && Legal(EMPTY, dlid, ops, j) && ops[j].OpSplit?
    ensures var s := After(EMPTY, dlid, ops, j); e in s.queue && e.uid == uid && e.subId !in s.subs
  {
    hide Next, Enabled, HandlesOk, Pending;
    if k > 0 {
      var s := After(EMPTY, dlid, ops, k - 1);
      if uid in s.dropped {
        j, e := DroppedWasOrphan(dlid, ops, k - 1, uid);
      } else {
        DropStep(s, dlid, ops[k - 1], uid);
        var f := s.inflight[ops[k - 1].i];
        j := WebhookBreaker.SplitBehind(dlid, ops, k - 1, f);
        SentIff(After(EMPTY, dlid, ops, j), After(EMPTY, dlid, ops, j).queue, ops[j].now, f);
        e := f.event;
      }
    }
  }
}
