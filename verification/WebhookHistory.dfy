/**
 Where the content of an event comes from: whatever is queued, in flight or dead carries, verbatim,
 what one enqueue step put under its uid.
 */
module WebhookHistory {
  import opened Numerals
  import opened Wrappers
  import opened WebhookQueue

  /** Everything about an event that no later step may change. */
  predicate SameContent(e: Event, f: Event) {
    e.uid == f.uid && e.subId == f.subId && e.kind == f.kind && e.body == f.body && e.createdAt == f.createdAt
  }

  ghost predicate Queued(q: seq<Event>, e: Event) {
    exists i :: 0 <= i < |q| && SameContent(q[i], e)
  }

  ghost predicate Flying(q: seq<Flight>, e: Event) {
    exists i :: 0 <= i < |q| && SameContent(q[i].event, e)
  }

  ghost predicate Dead(q: seq<DeadLetter>, e: Event) {
    exists i :: 0 <= i < |q| && SameContent(q[i].event, e)
  }

  /** Some place of the store holds an event with this content under this uid. */
  ghost predicate Holds(s: State, e: Event) {
    Queued(s.queue, e) || Flying(s.inflight, e) || Dead(s.dead, e)
  }

  /** The subscription for which one enqueue hands out a uid. */
  function SubscriberOf(s: State, kind: string, body: seq<byte>, order: seq<string>, now: int, uid: nat)
      : Option<string>
  {
    if order == [] then None
    else
      var front, id := order[..|order| - 1], order[|order| - 1];
      if id in s.subs && s.subs[id] < |s.objs| && SubscribedTo(s.objs[s.subs[id]].events, kind)
         && uid == Enqueue(s, kind, body, front, now).nextUid then Some(id)
      else SubscriberOf(s, kind, body, front, now, uid)
  }

  /** The step is the enqueue that created the event: its kind, body and time, for a listening subscription. */
  ghost predicate FiledBy(s: State, op: Op, e: Event) {
    && op.OpEnqueue? && e.kind == op.kind && e.body == op.body && e.createdAt == op.now
    && e.subId in op.order && e.subId in s.subs && s.subs[e.subId] < |s.objs|
    && SubscribedTo(s.objs[s.subs[e.subId]].events, e.kind)
    && SubscriberOf(s, op.kind, op.body, op.order, op.now, e.uid) == Some(e.subId)
    && s.nextUid <= e.uid < Enqueue(s, op.kind, op.body, op.order, op.now).nextUid
  }

  lemma QueuedSnoc(q: seq<Event>, x: Event, e: Event)
    requires Queued(q + [x], e)
    ensures Queued(q, e) || SameContent(x, e)
  {
    var i :| 0 <= i < |q| + 1 && SameContent((q + [x])[i], e);
    if i < |q| { assert SameContent(q[i], e); }
  }

  lemma {:induction false} EnqueueOrigin(
      s: State, kind: string, body: seq<byte>, order: seq<string>, now: int, e: Event)
    requires Queued(Enqueue(s, kind, body, order, now).queue, e)
    ensures Queued(s.queue, e) || FiledBy(s, OpEnqueue(kind, body, order, now), e)
    ensures Enqueue(s, kind, body, order, now).nextUid >= s.nextUid
  {
    hide SubscribedTo, SameContent, Queued;
    if order != [] {
      var front, id := order[..|order| - 1], order[|order| - 1];
      var t := Enqueue(s, kind, body, front, now);
      UidsGrow(s, kind, body, front, now);
      if id in s.subs && s.subs[id] < |s.objs| && SubscribedTo(s.objs[s.subs[id]].events, kind) {
        var made := Event(t.nextUid, id, kind, body, 0, now, now);
        QueuedSnoc(t.queue, made, e);
        if Queued(t.queue, e) {
          EnqueueOrigin(s, kind, body, front, now, e);
        } else {
          MadeContent(made, e);
        }
      } else {
        EnqueueOrigin(s, kind, body, front, now, e);
      }
    }
  }

  lemma MadeContent(made: Event, e: Event)
    requires SameContent(made, e)
    ensures made.uid == e.uid && made.subId == e.subId && made.kind == e.kind && made.body == e.body
    ensures made.createdAt == e.createdAt
  {
  }

  lemma {:induction false} UidsGrow(s: State, kind: string, body: seq<byte>, order: seq<string>, now: int)
    ensures Enqueue(s, kind, body, order, now).nextUid >= s.nextUid
  {
    hide SubscribedTo;
    if order != [] { UidsGrow(s, kind, body, order[..|order| - 1], now); }
  }

  lemma {:induction false} SplitOrigin(s: State, q: seq<Event>, now: int, e: Event)
    ensures Queued(Remaining(s, q, now), e) || Flying(Pending(s, q, now), e) ==> Queued(q, e)
  {
    hide Due;
    if q != [] {
      var front, x := q[..|q| - 1], q[|q| - 1];
      SplitOrigin(s, front, now, e);
      assert q == front + [x];
      QueuedIn(front, x, e);
      if Queued(Remaining(s, q, now), e) && !Due(s, x, now) {
        QueuedSnoc(Remaining(s, front, now), Deferred(s, x, now), e);
      }
      if Flying(Pending(s, q, now), e) && Due(s, x, now) {
        FlyingSnoc(Pending(s, front, now), Flight(x, HandleOf(s, x.subId)), e);
      }
    }
  }

  lemma QueuedIn(front: seq<Event>, x: Event, e: Event)
    ensures Queued(front, e) || SameContent(x, e) ==> Queued(front + [x], e)
  {
    if Queued(front, e) {
      var i :| 0 <= i < |front| && SameContent(front[i], e);
      assert SameContent((front + [x])[i], e);
    }
    if SameContent(x, e) { assert SameContent((front + [x])[|front|], e); }
  }

  lemma FlyingSnoc(q: seq<Flight>, x: Flight, e: Event)
    requires Flying(q + [x], e)
    ensures Flying(q, e) || SameContent(x.event, e)
  {
    var i :| 0 <= i < |q| + 1 && SameContent((q + [x])[i].event, e);
    if i < |q| { assert SameContent(q[i].event, e); }
  }

  lemma FlyingConcat(a: seq<Flight>, b: seq<Flight>, e: Event)
    requires Flying(a + b, e)
    ensures Flying(a, e) || Flying(b, e)
  {
    var i :| 0 <= i < |a| + |b| && SameContent((a + b)[i].event, e);
    if i < |a| { assert SameContent(a[i].event, e); } else { assert SameContent(b[i - |a|].event, e); }
  }

  lemma FlyingWithout(q: seq<Flight>, i: nat, e: Event)
    requires i < |q| && Flying(Without(q, i), e)
    ensures Flying(q, e)
  {
    var k :| 0 <= k < |q| - 1 && SameContent(Without(q, i)[k].event, e);
    assert SameContent(q[if k < i then k else k + 1].event, e);
  }

  lemma DeadSnoc(q: seq<DeadLetter>, x: DeadLetter, e: Event)
    requires Dead(q + [x], e)
    ensures Dead(q, e) || SameContent(x.event, e)
  {
    var i :| 0 <= i < |q| + 1 && SameContent((q + [x])[i].event, e);
    if i < |q| { assert SameContent(q[i].event, e); }
  }

  lemma DeadWithout(q: seq<DeadLetter>, i: nat, e: Event)
    requires i < |q| && Dead(Without(q, i), e)
    ensures Dead(q, e)
  {
    var k :| 0 <= k < |q| - 1 && SameContent(Without(q, i)[k].event, e);
    assert SameContent(q[if k < i then k else k + 1].event, e);
  }

  lemma DeadTruncated(q: seq<DeadLetter>, e: Event)
    requires Dead(Truncated(q), e)
    ensures Dead(q, e)
  {
    var k :| 0 <= k < |Truncated(q)| && SameContent(Truncated(q)[k].event, e);
    assert SameContent(q[k + |q| - |Truncated(q)|].event, e);
  }

  lemma {:induction false} DeadKept(q: seq<DeadLetter>, now: int, e: Event)
    requires Dead(Kept(q, now), e)
    ensures Dead(q, e)
  {
    hide Unexpired;
    if q != [] {
      var front, x := q[..|q| - 1], q[|q| - 1];
      assert q == front + [x];
      if Unexpired(x, now) { DeadSnoc(Kept(front, now), x, e); }
      if Dead(Kept(front, now), e) {
        DeadKept(front, now, e);
        var k :| 0 <= k < |front| && SameContent(front[k].event, e);
        assert SameContent(q[k].event, e);
      } else {
        assert SameContent(q[|front|].event, e);
      }
    }
  }

  lemma SplitKeepsOrigin(s: State, now: int, e: Event)
    requires Holds(Split(s, now), e)
    ensures Holds(s, e)
  {
    hide Queued, Flying, Dead, Remaining, Pending, Kept, Expired;
    SplitOrigin(s, s.queue, now, e);
    if Flying(Split(s, now).inflight, e) { FlyingConcat(s.inflight, Pending(s, s.queue, now), e); }
    if Dead(Split(s, now).dead, e) { DeadKept(s.dead, now, e); }
  }

  lemma InFlightAt(q: seq<Flight>, i: nat, x: Event, e: Event)
    requires i < |q| && SameContent(q[i].event, x) && SameContent(x, e)
    ensures Flying(q, e)
  {
    assert SameContent(q[i].event, e);
  }

  lemma FailKeepsOrigin(
      s: State, dlid: IdHash, i: nat, h: nat, code: int, retryAfter: int, backoff: int, t: Times, e: Event)
    requires i < |s.inflight| && h < |s.objs|
    requires Holds(Fail(s, dlid, i, h, code, retryAfter, backoff, t), e)
    ensures Holds(s, e)
  {
    hide Queued, Flying, Dead, Without, Truncated, CutOff, DeadUids, Failed, Delay, SameContent;
    var u := Fail(s, dlid, i, h, code, retryAfter, backoff, t);
    var x, sub := s.inflight[i].event, Failed(s.objs[h], code, t);
    var x' := x.(attempts := x.attempts + 1);
    var again := x'.(nextTryAt := t.end + Delay(backoff, retryAfter));
    SameBut(x);
    if Flying(u.inflight, e) { FlyingWithout(s.inflight, i, e); }
    if x'.attempts >= MAX_ATTEMPTS {
      var letter := DeadLetter(dlid(sub.id, x.createdAt), x', t.end, sub.url, sub.ownerKey);
      if Dead(u.dead, e) {
        DeadTruncated(s.dead + [letter], e);
        DeadSnoc(s.dead, letter, e);
        if SameContent(x', e) { InFlightAt(s.inflight, i, x', e); }
      }
    } else if Queued(u.queue, e) {
      QueuedSnoc(s.queue, again, e);
      if SameContent(again, e) { InFlightAt(s.inflight, i, again, e); }
    }
  }

  /** Attempt count and next try are no content. */
  lemma SameBut(x: Event)
    ensures forall n: nat, at: int {:trigger x.(attempts := n).(nextTryAt := at)} ::
              SameContent(x, x.(attempts := n)) && SameContent(x, x.(attempts := n).(nextTryAt := at))
  {
  }

  lemma ReplayKeepsOrigin(s: State, id: string, now: int, e: Event)
    requires Holds(Replay(s, id, now), e)
    ensures Holds(s, e)
  {
    hide Queued, Flying, Dead, Without;
    var i := FindDead(s.dead, id);
    if i < |s.dead| {
      if Dead(Without(s.dead, i), e) { DeadWithout(s.dead, i, e); }
      var again := s.dead[i].event.(attempts := 0, nextTryAt := now);
      if Queued(s.queue + [again], e) {
        QueuedSnoc(s.queue, again, e);
        if SameContent(again, e) { DeadAt(s.dead, i, e); }
      }
    }
  }

  lemma DeadAt(q: seq<DeadLetter>, i: nat, e: Event)
    requires i < |q| && SameContent(q[i].event, e)
    ensures Dead(q, e)
  {
  }

  /** One step: an event held afterwards was held before with the same content, or the step filed it. */
  lemma OriginStep(s: State, dlid: IdHash, op: Op, e: Event)
    requires HandlesOk(s) && Enabled(s, op) && Holds(Next(s, dlid, op), e)
    ensures Holds(s, e) || FiledBy(s, op, e)
  {
    hide Queued, Flying, Dead, Split, Enqueue, Fail, Replay, Without, SubscribedTo, BackoffMayBe, SameContent;
    match op {
      case OpEnqueue(kind, body, order, now) =>
        EnqueueFrame(s, kind, body, order, now);
        if Queued(Enqueue(s, kind, body, order, now).queue, e) { EnqueueOrigin(s, kind, body, order, now, e); }
      case OpSplit(now) => SplitKeepsOrigin(s, now, e);
      case OpDrop(i) => if Flying(Without(s.inflight, i), e) { FlyingWithout(s.inflight, i, e); }
      case OpSucceed(i, code, now) => if Flying(Without(s.inflight, i), e) { FlyingWithout(s.inflight, i, e); }
      case OpFail(i, code, retryAfter, backoff, _, t) =>
        FailKeepsOrigin(s, dlid, i, s.inflight[i].sub.value, code, retryAfter, backoff, t, e);
      case OpReplay(id, owner, now) => ReplayKeepsOrigin(s, id, now, e);
      case _ =>
    }
  }

  lemma {:induction false} EnqueueFrame(s: State, kind: string, body: seq<byte>, order: seq<string>, now: int)
    ensures Enqueue(s, kind, body, order, now).inflight == s.inflight
    ensures Enqueue(s, kind, body, order, now).dead == s.dead
  {
    hide SubscribedTo;
    if order != [] { EnqueueFrame(s, kind, body, order[..|order| - 1], now); }
  }

  /**
   In every run from the empty store: the subscription, kind, body and creation time of whatever is
   queued, in flight or dead are those of the enqueue step that created its uid.
   */
  lemma {:induction false} EventOrigin(dlid: IdHash, ops: seq<Op>, k: nat, e: Event) returns (j: nat)
    requires k <= |ops| && Legal(EMPTY, dlid, ops, k) && Holds(After(EMPTY, dlid, ops, k), e)
    ensures j < k && Legal(EMPTY, dlid, ops, j) && FiledBy(After(EMPTY, dlid, ops, j), ops[j], e)
  {
    hide Holds, FiledBy, Next, Enabled, HandlesOk;
    if k == 0 {
      EmptyHoldsNothing(e);
    } else {
      var before := After(EMPTY, dlid, ops, k - 1);
      OriginStep(before, dlid, ops[k - 1], e);
      if Holds(before, e) {
        j := EventOrigin(dlid, ops, k - 1, e);
      } else {
        j := k - 1;
      }
    }
  }

  lemma EmptyHoldsNothing(e: Event)
    ensures !Holds(EMPTY, e)
  {
  }

  lemma {:induction false} UidsMonotone(dlid: IdHash, ops: seq<Op>, j: nat, k: nat)
    requires j <= k <= |ops| && Legal(EMPTY, dlid, ops, k) && Legal(EMPTY, dlid, ops, j)
    ensures After(EMPTY, dlid, ops, j).nextUid <= After(EMPTY, dlid, ops, k).nextUid
    decreases k
  {
    hide Enabled, HandlesOk, Next;
    if j < k {
      UidsMonotone(dlid, ops, j, k - 1);
      UidStep(After(EMPTY, dlid, ops, k - 1), dlid, ops[k - 1]);
    }
  }

  lemma UidStep(s: State, dlid: IdHash, op: Op)
    requires HandlesOk(s) && Enabled(s, op)
    ensures s.nextUid <= Next(s, dlid, op).nextUid
  {
    hide Kept, Expired, Remaining, Pending, Truncated, CutOff, DeadUids, BackoffMayBe;
    if op.OpEnqueue? { UidsGrow(s, op.kind, op.body, op.order, op.now); }
  }

  /** The content under a uid never changes: whatever two moments of a run hold under it is the same event. */
  lemma ContentVerbatim(dlid: IdHash, ops: seq<Op>, j: nat, k: nat, e: Event, f: Event)
    requires j <= |ops| && k <= |ops| && Legal(EMPTY, dlid, ops, j) && Legal(EMPTY, dlid, ops, k)
    requires Holds(After(EMPTY, dlid, ops, j), e) && Holds(After(EMPTY, dlid, ops, k), f) && e.uid == f.uid
    ensures SameContent(e, f)
  {
    hide Holds, HandlesOk, Enabled, Next, SubscribedTo;
    var m := EventOrigin(dlid, ops, j, e);
    var n := EventOrigin(dlid, ops, k, f);
    if m < n { FiledApart(dlid, ops, m, n, j, k, e, f); }
    if n < m { FiledApart(dlid, ops, n, m, k, j, f, e); }
  }

  lemma EnqueueNext(s: State, dlid: IdHash, op: Op)
    requires HandlesOk(s) && Enabled(s, op) && op.OpEnqueue?
    ensures Next(s, dlid, op) == Enqueue(s, op.kind, op.body, op.order, op.now)
  {
  }

  lemma FiledApart(dlid: IdHash, ops: seq<Op>, m: nat, n: nat, j: nat, k: nat, e: Event, f: Event)
    requires m < n < k <= |ops| && Legal(EMPTY, dlid, ops, m) && Legal(EMPTY, dlid, ops, n) && m < j <= |ops|
    requires FiledBy(After(EMPTY, dlid, ops, m), ops[m], e) && FiledBy(After(EMPTY, dlid, ops, n), ops[n], f)
    ensures e.uid != f.uid
  {
    hide HandlesOk, Enabled, SubscribedTo, SubscriberOf, Enqueue, Next;
    LegalPrefix(EMPTY, dlid, ops, m + 1, n);
    UidsMonotone(dlid, ops, m + 1, n);
    EnqueueNext(After(EMPTY, dlid, ops, m), dlid, ops[m]);
  }
}
