/**
 The webhook subsystem: subscriptions, the pending queue, the batch in flight, retries with
 backoff, the circuit breaker and the dead-letter list. Every step happens under the store's lock;
 steps of several workers and of handlers interleave freely. Times are nanoseconds on a clock that
 never goes back, and zero is the zero time. Subscription pointers are handles into `objs`. The
 uid of an event and the lists of delivered, dropped and evicted uids exist only in the model.
 */
module WebhookQueue {
  import opened Numerals
  import opened Wrappers

  const SECOND := 1_000_000_000
  const MAX_ATTEMPTS := 8
  const MAX_BACKOFF := 300 * SECOND
  const DEAD_LETTER_LIMIT := 1000
  const RETRY_AFTER_CEILING := 900 * SECOND
  const BREAKER_THRESHOLD := 20
  const BREAKER_COOLDOWN := 120 * SECOND
  const DEAD_LETTER_TTL := 86_400 * SECOND
  const ZERO_TIME := 0

  datatype Subscription = Subscription(
    id: string, url: string, ownerKey: string, events: seq<string>, createdAt: int,
    attempts: nat, deliveries: nat, failures: nat, lastAttemptAt: int, lastStatusCode: int,
    consecutiveFailures: nat, circuitOpenUntil: int, circuitTrippedTotal: nat)

  datatype Event = Event(
    uid: nat, subId: string, kind: string, body: seq<byte>, attempts: nat, nextTryAt: int, createdAt: int)

  datatype DeadLetter = DeadLetter(deliveryId: string, event: Event, failedAt: int, url: string, ownerKey: string)

  /** An event split off for dispatch, with the subscription the worker's snapshot holds for it. */
  datatype Flight = Flight(event: Event, sub: Option<nat>)

  datatype State = State(
    subs: map<string, nat>, objs: seq<Subscription>,
    queue: seq<Event>, inflight: seq<Flight>, dead: seq<DeadLetter>,
    clock: int, nextUid: nat,
    delivered: seq<nat>, dropped: seq<nat>, evicted: seq<nat>)

  const EMPTY := State(map[], [], [], [], [], 1, 0, [], [], [])

  // ---- registration ----

  const KNOWN_EVENTS := ["proof.verified", "proof.anchored", "slash.executed", "governance.executed",
                         "kyc.granted", "kyc.revoked"]

  predicate ValidRegistration(url: string, events: seq<string>) {
    && ("https://" <= url || "http://" <= url)
    && events != []
    && forall i :: 0 <= i < |events| ==> events[i] in KNOWN_EVENTS
  }

  function Register(s: State, id: string, owner: string, url: string, events: seq<string>, now: int): State {
    var sub := Subscription(id, url, owner, events, now, 0, 0, 0, ZERO_TIME, 0, 0, ZERO_TIME, 0);
    s.(subs := s.subs[id := |s.objs|], objs := s.objs + [sub], clock := now)
  }

  predicate Owns(s: State, id: string, owner: string) {
    id in s.subs && s.subs[id] < |s.objs| && s.objs[s.subs[id]].ownerKey == owner
  }

  function Unregister(s: State, id: string): State {
    s.(subs := s.subs - {id})
  }

  // ---- enqueue ----

  predicate SubscribedTo(events: seq<string>, kind: string) {
    exists i :: 0 <= i < |events| && (events[i] == kind || events[i] == "*")
  }

  /** One new event per subscribed subscription, in the order the map was iterated. */
  function Enqueue(s: State, kind: string, body: seq<byte>, order: seq<string>, now: int): State {
    if order == [] then s.(clock := now)
    else
      var t := Enqueue(s, kind, body, order[..|order| - 1], now);
      var id := order[|order| - 1];
      if id in s.subs && s.subs[id] < |s.objs| && SubscribedTo(s.objs[s.subs[id]].events, kind) then
        t.(queue := t.queue + [Event(t.nextUid, id, kind, body, 0, now, now)], nextUid := t.nextUid + 1)
      else t
  }

  // ---- splitting the queue ----

  predicate CircuitOpen(s: State, id: string, now: int) {
    id in s.subs && s.subs[id] < |s.objs| && s.objs[s.subs[id]].circuitOpenUntil > now
  }

  predicate Due(s: State, e: Event, now: int) {
    e.nextTryAt <= now && !CircuitOpen(s, e.subId, now)
  }

  /** An event that stays queued; one held back by an open circuit waits for it to close. */
  function Deferred(s: State, e: Event, now: int): Event {
    if e.nextTryAt > now || !CircuitOpen(s, e.subId, now) then e
    else e.(nextTryAt := s.objs[s.subs[e.subId]].circuitOpenUntil)
  }

  function HandleOf(s: State, id: string): Option<nat> {
    if id in s.subs then Some(s.subs[id]) else None
  }

  function Remaining(s: State, q: seq<Event>, now: int): seq<Event> {
    if q == [] then []
    else
      var e := q[|q| - 1];
      Remaining(s, q[..|q| - 1], now) + (if Due(s, e, now) then [] else [Deferred(s, e, now)])
  }

  function Pending(s: State, q: seq<Event>, now: int): seq<Flight> {
    if q == [] then []
    else
      var e := q[|q| - 1];
      Pending(s, q[..|q| - 1], now) + (if Due(s, e, now) then [Flight(e, HandleOf(s, e.subId))] else [])
  }

  predicate Unexpired(d: DeadLetter, now: int) {
    d.failedAt > now - DEAD_LETTER_TTL
  }

  function Kept(dead: seq<DeadLetter>, now: int): seq<DeadLetter> {
    if dead == [] then []
    else Kept(dead[..|dead| - 1], now) + (if Unexpired(dead[|dead| - 1], now) then [dead[|dead| - 1]] else [])
  }

  function Expired(dead: seq<DeadLetter>, now: int): seq<nat> {
    if dead == [] then []
    else
      var d := dead[|dead| - 1];
      Expired(dead[..|dead| - 1], now) + (if Unexpired(d, now) then [] else [d.event.uid])
  }

  function Evict(s: State, now: int): State {
    s.(dead := Kept(s.dead, now), evicted := s.evicted + Expired(s.dead, now), clock := now)
  }

  /** The locked half of deliverOnce: evict, then move the due events into flight. */
  function Split(s: State, now: int): State {
    var t := Evict(s, now);
    t.(queue := Remaining(s, s.queue, now), inflight := s.inflight + Pending(s, s.queue, now))
  }

  // ---- outcomes of one dispatch ----

  function Without<T>(q: seq<T>, i: nat): seq<T>
    requires i < |q|
  {
    q[..i] + q[i + 1..]
  }

  /** The snapshot has no subscription for the event: it is dropped. */
  function Drop(s: State, i: nat): State
    requires i < |s.inflight|
  {
    s.(inflight := Without(s.inflight, i), dropped := s.dropped + [s.inflight[i].event.uid])
  }

  function Succeeded(sub: Subscription, code: int, now: int): Subscription {
    sub.(attempts := sub.attempts + 1, deliveries := sub.deliveries + 1, lastAttemptAt := now,
         lastStatusCode := code, consecutiveFailures := 0, circuitOpenUntil := ZERO_TIME)
  }

  function Succeed(s: State, i: nat, h: nat, code: int, now: int): State
    requires i < |s.inflight| && h < |s.objs|
  {
    s.(inflight := Without(s.inflight, i), delivered := s.delivered + [s.inflight[i].event.uid],
       objs := s.objs[h := Succeeded(s.objs[h], code, now)], clock := now)
  }

  /** The clock readings of one recordFailure: the breaker check, its opening, and the booking at the end. */
  datatype Times = Times(attempt: int, check: int, open: int, end: int)

  predicate Trips(sub: Subscription, check: int) {
    sub.consecutiveFailures + 1 >= BREAKER_THRESHOLD && sub.circuitOpenUntil < check
  }

  function Failed(sub: Subscription, code: int, t: Times): Subscription {
    var counted := sub.(attempts := sub.attempts + 1, failures := sub.failures + 1, lastAttemptAt := t.attempt,
                        lastStatusCode := code, consecutiveFailures := sub.consecutiveFailures + 1);
    if Trips(sub, t.check) then
      counted.(circuitOpenUntil := t.open + BREAKER_COOLDOWN, circuitTrippedTotal := sub.circuitTrippedTotal + 1)
    else counted
  }

  /** int64 arithmetic wraps around. */
  function ToInt64(x: int): int {
    (x + 0x8000_0000_0000_0000) % 0x1_0000_0000_0000_0000 - 0x8000_0000_0000_0000
  }

  function BackoffCap(attempt: int): int {
    var shifted := ToInt64(SECOND * Pow2((if attempt < 1 then 1 else attempt) - 1));
    if shifted > MAX_BACKOFF || shifted < 0 then MAX_BACKOFF else shifted
  }

  /** What jitteredBackoff returns: a point below the cap, or the cap itself when the random source fails. */
  predicate BackoffMayBe(attempt: int, backoff: int, sourceWorks: bool) {
    if BackoffCap(attempt) <= 0 then backoff == 0
    else if sourceWorks then 0 <= backoff < BackoffCap(attempt)
    else backoff == BackoffCap(attempt)
  }

  function Delay(backoff: int, retryAfter: int): int {
    var r := if retryAfter > RETRY_AFTER_CEILING then RETRY_AFTER_CEILING else retryAfter;
    if retryAfter > 0 && r > backoff then r else backoff
  }

  function Truncated(dead: seq<DeadLetter>): seq<DeadLetter> {
    if |dead| > DEAD_LETTER_LIMIT then dead[|dead| - DEAD_LETTER_LIMIT..] else dead
  }

  function CutOff(dead: seq<DeadLetter>): seq<DeadLetter> {
    if |dead| > DEAD_LETTER_LIMIT then dead[..|dead| - DEAD_LETTER_LIMIT] else []
  }

  function DeadUids(dead: seq<DeadLetter>): (us: seq<nat>)
    ensures |us| == |dead|
  {
    seq(|dead|, i requires 0 <= i < |dead| => dead[i].event.uid)
  }

  /** newDeadLetterID: some function of the subscription identifier and the creation time. */
  type IdHash = (string, int) -> string

  function Fail(s: State, dlid: IdHash, i: nat, h: nat, code: int, retryAfter: int, backoff: int, t: Times): State
    requires i < |s.inflight| && h < |s.objs|
  {
    var e := s.inflight[i].event;
    var sub := Failed(s.objs[h], code, t);
    var e' := e.(attempts := e.attempts + 1);
    var booked := s.(inflight := Without(s.inflight, i), objs := s.objs[h := sub], clock := t.end);
    if e'.attempts >= MAX_ATTEMPTS then
      var dead := s.dead + [DeadLetter(dlid(sub.id, e.createdAt), e', t.end, sub.url, sub.ownerKey)];
      booked.(dead := Truncated(dead), evicted := s.evicted + DeadUids(CutOff(dead)))
    else
      booked.(queue := s.queue + [e'.(nextTryAt := t.end + Delay(backoff, retryAfter))])
  }

  // ---- replay ----

  /** The first dead letter with the identifier, or |dead|. */
  function FindDead(dead: seq<DeadLetter>, id: string): (i: nat)
    ensures i <= |dead|
    ensures i < |dead| ==> dead[i].deliveryId == id
    ensures forall k :: 0 <= k < i ==> dead[k].deliveryId != id
  {
    if dead == [] || dead[0].deliveryId == id then 0 else 1 + FindDead(dead[1..], id)
  }

  datatype ReplayError = NotFound | SubscriptionGone

  function ReplayRefusal(s: State, id: string, owner: string): Option<ReplayError> {
    var i := FindDead(s.dead, id);
    if i == |s.dead| || s.dead[i].ownerKey != owner then Some(NotFound)
    else if s.dead[i].event.subId !in s.subs then Some(SubscriptionGone)
    else None
  }

  function Replay(s: State, id: string, now: int): State {
    var i := FindDead(s.dead, id);
    if i == |s.dead| then s
    else
      s.(queue := s.queue + [s.dead[i].event.(attempts := 0, nextTryAt := now)],
         dead := Without(s.dead, i), clock := now)
  }

  // ---- steps and runs ----

  datatype Op =
    | OpRegister(id: string, owner: string, url: string, events: seq<string>, now: int)
    | OpUnregister(id: string, owner: string)
    | OpEnqueue(kind: string, body: seq<byte>, order: seq<string>, now: int)
    | OpSplit(now: int)
    | OpDrop(i: nat)
    | OpSucceed(i: nat, code: int, now: int)
    | OpFail(i: nat, code: int, retryAfter: int, backoff: int, sourceWorks: bool, t: Times)
    | OpReplay(id: string, owner: string, now: int)

  /** An iteration of the subscription map: every identifier once. */
  predicate IsOrder(subs: map<string, nat>, order: seq<string>) {
    && (forall id :: id in order ==> id in subs)
    && (forall id :: id in subs ==> id in order)
    && (forall i, j :: 0 <= i < j < |order| ==> order[i] != order[j])
  }

  predicate InOrder(clock: int, t: Times) {
    clock <= t.attempt <= t.check <= t.open <= t.end
  }

  /** What may happen next: clock readings do not go back, and a dispatch ends for an event in flight. */
  predicate Enabled(s: State, op: Op) {
    match op
    case OpRegister(_, _, url, events, now) => ValidRegistration(url, events) && s.clock <= now
    case OpUnregister(id, owner) => Owns(s, id, owner)
    case OpEnqueue(_, _, order, now) => IsOrder(s.subs, order) && s.clock <= now
    case OpSplit(now) => s.clock <= now
    case OpDrop(i) => i < |s.inflight| && s.inflight[i].sub == None
    case OpSucceed(i, _, now) => i < |s.inflight| && s.inflight[i].sub.Some? && s.clock <= now
    case OpFail(i, _, _, backoff, sourceWorks, t) =>
      && i < |s.inflight| && s.inflight[i].sub.Some? && InOrder(s.clock, t)
      && BackoffMayBe(s.inflight[i].event.attempts + 1, backoff, sourceWorks)
    case OpReplay(id, owner, now) => ReplayRefusal(s, id, owner) == None && s.clock <= now
  }

  function Next(s: State, dlid: IdHash, op: Op): State
    requires HandlesOk(s) && Enabled(s, op)
  {
    match op
    case OpRegister(id, owner, url, events, now) => Register(s, id, owner, url, events, now)
    case OpUnregister(id, owner) => Unregister(s, id)
    case OpEnqueue(kind, body, order, now) => Enqueue(s, kind, body, order, now)
    case OpSplit(now) => Split(s, now)
    case OpDrop(i) => Drop(s, i)
    case OpSucceed(i, code, now) => Succeed(s, i, s.inflight[i].sub.value, code, now)
    case OpFail(i, code, retryAfter, backoff, _, t) =>
      Fail(s, dlid, i, s.inflight[i].sub.value, code, retryAfter, backoff, t)
    case OpReplay(id, owner, now) => Replay(s, id, now)
  }

  /** Every handle in use points at a subscription object. */
  predicate HandlesOk(s: State) {
    && (forall id :: id in s.subs ==> s.subs[id] < |s.objs|)
    && (forall i :: 0 <= i < |s.inflight| && s.inflight[i].sub.Some? ==> s.inflight[i].sub.value < |s.objs|)
  }

  // ---- conservation ----

  function Uids(q: seq<Event>): (us: seq<nat>)
    ensures |us| == |q|
  {
    seq(|q|, i requires 0 <= i < |q| => q[i].uid)
  }

  function FlightUids(q: seq<Flight>): (us: seq<nat>)
    ensures |us| == |q|
  {
    seq(|q|, i requires 0 <= i < |q| => q[i].event.uid)
  }

  /** Where the events are, one occurrence per place. */
  function Places(s: State): multiset<nat> {
    Together(multiset(Uids(s.queue)), multiset(FlightUids(s.inflight)), multiset(DeadUids(s.dead)),
             multiset(s.delivered), multiset(s.dropped), multiset(s.evicted))
  }

  function Together(queued: multiset<nat>, flying: multiset<nat>, dead: multiset<nat>,
                    delivered: multiset<nat>, dropped: multiset<nat>, evicted: multiset<nat>): multiset<nat> {
    queued + flying + dead + delivered + dropped + evicted
  }

  /** The uids handed out so far, each once. */
  function Created(n: nat): multiset<nat> {
    if n == 0 then multiset{} else Created(n - 1) + multiset{n - 1}
  }

  lemma {:induction false} CreatedCount(n: nat, uid: nat)
    ensures Created(n)[uid] == if uid < n then 1 else 0
  {
    if n > 0 { CreatedCount(n - 1, uid); }
  }

  lemma UidsConcat(a: seq<Event>, b: seq<Event>)
    ensures Uids(a + b) == Uids(a) + Uids(b)
  {
  }

  lemma FlightUidsConcat(a: seq<Flight>, b: seq<Flight>)
    ensures FlightUids(a + b) == FlightUids(a) + FlightUids(b)
  {
  }

  lemma DeadUidsConcat(a: seq<DeadLetter>, b: seq<DeadLetter>)
    ensures DeadUids(a + b) == DeadUids(a) + DeadUids(b)
  {
  }

  lemma EventAdded(q: seq<Event>, e: Event)
    ensures multiset(Uids(q + [e])) == multiset(Uids(q)) + multiset{e.uid}
  {
    assert Uids([e]) == [e.uid];
    UidsConcat(q, [e]);
  }

  lemma FlightAdded(q: seq<Flight>, f: Flight)
    ensures multiset(FlightUids(q + [f])) == multiset(FlightUids(q)) + multiset{f.event.uid}
  {
    assert FlightUids([f]) == [f.event.uid];
    FlightUidsConcat(q, [f]);
  }

  lemma DeadAdded(q: seq<DeadLetter>, d: DeadLetter)
    ensures multiset(DeadUids(q + [d])) == multiset(DeadUids(q)) + multiset{d.event.uid}
  {
    assert DeadUids([d]) == [d.event.uid];
    DeadUidsConcat(q, [d]);
  }

  lemma TakeOut(us: seq<nat>, i: nat)
    requires i < |us|
    ensures multiset(us) == multiset(Without(us, i)) + multiset{us[i]}
  {
    assert us == us[..i] + [us[i]] + us[i + 1..];
  }

  lemma FlightTakenOut(q: seq<Flight>, i: nat)
    requires i < |q|
    ensures multiset(FlightUids(q)) == multiset(FlightUids(Without(q, i))) + multiset{q[i].event.uid}
  {
    assert FlightUids(Without(q, i)) == Without(FlightUids(q), i);
    TakeOut(FlightUids(q), i);
  }

  lemma DeadTakenOut(q: seq<DeadLetter>, i: nat)
    requires i < |q|
    ensures multiset(DeadUids(q)) == multiset(DeadUids(Without(q, i))) + multiset{q[i].event.uid}
  {
    assert DeadUids(Without(q, i)) == Without(DeadUids(q), i);
    TakeOut(DeadUids(q), i);
  }

  lemma {:induction false} SplitPartitions(s: State, q: seq<Event>, now: int)
    ensures multiset(Uids(q)) == multiset(Uids(Remaining(s, q, now))) + multiset(FlightUids(Pending(s, q, now)))
  {
    hide Uids, FlightUids, Due;
    if q == [] {
      NoUids();
    } else {
      var front, e := q[..|q| - 1], q[|q| - 1];
      SplitPartitions(s, front, now);
      assert q == front + [e];
      EventAdded(front, e);
      if Due(s, e, now) {
        FlightAdded(Pending(s, front, now), Flight(e, HandleOf(s, e.subId)));
        assert Remaining(s, q, now) == Remaining(s, front, now);
      } else {
        EventAdded(Remaining(s, front, now), Deferred(s, e, now));
        assert Pending(s, q, now) == Pending(s, front, now);
      }
    }
  }

  lemma NoUids()
    ensures Uids([]) == [] && FlightUids([]) == [] && DeadUids([]) == []
  {
  }

  lemma {:induction false} EvictionPartitions(dead: seq<DeadLetter>, now: int)
    ensures multiset(DeadUids(dead)) == multiset(DeadUids(Kept(dead, now))) + multiset(Expired(dead, now))
  {
    hide DeadUids, Unexpired;
    if dead == [] {
      NoUids();
    } else {
      var front, d := dead[..|dead| - 1], dead[|dead| - 1];
      EvictionPartitions(front, now);
      assert dead == front + [d];
      DeadAdded(front, d);
      if Unexpired(d, now) {
        DeadAdded(Kept(front, now), d);
        assert Expired(dead, now) == Expired(front, now);
      } else {
        assert Kept(dead, now) == Kept(front, now);
      }
    }
  }

  lemma TruncationPartitions(dead: seq<DeadLetter>)
    ensures multiset(DeadUids(dead)) == multiset(DeadUids(Truncated(dead))) + multiset(DeadUids(CutOff(dead)))
  {
    assert dead == CutOff(dead) + Truncated(dead);
    DeadUidsConcat(CutOff(dead), Truncated(dead));
  }

  ghost predicate Conserved(s: State) {
    Places(s) == Created(s.nextUid)
  }

  lemma CreatedNext(n: nat)
    ensures Created(n + 1) == Created(n) + multiset{n}
  {
  }

  lemma {:induction false} EnqueueConserves(s: State, kind: string, body: seq<byte>, order: seq<string>, now: int)
    requires Conserved(s)
    ensures Conserved(Enqueue(s, kind, body, order, now))
  {
    hide Uids, FlightUids, DeadUids, Created, SubscribedTo;
    if order != [] {
      EnqueueConserves(s, kind, body, order[..|order| - 1], now);
      var t := Enqueue(s, kind, body, order[..|order| - 1], now);
      EventAdded(t.queue, Event(t.nextUid, order[|order| - 1], kind, body, 0, now, now));
      CreatedNext(t.nextUid);
    }
  }

  lemma SplitConserves(s: State, now: int)
    requires Conserved(s)
    ensures Conserved(Split(s, now))
  {
    hide Remaining, Pending, Kept, Expired, Uids, FlightUids, DeadUids, Created;
    SplitPartitions(s, s.queue, now);
    EvictionPartitions(s.dead, now);
    FlightUidsConcat(s.inflight, Pending(s, s.queue, now));
  }

  lemma OutcomeConserves(s: State, i: nat, h: nat, code: int, now: int)
    requires Conserved(s) && i < |s.inflight|
    ensures Conserved(Drop(s, i))
    ensures h < |s.objs| ==> Conserved(Succeed(s, i, h, code, now))
  {
    hide Uids, FlightUids, DeadUids, Created, Without;
    FlightTakenOut(s.inflight, i);
  }

  lemma FailConserves(s: State, dlid: IdHash, i: nat, h: nat, code: int, retryAfter: int, backoff: int, t: Times)
    requires Conserved(s) && i < |s.inflight| && h < |s.objs|
    ensures Conserved(Fail(s, dlid, i, h, code, retryAfter, backoff, t))
  {
    hide Uids, FlightUids, DeadUids, Created, Truncated, CutOff, Without, Failed, Delay, Together;
    FlightTakenOut(s.inflight, i);
    var e, sub := s.inflight[i].event, Failed(s.objs[h], code, t);
    var e' := e.(attempts := e.attempts + 1);
    var queued, dead := multiset(Uids(s.queue)), multiset(DeadUids(s.dead));
    var flying := multiset(FlightUids(Without(s.inflight, i)));
    var delivered, dropped, evicted := multiset(s.delivered), multiset(s.dropped), multiset(s.evicted);
    if e'.attempts >= MAX_ATTEMPTS {
      var letter := DeadLetter(dlid(sub.id, e.createdAt), e', t.end, sub.url, sub.ownerKey);
      var all := s.dead + [letter];
      DeadAdded(s.dead, letter);
      TruncationPartitions(all);
      DeadMove(queued, flying, dead, multiset(DeadUids(Truncated(all))), delivered, dropped, evicted,
               multiset(DeadUids(CutOff(all))), e.uid);
    } else {
      EventAdded(s.queue, e'.(nextTryAt := t.end + Delay(backoff, retryAfter)));
      QueueMove(queued, flying, dead, delivered, dropped, evicted, e.uid);
    }
  }

  lemma DeadMove(queued: multiset<nat>, flying: multiset<nat>, dead: multiset<nat>, kept: multiset<nat>,
                 delivered: multiset<nat>, dropped: multiset<nat>, evicted: multiset<nat>, cut: multiset<nat>, uid: nat)
    requires dead + multiset{uid} == kept + cut
    ensures Together(queued, flying, kept, delivered, dropped, evicted + cut)
         == Together(queued, flying + multiset{uid}, dead, delivered, dropped, evicted)
  {
    var rest := queued + flying + delivered + dropped + evicted;
    assert Together(queued, flying, kept, delivered, dropped, evicted + cut) == rest + (kept + cut);
    assert Together(queued, flying + multiset{uid}, dead, delivered, dropped, evicted) == rest + (dead + multiset{uid});
  }

  lemma QueueMove(queued: multiset<nat>, flying: multiset<nat>, dead: multiset<nat>,
                  delivered: multiset<nat>, dropped: multiset<nat>, evicted: multiset<nat>, uid: nat)
    ensures Together(queued + multiset{uid}, flying, dead, delivered, dropped, evicted)
         == Together(queued, flying + multiset{uid}, dead, delivered, dropped, evicted)
  {
  }

  lemma ReplayConserves(s: State, id: string, now: int)
    requires Conserved(s)
    ensures Conserved(Replay(s, id, now))
  {
    hide Uids, FlightUids, DeadUids, Created, Without;
    var i := FindDead(s.dead, id);
    if i < |s.dead| {
      DeadTakenOut(s.dead, i);
      EventAdded(s.queue, s.dead[i].event.(attempts := 0, nextTryAt := now));
    }
  }

  // ---- bounds, dead-letter order, statistics ----

  predicate Bounded(s: State) {
    && (forall i :: 0 <= i < |s.queue| ==> s.queue[i].attempts < MAX_ATTEMPTS)
    && (forall i :: 0 <= i < |s.inflight| ==> s.inflight[i].event.attempts < MAX_ATTEMPTS)
    && (forall i :: 0 <= i < |s.dead| ==> s.dead[i].event.attempts == MAX_ATTEMPTS)
    && |s.dead| <= DEAD_LETTER_LIMIT
  }

  predicate SortedBy(dead: seq<DeadLetter>, clock: int) {
    && (forall i, j :: 0 <= i < j < |dead| ==> dead[i].failedAt <= dead[j].failedAt)
    && (forall i :: 0 <= i < |dead| ==> dead[i].failedAt <= clock)
  }

  predicate StatsOk(sub: Subscription) {
    && sub.attempts == sub.deliveries + sub.failures
    && sub.consecutiveFailures <= sub.failures
  }

  ghost predicate Inv(s: State) {
    && HandlesOk(s) && Conserved(s) && Bounded(s) && SortedBy(s.dead, s.clock) && s.clock > ZERO_TIME
    && forall h :: 0 <= h < |s.objs| ==> StatsOk(s.objs[h])
  }

  lemma EmptyInv()
    ensures Inv(EMPTY)
  {
    NoUids();
  }

  lemma PrefixStep(front: seq<DeadLetter>, d: DeadLetter, k: nat, now: int)
    requires k <= |front| && (!Unexpired(d, now) ==> k == |front|)
    requires Kept(front, now) == front[k..] && Expired(front, now) == DeadUids(front[..k])
    ensures var dead, k' := front + [d], if Unexpired(d, now) then k else k + 1;
            Kept(dead, now) == dead[k'..] && Expired(dead, now) == DeadUids(dead[..k'])
  {
    hide Unexpired, DeadUids;
    var dead := front + [d];
    assert dead[..|dead| - 1] == front;
    if Unexpired(d, now) {
      assert dead[k..] == front[k..] + [d] && front[..k] == dead[..k];
    } else {
      assert front[..k] == front && dead[..k + 1] == front + [d] && dead[k + 1..] == [];
      DeadUidsConcat(front, [d]);
      OneDead(d);
    }
  }

  /** On a sorted list the expired dead letters are exactly a prefix, so eviction drops a prefix. */
  lemma {:induction false} EvictionIsPrefix(dead: seq<DeadLetter>, clock: int, now: int) returns (k: nat)
    requires SortedBy(dead, clock)
    ensures k <= |dead| && Kept(dead, now) == dead[k..] && Expired(dead, now) == DeadUids(dead[..k])
    ensures forall i :: 0 <= i < |dead| ==> (Unexpired(dead[i], now) <==> k <= i)
  {
    hide *;
    k := 0;
    if dead == [] {
      NothingKept(now);
    } else {
      var n := |dead| - 1;
      var front, d := dead[..n], dead[n];
      SortedFront(dead, clock, now);
      k := EvictionIsPrefix(front, clock, now);
      if k < n { SomeUnexpired(front, k, now); }
      PrefixStep(front, d, k, now);
      assert dead == front + [d];
      if !Unexpired(d, now) { k := k + 1; }
    }
  }

  ghost predicate AllExpired(dead: seq<DeadLetter>, now: int) {
    forall i :: 0 <= i < |dead| ==> !Unexpired(dead[i], now)
  }

  lemma SomeUnexpired(dead: seq<DeadLetter>, k: nat, now: int)
    requires k < |dead| && forall i :: 0 <= i < |dead| ==> (Unexpired(dead[i], now) <==> k <= i)
    ensures !AllExpired(dead, now)
  {
    assert Unexpired(dead[k], now);
  }

  lemma NothingKept(now: int)
    ensures Kept([], now) == [] && Expired([], now) == DeadUids([])
  {
  }

  lemma SortedFront(dead: seq<DeadLetter>, clock: int, now: int)
    requires SortedBy(dead, clock) && dead != []
    ensures SortedBy(dead[..|dead| - 1], clock)
    ensures !Unexpired(dead[|dead| - 1], now) ==> AllExpired(dead[..|dead| - 1], now)
  {
  }

  lemma OneDead(d: DeadLetter)
    ensures DeadUids([d]) == [d.event.uid]
  {
  }

  lemma {:induction false} RemainingBounded(s: State, q: seq<Event>, now: int)
    requires forall i :: 0 <= i < |q| ==> q[i].attempts < MAX_ATTEMPTS
    ensures forall i :: 0 <= i < |Remaining(s, q, now)| ==> Remaining(s, q, now)[i].attempts < MAX_ATTEMPTS
    ensures forall i :: 0 <= i < |Pending(s, q, now)| ==> Pending(s, q, now)[i].event.attempts < MAX_ATTEMPTS
    ensures forall i :: 0 <= i < |Pending(s, q, now)| && Pending(s, q, now)[i].sub.Some? ==>
              Pending(s, q, now)[i].event.subId in s.subs
              && Pending(s, q, now)[i].sub.value == s.subs[Pending(s, q, now)[i].event.subId]
  {
    if q != [] { RemainingBounded(s, q[..|q| - 1], now); }
  }

  /** No split sends out an event before its time or while its subscription's circuit is open. */
  lemma {:induction false} SplitRespectsCircuit(s: State, q: seq<Event>, now: int, i: nat)
    requires i < |Pending(s, q, now)|
    ensures var f := Pending(s, q, now)[i];
            && f.event in q && f.event.nextTryAt <= now && f.sub == HandleOf(s, f.event.subId)
            && (f.sub.Some? && f.sub.value < |s.objs| ==> s.objs[f.sub.value].circuitOpenUntil <= now)
  {
    if q != [] {
      var front, e := q[..|q| - 1], q[|q| - 1];
      if i < |Pending(s, front, now)| { SplitRespectsCircuit(s, front, now, i); }
    }
  }

  lemma EvictKeeps(s: State, now: int)
    requires SortedBy(s.dead, s.clock) && s.clock <= now && Bounded(s)
    ensures SortedBy(Kept(s.dead, now), now) && |Kept(s.dead, now)| <= DEAD_LETTER_LIMIT
    ensures forall i :: 0 <= i < |Kept(s.dead, now)| ==>
              Kept(s.dead, now)[i].event.attempts == MAX_ATTEMPTS && Unexpired(Kept(s.dead, now)[i], now)
  {
    hide Kept, Expired;
    var k := EvictionIsPrefix(s.dead, s.clock, now);
  }

  lemma SplitKeeps(s: State, now: int)
    requires Inv(s) && s.clock <= now
    ensures Inv(Split(s, now))
  {
    hide Remaining, Pending, Kept, Expired, Conserved;
    SplitConserves(s, now);
    EvictKeeps(s, now);
    RemainingBounded(s, s.queue, now);
  }

  lemma {:induction false} EnqueueKeeps(s: State, kind: string, body: seq<byte>, order: seq<string>, now: int)
    requires Inv(s) && s.clock <= now
    ensures var t := Enqueue(s, kind, body, order, now);
            && Inv(t) && t.clock == now && t.subs == s.subs && t.objs == s.objs
            && t.inflight == s.inflight && t.dead == s.dead
  {
    hide Conserved, SubscribedTo;
    EnqueueConserves(s, kind, body, order, now);
    if order != [] { EnqueueKeeps(s, kind, body, order[..|order| - 1], now); }
  }

  lemma FailKeeps(s: State, dlid: IdHash, i: nat, h: nat, code: int, retryAfter: int, backoff: int, t: Times)
    requires Inv(s) && i < |s.inflight| && h < |s.objs| && InOrder(s.clock, t)
    ensures Inv(Fail(s, dlid, i, h, code, retryAfter, backoff, t))
  {
    hide Conserved, Delay, Failed, StatsOk, SortedBy, Truncated, CutOff, DeadUids;
    FailConserves(s, dlid, i, h, code, retryAfter, backoff, t);
    FailedStats(s.objs[h], code, t);
    var e, sub := s.inflight[i].event, Failed(s.objs[h], code, t);
    var letter := DeadLetter(dlid(sub.id, e.createdAt), e.(attempts := e.attempts + 1), t.end, sub.url, sub.ownerKey);
    if e.attempts + 1 >= MAX_ATTEMPTS { DeadAppended(s.dead, s.clock, letter); }
    SortedLater(s.dead, s.clock, t.end);
  }

  lemma FailedStats(sub: Subscription, code: int, t: Times)
    requires StatsOk(sub)
    ensures StatsOk(Failed(sub, code, t))
  {
  }

  /** Appending at the clock and keeping the newest thousand preserves order, size and attempt counts. */
  lemma DeadAppended(dead: seq<DeadLetter>, clock: int, d: DeadLetter)
    requires SortedBy(dead, clock) && clock <= d.failedAt && d.event.attempts == MAX_ATTEMPTS
    requires forall i :: 0 <= i < |dead| ==> dead[i].event.attempts == MAX_ATTEMPTS
    ensures var t := Truncated(dead + [d]);
            && SortedBy(t, d.failedAt) && |t| <= DEAD_LETTER_LIMIT
            && forall i :: 0 <= i < |t| ==> t[i].event.attempts == MAX_ATTEMPTS
  {
  }

  lemma SortedLater(dead: seq<DeadLetter>, clock: int, later: int)
    requires SortedBy(dead, clock) && clock <= later
    ensures SortedBy(dead, later)
  {
  }

  /** Every step keeps the invariant. */
  lemma InvStep(s: State, dlid: IdHash, op: Op)
    requires Inv(s) && Enabled(s, op)
    ensures Inv(Next(s, dlid, op))
  {
    hide Conserved, Split, Enqueue, Fail, Places, Created;
    match op {
      case OpRegister(id, owner, url, events, now) => RegisterKeeps(s, id, owner, url, events, now);
      case OpUnregister(id, owner) => UnregisterKeeps(s, id);
      case OpEnqueue(kind, body, order, now) => EnqueueKeeps(s, kind, body, order, now);
      case OpSplit(now) => SplitKeeps(s, now);
      case OpDrop(i) => OutcomeConserves(s, i, 0, 0, 0);
      case OpSucceed(i, code, now) => OutcomeConserves(s, i, s.inflight[i].sub.value, code, now);
      case OpFail(i, code, retryAfter, backoff, _, t) =>
        FailKeeps(s, dlid, i, s.inflight[i].sub.value, code, retryAfter, backoff, t);
      case OpReplay(id, owner, now) => ReplayKeeps(s, id, owner, now);
    }
  }

  lemma RegisterKeeps(s: State, id: string, owner: string, url: string, events: seq<string>, now: int)
    requires Inv(s) && s.clock <= now
    ensures Inv(Register(s, id, owner, url, events, now))
  {
    hide Created, Uids, FlightUids, DeadUids;
    assert Places(Register(s, id, owner, url, events, now)) == Places(s);
  }

  lemma UnregisterKeeps(s: State, id: string)
    requires Inv(s)
    ensures Inv(Unregister(s, id))
  {
    hide Created, Uids, FlightUids, DeadUids;
    assert Places(Unregister(s, id)) == Places(s);
  }

  lemma ReplayKeeps(s: State, id: string, owner: string, now: int)
    requires Inv(s) && ReplayRefusal(s, id, owner) == None && s.clock <= now
    ensures Inv(Replay(s, id, now))
  {
    hide Conserved;
    ReplayConserves(s, id, now);
  }

  function After(s: State, dlid: IdHash, ops: seq<Op>, k: nat): State
    requires k <= |ops| && Legal(s, dlid, ops, k)
    decreases k, 1
  {
    if k == 0 then s else Next(After(s, dlid, ops, k - 1), dlid, ops[k - 1])
  }

  /** The first k steps are each enabled where they happen. */
  predicate Legal(s: State, dlid: IdHash, ops: seq<Op>, k: nat)
    requires k <= |ops|
    decreases k, 0
  {
    || k == 0
    || (Legal(s, dlid, ops, k - 1)
        && HandlesOk(After(s, dlid, ops, k - 1)) && Enabled(After(s, dlid, ops, k - 1), ops[k - 1]))
  }

  /** The invariant in every state of every run. */
  lemma {:induction false} InvAlways(s: State, dlid: IdHash, ops: seq<Op>, k: nat)
    requires Inv(s) && k <= |ops| && Legal(s, dlid, ops, k)
    ensures Inv(After(s, dlid, ops, k))
  {
    hide Inv, Next, Enabled;
    if k > 0 {
      InvAlways(s, dlid, ops, k - 1);
      InvStep(After(s, dlid, ops, k - 1), dlid, ops[k - 1]);
    }
  }

  /**
   Conservation over every run from the empty store: each event created so far is in exactly one
   place, once - queue, flight, dead list, delivered, dropped or evicted - and nothing else is
   anywhere; queued and flying events have failed at most 7 times, dead ones exactly 8.
   */
  lemma EventsConserved(dlid: IdHash, ops: seq<Op>, k: nat, uid: nat)
    requires k <= |ops| && Legal(EMPTY, dlid, ops, k)
    ensures var s := After(EMPTY, dlid, ops, k);
            && multiset(Uids(s.queue))[uid] + multiset(FlightUids(s.inflight))[uid] + multiset(DeadUids(s.dead))[uid]
               + multiset(s.delivered)[uid] + multiset(s.dropped)[uid] + multiset(s.evicted)[uid]
               == (if uid < s.nextUid then 1 else 0)
            && (forall i :: 0 <= i < |s.queue| ==> s.queue[i].attempts <= 7)
            && (forall i :: 0 <= i < |s.inflight| ==> s.inflight[i].event.attempts <= 7)
            && (forall i :: 0 <= i < |s.dead| ==> s.dead[i].event.attempts == 8)
            && |s.dead| <= 1000 && SortedBy(s.dead, s.clock)
  {
    EmptyInv();
    InvAlways(EMPTY, dlid, ops, k);
    var s := After(EMPTY, dlid, ops, k);
    CreatedCount(s.nextUid, uid);
    hide After, Legal, Uids, FlightUids, DeadUids, Created;
    assert Places(s)[uid] == Created(s.nextUid)[uid];
  }

  // ---- the circuit breaker over runs ----

  /** Step k books a failure on subscription object h that trips its breaker. */
  ghost predicate TripAt(s: State, dlid: IdHash, ops: seq<Op>, k: nat, h: nat)
    requires k < |ops| && Legal(s, dlid, ops, k + 1)
  {
    var before := After(s, dlid, ops, k);
    && ops[k].OpFail? && before.inflight[ops[k].i].sub == Some(h)
    && h < |before.objs| && Trips(before.objs[h], ops[k].t.check)
  }

  /** Step k books a success on subscription object h. */
  ghost predicate SuccessAt(s: State, dlid: IdHash, ops: seq<Op>, k: nat, h: nat)
    requires k < |ops| && Legal(s, dlid, ops, k + 1)
  {
    ops[k].OpSucceed? && After(s, dlid, ops, k).inflight[ops[k].i].sub == Some(h)
  }

  /** One step other than a success on h: its breaker never opens for less time than before. */
  lemma OpenUntilGrows(s: State, dlid: IdHash, op: Op, h: nat)
    requires HandlesOk(s) && Enabled(s, op) && h < |s.objs|
    requires op.OpSucceed? ==> s.inflight[op.i].sub != Some(h)
    ensures h < |Next(s, dlid, op).objs|
    ensures Next(s, dlid, op).objs[h].circuitOpenUntil >= s.objs[h].circuitOpenUntil
    ensures op.OpFail? && s.inflight[op.i].sub == Some(h) && Trips(s.objs[h], op.t.check) ==>
              Next(s, dlid, op).objs[h].circuitOpenUntil == op.t.open + BREAKER_COOLDOWN
  {
    hide Remaining, Pending, Kept, Expired, Truncated, CutOff, Delay, BackoffMayBe;
    if op.OpEnqueue? { EnqueueObjs(s, op.kind, op.body, op.order, op.now); }
  }

  lemma {:induction false} EnqueueObjs(s: State, kind: string, body: seq<byte>, order: seq<string>, now: int)
    ensures Enqueue(s, kind, body, order, now).objs == s.objs
  {
    if order != [] { EnqueueObjs(s, kind, body, order[..|order| - 1], now); }
  }

  lemma {:induction false} LegalPrefix(s: State, dlid: IdHash, ops: seq<Op>, j: nat, k: nat)
    requires j <= k <= |ops| && Legal(s, dlid, ops, k)
    ensures Legal(s, dlid, ops, j)
    decreases k
  {
    if j < k { LegalPrefix(s, dlid, ops, j, k - 1); }
  }

  lemma {:induction false} OpenSince(s: State, dlid: IdHash, ops: seq<Op>, j: nat, k: nat, h: nat)
    requires j < k <= |ops| && Legal(s, dlid, ops, k) && Legal(s, dlid, ops, j + 1) && TripAt(s, dlid, ops, j, h)
    requires forall m :: j < m < k && Legal(s, dlid, ops, m + 1) ==> !SuccessAt(s, dlid, ops, m, h)
    ensures h < |After(s, dlid, ops, k).objs|
    ensures After(s, dlid, ops, k).objs[h].circuitOpenUntil >= ops[j].t.open + BREAKER_COOLDOWN
    decreases k
  {
    hide Next, Enabled;
    var before := After(s, dlid, ops, k - 1);
    if k - 1 > j {
      OpenSince(s, dlid, ops, j, k - 1, h);
      assert !SuccessAt(s, dlid, ops, k - 1, h);
    }
    OpenUntilGrows(before, dlid, ops[k - 1], h);
  }

  /** Two trips of one breaker with no success between them are more than two minutes apart. */
  lemma TripsSpacedOut(s: State, dlid: IdHash, ops: seq<Op>, j: nat, k: nat, h: nat)
    requires j < k < |ops| && Legal(s, dlid, ops, k + 1) && Legal(s, dlid, ops, j + 1)
    requires TripAt(s, dlid, ops, j, h) && TripAt(s, dlid, ops, k, h)
    requires forall m :: j < m < k && Legal(s, dlid, ops, m + 1) ==> !SuccessAt(s, dlid, ops, m, h)
    ensures ops[k].t.open - ops[j].t.open > BREAKER_COOLDOWN
  {
    OpenSince(s, dlid, ops, j, k, h);
    TripTimes(After(s, dlid, ops, k), ops[k]);
    hide After, Legal, Enabled;
  }

  lemma TripTimes(s: State, op: Op)
    requires Enabled(s, op) && op.OpFail?
    ensures op.t.check <= op.t.open
  {
    hide BackoffMayBe;
  }

  // ---- retry times ----

  /** For the attempts that are retried the window is 2^(attempt-1) seconds: the 5-minute cap is never reached. */
  lemma BackoffDoubles(attempt: nat)
    requires 1 <= attempt < MAX_ATTEMPTS
    ensures BackoffCap(attempt) == SECOND * Pow2(attempt - 1) <= 64 * SECOND < MAX_BACKOFF
    ensures SECOND == 1_000_000_000
  {
    SmallPow2(attempt - 1);
    var x := SECOND * Pow2(attempt - 1);
    assert ToInt64(x) == x by {
      DivModUnique(0, x + 0x8000_0000_0000_0000, 0x1_0000_0000_0000_0000);
    }
  }

  /** The random delay is below the cap, as documented, exactly when the random source works and the cap is not zero. */
  lemma BackoffBelowCapIff(attempt: int, backoff: int, sourceWorks: bool)
    requires BackoffMayBe(attempt, backoff, sourceWorks)
    ensures 0 <= backoff <= BackoffCap(attempt)
    ensures backoff < BackoffCap(attempt) <==> sourceWorks && BackoffCap(attempt) > 0
  {
    hide ToInt64, Pow2;
    CapNonNegative(attempt);
  }

  lemma CapNonNegative(attempt: int)
    ensures BackoffCap(attempt) >= 0
  {
    hide ToInt64, Pow2;
  }

  lemma SmallPow2(k: nat)
    requires k <= 6
    ensures Pow2(k) <= 64
  {
    if k == 1 || k == 2 || k == 3 { assert Pow2(3) == 8 && Pow2(2) == 4 && Pow2(1) == 2; }
    if k == 4 || k == 5 || k == 6 { assert Pow2(6) == 64 && Pow2(5) == 32 && Pow2(4) == 16; }
  }

  /**
   A failed event that is not dead-lettered goes to the back of the queue, to be tried again after
   exactly the larger of its backoff and what a Retry-After of up to 15 minutes asks: so no earlier
   than either, and no later than the larger of that and its backoff window.
   */
  lemma RetryWindow(
      s: State, dlid: IdHash, i: nat, h: nat, code: int, retryAfter: int, backoff: int, sourceWorks: bool, t: Times)
    requires i < |s.inflight| && h < |s.objs| && s.inflight[i].event.attempts + 1 < MAX_ATTEMPTS
    requires BackoffMayBe(s.inflight[i].event.attempts + 1, backoff, sourceWorks)
    ensures var u := Fail(s, dlid, i, h, code, retryAfter, backoff, t);
            var e := s.inflight[i].event;
            var again := u.queue[|u.queue| - 1];
            var asked := if retryAfter > RETRY_AFTER_CEILING then RETRY_AFTER_CEILING else retryAfter;
            && u.queue == s.queue + [again] && again.uid == e.uid && again.body == e.body
            && again == e.(attempts := e.attempts + 1, nextTryAt := again.nextTryAt)
            && again.nextTryAt == t.end + (if asked > backoff then asked else backoff)
            && asked <= again.nextTryAt - t.end
            && (again.nextTryAt - t.end <= asked || again.nextTryAt - t.end <= SECOND * Pow2(e.attempts))
            && (sourceWorks ==> again.nextTryAt - t.end <= asked || again.nextTryAt - t.end < SECOND * Pow2(e.attempts))
            && again.nextTryAt >= t.end
  {
    BackoffDoubles(s.inflight[i].event.attempts + 1);
    hide BackoffCap;
  }

  // ---- fan-out of one enqueue ----

  lemma EnqueueSnoc(s: State, kind: string, body: seq<byte>, front: seq<string>, id: string, now: int)
    ensures var t := Enqueue(s, kind, body, front, now);
            Enqueue(s, kind, body, front + [id], now)
            == if id in s.subs && s.subs[id] < |s.objs| && SubscribedTo(s.objs[s.subs[id]].events, kind) then
                 t.(queue := t.queue + [Event(t.nextUid, id, kind, body, 0, now, now)], nextUid := t.nextUid + 1)
               else t
  {
    hide SubscribedTo;
    assert (front + [id])[..|front|] == front;
  }

  lemma CountForSnoc(q: seq<Event>, e: Event, id: string)
    ensures CountFor(q + [e], id) == CountFor(q, id) + (if e.subId == id then 1 else 0)
  {
    assert (q + [e])[..|q|] == q;
  }

  function CountFor(q: seq<Event>, id: string): nat {
    if q == [] then 0 else CountFor(q[..|q| - 1], id) + (if q[|q| - 1].subId == id then 1 else 0)
  }

  lemma {:induction false} FanOutPrefix(
      s: State, kind: string, body: seq<byte>, order: seq<string>, now: int, id: string)
    requires HandlesOk(s)
    requires forall i, j :: 0 <= i < j < |order| ==> order[i] != order[j]
    requires forall k :: k in order ==> k in s.subs
    ensures var t := Enqueue(s, kind, body, order, now);
            CountFor(t.queue, id)
            == CountFor(s.queue, id) + (if id in order && SubscribedTo(s.objs[s.subs[id]].events, kind) then 1 else 0)
  {
    hide SubscribedTo, Enqueue, CountFor;
    if order == [] {
      EnqueueNone(s, kind, body, now);
    } else {
      var front, last := order[..|order| - 1], order[|order| - 1];
      FanOutPrefix(s, kind, body, front, now, id);
      assert order == front + [last] && last !in front;
      EnqueueSnoc(s, kind, body, front, last, now);
      var t := Enqueue(s, kind, body, front, now);
      CountForSnoc(t.queue, Event(t.nextUid, last, kind, body, 0, now, now), id);
    }
  }

  lemma EnqueueNone(s: State, kind: string, body: seq<byte>, now: int)
    ensures Enqueue(s, kind, body, [], now) == s.(clock := now)
  {
  }

  /** An enqueue adds exactly one event for each registered subscription that listens to the kind, and no other. */
  lemma FanOut(s: State, kind: string, body: seq<byte>, order: seq<string>, now: int, id: string)
    requires HandlesOk(s) && IsOrder(s.subs, order)
    ensures CountFor(Enqueue(s, kind, body, order, now).queue, id)
            == CountFor(s.queue, id)
               + (if id in s.subs && SubscribedTo(s.objs[s.subs[id]].events, kind) then 1 else 0)
  {
    hide SubscribedTo, Enqueue;
    FanOutPrefix(s, kind, body, order, now, id);
  }
}
