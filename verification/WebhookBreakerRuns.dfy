/**
 Two things the circuit breaker's comments deny, on one run: an attempt still goes out while the
 circuit is open, and an event held back by the pause keeps waiting after a success has ended it.
 */
module WebhookBreakerRuns {
  import opened Numerals
  import opened Wrappers
  import opened WebhookQueue
  import opened WebhookBreaker

  const KIND := "proof.verified"
  const START := 1

  /** Register, file 21 events, split them off, fail 20 of them, split again, deliver the last one. */
  function StepAt(i: nat): Op {
    if i == 0 then OpRegister("s", "owner", "https://receiver", [KIND], START)
    else if i <= 21 then OpEnqueue(KIND, [], ["s"], START)
    else if i == 22 || i == 43 then OpSplit(START)
    else if i <= 42 then OpFail(0, 500, 0, 0, true, Times(START, START, START, START))
    else OpSucceed(0, 200, START)
  }

  function Steps(): (ops: seq<Op>)
    ensures |ops| == 45
  {
    seq(45, i requires 0 <= i < 45 => StepAt(i))
  }

  /** One receiver with this failure streak and pause, and nothing dead. */
  predicate OneReceiver(s: State, streak: nat, openUntil: int) {
    && s.clock == START && s.subs == map["s" := 0] && |s.objs| == 1 && s.dead == []
    && s.objs[0].events == [KIND] && s.objs[0].consecutiveFailures == streak && s.objs[0].circuitOpenUntil == openUntil
  }

  predicate AllQueued(q: seq<Event>, attempts: nat, nextTryAt: int) {
    forall i :: 0 <= i < |q| ==> q[i].subId == "s" && q[i].attempts == attempts && q[i].nextTryAt == nextTryAt
  }

  predicate AllFlying(q: seq<Flight>) {
    forall i :: 0 <= i < |q| ==> q[i].sub == Some(0) && q[i].event.subId == "s" && q[i].event.attempts == 0
  }

  predicate Filed(s: State, n: nat) {
    OneReceiver(s, 0, ZERO_TIME) && |s.queue| == n && AllQueued(s.queue, 0, START) && s.inflight == []
  }

  /** n of the 21 attempts have failed; the twentieth failure opens the circuit. */
  predicate Failing(s: State, n: nat) {
    && OneReceiver(s, n, if n >= 20 then START + BREAKER_COOLDOWN else ZERO_TIME)
    && |s.queue| == n && AllQueued(s.queue, 1, START) && |s.inflight| + n == 21 && AllFlying(s.inflight)
  }

  lemma OneMore(dlid: IdHash, k: nat)
    requires k < 45 && Legal(EMPTY, dlid, Steps(), k)
    requires HandlesOk(After(EMPTY, dlid, Steps(), k)) && Enabled(After(EMPTY, dlid, Steps(), k), StepAt(k))
    ensures Legal(EMPTY, dlid, Steps(), k + 1)
    ensures After(EMPTY, dlid, Steps(), k + 1) == Next(After(EMPTY, dlid, Steps(), k), dlid, StepAt(k))
  {
    hide Next, Enabled, HandlesOk, StepAt;
  }

  lemma RegisterStep(dlid: IdHash)
    ensures HandlesOk(EMPTY) && Enabled(EMPTY, StepAt(0)) && Filed(Next(EMPTY, dlid, StepAt(0)), 0)
  {
    assert KNOWN_EVENTS[0] == KIND;
  }

  lemma EnqueueStep(s: State)
    requires Filed(s, |s.queue|)
    ensures HandlesOk(s) && Enabled(s, OpEnqueue(KIND, [], ["s"], START))
    ensures Filed(Enqueue(s, KIND, [], ["s"], START), |s.queue| + 1)
  {
    assert s.objs[0].events[0] == KIND;
    assert ["s"][..0] == [];
    assert Enqueue(s, KIND, [], [], START) == s;
  }

  lemma {:induction false} AllFiled(dlid: IdHash, n: nat)
    requires n <= 21
    ensures Legal(EMPTY, dlid, Steps(), n + 1) && Filed(After(EMPTY, dlid, Steps(), n + 1), n)
  {
    hide Filed, HandlesOk, Enabled, Enqueue, Steps;
    if n == 0 {
      RegisterStep(dlid);
      OneMore(dlid, 0);
    } else {
      AllFiled(dlid, n - 1);
      var s := After(EMPTY, dlid, Steps(), n);
      QueueLength(s, n - 1);
      EnqueueStep(s);
      OneMore(dlid, n);
    }
  }

  lemma QueueLength(s: State, n: nat)
    requires Filed(s, n)
    ensures |s.queue| == n
  {
  }

  lemma {:induction false} AllDue(s: State, q: seq<Event>, now: int)
    requires forall i :: 0 <= i < |q| ==> Due(s, q[i], now)
    ensures Remaining(s, q, now) == [] && |Pending(s, q, now)| == |q|
    ensures forall i :: 0 <= i < |q| ==> Pending(s, q, now)[i] == Flight(q[i], HandleOf(s, q[i].subId))
  {
    hide Due, HandleOf;
    if q != [] { AllDue(s, q[..|q| - 1], now); }
  }

  lemma {:induction false} NoneDue(s: State, q: seq<Event>, now: int)
    requires forall i :: 0 <= i < |q| ==> !Due(s, q[i], now)
    ensures Pending(s, q, now) == [] && |Remaining(s, q, now)| == |q|
    ensures forall i :: 0 <= i < |q| ==> Remaining(s, q, now)[i] == Deferred(s, q[i], now)
  {
    hide Due, Deferred;
    if q != [] { NoneDue(s, q[..|q| - 1], now); }
  }

  lemma FirstSplit(s: State)
    requires Filed(s, 21)
    ensures HandlesOk(s) && Enabled(s, OpSplit(START)) && Failing(Split(s, START), 0)
  {
    AllDue(s, s.queue, START);
    hide Remaining, Pending;
  }

  lemma FailureStep(s: State, dlid: IdHash, n: nat)
    requires Failing(s, n) && n < 20
    ensures var op := OpFail(0, 500, 0, 0, true, Times(START, START, START, START));
            HandlesOk(s) && Enabled(s, op) && Failing(Next(s, dlid, op), n + 1)
  {
    BackoffDoubles(1);
    hide BackoffCap;
  }

  lemma {:induction false} AllFailed(dlid: IdHash, n: nat)
    requires n <= 20
    ensures Legal(EMPTY, dlid, Steps(), n + 23) && Failing(After(EMPTY, dlid, Steps(), n + 23), n)
  {
    hide Filed, Failing, HandlesOk, Enabled, Next, Steps;
    if n == 0 {
      AllFiled(dlid, 21);
      FirstSplit(After(EMPTY, dlid, Steps(), 22));
      OneMore(dlid, 22);
      SplitNext(After(EMPTY, dlid, Steps(), 22), dlid);
    } else {
      AllFailed(dlid, n - 1);
      FailureStep(After(EMPTY, dlid, Steps(), n + 22), dlid, n - 1);
      OneMore(dlid, n + 22);
    }
  }

  lemma SplitNext(s: State, dlid: IdHash)
    requires HandlesOk(s) && Enabled(s, OpSplit(START))
    ensures Next(s, dlid, OpSplit(START)) == Split(s, START)
  {
  }

  /** A run after which the 21st event is in flight while its subscription's circuit is open for two more minutes. */
  lemma AttemptMeetsOpenCircuit(dlid: IdHash) returns (ops: seq<Op>, k: nat)
    ensures k <= |ops| && Legal(EMPTY, dlid, ops, k)
    ensures var s := After(EMPTY, dlid, ops, k);
            && |s.inflight| == 1 && s.inflight[0].sub == Some(0)
            && OpenNow(s, 0) && s.objs[0].circuitOpenUntil == s.clock + BREAKER_COOLDOWN
  {
    ops, k := Steps(), 43;
    AllFailed(dlid, 20);
    hide After, Legal, Steps;
  }

  /** The pause holds back the failed events; the success of the last attempt ends it. */
  lemma HeldBack(s: State, dlid: IdHash)
    requires Failing(s, 20)
    ensures HandlesOk(s) && Enabled(s, OpSplit(START))
    ensures var t := Split(s, START);
            && HandlesOk(t) && Enabled(t, OpSucceed(0, 200, START))
            && var u := Next(t, dlid, OpSucceed(0, 200, START));
            && OneReceiver(u, 0, ZERO_TIME) && |u.queue| == 20 && AllQueued(u.queue, 1, START + BREAKER_COOLDOWN)
  {
    NoneDue(s, s.queue, START);
    hide Remaining, Pending;
  }

  /**
   A run that ends with a success: the circuit is closed and the streak cleared, yet none of the twenty
   events that were due before the pause is sent by a split within the two minutes of the old pause.
   */
  lemma PauseOutlivesSuccess(dlid: IdHash) returns (ops: seq<Op>)
    ensures |ops| > 0 && ops[|ops| - 1].OpSucceed? && Legal(EMPTY, dlid, ops, |ops|)
    ensures var s := After(EMPTY, dlid, ops, |ops|);
            && s.objs != [] && s.objs[0].circuitOpenUntil == ZERO_TIME && s.objs[0].consecutiveFailures == 0
            && |s.queue| == 20
            && forall now :: s.clock <= now < s.clock + BREAKER_COOLDOWN ==>
                 Split(s, now).queue == s.queue && Split(s, now).inflight == s.inflight
  {
    hide After, Legal, Split, AllQueued, Steps, StepAt, Next, Enabled, HandlesOk;
    ops := Steps();
    var s := ThenHeldBack(dlid);
    StillWaiting(s);
  }

  lemma StillWaiting(s: State)
    requires OneReceiver(s, 0, ZERO_TIME) && AllQueued(s.queue, 1, START + BREAKER_COOLDOWN)
    ensures forall now :: START <= now < START + BREAKER_COOLDOWN ==>
              Split(s, now).queue == s.queue && Split(s, now).inflight == s.inflight
  {
    forall now | START <= now < START + BREAKER_COOLDOWN
      ensures Split(s, now).queue == s.queue && Split(s, now).inflight == s.inflight
    {
      NoneDue(s, s.queue, now);
      hide Remaining, Pending, Kept, Expired;
      assert Remaining(s, s.queue, now) == s.queue;
    }
  }

  lemma ThenHeldBack(dlid: IdHash) returns (s: State)
    ensures Steps()[|Steps()| - 1].OpSucceed? && Legal(EMPTY, dlid, Steps(), |Steps()|)
    ensures s == After(EMPTY, dlid, Steps(), |Steps()|)
    ensures OneReceiver(s, 0, ZERO_TIME) && |s.queue| == 20 && AllQueued(s.queue, 1, START + BREAKER_COOLDOWN)
  {
    hide Failing, HandlesOk, Enabled, Next, OneReceiver, AllQueued, After, Legal;
    AllFailed(dlid, 20);
    HeldBack(After(EMPTY, dlid, Steps(), 43), dlid);
    OneMore(dlid, 43);
    SplitNext(After(EMPTY, dlid, Steps(), 43), dlid);
    OneMore(dlid, 44);
    s := After(EMPTY, dlid, Steps(), 45);
  }

  /**
   In general: an event that was due when a split found its circuit open waits out that pause to its
   end, even when a success closes the circuit in between.
   */
  lemma DeferralOutlivesPause(
      s: State, e: Event, now: int, i: nat, h: nat, code: int, at: int, later: int)
    requires ZERO_TIME < now && e in s.queue && e.nextTryAt <= now
    requires HandleOf(s, e.subId) == Some(h) && h < |s.objs| && s.objs[h].circuitOpenUntil > now
    requires i < |Split(s, now).inflight|
    ensures var held := e.(nextTryAt := s.objs[h].circuitOpenUntil);
            var u := Succeed(Split(s, now), i, h, code, at);
            && held in u.queue && u.objs[h].circuitOpenUntil == ZERO_TIME
            && (Due(u, held, later) <==> later >= s.objs[h].circuitOpenUntil)
  {
    HeldIn(s, s.queue, e, now);
    hide Remaining, Pending, Kept, Expired, Without;
  }
}
