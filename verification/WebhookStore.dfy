/** The webhook store object: its methods update the fields in place, one locked section each. */
module WebhookStore {
  import opened Numerals
  import opened WebhookQueue
  import opened Wrappers

  class Store {
    var subs: map<string, nat>
    var objs: seq<Subscription>
    var queue: seq<Event>
    var inflight: seq<Flight>
    var dead: seq<DeadLetter>
    var clock: int
    var nextUid: nat
    ghost var delivered: seq<nat>
    ghost var dropped: seq<nat>
    ghost var evicted: seq<nat>

    ghost function View(): State
      reads this
    {
      State(subs, objs, queue, inflight, dead, clock, nextUid, delivered, dropped, evicted)
    }

    constructor ()
      ensures View() == EMPTY
    {
      subs, objs, queue, inflight, dead := map[], [], [], [], [];
      clock, nextUid := 1, 0;
      delivered, dropped, evicted := [], [], [];
    }

    method Register(id: string, owner: string, url: string, events: seq<string>, now: int) returns (ok: bool)
      modifies this
      ensures ok <==> ValidRegistration(url, events)
      ensures View() == if ok then WebhookQueue.Register(old(View()), id, owner, url, events, now) else old(View())
    {
      if !("https://" <= url) && !("http://" <= url) { return false; }
      if |events| == 0 { return false; }
      for i := 0 to |events|
        invariant forall k :: 0 <= k < i ==> events[k] in KNOWN_EVENTS
        invariant View() == old(View())
      {
        if events[i] !in KNOWN_EVENTS { return false; }
      }
      objs := objs + [Subscription(id, url, owner, events, now, 0, 0, 0, ZERO_TIME, 0, 0, ZERO_TIME, 0)];
      subs := subs[id := |objs| - 1];
      clock := now;
      ok := true;
    }

    method Unregister(id: string, owner: string) returns (ok: bool)
      requires HandlesOk(View())
      modifies this
      ensures ok <==> Owns(old(View()), id, owner)
      ensures View() == if ok then WebhookQueue.Unregister(old(View()), id) else old(View())
    {
      if id !in subs { return false; }
      if objs[subs[id]].ownerKey != owner { return false; }
      subs := subs - {id};
      ok := true;
    }

    /** The map is iterated in an arbitrary order, which the call reports. */
    method Enqueue(kind: string, body: seq<byte>, now: int) returns (added: nat, ghost order: seq<string>)
      requires HandlesOk(View())
      modifies this
      ensures IsOrder(old(subs), order)
      ensures View() == WebhookQueue.Enqueue(old(View()), kind, body, order, now)
      ensures added == |queue| - |old(queue)|
    {
      hide SubscribedTo, WebhookQueue.Enqueue;
      ghost var s := View();
      EnqueueNone(s, kind, body, now);
      order := [];
      added := 0;
      var left := subs.Keys;
      clock := now;
      while left != {}
        invariant left <= subs.Keys && subs == s.subs && objs == s.objs
        invariant forall id :: id in order <==> id in subs && id !in left
        invariant forall i, j :: 0 <= i < j < |order| ==> order[i] != order[j]
        invariant View() == WebhookQueue.Enqueue(s, kind, body, order, now)
        invariant added == |queue| - |s.queue|
        decreases |left|
      {
        var id :| id in left;
        left := left - {id};
        EnqueueSnoc(s, kind, body, order, id, now);
        order := order + [id];
        if SubscribedTo(objs[subs[id]].events, kind) {
          queue := queue + [Event(nextUid, id, kind, body, 0, now, now)];
          nextUid := nextUid + 1;
          added := added + 1;
        }
      }
    }

    /**
     The random source answers below its bound or fails; it is asked for a number below the cap. The
     delay is below the cap exactly when the source answers and the cap is not zero.
     */
    static method JitteredBackoff(attempt: int, random: int -> Option<int>) returns (delay: int)
      requires forall bound :: bound > 0 && random(bound).Some? ==> 0 <= random(bound).value < bound
      ensures BackoffMayBe(attempt, delay, random(BackoffCap(attempt)).Some?)
      ensures 0 <= delay <= BackoffCap(attempt)
      ensures delay < BackoffCap(attempt) <==> BackoffCap(attempt) > 0 && random(BackoffCap(attempt)).Some?
    {
      var shift: nat := (if attempt < 1 then 1 else attempt) - 1;
      var capDur := ToInt64(SECOND * Pow2(shift));
      if capDur > MAX_BACKOFF || capDur < 0 {
        capDur := MAX_BACKOFF;
      }
      if capDur <= 0 { return 0; }
      var n := random(capDur);
      if n.None? { return capDur; }
      delay := n.value;
      BackoffBelowCapIff(attempt, delay, true);
    }

    /** evictExpiredDeadLettersLocked: filter the dead list. */
    method EvictExpired(now: int)
      modifies this
      ensures View() == Evict(old(View()), now)
    {
      ghost var s := View();
      var kept: seq<DeadLetter> := [];
      ghost var gone: seq<nat> := [];
      for i := 0 to |dead|
        invariant View() == s
        invariant kept == Kept(dead[..i], now) && gone == Expired(dead[..i], now)
      {
        assert dead[..i + 1][..i] == dead[..i];
        if dead[i].failedAt > now - DEAD_LETTER_TTL {
          kept := kept + [dead[i]];
        } else {
          gone := gone + [dead[i].event.uid];
        }
      }
      assert dead[..|dead|] == dead;
      dead := kept;
      evicted := evicted + gone;
      clock := now;
    }

    /** The locked half of deliverOnce. */
    method SplitPending(now: int)
      requires HandlesOk(View())
      modifies this
      ensures View() == Split(old(View()), now)
    {
      ghost var s := View();
      EvictExpired(now);
      var pending: seq<Flight>, remaining: seq<Event> := [], [];
      for i := 0 to |queue|
        invariant View() == Evict(s, now)
        invariant pending == Pending(s, queue[..i], now) && remaining == Remaining(s, queue[..i], now)
      {
        assert queue[..i + 1][..i] == queue[..i];
        var ev := queue[i];
        if ev.nextTryAt > now {
          remaining := remaining + [ev];
        } else if ev.subId in subs && objs[subs[ev.subId]].circuitOpenUntil > now {
          remaining := remaining + [ev.(nextTryAt := objs[subs[ev.subId]].circuitOpenUntil)];
        } else {
          pending := pending + [Flight(ev, if ev.subId in subs then Some(subs[ev.subId]) else None)];
        }
      }
      assert queue[..|queue|] == queue;
      queue := remaining;
      inflight := inflight + pending;
    }

    method DropVanished(i: nat)
      requires i < |inflight| && inflight[i].sub == None
      modifies this
      ensures View() == Drop(old(View()), i)
    {
      dropped := dropped + [inflight[i].event.uid];
      inflight := inflight[..i] + inflight[i + 1..];
    }

    method RecordSuccess(i: nat, code: int, now: int)
      requires HandlesOk(View()) && i < |inflight| && inflight[i].sub.Some?
      modifies this
      ensures View() == Succeed(old(View()), i, old(inflight[i].sub.value), code, now)
    {
      var h, uid := inflight[i].sub.value, inflight[i].event.uid;
      inflight := inflight[..i] + inflight[i + 1..];
      delivered := delivered + [uid];
      var sub := objs[h];
      sub := sub.(attempts := sub.attempts + 1, deliveries := sub.deliveries + 1);
      sub := sub.(lastAttemptAt := now, lastStatusCode := code);
      sub := sub.(consecutiveFailures := 0, circuitOpenUntil := ZERO_TIME);
      objs := objs[h := sub];
      clock := now;
    }

    /** The subscription's half of recordFailure: statistics and the breaker. */
    method CountFailure(h: nat, code: int, t: Times)
      requires h < |objs|
      modifies this`objs
      ensures objs == old(objs)[h := Failed(old(objs[h]), code, t)]
    {
      var sub := objs[h];
      sub := sub.(attempts := sub.attempts + 1, failures := sub.failures + 1);
      sub := sub.(lastAttemptAt := t.attempt, lastStatusCode := code);
      sub := sub.(consecutiveFailures := sub.consecutiveFailures + 1);
      if sub.consecutiveFailures >= BREAKER_THRESHOLD && sub.circuitOpenUntil < t.check {
        sub := sub.(circuitOpenUntil := t.open + BREAKER_COOLDOWN, circuitTrippedTotal := sub.circuitTrippedTotal + 1);
      }
      objs := objs[h := sub];
    }

    /** Append to the dead list, keeping the newest. */
    method AppendDead(d: DeadLetter)
      modifies this`dead, this`evicted
      ensures dead == Truncated(old(dead) + [d])
      ensures evicted == old(evicted) + DeadUids(CutOff(old(dead) + [d]))
    {
      hide DeadUids;
      dead := dead + [d];
      if |dead| > DEAD_LETTER_LIMIT {
        evicted := evicted + DeadUids(dead[..|dead| - DEAD_LETTER_LIMIT]);
        dead := dead[|dead| - DEAD_LETTER_LIMIT..];
      } else {
        NoUids();
      }
    }

    method RecordFailure(dlid: IdHash, i: nat, code: int, retryAfter: int, backoff: int, t: Times)
      requires HandlesOk(View()) && i < |inflight| && inflight[i].sub.Some?
      modifies this
      ensures View() == Fail(old(View()), dlid, i, old(inflight[i].sub.value), code, retryAfter, backoff, t)
    {
      hide DeadUids, Truncated, CutOff, Failed;
      var h, ev := inflight[i].sub.value, inflight[i].event;
      inflight := inflight[..i] + inflight[i + 1..];
      CountFailure(h, code, t);
      var sub := objs[h];
      ev := ev.(attempts := ev.attempts + 1);
      clock := t.end;
      if ev.attempts >= MAX_ATTEMPTS {
        AppendDead(DeadLetter(dlid(sub.id, ev.createdAt), ev, t.end, sub.url, sub.ownerKey));
        return;
      }
      var delay := backoff;
      if retryAfter > 0 {
        var asked := if retryAfter > RETRY_AFTER_CEILING then RETRY_AFTER_CEILING else retryAfter;
        if asked > delay {
          delay := asked;
        }
      }
      queue := queue + [ev.(nextTryAt := t.end + delay)];
    }

    method Replay(id: string, owner: string, now: int) returns (r: Result<string, ReplayError>)
      modifies this
      ensures match ReplayRefusal(old(View()), id, owner)
              case Some(e) => r == Err(e) && View() == old(View())
              case None => r == Ok(id) && View() == WebhookQueue.Replay(old(View()), id, now)
    {
      var idx := 0;
      while idx < |dead| && dead[idx].deliveryId != id
        invariant 0 <= idx <= FindDead(dead, id)
      {
        idx := idx + 1;
      }
      if idx == |dead| { return Err(NotFound); }
      var dl := dead[idx];
      if dl.ownerKey != owner { return Err(NotFound); }
      if dl.event.subId !in subs { return Err(SubscriptionGone); }
      queue := queue + [dl.event.(attempts := 0, nextTryAt := now)];
      dead := dead[..idx] + dead[idx + 1..];
      clock := now;
      r := Ok(dl.deliveryId);
    }
  }
}
