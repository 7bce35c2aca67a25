/**
 * The concurrent fan-out over the fast providers, as a state machine over its
 * interleaved steps: the launching loop, one goroutine per provider, the
 * goroutine that closes the channel, and the collector loop.
 */
module FanOut {
  import opened Wrappers

  /** What callOne reports: a response, or an error turned into a log row. */
  datatype Outcome<R> = Answered(response: R) | Failed(error: string)

  /** One message on the results channel: the provider's index and its outcome. */
  datatype Item<R> = Item(provider: nat, outcome: Outcome<R>)

  /** A provider goroutine: in the call, about to send, about to call wg.Done, gone. */
  datatype Worker<R> =
    | Calling
    | Returned(outcome: Outcome<R>)
    | Sent(outcome: Outcome<R>)
    | Done(outcome: Outcome<R>)
  {
    function Rank(): nat {
      match this
      case Calling => 0
      case Returned(_) => 1
      case Sent(_) => 2
      case Done(_) => 3
    }
  }

  /** The calling goroutine: the launch loop, the two receive loops, the return. */
  datatype Main<R> = Launching | Receiving | Draining | Finished(result: Option<R>)

  datatype State<R> = State(
    workers: seq<Worker<R>>,
    wg: nat,
    queue: seq<Item<R>>,
    closed: bool,
    main: Main<R>,
    attempts: seq<Item<R>>,
    winner: Option<R>,
    cancelled: bool,
    expired: bool,
    dropped: seq<Item<R>>,
    crashed: bool)

  datatype Step<R> =
    | Launch
    | Collect
    | Return(i: nat, outcome: Outcome<R>)
    | Send(i: nat)
    | Finish(i: nat)
    | Close
    | Receive
    | End
    | Expire

  function Start<R>(): State<R> {
    State([], 0, [], false, Launching, [], None, false, false, [], false)
  }

  predicate Active<R>(s: State<R>, i: nat, rank: nat) {
    i < |s.workers| && s.workers[i].Rank() == rank
  }

  /** Which steps the scheduler may take with n fast providers. */
  predicate Enabled<R(!new)>(n: nat, s: State<R>, step: Step<R>) {
    match step
    case Launch => s.main.Launching? && |s.workers| < n
    case Collect => s.main.Launching? && |s.workers| == n
    case Return(i, _) => Active(s, i, 0)
    case Send(i) => Active(s, i, 1)
    case Finish(i) => Active(s, i, 2) && s.wg > 0
    case Close => !s.main.Launching? && s.wg == 0 && !s.closed
    case Receive => (s.main.Receiving? || s.main.Draining?) && s.queue != []
    case End => (s.main.Receiving? || s.main.Draining?) && s.queue == [] && s.closed
    case Expire => !s.expired && !s.main.Finished?
  }

  /** The select in a provider goroutine: send, or drop when the buffer is full. */
  function AfterSend<R>(n: nat, s: State<R>, i: nat): State<R>
    requires Active(s, i, 1)
  {
    var item := Item(i, s.workers[i].outcome);
    var moved := s.(workers := s.workers[i := Sent(item.outcome)]);
    if s.closed then moved.(crashed := true)
    else if |s.queue| < n then moved.(queue := s.queue + [item])
    else moved.(dropped := s.dropped + [item])
  }

  /** One turn of the collector: log the attempt; the first success also cancels. */
  function AfterReceive<R>(s: State<R>): State<R>
    requires s.queue != []
  {
    var item := s.queue[0];
    var logged := s.(queue := s.queue[1..], attempts := s.attempts + [item]);
    if s.main.Receiving? && item.outcome.Answered? then
      logged.(main := Draining, cancelled := true,
              winner := if s.winner.None? then Some(item.outcome.response) else s.winner)
    else logged
  }

  function Next<R(!new)>(n: nat, s: State<R>, step: Step<R>): State<R>
    requires Enabled(n, s, step)
  {
    match step
    case Launch => s.(workers := s.workers + [Calling], wg := s.wg + 1)
    case Collect => s.(main := Receiving)
    case Return(i, o) => s.(workers := s.workers[i := Returned(o)])
    case Send(i) => AfterSend(n, s, i)
    case Finish(i) => s.(workers := s.workers[i := Done(s.workers[i].outcome)], wg := s.wg - 1)
    case Close => s.(closed := true)
    case Receive => AfterReceive(s)
    case End => s.(main := Finished(s.winner), cancelled := true)
    case Expire => s.(expired := true)
  }

  predicate Legal<R(!new)>(n: nat, steps: seq<Step<R>>)
    decreases |steps|, 0
  {
    steps == [] ||
    (var before := steps[..|steps| - 1];
     Legal(n, before) && Enabled(n, After(n, before), steps[|steps| - 1]))
  }

  function After<R(!new)>(n: nat, steps: seq<Step<R>>): State<R>
    requires Legal(n, steps)
    decreases |steps|, 1
  {
    if steps == [] then Start()
    else Next(n, After(n, steps[..|steps| - 1]), steps[|steps| - 1])
  }

  // ---------------------------------------------------------------- tallies

  /** How many workers have reached a rank. */
  function Tally<R>(ws: seq<Worker<R>>, rank: nat): (t: nat)
    ensures t <= |ws|
  {
    if ws == [] then 0
    else Tally(ws[..|ws| - 1], rank) + if ws[|ws| - 1].Rank() >= rank then 1 else 0
  }

  lemma {:induction false} TallyUpdate<R>(ws: seq<Worker<R>>, i: nat, w: Worker<R>, rank: nat)
    requires i < |ws|
    ensures Tally(ws[i := w], rank)
         == Tally(ws, rank) - (if ws[i].Rank() >= rank then 1 else 0) + (if w.Rank() >= rank then 1 else 0)
  {
    var last := |ws| - 1;
    if i == last {
      assert ws[i := w][..last] == ws[..last];
    } else {
      TallyUpdate(ws[..last], i, w, rank);
      assert ws[i := w][..last] == ws[..last][i := w];
    }
  }

  /** A worker below the rank keeps the tally below the number of workers, and conversely. */
  lemma {:induction false} TallyFull<R>(ws: seq<Worker<R>>, rank: nat)
    ensures Tally(ws, rank) == |ws| <==> forall i :: 0 <= i < |ws| ==> ws[i].Rank() >= rank
  {
    if ws != [] {
      var last := |ws| - 1;
      TallyFull(ws[..last], rank);
      assert forall i :: 0 <= i < last ==> ws[..last][i] == ws[i];
    }
  }

  // -------------------------------------------------------------- invariant

  /** The first successful outcome in a log. */
  function FirstSuccess<R>(log: seq<Item<R>>): Option<R> {
    if log == [] then None
    else if log[0].outcome.Answered? then Some(log[0].outcome.response)
    else FirstSuccess(log[1..])
  }

  lemma {:induction false} FirstSuccessGrows<R>(log: seq<Item<R>>, item: Item<R>)
    ensures FirstSuccess(log + [item])
         == if FirstSuccess(log).Some? then FirstSuccess(log)
            else if item.outcome.Answered? then Some(item.outcome.response) else None
  {
    if log != [] {
      FirstSuccessGrows(log[1..], item);
      assert (log + [item])[1..] == log[1..] + [item];
    }
  }

  lemma {:induction false} FirstSuccessIff<R>(log: seq<Item<R>>)
    ensures FirstSuccess(log).Some? <==> exists k :: 0 <= k < |log| && log[k].outcome.Answered?
    ensures FirstSuccess(log).Some? ==>
      exists k :: 0 <= k < |log| && log[k].outcome == Answered(FirstSuccess(log).value)
               && forall j :: 0 <= j < k ==> log[j].outcome.Failed?
  {
    if log != [] && log[0].outcome.Failed? {
      FirstSuccessIff(log[1..]);
      assert forall k :: 0 <= k < |log| - 1 ==> log[1..][k] == log[k + 1];
      if FirstSuccess(log).Some? {
        var k :| 0 <= k < |log| - 1 && log[1..][k].outcome == Answered(FirstSuccess(log).value)
              && forall j :: 0 <= j < k ==> log[1..][j].outcome.Failed?;
        assert forall j :: 0 < j < k + 1 ==> log[j] == log[1..][j - 1];
        assert log[k + 1].outcome == Answered(FirstSuccess(log).value);
      }
    }
  }

  /** Everything sent so far, in the order it entered the channel. */
  function Log<R>(s: State<R>): seq<Item<R>> { s.attempts + s.queue }

  ghost predicate Listed<R>(log: seq<Item<R>>, i: nat) {
    exists k :: 0 <= k < |log| && log[k].provider == i
  }

  /** A row of the log holds the outcome of a worker past its send. */
  ghost predicate Row<R>(ws: seq<Worker<R>>, item: Item<R>) {
    item.provider < |ws|
    && ws[item.provider].Rank() >= 2
    && ws[item.provider].outcome == item.outcome
  }

  /** Nothing lost: the log holds one row for each worker past its send, and no other. */
  ghost predicate Faithful<R>(ws: seq<Worker<R>>, log: seq<Item<R>>) {
    && |log| == Tally(ws, 2)
    && (forall k :: 0 <= k < |log| ==> Row(ws, log[k]))
    && (forall j, k :: 0 <= j < k < |log| ==> log[j].provider != log[k].provider)
    && (forall i :: 0 <= i < |ws| && ws[i].Rank() >= 2 ==> Listed(log, i))
  }

  ghost predicate Counted<R>(n: nat, s: State<R>) {
    && |s.workers| <= n
    && (!s.main.Launching? ==> |s.workers| == n)
    && s.wg == |s.workers| - Tally(s.workers, 3)
    && (s.closed ==> !s.main.Launching? && s.wg == 0)
    && s.dropped == []
    && !s.crashed
  }

  /** The collector's two loops and the winner channel. */
  ghost predicate Collected<R>(s: State<R>) {
    && s.winner == FirstSuccess(s.attempts)
    && match s.main
       case Launching => s.attempts == [] && !s.cancelled
       case Receiving => s.winner.None? && !s.cancelled
       case Draining => s.winner.Some? && s.cancelled
       case Finished(r) => r == s.winner && s.closed && s.queue == []
  }

  ghost predicate Inv<R>(n: nat, s: State<R>) {
    Counted(n, s) && Faithful(s.workers, Log(s)) && Collected(s)
  }

  /** A worker about to send finds the channel open and room in its buffer. */
  lemma RoomToSend<R>(n: nat, s: State<R>, i: nat)
    requires Counted(n, s) && |Log(s)| == Tally(s.workers, 2) && Active(s, i, 1)
    ensures !s.closed && |s.queue| < n
  {
    TallyFull(s.workers, 2);
    TallyFull(s.workers, 3);
  }

  lemma FaithfulLaunch<R>(ws: seq<Worker<R>>, log: seq<Item<R>>)
    requires Faithful(ws, log)
    ensures Faithful(ws + [Calling], log)
  {
    var after := ws + [Calling];
    assert after[..|ws|] == ws;
    forall k | 0 <= k < |log| ensures Row(after, log[k]) { assert Row(ws, log[k]); }
  }

  /** A step of one worker that neither crosses its send nor changes what it sent. */
  lemma FaithfulMark<R>(ws: seq<Worker<R>>, log: seq<Item<R>>, i: nat, w: Worker<R>)
    requires Faithful(ws, log) && i < |ws|
    requires ws[i].Rank() >= 2 <==> w.Rank() >= 2
    requires w.Rank() >= 2 ==> w.outcome == ws[i].outcome
    ensures Faithful(ws[i := w], log)
  {
    TallyUpdate(ws, i, w, 2);
    forall k | 0 <= k < |log| ensures Row(ws[i := w], log[k]) { assert Row(ws, log[k]); }
  }

  lemma FaithfulSend<R>(ws: seq<Worker<R>>, log: seq<Item<R>>, i: nat)
    requires Faithful(ws, log) && i < |ws| && ws[i].Rank() == 1
    ensures Faithful(ws[i := Sent(ws[i].outcome)], log + [Item(i, ws[i].outcome)])
  {
    var item := Item(i, ws[i].outcome);
    var after, longer := ws[i := Sent(item.outcome)], log + [item];
    TallyUpdate(ws, i, Sent(item.outcome), 2);
    forall k | 0 <= k < |log| ensures Row(after, longer[k]) && log[k].provider != i {
      assert Row(ws, log[k]);
    }
    forall j | 0 <= j < |after| && after[j].Rank() >= 2 ensures Listed(longer, j) {
      if j == i {
        assert longer[|log|].provider == j;
      } else {
        assert Listed(log, j);
        var k :| 0 <= k < |log| && log[k].provider == j;
        assert longer[k].provider == j;
      }
    }
  }

  lemma TallyLaunch<R>(ws: seq<Worker<R>>, rank: nat)
    requires rank > 0
    ensures Tally(ws + [Calling], rank) == Tally(ws, rank)
  {
    assert (ws + [Calling])[..|ws|] == ws;
  }

  lemma StepCounted<R(!new)>(n: nat, s: State<R>, step: Step<R>)
    requires Counted(n, s) && |Log(s)| == Tally(s.workers, 2) && Enabled(n, s, step)
    ensures Counted(n, Next(n, s, step))
  {
    hide Tally, Log;
    match step
    case Launch => TallyLaunch(s.workers, 3);
    case Return(i, o) => TallyUpdate(s.workers, i, Returned(o), 3);
    case Send(i) =>
      RoomToSend(n, s, i);
      TallyUpdate(s.workers, i, Sent(s.workers[i].outcome), 3);
    case Finish(i) => TallyUpdate(s.workers, i, Done(s.workers[i].outcome), 3);
    case Collect =>
    case Close =>
    case Receive =>
    case End =>
    case Expire =>
  }

  /** Receiving moves the head of the queue to the log's logged part: the log stays. */
  lemma LogStep<R(!new)>(n: nat, s: State<R>, step: Step<R>)
    requires Counted(n, s) && |Log(s)| == Tally(s.workers, 2) && Enabled(n, s, step)
    ensures Log(Next(n, s, step))
         == if step.Send? then Log(s) + [Item(step.i, s.workers[step.i].outcome)] else Log(s)
  {
    if step.Send? { RoomToSend(n, s, step.i); }
  }

  lemma StepFaithful<R(!new)>(n: nat, s: State<R>, step: Step<R>)
    requires Counted(n, s) && Faithful(s.workers, Log(s)) && Enabled(n, s, step)
    requires |Log(s)| == Tally(s.workers, 2)
    ensures Faithful(Next(n, s, step).workers, Log(Next(n, s, step)))
  {
    hide Faithful, Counted, Tally, Log;
    LogStep(n, s, step);
    match step
    case Launch => FaithfulLaunch(s.workers, Log(s));
    case Return(i, o) => FaithfulMark(s.workers, Log(s), i, Returned(o));
    case Send(i) => FaithfulSend(s.workers, Log(s), i);
    case Finish(i) => FaithfulMark(s.workers, Log(s), i, Done(s.workers[i].outcome));
    case Collect =>
    case Close =>
    case Receive =>
    case End =>
    case Expire =>
  }

  lemma StepCollected<R(!new)>(n: nat, s: State<R>, step: Step<R>)
    requires Collected(s) && Enabled(n, s, step)
    ensures Collected(Next(n, s, step))
  {
    if step.Receive? { FirstSuccessGrows(s.attempts, s.queue[0]); }
  }

  lemma InvStep<R(!new)>(n: nat, s: State<R>, step: Step<R>)
    requires Inv(n, s) && Enabled(n, s, step)
    ensures Inv(n, Next(n, s, step))
  {
    StepFaithful(n, s, step);
    StepCounted(n, s, step);
    StepCollected(n, s, step);
  }

  /**
   * In every run, under every interleaving: no result is lost, no send meets a
   * full or a closed channel, the log holds each finished provider once, and
   * the winner is the first success received.
   */
  lemma {:induction false} InvAlways<R(!new)>(n: nat, steps: seq<Step<R>>)
    requires Legal(n, steps)
    ensures Inv(n, After(n, steps))
  {
    if steps != [] {
      var before := steps[..|steps| - 1];
      var step := steps[|steps| - 1];
      InvAlways(n, before);
      InvStep(n, After(n, before), step);
    }
  }

  /** A provider's send is taken by the buffer at once: it never blocks, drops or panics. */
  lemma SendNeverFails<R(!new)>(n: nat, steps: seq<Step<R>>, i: nat)
    requires Legal(n, steps) && Enabled(n, After(n, steps), Send(i))
    ensures var s := After(n, steps);
            var t := Next(n, s, Send(i));
            t.queue == s.queue + [Item(i, s.workers[i].outcome)] && t.dropped == [] && !t.crashed
  {
    InvAlways(n, steps);
    RoomToSend(n, After(n, steps), i);
  }

  // --------------------------------------------------- progress and the end

  function Flag(b: bool): nat { if b then 1 else 0 }

  /** The stages the workers have passed, together. */
  function Work<R>(ws: seq<Worker<R>>): (w: nat)
    ensures w <= 3 * |ws|
  {
    if ws == [] then 0 else Work(ws[..|ws| - 1]) + ws[|ws| - 1].Rank()
  }

  lemma {:induction false} WorkUpdate<R>(ws: seq<Worker<R>>, i: nat, w: Worker<R>)
    requires i < |ws|
    ensures Work(ws[i := w]) == Work(ws) - ws[i].Rank() + w.Rank()
  {
    var last := |ws| - 1;
    if i == last {
      assert ws[i := w][..last] == ws[..last];
    } else {
      WorkUpdate(ws[..last], i, w);
      assert ws[i := w][..last] == ws[..last][i := w];
    }
  }

  lemma WorkLaunch<R>(ws: seq<Worker<R>>)
    ensures Work(ws + [Calling]) == Work(ws)
  {
    assert (ws + [Calling])[..|ws|] == ws;
  }

  lemma {:induction false} WorkFull<R>(ws: seq<Worker<R>>)
    ensures Work(ws) == 3 * |ws| <==> Tally(ws, 3) == |ws|
  {
    if ws != [] { WorkFull(ws[..|ws| - 1]); }
  }

  /** How far a run has come: every step adds exactly one. */
  function Progress<R>(s: State<R>): nat {
    |s.workers| + Work(s.workers)
    + |s.attempts| + Flag(s.closed) + Flag(!s.main.Launching?) + Flag(s.main.Finished?)
    + Flag(s.expired)
  }

  lemma StepProgress<R(!new)>(n: nat, s: State<R>, step: Step<R>)
    requires Counted(n, s) && |Log(s)| == Tally(s.workers, 2) && Enabled(n, s, step)
    ensures Progress(Next(n, s, step)) == Progress(s) + 1
  {
    hide Work, Tally, Log, Counted;
    if step.Launch? || step.Return? || step.Send? || step.Finish? {
      WorkerProgress(n, s, step);
    }
  }

  lemma WorkerProgress<R(!new)>(n: nat, s: State<R>, step: Step<R>)
    requires Counted(n, s) && |Log(s)| == Tally(s.workers, 2) && Enabled(n, s, step)
    requires step.Launch? || step.Return? || step.Send? || step.Finish?
    ensures Progress(Next(n, s, step)) == Progress(s) + 1
  {
    hide Work, Tally, Log, Counted;
    match step
    case Launch => WorkLaunch(s.workers);
    case Return(i, o) => WorkUpdate(s.workers, i, Returned(o));
    case Send(i) =>
      RoomToSend(n, s, i);
      WorkUpdate(s.workers, i, Sent(s.workers[i].outcome));
    case Finish(i) => WorkUpdate(s.workers, i, Done(s.workers[i].outcome));
  }

  lemma {:induction false} ProgressCountsSteps<R(!new)>(n: nat, steps: seq<Step<R>>)
    requires Legal(n, steps)
    ensures Progress(After(n, steps)) == |steps|
  {
    if steps != [] {
      var before := steps[..|steps| - 1];
      ProgressCountsSteps(n, before);
      InvAlways(n, before);
      StepProgress(n, After(n, before), steps[|steps| - 1]);
    }
  }

  /** Every live goroutine is inside a provider call and there is nothing to receive. */
  predicate OnlyCallsLeft<R>(s: State<R>) {
    |s.queue| == 0 && forall i :: 0 <= i < |s.workers| ==> s.workers[i].Calling? || s.workers[i].Done?
  }

  /**
   * No deadlock: an unfinished fan-out always has a step it can take, and that step is a
   * provider's return only when every live goroutine is inside a provider call and the
   * collector has nothing to receive.
   */
  lemma SomeStep<R(!new)>(n: nat, s: State<R>, o: Outcome<R>) returns (step: Step<R>)
    requires Inv(n, s) && !s.main.Finished?
    ensures Enabled(n, s, step) && !step.Expire?
    ensures step.Return? ==> OnlyCallsLeft(s)
  {
    TallyFull(s.workers, 3);
    if s.main.Launching? {
      step := if |s.workers| < n then Launch else Collect;
    } else if s.queue != [] {
      step := Receive;
    } else if s.closed {
      step := End;
    } else if s.wg == 0 {
      step := Close;
    } else if i :| 0 <= i < |s.workers| && s.workers[i].Returned? {
      step := Send(i);
    } else if i :| 0 <= i < |s.workers| && s.workers[i].Sent? {
      step := Finish(i);
    } else {
      var i :| 0 <= i < |s.workers| && s.workers[i].Rank() < 3;
      step := Return(i, o);
    }
  }

  /** The steps of a run that belong to the fan-out; the budget's expiry is the only other. */
  function OwnSteps<R(!new)>(n: nat, steps: seq<Step<R>>): int
    requires Legal(n, steps)
  {
    |steps| - Flag(After(n, steps).expired)
  }

  /**
   * Termination under every schedule in which the provider calls return. A run has at most
   * 5n + 3 steps of its own, has returned exactly when it has that many, and until then it
   * can go on; only goroutines inside a provider call can hold it up.
   */
  lemma EveryRunReturns<R(!new)>(n: nat, steps: seq<Step<R>>, o: Outcome<R>)
    requires Legal(n, steps)
    ensures OwnSteps(n, steps) <= 5 * n + 3
    ensures After(n, steps).main.Finished? <==> OwnSteps(n, steps) == 5 * n + 3
    ensures OwnSteps(n, steps) < 5 * n + 3 ==>
              exists step :: Enabled(n, After(n, steps), step) && !step.Expire?
                             && (step.Return? ==> OnlyCallsLeft(After(n, steps)))
  {
    var s := After(n, steps);
    InvAlways(n, steps);
    ProgressCountsSteps(n, steps);
    TallyFull(s.workers, 2);
    TallyFull(s.workers, 3);
    WorkFull(s.workers);
    if !s.main.Finished? {
      var step := SomeStep(n, s, o);
    }
  }

  // ------------------------------------------- what the caller gets returned

  /** The sends of a run, in the order the scheduler took them. */
  function Sends<R(!new)>(steps: seq<Step<R>>): seq<nat> {
    if steps == [] then []
    else
      var step := steps[|steps| - 1];
      Sends(steps[..|steps| - 1]) + if step.Send? then [step.i] else []
  }

  /** What a provider's call came back with in a run. */
  function Outcomes<R(!new)>(steps: seq<Step<R>>): map<nat, Outcome<R>> {
    if steps == [] then map[]
    else
      var step := steps[|steps| - 1];
      var before := Outcomes(steps[..|steps| - 1]);
      if step.Return? then before[step.i := step.outcome] else before
  }

  /** The log a run ought to produce, read off its steps alone. */
  function Transcript<R(!new)>(steps: seq<Step<R>>): seq<Option<Item<R>>> {
    var o := Outcomes(steps);
    seq(|Sends(steps)|, k requires 0 <= k < |Sends(steps)| =>
      var i := Sends(steps)[k];
      if i in o then Some(Item(i, o[i])) else None)
  }

  /** The workers' states agree with the calls that returned in the run. */
  ghost predicate Agree<R>(ws: seq<Worker<R>>, o: map<nat, Outcome<R>>) {
    && (forall i :: i in o ==> i < |ws| && ws[i].Rank() >= 1 && ws[i].outcome == o[i])
    && (forall i :: 0 <= i < |ws| && ws[i].Rank() >= 1 ==> i in o)
  }

  lemma AgreeMark<R>(ws: seq<Worker<R>>, i: nat, w: Worker<R>, o: map<nat, Outcome<R>>)
    requires Agree(ws, o) && i < |ws| && ws[i].Rank() >= 1 && w.Rank() >= 1 && w.outcome == ws[i].outcome
    ensures Agree(ws[i := w], o)
  {
  }

  lemma AgreeReturn<R>(ws: seq<Worker<R>>, i: nat, x: Outcome<R>, o: map<nat, Outcome<R>>)
    requires Agree(ws, o) && i < |ws|
    ensures Agree(ws[i := Returned(x)], o[i := x])
  {
  }

  lemma AgreeLaunch<R>(ws: seq<Worker<R>>, o: map<nat, Outcome<R>>)
    requires Agree(ws, o)
    ensures Agree(ws + [Calling], o)
  {
  }

  lemma AgreeStep<R(!new)>(n: nat, s: State<R>, step: Step<R>, o: map<nat, Outcome<R>>)
    requires Agree(s.workers, o) && Enabled(n, s, step)
    ensures Agree(Next(n, s, step).workers, if step.Return? then o[step.i := step.outcome] else o)
  {
    hide Agree;
    match step
    case Launch => AgreeLaunch(s.workers, o);
    case Return(i, x) => AgreeReturn(s.workers, i, x, o);
    case Send(i) => AgreeMark(s.workers, i, Sent(s.workers[i].outcome), o);
    case Finish(i) => AgreeMark(s.workers, i, Done(s.workers[i].outcome), o);
    case _ =>
  }

  lemma {:induction false} WorkersHoldOutcomes<R(!new)>(n: nat, steps: seq<Step<R>>)
    requires Legal(n, steps)
    ensures Agree(After(n, steps).workers, Outcomes(steps))
  {
    if steps != [] {
      hide Agree;
      var before := steps[..|steps| - 1];
      WorkersHoldOutcomes(n, before);
      AgreeStep(n, After(n, before), steps[|steps| - 1], Outcomes(before));
    } else {
      assert After(n, steps) == Start();
    }
  }

  /** The log lists the providers in the order of their sends. */
  lemma {:induction false} LogFollowsSends<R(!new)>(n: nat, steps: seq<Step<R>>)
    requires Legal(n, steps)
    ensures var log := Log(After(n, steps));
            |log| == |Sends(steps)|
            && forall k :: 0 <= k < |log| ==> log[k].provider == Sends(steps)[k]
  {
    hide Log, Next, Enabled, Tally, Counted, Listed, Row;
    if steps == [] {
      NothingLogged<R>();
    } else {
      var before := steps[..|steps| - 1];
      var step := steps[|steps| - 1];
      LogFollowsSends(n, before);
      InvAlways(n, before);
      LogStep(n, After(n, before), step);
    }
  }

  lemma NothingLogged<R(!new)>()
    ensures Log(Start<R>()) == []
  {
  }

  /** The log is the transcript of the run: first sent, first logged, nothing lost. */
  lemma LogIsTranscript<R(!new)>(n: nat, steps: seq<Step<R>>)
    requires Legal(n, steps)
    ensures var log := Log(After(n, steps));
            |log| == |Transcript(steps)|
            && forall k :: 0 <= k < |log| ==> Transcript(steps)[k] == Some(log[k])
  {
    InvAlways(n, steps);
    LogFollowsSends(n, steps);
    WorkersHoldOutcomes(n, steps);
  }

  /** A log of every worker holds a success exactly when some call succeeded. */
  lemma SuccessIff<R>(ws: seq<Worker<R>>, log: seq<Item<R>>, o: map<nat, Outcome<R>>)
    requires Faithful(ws, log) && Agree(ws, o)
    requires forall i :: 0 <= i < |ws| ==> ws[i].Rank() >= 2
    ensures FirstSuccess(log).Some? <==> exists i :: i in o && o[i].Answered?
  {
    FirstSuccessIff(log);
    forall i | i in o && o[i].Answered?
      ensures exists k :: 0 <= k < |log| && log[k].outcome.Answered?
    {
      assert Listed(log, i);
      var k :| 0 <= k < |log| && log[k].provider == i;
      assert Row(ws, log[k]);
    }
    forall k | 0 <= k < |log| && log[k].outcome.Answered?
      ensures exists i :: i in o && o[i].Answered?
    {
      assert Row(ws, log[k]) && log[k].provider in o;
    }
  }

  /**
   * What fanOutFast returns, whatever the interleaving. The attempt log has one
   * row per fast provider, holding what its call came back with, in the order of
   * the sends; the response is the first success in that order; and there is one
   * exactly when some provider call succeeded.
   */
  lemma ReturnsFirstSuccess<R(!new)>(n: nat, steps: seq<Step<R>>)
    requires Legal(n, steps) && After(n, steps).main.Finished?
    ensures var s := After(n, steps);
      && |s.attempts| == n == |Transcript(steps)|
      && (forall k :: 0 <= k < n ==> Transcript(steps)[k] == Some(s.attempts[k]))
      && (forall i :: 0 <= i < n ==> Listed(s.attempts, i))
      && (forall j, k :: 0 <= j < k < n ==> s.attempts[j].provider != s.attempts[k].provider)
    ensures After(n, steps).main.result == FirstSuccess(After(n, steps).attempts)
    ensures After(n, steps).main.result.Some?
       <==> exists i :: i in Outcomes(steps) && Outcomes(steps)[i].Answered?
  {
    hide After, Legal, Transcript, Outcomes, FirstSuccess, Row;
    var s := After(n, steps);
    InvAlways(n, steps);
    LogIsTranscript(n, steps);
    WorkersHoldOutcomes(n, steps);
    assert Log(s) == s.attempts;
    TallyFull(s.workers, 2);
    TallyFull(s.workers, 3);
    SuccessIff(s.workers, s.attempts, Outcomes(steps));
  }

  /** The context the provider calls see: cancelled by the collector, or its parent's budget is spent. */
  predicate ContextDone<R>(s: State<R>) {
    s.cancelled || s.expired
  }

  /**
   * The losers are cancelled as soon as there is a winner and not before: until the return
   * the calls' context is done exactly when a success was received or the parent expired.
   */
  lemma CancelledIffWon<R(!new)>(n: nat, steps: seq<Step<R>>)
    requires Legal(n, steps) && !After(n, steps).main.Finished?
    ensures ContextDone(After(n, steps)) <==>
              || After(n, steps).expired
              || exists k :: 0 <= k < |After(n, steps).attempts| && After(n, steps).attempts[k].outcome.Answered?
  {
    InvAlways(n, steps);
    FirstSuccessIff(After(n, steps).attempts);
  }

  /** The caller waits for every provider: nothing is returned before each call has come back. */
  lemma ReturnsOnlyAfterAll<R(!new)>(n: nat, steps: seq<Step<R>>)
    requires Legal(n, steps) && After(n, steps).main.Finished?
    ensures forall i: nat :: i < n ==> i in Outcomes(steps)
  {
    var s := After(n, steps);
    InvAlways(n, steps);
    WorkersHoldOutcomes(n, steps);
    TallyFull(s.workers, 3);
    forall i: nat | i < n ensures i in Outcomes(steps) {
      assert s.workers[i].Rank() >= 3;
    }
  }

  lemma Extend<R(!new)>(n: nat, steps: seq<Step<R>>, step: Step<R>)
    requires Legal(n, steps) && Enabled(n, After(n, steps), step)
    ensures Legal(n, steps + [step]) && After(n, steps + [step]) == Next(n, After(n, steps), step)
  {
    assert (steps + [step])[..|steps|] == steps;
  }

  /** In some run a success has been received while a provider is still in its call, so nothing is returned yet. */
  ghost predicate CanWait<R(!new)>(n: nat) {
    exists steps: seq<Step<R>> :: Legal(n, steps) && Waiting(After(n, steps))
  }

  ghost predicate Waiting<R>(s: State<R>) {
    s.winner.Some? && !s.main.Finished? && exists i :: Active(s, i, 0)
  }

  lemma {:induction false} AllLaunched<R(!new)>(n: nat, m: nat) returns (steps: seq<Step<R>>)
    requires m <= n
    ensures Legal(n, steps)
    ensures var s := After(n, steps);
            && s == Start<R>().(workers := s.workers, wg := m)
            && |s.workers| == m && forall i :: 0 <= i < m ==> s.workers[i].Calling?
  {
    steps := [];
    if m > 0 {
      var before := AllLaunched<R>(n, m - 1);
      Extend(n, before, Launch);
      steps := before + [Launch];
    }
  }

  /**
   The collector is described as waiting "for the first success or until every goroutine finishes". It
   does not stop at the first success: with n providers a received success can be kept waiting for
   another provider's call exactly when n is at least two.
   */
  lemma WinnerWaitsIff<R(!new)>(n: nat, r: R)
    ensures CanWait<R>(n) <==> n >= 2
  {
    if n >= 2 {
      var steps := WinnerWaits(n, r);
    } else {
      forall steps: seq<Step<R>> | Legal(n, steps) ensures !Waiting(After(n, steps)) {
        InvAlways(n, steps);
        LoneWinner(n, After(n, steps));
      }
    }
  }

  lemma LoneWinner<R>(n: nat, s: State<R>)
    requires Inv(n, s) && n <= 1
    ensures !Waiting(s)
  {
    FirstSuccessIff(s.attempts);
    if s.winner.Some? {
      var k :| 0 <= k < |s.attempts| && s.attempts[k].outcome.Answered?;
      assert Log(s)[k] == s.attempts[k];
      assert Row(s.workers, Log(s)[k]);
    }
  }

  /** With two or more providers: all are called, the first answers and is received, the others are still called. */
  lemma WinnerWaits<R(!new)>(n: nat, r: R) returns (steps: seq<Step<R>>)
    requires n >= 2
    ensures Legal(n, steps) && Waiting(After(n, steps))
    ensures After(n, steps).winner == Some(r) && After(n, steps).main.Draining?
    ensures !Enabled(n, After(n, steps), End)
  {
    hide Legal, After, Next, Enabled, Waiting;
    steps := AllLaunched<R>(n, n);
    FirstReceived(n, After(n, steps), r);
    Extend(n, steps, Collect);
    steps := steps + [Collect];
    Extend(n, steps, Return(0, Answered(r)));
    steps := steps + [Return(0, Answered(r))];
    Extend(n, steps, Send(0));
    steps := steps + [Send(0)];
    Extend(n, steps, Receive);
    steps := steps + [Receive];
  }

  /** Once all are launched, provider 0 can answer and have its answer received before any other returns. */
  lemma FirstReceived<R(!new)>(n: nat, s: State<R>, r: R)
    requires n >= 2 && s == Start<R>().(workers := s.workers, wg := n)
    requires |s.workers| == n && forall i :: 0 <= i < n ==> s.workers[i].Calling?
    ensures Enabled(n, s, Collect)
    ensures var s1 := Next(n, s, Collect);
            && Enabled(n, s1, Return(0, Answered(r)))
            && var s2 := Next(n, s1, Return(0, Answered(r)));
            && Enabled(n, s2, Send(0))
            && var s3 := Next(n, s2, Send(0));
            && Enabled(n, s3, Receive)
            && var s4 := Next(n, s3, Receive);
            && Waiting(s4) && s4.winner == Some(r) && s4.main.Draining? && !Enabled(n, s4, End)
  {
    var s4 := Next(n, Next(n, Next(n, Next(n, s, Collect), Return(0, Answered(r))), Send(0)), Receive);
    assert Active(s4, 1, 0);
  }

  // ------------------------------------------------------ the collector loop

  /**
   * The collector's loops over the messages the channel yields before it is
   * closed: log each, stop at the first success, drain the rest.
   */
  method CollectResults<R>(results: seq<Item<R>>) returns (attempts: seq<Item<R>>, w: Option<R>)
    ensures attempts == results
    ensures w == FirstSuccess(results)
    ensures w.None? <==> forall k :: 0 <= k < |results| ==> results[k].outcome.Failed?
    ensures w.Some? ==>
      exists k :: 0 <= k < |results| && results[k].outcome == Answered(w.value)
        && forall j :: 0 <= j < k ==> results[j].outcome.Failed?
  {
    FirstSuccessIff(results);
    attempts, w := [], None;
    var k := 0;
    while k < |results|
      invariant 0 <= k <= |results|
      invariant attempts == results[..k]
      invariant w.None? && FirstSuccess(results) == FirstSuccess(results[k..])
    {
      var res := results[k];
      k := k + 1;
      attempts := attempts + [res];
      if res.outcome.Answered? {
        w := Some(res.outcome.response);
        while k < |results|
          invariant 0 <= k <= |results|
          invariant attempts == results[..k]
        {
          attempts := attempts + [results[k]];
          k := k + 1;
        }
        break;
      }
      assert results[k - 1..][1..] == results[k..];
    }
  }
}
