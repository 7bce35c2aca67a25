/**
 What governance promises over whole runs, and the runs in which it does not: how long a pause
 lasts, when an owner transfer takes effect, and what signatures alone do.
 */
module GovernanceRuns {
  import opened CasperValues
  import opened Wrappers
  import opened Governance

  lemma AfterStep(s: State, txs: seq<Tx>, k: nat)
    requires k < |txs|
    ensures After(s, txs, k + 1)
         == if Commits(s, txs, k) then Apply(After(s, txs, k), txs[k]).value else After(s, txs, k)
  {
  }

  lemma AfterNone(s: State, txs: seq<Tx>)
    ensures After(s, txs, 0) == s
  {
  }

  lemma PidValid(n: U64)
    ensures ValidString(PidOf(n))
  {
    NumberedIdShort("G-", n);
  }

  // ---- the owner can always be named ----

  /** The owner, and every owner a filed transfer would install, is some account's text. */
  ghost predicate Named(s: State) {
    && s.owner != ""
    && forall pid :: pid in s.proposals && s.proposals[pid].kind == "owner_transfer" ==> s.proposals[pid].payload != ""
  }

  lemma NamedStep(s: State, tx: Tx)
    requires Named(s) && Apply(s, tx).Ok?
    ensures Named(Apply(s, tx).value)
  {
    hide PidOf, Sign;
    if tx.call.SignRecovery? { SignKeepsNames(s, tx.caller, tx.call.candidate, tx.now); }
  }

  lemma SignKeepsNames(s: State, caller: string, candidate: string, now: U64)
    requires Sign(s, caller, candidate, now).Ok?
    ensures Sign(s, caller, candidate, now).value.proposals == s.proposals
    ensures Sign(s, caller, candidate, now).value.owner == s.owner
  {
  }

  lemma {:induction false} NamedAlways(s: State, txs: seq<Tx>, k: nat)
    requires Named(s) && k <= |txs|
    ensures Named(After(s, txs, k))
  {
    hide Named, Apply;
    if k > 0 {
      NamedAlways(s, txs, k - 1);
      AfterStep(s, txs, k - 1);
      if Commits(s, txs, k - 1) { NamedStep(After(s, txs, k - 1), txs[k - 1]); }
    }
  }

  // ---- how long a pause lasts ----

  /** The end of the timelock of something filed at time t. */
  function Bound(s: State, t: U64): U64 {
    SatAdd(t, SatMul(s.timelockSecs, 1000))
  }

  predicate PendingUnpause(p: Proposal) {
    p.kind == "unpause" && !p.cancelled && !p.executed
  }

  /** On file at a pause at time t: a pending unpause proposal that is ready before a new one could be. */
  ghost predicate StaleUnpause(s: State, t: U64) {
    t < Bound(s, t)
    && exists pid :: pid in s.proposals && PendingUnpause(s.proposals[pid])
                     && s.proposals[pid].executableAt < Bound(s, t)
  }

  predicate Within(txs: seq<Tx>, k: nat, lo: U64, hi: U64)
    requires k <= |txs|
  {
    (k > 0 ==> lo < hi) && forall i :: 0 <= i < k ==> lo <= txs[i].now < hi
  }

  /** A pause at time t outlasts every continuation up to the end of the timelock counted from it. */
  ghost predicate PauseHolds(s: State, t: U64) {
    forall later: seq<Tx>, k: nat :: k <= |later| && Within(later, k, t, Bound(s, t)) ==> After(s, later, k).paused != 0
  }

  /** Paused, and no pending unpause proposal is ready before the bound. */
  ghost predicate HeldUntil(s: State, bound: U64) {
    && s.paused != 0
    && forall pid :: pid in s.proposals && PendingUnpause(s.proposals[pid]) ==> s.proposals[pid].executableAt >= bound
  }

  lemma LaterBound(s: State, t: U64, now: U64)
    requires t <= now
    ensures Bound(s, t) <= Bound(s, now)
  {
    hide SatMul;
  }

  lemma HeldAdd(s: State, kind: string, payload: string, now: U64, bound: U64)
    requires HeldUntil(s, bound) && AddProposal(s, kind, payload, now).Ok? && bound <= Bound(s, now)
    ensures HeldUntil(AddProposal(s, kind, payload, now).value, bound)
  {
    hide PidOf, SatAdd, SatMul;
  }

  lemma HeldStep(s: State, tx: Tx, t: U64, bound: U64)
    requires HeldUntil(s, bound) && Apply(s, tx).Ok? && 0 < t <= tx.now < bound && bound == Bound(s, t)
    ensures HeldUntil(Apply(s, tx).value, bound) && Bound(Apply(s, tx).value, t) == bound
  {
    LaterBound(s, t, tx.now);
    hide PidOf, SatAdd, SatMul, Sign, AddProposal, Bound;
    match tx.call {
      case ProposeUnpause => HeldAdd(s, "unpause", "", tx.now, bound);
      case SignRecovery(candidate) =>
        SignKeepsNames(s, tx.caller, candidate, tx.now);
        SignKeepsPause(s, tx.caller, candidate, tx.now);
      case _ =>
    }
    TimelockKept(s, tx, t);
  }

  lemma TimelockKept(s: State, tx: Tx, t: U64)
    requires Apply(s, tx).Ok?
    ensures Bound(Apply(s, tx).value, t) == Bound(s, t)
  {
    GuardiansStep(s, tx);
  }

  lemma SignKeepsPause(s: State, caller: string, candidate: string, now: U64)
    requires Sign(s, caller, candidate, now).Ok?
    ensures Sign(s, caller, candidate, now).value.paused == s.paused
  {
  }

  lemma {:induction false} HeldAlways(s: State, txs: seq<Tx>, k: nat, t: U64, bound: U64)
    requires HeldUntil(s, bound) && 0 < t && bound == Bound(s, t) && k <= |txs| && Within(txs, k, t, bound)
    ensures HeldUntil(After(s, txs, k), bound) && Bound(After(s, txs, k), t) == bound
  {
    hide HeldUntil, Apply, Bound;
    AfterNone(s, txs);
    if k > 0 {
      HeldAlways(s, txs, k - 1, t, bound);
      AfterStep(s, txs, k - 1);
      if Commits(s, txs, k - 1) { HeldStep(After(s, txs, k - 1), txs[k - 1], t, bound); }
    }
  }

  /** A pending unpause proposal ends a pause as soon as it is ready. */
  lemma StaleEnds(s: State, pid: string, now: U64) returns (later: seq<Tx>)
    requires Inv(s) && Named(s) && pid in s.proposals && PendingUnpause(s.proposals[pid])
    requires s.proposals[pid].executableAt <= now
    ensures |later| == 1 && later[0].now == now && After(s, later, 1).paused == 0
  {
    later := [Tx(s.owner, now, ExecuteUnpause(pid))];
    FiledPidValid(s, pid);
    AfterNone(s, later);
    AfterStep(s, later, 0);
    UnpauseCommits(s, pid, now);
    hide After, Apply;
  }

  lemma FiledPidValid(s: State, pid: string)
    requires Inv(s) && pid in s.proposals
    ensures ValidString(pid)
  {
    hide PidOf, Signatures;
    var n :| 1 <= n <= s.counter && pid == PidOf(n);
    PidValid(n);
  }

  lemma UnpauseCommits(s: State, pid: string, now: U64)
    requires s.owner != "" && ValidString(pid) && pid in s.proposals && PendingUnpause(s.proposals[pid])
    requires s.proposals[pid].executableAt <= now
    ensures var r := Apply(s, Tx(s.owner, now, ExecuteUnpause(pid))); r.Ok? && r.value.paused == 0
  {
  }

  /**
   How long a pause lasts. In every run from installation, an effective pause at time t outlasts every
   transaction before the end of the timelock counted from t exactly when no pending unpause proposal
   that is ready before that end was already on file.
   */
  lemma PauseHoldsIff(owner: Account, g1: string, g2: string, g3: string, txs: seq<Tx>, k: nat)
    requires k < |txs| && txs[k].call == EmergencyPause && txs[k].now != 0
    requires Commits(Installed(owner, g1, g2, g3), txs, k)
    ensures var s := Installed(owner, g1, g2, g3);
            PauseHolds(After(s, txs, k + 1), txs[k].now) <==> !StaleUnpause(After(s, txs, k), txs[k].now)
  {
    hide Apply, Inv, Named, Bound, PendingUnpause;
    var s := Installed(owner, g1, g2, g3);
    InstalledInv(owner, g1, g2, g3);
    InstalledNamed(owner, g1, g2, g3);
    InvAlways(s, txs, k + 1);
    NamedAlways(s, txs, k + 1);
    AfterStep(s, txs, k);
    Pausing(After(s, txs, k), txs[k]);
    PauseHoldsHere(After(s, txs, k + 1), txs[k].now);
    SameStale(After(s, txs, k), After(s, txs, k + 1), txs[k].now);
  }

  lemma InstalledNamed(owner: Account, g1: string, g2: string, g3: string)
    ensures Named(Installed(owner, g1, g2, g3))
  {
  }

  lemma Pausing(s: State, tx: Tx)
    requires Apply(s, tx).Ok? && tx.call == EmergencyPause
    ensures Apply(s, tx).value == s.(paused := tx.now)
  {
  }

  lemma SameStale(s: State, u: State, t: U64)
    requires u == s.(paused := t)
    ensures StaleUnpause(s, t) == StaleUnpause(u, t)
  {
    hide SatAdd, SatMul, PendingUnpause;
  }

  lemma PauseHoldsHere(u: State, t: U64)
    requires Inv(u) && Named(u) && u.paused == t != 0
    ensures PauseHolds(u, t) <==> !StaleUnpause(u, t)
  {
    hide Inv, Named, Apply, Bound, PendingUnpause, After;
    var bound := Bound(u, t);
    if StaleUnpause(u, t) {
      var pid :| pid in u.proposals && PendingUnpause(u.proposals[pid]) && u.proposals[pid].executableAt < bound;
      var at := if u.proposals[pid].executableAt > t then u.proposals[pid].executableAt else t;
      var later := StaleEnds(u, pid, at);
      assert Within(later, 1, t, bound);
    } else {
      forall later: seq<Tx>, k: nat | k <= |later| && Within(later, k, t, bound)
        ensures After(u, later, k).paused != 0
      {
        if t < bound {
          HeldAlways(u, later, k, t, bound);
        } else {
          assert k == 0;
          AfterNone(u, later);
        }
      }
    }
  }

  /**
   The documented purpose of the timelock on unpausing fails: an unpause proposal filed by the owner
   while the contract is live undoes a guardian's pause in the block in which it was made.
   */
  lemma PauseUndoneAtOnce()
    ensures var s := Installed("o", "g", "h", "k");
            var pid := PidOf(1);
            var txs := [Tx("o", 1, Propose("unpause", "x")), Tx("g", 172_800_001, EmergencyPause),
                        Tx("o", 172_800_001, ExecuteUnpause(pid))];
            && Commits(s, txs, 0) && Commits(s, txs, 1) && Commits(s, txs, 2)
            && After(s, txs, 2).paused != 0 && After(s, txs, 3).paused == 0
  {
    var s := Installed("o", "g", "h", "k");
    var pid := PidOf(1);
    var txs := [Tx("o", 1, Propose("unpause", "x")), Tx("g", 172_800_001, EmergencyPause),
                Tx("o", 172_800_001, ExecuteUnpause(pid))];
    hide PidOf;
    PidValid(1);
    AfterNone(s, txs);
    AfterStep(s, txs, 0);
    AfterStep(s, txs, 1);
    AfterStep(s, txs, 2);
  }

  // ---- when an owner transfer takes effect ----

  lemma ExecutedEffect(s: State, tx: Tx, pid: string)
    requires Inv(s) && Apply(s, tx).Ok?
    requires pid in Apply(s, tx).value.proposals && Apply(s, tx).value.proposals[pid].executed
    requires pid in s.proposals ==> !s.proposals[pid].executed
    ensures Executes(tx.call, pid) && pid in s.proposals
    ensures s.proposals[pid].payload == Apply(s, tx).value.proposals[pid].payload
    ensures Apply(s, tx).value.proposals[pid].executedAt == tx.now
    ensures s.proposals[pid].kind == Apply(s, tx).value.proposals[pid].kind
    ensures Apply(s, tx).value.owner
         == if tx.call == ExecuteOwnerTransfer(pid) then s.proposals[pid].payload else s.owner
  {
    hide Apply, Inv;
    if Executes(tx.call, pid) {
      ExecutionIs(s, tx, pid);
    } else {
      NotExecuted(s, tx, pid);
    }
  }

  lemma ExecutionIs(s: State, tx: Tx, pid: string)
    requires Executes(tx.call, pid) && Apply(s, tx).Ok?
    ensures pid in s.proposals
    ensures var t, p := Apply(s, tx).value, s.proposals[pid];
            && pid in t.proposals && t.proposals[pid] == p.(executed := true, cancelled := false, executedAt := tx.now)
            && t.owner == if tx.call == ExecuteOwnerTransfer(pid) then p.payload else s.owner
  {
  }

  /** No other transaction marks a proposal executed. */
  lemma NotExecuted(s: State, tx: Tx, pid: string)
    requires Apply(s, tx).Ok? && !Executes(tx.call, pid)
    requires pid in Apply(s, tx).value.proposals && Apply(s, tx).value.proposals[pid].executed
    ensures pid in s.proposals && s.proposals[pid].executed
  {
    hide PidOf, Sign;
    if tx.call.SignRecovery? { SignKeepsNames(s, tx.caller, tx.call.candidate, tx.now); }
  }

  /**
   Every executed owner-transfer proposal of a run was executed by one transaction, at its executedAt,
   and that transaction made the payload the owner exactly when it went through execute_owner_transfer
   (or the payload was the owner already).
   */
  lemma {:induction false} TransferTookEffectIff(s: State, txs: seq<Tx>, k: nat, pid: string) returns (j: nat)
    requires Inv(s) && s.proposals == map[] && k <= |txs|
    requires pid in After(s, txs, k).proposals && After(s, txs, k).proposals[pid].executed
    ensures var p := After(s, txs, k).proposals[pid];
            && j < k && Commits(s, txs, j) && Executes(txs[j].call, pid) && txs[j].now == p.executedAt
            && (After(s, txs, j + 1).owner == p.payload <==>
                  txs[j].call == ExecuteOwnerTransfer(pid) || After(s, txs, j).owner == p.payload)
            && (forall i :: 0 <= i < k && i != j && Executes(txs[i].call, pid) ==> !Commits(s, txs, i))
  {
    hide Apply, Inv;
    AfterNone(s, txs);
    AfterStep(s, txs, k - 1);
    InvAlways(s, txs, k - 1);
    var before := After(s, txs, k - 1);
    if pid in before.proposals && before.proposals[pid].executed {
      j := TransferTookEffectIff(s, txs, k - 1, pid);
      FlagsPermanent(s, txs, k - 1, k, pid);
      if Executes(txs[k - 1].call, pid) { ExecutedAtMostOnce(s, txs, j, k - 1, pid); }
    } else {
      j := k - 1;
      ExecutedEffect(before, txs[j], pid);
      forall i | 0 <= i < j && Executes(txs[i].call, pid) ensures !Commits(s, txs, i) {
        if Commits(s, txs, i) { ExecutedAtMostOnce(s, txs, i, j, pid); }
      }
    }
  }

  /**
   A proposal tagged owner_transfer that goes through the generic entry point is marked executed, leaves
   the owner as it is, and from then on no transaction of the run can make it rotate the owner.
   */
  lemma GenericExecuteNeverRotates(s: State, txs: seq<Tx>, j: nat, k: nat, pid: string)
    requires Inv(s) && j < |txs| && Commits(s, txs, j) && txs[j].call == Execute(pid)
    requires pid in After(s, txs, j).proposals && After(s, txs, j).proposals[pid].kind == "owner_transfer"
    requires j < k <= |txs|
    ensures After(s, txs, j + 1).owner == After(s, txs, j).owner
    ensures pid in After(s, txs, k).proposals && After(s, txs, k).proposals[pid].executed
            && After(s, txs, k).proposals[pid].kind == "owner_transfer"
    ensures k < |txs| && txs[k].call == ExecuteOwnerTransfer(pid) ==> !Commits(s, txs, k)
  {
    hide Apply, Inv;
    var before := After(s, txs, j);
    AfterStep(s, txs, j);
    InvAlways(s, txs, j);
    ExecutingMarks(before, txs[j], pid);
    ReadyNotExecuted(before.proposals[pid], txs[j].now);
    ExecutedEffect(before, txs[j], pid);
    FlagsPermanent(s, txs, j + 1, k, pid);
    if k < |txs| && txs[k].call == ExecuteOwnerTransfer(pid) { ExecutedAtMostOnce(s, txs, j, k, pid); }
  }

  lemma ReadyNotExecuted(p: Proposal, now: U64)
    requires ReadyError(p, now) == None
    ensures !p.executed && !p.cancelled
  {
  }

  /** Such a run: the transfer is filed, waits out the timelock, is executed the generic way, and is lost. */
  lemma TransferLost()
    ensures var s := Installed("o", "g", "h", "k");
            var pid := PidOf(1);
            var txs := [Tx("o", 1, ProposeOwnerTransfer("n")), Tx("o", 172_800_001, Execute(pid)),
                        Tx("o", 172_800_001, ExecuteOwnerTransfer(pid))];
            && Commits(s, txs, 0) && Commits(s, txs, 1)
            && Apply(After(s, txs, 2), txs[2]) == Err(AlreadyExecuted)
            && After(s, txs, 3).owner == "o"
            && pid in After(s, txs, 3).proposals
            && After(s, txs, 3).proposals[pid]
               == Proposal(pid, "owner_transfer", "n", 1, 172_800_001, 172_800_001, false, true)
  {
    var s := Installed("o", "g", "h", "k");
    var pid := PidOf(1);
    var txs := [Tx("o", 1, ProposeOwnerTransfer("n")), Tx("o", 172_800_001, Execute(pid)),
                Tx("o", 172_800_001, ExecuteOwnerTransfer(pid))];
    hide PidOf;
    PidValid(1);
    AfterNone(s, txs);
    AfterStep(s, txs, 0);
    AfterStep(s, txs, 1);
    AfterStep(s, txs, 2);
  }

  // ---- what signatures alone do ----

  /** Only the two dedicated executions ever change the owner; in particular no signing call does. */
  lemma OwnerChangesOnlyBy(s: State, txs: seq<Tx>, k: nat)
    requires k < |txs| && After(s, txs, k + 1).owner != After(s, txs, k).owner
    ensures txs[k].call.ExecuteOwnerTransfer? || txs[k].call.ExecuteRecovery?
    ensures !txs[k].call.SignRecovery?
  {
    hide Apply;
    AfterStep(s, txs, k);
    OwnerEffect(After(s, txs, k), txs[k]);
  }

  /**
   The documented finalisation by a further signing call does not happen: all three guardians sign for a
   candidate and the owner stays; the recovery call then installs the candidate.
   */
  lemma ThreeSignaturesDoNotRecover()
    ensures var s := Installed("o", "g", "h", "k");
            var txs := [Tx("g", 1, SignRecovery("n")), Tx("h", 1, SignRecovery("n")),
                        Tx("k", 1, SignRecovery("n")), Tx("k", 1, ExecuteRecovery("n"))];
            && Commits(s, txs, 0) && Commits(s, txs, 1) && Commits(s, txs, 2) && Commits(s, txs, 3)
            && After(s, txs, 3).owner == "o" && "n" in After(s, txs, 3).recovery
            && After(s, txs, 3).recovery["n"] == Recovery("g", "h", "k", 3, false, 1)
            && After(s, txs, 4).owner == "n"
  {
    var s := Installed("o", "g", "h", "k");
    var txs := [Tx("g", 1, SignRecovery("n")), Tx("h", 1, SignRecovery("n")),
                Tx("k", 1, SignRecovery("n")), Tx("k", 1, ExecuteRecovery("n"))];
    hide PidOf;
    AfterNone(s, txs);
    AfterStep(s, txs, 0);
    AfterStep(s, txs, 1);
    AfterStep(s, txs, 2);
    AfterStep(s, txs, 3);
  }

  /** Who owns the contract in any run from its installation. */
  lemma OwnerSinceInstallation(owner: Account, g1: string, g2: string, g3: string, txs: seq<Tx>, k: nat)
    returns (m: nat, i: nat, j: nat)
    requires k <= |txs|
    ensures var s := Installed(owner, g1, g2, g3);
            var now := After(s, txs, k).owner;
            || now == owner
            || (m < k && (TransferJustified(s, txs, m, now, j) || RecoveryJustified(s, txs, m, now, i, j)))
  {
    hide Apply, Inv, TransferJustified, RecoveryJustified, After;
    InstalledInv(owner, g1, g2, g3);
    m, i, j := EveryOwner(Installed(owner, g1, g2, g3), txs, k);
  }
}
