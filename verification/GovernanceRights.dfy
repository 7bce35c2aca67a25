/**
 Who may do what, and when: for each entry point exactly the callers and states in which it commits,
 what it then does, and why it reverts otherwise; and what a pause is for, over whole runs.
 */
module GovernanceRights {
  import opened CasperValues
  import opened Wrappers
  import opened Governance

  // ---- filing ----

  /** t is s with one more proposal, filed under an unused identifier and executable after the timelock. */
  ghost predicate Files(s: State, t: State, kind: string, payload: string, now: U64) {
    s.counter < U64_MAX && exists pid: string, at: U64 ::
      && pid !in s.proposals
      && at == (if now + 1000 * s.timelockSecs <= U64_MAX then now + 1000 * s.timelockSecs else U64_MAX)
      && t == s.(counter := s.counter + 1,
                 proposals := s.proposals[pid := Proposal(pid, kind, payload, now, at, 0, false, false)])
  }

  lemma AddFiles(s: State, kind: string, payload: string, now: U64)
    requires Inv(s)
    ensures var r := AddProposal(s, kind, payload, now);
            && (r.Err? <==> s.counter == U64_MAX) && (r.Err? ==> r.error == CounterOverflow)
            && (r.Ok? ==> Files(s, r.value, kind, payload, now))
  {
    hide PidOf, Signatures;
    FreshPid(s);
    if s.counter < U64_MAX {
      var pid, p := PidOf(s.counter + 1), NewProposal(s, kind, payload, now);
      assert p == Proposal(pid, kind, payload, now, p.executableAt, 0, false, false);
    }
  }

  /** A proposal is filed exactly by the owner, while live, with a kind and a payload of 1 to 256 characters. */
  lemma ProposeCommitsIff(s: State, caller: Account, now: U64, kind: string, payload: string)
    requires Inv(s)
    ensures var r := Apply(s, Tx(caller, now, Propose(kind, payload)));
            var sized := 1 <= |kind| <= 256 && 1 <= |payload| <= 256;
            && (r.Ok? <==> caller == s.owner && s.paused == 0 && sized && s.counter < U64_MAX)
            && (r.Ok? ==> Files(s, r.value, kind, payload, now))
            && (r == Err(NotOwner) <==> caller != s.owner)
            && (r == Err(Paused) <==> caller == s.owner && s.paused != 0)
            && (r == Err(InputTooLong) <==> caller == s.owner && s.paused == 0 && !sized)
  {
    hide Inv, AddProposal;
    AddFiles(s, kind, payload, now);
  }

  /** An unpause is filed exactly by the owner while paused. */
  lemma ProposeUnpauseCommitsIff(s: State, caller: Account, now: U64)
    requires Inv(s)
    ensures var r := Apply(s, Tx(caller, now, ProposeUnpause));
            && (r.Ok? <==> caller == s.owner && s.paused != 0 && s.counter < U64_MAX)
            && (r.Ok? ==> Files(s, r.value, "unpause", "", now))
            && (r == Err(NotOwner) <==> caller != s.owner)
            && (r == Err(NotPaused) <==> caller == s.owner && s.paused == 0)
  {
    hide Inv, AddProposal;
    AddFiles(s, "unpause", "", now);
  }

  /** An owner transfer is filed exactly by the owner, while live, to a name of 1 to 256 characters. */
  lemma ProposeOwnerTransferCommitsIff(s: State, caller: Account, now: U64, newOwner: string)
    requires Inv(s)
    ensures var r := Apply(s, Tx(caller, now, ProposeOwnerTransfer(newOwner)));
            var sized := 1 <= |newOwner| <= 256;
            && (r.Ok? <==> caller == s.owner && s.paused == 0 && sized && s.counter < U64_MAX)
            && (r.Ok? ==> Files(s, r.value, "owner_transfer", newOwner, now))
            && (r == Err(NotOwner) <==> caller != s.owner)
            && (r == Err(Paused) <==> caller == s.owner && s.paused != 0)
            && (r == Err(InputTooLong) <==> caller == s.owner && s.paused == 0 && !sized)
  {
    hide Inv, AddProposal;
    AddFiles(s, "owner_transfer", newOwner, now);
  }

  // ---- executing and cancelling ----

  predicate OnFile(s: State, pid: string) {
    1 <= |pid| <= 256 && pid in s.proposals
  }

  /** On file, neither cancelled nor executed, and past its timelock. */
  predicate Ready(s: State, pid: string, now: U64) {
    && OnFile(s, pid) && !s.proposals[pid].cancelled && !s.proposals[pid].executed
    && s.proposals[pid].executableAt <= now
  }

  /** s with the proposal marked executed at this time, everything else as it was. */
  function Marked(s: State, pid: string, now: U64): State
    requires pid in s.proposals
  {
    s.(proposals := s.proposals[pid := s.proposals[pid].(executed := true, executedAt := now)])
  }

  /** Why a proposal that is on file and of the right kind cannot be executed. */
  ghost predicate RefusedFor(r: Outcome, p: Proposal, now: U64) {
    && (r == Err(AlreadyCancelled) <==> p.cancelled)
    && (r == Err(AlreadyExecuted) <==> !p.cancelled && p.executed)
    && (r == Err(TimelockNotElapsed) <==> !p.cancelled && !p.executed && now < p.executableAt)
  }

  /** The generic execution: exactly the owner, while live, on a ready proposal of any kind; it only marks it. */
  lemma ExecuteCommitsIff(s: State, caller: Account, now: U64, pid: string)
    ensures var r := Apply(s, Tx(caller, now, Execute(pid)));
            && (r.Ok? <==> caller == s.owner && s.paused == 0 && Ready(s, pid, now))
            && (r.Ok? ==> r.value == Marked(s, pid, now))
            && (r == Err(NotOwner) <==> caller != s.owner)
            && (r == Err(Paused) <==> caller == s.owner && s.paused != 0)
            && (caller == s.owner && s.paused == 0 && OnFile(s, pid) ==> RefusedFor(r, s.proposals[pid], now))
  {
  }

  /** Unpausing: exactly the owner, on a ready unpause proposal, paused or not. */
  lemma ExecuteUnpauseCommitsIff(s: State, caller: Account, now: U64, pid: string)
    ensures var r := Apply(s, Tx(caller, now, ExecuteUnpause(pid)));
            && (r.Ok? <==> caller == s.owner && Ready(s, pid, now) && s.proposals[pid].kind == "unpause")
            && (r.Ok? ==> r.value == Marked(s, pid, now).(paused := 0))
            && (r == Err(NotOwner) <==> caller != s.owner)
            && (caller == s.owner && OnFile(s, pid) && s.proposals[pid].kind == "unpause" ==>
                  RefusedFor(r, s.proposals[pid], now))
            && (caller == s.owner && OnFile(s, pid) && s.proposals[pid].kind != "unpause" ==>
                  r == Err(ProposalNotFound))
  {
  }

  /** Rotating the owner: exactly the owner, on a ready transfer proposal, paused or not. */
  lemma ExecuteOwnerTransferCommitsIff(s: State, caller: Account, now: U64, pid: string)
    ensures var r := Apply(s, Tx(caller, now, ExecuteOwnerTransfer(pid)));
            && (r.Ok? <==> caller == s.owner && Ready(s, pid, now) && s.proposals[pid].kind == "owner_transfer")
            && (r.Ok? ==> r.value == Marked(s, pid, now).(owner := s.proposals[pid].payload))
            && (r == Err(NotOwner) <==> caller != s.owner)
            && (caller == s.owner && OnFile(s, pid) && s.proposals[pid].kind == "owner_transfer" ==>
                  RefusedFor(r, s.proposals[pid], now))
            && (caller == s.owner && OnFile(s, pid) && s.proposals[pid].kind != "owner_transfer" ==>
                  r == Err(ProposalNotFound))
  {
  }

  /** Cancelling: exactly the owner, on a proposal not yet executed, cancelled before or not, paused or not. */
  lemma CancelCommitsIff(s: State, caller: Account, now: U64, pid: string)
    ensures var r := Apply(s, Tx(caller, now, Cancel(pid)));
            && (r.Ok? <==> caller == s.owner && OnFile(s, pid) && !s.proposals[pid].executed)
            && (r.Ok? ==> r.value == s.(proposals := s.proposals[pid := s.proposals[pid].(cancelled := true)]))
            && (r == Err(NotOwner) <==> caller != s.owner)
            && (r == Err(AlreadyExecuted) <==> caller == s.owner && OnFile(s, pid) && s.proposals[pid].executed)
  {
  }

  // ---- guardians ----

  /** Pausing: exactly the owner or a guardian; nothing but the pause cell changes. */
  lemma EmergencyPauseCommitsIff(s: State, caller: Account, now: U64)
    ensures var r := Apply(s, Tx(caller, now, EmergencyPause));
            && (r.Ok? <==> caller == s.owner || IsGuardian(s.guardians, caller))
            && (r.Ok? ==> r.value == s.(paused := now))
            && (r.Err? ==> r.error == NotGuardian)
  {
  }

  /** Nobody is a guardian but those named at installation. */
  lemma OnlyNamedGuardians(owner: Account, g1: string, g2: string, g3: string, caller: Account)
    ensures IsGuardian(Installed(owner, g1, g2, g3).guardians, caller) ==> caller in {g1, g2, g3}
  {
  }

  function RecordOf(s: State, candidate: string): Recovery {
    if candidate in s.recovery then s.recovery[candidate] else Recovery("", "", "", 0, false, 0)
  }

  /**
   Signing a recovery: exactly a guardian who has not signed for that candidate, or one whose signature
   comes after the recovery and changes nothing. It adds the caller to the signers, if a slot is free,
   and counts one more.
   */
  lemma SignRecoveryCommitsIff(s: State, caller: Account, now: U64, candidate: string)
    requires Inv(s)
    ensures var r, rec := Apply(s, Tx(caller, now, SignRecovery(candidate))), RecordOf(s, candidate);
            && (r.Ok? <==> IsGuardian(s.guardians, caller) && 1 <= |candidate| <= 256
                           && (rec.executed || !HasSigned(rec, caller)))
            && (r == Err(NotGuardian) <==> !IsGuardian(s.guardians, caller))
            && (r == Err(RecoveryAlreadySigned) <==>
                  IsGuardian(s.guardians, caller) && 1 <= |candidate| <= 256 && !rec.executed && HasSigned(rec, caller))
            && (r.Ok? && rec.executed ==> r.value == s)
            && (r.Ok? && !rec.executed ==>
                  && candidate in r.value.recovery
                  && var signed := r.value.recovery[candidate];
                     && r.value == s.(recovery := s.recovery[candidate := signed])
                     && !signed.executed && signed.ts == now
                     && signed.count == (if rec.count < U64_MAX then rec.count + 1 else U64_MAX)
                     && forall a :: HasSigned(signed, a) <==> HasSigned(rec, a) || (a == caller && rec.count < 3))
  {
    var rec := RecordOf(s, candidate);
    assert Signatures(rec);
    if !rec.executed && !HasSigned(rec, caller) { SlotFilled(rec, caller); }
    hide HasSigned;
  }

  /** The record with the caller in its first free slot, if there is one. */
  function InFirstSlot(rec: Recovery, caller: string): Recovery {
    if rec.sig1 == "" then rec.(sig1 := caller)
    else if rec.sig2 == "" then rec.(sig2 := caller)
    else if rec.sig3 == "" then rec.(sig3 := caller)
    else rec
  }

  lemma SlotFilled(rec: Recovery, caller: Account)
    requires Signatures(rec) && !HasSigned(rec, caller)
    ensures forall a :: HasSigned(InFirstSlot(rec, caller), a) <==> HasSigned(rec, a) || (a == caller && rec.count < 3)
    ensures forall a, n: U64, t: U64 ::
              HasSigned(InFirstSlot(rec, caller).(count := n, executed := false, ts := t), a)
              <==> HasSigned(InFirstSlot(rec, caller), a)
  {
  }

  /** With that, a recovery goes through for exactly an unexecuted candidate whom two guardians have signed for. */
  lemma ExecuteRecoveryCommitsIff(s: State, caller: Account, now: U64, candidate: string)
    requires Inv(s)
    ensures var r, rec := Apply(s, Tx(caller, now, ExecuteRecovery(candidate))), RecordOf(s, candidate);
            && (r.Ok? <==> IsGuardian(s.guardians, caller) && 1 <= |candidate| <= 256
                           && candidate in s.recovery && !rec.executed && rec.count >= 2)
            && (r.Ok? ==>
                  r.value == s.(owner := candidate, recovery := s.recovery[candidate := rec.(executed := true)]))
            && (r == Err(NotGuardian) <==> !IsGuardian(s.guardians, caller))
            && (r == Err(RecoveryInsufficientSigs) <==>
                  IsGuardian(s.guardians, caller) && 1 <= |candidate| <= 256
                  && candidate in s.recovery && !rec.executed && rec.count < 2)
  {
  }

  // ---- what a pause is for ----

  predicate StoppedByPause(call: Call) {
    call.Propose? || call.Execute? || call.ProposeOwnerTransfer?
  }

  /** A pause stops exactly three entry points: over both states of the pause cell the others behave alike. */
  lemma PauseStops(s: State, tx: Tx)
    ensures s.paused != 0 && StoppedByPause(tx.call) ==> Apply(s, tx).Err?
    ensures !StoppedByPause(tx.call) && !tx.call.ProposeUnpause? ==>
              forall p: U64 :: Apply(s.(paused := p), tx).Ok? <==> Apply(s, tx).Ok?
  {
    hide PidOf;
  }

  ghost predicate PausedFrom(s: State, txs: seq<Tx>, j: nat, k: nat)
    requires k <= |txs|
  {
    forall i :: j <= i < k ==> After(s, txs, i).paused != 0
  }

  lemma PausedStep(s: State, tx: Tx, pid: string)
    requires Inv(s) && s.paused != 0 && Apply(s, tx).Ok? && pid in Apply(s, tx).value.proposals
    ensures var p := Apply(s, tx).value.proposals[pid];
            && !StoppedByPause(tx.call)
            && (pid !in s.proposals ==> p.kind == "unpause" && tx.call == ProposeUnpause && tx.caller == s.owner)
            && (p.executed && (pid in s.proposals ==> !s.proposals[pid].executed) ==>
                  && pid in s.proposals && tx.caller == s.owner
                  && (tx.call == ExecuteUnpause(pid) || tx.call == ExecuteOwnerTransfer(pid)))
  {
    hide PidOf, Sign;
    if tx.call.SignRecovery? { SignKeepsProposals(s, tx.caller, tx.call.candidate, tx.now); }
  }

  /**
   What a pause is for: over a stretch of a run in which the contract is paused, the only proposals filed
   are unpause proposals, and the only ones executed are unpauses and owner transfers, through their own
   entry points and by the owner of that moment.
   */
  lemma {:induction false} PausedStretch(s: State, txs: seq<Tx>, j: nat, k: nat, pid: string) returns (i: nat)
    requires Inv(s) && j <= k <= |txs| && PausedFrom(s, txs, j, k) && pid in After(s, txs, k).proposals
    ensures var before, after := After(s, txs, j), After(s, txs, k);
            && (forall n :: j <= n < k && Commits(s, txs, n) ==> !StoppedByPause(txs[n].call))
            && (pid !in before.proposals ==> after.proposals[pid].kind == "unpause")
            && (after.proposals[pid].executed && (pid in before.proposals ==> !before.proposals[pid].executed) ==>
                  && j <= i < k && Commits(s, txs, i) && txs[i].caller == After(s, txs, i).owner
                  && (txs[i].call == ExecuteUnpause(pid) || txs[i].call == ExecuteOwnerTransfer(pid)))
    decreases k
  {
    hide Apply, Inv, PidOf, StoppedByPause;
    i := j;
    if j < k {
      var before := After(s, txs, k - 1);
      InvAlways(s, txs, k - 1);
      if Commits(s, txs, k - 1) {
        PausedStep(before, txs[k - 1], pid);
        if pid in before.proposals { SettledStep(before, txs[k - 1], pid); }
      }
      if pid in before.proposals {
        i := PausedStretch(s, txs, j, k - 1, pid);
        if After(s, txs, k).proposals[pid].executed && !before.proposals[pid].executed { i := k - 1; }
      } else {
        StretchCalls(s, txs, j, k);
      }
    }
  }

  lemma {:induction false} StretchCalls(s: State, txs: seq<Tx>, j: nat, k: nat)
    requires j <= k <= |txs| && PausedFrom(s, txs, j, k)
    ensures forall n :: j <= n < k && Commits(s, txs, n) ==> !StoppedByPause(txs[n].call)
  {
    hide Apply, StoppedByPause;
    forall n | j <= n < k && Commits(s, txs, n) ensures !StoppedByPause(txs[n].call) {
      PauseStops(After(s, txs, n), txs[n]);
    }
  }
}
