/**
 The governance contract: timelocked proposals, emergency pause and two-guardian owner recovery.
 An entry point either commits its whole effect or reverts it. Block time is milliseconds, part of
 each transaction, and need not be monotone. Flags stored as 0/1 integers are booleans here.
 */
module Governance {
  import opened CasperValues
  import opened Wrappers

  const DEFAULT_TIMELOCK_SECS := 48 * 60 * 60
  const MAX_STRING_LEN := 256

  /** The text of an account hash; it is never empty. */
  type Account = s: string | s != "" witness "a"

  datatype Error =
    | NotOwner
    | NotGuardian
    | ProposalNotFound
    | TimelockNotElapsed
    | AlreadyExecuted
    | AlreadyCancelled
    | Paused
    | NotPaused
    | InputTooLong
    | RecoveryAlreadySigned
    | RecoveryInsufficientSigs
    | CounterOverflow

  datatype Proposal = Proposal(
    pid: string, kind: string, payload: string,
    proposedAt: U64, executableAt: U64, executedAt: U64,
    cancelled: bool, executed: bool)

  datatype Recovery = Recovery(sig1: string, sig2: string, sig3: string, count: U64, executed: bool, ts: U64)

  datatype Guardians = Guardians(g1: string, g2: string, g3: string, count: nat)

  datatype State = State(
    owner: string, guardians: Guardians, paused: U64, timelockSecs: U64, counter: U64,
    proposals: map<string, Proposal>, recovery: map<string, Recovery>)

  datatype Call =
    | Propose(kind: string, payload: string)
    | Execute(pid: string)
    | Cancel(pid: string)
    | EmergencyPause
    | ProposeUnpause
    | ExecuteUnpause(pid: string)
    | ProposeOwnerTransfer(newOwner: string)
    | ExecuteOwnerTransfer(pid: string)
    | SignRecovery(candidate: string)
    | ExecuteRecovery(candidate: string)

  datatype Tx = Tx(caller: Account, now: U64, call: Call)

  type Outcome = Result<State, Error>

  // ---- the specification of each entry point ----

  function Installed(caller: Account, g1: string, g2: string, g3: string): State {
    var count := (if g1 != "" then 1 else 0) + (if g2 != "" then 1 else 0) + (if g3 != "" then 1 else 0);
    State(caller, Guardians(g1, g2, g3, count), 0, DEFAULT_TIMELOCK_SECS, 0, map[], map[])
  }

  predicate IsGuardian(g: Guardians, caller: string) {
    || (g.count >= 1 && caller == g.g1)
    || (g.count >= 2 && caller == g.g2)
    || (g.count >= 3 && caller == g.g3)
  }

  predicate ValidString(s: string) {
    0 < |s| <= MAX_STRING_LEN
  }

  function PidOf(n: nat): string {
    NumberedId("G-", n)
  }

  function SatAdd(a: nat, b: nat): U64 {
    if a + b > U64_MAX then U64_MAX else a + b
  }

  function SatMul(a: nat, b: nat): U64 {
    if a * b > U64_MAX then U64_MAX else a * b
  }

  function NewProposal(s: State, kind: string, payload: string, now: U64): Proposal {
    Proposal(PidOf(s.counter + 1), kind, payload, now, SatAdd(now, SatMul(s.timelockSecs, 1000)), 0, false, false)
  }

  function AddProposal(s: State, kind: string, payload: string, now: U64): Outcome {
    if s.counter == U64_MAX then Err(CounterOverflow) else
      var p := NewProposal(s, kind, payload, now);
      Ok(s.(counter := s.counter + 1, proposals := s.proposals[p.pid := p]))
  }

  /** The common guards of the three executing entry points, once the record is at hand. */
  function ReadyError(p: Proposal, now: U64): Option<Error> {
    if p.cancelled then Some(AlreadyCancelled)
    else if p.executed then Some(AlreadyExecuted)
    else if now < p.executableAt then Some(TimelockNotElapsed)
    else None
  }

  function MarkExecuted(s: State, pid: string, now: U64): State
    requires pid in s.proposals
  {
    s.(proposals := s.proposals[pid := s.proposals[pid].(executedAt := now, cancelled := false, executed := true)])
  }

  function ExecuteKind(s: State, pid: string, kind: Option<string>, now: U64): Outcome {
    if !ValidString(pid) then Err(InputTooLong)
    else if pid !in s.proposals then Err(ProposalNotFound)
    else
      var p := s.proposals[pid];
      if kind.Some? && p.kind != kind.value then Err(ProposalNotFound)
      else if ReadyError(p, now).Some? then Err(ReadyError(p, now).value)
      else Ok(MarkExecuted(s, pid, now))
  }

  function Sign(s: State, caller: string, candidate: string, now: U64): Outcome {
    var rec := if candidate in s.recovery then s.recovery[candidate] else Recovery("", "", "", 0, false, 0);
    if rec.executed then Ok(s)
    else if rec.sig1 == caller || rec.sig2 == caller || rec.sig3 == caller then Err(RecoveryAlreadySigned)
    else
      var signed :=
        if rec.sig1 == "" then rec.(sig1 := caller)
        else if rec.sig2 == "" then rec.(sig2 := caller)
        else if rec.sig3 == "" then rec.(sig3 := caller)
        else rec;
      Ok(s.(recovery := s.recovery[candidate := signed.(count := SatAdd(rec.count, 1), executed := false, ts := now)]))
  }

  function Recover(s: State, candidate: string): Outcome {
    if candidate !in s.recovery then Err(ProposalNotFound)
    else
      var rec := s.recovery[candidate];
      if rec.executed then Err(AlreadyExecuted)
      else if rec.count < 2 then Err(RecoveryInsufficientSigs)
      else Ok(s.(owner := candidate, recovery := s.recovery[candidate := rec.(executed := true)]))
  }

  function Apply(s: State, tx: Tx): Outcome {
    match tx.call
    case Propose(kind, payload) =>
      if tx.caller != s.owner then Err(NotOwner)
      else if s.paused != 0 then Err(Paused)
      else if !ValidString(kind) || !ValidString(payload) then Err(InputTooLong)
      else AddProposal(s, kind, payload, tx.now)
    case Execute(pid) =>
      if tx.caller != s.owner then Err(NotOwner)
      else if s.paused != 0 then Err(Paused)
      else ExecuteKind(s, pid, None, tx.now)
    case Cancel(pid) =>
      if tx.caller != s.owner then Err(NotOwner)
      else if !ValidString(pid) then Err(InputTooLong)
      else if pid !in s.proposals then Err(ProposalNotFound)
      else if s.proposals[pid].executed then Err(AlreadyExecuted)
      else Ok(s.(proposals := s.proposals[pid := s.proposals[pid].(cancelled := true, executed := false)]))
    case EmergencyPause =>
      if tx.caller != s.owner && !IsGuardian(s.guardians, tx.caller) then Err(NotGuardian)
      else Ok(s.(paused := tx.now))
    case ProposeUnpause =>
      if tx.caller != s.owner then Err(NotOwner)
      else if s.paused == 0 then Err(NotPaused)
      else AddProposal(s, "unpause", "", tx.now)
    case ExecuteUnpause(pid) =>
      if tx.caller != s.owner then Err(NotOwner)
      else
        var r := ExecuteKind(s, pid, Some("unpause"), tx.now);
        if r.Err? then r else Ok(r.value.(paused := 0))
    case ProposeOwnerTransfer(newOwner) =>
      if tx.caller != s.owner then Err(NotOwner)
      else if s.paused != 0 then Err(Paused)
      else if !ValidString(newOwner) then Err(InputTooLong)
      else AddProposal(s, "owner_transfer", newOwner, tx.now)
    case ExecuteOwnerTransfer(pid) =>
      if tx.caller != s.owner then Err(NotOwner)
      else
        var r := ExecuteKind(s, pid, Some("owner_transfer"), tx.now);
        if r.Err? then r else Ok(r.value.(owner := s.proposals[pid].payload))
    case SignRecovery(candidate) =>
      if !IsGuardian(s.guardians, tx.caller) then Err(NotGuardian)
      else if !ValidString(candidate) then Err(InputTooLong)
      else Sign(s, tx.caller, candidate, tx.now)
    case ExecuteRecovery(candidate) =>
      if !IsGuardian(s.guardians, tx.caller) then Err(NotGuardian)
      else if !ValidString(candidate) then Err(InputTooLong)
      else Recover(s, candidate)
  }

  // ---- runs ----

  /** The state after the first k transactions; a reverted one changes nothing. */
  function After(s: State, txs: seq<Tx>, k: nat): State
    requires k <= |txs|
  {
    if k == 0 then s else
      var before := After(s, txs, k - 1);
      var r := Apply(before, txs[k - 1]);
      if r.Ok? then r.value else before
  }

  predicate Commits(s: State, txs: seq<Tx>, k: nat)
    requires k < |txs|
  {
    Apply(After(s, txs, k), txs[k]).Ok?
  }

  /** The fields of a proposal fixed when it is made. */
  predicate SameOrigin(p: Proposal, q: Proposal) {
    p.pid == q.pid && p.kind == q.kind && p.payload == q.payload
    && p.proposedAt == q.proposedAt && p.executableAt == q.executableAt
  }

  /** The proposal a transaction files when it commits. */
  function Filed(s: State, tx: Tx): Option<Proposal> {
    if Apply(s, tx).Err? then None else
      match tx.call
      case Propose(kind, payload) => Some(NewProposal(s, kind, payload, tx.now))
      case ProposeUnpause => Some(NewProposal(s, "unpause", "", tx.now))
      case ProposeOwnerTransfer(newOwner) => Some(NewProposal(s, "owner_transfer", newOwner, tx.now))
      case _ => None
  }

  ghost predicate FiledAt(s: State, txs: seq<Tx>, j: nat, p: Proposal)
    requires j < |txs|
  {
    var q := Filed(After(s, txs, j), txs[j]);
    q.Some? && SameOrigin(q.value, p)
  }

  ghost predicate SignedAt(s: State, txs: seq<Tx>, j: nat, signer: string, candidate: string)
    requires j < |txs|
  {
    Commits(s, txs, j) && txs[j].caller == signer && txs[j].call == SignRecovery(candidate)
    && IsGuardian(s.guardians, signer)
  }

  // ---- invariants of one state ----

  ghost predicate ProposalsNumbered(s: State) {
    forall pid :: pid in s.proposals ==>
      s.proposals[pid].pid == pid && exists n :: 1 <= n <= s.counter && pid == PidOf(n)
  }

  /** Signatures fill the slots in order, are distinct, and are what the count counts. */
  predicate Signatures(rec: Recovery) {
    && (rec.sig1 == "" ==> rec.sig2 == "") && (rec.sig2 == "" ==> rec.sig3 == "")
    && (rec.sig2 != "" ==> rec.sig1 != rec.sig2)
    && (rec.sig3 != "" ==> rec.sig3 != rec.sig1 && rec.sig3 != rec.sig2)
    && (rec.count < 3 ==>
          rec.sig3 == "" && rec.count == (if rec.sig1 == "" then 0 else if rec.sig2 == "" then 1 else 2))
    && (rec.count >= 3 ==> rec.sig3 != "")
  }

  ghost predicate Inv(s: State) {
    && ProposalsNumbered(s)
    && (forall pid :: pid in s.proposals ==> !(s.proposals[pid].executed && s.proposals[pid].cancelled))
    && (forall c :: c in s.recovery ==> Signatures(s.recovery[c]))
  }

  lemma PidIs(n: nat)
    ensures PidOf(n) == NumberedId("G-", n)
  {
  }

  /** The next identifier is unused, so filing never overwrites a proposal. */
  lemma FreshPid(s: State)
    requires ProposalsNumbered(s)
    ensures PidOf(s.counter + 1) !in s.proposals
  {
    hide PidOf;
    var pid := PidOf(s.counter + 1);
    if pid in s.proposals {
      var n :| 1 <= n <= s.counter && pid == PidOf(n);
      PidInjective(n, s.counter + 1);
    }
  }

  lemma PidInjective(m: nat, n: nat)
    requires PidOf(m) == PidOf(n)
    ensures m == n
  {
    hide PidOf, NumberedId;
    PidIs(m);
    PidIs(n);
    NumberedIdInjective("G-", m, n);
  }

  lemma InvAdd(s: State, kind: string, payload: string, now: U64)
    requires Inv(s) && AddProposal(s, kind, payload, now).Ok?
    ensures Inv(AddProposal(s, kind, payload, now).value)
  {
    hide PidOf, Signatures;
    var t := AddProposal(s, kind, payload, now).value;
    forall pid | pid in t.proposals
      ensures t.proposals[pid].pid == pid && exists n :: 1 <= n <= t.counter && pid == PidOf(n)
    {
      if pid == PidOf(s.counter + 1) {
        assert 1 <= t.counter <= t.counter && pid == PidOf(t.counter);
      } else {
        var n :| 1 <= n <= s.counter && pid == PidOf(n);
        assert 1 <= n <= t.counter && pid == PidOf(n);
      }
    }
  }

  /** Rewriting one proposal's flags, not to both set, keeps the invariant. */
  lemma InvFlags(s: State, pid: string, p: Proposal)
    requires Inv(s) && pid in s.proposals && p.pid == pid && !(p.executed && p.cancelled)
    ensures Inv(s.(proposals := s.proposals[pid := p]))
  {
    hide PidOf, Signatures;
    var t := s.(proposals := s.proposals[pid := p]);
    forall k | k in t.proposals
      ensures t.proposals[k].pid == k && exists n :: 1 <= n <= t.counter && k == PidOf(n)
    {
      assert k in s.proposals;
      var n :| 1 <= n <= s.counter && k == PidOf(n);
      assert 1 <= n <= t.counter && k == PidOf(n);
    }
  }

  lemma InvRecovery(s: State, candidate: string, rec: Recovery)
    requires Inv(s) && Signatures(rec)
    ensures Inv(s.(recovery := s.recovery[candidate := rec]))
  {
    hide PidOf, Signatures;
  }

  lemma InvSettings(s: State, owner: string, paused: U64)
    requires Inv(s)
    ensures Inv(s.(owner := owner, paused := paused))
  {
    hide PidOf, Signatures;
  }

  lemma InvSign(s: State, caller: Account, candidate: string, now: U64)
    requires Inv(s) && Sign(s, caller, candidate, now).Ok?
    ensures Inv(Sign(s, caller, candidate, now).value)
  {
    var t := Sign(s, caller, candidate, now).value;
    if t != s {
      assert t == s.(recovery := s.recovery[candidate := t.recovery[candidate]]);
      InvRecovery(s, candidate, t.recovery[candidate]);
    }
  }

  /** Every committed transaction keeps the invariant. */
  lemma InvStep(s: State, tx: Tx)
    requires Inv(s) && Apply(s, tx).Ok?
    ensures Inv(Apply(s, tx).value)
  {
    hide Inv, AddProposal, Sign, PidOf;
    match tx.call {
      case Propose(kind, payload) => InvAdd(s, kind, payload, tx.now);
      case ProposeUnpause => InvAdd(s, "unpause", "", tx.now);
      case ProposeOwnerTransfer(newOwner) => InvAdd(s, "owner_transfer", newOwner, tx.now);
      case Execute(pid) => InvMark(s, pid, tx.now);
      case ExecuteUnpause(pid) =>
        InvMark(s, pid, tx.now);
        InvSettings(MarkExecuted(s, pid, tx.now), s.owner, 0);
      case ExecuteOwnerTransfer(pid) =>
        InvMark(s, pid, tx.now);
        InvSettings(MarkExecuted(s, pid, tx.now), s.proposals[pid].payload, s.paused);
      case Cancel(pid) =>
        NumberedPid(s, pid);
        InvFlags(s, pid, s.proposals[pid].(cancelled := true, executed := false));
      case EmergencyPause => InvSettings(s, s.owner, tx.now);
      case SignRecovery(candidate) => InvSign(s, tx.caller, candidate, tx.now);
      case ExecuteRecovery(candidate) =>
        InvSettings(s, candidate, s.paused);
        SignaturesKept(s, candidate);
        InvRecovery(s.(owner := candidate), candidate, s.recovery[candidate].(executed := true));
    }
  }

  lemma NumberedPid(s: State, pid: string)
    requires Inv(s) && pid in s.proposals
    ensures s.proposals[pid].pid == pid
  {
  }

  lemma InvMark(s: State, pid: string, now: U64)
    requires Inv(s) && pid in s.proposals
    ensures Inv(MarkExecuted(s, pid, now))
  {
    hide Inv;
    NumberedPid(s, pid);
    InvFlags(s, pid, s.proposals[pid].(executedAt := now, cancelled := false, executed := true));
  }

  lemma SignaturesKept(s: State, candidate: string)
    requires Inv(s) && candidate in s.recovery
    ensures Signatures(s.recovery[candidate].(executed := true))
  {
  }

  /** The invariant holds in every state of every run from installation. */
  lemma {:induction false} InvAlways(s: State, txs: seq<Tx>, k: nat)
    requires Inv(s) && k <= |txs|
    ensures Inv(After(s, txs, k))
  {
    hide Inv, Apply;
    if k > 0 {
      InvAlways(s, txs, k - 1);
      var before := After(s, txs, k - 1);
      if Apply(before, txs[k - 1]).Ok? { InvStep(before, txs[k - 1]); }
    }
  }

  lemma InstalledInv(caller: Account, g1: string, g2: string, g3: string)
    ensures Inv(Installed(caller, g1, g2, g3))
  {
  }

  // ---- permanence ----

  /** A recorded proposal stays recorded with its origin, and each flag once set stays set. */
  predicate Settled(p: Proposal, q: Proposal) {
    && SameOrigin(p, q)
    && (p.executed ==> q.executed && q.executedAt == p.executedAt)
    && (p.cancelled ==> q.cancelled)
  }

  lemma SettledStep(s: State, tx: Tx, pid: string)
    requires Inv(s) && Apply(s, tx).Ok? && pid in s.proposals
    ensures pid in Apply(s, tx).value.proposals
    ensures Settled(s.proposals[pid], Apply(s, tx).value.proposals[pid])
  {
    hide Inv, PidOf, Sign, AddProposal, ExecuteKind;
    match tx.call {
      case Propose(kind, payload) => AddKeeps(s, kind, payload, tx.now, pid);
      case ProposeUnpause => AddKeeps(s, "unpause", "", tx.now, pid);
      case ProposeOwnerTransfer(newOwner) => AddKeeps(s, "owner_transfer", newOwner, tx.now, pid);
      case Execute(p) => MarkKeeps(s, p, None, tx.now, pid);
      case ExecuteUnpause(p) => MarkKeeps(s, p, Some("unpause"), tx.now, pid);
      case ExecuteOwnerTransfer(p) => MarkKeeps(s, p, Some("owner_transfer"), tx.now, pid);
      case Cancel(p) =>
      case EmergencyPause =>
      case SignRecovery(candidate) => SignKeepsProposals(s, tx.caller, candidate, tx.now);
      case ExecuteRecovery(candidate) =>
    }
  }

  lemma AddKeeps(s: State, kind: string, payload: string, now: U64, pid: string)
    requires Inv(s) && AddProposal(s, kind, payload, now).Ok? && pid in s.proposals
    ensures var t := AddProposal(s, kind, payload, now).value;
            && t == s.(counter := s.counter + 1, proposals := t.proposals)
            && pid in t.proposals && t.proposals[pid] == s.proposals[pid]
  {
    hide PidOf, Signatures;
    FreshPid(s);
  }

  lemma MarkKeeps(s: State, p: string, kind: Option<string>, now: U64, pid: string)
    requires Inv(s) && ExecuteKind(s, p, kind, now).Ok? && pid in s.proposals
    ensures var t := ExecuteKind(s, p, kind, now).value;
            pid in t.proposals && Settled(s.proposals[pid], t.proposals[pid])
  {
    hide Inv;
  }

  lemma SignKeepsProposals(s: State, caller: string, candidate: string, now: U64)
    requires Sign(s, caller, candidate, now).Ok?
    ensures Sign(s, caller, candidate, now).value.proposals == s.proposals
  {
  }

  /** Executed and cancelled are permanent, and never both: over any stretch of any run. */
  lemma {:induction false} FlagsPermanent(s: State, txs: seq<Tx>, j: nat, k: nat, pid: string)
    requires Inv(s) && j <= k <= |txs| && pid in After(s, txs, j).proposals
    ensures pid in After(s, txs, k).proposals
    ensures Settled(After(s, txs, j).proposals[pid], After(s, txs, k).proposals[pid])
    ensures var p := After(s, txs, k).proposals[pid]; !(p.executed && p.cancelled)
    decreases k
  {
    hide Apply, PidOf, Signatures;
    InvAlways(s, txs, k);
    if j < k {
      FlagsPermanent(s, txs, j, k - 1, pid);
      var before := After(s, txs, k - 1);
      InvAlways(s, txs, k - 1);
      if Apply(before, txs[k - 1]).Ok? { SettledStep(before, txs[k - 1], pid); }
    }
  }

  predicate Executes(call: Call, pid: string) {
    call == Execute(pid) || call == ExecuteUnpause(pid) || call == ExecuteOwnerTransfer(pid)
  }

  lemma ExecutingMarks(s: State, tx: Tx, pid: string)
    requires Executes(tx.call, pid) && Apply(s, tx).Ok?
    ensures pid in s.proposals && ReadyError(s.proposals[pid], tx.now) == None
    ensures var t := Apply(s, tx).value;
            pid in t.proposals && t.proposals[pid].executed && t.proposals[pid].executedAt == tx.now
  {
  }

  /** A proposal is executed at most once in any run, and never after it was cancelled. */
  lemma ExecutedAtMostOnce(s: State, txs: seq<Tx>, j: nat, k: nat, pid: string)
    requires Inv(s) && j < k < |txs| && Commits(s, txs, j)
    requires Executes(txs[j].call, pid) || txs[j].call == Cancel(pid)
    requires Executes(txs[k].call, pid)
    ensures !Commits(s, txs, k)
  {
    hide Apply, Inv, PidOf;
    CommitFlags(After(s, txs, j), txs[j], pid);
    FlagsPermanent(s, txs, j + 1, k, pid);
    if Commits(s, txs, k) {
      ExecutingMarks(After(s, txs, k), txs[k], pid);
    }
  }

  lemma CommitFlags(s: State, tx: Tx, pid: string)
    requires Apply(s, tx).Ok? && (Executes(tx.call, pid) || tx.call == Cancel(pid))
    ensures var t := Apply(s, tx).value;
            pid in t.proposals && (t.proposals[pid].executed || t.proposals[pid].cancelled)
  {
  }

  // ---- where proposals and signatures come from ----

  lemma FiledEffect(s: State, tx: Tx, pid: string)
    requires Inv(s) && Apply(s, tx).Ok? && pid in Apply(s, tx).value.proposals
    ensures pid !in s.proposals ==>
              Filed(s, tx).Some? && Filed(s, tx).value == Apply(s, tx).value.proposals[pid]
  {
    hide Inv, PidOf, Sign;
    if tx.call.SignRecovery? { SignKeepsProposals(s, tx.caller, tx.call.candidate, tx.now); }
  }

  /** Every recorded proposal was filed by an earlier transaction of the run. */
  lemma {:induction false} Provenance(s: State, txs: seq<Tx>, k: nat, pid: string) returns (j: nat)
    requires Inv(s) && s.proposals == map[] && k <= |txs| && pid in After(s, txs, k).proposals
    ensures j < k && FiledAt(s, txs, j, After(s, txs, k).proposals[pid])
  {
    hide Apply, Inv, PidOf, Filed;
    var before := After(s, txs, k - 1);
    InvAlways(s, txs, k - 1);
    if pid in before.proposals {
      j := Provenance(s, txs, k - 1, pid);
      if Apply(before, txs[k - 1]).Ok? { SettledStep(before, txs[k - 1], pid); }
    } else {
      j := k - 1;
      FiledEffect(before, txs[k - 1], pid);
    }
  }

  lemma {:induction false} GuardiansFixed(s: State, txs: seq<Tx>, k: nat)
    requires k <= |txs|
    ensures After(s, txs, k).guardians == s.guardians && After(s, txs, k).timelockSecs == s.timelockSecs
  {
    hide Apply;
    if k > 0 {
      GuardiansFixed(s, txs, k - 1);
      if Commits(s, txs, k - 1) { GuardiansStep(After(s, txs, k - 1), txs[k - 1]); }
    }
  }

  lemma GuardiansStep(s: State, tx: Tx)
    requires Apply(s, tx).Ok?
    ensures Apply(s, tx).value.guardians == s.guardians && Apply(s, tx).value.timelockSecs == s.timelockSecs
  {
    hide PidOf;
  }

  predicate HasSigned(rec: Recovery, signer: string) {
    signer != "" && (rec.sig1 == signer || rec.sig2 == signer || rec.sig3 == signer)
  }

  lemma SignEffect(s: State, tx: Tx, candidate: string, signer: string)
    requires Apply(s, tx).Ok?
    ensures var t := Apply(s, tx).value;
            candidate in t.recovery && HasSigned(t.recovery[candidate], signer) ==>
              || (candidate in s.recovery && HasSigned(s.recovery[candidate], signer))
              || (tx.caller == signer && tx.call == SignRecovery(candidate) && IsGuardian(s.guardians, signer))
  {
    hide PidOf, ExecuteKind, AddProposal, IsGuardian;
    match tx.call {
      case Propose(kind, payload) => AddKeepsRecovery(s, kind, payload, tx.now);
      case ProposeUnpause => AddKeepsRecovery(s, "unpause", "", tx.now);
      case ProposeOwnerTransfer(newOwner) => AddKeepsRecovery(s, "owner_transfer", newOwner, tx.now);
      case Execute(pid) => MarkKeepsRecovery(s, pid, None, tx.now);
      case ExecuteUnpause(pid) => MarkKeepsRecovery(s, pid, Some("unpause"), tx.now);
      case ExecuteOwnerTransfer(pid) => MarkKeepsRecovery(s, pid, Some("owner_transfer"), tx.now);
      case _ =>
    }
  }

  lemma AddKeepsRecovery(s: State, kind: string, payload: string, now: U64)
    ensures AddProposal(s, kind, payload, now).Ok? ==> AddProposal(s, kind, payload, now).value.recovery == s.recovery
  {
  }

  lemma MarkKeepsRecovery(s: State, pid: string, kind: Option<string>, now: U64)
    ensures ExecuteKind(s, pid, kind, now).Ok? ==> ExecuteKind(s, pid, kind, now).value.recovery == s.recovery
  {
  }

  /** Every recorded recovery signature was given by that guardian in an earlier transaction. */
  lemma {:induction false} SignatureProvenance(s: State, txs: seq<Tx>, k: nat, candidate: string, signer: string)
    returns (j: nat)
    requires s.recovery == map[] && k <= |txs|
    requires candidate in After(s, txs, k).recovery && HasSigned(After(s, txs, k).recovery[candidate], signer)
    ensures j < k && SignedAt(s, txs, j, signer, candidate)
  {
    hide Apply, HasSigned, IsGuardian;
    var before := After(s, txs, k - 1);
    GuardiansFixed(s, txs, k - 1);
    if candidate in before.recovery && HasSigned(before.recovery[candidate], signer) {
      j := SignatureProvenance(s, txs, k - 1, candidate, signer);
    } else {
      j := k - 1;
      SignEffect(before, txs[k - 1], candidate, signer);
    }
  }

  // ---- owner history ----

  /**
   Why transaction k may install `owner`: it executes an uncancelled, unexecuted owner-transfer
   proposal filed at an earlier step j with that payload, once the timelock counted from the filing
   has passed; or it executes a recovery that two distinct guardians signed at earlier steps.
   */
  ghost predicate TransferJustified(s: State, txs: seq<Tx>, k: nat, owner: string, j: nat)
    requires k < |txs|
  {
    && j < k
    && txs[k].call.ExecuteOwnerTransfer?
    && var pid := txs[k].call.pid;
       var props := After(s, txs, k).proposals;
       && pid in props && !props[pid].cancelled && !props[pid].executed
       && props[pid].kind == "owner_transfer" && props[pid].payload == owner
       && FiledAt(s, txs, j, props[pid])
       && txs[k].now >= SatAdd(txs[j].now, SatMul(s.timelockSecs, 1000))
  }

  ghost predicate RecoveryJustified(s: State, txs: seq<Tx>, k: nat, owner: string, i: nat, j: nat)
    requires k < |txs|
  {
    && i < k && j < k && txs[i].caller != txs[j].caller
    && txs[k].call == ExecuteRecovery(owner)
    && SignedAt(s, txs, i, txs[i].caller, owner)
    && SignedAt(s, txs, j, txs[j].caller, owner)
  }

  lemma OwnerEffect(s: State, tx: Tx)
    requires Apply(s, tx).Ok? && Apply(s, tx).value.owner != s.owner
    ensures tx.call.ExecuteOwnerTransfer? || tx.call.ExecuteRecovery?
    ensures tx.call.ExecuteOwnerTransfer? ==>
              && var pid := tx.call.pid;
                 && pid in s.proposals && ReadyError(s.proposals[pid], tx.now) == None
                 && s.proposals[pid].kind == "owner_transfer"
                 && s.proposals[pid].payload == Apply(s, tx).value.owner
    ensures tx.call.ExecuteRecovery? ==>
              && var c := tx.call.candidate;
                 c in s.recovery && s.recovery[c].count >= 2 && c == Apply(s, tx).value.owner
  {
    hide PidOf;
  }

  lemma FiledTime(s: State, tx: Tx, p: Proposal)
    requires Filed(s, tx).Some? && SameOrigin(Filed(s, tx).value, p)
    ensures p.proposedAt == tx.now && p.executableAt == SatAdd(tx.now, SatMul(s.timelockSecs, 1000))
  {
  }

  /** Every change of owner, in every run from installation, is justified by one of the two histories. */
  lemma OwnerHistory(s: State, txs: seq<Tx>, k: nat) returns (i: nat, j: nat)
    requires Inv(s) && s.proposals == map[] && s.recovery == map[] && k < |txs|
    requires After(s, txs, k + 1).owner != After(s, txs, k).owner
    ensures var owner := After(s, txs, k + 1).owner;
            TransferJustified(s, txs, k, owner, j) || RecoveryJustified(s, txs, k, owner, i, j)
  {
    hide Apply, Inv, PidOf, SatAdd, SatMul, Filed, IsGuardian;
    i, j := 0, 0;
    var before := After(s, txs, k);
    var tx := txs[k];
    OwnerEffect(before, tx);
    GuardiansFixed(s, txs, k);
    if tx.call.ExecuteOwnerTransfer? {
      j := Provenance(s, txs, k, tx.call.pid);
      GuardiansFixed(s, txs, j);
      FiledTime(After(s, txs, j), txs[j], before.proposals[tx.call.pid]);
    } else {
      var rec := before.recovery[tx.call.candidate];
      TwoSigners(s, txs, k, tx.call.candidate);
      i := SignatureProvenance(s, txs, k, tx.call.candidate, rec.sig1);
      j := SignatureProvenance(s, txs, k, tx.call.candidate, rec.sig2);
    }
  }

  /** Every owner in every run from installation is the installer or was put there by a justified step. */
  lemma {:induction false} EveryOwner(s: State, txs: seq<Tx>, k: nat) returns (m: nat, i: nat, j: nat)
    requires Inv(s) && s.proposals == map[] && s.recovery == map[] && k <= |txs|
    ensures var owner := After(s, txs, k).owner;
            || owner == s.owner
            || (m < k && (TransferJustified(s, txs, m, owner, j) || RecoveryJustified(s, txs, m, owner, i, j)))
  {
    hide Apply, Inv, TransferJustified, RecoveryJustified;
    m, i, j := 0, 0, 0;
    if k > 0 {
      if After(s, txs, k).owner == After(s, txs, k - 1).owner {
        m, i, j := EveryOwner(s, txs, k - 1);
      } else {
        m := k - 1;
        i, j := OwnerHistory(s, txs, m);
      }
    }
  }

  lemma TwoSigners(s: State, txs: seq<Tx>, k: nat, candidate: string)
    requires Inv(s) && k <= |txs| && candidate in After(s, txs, k).recovery
    requires After(s, txs, k).recovery[candidate].count >= 2
    ensures var rec := After(s, txs, k).recovery[candidate];
            HasSigned(rec, rec.sig1) && HasSigned(rec, rec.sig2) && rec.sig1 != rec.sig2
  {
    hide Apply, PidOf;
    InvAlways(s, txs, k);
  }

  /** Two distinct guardian signatures are also enough: a guardian's execution then commits. */
  lemma RecoveryCommitsIff(s: State, caller: Account, now: U64, candidate: string)
    requires Inv(s)
    ensures Apply(s, Tx(caller, now, ExecuteRecovery(candidate))).Ok? <==>
              && IsGuardian(s.guardians, caller) && ValidString(candidate)
              && candidate in s.recovery && !s.recovery[candidate].executed
              && exists a, b :: a != b && HasSigned(s.recovery[candidate], a) && HasSigned(s.recovery[candidate], b)
    ensures var r := Apply(s, Tx(caller, now, ExecuteRecovery(candidate))); r.Ok? ==> r.value.owner == candidate
  {
    if candidate in s.recovery {
      var rec := s.recovery[candidate];
      assert Signatures(rec);
      if rec.count >= 2 {
        assert rec.sig1 != rec.sig2 && HasSigned(rec, rec.sig1) && HasSigned(rec, rec.sig2);
      }
    }
  }

  /** With no saturation the bound is the full timelock: 48 hours in milliseconds after filing. */
  lemma FullTimelock(at: U64)
    ensures SatAdd(at, SatMul(DEFAULT_TIMELOCK_SECS, 1000)) == at + 172_800_000 <==> at <= U64_MAX - 172_800_000
  {
  }

  // ---- the pause ----

  /** A pause ends only by executing an unpause proposal, itself filed at least a timelock before. */
  lemma PauseEndsAfterTimelock(s: State, txs: seq<Tx>, k: nat) returns (j: nat)
    requires Inv(s) && s.proposals == map[] && k < |txs|
    requires After(s, txs, k).paused != 0 && After(s, txs, k + 1).paused == 0 && txs[k].now != 0
    ensures j < k && txs[k].call.ExecuteUnpause?
    ensures Commits(s, txs, j) && txs[k].now >= SatAdd(txs[j].now, SatMul(s.timelockSecs, 1000))
    ensures Filed(After(s, txs, j), txs[j]).Some? && Filed(After(s, txs, j), txs[j]).value.kind == "unpause"
  {
    hide Apply, Inv, PidOf, SatAdd, SatMul;
    var before := After(s, txs, k);
    PauseEffect(before, txs[k]);
    j := Provenance(s, txs, k, txs[k].call.pid);
    GuardiansFixed(s, txs, j);
    FiledTime(After(s, txs, j), txs[j], before.proposals[txs[k].call.pid]);
  }

  lemma PauseEffect(s: State, tx: Tx)
    requires Apply(s, tx).Ok? && s.paused != 0 && Apply(s, tx).value.paused == 0 && tx.now != 0
    ensures tx.call.ExecuteUnpause? && tx.call.pid in s.proposals
    ensures s.proposals[tx.call.pid].kind == "unpause" && tx.now >= s.proposals[tx.call.pid].executableAt
  {
    hide PidOf;
  }

  /** An emergency pause leaves the contract paused exactly when the block time is not zero, the live marker. */
  lemma PauseTakesEffectIff(s: State, caller: Account, now: U64)
    requires caller == s.owner || IsGuardian(s.guardians, caller)
    ensures var r := Apply(s, Tx(caller, now, EmergencyPause)); r.Ok? && (r.value.paused != 0 <==> now != 0)
  {
  }

  // ---- guardians ----

  /**
   Guardians are recognised by position up to the number of non-empty ones, so a gap in the
   installation arguments hides a later guardian. Every configured guardian is recognised exactly
   when no gap precedes one (or the hidden one is a duplicate).
   */
  lemma EveryGuardianRecognisedIff(owner: Account, g1: string, g2: string, g3: string)
    ensures (forall g: string :: g != "" && (g == g1 || g == g2 || g == g3) ==>
               IsGuardian(Installed(owner, g1, g2, g3).guardians, g))
            <==>
            && (g2 != "" ==> g1 != "" || g3 != "")
            && (g3 != "" ==> (g1 != "" && g2 != "") || g3 == g1 || g3 == g2)
  {
    var gs := Installed(owner, g1, g2, g3).guardians;
    assert g1 != "" ==> IsGuardian(gs, g1);
    if g2 != "" && g1 == "" && g3 == "" { assert !IsGuardian(gs, g2); }
    if g3 != "" && !((g1 != "" && g2 != "") || g3 == g1 || g3 == g2) { assert !IsGuardian(gs, g3); }
  }

  lemma HiddenGuardian(owner: Account, a: Account, b: Account)
    requires a != b
    ensures !IsGuardian(Installed(owner, "", a, b).guardians, b)
  {
  }

  // ---- the contract ----

  /** A transaction committed the specified state and returned normally, or reverted with the specified error. */
  ghost predicate Ran<T>(s: State, tx: Tx, t: State, r: Result<T, Error>) {
    match Apply(s, tx)
    case Ok(v) => r.Ok? && t == v
    case Err(e) => r == Err(e) && t == s
  }

  class Contract {
    var owner: string
    const guardians: Guardians
    var paused: U64
    const timelockSecs: U64
    var proposalCtr: U64
    var proposals: map<string, Proposal>
    var recovery: map<string, Recovery>

    ghost function View(): State
      reads this
    {
      State(owner, guardians, paused, timelockSecs, proposalCtr, proposals, recovery)
    }

    constructor (caller: Account, g1: string, g2: string, g3: string)
      ensures View() == Installed(caller, g1, g2, g3)
    {
      var count := 0;
      if g1 != "" { count := count + 1; }
      if g2 != "" { count := count + 1; }
      if g3 != "" { count := count + 1; }
      owner := caller;
      guardians := Guardians(g1, g2, g3, count);
      paused := 0;
      timelockSecs := DEFAULT_TIMELOCK_SECS;
      proposalCtr := 0;
      proposals := map[];
      recovery := map[];
    }

    /** next_proposal_id, the new record and its storage, shared by the three proposing entry points. */
    method FileProposal(kind: string, payload: string, now: U64) returns (r: Result<string, Error>)
      modifies this
      ensures match AddProposal(old(View()), kind, payload, now)
              case Ok(v) => r == Ok(PidOf(old(proposalCtr) + 1)) && View() == v
              case Err(e) => r == Err(e) && View() == old(View())
    {
      if proposalCtr == U64_MAX {
        return Err(CounterOverflow);
      }
      proposalCtr := proposalCtr + 1;
      var pid := PidOf(proposalCtr);
      var executableAt := SatAdd(now, SatMul(timelockSecs, 1000));
      proposals := proposals[pid := Proposal(pid, kind, payload, now, executableAt, 0, false, false)];
      r := Ok(pid);
    }

    method Propose(caller: Account, now: U64, kind: string, payload: string) returns (r: Result<string, Error>)
      modifies this
      ensures Ran(old(View()), Tx(caller, now, Call.Propose(kind, payload)), View(), r)
      ensures r.Ok? ==> r.value == PidOf(old(proposalCtr) + 1)
    {
      if caller != owner { return Err(NotOwner); }
      if paused != 0 { return Err(Paused); }
      if !ValidString(kind) || !ValidString(payload) { return Err(InputTooLong); }
      r := FileProposal(kind, payload, now);
    }

    method ProposeUnpause(caller: Account, now: U64) returns (r: Result<string, Error>)
      modifies this
      ensures Ran(old(View()), Tx(caller, now, Call.ProposeUnpause), View(), r)
      ensures r.Ok? ==> r.value == PidOf(old(proposalCtr) + 1)
    {
      if caller != owner { return Err(NotOwner); }
      if paused == 0 { return Err(NotPaused); }
      r := FileProposal("unpause", "", now);
    }

    method ProposeOwnerTransfer(caller: Account, now: U64, newOwner: string) returns (r: Result<string, Error>)
      modifies this
      ensures Ran(old(View()), Tx(caller, now, Call.ProposeOwnerTransfer(newOwner)), View(), r)
      ensures r.Ok? ==> r.value == PidOf(old(proposalCtr) + 1)
    {
      if caller != owner { return Err(NotOwner); }
      if paused != 0 { return Err(Paused); }
      if !ValidString(newOwner) { return Err(InputTooLong); }
      r := FileProposal("owner_transfer", newOwner, now);
    }

    method Execute(caller: Account, now: U64, pid: string) returns (r: Result<(), Error>)
      modifies this
      ensures Ran(old(View()), Tx(caller, now, Call.Execute(pid)), View(), r)
    {
      if caller != owner { return Err(NotOwner); }
      if paused != 0 { return Err(Paused); }
      if !ValidString(pid) { return Err(InputTooLong); }
      if pid !in proposals { return Err(ProposalNotFound); }
      var p := proposals[pid];
      if p.cancelled { return Err(AlreadyCancelled); }
      if p.executed { return Err(AlreadyExecuted); }
      if now < p.executableAt { return Err(TimelockNotElapsed); }
      proposals := proposals[pid := p.(executedAt := now, cancelled := false, executed := true)];
      r := Ok(());
    }

    method Cancel(caller: Account, now: U64, pid: string) returns (r: Result<(), Error>)
      modifies this
      ensures Ran(old(View()), Tx(caller, now, Call.Cancel(pid)), View(), r)
    {
      if caller != owner { return Err(NotOwner); }
      if !ValidString(pid) { return Err(InputTooLong); }
      if pid !in proposals { return Err(ProposalNotFound); }
      var p := proposals[pid];
      if p.executed { return Err(AlreadyExecuted); }
      proposals := proposals[pid := p.(cancelled := true, executed := false)];
      r := Ok(());
    }

    method EmergencyPause(caller: Account, now: U64) returns (r: Result<(), Error>)
      modifies this
      ensures Ran(old(View()), Tx(caller, now, Call.EmergencyPause), View(), r)
    {
      if caller != owner && !IsGuardian(guardians, caller) { return Err(NotGuardian); }
      paused := now;
      r := Ok(());
    }

    method ExecuteUnpause(caller: Account, now: U64, pid: string) returns (r: Result<(), Error>)
      modifies this
      ensures Ran(old(View()), Tx(caller, now, Call.ExecuteUnpause(pid)), View(), r)
    {
      if caller != owner { return Err(NotOwner); }
      if !ValidString(pid) { return Err(InputTooLong); }
      if pid !in proposals { return Err(ProposalNotFound); }
      var p := proposals[pid];
      if p.kind != "unpause" { return Err(ProposalNotFound); }
      if p.cancelled { return Err(AlreadyCancelled); }
      if p.executed { return Err(AlreadyExecuted); }
      if now < p.executableAt { return Err(TimelockNotElapsed); }
      paused := 0;
      proposals := proposals[pid := p.(executedAt := now, cancelled := false, executed := true)];
      r := Ok(());
    }

    method ExecuteOwnerTransfer(caller: Account, now: U64, pid: string) returns (r: Result<(), Error>)
      modifies this
      ensures Ran(old(View()), Tx(caller, now, Call.ExecuteOwnerTransfer(pid)), View(), r)
    {
      if caller != owner { return Err(NotOwner); }
      if !ValidString(pid) { return Err(InputTooLong); }
      if pid !in proposals { return Err(ProposalNotFound); }
      var p := proposals[pid];
      if p.kind != "owner_transfer" { return Err(ProposalNotFound); }
      if p.cancelled { return Err(AlreadyCancelled); }
      if p.executed { return Err(AlreadyExecuted); }
      if now < p.executableAt { return Err(TimelockNotElapsed); }
      owner := p.payload;
      proposals := proposals[pid := p.(executedAt := now, cancelled := false, executed := true)];
      r := Ok(());
    }

    method SignRecovery(caller: Account, now: U64, candidate: string) returns (r: Result<(), Error>)
      modifies this
      ensures Ran(old(View()), Tx(caller, now, Call.SignRecovery(candidate)), View(), r)
    {
      if !IsGuardian(guardians, caller) { return Err(NotGuardian); }
      if !ValidString(candidate) { return Err(InputTooLong); }
      var rec := Recovery("", "", "", 0, false, 0);
      if candidate in recovery {
        rec := recovery[candidate];
      }
      if rec.executed { return Ok(()); }
      var s1, s2, s3 := rec.sig1, rec.sig2, rec.sig3;
      if s1 == caller || s2 == caller || s3 == caller { return Err(RecoveryAlreadySigned); }
      if s1 == "" {
        s1 := caller;
      } else if s2 == "" {
        s2 := caller;
      } else if s3 == "" {
        s3 := caller;
      }
      recovery := recovery[candidate := Recovery(s1, s2, s3, SatAdd(rec.count, 1), false, now)];
      r := Ok(());
    }

    method ExecuteRecovery(caller: Account, now: U64, candidate: string) returns (r: Result<(), Error>)
      modifies this
      ensures Ran(old(View()), Tx(caller, now, Call.ExecuteRecovery(candidate)), View(), r)
    {
      if !IsGuardian(guardians, caller) { return Err(NotGuardian); }
      if !ValidString(candidate) { return Err(InputTooLong); }
      if candidate !in recovery { return Err(ProposalNotFound); }
      var rec := recovery[candidate];
      if rec.executed { return Err(AlreadyExecuted); }
      if rec.count < 2 { return Err(RecoveryInsufficientSigs); }
      owner := candidate;
      recovery := recovery[candidate := rec.(executed := true)];
      r := Ok(());
    }
  }
}
