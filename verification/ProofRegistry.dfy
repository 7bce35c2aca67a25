/**
 The proof registry contract: agents register, submit proofs under fresh identifiers and revoke
 their own proofs; each agent's record keeps counters and a score.
 */
module ProofRegistry {
  import opened CasperValues
  import opened Wrappers

  const MAX_HASH_LEN := 128
  const MAX_AGENT_ID_LEN := 64

  datatype Error =
    | NotFound
    | Unauthorized
    | AlreadyRevoked
    | AgentExists
    | AgentNotFound
    | InputTooLong
    | CounterOverflow

  datatype Proof = Proof(
    pid: string, agent: string, proofHash: string, inputHash: string, outputHash: string, modelHash: string,
    timestamp: U64, valid: bool, revoked: bool)

  datatype Agent = Agent(
    agentId: string, owner: string, modelHash: string,
    total: U64, verified: U64, failed: U64, score: U64, registeredAt: U64)

  datatype State = State(counter: U64, proofs: map<string, Proof>, agents: map<string, Agent>)

  const EMPTY := State(0, map[], map[])

  datatype Call =
    | RegisterAgent(agentId: string, modelHash: string)
    | SubmitProof(proofHash: string, inputHash: string, outputHash: string, modelHash: string)
    | RevokeProof(pid: string)

  type Outcome = Result<State, Error>

  predicate ValidHash(h: string) {
    0 < |h| <= MAX_HASH_LEN
  }

  function PidOf(n: nat): string {
    NumberedId("P-", n)
  }

  /** u64 addition as compiled without overflow checks. */
  function WrapInc(x: U64): U64 {
    if x == U64_MAX then 0 else x + 1
  }

  function Register(s: State, caller: string, now: U64, agentId: string, modelHash: string): Outcome {
    if !(0 < |agentId| <= MAX_AGENT_ID_LEN) || !ValidHash(modelHash) then Err(InputTooLong)
    else if caller in s.agents then Err(AgentExists)
    else Ok(s.(agents := s.agents[caller := Agent(agentId, caller, modelHash, 0, 0, 0, 50, now)]))
  }

  function Submit(s: State, caller: string, now: U64, ph: string, ih: string, oh: string, mh: string): Outcome {
    if !(ValidHash(ph) && ValidHash(ih) && ValidHash(oh) && ValidHash(mh)) then Err(InputTooLong)
    else if caller !in s.agents then Err(AgentNotFound)
    else if s.counter == U64_MAX then Err(CounterOverflow)
    else
      var pid := PidOf(s.counter + 1);
      var a := s.agents[caller];
      var total := if a.total == U64_MAX then a.total else a.total + 1;
      Ok(State(s.counter + 1,
               s.proofs[pid := Proof(pid, caller, ph, ih, oh, mh, now, true, false)],
               s.agents[caller := a.(total := total)]))
  }

  function GetProof(s: State, pid: string): Result<Proof, Error> {
    if !ValidHash(pid) then Err(InputTooLong)
    else if pid !in s.proofs then Err(NotFound)
    else Ok(s.proofs[pid])
  }

  /** The agent record after one more failed proof: the score drops by 5 and stops at zero. */
  function Failed(a: Agent): Agent {
    a.(failed := WrapInc(a.failed), score := if a.score > 5 then a.score - 5 else 0)
  }

  function Revoke(s: State, caller: string, pid: string): Outcome {
    var r := GetProof(s, pid);
    if r.Err? then Err(r.error)
    else if caller != r.value.agent then Err(Unauthorized)
    else if r.value.revoked then Err(AlreadyRevoked)
    else
      var agent := r.value.agent;
      Ok(s.(proofs := s.proofs[pid := r.value.(valid := false, revoked := true)],
            agents := if agent in s.agents then s.agents[agent := Failed(s.agents[agent])] else s.agents))
  }

  function Apply(s: State, caller: string, now: U64, call: Call): Outcome {
    match call
    case RegisterAgent(agentId, modelHash) => Register(s, caller, now, agentId, modelHash)
    case SubmitProof(ph, ih, oh, mh) => Submit(s, caller, now, ph, ih, oh, mh)
    case RevokeProof(pid) => Revoke(s, caller, pid)
  }

  // ---- accountability ----

  function ProofsOf(s: State, agent: string): set<string> {
    set pid | pid in s.proofs && s.proofs[pid].agent == agent
  }

  function RevokedOf(s: State, agent: string): set<string> {
    set pid | pid in s.proofs && s.proofs[pid].agent == agent && s.proofs[pid].revoked
  }

  function Score(failed: nat): nat {
    if failed < 10 then 50 - 5 * failed else 0
  }

  ghost predicate Numbered(s: State) {
    forall pid :: pid in s.proofs ==>
      && s.proofs[pid].pid == pid
      && s.proofs[pid].agent in s.agents
      && s.proofs[pid].valid == !s.proofs[pid].revoked
      && exists n :: 1 <= n <= s.counter && pid == PidOf(n)
  }

  /** An agent's counters count its proofs, its revoked proofs, and nothing saturates or wraps. */
  ghost predicate Accounted(s: State, a: string) {
    a in s.agents ==>
      && s.agents[a].owner == a
      && s.agents[a].total == |ProofsOf(s, a)|
      && s.agents[a].failed == |RevokedOf(s, a)|
      && s.agents[a].verified == 0
      && s.agents[a].score == Score(s.agents[a].failed)
  }

  ghost predicate Inv(s: State) {
    && Numbered(s)
    && |s.proofs| == s.counter
    && forall a :: Accounted(s, a)
  }

  lemma PidIs(n: nat)
    ensures PidOf(n) == NumberedId("P-", n)
  {
  }

  lemma FreshPid(s: State)
    requires Numbered(s)
    ensures PidOf(s.counter + 1) !in s.proofs
  {
    hide PidOf;
    var pid := PidOf(s.counter + 1);
    if pid in s.proofs {
      var n :| 1 <= n <= s.counter && pid == PidOf(n);
      PidIs(n);
      PidIs(s.counter + 1);
      NumberedIdInjective("P-", n, s.counter + 1);
    }
  }

  /** failed <= total <= number of proofs ever filed. */
  lemma CountersOrdered(s: State, a: string)
    requires Inv(s)
    ensures |RevokedOf(s, a)| <= |ProofsOf(s, a)| <= s.counter
  {
    assert RevokedOf(s, a) <= ProofsOf(s, a);
    CardSubset(RevokedOf(s, a), ProofsOf(s, a));
    assert ProofsOf(s, a) <= s.proofs.Keys;
    CardSubset(ProofsOf(s, a), s.proofs.Keys);
  }

  lemma {:induction false} CardSubset(a: set<string>, b: set<string>)
    requires a <= b
    ensures |a| <= |b|
    decreases |a|
  {
    if a != {} {
      var x :| x in a;
      CardSubset(a - {x}, b - {x});
    }
  }

  /** What a new proof does to the two sets of an agent. */
  lemma SubmitSets(s: State, t: State, pid: string, caller: string, a: string)
    requires pid !in s.proofs && pid in t.proofs && t.proofs.Keys == s.proofs.Keys + {pid}
    requires forall k :: k in s.proofs ==> t.proofs[k] == s.proofs[k]
    requires t.proofs[pid].agent == caller && !t.proofs[pid].revoked
    ensures |ProofsOf(t, a)| == |ProofsOf(s, a)| + (if a == caller then 1 else 0)
    ensures RevokedOf(t, a) == RevokedOf(s, a)
  {
    if a == caller {
      assert ProofsOf(t, a) == ProofsOf(s, a) + {pid};
    } else {
      assert ProofsOf(t, a) == ProofsOf(s, a);
    }
  }

  lemma SubmitKeeps(s: State, caller: string, now: U64, ph: string, ih: string, oh: string, mh: string)
    requires Inv(s) && Submit(s, caller, now, ph, ih, oh, mh).Ok?
    ensures Inv(Submit(s, caller, now, ph, ih, oh, mh).value)
  {
    hide PidOf, Score, ProofsOf, RevokedOf, Numbered;
    var t := Submit(s, caller, now, ph, ih, oh, mh).value;
    var pid := PidOf(s.counter + 1);
    FreshPid(s);
    assert Accounted(s, caller);
    CountersOrdered(s, caller);
    assert t.agents == s.agents[caller := s.agents[caller].(total := s.agents[caller].total + 1)];
    SubmitNumbered(s, t, pid);
    forall a ensures Accounted(t, a) {
      assert Accounted(s, a);
      SubmitSets(s, t, pid, caller, a);
    }
  }

  lemma SubmitNumbered(s: State, t: State, pid: string)
    requires Numbered(s) && t.counter == s.counter + 1 && pid == PidOf(t.counter)
    requires pid in t.proofs && t.proofs == s.proofs[pid := t.proofs[pid]] && t.agents.Keys == s.agents.Keys
    requires t.proofs[pid].pid == pid && t.proofs[pid].agent in s.agents
    requires t.proofs[pid].valid == !t.proofs[pid].revoked
    ensures Numbered(t)
  {
    hide PidOf;
    forall k | k in t.proofs ensures exists n :: 1 <= n <= t.counter && k == PidOf(n) {
      if k == pid {
        assert 1 <= t.counter <= t.counter && k == PidOf(t.counter);
      } else {
        var n :| 1 <= n <= s.counter && k == PidOf(n);
        assert 1 <= n <= t.counter && k == PidOf(n);
      }
    }
  }

  lemma RevokeSets(s: State, t: State, pid: string, a: string)
    requires pid in s.proofs && !s.proofs[pid].revoked
    requires pid in t.proofs && t.proofs == s.proofs[pid := t.proofs[pid]]
    requires t.proofs[pid].agent == s.proofs[pid].agent && t.proofs[pid].revoked
    ensures ProofsOf(t, a) == ProofsOf(s, a)
    ensures |RevokedOf(t, a)| == |RevokedOf(s, a)| + (if a == s.proofs[pid].agent then 1 else 0)
    ensures RevokedOf(t, a) <= ProofsOf(t, a)
  {
    if a == s.proofs[pid].agent {
      assert pid !in RevokedOf(s, a);
      assert RevokedOf(t, a) == RevokedOf(s, a) + {pid};
    } else {
      assert RevokedOf(t, a) == RevokedOf(s, a);
    }
  }

  lemma RevokeKeeps(s: State, caller: string, pid: string)
    requires Inv(s) && Revoke(s, caller, pid).Ok?
    ensures Inv(Revoke(s, caller, pid).value)
  {
    hide PidOf, Score, ProofsOf, RevokedOf, Numbered, Revoke;
    RevokeFacts(s, caller, pid);
    var t := Revoke(s, caller, pid).value;
    RevokeNumbered(s, t, pid);
    assert t.proofs.Keys == s.proofs.Keys && |t.proofs| == |t.proofs.Keys| == |s.proofs.Keys| == |s.proofs|;
    forall a ensures Accounted(t, a) {
      RevokeAccounted(s, t, pid, caller, a);
    }
  }

  lemma RevokeAccounted(s: State, t: State, pid: string, caller: string, a: string)
    requires Inv(s) && pid in s.proofs && !s.proofs[pid].revoked && s.proofs[pid].agent == caller && caller in s.agents
    requires t == s.(proofs := s.proofs[pid := s.proofs[pid].(valid := false, revoked := true)],
                     agents := s.agents[caller := Failed(s.agents[caller])])
    ensures Accounted(t, a)
  {
    hide PidOf, Score, ProofsOf, RevokedOf, Numbered;
    assert Accounted(s, a);
    RevokeSets(s, t, pid, a);
    CardSubset(RevokedOf(t, a), ProofsOf(t, a));
    CountersOrdered(s, a);
    if a == caller { ScoreStep(s.agents[a].failed); }
  }

  lemma RevokeFacts(s: State, caller: string, pid: string)
    requires Numbered(s) && Revoke(s, caller, pid).Ok?
    ensures pid in s.proofs && !s.proofs[pid].revoked && s.proofs[pid].agent == caller && caller in s.agents
    ensures Revoke(s, caller, pid).value
            == s.(proofs := s.proofs[pid := s.proofs[pid].(valid := false, revoked := true)],
                  agents := s.agents[caller := Failed(s.agents[caller])])
  {
    hide PidOf;
  }

  lemma ScoreStep(failed: nat)
    ensures Score(failed + 1) == if Score(failed) > 5 then Score(failed) - 5 else 0
  {
  }

  lemma RevokeNumbered(s: State, t: State, pid: string)
    requires Numbered(s) && pid in s.proofs && t.counter == s.counter && t.agents.Keys == s.agents.Keys
    requires t.proofs == s.proofs[pid := s.proofs[pid].(valid := false, revoked := true)]
    ensures Numbered(t)
  {
    hide PidOf;
    forall k | k in t.proofs ensures exists n :: 1 <= n <= t.counter && k == PidOf(n) {
      var n :| 1 <= n <= s.counter && k == PidOf(n);
      assert 1 <= n <= t.counter && k == PidOf(n);
    }
  }

  lemma RegisterKeeps(s: State, caller: string, now: U64, agentId: string, modelHash: string)
    requires Inv(s) && Register(s, caller, now, agentId, modelHash).Ok?
    ensures Inv(Register(s, caller, now, agentId, modelHash).value)
  {
    hide PidOf;
    var t := Register(s, caller, now, agentId, modelHash).value;
    RegisterNumbered(s, t, caller);
    forall a ensures Accounted(t, a) {
      assert Accounted(s, a);
      assert ProofsOf(t, a) == ProofsOf(s, a) && RevokedOf(t, a) == RevokedOf(s, a);
      if a == caller {
        assert ProofsOf(s, a) == {} && RevokedOf(s, a) == {};
      }
    }
  }

  lemma RegisterNumbered(s: State, t: State, caller: string)
    requires Numbered(s) && t.proofs == s.proofs && t.counter == s.counter && s.agents.Keys <= t.agents.Keys
    ensures Numbered(t)
  {
    hide PidOf;
    forall k | k in t.proofs ensures exists n :: 1 <= n <= t.counter && k == PidOf(n) {
      var n :| 1 <= n <= s.counter && k == PidOf(n);
      assert 1 <= n <= t.counter && k == PidOf(n);
    }
  }

  // ---- who may do what ----

  /**
   Registering: exactly a caller who is no agent yet, with an identifier of 1 to 64 and a model hash of 1
   to 128 characters. The agent starts with empty counters and a score of 50.
   */
  lemma RegisterCommitsIff(s: State, caller: string, now: U64, agentId: string, modelHash: string)
    ensures var r := Apply(s, caller, now, RegisterAgent(agentId, modelHash));
            var sized := 1 <= |agentId| <= 64 && 1 <= |modelHash| <= 128;
            && (r.Ok? <==> caller !in s.agents && sized)
            && (r == Err(InputTooLong) <==> !sized)
            && (r == Err(AgentExists) <==> sized && caller in s.agents)
            && (r.Ok? ==>
                  r.value == State(s.counter, s.proofs,
                                   s.agents[caller := Agent(agentId, caller, modelHash, 0, 0, 0, 50, now)]))
  {
  }

  /**
   Submitting: exactly an agent, with four hashes of 1 to 128 characters. The proof is filed under an
   unused identifier, as valid, with the caller and each hash in its own place, and counted.
   */
  lemma SubmitCommitsIff(s: State, caller: string, now: U64, ph: string, ih: string, oh: string, mh: string)
    requires Inv(s)
    ensures var r := Apply(s, caller, now, SubmitProof(ph, ih, oh, mh));
            var sized := 1 <= |ph| <= 128 && 1 <= |ih| <= 128 && 1 <= |oh| <= 128 && 1 <= |mh| <= 128;
            && (r.Ok? <==> caller in s.agents && sized && s.counter < U64_MAX)
            && (r == Err(InputTooLong) <==> !sized)
            && (r == Err(AgentNotFound) <==> sized && caller !in s.agents)
            && (r.Ok? ==>
                  exists pid: string :: pid !in s.proofs && s.agents[caller].total < U64_MAX
                    && r.value == State(s.counter + 1,
                                        s.proofs[pid := Proof(pid, caller, ph, ih, oh, mh, now, true, false)],
                                        s.agents[caller := s.agents[caller].(total := s.agents[caller].total + 1)]))
  {
    hide PidOf, ProofsOf, RevokedOf, Score;
    FreshPid(s);
    if caller in s.agents {
      assert Accounted(s, caller);
      CountersOrdered(s, caller);
    }
  }

  /**
   Revoking: exactly the agent that submitted the proof, once. The proof turns invalid and revoked, and the
   agent's record gains a failure and loses up to five points.
   */
  lemma RevokeCommitsIff(s: State, caller: string, now: U64, pid: string)
    requires Inv(s)
    ensures var r := Apply(s, caller, now, RevokeProof(pid));
            var sized, found := 1 <= |pid| <= 128, pid in s.proofs;
            && (r.Ok? <==> sized && found && s.proofs[pid].agent == caller && !s.proofs[pid].revoked)
            && (r == Err(InputTooLong) <==> !sized)
            && (r == Err(NotFound) <==> sized && !found)
            && (r == Err(Unauthorized) <==> sized && found && s.proofs[pid].agent != caller)
            && (r == Err(AlreadyRevoked) <==>
                  sized && found && s.proofs[pid].agent == caller && s.proofs[pid].revoked)
            && (r.Ok? ==>
                  caller in s.agents && s.agents[caller].failed < U64_MAX
                  && var a := s.agents[caller];
                     var score: U64 := if a.score >= 5 then a.score - 5 else 0;
                     r.value == State(s.counter,
                                      s.proofs[pid := s.proofs[pid].(valid := false, revoked := true)],
                                      s.agents[caller := a.(failed := a.failed + 1, score := score)]))
  {
    hide PidOf, ProofsOf, RevokedOf, Score;
    if Apply(s, caller, now, RevokeProof(pid)).Ok? {
      RevokeFacts(s, caller, pid);
      assert Accounted(s, caller);
      FailedBelow(s, caller, pid);
    }
  }

  /** An agent with an unrevoked proof has failed fewer times than there are proofs. */
  lemma FailedBelow(s: State, a: string, pid: string)
    requires Inv(s) && pid in s.proofs && s.proofs[pid].agent == a && !s.proofs[pid].revoked && a in s.agents
    ensures s.agents[a].failed < s.counter
  {
    hide PidOf, Score;
    assert Accounted(s, a);
    var rest := ProofsOf(s, a) - {pid};
    assert RevokedOf(s, a) <= rest;
    CardSubset(RevokedOf(s, a), rest);
    CountersOrdered(s, a);
  }

  /**
   At their 64-bit limits, which no run reaches, a submission leaves the total where it is and a revocation
   wraps the failures around to zero.
   */
  lemma CountersAtTheirLimits(
      s: State, caller: string, now: U64, ph: string, ih: string, oh: string, mh: string, a: Agent)
    ensures var r := Submit(s, caller, now, ph, ih, oh, mh);
            && (r == Err(CounterOverflow) ==> s.counter == U64_MAX)
            && (r.Ok? ==>
                  && caller in s.agents && caller in r.value.agents
                  && var total := s.agents[caller].total;
                     r.value.agents[caller].total == (if total < U64_MAX then total + 1 else total))
    ensures Failed(a).failed == (a.failed + 1) % 0x1_0000_0000_0000_0000
    ensures Failed(a).score == (if a.score >= 5 then a.score - 5 else 0)
  {
    hide PidOf;
  }

  /** A proof can be read back by anyone under its identifier, for as long as that is a valid argument. */
  lemma GetProofIff(s: State, pid: string)
    ensures GetProof(s, pid).Ok? <==> 1 <= |pid| <= 128 && pid in s.proofs
    ensures GetProof(s, pid).Ok? ==> GetProof(s, pid).value == s.proofs[pid]
    ensures GetProof(s, pid) == Err(InputTooLong) <==> !(1 <= |pid| <= 128)
  {
  }

  /** Every committed entry point keeps the books. */
  lemma InvStep(s: State, caller: string, now: U64, call: Call)
    requires Inv(s) && Apply(s, caller, now, call).Ok?
    ensures Inv(Apply(s, caller, now, call).value)
  {
    hide Inv, Register, Submit, Revoke;
    match call {
      case RegisterAgent(agentId, modelHash) => RegisterKeeps(s, caller, now, agentId, modelHash);
      case SubmitProof(ph, ih, oh, mh) => SubmitKeeps(s, caller, now, ph, ih, oh, mh);
      case RevokeProof(pid) => RevokeKeeps(s, caller, pid);
    }
  }

  // ---- permanence of proof records ----

  /** What a later state may have done to a proof: nothing, or a revocation. */
  predicate Preserved(p: Proof, q: Proof) {
    q == p || q == p.(valid := false, revoked := true)
  }

  /** No entry point overwrites a proof: an existing record stays, up to one irreversible revocation. */
  lemma ProofPreserved(s: State, caller: string, now: U64, call: Call, pid: string)
    requires Numbered(s) && Apply(s, caller, now, call).Ok? && pid in s.proofs
    ensures pid in Apply(s, caller, now, call).value.proofs
    ensures Preserved(s.proofs[pid], Apply(s, caller, now, call).value.proofs[pid])
  {
    FreshPid(s);
    hide PidOf, Numbered;
  }

  // ---- the contract ----

  ghost predicate Ran<T>(s: State, caller: string, now: U64, call: Call, t: State, r: Result<T, Error>) {
    match Apply(s, caller, now, call)
    case Ok(v) => r.Ok? && t == v
    case Err(e) => r == Err(e) && t == s
  }

  class Contract {
    var pctr: U64
    var proofs: map<string, Proof>
    var agents: map<string, Agent>

    ghost function View(): State
      reads this
    {
      State(pctr, proofs, agents)
    }

    constructor ()
      ensures View() == EMPTY
    {
      pctr := 0;
      proofs := map[];
      agents := map[];
    }

    method RegisterAgent(caller: string, now: U64, agentId: string, modelHash: string) returns (r: Result<(), Error>)
      modifies this
      ensures Ran(old(View()), caller, now, Call.RegisterAgent(agentId, modelHash), View(), r)
    {
      if |agentId| == 0 || |agentId| > MAX_AGENT_ID_LEN { return Err(InputTooLong); }
      if !ValidHash(modelHash) { return Err(InputTooLong); }
      if caller in agents { return Err(AgentExists); }
      agents := agents[caller := Agent(agentId, caller, modelHash, 0, 0, 0, 50, now)];
      r := Ok(());
    }

    method SubmitProof(caller: string, now: U64, ph: string, ih: string, oh: string, mh: string)
      returns (r: Result<string, Error>)
      modifies this
      ensures Ran(old(View()), caller, now, Call.SubmitProof(ph, ih, oh, mh), View(), r)
      ensures r.Ok? ==> r.value == PidOf(old(pctr) + 1)
    {
      if !ValidHash(ph) || !ValidHash(ih) || !ValidHash(oh) || !ValidHash(mh) { return Err(InputTooLong); }
      if caller !in agents { return Err(AgentNotFound); }
      var a := agents[caller];
      if pctr == U64_MAX { return Err(CounterOverflow); }
      pctr := pctr + 1;
      var pid := PidOf(pctr);
      proofs := proofs[pid := Proof(pid, caller, ph, ih, oh, mh, now, true, false)];
      var newTotal := if a.total == U64_MAX then a.total else a.total + 1;
      agents := agents[caller := a.(total := newTotal)];
      r := Ok(pid);
    }

    method RevokeProof(caller: string, now: U64, pid: string) returns (r: Result<(), Error>)
      modifies this
      ensures Ran(old(View()), caller, now, Call.RevokeProof(pid), View(), r)
    {
      if !ValidHash(pid) { return Err(InputTooLong); }
      if pid !in proofs { return Err(NotFound); }
      var p := proofs[pid];
      if caller != p.agent { return Err(Unauthorized); }
      if p.revoked { return Err(AlreadyRevoked); }
      proofs := proofs[pid := p.(valid := false, revoked := true)];
      if p.agent in agents {
        agents := agents[p.agent := Failed(agents[p.agent])];
      }
      r := Ok(());
    }
  }
}
