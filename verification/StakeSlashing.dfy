/**
 The stake-slashing contract, the session code that feeds it, and the accounts they move money
 between. A deploy commits its whole effect or reverts it. The contract reads the proof registry's
 state and never writes it; anyone may also send money to its purse outside these entry points.
 */
module StakeSlashing {
  import opened CasperValues
  import opened Numerals
  import opened Wrappers
  import opened MapSums
  import Words
  import Registry = ProofRegistry

  /** The largest 512-bit unsigned integer. */
  const U512_MAX := 0x1_0000_0000_0000_0000 * 0x1_0000_0000_0000_0000
                    * 0x1_0000_0000_0000_0000 * 0x1_0000_0000_0000_0000
                    * 0x1_0000_0000_0000_0000 * 0x1_0000_0000_0000_0000
                    * 0x1_0000_0000_0000_0000 * 0x1_0000_0000_0000_0000 - 1
  const SLASH_BPS := 2000
  const MAX_PROOF_ID_LEN := 128

  datatype Error =
    | AlreadySlashed
    | NotRevoked
    | AgentMismatch
    | InsufficientStake
    | InputTooLong
    | NoMatchingTransfer
    | NoSlashableStake
    | ArithmeticOverflow
    | StakeOverflow
    | ProofNotFound
    | TransferFailed
    | RegistryReverted(e: Registry.Error)

  /** The contract's storage, its purse, the main purses of all accounts, and the registry it reads. */
  datatype World = World(
    registry: Registry.State,
    stakes: map<string, nat>,
    slashed: set<string>,
    totalRecorded: nat,
    purse: nat,
    accounts: map<string, nat>)

  datatype Call =
    | RegistryCall(call: Registry.Call)
    | RecordStake(claimed: nat)
    | Unstake(amount: nat)
    | ReportAndSlash(agent: string, pid: string)
    | SessionStake(amount: nat)
    | DonateToPurse(amount: nat)
    | Pay(to: string, amount: nat)

  datatype Tx = Tx(caller: string, now: U64, call: Call)

  type Outcome = Result<World, Error>

  function SatSub(a: nat, b: nat): nat {
    if a < b then 0 else a - b
  }

  function SatAdd(a: nat, b: nat): nat {
    if a + b > U512_MAX then U512_MAX else a + b
  }

  // ---- money ----

  /** A transfer out of the contract purse: it fails when the purse lacks the funds. */
  function PayOut(w: World, to: string, amount: nat): Outcome {
    if amount > w.purse then Err(TransferFailed)
    else Ok(w.(purse := w.purse - amount, accounts := w.accounts[to := Get(w.accounts, to) + amount]))
  }

  /** A transfer from an account into the contract purse. */
  function PayIn(w: World, payer: string, amount: nat): Outcome {
    if amount > Get(w.accounts, payer) then Err(TransferFailed)
    else Ok(w.(purse := w.purse + amount, accounts := w.accounts[payer := Get(w.accounts, payer) - amount]))
  }

  function DecreaseTotal(w: World, amount: nat): World {
    w.(totalRecorded := SatSub(w.totalRecorded, amount))
  }

  // ---- entry points ----

  /** What record_stake credits: the claim, capped by what the purse holds beyond the recorded total. */
  function Credit(w: World, claimed: nat): nat {
    var available := SatSub(w.purse, w.totalRecorded);
    if claimed > available then available else claimed
  }

  function Record(w: World, caller: string, claimed: nat): Outcome {
    var credit := Credit(w, claimed);
    var current := Get(w.stakes, caller);
    if credit == 0 then Err(NoMatchingTransfer)
    else if current + credit > U512_MAX then Err(StakeOverflow)
    else Ok(w.(stakes := w.stakes[caller := current + credit], totalRecorded := SatAdd(w.totalRecorded, credit)))
  }

  function Withdraw(w: World, caller: string, amount: nat): Outcome {
    var current := Get(w.stakes, caller);
    if amount > current then Err(InsufficientStake)
    else
      var paid := PayOut(w.(stakes := w.stakes[caller := current - amount]), caller, amount);
      if paid.Err? then paid else Ok(DecreaseTotal(paid.value, amount))
  }

  function SlashAmount(stake: nat): nat {
    stake * SLASH_BPS / 10_000
  }

  function Slash(w: World, caller: string, agent: string, pid: string): Outcome {
    if !(0 < |pid| <= MAX_PROOF_ID_LEN) then Err(InputTooLong)
    else if pid in w.slashed then Err(AlreadySlashed)
    else
      var proof := Registry.GetProof(w.registry, pid);
      var current := Get(w.stakes, agent);
      var amount := SlashAmount(current);
      if proof.Err? then Err(ProofNotFound)
      else if proof.value.agent != agent then Err(AgentMismatch)
      else if !proof.value.revoked then Err(NotRevoked)
      else if current * SLASH_BPS > U512_MAX then Err(ArithmeticOverflow)
      else if amount == 0 then Err(NoSlashableStake)
      else if amount > current then Err(ArithmeticOverflow)
      else
        var marked := w.(stakes := w.stakes[agent := current - amount], slashed := w.slashed + {pid});
        var paid := PayOut(marked, caller, amount);
        if paid.Err? then paid else Ok(DecreaseTotal(paid.value, amount))
  }

  /** The session deploy: transfer into the purse, then record_stake, atomically. */
  function Session(w: World, caller: string, amount: nat): Outcome {
    var paid := PayIn(w, caller, amount);
    if paid.Err? then paid else Record(paid.value, caller, amount)
  }

  function Apply(w: World, tx: Tx): Outcome {
    match tx.call
    case RegistryCall(call) =>
      (match Registry.Apply(w.registry, tx.caller, tx.now, call)
       case Ok(r) => Ok(w.(registry := r))
       case Err(e) => Err(RegistryReverted(e)))
    case RecordStake(claimed) => Record(w, tx.caller, claimed)
    case Unstake(amount) => Withdraw(w, tx.caller, amount)
    case ReportAndSlash(agent, pid) => Slash(w, tx.caller, agent, pid)
    case SessionStake(amount) => Session(w, tx.caller, amount)
    case DonateToPurse(amount) => PayIn(w, tx.caller, amount)
    case Pay(to, amount) =>
      if amount > Get(w.accounts, tx.caller) then Err(TransferFailed)
      else
        var debited := w.accounts[tx.caller := Get(w.accounts, tx.caller) - amount];
        Ok(w.(accounts := debited[to := Get(debited, to) + amount]))
  }

  // ---- solvency ----

  ghost function Supply(w: World): nat {
    w.purse + Sum(w.accounts)
  }

  /** Recorded stakes add up to the recorded total, the purse covers it, and all money fits 512 bits. */
  ghost predicate Solvent(w: World) {
    && Sum(w.stakes) == w.totalRecorded
    && w.totalRecorded <= w.purse
    && Supply(w) <= U512_MAX
  }

  /** Every slashed proof exists and is revoked. */
  predicate SlashedAreRevoked(w: World) {
    forall pid :: pid in w.slashed ==> pid in w.registry.proofs && w.registry.proofs[pid].revoked
  }

  ghost predicate Inv(w: World) {
    Registry.Inv(w.registry) && Solvent(w) && SlashedAreRevoked(w)
  }

  lemma SlashAmountIs(stake: nat)
    ensures SlashAmount(stake) == stake / 5 <= stake
    ensures SlashAmount(stake) > 0 <==> stake >= 5
  {
  }

  lemma PayInConserves(w: World, payer: string, amount: nat)
    requires PayIn(w, payer, amount).Ok?
    ensures Supply(PayIn(w, payer, amount).value) == Supply(w)
  {
    SumUpdate(w.accounts, payer, Get(w.accounts, payer) - amount);
  }

  // ---- the entry points in any state, solvent or not ----

  function LessOrZero(a: nat, b: nat): nat {
    if b <= a then a - b else 0
  }

  /**
   Recording in any state: it credits the smaller of the claim and what the purse holds beyond the recorded
   total, refuses when that is nothing or the stake would outgrow 512 bits, and caps the total there.
   */
  lemma RecordIs(w: World, caller: string, claimed: nat)
    ensures var r, surplus := Record(w, caller, claimed), LessOrZero(w.purse, w.totalRecorded);
            var credit := if claimed < surplus then claimed else surplus;
            var stake, total := Get(w.stakes, caller) + credit, w.totalRecorded + credit;
            && (r == Err(NoMatchingTransfer) <==> credit == 0)
            && (r == Err(StakeOverflow) <==> credit > 0 && stake > U512_MAX)
            && (r.Ok? <==> credit > 0 && stake <= U512_MAX)
            && (r.Ok? ==> r.value == w.(stakes := w.stakes[caller := stake],
                                        totalRecorded := if total <= U512_MAX then total else U512_MAX))
  {
  }

  /** A withdrawal in any state: covered by the stake first and by the purse second, the total stopping at zero. */
  lemma WithdrawIs(w: World, caller: string, amount: nat)
    ensures var r, stake := Withdraw(w, caller, amount), Get(w.stakes, caller);
            && (r == Err(InsufficientStake) <==> amount > stake)
            && (r == Err(TransferFailed) <==> amount <= stake && amount > w.purse)
            && (r.Ok? <==> amount <= stake && amount <= w.purse)
            && (r.Ok? ==>
                  r.value == w.(stakes := w.stakes[caller := stake - amount],
                                totalRecorded := LessOrZero(w.totalRecorded, amount), purse := w.purse - amount,
                                accounts := w.accounts[caller := Get(w.accounts, caller) + amount]))
  {
  }

  /** In a solvent state a withdrawal commits exactly when it is covered by the caller's own stake. */
  lemma WithdrawCommitsIff(w: World, caller: string, amount: nat)
    requires Solvent(w)
    ensures Withdraw(w, caller, amount).Ok? <==> amount <= Get(w.stakes, caller)
    ensures Withdraw(w, caller, amount).Err? ==> Withdraw(w, caller, amount).error == InsufficientStake
    ensures Withdraw(w, caller, amount).Ok? ==>
              var t := Withdraw(w, caller, amount).value;
              && Solvent(t) && Supply(t) == Supply(w)
              && amount <= w.totalRecorded && amount <= w.purse
              && t == w.(stakes := w.stakes[caller := Get(w.stakes, caller) - amount],
                         totalRecorded := w.totalRecorded - amount, purse := w.purse - amount,
                         accounts := w.accounts[caller := Get(w.accounts, caller) + amount])
  {
    hide Sum;
    if amount <= Get(w.stakes, caller) {
      StakeCovered(w, caller, amount);
      TakenFromStake(w, caller, amount, caller, w.slashed);
    }
    hide Solvent;
  }

  /** In a solvent state recording commits exactly when something unrecorded is there to be credited. */
  lemma RecordCommitsIff(w: World, caller: string, claimed: nat)
    requires Solvent(w)
    ensures Record(w, caller, claimed).Ok? <==> claimed > 0 && w.purse > w.totalRecorded
    ensures Record(w, caller, claimed).Err? ==> Record(w, caller, claimed).error == NoMatchingTransfer
    ensures Record(w, caller, claimed).Ok? ==>
              var t, surplus := Record(w, caller, claimed).value, w.purse - w.totalRecorded;
              var credit := if claimed < surplus then claimed else surplus;
              && Solvent(t) && Supply(t) == Supply(w)
              && t == w.(stakes := w.stakes[caller := Get(w.stakes, caller) + credit],
                         totalRecorded := w.totalRecorded + credit)
  {
    ValueWithinSum(w.stakes, caller);
    SumUpdate(w.stakes, caller, Get(w.stakes, caller) + Credit(w, claimed));
  }

  /** A session deploy of a positive amount the caller owns commits and records exactly that amount. */
  lemma SessionCommitsIff(w: World, caller: string, amount: nat)
    requires Solvent(w)
    ensures Session(w, caller, amount).Ok? <==> 0 < amount <= Get(w.accounts, caller)
    ensures Session(w, caller, amount).Ok? ==>
              var t := Session(w, caller, amount).value;
              && Solvent(t) && Supply(t) == Supply(w)
              && t == w.(stakes := w.stakes[caller := Get(w.stakes, caller) + amount],
                         totalRecorded := w.totalRecorded + amount, purse := w.purse + amount,
                         accounts := w.accounts[caller := Get(w.accounts, caller) - amount])
    ensures Session(w, caller, amount).Err? ==>
              Session(w, caller, amount).error == (if amount == 0 then NoMatchingTransfer else TransferFailed)
  {
    if amount <= Get(w.accounts, caller) {
      var paid := PayIn(w, caller, amount).value;
      PayInConserves(w, caller, amount);
      RecordCommitsIff(paid, caller, amount);
    }
  }

  /** In a solvent state a slash commits exactly under its guards: the payout itself never fails. */
  lemma SlashCommitsIff(w: World, caller: string, agent: string, pid: string)
    requires Solvent(w)
    ensures Slash(w, caller, agent, pid).Ok? <==>
              && 1 <= |pid| <= 128 && pid !in w.slashed
              && pid in w.registry.proofs && w.registry.proofs[pid].agent == agent && w.registry.proofs[pid].revoked
              && 5 <= Get(w.stakes, agent) && Get(w.stakes, agent) * 2000 <= U512_MAX
    ensures Slash(w, caller, agent, pid).Err? ==> !Slash(w, caller, agent, pid).error.TransferFailed?
    ensures Slash(w, caller, agent, pid).Ok? ==>
              var t := Slash(w, caller, agent, pid).value;
              var amount := Get(w.stakes, agent) / 5;
              && Solvent(t) && Supply(t) == Supply(w)
              && amount <= w.totalRecorded && amount <= w.purse
              && t == w.(stakes := w.stakes[agent := Get(w.stakes, agent) - amount], slashed := w.slashed + {pid},
                         totalRecorded := w.totalRecorded - amount, purse := w.purse - amount,
                         accounts := w.accounts[caller := Get(w.accounts, caller) + amount])
  {
    hide Sum, Slash, SlashAmount;
    var current := Get(w.stakes, agent);
    SlashAmountIs(current);
    StakeCovered(w, agent, current / 5);
    SlashIs(w, caller, agent, pid);
    if Slash(w, caller, agent, pid).Ok? {
      TakenFromStake(w, agent, current / 5, caller, w.slashed + {pid});
    }
  }

  /** Any part of a stake is within the recorded total and the purse. */
  lemma StakeCovered(w: World, owner: string, amount: nat)
    requires Solvent(w) && amount <= Get(w.stakes, owner)
    ensures amount <= w.totalRecorded && amount <= w.purse
  {
    ValueWithinSum(w.stakes, owner);
  }

  /** Paying a part of a stake out keeps the books and the money. */
  lemma TakenFromStake(w: World, owner: string, amount: nat, to: string, slashed: set<string>)
    requires Solvent(w) && amount <= Get(w.stakes, owner) && amount <= w.totalRecorded && amount <= w.purse
    ensures var t := w.(stakes := w.stakes[owner := Get(w.stakes, owner) - amount], slashed := slashed,
                        totalRecorded := w.totalRecorded - amount, purse := w.purse - amount,
                        accounts := w.accounts[to := Get(w.accounts, to) + amount]);
            Solvent(t) && Supply(t) == Supply(w)
  {
    hide Sum;
    SumUpdate(w.stakes, owner, Get(w.stakes, owner) - amount);
    SumUpdate(w.accounts, to, Get(w.accounts, to) + amount);
  }

  /** A slash in any state, by its guards: the purse may then fail it, and the total stops at zero. */
  lemma SlashIs(w: World, caller: string, agent: string, pid: string)
    ensures var r, current := Slash(w, caller, agent, pid), Get(w.stakes, agent);
            var guarded := && 1 <= |pid| <= 128 && pid !in w.slashed && pid in w.registry.proofs
                           && w.registry.proofs[pid].agent == agent && w.registry.proofs[pid].revoked
                           && 5 <= current && current * 2000 <= U512_MAX;
            && (r.Ok? <==> guarded && current / 5 <= w.purse)
            && (r == Err(TransferFailed) <==> guarded && current / 5 > w.purse)
            && (r.Ok? ==>
                  r.value == w.(stakes := w.stakes[agent := current - current / 5], slashed := w.slashed + {pid},
                                totalRecorded := LessOrZero(w.totalRecorded, current / 5),
                                purse := w.purse - current / 5,
                                accounts := w.accounts[caller := Get(w.accounts, caller) + current / 5]))
  {
    SlashAmountIs(Get(w.stakes, agent));
    hide SlashAmount;
  }

  /** Why a slash is refused: the first guard that fails. */
  lemma SlashRefusedFor(w: World, caller: string, agent: string, pid: string)
    ensures var r := Slash(w, caller, agent, pid);
            && (r == Err(InputTooLong) <==> !(1 <= |pid| <= 128))
            && (r == Err(AlreadySlashed) <==> 1 <= |pid| <= 128 && pid in w.slashed)
            && (1 <= |pid| <= 128 && pid !in w.slashed ==>
                  && (r == Err(ProofNotFound) <==> pid !in w.registry.proofs)
                  && (pid in w.registry.proofs ==>
                        var p := w.registry.proofs[pid];
                        && (r == Err(AgentMismatch) <==> p.agent != agent)
                        && (r == Err(NotRevoked) <==> p.agent == agent && !p.revoked)
                        && (p.agent == agent && p.revoked ==>
                              var product := Get(w.stakes, agent) * 2000;
                              && (r == Err(ArithmeticOverflow) <==> product > U512_MAX)
                              && (r == Err(NoSlashableStake) <==> product <= U512_MAX && product < 10_000))))
  {
    SlashAmountIs(Get(w.stakes, agent));
    hide SlashAmount;
  }

  lemma PayKeeps(w: World, caller: string, to: string, amount: nat)
    requires amount <= Get(w.accounts, caller)
    ensures var debited := w.accounts[caller := Get(w.accounts, caller) - amount];
            Sum(debited[to := Get(debited, to) + amount]) == Sum(w.accounts)
  {
    var debited := w.accounts[caller := Get(w.accounts, caller) - amount];
    SumUpdate(w.accounts, caller, Get(w.accounts, caller) - amount);
    SumUpdate(debited, to, Get(debited, to) + amount);
  }

  /** 2^512 - 1. */
  lemma LargestU512()
    ensures U512_MAX + 1 == Pow2(512)
  {
    hide Pow2;
    Words.Pow2Values();
    Words.Pow2Sum(64, 64);
    Words.Pow2Sum(128, 128);
    Words.Pow2Sum(256, 256);
  }

  /** A donation or a payment commits exactly when the payer owns the amount, and moves exactly that. */
  lemma TransfersCommitIff(w: World, caller: string, now: U64, to: string, amount: nat)
    ensures var gift := Apply(w, Tx(caller, now, DonateToPurse(amount)));
            var pay := Apply(w, Tx(caller, now, Pay(to, amount)));
            && (gift.Ok? <==> amount <= Get(w.accounts, caller)) && (pay.Ok? <==> amount <= Get(w.accounts, caller))
            && (gift.Ok? ==>
                  gift.value == w.(purse := w.purse + amount,
                                   accounts := w.accounts[caller := Get(w.accounts, caller) - amount]))
            && (pay.Ok? ==>
                  && pay.value == w.(accounts := pay.value.accounts)
                  && forall a :: Get(pay.value.accounts, a)
                                 == Get(w.accounts, a) - (if a == caller then amount else 0)
                                    + (if a == to then amount else 0))
  {
  }

  /** The registry only ever turns proofs revoked, so a slashed proof stays revoked. */
  lemma RegistryKeepsSlashed(w: World, tx: Tx)
    requires Inv(w) && tx.call.RegistryCall? && Apply(w, tx).Ok?
    ensures SlashedAreRevoked(Apply(w, tx).value)
  {
    hide Registry.Apply, Registry.PidOf;
    forall pid | pid in w.slashed
      ensures pid in Apply(w, tx).value.registry.proofs && Apply(w, tx).value.registry.proofs[pid].revoked
    {
      Registry.ProofPreserved(w.registry, tx.caller, tx.now, tx.call.call, pid);
    }
  }

  /** Every committed deploy keeps solvency and accountability and moves money without creating any. */
  lemma InvStep(w: World, tx: Tx)
    requires Inv(w) && Apply(w, tx).Ok?
    ensures Inv(Apply(w, tx).value) && Supply(Apply(w, tx).value) == Supply(w)
  {
    hide Registry.Inv, Registry.Apply, Sum, Record, Withdraw, Slash, Session;
    match tx.call {
      case RegistryCall(call) =>
        Registry.InvStep(w.registry, tx.caller, tx.now, call);
        RegistryKeepsSlashed(w, tx);
      case RecordStake(claimed) =>
        RecordCommitsIff(w, tx.caller, claimed);
        RecordFrame(w, tx.caller, claimed);
      case Unstake(amount) =>
        WithdrawCommitsIff(w, tx.caller, amount);
        WithdrawFrame(w, tx.caller, amount);
      case ReportAndSlash(agent, pid) => SlashCommitsIff(w, tx.caller, agent, pid);
      case SessionStake(amount) =>
        SessionCommitsIff(w, tx.caller, amount);
        SessionFrame(w, tx.caller, amount);
      case DonateToPurse(amount) => PayInConserves(w, tx.caller, amount);
      case Pay(to, amount) => PayKeeps(w, tx.caller, to, amount);
    }
  }

  lemma RecordFrame(w: World, caller: string, claimed: nat)
    requires Record(w, caller, claimed).Ok?
    ensures Record(w, caller, claimed).value.slashed == w.slashed
    ensures Record(w, caller, claimed).value.registry == w.registry
    ensures Record(w, caller, claimed).value.accounts == w.accounts
  {
  }

  lemma WithdrawFrame(w: World, caller: string, amount: nat)
    requires Withdraw(w, caller, amount).Ok?
    ensures Withdraw(w, caller, amount).value.slashed == w.slashed
    ensures Withdraw(w, caller, amount).value.registry == w.registry
    ensures Withdraw(w, caller, amount).value.accounts
         == w.accounts[caller := Get(w.accounts, caller) + amount]
  {
  }

  lemma SessionFrame(w: World, caller: string, amount: nat)
    requires Session(w, caller, amount).Ok?
    ensures Session(w, caller, amount).value.slashed == w.slashed
    ensures Session(w, caller, amount).value.registry == w.registry
  {
  }

  // ---- runs ----

  function After(w: World, txs: seq<Tx>, k: nat): World
    requires k <= |txs|
  {
    if k == 0 then w else
      var before := After(w, txs, k - 1);
      var r := Apply(before, txs[k - 1]);
      if r.Ok? then r.value else before
  }

  predicate Commits(w: World, txs: seq<Tx>, k: nat)
    requires k < |txs|
  {
    Apply(After(w, txs, k), txs[k]).Ok?
  }

  /** The contracts just installed: nothing staked, an empty registry, money only in accounts. */
  ghost predicate Fresh(w: World) {
    w.registry == Registry.EMPTY && w.stakes == map[] && w.slashed == {} && w.totalRecorded == 0
    && w.purse == 0 && Sum(w.accounts) <= U512_MAX
  }

  lemma FreshInv(w: World)
    requires Fresh(w)
    ensures Inv(w)
  {
    hide Registry.PidOf;
    forall a ensures Registry.Accounted(w.registry, a) {
    }
  }

  /** Solvency and conservation in every state of every run. */
  lemma {:induction false} AlwaysSolvent(w: World, txs: seq<Tx>, k: nat)
    requires Inv(w) && k <= |txs|
    ensures Inv(After(w, txs, k)) && Supply(After(w, txs, k)) == Supply(w)
  {
    hide Inv, Apply, Supply;
    if k > 0 {
      AlwaysSolvent(w, txs, k - 1);
      var before := After(w, txs, k - 1);
      if Apply(before, txs[k - 1]).Ok? { InvStep(before, txs[k - 1]); }
    }
  }

  /** No payout in any run lacks funds: unstake and slash never revert on the transfer. */
  lemma NoPayoutLacksFunds(w: World, txs: seq<Tx>, k: nat)
    requires Inv(w) && k < |txs| && (txs[k].call.Unstake? || txs[k].call.ReportAndSlash?)
    ensures Apply(After(w, txs, k), txs[k]) != Err(TransferFailed)
  {
    hide Registry.Inv, Sum, Withdraw, Slash;
    AlwaysSolvent(w, txs, k);
    var before := After(w, txs, k);
    match txs[k].call {
      case Unstake(amount) => WithdrawCommitsIff(before, txs[k].caller, amount);
      case ReportAndSlash(agent, pid) => SlashCommitsIff(before, txs[k].caller, agent, pid);
    }
  }

  // ---- slashing against the registry ----

  function SlashesOf(w: World, agent: string): set<string> {
    set pid | pid in w.slashed && pid in w.registry.proofs && w.registry.proofs[pid].agent == agent
  }

  /**
   In every state of every run: an agent's slashes are at most its failed count, which is the
   number of its revoked proofs, which is at most its total, the number of its proofs; and its
   score is 50 less 5 per failure, never below zero.
   */
  lemma Accountability(w: World, txs: seq<Tx>, k: nat, agent: string)
    requires Inv(w) && k <= |txs|
    ensures var t := After(w, txs, k);
            && |SlashesOf(t, agent)| <= |Registry.RevokedOf(t.registry, agent)|
            && |Registry.RevokedOf(t.registry, agent)| <= |Registry.ProofsOf(t.registry, agent)|
            && (agent in t.registry.agents ==>
                  var a := t.registry.agents[agent];
                  && a.failed == |Registry.RevokedOf(t.registry, agent)|
                  && a.total == |Registry.ProofsOf(t.registry, agent)|
                  && a.score == if 5 * a.failed <= 50 then 50 - 5 * a.failed else 0)
  {
    hide Registry.PidOf, Registry.Numbered, Solvent;
    AlwaysSolvent(w, txs, k);
    var t := After(w, txs, k);
    assert Registry.Accounted(t.registry, agent);
    assert SlashesOf(t, agent) <= Registry.RevokedOf(t.registry, agent);
    Registry.CardSubset(SlashesOf(t, agent), Registry.RevokedOf(t.registry, agent));
    Registry.CountersOrdered(t.registry, agent);
  }

  lemma SlashedGrows(w: World, tx: Tx)
    requires Apply(w, tx).Ok?
    ensures w.slashed <= Apply(w, tx).value.slashed
  {
    hide Registry.Apply, SlashAmount;
  }

  lemma {:induction false} SlashedForever(w: World, txs: seq<Tx>, j: nat, k: nat)
    requires j <= k <= |txs|
    ensures After(w, txs, j).slashed <= After(w, txs, k).slashed
    decreases k
  {
    hide Apply;
    if j < k {
      SlashedForever(w, txs, j, k - 1);
      var before := After(w, txs, k - 1);
      if Apply(before, txs[k - 1]).Ok? { SlashedGrows(before, txs[k - 1]); }
    }
  }

  /** A proof is slashed at most once in any run. */
  lemma SlashedOnce(w: World, txs: seq<Tx>, j: nat, k: nat, pid: string)
    requires j < k < |txs| && Commits(w, txs, j)
    requires txs[j].call.ReportAndSlash? && txs[j].call.pid == pid
    requires txs[k].call.ReportAndSlash? && txs[k].call.pid == pid
    ensures !Commits(w, txs, k)
  {
    SlashMarks(After(w, txs, j), txs[j]);
    SlashedForever(w, txs, j + 1, k);
    SlashRefusesMarked(After(w, txs, k), txs[k]);
    hide Apply;
  }

  lemma SlashMarks(w: World, tx: Tx)
    requires tx.call.ReportAndSlash? && Apply(w, tx).Ok?
    ensures tx.call.pid in Apply(w, tx).value.slashed
  {
    hide SlashAmount;
  }

  lemma SlashRefusesMarked(w: World, tx: Tx)
    requires tx.call.ReportAndSlash? && tx.call.pid in w.slashed
    ensures Apply(w, tx).Err?
  {
  }

  lemma ProofKept(w: World, tx: Tx, pid: string)
    requires Inv(w) && Apply(w, tx).Ok? && pid in w.registry.proofs
    ensures pid in Apply(w, tx).value.registry.proofs
    ensures Registry.Preserved(w.registry.proofs[pid], Apply(w, tx).value.registry.proofs[pid])
  {
    hide Registry.Apply, Registry.PidOf, SlashAmount;
    if tx.call.RegistryCall? {
      Registry.ProofPreserved(w.registry, tx.caller, tx.now, tx.call.call, pid);
    }
  }

  /** No later transaction overwrites a proof record; at most it becomes revoked, for good. */
  lemma {:induction false} ProofForever(w: World, txs: seq<Tx>, j: nat, k: nat, pid: string)
    requires Inv(w) && j <= k <= |txs| && pid in After(w, txs, j).registry.proofs
    ensures pid in After(w, txs, k).registry.proofs
    ensures Registry.Preserved(After(w, txs, j).registry.proofs[pid], After(w, txs, k).registry.proofs[pid])
    decreases k
  {
    hide Apply, Inv;
    if j < k {
      ProofForever(w, txs, j, k - 1, pid);
      AlwaysSolvent(w, txs, k - 1);
      var before := After(w, txs, k - 1);
      if Apply(before, txs[k - 1]).Ok? { ProofKept(before, txs[k - 1], pid); }
    }
  }

  // ---- who can lower a stake ----

  /** A stake falls only by its owner's unstake, or by a slash of a revoked proof of that agent. */
  lemma StakeFallStep(w: World, tx: Tx, agent: string)
    requires Apply(w, tx).Ok? && Get(Apply(w, tx).value.stakes, agent) < Get(w.stakes, agent)
    ensures || (tx.call.Unstake? && tx.caller == agent)
            || (tx.call.ReportAndSlash? && tx.call.agent == agent
                && tx.call.pid in w.registry.proofs && w.registry.proofs[tx.call.pid].agent == agent
                && w.registry.proofs[tx.call.pid].revoked)
  {
    hide Registry.Apply, SlashAmount;
  }

  lemma RevocationStep(w: World, tx: Tx, pid: string)
    requires Apply(w, tx).Ok? && pid in Apply(w, tx).value.registry.proofs
    requires Apply(w, tx).value.registry.proofs[pid].revoked
    requires pid in w.registry.proofs ==> !w.registry.proofs[pid].revoked
    ensures tx.call == RegistryCall(Registry.RevokeProof(pid))
    ensures tx.caller == Apply(w, tx).value.registry.proofs[pid].agent
  {
    hide SlashAmount, Registry.PidOf;
  }

  /** Every revoked proof of a run was revoked by its own agent in an earlier transaction. */
  lemma {:induction false} RevokedByItsAgent(w: World, txs: seq<Tx>, k: nat, pid: string) returns (j: nat)
    requires Fresh(w) && k <= |txs| && pid in After(w, txs, k).registry.proofs
    requires After(w, txs, k).registry.proofs[pid].revoked
    ensures j < k && Commits(w, txs, j) && txs[j].call == RegistryCall(Registry.RevokeProof(pid))
    ensures txs[j].caller == After(w, txs, k).registry.proofs[pid].agent
  {
    hide Apply, Inv;
    assert k > 0;
    var before := After(w, txs, k - 1);
    if pid in before.registry.proofs && before.registry.proofs[pid].revoked {
      j := RevokedByItsAgent(w, txs, k - 1, pid);
      FreshInv(w);
      ProofForever(w, txs, k - 1, k, pid);
    } else {
      j := k - 1;
      RevocationStep(before, txs[j], pid);
    }
  }

  lemma SubmissionStep(w: World, tx: Tx, pid: string)
    requires Inv(w) && Apply(w, tx).Ok? && pid in Apply(w, tx).value.registry.proofs && pid !in w.registry.proofs
    ensures var p := Apply(w, tx).value.registry.proofs[pid];
            && tx.call == RegistryCall(Registry.SubmitProof(p.proofHash, p.inputHash, p.outputHash, p.modelHash))
            && tx.caller == p.agent && tx.now == p.timestamp
  {
    hide SlashAmount, Registry.PidOf, Registry.Inv, Solvent, SlashedAreRevoked;
  }

  /**
   Every proof of a run was submitted by its agent, with those four hashes and at that time, in an earlier
   transaction.
   */
  lemma {:induction false} SubmittedByItsAgent(w: World, txs: seq<Tx>, k: nat, pid: string) returns (j: nat)
    requires Fresh(w) && k <= |txs| && pid in After(w, txs, k).registry.proofs
    ensures var p := After(w, txs, k).registry.proofs[pid];
            && j < k && Commits(w, txs, j) && txs[j].caller == p.agent && txs[j].now == p.timestamp
            && txs[j].call == RegistryCall(Registry.SubmitProof(p.proofHash, p.inputHash, p.outputHash, p.modelHash))
  {
    hide Apply, Inv;
    assert k > 0;
    FreshInv(w);
    AlwaysSolvent(w, txs, k - 1);
    var before := After(w, txs, k - 1);
    if pid in before.registry.proofs {
      j := SubmittedByItsAgent(w, txs, k - 1, pid);
      ProofForever(w, txs, k - 1, k, pid);
    } else {
      j := k - 1;
      SubmissionStep(before, txs[j], pid);
    }
  }

  /**
   Slashing cannot be used against an agent that revoked nothing: in every run from installation a stake
   falls only by its owner's own unstake, or by a slash of a proof that the agent itself revoked in an
   earlier transaction.
   */
  lemma StakeFallsOnlyBy(w: World, txs: seq<Tx>, k: nat, agent: string) returns (j: nat)
    requires Fresh(w) && k < |txs|
    requires Get(After(w, txs, k + 1).stakes, agent) < Get(After(w, txs, k).stakes, agent)
    ensures || (txs[k].call.Unstake? && txs[k].caller == agent)
            || (txs[k].call.ReportAndSlash? && txs[k].call.agent == agent
                && j < k && Commits(w, txs, j)
                && txs[j].caller == agent && txs[j].call == RegistryCall(Registry.RevokeProof(txs[k].call.pid)))
  {
    hide Apply;
    j := 0;
    var before := After(w, txs, k);
    StakeFallStep(before, txs[k], agent);
    if !(txs[k].call.Unstake? && txs[k].caller == agent) {
      j := RevokedByItsAgent(w, txs, k, txs[k].call.pid);
    }
  }

  /**
   Nobody can credit stake to another name: in every run a stake rises only by its owner's own
   record_stake or session deploy.
   */
  lemma StakeRisesOnlyBy(w: World, txs: seq<Tx>, k: nat, agent: string)
    requires k < |txs| && Get(After(w, txs, k + 1).stakes, agent) > Get(After(w, txs, k).stakes, agent)
    ensures Commits(w, txs, k) && txs[k].caller == agent
            && (txs[k].call.RecordStake? || txs[k].call.SessionStake?)
  {
    AfterOne(w, txs, k);
    if Commits(w, txs, k) { StakeRiseStep(After(w, txs, k), txs[k], agent); }
    hide Apply;
  }

  lemma StakeRiseStep(w: World, tx: Tx, agent: string)
    requires Apply(w, tx).Ok? && Get(Apply(w, tx).value.stakes, agent) > Get(w.stakes, agent)
    ensures tx.caller == agent && (tx.call.RecordStake? || tx.call.SessionStake?)
  {
    hide Registry.Apply, SlashAmount;
  }

  lemma AfterOne(w: World, txs: seq<Tx>, k: nat)
    requires k < |txs|
    ensures After(w, txs, 0) == w
    ensures Commits(w, txs, k) ==> After(w, txs, k + 1) == Apply(After(w, txs, k), txs[k]).value
    ensures Commits(w, txs, k) <==> Apply(After(w, txs, k), txs[k]).Ok?
  {
    hide Apply;
  }

  /** A donation raises the purse and nothing the contract keeps books on. */
  lemma Donated(w: World, caller: string, now: U64, n: nat)
    requires Solvent(w) && n <= Get(w.accounts, caller)
    ensures var r := Apply(w, Tx(caller, now, DonateToPurse(n)));
            && r.Ok? && Solvent(r.value)
            && r.value.purse == w.purse + n && r.value.totalRecorded == w.totalRecorded && r.value.stakes == w.stakes
            && r.value.accounts == w.accounts[caller := Get(w.accounts, caller) - n]
  {
    hide Sum;
    PayInConserves(w, caller, n);
  }

  /** A recording is credited from whatever surplus the purse holds, and moves no account. */
  lemma Recorded(w: World, caller: string, now: U64, n: nat)
    requires Solvent(w) && n > 0 && w.purse >= w.totalRecorded + n
    ensures var r := Apply(w, Tx(caller, now, RecordStake(n)));
            && r.Ok? && Solvent(r.value)
            && Get(r.value.stakes, caller) == Get(w.stakes, caller) + n && r.value.accounts == w.accounts
  {
    RecordCommitsIff(w, caller, n);
    RecordFrame(w, caller, n);
    hide Solvent, Supply, Sum;
  }

  lemma Withdrawn(w: World, caller: string, now: U64, n: nat)
    requires Solvent(w) && n <= Get(w.stakes, caller)
    ensures var r := Apply(w, Tx(caller, now, Unstake(n)));
            && r.Ok? && r.value.accounts == w.accounts[caller := Get(w.accounts, caller) + n]
  {
    WithdrawCommitsIff(w, caller, n);
    WithdrawFrame(w, caller, n);
    hide Solvent, Supply, Sum, Withdraw;
  }

  lemma GetUpdated(m: map<string, nat>, a: string, b: string, x: nat)
    ensures Get(m[a := x], b) == if a == b then x else Get(m, b)
  {
  }

  /**
   The recording with no transfer behind it, documented as capped at zero, is credited when the purse
   holds a surplus: for any two accounts and any positive amount the first one owns, it sends the amount
   into the purse, the second records it without paying and withdraws it.
   */
  lemma UnbackedRecordingPaid(w: World, a: string, b: string, n: nat)
    requires Solvent(w) && a != b && 0 < n <= Get(w.accounts, a)
    ensures var txs := [Tx(a, 0, DonateToPurse(n)), Tx(b, 0, RecordStake(n)), Tx(b, 0, Unstake(n))];
            && Commits(w, txs, 0) && Commits(w, txs, 1) && Commits(w, txs, 2)
            && Get(After(w, txs, 3).accounts, a) == Get(w.accounts, a) - n
            && Get(After(w, txs, 3).accounts, b) == Get(w.accounts, b) + n
  {
    var txs := [Tx(a, 0, DonateToPurse(n)), Tx(b, 0, RecordStake(n)), Tx(b, 0, Unstake(n))];
    var poorer := w.accounts[a := Get(w.accounts, a) - n];
    SolventCovers(w);
    hide *;
    AfterOne(w, txs, 0);
    Donated(w, a, 0, n);
    AfterOne(w, txs, 1);
    Recorded(After(w, txs, 1), b, 0, n);
    AfterOne(w, txs, 2);
    Withdrawn(After(w, txs, 2), b, 0, n);
    GetUpdated(w.accounts, a, b, Get(w.accounts, a) - n);
    GetUpdated(w.accounts, a, a, Get(w.accounts, a) - n);
    GetUpdated(poorer, b, b, Get(poorer, b) + n);
    GetUpdated(poorer, b, a, Get(poorer, b) + n);
  }

  lemma SolventCovers(w: World)
    requires Solvent(w)
    ensures w.totalRecorded <= w.purse
  {
  }

  // ---- the contract ----

  ghost predicate Ran(w: World, tx: Tx, t: World, r: Result<(), Error>) {
    match Apply(w, tx)
    case Ok(v) => r.Ok? && t == v
    case Err(e) => r == Err(e) && t == w
  }

  /** The ledger the host keeps: the contract's purse and the accounts' main purses. */
  class Bank {
    var purse: nat
    var accounts: map<string, nat>

    constructor (accounts: map<string, nat>)
      ensures this.accounts == accounts && purse == 0
    {
      this.accounts := accounts;
      purse := 0;
    }

    method TransferFromPurse(to: string, amount: nat) returns (ok: bool)
      modifies this
      ensures ok <==> amount <= old(purse)
      ensures ok ==> purse == old(purse) - amount && accounts == old(accounts)[to := Get(old(accounts), to) + amount]
      ensures !ok ==> purse == old(purse) && accounts == old(accounts)
    {
      if amount > purse { return false; }
      purse := purse - amount;
      accounts := accounts[to := Get(accounts, to) + amount];
      ok := true;
    }

    method TransferToPurse(payer: string, amount: nat) returns (ok: bool)
      modifies this
      ensures ok <==> amount <= Get(old(accounts), payer)
      ensures ok ==>
                && purse == old(purse) + amount
                && accounts == old(accounts)[payer := Get(old(accounts), payer) - amount]
      ensures !ok ==> purse == old(purse) && accounts == old(accounts)
    {
      if amount > Get(accounts, payer) { return false; }
      accounts := accounts[payer := Get(accounts, payer) - amount];
      purse := purse + amount;
      ok := true;
    }
  }

  class Contract {
    const registry: Registry.Contract
    const bank: Bank
    var stakes: map<string, nat>
    var slashed: set<string>
    var totalRecorded: nat

    ghost function View(): World
      reads this, registry, bank
    {
      World(registry.View(), stakes, slashed, totalRecorded, bank.purse, bank.accounts)
    }

    constructor (registry: Registry.Contract, bank: Bank)
      ensures View() == World(registry.View(), map[], {}, 0, bank.purse, bank.accounts)
      ensures this.registry == registry && this.bank == bank
    {
      this.registry := registry;
      this.bank := bank;
      stakes := map[];
      slashed := {};
      totalRecorded := 0;
    }

    method DecreaseTotalRecorded(amount: nat)
      modifies this
      ensures totalRecorded == SatSub(old(totalRecorded), amount)
      ensures stakes == old(stakes) && slashed == old(slashed)
    {
      totalRecorded := SatSub(totalRecorded, amount);
    }

    method RecordStake(caller: string, now: U64, claimed: nat) returns (r: Result<(), Error>)
      modifies this
      ensures Ran(old(View()), Tx(caller, now, Call.RecordStake(claimed)), View(), r)
    {
      var available := SatSub(bank.purse, totalRecorded);
      var credit := if claimed > available then available else claimed;
      if credit == 0 { return Err(NoMatchingTransfer); }
      var current := Get(stakes, caller);
      if current + credit > U512_MAX { return Err(StakeOverflow); }
      stakes := stakes[caller := current + credit];
      totalRecorded := SatAdd(totalRecorded, credit);
      r := Ok(());
    }

    method Unstake(caller: string, now: U64, amount: nat) returns (r: Result<(), Error>)
      modifies this, bank
      ensures Ran(old(View()), Tx(caller, now, Call.Unstake(amount)), View(), r)
    {
      var current := Get(stakes, caller);
      if amount > current { return Err(InsufficientStake); }
      var before := stakes;
      stakes := stakes[caller := current - amount];
      var ok := bank.TransferFromPurse(caller, amount);
      if !ok {
        stakes := before;
        return Err(TransferFailed);
      }
      DecreaseTotalRecorded(amount);
      r := Ok(());
    }

    method ReportAndSlash(caller: string, now: U64, agent: string, pid: string) returns (r: Result<(), Error>)
      modifies this, bank
      ensures Ran(old(View()), Tx(caller, now, Call.ReportAndSlash(agent, pid)), View(), r)
    {
      if |pid| == 0 || |pid| > MAX_PROOF_ID_LEN { return Err(InputTooLong); }
      if pid in slashed { return Err(AlreadySlashed); }
      if pid !in registry.proofs { return Err(ProofNotFound); }
      var proof := registry.proofs[pid];
      if proof.agent != agent { return Err(AgentMismatch); }
      if !proof.revoked { return Err(NotRevoked); }
      var current := Get(stakes, agent);
      if current * SLASH_BPS > U512_MAX { return Err(ArithmeticOverflow); }
      var amount := current * SLASH_BPS / 10_000;
      if amount == 0 { return Err(NoSlashableStake); }
      if amount > current { return Err(ArithmeticOverflow); }
      var stakesBefore, slashedBefore := stakes, slashed;
      stakes := stakes[agent := current - amount];
      slashed := slashed + {pid};
      var ok := bank.TransferFromPurse(caller, amount);
      if !ok {
        stakes, slashed := stakesBefore, slashedBefore;
        return Err(TransferFailed);
      }
      DecreaseTotalRecorded(amount);
      r := Ok(());
    }

    /** The session code, run in the caller's account: transfer in, then record_stake; a failure undoes both. */
    method SessionStake(caller: string, now: U64, amount: nat) returns (r: Result<(), Error>)
      modifies this, bank
      ensures Ran(old(View()), Tx(caller, now, Call.SessionStake(amount)), View(), r)
    {
      var purse, accounts := bank.purse, bank.accounts;
      var ok := bank.TransferToPurse(caller, amount);
      if !ok { return Err(TransferFailed); }
      r := RecordStake(caller, now, amount);
      if r.Err? {
        bank.purse := purse;
        bank.accounts := accounts;
      }
    }
  }
}
