/**
  From the attestor to the bridge.  The canister reads transactions, the bridge assumes operators
  that mirror records: an operator who attests only what the canister accepted is such an operator.
 */
module Operator {
  import opened Wrappers
  import opened Bytes
  import opened Merkle
  import opened Digests
  import opened Accounting
  import opened Encoding
  import opened Bridge
  import Attestor
  import Wire
  import Pool
  import EvmPool
  import MintLedger
  import Crossing

  /** The words of instruction bytes are those of the instruction that the program executes. */
  predicate Denotes(hash: Poseidon<Bytes32>, data: Wire.Parsed, ix: Pool.Instruction) {
    match data
    case Deposit(_, mint, amount, commitment) =>
      ix.Deposit? && ix.mint == mint && ix.amount == amount && Eval(hash, ix.commitment) == commitment
    case Withdraw(_, root, nf, mint, amount, recipient) =>
      ix.Withdraw? && Eval(hash, ix.root) == root && Eval(hash, ix.nullifier) == nf && ix.mint == mint && ix.amount == amount
      && ix.recipient == recipient
    case Transfer(_, root, nf0, nf1, c0, c1) =>
      ix.Transfer? && Eval(hash, ix.root) == root && Eval(hash, ix.nullifiers.0) == nf0 && Eval(hash, ix.nullifiers.1) == nf1
      && Eval(hash, ix.outs.0) == c0 && Eval(hash, ix.outs.1) == c1
    case Burn(_, root, nf, mint, amount, chain, to) =>
      ix.BurnNote? && Eval(hash, ix.root) == root && Eval(hash, ix.nullifier) == nf && ix.mint == mint && ix.amount == amount
      && Eval(hash, ix.destChain) == chain && Eval(hash, ix.destAddress) == to
    case AddPendingXburn(nf, chain, out) =>
      ix.AddPending? && Eval(hash, ix.nullifier) == nf && Eval(hash, ix.destChain) == chain && Eval(hash, ix.out) == out
    case MintFromXburn(_, root, nf, chain, out) =>
      ix.MintFromXburn? && Eval(hash, ix.root) == root && Eval(hash, ix.nullifier) == nf && Eval(hash, ix.destChain) == chain
      && Eval(hash, ix.out) == out
    case Xburn(_, root, nf, chain, out) =>
      ix.XburnNote? && Eval(hash, ix.root) == root && Eval(hash, ix.nullifier) == nf && Eval(hash, ix.destChain) == chain
      && Eval(hash, ix.out) == out
    case InitializePool => false
    case InitializeXburnPending(_) => false
  }

  /** Step `i` of the run executed `data`, and the pool accepted it. */
  predicate ExecutedAt(hash: Poseidon<Bytes32>, s: System, steps: seq<Step>, i: nat, data: Wire.Parsed)
    requires Shaped2(s) && i < |steps|
  {
    && steps[i].OnSolana? && Denotes(hash, data, steps[i].ix)
    && Pool.Process(Run(s, steps[..i]).sol, steps[i].ix).Ok?
  }

  /**
    What a finalised transaction means: unless it failed, its first instruction to the program is
    one that the pool accepted in the run.  Nothing is said about a failed transaction.
   */
  ghost predicate Finalised(hash: Poseidon<Bytes32>, program: string, tx: Attestor.Transaction, s: System, steps: seq<Step>)
    requires Shaped2(s)
  {
    tx.Found? && !tx.failed ==>
      forall j: nat, k: nat | Attestor.FirstProgramIx(tx, program, j, k) && tx.instructions.value[k].data.Some? ::
        var parsed := Wire.Dispatch(tx.instructions.value[k].data.value);
        parsed.Ok? ==> exists i: nat :: i < |steps| && ExecutedAt(hash, s, steps, i, parsed.value)
  }

  function Parts(x: Xburn): set<Digest> {
    {x.nullifier, x.destChain, x.out}
  }

  /** The encoding separates the tuples that are compared: the claimed one and those burned in the run. */
  ghost predicate Separates(hash: Poseidon<Bytes32>, digests: set<Digest>, steps: seq<Step>) {
    && InjectiveOn(hash, digests)
    && forall i :: 0 <= i < |steps| && steps[i].OnSolana? && steps[i].ix.XburnNote? ==>
         Parts(Xburn(steps[i].ix.nullifier, steps[i].ix.destChain, steps[i].ix.out)) <= digests
  }

  /** What the canister accepts for the claim `x`. */
  predicate Accepted(hash: Poseidon<Bytes32>, program: string, tx: Attestor.Transaction, x: Xburn) {
    Attestor.Attests(tx, program, Eval(hash, x.nullifier), Eval(hash, x.destChain), Eval(hash, x.out))
  }

  lemma {:induction false} AcceptedReads(hash: Poseidon<Bytes32>, program: string, tx: Attestor.Transaction, x: Xburn)
    returns (j: nat, k: nat, data: Wire.Parsed)
    requires Accepted(hash, program, tx, x)
    ensures tx.Found? && !tx.failed && Attestor.FirstProgramIx(tx, program, j, k) && tx.instructions.value[k].data.Some?
    ensures Wire.Dispatch(tx.instructions.value[k].data.value) == Ok(data) && data.Xburn?
    ensures data.nullifier == Eval(hash, x.nullifier) && data.destChain == Eval(hash, x.destChain) && data.outCommitment == Eval(hash, x.out)
  {
    Attestor.AttestsExactly(tx, program, Eval(hash, x.nullifier), Eval(hash, x.destChain), Eval(hash, x.out));
    j := Attestor.FirstKey(tx.accountKeys.value, program);
    k := Attestor.FirstTo(tx.instructions.value, j);
    data := Wire.Dispatch(tx.instructions.value[k].data.value).value;
  }

  /** A claim that the canister accepts has been recorded by the Solana pool. */
  lemma {:induction false} AcceptedIsRecorded(hash: Poseidon<Bytes32>, program: string, tx: Attestor.Transaction, x: Xburn, s: System,
                                              steps: seq<Step>, digests: set<Digest>)
    requires Shaped2(s) && Separates(hash, digests, steps) && Parts(x) <= digests
    requires Finalised(hash, program, tx, s, steps) && Accepted(hash, program, tx, x)
    ensures Recorded(Run(s, steps), x)
  {
    var j, k, data := AcceptedReads(hash, program, tx, x);
    var i: nat :| i < |steps| && ExecutedAt(hash, s, steps, i, data);
    SameTuple(hash, digests, data, steps[i].ix, x);
    RecordedAt(s, steps, i, x);
  }

  lemma {:induction false} SameTuple(hash: Poseidon<Bytes32>, digests: set<Digest>, data: Wire.Parsed, ix: Pool.Instruction, x: Xburn)
    requires InjectiveOn(hash, digests) && Parts(x) <= digests && data.Xburn? && Denotes(hash, data, ix)
    requires Parts(Xburn(ix.nullifier, ix.destChain, ix.out)) <= digests
    requires data.nullifier == Eval(hash, x.nullifier) && data.destChain == Eval(hash, x.destChain) && data.outCommitment == Eval(hash, x.out)
    ensures x == Xburn(ix.nullifier, ix.destChain, ix.out)
  {}

  lemma {:induction false} RecordedAt(s: System, steps: seq<Step>, i: nat, x: Xburn)
    requires Shaped2(s) && i < |steps| && steps[i].OnSolana? && steps[i].ix.XburnNote?
    requires Pool.Process(Run(s, steps[..i]).sol, steps[i].ix).Ok?
    requires x == Xburn(steps[i].ix.nullifier, steps[i].ix.destChain, steps[i].ix.out)
    ensures Recorded(Run(s, steps), x)
  {
    Pool.SpendEvent(Run(s, steps[..i]).sol, steps[i].ix);
    Crossing.StepTo(s, steps, i);
    Crossing.RunExtends(s, steps, i + 1);
  }

  // ---------- an operator who checks ----------

  /** Backed by a transaction that the canister accepts, or, for a burn on the EVM pool, by the pool's own event. */
  ghost predicate Checked(hash: Poseidon<Bytes32>, program: string, s: System, steps: seq<Step>, x: Xburn)
    requires Shaped2(s)
  {
    || x in Run(s, steps).evm.xburns
    || exists tx :: Finalised(hash, program, tx, s, steps) && Accepted(hash, program, tx, x)
  }

  /** The step is no attestation by an operator, or one that was checked. */
  ghost predicate Careful(hash: Poseidon<Bytes32>, program: string, s: System, steps: seq<Step>, digests: set<Digest>, step: Step)
    requires Shaped2(s)
  {
    match step
    case OnSolana(AddPending(signer, nf, destChain, out)) =>
      signer == s.sol.operator ==> Parts(Xburn(nf, destChain, out)) <= digests && Checked(hash, program, s, steps, Xburn(nf, destChain, out))
    case OnEvm(CallAddPending(sender, nf, destChain, out)) =>
      sender == s.evm.operator ==> Parts(Xburn(nf, destChain, out)) <= digests && Checked(hash, program, s, steps, Xburn(nf, destChain, out))
    case OnLedger(CallAddPending(sender, nf, attested)) => sender == s.ledger.operator ==> BurnRecorded(Run(s, steps), nf, attested)
    case _ => true
  }

  ghost predicate CarefulRun(hash: Poseidon<Bytes32>, program: string, s: System, steps: seq<Step>, digests: set<Digest>)
    requires Shaped2(s)
  {
    forall i :: 0 <= i < |steps| ==> Careful(hash, program, s, steps[..i], digests, steps[i])
  }

  lemma {:induction false} CheckedIsRecorded(hash: Poseidon<Bytes32>, program: string, s: System, steps: seq<Step>, digests: set<Digest>, x: Xburn)
    requires Shaped2(s) && Separates(hash, digests, steps) && Parts(x) <= digests && Checked(hash, program, s, steps, x)
    ensures Recorded(Run(s, steps), x)
  {
    if x !in Run(s, steps).evm.xburns {
      var tx :| Finalised(hash, program, tx, s, steps) && Accepted(hash, program, tx, x);
      AcceptedIsRecorded(hash, program, tx, x, s, steps, digests);
    }
  }

  lemma {:induction false} CarefulMirrors(hash: Poseidon<Bytes32>, program: string, s: System, steps: seq<Step>, digests: set<Digest>, step: Step)
    requires Shaped2(s) && Separates(hash, digests, steps) && Careful(hash, program, s, steps, digests, step)
    ensures Mirrors(Run(s, steps), step)
  {
    assert steps[..0] == [];
    Crossing.RunExtends(s, steps, 0);
    match step
    case OnSolana(AddPending(signer, nf, destChain, out)) =>
      if signer == s.sol.operator { CheckedIsRecorded(hash, program, s, steps, digests, Xburn(nf, destChain, out)); }
    case OnEvm(CallAddPending(sender, nf, destChain, out)) =>
      if sender == s.evm.operator { CheckedIsRecorded(hash, program, s, steps, digests, Xburn(nf, destChain, out)); }
    case _ =>
  }

  /** Operators who attest only checked claims make every run honest. */
  lemma {:induction false} CarefulIsHonest(hash: Poseidon<Bytes32>, program: string, s: System, steps: seq<Step>, digests: set<Digest>)
    requires Shaped2(s) && Separates(hash, digests, steps) && CarefulRun(hash, program, s, steps, digests)
    ensures HonestRun(s, steps)
  {
    if steps != [] {
      var init, last := steps[..|steps| - 1], steps[|steps| - 1];
      assert forall i :: 0 <= i < |init| ==> init[i] == steps[i] && init[..i] == steps[..i];
      CarefulIsHonest(hash, program, s, init, digests);
      CarefulMirrors(hash, program, s, init, digests, last);
    }
  }

  /** Conservation, resting on what the canister checks instead of on the operator's word. */
  lemma {:induction false} CheckedConservation(hash: Poseidon<Bytes32>, program: string, operator: Pool.Pubkey,
                                               wallets: map<(Pool.Pubkey, Pool.Pubkey), nat>, evmOperator: nat, chainId: nat, ledgerOperator: nat,
                                               ledgerChainId: nat, steps: seq<Step>, digests: set<Digest>, mint: Pool.Pubkey)
    requires chainId != 101 && Separates(hash, digests, steps)
    requires CarefulRun(hash, program, Genesis(operator, wallets, evmOperator, chainId, ledgerOperator, ledgerChainId), steps, digests)
    ensures var s := Run(Genesis(operator, wallets, evmOperator, chainId, ledgerOperator, ledgerChainId), steps);
      Liabilities(s, ToField(mint)) <= VaultOf(s.sol, mint)
  {
    CarefulIsHonest(hash, program, Genesis(operator, wallets, evmOperator, chainId, ledgerOperator, ledgerChainId), steps, digests);
    Conservation(operator, wallets, evmOperator, chainId, ledgerOperator, ledgerChainId, steps, mint);
  }
}
