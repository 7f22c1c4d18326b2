/**
  When conservation holds.  The Solana pool names itself chain 101, so an EVM chain with that id
  would let one recorded burn be minted on both sides; any other id is safe.
 */
module ChainIds {
  import Wrappers
  import opened Bytes
  import opened Merkle
  import opened Digests
  import opened Circuits
  import opened Registers
  import opened Accounting
  import opened Bridge
  import Pool
  import EvmPool
  import MintLedger
  import Wallet
  import AccountTree

  ghost predicate AlwaysConserved(chainId: nat) {
    forall operator: Pool.Pubkey, wallets: map<(Pool.Pubkey, Pool.Pubkey), nat>, evmOperator: nat, ledgerOperator: nat,
           ledgerChainId: nat, steps: seq<Step>, mint: Pool.Pubkey ::
      HonestRun(Genesis(operator, wallets, evmOperator, chainId, ledgerOperator, ledgerChainId), steps) ==>
        Conserved(Run(Genesis(operator, wallets, evmOperator, chainId, ledgerOperator, ledgerChainId), steps), mint)
  }

  lemma {:induction false} Extend(s: System, steps: seq<Step>, step: Step)
    requires Shaped2(s) && HonestRun(s, steps) && Mirrors(Run(s, steps), step)
    ensures HonestRun(s, steps + [step])
    ensures Run(s, steps + [step]) == Apply(Run(s, steps), step)
  {
    assert (steps + [step])[..|steps|] == steps;
  }

  // ---------- the run that fails ----------

  const KEY: Bytes32 := Zeros(32)
  const TOKEN: Digest := ToField(KEY)
  const NOTE: Wallet.Note := Wallet.Note(KEY, 1, Num(7), Num(8), H4(TOKEN, Num(1), H1(Num(7)), Num(8)))
  const NULLIFIER: Digest := Wallet.NullifierOf(NOTE)
  const OUT: Digest := H4(TOKEN, Num(1), Num(5), Num(6))

  function Witness(): XburnWitness {
    XburnWitness(TOKEN, Num(1), Wallet.PathWitness(NOTE, [NOTE.commitment]), Num(5), Num(6))
  }

  function BurnRoot(): Digest {
    Root(Hash2, ZERO, TREE_DEPTH, [NOTE.commitment])
  }

  lemma {:induction false} WitnessAccepted()
    ensures XburnRelation(BurnRoot(), NULLIFIER, OUT, Witness())
  {
    AccountTree.Capacity();
    Wallet.PathSatisfies(NOTE, [NOTE.commitment]);
  }

  function Start(chainId: nat): System {
    Genesis(KEY, map[(KEY, KEY) := 1], 0, chainId, 0, 0)
  }

  function DepositOne(): Pool.Instruction {
    Pool.Deposit(KEY, KEY, 1, NOTE.commitment, H1(Num(7)), Num(8))
  }

  lemma {:induction false} DepositAccepted()
    ensures var p := Pool.Genesis(KEY, map[(KEY, KEY) := 1]);
      Pool.Process(p, DepositOne()) == Wrappers.Ok(Pool.WithLeaf(Pool.MoveIn(p, KEY, KEY, 1), NOTE.commitment))
  {
    AccountTree.Capacity();
  }

  lemma {:induction false} DepositedPool()
    ensures var q := Pool.Apply(Pool.Genesis(KEY, map[(KEY, KEY) := 1]), DepositOne());
      && q.leaves == [NOTE.commitment] && q.tree.next == 1 && VaultOf(q, KEY) == 1
      && q.xburns == [] && q.nullifiers == [] && q.pending == [] && q.operator == KEY
      && IsKnownRoot(q.tree, ZERO, BurnRoot())
  {
    var p := Pool.Genesis(KEY, map[(KEY, KEY) := 1]);
    var q := Pool.Apply(p, DepositOne());
    DepositAccepted();
    Pool.GenesisSound(KEY, map[(KEY, KEY) := 1]);
    Pool.ApplySound(p, DepositOne());
    assert q.leaves == [] + [NOTE.commitment];
    assert q.leaves[..1] == [NOTE.commitment];
    Wallet.RecentRootKnown(q, 1);
  }

  /** One unit is deposited, and its root is known. */
  lemma {:induction false} Deposited(chainId: nat) returns (steps: seq<Step>)
    ensures HonestRun(Start(chainId), steps)
    ensures var s := Run(Start(chainId), steps);
      && s.sol.xburns == [] && s.sol.leaves == [NOTE.commitment] && s.sol.nullifiers == [] && s.sol.pending == []
      && s.sol.operator == KEY && s.sol.tree.next == 1 && VaultOf(s.sol, KEY) == 1
      && IsKnownRoot(s.sol.tree, ZERO, BurnRoot())
      && s.evm == EvmPool.Genesis(0, chainId)
  {
    Extend(Start(chainId), [], OnSolana(DepositOne()));
    steps := [] + [OnSolana(DepositOne())];
    DepositedPool();
  }

  /** ... and burned across with destination 101. */
  lemma {:induction false} Burned() returns (steps: seq<Step>)
    ensures HonestRun(Start(101), steps)
    ensures var s := Run(Start(101), steps);
      && s.sol.xburns == [Xburn(NULLIFIER, Num(101), OUT)]
      && s.sol.leaves == [NOTE.commitment] && s.sol.nullifiers == [NULLIFIER] && s.sol.pending == [] && s.sol.operator == KEY
      && s.sol.tree.next == 1 && VaultOf(s.sol, KEY) == 1
      && s.evm == EvmPool.Genesis(0, 101)
  {
    WitnessAccepted();
    var before := Deposited(101);
    var burn := OnSolana(Pool.XburnNote(BurnRoot(), NULLIFIER, Num(101), OUT, Witness()));
    steps := before + [burn];
    Extend(Start(101), before, burn);
    Pool.SpendEvent(Run(Start(101), before).sol, burn.ix);
  }

  /** The one record is attested to both pools. */
  lemma {:induction false} AttestedTwice() returns (steps: seq<Step>)
    ensures HonestRun(Start(101), steps)
    ensures var s := Run(Start(101), steps);
      && s.sol.leaves == [NOTE.commitment] && s.sol.nullifiers == [NULLIFIER] && s.sol.tree.next == 1
      && s.sol.pending == [Entry(NULLIFIER, H2(Num(101), OUT), false)] && VaultOf(s.sol, KEY) == 1
      && s.evm == EvmPool.Genesis(0, 101).(pending := map[NULLIFIER := (Num(101), OUT)])
  {
    var before := Burned();
    var s := Run(Start(101), before);
    assert Xburn(NULLIFIER, Num(101), OUT) in s.sol.xburns;
    var toEvm := OnEvm(EvmPool.CallAddPending(0, NULLIFIER, Num(101), OUT));
    var toSolana := OnSolana(Pool.AddPending(KEY, NULLIFIER, Num(101), OUT));
    Extend(Start(101), before, toEvm);
    Extend(Start(101), before + [toEvm], toSolana);
    steps := before + [toEvm] + [toSolana];
  }

  /** With the shared attestation in place, both mints go through. */
  lemma {:induction false} BothMint(s: System) returns (s': System)
    requires Shaped2(s)
    requires s.sol.leaves == [NOTE.commitment] && s.sol.nullifiers == [NULLIFIER] && s.sol.tree.next == 1
    requires s.sol.pending == [Entry(NULLIFIER, H2(Num(101), OUT), false)]
    requires s.evm == EvmPool.Genesis(0, 101).(pending := map[NULLIFIER := (Num(101), OUT)])
    ensures s' == Apply(Apply(s, MintOnEvm()), MintOnSolana())
    ensures OUT in s'.evm.leaves && s'.evm.spent == {}
    ensures OUT in s'.sol.leaves && s'.sol.nullifiers == [NULLIFIER] && s'.sol.vaults == s.sol.vaults
  {
    EvmMints(s.evm);
    SolanaMints(s.sol);
    s' := Apply(Apply(s, MintOnEvm()), MintOnSolana());
  }

  lemma {:induction false} EvmMints(e: EvmPool.Evm)
    requires e == EvmPool.Genesis(0, 101).(pending := map[NULLIFIER := (Num(101), OUT)])
    ensures var e' := EvmPool.Apply(e, MintOnEvm().call); OUT in e'.leaves && e'.spent == {}
  {
    AccountTree.Capacity();
    WitnessAccepted();
    assert EvmPool.Apply(e, MintOnEvm().call).leaves == [] + [OUT];
  }

  lemma {:induction false} SolanaMints(p: Pool.PoolState)
    requires Shaped(p.tree, TREE_DEPTH)
    requires p.leaves == [NOTE.commitment] && p.nullifiers == [NULLIFIER] && p.tree.next == 1
    requires p.pending == [Entry(NULLIFIER, H2(Num(101), OUT), false)]
    ensures var p' := Pool.Apply(p, MintOnSolana().ix);
      OUT in p'.leaves && p'.nullifiers == [NULLIFIER] && p'.vaults == p.vaults
  {
    WitnessAccepted();
    assert !Full(p.tree) by { AccountTree.Capacity(); }
    Pool.MintDecides(p, Xburn(NULLIFIER, Num(101), OUT), BurnRoot(), Witness());
    Pool.MintEvent(p, MintOnSolana().ix);
  }

  function MintOnEvm(): Step {
    OnEvm(EvmPool.CallMint(BurnRoot(), NULLIFIER, Num(101), OUT, Witness()))
  }

  function MintOnSolana(): Step {
    OnSolana(Pool.MintFromXburn(BurnRoot(), NULLIFIER, Num(101), OUT, Witness()))
  }

  /** Both pools mint: one unit in the vault, two redeemable. */
  lemma {:induction false} SharedIdInflates() returns (steps: seq<Step>)
    ensures HonestRun(Start(101), steps) && !Conserved(Run(Start(101), steps), KEY)
  {
    var before := AttestedTwice();
    Extend(Start(101), before, MintOnEvm());
    Extend(Start(101), before + [MintOnEvm()], MintOnSolana());
    steps := before + [MintOnEvm()] + [MintOnSolana()];
    var s2 := BothMint(Run(Start(101), before));
    OutstandingHolds(s2.sol.leaves, Elements(s2.sol.nullifiers), OUT, TOKEN);
    OutstandingHolds(s2.evm.leaves, s2.evm.spent, OUT, TOKEN);
  }

  /** Conservation holds in every honest run exactly when the EVM chain id differs from Solana's. */
  lemma {:induction false} ConservationExactly(chainId: nat)
    ensures AlwaysConserved(chainId) <==> chainId != 101
  {
    if chainId == 101 {
      var steps := SharedIdInflates();
    } else {
      forall operator: Pool.Pubkey, wallets: map<(Pool.Pubkey, Pool.Pubkey), nat>, evmOperator: nat, ledgerOperator: nat,
             ledgerChainId: nat, steps: seq<Step>, mint: Pool.Pubkey
        | HonestRun(Genesis(operator, wallets, evmOperator, chainId, ledgerOperator, ledgerChainId), steps)
        ensures Conserved(Run(Genesis(operator, wallets, evmOperator, chainId, ledgerOperator, ledgerChainId), steps), mint)
      {
        Conservation(operator, wallets, evmOperator, chainId, ledgerOperator, ledgerChainId, steps, mint);
      }
    }
  }
}
