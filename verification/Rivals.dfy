/**
  Why a crossing has to be unrivalled.  A note that keeps its commitment as it crosses has one
  nullifier on both pools; burning it again for the pool it has reached records a burn that no
  claim can ever collect.
 */
module Rivals {
  import opened Merkle
  import opened Digests
  import opened Circuits
  import opened Accounting
  import opened Bridge
  import opened Crossing
  import opened ChainIds
  import Pool
  import EvmPool
  import Wallet
  import AccountTree

  const CHAIN: Digest := Num(1)
  const CROSSED: Xburn := Xburn(NULLIFIER, CHAIN, NOTE.commitment)
  const LOST: Xburn := Xburn(NULLIFIER, CHAIN, OUT)

  /** One nullifier is minted once on the EVM pool, whichever of its burns comes first and whatever happens later. */
  lemma {:induction false} OneClaimPerNullifier(s: System, steps: seq<Step>, x: Xburn, y: Xburn, root: Digest, w: XburnWitness)
    requires Shaped2(s) && EvmPool.Sound(s.evm)
    requires y in s.evm.mints && y.nullifier == x.nullifier
    ensures EvmPool.Execute(Run(s, steps).evm, EvmPool.CallMint(root, x.nullifier, x.destChain, x.out, w)).Err?
  {
    var i :| 0 <= i < |s.evm.mints| && s.evm.mints[i] == y;
    assert Nullifiers(s.evm.mints)[i] == y.nullifier;
    assert steps[..0] == [];
    RunExtends(s, steps, 0);
  }

  /** The crossing note keeps owner and blinding, so it keeps its commitment. */
  function SameNote(): XburnWitness {
    XburnWitness(TOKEN, Num(1), Wallet.PathWitness(NOTE, [NOTE.commitment]), H1(Num(7)), Num(8))
  }

  lemma {:induction false} SameNoteAccepted()
    ensures XburnRelation(BurnRoot(), NULLIFIER, NOTE.commitment, SameNote())
  {
    WitnessAccepted();
  }

  function CrossingBurn(): Step {
    OnSolana(Pool.XburnNote(BurnRoot(), NULLIFIER, CHAIN, NOTE.commitment, SameNote()))
  }

  lemma {:induction false} Crossed() returns (steps: seq<Step>)
    ensures HonestRun(Start(1), steps) && steps != []
    ensures Burns(Run(Start(1), steps[..|steps| - 1]), steps[|steps| - 1], BurnRoot(), CROSSED, SameNote())
    ensures CROSSED in Run(Start(1), steps).sol.xburns && Run(Start(1), steps).evm == EvmPool.Genesis(0, 1)
  {
    SameNoteAccepted();
    var before := Deposited(1);
    steps := before + [CrossingBurn()];
    assert steps[..|before|] == before;
    Extend(Start(1), before, CrossingBurn());
    Pool.SpendEvent(Run(Start(1), before).sol, CrossingBurn().ix);
  }

  function Attest(): EvmPool.Call {
    EvmPool.CallAddPending(0, NULLIFIER, CHAIN, NOTE.commitment)
  }

  function Claim(): EvmPool.Call {
    EvmPool.CallMint(BurnRoot(), NULLIFIER, CHAIN, NOTE.commitment, SameNote())
  }

  function BurnAgain(): EvmPool.Call {
    EvmPool.CallXburn(BurnRoot(), NULLIFIER, CHAIN, OUT, Witness())
  }

  function Pledged(): (e: EvmPool.Evm)
    ensures Shaped(e.tree, TREE_DEPTH)
  {
    EvmPool.Apply(EvmPool.Genesis(0, 1), Attest())
  }

  function Arrived(): (e: EvmPool.Evm)
    ensures Shaped(e.tree, TREE_DEPTH)
  {
    EvmPool.Apply(Pledged(), Claim())
  }

  lemma {:induction false} PledgedFacts()
    ensures EvmPool.Sound(Pledged())
    ensures Pledged() == EvmPool.Genesis(0, 1).(pending := map[NULLIFIER := (CHAIN, NOTE.commitment)])
  {
    EvmPool.GenesisSound(0, 1);
    EvmPool.ApplySound(EvmPool.Genesis(0, 1), Attest());
  }

  lemma {:induction false} RoomAtStart()
    ensures !Full(EvmPool.Genesis(0, 1).tree)
  {
    AccountTree.Capacity();
  }

  lemma {:induction false} ClaimArrives(e: EvmPool.Evm)
    requires Shaped(e.tree, TREE_DEPTH) && !Full(e.tree) && e.chainId == 1 && NULLIFIER !in e.minted
    requires NULLIFIER in e.pending && e.pending[NULLIFIER] == (CHAIN, NOTE.commitment)
    ensures var e' := EvmPool.Apply(e, Claim());
      && e'.mints == e.mints + [CROSSED] && e'.spent == e.spent && e'.xburns == e.xburns
      && e'.tree == Insert(Hash2, Pool.ZEROS, e.tree, NOTE.commitment)
  {
    SameNoteAccepted();
  }

  lemma {:induction false} ArrivedFacts()
    ensures var e := Arrived();
      && EvmPool.Sound(e) && e.mints == [CROSSED] && e.spent == {} && e.xburns == []
      && e.tree == Insert(Hash2, Pool.ZEROS, New(Hash2, ZERO, Pool.ZEROS), NOTE.commitment)
  {
    PledgedFacts();
    RoomAtStart();
    ClaimArrives(Pledged());
    EvmPool.ApplySound(Pledged(), Claim());
    assert [] + [CROSSED] == [CROSSED];
  }

  lemma {:induction false} BurnedAgain()
    ensures var e := EvmPool.Apply(Arrived(), BurnAgain()); EvmPool.Sound(e) && CROSSED in e.mints && LOST in e.xburns
  {
    ArrivedFacts();
    DepositAccepted();
    DepositedPool();
    WitnessAccepted();
    EvmPool.ApplySound(Arrived(), BurnAgain());
    assert EvmPool.Apply(Arrived(), BurnAgain()).xburns == [] + [LOST];
  }

  lemma {:induction false} CrossedAndAttested() returns (steps: seq<Step>, i: nat)
    ensures HonestRun(Start(1), steps) && |steps| == i + 2
    ensures Burns(Run(Start(1), steps[..i]), steps[i], BurnRoot(), CROSSED, SameNote()) && steps[i + 1] == OnEvm(Attest())
    ensures CROSSED in Run(Start(1), steps).sol.xburns && Run(Start(1), steps).evm == Pledged()
  {
    var before := Crossed();
    i := |before| - 1;
    steps := before + [OnEvm(Attest())];
    Extend(Start(1), before, OnEvm(Attest()));
    assert steps[..i] == before[..i];
  }

  /** Before the second burn nothing rivals the first, and its claim is accepted. */
  lemma {:induction false} FirstBurnIsServed() returns (steps: seq<Step>)
    ensures HonestRun(Start(1), steps) && !Rivalled(Run(Start(1), steps), CROSSED)
    ensures EvmPool.Execute(Run(Start(1), steps).evm, Claim()).Ok?
  {
    var i;
    steps, i := CrossedAndAttested();
    PledgedFacts();
    RoomAtStart();
    GenesisSettled(KEY, map[(KEY, KEY) := 1], 0, 1, 0, 0);
    RunSettled(Start(1), steps);
    RivalIsForeign(Run(Start(1), steps), CROSSED);
    ReachesEvm(Start(1), steps, i, i + 1, BurnRoot(), CROSSED, SameNote());
  }

  lemma {:induction false} BurnedTwice() returns (steps: seq<Step>)
    ensures HonestRun(Start(1), steps)
    ensures CROSSED in Run(Start(1), steps).sol.xburns && Run(Start(1), steps).evm == EvmPool.Apply(Arrived(), BurnAgain())
  {
    var before := Crossed();
    Extend(Start(1), before, OnEvm(Attest()));
    Extend(Start(1), before + [OnEvm(Attest())], OnEvm(Claim()));
    Extend(Start(1), before + [OnEvm(Attest())] + [OnEvm(Claim())], OnEvm(BurnAgain()));
    steps := before + [OnEvm(Attest())] + [OnEvm(Claim())] + [OnEvm(BurnAgain())];
  }

  /** An honest run after which a recorded burn of one unit is refused in every continuation, for every proof. */
  lemma {:induction false} LostBurn() returns (steps: seq<Step>)
    ensures HonestRun(Start(1), steps)
    ensures var s := Run(Start(1), steps);
      && Recorded(s, LOST) && Rivalled(s, LOST)
      && Value(LOST.out, TOKEN) == 1 && LOST.destChain == Num(s.evm.chainId)
    ensures forall later: seq<Step>, root: Digest, w: XburnWitness ::
      EvmPool.Execute(Run(Run(Start(1), steps), later).evm, EvmPool.CallMint(root, NULLIFIER, CHAIN, OUT, w)).Err?
  {
    steps := BurnedTwice();
    BurnedAgain();
    var s := Run(Start(1), steps);
    Collides(s);
    assert steps[..0] == [];
    RunExtends(Start(1), steps, 0);
    forall later: seq<Step>, root: Digest, w: XburnWitness
      ensures EvmPool.Execute(Run(s, later).evm, EvmPool.CallMint(root, NULLIFIER, CHAIN, OUT, w)).Err?
    {
      OneClaimPerNullifier(s, later, LOST, CROSSED, root, w);
    }
  }

  lemma {:induction false} Collides(s: System)
    requires CROSSED in s.sol.xburns && LOST in s.evm.xburns
    ensures Recorded(s, LOST) && Rivalled(s, LOST)
  {
    assert Recorded(s, CROSSED) && CROSSED != LOST;
  }
}
