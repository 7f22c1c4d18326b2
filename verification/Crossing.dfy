/**
  That a crossing completes.  Whoever burned a note can claim it on the other side with the witness
  that burned it: once the operator has attested the burn, at every later moment the note has
  either arrived or is accepted, as long as the destination has room.
 */
module Crossing {
  import Wrappers
  import opened Bytes
  import opened Merkle
  import opened Digests
  import opened Circuits
  import opened Registers
  import opened Accounting
  import opened Bridge
  import Pool
  import EvmPool
  import MintLedger

  // ---------- what honest runs keep besides soundness ----------

  ghost predicate OneRecordPerNullifier(xs: seq<Xburn>) {
    forall x, y :: x in xs && y in xs && x.nullifier == y.nullifier ==> x == y
  }

  /** A pool records each nullifier once, and only when it spends it. */
  ghost predicate RecordsUnique(s: System) {
    && PoolUnique(s.sol)
    && OneRecordPerNullifier(s.evm.xburns)
    && (forall x :: x in s.evm.xburns ==> x.nullifier in s.evm.spent)
  }

  ghost predicate PoolUnique(p: Pool.PoolState) {
    && OneRecordPerNullifier(p.xburns)
    && (forall b, c :: b in p.burns && c in p.burns && b.nullifier == c.nullifier ==> b == c)
    && (forall x :: x in p.xburns ==> x.nullifier in p.nullifiers)
    && (forall b :: b in p.burns ==> b.nullifier in p.nullifiers)
  }

  /** Whatever was minted had been recorded, and its note is in the tree. */
  ghost predicate MintsRecorded(s: System) {
    && Pool.MintSound(s.sol)
    && (forall x :: x in s.sol.mints ==> Recorded(s, x) && x.out in s.sol.leaves)
    && (forall x :: x in s.evm.mints ==> Recorded(s, x) && x.out in s.evm.leaves)
  }

  predicate Backs(b: Burn, c: MintLedger.Credit, chainId: nat) {
    && b.nullifier == c.nullifier
    && AttestationOf(b) == MintLedger.Attestation(c.token, Num(c.amount), Num(chainId), c.to)
  }

  /** Every consumed nullifier has its credit, and every credit its burn. */
  ghost predicate CreditsRecorded(s: System) {
    && (forall nf :: nf in s.ledger.minted ==> exists c :: c in s.ledger.credits && c.nullifier == nf)
    && (forall c :: c in s.ledger.credits ==> exists b :: b in s.sol.burns && Backs(b, c, s.ledger.chainId))
  }

  ghost predicate Settled(s: System) {
    Sound(s) && RecordsUnique(s) && MintsRecorded(s) && CreditsRecorded(s)
  }

  /** What no step of anyone undoes. */
  ghost predicate Extends(s: System, s': System) {
    && (forall x :: x in s.sol.xburns ==> x in s'.sol.xburns)
    && (forall x :: x in s.evm.xburns ==> x in s'.evm.xburns)
    && (forall b :: b in s.sol.burns ==> b in s'.sol.burns)
    && (forall nf :: Attested(s.sol.pending, nf) ==> Attested(s'.sol.pending, nf))
    && (forall nf :: KnownToEvm(s.evm, nf) ==> KnownToEvm(s'.evm, nf))
    && (forall nf :: KnownToLedger(s.ledger, nf) ==> KnownToLedger(s'.ledger, nf))
    && s.evm.minted <= s'.evm.minted
    && s'.sol.operator == s.sol.operator
    && s'.evm.operator == s.evm.operator && s'.evm.chainId == s.evm.chainId
    && s'.ledger.operator == s.ledger.operator && s'.ledger.chainId == s.ledger.chainId
  }

  predicate KnownToEvm(e: EvmPool.Evm, nf: Digest) {
    nf in e.pending || nf in e.minted
  }

  predicate KnownToLedger(l: MintLedger.Ledger, nf: Digest) {
    nf in l.pending || nf in l.minted
  }

  lemma {:induction false} StillAttested(es: seq<Entry<Digest>>, es': seq<Entry<Digest>>, nf: Digest)
    requires |es| <= |es'| && forall i :: 0 <= i < |es| ==> es'[i].nullifier == es[i].nullifier
    requires Attested(es, nf)
    ensures Attested(es', nf)
  {
    assert es'[IndexOf(es, nf)].nullifier == nf;
  }

  lemma {:induction false} AttestedKept(p: Pool.PoolState, ix: Pool.Instruction)
    requires Shaped(p.tree, TREE_DEPTH)
    ensures forall nf :: Attested(p.pending, nf) ==> Attested(Pool.Apply(p, ix).pending, nf)
  {
    Pool.PendingEvent(p, ix);
    forall nf | Attested(p.pending, nf)
      ensures Attested(Pool.Apply(p, ix).pending, nf)
    {
      StillAttested(p.pending, Pool.Apply(p, ix).pending, nf);
    }
  }

  lemma {:induction false} EvmRecordsKept(e: EvmPool.Evm, call: EvmPool.Call)
    requires Shaped(e.tree, TREE_DEPTH)
    ensures var e' := EvmPool.Apply(e, call);
      && e.xburns <= e'.xburns && e'.operator == e.operator && e'.chainId == e.chainId && e.minted <= e'.minted
      && forall nf :: KnownToEvm(e, nf) ==> KnownToEvm(e', nf)
  {}

  lemma {:induction false} LedgerRecordsKept(l: MintLedger.Ledger, call: MintLedger.Call)
    ensures var l' := MintLedger.Apply(l, call);
      && l'.operator == l.operator && l'.chainId == l.chainId
      && forall nf :: KnownToLedger(l, nf) ==> KnownToLedger(l', nf)
  {}

  lemma {:induction false} StepExtends(s: System, step: Step)
    requires Shaped2(s)
    ensures Extends(s, Apply(s, step))
  {
    match step
    case OnSolana(ix) =>
      AttestedKept(s.sol, ix);
      Pool.RecordsKept(s.sol, ix);
    case OnEvm(call) =>
      EvmRecordsKept(s.evm, call);
    case OnLedger(call) =>
      LedgerRecordsKept(s.ledger, call);
    case Donate(_, _) =>
  }

  lemma {:induction false} RunExtends(s: System, steps: seq<Step>, k: nat)
    requires Shaped2(s) && k <= |steps|
    ensures Extends(Run(s, steps[..k]), Run(s, steps))
  {
    if k == |steps| {
      assert steps[..k] == steps;
    } else {
      var init, last := steps[..|steps| - 1], steps[|steps| - 1];
      RunExtends(s, init, k);
      assert init[..k] == steps[..k];
      StepExtends(Run(s, init), last);
    }
  }

  // ---------- every step keeps it ----------

  lemma {:induction false} PoolUniqueKept(p: Pool.PoolState, ix: Pool.Instruction, q: Pool.PoolState)
    requires Shaped(p.tree, TREE_DEPTH) && PoolUnique(p) && q == Pool.Apply(p, ix)
    ensures PoolUnique(q)
  {
    Pool.StepConsumes(p, ix);
    if Pool.Process(p, ix).Ok? && (ix.XburnNote? || ix.BurnNote?) {
      Pool.SpendEvent(p, ix);
    } else {
      Pool.NoSpendEvent(p, ix);
    }
  }

  lemma {:induction false} EvmUnique(s: System, call: EvmPool.Call)
    requires Shaped2(s) && RecordsUnique(s)
    ensures RecordsUnique(Apply(s, OnEvm(call)))
  {}

  lemma {:induction false} SolanaMintsRecorded(s: System, ix: Pool.Instruction)
    requires Sound(s) && MintsRecorded(s)
    ensures MintsRecorded(Apply(s, OnSolana(ix)))
  {
    Pool.ApplyMintSound(s.sol, ix);
    LeavesAppended(s, OnSolana(ix));
    StepExtends(s, OnSolana(ix));
    if ix.MintFromXburn? && Pool.Process(s.sol, ix).Ok? {
      Pool.MintEvent(s.sol, ix);
      MintCarriesBurn(s, OnSolana(ix));
    } else {
      Pool.NoMintEvent(s.sol, ix);
    }
  }

  lemma {:induction false} EvmMintsRecorded(s: System, call: EvmPool.Call)
    requires Sound(s) && MintsRecorded(s)
    ensures MintsRecorded(Apply(s, OnEvm(call)))
  {
    var s' := Apply(s, OnEvm(call));
    RecordsGrow(s, s');
    if s'.evm.mints != s.evm.mints {
      MintCarriesBurn(s, OnEvm(call));
    }
  }

  lemma {:induction false} CreditsKept(s: System, s': System)
    requires CreditsRecorded(s) && s'.ledger == s.ledger
    requires forall b :: b in s.sol.burns ==> b in s'.sol.burns
    ensures CreditsRecorded(s')
  {
    forall c | c in s'.ledger.credits
      ensures exists b :: b in s'.sol.burns && Backs(b, c, s'.ledger.chainId)
    {
      var b :| b in s.sol.burns && Backs(b, c, s.ledger.chainId);
      assert b in s'.sol.burns;
    }
  }

  lemma {:induction false} CreditAdded(s: System, s': System, c: MintLedger.Credit)
    requires CreditsRecorded(s) && s'.sol == s.sol && s'.ledger.chainId == s.ledger.chainId
    requires s'.ledger.credits == s.ledger.credits + [c] && s'.ledger.minted == s.ledger.minted + {c.nullifier}
    requires exists b :: b in s.sol.burns && Backs(b, c, s.ledger.chainId)
    ensures CreditsRecorded(s')
  {
    assert c in s'.ledger.credits;
    forall n | n in s'.ledger.minted
      ensures exists d :: d in s'.ledger.credits && d.nullifier == n
    {
      if n != c.nullifier {
        var d :| d in s.ledger.credits && d.nullifier == n;
        assert d in s'.ledger.credits;
      }
    }
  }

  lemma {:induction false} CreditBacked(s: System, c: MintLedger.Credit)
    requires Mirrored(s) && c.nullifier in s.ledger.pending
    requires s.ledger.pending[c.nullifier] == MintLedger.Attestation(c.token, Num(c.amount), Num(s.ledger.chainId), c.to)
    ensures exists b :: b in s.sol.burns && Backs(b, c, s.ledger.chainId)
  {
    var b :| b in s.sol.burns && b.nullifier == c.nullifier && AttestationOf(b) == s.ledger.pending[c.nullifier];
    assert Backs(b, c, s.ledger.chainId);
  }

  lemma {:induction false} LedgerCreditsRecorded(s: System, call: MintLedger.Call)
    requires Sound(s) && CreditsRecorded(s)
    ensures CreditsRecorded(Apply(s, OnLedger(call)))
  {
    if call.CallMint? && MintLedger.Execute(s.ledger, call).Ok? {
      MintLedger.CreditEvent(s.ledger, call);
      var c := MintLedger.Credit(call.nullifier, call.token, MintLedger.AddressOf(call.destAddress), call.amount.n);
      CreditBacked(s, c);
      CreditAdded(s, Apply(s, OnLedger(call)), c);
    } else {
      MintLedger.NoCreditEvent(s.ledger, call);
    }
  }

  lemma {:induction false} SolanaSettled(s: System, ix: Pool.Instruction)
    requires Settled(s) && Mirrors(s, OnSolana(ix))
    ensures Settled(Apply(s, OnSolana(ix)))
  {
    StepExtends(s, OnSolana(ix));
    SolanaStepSound(s, ix);
    PoolUniqueKept(s.sol, ix, Pool.Apply(s.sol, ix));
    SolanaMintsRecorded(s, ix);
    CreditsKept(s, Apply(s, OnSolana(ix)));
  }

  lemma {:induction false} EvmSettled(s: System, call: EvmPool.Call)
    requires Settled(s) && Mirrors(s, OnEvm(call))
    ensures Settled(Apply(s, OnEvm(call)))
  {
    EvmStepSound(s, call);
    EvmUnique(s, call);
    EvmMintsRecorded(s, call);
    CreditsKept(s, Apply(s, OnEvm(call)));
  }

  lemma {:induction false} PoolsUntouched(s: System, s': System)
    requires RecordsUnique(s) && MintsRecorded(s) && s'.sol == s.sol && s'.evm == s.evm
    ensures RecordsUnique(s') && MintsRecorded(s')
  {}

  lemma {:induction false} LedgerSettled(s: System, call: MintLedger.Call)
    requires Settled(s) && Mirrors(s, OnLedger(call))
    ensures Settled(Apply(s, OnLedger(call)))
  {
    LedgerStepSound(s, call);
    LedgerCreditsRecorded(s, call);
    PoolsUntouched(s, Apply(s, OnLedger(call)));
  }

  lemma {:induction false} DonationSettled(s: System, token: Pool.Pubkey, amount: nat)
    requires Settled(s)
    ensures Settled(Apply(s, Donate(token, amount)))
  {
    RecordsGrow(s, Apply(s, Donate(token, amount)));
    CreditsKept(s, Apply(s, Donate(token, amount)));
  }

  lemma {:induction false} StepSettled(s: System, step: Step)
    requires Settled(s) && Mirrors(s, step)
    ensures Settled(Apply(s, step))
  {
    match step
    case OnSolana(ix) =>
      SolanaSettled(s, ix);
    case OnEvm(call) =>
      EvmSettled(s, call);
    case OnLedger(call) =>
      LedgerSettled(s, call);
    case Donate(token, amount) =>
      DonationSettled(s, token, amount);
  }

  lemma {:induction false} RunSettled(s: System, steps: seq<Step>)
    requires Settled(s) && HonestRun(s, steps)
    ensures Settled(Run(s, steps))
  {
    if steps != [] {
      var init, last := steps[..|steps| - 1], steps[|steps| - 1];
      RunSettled(s, init);
      StepSettled(Run(s, init), last);
    }
  }

  lemma {:induction false} GenesisSettled(operator: Pool.Pubkey, wallets: map<(Pool.Pubkey, Pool.Pubkey), nat>, evmOperator: nat,
                                          chainId: nat, ledgerOperator: nat, ledgerChainId: nat)
    ensures Settled(Genesis(operator, wallets, evmOperator, chainId, ledgerOperator, ledgerChainId))
  {
    Pool.GenesisSound(operator, wallets);
    EvmPool.GenesisSound(evmOperator, chainId);
  }

  // ---------- claiming ----------

  /** Another record of the same nullifier, for a different destination or a different note. */
  ghost predicate Rivalled(s: System, x: Xburn) {
    exists y :: Recorded(s, y) && y.nullifier == x.nullifier && y != x
  }

  /** A rival can only come from the other pool, where a note with the same commitment was burned. */
  lemma {:induction false} RivalIsForeign(s: System, x: Xburn)
    requires RecordsUnique(s) && Recorded(s, x)
    ensures x in s.sol.xburns && x.nullifier !in s.evm.spent ==> !Rivalled(s, x)
    ensures x in s.evm.xburns && x.nullifier !in s.sol.nullifiers ==> !Rivalled(s, x)
  {}

  lemma {:induction false} MintedOnEvm(s: System, nf: Digest)
    requires Settled(s) && nf in s.evm.minted
    ensures exists y :: y in s.evm.mints && y.nullifier == nf && Recorded(s, y)
  {
    var i :| 0 <= i < |s.evm.mints| && Nullifiers(s.evm.mints)[i] == nf;
    assert s.evm.mints[i] in s.evm.mints;
  }

  /** Whoever holds a witness of the burn is served by the EVM pool, unless the note has already arrived. */
  lemma {:induction false} EvmClaim(s: System, x: Xburn, root: Digest, w: XburnWitness)
    requires Settled(s) && Recorded(s, x) && KnownToEvm(s.evm, x.nullifier) && !Rivalled(s, x)
    requires XburnRelation(root, x.nullifier, x.out, w)
    ensures EvmPool.Execute(s.evm, EvmPool.CallMint(root, x.nullifier, x.destChain, x.out, w)).Ok? <==>
            x !in s.evm.mints && x.destChain == Num(s.evm.chainId) && !Full(s.evm.tree)
    ensures x in s.evm.mints ==> x.out in s.evm.leaves
  {
    var nf := x.nullifier;
    if nf in s.evm.minted {
      MintedOnEvm(s, nf);
    } else {
      var attested := Xburn(nf, s.evm.pending[nf].0, s.evm.pending[nf].1);
      assert Recorded(s, attested);
    }
  }

  /** Rivals or not: once (re-)attested, a burn is served exactly when its nullifier was never minted here. */
  lemma {:induction false} EvmClaimExactly(e: EvmPool.Evm, x: Xburn, root: Digest, w: XburnWitness)
    requires EvmPool.Sound(e) && XburnRelation(root, x.nullifier, x.out, w)
    ensures var attested := EvmPool.Apply(e, EvmPool.CallAddPending(e.operator, x.nullifier, x.destChain, x.out));
      EvmPool.Execute(attested, EvmPool.CallMint(root, x.nullifier, x.destChain, x.out, w)).Ok? <==>
      (forall y :: y in e.mints ==> y.nullifier != x.nullifier) && x.destChain == Num(e.chainId) && !Full(e.tree)
  {
    if x.nullifier in e.minted {
      var i :| 0 <= i < |e.mints| && Nullifiers(e.mints)[i] == x.nullifier;
      assert e.mints[i] in e.mints;
    } else {
      forall y | y in e.mints
        ensures y.nullifier != x.nullifier
      {
        var i :| 0 <= i < |e.mints| && e.mints[i] == y;
        assert Nullifiers(e.mints)[i] == y.nullifier;
      }
    }
  }

  lemma {:induction false} MintedOnSolana(s: System, nf: Digest)
    requires Settled(s)
    ensures nf in Minted(s.sol.pending) <==> exists y :: y in s.sol.mints && y.nullifier == nf
  {
    if nf in Minted(s.sol.pending) {
      var i :| 0 <= i < |s.sol.mints| && Nullifiers(s.sol.mints)[i] == nf;
      assert s.sol.mints[i] in s.sol.mints;
    }
    if y :| y in s.sol.mints && y.nullifier == nf {
      var i :| 0 <= i < |s.sol.mints| && s.sol.mints[i] == y;
      assert Nullifiers(s.sol.mints)[i] == nf;
    }
  }

  /** The first attestation of a nullifier is the only one, so its flag says whether it was consumed. */
  lemma {:induction false} FlagDecides(es: seq<Entry<Digest>>, nf: Digest)
    requires DistinctEntries(es) && Attested(es, nf)
    ensures es[IndexOf(es, nf)].minted <==> nf in Minted(es)
  {}

  lemma {:induction false} AttestedTuple(s: System, x: Xburn)
    requires Mirrored(s) && Attested(s.sol.pending, x.nullifier) && !Rivalled(s, x)
    ensures s.sol.pending[IndexOf(s.sol.pending, x.nullifier)].expected == H2(x.destChain, x.out)
  {
    var e := s.sol.pending[IndexOf(s.sol.pending, x.nullifier)];
    assert Recorded(s, Xburn(e.nullifier, e.expected.left, e.expected.right));
  }

  /** The same on Solana. */
  lemma {:induction false} SolanaClaim(s: System, x: Xburn, root: Digest, w: XburnWitness)
    requires Settled(s) && Recorded(s, x) && Attested(s.sol.pending, x.nullifier) && !Rivalled(s, x)
    requires XburnRelation(root, x.nullifier, x.out, w)
    ensures Pool.Process(s.sol, Pool.MintFromXburn(root, x.nullifier, x.destChain, x.out, w)).Ok? <==>
            x !in s.sol.mints && x.destChain == Pool.SOLANA_CHAIN && !Full(s.sol.tree)
    ensures x in s.sol.mints ==> x.out in s.sol.leaves
  {
    Pool.MintDecides(s.sol, x, root, w);
    AttestedTuple(s, x);
    FlagDecides(s.sol.pending, x.nullifier);
    MintedOnSolana(s, x.nullifier);
    assert forall y :: y in s.sol.mints && y.nullifier == x.nullifier ==> y == x;
  }

  lemma {:induction false} FirstAttestation(es: seq<Entry<Digest>>, e: Entry<Digest>)
    requires !Attested(es, e.nullifier)
    ensures Attested(es + [e], e.nullifier) && IndexOf(es + [e], e.nullifier) == |es|
    ensures forall d :: d in es ==> d.nullifier != e.nullifier
  {
    assert (es + [e])[|es|].nullifier == e.nullifier;
  }

  lemma {:induction false} AttestEvent(p: Pool.PoolState, x: Xburn)
    requires Shaped(p.tree, TREE_DEPTH)
    ensures var q := Pool.Apply(p, Pool.AddPending(p.operator, x.nullifier, x.destChain, x.out));
      q.tree == p.tree && q.pending == if Attested(p.pending, x.nullifier) then p.pending else p.pending + [Pool.OpenEntryOf(x)]
  {}

  lemma {:induction false} EntryDecides(es: seq<Entry<Digest>>, es': seq<Entry<Digest>>, ours: Entry<Digest>)
    requires DistinctEntries(es) && es' == if Attested(es, ours.nullifier) then es else es + [ours]
    ensures Attested(es', ours.nullifier)
    ensures es'[IndexOf(es', ours.nullifier)] == ours <==> forall e :: e in es && e.nullifier == ours.nullifier ==> e == ours
  {
    if Attested(es, ours.nullifier) {
      assert es[IndexOf(es, ours.nullifier)] in es;
    } else {
      FirstAttestation(es, ours);
    }
  }

  /** ... while on Solana the first attestation of a nullifier stands, so a rival's blocks ours for good. */
  lemma {:induction false} SolanaClaimExactly(p: Pool.PoolState, x: Xburn, root: Digest, w: XburnWitness)
    requires Pool.Sound(p) && XburnRelation(root, x.nullifier, x.out, w)
    ensures var attested := Pool.Apply(p, Pool.AddPending(p.operator, x.nullifier, x.destChain, x.out));
      Pool.Process(attested, Pool.MintFromXburn(root, x.nullifier, x.destChain, x.out, w)).Ok? <==>
      && (forall e :: e in p.pending && e.nullifier == x.nullifier ==> e == Pool.OpenEntryOf(x))
      && x.destChain == Pool.SOLANA_CHAIN && !Full(p.tree)
  {
    var attest := Pool.AddPending(p.operator, x.nullifier, x.destChain, x.out);
    Pool.ApplySound(p, attest);
    AttestEvent(p, x);
    EntryDecides(p.pending, Pool.Apply(p, attest).pending, Pool.OpenEntryOf(x));
    Pool.MintDecides(Pool.Apply(p, attest), x, root, w);
  }

  function CreditOf(b: Burn): MintLedger.Credit {
    MintLedger.Credit(b.nullifier, b.token, MintLedger.AddressOf(b.destAddress), b.amount)
  }

  lemma {:induction false} CreditedIsOurs(s: System, b: Burn)
    requires Settled(s) && b in s.sol.burns && b.nullifier in s.ledger.minted
    ensures CreditOf(b) in s.ledger.credits && b.destChain == Num(s.ledger.chainId)
  {
    var c :| c in s.ledger.credits && c.nullifier == b.nullifier;
    var d :| d in s.sol.burns && Backs(d, c, s.ledger.chainId);
  }

  /** The ledger serves every burn: there a nullifier is burned on Solana only, so nothing can rival it. */
  lemma {:induction false} LedgerClaim(s: System, b: Burn, root: Digest, w: SpendWitness)
    requires Settled(s) && b in s.sol.burns && KnownToLedger(s.ledger, b.nullifier)
    requires SpendRelation(root, b.nullifier, b.token, Num(b.amount), w)
    ensures MintLedger.Execute(s.ledger, MintLedger.CallMint(root, b.nullifier, b.token, Num(b.amount), b.destChain, b.destAddress, w)).Ok? <==>
            && CreditOf(b) !in s.ledger.credits && b.destChain == Num(s.ledger.chainId)
            && MintLedger.BalanceOf(s.ledger.balances, (b.token, MintLedger.AddressOf(b.destAddress))) + b.amount < MintLedger.UINT256
  {
    if b.nullifier in s.ledger.minted {
      CreditedIsOurs(s, b);
    } else {
      var d :| d in s.sol.burns && d.nullifier == b.nullifier && AttestationOf(d) == s.ledger.pending[b.nullifier];
      assert d == b;
    }
  }

  /** A credit never overflows: what the ledger would hold afterwards is owed already, and the vault covers it. */
  lemma {:induction false} CreditFits(s: System, b: Burn, mint: Pool.Pubkey)
    requires Settled(s) && b in s.sol.burns && b.token == ToField(mint) && b.destChain == Num(s.ledger.chainId)
    requires Conserved(s, mint) && b.nullifier !in s.ledger.minted
    ensures MintLedger.BalanceOf(s.ledger.balances, (b.token, MintLedger.AddressOf(b.destAddress))) + b.amount <= VaultOf(s.sol, mint)
  {
    var h := (b.token, MintLedger.AddressOf(b.destAddress));
    MintLedger.HoldersWithinSupply(s.ledger, b.token, [h]);
    assert MintLedger.SumBalances(s.ledger.balances, [h][..0]) == 0;
    var i :| 0 <= i < |s.sol.burns| && s.sol.burns[i] == b;
    assert BurnClaims(s.sol.burns)[i] == BurnClaimOf(b);
    UnclaimedDone(BurnClaims(s.sol.burns), CreditedClaims(s), BurnClaimOf(b), b.token);
    assert Discloses(b);
  }

  // ---------- over whole runs ----------

  /** The step by which `x` was burned, at the root and with the witness given. */
  predicate Burns(s: System, step: Step, root: Digest, x: Xburn, w: XburnWitness)
    requires Shaped2(s)
  {
    || (step == OnSolana(Pool.XburnNote(root, x.nullifier, x.destChain, x.out, w)) && Pool.Process(s.sol, step.ix).Ok?)
    || (step == OnEvm(EvmPool.CallXburn(root, x.nullifier, x.destChain, x.out, w)) && EvmPool.Execute(s.evm, step.call).Ok?)
  }

  lemma {:induction false} BurnsRecords(s: System, step: Step, root: Digest, x: Xburn, w: XburnWitness)
    requires Shaped2(s) && Burns(s, step, root, x, w)
    ensures Recorded(Apply(s, step), x) && XburnRelation(root, x.nullifier, x.out, w)
  {
    if step.OnSolana? {
      Pool.SpendEvent(s.sol, step.ix);
    }
  }

  lemma {:induction false} BurnStands(s: System, steps: seq<Step>, i: nat, root: Digest, x: Xburn, w: XburnWitness)
    requires Shaped2(s) && i < |steps| && Burns(Run(s, steps[..i]), steps[i], root, x, w)
    ensures Recorded(Run(s, steps), x) && XburnRelation(root, x.nullifier, x.out, w)
  {
    BurnsRecords(Run(s, steps[..i]), steps[i], root, x, w);
    StepTo(s, steps, i);
    RunExtends(s, steps, i + 1);
  }

  lemma {:induction false} StepTo(s: System, steps: seq<Step>, k: nat)
    requires Shaped2(s) && k < |steps|
    ensures Run(s, steps[..k + 1]) == Apply(Run(s, steps[..k]), steps[k])
  {
    assert steps[..k + 1][..k] == steps[..k];
  }

  lemma {:induction false} AttestedOnEvm(s: System, steps: seq<Step>, j: nat, x: Xburn)
    requires Shaped2(s) && j < |steps|
    requires steps[j] == OnEvm(EvmPool.CallAddPending(s.evm.operator, x.nullifier, x.destChain, x.out))
    ensures KnownToEvm(Run(s, steps).evm, x.nullifier)
  {
    RunExtends(s, steps[..j], 0);
    StepTo(s, steps, j);
    RunExtends(s, steps, j + 1);
  }

  /**
    Burned on either pool and attested on the EVM pool, `x` can be claimed there at every later moment
    with the burner's own witness, exactly until it has arrived and as long as there is room.
   */
  lemma {:induction false} ReachesEvm(s: System, steps: seq<Step>, i: nat, j: nat, root: Digest, x: Xburn, w: XburnWitness)
    requires Settled(s) && HonestRun(s, steps)
    requires i < |steps| && Burns(Run(s, steps[..i]), steps[i], root, x, w)
    requires j < |steps| && steps[j] == OnEvm(EvmPool.CallAddPending(s.evm.operator, x.nullifier, x.destChain, x.out))
    requires !Rivalled(Run(s, steps), x)
    ensures var e := Run(s, steps).evm;
      && (EvmPool.Execute(e, EvmPool.CallMint(root, x.nullifier, x.destChain, x.out, w)).Ok? <==>
          x !in e.mints && x.destChain == Num(e.chainId) && !Full(e.tree))
      && (x in e.mints ==> x.out in e.leaves)
  {
    RunSettled(s, steps);
    BurnStands(s, steps, i, root, x, w);
    AttestedOnEvm(s, steps, j, x);
    EvmClaim(Run(s, steps), x, root, w);
  }

  lemma {:induction false} AttestedOnSolana(s: System, steps: seq<Step>, j: nat, x: Xburn)
    requires Shaped2(s) && j < |steps|
    requires steps[j] == OnSolana(Pool.AddPending(s.sol.operator, x.nullifier, x.destChain, x.out))
    ensures Attested(Run(s, steps).sol.pending, x.nullifier)
  {
    RunExtends(s, steps[..j], 0);
    var p := Run(s, steps[..j]).sol;
    if !Attested(p.pending, x.nullifier) {
      NowAttested(p, steps[j].ix);
    } else {
      AttestedKept(p, steps[j].ix);
    }
    StepTo(s, steps, j);
    RunExtends(s, steps, j + 1);
  }

  lemma {:induction false} NowAttested(p: Pool.PoolState, ix: Pool.Instruction)
    requires Shaped(p.tree, TREE_DEPTH) && ix.AddPending? && ix.signer == p.operator
    ensures Attested(Pool.Apply(p, ix).pending, ix.nullifier)
  {
    if !Attested(p.pending, ix.nullifier) {
      assert Pool.Apply(p, ix).pending[|p.pending|].nullifier == ix.nullifier;
    }
  }

  /** ... and the same towards Solana. */
  lemma {:induction false} ReachesSolana(s: System, steps: seq<Step>, i: nat, j: nat, root: Digest, x: Xburn, w: XburnWitness)
    requires Settled(s) && HonestRun(s, steps)
    requires i < |steps| && Burns(Run(s, steps[..i]), steps[i], root, x, w)
    requires j < |steps| && steps[j] == OnSolana(Pool.AddPending(s.sol.operator, x.nullifier, x.destChain, x.out))
    requires !Rivalled(Run(s, steps), x)
    ensures var p := Run(s, steps).sol;
      && (Pool.Process(p, Pool.MintFromXburn(root, x.nullifier, x.destChain, x.out, w)).Ok? <==>
          x !in p.mints && x.destChain == Pool.SOLANA_CHAIN && !Full(p.tree))
      && (x in p.mints ==> x.out in p.leaves)
  {
    RunSettled(s, steps);
    BurnStands(s, steps, i, root, x, w);
    AttestedOnSolana(s, steps, j, x);
    SolanaClaim(Run(s, steps), x, root, w);
  }

  lemma {:induction false} BurnKept(s: System, steps: seq<Step>, i: nat)
    requires Shaped2(s) && i < |steps| && steps[i].OnSolana? && steps[i].ix.BurnNote?
    requires Pool.Process(Run(s, steps[..i]).sol, steps[i].ix).Ok?
    ensures var ix := steps[i].ix; var b := Burn(ix.nullifier, ToField(ix.mint), ix.amount, ix.destChain, ix.destAddress);
      b in Run(s, steps).sol.burns && SpendRelation(ix.root, b.nullifier, b.token, Num(b.amount), ix.w)
  {
    Pool.SpendEvent(Run(s, steps[..i]).sol, steps[i].ix);
    StepTo(s, steps, i);
    RunExtends(s, steps, i + 1);
  }

  lemma {:induction false} AttestedOnLedger(s: System, steps: seq<Step>, j: nat, nf: Digest, a: MintLedger.Attestation)
    requires Shaped2(s) && j < |steps|
    requires steps[j] == OnLedger(MintLedger.CallAddPending(s.ledger.operator, nf, a))
    ensures KnownToLedger(Run(s, steps).ledger, nf)
  {
    RunExtends(s, steps[..j], 0);
    StepTo(s, steps, j);
    RunExtends(s, steps, j + 1);
  }

  /** ... and towards the ledger, where nothing rivals it and the vault's own balance rules out the overflow. */
  lemma {:induction false} ReachesLedger(s: System, steps: seq<Step>, i: nat, j: nat, ix: Pool.Instruction)
    requires Settled(s) && s.evm.chainId != 101 && HonestRun(s, steps)
    requires i < |steps| && ix.BurnNote? && steps[i] == OnSolana(ix) && Pool.Process(Run(s, steps[..i]).sol, ix).Ok?
    requires j < |steps|
    requires var b := Burn(ix.nullifier, ToField(ix.mint), ix.amount, ix.destChain, ix.destAddress);
      steps[j] == OnLedger(MintLedger.CallAddPending(s.ledger.operator, b.nullifier, AttestationOf(b)))
    requires Conserved(s, ix.mint) && VaultOf(Run(s, steps).sol, ix.mint) < MintLedger.UINT256
    ensures var l := Run(s, steps).ledger;
      var b := Burn(ix.nullifier, ToField(ix.mint), ix.amount, ix.destChain, ix.destAddress);
      MintLedger.Execute(l, MintLedger.CallMint(ix.root, ix.nullifier, b.token, Num(b.amount), ix.destChain, ix.destAddress, ix.w)).Ok? <==>
      CreditOf(b) !in l.credits && ix.destChain == Num(l.chainId)
    // the claim, when accepted, credits the address in the low 160 bits of the destination, and nobody else
    ensures var l := Run(s, steps).ledger; var token := ToField(ix.mint);
      var claim := MintLedger.CallMint(ix.root, ix.nullifier, token, Num(ix.amount), ix.destChain, ix.destAddress, ix.w);
      MintLedger.Execute(l, claim).Ok? && ix.destAddress.Num? ==>
        var l', holder := MintLedger.Apply(l, claim), (token, MintLedger.Low160(ix.destAddress.n % MintLedger.UINT160));
        && MintLedger.BalanceOf(l'.balances, holder) == MintLedger.BalanceOf(l.balances, holder) + ix.amount
        && forall h :: h != holder ==> MintLedger.BalanceOf(l'.balances, h) == MintLedger.BalanceOf(l.balances, h)
  {
    var t := Run(s, steps);
    var b := Burn(ix.nullifier, ToField(ix.mint), ix.amount, ix.destChain, ix.destAddress);
    RunSettled(s, steps);
    RunConserves(s, steps, ix.mint);
    BurnKept(s, steps, i);
    AttestedOnLedger(s, steps, j, b.nullifier, AttestationOf(b));
    LedgerClaim(t, b, ix.root, ix.w);
    if b.nullifier in t.ledger.minted {
      CreditedIsOurs(t, b);
    } else if b.destChain == Num(t.ledger.chainId) {
      CreditFits(t, b, ix.mint);
    }
    var claim := MintLedger.CallMint(ix.root, ix.nullifier, b.token, Num(b.amount), ix.destChain, ix.destAddress, ix.w);
    if MintLedger.Execute(t.ledger, claim).Ok? && ix.destAddress.Num? {
      MintLedger.MintCredits(t.ledger, claim, ix.destAddress.n % MintLedger.UINT160);
    }
  }
}
