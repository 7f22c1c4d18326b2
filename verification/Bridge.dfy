/**
  Two chains and an attestor: the Solana pool, the EVM pool and the EVM mint ledger, stepping
  in any order.  Users choose every witness; tokens may also reach a vault from outside.
 */
module Bridge {
  import Wrappers
  import opened Merkle
  import opened Digests
  import opened Circuits
  import opened Registers
  import opened Accounting
  import Pool
  import EvmPool
  import MintLedger

  datatype System = System(sol: Pool.PoolState, evm: EvmPool.Evm, ledger: MintLedger.Ledger)

  datatype Step =
    | OnSolana(ix: Pool.Instruction)
    | OnEvm(call: EvmPool.Call)
    | OnLedger(mint: MintLedger.Call)
    | Donate(token: Pool.Pubkey, amount: nat)

  predicate Shaped2(s: System) {
    Shaped(s.sol.tree, TREE_DEPTH) && Shaped(s.evm.tree, TREE_DEPTH)
  }

  function Apply(s: System, step: Step): (s': System)
    requires Shaped2(s)
    ensures Shaped2(s')
  {
    match step
    case OnSolana(ix) => s.(sol := Pool.Apply(s.sol, ix))
    case OnEvm(call) => s.(evm := EvmPool.Apply(s.evm, call))
    case OnLedger(call) => s.(ledger := MintLedger.Apply(s.ledger, call))
    case Donate(token, amount) => s.(sol := s.sol.(vaults := s.sol.vaults[token := Pool.Balance(s.sol.vaults, token) + amount]))
  }

  function Run(s: System, steps: seq<Step>): (s': System)
    requires Shaped2(s)
    ensures Shaped2(s')
  {
    if steps == [] then s else Apply(Run(s, steps[..|steps| - 1]), steps[|steps| - 1])
  }

  // ---------- the attestor ----------

  predicate Recorded(s: System, x: Xburn) {
    x in s.sol.xburns || x in s.evm.xburns
  }

  function AttestationOf(b: Burn): MintLedger.Attestation {
    MintLedger.Attestation(b.token, Num(b.amount), b.destChain, MintLedger.AddressOf(b.destAddress))
  }

  predicate BurnRecorded(s: System, nf: Digest, a: MintLedger.Attestation) {
    exists b :: b in s.sol.burns && b.nullifier == nf && AttestationOf(b) == a
  }

  /** The operators only mirror what some pool has recorded.  Nothing is asked of anybody else. */
  predicate Mirrors(s: System, step: Step) {
    match step
    case OnSolana(AddPending(signer, nf, destChain, out)) => signer == s.sol.operator ==> Recorded(s, Xburn(nf, destChain, out))
    case OnEvm(CallAddPending(sender, nf, destChain, out)) => sender == s.evm.operator ==> Recorded(s, Xburn(nf, destChain, out))
    case OnLedger(CallAddPending(sender, nf, attested)) => sender == s.ledger.operator ==> BurnRecorded(s, nf, attested)
    case _ => true
  }

  predicate HonestRun(s: System, steps: seq<Step>)
    requires Shaped2(s)
  {
    steps != [] ==>
      var init, last := steps[..|steps| - 1], steps[|steps| - 1];
      HonestRun(s, init) && Mirrors(Run(s, init), last)
  }

  // ---------- liabilities ----------

  function XburnClaims(xs: seq<Xburn>): seq<Claim> {
    MapSeq((x: Xburn) => ClaimOf(x), xs)
  }

  function BurnClaims(bs: seq<Burn>): seq<Claim> {
    MapSeq((b: Burn) => BurnClaimOf(b), bs)
  }

  function On(chain: Digest, nfs: set<Digest>): set<Claim> {
    set nf | nf in nfs :: (chain, nf)
  }

  /** The cross-chain burns that a destination pool has minted. */
  function MintedClaims(s: System): set<Claim> {
    On(Pool.SOLANA_CHAIN, Minted(s.sol.pending)) + On(Num(s.evm.chainId), s.evm.minted)
  }

  function CreditedClaims(s: System): set<Claim> {
    On(Num(s.ledger.chainId), s.ledger.minted)
  }

  /** What the Solana pool and its two burn records owe in `token`, given the claims already paid elsewhere. */
  function SolanaOwes(p: Pool.PoolState, minted: set<Claim>, credited: set<Claim>, token: Digest): nat {
    Outstanding(p.leaves, Elements(p.nullifiers), token)
    + Unclaimed(XburnClaims(p.xburns), minted, token)
    + Unclaimed(BurnClaims(p.burns), credited, token)
  }

  function EvmOwes(e: EvmPool.Evm, minted: set<Claim>, token: Digest): nat {
    Outstanding(e.leaves, e.spent, token) + Unclaimed(XburnClaims(e.xburns), minted, token)
  }

  /**
    Everything redeemable in `token`: unspent notes on both chains, burns still in flight in
    either direction, burns awaiting a ledger credit, and ledger balances.
   */
  function Liabilities(s: System, token: Digest): nat {
    SolanaOwes(s.sol, MintedClaims(s), CreditedClaims(s), token)
    + EvmOwes(s.evm, MintedClaims(s), token)
    + MintLedger.Supply(s.ledger.credits, token)
  }

  function VaultOf(p: Pool.PoolState, mint: Pool.Pubkey): nat {
    Pool.Balance(p.vaults, mint)
  }

  ghost predicate Conserved(s: System, mint: Pool.Pubkey) {
    Liabilities(s, ToField(mint)) <= VaultOf(s.sol, mint)
  }

  // ---------- the invariant ----------

  /** Every recorded burn really moves the value it discloses. */
  ghost predicate RecordsSound(p: Pool.PoolState) {
    && (forall x :: x in p.xburns ==> Carries(x))
    && (forall b :: b in p.burns ==> Discloses(b))
  }

  /** Every attestation mirrors a record. */
  ghost predicate Mirrored(s: System) {
    && (forall i :: 0 <= i < |s.sol.pending| ==>
          var e := s.sol.pending[i]; e.expected.H2? && Recorded(s, Xburn(e.nullifier, e.expected.left, e.expected.right)))
    && (forall nf :: nf in s.evm.pending ==> Recorded(s, Xburn(nf, s.evm.pending[nf].0, s.evm.pending[nf].1)))
    && (forall nf :: nf in s.ledger.pending ==> BurnRecorded(s, nf, s.ledger.pending[nf]))
  }

  ghost predicate Sound(s: System) {
    && Pool.Sound(s.sol) && EvmPool.Sound(s.evm) && MintLedger.Sound(s.ledger)
    && RecordsSound(s.sol)
    && Mirrored(s)
  }

  lemma {:induction false} RecordsGrow(s: System, s': System)
    requires forall x :: x in s.sol.xburns ==> x in s'.sol.xburns
    requires forall x :: x in s.evm.xburns ==> x in s'.evm.xburns
    requires forall b :: b in s.sol.burns ==> b in s'.sol.burns
    ensures forall x :: Recorded(s, x) ==> Recorded(s', x)
    ensures forall nf, a :: BurnRecorded(s, nf, a) ==> BurnRecorded(s', nf, a)
  {
    forall nf, a | BurnRecorded(s, nf, a)
      ensures BurnRecorded(s', nf, a)
    {
      var b :| b in s.sol.burns && b.nullifier == nf && AttestationOf(b) == a;
      assert b in s'.sol.burns;
    }
  }

  lemma {:induction false} SolanaRecordsSound(p: Pool.PoolState, ix: Pool.Instruction, q: Pool.PoolState)
    requires Pool.Sound(p) && RecordsSound(p) && q == Pool.Apply(p, ix)
    ensures RecordsSound(q)
  {
    if Pool.Process(p, ix).Ok? && (ix.BurnNote? || ix.XburnNote?) {
      Pool.SpendEvent(p, ix);
      if ix.BurnNote? {
        BurnDiscloses(p, ix);
      } else {
        XburnCarries(p, ix);
      }
    } else {
      Pool.NoSpendEvent(p, ix);
    }
  }

  lemma {:induction false} BurnDiscloses(p: Pool.PoolState, ix: Pool.Instruction)
    requires Shaped(p.tree, TREE_DEPTH) && ix.BurnNote? && Pool.Process(p, ix).Ok?
    ensures Discloses(Burn(ix.nullifier, ToField(ix.mint), ix.amount, ix.destChain, ix.destAddress))
  {}

  lemma {:induction false} XburnCarries(p: Pool.PoolState, ix: Pool.Instruction)
    requires Shaped(p.tree, TREE_DEPTH) && ix.XburnNote? && Pool.Process(p, ix).Ok?
    ensures Carries(Xburn(ix.nullifier, ix.destChain, ix.out))
  {}

  lemma {:induction false} MirroredAfter(s: System, ix: Pool.Instruction, s': System)
    requires Mirrored(s) && Mirrors(s, OnSolana(ix)) && s'.evm == s.evm && s'.ledger == s.ledger
    requires s.sol.xburns <= s'.sol.xburns && s.sol.burns <= s'.sol.burns
    requires Pool.PendingAfter(s.sol, ix, s'.sol.pending)
    ensures Mirrored(s')
  {
    RecordsGrow(s, s');
  }

  lemma {:induction false} SolanaMirrored(s: System, ix: Pool.Instruction)
    requires Shaped2(s) && Mirrored(s) && Mirrors(s, OnSolana(ix))
    ensures Mirrored(Apply(s, OnSolana(ix)))
  {
    Pool.PendingEvent(s.sol, ix);
    Pool.RecordsKept(s.sol, ix);
    MirroredAfter(s, ix, Apply(s, OnSolana(ix)));
  }

  lemma {:induction false} SolanaStepSound(s: System, ix: Pool.Instruction)
    requires Sound(s) && Mirrors(s, OnSolana(ix))
    ensures Sound(Apply(s, OnSolana(ix)))
  {
    Pool.ApplySound(s.sol, ix);
    SolanaRecordsSound(s.sol, ix, Pool.Apply(s.sol, ix));
    SolanaMirrored(s, ix);
  }

  lemma {:induction false} EvmStepSound(s: System, call: EvmPool.Call)
    requires Sound(s) && Mirrors(s, OnEvm(call))
    ensures Sound(Apply(s, OnEvm(call)))
  {
    EvmPool.ApplySound(s.evm, call);
    RecordsGrow(s, Apply(s, OnEvm(call)));
  }

  lemma {:induction false} LedgerStepSound(s: System, call: MintLedger.Call)
    requires Sound(s) && Mirrors(s, OnLedger(call))
    ensures Sound(Apply(s, OnLedger(call)))
  {
    MintLedger.ApplySound(s.ledger, call);
    RecordsGrow(s, Apply(s, OnLedger(call)));
  }

  // ---------- what each instruction does to the books ----------

  /** Spending an inserted note releases its value, all of it and only once. */
  lemma {:induction false} SpendReleases(p: Pool.PoolState, nf: Digest, token: Digest)
    requires Pool.Sound(p) && IsNullifier(nf) && nf !in p.nullifiers
    ensures Outstanding(p.leaves, Elements(p.nullifiers), token) ==
            Outstanding(p.leaves, Elements(p.nullifiers + [nf]), token) + if nf.left in p.leaves then Value(nf.left, token) else 0
  {
    ElementsAppend(p.nullifiers, nf);
    OutstandingSpend(p.leaves, Elements(p.nullifiers), nf, token);
  }

  lemma {:induction false} DepositBalances(p: Pool.PoolState, ix: Pool.Instruction, mint: Pool.Pubkey)
    requires Pool.Sound(p) && ix.Deposit? && Pool.Process(p, ix).Ok?
    ensures var q, nfs, t := Pool.Apply(p, ix), Elements(p.nullifiers), ToField(mint);
      Outstanding(q.leaves, nfs, t) + VaultOf(p, mint) <= Outstanding(p.leaves, nfs, t) + VaultOf(q, mint)
  {
    OutstandingInsert(p.leaves, Elements(p.nullifiers), ix.commitment, ToField(mint));
    if ToField(mint) == ToField(ix.mint) { ToFieldInjective(mint, ix.mint); }
  }

  lemma {:induction false} WithdrawBalances(p: Pool.PoolState, ix: Pool.Instruction, mint: Pool.Pubkey)
    requires Pool.Sound(p) && ix.Withdraw? && Pool.Process(p, ix).Ok?
    ensures var q, t := Pool.Apply(p, ix), ToField(mint);
      Outstanding(q.leaves, Elements(q.nullifiers), t) + VaultOf(p, mint)
      == Outstanding(p.leaves, Elements(p.nullifiers), t) + VaultOf(q, mint)
  {
    SpendsInserted(p.tree, p.leaves, ix.root, ix.nullifier, ToField(ix.mint), Num(ix.amount), ix.w);
    SpendReleases(p, ix.nullifier, ToField(mint));
    if ToField(mint) == ToField(ix.mint) { ToFieldInjective(mint, ix.mint); }
  }

  lemma {:induction false} InputReleases(p: Pool.PoolState, root: Digest, nf: Digest, token: Digest, i: Input, t: Digest)
    requires Pool.Sound(p) && IsKnownRoot(p.tree, ZERO, root)
    requires InputRelation(root, nf, token, i) && nf !in p.nullifiers
    ensures IsNullifier(nf)
    ensures Outstanding(p.leaves, Elements(p.nullifiers), t) ==
            Outstanding(p.leaves, Elements(p.nullifiers + [nf]), t) + if t == token then i.amount.n else 0
  {
    if !i.isDummy {
      SpendsInserted(p.tree, p.leaves, root, nf, token, i.amount, i.note);
    }
    SpendReleases(p, nf, t);
  }

  /** A join-split never raises what is owed, in its own token or in any other. */
  lemma {:induction false} TransferBalances(p: Pool.PoolState, ix: Pool.Instruction, t: Digest)
    requires Pool.Sound(p) && ix.Transfer? && Pool.Process(p, ix).Ok?
    ensures var q := Pool.Apply(p, ix);
      Outstanding(q.leaves, Elements(q.nullifiers), t) <= Outstanding(p.leaves, Elements(p.nullifiers), t)
  {
    var nfs, outs, tw := ix.nullifiers, ix.outs, ix.tw;
    Pool.TransferFacts(ix.root, nfs, outs, tw);
    JoinSplitExact(ix.root, [nfs.0, nfs.1], [outs.0, outs.1], tw);
    InputReleases(p, ix.root, nfs.0, tw.token, tw.ins[0], t);
    var one := p.(nullifiers := p.nullifiers + [nfs.0]);
    Pool.SpendSound(p, nfs.0);
    InputReleases(one, ix.root, nfs.1, tw.token, tw.ins[1], t);
    var spent := Elements(p.nullifiers + [nfs.0] + [nfs.1]);
    OutstandingInsert(p.leaves, spent, outs.0, t);
    OutstandingInsert(p.leaves + [outs.0], spent, outs.1, t);
  }

  lemma {:induction false} BurnBalances(p: Pool.PoolState, ix: Pool.Instruction, credited: set<Claim>, t: Digest)
    requires Pool.Sound(p) && ix.BurnNote? && Pool.Process(p, ix).Ok?
    ensures var q := Pool.Apply(p, ix);
      Outstanding(q.leaves, Elements(q.nullifiers), t) + Unclaimed(BurnClaims(q.burns), credited, t)
      <= Outstanding(p.leaves, Elements(p.nullifiers), t) + Unclaimed(BurnClaims(p.burns), credited, t)
    ensures Discloses(Burn(ix.nullifier, ToField(ix.mint), ix.amount, ix.destChain, ix.destAddress))
  {
    var b := Burn(ix.nullifier, ToField(ix.mint), ix.amount, ix.destChain, ix.destAddress);
    SpendsInserted(p.tree, p.leaves, ix.root, ix.nullifier, b.token, Num(b.amount), ix.w);
    SpendReleases(p, ix.nullifier, t);
    UnclaimedAppend(BurnClaims(p.burns), credited, BurnClaimOf(b), t);
    assert BurnClaims(p.burns + [b]) == BurnClaims(p.burns) + [BurnClaimOf(b)];
  }

  lemma {:induction false} XburnBalances(p: Pool.PoolState, ix: Pool.Instruction, minted: set<Claim>, t: Digest)
    requires Pool.Sound(p) && ix.XburnNote? && Pool.Process(p, ix).Ok?
    ensures var q := Pool.Apply(p, ix);
      Outstanding(q.leaves, Elements(q.nullifiers), t) + Unclaimed(XburnClaims(q.xburns), minted, t)
      <= Outstanding(p.leaves, Elements(p.nullifiers), t) + Unclaimed(XburnClaims(p.xburns), minted, t)
  {
    var x := Xburn(ix.nullifier, ix.destChain, ix.out);
    SpendsInserted(p.tree, p.leaves, ix.root, ix.nullifier, ix.xw.token, ix.xw.amount, ix.xw.src);
    SpendReleases(p, ix.nullifier, t);
    UnclaimedAppend(XburnClaims(p.xburns), minted, ClaimOf(x), t);
    assert XburnClaims(p.xburns + [x]) == XburnClaims(p.xburns) + [ClaimOf(x)];
  }

  lemma {:induction false} NotesBalance(p: Pool.PoolState, ix: Pool.Instruction, mint: Pool.Pubkey)
    requires Pool.Sound(p) && (ix.Deposit? || ix.Withdraw? || ix.Transfer?)
    ensures var q, t := Pool.Apply(p, ix), ToField(mint);
      && q.xburns == p.xburns && q.burns == p.burns
      && Outstanding(q.leaves, Elements(q.nullifiers), t) + VaultOf(p, mint)
         <= Outstanding(p.leaves, Elements(p.nullifiers), t) + VaultOf(q, mint)
  {
    if Pool.Process(p, ix).Ok? {
      if ix.Deposit? {
        DepositBalances(p, ix, mint);
      } else if ix.Withdraw? {
        WithdrawBalances(p, ix, mint);
      } else {
        TransferBalances(p, ix, ToField(mint));
      }
    }
  }

  /** Every Solana instruction except a mint moves the vault and what Solana owes together. */
  lemma {:induction false} SolanaBalances(p: Pool.PoolState, ix: Pool.Instruction, minted: set<Claim>, credited: set<Claim>, mint: Pool.Pubkey)
    requires Pool.Sound(p) && !ix.MintFromXburn?
    ensures var q, t := Pool.Apply(p, ix), ToField(mint);
      SolanaOwes(q, minted, credited, t) + VaultOf(p, mint) <= SolanaOwes(p, minted, credited, t) + VaultOf(q, mint)
  {
    if ix.Deposit? || ix.Withdraw? || ix.Transfer? {
      NotesBalance(p, ix, mint);
    } else if Pool.Process(p, ix).Ok? {
      if ix.BurnNote? {
        BurnBalances(p, ix, credited, ToField(mint));
      } else if ix.XburnNote? {
        XburnBalances(p, ix, minted, ToField(mint));
      }
    }
  }

  // ---------- minting on a destination ----------

  /** Paying one recorded claim releases its value from the in-flight totals of both chains. */
  lemma {:induction false} ClaimReleases(s: System, x: Xburn, done: set<Claim>, t: Digest)
    requires Sound(s) && Recorded(s, x) && ClaimOf(x) !in done
    ensures Unclaimed(XburnClaims(s.sol.xburns), done + {ClaimOf(x)}, t)
          + Unclaimed(XburnClaims(s.evm.xburns), done + {ClaimOf(x)}, t)
          + Value(x.out, t)
         <= Unclaimed(XburnClaims(s.sol.xburns), done, t) + Unclaimed(XburnClaims(s.evm.xburns), done, t)
  {
    UnclaimedDone(XburnClaims(s.sol.xburns), done, ClaimOf(x), t);
    UnclaimedDone(XburnClaims(s.evm.xburns), done, ClaimOf(x), t);
    ClaimListed(s.sol.xburns, x);
    ClaimListed(s.evm.xburns, x);
    assert Carries(x);
  }

  lemma {:induction false} ClaimListed(xs: seq<Xburn>, x: Xburn)
    ensures x in xs ==> ClaimOf(x) in XburnClaims(xs)
  {
    if x in xs {
      var i :| 0 <= i < |xs| && xs[i] == x;
      assert XburnClaims(xs)[i] == ClaimOf(x);
    }
  }

  lemma {:induction false} SolanaMintBalances(s: System, ix: Pool.Instruction, t: Digest)
    requires Sound(s) && s.evm.chainId != 101
    requires ix.MintFromXburn? && Pool.Process(s.sol, ix).Ok?
    ensures Liabilities(Apply(s, OnSolana(ix)), t) <= Liabilities(s, t)
  {
    var x, i := Xburn(ix.nullifier, ix.destChain, ix.out), IndexOf(s.sol.pending, ix.nullifier);
    var done, s' := MintedClaims(s), Apply(s, OnSolana(ix));
    MintedChanges(s.sol.pending, Entry(ix.nullifier, ZERO, false), i);
    Pool.OpenEntry(s.sol.pending, i);
    assert Recorded(s, x);
    assert MintedClaims(s') == done + {ClaimOf(x)};
    ClaimReleases(s, x, done, t);
    OutstandingInsert(s.sol.leaves, Elements(s.sol.nullifiers), ix.out, t);
  }

  lemma {:induction false} EvmMintBalances(s: System, call: EvmPool.Call, t: Digest)
    requires Sound(s) && s.evm.chainId != 101
    requires call.CallMint? && EvmPool.Execute(s.evm, call).Ok?
    ensures Liabilities(Apply(s, OnEvm(call)), t) <= Liabilities(s, t)
  {
    var x := Xburn(call.nullifier, call.destChain, call.out);
    var done, s' := MintedClaims(s), Apply(s, OnEvm(call));
    assert Recorded(s, x);
    assert MintedClaims(s') == done + {ClaimOf(x)};
    ClaimReleases(s, x, done, t);
    OutstandingInsert(s.evm.leaves, s.evm.spent, call.out, t);
  }

  lemma {:induction false} EvmXburnBalances(e: EvmPool.Evm, call: EvmPool.Call, done: set<Claim>, t: Digest)
    requires EvmPool.Sound(e)
    requires call.CallXburn? && EvmPool.Execute(e, call).Ok?
    ensures EvmOwes(EvmPool.Apply(e, call), done, t) <= EvmOwes(e, done, t)
  {
    var x := Xburn(call.nullifier, call.destChain, call.out);
    SpendsInserted(e.tree, e.leaves, call.root, call.nullifier, call.w.token, call.w.amount, call.w.src);
    OutstandingSpend(e.leaves, e.spent, call.nullifier, t);
    UnclaimedAppend(XburnClaims(e.xburns), done, ClaimOf(x), t);
    assert XburnClaims(e.xburns + [x]) == XburnClaims(e.xburns) + [ClaimOf(x)];
  }

  lemma {:induction false} EvmBalances(s: System, call: EvmPool.Call, t: Digest)
    requires Sound(s) && s.evm.chainId != 101
    ensures Liabilities(Apply(s, OnEvm(call)), t) <= Liabilities(s, t)
  {
    if EvmPool.Execute(s.evm, call).Ok? {
      match call
      case CallXburn(_, _, _, _, _) => EvmXburnBalances(s.evm, call, MintedClaims(s), t);
      case CallAddPending(_, _, _, _) =>
      case CallMint(_, _, _, _, _) => EvmMintBalances(s, call, t);
    }
  }

  lemma {:induction false} CreditReleases(s: System, nf: Digest, a: MintLedger.Attestation, done: set<Claim>, t: Digest)
    requires RecordsSound(s.sol) && BurnRecorded(s, nf, a) && (a.destChain, nf) !in done
    ensures Unclaimed(BurnClaims(s.sol.burns), done + {(a.destChain, nf)}, t)
          + (if t == a.token && a.amount.Num? then a.amount.n else 0) <= Unclaimed(BurnClaims(s.sol.burns), done, t)
  {
    var b :| b in s.sol.burns && b.nullifier == nf && AttestationOf(b) == a;
    var i :| 0 <= i < |s.sol.burns| && s.sol.burns[i] == b;
    assert Discloses(b);
    assert BurnClaims(s.sol.burns)[i] == BurnClaimOf(b);
    UnclaimedDone(BurnClaims(s.sol.burns), done, BurnClaimOf(b), t);
  }

  lemma {:induction false} CreditBalances(s: System, s': System, c: MintLedger.Credit, t: Digest)
    requires Sound(s) && s'.sol == s.sol && s'.evm == s.evm && s'.ledger.chainId == s.ledger.chainId
    requires s'.ledger.credits == s.ledger.credits + [c] && s'.ledger.minted == s.ledger.minted + {c.nullifier}
    requires c.nullifier in s.ledger.pending
    requires s.ledger.pending[c.nullifier] == MintLedger.Attestation(c.token, Num(c.amount), Num(s.ledger.chainId), c.to)
    ensures Liabilities(s', t) <= Liabilities(s, t)
  {
    var done := CreditedClaims(s);
    CreditReleases(s, c.nullifier, s.ledger.pending[c.nullifier], done, t);
    assert CreditedClaims(s') == done + {(Num(s.ledger.chainId), c.nullifier)};
    MintLedger.CreditAppend(s.ledger.credits, c, (t, c.to));
  }

  lemma {:induction false} LedgerBalances(s: System, call: MintLedger.Call, t: Digest)
    requires Sound(s)
    ensures Liabilities(Apply(s, OnLedger(call)), t) <= Liabilities(s, t)
  {
    if MintLedger.Execute(s.ledger, call).Ok? && call.CallMint? {
      MintLedger.CreditEvent(s.ledger, call);
      var c := MintLedger.Credit(call.nullifier, call.token, MintLedger.AddressOf(call.destAddress), call.amount.n);
      CreditBalances(s, Apply(s, OnLedger(call)), c, t);
    } else {
      MintLedger.NoCreditEvent(s.ledger, call);
    }
  }

  /**
    The destination never checks the source root, and need not: an accepted mint always matches a
    recorded burn, and its note carries exactly the token and amount of the note that was burned.
   */
  lemma {:induction false} MintCarriesBurn(s: System, step: Step)
    requires Sound(s)
    requires (step.OnEvm? && step.call.CallMint? && EvmPool.Execute(s.evm, step.call).Ok?) ||
             (step.OnSolana? && step.ix.MintFromXburn? && Pool.Process(s.sol, step.ix).Ok?)
    ensures var x := MintedBy(step); Recorded(s, x) && Carries(x)
    ensures forall token :: Value(MintedBy(step).out, token) == Value(MintedBy(step).nullifier.left, token)
  {
    var x := MintedBy(step);
    if step.OnSolana? {
      var e := s.sol.pending[IndexOf(s.sol.pending, step.ix.nullifier)];
      assert Recorded(s, Xburn(e.nullifier, e.expected.left, e.expected.right));
    }
  }

  /** The tuple that a mint step names. */
  function MintedBy(step: Step): Xburn
    requires (step.OnEvm? && step.call.CallMint?) || (step.OnSolana? && step.ix.MintFromXburn?)
  {
    if step.OnEvm? then Xburn(step.call.nullifier, step.call.destChain, step.call.out)
    else Xburn(step.ix.nullifier, step.ix.destChain, step.ix.out)
  }

  // ---------- conservation over every run ----------

  lemma {:induction false} SolanaConserves(s: System, ix: Pool.Instruction, mint: Pool.Pubkey)
    requires Sound(s) && s.evm.chainId != 101
    requires Conserved(s, mint)
    ensures Conserved(Apply(s, OnSolana(ix)), mint)
  {
    if ix.MintFromXburn? {
      if Pool.Process(s.sol, ix).Ok? { SolanaMintBalances(s, ix, ToField(mint)); }
    } else {
      SolanaBalances(s.sol, ix, MintedClaims(s), CreditedClaims(s), mint);
      SameMinted(s.sol, ix);
    }
  }

  /** One step of anyone, with operators that mirror, keeps the books covered. */
  lemma {:induction false} StepConserves(s: System, step: Step, mint: Pool.Pubkey)
    requires Sound(s) && s.evm.chainId != 101 && Mirrors(s, step)
    requires Conserved(s, mint)
    ensures Sound(Apply(s, step)) && Conserved(Apply(s, step), mint) && Apply(s, step).evm.chainId == s.evm.chainId
  {
    match step
    case OnSolana(ix) =>
      SolanaStepSound(s, ix);
      SolanaConserves(s, ix, mint);
    case OnEvm(call) =>
      EvmStepSound(s, call);
      EvmBalances(s, call, ToField(mint));
    case OnLedger(call) =>
      LedgerStepSound(s, call);
      LedgerBalances(s, call, ToField(mint));
    case Donate(token, amount) =>
      DonationConserves(s, token, amount, mint);
  }

  lemma {:induction false} DonationConserves(s: System, token: Pool.Pubkey, amount: nat, mint: Pool.Pubkey)
    requires Sound(s) && Conserved(s, mint)
    ensures Sound(Apply(s, Donate(token, amount))) && Conserved(Apply(s, Donate(token, amount)), mint)
  {
    var s' := Apply(s, Donate(token, amount));
    RecordsGrow(s, s');
    assert Liabilities(s', ToField(mint)) == Liabilities(s, ToField(mint));
  }

  lemma {:induction false} SameMinted(p: Pool.PoolState, ix: Pool.Instruction)
    requires Pool.Sound(p) && !ix.MintFromXburn?
    ensures Minted(Pool.Apply(p, ix).pending) == Minted(p.pending)
  {
    if ix.AddPending? && p.pending != [] {
      MintedChanges(p.pending, Entry(ix.nullifier, Hash2(ix.destChain, ix.out), false), 0);
    }
  }

  function Genesis(operator: Pool.Pubkey, wallets: map<(Pool.Pubkey, Pool.Pubkey), nat>,
                   evmOperator: nat, chainId: nat, ledgerOperator: nat, ledgerChainId: nat): (s: System)
    ensures Shaped2(s)
  {
    System(Pool.Genesis(operator, wallets), EvmPool.Genesis(evmOperator, chainId), MintLedger.Genesis(ledgerOperator, ledgerChainId))
  }

  lemma {:induction false} RunConserves(s: System, steps: seq<Step>, mint: Pool.Pubkey)
    requires Sound(s) && s.evm.chainId != 101 && Conserved(s, mint)
    requires HonestRun(s, steps)
    ensures Sound(Run(s, steps)) && Conserved(Run(s, steps), mint) && Run(s, steps).evm.chainId == s.evm.chainId
  {
    if steps != [] {
      var init, last := steps[..|steps| - 1], steps[|steps| - 1];
      RunConserves(s, init, mint);
      StepConserves(Run(s, init), last, mint);
      assert Run(s, steps) == Apply(Run(s, init), last);
    }
  }

  /**
    Cross-chain conservation: in every interleaving with an attestor that only mirrors, each
    mint's vault covers every unspent note on both chains, every burn in flight, and every
    ledger balance.
   */
  lemma {:induction false} Conservation(operator: Pool.Pubkey, wallets: map<(Pool.Pubkey, Pool.Pubkey), nat>, evmOperator: nat, chainId: nat,
                     ledgerOperator: nat, ledgerChainId: nat, steps: seq<Step>, mint: Pool.Pubkey)
    requires chainId != 101
    requires HonestRun(Genesis(operator, wallets, evmOperator, chainId, ledgerOperator, ledgerChainId), steps)
    ensures var s := Run(Genesis(operator, wallets, evmOperator, chainId, ledgerOperator, ledgerChainId), steps);
      Sound(s) && Liabilities(s, ToField(mint)) <= VaultOf(s.sol, mint)
  {
    var s := Genesis(operator, wallets, evmOperator, chainId, ledgerOperator, ledgerChainId);
    Pool.GenesisSound(operator, wallets);
    EvmPool.GenesisSound(evmOperator, chainId);
    assert Sound(s);
    RunConserves(s, steps, mint);
  }

  /** Solana on its own: without cross-chain mints no attestor matters, and every vault covers its notes and its burns. */
  lemma {:induction false} SolanaSolvency(operator: Pool.Pubkey, wallets: map<(Pool.Pubkey, Pool.Pubkey), nat>,
                                          ixs: seq<Pool.Instruction>, mint: Pool.Pubkey)
    requires forall ix :: ix in ixs ==> !ix.MintFromXburn?
    ensures var p := Pool.Run(Pool.Genesis(operator, wallets), ixs);
      Pool.Sound(p) && SolanaOwes(p, {}, {}, ToField(mint)) <= VaultOf(p, mint)
  {
    var start := Pool.Genesis(operator, wallets);
    Pool.GenesisSound(operator, wallets);
    Pool.RunSound(start, ixs);
    if ixs != [] {
      var init, last := ixs[..|ixs| - 1], ixs[|ixs| - 1];
      SolanaSolvency(operator, wallets, init, mint);
      SolanaBalances(Pool.Run(start, init), last, {}, {}, mint);
    }
  }

  /** The leaf list only grows. */
  lemma {:induction false} LeavesGrow(s: System, steps: seq<Step>)
    requires Shaped2(s)
    ensures s.sol.leaves <= Run(s, steps).sol.leaves
  {
    if steps != [] {
      LeavesGrow(s, steps[..|steps| - 1]);
      LeavesAppended(Run(s, steps[..|steps| - 1]), steps[|steps| - 1]);
    }
  }

  lemma {:induction false} LeavesAppended(s: System, step: Step)
    requires Shaped2(s)
    ensures s.sol.leaves <= Apply(s, step).sol.leaves
  {}

  /** The vault of a mint covers the pool's own unspent notes. */
  predicate Covered(p: Pool.PoolState, mint: Pool.Pubkey) {
    Outstanding(p.leaves, Elements(p.nullifiers), ToField(mint)) <= VaultOf(p, mint)
  }

  /** Solvency: a withdraw that passes every other check is always paid. */
  lemma {:induction false} WithdrawAlwaysFunded(p: Pool.PoolState, ix: Pool.Instruction)
    requires Pool.Sound(p) && ix.Withdraw? && Covered(p, ix.mint)
    ensures Pool.Process(p, ix) != Wrappers.Err(Pool.InsufficientFunds)
    ensures Pool.Process(p, ix).Ok? <==>
            && SpendRelation(ix.root, ix.nullifier, ToField(ix.mint), Num(ix.amount), ix.w)
            && IsKnownRoot(p.tree, ZERO, ix.root)
            && ix.nullifier !in p.nullifiers
  {
    var t := ToField(ix.mint);
    if SpendRelation(ix.root, ix.nullifier, t, Num(ix.amount), ix.w) && IsKnownRoot(p.tree, ZERO, ix.root) &&
       ix.nullifier !in p.nullifiers {
      SpendsInserted(p.tree, p.leaves, ix.root, ix.nullifier, t, Num(ix.amount), ix.w);
      OutstandingHolds(p.leaves, Elements(p.nullifiers), ix.nullifier.left, t);
    }
  }

  /** ... after any run without cross-chain mints, whatever anybody attested in it. */
  lemma {:induction false} PaidAfterAnyRun(operator: Pool.Pubkey, wallets: map<(Pool.Pubkey, Pool.Pubkey), nat>,
                                           ixs: seq<Pool.Instruction>, ix: Pool.Instruction)
    requires forall i :: i in ixs ==> !i.MintFromXburn?
    requires ix.Withdraw?
    ensures Pool.Process(Pool.Run(Pool.Genesis(operator, wallets), ixs), ix) != Wrappers.Err(Pool.InsufficientFunds)
  {
    SolanaSolvency(operator, wallets, ixs, ix.mint);
    WithdrawAlwaysFunded(Pool.Run(Pool.Genesis(operator, wallets), ixs), ix);
  }

  /** ... and after any run of the whole system whose operators mirror. */
  lemma {:induction false} PaidAfterHonestRun(operator: Pool.Pubkey, wallets: map<(Pool.Pubkey, Pool.Pubkey), nat>, evmOperator: nat,
                                              chainId: nat, ledgerOperator: nat, ledgerChainId: nat, steps: seq<Step>, ix: Pool.Instruction)
    requires chainId != 101 && ix.Withdraw?
    requires HonestRun(Genesis(operator, wallets, evmOperator, chainId, ledgerOperator, ledgerChainId), steps)
    ensures Pool.Process(Run(Genesis(operator, wallets, evmOperator, chainId, ledgerOperator, ledgerChainId), steps).sol, ix)
            != Wrappers.Err(Pool.InsufficientFunds)
  {
    Conservation(operator, wallets, evmOperator, chainId, ledgerOperator, ledgerChainId, steps, ix.mint);
    WithdrawAlwaysFunded(Run(Genesis(operator, wallets, evmOperator, chainId, ledgerOperator, ledgerChainId), steps).sol, ix);
  }
}
