/**
  When each operation is accepted, and what it answers otherwise: in terms of the history of the
  pool (its leaves and its register) instead of the stored ring.
 */
module Acceptance {
  import opened Wrappers
  import opened Bytes
  import opened Merkle
  import opened Digests
  import opened Circuits
  import opened Registers
  import opened Accounting
  import Pool
  import EvmPool
  import Wallet
  import Bridge
  import AccountTree

  // ---------- roots ----------

  /** A root of the tree at most 31 inserts ago. */
  ghost predicate Recent(leaves: seq<Digest>, root: Digest) {
    exists k :: 0 <= k <= |leaves| < k + 32 && Root(Hash2, ZERO, 24, leaves[..k]) == root
  }

  lemma {:induction false} RootNonZero(leaves: seq<Digest>)
    ensures Root(Hash2, ZERO, TREE_DEPTH, leaves) != ZERO
  {}

  lemma {:induction false} RingIsRecent(t: Tree<Digest>, leaves: seq<Digest>, root: Digest)
    requires Reflects(Hash2, ZERO, TREE_DEPTH, t, leaves)
    ensures IsKnownRoot(t, ZERO, root) <==> Recent(leaves, root)
  {
    RootWindow(Hash2, ZERO, TREE_DEPTH, t, leaves, root);
    if Recent(leaves, root) {
      var k :| 0 <= k <= |leaves| < k + 32 && Root(Hash2, ZERO, 24, leaves[..k]) == root;
      RootNonZero(leaves[..k]);
    }
  }

  /** Where every leaf is a note, the root of the first `k` leaves is known exactly until the 32nd insert after it. */
  lemma {:induction false} RootLives(t: Tree<Digest>, leaves: seq<Digest>, k: nat)
    requires Reflects(Hash2, ZERO, TREE_DEPTH, t, leaves) && k <= |leaves| <= Pow2(TREE_DEPTH)
    requires forall c :: c in leaves ==> IsNote(c)
    ensures IsKnownRoot(t, ZERO, Root(Hash2, ZERO, TREE_DEPTH, leaves[..k])) <==> |leaves| < k + 32
  {
    RootEviction(t, leaves, TREE_DEPTH, k);
    if k + 32 <= |leaves| {
      var between := leaves[k..|leaves| - (ROOT_HISTORY - 1)];
      assert leaves[k] in leaves && between[0] == leaves[k];
      assert !AllZero(between);
    }
  }

  lemma {:induction false} RoomLeft(t: Tree<Digest>, leaves: seq<Digest>)
    requires Reflects(Hash2, ZERO, TREE_DEPTH, t, leaves)
    ensures Full(t) <==> 0x100_0000 <= |leaves|
  {
    AccountTree.Capacity();
  }

  // ---------- exactly when ----------

  lemma {:induction false} DepositExactly(p: Pool.PoolState, ix: Pool.Instruction)
    requires Pool.Sound(p) && ix.Deposit?
    ensures Pool.Process(p, ix).Ok? <==>
            && ix.commitment == H4(ToField(ix.mint), Num(ix.amount), ix.owner, ix.blinding)
            && ix.amount <= Pool.Balance(p.wallets, (ix.depositor, ix.mint))
            && |p.leaves| < 0x100_0000
  {
    RoomLeft(p.tree, p.leaves);
  }

  lemma {:induction false} WithdrawExactly(p: Pool.PoolState, ix: Pool.Instruction)
    requires Pool.Sound(p) && ix.Withdraw?
    ensures Pool.Process(p, ix).Ok? <==>
            && SpendRelation(ix.root, ix.nullifier, ToField(ix.mint), Num(ix.amount), ix.w)
            && Recent(p.leaves, ix.root) && ix.nullifier !in p.nullifiers
            && ix.amount <= Pool.Balance(p.vaults, ix.mint)
  {
    RingIsRecent(p.tree, p.leaves, ix.root);
  }

  lemma {:induction false} TransferExactly(p: Pool.PoolState, ix: Pool.Instruction)
    requires Pool.Sound(p) && ix.Transfer?
    ensures Pool.Process(p, ix).Ok? <==>
            && TransferRelation(ix.root, [ix.nullifiers.0, ix.nullifiers.1], [ix.outs.0, ix.outs.1], ix.tw)
            && Recent(p.leaves, ix.root)
            && ix.nullifiers.0 !in p.nullifiers && ix.nullifiers.1 !in p.nullifiers && ix.nullifiers.0 != ix.nullifiers.1
            && |p.leaves| + 2 <= 0x100_0000
  {
    RingIsRecent(p.tree, p.leaves, ix.root);
    AccountTree.Capacity();
  }

  lemma {:induction false} BurnExactly(p: Pool.PoolState, ix: Pool.Instruction)
    requires Pool.Sound(p) && ix.BurnNote?
    ensures Pool.Process(p, ix).Ok? <==>
            && SpendRelation(ix.root, ix.nullifier, ToField(ix.mint), Num(ix.amount), ix.w)
            && Recent(p.leaves, ix.root) && ix.nullifier !in p.nullifiers
  {
    RingIsRecent(p.tree, p.leaves, ix.root);
  }

  lemma {:induction false} XburnExactly(p: Pool.PoolState, ix: Pool.Instruction)
    requires Pool.Sound(p) && ix.XburnNote?
    ensures Pool.Process(p, ix).Ok? <==>
            XburnRelation(ix.root, ix.nullifier, ix.out, ix.xw) && Recent(p.leaves, ix.root) && ix.nullifier !in p.nullifiers
  {
    RingIsRecent(p.tree, p.leaves, ix.root);
  }

  lemma {:induction false} EvmXburnExactly(e: EvmPool.Evm, call: EvmPool.Call)
    requires EvmPool.Sound(e) && call.CallXburn?
    ensures EvmPool.Execute(e, call).Ok? <==>
            XburnRelation(call.root, call.nullifier, call.out, call.w) && Recent(e.leaves, call.root) && call.nullifier !in e.spent
  {
    RingIsRecent(e.tree, e.leaves, call.root);
  }

  // ---------- what becomes of a built spend ----------

  type Note = Wallet.Note

  function BurnOf(n: Note, leaves: seq<Digest>, destChain: Digest, destAddress: Digest): Pool.Instruction
    requires n.commitment in leaves
  {
    Pool.BurnNote(Root(Hash2, ZERO, TREE_DEPTH, leaves), Wallet.NullifierOf(n), n.mint, n.amount, destChain, destAddress,
                  Wallet.PathWitness(n, leaves))
  }

  /** The witness that moves a note to `destOwner`, and the note it becomes. */
  function XburnWitnessOf(n: Note, leaves: seq<Digest>, destOwner: Digest, destBlinding: Digest): XburnWitness
    requires n.commitment in leaves
  {
    XburnWitness(ToField(n.mint), Num(n.amount), Wallet.PathWitness(n, leaves), destOwner, destBlinding)
  }

  function Moved(n: Note, destOwner: Digest, destBlinding: Digest): Digest {
    H4(ToField(n.mint), Num(n.amount), destOwner, destBlinding)
  }

  function XburnOf(n: Note, leaves: seq<Digest>, destChain: Digest, destOwner: Digest, destBlinding: Digest): Pool.Instruction
    requires n.commitment in leaves
  {
    Pool.XburnNote(Root(Hash2, ZERO, TREE_DEPTH, leaves), Wallet.NullifierOf(n), destChain, Moved(n, destOwner, destBlinding),
                   XburnWitnessOf(n, leaves, destOwner, destBlinding))
  }

  function EvmXburnOf(n: Note, leaves: seq<Digest>, destChain: Digest, destOwner: Digest, destBlinding: Digest): EvmPool.Call
    requires n.commitment in leaves
  {
    EvmPool.CallXburn(Root(Hash2, ZERO, TREE_DEPTH, leaves), Wallet.NullifierOf(n), destChain, Moved(n, destOwner, destBlinding),
                      XburnWitnessOf(n, leaves, destOwner, destBlinding))
  }

  /** Built from the first `k` leaves, a withdraw fails as stale from the 32nd insert on, then as spent, and is paid otherwise. */
  lemma {:induction false} WithdrawFate(p: Pool.PoolState, n: Note, k: nat, recipient: Pool.Pubkey)
    requires Pool.Sound(p) && Bridge.Covered(p, n.mint)
    requires k <= |p.leaves| && Wallet.Opens(n) && n.commitment in p.leaves[..k]
    ensures var r := Pool.Process(p, Wallet.WithdrawOf(n, p.leaves[..k], recipient));
      if k + 32 <= |p.leaves| then r == Err(Pool.UnknownRoot)
      else if H2(n.commitment, n.spendKey) in p.nullifiers then r == Err(Pool.AlreadySpent)
      else r.Ok?
  {
    Wallet.PathSatisfies(n, p.leaves[..k]);
    RootLives(p.tree, p.leaves, k);
    if |p.leaves| < k + 32 && Wallet.NullifierOf(n) !in p.nullifiers {
      Wallet.WithdrawComplete(p, n, k, recipient);
    }
  }

  lemma {:induction false} BurnFate(p: Pool.PoolState, n: Note, k: nat, destChain: Digest, destAddress: Digest)
    requires Pool.Sound(p)
    requires k <= |p.leaves| && Wallet.Opens(n) && n.commitment in p.leaves[..k]
    ensures var r := Pool.Process(p, BurnOf(n, p.leaves[..k], destChain, destAddress));
      if k + 32 <= |p.leaves| then r == Err(Pool.UnknownRoot)
      else if H2(n.commitment, n.spendKey) in p.nullifiers then r == Err(Pool.AlreadySpent)
      else r.Ok?
  {
    Wallet.PathSatisfies(n, p.leaves[..k]);
    RootLives(p.tree, p.leaves, k);
  }

  lemma {:induction false} XburnFate(p: Pool.PoolState, n: Note, k: nat, destChain: Digest, destOwner: Digest, destBlinding: Digest)
    requires Pool.Sound(p)
    requires k <= |p.leaves| && Wallet.Opens(n) && n.commitment in p.leaves[..k]
    ensures var r := Pool.Process(p, XburnOf(n, p.leaves[..k], destChain, destOwner, destBlinding));
      if k + 32 <= |p.leaves| then r == Err(Pool.UnknownRoot)
      else if H2(n.commitment, n.spendKey) in p.nullifiers then r == Err(Pool.AlreadySpent)
      else r.Ok?
  {
    Wallet.PathSatisfies(n, p.leaves[..k]);
    RootLives(p.tree, p.leaves, k);
  }

  lemma {:induction false} EvmXburnFate(e: EvmPool.Evm, n: Note, k: nat, destChain: Digest, destOwner: Digest, destBlinding: Digest)
    requires EvmPool.Sound(e)
    requires k <= |e.leaves| && Wallet.Opens(n) && n.commitment in e.leaves[..k]
    ensures var r := EvmPool.Execute(e, EvmXburnOf(n, e.leaves[..k], destChain, destOwner, destBlinding));
      if k + 32 <= |e.leaves| then r == Err(EvmPool.UnknownRoot)
      else if H2(n.commitment, n.spendKey) in e.spent then r == Err(EvmPool.AlreadySpent)
      else r.Ok?
  {
    Wallet.PathSatisfies(n, e.leaves[..k]);
    RootLives(e.tree, e.leaves, k);
  }

  /** A transfer also needs a fresh dummy and two free slots, in that order of refusal. */
  lemma {:induction false} TransferFate(p: Pool.PoolState, n: Note, k: nat, to: Digest, amount: u64, s: Wallet.Secrets)
    requires Pool.Sound(p)
    requires k <= |p.leaves| && Wallet.Opens(n) && n.commitment in p.leaves[..k] && amount <= n.amount
    ensures var r := Pool.Process(p, Wallet.TransferOf(n, p.leaves[..k], to, amount, s));
      var dummy := H2(H4(ToField(n.mint), Num(0), H1(s.dummyKey), s.dummyBlinding), s.dummyKey);
      if k + 32 <= |p.leaves| then r == Err(Pool.UnknownRoot)
      else if H2(n.commitment, n.spendKey) in p.nullifiers || dummy in p.nullifiers || dummy == H2(n.commitment, n.spendKey)
      then r == Err(Pool.AlreadySpent)
      else if 0x100_0000 < |p.leaves| + 2 then r == Err(Pool.TreeFull)
      else r.Ok?
  {
    Wallet.TransferSatisfies(n, p.leaves[..k], to, amount, s);
    RootLives(p.tree, p.leaves, k);
    AccountTree.Capacity();
    var ix := Wallet.TransferOf(n, p.leaves[..k], to, amount, s);
    JoinSplitFate(p, ix.nullifiers, ix.outs);
  }

  lemma {:induction false} JoinSplitFate(p: Pool.PoolState, nfs: (Digest, Digest), outs: (Digest, Digest))
    requires Shaped(p.tree, TREE_DEPTH)
    ensures Pool.JoinSplit(p, nfs, outs) == Err(Pool.TreeFull) || Pool.JoinSplit(p, nfs, outs).Ok?
    ensures Pool.JoinSplit(p, nfs, outs).Ok? <==> p.tree.next + 2 <= Pow2(TREE_DEPTH)
  {}

  // ---------- repeating an accepted operation ----------

  predicate Spends(ix: Pool.Instruction) {
    ix.Withdraw? || ix.Transfer? || ix.BurnNote? || ix.XburnNote?
  }

  function RootOf(ix: Pool.Instruction): Digest
    requires Spends(ix)
  {
    match ix
    case Withdraw(root, _, _, _, _, _) => root
    case Transfer(root, _, _, _) => root
    case BurnNote(root, _, _, _, _, _, _) => root
    case XburnNote(root, _, _, _, _) => root
  }

  lemma {:induction false} SpentStays(p: Pool.PoolState, ixs: seq<Pool.Instruction>, nf: Digest)
    requires Shaped(p.tree, TREE_DEPTH) && nf in p.nullifiers
    ensures nf in Pool.Run(p, ixs).nullifiers
  {
    Pool.RegisterIsHistory(p, ixs);
  }

  /** Two spends share a nullifier. */
  predicate Collides(a: Pool.Instruction, b: Pool.Instruction) {
    exists nf :: nf in Pool.Consumes(a) && nf in Pool.Consumes(b)
  }

  lemma {:induction false} RefusedAsSpent(p: Pool.PoolState, ix: Pool.Instruction, nf: Digest)
    requires Pool.Sound(p) && Spends(ix) && nf in Pool.Consumes(ix) && nf in p.nullifiers
    ensures Pool.Process(p, ix) != Err(Pool.ProofInvalid) ==>
      Pool.Process(p, ix) == if Recent(p.leaves, RootOf(ix)) then Err(Pool.AlreadySpent) else Err(Pool.UnknownRoot)
  {
    RingIsRecent(p.tree, p.leaves, RootOf(ix));
  }

  /**
    After an accepted spend, whatever happens in between, every spend that reuses one of its
    nullifiers is refused: as already spent while its root is recent, as an unknown root otherwise.
   */
  lemma {:induction false} ReuseRefused(p: Pool.PoolState, first: Pool.Instruction, ixs: seq<Pool.Instruction>, again: Pool.Instruction)
    requires Pool.Sound(p) && Spends(first) && Pool.Process(p, first).Ok?
    requires Spends(again) && Collides(first, again)
    ensures var q := Pool.Run(Pool.Apply(p, first), ixs);
      Pool.Process(q, again) != Err(Pool.ProofInvalid) ==>
        Pool.Process(q, again) == if Recent(q.leaves, RootOf(again)) then Err(Pool.AlreadySpent) else Err(Pool.UnknownRoot)
  {
    var nf :| nf in Pool.Consumes(first) && nf in Pool.Consumes(again);
    Pool.StepConsumes(p, first);
    Pool.ApplySound(p, first);
    Pool.RunSound(Pool.Apply(p, first), ixs);
    SpentStays(Pool.Apply(p, first), ixs, nf);
    RefusedAsSpent(Pool.Run(Pool.Apply(p, first), ixs), again, nf);
  }

  /** Which proofs are invalid does not depend on the state. */
  lemma {:induction false} ProofAlone(p: Pool.PoolState, q: Pool.PoolState, ix: Pool.Instruction)
    requires Shaped(p.tree, TREE_DEPTH) && Shaped(q.tree, TREE_DEPTH) && Spends(ix)
    ensures Pool.Process(p, ix) == Err(Pool.ProofInvalid) <==> Pool.Process(q, ix) == Err(Pool.ProofInvalid)
  {}

  /** In particular the same instruction is never accepted twice. */
  lemma {:induction false} RepeatRefused(p: Pool.PoolState, ix: Pool.Instruction, ixs: seq<Pool.Instruction>)
    requires Pool.Sound(p) && Spends(ix) && Pool.Process(p, ix).Ok?
    ensures var q := Pool.Run(Pool.Apply(p, ix), ixs);
      Pool.Process(q, ix) == if Recent(q.leaves, RootOf(ix)) then Err(Pool.AlreadySpent) else Err(Pool.UnknownRoot)
  {
    var q := Pool.Run(Pool.Apply(p, ix), ixs);
    assert Pool.Consumes(ix)[0] in Pool.Consumes(ix);
    assert Collides(ix, ix);
    ReuseRefused(p, ix, ixs, ix);
    ProofAlone(p, q, ix);
  }

  /** The EVM pool checks the root first, so there the two refusals come whatever the proof. */
  lemma {:induction false} EvmRefusals(e: EvmPool.Evm, call: EvmPool.Call)
    requires EvmPool.Sound(e) && call.CallXburn?
    ensures !Recent(e.leaves, call.root) ==> EvmPool.Execute(e, call) == Err(EvmPool.UnknownRoot)
    ensures Recent(e.leaves, call.root) && call.nullifier in e.spent ==> EvmPool.Execute(e, call) == Err(EvmPool.AlreadySpent)
  {
    RingIsRecent(e.tree, e.leaves, call.root);
  }

  /** A minted nullifier is refused as spent: to the operator who attests it again and to whoever proves it again. */
  lemma {:induction false} MintedRefused(p: Pool.PoolState, ix: Pool.Instruction)
    requires Pool.Sound(p) && (ix.AddPending? || ix.MintFromXburn?) && ix.nullifier in Minted(p.pending)
    ensures ix.AddPending? ==> Pool.Process(p, ix) == Err(if ix.signer == p.operator then Pool.AlreadySpent else Pool.WrongOperator)
    ensures ix.MintFromXburn? && ix.destChain == Num(101) && XburnRelation(ix.root, ix.nullifier, ix.out, ix.xw) ==>
      Pool.Process(p, ix) == Err(Pool.AlreadySpent)
  {
    var k :| 0 <= k < |p.pending| && p.pending[k].minted && p.pending[k].nullifier == ix.nullifier;
    assert IndexOf(p.pending, ix.nullifier) == k;
  }

  lemma {:induction false} EvmMintedRefused(e: EvmPool.Evm, call: EvmPool.Call)
    requires Shaped(e.tree, TREE_DEPTH) && !call.CallXburn? && call.nullifier in e.minted
    ensures EvmPool.Execute(e, call) ==
            Err(if call.CallAddPending? && call.sender != e.operator then EvmPool.NotOperator else EvmPool.AlreadyMinted)
  {}
}
