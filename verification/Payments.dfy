/** Payments end to end: who holds what after an accepted instruction that the CLI built. */
module Payments {
  import opened Bytes
  import opened Merkle
  import opened Digests
  import opened Circuits
  import opened Accounting
  import opened Wrappers
  import opened Pool
  import opened Wallet
  import Bridge
  import History
  import EvmPool
  import Acceptance

  /** `n` can be withdrawn from `p` now, and then exactly its amount of its mint arrives in the wallet of the recipient. */
  ghost predicate CashesOut(p: PoolState, n: Note, recipient: Pubkey)
    requires Shaped(p.tree, TREE_DEPTH)
  {
    && n.commitment in p.leaves
    && Process(p, WithdrawOf(n, p.leaves, recipient)).Ok?
    && var q, payee := Apply(p, WithdrawOf(n, p.leaves, recipient)), (recipient, n.mint);
       && Balance(q.wallets, payee) == Balance(p.wallets, payee) + n.amount
       && Balance(q.vaults, n.mint) + n.amount == Balance(p.vaults, n.mint)
       && (forall k :: k != payee ==> Balance(q.wallets, k) == Balance(p.wallets, k))
       && (forall m :: m != n.mint ==> Balance(q.vaults, m) == Balance(p.vaults, m))
  }

  /** Whoever can open an inserted and unspent commitment can turn it into tokens. */
  lemma {:induction false} HolderCashesOut(p: PoolState, n: Note, recipient: Pubkey)
    requires Pool.Sound(p) && Bridge.Covered(p, n.mint)
    requires n.commitment == H4(ToField(n.mint), Num(n.amount), H1(n.spendKey), n.blinding)
    requires n.commitment in p.leaves && H2(n.commitment, n.spendKey) !in p.nullifiers
    ensures CashesOut(p, n, recipient)
  {
    assert p.leaves[..|p.leaves|] == p.leaves;
    WithdrawComplete(p, n, |p.leaves|, recipient);
    History.WithdrawDoes(p, WithdrawOf(n, p.leaves, recipient));
  }

  /** A withdraw built from a list up to 31 inserts old pays its recipient, and nobody else, exactly the note. */
  lemma {:induction false} WithdrawPays(p: PoolState, n: Note, harvested: nat, recipient: Pubkey)
    requires Pool.Sound(p) && Bridge.Covered(p, n.mint)
    requires harvested <= |p.leaves| < harvested + 32
    requires Opens(n) && n.commitment in p.leaves[..harvested] && NullifierOf(n) !in p.nullifiers
    ensures var ix := WithdrawOf(n, p.leaves[..harvested], recipient); var q, payee := Apply(p, ix), (recipient, n.mint);
      && Process(p, ix).Ok?
      && Balance(q.wallets, payee) == Balance(p.wallets, payee) + n.amount
      && forall k :: k != payee ==> Balance(q.wallets, k) == Balance(p.wallets, k)
  {
    WithdrawComplete(p, n, harvested, recipient);
    History.WithdrawDoes(p, WithdrawOf(n, p.leaves[..harvested], recipient));
  }

  // ---------- transfers ----------

  /** The note that the holder of `k` receives, and the one that comes back as change. */
  function Received(n: Note, k: Digest, amount: u64, s: Secrets): Note {
    Note(n.mint, amount, k, s.outBlinding, H4(ToField(n.mint), Num(amount), H1(k), s.outBlinding))
  }

  function Change(n: Note, amount: u64, s: Secrets): Note
    requires amount <= n.amount
  {
    Note(n.mint, n.amount - amount, s.changeKey, s.changeBlinding,
         H4(ToField(n.mint), Num(n.amount - amount), H1(s.changeKey), s.changeBlinding))
  }

  /** The outputs carry `amount` to the recipient and the rest back to the sender. */
  lemma {:induction false} TransferSplits(n: Note, leaves: seq<Digest>, to: Digest, amount: u64, s: Secrets)
    requires n.commitment in leaves && amount <= n.amount
    ensures var ix := TransferOf(n, leaves, to, amount, s);
      && ix.outs.0.H4? && ix.outs.0.owner == to && Value(ix.outs.0, ToField(n.mint)) == amount
      && ix.outs.1.H4? && ix.outs.1.owner == H1(s.changeKey) && Value(ix.outs.1, ToField(n.mint)) == n.amount - amount
      && ix.outs.0 == H4(ToField(n.mint), Num(amount), to, s.outBlinding)
      && ix.outs.1 == H4(ToField(n.mint), Num(n.amount - amount), H1(s.changeKey), s.changeBlinding)
  {}

  /** After an accepted transfer both outputs are in the tree, in order, and the spent note's nullifier is recorded. */
  lemma {:induction false} TransferArrives(p: PoolState, n: Note, leaves: seq<Digest>, k: Digest, amount: u64, s: Secrets)
    requires Pool.Sound(p) && n.commitment in leaves && amount <= n.amount
    requires Process(p, TransferOf(n, leaves, H1(k), amount, s)).Ok?
    ensures var q := Apply(p, TransferOf(n, leaves, H1(k), amount, s));
      && Pool.Sound(q) && q.wallets == p.wallets && q.vaults == p.vaults
      && q.leaves == p.leaves + [Received(n, k, amount, s).commitment, Change(n, amount, s).commitment]
      && H2(n.commitment, n.spendKey) in q.nullifiers
  {
    var ix := TransferOf(n, leaves, H1(k), amount, s);
    TransferSplits(n, leaves, H1(k), amount, s);
    ApplySound(p, ix);
    History.TransferDoes(p, ix);
    assert Apply(p, ix).nullifiers[|p.nullifiers|] == ix.nullifiers.0;
  }

  /** The memo that rides along tells the recipient's scan everything it needs. */
  lemma {:induction false} MemoIsFound(memos: seq<Memo>, m: nat, n: Note, nullifiers: set<Digest>, o: Opening)
    requires m < |memos| && memos[m] == Memo(n.commitment, Some(o))
    requires n.commitment == H4(ToField(n.mint), Num(n.amount), H1(n.spendKey), n.blinding)
    requires o.mint == n.mint && BeValue(o.amount) == n.amount && Num(BeValue(o.blinding)) == n.blinding
    requires H2(n.commitment, n.spendKey) !in nullifiers
    ensures n in NotesOf(memos, n.spendKey, nullifiers)
  {
    LowBytesSuffice(o.amount);
    NotesOfExactly(memos, n.spendKey, nullifiers, n);
    assert Discovers(memos[m], n.spendKey, nullifiers);
  }

  /**
    Paying somebody: once the transfer is accepted, the holder of `k` finds a note of exactly
    `amount` by scanning, and can turn it into exactly that many tokens.
   */
  method RecipientIsPaid(p: PoolState, n: Note, leaves: seq<Digest>, k: Digest, amount: u64, s: Secrets, memos: seq<Memo>, ghost m: nat,
                         ghost o: Opening, ghost recipient: Pubkey)
    returns (notes: seq<Note>)
    requires Pool.Sound(p) && n.commitment in leaves && amount <= n.amount
    requires Process(p, TransferOf(n, leaves, H1(k), amount, s)).Ok?
    // the memo attached to the transfer is among those scanned, and none of them stops the scan
    requires AllHashable(memos) && m < |memos| && memos[m] == Memo(TransferOf(n, leaves, H1(k), amount, s).outs.0, Some(o))
    requires o.mint == n.mint && BeValue(o.amount) == amount && Num(BeValue(o.blinding)) == s.outBlinding
    // this very output was not received and spent before
    requires H2(Received(n, k, amount, s).commitment, k) !in Apply(p, TransferOf(n, leaves, H1(k), amount, s)).nullifiers
    ensures exists got :: (got in notes && got.mint == n.mint && got.amount == amount && got.spendKey == k
                           && var q := Apply(p, TransferOf(n, leaves, H1(k), amount, s));
                              Bridge.Covered(q, n.mint) ==> CashesOut(q, got, recipient))
  {
    var q := Apply(p, TransferOf(n, leaves, H1(k), amount, s));
    ghost var got := Received(n, k, amount, s);
    TransferArrives(p, n, leaves, k, amount, s);
    TransferSplits(n, leaves, H1(k), amount, s);
    assert q.leaves[|p.leaves|] == got.commitment;
    MemoIsFound(memos, m, got, Elements(q.nullifiers), o);
    if Bridge.Covered(q, n.mint) {
      HolderCashesOut(q, got, recipient);
    }
    var finished;
    ghost var scanned;
    notes, finished, scanned := ListUnspent(k, memos, Elements(q.nullifiers));
  }

  /** ... and the sender keeps the rest. */
  lemma {:induction false} SenderKeepsChange(p: PoolState, q: PoolState, n: Note, leaves: seq<Digest>, k: Digest, amount: u64, s: Secrets,
                                             recipient: Pubkey)
    requires Pool.Sound(p) && n.commitment in leaves && amount <= n.amount
    requires Process(p, TransferOf(n, leaves, H1(k), amount, s)) == Ok(q)
    requires Bridge.Covered(q, n.mint) && H2(Change(n, amount, s).commitment, s.changeKey) !in q.nullifiers
    ensures Shaped(q.tree, TREE_DEPTH) && CashesOut(q, Change(n, amount, s), recipient)
  {
    ChangeHeld(p, q, n, leaves, k, amount, s);
    HolderCashesOut(q, Change(n, amount, s), recipient);
  }

  lemma {:induction false} ChangeHeld(p: PoolState, q: PoolState, n: Note, leaves: seq<Digest>, k: Digest, amount: u64, s: Secrets)
    requires Pool.Sound(p) && n.commitment in leaves && amount <= n.amount
    requires Process(p, TransferOf(n, leaves, H1(k), amount, s)) == Ok(q)
    ensures Pool.Sound(q) && Change(n, amount, s).commitment in q.leaves
  {
    TransferArrives(p, n, leaves, k, amount, s);
    assert q.leaves[|p.leaves| + 1] == Change(n, amount, s).commitment;
  }

  /** Any accepted transfer, whoever built it: each output can be withdrawn by whoever holds its owner's key. */
  lemma {:induction false} OutputsCashOut(p: PoolState, ix: Instruction, first: Note, second: Note, recipient: Pubkey)
    requires Pool.Sound(p) && ix.Transfer? && Process(p, ix).Ok?
    requires Opens(first) && first.commitment == ix.outs.0 && Opens(second) && second.commitment == ix.outs.1
    requires var q := Apply(p, ix); NullifierOf(first) !in q.nullifiers && NullifierOf(second) !in q.nullifiers
    requires Bridge.Covered(Apply(p, ix), first.mint) && Bridge.Covered(Apply(p, ix), second.mint)
    ensures var q := Apply(p, ix); CashesOut(q, first, recipient) && CashesOut(q, second, recipient)
  {
    ApplySound(p, ix);
    History.TransferDoes(p, ix);
    var q := Apply(p, ix);
    assert q.leaves[|p.leaves|] == ix.outs.0 && q.leaves[|p.leaves| + 1] == ix.outs.1;
    HolderCashesOut(q, first, recipient);
    HolderCashesOut(q, second, recipient);
  }

  // ---------- deposits and crossings ----------

  /** A deposit can be withdrawn again by whoever holds the owner's key. */
  lemma {:induction false} DepositCashesOut(p: PoolState, ix: Instruction, k: Digest, recipient: Pubkey)
    requires Pool.Sound(p) && ix.Deposit? && Process(p, ix).Ok? && ix.owner == H1(k)
    requires var q := Apply(p, ix); Bridge.Covered(q, ix.mint) && H2(ix.commitment, k) !in q.nullifiers
    ensures CashesOut(Apply(p, ix), Note(ix.mint, ix.amount, k, ix.blinding, ix.commitment), recipient)
  {
    ApplySound(p, ix);
    History.DepositDoes(p, ix);
    assert Apply(p, ix).leaves[|p.leaves|] == ix.commitment;
    HolderCashesOut(Apply(p, ix), Note(ix.mint, ix.amount, k, ix.blinding, ix.commitment), recipient);
  }

  /** A note minted from the other chain belongs to the owner whom the burner named, with the burned note's value. */
  lemma {:induction false} MintedCashesOut(p: PoolState, ix: Instruction, mint: Pubkey, k: Digest, recipient: Pubkey)
    requires Pool.Sound(p) && ix.MintFromXburn? && Process(p, ix).Ok?
    requires ix.xw.token == ToField(mint) && ix.xw.destOwner == H1(k)
    requires var q := Apply(p, ix); Bridge.Covered(q, mint) && H2(ix.out, k) !in q.nullifiers
    ensures CashesOut(Apply(p, ix), Note(mint, ix.xw.amount.n, k, ix.xw.destBlinding, ix.out), recipient)
  {
    ApplySound(p, ix);
    History.MintDoes(p, ix);
    assert Apply(p, ix).leaves[|p.leaves|] == ix.out;
    HolderCashesOut(Apply(p, ix), Note(mint, ix.xw.amount.n, k, ix.xw.destBlinding, ix.out), recipient);
  }

  /** On the EVM pool that owner can move the minted note on at once, for exactly its value. */
  lemma {:induction false} MintedMovesOn(e: EvmPool.Evm, call: EvmPool.Call, mint: Pubkey, k: Digest, destChain: Digest, owner: Digest, blinding: Digest)
    requires EvmPool.Sound(e) && call.CallMint? && EvmPool.Execute(e, call).Ok?
    requires call.w.token == ToField(mint) && call.w.destOwner == H1(k)
    requires H2(call.out, k) !in e.spent
    ensures var f := EvmPool.Apply(e, call); var n := Note(mint, call.w.amount.n, k, call.w.destBlinding, call.out);
      && n.commitment in f.leaves
      && EvmPool.Execute(f, Acceptance.EvmXburnOf(n, f.leaves, destChain, owner, blinding)).Ok?
  {
    var f := EvmPool.Apply(e, call);
    var n := Note(mint, call.w.amount.n, k, call.w.destBlinding, call.out);
    EvmPool.ApplySound(e, call);
    assert f.leaves == e.leaves + [call.out];
    assert f.leaves[|e.leaves|] == call.out;
    assert f.leaves[..|f.leaves|] == f.leaves;
    Acceptance.EvmXburnFate(f, n, |f.leaves|, destChain, owner, blinding);
  }
}
