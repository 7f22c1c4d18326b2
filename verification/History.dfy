/**
  What each accepted instruction does, field by field, and the laws over whole runs that follow:
  the leaves, the wallets and the vaults are accounts of what was accepted, and no token is made or lost.
 */
module History {
  import opened Merkle
  import opened Digests
  import opened Registers
  import opened Accounting
  import opened Pool

  // ---------- one instruction ----------

  /** The attestations and their mints are untouched. */
  ghost predicate SameBooks(p: PoolState, q: PoolState) {
    q.pending == p.pending && q.operator == p.operator && q.mints == p.mints
  }

  ghost predicate SameTokens(p: PoolState, q: PoolState) {
    q.wallets == p.wallets && q.vaults == p.vaults
  }

  /** A deposit takes exactly `amount` from the depositor, gives it to the vault of that mint, and inserts the commitment. */
  lemma {:induction false} DepositDoes(p: PoolState, ix: Instruction)
    requires Shaped(p.tree, TREE_DEPTH) && ix.Deposit? && Process(p, ix).Ok?
    ensures var q, payer := Apply(p, ix), (ix.depositor, ix.mint);
      && Balance(q.wallets, payer) + ix.amount == Balance(p.wallets, payer)
      && Balance(q.vaults, ix.mint) == Balance(p.vaults, ix.mint) + ix.amount
      && (forall k :: k != payer ==> Balance(q.wallets, k) == Balance(p.wallets, k))
      && (forall m :: m != ix.mint ==> Balance(q.vaults, m) == Balance(p.vaults, m))
      && q.leaves == p.leaves + [ix.commitment] && q.nullifiers == p.nullifiers
      && q.burns == p.burns && q.xburns == p.xburns && SameBooks(p, q)
  {}

  /** A withdraw takes exactly `amount` from the vault of that mint, gives it to the bound recipient, and spends one nullifier. */
  lemma {:induction false} WithdrawDoes(p: PoolState, ix: Instruction)
    requires Shaped(p.tree, TREE_DEPTH) && ix.Withdraw? && Process(p, ix).Ok?
    ensures var q, payee := Apply(p, ix), (ix.recipient, ix.mint);
      && Balance(q.wallets, payee) == Balance(p.wallets, payee) + ix.amount
      && Balance(q.vaults, ix.mint) + ix.amount == Balance(p.vaults, ix.mint)
      && (forall k :: k != payee ==> Balance(q.wallets, k) == Balance(p.wallets, k))
      && (forall m :: m != ix.mint ==> Balance(q.vaults, m) == Balance(p.vaults, m))
      && q.leaves == p.leaves && q.nullifiers == p.nullifiers + [ix.nullifier]
      && q.burns == p.burns && q.xburns == p.xburns && SameBooks(p, q)
  {}

  /** A transfer spends both nullifiers and inserts both outputs, each in its order, and moves no token. */
  lemma {:induction false} TransferDoes(p: PoolState, ix: Instruction)
    requires Shaped(p.tree, TREE_DEPTH) && ix.Transfer? && Process(p, ix).Ok?
    ensures var q := Apply(p, ix);
      && q.leaves == p.leaves + [ix.outs.0, ix.outs.1]
      && q.nullifiers == p.nullifiers + [ix.nullifiers.0, ix.nullifiers.1]
      && q.burns == p.burns && q.xburns == p.xburns && SameBooks(p, q) && SameTokens(p, q)
  {
    StepConsumes(p, ix);
    assert p.leaves + [ix.outs.0] + [ix.outs.1] == p.leaves + [ix.outs.0, ix.outs.1];
  }

  /** A burn of either kind spends one nullifier, records what the proof bound, and releases nothing. */
  lemma {:induction false} BurnDoes(p: PoolState, ix: Instruction)
    requires Shaped(p.tree, TREE_DEPTH) && (ix.BurnNote? || ix.XburnNote?) && Process(p, ix).Ok?
    ensures var q := Apply(p, ix);
      && q.nullifiers == p.nullifiers + [ix.nullifier] && q.leaves == p.leaves && q.tree == p.tree
      && q.burns == p.burns + (if ix.BurnNote? then [Burn(ix.nullifier, ToField(ix.mint), ix.amount, ix.destChain, ix.destAddress)] else [])
      && q.xburns == p.xburns + (if ix.XburnNote? then [Xburn(ix.nullifier, ix.destChain, ix.out)] else [])
      && SameBooks(p, q) && SameTokens(p, q)
  {
    SpendEvent(p, ix);
  }

  /** An attestation adds one open entry that binds chain and note together. */
  lemma {:induction false} AttestDoes(p: PoolState, ix: Instruction)
    requires Shaped(p.tree, TREE_DEPTH) && ix.AddPending? && Process(p, ix).Ok?
    ensures ix.signer == p.operator && forall e :: e in p.pending ==> e.nullifier != ix.nullifier
    ensures Apply(p, ix) == p.(pending := p.pending + [Entry(ix.nullifier, H2(ix.destChain, ix.out), false)])
  {}

  /** A mint inserts the attested note, sets the flag of its entry, and moves no token. */
  lemma {:induction false} MintDoes(p: PoolState, ix: Instruction)
    requires Shaped(p.tree, TREE_DEPTH) && ix.MintFromXburn? && Process(p, ix).Ok?
    ensures var q := Apply(p, ix);
      && q.leaves == p.leaves + [ix.out] && q.nullifiers == p.nullifiers
      && q.burns == p.burns && q.xburns == p.xburns && q.operator == p.operator && SameTokens(p, q)
      && q.mints == p.mints + [Xburn(ix.nullifier, ix.destChain, ix.out)]
      && |q.pending| == |p.pending|
      && (forall i :: 0 <= i < |p.pending| ==> var e := p.pending[i];
            q.pending[i] == Entry(e.nullifier, e.expected, e.minted || i == IndexOf(p.pending, ix.nullifier)))
  {}

  lemma {:induction false} RefusedDoesNothing(p: PoolState, ix: Instruction)
    requires Shaped(p.tree, TREE_DEPTH) && Process(p, ix).Err?
    ensures Apply(p, ix) == p
  {}

  // ---------- leaves over runs ----------

  /** What an instruction inserts, in order. */
  function Inserts(ix: Instruction): seq<Digest> {
    match ix
    case Deposit(_, _, _, commitment, _, _) => [commitment]
    case Transfer(_, _, outs, _) => [outs.0, outs.1]
    case MintFromXburn(_, _, _, out, _) => [out]
    case _ => []
  }

  /** What the accepted instructions of a run insert, in order. */
  function Inserted(p: PoolState, ixs: seq<Instruction>): seq<Digest>
    requires Shaped(p.tree, TREE_DEPTH)
  {
    if ixs == [] then [] else
    var init, last := ixs[..|ixs| - 1], ixs[|ixs| - 1];
    Inserted(p, init) + if Process(Run(p, init), last).Ok? then Inserts(last) else []
  }

  lemma {:induction false} StepInserts(p: PoolState, ix: Instruction)
    requires Shaped(p.tree, TREE_DEPTH)
    ensures Apply(p, ix).leaves == p.leaves + if Process(p, ix).Ok? then Inserts(ix) else []
  {
    if Process(p, ix).Err? {
      RefusedDoesNothing(p, ix);
    } else {
      match ix
      case Deposit(_, _, _, _, _, _) => DepositDoes(p, ix);
      case Withdraw(_, _, _, _, _, _) => WithdrawDoes(p, ix);
      case Transfer(_, _, _, _) => TransferDoes(p, ix);
      case BurnNote(_, _, _, _, _, _, _) => BurnDoes(p, ix);
      case XburnNote(_, _, _, _, _) => BurnDoes(p, ix);
      case AddPending(_, _, _, _) => AttestDoes(p, ix);
      case MintFromXburn(_, _, _, _, _) => MintDoes(p, ix);
    }
  }

  /** The leaf list is exactly what accepted instructions inserted, in order. */
  lemma {:induction false} LeavesAreHistory(p: PoolState, ixs: seq<Instruction>)
    requires Shaped(p.tree, TREE_DEPTH)
    ensures Run(p, ixs).leaves == p.leaves + Inserted(p, ixs)
  {
    if ixs != [] {
      var init, last := ixs[..|ixs| - 1], ixs[|ixs| - 1];
      LeavesAreHistory(p, init);
      StepInserts(Run(p, init), last);
    }
  }

  // ---------- wallets and vaults over runs ----------

  /** What `ix` pays out to `who`, and what it takes from `who`, in one mint. */
  function PaysTo(ix: Instruction, who: Pubkey, mint: Pubkey): nat {
    if ix.Withdraw? && ix.recipient == who && ix.mint == mint then ix.amount else 0
  }

  function TakesFrom(ix: Instruction, who: Pubkey, mint: Pubkey): nat {
    if ix.Deposit? && ix.depositor == who && ix.mint == mint then ix.amount else 0
  }

  /** Totals of a measure over the accepted instructions of a run. */
  ghost function Total(p: PoolState, ixs: seq<Instruction>, measure: Instruction -> nat): nat
    requires Shaped(p.tree, TREE_DEPTH)
  {
    if ixs == [] then 0 else
    var init, last := ixs[..|ixs| - 1], ixs[|ixs| - 1];
    Total(p, init, measure) + if Process(Run(p, init), last).Ok? then measure(last) else 0
  }

  lemma {:induction false} StepTokens(p: PoolState, ix: Instruction, who: Pubkey, mint: Pubkey)
    requires Shaped(p.tree, TREE_DEPTH) && Process(p, ix).Ok?
    ensures var q := Apply(p, ix);
      && Balance(q.wallets, (who, mint)) + TakesFrom(ix, who, mint) == Balance(p.wallets, (who, mint)) + PaysTo(ix, who, mint)
      && Balance(q.vaults, mint) + (if ix.Withdraw? && ix.mint == mint then ix.amount else 0)
         == Balance(p.vaults, mint) + (if ix.Deposit? && ix.mint == mint then ix.amount else 0)
  {
    match ix
    case Deposit(_, _, _, _, _, _) => DepositDoes(p, ix);
    case Withdraw(_, _, _, _, _, _) => WithdrawDoes(p, ix);
    case Transfer(_, _, _, _) => TransferDoes(p, ix);
    case BurnNote(_, _, _, _, _, _, _) => BurnDoes(p, ix);
    case XburnNote(_, _, _, _, _) => BurnDoes(p, ix);
    case AddPending(_, _, _, _) => AttestDoes(p, ix);
    case MintFromXburn(_, _, _, _, _) => MintDoes(p, ix);
  }

  /** A wallet's statement: what it holds is what it held, plus the withdraws made out to it, less its own deposits. */
  lemma {:induction false} WalletStatement(p: PoolState, ixs: seq<Instruction>, who: Pubkey, mint: Pubkey)
    requires Shaped(p.tree, TREE_DEPTH)
    ensures Balance(Run(p, ixs).wallets, (who, mint)) + Total(p, ixs, ix => TakesFrom(ix, who, mint))
         == Balance(p.wallets, (who, mint)) + Total(p, ixs, ix => PaysTo(ix, who, mint))
  {
    if ixs != [] {
      var init, last := ixs[..|ixs| - 1], ixs[|ixs| - 1];
      WalletStatement(p, init, who, mint);
      if Process(Run(p, init), last).Ok? {
        StepTokens(Run(p, init), last, who, mint);
      }
    }
  }

  /** A vault's statement: all deposits of its mint, less all withdraws. */
  lemma {:induction false} VaultStatement(p: PoolState, ixs: seq<Instruction>, mint: Pubkey)
    requires Shaped(p.tree, TREE_DEPTH)
    ensures Balance(Run(p, ixs).vaults, mint) + Total(p, ixs, (ix: Instruction) => if ix.Withdraw? && ix.mint == mint then ix.amount else 0)
         == Balance(p.vaults, mint) + Total(p, ixs, (ix: Instruction) => if ix.Deposit? && ix.mint == mint then ix.amount else 0)
  {
    if ixs != [] {
      var init, last := ixs[..|ixs| - 1], ixs[|ixs| - 1];
      VaultStatement(p, init, mint);
      if Process(Run(p, init), last).Ok? {
        StepTokens(Run(p, init), last, mint, mint);
      }
    }
  }

  /** All that the wallets hold of one mint. */
  ghost function WalletTotal(wallets: map<(Pubkey, Pubkey), nat>, mint: Pubkey): nat
    decreases |wallets|
  {
    if wallets == map[] then 0 else
    var k :| k in wallets;
    WalletTotal(wallets - {k}, mint) + if k.1 == mint then wallets[k] else 0
  }

  lemma {:induction false} WalletOut(wallets: map<(Pubkey, Pubkey), nat>, k: (Pubkey, Pubkey), mint: Pubkey)
    requires k in wallets
    ensures WalletTotal(wallets, mint) == WalletTotal(wallets - {k}, mint) + if k.1 == mint then wallets[k] else 0
    decreases |wallets|
  {
    var j :| j in wallets && WalletTotal(wallets, mint) == WalletTotal(wallets - {j}, mint) + if j.1 == mint then wallets[j] else 0;
    if j != k {
      WalletOut(wallets - {j}, k, mint);
      WalletOut(wallets - {k}, j, mint);
      assert wallets - {j} - {k} == wallets - {k} - {j};
    }
  }

  lemma {:induction false} WalletSet(wallets: map<(Pubkey, Pubkey), nat>, k: (Pubkey, Pubkey), v: nat, mint: Pubkey)
    ensures WalletTotal(wallets[k := v], mint) + (if k.1 == mint then Balance(wallets, k) else 0)
         == WalletTotal(wallets, mint) + (if k.1 == mint then v else 0)
  {
    WalletOut(wallets[k := v], k, mint);
    if k in wallets {
      WalletOut(wallets, k, mint);
      assert wallets[k := v] - {k} == wallets - {k};
    } else {
      assert wallets[k := v] - {k} == wallets;
    }
  }

  /** What there is of one mint. */
  ghost function InCirculation(p: PoolState, mint: Pubkey): nat {
    Balance(p.vaults, mint) + WalletTotal(p.wallets, mint)
  }

  lemma {:induction false} DepositCirculates(p: PoolState, ix: Instruction, mint: Pubkey)
    requires Shaped(p.tree, TREE_DEPTH) && ix.Deposit? && Process(p, ix).Ok?
    ensures InCirculation(Apply(p, ix), mint) == InCirculation(p, mint)
  {
    var k := (ix.depositor, ix.mint);
    DepositDoes(p, ix);
    WalletSet(p.wallets, k, Balance(p.wallets, k) - ix.amount, mint);
  }

  lemma {:induction false} WithdrawCirculates(p: PoolState, ix: Instruction, mint: Pubkey)
    requires Shaped(p.tree, TREE_DEPTH) && ix.Withdraw? && Process(p, ix).Ok?
    ensures InCirculation(Apply(p, ix), mint) == InCirculation(p, mint)
  {
    var k := (ix.recipient, ix.mint);
    WithdrawDoes(p, ix);
    WalletSet(p.wallets, k, Balance(p.wallets, k) + ix.amount, mint);
  }

  lemma {:induction false} OthersMoveNothing(p: PoolState, ix: Instruction)
    requires Shaped(p.tree, TREE_DEPTH) && !(Process(p, ix).Ok? && (ix.Deposit? || ix.Withdraw?))
    ensures SameTokens(p, Apply(p, ix))
  {
    if Process(p, ix).Ok? {
      match ix
      case Transfer(_, _, _, _) => TransferDoes(p, ix);
      case BurnNote(_, _, _, _, _, _, _) => BurnDoes(p, ix);
      case XburnNote(_, _, _, _, _) => BurnDoes(p, ix);
      case AddPending(_, _, _, _) => AttestDoes(p, ix);
      case MintFromXburn(_, _, _, _, _) => MintDoes(p, ix);
    }
  }

  /** No instruction makes or loses a token. */
  lemma {:induction false} StepCirculates(p: PoolState, ix: Instruction, mint: Pubkey)
    requires Shaped(p.tree, TREE_DEPTH)
    ensures InCirculation(Apply(p, ix), mint) == InCirculation(p, mint)
  {
    if ix.Deposit? && Process(p, ix).Ok? {
      DepositCirculates(p, ix, mint);
    } else if ix.Withdraw? && Process(p, ix).Ok? {
      WithdrawCirculates(p, ix, mint);
    } else {
      OthersMoveNothing(p, ix);
    }
  }

  /** Over every run, vault and wallets together hold what they held. */
  lemma {:induction false} Circulation(p: PoolState, ixs: seq<Instruction>, mint: Pubkey)
    requires Shaped(p.tree, TREE_DEPTH)
    ensures InCirculation(Run(p, ixs), mint) == InCirculation(p, mint)
  {
    if ixs != [] {
      Circulation(p, ixs[..|ixs| - 1], mint);
      StepCirculates(Run(p, ixs[..|ixs| - 1]), ixs[|ixs| - 1], mint);
    }
  }
}
