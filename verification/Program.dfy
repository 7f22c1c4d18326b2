/**
  The Solana program on its account bytes.  Every comparison and every write goes through the
  bytes of the tree, nullifier and attestation accounts; `state` is the abstract pool they encode.
 */
module Program {
  import opened Wrappers
  import opened Bytes
  import opened Merkle
  import opened Digests
  import opened Circuits
  import opened Registers
  import opened Accounting
  import opened Accounts
  import opened Encoding
  import opened Pool
  import History
  import AccountTree

  /** The program's own error, or the runtime's refusal to grow an account. */
  datatype Refusal = Rejected(error: Pool.Error) | NoRoom

  // ---------- the abstract step, with bounded accounts ----------

  /** Whether the accounts that `ix` grows stay within the runtime's size limit. */
  predicate RoomFor(p: PoolState, ix: Instruction, limit: nat) {
    && (Consumes(ix) != [] ==> OFF_NULLIFIERS + 32 * (|p.nullifiers| + |Consumes(ix)|) <= limit)
    && (ix.AddPending? ==> XP_OFF_ENTRIES + XP_ENTRY_SIZE * (|p.pending| + 1) <= limit)
  }

  function BoundedApply(p: PoolState, ix: Instruction, limit: nat): (q: PoolState)
    requires Shaped(p.tree, TREE_DEPTH)
    ensures Shaped(q.tree, TREE_DEPTH)
  {
    if RoomFor(p, ix, limit) then Apply(p, ix) else p
  }

  /** How a handler answers: acceptance is exact, and each refusal names its reason. */
  predicate Answers(r: Result<(), Refusal>, p: PoolState, ix: Instruction, limit: nat)
    requires Shaped(p.tree, TREE_DEPTH)
  {
    match r
    case Ok(_) => Process(p, ix).Ok? && RoomFor(p, ix, limit)
    case Err(Rejected(e)) => Process(p, ix) == Err(e)
    case Err(NoRoom) => !RoomFor(p, ix, limit)
  }

  /** The first |rs| instructions of a run are answered by `rs`. */
  predicate AnswersRun(rs: seq<Result<(), Refusal>>, p: PoolState, ixs: seq<Instruction>, limit: nat)
    requires Shaped(p.tree, TREE_DEPTH) && |rs| <= |ixs|
  {
    forall k :: 0 <= k < |rs| ==> Answers(rs[k], BoundedRun(p, ixs[..k], limit), ixs[k], limit)
  }

  lemma {:induction false} AnswersStep(rs: seq<Result<(), Refusal>>, r: Result<(), Refusal>, p: PoolState, ixs: seq<Instruction>, limit: nat)
    requires Shaped(p.tree, TREE_DEPTH) && |rs| < |ixs| && AnswersRun(rs, p, ixs, limit)
    requires Answers(r, BoundedRun(p, ixs[..|rs|], limit), ixs[|rs|], limit)
    ensures AnswersRun(rs + [r], p, ixs, limit)
  {}

  function BoundedRun(p: PoolState, ixs: seq<Instruction>, limit: nat): (q: PoolState)
    requires Shaped(p.tree, TREE_DEPTH)
    ensures Shaped(q.tree, TREE_DEPTH)
  {
    if ixs == [] then p else BoundedApply(BoundedRun(p, ixs[..|ixs| - 1], limit), ixs[|ixs| - 1], limit)
  }

  /** The instructions of a run that found room. */
  function Kept(p: PoolState, ixs: seq<Instruction>, limit: nat): seq<Instruction>
    requires Shaped(p.tree, TREE_DEPTH)
  {
    if ixs == [] then [] else
    var init, last := ixs[..|ixs| - 1], ixs[|ixs| - 1];
    Kept(p, init, limit) + if RoomFor(BoundedRun(p, init, limit), last, limit) then [last] else []
  }

  /** A run with bounded accounts is a run of the pool, so whatever holds of all runs holds of it. */
  lemma {:induction false} BoundedRunIsRun(p: PoolState, ixs: seq<Instruction>, limit: nat)
    requires Shaped(p.tree, TREE_DEPTH)
    ensures BoundedRun(p, ixs, limit) == Pool.Run(p, Kept(p, ixs, limit))
  {
    if ixs != [] {
      var init, last := ixs[..|ixs| - 1], ixs[|ixs| - 1];
      BoundedRunIsRun(p, init, limit);
      var kept := Kept(p, init, limit);
      if RoomFor(BoundedRun(p, init, limit), last, limit) {
        assert (kept + [last])[..|kept|] == kept;
      } else {
        assert kept + [] == kept;
      }
    }
  }

  // ---------- the digests that a run compares ----------

  function Stored(p: PoolState): set<Digest> {
    Elements(p.tree.roots) + Elements(p.nullifiers)
    + (set e | e in p.pending :: e.nullifier) + (set e | e in p.pending :: e.expected)
  }

  lemma {:induction false} StoredEntries(p: PoolState, digests: set<Digest>)
    requires Stored(p) <= digests
    ensures forall e :: e in p.pending ==> e.nullifier in digests && e.expected in digests
  {
    forall e | e in p.pending
      ensures e.nullifier in digests && e.expected in digests
    {
      assert e.nullifier in (set x | x in p.pending :: x.nullifier) && e.expected in (set x | x in p.pending :: x.expected);
    }
  }

  function Named(ix: Instruction): set<Digest> {
    match ix
    case Deposit(_, _, _, _, _, _) => {}
    case Withdraw(root, nullifier, _, _, _, _) => {root, nullifier}
    case Transfer(root, nfs, _, _) => {root, nfs.0, nfs.1}
    case BurnNote(root, nullifier, _, _, _, _, _) => {root, nullifier}
    case XburnNote(root, nullifier, _, _, _) => {root, nullifier}
    case AddPending(_, nullifier, _, _) => {nullifier}
    case MintFromXburn(_, nullifier, destChain, out, _) => {nullifier, destChain, H2(destChain, out)}
  }

  /** The encoding separates everything that this one step compares. */
  ghost predicate Separates(p: Poseidon<Bytes32>, digests: set<Digest>, s: PoolState, ix: Instruction) {
    InjectiveOn(p, digests) && {ZERO, SOLANA_CHAIN} <= digests && Stored(s) <= digests && Named(ix) <= digests
  }

  /** ... and everything that a whole run compares. */
  ghost predicate SeparatesRun(p: Poseidon<Bytes32>, digests: set<Digest>, s: PoolState, ixs: seq<Instruction>, limit: nat)
    requires Shaped(s.tree, TREE_DEPTH)
  {
    && InjectiveOn(p, digests) && {ZERO, SOLANA_CHAIN} <= digests
    && (forall k :: 0 <= k <= |ixs| ==> Stored(BoundedRun(s, ixs[..k], limit)) <= digests)
    && (forall k :: 0 <= k < |ixs| ==> Named(ixs[k]) <= digests)
  }

  lemma {:induction false} SeparatesStep(p: Poseidon<Bytes32>, digests: set<Digest>, s: PoolState, ixs: seq<Instruction>, limit: nat, i: nat)
    requires Shaped(s.tree, TREE_DEPTH) && i < |ixs| && SeparatesRun(p, digests, s, ixs, limit)
    ensures Separates(p, digests, BoundedRun(s, ixs[..i], limit), ixs[i])
    ensures BoundedRun(s, ixs[..i + 1], limit) == BoundedApply(BoundedRun(s, ixs[..i], limit), ixs[i], limit)
  {
    assert ixs[..i + 1][..i] == ixs[..i];
  }

  /** Circuit witnesses are fixed-size arrays. */
  predicate WellTyped(ix: Instruction) {
    match ix
    case Deposit(_, _, _, _, _, _) => true
    case Withdraw(_, _, _, _, _, w) => WellSized(w)
    case Transfer(_, _, _, tw) => |tw.ins| == N_IN && |tw.outs| == N_OUT && forall i :: 0 <= i < N_IN ==> WellSized(tw.ins[i].note)
    case BurnNote(_, _, _, _, _, _, w) => WellSized(w)
    case XburnNote(_, _, _, _, xw) => WellSized(xw.src)
    case AddPending(_, _, _, _) => true
    case MintFromXburn(_, _, _, _, xw) => WellSized(xw.src)
  }

  class OpaqProgram {
    const hash: Poseidon<Bytes32>
    const limit: u64
    const tree: array<byte>
    const nullifiers: NullifierAccount
    const pending: PendingAccount
    var vaults: map<Pubkey, nat>
    var wallets: map<(Pubkey, Pubkey), nat>
    ghost var state: PoolState

    /** The three accounts are the images of the abstract pool's components. */
    ghost predicate Valid()
      reads this, tree, nullifiers, pending
    {
      && hash.num(0) == AccountTree.ZERO32
      && Shaped(state.tree, TREE_DEPTH)
      && tree.Length == AccountTree.SIZE && AccountTree.Decode(tree[..]) == TreeImage(hash, state.tree)
      && nullifiers.Valid() && nullifiers.View() == Image(hash, state.nullifiers)
      && pending.Valid() && pending.View() == EntryImages(hash, state.pending) && pending.Operator() == state.operator
      && vaults == state.vaults && wallets == state.wallets
    }

    constructor (hash: Poseidon<Bytes32>, limit: u64, operator: Pubkey, wallets: map<(Pubkey, Pubkey), nat>)
      requires hash.num(0) == AccountTree.ZERO32
      ensures Valid() && state == Genesis(operator, wallets) && this.hash == hash && this.limit == limit
      ensures fresh(tree) && fresh(nullifiers) && fresh(pending)
    {
      this.hash, this.limit := hash, limit;
      var account := new byte[AccountTree.SIZE](_ => 0);
      var zeros := ByteZeros(hash);
      AccountTree.InitializeTree(hash.h2, zeros, hash.h2(zeros[TREE_DEPTH - 1], zeros[TREE_DEPTH - 1]), account);
      EmptyTreeImage(hash);
      tree := account;
      nullifiers := new NullifierAccount();
      pending := new PendingAccount(operator);
      vaults, this.wallets := map[], wallets;
      state := Genesis(operator, wallets);
    }

    // ---------- reading and writing the accounts ----------

    method KnowsRoot(root: Digest, ghost digests: set<Digest>) returns (known: bool)
      requires Valid() && InjectiveOn(hash, digests) && {root, ZERO} <= digests && Stored(state) <= digests
      ensures known == IsKnownRoot(state.tree, ZERO, root)
    {
      KnownRootImage(hash, state.tree, root, digests);
      known := AccountTree.TreeIsKnownRoot(tree, Eval(hash, root));
    }

    method IsSpent(nf: Digest, ghost digests: set<Digest>) returns (spent: bool)
      requires Valid() && InjectiveOn(hash, digests) && nf in digests && Stored(state) <= digests
      ensures spent <==> nf in state.nullifiers
    {
      MemberImage(hash, state.nullifiers, nf, digests);
      spent := nullifiers.Contains(Eval(hash, nf));
    }

    method AppendNullifier(nf: Digest) returns (ok: bool)
      requires Valid()
      modifies nullifiers, this`state
      ensures Valid()
      ensures ok <==> OFF_NULLIFIERS + 32 * (|old(state).nullifiers| + 1) <= limit
      ensures state == if ok then old(state).(nullifiers := old(state).nullifiers + [nf]) else old(state)
      ensures old(nullifiers.View()) <= nullifiers.View()
    {
      var r := nullifiers.Append(Eval(hash, nf), limit);
      ok := r.Ok?;
      if ok {
        state := state.(nullifiers := state.nullifiers + [nf]);
      }
    }

    method InsertLeaf(leaf: Digest) returns (ok: bool)
      requires Valid()
      modifies tree, this`state
      ensures Valid()
      ensures ok <==> !Full(old(state).tree)
      ensures state == if ok then WithLeaf(old(state), leaf) else old(state)
    {
      InsertImage(hash, state.tree, leaf);
      var r := AccountTree.TreeInsert(hash.h2, ByteZeros(hash), tree, Eval(hash, leaf));
      ok := r.Ok?;
      if ok {
        state := WithLeaf(state, leaf);
      }
    }

    /** The token program moves `amount` from a wallet to the vault, or refuses. */
    method TransferIn(depositor: Pubkey, mint: Pubkey, amount: nat) returns (ok: bool)
      requires Valid()
      modifies this`vaults, this`wallets, this`state
      ensures Valid()
      ensures ok <==> amount <= Balance(old(state).wallets, (depositor, mint))
      ensures state == if ok then MoveIn(old(state), depositor, mint, amount) else old(state)
    {
      var source := Balance(wallets, (depositor, mint));
      ok := amount <= source;
      if ok {
        wallets := wallets[(depositor, mint) := source - amount];
        vaults := vaults[mint := Balance(vaults, mint) + amount];
        state := MoveIn(state, depositor, mint, amount);
      }
    }

    method TransferOut(mint: Pubkey, recipient: Pubkey, amount: nat) returns (ok: bool)
      requires Valid()
      modifies this`vaults, this`wallets, this`state
      ensures Valid()
      ensures ok <==> amount <= Balance(old(state).vaults, mint)
      ensures state == if ok then MoveOut(old(state), mint, recipient, amount) else old(state)
    {
      var held := Balance(vaults, mint);
      ok := amount <= held;
      if ok {
        vaults := vaults[mint := held - amount];
        wallets := wallets[(recipient, mint) := Balance(wallets, (recipient, mint)) + amount];
        state := MoveOut(state, mint, recipient, amount);
      }
    }

    /** The root check, the double-spend check and the append of every one-note spend. */
    method Spend(root: Digest, nf: Digest, ghost digests: set<Digest>) returns (r: Result<(), Refusal>)
      requires Valid() && InjectiveOn(hash, digests) && {root, nf, ZERO} <= digests && Stored(state) <= digests
      modifies nullifiers, this`state
      ensures Valid()
      ensures var p := old(state);
        && r == (if !IsKnownRoot(p.tree, ZERO, root) then Err(Rejected(UnknownRoot))
                 else if nf in p.nullifiers then Err(Rejected(Error.AlreadySpent))
                 else if OFF_NULLIFIERS + 32 * (|p.nullifiers| + 1) <= limit then Ok(()) else Err(NoRoom))
        && state == (if r.Ok? then p.(nullifiers := p.nullifiers + [nf]) else p)
      ensures old(nullifiers.View()) <= nullifiers.View()
    {
      var known := KnowsRoot(root, digests);
      if !known {
        return Err(Rejected(UnknownRoot));
      }
      var spent := IsSpent(nf, digests);
      if spent {
        return Err(Rejected(Error.AlreadySpent));
      }
      var ok := AppendNullifier(nf);
      return if ok then Ok(()) else Err(NoRoom);
    }

    method FindAttestation(nf: Digest, ghost digests: set<Digest>) returns (found: bool, off: nat)
      requires Valid() && InjectiveOn(hash, digests) && nf in digests && Stored(state) <= digests
      ensures found <==> Attested(state.pending, nf)
      ensures found ==> off == XP_OFF_ENTRIES + XP_ENTRY_SIZE * IndexOf(state.pending, nf)
    {
      StoredEntries(state, digests);
      IndexImage(hash, state.pending, nf, digests);
      found, off := pending.Find(Eval(hash, nf));
    }

    /** Whether the entry at `off` is open, and bound to this destination. */
    method CheckEntry(off: nat, ghost i: nat, destChain: Digest, out: Digest, ghost digests: set<Digest>) returns (r: Result<(), Refusal>)
      requires Valid() && i < |state.pending| && off == XP_OFF_ENTRIES + XP_ENTRY_SIZE * i
      requires InjectiveOn(hash, digests) && {state.pending[i].expected, H2(destChain, out)} <= digests
      ensures var e := state.pending[i];
        r == if e.minted then Err(Rejected(Error.AlreadySpent))
             else if e.expected != H2(destChain, out) then Err(Rejected(WrongDestination))
             else Ok(())
    {
      var minted := pending.IsMinted(off, i);
      if minted {
        return Err(Rejected(Error.AlreadySpent));
      }
      var expected := pending.ExpectedHash(off, i);
      BoundImage(hash, state.pending[i], H2(destChain, out), digests);
      if expected != hash.h2(Eval(hash, destChain), Eval(hash, out)) {
        return Err(Rejected(WrongDestination));
      }
      return Ok(());
    }

    // ---------- the handlers ----------

    method HandleDeposit(depositor: Pubkey, mint: Pubkey, amount: u64, commitment: Digest, owner: Digest, blinding: Digest)
      returns (r: Result<(), Refusal>)
      requires Valid()
      modifies tree, this`vaults, this`wallets, this`state
      ensures var ix := Deposit(depositor, mint, amount, commitment, owner, blinding);
        Valid() && state == BoundedApply(old(state), ix, limit) && Answers(r, old(state), ix, limit)
      ensures r.Ok? ==>
        && Balance(wallets, (depositor, mint)) + amount == Balance(old(wallets), (depositor, mint))
        && Balance(vaults, mint) == Balance(old(vaults), mint) + amount
        && (forall k :: k != (depositor, mint) ==> Balance(wallets, k) == Balance(old(wallets), k))
        && (forall m :: m != mint ==> Balance(vaults, m) == Balance(old(vaults), m))
        && state.leaves == old(state).leaves + [commitment]
    {
      var valid := DepositCircuit(ToField(mint), Num(amount), commitment, owner, blinding);
      if !valid {
        return Err(Rejected(ProofInvalid));
      }
      var vaults0, wallets0 := vaults, wallets;
      ghost var p := state;
      var paid := TransferIn(depositor, mint, amount);
      if !paid {
        return Err(Rejected(InsufficientFunds));
      }
      var inserted := InsertLeaf(commitment);
      if !inserted {
        vaults, wallets := vaults0, wallets0;
        state := p;
        return Err(Rejected(TreeFull));
      }
      History.DepositDoes(p, Deposit(depositor, mint, amount, commitment, owner, blinding));
      return Ok(());
    }

    method HandleWithdraw(root: Digest, nf: Digest, mint: Pubkey, amount: u64, recipient: Pubkey, w: SpendWitness, ghost digests: set<Digest>)
      returns (r: Result<(), Refusal>)
      requires var ix := Withdraw(root, nf, mint, amount, recipient, w);
        Valid() && Separates(hash, digests, state, ix) && WellSized(w)
      modifies nullifiers, this`vaults, this`wallets, this`state
      ensures var ix := Withdraw(root, nf, mint, amount, recipient, w);
        Valid() && state == BoundedApply(old(state), ix, limit) && Answers(r, old(state), ix, limit)
      ensures r.Ok? ==>
        && Balance(wallets, (recipient, mint)) == Balance(old(wallets), (recipient, mint)) + amount
        && Balance(vaults, mint) + amount == Balance(old(vaults), mint)
        && (forall k :: k != (recipient, mint) ==> Balance(wallets, k) == Balance(old(wallets), k))
        && (forall m :: m != mint ==> Balance(vaults, m) == Balance(old(vaults), m))
        && state.nullifiers == old(state).nullifiers + [nf]
    {
      var valid := SpendCircuit(root, nf, ToField(mint), Num(amount), w);
      if !valid {
        return Err(Rejected(ProofInvalid));
      }
      ghost var p := state;
      r := SpendAndPay(root, nf, mint, amount, recipient, digests);
      if r.Ok? {
        History.WithdrawDoes(p, Withdraw(root, nf, mint, amount, recipient, w));
      }
    }

    /** Everything after the proof of a withdraw: the spend, then the payment, which undoes the spend when it fails. */
    method SpendAndPay(root: Digest, nf: Digest, mint: Pubkey, amount: u64, recipient: Pubkey, ghost digests: set<Digest>)
      returns (r: Result<(), Refusal>)
      requires Valid() && InjectiveOn(hash, digests) && {root, nf, ZERO} <= digests && Stored(state) <= digests
      modifies nullifiers, this`vaults, this`wallets, this`state
      ensures Valid()
      ensures var p := old(state);
        && r == (if !IsKnownRoot(p.tree, ZERO, root) then Err(Rejected(UnknownRoot))
                 else if nf in p.nullifiers then Err(Rejected(Error.AlreadySpent))
                 else if limit < OFF_NULLIFIERS + 32 * (|p.nullifiers| + 1) then Err(NoRoom)
                 else if Balance(p.vaults, mint) < amount then Err(Rejected(InsufficientFunds))
                 else Ok(()))
        && state == (if r.Ok? then MoveOut(p.(nullifiers := p.nullifiers + [nf]), mint, recipient, amount) else p)
    {
      var nullifiers0 := nullifiers.data;
      ghost var p := state;
      r := Spend(root, nf, digests);
      if r.Err? {
        return;
      }
      var paid := TransferOut(mint, recipient, amount);
      if !paid {
        nullifiers.data := nullifiers0;
        state := p;
        return Err(Rejected(InsufficientFunds));
      }
    }

    method HandleBurn(root: Digest, nf: Digest, mint: Pubkey, amount: u64, destChain: Digest, destAddress: Digest, w: SpendWitness,
                      ghost digests: set<Digest>)
      returns (r: Result<(), Refusal>)
      requires var ix := BurnNote(root, nf, mint, amount, destChain, destAddress, w);
        Valid() && Separates(hash, digests, state, ix) && WellSized(w)
      modifies nullifiers, this`state
      ensures var ix := BurnNote(root, nf, mint, amount, destChain, destAddress, w);
        Valid() && state == BoundedApply(old(state), ix, limit) && Answers(r, old(state), ix, limit)
    {
      var valid := SpendCircuit(root, nf, ToField(mint), Num(amount), w);
      if !valid {
        return Err(Rejected(ProofInvalid));
      }
      r := Spend(root, nf, digests);
      if r.Ok? {
        state := state.(burns := state.burns + [Burn(nf, ToField(mint), amount, destChain, destAddress)]);
      }
    }

    method HandleXburn(root: Digest, nf: Digest, destChain: Digest, out: Digest, xw: XburnWitness, ghost digests: set<Digest>)
      returns (r: Result<(), Refusal>)
      requires var ix := XburnNote(root, nf, destChain, out, xw);
        Valid() && Separates(hash, digests, state, ix) && WellSized(xw.src)
      modifies nullifiers, this`state
      ensures var ix := XburnNote(root, nf, destChain, out, xw);
        Valid() && state == BoundedApply(old(state), ix, limit) && Answers(r, old(state), ix, limit)
    {
      var valid := XburnCircuit(root, nf, out, xw);
      if !valid {
        return Err(Rejected(ProofInvalid));
      }
      r := Spend(root, nf, digests);
      if r.Ok? {
        state := state.(xburns := state.xburns + [Xburn(nf, destChain, out)]);
      }
    }

    /** The transfer's checks on the register: neither nullifier is spent, and they are not the same. */
    method BothFresh(nfs: (Digest, Digest), ghost digests: set<Digest>) returns (ok: bool)
      requires Valid() && InjectiveOn(hash, digests) && {nfs.0, nfs.1} <= digests && Stored(state) <= digests
      ensures ok <==> nfs.0 !in state.nullifiers && nfs.1 !in state.nullifiers && nfs.0 != nfs.1
    {
      var first := IsSpent(nfs.0, digests);
      var second := IsSpent(nfs.1, digests);
      ok := !first && !second && Eval(hash, nfs.0) != Eval(hash, nfs.1);
    }

    /** The transfer's four writes: two appends, then two inserts; the runtime undoes them all when one fails. */
    method RecordJoinSplit(nfs: (Digest, Digest), outs: (Digest, Digest)) returns (r: Result<(), Refusal>)
      requires Valid()
      modifies nullifiers, tree, this`state
      ensures Valid()
      ensures var p := old(state); var done := JoinSplit(p, nfs, outs);
        if OFF_NULLIFIERS + 32 * (|p.nullifiers| + 2) <= limit
        then r == (if done.Ok? then Ok(()) else Err(Rejected(TreeFull))) && state == (if done.Ok? then done.value else p)
        else r == Err(NoRoom) && state == p
    {
      var nullifiers0, tree0 := nullifiers.data, tree[..];
      ghost var p := state;
      var ok := AppendNullifier(nfs.0);
      if ok {
        ok := AppendNullifier(nfs.1);
      }
      if !ok {
        nullifiers.data := nullifiers0;
        state := p;
        return Err(NoRoom);
      }
      ok := InsertLeaf(outs.0);
      if ok {
        ok := InsertLeaf(outs.1);
      }
      if !ok {
        nullifiers.data := nullifiers0;
        CopyInto(tree, 0, tree0);
        assert tree[..] == tree0;
        state := p;
        return Err(Rejected(TreeFull));
      }
      return Ok(());
    }

    method HandleTransfer(root: Digest, nfs: (Digest, Digest), outs: (Digest, Digest), tw: TransferWitness, ghost digests: set<Digest>)
      returns (r: Result<(), Refusal>)
      requires var ix := Transfer(root, nfs, outs, tw);
        Valid() && Separates(hash, digests, state, ix) && WellTyped(ix)
      modifies nullifiers, tree, this`state
      ensures var ix := Transfer(root, nfs, outs, tw);
        Valid() && state == BoundedApply(old(state), ix, limit) && Answers(r, old(state), ix, limit)
      ensures r.Ok? ==>
        && state.leaves == old(state).leaves + [outs.0, outs.1]
        && state.nullifiers == old(state).nullifiers + [nfs.0, nfs.1]
    {
      var valid := TransferCircuit(root, [nfs.0, nfs.1], [outs.0, outs.1], tw);
      if !valid {
        return Err(Rejected(ProofInvalid));
      }
      var known := KnowsRoot(root, digests);
      if !known {
        return Err(Rejected(UnknownRoot));
      }
      var unspent := BothFresh(nfs, digests);
      if !unspent {
        return Err(Rejected(Error.AlreadySpent));
      }
      ghost var p := state;
      r := RecordJoinSplit(nfs, outs);
      if r.Ok? {
        History.TransferDoes(p, Transfer(root, nfs, outs, tw));
      }
    }

    method AppendAttestation(nf: Digest, destChain: Digest, out: Digest) returns (ok: bool)
      requires Valid()
      modifies pending, this`state
      ensures Valid()
      ensures ok <==> XP_OFF_ENTRIES + XP_ENTRY_SIZE * (|old(state).pending| + 1) <= limit
      ensures var p := old(state); state == if ok then p.(pending := p.pending + [Entry(nf, H2(destChain, out), false)]) else p
    {
      var r := pending.Append(Eval(hash, nf), hash.h2(Eval(hash, destChain), Eval(hash, out)), limit);
      ok := r.Ok?;
      if ok {
        EntryAppended(hash, state.pending, nf, destChain, out);
        state := state.(pending := state.pending + [Entry(nf, H2(destChain, out), false)]);
      }
    }

    method HandleAddPending(signer: Pubkey, nf: Digest, destChain: Digest, out: Digest, ghost digests: set<Digest>)
      returns (r: Result<(), Refusal>)
      requires var ix := AddPending(signer, nf, destChain, out);
        Valid() && Separates(hash, digests, state, ix)
      modifies pending, this`state
      ensures var ix := AddPending(signer, nf, destChain, out);
        Valid() && state == BoundedApply(old(state), ix, limit) && Answers(r, old(state), ix, limit)
    {
      if pending.Operator() != signer {
        return Err(Rejected(WrongOperator));
      }
      r := RecordAttestation(nf, destChain, out, digests);
    }

    /** Everything after the operator check: a nullifier is attested once. */
    method RecordAttestation(nf: Digest, destChain: Digest, out: Digest, ghost digests: set<Digest>) returns (r: Result<(), Refusal>)
      requires Valid() && InjectiveOn(hash, digests) && nf in digests && Stored(state) <= digests
      modifies pending, this`state
      ensures Valid()
      ensures var p := old(state);
        && r == (if Attested(p.pending, nf) then Err(Rejected(Error.AlreadySpent))
                 else if XP_OFF_ENTRIES + XP_ENTRY_SIZE * (|p.pending| + 1) <= limit then Ok(()) else Err(NoRoom))
        && state == (if r.Ok? then p.(pending := p.pending + [Entry(nf, H2(destChain, out), false)]) else p)
    {
      var found, _ := FindAttestation(nf, digests);
      if found {
        return Err(Rejected(Error.AlreadySpent));
      }
      var ok := AppendAttestation(nf, destChain, out);
      return if ok then Ok(()) else Err(NoRoom);
    }

    /** The mint's writes: one leaf, then the flag byte. */
    method RecordMint(off: nat, ghost i: nat, ghost x: Xburn, out: Digest) returns (r: Result<(), Refusal>)
      requires Valid() && i < |state.pending| && off == XP_OFF_ENTRIES + XP_ENTRY_SIZE * i && x.out == out
      modifies tree, pending, this`state
      ensures Valid()
      ensures var p := old(state);
        if Full(p.tree) then r == Err(Rejected(TreeFull)) && state == p
        else r == Ok(()) && state == WithLeaf(p, out).(pending := MarkMinted(p.pending, i), mints := p.mints + [x])
    {
      var inserted := InsertLeaf(out);
      if !inserted {
        return Err(Rejected(TreeFull));
      }
      pending.SetMinted(off, i);
      state := state.(pending := MarkMinted(state.pending, i), mints := state.mints + [x]);
      return Ok(());
    }

    /** Everything after the proof: the attestation's three checks, then the writes. */
    method ConsumeAttestation(nf: Digest, destChain: Digest, out: Digest, ghost digests: set<Digest>) returns (r: Result<(), Refusal>)
      requires Valid() && InjectiveOn(hash, digests) && {nf, H2(destChain, out)} <= digests && Stored(state) <= digests
      modifies tree, pending, this`state
      ensures Valid()
      ensures var p := old(state); var i := IndexOf(p.pending, nf);
        var done := if i == |p.pending| then Err(NotPending) else Pool.Consume(p, i, Xburn(nf, destChain, out));
        && r == (if done.Ok? then Ok(()) else Err(Rejected(done.error)))
        && state == if done.Ok? then done.value else p
    {
      var found, off := FindAttestation(nf, digests);
      if !found {
        return Err(Rejected(NotPending));
      }
      ghost var i := IndexOf(state.pending, nf);
      assert state.pending[i] in state.pending;
      StoredEntries(state, digests);
      r := CheckEntry(off, i, destChain, out, digests);
      if r.Ok? {
        r := RecordMint(off, i, Xburn(nf, destChain, out), out);
      }
    }

    method HandleMintFromXburn(root: Digest, nf: Digest, destChain: Digest, out: Digest, xw: XburnWitness, ghost digests: set<Digest>)
      returns (r: Result<(), Refusal>)
      requires var ix := MintFromXburn(root, nf, destChain, out, xw);
        Valid() && Separates(hash, digests, state, ix) && WellSized(xw.src)
      modifies tree, pending, this`state
      ensures var ix := MintFromXburn(root, nf, destChain, out, xw);
        Valid() && state == BoundedApply(old(state), ix, limit) && Answers(r, old(state), ix, limit)
    {
      if Eval(hash, destChain) != Eval(hash, SOLANA_CHAIN) {
        return Err(Rejected(WrongChain));
      }
      var valid := XburnCircuit(root, nf, out, xw);
      if !valid {
        return Err(Rejected(ProofInvalid));
      }
      r := ConsumeAttestation(nf, destChain, out, digests);
    }

    // ---------- dispatch and runs ----------

    method Execute(ix: Instruction, ghost digests: set<Digest>) returns (r: Result<(), Refusal>)
      requires Valid() && Separates(hash, digests, state, ix) && WellTyped(ix)
      modifies tree, nullifiers, pending, this
      ensures Valid() && state == BoundedApply(old(state), ix, limit) && Answers(r, old(state), ix, limit)
    {
      match ix
      case Deposit(depositor, mint, amount, commitment, owner, blinding) =>
        r := HandleDeposit(depositor, mint, amount, commitment, owner, blinding);
      case Withdraw(root, nf, mint, amount, recipient, w) =>
        r := HandleWithdraw(root, nf, mint, amount, recipient, w, digests);
      case Transfer(root, nfs, outs, tw) =>
        r := HandleTransfer(root, nfs, outs, tw, digests);
      case BurnNote(root, nf, mint, amount, destChain, destAddress, w) =>
        r := HandleBurn(root, nf, mint, amount, destChain, destAddress, w, digests);
      case XburnNote(root, nf, destChain, out, xw) =>
        r := HandleXburn(root, nf, destChain, out, xw, digests);
      case AddPending(signer, nf, destChain, out) =>
        r := HandleAddPending(signer, nf, destChain, out, digests);
      case MintFromXburn(root, nf, destChain, out, xw) =>
        r := HandleMintFromXburn(root, nf, destChain, out, xw, digests);
    }

    /** Any instructions, one after the other: the bytes stay the image of the abstract run, answer by answer. */
    method Replay(ixs: seq<Instruction>, ghost digests: set<Digest>) returns (rs: seq<Result<(), Refusal>>)
      requires Valid() && SeparatesRun(hash, digests, state, ixs, limit)
      requires forall ix :: ix in ixs ==> WellTyped(ix)
      modifies tree, nullifiers, pending, this
      ensures Valid() && state == BoundedRun(old(state), ixs, limit)
      ensures |rs| == |ixs| && AnswersRun(rs, old(state), ixs, limit)
    {
      rs := [];
      ghost var p := state;
      for i := 0 to |ixs|
        invariant Valid() && state == BoundedRun(p, ixs[..i], limit)
        invariant |rs| == i && AnswersRun(rs, p, ixs, limit)
      {
        SeparatesStep(hash, digests, p, ixs, limit, i);
        var r := Execute(ixs[i], digests);
        AnswersStep(rs, r, p, ixs, limit);
        rs := rs + [r];
      }
      assert ixs[..|ixs|] == ixs;
    }
  }

  /** The register of an earlier moment is a prefix of every later one. */
  lemma {:induction false} RegisterGrows(p: PoolState, ixs: seq<Instruction>, limit: nat, k: nat)
    requires Shaped(p.tree, TREE_DEPTH) && k <= |ixs|
    ensures BoundedRun(p, ixs[..k], limit).nullifiers <= BoundedRun(p, ixs, limit).nullifiers
  {
    if k == |ixs| {
      assert ixs[..k] == ixs;
    } else {
      var init, last := ixs[..|ixs| - 1], ixs[|ixs| - 1];
      RegisterGrows(p, init, limit, k);
      assert init[..k] == ixs[..k];
      StepConsumes(BoundedRun(p, init, limit), last);
    }
  }

  /** What the words of the register say about a run from genesis. */
  lemma {:induction false} ByteRegister(hash: Poseidon<Bytes32>, operator: Pubkey, wallets: map<(Pubkey, Pubkey), nat>,
                                        ixs: seq<Instruction>, limit: nat, digests: set<Digest>)
    requires SeparatesRun(hash, digests, Genesis(operator, wallets), ixs, limit)
    ensures var g := Genesis(operator, wallets); var p := BoundedRun(g, ixs, limit); var kept := Kept(g, ixs, limit);
      && p == Pool.Run(g, kept) && Pool.Sound(p)
      && p.nullifiers == Consumed(g, kept) && NoDup(Image(hash, p.nullifiers))
      && forall k :: 0 <= k <= |ixs| ==> Image(hash, BoundedRun(g, ixs[..k], limit).nullifiers) <= Image(hash, p.nullifiers)
  {
    var g := Genesis(operator, wallets);
    var p, kept := BoundedRun(g, ixs, limit), Kept(g, ixs, limit);
    BoundedRunIsRun(g, ixs, limit);
    GenesisSound(operator, wallets);
    Pool.RunSound(g, kept);
    RegisterIsHistory(g, kept);
    assert g.nullifiers + Consumed(g, kept) == Consumed(g, kept);
    assert ixs[..|ixs|] == ixs;
    assert forall x :: x in p.nullifiers ==> x in Elements(p.nullifiers);
    ImageNoDup(hash, p.nullifiers, digests);
    forall k | 0 <= k <= |ixs|
      ensures Image(hash, BoundedRun(g, ixs[..k], limit).nullifiers) <= Image(hash, p.nullifiers)
    {
      RegisterGrows(g, ixs, limit, k);
      ImageGrows(hash, BoundedRun(g, ixs[..k], limit).nullifiers, p.nullifiers);
    }
  }

  /**
    The double-spend promise on account bytes, over every run from freshly initialised accounts:
    the words of the nullifier account are those of the consumed nullifiers, in order and without
    a repeat, no word is ever rewritten, and the tree account is the full tree of the inserted leaves.
   */
  method Boot(hash: Poseidon<Bytes32>, limit: u64, operator: Pubkey, wallets: map<(Pubkey, Pubkey), nat>, ixs: seq<Instruction>,
              ghost digests: set<Digest>)
    returns (program: OpaqProgram, rs: seq<Result<(), Refusal>>)
    requires hash.num(0) == AccountTree.ZERO32
    requires SeparatesRun(hash, digests, Genesis(operator, wallets), ixs, limit)
    requires forall ix :: ix in ixs ==> WellTyped(ix)
    ensures program.Valid() && program.state == Pool.Run(Genesis(operator, wallets), Kept(Genesis(operator, wallets), ixs, limit))
    ensures var view := program.nullifiers.View(); var g := Genesis(operator, wallets);
      && view == Image(hash, Consumed(g, Kept(g, ixs, limit))) && NoDup(view)
      && forall k :: 0 <= k <= |ixs| ==> Image(hash, BoundedRun(g, ixs[..k], limit).nullifiers) <= view
    ensures Reflects(hash.h2, AccountTree.ZERO32, TREE_DEPTH, AccountTree.Decode(program.tree[..]), Image(hash, program.state.leaves))
    ensures |rs| == |ixs| && AnswersRun(rs, Genesis(operator, wallets), ixs, limit)
  {
    program := new OpaqProgram(hash, limit, operator, wallets);
    rs := program.Replay(ixs, digests);
    ByteRegister(hash, operator, wallets, ixs, limit, digests);
    ReflectsImage(hash, program.state.tree, program.state.leaves);
  }
}
