/**
  The Solana pool as a state machine: what each instruction checks, in order, and what it
  changes.  A failed instruction leaves the state alone, as transaction atomicity guarantees.
 */
module Pool {
  import opened Bytes
  import opened Merkle
  import opened Wrappers
  import opened Digests
  import opened Circuits
  import opened Registers
  import opened Accounting

  type Pubkey = Bytes32

  const SOLANA_CHAIN: Digest := Num(101)

  /** Empty-subtree digests, one per level. */
  const ZEROS: seq<Digest> := ZeroTable(TREE_DEPTH)

  datatype Error =
    | ProofInvalid | TreeFull | AlreadySpent | UnknownRoot
    | WrongOperator | NotPending | WrongChain | WrongDestination
    | InsufficientFunds // the token program refuses the transfer

  /** Accounts of the program and of the token program, then the history of accepted instructions. */
  datatype PoolState = PoolState(
    tree: Tree<Digest>,
    nullifiers: seq<Digest>,
    pending: seq<Entry<Digest>>,
    operator: Pubkey,
    vaults: map<Pubkey, nat>,
    wallets: map<(Pubkey, Pubkey), nat>,
    leaves: seq<Digest>,
    burns: seq<Burn>,
    xburns: seq<Xburn>,
    mints: seq<Xburn>)

  function Genesis(operator: Pubkey, wallets: map<(Pubkey, Pubkey), nat>): PoolState {
    PoolState(New(Hash2, ZERO, ZEROS), [], [], operator, map[], wallets, [], [], [], [])
  }

  function Balance<K>(m: map<K, nat>, k: K): nat {
    if k in m then m[k] else 0
  }

  function WithLeaf(p: PoolState, c: Digest): PoolState
    requires Shaped(p.tree, TREE_DEPTH)
  {
    p.(tree := Insert(Hash2, ZEROS, p.tree, c), leaves := p.leaves + [c])
  }

  datatype Instruction =
    | Deposit(depositor: Pubkey, mint: Pubkey, amount: u64, commitment: Digest, owner: Digest, blinding: Digest)
    | Withdraw(root: Digest, nullifier: Digest, mint: Pubkey, amount: u64, recipient: Pubkey, w: SpendWitness)
    | Transfer(root: Digest, nullifiers: (Digest, Digest), outs: (Digest, Digest), tw: TransferWitness)
    | BurnNote(root: Digest, nullifier: Digest, mint: Pubkey, amount: u64, destChain: Digest, destAddress: Digest, w: SpendWitness)
    | XburnNote(root: Digest, nullifier: Digest, destChain: Digest, out: Digest, xw: XburnWitness)
    | AddPending(signer: Pubkey, nullifier: Digest, destChain: Digest, out: Digest)
    | MintFromXburn(root: Digest, nullifier: Digest, destChain: Digest, out: Digest, xw: XburnWitness)

  /** The token transfers: exactly `amount` moves between a wallet and the vault of the mint. */
  function MoveIn(p: PoolState, depositor: Pubkey, mint: Pubkey, amount: nat): PoolState
    requires amount <= Balance(p.wallets, (depositor, mint))
  {
    p.(wallets := p.wallets[(depositor, mint) := Balance(p.wallets, (depositor, mint)) - amount],
       vaults := p.vaults[mint := Balance(p.vaults, mint) + amount])
  }

  function MoveOut(p: PoolState, mint: Pubkey, recipient: Pubkey, amount: nat): PoolState
    requires amount <= Balance(p.vaults, mint)
  {
    p.(vaults := p.vaults[mint := Balance(p.vaults, mint) - amount],
       wallets := p.wallets[(recipient, mint) := Balance(p.wallets, (recipient, mint)) + amount])
  }

  /** The effects of a transfer: two nullifiers, then two leaves, or nothing when the tree fills up. */
  function JoinSplit(p: PoolState, nfs: (Digest, Digest), outs: (Digest, Digest)): Result<PoolState, Error>
    requires Shaped(p.tree, TREE_DEPTH)
  {
    var spent := p.(nullifiers := p.nullifiers + [nfs.0] + [nfs.1]);
    if Full(p.tree) then Err(TreeFull)
    else
      var one := WithLeaf(spent, outs.0);
      if Full(one.tree) then Err(TreeFull) else Ok(WithLeaf(one, outs.1))
  }

  /** The effects of a mint from the attestation at index `i`. */
  function Consume(p: PoolState, i: nat, x: Xburn): Result<PoolState, Error>
    requires Shaped(p.tree, TREE_DEPTH) && i < |p.pending|
  {
    if p.pending[i].minted then Err(Error.AlreadySpent)
    else if p.pending[i].expected != Hash2(x.destChain, x.out) then Err(WrongDestination)
    else if Full(p.tree) then Err(TreeFull)
    else Ok(WithLeaf(p, x.out).(pending := MarkMinted(p.pending, i), mints := p.mints + [x]))
  }

  function Process(p: PoolState, ix: Instruction): Result<PoolState, Error>
    requires Shaped(p.tree, TREE_DEPTH)
  {
    match ix
    case Deposit(depositor, mint, amount, commitment, owner, blinding) =>
      if !DepositRelation(ToField(mint), Num(amount), commitment, owner, blinding) then Err(ProofInvalid)
      else if Balance(p.wallets, (depositor, mint)) < amount then Err(InsufficientFunds)
      else if Full(p.tree) then Err(TreeFull)
      else Ok(WithLeaf(MoveIn(p, depositor, mint, amount), commitment))
    case Withdraw(root, nullifier, mint, amount, recipient, w) =>
      if !SpendRelation(root, nullifier, ToField(mint), Num(amount), w) then Err(ProofInvalid)
      else if !IsKnownRoot(p.tree, ZERO, root) then Err(UnknownRoot)
      else if nullifier in p.nullifiers then Err(Error.AlreadySpent)
      else if Balance(p.vaults, mint) < amount then Err(InsufficientFunds)
      else Ok(MoveOut(p.(nullifiers := p.nullifiers + [nullifier]), mint, recipient, amount))
    case Transfer(root, nfs, outs, tw) =>
      if !TransferRelation(root, [nfs.0, nfs.1], [outs.0, outs.1], tw) then Err(ProofInvalid)
      else if !IsKnownRoot(p.tree, ZERO, root) then Err(UnknownRoot)
      else if nfs.0 in p.nullifiers || nfs.1 in p.nullifiers || nfs.0 == nfs.1 then Err(Error.AlreadySpent)
      else JoinSplit(p, nfs, outs)
    case BurnNote(root, nullifier, mint, amount, destChain, destAddress, w) =>
      if !SpendRelation(root, nullifier, ToField(mint), Num(amount), w) then Err(ProofInvalid)
      else if !IsKnownRoot(p.tree, ZERO, root) then Err(UnknownRoot)
      else if nullifier in p.nullifiers then Err(Error.AlreadySpent)
      else Ok(p.(nullifiers := p.nullifiers + [nullifier],
                 burns := p.burns + [Burn(nullifier, ToField(mint), amount, destChain, destAddress)]))
    case XburnNote(root, nullifier, destChain, out, xw) =>
      if !XburnRelation(root, nullifier, out, xw) then Err(ProofInvalid)
      else if !IsKnownRoot(p.tree, ZERO, root) then Err(UnknownRoot)
      else if nullifier in p.nullifiers then Err(Error.AlreadySpent)
      else Ok(p.(nullifiers := p.nullifiers + [nullifier], xburns := p.xburns + [Xburn(nullifier, destChain, out)]))
    case AddPending(signer, nullifier, destChain, out) =>
      if signer != p.operator then Err(WrongOperator)
      else if Attested(p.pending, nullifier) then Err(Error.AlreadySpent)
      else Ok(p.(pending := p.pending + [Entry(nullifier, Hash2(destChain, out), false)]))
    case MintFromXburn(root, nullifier, destChain, out, xw) =>
      if destChain != SOLANA_CHAIN then Err(WrongChain)
      else if !XburnRelation(root, nullifier, out, xw) then Err(ProofInvalid)
      else
        var i := IndexOf(p.pending, nullifier);
        if i == |p.pending| then Err(NotPending) else Consume(p, i, Xburn(nullifier, destChain, out))
  }

  /** One step of a run: the accepted effect, or nothing. */
  function Apply(p: PoolState, ix: Instruction): PoolState
    requires Shaped(p.tree, TREE_DEPTH)
  {
    var r := Process(p, ix);
    if r.Ok? then r.value else p
  }

  // ---------- the invariant of every run ----------

  ghost predicate Sound(p: PoolState) {
    && Reflects(Hash2, ZERO, TREE_DEPTH, p.tree, p.leaves)
    && |p.leaves| <= Pow2(TREE_DEPTH)
    && (forall c :: c in p.leaves ==> IsNote(c))
    && NoDup(p.nullifiers)
    && (forall nf :: nf in p.nullifiers ==> IsNullifier(nf))
    && DistinctEntries(p.pending)
  }

  lemma {:induction false} ZerosTable()
    ensures |ZEROS| == TREE_DEPTH && IsZeroTable(Hash2, ZERO, ZEROS)
  {}

  lemma {:induction false} GenesisSound(operator: Pubkey, wallets: map<(Pubkey, Pubkey), nat>)
    ensures Sound(Genesis(operator, wallets))
    ensures var p := Genesis(operator, wallets);
      && p.operator == operator && p.wallets == wallets && p.vaults == map[]
      && p.leaves == p.nullifiers == [] && p.pending == [] && p.burns == [] && p.xburns == p.mints == []
  {
    ZerosTable();
    NewReflects(Hash2, ZERO, ZEROS);
  }

  lemma {:induction false} LeafSound(p: PoolState, c: Digest)
    requires Sound(p) && IsNote(c) && !Full(p.tree)
    ensures Sound(WithLeaf(p, c))
  {
    ZerosTable();
    InsertReflects(Hash2, ZERO, ZEROS, p.tree, p.leaves, c);
  }

  lemma {:induction false} SpendSound(p: PoolState, nf: Digest)
    requires Sound(p) && IsNullifier(nf) && nf !in p.nullifiers
    ensures Sound(p.(nullifiers := p.nullifiers + [nf]))
  {}

  lemma {:induction false} SpendInstructionSound(p: PoolState, ix: Instruction)
    requires Sound(p) && Process(p, ix).Ok? && (ix.Withdraw? || ix.BurnNote? || ix.XburnNote?)
    ensures Sound(Apply(p, ix))
  {
    SpendSound(p, ix.nullifier);
  }

  lemma {:induction false} LeafInstructionSound(p: PoolState, ix: Instruction)
    requires Sound(p) && Process(p, ix).Ok? && (ix.Deposit? || ix.MintFromXburn?)
    ensures Sound(Apply(p, ix))
  {
    LeafSound(p, if ix.Deposit? then ix.commitment else ix.out);
  }

  /** Every instruction, accepted or not, keeps the pool sound. */
  lemma {:induction false} ApplySound(p: PoolState, ix: Instruction)
    requires Sound(p)
    ensures Sound(Apply(p, ix))
  {
    if Process(p, ix).Ok? {
      if ix.Transfer? {
        TransferSound(p, ix.root, ix.nullifiers, ix.outs, ix.tw);
      } else if ix.Deposit? || ix.MintFromXburn? {
        LeafInstructionSound(p, ix);
      } else if !ix.AddPending? {
        SpendInstructionSound(p, ix);
      }
    }
  }

  lemma {:induction false} TransferFacts(root: Digest, nfs: (Digest, Digest), outs: (Digest, Digest), tw: TransferWitness)
    requires TransferRelation(root, [nfs.0, nfs.1], [outs.0, outs.1], tw)
    ensures InputRelation(root, nfs.0, tw.token, tw.ins[0]) && InputRelation(root, nfs.1, tw.token, tw.ins[1])
    ensures OutputRelation(outs.0, tw.token, tw.outs[0]) && OutputRelation(outs.1, tw.token, tw.outs[1])
  {
    assert [nfs.0, nfs.1][0] == nfs.0 && [nfs.0, nfs.1][1] == nfs.1;
    assert [outs.0, outs.1][0] == outs.0 && [outs.0, outs.1][1] == outs.1;
  }

  lemma {:induction false} TransferSound(p: PoolState, root: Digest, nfs: (Digest, Digest), outs: (Digest, Digest), tw: TransferWitness)
    requires Sound(p) && Process(p, Transfer(root, nfs, outs, tw)).Ok?
    ensures Sound(Apply(p, Transfer(root, nfs, outs, tw)))
  {
    TransferFacts(root, nfs, outs, tw);
    SpendSound(p, nfs.0);
    var one := p.(nullifiers := p.nullifiers + [nfs.0]);
    SpendSound(one, nfs.1);
    var spent := one.(nullifiers := one.nullifiers + [nfs.1]);
    LeafSound(spent, outs.0);
    LeafSound(WithLeaf(spent, outs.0), outs.1);
  }

  // ---------- runs ----------

  function Run(p: PoolState, ixs: seq<Instruction>): (q: PoolState)
    requires Shaped(p.tree, TREE_DEPTH)
    ensures Shaped(q.tree, TREE_DEPTH)
  {
    if ixs == [] then p else Apply(Run(p, ixs[..|ixs| - 1]), ixs[|ixs| - 1])
  }

  lemma {:induction false} RunSound(p: PoolState, ixs: seq<Instruction>)
    requires Sound(p)
    ensures Sound(Run(p, ixs))
  {
    if ixs != [] {
      RunSound(p, ixs[..|ixs| - 1]);
      ApplySound(Run(p, ixs[..|ixs| - 1]), ixs[|ixs| - 1]);
    }
  }

  /** The nullifiers that an instruction consumes. */
  function Consumes(ix: Instruction): seq<Digest> {
    match ix
    case Withdraw(_, nullifier, _, _, _, _) => [nullifier]
    case Transfer(_, nfs, _, _) => [nfs.0, nfs.1]
    case BurnNote(_, nullifier, _, _, _, _, _) => [nullifier]
    case XburnNote(_, nullifier, _, _, _) => [nullifier]
    case _ => []
  }

  /** The nullifiers consumed by the accepted instructions of a run, in order. */
  function Consumed(p: PoolState, ixs: seq<Instruction>): seq<Digest>
    requires Shaped(p.tree, TREE_DEPTH)
  {
    if ixs == [] then [] else
    var init, last := ixs[..|ixs| - 1], ixs[|ixs| - 1];
    Consumed(p, init) + if Process(Run(p, init), last).Ok? then Consumes(last) else []
  }

  function Notes(nfs: seq<Digest>): (cs: seq<Digest>)
    requires forall nf :: nf in nfs ==> nf.H2?
    ensures |cs| == |nfs|
  {
    seq(|nfs|, i requires 0 <= i < |nfs| => nfs[i].left)
  }

  lemma {:induction false} StepConsumes(p: PoolState, ix: Instruction)
    requires Shaped(p.tree, TREE_DEPTH)
    ensures Apply(p, ix).nullifiers == p.nullifiers + if Process(p, ix).Ok? then Consumes(ix) else []
  {
    if ix.Transfer? {
      var nfs := ix.nullifiers;
      assert p.nullifiers + [nfs.0] + [nfs.1] == p.nullifiers + [nfs.0, nfs.1];
    }
  }

  /** A commitment has one nullifier, so different nullifiers open different commitments. */
  lemma {:induction false} NotesDistinct(nfs: seq<Digest>)
    requires NoDup(nfs)
    requires forall nf :: nf in nfs ==> IsNullifier(nf)
    ensures forall nf :: nf in nfs ==> nf.H2?
    ensures NoDup(Notes(nfs))
  {
    forall i, j | 0 <= i < j < |nfs|
      ensures Notes(nfs)[i] != Notes(nfs)[j]
    {
      assert nfs[i] in nfs && nfs[j] in nfs;
    }
  }

  /** The register is append-only and records exactly what accepted instructions consumed. */
  lemma {:induction false} RegisterIsHistory(p: PoolState, ixs: seq<Instruction>)
    requires Shaped(p.tree, TREE_DEPTH)
    ensures Run(p, ixs).nullifiers == p.nullifiers + Consumed(p, ixs)
  {
    if ixs != [] {
      var init, last := ixs[..|ixs| - 1], ixs[|ixs| - 1];
      RegisterIsHistory(p, init);
      StepConsumes(Run(p, init), last);
    }
  }

  /** In every run, each commitment is consumed at most once over all spending instructions together. */
  lemma {:induction false} NoDoubleSpend(operator: Pubkey, wallets: map<(Pubkey, Pubkey), nat>, ixs: seq<Instruction>)
    ensures var nfs := Consumed(Genesis(operator, wallets), ixs);
      && NoDup(nfs)
      && (forall nf :: nf in nfs ==> IsNullifier(nf))
      && NoDup(Notes(nfs))
  {
    var p := Genesis(operator, wallets);
    GenesisSound(operator, wallets);
    RunSound(p, ixs);
    RegisterIsHistory(p, ixs);
    assert Run(p, ixs).nullifiers == Consumed(p, ixs);
    NotesDistinct(Consumed(p, ixs));
  }

  // ---------- what is recorded ----------

  lemma {:induction false} SpendEvent(p: PoolState, ix: Instruction)
    requires Shaped(p.tree, TREE_DEPTH) && Process(p, ix).Ok? && (ix.XburnNote? || ix.BurnNote?)
    ensures ix.nullifier !in p.nullifiers && Apply(p, ix).nullifiers == p.nullifiers + [ix.nullifier]
    ensures Apply(p, ix).xburns == p.xburns + if ix.XburnNote? then [Xburn(ix.nullifier, ix.destChain, ix.out)] else []
    ensures Apply(p, ix).burns ==
            p.burns + if ix.BurnNote? then [Burn(ix.nullifier, ToField(ix.mint), ix.amount, ix.destChain, ix.destAddress)] else []
  {}

  lemma {:induction false} NoSpendEvent(p: PoolState, ix: Instruction)
    requires Shaped(p.tree, TREE_DEPTH) && !(Process(p, ix).Ok? && (ix.XburnNote? || ix.BurnNote?))
    ensures Apply(p, ix).xburns == p.xburns && Apply(p, ix).burns == p.burns
  {}

  lemma {:induction false} MintEvent(p: PoolState, ix: Instruction)
    requires Shaped(p.tree, TREE_DEPTH) && Process(p, ix).Ok? && ix.MintFromXburn?
    ensures Apply(p, ix).mints == p.mints + [Xburn(ix.nullifier, ix.destChain, ix.out)]
    ensures Apply(p, ix).leaves == p.leaves + [ix.out] && Apply(p, ix).xburns == p.xburns
    ensures Apply(p, ix).nullifiers == p.nullifiers && Apply(p, ix).vaults == p.vaults
  {}

  lemma {:induction false} NoMintEvent(p: PoolState, ix: Instruction)
    requires Shaped(p.tree, TREE_DEPTH) && !(Process(p, ix).Ok? && ix.MintFromXburn?)
    ensures Apply(p, ix).mints == p.mints
  {}

  function OpenEntryOf(x: Xburn): Entry<Digest> {
    Entry(x.nullifier, H2(x.destChain, x.out), false)
  }

  lemma {:induction false} MintDecides(p: PoolState, x: Xburn, root: Digest, w: XburnWitness)
    requires Shaped(p.tree, TREE_DEPTH) && XburnRelation(root, x.nullifier, x.out, w)
    ensures Process(p, MintFromXburn(root, x.nullifier, x.destChain, x.out, w)).Ok? <==>
            && x.destChain == SOLANA_CHAIN && !Full(p.tree) && Attested(p.pending, x.nullifier)
            && p.pending[IndexOf(p.pending, x.nullifier)] == OpenEntryOf(x)
  {}

  /** What became of the attestations. */
  predicate PendingAfter(p: PoolState, ix: Instruction, es: seq<Entry<Digest>>) {
    || es == p.pending
    || (ix.AddPending? && ix.signer == p.operator && es == p.pending + [Entry(ix.nullifier, Hash2(ix.destChain, ix.out), false)])
    || (ix.MintFromXburn? && Attested(p.pending, ix.nullifier) && es == MarkMinted(p.pending, IndexOf(p.pending, ix.nullifier)))
  }

  lemma {:induction false} PendingEvent(p: PoolState, ix: Instruction)
    requires Shaped(p.tree, TREE_DEPTH)
    ensures PendingAfter(p, ix, Apply(p, ix).pending)
  {}

  lemma {:induction false} RecordsKept(p: PoolState, ix: Instruction)
    requires Shaped(p.tree, TREE_DEPTH)
    ensures p.xburns <= Apply(p, ix).xburns && p.burns <= Apply(p, ix).burns
    ensures Apply(p, ix).operator == p.operator
  {}

  // ---------- minting, whatever the operator attests ----------

  /** The consumed attestations are exactly the mints, one per nullifier. */
  ghost predicate MintSound(p: PoolState) {
    DistinctEntries(p.pending) && NoDup(Nullifiers(p.mints)) && Elements(Nullifiers(p.mints)) == Minted(p.pending)
  }

  lemma {:induction false} ApplyMintSound(p: PoolState, ix: Instruction)
    requires Shaped(p.tree, TREE_DEPTH) && MintSound(p)
    ensures MintSound(Apply(p, ix))
  {
    if Process(p, ix).Ok? {
      if ix.AddPending? {
        var e := Entry(ix.nullifier, Hash2(ix.destChain, ix.out), false);
        if p.pending != [] { MintedChanges(p.pending, e, 0); }
      } else if ix.MintFromXburn? {
        ConsumeMintSound(p, IndexOf(p.pending, ix.nullifier), Xburn(ix.nullifier, ix.destChain, ix.out));
      }
    }
  }

  lemma {:induction false} ConsumeMintSound(p: PoolState, i: nat, x: Xburn)
    requires Shaped(p.tree, TREE_DEPTH) && MintSound(p)
    requires i < |p.pending| && p.pending[i].nullifier == x.nullifier && Consume(p, i, x).Ok?
    ensures MintSound(Consume(p, i, x).value)
  {
    MintedChanges(p.pending, Entry(x.nullifier, ZERO, false), i);
    OpenEntry(p.pending, i);
    EventAppend(p.mints, x);
    ElementsAppend(Nullifiers(p.mints), x.nullifier);
  }

  /** An entry that is still open has not been consumed through another entry. */
  lemma {:induction false} OpenEntry(es: seq<Entry<Digest>>, i: nat)
    requires DistinctEntries(es) && i < |es| && !es[i].minted
    ensures es[i].nullifier !in Minted(es)
  {}

  lemma {:induction false} RunMintSound(p: PoolState, ixs: seq<Instruction>)
    requires Shaped(p.tree, TREE_DEPTH) && MintSound(p)
    ensures MintSound(Run(p, ixs))
  {
    if ixs != [] {
      RunMintSound(p, ixs[..|ixs| - 1]);
      ApplyMintSound(Run(p, ixs[..|ixs| - 1]), ixs[|ixs| - 1]);
    }
  }

  /** In every run, no source nullifier mints twice. */
  lemma {:induction false} MintsOnce(operator: Pubkey, wallets: map<(Pubkey, Pubkey), nat>, ixs: seq<Instruction>)
    ensures NoDup(Nullifiers(Run(Genesis(operator, wallets), ixs).mints))
  {
    RunMintSound(Genesis(operator, wallets), ixs);
  }

  /** A mint inserts one leaf, for the pair bound in the open attestation of its nullifier. */
  lemma {:induction false} MintsWhatWasAttested(p: PoolState, ix: Instruction)
    requires Shaped(p.tree, TREE_DEPTH) && MintSound(p)
    requires Apply(p, ix).mints != p.mints
    ensures ix.MintFromXburn? && ix.destChain == SOLANA_CHAIN && ix.nullifier !in Minted(p.pending)
    ensures Attested(p.pending, ix.nullifier)
    ensures p.pending[IndexOf(p.pending, ix.nullifier)].expected == Hash2(ix.destChain, ix.out)
    ensures Apply(p, ix).leaves == p.leaves + [ix.out]
  {
    OpenEntry(p.pending, IndexOf(p.pending, ix.nullifier));
  }

  /** Once consumed, a nullifier can be neither attested nor minted again. */
  lemma {:induction false} ConsumedStaysConsumed(p: PoolState, ixs: seq<Instruction>, ix: Instruction, nf: Digest)
    requires Shaped(p.tree, TREE_DEPTH) && MintSound(p) && nf in Minted(p.pending)
    requires (ix.AddPending? || ix.MintFromXburn?) && ix.nullifier == nf
    ensures Process(Run(p, ixs), ix).Err?
  {
    RunMintSound(p, ixs);
    MintedGrows(p, ixs, nf);
    var es := Run(p, ixs).pending;
    var k :| 0 <= k < |es| && es[k].minted && es[k].nullifier == nf;
    assert IndexOf(es, nf) == k;
  }

  lemma {:induction false} MintedGrows(p: PoolState, ixs: seq<Instruction>, nf: Digest)
    requires Shaped(p.tree, TREE_DEPTH) && nf in Minted(p.pending)
    ensures nf in Minted(Run(p, ixs).pending)
  {
    if ixs != [] {
      MintedGrows(p, ixs[..|ixs| - 1], nf);
      MintedKept(Run(p, ixs[..|ixs| - 1]), ixs[|ixs| - 1], nf);
    }
  }

  lemma {:induction false} MintedKept(p: PoolState, ix: Instruction, nf: Digest)
    requires Shaped(p.tree, TREE_DEPTH) && nf in Minted(p.pending)
    ensures nf in Minted(Apply(p, ix).pending)
  {
    PendingEvent(p, ix);
    MintedStays(p, ix, Apply(p, ix).pending, nf);
  }

  lemma {:induction false} MintedStays(p: PoolState, ix: Instruction, es: seq<Entry<Digest>>, nf: Digest)
    requires PendingAfter(p, ix, es) && nf in Minted(p.pending)
    ensures nf in Minted(es)
  {
    var k :| 0 <= k < |p.pending| && p.pending[k].minted && p.pending[k].nullifier == nf;
    assert es[k].minted && es[k].nullifier == nf;
  }
}
