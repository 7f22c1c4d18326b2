/** The prover CLI: building spend witnesses from the ordered leaf list, and finding received notes. */
module Wallet {
  import opened Wrappers
  import opened Bytes
  import opened Merkle
  import opened HostTree
  import opened Digests
  import opened Circuits
  import opened Accounting
  import opened Pool
  import Bridge

  datatype Note = Note(mint: Pubkey, amount: u64, spendKey: Digest, blinding: Digest, commitment: Digest)

  datatype WalletError = CommitmentNotFound | AmountExceedsNote

  /** The note file opens its own commitment. */
  predicate Opens(n: Note) {
    n.commitment == H4(ToField(n.mint), Num(n.amount), H1(n.spendKey), n.blinding)
  }

  function NullifierOf(n: Note): Digest {
    H2(n.commitment, n.spendKey)
  }

  /** Position of the first occurrence of `c`. */
  function FirstIndex(leaves: seq<Digest>, c: Digest): (i: nat)
    requires c in leaves
    ensures i < |leaves| && leaves[i] == c
    ensures forall k :: 0 <= k < i ==> leaves[k] != c
  {
    if leaves[0] == c then 0 else 1 + FirstIndex(leaves[1..], c)
  }

  /** The witness for a note located in `leaves`: its true path in the complete tree. */
  function PathWitness(n: Note, leaves: seq<Digest>): SpendWitness
    requires n.commitment in leaves
  {
    var i := FirstIndex(leaves, n.commitment);
    SpendWitness(n.spendKey, n.blinding, Siblings(Hash2, ZERO, leaves, i, TREE_DEPTH), Directions(i, TREE_DEPTH))
  }

  method Locate(leaves: seq<Digest>, c: Digest) returns (r: Result<nat, WalletError>)
    ensures r.Ok? <==> c in leaves
    ensures r.Ok? ==> r.value == FirstIndex(leaves, c)
  {
    var i := 0;
    while i < |leaves|
      invariant i <= |leaves| && c !in leaves[..i]
      invariant c in leaves[i..] ==> c in leaves && FirstIndex(leaves, c) == i + FirstIndex(leaves[i..], c)
      invariant c in leaves ==> c in leaves[i..]
    {
      if leaves[i] == c {
        assert leaves[i..][0] == c;
        return Ok(i);
      }
      assert leaves[i..][1..] == leaves[i + 1..];
      i := i + 1;
    }
    return Err(CommitmentNotFound);
  }

  method BuildPath(n: Note, leaves: seq<Digest>) returns (r: Result<(Digest, SpendWitness), WalletError>)
    ensures r == if n.commitment in leaves then Ok((Root(Hash2, ZERO, TREE_DEPTH, leaves), PathWitness(n, leaves)))
                 else Err(CommitmentNotFound)
  {
    var located := Locate(leaves, n.commitment);
    if located.Err? {
      return Err(CommitmentNotFound);
    }
    var zeros := ZeroHashes(Hash2, ZERO);
    var siblings, right, root := ReconstructPath(Hash2, ZERO, zeros, leaves, located.value);
    return Ok((root, SpendWitness(n.spendKey, n.blinding, siblings, right)));
  }

  method BuildWithdraw(n: Note, leaves: seq<Digest>, recipient: Pubkey) returns (r: Result<Instruction, WalletError>)
    ensures r == if n.commitment in leaves then Ok(WithdrawOf(n, leaves, recipient)) else Err(CommitmentNotFound)
    ensures r.Ok? ==> r.value.Withdraw? && r.value.recipient == recipient && r.value.mint == n.mint && r.value.amount == n.amount
  {
    var nullifier := H2(n.commitment, n.spendKey);
    var path := BuildPath(n, leaves);
    if path.Err? {
      return Err(path.error);
    }
    return Ok(Withdraw(path.value.0, nullifier, n.mint, n.amount, recipient, path.value.1));
  }

  function WithdrawOf(n: Note, leaves: seq<Digest>, recipient: Pubkey): Instruction
    requires n.commitment in leaves
  {
    Withdraw(Root(Hash2, ZERO, TREE_DEPTH, leaves), NullifierOf(n), n.mint, n.amount, recipient, PathWitness(n, leaves))
  }

  /** Fresh randomness of a transfer: the dummy input, and the blindings and change key of the outputs. */
  datatype Secrets = Secrets(dummyKey: Digest, dummyBlinding: Digest, outBlinding: Digest, changeKey: Digest, changeBlinding: Digest)

  function DummyCommitment(n: Note, s: Secrets): Digest {
    H4(ToField(n.mint), ZERO, H1(s.dummyKey), s.dummyBlinding)
  }

  function TransferOf(n: Note, leaves: seq<Digest>, to: Digest, amount: u64, s: Secrets): Instruction
    requires n.commitment in leaves && amount <= n.amount
  {
    var token := ToField(n.mint);
    var dummy := SpendWitness(s.dummyKey, s.dummyBlinding, seq(TREE_DEPTH, _ => ZERO), seq(TREE_DEPTH, _ => false));
    var out0, out1 := Output(Num(amount), to, s.outBlinding), Output(Num(n.amount - amount), H1(s.changeKey), s.changeBlinding);
    Transfer(Root(Hash2, ZERO, TREE_DEPTH, leaves),
             (NullifierOf(n), H2(DummyCommitment(n, s), s.dummyKey)),
             (H4(token, out0.amount, out0.owner, out0.blinding), H4(token, out1.amount, out1.owner, out1.blinding)),
             TransferWitness(token, [Input(Num(n.amount), false, PathWitness(n, leaves)), Input(ZERO, true, dummy)], [out0, out1]))
  }

  method BuildTransfer(n: Note, leaves: seq<Digest>, to: Digest, amount: u64, s: Secrets) returns (r: Result<Instruction, WalletError>)
    ensures r == if n.amount < amount then Err(AmountExceedsNote)
                 else if n.commitment in leaves then Ok(TransferOf(n, leaves, to, amount, s)) else Err(CommitmentNotFound)
    ensures r.Ok? ==>
      && r.value.Transfer?
      && r.value.outs.0 == H4(ToField(n.mint), Num(amount), to, s.outBlinding)
      && r.value.outs.1 == H4(ToField(n.mint), Num(n.amount - amount), H1(s.changeKey), s.changeBlinding)
      && r.value.nullifiers.0 == H2(n.commitment, n.spendKey)
  {
    if amount > n.amount {
      return Err(AmountExceedsNote);
    }
    var token := ToField(n.mint);
    var change := n.amount - amount;
    var dummyCommitment := H4(token, ZERO, H1(s.dummyKey), s.dummyBlinding);
    var out0 := H4(token, Num(amount), to, s.outBlinding);
    var out1 := H4(token, Num(change), H1(s.changeKey), s.changeBlinding);
    var path := BuildPath(n, leaves);
    if path.Err? {
      return Err(path.error);
    }
    var dummy := SpendWitness(s.dummyKey, s.dummyBlinding, seq(TREE_DEPTH, _ => ZERO), seq(TREE_DEPTH, _ => false));
    var tw := TransferWitness(token,
                              [Input(Num(n.amount), false, path.value.1), Input(ZERO, true, dummy)],
                              [Output(Num(amount), to, s.outBlinding), Output(Num(change), H1(s.changeKey), s.changeBlinding)]);
    return Ok(Transfer(path.value.0, (H2(n.commitment, n.spendKey), H2(dummyCommitment, s.dummyKey)), (out0, out1), tw));
  }

  // ---------- completeness ----------

  /** The built path satisfies the spend relation of every circuit that consumes one note. */
  lemma {:induction false} PathSatisfies(n: Note, leaves: seq<Digest>)
    requires Opens(n) && n.commitment in leaves && |leaves| <= Pow2(TREE_DEPTH)
    ensures SpendRelation(Root(Hash2, ZERO, TREE_DEPTH, leaves), NullifierOf(n), ToField(n.mint), Num(n.amount), PathWitness(n, leaves))
  {
    PathReachesRoot(Hash2, ZERO, leaves, FirstIndex(leaves, n.commitment), TREE_DEPTH);
  }

  /** The root of a leaf list harvested at most 31 inserts ago is still accepted. */
  lemma {:induction false} RecentRootKnown(p: PoolState, harvested: nat)
    requires Pool.Sound(p)
    requires harvested <= |p.leaves| < harvested + ROOT_HISTORY
    ensures IsKnownRoot(p.tree, ZERO, Root(Hash2, ZERO, TREE_DEPTH, p.leaves[..harvested]))
  {
    RootWindow(Hash2, ZERO, TREE_DEPTH, p.tree, p.leaves, Root(Hash2, ZERO, TREE_DEPTH, p.leaves[..harvested]));
  }

  /** An unspent honest note can be withdrawn with the witness built up to 31 inserts earlier. */
  lemma {:induction false} WithdrawComplete(p: PoolState, n: Note, harvested: nat, recipient: Pubkey)
    requires Pool.Sound(p) && Bridge.Covered(p, n.mint)
    requires harvested <= |p.leaves| < harvested + ROOT_HISTORY
    requires Opens(n) && n.commitment in p.leaves[..harvested]
    requires NullifierOf(n) !in p.nullifiers
    ensures Pool.Process(p, WithdrawOf(n, p.leaves[..harvested], recipient)).Ok?
  {
    PathSatisfies(n, p.leaves[..harvested]);
    RecentRootKnown(p, harvested);
    Bridge.WithdrawAlwaysFunded(p, WithdrawOf(n, p.leaves[..harvested], recipient));
  }

  /**
    End to end: harvest the leaves now, let anybody take any steps that insert at most 31 leaves
    and leave the note unspent, and the withdraw built from the old list is still accepted.
   */
  lemma {:induction false} WithdrawAfterRun(s: Bridge.System, steps: seq<Bridge.Step>, n: Note, recipient: Pubkey)
    requires Bridge.Sound(s) && Bridge.Conserved(s, n.mint) && s.evm.chainId != 101
    requires Bridge.HonestRun(s, steps)
    requires Opens(n) && n.commitment in s.sol.leaves
    requires var p := Bridge.Run(s, steps).sol; NullifierOf(n) !in p.nullifiers && |p.leaves| < |s.sol.leaves| + ROOT_HISTORY
    ensures Pool.Process(Bridge.Run(s, steps).sol, WithdrawOf(n, s.sol.leaves, recipient)).Ok?
  {
    Bridge.RunConserves(s, steps, n.mint);
    Bridge.LeavesGrow(s, steps);
    var s' := Bridge.Run(s, steps);
    assert s'.sol.leaves[..|s.sol.leaves|] == s.sol.leaves;
    WithdrawComplete(s'.sol, n, |s.sol.leaves|, recipient);
  }

  lemma {:induction false} TransferSatisfies(n: Note, leaves: seq<Digest>, to: Digest, amount: u64, s: Secrets)
    requires Opens(n) && n.commitment in leaves && |leaves| <= Pow2(TREE_DEPTH) && amount <= n.amount
    ensures var ix := TransferOf(n, leaves, to, amount, s);
      TransferRelation(ix.root, [ix.nullifiers.0, ix.nullifiers.1], [ix.outs.0, ix.outs.1], ix.tw)
  {
    var ix := TransferOf(n, leaves, to, amount, s);
    InputsSatisfy(n, leaves, to, amount, s);
    JoinSplitParts(ix.root, ix.nullifiers, ix.outs, ix.tw);
  }

  lemma {:induction false} InputsSatisfy(n: Note, leaves: seq<Digest>, to: Digest, amount: u64, s: Secrets)
    requires Opens(n) && n.commitment in leaves && |leaves| <= Pow2(TREE_DEPTH) && amount <= n.amount
    ensures var ix := TransferOf(n, leaves, to, amount, s);
      && InputRelation(ix.root, ix.nullifiers.0, ix.tw.token, ix.tw.ins[0])
      && InputRelation(ix.root, ix.nullifiers.1, ix.tw.token, ix.tw.ins[1])
  {
    PathSatisfies(n, leaves);
  }

  /** A transfer the CLI builds is accepted while its note is unspent, its dummy is fresh and the tree has two free slots. */
  lemma {:induction false} TransferComplete(p: PoolState, n: Note, harvested: nat, to: Digest, amount: u64, s: Secrets)
    requires Pool.Sound(p)
    requires harvested <= |p.leaves| < harvested + ROOT_HISTORY
    requires Opens(n) && n.commitment in p.leaves[..harvested] && amount <= n.amount
    requires NullifierOf(n) !in p.nullifiers
    requires H2(DummyCommitment(n, s), s.dummyKey) !in p.nullifiers && H2(DummyCommitment(n, s), s.dummyKey) != NullifierOf(n)
    requires |p.leaves| + 2 <= Pow2(TREE_DEPTH)
    ensures Pool.Process(p, TransferOf(n, p.leaves[..harvested], to, amount, s)).Ok?
  {
    var ix := TransferOf(n, p.leaves[..harvested], to, amount, s);
    TransferSatisfies(n, p.leaves[..harvested], to, amount, s);
    RecentRootKnown(p, harvested);
    RoomForTwo(p, ix.nullifiers, ix.outs);
  }

  lemma {:induction false} RoomForTwo(p: PoolState, nfs: (Digest, Digest), outs: (Digest, Digest))
    requires Shaped(p.tree, TREE_DEPTH) && p.tree.next + 2 <= Pow2(TREE_DEPTH)
    ensures Pool.JoinSplit(p, nfs, outs).Ok?
  {}

  // ---------- discovery ----------

  /** A decrypted memo: what its sender put in, byte for byte. */
  datatype Opening = Opening(mint: Bytes32, amount: Bytes32, blinding: Bytes32)

  /** A harvested memo with the output commitment it rode along with; `opening` is what our view key decrypts, if anything. */
  datatype Memo = Memo(commitment: Digest, opening: Option<Opening>)

  /** The hash library takes 32-byte inputs below the field prime, and the CLI aborts when it refuses. */
  predicate Hashable(o: Opening) {
    BeValue(o.amount) < FIELD_PRIME && BeValue(o.blinding) < FIELD_PRIME
  }

  function OpenedCommitment(o: Opening, spendKey: Digest): Digest {
    H4(ToField(o.mint), Num(BeValue(o.amount)), H1(spendKey), Num(BeValue(o.blinding)))
  }

  /** The memo is ours, opens its commitment, and the note is unspent. */
  predicate Discovers(m: Memo, spendKey: Digest, nullifiers: set<Digest>) {
    && m.opening.Some?
    && OpenedCommitment(m.opening.value, spendKey) == m.commitment
    && H2(m.commitment, spendKey) !in nullifiers
  }

  /** The note file written for an opening; only the low eight bytes of the amount are read. */
  function NoteFrom(o: Opening, spendKey: Digest, commitment: Digest): Note {
    EightBytes();
    BeReadWrite(o.amount[24..32]);
    Note(o.mint, BeValue(o.amount[24..32]), spendKey, Num(BeValue(o.blinding)), commitment)
  }

  /** The note of every discovering memo, in order. */
  function NotesOf(memos: seq<Memo>, spendKey: Digest, nullifiers: set<Digest>): seq<Note> {
    if memos == [] then [] else
    var m := memos[|memos| - 1];
    NotesOf(memos[..|memos| - 1], spendKey, nullifiers)
    + if Discovers(m, spendKey, nullifiers) then [NoteFrom(m.opening.value, spendKey, m.commitment)] else []
  }

  predicate AllHashable(memos: seq<Memo>) {
    forall i :: 0 <= i < |memos| && memos[i].opening.Some? ==> Hashable(memos[i].opening.value)
  }

  /**
    The scan, which ends early at the first memo that decrypts to something the hash refuses.
    It reaches the end exactly when there is none; `scanned` is how many memos it got through.
   */
  method ListUnspent(spendKey: Digest, memos: seq<Memo>, nullifiers: set<Digest>) returns (notes: seq<Note>, finished: bool, ghost scanned: nat)
    ensures finished <==> AllHashable(memos)
    ensures scanned <= |memos| && forall i :: 0 <= i < scanned && memos[i].opening.Some? ==> Hashable(memos[i].opening.value)
    ensures if finished then scanned == |memos|
            else scanned < |memos| && memos[scanned].opening.Some? && !Hashable(memos[scanned].opening.value)
    ensures notes == NotesOf(memos[..scanned], spendKey, nullifiers)
    ensures finished ==> notes == NotesOf(memos, spendKey, nullifiers)
  {
    notes := [];
    scanned := 0;
    for k := 0 to |memos|
      invariant scanned == k
      invariant forall i :: 0 <= i < k && memos[i].opening.Some? ==> Hashable(memos[i].opening.value)
      invariant notes == NotesOf(memos[..k], spendKey, nullifiers)
    {
      var m := memos[k];
      if m.opening.Some? {
        var o := m.opening.value;
        var token := ToField(o.mint);
        if BeValue(o.amount) >= FIELD_PRIME || BeValue(o.blinding) >= FIELD_PRIME {
          assert !AllHashable(memos);
          return notes, false, k;
        }
        var commitment := H4(token, Num(BeValue(o.amount)), H1(spendKey), Num(BeValue(o.blinding)));
        if commitment == m.commitment {
          var nullifier := H2(commitment, spendKey);
          if nullifier !in nullifiers {
            notes := notes + [NoteFrom(o, spendKey, commitment)];
          }
        }
      }
      assert memos[..k + 1][..k] == memos[..k];
      scanned := k + 1;
    }
    assert memos[..|memos|] == memos;
    return notes, true, |memos|;
  }

  /** The listed notes are those of the discovering memos, all of them and no others. */
  lemma {:induction false} NotesOfExactly(memos: seq<Memo>, spendKey: Digest, nullifiers: set<Digest>, n: Note)
    ensures n in NotesOf(memos, spendKey, nullifiers) <==>
            exists i :: 0 <= i < |memos| && Discovers(memos[i], spendKey, nullifiers)
                        && n == NoteFrom(memos[i].opening.value, spendKey, memos[i].commitment)
  {
    if memos != [] {
      var init, last := memos[..|memos| - 1], memos[|memos| - 1];
      NotesOfExactly(init, spendKey, nullifiers, n);
      assert forall i :: 0 <= i < |init| ==> init[i] == memos[i];
    }
  }

  /** One unhashable memo is enough to lose a good one behind it: nothing is written although the list holds a note. */
  method AbortLosesNotes(spendKey: Digest, good: Memo, bad: Memo, nullifiers: set<Digest>) returns (notes: seq<Note>, finished: bool)
    requires Discovers(good, spendKey, nullifiers)
    requires bad.opening.Some? && !Hashable(bad.opening.value)
    ensures !finished && notes == []
    ensures NoteFrom(good.opening.value, spendKey, good.commitment) in NotesOf([bad, good], spendKey, nullifiers)
  {
    var memos := [bad, good];
    assert memos[0] == bad && memos[1] == good;
    ghost var scanned;
    notes, finished, scanned := ListUnspent(spendKey, memos, nullifiers);
    NotesOfExactly(memos, spendKey, nullifiers, NoteFrom(good.opening.value, spendKey, good.commitment));
  }

  /** Such a pair exists: a bad memo whose amount is the field prime itself, and a good one that opens its commitment. */
  lemma {:induction false} AbortInput(spendKey: Digest) returns (good: Memo, bad: Memo)
    ensures Discovers(good, spendKey, {})
    ensures bad.opening.Some? && BeValue(bad.opening.value.amount) == FIELD_PRIME && !Hashable(bad.opening.value)
  {
    PrimeFits();
    var zero := WordOf(0);
    var prime := WordOf(FIELD_PRIME);
    var o := Opening(zero, zero, zero);
    good := Memo(OpenedCommitment(o, spendKey), Some(o));
    bad := Memo(ZERO, Some(Opening(zero, prime, zero)));
  }

  lemma {:induction false} WordOf(n: nat) returns (w: Bytes32)
    requires n < Pow256(32)
    ensures BeValue(w) == n
  {
    BeFits(n, 32);
    w := BeBytes(n, 32);
  }

  lemma {:induction false} EightMore(k: nat)
    ensures Pow256(k + 8) == U64_BOUND * Pow256(k)
  {
    assert Pow256(k + 2) == 256 * Pow256(k + 1) == 0x1_0000 * Pow256(k);
    assert Pow256(k + 4) == 256 * Pow256(k + 3) == 0x1_0000 * Pow256(k + 2);
    assert Pow256(k + 6) == 256 * Pow256(k + 5) == 0x1_0000 * Pow256(k + 4);
    assert Pow256(k + 8) == 256 * Pow256(k + 7) == 0x1_0000 * Pow256(k + 6);
  }

  lemma {:induction false} PrimeFits()
    ensures FIELD_PRIME < Pow256(32)
  {
    var k := 0;
    EightMore(k);
    EightMore(k + 8);
    EightMore(k + 16);
    EightMore(k + 24);
    assert Pow256(k) == 1;
  }

  /** Accepted outputs are range-checked, so the eight bytes read are the whole amount. */
  lemma {:induction false} LowBytesSuffice(amount: Bytes32)
    requires BeValue(amount) < U64_BOUND
    ensures BeValue(amount[24..32]) == BeValue(amount)
  {
    assert amount == amount[..24] + amount[24..32];
    BeConcat(amount[..24], amount[24..32]);
    EightBytes();
  }

  /**
    Every note listed from memos of accepted transfers, whether or not the scan ran to the end,
    opens an inserted and unspent commitment with its full amount, and can be withdrawn now.
   */
  lemma {:induction false} ListedNotesSpendable(p: PoolState, memos: seq<Memo>, spendKey: Digest, n: Note, recipient: Pubkey)
    requires Pool.Sound(p)
    requires forall m :: m in memos ==> m.commitment in p.leaves
    requires n in NotesOf(memos, spendKey, Elements(p.nullifiers))
    ensures Opens(n) && n.commitment in p.leaves && NullifierOf(n) !in p.nullifiers
    ensures Value(n.commitment, ToField(n.mint)) == n.amount
    ensures Bridge.Covered(p, n.mint) ==> Pool.Process(p, WithdrawOf(n, p.leaves, recipient)).Ok?
  {
    NotesOfExactly(memos, spendKey, Elements(p.nullifiers), n);
    var i :| 0 <= i < |memos| && Discovers(memos[i], spendKey, Elements(p.nullifiers))
             && n == NoteFrom(memos[i].opening.value, spendKey, memos[i].commitment);
    assert memos[i] in memos && IsNote(memos[i].commitment);
    LowBytesSuffice(memos[i].opening.value.amount);
    if Bridge.Covered(p, n.mint) {
      assert p.leaves[..|p.leaves|] == p.leaves;
      WithdrawComplete(p, n, |p.leaves|, recipient);
    }
  }
}
