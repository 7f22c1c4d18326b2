/**
  The five circuits.  Each is a relation between public inputs and a witness, and a method
  that checks it the way the circuit does.  A proof is modelled by its witness: anyone may
  choose any witness, and verification accepts exactly when the relation holds.
 */
module Circuits {
  import opened Bytes
  import opened Merkle
  import opened HostTree
  import opened Digests

  datatype SpendWitness = SpendWitness(spendKey: Digest, blinding: Digest, path: seq<Digest>, right: seq<bool>)

  predicate WellSized(w: SpendWitness) {
    |w.path| == TREE_DEPTH && |w.right| == TREE_DEPTH
  }

  /** `assert_max_bit_size::<64>()`. */
  predicate Fits64(f: Digest) {
    f.Num? && f.n < U64_BOUND
  }

  /** Field addition of range-checked amounts. */
  function AddField(a: nat, b: nat): nat {
    (a + b) % FIELD_PRIME
  }

  function CommitmentOf(token: Digest, amount: Digest, w: SpendWitness): Digest {
    H4(token, amount, H1(w.spendKey), w.blinding)
  }

  // ---------- relations ----------

  predicate DepositRelation(token: Digest, amount: Digest, commitment: Digest, owner: Digest, blinding: Digest) {
    Fits64(amount) && commitment == H4(token, amount, owner, blinding)
  }

  /** Membership, ownership and nullifier of one spent note: the common core of withdraw, burn and xburn. */
  predicate SpendRelation(root: Digest, nullifier: Digest, token: Digest, amount: Digest, w: SpendWitness) {
    && WellSized(w)
    && Fits64(amount)
    && Fold(Hash2, CommitmentOf(token, amount, w), w.path, w.right) == root
    && nullifier == H2(CommitmentOf(token, amount, w), w.spendKey)
  }

  datatype XburnWitness = XburnWitness(token: Digest, amount: Digest, src: SpendWitness, destOwner: Digest, destBlinding: Digest)

  predicate XburnRelation(root: Digest, nullifier: Digest, out: Digest, w: XburnWitness) {
    && SpendRelation(root, nullifier, w.token, w.amount, w.src)
    && out == H4(w.token, w.amount, w.destOwner, w.destBlinding)
  }

  datatype Input = Input(amount: Digest, isDummy: bool, note: SpendWitness)
  datatype Output = Output(amount: Digest, owner: Digest, blinding: Digest)
  datatype TransferWitness = TransferWitness(token: Digest, ins: seq<Input>, outs: seq<Output>)

  const N_IN: nat := 2
  const N_OUT: nat := 2

  /** A real input is a member of the tree; a dummy carries nothing and skips membership. */
  predicate InputRelation(root: Digest, nullifier: Digest, token: Digest, i: Input) {
    && WellSized(i.note)
    && Fits64(i.amount)
    && (if i.isDummy then i.amount == ZERO
        else Fold(Hash2, CommitmentOf(token, i.amount, i.note), i.note.path, i.note.right) == root)
    && nullifier == H2(CommitmentOf(token, i.amount, i.note), i.note.spendKey)
  }

  predicate OutputRelation(commitment: Digest, token: Digest, o: Output) {
    Fits64(o.amount) && commitment == H4(token, o.amount, o.owner, o.blinding)
  }

  predicate TransferRelation(root: Digest, nullifiers: seq<Digest>, outs: seq<Digest>, w: TransferWitness) {
    && |nullifiers| == |w.ins| == N_IN && |outs| == |w.outs| == N_OUT
    && (forall i :: 0 <= i < N_IN ==> InputRelation(root, nullifiers[i], w.token, w.ins[i]))
    && (forall j :: 0 <= j < N_OUT ==> OutputRelation(outs[j], w.token, w.outs[j]))
    && AddField(w.ins[0].amount.n, w.ins[1].amount.n) == AddField(w.outs[0].amount.n, w.outs[1].amount.n)
  }

  // ---------- the circuits as they run ----------

  method DepositCircuit(token: Digest, amount: Digest, commitment: Digest, owner: Digest, blinding: Digest) returns (ok: bool)
    ensures ok <==> DepositRelation(token, amount, commitment, owner, blinding)
  {
    if !Fits64(amount) {
      return false;
    }
    var computed := H4(token, amount, owner, blinding);
    return computed == commitment;
  }

  /** The withdraw circuit; `recipient` is bound but not constrained.  The burn circuit has the same constraints. */
  method SpendCircuit(root: Digest, nullifier: Digest, token: Digest, amount: Digest, w: SpendWitness) returns (ok: bool)
    requires WellSized(w)
    ensures ok <==> SpendRelation(root, nullifier, token, amount, w)
  {
    if !Fits64(amount) {
      return false;
    }
    var owner := H1(w.spendKey);
    var commitment := H4(token, amount, owner, w.blinding);
    var current := MerkleRoot(Hash2, commitment, w.path, w.right);
    assert w.path[..TREE_DEPTH] == w.path && w.right[..TREE_DEPTH] == w.right;
    if current != root {
      return false;
    }
    return H2(commitment, w.spendKey) == nullifier;
  }

  method XburnCircuit(root: Digest, nullifier: Digest, out: Digest, w: XburnWitness) returns (ok: bool)
    requires WellSized(w.src)
    ensures ok <==> XburnRelation(root, nullifier, out, w)
  {
    ok := SpendCircuit(root, nullifier, w.token, w.amount, w.src);
    if ok {
      var computedOut := H4(w.token, w.amount, w.destOwner, w.destBlinding);
      ok := computedOut == out;
    }
  }

  /** The 2-in/2-out join-split.  Accepting proves that the amounts balance as integers, not only in the field. */
  method TransferCircuit(root: Digest, nullifiers: seq<Digest>, outs: seq<Digest>, w: TransferWitness) returns (ok: bool)
    requires |nullifiers| == |w.ins| == N_IN && |outs| == |w.outs| == N_OUT
    requires forall i :: 0 <= i < N_IN ==> WellSized(w.ins[i].note)
    ensures ok <==> TransferRelation(root, nullifiers, outs, w)
    ensures ok ==> w.ins[0].amount.n + w.ins[1].amount.n == w.outs[0].amount.n + w.outs[1].amount.n
  {
    var inSum := 0;
    for i := 0 to N_IN
      invariant forall k :: 0 <= k < i ==> InputRelation(root, nullifiers[k], w.token, w.ins[k])
      invariant inSum == (if i == 0 then 0 else if i == 1 then w.ins[0].amount.n
                          else AddField(w.ins[0].amount.n, w.ins[1].amount.n))
    {
      var input := w.ins[i];
      if !Fits64(input.amount) {
        return false;
      }
      var commitment := H4(w.token, input.amount, H1(input.note.spendKey), input.note.blinding);
      var current := MerkleRoot(Hash2, commitment, input.note.path, input.note.right);
      assert input.note.path[..TREE_DEPTH] == input.note.path && input.note.right[..TREE_DEPTH] == input.note.right;
      if input.isDummy {
        if input.amount != ZERO {
          return false;
        }
      } else if current != root {
        return false;
      }
      if H2(commitment, input.note.spendKey) != nullifiers[i] {
        return false;
      }
      inSum := AddField(inSum, input.amount.n);
    }
    var outSum := 0;
    for j := 0 to N_OUT
      invariant forall k :: 0 <= k < j ==> OutputRelation(outs[k], w.token, w.outs[k])
      invariant outSum == (if j == 0 then 0 else if j == 1 then w.outs[0].amount.n
                           else AddField(w.outs[0].amount.n, w.outs[1].amount.n))
    {
      var output := w.outs[j];
      if !Fits64(output.amount) || H4(w.token, output.amount, output.owner, output.blinding) != outs[j] {
        return false;
      }
      outSum := AddField(outSum, output.amount.n);
    }
    ok := inSum == outSum;
    if ok {
      JoinSplitExact(root, nullifiers, outs, w);
    }
  }

  // ---------- what acceptance means ----------

  /** The range checks make field equality exact: no value is forged by wrapping around the prime. */
  lemma {:induction false} JoinSplitExact(root: Digest, nullifiers: seq<Digest>, outs: seq<Digest>, w: TransferWitness)
    requires TransferRelation(root, nullifiers, outs, w)
    ensures w.ins[0].amount.n + w.ins[1].amount.n == w.outs[0].amount.n + w.outs[1].amount.n
    ensures nullifiers[0] != nullifiers[1] ==> nullifiers[0].left != nullifiers[1].left
    ensures forall i :: 0 <= i < N_IN && w.ins[i].isDummy ==> Value(nullifiers[i].left, w.token) == 0
  {
    var a, b := w.ins[0].amount.n + w.ins[1].amount.n, w.outs[0].amount.n + w.outs[1].amount.n;
    assert InputRelation(root, nullifiers[0], w.token, w.ins[0]) && InputRelation(root, nullifiers[1], w.token, w.ins[1]);
    assert OutputRelation(outs[0], w.token, w.outs[0]) && OutputRelation(outs[1], w.token, w.outs[1]);
    assert a < FIELD_PRIME && b < FIELD_PRIME;
  }

  /** The parts of a join-split make the whole. */
  lemma {:induction false} JoinSplitParts(root: Digest, nfs: (Digest, Digest), outs: (Digest, Digest), w: TransferWitness)
    requires |w.ins| == N_IN && |w.outs| == N_OUT
    requires InputRelation(root, nfs.0, w.token, w.ins[0]) && InputRelation(root, nfs.1, w.token, w.ins[1])
    requires OutputRelation(outs.0, w.token, w.outs[0]) && OutputRelation(outs.1, w.token, w.outs[1])
    requires AddField(w.ins[0].amount.n, w.ins[1].amount.n) == AddField(w.outs[0].amount.n, w.outs[1].amount.n)
    ensures TransferRelation(root, [nfs.0, nfs.1], [outs.0, outs.1], w)
  {}

  /** A spend accepted against any known root consumes a note that was really inserted. */
  lemma {:induction false} SpendsInserted(t: Tree<Digest>, leaves: seq<Digest>, root: Digest, nullifier: Digest, token: Digest, amount: Digest, w: SpendWitness)
    requires Reflects(Hash2, ZERO, TREE_DEPTH, t, leaves)
    requires IsKnownRoot(t, ZERO, root)
    requires SpendRelation(root, nullifier, token, amount, w)
    ensures nullifier.left in leaves
    ensures IsNullifier(nullifier) && IsNote(nullifier.left)
    ensures Value(nullifier.left, token) == amount.n
  {
    KnownRootMembership(t, leaves, root, CommitmentOf(token, amount, w), w.path, w.right);
  }

  /**
    A nullifier fixes the note behind it.  Two accepted cross-chain witnesses for one nullifier,
    whatever roots they name, carry the same token and amount to their outputs.
   */
  lemma {:induction false} NullifierBindsValue(root: Digest, root': Digest, nullifier: Digest, out: Digest, out': Digest, w: XburnWitness, w': XburnWitness)
    requires XburnRelation(root, nullifier, out, w)
    requires XburnRelation(root', nullifier, out', w')
    ensures w.src.spendKey == w'.src.spendKey && w.src.blinding == w'.src.blinding
    ensures forall token :: Value(out, token) == Value(nullifier.left, token) == Value(out', token)
  {}
}
