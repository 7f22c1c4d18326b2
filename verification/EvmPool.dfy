/** The EVM pool contract: a spec of each call as a state transition, and the contract proved against it. */
module EvmPool {
  import opened Wrappers
  import opened Merkle
  import opened Digests
  import opened Circuits
  import opened Accounting
  import opened Registers
  import Pool

  datatype Revert = UnknownRoot | AlreadySpent | BadProof | NotOperator | AlreadyMinted | NotPending | WrongDestChain | TreeFull

  /**
    Contract storage, then the inserted leaves and the emitted events.  `pending` maps a
    nullifier to the attested pair whose Keccak digest the contract stores; absent means zero.
   */
  datatype Evm = Evm(
    tree: Tree<Digest>,
    spent: set<Digest>,
    pending: map<Digest, (Digest, Digest)>,
    minted: set<Digest>,
    operator: nat,
    chainId: nat,
    leaves: seq<Digest>,
    xburns: seq<Xburn>,
    mints: seq<Xburn>)

  datatype Call =
    | CallXburn(root: Digest, nullifier: Digest, destChain: Digest, out: Digest, w: XburnWitness)
    | CallAddPending(sender: nat, nullifier: Digest, destChain: Digest, out: Digest)
    | CallMint(root: Digest, nullifier: Digest, destChain: Digest, out: Digest, w: XburnWitness)

  function Genesis(operator: nat, chainId: nat): Evm {
    Evm(New(Hash2, ZERO, Pool.ZEROS), {}, map[], {}, operator, chainId, [], [], [])
  }

  function Execute(e: Evm, call: Call): Result<Evm, Revert>
    requires Shaped(e.tree, TREE_DEPTH)
  {
    match call
    case CallXburn(root, nullifier, destChain, out, w) =>
      if !IsKnownRoot(e.tree, ZERO, root) then Err(UnknownRoot)
      else if nullifier in e.spent then Err(Revert.AlreadySpent)
      else if !XburnRelation(root, nullifier, out, w) then Err(BadProof)
      else Ok(e.(spent := e.spent + {nullifier}, xburns := e.xburns + [Xburn(nullifier, destChain, out)]))
    case CallAddPending(sender, nullifier, destChain, out) =>
      if sender != e.operator then Err(NotOperator)
      else if nullifier in e.minted then Err(AlreadyMinted)
      else Ok(e.(pending := e.pending[nullifier := (destChain, out)]))
    case CallMint(root, nullifier, destChain, out, w) =>
      if nullifier in e.minted then Err(AlreadyMinted)
      else if nullifier !in e.pending || e.pending[nullifier] != (destChain, out) then Err(NotPending)
      else if destChain != Num(e.chainId) then Err(WrongDestChain)
      else if !XburnRelation(root, nullifier, out, w) then Err(BadProof)
      else if Full(e.tree) then Err(TreeFull)
      else Ok(e.(minted := e.minted + {nullifier}, pending := e.pending - {nullifier},
                 tree := Insert(Hash2, Pool.ZEROS, e.tree, out), leaves := e.leaves + [out],
                 mints := e.mints + [Xburn(nullifier, destChain, out)]))
  }

  function Apply(e: Evm, call: Call): Evm
    requires Shaped(e.tree, TREE_DEPTH)
  {
    var r := Execute(e, call);
    if r.Ok? then r.value else e
  }

  // ---------- the contract ----------

  class OpaqPool {
    const operator: nat
    const chainId: nat
    var nextIndex: nat
    var currentRootIndex: nat
    const filledSubtrees: array<Digest>
    const roots: array<Digest>
    const zeros: seq<Digest>
    var nullifierSpent: set<Digest>
    var pendingMint: map<Digest, (Digest, Digest)>
    var minted: set<Digest>
    ghost var leaves: seq<Digest>
    ghost var xburned: seq<Xburn>
    ghost var mintedEvents: seq<Xburn>

    ghost predicate Valid()
      reads this
    {
      filledSubtrees != roots && filledSubtrees.Length == TREE_DEPTH && roots.Length == ROOT_HISTORY &&
      zeros == Pool.ZEROS && currentRootIndex < ROOT_HISTORY
    }

    ghost function TreeView(): (t: Tree<Digest>)
      requires Valid()
      reads this, filledSubtrees, roots
      ensures Shaped(t, TREE_DEPTH)
    {
      Tree(nextIndex, filledSubtrees[..], roots[..], currentRootIndex)
    }

    ghost function State(): Evm
      requires Valid()
      reads this, filledSubtrees, roots
    {
      Evm(TreeView(), nullifierSpent, pendingMint, minted, operator, chainId, leaves, xburned, mintedEvents)
    }

    constructor (operator: nat, chainId: nat)
      ensures Valid() && fresh(filledSubtrees) && fresh(roots)
      ensures State() == Genesis(operator, chainId)
    {
      this.operator, this.chainId := operator, chainId;
      var z := Pool.ZEROS;
      zeros := z;
      var top := z[TREE_DEPTH - 1];
      filledSubtrees := new Digest[TREE_DEPTH](i requires 0 <= i < TREE_DEPTH => z[i]);
      roots := new Digest[ROOT_HISTORY](j => if j == 0 then H2(top, top) else ZERO);
      nextIndex, currentRootIndex := 0, 0;
      nullifierSpent, pendingMint, minted := {}, map[], {};
      leaves, xburned, mintedEvents := [], [], [];
      new;
      assert TreeView() == New(Hash2, ZERO, Pool.ZEROS);
    }

    method InsertLeaf(leaf: Digest) returns (r: Result<nat, Revert>)
      requires Valid()
      modifies this`nextIndex, this`currentRootIndex, filledSubtrees, roots
      ensures Valid()
      ensures r == if Full(old(TreeView())) then Err(TreeFull) else Ok(old(nextIndex))
      ensures TreeView() == if r.Ok? then Insert(Hash2, Pool.ZEROS, old(TreeView()), leaf) else old(TreeView())
    {
      var idx: nat := nextIndex;
      if idx >= Pow2(TREE_DEPTH) {
        return Err(TreeFull);
      }
      var leafIndex, current := idx, leaf;
      for i := 0 to TREE_DEPTH
        invariant Climb(Hash2, zeros, filledSubtrees[..], i, idx, current) ==
                  Climb(Hash2, zeros, old(filledSubtrees[..]), 0, old(nextIndex), leaf)
        invariant roots[..] == old(roots[..]) && nextIndex == old(nextIndex) && currentRootIndex == old(currentRootIndex)
      {
        ghost var before := filledSubtrees[..];
        var left, right;
        if idx % 2 == 0 {
          filledSubtrees[i] := current;
          left := current;
          right := zeros[i];
          assert filledSubtrees[..] == before[i := current];
        } else {
          left := filledSubtrees[i];
          right := current;
        }
        current := Hash2(left, right);
        idx := idx / 2;
      }
      currentRootIndex := (currentRootIndex + 1) % ROOT_HISTORY;
      roots[currentRootIndex] := current;
      nextIndex := leafIndex + 1;
      return Ok(leafIndex);
    }

    method KnowsRoot(root: Digest) returns (known: bool)
      requires Valid()
      ensures known == IsKnownRoot(TreeView(), ZERO, root)
    {
      if root == ZERO {
        return false;
      }
      for i := 0 to ROOT_HISTORY
        invariant root !in roots[..i]
      {
        if roots[i] == root {
          return true;
        }
      }
      return false;
    }

    method Xburn(root: Digest, nullifier: Digest, destChain: Digest, out: Digest, w: XburnWitness) returns (r: Result<(), Revert>)
      requires Valid() && WellSized(w.src)
      modifies this`nullifierSpent, this`xburned
      ensures Valid() && State() == Apply(old(State()), CallXburn(root, nullifier, destChain, out, w))
      ensures var spec := Execute(old(State()), CallXburn(root, nullifier, destChain, out, w));
        r == if spec.Ok? then Ok(()) else Err(spec.error)
    {
      var known := KnowsRoot(root);
      if !known {
        return Err(UnknownRoot);
      }
      if nullifier in nullifierSpent {
        return Err(Revert.AlreadySpent);
      }
      var valid := XburnCircuit(root, nullifier, out, w);
      if !valid {
        return Err(BadProof);
      }
      nullifierSpent := nullifierSpent + {nullifier};
      xburned := xburned + [Accounting.Xburn(nullifier, destChain, out)];
      return Ok(());
    }

    method AddPending(sender: nat, nullifier: Digest, destChain: Digest, out: Digest) returns (r: Result<(), Revert>)
      requires Valid()
      modifies this`pendingMint
      ensures Valid() && State() == Apply(old(State()), CallAddPending(sender, nullifier, destChain, out))
      ensures var spec := Execute(old(State()), CallAddPending(sender, nullifier, destChain, out));
        r == if spec.Ok? then Ok(()) else Err(spec.error)
    {
      if sender != operator {
        return Err(NotOperator);
      }
      if nullifier in minted {
        return Err(AlreadyMinted);
      }
      pendingMint := pendingMint[nullifier := (destChain, out)];
      return Ok(());
    }

    method MintFromXburn(root: Digest, nullifier: Digest, destChain: Digest, out: Digest, w: XburnWitness) returns (r: Result<nat, Revert>)
      requires Valid() && WellSized(w.src)
      modifies this, filledSubtrees, roots
      ensures Valid() && State() == Apply(old(State()), CallMint(root, nullifier, destChain, out, w))
      ensures var spec := Execute(old(State()), CallMint(root, nullifier, destChain, out, w));
        r == if spec.Ok? then Ok(old(nextIndex)) else Err(spec.error)
    {
      if nullifier in minted {
        return Err(AlreadyMinted);
      }
      if nullifier !in pendingMint || pendingMint[nullifier] != (destChain, out) {
        return Err(Revert.NotPending);
      }
      if destChain != Num(chainId) {
        return Err(WrongDestChain);
      }
      var valid := XburnCircuit(root, nullifier, out, w);
      if !valid {
        return Err(BadProof);
      }
      r := Consume(nullifier, destChain, out);
    }

    /** The effects of a mint, in contract order; a revert inside `_insert` undoes the two writes before it. */
    method Consume(nullifier: Digest, destChain: Digest, out: Digest) returns (r: Result<nat, Revert>)
      requires Valid()
      modifies this, filledSubtrees, roots
      ensures Valid()
      ensures r == if Full(old(TreeView())) then Err(TreeFull) else Ok(old(nextIndex))
      ensures var e := old(State());
        State() == if r.Err? then e else
          e.(minted := e.minted + {nullifier}, pending := e.pending - {nullifier},
             tree := Insert(Hash2, Pool.ZEROS, e.tree, out), leaves := e.leaves + [out],
             mints := e.mints + [Accounting.Xburn(nullifier, destChain, out)])
    {
      var minted0, pending0 := minted, pendingMint;
      minted := minted + {nullifier};
      pendingMint := pendingMint - {nullifier};
      r := InsertLeaf(out);
      if r.Err? {
        minted, pendingMint := minted0, pending0;
      } else {
        Log(nullifier, destChain, out);
      }
    }

    /** The inserted leaf and the emitted event. */
    ghost method Log(nullifier: Digest, destChain: Digest, out: Digest)
      requires Valid()
      modifies this`leaves, this`mintedEvents
      ensures Valid()
      ensures var e := old(State());
        State() == e.(leaves := e.leaves + [out], mints := e.mints + [Accounting.Xburn(nullifier, destChain, out)])
    {
      leaves := leaves + [out];
      mintedEvents := mintedEvents + [Accounting.Xburn(nullifier, destChain, out)];
    }
  }

  // ---------- the invariant of every run, whatever the operator does ----------

  ghost predicate Sound(e: Evm) {
    && Reflects(Hash2, ZERO, TREE_DEPTH, e.tree, e.leaves)
    && |e.leaves| <= Pow2(TREE_DEPTH)
    && (forall c :: c in e.leaves ==> IsNote(c))
    && (forall nf :: nf in e.spent ==> IsNullifier(nf))
    && (forall x :: x in e.xburns ==> Carries(x))
    && (forall nf :: nf in e.pending ==> nf !in e.minted)
    // one mint event per consumed nullifier, and one leaf per mint event
    && NoDup(Nullifiers(e.mints))
    && e.minted == Elements(Nullifiers(e.mints))
    && e.leaves == Outs(e.mints)
  }

  lemma {:induction false} GenesisSound(operator: nat, chainId: nat)
    ensures Sound(Genesis(operator, chainId))
    ensures var e := Genesis(operator, chainId);
      && e.operator == operator && e.chainId == chainId && e.spent == e.minted == {} && e.pending == map[]
      && e.leaves == [] && e.xburns == e.mints == []
  {
    Pool.ZerosTable();
    NewReflects(Hash2, ZERO, Pool.ZEROS);
  }

  lemma {:induction false} ApplySound(e: Evm, call: Call)
    requires Sound(e)
    ensures Sound(Apply(e, call))
  {
    if Execute(e, call).Ok? {
      match call
      case CallXburn(root, nullifier, destChain, out, w) =>
        assert Carries(Xburn(nullifier, destChain, out));
      case CallAddPending(_, _, _, _) =>
      case CallMint(root, nullifier, destChain, out, w) =>
        MintSound(e, root, nullifier, destChain, out, w);
    }
  }

  lemma {:induction false} MintSound(e: Evm, root: Digest, nullifier: Digest, destChain: Digest, out: Digest, w: XburnWitness)
    requires Sound(e) && Execute(e, CallMint(root, nullifier, destChain, out, w)).Ok?
    ensures Sound(Apply(e, CallMint(root, nullifier, destChain, out, w)))
  {
    Pool.ZerosTable();
    InsertReflects(Hash2, ZERO, Pool.ZEROS, e.tree, e.leaves, out);
    EventAppend(e.mints, Xburn(nullifier, destChain, out));
    ElementsAppend(Nullifiers(e.mints), nullifier);
  }

  function Run(e: Evm, calls: seq<Call>): (r: Evm)
    requires Shaped(e.tree, TREE_DEPTH)
    ensures Shaped(r.tree, TREE_DEPTH)
  {
    if calls == [] then e else Apply(Run(e, calls[..|calls| - 1]), calls[|calls| - 1])
  }

  lemma {:induction false} RunSound(e: Evm, calls: seq<Call>)
    requires Sound(e)
    ensures Sound(Run(e, calls))
  {
    if calls != [] {
      RunSound(e, calls[..|calls| - 1]);
      ApplySound(Run(e, calls[..|calls| - 1]), calls[|calls| - 1]);
    }
  }

  /** Whatever the operator attests, every leaf comes from its own mint and no nullifier mints twice. */
  lemma {:induction false} MintsOnce(operator: nat, chainId: nat, calls: seq<Call>)
    ensures var e := Run(Genesis(operator, chainId), calls);
      e.leaves == Outs(e.mints) && NoDup(Nullifiers(e.mints))
  {
    GenesisSound(operator, chainId);
    RunSound(Genesis(operator, chainId), calls);
  }

  /** A mint happens only for the pair attested at that moment, on this chain. */
  lemma {:induction false} MintsWhatWasAttested(e: Evm, call: Call)
    requires Shaped(e.tree, TREE_DEPTH)
    requires Apply(e, call).mints != e.mints
    ensures call.CallMint? && call.nullifier !in e.minted
    ensures call.nullifier in e.pending && e.pending[call.nullifier] == (call.destChain, call.out)
    ensures call.destChain == Num(e.chainId)
    ensures Apply(e, call).leaves == e.leaves + [call.out]
  {}

  /** Once consumed, a nullifier is never pending again. */
  lemma {:induction false} ConsumedStaysConsumed(e: Evm, calls: seq<Call>, nf: Digest)
    requires Sound(e) && nf in e.minted
    ensures nf in Run(e, calls).minted && nf !in Run(e, calls).pending
  {
    if calls != [] {
      ConsumedStaysConsumed(e, calls[..|calls| - 1], nf);
    }
  }
}
