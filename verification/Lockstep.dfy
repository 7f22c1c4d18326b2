/**
  The three trees side by side: the host struct and the account bytes hash concrete 32-byte
  digests, the EVM contract hashes field elements, and `p` says how one represents the other.
 */
module Lockstep {
  import opened Wrappers
  import opened Bytes
  import opened Merkle
  import opened Digests
  import opened Encoding
  import HostTree
  import AccountTree
  import EvmPool
  import Pool

  ghost predicate InLockstep(p: Poseidon<Bytes32>, host: HostTree.CommitmentTree<Bytes32>, account: array<byte>, pool: EvmPool.OpaqPool)
    reads host, host.filledSubtrees, host.roots, account, pool, pool.filledSubtrees, pool.roots
  {
    && host.Valid() && pool.Valid() && account.Length == AccountTree.SIZE
    && host.filledSubtrees != pool.filledSubtrees as object && host.roots != pool.roots as object
    && (var t := account[..]; host.View() == AccountTree.Decode(t))
    && host.View() == TreeImage(p, pool.TreeView())
  }

  /** The three empty trees agree. */
  method Initialize(p: Poseidon<Bytes32>, operator: nat, chainId: nat)
    returns (host: HostTree.CommitmentTree<Bytes32>, account: array<byte>, pool: EvmPool.OpaqPool)
    requires p.num(0) == AccountTree.ZERO32
    ensures InLockstep(p, host, account, pool)
    ensures Reflects(Hash2, ZERO, TREE_DEPTH, pool.TreeView(), [])
    ensures fresh(host) && fresh(host.filledSubtrees) && fresh(host.roots) && fresh(account)
    ensures fresh(pool) && fresh(pool.filledSubtrees) && fresh(pool.roots)
  {
    var zeros := ByteZeros(p);
    host := new HostTree.CommitmentTree(p.h2, p.num(0));
    account := new byte[AccountTree.SIZE](_ => 0);
    AccountTree.InitializeTree(p.h2, zeros, p.h2(zeros[TREE_DEPTH - 1], zeros[TREE_DEPTH - 1]), account);
    pool := new EvmPool.OpaqPool(operator, chainId);
    EmptyTreesAgree(p, host.View());
  }

  lemma {:induction false} EmptyTreesAgree(p: Poseidon<Bytes32>, t: Tree<Bytes32>)
    requires p.num(0) == AccountTree.ZERO32
    requires Reflects(p.h2, p.num(0), TREE_DEPTH, t, [])
    ensures t == New(p.h2, AccountTree.ZERO32, ByteZeros(p)) == TreeImage(p, New(Hash2, ZERO, Pool.ZEROS))
    ensures Reflects(Hash2, ZERO, TREE_DEPTH, New(Hash2, ZERO, Pool.ZEROS), [])
  {
    ByteZerosTable(p);
    NewReflects(p.h2, p.num(0), ByteZeros(p));
    ReflectsUnique(p.h2, p.num(0), TREE_DEPTH, t, New(p.h2, p.num(0), ByteZeros(p)), []);
    EmptyTreeImage(p);
    Pool.ZerosTable();
    NewReflects(Hash2, ZERO, Pool.ZEROS);
  }

  /** What the three trees answered to one leaf. */
  datatype Outcome = Outcome(inHost: Result<nat, HostTree.TreeError>, inAccount: Result<nat, nat>, inPool: Result<nat, EvmPool.Revert>)

  predicate Placed(o: Outcome, index: nat) {
    o.inHost == Ok(index) && o.inAccount == Ok(index) && o.inPool == Ok(index)
  }

  /** All three say "full". */
  predicate Refused(o: Outcome) {
    o.inHost == Err(HostTree.TreeFull) && o.inAccount == Err(AccountTree.E_TREE_FULL) && o.inPool == Err(EvmPool.TreeFull)
  }

  /** The two byte-level trees, which hash the same representation. */
  method InsertBytes(h: (Bytes32, Bytes32) -> Bytes32, zeros: seq<Bytes32>, host: HostTree.CommitmentTree<Bytes32>, account: array<byte>,
                     leaf: Bytes32)
    returns (inHost: Result<nat, HostTree.TreeError>, inAccount: Result<nat, nat>)
    requires host.Valid() && account.Length == AccountTree.SIZE && |zeros| == TREE_DEPTH
    requires host.View() == AccountTree.Decode(account[..])
    modifies host, host.filledSubtrees, host.roots, account
    ensures host.Valid() && host.View() == AccountTree.Decode(account[..])
    ensures var t := old(host.View());
      && inHost == (if Full(t) then Err(HostTree.TreeFull) else Ok(t.next))
      && inAccount == (if Full(t) then Err(AccountTree.E_TREE_FULL) else Ok(t.next))
      && host.View() == (if Full(t) then t else Insert(h, zeros, t, leaf))
  {
    inAccount := AccountTree.TreeInsert(h, zeros, account, leaf);
    inHost := host.Insert(h, zeros, leaf);
  }

  /** One leaf into all three: the same index or the same refusal, and the same state after. */
  method InsertEverywhere(p: Poseidon<Bytes32>, host: HostTree.CommitmentTree<Bytes32>, account: array<byte>, pool: EvmPool.OpaqPool, leaf: Digest,
                          ghost leaves: seq<Digest>)
    returns (o: Outcome)
    requires InLockstep(p, host, account, pool)
    requires Reflects(Hash2, ZERO, TREE_DEPTH, pool.TreeView(), leaves)
    modifies host, host.filledSubtrees, host.roots, account, pool, pool.filledSubtrees, pool.roots
    ensures InLockstep(p, host, account, pool)
    ensures if |leaves| < Pow2(TREE_DEPTH) then Placed(o, |leaves|) else Refused(o)
    ensures Reflects(Hash2, ZERO, TREE_DEPTH, pool.TreeView(), if |leaves| < Pow2(TREE_DEPTH) then leaves + [leaf] else leaves)
  {
    ghost var t := pool.TreeView();
    Pool.ZerosTable();
    if !Full(t) { InsertReflects(Hash2, ZERO, Pool.ZEROS, t, leaves, leaf); }
    InsertImage(p, t, leaf);
    var inPool := pool.InsertLeaf(leaf);
    var inHost, inAccount := InsertBytes(p.h2, ByteZeros(p), host, account, Eval(p, leaf));
    o := Outcome(inHost, inAccount, inPool);
  }

  /** How many of the first `i` leaves fit. */
  function Fitting(i: nat): nat {
    if i <= Pow2(TREE_DEPTH) then i else Pow2(TREE_DEPTH)
  }

  /** What the `i`-th leaf should be answered. */
  predicate Expected(o: Outcome, i: nat) {
    if i < Pow2(TREE_DEPTH) then Placed(o, i) else Refused(o)
  }

  lemma {:induction false} FittingStep(leaves: seq<Digest>, i: nat)
    requires i < |leaves|
    ensures Fitting(i) <= i && Fitting(i + 1) <= i + 1
    ensures leaves[..Fitting(i + 1)] == if Fitting(i) < Pow2(TREE_DEPTH) then leaves[..Fitting(i)] + [leaves[i]] else leaves[..Fitting(i)]
    ensures Fitting(i) < Pow2(TREE_DEPTH) <==> i < Pow2(TREE_DEPTH)
    ensures i < Pow2(TREE_DEPTH) ==> Fitting(i) == i
  {}

  method ReplayOne(p: Poseidon<Bytes32>, host: HostTree.CommitmentTree<Bytes32>, account: array<byte>, pool: EvmPool.OpaqPool,
                   leaves: seq<Digest>, i: nat)
    returns (o: Outcome)
    requires i < |leaves| && Fitting(i) <= i
    requires InLockstep(p, host, account, pool)
    requires Reflects(Hash2, ZERO, TREE_DEPTH, pool.TreeView(), leaves[..Fitting(i)])
    modifies host, host.filledSubtrees, host.roots, account, pool, pool.filledSubtrees, pool.roots
    ensures Expected(o, i) && Fitting(i + 1) <= i + 1
    ensures InLockstep(p, host, account, pool)
    ensures Reflects(Hash2, ZERO, TREE_DEPTH, pool.TreeView(), leaves[..Fitting(i + 1)])
  {
    FittingStep(leaves, i);
    o := InsertEverywhere(p, host, account, pool, leaves[i], leaves[..Fitting(i)]);
  }

  /**
    Any leaf list, replayed from empty into all three: leaf by leaf they answer alike, placing it
    at its index while there is room and refusing every one from then on, and they end in the same
    state, which is the full tree's over the leaves that fit.
   */
  method Replay(p: Poseidon<Bytes32>, operator: nat, chainId: nat, leaves: seq<Digest>)
    returns (host: HostTree.CommitmentTree<Bytes32>, account: array<byte>, pool: EvmPool.OpaqPool, outcomes: seq<Outcome>)
    requires p.num(0) == AccountTree.ZERO32
    ensures InLockstep(p, host, account, pool)
    ensures |outcomes| == |leaves| && forall i :: 0 <= i < |leaves| ==> Expected(outcomes[i], i)
    ensures Fitting(|leaves|) <= |leaves| && Reflects(Hash2, ZERO, TREE_DEPTH, pool.TreeView(), leaves[..Fitting(|leaves|)])
  {
    host, account, pool := Initialize(p, operator, chainId);
    outcomes := [];
    for i := 0 to |leaves|
      invariant fresh(host) && fresh(host.filledSubtrees) && fresh(host.roots) && fresh(account)
      invariant fresh(pool) && fresh(pool.filledSubtrees) && fresh(pool.roots)
      invariant InLockstep(p, host, account, pool)
      invariant |outcomes| == i && forall k :: 0 <= k < i ==> Expected(outcomes[k], k)
      invariant Fitting(i) <= i && Reflects(Hash2, ZERO, TREE_DEPTH, pool.TreeView(), leaves[..Fitting(i)])
    {
      var o := ReplayOne(p, host, account, pool, leaves, i);
      outcomes := outcomes + [o];
    }
  }
}
