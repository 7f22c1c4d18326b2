/**
  Field elements as terms.  Poseidon is idealised as a free constructor per arity, so that
  equal digests have equal preimages and no hash output is a small integer.  `Eval` reads a
  term back with any concrete hash, which is how the term-level trees relate to real bytes.
 */
module Digests {
  import opened Bytes
  import opened Merkle

  /** The BN254 scalar prime. */
  const FIELD_PRIME: nat := 21888242871839275222246405745257275088548364400416034343698204186575808495617

  datatype Digest =
    | Num(n: nat)
    | H1(x: Digest)
    | H2(left: Digest, right: Digest)
    | H4(token: Digest, amount: Digest, owner: Digest, blinding: Digest)

  const ZERO: Digest := Num(0)

  function Hash2(a: Digest, b: Digest): Digest {
    H2(a, b)
  }

  /** The empty-subtree digests of the first `depth` levels. */
  function ZeroTable(depth: nat): (zeros: seq<Digest>)
    ensures |zeros| == depth && IsZeroTable(Hash2, ZERO, zeros)
  {
    seq(depth, i requires 0 <= i < depth => ZeroHash(Hash2, ZERO, i))
  }

  /** Canonical field encoding of a 32-byte key: two 128-bit big-endian limbs, hashed. */
  function ToField(key: Bytes32): Digest {
    H2(Num(BeValue(key[..16])), Num(BeValue(key[16..])))
  }

  /** The two limbs lose nothing, so different mints are different tokens. */
  lemma {:induction false} ToFieldInjective(a: Bytes32, b: Bytes32)
    requires ToField(a) == ToField(b)
    ensures a == b
  {
    BeReadWrite(a[..16]);
    BeReadWrite(a[16..]);
    BeReadWrite(b[..16]);
    BeReadWrite(b[16..]);
    assert a == a[..16] + a[16..] && b == b[..16] + b[16..];
  }

  /** The limbs are the high and the low half of the key, in that order. */
  lemma {:induction false} ToFieldLimbs(key: Bytes32)
    ensures ToField(key).H2? && ToField(key).left.Num? && ToField(key).right.Num?
    ensures BeValue(key) == ToField(key).left.n * Pow256(16) + ToField(key).right.n && ToField(key).right.n < Pow256(16)
  {
    BeConcat(key[..16], key[16..]);
    BeReadWrite(key[16..]);
    assert key == key[..16] + key[16..];
  }

  // ---------- notes ----------

  /** A note commitment with a 64-bit amount. */
  predicate IsNote(c: Digest) {
    c.H4? && c.amount.Num? && c.amount.n < U64_BOUND
  }

  /** How much of `token` a commitment carries. */
  function Value(c: Digest, token: Digest): nat {
    if c.H4? && c.token == token && c.amount.Num? then c.amount.n else 0
  }

  /** A nullifier that some spend key really derives from a commitment it owns. */
  predicate IsNullifier(nf: Digest) {
    nf.H2? && nf.left.H4? && nf.left.owner == H1(nf.right)
  }

  /** Whether the one nullifier that a commitment can ever have is among `nfs`. */
  predicate Spent(c: Digest, nfs: set<Digest>) {
    c.H4? && c.owner.H1? && H2(c, c.owner.x) in nfs
  }

  // ---------- membership ----------

  /** The leaf position reached from node `j` by reading directions from the top. */
  function Descend(j: nat, right: seq<bool>): nat
    decreases |right|
  {
    if right == [] then j else
    var top := |right| - 1;
    Descend(2 * j + (if right[top] then 1 else 0), right[..top])
  }

  lemma {:induction false} DescendSpells(j: nat, right: seq<bool>)
    ensures Descend(j, right) == j * Pow2(|right|) + Position(right)
    decreases |right|
  {
    if right != [] {
      var top := |right| - 1;
      var bit := if right[top] then 1 else 0;
      DescendSpells(2 * j + bit, right[..top]);
      Distribute(j, bit, Pow2(top));
    }
  }

  lemma {:induction false} Distribute(j: nat, bit: nat, p: nat)
    requires bit <= 1
    ensures (2 * j + bit) * p == j * (2 * p) + if bit == 1 then p else 0
  {
    assert (2 * j) * p == j * (2 * p);
  }

  lemma {:induction false} FoldOpens(leaves: seq<Digest>, leaf: Digest, siblings: seq<Digest>, right: seq<bool>, j: nat)
    requires |siblings| == |right|
    requires Fold(Hash2, leaf, siblings, right) == Node(Hash2, ZERO, leaves, |siblings|, j)
    ensures leaf == Node(Hash2, ZERO, leaves, 0, Descend(j, right))
    decreases |siblings|
  {
    if siblings != [] {
      var top := |siblings| - 1;
      FoldOpens(leaves, leaf, siblings[..top], right[..top], 2 * j + (if right[top] then 1 else 0));
    }
  }

  /** Any path that folds a non-empty leaf to the root proves that leaf sits at the index the path spells. */
  lemma {:induction false} MembershipSound(leaves: seq<Digest>, leaf: Digest, siblings: seq<Digest>, right: seq<bool>)
    requires |siblings| == |right|
    requires leaf != ZERO
    requires Fold(Hash2, leaf, siblings, right) == Root(Hash2, ZERO, |siblings|, leaves)
    ensures Position(right) < |leaves| && leaves[Position(right)] == leaf
  {
    FoldOpens(leaves, leaf, siblings, right, 0);
    DescendSpells(0, right);
  }

  /** ... even when the root is a stale one from the ring. */
  lemma {:induction false} KnownRootMembership(t: Tree<Digest>, leaves: seq<Digest>, root: Digest, leaf: Digest, siblings: seq<Digest>, right: seq<bool>)
    requires |siblings| == |right|
    requires Reflects(Hash2, ZERO, |siblings|, t, leaves)
    requires IsKnownRoot(t, ZERO, root)
    requires leaf != ZERO && Fold(Hash2, leaf, siblings, right) == root
    ensures Position(right) < |leaves| && leaves[Position(right)] == leaf
  {
    RootWindow(Hash2, ZERO, |siblings|, t, leaves, root);
    var k :| 0 <= k <= |leaves| < k + ROOT_HISTORY && Root(Hash2, ZERO, |siblings|, leaves[..k]) == root;
    MembershipSound(leaves[..k], leaf, siblings, right);
  }

  // ---------- eviction ----------

  /** Equal nodes have equal padded leaves. */
  lemma {:induction false} NodeInjective(a: seq<Digest>, b: seq<Digest>, level: nat, j: nat, i: nat)
    requires Node(Hash2, ZERO, a, level, j) == Node(Hash2, ZERO, b, level, j)
    requires Shr(i, level) == j
    ensures Node(Hash2, ZERO, a, 0, i) == Node(Hash2, ZERO, b, 0, i)
    decreases level
  {
    if level != 0 {
      var k := Shr(i, level - 1);
      assert k == 2 * j || k == 2 * j + 1;
      NodeInjective(a, b, level - 1, k, i);
    }
  }

  lemma {:induction false} NodePadding(a: seq<Digest>, b: seq<Digest>, level: nat, j: nat)
    requires forall i: nat :: Node(Hash2, ZERO, a, 0, i) == Node(Hash2, ZERO, b, 0, i)
    ensures Node(Hash2, ZERO, a, level, j) == Node(Hash2, ZERO, b, level, j)
    decreases level
  {
    if level != 0 {
      NodePadding(a, b, level - 1, 2 * j);
      NodePadding(a, b, level - 1, 2 * j + 1);
    }
  }

  ghost predicate AllZero(s: seq<Digest>) {
    forall i :: 0 <= i < |s| ==> s[i] == ZERO
  }

  /** Two prefixes share a root exactly when only empty leaves separate them. */
  lemma {:induction false} PrefixRoots(leaves: seq<Digest>, depth: nat, k: nat, m: nat)
    requires k <= m <= |leaves| <= Pow2(depth)
    ensures Root(Hash2, ZERO, depth, leaves[..k]) == Root(Hash2, ZERO, depth, leaves[..m]) <==> AllZero(leaves[k..m])
  {
    var a, b := leaves[..k], leaves[..m];
    if Root(Hash2, ZERO, depth, a) == Root(Hash2, ZERO, depth, b) {
      forall i | 0 <= i < m - k
        ensures leaves[k..m][i] == ZERO
      {
        ShrVanishes(k + i, depth);
        NodeInjective(a, b, depth, 0, k + i);
      }
    }
    if AllZero(leaves[k..m]) {
      forall i: nat
        ensures Node(Hash2, ZERO, a, 0, i) == Node(Hash2, ZERO, b, 0, i)
      {
        if k <= i < m { assert leaves[k..m][i - k] == ZERO; }
      }
      NodePadding(a, b, depth, 0);
    }
  }

  /**
    A root stays known for 31 further inserts; after that it survives exactly when every leaf
    that separates it from the window is empty (inserting an empty leaf does not move the root).
   */
  lemma {:induction false} RootEviction(t: Tree<Digest>, leaves: seq<Digest>, depth: nat, k: nat)
    requires 0 < depth && k <= |leaves| <= Pow2(depth)
    requires Reflects(Hash2, ZERO, depth, t, leaves)
    ensures IsKnownRoot(t, ZERO, Root(Hash2, ZERO, depth, leaves[..k])) <==>
            |leaves| < k + ROOT_HISTORY || AllZero(leaves[k..|leaves| - (ROOT_HISTORY - 1)])
  {
    var n, root := |leaves|, Root(Hash2, ZERO, depth, leaves[..k]);
    RootWindow(Hash2, ZERO, depth, t, leaves, root);
    if k + ROOT_HISTORY <= n {
      var first := n - (ROOT_HISTORY - 1);
      PrefixRoots(leaves, depth, k, first);
      forall m | first <= m <= n && Root(Hash2, ZERO, depth, leaves[..m]) == root
        ensures AllZero(leaves[k..first])
      {
        PrefixRoots(leaves, depth, k, m);
        assert leaves[k..first] == leaves[k..m][..first - k];
      }
    }
  }

  // ---------- concrete hashes ----------

  /** A concrete implementation of the hashes over some digest representation. */
  datatype Poseidon<!T> = Poseidon(num: nat -> T, h1: T -> T, h2: (T, T) -> T, h4: (T, T, T, T) -> T)

  function Eval<T>(p: Poseidon<T>, d: Digest): T {
    match d
    case Num(n) => p.num(n)
    case H1(x) => p.h1(Eval(p, x))
    case H2(l, r) => p.h2(Eval(p, l), Eval(p, r))
    case H4(a, b, c, e) => p.h4(Eval(p, a), Eval(p, b), Eval(p, c), Eval(p, e))
  }

  function Evaluator<T>(p: Poseidon<T>): Digest -> T {
    d => Eval(p, d)
  }

  lemma {:induction false} EvalZeroHash<T>(p: Poseidon<T>, level: nat)
    ensures Eval(p, ZeroHash(Hash2, ZERO, level)) == ZeroHash(p.h2, p.num(0), level)
  {
    if level != 0 { EvalZeroHash(p, level - 1); }
  }

  /** For every leaf list, the tree kept over a concrete representation is the image of the term-level tree. */
  lemma {:induction false} ConcreteLockstep<T>(p: Poseidon<T>, zeros: seq<Digest>, leaves: seq<Digest>)
    requires zeros != []
    ensures var eval := Evaluator(p);
      Build(p.h2, p.num(0), MapSeq(eval, zeros), MapSeq(eval, leaves)) == MapTree(eval, Build(Hash2, ZERO, zeros, leaves))
  {
    BuildCommutes(Evaluator(p), Hash2, p.h2, ZERO, zeros, leaves);
  }
}
