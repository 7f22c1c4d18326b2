/**
  Field elements as 32-byte words.  No encoding can be injective on all terms, so comparisons of
  bytes are tied to comparisons of terms only on a given finite set of digests.
 */
module Encoding {
  import opened Bytes
  import opened Merkle
  import opened Digests
  import opened Registers
  import AccountTree
  import Pool

  ghost predicate InjectiveOn(p: Poseidon<Bytes32>, digests: set<Digest>) {
    forall a, b :: a in digests && b in digests && Eval(p, a) == Eval(p, b) ==> a == b
  }

  function Image(p: Poseidon<Bytes32>, s: seq<Digest>): (r: seq<Bytes32>)
    ensures |r| == |s|
    ensures forall i :: 0 <= i < |s| ==> r[i] == Eval(p, s[i])
  {
    MapSeq(Evaluator(p), s)
  }

  function EntryImage(p: Poseidon<Bytes32>, e: Entry<Digest>): Entry<Bytes32> {
    Entry(Eval(p, e.nullifier), Eval(p, e.expected), e.minted)
  }

  function EntryImages(p: Poseidon<Bytes32>, es: seq<Entry<Digest>>): (r: seq<Entry<Bytes32>>)
    ensures |r| == |es|
    ensures forall i :: 0 <= i < |es| ==> r[i] == EntryImage(p, es[i])
  {
    seq(|es|, i requires 0 <= i < |es| => EntryImage(p, es[i]))
  }

  function TreeImage(p: Poseidon<Bytes32>, t: Tree<Digest>): Tree<Bytes32> {
    MapTree(Evaluator(p), t)
  }

  function ByteZeros(p: Poseidon<Bytes32>): (zs: seq<Bytes32>)
    ensures |zs| == TREE_DEPTH
  {
    MapSeq(Evaluator(p), Pool.ZEROS)
  }

  // ---------- trees ----------

  lemma {:induction false} ByteZerosTable(p: Poseidon<Bytes32>)
    ensures IsZeroTable(p.h2, p.num(0), ByteZeros(p))
  {
    forall i | 0 <= i < TREE_DEPTH
      ensures ByteZeros(p)[i] == ZeroHash(p.h2, p.num(0), i)
    {
      EvalZeroHash(p, i);
    }
  }

  lemma {:induction false} EmptyTreeImage(p: Poseidon<Bytes32>)
    requires p.num(0) == AccountTree.ZERO32
    ensures TreeImage(p, New(Hash2, ZERO, Pool.ZEROS)) == New(p.h2, AccountTree.ZERO32, ByteZeros(p))
  {
    ConcreteLockstep(p, Pool.ZEROS, []);
    assert MapSeq(Evaluator(p), []) == [];
  }

  /** An insert of the image is the image of the insert. */
  lemma {:induction false} InsertImage(p: Poseidon<Bytes32>, t: Tree<Digest>, leaf: Digest)
    requires Shaped(t, TREE_DEPTH)
    ensures Shaped(TreeImage(p, t), TREE_DEPTH)
    ensures Full(TreeImage(p, t)) == Full(t)
    ensures Insert(p.h2, ByteZeros(p), TreeImage(p, t), Eval(p, leaf)) == TreeImage(p, Insert(Hash2, Pool.ZEROS, t, leaf))
  {
    InsertCommutes(Evaluator(p), Hash2, p.h2, Pool.ZEROS, t, leaf);
  }

  /** The words of a tree that describes `leaves` describe the words of `leaves`. */
  lemma {:induction false} ReflectsImage(p: Poseidon<Bytes32>, t: Tree<Digest>, leaves: seq<Digest>)
    requires Reflects(Hash2, ZERO, TREE_DEPTH, t, leaves) && |leaves| <= Pow2(TREE_DEPTH)
    ensures Reflects(p.h2, p.num(0), TREE_DEPTH, TreeImage(p, t), Image(p, leaves))
  {
    Pool.ZerosTable();
    BuildReflects(Hash2, ZERO, Pool.ZEROS, leaves);
    ReflectsUnique(Hash2, ZERO, TREE_DEPTH, t, Build(Hash2, ZERO, Pool.ZEROS, leaves), leaves);
    ConcreteLockstep(p, Pool.ZEROS, leaves);
    ByteZerosTable(p);
    BuildReflects(p.h2, p.num(0), ByteZeros(p), Image(p, leaves));
  }

  // ---------- comparisons ----------

  /** A word is among the words of a list exactly when its term is in the list. */
  lemma {:induction false} MemberImage(p: Poseidon<Bytes32>, s: seq<Digest>, d: Digest, digests: set<Digest>)
    requires InjectiveOn(p, digests) && d in digests && forall x :: x in s ==> x in digests
    ensures Eval(p, d) in Image(p, s) <==> d in s
  {
    if Eval(p, d) in Image(p, s) {
      var i :| 0 <= i < |s| && Image(p, s)[i] == Eval(p, d);
      assert s[i] in s;
    }
    if d in s {
      var i :| 0 <= i < |s| && s[i] == d;
      assert Image(p, s)[i] == Eval(p, d);
    }
  }

  lemma {:induction false} KnownRootImage(p: Poseidon<Bytes32>, t: Tree<Digest>, root: Digest, digests: set<Digest>)
    requires p.num(0) == AccountTree.ZERO32
    requires InjectiveOn(p, digests) && {root, ZERO} <= digests && forall x :: x in t.roots ==> x in digests
    ensures IsKnownRoot(TreeImage(p, t), AccountTree.ZERO32, Eval(p, root)) == IsKnownRoot(t, ZERO, root)
  {
    MemberImage(p, t.roots, root, digests);
    assert Eval(p, ZERO) == AccountTree.ZERO32;
  }

  lemma {:induction false} IndexImage(p: Poseidon<Bytes32>, es: seq<Entry<Digest>>, n: Digest, digests: set<Digest>)
    requires InjectiveOn(p, digests) && n in digests && forall e :: e in es ==> e.nullifier in digests
    ensures IndexOf(EntryImages(p, es), Eval(p, n)) == IndexOf(es, n)
  {
    if es != [] {
      assert EntryImages(p, es)[1..] == EntryImages(p, es[1..]);
      assert es[0] in es;
      IndexImage(p, es[1..], n, digests);
    }
  }

  lemma {:induction false} ImageGrows(p: Poseidon<Bytes32>, s: seq<Digest>, t: seq<Digest>)
    requires s <= t
    ensures Image(p, s) <= Image(p, t)
  {}

  lemma {:induction false} EntryAppended(p: Poseidon<Bytes32>, es: seq<Entry<Digest>>, nf: Digest, destChain: Digest, out: Digest)
    ensures EntryImages(p, es + [Entry(nf, H2(destChain, out), false)]) ==
            EntryImages(p, es) + [Entry(Eval(p, nf), p.h2(Eval(p, destChain), Eval(p, out)), false)]
  {}

  lemma {:induction false} BoundImage(p: Poseidon<Bytes32>, e: Entry<Digest>, bound: Digest, digests: set<Digest>)
    requires InjectiveOn(p, digests) && {e.expected, bound} <= digests
    ensures EntryImage(p, e).minted == e.minted
    ensures EntryImage(p, e).expected == Eval(p, bound) <==> e.expected == bound
  {}

  lemma {:induction false} ImageNoDup(p: Poseidon<Bytes32>, s: seq<Digest>, digests: set<Digest>)
    requires InjectiveOn(p, digests) && NoDup(s)
    requires forall x :: x in s ==> x in digests
    ensures NoDup(Image(p, s))
  {
    forall i, j | 0 <= i < j < |s|
      ensures Image(p, s)[i] != Image(p, s)[j]
    {
      assert s[i] in s && s[j] in s;
    }
  }
}
