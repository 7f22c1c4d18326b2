/**
  The incremental Merkle tree with a ring of recent roots, for any two-argument hash.

  `Node` and `Root` describe the complete zero-padded tree over a leaf list; `Tree` and
  `Insert` describe the frontier-and-ring state that the implementations keep.  `Reflects`
  connects the two: it says what every stored digest is, in terms of the leaf list alone.
 */
module Merkle {
  const TREE_DEPTH: nat := 24
  const ROOT_HISTORY: nat := 32

  function Pow2(n: nat): (p: nat)
    ensures 0 < p
  {
    if n == 0 then 1 else 2 * Pow2(n - 1)
  }

  /** `n >> i`. */
  function Shr(n: nat, i: nat): nat {
    if i == 0 then n else Shr(n, i - 1) / 2
  }

  // ---------- the complete zero-padded tree ----------

  /** Digest of the `j`-th subtree of height `level`; positions past the leaves hold `zero`. */
  function Node<T>(h: (T, T) -> T, zero: T, leaves: seq<T>, level: nat, j: nat): T
    decreases level, leaves
  {
    if level == 0 then
      if j < |leaves| then leaves[j] else zero
    else
      h(Node(h, zero, leaves, level - 1, 2 * j), Node(h, zero, leaves, level - 1, 2 * j + 1))
  }

  function Root<T>(h: (T, T) -> T, zero: T, depth: nat, leaves: seq<T>): T {
    Node(h, zero, leaves, depth, 0)
  }

  lemma {:induction false} NodeHalves<T>(h: (T, T) -> T, zero: T, leaves: seq<T>, depth: nat, k: nat, level: nat, j: nat)
    requires level <= depth && j < Pow2(depth - level)
    requires k == if |leaves| < Pow2(depth) then |leaves| else Pow2(depth)
    ensures Node(h, zero, leaves, level, j) == Node(h, zero, leaves[..k], level, j)
    ensures Node(h, zero, leaves, level, j + Pow2(depth - level)) == Node(h, zero, leaves[k..], level, j)
    decreases level
  {
    if level != 0 {
      assert Pow2(depth - (level - 1)) == 2 * Pow2(depth - level);
      NodeHalves(h, zero, leaves, depth, k, level - 1, 2 * j);
      NodeHalves(h, zero, leaves, depth, k, level - 1, 2 * j + 1);
    }
  }

  /** The root of a tree hashes the root over the first half of its places with the root over the second, left before right. */
  lemma {:induction false} RootSplits<T>(h: (T, T) -> T, zero: T, depth: nat, leaves: seq<T>)
    ensures var k := if |leaves| < Pow2(depth) then |leaves| else Pow2(depth);
      Root(h, zero, depth + 1, leaves) == h(Root(h, zero, depth, leaves[..k]), Root(h, zero, depth, leaves[k..]))
    ensures Root(h, zero, 0, leaves) == if leaves == [] then zero else leaves[0]
  {
    var k := if |leaves| < Pow2(depth) then |leaves| else Pow2(depth);
    assert Pow2(depth - depth) == 1;
    NodeHalves(h, zero, leaves, depth, k, depth, 0);
  }

  /** Digest of an empty subtree of height `level`. */
  function ZeroHash<T>(h: (T, T) -> T, zero: T, level: nat): T {
    if level == 0 then zero
    else h(ZeroHash(h, zero, level - 1), ZeroHash(h, zero, level - 1))
  }

  ghost predicate IsZeroTable<T>(h: (T, T) -> T, zero: T, zeros: seq<T>) {
    forall i :: 0 <= i < |zeros| ==> zeros[i] == ZeroHash(h, zero, i)
  }

  // ---------- the incremental tree ----------

  datatype Tree<T> = Tree(next: nat, filled: seq<T>, roots: seq<T>, cursor: nat)

  function New<T>(h: (T, T) -> T, zero: T, zeros: seq<T>): Tree<T>
    requires zeros != []
  {
    var top := zeros[|zeros| - 1];
    Tree(0, zeros, seq(ROOT_HISTORY, j => if j == 0 then h(top, top) else zero), 0)
  }

  /** The level loop of `insert`, from `level` to the top: the new frontier and the new root. */
  function Climb<T>(h: (T, T) -> T, zeros: seq<T>, filled: seq<T>, level: nat, index: nat, current: T): (r: (seq<T>, T))
    requires level <= |filled| == |zeros|
    ensures |r.0| == |filled|
    decreases |filled| - level
  {
    if level == |filled| then
      (filled, current)
    else if index % 2 == 0 then
      Climb(h, zeros, filled[level := current], level + 1, index / 2, h(current, zeros[level]))
    else
      Climb(h, zeros, filled, level + 1, index / 2, h(filled[level], current))
  }

  predicate Shaped<T>(t: Tree<T>, depth: nat) {
    |t.filled| == depth && |t.roots| == ROOT_HISTORY
  }

  predicate Full<T>(t: Tree<T>) {
    Pow2(|t.filled|) <= t.next
  }

  /** The state after a successful `insert`. */
  function Insert<T>(h: (T, T) -> T, zeros: seq<T>, t: Tree<T>, leaf: T): (t': Tree<T>)
    requires Shaped(t, |zeros|)
    ensures Shaped(t', |zeros|)
  {
    var (filled, root) := Climb(h, zeros, t.filled, 0, t.next, leaf);
    var cursor := (t.cursor + 1) % ROOT_HISTORY;
    Tree(t.next + 1, filled, t.roots[cursor := root], cursor)
  }

  predicate IsKnownRoot<T(==)>(t: Tree<T>, zero: T, root: T) {
    root != zero && root in t.roots
  }

  // ---------- what the state holds ----------

  /** What `filled[level]` holds: the last left child at that level. */
  function Frontier<T>(h: (T, T) -> T, zero: T, leaves: seq<T>, level: nat): T {
    if leaves == [] then ZeroHash(h, zero, level)
    else Node(h, zero, leaves, level, 2 * Shr(|leaves| - 1, level + 1))
  }

  /** What ring slot `j` holds: the root of the latest prefix whose length is `j` modulo the ring size. */
  function RingSlot<T>(h: (T, T) -> T, zero: T, depth: nat, leaves: seq<T>, j: nat): T {
    if j <= |leaves| then Root(h, zero, depth, leaves[..|leaves| - (|leaves| - j) % ROOT_HISTORY]) else zero
  }

  ghost predicate Reflects<T>(h: (T, T) -> T, zero: T, depth: nat, t: Tree<T>, leaves: seq<T>) {
    && Shaped(t, depth)
    && t.next == |leaves|
    && t.cursor == |leaves| % ROOT_HISTORY
    && (forall i :: 0 <= i < depth ==> t.filled[i] == Frontier(h, zero, leaves, i))
    && (forall j :: 0 <= j < ROOT_HISTORY ==> t.roots[j] == RingSlot(h, zero, depth, leaves, j))
  }

  // ---------- shifts ----------

  lemma {:induction false} ShrPred(n: nat, i: nat)
    requires 0 < n
    ensures Shr(n, i) - 1 <= Shr(n - 1, i) <= Shr(n, i)
  {
    if i != 0 { ShrPred(n, i - 1); }
  }

  /** An index fits in `depth` bits exactly when shifting by `depth` leaves nothing. */
  lemma {:induction false} ShrVanishes(n: nat, depth: nat)
    ensures Shr(n, depth) == 0 <==> n < Pow2(depth)
  {
    ShrFloor(n, depth);
    Multiple(Pow2(depth), Shr(n, depth));
  }

  lemma {:induction false} Multiple(p: nat, q: nat)
    ensures if q == 0 then p * q == 0 else p <= p * q
  {}

  lemma {:induction false} Halve(p: nat, q: nat)
    ensures p * q == (2 * p) * (q / 2) + if q % 2 == 1 then p else 0
  {
    var d := q / 2;
    assert q == 2 * d + q % 2;
    assert p * (2 * d) == (2 * p) * d;
  }

  lemma {:induction false} ShrFloor(n: nat, i: nat)
    ensures Pow2(i) * Shr(n, i) <= n < Pow2(i) * Shr(n, i) + Pow2(i)
  {
    if i != 0 {
      ShrFloor(n, i - 1);
      Halve(Pow2(i - 1), Shr(n, i - 1));
    }
  }

  // ---------- nodes ----------

  /** Appending a leaf changes only the nodes above it. */
  lemma {:induction false} NodeAppend<T>(h: (T, T) -> T, zero: T, leaves: seq<T>, leaf: T, level: nat, j: nat)
    requires j != Shr(|leaves|, level)
    ensures Node(h, zero, leaves + [leaf], level, j) == Node(h, zero, leaves, level, j)
    decreases level
  {
    if level != 0 {
      NodeAppend(h, zero, leaves, leaf, level - 1, 2 * j);
      NodeAppend(h, zero, leaves, leaf, level - 1, 2 * j + 1);
    }
  }

  /** Subtrees right of the last leaf are empty. */
  lemma {:induction false} NodeEmpty<T>(h: (T, T) -> T, zero: T, leaves: seq<T>, level: nat, j: nat)
    requires leaves == [] || Shr(|leaves| - 1, level) < j
    ensures Node(h, zero, leaves, level, j) == ZeroHash(h, zero, level)
    decreases level
  {
    if level != 0 {
      NodeEmpty(h, zero, leaves, level - 1, 2 * j);
      NodeEmpty(h, zero, leaves, level - 1, 2 * j + 1);
    }
  }

  // ---------- incremental equals full ----------

  /**
    The loop invariant of `insert`: below `level` the frontier already describes the extended
    list, from `level` up it still describes the old one, and `current` is the node above the
    new leaf.
   */
  lemma {:induction false} ClimbSound<T>(h: (T, T) -> T, zero: T, zeros: seq<T>, leaves: seq<T>, leaf: T,
                                         filled: seq<T>, level: nat, current: T)
    requires level <= |filled| == |zeros|
    requires IsZeroTable(h, zero, zeros)
    requires forall i :: 0 <= i < level ==> filled[i] == Frontier(h, zero, leaves + [leaf], i)
    requires forall i :: level <= i < |filled| ==> filled[i] == Frontier(h, zero, leaves, i)
    requires current == Node(h, zero, leaves + [leaf], level, Shr(|leaves|, level))
    ensures var (filled', root) := Climb(h, zeros, filled, level, Shr(|leaves|, level), current);
      && (forall i :: 0 <= i < |filled| ==> filled'[i] == Frontier(h, zero, leaves + [leaf], i))
      && root == Node(h, zero, leaves + [leaf], |filled|, Shr(|leaves|, |filled|))
    decreases |filled| - level
  {
    if level < |filled| {
      var n, all := |leaves|, leaves + [leaf];
      var index := Shr(n, level);
      assert Shr(n, level + 1) == index / 2;
      if index % 2 == 0 {
        NodeEmpty(h, zero, all, level, index + 1);
        ClimbSound(h, zero, zeros, leaves, leaf, filled[level := current], level + 1, h(current, zeros[level]));
      } else {
        assert 0 < n by { if n == 0 { ShrVanishes(0, level); } }
        ShrPred(n, level);
        assert Shr(n - 1, level + 1) == index / 2;
        NodeAppend(h, zero, leaves, leaf, level, index - 1);
        ClimbSound(h, zero, zeros, leaves, leaf, filled, level + 1, h(filled[level], current));
      }
    }
  }

  /** A fresh tree describes the empty leaf list. */
  lemma {:induction false} NewReflects<T>(h: (T, T) -> T, zero: T, zeros: seq<T>)
    requires zeros != [] && IsZeroTable(h, zero, zeros)
    ensures Reflects(h, zero, |zeros|, New(h, zero, zeros), [])
  {
    NodeEmpty(h, zero, [], |zeros|, 0);
  }

  /** The prefix whose root a slot holds moves only for the slot just written. */
  lemma {:induction false} SlotPrefix(n: nat, j: nat)
    requires j < ROOT_HISTORY
    ensures j == (n + 1) % ROOT_HISTORY && j <= n + 1 ==> (n + 1 - j) % ROOT_HISTORY == 0
    ensures j != (n + 1) % ROOT_HISTORY ==> j != n + 1
    ensures j != (n + 1) % ROOT_HISTORY && j <= n ==> (n + 1 - j) % ROOT_HISTORY == (n - j) % ROOT_HISTORY + 1
  {}

  lemma {:induction false} CursorStep(n: nat)
    ensures (n % ROOT_HISTORY + 1) % ROOT_HISTORY == (n + 1) % ROOT_HISTORY
  {}

  lemma {:induction false} RingAppend<T>(h: (T, T) -> T, zero: T, depth: nat, leaves: seq<T>, leaf: T, j: nat)
    requires j < ROOT_HISTORY
    ensures RingSlot(h, zero, depth, leaves + [leaf], j) ==
            if j == (|leaves| + 1) % ROOT_HISTORY then Root(h, zero, depth, leaves + [leaf])
            else RingSlot(h, zero, depth, leaves, j)
  {
    var n, all := |leaves|, leaves + [leaf];
    SlotPrefix(n, j);
    if j == (n + 1) % ROOT_HISTORY {
      assert all[..n + 1] == all;
    } else if j <= n {
      var k := n - (n - j) % ROOT_HISTORY;
      assert all[..k] == leaves[..k];
    }
  }

  /** `insert` keeps the frontier and the ring describing the leaf list, so its new root is the full tree's. */
  lemma {:induction false} InsertReflects<T>(h: (T, T) -> T, zero: T, zeros: seq<T>, t: Tree<T>, leaves: seq<T>, leaf: T)
    requires IsZeroTable(h, zero, zeros)
    requires Reflects(h, zero, |zeros|, t, leaves)
    requires !Full(t)
    ensures Reflects(h, zero, |zeros|, Insert(h, zeros, t, leaf), leaves + [leaf])
    ensures var t' := Insert(h, zeros, t, leaf);
      t'.roots[t'.cursor] == Root(h, zero, |zeros|, leaves + [leaf])
  {
    ClimbSound(h, zero, zeros, leaves, leaf, t.filled, 0, leaf);
    ShrVanishes(|leaves|, |zeros|);
    CursorStep(|leaves|);
    forall j | 0 <= j < ROOT_HISTORY
      ensures Insert(h, zeros, t, leaf).roots[j] == RingSlot(h, zero, |zeros|, leaves + [leaf], j)
    {
      RingAppend(h, zero, |zeros|, leaves, leaf, j);
    }
  }

  /** The tree after inserting `leaves` one by one. */
  function Build<T>(h: (T, T) -> T, zero: T, zeros: seq<T>, leaves: seq<T>): (t: Tree<T>)
    requires zeros != []
    ensures Shaped(t, |zeros|)
  {
    if leaves == [] then New(h, zero, zeros)
    else Insert(h, zeros, Build(h, zero, zeros, leaves[..|leaves| - 1]), leaves[|leaves| - 1])
  }

  /** Incremental equals full, for every leaf list the tree has room for. */
  lemma {:induction false} BuildReflects<T>(h: (T, T) -> T, zero: T, zeros: seq<T>, leaves: seq<T>)
    requires zeros != [] && IsZeroTable(h, zero, zeros)
    requires |leaves| <= Pow2(|zeros|)
    ensures Reflects(h, zero, |zeros|, Build(h, zero, zeros, leaves), leaves)
  {
    if leaves == [] {
      NewReflects(h, zero, zeros);
    } else {
      var init, last := leaves[..|leaves| - 1], leaves[|leaves| - 1];
      BuildReflects(h, zero, zeros, init);
      InsertReflects(h, zero, zeros, Build(h, zero, zeros, init), init, last);
      assert init + [last] == leaves;
    }
  }

  /** The leaf list determines every field: two trees over the same leaves are equal. */
  lemma {:induction false} ReflectsUnique<T>(h: (T, T) -> T, zero: T, depth: nat, t: Tree<T>, u: Tree<T>, leaves: seq<T>)
    requires Reflects(h, zero, depth, t, leaves) && Reflects(h, zero, depth, u, leaves)
    ensures t == u
  {
    assert t.filled == u.filled && t.roots == u.roots;
  }

  // ---------- the root window ----------

  /** The slot under the cursor holds the current root. */
  lemma {:induction false} CurrentRoot<T>(h: (T, T) -> T, zero: T, depth: nat, t: Tree<T>, leaves: seq<T>)
    requires Reflects(h, zero, depth, t, leaves)
    ensures t.roots[t.cursor] == Root(h, zero, depth, leaves)
  {
    var n := |leaves|;
    assert t.roots[t.cursor] == RingSlot(h, zero, depth, leaves, n % ROOT_HISTORY);
    assert (n - n % ROOT_HISTORY) % ROOT_HISTORY == 0;
    assert leaves[..n] == leaves;
  }

  /** Exactly the non-zero roots of the last 32 prefixes are known. */
  lemma {:induction false} RootWindow<T>(h: (T, T) -> T, zero: T, depth: nat, t: Tree<T>, leaves: seq<T>, root: T)
    requires Reflects(h, zero, depth, t, leaves)
    ensures IsKnownRoot(t, zero, root) <==>
            root != zero && exists k :: 0 <= k <= |leaves| < k + ROOT_HISTORY && Root(h, zero, depth, leaves[..k]) == root
  {
    var n := |leaves|;
    if IsKnownRoot(t, zero, root) {
      var j :| 0 <= j < ROOT_HISTORY && t.roots[j] == root;
      var k := n - (n - j) % ROOT_HISTORY;
      assert 0 <= k <= n < k + ROOT_HISTORY && Root(h, zero, depth, leaves[..k]) == root;
    }
    forall k | 0 <= k <= n < k + ROOT_HISTORY && Root(h, zero, depth, leaves[..k]) == root
      ensures root in t.roots
    {
      var j := k % ROOT_HISTORY;
      assert n - (n - j) % ROOT_HISTORY == k;
      assert t.roots[j] == root;
    }
  }

  // ---------- authentication paths ----------

  /** Fold a leaf up a path; `right[i]` says that the running node is the right child at level `i`. */
  function Fold<T>(h: (T, T) -> T, leaf: T, siblings: seq<T>, right: seq<bool>): T
    requires |siblings| == |right|
  {
    if siblings == [] then leaf else
    var top := |siblings| - 1;
    var current := Fold(h, leaf, siblings[..top], right[..top]);
    if right[top] then h(siblings[top], current) else h(current, siblings[top])
  }

  function Sibling(j: nat): nat {
    if j % 2 == 0 then j + 1 else j - 1
  }

  /** The true siblings of leaf `index` in the complete tree, and its child directions. */
  function Siblings<T>(h: (T, T) -> T, zero: T, leaves: seq<T>, index: nat, depth: nat): (s: seq<T>)
    ensures |s| == depth
    decreases depth, leaves
  {
    if depth == 0 then []
    else Siblings(h, zero, leaves, index, depth - 1) + [Node(h, zero, leaves, depth - 1, Sibling(Shr(index, depth - 1)))]
  }

  function Directions(index: nat, depth: nat): (r: seq<bool>)
    ensures |r| == depth
    decreases depth, index
  {
    if depth == 0 then [] else Directions(index, depth - 1) + [Shr(index, depth - 1) % 2 == 1]
  }

  /** The number a path's directions spell, least significant bit first. */
  function Position(right: seq<bool>): nat {
    if right == [] then 0 else
    var top := |right| - 1;
    Position(right[..top]) + if right[top] then Pow2(top) else 0
  }

  /** A node's parent combines it with its sibling, in the order of their positions. */
  lemma {:induction false} ParentOf<T>(h: (T, T) -> T, zero: T, leaves: seq<T>, level: nat, j: nat)
    ensures var node, sibling := Node(h, zero, leaves, level, j), Node(h, zero, leaves, level, Sibling(j));
      Node(h, zero, leaves, level + 1, j / 2) == if j % 2 == 1 then h(sibling, node) else h(node, sibling)
  {
    assert j == 2 * (j / 2) + j % 2;
  }

  lemma {:induction false} FoldTop<T>(h: (T, T) -> T, leaf: T, siblings: seq<T>, right: seq<bool>, sibling: T, isRight: bool)
    requires |siblings| == |right|
    ensures var current := Fold(h, leaf, siblings, right);
      Fold(h, leaf, siblings + [sibling], right + [isRight]) == if isRight then h(sibling, current) else h(current, sibling)
  {
    assert (siblings + [sibling])[..|siblings|] == siblings && (right + [isRight])[..|siblings|] == right;
  }

  /** Folding a leaf along its true path climbs the complete tree. */
  lemma {:induction false} FoldClimbs<T>(h: (T, T) -> T, zero: T, leaves: seq<T>, index: nat, depth: nat)
    ensures Fold(h, Node(h, zero, leaves, 0, index), Siblings(h, zero, leaves, index, depth), Directions(index, depth))
         == Node(h, zero, leaves, depth, Shr(index, depth))
  {
    if depth != 0 {
      FoldClimbs(h, zero, leaves, index, depth - 1);
      var j := Shr(index, depth - 1);
      ParentOf(h, zero, leaves, depth - 1, j);
      FoldTop(h, Node(h, zero, leaves, 0, index), Siblings(h, zero, leaves, index, depth - 1), Directions(index, depth - 1),
              Node(h, zero, leaves, depth - 1, Sibling(j)), j % 2 == 1);
    }
  }

  /** A path rebuilt for any index in range folds to the root. */
  lemma {:induction false} PathReachesRoot<T>(h: (T, T) -> T, zero: T, leaves: seq<T>, index: nat, depth: nat)
    requires index < |leaves| && index < Pow2(depth)
    ensures Fold(h, leaves[index], Siblings(h, zero, leaves, index, depth), Directions(index, depth))
         == Root(h, zero, depth, leaves)
  {
    FoldClimbs(h, zero, leaves, index, depth);
    ShrVanishes(index, depth);
  }

  /** The rebuilt directions spell the index back. */
  lemma {:induction false} DirectionsSpell(index: nat, depth: nat)
    ensures Position(Directions(index, depth)) + Pow2(depth) * Shr(index, depth) == index
  {
    if depth != 0 {
      DirectionsSpell(index, depth - 1);
      assert Directions(index, depth)[..depth - 1] == Directions(index, depth - 1);
      Halve(Pow2(depth - 1), Shr(index, depth - 1));
    }
  }

  // ---------- change of representation ----------

  function MapSeq<A, B>(f: A -> B, s: seq<A>): (r: seq<B>)
    ensures |r| == |s|
    ensures forall i :: 0 <= i < |s| ==> r[i] == f(s[i])
  {
    seq(|s|, i requires 0 <= i < |s| => f(s[i]))
  }

  function MapTree<A, B>(f: A -> B, t: Tree<A>): Tree<B> {
    Tree(t.next, MapSeq(f, t.filled), MapSeq(f, t.roots), t.cursor)
  }

  /** `f` carries hash `h` to hash `g`. */
  ghost predicate Homomorphic<A(!new), B>(f: A -> B, h: (A, A) -> A, g: (B, B) -> B) {
    forall a, b :: f(h(a, b)) == g(f(a), f(b))
  }

  lemma {:induction false} ClimbCommutes<A(!new), B>(f: A -> B, h: (A, A) -> A, g: (B, B) -> B, zeros: seq<A>,
                                                     filled: seq<A>, level: nat, index: nat, current: A)
    requires Homomorphic(f, h, g)
    requires level <= |filled| == |zeros|
    ensures var (filled', root) := Climb(h, zeros, filled, level, index, current);
      Climb(g, MapSeq(f, zeros), MapSeq(f, filled), level, index, f(current)) == (MapSeq(f, filled'), f(root))
    decreases |filled| - level
  {
    if level < |filled| {
      if index % 2 == 0 {
        assert MapSeq(f, filled)[level := f(current)] == MapSeq(f, filled[level := current]);
        ClimbCommutes(f, h, g, zeros, filled[level := current], level + 1, index / 2, h(current, zeros[level]));
      } else {
        ClimbCommutes(f, h, g, zeros, filled, level + 1, index / 2, h(filled[level], current));
      }
    }
  }

  /** Trees over different digest representations move in lockstep when their hashes agree. */
  lemma {:induction false} InsertCommutes<A(!new), B>(f: A -> B, h: (A, A) -> A, g: (B, B) -> B, zeros: seq<A>, t: Tree<A>, leaf: A)
    requires Homomorphic(f, h, g)
    requires Shaped(t, |zeros|)
    ensures Shaped(MapTree(f, t), |MapSeq(f, zeros)|)
    ensures Insert(g, MapSeq(f, zeros), MapTree(f, t), f(leaf)) == MapTree(f, Insert(h, zeros, t, leaf))
    ensures Full(MapTree(f, t)) == Full(t)
  {
    ClimbCommutes(f, h, g, zeros, t.filled, 0, t.next, leaf);
    var (filled, root) := Climb(h, zeros, t.filled, 0, t.next, leaf);
    var cursor := (t.cursor + 1) % ROOT_HISTORY;
    assert MapSeq(f, t.roots)[cursor := f(root)] == MapSeq(f, t.roots[cursor := root]);
  }

  /** Whole leaf lists: building over the images is the image of building. */
  lemma {:induction false} BuildCommutes<A(!new), B>(f: A -> B, h: (A, A) -> A, g: (B, B) -> B, zero: A, zeros: seq<A>, leaves: seq<A>)
    requires Homomorphic(f, h, g)
    requires zeros != []
    ensures Build(g, f(zero), MapSeq(f, zeros), MapSeq(f, leaves)) == MapTree(f, Build(h, zero, zeros, leaves))
  {
    if leaves == [] {
      assert New(g, f(zero), MapSeq(f, zeros)).roots == MapSeq(f, New(h, zero, zeros).roots);
    } else {
      var n := |leaves| - 1;
      BuildCommutes(f, h, g, zero, zeros, leaves[..n]);
      InsertCommutes(f, h, g, zeros, Build(h, zero, zeros, leaves[..n]), leaves[n]);
      assert MapSeq(f, leaves)[..n] == MapSeq(f, leaves[..n]);
    }
  }
}
