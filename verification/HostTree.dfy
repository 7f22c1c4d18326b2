/** The shared host library's tree: `zero_hashes`, `CommitmentTree`, `merkle_root_be` and `reconstruct_path`. */
module HostTree {
  import opened Wrappers
  import opened Merkle

  datatype TreeError = TreeFull

  method ZeroHashes<T>(h: (T, T) -> T, zero: T) returns (zeros: seq<T>)
    ensures |zeros| == TREE_DEPTH && IsZeroTable(h, zero, zeros)
  {
    var z := new T[TREE_DEPTH](_ => zero);
    for i := 1 to TREE_DEPTH
      invariant forall k :: 0 <= k < i ==> z[k] == ZeroHash(h, zero, k)
    {
      z[i] := h(z[i - 1], z[i - 1]);
    }
    zeros := z[..];
  }

  class CommitmentTree<T(==)> {
    var nextIndex: nat
    const filledSubtrees: array<T>
    const roots: array<T>
    var currentRootIndex: nat

    ghost predicate Valid()
      reads this
    {
      filledSubtrees != roots && filledSubtrees.Length == TREE_DEPTH && roots.Length == ROOT_HISTORY &&
      currentRootIndex < ROOT_HISTORY
    }

    ghost function View(): (t: Tree<T>)
      requires Valid()
      reads this, filledSubtrees, roots
      ensures Shaped(t, TREE_DEPTH)
    {
      Tree(nextIndex, filledSubtrees[..], roots[..], currentRootIndex)
    }

    constructor (h: (T, T) -> T, zero: T)
      ensures Valid() && fresh(filledSubtrees) && fresh(roots)
      ensures Reflects(h, zero, TREE_DEPTH, View(), [])
    {
      var zeros := ZeroHashes(h, zero);
      filledSubtrees := new T[TREE_DEPTH](i requires 0 <= i < TREE_DEPTH => zeros[i]);
      var top := zeros[TREE_DEPTH - 1];
      roots := new T[ROOT_HISTORY](j => if j == 0 then h(top, top) else zero);
      nextIndex, currentRootIndex := 0, 0;
      new;
      NewReflects(h, zero, zeros);
      assert View() == New(h, zero, zeros);
    }

    method Insert(h: (T, T) -> T, zeros: seq<T>, leaf: T) returns (r: Result<nat, TreeError>)
      requires Valid() && |zeros| == TREE_DEPTH
      modifies this, filledSubtrees, roots
      ensures Valid()
      ensures r == if Full(old(View())) then Err(TreeFull) else Ok(old(nextIndex))
      ensures View() == if r.Ok? then Merkle.Insert(h, zeros, old(View()), leaf) else old(View())
    {
      if nextIndex >= Pow2(TREE_DEPTH) {
        return Err(TreeFull);
      }
      var leafIndex, index, current := nextIndex, nextIndex, leaf;
      for i := 0 to TREE_DEPTH
        invariant Climb(h, zeros, filledSubtrees[..], i, index, current) ==
                  Climb(h, zeros, old(filledSubtrees[..]), 0, old(nextIndex), leaf)
        invariant roots[..] == old(roots[..]) && nextIndex == old(nextIndex) && currentRootIndex == old(currentRootIndex)
      {
        ghost var before := filledSubtrees[..];
        var left, right;
        if index % 2 == 0 {
          filledSubtrees[i] := current;
          left, right := current, zeros[i];
          assert filledSubtrees[..] == before[i := current];
        } else {
          left, right := filledSubtrees[i], current;
        }
        current := h(left, right);
        index := index / 2;
      }
      currentRootIndex := (currentRootIndex + 1) % ROOT_HISTORY;
      roots[currentRootIndex] := current;
      nextIndex := nextIndex + 1;
      r := Ok(leafIndex);
    }

    method CurrentRoot(ghost h: (T, T) -> T, ghost zero: T, ghost leaves: seq<T>) returns (root: T)
      requires Valid() && Reflects(h, zero, TREE_DEPTH, View(), leaves)
      ensures root == Root(h, zero, TREE_DEPTH, leaves)
    {
      root := roots[currentRootIndex];
      Merkle.CurrentRoot(h, zero, TREE_DEPTH, View(), leaves);
    }

    /** Known means: a non-zero root of one of the last 32 prefixes of the inserted leaves. */
    method KnowsRoot(ghost h: (T, T) -> T, zero: T, root: T, ghost leaves: seq<T>) returns (known: bool)
      requires Valid() && Reflects(h, zero, TREE_DEPTH, View(), leaves)
      ensures known == IsKnownRoot(View(), zero, root)
      ensures known <==>
              root != zero && exists k :: 0 <= k <= |leaves| < k + ROOT_HISTORY && Root(h, zero, TREE_DEPTH, leaves[..k]) == root
    {
      RootWindow(h, zero, TREE_DEPTH, View(), leaves, root);
      if root == zero {
        return false;
      }
      for j := 0 to ROOT_HISTORY
        invariant root !in roots[..j]
      {
        if roots[j] == root {
          return true;
        }
      }
      return false;
    }
  }

  /** `merkle_root_be`: the path is cut to the shorter of the two lists, as `zip` does. */
  method MerkleRoot<T>(h: (T, T) -> T, leaf: T, siblings: seq<T>, right: seq<bool>) returns (current: T)
    ensures var n := if |siblings| <= |right| then |siblings| else |right|;
      current == Fold(h, leaf, siblings[..n], right[..n])
  {
    current := leaf;
    var i := 0;
    while i < |siblings| && i < |right|
      invariant 0 <= i <= |siblings| && i <= |right|
      invariant current == Fold(h, leaf, siblings[..i], right[..i])
    {
      assert siblings[..i + 1][..i] == siblings[..i] && right[..i + 1][..i] == right[..i];
      current := if right[i] then h(siblings[i], current) else h(current, siblings[i]);
      i := i + 1;
    }
  }

  /** The node at position `j`, when `level` lists the non-empty nodes of one height. */
  function At<T>(level: seq<T>, empty: T, j: nat): T {
    if j < |level| then level[j] else empty
  }

  ghost predicate IsLevel<T>(h: (T, T) -> T, zero: T, leaves: seq<T>, level: seq<T>, i: nat) {
    forall j: nat :: Node(h, zero, leaves, i, j) == At(level, ZeroHash(h, zero, i), j)
  }

  lemma {:induction false} NextLevel<T>(h: (T, T) -> T, zero: T, leaves: seq<T>, level: seq<T>, next: seq<T>, i: nat)
    requires IsLevel(h, zero, leaves, level, i)
    requires |level| <= 2 * |next|
    requires forall k :: 0 <= k < |next| ==>
      next[k] == h(At(level, ZeroHash(h, zero, i), 2 * k), At(level, ZeroHash(h, zero, i), 2 * k + 1))
    ensures IsLevel(h, zero, leaves, next, i + 1)
  {
    var up := i + 1;
    forall k: nat
      ensures Node(h, zero, leaves, up, k) == At(next, ZeroHash(h, zero, up), k)
    {
      assert Node(h, zero, leaves, i, 2 * k) == At(level, ZeroHash(h, zero, i), 2 * k);
      assert Node(h, zero, leaves, i, 2 * k + 1) == At(level, ZeroHash(h, zero, i), 2 * k + 1);
    }
  }

  /** One pass of the fold: from the nodes of height `i` to those of height `i + 1`. */
  method FoldLevel<T>(h: (T, T) -> T, ghost zero: T, empty: T, level: seq<T>, ghost i: nat, ghost leaves: seq<T>) returns (next: seq<T>)
    requires empty == ZeroHash(h, zero, i)
    requires IsLevel(h, zero, leaves, level, i)
    ensures next != [] && IsLevel(h, zero, leaves, next, i + 1)
  {
    next := [];
    var j := 0;
    while j < |level|
      invariant j == 2 * |next|
      invariant forall k :: 0 <= k < |next| ==> next[k] == h(At(level, empty, 2 * k), At(level, empty, 2 * k + 1))
    {
      var l := level[j];
      var r := if j + 1 < |level| then level[j + 1] else empty;
      next := next + [h(l, r)];
      j := j + 2;
    }
    if next == [] {
      next := [h(empty, empty)];
    }
    NextLevel(h, zero, leaves, level, next, i);
  }

  /** The returned path is the leaf's true path in the complete tree, and the root is the tree's. */
  method ReconstructPath<T>(h: (T, T) -> T, ghost zero: T, zeros: seq<T>, leaves: seq<T>, index: nat)
    returns (siblings: seq<T>, right: seq<bool>, root: T)
    requires |zeros| == TREE_DEPTH && IsZeroTable(h, zero, zeros)
    ensures siblings == Siblings(h, zero, leaves, index, TREE_DEPTH)
    ensures right == Directions(index, TREE_DEPTH)
    ensures root == Root(h, zero, TREE_DEPTH, leaves)
  {
    var level, idx := leaves, index;
    siblings, right := [], [];
    for i := 0 to TREE_DEPTH
      invariant IsLevel(h, zero, leaves, level, i)
      invariant i != 0 ==> level != []
      invariant idx == Shr(index, i)
      invariant siblings == Siblings(h, zero, leaves, index, i)
      invariant right == Directions(index, i)
    {
      var sibling := if idx % 2 == 0 then idx + 1 else idx - 1;
      siblings := siblings + [At(level, zeros[i], sibling)];
      right := right + [idx % 2 == 1];
      level := FoldLevel(h, zero, zeros[i], level, i, leaves);
      idx := idx / 2;
    }
    root := level[0];
  }
}
