/** The Solana program's zero-copy tree: `insert` and the root lookup on the raw bytes of the tree account. */
module AccountTree {
  import opened Bytes
  import opened Merkle
  import opened Wrappers

  const OFF_FILLED: nat := 8
  const OFF_ROOTS: nat := OFF_FILLED + TREE_DEPTH * 32
  const OFF_CRI: nat := OFF_ROOTS + ROOT_HISTORY * 32
  const SIZE: nat := OFF_CRI + 1

  const ZERO32: Bytes32 := Zeros(32)

  /** The `i`-th 32-byte word from `off`. */
  function Word(data: seq<byte>, off: nat, i: nat): Bytes32
    requires off + 32 * i + 32 <= |data|
  {
    data[off + 32 * i..off + 32 * i + 32]
  }

  function Words(data: seq<byte>, off: nat, count: nat): (ws: seq<Bytes32>)
    requires off + 32 * count <= |data|
    ensures |ws| == count
    ensures forall i :: 0 <= i < count ==> ws[i] == Word(data, off, i)
  {
    seq(count, i requires 0 <= i < count => Word(data, off, i))
  }

  /** The tree that the account bytes encode. */
  function Decode(data: seq<byte>): (t: Tree<Bytes32>)
    requires |data| == SIZE
    ensures Shaped(t, TREE_DEPTH)
  {
    Tree(LeValue(data[..8]), Words(data, OFF_FILLED, TREE_DEPTH), Words(data, OFF_ROOTS, ROOT_HISTORY), data[OFF_CRI])
  }

  /** Where each field sits in the 1801 bytes of the account. */
  lemma {:induction false} RawLayout(data: seq<byte>)
    requires |data| == SIZE
    ensures |data| == 1801 && var t := Decode(data);
      && |t.filled| == 24 && |t.roots| == 32
      && t.next == LeValue(data[0..8]) && t.cursor == data[1800]
      && (forall i :: 0 <= i < 24 ==> t.filled[i] == data[8 + 32 * i..40 + 32 * i])
      && (forall j :: 0 <= j < 32 ==> t.roots[j] == data[776 + 32 * j..808 + 32 * j])
  {}

  /** Writing one word changes that word of its table and nothing else in it. */
  lemma {:induction false} PatchWord(data: seq<byte>, off: nat, count: nat, i: nat, w: Bytes32)
    requires off + 32 * count <= |data| && i < count
    ensures Words(Patch(data, off + 32 * i, w), off, count) == Words(data, off, count)[i := w]
  {
    var p := Patch(data, off + 32 * i, w);
    forall k | 0 <= k < count
      ensures Word(p, off, k) == if k == i then w else Word(data, off, k)
    {
      if k != i {
        PatchElsewhere(data, off + 32 * i, w, off + 32 * k, off + 32 * k + 32);
      }
    }
  }

  /** Writing outside a table leaves the table alone. */
  lemma {:induction false} PatchOutside(data: seq<byte>, at: nat, b: seq<byte>, off: nat, count: nat)
    requires at + |b| <= |data| && off + 32 * count <= |data|
    requires at + |b| <= off || off + 32 * count <= at
    ensures Words(Patch(data, at, b), off, count) == Words(data, off, count)
  {
    forall k | 0 <= k < count
      ensures Word(Patch(data, at, b), off, k) == Word(data, off, k)
    {
      PatchElsewhere(data, at, b, off + 32 * k, off + 32 * k + 32);
    }
  }

  /** Each field is written without touching another. */
  lemma {:induction false} WriteFilled(data: seq<byte>, i: nat, w: Bytes32)
    requires |data| == SIZE && i < TREE_DEPTH
    ensures var t := Decode(data);
      Decode(Patch(data, OFF_FILLED + 32 * i, w)) == t.(filled := t.filled[i := w])
  {
    PatchWord(data, OFF_FILLED, TREE_DEPTH, i, w);
    PatchOutside(data, OFF_FILLED + 32 * i, w, OFF_ROOTS, ROOT_HISTORY);
    PatchElsewhere(data, OFF_FILLED + 32 * i, w, 0, 8);
  }

  lemma {:induction false} WriteRoot(data: seq<byte>, j: nat, w: Bytes32)
    requires |data| == SIZE && j < ROOT_HISTORY
    ensures var t := Decode(data);
      Decode(Patch(data, OFF_ROOTS + 32 * j, w)) == t.(roots := t.roots[j := w])
  {
    PatchWord(data, OFF_ROOTS, ROOT_HISTORY, j, w);
    PatchOutside(data, OFF_ROOTS + 32 * j, w, OFF_FILLED, TREE_DEPTH);
    PatchElsewhere(data, OFF_ROOTS + 32 * j, w, 0, 8);
  }

  lemma {:induction false} WriteCursor(data: seq<byte>, c: byte)
    requires |data| == SIZE
    ensures Decode(Patch(data, OFF_CRI, [c])) == Decode(data).(cursor := c)
  {
    var p := Patch(data, OFF_CRI, [c]);
    assert p[OFF_CRI] == p[OFF_CRI..OFF_CRI + 1][0];
    PatchOutside(data, OFF_CRI, [c], OFF_FILLED, TREE_DEPTH);
    PatchOutside(data, OFF_CRI, [c], OFF_ROOTS, ROOT_HISTORY);
    PatchElsewhere(data, OFF_CRI, [c], 0, 8);
  }

  lemma {:induction false} WriteNext(data: seq<byte>, n: u64)
    requires |data| == SIZE
    ensures Decode(Patch(data, 0, LeBytes(n, 8))) == Decode(data).(next := n)
  {
    LeU64(n);
    PatchOutside(data, 0, LeBytes(n, 8), OFF_FILLED, TREE_DEPTH);
    PatchOutside(data, 0, LeBytes(n, 8), OFF_ROOTS, ROOT_HISTORY);
  }

  const E_TREE_FULL: nat := 2

  lemma {:induction false} Capacity()
    ensures Pow2(TREE_DEPTH) == 0x100_0000
  {
    assert Pow2(12) == 4096;
    assert Pow2(24) == 16777216;
  }

  // ---------- the serialised form ----------

  function Join(ws: seq<Bytes32>): (s: seq<byte>)
    ensures |s| == 32 * |ws|
  {
    if ws == [] then [] else Join(ws[..|ws| - 1]) + ws[|ws| - 1]
  }

  lemma {:induction false} JoinAt(ws: seq<Bytes32>, i: nat)
    requires i < |ws|
    ensures Word(Join(ws), 0, i) == ws[i]
  {
    var top := |ws| - 1;
    if i < top {
      JoinAt(ws[..top], i);
      assert Word(Join(ws), 0, i) == Word(Join(ws[..top]), 0, i);
    }
  }

  /** The borsh layout of the tree account. */
  function Encode(t: Tree<Bytes32>): (s: seq<byte>)
    requires Shaped(t, TREE_DEPTH) && t.next < U64_BOUND && t.cursor < 256
    ensures |s| == SIZE
  {
    LeBytes(t.next, 8) + Join(t.filled) + Join(t.roots) + [t.cursor]
  }

  lemma {:induction false} JoinInsideAt(s: seq<byte>, pre: seq<byte>, ws: seq<Bytes32>, post: seq<byte>, i: nat)
    requires s == pre + Join(ws) + post && i < |ws|
    ensures Word(s, |pre|, i) == ws[i]
  {
    JoinAt(ws, i);
    SliceInside(pre, Join(ws), post, 32 * i, 32 * i + 32);
  }

  lemma {:induction false} JoinInside(s: seq<byte>, pre: seq<byte>, ws: seq<Bytes32>, post: seq<byte>)
    requires s == pre + Join(ws) + post
    ensures Words(s, |pre|, |ws|) == ws
  {
    var off := |pre|;
    forall i | 0 <= i < |ws|
      ensures Word(s, off, i) == ws[i]
    {
      JoinInsideAt(s, pre, ws, post, i);
    }
  }

  /** Reading the account back gives the tree that was serialised. */
  lemma {:induction false} DecodeEncode(t: Tree<Bytes32>)
    requires Shaped(t, TREE_DEPTH) && t.next < U64_BOUND && t.cursor < 256
    ensures Decode(Encode(t)) == t
  {
    var n, f, r, c := LeBytes(t.next, 8), Join(t.filled), Join(t.roots), [t.cursor];
    LeU64(t.next);
    assert Encode(t)[..8] == n;
    assert Encode(t) == n + f + (r + c);
    JoinInside(Encode(t), n, t.filled, r + c);
    JoinInside(Encode(t), n + f, t.roots, c);
  }

  /** `initialize_pool` serialises the empty tree into the account. */
  method InitializeTree(h: (Bytes32, Bytes32) -> Bytes32, zeros: seq<Bytes32>, emptyRoot: Bytes32, data: array<byte>)
    requires data.Length == SIZE && |zeros| == TREE_DEPTH
    requires emptyRoot == h(zeros[TREE_DEPTH - 1], zeros[TREE_DEPTH - 1])
    modifies data
    ensures Decode(data[..]) == New(h, ZERO32, zeros)
  {
    var roots: seq<Bytes32> := seq(ROOT_HISTORY, j => if j == 0 then emptyRoot else ZERO32);
    var t := Tree(0, zeros, roots, 0);
    assert t == New(h, ZERO32, zeros);
    DecodeEncode(t);
    CopyInto(data, 0, Encode(t));
    assert data[..] == Encode(t);
  }

  /** The level loop: frontier words are overwritten in place, and the new root comes back. */
  method TreeClimb(h: (Bytes32, Bytes32) -> Bytes32, zeros: seq<Bytes32>, data: array<byte>, next: nat, leaf: Bytes32)
    returns (current: Bytes32)
    requires data.Length == SIZE && |zeros| == TREE_DEPTH
    modifies data
    ensures var t := Decode(old(data[..]));
      var (filled, root) := Climb(h, zeros, t.filled, 0, next, leaf);
      Decode(data[..]) == t.(filled := filled) && current == root
  {
    ghost var t := Decode(data[..]);
    var index := next;
    current := leaf;
    for i := 0 to TREE_DEPTH
      invariant var u := Decode(data[..]);
        && u == t.(filled := u.filled)
        && Climb(h, zeros, u.filled, i, index, current) == Climb(h, zeros, t.filled, 0, next, leaf)
    {
      var off := OFF_FILLED + 32 * i;
      ghost var before := data[..];
      var left, right;
      if index % 2 == 0 {
        WriteFilled(before, i, current);
        CopyInto(data, off, current);
        left, right := current, zeros[i];
      } else {
        left, right := data[off..off + 32], current;
        assert left == Word(before, OFF_FILLED, i);
      }
      current := h(left, right);
      index := index / 2;
    }
  }

  /** The ring write, the cursor and the leaf count, one after the other. */
  lemma {:induction false} RecordWrites(s0: seq<byte>, s1: seq<byte>, s2: seq<byte>, s3: seq<byte>, cri: byte, next: u64, root: Bytes32)
    requires |s0| == SIZE && cri < ROOT_HISTORY
    requires s1 == Patch(s0, OFF_ROOTS + 32 * cri, root) && s2 == Patch(s1, OFF_CRI, [cri]) && s3 == Patch(s2, 0, LeBytes(next, 8))
    ensures var t := Decode(s0); Decode(s3) == Tree(next, t.filled, t.roots[cri := root], cri)
  {
    WriteRoot(s0, cri, root);
    WriteCursor(s1, cri);
    WriteNext(s2, next);
  }

  method TreeRecord(data: array<byte>, next: u64, root: Bytes32)
    requires data.Length == SIZE
    modifies data
    ensures var t := Decode(old(data[..]));
      var cursor := (t.cursor + 1) % ROOT_HISTORY;
      Decode(data[..]) == Tree(next, t.filled, t.roots[cursor := root], cursor)
  {
    ghost var s0 := data[..];
    var cri := (data[OFF_CRI] + 1) % ROOT_HISTORY;
    CopyInto(data, OFF_ROOTS + 32 * cri, root);
    ghost var s1 := data[..];
    CopyInto(data, OFF_CRI, [cri]);
    ghost var s2 := data[..];
    CopyInto(data, 0, LeBytes(next, 8));
    RecordWrites(s0, s1, s2, data[..], cri, next, root);
  }

  method TreeInsert(h: (Bytes32, Bytes32) -> Bytes32, zeros: seq<Bytes32>, data: array<byte>, leaf: Bytes32)
    returns (r: Result<nat, nat>)
    requires data.Length == SIZE && |zeros| == TREE_DEPTH
    modifies data
    ensures var t := Decode(old(data[..]));
      && r == (if Full(t) then Err(E_TREE_FULL) else Ok(t.next))
      && (r.Ok? ==> Decode(data[..]) == Insert(h, zeros, t, leaf))
      && (r.Err? ==> data[..] == old(data[..]))
  {
    Capacity();
    assert data[..8] == data[..][..8];
    var nextIndex := LeValue(data[..8]);
    if nextIndex >= 0x100_0000 {
      return Err(E_TREE_FULL);
    }
    var root := TreeClimb(h, zeros, data, nextIndex, leaf);
    TreeRecord(data, nextIndex + 1, root);
    r := Ok(nextIndex);
  }

  method TreeIsKnownRoot(data: array<byte>, root: Bytes32) returns (known: bool)
    requires data.Length == SIZE
    ensures known == IsKnownRoot(Decode(data[..]), ZERO32, root)
  {
    if root == ZERO32 {
      return false;
    }
    ghost var roots := Decode(data[..]).roots;
    for j := 0 to ROOT_HISTORY
      invariant root !in roots[..j]
    {
      assert data[OFF_ROOTS + 32 * j..OFF_ROOTS + 32 * j + 32] == Word(data[..], OFF_ROOTS, j) == roots[j];
      if data[OFF_ROOTS + 32 * j..OFF_ROOTS + 32 * j + 32] == root {
        return true;
      }
    }
    assert roots[..ROOT_HISTORY] == roots;
    return false;
  }
}
