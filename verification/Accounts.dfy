/** The nullifier account and the attestation account of the Solana program, as raw bytes. */
module Accounts {
  import opened Bytes
  import opened Wrappers
  import opened AccountTree
  import opened Registers

  const E_ALREADY_SPENT: nat := 3
  const E_REALLOC: nat := 100 // the runtime refuses to grow the account past its limit

  const OFF_NULLIFIERS: nat := 12

  class NullifierAccount {
    var data: seq<byte>

    function Count(): nat
      requires 8 <= |data|
      reads this
    {
      LeValue(data[..8])
    }

    ghost predicate Valid()
      reads this
    {
      && OFF_NULLIFIERS <= |data|
      && |data| == OFF_NULLIFIERS + 32 * Count()
      && LeValue(data[8..12]) == Count() % 0x1_0000_0000
    }

    ghost function View(): seq<Bytes32>
      requires Valid()
      reads this
    {
      Words(data, OFF_NULLIFIERS, Count())
    }

    constructor ()
      ensures Valid() && View() == []
    {
      data := Zeros(12);
      new;
      ZerosAre(data[..8]);
      ZerosAre(data[8..12]);
    }

    method Contains(n: Bytes32) returns (found: bool)
      requires Valid()
      ensures found <==> n in View()
    {
      var count := Count();
      ghost var view := View();
      for i := 0 to count
        invariant n !in view[..i]
      {
        assert view[i] == Word(data, OFF_NULLIFIERS, i);
        if Word(data, OFF_NULLIFIERS, i) == n {
          return true;
        }
      }
      assert view[..count] == view;
      return false;
    }

    /** Grow by one word, write it, and bump both counters. `limit` is the runtime's account size limit. */
    method Append(n: Bytes32, limit: u64) returns (r: Result<(), nat>)
      requires Valid()
      modifies this
      ensures Valid()
      ensures r == if OFF_NULLIFIERS + 32 * (old(Count()) + 1) <= limit then Ok(()) else Err(E_REALLOC)
      ensures View() == if r.Ok? then old(View()) + [n] else old(View())
    {
      var count := Count();
      var newLen := OFF_NULLIFIERS + (count + 1) * 32;
      if limit < newLen {
        return Err(E_REALLOC);
      }
      ghost var s0 := data;
      data := data + Zeros(newLen - |data|);
      data := Patch(data, OFF_NULLIFIERS + 32 * count, n);
      ghost var s1 := data;
      data := Patch(data, 0, LeBytes(count + 1, 8));
      data := Patch(data, 8, LeBytes((count + 1) % 0x1_0000_0000, 4));
      AppendLayout(s0, s1, data, count, n);
      return Ok(());
    }

    /** The double-spend check and the append that every spending instruction performs. */
    method Spend(n: Bytes32, limit: u64) returns (r: Result<(), nat>)
      requires Valid() && NoDup(View())
      modifies this
      ensures Valid() && NoDup(View())
      ensures r == Err(E_ALREADY_SPENT) <==> TryInsert(old(View()), n).Err?
      ensures View() == if r.Ok? then TryInsert(old(View()), n).value else old(View())
    {
      var found := Contains(n);
      if found {
        return Err(E_ALREADY_SPENT);
      }
      r := Append(n, limit);
    }

    /** Where the counters and the entries sit. */
    lemma {:induction false} RawLayout()
      requires Valid()
      ensures |data| == 12 + 32 * |View()|
      ensures LeValue(data[0..8]) == |View()| && LeValue(data[8..12]) == |View()| % 0x1_0000_0000
      ensures forall i :: 0 <= i < |View()| ==> View()[i] == data[12 + 32 * i..44 + 32 * i]
    {
      assert data[0..8] == data[..8];
    }
  }

  lemma {:induction false} ZerosAre(s: seq<byte>)
    requires forall i :: 0 <= i < |s| ==> s[i] == 0
    ensures LeValue(s) == 0
  {
    if s != [] { ZerosAre(s[1..]); }
  }

  /** Both counters are written, and no byte of the entries. */
  lemma {:induction false} HeaderLayout(s1: seq<byte>, s: seq<byte>, count: u64)
    requires OFF_NULLIFIERS <= |s1|
    requires s == Patch(Patch(s1, 0, LeBytes(count, 8)), 8, LeBytes(count % 0x1_0000_0000, 4))
    ensures LeValue(s[..8]) == count && LeValue(s[8..12]) == count % 0x1_0000_0000
    ensures s[OFF_NULLIFIERS..] == s1[OFF_NULLIFIERS..]
  {
    var low := count % 0x1_0000_0000;
    LeU64(count);
    LeU32(low);
    PatchElsewhere(Patch(s1, 0, LeBytes(count, 8)), 8, LeBytes(low, 4), 0, 8);
  }

  lemma {:induction false} WordsAppend(s0: seq<byte>, s: seq<byte>, count: nat, n: Bytes32)
    requires |s0| == OFF_NULLIFIERS + 32 * count && |s| == |s0| + 32
    requires s[OFF_NULLIFIERS..|s0|] == s0[OFF_NULLIFIERS..] && s[|s0|..] == n
    ensures Words(s, OFF_NULLIFIERS, count + 1) == Words(s0, OFF_NULLIFIERS, count) + [n]
  {
    forall i | 0 <= i < count
      ensures Word(s, OFF_NULLIFIERS, i) == Word(s0, OFF_NULLIFIERS, i)
    {
      var off := OFF_NULLIFIERS + 32 * i;
      assert forall k :: off <= k < off + 32 ==> s[k] == s[OFF_NULLIFIERS..|s0|][k - OFF_NULLIFIERS] == s0[k];
    }
    assert Word(s, OFF_NULLIFIERS, count) == s[|s0|..];
  }

  lemma {:induction false} AppendLayout(s0: seq<byte>, s1: seq<byte>, s: seq<byte>, count: nat, n: Bytes32)
    requires |s0| == OFF_NULLIFIERS + 32 * count && |s0| + 32 < U64_BOUND
    requires s1 == Patch(s0 + Zeros(32), |s0|, n)
    requires s == Patch(Patch(s1, 0, LeBytes(count + 1, 8)), 8, LeBytes((count + 1) % 0x1_0000_0000, 4))
    ensures LeValue(s[..8]) == count + 1 && LeValue(s[8..12]) == (count + 1) % 0x1_0000_0000
    ensures Words(s, OFF_NULLIFIERS, count + 1) == Words(s0, OFF_NULLIFIERS, count) + [n]
  {
    HeaderLayout(s1, s, count + 1);
    var m, end := |s0|, |s1|;
    SliceSlice(s, OFF_NULLIFIERS, end, 0, 32 * count);
    SliceSlice(s1, OFF_NULLIFIERS, end, 0, 32 * count);
    SliceSlice(s, OFF_NULLIFIERS, end, 32 * count, end - OFF_NULLIFIERS);
    SliceSlice(s1, OFF_NULLIFIERS, end, 32 * count, end - OFF_NULLIFIERS);
    assert s[OFF_NULLIFIERS..m] == s1[OFF_NULLIFIERS..m] == s0[OFF_NULLIFIERS..];
    assert s[m..] == s1[m..] == n;
    WordsAppend(s0, s, count, n);
  }

  // ---------- attestations ----------

  const XP_OFF_COUNT: nat := 32
  const XP_OFF_ENTRIES: nat := 40
  const XP_ENTRY_SIZE: nat := 65

  function EntryAt(data: seq<byte>, i: nat): Entry<Bytes32>
    requires XP_OFF_ENTRIES + XP_ENTRY_SIZE * (i + 1) <= |data|
  {
    var off := XP_OFF_ENTRIES + XP_ENTRY_SIZE * i;
    Entry(data[off..off + 32], data[off + 32..off + 64], data[off + 64] != 0)
  }

  function Entries(data: seq<byte>, count: nat): (es: seq<Entry<Bytes32>>)
    requires XP_OFF_ENTRIES + XP_ENTRY_SIZE * count <= |data|
    ensures |es| == count
    ensures forall i :: 0 <= i < count ==> es[i] == EntryAt(data, i)
  {
    seq(count, i requires 0 <= i < count => EntryAt(data, i))
  }

  class PendingAccount {
    var data: seq<byte>

    function Count(): nat
      requires XP_OFF_ENTRIES <= |data|
      reads this
    {
      LeValue(data[XP_OFF_COUNT..XP_OFF_ENTRIES])
    }

    function Operator(): Bytes32
      requires XP_OFF_ENTRIES <= |data|
      reads this
    {
      data[..32]
    }

    ghost predicate Valid()
      reads this
    {
      XP_OFF_ENTRIES <= |data| && |data| == XP_OFF_ENTRIES + XP_ENTRY_SIZE * Count()
    }

    ghost function View(): seq<Entry<Bytes32>>
      requires Valid()
      reads this
    {
      Entries(data, Count())
    }

    constructor (operator: Bytes32)
      ensures Valid() && View() == [] && Operator() == operator
    {
      data := operator + LeBytes(0, 8);
      new;
      LeU64(0);
      assert data[XP_OFF_COUNT..XP_OFF_ENTRIES] == LeBytes(0, 8);
    }

    /** The byte offset of the first entry for `n`, if any. */
    method Find(n: Bytes32) returns (found: bool, off: nat)
      requires Valid()
      ensures found == Attested(View(), n)
      ensures found ==> off == XP_OFF_ENTRIES + XP_ENTRY_SIZE * IndexOf(View(), n)
    {
      var count := Count();
      ghost var es := View();
      off := XP_OFF_ENTRIES;
      for i := 0 to count
        invariant off == XP_OFF_ENTRIES + XP_ENTRY_SIZE * i
        invariant i <= IndexOf(es, n)
      {
        assert es[i] == EntryAt(data, i);
        if data[off..off + 32] == n {
          return true, off;
        }
        off := off + XP_ENTRY_SIZE;
      }
      return false, off;
    }

    /** The flag byte of the entry at `off`. */
    method IsMinted(off: nat, ghost i: nat) returns (minted: bool)
      requires Valid() && i < |View()| && off == XP_OFF_ENTRIES + XP_ENTRY_SIZE * i
      ensures minted == View()[i].minted
    {
      assert View()[i] == EntryAt(data, i);
      minted := data[off + 64] != 0;
    }

    /** The bound destination of the entry at `off`. */
    method ExpectedHash(off: nat, ghost i: nat) returns (expected: Bytes32)
      requires Valid() && i < |View()| && off == XP_OFF_ENTRIES + XP_ENTRY_SIZE * i
      ensures expected == View()[i].expected
    {
      assert View()[i] == EntryAt(data, i);
      expected := data[off + 32..off + 64];
    }

    method Append(n: Bytes32, expected: Bytes32, limit: u64) returns (r: Result<(), nat>)
      requires Valid()
      modifies this
      ensures Valid() && Operator() == old(Operator())
      ensures r == if XP_OFF_ENTRIES + XP_ENTRY_SIZE * (old(Count()) + 1) <= limit then Ok(()) else Err(E_REALLOC)
      ensures View() == if r.Ok? then old(View()) + [Entry(n, expected, false)] else old(View())
    {
      var count := Count();
      var newLen := XP_OFF_ENTRIES + (count + 1) * XP_ENTRY_SIZE;
      if limit < newLen {
        return Err(E_REALLOC);
      }
      ghost var s0 := data;
      data := data + Zeros(newLen - |data|);
      var off := XP_OFF_ENTRIES + XP_ENTRY_SIZE * count;
      data := Patch(data, off, n);
      data := Patch(data, off + 32, expected);
      data := Patch(data, off + 64, [0]);
      ghost var s1 := data;
      data := Patch(data, XP_OFF_COUNT, LeBytes(count + 1, 8));
      PendingLayout(s0, s1, data, count, n, expected);
      return Ok(());
    }

    /** Setting the flag byte consumes that attestation and changes nothing else. */
    method SetMinted(off: nat, ghost i: nat)
      requires Valid() && i < |View()| && off == XP_OFF_ENTRIES + XP_ENTRY_SIZE * i
      modifies this
      ensures Valid() && Operator() == old(Operator())
      ensures View() == MarkMinted(old(View()), i)
    {
      ghost var s0, count := data, Count();
      data := Patch(data, off + 64, [1]);
      FlagLayout(s0, data, count, i);
      assert data[XP_OFF_COUNT..XP_OFF_ENTRIES] == data[..XP_OFF_ENTRIES][XP_OFF_COUNT..];
      assert s0[XP_OFF_COUNT..XP_OFF_ENTRIES] == s0[..XP_OFF_ENTRIES][XP_OFF_COUNT..];
      assert data[..32] == data[..XP_OFF_ENTRIES][..32] && s0[..32] == s0[..XP_OFF_ENTRIES][..32];
    }

    /** Where the operator, the counter and the entries sit: nullifier, then expected hash, then flag. */
    lemma {:induction false} RawLayout()
      requires Valid()
      ensures |data| == 40 + 65 * |View()| && Operator() == data[0..32] && LeValue(data[32..40]) == |View()|
      ensures forall i :: 0 <= i < |View()| ==> var e := View()[i];
        && e.nullifier == data[40 + 65 * i..72 + 65 * i]
        && e.expected == data[72 + 65 * i..104 + 65 * i]
        && e.minted == (data[104 + 65 * i] != 0)
    {
      forall i | 0 <= i < |View()|
        ensures View()[i] == EntryAt(data, i)
      {}
    }
  }

  lemma {:induction false} PendingLayout(s0: seq<byte>, s1: seq<byte>, s: seq<byte>, count: nat, n: Bytes32, expected: Bytes32)
    requires |s0| == XP_OFF_ENTRIES + XP_ENTRY_SIZE * count && |s0| + XP_ENTRY_SIZE < U64_BOUND
    requires |s1| == |s0| + XP_ENTRY_SIZE
    requires forall i :: 0 <= i < |s0| ==> s1[i] == s0[i]
    requires s1[|s0|..|s0| + 32] == n && s1[|s0| + 32..|s0| + 64] == expected && s1[|s0| + 64] == 0
    requires s == Patch(s1, XP_OFF_COUNT, LeBytes(count + 1, 8))
    ensures LeValue(s[XP_OFF_COUNT..XP_OFF_ENTRIES]) == count + 1 && s[..32] == s0[..32]
    ensures Entries(s, count + 1) == Entries(s0, count) + [Entry(n, expected, false)]
  {
    LeU64(count + 1);
    forall i | 0 <= i < count
      ensures EntryAt(s, i) == EntryAt(s0, i)
    {
      SameEntry(s0, s, i);
    }
    var off := |s0|;
    assert s[off..off + 32] == s1[off..off + 32] && s[off + 32..off + 64] == s1[off + 32..off + 64];
    assert EntryAt(s, count) == Entry(n, expected, false);
  }

  lemma {:induction false} SameEntry(a: seq<byte>, b: seq<byte>, i: nat)
    requires XP_OFF_ENTRIES + XP_ENTRY_SIZE * (i + 1) <= |a| <= |b|
    requires forall k :: XP_OFF_ENTRIES + XP_ENTRY_SIZE * i <= k < XP_OFF_ENTRIES + XP_ENTRY_SIZE * (i + 1) ==> a[k] == b[k]
    ensures EntryAt(a, i) == EntryAt(b, i)
  {
    var off := XP_OFF_ENTRIES + XP_ENTRY_SIZE * i;
    assert a[off..off + 32] == b[off..off + 32] && a[off + 32..off + 64] == b[off + 32..off + 64];
  }

  lemma {:induction false} FlagLayout(s0: seq<byte>, s: seq<byte>, count: nat, i: nat)
    requires |s0| == XP_OFF_ENTRIES + XP_ENTRY_SIZE * count && i < count
    requires s == Patch(s0, XP_OFF_ENTRIES + XP_ENTRY_SIZE * i + 64, [1])
    ensures s[..XP_OFF_ENTRIES] == s0[..XP_OFF_ENTRIES]
    ensures Entries(s, count) == MarkMinted(Entries(s0, count), i)
  {
    var off := XP_OFF_ENTRIES + XP_ENTRY_SIZE * i;
    assert s[off + 64] == s[off + 64..off + 65][0];
    assert s[off..off + 32] == s0[off..off + 32] && s[off + 32..off + 64] == s0[off + 32..off + 64];
    forall k | 0 <= k < count && k != i
      ensures EntryAt(s, k) == EntryAt(s0, k)
    {
      SameEntry(s0, s, k);
    }
  }
}
