/** Bytes, fixed-width integers in both byte orders, and writes into a buffer. */
module Bytes {
  type byte = b: int | 0 <= b < 256
  type Bytes32 = s: seq<byte> | |s| == 32 witness seq(32, _ => 0)

  function Zeros(n: nat): (s: seq<byte>)
    ensures |s| == n
    ensures forall i :: 0 <= i < n ==> s[i] == 0
  {
    seq(n, _ => 0)
  }

  const U64_BOUND: nat := 0x1_0000_0000_0000_0000
  type u64 = n: nat | n < U64_BOUND

  function Pow256(k: nat): (p: nat)
    ensures 0 < p
  {
    if k == 0 then 1 else 256 * Pow256(k - 1)
  }

  // ---------- little endian ----------

  function LeValue(s: seq<byte>): nat {
    if s == [] then 0 else s[0] + 256 * LeValue(s[1..])
  }

  function LeBytes(n: nat, k: nat): (s: seq<byte>)
    ensures |s| == k
    decreases k, n
  {
    if k == 0 then [] else [n % 256] + LeBytes(n / 256, k - 1)
  }

  /** Writing then reading a little-endian integer keeps its low `k` bytes. */
  lemma {:induction false} LeRoundTrip(n: nat, k: nat)
    ensures LeValue(LeBytes(n, k)) == n % Pow256(k)
    decreases k
  {
    if k != 0 {
      LeRoundTrip(n / 256, k - 1);
      SplitMod(n, Pow256(k - 1));
      assert LeBytes(n, k)[1..] == LeBytes(n / 256, k - 1);
    }
  }

  /** Little endian: the bytes in front weigh less. */
  lemma {:induction false} LeConcat(a: seq<byte>, b: seq<byte>)
    ensures LeValue(a + b) == LeValue(a) + Pow256(|a|) * LeValue(b)
  {
    if a == [] {
      assert a + b == b;
    } else {
      LeConcat(a[1..], b);
      assert (a + b)[1..] == a[1..] + b;
      Spread256(LeValue(a[1..]), Pow256(|a| - 1), LeValue(b));
    }
  }

  lemma {:induction false} Spread256(v: nat, p: nat, w: nat)
    ensures 256 * (v + p * w) == 256 * v + 256 * p * w
  {
    assert 256 * (p * w) == 256 * p * w;
  }

  lemma {:induction false} LeBound(s: seq<byte>)
    ensures LeValue(s) < Pow256(|s|)
  {
    if s != [] { LeBound(s[1..]); }
  }

  lemma {:induction false} SplitMod(n: nat, p: nat)
    requires 0 < p
    ensures n % (256 * p) == n % 256 + 256 * ((n / 256) % p)
  {
    var q, r := n / 256, n % 256;
    var a, b := q / p, q % p;
    assert n == 256 * q + r && q == p * a + b;
    assert 256 * (p * a) == (256 * p) * a;
    ModUnique(n, 256 * p, a, 256 * b + r);
  }

  lemma {:induction false} ModUnique(n: nat, m: nat, a: nat, r: nat)
    requires 0 < m && n == m * a + r && r < m
    ensures n % m == r
  {
    var d := n / m - a;
    assert n == m * (n / m) + n % m;
    assert m * (n / m) - m * a == m * d;
    NonzeroMultiple(m, d);
  }

  lemma {:induction false} NonzeroMultiple(m: nat, d: int)
    ensures 1 <= d ==> m <= m * d
    ensures d <= -1 ==> m * d + m <= 0
  {}

  lemma {:induction false} EightBytes()
    ensures Pow256(8) == U64_BOUND && Pow256(4) == 0x1_0000_0000
  {
    assert Pow256(4) == 0x1_0000_0000;
    assert Pow256(8) == 256 * (256 * (256 * (256 * Pow256(4))));
  }

  lemma {:induction false} LeU64(n: u64)
    ensures LeValue(LeBytes(n, 8)) == n
  {
    LeRoundTrip(n, 8);
    EightBytes();
  }

  lemma {:induction false} LeU32(n: nat)
    requires n < 0x1_0000_0000
    ensures LeValue(LeBytes(n, 4)) == n
  {
    LeRoundTrip(n, 4);
    EightBytes();
  }

  // ---------- big endian ----------

  function BeValue(s: seq<byte>): nat {
    if s == [] then 0 else 256 * BeValue(s[..|s| - 1]) + s[|s| - 1]
  }

  function BeBytes(n: nat, k: nat): (s: seq<byte>)
    ensures |s| == k
    decreases k, n
  {
    if k == 0 then [] else BeBytes(n / 256, k - 1) + [n % 256]
  }

  lemma {:induction false} BeRoundTrip(n: nat, k: nat)
    ensures BeValue(BeBytes(n, k)) == n % Pow256(k)
    decreases k
  {
    if k != 0 {
      BeRoundTrip(n / 256, k - 1);
      SplitMod(n, Pow256(k - 1));
      assert BeBytes(n, k)[..k - 1] == BeBytes(n / 256, k - 1);
    }
  }

  lemma {:induction false} BeFits(n: nat, k: nat)
    requires n < Pow256(k)
    ensures BeValue(BeBytes(n, k)) == n
  {
    var p := Pow256(k);
    BeRoundTrip(n, k);
    ModUnique(n, p, 0, n);
  }

  lemma {:induction false} BeU64(n: u64)
    ensures BeValue(BeBytes(n, 8)) == n
  {
    EightBytes();
    BeFits(n, 8);
  }

  /** Reading then writing a big-endian integer is the identity on strings of that width. */
  lemma {:induction false} BeReadWrite(s: seq<byte>)
    ensures BeBytes(BeValue(s), |s|) == s
    ensures BeValue(s) < Pow256(|s|)
  {
    if s != [] {
      var top := |s| - 1;
      BeReadWrite(s[..top]);
      assert BeValue(s) / 256 == BeValue(s[..top]) && BeValue(s) % 256 == s[top];
      assert s == s[..top] + [s[top]];
    }
  }

  /** Splitting a string splits its value. */
  lemma {:induction false} BeConcat(a: seq<byte>, b: seq<byte>)
    ensures BeValue(a + b) == BeValue(a) * Pow256(|b|) + BeValue(b)
  {
    if b == [] {
      assert a + b == a;
    } else {
      var top := |b| - 1;
      BeConcat(a, b[..top]);
      assert (a + b)[..|a + b| - 1] == a + b[..top];
      Shift256(BeValue(a), Pow256(top), BeValue(b[..top]));
    }
  }

  lemma {:induction false} Shift256(v: nat, p: nat, w: nat)
    ensures 256 * (v * p + w) == v * (256 * p) + 256 * w
  {
    assert v * (256 * p) == 256 * (v * p);
  }

  // ---------- buffers ----------

  /** `s` with `b` copied in at `off`. */
  function Patch(s: seq<byte>, off: nat, b: seq<byte>): (r: seq<byte>)
    requires off + |b| <= |s|
    ensures |r| == |s|
    ensures r[off..off + |b|] == b
    ensures forall i :: 0 <= i < |s| && !(off <= i < off + |b|) ==> r[i] == s[i]
  {
    s[..off] + b + s[off + |b|..]
  }

  /** A patch leaves every disjoint slice alone. */
  lemma {:induction false} PatchElsewhere(s: seq<byte>, off: nat, b: seq<byte>, lo: nat, hi: nat)
    requires off + |b| <= |s| && lo <= hi <= |s|
    requires hi <= off || off + |b| <= lo
    ensures Patch(s, off, b)[lo..hi] == s[lo..hi]
  {}

  /** A slice of the middle of a concatenation. */
  lemma {:induction false} SliceInside(pre: seq<byte>, mid: seq<byte>, post: seq<byte>, lo: nat, hi: nat)
    requires lo <= hi <= |mid|
    ensures (pre + mid + post)[|pre| + lo..|pre| + hi] == mid[lo..hi]
  {}

  lemma {:induction false} SliceSlice(s: seq<byte>, a: nat, b: nat, lo: nat, hi: nat)
    requires a <= b <= |s| && lo <= hi <= b - a
    ensures s[a..b][lo..hi] == s[a + lo..a + hi]
  {
    var x, y := s[a..b][lo..hi], s[a + lo..a + hi];
    assert forall i :: 0 <= i < hi - lo ==> x[i] == s[a + lo + i] == y[i];
  }

  /** `copy_from_slice` into a fixed buffer. */
  method CopyInto(data: array<byte>, off: nat, b: seq<byte>)
    requires off + |b| <= data.Length
    modifies data
    ensures data[..] == Patch(old(data[..]), off, b)
  {
    for i := 0 to |b|
      invariant forall k :: 0 <= k < data.Length ==>
        data[k] == if off <= k < off + i then b[k - off] else old(data[k])
    {
      data[off + i] := b[i];
    }
    assert data[..] == Patch(old(data[..]), off, b);
  }
}
