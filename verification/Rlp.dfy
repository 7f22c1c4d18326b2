/**
  The hand-written RLP encoder (Ethereum Yellow Paper, Appendix B) and the EIP-155 legacy
  transaction built with it, proved against an independent strict decoder.
 */
module Rlp {
  import opened Bytes
  import opened Wrappers

  // ---------- the encoder ----------

  /** Drop leading zero bytes. */
  function Strip(s: seq<byte>): seq<byte> {
    if s == [] || s[0] != 0 then s else Strip(s[1..])
  }

  function BeBytesMinimal(v: nat): seq<byte> {
    Strip(BeBytes(v, 8))
  }

  /** The length prefix over a base of `0x80` for strings and `0xc0` for lists. */
  function Header(base: byte, n: nat): seq<byte>
    requires base == 0x80 || base == 0xc0
  {
    if n < 56 then [base + n]
    else
      StripShorter(BeBytes(n, 8));
      [base + 55 + |BeBytesMinimal(n)|] + BeBytesMinimal(n)
  }

  function EncodeStr(b: seq<byte>): seq<byte> {
    if |b| == 1 && b[0] < 0x80 then b else Header(0x80, |b|) + b
  }

  datatype Item = Str(bytes: seq<byte>) | List(items: seq<Item>)

  function Encode(item: Item): (s: seq<byte>)
    ensures s != []
    decreases item, 1
  {
    match item
    case Str(b) => EncodeStr(b)
    case List(items) => var payload := EncodeAll(items); Header(0xc0, |payload|) + payload
  }

  function EncodeAll(items: seq<Item>): seq<byte>
    decreases items, 0
  {
    if items == [] then [] else Encode(items[0]) + EncodeAll(items[1..])
  }

  method EncodeBytes(b: seq<byte>) returns (out: seq<byte>)
    requires |b| < U64_BOUND
    ensures out == EncodeStr(b)
  {
    if |b| == 1 && b[0] < 0x80 {
      out := [b[0]];
    } else if |b| < 56 {
      out := [0x80 + |b|];
      out := out + b;
    } else {
      var lenBytes := BeBytesMinimal(|b|);
      StripShorter(BeBytes(|b|, 8));
      out := [0xb7 + |lenBytes|];
      out := out + lenBytes;
      out := out + b;
    }
  }

  /** Wraps items that are already encoded. */
  method EncodeList(encoded: seq<seq<byte>>, ghost items: seq<Item>) returns (out: seq<byte>)
    requires |encoded| == |items| && forall i :: 0 <= i < |items| ==> encoded[i] == Encode(items[i])
    ensures out == Encode(List(items))
  {
    var payload := [];
    for i := 0 to |encoded|
      invariant payload + EncodeAll(items[i..]) == EncodeAll(items)
    {
      assert items[i..][1..] == items[i + 1..];
      payload := payload + encoded[i];
    }
    if |payload| < 56 {
      out := [0xc0 + |payload|];
      out := out + payload;
    } else {
      var lenBytes := BeBytesMinimal(|payload|);
      StripShorter(BeBytes(|payload|, 8));
      out := [0xf7 + |lenBytes|];
      out := out + lenBytes;
      out := out + payload;
    }
  }

  // ---------- the decoder ----------

  /** A decoded prefix: string or list, where its payload starts, and how long it is. */
  datatype Prefix = Prefix(isList: bool, start: nat, length: nat)

  /** Read a prefix, refusing every length that has a shorter form. */
  function ReadPrefix(s: seq<byte>): (p: Option<Prefix>)
    requires s != []
    ensures p.Some? ==> p.value.start + p.value.length <= |s| && (p.value.start == 0 ==> s[0] < 0x80 && p.value.length == 1 && !p.value.isList)
  {
    if s[0] < 0x80 then Some(Prefix(false, 0, 1))
    else
      var isList := 0xc0 <= s[0];
      var k := s[0] - if isList then 0xc0 else 0x80;
      if k < 56 then
        if 1 + k <= |s| then Some(Prefix(isList, 1, k)) else None
      else
        var n := k - 55;
        if |s| < 1 + n || s[1] == 0 then None
        else
          var length := BeValue(s[1..1 + n]);
          if 56 <= length && 1 + n + length <= |s| then Some(Prefix(isList, 1 + n, length)) else None
  }

  /** The first item of `s` and what follows it. */
  function Decode(s: seq<byte>): (r: Option<(Item, seq<byte>)>)
    ensures r.Some? ==> |r.value.1| < |s|
    decreases |s|, 0
  {
    if s == [] then None else
    var prefix := ReadPrefix(s);
    if prefix.None? then None
    else
      var p := prefix.value;
      var payload, rest := s[p.start..p.start + p.length], s[p.start + p.length..];
      if p.isList then
        var items := DecodeAll(payload);
        if items.Some? then Some((List(items.value), rest)) else None
      else if p.start == 1 && p.length == 1 && payload[0] < 0x80 then None
      else Some((Str(payload), rest))
  }

  function DecodeAll(s: seq<byte>): Option<seq<Item>>
    decreases |s|, 1
  {
    if s == [] then Some([]) else
    var first := Decode(s);
    if first.None? then None
    else
      var others := DecodeAll(first.value.1);
      if others.None? then None else Some([first.value.0] + others.value)
  }

  // ---------- minimal integers ----------

  lemma {:induction false} StripShorter(s: seq<byte>)
    ensures |Strip(s)| <= |s|
    ensures Strip(s) != [] ==> Strip(s)[0] != 0
  {
    if s != [] && s[0] == 0 { StripShorter(s[1..]); }
  }

  lemma {:induction false} StripKeepsValue(s: seq<byte>)
    ensures BeValue(Strip(s)) == BeValue(s)
  {
    if s != [] && s[0] == 0 {
      StripKeepsValue(s[1..]);
      assert s == [0] + s[1..];
      BeConcat([0], s[1..]);
      assert BeValue([0]) == 0;
    }
  }

  lemma {:induction false} MinimalValue(v: u64)
    ensures BeValue(BeBytesMinimal(v)) == v
    ensures |BeBytesMinimal(v)| <= 8
    ensures v != 0 ==> BeBytesMinimal(v) != [] && BeBytesMinimal(v)[0] != 0
  {
    var s := BeBytes(v, 8);
    BeU64(v);
    StripKeepsValue(s);
    StripShorter(s);
  }

  // ---------- round trip ----------

  lemma {:induction false} HeaderReads(base: byte, body: seq<byte>, rest: seq<byte>)
    requires base == 0x80 || base == 0xc0
    requires |body| < U64_BOUND
    ensures var h := Header(base, |body|);
      ReadPrefix(h + body + rest) == Some(Prefix(base == 0xc0, |h|, |body|)) && 1 <= |h|
  {
    var h := Header(base, |body|);
    var s := h + body + rest;
    if 56 <= |body| {
      MinimalValue(|body|);
      var m := BeBytesMinimal(|body|);
      assert s[1..1 + |m|] == m;
    }
  }

  lemma {:induction false} StrRoundTrip(b: seq<byte>, rest: seq<byte>)
    requires |b| < U64_BOUND
    ensures Decode(EncodeStr(b) + rest) == Some((Str(b), rest))
  {
    var s := EncodeStr(b) + rest;
    if |b| == 1 && b[0] < 0x80 {
      assert s[0..1] == b && s[1..] == rest;
    } else {
      var h := Header(0x80, |b|);
      HeaderReads(0x80, b, rest);
      assert s == h + b + rest;
      assert s[|h|..|h| + |b|] == b && s[|h| + |b|..] == rest;
    }
  }

  /** Decoding what was encoded gives the item back, and exactly the bytes that followed it. */
  lemma {:induction false} RoundTrip(item: Item, rest: seq<byte>)
    requires |Encode(item)| < U64_BOUND
    ensures Decode(Encode(item) + rest) == Some((item, rest))
    decreases item, 1
  {
    match item
    case Str(b) =>
      StrRoundTrip(b, rest);
    case List(items) =>
      var payload := EncodeAll(items);
      var h := Header(0xc0, |payload|);
      var s := Encode(item) + rest;
      HeaderReads(0xc0, payload, rest);
      RoundTripAll(items);
      assert s == h + payload + rest;
      assert s[|h|..|h| + |payload|] == payload && s[|h| + |payload|..] == rest;
  }

  lemma {:induction false} RoundTripAll(items: seq<Item>)
    requires |EncodeAll(items)| < U64_BOUND
    ensures DecodeAll(EncodeAll(items)) == Some(items)
    decreases items, 0
  {
    if items != [] {
      RoundTrip(items[0], EncodeAll(items[1..]));
      RoundTripAll(items[1..]);
      assert items == [items[0]] + items[1..];
    }
  }

  /** No encoding is a proper prefix of another, and different items have different encodings. */
  lemma {:induction false} PrefixFree(x: Item, y: Item, tail: seq<byte>)
    requires |Encode(y)| < U64_BOUND
    requires Encode(y) == Encode(x) + tail
    ensures x == y && tail == []
  {
    RoundTrip(x, tail);
    RoundTrip(y, []);
    assert Encode(y) + [] == Encode(y);
  }

  // ---------- the decoder accepts nothing else ----------

  lemma {:induction false} LeadingZeros(v: nat, k: nat, n: nat)
    requires k <= n && v < Pow256(k)
    ensures Strip(BeBytes(v, n)) == Strip(BeBytes(v, k))
    decreases n
  {
    if k < n {
      LeadingZeros(v, k, n - 1);
      Pow256Grows(k, n - 1);
      BePad(v, n - 1);
    }
  }

  lemma {:induction false} Pow256Grows(k: nat, n: nat)
    requires k <= n
    ensures Pow256(k) <= Pow256(n)
  {
    if k < n { Pow256Grows(k, n - 1); }
  }

  lemma {:induction false} BePad(v: nat, n: nat)
    requires v < Pow256(n)
    ensures BeBytes(v, n + 1) == [0] + BeBytes(v, n)
    decreases n
  {
    if n == 0 {
      assert BeBytes(0, 1) == BeBytes(0, 0) + [0];
    } else {
      BePad(v / 256, n - 1);
      assert BeBytes(v, n + 1) == BeBytes(v / 256, n) + [v % 256];
    }
  }

  /** A length field without a leading zero is the minimal form of its value. */
  lemma {:induction false} MinimalUnique(m: seq<byte>)
    requires m != [] && m[0] != 0 && |m| <= 8
    ensures BeBytesMinimal(BeValue(m)) == m && BeValue(m) < U64_BOUND
  {
    BeReadWrite(m);
    LeadingZeros(BeValue(m), |m|, 8);
    Pow256Grows(|m|, 8);
    EightBytes();
  }

  lemma {:induction false} PrefixWrites(s: seq<byte>, p: Prefix)
    requires s != [] && ReadPrefix(s) == Some(p) && p.start != 0
    ensures s[..p.start] == Header(if p.isList then 0xc0 else 0x80, p.length)
  {
    var base: byte := if p.isList then 0xc0 else 0x80;
    if 56 <= s[0] - base {
      var n := s[0] - base - 55;
      MinimalUnique(s[1..1 + n]);
      assert s[..1 + n] == [s[0]] + s[1..1 + n];
    }
  }

  lemma {:induction false} DecodedParts(s: seq<byte>, p: Prefix)
    requires s != [] && ReadPrefix(s) == Some(p)
    ensures s == s[..p.start] + s[p.start..p.start + p.length] + s[p.start + p.length..]
    ensures p.start + p.length <= |s| && (p.isList ==> 0 < p.start)
  {}

  /** Whatever the strict decoder accepts is the encoding of what it returns. */
  lemma {:induction false} DecodedIsEncoded(s: seq<byte>, item: Item, rest: seq<byte>)
    requires Decode(s) == Some((item, rest))
    ensures s == Encode(item) + rest
    decreases |s|, 0
  {
    var p := ReadPrefix(s).value;
    var payload := s[p.start..p.start + p.length];
    DecodedParts(s, p);
    if p.isList {
      PrefixWrites(s, p);
      DecodedAllIsEncoded(payload, item.items);
      assert Encode(item) == s[..p.start] + payload;
    } else {
      DecodedStrIsEncoded(s, p, payload);
    }
  }

  lemma {:induction false} DecodedStrIsEncoded(s: seq<byte>, p: Prefix, payload: seq<byte>)
    requires s != [] && ReadPrefix(s) == Some(p) && !p.isList
    requires payload == s[p.start..p.start + p.length]
    requires !(p.start == 1 && p.length == 1 && payload[0] < 0x80)
    ensures EncodeStr(payload) == s[..p.start] + payload
  {
    if p.start != 0 {
      PrefixWrites(s, p);
      PrefixStart(s, p);
    }
  }

  lemma {:induction false} PrefixStart(s: seq<byte>, p: Prefix)
    requires s != [] && ReadPrefix(s) == Some(p)
    ensures p.length < 56 && p.start != 0 ==> p.start == 1
  {}

  lemma {:induction false} DecodedAllIsEncoded(s: seq<byte>, items: seq<Item>)
    requires DecodeAll(s) == Some(items)
    ensures s == EncodeAll(items)
    decreases |s|, 1
  {
    if s != [] {
      var first := Decode(s).value;
      DecodedIsEncoded(s, first.0, first.1);
      DecodedAllIsEncoded(first.1, items[1..]);
    }
  }

  // ---------- the legacy transaction ----------

  datatype Signature = Signature(v: u64, r: Bytes32, s: Bytes32)

  /** The last three fields: the signature, or the chain id followed by two empty strings. */
  function Tail(chainId: u64, signature: Option<Signature>): (seq<byte>, seq<byte>, seq<byte>) {
    match signature
    case Some(g) => (BeBytesMinimal(g.v), Strip(g.r), Strip(g.s))
    case None => (BeBytesMinimal(chainId), [], [])
  }

  function StringItems(bs: seq<seq<byte>>): (items: seq<Item>)
    ensures |items| == |bs| && forall i :: 0 <= i < |bs| ==> items[i] == Str(bs[i])
  {
    seq(|bs|, i requires 0 <= i < |bs| => Str(bs[i]))
  }

  function FieldBytes(nonce: u64, gasPrice: seq<byte>, gasLimit: u64, to: seq<byte>, data: seq<byte>, chainId: u64,
                      signature: Option<Signature>): (bs: seq<seq<byte>>)
    ensures |bs| == 9
  {
    var (v, r, s) := Tail(chainId, signature);
    [BeBytesMinimal(nonce), Strip(gasPrice), BeBytesMinimal(gasLimit), to, [], data, v, r, s]
  }

  function LegacyFields(nonce: u64, gasPrice: seq<byte>, gasLimit: u64, to: seq<byte>, data: seq<byte>, chainId: u64,
                        signature: Option<Signature>): seq<Item> {
    StringItems(FieldBytes(nonce, gasPrice, gasLimit, to, data, chainId, signature))
  }

  method EncodeQuantity(be: seq<byte>) returns (out: seq<byte>)
    requires |be| < U64_BOUND
    ensures out == Encode(Str(Strip(be)))
  {
    var start := 0;
    while start < |be| && be[start] == 0
      invariant 0 <= start <= |be|
      invariant Strip(be) == Strip(be[start..])
    {
      assert be[start..][1..] == be[start + 1..];
      start := start + 1;
    }
    StripShorter(be);
    out := EncodeBytes(be[start..]);
  }

  lemma {:induction false} StripTwice(s: seq<byte>)
    ensures Strip(Strip(s)) == Strip(s)
  {
    if s != [] && s[0] == 0 { StripTwice(s[1..]); }
  }

  lemma {:induction false} StripZeros(s: seq<byte>)
    requires forall i :: 0 <= i < |s| ==> s[i] == 0
    ensures Strip(s) == []
  {
    if s != [] { StripZeros(s[1..]); }
  }

  method EncodeNine(f0: seq<byte>, f1: seq<byte>, f2: seq<byte>, f3: seq<byte>, f4: seq<byte>, f5: seq<byte>, f6: seq<byte>,
                    f7: seq<byte>, f8: seq<byte>, ghost items: seq<Item>) returns (out: seq<byte>)
    requires |items| == 9
    requires f0 == Encode(items[0]) && f1 == Encode(items[1]) && f2 == Encode(items[2])
    requires f3 == Encode(items[3]) && f4 == Encode(items[4]) && f5 == Encode(items[5])
    requires f6 == Encode(items[6]) && f7 == Encode(items[7]) && f8 == Encode(items[8])
    ensures out == Encode(List(items))
  {
    out := EncodeList([f0, f1, f2, f3, f4, f5, f6, f7, f8], items);
  }

  /** Stripping the tail once more, as `rlp_quantity` does, changes nothing. */
  lemma {:induction false} TailStrips(chainId: u64, signature: Option<Signature>)
    ensures var v := if signature.Some? then signature.value.v else chainId;
      && Strip(BeBytesMinimal(v)) == BeBytesMinimal(v) == Tail(chainId, signature).0
      && |BeBytesMinimal(v)| <= 8
    ensures signature.None? ==> Strip([]) == []
  {
    var v := if signature.Some? then signature.value.v else chainId;
    StripTwice(BeBytes(v, 8));
    StripShorter(BeBytes(v, 8));
  }

  method EncodeTail(chainId: u64, signature: Option<Signature>) returns (v: seq<byte>, r: seq<byte>, s: seq<byte>)
    ensures var t := Tail(chainId, signature); v == Encode(Str(t.0)) && r == Encode(Str(t.1)) && s == Encode(Str(t.2))
  {
    TailStrips(chainId, signature);
    if signature.Some? {
      v := EncodeQuantity(BeBytesMinimal(signature.value.v));
      r := EncodeQuantity(signature.value.r);
      s := EncodeQuantity(signature.value.s);
    } else {
      v := EncodeQuantity(BeBytesMinimal(chainId));
      r := EncodeQuantity([]);
      s := EncodeQuantity([]);
    }
  }

  method EncodeHead(nonce: u64, gasPrice: seq<byte>, gasLimit: u64, to: seq<byte>, data: seq<byte>)
    returns (f0: seq<byte>, f1: seq<byte>, f2: seq<byte>, f3: seq<byte>, f4: seq<byte>, f5: seq<byte>)
    requires |gasPrice| < U64_BOUND && |to| == 20 && |data| < U64_BOUND
    ensures f0 == Encode(Str(BeBytesMinimal(nonce))) && f1 == Encode(Str(Strip(gasPrice)))
    ensures f2 == Encode(Str(BeBytesMinimal(gasLimit))) && f3 == Encode(Str(to)) && f4 == Encode(Str([])) && f5 == Encode(Str(data))
  {
    f0 := EncodeQuantity(BeBytes(nonce, 8));
    f1 := EncodeQuantity(gasPrice);
    f2 := EncodeQuantity(BeBytes(gasLimit, 8));
    f3 := EncodeBytes(to);
    StripZeros(Zeros(32));
    f4 := EncodeQuantity(Zeros(32));
    f5 := EncodeBytes(data);
  }

  method LegacyTxRlp(nonce: u64, gasPrice: seq<byte>, gasLimit: u64, to: seq<byte>, data: seq<byte>, chainId: u64,
                     signature: Option<Signature>) returns (out: seq<byte>)
    requires |gasPrice| < U64_BOUND && |to| == 20 && |data| < U64_BOUND
    ensures out == Encode(List(LegacyFields(nonce, gasPrice, gasLimit, to, data, chainId, signature)))
  {
    var f0, f1, f2, f3, f4, f5 := EncodeHead(nonce, gasPrice, gasLimit, to, data);
    var f6, f7, f8 := EncodeTail(chainId, signature);
    ghost var items := LegacyFields(nonce, gasPrice, gasLimit, to, data, chainId, signature);
    assert f0 == Encode(items[0]) && f1 == Encode(items[1]) && f2 == Encode(items[2]);
    assert f3 == Encode(items[3]) && f4 == Encode(items[4]) && f5 == Encode(items[5]);
    assert f6 == Encode(items[6]) && f7 == Encode(items[7]) && f8 == Encode(items[8]);
    out := EncodeNine(f0, f1, f2, f3, f4, f5, f6, f7, f8, items);
  }

  /** What a recipient reads from a transaction. */
  datatype Decoded = Decoded(nonce: nat, gasPrice: nat, gasLimit: nat, to: seq<byte>, value: nat, data: seq<byte>, v: nat, r: nat, s: nat)

  predicate AllStrings(f: seq<Item>) {
    forall i :: 0 <= i < |f| ==> f[i].Str?
  }

  function ReadFields(f: seq<Item>): Option<Decoded> {
    if |f| != 9 || !AllStrings(f) then None
    else Some(Decoded(BeValue(f[0].bytes), BeValue(f[1].bytes), BeValue(f[2].bytes), f[3].bytes, BeValue(f[4].bytes), f[5].bytes,
                      BeValue(f[6].bytes), BeValue(f[7].bytes), BeValue(f[8].bytes)))
  }

  function ReadLegacy(tx: seq<byte>): Option<Decoded> {
    var d := Decode(tx);
    if d.None? || d.value.1 != [] || !d.value.0.List? then None else ReadFields(d.value.0.items)
  }

  lemma {:induction false} FieldValues(nonce: u64, gasPrice: seq<byte>, gasLimit: u64, to: seq<byte>, data: seq<byte>, chainId: u64,
                    signature: Option<Signature>)
    ensures ReadFields(LegacyFields(nonce, gasPrice, gasLimit, to, data, chainId, signature)) ==
            Some(Decoded(nonce, BeValue(gasPrice), gasLimit, to, 0, data,
                         if signature.Some? then signature.value.v else chainId,
                         if signature.Some? then BeValue(signature.value.r) else 0,
                         if signature.Some? then BeValue(signature.value.s) else 0))
  {
    MinimalValue(nonce);
    MinimalValue(gasLimit);
    StripKeepsValue(gasPrice);
    TailValues(chainId, signature);
    StringsRead(FieldBytes(nonce, gasPrice, gasLimit, to, data, chainId, signature));
  }

  lemma {:induction false} StringsRead(b: seq<seq<byte>>)
    requires |b| == 9
    ensures ReadFields(StringItems(b)) ==
            Some(Decoded(BeValue(b[0]), BeValue(b[1]), BeValue(b[2]), b[3], BeValue(b[4]), b[5], BeValue(b[6]), BeValue(b[7]), BeValue(b[8])))
  {
    assert AllStrings(StringItems(b));
  }

  lemma {:induction false} TailValues(chainId: u64, signature: Option<Signature>)
    ensures var (v, r, s) := Tail(chainId, signature);
      && BeValue(v) == (if signature.Some? then signature.value.v else chainId)
      && BeValue(r) == (if signature.Some? then BeValue(signature.value.r) else 0)
      && BeValue(s) == (if signature.Some? then BeValue(signature.value.s) else 0)
  {
    match signature {
      case Some(g) =>
        MinimalValue(g.v);
        StripKeepsValue(g.r);
        StripKeepsValue(g.s);
      case None =>
        MinimalValue(chainId);
    }
  }

  /**
    A decoder recovers every argument of the transaction from its bytes, so the signed and the
    unsigned form agree on the first six fields and differ only in the last three.
   */
  lemma {:induction false} LegacyRoundTrip(nonce: u64, gasPrice: seq<byte>, gasLimit: u64, to: seq<byte>, data: seq<byte>, chainId: u64,
                        signature: Option<Signature>)
    requires |Encode(List(LegacyFields(nonce, gasPrice, gasLimit, to, data, chainId, signature)))| < U64_BOUND
    ensures ReadLegacy(Encode(List(LegacyFields(nonce, gasPrice, gasLimit, to, data, chainId, signature)))) ==
            Some(Decoded(nonce, BeValue(gasPrice), gasLimit, to, 0, data,
                         if signature.Some? then signature.value.v else chainId,
                         if signature.Some? then BeValue(signature.value.r) else 0,
                         if signature.Some? then BeValue(signature.value.s) else 0))
  {
    var fields := LegacyFields(nonce, gasPrice, gasLimit, to, data, chainId, signature);
    RoundTrip(List(fields), []);
    assert Encode(List(fields)) + [] == Encode(List(fields));
    FieldValues(nonce, gasPrice, gasLimit, to, data, chainId, signature);
  }

  // ---------- the forms, written out ----------

  /** Appendix B: short strings carry their length in the prefix, long ones carry the length of the length. */
  lemma {:induction false} StringForm(b: seq<byte>)
    requires |b| < U64_BOUND
    ensures |b| == 1 && b[0] < 0x80 ==> Encode(Str(b)) == b
    ensures |b| < 56 && !(|b| == 1 && b[0] < 0x80) ==> Encode(Str(b)) == [0x80 + |b|] + b
    ensures 56 <= |b| ==> exists be: seq<byte> ::
      (0 < |be| <= 8 && be[0] != 0 && BeValue(be) == |b| && Encode(Str(b)) == [0xb7 + |be|] + be + b)
  {
    if 56 <= |b| {
      MinimalValue(|b|);
      var be := BeBytesMinimal(|b|);
      assert Encode(Str(b)) == [0xb7 + |be|] + be + b;
    }
  }

  function Concat(parts: seq<seq<byte>>): seq<byte> {
    if parts == [] then [] else parts[0] + Concat(parts[1..])
  }

  lemma {:induction false} PayloadIsConcat(items: seq<Item>, encoded: seq<seq<byte>>)
    requires |encoded| == |items| && forall i :: 0 <= i < |items| ==> encoded[i] == Encode(items[i])
    ensures EncodeAll(items) == Concat(encoded)
  {
    if items != [] { PayloadIsConcat(items[1..], encoded[1..]); }
  }

  /** ... and so do lists, over the concatenated encodings of their items. */
  lemma {:induction false} ListForm(items: seq<Item>, encoded: seq<seq<byte>>)
    requires |encoded| == |items| && forall i :: 0 <= i < |items| ==> encoded[i] == Encode(items[i])
    requires |Concat(encoded)| < U64_BOUND
    ensures var payload := Concat(encoded);
      && (|payload| < 56 ==> Encode(List(items)) == [0xc0 + |payload|] + payload)
      && (56 <= |payload| ==> exists be: seq<byte> ::
            (0 < |be| <= 8 && be[0] != 0 && BeValue(be) == |payload| && Encode(List(items)) == [0xf7 + |be|] + be + payload))
  {
    PayloadIsConcat(items, encoded);
    var payload := Concat(encoded);
    if 56 <= |payload| {
      MinimalValue(|payload|);
      var be := BeBytesMinimal(|payload|);
      assert Encode(List(items)) == [0xf7 + |be|] + be + payload;
    }
  }

  /** The nine fields of the transaction, by position. */
  lemma {:induction false} LegacyOrder(nonce: u64, gasPrice: seq<byte>, gasLimit: u64, to: seq<byte>, data: seq<byte>, chainId: u64,
                                       signature: Option<Signature>)
    ensures var items := LegacyFields(nonce, gasPrice, gasLimit, to, data, chainId, signature);
      && |items| == 9 && (forall i :: 0 <= i < 9 ==> items[i].Str?)
      && BeValue(items[0].bytes) == nonce && BeValue(items[1].bytes) == BeValue(gasPrice) && BeValue(items[2].bytes) == gasLimit
      && items[3].bytes == to && items[4].bytes == [] && items[5].bytes == data
      && BeValue(items[6].bytes) == (if signature.Some? then signature.value.v else chainId)
      && BeValue(items[7].bytes) == (if signature.Some? then BeValue(signature.value.r) else 0)
      && BeValue(items[8].bytes) == (if signature.Some? then BeValue(signature.value.s) else 0)
  {
    var b := FieldBytes(nonce, gasPrice, gasLimit, to, data, chainId, signature);
    HeadOrder(nonce, gasPrice, gasLimit, to, data, chainId, signature);
    TailOrder(nonce, gasPrice, gasLimit, to, data, chainId, signature);
    assert forall i :: 0 <= i < 9 ==> StringItems(b)[i] == Str(b[i]);
  }

  lemma {:induction false} HeadOrder(nonce: u64, gasPrice: seq<byte>, gasLimit: u64, to: seq<byte>, data: seq<byte>, chainId: u64,
                                     signature: Option<Signature>)
    ensures var b := FieldBytes(nonce, gasPrice, gasLimit, to, data, chainId, signature);
      && BeValue(b[0]) == nonce && BeValue(b[1]) == BeValue(gasPrice) && BeValue(b[2]) == gasLimit
      && b[3] == to && b[4] == [] && b[5] == data
  {
    HeadBytes(nonce, gasPrice, gasLimit, to, data, chainId, signature);
    MinimalValue(nonce);
    MinimalValue(gasLimit);
    StripKeepsValue(gasPrice);
  }

  lemma {:induction false} HeadBytes(nonce: u64, gasPrice: seq<byte>, gasLimit: u64, to: seq<byte>, data: seq<byte>, chainId: u64,
                                     signature: Option<Signature>)
    ensures var b := FieldBytes(nonce, gasPrice, gasLimit, to, data, chainId, signature);
      b[0] == BeBytesMinimal(nonce) && b[1] == Strip(gasPrice) && b[2] == BeBytesMinimal(gasLimit)
  {}

  lemma {:induction false} TailOrder(nonce: u64, gasPrice: seq<byte>, gasLimit: u64, to: seq<byte>, data: seq<byte>, chainId: u64,
                                     signature: Option<Signature>)
    ensures var b := FieldBytes(nonce, gasPrice, gasLimit, to, data, chainId, signature);
      && BeValue(b[6]) == (if signature.Some? then signature.value.v else chainId)
      && BeValue(b[7]) == (if signature.Some? then BeValue(signature.value.r) else 0)
      && BeValue(b[8]) == (if signature.Some? then BeValue(signature.value.s) else 0)
  {
    TailValues(chainId, signature);
  }
}
