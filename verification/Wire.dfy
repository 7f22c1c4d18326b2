/** Instruction bytes: the printers of the proving tools, and the dispatch and field parsing of the program. */
module Wire {
  import opened Bytes
  import opened Wrappers

  type Bytes64 = s: seq<byte> | |s| == 64 witness seq(64, _ => 0)
  type Bytes128 = s: seq<byte> | |s| == 128 witness seq(128, _ => 0)

  datatype ProofBytes = ProofBytes(a: Bytes64, b: Bytes128, c: Bytes64)

  datatype Parsed =
    | InitializePool
    | Deposit(proof: ProofBytes, mint: Bytes32, amount: u64, commitment: Bytes32)
    | Withdraw(proof: ProofBytes, root: Bytes32, nullifier: Bytes32, mint: Bytes32, amount: u64, recipient: Bytes32)
    | Transfer(proof: ProofBytes, root: Bytes32, nullifier0: Bytes32, nullifier1: Bytes32, commitment0: Bytes32, commitment1: Bytes32)
    | Burn(proof: ProofBytes, root: Bytes32, nullifier: Bytes32, mint: Bytes32, amount: u64, destChain: Bytes32, destAddress: Bytes32)
    | InitializeXburnPending(operator: Bytes32)
    | AddPendingXburn(nullifier: Bytes32, destChain: Bytes32, outCommitment: Bytes32)
    | MintFromXburn(proof: ProofBytes, root: Bytes32, nullifier: Bytes32, destChain: Bytes32, outCommitment: Bytes32)
    | Xburn(proof: ProofBytes, root: Bytes32, nullifier: Bytes32, destChain: Bytes32, outCommitment: Bytes32)

  datatype Malformed = InvalidInstructionData

  // ---------- what the program reads ----------

  const DEPOSIT_LEN: nat := 64 + 128 + 64 + 32 + 8 + 32
  const WITHDRAW_LEN: nat := 64 + 128 + 64 + 32 + 32 + 32 + 8 + 32
  const TRANSFER_LEN: nat := 64 + 128 + 64 + 32 + 32 + 32 + 32 + 32
  const BURN_LEN: nat := 64 + 128 + 64 + 32 + 32 + 32 + 8 + 32 + 32
  const XBURN_LEN: nat := 64 + 128 + 64 + 32 + 32 + 32 + 32

  function ProofAt(args: seq<byte>): ProofBytes
    requires 256 <= |args|
  {
    ProofBytes(args[0..64], args[64..192], args[192..256])
  }

  function U64At(args: seq<byte>, off: nat): u64
    requires off + 8 <= |args|
  {
    LeBound(args[off..off + 8]);
    EightBytes();
    LeValue(args[off..off + 8])
  }

  function ParseDeposit(args: seq<byte>): Result<Parsed, Malformed> {
    if |args| != DEPOSIT_LEN then Err(InvalidInstructionData)
    else Ok(Deposit(ProofAt(args), args[256..288], U64At(args, 288), args[296..328]))
  }

  function ParseWithdraw(args: seq<byte>): Result<Parsed, Malformed> {
    if |args| != WITHDRAW_LEN then Err(InvalidInstructionData)
    else Ok(Withdraw(ProofAt(args), args[256..288], args[288..320], args[320..352], U64At(args, 352), args[360..392]))
  }

  /** Trailing bytes are allowed, and never read. */
  function ParseTransfer(args: seq<byte>): Result<Parsed, Malformed> {
    if |args| < TRANSFER_LEN then Err(InvalidInstructionData)
    else Ok(Transfer(ProofAt(args), args[256..288], args[288..320], args[320..352], args[352..384], args[384..416]))
  }

  function ParseBurn(args: seq<byte>): Result<Parsed, Malformed> {
    if |args| != BURN_LEN then Err(InvalidInstructionData)
    else Ok(Burn(ProofAt(args), args[256..288], args[288..320], args[320..352], U64At(args, 352), args[360..392], args[392..424]))
  }

  function ParseMintFromXburn(args: seq<byte>): Result<Parsed, Malformed> {
    if |args| != XBURN_LEN then Err(InvalidInstructionData)
    else Ok(MintFromXburn(ProofAt(args), args[256..288], args[288..320], args[320..352], args[352..384]))
  }

  function ParseXburn(args: seq<byte>): Result<Parsed, Malformed> {
    if |args| != XBURN_LEN then Err(InvalidInstructionData)
    else Ok(Xburn(ProofAt(args), args[256..288], args[288..320], args[320..352], args[352..384]))
  }

  function Dispatch(data: seq<byte>): Result<Parsed, Malformed> {
    if data == [] then Err(InvalidInstructionData) else
    var tag, args := data[0], data[1..];
    if tag == 0 then Ok(InitializePool)
    else if tag == 1 then ParseDeposit(args)
    else if tag == 3 then ParseTransfer(args)
    else if tag == 4 then ParseBurn(args)
    else if tag == 2 then ParseWithdraw(args)
    else if tag == 5 then
      if |args| != 32 then Err(InvalidInstructionData) else Ok(InitializeXburnPending(args))
    else if tag == 6 then
      if |args| != 96 then Err(InvalidInstructionData)
      else Ok(AddPendingXburn(args[0..32], args[32..64], args[64..96]))
    else if tag == 7 then ParseMintFromXburn(args)
    else if tag == 8 then ParseXburn(args)
    else Err(InvalidInstructionData)
  }

  /** Which tag means which instruction, and at which offset of the instruction data each field is read. */
  lemma {:induction false} FixedOffsets(data: seq<byte>, x: Parsed)
    requires Dispatch(data) == Ok(x)
    ensures match x
      case InitializePool => data[0] == 0
      case Deposit(_, mint, amount, commitment) =>
        data[0] == 1 && |data| == 329 && mint == data[257..289] && amount == LeValue(data[289..297]) && commitment == data[297..329]
      case Withdraw(_, root, nf, mint, amount, recipient) =>
        data[0] == 2 && |data| == 393 && root == data[257..289] && nf == data[289..321] && mint == data[321..353]
        && amount == LeValue(data[353..361]) && recipient == data[361..393]
      case Transfer(_, root, nf0, nf1, c0, c1) =>
        data[0] == 3 && 417 <= |data| && root == data[257..289] && nf0 == data[289..321] && nf1 == data[321..353]
        && c0 == data[353..385] && c1 == data[385..417]
      case Burn(_, root, nf, mint, amount, chain, to) =>
        data[0] == 4 && |data| == 425 && root == data[257..289] && nf == data[289..321] && mint == data[321..353]
        && amount == LeValue(data[353..361]) && chain == data[361..393] && to == data[393..425]
      case InitializeXburnPending(operator) => data[0] == 5 && |data| == 33 && operator == data[1..33]
      case AddPendingXburn(nf, chain, out) =>
        data[0] == 6 && |data| == 97 && nf == data[1..33] && chain == data[33..65] && out == data[65..97]
      case MintFromXburn(_, root, nf, chain, out) =>
        data[0] == 7 && |data| == 385 && root == data[257..289] && nf == data[289..321] && chain == data[321..353] && out == data[353..385]
      case Xburn(_, root, nf, chain, out) =>
        data[0] == 8 && |data| == 385 && root == data[257..289] && nf == data[289..321] && chain == data[321..353] && out == data[353..385]
  {
    var args := data[1..];
    assert forall lo, hi :: 0 <= lo <= hi <= |args| ==> args[lo..hi] == data[lo + 1..hi + 1];
  }

  // ---------- the layout ----------

  function ProofPart(p: ProofBytes): (s: seq<byte>)
    ensures |s| == 256
  {
    p.a + p.b + p.c
  }

  function Tag(x: Parsed): byte {
    match x
    case InitializePool => 0
    case Deposit(_, _, _, _) => 1
    case Withdraw(_, _, _, _, _, _) => 2
    case Transfer(_, _, _, _, _, _) => 3
    case Burn(_, _, _, _, _, _, _) => 4
    case InitializeXburnPending(_) => 5
    case AddPendingXburn(_, _, _) => 6
    case MintFromXburn(_, _, _, _, _) => 7
    case Xburn(_, _, _, _, _) => 8
  }

  /** The argument bytes; `memo` rides behind a transfer, and behind the argument-free setup. */
  function Args(x: Parsed, memo: seq<byte>): seq<byte> {
    match x
    case InitializePool => memo
    case Deposit(p, mint, amount, commitment) => ProofPart(p) + mint + LeBytes(amount, 8) + commitment
    case Withdraw(p, root, nf, mint, amount, recipient) => ProofPart(p) + root + nf + mint + LeBytes(amount, 8) + recipient
    case Transfer(p, root, nf0, nf1, c0, c1) => ProofPart(p) + root + nf0 + nf1 + c0 + c1 + memo
    case Burn(p, root, nf, mint, amount, chain, to) => ProofPart(p) + root + nf + mint + LeBytes(amount, 8) + chain + to
    case InitializeXburnPending(operator) => operator
    case AddPendingXburn(nf, chain, out) => nf + chain + out
    case MintFromXburn(p, root, nf, chain, out) => ProofPart(p) + root + nf + chain + out
    case Xburn(p, root, nf, chain, out) => ProofPart(p) + root + nf + chain + out
  }

  function Encode(x: Parsed, memo: seq<byte>): (data: seq<byte>)
    ensures data != [] && data[1..] == Args(x, memo)
  {
    [Tag(x)] + Args(x, memo)
  }

  lemma {:induction false} ProofReads(p: ProofBytes, rest: seq<byte>)
    ensures ProofAt(ProofPart(p) + rest) == p
  {
    var s := ProofPart(p) + rest;
    assert s[0..64] == p.a && s[64..192] == p.b && s[192..256] == p.c;
  }

  lemma {:induction false} ProofWrites(args: seq<byte>)
    requires 256 <= |args|
    ensures ProofPart(ProofAt(args)) == args[..256]
  {}

  lemma {:induction false} U64Reads(s: seq<byte>, off: nat, n: u64)
    requires off + 8 <= |s| && s[off..off + 8] == LeBytes(n, 8)
    ensures U64At(s, off) == n
  {
    LeU64(n);
  }

  lemma {:induction false} LeReadWrite(s: seq<byte>)
    ensures LeBytes(LeValue(s), |s|) == s
  {
    if s != [] {
      LeReadWrite(s[1..]);
      assert LeValue(s) % 256 == s[0] && LeValue(s) / 256 == LeValue(s[1..]);
    }
  }

  /** `x` is what sits between `lo` and `hi`. */
  ghost predicate Holds(s: seq<byte>, lo: nat, hi: nat, x: seq<byte>) {
    lo <= hi <= |s| && s[lo..hi] == x
  }

  lemma {:induction false} DepositReads(p: ProofBytes, mint: Bytes32, amount: u64, commitment: Bytes32)
    ensures ParseDeposit(ProofPart(p) + mint + LeBytes(amount, 8) + commitment) == Ok(Deposit(p, mint, amount, commitment))
  {
    var s := ProofPart(p) + mint + LeBytes(amount, 8) + commitment;
    assert s == ProofPart(p) + (mint + LeBytes(amount, 8) + commitment);
    ProofReads(p, mint + LeBytes(amount, 8) + commitment);
    assert Holds(s, 256, 288, mint) && Holds(s, 288, 296, LeBytes(amount, 8)) && Holds(s, 296, 328, commitment);
    U64Reads(s, 288, amount);
  }

  lemma {:induction false} WithdrawReads(p: ProofBytes, root: Bytes32, nf: Bytes32, mint: Bytes32, amount: u64, recipient: Bytes32)
    ensures ParseWithdraw(ProofPart(p) + root + nf + mint + LeBytes(amount, 8) + recipient) == Ok(Withdraw(p, root, nf, mint, amount, recipient))
  {
    var s := ProofPart(p) + root + nf + mint + LeBytes(amount, 8) + recipient;
    assert s == ProofPart(p) + (root + nf + mint + LeBytes(amount, 8) + recipient);
    ProofReads(p, root + nf + mint + LeBytes(amount, 8) + recipient);
    assert Holds(s, 256, 288, root) && Holds(s, 288, 320, nf) && Holds(s, 320, 352, mint);
    assert Holds(s, 352, 360, LeBytes(amount, 8)) && Holds(s, 360, 392, recipient);
    U64Reads(s, 352, amount);
  }

  lemma {:induction false} TransferReads(p: ProofBytes, root: Bytes32, nf0: Bytes32, nf1: Bytes32, c0: Bytes32, c1: Bytes32, memo: seq<byte>)
    ensures ParseTransfer(ProofPart(p) + root + nf0 + nf1 + c0 + c1 + memo) == Ok(Transfer(p, root, nf0, nf1, c0, c1))
  {
    var s := ProofPart(p) + root + nf0 + nf1 + c0 + c1 + memo;
    assert s == ProofPart(p) + (root + nf0 + nf1 + c0 + c1 + memo);
    ProofReads(p, root + nf0 + nf1 + c0 + c1 + memo);
    assert Holds(s, 256, 288, root) && Holds(s, 288, 320, nf0) && Holds(s, 320, 352, nf1);
    assert Holds(s, 352, 384, c0) && Holds(s, 384, 416, c1);
  }

  lemma {:induction false} BurnReads(p: ProofBytes, root: Bytes32, nf: Bytes32, mint: Bytes32, amount: u64, chain: Bytes32, to: Bytes32)
    ensures ParseBurn(ProofPart(p) + root + nf + mint + LeBytes(amount, 8) + chain + to) == Ok(Burn(p, root, nf, mint, amount, chain, to))
  {
    var s := ProofPart(p) + root + nf + mint + LeBytes(amount, 8) + chain + to;
    assert s == ProofPart(p) + (root + nf + mint + LeBytes(amount, 8) + chain + to);
    ProofReads(p, root + nf + mint + LeBytes(amount, 8) + chain + to);
    assert Holds(s, 256, 288, root) && Holds(s, 288, 320, nf) && Holds(s, 320, 352, mint);
    assert Holds(s, 352, 360, LeBytes(amount, 8)) && Holds(s, 360, 392, chain) && Holds(s, 392, 424, to);
    U64Reads(s, 352, amount);
  }

  lemma {:induction false} XburnReads(p: ProofBytes, root: Bytes32, nf: Bytes32, chain: Bytes32, out: Bytes32)
    ensures ParseXburn(ProofPart(p) + root + nf + chain + out) == Ok(Xburn(p, root, nf, chain, out))
    ensures ParseMintFromXburn(ProofPart(p) + root + nf + chain + out) == Ok(MintFromXburn(p, root, nf, chain, out))
  {
    var s := ProofPart(p) + root + nf + chain + out;
    assert s == ProofPart(p) + (root + nf + chain + out);
    ProofReads(p, root + nf + chain + out);
    assert Holds(s, 256, 288, root) && Holds(s, 288, 320, nf) && Holds(s, 320, 352, chain) && Holds(s, 352, 384, out);
  }

  lemma {:induction false} AddPendingReads(nf: Bytes32, chain: Bytes32, out: Bytes32)
    ensures var s := nf + chain + out; s[0..32] == nf && s[32..64] == chain && s[64..96] == out
  {}

  /** Printing then dispatching selects the right instruction and recovers every field, whatever memo is appended. */
  lemma {:induction false} ParsePrint(x: Parsed, memo: seq<byte>)
    ensures Dispatch(Encode(x, memo)) == Ok(x)
  {
    match x
    case InitializePool =>
    case Deposit(p, mint, amount, commitment) => DepositReads(p, mint, amount, commitment);
    case Withdraw(p, root, nf, mint, amount, recipient) => WithdrawReads(p, root, nf, mint, amount, recipient);
    case Transfer(p, root, nf0, nf1, c0, c1) => TransferReads(p, root, nf0, nf1, c0, c1, memo);
    case Burn(p, root, nf, mint, amount, chain, to) => BurnReads(p, root, nf, mint, amount, chain, to);
    case InitializeXburnPending(operator) =>
    case AddPendingXburn(nf, chain, out) => AddPendingReads(nf, chain, out);
    case MintFromXburn(p, root, nf, chain, out) => XburnReads(p, root, nf, chain, out);
    case Xburn(p, root, nf, chain, out) => XburnReads(p, root, nf, chain, out);
  }

  /** The bytes behind the fields that an instruction reads. */
  function Trailing(data: seq<byte>, x: Parsed): seq<byte> {
    if x.InitializePool? && 1 <= |data| then data[1..]
    else if x.Transfer? && 1 + TRANSFER_LEN <= |data| then data[1 + TRANSFER_LEN..]
    else []
  }

  lemma {:induction false} U64Writes(s: seq<byte>, off: nat)
    requires off + 8 <= |s|
    ensures LeBytes(U64At(s, off), 8) == s[off..off + 8]
  {
    LeReadWrite(s[off..off + 8]);
  }

  lemma {:induction false} DepositWrites(args: seq<byte>, x: Parsed)
    requires ParseDeposit(args) == Ok(x)
    ensures x.Deposit? && args == ProofPart(x.proof) + x.mint + LeBytes(x.amount, 8) + x.commitment
  {
    ProofWrites(args);
    U64Writes(args, 288);
    SplitDeposit(args);
  }

  lemma {:induction false} SplitDeposit(args: seq<byte>)
    requires |args| == 328
    ensures args == args[..256] + args[256..288] + args[288..296] + args[296..328]
  {
    assert args[..288] == args[..256] + args[256..288];
  }

  /** What every spending instruction starts with. */
  lemma {:induction false} SplitHead(args: seq<byte>)
    requires 352 <= |args|
    ensures args[..352] == args[..256] + args[256..288] + args[288..320] + args[320..352]
  {}

  lemma {:induction false} WithdrawWrites(args: seq<byte>, x: Parsed)
    requires ParseWithdraw(args) == Ok(x)
    ensures x.Withdraw? && args == ProofPart(x.proof) + x.root + x.nullifier + x.mint + LeBytes(x.amount, 8) + x.recipient
  {
    ProofWrites(args);
    U64Writes(args, 352);
    SplitHead(args);
    assert args == args[..352] + args[352..360] + args[360..392];
  }

  lemma {:induction false} TransferWrites(args: seq<byte>, x: Parsed)
    requires ParseTransfer(args) == Ok(x)
    ensures x.Transfer? && TRANSFER_LEN <= |args|
    ensures args == ProofPart(x.proof) + x.root + x.nullifier0 + x.nullifier1 + x.commitment0 + x.commitment1 + args[TRANSFER_LEN..]
  {
    ProofWrites(args);
    SplitHead(args);
    assert args == args[..352] + args[352..384] + args[384..416] + args[416..];
  }

  lemma {:induction false} BurnWrites(args: seq<byte>, x: Parsed)
    requires ParseBurn(args) == Ok(x)
    ensures x.Burn?
    ensures args == ProofPart(x.proof) + x.root + x.nullifier + x.mint + LeBytes(x.amount, 8) + x.destChain + x.destAddress
  {
    ProofWrites(args);
    U64Writes(args, 352);
    SplitHead(args);
    SplitBurn(args);
  }

  lemma {:induction false} SplitBurn(args: seq<byte>)
    requires |args| == 424
    ensures args == args[..352] + args[352..360] + args[360..392] + args[392..424]
  {}

  lemma {:induction false} XburnWrites(args: seq<byte>, x: Parsed)
    requires ParseXburn(args) == Ok(x) || ParseMintFromXburn(args) == Ok(x)
    ensures x.Xburn? || x.MintFromXburn?
    ensures args == ProofPart(x.proof) + x.root + x.nullifier + x.destChain + x.outCommitment
  {
    ProofWrites(args);
    SplitHead(args);
    assert args == args[..352] + args[352..384];
  }

  /** The program accepts nothing but printed instructions: parsing loses no byte except what trails a transfer. */
  lemma {:induction false} PrintParse(data: seq<byte>, x: Parsed)
    requires Dispatch(data) == Ok(x)
    ensures Encode(x, Trailing(data, x)) == data
  {
    var args := data[1..];
    assert data == [data[0]] + args;
    match x
    case InitializePool =>
    case Deposit(_, _, _, _) => DepositWrites(args, x);
    case Withdraw(_, _, _, _, _, _) => WithdrawWrites(args, x);
    case Transfer(_, _, _, _, _, _) =>
      TransferWrites(args, x);
      assert args[TRANSFER_LEN..] == data[1 + TRANSFER_LEN..];
    case Burn(_, _, _, _, _, _, _) => BurnWrites(args, x);
    case InitializeXburnPending(_) =>
    case AddPendingXburn(_, _, _) =>
      assert args == args[0..32] + args[32..64] + args[64..96];
    case MintFromXburn(_, _, _, _, _) => XburnWrites(args, x);
    case Xburn(_, _, _, _, _) => XburnWrites(args, x);
  }

  /** Appending a memo to an accepted transfer changes nothing that the program reads. */
  lemma {:induction false} MemoIgnored(data: seq<byte>, memo: seq<byte>)
    requires Dispatch(data).Ok? && Dispatch(data).value.Transfer?
    ensures Dispatch(data + memo) == Dispatch(data)
  {
    var x := Dispatch(data).value;
    PrintParse(data, x);
    var trailing := Trailing(data, x);
    assert Args(x, trailing) + memo == Args(x, trailing + memo);
    assert data + memo == Encode(x, trailing + memo);
    ParsePrint(x, trailing + memo);
  }

  // ---------- the printers ----------

  datatype Fields = Fields(
    mint: Bytes32, amount: u64, commitment: Bytes32, nullifier: Bytes32, merkleRoot: Bytes32, recipient: Bytes32, destChain: Bytes32)

  /** What the named circuit's instruction should say. */
  function Intended(circuit: string, p: ProofBytes, f: Fields): Result<Parsed, string> {
    if circuit == "deposit" then Ok(Deposit(p, f.mint, f.amount, f.commitment))
    else if circuit == "withdraw" then Ok(Withdraw(p, f.merkleRoot, f.nullifier, f.mint, f.amount, f.recipient))
    else if circuit == "burn" then Ok(Burn(p, f.merkleRoot, f.nullifier, f.mint, f.amount, f.destChain, f.recipient))
    else Err("circuit must be deposit|withdraw|burn, got " + circuit)
  }

  method PushProof(tag: byte, p: ProofBytes) returns (data: seq<byte>)
    ensures data == [tag] + ProofPart(p)
  {
    data := [tag];
    data := data + p.a;
    data := data + p.b;
    data := data + p.c;
  }

  method PrintDeposit(p: ProofBytes, f: Fields) returns (data: seq<byte>)
    ensures Dispatch(data) == Ok(Deposit(p, f.mint, f.amount, f.commitment))
  {
    data := PushProof(1, p);
    data := data + f.mint;
    data := data + LeBytes(f.amount, 8);
    data := data + f.commitment;
    var x := Deposit(p, f.mint, f.amount, f.commitment);
    assert data[1..] == Args(x, []);
    ParsePrint(x, []);
  }

  method PrintWithdraw(p: ProofBytes, f: Fields) returns (data: seq<byte>)
    ensures Dispatch(data) == Ok(Withdraw(p, f.merkleRoot, f.nullifier, f.mint, f.amount, f.recipient))
  {
    data := PushProof(2, p);
    data := data + f.merkleRoot;
    data := data + f.nullifier;
    data := data + f.mint;
    data := data + LeBytes(f.amount, 8);
    data := data + f.recipient;
    var x := Withdraw(p, f.merkleRoot, f.nullifier, f.mint, f.amount, f.recipient);
    assert data[1..] == Args(x, []);
    ParsePrint(x, []);
  }

  method PrintBurn(p: ProofBytes, f: Fields) returns (data: seq<byte>)
    ensures Dispatch(data) == Ok(Burn(p, f.merkleRoot, f.nullifier, f.mint, f.amount, f.destChain, f.recipient))
  {
    data := PushProof(4, p);
    data := data + f.merkleRoot;
    data := data + f.nullifier;
    data := data + f.mint;
    data := data + LeBytes(f.amount, 8);
    data := data + f.destChain;
    data := data + f.recipient;
    var x := Burn(p, f.merkleRoot, f.nullifier, f.mint, f.amount, f.destChain, f.recipient);
    assert data[1..] == Args(x, []);
    ParsePrint(x, []);
  }

  /** `opaq_instruction`: what it prints, the program parses as intended. */
  method OpaqInstruction(circuit: string, p: ProofBytes, f: Fields) returns (r: Result<seq<byte>, string>)
    ensures r.Ok? <==> Intended(circuit, p, f).Ok?
    ensures r.Ok? ==> Dispatch(r.value) == Ok(Intended(circuit, p, f).value)
    ensures r.Err? ==> r.error == Intended(circuit, p, f).error
  {
    if circuit == "deposit" {
      var data := PrintDeposit(p, f);
      return Ok(data);
    } else if circuit == "withdraw" {
      var data := PrintWithdraw(p, f);
      return Ok(data);
    } else if circuit == "burn" {
      var data := PrintBurn(p, f);
      return Ok(data);
    } else {
      return Err("circuit must be deposit|withdraw|burn, got " + circuit);
    }
  }

  /** The printer of instructions whose arguments are exactly their public inputs. */
  method EmitPublic(circuit: string, p: ProofBytes, public: seq<Bytes32>) returns (data: seq<byte>)
    requires circuit in {"transfer", "xburn", "xburn-source"}
    requires |public| == if circuit == "transfer" then 5 else 4
    ensures circuit == "transfer" ==> Dispatch(data) == Ok(Transfer(p, public[0], public[1], public[2], public[3], public[4]))
    ensures circuit == "xburn" ==> Dispatch(data) == Ok(MintFromXburn(p, public[0], public[1], public[2], public[3]))
    ensures circuit == "xburn-source" ==> Dispatch(data) == Ok(Xburn(p, public[0], public[1], public[2], public[3]))
  {
    var tag: byte := if circuit == "transfer" then 3 else if circuit == "xburn" then 7 else 8;
    data := [tag];
    data := data + p.a;
    data := data + p.b;
    data := data + p.c;
    assert data == [tag] + ProofPart(p);
    for i := 0 to |public|
      invariant data == [tag] + (ProofPart(p) + Flatten(public[..i]))
    {
      assert public[..i + 1][..i] == public[..i];
      data := data + public[i];
    }
    assert public[..|public|] == public;
    PublicArgs(circuit, p, public);
  }

  lemma {:induction false} PublicArgs(circuit: string, p: ProofBytes, public: seq<Bytes32>)
    requires circuit in {"transfer", "xburn", "xburn-source"}
    requires |public| == if circuit == "transfer" then 5 else 4
    ensures circuit == "transfer" ==>
      Dispatch([3] + (ProofPart(p) + Flatten(public))) == Ok(Transfer(p, public[0], public[1], public[2], public[3], public[4]))
    ensures circuit == "xburn" ==>
      Dispatch([7] + (ProofPart(p) + Flatten(public))) == Ok(MintFromXburn(p, public[0], public[1], public[2], public[3]))
    ensures circuit == "xburn-source" ==>
      Dispatch([8] + (ProofPart(p) + Flatten(public))) == Ok(Xburn(p, public[0], public[1], public[2], public[3]))
  {
    if circuit == "transfer" {
      var x := Transfer(p, public[0], public[1], public[2], public[3], public[4]);
      FlattenFive(public);
      assert ProofPart(p) + Flatten(public) == Args(x, []);
      ParsePrint(x, []);
    } else {
      var m, x := MintFromXburn(p, public[0], public[1], public[2], public[3]), Xburn(p, public[0], public[1], public[2], public[3]);
      FlattenFour(public);
      assert ProofPart(p) + Flatten(public) == Args(x, []) == Args(m, []);
      ParsePrint(x, []);
      ParsePrint(m, []);
    }
  }

  function Flatten(ws: seq<seq<byte>>): seq<byte> {
    if ws == [] then [] else Flatten(ws[..|ws| - 1]) + ws[|ws| - 1]
  }

  lemma {:induction false} FlattenFour(ws: seq<seq<byte>>)
    requires |ws| == 4
    ensures Flatten(ws) == ws[0] + ws[1] + ws[2] + ws[3]
  {
    assert ws[..3][..2] == ws[..2] && ws[..2][..1] == ws[..1] && ws[..1][..0] == [];
    assert Flatten(ws[..1]) == ws[0];
    assert Flatten(ws[..2]) == ws[0] + ws[1];
  }

  lemma {:induction false} FlattenFive(ws: seq<seq<byte>>)
    requires |ws| == 5
    ensures Flatten(ws) == ws[0] + ws[1] + ws[2] + ws[3] + ws[4]
  {
    FlattenFour(ws[..4]);
  }
}
