/** The attestor canister's read side: agreement among RPC providers, and acceptance of a named cross-chain burn. */
module Attestor {
  import opened Bytes
  import opened Wrappers
  import Wire

  /** An instruction as a provider reports it; `data` is absent when missing or not base58. */
  datatype Ix = Ix(programIdIndex: Option<nat>, data: Option<seq<byte>>)

  datatype Transaction =
    | NotFound
    | Found(failed: bool, accountKeys: Option<seq<string>>, instructions: Option<seq<Ix>>)

  datatype Reject =
    | NoAgreement | TransactionNotFound | TransactionFailed | MissingAccountKeys | ProgramNotReferenced
    | MissingInstructions | NoOpaqInstruction | NoData | WrongTag | WrongLength
    | WrongNullifier | WrongDestChain | WrongOutCommitment

  // ---------- provider agreement ----------

  function Count<R(==)>(rs: seq<R>, v: R): nat {
    if rs == [] then 0 else Count(rs[..|rs| - 1], v) + if rs[|rs| - 1] == v then 1 else 0
  }

  /** Votes are counted with multiplicity. */
  lemma {:induction false} CountIsMultiplicity<R>(rs: seq<R>, v: R)
    ensures Count(rs, v) == multiset(rs)[v]
  {
    if rs != [] {
      CountIsMultiplicity(rs[..|rs| - 1], v);
      assert rs == rs[..|rs| - 1] + [rs[|rs| - 1]];
    }
  }

  /** The replies that arrived, in order. */
  function Received<R>(replies: seq<Option<R>>): seq<R> {
    if replies == [] then [] else
    var last := replies[|replies| - 1];
    Received(replies[..|replies| - 1]) + if last.Some? then [last.value] else []
  }

  /** Returns the first received value that at least `threshold` providers agree on. */
  method GetWithAgreement<R(==)>(replies: seq<Option<R>>, threshold: nat) returns (r: Result<R, Reject>)
    ensures r.Ok? ==> r.value in Received(replies) && threshold <= Count(Received(replies), r.value)
    ensures r.Ok? ==> var got := Received(replies);
      exists i :: 0 <= i < |got| && got[i] == r.value && forall k :: 0 <= k < i ==> Count(got, got[k]) < threshold
    ensures r.Err? ==> r.error == NoAgreement && forall v :: v in Received(replies) ==> Count(Received(replies), v) < threshold
  {
    var responses := [];
    for i := 0 to |replies|
      invariant responses == Received(replies[..i])
    {
      assert replies[..i + 1][..i] == replies[..i];
      if replies[i].Some? {
        responses := responses + [replies[i].value];
      }
    }
    assert replies[..|replies|] == replies;
    for i := 0 to |responses|
      invariant forall k :: 0 <= k < i ==> Count(responses, responses[k]) < threshold
    {
      var candidate, agree := responses[i], 0;
      for j := 0 to |responses|
        invariant agree == Count(responses[..j], candidate)
      {
        assert responses[..j + 1][..j] == responses[..j];
        if responses[j] == candidate {
          agree := agree + 1;
        }
      }
      assert responses[..|responses|] == responses;
      if agree >= threshold {
        return Ok(candidate);
      }
    }
    return Err(NoAgreement);
  }

  /** An honest provider reports the truth or nothing. */
  ghost predicate HonestExcept<R>(replies: seq<Option<R>>, faulty: seq<bool>, truth: R) {
    |faulty| == |replies| && forall i :: 0 <= i < |replies| && !faulty[i] ==> replies[i] == None || replies[i] == Some(truth)
  }

  lemma {:induction false} FalseVotes<R>(replies: seq<Option<R>>, faulty: seq<bool>, truth: R, v: R)
    requires HonestExcept(replies, faulty, truth) && v != truth
    ensures Count(Received(replies), v) <= Count(faulty, true)
  {
    if replies != [] {
      var top := |replies| - 1;
      FalseVotes(replies[..top], faulty[..top], truth, v);
      ReceivedCount(replies, v);
    }
  }

  lemma {:induction false} CountAppend<R>(s: seq<R>, x: R, v: R)
    ensures Count(s + [x], v) == Count(s, v) + if x == v then 1 else 0
  {
    assert (s + [x])[..|s|] == s;
  }

  lemma {:induction false} ReceivedCount<R>(replies: seq<Option<R>>, v: R)
    requires replies != []
    ensures var top := |replies| - 1;
      Count(Received(replies), v) == Count(Received(replies[..top]), v) + if replies[top] == Some(v) then 1 else 0
  {
    var top := |replies| - 1;
    var before := Received(replies[..top]);
    if replies[top].Some? {
      CountAppend(before, replies[top].value, v);
      assert Received(replies) == before + [replies[top].value];
    } else {
      assert Received(replies) == before;
    }
  }

  lemma {:induction false} TrueVotes<R>(replies: seq<Option<R>>, truth: R)
    ensures Count(Received(replies), truth) == Count(replies, Some(truth))
    ensures Count(replies, Some(truth)) != 0 ==> truth in Received(replies)
  {
    if replies != [] {
      TrueVotes(replies[..|replies| - 1], truth);
      ReceivedCount(replies, truth);
    }
  }

  /**
    With fewer faulty providers than the threshold nothing but the truth can be agreed on; and
    when at least `threshold` providers deliver the truth, it is agreed on.
   */
  lemma {:induction false} AgreementIsTruth<R>(replies: seq<Option<R>>, faulty: seq<bool>, truth: R, threshold: nat)
    requires HonestExcept(replies, faulty, truth) && Count(faulty, true) < threshold
    ensures forall v :: v in Received(replies) && threshold <= Count(Received(replies), v) ==> v == truth
    ensures threshold <= Count(replies, Some(truth)) ==> truth in Received(replies) && threshold <= Count(Received(replies), truth)
  {
    forall v | v in Received(replies) && v != truth
      ensures Count(Received(replies), v) < threshold
    {
      FalseVotes(replies, faulty, truth, v);
    }
    TrueVotes(replies, truth);
  }

  // ---------- acceptance ----------

  /** Index of the first element satisfying the test, or the length. */
  function FirstKey(keys: seq<string>, key: string): (i: nat)
    ensures i <= |keys| && (i < |keys| ==> keys[i] == key) && (i == |keys| <==> key !in keys)
    ensures forall k :: 0 <= k < i ==> keys[k] != key
  {
    if keys == [] then 0 else if keys[0] == key then 0 else 1 + FirstKey(keys[1..], key)
  }

  function FirstTo(ixs: seq<Ix>, program: nat): (i: nat)
    ensures i <= |ixs| && (i < |ixs| ==> ixs[i].programIdIndex == Some(program))
    ensures forall k :: 0 <= k < i ==> ixs[k].programIdIndex != Some(program)
  {
    if ixs == [] then 0 else if ixs[0].programIdIndex == Some(program) then 0 else 1 + FirstTo(ixs[1..], program)
  }

  /** The claim is exactly what the program itself would read from these instruction bytes. */
  predicate IsXburnOf(data: seq<byte>, nullifier: Bytes32, destChain: Bytes32, out: Bytes32) {
    var parsed := Wire.Dispatch(data);
    parsed.Ok? && parsed.value.Xburn? && parsed.value.nullifier == nullifier
    && parsed.value.destChain == destChain && parsed.value.outCommitment == out
  }

  /** The transaction succeeded, and its first instruction to the program is an `xburn` of the claimed tuple. */
  predicate Attests(tx: Transaction, program: string, nullifier: Bytes32, destChain: Bytes32, out: Bytes32) {
    && tx.Found? && !tx.failed && tx.accountKeys.Some? && tx.instructions.Some?
    && program in tx.accountKeys.value
    && var i := FirstTo(tx.instructions.value, FirstKey(tx.accountKeys.value, program));
      i < |tx.instructions.value| && tx.instructions.value[i].data.Some?
      && IsXburnOf(tx.instructions.value[i].data.value, nullifier, destChain, out)
  }

  /** Instruction `k` is the first one addressed to the key at position `j`, itself the first that names the program. */
  predicate FirstProgramIx(tx: Transaction, program: string, j: nat, k: nat) {
    && tx.Found? && tx.accountKeys.Some? && tx.instructions.Some?
    && var keys, ixs := tx.accountKeys.value, tx.instructions.value;
    && j < |keys| && keys[j] == program && (forall i :: 0 <= i < j ==> keys[i] != program)
    && k < |ixs| && ixs[k].programIdIndex == Some(j) && (forall i :: 0 <= i < k ==> ixs[i].programIdIndex != Some(j))
  }

  /** There is at most one such instruction. */
  lemma {:induction false} FirstIsUnique(tx: Transaction, program: string, j: nat, k: nat, j': nat, k': nat)
    requires FirstProgramIx(tx, program, j, k) && FirstProgramIx(tx, program, j', k')
    ensures j == j' && k == k'
  {}

  /** What acceptance rests on, spelled out: success, the first program instruction, and the tuple the program reads from it. */
  lemma {:induction false} AttestsExactly(tx: Transaction, program: string, nullifier: Bytes32, destChain: Bytes32, out: Bytes32)
    ensures Attests(tx, program, nullifier, destChain, out) <==>
      && tx.Found? && !tx.failed
      && exists j: nat, k: nat ::
           (FirstProgramIx(tx, program, j, k)
            && tx.instructions.value[k].data.Some?
            && var parsed := Wire.Dispatch(tx.instructions.value[k].data.value);
               parsed.Ok? && parsed.value.Xburn?
               && parsed.value.nullifier == nullifier && parsed.value.destChain == destChain && parsed.value.outCommitment == out)
  {
    if tx.Found? && tx.accountKeys.Some? && tx.instructions.Some? {
      var j := FirstKey(tx.accountKeys.value, program);
      var k := FirstTo(tx.instructions.value, j);
      if j < |tx.accountKeys.value| && k < |tx.instructions.value| {
        assert FirstProgramIx(tx, program, j, k);
      }
    }
  }

  const TAG_XBURN: byte := 8
  const OFF_NULLIFIER: nat := 1 + 64 + 128 + 64 + 32
  const OFF_DEST_CHAIN: nat := OFF_NULLIFIER + 32
  const OFF_OUT_COMMITMENT: nat := OFF_DEST_CHAIN + 32
  const XBURN_DATA_LEN: nat := OFF_OUT_COMMITMENT + 32

  /** The canister's fixed offsets read what the program's own parser reads. */
  lemma {:induction false} OffsetsAgree(data: seq<byte>)
    requires |data| == XBURN_DATA_LEN && data[0] == TAG_XBURN
    ensures Wire.Dispatch(data).Ok? && Wire.Dispatch(data).value.Xburn?
    ensures var x := Wire.Dispatch(data).value;
      && data[OFF_NULLIFIER..OFF_NULLIFIER + 32] == x.nullifier
      && data[OFF_DEST_CHAIN..OFF_DEST_CHAIN + 32] == x.destChain
      && data[OFF_OUT_COMMITMENT..OFF_OUT_COMMITMENT + 32] == x.outCommitment
  {
    var args := data[1..];
    assert args[288..320] == data[289..321] && args[320..352] == data[321..353] && args[352..384] == data[353..385];
  }

  method CheckData(data: seq<byte>, nullifier: Bytes32, destChain: Bytes32, out: Bytes32) returns (r: Result<(), Reject>)
    ensures r.Ok? <==> IsXburnOf(data, nullifier, destChain, out)
    ensures r == if data == [] || data[0] != 8 then Err(WrongTag)
                 else if |data| != 385 then Err(WrongLength)
                 else if data[289..321] != nullifier then Err(WrongNullifier)
                 else if data[321..353] != destChain then Err(WrongDestChain)
                 else if data[353..385] != out then Err(WrongOutCommitment)
                 else Ok(())
  {
    if data == [] || data[0] != TAG_XBURN {
      return Err(WrongTag);
    }
    if |data| != XBURN_DATA_LEN {
      return Err(WrongLength);
    }
    OffsetsAgree(data);
    if data[OFF_NULLIFIER..OFF_NULLIFIER + 32] != nullifier {
      return Err(WrongNullifier);
    }
    if data[OFF_DEST_CHAIN..OFF_DEST_CHAIN + 32] != destChain {
      return Err(WrongDestChain);
    }
    if data[OFF_OUT_COMMITMENT..OFF_OUT_COMMITMENT + 32] != out {
      return Err(WrongOutCommitment);
    }
    return Ok(());
  }

  method FindKey(keys: seq<string>, key: string) returns (i: nat)
    ensures i == FirstKey(keys, key)
  {
    i := 0;
    while i < |keys| && keys[i] != key
      invariant i <= |keys| && FirstKey(keys, key) == i + FirstKey(keys[i..], key)
    {
      assert keys[i..][1..] == keys[i + 1..];
      i := i + 1;
    }
  }

  method FindInstruction(ixs: seq<Ix>, program: nat) returns (i: nat)
    ensures i == FirstTo(ixs, program)
  {
    i := 0;
    while i < |ixs| && ixs[i].programIdIndex != Some(program)
      invariant i <= |ixs| && FirstTo(ixs, program) == i + FirstTo(ixs[i..], program)
    {
      assert ixs[i..][1..] == ixs[i + 1..];
      i := i + 1;
    }
  }

  method CheckTransaction(tx: Transaction, program: string, nullifier: Bytes32, destChain: Bytes32, out: Bytes32)
    returns (r: Result<(), Reject>)
    ensures r.Ok? <==> Attests(tx, program, nullifier, destChain, out)
    ensures r.Ok? ==> tx.Found? && !tx.failed
    ensures tx.NotFound? ==> r == Err(TransactionNotFound)
    ensures tx.Found? && tx.failed ==> r == Err(TransactionFailed)
    ensures tx.Found? && !tx.failed && tx.accountKeys.Some? && program !in tx.accountKeys.value ==> r == Err(ProgramNotReferenced)
  {
    if tx.NotFound? {
      return Err(TransactionNotFound);
    }
    if tx.failed {
      return Err(TransactionFailed);
    }
    if tx.accountKeys.None? {
      return Err(MissingAccountKeys);
    }
    var programIndex := FindKey(tx.accountKeys.value, program);
    if programIndex == |tx.accountKeys.value| {
      return Err(ProgramNotReferenced);
    }
    if tx.instructions.None? {
      return Err(MissingInstructions);
    }
    var i := FindInstruction(tx.instructions.value, programIndex);
    if i == |tx.instructions.value| {
      return Err(NoOpaqInstruction);
    }
    if tx.instructions.value[i].data.None? {
      return Err(NoData);
    }
    r := CheckData(tx.instructions.value[i].data.value, nullifier, destChain, out);
  }

  /**
    `verify_xburn_transaction`.  Providers are compared on their raw replies, and only the agreed
    reply is read as a transaction.  With fewer faulty providers than the threshold, acceptance
    means that the true transaction attests exactly the claimed tuple; and an attesting
    transaction that enough providers deliver in the same words is accepted.
   */
  method VerifyXburnTransaction<R(==)>(replies: seq<Option<R>>, read: R -> Transaction, threshold: nat, program: string,
                                       nullifier: Bytes32, destChain: Bytes32, out: Bytes32,
                                       ghost faulty: seq<bool>, ghost truth: R)
    returns (r: Result<(), Reject>)
    requires HonestExcept(replies, faulty, truth)
    ensures r.Ok? && Count(faulty, true) < threshold ==> Attests(read(truth), program, nullifier, destChain, out)
    ensures r.Ok? && Count(faulty, true) < threshold ==>
      var tx := read(truth);
      && tx.Found? && !tx.failed
      && exists j: nat, k: nat ::
           (FirstProgramIx(tx, program, j, k)
            && tx.instructions.value[k].data.Some?
            && var parsed := Wire.Dispatch(tx.instructions.value[k].data.value);
               parsed.Ok? && parsed.value.Xburn?
               && parsed.value.nullifier == nullifier && parsed.value.destChain == destChain && parsed.value.outCommitment == out)
    ensures Count(faulty, true) < threshold <= Count(replies, Some(truth)) ==>
      (r.Ok? <==> Attests(read(truth), program, nullifier, destChain, out))
  {
    var agreed := GetWithAgreement(replies, threshold);
    if Count(faulty, true) < threshold {
      AgreementIsTruth(replies, faulty, truth, threshold);
    }
    if agreed.Err? {
      return Err(NoAgreement);
    }
    AttestsExactly(read(truth), program, nullifier, destChain, out);
    r := CheckTransaction(read(agreed.value), program, nullifier, destChain, out);
  }
}
