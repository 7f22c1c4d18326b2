/** The balance-ledger destination of `burn`: attest a burn, then credit its disclosed amount once. */
module MintLedger {
  import opened Wrappers
  import opened Bytes
  import opened Digests
  import opened Circuits
  import opened Registers

  const UINT160: nat := 0x1_0000_0000_0000_0000_0000_0000_0000_0000_0000_0000
  const UINT256: nat := UINT160 * 0x1_0000_0000_0000_0000_0000_0000

  /** `address(uint160(x))`: the low 160 bits of a word. */
  datatype Address = Low160(n: nat) | OfDigest(d: Digest)

  function AddressOf(f: Digest): Address {
    if f.Num? then Low160(f.n % UINT160) else OfDigest(f)
  }

  datatype Revert = NotOperator | AlreadyMinted | NotPending | WrongDestChain | BadProof | Overflow

  datatype Attestation = Attestation(token: Digest, amount: Digest, destChain: Digest, to: Address)
  datatype Credit = Credit(nullifier: Digest, token: Digest, to: Address, amount: nat)

  type Holder = (Digest, Address)

  /** Contract storage, then the emitted mint events. */
  datatype Ledger = Ledger(
    pending: map<Digest, Attestation>,
    minted: set<Digest>,
    balances: map<Holder, nat>,
    operator: nat,
    chainId: nat,
    credits: seq<Credit>)

  datatype Call =
    | CallAddPending(sender: nat, nullifier: Digest, attested: Attestation)
    | CallMint(root: Digest, nullifier: Digest, token: Digest, amount: Digest, destChain: Digest, destAddress: Digest, w: SpendWitness)

  function Genesis(operator: nat, chainId: nat): Ledger {
    Ledger(map[], {}, map[], operator, chainId, [])
  }

  function BalanceOf(balances: map<Holder, nat>, h: Holder): nat {
    if h in balances then balances[h] else 0
  }

  function Execute(l: Ledger, call: Call): Result<Ledger, Revert> {
    match call
    case CallAddPending(sender, nullifier, attested) =>
      if sender != l.operator then Err(NotOperator)
      else if nullifier in l.minted then Err(AlreadyMinted)
      else Ok(l.(pending := l.pending[nullifier := attested]))
    case CallMint(root, nullifier, token, amount, destChain, destAddress, w) =>
      var to := AddressOf(destAddress);
      if nullifier in l.minted then Err(AlreadyMinted)
      else if nullifier !in l.pending || l.pending[nullifier] != Attestation(token, amount, destChain, to) then Err(NotPending)
      else if destChain != Num(l.chainId) then Err(WrongDestChain)
      else if !SpendRelation(root, nullifier, token, amount, w) then Err(BadProof)
      else if UINT256 <= BalanceOf(l.balances, (token, to)) + amount.n then Err(Overflow)
      else Ok(l.(minted := l.minted + {nullifier}, pending := l.pending - {nullifier},
                 balances := l.balances[(token, to) := BalanceOf(l.balances, (token, to)) + amount.n],
                 credits := l.credits + [Credit(nullifier, token, to, amount.n)]))
  }

  function Apply(l: Ledger, call: Call): Ledger {
    var r := Execute(l, call);
    if r.Ok? then r.value else l
  }

  class OpaqMint {
    const operator: nat
    const chainId: nat
    var pendingMint: map<Digest, Attestation>
    var minted: set<Digest>
    var balanceOf: map<Holder, nat>
    ghost var credits: seq<Credit>

    ghost function State(): Ledger
      reads this
    {
      Ledger(pendingMint, minted, balanceOf, operator, chainId, credits)
    }

    constructor (operator: nat, chainId: nat)
      ensures State() == Genesis(operator, chainId)
    {
      this.operator, this.chainId := operator, chainId;
      pendingMint, minted, balanceOf, credits := map[], {}, map[], [];
    }

    method AddPending(sender: nat, nullifier: Digest, attested: Attestation) returns (r: Result<(), Revert>)
      modifies this`pendingMint
      ensures State() == Apply(old(State()), CallAddPending(sender, nullifier, attested))
      ensures var spec := Execute(old(State()), CallAddPending(sender, nullifier, attested));
        r == if spec.Ok? then Ok(()) else Err(spec.error)
    {
      if sender != operator {
        return Err(NotOperator);
      }
      if nullifier in minted {
        return Err(AlreadyMinted);
      }
      pendingMint := pendingMint[nullifier := attested];
      return Ok(());
    }

    method Mint(root: Digest, nullifier: Digest, token: Digest, amount: Digest, destChain: Digest, destAddress: Digest, w: SpendWitness)
      returns (r: Result<(), Revert>)
      requires WellSized(w)
      modifies this
      ensures State() == Apply(old(State()), CallMint(root, nullifier, token, amount, destChain, destAddress, w))
      ensures var spec := Execute(old(State()), CallMint(root, nullifier, token, amount, destChain, destAddress, w));
        r == if spec.Ok? then Ok(()) else Err(spec.error)
      ensures r.Ok? && destAddress.Num? ==>
        var holder := (token, Low160(destAddress.n % UINT160));
        && BalanceOf(balanceOf, holder) == BalanceOf(old(balanceOf), holder) + amount.n
        && forall h :: h != holder ==> BalanceOf(balanceOf, h) == BalanceOf(old(balanceOf), h)
    {
      if nullifier in minted {
        return Err(AlreadyMinted);
      }
      var to := AddressOf(destAddress);
      if nullifier !in pendingMint || pendingMint[nullifier] != Attestation(token, amount, destChain, to) {
        return Err(NotPending);
      }
      if destChain != Num(chainId) {
        return Err(WrongDestChain);
      }
      var valid := SpendCircuit(root, nullifier, token, amount, w);
      if !valid {
        return Err(BadProof);
      }
      var balance := BalanceOf(balanceOf, (token, to)) + amount.n;
      if UINT256 <= balance {
        return Err(Overflow);
      }
      minted := minted + {nullifier};
      pendingMint := pendingMint - {nullifier};
      balanceOf := balanceOf[(token, to) := balance];
      credits := credits + [Credit(nullifier, token, to, amount.n)];
      return Ok(());
    }
  }

  // ---------- who is credited ----------

  /** The holder of a 256-bit destination word is named by its low 160 bits, whatever the bits above them. */
  lemma {:induction false} LowBitsName(high: nat, a: nat)
    requires a < UINT160
    ensures AddressOf(Num(high * UINT160 + a)) == Low160(a)
  {
    ModUnique(high * UINT160 + a, UINT160, high, a);
  }

  /** Two destinations name one holder exactly when they agree modulo 2^160; real addresses are never confused. */
  lemma {:induction false} SameHolder(f: nat, g: nat)
    ensures AddressOf(Num(f)) == AddressOf(Num(g)) <==> f % UINT160 == g % UINT160
    ensures f < UINT160 && g < UINT160 && f != g ==> AddressOf(Num(f)) != AddressOf(Num(g))
  {}

  /** An accepted mint raises the balance of exactly the address it names, by exactly the amount. */
  lemma {:induction false} MintCredits(l: Ledger, call: Call, a: nat)
    requires call.CallMint? && Execute(l, call).Ok?
    requires a < UINT160 && call.destAddress.Num? && call.destAddress.n % UINT160 == a
    ensures var l', holder := Apply(l, call), (call.token, Low160(a));
      && BalanceOf(l'.balances, holder) == BalanceOf(l.balances, holder) + call.amount.n
      && (forall h :: h != holder ==> BalanceOf(l'.balances, h) == BalanceOf(l.balances, h))
      && call.nullifier in l'.minted && call.nullifier !in l'.pending
      && (forall nf :: nf != call.nullifier ==> (nf in l'.minted <==> nf in l.minted) && (nf in l'.pending <==> nf in l.pending))
  {}

  /** What a call credits to the address `a` in `token`. */
  function CreditsTo(call: Call, token: Digest, a: nat): nat {
    if call.CallMint? && call.token == token && call.amount.Num? && call.destAddress.Num? && call.destAddress.n % UINT160 == a
    then call.amount.n else 0
  }

  function CreditedTo(l: Ledger, calls: seq<Call>, token: Digest, a: nat): nat {
    if calls == [] then 0 else
    var init, last := calls[..|calls| - 1], calls[|calls| - 1];
    CreditedTo(l, init, token, a) + if Execute(Run(l, init), last).Ok? then CreditsTo(last, token, a) else 0
  }

  lemma {:induction false} StepCredits(l: Ledger, call: Call, token: Digest, a: nat)
    requires a < UINT160
    ensures BalanceOf(Apply(l, call).balances, (token, Low160(a)))
         == BalanceOf(l.balances, (token, Low160(a))) + if Execute(l, call).Ok? then CreditsTo(call, token, a) else 0
  {}

  /** A holder's statement: the balance of an address is what the accepted mints made out to it. */
  lemma {:induction false} HolderStatement(l: Ledger, calls: seq<Call>, token: Digest, a: nat)
    requires a < UINT160
    ensures BalanceOf(Run(l, calls).balances, (token, Low160(a))) == BalanceOf(l.balances, (token, Low160(a))) + CreditedTo(l, calls, token, a)
  {
    if calls != [] {
      var init, last := calls[..|calls| - 1], calls[|calls| - 1];
      HolderStatement(l, init, token, a);
      StepCredits(Run(l, init), last, token, a);
    }
  }

  // ---------- the invariant of every run, whatever the operator does ----------

  function Credited(credits: seq<Credit>, h: Holder): nat {
    if credits == [] then 0 else
    var last := credits[|credits| - 1];
    Credited(credits[..|credits| - 1], h) + if (last.token, last.to) == h then last.amount else 0
  }

  /** Total supply of a token on this ledger. */
  function Supply(credits: seq<Credit>, token: Digest): nat {
    if credits == [] then 0 else
    var last := credits[|credits| - 1];
    Supply(credits[..|credits| - 1], token) + if last.token == token then last.amount else 0
  }

  ghost predicate Sound(l: Ledger) {
    && (forall h: Holder :: BalanceOf(l.balances, h) == Credited(l.credits, h))
    && (forall nf :: nf in l.pending ==> nf !in l.minted)
    && (forall i :: 0 <= i < |l.credits| ==> l.credits[i].nullifier in l.minted)
    && (forall i, j :: 0 <= i < j < |l.credits| ==> l.credits[i].nullifier != l.credits[j].nullifier)
    && (forall i :: 0 <= i < |l.credits| ==>
          var c := l.credits[i]; IsNullifier(c.nullifier) && Value(c.nullifier.left, c.token) == c.amount)
  }

  lemma {:induction false} CreditAppend(credits: seq<Credit>, c: Credit, h: Holder)
    ensures Credited(credits + [c], h) == Credited(credits, h) + if (c.token, c.to) == h then c.amount else 0
    ensures Supply(credits + [c], h.0) == Supply(credits, h.0) + if c.token == h.0 then c.amount else 0
  {
    assert (credits + [c])[..|credits|] == credits;
  }

  lemma {:induction false} CreditEvent(l: Ledger, call: Call)
    requires call.CallMint? && Execute(l, call).Ok?
    ensures var c := Credit(call.nullifier, call.token, AddressOf(call.destAddress), call.amount.n);
      && Apply(l, call).credits == l.credits + [c] && Apply(l, call).minted == l.minted + {c.nullifier}
      && c.nullifier in l.pending && l.pending[c.nullifier] == Attestation(c.token, Num(c.amount), Num(l.chainId), c.to)
  {}

  lemma {:induction false} NoCreditEvent(l: Ledger, call: Call)
    requires !(call.CallMint? && Execute(l, call).Ok?)
    ensures Apply(l, call).credits == l.credits && Apply(l, call).minted == l.minted
  {}

  /** Each nullifier is credited at most once, for exactly the value of the note it opens; balances are the sums of credits. */
  lemma {:induction false} ApplySound(l: Ledger, call: Call)
    requires Sound(l)
    ensures Sound(Apply(l, call))
  {
    if call.CallMint? && Execute(l, call).Ok? {
      var c := Credit(call.nullifier, call.token, AddressOf(call.destAddress), call.amount.n);
      var l' := Apply(l, call);
      forall h: Holder
        ensures BalanceOf(l'.balances, h) == Credited(l'.credits, h)
      {
        CreditAppend(l.credits, c, h);
      }
    }
  }

  function Run(l: Ledger, calls: seq<Call>): Ledger {
    if calls == [] then l else Apply(Run(l, calls[..|calls| - 1]), calls[|calls| - 1])
  }

  lemma {:induction false} RunSound(l: Ledger, calls: seq<Call>)
    requires Sound(l)
    ensures Sound(Run(l, calls))
  {
    if calls != [] {
      RunSound(l, calls[..|calls| - 1]);
      ApplySound(Run(l, calls[..|calls| - 1]), calls[|calls| - 1]);
    }
  }

  /** A mint credits only what was attested at that moment, and consumes the attestation for good. */
  lemma {:induction false} CreditsWhatWasAttested(l: Ledger, call: Call)
    requires Sound(l) && Apply(l, call).credits != l.credits
    ensures call.CallMint? && call.nullifier in l.pending && call.destChain == Num(l.chainId)
    ensures l.pending[call.nullifier] == Attestation(call.token, call.amount, call.destChain, AddressOf(call.destAddress))
    ensures call.nullifier in Apply(l, call).minted && call.nullifier !in Apply(l, call).pending
  {}

  lemma {:induction false} ConsumedStaysConsumed(l: Ledger, calls: seq<Call>, nf: Digest)
    requires Sound(l) && nf in l.minted
    ensures nf in Run(l, calls).minted && nf !in Run(l, calls).pending
  {
    if calls != [] {
      ConsumedStaysConsumed(l, calls[..|calls| - 1], nf);
    }
  }

  function SumBalances(balances: map<Holder, nat>, hs: seq<Holder>): nat {
    if hs == [] then 0 else SumBalances(balances, hs[..|hs| - 1]) + BalanceOf(balances, hs[|hs| - 1])
  }

  function SumCredited(credits: seq<Credit>, hs: seq<Holder>): nat {
    if hs == [] then 0 else SumCredited(credits, hs[..|hs| - 1]) + Credited(credits, hs[|hs| - 1])
  }

  lemma {:induction false} SumCreditedAppend(credits: seq<Credit>, c: Credit, hs: seq<Holder>)
    requires NoDup(hs)
    ensures SumCredited(credits + [c], hs) == SumCredited(credits, hs) + if (c.token, c.to) in hs then c.amount else 0
  {
    if hs != [] {
      var init, last := hs[..|hs| - 1], hs[|hs| - 1];
      SumCreditedAppend(credits, c, init);
      CreditAppend(credits, c, last);
      assert hs == init + [last];
    }
  }

  lemma {:induction false} SumCreditedBounded(credits: seq<Credit>, token: Digest, hs: seq<Holder>)
    requires NoDup(hs) && forall i :: 0 <= i < |hs| ==> hs[i].0 == token
    ensures SumCredited(credits, hs) <= Supply(credits, token)
  {
    if credits == [] {
      SumCreditedEmpty(hs);
    } else {
      var init, c := credits[..|credits| - 1], credits[|credits| - 1];
      SumCreditedBounded(init, token, hs);
      assert credits == init + [c];
      SumCreditedAppend(init, c, hs);
      CreditAppend(init, c, (token, c.to));
    }
  }

  lemma {:induction false} SumCreditedEmpty(hs: seq<Holder>)
    ensures SumCredited([], hs) == 0
  {
    if hs != [] { SumCreditedEmpty(hs[..|hs| - 1]); }
  }

  lemma {:induction false} SumBalancesCredited(l: Ledger, hs: seq<Holder>)
    requires Sound(l)
    ensures SumBalances(l.balances, hs) == SumCredited(l.credits, hs)
  {
    if hs != [] { SumBalancesCredited(l, hs[..|hs| - 1]); }
  }

  /** However many distinct holders are added up, their balances never exceed the supply. */
  lemma {:induction false} HoldersWithinSupply(l: Ledger, token: Digest, hs: seq<Holder>)
    requires Sound(l)
    requires NoDup(hs) && forall i :: 0 <= i < |hs| ==> hs[i].0 == token
    ensures SumBalances(l.balances, hs) <= Supply(l.credits, token)
  {
    SumBalancesCredited(l, hs);
    SumCreditedBounded(l.credits, token, hs);
  }
}
