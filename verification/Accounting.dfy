/** Value held in notes and in burns: the two sums that every conservation argument is about. */
module Accounting {
  import opened Bytes
  import opened Merkle
  import opened Digests

  function Elements<T(==)>(s: seq<T>): set<T> {
    set x | x in s
  }

  lemma {:induction false} ElementsAppend<T>(s: seq<T>, x: T)
    ensures Elements(s + [x]) == Elements(s) + {x}
  {}

  // ---------- notes ----------

  /** Total of `token` over the distinct inserted commitments that are not spent. */
  function Outstanding(leaves: seq<Digest>, nfs: set<Digest>, token: Digest): nat {
    if leaves == [] then 0 else
    var init, c := leaves[..|leaves| - 1], leaves[|leaves| - 1];
    Outstanding(init, nfs, token) + if c in init || Spent(c, nfs) then 0 else Value(c, token)
  }

  /** A new leaf adds at most its own value: nothing when it repeats a commitment or is already spent. */
  lemma {:induction false} OutstandingInsert(leaves: seq<Digest>, nfs: set<Digest>, c: Digest, token: Digest)
    ensures Outstanding(leaves + [c], nfs, token) ==
            Outstanding(leaves, nfs, token) + if c in leaves || Spent(c, nfs) then 0 else Value(c, token)
  {
    assert (leaves + [c])[..|leaves|] == leaves;
  }

  /** Recording a fresh nullifier removes exactly the note it opens, if that note was inserted. */
  lemma {:induction false} OutstandingSpend(leaves: seq<Digest>, nfs: set<Digest>, nf: Digest, token: Digest)
    requires IsNullifier(nf) && nf !in nfs
    ensures Outstanding(leaves, nfs, token) ==
            Outstanding(leaves, nfs + {nf}, token) + if nf.left in leaves then Value(nf.left, token) else 0
  {
    if leaves != [] {
      var init, c := leaves[..|leaves| - 1], leaves[|leaves| - 1];
      OutstandingSpend(init, nfs, nf, token);
      assert leaves == init + [c];
      assert Spent(c, nfs + {nf}) <==> Spent(c, nfs) || c == nf.left;
    }
  }

  /** Any one unspent note is part of the total. */
  lemma {:induction false} OutstandingHolds(leaves: seq<Digest>, nfs: set<Digest>, c: Digest, token: Digest)
    requires c in leaves && !Spent(c, nfs)
    ensures Value(c, token) <= Outstanding(leaves, nfs, token)
  {
    var init, last := leaves[..|leaves| - 1], leaves[|leaves| - 1];
    assert leaves == init + [last];
    if c in init {
      OutstandingHolds(init, nfs, c, token);
    }
  }

  // ---------- burns in flight ----------

  /** What an accepted `xburn` makes public, on either chain. */
  datatype Xburn = Xburn(nullifier: Digest, destChain: Digest, out: Digest)

  /** What an accepted `burn` makes public. */
  datatype Burn = Burn(nullifier: Digest, token: Digest, amount: u64, destChain: Digest, destAddress: Digest)

  /** The output note carries exactly the token and amount of the burned note. */
  predicate Carries(x: Xburn) {
    && IsNullifier(x.nullifier) && IsNote(x.nullifier.left) && IsNote(x.out)
    && x.out.token == x.nullifier.left.token && x.out.amount == x.nullifier.left.amount
  }

  predicate Discloses(b: Burn) {
    && IsNullifier(b.nullifier)
    && b.nullifier.left.token == b.token && b.nullifier.left.amount == Num(b.amount)
  }

  function Nullifiers(xs: seq<Xburn>): seq<Digest> {
    MapSeq((x: Xburn) => x.nullifier, xs)
  }

  function Outs(xs: seq<Xburn>): seq<Digest> {
    MapSeq((x: Xburn) => x.out, xs)
  }

  lemma {:induction false} EventAppend(xs: seq<Xburn>, x: Xburn)
    ensures Nullifiers(xs + [x]) == Nullifiers(xs) + [x.nullifier]
    ensures Outs(xs + [x]) == Outs(xs) + [x.out]
  {}

  function ClaimOf(x: Xburn): Claim {
    (x.destChain, x.nullifier)
  }

  function BurnClaimOf(b: Burn): Claim {
    (b.destChain, b.nullifier)
  }

  /** A burned note: the destination chain it was burned for, and its nullifier. */
  type Claim = (Digest, Digest)

  function ClaimValue(c: Claim, token: Digest): nat {
    if c.1.H2? then Value(c.1.left, token) else 0
  }

  /** Total of `token` over the burns that have not been minted yet. */
  function Unclaimed(claims: seq<Claim>, done: set<Claim>, token: Digest): nat {
    if claims == [] then 0 else
    var init, c := claims[..|claims| - 1], claims[|claims| - 1];
    Unclaimed(init, done, token) + if c in done then 0 else ClaimValue(c, token)
  }

  lemma {:induction false} UnclaimedAppend(claims: seq<Claim>, done: set<Claim>, c: Claim, token: Digest)
    ensures Unclaimed(claims + [c], done, token) ==
            Unclaimed(claims, done, token) + if c in done then 0 else ClaimValue(c, token)
  {
    assert (claims + [c])[..|claims|] == claims;
  }

  /** Minting a claim releases at least its value when it was recorded and open, and never adds any. */
  lemma {:induction false} UnclaimedDone(claims: seq<Claim>, done: set<Claim>, c: Claim, token: Digest)
    ensures Unclaimed(claims, done + {c}, token) + (if c in claims && c !in done then ClaimValue(c, token) else 0)
            <= Unclaimed(claims, done, token)
  {
    if claims != [] {
      var init, last := claims[..|claims| - 1], claims[|claims| - 1];
      assert claims == init + [last];
      UnclaimedDone(init, done, c, token);
    }
  }
}
