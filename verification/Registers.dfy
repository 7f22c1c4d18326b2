/** The two append-only registers of the pool: spent nullifiers, and operator attestations of foreign burns. */
module Registers {
  import opened Wrappers

  ghost predicate NoDup<T>(s: seq<T>) {
    forall i, j :: 0 <= i < j < |s| ==> s[i] != s[j]
  }

  datatype NullifierError = AlreadySpent

  /** Recording a nullifier once. */
  function TryInsert<T(==)>(s: seq<T>, n: T): Result<seq<T>, NullifierError> {
    if n in s then Err(AlreadySpent) else Ok(s + [n])
  }

  class NullifierSet<T(==)> {
    var nullifiers: seq<T>

    constructor ()
      ensures nullifiers == []
    {
      nullifiers := [];
    }

    method Contains(n: T) returns (found: bool)
      ensures found <==> n in nullifiers
    {
      for i := 0 to |nullifiers|
        invariant n !in nullifiers[..i]
      {
        if nullifiers[i] == n {
          return true;
        }
      }
      return false;
    }

    method TryInsert(n: T) returns (r: Result<(), NullifierError>)
      requires NoDup(nullifiers)
      modifies this
      ensures NoDup(nullifiers)
      ensures r == if n in old(nullifiers) then Err(AlreadySpent) else Ok(())
      ensures nullifiers == if r.Ok? then old(nullifiers) + [n] else old(nullifiers)
    {
      var found := Contains(n);
      if found {
        return Err(AlreadySpent);
      }
      nullifiers := nullifiers + [n];
      return Ok(());
    }
  }

  // ---------- attestations ----------

  datatype Entry<T> = Entry(nullifier: T, expected: T, minted: bool)

  /** Index of the first entry for `n`, or the length when there is none. */
  function IndexOf<T(==)>(es: seq<Entry<T>>, n: T): (i: nat)
    ensures i <= |es|
    ensures i < |es| ==> es[i].nullifier == n
    ensures forall k :: 0 <= k < i ==> es[k].nullifier != n
  {
    if es == [] then 0 else if es[0].nullifier == n then 0 else 1 + IndexOf(es[1..], n)
  }

  predicate Attested<T(==)>(es: seq<Entry<T>>, n: T) {
    IndexOf(es, n) < |es|
  }

  function MarkMinted<T>(es: seq<Entry<T>>, i: nat): seq<Entry<T>>
    requires i < |es|
  {
    es[i := es[i].(minted := true)]
  }

  /** The nullifiers that have been consumed. */
  function Minted<T(==)>(es: seq<Entry<T>>): set<T> {
    set i | 0 <= i < |es| && es[i].minted :: es[i].nullifier
  }

  ghost predicate DistinctEntries<T>(es: seq<Entry<T>>) {
    forall i, j :: 0 <= i < j < |es| ==> es[i].nullifier != es[j].nullifier
  }

  /** Adding an attestation consumes nothing; marking one consumes exactly its nullifier. */
  lemma {:induction false} MintedChanges<T>(es: seq<Entry<T>>, e: Entry<T>, i: nat)
    requires i < |es| && !e.minted
    ensures Minted(es + [e]) == Minted(es)
    ensures Minted(MarkMinted(es, i)) == Minted(es) + {es[i].nullifier}
  {
    var added, marked := es + [e], MarkMinted(es, i);
    forall n
      ensures n in Minted(added) <==> n in Minted(es)
      ensures n in Minted(marked) <==> n in Minted(es) + {es[i].nullifier}
    {
      if n in Minted(es) {
        var k :| 0 <= k < |es| && es[k].minted && es[k].nullifier == n;
        assert added[k].minted && added[k].nullifier == n && marked[k].minted && marked[k].nullifier == n;
      }
      assert marked[i].minted && marked[i].nullifier == es[i].nullifier;
    }
  }
}
