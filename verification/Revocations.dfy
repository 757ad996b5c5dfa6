/** Cumulative revocation facts: canonicalisation through an ordered map, and the check that no earlier
    fact was dropped or rewritten. `leq` is the byte order of digest text. */
module Revocations {
  import opened Lists
  import opened SupplyModel

  type Order = (Digest, Digest) -> bool

  predicate ByRecord(leq: Order, a: Revocation, b: Revocation) {
    leq(a.recordDigest, b.recordDigest)
  }

  function FactOrder(leq: Order): (Revocation, Revocation) -> bool {
    (a, b) => ByRecord(leq, a, b)
  }

  ghost predicate DistinctRecords(facts: seq<Revocation>) {
    forall i, j :: 0 <= i < j < |facts| ==> facts[i].recordDigest != facts[j].recordDigest
  }

  predicate FactWellFormed(f: Revocation) {
    IsToken(f.recordDigest) && !Blank(f.explanation)
  }

  /** What canonicalisation accepts: well-formed facts, one per record. */
  ghost predicate Facts(facts: seq<Revocation>) {
    DistinctRecords(facts) && forall i :: 0 <= i < |facts| ==> FactWellFormed(facts[i])
  }

  /** The values of the ordered map, in key order. */
  function Canonical(leq: Order, facts: seq<Revocation>): seq<Revocation> {
    Sort(FactOrder(leq), facts)
  }

  lemma FactOrderTotal(leq: Order)
    requires TotalOrder(leq)
    ensures TotalPreorder(FactOrder(leq))
  {
  }

  lemma FactOrderAntisymmetric(leq: Order, facts: seq<Revocation>)
    requires TotalOrder(leq) && DistinctRecords(facts)
    ensures AntisymmetricOn(FactOrder(leq), facts)
  {
  }

  lemma FactsPermute(a: seq<Revocation>, b: seq<Revocation>)
    requires multiset(a) == multiset(b) && Facts(a)
    ensures Facts(b)
  {
    SameElements(a, b);
    assert forall f :: f in b ==> f in a && FactWellFormed(f);
    assert Distinct(a) by {
      assert forall i, j :: 0 <= i < j < |a| ==> a[i].recordDigest != a[j].recordDigest;
    }
    DistinctPermutes(a, b);
    forall i, j | 0 <= i < j < |b| ensures b[i].recordDigest != b[j].recordDigest {
      assert b[i] in a && b[j] in a && b[i] != b[j];
      var k :| 0 <= k < |a| && a[k] == b[i];
      var l :| 0 <= l < |a| && a[l] == b[j];
      assert k != l;
    }
  }

  /** Canonical facts are a sorted arrangement of the same facts; they do not depend on the order the facts
      came in, and canonicalising again changes nothing. */
  lemma CanonicalForm(leq: Order, facts: seq<Revocation>)
    requires TotalOrder(leq) && Facts(facts)
    ensures multiset(Canonical(leq, facts)) == multiset(facts)
    ensures Sorted(FactOrder(leq), Canonical(leq, facts)) && Facts(Canonical(leq, facts))
    ensures forall other :: multiset(other) == multiset(facts) ==> Canonical(leq, other) == Canonical(leq, facts)
    ensures Canonical(leq, Canonical(leq, facts)) == Canonical(leq, facts)
  {
    hide Sort, Facts;
    FactOrderTotal(leq);
    SortSorted(FactOrder(leq), facts);
    FactsPermute(facts, Canonical(leq, facts));
    forall other | multiset(other) == multiset(facts) ensures Canonical(leq, other) == Canonical(leq, facts) {
      CanonicalAgrees(leq, facts, other);
    }
  }

  lemma CanonicalAgrees(leq: Order, facts: seq<Revocation>, other: seq<Revocation>)
    requires TotalOrder(leq) && Facts(facts) && multiset(other) == multiset(facts)
    ensures Canonical(leq, other) == Canonical(leq, facts)
  {
    hide Sort;
    FactOrderTotal(leq);
    FactOrderAntisymmetric(leq, facts);
    SortCanonical(FactOrder(leq), facts, other);
  }

  /** `canonical_revocation_facts`: insert each fact into an ordered map, refusing a second fact for a record. */
  method CanonicalFacts(leq: Order, facts: seq<Revocation>) returns (r: Result<seq<Revocation>, Error>)
    requires TotalOrder(leq)
    ensures r.Ok? <==> Facts(facts)
    ensures r.Ok? ==> r.value == Canonical(leq, facts)
  {
    hide Insert, IsToken;
    var order := FactOrder(leq);
    FactOrderTotal(leq);
    var keys: set<Digest>, values: seq<Revocation> := {}, [];
    for i := 0 to |facts|
      invariant Facts(facts[..i])
      invariant keys == set k | 0 <= k < i :: facts[k].recordDigest
      invariant Sorted(order, values) && multiset(values) == multiset(facts[..i])
    {
      var fact := facts[i];
      assert facts[..i + 1] == facts[..i] + [fact];
      if !IsToken(fact.recordDigest) {
        return Err(InvalidSnapshot);
      }
      if Blank(fact.explanation) {
        return Err(InvalidSnapshot);
      }
      if fact.recordDigest in keys {
        return Err(InvalidSnapshot);
      }
      keys := keys + {fact.recordDigest};
      InsertSorted(order, fact, values);
      values := Insert(order, fact, values);
    }
    assert facts[..|facts|] == facts;
    FactOrderAntisymmetric(leq, facts);
    SameElements(values, facts);
    SortSorted(order, facts);
    SortedDetermined(order, values, Canonical(leq, facts));
    return Ok(values);
  }

  // Cumulative facts -----------------------------------------------------

  /** Collecting facts by record digest; the last fact for a record wins. */
  function FactMap(facts: seq<Revocation>): (m: map<Digest, Revocation>)
    ensures forall d :: d in m ==> m[d] in facts && m[d].recordDigest == d
  {
    if facts == [] then map[]
    else
      assert facts == facts[..|facts| - 1] + [facts[|facts| - 1]];
      FactMap(facts[..|facts| - 1])[facts[|facts| - 1].recordDigest := facts[|facts| - 1]]
  }

  /** Every prior fact is still there, unchanged. */
  ghost predicate Retains(prior: seq<Revocation>, candidate: seq<Revocation>) {
    forall f :: f in prior ==> f.recordDigest in FactMap(candidate) && FactMap(candidate)[f.recordDigest] == f
  }

  lemma {:induction false} FactMapHolds(facts: seq<Revocation>, f: Revocation)
    requires DistinctRecords(facts) && f in facts
    ensures f.recordDigest in FactMap(facts) && FactMap(facts)[f.recordDigest] == f
  {
    var n := |facts| - 1;
    if f != facts[n] {
      assert f in facts[..n];
      FactMapHolds(facts[..n], f);
    }
  }

  /** Among facts with distinct records the check passes exactly when every prior fact is listed. */
  lemma RetainsExactly(prior: seq<Revocation>, candidate: seq<Revocation>)
    requires DistinctRecords(candidate)
    ensures Retains(prior, candidate) <==> forall f :: f in prior ==> f in candidate
  {
    hide DistinctRecords, FactMap;
    if forall f :: f in prior ==> f in candidate {
      forall f | f in prior ensures f.recordDigest in FactMap(candidate) && FactMap(candidate)[f.recordDigest] == f {
        FactMapHolds(candidate, f);
      }
    }
  }

  /** `ensure_cumulative_revocations` */
  method EnsureCumulative(prior: seq<Revocation>, candidate: seq<Revocation>) returns (ok: bool)
    ensures ok <==> Retains(prior, candidate)
  {
    var index := FactMap(candidate);
    for i := 0 to |prior|
      invariant forall k :: 0 <= k < i ==> prior[k].recordDigest in index && index[prior[k].recordDigest] == prior[k]
    {
      if prior[i].recordDigest !in index {
        return false;
      }
      if index[prior[i].recordDigest] != prior[i] {
        return false;
      }
    }
    return true;
  }
}
