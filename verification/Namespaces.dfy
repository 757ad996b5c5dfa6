/** Dotted namespaces: containment as string prefixes, and the ancestor order it is. */
module Namespaces {
  import opened Lists
  import opened SupplyModel

  /** `str::strip_prefix` succeeds. */
  predicate HasPrefix(s: string, prefix: string) {
    |prefix| <= |s| && s[..|prefix|] == prefix
  }

  /** `namespace_is_within`: equal, or the prefix followed by a dot. */
  predicate IsWithin(namespace: string, prefix: string) {
    namespace == prefix || (HasPrefix(namespace, prefix) && |prefix| < |namespace| && namespace[|prefix|] == '.')
  }

  /** `namespace_prefixes_overlap` */
  predicate Overlap(a: string, b: string) {
    IsWithin(a, b) || IsWithin(b, a)
  }

  /** The namespaces sealed for Core. */
  predicate Reserved(namespace: string) {
    || namespace == "core" || HasPrefix(namespace, "core.")
    || namespace == "forge.core" || HasPrefix(namespace, "forge.core.")
  }

  /** Reserved is exactly being within `core` or `forge.core`. */
  lemma ReservedIsWithin(namespace: string)
    ensures Reserved(namespace) <==> IsWithin(namespace, "core") || IsWithin(namespace, "forge.core")
  {
  }

  /** The labels of a dotted name. */
  function Labels(s: string): seq<string> {
    Split(s, '.')
  }

  /** Containment of dotted names is the prefix order on their labels. */
  lemma {:induction false} WithinIsLabelPrefix(n: string, p: string)
    ensures IsWithin(n, p) <==> Labels(p) <= Labels(n)
  {
    if p == [] {
      if n != [] && n[0] != '.' {
        assert Labels(n)[0] != "";
      }
    } else if n == [] {
      if p[0] == '.' {
        assert |Labels(p)| >= 2;
      } else {
        assert Labels(p)[0] != "";
      }
    } else {
      LabelsSplit(n);
      LabelsSplit(p);
      if n[0] != p[0] {
        assert |p| <= |n| ==> n[..|p|][0] == n[0];
        assert Labels(p)[0] != Labels(n)[0] by {
          assert p[0] != '.' ==> Labels(p)[0] != "" && Labels(p)[0][0] == p[0];
          assert n[0] != '.' ==> Labels(n)[0] != "" && Labels(n)[0][0] == n[0];
        }
        PrefixByHead(Labels(p), Labels(n));
      } else {
        WithinIsLabelPrefix(n[1..], p[1..]);
        WithinTail(n, p);
        PrefixByHead(Labels(p), Labels(n));
        PrefixByHead(Labels(p[1..]), Labels(n[1..]));
        SameHead(p[0], Labels(p[1..])[0], Labels(n[1..])[0]);
        assert p[0] == '.' ==> Labels(p)[1..] == Labels(p[1..]) && Labels(n)[1..] == Labels(n[1..]);
      }
    }
  }

  lemma PrefixByHead(a: seq<string>, b: seq<string>)
    requires a != [] && b != []
    ensures a <= b <==> a[0] == b[0] && a[1..] <= b[1..]
  {
  }

  lemma SameHead(c: char, x: string, y: string)
    ensures [c] + x == [c] + y <==> x == y
  {
    if [c] + x == [c] + y {
      assert ([c] + x)[1..] == x && ([c] + y)[1..] == y;
    }
  }

  lemma LabelsSplit(s: string)
    requires s != []
    ensures var rest := Labels(s[1..]);
            && (s[0] == '.' ==> Labels(s) == [""] + rest)
            && (s[0] != '.' ==> Labels(s)[0] == [s[0]] + rest[0] && Labels(s)[1..] == rest[1..])
  {
  }

  lemma WithinTail(n: string, p: string)
    requires n != [] && p != [] && n[0] == p[0]
    ensures IsWithin(n, p) <==> IsWithin(n[1..], p[1..])
  {
  }

  /** Containment is a partial order. */
  lemma WithinOrder(a: string, b: string, c: string)
    ensures IsWithin(a, a)
    ensures IsWithin(a, b) && IsWithin(b, a) ==> a == b
    ensures IsWithin(a, b) && IsWithin(b, c) ==> IsWithin(a, c)
  {
  }

  /** Two ancestors of one name are comparable. */
  lemma AncestorsComparable(n: string, p: string, q: string)
    requires IsWithin(n, p) && IsWithin(n, q)
    ensures Overlap(p, q)
  {
  }

  /** Names that overlap have overlapping ancestors. */
  lemma OverlapClimbs(n: string, m: string, p: string, q: string)
    requires Overlap(n, m) && IsWithin(n, p) && IsWithin(m, q)
    ensures Overlap(p, q)
  {
  }

  // Grants ---------------------------------------------------------------

  /** A prefix not granted before, overlapping no other publisher's. */
  predicate Compatible(a: Grant, b: Grant) {
    && a.prefix != b.prefix
    && (a.publisher != b.publisher ==> !Overlap(a.prefix, b.prefix))
  }

  /** Different publishers never hold overlapping prefixes, and no prefix is granted twice. */
  ghost predicate GrantsExclusive(grants: seq<Grant>) {
    forall i, j :: 0 <= i < j < |grants| ==> Compatible(grants[i], grants[j])
  }

  ghost predicate GrantIdsDistinct(grants: seq<Grant>) {
    forall i, j :: 0 <= i < j < |grants| ==> grants[i].grantId != grants[j].grantId
  }

  ghost predicate GrantWindows(grants: seq<Grant>) {
    forall i :: 0 <= i < |grants| ==> grants[i].validFrom < grants[i].validUntil
  }

  /** `byPrefix` is the prefix-to-publisher map of `done`. */
  ghost predicate Indexes(byPrefix: map<string, string>, done: seq<Grant>) {
    && (forall g :: g in done ==> g.prefix in byPrefix && byPrefix[g.prefix] == g.publisher)
    && (forall p :: p in byPrefix ==> exists g :: g in done && g.prefix == p)
  }

  /** The map answers whether a grant is compatible with all grants before it. */
  method FitsIndex(byPrefix: map<string, string>, grant: Grant, ghost done: seq<Grant>) returns (ok: bool)
    requires Indexes(byPrefix, done)
    ensures ok <==> forall g :: g in done ==> Compatible(g, grant)
  {
    hide Overlap;
    if exists p :: p in byPrefix && byPrefix[p] != grant.publisher && Overlap(p, grant.prefix) {
      return false;
    }
    return grant.prefix !in byPrefix;
  }

  lemma IndexEmpty()
    ensures Indexes(map[], [])
  {
  }

  lemma IndexExtends(byPrefix: map<string, string>, done: seq<Grant>, g: Grant)
    requires Indexes(byPrefix, done) && forall d :: d in done ==> Compatible(d, g)
    ensures Indexes(byPrefix[g.prefix := g.publisher], done + [g])
  {
  }

  lemma ExclusiveExtends(done: seq<Grant>, g: Grant)
    requires GrantsExclusive(done)
    ensures GrantsExclusive(done + [g]) <==> forall d :: d in done ==> Compatible(d, g)
  {
    hide Compatible;
    var all := done + [g];
    assert forall i :: 0 <= i < |done| ==> all[i] == done[i];
    if GrantsExclusive(all) {
      forall d | d in done ensures Compatible(d, g) {
        var i :| 0 <= i < |done| && done[i] == d;
        assert Compatible(all[i], all[|done|]);
      }
    }
  }

  /** The grant loop of `validate_snapshot_shape`, with its prefix-to-publisher map. */
  method CheckGrants(grants: seq<Grant>) returns (ok: bool)
    ensures ok <==> GrantsExclusive(grants) && GrantIdsDistinct(grants) && GrantWindows(grants)
  {
    hide Compatible, Indexes;
    assert Indexes(map[], []) by { IndexEmpty(); }
    var ids: set<string>, byPrefix: map<string, string> := {}, map[];
    for i := 0 to |grants|
      invariant ids == set k | 0 <= k < i :: grants[k].grantId
      invariant Indexes(byPrefix, grants[..i])
      invariant GrantsExclusive(grants[..i]) && GrantIdsDistinct(grants[..i]) && GrantWindows(grants[..i])
    {
      var grant := grants[i];
      assert grants[..i + 1] == grants[..i] + [grant];
      if grant.grantId in ids {
        return false;
      }
      ids := ids + {grant.grantId};
      if grant.validFrom >= grant.validUntil {
        return false;
      }
      var fits := FitsIndex(byPrefix, grant, grants[..i]);
      ExclusiveExtends(grants[..i], grant);
      assert GrantsExclusive(grants) ==> GrantsExclusive(grants[..i + 1]);
      if !fits {
        return false;
      }
      IndexExtends(byPrefix, grants[..i], grant);
      byPrefix := byPrefix[grant.prefix := grant.publisher];
    }
    assert grants[..|grants|] == grants;
    return true;
  }
}
