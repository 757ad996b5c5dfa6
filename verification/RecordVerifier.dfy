/** Verification of the package records of a snapshot, and of the snapshot as a whole. */
module RecordVerifier {
  import opened Lists
  import opened SupplyModel
  import opened Revocations
  import opened Namespaces
  import opened SnapshotVerifier

  // One record -----------------------------------------------------------

  type Credentials = map<string, PublisherCredential>
  type Grants = map<string, Grant>

  function CredentialsById(credentials: seq<PublisherCredential>): (m: Credentials)
    ensures forall id :: id in m ==> m[id] in credentials && m[id].credentialId == id
    ensures forall c :: c in credentials ==> c.credentialId in m
  {
    if credentials == [] then map[]
    else
      var init, last := credentials[..|credentials| - 1], credentials[|credentials| - 1];
      assert credentials == init + [last];
      CredentialsById(init)[last.credentialId := last]
  }

  function GrantsById(grants: seq<Grant>): (m: Grants)
    ensures forall id :: id in m ==> m[id] in grants && m[id].grantId == id
    ensures forall g :: g in grants ==> g.grantId in m
  {
    if grants == [] then map[]
    else
      var init, last := grants[..|grants| - 1], grants[|grants| - 1];
      assert grants == init + [last];
      GrantsById(init)[last.grantId := last]
  }

  predicate RecordShape(r: Record) {
    && IsToken(r.packageDigest) && IsToken(r.manifestDigest) && IsToken(r.contentDigest)
    && IsToken(r.licenseDigest) && IsToken(r.recordDigest)
    && (forall i :: 0 <= i < |r.fixtureDigests| ==> IsToken(r.fixtureDigests[i]))
    && !Blank(r.identity.publisher) && !Blank(r.identity.name) && !Blank(r.identity.namespace)
    && !Blank(r.identity.version)
  }

  /** `validate_record_digests` */
  method ValidateRecordDigests(r: Record) returns (ok: bool)
    ensures ok <==> RecordShape(r)
  {
    hide IsToken, Blank;
    var digests := [r.packageDigest, r.manifestDigest, r.contentDigest, r.licenseDigest, r.recordDigest];
    for i := 0 to |digests|
      invariant forall k :: 0 <= k < i ==> IsToken(digests[k])
    {
      if !IsToken(digests[i]) {
        return false;
      }
    }
    assert IsToken(digests[0]) && IsToken(digests[1]) && IsToken(digests[2]) && IsToken(digests[3])
           && IsToken(digests[4]);
    for i := 0 to |r.fixtureDigests|
      invariant forall k :: 0 <= k < i ==> IsToken(r.fixtureDigests[k])
    {
      if !IsToken(r.fixtureDigests[i]) {
        return false;
      }
    }
    return !(Blank(r.identity.publisher) || Blank(r.identity.name) || Blank(r.identity.namespace)
             || Blank(r.identity.version));
  }

  /** The publisher's own active credential, valid at issue, now and at expiry, signed this exact record. */
  predicate PublisherSigned(credentials: Credentials, registry: Registry, r: Record, now: nat) {
    && r.credentialId in credentials
    && var c := credentials[r.credentialId];
       && c.status.Active?
       && Within(registry.issuedAt, c.validFrom, c.validUntil)
       && Within(now, c.validFrom, c.validUntil)
       && Within(registry.expiresAt, c.validFrom, c.validUntil)
       && c.publisher == r.identity.publisher
       && c.publicKey.Some?
       && r.signature == Signed(c.publicKey.value,
                                PublisherMessage(registry.registryId, registry.audience, RecordSubjectOf(r)))
  }

  /** The record's grant belongs to its publisher and covers its unreserved namespace, at issue and now. */
  predicate NamespaceGranted(grants: Grants, registry: Registry, r: Record, now: nat) {
    && r.grantId in grants
    && var g := grants[r.grantId];
       && !Reserved(r.identity.namespace)
       && Within(registry.issuedAt, g.validFrom, g.validUntil)
       && Within(now, g.validFrom, g.validUntil)
       && g.publisher == r.identity.publisher
       && IsWithin(r.identity.namespace, g.prefix)
  }

  predicate RecordHolds(credentials: Credentials, grants: Grants, registry: Registry, r: Record, now: nat) {
    && RecordShape(r)
    && r.recordDigest == RecordDigest(r)
    && PublisherSigned(credentials, registry, r, now)
    && NamespaceGranted(grants, registry, r, now)
  }

  /** `validate_record_namespace` */
  function ValidateNamespace(grant: Grant, registry: Registry, r: Record, now: nat): (o: Result<(), Error>)
    ensures o.Ok? <==> NamespaceGranted(map[r.grantId := grant], registry, r, now)
  {
    if Reserved(r.identity.namespace) then Err(ReservedCoreNamespace)
    else if !Within(registry.issuedAt, grant.validFrom, grant.validUntil)
            || !Within(now, grant.validFrom, grant.validUntil)
    then Err(NamespaceGrantOutsideValidity)
    else if grant.publisher != r.identity.publisher then Err(NamespacePublisherMismatch)
    else if !IsWithin(r.identity.namespace, grant.prefix) then Err(NamespaceNotGranted)
    else Ok(())
  }

  /** The checks on one record after its coordinate, in the source's order. */
  function VerifyRecord(credentials: Credentials, grants: Grants, registry: Registry, r: Record,
                        now: nat): (o: Result<(), Error>)
    ensures o.Ok? <==> PublisherSigned(credentials, registry, r, now) && NamespaceGranted(grants, registry, r, now)
  {
    if r.credentialId !in credentials then Err(PublisherCredentialNotFound)
    else
      var c := credentials[r.credentialId];
      if !c.status.Active? then Err(PublisherCredentialNotActive)
      else if !Within(registry.issuedAt, c.validFrom, c.validUntil) || !Within(now, c.validFrom, c.validUntil)
              || !Within(registry.expiresAt, c.validFrom, c.validUntil) then Err(PublisherCredentialOutsideValidity)
      else if c.publisher != r.identity.publisher then Err(PublisherIdentityMismatch)
      else if r.grantId !in grants then Err(NamespaceGrantNotFound)
      else
        var granted := ValidateNamespace(grants[r.grantId], registry, r, now);
        if granted.Err? then Err(granted.error)
        else if c.publicKey.None? then Err(InvalidPublicKey)
        else if r.signature != Signed(c.publicKey.value,
                                      PublisherMessage(registry.registryId, registry.audience, RecordSubjectOf(r)))
        then Err(PublisherSignatureInvalid)
        else Ok(())
  }

  /** The same said of the lists in the registry, without the two indexes. */
  ghost predicate Published(registry: Registry, r: Record, now: nat) {
    exists c, g ::
      && c in registry.credentials && c.credentialId == r.credentialId && c.status.Active?
      && c.publisher == r.identity.publisher
      && c.validFrom <= registry.issuedAt && registry.expiresAt <= c.validUntil
      && c.publicKey.Some?
      && r.signature == Signed(c.publicKey.value,
                               PublisherMessage(registry.registryId, registry.audience, RecordSubjectOf(r)))
      && g in registry.grants && g.grantId == r.grantId && g.publisher == r.identity.publisher
      && g.validFrom <= registry.issuedAt && now <= g.validUntil
      && IsWithin(r.identity.namespace, g.prefix)
  }

  /** With distinct ids and inside the snapshot's window, a record passes exactly when it is sealed, unreserved and
      published under a credential and a grant of the registry. */
  lemma RecordHoldsExactly(registry: Registry, r: Record, now: nat)
    requires CredentialsValid(registry.credentials) && GrantIdsDistinct(registry.grants)
    requires registry.issuedAt <= now < registry.expiresAt
    ensures RecordHolds(CredentialsById(registry.credentials), GrantsById(registry.grants), registry, r, now) <==>
            && RecordShape(r) && r.recordDigest == RecordDigest(r) && !Reserved(r.identity.namespace)
            && Published(registry, r, now)
  {
    hide RecordShape, RecordSubjectOf, Reserved, IsWithin, CredentialsById, GrantsById;
    var credentials, grants := CredentialsById(registry.credentials), GrantsById(registry.grants);
    if RecordHolds(credentials, grants, registry, r, now) {
      assert credentials[r.credentialId] in registry.credentials && grants[r.grantId] in registry.grants;
    }
    if c, g :| c in registry.credentials && c.credentialId == r.credentialId
               && g in registry.grants && g.grantId == r.grantId {
      assert credentials[r.credentialId] in registry.credentials && grants[r.grantId] in registry.grants;
      OneCredential(registry.credentials, c, credentials[r.credentialId]);
      OneGrant(registry.grants, g, grants[r.grantId]);
    }
  }

  lemma OneCredential(credentials: seq<PublisherCredential>, c: PublisherCredential, d: PublisherCredential)
    requires CredentialsValid(credentials) && c in credentials && d in credentials && c.credentialId == d.credentialId
    ensures c == d
  {
  }

  lemma OneGrant(grants: seq<Grant>, g: Grant, h: Grant)
    requires GrantIdsDistinct(grants) && g in grants && h in grants && g.grantId == h.grantId
    ensures g == h
  {
  }

  // Coordinates ----------------------------------------------------------

  /** The text by which equivocation is detected: publisher, name and version joined by "::" and "@". */
  function CoordinateText(r: Record): string {
    r.identity.publisher + "::" + r.identity.name + "@" + r.identity.version
  }

  ghost predicate CoordinatesDistinct(packages: seq<Record>) {
    forall i, j :: 0 <= i < j < |packages| ==> CoordinateText(packages[i]) != CoordinateText(packages[j])
  }

  predicate SameCoordinate(a: Record, b: Record) {
    && a.identity.publisher == b.identity.publisher
    && a.identity.name == b.identity.name
    && a.identity.version == b.identity.version
  }

  /** Joining does not keep coordinates apart: different publishers and names can read alike. */
  lemma CoordinateTextCollides(a: Record, b: Record)
    requires a.identity.publisher == "a::b" && a.identity.name == "c"
    requires b.identity.publisher == "a" && b.identity.name == "b::c"
    requires a.identity.version == b.identity.version
    ensures CoordinateText(a) == CoordinateText(b) && !SameCoordinate(a, b)
  {
  }

  /** A record whose publisher, name and version are not blank, as every accepted one is. */
  predicate Named(r: Record) {
    !Blank(r.identity.publisher) && !Blank(r.identity.name) && !Blank(r.identity.version)
  }

  /** A way to read `t` as a publisher, a name and a version. */
  predicate Cut(t: string, i: nat, j: nat) {
    && i + 2 <= j < |t| && t[i] == ':' && t[i + 1] == ':' && t[j] == '@'
    && !Blank(t[..i]) && !Blank(t[i + 2..j]) && !Blank(t[j + 1..])
  }

  /** The text can be read in one way only. */
  ghost predicate OneCut(t: string) {
    forall i: nat, j: nat, k: nat, l: nat :: Cut(t, i, j) && Cut(t, k, l) ==> i == k && j == l
  }

  lemma OwnCut(r: Record)
    requires Named(r)
    ensures var t, i := CoordinateText(r), |r.identity.publisher|;
            var j := i + 2 + |r.identity.name|;
            && Cut(t, i, j)
            && t[..i] == r.identity.publisher && t[i + 2..j] == r.identity.name && t[j + 1..] == r.identity.version
  {
    hide Blank;
    var t, i := CoordinateText(r), |r.identity.publisher|;
    var j := i + 2 + |r.identity.name|;
    assert t[..i] == r.identity.publisher && t[i + 2..j] == r.identity.name && t[j + 1..] == r.identity.version;
  }

  /** Every way to read a text is the coordinate of some record. */
  function ReadAt(r: Record, t: string, i: nat, j: nat): (b: Record)
    requires Cut(t, i, j)
    ensures Named(b) && CoordinateText(b) == t
  {
    assert t == t[..i] + "::" + t[i + 2..j] + "@" + t[j + 1..];
    r.(identity := r.identity.(publisher := t[..i], name := t[i + 2..j], version := t[j + 1..]))
  }

  /** A record's text tells its coordinate exactly when the text can be read in one way only. */
  lemma CoordinateTextExact(a: Record)
    requires Named(a)
    ensures (forall b :: Named(b) && CoordinateText(b) == CoordinateText(a) ==> SameCoordinate(a, b))
            <==> OneCut(CoordinateText(a))
  {
    hide Blank, CoordinateText, Cut;
    var t := CoordinateText(a);
    OwnCut(a);
    if OneCut(t) {
      forall b | Named(b) && CoordinateText(b) == t ensures SameCoordinate(a, b) {
        OwnCut(b);
      }
    }
    if forall b :: Named(b) && CoordinateText(b) == t ==> SameCoordinate(a, b) {
      forall i: nat, j: nat, k: nat, l: nat | Cut(t, i, j) && Cut(t, k, l) ensures i == k && j == l {
        CutBounds(t, i, j);
        CutBounds(t, k, l);
        assert SameCoordinate(a, ReadAt(a, t, i, j)) && SameCoordinate(a, ReadAt(a, t, k, l));
        assert |t[..i]| == |t[..k]| && |t[j + 1..]| == |t[l + 1..]|;
      }
    }
  }

  lemma CutBounds(t: string, i: nat, j: nat)
    requires Cut(t, i, j)
    ensures i + 2 <= j < |t|
  {
  }

  /** The loop refuses equal texts, so it refuses equal coordinates and nothing else exactly where texts can be
      read in one way. */
  lemma DistinctCoordinatesExact(packages: seq<Record>)
    requires forall i :: 0 <= i < |packages| ==> Named(packages[i]) && OneCut(CoordinateText(packages[i]))
    ensures CoordinatesDistinct(packages) <==>
            forall i, j :: 0 <= i < j < |packages| ==> !SameCoordinate(packages[i], packages[j])
  {
    hide Blank, CoordinateText, OneCut;
    forall i, j | 0 <= i < j < |packages|
      ensures CoordinateText(packages[i]) == CoordinateText(packages[j]) <==> SameCoordinate(packages[i], packages[j])
    {
      CoordinateTextExact(packages[i]);
      SameCoordinateSameText(packages[i], packages[j]);
    }
  }

  lemma SameCoordinateSameText(a: Record, b: Record)
    ensures SameCoordinate(a, b) ==> CoordinateText(a) == CoordinateText(b)
  {
  }

  /** A publisher that is over at the first double colon. */
  predicate PlainPublisher(p: string) {
    forall k :: 0 <= k < |p| && p[k] == ':' ==> k + 1 < |p| && p[k + 1] != ':'
  }

  /** A convention under which texts are coordinates: publishers without double or trailing colon, names
      without '@'. */
  lemma CoordinateTextFaithful(a: Record, b: Record)
    requires PlainPublisher(a.identity.publisher) && PlainPublisher(b.identity.publisher)
    requires '@' !in a.identity.name && '@' !in b.identity.name
    ensures CoordinateText(a) == CoordinateText(b) <==> SameCoordinate(a, b)
  {
    var p, q := a.identity, b.identity;
    if CoordinateText(a) == CoordinateText(b) {
      var t := CoordinateText(a);
      FirstDouble(a);
      FirstDouble(b);
      var i := |p.publisher|;
      assert i == |q.publisher|;
      assert p.publisher == t[..i] && q.publisher == t[..i];
      var rest := t[i + 2..];
      assert rest == p.name + ['@'] + p.version && rest == q.name + ['@'] + q.version;
      SplitUnique(p.name, p.version, q.name, q.version, '@');
    }
  }

  /** The publisher ends at the first double colon of the text. */
  lemma FirstDouble(r: Record)
    requires PlainPublisher(r.identity.publisher)
    ensures var t, i := CoordinateText(r), |r.identity.publisher|;
            && i + 1 < |t| && t[i] == ':' && t[i + 1] == ':'
            && forall k :: 0 <= k < i ==> !(t[k] == ':' && t[k + 1] == ':')
  {
    var t, p := CoordinateText(r), r.identity.publisher;
    assert forall k :: 0 <= k < |p| ==> t[k] == p[k];
  }

  /** Where a separator character cannot occur, the text before its first occurrence is determined. */
  lemma SplitUnique(x: string, u: string, y: string, v: string, c: char)
    requires c !in x && c !in y && x + [c] + u == y + [c] + v
    ensures x == y && u == v
  {
    var w := x + [c] + u;
    assert w[|x|] == c && forall k :: 0 <= k < |x| ==> w[k] == x[k] != c;
    assert w[|y|] == c && forall k :: 0 <= k < |y| ==> w[k] == y[k] != c;
    assert x == w[..|x|] && y == w[..|y|];
    assert u == w[|x| + 1..] && v == w[|y| + 1..];
  }

  // All records ----------------------------------------------------------

  datatype VerifiedEntry = VerifiedEntry(record: Record, keyFingerprint: Digest)

  function EntryOf(credentials: Credentials): Record -> VerifiedEntry {
    (r: Record) =>
      VerifiedEntry(r, KeyHash(if r.credentialId in credentials && credentials[r.credentialId].publicKey.Some?
                               then credentials[r.credentialId].publicKey.value else ""))
  }

  /** `identity_key` */
  function IdentityKey(i: PackIdentity): string {
    i.publisher + "::" + i.name + "@" + i.version + "#" + i.namespace
  }

  predicate EntryLe(a: VerifiedEntry, b: VerifiedEntry) {
    StringLe(IdentityKey(a.record.identity), IdentityKey(b.record.identity))
  }

  ghost predicate RecordsAccepted(registry: Registry, now: nat) {
    && CoordinatesDistinct(registry.packages)
    && forall i :: 0 <= i < |registry.packages| ==>
         RecordHolds(CredentialsById(registry.credentials), GrantsById(registry.grants), registry,
                     registry.packages[i], now)
  }

  function EntriesOf(registry: Registry): (r: seq<VerifiedEntry>)
    ensures forall e :: e in r ==> e.record in registry.packages
  {
    var entries := Map(EntryOf(CredentialsById(registry.credentials)), registry.packages);
    var r := Sort(EntryLe, entries);
    SameElements(r, entries);
    r
  }

  lemma EntryLeTotal()
    ensures TotalPreorder(EntryLe)
  {
    hide StringLe;
    forall a: VerifiedEntry, b: VerifiedEntry ensures EntryLe(a, b) || EntryLe(b, a) {
      StringLeTotal(IdentityKey(a.record.identity), IdentityKey(b.record.identity));
    }
    forall a, b, c | EntryLe(a, b) && EntryLe(b, c) ensures EntryLe(a, c) {
      StringLeTransitive(IdentityKey(a.record.identity), IdentityKey(b.record.identity),
                         IdentityKey(c.record.identity));
    }
  }

  /** Entries come in the order of publisher, name, version and namespace, joined to one text. */
  lemma EntriesOrdered(registry: Registry, i: nat, j: nat)
    requires i < j < |EntriesOf(registry)|
    ensures var a, b := EntriesOf(registry)[i].record.identity, EntriesOf(registry)[j].record.identity;
            StringLe(a.publisher + "::" + a.name + "@" + a.version + "#" + a.namespace,
                     b.publisher + "::" + b.name + "@" + b.version + "#" + b.namespace)
  {
    hide StringLe, Sort, CredentialsById;
    EntryLeTotal();
    SortSorted(EntryLe, Map(EntryOf(CredentialsById(registry.credentials)), registry.packages));
  }

  /** Every package is listed, once, with the key of the credential it names. */
  lemma EntriesList(registry: Registry)
    ensures |EntriesOf(registry)| == |registry.packages|
    ensures forall record :: record in registry.packages ==> exists e :: e in EntriesOf(registry) && e.record == record
    ensures forall e :: e in EntriesOf(registry) && e.record.credentialId in CredentialsById(registry.credentials) ==>
              var key := CredentialsById(registry.credentials)[e.record.credentialId].publicKey;
              key.Some? ==> e.keyFingerprint == KeyHash(key.value)
  {
    hide CredentialsById, Sort, EntryLe;
    var entries := Map(EntryOf(CredentialsById(registry.credentials)), registry.packages);
    SameElements(EntriesOf(registry), entries);
    assert |multiset(EntriesOf(registry))| == |multiset(entries)|;
    forall record | record in registry.packages ensures exists e :: e in EntriesOf(registry) && e.record == record {
      var i :| 0 <= i < |registry.packages| && registry.packages[i] == record;
      assert entries[i] in entries && entries[i].record == record;
    }
  }

  ghost function TextsOf(packages: seq<Record>): set<string> {
    set r | r in packages :: CoordinateText(r)
  }

  lemma NoTexts(packages: seq<Record>)
    requires packages == []
    ensures TextsOf(packages) == {} && CoordinatesDistinct(packages)
  {
  }

  lemma TextsExtend(front: seq<Record>, r: Record)
    ensures TextsOf(front + [r]) == TextsOf(front) + {CoordinateText(r)}
    ensures CoordinatesDistinct(front + [r]) <==> CoordinatesDistinct(front) && CoordinateText(r) !in TextsOf(front)
  {
    hide CoordinateText;
    var longer := front + [r];
    assert longer[|front|] == r && forall k :: 0 <= k < |front| ==> longer[k] == front[k];
  }

  lemma PrefixDistinct(packages: seq<Record>, i: nat)
    requires i <= |packages|
    ensures CoordinatesDistinct(packages) ==> CoordinatesDistinct(packages[..i])
  {
  }

  /** The record loop, with the map from coordinate text to record digest. */
  method VerifyEachRecord(credentials: Credentials, grants: Grants, registry: Registry, now: nat)
    returns (r: Result<seq<VerifiedEntry>, Error>)
    ensures r.Ok? <==> && CoordinatesDistinct(registry.packages)
                       && forall i :: 0 <= i < |registry.packages| ==>
                            RecordHolds(credentials, grants, registry, registry.packages[i], now)
    ensures r.Ok? ==> r.value == Map(EntryOf(credentials), registry.packages)
  {
    hide RecordShape, PublisherSigned, NamespaceGranted, CoordinateText, Map, EntryOf, RecordSubjectOf, TextsOf,
         CoordinatesDistinct;
    var seen: map<string, Digest>, entries: seq<VerifiedEntry> := map[], [];
    NoTexts(registry.packages[..0]);
    for i := 0 to |registry.packages|
      invariant seen.Keys == TextsOf(registry.packages[..i]) && CoordinatesDistinct(registry.packages[..i])
      invariant forall k :: 0 <= k < i ==> RecordHolds(credentials, grants, registry, registry.packages[k], now)
      invariant entries == Map(EntryOf(credentials), registry.packages)[..i]
    {
      var record := registry.packages[i];
      assert registry.packages[..i + 1] == registry.packages[..i] + [record];
      TextsExtend(registry.packages[..i], record);
      PrefixDistinct(registry.packages, i + 1);
      var shape := ValidateRecordDigests(record);
      if !shape {
        return Err(InvalidSnapshot);
      }
      if record.recordDigest != RecordDigest(record) {
        return Err(RecordDigestMismatch);
      }
      var text := CoordinateText(record);
      if text in seen {
        if seen[text] == record.recordDigest {
          return Err(DuplicateRecord);
        }
        return Err(PackageEquivocation);
      }
      seen := seen[text := record.recordDigest];
      var one := VerifyRecord(credentials, grants, registry, record, now);
      if one.Err? {
        return Err(one.error);
      }
      entries := entries + [EntryOf(credentials)(record)];
    }
    assert registry.packages[..|registry.packages|] == registry.packages;
    assert entries == Map(EntryOf(credentials), registry.packages);
    return Ok(entries);
  }

  /** `verify_package_records` */
  method VerifyRecords(registry: Registry, now: nat) returns (r: Result<seq<VerifiedEntry>, Error>)
    ensures r.Ok? <==> RecordsAccepted(registry, now)
    ensures r.Ok? ==> r.value == EntriesOf(registry)
  {
    hide RecordHolds, CoordinatesDistinct, Sort, Map, CredentialsById, GrantsById;
    var each := VerifyEachRecord(CredentialsById(registry.credentials), GrantsById(registry.grants), registry, now);
    if each.Err? {
      return Err(each.error);
    }
    return Ok(Sort(EntryLe, each.value));
  }

  // The snapshot ---------------------------------------------------------

  /** `VerifiedDomainPackSupplyChainSnapshot` */
  datatype VerifiedSnapshot = VerifiedSnapshot(
    registryId: string, audience: string, generation: nat, previous: Option<Digest>, issuedAt: nat, expiresAt: nat,
    verifiedAt: nat, snapshotDigest: Digest, trustPolicyDigest: Digest, signers: seq<SignerAudit>, mirrors: seq<string>,
    entries: seq<VerifiedEntry>, grants: seq<Grant>, revocations: seq<Revocation>, revocationDigest: Digest)

  /** The remote-acquisition metadata check, an arbitrary predicate. */
  type RemoteCheck = SnapshotDocument -> bool

  /** What verification accepts. */
  ghost predicate SnapshotAccepted(remote: RemoteCheck, p: PolicyDocument, doc: SnapshotDocument, now: nat) {
    && HeadersValid(p, doc, now)
    && PolicyValid(p.policy)
    && ShapeValid(doc.registry)
    && remote(doc)
    && doc.registry.snapshotDigest == SnapshotDigest(doc)
    && SignaturesAccepted(KeyRingOf(p.policy.keys), p.policy.threshold, doc, doc.registry.signatures)
    && RecordsAccepted(doc.registry, now)
  }

  function VerifiedOf(leq: Order, p: PolicyDocument, doc: SnapshotDocument, now: nat): VerifiedSnapshot {
    var r := doc.registry;
    var facts := Canonical(leq, r.revocations);
    VerifiedSnapshot(r.registryId, r.audience, r.generation, r.previous, r.issuedAt, r.expiresAt, now, r.snapshotDigest,
                     PolicyHash(p), Audits(KeyRingOf(p.policy.keys), r.signatures), r.mirrors, EntriesOf(r), r.grants,
                     facts, RevocationsHash(Canonical(leq, facts)))
  }

  /** `verify_domain_pack_supply_chain_snapshot` */
  method VerifySnapshot(remote: RemoteCheck, leq: Order, p: PolicyDocument, doc: SnapshotDocument, now: nat)
    returns (r: Result<VerifiedSnapshot, Error>)
    requires TotalOrder(leq)
    ensures r.Ok? <==> SnapshotAccepted(remote, p, doc, now)
    ensures r.Ok? ==> r.value == VerifiedOf(leq, p, doc, now)
  {
    hide HeadersValid, PolicyValid, SignaturesAccepted, RecordsAccepted, SubjectOf, TotalOrder, Canonical, Audits,
         EntriesOf, GrantsExclusive, GrantIdsDistinct, GrantWindows, CredentialsValid, Facts, Blank, IsToken,
         KeyRingOf;
    var headers := ValidateHeaders(p, doc, now);
    if headers.Err? {
      return Err(headers.error);
    }
    var policy := ValidatePolicy(p.policy);
    if policy.Err? {
      return Err(policy.error);
    }
    var shape := ValidateShape(doc.registry);
    if !shape {
      return Err(InvalidSnapshot);
    }
    if !remote(doc) {
      return Err(InvalidSnapshot);
    }
    if doc.registry.snapshotDigest != SnapshotDigest(doc) {
      return Err(SnapshotDigestMismatch);
    }
    var signers := VerifySignatures(p.policy, doc);
    if signers.Err? {
      return Err(signers.error);
    }
    var entries := VerifyRecords(doc.registry, now);
    if entries.Err? {
      return Err(entries.error);
    }
    var facts := CanonicalFacts(leq, doc.registry.revocations);
    FactsStay(leq, doc.registry.revocations);
    var again := CanonicalFacts(leq, facts.value);
    var g := doc.registry;
    return Ok(VerifiedSnapshot(g.registryId, g.audience, g.generation, g.previous, g.issuedAt, g.expiresAt, now,
                               g.snapshotDigest, PolicyHash(p), signers.value, g.mirrors, entries.value, g.grants,
                               facts.value, RevocationsHash(again.value)));
  }

  lemma FactsStay(leq: Order, facts: seq<Revocation>)
    requires TotalOrder(leq) && Facts(facts)
    ensures Facts(Canonical(leq, facts))
  {
    hide Facts;
    CanonicalForm(leq, facts);
  }

  // Namespace exclusivity ------------------------------------------------

  /** In a verified snapshot, packages whose namespaces are equal or nested have one publisher, and no
      package lives in a reserved namespace. */
  lemma NamespaceExclusivity(remote: RemoteCheck, p: PolicyDocument, doc: SnapshotDocument, now: nat,
                             a: Record, b: Record)
    requires SnapshotAccepted(remote, p, doc, now)
    requires a in doc.registry.packages && b in doc.registry.packages
    ensures Overlap(a.identity.namespace, b.identity.namespace) ==> a.identity.publisher == b.identity.publisher
    ensures !Reserved(a.identity.namespace)
  {
    hide HeadersValid, PolicyValid, SignaturesAccepted, RecordShape, PublisherSigned, IsWithin, Reserved,
         CoordinatesDistinct, CredentialsValid, Facts, Blank, IsToken, GrantIdsDistinct, GrantWindows,
         CredentialsById, GrantsById, KeyRingOf, RecordSubjectOf, SubjectOf;
    var registry := doc.registry;
    var grants := GrantsById(registry.grants);
    var i :| 0 <= i < |registry.packages| && registry.packages[i] == a;
    var j :| 0 <= j < |registry.packages| && registry.packages[j] == b;
    var g, h := grants[a.grantId], grants[b.grantId];
    if Overlap(a.identity.namespace, b.identity.namespace) {
      OverlapClimbs(a.identity.namespace, b.identity.namespace, g.prefix, h.prefix);
      GrantsShare(registry.grants, g, h);
    }
  }

  lemma GrantsShare(grants: seq<Grant>, g: Grant, h: Grant)
    requires GrantsExclusive(grants) && g in grants && h in grants && Overlap(g.prefix, h.prefix)
    ensures g.publisher == h.publisher
  {
  }

  /** No publisher, name and version has two records in a verified snapshot. */
  lemma NoEquivocation(remote: RemoteCheck, p: PolicyDocument, doc: SnapshotDocument, now: nat, a: Record, b: Record)
    requires SnapshotAccepted(remote, p, doc, now)
    requires a in doc.registry.packages && b in doc.registry.packages && SameCoordinate(a, b)
    ensures a == b
  {
    hide HeadersValid, PolicyValid, SignaturesAccepted, ShapeValid, RecordHolds, CredentialsById, GrantsById;
    var i :| 0 <= i < |doc.registry.packages| && doc.registry.packages[i] == a;
    var j :| 0 <= j < |doc.registry.packages| && doc.registry.packages[j] == b;
    assert CoordinateText(doc.registry.packages[i]) == CoordinateText(doc.registry.packages[j]);
  }

  /** A snapshot that lists two packages with one coordinate text is refused, whoever signed it. */
  lemma SameTextRefused(remote: RemoteCheck, p: PolicyDocument, doc: SnapshotDocument, now: nat, i: nat, j: nat)
    requires i < j < |doc.registry.packages|
    requires CoordinateText(doc.registry.packages[i]) == CoordinateText(doc.registry.packages[j])
    ensures !RecordsAccepted(doc.registry, now) && !SnapshotAccepted(remote, p, doc, now)
  {
    hide RecordHolds, HeadersValid, PolicyValid, ShapeValid, SignaturesAccepted, CoordinateText;
  }

  /** So an honest snapshot of two different packages can be refused as equivocating. */
  lemma HonestSnapshotRefused(remote: RemoteCheck, p: PolicyDocument, doc: SnapshotDocument, now: nat, i: nat, j: nat)
    requires i < j < |doc.registry.packages|
    requires doc.registry.packages[i].identity.publisher == "a::b" && doc.registry.packages[i].identity.name == "c"
    requires doc.registry.packages[j].identity.publisher == "a" && doc.registry.packages[j].identity.name == "b::c"
    requires doc.registry.packages[i].identity.version == doc.registry.packages[j].identity.version
    ensures !SameCoordinate(doc.registry.packages[i], doc.registry.packages[j])
    ensures !RecordsAccepted(doc.registry, now) && !SnapshotAccepted(remote, p, doc, now)
  {
    hide RecordsAccepted, SnapshotAccepted, CoordinateText;
    CoordinateTextCollides(doc.registry.packages[i], doc.registry.packages[j]);
    SameTextRefused(remote, p, doc, now, i, j);
  }
}
