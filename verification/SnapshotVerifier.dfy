/** Verification of one registry snapshot against an operator policy. */
module SnapshotVerifier {
  import opened Lists
  import opened SupplyModel
  import opened Revocations
  import opened Namespaces

  // Policy ---------------------------------------------------------------

  function SignerCount(keys: seq<TrustKey>): nat {
    if keys == [] then 0
    else SignerCount(keys[..|keys| - 1]) + if keys[|keys| - 1].role.RegistrySigner? then 1 else 0
  }

  predicate KeyWellFormed(k: TrustKey) {
    k.validFrom < k.validUntil && k.publicKey.Some?
  }

  /** Distinct key ids, and distinct key bytes among registry signers. */
  predicate KeysDiffer(a: TrustKey, b: TrustKey) {
    && a.keyId != b.keyId
    && (a.role.RegistrySigner? && b.role.RegistrySigner? ==> a.publicKey != b.publicKey)
  }

  ghost predicate KeysValid(keys: seq<TrustKey>) {
    && (forall i :: 0 <= i < |keys| ==> KeyWellFormed(keys[i]))
    && (forall i, j :: 0 <= i < j < |keys| ==> KeysDiffer(keys[i], keys[j]))
  }

  predicate RuleDigestsWellFormed(r: Rule) {
    && (r.packageDigest.Some? ==> IsToken(r.packageDigest.value))
    && (r.contentDigest.Some? ==> IsToken(r.contentDigest.value))
  }

  ghost predicate RulesValid(rules: seq<Rule>) {
    && (forall i, j :: 0 <= i < j < |rules| ==> rules[i].ruleId != rules[j].ruleId)
    && (forall i :: 0 <= i < |rules| ==>
          && (rules[i].packageDigest.Some? ==> IsToken(rules[i].packageDigest.value))
          && (rules[i].contentDigest.Some? ==> IsToken(rules[i].contentDigest.value)))
  }

  ghost predicate PolicyValid(p: Policy) {
    && !Blank(p.policyId) && !Blank(p.policyVersion) && !Blank(p.audience)
    && 0 < p.threshold <= SignerCount(p.keys)
    && KeysValid(p.keys)
    && RulesValid(p.rules)
  }

  function SignerKeys(keys: seq<TrustKey>): set<TrustKey> {
    set k | k in keys && k.role.RegistrySigner?
  }

  /** The count is the number of different signer keys, so a valid policy holds as many as its threshold asks for. */
  lemma {:induction false} SignersCounted(keys: seq<TrustKey>)
    requires KeysValid(keys)
    ensures SignerCount(keys) == |SignerKeys(keys)|
  {
    if keys != [] {
      var n := |keys| - 1;
      var front, last := keys[..n], keys[n];
      assert forall i :: 0 <= i < n ==> KeysDiffer(keys[i], keys[n]);
      SignersCounted(front);
      assert last !in front;
      assert forall k :: k in keys <==> k in front || k == last;
      assert SignerKeys(keys) == SignerKeys(front) + if last.role.RegistrySigner? then {last} else {};
    }
  }

  /** The key loop of `validate_policy`. */
  method CheckKeys(keys: seq<TrustKey>) returns (r: Result<nat, Error>)
    ensures r.Ok? <==> KeysValid(keys)
    ensures r.Ok? ==> r.value == SignerCount(keys)
  {
    var ids: set<string>, material: set<Option<Key>>, count := {}, {}, 0;
    for i := 0 to |keys|
      invariant ids == set k | 0 <= k < i :: keys[k].keyId
      invariant material == set k | 0 <= k < i && keys[k].role.RegistrySigner? :: keys[k].publicKey
      invariant count == SignerCount(keys[..i])
      invariant forall k :: 0 <= k < i ==> KeyWellFormed(keys[k])
      invariant forall k, l :: 0 <= k < l < i ==> KeysDiffer(keys[k], keys[l])
    {
      assert keys[..i + 1][..i] == keys[..i];
      if keys[i].keyId in ids {
        return Err(InvalidPolicy);
      }
      ids := ids + {keys[i].keyId};
      if keys[i].validFrom >= keys[i].validUntil {
        return Err(InvalidPolicy);
      }
      if keys[i].publicKey.None? {
        return Err(InvalidPublicKey);
      }
      if keys[i].role.RegistrySigner? {
        count := count + 1;
        if keys[i].publicKey in material {
          return Err(InvalidPolicy);
        }
        material := material + {keys[i].publicKey};
      }
    }
    assert keys[..|keys|] == keys;
    return Ok(count);
  }

  /** The rule loop of `validate_policy`. */
  method CheckRules(rules: seq<Rule>) returns (ok: bool)
    ensures ok <==> RulesValid(rules)
  {
    hide IsToken;
    var ids: set<string> := {};
    for i := 0 to |rules|
      invariant ids == set k | 0 <= k < i :: rules[k].ruleId
      invariant forall k, l :: 0 <= k < l < i ==> rules[k].ruleId != rules[l].ruleId
      invariant forall k :: 0 <= k < i ==> RuleDigestsWellFormed(rules[k])
    {
      if rules[i].ruleId in ids {
        return false;
      }
      ids := ids + {rules[i].ruleId};
      if !RuleDigestsWellFormed(rules[i]) {
        return false;
      }
    }
    return true;
  }

  /** `validate_policy` */
  method ValidatePolicy(p: Policy) returns (r: Result<(), Error>)
    ensures r.Ok? <==> PolicyValid(p)
  {
    hide KeysValid, RulesValid, SignerCount, Blank;
    if Blank(p.policyId) || Blank(p.policyVersion) || Blank(p.audience) || p.threshold == 0 {
      return Err(InvalidPolicy);
    }
    var keys := CheckKeys(p.keys);
    if keys.Err? {
      return Err(keys.error);
    }
    if p.threshold > keys.value {
      return Err(InvalidPolicy);
    }
    var rules := CheckRules(p.rules);
    if !rules {
      return Err(InvalidPolicy);
    }
    return Ok(());
  }

  // Headers and shape ----------------------------------------------------

  predicate HeadersValid(p: PolicyDocument, doc: SnapshotDocument, now: nat) {
    var r := doc.registry;
    && p.schemaVersion == LIFECYCLE_SCHEMA_VERSION
    && doc.schemaVersion == LIFECYCLE_SCHEMA_VERSION
    && p.policy.audience == r.audience
    && r.issuedAt <= now < r.expiresAt
    && r.generation > 0
    && (r.generation == 1 <==> r.previous.None?)
    && (r.previous.Some? ==> IsToken(r.previous.value))
  }

  /** `validate_document_headers` */
  function ValidateHeaders(p: PolicyDocument, doc: SnapshotDocument, now: nat): (o: Result<(), Error>)
    ensures o.Ok? <==> HeadersValid(p, doc, now)
  {
    var r := doc.registry;
    if p.schemaVersion != LIFECYCLE_SCHEMA_VERSION then Err(UnsupportedSchemaVersion)
    else if doc.schemaVersion != LIFECYCLE_SCHEMA_VERSION then Err(UnsupportedSchemaVersion)
    else if p.policy.audience != r.audience then Err(AudienceMismatch)
    else if r.issuedAt >= r.expiresAt then Err(InvalidSnapshot)
    else if now < r.issuedAt then Err(SnapshotNotYetValid)
    else if now >= r.expiresAt then Err(SnapshotExpired)
    else if r.generation == 0 then Err(InvalidSnapshot)
    else if r.generation == 1 && r.previous.Some? then Err(InvalidSnapshot)
    else if r.generation > 1 && r.previous.None? then Err(InvalidSnapshot)
    else if r.previous.Some? && !IsToken(r.previous.value) then Err(InvalidSnapshot)
    else Ok(())
  }

  ghost predicate CredentialsValid(credentials: seq<PublisherCredential>) {
    && (forall i, j :: 0 <= i < j < |credentials| ==> credentials[i].credentialId != credentials[j].credentialId)
    && (forall i :: 0 <= i < |credentials| ==>
          credentials[i].validFrom < credentials[i].validUntil && credentials[i].publicKey.Some?)
  }

  ghost predicate ShapeValid(r: Registry) {
    && !Blank(r.registryId) && !Blank(r.registryVersion) && !Blank(r.audience)
    && IsToken(r.snapshotDigest)
    && r.credentials != [] && r.grants != [] && r.packages != [] && r.signatures != []
    && CredentialsValid(r.credentials)
    && GrantsExclusive(r.grants) && GrantIdsDistinct(r.grants) && GrantWindows(r.grants)
    && Facts(r.revocations)
  }

  /** The credential loop of `validate_snapshot_shape`. */
  method CheckCredentials(credentials: seq<PublisherCredential>) returns (ok: bool)
    ensures ok <==> CredentialsValid(credentials)
  {
    var ids: set<string> := {};
    for i := 0 to |credentials|
      invariant ids == set k | 0 <= k < i :: credentials[k].credentialId
      invariant forall k, l :: 0 <= k < l < i ==> credentials[k].credentialId != credentials[l].credentialId
      invariant forall k :: 0 <= k < i ==>
                  credentials[k].validFrom < credentials[k].validUntil && credentials[k].publicKey.Some?
    {
      if credentials[i].credentialId in ids {
        return false;
      }
      ids := ids + {credentials[i].credentialId};
      if credentials[i].validFrom >= credentials[i].validUntil || credentials[i].publicKey.None? {
        return false;
      }
    }
    return true;
  }

  /** The revocation loop of `validate_snapshot_shape`. */
  method CheckRevocations(facts: seq<Revocation>) returns (ok: bool)
    ensures ok <==> Facts(facts)
  {
    hide IsToken, Blank;
    var seen: set<Digest> := {};
    for i := 0 to |facts|
      invariant seen == set k | 0 <= k < i :: facts[k].recordDigest
      invariant forall k, l :: 0 <= k < l < i ==> facts[k].recordDigest != facts[l].recordDigest
      invariant forall k :: 0 <= k < i ==> FactWellFormed(facts[k])
    {
      if !IsToken(facts[i].recordDigest) || facts[i].recordDigest in seen {
        return false;
      }
      seen := seen + {facts[i].recordDigest};
      if Blank(facts[i].explanation) {
        return false;
      }
    }
    return true;
  }

  /** `validate_snapshot_shape` */
  method ValidateShape(r: Registry) returns (ok: bool)
    ensures ok <==> ShapeValid(r)
  {
    hide Blank, IsToken, CredentialsValid, GrantsExclusive, GrantIdsDistinct, GrantWindows, Facts;
    if Blank(r.registryId) || Blank(r.registryVersion) || Blank(r.audience) || !IsToken(r.snapshotDigest)
       || r.credentials == [] || r.grants == [] || r.packages == [] || r.signatures == [] {
      return false;
    }
    var credentials := CheckCredentials(r.credentials);
    if !credentials {
      return false;
    }
    var grants := CheckGrants(r.grants);
    if !grants {
      return false;
    }
    ok := CheckRevocations(r.revocations);
  }

  // Registry signatures --------------------------------------------------

  type KeyRing = map<string, TrustKey>

  /** `registry_keys` collected by id. */
  function KeyRingOf(keys: seq<TrustKey>): (m: KeyRing)
    ensures forall id :: id in m ==> m[id] in keys && m[id].keyId == id
    ensures forall k :: k in keys ==> k.keyId in m
  {
    if keys == [] then map[]
    else
      assert keys == keys[..|keys| - 1] + [keys[|keys| - 1]];
      KeyRingOf(keys[..|keys| - 1])[keys[|keys| - 1].keyId := keys[|keys| - 1]]
  }

  /** An active signer key of the policy, valid when the snapshot is issued and when it expires. */
  predicate SignerKeyHolds(ring: KeyRing, doc: SnapshotDocument, s: RegistrySignature) {
    && s.keyId in ring
    && ring[s.keyId].status.Active?
    && ring[s.keyId].role.RegistrySigner? && s.role.RegistrySigner?
    && Within(doc.registry.issuedAt, ring[s.keyId].validFrom, ring[s.keyId].validUntil)
    && Within(doc.registry.expiresAt, ring[s.keyId].validFrom, ring[s.keyId].validUntil)
    && ring[s.keyId].publicKey.Some?
  }

  /** Such a key signed the snapshot's subject. */
  predicate SignatureHolds(ring: KeyRing, doc: SnapshotDocument, s: RegistrySignature) {
    && SignerKeyHolds(ring, doc, s)
    && s.signature == Signed(ring[s.keyId].publicKey.value, RegistryMessage(s.keyId, s.role, SubjectOf(doc)))
  }

  /** `validate_registry_signer_key`, and the key bytes. */
  function CheckSignerKey(ring: KeyRing, doc: SnapshotDocument, s: RegistrySignature): (r: Result<Key, Error>)
    ensures r.Ok? <==> SignerKeyHolds(ring, doc, s)
    ensures r.Ok? ==> ring[s.keyId].publicKey == Some(r.value)
  {
    if s.keyId !in ring then Err(RegistryKeyNotFound)
    else
      var key := ring[s.keyId];
      if !key.status.Active? then Err(RegistryKeyNotActive)
      else if !key.role.RegistrySigner? || !s.role.RegistrySigner? || s.role != key.role
      then Err(RegistryKeyRoleMismatch)
      else if !Within(doc.registry.issuedAt, key.validFrom, key.validUntil)
              || !Within(doc.registry.expiresAt, key.validFrom, key.validUntil) then Err(RegistryKeyOutsideValidity)
      else if key.publicKey.None? then Err(InvalidPublicKey)
      else Ok(key.publicKey.value)
  }

  datatype SignerAudit = SignerAudit(keyId: string, keyFingerprint: Digest, signatureFingerprint: Digest)

  function KeyIdOf(s: RegistrySignature): string {
    s.keyId
  }

  function MaterialOf(ring: KeyRing): RegistrySignature -> Option<Key> {
    (s: RegistrySignature) => if s.keyId in ring then ring[s.keyId].publicKey else None
  }

  function AuditOf(ring: KeyRing): RegistrySignature -> SignerAudit {
    (s: RegistrySignature) =>
      SignerAudit(s.keyId,
                  KeyHash(if s.keyId in ring && ring[s.keyId].publicKey.Some?
                          then ring[s.keyId].publicKey.value else ""),
                  SignatureHash(s.signature))
  }

  predicate AuditLe(a: SignerAudit, b: SignerAudit) {
    StringLe(a.keyId, b.keyId)
  }

  /** What signature verification accepts: at least `threshold` signatures, all good, by distinct ids and keys. */
  ghost predicate SignaturesAccepted(ring: KeyRing, threshold: nat, doc: SnapshotDocument,
                                     signatures: seq<RegistrySignature>) {
    && (forall s :: s in signatures ==> SignatureHolds(ring, doc, s))
    && Distinct(Map(KeyIdOf, signatures))
    && Distinct(Map(MaterialOf(ring), signatures))
    && |signatures| >= threshold
  }

  function Audits(ring: KeyRing, signatures: seq<RegistrySignature>): seq<SignerAudit> {
    Sort(AuditLe, Map(AuditOf(ring), signatures))
  }

  /** The audit lists every accepted signature once, in the order of key ids, with the key of the policy behind it. */
  lemma AuditsList(ring: KeyRing, doc: SnapshotDocument, signatures: seq<RegistrySignature>)
    requires SignaturesAccepted(ring, 0, doc, signatures)
    ensures |Audits(ring, signatures)| == |signatures|
    ensures forall s :: s in signatures ==>
              SignerAudit(s.keyId, KeyHash(ring[s.keyId].publicKey.value), SignatureHash(s.signature))
              in Audits(ring, signatures)
    ensures forall i, j :: 0 <= i < j < |signatures| ==>
              StringLe(Audits(ring, signatures)[i].keyId, Audits(ring, signatures)[j].keyId)
  {
    hide Sort, SubjectOf, StringLe;
    var audits := Map(AuditOf(ring), signatures);
    AuditOrder(ring, signatures);
    SortSorted(AuditLe, audits);
    SameElements(Sort(AuditLe, audits), audits);
    forall s | s in signatures
      ensures SignerAudit(s.keyId, KeyHash(ring[s.keyId].publicKey.value), SignatureHash(s.signature)) in audits
    {
      var i :| 0 <= i < |signatures| && signatures[i] == s;
      assert audits[i] in audits;
    }
  }

  /** The signature loop. */
  method VerifyEachSignature(ring: KeyRing, doc: SnapshotDocument, signatures: seq<RegistrySignature>)
    returns (r: Result<seq<SignerAudit>, Error>)
    ensures r.Ok? <==> SignaturesAccepted(ring, 0, doc, signatures)
    ensures r.Ok? ==> r.value == Map(AuditOf(ring), signatures)
  {
    hide SignerKeyHolds, SubjectOf, Map, AuditOf;
    var ids: set<string>, material: set<Option<Key>>, audits: seq<SignerAudit> := {}, {}, [];
    var idList, keyList := Map(KeyIdOf, signatures), Map(MaterialOf(ring), signatures);
    for i := 0 to |signatures|
      invariant ids == set k | 0 <= k < i :: idList[k]
      invariant material == set k | 0 <= k < i :: keyList[k]
      invariant Distinct(idList[..i]) && Distinct(keyList[..i])
      invariant forall k :: 0 <= k < i ==> SignatureHolds(ring, doc, signatures[k])
      invariant audits == Map(AuditOf(ring), signatures)[..i]
    {
      var s := signatures[i];
      assert s in signatures;
      assert idList[i] == s.keyId;
      if s.keyId in ids {
        return Err(RegistrySignatureDuplicate);
      }
      ids := ids + {s.keyId};
      var key := CheckSignerKey(ring, doc, s);
      if key.Err? {
        return Err(key.error);
      }
      assert keyList[i] == Some(key.value);
      if Some(key.value) in material {
        return Err(RegistrySignatureDuplicate);
      }
      material := material + {Some(key.value)};
      if s.signature != Signed(key.value, RegistryMessage(s.keyId, s.role, SubjectOf(doc))) {
        return Err(RegistrySignatureInvalid);
      }
      audits := audits + [AuditOf(ring)(s)];
    }
    assert idList[..|signatures|] == idList && keyList[..|signatures|] == keyList;
    assert audits == Map(AuditOf(ring), signatures);
    return Ok(audits);
  }

  /** `verify_registry_signatures` */
  method VerifySignatures(policy: Policy, doc: SnapshotDocument) returns (r: Result<seq<SignerAudit>, Error>)
    ensures r.Ok? <==> SignaturesAccepted(KeyRingOf(policy.keys), policy.threshold, doc, doc.registry.signatures)
    ensures r.Ok? ==> r.value == Audits(KeyRingOf(policy.keys), doc.registry.signatures)
  {
    hide SignatureHolds, Sort, Distinct, KeyRingOf;
    var audits := VerifyEachSignature(KeyRingOf(policy.keys), doc, doc.registry.signatures);
    if audits.Err? {
      return Err(audits.error);
    }
    if |audits.value| < policy.threshold {
      return Err(RegistrySignatureThresholdNotMet);
    }
    return Ok(Sort(AuditLe, audits.value));
  }

  /** Acceptance and the signer audit do not depend on the order of the signatures. */
  lemma SignatureOrderIrrelevant(ring: KeyRing, threshold: nat, doc: SnapshotDocument,
                                 signatures: seq<RegistrySignature>, permuted: seq<RegistrySignature>)
    requires multiset(signatures) == multiset(permuted)
    ensures SignaturesAccepted(ring, threshold, doc, signatures) <==> SignaturesAccepted(ring, threshold, doc, permuted)
    ensures SignaturesAccepted(ring, threshold, doc, signatures) ==> Audits(ring, signatures) == Audits(ring, permuted)
  {
    hide SignatureHolds, Sort, Distinct;
    SameElements(signatures, permuted);
    MapPermutes(KeyIdOf, signatures, permuted);
    DistinctPermutes(Map(KeyIdOf, signatures), Map(KeyIdOf, permuted));
    MapPermutes(MaterialOf(ring), signatures, permuted);
    DistinctPermutes(Map(MaterialOf(ring), signatures), Map(MaterialOf(ring), permuted));
    if SignaturesAccepted(ring, threshold, doc, signatures) {
      MapPermutes(AuditOf(ring), signatures, permuted);
      AuditOrder(ring, signatures);
      SortCanonical(AuditLe, Map(AuditOf(ring), signatures), Map(AuditOf(ring), permuted));
    }
  }

  lemma AuditOrder(ring: KeyRing, signatures: seq<RegistrySignature>)
    requires Distinct(Map(KeyIdOf, signatures))
    ensures TotalPreorder(AuditLe) && AntisymmetricOn(AuditLe, Map(AuditOf(ring), signatures))
  {
    hide StringLe;
    forall a: SignerAudit, b: SignerAudit ensures AuditLe(a, b) || AuditLe(b, a) {
      StringLeTotal(a.keyId, b.keyId);
    }
    forall a, b, c | AuditLe(a, b) && AuditLe(b, c) ensures AuditLe(a, c) {
      StringLeTransitive(a.keyId, b.keyId, c.keyId);
    }
    var audits, ids := Map(AuditOf(ring), signatures), Map(KeyIdOf, signatures);
    forall a, b | a in audits && b in audits && AuditLe(a, b) && AuditLe(b, a) ensures a == b {
      StringLeTotal(a.keyId, b.keyId);
      var i :| 0 <= i < |audits| && audits[i] == a;
      var j :| 0 <= j < |audits| && audits[j] == b;
      assert ids[i] == a.keyId && ids[j] == b.keyId;
    }
  }
}
