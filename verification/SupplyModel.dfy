/** Documents of the Domain Pack supply-chain registry, with symbolic digests and signatures as in the
    promotion model. Text that is no digest of this model is `Text`, and only then can it be malformed. */
module SupplyModel {
  import opened Lists
  import opened Hex

  type Key = string

  datatype Digest =
    | Text(text: string)
    | SnapshotHash(snapshot: SnapshotSubject)
    | RecordHash(record: RecordSubject)
    | PolicyHash(policy: PolicyDocument)
    | RevocationsHash(facts: seq<Revocation>)
    | KeyHash(key: Key)
    | SignatureHash(signature: Signature)

  datatype Message =
    | PublisherMessage(registryId: string, audience: string, record: RecordSubject)
    | RegistryMessage(keyId: string, role: TrustRole, snapshot: SnapshotSubject)

  datatype Signature = Signed(key: Key, message: Message) | Garbage(text: string)

  /** `is_sha256_token`: every computed digest is one, authored text may not be. */
  predicate IsToken(d: Digest) {
    d.Text? ==> Sha256Token(d.text)
  }

  // Trust policy ---------------------------------------------------------

  datatype TrustRole = RegistrySigner | RegistryRevoker

  datatype CredentialStatus = Active | Revoked

  datatype Assurance = ExplicitlyUntrusted | LocalExplicit | SupplyChainVerified

  datatype Disposition = Reject | InspectOnly | ActivateDeclarativeKnowledge
    | ActivateDeclarativeKnowledgeAndBoundBuiltIns

  /** `publicKey` is `None` when the hexadecimal text is no valid key. */
  datatype TrustKey = TrustKey(keyId: string, role: TrustRole, publicKey: Option<Key>, status: CredentialStatus,
                               validFrom: nat, validUntil: nat)

  datatype Coordinate = Coordinate(publisher: string, name: string)

  datatype Rule = Rule(ruleId: string, pack: Coordinate, packageDigest: Option<Digest>, contentDigest: Option<Digest>,
                       disposition: Disposition)

  datatype Policy = Policy(policyId: string, policyVersion: string, audience: string, keys: seq<TrustKey>,
                           threshold: nat, minimumAssurance: Assurance, rules: seq<Rule>,
                           defaultDisposition: Disposition)

  datatype PolicyDocument = PolicyDocument(schemaVersion: string, policy: Policy)

  // Registry snapshot ----------------------------------------------------

  datatype PackIdentity = PackIdentity(publisher: string, name: string, namespace: string, version: string)

  datatype PublisherCredential = PublisherCredential(credentialId: string, publisher: string, publicKey: Option<Key>,
                                                     status: CredentialStatus, validFrom: nat, validUntil: nat)

  datatype Grant = Grant(grantId: string, publisher: string, prefix: string, validFrom: nat, validUntil: nat)

  /** Only the canonical content pin of the artifact descriptors is inspected. */
  datatype Artifacts = Artifacts(contentCanonical: Digest, remainder: string)

  datatype Record = Record(identity: PackIdentity, packageDigest: Digest, manifestDigest: Digest, contentDigest: Digest,
                           licenseDigest: Digest, fixtureDigests: seq<Digest>, artifacts: Artifacts, grantId: string,
                           credentialId: string, signature: Signature, recordDigest: Digest)

  datatype RecordSubject = RecordSubject(identity: PackIdentity, packageDigest: Digest, manifestDigest: Digest,
                                         contentDigest: Digest, licenseDigest: Digest, fixtureDigests: seq<Digest>,
                                         artifacts: Artifacts, grantId: string, credentialId: string)

  datatype RevocationReason = KeyCompromise | ProvenanceFailure | PackageTamper | OperatorPolicy | SupersededUnsafe

  datatype Revocation = Revocation(recordDigest: Digest, reason: RevocationReason, explanation: string, revokedAt: nat)

  datatype RegistrySignature = RegistrySignature(keyId: string, role: TrustRole, signature: Signature)

  datatype Registry = Registry(
    registryId: string, registryVersion: string, audience: string, generation: nat, previous: Option<Digest>,
    issuedAt: nat, expiresAt: nat, credentials: seq<PublisherCredential>, grants: seq<Grant>, mirrors: seq<string>,
    packages: seq<Record>, revocations: seq<Revocation>, snapshotDigest: Digest, signatures: seq<RegistrySignature>)

  datatype SnapshotDocument = SnapshotDocument(schemaVersion: string, registry: Registry)

  /** What is hashed and signed: everything but the authored digest and the signatures. */
  datatype SnapshotSubject = SnapshotSubject(
    schemaVersion: string, registryId: string, registryVersion: string, audience: string, generation: nat,
    previous: Option<Digest>, issuedAt: nat, expiresAt: nat, credentials: seq<PublisherCredential>, grants: seq<Grant>,
    mirrors: seq<string>, packages: seq<Record>, revocations: seq<Revocation>)

  /** `registry_snapshot_subject` */
  function SubjectOf(doc: SnapshotDocument): SnapshotSubject {
    var r := doc.registry;
    SnapshotSubject(doc.schemaVersion, r.registryId, r.registryVersion, r.audience, r.generation,
                    r.previous, r.issuedAt, r.expiresAt, r.credentials, r.grants, r.mirrors, r.packages, r.revocations)
  }

  /** `package_record_subject` */
  function RecordSubjectOf(r: Record): RecordSubject {
    RecordSubject(r.identity, r.packageDigest, r.manifestDigest, r.contentDigest, r.licenseDigest, r.fixtureDigests,
                  r.artifacts, r.grantId, r.credentialId)
  }

  function SnapshotDigest(doc: SnapshotDocument): Digest {
    SnapshotHash(SubjectOf(doc))
  }

  function RecordDigest(r: Record): Digest {
    RecordHash(RecordSubjectOf(r))
  }

  /** Equal snapshot digests mean the same document up to the authored digest and the signatures. */
  lemma SnapshotDigestExact(a: SnapshotDocument, b: SnapshotDocument)
    ensures SnapshotDigest(a) == SnapshotDigest(b) <==>
            a == b.(registry := b.registry.(snapshotDigest := a.registry.snapshotDigest,
                                            signatures := a.registry.signatures))
  {
  }

  /** Equal record digests mean the same record up to the authored digest and the signature. */
  lemma RecordDigestExact(a: Record, b: Record)
    ensures RecordDigest(a) == RecordDigest(b) <==>
            a == b.(recordDigest := a.recordDigest, signature := a.signature)
  {
  }

  const LIFECYCLE_SCHEMA_VERSION := "0.5"

  /** `time_inclusive` */
  predicate Within(t: nat, from: nat, until: nat) {
    from <= t <= until
  }

  // Errors ---------------------------------------------------------------

  datatype Error =
    | UnsupportedSchemaVersion
    | InvalidPolicy
    | InvalidSnapshot
    | AudienceMismatch
    | SnapshotNotYetValid
    | SnapshotExpired
    | SnapshotDigestMismatch
    | RegistryKeyNotFound
    | RegistryKeyNotActive
    | RegistryKeyRoleMismatch
    | RegistryKeyOutsideValidity
    | RegistrySignatureDuplicate
    | RegistrySignatureInvalid
    | RegistrySignatureThresholdNotMet
    | PublisherCredentialNotFound
    | PublisherCredentialNotActive
    | PublisherCredentialOutsideValidity
    | PublisherIdentityMismatch
    | PublisherSignatureInvalid
    | RecordDigestMismatch
    | NamespaceGrantNotFound
    | NamespaceGrantOutsideValidity
    | NamespacePublisherMismatch
    | NamespaceNotGranted
    | ReservedCoreNamespace
    | RevokedRecord
    | DuplicateRecord
    | PackageEquivocation
    | InvalidRegistryAnchor
    | AnchorIdentityMismatch
    | AnchorTrustPolicyMismatch
    | CompareAndSwapConflict
    | SnapshotStale
    | SnapshotFork
    | SnapshotGenerationSkip
    | SnapshotPredecessorMismatch
    | AnchorGenerationOverflow
    | CumulativeRevocationMismatch
    | SelectedRecordNotAnchored
    | SelectedRecordPolicyMismatch
    | SelectedRecordAmbiguousTrustRule
    | SelectedRecordRejected
    | SelectedRecordBelowMinimumAssurance
    | InvalidPublicKey
}
