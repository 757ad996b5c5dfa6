/** Documents, digests and signatures of reviewed Domain Pack promotion.

    Hashing and signing are symbolic. A digest is a constructor around the value
    that was hashed, or `Text` for an authored string that is the hash of nothing
    in this model; a signature is a constructor around the key and the exact
    domain-separated message. Fields that the promotion code hashes but never
    looks at are gathered in one `remainder` string per document. */
module PromotionModel {
  import opened Lists

  // Vocabulary -----------------------------------------------------------

  datatype Stage = Candidate | Trial | Validated | Reviewed | Deprecated | Revoked | Superseded

  datatype Transition = Transition(from: Stage, to: Stage) {
    /** The closed promotion graph. */
    predicate IsAllowed() {
      match from
      case Candidate => to.Trial? || to.Revoked?
      case Trial => to.Validated? || to.Revoked?
      case Validated => to.Reviewed? || to.Revoked?
      case Reviewed => to.Deprecated? || to.Revoked? || to.Superseded?
      case Deprecated => to.Revoked? || to.Superseded?
      case Revoked => false
      case Superseded => false
    }

    predicate IsFirstReview() {
      from.Validated? && to.Reviewed?
    }
  }

  predicate Tombstone(stage: Stage) {
    stage.Revoked? || stage.Superseded?
  }

  datatype Eligibility = EligibleReviewed | IneligibleDeprecated | IneligibleRevoked | IneligibleSuperseded

  datatype Role = DomainExpert | EvidenceReviewer | SafetyReviewer | CompatibilityReviewer | RegistryAuthorizer

  predicate Semantic(role: Role) {
    !role.RegistryAuthorizer?
  }

  datatype ReviewerStatus = Active | Suspended | RevokedReviewer

  /** Decoded Ed25519 public key bytes. */
  type Key = string

  datatype Pack = Pack(publisher: string, name: string, version: string)

  // Digests and signatures -----------------------------------------------

  datatype Digest =
    | Text(text: string)
    | ReviewedRegistryHash(reviewed: ReviewedDocument)
    | ReviewerRegistryHash(reviewer: ReviewerDocument)
    | EntryHash(entry: Entry)
    | DossierHash(dossier: DossierDocument)
    | DecisionHash(decision: DecisionDocument)
    | ReviewHash(review: Review)
    | CandidateHash(candidate: LearningCandidate)
    | ConflictHash(conflict: Conflict)
    | PayloadHash(payload: Payload)
    | KeyHash(key: Key)
    | SignatureHash(signature: Signature)

  /** A cleared string field. */
  const BLANK: Digest := Text("")

  datatype Message =
    | PromotionMessage(payload: Payload, reviewerId: string, credentialId: string, role: Role, signedAt: nat)
    | RotationMessage(subject: Digest, predecessor: Option<Digest>, signerId: string, credentialId: string,
                      signedAt: nat)
    | SnapshotMessage(subject: Digest, reviewerId: string, credentialId: string, role: Role, signedAt: nat)

  datatype Signature = Signed(key: Key, message: Message) | Garbage(text: string)

  // Reviewer registry ----------------------------------------------------

  /** `publicKey` is `None` when the hexadecimal text is no valid key. */
  datatype Credential = Credential(
    reviewerId: string, credentialId: string, publicKey: Option<Key>, keyFingerprint: Digest,
    roles: seq<Role>, domains: seq<string>, status: ReviewerStatus, validFrom: nat, validUntil: nat)

  datatype RotationSignature = RotationSignature(
    signerId: string, credentialId: string, predecessor: Option<Digest>, payloadDigest: Digest,
    signature: Signature, signedAt: nat)

  datatype ReviewerRegistry = ReviewerRegistry(
    registryId: string, audience: string, generation: nat, previous: Option<Digest>, trustPolicy: Digest,
    threshold: nat, reviewers: seq<Credential>, rotationSignatures: seq<RotationSignature>,
    registryDigest: Digest)

  datatype ReviewerDocument = ReviewerDocument(schemaVersion: string, registry: ReviewerRegistry)

  // Reviewed registry ----------------------------------------------------

  datatype Compatibility = Compatibility(predecessorContent: seq<string>, breaking: bool, remainder: string)

  datatype Entry = Entry(
    pack: Pack, packageDigest: string, supplyChainRecord: string, manifest: string, content: string,
    license: string, fixtures: seq<string>, stage: Stage, eligibility: Eligibility,
    decisionDigest: Digest, authorizationDigest: Digest, reviewDigests: seq<Digest>,
    compatibility: Compatibility, deprecation: Option<string>, revocation: Option<string>,
    supersession: Option<string>, entryDigest: Digest)

  datatype SnapshotSignature = SnapshotSignature(
    reviewerId: string, credentialId: string, role: Role, payloadDigest: Digest, signature: Signature,
    signedAt: nat)

  datatype ReviewedRegistry = ReviewedRegistry(
    registryId: string, audience: string, generation: nat, previous: Option<Digest>, entries: seq<Entry>,
    snapshotSignatures: seq<SnapshotSignature>, registryDigest: Digest)

  datatype ReviewedDocument = ReviewedDocument(schemaVersion: string, registry: ReviewedRegistry)

  // The promotion graph --------------------------------------------------

  datatype EvaluatorRun = EvaluatorRun(evaluator: string, judge: Option<string>, remainder: string)

  datatype Fixture = Fixture(producer: string, canonicalSha256: string, remainder: string)

  datatype Dossier = Dossier(
    pack: Pack, packageDigest: string, manifest: string, content: string, license: string,
    transition: Transition, candidateDigests: seq<Digest>, evaluatorRuns: seq<EvaluatorRun>,
    fixtures: seq<Fixture>, authors: seq<string>, conflictDigests: seq<Digest>, remainder: string,
    dossierDigest: Digest)

  datatype DossierDocument = DossierDocument(schemaVersion: string, dossier: Dossier)

  datatype DecisionKind = ApproveDecision | RejectDecision | ChangesRequestedDecision

  datatype Decision = Decision(
    dossierDigest: Digest, transition: Transition, kind: DecisionKind, reviewDigests: seq<Digest>,
    resolvedConflicts: seq<Digest>, predecessorDigest: Digest, proposedDigest: Digest, remainder: string,
    decisionDigest: Digest)

  datatype DecisionDocument = DecisionDocument(schemaVersion: string, decision: Decision)

  datatype Independence = Independent(attestation: string) | ConflictDeclared(record: Digest)
    | NotIndependent(reason: string)

  datatype ReviewDecision = Approve | Reject | ChangesRequested

  datatype Severity = Advisory | Required | Blocking

  datatype Disposition = Open | Resolved | AcceptedRisk

  datatype Finding = Finding(severity: Severity, disposition: Disposition, remainder: string)

  datatype Review = Review(
    dossierDigest: Digest, reviewerId: string, role: Role, reviewerRegistryDigest: Digest,
    credentialId: string, independence: Independence, decision: ReviewDecision, findings: seq<Finding>,
    signedSubject: Digest, issuedAt: nat, expiresAt: nat, remainder: string, reviewDigest: Digest)

  datatype LearningCandidate = LearningCandidate(remainder: string, candidateDigest: Digest)

  datatype Conflict = Conflict(remainder: string, conflictDigest: Digest)

  datatype Payload = Payload(
    authorizationId: string, dossierDigest: Digest, decisionDigest: Digest, reviewDigests: seq<Digest>,
    reviewerRegistryDigest: Digest, currentDigest: Digest, proposedDigest: Digest, transition: Transition,
    audience: string, domain: string, nonce: string, issuedAt: nat, expiresAt: nat)

  datatype PromotionSignature = PromotionSignature(
    reviewerId: string, credentialId: string, role: Role, payloadDigest: Digest, signature: Signature,
    signedAt: nat)

  datatype Authorization = Authorization(
    schemaVersion: string, payload: Payload, signatures: seq<PromotionSignature>)

  const LEARNING_SCHEMA_VERSION := "0.3"
  const PROMOTION_PAYLOAD_DOMAIN := "forge-method:domain-pack-learning-promotion:v1"

  // Digest subjects ------------------------------------------------------

  /** Semantic identity of a reviewed registry: authored digest and signatures blanked. */
  function SubjectDigest(doc: ReviewedDocument): Digest {
    ReviewedRegistryHash(doc.(registry := doc.registry.(registryDigest := BLANK, snapshotSignatures := [])))
  }

  function FullDigest(doc: ReviewedDocument): Digest {
    ReviewedRegistryHash(doc)
  }

  function WithoutBacklinks(entry: Entry): Entry {
    entry.(decisionDigest := BLANK, authorizationDigest := BLANK, entryDigest := BLANK)
  }

  /** The commitment that the decision and the payload sign before the backlinks exist. */
  function ProposalDigest(doc: ReviewedDocument): Digest {
    var entries := seq(|doc.registry.entries|, i requires 0 <= i < |doc.registry.entries| =>
                         WithoutBacklinks(doc.registry.entries[i]));
    ReviewedRegistryHash(doc.(registry := doc.registry.(
                              registryDigest := BLANK, snapshotSignatures := [], entries := entries)))
  }

  function EntryDigest(entry: Entry): Digest {
    EntryHash(entry.(entryDigest := BLANK))
  }

  function ReviewerSubjectDigest(doc: ReviewerDocument): Digest {
    ReviewerRegistryHash(doc.(registry := doc.registry.(registryDigest := BLANK, rotationSignatures := [])))
  }

  function ReviewerFullDigest(doc: ReviewerDocument): Digest {
    ReviewerRegistryHash(doc)
  }

  function DossierDigest(doc: DossierDocument): Digest {
    DossierHash(doc.(dossier := doc.dossier.(dossierDigest := BLANK)))
  }

  function DecisionDigest(doc: DecisionDocument): Digest {
    DecisionHash(doc.(decision := doc.decision.(decisionDigest := BLANK)))
  }

  function ReviewDigest(review: Review): Digest {
    ReviewHash(review.(reviewDigest := BLANK))
  }

  function CandidateDigest(candidate: LearningCandidate): Digest {
    CandidateHash(candidate.(candidateDigest := BLANK))
  }

  function ConflictDigest(conflict: Conflict): Digest {
    ConflictHash(conflict.(conflictDigest := BLANK))
  }

  /** Equal subject digests mean the same registry up to authored digest and signatures. */
  lemma SubjectDigestExact(a: ReviewedDocument, b: ReviewedDocument)
    ensures SubjectDigest(a) == SubjectDigest(b) <==>
            a == b.(registry := b.registry.(registryDigest := a.registry.registryDigest,
                                            snapshotSignatures := a.registry.snapshotSignatures))
  {
  }

  /** An entry digest covers the whole entry but itself, a full digest the whole document. */
  lemma EntryDigestExact(e: Entry, f: Entry, a: ReviewedDocument, b: ReviewedDocument)
    ensures EntryDigest(e) == EntryDigest(f) <==> e == f.(entryDigest := e.entryDigest)
    ensures FullDigest(a) == FullDigest(b) <==> a == b
  {
  }

  /** Equal subject digests mean the same reviewer registry up to authored digest and rotation signatures. */
  lemma ReviewerSubjectDigestExact(a: ReviewerDocument, b: ReviewerDocument)
    ensures ReviewerSubjectDigest(a) == ReviewerSubjectDigest(b) <==>
            a == b.(registry := b.registry.(registryDigest := a.registry.registryDigest,
                                            rotationSignatures := a.registry.rotationSignatures))
  {
  }

  /** Equal proposal digests mean the same registry up to authored digest, signatures and backlinks. */
  lemma ProposalDigestExact(a: ReviewedDocument, b: ReviewedDocument)
    ensures ProposalDigest(a) == ProposalDigest(b) <==>
            && |a.registry.entries| == |b.registry.entries|
            && (forall i :: 0 <= i < |a.registry.entries| ==>
                  WithoutBacklinks(a.registry.entries[i]) == WithoutBacklinks(b.registry.entries[i]))
            && a == b.(registry := b.registry.(registryDigest := a.registry.registryDigest,
                                               snapshotSignatures := a.registry.snapshotSignatures,
                                               entries := a.registry.entries))
  {
    var p, q := ProposalDigest(a).reviewed.registry, ProposalDigest(b).reviewed.registry;
    if ProposalDigest(a) == ProposalDigest(b) {
      assert p == q;
      forall i | 0 <= i < |a.registry.entries|
        ensures WithoutBacklinks(a.registry.entries[i]) == WithoutBacklinks(b.registry.entries[i])
      {
        assert p.entries[i] == q.entries[i];
      }
    }
    if && |a.registry.entries| == |b.registry.entries|
       && (forall i :: 0 <= i < |a.registry.entries| ==>
             WithoutBacklinks(a.registry.entries[i]) == WithoutBacklinks(b.registry.entries[i])) {
      assert p.entries == q.entries;
    }
  }

  // Contract validation --------------------------------------------------

  /** The field-shape checks of the contract `validate()` methods (blank text, digest
      syntax, list bounds) and the promotion evaluator, each an arbitrary predicate.
      The structural checks the proofs rely on are written out below. */
  datatype Contracts = Contracts(
    reviewerShape: ReviewerDocument -> bool,
    reviewedShape: ReviewedDocument -> bool,
    dossierShape: DossierDocument -> bool,
    decisionShape: DecisionDocument -> bool,
    authorizationShape: Authorization -> bool,
    reviewShape: Review -> bool,
    candidateShape: LearningCandidate -> bool,
    conflictShape: Conflict -> bool,
    ready: (DossierDocument, seq<LearningCandidate>, seq<Review>, seq<Conflict>) -> bool)

  predicate ChainShape(generation: nat, previous: Option<Digest>) {
    generation == 0 <==> previous.None?
  }

  datatype Identity = Identity(pack: Pack, packageDigest: string)

  function IdentityOf(entry: Entry): Identity {
    Identity(entry.pack, entry.packageDigest)
  }

  predicate UniqueIdentities(entries: seq<Entry>) {
    forall i, j :: 0 <= i < j < |entries| ==> IdentityOf(entries[i]) != IdentityOf(entries[j])
  }

  /** One publisher/name/version never claims two package digests. */
  predicate UniqueCoordinates(entries: seq<Entry>) {
    forall i, j :: 0 <= i < j < |entries| ==>
      entries[i].pack == entries[j].pack ==> entries[i].packageDigest == entries[j].packageDigest
  }

  /** Eligibility exactly matches a reviewed lifecycle stage. */
  predicate StageMatchesEligibility(entry: Entry) {
    match entry.stage
    case Reviewed => entry.eligibility.EligibleReviewed?
    case Deprecated => entry.eligibility.IneligibleDeprecated?
    case Revoked => entry.eligibility.IneligibleRevoked?
    case Superseded => entry.eligibility.IneligibleSuperseded?
    case _ => false
  }

  predicate ReviewedValid(c: Contracts, doc: ReviewedDocument) {
    && doc.schemaVersion == LEARNING_SCHEMA_VERSION
    && ChainShape(doc.registry.generation, doc.registry.previous)
    && UniqueIdentities(doc.registry.entries)
    && UniqueCoordinates(doc.registry.entries)
    && (forall i :: 0 <= i < |doc.registry.entries| ==> StageMatchesEligibility(doc.registry.entries[i]))
    && c.reviewedShape(doc)
  }

  predicate ReviewerValid(c: Contracts, doc: ReviewerDocument) {
    && doc.schemaVersion == LEARNING_SCHEMA_VERSION
    && ChainShape(doc.registry.generation, doc.registry.previous)
    && 0 < doc.registry.threshold <= |doc.registry.rotationSignatures|
    && (forall i, j :: 0 <= i < j < |doc.registry.reviewers| ==>
          doc.registry.reviewers[i].credentialId != doc.registry.reviewers[j].credentialId)
    && (forall i :: 0 <= i < |doc.registry.rotationSignatures| ==>
          doc.registry.rotationSignatures[i].predecessor == doc.registry.previous)
    && c.reviewerShape(doc)
  }

  predicate DossierValid(c: Contracts, doc: DossierDocument) {
    && doc.schemaVersion == LEARNING_SCHEMA_VERSION
    && doc.dossier.transition.IsAllowed()
    && c.dossierShape(doc)
  }

  predicate ReviewValid(c: Contracts, review: Review) {
    review.issuedAt < review.expiresAt && c.reviewShape(review)
  }

  predicate DecisionValid(c: Contracts, doc: DecisionDocument) {
    && doc.schemaVersion == LEARNING_SCHEMA_VERSION
    && doc.decision.transition.IsAllowed()
    && c.decisionShape(doc)
  }

  predicate AuthorizationValid(c: Contracts, doc: Authorization) {
    && doc.schemaVersion == LEARNING_SCHEMA_VERSION
    && doc.payload.transition.IsAllowed()
    && doc.payload.issuedAt < doc.payload.expiresAt
    && c.authorizationShape(doc)
  }

  // Errors ---------------------------------------------------------------

  datatype Error =
    | InvalidContract
    | WrongAudience
    | WrongDomain
    | BindingMismatch
    | BlockingDecision
    | AuthorizationNotYetValid
    | AuthorizationExpired
    | PayloadDigestMismatch
    | CredentialNotFound
    | CredentialNotActive
    | CredentialRoleMismatch
    | CredentialPrincipalMismatch
    | CredentialOutsideValidity
    | PublicKeyDecode
    | PublicKeyFingerprintMismatch
    | SignatureInvalid
    | SeparationViolation
    | ReviewSignerMismatch
    | MissingSignedReview
    | DuplicateSignature
    | InvalidReviewerAnchor
    | CompareAndSwapConflict
    | IdentityMismatch
    | TrustPolicyMismatch
    | GenerationMismatch
    | PredecessorMismatch
    | ThresholdNotMet
    | EvolutionRejected
}
