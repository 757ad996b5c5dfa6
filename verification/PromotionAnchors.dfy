/** The two monotonic anchors: the reviewer registry, advanced by predecessor-signed rotation, and the
    reviewed registry, advanced by consuming a promotion capability. */
module PromotionAnchors {
  import opened Lists
  import opened PromotionModel
  import opened Evolution
  import opened Reviewers
  import opened PromotionAuthority

  // Reviewer registry ----------------------------------------------------

  datatype ReviewerState = ReviewerState(document: ReviewerDocument, registryDigest: Digest, fullDigest: Digest) {
    function Directory(): Directory {
      DirectoryOf(document.registry.reviewers)
    }

    function Version(): ReviewerVersion {
      ReviewerVersion(document.registry.registryId, document.registry.audience, document.registry.generation,
                      registryDigest, fullDigest, document.registry.trustPolicy)
    }
  }

  datatype ReviewerVersion = ReviewerVersion(
    registryId: string, audience: string, generation: nat, registryDigest: Digest, fullDigest: Digest,
    trustPolicy: Digest)

  function ReviewerHead(document: ReviewerDocument): ReviewerState {
    ReviewerState(document, ReviewerSubjectDigest(document), ReviewerFullDigest(document))
  }

  /** A head whose digests are those of its own valid document. */
  predicate ReviewerEstablished(c: Contracts, s: ReviewerState) {
    && ReviewerValid(c, s.document)
    && s == ReviewerHead(s.document)
    && s.document.registry.registryDigest == s.registryDigest
  }

  /** `candidate` is the direct successor of `current`: same identity, audience and trust policy, no lower threshold. */
  predicate RotationFollows(s: ReviewerState, candidate: ReviewerDocument) {
    var current, next := s.document.registry, candidate.registry;
    && next.registryId == current.registryId
    && next.audience == current.audience
    && next.trustPolicy == current.trustPolicy
    && next.threshold >= current.threshold
    && current.generation < U64_MAX
    && next.generation == current.generation + 1
    && next.previous == Some(s.registryDigest)
  }

  ghost predicate CanRotate(c: Contracts, s: ReviewerState, expected: ReviewerVersion,
                            candidate: ReviewerDocument, now: nat) {
    && expected == s.Version()
    && ReviewerValid(c, candidate)
    && RotationFollows(s, candidate)
    && candidate.registry.registryDigest == ReviewerSubjectDigest(candidate)
    && RotationAuthorized(s.Directory(), s.document.registry.threshold, candidate.registry,
                          ReviewerSubjectDigest(candidate), now)
  }

  /** `DomainPackReviewerRegistryAnchor` */
  class ReviewerAnchor {
    var document: ReviewerDocument
    var registryDigest: Digest
    var fullDigest: Digest

    function State(): ReviewerState
      reads this
    {
      ReviewerState(document, registryDigest, fullDigest)
    }

    constructor (head: ReviewerState)
      ensures State() == head
    {
      document, registryDigest, fullDigest := head.document, head.registryDigest, head.fullDigest;
    }

    /** `from_operator_protected_genesis` */
    static method FromOperatorProtectedGenesis(c: Contracts, document: ReviewerDocument, trustPolicy: Digest,
                                               full: Digest)
      returns (r: Result<ReviewerAnchor, Error>)
      ensures r.Ok? ==> fresh(r.value)
      ensures r.Ok? ==> r.value.State() == ReviewerHead(document) && ReviewerEstablished(c, r.value.State())
      ensures r.Ok? ==> document.registry.generation == 0 && document.registry.trustPolicy == trustPolicy
      ensures r.Err? <==> || document.registry.generation != 0 || document.registry.previous.Some?
                          || !ReviewerEstablished(c, ReviewerHead(document))
                          || document.registry.trustPolicy != trustPolicy || ReviewerFullDigest(document) != full
    {
      if document.registry.generation != 0 || document.registry.previous.Some? {
        return Err(InvalidReviewerAnchor);
      }
      r := FromOperatorProtectedHead(c, document, trustPolicy, full);
    }

    /** `from_operator_protected_head` */
    static method FromOperatorProtectedHead(c: Contracts, document: ReviewerDocument, trustPolicy: Digest, full: Digest)
      returns (r: Result<ReviewerAnchor, Error>)
      ensures r.Ok? ==> fresh(r.value)
      ensures r.Ok? ==> r.value.State() == ReviewerHead(document) && ReviewerEstablished(c, r.value.State())
      ensures r.Ok? ==> document.registry.trustPolicy == trustPolicy && ReviewerFullDigest(document) == full
      ensures r.Err? <==> || !ReviewerEstablished(c, ReviewerHead(document))
                          || document.registry.trustPolicy != trustPolicy || ReviewerFullDigest(document) != full
    {
      if !ReviewerValid(c, document) {
        return Err(InvalidContract);
      }
      if document.registry.trustPolicy != trustPolicy {
        return Err(TrustPolicyMismatch);
      }
      if document.registry.registryDigest != ReviewerSubjectDigest(document) {
        return Err(BindingMismatch);
      }
      if ReviewerFullDigest(document) != full {
        return Err(BindingMismatch);
      }
      var anchor := new ReviewerAnchor(ReviewerHead(document));
      return Ok(anchor);
    }

    /** `compare_and_advance` of the reviewer registry. */
    method CompareAndAdvance(c: Contracts, expected: ReviewerVersion, candidate: ReviewerDocument, now: nat)
      returns (r: Result<Digest, Error>)
      modifies this
      ensures r.Ok? <==> CanRotate(c, old(State()), expected, candidate, now)
      ensures r.Ok? ==> State() == ReviewerHead(candidate) && r.value == ReviewerSubjectDigest(candidate)
      ensures r.Err? ==> State() == old(State())
      ensures r == Err(CompareAndSwapConflict) <==> expected != old(State()).Version()
    {
      hide RotationAuthorized, ReviewerValid, DirectoryOf;
      if expected != State().Version() {
        return Err(CompareAndSwapConflict);
      }
      if !ReviewerValid(c, candidate) {
        return Err(InvalidContract);
      }
      var current, next := document.registry, candidate.registry;
      if next.registryId != current.registryId || next.audience != current.audience {
        return Err(IdentityMismatch);
      }
      if next.trustPolicy != current.trustPolicy {
        return Err(TrustPolicyMismatch);
      }
      if next.threshold < current.threshold {
        return Err(ThresholdNotMet);
      }
      if current.generation >= U64_MAX || next.generation != current.generation + 1 {
        return Err(GenerationMismatch);
      }
      if next.previous != Some(registryDigest) {
        return Err(PredecessorMismatch);
      }
      if next.registryDigest != ReviewerSubjectDigest(candidate) {
        return Err(BindingMismatch);
      }
      var rotation := VerifyRotation(DirectoryOf(current.reviewers), current.threshold, next,
                                     ReviewerSubjectDigest(candidate), now);
      if rotation.Err? {
        return Err(rotation.error);
      }
      fullDigest := ReviewerFullDigest(candidate);
      registryDigest := ReviewerSubjectDigest(candidate);
      document := candidate;
      return Ok(registryDigest);
    }
  }

  // Reviewed registry ----------------------------------------------------

  datatype ReviewedState = ReviewedState(document: ReviewedDocument, registryDigest: Digest) {
    function Version(): ReviewedVersion {
      ReviewedVersion(document.registry.registryId, document.registry.audience, document.registry.generation,
                      registryDigest)
    }
  }

  datatype ReviewedVersion = ReviewedVersion(registryId: string, audience: string, generation: nat,
                                             registryDigest: Digest)

  /** `AnchoredReviewedDomainPackRegistrySnapshot`, with its optional authorization audit. */
  datatype Snapshot = Snapshot(document: ReviewedDocument, registryDigest: Digest, reviewerRegistryDigest: Digest,
                               audit: Option<Capability>)

  function ReviewedHead(document: ReviewedDocument): ReviewedState {
    ReviewedState(document, SubjectDigest(document))
  }

  /** A head holding a valid registry under its own subject digest. The authored digest field is not part of it. */
  predicate ReviewedEstablished(c: Contracts, s: ReviewedState) {
    ReviewedValid(c, s.document) && s == ReviewedHead(s.document)
  }

  predicate CapabilityCurrent(s: ReviewedState, reviewer: ReviewerState, cap: Capability, now: nat) {
    && cap.reviewerRegistryDigest == reviewer.registryDigest
    && cap.issuedAt <= now <= cap.expiresAt
    && cap.currentDigest == s.registryDigest
  }

  ghost predicate CanAdvance(s: ReviewedState, expected: ReviewedVersion, reviewer: ReviewerState,
                             cap: Capability, now: nat) {
    && expected == s.Version()
    && CapabilityCurrent(s, reviewer, cap, now)
    && cap.proposed.registry.previous == Some(s.registryDigest)
    && ScanAccepts(s.document.registry, cap.proposed.registry, cap.transition)
    && SubjectDigest(cap.proposed) == cap.proposedDigest
    && FullDigest(cap.proposed) == cap.proposedFullDigest
    && SnapshotSigned(reviewer.Directory(), cap.proposed, now)
  }

  predicate SameRegistryHeader(s: ReviewedState, candidate: ReviewedDocument) {
    && SubjectDigest(candidate) == s.registryDigest
    && candidate.registry.registryId == s.document.registry.registryId
    && candidate.registry.audience == s.document.registry.audience
    && candidate.registry.generation == s.document.registry.generation
  }

  ghost predicate CanReplay(c: Contracts, s: ReviewedState, reviewer: ReviewerState,
                            candidate: ReviewedDocument, now: nat) {
    && ReviewedValid(c, candidate)
    && SameRegistryHeader(s, candidate)
    && SnapshotSigned(reviewer.Directory(), candidate, now)
  }

  /** `ReviewedDomainPackRegistryAnchor` */
  class ReviewedAnchor {
    var document: ReviewedDocument
    var registryDigest: Digest

    function State(): ReviewedState
      reads this
    {
      ReviewedState(document, registryDigest)
    }

    constructor (head: ReviewedState)
      ensures State() == head
    {
      document, registryDigest := head.document, head.registryDigest;
    }

    /** `from_operator_protected_head` */
    static method FromOperatorProtectedHead(c: Contracts, reviewer: ReviewerAnchor, document: ReviewedDocument,
                                            expected: Digest, now: nat) returns (r: Result<ReviewedAnchor, Error>)
      ensures r.Ok? ==> fresh(r.value)
      ensures r.Ok? ==> r.value.State() == ReviewedHead(document) && ReviewedEstablished(c, r.value.State())
      ensures r.Ok? <==> && ReviewedValid(c, document)
                         && document.registry.registryDigest == SubjectDigest(document) == expected
                         && SnapshotSigned(reviewer.State().Directory(), document, now)
    {
      hide SnapshotSigned, DirectoryOf;
      if !ReviewedValid(c, document) {
        return Err(InvalidContract);
      }
      if document.registry.registryDigest != SubjectDigest(document) || SubjectDigest(document) != expected {
        return Err(BindingMismatch);
      }
      var signed := VerifySnapshotSignatures(DirectoryOf(reviewer.document.registry.reviewers), document, now);
      if signed.Err? {
        return Err(signed.error);
      }
      var anchor := new ReviewedAnchor(ReviewedHead(document));
      return Ok(anchor);
    }

    /** `verify_exact_replay` */
    method VerifyExactReplay(c: Contracts, reviewer: ReviewerAnchor, candidate: ReviewedDocument, now: nat)
      returns (r: Result<Snapshot, Error>)
      modifies this
      ensures r.Ok? <==> CanReplay(c, old(State()), old(reviewer.State()), candidate, now)
      ensures r.Ok? ==> State() == old(State()).(document := candidate)
      ensures r.Ok? ==> r.value == Snapshot(candidate, registryDigest, reviewer.registryDigest, None)
      ensures r.Err? ==> State() == old(State())
    {
      hide SnapshotSigned, DirectoryOf, ReviewedValid;
      if !ReviewedValid(c, candidate) {
        return Err(InvalidContract);
      }
      if SubjectDigest(candidate) != registryDigest
         || candidate.registry.registryId != document.registry.registryId
         || candidate.registry.audience != document.registry.audience
         || candidate.registry.generation != document.registry.generation {
        return Err(CompareAndSwapConflict);
      }
      var signed := VerifySnapshotSignatures(DirectoryOf(reviewer.document.registry.reviewers), candidate, now);
      if signed.Err? {
        return Err(signed.error);
      }
      document := candidate;
      return Ok(Snapshot(document, registryDigest, reviewer.registryDigest, None));
    }

    /** `compare_and_advance` of the reviewed registry: consumes one capability. */
    method CompareAndAdvance(expected: ReviewedVersion, reviewer: ReviewerAnchor, cap: Capability, now: nat)
      returns (r: Result<Snapshot, Error>)
      modifies this
      ensures r.Ok? <==> CanAdvance(old(State()), expected, old(reviewer.State()), cap, now)
      ensures r.Ok? ==> State() == ReviewedHead(cap.proposed)
      ensures r.Ok?
              ==> r.value == Snapshot(cap.proposed, SubjectDigest(cap.proposed), reviewer.registryDigest, Some(cap))
      ensures r.Err? ==> State() == old(State())
    {
      hide SnapshotSigned, DirectoryOf, AllPreserved, Changed, Appended, AuthorizedChange, EntriesCanonical;
      if expected != State().Version() {
        return Err(CompareAndSwapConflict);
      }
      if cap.reviewerRegistryDigest != reviewer.registryDigest {
        return Err(BindingMismatch);
      }
      if now < cap.issuedAt {
        return Err(AuthorizationNotYetValid);
      }
      if now > cap.expiresAt {
        return Err(AuthorizationExpired);
      }
      if cap.currentDigest != registryDigest {
        return Err(PredecessorMismatch);
      }
      var current, next := document.registry, cap.proposed.registry;
      if next.registryId != current.registryId || next.audience != current.audience {
        return Err(IdentityMismatch);
      }
      if current.generation >= U64_MAX || next.generation != current.generation + 1 {
        return Err(GenerationMismatch);
      }
      if next.previous != Some(registryDigest) {
        return Err(PredecessorMismatch);
      }
      var evolution := ValidateEvolution(current, next, cap.transition);
      if evolution.Err? {
        return Err(evolution.error);
      }
      if SubjectDigest(cap.proposed) != cap.proposedDigest || FullDigest(cap.proposed) != cap.proposedFullDigest {
        return Err(EvolutionRejected);
      }
      var signed := VerifySnapshotSignatures(DirectoryOf(reviewer.document.registry.reviewers), cap.proposed, now);
      if signed.Err? {
        return Err(signed.error);
      }
      document := cap.proposed;
      registryDigest := SubjectDigest(cap.proposed);
      return Ok(Snapshot(document, registryDigest, reviewer.registryDigest, Some(cap)));
    }
  }
}
