/** Promotion authorization: the exact-graph verifier that mints the one-use capability. */
module PromotionAuthority {
  import opened Lists
  import opened PromotionModel
  import opened Evolution
  import opened Reviewers

  // Exact digest graphs --------------------------------------------------

  /** Both lists are duplicate-free and hold the same set. */
  ghost predicate SameDigestSet(expected: seq<Digest>, observed: seq<Digest>) {
    Distinct(expected) && Distinct(observed) && Elements(expected) == Elements(observed)
  }

  /** `windows(2).any(|pair| pair[0] == pair[1])` */
  method HasAdjacentDuplicate(xs: seq<Digest>) returns (found: bool)
    ensures found <==> exists i :: 0 <= i < |xs| - 1 && xs[i] == xs[i + 1]
  {
    if |xs| == 0 {
      return false;
    }
    for i := 0 to |xs| - 1
      invariant forall k :: 0 <= k < i ==> xs[k] != xs[k + 1]
    {
      if xs[i] == xs[i + 1] {
        return true;
      }
    }
    return false;
  }

  /** In a sorted list any duplicate shows up next to itself. */
  lemma SortedDuplicatesAdjacent<T(!new)>(leq: (T, T) -> bool, xs: seq<T>)
    requires TotalOrder(leq) && Sorted(leq, xs)
    ensures Distinct(xs) <==> forall i :: 0 <= i < |xs| - 1 ==> xs[i] != xs[i + 1]
  {
    if !Distinct(xs) {
      var i, j :| 0 <= i < j < |xs| && xs[i] == xs[j];
      assert leq(xs[i], xs[i + 1]);
      assert j == i + 1 || leq(xs[i + 1], xs[j]);
      assert leq(xs[i], xs[i]);
      assert xs[i] == xs[i + 1];
    }
  }

  /** `require_exact_digest_graph`; `leq` is the byte order of digest text. */
  method RequireExactGraph(leq: (Digest, Digest) -> bool, expected: seq<Digest>, observed: seq<Digest>)
    returns (ok: bool)
    requires TotalOrder(leq)
    ensures ok <==> SameDigestSet(expected, observed)
  {
    var e, o := Sort(leq, expected), Sort(leq, observed);
    SortSorted(leq, expected);
    SortSorted(leq, observed);
    SortedDuplicatesAdjacent(leq, e);
    SortedDuplicatesAdjacent(leq, o);
    DistinctPermutes(expected, e);
    DistinctPermutes(observed, o);
    SortCanonical(leq, expected, observed);
    var duplicateExpected := HasAdjacentDuplicate(e);
    var duplicateObserved := HasAdjacentDuplicate(o);
    if Distinct(expected) && Distinct(observed) {
      DistinctSameSet(expected, observed);
    }
    return !duplicateExpected && !duplicateObserved && e == o;
  }

  // The graph ------------------------------------------------------------

  /** `DomainPackPromotionExpectedContext` */
  datatype Context = Context(
    dossier: DossierDocument, candidates: seq<LearningCandidate>, decision: DecisionDocument, reviews: seq<Review>,
    conflicts: seq<Conflict>, current: ReviewedDocument, proposed: ReviewedDocument, now: nat)

  /** `VerifiedDomainPackPromotionAuthorization` */
  datatype Capability = Capability(
    authorizationId: string, payloadDigest: Digest, dossierDigest: Digest, decisionDigest: Digest,
    reviewerRegistryDigest: Digest, currentDigest: Digest, proposedDigest: Digest, proposedFullDigest: Digest,
    issuedAt: nat, expiresAt: nat, transition: Transition, proposed: ReviewedDocument,
    reviewers: seq<VerifiedReviewer>)

  function CandidateDigests(candidates: seq<LearningCandidate>): seq<Digest> {
    seq(|candidates|, i requires 0 <= i < |candidates| => candidates[i].candidateDigest)
  }

  function ConflictDigests(conflicts: seq<Conflict>): seq<Digest> {
    seq(|conflicts|, i requires 0 <= i < |conflicts| => conflicts[i].conflictDigest)
  }

  function ReviewDigests(reviews: seq<Review>): seq<Digest> {
    seq(|reviews|, i requires 0 <= i < |reviews| => ReviewDigest(reviews[i]))
  }

  predicate DocumentsValid(c: Contracts, a: Authorization, x: Context) {
    && DossierValid(c, x.dossier)
    && DecisionValid(c, x.decision)
    && AuthorizationValid(c, a)
    && ReviewedValid(c, x.current)
    && ReviewedValid(c, x.proposed)
    && (forall i :: 0 <= i < |x.reviews| ==> ReviewValid(c, x.reviews[i]))
    && (forall i :: 0 <= i < |x.candidates| ==>
          c.candidateShape(x.candidates[i]) && x.candidates[i].candidateDigest == CandidateDigest(x.candidates[i]))
    && (forall i :: 0 <= i < |x.conflicts| ==>
          c.conflictShape(x.conflicts[i]) && x.conflicts[i].conflictDigest == ConflictDigest(x.conflicts[i]))
  }

  predicate PayloadCurrent(p: Payload, audience: string, now: nat) {
    && p.audience == audience
    && p.domain == PROMOTION_PAYLOAD_DOMAIN
    && p.issuedAt <= now <= p.expiresAt
  }

  /** Dossier, decision and payload name each other by recomputed digest and agree on the transition. */
  predicate DecisionBound(p: Payload, x: Context) {
    var dossier, decision := x.dossier.dossier, x.decision.decision;
    && dossier.dossierDigest == DossierDigest(x.dossier)
    && decision.decisionDigest == DecisionDigest(x.decision)
    && decision.kind.ApproveDecision?
    && decision.dossierDigest == DossierDigest(x.dossier)
    && decision.transition == dossier.transition
    && p.dossierDigest == DossierDigest(x.dossier)
    && p.decisionDigest == DecisionDigest(x.decision)
    && p.transition == dossier.transition
  }

  ghost predicate EvidenceBound(x: Context) {
    && SameDigestSet(x.dossier.dossier.candidateDigests, CandidateDigests(x.candidates))
    && SameDigestSet(x.dossier.dossier.conflictDigests, ConflictDigests(x.conflicts))
    && SameDigestSet(x.dossier.dossier.conflictDigests, x.decision.decision.resolvedConflicts)
  }

  /** Payload and decision name the reviewer registry, the current registry and the proposal. */
  predicate RegistriesBound(p: Payload, x: Context, reviewerDigest: Digest) {
    && p.reviewerRegistryDigest == reviewerDigest
    && x.current.registry.registryDigest == SubjectDigest(x.current)
    && x.proposed.registry.registryDigest == SubjectDigest(x.proposed)
    && p.currentDigest == SubjectDigest(x.current)
    && p.proposedDigest == ProposalDigest(x.proposed)
    && x.decision.decision.predecessorDigest == SubjectDigest(x.current)
    && x.decision.decision.proposedDigest == ProposalDigest(x.proposed)
  }

  predicate BlockingFinding(f: Finding) {
    f.severity.Blocking? && !f.disposition.Resolved?
  }

  /** An approving, independent, current review of this dossier under this reviewer registry. */
  predicate ReviewApproves(r: Review, dossierDigest: Digest, reviewerDigest: Digest, now: nat) {
    && r.reviewDigest == ReviewDigest(r)
    && r.dossierDigest == dossierDigest
    && r.signedSubject == dossierDigest
    && r.reviewerRegistryDigest == reviewerDigest
    && r.decision.Approve?
    && r.independence.Independent?
    && (forall i :: 0 <= i < |r.findings| ==> !BlockingFinding(r.findings[i]))
    && r.issuedAt <= now <= r.expiresAt
  }

  predicate ReviewsBound(p: Payload, x: Context, reviewerDigest: Digest) {
    && (forall i :: 0 <= i < |x.reviews| ==>
          ReviewApproves(x.reviews[i], DossierDigest(x.dossier), reviewerDigest, x.now))
    && multiset(p.reviewDigests) == multiset(ReviewDigests(x.reviews))
    && multiset(x.decision.decision.reviewDigests) == multiset(ReviewDigests(x.reviews))
  }

  function PromotionMessageOf(p: Payload, s: PromotionSignature): Message {
    PromotionMessage(p, s.reviewerId, s.credentialId, s.role, s.signedAt)
  }

  predicate PromotionSignatureHolds(directory: Directory, p: Payload, s: PromotionSignature, now: nat) {
    && s.payloadDigest == PayloadHash(p)
    && RoleSigned(directory, s.reviewerId, s.credentialId, s.role, PromotionMessageOf(p, s), s.signature,
                  s.signedAt, now)
  }

  function SignerOf(directory: Directory, s: PromotionSignature): VerifiedReviewer {
    RegisteredReviewer(directory, s.reviewerId, s.credentialId, s.role, s.signature, s.signedAt)
  }

  predicate SignaturesHold(directory: Directory, a: Authorization, now: nat) {
    && (forall i, j :: 0 <= i < j < |a.signatures| ==> a.signatures[i].signature != a.signatures[j].signature)
    && (forall i :: 0 <= i < |a.signatures| ==> PromotionSignatureHolds(directory, a.payload, a.signatures[i], now))
  }

  function Signers(directory: Directory, a: Authorization): seq<VerifiedReviewer> {
    seq(|a.signatures|, i requires 0 <= i < |a.signatures| => SignerOf(directory, a.signatures[i]))
  }

  predicate WrittenBy(review: Review, signer: VerifiedReviewer) {
    review.reviewerId == signer.reviewerId && review.credentialId == signer.credentialId && review.role == signer.role
  }

  predicate Wrote(signer: VerifiedReviewer, reviews: seq<Review>) {
    exists j :: 0 <= j < |reviews| && WrittenBy(reviews[j], signer)
  }

  predicate SignedFor(review: Review, signers: seq<VerifiedReviewer>) {
    exists i :: 0 <= i < |signers| && WrittenBy(review, signers[i])
  }

  /** Every signer wrote a review and every review was written by a signer. */
  predicate ReviewsSigned(signers: seq<VerifiedReviewer>, reviews: seq<Review>) {
    && (forall i :: 0 <= i < |signers| ==> Wrote(signers[i], reviews))
    && (forall j :: 0 <= j < |reviews| ==> SignedFor(reviews[j], signers))
  }

  /** `who` wrote, evaluated, judged or produced a fixture for the dossier. */
  predicate Participated(dossier: Dossier, who: string) {
    || who in dossier.authors
    || (exists i :: 0 <= i < |dossier.evaluatorRuns| && dossier.evaluatorRuns[i].evaluator == who)
    || (exists i :: 0 <= i < |dossier.fixtures| && dossier.fixtures[i].producer == who)
    || (exists i :: 0 <= i < |dossier.evaluatorRuns| && dossier.evaluatorRuns[i].judge == Some(who))
  }

  predicate Disinterested(signers: seq<VerifiedReviewer>, dossier: Dossier) {
    forall i :: 0 <= i < |signers| ==> !Participated(dossier, signers[i].reviewerId)
  }

  // The promoted entry ---------------------------------------------------

  function FirstUnknown(current: seq<Entry>, proposed: seq<Entry>): Option<Entry> {
    if proposed == [] then None
    else if !Known(current, IdentityOf(proposed[0])) then Some(proposed[0])
    else FirstUnknown(current, proposed[1..])
  }

  function FirstRevised(prior: Entry, proposed: seq<Entry>): Option<Entry> {
    if proposed == [] then None
    else if IdentityOf(proposed[0]) == IdentityOf(prior) && proposed[0] != prior then Some(proposed[0])
    else FirstRevised(prior, proposed[1..])
  }

  function FirstChanged(current: seq<Entry>, proposed: seq<Entry>): Option<Entry> {
    if current == [] then None
    else
      var revised := FirstRevised(current[0], proposed);
      if revised.Some? then revised else FirstChanged(current[1..], proposed)
  }

  /** The entry that `require_dossier_registry_binding` looks for. */
  function PromotedEntry(current: seq<Entry>, proposed: seq<Entry>, step: Transition): Option<Entry> {
    if step.IsFirstReview() then FirstUnknown(current, proposed) else FirstChanged(current, proposed)
  }

  function FixtureDigests(fixtures: seq<Fixture>): seq<string> {
    seq(|fixtures|, i requires 0 <= i < |fixtures| => fixtures[i].canonicalSha256)
  }

  predicate EntryBinds(e: Entry, d: Dossier, decisionDigest: Digest, payloadDigest: Digest) {
    && e.pack == d.pack
    && e.packageDigest == d.packageDigest
    && e.manifest == d.manifest
    && e.content == d.content
    && e.license == d.license
    && e.fixtures == FixtureDigests(d.fixtures)
    && e.stage == d.transition.to
    && e.decisionDigest == decisionDigest
    && e.authorizationDigest == payloadDigest
  }

  /** The promoted entry is the dossier's package with backlinks to this decision, payload and reviews. */
  ghost predicate DossierBound(promoted: Option<Entry>, d: Dossier, decisionDigest: Digest, payloadDigest: Digest,
                               reviewDigests: seq<Digest>)
  {
    && promoted.Some?
    && EntryBinds(promoted.value, d, decisionDigest, payloadDigest)
    && SameDigestSet(reviewDigests, promoted.value.reviewDigests)
  }

  /** `require_dossier_registry_binding`, on the entry it found. */
  method RequireDossierBinding(leq: (Digest, Digest) -> bool, promoted: Option<Entry>, d: Dossier,
                               decisionDigest: Digest, payloadDigest: Digest, reviewDigests: seq<Digest>)
    returns (r: Result<(), Error>)
    requires TotalOrder(leq)
    ensures r.Ok? <==> DossierBound(promoted, d, decisionDigest, payloadDigest, reviewDigests)
  {
    hide EntryBinds, SameDigestSet, TotalOrder;
    if promoted.None? || !EntryBinds(promoted.value, d, decisionDigest, payloadDigest) {
      return Err(EvolutionRejected);
    }
    var exact := RequireExactGraph(leq, reviewDigests, promoted.value.reviewDigests);
    r := if exact then Ok(()) else Err(BindingMismatch);
  }

  // The verifier ---------------------------------------------------------

  /** The documents are valid, current and name each other. */
  ghost predicate GraphBound(c: Contracts, reviewerDigest: Digest, a: Authorization, x: Context, audience: string) {
    && DocumentsValid(c, a, x)
    && PayloadCurrent(a.payload, audience, x.now)
    && DecisionBound(a.payload, x)
    && EvidenceBound(x)
    && RegistriesBound(a.payload, x, reviewerDigest)
    && ReviewsBound(a.payload, x, reviewerDigest)
  }

  /** Two separated, registered, disinterested reviewers signed the payload and wrote the reviews. */
  predicate SignersAccepted(directory: Directory, a: Authorization, x: Context) {
    && SignaturesHold(directory, a, x.now)
    && TwoPersons(Signers(directory, a))
    && ReviewsSigned(Signers(directory, a), x.reviews)
    && Disinterested(Signers(directory, a), x.dossier.dossier)
  }

  /** The proposal is one step of the current registry, and its promoted entry is the dossier's. */
  ghost predicate ProposalBound(a: Authorization, x: Context) {
    var step, current, proposed := x.dossier.dossier.transition, x.current.registry, x.proposed.registry;
    && ScanAccepts(current, proposed, step)
    && DossierBound(PromotedEntry(current.entries, proposed.entries, step), x.dossier.dossier,
                    DecisionDigest(x.decision), PayloadHash(a.payload), ReviewDigests(x.reviews))
  }

  /** What the verifier accepts. */
  ghost predicate Authorized(c: Contracts, directory: Directory, reviewerDigest: Digest, a: Authorization, x: Context,
                             audience: string)
  {
    && GraphBound(c, reviewerDigest, a, x, audience)
    && SignersAccepted(directory, a, x)
    && c.ready(x.dossier, x.candidates, x.reviews, x.conflicts)
    && ProposalBound(a, x)
  }

  /** The capability that an accepted graph mints. */
  function Mint(directory: Directory, reviewerDigest: Digest, a: Authorization, x: Context): Capability {
    Capability(a.payload.authorizationId, PayloadHash(a.payload), DossierDigest(x.dossier), DecisionDigest(x.decision),
               reviewerDigest, SubjectDigest(x.current), SubjectDigest(x.proposed), FullDigest(x.proposed),
               a.payload.issuedAt, a.payload.expiresAt, x.dossier.dossier.transition, x.proposed,
               Signers(directory, a))
  }

  method CheckDocuments(c: Contracts, a: Authorization, x: Context) returns (r: Result<(), Error>)
    ensures r.Ok? <==> DocumentsValid(c, a, x)
  {
    if !DossierValid(c, x.dossier) || !DecisionValid(c, x.decision) || !AuthorizationValid(c, a)
       || !ReviewedValid(c, x.current) || !ReviewedValid(c, x.proposed) {
      return Err(InvalidContract);
    }
    for i := 0 to |x.reviews|
      invariant forall k :: 0 <= k < i ==> ReviewValid(c, x.reviews[k])
    {
      if !ReviewValid(c, x.reviews[i]) {
        return Err(InvalidContract);
      }
    }
    for i := 0 to |x.candidates|
      invariant forall k :: 0 <= k < i ==>
                  c.candidateShape(x.candidates[k])
                  && x.candidates[k].candidateDigest == CandidateDigest(x.candidates[k])
    {
      if !c.candidateShape(x.candidates[i]) {
        return Err(InvalidContract);
      }
      if x.candidates[i].candidateDigest != CandidateDigest(x.candidates[i]) {
        return Err(BindingMismatch);
      }
    }
    for i := 0 to |x.conflicts|
      invariant forall k :: 0 <= k < i ==>
                  c.conflictShape(x.conflicts[k]) && x.conflicts[k].conflictDigest == ConflictDigest(x.conflicts[k])
    {
      if !c.conflictShape(x.conflicts[i]) {
        return Err(InvalidContract);
      }
      if x.conflicts[i].conflictDigest != ConflictDigest(x.conflicts[i]) {
        return Err(BindingMismatch);
      }
    }
    return Ok(());
  }

  function CheckPayload(p: Payload, audience: string, now: nat): (r: Result<(), Error>)
    ensures r.Ok? <==> PayloadCurrent(p, audience, now)
  {
    if p.audience != audience then Err(WrongAudience)
    else if p.domain != PROMOTION_PAYLOAD_DOMAIN then Err(WrongDomain)
    else if now < p.issuedAt then Err(AuthorizationNotYetValid)
    else if now > p.expiresAt then Err(AuthorizationExpired)
    else Ok(())
  }

  /** The dossier, decision, candidate, conflict and payload bindings, in the source's order. */
  method CheckDecision(leq: (Digest, Digest) -> bool, p: Payload, x: Context) returns (r: Result<(), Error>)
    requires TotalOrder(leq)
    ensures r.Ok? <==> DecisionBound(p, x) && EvidenceBound(x)
  {
    hide SameDigestSet, TotalOrder;
    var dossier, decision := x.dossier.dossier, x.decision.decision;
    var dossierDigest, decisionDigest := DossierDigest(x.dossier), DecisionDigest(x.decision);
    if dossier.dossierDigest != dossierDigest || decision.decisionDigest != decisionDigest {
      return Err(BindingMismatch);
    }
    if !decision.kind.ApproveDecision? {
      return Err(BlockingDecision);
    }
    if decision.dossierDigest != dossierDigest || decision.transition != dossier.transition {
      return Err(BindingMismatch);
    }
    var candidates := RequireExactGraph(leq, dossier.candidateDigests, CandidateDigests(x.candidates));
    if !candidates {
      return Err(BindingMismatch);
    }
    var conflicts := RequireExactGraph(leq, dossier.conflictDigests, ConflictDigests(x.conflicts));
    if !conflicts {
      return Err(BindingMismatch);
    }
    var resolved := RequireExactGraph(leq, dossier.conflictDigests, decision.resolvedConflicts);
    if !resolved {
      return Err(BindingMismatch);
    }
    if p.dossierDigest != dossierDigest || p.decisionDigest != decisionDigest || p.transition != dossier.transition {
      return Err(BindingMismatch);
    }
    return Ok(());
  }

  function CheckReview(r: Review, dossierDigest: Digest, reviewerDigest: Digest, now: nat): (o: Result<Digest, Error>)
    ensures o.Ok? <==> ReviewApproves(r, dossierDigest, reviewerDigest, now)
    ensures o.Ok? ==> o.value == ReviewDigest(r)
  {
    if r.reviewDigest != ReviewDigest(r) then Err(BindingMismatch)
    else if r.dossierDigest != dossierDigest then Err(BindingMismatch)
    else if r.signedSubject != dossierDigest then Err(BindingMismatch)
    else if r.reviewerRegistryDigest != reviewerDigest then Err(BindingMismatch)
    else if !r.decision.Approve? || !r.independence.Independent?
            || (exists i :: 0 <= i < |r.findings| && BlockingFinding(r.findings[i])) then Err(BlockingDecision)
    else if now < r.issuedAt || now > r.expiresAt then Err(AuthorizationExpired)
    else Ok(ReviewDigest(r))
  }

  method SortedCopy(leq: (Digest, Digest) -> bool, xs: seq<Digest>) returns (ys: seq<Digest>)
    requires TotalOrder(leq)
    ensures Sorted(leq, ys) && multiset(ys) == multiset(xs)
  {
    SortSorted(leq, xs);
    return Sort(leq, xs);
  }

  /** The review loop. */
  method CheckEachReview(reviews: seq<Review>, dossierDigest: Digest, reviewerDigest: Digest, now: nat)
    returns (r: Result<seq<Digest>, Error>)
    ensures r.Ok? <==> forall i :: 0 <= i < |reviews| ==> ReviewApproves(reviews[i], dossierDigest, reviewerDigest, now)
    ensures r.Ok? ==> r.value == ReviewDigests(reviews)
  {
    var digests: seq<Digest> := [];
    for i := 0 to |reviews|
      invariant |digests| == i
      invariant forall k :: 0 <= k < i ==> digests[k] == ReviewDigest(reviews[k])
      invariant forall k :: 0 <= k < i ==> ReviewApproves(reviews[k], dossierDigest, reviewerDigest, now)
    {
      var one := CheckReview(reviews[i], dossierDigest, reviewerDigest, now);
      if one.Err? {
        return Err(one.error);
      }
      digests := digests + [one.value];
    }
    assert digests == ReviewDigests(reviews);
    return Ok(digests);
  }

  /** The comparison of the three sorted digest lists. */
  method CompareSorted(leq: (Digest, Digest) -> bool, digests: seq<Digest>, payload: seq<Digest>, decision: seq<Digest>)
    returns (r: Result<seq<Digest>, Error>)
    requires TotalOrder(leq)
    ensures r.Ok? <==> multiset(payload) == multiset(digests) && multiset(decision) == multiset(digests)
    ensures r.Ok? ==> multiset(r.value) == multiset(digests)
  {
    var sorted := SortedCopy(leq, digests);
    var sortedPayload := SortedCopy(leq, payload);
    var sortedDecision := SortedCopy(leq, decision);
    if multiset(payload) == multiset(digests) {
      SortedDetermined(leq, sortedPayload, sorted);
    }
    if multiset(decision) == multiset(digests) {
      SortedDetermined(leq, sortedDecision, sorted);
    }
    if sortedPayload != sorted {
      return Err(BindingMismatch);
    }
    if sortedDecision != sorted {
      return Err(BindingMismatch);
    }
    return Ok(sorted);
  }

  method CheckReviews(leq: (Digest, Digest) -> bool, p: Payload, x: Context, reviewerDigest: Digest)
    returns (r: Result<seq<Digest>, Error>)
    requires TotalOrder(leq)
    ensures r.Ok? <==> ReviewsBound(p, x, reviewerDigest)
    ensures r.Ok? ==> multiset(r.value) == multiset(ReviewDigests(x.reviews))
  {
    hide ReviewApproves, TotalOrder;
    var each := CheckEachReview(x.reviews, DossierDigest(x.dossier), reviewerDigest, x.now);
    if each.Err? {
      return Err(each.error);
    }
    r := CompareSorted(leq, each.value, p.reviewDigests, x.decision.decision.reviewDigests);
  }

  function VerifyPromotionSignature(directory: Directory, p: Payload, s: PromotionSignature, now: nat)
    : (r: Result<VerifiedReviewer, Error>)
    ensures r.Ok? <==> PromotionSignatureHolds(directory, p, s, now)
    ensures r.Ok? ==> r.value == SignerOf(directory, s)
  {
    if s.payloadDigest != PayloadHash(p) then Err(PayloadDigestMismatch)
    else VerifyRoleSignature(directory, s.reviewerId, s.credentialId, s.role, PromotionMessageOf(p, s), s.signature,
                             s.signedAt, now)
  }

  /** The signature loop. */
  method CheckSignatures(directory: Directory, a: Authorization, now: nat)
    returns (r: Result<seq<VerifiedReviewer>, Error>)
    ensures r.Ok? <==> SignaturesHold(directory, a, now)
    ensures r.Ok? ==> r.value == Signers(directory, a)
  {
    hide PromotionSignatureHolds;
    var signers: seq<VerifiedReviewer> := [];
    var values: set<Signature> := {};
    for i := 0 to |a.signatures|
      invariant |signers| == i
      invariant values == set k | 0 <= k < i :: a.signatures[k].signature
      invariant forall k, l :: 0 <= k < l < i ==> a.signatures[k].signature != a.signatures[l].signature
      invariant forall k :: 0 <= k < i ==> PromotionSignatureHolds(directory, a.payload, a.signatures[k], now)
      invariant forall k :: 0 <= k < i ==> signers[k] == SignerOf(directory, a.signatures[k])
    {
      if a.signatures[i].signature in values {
        return Err(DuplicateSignature);
      }
      values := values + {a.signatures[i].signature};
      var one := VerifyPromotionSignature(directory, a.payload, a.signatures[i], now);
      if one.Err? {
        return Err(one.error);
      }
      signers := signers + [one.value];
    }
    assert signers == Signers(directory, a);
    return Ok(signers);
  }

  /** `require_reviews_signed` */
  method RequireReviewsSigned(signers: seq<VerifiedReviewer>, reviews: seq<Review>) returns (r: Result<(), Error>)
    ensures r.Ok? <==> ReviewsSigned(signers, reviews)
  {
    for i := 0 to |signers|
      invariant forall k :: 0 <= k < i ==> Wrote(signers[k], reviews)
    {
      if !Wrote(signers[i], reviews) {
        return Err(MissingSignedReview);
      }
    }
    for j := 0 to |reviews|
      invariant forall k :: 0 <= k < j ==> SignedFor(reviews[k], signers)
    {
      if !SignedFor(reviews[j], signers) {
        return Err(ReviewSignerMismatch);
      }
    }
    return Ok(());
  }

  /** `reject_participant_overlap` */
  method RejectOverlap(signers: seq<VerifiedReviewer>, dossier: Dossier) returns (r: Result<(), Error>)
    ensures r.Ok? <==> Disinterested(signers, dossier)
  {
    for i := 0 to |signers|
      invariant forall k :: 0 <= k < i ==> !Participated(dossier, signers[k].reviewerId)
    {
      if Participated(dossier, signers[i].reviewerId) {
        return Err(SeparationViolation);
      }
    }
    return Ok(());
  }

  /** The binding depends only on which review digests there are. */
  lemma DossierBoundPermutes(promoted: Option<Entry>, d: Dossier, decisionDigest: Digest, payloadDigest: Digest,
                             digests: seq<Digest>, permuted: seq<Digest>)
    requires multiset(digests) == multiset(permuted)
    ensures DossierBound(promoted, d, decisionDigest, payloadDigest, digests) <==>
            DossierBound(promoted, d, decisionDigest, payloadDigest, permuted)
  {
    DistinctPermutes(digests, permuted);
    SameElements(digests, permuted);
    assert Elements(digests) == Elements(permuted);
  }

  method CheckGraph(c: Contracts, leq: (Digest, Digest) -> bool, reviewerDigest: Digest, a: Authorization, x: Context,
                    audience: string) returns (r: Result<seq<Digest>, Error>)
    requires TotalOrder(leq)
    ensures r.Ok? <==> GraphBound(c, reviewerDigest, a, x, audience)
    ensures r.Ok? ==> multiset(r.value) == multiset(ReviewDigests(x.reviews))
  {
    hide DocumentsValid, PayloadCurrent, DecisionBound, EvidenceBound, RegistriesBound, ReviewsBound, TotalOrder;
    var documents := CheckDocuments(c, a, x);
    if documents.Err? {
      return Err(documents.error);
    }
    var current := CheckPayload(a.payload, audience, x.now);
    if current.Err? {
      return Err(current.error);
    }
    var decision := CheckDecision(leq, a.payload, x);
    if decision.Err? {
      return Err(decision.error);
    }
    if !RegistriesBound(a.payload, x, reviewerDigest) {
      return Err(BindingMismatch);
    }
    r := CheckReviews(leq, a.payload, x, reviewerDigest);
  }

  method CheckSigners(directory: Directory, a: Authorization, x: Context)
    returns (r: Result<seq<VerifiedReviewer>, Error>)
    ensures r.Ok? <==> SignersAccepted(directory, a, x)
    ensures r.Ok? ==> r.value == Signers(directory, a)
  {
    hide SignaturesHold, TwoPersons, ReviewsSigned, Disinterested, Signers;
    var signers := CheckSignatures(directory, a, x.now);
    if signers.Err? {
      return Err(signers.error);
    }
    var separated := RequireSeparation(signers.value);
    if separated.Err? {
      return Err(separated.error);
    }
    var written := RequireReviewsSigned(signers.value, x.reviews);
    if written.Err? {
      return Err(written.error);
    }
    var disinterested := RejectOverlap(signers.value, x.dossier.dossier);
    if disinterested.Err? {
      return Err(disinterested.error);
    }
    return signers;
  }

  method CheckProposal(leq: (Digest, Digest) -> bool, a: Authorization, x: Context, digests: seq<Digest>)
    returns (r: Result<(), Error>)
    requires TotalOrder(leq)
    requires multiset(digests) == multiset(ReviewDigests(x.reviews))
    ensures r.Ok? <==> ProposalBound(a, x)
  {
    hide ScanAccepts, DossierBound, TotalOrder, PromotedEntry;
    var step, current, proposed := x.dossier.dossier.transition, x.current.registry, x.proposed.registry;
    var evolution := ValidateEvolution(current, proposed, step);
    if evolution.Err? {
      return Err(evolution.error);
    }
    var promoted := PromotedEntry(current.entries, proposed.entries, step);
    DossierBoundPermutes(promoted, x.dossier.dossier, DecisionDigest(x.decision), PayloadHash(a.payload), digests,
                         ReviewDigests(x.reviews));
    r := RequireDossierBinding(leq, promoted, x.dossier.dossier, DecisionDigest(x.decision),
                               PayloadHash(a.payload), digests);
  }

  /** The evaluator and the registry checks that close the verifier. */
  method CheckReadyProposal(c: Contracts, leq: (Digest, Digest) -> bool, a: Authorization, x: Context,
                            digests: seq<Digest>)
    returns (r: Result<(), Error>)
    requires TotalOrder(leq)
    requires multiset(digests) == multiset(ReviewDigests(x.reviews))
    ensures r.Ok? <==> c.ready(x.dossier, x.candidates, x.reviews, x.conflicts) && ProposalBound(a, x)
  {
    hide ProposalBound, TotalOrder;
    if !c.ready(x.dossier, x.candidates, x.reviews, x.conflicts) {
      return Err(BlockingDecision);
    }
    r := CheckProposal(leq, a, x, digests);
  }

  /** `verify_domain_pack_promotion_authorization` */
  method VerifyAuthorization(c: Contracts, leq: (Digest, Digest) -> bool, directory: Directory, reviewerDigest: Digest,
                             a: Authorization, x: Context, audience: string)
    returns (r: Result<Capability, Error>)
    requires TotalOrder(leq)
    ensures r.Ok? <==> Authorized(c, directory, reviewerDigest, a, x, audience)
    ensures r.Ok? ==> r.value == Mint(directory, reviewerDigest, a, x)
  {
    hide GraphBound, SignersAccepted, ProposalBound, TotalOrder;
    var graph := CheckGraph(c, leq, reviewerDigest, a, x, audience);
    if graph.Err? {
      return Err(graph.error);
    }
    var signers := CheckSigners(directory, a, x);
    if signers.Err? {
      return Err(signers.error);
    }
    var proposal := CheckReadyProposal(c, leq, a, x, graph.value);
    r := if proposal.Err? then Err(proposal.error) else Ok(Mint(directory, reviewerDigest, a, x));
  }
}
