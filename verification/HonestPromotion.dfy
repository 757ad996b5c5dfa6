/** A promotion done as the protocol means it: two reviewers review a dossier, a decision commits to the proposal,
    both sign the payload, and the entry is added or moved with its backlinks. The verifier accepts it. */
module HonestPromotion {
  import opened Lists
  import opened PromotionModel
  import opened Evolution
  import opened Reviewers
  import opened PromotionAuthority
  import opened Commitment

  /** A reviewer, the role taken, and what the review says beyond approval. */
  datatype Part = Part(who: Credential, role: Role, attestation: string, findings: seq<Finding>, remainder: string)

  /** Everything the participants choose. `place` is the entry that a lifecycle step moves. */
  datatype Draft = Draft(
    reviewers: seq<Credential>, reviewerDigest: Digest, p: Part, q: Part,
    current: ReviewedDocument, place: nat,
    dossier: Dossier, candidates: seq<LearningCandidate>, conflicts: seq<Conflict>,
    supplyChainRecord: string, compatibility: Compatibility, eligibility: Eligibility,
    deprecation: Option<string>, revocation: Option<string>, supersession: Option<string>,
    decisionRemainder: string, audience: string, authorizationId: string, nonce: string,
    from: nat, now: nat, until: nat)
  {
    // The documents, each made from those before it -----------------------

    function DossierDoc(): DossierDocument {
      var open := DossierDocument(LEARNING_SCHEMA_VERSION, dossier);
      open.(dossier := dossier.(dossierDigest := DossierDigest(open)))
    }

    function ReviewBy(part: Part): Review {
      var subject := DossierDigest(DossierDoc());
      var open := Review(subject, part.who.reviewerId, part.role, reviewerDigest, part.who.credentialId,
                         Independent(part.attestation), Approve, part.findings, subject, from, until,
                         part.remainder, BLANK);
      open.(reviewDigest := ReviewDigest(open))
    }

    function Reviews(): seq<Review> {
      [ReviewBy(p), ReviewBy(q)]
    }

    function ReviewList(): seq<Digest> {
      [ReviewDigest(ReviewBy(p)), ReviewDigest(ReviewBy(q))]
    }

    /** The new or moved entry before its backlinks exist. */
    function OpenEntry(): Entry {
      Entry(dossier.pack, dossier.packageDigest, supplyChainRecord, dossier.manifest, dossier.content, dossier.license,
            FixtureDigests(dossier.fixtures), dossier.transition.to, eligibility, BLANK, BLANK, ReviewList(),
            compatibility, deprecation, revocation, supersession, BLANK)
    }

    /** A first review appends the entry, any other step puts it in place of the one it moves. */
    function Placed(e: Entry): seq<Entry> {
      var entries := current.registry.entries;
      if dossier.transition.IsFirstReview() || place >= |entries| then entries + [e] else entries[place := e]
    }

    function Successor(e: Entry): ReviewedDocument {
      var next := current.(registry := current.registry.(
                           generation := current.registry.generation + 1, previous := Some(SubjectDigest(current)),
                           entries := Placed(e), snapshotSignatures := []));
      next.(registry := next.registry.(registryDigest := SubjectDigest(next)))
    }

    function DecisionDoc(): DecisionDocument {
      var open := DecisionDocument(
                    LEARNING_SCHEMA_VERSION,
                    Decision(DossierDigest(DossierDoc()), dossier.transition, ApproveDecision, ReviewList(),
                             dossier.conflictDigests, SubjectDigest(current), ProposalDigest(Successor(OpenEntry())),
                             decisionRemainder, BLANK));
      open.(decision := open.decision.(decisionDigest := DecisionDigest(open)))
    }

    function ThePayload(): Payload {
      Payload(authorizationId, DossierDigest(DossierDoc()), DecisionDigest(DecisionDoc()), ReviewList(), reviewerDigest,
              SubjectDigest(current), ProposalDigest(Successor(OpenEntry())), dossier.transition, audience,
              PROMOTION_PAYLOAD_DOMAIN, nonce, from, until)
    }

    function NewEntry(): Entry {
      var linked := OpenEntry().(decisionDigest := DecisionDigest(DecisionDoc()),
                                 authorizationDigest := PayloadHash(ThePayload()));
      linked.(entryDigest := EntryDigest(linked))
    }

    function SignatureBy(part: Part): PromotionSignature {
      var who := part.who;
      var open := PromotionSignature(who.reviewerId, who.credentialId, part.role, PayloadHash(ThePayload()),
                                     Garbage(""), now);
      if who.publicKey.None? then open
      else open.(signature := Signed(who.publicKey.value, PromotionMessageOf(ThePayload(), open)))
    }

    function TheAuthorization(): Authorization {
      Authorization(LEARNING_SCHEMA_VERSION, ThePayload(), [SignatureBy(p), SignatureBy(q)])
    }

    function SnapshotBy(part: Part): SnapshotSignature {
      var who, subject := part.who, SubjectDigest(Successor(NewEntry()));
      var message := SnapshotMessage(subject, who.reviewerId, who.credentialId, part.role, now);
      SnapshotSignature(who.reviewerId, who.credentialId, part.role, subject,
                        if who.publicKey.None? then Garbage("") else Signed(who.publicKey.value, message), now)
    }

    /** The successor with the snapshot signatures of both reviewers. */
    function Published(): ReviewedDocument {
      var next := Successor(NewEntry());
      next.(registry := next.registry.(snapshotSignatures := [SnapshotBy(p), SnapshotBy(q)]))
    }

    function TheContext(): Context {
      Context(DossierDoc(), candidates, DecisionDoc(), Reviews(), conflicts, current, Published(), now)
    }
  }

  // What the participants must see to ------------------------------------

  /** A registered, active, sound credential that holds the role now, and no blocking finding. */
  predicate MayReview(h: Draft, part: Part) {
    var who := part.who;
    && who in h.reviewers && who.status.Active? && who.validFrom <= h.now <= who.validUntil && part.role in who.roles
    && who.publicKey.Some? && who.keyFingerprint == KeyHash(who.publicKey.value)
    && !Participated(h.dossier, who.reviewerId)
    && forall i :: 0 <= i < |part.findings| ==> !BlockingFinding(part.findings[i])
  }

  ghost predicate ReviewersFit(h: Draft) {
    && (forall i, j :: 0 <= i < j < |h.reviewers| ==> h.reviewers[i].credentialId != h.reviewers[j].credentialId)
    && MayReview(h, h.p) && MayReview(h, h.q)
    && h.p.role.RegistryAuthorizer? && !h.q.role.RegistryAuthorizer?
    && h.p.who.reviewerId != h.q.who.reviewerId && h.p.who.credentialId != h.q.who.credentialId
    && h.p.who.publicKey != h.q.who.publicKey
    && DisjointDomains(h.p.who.domains, h.q.who.domains)
  }

  /** A first review is of a new coordinate; any other step is of an entry at the stage it leaves, as it is. */
  predicate TargetFits(h: Draft) {
    var entries, step := h.current.registry.entries, h.dossier.transition;
    && step.IsAllowed()
    && StageMatchesEligibility(h.OpenEntry())
    && if step.IsFirstReview() then forall i :: 0 <= i < |entries| ==> entries[i].pack != h.dossier.pack
       else h.place < |entries| && entries[h.place].stage == step.from && SameSemantics(entries[h.place], h.OpenEntry())
  }

  /** The evidence is sealed and listed, and the time is inside the window. */
  ghost predicate DossierFits(h: Draft) {
    && SameDigestSet(h.dossier.candidateDigests, CandidateDigests(h.candidates))
    && SameDigestSet(h.dossier.conflictDigests, ConflictDigests(h.conflicts))
    && (forall i :: 0 <= i < |h.candidates| ==> h.candidates[i].candidateDigest == CandidateDigest(h.candidates[i]))
    && (forall i :: 0 <= i < |h.conflicts| ==> h.conflicts[i].conflictDigest == ConflictDigest(h.conflicts[i]))
    && h.from <= h.now <= h.until && h.from < h.until
  }

  /** The current registry is sealed and canonical, and has room for another generation. */
  predicate CurrentFits(c: Contracts, h: Draft) {
    && ReviewedValid(c, h.current) && EntriesCanonical(h.current.registry.entries)
    && h.current.registry.registryDigest == SubjectDigest(h.current)
    && h.current.registry.generation < U64_MAX
  }

  /** The field shapes and the evaluator are content with the finished documents. */
  predicate ShapesFit(c: Contracts, h: Draft) {
    && c.dossierShape(h.DossierDoc()) && c.decisionShape(h.DecisionDoc()) && c.authorizationShape(h.TheAuthorization())
    && c.reviewedShape(h.Published())
    && (forall i :: 0 <= i < |h.Reviews()| ==> c.reviewShape(h.Reviews()[i]))
    && (forall i :: 0 <= i < |h.candidates| ==> c.candidateShape(h.candidates[i]))
    && (forall i :: 0 <= i < |h.conflicts| ==> c.conflictShape(h.conflicts[i]))
    && c.ready(h.DossierDoc(), h.candidates, h.Reviews(), h.conflicts)
  }

  // The verifier accepts -------------------------------------------------

  lemma DocumentsSealed(h: Draft)
    ensures DossierDigest(h.DossierDoc()) == h.DossierDoc().dossier.dossierDigest
    ensures DecisionDigest(h.DecisionDoc()) == h.DecisionDoc().decision.decisionDigest
  {
    hide Draft.ReviewBy, Draft.OpenEntry, Draft.Successor, SubjectDigest, ProposalDigest;
  }

  lemma ReviewSealed(h: Draft, part: Part)
    ensures ReviewDigest(h.ReviewBy(part)) == h.ReviewBy(part).reviewDigest
  {
    hide Draft.DossierDoc, DossierDigest;
  }

  /** What is linked and sealed into the entry. */
  lemma EntryFacts(h: Draft)
    ensures var e := h.NewEntry();
            && e.entryDigest == EntryDigest(e)
            && EntryBinds(e, h.dossier, DecisionDigest(h.DecisionDoc()), PayloadHash(h.ThePayload()))
            && e.reviewDigests == h.ReviewList()
            && e.stage == h.OpenEntry().stage && e.eligibility == h.OpenEntry().eligibility
            && SameSemantics(h.OpenEntry(), e) && IdentityOf(e) == IdentityOf(h.OpenEntry())
            && WithoutBacklinks(e) == WithoutBacklinks(h.OpenEntry())
  {
    hide Draft.DecisionDoc, Draft.ThePayload, Draft.ReviewList, DecisionDigest;
  }

  lemma SuccessorFacts(h: Draft, e: Entry)
    ensures var next := h.Successor(e).registry;
            && next.registryDigest == SubjectDigest(h.Successor(e))
            && next.entries == h.Placed(e)
            && next.generation == h.current.registry.generation + 1 && next.previous == Some(SubjectDigest(h.current))
            && next.registryId == h.current.registry.registryId && next.audience == h.current.registry.audience
            && h.Successor(e).schemaVersion == h.current.schemaVersion
  {
  }

  /** Publishing adds signatures only, which no subject or proposal digest covers. */
  lemma PublishedFacts(h: Draft)
    ensures SubjectDigest(h.Published()) == SubjectDigest(h.Successor(h.NewEntry()))
    ensures ProposalDigest(h.Published()) == ProposalDigest(h.Successor(h.NewEntry()))
    ensures h.Published().schemaVersion == h.Successor(h.NewEntry()).schemaVersion
    ensures h.Published().registry == h.Successor(h.NewEntry()).registry.(
              snapshotSignatures := [h.SnapshotBy(h.p), h.SnapshotBy(h.q)])
  {
    hide Draft.Successor, Draft.NewEntry, Draft.SnapshotBy;
  }

  /** The backlinks are what the proposal digest blanks. */
  lemma ProposalCommitted(h: Draft)
    ensures ProposalDigest(h.Successor(h.NewEntry())) == ProposalDigest(h.Successor(h.OpenEntry()))
  {
    hide ProposalDigest, SubjectDigest, Draft.Successor, Draft.NewEntry, Draft.OpenEntry;
    var a, b := h.Successor(h.NewEntry()), h.Successor(h.OpenEntry());
    EntryFacts(h);
    SuccessorFacts(h, h.NewEntry());
    SuccessorFacts(h, h.OpenEntry());
    SameButEntries(h, h.NewEntry(), h.OpenEntry());
    forall i | 0 <= i < |a.registry.entries|
      ensures WithoutBacklinks(a.registry.entries[i]) == WithoutBacklinks(b.registry.entries[i])
    {
      assert a.registry.entries[i] == b.registry.entries[i]
             || (a.registry.entries[i] == h.NewEntry() && b.registry.entries[i] == h.OpenEntry());
    }
    ProposalDigestExact(a, b);
  }

  lemma SameButEntries(h: Draft, e: Entry, f: Entry)
    ensures h.Successor(e) == h.Successor(f).(registry := h.Successor(f).registry.(
              registryDigest := h.Successor(e).registry.registryDigest,
              snapshotSignatures := h.Successor(e).registry.snapshotSignatures,
              entries := h.Successor(e).registry.entries))
  {
  }

  lemma Listed(h: Draft)
    ensures ReviewDigests(h.Reviews()) == h.ReviewList()
  {
    assert |ReviewDigests(h.Reviews())| == 2;
  }

  // The step -------------------------------------------------------------

  /** Appending a canonical reviewed entry with a new coordinate is a step of the map. */
  lemma AppendStep(current: seq<Entry>, e: Entry)
    requires UniqueIdentities(current) && UniqueCoordinates(current) && EntriesCanonical(current)
    requires forall i :: 0 <= i < |current| ==> current[i].pack != e.pack
    requires EntryCanonical(e) && e.stage.Reviewed? && e.eligibility.EligibleReviewed?
    ensures UniqueIdentities(current + [e]) && UniqueCoordinates(current + [e]) && EntriesCanonical(current + [e])
    ensures AppendsReviewed(AsMap(current), AsMap(current + [e]), e) && e in current + [e]
  {
    hide AsMap, EntryCanonical, UniqueIdentities, UniqueCoordinates, EntriesCanonical;
    AppendUnique(current, e);
    AsMapKeys(current);
    AsMapAppends(current, e);
  }

  lemma AppendUnique(current: seq<Entry>, e: Entry)
    requires UniqueIdentities(current) && UniqueCoordinates(current) && EntriesCanonical(current) && EntryCanonical(e)
    requires forall i :: 0 <= i < |current| ==> current[i].pack != e.pack
    ensures UniqueIdentities(current + [e]) && UniqueCoordinates(current + [e]) && EntriesCanonical(current + [e])
    ensures !Known(current, IdentityOf(e))
  {
    hide EntryCanonical;
    var entries := current + [e];
    assert entries[|current|] == e && forall i :: 0 <= i < |current| ==> entries[i] == current[i];
  }

  lemma AsMapAppends(entries: seq<Entry>, e: Entry)
    ensures AsMap(entries + [e]) == AsMap(entries)[IdentityOf(e) := e]
  {
    assert (entries + [e])[..|entries|] == entries;
  }

  /** Putting the moved version of a live entry in its place is a step of the map. */
  lemma MoveStep(current: seq<Entry>, place: nat, e: Entry, step: Transition)
    requires UniqueIdentities(current) && UniqueCoordinates(current) && EntriesCanonical(current)
    requires place < |current| && step.IsAllowed() && current[place].stage == step.from && e.stage == step.to
    requires EntryCanonical(e) && SameSemantics(current[place], e)
    ensures var moved := current[place := e];
            && UniqueIdentities(moved) && UniqueCoordinates(moved) && EntriesCanonical(moved)
            && MovesTo(AsMap(current), AsMap(moved), step, e) && e in moved
  {
    hide AsMap, EntryCanonical, UniqueIdentities, UniqueCoordinates, EntriesCanonical;
    var moved := current[place := e];
    assert current[place] in current && moved[place] == e;
    MoveUnique(current, place, e);
    MapMoves(current, place, e);
    AsMapUnique(current);
  }

  lemma MoveUnique(current: seq<Entry>, place: nat, e: Entry)
    requires UniqueIdentities(current) && UniqueCoordinates(current) && EntriesCanonical(current) && EntryCanonical(e)
    requires place < |current| && IdentityOf(current[place]) == IdentityOf(e)
    ensures UniqueIdentities(current[place := e]) && UniqueCoordinates(current[place := e])
    ensures EntriesCanonical(current[place := e])
  {
    hide EntryCanonical;
    var moved := current[place := e];
    assert forall i :: 0 <= i < |moved| ==> IdentityOf(moved[i]) == IdentityOf(current[i]);
  }

  lemma {:induction false} MapMoves(current: seq<Entry>, place: nat, e: Entry)
    requires place < |current| && IdentityOf(current[place]) == IdentityOf(e)
    requires UniqueIdentities(current)
    ensures AsMap(current[place := e]) == AsMap(current)[IdentityOf(e) := e]
  {
    hide IdentityOf;
    var n := |current| - 1;
    if place < n {
      MapMoves(current[..n], place, e);
      assert current[place := e][..n] == current[..n][place := e];
    } else {
      assert current[place := e][..n] == current[..n];
    }
  }

  /** A step adds or moves one entry only. */
  lemma OneEntry(before: map<Identity, Entry>, after: map<Identity, Entry>, step: Transition, e: Entry, f: Entry)
    requires if step.IsFirstReview() then AppendsReviewed(before, after, e) && AppendsReviewed(before, after, f)
             else MovesTo(before, after, step, e) && MovesTo(before, after, step, f)
    ensures e == f
  {
    assert after[IdentityOf(e)] == e && after[IdentityOf(f)] == f;
  }

  /** So the scan accepts the publication and finds the entry. */
  lemma StepHolds(c: Contracts, h: Draft)
    requires CurrentFits(c, h) && TargetFits(h)
    ensures ScanAccepts(h.current.registry, h.Published().registry, h.dossier.transition)
    ensures PromotedEntry(h.current.registry.entries, h.Published().registry.entries, h.dossier.transition)
            == Some(h.NewEntry())
    ensures UniqueIdentities(h.Published().registry.entries) && UniqueCoordinates(h.Published().registry.entries)
    ensures EntriesCanonical(h.Published().registry.entries)
  {
    hide SubjectDigest, ProposalDigest, AsMap, ScanAccepts, UniqueIdentities, UniqueCoordinates, EntriesCanonical,
         AppendsReviewed, MovesTo, Draft.NewEntry, Draft.Successor, Draft.Published, Draft.SnapshotBy, PromotedEntry,
         Draft.OpenEntry, EntryBinds, EntryDigest;
    var current, e, step := h.current.registry.entries, h.NewEntry(), h.dossier.transition;
    EntryFacts(h);
    SuccessorFacts(h, e);
    PublishedFacts(h);
    PlacedStep(c, h);
    ScanRefinesMapStep(h.current.registry, h.Published().registry, step);
    PromotedIsStep(h.current.registry, h.Published().registry, step);
    OneEntry(AsMap(current), AsMap(h.Placed(e)), step, e, PromotedEntry(current, h.Placed(e), step).value);
  }

  lemma PlacedStep(c: Contracts, h: Draft)
    requires CurrentFits(c, h) && TargetFits(h)
    ensures var current, e, step := h.current.registry.entries, h.NewEntry(), h.dossier.transition;
            var after := h.Placed(e);
            && UniqueIdentities(after) && UniqueCoordinates(after) && EntriesCanonical(after) && e in after
            && (if step.IsFirstReview() then AppendsReviewed(AsMap(current), AsMap(after), e)
                else MovesTo(AsMap(current), AsMap(after), step, e))
  {
    hide SubjectDigest, AsMap, UniqueIdentities, UniqueCoordinates, EntriesCanonical, AppendsReviewed, MovesTo,
         Draft.NewEntry, EntryDigest;
    EntryFacts(h);
    if h.dossier.transition.IsFirstReview() {
      AppendStep(h.current.registry.entries, h.NewEntry());
    } else {
      MoveStep(h.current.registry.entries, h.place, h.NewEntry(), h.dossier.transition);
    }
  }

  // The signers ----------------------------------------------------------

  lemma SignatureFits(h: Draft, part: Part)
    requires ReviewersFit(h) && MayReview(h, part)
    ensures PromotionSignatureHolds(DirectoryOf(h.reviewers), h.ThePayload(), h.SignatureBy(part), h.now)
    ensures SignerOf(DirectoryOf(h.reviewers), h.SignatureBy(part))
            == VerifiedReviewer(part.who.reviewerId, part.who.credentialId, part.role, part.who.domains,
                                part.who.keyFingerprint, SignatureHash(h.SignatureBy(part).signature), h.now)
  {
    hide ReviewersFit, DirectoryOf, Participated, Draft.ThePayload;
    FoundById(h, part.who);
  }

  lemma ReviewNames(h: Draft, part: Part)
    ensures h.ReviewBy(part).reviewerId == part.who.reviewerId && h.ReviewBy(part).credentialId == part.who.credentialId
    ensures h.ReviewBy(part).role == part.role
  {
    hide DossierDigest, ReviewDigest, Draft.DossierDoc;
  }

  lemma SignersFit(h: Draft)
    requires ReviewersFit(h)
    ensures SignersAccepted(DirectoryOf(h.reviewers), h.TheAuthorization(), h.TheContext())
  {
    hide DirectoryOf, DisjointDomains, Participated, Draft.ThePayload, Draft.SignatureBy, Draft.ReviewBy,
         Draft.DossierDoc, Draft.DecisionDoc, Draft.Successor, Draft.NewEntry, SignerOf, PromotionSignatureHolds,
         RequireSeparation, InWindow, BlockingFinding, Draft.Published, Draft.OpenEntry;
    var directory, a, x := DirectoryOf(h.reviewers), h.TheAuthorization(), h.TheContext();
    SignatureFits(h, h.p);
    SignatureFits(h, h.q);
    SignedByKey(h, h.p);
    SignedByKey(h, h.q);
    ReviewNames(h, h.p);
    ReviewNames(h, h.q);
    SealedKeepsPeople(h, h.p.who.reviewerId);
    SealedKeepsPeople(h, h.q.who.reviewerId);
    var signers := Signers(directory, a);
    assert a.signatures == [h.SignatureBy(h.p), h.SignatureBy(h.q)];
    assert |signers| == 2 && signers[0] == SignerOf(directory, a.signatures[0])
           && signers[1] == SignerOf(directory, a.signatures[1]);
    assert WrittenBy(x.reviews[0], signers[0]) && WrittenBy(x.reviews[1], signers[1]);
  }

  lemma SignedByKey(h: Draft, part: Part)
    requires part.who.publicKey.Some?
    ensures h.SignatureBy(part).signature.Signed?
    ensures h.SignatureBy(part).signature.key == part.who.publicKey.value
  {
    hide Draft.ThePayload;
  }

  lemma SealedKeepsPeople(h: Draft, who: string)
    ensures Participated(h.DossierDoc().dossier, who) <==> Participated(h.dossier, who)
  {
  }

  lemma FoundById(h: Draft, who: Credential)
    requires ReviewersFit(h) && who in h.reviewers
    ensures who.credentialId in DirectoryOf(h.reviewers) && DirectoryOf(h.reviewers)[who.credentialId] == who
  {
    hide DirectoryOf;
    var found := DirectoryOf(h.reviewers)[who.credentialId];
    var i :| 0 <= i < |h.reviewers| && h.reviewers[i] == who;
    var j :| 0 <= j < |h.reviewers| && h.reviewers[j] == found;
  }

  lemma ReviewWindows(h: Draft)
    ensures forall i :: 0 <= i < |h.Reviews()| ==>
              h.Reviews()[i].issuedAt == h.from && h.Reviews()[i].expiresAt == h.until
  {
    hide DossierDigest, ReviewDigest;
  }

  lemma DocumentsFit(c: Contracts, h: Draft)
    requires CurrentFits(c, h) && TargetFits(h) && DossierFits(h) && ShapesFit(c, h)
    ensures DocumentsValid(c, h.TheAuthorization(), h.TheContext())
  {
    hide SubjectDigest, ProposalDigest, DossierDigest, DecisionDigest, ReviewDigest, EntryDigest, SameDigestSet,
         ScanAccepts, EntriesCanonical, UniqueIdentities, UniqueCoordinates, PromotedEntry, Draft.NewEntry,
         Draft.Successor, Draft.Published, Draft.SnapshotBy, Draft.Reviews;
    StepHolds(c, h);
    EntryFacts(h);
    SuccessorFacts(h, h.NewEntry());
    PublishedFacts(h);
    ReviewWindows(h);
    var entries := h.Published().registry.entries;
    forall i | 0 <= i < |entries| ensures StageMatchesEligibility(entries[i]) {
      assert entries[i] == h.NewEntry() || entries[i] == h.current.registry.entries[i];
    }
  }

  lemma BindingsFit(c: Contracts, h: Draft)
    requires CurrentFits(c, h) && TargetFits(h) && DossierFits(h) && ReviewersFit(h)
    ensures DecisionBound(h.ThePayload(), h.TheContext()) && EvidenceBound(h.TheContext())
    ensures RegistriesBound(h.ThePayload(), h.TheContext(), h.reviewerDigest)
    ensures ReviewsBound(h.ThePayload(), h.TheContext(), h.reviewerDigest)
  {
    hide SubjectDigest, ProposalDigest, DossierDigest, DecisionDigest, ReviewDigest, EntryDigest, ReviewedValid,
         EntriesCanonical, Draft.NewEntry, Draft.Successor, Draft.Published, Draft.SnapshotBy, Draft.Placed,
         Draft.OpenEntry, SameSemantics, DisjointDomains, Participated, StageMatchesEligibility;
    DocumentsSealed(h);
    ReviewSealed(h, h.p);
    ReviewSealed(h, h.q);
    ProposalCommitted(h);
    SuccessorFacts(h, h.NewEntry());
    PublishedFacts(h);
    Listed(h);
  }

  /** Honest promotion is accepted: for every current registry, reviewers, dossier and evidence that fit, the
      documents built in order make a graph that the verifier authorizes. */
  lemma HonestIsAuthorized(c: Contracts, h: Draft)
    requires ReviewersFit(h) && TargetFits(h) && DossierFits(h) && CurrentFits(c, h) && ShapesFit(c, h)
    ensures Authorized(c, DirectoryOf(h.reviewers), h.reviewerDigest, h.TheAuthorization(), h.TheContext(), h.audience)
  {
    hide ReviewersFit, DocumentsValid, SignersAccepted, DecisionBound, EvidenceBound, RegistriesBound, ReviewsBound,
         ScanAccepts, PromotedEntry, DirectoryOf, SubjectDigest, ProposalDigest, DossierDigest, DecisionDigest,
         ReviewDigest, EntryDigest, EntriesCanonical, SameDigestSet, Draft.NewEntry, Draft.Successor, Draft.Published,
         Draft.ReviewBy;
    DocumentsFit(c, h);
    BindingsFit(c, h);
    SignersFit(h);
    StepHolds(c, h);
    EntryFacts(h);
    Listed(h);
    ReviewsDiffer(h);
    assert DossierBound(Some(h.NewEntry()), h.DossierDoc().dossier, DecisionDigest(h.DecisionDoc()),
                        PayloadHash(h.ThePayload()), ReviewDigests(h.Reviews()));
  }

  lemma ReviewsDiffer(h: Draft)
    requires ReviewersFit(h)
    ensures SameDigestSet(h.ReviewList(), h.ReviewList())
  {
    hide DossierDigest, DirectoryOf, DisjointDomains, Participated, Draft.DossierDoc;
    assert h.ReviewList()[0].review.credentialId == h.p.who.credentialId;
    assert h.ReviewList()[1].review.credentialId == h.q.who.credentialId;
  }

  /** And the publication is a registry that the next honest promotion can start from. */
  lemma HonestContinues(c: Contracts, h: Draft, next: Draft)
    requires TargetFits(h) && DossierFits(h) && CurrentFits(c, h) && ShapesFit(c, h)
    requires next.current == h.Published() && next.current.registry.generation < U64_MAX
    ensures CurrentFits(c, next)
  {
    hide SubjectDigest, DossierFits, ShapesFit, TargetFits, EntriesCanonical, ScanAccepts, PromotedEntry,
         Draft.Published, Draft.Successor, Draft.NewEntry, Draft.SnapshotBy, ReviewedValid;
    DocumentsFit(c, h);
    StepHolds(c, h);
    SuccessorFacts(h, h.NewEntry());
    PublishedFacts(h);
  }

  /** And the publication carries good snapshot signatures. */
  lemma HonestIsSigned(c: Contracts, h: Draft)
    requires ReviewersFit(h) && TargetFits(h) && DossierFits(h) && CurrentFits(c, h)
    ensures SnapshotSigned(DirectoryOf(h.reviewers), h.Published(), h.now)
  {
    hide DirectoryOf, SubjectDigest, ProposalDigest, Draft.NewEntry, Draft.Successor, Draft.Published, Participated,
         ScanAccepts, SameDigestSet, ReviewedValid, DisjointDomains, PromotedEntry, EntryDigest;
    StepHolds(c, h);
    PublishedFacts(h);
    FoundById(h, h.p.who);
    FoundById(h, h.q.who);
  }
}
