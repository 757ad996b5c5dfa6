/** What an accepted promotion authorization means: who stood behind it, and that the payload they
    signed fixes the registry that comes out, although the signed commitment blanks the backlinks. */
module Commitment {
  import opened Lists
  import opened PromotionModel
  import opened Evolution
  import opened Reviewers
  import opened PromotionAuthority

  // The promoted entry is the step's entry -------------------------------

  lemma {:induction false} FirstUnknownFinds(current: seq<Entry>, proposed: seq<Entry>)
    ensures var f := FirstUnknown(current, proposed);
            if f.Some? then f.value in proposed && !Known(current, IdentityOf(f.value))
            else forall e :: e in proposed ==> Known(current, IdentityOf(e))
  {
    if proposed != [] {
      FirstUnknownFinds(current, proposed[1..]);
      assert proposed == [proposed[0]] + proposed[1..];
    }
  }

  lemma {:induction false} FirstRevisedFinds(prior: Entry, proposed: seq<Entry>)
    ensures var f := FirstRevised(prior, proposed);
            if f.Some? then f.value in proposed && IdentityOf(f.value) == IdentityOf(prior) && f.value != prior
            else forall e :: e in proposed && IdentityOf(e) == IdentityOf(prior) ==> e == prior
  {
    if proposed != [] {
      FirstRevisedFinds(prior, proposed[1..]);
      assert proposed == [proposed[0]] + proposed[1..];
    }
  }

  lemma {:induction false} FirstChangedFinds(current: seq<Entry>, proposed: seq<Entry>)
    ensures var f := FirstChanged(current, proposed);
            if f.Some?
            then f.value in proposed
                 && exists prior :: prior in current && IdentityOf(f.value) == IdentityOf(prior) && f.value != prior
            else forall prior, e :: prior in current && e in proposed && IdentityOf(e) == IdentityOf(prior)
                                    ==> e == prior
  {
    if current != [] {
      hide FirstRevised;
      FirstRevisedFinds(current[0], proposed);
      FirstChangedFinds(current[1..], proposed);
      assert current == [current[0]] + current[1..];
    }
  }

  /** The entry the dossier is bound to is the one entry that the registry step adds or moves. */
  lemma PromotedIsStep(current: ReviewedRegistry, proposed: ReviewedRegistry, step: Transition)
    requires UniqueIdentities(current.entries) && ScanAccepts(current, proposed, step)
    ensures UniqueIdentities(proposed.entries)
    ensures var f := PromotedEntry(current.entries, proposed.entries, step);
            && f.Some? && f.value in proposed.entries
            && var before, after := AsMap(current.entries), AsMap(proposed.entries);
               if step.IsFirstReview() then AppendsReviewed(before, after, f.value)
               else MovesTo(before, after, step, f.value)
  {
    hide ScanAccepts, FirstUnknown, FirstChanged, AsMap, UniqueIdentities, EntriesCanonical, HeaderFollows;
    ScanRefinesMapStep(current, proposed, step);
    var before, after := AsMap(current.entries), AsMap(proposed.entries);
    var e :| e in proposed.entries
             && (if step.IsFirstReview() then AppendsReviewed(before, after, e) else MovesTo(before, after, step, e));
    AsMapUnique(current.entries);
    AsMapUnique(proposed.entries);
    AsMapKeys(current.entries);
    if step.IsFirstReview() {
      FirstUnknownFinds(current.entries, proposed.entries);
    } else {
      FirstChangedFinds(current.entries, proposed.entries);
      assert before[IdentityOf(e)] in current.entries;
    }
  }

  // Two-person promotion -------------------------------------------------

  /** Who a signature or a review claims to be. */
  datatype Persona = Persona(reviewerId: string, credentialId: string, role: Role)

  /** An active credential of that name and role, in validity then and now, whose key signed this payload. */
  predicate Backs(credential: Credential, a: Authorization, s: PromotionSignature, now: nat) {
    && credential.credentialId == s.credentialId
    && credential.reviewerId == s.reviewerId
    && credential.status.Active?
    && s.role in credential.roles
    && credential.validFrom <= s.signedAt <= credential.validUntil
    && credential.validFrom <= now <= credential.validUntil
    && credential.publicKey.Some?
    && s.signature == Signed(credential.publicKey.value,
                             PromotionMessage(a.payload, s.reviewerId, s.credentialId, s.role, s.signedAt))
  }

  /** The two signatures and the two registered credentials behind them share nothing. */
  predicate Unrelated(s: PromotionSignature, p: Credential, t: PromotionSignature, q: Credential) {
    && s.reviewerId != t.reviewerId
    && s.credentialId != t.credentialId
    && s.role != t.role
    && s.role.RegistryAuthorizer? != t.role.RegistryAuthorizer?
    && p.publicKey != q.publicKey
    && DisjointDomains(p.domains, q.domains)
  }

  ghost predicate TwoRegisteredSigners(reviewers: seq<Credential>, a: Authorization, now: nat) {
    && |a.signatures| == 2
    && exists p, q ::
         && p in reviewers && q in reviewers
         && Backs(p, a, a.signatures[0], now) && Backs(q, a, a.signatures[1], now)
         && Unrelated(a.signatures[0], p, a.signatures[1], q)
  }

  lemma SignersAreRegistered(reviewers: seq<Credential>, a: Authorization, now: nat)
    requires SignaturesHold(DirectoryOf(reviewers), a, now) && TwoPersons(Signers(DirectoryOf(reviewers), a))
    ensures TwoRegisteredSigners(reviewers, a, now)
  {
    hide DirectoryOf, DisjointDomains;
    var directory := DirectoryOf(reviewers);
    var s, t := a.signatures[0], a.signatures[1];
    assert PromotionSignatureHolds(directory, a.payload, s, now)
           && PromotionSignatureHolds(directory, a.payload, t, now);
    var p, q := directory[s.credentialId], directory[t.credentialId];
    assert Signers(directory, a)[0] == SignerOf(directory, s) && Signers(directory, a)[1] == SignerOf(directory, t);
    assert p in reviewers && q in reviewers;
    assert Backs(p, a, s, now) && Backs(q, a, t, now);
    assert Unrelated(s, p, t, q);
  }

  function SignerPersonas(a: Authorization): set<Persona> {
    set s | s in a.signatures :: Persona(s.reviewerId, s.credentialId, s.role)
  }

  function ReviewPersonas(reviews: seq<Review>): set<Persona> {
    set r | r in reviews :: Persona(r.reviewerId, r.credentialId, r.role)
  }

  /** An approving, independent review of this dossier, current and without an unresolved blocking finding. */
  predicate Approves(r: Review, x: Context, reviewerDigest: Digest) {
    && r.dossierDigest == DossierDigest(x.dossier) && r.signedSubject == DossierDigest(x.dossier)
    && r.reviewerRegistryDigest == reviewerDigest
    && r.decision.Approve? && r.independence.Independent?
    && (forall f :: f in r.findings && f.severity.Blocking? ==> f.disposition.Resolved?)
    && r.issuedAt <= x.now <= r.expiresAt
  }

  /** Neither an author nor an evaluator, judge or fixture producer of the dossier. */
  predicate TookNoPart(d: Dossier, who: string) {
    && who !in d.authors
    && (forall run :: run in d.evaluatorRuns ==> run.evaluator != who && run.judge != Some(who))
    && (forall f :: f in d.fixtures ==> f.producer != who)
  }

  lemma ParticipatedExactly(d: Dossier, who: string)
    ensures TookNoPart(d, who) <==> !Participated(d, who)
  {
  }

  lemma ApprovesExactly(r: Review, x: Context, reviewerDigest: Digest)
    ensures ReviewApproves(r, DossierDigest(x.dossier), reviewerDigest, x.now) <==>
            Approves(r, x, reviewerDigest) && r.reviewDigest == ReviewDigest(r)
  {
  }

  /** Two-person promotion: an accepted authorization carries exactly two registered signers with nothing in
      common, who are exactly the authors of the approving reviews and took no part in the dossier; candidates
      and conflicts are accounted for exactly once. */
  lemma TwoPersonPromotion(c: Contracts, reviewers: seq<Credential>, reviewerDigest: Digest, a: Authorization,
                           x: Context, audience: string)
    requires Authorized(c, DirectoryOf(reviewers), reviewerDigest, a, x, audience)
    ensures TwoRegisteredSigners(reviewers, a, x.now)
    ensures SignerPersonas(a) == ReviewPersonas(x.reviews)
    ensures forall r :: r in x.reviews ==> Approves(r, x, reviewerDigest)
    ensures forall s :: s in a.signatures ==> TookNoPart(x.dossier.dossier, s.reviewerId)
    ensures var p, decision := a.payload, x.decision.decision;
            && decision.kind.ApproveDecision? && decision.transition == p.transition
            && decision.dossierDigest == p.dossierDigest && decision.predecessorDigest == p.currentDigest
            && decision.proposedDigest == p.proposedDigest
    ensures a.payload.audience == audience && a.payload.issuedAt <= x.now <= a.payload.expiresAt
    ensures SameDigestSet(x.dossier.dossier.candidateDigests, CandidateDigests(x.candidates))
    ensures SameDigestSet(x.dossier.dossier.conflictDigests, ConflictDigests(x.conflicts))
    ensures SameDigestSet(x.dossier.dossier.conflictDigests, x.decision.decision.resolvedConflicts)
  {
    hide ProposalBound, DocumentsValid, SameDigestSet, Participated, DossierDigest, DecisionDigest, SubjectDigest,
         ProposalDigest, ReviewApproves, Approves, TookNoPart, TwoRegisteredSigners, SignaturesHold, TwoPersons,
         ReviewsSigned;
    var directory := DirectoryOf(reviewers);
    SignersAreRegistered(reviewers, a, x.now);
    PersonasAgree(directory, a, x.reviews);
    forall s | s in a.signatures ensures TookNoPart(x.dossier.dossier, s.reviewerId) {
      var i :| 0 <= i < |a.signatures| && a.signatures[i] == s;
      assert Signers(directory, a)[i].reviewerId == s.reviewerId;
      ParticipatedExactly(x.dossier.dossier, s.reviewerId);
    }
    forall r | r in x.reviews ensures Approves(r, x, reviewerDigest) {
      ApprovesExactly(r, x, reviewerDigest);
    }
  }

  /** Every document of an accepted graph passed its contract. */
  lemma AcceptedDocuments(c: Contracts, directory: Directory, reviewerDigest: Digest, a: Authorization, x: Context,
                          audience: string)
    requires Authorized(c, directory, reviewerDigest, a, x, audience)
    ensures "0.3" == x.dossier.schemaVersion == x.decision.schemaVersion == a.schemaVersion
    ensures "0.3" == x.current.schemaVersion == x.proposed.schemaVersion
    ensures x.dossier.dossier.transition.IsAllowed()
    ensures a.payload.issuedAt < a.payload.expiresAt
    ensures forall r :: r in x.reviews ==> r.issuedAt < r.expiresAt && c.reviewShape(r)
    ensures c.dossierShape(x.dossier) && c.decisionShape(x.decision) && c.authorizationShape(a)
    ensures c.reviewedShape(x.current) && c.reviewedShape(x.proposed)
    ensures forall e :: e in x.candidates ==> c.candidateShape(e)
    ensures forall e :: e in x.conflicts ==> c.conflictShape(e)
    ensures c.ready(x.dossier, x.candidates, x.reviews, x.conflicts)
  {
    hide SignersAccepted, ProposalBound, EvidenceBound, RegistriesBound, ReviewsBound, PayloadCurrent;
  }

  lemma PersonasAgree(directory: Directory, a: Authorization, reviews: seq<Review>)
    requires ReviewsSigned(Signers(directory, a), reviews)
    ensures SignerPersonas(a) == ReviewPersonas(reviews)
  {
    var signers := Signers(directory, a);
    forall s | s in a.signatures ensures Persona(s.reviewerId, s.credentialId, s.role) in ReviewPersonas(reviews) {
      var i :| 0 <= i < |a.signatures| && a.signatures[i] == s;
      assert Wrote(signers[i], reviews);
      var j :| 0 <= j < |reviews| && WrittenBy(reviews[j], signers[i]);
      assert reviews[j] in reviews;
    }
    forall r | r in reviews ensures Persona(r.reviewerId, r.credentialId, r.role) in SignerPersonas(a) {
      var j :| 0 <= j < |reviews| && reviews[j] == r;
      assert SignedFor(reviews[j], signers);
      var i :| 0 <= i < |signers| && WrittenBy(reviews[j], signers[i]);
      assert a.signatures[i] in a.signatures;
    }
  }

  /** A signature covers the whole payload: accepted authorizations that share one signature value, under whatever
      registries and at whatever times, carry one payload, and that signature one reviewer, credential, role and
      time. */
  lemma SignatureCoversPayload(directory1: Directory, a1: Authorization, x1: Context, s: PromotionSignature,
                               directory2: Directory, a2: Authorization, x2: Context, t: PromotionSignature)
    requires SignersAccepted(directory1, a1, x1) && SignersAccepted(directory2, a2, x2)
    requires s in a1.signatures && t in a2.signatures && s.signature == t.signature
    ensures a1.payload == a2.payload
    ensures s.reviewerId == t.reviewerId && s.credentialId == t.credentialId && s.role == t.role
    ensures s.signedAt == t.signedAt
  {
    hide TwoPersons, ReviewsSigned, Disinterested, Vouches;
    assert PromotionSignatureHolds(directory1, a1.payload, s, x1.now);
    assert PromotionSignatureHolds(directory2, a2.payload, t, x2.now);
  }

  /** Two unrelated registered reviewers, one of them an authorizer, signed this very registry: everything in it but
      the authored digest and the signatures themselves. */
  ghost predicate SnapshotBacked(reviewers: seq<Credential>, doc: ReviewedDocument, now: nat) {
    && |doc.registry.snapshotSignatures| == 2
    && exists p, q ::
         && p in reviewers && q in reviewers
         && SignedSnapshot(p, doc, doc.registry.snapshotSignatures[0], now)
         && SignedSnapshot(q, doc, doc.registry.snapshotSignatures[1], now)
         && p.reviewerId != q.reviewerId && p.credentialId != q.credentialId && p.publicKey != q.publicKey
         && DisjointDomains(p.domains, q.domains)
         && doc.registry.snapshotSignatures[0].role.RegistryAuthorizer?
            != doc.registry.snapshotSignatures[1].role.RegistryAuthorizer?
  }

  predicate SignedSnapshot(credential: Credential, doc: ReviewedDocument, s: SnapshotSignature, now: nat) {
    && credential.credentialId == s.credentialId
    && credential.reviewerId == s.reviewerId
    && credential.status.Active?
    && s.role in credential.roles
    && credential.validFrom <= s.signedAt <= credential.validUntil
    && credential.validFrom <= now <= credential.validUntil
    && credential.publicKey.Some?
    && s.signature == Signed(credential.publicKey.value,
                             SnapshotMessage(SubjectDigest(doc), s.reviewerId, s.credentialId, s.role, s.signedAt))
  }

  lemma SnapshotIsBacked(reviewers: seq<Credential>, doc: ReviewedDocument, now: nat)
    requires SnapshotSigned(DirectoryOf(reviewers), doc, now)
    ensures SnapshotBacked(reviewers, doc, now)
  {
    hide DirectoryOf, DisjointDomains, SubjectDigest, EntryDigest;
    var directory := DirectoryOf(reviewers);
    var s, t := doc.registry.snapshotSignatures[0], doc.registry.snapshotSignatures[1];
    var p, q := directory[s.credentialId], directory[t.credentialId];
    assert SignedSnapshot(p, doc, s, now) && SignedSnapshot(q, doc, t, now);
  }

  // The commitment -------------------------------------------------------

  /** The accepted step, seen through the promoted entry `e`. */
  ghost predicate StepsTo(before: map<Identity, Entry>, proposed: ReviewedRegistry, step: Transition, e: Entry) {
    && UniqueIdentities(proposed.entries)
    && EntriesCanonical(proposed.entries)
    && e in proposed.entries
    && if step.IsFirstReview() then AppendsReviewed(before, AsMap(proposed.entries), e)
       else MovesTo(before, AsMap(proposed.entries), step, e)
  }

  /** Registries that differ only in backlinks have the same identities. */
  lemma SameKeys(p: seq<Entry>, q: seq<Entry>, id: Identity)
    requires |p| == |q|
    requires forall i :: 0 <= i < |p| ==> WithoutBacklinks(p[i]) == WithoutBacklinks(q[i])
    ensures id in AsMap(p) <==> id in AsMap(q)
  {
    AsMapKeys(p);
    AsMapKeys(q);
    forall i | 0 <= i < |p| ensures IdentityOf(p[i]) == IdentityOf(q[i]) {
      assert WithoutBacklinks(p[i]) == WithoutBacklinks(q[i]);
    }
    if Known(p, id) {
      var i :| 0 <= i < |p| && IdentityOf(p[i]) == id;
      assert IdentityOf(q[i]) == id;
    }
    if Known(q, id) {
      var i :| 0 <= i < |q| && IdentityOf(q[i]) == id;
      assert IdentityOf(p[i]) == id;
    }
  }

  /** Two steps from one registry that agree up to backlinks promote the same identity. */
  lemma SamePromotion(before: map<Identity, Entry>, p: ReviewedRegistry, q: ReviewedRegistry, step: Transition,
                      e: Entry, f: Entry)
    requires step.IsAllowed() && StepsTo(before, p, step, e) && StepsTo(before, q, step, f)
    requires |p.entries| == |q.entries|
    requires forall i :: 0 <= i < |p.entries| ==> WithoutBacklinks(p.entries[i]) == WithoutBacklinks(q.entries[i])
    ensures IdentityOf(e) == IdentityOf(f)
  {
    hide AsMap, UniqueIdentities, EntriesCanonical;
    AsMapUnique(p.entries);
    AsMapUnique(q.entries);
    SameKeys(p.entries, q.entries, IdentityOf(e));
    // A registry that moved another identity left this one at stage `from`, yet stages are not blanked.
    var i :| 0 <= i < |p.entries| && p.entries[i] == e;
    var twin := q.entries[i];
    assert WithoutBacklinks(twin) == WithoutBacklinks(e);
    assert twin in q.entries && IdentityOf(twin) == IdentityOf(WithoutBacklinks(twin)) == IdentityOf(e);
    assert AsMap(q.entries)[IdentityOf(e)].stage == e.stage;
  }

  /** Such steps agree entry by entry once the promoted entries carry the same backlinks. */
  lemma SameEntries(before: map<Identity, Entry>, p: ReviewedRegistry, q: ReviewedRegistry, step: Transition,
                    e: Entry, f: Entry)
    requires step.IsAllowed() && StepsTo(before, p, step, e) && StepsTo(before, q, step, f)
    requires e.decisionDigest == f.decisionDigest && e.authorizationDigest == f.authorizationDigest
    requires |p.entries| == |q.entries|
    requires forall i :: 0 <= i < |p.entries| ==> WithoutBacklinks(p.entries[i]) == WithoutBacklinks(q.entries[i])
    ensures p.entries == q.entries
  {
    hide AsMap, UniqueIdentities;
    SamePromotion(before, p, q, step, e, f);
    AsMapUnique(p.entries);
    AsMapUnique(q.entries);
    forall i | 0 <= i < |p.entries| ensures p.entries[i] == q.entries[i] {
      var a, b := p.entries[i], q.entries[i];
      assert WithoutBacklinks(a) == WithoutBacklinks(b);
      assert a in p.entries && b in q.entries;
      assert IdentityOf(a) == IdentityOf(WithoutBacklinks(a)) == IdentityOf(b);
      if IdentityOf(a) == IdentityOf(e) {
        assert a == e && b == f;
        assert EntryCanonical(a) && EntryCanonical(b);
        assert a.(entryDigest := BLANK) == b.(entryDigest := BLANK);
      }
    }
  }

  /** What is promoted is what was reviewed: an accepted proposal adds or moves one entry, by an allowed step, and
      that entry is the dossier's package with links back to the decision, the payload and the reviews. */
  lemma PromotesDossier(c: Contracts, directory: Directory, reviewerDigest: Digest, a: Authorization, x: Context,
                        audience: string) returns (e: Entry)
    requires Authorized(c, directory, reviewerDigest, a, x, audience)
    ensures StepsTo(AsMap(x.current.registry.entries), x.proposed.registry, a.payload.transition, e)
    ensures a.payload.transition.IsAllowed() && a.payload.transition == x.dossier.dossier.transition
    ensures var d := x.dossier.dossier;
            && e.pack == d.pack && e.packageDigest == d.packageDigest
            && e.manifest == d.manifest && e.content == d.content && e.license == d.license
            && |e.fixtures| == |d.fixtures|
            && (forall i :: 0 <= i < |d.fixtures| ==> e.fixtures[i] == d.fixtures[i].canonicalSha256)
            && e.stage == d.transition.to
    ensures e.decisionDigest == a.payload.decisionDigest && e.authorizationDigest == PayloadHash(a.payload)
    ensures forall d :: d in e.reviewDigests <==> exists r :: r in x.reviews && ReviewDigest(r) == d
  {
    hide SignersAccepted, EvidenceBound, ReviewsBound, RegistriesBound, SameDigestSet, AsMap, FirstUnknown,
         FirstChanged, Changed, Appended, AllPreserved, HeaderFollows, ReviewDigest, ReviewDigests;
    var step := x.dossier.dossier.transition;
    PromotedIsStep(x.current.registry, x.proposed.registry, step);
    e := PromotedEntry(x.current.registry.entries, x.proposed.registry.entries, step).value;
    LinksBack(x.reviews, e.reviewDigests);
  }

  lemma LinksBack(reviews: seq<Review>, digests: seq<Digest>)
    requires SameDigestSet(ReviewDigests(reviews), digests)
    ensures forall d :: d in digests <==> exists r :: r in reviews && ReviewDigest(r) == d
  {
    hide ReviewDigest;
    var ds := ReviewDigests(reviews);
    assert forall d :: d in digests <==> d in Elements(digests);
    forall d ensures d in digests <==> exists r :: r in reviews && ReviewDigest(r) == d {
      if d in Elements(ds) {
        var i :| 0 <= i < |ds| && ds[i] == d;
        assert reviews[i] in reviews;
      }
      if r :| r in reviews && ReviewDigest(r) == d {
        var i :| 0 <= i < |reviews| && reviews[i] == r;
        assert ds[i] in Elements(ds);
      }
    }
  }

  /** Commitment loses nothing: one signed payload is accepted for one proposed registry only, up to the
      refreshable snapshot signatures, whatever documents, reviewers and times the two acceptances used. */
  lemma CommitmentLosesNothing(c: Contracts, directory1: Directory, digest1: Digest, a1: Authorization, x1: Context,
                               audience1: string, directory2: Directory, digest2: Digest, a2: Authorization,
                               x2: Context, audience2: string)
    requires Authorized(c, directory1, digest1, a1, x1, audience1)
    requires Authorized(c, directory2, digest2, a2, x2, audience2)
    requires a1.payload == a2.payload
    ensures x1.proposed.(registry := x1.proposed.registry.(snapshotSignatures := []))
         == x2.proposed.(registry := x2.proposed.registry.(snapshotSignatures := []))
    ensures Mint(directory1, digest1, a1, x1).proposedDigest == Mint(directory2, digest2, a2, x2).proposedDigest
  {
    hide SignersAccepted, EvidenceBound, ReviewsBound, DecisionBound, DocumentsValid, PayloadCurrent, ProposalBound,
         ProposalDigest, SubjectDigest, AsMap, UniqueIdentities, EntriesCanonical;
    var e := PromotesDossier(c, directory1, digest1, a1, x1, audience1);
    var f := PromotesDossier(c, directory2, digest2, a2, x2, audience2);
    SubjectDigestExact(x1.current, x2.current);
    assert x1.current.registry.entries == x2.current.registry.entries;
    ProposalDigestExact(x1.proposed, x2.proposed);
    var p, q := x1.proposed.registry, x2.proposed.registry;
    SameEntries(AsMap(x1.current.registry.entries), p, q, a1.payload.transition, e, f);
    assert x1.proposed == x2.proposed.(registry := q.(registryDigest := p.registryDigest,
                                                      snapshotSignatures := p.snapshotSignatures));
    SubjectDigestExact(x1.proposed, x2.proposed);
  }

  /** Sealed documents with one digest are one document. */
  lemma SameDossier(d: DossierDocument, e: DossierDocument)
    requires d.dossier.dossierDigest == DossierDigest(d) && e.dossier.dossierDigest == DossierDigest(e)
    requires DossierDigest(d) == DossierDigest(e)
    ensures d == e
  {
    assert d.(dossier := d.dossier.(dossierDigest := BLANK)) == e.(dossier := e.dossier.(dossierDigest := BLANK));
  }

  lemma SameDecision(d: DecisionDocument, e: DecisionDocument)
    requires d.decision.decisionDigest == DecisionDigest(d) && e.decision.decisionDigest == DecisionDigest(e)
    requires DecisionDigest(d) == DecisionDigest(e)
    ensures d == e
  {
    assert d.(decision := d.decision.(decisionDigest := BLANK)) == e.(decision := e.decision.(decisionDigest := BLANK));
  }

  lemma SameReview(r: Review, q: Review)
    requires r.reviewDigest == ReviewDigest(r) && q.reviewDigest == ReviewDigest(q)
             && ReviewDigest(r) == ReviewDigest(q)
    ensures r == q
  {
    assert r.(reviewDigest := BLANK) == q.(reviewDigest := BLANK);
  }

  lemma ReviewsWithin(rs: seq<Review>, qs: seq<Review>, digests: seq<Digest>)
    requires forall r :: r in rs || r in qs ==> r.reviewDigest == ReviewDigest(r)
    requires multiset(digests) == multiset(ReviewDigests(rs)) && multiset(digests) == multiset(ReviewDigests(qs))
    ensures forall r :: r in rs ==> r in qs
  {
    hide ReviewDigest;
    var ds, es := ReviewDigests(rs), ReviewDigests(qs);
    SameElements(ds, es);
    forall r | r in rs ensures r in qs {
      var i :| 0 <= i < |rs| && rs[i] == r;
      assert ds[i] in ds;
      var j :| 0 <= j < |es| && es[j] == ds[i];
      SameReview(r, qs[j]);
    }
  }

  /** Lists of sealed evidence that match one list of digests hold the same evidence. */
  lemma CandidatesWithin(xs: seq<LearningCandidate>, ys: seq<LearningCandidate>, digests: seq<Digest>)
    requires forall e :: e in xs || e in ys ==> e.candidateDigest == CandidateDigest(e)
    requires SameDigestSet(digests, CandidateDigests(xs)) && SameDigestSet(digests, CandidateDigests(ys))
    ensures forall e :: e in xs ==> e in ys
  {
    var ds, es := CandidateDigests(xs), CandidateDigests(ys);
    forall e | e in xs ensures e in ys {
      var i :| 0 <= i < |xs| && xs[i] == e;
      assert ds[i] in Elements(ds);
      var j :| 0 <= j < |es| && es[j] == ds[i];
      assert ys[j] in ys && CandidateDigest(ys[j]) == CandidateDigest(e);
      assert ys[j].(candidateDigest := BLANK) == e.(candidateDigest := BLANK);
    }
  }

  lemma ConflictsWithin(xs: seq<Conflict>, ys: seq<Conflict>, digests: seq<Digest>)
    requires forall e :: e in xs || e in ys ==> e.conflictDigest == ConflictDigest(e)
    requires SameDigestSet(digests, ConflictDigests(xs)) && SameDigestSet(digests, ConflictDigests(ys))
    ensures forall e :: e in xs ==> e in ys
  {
    var ds, es := ConflictDigests(xs), ConflictDigests(ys);
    forall e | e in xs ensures e in ys {
      var i :| 0 <= i < |xs| && xs[i] == e;
      assert ds[i] in Elements(ds);
      var j :| 0 <= j < |es| && es[j] == ds[i];
      assert ys[j] in ys && ConflictDigest(ys[j]) == ConflictDigest(e);
      assert ys[j].(conflictDigest := BLANK) == e.(conflictDigest := BLANK);
    }
  }

  lemma EvidenceSealed(c: Contracts, a: Authorization, x: Context)
    requires DocumentsValid(c, a, x)
    ensures forall e :: e in x.candidates ==> e.candidateDigest == CandidateDigest(e)
    ensures forall e :: e in x.conflicts ==> e.conflictDigest == ConflictDigest(e)
  {
    hide DossierValid, DecisionValid, AuthorizationValid, ReviewedValid;
  }

  lemma ReviewsSealed(p: Payload, x: Context, reviewerDigest: Digest)
    requires ReviewsBound(p, x, reviewerDigest)
    ensures forall r :: r in x.reviews ==> r.reviewDigest == ReviewDigest(r)
  {
  }

  /** One payload, one graph: acceptances of one payload are of the same dossier and decision, whole, of the same
      reviews, candidates and conflicts, and of the same current registry up to its signatures. */
  lemma PayloadFixesGraph(c: Contracts, digest1: Digest, a1: Authorization, x1: Context, audience1: string,
                          digest2: Digest, a2: Authorization, x2: Context, audience2: string)
    requires GraphBound(c, digest1, a1, x1, audience1) && GraphBound(c, digest2, a2, x2, audience2)
    requires a1.payload == a2.payload
    ensures x1.dossier == x2.dossier && x1.decision == x2.decision && digest1 == digest2
    ensures forall r :: r in x1.reviews <==> r in x2.reviews
    ensures forall e :: e in x1.candidates <==> e in x2.candidates
    ensures forall e :: e in x1.conflicts <==> e in x2.conflicts
    ensures x1.current == x2.current.(registry := x2.current.registry.(
                                      snapshotSignatures := x1.current.registry.snapshotSignatures))
  {
    hide DocumentsValid, PayloadCurrent, SubjectDigest, ProposalDigest, SameDigestSet, ReviewApproves, DossierDigest,
         DecisionDigest, ReviewDigest, CandidateDigest, ConflictDigest, CandidateDigests, ConflictDigests,
         ReviewDigests;
    SubjectDigestExact(x1.current, x2.current);
    SameDossier(x1.dossier, x2.dossier);
    SameDecision(x1.decision, x2.decision);
    EvidenceSealed(c, a1, x1);
    EvidenceSealed(c, a2, x2);
    ReviewsSealed(a1.payload, x1, digest1);
    ReviewsSealed(a2.payload, x2, digest2);
    var dossier := x1.dossier.dossier;
    ReviewsWithin(x1.reviews, x2.reviews, a1.payload.reviewDigests);
    ReviewsWithin(x2.reviews, x1.reviews, a1.payload.reviewDigests);
    CandidatesWithin(x1.candidates, x2.candidates, dossier.candidateDigests);
    CandidatesWithin(x2.candidates, x1.candidates, dossier.candidateDigests);
    ConflictsWithin(x1.conflicts, x2.conflicts, dossier.conflictDigests);
    ConflictsWithin(x2.conflicts, x1.conflicts, dossier.conflictDigests);
  }
}
