/** Whole runs of the two promotion anchors together: any interleaving of rotations, mintings, advances,
    replays and failed calls. */
module PromotionRuns {
  import opened Lists
  import opened PromotionModel
  import opened Evolution
  import opened Reviewers
  import opened PromotionAuthority
  import opened PromotionAnchors
  import opened Commitment
  import opened HonestPromotion

  // The composed machine -------------------------------------------------

  /** Both heads and the minted capabilities not yet spent. Minting twice leaves two equal capabilities. */
  datatype System = System(reviewer: ReviewerState, reviewed: ReviewedState, pool: multiset<Capability>)

  datatype Event =
    | Rotate(version: ReviewerVersion, successor: ReviewerDocument, at: nat)
    | MintCapability(authorization: Authorization, context: Context, audience: string)
    | Advance(expected: ReviewedVersion, capability: Capability, at: nat)
    | Replay(candidate: ReviewedDocument, at: nat)

  ghost predicate Succeeds(c: Contracts, s: System, e: Event) {
    match e
    case Rotate(version, successor, at) => CanRotate(c, s.reviewer, version, successor, at)
    case MintCapability(a, x, audience) =>
      Authorized(c, s.reviewer.Directory(), s.reviewer.registryDigest, a, x, audience)
    case Advance(expected, cap, at) => cap in s.pool && CanAdvance(s.reviewed, expected, s.reviewer, cap, at)
    case Replay(candidate, at) => CanReplay(c, s.reviewed, s.reviewer, candidate, at)
  }

  /** One call. A capability is moved into `Advance` and is gone whether or not the call succeeds. */
  ghost function Step(c: Contracts, s: System, e: Event): System {
    var ok := Succeeds(c, s, e);
    match e
    case Rotate(_, successor, _) => if ok then s.(reviewer := ReviewerHead(successor)) else s
    case MintCapability(a, x, _) =>
      if ok then s.(pool := s.pool + multiset{Mint(s.reviewer.Directory(), s.reviewer.registryDigest, a, x)}) else s
    case Advance(_, cap, _) =>
      var spent := s.(pool := s.pool - multiset{cap});
      if ok then spent.(reviewed := ReviewedHead(cap.proposed)) else spent
    case Replay(candidate, _) => if ok then s.(reviewed := s.reviewed.(document := candidate)) else s
  }

  ghost function After(c: Contracts, s: System, run: seq<Event>): System {
    if run == [] then s else Step(c, After(c, s, run[..|run| - 1]), run[|run| - 1])
  }

  /** What minting leaves true of a capability. */
  ghost predicate Minted(c: Contracts, cap: Capability) {
    && ReviewedValid(c, cap.proposed)
    && cap.transition.IsAllowed()
    && cap.payloadDigest.PayloadHash?
    && Repeats(cap, cap.payloadDigest.payload)
  }

  /** The capability says what the signed payload says. */
  predicate Repeats(cap: Capability, p: Payload) {
    && cap.authorizationId == p.authorizationId
    && cap.dossierDigest == p.dossierDigest && cap.decisionDigest == p.decisionDigest
    && cap.reviewerRegistryDigest == p.reviewerRegistryDigest
    && cap.currentDigest == p.currentDigest && ProposalDigest(cap.proposed) == p.proposedDigest
    && cap.issuedAt == p.issuedAt && cap.expiresAt == p.expiresAt
    && cap.transition == p.transition
  }

  /** `cap` is what accepting this authorization under this reviewer registry mints. */
  ghost predicate Certifies(c: Contracts, cap: Capability, reviewer: ReviewerState, a: Authorization, x: Context,
                            audience: string) {
    && ReviewerEstablished(c, reviewer)
    && Authorized(c, reviewer.Directory(), reviewer.registryDigest, a, x, audience)
    && cap == Mint(reviewer.Directory(), reviewer.registryDigest, a, x)
  }

  ghost predicate Certified(c: Contracts, cap: Capability) {
    exists reviewer, a, x, audience :: Certifies(c, cap, reviewer, a, x, audience)
  }

  /** Both heads are established and every pooled capability was minted from an accepted authorization. */
  ghost predicate Sound(c: Contracts, s: System) {
    && ReviewerEstablished(c, s.reviewer)
    && ReviewedEstablished(c, s.reviewed)
    && forall cap :: cap in s.pool ==> Minted(c, cap) && Certified(c, cap)
  }

  lemma MintIsMinted(c: Contracts, directory: Directory, digest: Digest, a: Authorization, x: Context, audience: string)
    requires Authorized(c, directory, digest, a, x, audience)
    ensures Minted(c, Mint(directory, digest, a, x))
  {
    hide SignersAccepted, EvidenceBound, ReviewsBound, ProposalBound, ReviewedValid, SubjectDigest, ProposalDigest,
         DossierDigest, DecisionDigest;
  }

  lemma StepSound(c: Contracts, s: System, e: Event)
    requires Sound(c, s)
    ensures Sound(c, Step(c, s, e))
  {
    hide Authorized, CanAdvance, RotationAuthorized, SnapshotSigned, ReviewedValid, ReviewerValid, Minted, Certified,
         Mint;
    if e.MintCapability? && Succeeds(c, s, e) {
      MintIsCertified(c, s, e);
      MintIsMinted(c, s.reviewer.Directory(), s.reviewer.registryDigest, e.authorization, e.context, e.audience);
    }
    if e.Advance? && Succeeds(c, s, e) {
      MintedIsValid(c, e.capability);
    }
  }

  lemma MintIsCertified(c: Contracts, s: System, e: Event)
    requires Sound(c, s) && e.MintCapability? && Succeeds(c, s, e)
    ensures Certified(c, Mint(s.reviewer.Directory(), s.reviewer.registryDigest, e.authorization, e.context))
  {
    hide Authorized, Mint, ReviewerEstablished, ReviewedEstablished, Minted;
    assert Certifies(c, Mint(s.reviewer.Directory(), s.reviewer.registryDigest, e.authorization, e.context), s.reviewer,
                     e.authorization, e.context, e.audience);
  }

  lemma MintedIsValid(c: Contracts, cap: Capability)
    requires Minted(c, cap)
    ensures ReviewedValid(c, cap.proposed) && cap.transition.IsAllowed()
  {
  }

  lemma {:induction false} AfterSound(c: Contracts, s: System, run: seq<Event>)
    requires Sound(c, s)
    ensures Sound(c, After(c, s, run))
  {
    hide Sound, Step;
    if run != [] {
      AfterSound(c, s, run[..|run| - 1]);
      StepSound(c, After(c, s, run[..|run| - 1]), run[|run| - 1]);
    }
  }

  /** A run goes on from wherever its prefix ended. */
  lemma {:induction false} AfterSplits(c: Contracts, s: System, a: seq<Event>, b: seq<Event>)
    ensures After(c, s, a + b) == After(c, After(c, s, a), b)
  {
    hide Step;
    if b == [] {
      assert a + b == a;
    } else {
      AfterSplits(c, s, a, b[..|b| - 1]);
      assert (a + b)[..|a + b| - 1] == a + b[..|b| - 1];
    }
  }

  // The reviewed registry over a run -------------------------------------

  function Level(stage: Stage): nat {
    match stage
    case Candidate => 0
    case Trial => 1
    case Validated => 2
    case Reviewed => 3
    case Deprecated => 4
    case Revoked => 5
    case Superseded => 5
  }

  /** Reachable in the promotion graph. */
  predicate Leads(from: Stage, to: Stage) {
    from == to || Level(from) < Level(to)
  }

  /** What a registry entry may become: the same package, no earlier in the lifecycle, frozen once terminal. */
  predicate EntryEvolves(before: Entry, after: Entry) {
    && SameSemantics(before, after)
    && Leads(before.stage, after.stage)
    && (Tombstone(before.stage) ==> after == before)
  }

  /** No identity is lost and every entry evolves. */
  ghost predicate RegistryEvolves(before: map<Identity, Entry>, after: map<Identity, Entry>) {
    forall id :: id in before ==> id in after && EntryEvolves(before[id], after[id])
  }

  function EntriesOf(s: System): seq<Entry> {
    s.reviewed.document.registry.entries
  }

  function Generation(s: System): nat {
    s.reviewed.document.registry.generation
  }

  ghost function Advances(c: Contracts, s: System, run: seq<Event>): nat {
    if run == [] then 0
    else
      var init, last := run[..|run| - 1], run[|run| - 1];
      Advances(c, s, init) + if last.Advance? && Succeeds(c, After(c, s, init), last) then 1 else 0
  }

  ghost function FirstReviews(c: Contracts, s: System, run: seq<Event>): nat {
    if run == [] then 0
    else
      var init, last := run[..|run| - 1], run[|run| - 1];
      FirstReviews(c, s, init)
      + if last.Advance? && last.capability.transition.IsFirstReview() && Succeeds(c, After(c, s, init), last)
        then 1 else 0
  }

  lemma UpdateEvolves(before: map<Identity, Entry>, after: map<Identity, Entry>, step: Transition, e: Entry)
    requires step.IsAllowed()
    requires if step.IsFirstReview() then AppendsReviewed(before, after, e) else MovesTo(before, after, step, e)
    ensures RegistryEvolves(before, after)
    ensures |after| == |before| + if step.IsFirstReview() then 1 else 0
  {
  }

  /** One advance: one entry moves or one appears, one generation passes. */
  lemma AdvanceEvolves(c: Contracts, s: ReviewedState, expected: ReviewedVersion, reviewer: ReviewerState,
                       cap: Capability, at: nat)
    requires ReviewedEstablished(c, s) && Minted(c, cap) && CanAdvance(s, expected, reviewer, cap, at)
    ensures RegistryEvolves(AsMap(s.document.registry.entries), AsMap(cap.proposed.registry.entries))
    ensures |cap.proposed.registry.entries|
            == |s.document.registry.entries| + if cap.transition.IsFirstReview() then 1 else 0
    ensures cap.proposed.registry.registryId == s.document.registry.registryId
    ensures cap.proposed.registry.audience == s.document.registry.audience
    ensures cap.proposed.registry.generation == s.document.registry.generation + 1
  {
    hide AsMap, SnapshotSigned, AllPreserved, Changed, Appended, AuthorizedChange, EntriesCanonical, UniqueIdentities,
         UniqueCoordinates, RegistryEvolves, AppendsReviewed, MovesTo;
    var current, proposed, step := s.document.registry, cap.proposed.registry, cap.transition;
    ScanRefinesMapStep(current, proposed, step);
    var before, after := AsMap(current.entries), AsMap(proposed.entries);
    var e :| e in proposed.entries
             && (if step.IsFirstReview() then AppendsReviewed(before, after, e) else MovesTo(before, after, step, e));
    UpdateEvolves(before, after, step, e);
    AsMapUnique(current.entries);
    AsMapUnique(proposed.entries);
  }

  /** A replay changes nothing that the subject digest covers. */
  lemma ReplayKeepsRegistry(c: Contracts, s: ReviewedState, reviewer: ReviewerState,
                            candidate: ReviewedDocument, at: nat)
    requires ReviewedEstablished(c, s) && CanReplay(c, s, reviewer, candidate, at)
    ensures candidate.registry == s.document.registry.(registryDigest := candidate.registry.registryDigest,
                                                       snapshotSignatures := candidate.registry.snapshotSignatures)
  {
  }

  lemma EvolvesReflexive(m: map<Identity, Entry>)
    ensures RegistryEvolves(m, m)
  {
  }

  lemma EvolvesTransitive(a: map<Identity, Entry>, b: map<Identity, Entry>, d: map<Identity, Entry>)
    requires RegistryEvolves(a, b) && RegistryEvolves(b, d)
    ensures RegistryEvolves(a, d)
  {
  }

  lemma StepEvolves(c: Contracts, s: System, e: Event)
    requires Sound(c, s)
    ensures RegistryEvolves(AsMap(EntriesOf(s)), AsMap(EntriesOf(Step(c, s, e))))
    ensures |EntriesOf(Step(c, s, e))| == |EntriesOf(s)|
              + if e.Advance? && e.capability.transition.IsFirstReview() && Succeeds(c, s, e) then 1 else 0
    ensures Generation(Step(c, s, e)) == Generation(s) + if e.Advance? && Succeeds(c, s, e) then 1 else 0
    ensures Step(c, s, e).reviewed.document.registry.registryId == s.reviewed.document.registry.registryId
    ensures Step(c, s, e).reviewed.document.registry.audience == s.reviewed.document.registry.audience
  {
    hide AsMap, CanAdvance, CanReplay, CanRotate, Authorized, Minted, ReviewedEstablished, RegistryEvolves, Mint;
    EvolvesReflexive(AsMap(EntriesOf(s)));
    if Succeeds(c, s, e) {
      if e.Advance? {
        AdvanceEvolves(c, s.reviewed, e.expected, s.reviewer, e.capability, e.at);
      } else if e.Replay? {
        ReplayKeepsRegistry(c, s.reviewed, s.reviewer, e.candidate, e.at);
      }
    }
  }

  /** Whole-run reviewed anchor: over any run no identity is lost or duplicated, packages never change,
      stages never go back, tombstones are frozen, no coordinate ever claims two packages, and entries and
      generation grow by exactly the accepted first reviews and advances. */
  lemma {:induction false} RunEvolves(c: Contracts, s: System, run: seq<Event>)
    requires Sound(c, s)
    ensures RegistryEvolves(AsMap(EntriesOf(s)), AsMap(EntriesOf(After(c, s, run))))
    ensures UniqueIdentities(EntriesOf(After(c, s, run))) && UniqueCoordinates(EntriesOf(After(c, s, run)))
    ensures |EntriesOf(After(c, s, run))| == |EntriesOf(s)| + FirstReviews(c, s, run)
    ensures Generation(After(c, s, run)) == Generation(s) + Advances(c, s, run)
    ensures After(c, s, run).reviewed.document.registry.registryId == s.reviewed.document.registry.registryId
    ensures After(c, s, run).reviewed.document.registry.audience == s.reviewed.document.registry.audience
  {
    hide AsMap, Step, RegistryEvolves, Succeeds, UniqueIdentities, UniqueCoordinates;
    AfterSound(c, s, run);
    if run == [] {
      EvolvesReflexive(AsMap(EntriesOf(s)));
    } else {
      var init, last := run[..|run| - 1], run[|run| - 1];
      RunEvolves(c, s, init);
      AfterSound(c, s, init);
      StepEvolves(c, After(c, s, init), last);
      EvolvesTransitive(AsMap(EntriesOf(s)), AsMap(EntriesOf(After(c, s, init))), AsMap(EntriesOf(After(c, s, run))));
    }
  }

  /** Packages never change: whatever happens to an entry in a run, everything that was reviewed about its package
      is afterwards what it was before. */
  lemma PackagesNeverChange(c: Contracts, s: System, run: seq<Event>, id: Identity)
    requires Sound(c, s) && id in AsMap(EntriesOf(s))
    ensures id in AsMap(EntriesOf(After(c, s, run)))
    ensures var before, after := AsMap(EntriesOf(s))[id], AsMap(EntriesOf(After(c, s, run)))[id];
            && after.pack == before.pack && after.packageDigest == before.packageDigest
            && after.supplyChainRecord == before.supplyChainRecord
            && after.manifest == before.manifest && after.content == before.content && after.license == before.license
            && after.fixtures == before.fixtures && after.compatibility == before.compatibility
            && (before.stage.Revoked? || before.stage.Superseded? ==> after == before)
            && (after.stage == before.stage || Level(before.stage) < Level(after.stage))
  {
    hide AsMap, After, UniqueIdentities, UniqueCoordinates, FirstReviews, Advances;
    RunEvolves(c, s, run);
  }

  /** The promotion graph: the next stage of the lifecycle, revocation of anything that is not terminal, and
      supersession of what is reviewed or deprecated. */
  lemma AllowedExactly(step: Transition)
    ensures step.IsAllowed() <==>
            || (Level(step.to) == Level(step.from) + 1 && step.to != Revoked && step.to != Superseded)
            || (step.to.Revoked? && step.from != Revoked && step.from != Superseded)
            || (step.to.Superseded? && (step.from.Reviewed? || step.from.Deprecated?))
    ensures step.IsFirstReview() <==> step == Transition(Validated, Reviewed)
  {
  }

  /** What holds of every entry and of the header in every reachable registry: eligibility tells the stage, one
      package digest per coordinate, a predecessor exactly after the first generation. */
  lemma ReachableRegistry(c: Contracts, s: System, run: seq<Event>)
    requires Sound(c, s)
    ensures var r := After(c, s, run).reviewed.document.registry;
            && (forall e :: e in r.entries ==>
                  && (e.eligibility.EligibleReviewed? <==> e.stage.Reviewed?)
                  && (e.eligibility.IneligibleDeprecated? <==> e.stage.Deprecated?)
                  && (e.eligibility.IneligibleRevoked? <==> e.stage.Revoked?)
                  && (e.eligibility.IneligibleSuperseded? <==> e.stage.Superseded?))
            && (forall i, j :: 0 <= i < j < |r.entries| ==> r.entries[i].pack != r.entries[j].pack)
            && (r.generation == 0 <==> r.previous.None?)
    ensures var doc := After(c, s, run).reviewed.document;
            doc.schemaVersion == "0.3" && c.reviewedShape(doc)
    ensures var doc := After(c, s, run).reviewer.document;
            doc.schemaVersion == "0.3" && c.reviewerShape(doc)
    ensures var r := After(c, s, run).reviewer.document.registry;
            && 0 < r.threshold <= |r.rotationSignatures|
            && (forall i, j :: 0 <= i < j < |r.reviewers| ==>
                  r.reviewers[i].credentialId != r.reviewers[j].credentialId)
            && (r.generation == 0 <==> r.previous.None?)
  {
    hide After, Minted, Certified, SubjectDigest, ReviewerSubjectDigest;
    AfterSound(c, s, run);
    forall e | e in EntriesOf(After(c, s, run)) ensures StageMatchesEligibility(e) {
      var i :| 0 <= i < |EntriesOf(After(c, s, run))| && EntriesOf(After(c, s, run))[i] == e;
    }
  }

  // The reviewer registry over a run -------------------------------------

  /** The registry identity, audience and trust policy stay; threshold and generation never fall; an
      unchanged generation is an unchanged head. */
  predicate ReviewerEvolves(before: ReviewerState, after: ReviewerState) {
    && after.document.registry.registryId == before.document.registry.registryId
    && after.document.registry.audience == before.document.registry.audience
    && after.document.registry.trustPolicy == before.document.registry.trustPolicy
    && after.document.registry.threshold >= before.document.registry.threshold
    && after.document.registry.generation >= before.document.registry.generation
    && (after.document.registry.generation == before.document.registry.generation ==> after == before)
  }

  lemma {:induction false} RunReviewerEvolves(c: Contracts, s: System, run: seq<Event>)
    ensures ReviewerEvolves(s.reviewer, After(c, s, run).reviewer)
  {
    hide CanAdvance, CanReplay, Authorized, Mint, RotationAuthorized, ReviewerValid, ReviewerSubjectDigest;
    if run != [] {
      RunReviewerEvolves(c, s, run[..|run| - 1]);
    }
  }

  /** A credential of the preceding registry that was entitled to authorize the rotation. */
  ghost predicate AuthorizesRotation(credential: Credential, s: RotationSignature,
                                     successor: ReviewerDocument, at: nat) {
    && credential.credentialId == s.credentialId
    && credential.reviewerId == s.signerId
    && credential.status.Active?
    && credential.validFrom <= s.signedAt <= credential.validUntil
    && credential.validFrom <= at <= credential.validUntil
    && credential.publicKey.Some? && credential.keyFingerprint == KeyHash(credential.publicKey.value)
    && Distinct(credential.domains)
    && s.payloadDigest == ReviewerSubjectDigest(successor)
    && s.signature == Signed(credential.publicKey.value,
                             RotationMessage(ReviewerSubjectDigest(successor), s.predecessor, s.signerId,
                                             s.credentialId, s.signedAt))
  }

  /** Distinct principals, credentials, keys and disjoint independence domains. */
  predicate UnrelatedSigners(a: Credential, b: Credential) {
    && a.reviewerId != b.reviewerId
    && a.credentialId != b.credentialId
    && a.publicKey != b.publicKey
    && DisjointDomains(a.domains, b.domains)
  }

  /** A registry authorizer and a different reviewer with another role sit on the panel. */
  ghost predicate PanelRoles(signers: seq<Credential>) {
    exists i, j, role :: 0 <= i < |signers| && 0 <= j < |signers| && signers[i].reviewerId != signers[j].reviewerId
                         && RegistryAuthorizer in signers[i].roles
                         && role in signers[j].roles && role != RegistryAuthorizer
  }

  /** `signers[i]` is the predecessor's credential behind rotation signature `i`. */
  ghost predicate RotationPanel(signers: seq<Credential>, predecessor: ReviewerState,
                                successor: ReviewerDocument, at: nat) {
    var signatures := successor.registry.rotationSignatures;
    && |signers| == |signatures|
    && (forall i :: 0 <= i < |signers| ==>
          signers[i] in predecessor.document.registry.reviewers
          && AuthorizesRotation(signers[i], signatures[i], successor, at)
          && signatures[i].predecessor == Some(predecessor.registryDigest))
    && (forall i, j :: 0 <= i < j < |signers| ==> UnrelatedSigners(signers[i], signers[j]))
    && PanelRoles(signers)
  }

  lemma SignerAuthorizes(c: Contracts, s: ReviewerState, successor: ReviewerDocument,
                         signature: RotationSignature, at: nat)
    requires ReviewerValid(c, successor) && successor.registry.previous == Some(s.registryDigest)
    requires signature in successor.registry.rotationSignatures
    requires RotationSignatureHolds(s.Directory(), successor.registry, ReviewerSubjectDigest(successor), signature, at)
    requires OwnDomainsDistinct(s.Directory(), signature.credentialId)
    ensures signature.credentialId in s.Directory()
    ensures var credential := s.Directory()[signature.credentialId];
            && credential in s.document.registry.reviewers
            && AuthorizesRotation(credential, signature, successor, at)
            && signature.predecessor == Some(s.registryDigest)
  {
  }

  /** The signers' credentials, in the order of the signatures. */
  ghost function Panel(directory: Directory, signatures: seq<RotationSignature>): seq<Credential>
    requires Registered(directory, signatures)
  {
    seq(|signatures|, i requires 0 <= i < |signatures| => directory[signatures[i].credentialId])
  }

  lemma PanelUnrelated(directory: Directory, candidate: ReviewerRegistry, digest: Digest,
                       signatures: seq<RotationSignature>, at: nat)
    requires AllIndependent(directory, candidate, digest, signatures, at)
    requires forall id :: id in directory ==> directory[id].credentialId == id
    ensures Registered(directory, signatures)
    ensures var signers := Panel(directory, signatures);
            forall i, j :: 0 <= i < j < |signers| ==> UnrelatedSigners(signers[i], signers[j])
  {
  }

  lemma PanelSeparated(directory: Directory, candidate: ReviewerRegistry, digest: Digest,
                       signatures: seq<RotationSignature>, at: nat)
    requires AllIndependent(directory, candidate, digest, signatures, at) && SeparatedRoles(directory, signatures)
    requires Registered(directory, signatures)
    ensures PanelRoles(Panel(directory, signatures))
  {
    hide InWindow, IndependentSigners, OwnDomainsDistinct;
    var a, b :| && a in signatures && b in signatures
                && a.credentialId in directory && RegistryAuthorizer in directory[a.credentialId].roles
                && b.credentialId in directory && HasSemanticRole(directory[b.credentialId])
                && a.signerId != b.signerId;
    assert RotationSignatureHolds(directory, candidate, digest, a, at);
    assert RotationSignatureHolds(directory, candidate, digest, b, at);
    var i :| 0 <= i < |signatures| && signatures[i] == a;
    var j :| 0 <= j < |signatures| && signatures[j] == b;
    var signers := Panel(directory, signatures);
    assert signers[i].reviewerId == a.signerId && signers[j].reviewerId == b.signerId;
    var role :| role in directory[b.credentialId].roles && role != RegistryAuthorizer;
  }

  lemma PanelOf(c: Contracts, s: ReviewerState, version: ReviewerVersion, successor: ReviewerDocument, at: nat)
    returns (signers: seq<Credential>)
    requires CanRotate(c, s, version, successor, at)
    ensures RotationPanel(signers, s, successor, at) && |signers| >= s.document.registry.threshold
  {
    hide DirectoryOf, ReviewerSubjectDigest, ReviewerValid, PanelRoles, UnrelatedSigners, AuthorizesRotation,
         SeparatedRoles, IndependentSigners, OwnDomainsDistinct, RotationSignatureHolds;
    var directory, signatures := s.Directory(), successor.registry.rotationSignatures;
    var digest := ReviewerSubjectDigest(successor);
    PanelUnrelated(directory, successor.registry, digest, signatures, at);
    PanelSeparated(directory, successor.registry, digest, signatures, at);
    signers := Panel(directory, signatures);
    forall i | 0 <= i < |signers|
      ensures signers[i] in s.document.registry.reviewers
              && AuthorizesRotation(signers[i], signatures[i], successor, at)
              && signatures[i].predecessor == Some(s.registryDigest)
    {
      assert RotationSignatureHolds(directory, successor.registry, digest, signatures[i], at);
      SignerAuthorizes(c, s, successor, signatures[i], at);
    }
  }

  /** The credential of a panel member is the one its signature is looked up under. */
  lemma PanelFound(c: Contracts, s: ReviewerState, signers: seq<Credential>, successor: ReviewerDocument,
                   at: nat, i: nat)
    requires ReviewerEstablished(c, s) && RotationPanel(signers, s, successor, at) && i < |signers|
    ensures var signature := successor.registry.rotationSignatures[i];
            && signature.credentialId in s.Directory() && s.Directory()[signature.credentialId] == signers[i]
            && AuthorizesRotation(signers[i], signature, successor, at)
  {
    hide DirectoryOf, ReviewerSubjectDigest, AuthorizesRotation, UnrelatedSigners, PanelRoles;
    var signature := successor.registry.rotationSignatures[i];
    assert AuthorizesRotation(signers[i], signature, successor, at);
    NamesCredential(signers[i], signature, successor, at);
    var found := s.Directory()[signature.credentialId];
    var j :| 0 <= j < |s.document.registry.reviewers| && s.document.registry.reviewers[j] == found;
    var k :| 0 <= k < |s.document.registry.reviewers| && s.document.registry.reviewers[k] == signers[i];
  }

  lemma NamesCredential(credential: Credential, s: RotationSignature, successor: ReviewerDocument, at: nat)
    requires AuthorizesRotation(credential, s, successor, at)
    ensures credential.credentialId == s.credentialId && credential.reviewerId == s.signerId
    ensures credential.keyFingerprint == KeyHash(credential.publicKey.value) && credential.publicKey.Some?
  {
  }

  lemma PanelHolds(c: Contracts, s: ReviewerState, signers: seq<Credential>, successor: ReviewerDocument,
                   at: nat, i: nat)
    requires ReviewerEstablished(c, s) && RotationPanel(signers, s, successor, at) && i < |signers|
    requires successor.schemaVersion == LEARNING_SCHEMA_VERSION
    ensures var signature := successor.registry.rotationSignatures[i];
            && RotationSignatureHolds(s.Directory(), successor.registry, ReviewerSubjectDigest(successor),
                                      signature, at)
            && OwnDomainsDistinct(s.Directory(), signature.credentialId)
  {
    hide DirectoryOf, ReviewerSubjectDigest, RotationPanel, ReviewerEstablished;
    PanelFound(c, s, signers, successor, at, i);
    assert successor == ReviewerDocument(LEARNING_SCHEMA_VERSION, successor.registry);
  }

  lemma PanelPair(c: Contracts, s: ReviewerState, signers: seq<Credential>, successor: ReviewerDocument, at: nat,
                  i: nat, j: nat)
    requires ReviewerEstablished(c, s) && RotationPanel(signers, s, successor, at) && i < j < |signers|
    ensures var signatures := successor.registry.rotationSignatures;
            IndependentSigners(s.Directory(), signatures[i], signatures[j])
  {
    hide DirectoryOf, ReviewerSubjectDigest, ReviewerEstablished, AuthorizesRotation, DisjointDomains, PanelRoles;
    var signatures := successor.registry.rotationSignatures;
    PanelFound(c, s, signers, successor, at, i);
    PanelFound(c, s, signers, successor, at, j);
    NamesCredential(signers[i], signatures[i], successor, at);
    NamesCredential(signers[j], signatures[j], successor, at);
    assert UnrelatedSigners(signers[i], signers[j]);
  }

  lemma PanelSeparates(c: Contracts, s: ReviewerState, signers: seq<Credential>, successor: ReviewerDocument, at: nat)
    requires ReviewerEstablished(c, s) && RotationPanel(signers, s, successor, at)
    ensures SeparatedRoles(s.Directory(), successor.registry.rotationSignatures)
  {
    hide DirectoryOf, ReviewerSubjectDigest, ReviewerEstablished, AuthorizesRotation, UnrelatedSigners;
    var signatures := successor.registry.rotationSignatures;
    var i, j, role :| 0 <= i < |signers| && 0 <= j < |signers| && signers[i].reviewerId != signers[j].reviewerId
                      && RegistryAuthorizer in signers[i].roles
                      && role in signers[j].roles && role != RegistryAuthorizer;
    PanelFound(c, s, signers, successor, at, i);
    PanelFound(c, s, signers, successor, at, j);
    NamesCredential(signers[i], signatures[i], successor, at);
    NamesCredential(signers[j], signatures[j], successor, at);
    assert signatures[i] in signatures && signatures[j] in signatures && HasSemanticRole(signers[j]);
  }

  /** A panel is all that rotation asks of the signatures. */
  lemma PanelAuthorizes(c: Contracts, s: ReviewerState, signers: seq<Credential>, successor: ReviewerDocument, at: nat)
    requires ReviewerEstablished(c, s) && RotationPanel(signers, s, successor, at)
    requires successor.schemaVersion == LEARNING_SCHEMA_VERSION
    ensures var digest, signatures := ReviewerSubjectDigest(successor), successor.registry.rotationSignatures;
            && AllIndependent(s.Directory(), successor.registry, digest, signatures, at)
            && SeparatedRoles(s.Directory(), signatures)
  {
    hide DirectoryOf, ReviewerSubjectDigest, ReviewerEstablished, AuthorizesRotation, RotationSignatureHolds,
         OwnDomainsDistinct, IndependentSigners, SeparatedRoles, UnrelatedSigners, PanelRoles;
    var signatures := successor.registry.rotationSignatures;
    forall i | 0 <= i < |signatures|
      ensures RotationSignatureHolds(s.Directory(), successor.registry, ReviewerSubjectDigest(successor),
                                     signatures[i], at)
      ensures OwnDomainsDistinct(s.Directory(), signatures[i].credentialId)
    {
      PanelHolds(c, s, signers, successor, at, i);
    }
    forall i, j | 0 <= i < j < |signatures| ensures IndependentSigners(s.Directory(), signatures[i], signatures[j]) {
      PanelPair(c, s, signers, successor, at, i, j);
    }
    PanelSeparates(c, s, signers, successor, at);
  }

  /** Rotation succeeds exactly for a sealed, well-formed direct successor under the same identity and policy, with no
      lower threshold, that as many members of the present registry as its own threshold asks for have signed, all
      unrelated and with separated roles. */
  lemma RotationExactly(c: Contracts, s: ReviewerState, successor: ReviewerDocument, at: nat)
    requires ReviewerEstablished(c, s)
    ensures var r, next := s.document.registry, successor.registry;
            var version := ReviewerVersion(r.registryId, r.audience, r.generation, s.registryDigest, s.fullDigest,
                                           r.trustPolicy);
            CanRotate(c, s, version, successor, at) <==>
            && successor.schemaVersion == "0.3" && c.reviewerShape(successor)
            && next.registryId == r.registryId && next.audience == r.audience && next.trustPolicy == r.trustPolicy
            && r.threshold <= next.threshold <= |next.rotationSignatures|
            && r.generation < U64_MAX && next.generation == r.generation + 1
            && next.previous == Some(s.registryDigest) && next.registryDigest == ReviewerSubjectDigest(successor)
            && (forall i, j :: 0 <= i < j < |next.reviewers| ==>
                  next.reviewers[i].credentialId != next.reviewers[j].credentialId)
            && exists signers :: RotationPanel(signers, s, successor, at)
  {
    hide DirectoryOf, ReviewerSubjectDigest, RotationPanel, AllIndependent, SeparatedRoles;
    var version := s.Version();
    if CanRotate(c, s, version, successor, at) {
      var signers := PanelOf(c, s, version, successor, at);
    }
    if signers :| RotationPanel(signers, s, successor, at) && successor.schemaVersion == LEARNING_SCHEMA_VERSION {
      PanelAuthorizes(c, s, signers, successor, at);
      PanelPredecessor(signers, s, successor, at);
    }
  }

  lemma PanelPredecessor(signers: seq<Credential>, s: ReviewerState, successor: ReviewerDocument, at: nat)
    requires RotationPanel(signers, s, successor, at)
    ensures forall i :: 0 <= i < |successor.registry.rotationSignatures| ==>
              successor.registry.rotationSignatures[i].predecessor == Some(s.registryDigest)
  {
  }

  /** Rotation authority over a run: every accepted rotation was signed under the immediately preceding registry
      by at least the genesis threshold of unrelated active principals, with separated roles, and the identity
      and trust policy are still those of genesis. */
  lemma RotationAuthority(c: Contracts, s: System, run: seq<Event>, e: Event) returns (signers: seq<Credential>)
    requires e.Rotate? && Succeeds(c, After(c, s, run), e)
    ensures RotationPanel(signers, After(c, s, run).reviewer, e.successor, e.at)
    ensures |signers| >= s.reviewer.document.registry.threshold
    ensures ReviewerEvolves(s.reviewer, ReviewerHead(e.successor))
    ensures e.successor.registry.generation > s.reviewer.document.registry.generation
  {
    hide RotationPanel, RotationAuthorized, ReviewerValid, ReviewerSubjectDigest, After;
    signers := PanelOf(c, After(c, s, run).reviewer, e.version, e.successor, e.at);
    RunReviewerEvolves(c, s, run);
  }

  // The two machines together --------------------------------------------

  /** The state in which event `i` of the run happens. */
  ghost function At(c: Contracts, s: System, run: seq<Event>, i: nat): System
    requires i <= |run|
  {
    After(c, s, run[..i])
  }

  ghost predicate Effective(c: Contracts, s: System, run: seq<Event>, i: nat)
    requires i < |run|
  {
    run[i].Advance? && Succeeds(c, At(c, s, run, i), run[i])
  }

  lemma AtContinues(c: Contracts, s: System, run: seq<Event>, i: nat, j: nat)
    requires i <= j <= |run|
    ensures At(c, s, run, j) == After(c, At(c, s, run, i), run[i..j])
  {
    hide After;
    assert run[..j] == run[..i] + run[i..j];
    AfterSplits(c, s, run[..i], run[i..j]);
  }

  lemma GenerationsBetween(c: Contracts, s: System, run: seq<Event>, i: nat, j: nat)
    requires Sound(c, s) && i <= j <= |run|
    ensures Sound(c, At(c, s, run, i)) && Sound(c, At(c, s, run, j))
    ensures Generation(At(c, s, run, i)) <= Generation(At(c, s, run, j))
    ensures ReviewerEvolves(At(c, s, run, i).reviewer, At(c, s, run, j).reviewer)
  {
    hide After, Sound, Advances, RegistryEvolves, FirstReviews, ReviewerEvolves, UniqueIdentities, UniqueCoordinates;
    AfterSound(c, s, run[..i]);
    AfterSound(c, s, run[..j]);
    AtContinues(c, s, run, i, j);
    RunEvolves(c, At(c, s, run, i), run[i..j]);
    RunReviewerEvolves(c, At(c, s, run, i), run[i..j]);
  }

  /** An effective advance raises the generation for good. */
  lemma AdvanceRaises(c: Contracts, s: System, run: seq<Event>, k: nat, j: nat)
    requires Sound(c, s) && k < j <= |run| && Effective(c, s, run, k)
    ensures Generation(At(c, s, run, k)) < Generation(At(c, s, run, j))
  {
    hide After, Sound, Succeeds, Step, RegistryEvolves, ReviewerEvolves;
    GenerationsBetween(c, s, run, k, j);
    GenerationsBetween(c, s, run, k + 1, j);
    AtContinues(c, s, run, k, k + 1);
    assert run[k..k + 1] == [run[k]];
    OneStep(c, At(c, s, run, k), run[k]);
    StepEvolves(c, At(c, s, run, k), run[k]);
  }

  lemma OneStep(c: Contracts, s: System, e: Event)
    ensures After(c, s, [e]) == Step(c, s, e)
  {
    hide Step;
    assert After(c, s, [e][..0]) == s;
  }

  /** The subject digest of an established head carries its generation. */
  lemma DigestTellsGeneration(c: Contracts, a: System, b: System)
    requires Sound(c, a) && Sound(c, b) && Generation(a) != Generation(b)
    ensures a.reviewed.registryDigest != b.reviewed.registryDigest
    ensures a.reviewed.Version() != b.reviewed.Version()
  {
  }

  /** A version tells its head: established heads with one version are one registry, the reviewer registry whole,
      the reviewed registry up to the authored digest and the signatures. */
  lemma VersionTellsHead(c: Contracts, a: System, b: System)
    requires Sound(c, a) && Sound(c, b)
    ensures a.reviewer.Version() == b.reviewer.Version() <==> a.reviewer == b.reviewer
    ensures var r := b.reviewed.document.registry;
            a.reviewed.Version() == b.reviewed.Version() <==>
            a.reviewed.document == b.reviewed.document.(registry := r.(
                                     registryDigest := a.reviewed.document.registry.registryDigest,
                                     snapshotSignatures := a.reviewed.document.registry.snapshotSignatures))
  {
    hide ReviewedValid, ReviewerValid, SubjectDigest, ReviewerSubjectDigest, Minted, Certified;
    SubjectDigestExact(a.reviewed.document, b.reviewed.document);
  }

  /** A version captured before an effective advance never matches again. */
  lemma VersionNeverReturns(c: Contracts, s: System, run: seq<Event>, i: nat, k: nat, j: nat)
    requires Sound(c, s) && i <= k < j <= |run| && Effective(c, s, run, k)
    ensures At(c, s, run, i).reviewed.Version() != At(c, s, run, j).reviewed.Version()
  {
    hide After, Sound, Succeeds;
    GenerationsBetween(c, s, run, i, k);
    GenerationsBetween(c, s, run, k, j);
    AdvanceRaises(c, s, run, k, j);
    DigestTellsGeneration(c, At(c, s, run, i), At(c, s, run, j));
  }

  /** One signed payload takes effect at most once in any run, however often it is re-minted. */
  lemma PayloadTakesEffectOnce(c: Contracts, s: System, run: seq<Event>, i: nat, j: nat)
    requires Sound(c, s) && i < j < |run| && Effective(c, s, run, i) && Effective(c, s, run, j)
    ensures run[i].capability.payloadDigest != run[j].capability.payloadDigest
  {
    hide After, ReviewedValid, ScanAccepts, SnapshotSigned, ReviewerEstablished, Certified;
    GenerationsBetween(c, s, run, i, j);
    AdvanceRaises(c, s, run, i, j);
    DigestTellsGeneration(c, At(c, s, run, i), At(c, s, run, j));
    assert Minted(c, run[i].capability) && Minted(c, run[j].capability);
  }

  /** A capability verified under the reviewer registry of moment `i` takes effect at `j` only if that
      registry has not rotated in between. */
  lemma NeverAfterRotation(c: Contracts, s: System, run: seq<Event>, i: nat, j: nat)
    requires Sound(c, s) && i <= j < |run| && Effective(c, s, run, j)
    requires run[j].capability.reviewerRegistryDigest == At(c, s, run, i).reviewer.registryDigest
    ensures At(c, s, run, i).reviewer == At(c, s, run, j).reviewer
    ensures forall k :: i <= k < j && run[k].Rotate? ==> !Succeeds(c, At(c, s, run, k), run[k])
  {
    hide After, ReviewedEstablished, ScanAccepts, SnapshotSigned, Minted, ReviewerValid, Certified;
    GenerationsBetween(c, s, run, i, j);
    var before, after := At(c, s, run, i).reviewer, At(c, s, run, j).reviewer;
    assert before.registryDigest == after.registryDigest;
    assert before.registryDigest.reviewer.registry.generation == before.document.registry.generation;
    assert after.registryDigest.reviewer.registry.generation == after.document.registry.generation;
    forall k | i <= k < j && run[k].Rotate? ensures !Succeeds(c, At(c, s, run, k), run[k]) {
      NoRotationBetween(c, s, run, i, k, j);
    }
  }

  lemma NoRotationBetween(c: Contracts, s: System, run: seq<Event>, i: nat, k: nat, j: nat)
    requires Sound(c, s) && i <= k < j <= |run| && run[k].Rotate?
    requires At(c, s, run, i).reviewer == At(c, s, run, j).reviewer
    ensures !Succeeds(c, At(c, s, run, k), run[k])
  {
    hide After, Sound, RotationAuthorized, ReviewerValid, ReviewerSubjectDigest;
    GenerationsBetween(c, s, run, i, k);
    GenerationsBetween(c, s, run, k + 1, j);
    AtContinues(c, s, run, k, k + 1);
    assert run[k..k + 1] == [run[k]];
    OneStep(c, At(c, s, run, k), run[k]);
  }

  // Who stands behind an advance -----------------------------------------

  /** Two unrelated persons of this reviewer registry signed for this proposal and wrote its approving reviews,
      and took no part in the dossier. */
  ghost predicate TwoPersonsBack(reviewer: ReviewerState, cap: Capability, a: Authorization, x: Context) {
    && TwoRegisteredSigners(reviewer.document.registry.reviewers, a, x.now)
    && SignerPersonas(a) == ReviewPersonas(x.reviews)
    && (forall r :: r in x.reviews ==> Approves(r, x, reviewer.registryDigest))
    && (forall s :: s in a.signatures ==> TookNoPart(x.dossier.dossier, s.reviewerId))
    && cap.payloadDigest == PayloadHash(a.payload) && cap.proposed == x.proposed
    && cap.currentDigest == SubjectDigest(x.current)
    && |cap.reviewers| == |a.signatures|
    && (forall i :: 0 <= i < |a.signatures| ==> Records(cap.reviewers[i], a.signatures[i]))
  }

  /** The capability's own record of a signer. */
  predicate Records(v: VerifiedReviewer, s: PromotionSignature) {
    && v.reviewerId == s.reviewerId && v.credentialId == s.credentialId && v.role == s.role
    && v.signatureFingerprint == SignatureHash(s.signature) && v.signedAt == s.signedAt
  }

  /** Established heads with one subject digest register the same reviewers. */
  lemma SameReviewers(c: Contracts, a: ReviewerState, b: ReviewerState)
    requires ReviewerEstablished(c, a) && ReviewerEstablished(c, b) && a.registryDigest == b.registryDigest
    ensures a.document.registry.reviewers == b.document.registry.reviewers
  {
    hide ReviewerValid;
    assert a.registryDigest.reviewer.registry.reviewers == a.document.registry.reviewers;
    assert b.registryDigest.reviewer.registry.reviewers == b.document.registry.reviewers;
  }

  /** Two-person promotion over runs: every advance that takes effect, in any interleaving, was signed by two
      unrelated persons registered in the reviewer registry in force at that moment. */
  lemma AdvanceIsTwoPerson(c: Contracts, s: System, run: seq<Event>, k: nat) returns (a: Authorization, x: Context)
    requires Sound(c, s) && k < |run| && Effective(c, s, run, k)
    ensures TwoPersonsBack(At(c, s, run, k).reviewer, run[k].capability, a, x)
    ensures At(c, s, run, k + 1).reviewed.document == x.proposed
    ensures SnapshotBacked(At(c, s, run, k).reviewer.document.registry.reviewers, x.proposed, run[k].at)
    ensures SubjectDigest(x.current) == At(c, s, run, k).reviewed.registryDigest
  {
    hide After, Authorized, ReviewedEstablished, ReviewerEstablished, Minted, TwoPersonsBack, ScanAccepts,
         SnapshotSigned, SnapshotBacked, SubjectDigest, DirectoryOf;
    var here := At(c, s, run, k);
    GenerationsBetween(c, s, run, k, k + 1);
    AtContinues(c, s, run, k, k + 1);
    assert run[k..k + 1] == [run[k]];
    OneStep(c, here, run[k]);
    var reviewer, b, y, audience :| Certifies(c, run[k].capability, reviewer, b, y, audience);
    CertifiedBacks(c, here.reviewer, run[k].capability, reviewer, b, y, audience);
    SnapshotIsBacked(here.reviewer.document.registry.reviewers, y.proposed, run[k].at);
    a, x := b, y;
  }

  /** And every replay that is taken up changes nothing but the authored digest and the signatures, which are again
      those of two unrelated persons of the reviewer registry in force. */
  lemma ReplayIsTwoPerson(c: Contracts, s: System, run: seq<Event>, k: nat)
    requires Sound(c, s) && k < |run| && run[k].Replay? && Succeeds(c, At(c, s, run, k), run[k])
    ensures SnapshotBacked(At(c, s, run, k).reviewer.document.registry.reviewers, run[k].candidate, run[k].at)
    ensures var before, after := At(c, s, run, k).reviewed.document, At(c, s, run, k + 1).reviewed.document;
            && after == run[k].candidate
            && after == before.(registry := before.registry.(registryDigest := after.registry.registryDigest,
                                                             snapshotSignatures := after.registry.snapshotSignatures))
  {
    hide After, Minted, Certified, SnapshotSigned, SnapshotBacked, SubjectDigest, DirectoryOf, ReviewerEstablished,
         ReviewedValid;
    var here := At(c, s, run, k);
    GenerationsBetween(c, s, run, k, k + 1);
    AtContinues(c, s, run, k, k + 1);
    assert run[k..k + 1] == [run[k]];
    OneStep(c, here, run[k]);
    SnapshotIsBacked(here.reviewer.document.registry.reviewers, run[k].candidate, run[k].at);
    SubjectDigestExact(run[k].candidate, here.reviewed.document);
  }

  /** Every advance that takes effect does what its signed payload says: at a time inside the payload's window,
      under the reviewer registry it names, from the registry it names to the proposal it names. */
  lemma AdvanceKeepsPayload(c: Contracts, s: System, run: seq<Event>, k: nat)
    requires Sound(c, s) && k < |run| && Effective(c, s, run, k)
    ensures run[k].capability.payloadDigest.PayloadHash?
    ensures var p, here, next := run[k].capability.payloadDigest.payload, At(c, s, run, k), At(c, s, run, k + 1);
            && p.issuedAt <= run[k].at <= p.expiresAt
            && p.reviewerRegistryDigest == here.reviewer.registryDigest
            && p.currentDigest == here.reviewed.registryDigest
            && p.proposedDigest == ProposalDigest(next.reviewed.document)
            && ScanAccepts(here.reviewed.document.registry, next.reviewed.document.registry, p.transition)
  {
    hide After, ReviewedEstablished, ReviewerEstablished, ScanAccepts, SnapshotSigned, SubjectDigest, ProposalDigest,
         Certified, ReviewedValid;
    GenerationsBetween(c, s, run, k, k + 1);
    AtContinues(c, s, run, k, k + 1);
    assert run[k..k + 1] == [run[k]];
    OneStep(c, At(c, s, run, k), run[k]);
    assert Minted(c, run[k].capability);
  }

  lemma CertifiedBacks(c: Contracts, inForce: ReviewerState, cap: Capability, reviewer: ReviewerState,
                       a: Authorization, x: Context, audience: string)
    requires ReviewerEstablished(c, inForce) && Certifies(c, cap, reviewer, a, x, audience)
    requires cap.reviewerRegistryDigest == inForce.registryDigest
    ensures TwoPersonsBack(inForce, cap, a, x)
  {
    hide Authorized, ReviewerEstablished, TwoRegisteredSigners, TookNoPart, Approves, SubjectDigest,
         DirectoryOf, SameDigestSet, SignerPersonas, ReviewPersonas;
    SameReviewers(c, inForce, reviewer);
    TwoPersonPromotion(c, reviewer.document.registry.reviewers, reviewer.registryDigest, a, x, audience);
  }

  // Replay and the authored digest ---------------------------------------

  /** Replay never looks at the authored digest: rewriting it keeps an accepted candidate acceptable. */
  lemma ReplayIgnoresAuthoredDigest(c: Contracts, s: ReviewedState, reviewer: ReviewerState,
                                    candidate: ReviewedDocument, authored: Digest, at: nat)
    requires CanReplay(c, s, reviewer, candidate, at)
    requires c.reviewedShape(candidate.(registry := candidate.registry.(registryDigest := authored)))
    ensures CanReplay(c, s, reviewer, candidate.(registry := candidate.registry.(registryDigest := authored)), at)
  {
    hide RoleSigned, EntryDigest, SnapshotPair, UniqueIdentities, UniqueCoordinates, StageMatchesEligibility;
    var other := candidate.(registry := candidate.registry.(registryDigest := authored));
    assert SubjectDigest(other) == SubjectDigest(candidate);
    assert other.registry.entries == candidate.registry.entries;
    assert other.registry.snapshotSignatures == candidate.registry.snapshotSignatures;
    var a, b := candidate.registry.snapshotSignatures[0], candidate.registry.snapshotSignatures[1];
    assert SnapshotMessageOf(other, a) == SnapshotMessageOf(candidate, a);
    assert SnapshotMessageOf(other, b) == SnapshotMessageOf(candidate, b);
  }

  /** The same head with its authored digest field set to the anchored digest. */
  function Repaired(s: ReviewedState): ReviewedState {
    s.(document := s.document.(registry := s.document.registry.(registryDigest := s.registryDigest)))
  }

  /** Yet an advance compares the successor's predecessor both with the anchored digest and with the authored
      field: it succeeds exactly when it would on the repaired head and the two fields agree. */
  lemma AdvanceNeedsAuthoredDigest(s: ReviewedState, expected: ReviewedVersion, reviewer: ReviewerState,
                                   cap: Capability, at: nat)
    ensures CanAdvance(s, expected, reviewer, cap, at) <==>
            CanAdvance(Repaired(s), expected, reviewer, cap, at)
            && s.document.registry.registryDigest == s.registryDigest
  {
  }

  /** What is authorized takes effect: a capability minted for the present head, inside its window and with
      current snapshot signatures, advances the registry to its proposal exactly when the stored authored digest
      is the anchored one. */
  lemma AuthorizedTakesEffect(c: Contracts, s: System, a: Authorization, x: Context, audience: string, at: nat)
    requires Sound(c, s) && Succeeds(c, s, MintCapability(a, x, audience))
    requires SubjectDigest(x.current) == s.reviewed.registryDigest
    requires a.payload.issuedAt <= at <= a.payload.expiresAt && SnapshotSigned(s.reviewer.Directory(), x.proposed, at)
    ensures var cap := Mint(s.reviewer.Directory(), s.reviewer.registryDigest, a, x);
            var minted := Step(c, s, MintCapability(a, x, audience));
            var advance := Advance(s.reviewed.Version(), cap, at);
            && (Succeeds(c, minted, advance)
                <==> s.reviewed.document.registry.registryDigest == s.reviewed.registryDigest)
            && (Succeeds(c, minted, advance) ==> Step(c, minted, advance).reviewed.document == x.proposed)
  {
    hide GraphBound, SignersAccepted, DossierBound, SnapshotSigned, ReviewedValid, ReviewerEstablished, SubjectDigest,
         FullDigest, Signers, AllPreserved, AuthorizedChange, Changed, Appended, EntriesCanonical, PromotedEntry,
         Minted, Certified;
    SubjectDigestExact(x.current, s.reviewed.document);
    BoundRegistries(c, s.reviewer.registryDigest, a, x, audience);
  }

  lemma BoundRegistries(c: Contracts, reviewerDigest: Digest, a: Authorization, x: Context, audience: string)
    requires GraphBound(c, reviewerDigest, a, x, audience)
    ensures x.current.registry.registryDigest == SubjectDigest(x.current)
            && a.payload.reviewerRegistryDigest == reviewerDigest
  {
    hide DocumentsValid, PayloadCurrent, DecisionBound, EvidenceBound, ReviewsBound, SubjectDigest;
  }

  /** Honest promotion takes effect: on every sound system whose stored head is sealed, the honestly built graph of
      any allowed step is minted and its advance publishes the proposal. */
  lemma HonestTakesEffect(c: Contracts, s: System, h: Draft)
    requires Sound(c, s)
    requires h.reviewers == s.reviewer.document.registry.reviewers && h.reviewerDigest == s.reviewer.registryDigest
    requires h.current == s.reviewed.document
    requires ReviewersFit(h) && TargetFits(h) && DossierFits(h) && CurrentFits(c, h) && ShapesFit(c, h)
    ensures var mint := MintCapability(h.TheAuthorization(), h.TheContext(), h.audience);
            var cap := Mint(s.reviewer.Directory(), s.reviewer.registryDigest, h.TheAuthorization(), h.TheContext());
            var head := s.reviewed.document.registry;
            var advance := Advance(ReviewedVersion(head.registryId, head.audience, head.generation,
                                                   s.reviewed.registryDigest), cap, h.now);
            && Succeeds(c, s, mint) && Succeeds(c, Step(c, s, mint), advance)
            && Step(c, Step(c, s, mint), advance).reviewed.document == h.Published()
  {
    hide Authorized, SnapshotSigned, ReviewersFit, TargetFits, SameDigestSet, ShapesFit, SubjectDigest,
         Draft.Published, ReviewedValid, Mint, EntriesCanonical, Certified, Minted, ReviewerEstablished, CanAdvance;
    HonestIsAuthorized(c, h);
    HonestIsSigned(c, h);
    AuthorizedTakesEffect(c, s, h.TheAuthorization(), h.TheContext(), h.audience, h.now);
  }

  /** So one accepted replay can leave the anchor unable to advance: rewrite the authored digest of any
      acceptable candidate, and no advance succeeds on the resulting head. */
  lemma ReplayCanBlockAdvance(c: Contracts, s: System, candidate: ReviewedDocument, authored: Digest, at: nat)
    requires Succeeds(c, s, Replay(candidate, at)) && authored != s.reviewed.registryDigest
    requires c.reviewedShape(candidate.(registry := candidate.registry.(registryDigest := authored)))
    ensures var replay := Replay(candidate.(registry := candidate.registry.(registryDigest := authored)), at);
            && Succeeds(c, s, replay)
            && forall e: Event :: e.Advance? ==> !Succeeds(c, Step(c, s, replay), e)
  {
    hide CanAdvance, CanReplay;
    ReplayIgnoresAuthoredDigest(c, s.reviewed, s.reviewer, candidate, authored, at);
    var replay := Replay(candidate.(registry := candidate.registry.(registryDigest := authored)), at);
    var next := Step(c, s, replay);
    forall e: Event | e.Advance? ensures !Succeeds(c, next, e) {
      AdvanceNeedsAuthoredDigest(next.reviewed, e.expected, next.reviewer, e.capability, e.at);
    }
  }

  /** And a later replay that authors the anchored digest unblocks it: what the repaired head could do, it can. */
  lemma ReplayCanUnblockAdvance(c: Contracts, s: System, candidate: ReviewedDocument, at: nat,
                                expected: ReviewedVersion, cap: Capability, later: nat)
    requires Succeeds(c, s, Replay(candidate, at)) && candidate.registry.registryDigest == s.reviewed.registryDigest
    ensures var next := Step(c, s, Replay(candidate, at));
            && next.reviewed.document.registry.registryDigest == next.reviewed.registryDigest
            && (CanAdvance(next.reviewed, expected, next.reviewer, cap, later) <==>
                CanAdvance(Repaired(next.reviewed), expected, next.reviewer, cap, later))
  {
    hide CanAdvance, CanReplay;
    AdvanceNeedsAuthoredDigest(Step(c, s, Replay(candidate, at)).reviewed, expected, s.reviewer, cap, later);
  }
}
