/** Reviewer credentials and the signatures they make: promotion signatures, reviewed-registry
    snapshot signatures, and predecessor-authorized rotation of the reviewer registry itself. */
module Reviewers {
  import opened Lists
  import opened PromotionModel

  // Credentials ----------------------------------------------------------

  type Directory = map<string, Credential>

  /** What `iter().find(|entry| entry.credential_id == id)` finds, for every id: the first such entry. */
  function DirectoryOf(reviewers: seq<Credential>): (d: Directory)
    ensures forall id :: id in d ==> d[id] in reviewers && d[id].credentialId == id
    ensures forall c :: c in reviewers ==> c.credentialId in d
  {
    if reviewers == [] then map[]
    else
      assert reviewers == [reviewers[0]] + reviewers[1..];
      DirectoryOf(reviewers[1..])[reviewers[0].credentialId := reviewers[0]]
  }

  predicate InWindow(credential: Credential, t: nat) {
    credential.validFrom <= t <= credential.validUntil
  }

  /** The registered credential `id` can speak for `reviewerId` at both times, and its key text is sound. */
  predicate Vouches(directory: Directory, id: string, reviewerId: string, signedAt: nat, now: nat) {
    && id in directory
    && directory[id].status.Active?
    && directory[id].reviewerId == reviewerId
    && InWindow(directory[id], signedAt)
    && InWindow(directory[id], now)
    && directory[id].publicKey.Some?
    && directory[id].keyFingerprint == KeyHash(directory[id].publicKey.value)
  }

  /** `validate_credential` */
  function ValidateCredential(credential: Credential, reviewerId: string, role: Role, signedAt: nat, now: nat)
    : (r: Result<(), Error>)
    ensures r.Ok? <==> && credential.status.Active?
                       && role in credential.roles
                       && credential.reviewerId == reviewerId
                       && InWindow(credential, signedAt)
                       && InWindow(credential, now)
  {
    if !credential.status.Active? then Err(CredentialNotActive)
    else if role !in credential.roles then Err(CredentialRoleMismatch)
    else if credential.reviewerId != reviewerId then Err(CredentialPrincipalMismatch)
    else if !InWindow(credential, signedAt) || !InWindow(credential, now) then Err(CredentialOutsideValidity)
    else Ok(())
  }

  /** The key, fingerprint and detached-signature checks that end every signature verification. */
  function VerifyDetached(credential: Credential, message: Message, signature: Signature): (r: Result<(), Error>)
    ensures r.Ok? <==> && credential.publicKey.Some?
                       && credential.keyFingerprint == KeyHash(credential.publicKey.value)
                       && signature == Signed(credential.publicKey.value, message)
  {
    match credential.publicKey
    case None => Err(PublicKeyDecode)
    case Some(key) =>
      if credential.keyFingerprint != KeyHash(key) then Err(PublicKeyFingerprintMismatch)
      else if signature != Signed(key, message) then Err(SignatureInvalid)
      else Ok(())
  }

  // Two-person signatures ------------------------------------------------

  datatype VerifiedReviewer = VerifiedReviewer(
    reviewerId: string, credentialId: string, role: Role, domains: seq<string>, keyFingerprint: Digest,
    signatureFingerprint: Digest, signedAt: nat)

  /** The verified reviewer behind a signature; an unregistered signer has no domains and no key. */
  function RegisteredReviewer(directory: Directory, reviewerId: string, credentialId: string, role: Role,
                              signature: Signature, signedAt: nat): VerifiedReviewer
  {
    var registered := credentialId in directory;
    VerifiedReviewer(reviewerId, credentialId, role, if registered then directory[credentialId].domains else [],
                     if registered then directory[credentialId].keyFingerprint else BLANK, SignatureHash(signature),
                     signedAt)
  }

  /** A role signature over `message` that the registry's own key for `credentialId` made. */
  predicate RoleSigned(directory: Directory, reviewerId: string, credentialId: string, role: Role,
                       message: Message, signature: Signature, signedAt: nat, now: nat)
  {
    && Vouches(directory, credentialId, reviewerId, signedAt, now)
    && role in directory[credentialId].roles
    && signature == Signed(directory[credentialId].publicKey.value, message)
  }

  /** The shared body of `verify_promotion_signature` and of the snapshot-signature loop. */
  function VerifyRoleSignature(directory: Directory, reviewerId: string, credentialId: string, role: Role,
                               message: Message, signature: Signature, signedAt: nat, now: nat)
    : (r: Result<VerifiedReviewer, Error>)
    ensures r.Ok? <==> RoleSigned(directory, reviewerId, credentialId, role, message, signature, signedAt, now)
    ensures r.Ok? ==> r.value == VerifiedReviewer(
                        reviewerId, credentialId, role, directory[credentialId].domains,
                        KeyHash(directory[credentialId].publicKey.value), SignatureHash(signature), signedAt)
  {
    if credentialId !in directory then Err(CredentialNotFound)
    else
      var credential := directory[credentialId];
      var usable := ValidateCredential(credential, reviewerId, role, signedAt, now);
      if usable.Err? then Err(usable.error)
      else
        var detached := VerifyDetached(credential, message, signature);
        if detached.Err? then Err(detached.error)
        else Ok(VerifiedReviewer(reviewerId, credentialId, role, credential.domains, credential.keyFingerprint,
                                 SignatureHash(signature), signedAt))
  }

  predicate DisjointDomains(a: seq<string>, b: seq<string>) {
    forall d :: d in a ==> d !in b
  }

  /** Exactly two reviewers, an authorizer and a semantic reviewer, with nothing in common. */
  predicate TwoPersons(reviewers: seq<VerifiedReviewer>) {
    && |reviewers| == 2
    && var a, b := reviewers[0], reviewers[1];
       && a.role != b.role
       && (a.role.RegistryAuthorizer? || b.role.RegistryAuthorizer?)
       && a.reviewerId != b.reviewerId
       && a.credentialId != b.credentialId
       && a.keyFingerprint != b.keyFingerprint
       && a.signatureFingerprint != b.signatureFingerprint
       && DisjointDomains(a.domains, b.domains)
  }

  /** `require_promotion_reviewer_separation` */
  function RequireSeparation(reviewers: seq<VerifiedReviewer>): (r: Result<(), Error>)
    ensures r.Ok? <==> TwoPersons(reviewers)
  {
    if |reviewers| != 2 then Err(SeparationViolation)
    else
      var a, b := reviewers[0], reviewers[1];
      var roles := {a.role, b.role};
      assert (exists role :: role in roles && Semantic(role)) <==> Semantic(a.role) || Semantic(b.role);
      if RegistryAuthorizer !in roles || !(exists role :: role in roles && Semantic(role)) then Err(SeparationViolation)
      else if a.reviewerId == b.reviewerId then Err(SeparationViolation)
      else if a.credentialId == b.credentialId then Err(SeparationViolation)
      else if a.role == b.role then Err(SeparationViolation)
      else if a.keyFingerprint == b.keyFingerprint then Err(SeparationViolation)
      else if a.signatureFingerprint == b.signatureFingerprint then Err(SeparationViolation)
      else if exists d :: d in a.domains && d in b.domains then Err(SeparationViolation)
      else Ok(())
  }

  // Snapshot signatures --------------------------------------------------

  function SnapshotMessageOf(doc: ReviewedDocument, s: SnapshotSignature): Message {
    SnapshotMessage(SubjectDigest(doc), s.reviewerId, s.credentialId, s.role, s.signedAt)
  }

  predicate SnapshotSignatureHolds(directory: Directory, doc: ReviewedDocument, s: SnapshotSignature, now: nat) {
    && s.payloadDigest == SubjectDigest(doc)
    && RoleSigned(directory, s.reviewerId, s.credentialId, s.role, SnapshotMessageOf(doc, s), s.signature,
                  s.signedAt, now)
  }

  /** The two snapshot signers hold distinct roles, identities, keys and domains. */
  predicate SnapshotPair(directory: Directory, a: SnapshotSignature, b: SnapshotSignature)
  {
    && a.credentialId in directory && b.credentialId in directory
    && a.role != b.role && (a.role.RegistryAuthorizer? || b.role.RegistryAuthorizer?)
    && a.reviewerId != b.reviewerId
    && a.credentialId != b.credentialId
    && directory[a.credentialId].keyFingerprint != directory[b.credentialId].keyFingerprint
    && DisjointDomains(directory[a.credentialId].domains, directory[b.credentialId].domains)
  }

  /** What snapshot verification accepts: canonical entries, and exactly two separated registered signers
      of this registry's subject. */
  predicate SnapshotSigned(directory: Directory, doc: ReviewedDocument, now: nat) {
    var signatures := doc.registry.snapshotSignatures;
    && (forall i :: 0 <= i < |doc.registry.entries| ==>
          doc.registry.entries[i].entryDigest == EntryDigest(doc.registry.entries[i]))
    && |signatures| == 2
    && SnapshotSignatureHolds(directory, doc, signatures[0], now)
    && SnapshotSignatureHolds(directory, doc, signatures[1], now)
    && SnapshotPair(directory, signatures[0], signatures[1])
  }

  /** The pass over the entries that opens `verify_reviewed_registry_snapshot_signatures`. */
  method CheckEntryDigests(entries: seq<Entry>) returns (ok: bool)
    ensures ok <==> forall i :: 0 <= i < |entries| ==> entries[i].entryDigest == EntryDigest(entries[i])
  {
    for i := 0 to |entries|
      invariant forall k :: 0 <= k < i ==> entries[k].entryDigest == EntryDigest(entries[k])
    {
      if entries[i].entryDigest != EntryDigest(entries[i]) {
        return false;
      }
    }
    return true;
  }

  function ReviewerOf(directory: Directory, s: SnapshotSignature): VerifiedReviewer {
    RegisteredReviewer(directory, s.reviewerId, s.credentialId, s.role, s.signature, s.signedAt)
  }

  /** Separation of the two verified signers is separation of the two registered credentials; equal
      signature values carry one signer, so they never occur in a separated pair. */
  lemma PairIsTwoPersons(directory: Directory, doc: ReviewedDocument, a: SnapshotSignature, b: SnapshotSignature,
                         now: nat)
    requires SnapshotSignatureHolds(directory, doc, a, now) && SnapshotSignatureHolds(directory, doc, b, now)
    ensures TwoPersons([ReviewerOf(directory, a), ReviewerOf(directory, b)]) <==> SnapshotPair(directory, a, b)
    ensures SnapshotPair(directory, a, b) ==> a.signature != b.signature
  {
  }

  /** One turn of the snapshot-signature loop, after the duplicate check. */
  function VerifySnapshotSignature(directory: Directory, doc: ReviewedDocument, s: SnapshotSignature, now: nat)
    : (r: Result<VerifiedReviewer, Error>)
    ensures r.Ok? <==> SnapshotSignatureHolds(directory, doc, s, now)
    ensures r.Ok? ==> r.value == ReviewerOf(directory, s)
  {
    if s.payloadDigest != SubjectDigest(doc) then Err(PayloadDigestMismatch)
    else VerifyRoleSignature(directory, s.reviewerId, s.credentialId, s.role, SnapshotMessageOf(doc, s), s.signature,
                             s.signedAt, now)
  }

  predicate DistinctValues(signatures: seq<SnapshotSignature>) {
    forall i, j :: 0 <= i < j < |signatures| ==> signatures[i].signature != signatures[j].signature
  }

  /** The snapshot-signature loop. */
  method VerifyEachSnapshotSignature(directory: Directory, doc: ReviewedDocument,
                                     signatures: seq<SnapshotSignature>, now: nat)
    returns (r: Result<seq<VerifiedReviewer>, Error>)
    ensures r.Ok? <==> && DistinctValues(signatures)
                       && forall k :: 0 <= k < |signatures| ==>
                            SnapshotSignatureHolds(directory, doc, signatures[k], now)
    ensures r.Ok? ==> && |r.value| == |signatures|
                      && forall k :: 0 <= k < |signatures| ==> r.value[k] == ReviewerOf(directory, signatures[k])
  {
    hide SnapshotSignatureHolds, SubjectDigest;
    var verified: seq<VerifiedReviewer> := [];
    var values: set<Signature> := {};
    for i := 0 to |signatures|
      invariant |verified| == i
      invariant values == set k | 0 <= k < i :: signatures[k].signature
      invariant DistinctValues(signatures[..i])
      invariant forall k :: 0 <= k < i ==> SnapshotSignatureHolds(directory, doc, signatures[k], now)
      invariant forall k :: 0 <= k < i ==> verified[k] == ReviewerOf(directory, signatures[k])
    {
      if signatures[i].signature in values {
        return Err(DuplicateSignature);
      }
      values := values + {signatures[i].signature};
      var one := VerifySnapshotSignature(directory, doc, signatures[i], now);
      if one.Err? {
        return Err(one.error);
      }
      verified := verified + [one.value];
    }
    assert signatures[..|signatures|] == signatures;
    return Ok(verified);
  }

  /** `verify_reviewed_registry_snapshot_signatures` */
  method VerifySnapshotSignatures(directory: Directory, doc: ReviewedDocument, now: nat)
    returns (r: Result<(), Error>)
    ensures r.Ok? <==> SnapshotSigned(directory, doc, now)
  {
    hide RoleSigned, SubjectDigest, EntryDigest, TwoPersons, ReviewerOf, SnapshotPair;
    var canonical := CheckEntryDigests(doc.registry.entries);
    if !canonical {
      return Err(EvolutionRejected);
    }
    var signatures := doc.registry.snapshotSignatures;
    if SnapshotSigned(directory, doc, now) {
      PairIsTwoPersons(directory, doc, signatures[0], signatures[1], now);
    }
    var each := VerifyEachSnapshotSignature(directory, doc, signatures, now);
    if each.Err? {
      return Err(each.error);
    }
    if |signatures| == 2 {
      PairIsTwoPersons(directory, doc, signatures[0], signatures[1], now);
      assert each.value == [ReviewerOf(directory, signatures[0]), ReviewerOf(directory, signatures[1])];
    }
    r := RequireSeparation(each.value);
  }

  // Rotation of the reviewer registry ------------------------------------

  function RotationMessageOf(candidate: ReviewerRegistry, s: RotationSignature): Message {
    RotationMessage(ReviewerSubjectDigest(ReviewerDocument(LEARNING_SCHEMA_VERSION, candidate)), s.predecessor,
                    s.signerId, s.credentialId, s.signedAt)
  }

  /** One rotation signature, made by the predecessor's own active credential. */
  predicate RotationSignatureHolds(directory: Directory, candidate: ReviewerRegistry, digest: Digest,
                                   s: RotationSignature, now: nat)
  {
    && s.payloadDigest == digest
    && Vouches(directory, s.credentialId, s.signerId, s.signedAt, now)
    && s.signature == Signed(directory[s.credentialId].publicKey.value, RotationMessageOf(candidate, s))
  }

  /** The checks on one rotation signature, in the source's order. */
  function VerifyRotationSignature(directory: Directory, candidate: ReviewerRegistry, digest: Digest,
                                   s: RotationSignature, now: nat): (r: Result<Credential, Error>)
    ensures r.Ok? <==> RotationSignatureHolds(directory, candidate, digest, s, now)
    ensures r.Err? ==> !r.error.CompareAndSwapConflict?
    ensures r.Ok? ==> r.value == directory[s.credentialId]
  {
    if s.payloadDigest != digest then Err(PayloadDigestMismatch)
    else if s.credentialId !in directory then Err(CredentialNotFound)
    else
        var credential := directory[s.credentialId];
        if credential.reviewerId != s.signerId then Err(CredentialPrincipalMismatch)
        else if !credential.status.Active? then Err(CredentialNotActive)
        else if !InWindow(credential, s.signedAt) || !InWindow(credential, now) then Err(CredentialOutsideValidity)
        else
          var detached := VerifyDetached(credential, RotationMessageOf(candidate, s), s.signature);
          if detached.Err? then Err(detached.error) else Ok(credential)
  }

  predicate HasSemanticRole(credential: Credential) {
    exists role :: role in credential.roles && Semantic(role)
  }

  /** Two rotation signers share no principal, credential, key or independence domain. */
  predicate IndependentSigners(directory: Directory, a: RotationSignature, b: RotationSignature)
  {
    && a.credentialId in directory && b.credentialId in directory
    && a.signerId != b.signerId
    && a.credentialId != b.credentialId
    && directory[a.credentialId].keyFingerprint != directory[b.credentialId].keyFingerprint
    && DisjointDomains(directory[a.credentialId].domains, directory[b.credentialId].domains)
  }

  /** A registered credential that lists no independence domain twice. */
  predicate OwnDomainsDistinct(directory: Directory, id: string) {
    id in directory && DomainsListedOnce(directory[id].domains)
  }

  predicate DomainsListedOnce(domains: seq<string>) {
    forall i, j :: 0 <= i < j < |domains| ==> domains[i] != domains[j]
  }

  /** A registry authorizer and a different semantic reviewer are among the signers. */
  ghost predicate SeparatedRoles(directory: Directory, signatures: seq<RotationSignature>) {
    exists a, b ::
      && a in signatures && b in signatures
      && a.credentialId in directory && RegistryAuthorizer in directory[a.credentialId].roles
      && b.credentialId in directory && HasSemanticRole(directory[b.credentialId])
      && a.signerId != b.signerId
  }

  /** What rotation verification accepts. */
  ghost predicate RotationAuthorized(directory: Directory, threshold: nat, candidate: ReviewerRegistry, digest: Digest,
                                     now: nat)
  {
    && AllIndependent(directory, candidate, digest, candidate.rotationSignatures, now)
    && |candidate.rotationSignatures| >= threshold
    && SeparatedRoles(directory, candidate.rotationSignatures)
  }

  /** Insert one credential's domains into the domains seen so far; fail on the first repetition. */
  method InsertDomains(seen: set<string>, domains: seq<string>) returns (once: bool, all: set<string>)
    ensures once <==> DomainsListedOnce(domains) && forall d :: d in domains ==> d !in seen
    ensures once ==> all == seen + Elements(domains)
  {
    all := seen;
    for i := 0 to |domains|
      invariant all == seen + Elements(domains[..i])
      invariant DomainsListedOnce(domains[..i])
      invariant forall k :: 0 <= k < i ==> domains[k] !in seen
    {
      assert domains[..i + 1] == domains[..i] + [domains[i]];
      if domains[i] in all {
        if domains[i] !in seen {
          var k :| 0 <= k < i && domains[k] == domains[i];
        }
        return false, all;
      }
      all := all + {domains[i]};
    }
    assert domains[..|domains|] == domains;
    return true, all;
  }

  /** The sets that the rotation loop grows. */
  datatype Tally = Tally(principals: set<string>, credentials: set<string>, keys: set<Digest>, values: set<Signature>,
                         domains: set<string>, authorizers: set<string>, semantics: set<string>)

  ghost predicate CountsNames(t: Tally, done: seq<RotationSignature>) {
    && (forall p :: p in t.principals <==> exists s :: s in done && s.signerId == p)
    && (forall c :: c in t.credentials <==> exists s :: s in done && s.credentialId == c)
    && (forall v :: v in t.values <==> exists s :: s in done && s.signature == v)
  }

  ghost predicate Registered(directory: Directory, done: seq<RotationSignature>) {
    forall s :: s in done ==> s.credentialId in directory
  }

  ghost predicate CountsKeys(t: Tally, directory: Directory, done: seq<RotationSignature>)
    requires Registered(directory, done)
  {
    && (forall k :: k in t.keys <==> exists s :: s in done && directory[s.credentialId].keyFingerprint == k)
    && (forall d :: d in t.domains <==> exists s :: s in done && d in directory[s.credentialId].domains)
  }

  ghost predicate CountsRoles(t: Tally, directory: Directory, done: seq<RotationSignature>)
    requires Registered(directory, done)
  {
    && (forall p :: p in t.authorizers <==>
          exists s :: s in done && s.signerId == p && RegistryAuthorizer in directory[s.credentialId].roles)
    && (forall p :: p in t.semantics <==>
          exists s :: s in done && s.signerId == p && HasSemanticRole(directory[s.credentialId]))
  }

  /** `t` has counted exactly the signatures `done`. */
  ghost predicate Counts(t: Tally, directory: Directory, done: seq<RotationSignature>) {
    Registered(directory, done) && CountsNames(t, done) && CountsKeys(t, directory, done)
    && CountsRoles(t, directory, done)
  }

  function Count(t: Tally, s: RotationSignature, credential: Credential): Tally {
    Tally(t.principals + {s.signerId}, t.credentials + {s.credentialId}, t.keys + {credential.keyFingerprint},
          t.values + {s.signature}, t.domains + Elements(credential.domains),
          if RegistryAuthorizer in credential.roles then t.authorizers + {s.signerId} else t.authorizers,
          if HasSemanticRole(credential) then t.semantics + {s.signerId} else t.semantics)
  }

  lemma CountNames(t: Tally, s: RotationSignature, credential: Credential, done: seq<RotationSignature>)
    requires CountsNames(t, done)
    ensures CountsNames(Count(t, s, credential), done + [s])
  {
  }

  lemma CountKeys(t: Tally, s: RotationSignature, directory: Directory, done: seq<RotationSignature>)
    requires s.credentialId in directory && Registered(directory, done) && CountsKeys(t, directory, done)
    ensures Registered(directory, done + [s])
            && CountsKeys(Count(t, s, directory[s.credentialId]), directory, done + [s])
  {
  }

  lemma CountRoles(t: Tally, s: RotationSignature, directory: Directory, done: seq<RotationSignature>)
    requires s.credentialId in directory && Registered(directory, done) && CountsRoles(t, directory, done)
    ensures Registered(directory, done + [s])
            && CountsRoles(Count(t, s, directory[s.credentialId]), directory, done + [s])
  {
  }

  /** Count one more verified signature, or refuse it as not independent of those counted. */
  method Admit(t: Tally, s: RotationSignature, credential: Credential, ghost directory: Directory,
               ghost done: seq<RotationSignature>) returns (ok: bool, t': Tally)
    requires Counts(t, directory, done) && s.credentialId in directory && credential == directory[s.credentialId]
    requires forall q :: q in done && q.signature == s.signature ==> q.credentialId == s.credentialId
    ensures ok <==> DomainsListedOnce(credential.domains)
                    && forall q :: q in done ==> IndependentSigners(directory, q, s)
    ensures ok ==> Counts(t', directory, done + [s])
  {
    t' := t;
    if s.signerId in t.principals || s.credentialId in t.credentials || credential.keyFingerprint in t.keys
       || s.signature in t.values {
      return false, t;
    }
    var once, _ := InsertDomains(t.domains, credential.domains);
    if !once {
      return false, t;
    }
    CountNames(t, s, credential, done);
    CountKeys(t, s, directory, done);
    CountRoles(t, s, directory, done);
    return true, Count(t, s, credential);
  }

  lemma RolesSeparated(t: Tally, directory: Directory, signatures: seq<RotationSignature>)
    requires Registered(directory, signatures) && CountsRoles(t, directory, signatures)
    ensures (exists a, b :: a in t.authorizers && b in t.semantics && b != a) <==> SeparatedRoles(directory, signatures)
  {
    if a, b :| a in t.authorizers && b in t.semantics && b != a {
      var x :| x in signatures && x.signerId == a && RegistryAuthorizer in directory[x.credentialId].roles;
      var y :| y in signatures && y.signerId == b && HasSemanticRole(directory[y.credentialId]);
    }
    if SeparatedRoles(directory, signatures) {
      var a, b :| && a in signatures && b in signatures
                  && a.credentialId in directory && RegistryAuthorizer in directory[a.credentialId].roles
                  && b.credentialId in directory && HasSemanticRole(directory[b.credentialId])
                  && a.signerId != b.signerId;
      assert a.signerId in t.authorizers && b.signerId in t.semantics;
    }
  }

  /** Every rotation signature verifies, and the signers are pairwise independent. */
  ghost predicate AllIndependent(directory: Directory, candidate: ReviewerRegistry, digest: Digest,
                                 signatures: seq<RotationSignature>, now: nat)
  {
    && (forall i :: 0 <= i < |signatures| ==>
          && RotationSignatureHolds(directory, candidate, digest, signatures[i], now)
          && OwnDomainsDistinct(directory, signatures[i].credentialId))
    && (forall i, j :: 0 <= i < j < |signatures| ==> IndependentSigners(directory, signatures[i], signatures[j]))
  }

  lemma AllIndependentExtends(directory: Directory, candidate: ReviewerRegistry, digest: Digest,
                              done: seq<RotationSignature>, s: RotationSignature, now: nat)
    requires AllIndependent(directory, candidate, digest, done, now)
    ensures AllIndependent(directory, candidate, digest, done + [s], now) <==>
            && RotationSignatureHolds(directory, candidate, digest, s, now)
            && OwnDomainsDistinct(directory, s.credentialId)
            && forall q :: q in done ==> IndependentSigners(directory, q, s)
  {
    hide RotationSignatureHolds, IndependentSigners, OwnDomainsDistinct;
    var all := done + [s];
    assert forall i :: 0 <= i < |done| ==> all[i] == done[i];
    assert all[|done|] == s;
    if AllIndependent(directory, candidate, digest, all, now) {
      forall q | q in done ensures IndependentSigners(directory, q, s) {
        var i :| 0 <= i < |done| && done[i] == q;
        assert IndependentSigners(directory, all[i], all[|done|]);
      }
    }
  }

  lemma AllIndependentPrefix(directory: Directory, candidate: ReviewerRegistry, digest: Digest,
                             signatures: seq<RotationSignature>, i: nat, now: nat)
    requires AllIndependent(directory, candidate, digest, signatures, now) && i <= |signatures|
    ensures AllIndependent(directory, candidate, digest, signatures[..i], now)
  {
  }

  lemma NothingCounted(directory: Directory, candidate: ReviewerRegistry, digest: Digest, now: nat)
    ensures Counts(Tally({}, {}, {}, {}, {}, {}, {}), directory, [])
    ensures AllIndependent(directory, candidate, digest, [], now)
  {
  }

  /** A rotation signature names the credential that made it. */
  lemma SameValueSameCredential(directory: Directory, candidate: ReviewerRegistry, digest: Digest,
                                done: seq<RotationSignature>, s: RotationSignature, now: nat)
    requires AllIndependent(directory, candidate, digest, done, now)
    requires RotationSignatureHolds(directory, candidate, digest, s, now)
    ensures forall q :: q in done && q.signature == s.signature ==> q.credentialId == s.credentialId
  {
  }

  /** The rotation-signature loop. */
  method CountRotationSignatures(directory: Directory, candidate: ReviewerRegistry, digest: Digest, now: nat)
    returns (r: Result<Tally, Error>)
    ensures r.Ok? <==> AllIndependent(directory, candidate, digest, candidate.rotationSignatures, now)
    ensures r.Err? ==> !r.error.CompareAndSwapConflict?
    ensures r.Ok? ==> Counts(r.value, directory, candidate.rotationSignatures)
  {
    hide Counts, AllIndependent, IndependentSigners, DomainsListedOnce;
    var signatures := candidate.rotationSignatures;
    var tally := Tally({}, {}, {}, {}, {}, {}, {});
    NothingCounted(directory, candidate, digest, now);
    assert signatures[..0] == [];
    for i := 0 to |signatures|
      invariant Counts(tally, directory, signatures[..i])
      invariant AllIndependent(directory, candidate, digest, signatures[..i], now)
    {
      var s := signatures[i];
      ghost var done := signatures[..i];
      assert signatures[..i + 1] == done + [s];
      AllIndependentExtends(directory, candidate, digest, done, s, now);
      if AllIndependent(directory, candidate, digest, signatures, now) {
        AllIndependentPrefix(directory, candidate, digest, signatures, i + 1, now);
      }
      var one := VerifyRotationSignature(directory, candidate, digest, s, now);
      if one.Err? {
        return Err(one.error);
      }
      SameValueSameCredential(directory, candidate, digest, done, s, now);
      var ok, next := Admit(tally, s, one.value, directory, done);
      if !ok {
        return Err(ThresholdNotMet);
      }
      tally := next;
    }
    assert signatures[..|signatures|] == signatures;
    return Ok(tally);
  }

  /** `verify_reviewer_registry_rotation` */
  method VerifyRotation(directory: Directory, threshold: nat, candidate: ReviewerRegistry, digest: Digest, now: nat)
    returns (r: Result<(), Error>)
    ensures r.Ok? <==> RotationAuthorized(directory, threshold, candidate, digest, now)
    ensures r.Err? ==> !r.error.CompareAndSwapConflict?
  {
    hide AllIndependent, CountsNames, CountsKeys, SeparatedRoles;
    var tally := CountRotationSignatures(directory, candidate, digest, now);
    if tally.Err? {
      return Err(tally.error);
    }
    RolesSeparated(tally.value, directory, candidate.rotationSignatures);
    var separated := exists a, b :: a in tally.value.authorizers && b in tally.value.semantics && b != a;
    if |candidate.rotationSignatures| < threshold || !separated {
      return Err(ThresholdNotMet);
    }
    return Ok(());
  }
}
