/** Selection of one exact record of an anchored snapshot under the operator's policy. */
module Selection {
  import opened Lists
  import opened SupplyModel
  import opened TrustRules
  import opened SnapshotVerifier
  import opened RecordVerifier

  /** `AnchoredDomainPackSupplyChainSnapshot` */
  datatype Anchored = Anchored(verified: VerifiedSnapshot, revocations: seq<Revocation>, revocationDigest: Digest) {
    /** `is_currently_revoked` */
    predicate Revoked(record: Digest) {
      exists f | f in revocations :: f.recordDigest == record
    }
  }

  /** `SelectedDomainPackSupplyChainRecord` */
  datatype Selected = Selected(registryId: string, audience: string, generation: nat, snapshotDigest: Digest,
                               recordDigest: Digest, packageDigest: Digest, contentDigest: Digest,
                               trustPolicyDigest: Digest, ruleId: string, disposition: Disposition,
                               assurance: Assurance)

  function AssuranceRank(a: Assurance): nat {
    match a
    case ExplicitlyUntrusted => 0
    case LocalExplicit => 1
    case SupplyChainVerified => 2
  }

  predicate PolicyCurrent(a: Anchored, p: PolicyDocument, now: nat) {
    && p.schemaVersion == LIFECYCLE_SCHEMA_VERSION
    && p.policy.audience == a.verified.audience
    && PolicyHash(p) == a.verified.trustPolicyDigest
    && a.verified.issuedAt <= now < a.verified.expiresAt
  }

  /** Some rule or the default admits the record. */
  ghost predicate Permitted(p: Policy, record: Record) {
    exists c :: Selects(p.rules, p.defaultDisposition, record, Ok(c)) && !c.disposition.Reject?
  }

  predicate Listed(a: Anchored, record: Record) {
    exists e | e in a.verified.entries :: e.record == record
  }

  /** What selection accepts. */
  ghost predicate Selectable(a: Anchored, record: Record, p: PolicyDocument, now: nat) {
    && PolicyValid(p.policy)
    && PolicyCurrent(a, p, now)
    && Listed(a, record)
    && !a.Revoked(record.recordDigest)
    && Permitted(p.policy, record)
  }

  /** The selected record repeats its snapshot and record; only the rule and disposition are chosen. */
  predicate Describes(s: Selected, a: Anchored, record: Record) {
    && s.registryId == a.verified.registryId && s.audience == a.verified.audience
    && s.generation == a.verified.generation && s.snapshotDigest == a.verified.snapshotDigest
    && s.trustPolicyDigest == a.verified.trustPolicyDigest
    && s.recordDigest == record.recordDigest && s.packageDigest == record.packageDigest
    && s.contentDigest == record.artifacts.contentCanonical
    && s.assurance.SupplyChainVerified?
  }

  /** `select_domain_pack_supply_chain_record` */
  method Select(a: Anchored, record: Record, p: PolicyDocument, now: nat) returns (r: Result<Selected, Error>)
    ensures r.Ok? <==> Selectable(a, record, p, now)
    ensures r.Ok? ==> Describes(r.value, a, record) && !r.value.disposition.Reject?
    ensures r.Ok? ==> Selects(p.policy.rules, p.policy.defaultDisposition, record,
                              Ok(Choice(r.value.disposition, r.value.ruleId)))
  {
    hide PolicyValid, Selects;
    if p.schemaVersion != LIFECYCLE_SCHEMA_VERSION {
      return Err(UnsupportedSchemaVersion);
    }
    var valid := ValidatePolicy(p.policy);
    if valid.Err? {
      return Err(valid.error);
    }
    if p.policy.audience != a.verified.audience {
      return Err(AudienceMismatch);
    }
    if PolicyHash(p) != a.verified.trustPolicyDigest {
      return Err(SelectedRecordPolicyMismatch);
    }
    if now < a.verified.issuedAt {
      return Err(SnapshotNotYetValid);
    }
    if now >= a.verified.expiresAt {
      return Err(SnapshotExpired);
    }
    if !Listed(a, record) {
      return Err(SelectedRecordNotAnchored);
    }
    if a.Revoked(record.recordDigest) {
      return Err(RevokedRecord);
    }
    var choice := SelectTrustRule(p.policy.rules, p.policy.defaultDisposition, record);
    ChoiceDecides(p.policy, record, choice);
    if choice.Err? {
      return Err(choice.error);
    }
    if AssuranceRank(SupplyChainVerified) < AssuranceRank(p.policy.minimumAssurance) {
      return Err(SelectedRecordBelowMinimumAssurance);
    }
    if choice.value.disposition.Reject? {
      return Err(SelectedRecordRejected);
    }
    return Ok(Selected(a.verified.registryId, a.verified.audience, a.verified.generation, a.verified.snapshotDigest,
                       record.recordDigest, record.packageDigest, record.artifacts.contentCanonical,
                       a.verified.trustPolicyDigest, choice.value.ruleId, choice.value.disposition,
                       SupplyChainVerified));
  }

  lemma ChoiceDecides(p: Policy, record: Record, r: Result<Choice, Error>)
    requires Selects(p.rules, p.defaultDisposition, record, r)
    ensures Permitted(p, record) <==> r.Ok? && !r.value.disposition.Reject?
  {
  }
}
