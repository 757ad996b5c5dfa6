/** The monotonic anchor of one registry and audience. */
module SupplyAnchor {
  import opened Lists
  import opened SupplyModel
  import opened Revocations
  import opened RecordVerifier
  import opened Selection

  datatype AnchorState = AnchorState(
    registryId: string, audience: string, generation: nat, snapshotDigest: Option<Digest>,
    trustPolicyDigest: Option<Digest>, revocations: seq<Revocation>, revocationDigest: Digest)
  {
    function Version(): AnchorVersion {
      AnchorVersion(registryId, audience, generation, snapshotDigest, trustPolicyDigest, revocationDigest)
    }

    /** The head digest, or the empty text of an empty anchor. */
    function HeadDigest(): Digest {
      if snapshotDigest.Some? then snapshotDigest.value else Text("")
    }
  }

  datatype AnchorVersion = AnchorVersion(
    registryId: string, audience: string, generation: nat, snapshotDigest: Option<Digest>,
    trustPolicyDigest: Option<Digest>, revocationDigest: Digest)

  datatype Outcome =
    | Advanced(capability: Anchored)
    | Replayed(capability: Anchored)

  function Fresh(registryId: string, audience: string): AnchorState {
    AnchorState(registryId, audience, 0, None, None, [], RevocationsHash([]))
  }

  /** Everything that is checked before generations are compared. */
  ghost predicate Continues(s: AnchorState, expected: AnchorVersion, c: VerifiedSnapshot) {
    && expected == s.Version()
    && c.registryId == s.registryId && c.audience == s.audience
    && (s.trustPolicyDigest.Some? ==> c.trustPolicyDigest == s.trustPolicyDigest.value)
    && Retains(s.revocations, c.revocations)
  }

  predicate DirectSuccessor(s: AnchorState, c: VerifiedSnapshot) {
    && s.generation < U64_MAX && c.generation == s.generation + 1
    && (if s.generation == 0 then c.previous.None? else c.previous == s.snapshotDigest)
  }

  predicate ExactHead(s: AnchorState, c: VerifiedSnapshot) {
    && c.generation == s.generation
    && c.snapshotDigest == s.HeadDigest()
    && c.revocationDigest == s.revocationDigest
  }

  function NextState(s: AnchorState, c: VerifiedSnapshot): AnchorState {
    AnchorState(s.registryId, s.audience, c.generation, Some(c.snapshotDigest), Some(c.trustPolicyDigest),
                c.revocations, c.revocationDigest)
  }

  /** The fields a protected head must have to be restored. */
  ghost predicate Restorable(leq: Order, s: AnchorState) {
    && !Blank(s.registryId) && !Blank(s.audience) && s.generation != 0
    && s.snapshotDigest.Some? && IsToken(s.snapshotDigest.value)
    && s.trustPolicyDigest.Some? && IsToken(s.trustPolicyDigest.value)
    && IsToken(s.revocationDigest)
    && Facts(s.revocations)
    && s.revocationDigest == RevocationsHash(Canonical(leq, s.revocations))
  }

  /** The anchor that is restored: its facts are canonicalised. */
  function Restored(leq: Order, s: AnchorState): AnchorState {
    s.(revocations := Canonical(leq, s.revocations))
  }

  /** `DomainPackRegistryAnchor` */
  class RegistryAnchor {
    const registryId: string
    const audience: string
    var generation: nat
    var snapshotDigest: Option<Digest>
    var trustPolicyDigest: Option<Digest>
    var revocations: seq<Revocation>
    var revocationDigest: Digest

    function State(): AnchorState
      reads this
    {
      AnchorState(registryId, audience, generation, snapshotDigest, trustPolicyDigest, revocations, revocationDigest)
    }

    constructor (s: AnchorState)
      ensures State() == s
    {
      registryId, audience, generation := s.registryId, s.audience, s.generation;
      snapshotDigest, trustPolicyDigest := s.snapshotDigest, s.trustPolicyDigest;
      revocations, revocationDigest := s.revocations, s.revocationDigest;
    }

    /** `new_trust_on_first_use` */
    static method NewTrustOnFirstUse(leq: Order, registryId: string, audience: string)
      returns (r: Result<RegistryAnchor, Error>)
      requires TotalOrder(leq)
      ensures r.Ok? <==> !Blank(registryId) && !Blank(audience)
      ensures r.Ok? ==> fresh(r.value) && r.value.State() == Fresh(registryId, audience)
    {
      if Blank(registryId) || Blank(audience) {
        return Err(InvalidRegistryAnchor);
      }
      var facts := CanonicalFacts(leq, []);
      var anchor := new RegistryAnchor(AnchorState(registryId, audience, 0, None, None, [],
                                                   RevocationsHash(facts.value)));
      return Ok(anchor);
    }

    /** `from_operator_protected_head` */
    static method FromOperatorProtectedHead(leq: Order, registryId: string, audience: string, generation: nat,
                                            snapshot: Digest, policy: Digest, revocations: seq<Revocation>,
                                            revocationDigest: Digest)
      returns (r: Result<RegistryAnchor, Error>)
      requires TotalOrder(leq)
      ensures var head := AnchorState(registryId, audience, generation, Some(snapshot), Some(policy), revocations,
                                      revocationDigest);
              && (r.Ok? <==> Restorable(leq, head))
              && (r.Ok? ==> fresh(r.value) && r.value.State() == Restored(leq, head))
    {
      hide Canonical, Facts, IsToken, Blank;
      if Blank(registryId) || Blank(audience) {
        return Err(InvalidRegistryAnchor);
      }
      if generation == 0 {
        return Err(InvalidRegistryAnchor);
      }
      if !IsToken(snapshot) || !IsToken(policy) || !IsToken(revocationDigest) {
        return Err(InvalidSnapshot);
      }
      var facts := CanonicalFacts(leq, revocations);
      if facts.Err? {
        return Err(facts.error);
      }
      CanonicalForm(leq, revocations);
      var again := CanonicalFacts(leq, facts.value);
      if revocationDigest != RevocationsHash(again.value) {
        return Err(InvalidRegistryAnchor);
      }
      var anchor := new RegistryAnchor(AnchorState(registryId, audience, generation, Some(snapshot), Some(policy),
                                                   facts.value, revocationDigest));
      return Ok(anchor);
    }

    /** `compare_and_advance` of the registry anchor. */
    method CompareAndAdvance(expected: AnchorVersion, c: VerifiedSnapshot) returns (r: Result<Outcome, Error>)
      modifies this
      ensures r.Ok? && r.value.Advanced? <==> Continues(old(State()), expected, c) && DirectSuccessor(old(State()), c)
      ensures r.Ok? && r.value.Replayed? <==> Continues(old(State()), expected, c) && ExactHead(old(State()), c)
      ensures State() == if r.Ok? && r.value.Advanced? then NextState(old(State()), c) else old(State())
      ensures r.Ok? ==> r.value.capability == Anchored(c, revocations, revocationDigest)
      ensures r == Err(CompareAndSwapConflict) <==> expected != old(State()).Version()
      ensures r == Err(SnapshotStale) <==> Continues(old(State()), expected, c) && c.generation < old(generation)
      ensures r == Err(SnapshotFork) <==>
              && Continues(old(State()), expected, c)
              && c.generation == old(generation) && c.snapshotDigest != old(State()).HeadDigest()
      ensures r == Err(SnapshotGenerationSkip) <==>
              && Continues(old(State()), expected, c)
              && old(generation) + 1 < c.generation && old(generation) < U64_MAX
    {
      hide Retains;
      if expected != State().Version() {
        return Err(CompareAndSwapConflict);
      }
      if c.registryId != registryId || c.audience != audience {
        return Err(AnchorIdentityMismatch);
      }
      if trustPolicyDigest.Some? && c.trustPolicyDigest != trustPolicyDigest.value {
        return Err(AnchorTrustPolicyMismatch);
      }
      var cumulative := EnsureCumulative(revocations, c.revocations);
      if !cumulative {
        return Err(CumulativeRevocationMismatch);
      }
      if c.generation < generation {
        return Err(SnapshotStale);
      }
      if c.generation == generation {
        if c.snapshotDigest != State().HeadDigest() {
          return Err(SnapshotFork);
        }
        if c.revocationDigest != revocationDigest {
          return Err(CumulativeRevocationMismatch);
        }
        return Ok(Replayed(Anchored(c, revocations, revocationDigest)));
      }
      if generation >= U64_MAX {
        return Err(AnchorGenerationOverflow);
      }
      if c.generation != generation + 1 {
        return Err(SnapshotGenerationSkip);
      }
      if generation == 0 {
        if c.previous.Some? {
          return Err(SnapshotPredecessorMismatch);
        }
      } else if c.previous != snapshotDigest {
        return Err(SnapshotPredecessorMismatch);
      }
      generation := c.generation;
      snapshotDigest := Some(c.snapshotDigest);
      trustPolicyDigest := Some(c.trustPolicyDigest);
      revocations := c.revocations;
      revocationDigest := c.revocationDigest;
      return Ok(Advanced(Anchored(c, revocations, revocationDigest)));
    }
  }
}
