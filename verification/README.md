# Forge authority: verified model

A Dafny model of the authority layer of Forge and of three release checks, with proofs about whole runs.

- **Promotion of reviewed Domain Packs.** `PromotionModel` holds the documents and their symbolic digests.
  `Evolution` is the list scan that admits one registry step and its meaning as a step of a map. `Reviewers` and
  `PromotionAuthority` verify signatures, rotations and the exact graph behind a promotion capability;
  `PromotionAnchors` holds the two anchors, `Commitment`, `HonestPromotion` and `PromotionRuns` the theorems about
  acceptances and runs.
- **Supply-chain registry.** `SupplyModel`, `Revocations`, `Namespaces`, `TrustRules`, `SnapshotVerifier`,
  `RecordVerifier` and `Selection` verify a snapshot and select a record; `SupplyAnchor` is the compare-and-swap
  anchor, `SupplyRuns` the theorems about forks, revocations, restarts and signers.
- **Attestations and workflow capabilities.** `Hex`, `Attestations`, `WorkflowAuthority` and `Framing`.
- **Release checks.** `NeedsGraph` for the dependency gate of the release workflow, `ReleaseArchive` for the archive
  builder and the archive checker.

`Lists` holds what the source takes from its standard library: sorting, string order, sets of seen values.

Digests are constructors around what is hashed, with a `Text` case for authored text that is no such digest, and
signatures are constructors around a key and a message. Equal digests or signatures therefore mean equal subjects; no
other assumption is made. The order of digest text is an arbitrary total order, passed as a parameter. Verifiers are
proved to accept exactly what a predicate of their inputs describes, and the run theorems are about machines whose steps
are those predicates. `HonestPromotion`, `SupplyRuns.SignThenAdvance` and `WorkflowAuthority.SignThenMint` build inputs
that are accepted.

`dafny verify dfyconfig.toml` checks the whole project.

## Where the code does not do what one might expect

- A replay of the reviewed registry does not look at the authored `registry_digest`, while an advance compares the
  successor's predecessor with it. A replay with another authored digest is accepted and then blocks every advance
  (`PromotionRuns.AdvanceNeedsAuthoredDigest`, `PromotionRuns.ReplayCanBlockAdvance`) until a replay that authors the
  anchored digest (`PromotionRuns.ReplayCanUnblockAdvance`).
- The text by which equivocation is detected joins publisher, name and version, and two different coordinates can join
  to one text (`RecordVerifier.CoordinateTextCollides`), so that an honest snapshot is refused
  (`RecordVerifier.HonestSnapshotRefused`). A text tells its coordinate exactly when it can be read in one way only
  (`RecordVerifier.CoordinateTextExact`), and between records that follow one naming convention it always does
  (`RecordVerifier.CoordinateTextFaithful`).
- The principal registry promises that no key serves two credentials, and compares key text. The hexadecimal decoder
  takes a plus sign for a leading zero, so a valid registry can break the promise (`Attestations.AliasRegistryValid`);
  it holds exactly when texts also differ after that reading (`Attestations.KeysShared`).
- The search for the identity gate stops at the first parent that reaches it, so a passing graph can have cycles
  (`NeedsGraph.CyclicGraphPasses`); it passes exactly when every chain of first needs arrives
  (`NeedsGraph.PassesExactly`).
- The archive checker does not look at the mode of the manifest member (`ReleaseArchive.ManifestModeFree`), so equal
  manifests fix everything but that.
- A freshness window of the largest 64-bit integer never expires, whatever the timestamps (`Attestations.VerifyFreshness`).

## Model

| member | source | states |
|---|---|---|
| `Evolution.ScanPredecessor` | crates/forge-core-authority/src/domain_pack_promotion.rs:1635-1658 | the predecessor loop succeeds exactly when every current entry is matched once and kept, and returns exactly the pairs that changed |
| `Evolution.CheckCanonical` | crates/forge-core-authority/src/domain_pack_promotion.rs:1695-1710 | the closing loop accepts exactly when every entry carries its own digest and tombstones are not eligible |
| `Evolution.ValidateEvolution` | crates/forge-core-authority/src/domain_pack_promotion.rs:1608-1711 | accepts exactly the registries described by the list predicate `ScanAccepts` |
| `Evolution.ScanRefinesMapStep` | crates/forge-core-authority/src/domain_pack_promotion.rs:1608-1711 | when current identities are unique, the list scan accepts exactly when the proposed list has unique identities and, as a map from identity to entry, is the old map with one new eligible Reviewed entry, or with one live entry moved from the old to the new stage with its package kept |
| `Reviewers.RequireSeparation` | crates/forge-core-authority/src/domain_pack_promotion.rs:1266-1330 | succeeds exactly for two reviewers with different principals, credentials, roles, keys and signatures, disjoint domains, one of them an authorizer |
| `Reviewers.VerifySnapshotSignatures` | crates/forge-core-authority/src/domain_pack_promotion.rs:1523-1606 | succeeds exactly when every entry digest is canonical and two separated registered reviewers signed this snapshot |
| `Reviewers.PairIsTwoPersons` | crates/forge-core-authority/src/domain_pack_promotion.rs:1590-1605 | separation of the two verified signers is separation of the two registered credentials, and a separated pair never has one signature value |
| `Reviewers.CountRotationSignatures` | crates/forge-core-authority/src/domain_pack_promotion.rs:1411-1504 | the loop succeeds exactly when every signature is good and all signers are pairwise independent, and its tallies are exactly those of the signatures |
| `Reviewers.VerifyRotation` | crates/forge-core-authority/src/domain_pack_promotion.rs:1401-1521 | succeeds exactly when at least the predecessor threshold of pairwise independent predecessor principals signed the successor, with an authorizer and a different semantic reviewer among them |
| `PromotionAuthority.RequireExactGraph` | crates/forge-core-authority/src/domain_pack_promotion.rs:1945-1959 | the sorted scan for adjacent duplicates accepts exactly when both lists are duplicate-free and hold the same set |
| `PromotionAuthority.RequireDossierBinding` | crates/forge-core-authority/src/domain_pack_promotion.rs:1713-1774 | accepts exactly when the promoted entry is the dossier package with backlinks to this decision, payload and set of reviews |
| `PromotionAuthority.CheckDecision` | crates/forge-core-authority/src/domain_pack_promotion.rs:927-997 | accepts exactly when dossier, decision, payload, candidates and conflicts name each other by recomputed digest |
| `PromotionAuthority.CheckReviews` | crates/forge-core-authority/src/domain_pack_promotion.rs:1043-1091 | accepts exactly when all reviews approve this dossier now and payload and decision list the same review digests in any order |
| `PromotionAuthority.CheckSignatures` | crates/forge-core-authority/src/domain_pack_promotion.rs:1093-1117 | accepts exactly when every signature is by its registered credential over this payload and none repeats, and returns the signers in order |
| `PromotionAuthority.RequireReviewsSigned` | crates/forge-core-authority/src/domain_pack_promotion.rs:1332-1362 | accepts exactly when the signers are the authors of the reviews, both ways |
| `PromotionAuthority.RejectOverlap` | crates/forge-core-authority/src/domain_pack_promotion.rs:1364-1399 | accepts exactly when no signer took part in the dossier |
| `PromotionAuthority.VerifyAuthorization` | crates/forge-core-authority/src/domain_pack_promotion.rs:869-1172 | mints exactly when the whole document graph is bound, two disinterested reviewers signed and wrote the reviews, and the proposal is one step; the capability holds the recomputed digests |
| `PromotionModel.SubjectDigestExact` | crates/forge-core-authority/src/domain_pack_promotion.rs:1919-1932 | two registries have one subject digest exactly when they differ at most in the authored digest and the snapshot signatures |
| `PromotionModel.ProposalDigestExact` | crates/forge-core-authority/src/domain_pack_promotion.rs:1899-1917 | two registries have one proposal digest exactly when they also differ at most in the decision, authorization and entry digests of their entries |
| `PromotionModel.ReviewerSubjectDigestExact` | crates/forge-core-authority/src/domain_pack_promotion.rs:1871-1886 | two reviewer registries have one subject digest exactly when they differ at most in the authored digest and the rotation signatures |
| `PromotionModel.EntryDigestExact` | crates/forge-core-authority/src/domain_pack_promotion.rs:1802-1808 | two entries have one digest exactly when they differ at most in that digest; full digests are equal exactly for equal documents |
| `Commitment.TwoPersonPromotion` | crates/forge-core-authority/src/domain_pack_promotion.rs:1043-1120 | an accepted authorization is current and for this audience, rests on an approving decision that names the same dossier, step, registry and proposal, and has exactly two registered signers with nothing in common, whose keys signed this payload, who are the authors of the approving, independent, current reviews without unresolved blocking findings, and who are no author, evaluator, judge or fixture producer; candidates and conflicts are accounted for exactly once |
| `Commitment.AcceptedDocuments` | crates/forge-core-authority/src/domain_pack_promotion.rs:869-926 | every document of an accepted graph passed its contract: schema, allowed step, windows and shape |
| `Commitment.SignatureCoversPayload` | crates/forge-core-authority/src/domain_pack_promotion.rs:781-803 | accepted authorizations that share one signature value, under whatever registries and at whatever times, carry one payload, and that signature one reviewer, credential, role and time |
| `Commitment.PromotesDossier` | crates/forge-core-authority/src/domain_pack_promotion.rs:1713-1774 | an accepted proposal adds or moves one entry by an allowed step, and that entry is the dossier package, field by field, with links back to the decision, the payload and exactly the reviews |
| `Commitment.SnapshotIsBacked` | crates/forge-core-authority/src/domain_pack_promotion.rs:1523-1606 | an accepted snapshot was signed, whole, by two unrelated registered reviewers, one of them an authorizer, active then and now |
| `Commitment.CommitmentLosesNothing` | crates/forge-core-authority/src/domain_pack_promotion.rs:1899-1917 | two acceptances of one signed payload are for the same proposed registry up to snapshot signatures, although the signed digest blanks three fields of every entry |
| `Commitment.PayloadFixesGraph` | crates/forge-core-authority/src/domain_pack_promotion.rs:1834-1976 | two acceptances of one payload are of the same dossier and decision, whole, of the same reviews, candidates and conflicts, and of the same current registry up to its signatures |
| `PromotionAnchors.ReviewerAnchor.FromOperatorProtectedGenesis` | crates/forge-core-authority/src/domain_pack_promotion.rs:415-439 | succeeds exactly for a valid generation-zero document without predecessor under the pinned policy and full digest |
| `PromotionAnchors.ReviewerAnchor.FromOperatorProtectedHead` | crates/forge-core-authority/src/domain_pack_promotion.rs:441-467 | succeeds exactly for an established head under the pinned policy and full digest |
| `PromotionAnchors.ReviewerAnchor.CompareAndAdvance` | crates/forge-core-authority/src/domain_pack_promotion.rs:482-530 | rotates exactly when the version matches and the direct successor is authorized by the predecessor; a failure changes nothing |
| `PromotionAnchors.ReviewedAnchor.FromOperatorProtectedHead` | crates/forge-core-authority/src/domain_pack_promotion.rs:582-608 | succeeds exactly for a valid, signed registry whose authored digest is its subject digest and the expected one |
| `PromotionAnchors.ReviewedAnchor.VerifyExactReplay` | crates/forge-core-authority/src/domain_pack_promotion.rs:622-655 | succeeds exactly for a signed document with the anchored subject digest and header, which replaces the stored one; a failure changes nothing |
| `PromotionAnchors.ReviewedAnchor.CompareAndAdvance` | crates/forge-core-authority/src/domain_pack_promotion.rs:657-727 | advances exactly when version, reviewer registry, window, predecessor, evolution, digests and snapshot signatures all fit; a failure changes nothing |
| `PromotionRuns.AfterSound` | crates/forge-core-authority/src/domain_pack_promotion.rs:393-727 | every run of rotations, mintings, advances and replays keeps both heads established and every unspent capability minted |
| `PromotionRuns.RunEvolves` | crates/forge-core-authority/src/domain_pack_promotion.rs:622-727 | over every run no identity is lost or duplicated, packages never change, stages never go back, tombstones are frozen, coordinates stay unique, entries grow by the accepted first reviews and the generation by the accepted advances |
| `PromotionRuns.PackagesNeverChange` | crates/forge-core-authority/src/domain_pack_promotion.rs:1783-1800 | whatever happens to an entry in a run, its package, digests, content, license, fixtures, compatibility and supply-chain record are afterwards what they were before, its stage is no earlier, and a revoked or superseded entry is the same entry |
| `PromotionRuns.ReachableRegistry` | crates/forge-core-contracts/src/domain_pack_learning.rs:1671-1740 | in every reachable registry eligibility tells the stage, no coordinate occurs twice, and a predecessor is named exactly after the first generation; reviewer registries keep a positive, met threshold and distinct credential ids |
| `PromotionRuns.AllowedExactly` | crates/forge-core-contracts/src/domain_pack_learning.rs:201-223 | steps are allowed exactly to the next stage of the lifecycle, to revocation from anything that is not terminal, and to supersession from reviewed or deprecated |
| `PromotionRuns.RunReviewerEvolves` | crates/forge-core-authority/src/domain_pack_promotion.rs:482-530 | over every run the reviewer registry keeps identity, audience and policy, never lowers its threshold, and equal generations mean equal heads |
| `PromotionRuns.RotationAuthority` | crates/forge-core-authority/src/domain_pack_promotion.rs:1401-1521 | every rotation in a run is signed by at least the genesis threshold of principals active in the immediately preceding registry, with distinct keys, disjoint domains and separated roles |
| `PromotionRuns.RotationExactly` | crates/forge-core-authority/src/domain_pack_promotion.rs:482-530 | rotation succeeds exactly for a sealed, well-formed direct successor under the same identity and policy, with no lower threshold, signed by at least that many unrelated members of the present registry with separated roles |
| `PromotionRuns.VersionNeverReturns` | crates/forge-core-authority/src/domain_pack_promotion.rs:610-620 | a version captured before an effective advance never matches again |
| `PromotionRuns.VersionTellsHead` | crates/forge-core-authority/src/domain_pack_promotion.rs:469-480 | established heads with one version are one registry: the reviewer registry whole, the reviewed registry up to its authored digest and signatures |
| `PromotionRuns.PayloadTakesEffectOnce` | crates/forge-core-authority/src/domain_pack_promotion.rs:657-727 | in every interleaving one signed payload takes effect at most once, however often it is minted again |
| `PromotionRuns.AdvanceIsTwoPerson` | crates/forge-core-authority/src/domain_pack_promotion.rs:657-727 | every advance that takes effect in any run was signed by two unrelated persons registered in the reviewer registry then in force, who wrote its approving reviews and took no part in the dossier, and the registry it publishes carries the snapshot signatures of two such persons |
| `PromotionRuns.ReplayIsTwoPerson` | crates/forge-core-authority/src/domain_pack_promotion.rs:622-655 | every replay that is taken up in any run changes nothing but the authored digest and the snapshot signatures, which are those of two unrelated persons registered in the reviewer registry then in force |
| `PromotionRuns.AdvanceKeepsPayload` | crates/forge-core-authority/src/domain_pack_promotion.rs:657-727 | every advance that takes effect in any run happens inside the window of its signed payload, under the reviewer registry that payload names, and leads from the registry it names to the proposal it names by the transition it names |
| `PromotionRuns.NeverAfterRotation` | crates/forge-core-authority/src/domain_pack_promotion.rs:657-680 | a capability verified under a reviewer registry takes effect only if that registry has not rotated since |
| `PromotionRuns.AuthorizedTakesEffect` | crates/forge-core-authority/src/domain_pack_promotion.rs:657-727 | a capability minted for the present head, inside its window and with current snapshot signatures, advances the registry to its proposal exactly when the stored authored digest is the anchored one |
| `HonestPromotion.HonestIsAuthorized` | crates/forge-core-authority/src/domain_pack_promotion.rs:869-1172 | for every registry, reviewers, dossier and evidence that fit, the documents built in order make a graph that is authorized: for a first review of a new coordinate and for any allowed step of a live entry |
| `HonestPromotion.HonestContinues` | crates/forge-core-authority/src/domain_pack_promotion.rs:869-1172 | the registry it publishes is again sealed, valid and canonical, so that honest promotions can follow one another |
| `PromotionRuns.HonestTakesEffect` | crates/forge-core-authority/src/domain_pack_promotion.rs:657-727 | on every sound system with a sealed head that graph is minted and its advance publishes the proposal |
| `PromotionRuns.ReplayIgnoresAuthoredDigest` | crates/forge-core-authority/src/domain_pack_promotion.rs:622-652 | rewriting the authored digest of an acceptable replay leaves it acceptable |
| `PromotionRuns.AdvanceNeedsAuthoredDigest` | crates/forge-core-authority/src/domain_pack_promotion.rs:1618-1634 | an advance succeeds exactly when it would on the repaired head and the stored authored digest is the anchored one |
| `PromotionRuns.ReplayCanBlockAdvance` | crates/forge-core-authority/src/domain_pack_promotion.rs:622-652 | after a replay with another authored digest no advance succeeds |
| `PromotionRuns.ReplayCanUnblockAdvance` | crates/forge-core-authority/src/domain_pack_promotion.rs:622-655 | after a replay that authors the anchored digest the head can do what the repaired head can |
| `Revocations.CanonicalFacts` | crates/forge-core-authority/src/domain_pack_supply_chain.rs:2329-2357 | succeeds exactly on well-formed facts with one fact for a record, and returns the sorted arrangement |
| `Revocations.CanonicalForm` | crates/forge-core-authority/src/domain_pack_supply_chain.rs:2311-2357 | canonical facts are a sorted duplicate-free arrangement, independent of the input order, and canonicalising again changes nothing |
| `Revocations.EnsureCumulative` | crates/forge-core-authority/src/domain_pack_supply_chain.rs:2359-2384 | succeeds exactly when every prior fact is still there unchanged |
| `Revocations.RetainsExactly` | crates/forge-core-authority/src/domain_pack_supply_chain.rs:2359-2384 | for a candidate with distinct records the check passes exactly when every prior fact is in it |
| `Namespaces.ReservedIsWithin` | crates/forge-core-authority/src/domain_pack_supply_chain.rs:2255-2266 | the four text tests for reserved names are exactly containment in `core` or `forge.core` |
| `Namespaces.WithinIsLabelPrefix` | crates/forge-core-authority/src/domain_pack_supply_chain.rs:2296-2301 | text containment of dotted names is the prefix order on their labels |
| `Namespaces.WithinOrder` | crates/forge-core-authority/src/domain_pack_supply_chain.rs:2296-2301 | containment is reflexive, transitive and antisymmetric |
| `Namespaces.AncestorsComparable` | crates/forge-core-authority/src/domain_pack_supply_chain.rs:2386-2388 | two ancestors of one name are comparable |
| `Namespaces.CheckGrants` | crates/forge-core-authority/src/domain_pack_supply_chain.rs:1928-1977 | the indexed loop accepts exactly when ids are distinct, windows are not empty, and overlapping prefixes belong to one publisher |
| `TrustRules.LeadersDisagree` | crates/forge-core-authority/src/domain_pack_supply_chain.rs:1387-1396 | the scan of the leading group finds a disagreement exactly when one exists among rules as specific as the first |
| `TrustRules.SelectTrustRule` | crates/forge-core-authority/src/domain_pack_supply_chain.rs:1349-1399 | sort, first and take-while meet the set-level meaning: default if nothing matches, ambiguity exactly when most specific rules disagree, otherwise their disposition under the least id |
| `TrustRules.DecidedBy` | crates/forge-core-authority/src/domain_pack_supply_chain.rs:1349-1399 | the default decides exactly where no rule names the package; otherwise a rule that names it does, pins nothing else than it has, and no rule that names it pins more |
| `TrustRules.SelectionIgnoresOrder` | crates/forge-core-authority/src/domain_pack_supply_chain.rs:1349-1399 | the outcome is the same for every reordering of the rules |
| `SnapshotVerifier.ValidatePolicy` | crates/forge-core-authority/src/domain_pack_supply_chain.rs:1768-1860 | accepts exactly policies with distinct key ids, distinct signer keys, an attainable threshold and distinct rule ids |
| `SnapshotVerifier.SignersCounted` | crates/forge-core-authority/src/domain_pack_supply_chain.rs:1768-1860 | in a valid policy the count that bounds the threshold is the number of different signer keys |
| `SnapshotVerifier.ValidateHeaders` | crates/forge-core-authority/src/domain_pack_supply_chain.rs:1697-1765 | accepts exactly current snapshots for this audience whose generation is one exactly when they have no predecessor |
| `SnapshotVerifier.ValidateShape` | crates/forge-core-authority/src/domain_pack_supply_chain.rs:1862-2006 | accepts exactly well-formed registries with distinct credentials, exclusive grants and one fact for a record |
| `SnapshotVerifier.VerifySignatures` | crates/forge-core-authority/src/domain_pack_supply_chain.rs:2008-2104 | succeeds exactly when at least the threshold of signatures are there, all good, with distinct ids and distinct keys, and returns the sorted audit |
| `SnapshotVerifier.SignatureOrderIrrelevant` | crates/forge-core-authority/src/domain_pack_supply_chain.rs:2008-2075 | acceptance and audit do not depend on the order of the signatures |
| `SnapshotVerifier.AuditsList` | crates/forge-core-authority/src/domain_pack_supply_chain.rs:2008-2075 | the audit lists every accepted signature once, by key id, with the fingerprints of its key and value |
| `RecordVerifier.VerifyRecords` | crates/forge-core-authority/src/domain_pack_supply_chain.rs:2107-2294 | succeeds exactly when every record is sealed, signed by its publisher's own credential and granted its namespace, and no two share a coordinate text, and returns the entries in identity order |
| `RecordVerifier.ValidateRecordDigests` | crates/forge-core-authority/src/domain_pack_supply_chain.rs:2227-2253 | accepts exactly records whose digests are tokens and whose identity is not blank |
| `RecordVerifier.RecordHoldsExactly` | crates/forge-core-authority/src/domain_pack_supply_chain.rs:2107-2294 | with distinct ids and inside the window, a record passes exactly when it is sealed, unreserved, and signed by an active credential of its publisher in the registry that spans the snapshot, under a grant of that publisher over its namespace |
| `RecordVerifier.EntriesList` | crates/forge-core-authority/src/domain_pack_supply_chain.rs:2107-2225 | the verified entries list every package, once, with the fingerprint of its publisher key |
| `RecordVerifier.EntriesOrdered` | crates/forge-core-authority/src/domain_pack_supply_chain.rs:2390-2395 | entries come in the order of publisher, name, version and namespace joined to one text |
| `RecordVerifier.VerifySnapshot` | crates/forge-core-authority/src/domain_pack_supply_chain.rs:1647-1695 | verifies exactly when headers, policy, shape, remote metadata, digest, signatures and records all hold, and reports exactly the snapshot's own data with canonical facts |
| `SupplyModel.SnapshotDigestExact` | crates/forge-core-authority/src/domain_pack_supply_chain.rs:1530-1557 | two snapshots have one digest exactly when they differ at most in the authored digest and the signatures |
| `SupplyModel.RecordDigestExact` | crates/forge-core-authority/src/domain_pack_supply_chain.rs:1498-1510 | two records have one digest exactly when they differ at most in the authored digest and the signature |
| `RecordVerifier.NamespaceExclusivity` | crates/forge-core-authority/src/domain_pack_supply_chain.rs:2255-2301 | in a verified snapshot equal or nested namespaces have one publisher and no namespace is reserved |
| `RecordVerifier.NoEquivocation` | crates/forge-core-authority/src/domain_pack_supply_chain.rs:2133-2147 | in a verified snapshot one publisher, name and version has one record |
| `RecordVerifier.CoordinateTextCollides` | crates/forge-core-authority/src/domain_pack_supply_chain.rs:2133-2136 | the joined coordinate text of two different coordinates can be the same |
| `RecordVerifier.CoordinateTextExact` | crates/forge-core-authority/src/domain_pack_supply_chain.rs:2133-2136 | a record's text tells its coordinate among all records exactly when the text can be read as publisher, name and version in one way only |
| `RecordVerifier.DistinctCoordinatesExact` | crates/forge-core-authority/src/domain_pack_supply_chain.rs:2133-2147 | where texts can be read in one way, the loop refuses equal coordinates and nothing else |
| `RecordVerifier.HonestSnapshotRefused` | crates/forge-core-authority/src/domain_pack_supply_chain.rs:2133-2147 | a snapshot of two packages with the colliding coordinates is refused, whoever signed it |
| `Selection.Select` | crates/forge-core-authority/src/domain_pack_supply_chain.rs:1251-1347 | selects exactly a listed, unrevoked record of a current snapshot under the anchored policy that the rules do not reject, and describes that record |
| `SupplyAnchor.RegistryAnchor.NewTrustOnFirstUse` | crates/forge-core-authority/src/domain_pack_supply_chain.rs:688-706 | succeeds exactly for non-blank names, with an empty anchor |
| `SupplyAnchor.RegistryAnchor.FromOperatorProtectedHead` | crates/forge-core-authority/src/domain_pack_supply_chain.rs:718-762 | succeeds exactly when the head is well formed and the digest binds the canonical facts, and restores that head |
| `SupplyAnchor.RegistryAnchor.CompareAndAdvance` | crates/forge-core-authority/src/domain_pack_supply_chain.rs:791-906 | advances exactly on a direct successor and replays exactly the head, both with unchanged policy and facts retained; conflict, stale, fork and skip errors mean exactly that; a failure or replay changes nothing |
| `SupplyRuns.PresentVerified` | crates/forge-core-authority/src/domain_pack_supply_chain.rs:791-906 | verification followed by the anchor does exactly what one step of the run machine says, state and capability |
| `SupplyRuns.RestartRoundTrip` | crates/forge-core-authority/src/domain_pack_supply_chain.rs:718-762 | restoring any sound anchor, set up afresh or restored before, from its own head and facts succeeds and changes nothing |
| `SupplyRuns.RestoredSound` | crates/forge-core-authority/src/domain_pack_supply_chain.rs:718-762 | whatever the operator's head restores is sound, so every theorem about runs holds from it |
| `SupplyRuns.AfterSound` | crates/forge-core-authority/src/domain_pack_supply_chain.rs:679-906 | every run from a sound anchor keeps its facts canonical, their digest theirs, and its head digests well formed |
| `SupplyRuns.RunReflects` | crates/forge-core-authority/src/domain_pack_supply_chain.rs:791-906 | after every run from a sound anchor it is what its start and its accepted history make it: generations one up, each snapshot naming the digest before |
| `SupplyRuns.ForkFreedom` | crates/forge-core-authority/src/domain_pack_supply_chain.rs:791-906 | two anchors, set up afresh or restored and fed anything, that ever accepted documents with one digest are at one generation there, accepted the same documents up to it, in everything but the signatures, and the one that started later started from a head of the other |
| `SupplyRuns.SameHeadSameAnchor` | crates/forge-core-authority/src/domain_pack_supply_chain.rs:791-906 | two anchors set up afresh with the same head have the same whole history and agree on everything but the policy digest |
| `SupplyRuns.CapabilityIsHead` | crates/forge-core-authority/src/domain_pack_supply_chain.rs:832-860 | every capability ever handed out, replays included, is for the head the anchor then has |
| `SupplyRuns.PolicyPinned` | crates/forge-core-authority/src/domain_pack_supply_chain.rs:806-816 | once a snapshot is accepted its trust policy stays pinned over every run |
| `SupplyRuns.FactStays` | crates/forge-core-authority/src/domain_pack_supply_chain.rs:817-860 | the same for every fact an anchor holds, those it was restored with included |
| `SupplyRuns.SignThenAdvance` | crates/forge-core-authority/src/domain_pack_supply_chain.rs:1614-1695 | any direct successor that lists every fact of the anchor, keeps the policy, and whose records are published under the registry's own credentials and grants, signed by a threshold of the policy's keys, verifies and becomes the head |
| `SupplyRuns.AdvanceThenReplay` | crates/forge-core-authority/src/domain_pack_supply_chain.rs:832-860 | presenting a new head again is an exact replay that changes nothing |
| `SupplyRuns.RevocationPermanent` | crates/forge-core-authority/src/domain_pack_supply_chain.rs:817-860 | a fact listed by any snapshot that yielded a capability is, unchanged, in every later capability of the anchor, and its record is selectable from none, under any policy, at any time, after any restarts, even re-signed |
| `SupplyRuns.SelectionIsBacked` | crates/forge-core-authority/src/domain_pack_supply_chain.rs:1251-1347 | a record selectable at a time is backed, under the very policy used, by at least the threshold of different signers with different keys valid at that time, and by its publisher's credential valid then and owning the namespace |
| `SupplyRuns.SelectableExactly` | crates/forge-core-authority/src/domain_pack_supply_chain.rs:1251-1347 | from any capability exactly those packages of its snapshot can be selected that no fact of the anchor revokes, under the very policy it was verified with, while it is current, where that policy permits it |
| `Hex.Encode` | crates/forge-core-authority/src/attestation.rs:430-438 | two digits per byte, high digit first |
| `Hex.RoundTrip` | crates/forge-core-authority/src/attestation.rs:414-438 | decoding undoes encoding for every byte string |
| `Hex.TokenExactly` | crates/forge-core-authority/src/principal_registry.rs:728-735 | digest tokens are exactly the prefixed encodings of 32 bytes |
| `Hex.DecodeDeterminesPlain` | crates/forge-core-authority/src/attestation.rs:414-427 | two texts decode to the same bytes exactly when they agree in lower case with a leading plus sign of a pair read as zero |
| `Hex.SameBytesSameText` | crates/forge-core-authority/src/attestation.rs:414-427 | without plus signs two texts are the same bytes exactly when they are equal up to letter case |
| `Hex.PlusAliases` | crates/forge-core-authority/src/attestation.rs:414-427 | a plus sign makes two different texts the same byte |
| `Attestations.IntentJsonInjective` | crates/forge-core-authority/src/attestation.rs:51-94 | different intents, absent fields included, have different canonical forms |
| `Attestations.SignatureVerifiesOnlyIts` | crates/forge-core-authority/src/attestation.rs:256-289 | a signature over an intent verifies for that intent and, whatever is changed, for no other |
| `Attestations.VerifyFreshness` | crates/forge-core-authority/src/attestation.rs:298-315 | with 64-bit saturation: too new exactly beyond the clamped skew, too old exactly beyond the age unless the age is the largest integer |
| `Attestations.CheckIdList` | crates/forge-core-authority/src/principal_registry.rs:679-700 | no issue exactly for non-empty lists without blanks and repeats |
| `Attestations.ValidateContract` | crates/forge-core-authority/src/principal_registry.rs:572-677 | no issue exactly for valid registries, and duplicate ids and keys are reported exactly when there are any |
| `Attestations.AuthorizeExact` | crates/forge-core-authority/src/principal_registry.rs:423-511 | in a valid registry authorization succeeds exactly when some entry admits the call (active, for this audience and tool, its own key over this intent, inside the window), and only as that entry |
| `Attestations.AuthorizedExactly` | crates/forge-core-authority/src/principal_registry.rs:423-511 | an entry admits a call exactly when it is active, named together with the audience, lists the tool, and its 32-byte key signed exactly this intent, with a usable nonce and inside the saturated window; an execution also needs the grant and a digest token |
| `Attestations.Utf8Width` | crates/forge-core-authority/src/principal_registry.rs:721-726 | the length that bounds a nonce counts for each character the least number of UTF-8 bytes that has room for it |
| `Attestations.AuthorizeExecutionExact` | crates/forge-core-authority/src/principal_registry.rs:529-569 | in a valid registry execution is authorized exactly for the execution tool and a call some entry with the execution grant admits, and carries the signed digest, nonce and time |
| `Attestations.ValidatedKeyDecodes` | crates/forge-core-authority/src/principal_registry.rs:629-646 | a key validated in lower case decodes as authored |
| `Attestations.KeysShared` | crates/forge-core-authority/src/principal_registry.rs:629-646 | entries of a valid registry share key bytes exactly when their key texts agree once a plus sign is read as zero, so never without plus signs |
| `Attestations.AliasRegistryValid` | crates/forge-core-authority/src/principal_registry.rs:572-677 | a valid registry in which one key serves two credentials, for every key that starts with the byte 15 |
| `Attestations.AttestationFixesIntent` | crates/forge-core-authority/src/attestation.rs:256-289 | whatever is authorized with one attestation, in any registry at any time, is one intent under one key |
| `WorkflowAuthority.IntentFixesRequest` | crates/forge-core-authority/src/workflow_authority.rs:1179-1198 | the intent built for a request tells its kind and every field of it |
| `WorkflowAuthority.MintExact` | crates/forge-core-authority/src/workflow_authority.rs:803-1104 | in a valid registry minting succeeds exactly when some entry entitled by role and grant signed this valid request inside the window; entitlement is the matrix read by role |
| `WorkflowAuthority.EntitledExactly` | crates/forge-core-authority/src/workflow_authority.rs:1200-1310 | what each role with which grant may authorize is exactly the matrix of kinds, providers and strengths |
| `WorkflowAuthority.ValidateExactly` | crates/forge-core-authority/src/workflow_authority.rs:1312-1540 | the six validators accept exactly the requests with no blank text, digests where they are due, closed values, and times in bounds |
| `WorkflowAuthority.DigestExactly` | crates/forge-core-authority/src/workflow_authority.rs:1573-1587 | a digest field is a digest token up to letter case |
| `WorkflowAuthority.SignThenMint` | crates/forge-core-authority/src/workflow_authority.rs:1179-1254 | every active entry of a valid registry that lists the tool and is entitled by role and grant mints any valid request it signs |
| `WorkflowAuthority.OneAttestationOneCapability` | crates/forge-core-authority/src/workflow_authority.rs:803-1104 | one attestation mints at most one kind for one request, through whatever registries and clocks |
| `WorkflowAuthority.NeverAlsoExecution` | crates/forge-core-authority/src/principal_registry.rs:529-569 | an attestation that mints a workflow capability never authorizes an execution, in any registry, window and time |
| `WorkflowAuthority.MintIsFresh` | crates/forge-core-authority/src/workflow_authority.rs:1225-1242 | a minted capability was signed between five minutes before and half a minute after the clock |
| `Framing.Hasher.UpdateLengthPrefixed` | crates/forge-core-authority/src/attestation.rs:362-366 | appends exactly one frame: eight little-endian length bytes and the value |
| `Framing.AttestationFingerprints` | crates/forge-core-authority/src/attestation.rs:333-360 | the two hashers absorb exactly the framed preimages, for signatures of 64 bytes and no others |
| `Framing.NonceFingerprint` | crates/forge-core-authority/src/principal_registry.rs:742-750 | the hasher absorbs exactly the framed nonce preimage |
| `Framing.FrameRoundTrip` | crates/forge-core-authority/src/attestation.rs:362-366 | a frame is read back whole, whatever follows it |
| `Framing.PreimageInjective` | crates/forge-core-authority/src/attestation.rs:333-366 | equal preimages come from the same kind of material with the same parts; different domains never coincide |
| `NeedsGraph.CheckJobs` | scripts/check-release-locking.py:564-591 | accepts exactly when edges and keys are not repeated and every need is a job |
| `NeedsGraph.CheckGate` | scripts/check-release-locking.py:954-968 | accepts exactly when `metadata` is a root and following first needs alone arrives there from every job |
| `NeedsGraph.ReachesIsPath` | scripts/check-release-locking.py:954-962 | a positive search verdict comes with a dependency path to the gate |
| `NeedsGraph.MissesIsNoPath` | scripts/check-release-locking.py:954-962 | a negative search verdict means there is no dependency path |
| `NeedsGraph.CycleIsCycle` | scripts/check-release-locking.py:954-962 | a cycle verdict points at a dependency cycle |
| `NeedsGraph.ExactOnAcyclic` | scripts/check-release-locking.py:954-962 | on acyclic graphs the search decides dependency exactly and reports no cycle |
| `NeedsGraph.PassesExactly` | scripts/check-release-locking.py:954-968 | on every graph all jobs reach the gate in the search exactly when every chain of first needs does |
| `NeedsGraph.GatedDepends` | scripts/check-release-locking.py:964-968 | a passing graph gives every job a dependency path to the gate |
| `NeedsGraph.CyclicGraphPasses` | scripts/check-release-locking.py:954-968 | a graph with a cycle that passes |
| `ReleaseArchive.Normalized` | scripts/build-release-archive.py:33-45 | the checks keep exactly the relative POSIX paths without empty, dot and parent parts, backslashes and drive letters, and keep them unchanged |
| `ReleaseArchive.StripExactly` | scripts/build-release-archive.py:57 | stripping a line removes spaces at its ends only, and all of them |
| `ReleaseArchive.LoadPayload` | scripts/build-release-archive.py:48-77 | succeeds exactly for valid payload manifests whose files exist, and returns them in order |
| `ReleaseArchive.Build` | scripts/build-release-archive.py:81-206 | succeeds exactly for valid arguments and payload without collisions and a timestamp the format can hold, and writes all files sorted by path and then the manifest |
| `ReleaseArchive.BuiltMembers` | scripts/build-release-archive.py:81-131 | a built archive holds the binary and the wrapper as executables, every payload file with its own content, each under its own name, and a manifest of this release that lists exactly those; and nothing else |
| `ReleaseArchive.CommitTextExactly` | scripts/build-release-archive.py:22 | a commit is exactly the lower-case encoding of 20 or 32 bytes |
| `ReleaseArchive.ExpectedStaticPaths` | scripts/check-release-archive.py:74-90 | succeeds exactly for valid payload manifests, with their set of paths |
| `ReleaseArchive.ReadMembers` | scripts/check-release-archive.py:43-70 | succeeds exactly when all members are regular, canonically named and not repeated, and holds exactly them |
| `ReleaseArchive.CheckRows` | scripts/check-release-archive.py:184-206 | accepts exactly when rows are not repeated and each describes its member in digest, size and mode |
| `ReleaseArchive.Check` | scripts/check-release-archive.py:138-221 | passes exactly when the manifest describes all members and only the expected ones |
| `ReleaseArchive.FormatsAgree` | scripts/build-release-archive.py:134-174 | both formats give back name, content and permission mode of what was written |
| `ReleaseArchive.BuilderPassesChecker` | scripts/check-release-archive.py:138-221 | whatever the builder produces, in either format, the checker accepts for the same release if the Markdown links are closed |
| `ReleaseArchive.SameManifestSameArchive` | scripts/check-release-archive.py:180-221 | two passing archives with the same manifest bytes have the same members, and are equal exactly when the mode of the manifest itself is |
| `ReleaseArchive.ManifestModeFree` | scripts/check-release-archive.py:180-221 | the check does not depend on the mode of the manifest member |
| `ReleaseArchive.PayloadOrderIrrelevant` | scripts/build-release-archive.py:81-131 | reordering the payload manifest leaves the archive the same |

## Left out

- Ed25519, SHA-256 and canonical JSON: replaced by the constructors above. Canonical JSON writes numbers as IEEE doubles
  (section 3.2.2.3 of RFC 8785), so the constructors stand for it only up to integers of 53 bits. Attestations,
  unlike the two registries, are checked with the lenient Ed25519 check (crates/forge-core-authority/src/attestation.rs:287),
  under which a public key of small order accepts one signature for several messages; the constructors rule such keys out.
- Hexadecimal text of keys and signatures in the two registry files: keys and signatures are decoded values there, with
  a value for text that does not decode.
- Field-by-field `validate()` methods of the promotion contracts, the promotion evaluator, remote-acquisition metadata,
  the command surface, the SemVer pattern, curve points: arbitrary predicates. Unique identities and coordinates, stage
  and eligibility, the shape of transitions, and the windows of reviews and payloads, which the theorems need, are
  written out.
- Error text, audit projections, getters, `Display` and `Debug`: they carry no hard property. Where several checks fail
  at once the model keeps the source's order of the checks, but some checks share one error.
- Non-cloneable capabilities: a capability is spent when it is passed to an advance, whether or not that succeeds.
- Clocks, files, descriptors, YAML and command lines: times and contents are parameters.
- Grants at selection time: the source checks a grant at issue and verification only, so no claim is made about its
  window at selection.
- Reviewers.CountRotationSignatures: repeated signature values are found through the credential they are bound to.
- Attestations.ValidateContract: the order and the paths of the issues.
- Hex.DecodeDeterminesPlain: characters of more than one byte, on which the source cuts text inside a character.
- WorkflowAuthority.MintExact: the six factories are one function of the request. Enumerations that no check inspects are
  their label text.
- WorkflowAuthority.ValidateExactly: the failing field of a request is not named.
- ReleaseArchive.StripExactly: which characters are spaces is a list that no theorem is about.
- ReleaseArchive.ReadMembers: one loop serves both formats, on members already taken out of tar and zip.
- ReleaseArchive.Check: the checksum file beside the archive, the pattern that finds Markdown links, and JSON types inside
  the manifest, which are a parser that fails.
- NeedsGraph.CheckGate: the text checks on steps, refs and actions of the release workflow.
- Packaged journeys, release staging, CI tiers, policy and version pin scripts, execution handoff: input and output or
  constant comparisons.
