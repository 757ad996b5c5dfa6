/** Workflow capabilities: six kinds of request, each bound into an intent that the module builds itself. */
module WorkflowAuthority {
  import opened Lists
  import opened Hex
  import opened Attestations

  // Requests -------------------------------------------------------------

  datatype EvaluatorProvider =
    | RepositoryInspector | DeterministicTool | RepresentativeRuntime | IndependentReviewer | AuthorizedHuman
    | ExternalAuthority | ResearchSource

  datatype EvidenceKind =
    | ArtifactInspection | DeterministicCheck | RepresentativeRun | IndependentReview | HumanAcceptance
    | ExternalStatement | Research

  datatype EvidenceStrength =
    | ArtifactPresence | InspectedArtifact | DeterministicVerification | RepresentativeExecution
    | IndependentConfirmation | AuthoritativeAcceptance

  /** The project state every request is bound to. */
  datatype Binding = Binding(projectId: string, policyBundleDigest: string, stateVersion: U64, currentPhase: string,
                             snapshotDigest: string, ledgerHeadDigest: string)

  datatype WaiverSubject = Claim(claimRef: string) | Obligation(obligationRef: string)

  /** Enumerations that no check inspects are their label text. */
  datatype WorkflowRequest =
    | Decision(bound: Binding, policyRef: string, decisionRef: string, selectedAlternativeRef: string,
               readinessTarget: string, consequencesAckDigest: string)
    | Waiver(bound: Binding, policyRef: string, subject: WaiverSubject, maximumReadinessTarget: string, reason: string,
             consequencesAckDigest: string, expiresAt: I64)
    | Evidence(bound: Binding, policyRef: string, claimRef: string, evaluatorRef: string, provider: EvaluatorProvider,
               kind: EvidenceKind, strength: EvidenceStrength, outcome: string, subjectKind: string, subjectRef: string,
               subjectDigest: string, scenarioDigest: string, target: string, observedAt: U64, expiry: Option<U64>)
    | Applicability(bound: Binding, policyRef: string, applicable: bool, evaluatorRef: string, authorityScope: string,
                    basisRefs: seq<string>, basisDigest: string, observedAt: U64, until: U64)
    | CapabilityProbe(bound: Binding, policyRef: string, capabilityRef: string, probeKind: string, available: bool,
                      authorityScope: string, probeRef: string, probeDigest: string, subjectKind: string,
                      subjectRef: string, subjectDigest: string, observedAt: U64, expiry: Option<U64>)
    | SignalChange(bound: Binding, signal: string, active: bool, episodeId: string, generation: U64,
                   basisRefs: seq<string>, basisDigest: string, observedAt: U64, until: U64)

  // Their JSON -----------------------------------------------------------

  /** `canonical_action` */
  function ActionOf(r: WorkflowRequest): string {
    match r
    case Decision(_, _, _, _, _, _) => "decision_resolve"
    case Waiver(_, _, _, _, _, _, _) => "waiver_authorize"
    case Evidence(_, _, _, _, _, _, _, _, _, _, _, _, _, _, _) => "evidence_authorize"
    case Applicability(_, _, _, _, _, _, _, _, _) => "applicability_assess"
    case CapabilityProbe(_, _, _, _, _, _, _, _, _, _, _, _, _) => "capability_authorize"
    case SignalChange(_, _, _, _, _, _, _, _, _) => "signal_authorize"
  }

  function ProviderLabel(p: EvaluatorProvider): Json {
    match p
    case RepositoryInspector => Str("repository_inspector")
    case DeterministicTool => Str("deterministic_tool")
    case RepresentativeRuntime => Str("representative_runtime")
    case IndependentReviewer => Str("independent_reviewer")
    case AuthorizedHuman => Str("authorized_human")
    case ExternalAuthority => Str("external_authority")
    case ResearchSource => Str("research_source")
  }

  function KindLabel(k: EvidenceKind): Json {
    match k
    case ArtifactInspection => Str("artifact_inspection")
    case DeterministicCheck => Str("deterministic_check")
    case RepresentativeRun => Str("representative_execution")
    case IndependentReview => Str("independent_review")
    case HumanAcceptance => Str("human_acceptance")
    case ExternalStatement => Str("external_authority")
    case Research => Str("research")
  }

  function StrengthLabel(s: EvidenceStrength): Json {
    match s
    case ArtifactPresence => Str("artifact_presence")
    case InspectedArtifact => Str("inspected_artifact")
    case DeterministicVerification => Str("deterministic_verification")
    case RepresentativeExecution => Str("representative_execution")
    case IndependentConfirmation => Str("independent_confirmation")
    case AuthoritativeAcceptance => Str("authoritative_acceptance")
  }

  /** Which part of a request a member belongs to. */
  function Group(n: Name): nat {
    match n
    case ProjectId | PolicyBundleDigest | StateVersion | CurrentPhase | SnapshotDigest | LedgerHeadDigest => 0
    case SubjectKind | SubjectRef | SubjectDigest | BasisRefs | BasisDigest => 2
    case ObservedAtUnix | ExpiresAtUnix => 3
    case _ => 1
  }

  function BindingNames(): set<Name> {
    {ProjectId, PolicyBundleDigest, StateVersion, CurrentPhase, SnapshotDigest, LedgerHeadDigest}
  }

  function BindingJson(b: Binding): (m: map<Name, Json>)
    ensures m.Keys == BindingNames() && forall k :: k in m ==> Group(k) == 0
  {
    map[ProjectId := Str(b.projectId), PolicyBundleDigest := Str(b.policyBundleDigest),
        StateVersion := Num(b.stateVersion), CurrentPhase := Str(b.currentPhase),
        SnapshotDigest := Str(b.snapshotDigest), LedgerHeadDigest := Str(b.ledgerHeadDigest)]
  }

  function SubjectJson(s: WaiverSubject): Json {
    match s
    case Claim(ref) => Obj(map[Kind := Str("claim"), ClaimRef := Str(ref)])
    case Obligation(ref) => Obj(map[Kind := Str("obligation"), ObligationRef := Str(ref)])
  }

  function TextJson(s: string): Json {
    Str(s)
  }

  function RefsJson(refs: seq<string>): Json {
    Arr(Map(TextJson, refs))
  }

  function OptionJson(value: Option<U64>): Json {
    if value.None? then Null else Num(value.value)
  }

  /** Members that several kinds share. */
  function ObservedNames(): set<Name> {
    {ObservedAtUnix, ExpiresAtUnix}
  }

  function ObservedJson(observed: U64, expires: Option<U64>): (m: map<Name, Json>)
    ensures m.Keys == ObservedNames() && forall k :: k in m ==> Group(k) == 3
  {
    map[ObservedAtUnix := Num(observed), ExpiresAtUnix := OptionJson(expires)]
  }

  function SubjectNames(): set<Name> {
    {SubjectKind, SubjectRef, SubjectDigest}
  }

  function SubjectPart(kind: string, ref: string, digest: string): (m: map<Name, Json>)
    ensures m.Keys == SubjectNames() && forall k :: k in m ==> Group(k) == 2
  {
    map[SubjectKind := Str(kind), SubjectRef := Str(ref), SubjectDigest := Str(digest)]
  }

  function BasisNames(): set<Name> {
    {BasisRefs, BasisDigest}
  }

  function BasisJson(refs: seq<string>, digest: string): (m: map<Name, Json>)
    ensures m.Keys == BasisNames() && forall k :: k in m ==> Group(k) == 2
  {
    map[BasisRefs := RefsJson(refs), BasisDigest := Str(digest)]
  }

  /** Members of each kind's own. */
  function DecisionNames(): set<Name> {
    {PolicyRef, DecisionRef, SelectedAlternativeRef, ReadinessTarget, ConsequencesAckDigest}
  }

  function DecisionPart(r: WorkflowRequest): (m: map<Name, Json>)
    requires r.Decision?
    ensures m.Keys == DecisionNames() && forall k :: k in m ==> Group(k) != 0
  {
    map[PolicyRef := Str(r.policyRef), DecisionRef := Str(r.decisionRef),
        SelectedAlternativeRef := Str(r.selectedAlternativeRef), ReadinessTarget := Str(r.readinessTarget),
        ConsequencesAckDigest := Str(r.consequencesAckDigest)]
  }

  function WaiverNames(): set<Name> {
    {PolicyRef, Subject, MaximumReadinessTarget, Reason, ConsequencesAckDigest, ExpiresAtUnix}
  }

  function WaiverPart(r: WorkflowRequest): (m: map<Name, Json>)
    requires r.Waiver?
    ensures m.Keys == WaiverNames() && forall k :: k in m ==> Group(k) != 0
  {
    map[PolicyRef := Str(r.policyRef), Subject := SubjectJson(r.subject),
        MaximumReadinessTarget := Str(r.maximumReadinessTarget), Reason := Str(r.reason),
        ConsequencesAckDigest := Str(r.consequencesAckDigest), ExpiresAtUnix := Num(r.expiresAt)]
  }

  function EvidenceNames(): set<Name> {
    {PolicyRef, ClaimRef, EvaluatorRef, Provider, Kind, Strength, Outcome, ScenarioDigest, ReadinessTarget}
  }

  function EvidencePart(r: WorkflowRequest): (m: map<Name, Json>)
    requires r.Evidence?
    ensures m.Keys == EvidenceNames() && forall k :: k in m ==> Group(k) == 1
  {
    map[PolicyRef := Str(r.policyRef), ClaimRef := Str(r.claimRef), EvaluatorRef := Str(r.evaluatorRef),
        Provider := ProviderLabel(r.provider), Kind := KindLabel(r.kind), Strength := StrengthLabel(r.strength),
        Outcome := Str(r.outcome), ScenarioDigest := Str(r.scenarioDigest), ReadinessTarget := Str(r.target)]
  }

  function ApplicabilityNames(): set<Name> {
    {PolicyRef, Applicable, EvaluatorRef, AuthorityScope}
  }

  function ApplicabilityPart(r: WorkflowRequest): (m: map<Name, Json>)
    requires r.Applicability?
    ensures m.Keys == ApplicabilityNames() && forall k :: k in m ==> Group(k) == 1
  {
    map[PolicyRef := Str(r.policyRef), Applicable := Bool(r.applicable), EvaluatorRef := Str(r.evaluatorRef),
        AuthorityScope := Str(r.authorityScope)]
  }

  function CapabilityNames(): set<Name> {
    {PolicyRef, CapabilityRef, ProbeKind, Available, AuthorityScope, ProbeRef, ProbeDigest}
  }

  function CapabilityPart(r: WorkflowRequest): (m: map<Name, Json>)
    requires r.CapabilityProbe?
    ensures m.Keys == CapabilityNames() && forall k :: k in m ==> Group(k) == 1
  {
    map[PolicyRef := Str(r.policyRef), CapabilityRef := Str(r.capabilityRef), ProbeKind := Str(r.probeKind),
        Available := Bool(r.available), AuthorityScope := Str(r.authorityScope), ProbeRef := Str(r.probeRef),
        ProbeDigest := Str(r.probeDigest)]
  }

  function SignalNames(): set<Name> {
    {Signal, Attestations.Name.Active, EpisodeId, Generation}
  }

  function SignalPart(r: WorkflowRequest): (m: map<Name, Json>)
    requires r.SignalChange?
    ensures m.Keys == SignalNames() && forall k :: k in m ==> Group(k) == 1
  {
    map[Signal := Str(r.signal), Attestations.Name.Active := Bool(r.active), EpisodeId := Str(r.episodeId),
        Generation := Num(r.generation)]
  }

  /** The flat object a request serializes to. */
  function RequestMembers(r: WorkflowRequest): map<Name, Json> {
    match r
    case Decision(b, _, _, _, _, _) => BindingJson(b) + DecisionPart(r)
    case Waiver(b, _, _, _, _, _, _) => BindingJson(b) + WaiverPart(r)
    case Evidence(b, _, _, _, _, _, _, _, subjectKind, subjectRef, subjectDigest, _, _, observed, expiry) =>
      BindingJson(b) + (EvidencePart(r)
                        + (SubjectPart(subjectKind, subjectRef, subjectDigest) + ObservedJson(observed, expiry)))
    case Applicability(b, _, _, _, _, refs, digest, observed, until) =>
      BindingJson(b) + (ApplicabilityPart(r) + (BasisJson(refs, digest) + ObservedJson(observed, Some(until))))
    case CapabilityProbe(b, _, _, _, _, _, _, _, subjectKind, subjectRef, subjectDigest, observed, expiry) =>
      BindingJson(b) + (CapabilityPart(r)
                        + (SubjectPart(subjectKind, subjectRef, subjectDigest) + ObservedJson(observed, expiry)))
    case SignalChange(b, _, _, _, _, refs, digest, observed, until) =>
      BindingJson(b) + (SignalPart(r) + (BasisJson(refs, digest) + ObservedJson(observed, Some(until))))
  }

  function RequestJson(r: WorkflowRequest): Json {
    Obj(RequestMembers(r))
  }

  /** `workflow_intent` */
  function WorkflowIntent(r: WorkflowRequest, a: Attestation): Intent {
    Intent(WorkflowTool(), Obj(map[Action := Str(ActionOf(r)), Request := RequestJson(r)]),
           a.credentialId, a.audience, a.executionIntentDigest, a.nonce, a.ts)
  }

  function WorkflowTool(): string {
    "workflow"
  }

  // A request is determined by its JSON ----------------------------------

  lemma ActionsDiffer(r: WorkflowRequest, q: WorkflowRequest)
    requires ActionOf(r) == ActionOf(q)
    ensures r.Decision? == q.Decision? && r.Waiver? == q.Waiver? && r.Evidence? == q.Evidence?
    ensures r.Applicability? == q.Applicability? && r.CapabilityProbe? == q.CapabilityProbe?
            && r.SignalChange? == q.SignalChange?
  {
  }

  lemma LabelsDiffer(p: EvaluatorProvider, q: EvaluatorProvider, k: EvidenceKind, l: EvidenceKind,
                     s: EvidenceStrength, t: EvidenceStrength)
    ensures ProviderLabel(p) == ProviderLabel(q) ==> p == q
    ensures KindLabel(k) == KindLabel(l) ==> k == l
    ensures StrengthLabel(s) == StrengthLabel(t) ==> s == t
  {
    assert ProviderLabel(p) == ProviderLabel(q) ==> |ProviderLabel(p).s| == |ProviderLabel(q).s|;
  }

  lemma SubjectFixed(s: WaiverSubject, t: WaiverSubject)
    requires SubjectJson(s) == SubjectJson(t)
    ensures s == t
  {
    var m, n := SubjectJson(s).members, SubjectJson(t).members;
    assert ClaimRef in m <==> s.Claim?;
    assert ClaimRef in n <==> t.Claim?;
    if s.Claim? {
      assert m[ClaimRef] == n[ClaimRef];
    } else {
      assert m[ObligationRef] == n[ObligationRef];
    }
  }

  /** Objects put together from parts with the same names are equal only part by part. */
  lemma PartsFixed(a: map<Name, Json>, b: map<Name, Json>, c: map<Name, Json>, d: map<Name, Json>)
    requires a + b == c + d && a.Keys == c.Keys && b.Keys == d.Keys && a.Keys !! b.Keys
    ensures a == c && b == d
  {
    forall k | k in a ensures a[k] == c[k] {
      assert (a + b)[k] == (c + d)[k];
    }
    forall k | k in b ensures b[k] == d[k] {
      assert (a + b)[k] == (c + d)[k];
    }
  }

  lemma FourPartsFixed(a: map<Name, Json>, b: map<Name, Json>, c: map<Name, Json>, d: map<Name, Json>,
                       e: map<Name, Json>, f: map<Name, Json>, g: map<Name, Json>, h: map<Name, Json>)
    requires a + (b + (c + d)) == e + (f + (g + h))
    requires a.Keys == e.Keys && b.Keys == f.Keys && c.Keys == g.Keys && d.Keys == h.Keys
    requires forall k :: && (k in a ==> Group(k) == 0) && (k in b ==> Group(k) == 1)
                         && (k in c ==> Group(k) == 2) && (k in d ==> Group(k) == 3)
    ensures a == e && b == f && c == g && d == h
  {
    hide Group;
    PartsFixed(a, b + (c + d), e, f + (g + h));
    PartsFixed(b, c + d, f, g + h);
    PartsFixed(c, d, g, h);
  }

  lemma BindingFixed(b: Binding, c: Binding)
    requires BindingJson(b) == BindingJson(c)
    ensures b == c
  {
  }

  lemma ObservedFixed(observed: U64, expires: Option<U64>, observed2: U64, expires2: Option<U64>)
    requires ObservedJson(observed, expires) == ObservedJson(observed2, expires2)
    ensures observed == observed2 && expires == expires2
  {
  }

  lemma SubjectPartFixed(kind: string, ref: string, digest: string, kind2: string, ref2: string, digest2: string)
    requires SubjectPart(kind, ref, digest) == SubjectPart(kind2, ref2, digest2)
    ensures kind == kind2 && ref == ref2 && digest == digest2
  {
  }

  lemma BasisFixed(refs: seq<string>, digest: string, refs2: seq<string>, digest2: string)
    requires BasisJson(refs, digest) == BasisJson(refs2, digest2)
    ensures refs == refs2 && digest == digest2
  {
  }

  lemma DecisionFixed(r: WorkflowRequest, q: WorkflowRequest)
    requires r.Decision? && q.Decision? && RequestMembers(r) == RequestMembers(q)
    ensures r == q
  {
  }

  lemma WaiverFixed(r: WorkflowRequest, q: WorkflowRequest)
    requires r.Waiver? && q.Waiver? && RequestMembers(r) == RequestMembers(q)
    ensures r == q
  {
    hide BindingJson, SubjectJson, BindingNames, Group;
    var m, n := WaiverPart(r), WaiverPart(q);
    PartsFixed(BindingJson(r.bound), m, BindingJson(q.bound), n);
    BindingFixed(r.bound, q.bound);
    assert m[PolicyRef] == n[PolicyRef] && m[Subject] == n[Subject]
           && m[MaximumReadinessTarget] == n[MaximumReadinessTarget];
    SubjectFixed(r.subject, q.subject);
    assert m[Reason] == n[Reason] && m[ConsequencesAckDigest] == n[ConsequencesAckDigest]
           && m[ExpiresAtUnix] == n[ExpiresAtUnix];
  }

  lemma EvidencePartFixed(r: WorkflowRequest, q: WorkflowRequest)
    requires r.Evidence? && q.Evidence? && EvidencePart(r) == EvidencePart(q)
    ensures r.policyRef == q.policyRef && r.claimRef == q.claimRef && r.evaluatorRef == q.evaluatorRef
    ensures r.provider == q.provider && r.kind == q.kind && r.strength == q.strength && r.outcome == q.outcome
    ensures r.scenarioDigest == q.scenarioDigest && r.target == q.target
  {
    hide ProviderLabel, KindLabel, StrengthLabel;
    var m, n := EvidencePart(r), EvidencePart(q);
    assert m[PolicyRef] == n[PolicyRef] && m[ClaimRef] == n[ClaimRef] && m[EvaluatorRef] == n[EvaluatorRef];
    assert m[Provider] == n[Provider] && m[Kind] == n[Kind] && m[Strength] == n[Strength];
    LabelsDiffer(r.provider, q.provider, r.kind, q.kind, r.strength, q.strength);
    assert m[Outcome] == n[Outcome] && m[ScenarioDigest] == n[ScenarioDigest]
           && m[ReadinessTarget] == n[ReadinessTarget];
  }

  lemma EvidenceFixed(r: WorkflowRequest, q: WorkflowRequest)
    requires r.Evidence? && q.Evidence? && RequestMembers(r) == RequestMembers(q)
    ensures r == q
  {
    hide BindingJson, EvidencePart, SubjectPart, ObservedJson, BindingNames, EvidenceNames, SubjectNames,
         ObservedNames, Group;
    var s, t := SubjectPart(r.subjectKind, r.subjectRef, r.subjectDigest),
        SubjectPart(q.subjectKind, q.subjectRef, q.subjectDigest);
    var o, p := ObservedJson(r.observedAt, r.expiry), ObservedJson(q.observedAt, q.expiry);
    FourPartsFixed(BindingJson(r.bound), EvidencePart(r), s, o, BindingJson(q.bound), EvidencePart(q), t, p);
    BindingFixed(r.bound, q.bound);
    EvidencePartFixed(r, q);
    SubjectPartFixed(r.subjectKind, r.subjectRef, r.subjectDigest, q.subjectKind, q.subjectRef, q.subjectDigest);
    ObservedFixed(r.observedAt, r.expiry, q.observedAt, q.expiry);
  }

  lemma ApplicabilityFixed(r: WorkflowRequest, q: WorkflowRequest)
    requires r.Applicability? && q.Applicability? && RequestMembers(r) == RequestMembers(q)
    ensures r == q
  {
    hide BindingJson, BasisJson, ObservedJson, BindingNames, BasisNames, ObservedNames, Group;
    var s, t := BasisJson(r.basisRefs, r.basisDigest), BasisJson(q.basisRefs, q.basisDigest);
    var o, p := ObservedJson(r.observedAt, Some(r.until)), ObservedJson(q.observedAt, Some(q.until));
    var m, n := ApplicabilityPart(r), ApplicabilityPart(q);
    FourPartsFixed(BindingJson(r.bound), m, s, o, BindingJson(q.bound), n, t, p);
    BindingFixed(r.bound, q.bound);
    BasisFixed(r.basisRefs, r.basisDigest, q.basisRefs, q.basisDigest);
    ObservedFixed(r.observedAt, Some(r.until), q.observedAt, Some(q.until));
    assert m[PolicyRef] == n[PolicyRef] && m[Applicable] == n[Applicable] && m[EvaluatorRef] == n[EvaluatorRef];
    assert m[AuthorityScope] == n[AuthorityScope];
  }

  lemma CapabilityPartFixed(r: WorkflowRequest, q: WorkflowRequest)
    requires r.CapabilityProbe? && q.CapabilityProbe? && CapabilityPart(r) == CapabilityPart(q)
    ensures r.policyRef == q.policyRef && r.capabilityRef == q.capabilityRef && r.probeKind == q.probeKind
    ensures r.available == q.available && r.authorityScope == q.authorityScope
    ensures r.probeRef == q.probeRef && r.probeDigest == q.probeDigest
  {
  }

  lemma CapabilityFixed(r: WorkflowRequest, q: WorkflowRequest)
    requires r.CapabilityProbe? && q.CapabilityProbe? && RequestMembers(r) == RequestMembers(q)
    ensures r == q
  {
    hide BindingJson, CapabilityPart, SubjectPart, ObservedJson, BindingNames, CapabilityNames, SubjectNames,
         ObservedNames, Group;
    var s, t := SubjectPart(r.subjectKind, r.subjectRef, r.subjectDigest),
        SubjectPart(q.subjectKind, q.subjectRef, q.subjectDigest);
    var o, p := ObservedJson(r.observedAt, r.expiry), ObservedJson(q.observedAt, q.expiry);
    FourPartsFixed(BindingJson(r.bound), CapabilityPart(r), s, o, BindingJson(q.bound), CapabilityPart(q), t, p);
    BindingFixed(r.bound, q.bound);
    CapabilityPartFixed(r, q);
    SubjectPartFixed(r.subjectKind, r.subjectRef, r.subjectDigest, q.subjectKind, q.subjectRef, q.subjectDigest);
    ObservedFixed(r.observedAt, r.expiry, q.observedAt, q.expiry);
  }

  lemma SignalFixed(r: WorkflowRequest, q: WorkflowRequest)
    requires r.SignalChange? && q.SignalChange? && RequestMembers(r) == RequestMembers(q)
    ensures r == q
  {
    hide BindingJson, BasisJson, ObservedJson, BindingNames, BasisNames, ObservedNames, Group;
    var s, t := BasisJson(r.basisRefs, r.basisDigest), BasisJson(q.basisRefs, q.basisDigest);
    var o, p := ObservedJson(r.observedAt, Some(r.until)), ObservedJson(q.observedAt, Some(q.until));
    var m, n := SignalPart(r), SignalPart(q);
    FourPartsFixed(BindingJson(r.bound), m, s, o, BindingJson(q.bound), n, t, p);
    BindingFixed(r.bound, q.bound);
    BasisFixed(r.basisRefs, r.basisDigest, q.basisRefs, q.basisDigest);
    ObservedFixed(r.observedAt, Some(r.until), q.observedAt, Some(q.until));
    assert m[Signal] == n[Signal] && m[Attestations.Name.Active] == n[Attestations.Name.Active];
    assert m[EpisodeId] == n[EpisodeId] && m[Generation] == n[Generation];
  }

  /** The intent a factory builds tells its kind and its whole request. */
  lemma IntentFixesRequest(r: WorkflowRequest, q: WorkflowRequest, a: Attestation)
    requires WorkflowIntent(r, a) == WorkflowIntent(q, a)
    ensures r == q
  {
    hide ActionOf, RequestMembers;
    var m, n := WorkflowIntent(r, a).arguments.members, WorkflowIntent(q, a).arguments.members;
    assert m[Action] == n[Action] && m[Request] == n[Request];
    ActionsDiffer(r, q);
    match r
    case Decision(_, _, _, _, _, _) => DecisionFixed(r, q);
    case Waiver(_, _, _, _, _, _, _) => WaiverFixed(r, q);
    case Evidence(_, _, _, _, _, _, _, _, _, _, _, _, _, _, _) => EvidenceFixed(r, q);
    case Applicability(_, _, _, _, _, _, _, _, _) => ApplicabilityFixed(r, q);
    case CapabilityProbe(_, _, _, _, _, _, _, _, _, _, _, _, _) => CapabilityFixed(r, q);
    case SignalChange(_, _, _, _, _, _, _, _, _) => SignalFixed(r, q);
  }

  // Validity of requests -------------------------------------------------

  predicate HexDigit(c: char) {
    '0' <= c <= '9' || 'a' <= c <= 'f' || 'A' <= c <= 'F'
  }

  /** `digest`: letters of either case are taken here. */
  predicate IsDigest(value: string) {
    |value| == 71 && value[..7] == "sha256:" && forall i :: 7 <= i < 71 ==> HexDigit(value[i])
  }

  /** Such a digest is a token up to the case of its digits. */
  lemma DigestExactly(value: string)
    ensures IsDigest(value) <==> |value| >= 7 && value[..7] == "sha256:" && Sha256Token("sha256:" + Lower(value[7..]))
  {
    if |value| == 71 && value[..7] == "sha256:" {
      var lower := "sha256:" + Lower(value[7..]);
      assert forall i :: 7 <= i < 71 ==> lower[i] == LowerChar(value[i]);
    }
  }

  predicate BindingValid(b: Binding) {
    && !Blank(b.projectId) && IsDigest(b.policyBundleDigest) && !Blank(b.currentPhase)
    && IsDigest(b.snapshotDigest) && IsDigest(b.ledgerHeadDigest)
  }

  predicate RefsValid(refs: seq<string>) {
    refs != [] && forall i :: 0 <= i < |refs| ==> !Blank(refs[i])
  }

  /** The observation is not from the future and has not lapsed, on the clock `now` read as unsigned. */
  predicate TimesValid(observed: U64, expiry: Option<U64>, now: I64) {
    var clock := if now < 0 then 0 else now;
    && 0 < observed <= clock + DEFAULT_MAX_FUTURE_SKEW
    && (expiry.Some? ==> observed < expiry.value && clock < expiry.value)
  }

  const DEFAULT_MAX_AGE: U64 := 300
  const DEFAULT_MAX_FUTURE_SKEW: U64 := 30

  function ApplicabilityEvaluator(): string {
    "evaluator.workflow.applicability.human"
  }

  function ApplicabilityScope(): string {
    "workflow.applicability.assess"
  }

  function CapabilityScope(): string {
    "workflow.capability.authorize"
  }

  /** Texts are not blank and digests are digests. */
  predicate FieldsValid(r: WorkflowRequest) {
    && BindingValid(r.bound)
    && match r
       case Decision(_, policyRef, decisionRef, alternative, target, ack) =>
         && !Blank(policyRef) && !Blank(decisionRef) && !Blank(alternative) && !Blank(target) && IsDigest(ack)
       case Waiver(_, policyRef, subject, target, reason, ack, _) =>
         && !Blank(policyRef) && !Blank(if subject.Claim? then subject.claimRef else subject.obligationRef)
         && !Blank(target) && !Blank(reason) && IsDigest(ack)
       case Evidence(_, policyRef, claim, evaluator, _, _, _, _, _, subjectRef, subjectDigest, scenario, _, _, _) =>
         && !Blank(policyRef) && !Blank(claim) && !Blank(evaluator) && !Blank(subjectRef)
         && IsDigest(subjectDigest) && IsDigest(scenario)
       case Applicability(_, policyRef, _, _, _, _, digest, _, _) => !Blank(policyRef) && IsDigest(digest)
       case CapabilityProbe(_, policyRef, capability, _, _, _, probeRef, probeDigest, _, subjectRef, subjectDigest,
                            _, _) =>
         && !Blank(policyRef) && !Blank(capability) && !Blank(probeRef) && IsDigest(probeDigest)
         && !Blank(subjectRef) && IsDigest(subjectDigest)
       case SignalChange(_, _, _, episode, _, _, digest, _, _) => !Blank(episode) && IsDigest(digest)
  }

  /** What a request must be: well-formed, current, and in the closed values of its kind. */
  predicate RequestValid(r: WorkflowRequest, now: I64) {
    && FieldsValid(r)
    && match r
       case Decision(_, _, _, _, _, _) => true
       case Waiver(_, _, _, _, _, _, expires) => now < expires
       case Evidence(_, _, _, _, _, _, _, _, _, _, _, _, _, observed, expiry) =>
         EvidenceAuthority(r).Ok? && TimesValid(observed, expiry, now)
       case Applicability(_, _, _, evaluator, scope, refs, _, observed, until) =>
         && evaluator == "evaluator.workflow.applicability.human" && scope == "workflow.applicability.assess"
         && RefsValid(refs) && TimesValid(observed, Some(until), now)
       case CapabilityProbe(_, _, _, _, _, scope, _, _, _, _, _, observed, expiry) =>
         scope == "workflow.capability.authorize" && TimesValid(observed, expiry, now)
       case SignalChange(_, _, _, _, generation, refs, _, observed, until) =>
         generation > 0 && RefsValid(refs) && TimesValid(observed, Some(until), now)
  }

  /** The fields that must not be blank. */
  function Texts(r: WorkflowRequest): seq<string> {
    match r
    case Decision(b, policyRef, decisionRef, alternative, target, _) =>
      [b.projectId, policyRef, decisionRef, alternative, b.currentPhase, target]
    case Waiver(b, policyRef, subject, target, reason, _, _) =>
      [b.projectId, policyRef, if subject.Claim? then subject.claimRef else subject.obligationRef, b.currentPhase,
       target, reason]
    case Evidence(b, policyRef, claim, evaluator, _, _, _, _, _, subjectRef, _, _, _, _, _) =>
      [b.projectId, policyRef, claim, evaluator, subjectRef, b.currentPhase]
    case Applicability(b, policyRef, _, _, _, _, _, _, _) => [b.projectId, policyRef, b.currentPhase]
    case CapabilityProbe(b, policyRef, capability, _, _, _, probeRef, _, _, subjectRef, _, _, _) =>
      [b.projectId, policyRef, b.currentPhase, capability, probeRef, subjectRef]
    case SignalChange(b, _, _, episode, _, _, _, _, _) => [b.projectId, b.currentPhase, episode]
  }

  /** The fields that must be digests, besides the three of the binding. */
  function Digests(r: WorkflowRequest): seq<string> {
    match r
    case Decision(_, _, _, _, _, ack) => [ack]
    case Waiver(_, _, _, _, _, ack, _) => [ack]
    case Evidence(_, _, _, _, _, _, _, _, _, _, subject, scenario, _, _, _) => [subject, scenario]
    case Applicability(_, _, _, _, _, _, basis, _, _) => [basis]
    case CapabilityProbe(_, _, _, _, _, _, _, probe, _, _, subject, _, _) => [probe, subject]
    case SignalChange(_, _, _, _, _, _, basis, _, _) => [basis]
  }

  predicate SomeBlank(values: seq<string>) {
    exists v :: v in values && Blank(v)
  }

  /** The fields common to all kinds: anything blank, or no digest where one is due. */
  predicate Malformed(r: WorkflowRequest) {
    || SomeBlank(Texts(r))
    || (exists v :: v in [r.bound.policyBundleDigest, r.bound.snapshotDigest, r.bound.ledgerHeadDigest] + Digests(r)
                    && !IsDigest(v))
  }

  /** The time checks of `validate_authorization_timestamps`, which evidence repeats with its own error. */
  predicate OutOfBounds(observed: U64, expiry: Option<U64>, now: I64) {
    var clock := if now >= 0 then now else 0;
    || observed == 0 || observed > clock + DEFAULT_MAX_FUTURE_SKEW
    || (expiry.Some? && (expiry.value <= observed || expiry.value <= clock))
  }

  /** The six validators in their order; a field that fails is not named. */
  function ValidateRequest(r: WorkflowRequest, now: I64): Result<(), Error> {
    if Malformed(r) then Err(InvalidRequest)
    else
      match r
      case Decision(_, _, _, _, _, _) => Ok(())
      case Waiver(_, _, _, _, _, _, expires) => if expires <= now then Err(WaiverExpired) else Ok(())
      case Evidence(_, _, _, _, _, _, _, _, _, _, _, _, _, observed, expiry) =>
        if EvidenceAuthority(r).Err? then Err(EvidenceAuthority(r).error)
        else if OutOfBounds(observed, expiry, now) then Err(EvidenceTimestampOutOfBounds)
        else Ok(())
      case Applicability(_, _, _, evaluator, scope, refs, _, observed, until) =>
        if evaluator != ApplicabilityEvaluator() || scope != ApplicabilityScope() || refs == [] || SomeBlank(refs)
        then Err(InvalidRequest)
        else if OutOfBounds(observed, Some(until), now) then Err(AuthorizationTimestampOutOfBounds)
        else Ok(())
      case CapabilityProbe(_, _, _, _, _, scope, _, _, _, _, _, observed, expiry) =>
        if scope != CapabilityScope() then Err(InvalidRequest)
        else if OutOfBounds(observed, expiry, now) then Err(AuthorizationTimestampOutOfBounds)
        else Ok(())
      case SignalChange(_, _, _, _, generation, refs, _, observed, until) =>
        if generation == 0 || refs == [] || SomeBlank(refs) then Err(InvalidRequest)
        else if OutOfBounds(observed, Some(until), now) then Err(AuthorizationTimestampOutOfBounds)
        else Ok(())
  }

  lemma MalformedExactly(r: WorkflowRequest)
    ensures !Malformed(r) <==>
            && IsDigest(r.bound.policyBundleDigest) && IsDigest(r.bound.snapshotDigest)
            && IsDigest(r.bound.ledgerHeadDigest)
            && (forall i :: 0 <= i < |Texts(r)| ==> !Blank(Texts(r)[i]))
            && (forall i :: 0 <= i < |Digests(r)| ==> IsDigest(Digests(r)[i]))
  {
    hide IsDigest, Blank, Texts, Digests;
    var binding := [r.bound.policyBundleDigest, r.bound.snapshotDigest, r.bound.ledgerHeadDigest];
    assert binding[0] in binding && binding[1] in binding && binding[2] in binding;
    assert forall v :: v in binding + Digests(r) <==> v in binding || v in Digests(r);
  }

  lemma FieldsExactly(r: WorkflowRequest)
    ensures !Malformed(r) <==> FieldsValid(r)
  {
    hide IsDigest, Blank, Malformed;
    MalformedExactly(r);
    var texts, digests := Texts(r), Digests(r);
    var t, d := [texts[0], texts[1], texts[2]], [digests[0]];
    if |texts| > 3 {
      t := t + [texts[3], texts[4], texts[5]];
    }
    if |digests| > 1 {
      d := d + [digests[1]];
    }
    assert texts == t && digests == d;
  }

  lemma TimesExactly(observed: U64, expiry: Option<U64>, now: I64)
    ensures TimesValid(observed, expiry, now) <==> !OutOfBounds(observed, expiry, now)
  {
  }

  /** The validators accept exactly the valid requests. */
  lemma ValidateExactly(r: WorkflowRequest, now: I64)
    ensures ValidateRequest(r, now).Ok? <==> RequestValid(r, now)
  {
    hide IsDigest, Blank, Malformed, TimesValid, OutOfBounds, BindingValid, EvidenceAuthority, FieldsValid;
    FieldsExactly(r);
    match r
    case Evidence(_, _, _, _, _, _, _, _, _, _, _, _, _, observed, expiry) => TimesExactly(observed, expiry, now);
    case Applicability(_, _, _, _, _, _, _, observed, until) => TimesExactly(observed, Some(until), now);
    case CapabilityProbe(_, _, _, _, _, _, _, _, _, _, _, observed, expiry) => TimesExactly(observed, expiry, now);
    case SignalChange(_, _, _, _, _, _, _, observed, until) => TimesExactly(observed, Some(until), now);
    case _ =>
  }

  // Roles and grants -----------------------------------------------------

  /** Accepted roles and the one grant that is required. */
  datatype Requirement = Requirement(roles: set<Role>, grant: string)

  /** `evidence_authority`: the closed matrix of provider, kind and strength. */
  function EvidenceAuthority(r: WorkflowRequest): Result<Requirement, Error>
    requires r.Evidence?
  {
    match (r.provider, r.kind, r.strength)
    case (AuthorizedHuman, HumanAcceptance, AuthoritativeAcceptance) =>
      Ok(Requirement({Human}, "workflow.evidence.authorize_human"))
    case (IndependentReviewer, IndependentReview, IndependentConfirmation) =>
      Ok(Requirement({Worker, Driver}, "workflow.evidence.authorize_review"))
    case (RepositoryInspector, ArtifactInspection, InspectedArtifact) =>
      Ok(Requirement({Runtime}, "workflow.evidence.authorize_runtime"))
    case (DeterministicTool, DeterministicCheck, DeterministicVerification) =>
      Ok(Requirement({Runtime}, "workflow.evidence.authorize_runtime"))
    case (RepresentativeRuntime, RepresentativeRun, RepresentativeExecution) =>
      Ok(Requirement({Runtime}, "workflow.evidence.authorize_runtime"))
    case (ExternalAuthority, _, _) => Err(UnsupportedEvidenceProvider)
    case (ResearchSource, _, _) => Err(UnsupportedEvidenceProvider)
    case (_, _, _) => Err(EvidenceClassificationMismatch)
  }

  /** The role and grant arguments of each factory. */
  function RequirementOf(r: WorkflowRequest): Result<Requirement, Error> {
    match r
    case Decision(_, _, _, _, _, _) => Ok(Requirement({Human}, "workflow.decision.resolve"))
    case Waiver(_, _, _, _, _, _, _) => Ok(Requirement({Human}, "workflow.waiver.authorize"))
    case Evidence(_, _, _, _, _, _, _, _, _, _, _, _, _, _, _) => EvidenceAuthority(r)
    case Applicability(_, _, _, _, _, _, _, _, _) => Ok(Requirement({Human}, "workflow.applicability.assess"))
    case CapabilityProbe(_, _, _, _, _, _, _, _, _, _, _, _, _) =>
      Ok(Requirement({Runtime}, "workflow.capability.authorize"))
    case SignalChange(_, _, _, _, _, _, _, _, _) =>
      Ok(Requirement({Runtime, Worker, Driver}, "workflow.signal.authorize"))
  }

  /** The matrix read the other way: what a principal with this role and these grants may authorize. */
  predicate Entitled(role: Role, grants: seq<string>, r: WorkflowRequest) {
    match role
    case Human =>
      || (r.Decision? && "workflow.decision.resolve" in grants)
      || (r.Waiver? && "workflow.waiver.authorize" in grants)
      || (r.Applicability? && "workflow.applicability.assess" in grants)
      || (r.Evidence? && r.provider.AuthorizedHuman? && r.kind.HumanAcceptance? && r.strength.AuthoritativeAcceptance?
          && "workflow.evidence.authorize_human" in grants)
    case Runtime =>
      || (r.CapabilityProbe? && "workflow.capability.authorize" in grants)
      || (r.SignalChange? && "workflow.signal.authorize" in grants)
      || (r.Evidence? && "workflow.evidence.authorize_runtime" in grants && MachineEvidence(r))
    case _ =>
      && (role.Worker? || role.Driver?)
      && (|| (r.SignalChange? && "workflow.signal.authorize" in grants)
          || (r.Evidence? && r.provider.IndependentReviewer? && r.kind.IndependentReview?
              && r.strength.IndependentConfirmation? && "workflow.evidence.authorize_review" in grants))
  }

  /** Evidence that a program gathered, each kind with its own provider and strength. */
  predicate MachineEvidence(r: WorkflowRequest)
    requires r.Evidence?
  {
    || (r.kind.ArtifactInspection? && r.provider.RepositoryInspector? && r.strength.InspectedArtifact?)
    || (r.kind.DeterministicCheck? && r.provider.DeterministicTool? && r.strength.DeterministicVerification?)
    || (r.kind.RepresentativeRun? && r.provider.RepresentativeRuntime? && r.strength.RepresentativeExecution?)
  }

  lemma EntitledExactly(role: Role, grants: seq<string>, r: WorkflowRequest)
    ensures Entitled(role, grants, r) <==>
            RequirementOf(r).Ok? && role in RequirementOf(r).value.roles && RequirementOf(r).value.grant in grants
  {
  }

  // Minting --------------------------------------------------------------

  /** An opaque workflow capability; the fingerprints are of the intent and the signature. */
  datatype Capability = Capability(request: WorkflowRequest, principal: Principal, fingerprinted: Json,
                                   signature: Signature)

  /** The six `authorize_workflow_*_with_clock` factories. */
  function Mint(points: Points, registry: Registry, r: WorkflowRequest, a: Attestation,
                now: I64): Result<Capability, Error> {
    if ValidateRequest(r, now).Err? then Err(ValidateRequest(r, now).error)
    else if RequirementOf(r).Err? then Err(RequirementOf(r).error)
    else
      var required := RequirementOf(r).value;
      var intent := WorkflowIntent(r, a);
      var principal := Authorize(points, registry, intent, a, now, DEFAULT_MAX_AGE, DEFAULT_MAX_FUTURE_SKEW);
      if principal.Err? then Err(principal.error)
      else if principal.value.role !in required.roles then Err(RoleRequired)
      else if required.grant !in principal.value.grants then Err(MissingAuthorityGrant)
      else Ok(Capability(r, principal.value, IntentJson(intent), a.signature))
  }

  /** What a capability rests on: an entry of the registry, entitled by role and grant, whose key signed this very
      request within the window. */
  ghost predicate Rests(points: Points, registry: Registry, e: Entry, r: WorkflowRequest, a: Attestation, now: I64) {
    && RequestValid(r, now)
    && Entitled(e.role, e.grants, r)
    && Authorized(points, registry, e, WorkflowIntent(r, a), a, now, DEFAULT_MAX_AGE, DEFAULT_MAX_FUTURE_SKEW)
  }

  lemma MintRests(points: Points, registry: Registry, r: WorkflowRequest, a: Attestation, now: I64) returns (e: Entry)
    requires Mint(points, registry, r, a, now).Ok?
    ensures Rests(points, registry, e, r, a, now)
    ensures Mint(points, registry, r, a, now).value.principal == PrincipalOf(registry.audience, e)
    ensures Mint(points, registry, r, a, now).value.request == r
  {
    hide RequestValid, ValidateRequest, RequirementOf, Entitled, WorkflowIntent, Authorized, IntentJson, Authorize;
    e :| && Authorized(points, registry, e, WorkflowIntent(r, a), a, now, DEFAULT_MAX_AGE, DEFAULT_MAX_FUTURE_SKEW)
         && Mint(points, registry, r, a, now).value.principal == PrincipalOf(registry.audience, e);
    EntitledExactly(e.role, e.grants, r);
    ValidateExactly(r, now);
  }

  /** In a valid registry minting succeeds exactly when some entry carries it. */
  lemma MintExact(points: Points, commands: Commands, registry: Registry, r: WorkflowRequest, a: Attestation, now: I64)
    requires RegistryValid(points, commands, registry)
    ensures Mint(points, registry, r, a, now).Ok? <==> exists e :: Rests(points, registry, e, r, a, now)
  {
    hide RequestValid, ValidateRequest, RequirementOf, Entitled, WorkflowIntent, Authorized, IntentJson, Authorize,
         RegistryValid;
    if Mint(points, registry, r, a, now).Ok? {
      var e := MintRests(points, registry, r, a, now);
    }
    forall e | Rests(points, registry, e, r, a, now) ensures Mint(points, registry, r, a, now).Ok? {
      EntitledExactly(e.role, e.grants, r);
      ValidateExactly(r, now);
      AuthorizeAdmitted(points, commands, registry, e, WorkflowIntent(r, a), a, now, DEFAULT_MAX_AGE,
                        DEFAULT_MAX_FUTURE_SKEW);
    }
  }

  /** What an entry's holder sends: the named fields, signed together with the request. */
  function SignedFor(points: Points, audience: string, e: Entry, r: WorkflowRequest, digest: Option<string>,
                     nonce: string, ts: I64): Attestation {
    var unsigned := Attestation(Some(e.credentialId), Some(audience), digest, nonce, ts, Garbage, e.publicKeyHex);
    var key := DecodeKey(points, e.publicKeyHex);
    if key.None? then unsigned else unsigned.(signature := Signed(key.value, IntentJson(WorkflowIntent(r, unsigned))))
  }

  /** Signing and presenting succeeds: every active entry of a valid registry that may use the workflow tool and is
      entitled by role and grant mints any valid request it signs. */
  lemma SignThenMint(points: Points, commands: Commands, registry: Registry, e: Entry, r: WorkflowRequest,
                     digest: Option<string>, nonce: string, now: I64)
    requires RegistryValid(points, commands, registry) && e in registry.principals && e.status.Active?
    requires WorkflowTool() in e.allowedTools && NonceValid(nonce)
    requires RequestValid(r, now) && Entitled(e.role, e.grants, r)
    ensures var o := Mint(points, registry, r, SignedFor(points, registry.audience, e, r, digest, nonce, now), now);
            o.Ok? && o.value.principal == PrincipalOf(registry.audience, e)
  {
    hide RequestValid, ValidateRequest, RequirementOf, Entitled, IntentJson, DecodeKey, Lower, NonceValid,
         ExecuteTool, WorkflowTool, RequestJson, ActionOf, Blank, Authorize, IdList, RegistryValid, Sha256Token,
         ExecuteGrant;
    EntitledExactly(e.role, e.grants, r);
    ValidateExactly(r, now);
    var a := SignedFor(points, registry.audience, e, r, digest, nonce, now);
    EntryOf(points, commands, registry, e);
    ValidatedKeyDecodes(points, commands, e);
    ToolsDiffer();
    assert Authorized(points, registry, e, WorkflowIntent(r, a), a, now, DEFAULT_MAX_AGE, DEFAULT_MAX_FUTURE_SKEW);
    AuthorizeAdmitted(points, commands, registry, e, WorkflowIntent(r, a), a, now, DEFAULT_MAX_AGE,
                      DEFAULT_MAX_FUTURE_SKEW);
  }

  lemma EntryOf(points: Points, commands: Commands, registry: Registry, e: Entry)
    requires RegistryValid(points, commands, registry) && e in registry.principals
    ensures EntryValid(points, commands, e) && !Blank(registry.audience)
  {
    hide EntryValid, Blank;
    var i :| 0 <= i < |registry.principals| && registry.principals[i] == e;
  }

  /** One attestation mints at most one kind of capability for one request, through whatever registries and
      at whatever times it is presented. */
  lemma OneAttestationOneCapability(points: Points, g1: Registry, r1: WorkflowRequest, now1: I64,
                                    g2: Registry, r2: WorkflowRequest, now2: I64, a: Attestation)
    requires Mint(points, g1, r1, a, now1).Ok? && Mint(points, g2, r2, a, now2).Ok?
    ensures r1 == r2
    ensures g1 == g2 ==> Mint(points, g1, r1, a, now1).value.principal.credentialId
                         == Mint(points, g2, r2, a, now2).value.principal.credentialId
  {
    hide Mint, RequestValid, RequirementOf, WorkflowIntent;
    var e1 := MintRests(points, g1, r1, a, now1);
    var e2 := MintRests(points, g2, r2, a, now2);
    AttestationFixesIntent(points, g1, e1, WorkflowIntent(r1, a), now1, DEFAULT_MAX_AGE, DEFAULT_MAX_FUTURE_SKEW,
                           g2, e2, WorkflowIntent(r2, a), now2, DEFAULT_MAX_AGE, DEFAULT_MAX_FUTURE_SKEW, a);
    IntentFixesRequest(r1, r2, a);
  }

  /** An attestation that mints a workflow capability never authorizes an execution, in any registry, for any
      intent, window and time. */
  lemma NeverAlsoExecution(points: Points, g1: Registry, r: WorkflowRequest, now1: I64, g2: Registry,
                           i: Intent, now2: I64, maxAge: U64, maxSkew: U64, a: Attestation)
    requires Mint(points, g1, r, a, now1).Ok?
    ensures AuthorizeExecution(points, g2, i, a, now2, maxAge, maxSkew).Err?
  {
    hide Mint, RequestValid, RequirementOf, AuthorizeExecution, RequestJson, ActionOf, ExecuteTool, WorkflowTool;
    var e1 := MintRests(points, g1, r, a, now1);
    if AuthorizeExecution(points, g2, i, a, now2, maxAge, maxSkew).Ok? {
      var e2 :| Authorized(points, g2, e2, i, a, now2, maxAge, maxSkew);
      AttestationFixesIntent(points, g1, e1, WorkflowIntent(r, a), now1, DEFAULT_MAX_AGE, DEFAULT_MAX_FUTURE_SKEW,
                             g2, e2, i, now2, maxAge, maxSkew, a);
      ToolsDiffer();
      assert false;
    }
  }

  lemma ToolsDiffer()
    ensures WorkflowTool() != ExecuteTool()
  {
  }

  /** A minted capability was signed at most five minutes before and half a minute after the clock. */
  lemma MintIsFresh(points: Points, registry: Registry, r: WorkflowRequest, a: Attestation, now: I64)
    requires Mint(points, registry, r, a, now).Ok?
    ensures now - 300 <= a.ts <= now + 30
  {
    hide Mint, RequestValid, RequirementOf, WorkflowIntent, IntentJson, DecodeKey, Lower;
    var e := MintRests(points, registry, r, a, now);
  }
}
