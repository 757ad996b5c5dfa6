/** Tool-call attestations and the operator's principal registry. The canonical form of a signed intent is
    its JSON value; a signature is symbolic. */
module Attestations {
  import opened Lists
  import opened Hex

  // Integers -------------------------------------------------------------

  const I64_MIN: int := -0x8000_0000_0000_0000
  const I64_MAX: int := 0x7FFF_FFFF_FFFF_FFFF

  type I64 = n: int | I64_MIN <= n <= I64_MAX
  type U64 = n: int | 0 <= n <= U64_MAX

  // Signed intents -------------------------------------------------------

  /** Member names of the JSON objects built here, and any other name. */
  datatype Name =
    | Tool | Arguments | CredentialId | Audience | ExecutionIntentDigest | Nonce | Ts
    | Action | Request
    | ProjectId | PolicyBundleDigest | PolicyRef | StateVersion | CurrentPhase | SnapshotDigest | LedgerHeadDigest
    | DecisionRef | SelectedAlternativeRef | ReadinessTarget | ConsequencesAckDigest
    | Subject | MaximumReadinessTarget | Reason | ExpiresAtUnix | Kind | ClaimRef | ObligationRef
    | EvaluatorRef | Provider | Strength | Outcome | SubjectKind | SubjectRef | SubjectDigest | ScenarioDigest
    | ObservedAtUnix
    | Applicable | AuthorityScope | BasisRefs | BasisDigest
    | CapabilityRef | ProbeKind | Available | ProbeRef | ProbeDigest
    | Signal | Active | EpisodeId | Generation
    | Other(name: string)

  datatype Json = Null | Bool(b: bool) | Num(n: int) | Str(s: string) | Arr(items: seq<Json>)
    | Obj(members: map<Name, Json>)

  datatype Intent = Intent(tool: string, arguments: Json, credentialId: Option<string>, audience: Option<string>,
                           executionIntentDigest: Option<string>, nonce: string, ts: I64)

  /** An absent optional field is left out of the object. */
  function Member(name: Name, value: Option<string>): map<Name, Json> {
    if value.None? then map[] else map[name := Str(value.value)]
  }

  /** `canonical_bytes`, up to the injective byte form of a JSON value. */
  function IntentJson(i: Intent): Json {
    Obj(map[Tool := Str(i.tool), Arguments := i.arguments, Nonce := Str(i.nonce), Ts := Num(i.ts)]
        + Member(CredentialId, i.credentialId) + Member(Audience, i.audience)
        + Member(ExecutionIntentDigest, i.executionIntentDigest))
  }

  lemma IntentField(i: Intent)
    ensures IntentJson(i).Obj?
    ensures var m := IntentJson(i).members;
            && m.Keys >= {Tool, Arguments, Nonce, Ts}
            && m[Tool] == Str(i.tool) && m[Arguments] == i.arguments && m[Nonce] == Str(i.nonce) && m[Ts] == Num(i.ts)
            && (CredentialId in m <==> i.credentialId.Some?)
            && (CredentialId in m ==> m[CredentialId] == Str(i.credentialId.value))
            && (Audience in m <==> i.audience.Some?) && (Audience in m ==> m[Audience] == Str(i.audience.value))
            && (ExecutionIntentDigest in m <==> i.executionIntentDigest.Some?)
            && (ExecutionIntentDigest in m ==> m[ExecutionIntentDigest] == Str(i.executionIntentDigest.value))
  {
  }

  /** Different intents have different canonical forms, absent fields included. */
  lemma IntentJsonInjective(a: Intent, b: Intent)
    requires IntentJson(a) == IntentJson(b)
    ensures a == b
  {
    hide IntentJson;
    IntentField(a);
    IntentField(b);
  }

  type Key = seq<Octet>

  datatype Signature = Signed(key: Key, message: Json) | Garbage | Malformed

  datatype Attestation = Attestation(credentialId: Option<string>, audience: Option<string>,
                                     executionIntentDigest: Option<string>, nonce: string, ts: I64,
                                     signature: Signature, publicKeyHex: string)

  datatype Error =
    | SignatureDecode | KeyDecode | Expired | FromFuture | InvalidSignature
    | MissingCredentialId | MissingAudience | MissingExecutionIntentDigest | InvalidExecutionIntentDigest | InvalidNonce
    | UnsupportedExecutionTool | UnknownCredential | CredentialRevoked | AudienceMismatch | PublicKeyMismatch
    | ToolNotAllowed | MissingAuthorityGrant
    | InvalidRequest | RoleRequired | WaiverExpired | UnsupportedEvidenceProvider | EvidenceClassificationMismatch
    | EvidenceTimestampOutOfBounds | AuthorizationTimestampOutOfBounds

  /** Which 32-byte strings are curve points is left open. */
  type Points = Key -> bool

  /** `decode_verifying_key` */
  function DecodeKey(points: Points, hex: string): Option<Key> {
    var bytes := Decode(hex);
    if bytes.Some? && |bytes.value| == 32 && points(bytes.value) then bytes else None
  }

  /** The attestation's own fields are those of the intent. */
  predicate Carries(a: Attestation, i: Intent) {
    && i.nonce == a.nonce && i.ts == a.ts
    && i.credentialId == a.credentialId && i.audience == a.audience
    && i.executionIntentDigest == a.executionIntentDigest
  }

  /** `verify_with_public_key` */
  function VerifyWithPublicKey(points: Points, i: Intent, a: Attestation, hex: string): (r: Result<(), Error>)
    ensures r.Ok? <==> && Carries(a, i) && DecodeKey(points, hex).Some?
                       && a.signature == Signed(DecodeKey(points, hex).value, IntentJson(i))
  {
    if !Carries(a, i) then Err(InvalidSignature)
    else if DecodeKey(points, hex).None? then Err(KeyDecode)
    else if a.signature.Malformed? then Err(SignatureDecode)
    else if a.signature != Signed(DecodeKey(points, hex).value, IntentJson(i)) then Err(InvalidSignature)
    else Ok(())
  }

  /** Sign and verify: a signature over an intent verifies for that intent and, whatever is changed in tool,
      arguments or fields, for no other. */
  lemma SignatureVerifiesOnlyIts(points: Points, i: Intent, j: Intent, a: Attestation, hex: string)
    requires DecodeKey(points, hex).Some? && Carries(a, i)
             && a.signature == Signed(DecodeKey(points, hex).value, IntentJson(i))
    ensures VerifyWithPublicKey(points, j, a, hex).Ok? <==> j == i
  {
    hide IntentJson, DecodeKey;
    if IntentJson(j) == IntentJson(i) {
      IntentJsonInjective(i, j);
    }
  }

  // Freshness ------------------------------------------------------------

  function Saturate(n: int): I64 {
    if n > I64_MAX then I64_MAX else if n < I64_MIN then I64_MIN else n
  }

  /** `verify_freshness` */
  function VerifyFreshness(ts: I64, now: I64, maxAge: U64, maxSkew: U64): (r: Result<(), Error>)
    ensures r == Err(FromFuture) <==> ts > now + Saturate(maxSkew)
    ensures r == Err(Expired) <==> ts <= now + Saturate(maxSkew) && maxAge < I64_MAX && now - ts > maxAge
    ensures r.Ok? || r == Err(FromFuture) || r == Err(Expired)
  {
    if ts > Saturate(now + Saturate(maxSkew)) then Err(FromFuture)
    else if Saturate(now - ts) > Saturate(maxAge) then Err(Expired)
    else Ok(())
  }

  // Principal registry ---------------------------------------------------

  datatype Role = Human | Driver | Worker | Runtime | Unknown

  datatype Status = Active | Revoked

  datatype Entry = Entry(credentialId: string, principalId: string, agentId: string, role: Role, publicKeyHex: string,
                         allowedTools: seq<string>, grants: seq<string>, status: Status)

  datatype Registry = Registry(audience: string, principals: seq<Entry>)

  datatype Issue =
    | EmptyAudience | EmptyRegistry | EmptyCredentialId | EmptyPrincipalId | EmptyAgentId | UnknownRole
    | InvalidPublicKey
    | EmptyAllowedTools | UnknownTool | EmptyAuthorityGrants | DuplicateCredentialId | DuplicatePublicKey
    | DuplicateAllowedTool | DuplicateAuthorityGrant

  /** The command surface is left open. */
  type Commands = string -> bool

  /** Non-empty, without blanks or repeats. */
  ghost predicate IdList(values: seq<string>) {
    values != [] && Distinct(values) && forall v :: v in values ==> !Blank(v)
  }

  ghost predicate EntryValid(points: Points, commands: Commands, e: Entry) {
    && !Blank(e.credentialId) && !Blank(e.principalId) && !Blank(e.agentId)
    && !e.role.Unknown?
    && DecodeKey(points, Lower(e.publicKeyHex)).Some?
    && IdList(e.allowedTools) && (forall t :: t in e.allowedTools ==> commands(t))
    && IdList(e.grants)
  }

  predicate EntriesDiffer(a: Entry, b: Entry) {
    a.credentialId != b.credentialId && Lower(a.publicKeyHex) != Lower(b.publicKeyHex)
  }

  ghost predicate RegistryValid(points: Points, commands: Commands, r: Registry) {
    && !Blank(r.audience) && r.principals != []
    && (forall i :: 0 <= i < |r.principals| ==> EntryValid(points, commands, r.principals[i]))
    && (forall i, j :: 0 <= i < j < |r.principals| ==> EntriesDiffer(r.principals[i], r.principals[j]))
  }

  /** `validate_stable_id_list` */
  method CheckIdList(values: seq<string>, empty: Issue, duplicate: Issue) returns (issues: seq<Issue>)
    ensures issues == [] <==> IdList(values)
    ensures forall x :: x in issues ==> x == empty || x == duplicate
  {
    hide Blank;
    issues := if values == [] then [empty] else [];
    var seen: set<string> := {};
    for i := 0 to |values|
      invariant seen <= set k | 0 <= k < i :: values[k]
      invariant issues == [] ==> seen == set k | 0 <= k < i :: values[k]
      invariant issues == [] <==> values != [] && Distinct(values[..i]) && forall k :: 0 <= k < i ==> !Blank(values[k])
      invariant forall x :: x in issues ==> x == empty || x == duplicate
    {
      if Blank(values[i]) || values[i] in seen {
        issues := issues + [duplicate];
      } else {
        seen := seen + {values[i]};
      }
    }
    assert values[..|values|] == values;
  }

  /** The per-tool loop over the command surface. */
  method CheckTools(commands: Commands, tools: seq<string>) returns (issues: seq<Issue>)
    ensures issues == [] <==> forall t :: t in tools ==> commands(t)
    ensures forall x :: x in issues ==> x == UnknownTool
  {
    issues := [];
    for i := 0 to |tools|
      invariant issues == [] <==> forall k :: 0 <= k < i ==> commands(tools[k])
      invariant forall x :: x in issues ==> x == UnknownTool
    {
      if !commands(tools[i]) {
        issues := issues + [UnknownTool];
      }
    }
  }

  /** One entry of the loop, apart from the two registers of seen ids and keys. */
  method CheckEntry(points: Points, commands: Commands, e: Entry) returns (issues: seq<Issue>)
    ensures issues == [] <==> EntryValid(points, commands, e)
    ensures DuplicateCredentialId !in issues && DuplicatePublicKey !in issues
  {
    hide Blank, IdList, DecodeKey, Lower;
    issues := if Blank(e.credentialId) then [EmptyCredentialId] else [];
    if Blank(e.principalId) {
      issues := issues + [EmptyPrincipalId];
    }
    if Blank(e.agentId) {
      issues := issues + [EmptyAgentId];
    }
    if e.role.Unknown? {
      issues := issues + [UnknownRole];
    }
    if DecodeKey(points, Lower(e.publicKeyHex)).None? {
      issues := issues + [InvalidPublicKey];
    }
    var tools := CheckIdList(e.allowedTools, EmptyAllowedTools, DuplicateAllowedTool);
    var unknown := CheckTools(commands, e.allowedTools);
    var grants := CheckIdList(e.grants, EmptyAuthorityGrants, DuplicateAuthorityGrant);
    issues := issues + tools + unknown + grants;
  }

  /** Two entries from different places with one id that is not blank. */
  ghost predicate IdRepeats(principals: seq<Entry>) {
    exists i, j :: 0 <= i < j < |principals| && !Blank(principals[i].credentialId)
                   && principals[i].credentialId == principals[j].credentialId
  }

  /** Two entries from different places with one key text that decodes. */
  ghost predicate KeyRepeats(points: Points, principals: seq<Entry>) {
    exists i, j :: 0 <= i < j < |principals| && DecodeKey(points, Lower(principals[i].publicKeyHex)).Some?
                   && Lower(principals[i].publicKeyHex) == Lower(principals[j].publicKeyHex)
  }

  ghost predicate EntriesValid(points: Points, commands: Commands, principals: seq<Entry>) {
    forall i :: 0 <= i < |principals| ==> EntryValid(points, commands, principals[i])
  }

  lemma RegistryValidParts(points: Points, commands: Commands, r: Registry)
    ensures RegistryValid(points, commands, r) <==>
            && !Blank(r.audience) && r.principals != []
            && EntriesValid(points, commands, r.principals) && !IdRepeats(r.principals)
            && !KeyRepeats(points, r.principals)
  {
  }

  ghost function IdsSeen(principals: seq<Entry>): set<string> {
    set e | e in principals && !Blank(e.credentialId) :: e.credentialId
  }

  ghost function KeysSeen(points: Points, principals: seq<Entry>): set<string> {
    set e | e in principals && DecodeKey(points, Lower(e.publicKeyHex)).Some? :: Lower(e.publicKeyHex)
  }

  lemma IdsExtend(front: seq<Entry>, e: Entry)
    ensures IdsSeen(front + [e]) == IdsSeen(front) + if Blank(e.credentialId) then {} else {e.credentialId}
    ensures IdRepeats(front + [e]) <==> IdRepeats(front) || e.credentialId in IdsSeen(front)
  {
    hide Blank;
    var longer := front + [e];
    assert forall k :: 0 <= k < |front| ==> longer[k] == front[k];
    assert longer[|front|] == e;
  }

  lemma KeysExtend(points: Points, front: seq<Entry>, e: Entry)
    ensures KeysSeen(points, front + [e]) ==
            KeysSeen(points, front)
            + if DecodeKey(points, Lower(e.publicKeyHex)).None? then {} else {Lower(e.publicKeyHex)}
    ensures KeyRepeats(points, front + [e])
            <==> KeyRepeats(points, front) || Lower(e.publicKeyHex) in KeysSeen(points, front)
  {
    hide DecodeKey, Lower;
    var longer := front + [e];
    assert forall k :: 0 <= k < |front| ==> longer[k] == front[k];
    assert longer[|front|] == e;
  }

  /** `validate_contract`: every issue is collected. None is left exactly for a valid registry, and the two
      kinds of duplicates are reported exactly when there are any. */
  method ValidateContract(points: Points, commands: Commands, r: Registry) returns (issues: seq<Issue>)
    ensures issues == [] <==> RegistryValid(points, commands, r)
    ensures DuplicateCredentialId in issues <==> IdRepeats(r.principals)
    ensures DuplicatePublicKey in issues <==> KeyRepeats(points, r.principals)
  {
    hide Blank, EntryValid, DecodeKey, Lower, IdRepeats, KeyRepeats, RegistryValid, IdsSeen, KeysSeen;
    var all := r.principals;
    issues := if Blank(r.audience) then [EmptyAudience] else [];
    if all == [] {
      issues := issues + [EmptyRegistry];
    }
    NoRepeats(points, all[..0]);
    var credentials: set<string>, keys: set<string> := {}, {};
    for i := 0 to |all|
      invariant credentials == IdsSeen(all[..i]) && keys == KeysSeen(points, all[..i])
      invariant DuplicateCredentialId in issues <==> IdRepeats(all[..i])
      invariant DuplicatePublicKey in issues <==> KeyRepeats(points, all[..i])
      invariant issues == [] <==> && !Blank(r.audience) && all != [] && EntriesValid(points, commands, all[..i])
                                  && !IdRepeats(all[..i]) && !KeyRepeats(points, all[..i])
    {
      var e := all[i];
      assert all[..i + 1] == all[..i] + [e];
      IdsExtend(all[..i], e);
      KeysExtend(points, all[..i], e);
      SeenMeans(points, all[..i]);
      var own := CheckEntry(points, commands, e);
      issues := issues + own;
      if !Blank(e.credentialId) {
        if e.credentialId in credentials {
          issues := issues + [DuplicateCredentialId];
        }
        credentials := credentials + {e.credentialId};
      }
      var key := Lower(e.publicKeyHex);
      if DecodeKey(points, key).Some? {
        if key in keys {
          issues := issues + [DuplicatePublicKey];
        }
        keys := keys + {key};
      }
    }
    assert all[..|all|] == all;
    RegistryValidParts(points, commands, r);
  }

  lemma SeenMeans(points: Points, principals: seq<Entry>)
    ensures forall id :: id in IdsSeen(principals) ==> !Blank(id)
    ensures forall key :: key in KeysSeen(points, principals) ==> DecodeKey(points, key).Some?
  {
  }

  lemma NoRepeats(points: Points, none: seq<Entry>)
    requires none == []
    ensures !IdRepeats(none) && !KeyRepeats(points, none) && IdsSeen(none) == {} && KeysSeen(points, none) == {}
  {
  }

  // Authorization --------------------------------------------------------

  datatype Principal = Principal(credentialId: string, principalId: string, agentId: string, role: Role,
                                 audience: string, grants: seq<string>, keyText: string)

  function PrincipalOf(audience: string, e: Entry): Principal {
    Principal(e.credentialId, e.principalId, e.agentId, e.role, audience, e.grants, Lower(e.publicKeyHex))
  }

  function ExecuteTool(): string {
    "execute-operation"
  }

  function ExecuteGrant(): string {
    "operation.execute"
  }

  /** `nonempty_option` */
  predicate Given(value: Option<string>) {
    value.Some? && !Blank(value.value)
  }

  /** Bytes of the UTF-8 form. */
  function Utf8Length(s: string): nat {
    if s == [] then 0
    else
      var c := s[|s| - 1] as int;
      Utf8Length(s[..|s| - 1]) + if c < 0x80 then 1 else if c < 0x800 then 2 else if c < 0x1_0000 then 3 else 4
  }

  predicate Control(c: char) {
    c as int < 0x20 || 0x7F <= c as int < 0xA0
  }

  predicate NonceValid(nonce: string) {
    16 <= Utf8Length(nonce) <= 256 && forall i :: 0 <= i < |nonce| ==> !Control(nonce[i])
  }

  /** What an attestation of an execution must additionally say. */
  predicate ExecutionBound(i: Intent, a: Attestation) {
    i.tool == ExecuteTool() ==> Given(a.executionIntentDigest) && Sha256Token(a.executionIntentDigest.value)
  }

  /** This entry admits the call: it is the named active credential for this audience and tool, the window
      holds, and its own key signed exactly this intent. */
  ghost predicate Admits(points: Points, audience: string, e: Entry, i: Intent, a: Attestation, now: I64, maxAge: U64,
                         maxSkew: U64) {
    && a.credentialId == Some(e.credentialId)
    && e.status.Active?
    && a.audience == Some(audience)
    && Lower(e.publicKeyHex) == Lower(a.publicKeyHex)
    && i.tool in e.allowedTools
    && (i.tool == ExecuteTool() ==> ExecuteGrant() in e.grants)
    && VerifyFreshness(a.ts, now, maxAge, maxSkew).Ok?
    && Carries(a, i)
    && DecodeKey(points, e.publicKeyHex).Some?
    && a.signature == Signed(DecodeKey(points, e.publicKeyHex).value, IntentJson(i))
  }

  /** What authorization accepts. */
  ghost predicate Authorized(points: Points, r: Registry, e: Entry, i: Intent, a: Attestation, now: I64, maxAge: U64,
                             maxSkew: U64) {
    && e in r.principals
    && Given(a.credentialId) && Given(a.audience) && ExecutionBound(i, a) && NonceValid(a.nonce)
    && Admits(points, r.audience, e, i, a, now, maxAge, maxSkew)
  }

  /** The same in plain terms: an active entry, named by the call with its audience, that lists the tool, whose
      32-byte key signed exactly this intent, inside the window and with a usable nonce; an execution also needs the
      grant and a digest token. */
  lemma AuthorizedExactly(points: Points, r: Registry, e: Entry, i: Intent, a: Attestation, now: I64, maxAge: U64,
                          maxSkew: U64)
    ensures Authorized(points, r, e, i, a, now, maxAge, maxSkew) <==>
            && e in r.principals && e.status.Active? && !Blank(e.credentialId) && !Blank(r.audience)
            && i == Intent(i.tool, i.arguments, Some(e.credentialId), Some(r.audience), a.executionIntentDigest,
                           a.nonce, a.ts)
            && a.credentialId == i.credentialId && a.audience == i.audience
            && Lower(a.publicKeyHex) == Lower(e.publicKeyHex)
            && i.tool in e.allowedTools
            && (i.tool == "execute-operation" ==>
                  && "operation.execute" in e.grants
                  && a.executionIntentDigest.Some? && Sha256Token(a.executionIntentDigest.value))
            && 16 <= Utf8Length(a.nonce) <= 256
            && (forall c :: c in a.nonce ==> ' ' <= c <= '~' || c > '\U{9F}')
            && i.ts <= now + maxSkew && i.ts <= now + I64_MAX
            && (now - i.ts <= maxAge || maxAge >= I64_MAX)
            && exists key: Key :: && |key| == 32 && points(key) && Decode(e.publicKeyHex) == Some(key)
                                  && a.signature == Signed(key, IntentJson(i))
  {
    hide IntentJson, Decode, Lower, Utf8Length, Sha256Token, Blank, NonceValid, VerifyFreshness;
    if a.executionIntentDigest.Some? && Sha256Token(a.executionIntentDigest.value) {
      TokenNotBlank(a.executionIntentDigest.value);
    }
    NonceExactly(a.nonce);
    FreshExactly(a.ts, now, maxAge, maxSkew);
  }

  lemma NonceExactly(nonce: string)
    ensures NonceValid(nonce) <==>
            16 <= Utf8Length(nonce) <= 256 && forall c :: c in nonce ==> ' ' <= c <= '~' || c > '\U{9F}'
  {
    hide Utf8Length;
    assert forall i :: 0 <= i < |nonce| ==> (!Control(nonce[i]) <==> ' ' <= nonce[i] <= '~' || nonce[i] > '\U{9F}');
    if forall c :: c in nonce ==> ' ' <= c <= '~' || c > '\U{9F}' {
      assert forall i :: 0 <= i < |nonce| ==> nonce[i] in nonce;
    }
  }

  lemma FreshExactly(ts: I64, now: I64, maxAge: U64, maxSkew: U64)
    ensures VerifyFreshness(ts, now, maxAge, maxSkew).Ok? <==>
            && ts <= now + maxSkew && ts <= now + I64_MAX
            && (now - ts <= maxAge || maxAge >= I64_MAX)
  {
  }

  lemma TokenNotBlank(value: string)
    requires Sha256Token(value)
    ensures !Blank(value)
  {
    assert value[..7][0] == 's' && !WhiteSpace('s');
  }

  function Power2(k: nat): nat {
    if k == 0 then 1 else 2 * Power2(k - 1)
  }

  /** Beyond ASCII a character takes the least number of bytes that has room for it: `w` bytes hold `5 * w + 1` bits. */
  lemma Utf8Width(s: string, c: char)
    ensures var w := Utf8Length(s + [c]) - Utf8Length(s);
            if c as int < 0x80 then w == 1
            else 2 <= w <= 4 && c as int < Power2(5 * w + 1) && (w > 2 ==> c as int >= Power2(5 * (w - 1) + 1))
  {
    assert (s + [c])[..|s|] == s;
    assert Power2(4) == 16;
    assert Power2(8) == 16 * Power2(4);
    assert Power2(11) == 8 * Power2(8);
    assert Power2(14) == 8 * Power2(11);
    assert Power2(16) == 4 * Power2(14);
    assert Power2(19) == 8 * Power2(16);
    assert Power2(21) == 4 * Power2(19);
  }

  /** The first entry with this credential id. */
  function Find(principals: seq<Entry>, credentialId: string): (r: Option<Entry>)
    ensures r.Some? ==> r.value in principals && r.value.credentialId == credentialId
    ensures r.None? ==> forall e :: e in principals ==> e.credentialId != credentialId
  {
    if principals == [] then None
    else if principals[0].credentialId == credentialId then Some(principals[0])
    else
      var rest := Find(principals[1..], credentialId);
      assert forall e :: e in principals ==> e == principals[0] || e in principals[1..];
      rest
  }

  /** The checks on the entry that was found, in the source's order. */
  function CheckEntryCall(points: Points, audience: string, e: Entry, i: Intent, a: Attestation, now: I64,
                          maxAge: U64, maxSkew: U64)
    : (r: Result<(), Error>)
    requires a.credentialId == Some(e.credentialId) && a.audience.Some?
    ensures r.Ok? <==> Admits(points, audience, e, i, a, now, maxAge, maxSkew)
  {
    if !e.status.Active? then Err(CredentialRevoked)
    else if a.audience.value != audience then Err(AudienceMismatch)
    else if Lower(e.publicKeyHex) != Lower(a.publicKeyHex) then Err(PublicKeyMismatch)
    else if i.tool !in e.allowedTools then Err(ToolNotAllowed)
    else if i.tool == ExecuteTool() && ExecuteGrant() !in e.grants then Err(MissingAuthorityGrant)
    else
      var fresh_ := VerifyFreshness(a.ts, now, maxAge, maxSkew);
      if fresh_.Err? then Err(fresh_.error) else VerifyWithPublicKey(points, i, a, e.publicKeyHex)
  }

  /** `authorize` */
  function Authorize(points: Points, r: Registry, i: Intent, a: Attestation, now: I64, maxAge: U64, maxSkew: U64)
    : (o: Result<Principal, Error>)
    ensures o.Ok? ==> exists e :: Authorized(points, r, e, i, a, now, maxAge, maxSkew)
                                  && o.value == PrincipalOf(r.audience, e)
  {
    if !Given(a.credentialId) then Err(MissingCredentialId)
    else if !Given(a.audience) then Err(MissingAudience)
    else if i.tool == ExecuteTool() && !Given(a.executionIntentDigest) then Err(MissingExecutionIntentDigest)
    else if i.tool == ExecuteTool() && !Sha256Token(a.executionIntentDigest.value)
    then Err(InvalidExecutionIntentDigest)
    else if !NonceValid(a.nonce) then Err(InvalidNonce)
    else
      var found := Find(r.principals, a.credentialId.value);
      if found.None? then Err(UnknownCredential)
      else
        var checked := CheckEntryCall(points, r.audience, found.value, i, a, now, maxAge, maxSkew);
        if checked.Err? then Err(checked.error)
        else
          assert Authorized(points, r, found.value, i, a, now, maxAge, maxSkew);
          Ok(PrincipalOf(r.audience, found.value))
  }

  /** In a valid registry authorization succeeds exactly when some entry admits the call, and only as that entry. */
  lemma AuthorizeExact(points: Points, commands: Commands, r: Registry, i: Intent, a: Attestation, now: I64,
                       maxAge: U64, maxSkew: U64)
    requires RegistryValid(points, commands, r)
    ensures Authorize(points, r, i, a, now, maxAge, maxSkew).Ok?
            <==> exists e :: Authorized(points, r, e, i, a, now, maxAge, maxSkew)
    ensures forall e :: Authorized(points, r, e, i, a, now, maxAge, maxSkew) ==>
              Authorize(points, r, i, a, now, maxAge, maxSkew)
              == Ok(Principal(e.credentialId, e.principalId, e.agentId, e.role, r.audience, e.grants,
                              Lower(e.publicKeyHex)))
  {
    hide Authorized, Authorize, RegistryValid;
    forall e | Authorized(points, r, e, i, a, now, maxAge, maxSkew)
      ensures Authorize(points, r, i, a, now, maxAge, maxSkew) == Ok(PrincipalOf(r.audience, e))
    {
      AuthorizeAdmitted(points, commands, r, e, i, a, now, maxAge, maxSkew);
    }
  }

  /** The credential is unique, so the entry that is found is the one that admits the call. */
  lemma AuthorizeAdmitted(points: Points, commands: Commands, r: Registry, e: Entry, i: Intent,
                          a: Attestation, now: I64, maxAge: U64, maxSkew: U64)
    requires RegistryValid(points, commands, r)
    requires Authorized(points, r, e, i, a, now, maxAge, maxSkew)
    ensures Authorize(points, r, i, a, now, maxAge, maxSkew) == Ok(PrincipalOf(r.audience, e))
  {
    hide Blank, IntentJson, DecodeKey, Lower, VerifyFreshness, EntryValid, Sha256Token, ExecuteTool, ExecuteGrant,
         Utf8Length;
    var found := Find(r.principals, a.credentialId.value);
    CredentialUnique(points, commands, r, e, found.value);
  }

  lemma CredentialUnique(points: Points, commands: Commands, r: Registry, d: Entry, e: Entry)
    requires RegistryValid(points, commands, r) && d in r.principals && e in r.principals
    requires d.credentialId == e.credentialId
    ensures d == e
  {
  }

  /** A key that passed validation in lower case decodes as authored, so no authorized call fails on it. */
  lemma ValidatedKeyDecodes(points: Points, commands: Commands, e: Entry)
    requires EntryValid(points, commands, e)
    ensures DecodeKey(points, e.publicKeyHex).Some?
  {
    DecodeIgnoresCase(e.publicKeyHex);
  }

  /** The duplicate check compares key text: entries share key bytes exactly when their texts agree once a
      '+' is read as zero, so without '+' no two credentials share a key. */
  lemma KeysShared(points: Points, commands: Commands, r: Registry, i: nat, j: nat)
    requires RegistryValid(points, commands, r) && i < j < |r.principals|
    ensures var a, b := r.principals[i].publicKeyHex, r.principals[j].publicKeyHex;
            && (DecodeKey(points, a) == DecodeKey(points, b) <==> Plain(a) == Plain(b))
            && ('+' !in a && '+' !in b ==> DecodeKey(points, a) != DecodeKey(points, b))
  {
    hide Blank, IdList, Plain, Decode, Lower;
    var a, b := r.principals[i], r.principals[j];
    assert EntryValid(points, commands, a) && EntryValid(points, commands, b) && EntriesDiffer(a, b);
    ValidatedKeyDecodes(points, commands, a);
    ValidatedKeyDecodes(points, commands, b);
    DecodeDeterminesPlain(a.publicKeyHex, b.publicKeyHex);
    if '+' !in a.publicKeyHex && '+' !in b.publicKeyHex {
      SameBytesSameText(a.publicKeyHex, b.publicKeyHex);
    }
  }

  /** An entry like any other but for its credential id and key text. */
  function EntryWith(credentialId: string, hex: string, tool: string): Entry {
    Entry(credentialId, "principal", "agent", Human, hex, [tool], ["grant"], Status.Active)
  }

  /** Two entries whose key texts differ only in writing a leading zero as a plus sign. */
  function AliasRegistry(bytes: seq<Octet>, tool: string): Registry {
    Registry("audience", [EntryWith("one", "0f" + Encoded(bytes), tool), EntryWith("two", "+f" + Encoded(bytes), tool)])
  }

  /** So a valid registry can let one key serve two credentials: any key that starts with the byte 15 does. */
  lemma AliasRegistryValid(points: Points, commands: Commands, bytes: seq<Octet>, tool: string)
    requires |bytes| == 31 && points([15] + bytes) && commands(tool) && !Blank(tool)
    ensures RegistryValid(points, commands, AliasRegistry(bytes, tool))
    ensures var r := AliasRegistry(bytes, tool);
            && r.principals[0].credentialId != r.principals[1].credentialId
            && DecodeKey(points, r.principals[0].publicKeyHex) == Some([15] + bytes)
            && DecodeKey(points, r.principals[1].publicKeyHex) == Some([15] + bytes)
  {
    hide Encoded, Decode, Lower, Blank;
    var z := Encoded(bytes);
    RoundTrip(bytes);
    AliasDecodes(z, bytes);
    DecodeIgnoresCase("0f" + z);
    DecodeIgnoresCase("+f" + z);
    AliasTexts(z);
    NotBlank();
    var r := AliasRegistry(bytes, tool);
    AliasEntryValid(points, commands, "one", "0f" + z, tool);
    AliasEntryValid(points, commands, "two", "+f" + z, tool);
  }

  lemma AliasEntryValid(points: Points, commands: Commands, credentialId: string, hex: string, tool: string)
    requires !Blank(credentialId) && commands(tool) && !Blank(tool) && DecodeKey(points, Lower(hex)).Some?
    ensures EntryValid(points, commands, EntryWith(credentialId, hex, tool))
  {
    hide Lower, DecodeKey, Blank;
    NotBlank();
  }

  lemma NotBlank()
    ensures !Blank("principal") && !Blank("agent") && !Blank("grant") && !Blank("audience") && !Blank("one")
            && !Blank("two")
  {
    assert !WhiteSpace("principal"[0]) && !WhiteSpace("agent"[0]) && !WhiteSpace("grant"[0]);
    assert !WhiteSpace("audience"[0]) && !WhiteSpace("one"[0]) && !WhiteSpace("two"[0]);
  }

  lemma AliasDecodes(z: string, bytes: seq<Octet>)
    requires Decode(z) == Some(bytes)
    ensures Decode("0f" + z) == Some([15] + bytes) && Decode("+f" + z) == Some([15] + bytes)
  {
    assert ("0f" + z)[2..] == z && ("+f" + z)[2..] == z;
    assert ByteOf('0', 'f') == Some(15) && ByteOf('+', 'f') == Some(15);
  }

  lemma AliasTexts(z: string)
    ensures Lower("0f" + z) != Lower("+f" + z)
  {
    assert Lower("0f" + z)[0] == '0' && Lower("+f" + z)[0] == '+';
  }

  // Execution ------------------------------------------------------------

  /** `VerifiedExecutionAuthorization`; both fingerprints are of the intent and the signature. */
  datatype ExecutionAuthorization = ExecutionAuthorization(
    principal: Principal, executionIntentDigest: string, nonce: string, issuedAt: int, maxAge: int, maxSkew: int,
    fingerprinted: Json, signature: Signature)

  /** `authorize_execution` */
  function AuthorizeExecution(points: Points, r: Registry, i: Intent, a: Attestation, now: I64, maxAge: U64,
                              maxSkew: U64)
    : (o: Result<ExecutionAuthorization, Error>)
    ensures o.Ok? ==> && i.tool == ExecuteTool()
                      && (exists e :: && Authorized(points, r, e, i, a, now, maxAge, maxSkew)
                                      && o.value.principal == PrincipalOf(r.audience, e) && ExecuteGrant() in e.grants)
                      && i.executionIntentDigest == Some(o.value.executionIntentDigest)
                      && Sha256Token(o.value.executionIntentDigest)
                      && i.nonce == o.value.nonce && i.ts == o.value.issuedAt
                      && o.value.fingerprinted == IntentJson(i) && o.value.signature == a.signature
  {
    if i.tool != ExecuteTool() then Err(UnsupportedExecutionTool)
    else
      var principal := Authorize(points, r, i, a, now, maxAge, maxSkew);
      if principal.Err? then Err(principal.error)
      else if a.executionIntentDigest.None? then Err(MissingExecutionIntentDigest)
      else Ok(ExecutionAuthorization(principal.value, a.executionIntentDigest.value, a.nonce, a.ts, maxAge, maxSkew,
                                     IntentJson(i), a.signature))
  }

  /** In a valid registry execution is authorized exactly for the execution tool and a call some entry admits, and
      the authorization carries what was signed. */
  lemma AuthorizeExecutionExact(points: Points, commands: Commands, r: Registry, i: Intent, a: Attestation, now: I64,
                                maxAge: U64, maxSkew: U64)
    requires RegistryValid(points, commands, r)
    ensures AuthorizeExecution(points, r, i, a, now, maxAge, maxSkew).Ok? <==>
            i.tool == ExecuteTool() && exists e :: Authorized(points, r, e, i, a, now, maxAge, maxSkew)
    ensures forall e :: i.tool == ExecuteTool() && Authorized(points, r, e, i, a, now, maxAge, maxSkew) ==>
              && i.executionIntentDigest.Some?
              && AuthorizeExecution(points, r, i, a, now, maxAge, maxSkew) == Ok(ExecutionAuthorization(
                   PrincipalOf(r.audience, e), i.executionIntentDigest.value, i.nonce, i.ts, maxAge, maxSkew,
                   IntentJson(i), a.signature))
  {
    hide RegistryValid, Authorize, IntentJson, DecodeKey, Lower, VerifyFreshness, Sha256Token, NonceValid, Blank,
         ExecuteTool, ExecuteGrant;
    AuthorizeExact(points, commands, r, i, a, now, maxAge, maxSkew);
  }

  /** One signature stands for one intent: whatever is authorized with an attestation, in any registry and at
      any time, is the same intent under the same key. */
  lemma AttestationFixesIntent(points: Points, r1: Registry, e1: Entry, i1: Intent, now1: I64, age1: U64, skew1: U64,
                               r2: Registry, e2: Entry, i2: Intent, now2: I64, age2: U64, skew2: U64, a: Attestation)
    requires Authorized(points, r1, e1, i1, a, now1, age1, skew1)
             && Authorized(points, r2, e2, i2, a, now2, age2, skew2)
    ensures i1 == i2 && DecodeKey(points, e1.publicKeyHex) == DecodeKey(points, e2.publicKeyHex)
  {
    hide IntentJson, DecodeKey, Lower, VerifyFreshness, Sha256Token, NonceValid, Blank;
    IntentJsonInjective(i1, i2);
  }
}
