/** Whole runs of a registry anchor: snapshots presented in any order, with any outcome, and restarts. */
module SupplyRuns {
  import opened Lists
  import opened SupplyModel
  import opened Revocations
  import opened Namespaces
  import opened SnapshotVerifier
  import opened RecordVerifier
  import opened Selection
  import opened SupplyAnchor

  // The machine ----------------------------------------------------------

  datatype Setting = Setting(remote: RemoteCheck, leq: Order)

  datatype Event =
    | Present(expected: AnchorVersion, policy: PolicyDocument, doc: SnapshotDocument, now: nat)
    | Restart

  ghost predicate Lawful(x: Setting) {
    TotalOrder(x.leq)
  }

  /** The snapshot verifies and the anchor takes it as its next head. */
  ghost predicate Advances(x: Setting, s: AnchorState, e: Event) {
    && e.Present?
    && SnapshotAccepted(x.remote, e.policy, e.doc, e.now)
    && Continues(s, e.expected, VerifiedOf(x.leq, e.policy, e.doc, e.now))
    && DirectSuccessor(s, VerifiedOf(x.leq, e.policy, e.doc, e.now))
  }

  /** The snapshot verifies and is the anchor's present head. */
  ghost predicate Replays(x: Setting, s: AnchorState, e: Event) {
    && e.Present?
    && SnapshotAccepted(x.remote, e.policy, e.doc, e.now)
    && Continues(s, e.expected, VerifiedOf(x.leq, e.policy, e.doc, e.now))
    && ExactHead(s, VerifiedOf(x.leq, e.policy, e.doc, e.now))
  }

  /** A restart restores the protected head; an empty anchor is set up afresh. */
  ghost function Step(x: Setting, s: AnchorState, e: Event): AnchorState {
    match e
    case Present(_, policy, doc, now) =>
      if Advances(x, s, e) then NextState(s, VerifiedOf(x.leq, policy, doc, now)) else s
    case Restart => if Restorable(x.leq, s) then Restored(x.leq, s) else Fresh(s.registryId, s.audience)
  }

  ghost function After(x: Setting, s: AnchorState, run: seq<Event>): AnchorState {
    if run == [] then s else Step(x, After(x, s, run[..|run| - 1]), run[|run| - 1])
  }

  /** The capability a call hands out, if any. */
  ghost function Issued(x: Setting, s: AnchorState, e: Event): Option<Anchored> {
    if Advances(x, s, e) || Replays(x, s, e)
    then Some(Anchored(VerifiedOf(x.leq, e.policy, e.doc, e.now), Step(x, s, e).revocations,
                       Step(x, s, e).revocationDigest))
    else None
  }

  /** The method follows the machine: on a verified candidate it does exactly what `Step` and `Issued` say. */
  method PresentVerified(x: Setting, anchor: RegistryAnchor, e: Event) returns (r: Result<Outcome, Error>)
    requires Lawful(x) && e.Present?
    modifies anchor
    ensures anchor.State() == Step(x, old(anchor.State()), e)
    ensures Issued(x, old(anchor.State()), e) == if r.Ok? then Some(r.value.capability) else None
  {
    hide SnapshotAccepted, VerifiedOf, Continues, TotalOrder;
    var verified := VerifySnapshot(x.remote, x.leq, e.policy, e.doc, e.now);
    if verified.Err? {
      return Err(verified.error);
    }
    r := anchor.CompareAndAdvance(e.expected, verified.value);
  }

  // Reachable anchors ----------------------------------------------------

  /** The facts are canonical and their digest is theirs. */
  ghost predicate FactsSound(x: Setting, s: AnchorState) {
    && Facts(s.revocations)
    && Canonical(x.leq, s.revocations) == s.revocations
    && s.revocationDigest == RevocationsHash(s.revocations)
  }

  ghost predicate HeadSound(s: AnchorState) {
    && !Blank(s.registryId) && !Blank(s.audience)
    && (s.generation == 0 ==> s == Fresh(s.registryId, s.audience))
    && (s.generation > 0 ==> && s.snapshotDigest.Some? && IsToken(s.snapshotDigest.value)
                             && s.trustPolicyDigest.Some? && IsToken(s.trustPolicyDigest.value))
  }

  ghost predicate Sound(x: Setting, s: AnchorState) {
    FactsSound(x, s) && HeadSound(s)
  }

  lemma VerifiedFacts(x: Setting, p: PolicyDocument, doc: SnapshotDocument, now: nat)
    requires Lawful(x) && SnapshotAccepted(x.remote, p, doc, now)
    ensures var v := VerifiedOf(x.leq, p, doc, now);
            && Facts(v.revocations) && Canonical(x.leq, v.revocations) == v.revocations
            && v.revocationDigest == RevocationsHash(v.revocations)
            && forall f :: f in doc.registry.revocations <==> f in v.revocations
  {
    hide HeadersValid, PolicyValid, SignaturesAccepted, RecordsAccepted, Facts, Canonical, Audits, EntriesOf,
         TotalOrder;
    assert Facts(doc.registry.revocations);
    CanonicalForm(x.leq, doc.registry.revocations);
    SameElements(doc.registry.revocations, Canonical(x.leq, doc.registry.revocations));
  }

  /** Restarting from the protected head is the identity on every reachable anchor. */
  lemma RestartRoundTrip(x: Setting, s: AnchorState)
    requires Lawful(x) && Sound(x, s)
    ensures s.generation > 0 ==> Restorable(x.leq, s)
    ensures Step(x, s, Restart) == s
  {
  }

  lemma StepSound(x: Setting, s: AnchorState, e: Event)
    requires Lawful(x) && Sound(x, s)
    ensures Sound(x, Step(x, s, e))
  {
    hide SnapshotAccepted, Facts, Canonical, TotalOrder, Retains, EntriesOf, Audits, Blank, KeyRingOf;
    match e
    case Present(expected, policy, doc, now) =>
      if Advances(x, s, e) {
        VerifiedFacts(x, policy, doc, now);
        AcceptedDigest(x, policy, doc, now);
      }
    case Restart =>
      RestartRoundTrip(x, s);
  }

  lemma AcceptedDigest(x: Setting, p: PolicyDocument, doc: SnapshotDocument, now: nat)
    requires SnapshotAccepted(x.remote, p, doc, now)
    ensures VerifiedOf(x.leq, p, doc, now).snapshotDigest == SnapshotHash(SubjectOf(doc))
  {
  }

  lemma {:induction false} AfterSound(x: Setting, s: AnchorState, run: seq<Event>)
    requires Lawful(x) && Sound(x, s)
    ensures Sound(x, After(x, s, run))
  {
    hide Sound, Step, Lawful;
    if run != [] {
      AfterSound(x, s, run[..|run| - 1]);
      StepSound(x, After(x, s, run[..|run| - 1]), run[|run| - 1]);
    }
  }

  /** Whatever `from_operator_protected_head` restores is sound, its digests and facts being the operator's. */
  lemma RestoredSound(x: Setting, s: AnchorState)
    requires Lawful(x) && Restorable(x.leq, s)
    ensures Sound(x, Restored(x.leq, s))
  {
    hide Facts, Canonical, TotalOrder, IsToken, Blank;
    CanonicalForm(x.leq, s.revocations);
  }

  lemma FreshSound(x: Setting, registryId: string, audience: string)
    requires !Blank(registryId) && !Blank(audience)
    ensures Sound(x, Fresh(registryId, audience))
  {
  }

  // No forks -------------------------------------------------------------

  /** The subjects of the snapshots the anchor accepted as its successive heads. */
  ghost function History(x: Setting, s: AnchorState, run: seq<Event>): seq<SnapshotSubject> {
    if run == [] then []
    else
      var front, last := run[..|run| - 1], run[|run| - 1];
      History(x, s, front) + if Advances(x, After(x, s, front), last) then [SubjectOf(last.doc)] else []
  }

  /** The head digest after `subjects` were accepted on top of `base`. */
  function HeadAfter(base: Option<Digest>, subjects: seq<SnapshotSubject>): Option<Digest> {
    if subjects == [] then base else Some(SnapshotHash(subjects[|subjects| - 1]))
  }

  /** Generations count up from the start and each subject names the digest of the one before. */
  ghost predicate Chained(start: AnchorState, subjects: seq<SnapshotSubject>) {
    forall i :: 0 <= i < |subjects| ==>
      && subjects[i].generation == start.generation + i + 1
      && subjects[i].previous == HeadAfter(start.snapshotDigest, subjects[..i])
  }

  /** The anchor is what its start and its history make it. */
  ghost predicate Reflects(x: Setting, start: AnchorState, s: AnchorState, subjects: seq<SnapshotSubject>) {
    && Chained(start, subjects)
    && s.registryId == start.registryId && s.audience == start.audience
    && s.generation == start.generation + |subjects|
    && s.snapshotDigest == HeadAfter(start.snapshotDigest, subjects)
    && (subjects == [] ==> s == start)
    && (subjects != [] ==>
          var head := subjects[|subjects| - 1];
          && s.registryId == head.registryId && s.audience == head.audience
          && s.revocations == Canonical(x.leq, head.revocations))
  }

  lemma ChainExtends(start: AnchorState, subjects: seq<SnapshotSubject>, next: SnapshotSubject)
    requires Chained(start, subjects)
    requires next.generation == start.generation + |subjects| + 1
             && next.previous == HeadAfter(start.snapshotDigest, subjects)
    ensures Chained(start, subjects + [next])
  {
    hide HeadAfter;
    var longer := subjects + [next];
    assert longer[..|subjects|] == subjects;
    forall i | 0 <= i < |subjects| ensures longer[i] == subjects[i] && longer[..i] == subjects[..i] {
    }
  }

  lemma AdvanceReflects(x: Setting, start: AnchorState, s: AnchorState, e: Event, subjects: seq<SnapshotSubject>)
    requires Sound(x, s) && Reflects(x, start, s, subjects) && Advances(x, s, e)
    ensures Reflects(x, start, Step(x, s, e), subjects + [SubjectOf(e.doc)])
  {
    hide SnapshotAccepted, Canonical, Audits, EntriesOf, Retains, FactsSound, Chained, IsToken;
    AcceptedDigest(x, e.policy, e.doc, e.now);
    ChainExtends(start, subjects, SubjectOf(e.doc));
    assert (subjects + [SubjectOf(e.doc)])[|subjects|] == SubjectOf(e.doc);
  }

  lemma {:induction false} RunReflects(x: Setting, s: AnchorState, run: seq<Event>)
    requires Lawful(x) && Sound(x, s)
    ensures Sound(x, After(x, s, run))
    ensures Reflects(x, s, After(x, s, run), History(x, s, run))
  {
    hide Sound, Advances, Lawful, Step, Chained, Canonical;
    AfterSound(x, s, run);
    if run == [] {
      assert Chained(s, []) by { NothingChained(s); }
    } else {
      var front, last := run[..|run| - 1], run[|run| - 1];
      RunReflects(x, s, front);
      if Advances(x, After(x, s, front), last) {
        AdvanceReflects(x, s, After(x, s, front), last, History(x, s, front));
      } else {
        StepKeeps(x, After(x, s, front), last);
        assert History(x, s, run) == History(x, s, front);
      }
    }
  }

  lemma NothingChained(start: AnchorState)
    ensures Chained(start, [])
  {
  }

  /** Only an advance changes an anchor. */
  lemma StepKeeps(x: Setting, s: AnchorState, e: Event)
    requires Lawful(x) && Sound(x, s) && !Advances(x, s, e)
    ensures Step(x, s, e) == s
  {
  }

  lemma ChainLink(start: AnchorState, a: seq<SnapshotSubject>, i: nat)
    requires Chained(start, a) && i < |a|
    ensures a[i].generation == start.generation + i + 1
    ensures a[i].previous == if i == 0 then start.snapshotDigest else Some(SnapshotHash(a[i - 1]))
  {
    assert a[i].previous == HeadAfter(start.snapshotDigest, a[..i]);
  }

  /** History `a` up to `i` is the end of history `b` up to `j`, and where `a` began is on `b`. */
  ghost predicate ContinuesHistory(s1: AnchorState, a: seq<SnapshotSubject>, i: nat, s2: AnchorState,
                                   b: seq<SnapshotSubject>, j: nat) {
    && i <= j && i < |a| && j < |b|
    && s1.generation + i == s2.generation + j
    && a[..i + 1] == b[j - i..j + 1]
    && s1.snapshotDigest == HeadAfter(s2.snapshotDigest, b[..j - i])
  }

  /** One digest fixes its subject and, link by link, everything before it. */
  lemma {:induction false} ChainDetermined(s1: AnchorState, a: seq<SnapshotSubject>, i: nat,
                                           s2: AnchorState, b: seq<SnapshotSubject>, j: nat)
    requires Chained(s1, a) && Chained(s2, b) && i < |a| && j < |b| && i <= j && a[i] == b[j]
    ensures ContinuesHistory(s1, a, i, s2, b, j)
  {
    hide Chained;
    ChainLink(s1, a, i);
    ChainLink(s2, b, j);
    if i == 0 {
      assert a[..1] == [a[0]] && b[j..j + 1] == [b[j]];
    } else {
      ChainDetermined(s1, a, i - 1, s2, b, j - 1);
      assert a[..i + 1] == a[..i] + [a[i]] && b[j - i..j + 1] == b[j - i..j] + [b[j]];
    }
  }

  /** Two anchors that ever accepted one common subject are at the same generation there, accepted the same subjects
      up to it, and the one that started later started from a head of the other. */
  lemma SubjectsForkFree(x: Setting, s1: AnchorState, run1: seq<Event>, i: nat,
                         s2: AnchorState, run2: seq<Event>, j: nat)
    requires Lawful(x) && Sound(x, s1) && Sound(x, s2)
    requires i < |History(x, s1, run1)| && j < |History(x, s2, run2)|
    requires SnapshotHash(History(x, s1, run1)[i]) == SnapshotHash(History(x, s2, run2)[j])
    ensures if i <= j then ContinuesHistory(s1, History(x, s1, run1), i, s2, History(x, s2, run2), j)
            else ContinuesHistory(s2, History(x, s2, run2), j, s1, History(x, s1, run1), i)
  {
    hide Sound, Lawful, History, After, ContinuesHistory, Chained, Canonical;
    RunReflects(x, s1, run1);
    RunReflects(x, s2, run2);
    if i <= j {
      ChainDetermined(s1, History(x, s1, run1), i, s2, History(x, s2, run2), j);
    } else {
      ChainDetermined(s2, History(x, s2, run2), j, s1, History(x, s1, run1), i);
    }
  }

  /** The documents that were accepted, one for each subject of the history. */
  ghost function Heads(x: Setting, s: AnchorState, run: seq<Event>): seq<SnapshotDocument> {
    if run == [] then []
    else
      var front, last := run[..|run| - 1], run[|run| - 1];
      Heads(x, s, front) + if Advances(x, After(x, s, front), last) then [last.doc] else []
  }

  lemma {:induction false} HeadsAre(x: Setting, s: AnchorState, run: seq<Event>)
    ensures |Heads(x, s, run)| == |History(x, s, run)|
    ensures forall k :: 0 <= k < |Heads(x, s, run)| ==>
              && SubjectOf(Heads(x, s, run)[k]) == History(x, s, run)[k]
              && Heads(x, s, run)[k].registry.snapshotDigest == SnapshotDigest(Heads(x, s, run)[k])
  {
    hide After, SubjectOf, Continues, DirectSuccessor, HeadersValid, PolicyValid, ShapeValid, SignaturesAccepted,
         RecordsAccepted;
    if run != [] {
      HeadsAre(x, s, run[..|run| - 1]);
    }
  }

  /** One document, apart from who signed it. */
  predicate SameButSignatures(a: SnapshotDocument, b: SnapshotDocument) {
    a == b.(registry := b.registry.(signatures := a.registry.signatures))
  }

  /** Fork freedom: two anchors, set up afresh or restored, fed anything in any order, that ever accepted documents
      with one digest are at the same generation there, accepted the same documents up to it, in everything but the
      signatures, and the one that started later started from a head of the other. */
  lemma ForkFreedom(x: Setting, s1: AnchorState, run1: seq<Event>, i: nat, s2: AnchorState, run2: seq<Event>, j: nat)
    requires Lawful(x) && Sound(x, s1) && Sound(x, s2)
    requires i < |Heads(x, s1, run1)| && j < |Heads(x, s2, run2)| && i <= j
    requires Heads(x, s1, run1)[i].registry.snapshotDigest == Heads(x, s2, run2)[j].registry.snapshotDigest
    ensures s1.generation + i == s2.generation + j
    ensures forall k :: 0 <= k <= i ==> SameButSignatures(Heads(x, s1, run1)[k], Heads(x, s2, run2)[j - i + k])
    ensures s1.snapshotDigest
            == if i == j then s2.snapshotDigest else Some(Heads(x, s2, run2)[j - i - 1].registry.snapshotDigest)
  {
    hide Sound, Lawful, After, Chained, History, Heads, SubjectOf;
    HeadsAre(x, s1, run1);
    HeadsAre(x, s2, run2);
    SubjectsForkFree(x, s1, run1, i, s2, run2, j);
    var a, b, c, d := History(x, s1, run1), History(x, s2, run2), Heads(x, s1, run1), Heads(x, s2, run2);
    forall k | 0 <= k <= i ensures SameButSignatures(c[k], d[j - i + k]) {
      assert a[k] == a[..i + 1][k] == b[j - i..j + 1][k] == b[j - i + k];
      SnapshotDigestExact(c[k], d[j - i + k]);
    }
  }

  /** Two anchors set up afresh with the same head have the same whole history and agree on everything but the
      policy digest. */
  lemma SameHeadSameAnchor(x: Setting, r1: string, a1: string, run1: seq<Event>, r2: string, a2: string,
                           run2: seq<Event>)
    requires Lawful(x) && !Blank(r1) && !Blank(a1) && !Blank(r2) && !Blank(a2)
    requires After(x, Fresh(r1, a1), run1).generation > 0 && After(x, Fresh(r2, a2), run2).generation > 0
    requires After(x, Fresh(r1, a1), run1).snapshotDigest == After(x, Fresh(r2, a2), run2).snapshotDigest
    ensures History(x, Fresh(r1, a1), run1) == History(x, Fresh(r2, a2), run2)
    ensures var s, t := After(x, Fresh(r1, a1), run1), After(x, Fresh(r2, a2), run2);
            s == t.(trustPolicyDigest := s.trustPolicyDigest)
  {
    hide Lawful, Blank, History, After, Canonical, Chained, ContinuesHistory, Sound;
    var s1, s2 := Fresh(r1, a1), Fresh(r2, a2);
    FreshSound(x, r1, a1);
    FreshSound(x, r2, a2);
    RunReflects(x, s1, run1);
    RunReflects(x, s2, run2);
    var h1, h2 := History(x, s1, run1), History(x, s2, run2);
    SubjectsForkFree(x, s1, run1, |h1| - 1, s2, run2, |h2| - 1);
    if |h1| <= |h2| {
      WholeHistory(s1, h1, s2, h2);
    } else {
      WholeHistory(s2, h2, s1, h1);
    }
    FactsDigest(x, After(x, s1, run1));
    FactsDigest(x, After(x, s2, run2));
  }

  lemma WholeHistory(s1: AnchorState, a: seq<SnapshotSubject>, s2: AnchorState, b: seq<SnapshotSubject>)
    requires a != [] && b != [] && s1.generation == s2.generation
    requires ContinuesHistory(s1, a, |a| - 1, s2, b, |b| - 1)
    ensures a == b
  {
    assert a[..|a|] == a && b[0..|b|] == b;
  }

  lemma FactsDigest(x: Setting, s: AnchorState)
    requires Sound(x, s)
    ensures s.revocationDigest == RevocationsHash(s.revocations)
  {
  }

  /** Every capability ever handed out, fresh or replayed, is for the head the anchor then has. */
  lemma CapabilityIsHead(x: Setting, s: AnchorState, run: seq<Event>, e: Event)
    requires Lawful(x) && Sound(x, s) && Issued(x, After(x, s, run), e).Some?
    ensures e.Present?
    ensures HeadAfter(s.snapshotDigest, History(x, s, run + [e])) == Some(SnapshotHash(SubjectOf(e.doc)))
    ensures s.generation + |History(x, s, run + [e])| == e.doc.registry.generation
  {
    hide SnapshotAccepted, Canonical, Facts, FactsSound, Audits, EntriesOf, Retains, Lawful, Blank, After, History,
         Chained, IsToken;
    RunReflects(x, s, run);
    AcceptedDigest(x, e.policy, e.doc, e.now);
    AcceptedGeneration(x, e.policy, e.doc, e.now);
    HistoryExtends(x, s, run, e);
  }

  lemma AcceptedGeneration(x: Setting, p: PolicyDocument, doc: SnapshotDocument, now: nat)
    requires SnapshotAccepted(x.remote, p, doc, now)
    ensures doc.registry.generation > 0
  {
    hide PolicyValid, SignaturesAccepted, RecordsAccepted, ShapeValid, IsToken;
  }

  lemma HistoryExtends(x: Setting, s: AnchorState, run: seq<Event>, e: Event)
    ensures History(x, s, run + [e])
            == History(x, s, run) + if Advances(x, After(x, s, run), e) then [SubjectOf(e.doc)] else []
    ensures After(x, s, run + [e]) == Step(x, After(x, s, run), e)
  {
  }

  /** Once the first snapshot is accepted its trust policy is pinned for the rest of every run. */
  lemma {:induction false} PolicyPinned(x: Setting, s: AnchorState, run: seq<Event>)
    requires Lawful(x) && Sound(x, s) && s.trustPolicyDigest.Some?
    ensures After(x, s, run).trustPolicyDigest == s.trustPolicyDigest
  {
    hide SnapshotAccepted, Sound, Lawful, Retains, EntriesOf, Audits, Canonical;
    if run != [] {
      var front, last := run[..|run| - 1], run[|run| - 1];
      PolicyPinned(x, s, front);
      AfterSound(x, s, front);
      if !Advances(x, After(x, s, front), last) {
        StepKeeps(x, After(x, s, front), last);
      }
    }
  }

  // Revocations are permanent --------------------------------------------

  lemma StepRetains(x: Setting, s: AnchorState, e: Event, f: Revocation)
    requires Lawful(x) && Sound(x, s) && f in s.revocations
    ensures f in Step(x, s, e).revocations
  {
  }

  lemma {:induction false} AfterRetains(x: Setting, s: AnchorState, before: seq<Event>, later: seq<Event>,
                                        f: Revocation)
    requires Lawful(x) && Sound(x, s) && f in After(x, s, before).revocations
    ensures f in After(x, s, before + later).revocations
  {
    hide Step, Sound, Lawful;
    if later == [] {
      assert before + later == before;
    } else {
      var front, last := later[..|later| - 1], later[|later| - 1];
      AfterRetains(x, s, before, front, f);
      AfterSound(x, s, before + front);
      StepRetains(x, After(x, s, before + front), last, f);
      assert (before + later)[..|before + later| - 1] == before + front;
    }
  }

  /** A snapshot that yields a capability leaves every revocation it lists in the anchor. */
  lemma IssuedKeepsFacts(x: Setting, s: AnchorState, e: Event, f: Revocation)
    requires Lawful(x) && Sound(x, s) && Issued(x, s, e).Some? && f in e.doc.registry.revocations
    ensures f in Step(x, s, e).revocations
  {
    hide SnapshotAccepted, VerifiedOf, Continues, Facts, Canonical, TotalOrder;
    VerifiedFacts(x, e.policy, e.doc, e.now);
    if !Advances(x, s, e) {
      StepKeeps(x, s, e);
      assert RevocationsHash(VerifiedOf(x.leq, e.policy, e.doc, e.now).revocations) == RevocationsHash(s.revocations);
    }
  }

  /** A fact of an anchor, however it came there, is in every capability the anchor hands out later, the same
      fact, replays included and after any restarts; so its record is selectable from none of them, under any
      policy and at any time. Re-signing the record does not help. */
  lemma FactStays(x: Setting, s: AnchorState, run: seq<Event>, later: Event, f: Revocation)
    requires Lawful(x) && Sound(x, s) && f in s.revocations
    requires Issued(x, After(x, s, run), later).Some?
    ensures f in Issued(x, After(x, s, run), later).value.revocations
    ensures forall record, p, t :: RecordDigest(record) == f.recordDigest ==>
              !Selectable(Issued(x, After(x, s, run), later).value, record, p, t)
  {
    hide Step, Sound, Lawful, Selectable, RecordDigest, Advances, Replays;
    assert [] + run == run;
    AfterRetains(x, s, [], run, f);
    AfterSound(x, s, run);
    StepRetains(x, After(x, s, run), later, f);
    forall record, p, t | RecordDigest(record) == f.recordDigest
      ensures !Selectable(Issued(x, After(x, s, run), later).value, record, p, t)
    {
      RevokedNotSelectable(x, After(x, s, run), later, f, record, p, t);
    }
  }

  /** The same for a fact listed by any snapshot that ever yielded a capability, wherever the anchor started. */
  lemma RevocationPermanent(x: Setting, s: AnchorState, before: seq<Event>, revoking: Event, between: seq<Event>,
                            later: Event, f: Revocation)
    requires Lawful(x) && Sound(x, s)
    requires Issued(x, After(x, s, before), revoking).Some? && f in revoking.doc.registry.revocations
    requires Issued(x, After(x, s, before + [revoking] + between), later).Some?
    ensures f in Issued(x, After(x, s, before + [revoking] + between), later).value.revocations
    ensures forall record, p, t :: RecordDigest(record) == f.recordDigest ==>
              !Selectable(Issued(x, After(x, s, before + [revoking] + between), later).value, record, p, t)
  {
    hide After, Step, Sound, Lawful, Selectable, RecordDigest, Advances, Replays;
    var all := before + [revoking] + between;
    AfterSound(x, s, before);
    HistoryExtends(x, s, before, revoking);
    IssuedKeepsFacts(x, After(x, s, before), revoking, f);
    AfterRetains(x, s, before + [revoking], between, f);
    AfterSound(x, s, all);
    assert After(x, After(x, s, all), []) == After(x, s, all) by { NoEvents(x, After(x, s, all)); }
    FactStays(x, After(x, s, all), [], later, f);
  }

  lemma NoEvents(x: Setting, s: AnchorState)
    ensures After(x, s, []) == s
  {
  }

  lemma RevokedNotSelectable(x: Setting, s: AnchorState, e: Event, f: Revocation, record: Record,
                             p: PolicyDocument, t: nat)
    requires Issued(x, s, e).Some? && f in Step(x, s, e).revocations && f.recordDigest == RecordDigest(record)
    ensures !Selectable(Issued(x, s, e).value, record, p, t)
  {
    hide Permitted, PolicyValid, PolicyCurrent, HeadersValid, SignaturesAccepted, ShapeValid, Step, Continues,
         CredentialsById, GrantsById, PublisherSigned, NamespaceGranted, RecordShape, CoordinatesDistinct, EntriesOf,
         Canonical, Audits, RecordSubjectOf;
    var cap := Issued(x, s, e).value;
    if Listed(cap, record) {
      var entry :| entry in cap.verified.entries && entry.record == record;
      var i :| 0 <= i < |e.doc.registry.packages| && e.doc.registry.packages[i] == record;
      assert cap.Revoked(record.recordDigest);
    }
  }

  // Honest publication ---------------------------------------------------

  function SignatureBy(doc: SnapshotDocument): TrustKey -> RegistrySignature {
    (k: TrustKey) => RegistrySignature(k.keyId, RegistrySigner,
                                       if k.publicKey.None? then Garbage("")
                                       else Signed(k.publicKey.value,
                                                   RegistryMessage(k.keyId, RegistrySigner, SubjectOf(doc))))
  }

  /** The document with its digest filled in and a signature of each key. */
  function SignedBy(doc: SnapshotDocument, keys: seq<TrustKey>): SnapshotDocument {
    doc.(registry := doc.registry.(snapshotDigest := SnapshotDigest(doc), signatures := Map(SignatureBy(doc), keys)))
  }

  /** Different active signer keys of the policy, valid from issue to expiry. */
  ghost predicate MaySign(p: Policy, doc: SnapshotDocument, keys: seq<TrustKey>) {
    && |keys| >= p.threshold
    && Distinct(keys)
    && forall k :: k in keys ==>
         && k in p.keys && k.status.Active? && k.role.RegistrySigner?
         && k.validFrom <= doc.registry.issuedAt <= k.validUntil
         && k.validFrom <= doc.registry.expiresAt <= k.validUntil
  }

  /** Distinct keys of a valid policy are found under their own ids and have their own bytes. */
  lemma PolicyKeys(keys: seq<TrustKey>, k: TrustKey, l: TrustKey)
    requires KeysValid(keys) && k in keys && l in keys
    ensures k.publicKey.Some? && KeyRingOf(keys)[k.keyId] == k
    ensures k != l ==> k.keyId != l.keyId
                       && (k.role.RegistrySigner? && l.role.RegistrySigner? ==> k.publicKey != l.publicKey)
  {
    hide KeyRingOf;
    var found := KeyRingOf(keys)[k.keyId];
    var h :| 0 <= h < |keys| && keys[h] == found;
    var i :| 0 <= i < |keys| && keys[i] == k;
    var j :| 0 <= j < |keys| && keys[j] == l;
    assert KeyWellFormed(keys[i]);
    assert h < i ==> KeysDiffer(keys[h], keys[i]);
    assert i < h ==> KeysDiffer(keys[i], keys[h]);
    assert i < j ==> KeysDiffer(keys[i], keys[j]);
    assert j < i ==> KeysDiffer(keys[j], keys[i]);
  }

  lemma SignedAccepted(p: Policy, doc: SnapshotDocument, keys: seq<TrustKey>)
    requires KeysValid(p.keys) && MaySign(p, doc, keys)
    ensures SignaturesAccepted(KeyRingOf(p.keys), p.threshold, SignedBy(doc, keys),
                               SignedBy(doc, keys).registry.signatures)
  {
    hide KeyRingOf, KeysValid, SubjectOf;
    var signed, ring := SignedBy(doc, keys), KeyRingOf(p.keys);
    var signatures := signed.registry.signatures;
    assert SubjectOf(signed) == SubjectOf(doc) by { SubjectKept(doc, keys); }
    forall s | s in signatures ensures SignatureHolds(ring, signed, s) {
      var i :| 0 <= i < |signatures| && signatures[i] == s;
      PolicyKeys(p.keys, keys[i], keys[i]);
    }
    forall i, j | 0 <= i < j < |keys|
      ensures Map(KeyIdOf, signatures)[i] != Map(KeyIdOf, signatures)[j]
      ensures Map(MaterialOf(ring), signatures)[i] != Map(MaterialOf(ring), signatures)[j]
    {
      PolicyKeys(p.keys, keys[i], keys[j]);
      PolicyKeys(p.keys, keys[j], keys[i]);
    }
  }

  lemma SubjectKept(doc: SnapshotDocument, keys: seq<TrustKey>)
    ensures SubjectOf(SignedBy(doc, keys)) == SubjectOf(doc)
  {
  }

  /** Everything an anchor compares before it moves. */
  function VersionOf(s: AnchorState): AnchorVersion {
    AnchorVersion(s.registryId, s.audience, s.generation, s.snapshotDigest, s.trustPolicyDigest, s.revocationDigest)
  }

  /** What a publication must satisfy apart from digest and signatures. */
  ghost predicate Publishable(x: Setting, p: PolicyDocument, doc: SnapshotDocument, keys: seq<TrustKey>, now: nat) {
    && HeadersValid(p, doc, now) && PolicyValid(p.policy) && MaySign(p.policy, doc, keys)
    && ShapeValid(SignedBy(doc, keys).registry) && x.remote(SignedBy(doc, keys))
    && CoordinatesDistinct(doc.registry.packages)
    && forall r :: r in doc.registry.packages ==>
         && RecordShape(r) && r.recordDigest == RecordDigest(r) && !Reserved(r.identity.namespace)
         && Published(doc.registry, r, now)
  }

  lemma RecordsPublished(x: Setting, p: PolicyDocument, doc: SnapshotDocument, keys: seq<TrustKey>, now: nat)
    requires Publishable(x, p, doc, keys, now)
    ensures RecordsAccepted(SignedBy(doc, keys).registry, now)
  {
    hide PolicyValid, MaySign, CoordinatesDistinct, RecordShape, Reserved, RecordHolds, CredentialsById, GrantsById,
         SubjectOf, RecordSubjectOf, IsWithin, GrantsExclusive, GrantWindows, Facts, Blank, IsToken;
    var signed := SignedBy(doc, keys).registry;
    forall i | 0 <= i < |signed.packages|
      ensures RecordHolds(CredentialsById(signed.credentials), GrantsById(signed.grants), signed,
                          signed.packages[i], now)
    {
      RecordHoldsExactly(signed, signed.packages[i], now);
    }
  }

  /** Signing and presenting succeeds: any publishable direct successor that keeps the policy and lists every fact of
      the anchor, signed by a threshold of the policy's keys, advances the anchor. */
  lemma SignThenAdvance(x: Setting, s: AnchorState, p: PolicyDocument, doc: SnapshotDocument,
                        keys: seq<TrustKey>, now: nat)
    requires Lawful(x) && Publishable(x, p, doc, keys, now)
    requires doc.registry.registryId == s.registryId && doc.registry.audience == s.audience
    requires s.trustPolicyDigest.Some? ==> s.trustPolicyDigest.value == PolicyHash(p)
    requires forall f :: f in s.revocations ==> f in doc.registry.revocations
    requires s.generation < U64_MAX && doc.registry.generation == s.generation + 1
    requires s.generation > 0 ==> doc.registry.previous == s.snapshotDigest
    ensures var e := Present(VersionOf(s), p, SignedBy(doc, keys), now);
            Advances(x, s, e) && After(x, s, [e]).snapshotDigest == Some(SnapshotDigest(doc))
  {
    hide KeysValid, RulesValid, SignerCount, SignaturesAccepted, RecordsAccepted, ShapeValid, Canonical, Audits,
         EntriesOf, Retains, IsToken, MaySign, KeyRingOf, SubjectOf;
    SignedAccepted(p.policy, doc, keys);
    SubjectKept(doc, keys);
    RecordsPublished(x, p, doc, keys, now);
    FactsKept(x, s, SignedBy(doc, keys).registry);
    var e := Present(VersionOf(s), p, SignedBy(doc, keys), now);
    assert Advances(x, s, e);
    assert [e][..0] == [];
  }

  /** And presenting the new head again, to the version it now has, is an exact replay that changes nothing. */
  lemma AdvanceThenReplay(x: Setting, s: AnchorState, e: Event)
    requires Lawful(x) && Sound(x, s) && Advances(x, s, e)
    ensures var t := Step(x, s, e);
            var again := Present(VersionOf(t), e.policy, e.doc, e.now);
            Replays(x, t, again) && Step(x, t, again) == t
  {
    hide SnapshotAccepted, Canonical, Audits, EntriesOf, Retains, FactsSound, IsToken, TotalOrder;
    var v := VerifiedOf(x.leq, e.policy, e.doc, e.now);
    VerifiedFacts(x, e.policy, e.doc, e.now);
    RetainsExactly(v.revocations, v.revocations);
  }

  lemma FactsKept(x: Setting, s: AnchorState, r: Registry)
    requires Lawful(x) && ShapeValid(r) && forall f :: f in s.revocations ==> f in r.revocations
    ensures Retains(s.revocations, Canonical(x.leq, r.revocations))
  {
    hide Canonical, TotalOrder, Retains, GrantsExclusive, CredentialsValid, GrantWindows, GrantIdsDistinct, Blank;
    CanonicalForm(x.leq, r.revocations);
    SameElements(r.revocations, Canonical(x.leq, r.revocations));
    RetainsExactly(s.revocations, Canonical(x.leq, r.revocations));
  }

  // Who stands behind a selection ----------------------------------------

  /** What can be selected from a capability: exactly the packages of the snapshot it was handed out for that no fact
      of the anchor revokes, under the policy the snapshot was verified with, while the snapshot is current, where
      that policy permits it. */
  lemma SelectableExactly(x: Setting, s: AnchorState, e: Event, record: Record, p: PolicyDocument, t: nat)
    requires Issued(x, s, e).Some?
    ensures Selectable(Issued(x, s, e).value, record, p, t) <==>
            && p == e.policy && record in e.doc.registry.packages
            && (forall f :: f in Step(x, s, e).revocations ==> f.recordDigest != RecordDigest(record))
            && e.doc.registry.issuedAt <= t < e.doc.registry.expiresAt
            && Permitted(p.policy, record)
  {
    hide Step, Continues, Permitted, SignaturesAccepted, ShapeValid, CredentialsById, GrantsById, PolicyValid,
         KeyRingOf, EntriesOf, Canonical, Audits, SubjectOf, RecordSubjectOf, RecordShape, PublisherSigned,
         NamespaceGranted, CoordinatesDistinct, IsToken;
    EntriesList(e.doc.registry);
    if record in e.doc.registry.packages {
      var i :| 0 <= i < |e.doc.registry.packages| && e.doc.registry.packages[i] == record;
      assert RecordHolds(CredentialsById(e.doc.registry.credentials), GrantsById(e.doc.registry.grants),
                         e.doc.registry, record, e.now);
    }
  }

  /** The policy's own signer key, active and valid at `t`, signed this snapshot. */
  predicate SignerBacks(p: Policy, doc: SnapshotDocument, s: RegistrySignature, t: nat) {
    var ring := KeyRingOf(p.keys);
    && s.keyId in ring
    && ring[s.keyId].status.Active? && ring[s.keyId].role.RegistrySigner?
    && ring[s.keyId].validFrom <= t <= ring[s.keyId].validUntil
    && ring[s.keyId].publicKey.Some?
    && s.signature == Signed(ring[s.keyId].publicKey.value, RegistryMessage(s.keyId, RegistrySigner, SubjectOf(doc)))
  }

  /** The record's publisher, with a credential active and valid at `t`, signed this record for this registry. */
  predicate PublisherBacks(r: Registry, record: Record, t: nat) {
    var credentials := CredentialsById(r.credentials);
    && record.credentialId in credentials
    && var c := credentials[record.credentialId];
       && c.status.Active? && c.validFrom <= t <= c.validUntil
       && c.publisher == record.identity.publisher && c.publicKey.Some?
       && record.signature == Signed(c.publicKey.value,
                                     PublisherMessage(r.registryId, r.audience, RecordSubjectOf(record)))
  }

  /** The publisher holds a grant over the record's unreserved namespace. */
  predicate GrantBacks(r: Registry, record: Record) {
    exists g | g in r.grants ::
      g.publisher == record.identity.publisher && IsWithin(record.identity.namespace, g.prefix)
  }

  /** At least the policy's threshold of different signers with different keys stand behind the snapshot. */
  ghost predicate ThresholdBacks(p: Policy, doc: SnapshotDocument, t: nat) {
    && |doc.registry.signatures| >= p.threshold > 0
    && (forall s :: s in doc.registry.signatures ==> SignerBacks(p, doc, s, t))
    && forall i, j :: 0 <= i < j < |doc.registry.signatures| ==>
         DifferentKeys(KeyRingOf(p.keys), doc.registry.signatures[i].keyId, doc.registry.signatures[j].keyId)
  }

  predicate DifferentKeys(ring: KeyRing, a: string, b: string) {
    a != b && a in ring && b in ring && ring[a].publicKey != ring[b].publicKey
  }

  /** A record selectable at `t` under a policy, from any capability an anchor hands out, is backed at `t`,
      under that very policy, by a threshold of registry signers and by its publisher, who owns the namespace. */
  lemma SelectionIsBacked(x: Setting, s: AnchorState, e: Event, record: Record, p: PolicyDocument, t: nat)
    requires Issued(x, s, e).Some? && Selectable(Issued(x, s, e).value, record, p, t)
    ensures p == e.policy && record in e.doc.registry.packages
    ensures Issued(x, s, e).value.verified.snapshotDigest == SnapshotHash(SubjectOf(e.doc))
    ensures ThresholdBacks(p.policy, e.doc, t)
    ensures PublisherBacks(e.doc.registry, record, t) && GrantBacks(e.doc.registry, record)
    ensures record.recordDigest == RecordDigest(record)
  {
    hide Step, Continues, Permitted, SignaturesAccepted, ShapeValid, RecordsAccepted, CredentialsById, GrantsById,
         KeyRingOf, EntriesOf, Canonical, Audits, SubjectOf, RecordSubjectOf, KeysValid, RulesValid, SignerCount,
         ThresholdBacks, PublisherBacks, GrantBacks, IsToken;
    AcceptedDigest(x, e.policy, e.doc, e.now);
    ThresholdHolds(p.policy, e.doc, t);
    RecordBacked(e.doc.registry, record, e.now, t);
  }

  lemma ThresholdHolds(p: Policy, doc: SnapshotDocument, t: nat)
    requires SignaturesAccepted(KeyRingOf(p.keys), p.threshold, doc, doc.registry.signatures) && p.threshold > 0
    requires doc.registry.issuedAt <= t < doc.registry.expiresAt
    ensures ThresholdBacks(p, doc, t)
  {
    hide KeyRingOf, SubjectOf;
    var signatures, ring := doc.registry.signatures, KeyRingOf(p.keys);
    forall i, j | 0 <= i < j < |signatures|
      ensures DifferentKeys(ring, signatures[i].keyId, signatures[j].keyId)
    {
      assert Map(KeyIdOf, signatures)[i] != Map(KeyIdOf, signatures)[j];
      assert Map(MaterialOf(ring), signatures)[i] != Map(MaterialOf(ring), signatures)[j];
      assert signatures[i] in signatures && signatures[j] in signatures;
    }
  }

  lemma RecordBacked(r: Registry, record: Record, now: nat, t: nat)
    requires RecordsAccepted(r, now) && record in r.packages
    requires r.issuedAt <= t < r.expiresAt
    ensures PublisherBacks(r, record, t) && GrantBacks(r, record) && record.recordDigest == RecordDigest(record)
  {
  }
}
