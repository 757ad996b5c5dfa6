/** One reviewed-registry step: the list scan of `validate_reviewed_registry_evolution`
    and the identity-to-entry map step that it decides. */
module Evolution {
  import opened Lists
  import opened PromotionModel

  // The list scan --------------------------------------------------------

  /** `filter(|entry| same_reviewed_identity(entry, old))` */
  function Matching(entries: seq<Entry>, id: Identity): seq<Entry> {
    if entries == [] then []
    else
      var init, last := entries[..|entries| - 1], entries[|entries| - 1];
      Matching(init, id) + (if IdentityOf(last) == id then [last] else [])
  }

  predicate Known(entries: seq<Entry>, id: Identity) {
    exists i :: 0 <= i < |entries| && IdentityOf(entries[i]) == id
  }

  /** Successor entries whose identity no predecessor entry has. */
  function Appended(current: seq<Entry>, proposed: seq<Entry>): seq<Entry> {
    if proposed == [] then []
    else
      var init, last := proposed[..|proposed| - 1], proposed[|proposed| - 1];
      Appended(current, init) + (if Known(current, IdentityOf(last)) then [] else [last])
  }

  /** Pairs of a predecessor entry and its different first match in the successor. */
  function Changed(current: seq<Entry>, proposed: seq<Entry>): seq<(Entry, Entry)> {
    if current == [] then []
    else
      var init, prior := current[..|current| - 1], current[|current| - 1];
      var matches := Matching(proposed, IdentityOf(prior));
      Changed(init, proposed) + (if matches != [] && matches[0] != prior then [(prior, matches[0])] else [])
  }

  /** `require_immutable_reviewed_identity` */
  predicate SameSemantics(prior: Entry, next: Entry) {
    && prior.pack == next.pack
    && prior.packageDigest == next.packageDigest
    && prior.supplyChainRecord == next.supplyChainRecord
    && prior.manifest == next.manifest
    && prior.content == next.content
    && prior.license == next.license
    && prior.fixtures == next.fixtures
    && prior.compatibility == next.compatibility
  }

  predicate HeaderFollows(current: ReviewedRegistry, proposed: ReviewedRegistry) {
    && proposed.registryId == current.registryId
    && proposed.audience == current.audience
    && current.generation < U64_MAX
    && proposed.generation == current.generation + 1
    && proposed.previous == Some(current.registryDigest)
  }

  predicate EntryCanonical(entry: Entry) {
    && entry.entryDigest == EntryDigest(entry)
    && !(Tombstone(entry.stage) && entry.eligibility.EligibleReviewed?)
  }

  predicate EntriesCanonical(entries: seq<Entry>) {
    forall i :: 0 <= i < |entries| ==> EntryCanonical(entries[i])
  }

  /** A predecessor entry occurs exactly once; a changed one was not terminal and keeps its package. */
  predicate Preserved(prior: Entry, proposed: seq<Entry>) {
    var matches := Matching(proposed, IdentityOf(prior));
    && |matches| == 1
    && (matches[0] != prior ==> !Tombstone(prior.stage) && SameSemantics(prior, matches[0]))
  }

  /** The one change that `step` authorizes. */
  predicate AuthorizedChange(changed: seq<(Entry, Entry)>, appended: seq<Entry>, step: Transition) {
    if step.IsFirstReview()
    then && changed == []
         && |appended| == 1
         && appended[0].stage.Reviewed?
         && appended[0].eligibility.EligibleReviewed?
    else && |changed| == 1
         && appended == []
         && changed[0].0.stage == step.from
         && changed[0].1.stage == step.to
  }

  predicate AllPreserved(current: seq<Entry>, proposed: seq<Entry>) {
    forall i :: 0 <= i < |current| ==> Preserved(current[i], proposed)
  }

  /** What the list scan accepts, for any two lists. */
  predicate ScanAccepts(current: ReviewedRegistry, proposed: ReviewedRegistry, step: Transition) {
    && HeaderFollows(current, proposed)
    && |current.entries| <= |proposed.entries| <= |current.entries| + 1
    && AllPreserved(current.entries, proposed.entries)
    && AuthorizedChange(Changed(current.entries, proposed.entries),
                        Appended(current.entries, proposed.entries), step)
    && EntriesCanonical(proposed.entries)
  }

  /** The closing loop: every entry digest is canonical and no tombstone is eligible. */
  method CheckCanonical(entries: seq<Entry>) returns (ok: bool)
    ensures ok <==> EntriesCanonical(entries)
  {
    for i := 0 to |entries|
      invariant forall k :: 0 <= k < i ==> EntryCanonical(entries[k])
    {
      if entries[i].entryDigest != EntryDigest(entries[i]) {
        return false;
      }
      if Tombstone(entries[i].stage) && entries[i].eligibility.EligibleReviewed? {
        return false;
      }
    }
    return true;
  }

  /** The pass over the predecessor's entries, collecting the changed pairs. */
  method ScanPredecessor(current: seq<Entry>, proposed: seq<Entry>) returns (r: Result<seq<(Entry, Entry)>, Error>)
    ensures r.Ok? <==> AllPreserved(current, proposed)
    ensures r.Ok? ==> r.value == Changed(current, proposed)
  {
    hide Matching, SameSemantics;
    var changed: seq<(Entry, Entry)> := [];
    for i := 0 to |current|
      invariant changed == Changed(current[..i], proposed)
      invariant forall k :: 0 <= k < i ==> Preserved(current[k], proposed)
    {
      var prior := current[i];
      assert current[..i + 1] == current[..i] + [prior];
      var matches := Matching(proposed, IdentityOf(prior));
      if |matches| != 1 {
        return Err(EvolutionRejected);
      }
      if matches[0] != prior {
        if Tombstone(prior.stage) || !SameSemantics(prior, matches[0]) {
          return Err(EvolutionRejected);
        }
        changed := changed + [(prior, matches[0])];
      }
    }
    assert current[..|current|] == current;
    return Ok(changed);
  }

  /** `validate_reviewed_registry_evolution`, in the source's order of checks. */
  method ValidateEvolution(current: ReviewedRegistry, proposed: ReviewedRegistry, step: Transition)
    returns (r: Result<(), Error>)
    ensures r.Ok? <==> ScanAccepts(current, proposed, step)
  {
    hide AllPreserved, Changed, Appended, EntriesCanonical;
    if proposed.registryId != current.registryId || proposed.audience != current.audience {
      return Err(IdentityMismatch);
    }
    if current.generation >= U64_MAX || proposed.generation != current.generation + 1 {
      return Err(GenerationMismatch);
    }
    if proposed.previous != Some(current.registryDigest) {
      return Err(PredecessorMismatch);
    }
    if |proposed.entries| < |current.entries| || |proposed.entries| > |current.entries| + 1 {
      return Err(EvolutionRejected);
    }
    var scan := ScanPredecessor(current.entries, proposed.entries);
    if scan.Err? {
      return Err(scan.error);
    }
    var changed := scan.value;
    var appended := Appended(current.entries, proposed.entries);
    if step.IsFirstReview() {
      if changed != [] || |appended| != 1 || !appended[0].stage.Reviewed?
         || !appended[0].eligibility.EligibleReviewed? {
        return Err(EvolutionRejected);
      }
    } else {
      if |changed| != 1 || appended != [] {
        return Err(EvolutionRejected);
      }
      if changed[0].0.stage != step.from || changed[0].1.stage != step.to {
        return Err(EvolutionRejected);
      }
    }
    var canonical := CheckCanonical(proposed.entries);
    if !canonical {
      return Err(EvolutionRejected);
    }
    return Ok(());
  }

  // The map step ---------------------------------------------------------

  /** The registry as a map from identity to entry. */
  function AsMap(entries: seq<Entry>): map<Identity, Entry> {
    if entries == [] then map[]
    else
      var init, last := entries[..|entries| - 1], entries[|entries| - 1];
      AsMap(init)[IdentityOf(last) := last]
  }

  /** `e` is new, eligible and reviewed, and is the only difference. */
  ghost predicate AppendsReviewed(before: map<Identity, Entry>, after: map<Identity, Entry>, e: Entry) {
    && IdentityOf(e) !in before
    && e.stage.Reviewed?
    && e.eligibility.EligibleReviewed?
    && after == before[IdentityOf(e) := e]
  }

  /** One live entry moved along `step` into `e` with its package kept, and is the only difference. */
  ghost predicate MovesTo(before: map<Identity, Entry>, after: map<Identity, Entry>, step: Transition, e: Entry) {
    && IdentityOf(e) in before
    && before[IdentityOf(e)] != e
    && !Tombstone(before[IdentityOf(e)].stage)
    && SameSemantics(before[IdentityOf(e)], e)
    && before[IdentityOf(e)].stage == step.from
    && e.stage == step.to
    && after == before[IdentityOf(e) := e]
  }

  ghost predicate MapStep(current: ReviewedRegistry, proposed: ReviewedRegistry, step: Transition) {
    var before, after := AsMap(current.entries), AsMap(proposed.entries);
    && HeaderFollows(current, proposed)
    && UniqueIdentities(proposed.entries)
    && (exists e :: e in proposed.entries
                    && (if step.IsFirstReview() then AppendsReviewed(before, after, e)
                        else MovesTo(before, after, step, e)))
    && EntriesCanonical(proposed.entries)
  }

  lemma {:induction false} AsMapKeys(entries: seq<Entry>)
    ensures forall id :: id in AsMap(entries) <==> Known(entries, id)
    ensures forall id :: id in AsMap(entries) ==> AsMap(entries)[id] in entries && IdentityOf(AsMap(entries)[id]) == id
  {
    if entries != [] {
      var init, last := entries[..|entries| - 1], entries[|entries| - 1];
      AsMapKeys(init);
      forall id ensures id in AsMap(entries) <==> Known(entries, id) {
        if Known(entries, id) {
          var i :| 0 <= i < |entries| && IdentityOf(entries[i]) == id;
          assert i < |init| ==> init[i] == entries[i];
        }
        if Known(init, id) {
          var i :| 0 <= i < |init| && IdentityOf(init[i]) == id;
          assert entries[i] == init[i];
        }
        assert IdentityOf(entries[|entries| - 1]) == IdentityOf(last);
      }
    }
  }

  /** With unique identities the map holds every entry, and as many keys as entries. */
  lemma {:induction false} AsMapUnique(entries: seq<Entry>)
    requires UniqueIdentities(entries)
    ensures forall e :: e in entries ==> IdentityOf(e) in AsMap(entries) && AsMap(entries)[IdentityOf(e)] == e
    ensures |AsMap(entries)| == |entries|
  {
    AsMapKeys(entries);
    if entries != [] {
      var init, last := entries[..|entries| - 1], entries[|entries| - 1];
      AsMapUnique(init);
      AsMapKeys(init);
      assert !Known(init, IdentityOf(last));
      assert AsMap(entries).Keys == AsMap(init).Keys + {IdentityOf(last)};
      forall e | e in entries ensures AsMap(entries)[IdentityOf(e)] == e {
        assert e in init || e == last;
      }
    }
  }

  lemma {:induction false} MatchingMember(entries: seq<Entry>, id: Identity)
    ensures forall e :: e in Matching(entries, id) <==> e in entries && IdentityOf(e) == id
  {
    if entries != [] {
      var init, last := entries[..|entries| - 1], entries[|entries| - 1];
      MatchingMember(init, id);
      assert entries == init + [last];
    }
  }

  /** Two entries of one identity make two matches. */
  lemma {:induction false} MatchingTwice(entries: seq<Entry>, i: int, j: int)
    requires 0 <= i < j < |entries| && IdentityOf(entries[i]) == IdentityOf(entries[j])
    ensures |Matching(entries, IdentityOf(entries[i]))| >= 2
  {
    var init, id := entries[..|entries| - 1], IdentityOf(entries[i]);
    if j == |entries| - 1 {
      MatchingMember(init, id);
      assert init[i] == entries[i];
      assert entries[i] in Matching(init, id);
    } else {
      MatchingTwice(init, i, j);
    }
  }

  /** With unique identities a match is the map's entry. */
  lemma {:induction false} MatchingUnique(entries: seq<Entry>, id: Identity)
    requires UniqueIdentities(entries)
    ensures Matching(entries, id) == if id in AsMap(entries) then [AsMap(entries)[id]] else []
  {
    if entries != [] {
      var init, last := entries[..|entries| - 1], entries[|entries| - 1];
      MatchingUnique(init, id);
      AsMapKeys(init);
      assert !Known(init, IdentityOf(last));
    }
  }

  lemma {:induction false} AppendedMember(current: seq<Entry>, proposed: seq<Entry>)
    ensures forall e :: e in Appended(current, proposed) <==> e in proposed && !Known(current, IdentityOf(e))
  {
    if proposed != [] {
      var init, last := proposed[..|proposed| - 1], proposed[|proposed| - 1];
      AppendedMember(current, init);
      assert proposed == init + [last];
    }
  }

  lemma {:induction false} AppendedTwice(current: seq<Entry>, proposed: seq<Entry>, i: int, j: int)
    requires 0 <= i < j < |proposed|
    requires !Known(current, IdentityOf(proposed[i])) && !Known(current, IdentityOf(proposed[j]))
    ensures |Appended(current, proposed)| >= 2
  {
    var init := proposed[..|proposed| - 1];
    if j == |proposed| - 1 {
      AppendedMember(current, init);
      assert init[i] == proposed[i];
      assert proposed[i] in Appended(current, init);
    } else {
      AppendedTwice(current, init, i, j);
    }
  }

  /** In a duplicate-free successor at most one entry can be appended once only one key is new. */
  lemma {:induction false} AppendedSingle(current: seq<Entry>, proposed: seq<Entry>, e: Entry)
    requires UniqueIdentities(proposed) && e in proposed && !Known(current, IdentityOf(e))
    requires forall x :: x in proposed ==> Known(current, IdentityOf(x)) || x == e
    ensures Appended(current, proposed) == [e]
  {
    AppendedMember(current, proposed);
    assert e in Appended(current, proposed);
    var init, last := proposed[..|proposed| - 1], proposed[|proposed| - 1];
    assert proposed == init + [last];
    if last == e {
      AppendedMember(current, init);
      assert forall i :: 0 <= i < |init| ==> init[i] == proposed[i] && IdentityOf(proposed[i]) != IdentityOf(e);
      assert e !in init;
      HeadIsMember(Appended(current, init));
    } else {
      AppendedSingle(current, init, e);
    }
  }

  lemma {:induction false} ChangedMember(current: seq<Entry>, proposed: seq<Entry>)
    ensures forall p :: p in Changed(current, proposed) <==>
                        && p.0 in current
                        && var matches := Matching(proposed, IdentityOf(p.0));
                           matches != [] && matches[0] == p.1 && p.1 != p.0
  {
    if current != [] {
      var init, prior := current[..|current| - 1], current[|current| - 1];
      ChangedMember(init, proposed);
      assert current == init + [prior];
    }
  }

  /** With unique predecessor identities, one changed pair is the whole list of changes. */
  lemma {:induction false} ChangedSingle(current: seq<Entry>, proposed: seq<Entry>, p: (Entry, Entry))
    requires UniqueIdentities(current)
    requires p in Changed(current, proposed)
    requires forall q :: q in Changed(current, proposed) ==> q == p
    ensures Changed(current, proposed) == [p]
  {
    var init, prior := current[..|current| - 1], current[|current| - 1];
    var front := Changed(init, proposed);
    var tail := Changed(current, proposed)[|front|..];
    assert Changed(current, proposed) == front + tail;
    assert forall q :: q in front ==> q in Changed(current, proposed);
    ChangedMember(init, proposed);
    assert forall i :: 0 <= i < |init| ==> init[i] == current[i] && IdentityOf(current[i]) != IdentityOf(prior);
    assert prior !in init;
    assert front != [] ==> front[0] in front;
    assert tail != [] ==> tail[0] in Changed(current, proposed) && tail[0].0 == prior;
    if p in front {
      ChangedSingle(init, proposed, p);
    }
  }

  /** An accepted successor has no duplicate identity: a duplicate would be matched or appended twice. */
  lemma ScanUnique(current: seq<Entry>, proposed: seq<Entry>)
    requires AllPreserved(current, proposed) && |Appended(current, proposed)| <= 1
    ensures UniqueIdentities(proposed)
  {
    forall i, j | 0 <= i < j < |proposed| ensures IdentityOf(proposed[i]) != IdentityOf(proposed[j]) {
      var id := IdentityOf(proposed[i]);
      if id == IdentityOf(proposed[j]) {
        if Known(current, id) {
          var k :| 0 <= k < |current| && IdentityOf(current[k]) == id;
          assert Preserved(current[k], proposed);
          MatchingTwice(proposed, i, j);
        } else {
          AppendedTwice(current, proposed, i, j);
        }
        assert false;
      }
    }
  }

  /** A preserved predecessor identity is a key of the successor, unchanged or in the list of changes. */
  lemma PreservedKey(current: seq<Entry>, proposed: seq<Entry>, id: Identity)
    requires UniqueIdentities(proposed) && AllPreserved(current, proposed)
    requires id in AsMap(current)
    ensures id in AsMap(proposed)
    ensures var before, after := AsMap(current)[id], AsMap(proposed)[id];
            before != after ==> && (before, after) in Changed(current, proposed)
                                && !Tombstone(before.stage) && SameSemantics(before, after)
  {
    hide AsMap, Changed, Appended, Matching, UniqueIdentities;
    AsMapKeys(current);
    var before := AsMap(current)[id];
    var k :| 0 <= k < |current| && current[k] == before;
    assert Preserved(current[k], proposed);
    MatchingUnique(proposed, id);
    ChangedMember(current, proposed);
  }

  /** Keys of the successor are old or appended. */
  lemma ScanKeys(current: seq<Entry>, proposed: seq<Entry>)
    requires UniqueIdentities(proposed) && AllPreserved(current, proposed)
    ensures AsMap(proposed).Keys == AsMap(current).Keys + set e | e in Appended(current, proposed) :: IdentityOf(e)
    ensures forall e :: e in Appended(current, proposed) ==>
              && IdentityOf(e) in AsMap(proposed) && AsMap(proposed)[IdentityOf(e)] == e
              && IdentityOf(e) !in AsMap(current) && e in proposed
  {
    hide AsMap, Changed, Appended, Matching, AllPreserved, UniqueIdentities;
    AsMapKeys(current);
    AsMapKeys(proposed);
    AsMapUnique(proposed);
    AppendedMember(current, proposed);
    forall id | id in AsMap(current) ensures id in AsMap(proposed) {
      PreservedKey(current, proposed, id);
    }
    forall id | id in AsMap(proposed) && id !in AsMap(current)
      ensures exists e :: e in Appended(current, proposed) && IdentityOf(e) == id
    {
      assert AsMap(proposed)[id] in Appended(current, proposed);
    }
  }

  lemma FirstReviewStep(current: seq<Entry>, proposed: seq<Entry>, e: Entry)
    requires UniqueIdentities(proposed) && AllPreserved(current, proposed)
    requires Changed(current, proposed) == [] && Appended(current, proposed) == [e]
    ensures e in proposed && IdentityOf(e) !in AsMap(current)
    ensures AsMap(proposed) == AsMap(current)[IdentityOf(e) := e]
  {
    hide AsMap, Changed, Appended, Matching, AllPreserved, UniqueIdentities;
    ScanKeys(current, proposed);
    assert e in Appended(current, proposed);
    var before, after := AsMap(current), AsMap(proposed);
    forall id | id in before ensures id in after && after[id] == before[id] {
      PreservedKey(current, proposed, id);
    }
    assert after.Keys == before.Keys + {IdentityOf(e)};
  }

  /** The one pair in the list of changes. */
  lemma ChangedPair(current: seq<Entry>, proposed: seq<Entry>, p: (Entry, Entry))
    requires UniqueIdentities(current) && UniqueIdentities(proposed) && AllPreserved(current, proposed)
    requires p in Changed(current, proposed)
    ensures p.0 != p.1 && p.1 in proposed && IdentityOf(p.0) == IdentityOf(p.1)
    ensures IdentityOf(p.1) in AsMap(current) && AsMap(current)[IdentityOf(p.1)] == p.0
    ensures IdentityOf(p.1) in AsMap(proposed) && AsMap(proposed)[IdentityOf(p.1)] == p.1
    ensures !Tombstone(p.0.stage) && SameSemantics(p.0, p.1)
  {
    hide AsMap, Changed, Appended, Matching, AllPreserved, UniqueIdentities;
    ChangedMember(current, proposed);
    MatchingMember(proposed, IdentityOf(p.0));
    AsMapUnique(current);
    AsMapUnique(proposed);
    PreservedKey(current, proposed, IdentityOf(p.0));
  }

  lemma LifecycleStep(current: seq<Entry>, proposed: seq<Entry>, p: (Entry, Entry))
    requires UniqueIdentities(current) && UniqueIdentities(proposed) && AllPreserved(current, proposed)
    requires Changed(current, proposed) == [p] && Appended(current, proposed) == []
    ensures p.1 in proposed && IdentityOf(p.1) in AsMap(current) && AsMap(current)[IdentityOf(p.1)] == p.0 != p.1
    ensures !Tombstone(p.0.stage) && SameSemantics(p.0, p.1)
    ensures AsMap(proposed) == AsMap(current)[IdentityOf(p.1) := p.1]
  {
    hide AsMap, Changed, Appended, Matching, AllPreserved, UniqueIdentities;
    assert p in Changed(current, proposed);
    ChangedPair(current, proposed, p);
    ScanKeys(current, proposed);
    var before, after, id := AsMap(current), AsMap(proposed), IdentityOf(p.1);
    assert after.Keys == before.Keys;
    forall i | i in before && i != id ensures after[i] == before[i] {
      PreservedKey(current, proposed, i);
      if before[i] != after[i] {
        ChangedPair(current, proposed, (before[i], after[i]));
        AsMapKeys(current);
        assert false;
      }
    }
  }

  lemma ScanGivesMapStep(current: ReviewedRegistry, proposed: ReviewedRegistry, step: Transition)
    requires UniqueIdentities(current.entries) && ScanAccepts(current, proposed, step)
    ensures MapStep(current, proposed, step)
  {
    hide AsMap, Changed, Appended, Matching, AllPreserved, UniqueIdentities, EntriesCanonical, HeaderFollows;
    ScanUnique(current.entries, proposed.entries);
    if step.IsFirstReview() {
      var e := Appended(current.entries, proposed.entries)[0];
      FirstReviewStep(current.entries, proposed.entries, e);
      assert AppendsReviewed(AsMap(current.entries), AsMap(proposed.entries), e);
    } else {
      var p := Changed(current.entries, proposed.entries)[0];
      LifecycleStep(current.entries, proposed.entries, p);
      assert MovesTo(AsMap(current.entries), AsMap(proposed.entries), step, p.1);
    }
  }

  /** A one-key map update preserves every predecessor entry and changes at most that key. */
  lemma UpdatePreserves(current: seq<Entry>, proposed: seq<Entry>, e: Entry)
    requires UniqueIdentities(current) && UniqueIdentities(proposed) && e in proposed
    requires AsMap(proposed) == AsMap(current)[IdentityOf(e) := e]
    requires IdentityOf(e) in AsMap(current) ==>
               var prior := AsMap(current)[IdentityOf(e)]; !Tombstone(prior.stage) && SameSemantics(prior, e)
    ensures AllPreserved(current, proposed)
    ensures forall p :: p in Changed(current, proposed) <==>
                        IdentityOf(e) in AsMap(current) && p == (AsMap(current)[IdentityOf(e)], e) && p.0 != e
    ensures forall x :: x in Appended(current, proposed) <==> x == e && IdentityOf(e) !in AsMap(current)
    ensures |proposed| == |current| + if IdentityOf(e) in AsMap(current) then 0 else 1
  {
    hide AsMap, Changed, Appended, Matching, UniqueIdentities;
    var before, after, id := AsMap(current), AsMap(proposed), IdentityOf(e);
    AsMapUnique(current);
    AsMapUnique(proposed);
    AsMapKeys(current);
    assert after.Keys == before.Keys + {id};
    forall i | 0 <= i < |current| ensures Preserved(current[i], proposed) {
      assert current[i] in current;
      MatchingUnique(proposed, IdentityOf(current[i]));
    }
    ChangedMember(current, proposed);
    forall p: (Entry, Entry)
      ensures p in Changed(current, proposed) <==> id in before && p == (before[id], e) && p.0 != e
    {
      MatchingUnique(proposed, IdentityOf(p.0));
      assert p.0 in current ==> IdentityOf(p.0) in before && before[IdentityOf(p.0)] == p.0;
    }
    AppendedMember(current, proposed);
    forall x ensures x in Appended(current, proposed) <==> x == e && id !in before {
      assert x in proposed ==> after[IdentityOf(x)] == x;
    }
  }

  lemma MapStepGivesScan(current: ReviewedRegistry, proposed: ReviewedRegistry, step: Transition)
    requires UniqueIdentities(current.entries) && MapStep(current, proposed, step)
    ensures ScanAccepts(current, proposed, step)
  {
    hide AsMap, Changed, Appended, Matching, AllPreserved, UniqueIdentities, EntriesCanonical, HeaderFollows;
    var before, after := AsMap(current.entries), AsMap(proposed.entries);
    var e :| e in proposed.entries
             && (if step.IsFirstReview() then AppendsReviewed(before, after, e) else MovesTo(before, after, step, e));
    UpdatePreserves(current.entries, proposed.entries, e);
    var changed, appended := Changed(current.entries, proposed.entries), Appended(current.entries, proposed.entries);
    HeadIsMember(changed);
    HeadIsMember(appended);
    if step.IsFirstReview() {
      AsMapKeys(current.entries);
      AppendedMember(current.entries, proposed.entries);
      AppendedSingle(current.entries, proposed.entries, e);
    } else {
      ChangedSingle(current.entries, proposed.entries, (before[IdentityOf(e)], e));
    }
  }

  /** Evolution refinement: on a registry with unique identities the list scan accepts exactly the
      one-entry map steps. */
  lemma ScanRefinesMapStep(current: ReviewedRegistry, proposed: ReviewedRegistry, step: Transition)
    requires UniqueIdentities(current.entries)
    ensures ScanAccepts(current, proposed, step) <==> MapStep(current, proposed, step)
  {
    if ScanAccepts(current, proposed, step) {
      ScanGivesMapStep(current, proposed, step);
    }
    if MapStep(current, proposed, step) {
      MapStepGivesScan(current, proposed, step);
    }
  }
}
