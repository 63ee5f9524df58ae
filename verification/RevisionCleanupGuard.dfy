/**
 * How exact the guard on edits is: an edit against it can always be continued to the collection of a revision in use,
 * and what that means for undoing a change, and for tiers whose refs are fixed.
 */
module RevisionCleanupGuard {
  import opened Tiers
  import opened TierRevisions
  import opened RevisionCleanup
  import opened RevisionCleanupSafety

  // ---------- Composing runs ----------

  lemma OneMore(w: World, e: Event, events: seq<Event>, t: string)
    requires IsPossible(w, e) && Respects(w, t, e) && IsRun(Next(w, e), events, t)
    ensures IsRun(w, [e] + events, t) && Run(w, [e] + events, t) == Run(Next(w, e), events, t)
  {
    assert ([e] + events)[1..] == events;
  }

  lemma {:induction false} RunAppend(w: World, first: seq<Event>, second: seq<Event>, t: string)
    requires IsRun(w, first, t) && IsRun(Run(w, first, t), second, t)
    ensures IsRun(w, first + second, t) && Run(w, first + second, t) == Run(Run(w, first, t), second, t)
    decreases |first|
  {
    if first == [] {
      assert first + second == second;
    } else {
      RunAppend(Next(w, first[0]), first[1..], second, t);
      OneMore(w, first[0], first[1..] + second, t);
      assert [first[0]] + (first[1..] + second) == first + second;
    }
  }

  lemma OneEvent(w: World, e: Event, t: string)
    requires IsPossible(w, e) && Respects(w, t, e)
    ensures IsRun(w, [e], t) && Run(w, [e], t) == Next(w, e)
  {
    OneMore(w, e, [], t);
    assert [e] + [] == [e];
  }

  // ---------- A reconcile of the tier that brings a hash back ----------

  lemma ListRefs(refs: set<string>) returns (list: seq<string>)
    ensures forall r :: r in list <==> r in refs
  {
    list := [];
    var rest := refs;
    while rest != {}
      invariant rest <= refs && forall r :: r in list <==> r in refs - rest
      decreases |rest|
    {
      var r :| r in rest;
      list := list + [r];
      rest := rest - {r};
    }
  }

  function AllOk(n: nat): (ok: seq<bool>)
    ensures |ok| == n && forall i | 0 <= i < n :: ok[i]
  {
    seq(n, _ => true)
  }

  /** The walk over some of the refs creates nothing and yields the hash's entries for them. */
  lemma {:induction false} EnsureGives(store: Store, t: string, tier: Tier, hash: Hash, refs: seq<string>)
    requires WouldGive(store, tier, hash) && forall r | r in refs :: r in hash
    ensures var (store', r) := EnsureRefs(store, t, tier.spec.parameters, tier.revisions, refs, AllOk(|refs|));
            store' == store && r.Ok? && r.value.1 == map x | x in hash && x in refs :: hash[x]
    decreases |refs|
  {
    if refs != [] {
      var n := |refs| - 1;
      EnsureGives(store, t, tier, hash, refs[..n]);
      assert AllOk(|refs|)[..n] == AllOk(n);
      assert refs == refs[..n] + [refs[n]] && refs[n] in refs;
      var before := map x | x in hash && x in refs[..n] :: hash[x];
      assert before[refs[n] := hash[refs[n]]] == map x | x in hash && x in refs :: hash[x];
    }
  }

  lemma ReconcileGives(w: World, t: string, hash: Hash, refs: seq<string>)
    requires t in w.tiers && WouldGive(w.store, w.tiers[t], hash) && forall r :: r in refs <==> r in hash
    ensures IsPossible(w, ReconcileTier(t, refs, AllOk(|refs|), false))
    ensures Next(w, ReconcileTier(t, refs, AllOk(|refs|), false))
            == w.(tiers := w.tiers[t := w.tiers[t].(finalizer := true, revisions := hash)])
  {
    var tier := w.tiers[t].(finalizer := true);
    EnsureGives(w.store, t, tier, hash, refs);
    assert (map x | x in hash && x in refs :: hash[x]) == hash;
  }

  // ---------- An unsafe label leads to a collection ----------

  /** Deleting all Spaces but one. */
  lemma {:induction false} LeaveOnly(w: World, t: string, s: string, gone: set<string>) returns (events: seq<Event>)
    requires s !in gone
    ensures IsRun(w, events, t) && Run(w, events, t) == w.(spaces := w.spaces - gone)
    decreases |gone|
  {
    if gone == {} {
      assert w.spaces - gone == w.spaces;
      return [];
    }
    var x :| x in gone;
    var rest := LeaveOnly(Next(w, DeleteSpace(x)), t, s, gone - {x});
    OneMore(w, DeleteSpace(x), rest, t);
    assert w.spaces - {x} - (gone - {x}) == w.spaces - gone;
    events := [DeleteSpace(x)] + rest;
  }

  /** Sound up to the safety of the labels, which an edit may have lost. */
  ghost predicate IsBacked(w: World, t: string) {
    && NamesAreOld(w) && (t in w.tiers ==> TierIsSound(w.tiers[t], w.store))
    && forall s, n | s in w.spaces && Carries(w.spaces[s], t) && n in RefsOf(w.spaces[s]) && IsRevisionOf(n, t) ::
          n in w.store.ttrs
  }

  /** A label that would come back, although the Space uses a revision of the tier that it does not name. */
  predicate Misleads(w: World, t: string, s: string, n: Name) {
    && t in w.tiers && s in w.spaces && Carries(w.spaces[s], t) && WouldGive(w.store, w.tiers[t], w.spaces[s].hashes[t])
    && n in RefsOf(w.spaces[s]) && IsRevisionOf(n, t) && n !in w.spaces[s].hashes[t].Values
  }

  /** The tier is reconciled, and the cleanup finds the revision unnamed and its only user up to date. */
  lemma CleanupRuns(w: World, t: string, s: string, n: Name) returns (events: seq<Event>)
    requires IsBacked(w, t) && Misleads(w, t, s, n) && w.spaces.Keys == {s}
    ensures IsRun(w, events, t) && Collects(Run(w, events, t), t, n, s)
  {
    var hash := w.spaces[s].hashes[t];
    assert n in w.store.ttrs && w.store.ttrs[n].tier == t;
    var refs := ListRefs(hash.Keys);
    ReconcileGives(w, t, hash, refs);
    var reconcile := ReconcileTier(t, refs, AllOk(|refs|), false);
    var w1 := Next(w, reconcile);
    var w2 := Next(w1, ReadTier(n));
    assert w2 == w1.(cleanups := w1.cleanups[n := TierRead(hash)]);
    var w3 := Next(w2, ListOutdated(n));
    assert w3 == w2.(cleanups := w2.cleanups[n := Unused]);
    OneEvent(w2, ListOutdated(n), t);
    OneMore(w1, ReadTier(n), [ListOutdated(n)], t);
    OneMore(w, reconcile, [ReadTier(n)] + [ListOutdated(n)], t);
    events := [reconcile] + ([ReadTier(n)] + [ListOutdated(n)]);
  }

  lemma UsedIsCollected(w: World, t: string, s: string, n: Name) returns (events: seq<Event>)
    requires IsBacked(w, t) && Misleads(w, t, s, n)
    ensures IsRun(w, events, t) && Collects(Run(w, events, t), t, n, s)
  {
    var first := LeaveOnly(w, t, s, w.spaces.Keys - {s});
    var second := CleanupRuns(Run(w, first, t), t, s, n);
    RunAppend(w, first, second, t);
    events := first + second;
  }

  /** An update of the Space, whatever its tier was, that makes it use the revision of one ref. */
  lemma SpaceGets(w: World, t: string, s: string, r: string) returns (events: seq<Event>)
    requires t in w.tiers && s in w.spaces
    requires r in Refs(w.tiers[t].spec) && Refs(w.tiers[t].spec) <= w.tiers[t].revisions.Keys
    ensures IsRun(w, events, t)
    ensures var w' := Run(w, events, t);
            && s in w'.spaces && w' == w.(spaces := w.spaces[s := w'.spaces[s]])
            && w'.spaces[s].hashes == w.spaces[s].hashes
            && RefsOf(w'.spaces[s]) == {w.tiers[t].revisions[r]}
  {
    var w1 := Next(w, EditSpace(s, t));
    var w2 := Next(w1, ReconcileSpace(s, {r}, true, false));
    assert Wanted(w.tiers[t], {r}) == {w.tiers[t].revisions[r]};
    OneEvent(w1, ReconcileSpace(s, {r}, true, false), t);
    OneMore(w, EditSpace(s, t), [ReconcileSpace(s, {r}, true, false)], t);
    events := [EditSpace(s, t)] + [ReconcileSpace(s, {r}, true, false)];
  }

  /** A label that would come back without covering the Space leads to a collection, with no further edit. */
  lemma UnsafeLeadsToCollection(w: World, t: string, s: string) returns (events: seq<Event>)
    requires IsBacked(w, t) && t in w.tiers && s in w.spaces && Carries(w.spaces[s], t)
    requires WouldGive(w.store, w.tiers[t], w.spaces[s].hashes[t])
             && !Covers(w.spaces[s].hashes[t], w.spaces[s], t, w.tiers[t])
    ensures IsRun(w, events, t) && CollectsInUse(Run(w, events, t), t)
  {
    var (hash, tier) := (w.spaces[s].hashes[t], w.tiers[t]);
    if n :| n in RefsOf(w.spaces[s]) && IsRevisionOf(n, t) && n !in hash.Values {
      events := UsedIsCollected(w, t, s, n);
      assert Collects(Run(w, events, t), t, n, s);
    } else {
      var r :| r in Refs(tier.spec) && IsRevisionOf(tier.revisions[r], t) && tier.revisions[r] !in hash.Values;
      var first := SpaceGets(w, t, s, r);
      UpdatedIsBacked(w, t, s, r, Run(w, first, t));
      var second := UsedIsCollected(Run(w, first, t), t, s, tier.revisions[r]);
      RunAppend(w, first, second, t);
      events := first + second;
      assert Collects(Run(w, events, t), t, tier.revisions[r], s);
    }
  }

  lemma UpdatedIsBacked(w: World, t: string, s: string, r: string, w': World)
    requires IsBacked(w, t) && t in w.tiers && s in w'.spaces && r in w.tiers[t].revisions
    requires w' == w.(spaces := w.spaces[s := w'.spaces[s]]) && RefsOf(w'.spaces[s]) == {w.tiers[t].revisions[r]}
    ensures IsBacked(w', t)
  {
    assert NamesAreOld(w');
  }

  lemma EditedIsBacked(w: World, t: string, e: Event)
    requires Inv(w, t) && (e.EditTier? || e.EditTemplate?)
    ensures IsBacked(Next(w, e), t)
  {
    var w' := Next(w, e);
    forall u | u in w'.tiers ensures RevisionsAreOf(w'.tiers[u], u, w'.store.serial) {
      assert RevisionsAreOf(w.tiers[u], u, w.store.serial);
    }
    forall s | s in w.spaces && Carries(w.spaces[s], t) ensures LabelIsSound(w, t, s) {
    }
  }

  /** Every way to go on from a world, respecting the guard. */
  ghost predicate StaysSafe(w: World, t: string) {
    forall events | IsRun(w, events, t) :: !CollectsInUse(Run(w, events, t), t)
  }

  /**
   * The guard is exact: from any sound world an event respects it if and only if, however things go on afterwards,
   * no revision of the tier is ever collected while a Space carrying the tier's label uses it.
   */
  lemma GuardIsExact(w: World, t: string, e: Event)
    requires Inv(w, t) && IsPossible(w, e)
    ensures Respects(w, t, e) <==> StaysSafe(Next(w, e), t)
  {
    if Respects(w, t, e) {
      EventKeepsInv(w, t, e);
      forall events | IsRun(Next(w, e), events, t) ensures !CollectsInUse(Run(Next(w, e), events, t), t) {
        RunKeepsInv(Next(w, e), events, t);
        SoundNeverCollects(Run(Next(w, e), events, t), t);
      }
    } else {
      var s := UnsafeLabel(w, t, e);
      EditedIsBacked(w, t, e);
      var events := UnsafeLeadsToCollection(Next(w, e), t, s);
      assert IsRun(Next(w, e), events, t);
    }
  }

  /** A label that an edit makes unsafe is not the tier's hash; it would come back. */
  lemma UnsafeLabel(w: World, t: string, e: Event) returns (s: string)
    requires Inv(w, t) && IsPossible(w, e) && !Respects(w, t, e)
    ensures var w' := Next(w, e);
            && t in w'.tiers && s in w'.spaces && Carries(w'.spaces[s], t)
            && WouldGive(w'.store, w'.tiers[t], w'.spaces[s].hashes[t])
            && !Covers(w'.spaces[s].hashes[t], w'.spaces[s], t, w'.tiers[t])
  {
    var w' := Next(w, e);
    s :| s in w'.spaces && Carries(w'.spaces[s], t) && !LabelIsSafe(w', t, s);
    assert LabelIsSound(w, t, s);
    assert w'.tiers[t].revisions == w.tiers[t].revisions && w'.spaces == w.spaces;
  }
}
