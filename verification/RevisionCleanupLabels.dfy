/**
 * What the hash label is for: a revision in use is protected from the cleanup exactly while the Space that uses it
 * carries the label of the revision's tier, which it gets only once it is provisioned.
 */
module RevisionCleanupLabels {
  import opened Base
  import opened Tiers
  import opened TierRevisions
  import opened RevisionCleanup
  import opened RevisionCleanupSafety
  import opened RevisionCleanupGuard
  import opened RevisionCleanupEdits

  /** The next step of the cleanup deletes a revision that the Space uses, labelled or not. */
  predicate TakesFrom(w: World, n: Name, s: string) {
    WillDelete(w, n) && s in w.spaces && n in RefsOf(w.spaces[s])
  }

  /** The Space is neither moved to another tier nor deleted. */
  ghost predicate KeepsSpace(events: seq<Event>, s: string) {
    forall e | e in events :: !(e.EditSpace? && e.space == s) && !(e.DeleteSpace? && e.space == s)
  }

  /** In all continuations within the guard that keep the Space, the revision is not deleted while the Space uses it. */
  ghost predicate StaysProtected(w: World, t: string, n: Name, s: string) {
    forall events | IsRun(w, events, t) && KeepsSpace(events, s) :: !TakesFrom(Run(w, events, t), n, s)
  }

  // ---------- With the label ----------

  /** Labelled, or moved on to another tier for good. */
  predicate IsShielded(w: World, t: string, s: string) {
    && s in w.spaces
    && (Carries(w.spaces[s], t)
        || (w.spaces[s].tierName != t && forall n | n in RefsOf(w.spaces[s]) :: !IsRevisionOf(n, t)))
  }

  lemma ReconcileKeepsShield(w: World, t: string, s: string, x: string, used: set<string>, differs: bool, waits: bool)
    requires Inv(w, t) && IsShielded(w, t, s)
    ensures IsShielded(ReconciledSpace(w, x, used, differs, waits), t, s)
  {
    var w' := ReconciledSpace(w, x, used, differs, waits);
    if w' != w && x == s && w.spaces[s].tierName != t {
      var u := w.spaces[s].tierName;
      assert RefsOf(w'.spaces[s]) == Wanted(w.tiers[u], used);
      forall n | n in Wanted(w.tiers[u], used) ensures !IsRevisionOf(n, t) {
        var r :| r in used && r in w.tiers[u].revisions && n == w.tiers[u].revisions[r];
        assert RevisionsAreOf(w.tiers[u], u, w.store.serial);
      }
    }
  }

  lemma EventKeepsShield(w: World, t: string, s: string, e: Event)
    requires Inv(w, t) && IsShielded(w, t, s) && IsPossible(w, e) && KeepsSpace([e], s)
    ensures IsShielded(Next(w, e), t, s)
  {
    assert e in [e];
    if e.ReconcileSpace? {
      ReconcileKeepsShield(w, t, s, e.space, e.used, e.differs, e.waits);
    }
  }

  lemma {:induction false} RunKeepsShield(w: World, t: string, s: string, events: seq<Event>)
    requires Inv(w, t) && IsShielded(w, t, s) && IsRun(w, events, t) && KeepsSpace(events, s)
    ensures IsShielded(Run(w, events, t), t, s)
    decreases |events|
  {
    if events != [] {
      assert events[0] in events;
      EventKeepsShield(w, t, s, events[0]);
      EventKeepsInv(w, t, events[0]);
      RunKeepsShield(Next(w, events[0]), t, s, events[1..]);
    }
  }

  // ---------- Without the label ----------

  /** Giving each of these templates the same contents; the contents of templates may always change. */
  lemma {:induction false} Rewriting(w: World, t: string, s: string, refs: seq<string>, objects: string)
    returns (events: seq<Event>)
    requires forall x | x in w.spaces :: !Carries(w.spaces[x], t)
    ensures IsRun(w, events, t) && IsFixedRun(w, events, t) && KeepsSpace(events, s)
    ensures var v := Run(w, events, t);
            && v == w.(store := w.store.(templates := v.store.templates))
            && (forall r | r in refs :: r in v.store.templates && v.store.templates[r] == Some(objects))
    decreases |refs|
  {
    if refs == [] {
      return [];
    }
    var n := |refs| - 1;
    events := Rewriting(w, t, s, refs[..n], objects);
    var v := Run(w, events, t);
    var e := EditTemplate(refs[n], Some(objects));
    OneEvent(v, e, t);
    FixedSnoc(w, t, events, e);
    RunAppend(w, events, [e], t);
    events := events + [e];
    assert refs == refs[..n] + [refs[n]];
  }

  lemma {:induction false} FixedAppend(w: World, t: string, first: seq<Event>, second: seq<Event>)
    requires IsRun(w, first, t) && IsFixedRun(w, first, t) && IsFixedRun(Run(w, first, t), second, t)
    ensures IsFixedRun(w, first + second, t)
    decreases |first|
  {
    if first == [] {
      assert first + second == second;
    } else {
      assert (first + second)[1..] == first[1..] + second;
      FixedAppend(Next(w, first[0]), t, first[1..], second);
    }
  }

  lemma FixedSnoc(w: World, t: string, first: seq<Event>, e: Event)
    requires IsRun(w, first, t) && IsFixedRun(w, first, t)
    requires IsPossible(Run(w, first, t), e) && KeepsRefs(Run(w, first, t), t, e)
    ensures IsFixedRun(w, first + [e], t)
  {
    assert [e][1..] == [];
    assert IsFixedRun(Run(w, first, t), [e], t);
    FixedAppend(w, t, first, [e]);
  }

  /** With all its templates there, the walk over the refs succeeds. */
  lemma {:induction false} EnsureSucceeds(store: Store, t: string, parameters: string, recorded: map<string, Name>,
                                          refs: seq<string>)
    requires AllOld(store) && forall r | r in refs :: r in store.templates
    ensures EnsureRefs(store, t, parameters, recorded, refs, AllOk(|refs|)).1.Ok?
    decreases |refs|
  {
    if refs != [] {
      var n := |refs| - 1;
      assert AllOk(|refs|)[..n] == AllOk(n);
      EnsureSucceeds(store, t, parameters, recorded, refs[..n]);
      EnsureRefsGrows(store, t, parameters, recorded, refs[..n], AllOk(n));
    }
  }

  /** A revision with other objects than all templates of its tier is not named after the tier's next reconcile. */
  lemma ReconcileForgets(w: World, t: string, n: Name, objects: string) returns (e: Event)
    requires NamesAreOld(w) && t in w.tiers && !w.tiers[t].deleting
    requires n in w.store.ttrs && w.store.ttrs[n].objects != objects && n.Generated?
    requires forall r | r in Refs(w.tiers[t].spec) :: r in w.store.templates && w.store.templates[r] == Some(objects)
    ensures e.ReconcileTier? && IsPossible(w, e)
    ensures var v := Next(w, e);
            && v.spaces == w.spaces && n in v.store.ttrs && v.store.ttrs[n] == w.store.ttrs[n]
            && t in v.tiers && n !in v.tiers[t].revisions.Values
  {
    var tier := w.tiers[t];
    var refs := ListRefs(Refs(tier.spec));
    var ok := AllOk(|refs|);
    e := ReconcileTier(t, refs, ok, false);
    assert AllOld(w.store);
    EnsureSucceeds(w.store, t, tier.spec.parameters, tier.revisions, refs);
    EnsureRefsGrows(w.store, t, tier.spec.parameters, tier.revisions, refs, ok);
    RevisionsAreExact(w.store, t, tier.spec.parameters, tier.revisions, refs, ok);
    var (store, r) := EnsureRefs(w.store, t, tier.spec.parameters, tier.revisions, refs, ok);
    forall x | x in r.value.1 ensures r.value.1[x] != n {
      assert IsCurrent(store, x, r.value.1[x], tier.spec.parameters);
    }
  }

  /** The cleanup of a revision that is not named, while no Space is labelled. */
  lemma CleanupTakes(w: World, t: string, n: Name, s: string) returns (events: seq<Event>)
    requires n in w.store.ttrs && w.store.ttrs[n].tier == t && (t in w.tiers ==> n !in w.tiers[t].revisions.Values)
    requires (forall x | x in w.spaces :: !Carries(w.spaces[x], t)) && s in w.spaces && n in RefsOf(w.spaces[s])
    ensures IsRun(w, events, t) && IsFixedRun(w, events, t) && KeepsSpace(events, s)
            && TakesFrom(Run(w, events, t), n, s)
  {
    var w1 := Next(w, ReadTier(n));
    var w2 := Next(w1, ListOutdated(n));
    assert w2 == w.(cleanups := w2.cleanups) && w2.cleanups[n] == Unused;
    OneEvent(w, ReadTier(n), t);
    OneEvent(w1, ListOutdated(n), t);
    FixedSnoc(w, t, [], ReadTier(n));
    assert [] + [ReadTier(n)] == [ReadTier(n)];
    FixedSnoc(w, t, [ReadTier(n)], ListOutdated(n));
    RunAppend(w, [ReadTier(n)], [ListOutdated(n)], t);
    events := [ReadTier(n)] + [ListOutdated(n)];
  }

  /** A continuation that keeps the refs of the tier and the Space. */
  ghost predicate IsQuietRun(w: World, events: seq<Event>, t: string, s: string) {
    IsRun(w, events, t) && IsFixedRun(w, events, t) && KeepsSpace(events, s)
  }

  lemma QuietAppend(w: World, first: seq<Event>, second: seq<Event>, t: string, s: string)
    requires IsQuietRun(w, first, t, s) && IsQuietRun(Run(w, first, t), second, t, s)
    ensures IsQuietRun(w, first + second, t, s) && Run(w, first + second, t) == Run(Run(w, first, t), second, t)
  {
    RunAppend(w, first, second, t);
    FixedAppend(w, t, first, second);
  }

  lemma QuietOne(w: World, e: Event, t: string, s: string)
    requires IsPossible(w, e) && Respects(w, t, e) && KeepsRefs(w, t, e) && KeepsSpace([e], s)
    ensures IsQuietRun(w, [e], t, s) && Run(w, [e], t) == Next(w, e)
  {
    OneEvent(w, e, t);
    FixedSnoc(w, t, [], e);
    assert [] + [e] == [e];
  }

  lemma {:induction false} DeleteOthers(w: World, t: string, s: string, gone: set<string>) returns (events: seq<Event>)
    requires s !in gone
    ensures IsQuietRun(w, events, t, s) && Run(w, events, t) == w.(spaces := w.spaces - gone)
    decreases |gone|
  {
    if gone == {} {
      assert w.spaces - gone == w.spaces;
      return [];
    }
    var x :| x in gone;
    var w1 := Next(w, DeleteSpace(x));
    QuietOne(w, DeleteSpace(x), t, s);
    var rest := DeleteOthers(w1, t, s, gone - {x});
    QuietAppend(w, [DeleteSpace(x)], rest, t, s);
    assert w.spaces - {x} - (gone - {x}) == w.spaces - gone;
    events := [DeleteSpace(x)] + rest;
  }

  /**
   * The tier's next reconcile, after all its templates were changed or with the tier on its way out, no longer
   * names it.
   */
  lemma TierForgets(w: World, t: string, n: Name, s: string) returns (events: seq<Event>)
    requires Inv(w, t) && n in w.store.ttrs && IsRevisionOf(n, t) && s in w.spaces
    requires forall x | x in w.spaces :: !Carries(w.spaces[x], t)
    ensures IsQuietRun(w, events, t, s)
    ensures var v := Run(w, events, t);
            && v.spaces == w.spaces && n in v.store.ttrs && v.store.ttrs[n].tier == t
            && (t in v.tiers ==> n !in v.tiers[t].revisions.Values)
  {
    if t !in w.tiers {
      return [];
    }
    var refs := ListRefs(Refs(w.tiers[t].spec));
    if w.tiers[t].deleting {
      var e := ReconcileTier(t, refs, AllOk(|refs|), false);
      QuietOne(w, e, t, s);
      return [e];
    }
    var objects := w.store.ttrs[n].objects + "+";
    assert |objects| != |w.store.ttrs[n].objects|;
    var first := Rewriting(w, t, s, refs, objects);
    var v := Run(w, first, t);
    RunKeepsInv(w, first, t);
    var e := ReconcileForgets(v, t, n, objects);
    QuietOne(v, e, t, s);
    QuietAppend(w, first, [e], t, s);
    events := first + [e];
  }

  /**
   * A revision used by a Space without the label, such as one still being provisioned, can be collected, with no edit
   * other than of the contents of templates and without touching the Space.
   */
  lemma UnlabelledIsTaken(w: World, t: string, n: Name, s: string) returns (events: seq<Event>)
    requires Inv(w, t) && n in w.store.ttrs && IsRevisionOf(n, t)
    requires s in w.spaces && n in RefsOf(w.spaces[s]) && !Carries(w.spaces[s], t)
    ensures IsQuietRun(w, events, t, s) && TakesFrom(Run(w, events, t), n, s)
  {
    var first := DeleteOthers(w, t, s, w.spaces.Keys - {s});
    var w1 := Run(w, first, t);
    RunKeepsInv(w, first, t);
    var second := TierForgets(w1, t, n, s);
    var w2 := Run(w1, second, t);
    var third := CleanupTakes(w2, t, n, s);
    QuietAppend(w1, second, third, t, s);
    QuietAppend(w, first, second + third, t, s);
    events := first + (second + third);
  }

  /**
   * The label is the exact protection: an existing revision that a Space uses is safe, in all continuations within the
   * guard that neither move nor delete the Space, if and only if the Space carries the label of the revision's tier.
   */
  lemma LabelIsExactProtection(w: World, t: string, n: Name, s: string)
    requires Inv(w, t) && n in w.store.ttrs && IsRevisionOf(n, t) && s in w.spaces && n in RefsOf(w.spaces[s])
    ensures Carries(w.spaces[s], t) <==> StaysProtected(w, t, n, s)
  {
    if Carries(w.spaces[s], t) {
      forall events | IsRun(w, events, t) && KeepsSpace(events, s) ensures !TakesFrom(Run(w, events, t), n, s) {
        RunKeepsInv(w, events, t);
        RunKeepsShield(w, t, s, events);
        ShieldedIsNotTaken(Run(w, events, t), t, n, s);
      }
    } else {
      var events := UnlabelledIsTaken(w, t, n, s);
    }
  }

  lemma ShieldedIsNotTaken(w: World, t: string, n: Name, s: string)
    requires Inv(w, t) && IsShielded(w, t, s) && IsRevisionOf(n, t)
    ensures !TakesFrom(w, n, s)
  {
    SoundNeverCollects(w, t);
    if n in w.store.ttrs {
      assert w.store.ttrs[n].tier == t;
      assert Carries(w.spaces[s], t) ==> !Collects(w, t, n, s);
    }
  }
}
