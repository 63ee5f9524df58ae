/** Collection does happen: the controllers by themselves bring every Space up to date and remove what nothing names. */
module RevisionCleanupProgress {
  import opened Base
  import opened Tiers
  import opened TierRevisions
  import opened RevisionCleanup
  import opened RevisionCleanupSafety
  import opened RevisionCleanupGuard
  import opened RevisionCleanupLabels

  /** A reconcile of a Space, a report of its NSTemplateSet's controller, or a step of the cleanup. */
  predicate IsAutomatic(e: Event) {
    e.ReconcileSpace? || e.SetProgress? || e.ReadTier? || e.ListOutdated? || e.DeleteUnused?
  }

  ghost predicate IsAutomaticRun(w: World, events: seq<Event>, t: string) {
    IsRun(w, events, t) && forall e | e in events :: IsAutomatic(e)
  }

  lemma AutomaticAppend(w: World, first: seq<Event>, second: seq<Event>, t: string)
    requires IsAutomaticRun(w, first, t) && IsAutomaticRun(Run(w, first, t), second, t)
    ensures IsAutomaticRun(w, first + second, t)
    ensures Run(w, first + second, t) == Run(Run(w, first, t), second, t)
  {
    RunAppend(w, first, second, t);
  }

  lemma AutomaticOne(w: World, e: Event, t: string)
    requires IsAutomatic(e) && IsPossible(w, e)
    ensures IsAutomaticRun(w, [e], t) && Run(w, [e], t) == Next(w, e)
  {
    OneEvent(w, e, t);
  }

  // ---------- A Space comes up to date ----------

  /** The tier of the Space is stored and all its refs have revisions. */
  predicate CanReconcile(w: World, s: string) {
    && s in w.spaces && w.spaces[s].tierName in w.tiers
    && Refs(w.tiers[w.spaces[s].tierName].spec) <= w.tiers[w.spaces[s].tierName].revisions.Keys
  }

  /** The NSTemplateSet is built from the tier's current revisions. */
  ghost predicate IsBuilt(w: World, s: string) {
    && s in w.spaces && w.spaces[s].templateSet.Some? && w.spaces[s].tierName in w.tiers
    && w.spaces[s].templateSet.value.tierName == w.spaces[s].tierName
    && forall n :: n in w.spaces[s].templateSet.value.refs <==>
         exists r :: r in Refs(w.tiers[w.spaces[s].tierName].spec) && r in w.tiers[w.spaces[s].tierName].revisions
                     && w.tiers[w.spaces[s].tierName].revisions[r] == n
  }

  /** A reconcile that is not told to wait builds the NSTemplateSet, whether or not there is one; the labels stay. */
  lemma ReconcileBuilds(w: World, s: string) returns (e: Event)
    requires CanReconcile(w, s)
    ensures e.ReconcileSpace? && IsPossible(w, e)
    ensures var v := Next(w, e);
            && IsBuilt(v, s) && v == w.(spaces := w.spaces[s := v.spaces[s]])
            && v.spaces[s].tierName == w.spaces[s].tierName && v.spaces[s].hashes == w.spaces[s].hashes
            && v.spaces[s].templateSet.value.provisioned ==
               (w.spaces[s].templateSet.Some? && w.spaces[s].templateSet.value.provisioned)
  {
    var refs := Refs(w.tiers[w.spaces[s].tierName].spec);
    e := ReconcileSpace(s, refs, true, false);
    assert Next(w, e).spaces[s].templateSet.value.refs == Wanted(w.tiers[w.spaces[s].tierName], refs);
  }

  /** Once it is provisioned, the next reconcile sets the label of its tier, to the current hash, and no other. */
  lemma ReconcileLabels(w: World, s: string) returns (events: seq<Event>)
    requires CanReconcile(w, s) && IsBuilt(w, s)
    ensures |events| == 2 && events[0] == SetProgress(s, true) && events[1].ReconcileSpace?
    ensures IsPossible(w, events[0]) && IsPossible(Next(w, events[0]), events[1])
    ensures var v := Next(Next(w, events[0]), events[1]);
            && v == w.(spaces := w.spaces[s := v.spaces[s]]) && v.spaces[s].tierName == w.spaces[s].tierName
            && v.spaces[s].hashes == map[w.spaces[s].tierName := w.tiers[w.spaces[s].tierName].revisions]
  {
    var (u, refs) := (w.spaces[s].tierName, Refs(w.tiers[w.spaces[s].tierName].spec));
    var w1 := Next(w, SetProgress(s, true));
    assert w1.spaces[s].templateSet.value.refs == Wanted(w.tiers[u], refs);
    events := [SetProgress(s, true), ReconcileSpace(s, refs, false, false)];
  }

  lemma SpaceCatchesUp(w: World, t: string, s: string) returns (events: seq<Event>)
    requires CanReconcile(w, s)
    ensures IsAutomaticRun(w, events, t)
    ensures var v := Run(w, events, t);
            && s in v.spaces && v == w.(spaces := w.spaces[s := v.spaces[s]])
            && v.spaces[s].tierName == w.spaces[s].tierName
            && v.spaces[s].hashes == map[w.spaces[s].tierName := w.tiers[w.spaces[s].tierName].revisions]
  {
    var build := ReconcileBuilds(w, s);
    var w1 := Next(w, build);
    var rest := ReconcileLabels(w1, s);
    var w2 := Next(w1, rest[0]);
    AutomaticOne(w, build, t);
    AutomaticOne(w1, rest[0], t);
    AutomaticOne(w2, rest[1], t);
    AutomaticAppend(w1, [rest[0]], [rest[1]], t);
    AutomaticAppend(w, [build], [rest[0]] + [rest[1]], t);
    events := [build] + ([rest[0]] + [rest[1]]);
  }

  /** The Spaces labelled with the tier whose label is not its hash. */
  function Outdated(w: World, t: string): set<string>
    requires t in w.tiers
  {
    set s | s in w.spaces && t in w.spaces[s].hashes && w.spaces[s].hashes[t] != w.tiers[t].revisions
  }

  /** The status of the tier does not name the revision. */
  predicate IsUnnamed(w: World, t: string, n: Name)
    requires t in w.tiers
  {
    forall r | r in w.tiers[t].revisions :: w.tiers[t].revisions[r] != n
  }

  lemma OneLess(w: World, t: string, s: string, v: World)
    requires t in w.tiers && s in Outdated(w, t) && CanReconcile(w, s)
             && forall x | x in Outdated(w, t) :: CanReconcile(w, x)
    requires s in v.spaces && v == w.(spaces := w.spaces[s := v.spaces[s]])
    requires v.spaces[s].hashes == map[w.spaces[s].tierName := w.tiers[w.spaces[s].tierName].revisions]
    ensures Outdated(v, t) == Outdated(w, t) - {s} && forall x | x in Outdated(v, t) :: CanReconcile(v, x)
  {
    forall x | x in Outdated(v, t) ensures CanReconcile(v, x) {
      assert x in Outdated(w, t) && v.spaces[x] == w.spaces[x];
    }
  }

  lemma {:induction false} AllCatchUp(w: World, t: string) returns (events: seq<Event>)
    requires t in w.tiers && forall s | s in Outdated(w, t) :: CanReconcile(w, s)
    ensures IsAutomaticRun(w, events, t)
    ensures var v := Run(w, events, t);
            v.store == w.store && v.tiers == w.tiers && v.cleanups == w.cleanups && Outdated(v, t) == {}
    decreases |Outdated(w, t)|
  {
    if Outdated(w, t) == {} {
      return [];
    }
    var s :| s in Outdated(w, t);
    var first := SpaceCatchesUp(w, t, s);
    var v := Run(w, first, t);
    OneLess(w, t, s, v);
    var second := AllCatchUp(v, t);
    AutomaticAppend(w, first, second, t);
    events := first + second;
  }

  // ---------- A revision goes ----------

  /** The revision is stored, and neither its tier's status names it nor does a label of an older hash hold it back. */
  predicate IsFree(w: World, n: Name) {
    && n in w.store.ttrs
    && var t := w.store.ttrs[n].tier; (t in w.tiers ==> IsUnnamed(w, t, n) && Outdated(w, t) == {})
  }

  lemma ListDecides(w: World, n: Name)
    requires n in w.store.ttrs && n in w.cleanups && w.store.ttrs[n].tier in w.tiers
    requires w.cleanups[n] == TierRead(w.tiers[w.store.ttrs[n].tier].revisions)
    ensures AfterListOutdated(w, n).cleanups
            == if Outdated(w, w.store.ttrs[n].tier) == {} then w.cleanups[n := Unused] else w.cleanups - {n}
  {
    var t := w.store.ttrs[n].tier;
    forall s | s in w.spaces ensures s in Outdated(w, t) <==> IsOutdated(w.spaces[s], t, w.cleanups[n].hash) {
    }
    if Outdated(w, t) != {} {
      var s :| s in Outdated(w, t);
      assert s in w.spaces && IsOutdated(w.spaces[s], t, w.cleanups[n].hash);
    }
  }

  /**
   * The three steps of the cleanup, with nothing in between, remove a revision exactly when nothing holds it back,
   * wherever an earlier pass had got to; they remove no other and leave no verdict behind.
   */
  lemma CleanupRemovesExactly(w: World, n: Name)
    ensures var v := Next(Next(Next(w, ReadTier(n)), ListOutdated(n)), DeleteUnused(n));
            && v.tiers == w.tiers && v.spaces == w.spaces
            && v.store == w.store.(ttrs := v.store.ttrs) && v.cleanups == w.cleanups - {n}
            && (v.store.ttrs == if IsFree(w, n) then w.store.ttrs - {n} else w.store.ttrs)
  {
    var w1 := AfterReadTier(w, n);
    if n in w1.store.ttrs && n in w1.cleanups && w1.cleanups[n].TierRead? {
      ListDecides(w1, n);
    }
  }

  lemma CleanupRemoves(w: World, t: string, n: Name) returns (events: seq<Event>)
    requires n in w.store.ttrs && w.store.ttrs[n].tier == t
    requires t in w.tiers ==> Outdated(w, t) == {} && IsUnnamed(w, t, n)
    ensures IsAutomaticRun(w, events, t)
    ensures var v := Run(w, events, t);
            v.tiers == w.tiers && v.spaces == w.spaces && v.store == w.store.(ttrs := w.store.ttrs - {n})
  {
    var w1 := Next(w, ReadTier(n));
    var w2 := Next(w1, ListOutdated(n));
    CleanupRemovesExactly(w, n);
    AutomaticOne(w, ReadTier(n), t);
    AutomaticOne(w1, ListOutdated(n), t);
    AutomaticOne(w2, DeleteUnused(n), t);
    AutomaticAppend(w1, [ListOutdated(n)], [DeleteUnused(n)], t);
    AutomaticAppend(w, [ReadTier(n)], [ListOutdated(n)] + [DeleteUnused(n)], t);
    events := [ReadTier(n)] + ([ListOutdated(n)] + [DeleteUnused(n)]);
  }

  /**
   * Every revision that its tier does not name, or whose tier is gone, is removed by some run of the controllers alone,
   * if the Spaces that are behind can reconcile: they catch up first. No other revision is touched.
   */
  lemma UnnamedIsRemoved(w: World, t: string, n: Name) returns (events: seq<Event>)
    requires Inv(w, t) && n in w.store.ttrs && IsRevisionOf(n, t)
    requires t in w.tiers ==>
               && IsUnnamed(w, t, n) && (forall s | s in Outdated(w, t) :: CanReconcile(w, s))
    ensures IsAutomaticRun(w, events, t)
    ensures var v := Run(w, events, t); v.tiers == w.tiers && v.store == w.store.(ttrs := w.store.ttrs - {n})
  {
    if t in w.tiers {
      var first := AllCatchUp(w, t);
      var second := CleanupRemoves(Run(w, first, t), t, n);
      AutomaticAppend(w, first, second, t);
      events := first + second;
    } else {
      events := CleanupRemoves(w, t, n);
    }
  }

  // ---------- Tiers ----------

  /**
   * A working reconcile of a living tier whose templates are all there stores a status that names, for exactly
   * its refs, the template itself or an existing revision with the template's objects and the tier's
   * parameters.
   */
  lemma StatusIsBroughtUpToDate(w: World, t: string, refs: seq<string>)
    requires NamesAreOld(w) && t in w.tiers && !w.tiers[t].deleting
    requires forall r :: r in refs <==> r in Refs(w.tiers[t].spec)
    requires forall r | r in refs :: r in w.store.templates
    ensures var v := Next(w, ReconcileTier(t, refs, AllOk(|refs|), false));
            && t in v.tiers && v.tiers[t].spec == w.tiers[t].spec && v.tiers[t].finalizer
            && v.tiers[t].revisions.Keys == Refs(w.tiers[t].spec) && v.store.templates == w.store.templates
            && forall r | r in v.tiers[t].revisions ::
                 var name := v.tiers[t].revisions[r];
                 match w.store.templates[r]
                 case None => name == Plain(r)
                 case Some(objects) =>
                   name in v.store.ttrs && v.store.ttrs[name].objects == objects
                   && v.store.ttrs[name].parameters == w.tiers[t].spec.parameters
  {
    var tier := w.tiers[t];
    assert AllOld(w.store);
    EnsureSucceeds(w.store, t, tier.spec.parameters, tier.revisions, refs);
    EnsureRefsGrows(w.store, t, tier.spec.parameters, tier.revisions, refs, AllOk(|refs|));
    RevisionsAreExact(w.store, t, tier.spec.parameters, tier.revisions, refs, AllOk(|refs|));
    var (store, r) := EnsureRefs(w.store, t, tier.spec.parameters, tier.revisions, refs, AllOk(|refs|));
    forall x | x in r.value.1 ensures IsCurrent(store, x, r.value.1[x], tier.spec.parameters) {
    }
  }

  /**
   * A tier being deleted goes with its next reconcile, whatever fails in it, exactly when no Space carries its
   * label.
   */
  lemma DeletedTierGoes(w: World, t: string, refs: seq<string>, ok: seq<bool>, statusFails: bool)
    requires t in w.tiers && w.tiers[t].deleting && |ok| == |refs|
    ensures t !in Next(w, ReconcileTier(t, refs, ok, statusFails)).tiers <==>
              forall s | s in w.spaces :: t !in w.spaces[s].hashes
    ensures Next(w, ReconcileTier(t, refs, ok, statusFails)).store == w.store
  {
    assert IsLabelled(w, t) <==> exists s :: s in w.spaces && Carries(w.spaces[s], t);
  }

  /** A Space that has to wait keeps its NSTemplateSet as it is, and only a provisioned one gets a label. */
  lemma WaitingChangesNothing(w: World, s: string, used: set<string>, differs: bool)
    requires s in w.spaces && w.spaces[s].templateSet.Some?
    ensures Next(w, ReconcileSpace(s, used, differs, true)) == w
    ensures !w.spaces[s].templateSet.value.provisioned ==>
              Next(w, ReconcileSpace(s, used, differs, false)).spaces[s].hashes == w.spaces[s].hashes
  {
  }

  /**
   * A label is written only for a Space whose NSTemplateSet is provisioned and is what the tier wants at that
   * moment, in its tier name, its refs and the rest; otherwise the Space keeps the labels it has.
   */
  lemma LabelNeedsTheSet(w: World, s: string, used: set<string>, differs: bool, waits: bool)
    requires s in w.spaces
    requires Next(w, ReconcileSpace(s, used, differs, waits)).spaces[s].hashes != w.spaces[s].hashes
    ensures !differs && !waits && w.spaces[s].tierName in w.tiers && w.spaces[s].templateSet.Some?
    ensures var t := w.tiers[w.spaces[s].tierName];
            var existing := w.spaces[s].templateSet.value;
            && existing.provisioned && existing.tierName == w.spaces[s].tierName
            && (forall r | r in Refs(t.spec) :: r in t.revisions)
            && (forall n :: n in existing.refs <==> exists r :: r in used && r in t.revisions && t.revisions[r] == n)
            && Next(w, ReconcileSpace(s, used, differs, waits)).spaces[s].hashes
               == map[w.spaces[s].tierName := t.revisions]
  {
  }
}
