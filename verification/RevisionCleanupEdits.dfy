/** Which edits of a tier and its templates respect the guard of the cleanup, and which families of edits do not. */
module RevisionCleanupEdits {
  import opened Base
  import opened Tiers
  import opened TierRevisions
  import opened RevisionCleanup
  import opened RevisionCleanupSafety
  import opened RevisionCleanupGuard

  /** While every labelled Space is up to date, any edit is safe. */
  lemma EditsAreSafeWhenUpToDate(w: World, t: string, e: Event)
    requires Inv(w, t) && t in w.tiers && forall s | s in w.spaces && Carries(w.spaces[s], t) ::
             w.spaces[s].hashes[t] == w.tiers[t].revisions
    ensures Respects(w, t, e)
  {
    if e.EditTier? || e.EditTemplate? {
      var w' := Next(w, e);
      forall s | s in w'.spaces && Carries(w'.spaces[s], t) ensures LabelIsSafe(w', t, s) {
        assert LabelIsSound(w, t, s);
        assert w'.tiers[t].revisions == w.tiers[t].revisions;
      }
    }
  }

  // ---------- Fixed refs ----------

  /**
   * The refs of tier t stay those it was created with, and no template goes back to nil objects while t names a
   * revision of it.
   */
  predicate KeepsRefs(w: World, t: string, e: Event) {
    match e
    case EditTier(u, spec) => u == t && t in w.tiers ==> Refs(spec) == Refs(w.tiers[t].spec)
    case EditTemplate(name, objects) =>
      objects.None? && t in w.tiers && name in w.tiers[t].revisions ==> !w.tiers[t].revisions[name].Generated?
    case _ => true
  }

  ghost predicate HasFixedRefs(w: World, t: string) {
    && (t in w.tiers ==>
          var tier := w.tiers[t];
          && (tier.revisions == map[] || tier.revisions.Keys == Refs(tier.spec))
          && (forall r | r in tier.revisions && tier.revisions[r].Generated? ::
                r in w.store.templates ==> w.store.templates[r].Some?)
          && (forall s | s in w.spaces && Carries(w.spaces[s], t) ::
                w.spaces[s].hashes[t] == map[] || w.spaces[s].hashes[t].Keys == tier.revisions.Keys))
    && (t !in w.tiers ==> forall s | s in w.spaces && Carries(w.spaces[s], t) :: w.spaces[s].hashes[t] == map[])
  }

  /** With fixed refs the contents of templates and the parameters of the tier may change freely. */
  lemma FixedRefsRespect(w: World, t: string, e: Event)
    requires Inv(w, t) && HasFixedRefs(w, t) && KeepsRefs(w, t, e)
    ensures Respects(w, t, e)
  {
    if (e.EditTier? || e.EditTemplate?) && t in w.tiers {
      var w' := Next(w, e);
      forall s | s in w'.spaces && Carries(w'.spaces[s], t) ensures LabelIsSafe(w', t, s) {
        assert LabelIsSound(w, t, s);
        if WouldGive(w'.store, w'.tiers[t], w'.spaces[s].hashes[t]) {
          FixedHashIsCurrent(w, t, e, s);
        }
      }
    }
  }

  lemma FixedHashIsCurrent(w: World, t: string, e: Event, s: string)
    requires Inv(w, t) && HasFixedRefs(w, t) && KeepsRefs(w, t, e) && (e.EditTier? || e.EditTemplate?)
    requires t in w.tiers && s in w.spaces && Carries(w.spaces[s], t)
    requires WouldGive(Next(w, e).store, Next(w, e).tiers[t], w.spaces[s].hashes[t])
    ensures w.spaces[s].hashes[t] == w.tiers[t].revisions
  {
    var (hash, revisions, w') := (w.spaces[s].hashes[t], w.tiers[t].revisions, Next(w, e));
    assert w'.tiers[t].revisions == revisions && RevisionsAreOf(w.tiers[t], t, w.store.serial);
    forall r | r in hash && r in revisions ensures hash[r] == revisions[r] {
      if w'.store.templates[r].None? {
        NilWasNil(w, t, e, r);
      }
    }
    assert hash.Keys == revisions.Keys;
  }

  /** A ref whose template has no objects after the edit is named in the status by the template itself. */
  lemma NilWasNil(w: World, t: string, e: Event, r: string)
    requires HasFixedRefs(w, t) && KeepsRefs(w, t, e) && (e.EditTier? || e.EditTemplate?)
    requires t in w.tiers && r in w.tiers[t].revisions && RevisionsAreOf(w.tiers[t], t, w.store.serial)
    requires r in Next(w, e).store.templates && Next(w, e).store.templates[r].None?
    ensures w.tiers[t].revisions[r] == Plain(r)
  {
  }

  lemma ReconcileKeepsFixedRefs(w: World, t: string, refs: seq<string>, ok: seq<bool>, statusFails: bool)
    requires Inv(w, t) && HasFixedRefs(w, t) && IsPossible(w, ReconcileTier(t, refs, ok, statusFails)) && t in w.tiers
    ensures HasFixedRefs(ReconciledTier(w, t, refs, ok, statusFails), t)
  {
    var tier := w.tiers[t];
    assert AllOld(w.store);
    if !tier.deleting {
      var (store, r) := EnsureRefs(w.store, t, tier.spec.parameters, tier.revisions, refs, ok);
      EnsureRefsGrows(w.store, t, tier.spec.parameters, tier.revisions, refs, ok);
      if r.Ok? {
        RevisionsAreExact(w.store, t, tier.spec.parameters, tier.revisions, refs, ok);
        assert r.value.1.Keys == Refs(tier.spec);
        forall x | x in r.value.1 && r.value.1[x].Generated? ensures store.templates[x].Some? {
          assert IsCurrent(store, x, r.value.1[x], tier.spec.parameters);
        }
      }
      forall s | s in w.spaces && Carries(w.spaces[s], t) ensures LabelIsSound(w, t, s) {
      }
    } else {
      assert IsLabelled(w, t) <==> exists s :: s in w.spaces && Carries(w.spaces[s], t);
    }
  }

  lemma DeletionKeepsFixedRefs(w: World, t: string, u: string)
    requires Inv(w, t) && HasFixedRefs(w, t)
    ensures HasFixedRefs(Next(w, DeleteTier(u)), t)
  {
    forall s | s in w.spaces && Carries(w.spaces[s], t) ensures LabelIsSound(w, t, s) {
    }
  }

  lemma SpacesKeepFixedRefs(w: World, t: string, e: Event)
    requires HasFixedRefs(w, t) && (e.CreateSpace? || e.EditSpace? || e.DeleteSpace? || e.SetProgress?)
    ensures HasFixedRefs(Next(w, e), t)
  {
    var w' := Next(w, e);
    assert w'.tiers == w.tiers && w'.store == w.store;
    assert forall s | s in w'.spaces && Carries(w'.spaces[s], t) ::
        s in w.spaces && w'.spaces[s].hashes == w.spaces[s].hashes;
  }

  lemma LabellingKeepsFixedRefs(w: World, t: string, s: string, used: set<string>, differs: bool, waits: bool)
    requires HasFixedRefs(w, t)
    ensures HasFixedRefs(ReconciledSpace(w, s, used, differs, waits), t)
  {
    var w' := ReconciledSpace(w, s, used, differs, waits);
    assert w'.tiers == w.tiers && w'.store == w.store;
    forall x | x in w'.spaces && Carries(w'.spaces[x], t)
      ensures (x in w.spaces && w'.spaces[x].hashes == w.spaces[x].hashes)
              || (t in w.tiers && w'.spaces[x].hashes[t] == w.tiers[t].revisions)
    {
    }
  }

  lemma EventKeepsFixedRefs(w: World, t: string, e: Event)
    requires Inv(w, t) && HasFixedRefs(w, t) && IsPossible(w, e) && KeepsRefs(w, t, e)
    ensures HasFixedRefs(Next(w, e), t)
  {
    match e
    case ReconcileTier(u, refs, ok, statusFails) =>
      if u == t && t in w.tiers {
        ReconcileKeepsFixedRefs(w, t, refs, ok, statusFails);
      } else {
        OtherReconcileKeepsFixedRefs(w, t, u, refs, ok, statusFails);
      }
    case DeleteTier(u) => DeletionKeepsFixedRefs(w, t, u);
    case CreateSpace(_, _) => SpacesKeepFixedRefs(w, t, e);
    case EditSpace(_, _) => SpacesKeepFixedRefs(w, t, e);
    case DeleteSpace(_) => SpacesKeepFixedRefs(w, t, e);
    case SetProgress(_, _) => SpacesKeepFixedRefs(w, t, e);
    case ReconcileSpace(s, used, differs, waits) => LabellingKeepsFixedRefs(w, t, s, used, differs, waits);
    case ReadTier(_) => CleanupKeepsFixedRefs(w, t, e);
    case ListOutdated(_) => CleanupKeepsFixedRefs(w, t, e);
    case DeleteUnused(_) => CleanupKeepsFixedRefs(w, t, e);
    case _ => EditsKeepFixedRefs(w, t, e);
  }

  lemma CleanupKeepsFixedRefs(w: World, t: string, e: Event)
    requires HasFixedRefs(w, t) && (e.ReadTier? || e.ListOutdated? || e.DeleteUnused?)
    ensures HasFixedRefs(Next(w, e), t)
  {
    var w' := Next(w, e);
    assert w'.tiers == w.tiers && w'.spaces == w.spaces && w'.store.templates == w.store.templates;
  }

  lemma EditsKeepFixedRefs(w: World, t: string, e: Event)
    requires HasFixedRefs(w, t) && KeepsRefs(w, t, e)
    requires e.CreateTier? || e.EditTier? || e.EditTemplate? || e.DeleteTemplate?
    ensures HasFixedRefs(Next(w, e), t)
  {
    assert Next(w, e).spaces == w.spaces;
  }

  lemma OtherReconcileKeepsFixedRefs(w: World, t: string, u: string, refs: seq<string>, ok: seq<bool>,
                                     statusFails: bool)
    requires Inv(w, t) && HasFixedRefs(w, t) && |ok| == |refs| && (u != t || t !in w.tiers)
    ensures HasFixedRefs(ReconciledTier(w, u, refs, ok, statusFails), t)
  {
    if u in w.tiers && !w.tiers[u].deleting {
      assert AllOld(w.store);
      EnsureRefsGrows(w.store, u, w.tiers[u].spec.parameters, w.tiers[u].revisions, refs, ok);
    }
  }

  /** Possible events that keep the refs of tier t, one after the other. */
  ghost predicate IsFixedRun(w: World, events: seq<Event>, t: string)
    decreases |events|
  {
    events == [] || (IsPossible(w, events[0]) && KeepsRefs(w, t, events[0])
        && IsFixedRun(Next(w, events[0]), events[1..], t))
  }

  lemma {:induction false} FixedRunIsRun(w: World, events: seq<Event>, t: string)
    requires Inv(w, t) && HasFixedRefs(w, t) && IsFixedRun(w, events, t)
    ensures IsRun(w, events, t)
    decreases |events|
  {
    if events != [] {
      FixedRefsRespect(w, t, events[0]);
      EventKeepsInv(w, t, events[0]);
      EventKeepsFixedRefs(w, t, events[0]);
      FixedRunIsRun(Next(w, events[0]), events[1..], t);
    }
  }

  /** With fixed refs the cleanup is safe, whatever else happens to the contents of templates and the parameters. */
  lemma FixedRefsAreSafe(w: World, events: seq<Event>, t: string)
    requires IsEmpty(w) && IsFixedRun(w, events, t)
    ensures IsRun(w, events, t) && !CollectsInUse(Run(w, events, t), t)
  {
    EmptyIsSound(w, t);
    FixedRunIsRun(w, events, t);
    NeverCollectsInUse(w, events, t);
  }

  // ---------- Undoing a change ----------

  /** The tier as its last reconcile left it, all its labelled Spaces up to date, and `s` one of them. */
  ghost predicate IsAtRest(w: World, t: string, s: string) {
    && Inv(w, t) && t in w.tiers && !w.tiers[t].deleting && w.tiers[t].revisions.Keys == Refs(w.tiers[t].spec)
    && (forall r | r in w.tiers[t].revisions ::
          IsCurrent(w.store, r, w.tiers[t].revisions[r], w.tiers[t].spec.parameters))
    && (forall x | x in w.spaces && Carries(w.spaces[x], t) :: w.spaces[x].hashes[t] == w.tiers[t].revisions)
    && s in w.spaces && Carries(w.spaces[s], t) && w.spaces[s].tierName == t
  }

  /** The ref `x` has a template with objects and no revision yet; the other refs are up to date. */
  ghost predicate LacksOnly(w: World, t: string, x: string) {
    && NamesAreOld(w) && t in w.tiers && !w.tiers[t].deleting && x in Refs(w.tiers[t].spec)
    && x in w.store.templates && w.store.templates[x].Some?
    && (x in w.tiers[t].revisions ==> w.tiers[t].revisions[x] == Plain(x))
    && (forall r | r in Refs(w.tiers[t].spec) && r != x ::
          r in w.tiers[t].revisions && IsCurrent(w.store, r, w.tiers[t].revisions[r], w.tiers[t].spec.parameters))
  }

  /** The world after a reconcile has made a revision for `x`. */
  function Made(w: World, t: string, x: string): World
    requires t in w.tiers && x in w.store.templates && w.store.templates[x].Some?
  {
    var tier := w.tiers[t];
    var (store, name) := Create(w.store, t, x, w.store.templates[x].value, tier.spec.parameters);
    w.(store := store, tiers := w.tiers[t := tier.(finalizer := true, revisions := KeptBut(tier, x)[x := name])])
  }

  /** The entries of the tier's other refs. */
  function KeptBut(tier: Tier, x: string): map<string, Name> {
    map r | r in tier.revisions && r in Refs(tier.spec) - {x} :: tier.revisions[r]
  }

  lemma EnsureMakes(w: World, t: string, x: string, others: seq<string>)
    requires LacksOnly(w, t, x) && forall r :: r in others <==> r in Refs(w.tiers[t].spec) - {x}
    ensures var (tier, m) := (w.tiers[t], Made(w, t, x));
            EnsureRefs(w.store, t, tier.spec.parameters, tier.revisions, others + [x], AllOk(|others| + 1))
            == (m.store, Ok((true, m.tiers[t].revisions)))
  {
    OthersAreKept(w, t, x, others);
    RefIsMade(w, t, x);
    EnsureRefsSnoc(w.store, t, w.tiers[t].spec.parameters, w.tiers[t].revisions, others, AllOk(|others|), x);
    assert AllOk(|others| + 1) == AllOk(|others|) + [true];
  }

  lemma OthersAreKept(w: World, t: string, x: string, others: seq<string>)
    requires LacksOnly(w, t, x) && forall r :: r in others <==> r in Refs(w.tiers[t].spec) - {x}
    ensures EnsureRefs(w.store, t, w.tiers[t].spec.parameters, w.tiers[t].revisions, others, AllOk(|others|))
            == (w.store, Ok((false, KeptBut(w.tiers[t], x))))
  {
    var tier := w.tiers[t];
    CurrentIsStable(w.store, t, tier.spec.parameters, tier.revisions, others, AllOk(|others|));
    assert (map r | r in tier.revisions && r in others :: tier.revisions[r]) == KeptBut(tier, x);
  }

  lemma RefIsMade(w: World, t: string, x: string)
    requires LacksOnly(w, t, x)
    ensures EnsureRef(w.store, t, w.tiers[t].spec.parameters, w.tiers[t].revisions, x, true)
            == (Made(w, t, x).store, Ok((true, Generated(t, x, w.store.serial))))
  {
    assert Plain(x) !in w.store.ttrs;
  }

  /** One ref more, for which the calls succeed. */
  lemma EnsureRefsSnoc(store: Store, tier: string, parameters: string, recorded: map<string, Name>, refs: seq<string>,
                       ok: seq<bool>, ref: string)
    requires |ok| == |refs| && EnsureRefs(store, tier, parameters, recorded, refs, ok).1.Ok?
    requires var store1 := EnsureRefs(store, tier, parameters, recorded, refs, ok).0;
             EnsureRef(store1, tier, parameters, recorded, ref, true).1.Ok?
    ensures var (store1, r) := EnsureRefs(store, tier, parameters, recorded, refs, ok);
            var (store2, q) := EnsureRef(store1, tier, parameters, recorded, ref, true);
            EnsureRefs(store, tier, parameters, recorded, refs + [ref], ok + [true])
            == (store2, Ok((r.value.0 || q.value.0, r.value.1[ref := q.value.1])))
  {
    assert (refs + [ref])[..|refs|] == refs && (ok + [true])[..|refs|] == ok;
  }

  lemma ReconcileMakes(w: World, t: string, x: string) returns (e: Event)
    requires LacksOnly(w, t, x)
    ensures e.ReconcileTier? && IsPossible(w, e) && Next(w, e) == Made(w, t, x)
  {
    var others := ListRefs(Refs(w.tiers[t].spec) - {x});
    EnsureMakes(w, t, x, others);
    e := ReconcileTier(t, others + [x], AllOk(|others| + 1), false);
  }

  /** The Space gets the new revision while its label stays. */
  lemma SpaceFollows(w: World, t: string, x: string, s: string) returns (events: seq<Event>)
    requires LacksOnly(w, t, x) && s in w.spaces && w.spaces[s].tierName == t
    ensures IsRun(w, events, t)
    ensures var w' := Run(w, events, t);
            && w'.store == Made(w, t, x).store && w'.tiers == Made(w, t, x).tiers && w'.spaces.Keys == w.spaces.Keys
            && w'.spaces[s].hashes == w.spaces[s].hashes && Generated(t, x, w.store.serial) in RefsOf(w'.spaces[s])
  {
    var reconcile := ReconcileMakes(w, t, x);
    var w1 := Made(w, t, x);
    var refs := Refs(w1.tiers[t].spec);
    var follow := ReconcileSpace(s, refs, true, false);
    assert refs <= w1.tiers[t].revisions.Keys;
    assert Generated(t, x, w.store.serial) in Wanted(w1.tiers[t], refs) by {
      assert w1.tiers[t].revisions[x] == Generated(t, x, w.store.serial);
    }
    OneEvent(w1, follow, t);
    OneMore(w, reconcile, [follow], t);
    events := [reconcile] + [follow];
  }

  /** The spec and templates of a tier at rest are back, after a revision was made that a Space got. */
  lemma GoingBackIsUnsafe(w: World, t: string, x: string, s: string, v: World)
    requires IsAtRest(w, t, s) && t in v.tiers && s in v.spaces && v.spaces[s].hashes == w.spaces[s].hashes
    requires Generated(t, x, w.store.serial) in RefsOf(v.spaces[s])
    requires v.store.templates == w.store.templates && v.tiers[t].spec == w.tiers[t].spec && !v.tiers[t].deleting
    requires forall n | n in w.store.ttrs :: n in v.store.ttrs && v.store.ttrs[n] == w.store.ttrs[n]
    requires forall r | r in w.tiers[t].revisions && r != x ::
              r in v.tiers[t].revisions
              && v.tiers[t].revisions[r] == w.tiers[t].revisions[r]
    requires x in w.tiers[t].revisions ==> x in w.store.templates && w.store.templates[x].None?
    ensures !LabelIsSafe(v, t, s)
  {
    var hash := w.tiers[t].revisions;
    assert LabelIsSound(w, t, s);
    assert WouldGive(v.store, v.tiers[t], hash) by {
      forall r | r in hash ensures IsCurrent(w.store, r, hash[r], w.tiers[t].spec.parameters) {
      }
    }
    assert Generated(t, x, w.store.serial) !in hash.Values;
  }

  /** What making a revision for `x` leaves as it was. */
  lemma MadeKeeps(w: World, t: string, x: string)
    requires LacksOnly(w, t, x)
    ensures var m := Made(w, t, x);
            && m.store.templates == w.store.templates && m.tiers[t].spec == w.tiers[t].spec && !m.tiers[t].deleting
            && (forall n | n in w.store.ttrs :: n in m.store.ttrs && m.store.ttrs[n] == w.store.ttrs[n])
            && (forall r | r in w.tiers[t].revisions && r in Refs(w.tiers[t].spec) && r != x ::
                  r in m.tiers[t].revisions && m.tiers[t].revisions[r] == w.tiers[t].revisions[r])
  {
    assert Generated(t, x, w.store.serial) !in w.store.ttrs;
  }

  lemma UnsafeEditLeadsOn(v: World, t: string, e: Event, s: string)
    requires Inv(v, t) && IsPossible(v, e) && (e.EditTier? || e.EditTemplate?)
    requires var v' := Next(v, e); t in v'.tiers && s in v'.spaces && Carries(v'.spaces[s], t) && !LabelIsSafe(v', t, s)
    ensures !StaysSafe(Next(v, e), t)
  {
    GuardIsExact(v, t, e);
  }

  /**
   * Adding a ref to a tier at rest, letting a Space catch up, and dropping the ref again leads to a collection
   * in use.
   */
  lemma DroppingANewRefIsUnsafe(w: World, t: string, s: string, b: string, spec: TierSpec) returns (events: seq<Event>)
    requires IsAtRest(w, t, s) && b !in Refs(w.tiers[t].spec) && b in w.store.templates && w.store.templates[b].Some?
    requires Refs(spec) == Refs(w.tiers[t].spec) + {b} && spec.parameters == w.tiers[t].spec.parameters
    ensures IsRun(w, events, t)
    ensures var v := Run(w, events, t);
            IsPossible(v, EditTier(t, w.tiers[t].spec)) && !StaysSafe(Next(v, EditTier(t, w.tiers[t].spec)), t)
  {
    var (add, drop) := (EditTier(t, spec), EditTier(t, w.tiers[t].spec));
    EditsAreSafeWhenUpToDate(w, t, add);
    EventKeepsInv(w, t, add);
    var w1 := Next(w, add);
    var rest := SpaceFollows(w1, t, b, s);
    OneMore(w, add, rest, t);
    var v := Run(w1, rest, t);
    RunKeepsInv(w1, rest, t);
    MadeKeeps(w1, t, b);
    GoingBackIsUnsafe(w, t, b, s, Next(v, drop));
    UnsafeEditLeadsOn(v, t, drop, s);
    events := [add] + rest;
  }

  lemma GivingObjectsLacksOnly(w: World, t: string, s: string, a: string, objects: string)
    requires IsAtRest(w, t, s) && a in Refs(w.tiers[t].spec) && w.store.templates[a].None?
    ensures LacksOnly(Given(w, a, objects), t, a)
  {
    var w1 := Given(w, a, objects);
    assert NamesAreOld(w1);
    forall r | r in Refs(w.tiers[t].spec)
        ensures IsCurrent(w.store, r, w.tiers[t].revisions[r], w.tiers[t].spec.parameters) {
    }
  }

  /** The world in which a template without objects has been given some. */
  function Given(w: World, a: string, objects: string): World {
    w.(store := w.store.(templates := w.store.templates[a := Some(objects)]))
  }

  lemma MadeFromGiven(w: World, t: string, a: string, objects: string)
    requires LacksOnly(Given(w, a, objects), t, a) && a in w.store.templates && w.store.templates[a].None?
    requires w.tiers[t].revisions.Keys == Refs(w.tiers[t].spec)
    ensures var m := Made(Given(w, a, objects), t, a);
            && m.store.templates[a := None] == w.store.templates
            && m.tiers[t].spec == w.tiers[t].spec && !m.tiers[t].deleting
            && (forall n | n in w.store.ttrs :: n in m.store.ttrs && m.store.ttrs[n] == w.store.ttrs[n])
            && (forall r | r in w.tiers[t].revisions && r != a ::
                  r in m.tiers[t].revisions && m.tiers[t].revisions[r] == w.tiers[t].revisions[r])
  {
    MadeKeeps(Given(w, a, objects), t, a);
    assert w.store.templates[a := Some(objects)][a := None] == w.store.templates;
  }

  lemma TakingObjectsIsUnsafe(w: World, t: string, s: string, a: string, objects: string, v: World)
    requires IsAtRest(w, t, s) && a in w.tiers[t].revisions && w.store.templates[a].None?
    requires LacksOnly(Given(w, a, objects), t, a)
    requires v.store == Made(Given(w, a, objects), t, a).store && v.tiers == Made(Given(w, a, objects), t, a).tiers
    requires s in v.spaces && v.spaces[s].hashes == w.spaces[s].hashes
             && Generated(t, a, w.store.serial) in RefsOf(v.spaces[s])
    ensures !LabelIsSafe(v.(store := v.store.(templates := v.store.templates[a := None])), t, s)
  {
    MadeFromGiven(w, t, a, objects);
    GoingBackIsUnsafe(w, t, a, s, v.(store := v.store.(templates := v.store.templates[a := None])));
  }

  /** Giving a template objects, and letting a Space catch up. */
  lemma GivingObjects(w: World, t: string, s: string, a: string, objects: string) returns (events: seq<Event>, v: World)
    requires IsAtRest(w, t, s) && a in Refs(w.tiers[t].spec) && w.store.templates[a].None?
    ensures IsRun(w, events, t) && v == Run(w, events, t) && Inv(v, t) && LacksOnly(Given(w, a, objects), t, a)
    ensures v.store == Made(Given(w, a, objects), t, a).store && v.tiers == Made(Given(w, a, objects), t, a).tiers
    ensures s in v.spaces && v.spaces[s].hashes == w.spaces[s].hashes
            && Generated(t, a, w.store.serial) in RefsOf(v.spaces[s])
  {
    var (give, w1) := (EditTemplate(a, Some(objects)), Given(w, a, objects));
    assert Next(w, give) == w1;
    EditsAreSafeWhenUpToDate(w, t, give);
    EventKeepsInv(w, t, give);
    GivingObjectsLacksOnly(w, t, s, a, objects);
    var rest := SpaceFollows(w1, t, a, s);
    OneMore(w, give, rest, t);
    RunKeepsInv(w1, rest, t);
    events, v := [give] + rest, Run(w1, rest, t);
  }

  lemma TakesObjects(v: World, a: string)
    ensures Next(v, EditTemplate(a, None)) == v.(store := v.store.(templates := v.store.templates[a := None]))
  {
  }

  /**
   * With the refs fixed: giving a template objects, letting a Space catch up, and taking them away again does
   * so too.
   */
  lemma GoingBackToNilIsUnsafe(w: World, t: string, s: string, a: string, objects: string) returns (events: seq<Event>)
    requires IsAtRest(w, t, s) && a in Refs(w.tiers[t].spec) && w.store.templates[a].None?
    ensures IsRun(w, events, t)
    ensures var v := Run(w, events, t);
              IsPossible(v, EditTemplate(a, None))
              && !StaysSafe(Next(v, EditTemplate(a, None)), t)
  {
    var v;
    events, v := GivingObjects(w, t, s, a, objects);
    TakingObjectsIsUnsafe(w, t, s, a, objects, v);
    TakesObjects(v, a);
    UnsafeEditLeadsOn(v, t, EditTemplate(a, None), s);
  }
}
