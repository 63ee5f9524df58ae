/** The cleanup controller never collects a revision that a Space labelled with its tier still uses. */
module RevisionCleanupSafety {
  import opened Base
  import opened Tiers
  import opened TierRevisions
  import opened RevisionCleanup

  // ---------- The invariant, for a fixed tier t ----------

  predicate IsOf(n: Name, t: string, serial: nat) {
    IsRevisionOf(n, t) && n.serial < serial
  }

  ghost predicate NamesAreOld(w: World) {
    && (forall n | n in w.store.ttrs :: IsOf(n, w.store.ttrs[n].tier, w.store.serial))
    && (forall u | u in w.tiers :: RevisionsAreOf(w.tiers[u], u, w.store.serial))
    && (forall n | n in w.cleanups :: n.Generated? && n.serial < w.store.serial)
  }

  /** An entry of tier u's status is the template's own name or a revision generated for u. */
  ghost predicate RevisionsAreOf(tier: Tier, u: string, serial: nat) {
    forall r | r in tier.revisions :: tier.revisions[r] == Plain(r) || IsOf(tier.revisions[r], u, serial)
  }

  ghost predicate TierIsSound(tier: Tier, store: Store) {
    && (!tier.finalizer ==> tier.revisions == map[])
    && (forall r | r in tier.revisions && tier.revisions[r].Generated? :: tier.revisions[r] in store.ttrs)
  }

  /**
   * A Space carrying the tier's hash label: its revisions exist, and if the label looks current it names all of
   * them. Only a tier that is or was without revisions can be missing.
   */
  ghost predicate LabelIsSound(w: World, t: string, s: string)
    requires s in w.spaces && Carries(w.spaces[s], t)
  {
    var hash := w.spaces[s].hashes[t];
    && (forall r | r in hash :: IsOld(hash[r], w.store.serial))
    && (forall n | n in RefsOf(w.spaces[s]) && IsRevisionOf(n, t) :: n in w.store.ttrs)
    && (t in w.tiers ==> LabelIsSafe(w, t, s))
    && (t !in w.tiers || !w.tiers[t].finalizer ==> IsBare(w.spaces[s], t))
  }

  /** The label names no revision and the Space uses none. */
  predicate IsBare(space: Space, t: string)
    requires Carries(space, t)
  {
    space.hashes[t] == map[] && forall n | n in RefsOf(space) :: !IsRevisionOf(n, t)
  }

  ghost predicate LabelsAreSound(w: World, t: string) {
    forall s | s in w.spaces && Carries(w.spaces[s], t) :: LabelIsSound(w, t, s)
  }

  /** A TTR under cleanup is no longer named by its tier, nor used by the labelled Spaces looked at so far. */
  ghost predicate CleanupIsSound(w: World, t: string, n: Name)
    requires n in w.cleanups
  {
    && (t in w.tiers ==> n !in w.tiers[t].revisions.Values)
    && (forall s | s in w.spaces && Carries(w.spaces[s], t) && IsChecked(w.cleanups[n], w.spaces[s].hashes[t]) ::
          n !in RefsOf(w.spaces[s]))
  }

  /** The cleanup relies on Spaces with this hash not using the TTR. */
  predicate IsChecked(c: Cleanup, hash: Hash) {
    c.Unused? || hash == c.hash
  }

  ghost predicate CleanupsAreSound(w: World, t: string) {
    forall n | n in w.cleanups && IsRevisionOf(n, t) :: CleanupIsSound(w, t, n)
  }

  ghost predicate Inv(w: World, t: string) {
    && NamesAreOld(w)
    && (t in w.tiers ==> TierIsSound(w.tiers[t], w.store))
    && LabelsAreSound(w, t)
    && CleanupsAreSound(w, t)
  }

  // ---------- The tier controller keeps it ----------

  /** New revisions do not make an old hash look current. */
  lemma GrowthGivesNoOldHash(store: Store, store': Store, tier: Tier, hash: Hash)
    requires Grows(store, store') && AllOld(store) && forall r | r in hash :: IsOld(hash[r], store.serial)
    requires WouldGive(store', tier, hash)
    ensures WouldGive(store, tier, hash)
  {
    forall r | r in hash && store.templates[r].Some?
      ensures IsUpToDate(store, hash[r], store.templates[r].value, tier.spec.parameters)
    {
      assert hash[r] in store'.ttrs;
    }
  }

  ghost predicate AddsRevisionsOf(store: Store, store': Store, u: string) {
    && Grows(store, store')
    && forall n | n in store'.ttrs && n !in store.ttrs :: IsOf(n, u, store'.serial) && store'.ttrs[n].tier == u
  }

  lemma {:induction false} EnsuredAreAdded(store: Store, u: string, parameters: string, recorded: map<string, Name>,
                                           refs: seq<string>, ok: seq<bool>)
    requires |ok| == |refs| && AllOld(store)
    ensures AddsRevisionsOf(store, EnsureRefs(store, u, parameters, recorded, refs, ok).0, u)
  {
    EnsureRefsGrows(store, u, parameters, recorded, refs, ok);
    if refs != [] {
      var m := |refs| - 1;
      EnsuredAreAdded(store, u, parameters, recorded, refs[..m], ok[..m]);
      EnsureRefsGrows(store, u, parameters, recorded, refs[..m], ok[..m]);
    }
  }

  /** The world with a grown store and tier u's finalizer set. */
  function Grown(w: World, u: string, store: Store): World
    requires u in w.tiers
  {
    w.(store := store, tiers := w.tiers[u := w.tiers[u].(finalizer := true)])
  }

  lemma GrownNamesAreOld(w: World, u: string, store: Store)
    requires NamesAreOld(w) && u in w.tiers && AddsRevisionsOf(w.store, store, u)
    ensures NamesAreOld(Grown(w, u, store))
  {
    var w' := Grown(w, u, store);
    forall n | n in w'.store.ttrs ensures IsOf(n, w'.store.ttrs[n].tier, w'.store.serial) {
    }
    forall v | v in w'.tiers ensures RevisionsAreOf(w'.tiers[v], v, w'.store.serial) {
      assert RevisionsAreOf(w.tiers[v], v, w.store.serial);
    }
  }

  lemma GrownLabelIsSound(w: World, t: string, u: string, store: Store, s: string)
    requires NamesAreOld(w) && u in w.tiers && AddsRevisionsOf(w.store, store, u)
    requires s in w.spaces && Carries(w.spaces[s], t) && LabelIsSound(w, t, s)
    ensures LabelIsSound(Grown(w, u, store), t, s)
  {
    var (hash, w') := (w.spaces[s].hashes[t], Grown(w, u, store));
    if t in w.tiers && WouldGive(store, w'.tiers[t], hash) {
      GrowthGivesNoOldHash(w.store, store, w'.tiers[t], hash);
      assert WouldGive(w.store, w.tiers[t], hash);
    }
  }

  lemma GrownKeepsInv(w: World, t: string, u: string, store: Store)
    requires Inv(w, t) && u in w.tiers && AddsRevisionsOf(w.store, store, u)
    ensures Inv(Grown(w, u, store), t)
  {
    var w' := Grown(w, u, store);
    GrownNamesAreOld(w, u, store);
    forall s | s in w'.spaces && Carries(w'.spaces[s], t) ensures LabelIsSound(w', t, s) {
      GrownLabelIsSound(w, t, u, store, s);
    }
    forall n | n in w'.cleanups && IsRevisionOf(n, t) ensures CleanupIsSound(w', t, n) {
      assert CleanupIsSound(w, t, n);
    }
  }

  /** What a new revision map of tier t may look like, next to the one it replaces. */
  ghost predicate Succeeds(revisions: map<string, Name>, tier: Tier, t: string, store: Store, serial: nat) {
    && revisions.Keys == Refs(tier.spec)
    && forall r | r in revisions :: SucceedsAt(revisions[r], r, tier, t, store, serial)
  }

  /** The template's own name, or a current revision that was kept or is new. */
  ghost predicate SucceedsAt(name: Name, r: string, tier: Tier, t: string, store: Store, serial: nat) {
    && IsCurrent(store, r, name, tier.spec.parameters)
    && (store.templates[r].Some? ==>
          && name in store.ttrs
          && ((r in tier.revisions && name == tier.revisions[r])
                || (IsOf(name, t, store.serial) && serial <= name.serial)))
  }

  lemma EnsuredRevisionsSucceed(store: Store, tier: Tier, t: string, refs: seq<string>, ok: seq<bool>, store': Store,
                                created: bool, revisions: map<string, Name>)
    requires |ok| == |refs| && AllOld(store) && forall r :: r in refs <==> r in Refs(tier.spec)
    requires EnsureRefs(store, t, tier.spec.parameters, tier.revisions, refs, ok) == (store', Ok((created, revisions)))
    ensures Succeeds(revisions, tier, t, store', store.serial)
  {
    RevisionsAreExact(store, t, tier.spec.parameters, tier.revisions, refs, ok);
    EnsureRefsGrows(store, t, tier.spec.parameters, tier.revisions, refs, ok);
    forall r | r in revisions ensures SucceedsAt(revisions[r], r, tier, t, store', store.serial) {
      EntriesAreKeptOrFresh(store, t, tier.spec.parameters, tier.revisions, refs, ok, r);
    }
    assert revisions.Keys == Refs(tier.spec);
  }

  /** An old hash that the reconcile did give is one that it would have given. */
  lemma OldHashWasExpected(revisions: map<string, Name>, tier: Tier, t: string, store: Store, serial: nat)
    requires Succeeds(revisions, tier, t, store, serial) && !tier.deleting
    requires forall r | r in revisions :: IsOld(revisions[r], serial)
    ensures WouldGive(store, tier, revisions)
  {
    forall r | r in revisions && store.templates[r].Some?
        ensures r in tier.revisions && tier.revisions[r] == revisions[r] {
      assert SucceedsAt(revisions[r], r, tier, t, store, serial);
    }
    forall r | r in revisions ensures IsCurrent(store, r, revisions[r], tier.spec.parameters) {
      assert SucceedsAt(revisions[r], r, tier, t, store, serial);
    }
  }

  /** Right after the reconcile, the only hash another one would give is the current one. */
  lemma NothingElseIsExpected(revisions: map<string, Name>, tier: Tier, t: string, store: Store, serial: nat,
                              hash: Hash)
    requires Succeeds(revisions, tier, t, store, serial) && WouldGive(store, tier.(revisions := revisions), hash)
    ensures hash == revisions
  {
    forall r | r in revisions ensures hash[r] == revisions[r] {
      assert SucceedsAt(revisions[r], r, tier, t, store, serial);
    }
  }

  function WithRevisions(w: World, t: string, revisions: map<string, Name>): World
    requires t in w.tiers
  {
    w.(tiers := w.tiers[t := w.tiers[t].(revisions := revisions)])
  }

  lemma OwnStatusKeepsLabel(w: World, t: string, revisions: map<string, Name>, serial: nat, s: string)
    requires t in w.tiers && w.tiers[t].finalizer && !w.tiers[t].deleting && serial <= w.store.serial
    requires Succeeds(revisions, w.tiers[t], t, w.store, serial)
    requires s in w.spaces && Carries(w.spaces[s], t) && LabelIsSound(w, t, s)
    requires forall r | r in w.spaces[s].hashes[t] :: IsOld(w.spaces[s].hashes[t][r], serial)
    ensures LabelIsSound(WithRevisions(w, t, revisions), t, s)
  {
    var (hash, w') := (w.spaces[s].hashes[t], WithRevisions(w, t, revisions));
    if LooksCurrent(w'.store, w'.tiers[t], hash) {
      if hash != revisions {
        NothingElseIsExpected(revisions, w.tiers[t], t, w.store, serial, hash);
      }
      OldHashWasExpected(revisions, w.tiers[t], t, w.store, serial);
      assert LabelIsSafe(w, t, s);
    }
  }

  /** Storing the new status of tier t itself; `serial` is the serial number before the revisions were created. */
  lemma OwnStatusKeepsInv(w: World, t: string, revisions: map<string, Name>, serial: nat)
    requires Inv(w, t) && t in w.tiers && w.tiers[t].finalizer && !w.tiers[t].deleting && serial <= w.store.serial
    requires Succeeds(revisions, w.tiers[t], t, w.store, serial)
    requires RevisionsAreOf(w.tiers[t].(revisions := revisions), t, w.store.serial)
    requires forall s | s in w.spaces && Carries(w.spaces[s], t) ::
               forall r | r in w.spaces[s].hashes[t] :: IsOld(w.spaces[s].hashes[t][r], serial)
    requires forall n | n in w.cleanups :: IsOld(n, serial)
    ensures Inv(WithRevisions(w, t, revisions), t)
  {
    var w' := WithRevisions(w, t, revisions);
    assert TierIsSound(w'.tiers[t], w'.store) by {
      forall r | r in revisions && revisions[r].Generated? ensures revisions[r] in w.store.ttrs {
        assert SucceedsAt(revisions[r], r, w.tiers[t], t, w.store, serial);
      }
    }
    forall s | s in w'.spaces && Carries(w'.spaces[s], t) ensures LabelIsSound(w', t, s) {
      OwnStatusKeepsLabel(w, t, revisions, serial, s);
    }
    forall n | n in w'.cleanups && IsRevisionOf(n, t) ensures CleanupIsSound(w', t, n) {
      assert CleanupIsSound(w, t, n);
      CollectedStaysUnnamed(w, t, revisions, serial, n);
    }
  }

  lemma CollectedStaysUnnamed(w: World, t: string, revisions: map<string, Name>, serial: nat, n: Name)
    requires t in w.tiers && Succeeds(revisions, w.tiers[t], t, w.store, serial)
    requires n !in w.tiers[t].revisions.Values && n.Generated? && n.serial < serial
    ensures n !in revisions.Values
  {
    forall r | r in revisions ensures revisions[r] != n {
      assert SucceedsAt(revisions[r], r, w.tiers[t], t, w.store, serial);
    }
  }

  lemma SucceedingAreOf(revisions: map<string, Name>, tier: Tier, t: string, store: Store, serial: nat)
    requires Succeeds(revisions, tier, t, store, serial) && RevisionsAreOf(tier, t, serial) && serial <= store.serial
    ensures RevisionsAreOf(tier.(revisions := revisions), t, store.serial)
  {
    forall r | r in revisions ensures revisions[r] == Plain(r) || IsOf(revisions[r], t, store.serial) {
      assert SucceedsAt(revisions[r], r, tier, t, store, serial);
    }
  }

  lemma OtherTierKeepsInv(w: World, t: string, u: string, tier: Tier)
    requires Inv(w, t) && u != t && RevisionsAreOf(tier, u, w.store.serial)
    ensures Inv(w.(tiers := w.tiers[u := tier]), t)
  {
    var w' := w.(tiers := w.tiers[u := tier]);
    forall s | s in w'.spaces && Carries(w'.spaces[s], t) ensures LabelIsSound(w', t, s) {
      assert LabelIsSound(w, t, s);
    }
    forall n | n in w'.cleanups && IsRevisionOf(n, t) ensures CleanupIsSound(w', t, n) {
      assert CleanupIsSound(w, t, n);
    }
  }

  lemma RemovedTierKeepsInv(w: World, t: string, u: string)
    requires Inv(w, t) && u in w.tiers && (u == t ==> !IsLabelled(w, t) || !w.tiers[t].finalizer)
    ensures Inv(w.(tiers := w.tiers - {u}), t)
  {
    var w' := w.(tiers := w.tiers - {u});
    forall s | s in w'.spaces && Carries(w'.spaces[s], t) ensures LabelIsSound(w', t, s) {
      assert LabelIsSound(w, t, s);
      assert IsLabelled(w, t);
    }
    forall n | n in w'.cleanups && IsRevisionOf(n, t) ensures CleanupIsSound(w', t, n) {
      assert CleanupIsSound(w, t, n);
    }
  }

  lemma ReconcileTierKeepsInv(w: World, t: string, u: string, refs: seq<string>, ok: seq<bool>, statusFails: bool)
    requires Inv(w, t) && |ok| == |refs| && (u in w.tiers ==> forall r :: r in refs <==> r in Refs(w.tiers[u].spec))
    ensures Inv(ReconciledTier(w, u, refs, ok, statusFails), t)
  {
    if u in w.tiers {
      if w.tiers[u].deleting {
        if !IsLabelled(w, u) {
          RemovedTierKeepsInv(w, t, u);
        }
      } else {
        EnsuringKeepsInv(w, t, u, refs, ok, statusFails);
      }
    }
  }

  lemma EnsuringKeepsInv(w: World, t: string, u: string, refs: seq<string>, ok: seq<bool>, statusFails: bool)
    requires Inv(w, t) && |ok| == |refs| && u in w.tiers && !w.tiers[u].deleting
    requires forall r :: r in refs <==> r in Refs(w.tiers[u].spec)
    ensures Inv(ReconciledTier(w, u, refs, ok, statusFails), t)
  {
    var tier := w.tiers[u].(finalizer := true);
    assert AllOld(w.store);
    var (store, r) := EnsureRefs(w.store, u, tier.spec.parameters, tier.revisions, refs, ok);
    EnsuredAreAdded(w.store, u, tier.spec.parameters, tier.revisions, refs, ok);
    GrownKeepsInv(w, t, u, store);
    EnsuredWorld(w, u, refs, ok, statusFails);
    if r.Ok? && !statusFails {
      var revisions := r.value.1;
      EnsuredRevisionsSucceed(w.store, tier, u, refs, ok, store, r.value.0, revisions);
      assert RevisionsAreOf(w.tiers[u], u, w.store.serial);
      SucceedingAreOf(revisions, tier, u, store, w.store.serial);
      StatusKeepsInv(w, t, u, store, revisions);
    }
  }

  lemma EnsuredWorld(w: World, u: string, refs: seq<string>, ok: seq<bool>, statusFails: bool)
    requires |ok| == |refs| && u in w.tiers && !w.tiers[u].deleting
    ensures var (store, r) := EnsureRefs(w.store, u, w.tiers[u].spec.parameters, w.tiers[u].revisions, refs, ok);
            ReconciledTier(w, u, refs, ok, statusFails)
            == if r.Ok? && !statusFails then WithRevisions(Grown(w, u, store), u, r.value.1) else Grown(w, u, store)
  {
  }

  lemma StatusKeepsInv(w: World, t: string, u: string, store: Store, revisions: map<string, Name>)
    requires Inv(w, t) && u in w.tiers && !w.tiers[u].deleting && w.store.serial <= store.serial
    requires Inv(Grown(w, u, store), t)
    requires Succeeds(revisions, w.tiers[u].(finalizer := true), u, store, w.store.serial)
    requires RevisionsAreOf(w.tiers[u].(finalizer := true, revisions := revisions), u, store.serial)
    ensures Inv(WithRevisions(Grown(w, u, store), u, revisions), t)
  {
    var w1 := Grown(w, u, store);
    if u == t {
      forall s | s in w.spaces && Carries(w.spaces[s], t) ensures LabelIsSound(w, t, s) {
      }
      OwnStatusKeepsInv(w1, t, revisions, w.store.serial);
    } else {
      OtherTierKeepsInv(w1, t, u, w1.tiers[u].(revisions := revisions));
    }
  }

  // ---------- The Space controller keeps it ----------

  /** Names newly built into an NSTemplateSet come from the current status of its tier, and exist. */
  lemma WantedAreCurrent(w: World, t: string, u: string, used: set<string>, n: Name)
    requires Inv(w, t) && u in w.tiers && n in Wanted(w.tiers[u], used) && IsRevisionOf(n, t)
    ensures u == t && n in w.tiers[t].revisions.Values && n in w.store.ttrs
    ensures exists r :: r in used && r in w.tiers[t].revisions && w.tiers[t].revisions[r] == n
  {
    var r :| r in used && r in w.tiers[u].revisions && n == w.tiers[u].revisions[r];
    assert RevisionsAreOf(w.tiers[u], u, w.store.serial);
  }

  /** Replacing one Space keeps the invariant if the new one is sound by itself. */
  lemma ReplacedSpaceKeepsInv(w: World, t: string, s: string, space: Space)
    requires Inv(w, t)
    requires Carries(space, t) ==> LabelIsSound(w.(spaces := w.spaces[s := space]), t, s)
    requires forall n | n in w.cleanups && IsRevisionOf(n, t) && Carries(space, t)
             && IsChecked(w.cleanups[n], space.hashes[t]) ::
               n !in RefsOf(space)
    ensures Inv(w.(spaces := w.spaces[s := space]), t)
  {
    var w' := w.(spaces := w.spaces[s := space]);
    forall x | x in w'.spaces && Carries(w'.spaces[x], t) ensures LabelIsSound(w', t, x) {
      if x != s {
        assert LabelIsSound(w, t, x);
      }
    }
    forall n | n in w'.cleanups && IsRevisionOf(n, t) ensures CleanupIsSound(w', t, n) {
      assert CleanupIsSound(w, t, n);
    }
  }

  lemma ReconcileSpaceKeepsInv(w: World, t: string, s: string, used: set<string>, differs: bool, waits: bool)
    requires Inv(w, t) && IsPossible(w, ReconcileSpace(s, used, differs, waits))
    ensures Inv(ReconciledSpace(w, s, used, differs, waits), t)
  {
    var w' := ReconciledSpace(w, s, used, differs, waits);
    if w' != w {
      var (before, after) := (w.spaces[s], w'.spaces[s]);
      var u := before.tierName;
      assert w' == w.(spaces := w.spaces[s := after]);
      assert Refs(w.tiers[u].spec) <= w.tiers[u].revisions.Keys && RefsOf(after) == Wanted(w.tiers[u], used);
      assert after.hashes == before.hashes || after.hashes == map[u := w.tiers[u].revisions];
      RebuiltSpaceKeepsInv(w, t, s, after, used);
    }
  }

  lemma RebuiltLabelIsSound(w: World, t: string, s: string, after: Space, used: set<string>)
    requires Inv(w, t) && s in w.spaces && w.spaces[s].tierName in w.tiers && Carries(after, t)
    requires var (u, tier) := (w.spaces[s].tierName, w.tiers[w.spaces[s].tierName]);
             && used <= Refs(tier.spec) <= tier.revisions.Keys && RefsOf(after) == Wanted(tier, used)
             && (after.hashes == w.spaces[s].hashes || after.hashes == map[u := tier.revisions])
    ensures LabelIsSound(w.(spaces := w.spaces[s := after]), t, s)
  {
    var u := w.spaces[s].tierName;
    forall n | n in RefsOf(after) && IsRevisionOf(n, t)
      ensures u == t && n in w.store.ttrs && exists r ::
                r in used && r in w.tiers[t].revisions
                && w.tiers[t].revisions[r] == n
    {
      WantedAreCurrent(w, t, u, used, n);
    }
    if after.hashes == w.spaces[s].hashes {
      assert LabelIsSound(w, t, s);
    } else {
      assert u == t && RevisionsAreOf(w.tiers[t], t, w.store.serial);
    }
  }

  lemma RebuiltSpaceKeepsInv(w: World, t: string, s: string, after: Space, used: set<string>)
    requires Inv(w, t) && s in w.spaces && w.spaces[s].tierName in w.tiers
    requires var (u, tier) := (w.spaces[s].tierName, w.tiers[w.spaces[s].tierName]);
             && used <= Refs(tier.spec) <= tier.revisions.Keys && RefsOf(after) == Wanted(tier, used)
             && (after.hashes == w.spaces[s].hashes || after.hashes == map[u := tier.revisions])
    ensures Inv(w.(spaces := w.spaces[s := after]), t)
  {
    forall n | n in w.cleanups && IsRevisionOf(n, t) ensures n !in RefsOf(after) {
      assert CleanupIsSound(w, t, n);
      if n in RefsOf(after) {
        WantedAreCurrent(w, t, w.spaces[s].tierName, used, n);
      }
    }
    if Carries(after, t) {
      RebuiltLabelIsSound(w, t, s, after, used);
    }
    ReplacedSpaceKeepsInv(w, t, s, after);
  }

  // ---------- The cleanup controller keeps it ----------

  lemma CheckKeepsInv(w: World, t: string, e: Event)
    requires Inv(w, t) && (e.ReadTier? || e.ListOutdated?)
    ensures Inv(Next(w, e), t)
  {
    var w' := Next(w, e);
    assert w'.store == w.store && w'.tiers == w.tiers && w'.spaces == w.spaces;
    forall s | s in w'.spaces && Carries(w'.spaces[s], t) ensures LabelIsSound(w', t, s) {
      assert LabelIsSound(w, t, s);
    }
    forall n | n in w'.cleanups && IsRevisionOf(n, t) ensures CleanupIsSound(w', t, n) {
      CheckIsSound(w, t, e, n);
    }
    assert NamesAreOld(w');
  }

  lemma CheckIsSound(w: World, t: string, e: Event, n: Name)
    requires Inv(w, t) && (e.ReadTier? || e.ListOutdated?)
    requires n in Next(w, e).cleanups && IsRevisionOf(n, t)
    ensures CleanupIsSound(Next(w, e), t, n)
  {
    if e != ReadTier(n) && e != ListOutdated(n) {
      assert n in w.cleanups && Next(w, e).cleanups[n] == w.cleanups[n];
      assert CleanupIsSound(w, t, n);
    } else if e.ReadTier? {
      ReadTierIsSound(w, t, n);
    } else {
      ListOutdatedIsSound(w, t, n);
    }
  }

  /** A Space whose label is the hash that was read uses nothing but what that hash names. */
  lemma ReadTierIsSound(w: World, t: string, n: Name)
    requires Inv(w, t) && IsRevisionOf(n, t) && n in AfterReadTier(w, n).cleanups
    ensures CleanupIsSound(AfterReadTier(w, n), t, n)
  {
    if n in w.store.ttrs {
      assert w.store.ttrs[n].tier == t;
      forall s | s in w.spaces && Carries(w.spaces[s], t) ensures LabelIsSound(w, t, s) {
      }
    }
  }

  /** A labelled Space whose label is not the hash that was read would have been found outdated. */
  lemma ListOutdatedIsSound(w: World, t: string, n: Name)
    requires Inv(w, t) && IsRevisionOf(n, t) && n in AfterListOutdated(w, n).cleanups
    ensures CleanupIsSound(AfterListOutdated(w, n), t, n)
  {
    assert CleanupIsSound(w, t, n);
    if n in w.store.ttrs {
      assert w.store.ttrs[n].tier == t;
    }
  }

  lemma DeleteKeepsInv(w: World, t: string, ttr: Name)
    requires Inv(w, t) && WillDelete(w, ttr)
    ensures Inv(AfterDelete(w, ttr), t)
  {
    var w' := AfterDelete(w, ttr);
    assert IsRevisionOf(ttr, t) ==> CleanupIsSound(w, t, ttr);
    if t in w.tiers {
      assert RevisionsAreOf(w.tiers[t], t, w.store.serial);
      assert TierIsSound(w.tiers[t], w'.store);
    }
    forall s | s in w'.spaces && Carries(w'.spaces[s], t) ensures LabelIsSound(w', t, s) {
      assert LabelIsSound(w, t, s);
      assert t in w.tiers && WouldGive(w'.store, w.tiers[t], w.spaces[s].hashes[t]) ==>
          WouldGive(w.store, w.tiers[t], w.spaces[s].hashes[t]);
    }
    forall n | n in w'.cleanups && IsRevisionOf(n, t) ensures CleanupIsSound(w', t, n) {
      assert CleanupIsSound(w, t, n);
    }
    assert NamesAreOld(w');
  }

  // ---------- Every event keeps it ----------

  /**
   * Changing nothing but the spec or the deletion mark of tier t, or templates, keeps the invariant if labels
   * stay safe.
   */
  lemma SafeLabelsKeepInv(w: World, t: string, w': World)
    requires Inv(w, t) && t in w.tiers && t in w'.tiers
    requires w'.store == w.store.(templates := w'.store.templates) && w'.spaces == w.spaces && w'.cleanups == w.cleanups
    requires w'.tiers == w.tiers[t := w'.tiers[t]]
    requires w'.tiers[t].revisions == w.tiers[t].revisions && w'.tiers[t].finalizer == w.tiers[t].finalizer
    requires forall s | s in w'.spaces && Carries(w'.spaces[s], t) :: LabelIsSafe(w', t, s)
    ensures Inv(w', t)
  {
    assert RevisionsAreOf(w.tiers[t], t, w.store.serial);
    forall s | s in w'.spaces && Carries(w'.spaces[s], t) ensures LabelIsSound(w', t, s) {
      assert LabelIsSound(w, t, s);
    }
    forall n | n in w'.cleanups && IsRevisionOf(n, t) ensures CleanupIsSound(w', t, n) {
      assert CleanupIsSound(w, t, n);
    }
  }

  lemma EditTierKeepsInv(w: World, t: string, u: string, spec: TierSpec)
    requires Inv(w, t) && Respects(w, t, EditTier(u, spec))
    ensures Inv(Next(w, EditTier(u, spec)), t)
  {
    if u in w.tiers {
      assert RevisionsAreOf(w.tiers[u], u, w.store.serial);
      if u == t {
        SafeLabelsKeepInv(w, t, Next(w, EditTier(u, spec)));
      } else {
        OtherTierKeepsInv(w, t, u, w.tiers[u].(spec := spec));
      }
    }
  }

  lemma DeleteTierKeepsInv(w: World, t: string, u: string)
    requires Inv(w, t)
    ensures Inv(Next(w, DeleteTier(u)), t)
  {
    if u in w.tiers {
      assert RevisionsAreOf(w.tiers[u], u, w.store.serial);
      if !w.tiers[u].finalizer {
        RemovedTierKeepsInv(w, t, u);
      } else if u == t {
        DeletingLabelsAreSafe(w, t);
        SafeLabelsKeepInv(w, t, Next(w, DeleteTier(u)));
      } else {
        OtherTierKeepsInv(w, t, u, w.tiers[u].(deleting := true));
      }
    }
  }

  lemma DeletingLabelsAreSafe(w: World, t: string)
    requires Inv(w, t) && t in w.tiers && w.tiers[t].finalizer
    ensures var w' := Next(w, DeleteTier(t));
            forall s | s in w'.spaces && Carries(w'.spaces[s], t) :: LabelIsSafe(w', t, s)
  {
    var w' := Next(w, DeleteTier(t));
    forall s | s in w'.spaces && Carries(w'.spaces[s], t) ensures LabelIsSafe(w', t, s) {
      assert LabelIsSound(w, t, s);
    }
  }

  lemma TemplatesKeepInv(w: World, t: string, e: Event)
    requires Inv(w, t) && Respects(w, t, e) && (e.EditTemplate? || e.DeleteTemplate?)
    ensures Inv(Next(w, e), t)
  {
    var w' := Next(w, e);
    if t in w.tiers {
      assert w'.tiers == w.tiers[t := w'.tiers[t]];
      if e.DeleteTemplate? {
        forall s | s in w'.spaces && Carries(w'.spaces[s], t) ensures LabelIsSafe(w', t, s) {
          assert LabelIsSound(w, t, s);
          assert WouldGive(w'.store, w.tiers[t], w.spaces[s].hashes[t]) ==>
              WouldGive(w.store, w.tiers[t], w.spaces[s].hashes[t]);
        }
      }
      SafeLabelsKeepInv(w, t, w');
    } else {
      MissingTierKeepsInv(w, t, w');
    }
  }

  /** Without the tier, templates do not matter. */
  lemma MissingTierKeepsInv(w: World, t: string, w': World)
    requires Inv(w, t) && t !in w.tiers && w' == w.(store := w.store.(templates := w'.store.templates))
    ensures Inv(w', t)
  {
    forall s | s in w'.spaces && Carries(w'.spaces[s], t) ensures LabelIsSound(w', t, s) {
      assert LabelIsSound(w, t, s);
    }
    forall n | n in w'.cleanups && IsRevisionOf(n, t) ensures CleanupIsSound(w', t, n) {
      assert CleanupIsSound(w, t, n);
    }
  }

  /** A new tier starts with no revisions, and a Space that still carries its label uses none. */
  lemma CreateTierKeepsInv(w: World, t: string, u: string, spec: TierSpec)
    requires Inv(w, t)
    ensures Inv(Next(w, CreateTier(u, spec)), t)
  {
    if u !in w.tiers {
      if u == t {
        var w' := Next(w, CreateTier(u, spec));
        forall s | s in w'.spaces && Carries(w'.spaces[s], t) ensures LabelIsSound(w', t, s) {
          assert LabelIsSound(w, t, s);
        }
        forall n | n in w'.cleanups && IsRevisionOf(n, t) ensures CleanupIsSound(w', t, n) {
          assert CleanupIsSound(w, t, n);
        }
      } else {
        OtherTierKeepsInv(w, t, u, Tier(spec, map[], false, false));
      }
    }
  }

  lemma SpaceEditKeepsInv(w: World, t: string, e: Event)
    requires Inv(w, t) && (e.CreateSpace? || e.EditSpace? || e.SetProgress?)
    ensures Inv(Next(w, e), t)
  {
    var w' := Next(w, e);
    if w' != w {
      var (s, after) := (e.space, w'.spaces[e.space]);
      assert w' == w.(spaces := w.spaces[s := after]);
      if Carries(after, t) {
        assert after.hashes == w.spaces[s].hashes && RefsOf(after) == RefsOf(w.spaces[s]);
        SameRefsKeepLabel(w, t, s, after);
      }
      forall n | n in w.cleanups && IsRevisionOf(n, t) && Carries(after, t) && IsChecked(w.cleanups[n], after.hashes[t])
        ensures n !in RefsOf(after)
      {
        assert CleanupIsSound(w, t, n);
      }
      ReplacedSpaceKeepsInv(w, t, s, after);
    }
  }

  lemma SameRefsKeepLabel(w: World, t: string, s: string, after: Space)
    requires LabelsAreSound(w, t) && s in w.spaces && Carries(after, t)
    requires after.hashes == w.spaces[s].hashes && RefsOf(after) == RefsOf(w.spaces[s])
    ensures LabelIsSound(w.(spaces := w.spaces[s := after]), t, s)
  {
    assert LabelIsSound(w, t, s);
  }

  lemma DeleteSpaceKeepsInv(w: World, t: string, s: string)
    requires Inv(w, t)
    ensures Inv(Next(w, DeleteSpace(s)), t)
  {
    var w' := Next(w, DeleteSpace(s));
    forall x | x in w'.spaces && Carries(w'.spaces[x], t) ensures LabelIsSound(w', t, x) {
      assert LabelIsSound(w, t, x);
    }
    forall n | n in w'.cleanups && IsRevisionOf(n, t) ensures CleanupIsSound(w', t, n) {
      assert CleanupIsSound(w, t, n);
    }
  }

  lemma EventKeepsInv(w: World, t: string, e: Event)
    requires Inv(w, t) && IsPossible(w, e) && Respects(w, t, e)
    ensures Inv(Next(w, e), t)
  {
    match e
    case CreateTier(u, spec) => CreateTierKeepsInv(w, t, u, spec);
    case EditTier(u, spec) => EditTierKeepsInv(w, t, u, spec);
    case DeleteTier(u) => DeleteTierKeepsInv(w, t, u);
    case ReconcileTier(u, refs, ok, statusFails) => ReconcileTierKeepsInv(w, t, u, refs, ok, statusFails);
    case EditTemplate(_, _) => TemplatesKeepInv(w, t, e);
    case DeleteTemplate(_) => TemplatesKeepInv(w, t, e);
    case CreateSpace(_, _) => SpaceEditKeepsInv(w, t, e);
    case EditSpace(_, _) => SpaceEditKeepsInv(w, t, e);
    case DeleteSpace(s) => DeleteSpaceKeepsInv(w, t, s);
    case ReconcileSpace(s, used, differs, waits) => ReconcileSpaceKeepsInv(w, t, s, used, differs, waits);
    case SetProgress(_, _) => SpaceEditKeepsInv(w, t, e);
    case ReadTier(_) => CheckKeepsInv(w, t, e);
    case ListOutdated(_) => CheckKeepsInv(w, t, e);
    case DeleteUnused(ttr) =>
      if WillDelete(w, ttr) {
        DeleteKeepsInv(w, t, ttr);
      }
  }

  // ---------- Runs ----------

  predicate IsEmpty(w: World) {
    w.tiers == map[] && w.spaces == map[] && w.cleanups == map[] && w.store.ttrs == map[]
  }

  /** Events that can happen one after the other, all of them respecting the guard. */
  ghost predicate IsRun(w: World, events: seq<Event>, t: string)
    decreases |events|
  {
    events == [] || (IsPossible(w, events[0]) && Respects(w, t, events[0]) && IsRun(Next(w, events[0]), events[1..], t))
  }

  ghost function Run(w: World, events: seq<Event>, t: string): World
    requires IsRun(w, events, t)
    decreases |events|
  {
    if events == [] then w else Run(Next(w, events[0]), events[1..], t)
  }

  /** The next step of the cleanup deletes a revision of the tier that a labelled Space uses. */
  predicate Collects(w: World, t: string, ttr: Name, s: string) {
    && WillDelete(w, ttr) && w.store.ttrs[ttr].tier == t
    && s in w.spaces && Carries(w.spaces[s], t) && ttr in RefsOf(w.spaces[s])
  }

  ghost predicate CollectsInUse(w: World, t: string) {
    exists ttr, s :: Collects(w, t, ttr, s)
  }

  lemma {:induction false} RunKeepsInv(w: World, events: seq<Event>, t: string)
    requires Inv(w, t) && IsRun(w, events, t)
    ensures Inv(Run(w, events, t), t)
    decreases |events|
  {
    if events != [] {
      EventKeepsInv(w, t, events[0]);
      RunKeepsInv(Next(w, events[0]), events[1..], t);
    }
  }

  lemma SoundNeverCollects(w: World, t: string)
    requires Inv(w, t)
    ensures !CollectsInUse(w, t)
  {
    forall ttr | WillDelete(w, ttr) && w.store.ttrs[ttr].tier == t ensures CleanupIsSound(w, t, ttr) {
    }
  }

  lemma EmptyIsSound(w: World, t: string)
    requires IsEmpty(w)
    ensures Inv(w, t)
  {
  }

  /** In every run, the cleanup never deletes a revision of tier t that a Space carrying t's hash label uses. */
  lemma NeverCollectsInUse(w: World, events: seq<Event>, t: string)
    requires IsEmpty(w) && IsRun(w, events, t)
    ensures !CollectsInUse(Run(w, events, t), t)
  {
    EmptyIsSound(w, t);
    RunKeepsInv(w, events, t);
    SoundNeverCollects(Run(w, events, t), t);
  }

  /**
   * Nothing dangles: at any time the revisions named in the status of tier t and those used by Spaces carrying its
   * label exist, and a Space labelled with revisions keeps the tier alive.
   */
  lemma NothingDangles(w: World, events: seq<Event>, t: string)
    requires IsEmpty(w) && IsRun(w, events, t)
    ensures var x := Run(w, events, t);
            && (t in x.tiers ==> forall r | r in x.tiers[t].revisions && x.tiers[t].revisions[r].Generated? ::
                  x.tiers[t].revisions[r] in x.store.ttrs)
            && (forall s, n | s in x.spaces && Carries(x.spaces[s], t) && n in RefsOf(x.spaces[s])
                  && IsRevisionOf(n, t) ::
                  n in x.store.ttrs)
            && (forall s | s in x.spaces && Carries(x.spaces[s], t) && x.spaces[s].hashes[t] != map[] :: t in x.tiers)
  {
    EmptyIsSound(w, t);
    RunKeepsInv(w, events, t);
    var x := Run(w, events, t);
    forall s | s in x.spaces && Carries(x.spaces[s], t) ensures LabelIsSound(x, t, s) {
    }
  }
}
