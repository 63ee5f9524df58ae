/**
 * Collecting unused TierTemplateRevisions: the tier controller, the Space controller and the cleanup
 * controller over one store. The cleanup's three calls (read the tier, list the outdated Spaces,
 * delete) are separate steps that anything may come between.
 */
module RevisionCleanup {
  import opened Base
  import opened Tiers
  import opened TierRevisions

  /** The hash of a tier is a function of `status.revisions` only, and injective: it is modelled by the map itself. */
  type Hash = map<string, Name>

  datatype Tier = Tier(spec: TierSpec, revisions: map<string, Name>, deleting: bool, finalizer: bool)

  /** The NSTemplateSet of a Space: the names it is built from, and whether its controller reports it provisioned. */
  datatype TemplateSet = TemplateSet(tierName: string, refs: set<Name>, provisioned: bool)

  /** `hashes` holds the labels `<tier>-tier-hash`. */
  datatype Space = Space(tierName: string, hashes: map<string, Hash>, templateSet: Option<TemplateSet>)

  /** How far the cleanup of a TTR has got: the tier was read, or the TTR was found unused. */
  datatype Cleanup = TierRead(hash: Hash) | Unused

  datatype World = World(store: Store, tiers: map<string, Tier>, spaces: map<string, Space>,
      cleanups: map<Name, Cleanup>)

  datatype Event =
    | CreateTier(tier: string, spec: TierSpec)
    | EditTier(tier: string, spec: TierSpec)
    | DeleteTier(tier: string)
    | ReconcileTier(tier: string, refs: seq<string>, ok: seq<bool>, statusFails: bool)
    | EditTemplate(template: string, objects: Option<string>)
    | DeleteTemplate(template: string)
    | CreateSpace(space: string, tierName: string)
    | EditSpace(space: string, tierName: string)
    | DeleteSpace(space: string)
    | ReconcileSpace(space: string, used: set<string>, differs: bool, waits: bool)
    | SetProgress(space: string, provisioned: bool)
    | ReadTier(ttr: Name)
    | ListOutdated(ttr: Name)
    | DeleteUnused(ttr: Name)

  // ---------- The tier controller ----------

  predicate Carries(space: Space, tier: string) {
    tier in space.hashes
  }

  /** `HasLabels` on the hash label. */
  predicate IsLabelled(w: World, tier: string) {
    exists s | s in w.spaces :: Carries(w.spaces[s], tier)
  }

  function ReconciledTier(w: World, t: string, refs: seq<string>, ok: seq<bool>, statusFails: bool): World
    requires |ok| == |refs|
  {
    if t !in w.tiers then w
    else if w.tiers[t].deleting then
      if IsLabelled(w, t) then w else w.(tiers := w.tiers - {t})
    else
      var tier := w.tiers[t].(finalizer := true);
      var (store, r) := EnsureRefs(w.store, t, tier.spec.parameters, tier.revisions, refs, ok);
      w.(store := store,
         tiers := w.tiers[t := if r.Ok? && !statusFails then tier.(revisions := r.value.1) else tier])
  }

  // ---------- The Space controller ----------

  /** The names an NSTemplateSet built now from the given refs would mention. */
  function Wanted(tier: Tier, used: set<string>): set<Name> {
    set ref | ref in used && ref in tier.revisions :: tier.revisions[ref]
  }

  /**
   * `used` are the refs the spec builder needs for the Space's bindings; `differs` says that the spec
   * differs otherwise, and `waits` that the update is paced or the status is too recent.
   */
  function ReconciledSpace(w: World, s: string, used: set<string>, differs: bool, waits: bool): World {
    if s !in w.spaces || w.spaces[s].tierName !in w.tiers then w
    else
      var space := w.spaces[s];
      var tier := w.tiers[space.tierName];
      if exists ref | ref in Refs(tier.spec) :: ref !in tier.revisions then w
      else
        var wanted := Wanted(tier, used);
        if space.templateSet.None? then
          w.(spaces := w.spaces[s := space.(templateSet := Some(TemplateSet(space.tierName, wanted, false)))])
        else
          var existing := space.templateSet.value;
          if existing.tierName != space.tierName || existing.refs != wanted || differs then
            if waits then w
            else w.(spaces :=
                w.spaces[s := space.(templateSet := Some(existing.(tierName := space.tierName, refs := wanted)))])
          else if existing.provisioned && !waits then
            w.(spaces := w.spaces[s := space.(hashes := map[space.tierName := tier.revisions])])
          else w
  }

  // ---------- The cleanup controller ----------

  /** The first check: no tier any more, or a tier whose status does not name the TTR. */
  function AfterReadTier(w: World, ttr: Name): World {
    if ttr !in w.store.ttrs then w.(cleanups := w.cleanups - {ttr})
    else
      var t := w.store.ttrs[ttr].tier;
      if t !in w.tiers then w.(cleanups := w.cleanups[ttr := Unused])
      else if ttr in w.tiers[t].revisions.Values then w.(cleanups := w.cleanups - {ttr})
      else w.(cleanups := w.cleanups[ttr := TierRead(w.tiers[t].revisions)])
  }

  /** `OutdatedTierSelector`: the label exists and its value is not the hash. */
  predicate IsOutdated(space: Space, tier: string, hash: Hash) {
    Carries(space, tier) && space.hashes[tier] != hash
  }

  /** The second check: no Space is outdated with respect to the tier as it was read. */
  function AfterListOutdated(w: World, ttr: Name): World {
    if ttr !in w.store.ttrs || ttr !in w.cleanups || !w.cleanups[ttr].TierRead? then w
    else if exists s | s in w.spaces :: IsOutdated(w.spaces[s], w.store.ttrs[ttr].tier, w.cleanups[ttr].hash) then
      w.(cleanups := w.cleanups - {ttr})
    else w.(cleanups := w.cleanups[ttr := Unused])
  }

  predicate WillDelete(w: World, ttr: Name) {
    ttr in w.store.ttrs && ttr in w.cleanups && w.cleanups[ttr].Unused?
  }

  function AfterDelete(w: World, ttr: Name): World {
    if WillDelete(w, ttr) then w.(store := w.store.(ttrs := w.store.ttrs - {ttr}), cleanups := w.cleanups - {ttr})
        else w
  }

  // ---------- Events ----------

  function Next(w: World, e: Event): World
    requires e.ReconcileTier? ==> |e.ok| == |e.refs|
  {
    match e
    case CreateTier(t, spec) => if t in w.tiers then w else w.(tiers := w.tiers[t := Tier(spec, map[], false, false)])
    case EditTier(t, spec) => if t in w.tiers then w.(tiers := w.tiers[t := w.tiers[t].(spec := spec)]) else w
    case DeleteTier(t) =>
      if t !in w.tiers then w
      else if w.tiers[t].finalizer then w.(tiers := w.tiers[t := w.tiers[t].(deleting := true)])
      else w.(tiers := w.tiers - {t})
    case ReconcileTier(t, refs, ok, statusFails) => ReconciledTier(w, t, refs, ok, statusFails)
    case EditTemplate(name, objects) => w.(store := w.store.(templates := w.store.templates[name := objects]))
    case DeleteTemplate(name) => w.(store := w.store.(templates := w.store.templates - {name}))
    case CreateSpace(s, tierName) =>
      if s in w.spaces then w
      else w.(spaces := w.spaces[s := Space(tierName, map[], None)])
    case EditSpace(s, tierName) =>
      if s in w.spaces then w.(spaces := w.spaces[s := w.spaces[s].(tierName := tierName)]) else w
    case DeleteSpace(s) => w.(spaces := w.spaces - {s})
    case ReconcileSpace(s, used, differs, waits) => ReconciledSpace(w, s, used, differs, waits)
    case SetProgress(s, provisioned) =>
      if s in w.spaces && w.spaces[s].templateSet.Some? then
        w.(spaces := w.spaces[s :=
            w.spaces[s].(templateSet := Some(w.spaces[s].templateSet.value.(provisioned := provisioned)))])
      else w
    case ReadTier(ttr) => AfterReadTier(w, ttr)
    case ListOutdated(ttr) => AfterListOutdated(w, ttr)
    case DeleteUnused(ttr) => AfterDelete(w, ttr)
  }

  /** What every run satisfies: the refs are those of the tier, and the spec builder only uses refs of the tier. */
  ghost predicate IsPossible(w: World, e: Event) {
    match e
    case ReconcileTier(t, refs, ok, _) => |ok| == |refs|
        && (t in w.tiers ==> forall r :: r in refs <==> r in Refs(w.tiers[t].spec))
    case ReconcileSpace(s, used, _, _) =>
      s in w.spaces && w.spaces[s].tierName in w.tiers ==> used <= Refs(w.tiers[w.spaces[s].tierName].spec)
    case _ => true
  }

  // ---------- Which edits are safe ----------

  /** The names mentioned by the NSTemplateSet of a Space. */
  function RefsOf(space: Space): set<Name> {
    if space.templateSet.Some? then space.templateSet.value.refs else {}
  }

  predicate IsRevisionOf(n: Name, t: string) {
    n.Generated? && n.tier == t
  }

  /** Reconciling the tier now, with working calls, would leave exactly this hash. */
  predicate WouldGive(store: Store, tier: Tier, hash: Hash) {
    && !tier.deleting && hash.Keys == Refs(tier.spec)
    && forall r | r in hash ::
      && r in store.templates
      && (store.templates[r].None? ==> hash[r] == Plain(r))
      && (store.templates[r].Some? ==>
            && r in tier.revisions && tier.revisions[r] == hash[r]
            && IsUpToDate(store, hash[r], store.templates[r].value, tier.spec.parameters))
  }

  /** The label is the tier's hash, or would be after the next reconcile of the tier. */
  predicate LooksCurrent(store: Store, tier: Tier, hash: Hash) {
    hash == tier.revisions || WouldGive(store, tier, hash)
  }

  /** The hash names every revision of the tier that the Space uses, or that its next update may give it. */
  predicate Covers(hash: Hash, space: Space, t: string, tier: Tier) {
    && (forall n | n in RefsOf(space) && IsRevisionOf(n, t) :: n in hash.Values)
    && (Refs(tier.spec) <= tier.revisions.Keys ==>
          forall r | r in Refs(tier.spec) && IsRevisionOf(tier.revisions[r], t) :: tier.revisions[r] in hash.Values)
  }

  predicate LabelIsSafe(w: World, t: string, s: string)
    requires t in w.tiers && s in w.spaces && Carries(w.spaces[s], t)
  {
    var hash := w.spaces[s].hashes[t];
    LooksCurrent(w.store, w.tiers[t], hash) ==> Covers(hash, w.spaces[s], t, w.tiers[t])
  }

  /**
   * The guard on editing tier `t` or a template: no Space that still uses, or may get, a revision of the tier may
   * be made to look up to date by undoing the change that made it.
   */
  predicate Respects(w: World, t: string, e: Event) {
    e.EditTier? || e.EditTemplate? ==>
      var w' := Next(w, e);
      t in w'.tiers ==> forall s | s in w'.spaces && Carries(w'.spaces[s], t) :: LabelIsSafe(w', t, s)
  }
}
