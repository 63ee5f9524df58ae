/** The cleanup controller's reconcile as it runs: three calls in a row, with early returns. */
module RevisionCleanupController {
  import opened Base
  import opened Tiers
  import opened RevisionCleanup

  /** In seconds. */
  const MIN_TTR_AGE: int := 30

  /** Reading the TTR, reading the tier, listing the outdated Spaces, deleting the TTR. */
  datatype CleanupCalls = CleanupCalls(getFails: bool, readFails: bool, listFails: bool, deleteFails: bool)

  /** The rest of a TTR: its age in seconds, whether it has its tier's label, and whether it is being deleted. */
  datatype Meta = Meta(age: int, labelled: bool, beingDeleted: bool)

  class Reconciler {
    var world: World

    constructor (world: World)
      ensures this.world == world
    {
      this.world := world;
    }

    method IsNamed(tier: Tier, ttr: Name) returns (named: bool)
      ensures named <==> ttr in tier.revisions.Values
    {
      var refs := tier.revisions.Keys;
      while refs != {}
        invariant refs <= tier.revisions.Keys
        invariant forall r | r in tier.revisions.Keys - refs :: tier.revisions[r] != ttr
        decreases |refs|
      {
        var ref :| ref in refs;
        if tier.revisions[ref] == ttr {
          return true;
        }
        refs := refs - {ref};
      }
      return false;
    }

    /** Some Space carries the tier's label with another hash. */
    method HasOutdated(t: string, hash: Hash) returns (outdated: bool)
      ensures outdated <==> exists s | s in world.spaces :: IsOutdated(world.spaces[s], t, hash)
    {
      var spaces := world.spaces.Keys;
      while spaces != {}
        invariant spaces <= world.spaces.Keys
        invariant forall s | s in world.spaces.Keys - spaces :: !IsOutdated(world.spaces[s], t, hash)
        decreases |spaces|
      {
        var s :| s in spaces;
        if IsOutdated(world.spaces[s], t, hash) {
          return true;
        }
        spaces := spaces - {s};
      }
      return false;
    }

    /** Whether the TTR is unused; none if the listing of the outdated Spaces fails. */
    method VerifyUnusedTTR(t: string, tier: Tier, ttr: Name, listFails: bool) returns (unused: Result<bool, ()>)
      ensures unused.Err? <==> ttr !in tier.revisions.Values && listFails
      ensures unused.Ok? ==> (unused.value <==>
                ttr !in tier.revisions.Values && forall s | s in world.spaces ::
                    !IsOutdated(world.spaces[s], t, tier.revisions))
    {
      var named := IsNamed(tier, ttr);
      if named {
        return Ok(false);
      }
      if listFails {
        return Err(());
      }
      var outdated := HasOutdated(t, tier.revisions);
      return Ok(!outdated);
    }

    /**
     * A TTR that is old enough and not being deleted is removed, by a reconcile whose calls work, if and only
     * if it has no tier label, or its tier is gone, or its tier does not name it and no Space carries the
     * tier's label with another hash. Nothing else is ever touched, and a call that fails ends the reconcile
     * with an error.
     */
    method Reconcile(ttr: Name, meta: Meta, c: CleanupCalls) returns (requeueAfter: int, ok: bool)
      modifies this
      ensures world == old(world).(store := old(world.store).(ttrs := world.store.ttrs))
      ensures world.store.ttrs == old(world.store.ttrs) || world.store.ttrs == old(world.store.ttrs) - {ttr}
      ensures ttr in old(world.store.ttrs) && !c.getFails && !c.readFails && !c.listFails && !c.deleteFails ==>
                (ttr !in world.store.ttrs <==>
                  && !meta.beingDeleted && meta.age >= 30
                  && (|| !meta.labelled
                      || old(world.store.ttrs[ttr]).tier !in old(world.tiers)
                      || (&& (forall r | r in old(world.tiers[world.store.ttrs[ttr].tier]).revisions ::
                                old(world.tiers[world.store.ttrs[ttr].tier]).revisions[r] != ttr)
                          && (forall s | s in old(world.spaces) &&
                                old(world.store.ttrs[ttr]).tier in old(world.spaces[s]).hashes ::
                                old(world.spaces[s]).hashes[old(world.store.ttrs[ttr]).tier]
                                == old(world.tiers[world.store.ttrs[ttr].tier]).revisions))))
      ensures !ok || c.deleteFails || (meta.labelled && c.readFails) ==> world == old(world)
      ensures !c.getFails && !c.readFails && !c.listFails && !c.deleteFails ==> ok
      ensures c.getFails ==> !ok
      ensures requeueAfter == if !c.getFails && ttr in old(world.store.ttrs) && !meta.beingDeleted && meta.age < 30
                              then 30 - meta.age else 0
      ensures requeueAfter == 0 && ok && ttr in old(world.store.ttrs) && !meta.beingDeleted && meta.labelled ==>
                world.store == AfterDelete(AfterListOutdated(AfterReadTier(old(world), ttr), ttr), ttr).store
    {
      requeueAfter := 0;
      if c.getFails {
        return 0, false;
      }
      if ttr !in world.store.ttrs || meta.beingDeleted {
        return 0, true;
      }
      if meta.age < MIN_TTR_AGE {
        return MIN_TTR_AGE - meta.age, true;
      }
      var t := world.store.ttrs[ttr].tier;
      if meta.labelled {
        if c.readFails {
          return 0, false;
        }
        if t in world.tiers {
          var unused := VerifyUnusedTTR(t, world.tiers[t], ttr, c.listFails);
          if unused.Err? {
            return 0, false;
          }
          if !unused.value {
            return 0, true;
          }
        }
      }
      ok := DeleteTTR(ttr, c.deleteFails);
    }

    method DeleteTTR(ttr: Name, fails: bool) returns (ok: bool)
      modifies this
      ensures ok == !fails
      ensures world == if fails then old(world)
              else old(world).(store := old(world.store).(ttrs := old(world.store.ttrs) - {ttr}))
    {
      if !fails {
        world := world.(store := world.store.(ttrs := world.store.ttrs - {ttr}));
      }
      return !fails;
    }
  }
}
