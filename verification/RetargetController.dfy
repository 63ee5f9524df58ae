/** The Space controller's reconcile as it runs: the Space is read once, then stored call by call. */
module RetargetController {
  import opened Base
  import opened Retarget

  class Store {
    var space: Space
    var sets: map<string, SetState>
    var counted: map<string, int>

    ghost function Contents(): World
      reads this
    {
      World(space, sets, counted)
    }

    constructor (space: Space, sets: map<string, SetState>)
      ensures Contents() == World(space, sets, map[])
    {
      this.space, this.sets, counted := space, sets, map[];
    }

    method UpdateStatus(s: Space, fails: bool)
      modifies this
      ensures Contents() == if fails then old(Contents()) else StoreStatus(old(Contents()), s)
    {
      if !fails {
        space := space.(statusTarget := s.statusTarget, ready := s.ready);
      }
    }

    /** The object handed back carries the stored status. */
    method Update(s: Space) returns (stored: Space)
      modifies this
      ensures (Contents(), stored) == StoreObject(old(Contents()), s)
    {
      space := s.(statusTarget := space.statusTarget, ready := space.ready);
      stored := space;
    }
  }

  class Reconciler {
    const store: Store

    constructor (store: Store)
      ensures this.store == store
    {
      this.store := store;
    }

    method UpdateReady(s: Space, c: Ready, fails: bool)
      modifies store
      ensures store.Contents() == SetReady(old(store.Contents()), s, c, fails)
    {
      if s.ready != c {
        store.UpdateStatus(s.(ready := c), fails);
      }
    }

    method DeleteNSTemplateSetFromCluster(s: Space, cluster: string, c: Calls) returns (d: Deletion)
      modifies store
      ensures (store.Contents(), d) == DeleteFrom(old(store.Contents()), s, cluster, c)
    {
      if cluster !in store.sets || c.getFails {
        return DeletionFailed;
      }
      var nsTmplSet := store.sets[cluster];
      if nsTmplSet.Absent? {
        return Gone;
      }
      if nsTmplSet.deleting {
        return if c.deletionOverdue then DeletionFailed else BeingDeleted;
      }
      if c.deleteFails {
        return DeletionFailed;
      }
      store.sets := store.sets[cluster := nsTmplSet.(deleting := true)];
      var n := if s.statusTarget in store.counted then store.counted[s.statusTarget] else 0;
      store.counted := store.counted[s.statusTarget := n - 1];
      return BeingDeleted;
    }

    method SetStateLabel(s: Space, state: string, c: Calls) returns (s': Space, ok: bool)
      modifies store
      ensures (store.Contents(), s', ok) == Labelled(old(store.Contents()), s, state, c)
    {
      if s.stateLabel == state {
        return s, true;
      }
      if c.hostUpdateFails {
        UpdateReady(s.(stateLabel := state), Condition(ProvisioningFailed, c.message), c.readyFails);
        return s, false;
      }
      s' := store.Update(s.(stateLabel := state));
      ok := true;
    }

    method EnsureNSTemplateSet(s: Space, c: Calls)
      modifies store
      ensures store.Contents() == EnsureSet(old(store.Contents()), s, c)
    {
      var space := s;
      if space.statusTarget != "" && space.targetCluster != space.statusTarget {
        var deletion := DeleteNSTemplateSetFromCluster(space, space.statusTarget, c);
        match deletion
        case DeletionFailed =>
          UpdateReady(space, Condition(RetargetingFailed, c.message), c.readyFails);
          return;
        case BeingDeleted =>
          UpdateReady(space, Condition(Retargeting, ""), c.readyFails);
          return;
        case Gone =>
          space := space.(statusTarget := "");
          store.UpdateStatus(space, c.clearFails);
          if c.clearFails {
            return;
          }
      }
      ghost var w := store.Contents();
      assert EnsureSet(old(store.Contents()), s, c) == Provision(w, space, c);
      var ok;
      if space.tierName == "" {
        space, ok := SetStateLabel(space, "pending", c);
        if ok {
          UpdateReady(space, Condition(Pending, "unspecified tier name"), c.readyFails);
        }
        return;
      }
      if space.targetCluster == "" {
        space, ok := SetStateLabel(space, "pending", c);
        if ok {
          UpdateReady(space, Condition(Pending, "unspecified target member cluster"), c.readyFails);
        }
        return;
      }
      space, ok := SetStateLabel(space, "cluster-assigned", c);
      if !ok {
        return;
      }
      if space.targetCluster !in store.sets {
        UpdateReady(space, Condition(ProvisioningFailed, "unknown target member cluster"), c.readyFails);
      } else if !c.tierFound {
        UpdateReady(space, Condition(ProvisioningFailed, c.message), c.readyFails);
      } else if c.revisionsValid {
        ManageNSTemplateSet(space.(statusTarget := space.targetCluster), c);
      }
    }

    /** Announces the creation, creates, and records the outcome; the announcement carries the target. */
    method CreateNSTemplateSet(s: Space, c: Calls)
      requires !c.getFails && SetIn(store.Contents(), s.targetCluster).Absent?
      modifies store
      ensures store.Contents() == ManageSet(old(store.Contents()), s, c)
    {
      var inMemory := s.(ready := PROVISIONING);
      UpdateReady(s, PROVISIONING, c.provisioningFails);
      if s.ready != PROVISIONING && c.provisioningFails {
        UpdateReady(inMemory, Condition(ProvisioningFailed, c.message), c.readyFails);
        return;
      }
      if c.createFails {
        UpdateReady(inMemory, Condition(UnableToCreate, c.message), c.readyFails);
        return;
      }
      store.sets := store.sets[s.targetCluster := Present(None, false)];
      var n := if s.targetCluster in store.counted then store.counted[s.targetCluster] else 0;
      store.counted := store.counted[s.targetCluster := n + 1];
      UpdateReady(inMemory, PROVISIONING, c.readyFails);
    }

    method ManageNSTemplateSet(s: Space, c: Calls)
      modifies store
      ensures store.Contents() == ManageSet(old(store.Contents()), s, c)
    {
      if c.getFails {
        UpdateReady(s, Condition(UnableToCreate, c.message), c.readyFails);
        return;
      }
      var nsTmplSet := if s.targetCluster in store.sets then store.sets[s.targetCluster] else Absent;
      if nsTmplSet.Absent? {
        CreateNSTemplateSet(s, c);
      } else if nsTmplSet.ready.Some? {
        ManageExisting(s, nsTmplSet.ready.value, c);
      }
    }

    method ManageExisting(s: Space, ready: SetReason, c: Calls)
      modifies store
      ensures store.Contents() == ExistingSet(old(store.Contents()), s, ready, c)
    {
      match c.existing
      case Postponed =>
      case UpdateFails => UpdateReady(s, Condition(UnableToUpdate, c.message), c.readyFails);
      case Updated => UpdateReady(s, Condition(Updating, ""), c.readyFails);
      case UpToDate =>
        match ready
        case SetUpdating => UpdateReady(s, Condition(Updating, ""), c.readyFails);
        case SetProvisioning => UpdateReady(s, Condition(Provisioning, ""), c.readyFails);
        case SetFailed(message) => UpdateReady(s, Condition(ProvisioningFailed, message), c.readyFails);
        case SetProvisioned =>
          if s.ready == Condition(Updating, "") && c.justUpdating {
            return;
          }
          if c.hostUpdateFails {
            UpdateReady(s, Condition(ProvisioningFailed, c.message), c.readyFails);
            return;
          }
          var space := store.Update(s);
          if c.namespacesChanged {
            store.UpdateStatus(space, c.namespacesFails);
            if c.namespacesFails {
              return;
            }
          }
          UpdateReady(space, Condition(Provisioned, ""), c.readyFails);
    }

    method EnsureDeletion(s: Space, c: Calls)
      modifies store
      ensures store.Contents() == EnsureSpaceDeletion(old(store.Contents()), s, c)
    {
      var targetCluster := s.targetCluster;
      if targetCluster == "" {
        targetCluster := s.statusTarget;
      }
      if targetCluster != "" {
        var deletion := DeleteNSTemplateSetFromCluster(s, targetCluster, c);
        if deletion.DeletionFailed? && s.statusTarget != "" {
          UpdateReady(s, Condition(TerminatingFailed, c.message), c.readyFails);
          return;
        }
        if deletion.BeingDeleted? {
          UpdateReady(s, Condition(Terminating, ""), c.readyFails);
          return;
        }
      }
      if c.hostUpdateFails {
        UpdateReady(s, Condition(TerminatingFailed, c.message), c.readyFails);
      } else {
        var _ := store.Update(s.(finalizer := false));
      }
    }

    /**
     * One reconcile does to the stored objects what the model says, so every run of reconciles keeps one set
     * per Space.
     */
    method Reconcile(c: Calls)
      modifies store
      ensures store.Contents() == Reconciled(old(store.Contents()), c)
      ensures old(Inv(store.Contents())) ==> (Inv(store.Contents()) <==> !Strands(old(store.Contents()), c))
    {
      ghost var w := store.Contents();
      if store.space.beingDeleted && !store.space.finalizer {
        return;
      }
      var space := store.space;
      if space.beingDeleted {
        EnsureDeletion(space, c);
      } else if space.finalizer {
        EnsureNSTemplateSet(space, c);
      } else if !c.finalizerFails {
        space := store.Update(space.(finalizer := true));
        EnsureNSTemplateSet(space, c);
      }
      if Inv(w) {
        ReconcileKeepsInvExactly(w, c);
      }
    }
  }
}
