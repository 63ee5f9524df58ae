/** What reconciles of a Space bring about: its deletion goes through, and its condition says what is the matter. */
module RetargetProgress {
  import opened Base
  import opened Retarget

  // ---------- Deletion ----------

  /** Being deleted, with its NSTemplateSet on the cluster the Space asks to be on, if it asks for one. */
  ghost predicate IsLeaving(w: World) {
    && Inv(w) && w.space.beingDeleted && w.space.finalizer
    && SetIn(w, w.space.statusTarget).Present? && w.space.targetCluster in {"", w.space.statusTarget}
  }

  /** The first reconcile deletes the set and takes it off the count; the finalizer stays until the set is gone. */
  lemma LeavingDeletesTheSet(w: World)
    requires IsLeaving(w)
    ensures var (v, c) := (Next(w, GO), w.space.statusTarget);
            && c in v.sets && v.sets[c].Present? && v.sets[c].deleting
            && (forall k | k in v.sets :: k == c || v.sets[k].Absent?) && v.sets.Keys == w.sets.Keys
            && CountIn(v, c) == 0 && v.space == w.space.(ready := Condition(Terminating, ""))
  {
    assert w.space.ready == Condition(Terminating, "") ==> w.space == w.space.(ready := Condition(Terminating, ""));
  }

  /**
   * Deleting a Space deletes its NSTemplateSet: a working reconcile, the end of the deletion on the member and another
   * reconcile, and the Space is gone with no set on any cluster and none counted.
   */
  lemma DeletionCompletes(w: World)
    requires IsLeaving(w)
    ensures var done := Run(w, [GO, SetRemoved(w.space.statusTarget), GO]);
            && SpaceGone(done) && (forall k | k in done.sets :: done.sets[k].Absent?)
            && (forall k | k in done.counted :: done.counted[k] == 0)
  {
    var c := w.space.statusTarget;
    RunThree(w, GO, SetRemoved(c), GO);
    LeavingDeletesTheSet(w);
    ReconcileKeepsInvExactly(w, CALM);
    var w1 := Next(w, GO);
    var w2 := w1.(sets := w1.sets[c := Absent]);
    assert Next(w1, SetRemoved(c)) == w2;
    assert forall k | k in w2.sets :: w2.sets[k].Absent?;
    assert Next(w2, GO) == w2.(space := w2.space.(finalizer := false));
  }

  /**
   * When the finalizer of a Space being deleted goes, whatever the calls do: its update works, and there is no
   * cluster to look at, or none of that name or no answer from it and no cluster in the status, or no set on
   * it.
   */
  lemma FinalizerGoesExactly(w: World, c: Calls)
    requires w.space.beingDeleted && w.space.finalizer
    ensures var target := if w.space.targetCluster != "" then w.space.targetCluster else w.space.statusTarget;
            !Reconciled(w, c).space.finalizer <==>
              && !c.hostUpdateFails
              && (|| target == ""
                  || (target in w.sets && !c.getFails && w.sets[target].Absent?)
                  || (w.space.statusTarget == ""
                      && (|| target !in w.sets || c.getFails
                          || (w.sets[target].deleting && c.deletionOverdue)
                          || (!w.sets[target].deleting && c.deleteFails))))
  {
  }

  // ---------- What the condition says ----------

  /** Nothing to vacate, and no write fails. */
  predicate IsSettled(w: World, c: Calls) {
    && !w.space.beingDeleted && w.space.finalizer && w.space.statusTarget in {"", w.space.targetCluster}
    && !c.hostUpdateFails && !c.clearFails && !c.provisioningFails && !c.namespacesFails && !c.readyFails
  }

  /** A Space that cannot be provisioned says why; no set is touched. */
  lemma SaysWhyNot(w: World, c: Calls)
    requires IsSettled(w, c)
    ensures var v := Reconciled(w, c);
            && (w.space.tierName == "" ==>
                  v.space.ready == Condition(Pending, "unspecified tier name") && v.space.stateLabel == "pending"
                      && v.sets == w.sets)
            && (w.space.tierName != "" && w.space.targetCluster == "" ==>
                  && v.space.ready == Condition(Pending, "unspecified target member cluster")
                  && v.space.stateLabel == "pending" && v.sets == w.sets)
  {
  }

  lemma SaysWhatFails(w: World, c: Calls)
    requires IsSettled(w, c) && w.space.tierName != "" && w.space.targetCluster != ""
    ensures var v := Reconciled(w, c);
            && v.space.stateLabel == "cluster-assigned"
            && (w.space.targetCluster !in w.sets ==>
                  v.space.ready == Condition(ProvisioningFailed, "unknown target member cluster") && v.sets == w.sets)
            && (w.space.targetCluster in w.sets && !c.tierFound ==>
                  v.space.ready == Condition(ProvisioningFailed, c.message) && v.sets == w.sets)
            && (w.space.targetCluster in w.sets && c.tierFound && !c.revisionsValid ==>
                  v.space.ready == w.space.ready && v.sets == w.sets)
            && (w.space.targetCluster in w.sets && c.tierFound && c.revisionsValid && c.getFails ==>
                  v.space.ready == Condition(UnableToCreate, c.message) && v.sets == w.sets)
  {
    var s := w.space.(stateLabel := "cluster-assigned");
    assert Labelled(w, w.space, "cluster-assigned", c) == (w.(space := s), s, true);
    assert Reconciled(w, c) == Provision(w, w.space, c);
  }

  predicate CanManage(w: World, c: Calls) {
    && IsSettled(w, c) && w.space.tierName != "" && w.space.targetCluster != "" && w.space.targetCluster in w.sets
    && c.tierFound && c.revisionsValid && !c.getFails
  }

  /**
   * Without a set there is one afterwards, counted, announced and with the target stored; a failed creation
   * says so.
   */
  lemma CreatesTheSet(w: World, c: Calls)
    requires CanManage(w, c) && w.sets[w.space.targetCluster].Absent? && w.space.ready != PROVISIONING
    ensures var (v, target) := (Reconciled(w, c), w.space.targetCluster);
            && v.space.statusTarget == target
            && (!c.createFails ==>
                  && v.sets == w.sets[target := Present(None, false)] && v.space.ready == Condition(Provisioning, "")
                  && CountIn(v, target) == CountIn(w, target) + 1)
            && (c.createFails ==> v.sets == w.sets && v.space.ready == Condition(UnableToCreate, c.message))
  {
    ReachesManageSet(w, c);
  }

  /** With the Space's own copy bound to the target, the reconcile comes down to managing the set. */
  lemma ReachesManageSet(w: World, c: Calls)
    requires CanManage(w, c)
    ensures var s := w.space.(stateLabel := "cluster-assigned");
            Reconciled(w, c) == ManageSet(w.(space := s), s.(statusTarget := s.targetCluster), c)
  {
    var s := w.space.(stateLabel := "cluster-assigned");
    var (w1, s1, ok) := Labelled(w, w.space, "cluster-assigned", c);
    assert ok && w1 == w.(space := s) && s1 == s;
  }

  /**
   * The condition mirrors the set's: Updating, Provisioning or Provisioned as it is, a failure with its
   * message; an update that was just made, or failed, comes first, and a set without a condition or a postponed
   * update changes nothing.
   */
  lemma MirrorsTheSet(w: World, c: Calls, reason: SetReason)
    requires CanManage(w, c) && w.space.statusTarget == w.space.targetCluster
    requires SetIn(w, w.space.targetCluster).Present? && SetIn(w, w.space.targetCluster).ready == Some(reason)
    ensures Reconciled(w, c).sets == w.sets && Reconciled(w, c).space.statusTarget == w.space.targetCluster
    ensures Reconciled(w, c).space.ready ==
            match c.existing
            case Postponed => w.space.ready
            case UpdateFails => Condition(UnableToUpdate, c.message)
            case Updated => Condition(Updating, "")
            case UpToDate =>
              match reason
              case SetUpdating => Condition(Updating, "")
              case SetProvisioning => Condition(Provisioning, "")
              case SetFailed(message) => Condition(ProvisioningFailed, message)
              case SetProvisioned =>
                if w.space.ready == Condition(Updating, "") && c.justUpdating then Condition(Updating, "")
                else Condition(Provisioned, "")
  {
    ReachesManageSet(w, c);
    var s := w.space.(stateLabel := "cluster-assigned");
    assert s.(statusTarget := s.targetCluster) == s;
    ExistingSetMirrors(w.(space := s), s, reason, c);
  }

  lemma ExistingSetMirrors(w: World, s: Space, reason: SetReason, c: Calls)
    requires s == w.space && !c.hostUpdateFails && !c.namespacesFails && !c.readyFails
    ensures ExistingSet(w, s, reason, c) == w.(space := s.(ready := ExistingSet(w, s, reason, c).space.ready))
    ensures c.existing.UpToDate? && reason.SetProvisioned?
            && !(s.ready == Condition(Updating, "") && c.justUpdating) ==>
              ExistingSet(w, s, reason, c).space.ready == Condition(Provisioned, "")
    ensures c.existing.UpToDate? && reason.SetFailed? ==>
              ExistingSet(w, s, reason, c).space.ready == Condition(ProvisioningFailed, reason.message)
  {
  }

  /** A set that has no condition yet leaves everything as it is. */
  lemma WaitsForACondition(w: World, c: Calls)
    requires CanManage(w, c) && w.sets[w.space.targetCluster] == Present(None, false)
    ensures Reconciled(w, c) == w.(space := w.space.(stateLabel := "cluster-assigned"))
  {
    ReachesManageSet(w, c);
  }

  /** A retarget says that it waits, or that the old cluster's set cannot be deleted. */
  lemma SaysRetargeting(w: World, c: Calls)
    requires !w.space.beingDeleted && w.space.finalizer && w.space.statusTarget !in {"", w.space.targetCluster}
             && !c.readyFails
    ensures var (v, old_) := (Reconciled(w, c), w.space.statusTarget);
            && (old_ !in w.sets || c.getFails ==>
                  v.space.ready == Condition(RetargetingFailed, c.message) && v.sets == w.sets)
            && (old_ in w.sets && !c.getFails && w.sets[old_].Present? && w.sets[old_].deleting ==>
                  && v.sets == w.sets
                  && v.space.ready == if c.deletionOverdue then Condition(RetargetingFailed, c.message)
                        else Condition(Retargeting, ""))
            && (old_ in w.sets && !c.getFails && IsLive(w.sets[old_]) ==>
                  if c.deleteFails then v.space.ready == Condition(RetargetingFailed, c.message) && v.sets == w.sets
                  else && v.space.ready == Condition(Retargeting, "")
                       && v.sets == w.sets[old_ := w.sets[old_].(deleting := true)])
  {
  }

  /** The announcement is written only if the Space does not carry it yet; one that fails ends the reconcile. */
  lemma AnnouncementIsWrittenOnce(w: World, c: Calls)
    requires CanManage(w, c.(provisioningFails := false)) && w.sets[w.space.targetCluster].Absent?
    ensures w.space.ready == Condition(Provisioning, "") ==>
            Reconciled(w, c) == Reconciled(w, c.(provisioningFails := false))
    ensures w.space.ready != Condition(Provisioning, "") && c.provisioningFails ==>
              Reconciled(w, c).sets == w.sets
              && Reconciled(w, c).space.ready == Condition(ProvisioningFailed, c.message)
  {
    ReachesManageSetAnyway(w, c);
    ReachesManageSetAnyway(w, c.(provisioningFails := false));
  }

  lemma ReachesManageSetAnyway(w: World, c: Calls)
    requires CanManage(w, c.(provisioningFails := false, namespacesFails := false))
    ensures var s := w.space.(stateLabel := "cluster-assigned");
            Reconciled(w, c) == ManageSet(w.(space := s), s.(statusTarget := s.targetCluster), c)
  {
    var s := w.space.(stateLabel := "cluster-assigned");
    var (w1, s1, ok) := Labelled(w, w.space, "cluster-assigned", c);
    assert ok && w1 == w.(space := s) && s1 == s;
  }

  /** The list of namespaces is written only if it changed; if that fails the Space is not called provisioned. */
  lemma NamespacesComeFirst(w: World, c: Calls)
    requires CanManage(w, c.(namespacesFails := false)) && w.space.statusTarget == w.space.targetCluster
    requires SetIn(w, w.space.targetCluster).Present? && SetIn(w, w.space.targetCluster).ready == Some(SetProvisioned)
    requires c.existing.UpToDate? && w.space.ready != Condition(Updating, "")
    ensures Reconciled(w, c).space.ready
            == if c.namespacesChanged && c.namespacesFails then w.space.ready else Condition(Provisioned, "")
  {
    ReachesManageSetAnyway(w, c);
    var s := w.space.(stateLabel := "cluster-assigned");
    assert s.(statusTarget := s.targetCluster) == s;
  }
}
