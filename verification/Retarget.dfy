/**
 * One Space moving between member clusters: the stored Space, the NSTemplateSet in each member
 * cluster, and what one reconcile of the Space controller does to them.
 */
module Retarget {
  import opened Base

  // ---------- Stored objects ----------

  datatype Reason =
    | Pending | ProvisioningFailed | Provisioning | Provisioned | Updating
    | Retargeting | RetargetingFailed | Terminating | TerminatingFailed
    | UnableToCreate | UnableToUpdate

  /** The Ready condition of a Space; the status is True exactly for reason Provisioned. */
  datatype Ready = NoCondition | Condition(reason: Reason, message: string)

  datatype SetReason = SetProvisioning | SetProvisioned | SetUpdating | SetFailed(message: string)

  /** The Space's NSTemplateSet in one member cluster. */
  datatype SetState = Absent | Present(ready: Option<SetReason>, deleting: bool)

  datatype Space = Space(targetCluster: string, tierName: string, stateLabel: string, beingDeleted: bool,
                         finalizer: bool, statusTarget: string, ready: Ready)

  /** `sets` has one key per known member cluster; `counted` is this Space's share of the space counters. */
  datatype World = World(space: Space, sets: map<string, SetState>, counted: map<string, int>)

  // ---------- Client calls ----------

  datatype ExistingSetOutcome = UpToDate | Postponed | Updated | UpdateFails

  /**
   * How the calls of one reconcile end; `message` is the text of whichever error occurs. Four writes of the
   * status can fail: clearing the target, the condition before a creation, the namespaces, and the condition a
   * reconcile ends with.
   */
  datatype Calls = Calls(finalizerFails: bool, hostUpdateFails: bool, tierFound: bool, revisionsValid: bool,
                         getFails: bool, deleteFails: bool, createFails: bool, deletionOverdue: bool,
                         existing: ExistingSetOutcome, justUpdating: bool, namespacesChanged: bool,
                         clearFails: bool, provisioningFails: bool, namespacesFails: bool, readyFails: bool,
                         message: string)

  function SetIn(w: World, cluster: string): SetState {
    if cluster in w.sets then w.sets[cluster] else Absent
  }

  function CountIn(w: World, cluster: string): int {
    if cluster in w.counted then w.counted[cluster] else 0
  }

  /** `Status().Update`: only the status part is stored. */
  function StoreStatus(w: World, s: Space): World {
    w.(space := w.space.(statusTarget := s.statusTarget, ready := s.ready))
  }

  /** `Update`: labels, spec and finalizers are stored, and the status in memory is replaced by the stored one. */
  function StoreObject(w: World, s: Space): (World, Space) {
    var stored := s.(statusTarget := w.space.statusTarget, ready := w.space.ready);
    (w.(space := stored), stored)
  }

  const PROVISIONING := Condition(Provisioning, "")

  /** The status is written only when the condition changes. */
  function SetReady(w: World, s: Space, c: Ready, fails: bool): World {
    if s.ready == c || fails then w else StoreStatus(w, s.(ready := c))
  }

  // ---------- Deleting an NSTemplateSet ----------

  datatype Deletion = DeletionFailed | BeingDeleted | Gone

  function DeleteFrom(w: World, s: Space, cluster: string, c: Calls): (World, Deletion) {
    if cluster !in w.sets then (w, DeletionFailed)
    else if c.getFails then (w, DeletionFailed)
    else if w.sets[cluster].Absent? then (w, Gone)
    else if w.sets[cluster].deleting then (w, if c.deletionOverdue then DeletionFailed else BeingDeleted)
    else if c.deleteFails then (w, DeletionFailed)
    else (w.(sets := w.sets[cluster := w.sets[cluster].(deleting := true)],
        counted := w.counted[s.statusTarget := CountIn(w, s.statusTarget) - 1]), BeingDeleted)
  }

  // ---------- Reconciling ----------

  /** Set the state label, then go on unless the update fails. */
  function Labelled(w: World, s: Space, state: string, c: Calls): (World, Space, bool) {
    if s.stateLabel == state then (w, s, true)
    else if c.hostUpdateFails
        then (SetReady(w, s.(stateLabel := state), Condition(ProvisioningFailed, c.message), c.readyFails), s, false)
    else
      var (w', s') := StoreObject(w, s.(stateLabel := state));
      (w', s', true)
  }

  function EnsureSet(w: World, s: Space, c: Calls): World {
    if s.statusTarget != "" && s.targetCluster != s.statusTarget then
      var (w1, deletion) := DeleteFrom(w, s, s.statusTarget, c);
      match deletion
      case DeletionFailed => SetReady(w1, s, Condition(RetargetingFailed, c.message), c.readyFails)
      case BeingDeleted => SetReady(w1, s, Condition(Retargeting, ""), c.readyFails)
      case Gone =>
        var s1 := s.(statusTarget := "");
        if c.clearFails then w1 else Provision(StoreStatus(w1, s1), s1, c)
    else
      Provision(w, s, c)
  }

  function Provision(w: World, s: Space, c: Calls): World {
    if s.tierName == "" then
      var (w1, s1, ok) := Labelled(w, s, "pending", c);
      if ok then SetReady(w1, s1, Condition(Pending, "unspecified tier name"), c.readyFails) else w1
    else if s.targetCluster == "" then
      var (w1, s1, ok) := Labelled(w, s, "pending", c);
      if ok then SetReady(w1, s1, Condition(Pending, "unspecified target member cluster"), c.readyFails) else w1
    else
      var (w1, s1, ok) := Labelled(w, s, "cluster-assigned", c);
      if !ok then w1
      else if s1.targetCluster !in w1.sets
          then SetReady(w1, s1, Condition(ProvisioningFailed, "unknown target member cluster"), c.readyFails)
      else if !c.tierFound then SetReady(w1, s1, Condition(ProvisioningFailed, c.message), c.readyFails)
      else if !c.revisionsValid then w1
      else ManageSet(w1, s1.(statusTarget := s1.targetCluster), c)
  }

  /** The target cluster is known, and `s.statusTarget` names it in memory only. */
  function ManageSet(w: World, s: Space, c: Calls): World {
    if c.getFails then SetReady(w, s, Condition(UnableToCreate, c.message), c.readyFails)
    else
      match SetIn(w, s.targetCluster)
      case Absent =>
        var s1 := s.(ready := PROVISIONING);
        if s.ready != PROVISIONING && c.provisioningFails then
          SetReady(w, s1, Condition(ProvisioningFailed, c.message), c.readyFails)
        else
          var w1 := SetReady(w, s, PROVISIONING, false);
          if c.createFails then SetReady(w1, s1, Condition(UnableToCreate, c.message), c.readyFails)
          else w1.(sets := w1.sets[s.targetCluster := Present(None, false)],
                   counted := w1.counted[s.targetCluster := CountIn(w1, s.targetCluster) + 1])
      case Present(ready, _) => if ready.None? then w else ExistingSet(w, s, ready.value, c)
  }

  function ExistingSet(w: World, s: Space, ready: SetReason, c: Calls): World {
    match c.existing
    case Postponed => w
    case UpdateFails => SetReady(w, s, Condition(UnableToUpdate, c.message), c.readyFails)
    case Updated => SetReady(w, s, Condition(Updating, ""), c.readyFails)
    case UpToDate =>
      match ready
      case SetUpdating => SetReady(w, s, Condition(Updating, ""), c.readyFails)
      case SetProvisioning => SetReady(w, s, PROVISIONING, c.readyFails)
      case SetFailed(message) => SetReady(w, s, Condition(ProvisioningFailed, message), c.readyFails)
      case SetProvisioned =>
        if s.ready == Condition(Updating, "") && c.justUpdating then w
        else if c.hostUpdateFails then SetReady(w, s, Condition(ProvisioningFailed, c.message), c.readyFails)
        else
          var (w1, s1) := StoreObject(w, s);
          if c.namespacesChanged && c.namespacesFails then w1
          else
            var w2 := if c.namespacesChanged then StoreStatus(w1, s1) else w1;
            SetReady(w2, s1, Condition(Provisioned, ""), c.readyFails)
  }

  function EnsureSpaceDeletion(w: World, s: Space, c: Calls): World {
    var target := if s.targetCluster != "" then s.targetCluster else s.statusTarget;
    if target == "" then RemoveFinalizer(w, s, c)
    else
      var (w1, deletion) := DeleteFrom(w, s, target, c);
      match deletion
      case DeletionFailed =>
        if s.statusTarget != "" then SetReady(w1, s, Condition(TerminatingFailed, c.message), c.readyFails)
            else RemoveFinalizer(w1, s, c)
      case BeingDeleted => SetReady(w1, s, Condition(Terminating, ""), c.readyFails)
      case Gone => RemoveFinalizer(w1, s, c)
  }

  function RemoveFinalizer(w: World, s: Space, c: Calls): World {
    if c.hostUpdateFails then SetReady(w, s, Condition(TerminatingFailed, c.message), c.readyFails)
    else StoreObject(w, s.(finalizer := false)).0
  }

  /** A Space being deleted disappears with its finalizer; from then on nothing reconciles it. */
  predicate SpaceGone(w: World) {
    w.space.beingDeleted && !w.space.finalizer
  }

  function Reconciled(w: World, c: Calls): World {
    if SpaceGone(w) then w
    else if w.space.beingDeleted then EnsureSpaceDeletion(w, w.space, c)
    else if w.space.finalizer then EnsureSet(w, w.space, c)
    else if c.finalizerFails then w
    else
      var (w1, s1) := StoreObject(w, w.space.(finalizer := true));
      EnsureSet(w1, s1, c)
  }

  // ---------- Events ----------

  datatype Event =
    | Reconcile(calls: Calls)
    | EditTarget(cluster: string)
    | EditTier(tierName: string)
    | RequestDeletion
    | SetProgress(cluster: string, ready: SetReason)
    | SetRemoved(cluster: string)

  function Next(w: World, e: Event): World {
    match e
    case Reconcile(c) => Reconciled(w, c)
    case EditTarget(cluster) => w.(space := w.space.(targetCluster := cluster))
    case EditTier(tierName) => w.(space := w.space.(tierName := tierName))
    case RequestDeletion => w.(space := w.space.(beingDeleted := true))
    case SetProgress(cluster, ready) =>
      if SetIn(w, cluster).Present? then w.(sets := w.sets[cluster := SetIn(w, cluster).(ready := Some(ready))]) else w
    case SetRemoved(cluster) =>
      if SetIn(w, cluster).Present? && SetIn(w, cluster).deleting then w.(sets := w.sets[cluster := Absent]) else w
  }

  /**
   * The target is not set back to a cluster whose NSTemplateSet is on its way out, unless the Space is going
   * altogether; and no reconcile strands the Space.
   */
  predicate Allowed(w: World, e: Event) {
    && (e.EditTarget? ==> w.space.beingDeleted || !(SetIn(w, e.cluster).Present? && SetIn(w, e.cluster).deleting))
    && (e.Reconcile? ==> !Strands(w, e.calls))
  }

  /**
   * The reconcile leaves reason Provisioning stored with no live set behind it, because its last write fails: that of
   * reason Retargeting right after deleting the set, or that of a failed creation right after announcing it.
   */
  predicate Strands(w: World, c: Calls) {
    && !w.space.beingDeleted && (w.space.finalizer || !c.finalizerFails) && c.readyFails && !c.getFails
    && ((w.space.ready == PROVISIONING && DeletesNow(w, c))
          || (c.createFails && !c.provisioningFails && CreatesNow(w, c)))
  }

  /** A retarget that deletes the set on the old cluster. */
  predicate DeletesNow(w: World, c: Calls) {
    && w.space.statusTarget !in {"", w.space.targetCluster} && IsLive(SetIn(w, w.space.statusTarget)) && !c.deleteFails
  }

  /** Everything is ready for a creation on the target, and nothing has to be deleted before. */
  predicate CreatesNow(w: World, c: Calls) {
    && w.space.tierName != "" && w.space.targetCluster != "" && w.space.targetCluster in w.sets
    && SetIn(w, w.space.targetCluster).Absent? && c.tierFound && c.revisionsValid
    && (w.space.stateLabel == "cluster-assigned" || !c.hostUpdateFails)
    && (w.space.statusTarget in {"", w.space.targetCluster}
        || (w.space.statusTarget in w.sets && w.sets[w.space.statusTarget].Absent? && !c.clearFails))
  }

  ghost predicate AllowedRun(w: World, events: seq<Event>)
    decreases |events|
  {
    events == [] || (Allowed(w, events[0]) && AllowedRun(Next(w, events[0]), events[1..]))
  }

  function Run(w: World, events: seq<Event>): World
    decreases |events|
  {
    if events == [] then w else Run(Next(w, events[0]), events[1..])
  }

  // ---------- Safety ----------

  predicate IsFresh(w: World) {
    && "" !in w.sets
    && w.space.statusTarget == "" && w.space.ready == NoCondition
    && (forall c | c in w.sets :: w.sets[c] == Absent)
    && w.counted == map[]
  }

  predicate IsLive(t: SetState) {
    t.Present? && !t.deleting
  }

  /**
   * Only the cluster named by the stored `status.targetCluster` may hold an NSTemplateSet, and the counters
   * count the live one.
   */
  ghost predicate OneSet(w: World) {
    && (forall c | c in w.sets && w.sets[c].Present? :: c == w.space.statusTarget)
    && (forall c | c in w.sets && IsLive(w.sets[c]) :: c in w.counted)
    && (forall c | c in w.counted :: w.counted[c] == if c in w.sets && IsLive(w.sets[c]) then 1 else 0)
  }

  /**
   * The inductive invariant. An empty stored status target never goes with reason Provisioning:
   * that reason is stored only together with the target of an NSTemplateSet that is then created.
   */
  ghost predicate Inv(w: World) {
    && "" !in w.sets
    && OneSet(w)
    && (w.space.ready == PROVISIONING && !w.space.beingDeleted ==> IsLive(SetIn(w, w.space.statusTarget)))
    && (forall c | c in w.sets && w.sets[c].Present? && w.sets[c].deleting :: w.space.beingDeleted
          || w.space.targetCluster != c)
  }

  /** Storing a condition keeps the invariant if the target stored with it fits the sets. */
  lemma SetReadyKeepsInv(w: World, s: Space, c: Ready, fails: bool)
    requires Inv(w) && s.ready == w.space.ready
    requires forall k | k in w.sets && w.sets[k].Present? :: k == s.statusTarget
    requires c == PROVISIONING ==> IsLive(SetIn(w, s.statusTarget))
    ensures Inv(SetReady(w, s, c, fails))
  {
  }

  lemma LabelledKeepsInv(w: World, s: Space, state: string, c: Calls)
    requires Inv(w) && s == w.space
    ensures var (w1, s1, ok) := Labelled(w, s, state, c);
            Inv(w1) && (ok ==> s1 == w1.space == s.(stateLabel := state) && w1.sets == w.sets)
    ensures Labelled(w, s, state, c).2 <==> s.stateLabel == state || !c.hostUpdateFails
  {
    SetReadyKeepsInv(w, s.(stateLabel := state), Condition(ProvisioningFailed, c.message), c.readyFails);
  }

  lemma ExistingSetKeepsInv(w: World, s: Space, ready: SetReason, c: Calls)
    requires Inv(w) && s == w.space && !s.beingDeleted
    requires s.targetCluster == s.statusTarget && SetIn(w, s.targetCluster).Present?
    ensures Inv(ExistingSet(w, s, ready, c))
  {
    SetReadyKeepsInv(w, s, Condition(UnableToUpdate, c.message), c.readyFails);
    SetReadyKeepsInv(w, s, Condition(Updating, ""), c.readyFails);
    if c.existing.UpToDate? {
      UpToDateSetKeepsInv(w, s, ready, c);
    }
  }

  lemma UpToDateSetKeepsInv(w: World, s: Space, ready: SetReason, c: Calls)
    requires Inv(w) && s == w.space && !s.beingDeleted && c.existing.UpToDate?
    requires s.targetCluster == s.statusTarget && SetIn(w, s.targetCluster).Present?
    ensures Inv(ExistingSet(w, s, ready, c))
  {
    match ready
    case SetUpdating => SetReadyKeepsInv(w, s, Condition(Updating, ""), c.readyFails);
    case SetProvisioning => SetReadyKeepsInv(w, s, PROVISIONING, c.readyFails);
    case SetFailed(message) => SetReadyKeepsInv(w, s, Condition(ProvisioningFailed, message), c.readyFails);
    case SetProvisioned =>
      SetReadyKeepsInv(w, s, Condition(ProvisioningFailed, c.message), c.readyFails);
      SetReadyKeepsInv(w, s, Condition(Provisioned, ""), c.readyFails);
      assert StoreObject(w, s) == (w, s) && StoreStatus(w, s) == w;
  }

  lemma ManageSetKeepsInv(w: World, s: Space, c: Calls)
    requires Inv(w) && !s.beingDeleted && s.targetCluster in w.sets
    requires s == w.space.(statusTarget := w.space.targetCluster)
    requires w.space.statusTarget == "" || w.space.statusTarget == w.space.targetCluster
    ensures Inv(ManageSet(w, s, c)) <==>
            !(SetIn(w, s.targetCluster).Absent? && !c.getFails && c.createFails && !c.provisioningFails && c.readyFails)
  {
    if c.getFails {
      SetReadyKeepsInv(w, s, Condition(UnableToCreate, c.message), c.readyFails);
    } else if SetIn(w, s.targetCluster).Present? {
      assert s == w.space;
      var ready := SetIn(w, s.targetCluster).ready;
      if ready.Some? {
        ExistingSetKeepsInv(w, s, ready.value, c);
      }
    } else {
      CreateKeepsInv(w, s, c);
    }
  }

  lemma CreateKeepsInv(w: World, s: Space, c: Calls)
    requires Inv(w) && !s.beingDeleted && s.targetCluster in w.sets && !c.getFails
    requires s == w.space.(statusTarget := w.space.targetCluster)
    requires w.space.statusTarget == "" || w.space.statusTarget == w.space.targetCluster
    requires SetIn(w, s.targetCluster).Absent?
    ensures Inv(ManageSet(w, s, c)) <==> !(c.createFails && !c.provisioningFails && c.readyFails)
  {
    assert forall k | k in w.sets :: w.sets[k].Absent?;
    assert w.space.ready != PROVISIONING;
    var w1 := StoreStatus(w, s.(ready := PROVISIONING));
    assert SetReady(w, s, PROVISIONING, false) == w1;
    if c.provisioningFails {
      assert ManageSet(w, s, c)
          == SetReady(w, s.(ready := PROVISIONING), Condition(ProvisioningFailed, c.message), c.readyFails);
    } else if c.createFails {
      assert ManageSet(w, s, c)
          == if c.readyFails then w1 else StoreStatus(w1, s.(ready := Condition(UnableToCreate, c.message)));
    } else {
      assert ManageSet(w, s, c) == w1.(sets := w.sets[s.targetCluster := Present(None, false)],
                                       counted := w.counted[s.targetCluster := CountIn(w, s.targetCluster) + 1]);
    }
  }

  /** Whether the creation on the target is reached, with nothing left on another cluster. */
  predicate ReachesCreation(w: World, c: Calls) {
    && w.space.tierName != "" && w.space.targetCluster != "" && w.space.targetCluster in w.sets
    && SetIn(w, w.space.targetCluster).Absent? && c.tierFound && c.revisionsValid && !c.getFails
    && (w.space.stateLabel == "cluster-assigned" || !c.hostUpdateFails)
  }

  lemma ProvisionKeepsInv(w: World, s: Space, c: Calls)
    requires Inv(w) && s == w.space && !s.beingDeleted
    requires s.statusTarget == "" || s.statusTarget == s.targetCluster
    ensures Inv(Provision(w, s, c)) <==>
            !(ReachesCreation(w, c) && c.createFails && !c.provisioningFails && c.readyFails)
  {
    if s.tierName == "" || s.targetCluster == "" {
      LabelledKeepsInv(w, s, "pending", c);
      var (w1, s1, ok) := Labelled(w, s, "pending", c);
      if ok {
        SetReadyKeepsInv(w1, s1, Condition(Pending, "unspecified tier name"), c.readyFails);
        SetReadyKeepsInv(w1, s1, Condition(Pending, "unspecified target member cluster"), c.readyFails);
      }
    } else {
      AssignedKeepsInv(w, s, c);
    }
  }

  lemma AssignedKeepsInv(w: World, s: Space, c: Calls)
    requires Inv(w) && s == w.space && !s.beingDeleted && s.tierName != "" && s.targetCluster != ""
    requires s.statusTarget == "" || s.statusTarget == s.targetCluster
    ensures Inv(Provision(w, s, c)) <==>
            !(ReachesCreation(w, c) && c.createFails && !c.provisioningFails && c.readyFails)
  {
    LabelledKeepsInv(w, s, "cluster-assigned", c);
    var (w1, s1, ok) := Labelled(w, s, "cluster-assigned", c);
    if ok {
      if s1.targetCluster !in w1.sets {
        SetReadyKeepsInv(w1, s1, Condition(ProvisioningFailed, "unknown target member cluster"), c.readyFails);
      } else if !c.tierFound {
        SetReadyKeepsInv(w1, s1, Condition(ProvisioningFailed, c.message), c.readyFails);
      } else {
        ManageSetKeepsInv(w1, s1.(statusTarget := s1.targetCluster), c);
      }
    }
  }

  /** A retarget, or a reconcile on the cluster the Space is on. */
  lemma EnsureSetKeepsInv(w: World, s: Space, c: Calls)
    requires Inv(w) && s == w.space && !s.beingDeleted && s.finalizer
    ensures Inv(EnsureSet(w, s, c)) <==> !Strands(w, c)
  {
    if s.statusTarget != "" && s.targetCluster != s.statusTarget {
      var (w1, deletion) := DeleteFrom(w, s, s.statusTarget, c);
      if deletion.Gone? {
        AfterGoneKeepsInv(w, s, c);
      } else {
        DeletionKeepsInv(w, s, s.statusTarget, c, if deletion.BeingDeleted? then Condition(Retargeting, "")
            else Condition(RetargetingFailed, c.message));
      }
    } else {
      ProvisionKeepsInv(w, s, c);
    }
  }

  lemma AfterGoneKeepsInv(w: World, s: Space, c: Calls)
    requires Inv(w) && s == w.space && !s.beingDeleted && s.finalizer
    requires s.statusTarget != "" && s.targetCluster != s.statusTarget && DeleteFrom(w, s, s.statusTarget, c).1.Gone?
    ensures Inv(EnsureSet(w, s, c)) <==> !Strands(w, c)
  {
    assert forall k | k in w.sets :: w.sets[k].Absent?;
    var s1 := s.(statusTarget := "");
    var w1 := StoreStatus(w, s1);
    ProvisionKeepsInv(w1, s1, c);
    assert ReachesCreation(w1, c) && !c.clearFails <==> CreatesNow(w, c) && !c.getFails;
  }

  /** Starting or awaiting the deletion of the set, and storing a condition other than Provisioning. */
  lemma DeletionKeepsInv(w: World, s: Space, cluster: string, c: Calls, ready: Ready)
    requires Inv(w) && s == w.space && ready != PROVISIONING
    requires cluster == s.statusTarget || cluster == s.targetCluster
    requires s.beingDeleted || s.targetCluster != cluster
    ensures Inv(SetReady(DeleteFrom(w, s, cluster, c).0, s, ready, c.readyFails)) <==>
            !(DeleteFrom(w, s, cluster, c).0 != w && c.readyFails && s.ready == PROVISIONING && !s.beingDeleted)
  {
    var (w1, deletion) := DeleteFrom(w, s, cluster, c);
    if w1 == w {
      SetReadyKeepsInv(w, s, ready, c.readyFails);
    } else {
      assert cluster == s.statusTarget;
      assert w1 == w.(sets := w.sets[cluster := w.sets[cluster].(deleting := true)],
          counted := w.counted[cluster := 0]);
      assert OneSet(SetReady(w1, s, ready, c.readyFails));
    }
  }

  lemma RemoveFinalizerKeepsInv(w: World, s: Space, c: Calls)
    requires Inv(w) && s == w.space
    ensures Inv(RemoveFinalizer(w, s, c))
  {
    SetReadyKeepsInv(w, s, Condition(TerminatingFailed, c.message), c.readyFails);
    assert StoreObject(w, s.(finalizer := false)).0 == w.(space := s.(finalizer := false));
  }

  lemma EnsureSpaceDeletionKeepsInv(w: World, s: Space, c: Calls)
    requires Inv(w) && s == w.space && s.beingDeleted
    ensures Inv(EnsureSpaceDeletion(w, s, c))
  {
    RemoveFinalizerKeepsInv(w, s, c);
    var target := if s.targetCluster != "" then s.targetCluster else s.statusTarget;
    if target != "" {
      var (w1, deletion) := DeleteFrom(w, s, target, c);
      if deletion.BeingDeleted? {
        DeletionKeepsInv(w, s, target, c, Condition(Terminating, ""));
      } else {
        assert w1 == w;
        SetReadyKeepsInv(w, s, Condition(TerminatingFailed, c.message), c.readyFails);
      }
    }
  }

  /** A reconcile, whatever fails in it, keeps the invariant if and only if it does not strand the Space. */
  lemma ReconcileKeepsInvExactly(w: World, c: Calls)
    requires Inv(w)
    ensures Inv(Reconciled(w, c)) <==> !Strands(w, c)
  {
    if w.space.beingDeleted {
      EnsureSpaceDeletionKeepsInv(w, w.space, c);
    } else if w.space.finalizer {
      EnsureSetKeepsInv(w, w.space, c);
    } else {
      var w1 := StoreObject(w, w.space.(finalizer := true)).0;
      assert w1 == w.(space := w.space.(finalizer := true)) && Inv(w1);
      EnsureSetKeepsInv(w1, w1.space, c);
    }
  }

  lemma EventKeepsInv(w: World, e: Event)
    requires Inv(w) && Allowed(w, e)
    ensures Inv(Next(w, e))
  {
    match e
    case Reconcile(c) => ReconcileKeepsInvExactly(w, c);
    case EditTarget(_) =>
    case EditTier(_) =>
    case RequestDeletion =>
    case SetProgress(_, _) =>
    case SetRemoved(_) =>
  }

  lemma {:induction false} RunKeepsInv(w: World, events: seq<Event>)
    requires Inv(w) && AllowedRun(w, events)
    ensures Inv(Run(w, events))
    decreases |events|
  {
    if events != [] {
      EventKeepsInv(w, events[0]);
      RunKeepsInv(Next(w, events[0]), events[1..]);
    }
  }

  /**
   * In every allowed run from a fresh Space, whatever calls fail, at most one member cluster holds the
   * NSTemplateSet, the stored status names it, and the space counters agree with what is live.
   */
  lemma RunKeepsOneSet(w: World, events: seq<Event>)
    requires IsFresh(w) && AllowedRun(w, events)
    ensures OneSet(Run(w, events)) && !TwoSets(Run(w, events))
  {
    assert Inv(w);
    RunKeepsInv(w, events);
  }

  ghost predicate TwoSets(w: World) {
    exists c, d :: c != d && SetIn(w, c).Present? && SetIn(w, d).Present?
  }

  // ---------- The guard is exact ----------

  /** A reconcile whose calls all succeed and that finds an existing NSTemplateSet up to date. */
  const CALM: Calls := Calls(false, false, true, true, false, false, false, false, UpToDate, false, false,
                             false, false, false, false, "")

  const GO := Reconcile(CALM)

  lemma {:induction false} RunAppend(w: World, first: seq<Event>, second: seq<Event>)
    ensures Run(w, first + second) == Run(Run(w, first), second)
    ensures AllowedRun(w, first + second) <==> AllowedRun(w, first) && AllowedRun(Run(w, first), second)
    decreases |first|
  {
    if first == [] {
      assert first + second == second;
    } else {
      assert (first + second)[1..] == first[1..] + second;
      RunAppend(Next(w, first[0]), first[1..], second);
    }
  }

  lemma RunThree(w: World, a: Event, b: Event, c: Event)
    ensures Run(w, [a, b, c]) == Next(Next(Next(w, a), b), c)
    ensures AllowedRun(w, [a, b, c]) <==> Allowed(w, a) && Allowed(Next(w, a), b) && Allowed(Next(Next(w, a), b), c)
  {
    assert [a, b, c][1..] == [b, c] && [b, c][1..] == [c];
    assert Run(Next(Next(w, a), b), [c]) == Next(Next(Next(w, a), b), c);
    assert AllowedRun(Next(Next(w, a), b), [c]) == Allowed(Next(Next(w, a), b), c);
  }

  /** A Space ready to be provisioned on `target`, with the label that provisioning sets. */
  predicate IsBound(w: World, target: string, statusTarget: string, ready: Ready) {
    && w.space.targetCluster == target && w.space.statusTarget == statusTarget && w.space.ready == ready
    && !w.space.beingDeleted && w.space.finalizer && w.space.tierName != "" && w.space.stateLabel == "cluster-assigned"
  }

  /** A reconcile with the set present and reporting that it is provisioning. */
  lemma SaysProvisioning(w: World, c: string)
    requires "" !in w.sets && c in w.sets && w.sets[c].Present? && w.sets[c].ready == Some(SetProvisioning)
    requires w.space.statusTarget == w.space.targetCluster == c && !w.space.beingDeleted && w.space.tierName != ""
    ensures IsBound(Next(w, GO), c, c, PROVISIONING) && Next(w, GO).sets == w.sets
  {
    var s := w.space.(finalizer := true);
    var w1 := w.(space := s);
    assert Next(w, GO) == EnsureSet(w1, s, CALM);
    var (w2, s2, ok) := Labelled(w1, s, "cluster-assigned", CALM);
    assert ok && w2.sets == w.sets && s2 == s.(stateLabel := "cluster-assigned") && w2.space == s2;
    assert EnsureSet(w1, s, CALM) == ManageSet(w2, s2.(statusTarget := c), CALM);
  }

  /** Back on `c`, whose set reports that it is provisioning although it is on its way out: the Space says so too. */
  lemma BackToVacated(w: World, c: string)
    requires "" !in w.sets && c in w.sets && w.sets[c].Present? && w.space.statusTarget == w.space.targetCluster == c
    requires !w.space.beingDeleted
    ensures var events := [EditTier("base"), SetProgress(c, SetProvisioning), GO];
            && AllowedRun(w, events)
            && IsBound(Run(w, events), c, c, PROVISIONING)
            && Run(w, events).sets == w.sets[c := w.sets[c].(ready := Some(SetProvisioning))]
  {
    RunThree(w, EditTier("base"), SetProgress(c, SetProvisioning), GO);
    var w2 := Next(Next(w, EditTier("base")), SetProgress(c, SetProvisioning));
    assert w2.sets[c] == Present(Some(SetProvisioning), w.sets[c].deleting) && w2.space == w.space.(tierName := "base");
    SaysProvisioning(w2, c);
  }

  /** Reason Provisioning is stored for a cluster without a live set, and no other has one. */
  ghost predicate IsStranded(w: World, c: string) {
    && "" !in w.sets && c in w.sets && w.space.statusTarget == c && w.space.ready == PROVISIONING
    && !w.space.beingDeleted
    && !IsLive(w.sets[c]) && forall k | k in w.sets && k != c :: w.sets[k].Absent?
  }

  /**
   * Once the set on `c` is gone, the target is cleared and, on `d`, not stored again: the condition is
   * Provisioning already.
   */
  lemma ProvisionsUnseen(w: World, c: string, d: string)
    requires IsStranded(w, c) && w.sets[c].Absent? && d in w.sets && d != c && w.space.targetCluster == d
             && w.space.tierName != ""
    ensures IsBound(Next(w, GO), d, "", PROVISIONING) && Next(w, GO).sets == w.sets[d := Present(None, false)]
  {
    var s := w.space.(finalizer := true);
    var w1 := w.(space := s);
    assert Next(w, GO) == EnsureSet(w1, s, CALM);
    var s1 := s.(statusTarget := "");
    var w2 := StoreStatus(w1, s1);
    assert EnsureSet(w1, s, CALM) == Provision(w2, s1, CALM);
    var (w3, s3, ok) := Labelled(w2, s1, "cluster-assigned", CALM);
    assert ok && w3.sets == w.sets && s3 == s1.(stateLabel := "cluster-assigned") && w3.space == s3;
    assert Provision(w2, s1, CALM) == ManageSet(w3, s3.(statusTarget := d), CALM);
  }

  lemma OnToOther(w: World, c: string, d: string)
    requires IsStranded(w, c) && d in w.sets && d != c
    ensures var events := [EditTier("base"), SetRemoved(c), EditTarget(d)];
            && AllowedRun(w, events) && IsStranded(Run(w, events), c) && Run(w, events).sets == w.sets[c := Absent]
            && Run(w, events).space.targetCluster == d && Run(w, events).space.tierName != ""
  {
    RunThree(w, EditTier("base"), SetRemoved(c), EditTarget(d));
  }

  /** With no stored target nothing is deleted on `d` when the Space goes to `c`. */
  lemma BothHaveOne(w: World, c: string, d: string)
    requires "" !in w.sets && c in w.sets && w.sets[c].Absent? && c != d && IsBound(w, d, "", PROVISIONING)
    ensures var events := [EditTarget(c), GO, EditTier("base")];
            && AllowedRun(w, events) && Run(w, events).sets == w.sets[c := Present(None, false)]
  {
    RunThree(w, EditTarget(c), GO, EditTier("base"));
    assert IsBound(Next(w, EditTarget(c)), c, "", PROVISIONING);
  }

  /**
   * A stranded Space always has a way to two NSTemplateSets, with nothing but allowed events: the next retarget clears
   * the stored target without storing the new one, and the one after that skips the deletion.
   */
  lemma StrandedLeadsToTwoSets(w: World, c: string, d: string) returns (events: seq<Event>)
    requires IsStranded(w, c) && d in w.sets && d != c
    ensures AllowedRun(w, events) && TwoSets(Run(w, events))
  {
    var first, third := [EditTier("base"), SetRemoved(c), EditTarget(d)], [EditTarget(c), GO, EditTier("base")];
    OnToOther(w, c, d);
    var w1 := Run(w, first);
    ProvisionsUnseen(w1, c, d);
    var w2 := Next(w1, GO);
    BothHaveOne(w2, c, d);
    RunAppend(w1, [GO], third);
    assert Run(w1, [GO]) == w2 && AllowedRun(w1, [GO]) by {
      assert [GO][1..] == [];
      assert Run(w2, []) == w2 && AllowedRun(w2, []);
    }
    RunAppend(w, first, [GO] + third);
    events := first + ([GO] + third);
    assert SetIn(Run(w, events), c).Present? && SetIn(Run(w, events), d).Present?;
  }

  /** Setting the target back to the cluster being vacated strands the Space once its set reports progress. */
  lemma SwitchingBackLeadsToTwoSets(w: World, c: string, d: string) returns (events: seq<Event>)
    requires Inv(w) && !Allowed(w, EditTarget(c)) && d in w.sets && d != c
    ensures AllowedRun(Next(w, EditTarget(c)), events) && TwoSets(Run(Next(w, EditTarget(c)), events))
  {
    var w0 := Next(w, EditTarget(c));
    var first := [EditTier("base"), SetProgress(c, SetProvisioning), GO];
    BackToVacated(w0, c);
    var rest := StrandedLeadsToTwoSets(Run(w0, first), c, d);
    RunAppend(w0, first, rest);
    events := first + rest;
  }

  /** A stranding reconcile leaves a stranded Space. */
  lemma StrandingStrands(w: World, c: Calls)
    requires Inv(w) && Strands(w, c)
    ensures IsStranded(Reconciled(w, c), Reconciled(w, c).space.statusTarget)
  {
    var s := w.space.(finalizer := true);
    var w1 := w.(space := s);
    assert Reconciled(w, c) == EnsureSet(w1, s, c);
    if w.space.ready == PROVISIONING && DeletesNow(w, c) {
      assert EnsureSet(w1, s, c) == DeleteFrom(w1, s, s.statusTarget, c).0;
    } else {
      FailedCreationStrands(w1, s, c);
    }
  }

  lemma FailedCreationStrands(w: World, s: Space, c: Calls)
    requires Inv(w) && s == w.space && s.finalizer && !s.beingDeleted
    requires c.readyFails && !c.getFails && c.createFails && !c.provisioningFails && CreatesNow(w, c)
    ensures IsStranded(EnsureSet(w, s, c), s.targetCluster) && EnsureSet(w, s, c).space.statusTarget == s.targetCluster
  {
    assert forall k | k in w.sets :: w.sets[k].Absent?;
    var s1 := if s.statusTarget in {"", s.targetCluster} then s else s.(statusTarget := "");
    var w1 := StoreStatus(w, s1);
    assert EnsureSet(w, s, c) == Provision(w1, s1, c);
    var (w2, s2, ok) := Labelled(w1, s1, "cluster-assigned", c);
    assert ok && w2.sets == w.sets && s2 == s1.(stateLabel := "cluster-assigned") && w2.space == s2;
    assert Provision(w1, s1, c) == ManageSet(w2, s2.(statusTarget := s2.targetCluster), c);
  }

  /** However things go on, with allowed events, there is never more than one NSTemplateSet. */
  ghost predicate StaysSafe(w: World) {
    forall events | AllowedRun(w, events) :: !TwoSets(Run(w, events))
  }

  /**
   * The guard is exact: with another member cluster known, an event is allowed if and only if it keeps the
   * Space safe for good.
   */
  lemma GuardIsExact(w: World, e: Event)
    requires Inv(w) && |w.sets| > 1
    ensures Allowed(w, e) <==> StaysSafe(Next(w, e))
  {
    if Allowed(w, e) {
      EventKeepsInv(w, e);
      forall events | AllowedRun(Next(w, e), events) ensures !TwoSets(Run(Next(w, e), events)) {
        RunKeepsInv(Next(w, e), events);
      }
    } else if e.EditTarget? {
      var d := OtherCluster(w, e.cluster);
      var events := SwitchingBackLeadsToTwoSets(w, e.cluster, d);
    } else {
      StrandingStrands(w, e.calls);
      var c := Next(w, e).space.statusTarget;
      KeepsClusters(w, e.calls);
      var d := OtherCluster(Next(w, e), c);
      var events := StrandedLeadsToTwoSets(Next(w, e), c, d);
    }
  }

  lemma KeepsClusters(w: World, c: Calls)
    requires Inv(w) && Strands(w, c)
    ensures Reconciled(w, c).sets.Keys == w.sets.Keys
  {
  }

  lemma OtherCluster(w: World, c: string) returns (d: string)
    requires |w.sets| > 1
    ensures d in w.sets && d != c
  {
    var others := w.sets.Keys - {c};
    assert w.sets.Keys == if c in w.sets then others + {c} else others;
    assert others != {};
    d :| d in others;
  }

  // ---------- Deleting the Space ----------

  /**
   * A reconcile removes the finalizer of a Space whose NSTemplateSet still exists exactly when the
   * Space is caught between two clusters: its spec names a known cluster other than the one in its status.
   */
  lemma FinalizerReleasedEarly(w: World, c: Calls)
    requires Inv(w) && w.space.beingDeleted && w.space.finalizer && SetIn(w, w.space.statusTarget).Present?
    ensures !Reconciled(w, c).space.finalizer <==>
            && w.space.targetCluster !in {"", w.space.statusTarget} && w.space.targetCluster in w.sets
            && !c.getFails && !c.hostUpdateFails
  {
    var target := if w.space.targetCluster != "" then w.space.targetCluster else w.space.statusTarget;
    assert target != w.space.statusTarget && target in w.sets ==> w.sets[target].Absent?;
  }

  // ---------- Progress ----------

  /** With successful calls a retarget completes: delete, wait for the member cluster, create on the new one. */
  lemma RetargetCompletes(w: World)
    requires Inv(w) && !w.space.beingDeleted && w.space.finalizer && w.space.tierName != ""
    requires SetIn(w, w.space.statusTarget).Present? && w.space.targetCluster in w.sets
    requires w.space.targetCluster != w.space.statusTarget
    ensures var done := Run(w, [Reconcile(CALM), SetRemoved(w.space.statusTarget), Reconcile(CALM)]);
            && IsLive(SetIn(done, w.space.targetCluster)) && SetIn(done, w.space.statusTarget).Absent?
            && done.space.statusTarget == w.space.targetCluster
            && done.space.ready == PROVISIONING
  {
    var vacated := w.space.statusTarget;
    RunThree(w, GO, SetRemoved(vacated), GO);
    var w2 := Vacated(w);
    SecondReconcileProvisions(w2);
  }

  /** The world once the set on the old cluster is gone. */
  lemma Vacated(w: World) returns (w2: World)
    requires Inv(w) && !w.space.beingDeleted && w.space.finalizer
    requires SetIn(w, w.space.statusTarget).Present? && w.space.targetCluster != w.space.statusTarget
    ensures w2 == Next(Next(w, GO), SetRemoved(w.space.statusTarget)) && Inv(w2)
    ensures w2.space == w.space.(ready := Condition(Retargeting, "")) && w2.sets.Keys == w.sets.Keys
    ensures forall k | k in w2.sets :: w2.sets[k].Absent?
  {
    FirstReconcileVacates(w);
    EventKeepsInv(w, GO);
    var w1 := Next(w, GO);
    EventKeepsInv(w1, SetRemoved(w.space.statusTarget));
    w2 := w1.(sets := w1.sets[w.space.statusTarget := Absent]);
  }

  lemma FirstReconcileVacates(w: World)
    requires Inv(w) && !w.space.beingDeleted && w.space.finalizer
    requires SetIn(w, w.space.statusTarget).Present? && w.space.targetCluster != w.space.statusTarget
    ensures var w1 := Next(w, Reconcile(CALM));
            && w1.space == w.space.(ready := Condition(Retargeting, "")) && w1.sets.Keys == w.sets.Keys
            && SetIn(w1, w.space.statusTarget).Present? && SetIn(w1, w.space.statusTarget).deleting
            && forall k | k in w1.sets && k != w.space.statusTarget :: w1.sets[k].Absent?
  {
    var (w1, deletion) := DeleteFrom(w, w.space, w.space.statusTarget, CALM);
    assert deletion == BeingDeleted;
    assert Next(w, Reconcile(CALM)) == SetReady(w1, w.space, Condition(Retargeting, ""), false);
  }

  lemma SecondReconcileProvisions(w: World)
    requires Inv(w) && !w.space.beingDeleted && w.space.finalizer && w.space.tierName != ""
    requires w.space.statusTarget in w.sets && w.space.targetCluster in w.sets
             && w.space.targetCluster != w.space.statusTarget
    requires forall k | k in w.sets :: w.sets[k].Absent?
    requires w.space.ready == Condition(Retargeting, "")
    ensures var done := Next(w, Reconcile(CALM));
            && done.sets == w.sets[w.space.targetCluster := Present(None, false)]
            && done.space.statusTarget == w.space.targetCluster
            && done.space.ready == PROVISIONING
  {
    var s1 := w.space.(statusTarget := "");
    var w1 := StoreStatus(w, s1);
    var (w2, s2, ok) := Labelled(w1, s1, "cluster-assigned", CALM);
    assert ok && w2.sets == w.sets && s2 == s1.(stateLabel := "cluster-assigned") && w2.space == s2;
    assert Reconciled(w, CALM) == ManageSet(w2, s2.(statusTarget := s2.targetCluster), CALM);
  }
}
