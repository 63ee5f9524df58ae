# A verified model of the host operator's reconcilers

The host operator keeps users, Spaces and their NSTemplateSets on member clusters in step with what is asked for. It is a
set of reconcilers over a shared store of objects. This project models the parts in which several steps, several
controllers or several clusters have to fit together, and proves what holds over whole runs of them.

The store is a set of maps from names to records. A reconcile is a step on such a store; edits of specs, the end of
deletions on the members and the clock are steps of their own. Which client calls fail is a parameter of each step, so
the results hold for every pattern of failures unless the table or the last section says otherwise. For each component
the controller is also written as it runs, as a class whose methods update the store or their own fields, and each such
method is proved equal to the step that the protocol's proof uses.

| files | component |
|---|---|
| `Capacity`, `CapacityRuns`, `CapacityFairness` | which member cluster a new Space goes to, and what that means over runs in which Spaces are counted later |
| `Retarget`, `RetargetProgress`, `RetargetController` | one Space moving between member clusters, and its deletion |
| `TemplateSetSpec`, `SpaceUpdate` | the spec of an NSTemplateSet, when it is updated, and the pacing of updates |
| `Tiers`, `TierRevisions` | template refs and revisions of a tier |
| `RevisionCleanup`, `RevisionCleanupSafety`, `RevisionCleanupGuard`, `RevisionCleanupEdits`, `RevisionCleanupLabels`, `RevisionCleanupProgress`, `RevisionCleanupController` | collecting unused revisions: a protocol of three controllers, the edits it survives, the Spaces it protects, and that it does collect |
| `Deactivation`, `DeactivationEffects`, `DeactivationProgress`, `DeactivationController` | automatic deactivation: never early, and not forgotten |
| `NameSearch`, `SubSpaces` | bounded searches for names, and the tree of sub-spaces |
| `SpaceCounter`, `ActivationGauges`, `PendingQueue` | indexes that have to agree with a recount |
| `MurStatus`, `MurControl`, `MurEffects`, `MurRuns`, `MurProgress`, `MurController` | MasterUserRecords (MURs), their UserAccounts and their finalizer |
| `Bindings`, `BindingRuns`, `BindingController` | SpaceBindings made by two controllers |
| `MemberMerge` | the list of member clusters in the ToolchainStatus |
| `Base`, `Strings` | options and results, string order, decimal numbers |

## What the code does not give

Where a property one would expect fails, the project proves the exact condition under which it holds.

- The scheduler sees the Spaces counted on a cluster, not those already assigned to it whose NSTemplateSet is still to be
  created. With d + 1 of them a cluster can get d Spaces more than its threshold and no more
  (`CapacityRuns.OverCommitmentIsReached`, `CapacityRuns.OverCommitmentIsBounded`). A pick keeps the threshold for good
  exactly when counted and uncounted Spaces together are below it (`CapacityRuns.PickGuardIsExact`).
- Its fairness needs each Space to be counted before the next is assigned (`CapacityFairness.Fairness`). With two at a time
  picks can skip the end of every batch, and all Spaces go to one of two equal clusters
  (`CapacityFairness.TwoAtATimeIsUnfair`).
- A Space that is deleted while it is caught between two clusters loses its finalizer although its NSTemplateSet still
  exists on the old one, because `deleteNSTemplateSet` prefers the target of the spec (`Retarget.FinalizerReleasedEarly`).
- Two things open a way to an NSTemplateSet on two clusters, and nothing else does (`Retarget.GuardIsExact`). One is setting
  the target of a Space that is not being deleted back to the cluster it is just leaving
  (`Retarget.SwitchingBackLeadsToTwoSets`). The other is a reconcile whose last status write fails so that reason
  Provisioning stays stored with no live set behind it: that of Retargeting right after the deletion of the set, or that of
  a failed creation (`Retarget.ReconcileKeepsInvExactly`, `Retarget.StrandedLeadsToTwoSets`).
- The cleanup looks only at Spaces that carry the tier's hash label, which a Space gets when it is first provisioned on the
  tier. A revision that any other Space uses, such as one still being provisioned, can be collected after a change of the
  templates' contents alone (`RevisionCleanupLabels.UnlabelledIsTaken`); the label is the exact protection
  (`RevisionCleanupLabels.LabelIsExactProtection`).
- Even of a labelled Space: undoing a change of a tier before the Space has finished with it lets the cleanup delete a
  revision it uses. Examples are adding a ref and dropping it again (`RevisionCleanupEdits.DroppingANewRefIsUnsafe`), or,
  with the refs fixed, giving a template objects and taking them away again
  (`RevisionCleanupEdits.GoingBackToNilIsUnsafe`). For labelled Spaces an edit is unsafe exactly when it would make the next
  reconcile of the tier bring back the hash in the label of a Space that uses, or may still get, a revision that hash does
  not name (`RevisionCleanupGuard.GuardIsExact`). All edits are safe for them while every labelled Space is up to date
  (`RevisionCleanupEdits.EditsAreSafeWhenUpToDate`), and with fixed refs all are that do not take a template's objects away
  (`RevisionCleanupEdits.FixedRefsAreSafe`).
- A ban whose reconcile deletes the MUR of a user who is already deactivating lets that state and its notice outlive the
  MUR; after the ban the user is deactivated early. No other event does so (`Deactivation.BanGuardIsExact`,
  `Deactivation.ReturningIsEarly`).
- With a store that drops empty lists, an NSTemplateSet is updated again and again when the Space has bindings and none is
  for a role of its tier (`SpaceUpdate.UpdateReachesFixpoint`).
- An activation annotation such as "0", "-3" or "007" makes the gauges drift from a recount
  (`ActivationGauges.ApprovalKeepsAgreement`).
- `synchronizeStatus` undoes its change of the list of accounts when its status write fails, but not when the change made
  all accounts ready and the notification of the user fails (`MurStatus.RollbackIsExact`).
- Editing the user named in a SpaceBindingRequest that has a binding leaves that binding without an owner that would find
  it, and when the request is deleted then, the binding stays (`BindingRuns.EditKeepsTracedExactly`,
  `BindingRuns.HarmfulEditOrphans`).
- A UserAccount on a cluster that is no longer among the known members when the MUR's finalizer is removed outlives it, and
  no other does (`MurRuns.OutlivesTheFinalizer`).
- The comparator of the scheduler's sort divides by zero for a cluster without a limit. A candidate without a limit and
  with fewer than 50 Spaces has no ratio, and between candidates used at 50 of 100 and at 0 of 100 it breaks the order;
  every other candidate keeps it (`Capacity.RatioMakesTransitive`).

## Model

| member | source | states |
|---|---|---|
| Capacity.EligibleExactly | pkg/capacity/manager.go:28-63 | the candidates are exactly those of the configs that are ready, have no threshold or fewer Spaces than it, and offer each role asked for, or the tenant role if none is, each with its config's own fields |
| Capacity.OffersRequired | pkg/capacity/manager.go:43-63 | the labelled double loop answers whether each required role is offered; with no role asked for, the tenant role is required |
| Capacity.GetOptimalTargetClusters | pkg/capacity/manager.go:188-218 | the loop returns the eligible candidates in listing order, or the preferred one alone if it is among them |
| Capacity.RatioMakesTransitive | pkg/capacity/manager.go:150-166 | with exact ratios, and +Inf or NaN for threshold 0, "not above" is transitive through a candidate if and only if its ratio is not NaN, so that the sort has a meaning exactly then |
| Capacity.SortByUsage | pkg/capacity/manager.go:150-166 | a permutation of the candidates, in order of usage when all have a ratio |
| Capacity.ClusterManager.GetOptimalTargetCluster | pkg/capacity/manager.go:100-170 | the result and the new `lastUsed` are those of some outcome of an unstable sort; the answer names a config that is ready, has room and offers the roles, the preferred one if it does, and is empty only when none does; a listing error is returned and changes nothing |
| Capacity.PickIsSound | pkg/capacity/manager.go:100-170 | every outcome of a pick is such an answer, and a pick that finds nothing leaves `lastUsed` |
| CapacityRuns.OverCommitmentIsBounded | pkg/capacity/manager.go:28-35 | over any run of picks, counts, abandoned assignments and departures, under changing configs: with never more than d + 1 Spaces of a cluster assigned and not counted, its counted and uncounted Spaces exceed a nonzero threshold by at most d; with d = 0, by none |
| CapacityRuns.OverCommitmentIsReached | controllers/spacecompletion/space_completion_controller.go:95-108 | for every threshold and d, a run of d + 1 picks followed by their counts takes a cluster d Spaces above its threshold |
| CapacityRuns.PickGuardIsExact | controllers/usersignup/approval.go:98-111 | a pick keeps its cluster's count within the threshold, however things go on with such picks, if and only if counted and uncounted Spaces together were below it |
| CapacityFairness.StepKeepsShares | pkg/capacity/manager.go:132-169 | a pick and the count of its Space keep, for all pairs, the start of one cluster's batch no further ahead than the other's share |
| CapacityFairness.StepKeepsOneOpenBatch | pkg/capacity/manager.go:140-148 | a pick and the count of its Space keep: an open cluster in the middle of a batch is `lastUsed`, or the only one open |
| CapacityFairness.Fairness | pkg/capacity/manager.go:132-169 | after any run from zero with positive thresholds in which picks wait until no Space is uncounted, and Spaces may also be given up uncounted, (count_a - 50) * T_b <= count_b * T_a for all clusters, and batches are filled one at a time |
| CapacityFairness.TwoAtATimeIsUnfair | pkg/capacity/manager.go:140-148 | for any number of batches, two equal clusters and a run with never more than two Spaces uncounted after which one cluster has them all |
| Retarget.EventKeepsInv | controllers/space/space_controller.go:144-326 | every allowed reconcile, edit, deletion request and member step keeps: at most one set, named by the stored status; reason Provisioning only with a live set, unless the Space is being deleted; counts equal to live sets |
| Retarget.ReconcileKeepsInvExactly | controllers/space/space_controller.go:144-326 | with any calls failing, each status write by itself, a reconcile keeps these invariants if and only if it does not lose the record of a retarget's deletion or of a failed creation while Provisioning is stored |
| Retarget.RunKeepsOneSet | controllers/space/space_controller.go:147-165 | in every allowed run from a fresh Space at most one member cluster holds the NSTemplateSet, the stored `status.targetCluster` names it, and the space counters agree with the live sets |
| Retarget.GuardIsExact | controllers/space/space_controller.go:147-165 | in any sound world with more than one member cluster, an event keeps the Space safe in all allowed continuations if and only if it neither sets the target of a living Space back to the cluster being vacated nor is a reconcile that strands the Space |
| Retarget.StrandedLeadsToTwoSets | controllers/space/space_controller.go:774-783 | from every world with Provisioning stored and no live set behind it, allowed events lead to two NSTemplateSets |
| Retarget.SwitchingBackLeadsToTwoSets | controllers/space/space_controller.go:147-165 | from every world in which that is done, with any other cluster, allowed events lead to two NSTemplateSets |
| Retarget.FinalizerReleasedEarly | controllers/space/space_controller.go:489-547 | of a Space being deleted that still has its set, the finalizer goes if and only if the spec names another known cluster and the calls succeed |
| Retarget.RetargetCompletes | controllers/space/space_controller.go:144-326 | reconcile, end of deletion, reconcile: the set is on the new cluster only, the stored target and condition say so |
| RetargetProgress.LeavingDeletesTheSet | controllers/space/space_controller.go:489-591 | the first working reconcile of a Space being deleted deletes its NSTemplateSet, takes it off the count and says Terminating; the finalizer stays |
| RetargetProgress.DeletionCompletes | controllers/space/space_controller.go:489-591 | reconcile, end of deletion, reconcile: the Space is gone, no cluster holds its set and none is counted |
| RetargetProgress.FinalizerGoesExactly | controllers/space/space_controller.go:489-541 | of any Space being deleted, whatever the calls do, the finalizer goes if and only if its update works and there is no cluster to look at, nothing on it, or an error from it and no cluster in the status |
| RetargetProgress.SaysWhyNot | controllers/space/space_controller.go:167-178 | without a tier name, or with one but no target, the Space is pending, labelled so, and says which is missing |
| RetargetProgress.SaysWhatFails | controllers/space/space_controller.go:183-203 | an unknown cluster, a missing tier and an unanswered read are named in the condition, invalid revisions are not, and no set is touched |
| RetargetProgress.CreatesTheSet | controllers/space/space_controller.go:306-326 | where there is no set a working reconcile creates and counts it, says Provisioning and stores the target; a failed creation says so |
| RetargetProgress.AnnouncementIsWrittenOnce | controllers/space/space_controller.go:309-311 | the announcement is written only if the Space does not carry it yet, and one that fails ends the reconcile without a creation |
| RetargetProgress.MirrorsTheSet | controllers/space/space_controller.go:207-256 | the Space's condition is that of its set, a failure with its message; an update just made or failed comes first |
| RetargetProgress.NamespacesComeFirst | controllers/space/space_controller.go:246-253 | a Space whose changed list of namespaces cannot be written is not called provisioned |
| RetargetProgress.SaysRetargeting | controllers/space/space_controller.go:147-156 | a retarget deletes the live set of the old cluster and says Retargeting until it is gone, or says that it failed |
| RetargetController.Reconciler.DeleteNSTemplateSetFromCluster | controllers/space/space_controller.go:550-591 | an unknown cluster or a failed call is an error, an absent set is gone, a set being deleted is waited for until overdue, otherwise it is deleted and the count of the status target lowered |
| RetargetController.Reconciler.EnsureNSTemplateSet | controllers/space/space_controller.go:144-257 | the in-place version equals the protocol's step, on the same in-memory copy of the Space |
| RetargetController.Reconciler.ManageNSTemplateSet | controllers/space/space_controller.go:261-334 | creation writes condition Provisioning before, and the stored target with it; each failing write ends the reconcile as in the protocol's step |
| RetargetController.Reconciler.EnsureDeletion | controllers/space/space_controller.go:489-547 | deletion prefers the spec's cluster, releases the finalizer when there is nothing left there or an error comes without a status target |
| RetargetController.Reconciler.Reconcile | controllers/space/space_controller.go:69-131 | the whole reconcile, with every status write able to fail, equals the step about which the run results are proved, and keeps the invariants exactly if it does not strand the Space |
| TemplateSetSpec.ExtractUsernames | controllers/space/space_controller.go:474-487 | the users holding the role, each once, strictly sorted |
| TemplateSetSpec.NewNSTemplateSetSpec | controllers/space/space_controller.go:421-463 | the role entries are exactly the tier's roles that somebody holds, strictly sorted, each with its revision and sorted users; nil and empty lists are told apart |
| TemplateSetSpec.SpecIsCanonical | controllers/space/space_controller.go:421-487 | two specs built from the same set of (role, user) pairs are equal, whatever the order and repetition of the bindings or the order of the maps |
| TemplateSetSpec.MentionsOnlyRevisions | controllers/space/space_controller.go:421-472 | once the revisions are validated, a spec mentions only revisions of the tier's own refs |
| SpaceUpdate.UpdateReachesFixpoint | controllers/space/space_controller.go:336-370 | after an update with unchanged grants and features the next run needs an update if and only if the store drops empty lists, there are bindings and none is for a role of the tier |
| SpaceUpdate.EveryDifferenceIsSeen | controllers/space/space_controller.go:336-339 | an update is needed exactly when the spec or the annotation differs, a missing annotation and an empty one asked for being the same |
| SpaceUpdate.LetThroughAfterTwoSeconds | controllers/space/space_controller.go:348-358 | a gated update is let through if and only if the last one was at least 2s before, and is then the last one; otherwise a slot 2s after the later of now and the last slot is handed out |
| SpaceUpdate.Reconciler.ManageExisting | controllers/space/space_controller.go:336-370 | no write when spec and feature annotation agree; a labelled and ready Space passes the limiter; only an update that succeeds changes the NSTemplateSet |
| SpaceUpdate.DelayIsPositive | controllers/space/space_controller.go:343-357 | the delay handed out is positive unless the call itself took two seconds; exactly then when a new schedule is started |
| SpaceUpdate.ExecutionsAreSpaced | controllers/space/space_controller.go:343-359 | over any run, updates let through are at least 2s apart, also from the one before the run |
| SpaceUpdate.SlotsAreSpaced | controllers/space/space_controller.go:348-356 | over any run, slots handed out are at least 2s apart |
| SpaceUpdate.RateIsLimited | controllers/space/space_controller.go:343-359 | n gated updates in a window satisfy (n - 1) * 2s <= its length |
| Tiers.GetRefs | pkg/templates/nstemplatetiers/nstemplatetier_refs.go:8-29 | exactly the refs of namespaces, cluster resources and space roles, in whatever order the map yields |
| Tiers.ValidateRevisions | controllers/space/space_controller.go:465-472 | valid exactly when every ref of the tier has an entry in `status.revisions` |
| TierRevisions.Reconciler.EnsureTTRForTemplate | controllers/nstemplatetier/nstemplatetier_controller.go:148-197 | the recorded revision is kept if it exists and is up to date, otherwise a new one under a fresh name; a template without objects stands for itself |
| TierRevisions.Reconciler.EnsureRevision | controllers/nstemplatetier/nstemplatetier_controller.go:107-146 | the loop over the refs yields the new map, or stops at the first error keeping the revisions made before it |
| TierRevisions.EnsureRefsGrows | controllers/nstemplatetier/nstemplatetier_controller.go:107-197 | revisions are only ever added, under names never used before, even by a call that fails |
| TierRevisions.RevisionsAreExact | controllers/nstemplatetier/nstemplatetier_controller.go:107-146 | after success the keys are exactly the refs and every entry is current: the template's own name, or an existing revision with its objects and the tier's parameters |
| TierRevisions.EntriesAreKeptOrFresh | controllers/nstemplatetier/nstemplatetier_controller.go:148-197 | each entry is the recorded one, a template without revisions, or a name of this tier never used before |
| TierRevisions.CreatedExactly | controllers/nstemplatetier/nstemplatetier_controller.go:107-197 | the flag that asks for another run is set if and only if a revision was made or a template without objects had no entry |
| TierRevisions.EnsureIsIdempotent | controllers/nstemplatetier/nstemplatetier_controller.go:107-197 | an immediate second call, over the refs in any order and with any repetition, creates nothing and leaves the map as it is |
| RevisionCleanupSafety.EventKeepsInv | controllers/nstemplatetierrevisioncleanup/nstemplatetier_revision_cleanup_controller.go:68-137 | each step of the tier, Space and cleanup controllers, and each edit within the guard, keeps: a label that looks current, or would after the next reconcile of the tier, names every revision its Space uses or may get; no revision under cleanup is used by the Spaces looked at |
| RevisionCleanupSafety.NeverCollectsInUse | controllers/nstemplatetierrevisioncleanup/nstemplatetier_revision_cleanup_controller.go:88-137 | in every interleaving, with the cleanup's three calls as separate steps and any edits of refs, contents and parameters within the guard, the cleanup never deletes a revision of the tier that a Space carrying the tier's hash label uses |
| RevisionCleanupSafety.NothingDangles | controllers/nstemplatetier/nstemplatetier_controller.go:268-285 | at any time the revisions named in the tier's status and those used by labelled Spaces exist, and a Space labelled with revisions keeps its tier alive |
| RevisionCleanupGuard.GuardIsExact | controllers/nstemplatetierrevisioncleanup/nstemplatetier_revision_cleanup_controller.go:88-137 | from any sound world an event respects the guard if and only if no continuation within the guard collects a revision that a Space carrying the tier's label uses |
| RevisionCleanupLabels.LabelIsExactProtection | controllers/nstemplatetier/label_selector.go:23-40 | in any sound world, an existing revision that a Space uses stays undeleted while used, in all continuations within the guard that neither move nor delete the Space, if and only if the Space carries the label of the revision's tier |
| RevisionCleanupLabels.UnlabelledIsTaken | controllers/nstemplatetierrevisioncleanup/nstemplatetier_revision_cleanup_controller.go:118-137 | from every sound world, the revision of a Space without the label can be collected with no edit of the tier and none of templates but of their contents |
| RevisionCleanupEdits.FixedRefsAreSafe | controllers/nstemplatetierrevisioncleanup/nstemplatetier_revision_cleanup_controller.go:68-137 | with the refs of the tier fixed and no template going back to nil objects, contents and parameters may change freely and no revision that a labelled Space uses is ever collected |
| RevisionCleanupEdits.EditsAreSafeWhenUpToDate | controllers/nstemplatetier/label_selector.go:23-40 | while every labelled Space carries the current hash, every edit respects the guard |
| RevisionCleanupEdits.DroppingANewRefIsUnsafe | controllers/space/space_controller.go:226-244 | for every tier at rest, ref outside it and Space of it: adding the ref, letting the Space catch up and dropping the ref can be continued to the collection of a revision the Space uses |
| RevisionCleanupEdits.GoingBackToNilIsUnsafe | controllers/nstemplatetier/nstemplatetier_controller.go:148-160 | for every tier at rest and template of it without objects: giving it objects, letting a Space catch up and taking them away can be continued to the collection of a revision the Space uses |
| RevisionCleanupController.Reconciler.VerifyUnusedTTR | controllers/nstemplatetierrevisioncleanup/nstemplatetier_revision_cleanup_controller.go:106-138 | unused exactly when no status entry names the revision and no Space carries a different hash label of the tier; an error exactly when the listing is needed and fails |
| RevisionCleanupController.Reconciler.Reconcile | controllers/nstemplatetierrevisioncleanup/nstemplatetier_revision_cleanup_controller.go:35-100 | with working calls a revision at least 30s old and not being deleted is removed if and only if it has no tier label, or its tier is gone, or its tier does not name it and no Space carries the tier's label with another hash; nothing else is touched; a younger one is looked at again when it is 30s old; a failing call changes nothing |
| RevisionCleanupProgress.UnnamedIsRemoved | controllers/nstemplatetierrevisioncleanup/nstemplatetier_revision_cleanup_controller.go:88-137 | from every sound world in which outdated Spaces can reconcile, a run of the controllers alone removes any given revision that its tier does not name, and no other |
| RevisionCleanupProgress.CleanupRemovesExactly | controllers/nstemplatetierrevisioncleanup/nstemplatetier_revision_cleanup_controller.go:67-137 | an uninterrupted pass removes the revision if and only if its tier is gone, or does not name it and no Space carries the tier's label with another hash; it removes no other, wherever an earlier pass had got to |
| RevisionCleanupProgress.LabelNeedsTheSet | controllers/space/space_controller.go:206-244 | a reconcile changes a Space's labels only to the hash its tier has now, and only when its NSTemplateSet is provisioned and is exactly what that tier wants |
| RevisionCleanupProgress.SpaceCatchesUp | controllers/space/space_controller.go:226-244 | a Space whose tier is complete is brought up to date by a reconcile, the report of its NSTemplateSet and another reconcile: it carries its tier's label with the current hash and no other |
| RevisionCleanupProgress.StatusIsBroughtUpToDate | controllers/nstemplatetier/nstemplatetier_controller.go:107-146 | a working reconcile of a living tier stores, for exactly its refs, the template itself or an existing revision with its objects and the tier's parameters |
| RevisionCleanupProgress.DeletedTierGoes | controllers/nstemplatetier/nstemplatetier_controller.go:268-285 | a tier being deleted goes with its next reconcile if and only if no Space carries its label |
| Deactivation.RunKeepsInv | controllers/deactivation/deactivation_controller.go:159-284 | in every run, bans included, that deletes no banned user's MUR while the user is deactivating, the deactivating state and a created notice belong to the current MUR and are no older than the time the notice was due |
| Deactivation.NoEarlyDeactivation | controllers/deactivation/deactivation_controller.go:159-284 | over any number of activation cycles, bans and failures with that one exception, whenever the controller deactivates a user, the tier's timeout has passed since the current MUR was provisioned and a notice was created at least the notice period before |
| Deactivation.BanGuardIsExact | controllers/usersignup/usersignup_controller.go:313-323 | in any sound world, for a tier with positive timeout and notice period, an event keeps deactivations timely in all continuations if and only if it is not a working reconcile of a banned and deactivating user with a live MUR |
| Deactivation.ReturningIsEarly | controllers/usersignup/usersignup_controller.go:147-168 | from every world after such a deletion, unbanning and provisioning the user again leads to a deactivation before the timeout of the new MUR |
| DeactivationProgress.RankNeverRises | controllers/deactivation/deactivation_controller.go:168-283 | no controller run, failed or not, and no passing of time raises the rank (phase, time left) |
| DeactivationProgress.SomethingIsDue | controllers/deactivation/deactivation_controller.go:168-283 | until deactivation either the requested requeue delay is exactly the time left, or one of the two controllers strictly lowers the rank |
| DeactivationProgress.EveryRunDeactivates | controllers/deactivation/deactivation_controller.go:168-283 | in every run of controllers, clock and failures: after a working deactivation run once the notice is due, a working signup run and a deactivation run at least the notice period later, in this order with anything in between, the user is deactivated and stays so |
| DeactivationProgress.EveryRunRemovesTheMur | controllers/usersignup/usersignup_controller.go:332-337 | in every such run, after a working signup run for the deactivated user and the end of the deletion it starts, there is no MUR for the rest of the run |
| DeactivationProgress.EventuallyDeactivated | controllers/usersignup/usersignup_controller.go:147-168 | such runs exist: from every reachable active state the controllers and the clock alone lead to deactivation |
| DeactivationProgress.PromptDeactivation | controllers/deactivation/deactivation_controller.go:168-283 | with controllers that run on time the user is deactivated exactly at the tier's timeout, or one notice period from now if the notice is late |
| DeactivationEffects.NeverDeactivates | controllers/deactivation/deactivation_controller.go:108-157 | excluded users and tiers without timeout are not deactivated; no time is shown, or a deactivating state is withdrawn first |
| DeactivationEffects.WaitsForNotice | controllers/deactivation/deactivation_controller.go:168-193 | before the notice is due the state is withdrawn, or the end of the timeout is shown and a run asked for when the notice is due |
| DeactivationEffects.GoesThroughNotice | controllers/deactivation/deactivation_controller.go:195-284 | from then on: marked, then without a time shown until the notice is created, then with its end shown and a run asked for then, then deactivated |
| DeactivationEffects.DeactivatesAtOnce | controllers/deactivation/deactivation_controller.go:222-274 | without a notice period a user without a notice is deactivated as soon as the timeout has passed |
| DeactivationEffects.AsksOnlyToWait | controllers/deactivation/deactivation_controller.go:189-267 | a run is asked for only before the notice is due and during the notice period, for exactly their ends |
| DeactivationEffects.DeactivationFailsSafely | controllers/deactivation/deactivation_controller.go:181-279 | a failing status write leaves the time shown and a failing update the state, and marking waits for the status |
| DeactivationEffects.SignupDecidesTheMur | controllers/usersignup/usersignup_controller.go:313-337 | a working run deletes the MUR of a banned or deactivated user and leaves any other; without one exactly an approved user who is not banned, rejected or deactivated gets one |
| DeactivationEffects.SignupKeepsTheNotice | controllers/usersignup/usersignup_controller.go:137-168 | an active user has no notice, a deactivating one gets one dated now, a failed notification is recorded as such, and no state changes |
| DeactivationEffects.SignupClearsTheTime | controllers/usersignup/usersignup_controller.go:193-196 | the time shown goes only for a deactivated user whose MUR is gone |
| DeactivationController.Reconciler.ReconcileMur | controllers/deactivation/deactivation_controller.go:54-284 | the in-place reconcile, its early returns and its requeue delay equal the protocol's step |
| DeactivationController.Reconciler.ReconcileUserSignup | controllers/usersignup/usersignup_controller.go:137-198 | the notice conditions, and the creation or deletion of the MUR that follows for banned, rejected, deactivated and active users, equal the protocol's step |
| DeactivationController.Store.SetScheduledDeactivationStatus | controllers/usersignup/status_updater.go:486-492 | the timestamp is written only if it changes, and a failed write changes nothing |
| NameSearch.SubSpaceNameShape | pkg/space/space.go:103-117 | a name has at most 9 characters more than the root, no dash at its end, and ends with the whole suffix |
| NameSearch.NumberedAttemptShape | controllers/spacerequest/spacerequest_controller.go:275-285 | the name of each numbered attempt starts with the root and a dash and ends with the whole number |
| NameSearch.SubSpaceNameParts | pkg/space/space.go:103-117 | a name is the root, a dash, as much of the request's name without dots as fits 8 characters with the suffix, and the suffix, less dashes at the end |
| NameSearch.OnlyDotsGo | pkg/space/space.go:109-117 | leaving out the dots leaves out nothing else |
| NameSearch.UsernameShape | controllers/usersignup/usersignup_controller.go:638-675 | the first name tried is the transformed one; the i-th is the transformed one, cut to leave 4 characters, a dash and i |
| NameSearch.NumberedUsernamesDiffer | controllers/usersignup/usersignup_controller.go:643-675 | no numbered name is tried twice |
| NameSearch.ResolveSubSpaceName | controllers/spacerequest/spacerequest_controller.go:275-302 | the first of 100 names not known to be another's decides: returned if unused, an error if it is the request's own or its lookup fails; exhausted exactly when all 100 are taken by others |
| NameSearch.GenerateCompliantUsername | controllers/usersignup/usersignup_controller.go:632-679 | the first of 99 names that is free, the signup's own or cannot be looked up decides; a free one is returned and stays within the maximal length; exhausted exactly when all 99 are blocked |
| SubSpaces.GetRootSpaceName | controllers/spacerequest/spacerequest_controller.go:260-273 | the walk ends, at the root of the Space if it exists, with an error exactly when the chain leads to a missing parent |
| SubSpaces.RootIsUnique | controllers/spacerequest/spacerequest_controller.go:260-273 | a Space with a root has only that one, and no broken chain: the two outcomes of the walk exclude each other |
| SubSpaces.SubSpaceKeepsAcyclic | controllers/spacerequest/spacerequest_controller.go:238-258 | creating a sub-space under a Space whose root was found closes no cycle, even if orphans name the new Space as their parent |
| SubSpaces.Reconciler.GetSubSpace | controllers/spacerequest/spacerequest_controller.go:173-192 | none exactly when no Space carries the request's labels, otherwise the one; several are an error |
| SubSpaces.Reconciler.EnsureSubSpace | controllers/spacerequest/spacerequest_controller.go:194-258 | keeps the forest sound; needs a living parent and an existing tier; returns the request's Space with the requested tier and roles, updating it or creating it under the parent, on its cluster if no roles are asked for, with a name derived from the parent's root; an error changes nothing and, if no write fails, has one of the listed causes |
| SubSpaces.Reconciler.UpdateExistingSubSpace | controllers/spacerequest/spacerequest_controller.go:308-370 | only tier and roles change, to those of the request; a sub-space being deleted is an error |
| SubSpaces.ClusterIsInherited | pkg/space/space.go:71-101 | a new sub-space is on its parent's cluster exactly if the request asks for no roles, and otherwise on none yet |
| SubSpaces.ForestStaysSound | pkg/space/space.go:71-101 | under any order of root creation, sub-space creation, updates and deletion no cycle of parents forms and each request has at most one sub-space |
| SpaceCounter.CountersAreConsistent | pkg/metrics/metrics.go:238-262 | in every interleaving of the atomic operations the counter is never negative, equals a sequential replay of the calls that took effect, and the gauge is ahead of it by exactly the calls between their two effects |
| SpaceCounter.QuiescentCountersAgree | pkg/metrics/metrics.go:238-262 | when all calls have returned, gauge and counter agree and every call took effect exactly once |
| SpaceCounter.FailedSwapMeansProgress | pkg/metrics/metrics.go:250-261 | a compare-and-swap fails only if another call on the same cluster took effect since the load |
| SpaceCounter.IncrementFinishes | pkg/metrics/metrics.go:238-244 | an increment that is let alone is done after three steps, with counter and gauge one up and all others as they were |
| SpaceCounter.DecrementFinishes | pkg/metrics/metrics.go:247-262 | a decrement that is let alone is done after four steps, one down, or after two with everything as it was if the counter is not positive |
| SpaceCounter.SpaceCounts.DecrementSpaceCount | pkg/metrics/metrics.go:247-262 | run alone, the retry loop lowers a positive counter and its gauge by one and leaves both at zero otherwise |
| SpaceCounter.SpaceCounts.IncrementSpaceCount | pkg/metrics/metrics.go:238-244 | run alone, counter and gauge both rise by one |
| ActivationGauges.ApprovalKeepsAgreement | controllers/usersignup/usersignup_controller.go:893-915 | a successful approval keeps every gauge equal to a recount if and only if the annotation was missing, not a number, or a positive number in canonical notation |
| ActivationGauges.GaugesEqualRecount | controllers/usersignup/usersignup_controller.go:575-609 | over any run of signups and state changes, failed updates included, every gauge stays equal to a recount and every annotation regular |
| ActivationGauges.StateIsStored | controllers/usersignup/usersignup_controller.go:575-609 | a change of state stores the label and, on approval only, the next number; other signups, and everything if the update fails, stay |
| ActivationGauges.Metrics.Synchronize | pkg/metrics/metrics.go:314-327 | the gauges become the recount of the annotations |
| ActivationGauges.Metrics.IncrementUsersPerActivationCounters | pkg/metrics/metrics.go:266-277 | the number's gauge goes up and the one before it down; nothing for non-positive numbers |
| ActivationGauges.Reconciler.SetStateLabel | controllers/usersignup/usersignup_controller.go:575-609 | the gauges move only after the update of the UserSignup succeeded, and only if the label changed |
| ActivationGauges.Reconciler.UpdateActivationCounterAnnotation | controllers/usersignup/usersignup_controller.go:893-915 | the annotation written reads back as the number returned |
| PendingQueue.FirstExistingIsFirst | pkg/pending/cache.go:61-81 | the result is a pending name exactly when the queue holds one; it is then the head of the queue; pending names are never dropped and none is added |
| PendingQueue.Cache.GetFirstExisting | pkg/pending/cache.go:61-81 | the recursion ends and drops from the front exactly the names that are not pending, stopping at a call that fails |
| PendingQueue.Cache.LoadLatest | pkg/pending/cache.go:41-59 | appends the pending objects, each once, by creation time; a failed listing appends nothing |
| PendingQueue.Cache.GetOldestPendingObject | pkg/pending/cache.go:30-39 | the queue is reloaded only if it held nothing pending, and the answer is then taken from the reloaded queue |
| PendingQueue.OldestIsReturned | pkg/pending/cache.go:30-81 | at any point of a run with working calls: nil exactly when nothing is pending; otherwise at least as old as everything pending since it was loaded, and after a reload as everything pending; no name that kept waiting is dropped |
| MurStatus.WithEntrySets | controllers/masteruserrecord/sync.go:89-112 | setting a cluster's entry keeps all others and at most one entry per cluster |
| MurStatus.SynchronizingKeeps | controllers/masteruserrecord/sync.go:89-139 | whatever fails, the list keeps at most one entry per cluster, a set provisioned time stays, and nothing but the status changes |
| MurStatus.SynchronizedMirrorsMember | controllers/masteruserrecord/sync.go:89-139 | on success the stored entry is what the member reports and every other entry is as before |
| MurStatus.RollbackIsExact | controllers/masteruserrecord/sync.go:100-129 | after an error the stored object is unchanged, and the list in memory is as before if and only if it is not that the change made all accounts ready, the user had not been notified and the notification failed |
| MurStatus.FailedNotificationLeavesTheEntry | controllers/masteruserrecord/sync.go:114-117 | a case in which a failed notification leaves the new entry in memory |
| MurStatus.RemovingKeeps | controllers/masteruserrecord/sync.go:73-87 | whatever fails, the same invariants; on success the list has lost the cluster and nothing else |
| MurEffects.AlignmentSays | controllers/masteruserrecord/sync.go:182-267 | an unready account leaves the record alone; a record never provisioned that waits for an account is Provisioning; otherwise it is Provisioned, stamped with the current time the first time only, and the user is told once |
| MurEffects.DisablingSays | controllers/masteruserrecord/sync.go:169-179 | Disabled exactly when there are accounts and all report that |
| MurEffects.FirstBindingDecides | controllers/masteruserrecord/masteruserrecord_controller.go:170-191 | the first binding that is not being deleted and whose Space is living, assigned and the user's own gives the target; an unreadable Space before it is an error; without either there is none |
| MurEffects.SpecIsWritten | controllers/masteruserrecord/sync.go:36-65 | the target's account gets the record's spec, if it differs, and nothing else changes; a failing call leaves it |
| MurEffects.LiveAccountIsMarked | controllers/masteruserrecord/masteruserrecord_controller.go:331-375 | a live account is marked as being deleted, now, exactly if its member answers and the call works, and no other account ever changes; one marked for over a minute is an error |
| MurEffects.AccountIsCreated | controllers/masteruserrecord/masteruserrecord_controller.go:227-251 | a missing account is created with the record's spec and the record says Provisioning; one being deleted is waited for |
| MurEffects.FailureIsNamed | controllers/masteruserrecord/masteruserrecord_controller.go:215-244 | an unknown cluster, an unanswered read and a failed creation are recorded under their own reasons |
| MurProgress.FirstLiveIsMarked | controllers/masteruserrecord/masteruserrecord_controller.go:135-146 | a working pass marks the first live account it meets and changes no other |
| MurProgress.DeletionCompletes | controllers/masteruserrecord/masteruserrecord_controller.go:314-375 | from every sound world with a MUR being deleted, working reconciles and the ends of the deletions they start lead to a world without it and without accounts |
| MurProgress.LivingRecordSettles | controllers/masteruserrecord/masteruserrecord_controller.go:92-125 | from every sound world with a living MUR and a known target they lead to one account, live, on the target, with the record's spec, and a status that agrees; all other members lose theirs |
| MurRuns.DoneMeansAbsent | controllers/masteruserrecord/masteruserrecord_controller.go:135-146 | if the pass over the members completes, in any order, none of them holds the account and exactly their entries are gone |
| MurRuns.SettledMeansAgreement | controllers/masteruserrecord/masteruserrecord_controller.go:93-125 | a reconcile that ends with nothing left to do leaves the stored list and the members in agreement: the target's entry mirrors its account, no other known member is listed or holds one |
| MurRuns.ReleasedOnlyWhenGone | controllers/masteruserrecord/masteruserrecord_controller.go:314-329 | the finalizer is removed only when no known member holds the UserAccount |
| MurRuns.OutlivesTheFinalizer | controllers/masteruserrecord/masteruserrecord_controller.go:314-329 | the accounts left when the finalizer is removed are exactly those on clusters outside the known members |
| MurRuns.RunKeepsInv | controllers/masteruserrecord/masteruserrecord_controller.go:73-375 | in every run, with any failures, no UserAccount exists without a MUR that carries the finalizer, and the stored list has at most one entry per cluster |
| MurRuns.ProvisionedTimeIsFinal | controllers/masteruserrecord/sync.go:203-207 | the provisioned time, once stored, is the same at every later point of the MUR's life |
| MurController.Record.AlignReadiness | controllers/masteruserrecord/sync.go:182-267 | the in-place alignment: an unready account changes nothing, the provisioned time is stamped once, a failing notification leaves the other changes |
| MurController.Synchronizer.SynchronizeStatus | controllers/masteruserrecord/sync.go:89-139 | the in-place version with its rollback equals the function the results are about |
| MurController.Synchronizer.RemoveAccountFromStatus | controllers/masteruserrecord/sync.go:73-87 | the loop removes the cluster's entry and writes the status, skipping the alignment for a MUR being deleted |
| MurController.Reconciler.DeleteUserAccount | controllers/masteruserrecord/masteruserrecord_controller.go:331-375 | absent: removed from the status; being deleted: synchronized, an error after 60s; otherwise deleted and looked at again |
| MurController.Reconciler.EnsureUserAccountsAreNotPresent | controllers/masteruserrecord/masteruserrecord_controller.go:135-146 | the loop stops at the first member that fails or needs another look |
| MurController.Reconciler.EnsureUserAccount | controllers/masteruserrecord/masteruserrecord_controller.go:215-273 | creates, waits for or synchronizes the account, recording each failure in the status |
| MurController.Reconciler.FindTarget | controllers/masteruserrecord/masteruserrecord_controller.go:158-192 | the first living binding whose Space is the user's own and assigned decides; an unreadable Space before it is an error |
| MurController.Reconciler.ManageCleanUp | controllers/masteruserrecord/masteruserrecord_controller.go:314-329 | the finalizer is dropped only after a completed pass over all members |
| MurController.Reconciler.Reconcile | controllers/masteruserrecord/masteruserrecord_controller.go:73-133 | the whole reconcile equals the step about which the run results are proved |
| Bindings.FoundExactly | controllers/spacebindingrequest/spacebindingrequest_controller.go:147-172 | none, the only one, or an error, exactly as there are zero, one or more bindings of the Space and user |
| Bindings.RequestKeeps | controllers/spacebindingrequest/spacebindingrequest_controller.go:114-262 | a reconcile of a request keeps bindings unique, leaves every binding of another request or of none untouched, and leaves other requests alone |
| Bindings.SignupKeeps | controllers/usersignup/usersignup_controller.go:783-822 | whatever bindings there are, a signup changes none of them, keeps uniqueness, and on success exactly one living binding of the Space and user exists |
| Bindings.ReadyMeansBound | controllers/spacebindingrequest/spacebindingrequest_controller.go:220-262 | a request that reports ready owns the only binding of its Space and user, alive, with its role unless it was created in that very reconcile |
| Bindings.BoundExactly | controllers/spacebindingrequest/spacebindingrequest_controller.go:220-262 | with working writes a request gets its binding if and only if the Space is found and living, the user named and usable, the role one of the tier's, and there is no binding yet or a living one of its own |
| Bindings.BoundAs | controllers/spacebindingrequest/spacebindingrequest_controller.go:264-326 | a new binding carries the request's name and the initial role, an existing one only gets the requested role |
| Bindings.DeletionDeletes | controllers/spacebindingrequest/spacebindingrequest_controller.go:114-144 | a request being deleted deletes the living binding it owns, or marks it if it has finalizers, and goes at once if the binding is another's |
| Bindings.RequestGoes | controllers/spacebindingrequest/spacebindingrequest_controller.go:137-144 | with no binding left the request goes |
| Bindings.FinalizerComesFirst | controllers/spacebindingrequest/spacebindingrequest_controller.go:86-112 | a living request gets its finalizer before anything else, and reports ready exactly if it is bound and its status is written |
| Bindings.DeletionFailsSafely | controllers/spacebindingrequest/spacebindingrequest_controller.go:114-144 | as long as a call its deletion needs fails the request stays, and a failed deletion leaves the binding |
| BindingRuns.AtMostOneBinding | controllers/spacebindingrequest/spacebindingrequest_controller.go:220-262 | in every interleaving of both controllers, edits, deletions and failures a user has at most one binding to a Space |
| BindingRuns.NoOrphans | controllers/spacebindingrequest/spacebindingrequest_controller.go:114-144 | in every run in which requests change the user they name only while they have no binding, every binding a request made belongs to a stored request with a finalizer that still leads to it |
| BindingRuns.EditKeepsTracedExactly | controllers/spacebindingrequest/spacebindingrequest_controller.go:147-172 | an edit of the user keeps all bindings traceable if and only if it names the same user or the request has no binding |
| BindingRuns.ReleasedMeansNoBinding | controllers/spacebindingrequest/spacebindingrequest_controller.go:114-144 | a request loses its finalizer only when no binding carries its name |
| BindingRuns.HarmfulEditOrphans | controllers/spacebindingrequest/spacebindingrequest_controller.go:114-144 | after every other such edit, deleting the request releases it with all its bindings left behind |
| BindingRuns.ReadyTwiceMeansRole | controllers/spacebindingrequest/spacebindingrequest_controller.go:264-309 | two successive ready reconciles leave the requested role on the binding |
| BindingController.Reconciler.EnsureSpaceBinding | controllers/spacebindingrequest/spacebindingrequest_controller.go:220-262 | the in-place checks, creation and update equal the protocol's step |
| BindingController.Reconciler.EnsureSpaceBindingDeletion | controllers/spacebindingrequest/spacebindingrequest_controller.go:114-144 | only an owned binding is deleted, with an error after 120s; the finalizer goes when there is none |
| BindingController.Reconciler.Reconcile | controllers/spacebindingrequest/spacebindingrequest_controller.go:64-112 | the whole reconcile equals the step about which the run results are proved |
| BindingController.Reconciler.EnsureSignupBinding | controllers/usersignup/usersignup_controller.go:783-822 | creates only when there is none; one being deleted, or several, are errors |
| MemberMerge.MergeIsExact | controllers/toolchainstatus/toolchainstatus_controller.go:629-670 | listed afterwards are exactly the live clusters and those listed before that are gone but still hold Spaces |
| MemberMerge.MergeKeepsOrder | controllers/toolchainstatus/toolchainstatus_controller.go:629-670 | from a list without duplicates: none come in, survivors are first and in order, each entry says what its cluster reports or that it is missing, and all is well exactly when no cluster with Spaces is missing |
| MemberMerge.FirstEndpointDecides | controllers/toolchainstatus/toolchainstatus_controller.go:425-432 | the endpoint is that of the first cached cluster of the name, and empty if there is none |
| MemberMerge.EndpointIsKept | controllers/toolchainstatus/toolchainstatus_controller.go:634-639 | a member that stays keeps its endpoint if no cached cluster gives one |
| MemberMerge.NeverDuplicated | controllers/toolchainstatus/toolchainstatus_controller.go:629-670 | a list that starts empty never gets a duplicate, over any run of merges |
| MemberMerge.ToolchainStatus.CompareAndAssignMemberStatuses | controllers/toolchainstatus/toolchainstatus_controller.go:629-670 | the two loops, the first of which empties the map the second walks, produce such a merge |

## Left out

- Floating point: usage ratios are exact rationals; two ratios that differ by less than a rounding error may be ordered differently by the program.
- Integer widths: counters, activation numbers and timestamps are unbounded.
- Stale reads: a reconcile reads and writes one state of the store, except for the cleanup's three calls and the steps of the space counter. A Space reconcile that writes what it read from an older tier is not modelled, nor is a call that finds an object gone between two reads of one reconcile.
- Retarget.RunKeepsOneSet: runs keep to the guard that GuardIsExact proves exact. A creation that finds the NSTemplateSet there after a read that did not is a stale read and left out.
- CapacityFairness.Fairness: Spaces do not go away, and the set of clusters and their readiness and roles stay the same, as the rule of equal shares supposes.
- CapacityRuns.OverCommitmentIsBounded: Spaces that are given a target cluster by hand, or moved, are not picks and are not steps of its runs, nor of those of Fairness; a nonzero threshold does not change during a run.
- RevisionCleanupSafety.NeverCollectsInUse: edits of the tier and of templates stay within the guard that GuardIsExact proves to be exact.
- RevisionCleanupSafety.EventKeepsInv: revisions keep the tier label the tier controller makes them with; the reconcile of one that has lost it is specified, but not part of the runs.
- RevisionCleanupSafety.NeverCollectsInUse: speaks of Spaces that carry the tier's label; LabelIsExactProtection shows that no other Space is protected.
- The hash of a tier is the revisions map itself, that is, taken to be injective on it; names from `GenerateName` carry a serial number that is never reused.
- Template objects and tier parameters are compared as opaque values.
- NameSearch.GenerateCompliantUsername: the transformation of the preferred username is part of a library that is not part of this model; its result is a parameter of at most the maximal length.
- `listSubSpaces`, which returns after its first child.
- Deactivation.NoEarlyDeactivation: the tier's settings are fixed, no MUR of a banned user is deleted while the user is deactivating (BanGuardIsExact proves this condition exact), and only these controllers set the deactivating state; the domain exclusion is a flag. Durations are in whole seconds.
- MUR readiness: that a Ready MUR has only ready accounts is not claimed, since `alignReadiness` returns without clearing the condition.
- Conditions carry status, reason and message. Transition times are kept where a decision depends on them (the deactivating notice); whether an update of a Space is too recent, or a deletion overdue, is a parameter.
- MurStatus.SynchronizingKeeps: whether the ToolchainStatus has ready routes for the cluster (`withClusterDetails`), and whether the provisioning notification exists or can be created, are flags that decide the branch taken.
- MurRuns.RunKeepsInv: the set of known members does not change during a run; OutlivesTheFinalizer says what a change of it leaves behind.
- MurController.Reconciler.Reconcile: the order in which Go walks the map of members is a parameter; the spec of an account is one opaque value made of its disabled flag, claims and tier label.
- BindingRuns.NoOrphans: the namespace of a request leads to one Space all the time; the role a new binding starts with comes from a library and is a parameter.
- ActivationGauges.GaugesEqualRecount: signups are not deleted and do not change their email domain.
- PendingQueue.OldestIsReturned: calls do not fail and creation times do not change; the methods themselves are specified with failing calls too.
- `Synchronize` and `Reset` running beside live counters; the counters start from nothing.
- The feature-toggle lottery: the annotation is an arbitrary value.
- Client plumbing, caches, watches, RBAC, notifications and mail, Segment, reCAPTCHA, health checks, kubeconfigs and secrets, template loading and configuration getters.
- Facts of one branch, such as retention checks.
