/** What one run of each controller brings about for a user: the state, the time shown, the notice and the MUR. */
module DeactivationEffects {
  import opened Base
  import opened Deactivation

  // ---------- The deactivation controller ----------

  /** Days in seconds. */
  function Days(n: int): int {
    n * 86400
  }

  /** Active on a provisioned MUR, so that the controller has something to decide. */
  predicate IsProvisioned(w: World) {
    w.mur.Some? && !w.mur.value.beingDeleted && w.mur.value.provisioned.Some? && !w.user.deactivated
  }

  /** Without such a MUR nothing happens; a run never touches the MUR, the clock or the notice. */
  lemma LeavesTheRest(w: World, cfg: Config, c: Calls)
    ensures var v := ReconciledDeactivation(w, cfg, c).0;
            v.mur == w.mur && v.now == w.now && v.user.notice == w.user.notice && v.user.banned == w.user.banned
    ensures !IsProvisioned(w) ==> ReconciledDeactivation(w, cfg, c) == (w, 0)
  {
  }

  /**
   * Users that are not deactivated by time: no time is shown, and a deactivating state is withdrawn for a tier
   * without timeout.
   */
  lemma NeverDeactivates(w: World, cfg: Config)
    requires IsProvisioned(w) && (cfg.excluded || (cfg.hasAccounts && cfg.timeoutDays == 0))
    ensures var v := ReconciledDeactivation(w, cfg, DEACTIVATE_OK).0.user;
            && !v.deactivated
            && (cfg.excluded || !w.user.deactivating ==> v.scheduled == None && v.deactivating == w.user.deactivating)
            && (!cfg.excluded && w.user.deactivating ==> !v.deactivating && v.scheduled == w.user.scheduled)
  {
  }

  /**
   * Before the notice is due: a deactivating state is withdrawn, else the end of the timeout is shown and a run
   * asked for in time.
   */
  lemma WaitsForNotice(w: World, cfg: Config)
    requires IsProvisioned(w) && !cfg.excluded && cfg.hasAccounts && cfg.timeoutDays != 0
    requires w.now < w.mur.value.provisioned.value + Days(cfg.timeoutDays - cfg.noticeDays)
    ensures var (v, delay) := ReconciledDeactivation(w, cfg, DEACTIVATE_OK);
            && !v.user.deactivated && !v.user.deactivating
            && (!w.user.deactivating ==>
                  && v.user.scheduled == Some(w.mur.value.provisioned.value + Days(cfg.timeoutDays))
                  && w.now + delay == w.mur.value.provisioned.value + Days(cfg.timeoutDays - cfg.noticeDays))
  {
  }

  /**
   * From then on, with a notice period: the user is marked first; until the notice is created no time is shown;
   * then the end of the notice period is shown; and from that time on the user is deactivated.
   */
  lemma GoesThroughNotice(w: World, cfg: Config)
    requires IsProvisioned(w) && !cfg.excluded && cfg.hasAccounts && cfg.timeoutDays != 0 && cfg.noticeDays > 0
    requires w.now >= w.mur.value.provisioned.value + Days(cfg.timeoutDays - cfg.noticeDays)
    ensures var (v, delay) := ReconciledDeactivation(w, cfg, DEACTIVATE_OK);
            var created := w.user.notice.Some? && w.user.notice.value.reason == CRCreated;
            && (!w.user.deactivating ==>
                  && v.user.deactivating && !v.user.deactivated
                  && v.user.scheduled == Some(w.mur.value.provisioned.value + Days(cfg.timeoutDays)))
            && (w.user.deactivating && !created ==>
                  v.user.deactivating && !v.user.deactivated && v.user.scheduled == None)
            && (w.user.deactivating && created && w.now < w.user.notice.value.since + Days(cfg.noticeDays) ==>
                  && v.user.deactivating && !v.user.deactivated
                  && v.user.scheduled == Some(w.user.notice.value.since + Days(cfg.noticeDays))
                  && w.now + delay == w.user.notice.value.since + Days(cfg.noticeDays))
            && (w.user.deactivating && created && w.now >= w.user.notice.value.since + Days(cfg.noticeDays) ==>
                  v.user.deactivated && !v.user.deactivating)
  {
  }

  /** Without a notice period a user who never got a notice is deactivated as soon as the timeout has passed. */
  lemma DeactivatesAtOnce(w: World, cfg: Config)
    requires IsProvisioned(w) && !cfg.excluded && cfg.hasAccounts && cfg.timeoutDays != 0 && cfg.noticeDays == 0
    requires w.user.notice.None? && w.now >= w.mur.value.provisioned.value + Days(cfg.timeoutDays)
             && w.now >= -62135596800
    ensures ReconciledDeactivation(w, cfg, DEACTIVATE_OK).0.user.deactivated
  {
  }

  /**
   * A later run is asked for in two situations only, and for the right time: before the notice is due, and during the
   * notice period.
   */
  lemma AsksOnlyToWait(w: World, cfg: Config, c: Calls)
    ensures var delay := ReconciledDeactivation(w, cfg, c).1;
            delay != 0 ==>
              && delay > 0 && IsProvisioned(w) && !cfg.excluded && cfg.timeoutDays != 0
              && (|| (!w.user.deactivating
                      && w.now + delay == w.mur.value.provisioned.value + Days(cfg.timeoutDays - cfg.noticeDays))
                  || (w.now >= w.mur.value.provisioned.value + Days(cfg.timeoutDays - cfg.noticeDays)
                      && w.now + delay == DeactivationDue(cfg, w.user.notice)))
  {
  }

  /** A failing status write leaves the time shown, a failing update the state; and marking waits for the status. */
  lemma DeactivationFailsSafely(w: World, cfg: Config, c: Calls)
    ensures var (v, delay) := ReconciledDeactivation(w, cfg, c);
            && (c.statusFails ==> v.user.scheduled == w.user.scheduled)
            && (c.updateFails ==>
                  v.user.deactivating == w.user.deactivating && v.user.deactivated == w.user.deactivated)
            && (c.statusFails && !w.user.deactivating && v.user.deactivating ==>
                  w.user.scheduled == Some(w.mur.value.provisioned.value + Days(cfg.timeoutDays)))
            && (c.statusFails && delay != 0 ==> w.user.scheduled.Some? && v == w)
            && (!c.statusFails ==>
                  v.user.scheduled == ReconciledDeactivation(w, cfg, DEACTIVATE_OK).0.user.scheduled)
  {
  }

  // ---------- The UserSignup controller ----------

  /** The status writes, the notification and the work on the MUR all succeed. */
  predicate Works(c: SignupCalls) {
    !c.activeFails && !c.noticeFails && !c.sendFails && !c.murFails
  }

  /**
   * A banned or deactivated user's MUR is deleted, any other is left alone; without a MUR an approved user who
   * is neither banned, rejected nor deactivated gets one, and nobody else does.
   */
  lemma SignupDecidesTheMur(w: World, c: SignupCalls)
    requires Works(c)
    ensures var v := ReconciledSignup(w, c);
            && (w.mur.Some? && (w.user.banned || w.user.deactivated) ==>
                  v.mur == Some(Mur(w.mur.value.provisioned, true)))
            && (w.mur.Some? && !w.user.banned && !w.user.deactivated ==> v.mur == w.mur)
            && (w.mur.None? && c.approved && !c.rejected && !w.user.banned && !w.user.deactivated ==>
                  v.mur == Some(Mur(None, false)))
            && (w.mur.None? && (!c.approved || c.rejected || w.user.banned || w.user.deactivated) ==> v.mur == None)
  {
  }

  /** A failing call only ever leaves the MUR as it was. */
  lemma SignupFailsSafely(w: World, c: SignupCalls)
    ensures ReconciledSignup(w, c).mur in {w.mur, ReconciledSignup(w, c.(activeFails := false, noticeFails := false,
                                                                        sendFails := false, murFails := false)).mur}
    ensures c.murFails ==> ReconciledSignup(w, c).mur == w.mur
  {
  }

  /**
   * A user who is not deactivating, deactivated or banned has no notice; one who is deactivating gets one,
   * dated now, if there is none; a failed notification is recorded and is no notice. Nothing else about the
   * state changes.
   */
  lemma SignupKeepsTheNotice(w: World, c: SignupCalls)
    requires !c.activeFails && !c.noticeFails
    ensures var v := ReconciledSignup(w, c).user;
            && v.deactivating == w.user.deactivating && v.deactivated == w.user.deactivated && v.banned == w.user.banned
            && (!w.user.banned && !w.user.deactivating && !w.user.deactivated ==>
                  v.notice.Some? && v.notice.value.reason == UserNotInPreDeactivation)
            && (w.user.deactivating && !(w.user.notice.Some? && w.user.notice.value.reason == CRCreated) ==>
                  if c.sendFails then v.notice.Some? && v.notice.value.reason == CRCreationFailed(c.message)
                  else v.notice == Some(Notice(CRCreated, w.now)))
            && (w.user.deactivating && w.user.notice.Some? && w.user.notice.value.reason == CRCreated ==>
                  v.notice == w.user.notice)
            && (!w.user.deactivating && (w.user.banned || w.user.deactivated) ==> v.notice == w.user.notice)
  {
  }

  /** The write that says the user is active is made for active users only, and the reconcile ends if it fails. */
  lemma ActiveIsWrittenFirst(w: World, c: SignupCalls)
    ensures w.user.banned || w.user.deactivated ==>
            ReconciledSignup(w, c) == ReconciledSignup(w, c.(activeFails := false))
    ensures !w.user.banned && !w.user.deactivated && c.activeFails ==> ReconciledSignup(w, c) == w
  {
  }

  /** A notice that is already what it should be is not written. */
  lemma NoticeIsWrittenOnChange(w: World, c: SignupCalls)
    requires !w.user.deactivating && w.user.notice.Some? && w.user.notice.value.reason == UserNotInPreDeactivation
    ensures ReconciledSignup(w, c) == ReconciledSignup(w, c.(noticeFails := false))
  {
  }

  /**
   * Once the MUR of a deactivated user is gone no time is shown any more; nothing else about the time shown is
   * up to this run.
   */
  lemma SignupClearsTheTime(w: World, c: SignupCalls)
    requires Works(c)
    ensures ReconciledSignup(w, c).user.scheduled
            == if w.mur.None? && w.user.deactivated && !w.user.banned && !c.rejected && c.completeChanges then None
               else w.user.scheduled
  {
  }
}
