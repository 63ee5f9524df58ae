/** The deactivation reconcile and the notice part of the UserSignup reconcile as they run. */
module DeactivationController {
  import opened Base
  import opened Deactivation

  /** The stored UserSignup, the stored MUR, and the clock. */
  class Store {
    var now: int
    var user: User
    var mur: Option<Mur>

    ghost function Contents(): World
      reads this
    {
      World(now, user, mur)
    }

    constructor (now: int, user: User, mur: Option<Mur>)
      ensures Contents() == World(now, user, mur)
    {
      this.now, this.user, this.mur := now, user, mur;
    }

    method SetScheduledDeactivationStatus(at: Option<int>, c: Calls) returns (ok: bool)
      modifies this
      ensures (Contents(), ok) == Scheduled(old(Contents()), at, c)
    {
      if user.scheduled != at {
        if c.statusFails {
          return false;
        }
        user := user.(scheduled := at);
      }
      return true;
    }

    method UpdateNotice(reason: NoticeReason, c: SignupCalls) returns (ok: bool)
      modifies this
      ensures (Contents(), ok) == SetNotice(old(Contents()), reason, c)
    {
      var notice := WithNotice(user.notice, reason, now);
      if user.notice != notice {
        if c.noticeFails {
          return false;
        }
        user := user.(notice := notice);
      }
      return true;
    }
  }

  class Reconciler {
    const store: Store

    constructor (store: Store)
      ensures this.store == store
    {
      this.store := store;
    }

    /** True if the state was changed, or the change failed. */
    method ResetDeactivatingState(c: Calls) returns (stop: bool)
      modifies store
      ensures stop == old(store.user.deactivating)
      ensures store.Contents() == if stop then ResetDeactivating(old(store.Contents()), c) else old(store.Contents())
    {
      if store.user.deactivating {
        if !c.updateFails {
          store.user := store.user.(deactivating := false);
        }
        return true;
      }
      return false;
    }

    method ReconcileMur(cfg: Config, c: Calls) returns (requeueAfter: int)
      modifies store
      ensures (store.Contents(), requeueAfter) == ReconciledDeactivation(old(store.Contents()), cfg, c)
    {
      requeueAfter := 0;
      if store.mur.None? || store.mur.value.beingDeleted || store.mur.value.provisioned.None? {
        return;
      }
      var provisioned := store.mur.value.provisioned.value;
      if store.user.deactivated {
        return;
      }
      if cfg.excluded {
        var _ := store.SetScheduledDeactivationStatus(None, c);
        return;
      }
      if !cfg.hasAccounts {
        return;
      }
      if cfg.timeoutDays == 0 {
        var stop := ResetDeactivatingState(c);
        if !stop {
          var _ := store.SetScheduledDeactivationStatus(None, c);
        }
        return;
      }
      var deactivationTimeout := cfg.timeoutDays * DAY;
      var timeSinceProvisioned := store.now - provisioned;
      var notificationTimeout := (cfg.timeoutDays - cfg.noticeDays) * DAY;
      if timeSinceProvisioned < notificationTimeout {
        var stop := ResetDeactivatingState(c);
        if stop {
          return;
        }
        var ok := store.SetScheduledDeactivationStatus(Some(provisioned + deactivationTimeout), c);
        return if ok then notificationTimeout - timeSinceProvisioned else 0;
      }
      if !store.user.deactivating && cfg.noticeDays > 0 {
        var ok := store.SetScheduledDeactivationStatus(Some(provisioned + deactivationTimeout), c);
        if ok && !c.updateFails {
          store.user := store.user.(deactivating := true);
        }
        return;
      }
      if !IsTrue(store.user.notice) && cfg.noticeDays > 0 {
        var _ := store.SetScheduledDeactivationStatus(None, c);
        return;
      }
      var due := DeactivationDue(cfg, store.user.notice);
      if store.now < due {
        var ok := store.SetScheduledDeactivationStatus(Some(due), c);
        return if ok then due - store.now else 0;
      }
      if !c.updateFails {
        store.user := MarkDeactivated(store.user);
      }
    }

    method ReconcileUserSignup(c: SignupCalls)
      modifies store
      ensures store.Contents() == ReconciledSignup(old(store.Contents()), c)
    {
      var ok := true;
      if !store.user.banned && !store.user.deactivated && c.activeFails {
        return;
      }
      if !store.user.banned && !store.user.deactivating && !store.user.deactivated {
        ok := store.UpdateNotice(UserNotInPreDeactivation, c);
        if !ok {
          return;
        }
      }
      if store.user.deactivating && !IsTrue(store.user.notice) {
        if c.sendFails {
          var _ := store.UpdateNotice(CRCreationFailed(c.message), c);
          return;
        }
        ok := store.UpdateNotice(CRCreated, c);
        if !ok {
          return;
        }
      }
      if store.mur.Some? {
        if (store.user.banned || store.user.deactivated) && !c.murFails {
          store.mur := Some(store.mur.value.(beingDeleted := true));
        }
      } else if store.user.banned || c.rejected {
        return;
      } else if store.user.deactivated {
        if c.completeChanges {
          store.user := store.user.(scheduled := None);
        }
      } else if c.approved && !c.murFails {
        store.mur := Some(Mur(None, false));
      }
    }

    /** The part of `alignReadiness` that stamps the MUR, once. */
    method StampProvisioned()
      modifies store
      ensures forall cfg :: store.Contents() == Next(old(store.Contents()), cfg, MurProvisioned)
    {
      if store.mur.Some? && store.mur.value.provisioned.None? {
        store.mur := Some(store.mur.value.(provisioned := Some(store.now)));
      }
    }
  }
}
