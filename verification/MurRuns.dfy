/** What whole runs of the MasterUserRecord controller keep. */
module MurRuns {
  import opened Base
  import opened MurStatus
  import opened MurControl

  // ---------- One pass ----------

  /**
   * The status stays sound, a provisioned time stays put, nothing else of the record changes, and no account
   * appears.
   */
  ghost predicate Keeps(p: Pass, q: Pass) {
    Sound(q.copies) && Advances(p.copies, q.copies) && q.accounts.Keys <= p.accounts.Keys
  }

  lemma ConditionKeeps(c: Copies, to: Condition, fails: bool)
    requires Sound(c)
    ensures Sound(UpdateCondition(c, to, fails).0) && Advances(c, UpdateCondition(c, to, fails).0)
    ensures UpdateCondition(c, to, fails).0.mem.status.accounts == c.mem.status.accounts
    ensures UpdateCondition(c, to, fails).1 && c.mem.status == c.saved.status ==>
              UpdateCondition(c, to, fails).0.mem.status == UpdateCondition(c, to, fails).0.saved.status
  {
  }

  lemma AccountDeletedKeeps(p: Pass, member: string, calls: Calls)
    requires Sound(p.copies)
    ensures Keeps(p, AccountDeleted(p, member, calls).0)
  {
    var (q, _) := AccountDeleted(p, member, calls);
    if member in calls.unreachable {
      assert q == p;
    } else if member !in p.accounts {
      RemovingKeeps(p.copies, member, calls.now, SyncOf(calls, member));
      assert q == p.(copies := AccountRemoved(p.copies, member, calls.now, SyncOf(calls, member)).0);
    } else if p.accounts[member].deletedAt.Some? {
      var e := Entry(member, p.accounts[member].status);
      SynchronizingKeeps(p.copies, e, calls.now, SyncOf(calls, member));
      assert q == p.(copies := SynchronizedStatus(p.copies, e, calls.now, SyncOf(calls, member)).0);
    } else {
      assert q.copies == p.copies;
    }
  }

  lemma FailingKeeps(p: Pass, reason: string, calls: Calls)
    requires Sound(p.copies)
    ensures Keeps(p, Failing(p, reason, calls))
  {
    ConditionKeeps(p.copies, Condition(false, reason, calls.message), calls.failureWriteFails);
  }

  lemma KeepsComposes(p: Pass, q: Pass, r: Pass)
    requires Keeps(p, q) && Keeps(q, r)
    ensures Keeps(p, r)
  {
  }

  lemma {:induction false} AccountsNotPresentKeeps(p: Pass, members: seq<string>, calls: Calls)
    requires Sound(p.copies)
    ensures Keeps(p, AccountsNotPresent(p, members, calls).0)
    decreases |members|
  {
    if members != [] {
      AccountDeletedKeeps(p, members[0], calls);
      var (q, outcome) := AccountDeleted(p, members[0], calls);
      if outcome == Failed {
        FailingKeeps(q, "UnableToDeleteUserAccounts", calls);
        KeepsComposes(p, q, Failing(q, "UnableToDeleteUserAccounts", calls));
      } else if outcome == Done {
        AccountsNotPresentKeeps(q, members[1..], calls);
        KeepsComposes(p, q, AccountsNotPresent(q, members[1..], calls).0);
      }
    }
  }

  /** The list after a completed pass: the entries of the members passed over are gone, all others are kept. */
  ghost predicate Cleared(p: Pass, q: Pass, members: seq<string>) {
    && q.accounts == p.accounts
    && (forall m | m in members :: m !in p.accounts)
    && (p.copies.saved.status == p.copies.mem.status ==> q.copies.saved.status == q.copies.mem.status)
    && (forall x :: x in q.copies.mem.status.accounts <==> x in p.copies.mem.status.accounts && x.cluster !in members)
  }

  /** If every member was dealt with, none of them holds the account, whatever the order they were visited in. */
  lemma {:induction false} DoneMeansAbsent(p: Pass, members: seq<string>, calls: Calls)
    requires Sound(p.copies) && AccountsNotPresent(p, members, calls).1 == Done
    ensures Cleared(p, AccountsNotPresent(p, members, calls).0, members)
    decreases |members|
  {
    if members != [] {
      var m := members[0];
      var (q, outcome) := AccountDeleted(p, m, calls);
      assert outcome == Done && m !in p.accounts;
      RemovingKeeps(p.copies, m, calls.now, SyncOf(calls, m));
      DoneMeansAbsent(q, members[1..], calls);
      assert members == [m] + members[1..];
    }
  }

  // ---------- Provisioning ----------

  /** As `Keeps`, except that the target may get an account. */
  ghost predicate KeepsBut(p: Pass, q: Pass, target: string) {
    Sound(q.copies) && Advances(p.copies, q.copies) && q.accounts.Keys <= p.accounts.Keys + {target}
  }

  lemma SpecSynchronizedKeeps(p: Pass, target: string, calls: Calls)
    requires Sound(p.copies) && target in p.accounts
    ensures Keeps(p, SpecSynchronized(p, target, calls).0)
    ensures var (q, updated, ok) := SpecSynchronized(p, target, calls);
            ok && !updated ==> q == p && p.accounts[target].spec == p.copies.mem.spec
  {
    ConditionKeeps(p.copies, Condition(false, "Updating", ""), calls.conditionFails);
  }

  lemma AccountEnsuredKeeps(p: Pass, target: string, known: set<string>, calls: Calls)
    requires Sound(p.copies)
    ensures KeepsBut(p, AccountEnsured(p, target, known, calls).pass, target)
    ensures target !in known ==> Keeps(p, AccountEnsured(p, target, known, calls).pass)
  {
    if target !in known {
      FailingKeeps(p, "TargetClusterNotReady", calls);
    } else if target in calls.unreachable {
      FailingKeeps(p, "UnableToGetUserAccount", calls);
    } else if target !in p.accounts {
      FailingKeeps(p, "UnableToCreateUserAccount", calls);
      ConditionKeeps(p.copies, PROVISIONING, calls.conditionFails);
    } else if p.accounts[target].deletedAt.Some? {
      ConditionKeeps(p.copies, Condition(false, "Provisioning", "recovering deleted UserAccount"),
          calls.conditionFails);
    } else {
      PresentAccountKeeps(p, target, calls);
    }
  }

  lemma PresentAccountKeeps(p: Pass, target: string, calls: Calls)
    requires Sound(p.copies) && target in p.accounts
    ensures var (q, updated, ok) := SpecSynchronized(p, target, calls);
            && Keeps(p, Failing(q, "UnableToSynchronizeUserAccountSpec", calls))
            && var c := SynchronizedStatus(q.copies, Entry(target, q.accounts[target].status), calls.now,
                  SyncOf(calls, target)).0;
               Keeps(p, q.(copies := c)) && Keeps(p, FailingAsIs(q.(copies := c), calls))
  {
    SpecSynchronizedKeeps(p, target, calls);
    var q := SpecSynchronized(p, target, calls).0;
    FailingKeeps(q, "UnableToSynchronizeUserAccountSpec", calls);
    KeepsComposes(p, q, Failing(q, "UnableToSynchronizeUserAccountSpec", calls));
    var e := Entry(target, q.accounts[target].status);
    SynchronizingKeeps(q.copies, e, calls.now, SyncOf(calls, target));
    var r := q.(copies := SynchronizedStatus(q.copies, e, calls.now, SyncOf(calls, target)).0);
    KeepsComposes(p, q, r);
    var ready := r.copies.mem.status.ready;
    var cond := if ready.Some? then ready.value.(message := calls.message) else Condition(false, "", calls.message);
    ConditionKeeps(r.copies, cond, calls.failureWriteFails);
    KeepsComposes(p, r, FailingAsIs(r, calls));
  }

  lemma LastAlignmentKeeps(p: Pass, calls: Calls)
    requires Sound(p.copies)
    ensures Keeps(p, LastAlignment(p, calls).0)
    ensures LastAlignment(p, calls).0.accounts == p.accounts
    ensures var (q, report) := LastAlignment(p, calls);
            report != Error ==> q.copies.saved.status == q.copies.mem.status
                                && q.copies.mem.status.accounts == p.copies.mem.status.accounts
  {
    AlignmentKeeps(p.copies.mem, calls.now, calls.last.notifyFails);
    WriteKeeps(p.copies, p.copies.(mem := AlignReadiness(p.copies.mem, calls.now, calls.last.notifyFails).mur),
        calls.last.writeFails);
  }

  /** Accounts may appear, but only where the controller can find them again. */
  ghost predicate KeepsWithin(p: Pass, q: Pass, known: set<string>) {
    Sound(q.copies) && Advances(p.copies, q.copies) && q.accounts.Keys <= p.accounts.Keys + known
  }

  lemma ProvisionKeeps(p: Pass, known: set<string>, calls: Calls)
    requires Sound(p.copies)
    ensures KeepsWithin(p, Provision(p, known, calls).0, known)
  {
    FailingKeeps(p, "UnableToCreateUserAccount", calls);
    if calls.bindings.Some? && TargetOf(calls.bindings.value).Ok? {
      match TargetOf(calls.bindings.value).value
      case Some(target) =>
        AccountEnsuredKeeps(p, target, known, calls);
        AccountsNotPresentKeeps(AccountEnsured(p, target, known, calls).pass, Without(calls.order, target), calls);
      case None =>
        AccountsNotPresentKeeps(p, calls.order, calls);
        var q := AccountsNotPresent(p, calls.order, calls).0;
        LastAlignmentKeeps(q, calls);
        KeepsComposes(p, q, LastAlignment(q, calls).0);
    }
  }

  // ---------- What a settled reconcile means ----------

  lemma {:induction false} WithoutDrops(members: seq<string>, target: string)
    ensures forall m :: m in Without(members, target) <==> m in members && m != target
    decreases |members|
  {
    if members != [] {
      WithoutDrops(members[1..], target);
      assert members == [members[0]] + members[1..];
    }
  }

  /**
   * The stored list agrees with the members: the target's entry mirrors its account, no other known member is
   * listed or holds an account.
   */
  ghost predicate Agrees(m: Mur, accounts: map<string, UserAccount>, target: Option<string>, known: set<string>) {
    && (forall c | c in known && c in accounts :: target == Some(c))
    && (forall x | x in m.status.accounts && x.cluster in known :: target == Some(x.cluster))
    && (target.Some? ==>
          target.value in accounts && accounts[target.value].spec == m.spec
          && accounts[target.value].deletedAt == None
          && Entry(target.value, accounts[target.value].status) in m.status.accounts)
  }

  lemma EnsuredMirrors(p: Pass, target: string, known: set<string>, calls: Calls)
    requires Sound(p.copies)
    requires var e := AccountEnsured(p, target, known, calls); e.ok && !e.touched
    ensures target in p.accounts && p.accounts[target].spec == p.copies.mem.spec && p.accounts[target].deletedAt == None
    ensures var q := AccountEnsured(p, target, known, calls).pass;
            && q.accounts == p.accounts && q.copies.saved.status == q.copies.mem.status
            && q.copies.mem.spec == p.copies.mem.spec
            && forall x | x in q.copies.mem.status.accounts && x.cluster == target ::
                  x == Entry(target, p.accounts[target].status)
    ensures Entry(target, p.accounts[target].status) in AccountEnsured(p, target, known,
            calls).pass.copies.mem.status.accounts
  {
    assert target in p.accounts;
    SpecSynchronizedKeeps(p, target, calls);
    var e := Entry(target, p.accounts[target].status);
    SynchronizedMirrorsMember(p.copies, e, calls.now, SyncOf(calls, target));
    SynchronizingKeeps(p.copies, e, calls.now, SyncOf(calls, target));
  }

  lemma SettledAfterTarget(p: Pass, target: string, known: set<string>, calls: Calls)
    requires Sound(p.copies) && forall m :: m in calls.order <==> m in known
    requires var e := AccountEnsured(p, target, known, calls); e.ok && !e.touched
    requires AccountsNotPresent(AccountEnsured(p, target, known, calls).pass, Without(calls.order, target), calls).1
             == Done
    ensures var q :=
            AccountsNotPresent(AccountEnsured(p, target, known, calls).pass, Without(calls.order, target), calls).0;
            Agrees(q.copies.mem, q.accounts, Some(target), known) && q.copies.saved.status == q.copies.mem.status
  {
    EnsuredMirrors(p, target, known, calls);
    AccountEnsuredKeeps(p, target, known, calls);
    var e := AccountEnsured(p, target, known, calls).pass;
    WithoutDrops(calls.order, target);
    DoneMeansAbsent(e, Without(calls.order, target), calls);
    AccountsNotPresentKeeps(e, Without(calls.order, target), calls);
  }

  /**
   * A reconcile that reports success leaves a stored status that agrees with the members, whatever was in the list and
   * on the members before.
   */
  lemma SettledMeansAgreement(p: Pass, known: set<string>, calls: Calls)
    requires Sound(p.copies) && forall m :: m in calls.order <==> m in known
    requires Provision(p, known, calls).1.Settled?
    ensures var (q, report) := Provision(p, known, calls);
            Agrees(q.copies.mem, q.accounts, report.target, known) && q.copies.saved.status == q.copies.mem.status
  {
    match TargetOf(calls.bindings.value).value
    case Some(target) =>
      SettledAfterTarget(p, target, known, calls);
    case None =>
      DoneMeansAbsent(p, calls.order, calls);
      AccountsNotPresentKeeps(p, calls.order, calls);
      LastAlignmentKeeps(AccountsNotPresent(p, calls.order, calls).0, calls);
  }

  // ---------- Runs ----------

  datatype Event =
    | Create(mur: Mur)
    | Delete
    | Edit(spec: string, skipSpace: bool)
    | Report(member: string, status: AccountStatus)
    | DeleteAccount(member: string, at: int)
    | Vanish(member: string)
    | Reconcile(calls: Calls)

  /** A new record has no finalizer and an empty status, and each pass visits every known member. */
  ghost predicate Possible(e: Event, known: set<string>) {
    && (e.Create? ==> e.mur.status == Status([], None, false, None) && !e.mur.finalizer && !e.mur.beingDeleted)
    && (e.Reconcile? ==> forall m :: m in e.calls.order <==> m in known)
  }

  function Next(w: World, known: set<string>, e: Event): World {
    match e
    case Create(m) => if w.mur.None? then w.(mur := Some(m)) else w
    case Delete =>
      if w.mur.None? then w
      else w.(mur := if w.mur.value.finalizer then Some(w.mur.value.(beingDeleted := true)) else None)
    case Edit(spec, skipSpace) =>
      if w.mur.None? then w else w.(mur := Some(w.mur.value.(spec := spec, skipSpace := skipSpace)))
    case Report(m, status) =>
      if m in w.accounts
      then w.(accounts := w.accounts[m := w.accounts[m].(status := status)]) else w
    case DeleteAccount(m, at) =>
      if m in w.accounts then w.(accounts := w.accounts[m := w.accounts[m].(deletedAt := Some(at))]) else w
    case Vanish(m) => w.(accounts := w.accounts - {m})
    case Reconcile(calls) => Reconciled(w, known, calls).0
  }

  function Run(w: World, known: set<string>, events: seq<Event>): World
    decreases |events|
  {
    if events == [] then w else Next(Run(w, known, events[..|events| - 1]), known, events[|events| - 1])
  }

  /** No account outlives the finalizer, or sits where the controller does not look. */
  ghost predicate Inv(w: World, known: set<string>) {
    && w.accounts.Keys <= known
    && (w.accounts.Keys != {} ==> w.mur.Some? && w.mur.value.finalizer)
    && (w.mur.Some? ==> OnePerCluster(w.mur.value.status.accounts))
  }

  lemma CleanUpKeeps(p: Pass, calls: Calls)
    requires Sound(p.copies)
    ensures var (q, report) := CleanUp(p, calls);
            && OnePerCluster(q.copies.saved.status.accounts) && SetOnce(p.copies.saved, q.copies.saved)
            && q.accounts.Keys <= p.accounts.Keys
            && (report != Released ==> q.copies.saved.finalizer == p.copies.saved.finalizer)
            && (report == Released ==> forall m | m in calls.order :: m !in p.accounts && m !in q.accounts)
  {
    AccountsNotPresentKeeps(p, calls.order, calls);
    var (q, outcome) := AccountsNotPresent(p, calls.order, calls);
    if outcome == Done {
      DoneMeansAbsent(p, calls.order, calls);
      var r := q.(copies := q.copies.(mem := q.copies.mem.(finalizer := false)));
      FailingKeeps(r, "UnableToRemoveFinalizer", calls);
    }
  }

  lemma FinalizerAddedKeeps(c: Copies, calls: Calls)
    requires Sound(c) && c.mem == c.saved
    ensures var (d, ok) := FinalizerAdded(c, calls);
            && Sound(d) && SetOnce(c.mem, d.mem) && SetOnce(c.saved, d.saved)
            && (c.saved.finalizer ==> d.saved.finalizer) && (ok ==> d.saved.finalizer && d.saved.status == d.mem.status)
  {
    if !c.mem.finalizer {
      var d := c.(mem := c.mem.(finalizer := true));
      ConditionKeeps(d, Condition(false, "UnableToAddFinalizer", calls.message), calls.failureWriteFails);
    }
  }

  lemma PassKeeps(p: Pass, known: set<string>, calls: Calls)
    requires Sound(p.copies) && p.copies.mem == p.copies.saved
    ensures var (q, report) := ReconciledPass(p, known, calls);
            && OnePerCluster(q.copies.saved.status.accounts) && SetOnce(p.copies.saved, q.copies.saved)
            && q.accounts.Keys <= p.accounts.Keys + known
            && (p.copies.saved.finalizer && report != Released ==> q.copies.saved.finalizer)
            && (q.accounts.Keys <= p.accounts.Keys || (q.copies.saved.finalizer && report != Released))
            && (report == Released ==> forall m | m in calls.order :: m !in p.accounts && m !in q.accounts)
  {
    if p.copies.mem.beingDeleted {
      if p.copies.mem.finalizer {
        CleanUpKeeps(p, calls);
      }
    } else {
      FinalizerAddedKeeps(p.copies, calls);
      var (c, ok) := FinalizerAdded(p.copies, calls);
      if ok {
        ProvisionKeeps(p.(copies := c), known, calls);
      }
    }
  }

  /** The finalizer goes only when no known member holds the account, even at the very end of the pass. */
  lemma ReleasedOnlyWhenGone(w: World, known: set<string>, calls: Calls)
    requires w.mur.Some? && OnePerCluster(w.mur.value.status.accounts) && (forall m :: m in calls.order <==> m in known)
    requires Reconciled(w, known, calls).0.mur.None?
    ensures forall m | m in known :: m !in w.accounts && m !in Reconciled(w, known, calls).0.accounts
  {
    PassKeeps(Pass(Copies(w.mur.value, w.mur.value), w.accounts), known, calls);
  }

  /**
   * What can outlive the finalizer: exactly the accounts on clusters that are not among the known members when it is
   * removed, such as a member taken out of the configuration.
   */
  lemma OutlivesTheFinalizer(w: World, known: set<string>, calls: Calls, m: string)
    requires w.mur.Some? && OnePerCluster(w.mur.value.status.accounts) && (forall k :: k in calls.order <==> k in known)
    requires Reconciled(w, known, calls).0.mur.None?
    ensures m in Reconciled(w, known, calls).0.accounts <==> m in w.accounts && m !in known
  {
    var p := Pass(Copies(w.mur.value, w.mur.value), w.accounts);
    PassKeeps(p, known, calls);
    assert ReconciledPass(p, known, calls) == CleanUp(p, calls);
    DoneMeansAbsent(p, calls.order, calls);
  }

  lemma EventKeepsInv(w: World, known: set<string>, e: Event)
    requires Inv(w, known) && Possible(e, known)
    ensures Inv(Next(w, known, e), known)
    ensures var x := Next(w, known, e); w.mur.Some? && x.mur.Some? ==> SetOnce(w.mur.value, x.mur.value)
  {
    if e.Reconcile? && w.mur.Some? {
      var p := Pass(Copies(w.mur.value, w.mur.value), w.accounts);
      PassKeeps(p, known, e.calls);
      var (q, report) := ReconciledPass(p, known, e.calls);
      if report == Released {
        assert forall m | m in q.accounts :: m in known;
        assert q.accounts.Keys == {};
      }
    }
  }

  /**
   * In every run, with any failures: no UserAccount exists without a record that still carries its finalizer, and
   * the stored status never lists a cluster twice.
   */
  lemma {:induction false} RunKeepsInv(known: set<string>, events: seq<Event>)
    requires forall e | e in events :: Possible(e, known)
    ensures Inv(Run(World(None, map[]), known, events), known)
    decreases |events|
  {
    if events != [] {
      var before := events[..|events| - 1];
      RunKeepsInv(known, before);
      EventKeepsInv(Run(World(None, map[]), known, before), known, events[|events| - 1]);
    }
  }

  /** As long as a record exists, the time it was first provisioned never changes. */
  lemma {:induction false} ProvisionedTimeIsFinal(known: set<string>, events: seq<Event>, i: nat, t: int)
    requires i <= |events| && forall e | e in events :: Possible(e, known)
    requires forall k | i <= k <= |events| :: Run(World(None, map[]), known, events[..k]).mur.Some?
    requires Run(World(None, map[]), known, events[..i]).mur.value.status.provisioned == Some(t)
    ensures Run(World(None, map[]), known, events).mur.Some?
    ensures Run(World(None, map[]), known, events).mur.value.status.provisioned == Some(t)
    decreases |events|
  {
    var start := World(None, map[]);
    assert events[..|events|] == events;
    if i < |events| {
      var before := events[..|events| - 1];
      forall k | i <= k <= |before| ensures before[..k] == events[..k] && Run(start, known, before[..k]).mur.Some? {
        assert before[..k] == events[..k];
      }
      ProvisionedTimeIsFinal(known, before, i, t);
      RunKeepsInv(known, before);
      EventKeepsInv(Run(start, known, before), known, events[|events| - 1]);
    }
  }
}
