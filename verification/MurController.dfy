/** The MasterUserRecord synchronizer and reconciler as they run, updating the record in place. */
module MurController {
  import opened Base
  import opened MurStatus
  import opened MurControl

  /** The record a reconcile has read and works on. */
  class Record {
    const spec: string
    const skipSpace: bool
    const beingDeleted: bool
    var finalizer: bool
    var accounts: seq<Entry>
    var ready: Option<Condition>
    var notified: bool
    var provisioned: Option<int>

    function StatusValue(): Status
      reads this
    {
      Status(accounts, ready, notified, provisioned)
    }

    function Value(): Mur
      reads this
    {
      Mur(spec, skipSpace, beingDeleted, finalizer, StatusValue())
    }

    constructor (m: Mur)
      ensures Value() == m
    {
      spec, skipSpace, beingDeleted, finalizer := m.spec, m.skipSpace, m.beingDeleted, m.finalizer;
      accounts, ready, notified, provisioned := m.status.accounts, m.status.ready, m.status.notified,
          m.status.provisioned;
    }

    method GetUserAccountStatus(cluster: string) returns (index: int)
      ensures index == if Lists(accounts, cluster) then IndexOf(accounts, cluster) else -1
    {
      for i := 0 to |accounts|
        invariant forall j | 0 <= j < i :: accounts[j].cluster != cluster
      {
        if accounts[i].cluster == cluster {
          return i;
        }
      }
      return -1;
    }

    method AlignReadiness(now: int, notifyFails: bool) returns (isReady: bool, ok: bool)
      modifies this
      ensures Alignment(Value(), isReady, ok) == MurStatus.AlignReadiness(old(Value()), now, notifyFails)
    {
      for i := 0 to |accounts|
        invariant forall j | 0 <= j < i :: IsReady(accounts[j])
        invariant Value() == old(Value())
      {
        if accounts[i].status.ready.None? || !accounts[i].status.ready.value.isTrue {
          assert !IsReady(accounts[i]);
          return false, true;
        }
      }
      if !skipSpace && |accounts| == 0 {
        if provisioned == None {
          ready := Some(PROVISIONING);
          return false, true;
        }
      }
      ready := Some(PROVISIONED);
      if provisioned == None {
        provisioned := Some(now);
      }
      if !notified {
        if notifyFails {
          return false, false;
        }
        notified := true;
      }
      return true, true;
    }

    method AlignDisabled()
      modifies this
      ensures Value() == MurStatus.AlignDisabled(old(Value()))
    {
      for i := 0 to |accounts|
        invariant forall j | 0 <= j < i :: IsDisabled(accounts[j])
        invariant Value() == old(Value())
      {
        if !IsDisabled(accounts[i]) {
          return;
        }
      }
      if |accounts| > 0 {
        ready := Some(DISABLED);
      }
    }
  }

  /** The stored record and the accounts on the member clusters. */
  class Store {
    var saved: Mur
    var accounts: map<string, UserAccount>

    constructor (saved: Mur, accounts: map<string, UserAccount>)
      ensures this.saved == saved && this.accounts == accounts
    {
      this.saved, this.accounts := saved, accounts;
    }

    method UpdateStatus(record: Record, fails: bool) returns (ok: bool)
      modifies this`saved
      ensures (Copies(record.Value(), saved), ok) == WriteStatus(Copies(record.Value(), old(saved)), fails)
    {
      if !fails {
        saved := saved.(status := record.StatusValue());
      }
      return !fails;
    }

    method UpdateStatusConditions(record: Record, to: Condition, fails: bool) returns (ok: bool)
      modifies this`saved, record
      ensures (Copies(record.Value(), saved), ok) == UpdateCondition(Copies(old(record.Value()), old(saved)), to, fails)
    {
      if record.ready == Some(to) {
        return true;
      }
      record.ready := Some(to);
      ok := UpdateStatus(record, fails);
    }
  }

  class Synchronizer {
    const cluster: string
    const record: Record
    const store: Store
    const now: int
    const calls: SyncCalls

    constructor (cluster: string, record: Record, store: Store, now: int, calls: SyncCalls)
      ensures this.cluster == cluster && this.record == record && this.store == store && this.now == now
              && this.calls == calls
    {
      this.cluster, this.record, this.store, this.now, this.calls := cluster, record, store, now, calls;
    }

    function Both(): Copies
      reads record, store
    {
      Copies(record.Value(), store.saved)
    }

    method RemoveAccountFromStatus() returns (ok: bool)
      modifies record, store`saved
      ensures (Both(), ok) == AccountRemoved(old(Both()), cluster, now, calls)
    {
      for i := 0 to |record.accounts|
        invariant Both() == old(Both())
        invariant forall j | 0 <= j < i :: record.accounts[j].cluster != cluster
      {
        if record.accounts[i].cluster == cluster {
          assert IndexOf(record.accounts, cluster) == i;
          record.accounts := record.accounts[..i] + record.accounts[i + 1..];
          assert record.Value() == Listing(old(record.Value()), WithoutCluster(old(record.accounts), cluster));
          if !record.beingDeleted {
            var _, aligned := record.AlignReadiness(now, calls.notifyFails);
            if !aligned {
              return false;
            }
          }
          ok := store.UpdateStatus(record, calls.writeFails);
          return;
        }
      }
      return true;
    }

    method SynchronizeStatus(status: AccountStatus) returns (ok: bool)
      modifies record, store`saved
      ensures (Both(), ok) == SynchronizedStatus(old(Both()), Entry(cluster, status), now, calls)
    {
      var index := record.GetUserAccountStatus(cluster);
      var expected := Entry(cluster, status);
      if cluster != "" && calls.detailsFail {
        return false;
      }
      if index < 0 || record.accounts[index] != expected {
        ok := WriteChanged(index, expected);
        return;
      }
      assert WithEntry(record.accounts, expected) == record.accounts;
      var _, aligned := record.AlignReadiness(now, calls.notifyFails);
      if !aligned {
        return false;
      }
      ok := store.UpdateStatus(record, calls.writeFails);
    }

    /** A failed write undoes the change of the list; a failed alignment does not. */
    method WriteChanged(index: int, expected: Entry) returns (ok: bool)
      requires index == if Lists(record.accounts, expected.cluster) then IndexOf(record.accounts, expected.cluster)
               else -1
      requires !UpToDate(record.Value(), expected)
      modifies record, store`saved
      ensures (Both(), ok) == Followed(old(Both()),
                AlignReadiness(Listing(old(record.Value()), WithEntry(old(record.accounts), expected)), now,
                    calls.notifyFails),
                false, calls.writeFails)
    {
      ghost var before := record.Value();
      var original := expected;
      if index < 0 {
        record.accounts := record.accounts + [expected];
      } else {
        original := record.accounts[index];
        record.accounts := record.accounts[index := expected];
      }
      ghost var listed := record.Value();
      assert listed == Listing(before, WithEntry(before.status.accounts, expected));
      AlignmentKeeps(listed, now, calls.notifyFails);
      var ready, aligned := record.AlignReadiness(now, calls.notifyFails);
      if !aligned {
        return false;
      }
      if !ready {
        DisablingKeeps(record.Value());
        record.AlignDisabled();
      }
      assert record.accounts == listed.status.accounts;
      ok := store.UpdateStatus(record, calls.writeFails);
      if !ok {
        Undo(index, original);
        assert record.accounts == before.status.accounts;
      }
    }

    method Undo(index: int, original: Entry)
      requires index < |record.accounts| && |record.accounts| > 0
      modifies record
      ensures record.Value() == Listing(old(record.Value()),
                if index < 0 then old(record.accounts[..|record.accounts| - 1])
                    else old(record.accounts)[index := original])
    {
      if index < 0 {
        record.accounts := record.accounts[..|record.accounts| - 1];
      } else {
        record.accounts := record.accounts[index := original];
      }
    }
  }

  class Reconciler {
    const record: Record
    const store: Store
    const known: set<string>

    constructor (record: Record, store: Store, known: set<string>)
      ensures this.record == record && this.store == store && this.known == known
    {
      this.record, this.store, this.known := record, store, known;
    }

    function State(): Pass
      reads record, store
    {
      Pass(Copies(record.Value(), store.saved), store.accounts)
    }

    method SetStatusFailed(reason: string, calls: Calls)
      modifies record, store`saved
      ensures State() == Failing(old(State()), reason, calls)
    {
      var _ := store.UpdateStatusConditions(record, Condition(false, reason, calls.message), calls.failureWriteFails);
    }

    method UseExistingCondition(calls: Calls)
      modifies record, store`saved
      ensures State() == FailingAsIs(old(State()), calls)
    {
      var cond := Condition(false, "", calls.message);
      if record.ready.Some? {
        cond := record.ready.value.(message := calls.message);
      }
      var _ := store.UpdateStatusConditions(record, cond, calls.failureWriteFails);
    }

    method DeleteUserAccount(member: string, calls: Calls) returns (outcome: Outcome)
      modifies record, store
      ensures (State(), outcome) == AccountDeleted(old(State()), member, calls)
    {
      if member in calls.unreachable {
        return Failed;
      }
      var sync := new Synchronizer(member, record, store, calls.now, SyncOf(calls, member));
      if member !in store.accounts {
        var ok := sync.RemoveAccountFromStatus();
        return if ok then Done else Failed;
      }
      var account := store.accounts[member];
      if account.deletedAt.Some? {
        var ok := sync.SynchronizeStatus(account.status);
        if !ok {
          return Failed;
        }
        return if calls.now - account.deletedAt.value > 60 then Failed else Requeue;
      }
      if member in calls.deleteFails {
        return Failed;
      }
      store.accounts := store.accounts[member := account.(deletedAt := Some(calls.now))];
      return Requeue;
    }

    method EnsureUserAccountsAreNotPresent(members: seq<string>, calls: Calls) returns (outcome: Outcome)
      modifies record, store
      ensures (State(), outcome) == AccountsNotPresent(old(State()), members, calls)
    {
      for i := 0 to |members|
        invariant AccountsNotPresent(old(State()), members, calls) == AccountsNotPresent(State(), members[i..], calls)
      {
        outcome := DeleteUserAccount(members[i], calls);
        if outcome == Failed {
          SetStatusFailed("UnableToDeleteUserAccounts", calls);
          return;
        } else if outcome == Requeue {
          return;
        }
        assert members[i..][1..] == members[i + 1..];
      }
      return Done;
    }

    method MembersWithout(members: seq<string>, target: string) returns (rest: seq<string>)
      ensures rest == Without(members, target)
    {
      rest := [];
      for i := 0 to |members|
        invariant Without(members, target) == rest + Without(members[i..], target)
      {
        assert members[i..][1..] == members[i + 1..];
        if members[i] != target {
          rest := rest + [members[i]];
        }
      }
    }

    method SynchronizeSpec(target: string, calls: Calls) returns (updated: bool, ok: bool)
      requires target in store.accounts
      modifies record, store
      ensures (State(), updated, ok) == SpecSynchronized(old(State()), target, calls)
    {
      var account := store.accounts[target];
      if account.spec == record.spec {
        return false, true;
      }
      ok := store.UpdateStatusConditions(record, Condition(false, "Updating", ""), calls.conditionFails);
      if !ok || calls.specFails {
        return false, false;
      }
      store.accounts := store.accounts[target := account.(spec := record.spec)];
      return true, true;
    }

    method EnsureUserAccount(target: string, calls: Calls) returns (touched: bool, ok: bool)
      modifies record, store
      ensures Ensured(State(), touched, ok) == AccountEnsured(old(State()), target, known, calls)
    {
      touched, ok := false, false;
      if target !in known {
        SetStatusFailed("TargetClusterNotReady", calls);
        return;
      }
      if target in calls.unreachable {
        SetStatusFailed("UnableToGetUserAccount", calls);
        return;
      }
      if target !in store.accounts {
        if calls.createFails {
          SetStatusFailed("UnableToCreateUserAccount", calls);
          return;
        }
        store.accounts := store.accounts[target := UserAccount(record.spec, AccountStatus(None, ""), None)];
        touched := true;
        ok := store.UpdateStatusConditions(record, PROVISIONING, calls.conditionFails);
        return;
      }
      if store.accounts[target].deletedAt.Some? {
        touched := true;
        ok := store.UpdateStatusConditions(record, Condition(false, "Provisioning", "recovering deleted UserAccount"),
            calls.conditionFails);
        return;
      }
      var updated, specOk := SynchronizeSpec(target, calls);
      if !specOk {
        SetStatusFailed("UnableToSynchronizeUserAccountSpec", calls);
        return;
      }
      var sync := new Synchronizer(target, record, store, calls.now, SyncOf(calls, target));
      var synced := sync.SynchronizeStatus(store.accounts[target].status);
      if !synced {
        UseExistingCondition(calls);
        return;
      }
      return updated, true;
    }

    /** The first binding that is not being deleted and leads to the user's own Space decides. */
    method FindTarget(bindings: seq<Binding>) returns (r: Result<Option<string>, ()>)
      ensures r == TargetOf(bindings)
    {
      for i := 0 to |bindings|
        invariant TargetOf(bindings) == TargetOf(bindings[i..])
      {
        assert bindings[i..][1..] == bindings[i + 1..];
        if !bindings[i].beingDeleted {
          if bindings[i].space.None? {
            return Err(());
          }
          var space := bindings[i].space.value;
          if !space.beingDeleted && space.target != "" && space.ownedByUser {
            return Ok(Some(space.target));
          }
        }
      }
      return Ok(None);
    }

    method AddFinalizer(calls: Calls) returns (ok: bool)
      modifies record, store`saved
      ensures (State().copies, ok) == FinalizerAdded(old(State().copies), calls)
    {
      if !record.finalizer {
        record.finalizer := true;
        if calls.finalizerFails {
          SetStatusFailed("UnableToAddFinalizer", calls);
          return false;
        }
        store.saved := store.saved.(finalizer := true);
      }
      return true;
    }

    method ManageCleanUp(calls: Calls) returns (report: Report)
      modifies record, store
      ensures (State(), report) == CleanUp(old(State()), calls)
    {
      var outcome := EnsureUserAccountsAreNotPresent(calls.order, calls);
      if outcome == Failed {
        return Error;
      } else if outcome == Requeue {
        return Again;
      }
      record.finalizer := false;
      if calls.finalizerFails {
        SetStatusFailed("UnableToRemoveFinalizer", calls);
        return Error;
      }
      store.saved := store.saved.(finalizer := false);
      return Released;
    }

    method EnsureProvisioned(calls: Calls) returns (report: Report)
      modifies record, store
      ensures (State(), report) == Provision(old(State()), known, calls)
    {
      if calls.bindings.None? {
        SetStatusFailed("UnableToCreateUserAccount", calls);
        return Error;
      }
      var target := FindTarget(calls.bindings.value);
      if target.Err? {
        SetStatusFailed("UnableToCreateUserAccount", calls);
        return Error;
      }
      var others := calls.order;
      if target.value.Some? {
        var touched, ok := EnsureUserAccount(target.value.value, calls);
        if !ok {
          return Error;
        }
        if touched {
          return Touched;
        }
        others := MembersWithout(calls.order, target.value.value);
      }
      var outcome := EnsureUserAccountsAreNotPresent(others, calls);
      if outcome == Failed {
        return Error;
      } else if outcome == Requeue {
        return Again;
      }
      if target.value.None? {
        var _, aligned := record.AlignReadiness(calls.now, calls.last.notifyFails);
        if !aligned {
          return Error;
        }
        var written := store.UpdateStatus(record, calls.last.writeFails);
        if !written {
          return Error;
        }
      }
      return Settled(target.value);
    }

    method Reconcile(calls: Calls) returns (report: Report)
      modifies record, store
      ensures (State(), report) == ReconciledPass(old(State()), known, calls)
    {
      if !record.beingDeleted {
        var ok := AddFinalizer(calls);
        if !ok {
          return Error;
        }
        report := EnsureProvisioned(calls);
      } else if record.finalizer {
        report := ManageCleanUp(calls);
      } else {
        report := Absent;
      }
    }
  }
}
