/**
 * The MasterUserRecord controller gets there: a deleted record goes with all its accounts, a living one ends on
 * its target.
 */
module MurProgress {
  import opened Base
  import opened MurStatus
  import opened MurControl
  import opened MurEffects
  import opened MurRuns

  // ---------- One pass over the members ----------

  /** Every call works. */
  predicate Works(calls: Calls) {
    && calls.unreachable == {} && calls.deleteFails == {} && calls.sync == map[] && !calls.createFails
    && !calls.specFails
    && !calls.finalizerFails && !calls.conditionFails && !calls.failureWriteFails
    && calls.last == SyncCalls(false, false, false)
  }

  /** Members without the account are passed over, whatever the status lists. */
  lemma {:induction false} PassesOver(p: Pass, members: seq<string>, calls: Calls)
    requires Sound(p.copies) && Works(calls) && forall m | m in members :: m !in p.accounts
    ensures AccountsNotPresent(p, members, calls).1 == Done
    ensures AccountsNotPresent(p, members, calls).0.accounts == p.accounts
    decreases |members|
  {
    if members != [] {
      var (q, outcome) := AccountDeleted(p, members[0], calls);
      RemovingWorks(p.copies, members[0], calls.now);
      assert outcome == Done && q.accounts == p.accounts;
      AccountDeletedKeeps(p, members[0], calls);
      PassesOver(q, members[1..], calls);
    }
  }

  lemma RemovingWorks(c: Copies, cluster: string, now: int)
    ensures AccountRemoved(c, cluster, now, SyncCalls(false, false, false)).1
  {
  }

  /** The first live account of a working pass is marked, and nothing else about any account changes. */
  lemma {:induction false} FirstLiveIsMarked(p: Pass, members: seq<string>, i: nat, calls: Calls)
    requires Sound(p.copies) && Works(calls) && i < |members| && forall j | 0 <= j < i :: members[j] !in p.accounts
    requires members[i] in p.accounts && p.accounts[members[i]].deletedAt == None
    ensures var (q, outcome) := AccountsNotPresent(p, members, calls);
            && outcome == Requeue
            && q.accounts == p.accounts[members[i] := p.accounts[members[i]].(deletedAt := Some(calls.now))]
    decreases |members|
  {
    if i == 0 {
      LiveAccountIsMarked(p, members[0], calls);
    } else {
      var (q, outcome) := AccountDeleted(p, members[0], calls);
      RemovingWorks(p.copies, members[0], calls.now);
      assert members[0] !in p.accounts && outcome == Done && q.accounts == p.accounts;
      AccountDeletedKeeps(p, members[0], calls);
      forall j | 0 <= j < i - 1 ensures members[1..][j] !in q.accounts {
        assert members[1..][j] == members[j + 1];
      }
      FirstLiveIsMarked(q, members[1..], i - 1, calls);
    }
  }

  // ---------- Runs of working reconciles ----------

  /** A reconcile in which everything works, or the end of the deletion of an account that is being deleted. */
  ghost predicate IsWorking(w: World, known: set<string>, e: Event) {
    && Possible(e, known)
    && ((e.Reconcile? && Works(e.calls))
          || (e.Vanish? && e.member in w.accounts && w.accounts[e.member].deletedAt.Some?))
  }

  ghost predicate IsWorkingRun(w: World, known: set<string>, events: seq<Event>)
    decreases |events|
  {
    events == []
    || (var (before, e) := (events[..|events| - 1], events[|events| - 1]);
        IsWorkingRun(w, known, before) && IsWorking(Run(w, known, before), known, e))
  }

  lemma {:induction false} RunAppend(w: World, known: set<string>, first: seq<Event>, second: seq<Event>)
    requires IsWorkingRun(w, known, first) && IsWorkingRun(Run(w, known, first), known, second)
    ensures IsWorkingRun(w, known, first + second)
    ensures Run(w, known, first + second) == Run(Run(w, known, first), known, second)
    decreases |second|
  {
    if second == [] {
      assert first + second == first;
    } else {
      var n := |second| - 1;
      RunAppend(w, known, first, second[..n]);
      assert (first + second)[..|first + second| - 1] == first + second[..n];
    }
  }

  lemma RunOne(w: World, known: set<string>, e: Event)
    requires IsWorking(w, known, e)
    ensures IsWorkingRun(w, known, [e]) && Run(w, known, [e]) == Next(w, known, e)
  {
    assert [e][..|[e]| - 1] == [];
    assert Run(w, known, []) == w && IsWorkingRun(w, known, []);
  }

  lemma ListOf(members: set<string>) returns (list: seq<string>)
    ensures forall m :: m in list <==> m in members
  {
    list := [];
    var rest := members;
    while rest != {}
      invariant rest <= members && forall m :: m in list <==> m in members - rest
      decreases |rest|
    {
      var m :| m in rest;
      list := list + [m];
      rest := rest - {m};
    }
  }

  /** A reconcile in which everything works and that visits this member first. */
  lemma WorkingCalls(known: set<string>, bindings: seq<Binding>, m: string) returns (calls: Calls)
    requires m in known
    ensures Works(calls) && calls.bindings == Some(bindings) && calls.order != [] && calls.order[0] == m
    ensures forall k :: k in calls.order <==> k in known
  {
    var rest := ListOf(known);
    calls := Calls(0, Some(bindings), [m] + rest, {}, {}, map[], false, false, false, false, false,
                   SyncCalls(false, false, false), "");
  }

  // ---------- A record being deleted ----------

  /** One reconcile marks the account it meets first, and changes nothing else. */
  lemma CleanUpMarks(w: World, known: set<string>, calls: Calls)
    requires Inv(w, known) && w.mur.Some? && w.mur.value.beingDeleted && w.mur.value.finalizer
    requires Works(calls) && calls.order != [] && calls.order[0] in w.accounts
             && w.accounts[calls.order[0]].deletedAt == None
    ensures var m := calls.order[0];
            Reconciled(w, known, calls).0
                == w.(accounts := w.accounts[m := w.accounts[m].(deletedAt := Some(calls.now))])
  {
    var p := Pass(Copies(w.mur.value, w.mur.value), w.accounts);
    LiveAccountIsMarked(p, calls.order[0], calls);
  }

  /** Once no account is left the finalizer goes, and the record with it. */
  lemma CleanUpReleases(w: World, known: set<string>, calls: Calls)
    requires Inv(w, known) && w.mur.Some? && w.mur.value.beingDeleted && w.mur.value.finalizer && w.accounts == map[]
    requires Works(calls)
    ensures Reconciled(w, known, calls).0 == World(None, map[])
  {
    PassesOver(Pass(Copies(w.mur.value, w.mur.value), w.accounts), calls.order, calls);
  }

  /**
   * From every sound world with a record being deleted, working reconciles and the ends of the deletions they
   * start lead to a world without the record and without any account on a known member.
   */
  lemma {:induction false} DeletionCompletes(w: World, known: set<string>) returns (events: seq<Event>)
    requires Inv(w, known) && w.mur.Some? && w.mur.value.beingDeleted && w.mur.value.finalizer
    ensures IsWorkingRun(w, known, events) && Run(w, known, events) == World(None, map[])
    decreases |w.accounts.Keys|
  {
    if w.accounts.Keys == {} {
      var order := ListOf(known);
      var calls := Calls(0, None, order, {}, {}, map[], false, false, false, false, false,
          SyncCalls(false, false, false), "");
      CleanUpReleases(w, known, calls);
      RunOne(w, known, Reconcile(calls));
      return [Reconcile(calls)];
    }
    var m :| m in w.accounts;
    var first := MarkAndVanish(w, known, m);
    var v := w.(accounts := w.accounts - {m});
    assert v.accounts.Keys == w.accounts.Keys - {m};
    var rest := DeletionCompletes(v, known);
    RunAppend(w, known, first, rest);
    events := first + rest;
  }

  lemma MarkAndVanish(w: World, known: set<string>, m: string) returns (events: seq<Event>)
    requires Inv(w, known) && w.mur.Some? && w.mur.value.beingDeleted && w.mur.value.finalizer && m in w.accounts
    ensures IsWorkingRun(w, known, events) && Run(w, known, events) == w.(accounts := w.accounts - {m})
  {
    if w.accounts[m].deletedAt.Some? {
      RunOne(w, known, Vanish(m));
      return [Vanish(m)];
    }
    var calls := WorkingCalls(known, [], m);
    CleanUpMarks(w, known, calls);
    var w1 := Reconciled(w, known, calls).0;
    RunOne(w, known, Reconcile(calls));
    RunOne(w1, known, Vanish(m));
    RunAppend(w, known, [Reconcile(calls)], [Vanish(m)]);
    assert w1.accounts - {m} == w.accounts - {m};
    events := [Reconcile(calls)] + [Vanish(m)];
  }

  // ---------- A living record ----------

  ghost predicate IsLiving(w: World, known: set<string>, target: string, bindings: seq<Binding>) {
    && Inv(w, known) && w.mur.Some? && !w.mur.value.beingDeleted
    && target in known && TargetOf(bindings) == Ok(Some(target))
  }

  predicate IsServed(w: World, target: string) {
    && w.mur.Some? && target in w.accounts && w.accounts[target].deletedAt == None
    && w.accounts[target].spec == w.mur.value.spec
  }

  lemma SynchronizingWorks(c: Copies, e: Entry, now: int)
    ensures SynchronizedStatus(c, e, now, SyncCalls(false, false, false)).1
  {
  }

  /** A working reconcile begins by looking after the target, on a record with its finalizer. */
  lemma ReconcileBegins(w: World, known: set<string>, target: string, bindings: seq<Binding>, calls: Calls)
      returns (p: Pass)
    requires IsLiving(w, known, target, bindings) && Works(calls) && calls.bindings == Some(bindings)
    ensures Sound(p.copies) && p.accounts == w.accounts
            && p.copies.mem == p.copies.saved == w.mur.value.(finalizer := true)
    ensures ReconciledPass(Pass(Copies(w.mur.value, w.mur.value), w.accounts), known, calls)
            == Provision(p, known, calls)
  {
    var m := w.mur.value;
    var (c, ok) := FinalizerAdded(Copies(m, m), calls);
    assert ok && c == Copies(m.(finalizer := true), m.(finalizer := true));
    p := Pass(c, w.accounts);
  }

  /**
   * A target without an account, or with an outdated one, is served after one reconcile; the others are left
   * for the next.
   */
  lemma TargetGetsServed(w: World, known: set<string>, target: string, bindings: seq<Binding>, calls: Calls)
    requires IsLiving(w, known, target, bindings) && Works(calls) && calls.bindings == Some(bindings)
    requires forall k :: k in calls.order <==> k in known
    requires target in w.accounts ==>
               w.accounts[target].deletedAt == None && w.accounts[target].spec != w.mur.value.spec
    ensures var v := Reconciled(w, known, calls).0;
            && IsLiving(v, known, target, bindings) && IsServed(v, target)
            && v.accounts.Keys == w.accounts.Keys + {target}
            && forall k | k in w.accounts && k != target :: v.accounts[k] == w.accounts[k]
  {
    var p := ReconcileBegins(w, known, target, bindings, calls);
    AccountEnsuredKeeps(p, target, known, calls);
    if target in w.accounts {
      SpecIsWritten(p, target, calls);
      var q := SpecSynchronized(p, target, calls).0;
      SynchronizingWorks(q.copies, Entry(target, q.accounts[target].status), calls.now);
    } else {
      AccountIsCreated(p, target, known, calls);
    }
    EventKeepsInv(w, known, Reconcile(calls));
  }

  /** Once the target is served, its account is synchronized and the pass over the other members begins. */
  lemma ServedIsSynchronized(p: Pass, known: set<string>, target: string, calls: Calls)
    requires Sound(p.copies) && Works(calls) && target in known && target in p.accounts
    requires p.accounts[target].deletedAt == None && p.accounts[target].spec == p.copies.mem.spec
    ensures var e := AccountEnsured(p, target, known, calls);
            e.ok && !e.touched && e.pass.accounts == p.accounts && Sound(e.pass.copies)
                && Advances(p.copies, e.pass.copies)
  {
    AccountEnsuredKeeps(p, target, known, calls);
    SynchronizingWorks(p.copies, Entry(target, p.accounts[target].status), calls.now);
  }

  /** The first live account on another member is marked; the target is left as it is. */
  lemma OtherGetsMarked(w: World, known: set<string>, target: string, bindings: seq<Binding>, calls: Calls)
    requires IsLiving(w, known, target, bindings) && IsServed(w, target)
    requires Works(calls) && calls.bindings == Some(bindings) && forall k :: k in calls.order <==> k in known
    requires calls.order != [] && calls.order[0] != target && calls.order[0] in w.accounts
    requires w.accounts[calls.order[0]].deletedAt == None
    ensures var (v, m) := (Reconciled(w, known, calls).0, calls.order[0]);
            && IsLiving(v, known, target, bindings) && IsServed(v, target)
            && v.accounts == w.accounts[m := w.accounts[m].(deletedAt := Some(calls.now))]
  {
    var p := ReconcileBegins(w, known, target, bindings, calls);
    ServedIsSynchronized(p, known, target, calls);
    var e := AccountEnsured(p, target, known, calls).pass;
    var others := Without(calls.order, target);
    assert others[0] == calls.order[0];
    FirstLiveIsMarked(e, others, 0, calls);
    AccountsNotPresentKeeps(e, others, calls);
    EventKeepsInv(w, known, Reconcile(calls));
  }

  /** With no other account left, a reconcile settles: the stored status agrees with the members. */
  lemma SettlesOnTarget(w: World, known: set<string>, target: string, bindings: seq<Binding>, calls: Calls)
    requires IsLiving(w, known, target, bindings) && IsServed(w, target) && w.accounts.Keys == {target}
    requires Works(calls) && calls.bindings == Some(bindings) && forall k :: k in calls.order <==> k in known
    ensures var (v, report) := Reconciled(w, known, calls);
            && report == Settled(Some(target)) && v.accounts == w.accounts
            && v.mur.Some? && Agrees(v.mur.value, v.accounts, Some(target), known)
  {
    var p := ReconcileBegins(w, known, target, bindings, calls);
    ServedIsSynchronized(p, known, target, calls);
    var e := AccountEnsured(p, target, known, calls).pass;
    WithoutDrops(calls.order, target);
    PassesOver(e, Without(calls.order, target), calls);
    SettledMeansAgreement(p, known, calls);
    ProvisionKeeps(p, known, calls);
  }

  lemma OtherVanishes(w: World, known: set<string>, target: string, bindings: seq<Binding>, m: string)
    returns (events: seq<Event>)
    requires IsLiving(w, known, target, bindings) && IsServed(w, target) && m in w.accounts && m != target
    ensures IsWorkingRun(w, known, events)
    ensures var v := Run(w, known, events);
            IsLiving(v, known, target, bindings) && IsServed(v, target) && v.accounts == w.accounts - {m}
  {
    if w.accounts[m].deletedAt.Some? {
      RunOne(w, known, Vanish(m));
      EventKeepsInv(w, known, Vanish(m));
      return [Vanish(m)];
    }
    var calls := WorkingCalls(known, bindings, m);
    OtherGetsMarked(w, known, target, bindings, calls);
    var w1 := Reconciled(w, known, calls).0;
    RunOne(w, known, Reconcile(calls));
    RunOne(w1, known, Vanish(m));
    EventKeepsInv(w1, known, Vanish(m));
    RunAppend(w, known, [Reconcile(calls)], [Vanish(m)]);
    assert w1.accounts - {m} == w.accounts - {m};
    events := [Reconcile(calls)] + [Vanish(m)];
  }

  lemma {:induction false} ServedSettles(w: World, known: set<string>, target: string, bindings: seq<Binding>)
    returns (events: seq<Event>)
    requires IsLiving(w, known, target, bindings) && IsServed(w, target)
    ensures IsWorkingRun(w, known, events)
    ensures var v := Run(w, known, events);
            v.mur.Some? && v.accounts.Keys == {target} && Agrees(v.mur.value, v.accounts, Some(target), known)
    decreases |w.accounts.Keys|
  {
    if w.accounts.Keys == {target} {
      var calls := WorkingCalls(known, bindings, target);
      SettlesOnTarget(w, known, target, bindings, calls);
      RunOne(w, known, Reconcile(calls));
      return [Reconcile(calls)];
    }
    assert w.accounts.Keys == (w.accounts.Keys - {target}) + {target};
    var m :| m in w.accounts.Keys - {target};
    var first := OtherVanishes(w, known, target, bindings, m);
    var v := Run(w, known, first);
    assert v.accounts.Keys == w.accounts.Keys - {m};
    var rest := ServedSettles(v, known, target, bindings);
    RunAppend(w, known, first, rest);
    events := first + rest;
  }

  /**
   * From every sound world with a living record and a known target, working reconciles and the ends of the deletions
   * they start lead to agreement: the one account is on the target, live, with the record's spec, and listed as the
   * member reports it; every other member has lost its account and its entry.
   */
  lemma LivingRecordSettles(w: World, known: set<string>, target: string, bindings: seq<Binding>)
      returns (events: seq<Event>)
    requires IsLiving(w, known, target, bindings)
    ensures IsWorkingRun(w, known, events)
    ensures var v := Run(w, known, events);
            v.mur.Some? && v.accounts.Keys == {target} && Agrees(v.mur.value, v.accounts, Some(target), known)
  {
    if IsServed(w, target) {
      events := ServedSettles(w, known, target, bindings);
    } else if target in w.accounts && w.accounts[target].deletedAt.Some? {
      var w1 := Next(w, known, Vanish(target));
      RunOne(w, known, Vanish(target));
      EventKeepsInv(w, known, Vanish(target));
      var rest := ServeAndSettle(w1, known, target, bindings);
      RunAppend(w, known, [Vanish(target)], rest);
      events := [Vanish(target)] + rest;
    } else {
      events := ServeAndSettle(w, known, target, bindings);
    }
  }

  lemma ServeAndSettle(w: World, known: set<string>, target: string, bindings: seq<Binding>)
      returns (events: seq<Event>)
    requires IsLiving(w, known, target, bindings) && !IsServed(w, target)
    requires target in w.accounts ==> w.accounts[target].deletedAt == None
    ensures IsWorkingRun(w, known, events)
    ensures var v := Run(w, known, events);
            v.mur.Some? && v.accounts.Keys == {target} && Agrees(v.mur.value, v.accounts, Some(target), known)
  {
    var calls := WorkingCalls(known, bindings, target);
    TargetGetsServed(w, known, target, bindings, calls);
    var w1 := Reconciled(w, known, calls).0;
    RunOne(w, known, Reconcile(calls));
    var rest := ServedSettles(w1, known, target, bindings);
    RunAppend(w, known, [Reconcile(calls)], rest);
    events := [Reconcile(calls)] + rest;
  }
}
