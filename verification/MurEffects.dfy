/** What the single operations on a MasterUserRecord and its accounts bring about. */
module MurEffects {
  import opened Base
  import opened MurStatus
  import opened MurControl

  // ---------- The status ----------

  /**
   * The alignment in full: an account whose Ready condition is not true leaves the record alone; a record that
   * never had an account, and needs one, is Provisioning; otherwise it is Provisioned, stamped with the time if
   * this is the first time, and the user is told once, if that can be done.
   */
  lemma AlignmentSays(m: Mur, now: int, notifyFails: bool)
    ensures var (a, unready) :=
              (AlignReadiness(m, now, notifyFails),
               exists e :: e in m.status.accounts && !(e.status.ready.Some? && e.status.ready.value.isTrue));
            var waiting := m.status.accounts == [] && !m.skipSpace && m.status.provisioned == None;
            && (unready ==> a == Alignment(m, false, true))
            && (!unready && waiting ==>
                  && a.ok && !a.ready
                  && a.mur == m.(status := m.status.(ready := Some(Condition(false, "Provisioning", "")))))
            && (!unready && !waiting ==>
                  && a.mur.status.ready == Some(Condition(true, "Provisioned", ""))
                  && a.mur.status.provisioned
                        == (if m.status.provisioned == None then Some(now) else m.status.provisioned)
                  && a.mur.status.accounts == m.status.accounts
                  && (a.ok <==> a.ready) && (a.ok <==> m.status.notified || !notifyFails)
                  && (a.mur.status.notified <==> m.status.notified || !notifyFails))
  {
  }

  /** All accounts disabled, and there is one: the record says so; otherwise its condition stays. */
  lemma DisablingSays(m: Mur)
    ensures var disabled := m.status.accounts != [] && forall e | e in m.status.accounts ::
              e.status.ready.Some? && e.status.ready.value.reason == "UserAccountDisabled";
            AlignDisabled(m).status.ready == if disabled then Some(Condition(false, "Disabled", "")) else m.status.ready
  {
  }

  /** The condition is what was asked for, stored unless that fails; a failure is not recorded where nothing changed. */
  lemma ConditionIsStored(c: Copies, to: Condition, fails: bool)
    ensures var (d, ok) := UpdateCondition(c, to, fails);
            && d.mem.status == c.mem.status.(ready := Some(to))
            && (ok <==> c.mem.status.ready == Some(to) || !fails)
            && (d.saved == if c.mem.status.ready == Some(to) || fails then c.saved
                  else c.saved.(status := d.mem.status))
  {
  }

  // ---------- The target ----------

  /**
   * A binding that says nothing about the target: being deleted, or of a Space that is, or is unassigned or not
   * the user's own.
   */
  predicate SaysNothing(b: Binding) {
    b.beingDeleted
    || (b.space.Some? && (b.space.value.beingDeleted || b.space.value.target == "" || !b.space.value.ownedByUser))
  }

  /** The first binding that says something decides: its Space's cluster, or an error if the Space cannot be read. */
  lemma {:induction false} FirstBindingDecides(bindings: seq<Binding>, i: nat)
    requires i <= |bindings| && forall j | 0 <= j < i :: SaysNothing(bindings[j])
    ensures i == |bindings| ==> TargetOf(bindings) == Ok(None)
    ensures i < |bindings| && !SaysNothing(bindings[i]) ==>
              TargetOf(bindings) == if bindings[i].space.Some? then Ok(Some(bindings[i].space.value.target))
                  else Err(())
    decreases |bindings|
  {
    if i > 0 {
      assert SaysNothing(bindings[0]);
      forall j | 0 <= j < i - 1 ensures SaysNothing(bindings[1..][j]) {
        assert bindings[1..][j] == bindings[j + 1];
      }
      FirstBindingDecides(bindings[1..], i - 1);
    }
  }

  // ---------- Accounts ----------

  /** The account on the target gets the record's spec, and nothing else about it or any other account changes. */
  lemma SpecIsWritten(p: Pass, target: string, calls: Calls)
    requires target in p.accounts
    ensures var (q, updated, ok) := SpecSynchronized(p, target, calls);
            && (ok ==> q.accounts == p.accounts[target := p.accounts[target].(spec := p.copies.mem.spec)])
            && (!ok ==> q.accounts == p.accounts)
            && (updated ==> p.accounts[target].spec != p.copies.mem.spec)
            && (!calls.conditionFails && !calls.specFails ==>
                  ok && (updated <==> p.accounts[target].spec != p.copies.mem.spec))
  {
  }

  /**
   * Deleting the account on one member: a live account is marked, now, if the member can be reached and the
   * call works, and no other account is touched; one that is being deleted is waited for, up to a minute; a
   * missing one is done with.
   */
  lemma LiveAccountIsMarked(p: Pass, member: string, calls: Calls)
    ensures var (q, outcome) := AccountDeleted(p, member, calls);
            && (q.accounts == if IsLiveAndDeletable(p, member, calls)
                              then p.accounts[member := p.accounts[member].(deletedAt := Some(calls.now))]
                              else p.accounts)
            && (IsLiveAndDeletable(p, member, calls) ==> outcome == Requeue && q.copies == p.copies)
            && (outcome == Done ==> member !in p.accounts && member !in calls.unreachable)
            && (member in calls.unreachable ==> outcome == Failed)
            && (IsOverdue(p, member, calls) ==> outcome == Failed)
  {
  }

  predicate IsLiveAndDeletable(p: Pass, member: string, calls: Calls) {
    && member in p.accounts && p.accounts[member].deletedAt == None
    && member !in calls.unreachable && member !in calls.deleteFails
  }

  predicate IsOverdue(p: Pass, member: string, calls: Calls) {
    member in p.accounts && p.accounts[member].deletedAt.Some? && calls.now - p.accounts[member].deletedAt.value > 60
  }

  /**
   * On the target: without an account there is one afterwards, with the record's spec; one being deleted is
   * left alone.
   */
  lemma AccountIsCreated(p: Pass, target: string, known: set<string>, calls: Calls)
    ensures var e := AccountEnsured(p, target, known, calls);
            var reachable := target in known && target !in calls.unreachable;
            && (reachable && target !in p.accounts && !calls.createFails ==>
                  && e.touched
                  && e.pass.accounts
                        == p.accounts[target := UserAccount(p.copies.mem.spec, AccountStatus(None, ""), None)]
                  && e.pass.copies.mem.status.ready == Some(Condition(false, "Provisioning", "")))
            && (!reachable || (target !in p.accounts && calls.createFails) ==> !e.ok && e.pass.accounts == p.accounts)
            && (reachable && target in p.accounts && p.accounts[target].deletedAt.Some? ==>
                  e.touched && e.pass.accounts == p.accounts)
  {
  }

  /** What is recorded when the target cannot be served. */
  lemma FailureIsNamed(p: Pass, target: string, known: set<string>, calls: Calls)
    requires !calls.failureWriteFails && p.copies.mem == p.copies.saved
    ensures var e := AccountEnsured(p, target, known, calls);
            && (target !in known ==>
                  e.pass.copies.saved.status.ready == Some(Condition(false, "TargetClusterNotReady", calls.message)))
            && (target in known && target in calls.unreachable ==>
                  e.pass.copies.saved.status.ready == Some(Condition(false, "UnableToGetUserAccount", calls.message)))
            && (target in known && target !in calls.unreachable && target !in p.accounts && calls.createFails ==>
                  e.pass.copies.saved.status.ready
                      == Some(Condition(false, "UnableToCreateUserAccount", calls.message)))
  {
  }
}
