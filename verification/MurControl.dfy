/** The MasterUserRecord reconcile: its UserAccounts on the members, its status and its finalizer, over whole runs. */
module MurControl {
  import opened Base
  import opened MurStatus

  datatype UserAccount = UserAccount(spec: string, status: AccountStatus, deletedAt: Option<int>)

  datatype SpaceRef = SpaceRef(beingDeleted: bool, target: string, ownedByUser: bool)

  /** A SpaceBinding of the user, with the Space it names unless that one cannot be read. */
  datatype Binding = Binding(beingDeleted: bool, space: Option<SpaceRef>)

  /** What one reconcile meets: the clock, the bindings, the order of the members, and the calls that fail. */
  datatype Calls = Calls(
    now: int,
    bindings: Option<seq<Binding>>,
    order: seq<string>,
    unreachable: set<string>,
    deleteFails: set<string>,
    sync: map<string, SyncCalls>,
    createFails: bool,
    specFails: bool,
    finalizerFails: bool,
    conditionFails: bool,
    failureWriteFails: bool,
    last: SyncCalls,
    message: string)

  /** The record's two copies and the accounts on the members, in the middle of a reconcile. */
  datatype Pass = Pass(copies: Copies, accounts: map<string, UserAccount>)

  datatype Outcome = Done | Requeue | Failed

  function SyncOf(calls: Calls, member: string): SyncCalls {
    if member in calls.sync then calls.sync[member] else SyncCalls(false, false, false)
  }

  /** Sets the Ready condition and stores the status if that changed anything. */
  function UpdateCondition(c: Copies, to: Condition, fails: bool): (Copies, bool) {
    if c.mem.status.ready == Some(to) then (c, true)
    else WriteStatus(c.(mem := c.mem.(status := c.mem.status.(ready := Some(to)))), fails)
  }

  /** Records a failure; whether that works makes no difference to the caller. */
  function Failing(p: Pass, reason: string, calls: Calls): Pass {
    p.(copies := UpdateCondition(p.copies, Condition(false, reason, calls.message), calls.failureWriteFails).0)
  }

  function FailingAsIs(p: Pass, calls: Calls): Pass {
    var ready := p.copies.mem.status.ready;
    var cond := if ready.Some? then ready.value.(message := calls.message) else Condition(false, "", calls.message);
    p.(copies := UpdateCondition(p.copies, cond, calls.failureWriteFails).0)
  }

  // ---------- Members that should have no account ----------

  function AccountDeleted(p: Pass, member: string, calls: Calls): (Pass, Outcome) {
    if member in calls.unreachable then (p, Failed)
    else if member !in p.accounts then
      var (c, ok) := AccountRemoved(p.copies, member, calls.now, SyncOf(calls, member));
      (p.(copies := c), if ok then Done else Failed)
    else
      var account := p.accounts[member];
      if account.deletedAt.Some? then
        var (c, ok) := SynchronizedStatus(p.copies, Entry(member, account.status), calls.now, SyncOf(calls, member));
        (p.(copies := c), if !ok || calls.now - account.deletedAt.value > 60 then Failed else Requeue)
      else if member in calls.deleteFails then (p, Failed)
      else (p.(accounts := p.accounts[member := account.(deletedAt := Some(calls.now))]), Requeue)
  }

  function AccountsNotPresent(p: Pass, members: seq<string>, calls: Calls): (Pass, Outcome)
    decreases |members|
  {
    if members == [] then (p, Done)
    else
      var (q, outcome) := AccountDeleted(p, members[0], calls);
      match outcome
      case Failed => (Failing(q, "UnableToDeleteUserAccounts", calls), Failed)
      case Requeue => (q, Requeue)
      case Done => AccountsNotPresent(q, members[1..], calls)
  }

  // ---------- The member that should have one ----------

  /**
   * The cluster of the user's own Space, from the first binding that leads to one; an error if a Space cannot
   * be read before that.
   */
  function TargetOf(bindings: seq<Binding>): Result<Option<string>, ()>
    decreases |bindings|
  {
    if bindings == [] then Ok(None)
    else if bindings[0].beingDeleted then TargetOf(bindings[1..])
    else match bindings[0].space
      case None => Err(())
      case Some(s) =>
        if !s.beingDeleted && s.target != "" && s.ownedByUser then Ok(Some(s.target))
        else TargetOf(bindings[1..])
  }

  datatype Ensured = Ensured(pass: Pass, touched: bool, ok: bool)

  function AccountEnsured(p: Pass, target: string, known: set<string>, calls: Calls): Ensured {
    if target !in known then Ensured(Failing(p, "TargetClusterNotReady", calls), false, false)
    else if target in calls.unreachable then Ensured(Failing(p, "UnableToGetUserAccount", calls), false, false)
    else if target !in p.accounts then
      if calls.createFails then Ensured(Failing(p, "UnableToCreateUserAccount", calls), false, false)
      else
        var (c, ok) := UpdateCondition(p.copies, PROVISIONING, calls.conditionFails);
        var account := UserAccount(p.copies.mem.spec, AccountStatus(None, ""), None);
        Ensured(Pass(c, p.accounts[target := account]), true, ok)
    else if p.accounts[target].deletedAt.Some? then
      var (c, ok) :=
          UpdateCondition(p.copies, Condition(false, "Provisioning", "recovering deleted UserAccount"),
              calls.conditionFails);
      Ensured(p.(copies := c), true, ok)
    else
      var (q, updated, ok) := SpecSynchronized(p, target, calls);
      if !ok then Ensured(Failing(q, "UnableToSynchronizeUserAccountSpec", calls), false, false)
      else
        var (c, ok') :=
            SynchronizedStatus(q.copies, Entry(target, q.accounts[target].status), calls.now, SyncOf(calls, target));
        if ok' then Ensured(q.(copies := c), updated, true)
            else Ensured(FailingAsIs(q.(copies := c), calls), false, false)
  }

  /** The new pass, whether the account was updated, and whether nothing failed. */
  function SpecSynchronized(p: Pass, target: string, calls: Calls): (r: (Pass, bool, bool))
    requires target in p.accounts
    ensures target in r.0.accounts
  {
    var account := p.accounts[target];
    if account.spec == p.copies.mem.spec then (p, false, true)
    else
      var (c, ok) := UpdateCondition(p.copies, Condition(false, "Updating", ""), calls.conditionFails);
      if !ok || calls.specFails then (p.(copies := c), false, false)
      else (Pass(c, p.accounts[target := account.(spec := p.copies.mem.spec)]), true, true)
  }

  // ---------- The reconcile ----------

  datatype World = World(mur: Option<Mur>, accounts: map<string, UserAccount>)

  /** How a reconcile ended; `Settled` names the member that has the account, if any. */
  datatype Report = Absent | Error | Again | Touched | Settled(target: Option<string>) | Released

  function Without(members: seq<string>, target: string): seq<string>
    decreases |members|
  {
    if members == [] then []
    else if members[0] == target then Without(members[1..], target)
    else [members[0]] + Without(members[1..], target)
  }

  function FinalizerAdded(c: Copies, calls: Calls): (Copies, bool) {
    if c.mem.finalizer then (c, true)
    else
      var d := c.(mem := c.mem.(finalizer := true));
      if calls.finalizerFails
      then (UpdateCondition(d, Condition(false, "UnableToAddFinalizer", calls.message), calls.failureWriteFails).0,
          false)
      else (d.(saved := d.saved.(finalizer := true)), true)
  }

  function Provision(p: Pass, known: set<string>, calls: Calls): (Pass, Report) {
    if calls.bindings.None? then (Failing(p, "UnableToCreateUserAccount", calls), Error)
    else match TargetOf(calls.bindings.value)
      case Err(_) => (Failing(p, "UnableToCreateUserAccount", calls), Error)
      case Ok(Some(target)) =>
        var e := AccountEnsured(p, target, known, calls);
        if !e.ok then (e.pass, Error)
        else if e.touched then (e.pass, Touched)
        else
          var (q, outcome) := AccountsNotPresent(e.pass, Without(calls.order, target), calls);
          (q, if outcome == Failed then Error else if outcome == Requeue then Again else Settled(Some(target)))
      case Ok(None) =>
        var (q, outcome) := AccountsNotPresent(p, calls.order, calls);
        if outcome == Failed then (q, Error)
        else if outcome == Requeue then (q, Again)
        else LastAlignment(q, calls)
  }

  function LastAlignment(p: Pass, calls: Calls): (Pass, Report) {
    var a := AlignReadiness(p.copies.mem, calls.now, calls.last.notifyFails);
    if !a.ok then (p.(copies := p.copies.(mem := a.mur)), Error)
    else
      var (c, ok) := WriteStatus(p.copies.(mem := a.mur), calls.last.writeFails);
      (p.(copies := c), if ok then Settled(None) else Error)
  }

  function CleanUp(p: Pass, calls: Calls): (Pass, Report) {
    var (q, outcome) := AccountsNotPresent(p, calls.order, calls);
    if outcome == Failed then (q, Error)
    else if outcome == Requeue then (q, Again)
    else
      var c := q.copies.(mem := q.copies.mem.(finalizer := false));
      if calls.finalizerFails then (Failing(q.(copies := c), "UnableToRemoveFinalizer", calls), Error)
      else (q.(copies := c.(saved := c.saved.(finalizer := false))), Released)
  }

  function ReconciledPass(p: Pass, known: set<string>, calls: Calls): (Pass, Report) {
    if !p.copies.mem.beingDeleted then
      var (c, ok) := FinalizerAdded(p.copies, calls);
      if !ok then (p.(copies := c), Error) else Provision(p.(copies := c), known, calls)
    else if p.copies.mem.finalizer then CleanUp(p, calls)
    else (p, Absent)
  }

  /** A record being deleted disappears with its finalizer. */
  function Reconciled(w: World, known: set<string>, calls: Calls): (World, Report) {
    if w.mur.None? then (w, Absent)
    else
      var (q, report) := ReconciledPass(Pass(Copies(w.mur.value, w.mur.value), w.accounts), known, calls);
      (World(if report == Released then None else Some(q.copies.saved), q.accounts), report)
  }
}
