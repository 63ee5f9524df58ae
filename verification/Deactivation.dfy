/**
 * Automatic deactivation of one user: the UserSignup and MasterUserRecord (MUR) as stored, a clock, and
 * what the deactivation controller, the UserSignup controller and the MUR synchronizer do to them.
 */
module Deactivation {
  import opened Base

  /** Instants and durations are in whole seconds, the precision of stored timestamps. */
  const DAY: int := 24 * 60 * 60

  /** Go's zero time, which an absent condition carries. */
  const ZERO_TIME: int := -62135596800

  /** The reasons of condition UserDeactivatingNotificationCreated; the status is True exactly for `CRCreated`. */
  datatype NoticeReason = CRCreated | UserNotInPreDeactivation | CRCreationFailed(message: string)

  datatype Notice = Notice(reason: NoticeReason, since: int)

  datatype User = User(deactivating: bool, deactivated: bool, banned: bool, notice: Option<Notice>,
      scheduled: Option<int>)

  datatype Mur = Mur(provisioned: Option<int>, beingDeleted: bool)

  datatype World = World(now: int, user: User, mur: Option<Mur>)

  /** The deactivation timeout of the user tier, the notice period, and whether the email domain is excluded. */
  datatype Config = Config(timeoutDays: int, noticeDays: int, excluded: bool, hasAccounts: bool)

  // ---------- Conditions and states ----------

  predicate IsTrue(notice: Option<Notice>) {
    notice.Some? && notice.value.reason.CRCreated?
  }

  /** `AddOrUpdateStatusConditions`: the transition time moves only when the status flips. */
  function WithNotice(notice: Option<Notice>, reason: NoticeReason, now: int): Option<Notice> {
    if notice.Some? && IsTrue(notice) == reason.CRCreated? then Some(notice.value.(reason := reason))
    else Some(Notice(reason, now))
  }

  /** `SetDeactivated(true)` also clears the deactivating state. */
  function MarkDeactivated(user: User): User {
    user.(deactivated := true, deactivating := false)
  }

  // ---------- The deactivation controller ----------

  /** Whether the status write and the object update of one reconcile fail. */
  datatype Calls = Calls(statusFails: bool, updateFails: bool)

  function Scheduled(w: World, at: Option<int>, c: Calls): (World, bool) {
    if w.user.scheduled == at then (w, true)
    else if c.statusFails then (w, false)
    else (w.(user := w.user.(scheduled := at)), true)
  }

  function NoticeDue(cfg: Config, provisioned: int): int {
    provisioned + (cfg.timeoutDays - cfg.noticeDays) * DAY
  }

  function DeactivationDue(cfg: Config, notice: Option<Notice>): int {
    (if notice.Some? then notice.value.since else ZERO_TIME) + cfg.noticeDays * DAY
  }

  /** The new world, and the delay after which the controller asks to run again (0 for none). */
  function ReconciledDeactivation(w: World, cfg: Config, c: Calls): (World, int) {
    if w.mur.None? || w.mur.value.beingDeleted || w.mur.value.provisioned.None? || w.user.deactivated then (w, 0)
    else if cfg.excluded then (Scheduled(w, None, c).0, 0)
    else if !cfg.hasAccounts then (w, 0)
    else
      var provisioned := w.mur.value.provisioned.value;
      if cfg.timeoutDays == 0 then
        if w.user.deactivating then (ResetDeactivating(w, c), 0) else (Scheduled(w, None, c).0, 0)
      else if w.now < NoticeDue(cfg, provisioned) then
        if w.user.deactivating then (ResetDeactivating(w, c), 0)
        else
          var (w', ok) := Scheduled(w, Some(provisioned + cfg.timeoutDays * DAY), c);
          (w', if ok then NoticeDue(cfg, provisioned) - w.now else 0)
      else if !w.user.deactivating && cfg.noticeDays > 0 then
        var (w', ok) := Scheduled(w, Some(provisioned + cfg.timeoutDays * DAY), c);
        (if ok && !c.updateFails then w'.(user := w'.user.(deactivating := true)) else w', 0)
      else if !IsTrue(w.user.notice) && cfg.noticeDays > 0 then (Scheduled(w, None, c).0, 0)
      else if w.now < DeactivationDue(cfg, w.user.notice) then
        var (w', ok) := Scheduled(w, Some(DeactivationDue(cfg, w.user.notice)), c);
        (w', if ok then DeactivationDue(cfg, w.user.notice) - w.now else 0)
      else (if c.updateFails then w else w.(user := MarkDeactivated(w.user)), 0)
  }

  function ResetDeactivating(w: World, c: Calls): World {
    if c.updateFails then w else w.(user := w.user.(deactivating := false))
  }

  // ---------- The UserSignup controller ----------

  /**
   * `activeFails`, `noticeFails`: status writes; `sendFails`: creating the Notification; `murFails`: deleting
   * or creating the MUR, with the updates made just before.
   */
  datatype SignupCalls = SignupCalls(activeFails: bool, noticeFails: bool, sendFails: bool, murFails: bool,
      approved: bool,
                                     rejected: bool, completeChanges: bool, message: string)

  /** The notice condition after the first part of the reconcile, and whether it goes on. */
  function NoticeStep(w: World, c: SignupCalls): (World, bool) {
    if !w.user.banned && !w.user.deactivated && c.activeFails then (w, false)
    else if !w.user.banned && !w.user.deactivating && !w.user.deactivated then
      SetNotice(w, UserNotInPreDeactivation, c)
    else if w.user.deactivating && !IsTrue(w.user.notice) then
      if c.sendFails then (SetNotice(w, CRCreationFailed(c.message), c).0, false)
      else SetNotice(w, CRCreated, c)
    else (w, true)
  }

  function SetNotice(w: World, reason: NoticeReason, c: SignupCalls): (World, bool) {
    if c.noticeFails && w.user.notice != WithNotice(w.user.notice, reason, w.now) then (w, false)
    else (w.(user := w.user.(notice := WithNotice(w.user.notice, reason, w.now))), true)
  }

  function MurStep(w: World, c: SignupCalls): World {
    if w.mur.Some? then
      if (w.user.banned || w.user.deactivated) && !c.murFails then w.(mur := Some(w.mur.value.(beingDeleted := true)))
          else w
    else if w.user.banned || c.rejected then w
    else if w.user.deactivated then
      if c.completeChanges then w.(user := w.user.(scheduled := None)) else w
    else if c.approved && !c.murFails then w.(mur := Some(Mur(None, false)))
    else w
  }

  function ReconciledSignup(w: World, c: SignupCalls): World {
    var (w', goesOn) := NoticeStep(w, c);
    if goesOn then MurStep(w', c) else w'
  }

  // ---------- Events ----------

  datatype Event =
    | Tick(seconds: nat)
    | DeactivationRuns(calls: Calls)
    | SignupRuns(signupCalls: SignupCalls)
    | MurProvisioned
    | MurRemoved
    | ManualDeactivation
    | Reactivation
    | Ban
    | Unban

  /** The synchronizer sets `provisionedTime` only once; a MUR goes away only after it was marked for deletion. */
  function Next(w: World, cfg: Config, e: Event): World {
    match e
    case Tick(seconds) => w.(now := w.now + seconds)
    case DeactivationRuns(c) => ReconciledDeactivation(w, cfg, c).0
    case SignupRuns(c) => ReconciledSignup(w, c)
    case MurProvisioned =>
      if w.mur.Some? && w.mur.value.provisioned.None? then w.(mur := Some(w.mur.value.(provisioned := Some(w.now))))
          else w
    case MurRemoved => if w.mur.Some? && w.mur.value.beingDeleted then w.(mur := None) else w
    case ManualDeactivation => w.(user := MarkDeactivated(w.user))
    case Reactivation => w.(user := w.user.(deactivated := false))
    case Ban => w.(user := w.user.(banned := true))
    case Unban => w.(user := w.user.(banned := false))
  }

  function Run(w: World, cfg: Config, events: seq<Event>): World
    decreases |events|
  {
    if events == [] then w else Run(Next(w, cfg, events[0]), cfg, events[1..])
  }

  lemma {:induction false} RunAppend(w: World, cfg: Config, first: seq<Event>, e: Event)
    ensures Run(w, cfg, first + [e]) == Next(Run(w, cfg, first), cfg, e)
    decreases |first|
  {
    if first == [] {
      assert first + [e] == [e];
      assert [e][1..] == [];
    } else {
      assert (first + [e])[1..] == first[1..] + [e];
      RunAppend(Next(w, cfg, first[0]), cfg, first[1..], e);
    }
  }

  // ---------- No early deactivation ----------

  predicate IsFresh(w: World) {
    w.mur.None? && !w.user.deactivating && w.user.notice.None?
  }

  /** A reconcile that deletes the MUR of a banned user while the user is deactivating: that state outlives the MUR. */
  predicate Forgets(w: World, e: Event) {
    && e.SignupRuns? && w.user.banned && w.user.deactivating && w.mur.Some? && !w.mur.value.beingDeleted
    && (IsTrue(w.user.notice) || (!e.signupCalls.sendFails && !e.signupCalls.noticeFails)) && !e.signupCalls.murFails
  }

  ghost predicate NeverForgets(w: World, cfg: Config, events: seq<Event>)
    decreases |events|
  {
    events == [] || (!Forgets(w, events[0]) && NeverForgets(Next(w, cfg, events[0]), cfg, events[1..]))
  }

  /**
   * For a fixed tier: the deactivating state and a created notice both belong to the MUR that exists now,
   * and neither was set before the notice was due.
   */
  ghost predicate Inv(w: World, cfg: Config) {
    && (w.user.deactivating ==>
          && w.mur.Some? && !w.mur.value.beingDeleted && w.mur.value.provisioned.Some?
          && w.now >= NoticeDue(cfg, w.mur.value.provisioned.value)
          && !w.user.deactivated)
    && (IsTrue(w.user.notice) && w.mur.Some? ==>
          && w.mur.value.provisioned.Some?
          && w.user.notice.value.since >= NoticeDue(cfg, w.mur.value.provisioned.value))
    && (w.user.notice.Some? ==> w.user.notice.value.since <= w.now)
  }

  lemma EventKeepsInv(w: World, cfg: Config, e: Event)
    requires Inv(w, cfg) && !Forgets(w, e)
    ensures Inv(Next(w, cfg, e), cfg)
  {
  }

  lemma {:induction false} RunKeepsInv(w: World, cfg: Config, events: seq<Event>)
    requires Inv(w, cfg) && NeverForgets(w, cfg, events)
    ensures Inv(Run(w, cfg, events), cfg)
    decreases |events|
  {
    if events != [] {
      EventKeepsInv(w, cfg, events[0]);
      RunKeepsInv(Next(w, cfg, events[0]), cfg, events[1..]);
    }
  }

  /** The controller marks the user deactivated now. */
  predicate Deactivates(w: World, cfg: Config, c: Calls) {
    !w.user.deactivated && ReconciledDeactivation(w, cfg, c).0.user.deactivated
  }

  /**
   * Over any number of activation cycles and bans, with any calls failing, as long as no banned user's MUR is deleted
   * while the user is deactivating: when the controller marks the user deactivated, the tier's timeout has passed since
   * the current MUR was provisioned, and, with a notice period, a notice was created at least that long ago and not
   * before it was due.
   */
  lemma NoEarlyDeactivation(w: World, cfg: Config, events: seq<Event>, c: Calls)
    requires IsFresh(w) && NeverForgets(w, cfg, events)
    ensures var x := Run(w, cfg, events);
            Deactivates(x, cfg, c) ==>
              && cfg.timeoutDays != 0 && !cfg.excluded
              && x.mur.Some? && x.mur.value.provisioned.Some?
              && x.now >= x.mur.value.provisioned.value + cfg.timeoutDays * DAY
              && (cfg.noticeDays > 0 ==>
                    && IsTrue(x.user.notice) && x.user.deactivating
                    && x.now >= x.user.notice.value.since + cfg.noticeDays * DAY
                    && x.user.notice.value.since >= NoticeDue(cfg, x.mur.value.provisioned.value))
  {
    RunKeepsInv(w, cfg, events);
  }

  // ---------- Bans ----------

  predicate IsEarly(w: World, cfg: Config, c: Calls) {
    && Deactivates(w, cfg, c) && w.mur.Some? && w.mur.value.provisioned.Some?
    && w.now < w.mur.value.provisioned.value + cfg.timeoutDays * DAY
  }

  /** However things go on without another such deletion, no MUR is ended before its tier's timeout. */
  ghost predicate StaysTimely(w: World, cfg: Config) {
    forall events, c | NeverForgets(w, cfg, events) :: !IsEarly(Run(w, cfg, events), cfg, c)
  }

  /** Tiers that deactivate at all, with a notice period. */
  predicate Applies(cfg: Config) {
    cfg.timeoutDays != 0 && cfg.noticeDays > 0 && !cfg.excluded && cfg.hasAccounts
  }

  const DEACTIVATE_OK := Calls(false, false)

  const SIGN_UP_OK := SignupCalls(false, false, false, false, true, false, true, "")

  lemma RunCons(w: World, cfg: Config, e: Event, rest: seq<Event>)
    ensures Run(w, cfg, [e] + rest) == Run(Next(w, cfg, e), cfg, rest)
    ensures NeverForgets(w, cfg, [e] + rest) <==> !Forgets(w, e) && NeverForgets(Next(w, cfg, e), cfg, rest)
  {
    assert ([e] + rest)[1..] == rest;
  }

  lemma RunTwo(w: World, cfg: Config, a: Event, b: Event, rest: seq<Event>)
    requires !Forgets(w, a) && !Forgets(Next(w, cfg, a), b) && NeverForgets(Next(Next(w, cfg, a), cfg, b), cfg, rest)
    ensures Run(w, cfg, [a] + ([b] + rest)) == Run(Next(Next(w, cfg, a), cfg, b), cfg, rest)
    ensures NeverForgets(w, cfg, [a] + ([b] + rest))
  {
    RunCons(w, cfg, a, [b] + rest);
    RunCons(Next(w, cfg, a), cfg, b, rest);
  }

  /** A user who comes back deactivating, with an old notice, is deactivated as soon as a new notice would be due. */
  lemma ReturningIsEarly(w: World, cfg: Config) returns (events: seq<Event>)
    requires Applies(cfg) && cfg.timeoutDays > 0 && w.mur.Some? && w.mur.value.beingDeleted
    requires w.user.deactivating && !w.user.deactivated && IsTrue(w.user.notice) && w.user.notice.value.since <= w.now
    ensures NeverForgets(w, cfg, events) && IsEarly(Run(w, cfg, events), cfg, DEACTIVATE_OK)
  {
    var days := if cfg.timeoutDays > cfg.noticeDays then cfg.timeoutDays - cfg.noticeDays else 0;
    var w2 := Next(Next(w, cfg, MurRemoved), cfg, Unban);
    var w4 := Next(Next(w2, cfg, Tick(cfg.noticeDays * DAY)), cfg, SignupRuns(SIGN_UP_OK));
    var w6 := Next(Next(w4, cfg, MurProvisioned), cfg, Tick(days * DAY));
    assert w4.mur == Some(Mur(None, false)) && w4.user == w2.user && w6.mur == Some(Mur(Some(w4.now), false));
    RunTwo(w4, cfg, MurProvisioned, Tick(days * DAY), []);
    var third := [MurProvisioned] + ([Tick(days * DAY)] + []);
    RunTwo(w2, cfg, Tick(cfg.noticeDays * DAY), SignupRuns(SIGN_UP_OK), third);
    var second := [Tick(cfg.noticeDays * DAY)] + ([SignupRuns(SIGN_UP_OK)] + third);
    RunTwo(w, cfg, MurRemoved, Unban, second);
    events := [MurRemoved] + ([Unban] + second);
  }

  /**
   * The condition on bans is exact: an event keeps deactivations timely, however things go on, if and only if it does
   * not delete the MUR of a banned user while the user is deactivating.
   */
  lemma BanGuardIsExact(w: World, cfg: Config, e: Event)
    requires Inv(w, cfg) && Applies(cfg) && cfg.timeoutDays > 0
    ensures !Forgets(w, e) <==> StaysTimely(Next(w, cfg, e), cfg)
  {
    if !Forgets(w, e) {
      EventKeepsInv(w, cfg, e);
      forall events, c | NeverForgets(Next(w, cfg, e), cfg, events)
          ensures !IsEarly(Run(Next(w, cfg, e), cfg, events), cfg, c) {
        RunKeepsInv(Next(w, cfg, e), cfg, events);
      }
    } else {
      var events := ReturningIsEarly(Next(w, cfg, e), cfg);
    }
  }
}
