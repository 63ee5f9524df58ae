/** A user whose timeout has passed does get deactivated: a rank that the controllers only ever lower. */
module DeactivationProgress {
  import opened Base
  import opened Deactivation

  predicate IsActive(w: World) {
    w.mur.Some? && !w.mur.value.beingDeleted && w.mur.value.provisioned.Some? && !w.user.deactivated && !w.user.banned
  }

  datatype Rank = Rank(phase: nat, left: nat)

  predicate Lower(r: Rank, q: Rank) {
    r.phase < q.phase || (r.phase == q.phase && r.left < q.left)
  }

  function TimeUntil(at: int, now: int): nat {
    if now < at then at - now else 0
  }

  /**
   * 4: waiting for the notice to be due; 3: to be marked deactivating; 2: notice to be created; 1: notice
   * period; 0: deactivated.
   */
  function RankOf(w: World, cfg: Config): Rank
    requires IsActive(w) || w.user.deactivated
  {
    if w.user.deactivated then Rank(0, 0)
    else if w.user.deactivating then
      if IsTrue(w.user.notice) then Rank(1, TimeUntil(DeactivationDue(cfg, w.user.notice), w.now)) else Rank(2, 0)
    else
      var due := NoticeDue(cfg, w.mur.value.provisioned.value);
      if w.now < due then Rank(4, TimeUntil(due, w.now)) else Rank(3, 0)
  }

  /** What the controllers, the synchronizer, the end of a deletion and the clock do by themselves. */
  predicate IsAutomatic(e: Event) {
    e.Tick? || e.DeactivationRuns? || e.SignupRuns? || e.MurProvisioned? || e.MurRemoved?
  }

  /** Nothing that happens by itself, with any calls failing, undoes progress. */
  lemma RankNeverRises(w: World, cfg: Config, e: Event)
    requires Inv(w, cfg) && Applies(cfg) && IsActive(w) && IsAutomatic(e)
    ensures IsActive(Next(w, cfg, e)) || Next(w, cfg, e).user.deactivated
    ensures RankOf(Next(w, cfg, e), cfg) == RankOf(w, cfg) || Lower(RankOf(Next(w, cfg, e), cfg), RankOf(w, cfg))
  {
  }

  const DEACTIVATE := DeactivationRuns(DEACTIVATE_OK)

  const SIGN_UP := SignupRuns(SIGN_UP_OK)

  /**
   * Until the user is deactivated, something is always due: either the deactivation controller asked to run
   * again after exactly the time left, or a controller that the last write triggers lowers the rank.
   */
  lemma SomethingIsDue(w: World, cfg: Config)
    requires Inv(w, cfg) && Applies(cfg) && IsActive(w)
    ensures var (rank, delay) := (RankOf(w, cfg), ReconciledDeactivation(w, cfg, DEACTIVATE.calls).1);
            || (rank.left > 0 && delay == rank.left && IsActive(Next(w, cfg, Tick(delay)))
                  && Lower(RankOf(Next(w, cfg, Tick(delay)), cfg), rank))
            || (Lower(RankOf(Next(w, cfg, DEACTIVATE), cfg), rank))
            || (IsActive(Next(w, cfg, SIGN_UP)) && Lower(RankOf(Next(w, cfg, SIGN_UP), cfg), rank))
  {
    RankNeverRises(w, cfg, DEACTIVATE);
  }

  /** The controllers run promptly: a finite run of automatic events that ends with the user deactivated. */
  lemma {:induction false} EventuallyDeactivated(w: World, cfg: Config) returns (events: seq<Event>)
    requires Inv(w, cfg) && Applies(cfg) && (IsActive(w) || w.user.deactivated)
    ensures Run(w, cfg, events).user.deactivated
    ensures forall e | e in events :: IsAutomatic(e)
    decreases RankOf(w, cfg).phase, RankOf(w, cfg).left
  {
    if w.user.deactivated {
      return [];
    }
    SomethingIsDue(w, cfg);
    var (rank, delay) := (RankOf(w, cfg), ReconciledDeactivation(w, cfg, DEACTIVATE.calls).1);
    RankNeverRises(w, cfg, DEACTIVATE);
    RankNeverRises(w, cfg, SIGN_UP);
    var e := if rank.left > 0 && delay == rank.left then Tick(rank.left)
             else if Lower(RankOf(Next(w, cfg, DEACTIVATE), cfg), rank) then DEACTIVATE else SIGN_UP;
    EventKeepsInv(w, cfg, e);
    var rest := EventuallyDeactivated(Next(w, cfg, e), cfg);
    events := [e] + rest;
    assert events[1..] == rest;
  }

  /**
   * On time: from the moment a user without notice is provisioned, controllers that run when they asked to
   * deactivate at the notice due time plus the notice period, which is the tier's timeout if nobody was late.
   */
  lemma PromptDeactivation(w: World, cfg: Config)
    requires Inv(w, cfg) && Applies(cfg) && IsActive(w) && !w.user.deactivating && !IsTrue(w.user.notice)
    ensures var due := NoticeDue(cfg, w.mur.value.provisioned.value);
            var end := Run(w, cfg,
                [Tick(TimeUntil(due, w.now)), DEACTIVATE, SIGN_UP, Tick(cfg.noticeDays * DAY), DEACTIVATE]);
            && end.user.deactivated
            && end.now == (if w.now < due then w.mur.value.provisioned.value + cfg.timeoutDays * DAY
                  else w.now + cfg.noticeDays * DAY)
  {
    var due := NoticeDue(cfg, w.mur.value.provisioned.value);
    var first, second := [Tick(TimeUntil(due, w.now)), DEACTIVATE, SIGN_UP], [Tick(cfg.noticeDays * DAY), DEACTIVATE];
    var w1 := Next(w, cfg, first[0]);
    var w2 := Next(w1, cfg, DEACTIVATE);
    var w3 := Next(w2, cfg, SIGN_UP);
    var w4 := Next(w3, cfg, second[0]);
    var w5 := Next(w4, cfg, DEACTIVATE);
    var all := first + second;
    assert all == [first[0], DEACTIVATE, SIGN_UP, second[0], DEACTIVATE];
    assert w5.user.deactivated;
    RunFive(w, cfg, all);
  }

  lemma RunFive(w: World, cfg: Config, events: seq<Event>)
    requires |events| == 5
    ensures Run(w, cfg, events)
            == Next(Next(Next(Next(Next(w, cfg, events[0]), cfg, events[1]), cfg, events[2]), cfg, events[3]), cfg,
                events[4])
  {
    RunAppend(w, cfg, events[..4], events[4]);
    RunAppend(w, cfg, events[..3], events[3]);
    RunAppend(w, cfg, events[..2], events[2]);
    RunAppend(w, cfg, events[..1], events[1]);
    RunAppend(w, cfg, [], events[0]);
    assert events == events[..4] + [events[4]] && events[..4] == events[..3] + [events[3]];
    assert events[..3] == events[..2] + [events[2]] && events[..2] == events[..1] + [events[1]]
        && events[..1] == [] + [events[0]];
  }

  // ---------- Every run ----------

  /** A run of automatic events, with any calls failing, from a user that is active. */
  ghost predicate IsTrace(trace: seq<World>, cfg: Config, events: seq<Event>) {
    && |trace| == |events| + 1 && Inv(trace[0], cfg) && Applies(cfg) && IsActive(trace[0])
    && forall n | 0 <= n < |events| :: IsAutomatic(events[n]) && trace[n + 1] == Next(trace[n], cfg, events[n])
  }

  /** Not banned, and deactivated or still on the MUR provisioned at the given time. */
  predicate IsOn(w: World, provisioned: int) {
    !w.user.banned && (w.user.deactivated || (IsActive(w) && w.mur.value.provisioned == Some(provisioned)))
  }

  predicate IsMarked(w: World) {
    w.user.deactivated || w.user.deactivating
  }

  /** A notice was created that lets the user be deactivated from the given time on. */
  predicate IsNotified(w: World, cfg: Config, due: int) {
    w.user.deactivated || (w.user.deactivating && IsTrue(w.user.notice) && DeactivationDue(cfg, w.user.notice) <= due)
  }

  lemma StepKeepsStages(w: World, cfg: Config, e: Event, provisioned: int, due: int)
    requires Inv(w, cfg) && Applies(cfg) && IsOn(w, provisioned) && IsAutomatic(e)
    ensures var x := Next(w, cfg, e);
            && Inv(x, cfg) && IsOn(x, provisioned) && w.now <= x.now
            && (IsMarked(w) ==> IsMarked(x)) && (IsNotified(w, cfg, due) ==> IsNotified(x, cfg, due))
  {
    EventKeepsInv(w, cfg, e);
    if !w.user.deactivated {
      RankNeverRises(w, cfg, e);
    }
  }

  lemma {:induction false} TraceKeepsStages(trace: seq<World>, cfg: Config, events: seq<Event>, n: nat, m: nat,
                                            due: int)
    requires IsTrace(trace, cfg, events) && n <= m < |trace|
    ensures Inv(trace[m], cfg) && IsOn(trace[m], trace[0].mur.value.provisioned.value)
    ensures trace[n].now <= trace[m].now
    ensures IsMarked(trace[n]) ==> IsMarked(trace[m])
    ensures IsNotified(trace[n], cfg, due) ==> IsNotified(trace[m], cfg, due)
    decreases m
  {
    if m > 0 {
      var (w, e) := (trace[m - 1], events[m - 1]);
      TraceKeepsStages(trace, cfg, events, if n < m then n else m - 1, m - 1, due);
      assert trace[m] == Next(w, cfg, e);
      StepKeepsStages(w, cfg, e, trace[0].mur.value.provisioned.value, due);
    }
  }

  /** The calls the notice needs succeed. */
  predicate IsWorkingSignup(e: Event) {
    e.SignupRuns? && !e.signupCalls.activeFails && !e.signupCalls.noticeFails && !e.signupCalls.sendFails
  }

  /**
   * In every run, whatever else happens by itself or fails in between: once the deactivation controller has had a
   * working run after the notice was due, then the UserSignup controller, then the deactivation controller again at
   * least the notice period later, the user is deactivated and stays so.
   */
  lemma EveryRunDeactivates(trace: seq<World>, cfg: Config, events: seq<Event>, i: nat, j: nat, k: nat, m: nat)
    requires IsTrace(trace, cfg, events) && i < j < k < m < |trace|
    requires events[i] == DEACTIVATE && trace[i].now >= NoticeDue(cfg, trace[0].mur.value.provisioned.value)
    requires IsWorkingSignup(events[j])
    requires events[k].DeactivationRuns? && !events[k].calls.updateFails
             && trace[k].now >= trace[j].now + cfg.noticeDays * DAY
    ensures trace[m].user.deactivated
  {
    var due := trace[j].now + cfg.noticeDays * DAY;
    TraceKeepsStages(trace, cfg, events, 0, i, due);
    assert IsMarked(trace[i + 1]) by {
      assert trace[i + 1] == Next(trace[i], cfg, DEACTIVATE);
    }
    TraceKeepsStages(trace, cfg, events, i + 1, j, due);
    assert IsNotified(trace[j + 1], cfg, due) by {
      assert trace[j + 1] == Next(trace[j], cfg, events[j]);
    }
    TraceKeepsStages(trace, cfg, events, j + 1, k, due);
    assert trace[k + 1].user.deactivated by {
      assert trace[k + 1] == Next(trace[k], cfg, events[k]);
    }
    DeactivatedStays(trace, cfg, events, k + 1, m);
  }

  lemma {:induction false} DeactivatedStays(trace: seq<World>, cfg: Config, events: seq<Event>, n: nat, m: nat)
    requires IsTrace(trace, cfg, events) && n <= m < |trace| && trace[n].user.deactivated
    ensures trace[m].user.deactivated
    decreases m
  {
    if n < m {
      DeactivatedStays(trace, cfg, events, n, m - 1);
      var (w, e) := (trace[m - 1], events[m - 1]);
      assert trace[m] == Next(w, cfg, e);
    }
  }

  /** From some point on the user is deactivated, not banned, and without a MUR. */
  predicate IsOut(w: World) {
    w.user.deactivated && !w.user.banned && w.mur.None?
  }

  /** Deactivated, with the MUR on its way out or gone. */
  predicate IsGoing(w: World) {
    w.user.deactivated && !w.user.banned && (w.mur.None? || w.mur.value.beingDeleted)
  }

  lemma {:induction false} StaysOut(trace: seq<World>, cfg: Config, events: seq<Event>, n: nat, m: nat)
    requires IsTrace(trace, cfg, events) && n <= m < |trace|
    ensures IsGoing(trace[n]) ==> IsGoing(trace[m])
    ensures IsOut(trace[n]) ==> IsOut(trace[m])
    decreases m
  {
    if n < m {
      StaysOut(trace, cfg, events, n, m - 1);
      TraceKeepsStages(trace, cfg, events, 0, m - 1, 0);
      var (w, e) := (trace[m - 1], events[m - 1]);
      assert trace[m] == Next(w, cfg, e);
    }
  }

  /**
   * And the MUR goes: once the UserSignup controller has had a working run after the deactivation, and the deletion of
   * the MUR has ended after that, the user is deactivated and has no MUR for the rest of the run.
   */
  lemma EveryRunRemovesTheMur(trace: seq<World>, cfg: Config, events: seq<Event>, d: nat, l: nat, r: nat, m: nat)
    requires IsTrace(trace, cfg, events) && d <= l < r < m < |trace| && trace[d].user.deactivated
    requires IsWorkingSignup(events[l]) && !events[l].signupCalls.murFails && events[r] == MurRemoved
    ensures trace[m].user.deactivated && trace[m].mur == None
  {
    DeactivatedStays(trace, cfg, events, d, l);
    TraceKeepsStages(trace, cfg, events, 0, l, 0);
    assert IsGoing(trace[l + 1]) by {
      assert trace[l + 1] == Next(trace[l], cfg, events[l]);
    }
    StaysOut(trace, cfg, events, l + 1, r);
    assert IsOut(trace[r + 1]) by {
      assert trace[r + 1] == Next(trace[r], cfg, events[r]);
    }
    StaysOut(trace, cfg, events, r + 1, m);
  }
}
