/**
 * The per-cluster space counters and gauges, updated by any number of concurrent increments and
 * decrements. Every atomic operation of the two functions is a step of its own.
 */
module SpaceCounter {
  /**
   * Where a call has got to. A decrement that has loaded the counter remembers the value and, for the
   * proof, how much of the history there was.
   */
  datatype Pc =
    | IncStart | IncGauged | IncFound | IncDone
    | DecStart | DecFound | DecLoaded(current: int, seen: nat) | DecSwapped | DecDone

  datatype Thread = Thread(cluster: string, pc: Pc)

  datatype Op = Op(cluster: string, increments: bool)

  /** `history` lists the calls in the order in which they took effect. */
  datatype State = State(counters: map<string, int>, gauges: map<string, int>, threads: seq<Thread>, history: seq<Op>)

  function Get(m: map<string, int>, key: string): int {
    if key in m then m[key] else 0
  }

  /** `LoadOrStore` with a zero counter. */
  function Found(counters: map<string, int>, cluster: string): map<string, int> {
    if cluster in counters then counters else counters[cluster := 0]
  }

  // ---------- Steps ----------

  function Moved(s: State, i: nat, pc: Pc): State
    requires i < |s.threads|
  {
    s.(threads := s.threads[i := s.threads[i].(pc := pc)])
  }

  function Step(s: State, i: nat): State
    requires i < |s.threads|
  {
    var c := s.threads[i].cluster;
    match s.threads[i].pc
    case IncStart => Moved(s, i, IncGauged).(gauges := s.gauges[c := Get(s.gauges, c) + 1])
    case IncGauged => Moved(s, i, IncFound).(counters := Found(s.counters, c))
    case IncFound =>
      Moved(s, i, IncDone).(counters := s.counters[c := Get(s.counters, c) + 1], history := s.history + [Op(c, true)])
    case DecStart => Moved(s, i, DecFound).(counters := Found(s.counters, c))
    case DecFound =>
      var current := Get(s.counters, c);
      if current <= 0 then Moved(s, i, DecDone).(history := s.history + [Op(c, false)])
      else Moved(s, i, DecLoaded(current, |s.history|))
    case DecLoaded(current, _) =>
      if Get(s.counters, c) == current then
        Moved(s, i, DecSwapped).(counters := s.counters[c := current - 1], history := s.history + [Op(c, false)])
      else Moved(s, i, DecFound)
    case DecSwapped => Moved(s, i, DecDone).(gauges := s.gauges[c := Get(s.gauges, c) - 1])
    case IncDone => s
    case DecDone => s
  }

  /** A step of one of the calls, or a new call. */
  ghost predicate Next(s: State, t: State) {
    (exists i :: Steps(s, i, t)) || (exists c, pc :: Calls(s, c, pc, t))
  }

  ghost predicate Steps(s: State, i: nat, t: State) {
    i < |s.threads| && t == Step(s, i)
  }

  ghost predicate Calls(s: State, c: string, pc: Pc, t: State) {
    (pc == IncStart || pc == DecStart) && t == s.(threads := s.threads + [Thread(c, pc)])
  }

  ghost predicate IsRun(trace: seq<State>) {
    && |trace| > 0 && trace[0] == State(map[], map[], [], [])
    && forall k | 0 < k < |trace| :: Next(trace[k - 1], trace[k])
  }

  // ---------- The counter as it should be ----------

  /** The calls in the history, each taking effect at once: a decrement stops at zero. */
  function Replay(history: seq<Op>, cluster: string): nat {
    if history == [] then 0
    else
      var n := Replay(history[..|history| - 1], cluster);
      var op := history[|history| - 1];
      if op.cluster != cluster then n else if op.increments then n + 1 else if n > 0 then n - 1 else 0
  }

  datatype Kind = Ahead | Increments | Decrements

  /** What a call in progress adds to: the gauge being ahead of the counter, or the calls that have taken effect. */
  function Weight(t: Thread, cluster: string, kind: Kind): nat {
    if t.cluster != cluster then 0
    else match kind
         case Ahead => if t.pc.IncGauged? || t.pc.IncFound? || t.pc.DecSwapped? then 1 else 0
         case Increments => if t.pc.IncDone? then 1 else 0
         case Decrements => if t.pc.DecSwapped? || t.pc.DecDone? then 1 else 0
  }

  function Total(threads: seq<Thread>, cluster: string, kind: Kind): nat {
    if threads == [] then 0
    else Total(threads[..|threads| - 1], cluster, kind) + Weight(threads[|threads| - 1], cluster, kind)
  }

  function Occurrences(history: seq<Op>, op: Op): nat {
    if history == [] then 0
    else Occurrences(history[..|history| - 1], op) + if history[|history| - 1] == op then 1 else 0
  }

  lemma {:induction false} TotalUpdate(threads: seq<Thread>, i: nat, t: Thread, cluster: string, kind: Kind)
    requires i < |threads|
    ensures Total(threads[i := t], cluster, kind) == Total(threads, cluster, kind) - Weight(threads[i], cluster, kind)
            + Weight(t, cluster, kind)
  {
    var n := |threads| - 1;
    if i < n {
      assert threads[i := t][..n] == threads[..n][i := t];
      TotalUpdate(threads[..n], i, t, cluster, kind);
    } else {
      assert threads[i := t][..n] == threads[..n];
    }
  }

  lemma ReplayAppend(history: seq<Op>, op: Op, cluster: string)
    ensures var n := Replay(history, cluster);
            Replay(history + [op], cluster)
            == if op.cluster != cluster then n else if op.increments then n + 1 else if n > 0 then n - 1 else 0
    ensures Occurrences(history + [op], Op(cluster, true)) == Occurrences(history, Op(cluster, true))
            + if op == Op(cluster, true) then 1 else 0
    ensures Occurrences(history + [op], Op(cluster, false)) == Occurrences(history, Op(cluster, false))
            + if op == Op(cluster, false) then 1 else 0
  {
    assert (history + [op])[..|history|] == history;
  }

  // ---------- The invariant ----------

  ghost predicate Agrees(s: State, cluster: string) {
    && Get(s.counters, cluster) == Replay(s.history, cluster)
    && Get(s.gauges, cluster) == Get(s.counters, cluster) + Total(s.threads, cluster, Ahead)
    && Occurrences(s.history, Op(cluster, true)) == Total(s.threads, cluster, Increments)
    && Occurrences(s.history, Op(cluster, false)) == Total(s.threads, cluster, Decrements)
  }

  ghost predicate LoadIsTrue(s: State, t: Thread) {
    t.pc.DecLoaded? ==>
          t.pc.seen <= |s.history| && t.pc.current > 0
          && Replay(s.history[..t.pc.seen], t.cluster) == t.pc.current
  }

  ghost predicate Inv(s: State) {
    && (forall cluster :: Agrees(s, cluster))
    && (forall i | 0 <= i < |s.threads| :: LoadIsTrue(s, s.threads[i]))
  }

  /** How the totals change when call i moves to `pc`. */
  lemma MovedTotals(s: State, i: nat, pc: Pc, cluster: string)
    requires i < |s.threads|
    ensures var (was, will) := (s.threads[i], s.threads[i].(pc := pc));
            var threads := Moved(s, i, pc).threads;
            && Total(threads, cluster, Ahead) == Total(s.threads, cluster, Ahead) - Weight(was, cluster, Ahead)
                  + Weight(will, cluster, Ahead)
            && Total(threads, cluster, Increments) == Total(s.threads, cluster, Increments)
                  - Weight(was, cluster, Increments) + Weight(will, cluster, Increments)
            && Total(threads, cluster, Decrements) == Total(s.threads, cluster, Decrements)
                  - Weight(was, cluster, Decrements) + Weight(will, cluster, Decrements)
  {
    TotalUpdate(s.threads, i, s.threads[i].(pc := pc), cluster, Ahead);
    TotalUpdate(s.threads, i, s.threads[i].(pc := pc), cluster, Increments);
    TotalUpdate(s.threads, i, s.threads[i].(pc := pc), cluster, Decrements);
  }

  /** A step that takes effect: the counter moves as the atomic operation says, the gauge does not. */
  lemma EffectAgrees(s: State, i: nat, pc: Pc, counters: map<string, int>, op: Op, cluster: string)
    requires Agrees(s, cluster) && i < |s.threads| && op.cluster == s.threads[i].cluster
    requires var n := Get(s.counters, cluster);
             Get(counters, cluster)
             == if op.cluster != cluster then n else if op.increments then n + 1 else if n > 0 then n - 1 else 0
    requires op.increments ==> s.threads[i].pc == IncFound && pc == IncDone
    requires !op.increments ==> (s.threads[i].pc == DecFound || s.threads[i].pc.DecLoaded?)
    requires !op.increments ==> pc == if Get(s.counters, op.cluster) > 0 then DecSwapped else DecDone
    ensures Agrees(Moved(s, i, pc).(counters := counters, history := s.history + [op]), cluster)
  {
    MovedTotals(s, i, pc, cluster);
    ReplayAppend(s.history, op, cluster);
  }

  /** A step that does not take effect: the gauge moves with the number of calls ahead. */
  lemma QuietAgrees(s: State, i: nat, pc: Pc, counters: map<string, int>, gauges: map<string, int>, cluster: string)
    requires Agrees(s, cluster) && i < |s.threads| && Get(counters, cluster) == Get(s.counters, cluster)
    requires var (was, will) := (s.threads[i], s.threads[i].(pc := pc));
             && Get(gauges, cluster) == Get(s.gauges, cluster) - Weight(was, cluster, Ahead)
                   + Weight(will, cluster, Ahead)
             && Weight(was, cluster, Increments) == Weight(will, cluster, Increments)
             && Weight(was, cluster, Decrements) == Weight(will, cluster, Decrements)
    ensures Agrees(Moved(s, i, pc).(counters := counters, gauges := gauges), cluster)
  {
    MovedTotals(s, i, pc, cluster);
  }

  lemma IncrementStepAgrees(s: State, i: nat, cluster: string)
    requires Inv(s) && i < |s.threads|
    requires s.threads[i].pc in {IncStart, IncGauged, IncFound}
    ensures Agrees(Step(s, i), cluster)
  {
    var c := s.threads[i].cluster;
    assert Agrees(s, cluster) && Agrees(s, c);
    if s.threads[i].pc == IncStart {
      QuietAgrees(s, i, IncGauged, s.counters, s.gauges[c := Get(s.gauges, c) + 1], cluster);
    } else if s.threads[i].pc == IncGauged {
      QuietAgrees(s, i, IncFound, Found(s.counters, c), s.gauges, cluster);
    } else {
      EffectAgrees(s, i, IncDone, s.counters[c := Get(s.counters, c) + 1], Op(c, true), cluster);
    }
  }

  lemma SwapStepAgrees(s: State, i: nat, cluster: string)
    requires Inv(s) && i < |s.threads| && s.threads[i].pc.DecLoaded?
    ensures Agrees(Step(s, i), cluster)
  {
    var (c, current) := (s.threads[i].cluster, s.threads[i].pc.current);
    assert Agrees(s, cluster) && Agrees(s, c) && LoadIsTrue(s, s.threads[i]);
    if Get(s.counters, c) == current {
      EffectAgrees(s, i, DecSwapped, s.counters[c := current - 1], Op(c, false), cluster);
    } else {
      QuietAgrees(s, i, DecFound, s.counters, s.gauges, cluster);
    }
  }

  lemma DecrementStepAgrees(s: State, i: nat, cluster: string)
    requires Inv(s) && i < |s.threads|
    requires s.threads[i].pc in {DecStart, DecFound, DecSwapped}
    ensures Agrees(Step(s, i), cluster)
  {
    var c := s.threads[i].cluster;
    assert Agrees(s, cluster) && Agrees(s, c);
    if s.threads[i].pc == DecStart {
      QuietAgrees(s, i, DecFound, Found(s.counters, c), s.gauges, cluster);
    } else if s.threads[i].pc == DecSwapped {
      QuietAgrees(s, i, DecDone, s.counters, s.gauges[c := Get(s.gauges, c) - 1], cluster);
    } else if Get(s.counters, c) <= 0 {
      EffectAgrees(s, i, DecDone, s.counters, Op(c, false), cluster);
    } else {
      QuietAgrees(s, i, DecLoaded(Get(s.counters, c), |s.history|), s.counters, s.gauges, cluster);
    }
  }

  lemma StepAgrees(s: State, i: nat, cluster: string)
    requires Inv(s) && i < |s.threads|
    ensures Agrees(Step(s, i), cluster)
  {
    var pc := s.threads[i].pc;
    if pc in {IncStart, IncGauged, IncFound} {
      IncrementStepAgrees(s, i, cluster);
    } else if pc in {DecStart, DecFound, DecSwapped} {
      DecrementStepAgrees(s, i, cluster);
    } else if pc.DecLoaded? {
      SwapStepAgrees(s, i, cluster);
    }
  }

  /** A step only adds to the history, so what was loaded stays true of the part seen then; a new load is true now. */
  lemma StepKeepsLoads(s: State, i: nat, j: nat)
    requires Inv(s) && i < |s.threads| && j < |s.threads|
    ensures LoadIsTrue(Step(s, i), Step(s, i).threads[j])
  {
    assert LoadIsTrue(s, s.threads[j]) && Agrees(s, s.threads[j].cluster);
    assert s.history[..|s.history|] == s.history;
    HistoryGrows(s, i);
    if i != j {
      assert Step(s, i).threads[j] == s.threads[j];
      if s.threads[j].pc.DecLoaded? {
        assert Step(s, i).history[..s.threads[j].pc.seen] == s.history[..s.threads[j].pc.seen];
      }
    } else if s.threads[i].pc == DecFound {
      assert Step(s, i).history[..|s.history|] == s.history;
    }
  }

  lemma HistoryGrows(s: State, i: nat)
    requires i < |s.threads|
    ensures s.history <= Step(s, i).history
  {
  }

  lemma StepKeepsInv(s: State, i: nat)
    requires Inv(s) && i < |s.threads|
    ensures Inv(Step(s, i))
  {
    var t := Step(s, i);
    forall cluster ensures Agrees(t, cluster) {
      StepAgrees(s, i, cluster);
    }
    forall j | 0 <= j < |t.threads| ensures LoadIsTrue(t, t.threads[j]) {
      StepKeepsLoads(s, i, j);
    }
  }

  lemma NewCallKeepsInv(s: State, c: string, pc: Pc)
    requires Inv(s) && (pc == IncStart || pc == DecStart)
    ensures Inv(s.(threads := s.threads + [Thread(c, pc)]))
  {
    var t := s.(threads := s.threads + [Thread(c, pc)]);
    assert t.threads[..|s.threads|] == s.threads;
    forall cluster ensures Agrees(t, cluster) {
      assert Agrees(s, cluster);
    }
  }

  lemma {:induction false} RunKeepsInv(trace: seq<State>, k: nat)
    requires IsRun(trace) && k < |trace|
    ensures Inv(trace[k])
  {
    if k > 0 {
      var (s, t) := (trace[k - 1], trace[k]);
      RunKeepsInv(trace, k - 1);
      assert Next(s, t);
      NextKeepsInv(s, t);
    } else {
      StartIsConsistent();
    }
  }

  lemma NextKeepsInv(s: State, t: State)
    requires Inv(s) && Next(s, t)
    ensures Inv(t)
  {
    if i :| Steps(s, i, t) {
      StepKeepsInv(s, i);
    } else {
      var c, pc :| Calls(s, c, pc, t);
      NewCallKeepsInv(s, c, pc);
    }
  }

  lemma StartIsConsistent()
    ensures Inv(State(map[], map[], [], []))
  {
  }

  // ---------- Results ----------

  /**
   * In every interleaving the counter is never negative and is what the calls that took effect so far make it,
   * one after the other; the gauge is ahead of it by the increments between their gauge step and their add,
   * plus the decrements between their swap and their gauge step.
   */
  lemma CountersAreConsistent(trace: seq<State>, k: nat, cluster: string)
    requires IsRun(trace) && k < |trace|
    ensures Get(trace[k].counters, cluster) >= 0
    ensures Get(trace[k].counters, cluster) == Replay(trace[k].history, cluster)
    ensures Get(trace[k].gauges, cluster) == Get(trace[k].counters, cluster) + Total(trace[k].threads, cluster, Ahead)
  {
    RunKeepsInv(trace, k);
    assert Agrees(trace[k], cluster);
  }

  predicate IsDone(t: Thread) {
    t.pc.IncDone? || t.pc.DecDone?
  }

  lemma {:induction false} DoneIsNotAhead(threads: seq<Thread>, cluster: string)
    requires forall i | 0 <= i < |threads| :: IsDone(threads[i])
    ensures Total(threads, cluster, Ahead) == 0
    ensures Total(threads, cluster, Increments) + Total(threads, cluster, Decrements) == CallsOn(threads, cluster)
  {
    if threads != [] {
      assert IsDone(threads[|threads| - 1]);
      DoneIsNotAhead(threads[..|threads| - 1], cluster);
    }
  }

  function CallsOn(threads: seq<Thread>, cluster: string): nat {
    if threads == [] then 0
    else CallsOn(threads[..|threads| - 1], cluster) + if threads[|threads| - 1].cluster == cluster then 1 else 0
  }

  /** When all calls have returned, gauge and counter agree, and every call took effect exactly once. */
  lemma QuiescentCountersAgree(trace: seq<State>, k: nat, cluster: string)
    requires IsRun(trace) && k < |trace|
    requires forall i | 0 <= i < |trace[k].threads| :: IsDone(trace[k].threads[i])
    ensures Get(trace[k].gauges, cluster) == Get(trace[k].counters, cluster) == Replay(trace[k].history, cluster)
    ensures Occurrences(trace[k].history, Op(cluster, true)) + Occurrences(trace[k].history, Op(cluster, false))
            == CallsOn(trace[k].threads, cluster)
  {
    RunKeepsInv(trace, k);
    assert Agrees(trace[k], cluster);
    DoneIsNotAhead(trace[k].threads, cluster);
  }

  lemma {:induction false} ReplayUntouched(history: seq<Op>, n: nat, cluster: string)
    requires n <= |history| && forall i | n <= i < |history| :: history[i].cluster != cluster
    ensures Replay(history, cluster) == Replay(history[..n], cluster)
    decreases |history|
  {
    if n < |history| {
      assert history[..|history| - 1][..n] == history[..n];
      ReplayUntouched(history[..|history| - 1], n, cluster);
    } else {
      assert history[..n] == history;
    }
  }

  /** Lock freedom: a compare-and-swap only fails if another call on the cluster took effect since the load. */
  lemma FailedSwapMeansProgress(trace: seq<State>, k: nat, i: nat)
    requires IsRun(trace) && k < |trace| && i < |trace[k].threads|
    requires trace[k].threads[i].pc.DecLoaded? && Step(trace[k], i).threads[i].pc == DecFound
    ensures exists j ::
              trace[k].threads[i].pc.seen <= j < |trace[k].history|
              && trace[k].history[j].cluster == trace[k].threads[i].cluster
  {
    RunKeepsInv(trace, k);
    var t := trace[k].threads[i];
    assert LoadIsTrue(trace[k], t) && Agrees(trace[k], t.cluster);
    if forall j | t.pc.seen <= j < |trace[k].history| :: trace[k].history[j].cluster != t.cluster {
      ReplayUntouched(trace[k].history, t.pc.seen, t.cluster);
    }
  }

  // ---------- A call that is let alone ----------

  /** An increment that nothing interrupts is done after three steps: gauge and counter are one up. */
  lemma IncrementFinishes(s: State, i: nat)
    requires i < |s.threads| && s.threads[i].pc == IncStart
    ensures var (t, c) := (Step(Step(Step(s, i), i), i), s.threads[i].cluster);
            && t.threads == s.threads[i := Thread(c, IncDone)]
            && Get(t.counters, c) == Get(s.counters, c) + 1 && Get(t.gauges, c) == Get(s.gauges, c) + 1
            && forall k | k != c :: Get(t.counters, k) == Get(s.counters, k) && Get(t.gauges, k) == Get(s.gauges, k)
  {
  }

  /**
   * A decrement that nothing interrupts is done after four steps, one down, or after two if there is nothing to
   * lower.
   */
  lemma DecrementFinishes(s: State, i: nat)
    requires i < |s.threads| && s.threads[i].pc == DecStart
    ensures var (t, c) := (Step(Step(s, i), i), s.threads[i].cluster);
            Get(s.counters, c) <= 0 ==>
              && t.threads == s.threads[i := Thread(c, DecDone)] && t.gauges == s.gauges
              && forall k :: Get(t.counters, k) == Get(s.counters, k)
    ensures var (t, c) := (Step(Step(Step(Step(s, i), i), i), i), s.threads[i].cluster);
            Get(s.counters, c) > 0 ==>
              && t.threads == s.threads[i := Thread(c, DecDone)]
              && Get(t.counters, c) == Get(s.counters, c) - 1 && Get(t.gauges, c) == Get(s.gauges, c) - 1
              && forall k | k != c :: Get(t.counters, k) == Get(s.counters, k) && Get(t.gauges, k) == Get(s.gauges, k)
  {
  }

  // ---------- One call at a time ----------

  class SpaceCounts {
    var counters: map<string, int>
    var gauges: map<string, int>

    constructor ()
      ensures counters == map[] && gauges == map[]
    {
      counters, gauges := map[], map[];
    }

    method IncrementSpaceCount(cluster: string)
      modifies this
      ensures gauges == old(gauges)[cluster := Get(old(gauges), cluster) + 1]
      ensures counters == old(counters)[cluster := Get(old(counters), cluster) + 1]
    {
      gauges := gauges[cluster := Get(gauges, cluster) + 1];
      counters := Found(counters, cluster);
      counters := counters[cluster := counters[cluster] + 1];
    }

    method CompareAndSwap(cluster: string, expected: int, value: int) returns (swapped: bool)
      modifies this`counters
      ensures swapped <==> Get(old(counters), cluster) == expected
      ensures counters == if swapped then old(counters)[cluster := value] else old(counters)
    {
      swapped := Get(counters, cluster) == expected;
      if swapped {
        counters := counters[cluster := value];
      }
    }

    /** Never takes a counter below zero; the gauge follows only a real decrement. */
    method DecrementSpaceCount(cluster: string)
      modifies this
      ensures Get(old(counters), cluster) <= 0 ==> gauges == old(gauges) && counters == Found(old(counters), cluster)
      ensures Get(old(counters), cluster) > 0 ==>
                && gauges == old(gauges)[cluster := Get(old(gauges), cluster) - 1]
                && counters == old(counters)[cluster := Get(old(counters), cluster) - 1]
    {
      counters := Found(counters, cluster);
      var swapped := false;
      while !swapped
        invariant !swapped ==> counters == Found(old(counters), cluster)
        invariant swapped ==>
                  Get(old(counters), cluster) > 0
                  && counters == old(counters)[cluster := Get(old(counters), cluster) - 1]
        invariant gauges == old(gauges)
        decreases !swapped
      {
        var current := Get(counters, cluster);
        if current <= 0 {
          return;
        }
        swapped := CompareAndSwap(cluster, current, current - 1);
      }
      gauges := gauges[cluster := Get(gauges, cluster) - 1];
    }
  }
}
