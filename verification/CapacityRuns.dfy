/**
 * Runs of the cluster scheduler. A pick is made when a signup is approved or a Space completed; the cluster's count
 * rises only later, when the Space's NSTemplateSet is created. Any number of picks may come in between.
 */
module CapacityRuns {
  import opened Base
  import opened Capacity

  /** `uncounted` are the Spaces assigned to a cluster by a pick and not counted there yet. */
  datatype Fleet = Fleet(counts: map<string, nat>, uncounted: map<string, nat>, lastUsed: string)

  function Load(f: Fleet, cluster: string): nat {
    Lookup(f.counts, cluster) + Lookup(f.uncounted, cluster)
  }

  function OneMore(m: map<string, nat>, key: string): map<string, nat> {
    m[key := Lookup(m, key) + 1]
  }

  // ---------- Steps ----------

  /** A pick that finds a cluster; it sees the counts only. */
  ghost predicate Assigns(f: Fleet, configs: seq<ProvisionerConfig>, preferred: string, roles: seq<string>,
                          cands: seq<Candidate>, name: string, g: Fleet)
  {
    && IsShortlist(cands, configs, f.counts, preferred, roles) && cands != []
    && Picks(cands, f.lastUsed, name, g.lastUsed)
    && g == f.(uncounted := OneMore(f.uncounted, name), lastUsed := g.lastUsed)
  }

  /** An assigned Space gets its NSTemplateSet. */
  predicate Counts(f: Fleet, cluster: string, g: Fleet) {
    && Lookup(f.uncounted, cluster) > 0
    && g == f.(counts := OneMore(f.counts, cluster),
               uncounted := f.uncounted[cluster := Lookup(f.uncounted, cluster) - 1])
  }

  /** An assigned Space goes away, or elsewhere, without having been counted. */
  predicate Drops(f: Fleet, cluster: string, g: Fleet) {
    Lookup(f.uncounted, cluster) > 0 && g == f.(uncounted := f.uncounted[cluster := Lookup(f.uncounted, cluster) - 1])
  }

  /** Counted Spaces go away. */
  ghost predicate Leaves(f: Fleet, g: Fleet) {
    g == f.(counts := g.counts) && forall n :: Lookup(g.counts, n) <= Lookup(f.counts, n)
  }

  // ---------- Commitment ----------

  /** Each cluster has one threshold, whatever else about its configs changes. */
  ghost predicate Respects(configs: seq<ProvisionerConfig>, limits: map<string, nat>) {
    forall g | g in configs :: g.cluster in limits && limits[g.cluster] == g.maxSpaces
  }

  /** A pick of this cluster, under any configs and filter. */
  ghost predicate IsPick(f: Fleet, limits: map<string, nat>, name: string, g: Fleet) {
    exists configs, preferred, roles, cands ::
      Respects(configs, limits) && Assigns(f, configs, preferred, roles, cands, name, g)
  }

  ghost predicate Moves(f: Fleet, g: Fleet) {
    (exists c :: Counts(f, c, g)) || (exists c :: Drops(f, c, g)) || Leaves(f, g)
  }

  ghost predicate FleetNext(f: Fleet, limits: map<string, nat>, g: Fleet) {
    Moves(f, g) || exists name :: IsPick(f, limits, name, g)
  }

  ghost predicate FleetRun(trace: seq<Fleet>, limits: map<string, nat>) {
    |trace| > 0 && forall k | 0 < k < |trace| :: FleetNext(trace[k - 1], limits, trace[k])
  }

  ghost predicate IsLimited(limits: map<string, nat>, cluster: string) {
    cluster in limits && limits[cluster] != 0
  }

  /** A pick only names a cluster whose count is below its threshold. */
  lemma PickSeesRoom(f: Fleet, limits: map<string, nat>, cluster: string, g: Fleet)
    requires IsPick(f, limits, cluster, g) && IsLimited(limits, cluster)
    ensures Lookup(f.counts, cluster) < limits[cluster]
  {
    var configs, preferred, roles, cands :|
      Respects(configs, limits) && Assigns(f, configs, preferred, roles, cands, cluster, g);
    PickIsSound(configs, f.counts, preferred, roles, cands, f.lastUsed, cluster, g.lastUsed);
    var c: ProvisionerConfig :| c in configs && c.cluster == cluster && Suits(c, f.counts, roles);
    assert limits[c.cluster] == c.maxSpaces;
  }

  lemma PickAddsLoad(f: Fleet, limits: map<string, nat>, name: string, g: Fleet, cluster: string)
    requires IsPick(f, limits, name, g)
    ensures Lookup(g.counts, cluster) == Lookup(f.counts, cluster)
    ensures Lookup(g.uncounted, cluster) == Lookup(f.uncounted, cluster) + if name == cluster then 1 else 0
  {
  }

  lemma MoveAddsNoLoad(f: Fleet, g: Fleet, cluster: string)
    requires Moves(f, g)
    ensures Load(g, cluster) <= Load(f, cluster)
  {
  }

  /**
   * What the code does give: with never more than d + 1 Spaces of the cluster uncounted, counted and uncounted
   * ones together exceed its threshold by at most d. In particular it is never exceeded if each is counted
   * before the next pick.
   */
  lemma {:induction false} OverCommitmentIsBounded(trace: seq<Fleet>, limits: map<string, nat>, cluster: string, d: nat,
                                                   k: nat, m: nat)
    requires FleetRun(trace, limits) && k <= m < |trace| && IsLimited(limits, cluster)
    requires forall i | 0 <= i < |trace| :: Lookup(trace[i].uncounted, cluster) <= d + 1
    requires Load(trace[k], cluster) <= limits[cluster] + d
    ensures Lookup(trace[m].counts, cluster) <= Load(trace[m], cluster) <= limits[cluster] + d
    decreases m
  {
    if k < m {
      OverCommitmentIsBounded(trace, limits, cluster, d, k, m - 1);
      var (f, g) := (trace[m - 1], trace[m]);
      assert FleetNext(f, limits, g);
      StepKeepsBound(f, limits, g, cluster, d);
    }
  }

  lemma StepKeepsBound(f: Fleet, limits: map<string, nat>, g: Fleet, cluster: string, d: nat)
    requires FleetNext(f, limits, g) && IsLimited(limits, cluster)
    requires Lookup(g.uncounted, cluster) <= d + 1 && Load(f, cluster) <= limits[cluster] + d
    ensures Load(g, cluster) <= limits[cluster] + d
  {
    if Moves(f, g) {
      MoveAddsNoLoad(f, g, cluster);
    } else {
      var name :| IsPick(f, limits, name, g);
      PickAddsLoad(f, limits, name, g, cluster);
      if name == cluster {
        PickSeesRoom(f, limits, cluster, g);
      }
    }
  }

  // ---------- The bound is reached ----------

  function Alone(limit: nat): seq<ProvisionerConfig> {
    [ProvisionerConfig("a", limit, true, [TENANT_ROLE])]
  }

  function At(counted: nat, uncounted: nat): Fleet {
    Fleet(map["a" := counted], map["a" := uncounted], "")
  }

  lemma AlonePicked(limit: nat, n: nat, u: nat)
    requires n < limit
    ensures IsPick(At(n, u), map["a" := limit], "a", At(n, u + 1))
  {
    var (configs, f) := (Alone(limit), At(n, u));
    var c := CandidateOf(configs[0], f.counts);
    assert configs[..0] == [] && Eligible(configs[..0], f.counts, []) == [];
    assert Eligible(configs, f.counts, []) == [c];
    assert Assigns(f, configs, "", [], [c], "a", At(n, u + 1));
  }

  lemma AloneCounted(n: nat, u: nat)
    requires u > 0
    ensures Counts(At(n, u), "a", At(n + 1, u - 1)) && Lookup(At(n, u).uncounted, "a") == u
  {
    assert map["a" := u]["a" := u - 1] == map["a" := u - 1] && map["a" := n]["a" := n + 1] == map["a" := n + 1];
  }

  /** First all the picks, then all the counts. */
  function Stage(limit: nat, picks: nat, i: nat): Fleet
    requires limit > 0 && i <= 2 * picks
  {
    if i <= picks then At(limit - 1, i) else At(limit - 1 + (i - picks), 2 * picks - i)
  }

  /** One cluster one short of its threshold: d + 1 picks all see the room, and all their Spaces are counted. */
  lemma OverCommitmentIsReached(limit: nat, d: nat) returns (trace: seq<Fleet>)
    requires limit > 0
    ensures FleetRun(trace, map["a" := limit]) && trace[0] == At(limit - 1, 0)
    ensures forall i | 0 <= i < |trace| :: Lookup(trace[i].uncounted, "a") <= d + 1
    ensures trace[|trace| - 1] == At(limit + d, 0)
  {
    var picks := d + 1;
    trace := seq(2 * picks + 1, i requires 0 <= i < 2 * picks + 1 => Stage(limit, picks, i));
    forall i | 0 <= i < |trace| ensures trace[i] == Stage(limit, picks, i) && Lookup(trace[i].uncounted, "a") <= picks {
    }
    forall k | 0 < k < |trace| ensures FleetNext(trace[k - 1], map["a" := limit], trace[k]) {
      StageStep(limit, picks, k);
    }
  }

  lemma StageStep(limit: nat, picks: nat, k: nat)
    requires limit > 0 && 0 < k <= 2 * picks
    ensures FleetNext(Stage(limit, picks, k - 1), map["a" := limit], Stage(limit, picks, k))
  {
    if k <= picks {
      AlonePicked(limit, limit - 1, k - 1);
    } else {
      AloneCounted(limit - 1 + (k - 1 - picks), 2 * picks - (k - 1));
    }
  }

  // ---------- The guard that would be needed ----------

  /** Picks of the cluster are only made while its counted and uncounted Spaces together leave room. */
  ghost predicate IsCareful(trace: seq<Fleet>, limits: map<string, nat>, cluster: string) {
    && FleetRun(trace, limits) && cluster in limits
    && forall k | 0 < k < |trace| :: CarefulStep(trace[k - 1], limits, cluster, trace[k])
  }

  ghost predicate CarefulStep(f: Fleet, limits: map<string, nat>, cluster: string, g: Fleet)
    requires cluster in limits
  {
    IsPick(f, limits, cluster, g) ==> Load(f, cluster) < limits[cluster]
  }

  ghost predicate StaysWithin(f: Fleet, limits: map<string, nat>, cluster: string)
    requires cluster in limits
  {
    forall trace: seq<Fleet> | IsCareful(trace, limits, cluster) && trace[0] == f ::
      Lookup(trace[|trace| - 1].counts, cluster) <= limits[cluster]
  }

  lemma {:induction false} CarefulStaysWithin(trace: seq<Fleet>, limits: map<string, nat>, cluster: string, m: nat)
    requires IsCareful(trace, limits, cluster) && m < |trace| && Load(trace[0], cluster) <= limits[cluster]
    ensures Load(trace[m], cluster) <= limits[cluster]
  {
    if m > 0 {
      CarefulStaysWithin(trace, limits, cluster, m - 1);
      var (f, g) := (trace[m - 1], trace[m]);
      assert FleetNext(f, limits, g) && CarefulStep(f, limits, cluster, g);
      if Moves(f, g) {
        MoveAddsNoLoad(f, g, cluster);
      } else {
        var name :| IsPick(f, limits, name, g);
        PickAddsLoad(f, limits, name, g, cluster);
      }
    }
  }

  /** All assigned Spaces of the cluster are counted, one after the other. */
  lemma {:induction false} CountingAll(f: Fleet, limits: map<string, nat>, cluster: string, n: nat)
      returns (trace: seq<Fleet>)
    requires n == Lookup(f.uncounted, cluster) && cluster in limits
    ensures IsCareful(trace, limits, cluster) && trace[0] == f
    ensures Lookup(trace[|trace| - 1].counts, cluster) == Load(f, cluster)
    decreases n
  {
    if n == 0 {
      return [f];
    }
    var g := f.(counts := OneMore(f.counts, cluster), uncounted := f.uncounted[cluster := n - 1]);
    var rest := CountingAll(g, limits, cluster, n - 1);
    trace := [f] + rest;
    assert Counts(f, cluster, g);
    CountIsNoPick(f, limits, cluster, g);
    forall k | 0 < k < |trace|
      ensures FleetNext(trace[k - 1], limits, trace[k]) && CarefulStep(trace[k - 1], limits, cluster, trace[k])
    {
      if k > 1 {
        assert trace[k - 1] == rest[k - 2] && trace[k] == rest[k - 1];
      }
    }
  }

  lemma CountIsNoPick(f: Fleet, limits: map<string, nat>, cluster: string, g: Fleet)
    requires Counts(f, cluster, g)
    ensures !IsPick(f, limits, cluster, g)
  {
  }

  /**
   * The exact guard: a pick keeps the count of its cluster within the threshold for good, however things go on
   * with such picks only, if and only if counted and uncounted Spaces together were below it. The code looks at
   * the counted ones.
   */
  lemma PickGuardIsExact(f: Fleet, limits: map<string, nat>, cluster: string, g: Fleet)
    requires IsPick(f, limits, cluster, g) && IsLimited(limits, cluster) && Load(f, cluster) <= limits[cluster]
    ensures Load(f, cluster) < limits[cluster] <==> StaysWithin(g, limits, cluster)
  {
    PickAddsLoad(f, limits, cluster, g, cluster);
    if Load(f, cluster) < limits[cluster] {
      forall trace: seq<Fleet> | IsCareful(trace, limits, cluster) && trace[0] == g
        ensures Lookup(trace[|trace| - 1].counts, cluster) <= limits[cluster]
      {
        CarefulStaysWithin(trace, limits, cluster, |trace| - 1);
      }
    } else {
      var trace := CountingAll(g, limits, cluster, Lookup(g.uncounted, cluster));
    }
  }
}
