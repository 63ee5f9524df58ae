/**
 * Fairness of the cluster scheduler over whole runs. Everything hangs on each Space being counted before the next one
 * is assigned: with two at a time, picks can skip the end of a batch for ever.
 */
module CapacityFairness {
  import opened Base
  import opened Capacity
  import opened CapacityRuns

  /** What a pick looks at and leaves behind. */
  datatype Counters = Counters(counts: map<string, nat>, lastUsed: string)

  ghost predicate Places(f: Counters, configs: seq<ProvisionerConfig>, roles: seq<string>, cands: seq<Candidate>,
                         name: string, g: Counters) {
    && IsShortlist(cands, configs, f.counts, "", roles) && cands != []
    && Picks(cands, f.lastUsed, name, g.lastUsed) && g.counts == OneMore(f.counts, name)
  }

  // ---------- One pick and its count ----------

  /** Distinct clusters, always ready, matching the required roles, each with a positive threshold. */
  ghost predicate IsFairFleet(configs: seq<ProvisionerConfig>, roles: seq<string>) {
    && (forall i, j | 0 <= i < j < |configs| :: configs[i].cluster != configs[j].cluster)
    && (forall g | g in configs :: g.ready && g.maxSpaces > 0 && OffersAll(g.roles, RequiredRoles(roles)))
  }

  /** The count at which the batch holding the n-th Space began. */
  function BatchStart(n: nat): nat {
    if n == 0 then 0 else Rounded(n - 1)
  }

  ghost predicate SharesAreFair(counts: map<string, nat>, configs: seq<ProvisionerConfig>) {
    forall a, b | a in configs && b in configs ::
      BatchStart(Lookup(counts, a.cluster)) * b.maxSpaces <= Lookup(counts, b.cluster) * a.maxSpaces
  }

  /** An eligible cluster off a multiple of 50 is the last used one, or the only one left. */
  ghost predicate OneOpenBatch(f: Counters, configs: seq<ProvisionerConfig>) {
    forall a, b | a in configs && b in configs && Open(f.counts, a) && Open(f.counts, b) && a != b
      && Lookup(f.counts, a.cluster) % BATCH != 0 :: f.lastUsed == a.cluster
  }

  predicate Open(counts: map<string, nat>, g: ProvisionerConfig) {
    Lookup(counts, g.cluster) < g.maxSpaces
  }

  /** Cluster `a` is at most as used, relative to its threshold, as every open cluster, and no batch is open. */
  ghost predicate LeastUsed(f: Counters, configs: seq<ProvisionerConfig>, a: ProvisionerConfig) {
    forall b | b in configs && Open(f.counts, b) ::
      && (b.cluster == f.lastUsed ==> Lookup(f.counts, b.cluster) % BATCH == 0)
      && Rounded(Lookup(f.counts, a.cluster)) * b.maxSpaces <= Rounded(Lookup(f.counts, b.cluster)) * a.maxSpaces
  }

  /**
   * How a fair placement chose its cluster `a`: it was the only one open, it continued its batch, or it was
   * least used.
   */
  ghost predicate ChosenFairly(f: Counters, configs: seq<ProvisionerConfig>, a: ProvisionerConfig, g: Counters) {
    && a in configs && Open(f.counts, a)
    && g.counts == OneMore(f.counts, a.cluster)
    && ((forall b | b in configs && Open(f.counts, b) :: b == a)
        || (f.lastUsed == g.lastUsed == a.cluster && Lookup(f.counts, a.cluster) % BATCH != 0)
        || (g.lastUsed == a.cluster && LeastUsed(f, configs, a)))
  }

  /** A fair fleet's pick, with no preferred cluster, and the count that follows it taken together. */
  lemma FairPick(f: Counters, configs: seq<ProvisionerConfig>, roles: seq<string>, cands: seq<Candidate>, name: string,
                 g: Counters) returns (a: ProvisionerConfig)
    requires IsFairFleet(configs, roles) && Places(f, configs, roles, cands, name, g)
    ensures ChosenFairly(f, configs, a, g) && a.cluster == name
  {
    if |cands| == 1 {
      a := PickTheOnlyOne(f, configs, roles, name, g);
    } else {
      a := PickAmongMany(f, configs, roles, cands, name, g);
    }
  }

  lemma PickTheOnlyOne(f: Counters, configs: seq<ProvisionerConfig>, roles: seq<string>, name: string, g: Counters)
      returns (a: ProvisionerConfig)
    requires IsFairFleet(configs, roles) && |Eligible(configs, f.counts, roles)| == 1
    requires name == Eligible(configs, f.counts, roles)[0].clusterName && g.counts == OneMore(f.counts, name)
    ensures ChosenFairly(f, configs, a, g) && a.cluster == name
  {
    a := OnlyOneOpen(f, configs, roles);
  }

  lemma PickAmongMany(f: Counters, configs: seq<ProvisionerConfig>, roles: seq<string>, cands: seq<Candidate>,
                      name: string, g: Counters) returns (a: ProvisionerConfig)
    requires IsFairFleet(configs, roles) && cands == Eligible(configs, f.counts, roles) && |cands| > 1
    requires Picks(cands, f.lastUsed, name, g.lastUsed) && g.counts == OneMore(f.counts, name)
    ensures ChosenFairly(f, configs, a, g) && a.cluster == name
  {
    if InBatch(cands, f.lastUsed) {
      var c :| c in cands && c.clusterName == f.lastUsed && c.spaceCount % BATCH != 0;
      a := OpenBehind(f, configs, roles, c);
    } else {
      var c :| MayComeFirst(c, cands) && c.clusterName == name;
      a := OpenBehind(f, configs, roles, c);
      FirstIsLeastUsed(f, configs, roles, c, a);
    }
  }

  lemma OnlyOneOpen(f: Counters, configs: seq<ProvisionerConfig>, roles: seq<string>) returns (a: ProvisionerConfig)
    requires IsFairFleet(configs, roles) && |Eligible(configs, f.counts, roles)| == 1
    ensures a in configs && Open(f.counts, a) && Eligible(configs, f.counts, roles)[0] == CandidateOf(a, f.counts)
    ensures forall b | b in configs && Open(f.counts, b) :: b == a
  {
    EligibleAreOpen(f, configs, roles);
    a := OpenBehind(f, configs, roles, Eligible(configs, f.counts, roles)[0]);
    forall b | b in configs && Open(f.counts, b) ensures b == a {
      assert CandidateOf(b, f.counts) in Eligible(configs, f.counts, roles);
      SameCluster(configs, roles, a, b);
    }
  }

  lemma OpenBehind(f: Counters, configs: seq<ProvisionerConfig>, roles: seq<string>, c: Candidate)
      returns (a: ProvisionerConfig)
    requires IsFairFleet(configs, roles) && c in Eligible(configs, f.counts, roles)
    ensures a in configs && Open(f.counts, a) && c == CandidateOf(a, f.counts)
  {
    EligibleAreOpen(f, configs, roles);
    a :| a in configs && Open(f.counts, a) && c == CandidateOf(a, f.counts);
  }

  lemma FirstIsLeastUsed(f: Counters, configs: seq<ProvisionerConfig>, roles: seq<string>, c: Candidate,
                         a: ProvisionerConfig)
    requires IsFairFleet(configs, roles) && a in configs && c == CandidateOf(a, f.counts)
    requires MayComeFirst(c, Eligible(configs, f.counts, roles))
             && !InBatch(Eligible(configs, f.counts, roles), f.lastUsed)
    ensures LeastUsed(f, configs, a)
  {
    EligibleAreOpen(f, configs, roles);
    forall b | b in configs && Open(f.counts, b)
      ensures b.cluster == f.lastUsed ==> Lookup(f.counts, b.cluster) % BATCH == 0
      ensures Rounded(Lookup(f.counts, a.cluster)) * b.maxSpaces <= Rounded(Lookup(f.counts, b.cluster)) * a.maxSpaces
    {
      var d := CandidateOf(b, f.counts);
      assert d in Eligible(configs, f.counts, roles) && !Less(d, c);
    }
  }

  lemma EligibleAreOpen(f: Counters, configs: seq<ProvisionerConfig>, roles: seq<string>)
    requires IsFairFleet(configs, roles)
    ensures forall b | b in configs && Open(f.counts, b) ::
            CandidateOf(b, f.counts) in Eligible(configs, f.counts, roles)
    ensures forall c | c in Eligible(configs, f.counts, roles) ::
              HasRatio(c) && exists b :: b in configs && Open(f.counts, b) && c == CandidateOf(b, f.counts)
  {
    forall b | b in configs && Open(f.counts, b)
        ensures CandidateOf(b, f.counts) in Eligible(configs, f.counts, roles) {
      EligibleAmong(configs, f.counts, roles, CandidateOf(b, f.counts));
    }
    forall c | c in Eligible(configs, f.counts, roles)
      ensures HasRatio(c) && exists b :: b in configs && Open(f.counts, b) && c == CandidateOf(b, f.counts)
    {
      EligibleAmong(configs, f.counts, roles, c);
      var b :| b in configs && c == CandidateOf(b, f.counts) && IsEligible(c, roles);
      assert Open(f.counts, b);
    }
  }

  lemma SameCluster(configs: seq<ProvisionerConfig>, roles: seq<string>, a: ProvisionerConfig, b: ProvisionerConfig)
    requires IsFairFleet(configs, roles) && a in configs && b in configs && a.cluster == b.cluster
    ensures a == b
  {
  }

  /** A placement keeps every share fair. */
  lemma StepKeepsShares(f: Counters, configs: seq<ProvisionerConfig>, roles: seq<string>, a: ProvisionerConfig,
                        g: Counters)
    requires IsFairFleet(configs, roles) && ChosenFairly(f, configs, a, g) && SharesAreFair(f.counts, configs)
    ensures SharesAreFair(g.counts, configs)
  {
    forall x, b | x in configs && b in configs
      ensures BatchStart(Lookup(g.counts, x.cluster)) * b.maxSpaces <= Lookup(g.counts, b.cluster) * x.maxSpaces
    {
      ShareStaysFair(f, configs, roles, a, g, x, b);
    }
  }

  lemma ShareStaysFair(f: Counters, configs: seq<ProvisionerConfig>, roles: seq<string>, a: ProvisionerConfig,
                       g: Counters,
                       x: ProvisionerConfig, b: ProvisionerConfig)
    requires IsFairFleet(configs, roles) && SharesAreFair(f.counts, configs) && ChosenFairly(f, configs, a, g)
    requires x in configs && b in configs
    ensures BatchStart(Lookup(g.counts, x.cluster)) * b.maxSpaces <= Lookup(g.counts, b.cluster) * x.maxSpaces
  {
    MulMono(Lookup(f.counts, b.cluster), Lookup(g.counts, b.cluster), x.maxSpaces);
    if x.cluster == a.cluster {
      SameCluster(configs, roles, x, a);
      GrowthIsFair(f, configs, a, g, b);
    }
  }

  /** A cluster that is full is no less used than any other. */
  lemma FullIsFair(counts: map<string, nat>, a: ProvisionerConfig, b: ProvisionerConfig)
    requires Open(counts, a) && !Open(counts, b)
    ensures Rounded(Lookup(counts, a.cluster)) * b.maxSpaces <= Lookup(counts, b.cluster) * a.maxSpaces
  {
    MulMono(Rounded(Lookup(counts, a.cluster)), a.maxSpaces, b.maxSpaces);
    MulMono(b.maxSpaces, Lookup(counts, b.cluster), a.maxSpaces);
  }

  lemma BatchStartInside(n: nat)
    requires n % BATCH != 0
    ensures Rounded(n) == BatchStart(n)
  {
  }

  /** The cluster that grows starts its batch no further ahead than any other cluster's share. */
  lemma GrowthIsFair(f: Counters, configs: seq<ProvisionerConfig>, a: ProvisionerConfig, g: Counters,
                     b: ProvisionerConfig)
    requires SharesAreFair(f.counts, configs) && ChosenFairly(f, configs, a, g) && b in configs
    ensures Rounded(Lookup(f.counts, a.cluster)) * b.maxSpaces <= Lookup(f.counts, b.cluster) * a.maxSpaces
  {
    var (n, m) := (Lookup(f.counts, a.cluster), Lookup(f.counts, b.cluster));
    if !Open(f.counts, b) {
      FullIsFair(f.counts, a, b);
    } else if b == a {
      MulMono(Rounded(n), n, a.maxSpaces);
    } else if n % BATCH != 0 && f.lastUsed == a.cluster {
      BatchStartInside(n);
      assert BatchStart(n) * b.maxSpaces <= m * a.maxSpaces;
    } else {
      assert Rounded(n) * b.maxSpaces <= Rounded(m) * a.maxSpaces;
      MulMono(Rounded(m), m, a.maxSpaces);
    }
  }

  /** Every open cluster other than the chosen one is between two batches. */
  lemma OthersAreBetweenBatches(f: Counters, configs: seq<ProvisionerConfig>, roles: seq<string>, a: ProvisionerConfig,
                                g: Counters, x: ProvisionerConfig)
    requires IsFairFleet(configs, roles) && OneOpenBatch(f, configs) && ChosenFairly(f, configs, a, g)
    requires x in configs && Open(f.counts, x)
    ensures x == a || Lookup(f.counts, x.cluster) % BATCH == 0
  {
    if x.cluster == a.cluster {
      SameCluster(configs, roles, x, a);
    }
  }

  lemma ChoiceKeepsOneOpenBatch(f: Counters, configs: seq<ProvisionerConfig>, roles: seq<string>, a: ProvisionerConfig,
                                g: Counters, x: ProvisionerConfig, y: ProvisionerConfig)
    requires IsFairFleet(configs, roles) && OneOpenBatch(f, configs) && ChosenFairly(f, configs, a, g)
    requires x in configs && y in configs && Open(g.counts, x) && Open(g.counts, y) && x != y
    requires Lookup(g.counts, x.cluster) % BATCH != 0
    ensures g.lastUsed == x.cluster
  {
    OthersAreBetweenBatches(f, configs, roles, a, g, x);
    assert Open(f.counts, x) && Open(f.counts, y);
    if x.cluster == a.cluster {
      SameCluster(configs, roles, x, a);
    }
    assert x == a;
  }

  /** A placement never leaves two open clusters in the middle of a batch. */
  lemma StepKeepsOneOpenBatch(f: Counters, configs: seq<ProvisionerConfig>, roles: seq<string>, a: ProvisionerConfig,
                              g: Counters)
    requires IsFairFleet(configs, roles) && ChosenFairly(f, configs, a, g) && OneOpenBatch(f, configs)
    ensures OneOpenBatch(g, configs)
  {
    forall x, y | x in configs && y in configs && Open(g.counts, x) && Open(g.counts, y) && x != y
      && Lookup(g.counts, x.cluster) % BATCH != 0
      ensures g.lastUsed == x.cluster
    {
      ChoiceKeepsOneOpenBatch(f, configs, roles, a, g, x, y);
    }
  }

  /** Nor does a pick alone, whose Space may never be counted. */
  lemma PickKeepsOneOpenBatch(f: Counters, configs: seq<ProvisionerConfig>, a: ProvisionerConfig, g: Counters)
    requires ChosenFairly(f, configs, a, g) && OneOpenBatch(f, configs)
    ensures OneOpenBatch(f.(lastUsed := g.lastUsed), configs)
  {
  }

  // ---------- Runs ----------

  /** The Spaces assigned to the configured clusters and not counted yet. */
  function UncountedIn(f: Fleet, configs: seq<ProvisionerConfig>): nat
    decreases |configs|
  {
    if configs == [] then 0
    else UncountedIn(f, configs[..|configs| - 1]) + Lookup(f.uncounted, configs[|configs| - 1].cluster)
  }

  /** A pick with no preferred cluster while fewer than `most` Spaces are uncounted, or the end of an assignment. */
  ghost predicate FairStep(f: Fleet, configs: seq<ProvisionerConfig>, roles: seq<string>, most: nat, g: Fleet) {
    || (UncountedIn(f, configs) < most && exists cands, name :: Assigns(f, configs, "", roles, cands, name, g))
    || (exists c :: Counts(f, c, g))
    || (exists c :: Drops(f, c, g))
  }

  /** Start from nothing. */
  ghost predicate FairRun(trace: seq<Fleet>, configs: seq<ProvisionerConfig>, roles: seq<string>, most: nat) {
    && |trace| > 0
    && (forall g | g in configs :: Lookup(trace[0].counts, g.cluster) == 0 == Lookup(trace[0].uncounted, g.cluster))
    && (forall k | 0 < k < |trace| :: FairStep(trace[k - 1], configs, roles, most, trace[k]))
  }

  function CountersOf(f: Fleet): Counters {
    Counters(f.counts, f.lastUsed)
  }

  ghost predicate IsFair(c: Counters, configs: seq<ProvisionerConfig>) {
    SharesAreFair(c.counts, configs) && OneOpenBatch(c, configs)
  }

  ghost predicate IsQuiet(f: Fleet, configs: seq<ProvisionerConfig>) {
    forall g | g in configs :: Lookup(f.uncounted, g.cluster) == 0
  }

  /** Exactly one Space is on its way, to this cluster, and counting it would be fair. */
  ghost predicate Awaits(f: Fleet, configs: seq<ProvisionerConfig>, a: ProvisionerConfig) {
    && a in configs && IsFair(Counters(OneMore(f.counts, a.cluster), f.lastUsed), configs)
    && forall g | g in configs :: Lookup(f.uncounted, g.cluster) == if g.cluster == a.cluster then 1 else 0
  }

  ghost predicate Inv(f: Fleet, configs: seq<ProvisionerConfig>) {
    IsFair(CountersOf(f), configs) && (IsQuiet(f, configs) || exists a :: Awaits(f, configs, a))
  }

  lemma {:induction false} UncountedEach(f: Fleet, configs: seq<ProvisionerConfig>, g: ProvisionerConfig)
    requires g in configs
    ensures Lookup(f.uncounted, g.cluster) <= UncountedIn(f, configs)
    decreases |configs|
  {
    var n := |configs| - 1;
    if g != configs[n] {
      assert configs == configs[..n] + [configs[n]];
      UncountedEach(f, configs[..n], g);
    }
  }

  lemma AssigningKeepsInv(f: Fleet, configs: seq<ProvisionerConfig>, roles: seq<string>, cands: seq<Candidate>,
                          name: string, g: Fleet)
    requires IsFairFleet(configs, roles) && Inv(f, configs) && UncountedIn(f, configs) == 0
    requires Assigns(f, configs, "", roles, cands, name, g)
    ensures Inv(g, configs)
  {
    forall x | x in configs ensures Lookup(f.uncounted, x.cluster) == 0 {
      UncountedEach(f, configs, x);
    }
    var (before, after) := (CountersOf(f), Counters(OneMore(f.counts, name), g.lastUsed));
    var a := FairPick(before, configs, roles, cands, name, after);
    StepKeepsShares(before, configs, roles, a, after);
    StepKeepsOneOpenBatch(before, configs, roles, a, after);
    PickKeepsOneOpenBatch(before, configs, a, after);
    assert Awaits(g, configs, a);
  }

  lemma EndingKeepsInv(f: Fleet, configs: seq<ProvisionerConfig>, c: string, g: Fleet)
    requires Inv(f, configs) && (Counts(f, c, g) || Drops(f, c, g))
    ensures Inv(g, configs)
  {
    if x :| x in configs && x.cluster == c {
      var a :| Awaits(f, configs, a);
      assert a.cluster == c;
      assert IsQuiet(g, configs);
      assert g.counts == f.counts || g.counts == OneMore(f.counts, a.cluster);
    } else {
      OtherCountsDoNotMatter(f, configs, c, g);
    }
  }

  /** Clusters that are not configured have no part in this. */
  lemma OtherCountsDoNotMatter(f: Fleet, configs: seq<ProvisionerConfig>, c: string, g: Fleet)
    requires Inv(f, configs) && (Counts(f, c, g) || Drops(f, c, g)) && forall x | x in configs :: x.cluster != c
    ensures Inv(g, configs)
  {
    assert forall x | x in configs ::
        Lookup(g.counts, x.cluster) == Lookup(f.counts, x.cluster)
            && Lookup(g.uncounted, x.cluster) == Lookup(f.uncounted, x.cluster);
    SameCountsSameFairness(CountersOf(f), CountersOf(g), configs);
    if !IsQuiet(f, configs) {
      var a :| Awaits(f, configs, a);
      SameCountsSameFairness(Counters(OneMore(f.counts, a.cluster), f.lastUsed),
          Counters(OneMore(g.counts, a.cluster), g.lastUsed), configs);
      assert Awaits(g, configs, a);
    }
  }

  lemma SameCountsSameFairness(c: Counters, d: Counters, configs: seq<ProvisionerConfig>)
    requires IsFair(c, configs) && c.lastUsed == d.lastUsed
    requires forall x | x in configs :: Lookup(d.counts, x.cluster) == Lookup(c.counts, x.cluster)
    ensures IsFair(d, configs)
  {
  }

  lemma {:induction false} FairRunKeeps(trace: seq<Fleet>, configs: seq<ProvisionerConfig>, roles: seq<string>, k: nat)
    requires IsFairFleet(configs, roles) && FairRun(trace, configs, roles, 1) && k < |trace|
    ensures Inv(trace[k], configs)
  {
    if k > 0 {
      FairRunKeeps(trace, configs, roles, k - 1);
      var (f, g) := (trace[k - 1], trace[k]);
      assert FairStep(f, configs, roles, 1, g);
      if c :| Counts(f, c, g) || Drops(f, c, g) {
        EndingKeepsInv(f, configs, c, g);
      } else {
        var cands, name :| Assigns(f, configs, "", roles, cands, name, g);
        AssigningKeepsInv(f, configs, roles, cands, name, g);
      }
    }
  }

  /**
   * Fairness over whole runs in which each assigned Space is counted, or given up, before the next is assigned:
   * relative to its threshold, no cluster is ever more than one batch of 50 ahead of any other, and batches are
   * filled one at a time.
   */
  lemma Fairness(trace: seq<Fleet>, configs: seq<ProvisionerConfig>, roles: seq<string>, k: nat, a: ProvisionerConfig,
                 b: ProvisionerConfig)
    requires IsFairFleet(configs, roles) && FairRun(trace, configs, roles, 1) && k < |trace|
    requires a in configs && b in configs
    ensures var counts := trace[k].counts;
            (Lookup(counts, a.cluster) - 50) * b.maxSpaces <= Lookup(counts, b.cluster) * a.maxSpaces
    ensures var counts := trace[k].counts;
            a != b && Open(counts, a) && Open(counts, b) && Lookup(counts, a.cluster) % 50 != 0 ==>
              trace[k].lastUsed == a.cluster
  {
    FairRunKeeps(trace, configs, roles, k);
    var n := Lookup(trace[k].counts, a.cluster);
    MulMono(n - BATCH, BatchStart(n), b.maxSpaces);
  }

  // ---------- Two at a time ----------

  function Pair(limit: nat): seq<ProvisionerConfig> {
    [ProvisionerConfig("a", limit, true, [TENANT_ROLE]), ProvisionerConfig("b", limit, true, [TENANT_ROLE])]
  }

  /** Only `a` has Spaces, and was used last. */
  function OnlyA(n: nat, u: nat): Fleet {
    Fleet(map["a" := n], map["a" := u], "a")
  }

  const EMPTY := Fleet(map[], map[], "")

  lemma BothEligible(limit: nat, f: Fleet)
    requires Lookup(f.counts, "a") < limit && Lookup(f.counts, "b") < limit
    ensures Eligible(Pair(limit), f.counts, [])
            == [CandidateOf(Pair(limit)[0], f.counts), CandidateOf(Pair(limit)[1], f.counts)]
  {
    var configs := Pair(limit);
    assert configs[..1] == [configs[0]] && configs[..1][..0] == [] && configs[..2] == configs;
    assert Eligible([], f.counts, []) == [];
    assert Eligible(configs[..1], f.counts, []) == [CandidateOf(configs[0], f.counts)];
  }

  lemma UncountedInPair(limit: nat, f: Fleet)
    ensures UncountedIn(f, Pair(limit)) == Lookup(f.uncounted, "a") + Lookup(f.uncounted, "b")
  {
    var configs := Pair(limit);
    assert configs[..1] == [configs[0]] && configs[..1][..0] == [];
    assert UncountedIn(f, []) == 0;
    assert UncountedIn(f, configs[..1]) == Lookup(f.uncounted, "a");
  }

  /** In the middle of a batch `a` is picked again. */
  lemma PicksAgain(limit: nat, n: nat, u: nat)
    requires n < limit && n % BATCH != 0 && u < 2
    ensures FairStep(OnlyA(n, u), Pair(limit), [], 2, OnlyA(n, u + 1))
  {
    var (f, g) := (OnlyA(n, u), OnlyA(n, u + 1));
    BothEligible(limit, f);
    UncountedInPair(limit, f);
    var cands := Eligible(Pair(limit), f.counts, []);
    assert cands[0] in cands && cands[0].clusterName == "a" && cands[0].spaceCount == n;
    assert OneMore(f.uncounted, "a") == g.uncounted;
    assert Assigns(f, Pair(limit), "", [], cands, "a", g);
  }

  lemma IsCounted(limit: nat, n: nat, u: nat)
    requires u > 0
    ensures FairStep(OnlyA(n, u), Pair(limit), [], 2, OnlyA(n + 1, u - 1))
  {
    assert OneMore(map["a" := n], "a") == map["a" := n + 1] && map["a" := u]["a" := u - 1] == map["a" := u - 1];
    assert Counts(OnlyA(n, u), "a", OnlyA(n + 1, u - 1));
  }

  lemma Extend(trace: seq<Fleet>, limit: nat, g: Fleet) returns (longer: seq<Fleet>)
    requires FairRun(trace, Pair(limit), [], 2) && FairStep(trace[|trace| - 1], Pair(limit), [], 2, g)
    ensures FairRun(longer, Pair(limit), [], 2) && longer[|longer| - 1] == g
  {
    longer := trace + [g];
    forall k | 0 < k < |longer| ensures FairStep(longer[k - 1], Pair(limit), [], 2, longer[k]) {
      if k < |trace| {
        assert longer[k - 1] == trace[k - 1] && longer[k] == trace[k];
      }
    }
  }

  /** One Space after the other, up to the last but one of the batch. */
  lemma {:induction false} FillBatch(trace: seq<Fleet>, limit: nat, n: nat, m: nat) returns (longer: seq<Fleet>)
    requires FairRun(trace, Pair(limit), [], 2) && trace[|trace| - 1] == OnlyA(n, 0)
    requires n <= m < limit && n % BATCH + (m - n) < BATCH && n % BATCH != 0
    ensures FairRun(longer, Pair(limit), [], 2) && longer[|longer| - 1] == OnlyA(m, 0)
    decreases m - n
  {
    if n == m {
      return trace;
    }
    longer := OneSpace(trace, limit, n);
    longer := FillBatch(longer, limit, n + 1, m);
  }

  lemma OneSpace(trace: seq<Fleet>, limit: nat, n: nat) returns (longer: seq<Fleet>)
    requires FairRun(trace, Pair(limit), [], 2) && trace[|trace| - 1] == OnlyA(n, 0) && n < limit && n % BATCH != 0
    ensures FairRun(longer, Pair(limit), [], 2) && longer[|longer| - 1] == OnlyA(n + 1, 0)
  {
    PicksAgain(limit, n, 0);
    longer := Extend(trace, limit, OnlyA(n, 1));
    IsCounted(limit, n, 1);
    longer := Extend(longer, limit, OnlyA(n + 1, 0));
  }

  /**
   * At the last Space of a batch two picks are made before either is counted, and the end of the batch is never
   * seen.
   */
  lemma SkipEnd(trace: seq<Fleet>, limit: nat, n: nat) returns (longer: seq<Fleet>)
    requires FairRun(trace, Pair(limit), [], 2) && trace[|trace| - 1] == OnlyA(n, 0) && n < limit && n % BATCH == 49
    ensures FairRun(longer, Pair(limit), [], 2) && longer[|longer| - 1] == OnlyA(n + 2, 0)
  {
    longer := TwoPicks(trace, limit, n);
    IsCounted(limit, n, 2);
    longer := Extend(longer, limit, OnlyA(n + 1, 1));
    IsCounted(limit, n + 1, 1);
    longer := Extend(longer, limit, OnlyA(n + 2, 0));
  }

  lemma TwoPicks(trace: seq<Fleet>, limit: nat, n: nat) returns (longer: seq<Fleet>)
    requires FairRun(trace, Pair(limit), [], 2) && trace[|trace| - 1] == OnlyA(n, 0) && n < limit && n % BATCH != 0
    ensures FairRun(longer, Pair(limit), [], 2) && longer[|longer| - 1] == OnlyA(n, 2)
  {
    PicksAgain(limit, n, 0);
    longer := Extend(trace, limit, OnlyA(n, 1));
    PicksAgain(limit, n, 1);
    longer := Extend(longer, limit, OnlyA(n, 2));
  }

  lemma FirstOnA(limit: nat) returns (trace: seq<Fleet>)
    requires limit > 0
    ensures FairRun(trace, Pair(limit), [], 2) && trace[|trace| - 1] == OnlyA(1, 0)
  {
    var g := Fleet(map[], map["a" := 1], "a");
    BothEligible(limit, EMPTY);
    UncountedInPair(limit, EMPTY);
    var cands := Eligible(Pair(limit), EMPTY.counts, []);
    assert MayComeFirst(cands[0], cands);
    assert OneMore(EMPTY.uncounted, "a") == g.uncounted;
    assert Assigns(EMPTY, Pair(limit), "", [], cands, "a", g);
    trace := Extend([EMPTY], limit, g);
    assert map["a" := 1]["a" := 0] == map["a" := 0] && OneMore(map[], "a") == map["a" := 1];
    assert Counts(g, "a", OnlyA(1, 0));
    trace := Extend(trace, limit, OnlyA(1, 0));
  }

  /** Two clusters alike, never more than two Spaces uncounted: all Spaces go to the first, batch after batch. */
  lemma {:induction false} TwoAtATimeIsUnfair(limit: nat, batches: nat) returns (trace: seq<Fleet>)
    requires batches * 50 + 1 < limit
    ensures IsFairFleet(Pair(limit), []) && FairRun(trace, Pair(limit), [], 2)
    ensures trace[|trace| - 1] == OnlyA(batches * 50 + 1, 0) && Lookup(trace[|trace| - 1].counts, "b") == 0
  {
    if batches == 0 {
      trace := FirstOnA(limit);
      return;
    }
    trace := TwoAtATimeIsUnfair(limit, batches - 1);
    var n := (batches - 1) * 50 + 1;
    trace := FillBatch(trace, limit, n, n + 48);
    trace := SkipEnd(trace, limit, n + 48);
  }
}
