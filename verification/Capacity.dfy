/** The cluster scheduler: which member cluster a new Space is provisioned to. */
module Capacity {
  import opened Base

  /** A SpaceProvisionerConfig; a threshold of 0 means "no limit". */
  datatype ProvisionerConfig =
    ProvisionerConfig(cluster: string, maxSpaces: nat, ready: bool, roles: seq<string>)

  datatype Candidate =
    Candidate(clusterName: string, spaceCount: nat, threshold: nat, isReady: bool, roles: seq<string>)

  const BATCH: nat := 50

  const TENANT_ROLE := "cluster-role.toolchain.dev.openshift.com/tenant"

  // ---------- Candidates and predicates ----------

  function CandidateOf(config: ProvisionerConfig, counts: map<string, nat>): Candidate {
    Candidate(config.cluster, Lookup(counts, config.cluster), config.maxSpaces, config.ready, config.roles)
  }

  predicate HasRoom(c: Candidate) {
    c.threshold == 0 || c.spaceCount < c.threshold
  }

  /** With no role asked for, the tenant role is required. */
  function RequiredRoles(roles: seq<string>): seq<string> {
    if |roles| == 0 then [TENANT_ROLE] else roles
  }

  predicate OffersAll(offered: seq<string>, required: seq<string>) {
    forall r | r in required :: r in offered
  }

  predicate IsEligible(c: Candidate, roles: seq<string>) {
    c.isReady && HasRoom(c) && OffersAll(c.roles, RequiredRoles(roles))
  }

  function Eligible(configs: seq<ProvisionerConfig>, counts: map<string, nat>, roles: seq<string>): seq<Candidate> {
    if |configs| == 0 then []
    else
      var init := Eligible(configs[..|configs| - 1], counts, roles);
      var c := CandidateOf(configs[|configs| - 1], counts);
      if IsEligible(c, roles) then init + [c] else init
  }

  /**
   * What a config must be like, in its own fields: ready, with no threshold or fewer Spaces than it, and offering each
   * role asked for, or the tenant role if none is.
   */
  predicate Suits(g: ProvisionerConfig, counts: map<string, nat>, roles: seq<string>) {
    && g.ready
    && (g.maxSpaces == 0 || (if g.cluster in counts then counts[g.cluster] else 0) < g.maxSpaces)
    && (forall r | r in roles :: r in g.roles)
    && (roles == [] ==> "cluster-role.toolchain.dev.openshift.com/tenant" in g.roles)
  }

  lemma {:induction false} EligibleAmong(configs: seq<ProvisionerConfig>, counts: map<string, nat>,
                                           roles: seq<string>, c: Candidate)
    ensures c in Eligible(configs, counts, roles) <==>
              exists g :: g in configs && c == CandidateOf(g, counts) && IsEligible(c, roles)
  {
    if |configs| > 0 {
      var n := |configs| - 1;
      EligibleAmong(configs[..n], counts, roles, c);
      assert configs == configs[..n] + [configs[n]];
    }
  }

  lemma SuitsIsEligible(g: ProvisionerConfig, counts: map<string, nat>, roles: seq<string>)
    ensures IsEligible(CandidateOf(g, counts), roles) <==> Suits(g, counts, roles)
  {
    if roles == [] {
      assert RequiredRoles(roles)[0] == TENANT_ROLE;
    }
  }

  /** The candidates are exactly those of the configs that suit, with the counts as they are. */
  lemma EligibleExactly(configs: seq<ProvisionerConfig>, counts: map<string, nat>, roles: seq<string>, c: Candidate)
    ensures c in Eligible(configs, counts, roles) <==>
              exists g :: g in configs && Suits(g, counts, roles) && c.clusterName == g.cluster
                && c.spaceCount == (if g.cluster in counts then counts[g.cluster] else 0)
                && c.threshold == g.maxSpaces && c.isReady == g.ready && c.roles == g.roles
  {
    EligibleAmong(configs, counts, roles, c);
    forall g | g in configs ensures IsEligible(CandidateOf(g, counts), roles) <==> Suits(g, counts, roles) {
      SuitsIsEligible(g, counts, roles);
    }
  }

  /** The preferred cluster alone if it is eligible, all eligible clusters otherwise. */
  ghost predicate IsShortlist(cands: seq<Candidate>, configs: seq<ProvisionerConfig>, counts: map<string, nat>,
                              preferred: string, roles: seq<string>)
  {
    var eligible := Eligible(configs, counts, roles);
    if preferred != "" && exists c :: c in eligible && c.clusterName == preferred
    then |cands| == 1 && cands[0] in eligible && cands[0].clusterName == preferred
    else cands == eligible
  }

  method OffersRequired(offered: seq<string>, roles: seq<string>) returns (ok: bool)
    ensures ok == OffersAll(offered, RequiredRoles(roles))
  {
    var required := RequiredRoles(roles);
    label placementCheck:
    for i := 0 to |required|
      invariant forall k | 0 <= k < i :: required[k] in offered
    {
      for j := 0 to |offered|
        invariant required[i] !in offered[..j]
      {
        if offered[j] == required[i] {
          continue placementCheck;
        }
      }
      assert offered[..|offered|] == offered;
      assert required[i] in required;
      return false;
    }
    return true;
  }

  method GetOptimalTargetClusters(configs: seq<ProvisionerConfig>, counts: map<string, nat>, preferred: string,
                                  roles: seq<string>)
    returns (matching: seq<Candidate>)
    ensures IsShortlist(matching, configs, counts, preferred, roles)
  {
    matching := [];
    for i := 0 to |configs|
      invariant matching == Eligible(configs[..i], counts, roles)
    {
      assert configs[..i + 1][..i] == configs[..i];
      var candidate := CandidateOf(configs[i], counts);
      if candidate.isReady && HasRoom(candidate) {
        var offers := OffersRequired(candidate.roles, roles);
        if offers {
          matching := matching + [candidate];
        }
      }
    }
    assert configs[..|configs|] == configs;
    if preferred != "" {
      for i := 0 to |matching|
        invariant forall k | 0 <= k < i :: matching[k].clusterName != preferred
      {
        if matching[i].clusterName == preferred {
          return [matching[i]];
        }
      }
    }
  }

  // ---------- The usage order ----------

  /** The count rounded down to a multiple of 50. */
  function Rounded(n: nat): nat {
    n / BATCH * BATCH
  }

  /**
   * `float64(rounded a)/float64(threshold a) < float64(rounded b)/float64(threshold b)`.
   * A zero threshold divides by zero: the ratio is +Inf for a positive count and NaN for zero,
   * nothing is below NaN, and everything finite is below +Inf.
   */
  predicate Less(a: Candidate, b: Candidate) {
    if a.threshold == 0 then false
    else if b.threshold == 0 then Rounded(b.spaceCount) > 0
    else Rounded(a.spaceCount) * b.threshold < Rounded(b.spaceCount) * a.threshold
  }

  /** The ratio is a number or +Inf, not NaN. */
  predicate HasRatio(c: Candidate) {
    c.threshold > 0 || Rounded(c.spaceCount) > 0
  }

  predicate AllHaveRatio(cands: seq<Candidate>) {
    forall c | c in cands :: HasRatio(c)
  }

  /** Among candidates that have a ratio, "not above" is transitive, so sorting is meaningful. */
  lemma NotAboveTransitive(a: Candidate, b: Candidate, c: Candidate)
    requires HasRatio(b)
    requires !Less(b, a) && !Less(c, b)
    ensures !Less(c, a)
  {
    if c.threshold > 0 && a.threshold > 0 && b.threshold > 0 {
      var (ra, rb, rc) := (Rounded(a.spaceCount), Rounded(b.spaceCount), Rounded(c.spaceCount));
      MulMono(ra * b.threshold, rb * a.threshold, c.threshold);
      MulMono(rb * c.threshold, rc * b.threshold, a.threshold);
      assert (ra * c.threshold) * b.threshold == (ra * b.threshold) * c.threshold;
      assert (rb * a.threshold) * c.threshold == (rb * c.threshold) * a.threshold;
      assert (rc * a.threshold) * b.threshold == (rc * b.threshold) * a.threshold;
      MulCancel(ra * c.threshold, rc * a.threshold, b.threshold);
    }
  }

  /** Having a ratio is exactly what a candidate needs to stand between any two others. */
  lemma RatioMakesTransitive(b: Candidate)
    ensures HasRatio(b) <==> forall a, c :: !Less(b, a) && !Less(c, b) ==> !Less(c, a)
  {
    if HasRatio(b) {
      forall a, c | !Less(b, a) && !Less(c, b) ensures !Less(c, a) {
        NotAboveTransitive(a, b, c);
      }
    } else {
      var (a, c) := (Candidate("", 50, 100, true, []), Candidate("", 0, 100, true, []));
      assert !Less(b, a) && !Less(c, b) && Less(c, a);
    }
  }

  ghost predicate SortedByUsage(cands: seq<Candidate>) {
    forall i, j | 0 <= i < j < |cands| :: !Less(cands[j], cands[i])
  }

  /** What Go's unstable sort may leave: some permutation, sorted when every ratio is a number. */
  ghost predicate IsSortOf(sorted: seq<Candidate>, cands: seq<Candidate>) {
    multiset(sorted) == multiset(cands) && (AllHaveRatio(cands) ==> SortedByUsage(sorted))
  }

  method InsertByUsage(cands: seq<Candidate>, c: Candidate) returns (r: seq<Candidate>)
    ensures multiset(r) == multiset(cands) + multiset{c}
    ensures AllHaveRatio(cands) && HasRatio(c) && SortedByUsage(cands) ==> SortedByUsage(r)
  {
    var i := |cands|;
    while i > 0 && Less(c, cands[i - 1])
      invariant 0 <= i <= |cands|
      invariant forall k | i <= k < |cands| :: Less(c, cands[k])
    {
      i := i - 1;
    }
    r := cands[..i] + [c] + cands[i..];
    assert cands == cands[..i] + cands[i..];
    if AllHaveRatio(cands) && HasRatio(c) && SortedByUsage(cands) {
      InsertedIsSorted(cands, i, c);
    }
  }

  lemma InsertedIsSorted(cands: seq<Candidate>, i: nat, c: Candidate)
    requires AllHaveRatio(cands) && SortedByUsage(cands) && i <= |cands|
    requires i > 0 ==> !Less(c, cands[i - 1])
    requires forall k | i <= k < |cands| :: Less(c, cands[k])
    ensures SortedByUsage(cands[..i] + [c] + cands[i..])
  {
    var r := cands[..i] + [c] + cands[i..];
    forall j, k | 0 <= j < k < |r| ensures !Less(r[k], r[j]) {
      if k == i {
        NotAboveTransitive(r[j], cands[i - 1], c);
      } else if j == i {
        LessAsymmetric(c, cands[k - 1]);
      } else {
        var (before, after) := (if j < i then j else j - 1, if k < i then k else k - 1);
        assert r[j] == cands[before] && r[k] == cands[after];
      }
    }
  }

  lemma LessAsymmetric(a: Candidate, b: Candidate)
    requires Less(a, b)
    ensures !Less(b, a)
  {
  }

  method SortByUsage(cands: seq<Candidate>) returns (sorted: seq<Candidate>)
    ensures IsSortOf(sorted, cands)
  {
    sorted := [];
    for i := 0 to |cands|
      invariant multiset(sorted) == multiset(cands[..i])
      invariant AllHaveRatio(cands) ==> SortedByUsage(sorted)
    {
      assert cands[..i + 1] == cands[..i] + [cands[i]];
      forall c | c in sorted ensures c in cands {
        assert c in multiset(sorted);
      }
      sorted := InsertByUsage(sorted, cands[i]);
    }
    assert cands[..|cands|] == cands;
  }

  // ---------- The manager ----------

  /** The last used cluster is in the middle of a batch of 50. */
  ghost predicate InBatch(cands: seq<Candidate>, lastUsed: string) {
    exists c :: c in cands && c.clusterName == lastUsed && c.spaceCount % BATCH != 0
  }

  /** Some outcome of the sort puts `c` first. */
  ghost predicate MayComeFirst(c: Candidate, cands: seq<Candidate>) {
    c in cands && (AllHaveRatio(cands) ==> forall d | d in cands :: !Less(d, c))
  }

  /** The cluster name and the `lastUsed` field a call may leave, for a given shortlist. */
  ghost predicate Picks(cands: seq<Candidate>, lastUsed: string, name: string, lastUsed': string) {
    if |cands| == 0 then name == "" && lastUsed' == lastUsed
    else if |cands| == 1 then name == cands[0].clusterName && lastUsed' == lastUsed
    else if InBatch(cands, lastUsed) then name == lastUsed && lastUsed' == lastUsed
    else lastUsed' == name && exists c :: MayComeFirst(c, cands) && c.clusterName == name
  }

  /**
   * What a call may answer: nothing exactly when nothing suits, otherwise a cluster that does, and the preferred one if
   * it does. An empty cluster name cannot be told from nothing.
   */
  ghost predicate IsAnswer(configs: seq<ProvisionerConfig>, counts: map<string, nat>, preferred: string,
                           roles: seq<string>, name: string) {
    && (name != "" ==> exists g :: g in configs && g.cluster == name && Suits(g, counts, roles))
    && (name == "" ==>
          || (forall g | g in configs :: !Suits(g, counts, roles))
          || (exists g :: g in configs && g.cluster == "" && Suits(g, counts, roles)))
    && (forall g | g in configs && g.cluster == preferred != "" && Suits(g, counts, roles) :: name == preferred)
  }

  lemma ShortlistSuits(configs: seq<ProvisionerConfig>, counts: map<string, nat>, preferred: string, roles: seq<string>,
                       cands: seq<Candidate>)
    requires IsShortlist(cands, configs, counts, preferred, roles)
    ensures forall c | c in cands :: exists g :: g in configs && g.cluster == c.clusterName && Suits(g, counts, roles)
    ensures cands == [] ==> forall g | g in configs :: !Suits(g, counts, roles)
  {
    forall c | c in cands ensures exists g :: g in configs && g.cluster == c.clusterName && Suits(g, counts, roles) {
      EligibleExactly(configs, counts, roles, c);
    }
    forall g | g in configs && Suits(g, counts, roles) ensures cands != [] {
      EligibleExactly(configs, counts, roles, CandidateOf(g, counts));
    }
  }

  lemma PreferredIsAlone(configs: seq<ProvisionerConfig>, counts: map<string, nat>, preferred: string,
                         roles: seq<string>, cands: seq<Candidate>, g: ProvisionerConfig)
    requires IsShortlist(cands, configs, counts, preferred, roles)
    requires g in configs && g.cluster == preferred != "" && Suits(g, counts, roles)
    ensures |cands| == 1 && cands[0].clusterName == preferred
  {
    EligibleExactly(configs, counts, roles, CandidateOf(g, counts));
    assert CandidateOf(g, counts).clusterName == preferred;
  }

  lemma PickIsSound(configs: seq<ProvisionerConfig>, counts: map<string, nat>, preferred: string, roles: seq<string>,
                    cands: seq<Candidate>, lastUsed: string, name: string, lastUsed': string)
    requires IsShortlist(cands, configs, counts, preferred, roles) && Picks(cands, lastUsed, name, lastUsed')
    ensures IsAnswer(configs, counts, preferred, roles, name)
    ensures cands != [] ==> exists g :: g in configs && g.cluster == name && Suits(g, counts, roles)
    ensures cands == [] ==> name == "" && lastUsed' == lastUsed && forall g | g in configs :: !Suits(g, counts, roles)
  {
    ShortlistSuits(configs, counts, preferred, roles, cands);
    if cands != [] {
      var c :| c in cands && c.clusterName == name;
    }
    forall g | g in configs && g.cluster == preferred != "" && Suits(g, counts, roles) ensures name == preferred {
      PreferredIsAlone(configs, counts, preferred, roles, cands, g);
    }
  }

  class ClusterManager {
    var lastUsed: string

    constructor ()
      ensures lastUsed == ""
    {
      lastUsed := "";
    }

    /** `listing` is the outcome of listing the SpaceProvisionerConfigs. */
    method GetOptimalTargetCluster(listing: Result<seq<ProvisionerConfig>, string>, counts: map<string, nat>,
                                   preferred: string, roles: seq<string>) returns (r: Result<string, string>)
      modifies this
      ensures listing.Err? ==> r == Err(listing.error) && lastUsed == old(lastUsed)
      ensures listing.Ok? ==> r.Ok? && exists cands ::
                && IsShortlist(cands, listing.value, counts, preferred, roles)
                && Picks(cands, old(lastUsed), r.value, lastUsed)
      ensures listing.Ok? ==> IsAnswer(listing.value, counts, preferred, roles, r.value)
    {
      if listing.Err? {
        return Err(listing.error);
      }
      var candidates := GetOptimalTargetClusters(listing.value, counts, preferred, roles);
      var name := ChooseAmong(candidates);
      PickIsSound(listing.value, counts, preferred, roles, candidates, old(lastUsed), name, lastUsed);
      r := Ok(name);
    }

    method ChooseAmong(candidates: seq<Candidate>) returns (name: string)
      modifies this
      ensures Picks(candidates, old(lastUsed), name, lastUsed)
    {
      if |candidates| == 0 {
        return "";
      }
      if |candidates| == 1 {
        return candidates[0].clusterName;
      }
      for i := 0 to |candidates|
        invariant lastUsed == old(lastUsed)
        invariant forall k | 0 <= k < i ::
                    candidates[k].clusterName == lastUsed ==> candidates[k].spaceCount % BATCH == 0
      {
        if candidates[i].clusterName == lastUsed {
          if candidates[i].spaceCount % BATCH != 0 {
            return lastUsed;
          }
        }
      }
      var sorted := SortByUsage(candidates);
      SortKeepsFirst(sorted, candidates);
      lastUsed := sorted[0].clusterName;
      name := lastUsed;
    }
  }

  lemma SortKeepsFirst(sorted: seq<Candidate>, cands: seq<Candidate>)
    requires |cands| > 0 && IsSortOf(sorted, cands)
    ensures |sorted| > 0 && MayComeFirst(sorted[0], cands)
  {
    assert |sorted| == |multiset(sorted)| == |multiset(cands)| == |cands|;
    assert sorted[0] in multiset(sorted);
    if AllHaveRatio(cands) {
      forall d | d in cands ensures !Less(d, sorted[0]) {
        assert d in multiset(sorted);
        var k :| 0 <= k < |sorted| && sorted[k] == d;
        if k == 0 {
          assert !Less(d, d);
        }
      }
    }
  }
}
