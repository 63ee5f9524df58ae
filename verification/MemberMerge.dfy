/** How the host's list of member clusters follows the ones that answer. */
module MemberMerge {
  import opened Base

  datatype Health = Reported(details: string) | Missing

  datatype Member = Member(cluster: string, endpoint: string, health: Health)

  /** A cached ToolchainCluster. */
  datatype Cluster = Cluster(name: string, endpoint: string)

  /** The endpoint of the first cached cluster of that name; empty if there is none. */
  function EndpointOf(cached: seq<Cluster>, name: string): string
    decreases |cached|
  {
    if cached == [] then "" else if cached[0].name == name then cached[0].endpoint else EndpointOf(cached[1..], name)
  }

  function Endpoint(m: Member, cached: seq<Cluster>): string {
    var e := EndpointOf(cached, m.cluster);
    if e != "" then e else m.endpoint
  }

  function Names(members: seq<Member>): (r: seq<string>)
    ensures |r| == |members| && forall i | 0 <= i < |r| :: r[i] == members[i].cluster
    ensures forall c :: c in r <==> exists i :: 0 <= i < |members| && members[i].cluster == c
  {
    seq(|members|, i requires 0 <= i < |members| => members[i].cluster)
  }

  predicate Stays(c: string, live: map<string, string>, counts: map<string, nat>) {
    c in live || Lookup(counts, c) > 0
  }

  /** The names that stay, in their order. */
  function Survivors(names: seq<string>, live: map<string, string>, counts: map<string, nat>): seq<string>
    decreases |names|
  {
    if names == [] then []
    else
      var rest := Survivors(names[..|names| - 1], live, counts);
      if Stays(names[|names| - 1], live, counts) then rest + [names[|names| - 1]] else rest
  }

  /** What the merged entry of a cluster must say. */
  ghost predicate Says(m: Member, live: map<string, string>, cached: seq<Cluster>) {
    && (m.cluster in live ==> m.health == Reported(live[m.cluster]))
    && (m.cluster !in live ==> m.health == Missing)
    && (EndpointOf(cached, m.cluster) != "" ==> m.endpoint == EndpointOf(cached, m.cluster))
  }

  lemma {:induction false} SurvivorsExactly(names: seq<string>, live: map<string, string>, counts: map<string, nat>)
    ensures forall c :: c in Survivors(names, live, counts) <==> c in names && Stays(c, live, counts)
    ensures Distinct(names) ==> Distinct(Survivors(names, live, counts))
    decreases |names|
  {
    if names != [] {
      SurvivorsExactly(names[..|names| - 1], live, counts);
      assert names == names[..|names| - 1] + [names[|names| - 1]];
    }
  }

  // ---------- The merge ----------

  /** The previous members that stay, updated, and the live clusters not covered by any of the previous ones. */
  function Kept(members: seq<Member>, live: map<string, string>, counts: map<string, nat>,
                cached: seq<Cluster>): (seq<Member>, map<string, string>)
    decreases |members|
  {
    if members == [] then ([], live)
    else
      var (kept, rest) := Kept(members[..|members| - 1], live, counts, cached);
      var last := members[|members| - 1];
      var m := last.(endpoint := Endpoint(last, cached));
      if m.cluster in rest then (kept + [m.(health := Reported(rest[m.cluster]))], rest - {m.cluster})
      else if Lookup(counts, m.cluster) > 0 then (kept + [m.(health := Missing)], rest)
      else (kept, rest)
  }

  /** The entries of the clusters in `rest`, each once, in any order. */
  ghost predicate Listing(added: seq<Member>, rest: map<string, string>, cached: seq<Cluster>) {
    && Distinct(Names(added))
    && (forall c :: c in Names(added) <==> c in rest)
    && (forall m | m in added ::
          m.cluster in rest && m == Member(m.cluster, EndpointOf(cached, m.cluster), Reported(rest[m.cluster])))
  }

  /** The outcome of a merge. */
  ghost predicate Merged(before: seq<Member>, live: map<string, string>, counts: map<string, nat>,
                         cached: seq<Cluster>, after: seq<Member>, allOk: bool) {
    var (kept, rest) := Kept(before, live, counts, cached);
    && kept <= after && Listing(after[|kept|..], rest, cached)
    && (allOk <==> forall m | m in after :: m.health != Missing)
  }

  lemma AppendedNames(members: seq<Member>, m: Member)
    ensures Names(members + [m]) == Names(members) + [m.cluster]
  {
  }

  lemma SplitNames(members: seq<Member>, n: nat)
    requires n <= |members|
    ensures Names(members) == Names(members[..n]) + Names(members[n..])
  {
  }

  lemma {:induction false} KeptClusters(members: seq<Member>, live: map<string, string>, counts: map<string, nat>,
                                        cached: seq<Cluster>)
    ensures var (kept, rest) := Kept(members, live, counts, cached);
            && (rest == map c | c in live && c !in Names(members) :: live[c])
            && (forall c :: c in Names(kept) <==> c in Names(members) && Stays(c, live, counts))
    decreases |members|
  {
    if members != [] {
      var init, last := members[..|members| - 1], members[|members| - 1];
      KeptClusters(init, live, counts, cached);
      assert members == init + [last];
      AppendedNames(init, last);
      var (kept, rest) := Kept(init, live, counts, cached);
      var m := last.(endpoint := Endpoint(last, cached));
      AppendedNames(kept, m.(health := Missing));
      if m.cluster in rest {
        AppendedNames(kept, m.(health := Reported(rest[m.cluster])));
      }
    }
  }

  /**
   * From a list without duplicates the survivors come out in their order, each saying what its cluster reports,
   * or that it is missing.
   */
  lemma {:induction false} KeptInOrder(members: seq<Member>, live: map<string, string>, counts: map<string, nat>,
                                       cached: seq<Cluster>)
    requires Distinct(Names(members))
    ensures var kept := Kept(members, live, counts, cached).0;
            Names(kept) == Survivors(Names(members), live, counts) && forall m | m in kept :: Says(m, live, cached)
    decreases |members|
  {
    if members != [] {
      var init, last := members[..|members| - 1], members[|members| - 1];
      assert members == init + [last];
      AppendedNames(init, last);
      LastIsNew(Names(init), last.cluster);
      KeptInOrder(init, live, counts, cached);
      LastKeptInOrder(init, last, live, counts, cached);
      LastSurvivor(Names(init), last.cluster, live, counts);
    }
  }

  lemma LastIsNew(names: seq<string>, last: string)
    requires Distinct(names + [last])
    ensures Distinct(names) && last !in names
  {
    var all := names + [last];
    forall i, j | 0 <= i < j < |names| ensures names[i] != names[j] {
      assert all[i] != all[j];
    }
    forall i | 0 <= i < |names| ensures names[i] != last {
      assert all[i] != all[|names|];
    }
  }

  lemma LastSurvivor(names: seq<string>, last: string, live: map<string, string>, counts: map<string, nat>)
    ensures Survivors(names + [last], live, counts)
            == Survivors(names, live, counts) + (if Stays(last, live, counts) then [last] else [])
  {
    assert (names + [last])[..|names|] == names;
  }

  lemma LastKeptInOrder(init: seq<Member>, last: Member, live: map<string, string>, counts: map<string, nat>,
                        cached: seq<Cluster>)
    requires last.cluster !in Names(init)
    ensures var (kept, after) := (Kept(init, live, counts, cached).0, Kept(init + [last], live, counts, cached).0);
            && kept <= after && Names(after) == Names(kept)
                  + (if Stays(last.cluster, live, counts) then [last.cluster] else [])
            && forall m | m in after :: m in kept || Says(m, live, cached)
  {
    KeptClusters(init, live, counts, cached);
    assert (init + [last])[..|init|] == init;
    var (kept, rest) := Kept(init, live, counts, cached);
    var m := last.(endpoint := Endpoint(last, cached));
    AppendedNames(kept, m.(health := Missing));
    if m.cluster in rest {
      AppendedNames(kept, m.(health := Reported(rest[m.cluster])));
    }
  }

  /** Exactly the live clusters are listed, and the previous ones that are gone but still hold Spaces. */
  lemma MergeIsExact(before: seq<Member>, live: map<string, string>, counts: map<string, nat>, cached: seq<Cluster>,
                     after: seq<Member>, allOk: bool)
    requires Merged(before, live, counts, cached, after, allOk)
    ensures forall c :: c in Names(after) <==> c in live || (c in Names(before) && Lookup(counts, c) > 0)
  {
    var (kept, rest) := Kept(before, live, counts, cached);
    KeptClusters(before, live, counts, cached);
    SplitNames(after, |kept|);
    assert after[..|kept|] == kept;
  }

  /**
   * From a list without duplicates: none come in, the survivors are first and in their order, every entry says what its
   * cluster reports, and all is well exactly when no cluster that still holds Spaces has gone.
   */
  lemma MergeKeepsOrder(before: seq<Member>, live: map<string, string>, counts: map<string, nat>,
                        cached: seq<Cluster>, after: seq<Member>, allOk: bool)
    requires Merged(before, live, counts, cached, after, allOk) && Distinct(Names(before))
    ensures Distinct(Names(after)) && Survivors(Names(before), live, counts) <= Names(after)
    ensures forall m | m in after :: Says(m, live, cached)
    ensures allOk <==> forall c | c in Names(before) && Lookup(counts, c) > 0 :: c in live
  {
    var (kept, rest) := Kept(before, live, counts, cached);
    KeptClusters(before, live, counts, cached);
    KeptInOrder(before, live, counts, cached);
    SurvivorsExactly(Names(before), live, counts);
    SplitNames(after, |kept|);
    assert after[..|kept|] == kept && after == kept + after[|kept|..];
    MergeIsExact(before, live, counts, cached, after, allOk);
    AllOkMeansNoneMissing(before, live, counts, cached, after, allOk);
  }

  lemma AllOkMeansNoneMissing(before: seq<Member>, live: map<string, string>, counts: map<string, nat>,
                              cached: seq<Cluster>, after: seq<Member>, allOk: bool)
    requires Merged(before, live, counts, cached, after, allOk)
    requires forall m | m in after :: Says(m, live, cached)
    ensures allOk <==> forall c | c in Names(before) && Lookup(counts, c) > 0 :: c in live
  {
    MergeIsExact(before, live, counts, cached, after, allOk);
    if !allOk {
      var m :| m in after && m.health == Missing;
      assert m.cluster in Names(after);
    } else {
      forall c | c in Names(before) && Lookup(counts, c) > 0 ensures c in live {
        assert c in Names(after);
      }
    }
  }

  /** The endpoint is that of the first cached cluster of the name; no other has a say. */
  lemma {:induction false} FirstEndpointDecides(cached: seq<Cluster>, name: string, i: nat)
    requires i <= |cached| && forall j | 0 <= j < i :: cached[j].name != name
    ensures i == |cached| ==> EndpointOf(cached, name) == ""
    ensures i < |cached| && cached[i].name == name ==> EndpointOf(cached, name) == cached[i].endpoint
    decreases |cached|
  {
    if i > 0 {
      assert cached[0].name != name;
      forall j | 0 <= j < i - 1 ensures cached[1..][j].name != name {
        assert cached[1..][j] == cached[j + 1];
      }
      FirstEndpointDecides(cached[1..], name, i - 1);
    }
  }

  /** A member that stays keeps its endpoint if no cached cluster gives one. */
  lemma {:induction false} EndpointIsKept(members: seq<Member>, live: map<string, string>, counts: map<string, nat>,
                                          cached: seq<Cluster>, m: Member)
    requires m in Kept(members, live, counts, cached).0
    ensures exists old_ :: old_ in members && old_.cluster == m.cluster
              && m.endpoint == if EndpointOf(cached, m.cluster) != "" then EndpointOf(cached, m.cluster)
                    else old_.endpoint
    decreases |members|
  {
    var init, last := members[..|members| - 1], members[|members| - 1];
    assert members == init + [last];
    var kept := Kept(init, live, counts, cached).0;
    if m in kept {
      EndpointIsKept(init, live, counts, cached, m);
    } else {
      assert m.cluster == last.cluster;
    }
  }

  /** One periodic merge, with whatever clusters answer at the time. */
  ghost predicate Step(before: seq<Member>, after: seq<Member>) {
    exists live, counts, cached, ok :: Merged(before, live, counts, cached, after, ok)
  }

  /** A list that starts empty never gets a duplicate. */
  lemma {:induction false} NeverDuplicated(lists: seq<seq<Member>>, k: nat)
    requires k < |lists| && lists[0] == [] && forall i | 0 < i < |lists| :: Step(lists[i - 1], lists[i])
    ensures Distinct(Names(lists[k]))
  {
    if k > 0 {
      NeverDuplicated(lists, k - 1);
      var (s, t) := (lists[k - 1], lists[k]);
      var live, counts, cached, ok :| Merged(s, live, counts, cached, t, ok);
      MergeKeepsOrder(s, live, counts, cached, t, ok);
    }
  }

  class ToolchainStatus {
    var members: seq<Member>

    constructor (members: seq<Member>)
      ensures this.members == members
    {
      this.members := members;
    }

    method CompareAndAssignMemberStatuses(live: map<string, string>, counts: map<string, nat>, cached: seq<Cluster>)
        returns (allOk: bool)
      modifies this
      ensures Merged(old(members), live, counts, cached, members, allOk)
    {
      ghost var before := members;
      var rest := live;
      var newMembers: seq<Member> := [];
      allOk := true;
      for i := 0 to |members|
        invariant members == before
        invariant (newMembers, rest) == Kept(before[..i], live, counts, cached)
        invariant allOk <==> forall m | m in newMembers :: m.health != Missing
      {
        var member := members[i];
        assert before[..i + 1][..i] == before[..i];
        member := member.(endpoint := Endpoint(member, cached));
        if member.cluster in rest {
          member := member.(health := Reported(rest[member.cluster]));
          rest := rest - {member.cluster};
        } else if Lookup(counts, member.cluster) > 0 {
          member := member.(health := Missing);
          allOk := false;
        } else {
          continue;
        }
        newMembers := newMembers + [member];
      }
      assert before[..|before|] == before;
      var added := AppendNew(rest, cached);
      members := newMembers + added;
      assert members[|newMembers|..] == added;
    }

    /** The loop over what is left in the map, in any order. */
    method AppendNew(rest: map<string, string>, cached: seq<Cluster>) returns (added: seq<Member>)
      ensures Listing(added, rest, cached)
    {
      added := [];
      var todo := rest;
      while todo != map[]
        invariant todo.Keys <= rest.Keys && forall c | c in todo :: todo[c] == rest[c]
        invariant Listing(added, rest - todo.Keys, cached)
        decreases |todo.Keys|
      {
        var c :| c in todo;
        var m := Member(c, EndpointOf(cached, c), Reported(todo[c]));
        AppendedNames(added, m);
        added := added + [m];
        todo := todo - {c};
      }
    }
  }
}
