/** Building the spec of a Space's NSTemplateSet from its tier and its SpaceBindings. */
module TemplateSetSpec {
  import opened Base
  import opened Strings
  import opened Tiers

  /** A Go slice: nil and empty are told apart by `reflect.DeepEqual`. */
  datatype Slice<T> = Nil | Items(elems: seq<T>)

  datatype SpaceBinding = SpaceBinding(user: string, role: string)

  datatype RoleEntry = RoleEntry(templateRef: Name, usernames: seq<string>)

  datatype SetSpec = SetSpec(tierName: string, clusterResources: Option<Name>,
                             namespaces: Slice<Name>, spaceRoles: Slice<RoleEntry>)

  // ---------- What a spec means ----------

  ghost function UsersOf(role: string, bindings: seq<SpaceBinding>): set<string> {
    set b | b in bindings && b.role == role :: b.user
  }

  ghost function Grants(bindings: seq<SpaceBinding>): set<(string, string)> {
    set b | b in bindings :: (b.role, b.user)
  }

  /** The tier's roles that somebody holds. */
  ghost function UsedRoles(tier: TierSpec, bindings: seq<SpaceBinding>): set<string> {
    set r | r in tier.spaceRoles.Keys && UsersOf(r, bindings) != {}
  }

  ghost predicate IsEntryFor(e: RoleEntry, role: string, tier: TierSpec, revisions: map<string, Name>,
                             bindings: seq<SpaceBinding>) {
    && role in tier.spaceRoles
    && e.templateRef == RevisionOf(revisions, tier.spaceRoles[role])
    && IsSortedList(e.usernames, UsersOf(role, bindings))
  }

  /** One entry for each role in `roles`, in that order. */
  ghost predicate AreEntriesFor(entries: seq<RoleEntry>, roles: seq<string>, tier: TierSpec,
                                revisions: map<string, Name>, bindings: seq<SpaceBinding>) {
    |entries| == |roles| && forall i | 0 <= i < |roles| :: IsEntryFor(entries[i], roles[i], tier, revisions, bindings)
  }

  ghost predicate IsSpecFor(s: SetSpec, tierName: string, tier: TierSpec, revisions: map<string, Name>,
                            bindings: seq<SpaceBinding>) {
    && s.tierName == tierName
    && s.clusterResources
          == (if tier.clusterResources.Some? then Some(RevisionOf(revisions, tier.clusterResources.value)) else None)
    && s.namespaces == (if tier.namespaces == [] then Nil
                        else Items(seq(|tier.namespaces|, i requires 0 <= i < |tier.namespaces| =>
                            RevisionOf(revisions, tier.namespaces[i]))))
    && (s.spaceRoles.Nil? <==> bindings == [])
    && (s.spaceRoles.Items? ==> exists roles ::
          IsSortedList(roles, UsedRoles(tier, bindings))
              && AreEntriesFor(s.spaceRoles.elems, roles, tier, revisions, bindings))
  }

  // ---------- The builder ----------

  method ExtractUsernames(role: string, bindings: seq<SpaceBinding>) returns (usernames: seq<string>)
    ensures IsSortedList(usernames, UsersOf(role, bindings))
  {
    var users := {};
    for i := 0 to |bindings|
      invariant users == UsersOf(role, bindings[..i])
    {
      assert bindings[..i + 1] == bindings[..i] + [bindings[i]];
      if bindings[i].role == role {
        users := users + {bindings[i].user};
      }
    }
    assert bindings[..|bindings|] == bindings;
    usernames := SortedKeys(users);
  }

  method NewNSTemplateSetSpec(tierName: string, tier: TierSpec, revisions: map<string, Name>,
                              bindings: seq<SpaceBinding>) returns (s: SetSpec)
    ensures IsSpecFor(s, tierName, tier, revisions, bindings)
  {
    s := SetSpec(tierName, None, Nil, Nil);
    if tier.clusterResources.Some? {
      s := s.(clusterResources := Some(RevisionOf(revisions, tier.clusterResources.value)));
    }
    if |tier.namespaces| > 0 {
      s := s.(namespaces :=
          Items(seq(|tier.namespaces|, i requires 0 <= i < |tier.namespaces| =>
              RevisionOf(revisions, tier.namespaces[i]))));
    }
    if |bindings| > 0 {
      var roles := SortedKeys(tier.spaceRoles.Keys);
      var entries := [];
      ghost var used := [];
      for k := 0 to |roles|
        invariant AreEntriesFor(entries, used, tier, revisions, bindings)
        invariant StrictlySorted(used)
        invariant forall r :: r in used <==> r in roles[..k] && UsersOf(r, bindings) != {}
      {
        assert roles[k] in roles;
        assert roles[..k + 1] == roles[..k] + [roles[k]];
        var usernames := ExtractUsernames(roles[k], bindings);
        if |usernames| > 0 {
          assert usernames[0] in UsersOf(roles[k], bindings);
          forall i | 0 <= i < |used| ensures Before(used[i], roles[k]) {
            assert used[i] in used;
          }
          entries := entries + [RoleEntry(RevisionOf(revisions, tier.spaceRoles[roles[k]]), usernames)];
          used := used + [roles[k]];
        }
      }
      assert roles[..|roles|] == roles;
      assert IsSortedList(used, UsedRoles(tier, bindings));
      s := s.(spaceRoles := Items(entries));
    }
  }

  // ---------- The result is canonical ----------

  /** Two binding lists with the same (role, user) pairs give the same spec, whatever their order and repetitions. */
  lemma SpecIsCanonical(s: SetSpec, t: SetSpec, tierName: string, tier: TierSpec, revisions: map<string, Name>,
                        b: seq<SpaceBinding>, c: seq<SpaceBinding>)
    requires Grants(b) == Grants(c)
    requires IsSpecFor(s, tierName, tier, revisions, b) && IsSpecFor(t, tierName, tier, revisions, c)
    ensures s == t
  {
    SameGrantsSameUsers(b, c);
    NoGrants(b);
    NoGrants(c);
    if b != [] {
      var rs :| IsSortedList(rs, UsedRoles(tier, b)) && AreEntriesFor(s.spaceRoles.elems, rs, tier, revisions, b);
      var rt :| IsSortedList(rt, UsedRoles(tier, c)) && AreEntriesFor(t.spaceRoles.elems, rt, tier, revisions, c);
      assert UsedRoles(tier, b) == UsedRoles(tier, c);
      SortedListUnique(rs, rt, UsedRoles(tier, b));
      forall i | 0 <= i < |rs| ensures s.spaceRoles.elems[i] == t.spaceRoles.elems[i] {
        SortedListUnique(s.spaceRoles.elems[i].usernames, t.spaceRoles.elems[i].usernames, UsersOf(rs[i], b));
      }
    }
  }

  lemma NoGrants(b: seq<SpaceBinding>)
    ensures Grants(b) == {} <==> b == []
  {
    if b != [] {
      assert (b[0].role, b[0].user) in Grants(b);
    }
  }

  lemma SameGrantsSameUsers(b: seq<SpaceBinding>, c: seq<SpaceBinding>)
    requires Grants(b) == Grants(c)
    ensures forall r :: UsersOf(r, b) == UsersOf(r, c)
  {
    forall r ensures UsersOf(r, b) <= UsersOf(r, c) && UsersOf(r, c) <= UsersOf(r, b) {
      forall u | u in UsersOf(r, b) ensures u in UsersOf(r, c) {
        assert (r, u) in Grants(c);
      }
      forall u | u in UsersOf(r, c) ensures u in UsersOf(r, b) {
        assert (r, u) in Grants(b);
      }
    }
  }

  /** The names a spec mentions. */
  ghost function Mentioned(s: SetSpec): set<Name> {
    (if s.clusterResources.Some? then {s.clusterResources.value} else {})
    + (if s.namespaces.Items? then set n | n in s.namespaces.elems else {})
    + (if s.spaceRoles.Items? then set e | e in s.spaceRoles.elems :: e.templateRef else {})
  }

  /** With validated revisions a spec only mentions revisions of the tier's own refs. */
  lemma MentionsOnlyRevisions(s: SetSpec, tierName: string, tier: TierSpec, revisions: map<string, Name>,
                              bindings: seq<SpaceBinding>)
    requires IsSpecFor(s, tierName, tier, revisions, bindings) && Refs(tier) <= revisions.Keys
    ensures forall n | n in Mentioned(s) :: exists ref :: ref in Refs(tier) && n == revisions[ref]
  {
    if s.spaceRoles.Items? {
      var roles :| IsSortedList(roles, UsedRoles(tier, bindings))
          && AreEntriesFor(s.spaceRoles.elems, roles, tier, revisions, bindings);
      forall e | e in s.spaceRoles.elems ensures exists ref :: ref in Refs(tier) && e.templateRef == revisions[ref] {
        var i :| 0 <= i < |roles| && s.spaceRoles.elems[i] == e;
        assert roles[i] in roles;
        assert tier.spaceRoles[roles[i]] in Refs(tier);
      }
    }
    if s.namespaces.Items? {
      forall n | n in s.namespaces.elems ensures exists ref :: ref in Refs(tier) && n == revisions[ref] {
        var i :| 0 <= i < |tier.namespaces| && s.namespaces.elems[i] == n;
        assert tier.namespaces[i] in Refs(tier);
      }
    }
  }
}
