/** NSTemplateTiers: the templates they reference and the revisions in their status. */
module Tiers {
  import opened Base

  /**
   * The name of a TierTemplate, or the generated name of a TierTemplateRevision. The serial number
   * stands for the random suffix of `GenerateName`, which is never handed out twice.
   */
  datatype Name = Plain(text: string) | Generated(tier: string, template: string, serial: nat)

  datatype TierSpec = TierSpec(namespaces: seq<string>, clusterResources: Option<string>,
                               spaceRoles: map<string, string>, parameters: string)

  /** The template refs of a tier: namespaces, cluster resources, space roles. */
  function Refs(spec: TierSpec): set<string> {
    (set r | r in spec.namespaces)
    + (if spec.clusterResources.Some? then {spec.clusterResources.value} else {})
    + spec.spaceRoles.Values
  }

  /** `status.revisions[ref]`; Go yields the empty string for a missing key. */
  function RevisionOf(revisions: map<string, Name>, ref: string): Name {
    if ref in revisions then revisions[ref] else Plain("")
  }

  /** The roles are a map, visited in any order. */
  method GetRefs(spec: TierSpec) returns (refs: seq<string>)
    ensures forall r :: r in refs <==> r in Refs(spec)
  {
    refs := [];
    for i := 0 to |spec.namespaces|
      invariant refs == spec.namespaces[..i]
    {
      refs := refs + [spec.namespaces[i]];
    }
    if spec.clusterResources.Some? {
      refs := refs + [spec.clusterResources.value];
    }
    refs := AppendRoles(refs, spec.spaceRoles);
  }

  method AppendRoles(first: seq<string>, spaceRoles: map<string, string>) returns (refs: seq<string>)
    ensures forall r :: r in refs <==> r in first || r in spaceRoles.Values
  {
    refs := first;
    var roles := spaceRoles.Keys;
    while roles != {}
      invariant roles <= spaceRoles.Keys
      invariant forall r | r in first :: r in refs
      invariant forall r | r in refs :: r in first || r in spaceRoles.Values
      invariant forall k | k in spaceRoles.Keys - roles :: spaceRoles[k] in refs
      decreases |roles|
    {
      var role :| role in roles;
      assert spaceRoles[role] in spaceRoles.Values;
      refs := refs + [spaceRoles[role]];
      roles := roles - {role};
    }
    forall r | r in spaceRoles.Values ensures r in refs {
      var k :| k in spaceRoles && spaceRoles[k] == r;
      assert k in spaceRoles.Keys - roles;
    }
  }

  /** Ready to provision from: each ref has an entry in `status.revisions`. */
  method ValidateRevisions(spec: TierSpec, revisions: map<string, Name>) returns (ok: bool)
    ensures ok <==> Refs(spec) <= revisions.Keys
  {
    var refs := GetRefs(spec);
    for i := 0 to |refs|
      invariant forall k | 0 <= k < i :: refs[k] in revisions
    {
      if refs[i] !in revisions {
        assert refs[i] in Refs(spec);
        return false;
      }
    }
    forall r | r in Refs(spec) ensures r in revisions {
      assert r in refs;
    }
    return true;
  }
}
