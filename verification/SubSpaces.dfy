/** The tree of Spaces: sub-spaces are created under a Space whose root can be found, and deleted in any order. */
module SubSpaces {
  import opened Base
  import opened NameSearch

  datatype SpaceSpec = SpaceSpec(tier: string, roles: seq<string>)

  /** `request` is the SpaceRequest in the labels of a sub-space: its name and namespace. */
  datatype Space = Space(parent: string, request: Option<(string, string)>, spec: SpaceSpec, targetCluster: string,
                         beingDeleted: bool)

  /** Parents are named, and may be gone. */
  type Forest = map<string, Space>

  // ---------- Walking up ----------

  ghost function Ancestor(f: Forest, name: string, k: nat): Option<string>
    decreases k
  {
    if k == 0 then Some(name)
    else if name in f && f[name].parent != "" then Ancestor(f, f[name].parent, k - 1)
    else None
  }

  /** No Space is its own ancestor. */
  ghost predicate Acyclic(f: Forest) {
    forall name, k: nat | name in f && k > 0 :: Ancestor(f, name, k) != Some(name)
  }

  lemma {:induction false} AncestorAdd(f: Forest, name: string, i: nat, j: nat)
    ensures Ancestor(f, name, i + j)
            == (if Ancestor(f, name, i).Some? then Ancestor(f, Ancestor(f, name, i).value, j) else None)
    decreases i
  {
    if i > 0 && name in f && f[name].parent != "" {
      AncestorAdd(f, f[name].parent, i - 1, j);
    }
  }

  ghost predicate IsRootOf(f: Forest, name: string, root: string) {
    root in f && f[root].parent == "" && exists k: nat :: Ancestor(f, name, k) == Some(root)
  }

  /** The chain of parents ends at a Space that does not exist. */
  ghost predicate IsBroken(f: Forest, name: string) {
    exists k: nat :: Ancestor(f, name, k).Some? && Ancestor(f, name, k).value !in f
  }

  /** A chain ends in one way only. */
  lemma RootIsUnique(f: Forest, name: string, root: string)
    requires IsRootOf(f, name, root)
    ensures !IsBroken(f, name)
    ensures forall r :: IsRootOf(f, name, r) ==> r == root
  {
    var k: nat :| Ancestor(f, name, k) == Some(root);
    forall j: nat, m | Ancestor(f, name, j) == Some(m) && (m !in f || f[m].parent == "") ensures m == root {
      if j < k {
        AncestorAdd(f, name, j, k - j);
      } else {
        AncestorAdd(f, name, k, j - k);
      }
    }
  }

  ghost predicate Reaches(f: Forest, name: string, ancestor: string) {
    exists k: nat :: Ancestor(f, name, k) == Some(ancestor) && k > 0
  }

  lemma ReachesNext(f: Forest, name: string, ancestor: string)
    requires (Reaches(f, name, ancestor) || name == ancestor) && ancestor in f && f[ancestor].parent != ""
    ensures Reaches(f, name, f[ancestor].parent)
  {
    var k: nat :| Ancestor(f, name, k) == Some(ancestor) && (k > 0 || name == ancestor);
    AncestorAdd(f, name, k, 1);
    assert Ancestor(f, f[ancestor].parent, 0) == Some(f[ancestor].parent);
    assert Ancestor(f, name, k + 1) == Some(f[ancestor].parent);
  }

  /**
   * Walks from a stored Space to its root. Acyclicity is what makes the loop end:
   * each step visits a Space not visited before.
   */
  method GetRootSpaceName(f: Forest, start: string) returns (r: Option<string>)
    requires start in f && Acyclic(f)
    ensures r.Some? ==> IsRootOf(f, start, r.value)
    ensures r.None? ==> IsBroken(f, start)
  {
    var current := start;
    ghost var visited: set<string> := {};
    assert Ancestor(f, start, 0) == Some(start);
    while f[current].parent != ""
      invariant current in f && current !in visited && visited <= f.Keys
      invariant current == start || Reaches(f, start, current)
      invariant forall v | v in visited :: Reaches(f, v, current)
      decreases f.Keys - visited
    {
      var parent := f[current].parent;
      ReachesNext(f, start, current);
      if parent !in f {
        return None;
      }
      visited := visited + {current};
      forall v | v in visited ensures Reaches(f, v, parent) {
        ReachesNext(f, v, current);
      }
      current := parent;
    }
    return Some(current);
  }

  // ---------- The forest stays acyclic ----------

  /** A path in the forest with one Space added goes through that Space or was there before. */
  lemma {:induction false} NewOrOldPath(f: Forest, name: string, g: Forest, start: string, k: nat, end: string)
    requires name !in f && name in g && g == f[name := g[name]] && Ancestor(g, start, k) == Some(end) && k > 0
    ensures Ancestor(f, start, k) == Some(end) || PassesBy(g, start, name, k)
    decreases k
  {
    if start == name {
      assert Ancestor(g, start, 0) == Some(name);
    } else {
      assert start in f && f[start] == g[start] && f[start].parent != "";
      var parent := f[start].parent;
      if k == 1 {
        assert Ancestor(g, parent, 0) == Some(end) == Ancestor(f, parent, 0);
      } else {
        NewOrOldPath(f, name, g, parent, k - 1, end);
        if PassesBy(g, parent, name, k - 1) {
          var i: nat :| Ancestor(g, parent, i) == Some(name) && i < k - 1;
          assert Ancestor(g, start, i + 1) == Some(name);
        }
      }
    }
  }

  /** The first k steps up from a Space meet the named one. */
  ghost predicate PassesBy(f: Forest, start: string, name: string, k: nat) {
    exists i: nat :: Ancestor(f, start, i) == Some(name) && i < k
  }

  /** If the added Space is not its own ancestor, no other Space is. */
  lemma OnlyTheNewCouldCycle(f: Forest, name: string, g: Forest)
    requires Acyclic(f) && name !in f && name in g && g == f[name := g[name]]
    requires forall k: nat :: Ancestor(g, name, k) == Some(name) ==> k == 0
    ensures Acyclic(g)
  {
    forall start, k: nat | start in g && k > 0 ensures Ancestor(g, start, k) != Some(start) {
      if Ancestor(g, start, k) == Some(start) && start != name {
        NewOrOldPath(f, name, g, start, k, start);
        var i: nat :| Ancestor(g, start, i) == Some(name) && i < k;
        AncestorAdd(g, start, i, k - i);
        AncestorAdd(g, name, k - i, i);
      }
    }
  }

  /** A chain that ends at a root is not touched by adding a Space, and does not contain it. */
  lemma {:induction false} IntactChain(f: Forest, name: string, space: Space, start: string, k: nat, j: nat)
    requires name !in f && Ancestor(f, start, k).Some? && Ancestor(f, start, k).value in f
             && f[Ancestor(f, start, k).value].parent == ""
    ensures Ancestor(f[name := space], start, j) == Ancestor(f, start, j) != Some(name)
    decreases k
  {
    if k > 0 && j > 0 {
      IntactChain(f, name, space, f[start].parent, k - 1, j - 1);
    }
  }

  /**
   * Creating a sub-space under a Space with an intact chain keeps the forest acyclic, even if other Spaces
   * already name it as a lost parent.
   */
  lemma SubSpaceKeepsAcyclic(f: Forest, name: string, space: Space, root: string)
    requires Acyclic(f) && name !in f && IsRootOf(f, space.parent, root)
    ensures Acyclic(f[name := space])
  {
    var g := f[name := space];
    var k: nat :| Ancestor(f, space.parent, k) == Some(root);
    forall j: nat ensures Ancestor(g, name, j) == Some(name) ==> j == 0 {
      if j > 0 {
        IntactChain(f, name, space, space.parent, k, j - 1);
      }
    }
    OnlyTheNewCouldCycle(f, name, g);
  }

  lemma RootKeepsAcyclic(f: Forest, name: string, space: Space)
    requires Acyclic(f) && name !in f && space.parent == ""
    ensures Acyclic(f[name := space])
  {
    OnlyTheNewCouldCycle(f, name, f[name := space]);
  }

  /** A change of one Space that keeps its place in the tree and the request it was made for. */
  predicate KeepsPlace(f: Forest, name: string, space: Space) {
    name in f && space.parent == f[name].parent && space.request == f[name].request
  }

  lemma {:induction false} SamePath(f: Forest, name: string, space: Space, start: string, k: nat)
    requires KeepsPlace(f, name, space)
    ensures Ancestor(f[name := space], start, k) == Ancestor(f, start, k)
    decreases k
  {
    if k > 0 && start in f && f[start].parent != "" {
      SamePath(f, name, space, f[start].parent, k - 1);
    }
  }

  lemma UpdateKeepsSound(f: Forest, name: string, space: Space)
    requires IsSound(f) && KeepsPlace(f, name, space)
    ensures IsSound(f[name := space])
  {
    var g := f[name := space];
    forall start, k: nat | start in g && k > 0 ensures Ancestor(g, start, k) != Some(start) {
      SamePath(f, name, space, start, k);
    }
  }

  lemma {:induction false} FewerSpacesFewerPaths(f: Forest, gone: string, start: string, k: nat)
    ensures Ancestor(f - {gone}, start, k) == None || Ancestor(f - {gone}, start, k) == Ancestor(f, start, k)
    decreases k
  {
    if k > 0 && start in f && start != gone && f[start].parent != "" {
      FewerSpacesFewerPaths(f, gone, f[start].parent, k - 1);
    }
  }

  lemma DeletionKeepsAcyclic(f: Forest, gone: string)
    requires Acyclic(f)
    ensures Acyclic(f - {gone})
  {
    forall start, k: nat | start in f - {gone} && k > 0 ensures Ancestor(f - {gone}, start, k) != Some(start) {
      FewerSpacesFewerPaths(f, gone, start, k);
    }
  }

  // ---------- The controller ----------

  /** Each SpaceRequest has at most one sub-space. */
  ghost predicate OnePerRequest(f: Forest) {
    forall a, b | a in f && b in f && f[a].request.Some? && f[a].request == f[b].request :: a == b
  }

  ghost predicate IsSound(f: Forest) {
    "" !in f && Acyclic(f) && OnePerRequest(f)
  }

  function RequestLabels(f: Forest): map<string, Option<(string, string)>> {
    map n | n in f :: f[n].request
  }

  /** Without roles of its own a sub-space goes where its parent is. */
  function NewSubSpace(parent: Space, parentName: string, request: (string, string), wanted: SpaceSpec): Space {
    Space(parentName, Some(request), wanted, if wanted.roles == [] then parent.targetCluster else "", false)
  }

  /**
   * A sub-space goes to its parent's cluster exactly if no roles are asked for; otherwise the scheduler decides
   * later.
   */
  lemma ClusterIsInherited(parent: Space, parentName: string, request: (string, string), wanted: SpaceSpec)
    ensures var s := NewSubSpace(parent, parentName, request, wanted);
            && s.parent == parentName && s.request == Some(request) && s.spec == wanted && !s.beingDeleted
            && (|wanted.roles| == 0 ==> s.targetCluster == parent.targetCluster)
            && (|wanted.roles| > 0 ==> s.targetCluster == "")
  {
  }

  datatype EnsureError =
    | NoParent | ParentDeleting | NoTier | TooManySubSpaces | StatusFailed
    | NoRoot | NoName(error: SubSpaceError) | Rejected | Deleting | UpdateFailed

  /** The tiers that exist, the names whose lookup fails, and which of the writes of one reconcile fail. */
  datatype EnsureCalls = EnsureCalls(tiers: set<string>, unreachable: set<string>, statusFails: bool, createFails: bool,
                                     updateFails: bool)

  class Reconciler {
    var spaces: Forest

    constructor ()
      ensures spaces == map[] && IsSound(spaces)
    {
      spaces := map[];
    }

    /** The Spaces whose labels name the request: none, one, or an error. */
    method GetSubSpace(request: (string, string)) returns (r: Result<Option<string>, ()>)
      ensures r.Ok? && r.value.Some? ==> r.value.value in spaces && spaces[r.value.value].request == Some(request)
      ensures r == Ok(None) <==> forall n | n in spaces :: spaces[n].request != Some(request)
      ensures OnePerRequest(spaces) ==> r.Ok?
    {
      var found: seq<string> := [];
      var rest := spaces.Keys;
      while rest != {}
        invariant rest <= spaces.Keys
        invariant forall n | n in found :: n in spaces.Keys - rest && spaces[n].request == Some(request)
        invariant Distinct(found)
        invariant forall n | n in spaces.Keys - rest && spaces[n].request == Some(request) :: n in found
        decreases |rest|
      {
        var n :| n in rest;
        if spaces[n].request == Some(request) {
          found := found + [n];
        }
        rest := rest - {n};
      }
      if |found| >= 2 {
        assert found[0] in found && found[1] in found;
        return Err(());
      }
      if |found| == 0 {
        return Ok(None);
      }
      assert found[0] in found;
      return Ok(Some(found[0]));
    }

    /** `parent` is the Space that owns the namespace of the request. */
    method EnsureSubSpace(request: (string, string), wanted: SpaceSpec, parent: string, c: EnsureCalls)
      returns (r: Result<string, EnsureError>)
      requires IsSound(spaces)
      modifies this
      ensures IsSound(spaces) && (spaces == old(spaces) || Step(old(spaces), spaces))
      ensures r.Err? ==> spaces == old(spaces)
      ensures r.Ok? ==>
                && parent in old(spaces) && !old(spaces[parent]).beingDeleted && wanted.tier != ""
                && wanted.tier in c.tiers
                && r.value in spaces && spaces[r.value].request == Some(request)
                && spaces[r.value].spec == wanted && !spaces[r.value].beingDeleted
      ensures r.Ok? && r.value in old(spaces) ==>
                spaces == old(spaces)[r.value := old(spaces[r.value]).(spec := wanted)]
      ensures r.Ok? && r.value !in old(spaces) ==>
                && spaces == old(spaces)[r.value := NewSubSpace(old(spaces[parent]), parent, request, wanted)]
                && (exists root, k: nat ::
                      k < 100 && IsRootOf(old(spaces), parent, root) && r.value == Attempt(root, request.0, k))
      ensures r.Err? && !c.statusFails && !c.createFails && !c.updateFails ==>
                || parent !in old(spaces) || old(spaces[parent]).beingDeleted || wanted.tier == ""
                      || wanted.tier !in c.tiers
                || (exists n :: n in old(spaces) && old(spaces)[n].request == Some(request)
                      && old(spaces)[n].beingDeleted)
                || ((forall n | n in old(spaces) :: old(spaces)[n].request != Some(request))
                    && (IsBroken(old(spaces), parent) || r.error.NoName? || r.error.Rejected?))
    {
      if parent !in spaces {
        return Err(NoParent);
      }
      if spaces[parent].beingDeleted {
        return Err(ParentDeleting);
      }
      if wanted.tier == "" || wanted.tier !in c.tiers {
        return Err(NoTier);
      }
      var existing := GetSubSpace(request);
      if existing.Err? {
        return Err(TooManySubSpaces);
      }
      if existing.value.None? {
        if c.statusFails {
          return Err(StatusFailed);
        }
        r := CreateNewSubSpace(request, wanted, parent, c);
      } else {
        r := UpdateExistingSubSpace(existing.value.value, wanted, c);
      }
    }

    method CreateNewSubSpace(request: (string, string), wanted: SpaceSpec, parent: string, c: EnsureCalls)
      returns (r: Result<string, EnsureError>)
      requires IsSound(spaces) && parent in spaces && forall n | n in spaces :: spaces[n].request != Some(request)
      modifies this
      ensures IsSound(spaces)
      ensures r.Err? ==> spaces == old(spaces)
      ensures r.Err? ==> (r == Err(NoRoot) && IsBroken(old(spaces), parent)) || r.error.NoName? || r == Err(Rejected)
      ensures r.Ok? ==>
                && r.value !in old(spaces)
                && spaces == old(spaces)[r.value := NewSubSpace(old(spaces[parent]), parent, request, wanted)]
                && Step(old(spaces), spaces)
                && (exists root, k: nat ::
                      k < 100 && IsRootOf(old(spaces), parent, root) && r.value == Attempt(root, request.0, k))
    {
      var root := GetRootSpaceName(spaces, parent);
      if root.None? {
        return Err(NoRoot);
      }
      var name := ResolveSubSpaceName(Taken(RequestLabels(spaces), c.unreachable), root.value, request);
      if name.Err? {
        return Err(NoName(name.error));
      }
      if name.value == "" || c.createFails {
        return Err(Rejected);
      }
      var space := NewSubSpace(spaces[parent], parent, request, wanted);
      SubSpaceKeepsAcyclic(spaces, name.value, space, root.value);
      assert CreatesUnder(spaces, space, root.value) && Adds(spaces, name.value, space, spaces[name.value := space]);
      spaces := spaces[name.value := space];
      return Ok(name.value);
    }

    method UpdateExistingSubSpace(name: string, wanted: SpaceSpec, c: EnsureCalls)
        returns (r: Result<string, EnsureError>)
      requires IsSound(spaces) && name in spaces
      modifies this
      ensures IsSound(spaces) && (spaces == old(spaces) || Step(old(spaces), spaces))
      ensures r.Ok? ==> r == Ok(name) && !old(spaces[name]).beingDeleted
      ensures spaces == if r.Ok? then old(spaces)[name := old(spaces[name]).(spec := wanted)] else old(spaces)
      ensures r.Err? ==> old(spaces[name]).beingDeleted || (c.updateFails && old(spaces[name]).spec != wanted)
    {
      var space := spaces[name];
      if space.beingDeleted {
        return Err(Deleting);
      }
      if space.spec == wanted {
        assert spaces == spaces[name := space];
        return Ok(name);
      }
      if c.updateFails {
        return Err(UpdateFailed);
      }
      UpdateKeepsSound(spaces, name, space.(spec := wanted));
      assert Updates(spaces, name, space.(spec := wanted), spaces[name := space.(spec := wanted)]);
      spaces := spaces[name := space.(spec := wanted)];
      return Ok(name);
    }

    /** The Space of a UserSignup. */
    method CreateRoot(name: string, spec: SpaceSpec, targetCluster: string) returns (ok: bool)
      requires IsSound(spaces)
      modifies this
      ensures IsSound(spaces)
      ensures ok <==> name != "" && name !in old(spaces)
      ensures spaces == if ok then old(spaces)[name := Space("", None, spec, targetCluster, false)] else old(spaces)
      ensures ok ==> Step(old(spaces), spaces)
    {
      if name == "" || name in spaces {
        return false;
      }
      var space := Space("", None, spec, targetCluster, false);
      RootKeepsAcyclic(spaces, name, space);
      assert IsRoot(space) && Adds(spaces, name, space, spaces[name := space]);
      spaces := spaces[name := space];
      return true;
    }

    /** A Space goes away, possibly before its sub-spaces. */
    method Delete(name: string)
      requires IsSound(spaces)
      modifies this
      ensures IsSound(spaces) && spaces == old(spaces) - {name} && Step(old(spaces), spaces)
    {
      DeletionKeepsAcyclic(spaces, name);
      assert Deletes(spaces, name, spaces - {name});
      spaces := spaces - {name};
    }
  }

  // ---------- Runs ----------

  /**
   * One change of the stored Spaces; a sub-space is only created under an unused name and a parent whose root was
   * found, and neither its parent nor its request is changed afterwards.
   */
  ghost predicate Step(f: Forest, g: Forest) {
    || (exists name, space, root :: Adds(f, name, space, g) && CreatesUnder(f, space, root))
    || (exists name, space :: Adds(f, name, space, g) && IsRoot(space))
    || (exists name, space :: Updates(f, name, space, g))
    || (exists name :: Deletes(f, name, g))
  }

  predicate Adds(f: Forest, name: string, space: Space, g: Forest) {
    name !in f && name != "" && g == f[name := space]
  }

  predicate Updates(f: Forest, name: string, space: Space, g: Forest) {
    KeepsPlace(f, name, space) && g == f[name := space]
  }

  predicate Deletes(f: Forest, name: string, g: Forest) {
    g == f - {name}
  }

  predicate IsRoot(space: Space) {
    space.parent == "" && space.request.None?
  }

  ghost predicate CreatesUnder(f: Forest, space: Space, root: string) {
    && IsRootOf(f, space.parent, root) && space.request.Some?
    && forall n | n in f :: f[n].request != space.request
  }

  ghost predicate IsRun(trace: seq<Forest>) {
    |trace| > 0 && trace[0] == map[] && forall k | 0 < k < |trace| :: Step(trace[k - 1], trace[k])
  }

  lemma StepKeepsSound(f: Forest, g: Forest)
    requires IsSound(f) && Step(f, g)
    ensures IsSound(g)
  {
    if name, space, root :| Adds(f, name, space, g) && CreatesUnder(f, space, root) {
      SubSpaceKeepsAcyclic(f, name, space, root);
    } else if name, space :| Adds(f, name, space, g) && IsRoot(space) {
      RootKeepsAcyclic(f, name, space);
    } else if name, space :| Updates(f, name, space, g) {
      UpdateKeepsSound(f, name, space);
    } else {
      var name :| Deletes(f, name, g);
      DeletionKeepsAcyclic(f, name);
    }
  }

  /**
   * Under any order of creations, updates and deletions no cycle of parents ever forms, and each request keeps
   * at most one sub-space.
   */
  lemma {:induction false} ForestStaysSound(trace: seq<Forest>, k: nat)
    requires IsRun(trace) && k < |trace|
    ensures IsSound(trace[k])
  {
    if k > 0 {
      var (f, g) := (trace[k - 1], trace[k]);
      ForestStaysSound(trace, k - 1);
      assert Step(f, g);
      StepKeepsSound(f, g);
    }
  }
}
