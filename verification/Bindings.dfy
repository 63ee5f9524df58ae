/** SpaceBindings: who may create, change and delete the binding of a user to a Space. */
module Bindings {
  import opened Base

  /** The labels name the request that made the binding; both are empty when none did. */
  datatype Binding = Binding(space: string, mur: string, role: string, request: Key, deletedAt: Option<int>)

  datatype Key = Key(namespace: string, name: string)

  datatype Request = Request(mur: string, role: string, finalizer: bool, beingDeleted: bool)

  /** Each request lives in a namespace provisioned for one Space. */
  datatype World = World(bindings: map<string, Binding>, requests: map<Key, Request>)

  const NO_REQUEST := Key("", "")

  /** What one reconcile of a request meets. */
  datatype Calls = Calls(
    now: int,
    space: Option<string>,
    spaceBeingDeleted: bool,
    murUsable: bool,
    tierRoles: Option<set<string>>,
    listFails: bool,
    statusFails: bool,
    createFails: bool,
    updateFails: bool,
    deleteFails: bool,
    finalizerFails: bool,
    lingers: bool,
    newName: string,
    initialRole: string)

  datatype Report = Absent | Error | Ready | Terminating | Released

  function Matching(bindings: map<string, Binding>, space: string, mur: string): (r: set<string>)
    ensures forall n :: n in r <==> n in bindings && bindings[n].space == space && bindings[n].mur == mur
  {
    set n | n in bindings && bindings[n].space == space && bindings[n].mur == mur
  }

  /** Nothing, the one binding of the Space and user, or an error when there are several. */
  ghost function Found(bindings: map<string, Binding>, space: string, mur: string): Result<Option<string>, ()> {
    var names := Matching(bindings, space, mur);
    if names == {} then Ok(None)
    else
      var n :| n in names;
      if names == {n} then Ok(Some(n)) else Err(())
  }

  predicate Owns(key: Key, b: Binding) {
    b.request == key
  }

  ghost function EnsuredBinding(bindings: map<string, Binding>, key: Key, r: Request,
                                c: Calls): (map<string, Binding>, bool) {
    if c.space.None? || c.listFails then (bindings, false)
    else match Found(bindings, c.space.value, r.mur)
      case Err(_) => (bindings, false)
      case Ok(found) =>
        if found.Some? && found.value in bindings && !Owns(key, bindings[found.value]) then (bindings, false)
        else if c.spaceBeingDeleted || r.mur == "" || !c.murUsable then (bindings, false)
        else if r.role == "" || c.tierRoles.None? || r.role !in c.tierRoles.value then (bindings, false)
        else match found
          case None =>
            if c.statusFails || c.createFails || c.newName in bindings then (bindings, false)
            else (bindings[c.newName := Binding(c.space.value, r.mur, c.initialRole, key, None)], true)
          case Some(n) => UpdatedBinding(bindings, n, r, c)
  }

  function UpdatedBinding(bindings: map<string, Binding>, n: string, r: Request, c: Calls): (map<string, Binding>,
      bool) {
    if n !in bindings || bindings[n].deletedAt.Some? then (bindings, false)
    else if bindings[n].role == r.role then (bindings, true)
    else if c.updateFails then (bindings, false)
    else (bindings[n := bindings[n].(role := r.role)], true)
  }

  /** Deleting an object that has finalizers of its own only marks it. */
  function DeletedBinding(bindings: map<string, Binding>, n: string, c: Calls): (map<string, Binding>, bool) {
    if n !in bindings then (bindings, false)
    else if bindings[n].deletedAt.Some? then (bindings, c.now - bindings[n].deletedAt.value <= 120)
    else if c.deleteFails then (bindings, false)
    else if c.lingers then (bindings[n := bindings[n].(deletedAt := Some(c.now))], true)
    else (bindings - {n}, true)
  }

  ghost function EnsuredDeletion(w: World, key: Key, r: Request, c: Calls): (World, Report) {
    if !r.finalizer then (w, Absent)
    else if c.space.None? || c.listFails then (w, Error)
    else match Found(w.bindings, c.space.value, r.mur)
      case Err(_) => (w, Error)
      case Ok(found) =>
        if found.Some? && found.value in w.bindings && Owns(key, w.bindings[found.value]) then
          var (bindings, ok) := DeletedBinding(w.bindings, found.value, c);
          (w.(bindings := bindings), if ok && !c.statusFails then Terminating else Error)
        else if c.finalizerFails then (w, Error)
        else (w.(requests := w.requests - {key}), Released)
  }

  ghost function ReconciledRequest(w: World, key: Key, c: Calls): (World, Report) {
    if key !in w.requests then (w, Absent)
    else
      var r := w.requests[key];
      if r.beingDeleted then EnsuredDeletion(w, key, r, c)
      else if !r.finalizer && c.finalizerFails then (w, Error)
      else
        var requests := w.requests[key := r.(finalizer := true)];
        var (bindings, ok) := EnsuredBinding(w.bindings, key, r, c);
        (World(bindings, requests), if ok && !c.statusFails then Ready else Error)
  }

  /** The UserSignup controller's own binding of a user to their Space. */
  ghost function SignupBound(bindings: map<string, Binding>, space: string, mur: string,
                             c: Calls): (map<string, Binding>, bool) {
    if c.listFails then (bindings, false)
    else match Found(bindings, space, mur)
      case Err(_) => (bindings, false)
      case Ok(Some(n)) => (bindings, n in bindings && bindings[n].deletedAt.None?)
      case Ok(None) =>
        if c.createFails || c.newName in bindings then (bindings, false)
        else (bindings[c.newName := Binding(space, mur, c.initialRole, NO_REQUEST, None)], true)
  }

  lemma FoundExactly(bindings: map<string, Binding>, space: string, mur: string)
    ensures var f := Found(bindings, space, mur);
            && (f == Ok(None) <==> Matching(bindings, space, mur) == {})
            && (forall n :: f == Ok(Some(n)) <==> Matching(bindings, space, mur) == {n})
            && (f.Ok? && f.value.Some? ==> f.value.value in bindings)
  {
    var names := Matching(bindings, space, mur);
    if names != {} {
      var f := Found(bindings, space, mur);
      forall n ensures f == Ok(Some(n)) <==> names == {n} {
        if names == {n} {
          assert forall m :: m in names <==> m == n;
        }
      }
    }
  }

  // ---------- Uniqueness and ownership ----------

  /** At most one binding for each Space and user. */
  ghost predicate Unique(bindings: map<string, Binding>) {
    forall a, b | a in bindings && b in bindings && bindings[a].space == bindings[b].space
        && bindings[a].mur == bindings[b].mur :: a == b
  }

  /** Bindings that another request, or no request, made are left exactly as they are. */
  ghost predicate LeavesOthers(before: map<string, Binding>, after: map<string, Binding>, key: Key) {
    && (forall n | n in before && !Owns(key, before[n]) :: n in after && after[n] == before[n])
    && (forall n | n in after && n !in before :: Owns(key, after[n]))
    && (forall n | n in after && n in before :: after[n].space == before[n].space && after[n].mur == before[n].mur
          && after[n].request == before[n].request)
  }

  lemma AddingKeepsUnique(bindings: map<string, Binding>, name: string, b: Binding)
    requires Unique(bindings) && Matching(bindings, b.space, b.mur) == {} && name !in bindings
    ensures Unique(bindings[name := b])
  {
    assert forall n | n in bindings :: bindings[n].space == b.space && bindings[n].mur == b.mur <==>
        n in Matching(bindings, b.space, b.mur);
  }

  lemma EnsuringKeeps(bindings: map<string, Binding>, key: Key, r: Request, c: Calls)
    requires Unique(bindings)
    ensures var after := EnsuredBinding(bindings, key, r, c).0;
            && Unique(after) && LeavesOthers(bindings, after, key)
            && (forall n | n in after && n !in bindings :: c.space == Some(after[n].space) && after[n].mur == r.mur)
  {
    if c.space.Some? {
      FoundExactly(bindings, c.space.value, r.mur);
      if Matching(bindings, c.space.value, r.mur) == {} && c.newName !in bindings {
        AddingKeepsUnique(bindings, c.newName, Binding(c.space.value, r.mur, c.initialRole, key, None));
      }
    }
  }

  lemma DeletionKeeps(w: World, key: Key, r: Request, c: Calls)
    requires Unique(w.bindings)
    ensures var x := EnsuredDeletion(w, key, r, c).0; Unique(x.bindings) && LeavesOthers(w.bindings, x.bindings, key)
  {
    if r.finalizer && c.space.Some? && !c.listFails {
      FoundExactly(w.bindings, c.space.value, r.mur);
      var found := Found(w.bindings, c.space.value, r.mur);
      if found.Ok? && found.value.Some? && Owns(key, w.bindings[found.value.value]) {
        DeletedKeeps(w.bindings, found.value.value, key, c);
      }
    }
  }

  lemma DeletedKeeps(bindings: map<string, Binding>, n: string, key: Key, c: Calls)
    requires Unique(bindings) && n in bindings && Owns(key, bindings[n])
    ensures var after := DeletedBinding(bindings, n, c).0; Unique(after) && LeavesOthers(bindings, after, key)
  {
  }

  /** A reconcile of a request never touches a binding the request does not own, and never makes a second one. */
  lemma RequestKeeps(w: World, key: Key, c: Calls)
    requires Unique(w.bindings)
    ensures var x := ReconciledRequest(w, key, c).0;
            && Unique(x.bindings) && LeavesOthers(w.bindings, x.bindings, key)
            && (forall k | k != key :: k in x.requests <==> k in w.requests)
            && (forall k | k in x.requests && k != key :: x.requests[k] == w.requests[k])
  {
    if key in w.requests {
      if w.requests[key].beingDeleted {
        DeletionKeeps(w, key, w.requests[key], c);
      } else {
        EnsuringKeeps(w.bindings, key, w.requests[key], c);
      }
    }
  }

  /** A signup never changes an existing binding at all. */
  lemma SignupKeeps(bindings: map<string, Binding>, space: string, mur: string, c: Calls)
    ensures var (after, ok) := SignupBound(bindings, space, mur, c);
            && (Unique(bindings) ==> Unique(after))
            && (forall n | n in bindings :: n in after && after[n] == bindings[n])
            && (forall n | n in after && n !in bindings :: after[n].request == NO_REQUEST)
            && (ok ==> exists n :: Matching(after, space, mur) == {n} && after[n].deletedAt.None?)
  {
    FoundExactly(bindings, space, mur);
    if Matching(bindings, space, mur) == {} && c.newName !in bindings {
      var b := Binding(space, mur, c.initialRole, NO_REQUEST, None);
      if Unique(bindings) {
        AddingKeepsUnique(bindings, c.newName, b);
      }
      assert Matching(bindings[c.newName := b], space, mur) == {c.newName};
    }
  }

  /**
   * A request that reports ready has exactly one binding for its Space and user, made by itself and alive; it carries
   * the requested role unless it was made just now, with the initial one.
   */
  lemma ReadyMeansBound(w: World, key: Key, c: Calls)
    requires ReconciledRequest(w, key, c).1.Ready?
    ensures c.space.Some?
    ensures exists n :: BoundBy(ReconciledRequest(w, key, c).0, key, c.space.value, n)
                        && (ReconciledRequest(w, key, c).0.bindings[n].role == w.requests[key].role
                            || (n !in w.bindings && ReconciledRequest(w, key, c).0.bindings[n].role == c.initialRole))
  {
    var r := w.requests[key];
    var x := ReconciledRequest(w, key, c).0;
    FoundExactly(w.bindings, c.space.value, r.mur);
    var found := Found(w.bindings, c.space.value, r.mur).value;
    var n := if found.Some? then found.value else c.newName;
    assert Matching(x.bindings, c.space.value, r.mur) == {n} by {
      assert forall m | m in x.bindings && m != n :: m in w.bindings && x.bindings[m] == w.bindings[m];
      assert forall m :: m in Matching(w.bindings, c.space.value, r.mur) <==> found == Some(m);
    }
    assert BoundBy(x, key, c.space.value, n);
  }

  ghost predicate BoundBy(w: World, key: Key, space: string, n: string) {
    && key in w.requests && Matching(w.bindings, space, w.requests[key].mur) == {n} && n in w.bindings
    && Owns(key, w.bindings[n]) && w.bindings[n].deletedAt.None?
  }

  // ---------- What a reconcile brings about ----------

  /** All writes succeed, and a new name is free. */
  predicate Works(bindings: map<string, Binding>, c: Calls) {
    !c.statusFails && !c.createFails && !c.updateFails && !c.deleteFails && !c.finalizerFails && c.newName !in bindings
  }

  /**
   * With working writes a request gets its binding exactly when the Space can be found and is not being
   * deleted, the user is named and usable, the role is named and one of the tier's, and the Space and user have
   * no binding yet or one that the request owns and that is alive.
   */
  lemma BoundExactly(bindings: map<string, Binding>, key: Key, r: Request, c: Calls)
    requires Works(bindings, c)
    ensures EnsuredBinding(bindings, key, r, c).1 <==>
            && c.space.Some? && !c.listFails && !c.spaceBeingDeleted && r.mur != "" && c.murUsable
            && r.role != "" && c.tierRoles.Some? && r.role in c.tierRoles.value
            && (|| Matching(bindings, c.space.value, r.mur) == {}
                || exists n :: Matching(bindings, c.space.value, r.mur) == {n}
                     && bindings[n].request == key && bindings[n].deletedAt == None)
  {
    if c.space.Some? {
      FoundExactly(bindings, c.space.value, r.mur);
    }
  }

  /**
   * What is created carries the labels of its maker and the role new bindings start with; an update only sets
   * the role.
   */
  lemma BoundAs(bindings: map<string, Binding>, key: Key, r: Request, c: Calls)
    requires EnsuredBinding(bindings, key, r, c).1
    ensures var after := EnsuredBinding(bindings, key, r, c).0;
            && c.space.Some?
            && (Matching(bindings, c.space.value, r.mur) == {} ==>
                  after == bindings[c.newName := Binding(c.space.value, r.mur, c.initialRole, key, None)])
            && (forall n | Matching(bindings, c.space.value, r.mur) == {n} ::
                  after == bindings[n := bindings[n].(role := r.role)])
  {
    FoundExactly(bindings, c.space.value, r.mur);
    forall n | Matching(bindings, c.space.value, r.mur) == {n} ensures n in bindings {
      assert n in Matching(bindings, c.space.value, r.mur);
    }
  }

  /** A signup's binding names no request. */
  lemma SignupBoundAs(bindings: map<string, Binding>, space: string, mur: string, c: Calls)
    requires Matching(bindings, space, mur) == {} && !c.listFails && !c.createFails && c.newName !in bindings
    ensures SignupBound(bindings, space, mur, c)
            == (bindings[c.newName := Binding(space, mur, c.initialRole, Key("", ""), None)], true)
  {
    FoundExactly(bindings, space, mur);
  }

  /**
   * A request being deleted deletes the live binding it owns: the binding is gone, or marked as being deleted
   * now if it has finalizers of its own. Once there is none of its own, the request goes.
   */
  lemma DeletionDeletes(w: World, key: Key, c: Calls, n: string)
    requires key in w.requests && w.requests[key].beingDeleted && w.requests[key].finalizer
    requires c.space.Some? && !c.listFails && !c.statusFails && !c.deleteFails && !c.finalizerFails
    requires Matching(w.bindings, c.space.value, w.requests[key].mur) == {n} && w.bindings[n].deletedAt == None
    ensures var (v, report) := ReconciledRequest(w, key, c);
            if w.bindings[n].request == key then
              && report == Terminating && v.requests == w.requests
              && v.bindings == if c.lingers then w.bindings[n := w.bindings[n].(deletedAt := Some(c.now))]
                    else w.bindings - {n}
            else
              report == Released && v.bindings == w.bindings && v.requests == w.requests - {key}
  {
    FoundExactly(w.bindings, c.space.value, w.requests[key].mur);
  }

  lemma RequestGoes(w: World, key: Key, c: Calls)
    requires key in w.requests && w.requests[key].beingDeleted && w.requests[key].finalizer
    requires c.space.Some? && !c.listFails && !c.finalizerFails
    requires Matching(w.bindings, c.space.value, w.requests[key].mur) == {}
    ensures ReconciledRequest(w, key, c) == (w.(requests := w.requests - {key}), Released)
  {
    FoundExactly(w.bindings, c.space.value, w.requests[key].mur);
  }

  /** A binding that takes over two minutes to go is an error for the request. */
  lemma LingeringIsAnError(w: World, key: Key, c: Calls, n: string)
    requires key in w.requests && w.requests[key].beingDeleted && w.requests[key].finalizer
    requires c.space.Some? && !c.listFails && !c.statusFails
    requires Matching(w.bindings, c.space.value, w.requests[key].mur) == {n} && w.bindings[n].request == key
    requires w.bindings[n].deletedAt.Some?
    ensures ReconciledRequest(w, key, c)
            == (w, if c.now - w.bindings[n].deletedAt.value > 120 then Error else Terminating)
  {
    FoundExactly(w.bindings, c.space.value, w.requests[key].mur);
  }

  // ---------- What failures leave behind ----------

  /** A living request gets its finalizer before anything else, if it can; from then on that call is not made again. */
  lemma FinalizerComesFirst(w: World, key: Key, c: Calls)
    requires key in w.requests && !w.requests[key].beingDeleted
    ensures var (v, report) := ReconciledRequest(w, key, c);
            if !w.requests[key].finalizer && c.finalizerFails then v == w && report == Error
            else
              && v.requests == w.requests[key := w.requests[key].(finalizer := true)]
              && v.bindings == EnsuredBinding(w.bindings, key, w.requests[key], c).0
              && (report == Ready <==> EnsuredBinding(w.bindings, key, w.requests[key], c).1 && !c.statusFails)
              && (report == Ready || report == Error)
  {
  }

  /** A binding that cannot be announced, created or updated is not; a signup's neither. */
  lemma BindingFailsSafely(bindings: map<string, Binding>, key: Key, r: Request, c: Calls)
    requires c.space.Some?
    ensures Matching(bindings, c.space.value, r.mur) == {} && (c.statusFails || c.createFails) ==>
              EnsuredBinding(bindings, key, r, c) == (bindings, false)
    ensures Matching(bindings, c.space.value, r.mur) == {} && c.createFails ==>
              SignupBound(bindings, c.space.value, r.mur, c) == (bindings, false)
    ensures !EnsuredBinding(bindings, key, r, c).1 ==> EnsuredBinding(bindings, key, r, c).0 == bindings
    ensures !SignupBound(bindings, c.space.value, r.mur, c).1 ==>
            SignupBound(bindings, c.space.value, r.mur, c).0 == bindings
  {
    FoundExactly(bindings, c.space.value, r.mur);
  }

  /** A request being deleted stays, with an error, as long as something about its binding cannot be done. */
  lemma DeletionFailsSafely(w: World, key: Key, c: Calls)
    requires key in w.requests && w.requests[key].beingDeleted && w.requests[key].finalizer
    ensures c.space.None? || c.listFails ==> ReconciledRequest(w, key, c) == (w, Error)
    ensures c.finalizerFails ==> ReconciledRequest(w, key, c).0.requests == w.requests
    ensures c.deleteFails && ReconciledRequest(w, key, c).1 == Terminating ==>
              exists n :: n in w.bindings && w.bindings[n].request == key && w.bindings[n].deletedAt.Some?
    ensures c.deleteFails ==> ReconciledRequest(w, key, c).0.bindings == w.bindings
    ensures c.statusFails ==> ReconciledRequest(w, key, c).1 != Terminating
  {
    if c.space.Some? {
      FoundExactly(w.bindings, c.space.value, w.requests[key].mur);
    }
  }
}
