/** The binding parts of the SpaceBindingRequest and UserSignup controllers as they run. */
module BindingController {
  import opened Base
  import opened Bindings

  class Store {
    var bindings: map<string, Binding>
    var requests: map<Key, Request>

    constructor (bindings: map<string, Binding>, requests: map<Key, Request>)
      ensures Contents() == World(bindings, requests)
    {
      this.bindings, this.requests := bindings, requests;
    }

    ghost function Contents(): World
      reads this
    {
      World(bindings, requests)
    }
  }

  class Reconciler {
    const store: Store

    constructor (store: Store)
      ensures this.store == store
    {
      this.store := store;
    }

    /** The binding a request may work on: none, the only one, or an error. */
    method GetSpaceBinding(space: string, mur: string) returns (found: Result<Option<string>, ()>)
      ensures found == Found(store.bindings, space, mur)
    {
      FoundExactly(store.bindings, space, mur);
      var names := Matching(store.bindings, space, mur);
      if names == {} {
        return Ok(None);
      }
      var n :| n in names;
      if |names| > 1 {
        assert names != {n};
        return Err(());
      }
      OnlyElement(names, n);
      return Ok(Some(n));
    }

    method UpdateExistingSpaceBinding(n: string, r: Request, c: Calls) returns (ok: bool)
      modifies store`bindings
      ensures (store.bindings, ok) == UpdatedBinding(old(store.bindings), n, r, c)
    {
      if n !in store.bindings || store.bindings[n].deletedAt.Some? {
        return false;
      }
      if store.bindings[n].role == r.role {
        return true;
      }
      if c.updateFails {
        return false;
      }
      store.bindings := store.bindings[n := store.bindings[n].(role := r.role)];
      return true;
    }

    method CreateNewSpaceBinding(b: Binding, c: Calls) returns (ok: bool)
      modifies store`bindings
      ensures ok == !(c.statusFails || c.createFails || c.newName in old(store.bindings))
      ensures store.bindings == if ok then old(store.bindings)[c.newName := b] else old(store.bindings)
    {
      if c.statusFails || c.createFails || c.newName in store.bindings {
        return false;
      }
      store.bindings := store.bindings[c.newName := b];
      return true;
    }

    method EnsureSpaceBinding(key: Key, r: Request, c: Calls) returns (ok: bool)
      modifies store`bindings
      ensures (store.bindings, ok) == EnsuredBinding(old(store.bindings), key, r, c)
    {
      if c.space.None? || c.listFails {
        return false;
      }
      var found := GetSpaceBinding(c.space.value, r.mur);
      FoundExactly(store.bindings, c.space.value, r.mur);
      if found.Err? {
        return false;
      }
      if found.value.Some? && !Owns(key, store.bindings[found.value.value]) {
        return false;
      }
      if c.spaceBeingDeleted || r.mur == "" || !c.murUsable {
        return false;
      }
      if r.role == "" || c.tierRoles.None? || r.role !in c.tierRoles.value {
        return false;
      }
      if found.value.None? {
        ok := CreateNewSpaceBinding(Binding(c.space.value, r.mur, c.initialRole, key, None), c);
      } else {
        ok := UpdateExistingSpaceBinding(found.value.value, r, c);
      }
    }

    method DeleteSpaceBinding(n: string, c: Calls) returns (ok: bool)
      requires n in store.bindings
      modifies store`bindings
      ensures (store.bindings, ok) == DeletedBinding(old(store.bindings), n, c)
    {
      var b := store.bindings[n];
      if b.deletedAt.Some? {
        return c.now - b.deletedAt.value <= 120;
      }
      if c.deleteFails {
        return false;
      }
      if c.lingers {
        store.bindings := store.bindings[n := b.(deletedAt := Some(c.now))];
      } else {
        store.bindings := store.bindings - {n};
      }
      return true;
    }

    method EnsureSpaceBindingDeletion(key: Key, c: Calls) returns (report: Report)
      requires key in store.requests
      modifies store
      ensures (store.Contents(), report) == EnsuredDeletion(old(store.Contents()), key, old(store.requests[key]), c)
    {
      var r := store.requests[key];
      if !r.finalizer {
        return Absent;
      }
      if c.space.None? || c.listFails {
        return Error;
      }
      var found := GetSpaceBinding(c.space.value, r.mur);
      FoundExactly(store.bindings, c.space.value, r.mur);
      if found.Err? {
        return Error;
      }
      if found.value.Some? && Owns(key, store.bindings[found.value.value]) {
        var ok := DeleteSpaceBinding(found.value.value, c);
        return if ok && !c.statusFails then Terminating else Error;
      }
      if c.finalizerFails {
        return Error;
      }
      store.requests := store.requests - {key};
      return Released;
    }

    method Reconcile(key: Key, c: Calls) returns (report: Report)
      modifies store
      ensures (store.Contents(), report) == ReconciledRequest(old(store.Contents()), key, c)
    {
      if key !in store.requests {
        return Absent;
      }
      var r := store.requests[key];
      if r.beingDeleted {
        report := EnsureSpaceBindingDeletion(key, c);
        return;
      }
      if !r.finalizer && c.finalizerFails {
        return Error;
      }
      store.requests := store.requests[key := r.(finalizer := true)];
      var ok := EnsureSpaceBinding(key, r, c);
      return if ok && !c.statusFails then Ready else Error;
    }

    /** The UserSignup controller's version. */
    method EnsureSignupBinding(space: string, mur: string, c: Calls) returns (ok: bool)
      modifies store`bindings
      ensures (store.bindings, ok) == SignupBound(old(store.bindings), space, mur, c)
    {
      if c.listFails {
        return false;
      }
      var found := GetSpaceBinding(space, mur);
      FoundExactly(store.bindings, space, mur);
      if found.Err? {
        return false;
      }
      if found.value.Some? {
        return store.bindings[found.value.value].deletedAt.None?;
      }
      if c.createFails || c.newName in store.bindings {
        return false;
      }
      store.bindings := store.bindings[c.newName := Binding(space, mur, c.initialRole, NO_REQUEST, None)];
      return true;
    }
  }

  lemma OnlyElement<T>(names: set<T>, n: T)
    requires n in names && |names| <= 1
    ensures names == {n}
  {
    assert |names - {n}| == |names| - 1;
    assert names == (names - {n}) + {n};
  }
}
