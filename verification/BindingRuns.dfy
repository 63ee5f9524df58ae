/** What whole runs of the controllers that make SpaceBindings keep. */
module BindingRuns {
  import opened Base
  import opened Bindings

  datatype Event =
    | CreateRequest(key: Key, mur: string, role: string)
    | EditRole(key: Key, role: string)
    | EditMur(key: Key, mur: string)
    | DeleteRequest(key: Key)
    | ReconcileRequest(key: Key, calls: Calls)
    | Signup(space: string, mur: string, calls: Calls)
    | MarkBinding(name: string, at: int)
    | Vanish(name: string)

  /**
   * Requests have names, and a namespace leads to the one Space it was provisioned for, or to none when reading
   * fails.
   */
  ghost predicate Possible(e: Event, spaceOf: map<string, string>) {
    && (e.CreateRequest? ==> e.key != NO_REQUEST)
    && (e.ReconcileRequest? && e.calls.space.Some? ==>
          e.key.namespace in spaceOf && e.calls.space.value == spaceOf[e.key.namespace])
  }

  ghost function Next(w: World, e: Event): World {
    match e
    case CreateRequest(k, mur, role) =>
      if k in w.requests then w else w.(requests := w.requests[k := Request(mur, role, false, false)])
    case EditRole(k, role) =>
      if k in w.requests then w.(requests := w.requests[k := w.requests[k].(role := role)])
      else w
    case EditMur(k, mur) => if k in w.requests then w.(requests := w.requests[k := w.requests[k].(mur := mur)]) else w
    case DeleteRequest(k) =>
      if k !in w.requests then w
      else if w.requests[k].finalizer then w.(requests := w.requests[k := w.requests[k].(beingDeleted := true)])
      else w.(requests := w.requests - {k})
    case ReconcileRequest(k, c) => ReconciledRequest(w, k, c).0
    case Signup(space, mur, c) => w.(bindings := SignupBound(w.bindings, space, mur, c).0)
    case MarkBinding(n, at) =>
      if n in w.bindings then w.(bindings := w.bindings[n := w.bindings[n].(deletedAt := Some(at))]) else w
    case Vanish(n) => w.(bindings := w.bindings - {n})
  }

  ghost function Run(events: seq<Event>): World
    decreases |events|
  {
    if events == [] then World(map[], map[]) else Next(Run(events[..|events| - 1]), events[|events| - 1])
  }

  // ---------- At most one binding ----------

  lemma EventKeepsUnique(w: World, e: Event)
    requires Unique(w.bindings)
    ensures Unique(Next(w, e).bindings)
  {
    if e.ReconcileRequest? {
      RequestKeeps(w, e.key, e.calls);
    } else if e.Signup? {
      SignupKeeps(w.bindings, e.space, e.mur, e.calls);
    }
  }

  /**
   * Whatever is edited, deleted or fails, and however the two controllers interleave, a user has at most one
   * binding to a Space.
   */
  lemma {:induction false} AtMostOneBinding(events: seq<Event>)
    ensures Unique(Run(events).bindings)
    decreases |events|
  {
    if events != [] {
      AtMostOneBinding(events[..|events| - 1]);
      EventKeepsUnique(Run(events[..|events| - 1]), events[|events| - 1]);
    }
  }

  // ---------- No orphans ----------

  /** Every binding made by a request can still be found and deleted by it. */
  ghost predicate Traced(w: World, spaceOf: map<string, string>) {
    forall n | n in w.bindings && w.bindings[n].request != NO_REQUEST :: TracedTo(w, spaceOf, w.bindings[n])
  }

  ghost predicate TracedTo(w: World, spaceOf: map<string, string>, b: Binding) {
    && b.request in w.requests && w.requests[b.request].finalizer && w.requests[b.request].mur == b.mur
    && b.request.namespace in spaceOf && spaceOf[b.request.namespace] == b.space
  }

  /** A request is released only when no binding carries its name any more. */
  lemma ReleasedMeansNoBinding(w: World, spaceOf: map<string, string>, key: Key, c: Calls)
    requires Unique(w.bindings) && Traced(w, spaceOf) && Possible(ReconcileRequest(key, c), spaceOf)
             && key != NO_REQUEST
    requires ReconciledRequest(w, key, c).1.Released?
    ensures ReconciledRequest(w, key, c).0.bindings == w.bindings
    ensures forall n | n in w.bindings :: !Owns(key, w.bindings[n])
  {
    var r := w.requests[key];
    FoundExactly(w.bindings, c.space.value, r.mur);
    OwnedAreFound(w, spaceOf, key);
  }

  lemma OwnedAreFound(w: World, spaceOf: map<string, string>, key: Key)
    requires Traced(w, spaceOf) && key in w.requests && key != NO_REQUEST && key.namespace in spaceOf
    ensures forall n | n in w.bindings && Owns(key, w.bindings[n]) ::
            n in Matching(w.bindings, spaceOf[key.namespace], w.requests[key].mur)
  {
    forall n | n in w.bindings && Owns(key, w.bindings[n])
      ensures n in Matching(w.bindings, spaceOf[key.namespace], w.requests[key].mur)
    {
      assert TracedTo(w, spaceOf, w.bindings[n]);
    }
  }

  lemma ReconcileKeepsTraced(w: World, spaceOf: map<string, string>, key: Key, c: Calls)
    requires Unique(w.bindings) && Traced(w, spaceOf) && Possible(ReconcileRequest(key, c), spaceOf)
             && key != NO_REQUEST
    ensures Traced(ReconciledRequest(w, key, c).0, spaceOf)
  {
    RequestKeeps(w, key, c);
    var (x, report) := ReconciledRequest(w, key, c);
    if report.Released? {
      ReleasedMeansNoBinding(w, spaceOf, key, c);
    } else if key in w.requests {
      if !w.requests[key].beingDeleted {
        EnsuringKeeps(w.bindings, key, w.requests[key], c);
      }
      forall n | n in x.bindings && x.bindings[n].request != NO_REQUEST ensures TracedTo(x, spaceOf, x.bindings[n]) {
        if n in w.bindings {
          assert TracedTo(w, spaceOf, w.bindings[n]);
        }
      }
    }
  }

  lemma SignupKeepsTraced(w: World, spaceOf: map<string, string>, e: Event)
    requires Unique(w.bindings) && Traced(w, spaceOf) && e.Signup?
    ensures Traced(Next(w, e), spaceOf)
  {
    SignupKeeps(w.bindings, e.space, e.mur, e.calls);
    var x := Next(w, e);
    forall n | n in x.bindings && x.bindings[n].request != NO_REQUEST ensures TracedTo(x, spaceOf, x.bindings[n]) {
      assert n in w.bindings && TracedTo(w, spaceOf, w.bindings[n]);
    }
  }

  /** The request keeps naming the user it names, or has no binding yet. A caller can check this before the edit. */
  predicate IsHarmless(w: World, e: Event) {
    e.EditMur? && e.key in w.requests && e.mur != w.requests[e.key].mur ==>
      forall n | n in w.bindings :: !Owns(e.key, w.bindings[n])
  }

  lemma EventKeepsTraced(w: World, spaceOf: map<string, string>, e: Event)
    requires Unique(w.bindings) && Traced(w, spaceOf) && Possible(e, spaceOf) && IsHarmless(w, e)
    requires NO_REQUEST !in w.requests
    ensures Traced(Next(w, e), spaceOf) && NO_REQUEST !in Next(w, e).requests
  {
    if e.ReconcileRequest? {
      if e.key in w.requests {
        ReconcileKeepsTraced(w, spaceOf, e.key, e.calls);
        RequestKeeps(w, e.key, e.calls);
      }
    } else if e.Signup? {
      SignupKeepsTraced(w, spaceOf, e);
    } else {
      var x := Next(w, e);
      forall n | n in x.bindings && x.bindings[n].request != NO_REQUEST ensures TracedTo(x, spaceOf, x.bindings[n]) {
        assert n in w.bindings && TracedTo(w, spaceOf, w.bindings[n]);
      }
    }
  }

  /** Events that can happen one after the other, without an edit that leaves a binding behind. */
  ghost predicate IsHarmlessRun(spaceOf: map<string, string>, events: seq<Event>)
    decreases |events|
  {
    events == []
    || (var (before, e) := (events[..|events| - 1], events[|events| - 1]);
        IsHarmlessRun(spaceOf, before) && Possible(e, spaceOf) && IsHarmless(Run(before), e))
  }

  /**
   * As long as requests change the user they name only before they have a binding, every binding made by a
   * request is owned by a living request that will delete it.
   */
  lemma {:induction false} NoOrphans(spaceOf: map<string, string>, events: seq<Event>)
    requires IsHarmlessRun(spaceOf, events)
    ensures Traced(Run(events), spaceOf) && NO_REQUEST !in Run(events).requests
    decreases |events|
  {
    if events != [] {
      var before := events[..|events| - 1];
      NoOrphans(spaceOf, before);
      AtMostOneBinding(before);
      EventKeepsTraced(Run(before), spaceOf, events[|events| - 1]);
    }
  }

  /** The condition is exact, edit by edit: every other edit of the user loses the trace of a binding. */
  lemma EditKeepsTracedExactly(w: World, spaceOf: map<string, string>, key: Key, mur: string)
    requires Traced(w, spaceOf) && key != NO_REQUEST
    ensures Traced(Next(w, EditMur(key, mur)), spaceOf) <==> IsHarmless(w, EditMur(key, mur))
  {
    var x := Next(w, EditMur(key, mur));
    forall n | n in w.bindings && w.bindings[n].request != NO_REQUEST ensures TracedTo(w, spaceOf, w.bindings[n]) {
    }
    if !IsHarmless(w, EditMur(key, mur)) {
      var n :| n in w.bindings && Owns(key, w.bindings[n]);
      assert w.bindings[n].request == key && !TracedTo(x, spaceOf, x.bindings[n]);
    }
  }

  /** Calls of a reconcile that all succeed. */
  function QuietCalls(space: string): Calls {
    Calls(0, Some(space), false, true, Some({}), false, false, false, false, false, false, false, "", "")
  }

  /**
   * And such an edit leaves the binding behind for good: when the request is deleted next, its reconcile releases it
   * and no binding is touched.
   */
  lemma HarmfulEditOrphans(w: World, spaceOf: map<string, string>, key: Key, mur: string)
    requires Unique(w.bindings) && Traced(w, spaceOf) && key != NO_REQUEST && !IsHarmless(w, EditMur(key, mur))
    ensures key.namespace in spaceOf && Possible(ReconcileRequest(key, QuietCalls(spaceOf[key.namespace])), spaceOf)
    ensures var x :=
            Next(Next(Next(w, EditMur(key, mur)), DeleteRequest(key)),
                ReconcileRequest(key, QuietCalls(spaceOf[key.namespace])));
            key !in x.requests && x.bindings == w.bindings && exists n :: n in x.bindings && Owns(key, x.bindings[n])
  {
    var n :| n in w.bindings && Owns(key, w.bindings[n]);
    assert TracedTo(w, spaceOf, w.bindings[n]);
    OwnedAreFound(w, spaceOf, key);
    var w2 := Next(Next(w, EditMur(key, mur)), DeleteRequest(key));
    assert w2.requests[key].beingDeleted && w2.requests[key].finalizer && w2.requests[key].mur == mur
        && w2.bindings == w.bindings;
    ReleasedWithoutOwned(w2, key, spaceOf[key.namespace]);
  }

  lemma ReleasedWithoutOwned(w: World, key: Key, space: string)
    requires Unique(w.bindings) && key in w.requests && w.requests[key].beingDeleted && w.requests[key].finalizer
    requires forall n | n in Matching(w.bindings, space, w.requests[key].mur) :: !Owns(key, w.bindings[n])
    ensures ReconciledRequest(w, key, QuietCalls(space)) == (w.(requests := w.requests - {key}), Released)
  {
    FoundExactly(w.bindings, space, w.requests[key].mur);
    OneMatches(w.bindings, space, w.requests[key].mur);
  }

  lemma OneMatches(bindings: map<string, Binding>, space: string, mur: string)
    requires Unique(bindings)
    ensures Found(bindings, space, mur).Ok?
  {
    var names := Matching(bindings, space, mur);
    FoundExactly(bindings, space, mur);
    if names != {} {
      var n :| n in names;
      assert forall m :: m in names ==> m == n;
      assert names == {n};
    }
  }

  // ---------- The role ----------

  /** Two reconciles in a row that report ready leave the requested role on the binding. */
  lemma ReadyTwiceMeansRole(w: World, key: Key, c: Calls, d: Calls)
    requires ReconciledRequest(w, key, c).1.Ready? && c.space == d.space
    requires ReconciledRequest(ReconciledRequest(w, key, c).0, key, d).1.Ready?
    ensures c.space.Some?
    ensures exists n :: BoundBy(ReconciledRequest(ReconciledRequest(w, key, c).0, key, d).0, key, c.space.value, n)
                        && ReconciledRequest(ReconciledRequest(w, key, c).0, key, d).0.bindings[n].role
                              == w.requests[key].role
  {
    ReadyMeansBound(w, key, c);
    var x := ReconciledRequest(w, key, c).0;
    ReadyMeansBound(x, key, d);
    var m :| BoundBy(x, key, c.space.value, m);
    var y := ReconciledRequest(x, key, d).0;
    var n :| BoundBy(y, key, c.space.value, n)
             && (y.bindings[n].role == x.requests[key].role
                   || (n !in x.bindings && y.bindings[n].role == d.initialRole));
    assert x.requests[key].role == w.requests[key].role;
    FoundExactly(x.bindings, c.space.value, x.requests[key].mur);
    assert Found(x.bindings, c.space.value, x.requests[key].mur) == Ok(Some(m));
  }
}
