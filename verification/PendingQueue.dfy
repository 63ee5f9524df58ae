/** The cache of pending objects (UserSignups or Spaces waiting for capacity), oldest first. */
module PendingQueue {
  import opened Base

  /** An object as stored; its creation time never changes. */
  datatype Object = Object(created: int, pending: bool)

  type Store = map<string, Object>

  predicate IsPending(store: Store, name: string) {
    name in store && store[name].pending
  }

  // ---------- Taking the first ----------

  /** Drops names from the front until one is pending; `unreachable` names make the Get fail otherwise. */
  function FirstExisting(queue: seq<string>, store: Store, unreachable: set<string>): (seq<string>, Option<string>) {
    if queue == [] then (queue, None)
    else if queue[0] in unreachable then (queue, None)
    else if IsPending(store, queue[0]) then (queue, Some(queue[0]))
    else FirstExisting(queue[1..], store, unreachable)
  }

  /** Only names that are not pending are dropped, and the result is the first pending name. */
  lemma {:induction false} FirstExistingIsFirst(queue: seq<string>, store: Store)
    ensures var (rest, first) := FirstExisting(queue, store, {});
            && (first.Some? <==> exists n :: n in queue && IsPending(store, n))
            && (first.Some? ==> rest != [] && rest[0] == first.value && IsPending(store, first.value))
            && (first.None? ==> rest == [])
            && (forall n | n in queue && IsPending(store, n) :: n in rest)
            && (forall n | n in rest :: n in queue)
  {
    if queue != [] {
      FirstExistingIsFirst(queue[1..], store);
      assert queue == [queue[0]] + queue[1..];
    }
  }

  // ---------- Sorting ----------

  /** Sorted by the creation times in `born`. */
  ghost predicate SortedByAge(queue: seq<string>, born: map<string, int>) {
    && (forall n | n in queue :: n in born)
    && forall i, j | 0 <= i < j < |queue| :: born[queue[i]] <= born[queue[j]]
  }

  lemma {:induction false} FirstExistingStaysSorted(queue: seq<string>, store: Store, unreachable: set<string>,
                                                    born: map<string, int>)
    requires SortedByAge(queue, born)
    ensures SortedByAge(FirstExisting(queue, store, unreachable).0, born)
  {
    if queue != [] {
      assert queue == [queue[0]] + queue[1..];
      FirstExistingStaysSorted(queue[1..], store, unreachable, born);
    }
  }

  function Births(store: Store): map<string, int> {
    map n | n in store :: store[n].created
  }

  /** What a reload may append: the pending objects, each once, in some order sorted by creation time. */
  ghost predicate IsListing(names: seq<string>, store: Store) {
    && SortedByAge(names, Births(store))
    && (forall n :: n in names <==> IsPending(store, n))
    && Distinct(names)
  }

  method ListPending(store: Store) returns (names: seq<string>)
    ensures IsListing(names, store)
  {
    names := [];
    var rest := store.Keys;
    while rest != {}
      invariant rest <= store.Keys
      invariant SortedByAge(names, Births(store))
      invariant forall n :: n in names <==> n in store.Keys - rest && store[n].pending
      invariant Distinct(names)
      decreases |rest|
    {
      var n :| n in rest;
      if store[n].pending {
        names := InsertByAge(names, n, store);
      }
      rest := rest - {n};
    }
  }

  lemma InsertedAt(names: seq<string>, i: nat, n: string, k: nat)
    requires i <= |names| && k <= |names|
    ensures (names[..i] + [n] + names[i..])[k] == if k < i then names[k] else if k == i then n else names[k - 1]
  {
  }

  lemma InsertedIsSorted(names: seq<string>, i: nat, n: string, born: map<string, int>)
    requires SortedByAge(names, born) && i <= |names| && n in born
    requires i > 0 ==> born[names[i - 1]] <= born[n]
    requires forall k | i <= k < |names| :: born[n] <= born[names[k]]
    ensures SortedByAge(names[..i] + [n] + names[i..], born)
  {
    var r := names[..i] + [n] + names[i..];
    InsertedMembers(names, i, n);
    forall j, k | 0 <= j < k < |r| ensures born[r[j]] <= born[r[k]] {
      InsertedAt(names, i, n, j);
      InsertedAt(names, i, n, k);
    }
  }

  lemma InsertedMembers(names: seq<string>, i: nat, n: string)
    requires i <= |names|
    ensures forall x :: x in names[..i] + [n] + names[i..] <==> x in names || x == n
  {
    assert names == names[..i] + names[i..];
  }

  lemma InsertedElements(names: seq<string>, i: nat, n: string)
    requires i <= |names| && n !in names && Distinct(names)
    ensures Distinct(names[..i] + [n] + names[i..])
    ensures forall x :: x in names[..i] + [n] + names[i..] <==> x in names || x == n
  {
    var r := names[..i] + [n] + names[i..];
    InsertedMembers(names, i, n);
    forall j, k | 0 <= j < k < |r| ensures r[j] != r[k] {
      InsertedAt(names, i, n, j);
      InsertedAt(names, i, n, k);
    }
  }

  method InsertByAge(names: seq<string>, n: string, store: Store) returns (r: seq<string>)
    requires n in store && n !in names && SortedByAge(names, Births(store)) && Distinct(names)
    ensures SortedByAge(r, Births(store)) && Distinct(r) && forall x :: x in r <==> x in names || x == n
  {
    assert forall k | 0 <= k < |names| :: names[k] in Births(store);
    var i := |names|;
    while i > 0 && store[n].created < store[names[i - 1]].created
      invariant 0 <= i <= |names|
      invariant forall k | 0 <= k < |names| :: names[k] in store
      invariant forall k | i <= k < |names| :: Births(store)[n] <= Births(store)[names[k]]
    {
      i := i - 1;
    }
    InsertedIsSorted(names, i, n, Births(store));
    InsertedElements(names, i, n);
    r := names[..i] + [n] + names[i..];
  }

  // ---------- The cache ----------

  /** What a call may leave in the queue and return. */
  ghost predicate Answers(queue: seq<string>, store: Store, unreachable: set<string>, listFails: bool,
                          queue': seq<string>, r: Option<string>) {
    var (rest, first) := FirstExisting(queue, store, unreachable);
    if first.Some? then queue' == rest && r == first
    else exists names :: (if listFails then names == [] else IsListing(names, store))
                         && (queue', r) == FirstExisting(rest + names, store, unreachable)
  }

  class Cache {
    var sortedObjectNames: seq<string>

    constructor ()
      ensures sortedObjectNames == []
    {
      sortedObjectNames := [];
    }

    method GetOldestPendingObject(store: Store, unreachable: set<string>, listFails: bool)
        returns (oldest: Option<string>)
      modifies this
      ensures Answers(old(sortedObjectNames), store, unreachable, listFails, sortedObjectNames, oldest)
    {
      oldest := GetFirstExisting(store, unreachable);
      if oldest.None? {
        var names := LoadLatest(store, listFails);
        oldest := GetFirstExisting(store, unreachable);
      }
    }

    method LoadLatest(store: Store, listFails: bool) returns (ghost names: seq<string>)
      modifies this
      ensures if listFails then names == [] else IsListing(names, store)
      ensures sortedObjectNames == old(sortedObjectNames) + names
    {
      names := [];
      if listFails {
        return;
      }
      var pending := ListPending(store);
      names := pending;
      ghost var before := sortedObjectNames;
      for i := 0 to |pending|
        invariant sortedObjectNames == before + pending[..i]
      {
        sortedObjectNames := sortedObjectNames + [pending[i]];
      }
    }

    /** Each recursive call works on a shorter queue. */
    method GetFirstExisting(store: Store, unreachable: set<string>) returns (first: Option<string>)
      modifies this
      ensures (sortedObjectNames, first) == FirstExisting(old(sortedObjectNames), store, unreachable)
      decreases |sortedObjectNames|
    {
      if |sortedObjectNames| == 0 {
        return None;
      }
      var name := sortedObjectNames[0];
      if name in unreachable {
        return None;
      }
      if name !in store || !store[name].pending {
        sortedObjectNames := sortedObjectNames[1..];
        first := GetFirstExisting(store, unreachable);
        return;
      }
      return Some(name);
    }
  }

  // ---------- Runs with a client that does not fail ----------

  /**
   * The stored objects, the queue, the creation time of every object there ever was, and the names that
   * have been pending all the time since the queue was last loaded with them.
   */
  datatype State = State(store: Store, queue: seq<string>, born: map<string, int>, waiting: set<string>)

  function PendingNames(store: Store): set<string> {
    set n | n in store && store[n].pending
  }

  /** Any change of the stored objects that keeps creation times. */
  ghost predicate Changes(s: State, t: State) {
    && t.queue == s.queue
    && (forall n | n in s.born :: n in t.born && t.born[n] == s.born[n])
    && (forall n | n in t.store :: n in t.born && t.born[n] == t.store[n].created)
    && t.waiting == s.waiting * PendingNames(t.store)
  }

  /** A call; when the queue ran empty it was loaded again with everything that is pending. */
  ghost predicate Asks(s: State, r: Option<string>, t: State) {
    && t.store == s.store && t.born == s.born
    && Answers(s.queue, s.store, {}, false, t.queue, r)
    && t.waiting == if FirstExisting(s.queue, s.store, {}).1.Some? then s.waiting else PendingNames(s.store)
  }

  ghost predicate Next(s: State, t: State) {
    Changes(s, t) || exists r :: Asks(s, r, t)
  }

  ghost predicate Inv(s: State) {
    && (forall n | n in s.store :: n in s.born && s.born[n] == s.store[n].created)
    && SortedByAge(s.queue, s.born)
    && (forall n | n in s.waiting :: n in s.queue && IsPending(s.store, n))
  }

  ghost predicate IsRun(trace: seq<State>) {
    && |trace| > 0 && trace[0].queue == [] && trace[0].waiting == {} && Births(trace[0].store) == trace[0].born
    && forall k | 0 < k < |trace| :: Next(trace[k - 1], trace[k])
  }

  lemma AskKeepsInv(s: State, r: Option<string>, t: State)
    requires Inv(s) && Asks(s, r, t)
    ensures Inv(t)
  {
    FirstExistingIsFirst(s.queue, s.store);
    FirstExistingStaysSorted(s.queue, s.store, {}, s.born);
    var (rest, first) := FirstExisting(s.queue, s.store, {});
    if first.None? {
      var names :| IsListing(names, s.store) && (t.queue, r) == FirstExisting(rest + names, s.store, {});
      assert rest + names == names;
      ListingIsSorted(names, s);
      FirstExistingIsFirst(names, s.store);
      FirstExistingStaysSorted(names, s.store, {}, s.born);
    }
  }

  lemma ListingIsSorted(names: seq<string>, s: State)
    requires Inv(s) && IsListing(names, s.store)
    ensures SortedByAge(names, s.born)
  {
    forall n | n in names ensures n in s.born && s.born[n] == Births(s.store)[n] {
      assert IsPending(s.store, n);
    }
  }

  lemma {:induction false} RunKeepsInv(trace: seq<State>, k: nat)
    requires IsRun(trace) && k < |trace|
    ensures Inv(trace[k])
  {
    if k == 0 {
      assert forall n | n in trace[0].store :: n in Births(trace[0].store);
    } else {
      var (s, t) := (trace[k - 1], trace[k]);
      RunKeepsInv(trace, k - 1);
      if r :| Asks(s, r, t) {
        AskKeepsInv(s, r, t);
      }
    }
  }

  /**
   * What a call returns, at any point of a run: nothing exactly when nothing is pending; otherwise a pending
   * object at least as old as everything that has been waiting since the queue was loaded, and after a reload
   * as everything pending.
   */
  lemma OldestIsReturned(trace: seq<State>, k: nat, r: Option<string>, t: State)
    requires IsRun(trace) && k < |trace| && Asks(trace[k], r, t)
    ensures r.None? <==> PendingNames(trace[k].store) == {}
    ensures r.Some? ==> IsPending(trace[k].store, r.value)
    ensures r.Some? ==> forall n | n in t.waiting ::
      IsPending(trace[k].store, n) && trace[k].store[r.value].created <= trace[k].store[n].created
    ensures FirstExisting(trace[k].queue, trace[k].store, {}).1.None? ==> t.waiting == PendingNames(trace[k].store)
    ensures forall n | n in trace[k].waiting :: n in t.queue
  {
    var s := trace[k];
    RunKeepsInv(trace, k);
    AskKeepsInv(s, r, t);
    FirstExistingIsFirst(s.queue, s.store);
    var (rest, first) := FirstExisting(s.queue, s.store, {});
    if first.None? {
      var names :| IsListing(names, s.store) && (t.queue, r) == FirstExisting(rest + names, s.store, {});
      assert rest + names == names;
      FirstExistingIsFirst(names, s.store);
      assert forall n | n in PendingNames(s.store) :: n in names;
    }
    assert r.Some? ==> r.value in PendingNames(s.store);
    if r.Some? {
      forall n | n in t.waiting ensures IsPending(s.store, n) && s.store[r.value].created <= s.store[n].created {
        assert n in t.queue && t.queue[0] == r.value;
      }
    }
  }
}
