/**
 * The NSTemplateTier controller: one TierTemplateRevision (TTR) per template of a tier, named in
 * `status.revisions`.
 */
module TierRevisions {
  import opened Base
  import opened Tiers

  /** `objects` and `parameters` are compared as a whole. */
  datatype Revision = Revision(tier: string, template: string, objects: string, parameters: string)

  /** A template whose objects are nil does not support revisions. */
  datatype Store = Store(templates: map<string, Option<string>>, ttrs: map<Name, Revision>, serial: nat)

  function Create(store: Store, tier: string, ref: string, objects: string, parameters: string): (Store, Name) {
    var name := Generated(tier, ref, store.serial);
    (store.(ttrs := store.ttrs[name := Revision(tier, ref, objects, parameters)], serial := store.serial + 1), name)
  }

  /** The recorded revision of `ref` still has the template's objects and the tier's parameters. */
  predicate IsUpToDate(store: Store, name: Name, objects: string, parameters: string) {
    name in store.ttrs && store.ttrs[name].objects == objects && store.ttrs[name].parameters == parameters
  }

  /** What one ref of the tier leads to; `ok` says whether the client calls made for it succeed. */
  function EnsureRef(store: Store, tier: string, parameters: string, recorded: map<string, Name>, ref: string, ok: bool)
    : (Store, Result<(bool, Name), ()>)
  {
    if !ok || ref !in store.templates then (store, Err(()))
    else if store.templates[ref].None? then (store, Ok((ref !in recorded, Plain(ref))))
    else
      var objects := store.templates[ref].value;
      if ref in recorded && IsUpToDate(store, recorded[ref], objects, parameters)
          then (store, Ok((false, recorded[ref])))
      else
        var (store', name) := Create(store, tier, ref, objects, parameters);
        (store', Ok((true, name)))
  }

  /** The refs one after the other; an error stops the loop but keeps the revisions created before it. */
  function EnsureRefs(store: Store, tier: string, parameters: string, recorded: map<string, Name>, refs: seq<string>,
                      ok: seq<bool>)
    : (Store, Result<(bool, map<string, Name>), ()>)
    requires |ok| == |refs|
  {
    if refs == [] then (store, Ok((false, map[])))
    else
      var n := |refs| - 1;
      match EnsureRefs(store, tier, parameters, recorded, refs[..n], ok[..n])
      case (store', Err(_)) => (store', Err(()))
      case (store', Ok((created, revisions))) =>
        match EnsureRef(store', tier, parameters, recorded, refs[n], ok[n])
        case (store'', Err(_)) => (store'', Err(()))
        case (store'', Ok((new_, name))) => (store'', Ok((created || new_, revisions[refs[n] := name])))
  }

  // ---------- The controller ----------

  class Reconciler {
    var store: Store

    constructor (store: Store)
      ensures this.store == store
    {
      this.store := store;
    }

    method EnsureTTRForTemplate(tier: string, parameters: string, recorded: map<string, Name>, ref: string, ok: bool)
      returns (r: Result<(bool, Name), ()>)
      modifies this
      ensures (store, r) == EnsureRef(old(store), tier, parameters, recorded, ref, ok)
    {
      if !ok || ref !in store.templates {
        return Err(());
      }
      if store.templates[ref].None? {
        return Ok((ref !in recorded, Plain(ref)));
      }
      var objects := store.templates[ref].value;
      if ref in recorded && recorded[ref] in store.ttrs {
        var ttr := store.ttrs[recorded[ref]];
        if ttr.objects == objects && ttr.parameters == parameters {
          return Ok((false, recorded[ref]));
        }
      }
      var name := Generated(tier, ref, store.serial);
      store := store.(ttrs := store.ttrs[name := Revision(tier, ref, objects, parameters)], serial := store.serial + 1);
      return Ok((true, name));
    }

    /** Walks the refs; `status.revisions` becomes the map that is returned. */
    method EnsureRevision(tier: string, parameters: string, recorded: map<string, Name>, refs: seq<string>,
                          ok: seq<bool>)
      returns (r: Result<(bool, map<string, Name>), ()>)
      requires |ok| == |refs|
      modifies this
      ensures (store, r) == EnsureRefs(old(store), tier, parameters, recorded, refs, ok)
    {
      var created, revisions := false, map[];
      for i := 0 to |refs|
        invariant (store, Ok((created, revisions)))
                    == EnsureRefs(old(store), tier, parameters, recorded, refs[..i], ok[..i])
      {
        assert refs[..i + 1][..i] == refs[..i] && ok[..i + 1][..i] == ok[..i];
        var one := EnsureTTRForTemplate(tier, parameters, recorded, refs[i], ok[i]);
        if one.Err? {
          ErrorStops(old(store), tier, parameters, recorded, refs, ok, i + 1);
          return Err(());
        }
        created, revisions := created || one.value.0, revisions[refs[i] := one.value.1];
      }
      assert refs[..|refs|] == refs && ok[..|refs|] == ok;
      r := Ok((created, revisions));
    }
  }

  lemma {:induction false} ErrorStops(store: Store, tier: string, parameters: string, recorded: map<string, Name>,
                                      refs: seq<string>, ok: seq<bool>, n: nat)
    requires |ok| == |refs| && n <= |refs|
    requires EnsureRefs(store, tier, parameters, recorded, refs[..n], ok[..n]).1.Err?
    ensures EnsureRefs(store, tier, parameters, recorded, refs, ok)
            == EnsureRefs(store, tier, parameters, recorded, refs[..n], ok[..n])
    decreases |refs|
  {
    if n < |refs| {
      var m := |refs| - 1;
      assert refs[..m][..n] == refs[..n] && ok[..m][..n] == ok[..n];
      ErrorStops(store, tier, parameters, recorded, refs[..m], ok[..m], n);
    } else {
      assert refs[..n] == refs && ok[..n] == ok;
    }
  }

  // ---------- The revision map is exact ----------

  /** The entry for `ref` is what the current template and parameters ask for. */
  ghost predicate IsCurrent(store: Store, ref: string, name: Name, parameters: string) {
    && ref in store.templates
    && if store.templates[ref].None? then name == Plain(ref)
       else IsUpToDate(store, name, store.templates[ref].value, parameters)
  }

  /** Revisions are only added, under serial numbers not used before. */
  ghost predicate Grows(store: Store, store': Store) {
    && store'.templates == store.templates && store.serial <= store'.serial
    && (forall n | n in store.ttrs :: n in store'.ttrs)
    && (forall n | n in store.ttrs && n in store'.ttrs && IsOld(n, store.serial) :: store'.ttrs[n] == store.ttrs[n])
    && (forall n | n in store'.ttrs && n !in store.ttrs :: n.Generated? && store.serial <= n.serial < store'.serial)
  }

  predicate IsOld(n: Name, serial: nat) {
    n.Generated? ==> n.serial < serial
  }

  ghost predicate AllOld(store: Store) {
    forall n | n in store.ttrs :: IsOld(n, store.serial)
  }

  lemma {:induction false} EnsureRefsGrows(store: Store, tier: string, parameters: string, recorded: map<string, Name>,
                                           refs: seq<string>, ok: seq<bool>)
    requires |ok| == |refs| && AllOld(store)
    ensures var (store', r) := EnsureRefs(store, tier, parameters, recorded, refs, ok);
            Grows(store, store') && AllOld(store')
  {
    if refs != [] {
      EnsureRefsGrows(store, tier, parameters, recorded, refs[..|refs| - 1], ok[..|refs| - 1]);
    }
  }

  /**
   * After a successful call the keys are exactly the refs, and every entry is current: the template's
   * own name, or an existing revision with the template's objects and the tier's parameters.
   */
  lemma {:induction false} RevisionsAreExact(store: Store, tier: string, parameters: string,
                                             recorded: map<string, Name>,
                                             refs: seq<string>, ok: seq<bool>)
    requires |ok| == |refs| && AllOld(store)
    requires EnsureRefs(store, tier, parameters, recorded, refs, ok).1.Ok?
    ensures var (store', r) := EnsureRefs(store, tier, parameters, recorded, refs, ok);
            && (forall ref :: ref in refs <==> ref in r.value.1)
            && (forall ref | ref in r.value.1 :: IsCurrent(store', ref, r.value.1[ref], parameters))
  {
    if refs != [] {
      var n := |refs| - 1;
      RevisionsAreExact(store, tier, parameters, recorded, refs[..n], ok[..n]);
      EnsureRefsGrows(store, tier, parameters, recorded, refs[..n], ok[..n]);
      assert refs == refs[..n] + [refs[n]];
      var store' := EnsureRefs(store, tier, parameters, recorded, refs[..n], ok[..n]).0;
      OneRefIsCurrent(store', tier, parameters, recorded, refs[n], ok[n]);
    }
  }

  /** What one ref leads to is current, and what was current stays so. */
  lemma OneRefIsCurrent(store: Store, tier: string, parameters: string, recorded: map<string, Name>, ref: string,
                        ok: bool)
    requires AllOld(store) && EnsureRef(store, tier, parameters, recorded, ref, ok).1.Ok?
    ensures var (store', r) :=
            EnsureRef(store, tier, parameters, recorded, ref, ok); IsCurrent(store', ref, r.value.1, parameters)
    ensures forall other, name | IsCurrent(store, other, name, parameters) ::
              IsCurrent(EnsureRef(store, tier, parameters, recorded, ref, ok).0, other, name, parameters)
  {
  }

  /** Each entry is kept, is a template without revisions, or is a name never used before. */
  lemma {:induction false} EntriesAreKeptOrFresh(store: Store, tier: string, parameters: string,
                                                 recorded: map<string, Name>,
                                                 refs: seq<string>, ok: seq<bool>, ref: string)
    requires |ok| == |refs| && AllOld(store)
    requires EnsureRefs(store, tier, parameters, recorded, refs, ok).1.Ok?
             && ref in EnsureRefs(store, tier, parameters, recorded, refs, ok).1.value.1
    ensures var (store', r) := EnsureRefs(store, tier, parameters, recorded, refs, ok);
            var name := r.value.1[ref];
            && ref in store.templates
            && (|| (store.templates[ref].None? && name == Plain(ref))
                || (store.templates[ref].Some? && ref in recorded && name == recorded[ref] && name in store'.ttrs)
                || (store.templates[ref].Some? && name in store'.ttrs && name.Generated? && name.tier == tier
                      && store.serial <= name.serial < store'.serial))
  {
    var n := |refs| - 1;
    EnsureRefsGrows(store, tier, parameters, recorded, refs[..n], ok[..n]);
    if ref != refs[n] {
      EntriesAreKeptOrFresh(store, tier, parameters, recorded, refs[..n], ok[..n], ref);
    }
  }

  /**
   * The flag that asks for another run says exactly that something is new: a revision was made, or a template without
   * objects had no entry.
   */
  lemma {:induction false} CreatedExactly(store: Store, tier: string, parameters: string, recorded: map<string, Name>,
                                          refs: seq<string>, ok: seq<bool>)
    requires |ok| == |refs| && AllOld(store) && EnsureRefs(store, tier, parameters, recorded, refs, ok).1.Ok?
    ensures var (store', r) := EnsureRefs(store, tier, parameters, recorded, refs, ok);
            && (r.value.0 <==> store'.ttrs != store.ttrs || exists ref :: IsNewPlain(store, recorded, refs, ref))
            && (store'.ttrs == store.ttrs ==> store' == store)
  {
    if refs != [] {
      var n := |refs| - 1;
      var store1 := EnsureRefs(store, tier, parameters, recorded, refs[..n], ok[..n]).0;
      CreatedExactly(store, tier, parameters, recorded, refs[..n], ok[..n]);
      EnsureRefsGrows(store, tier, parameters, recorded, refs[..n], ok[..n]);
      assert refs == refs[..n] + [refs[n]];
      OneRefCreates(store, store1, tier, parameters, recorded, refs[n], ok[n]);
      forall ref | IsNewPlain(store, recorded, refs[..n], ref) ensures IsNewPlain(store, recorded, refs, ref) {
      }
      forall ref | IsNewPlain(store, recorded, refs, ref)
        ensures ref == refs[n] || IsNewPlain(store, recorded, refs[..n], ref)
      {
      }
      if store.templates[refs[n]].None? && refs[n] !in recorded {
        assert IsNewPlain(store, recorded, refs, refs[n]);
      }
    }
  }

  ghost predicate IsNewPlain(store: Store, recorded: map<string, Name>, refs: seq<string>, ref: string) {
    ref in refs && ref in store.templates && store.templates[ref].None? && ref !in recorded
  }

  lemma OneRefCreates(store: Store, store1: Store, tier: string, parameters: string, recorded: map<string, Name>,
                      ref: string, ok: bool)
    requires AllOld(store) && AllOld(store1) && Grows(store, store1)
    requires EnsureRef(store1, tier, parameters, recorded, ref, ok).1.Ok?
    ensures var (store2, r) := EnsureRef(store1, tier, parameters, recorded, ref, ok);
            && (r.value.0 <==> store2.ttrs != store1.ttrs || (store1.templates[ref].None? && ref !in recorded))
            && (store2.ttrs == store1.ttrs ==> store2 == store1)
            && (store2.ttrs == store.ttrs ==> store1.ttrs == store.ttrs)
  {
    var (store2, r) := EnsureRef(store1, tier, parameters, recorded, ref, ok);
    var name := Generated(tier, ref, store1.serial);
    assert name !in store1.ttrs;
    if store2 != store1 {
      assert name in store2.ttrs && name !in store.ttrs;
    }
  }

  // ---------- A second call does nothing ----------

  /** Once every entry is current, a call over the same refs, in any order and with any repetition, creates nothing. */
  lemma {:induction false} CurrentIsStable(store: Store, tier: string, parameters: string, recorded: map<string, Name>,
                                           refs: seq<string>, ok: seq<bool>)
    requires |ok| == |refs| && forall i | 0 <= i < |ok| :: ok[i]
    requires forall ref | ref in refs :: ref in recorded && IsCurrent(store, ref, recorded[ref], parameters)
    ensures EnsureRefs(store, tier, parameters, recorded, refs, ok)
            == (store, Ok((false, map ref | ref in recorded && ref in refs :: recorded[ref])))
  {
    if refs != [] {
      var n := |refs| - 1;
      CurrentIsStable(store, tier, parameters, recorded, refs[..n], ok[..n]);
      assert refs[n] in refs && ok[n];
      var before := map ref | ref in recorded && ref in refs[..n] :: recorded[ref];
      assert before[refs[n] := recorded[refs[n]]] == map ref | ref in recorded && ref in refs :: recorded[ref];
    }
  }

  /** An immediate second call, over the refs as the map iteration happens to order them then, changes nothing. */
  lemma EnsureIsIdempotent(store: Store, tier: string, parameters: string, recorded: map<string, Name>,
                           refs: seq<string>, ok: seq<bool>, store': Store, created: bool, revisions: map<string, Name>,
                           refs': seq<string>, ok': seq<bool>)
    requires |ok| == |refs| && |ok'| == |refs'| && AllOld(store)
    requires (forall ref :: ref in refs <==> ref in refs') && (forall i | 0 <= i < |ok'| :: ok'[i])
    requires EnsureRefs(store, tier, parameters, recorded, refs, ok) == (store', Ok((created, revisions)))
    ensures EnsureRefs(store', tier, parameters, revisions, refs', ok') == (store', Ok((false, revisions)))
  {
    assert (forall ref :: ref in refs <==> ref in revisions)
      && (forall ref | ref in revisions :: IsCurrent(store', ref, revisions[ref], parameters)) by {
      RevisionsAreExact(store, tier, parameters, recorded, refs, ok);
    }
    SecondCall(store', tier, parameters, revisions, refs', ok');
  }

  lemma SecondCall(store: Store, tier: string, parameters: string, recorded: map<string, Name>, refs: seq<string>,
                   ok: seq<bool>)
    requires |ok| == |refs| && forall i | 0 <= i < |ok| :: ok[i]
    requires forall ref :: ref in refs <==> ref in recorded
    requires forall ref | ref in recorded :: IsCurrent(store, ref, recorded[ref], parameters)
    ensures EnsureRefs(store, tier, parameters, recorded, refs, ok) == (store, Ok((false, recorded)))
  {
    CurrentIsStable(store, tier, parameters, recorded, refs, ok);
    assert (map ref | ref in recorded && ref in refs :: recorded[ref]) == recorded;
  }
}
