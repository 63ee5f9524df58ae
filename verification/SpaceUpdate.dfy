/** Updating an existing NSTemplateSet: the comparison that decides, and the limiter that paces updates. */
module SpaceUpdate {
  import opened Base
  import opened Strings
  import opened Tiers
  import opened TemplateSetSpec

  /** Durations and instants are in nanoseconds. */
  const SECOND: int := 1_000_000_000

  const POSTPONE_DELAY: int := 2 * SECOND

  // ---------- What is stored, and when it is out of date ----------

  /** A store that serialises with `omitempty` gives an empty list back as nil. */
  function Stored(s: SetSpec, omitsEmpty: bool): SetSpec {
    if omitsEmpty && s.spaceRoles == Items([]) then s.(spaceRoles := Nil) else s
  }

  /** The annotation in the NSTemplateSet has to change to the one in the Space; Go reads a missing one as "". */
  predicate FeaturesChanged(current: Option<string>, wanted: Option<string>) {
    if wanted.Some? then (if current.Some? then current.value else "") != wanted.value else current.Some?
  }

  predicate NeedsUpdate(spec: SetSpec, features: Option<string>, wanted: SetSpec, wantedFeatures: Option<string>) {
    spec != wanted || FeaturesChanged(features, wantedFeatures)
  }

  /**
   * After an update, a run over the same grants listed in any order writes nothing, except in one case:
   * the store drops empty lists, the Space has bindings, and none is for a role of the tier.
   */
  lemma UpdateReachesFixpoint(wanted: SetSpec, again: SetSpec, tierName: string, tier: TierSpec,
                              revisions: map<string, Name>,
                              b: seq<SpaceBinding>, c: seq<SpaceBinding>, features: Option<string>, omitsEmpty: bool)
    requires Grants(b) == Grants(c)
    requires IsSpecFor(wanted, tierName, tier, revisions, b) && IsSpecFor(again, tierName, tier, revisions, c)
    ensures NeedsUpdate(Stored(wanted, omitsEmpty), features, again, features) <==>
            omitsEmpty && b != [] && UsedRoles(tier, b) == {}
  {
    SpecIsCanonical(wanted, again, tierName, tier, revisions, b, c);
    if b != [] {
      var roles :| IsSortedList(roles, UsedRoles(tier, b))
          && AreEntriesFor(wanted.spaceRoles.elems, roles, tier, revisions, b);
      EmptySortedList(roles, UsedRoles(tier, b));
    }
  }

  /**
   * Exactly the differences that matter are seen: the spec, and the annotation, where a missing one and an
   * empty one that is asked for are the same.
   */
  lemma EveryDifferenceIsSeen(spec: SetSpec, features: Option<string>, wanted: SetSpec, wantedFeatures: Option<string>)
    ensures NeedsUpdate(spec, features, wanted, wantedFeatures) <==>
            !(spec == wanted && (features == wantedFeatures || (features == None && wantedFeatures == Some(""))))
  {
  }

  // ---------- The limiter ----------

  datatype Limiter = Limiter(next: int, last: int)

  /** The successive readings of the clock during one call. */
  datatype Clock = Clock(checked: int, decided: int, scheduled: int, returned: int)

  predicate Ordered(c: Clock) {
    c.checked <= c.decided <= c.scheduled <= c.returned
  }

  /** The limiter after a gated call, and the delay it hands out, or none when the update may go ahead. */
  function Gate(l: Limiter, c: Clock): (Limiter, Option<int>) {
    if c.checked - l.last < POSTPONE_DELAY then
      var slot := if c.decided > l.next then c.scheduled + POSTPONE_DELAY else l.next + POSTPONE_DELAY;
      (l.(next := slot), Some(slot - c.returned))
    else
      (l.(last := c.decided), None)
  }

  /** A postponed update is asked to come back in the future, unless the call itself took two seconds. */
  lemma DelayIsPositive(l: Limiter, c: Clock)
    requires Ordered(c) && Gate(l, c).1.Some?
    ensures c.returned - c.decided < POSTPONE_DELAY ==> Gate(l, c).1.value > 0
    ensures c.decided > l.next ==> (Gate(l, c).1.value > 0 <==> c.returned - c.scheduled < POSTPONE_DELAY)
  {
  }

  /** An update is let through exactly if the last one was at least two seconds before, and is then the last one. */
  lemma LetThroughAfterTwoSeconds(l: Limiter, c: Clock)
    ensures Gate(l, c).1 == None <==> c.checked - l.last >= 2_000_000_000
    ensures Gate(l, c).1 == None ==> Gate(l, c).0 == Limiter(l.next, c.decided)
    ensures Gate(l, c).1.Some? ==>
              && Gate(l, c).0.last == l.last && Gate(l, c).1.value == Gate(l, c).0.next - c.returned
              && Gate(l, c).0.next == (if c.decided > l.next then c.scheduled else l.next) + 2_000_000_000
  {
  }

  datatype UpdateOutcome = UpToDate | Postponed(delay: int) | Updated | UpdateFailed

  class NSTemplateSet {
    const omitsEmpty: bool
    var spec: SetSpec
    var features: Option<string>

    constructor (spec: SetSpec, features: Option<string>, omitsEmpty: bool)
      ensures this.spec == Stored(spec, omitsEmpty) && this.features == features && this.omitsEmpty == omitsEmpty
    {
      this.spec, this.features, this.omitsEmpty := Stored(spec, omitsEmpty), features, omitsEmpty;
    }

    /** The update call to the member cluster. */
    method Update(spec: SetSpec, features: Option<string>, fails: bool)
      modifies this
      ensures if fails then unchanged(this) else this.spec == Stored(spec, omitsEmpty) && this.features == features
    {
      if !fails {
        this.spec := Stored(spec, omitsEmpty);
        this.features := features;
      }
    }
  }

  class Reconciler {
    var nextScheduledUpdate: int
    var lastExecutedUpdate: int

    ghost function State(): Limiter
      reads this
    {
      Limiter(nextScheduledUpdate, lastExecutedUpdate)
    }

    constructor (zeroTime: int)
      ensures State() == Limiter(zeroTime, zeroTime)
    {
      nextScheduledUpdate, lastExecutedUpdate := zeroTime, zeroTime;
    }

    /** Only a Space that carries its tier hash label and is Ready is paced. */
    method ManageExisting(nsTmplSet: NSTemplateSet, tierName: string, tier: TierSpec, revisions: map<string, Name>,
                          bindings: seq<SpaceBinding>, features: Option<string>, labelled: bool, ready: bool,
                          clock: Clock, updateFails: bool) returns (outcome: UpdateOutcome, ghost wanted: SetSpec)
      requires Ordered(clock)
      modifies this, nsTmplSet
      ensures IsSpecFor(wanted, tierName, tier, revisions, bindings)
      ensures outcome == (if !old(NeedsUpdate(nsTmplSet.spec, nsTmplSet.features, wanted, features)) then UpToDate
                          else if labelled && ready && Gate(old(State()), clock).1.Some?
                              then Postponed(Gate(old(State()), clock).1.value)
                          else if updateFails then UpdateFailed
                          else Updated)
      ensures State()
              == (if outcome != UpToDate && labelled && ready then Gate(old(State()), clock).0 else old(State()))
      ensures if outcome.Updated? then nsTmplSet.spec == Stored(wanted, nsTmplSet.omitsEmpty)
              && nsTmplSet.features == features
              else unchanged(nsTmplSet)
    {
      var spec := NewNSTemplateSetSpec(tierName, tier, revisions, bindings);
      wanted := spec;
      if nsTmplSet.spec != spec || FeaturesChanged(nsTmplSet.features, features) {
        if labelled && ready {
          if clock.checked - lastExecutedUpdate < POSTPONE_DELAY {
            if clock.decided > nextScheduledUpdate {
              nextScheduledUpdate := clock.scheduled + POSTPONE_DELAY;
            } else {
              nextScheduledUpdate := nextScheduledUpdate + POSTPONE_DELAY;
            }
            return Postponed(nextScheduledUpdate - clock.returned), wanted;
          }
          lastExecutedUpdate := clock.decided;
        }
        nsTmplSet.Update(spec, features, updateFails);
        return if updateFails then UpdateFailed else Updated, wanted;
      }
      outcome := UpToDate;
    }
  }

  // ---------- Runs of the limiter ----------

  /** Gated calls happen one after the other. */
  ghost predicate InOrder(calls: seq<Clock>) {
    && (forall k | 0 <= k < |calls| :: Ordered(calls[k]))
    && (forall j, k | 0 <= j < k < |calls| :: calls[j].returned <= calls[k].checked)
  }

  /** The instants at which updates were let through. */
  function Executions(l: Limiter, calls: seq<Clock>): seq<int>
    decreases |calls|
  {
    if calls == [] then []
    else
      var (l', delay) := Gate(l, calls[0]);
      (if delay.None? then [l'.last] else []) + Executions(l', calls[1..])
  }

  /** The slots handed out to postponed updates. */
  function Slots(l: Limiter, calls: seq<Clock>): seq<int>
    decreases |calls|
  {
    if calls == [] then []
    else
      var (l', delay) := Gate(l, calls[0]);
      (if delay.Some? then [l'.next] else []) + Slots(l', calls[1..])
  }

  ghost predicate Spaced(times: seq<int>) {
    forall j, k | 0 <= j < k < |times| :: times[k] - times[j] >= (k - j) * POSTPONE_DELAY
  }

  lemma SpacedCons(t: int, times: seq<int>)
    requires Spaced(times) && (times != [] ==> times[0] - t >= POSTPONE_DELAY)
    ensures Spaced([t] + times)
  {
    var all := [t] + times;
    forall j, k | 0 <= j < k < |all| ensures all[k] - all[j] >= (k - j) * POSTPONE_DELAY {
      if j == 0 && k > 1 {
        assert times[k - 1] - times[0] >= (k - 1) * POSTPONE_DELAY;
      }
    }
  }

  lemma {:induction false} ExecutionsAreSpaced(l: Limiter, calls: seq<Clock>)
    requires InOrder(calls)
    ensures Spaced(Executions(l, calls))
    ensures Executions(l, calls) != [] ==> Executions(l, calls)[0] - l.last >= POSTPONE_DELAY
    decreases |calls|
  {
    if calls != [] {
      var (l', delay) := Gate(l, calls[0]);
      ExecutionsAreSpaced(l', calls[1..]);
      if delay.None? {
        SpacedCons(l'.last, Executions(l', calls[1..]));
      }
    }
  }

  lemma {:induction false} SlotsAreSpaced(l: Limiter, calls: seq<Clock>)
    requires InOrder(calls)
    ensures Spaced(Slots(l, calls))
    ensures Slots(l, calls) != [] ==> Slots(l, calls)[0] - l.next >= POSTPONE_DELAY
    decreases |calls|
  {
    if calls != [] {
      var (l', delay) := Gate(l, calls[0]);
      SlotsAreSpaced(l', calls[1..]);
      if delay.Some? {
        SpacedCons(l'.next, Slots(l', calls[1..]));
      }
    }
  }

  /** Over any run, n updates let through within a window of the given length satisfy (n - 1) * 2s <= length. */
  lemma RateIsLimited(l: Limiter, calls: seq<Clock>, first: nat, n: nat, length: int)
    requires InOrder(calls) && n > 0 && first + n <= |Executions(l, calls)|
    requires Executions(l, calls)[first + n - 1] - Executions(l, calls)[first] <= length
    ensures (n - 1) * POSTPONE_DELAY <= length
  {
    ExecutionsAreSpaced(l, calls);
  }
}
