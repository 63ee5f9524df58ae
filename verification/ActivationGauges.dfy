/** The gauges "users per number of activations and email domain", kept up to date at each approval. */
module ActivationGauges {
  import opened Base
  import opened Strings

  datatype Domain = Internal | External

  const APPROVED := "approved"

  /** `activations` is the activation-counter annotation. */
  datatype Signup = Signup(stateLabel: string, activations: Option<string>, domain: Domain)

  type Gauges = map<(string, Domain), int>

  datatype World = World(signups: map<string, Signup>, gauges: Gauges)

  function Get(gauges: Gauges, key: (string, Domain)): int {
    if key in gauges then gauges[key] else 0
  }

  function Add(gauges: Gauges, key: (string, Domain), d: int): Gauges {
    gauges[key := Get(gauges, key) + d]
  }

  /** `strconv.Itoa` on any integer. */
  function WriteInt(n: int): string {
    if n < 0 then "-" + Itoa(-n) else Itoa(n)
  }

  lemma ReadWritten(n: int)
    ensures Atoi(WriteInt(n)) == Some(n)
  {
    if n < 0 {
      ItoaDigits(-n);
      assert WriteInt(n)[1..] == Itoa(-n);
    } else {
      AtoiItoa(n);
    }
  }

  // ---------- The recount ----------

  /** What `Synchronize` counts under a label: the annotation as it stands, if it is a number. */
  predicate CountsUnder(s: Signup, key: (string, Domain)) {
    s.activations == Some(key.0) && Atoi(key.0).Some? && s.domain == key.1
  }

  function Counted(signups: map<string, Signup>, key: (string, Domain)): set<string> {
    set n | n in signups && CountsUnder(signups[n], key)
  }

  function Recount(signups: map<string, Signup>, key: (string, Domain)): nat {
    |Counted(signups, key)|
  }

  ghost predicate Agree(w: World) {
    forall key :: Get(w.gauges, key) == Recount(w.signups, key)
  }

  lemma SizeWithout(names: set<string>, name: string)
    ensures |names| == |names - {name}| + if name in names then 1 else 0
  {
    if name !in names {
      assert names - {name} == names;
    }
  }

  lemma SameOthers(signups: map<string, Signup>, name: string, s: Signup, key: (string, Domain))
    ensures Counted(signups, key) - {name} == Counted(signups[name := s], key) - {name}
  {
  }

  lemma RecountUpdate(signups: map<string, Signup>, name: string, s: Signup, key: (string, Domain))
    requires name in signups
    ensures Recount(signups[name := s], key) ==
            Recount(signups, key) - (if CountsUnder(signups[name], key) then 1 else 0)
                + (if CountsUnder(s, key) then 1 else 0)
  {
    var (before, after) := (Counted(signups, key), Counted(signups[name := s], key));
    SizeWithout(before, name);
    SizeWithout(after, name);
    assert before - {name} == after - {name} by {
      SameOthers(signups, name, s, key);
    }
  }

  lemma RecountNew(signups: map<string, Signup>, name: string, s: Signup, key: (string, Domain))
    requires name !in signups && s.activations.None?
    ensures Recount(signups[name := s], key) == Recount(signups, key)
  {
    assert Counted(signups[name := s], key) == Counted(signups, key);
  }

  // ---------- Approvals ----------

  /** The annotation after one more activation, and the number it stands for. */
  function NextActivations(annotation: Option<string>): (string, int) {
    if annotation.Some? && Atoi(annotation.value).Some? then
      var n := Atoi(annotation.value).value + 1;
      (WriteInt(n), n)
    else ("1", 1)
  }

  /** `IncrementUsersPerActivationCounters` */
  function Incremented(gauges: Gauges, activations: int, domain: Domain): Gauges {
    if activations <= 0 then gauges
    else
      var up := Add(gauges, (WriteInt(activations), domain), 1);
      if activations > 1 then Add(up, (WriteInt(activations - 1), domain), -1) else up
  }

  /** Setting the state label; the gauges move only after the update of the UserSignup succeeded. */
  function WithState(w: World, name: string, state: string, fails: bool): World {
    if name !in w.signups || w.signups[name].stateLabel == state || fails then w
    else
      var s := w.signups[name].(stateLabel := state);
      if state == APPROVED then
        var (text, n) := NextActivations(s.activations);
        World(w.signups[name := s.(activations := Some(text))], Incremented(w.gauges, n, s.domain))
      else w.(signups := w.signups[name := s])
  }

  /** Missing, not a number, or a positive number written the way `Itoa` writes it. */
  ghost predicate IsRegular(annotation: Option<string>) {
    annotation.Some? && Atoi(annotation.value).Some? ==>
      var n := Atoi(annotation.value).value;
      n > 0 && annotation.value == WriteInt(n)
  }

  lemma WriteIntInjective(m: int, n: int)
    requires WriteInt(m) == WriteInt(n)
    ensures m == n
  {
    ReadWritten(m);
    ReadWritten(n);
  }

  lemma OneIsWritten()
    ensures WriteInt(1) == "1" && Atoi("1") == Some(1)
  {
    ReadWritten(1);
  }

  /** A successful approval keeps the gauges equal to a recount exactly when the annotation was regular. */
  lemma ApprovalKeepsAgreement(w: World, name: string)
    requires Agree(w) && name in w.signups && w.signups[name].stateLabel != APPROVED
    ensures Agree(WithState(w, name, APPROVED, false)) <==> IsRegular(w.signups[name].activations)
  {
    var w' := WithState(w, name, APPROVED, false);
    var s := w.signups[name];
    if IsRegular(s.activations) {
      forall key ensures Get(w'.gauges, key) == Recount(w'.signups, key) {
        RegularApproval(w, name, key);
      }
    } else {
      IrregularApproval(w, name);
    }
  }

  lemma RegularApproval(w: World, name: string, key: (string, Domain))
    requires Agree(w) && name in w.signups && w.signups[name].stateLabel != APPROVED
             && IsRegular(w.signups[name].activations)
    ensures var w' := WithState(w, name, APPROVED, false); Get(w'.gauges, key) == Recount(w'.signups, key)
  {
    var s := w.signups[name];
    var (text, n) := NextActivations(s.activations);
    var s' := s.(stateLabel := APPROVED, activations := Some(text));
    RecountUpdate(w.signups, name, s', key);
    OneIsWritten();
    ReadWritten(n);
    if n > 1 && WriteInt(n) == WriteInt(n - 1) {
      WriteIntInjective(n, n - 1);
    }
    assert Get(w.gauges, key) == Recount(w.signups, key);
  }

  /** The gauge under the old annotation keeps counting the user, and the recount does not. */
  lemma IrregularApproval(w: World, name: string)
    requires Agree(w) && name in w.signups && w.signups[name].stateLabel != APPROVED
             && !IsRegular(w.signups[name].activations)
    ensures !Agree(WithState(w, name, APPROVED, false))
  {
    var s := w.signups[name];
    var w' := WithState(w, name, APPROVED, false);
    var key := (s.activations.value, s.domain);
    var (text, n) := NextActivations(s.activations);
    ReadWritten(n);
    ReadWritten(n - 1);
    RecountUpdate(w.signups, name, w'.signups[name], key);
    assert Get(w.gauges, key) == Recount(w.signups, key);
    assert Get(w'.gauges, key) == Get(w.gauges, key);
    assert Recount(w'.signups, key) == Recount(w.signups, key) - 1;
  }

  /**
   * What a change of state leaves behind: the label is stored, and on approval, and only then, the annotation
   * is the old number plus one, or 1 if there was none. Other signups are untouched, and so is everything if
   * the update fails.
   */
  lemma StateIsStored(w: World, name: string, state: string, fails: bool)
    ensures var v := WithState(w, name, state, fails);
            && (name in w.signups && !fails && w.signups[name].stateLabel != state ==>
                  && v.signups == w.signups[name := v.signups[name]] && v.signups[name].stateLabel == state
                  && v.signups[name].domain == w.signups[name].domain
                  && (state != "approved" ==>
                        v.signups[name].activations == w.signups[name].activations && v.gauges == w.gauges)
                  && (state == "approved" ==>
                        v.signups[name].activations.Some?
                            && IsNextNumber(w.signups[name].activations, v.signups[name].activations.value)))
            && (name !in w.signups || fails || w.signups[name].stateLabel == state ==> v == w)
  {
    OneIsWritten();
    if name in w.signups {
      ReadWritten(NextActivations(w.signups[name].activations).1);
    }
  }

  predicate IsNextNumber(before: Option<string>, after: string) {
    match if before.Some? then Atoi(before.value) else None
    case Some(n) => Atoi(after) == Some(n + 1)
    case None => after == "1"
  }

  // ---------- Runs ----------

  datatype Event = SetState(name: string, state: string, fails: bool) | NewSignup(name: string, domain: Domain)

  function Next(w: World, e: Event): World {
    match e
    case SetState(name, state, fails) => WithState(w, name, state, fails)
    case NewSignup(name, domain) =>
      if name in w.signups then w
      else w.(signups := w.signups[name := Signup("", None, domain)])
  }

  function Run(w: World, events: seq<Event>): World
    decreases |events|
  {
    if events == [] then w else Run(Next(w, events[0]), events[1..])
  }

  ghost predicate AllRegular(w: World) {
    forall n | n in w.signups :: IsRegular(w.signups[n].activations)
  }

  lemma EventKeepsAgreement(w: World, e: Event)
    requires Agree(w) && AllRegular(w)
    ensures Agree(Next(w, e)) && AllRegular(Next(w, e))
  {
    match e
    case NewSignup(name, domain) =>
      if name !in w.signups {
        forall key ensures Get(w.gauges, key) == Recount(Next(w, e).signups, key) {
          RecountNew(w.signups, name, Signup("", None, domain), key);
        }
      }
    case SetState(name, state, fails) =>
      if Next(w, e) != w {
        if state == APPROVED {
          ApprovalKeepsAgreement(w, name);
          OneIsWritten();
          ReadWritten(NextActivations(w.signups[name].activations).1);
        } else {
          forall key ensures Get(w.gauges, key) == Recount(Next(w, e).signups, key) {
            RecountUpdate(w.signups, name, Next(w, e).signups[name], key);
          }
        }
      }
  }

  /** After any run of approvals and other state changes, failed or not, each gauge is what a recount would give. */
  lemma {:induction false} GaugesEqualRecount(w: World, events: seq<Event>)
    requires Agree(w) && AllRegular(w)
    ensures Agree(Run(w, events)) && AllRegular(Run(w, events))
    decreases |events|
  {
    if events != [] {
      EventKeepsAgreement(w, events[0]);
      GaugesEqualRecount(Next(w, events[0]), events[1..]);
    }
  }

  // ---------- As it runs ----------

  class Metrics {
    var gauges: Gauges

    constructor ()
      ensures gauges == map[]
    {
      gauges := map[];
    }

    method IncrementUsersPerActivationCounters(activations: int, domain: Domain)
      modifies this
      ensures gauges == Incremented(old(gauges), activations, domain)
    {
      if activations <= 0 {
        return;
      }
      gauges := Add(gauges, (WriteInt(activations), domain), 1);
      if activations > 1 {
        gauges := Add(gauges, (WriteInt(activations - 1), domain), -1);
      }
    }

    /** Counts the annotations that are numbers, from nothing. */
    method Synchronize(signups: map<string, Signup>)
      modifies this
      ensures Agree(World(signups, gauges))
    {
      gauges := map[];
      var rest := signups.Keys;
      while rest != {}
        invariant rest <= signups.Keys
        invariant forall key :: Get(gauges, key) == |CountedIn(signups, signups.Keys - rest, key)|
        decreases |rest|
      {
        var n :| n in rest;
        ghost var (before, counted) := (gauges, signups.Keys - rest);
        var s := signups[n];
        if s.activations.Some? && Atoi(s.activations.value).Some? {
          gauges := Add(gauges, (s.activations.value, s.domain), 1);
        }
        rest := rest - {n};
        assert signups.Keys - rest == counted + {n};
        forall key ensures Get(gauges, key) == |CountedIn(signups, counted + {n}, key)| {
          CountOneMore(signups, counted, n, key);
          assert Get(before, key) == |CountedIn(signups, counted, key)|;
        }
      }
      forall key ensures Get(gauges, key) == Recount(signups, key) {
        assert CountedIn(signups, signups.Keys - rest, key) == Counted(signups, key);
      }
    }
  }

  ghost function CountedIn(signups: map<string, Signup>, names: set<string>, key: (string, Domain)): set<string> {
    set n | n in names && n in signups && CountsUnder(signups[n], key)
  }

  lemma CountOneMore(signups: map<string, Signup>, names: set<string>, n: string, key: (string, Domain))
    requires n in signups && n !in names
    ensures |CountedIn(signups, names + {n}, key)| == |CountedIn(signups, names, key)|
            + if CountsUnder(signups[n], key) then 1 else 0
  {
    if CountsUnder(signups[n], key) {
      assert CountedIn(signups, names + {n}, key) == CountedIn(signups, names, key) + {n};
    } else {
      assert CountedIn(signups, names + {n}, key) == CountedIn(signups, names, key);
    }
  }

  class Reconciler {
    var signups: map<string, Signup>
    const metrics: Metrics

    constructor (signups: map<string, Signup>, metrics: Metrics)
      ensures this.signups == signups && this.metrics == metrics
    {
      this.signups, this.metrics := signups, metrics;
    }

    ghost function Contents(): World
      reads this, metrics
    {
      World(signups, metrics.gauges)
    }

    /** The UserSignup in memory is changed first; a failed update leaves the store and the gauges alone. */
    method SetStateLabel(name: string, state: string, updateFails: bool)
      requires name in signups
      modifies this, metrics
      ensures Contents() == WithState(old(Contents()), name, state, updateFails)
    {
      var userSignup := signups[name];
      if userSignup.stateLabel == state {
        return;
      }
      userSignup := userSignup.(stateLabel := state);
      var activations := 0;
      if state == APPROVED {
        var annotation, n := UpdateActivationCounterAnnotation(userSignup.activations);
        userSignup, activations := userSignup.(activations := Some(annotation)), n;
      }
      if updateFails {
        return;
      }
      signups := signups[name := userSignup];
      metrics.IncrementUsersPerActivationCounters(activations, userSignup.domain);
    }

    method UpdateActivationCounterAnnotation(annotation: Option<string>) returns (text: string, n: int)
      ensures (text, n) == NextActivations(annotation)
      ensures Atoi(text) == Some(n)
    {
      OneIsWritten();
      if annotation.Some? {
        var activations := Atoi(annotation.value);
        if activations.Some? {
          n := activations.value + 1;
          ReadWritten(n);
          return WriteInt(n), n;
        }
        return "1", 1;
      }
      return "1", 1;
    }
  }
}
