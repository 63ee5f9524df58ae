/** The lexicographic order of strings, sorting by it, and decimal notation. */
module Strings {
  import opened Base

  // ---------- Order ----------

  predicate Before(a: string, b: string) {
    if b == "" then false
    else if a == "" then true
    else if a[0] != b[0] then a[0] < b[0]
    else Before(a[1..], b[1..])
  }

  lemma {:induction false} BeforeTrichotomy(a: string, b: string)
    ensures a == b || Before(a, b) || Before(b, a)
    ensures !(Before(a, b) && Before(b, a))
    ensures !Before(a, a)
  {
    if a != "" {
      BeforeTrichotomy(a[1..], if b != "" then b[1..] else "");
      if b != "" && a[0] == b[0] && a[1..] == b[1..] {
        assert a == [a[0]] + a[1..] && b == [b[0]] + b[1..];
      }
    }
  }

  lemma {:induction false} BeforeTransitive(a: string, b: string, c: string)
    requires Before(a, b) && Before(b, c)
    ensures Before(a, c)
  {
    if a != "" && a[0] == b[0] == c[0] {
      BeforeTransitive(a[1..], b[1..], c[1..]);
    }
  }

  ghost predicate StrictlySorted(s: seq<string>) {
    forall i, j | 0 <= i < j < |s| :: Before(s[i], s[j])
  }

  /** `s` lists exactly the elements of `elems`, in strictly increasing order. */
  ghost predicate IsSortedList(s: seq<string>, elems: set<string>) {
    StrictlySorted(s) && forall x :: x in s <==> x in elems
  }

  /** A set has only one sorted list. */
  lemma {:induction false} SortedListUnique(s: seq<string>, t: seq<string>, elems: set<string>)
    requires IsSortedList(s, elems) && IsSortedList(t, elems)
    ensures s == t
  {
    EmptySortedList(s, elems);
    EmptySortedList(t, elems);
    if s != [] {
      assert s[0] in t;
      assert t[0] in s;
      BeforeTrichotomy(s[0], t[0]);
      assert s[0] == t[0];
      TailIsSortedList(s, elems);
      TailIsSortedList(t, elems);
      SortedListUnique(s[1..], t[1..], elems - {s[0]});
      assert s == [s[0]] + s[1..] && t == [t[0]] + t[1..];
    }
  }

  lemma EmptySortedList(s: seq<string>, elems: set<string>)
    requires IsSortedList(s, elems)
    ensures s == [] <==> elems == {}
  {
    if s != [] {
      assert s[0] in s;
    }
  }

  lemma TailIsSortedList(s: seq<string>, elems: set<string>)
    requires s != [] && IsSortedList(s, elems)
    ensures IsSortedList(s[1..], elems - {s[0]})
  {
    BeforeTrichotomy(s[0], s[0]);
    assert s == [s[0]] + s[1..];
  }

  /** `sort.Strings` applied to the keys of a map, which come in any order. */
  method SortedKeys(elems: set<string>) returns (s: seq<string>)
    ensures IsSortedList(s, elems)
  {
    s := [];
    var rest := elems;
    while rest != {}
      invariant rest <= elems
      invariant IsSortedList(s, elems - rest)
      decreases |rest|
    {
      var x :| x in rest;
      s := Insert(s, elems - rest, x);
      rest := rest - {x};
    }
  }

  method Insert(s: seq<string>, ghost elems: set<string>, x: string) returns (r: seq<string>)
    requires IsSortedList(s, elems) && x !in elems
    ensures IsSortedList(r, elems + {x})
  {
    var i := 0;
    while i < |s| && Before(s[i], x)
      invariant 0 <= i <= |s|
      invariant forall k | 0 <= k < i :: Before(s[k], x)
    {
      i := i + 1;
    }
    forall k | i <= k < |s| ensures Before(x, s[k]) {
      BeforeTrichotomy(x, s[i]);
      assert s[i] in s;
      if k > i {
        BeforeTransitive(x, s[i], s[k]);
      }
    }
    r := s[..i] + [x] + s[i..];
    assert s == s[..i] + s[i..];
  }

  // ---------- Decimal notation ----------

  function Digit(d: nat): char
    requires d < 10
  {
    '0' + d as char
  }

  /** `strconv.Itoa` on a natural number. */
  function Itoa(n: nat): (s: string)
    ensures s != ""
  {
    if n < 10 then [Digit(n)] else Itoa(n / 10) + [Digit(n % 10)]
  }

  predicate AllDigits(s: string) {
    forall i | 0 <= i < |s| :: '0' <= s[i] <= '9'
  }

  function DigitsValue(s: string): nat
    requires AllDigits(s)
  {
    if s == "" then 0 else 10 * DigitsValue(s[..|s| - 1]) + (s[|s| - 1] as int - '0' as int)
  }

  /** `strconv.Atoi`: an optional sign and at least one digit. */
  function Atoi(s: string): Option<int> {
    var digits := if s != "" && (s[0] == '-' || s[0] == '+') then s[1..] else s;
    if digits == "" || !AllDigits(digits) then None
    else if s[0] == '-' then Some(-(DigitsValue(digits) as int))
    else Some(DigitsValue(digits))
  }

  lemma {:induction false} ItoaDigits(n: nat)
    ensures AllDigits(Itoa(n)) && DigitsValue(Itoa(n)) == n
  {
    if n >= 10 {
      ItoaDigits(n / 10);
      assert Itoa(n)[..|Itoa(n)| - 1] == Itoa(n / 10);
    }
  }

  /** Reading back a written number gives the number. */
  lemma AtoiItoa(n: nat)
    ensures Atoi(Itoa(n)) == Some(n)
  {
    ItoaDigits(n);
    assert '0' <= Itoa(n)[0] <= '9';
  }

  /** A number below 10^k is written with at most k digits, for the suffixes used in names. */
  lemma ItoaLength(n: nat)
    ensures n < 10 ==> |Itoa(n)| == 1
    ensures 10 <= n < 100 ==> |Itoa(n)| == 2
    ensures n < 1000 ==> |Itoa(n)| <= 3
  {
  }
}
