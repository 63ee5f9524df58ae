/** Result types shared by every component of the model. */
module Base {

  datatype Option<+T> = None | Some(value: T)

  /** The outcome of a Go call that returns a value or an error. */
  datatype Result<+T, +E> = Ok(value: T) | Err(error: E)

  /** The value Go's map lookup yields for a counter: zero when the key is missing. */
  function Lookup(counts: map<string, nat>, key: string): nat {
    if key in counts then counts[key] else 0
  }

  /** No element occurs twice. */
  ghost predicate Distinct<T(!new)>(s: seq<T>) {
    forall i, j | 0 <= i < j < |s| :: s[i] != s[j]
  }

  /** Multiplication by a natural number keeps an order. */
  lemma MulMono(a: int, b: int, k: nat)
    requires a <= b
    ensures a * k <= b * k
  {
  }

  lemma MulStrict(a: int, b: int, k: nat)
    requires a < b && k > 0
    ensures a * k < b * k
  {
    MulMono(a + 1, b, k);
    assert (a + 1) * k == a * k + k;
  }

  /** A positive factor can be cancelled. */
  lemma MulCancel(a: int, b: int, k: nat)
    requires k > 0 && a * k <= b * k
    ensures a <= b
  {
    if b < a {
      MulStrict(b, a, k);
    }
  }
}
