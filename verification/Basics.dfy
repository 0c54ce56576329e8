/** Small datatypes and string facts shared by the models. */
module Basics {

  datatype Option<+T> = None | Some(value: T)

  datatype Result<+T, +E> = Ok(value: T) | Err(error: E)

  const MINUTE_SECONDS := 60

  newtype byte = x: int | 0 <= x < 256

  function Max(a: int, b: int): int { if a >= b then a else b }

  function Min(a: int, b: int): int { if a <= b then a else b }

  /** Quotient rounded up, for a positive divisor. */
  function CeilDiv(a: nat, b: nat): nat
    requires b > 0
  {
    (a + b - 1) / b
  }

  predicate Sorted(s: seq<int>) {
    forall i, j :: 0 <= i < j < |s| ==> s[i] <= s[j]
  }

  lemma Member<T(!new)>(s: set<T>) returns (x: T)
    requires s != {}
    ensures x in s
  {
    x :| x in s;
  }

  lemma {:induction false} SubsetIsSmaller<T(!new)>(a: set<T>, b: set<T>)
    requires a <= b
    ensures |a| <= |b|
    decreases |b|
  {
    if b == {} {
    } else {
      var x := Member(b);
      SubsetIsSmaller(a - {x}, b - {x});
      assert x in a ==> a == (a - {x}) + {x};
      assert x !in a ==> a == a - {x};
    }
  }

  // ----- repetition -----

  function Repeated(x: int, n: nat): (r: seq<int>)
    ensures |r| == n && forall i :: 0 <= i < n ==> r[i] == x
  {
    if n == 0 then [] else Repeated(x, n - 1) + [x]
  }

  /** n times x, one step at a time. */
  function Times(n: nat, x: int): int {
    if n == 0 then 0 else Times(n - 1, x) + x
  }

  lemma {:induction false} TimesIsProduct(n: nat, x: int)
    ensures Times(n, x) == n * x
  {
    if n == 0 {
    } else {
      TimesIsProduct(n - 1, x);
    }
  }

  lemma {:induction false} TimesGrow(m: nat, n: nat, x: nat)
    requires m <= n
    ensures 0 <= Times(m, x) <= Times(n, x) && (m < n ==> Times(m, x) + x <= Times(n, x))
  {
    if m < n { TimesGrow(m, n - 1, x); } else if m > 0 { TimesGrow(m - 1, m - 1, x); }
  }
}
