/** Small shared vocabulary: an optional value and powers of two. */
module Common {

  /** A value that may be absent: a failed parse, a `std::string::npos`, a NaN. */
  datatype Option<T> = None | Some(value: T)

  /** 2 to the power n. */
  function Pow2(n: nat): (r: nat)
    ensures r >= 1
  {
    if n == 0 then 1 else 2 * Pow2(n - 1)
  }

  /** Powers of two add exponents. */
  lemma {:induction false} Pow2Add(m: nat, n: nat)
    ensures Pow2(m + n) == Pow2(m) * Pow2(n)
    decreases m
  {
    if m > 0 {
      Pow2Add(m - 1, n);
      var x, y := Pow2(m - 1), Pow2(n);
      calc {
        Pow2(m + n);
        2 * Pow2(m - 1 + n);
        2 * (x * y);
        (2 * x) * y;
        Pow2(m) * Pow2(n);
      }
    }
  }

  /** Powers of two grow with the exponent. */
  lemma {:induction false} Pow2Mono(m: nat, n: nat)
    requires m <= n
    ensures Pow2(m) <= Pow2(n)
    decreases n
  {
    if m < n {
      Pow2Mono(m, n - 1);
    }
  }

  /** Concatenation regrouped. */
  lemma ConcatAssoc<T>(a: seq<T>, b: seq<T>, c: seq<T>)
    ensures (a + b) + c == a + (b + c)
  {
  }
}
