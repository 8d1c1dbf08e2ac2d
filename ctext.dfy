/** Character classes and searches of the C and C++ runtime, as the macros use them. */
module CText {
  import opened Common

  /** `std::isspace` in the "C" locale. */
  predicate IsSpace(c: char) {
    c == ' ' || c == '\t' || c == '\n' || c == '\U{B}' || c == '\U{C}' || c == '\r'
  }

  /** The decimal digits `[0-9]`. */
  predicate IsDigit(c: char) {
    '0' <= c <= '9'
  }

  predicate AllDigits(s: string) {
    forall k :: 0 <= k < |s| ==> IsDigit(s[k])
  }

  /** `s.find(c, from)`: the first index at or after `from` that holds `c`, or `None` for `npos`. */
  function Find(s: string, c: char, from: nat): (r: Option<nat>)
    ensures r.Some? ==> from <= r.value < |s| && s[r.value] == c
    ensures r.Some? ==> forall k :: from <= k < r.value ==> s[k] != c
    ensures r.None? ==> forall k :: from <= k < |s| ==> s[k] != c
    decreases |s| - from
  {
    if from >= |s| then None
    else if s[from] == c then Some(from)
    else Find(s, c, from + 1)
  }

  /** Searching a suffix finds the same character, shifted. */
  lemma FindInSuffix(s: string, c: char, i: nat)
    requires i <= |s|
    ensures Find(s[i..], c, 0) == (match Find(s, c, i) case None => None case Some(j) => Some(j - i))
  {
    var t := s[i..];
    match Find(s, c, i)
    case None =>
    case Some(j) =>
      assert t[j - i] == c;
      var r := Find(t, c, 0);
      if r.None? {
        assert false;
      } else if r.value < j - i {
        assert false;
      } else if r.value > j - i {
        assert false;
      }
  }

  /** The end of the run of white space that starts at p. */
  function SkipSpaces(s: string, p: nat): (e: nat)
    requires p <= |s|
    ensures p <= e <= |s|
    ensures e == |s| || !IsSpace(s[e])
    decreases |s| - p
  {
    if p < |s| && IsSpace(s[p]) then SkipSpaces(s, p + 1) else p
  }

  /** Everything skipped is white space. */
  lemma {:induction false} SkippedSpaces(s: string, p: nat)
    requires p <= |s|
    ensures forall k :: p <= k < SkipSpaces(s, p) ==> IsSpace(s[k])
    decreases |s| - p
  {
    if p < |s| && IsSpace(s[p]) {
      SkippedSpaces(s, p + 1);
    }
  }

  /** `std::string` ordering: lexicographic by character, a proper prefix first. */
  predicate StrLess(a: string, b: string)
    decreases |a|
  {
    if a == [] then b != []
    else b != [] && (a[0] < b[0] || (a[0] == b[0] && StrLess(a[1..], b[1..])))
  }

  predicate StrLessEq(a: string, b: string) {
    a == b || StrLess(a, b)
  }

  lemma {:induction false} StrLessIrreflexive(a: string)
    ensures !StrLess(a, a)
    decreases |a|
  {
    if a != [] {
      StrLessIrreflexive(a[1..]);
    }
  }

  lemma {:induction false} StrLessTransitive(a: string, b: string, c: string)
    requires StrLess(a, b) && StrLess(b, c)
    ensures StrLess(a, c)
    decreases |a|
  {
    if a != [] && a[0] == b[0] && b[0] == c[0] {
      StrLessTransitive(a[1..], b[1..], c[1..]);
    }
  }

  lemma {:induction false} StrLessTotal(a: string, b: string)
    requires a != b
    ensures StrLess(a, b) || StrLess(b, a)
    decreases |a|
  {
    if a != [] && b != [] && a[0] == b[0] {
      assert a == [a[0]] + a[1..] && b == [b[0]] + b[1..];
      StrLessTotal(a[1..], b[1..]);
    }
  }

  lemma StrLessAsymmetric(a: string, b: string)
    requires StrLess(a, b)
    ensures !StrLess(b, a)
  {
    if StrLess(b, a) {
      StrLessTransitive(a, b, a);
      StrLessIrreflexive(a);
    }
  }

  /** Strings that agree up to k and differ at k are ordered by that character. */
  lemma {:induction false} StrLessAt(a: string, b: string, k: nat)
    requires k < |a| && k < |b| && a[..k] == b[..k] && a[k] < b[k]
    ensures StrLess(a, b)
    decreases k
  {
    if k > 0 {
      assert a[0] == a[..k][0] && b[0] == b[..k][0];
      assert a[1..][..k - 1] == a[..k][1..] && b[1..][..k - 1] == b[..k][1..];
      StrLessAt(a[1..], b[1..], k - 1);
    }
  }

  /** The first `c` at or after `from` is found. */
  lemma {:induction false} FindAt(s: string, c: char, from: nat, p: nat)
    requires from <= p < |s| && s[p] == c
    requires forall k :: from <= k < p ==> s[k] != c
    ensures Find(s, c, from) == Some(p)
    decreases p - from
  {
    if from < p {
      FindAt(s, c, from + 1, p);
    }
  }
}
