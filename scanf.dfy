/** The pieces of `sscanf` that the temperature macros rely on: the `%d` / `%u`
    conversions (optional white space, optional sign, a run of decimal digits),
    ordinary characters of the format, and a white-space directive. */
module Scanf {
  import opened Common
  import opened CText

  /** The numeric value of a digit character. */
  function DigitValue(c: char): (d: nat)
    requires IsDigit(c)
    ensures d < 10
  {
    (c as int) - ('0' as int)
  }

  /** The value of a string of decimal digits, most significant digit first. */
  function DecValue(d: string): nat
    requires AllDigits(d)
    decreases |d|
  {
    if d == [] then 0 else DecValue(d[..|d| - 1]) * 10 + DigitValue(d[|d| - 1])
  }

  /** The digit character for 0..9. */
  function DigitChar(n: nat): (c: char)
    requires n < 10
    ensures IsDigit(c) && DigitValue(c) == n
  {
    (('0' as int) + n) as char
  }

  /** The shortest decimal numeral of n, as `%d` prints it. */
  function Decimal(n: nat): (s: string)
    ensures |s| >= 1 && AllDigits(s)
    decreases n
  {
    if n < 10 then [DigitChar(n)] else Decimal(n / 10) + [DigitChar(n % 10)]
  }

  /** Reading back a printed numeral gives the number. */
  lemma {:induction false} DecValueOfDecimal(n: nat)
    ensures DecValue(Decimal(n)) == n
    decreases n
  {
    var s := Decimal(n);
    if n >= 10 {
      DecValueOfDecimal(n / 10);
      assert s[..|s| - 1] == Decimal(n / 10);
    } else {
      assert s[..0] == [];
    }
  }

  /** The digit loop of `strtol`: every digit from p on multiplies the value
      read so far by ten and adds itself. The value and the position of the
      first character that is not a digit. */
  function ReadDigits(s: string, p: nat, acc: nat): (r: (nat, nat))
    requires p <= |s|
    ensures p <= r.1 <= |s| && (r.1 == |s| || !IsDigit(s[r.1]))
    ensures r.1 > p ==> IsDigit(s[r.1 - 1])
    decreases |s| - p
  {
    if p < |s| && IsDigit(s[p]) then ReadDigits(s, p + 1, acc * 10 + DigitValue(s[p])) else (acc, p)
  }

  /** One `%d` (or `%u`) conversion starting at p: white space is skipped, an
      optional sign is accepted, and at least one digit must follow. On success
      the value read and the position after the last digit. Values are not
      narrowed to a machine width here; each caller says how it stores them. */
  function ScanInt(s: string, p: nat): (r: Option<(int, nat)>)
    requires p <= |s|
    ensures r.Some? ==> p < r.value.1 <= |s| && IsDigit(s[r.value.1 - 1])
    ensures r.Some? ==> r.value.1 == |s| || !IsDigit(s[r.value.1])
  {
    var q := SkipSpaces(s, p);
    var signed := q < |s| && (s[q] == '-' || s[q] == '+');
    var q' := if signed then q + 1 else q;
    var digits := ReadDigits(s, q', 0);
    if digits.1 == q' then None
    else
      var v: int := digits.0;
      Some((if signed && s[q] == '-' then -v else v, digits.1))
  }

  /** An ordinary character `sep` of the format, which must be the next input
      character, followed by a `%d` conversion. */
  function ScanSepInt(s: string, p: nat, sep: char): (r: Option<(int, nat)>)
    requires p <= |s|
    ensures r.Some? ==> p < |s| && s[p] == sep && p < r.value.1 <= |s|
  {
    if p < |s| && s[p] == sep then ScanInt(s, p + 1) else None
  }

  /** The three conversions of `"%d<c>%d<c>%d"` starting at p, and the position after them. */
  function ScanTriple(s: string, p: nat, sep: char): (r: Option<(int, int, int, nat)>)
    requires p <= |s|
    ensures r.Some? ==> p < r.value.3 <= |s|
  {
    match ScanInt(s, p)
    case None => None
    case Some((x, p1)) =>
      match ScanSepInt(s, p1, sep)
      case None => None
      case Some((y, p3)) =>
        match ScanSepInt(s, p3, sep)
        case None => None
        case Some((z, p5)) => Some((x, y, z, p5))
  }

  /** s spells out d from position p on. */
  predicate SpellsAt(s: string, p: nat, d: string) {
    p + |d| <= |s| && forall i :: 0 <= i < |d| ==> s[p + i] == d[i]
  }

  /** A slice of s spells itself out where it was cut. */
  lemma SpellsSlice(s: string, p: nat, d: string)
    requires p + |d| <= |s| && s[p..p + |d|] == d
    ensures SpellsAt(s, p, d)
  {
    forall i | 0 <= i < |d| ensures s[p + i] == d[i] {
      assert s[p..p + |d|][i] == s[p + i];
    }
  }

  /** A `%d` conversion reads a non-empty digit string that the input spells
      out at p, provided no digit follows it. */
  lemma ScanIntDigits(s: string, p: nat, d: string)
    requires d != [] && AllDigits(d) && SpellsAt(s, p, d)
    requires p + |d| == |s| || !IsDigit(s[p + |d|])
    ensures ScanInt(s, p) == Some((DecValue(d) as int, p + |d|))
  {
    assert s[p + 0] == d[0];
    assert SkipSpaces(s, p) == p;
    assert d[..0] == [];
    ReadDigitsOf(s, p, d, 0);
  }

  /** Having read the first k digits of d, the digit loop goes on to read all
      of d and stops right after it. */
  lemma {:induction false} ReadDigitsOf(s: string, p: nat, d: string, k: nat)
    requires AllDigits(d) && k <= |d| && SpellsAt(s, p, d)
    requires p + |d| == |s| || !IsDigit(s[p + |d|])
    ensures AllDigits(d[..k])
    ensures ReadDigits(s, p + k, DecValue(d[..k])) == (DecValue(d), p + |d|)
    decreases |d| - k
  {
    assert forall i :: 0 <= i < k ==> d[..k][i] == d[i];
    if k == |d| {
      assert d[..k] == d;
    } else {
      assert s[p + k] == d[k];
      assert d[..k + 1][..k] == d[..k];
      ReadDigitsOf(s, p, d, k + 1);
    }
  }

  /** `"%d<c>%d<c>%d"` reads three digit strings that the input spells out
      at p, p1 + 1 and p3 + 1, separated by `sep` and followed by a non-digit
      or the end of the input at p5. */
  lemma ScanTripleDigits(s: string, sep: char, dx: string, dy: string, dz: string, p: nat, p1: nat, p3: nat, p5: nat)
    requires !IsDigit(sep)
    requires dx != [] && AllDigits(dx) && dy != [] && AllDigits(dy) && dz != [] && AllDigits(dz)
    requires p1 == p + |dx| && p3 == p1 + 1 + |dy| && p5 == p3 + 1 + |dz| && p5 <= |s|
    requires SpellsAt(s, p, dx) && s[p1] == sep
    requires SpellsAt(s, p1 + 1, dy) && s[p3] == sep
    requires SpellsAt(s, p3 + 1, dz)
    requires p5 == |s| || !IsDigit(s[p5])
    ensures ScanTriple(s, p, sep) == Some((DecValue(dx) as int, DecValue(dy) as int, DecValue(dz) as int, p5))
  {
    ScanIntDigits(s, p, dx);
    ScanIntDigits(s, p1 + 1, dy);
    ScanIntDigits(s, p3 + 1, dz);
    TripleFromInts(s, p, sep, DecValue(dx), DecValue(dy), DecValue(dz), p1, p3, p5);
  }

  /** Three conversions, each after its separator, make up the triple. */
  lemma TripleFromInts(s: string, p: nat, sep: char, x: int, y: int, z: int, p1: nat, p3: nat, p5: nat)
    requires p <= |s| && ScanInt(s, p) == Some((x, p1))
    requires p1 < |s| && s[p1] == sep && ScanInt(s, p1 + 1) == Some((y, p3))
    requires p3 < |s| && s[p3] == sep && ScanInt(s, p3 + 1) == Some((z, p5))
    ensures ScanTriple(s, p, sep) == Some((x, y, z, p5))
  {
  }

  /** Three numerals and two separators, as the logs and the command lines
      write a date `Y-M-D` or a time `h:m:s`. */
  function Joined(dx: string, sep: char, dy: string, dz: string): string {
    dx + [sep] + dy + [sep] + dz
  }

  /** Where the pieces of a joined text lie. */
  lemma JoinedSpells(dx: string, sep: char, dy: string, dz: string)
    ensures var t := Joined(dx, sep, dy, dz);
      var p1 := |dx|;
      var p3 := p1 + 1 + |dy|;
      |t| == p3 + 1 + |dz| && t[p1] == sep && t[p3] == sep &&
      SpellsAt(t, 0, dx) && SpellsAt(t, p1 + 1, dy) && SpellsAt(t, p3 + 1, dz)
  {
    var t := Joined(dx, sep, dy, dz);
    var p1 := |dx|;
    var p3 := p1 + 1 + |dy|;
    forall i | 0 <= i < |dx| ensures t[i] == dx[i] {}
    forall i | 0 <= i < |dy| ensures t[p1 + 1 + i] == dy[i] {}
    forall i | 0 <= i < |dz| ensures t[p3 + 1 + i] == dz[i] {}
  }

  /** A text written between a prefix and a suffix is spelt out after the prefix. */
  lemma SpellsConcat(a: string, t: string, b: string)
    ensures SpellsAt(a + t + b, |a|, t)
  {
    forall i | 0 <= i < |t| ensures (a + t + b)[|a| + i] == t[i] {}
  }

  /** What a spelt-out text spells, s spells too, at the sum of the offsets. */
  lemma SpellsWithin(s: string, p: nat, t: string, i: nat, d: string)
    requires SpellsAt(s, p, t) && SpellsAt(t, i, d)
    ensures SpellsAt(s, p + i, d)
  {
    forall k | 0 <= k < |d| ensures s[p + i + k] == d[k] {
      assert s[p + (i + k)] == t[i + k];
    }
  }

  /** The numerals of three numbers, joined. */
  function TripleText(x: nat, y: nat, z: nat, sep: char): string {
    Joined(Decimal(x), sep, Decimal(y), Decimal(z))
  }

  /** Such a text starts and ends with a digit and holds no comma. */
  lemma TripleTextChars(x: nat, y: nat, z: nat, sep: char)
    requires sep != ','
    ensures var t := TripleText(x, y, z, sep);
      IsDigit(t[0]) && IsDigit(t[|t| - 1]) && forall k :: 0 <= k < |t| ==> t[k] != ','
  {
    var dx, dy, dz := Decimal(x), Decimal(y), Decimal(z);
    var t := TripleText(x, y, z, sep);
    var p1 := |dx|;
    var p3 := p1 + 1 + |dy|;
    assert t[0] == dx[0] && t[|t| - 1] == dz[|dz| - 1];
    forall k | 0 <= k < |t| ensures t[k] != ',' {
      if k < p1 {
        assert t[k] == dx[k];
      } else if p1 < k < p3 {
        assert t[k] == dy[k - p1 - 1];
      } else if p3 < k {
        assert t[k] == dz[k - p3 - 1];
      }
    }
  }

  /** Such a text starts and ends with a digit, holds no comma, and reads
      back as its three numbers. */
  lemma TripleTextReads(x: nat, y: nat, z: nat, sep: char)
    requires !IsDigit(sep) && sep != ','
    ensures var t := TripleText(x, y, z, sep);
      IsDigit(t[0]) && IsDigit(t[|t| - 1]) && (forall k :: 0 <= k < |t| ==> t[k] != ',') &&
      ScanTriple(t, 0, sep) == Some((x, y, z, |t|))
  {
    var dx, dy, dz := Decimal(x), Decimal(y), Decimal(z);
    var t := TripleText(x, y, z, sep);
    TripleTextChars(x, y, z, sep);
    JoinedSpells(dx, sep, dy, dz);
    ScanTripleDigits(t, sep, dx, dy, dz, 0, |dx|, |dx| + 1 + |dy|, |t|);
    DecValueOfDecimal(x);
    DecValueOfDecimal(y);
    DecValueOfDecimal(z);
  }
}
