/** The strip decoder of `get_coordinates_single` (Python/0_muon_csv_root.py):
    three hex byte fields are concatenated and parsed base 16, the value is
    rendered as `format(v, '0>24b')`, the set bits among characters 0..11 give
    the B strip and those among characters 12..23 the A strip. */
module StripDecoder {
  import opened Common

  /** A hexadecimal digit, either case. */
  function HexDigit(c: char): (r: Option<nat>)
    ensures r.Some? ==> r.value < 16
  {
    if '0' <= c <= '9' then Some(c as int - '0' as int)
    else if 'a' <= c <= 'f' then Some(c as int - 'a' as int + 10)
    else if 'A' <= c <= 'F' then Some(c as int - 'A' as int + 10)
    else None
  }

  predicate AllHex(s: string) {
    forall k :: 0 <= k < |s| ==> HexDigit(s[k]).Some?
  }

  /** The value of a string of hex digits, most significant digit first. */
  function HexValue(s: string): nat
    requires AllHex(s)
    decreases |s|
  {
    if s == [] then 0 else HexValue(s[..|s| - 1]) * 16 + HexDigit(s[|s| - 1]).value
  }

  /** `int(s, 16)` on a string of hex digits; `None` stands for the ValueError that
      an empty or non-hex string raises. */
  function ParseHex(s: string): (r: Option<nat>)
    ensures r.Some? <==> s != [] && AllHex(s)
  {
    if s != [] && AllHex(s) then Some(HexValue(s)) else None
  }

  lemma AllHexConcat(s: string, t: string)
    requires AllHex(s) && AllHex(t)
    ensures AllHex(s + t)
  {
    var st := s + t;
    forall k | 0 <= k < |st| ensures HexDigit(st[k]).Some? {
      if k < |s| { assert st[k] == s[k]; } else { assert st[k] == t[k - |s|]; }
    }
  }

  /** Appending hex digits shifts the value by four bits per digit. */
  lemma {:induction false} HexValueAppend(s: string, t: string)
    requires AllHex(s) && AllHex(t)
    ensures AllHex(s + t) && HexValue(s + t) == HexValue(s) * Pow2(4 * |t|) + HexValue(t)
    decreases |t|
  {
    AllHexConcat(s, t);
    var st := s + t;
    if t == [] {
      assert st == s;
    } else {
      var t' := t[..|t| - 1];
      assert st[..|st| - 1] == s + t';
      assert st[|st| - 1] == t[|t| - 1];
      HexValueAppend(s, t');
      Pow2Add(4 * |t'|, 4);
      assert Pow2(4) == 16;
      ShiftDigit(HexValue(s), Pow2(4 * |t'|), HexValue(t'), HexDigit(t[|t| - 1]).value);
    }
  }

  lemma ShiftDigit(x: nat, p: nat, y: nat, d: nat)
    ensures (x * p + y) * 16 + d == x * (p * 16) + (y * 16 + d)
  {
  }

  /** `format(v, 'b')`: the binary numeral of v, most significant bit first. */
  function BinDigits(v: nat): (r: seq<bool>)
    ensures |r| >= 1
    decreases v
  {
    if v < 2 then [v == 1] else BinDigits(v / 2) + [v % 2 == 1]
  }

  function Zeros(n: nat): (r: seq<bool>)
    ensures |r| == n && forall k :: 0 <= k < n ==> !r[k]
  {
    seq(n, _ => false)
  }

  /** `format(v, '0>nb')`: the binary numeral of v, zero-padded on the left
      to at least n characters. */
  function PadBinary(v: nat, n: nat): (r: seq<bool>)
    ensures |r| >= n
  {
    var d := BinDigits(v);
    if |d| < n then Zeros(n - |d|) + d else d
  }

  /** The strips of one axis, and the characters of each half of the
      rendered word. */
  const Half: nat := 12

  /** `format(v, '0>24b')`. */
  function Format24(v: nat): (r: seq<bool>)
    ensures |r| >= 24
  {
    PadBinary(v, Half + Half)
  }

  /** The indices of the set bits of a window, in ascending order: the
      comprehensions `[j for j in range(12) if pos_bit[j] != 0]` and
      `[j - 12 for j in range(12, 24) if pos_bit[j] != 0]` on the two halves. */
  function Positions(w: seq<bool>): seq<int>
    decreases |w|
  {
    if w == [] then []
    else Positions(w[..|w| - 1]) + (if w[|w| - 1] then [|w| - 1] else [])
  }

  /** Every listed position lies in the window and marks a set bit. */
  lemma {:induction false} PositionsInWindow(w: seq<bool>)
    ensures forall k :: 0 <= k < |Positions(w)| ==> 0 <= Positions(w)[k] < |w| && w[Positions(w)[k]]
    decreases |w|
  {
    if w != [] {
      PositionsInWindow(w[..|w| - 1]);
    }
  }

  /** The decoder for planes of w strips: of the rendering padded to 2w
      characters, each half gives the position of its single set bit, and both
      are -1 unless each half has exactly one set bit. */
  function DecodeW(v: nat, w: nat): (r: (int, int))
    ensures (r.0 == -1) == (r.1 == -1)
    ensures -1 <= r.0 < w && -1 <= r.1 < w
  {
    var bits := PadBinary(v, w + w);
    var bs, ats := Positions(bits[..w]), Positions(bits[w..w + w]);
    PositionsInWindow(bits[..w]);
    PositionsInWindow(bits[w..w + w]);
    if |bs| == 1 && |ats| == 1 then (bs[0], ats[0]) else (-1, -1)
  }

  /** The B and A strip indices of a hit word, read off `format(v, '0>24b')`:
      characters 0..11 give the B strip, characters 12..23 the A strip. */
  function Decode(v: nat): (r: (int, int))
    ensures (r.0 == -1) == (r.1 == -1)
    ensures -1 <= r.0 <= 11 && -1 <= r.1 <= 11
  {
    DecodeW(v, Half)
  }

  /** The hit word of a single hit on B strip b and A strip a of planes of w
      strips: B strip b is bit w + (w - 1 - b), A strip a is bit w - 1 - a. */
  function EncodeW(b: nat, a: nat, w: nat): nat
    requires b < w && a < w
  {
    Shl(Pow2(w - 1 - b), w) + Pow2(w - 1 - a)
  }

  /** The hit word of a single hit on B strip b and A strip a: B strip b is
      bit 12 + (11 - b), A strip a is bit 11 - a. */
  function Encode(b: int, a: int): nat
    requires 0 <= b <= 11 && 0 <= a <= 11
  {
    EncodeW(b, a, Half)
  }

  /** v shifted left by n bits, `v << n`. */
  function Shl(v: nat, n: nat): nat
    decreases n
  {
    if n == 0 then v else 2 * Shl(v, n - 1)
  }

  /** Shifting a power of two adds to its exponent. */
  lemma {:induction false} ShlPow2(m: nat, n: nat)
    ensures Shl(Pow2(m), n) == Pow2(m + n)
    decreases n
  {
    if n > 0 {
      ShlPow2(m, n - 1);
    }
  }

  // ---- fixed-width binary, the bridge between `format` and arithmetic ----

  /** The w low bits of v, most significant first. */
  function FixedBits(v: nat, w: nat): (r: seq<bool>)
    ensures |r| == w
    decreases w
  {
    if w == 0 then [] else FixedBits(v / 2, w - 1) + [v % 2 == 1]
  }

  /** w characters with a single `1` at index j. */
  function OneHot(w: nat, j: int): (r: seq<bool>)
    ensures |r| == w
  {
    seq(w, i => i == j)
  }

  lemma {:induction false} FixedBitsZero(w: nat)
    ensures FixedBits(0, w) == Zeros(w)
    decreases w
  {
    if w > 0 {
      FixedBitsZero(w - 1);
    }
  }

  /** The binary numeral of v is its bit-length low bits, and v lies between the
      powers of two that its length allows. */
  lemma {:induction false} BinDigitsFixed(v: nat)
    ensures BinDigits(v) == FixedBits(v, |BinDigits(v)|)
    ensures v < Pow2(|BinDigits(v)|)
    ensures |BinDigits(v)| == 1 || Pow2(|BinDigits(v)| - 1) <= v
    decreases v
  {
    if v >= 2 {
      BinDigitsFixed(v / 2);
    }
  }

  /** Left padding with zeros keeps the value. */
  lemma {:induction false} FixedBitsPad(v: nat, w: nat, k: nat)
    requires v < Pow2(w)
    ensures FixedBits(v, w + k) == Zeros(k) + FixedBits(v, w)
    decreases w
  {
    if w == 0 {
      FixedBitsZero(k);
    } else {
      FixedBitsPad(v / 2, w - 1, k);
      assert w + k - 1 == (w - 1) + k;
    }
  }

  /** For a value below 2^n the padded rendering is its n low bits. */
  lemma PadBinaryFixed(v: nat, n: nat)
    requires 0 < n && v < Pow2(n)
    ensures PadBinary(v, n) == FixedBits(v, n)
  {
    var d := BinDigits(v);
    BinDigitsFixed(v);
    Pow2MonoWhen(n, |d| - 1);
    assert |d| <= n;
    if |d| < n {
      FixedBitsPad(v, |d|, n - |d|);
    }
  }

  /** The high and low parts of a value render side by side. */
  lemma {:induction false} FixedBitsConcat(hi: nat, lo: nat, w: nat, w': nat)
    requires lo < Pow2(w)
    ensures FixedBits(Shl(hi, w) + lo, w + w') == FixedBits(hi, w') + FixedBits(lo, w)
    decreases w
  {
    if w > 0 {
      var v := Shl(hi, w) + lo;
      assert v / 2 == Shl(hi, w - 1) + lo / 2 && v % 2 == lo % 2;
      FixedBitsConcat(hi, lo / 2, w - 1, w');
      assert w + w' - 1 == (w - 1) + w';
    }
  }

  /** A power of two renders as a single one. */
  lemma {:induction false} FixedBitsPow2(k: nat, w: nat)
    requires k < w
    ensures FixedBits(Pow2(k), w) == OneHot(w, w - 1 - k)
    decreases w
  {
    if k == 0 {
      FixedBitsZero(w - 1);
      assert FixedBits(1, w) == FixedBits(0, w - 1) + [true];
    } else {
      assert Pow2(k) / 2 == Pow2(k - 1) && Pow2(k) % 2 == 0;
      FixedBitsPow2(k - 1, w - 1);
    }
  }

  /** Distinct values below 2^w render differently. */
  lemma {:induction false} FixedBitsInjective(u: nat, v: nat, w: nat)
    requires u < Pow2(w) && v < Pow2(w)
    requires FixedBits(u, w) == FixedBits(v, w)
    ensures u == v
    decreases w
  {
    if w > 0 {
      var fu, fv := FixedBits(u, w), FixedBits(v, w);
      assert fu[..w - 1] == FixedBits(u / 2, w - 1);
      assert fv[..w - 1] == FixedBits(v / 2, w - 1);
      assert fu[w - 1] == (u % 2 == 1) && fv[w - 1] == (v % 2 == 1);
      FixedBitsInjective(u / 2, v / 2, w - 1);
    }
  }

  /** `Positions` lists exactly the set bits of its window. */
  lemma {:induction false} PositionsMembers(w: seq<bool>, x: int)
    ensures x in Positions(w) <==> 0 <= x < |w| && w[x]
    decreases |w|
  {
    if w != [] {
      var w' := w[..|w| - 1];
      PositionsMembers(w', x);
      if 0 <= x < |w'| {
        assert w'[x] == w[x];
      }
    }
  }

  /** A window whose one set bit is at j yields the single position j. */
  lemma {:induction false} PositionsSingle(w: seq<bool>, j: nat)
    requires j < |w|
    requires forall i :: 0 <= i < |w| ==> (w[i] <==> i == j)
    ensures Positions(w) == [j]
    decreases |w|
  {
    var w' := w[..|w| - 1];
    if |w| - 1 > j {
      PositionsSingle(w', j);
      assert !w[|w| - 1];
    } else {
      PositionsNone(w');
      assert w[|w| - 1];
    }
  }

  /** A window with no set bit yields no position. */
  lemma {:induction false} PositionsNone(w: seq<bool>)
    requires forall i :: 0 <= i < |w| ==> !w[i]
    ensures Positions(w) == []
    decreases |w|
  {
    if w != [] {
      PositionsNone(w[..|w| - 1]);
    }
  }

  /** The single-hit word is the sum of its two bits, B strip b at exponent
      hi = 2w - 1 - b and A strip a at exponent lo = w - 1 - a. */
  lemma EncodeWSum(b: nat, a: nat, w: nat, hi: nat, lo: nat)
    requires b < w && a < w && hi == w + w - 1 - b && lo == w - 1 - a
    ensures EncodeW(b, a, w) == Pow2(hi) + Pow2(lo)
  {
    ShlPow2(w - 1 - b, w);
  }

  /** The single-hit word is 2^(23 - b) + 2^(11 - a). */
  lemma EncodeSum(b: int, a: int)
    requires 0 <= b <= 11 && 0 <= a <= 11
    ensures Encode(b, a) == Pow2(23 - b) + Pow2(11 - a)
  {
    EncodeWSum(b, a, Half, 23 - b, 11 - a);
  }

  /** A single-hit word fits in 2w bits. */
  lemma EncodeWBelow(b: nat, a: nat, w: nat)
    requires b < w && a < w
    ensures EncodeW(b, a, w) < Pow2(w + w)
  {
    EncodeWSum(b, a, w, w + w - 1 - b, w - 1 - a);
    Pow2Mono(w + w - 1 - b, w + w - 1);
    Pow2Below(w - 1 - a, w + w - 1);
  }

  /** Every single-hit word fits in 24 bits. */
  lemma EncodeBelow(b: int, a: int)
    requires 0 <= b <= 11 && 0 <= a <= 11
    ensures Encode(b, a) < Pow2(24)
  {
    EncodeWBelow(b, a, Half);
  }

  /** Two powers of two side by side in two w-bit halves render as one `1` in each. */
  lemma TwoHot(i: nat, j: nat, w: nat, p: nat, q: nat)
    requires p + i + 1 == w && q + j + 1 == w
    ensures FixedBits(Shl(Pow2(p), w) + Pow2(q), w + w) == OneHot(w, i) + OneHot(w, j)
  {
    Pow2Below(q, w);
    FixedBitsConcat(Pow2(p), Pow2(q), w, w);
    FixedBitsPow2(p, w);
    FixedBitsPow2(q, w);
  }

  lemma Pow2MonoWhen(m: nat, n: nat)
    ensures m <= n ==> Pow2(m) <= Pow2(n)
  {
    if m <= n {
      Pow2Mono(m, n);
    }
  }

  lemma Pow2Below(m: nat, n: nat)
    requires m < n
    ensures Pow2(m) < Pow2(n)
  {
    Pow2Mono(m, n - 1);
  }

  /** The rendered form of a single-hit word: one `1` in each half. */
  lemma EncodeWBits(b: nat, a: nat, w: nat)
    requires b < w && a < w
    ensures PadBinary(EncodeW(b, a, w), w + w) == OneHot(w, b) + OneHot(w, a)
  {
    EncodeWBelow(b, a, w);
    PadBinaryFixed(EncodeW(b, a, w), w + w);
    TwoHot(b, a, w, w - 1 - b, w - 1 - a);
  }

  /** The two halves of the pattern of a single hit on (b, a) list b and a. */
  lemma OneHotWindows(b: nat, a: nat, w: nat)
    requires b < w && a < w
    ensures var bits := OneHot(w, b) + OneHot(w, a);
      Positions(bits[..w]) == [b] && Positions(bits[w..w + w]) == [a]
  {
    var bits := OneHot(w, b) + OneHot(w, a);
    PositionsSingle(bits[..w], b);
    PositionsSingle(bits[w..w + w], a);
  }

  /** A word whose two rendered halves list one position each decodes to them. */
  lemma DecodeOfWindows(v: nat, w: nat, b: int, a: int)
    requires Positions(PadBinary(v, w + w)[..w]) == [b] && Positions(PadBinary(v, w + w)[w..w + w]) == [a]
    ensures DecodeW(v, w) == (b, a)
  {
  }

  /** Round trip on planes of w strips. */
  lemma DecodeEncodeW(b: nat, a: nat, w: nat)
    requires b < w && a < w
    ensures DecodeW(EncodeW(b, a, w), w) == (b, a)
  {
    EncodeWBits(b, a, w);
    OneHotWindows(b, a, w);
    DecodeOfWindows(EncodeW(b, a, w), w, b, a);
  }

  /** Round trip: the word of a single hit on (b, a) decodes to (b, a). */
  lemma DecodeEncode(b: int, a: int)
    requires 0 <= b <= 11 && 0 <= a <= 11
    ensures Decode(Encode(b, a)) == (b, a)
  {
    DecodeEncodeW(b, a, Half);
  }

  /** Two windows of width w with one set bit each, at b and at a, form the
      pattern of one `1` in each half. */
  lemma PositionsPattern(bits: seq<bool>, w: nat, b: int, a: int)
    requires |bits| == w + w
    requires Positions(bits[..w]) == [b] && Positions(bits[w..w + w]) == [a]
    ensures 0 <= b < w && 0 <= a < w
    ensures bits == OneHot(w, b) + OneHot(w, a)
  {
    PositionsInWindow(bits[..w]);
    PositionsInWindow(bits[w..w + w]);
    assert Positions(bits[..w])[0] == b && Positions(bits[w..w + w])[0] == a;
    var pattern := OneHot(w, b) + OneHot(w, a);
    forall i | 0 <= i < w + w ensures bits[i] == pattern[i] {
      if i < w {
        PositionsMembers(bits[..w], i);
        assert bits[..w][i] == bits[i];
        assert pattern[i] == (i == b);
      } else {
        PositionsMembers(bits[w..w + w], i - w);
        assert bits[w..w + w][i - w] == bits[i];
        assert pattern[i] == (i - w == a);
      }
    }
  }

  /** Two words below 2^n with the same rendering are equal. */
  lemma PadBinaryInjective(u: nat, v: nat, n: nat)
    requires 0 < n && u < Pow2(n) && v < Pow2(n)
    requires PadBinary(u, n) == PadBinary(v, n)
    ensures u == v
  {
    PadBinaryFixed(u, n);
    PadBinaryFixed(v, n);
    FixedBitsInjective(u, v, n);
  }

  /** The other direction on planes of w strips. */
  lemma EncodeDecodeW(v: nat, w: nat)
    requires v < Pow2(w + w)
    requires DecodeW(v, w).0 != -1
    ensures 0 <= DecodeW(v, w).0 < w && 0 <= DecodeW(v, w).1 < w
    ensures v == EncodeW(DecodeW(v, w).0, DecodeW(v, w).1, w)
  {
    var b, a := DecodeW(v, w).0, DecodeW(v, w).1;
    WindowsOfDecode(v, w);
    PadBinaryFixed(v, w + w);
    PositionsPattern(PadBinary(v, w + w), w, b, a);
    SameRendering(v, w, b, a);
  }

  /** A valid decode comes from one listed position in each half. */
  lemma WindowsOfDecode(v: nat, w: nat)
    requires DecodeW(v, w).0 != -1
    ensures var bits := PadBinary(v, w + w);
      Positions(bits[..w]) == [DecodeW(v, w).0] && Positions(bits[w..w + w]) == [DecodeW(v, w).1]
  {
    var bits := PadBinary(v, w + w);
    var bs, ats := Positions(bits[..w]), Positions(bits[w..w + w]);
    assert |bs| == 1 && |ats| == 1;
    assert bs == [bs[0]] && ats == [ats[0]];
  }

  /** A word below 2^2w rendered as the pattern of a single hit is that hit's word. */
  lemma SameRendering(v: nat, w: nat, b: nat, a: nat)
    requires b < w && a < w && v < Pow2(w + w)
    requires PadBinary(v, w + w) == OneHot(w, b) + OneHot(w, a)
    ensures v == EncodeW(b, a, w)
  {
    EncodeWBits(b, a, w);
    EncodeWBelow(b, a, w);
    PadBinaryInjective(EncodeW(b, a, w), v, w + w);
  }

  /** The other direction: a word below 2^24 that decodes to a valid pair is the
      word of a single hit on that pair. */
  lemma EncodeDecode(v: nat)
    requires v < Pow2(24)
    requires Decode(v).0 != -1
    ensures 0 <= Decode(v).0 <= 11 && 0 <= Decode(v).1 <= 11
    ensures v == Encode(Decode(v).0, Decode(v).1)
  {
    EncodeDecodeW(v, Half);
  }

  /** The valid decodes are exactly the single-hit words: any other word below
      2^24 (no bit, or two or more bits, in either half) gives (-1, -1). */
  lemma DecodeValidIff(v: nat)
    requires v < Pow2(24)
    ensures Decode(v) != (-1, -1) <==> exists b, a :: 0 <= b <= 11 && 0 <= a <= 11 && v == Encode(b, a)
  {
    if Decode(v) != (-1, -1) {
      EncodeDecode(v);
    }
    if exists b, a :: 0 <= b <= 11 && 0 <= a <= 11 && v == Encode(b, a) {
      var b, a :| 0 <= b <= 11 && 0 <= a <= 11 && v == Encode(b, a);
      DecodeEncode(b, a);
    }
  }
}
