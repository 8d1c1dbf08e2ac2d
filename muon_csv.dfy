/** The hit pipeline of Python/0_muon_csv_root.py: event-number gap detection
    per plane (`check_evn` / `check_data`), the per-plane exclusion filter and
    strip decoding (`get_coordinates_single`), and the positional assembly of
    three planes into `matedata` rows (the `Fill` loop). */
module MuonCsv {
  import opened Common
  import opened StripDecoder

  /** One comma-separated record of a plane file: field 0 is tp1, fields 1..3
      the hex bytes of the strip word, field 4 tp2 and field 5 the event number.
      The decimal fields are kept as the integers `int()` reads from them. */
  datatype Record = Record(tp1: int, hex1: string, hex2: string, hex3: string, tp2: int, evn: int)

  function Evns(data: seq<Record>): (e: seq<int>)
    ensures |e| == |data| && forall k :: 0 <= k < |data| ==> e[k] == data[k].evn
  {
    seq(|data|, k requires 0 <= k < |data| => data[k].evn)
  }

  function Min(x: int, y: int): int { if x <= y then x else y }

  // ---- check_data ----

  /** True when the event numbers at k and k + 1 are not consecutive. */
  predicate IsGap(e: seq<int>, k: int)
    requires 0 <= k < |e| - 1
  {
    e[k] + 1 != e[k + 1]
  }

  /** The `errors` list of `check_data`: for every gap, in scan order, the two
      event numbers on either side of it. */
  function GapPairs(e: seq<int>): seq<int>
    decreases |e|
  {
    if |e| < 2 then []
    else GapPairs(e[..|e| - 1]) + (if IsGap(e, |e| - 2) then [e[|e| - 2], e[|e| - 1]] else [])
  }

  /** The indices i at which `check_data` reports a gap (it prints line i + 1). */
  function GapIndices(e: seq<int>): seq<nat>
    decreases |e|
  {
    if |e| < 2 then []
    else GapIndices(e[..|e| - 1]) + (if IsGap(e, |e| - 2) then [|e| - 2] else [])
  }

  /** `check_data`: one pass over consecutive records, extending `errors` with
      both event numbers of every gap. */
  method CheckData(data: seq<Record>) returns (errors: seq<int>, gaps: seq<nat>)
    ensures errors == GapPairs(Evns(data))
    ensures gaps == GapIndices(Evns(data))
  {
    var e := Evns(data);
    errors, gaps := [], [];
    var i := 0;
    while i + 1 < |data|
      invariant 0 <= i && (|data| == 0 || i < |data|)
      invariant errors == GapPairs(e[..Min(i + 1, |e|)])
      invariant gaps == GapIndices(e[..Min(i + 1, |e|)])
    {
      assert e[..i + 2][..i + 1] == e[..i + 1];
      if data[i].evn + 1 != data[i + 1].evn {
        errors := errors + [data[i].evn, data[i + 1].evn];
        gaps := gaps + [i];
      }
      i := i + 1;
    }
    assert e[..Min(i + 1, |e|)] == e;
  }

  /** Every reported index is a gap, and every gap is reported. */
  lemma {:induction false} GapIndicesMembers(e: seq<int>, k: int)
    ensures k in GapIndices(e) <==> 0 <= k < |e| - 1 && IsGap(e, k)
    decreases |e|
  {
    if |e| >= 2 {
      var e' := e[..|e| - 1];
      GapIndicesMembers(e', k);
      if 0 <= k < |e'| - 1 {
        assert IsGap(e', k) == IsGap(e, k);
      }
    }
  }

  /** The gaps are reported in scan order, each once. */
  lemma {:induction false} GapIndicesAscending(e: seq<int>)
    ensures forall x, y :: 0 <= x < y < |GapIndices(e)| ==> GapIndices(e)[x] < GapIndices(e)[y]
    ensures forall x :: 0 <= x < |GapIndices(e)| ==> GapIndices(e)[x] < |e| - 1
    decreases |e|
  {
    if |e| >= 2 {
      GapIndicesAscending(e[..|e| - 1]);
    }
  }

  /** The error list holds two entries per gap: the event numbers at the gap's
      index and at the next index. */
  lemma {:induction false} GapPairsShape(e: seq<int>)
    ensures |GapPairs(e)| == 2 * |GapIndices(e)|
    ensures forall x :: 0 <= x < |GapIndices(e)| ==>
      0 <= GapIndices(e)[x] < |e| - 1 &&
      GapPairs(e)[2 * x] == e[GapIndices(e)[x]] && GapPairs(e)[2 * x + 1] == e[GapIndices(e)[x] + 1]
    decreases |e|
  {
    if |e| >= 2 {
      var e' := e[..|e| - 1];
      GapPairsShape(e');
      GapIndicesAscending(e');
      forall x | 0 <= x < |GapIndices(e')|
        ensures GapIndices(e)[x] == GapIndices(e')[x] && GapPairs(e)[2 * x] == GapPairs(e')[2 * x]
        ensures GapPairs(e)[2 * x + 1] == GapPairs(e')[2 * x + 1]
        ensures e[GapIndices(e')[x]] == e'[GapIndices(e')[x]] && e[GapIndices(e')[x] + 1] == e'[GapIndices(e')[x] + 1]
      {
      }
    }
  }

  /** A plane whose event numbers all follow each other (in particular one
      with fewer than two records) has no errors, and only such a plane. */
  lemma ConsecutiveIffNoErrors(e: seq<int>)
    ensures GapPairs(e) == [] <==> forall k :: 0 <= k < |e| - 1 ==> e[k] + 1 == e[k + 1]
  {
    GapPairsShape(e);
    if GapPairs(e) != [] {
      assert GapIndices(e)[0] in GapIndices(e);
      GapIndicesMembers(e, GapIndices(e)[0]);
    } else {
      forall k | 0 <= k < |e| - 1 ensures e[k] + 1 == e[k + 1] {
        GapIndicesMembers(e, k);
      }
    }
  }

  lemma GapPairsExample()
    ensures GapPairs([5, 6, 8, 9]) == [6, 8]
    ensures GapIndices([5, 6, 8, 9]) == [1]
  {
    assert [5, 6, 8, 9][..3] == [5, 6, 8];
    assert [5, 6, 8][..2] == [5, 6];
    assert [5, 6][..1] == [5];
  }

  // ---- check_evn ----

  /** Whether `check_evn` raises an `IndexError`: the chained comparisons
      `a == b == c` index planes 1 and 2 always, and plane 3 only when the
      first two agree. Nothing catches it, so the script stops. */
  predicate Aborts(d1: seq<Record>, d2: seq<Record>, d3: seq<Record>) {
    |d1| == 0 || |d2| == 0 ||
    (d1[0].evn == d2[0].evn && |d3| == 0) ||
    (d1[|d1| - 1].evn == d2[|d2| - 1].evn && |d3| == 0)
  }

  /** `check_evn`: the three planes' error lists, and whether the first and the
      last event numbers differ across the planes (reported, not acted on). */
  method CheckEvn(d1: seq<Record>, d2: seq<Record>, d3: seq<Record>)
      returns (e1: seq<int>, e2: seq<int>, e3: seq<int>, firstDiffers: bool, lastDiffers: bool)
    requires |d1| > 0 && |d2| > 0
    requires d1[0].evn == d2[0].evn ==> |d3| > 0
    requires d1[|d1| - 1].evn == d2[|d2| - 1].evn ==> |d3| > 0
    ensures e1 == GapPairs(Evns(d1)) && e2 == GapPairs(Evns(d2)) && e3 == GapPairs(Evns(d3))
    ensures firstDiffers <==> d1[0].evn != d2[0].evn || d2[0].evn != d3[0].evn
    ensures lastDiffers <==> d1[|d1| - 1].evn != d2[|d2| - 1].evn || d2[|d2| - 1].evn != d3[|d3| - 1].evn
  {
    var g1, g2, g3;
    e1, g1 := CheckData(d1);
    e2, g2 := CheckData(d2);
    e3, g3 := CheckData(d3);
    firstDiffers := d1[0].evn != d2[0].evn || d2[0].evn != d3[0].evn;
    lastDiffers := d1[|d1| - 1].evn != d2[|d2| - 1].evn || d2[|d2| - 1].evn != d3[|d3| - 1].evn;
  }

  // ---- get_coordinates_single ----

  /** The exclusion test: the first interval of each plane's error list, and a
      missing interval (an `IndexError`) ends the test with "keep". */
  predicate Skipped(evn: int, e1: seq<int>, e2: seq<int>, e3: seq<int>) {
    if |e1| < 2 then false
    else if e1[0] <= evn <= e1[1] then true
    else if |e2| < 2 then false
    else if e2[0] <= evn <= e2[1] then true
    else if |e3| < 2 then false
    else e3[0] <= evn <= e3[1]
  }

  /** What one surviving record contributes to the five lists. */
  datatype Hit = Hit(b: int, a: int, evn: int, tp1: int, tp2: int)

  /** The decoded hit of a record; `None` when `int(pos_hex, 16)` fails. */
  function HitOf(r: Record): (h: Option<Hit>)
  {
    match Word(r)
    case None => None
    case Some(v) => Some(Hit(Decode(v).0, Decode(v).1, r.evn, r.tp1, r.tp2))
  }

  /** What one record contributes: nothing when excluded or undecodable. */
  function Contribution(r: Record, e1: seq<int>, e2: seq<int>, e3: seq<int>): seq<Hit>
  {
    if Skipped(r.evn, e1, e2, e3) then []
    else match HitOf(r) case None => [] case Some(h) => [h]
  }

  /** The hits a plane contributes, in record order. */
  function Hits(data: seq<Record>, e1: seq<int>, e2: seq<int>, e3: seq<int>): seq<Hit>
    decreases |data|
  {
    if data == [] then []
    else Hits(data[..|data| - 1], e1, e2, e3) + Contribution(data[|data| - 1], e1, e2, e3)
  }

  /** The indices of the records whose line is reported as unprocessable. */
  function Failed(data: seq<Record>, e1: seq<int>, e2: seq<int>, e3: seq<int>): seq<nat>
    decreases |data|
  {
    if data == [] then []
    else
      var r := data[|data| - 1];
      Failed(data[..|data| - 1], e1, e2, e3) +
        (if !Skipped(r.evn, e1, e2, e3) && HitOf(r).None? then [|data| - 1] else [])
  }

  /** Extending a plane by one record extends the hits and the failures by that
      record's share. */
  lemma HitsSnoc(data: seq<Record>, i: nat, e1: seq<int>, e2: seq<int>, e3: seq<int>)
    requires i < |data|
    ensures Hits(data[..i + 1], e1, e2, e3) == Hits(data[..i], e1, e2, e3) + Contribution(data[i], e1, e2, e3)
    ensures Failed(data[..i + 1], e1, e2, e3) == Failed(data[..i], e1, e2, e3) +
      (if !Skipped(data[i].evn, e1, e2, e3) && HitOf(data[i]).None? then [i] else [])
  {
    assert data[..i + 1][..i] == data[..i];
  }

  /** A record that is not excluded and whose word parses to v contributes
      the hit that v decodes to. */
  lemma DecodedContribution(r: Record, e1: seq<int>, e2: seq<int>, e3: seq<int>, v: nat)
    requires !Skipped(r.evn, e1, e2, e3) && Word(r) == Some(v)
    ensures Contribution(r, e1, e2, e3) == [Hit(Decode(v).0, Decode(v).1, r.evn, r.tp1, r.tp2)]
  {
  }

  /** The five parallel lists `pos_B, pos_A, pos_evn, pos_tp1, pos_tp2`; each
      one-element list of `pos_B`/`pos_A` is kept as its element. */
  datatype Columns = Columns(b: seq<int>, a: seq<int>, evn: seq<int>, tp1: seq<int>, tp2: seq<int>)

  function ColumnsOf(hs: seq<Hit>): (c: Columns)
    ensures |c.b| == |c.a| == |c.evn| == |c.tp1| == |c.tp2| == |hs|
    ensures forall k :: 0 <= k < |hs| ==>
      c.b[k] == hs[k].b && c.a[k] == hs[k].a && c.evn[k] == hs[k].evn && c.tp1[k] == hs[k].tp1 && c.tp2[k] == hs[k].tp2
  {
    Columns(seq(|hs|, k requires 0 <= k < |hs| => hs[k].b), seq(|hs|, k requires 0 <= k < |hs| => hs[k].a),
            seq(|hs|, k requires 0 <= k < |hs| => hs[k].evn), seq(|hs|, k requires 0 <= k < |hs| => hs[k].tp1),
            seq(|hs|, k requires 0 <= k < |hs| => hs[k].tp2))
  }

  /** Appending a hit appends one entry to each list. */
  lemma ColumnsSnoc(hs: seq<Hit>, h: Hit)
    ensures ColumnsOf(hs + [h]) ==
      var c := ColumnsOf(hs);
      Columns(c.b + [h.b], c.a + [h.a], c.evn + [h.evn], c.tp1 + [h.tp1], c.tp2 + [h.tp2])
  {
    var c, c' := ColumnsOf(hs), ColumnsOf(hs + [h]);
    assert c'.b == c.b + [h.b];
    assert c'.a == c.a + [h.a];
    assert c'.evn == c.evn + [h.evn];
    assert c'.tp1 == c.tp1 + [h.tp1];
    assert c'.tp2 == c.tp2 + [h.tp2];
  }

  /** `get_coordinates_single`: one pass over the records of a plane, skipping
      excluded events, decoding the rest and appending to the five lists;
      `failed` lists the records whose hex word did not parse. */
  method GetCoordinatesSingle(data: seq<Record>, e1: seq<int>, e2: seq<int>, e3: seq<int>)
      returns (pos: Columns, failed: seq<nat>)
    ensures pos == ColumnsOf(Hits(data, e1, e2, e3))
    ensures failed == Failed(data, e1, e2, e3)
  {
    pos := Columns([], [], [], [], []);
    failed := [];
    var i := 0;
    while i < |data|
      invariant 0 <= i <= |data|
      invariant pos == ColumnsOf(Hits(data[..i], e1, e2, e3))
      invariant failed == Failed(data[..i], e1, e2, e3)
    {
      var r := data[i];
      HitsSnoc(data, i, e1, e2, e3);
      if !Skipped(r.evn, e1, e2, e3) {
        var parsed := ParseHex(r.hex1 + r.hex2 + r.hex3);
        assert parsed == Word(r);
        if parsed.None? {
          failed := failed + [i];
        } else {
          var bits := Decode(parsed.value);
          DecodedContribution(r, e1, e2, e3, parsed.value);
          ColumnsSnoc(Hits(data[..i], e1, e2, e3), Hit(bits.0, bits.1, r.evn, r.tp1, r.tp2));
          pos := Columns(pos.b + [bits.0], pos.a + [bits.1], pos.evn + [r.evn], pos.tp1 + [r.tp1], pos.tp2 + [r.tp2]);
        }
      }
      i := i + 1;
    }
    assert data[..i] == data;
  }

  /** No surviving record lies in an excluded range, and every hit carries the
      two -1 sentinels together or neither. */
  lemma {:induction false} HitsSurvive(data: seq<Record>, e1: seq<int>, e2: seq<int>, e3: seq<int>)
    ensures |Hits(data, e1, e2, e3)| <= |data|
    ensures forall h :: h in Hits(data, e1, e2, e3) ==> !Skipped(h.evn, e1, e2, e3)
    ensures forall h :: h in Hits(data, e1, e2, e3) ==> (h.b == -1 <==> h.a == -1) && -1 <= h.b <= 11 && -1 <= h.a <= 11
    decreases |data|
  {
    if data != [] {
      HitsSurvive(data[..|data| - 1], e1, e2, e3);
    }
  }

  /** `int(pos_hex, 16)` of a record's three hex fields. */
  function Word(r: Record): Option<nat> {
    ParseHex(r.hex1 + r.hex2 + r.hex3)
  }

  /** When no record is excluded and every hex word parses, the plane keeps
      every record, in order, with its evn, tp1 and tp2 unchanged. */
  lemma {:induction false} HitsKeepAll(data: seq<Record>, e1: seq<int>, e2: seq<int>, e3: seq<int>)
    requires forall k :: 0 <= k < |data| ==> !Skipped(data[k].evn, e1, e2, e3) && Word(data[k]).Some?
    ensures |Hits(data, e1, e2, e3)| == |data|
    ensures forall k :: 0 <= k < |data| ==> SameFields(Hits(data, e1, e2, e3)[k], data[k])
    decreases |data|
  {
    if data != [] {
      var n := |data| - 1;
      var d' := data[..n];
      assert forall k :: 0 <= k < n ==> d'[k] == data[k];
      HitsKeepAll(d', e1, e2, e3);
      KeptRecord(data[n], e1, e2, e3);
      HitsLast(data, e1, e2, e3);
      FieldsExtend(Hits(data, e1, e2, e3), Hits(d', e1, e2, e3), Contribution(data[n], e1, e2, e3), data);
    }
  }

  /** A hit that carries a record's evn, tp1 and tp2. */
  predicate SameFields(h: Hit, r: Record) {
    h.evn == r.evn && h.tp1 == r.tp1 && h.tp2 == r.tp2
  }

  /** Hits that match all records but the last, followed by one that matches
      the last, match all records. */
  lemma FieldsExtend(hs: seq<Hit>, init: seq<Hit>, c: seq<Hit>, data: seq<Record>)
    requires |data| == |init| + 1 && |c| == 1 && |hs| == |init| + |c|
    requires forall k :: 0 <= k < |init| ==> hs[k] == init[k] && SameFields(init[k], data[k])
    requires hs[|init|] == c[0] && SameFields(c[0], data[|init|])
    ensures |hs| == |data| && forall k :: 0 <= k < |data| ==> SameFields(hs[k], data[k])
  {
  }

  /** A record that is not excluded and whose word parses contributes one hit
      with its own evn, tp1 and tp2. */
  lemma KeptRecord(r: Record, e1: seq<int>, e2: seq<int>, e3: seq<int>)
    requires !Skipped(r.evn, e1, e2, e3) && Word(r).Some?
    ensures |Contribution(r, e1, e2, e3)| == 1 && SameFields(Contribution(r, e1, e2, e3)[0], r)
  {
  }

  /** The hits of a plane are those of all records but the last, then the last one's share. */
  lemma HitsLast(data: seq<Record>, e1: seq<int>, e2: seq<int>, e3: seq<int>)
    requires data != []
    ensures var hs, init := Hits(data, e1, e2, e3), Hits(data[..|data| - 1], e1, e2, e3);
      var c := Contribution(data[|data| - 1], e1, e2, e3);
      |hs| == |init| + |c| &&
      (forall k :: 0 <= k < |init| ==> hs[k] == init[k]) &&
      (forall k :: 0 <= k < |c| ==> hs[|init| + k] == c[k])
  {
  }

  /** Only the first interval of the first plane's list matters when the
      second plane's list is empty: an empty second list disables the third. */
  lemma SecondEmptyDisablesThird(evn: int, e1: seq<int>, e3: seq<int>)
    ensures Skipped(evn, e1, [], e3) <==> |e1| >= 2 && e1[0] <= evn <= e1[1]
  {
  }

  /** An empty first list disables the exclusion filter altogether. */
  lemma {:induction false} FirstEmptyKeepsAll(data: seq<Record>, e2: seq<int>, e3: seq<int>)
    ensures Hits(data, [], e2, e3) == Hits(data, [], [], [])
    ensures Failed(data, [], e2, e3) == Failed(data, [], [], [])
    decreases |data|
  {
    if data != [] {
      FirstEmptyKeepsAll(data[..|data| - 1], e2, e3);
    }
  }

  /** The exclusion ranges are inclusive at both ends. */
  lemma SkippedInclusive(lo: int, hi: int, e2: seq<int>, e3: seq<int>)
    requires lo <= hi
    ensures Skipped(lo, [lo, hi], e2, e3) && Skipped(hi, [lo, hi], e2, e3)
  {
  }

  /** A skipped event lies in the first interval of one of the lists. */
  lemma SkippedInFirstInterval(evn: int, e1: seq<int>, e2: seq<int>, e3: seq<int>)
    requires Skipped(evn, e1, e2, e3)
    ensures (|e1| >= 2 && e1[0] <= evn <= e1[1]) || (|e2| >= 2 && e2[0] <= evn <= e2[1]) || (|e3| >= 2 && e3[0] <= evn <= e3[1])
  {
  }

  /** A plane with two gaps, [2, 4] and [7, 9]: an event inside the second gap
      is not excluded, since only the first interval is read. */
  lemma OnlyFirstGapCounts()
    ensures GapPairs([1, 2, 4, 5, 6, 7, 9]) == [2, 4, 7, 9]
    ensures !Skipped(8, GapPairs([1, 2, 4, 5, 6, 7, 9]), [], [])
  {
    assert [1, 2][..1] == [1];
    assert GapPairs([1, 2]) == [];
    assert [1, 2, 4][..2] == [1, 2];
    assert GapPairs([1, 2, 4]) == [2, 4];
    assert [1, 2, 4, 5][..3] == [1, 2, 4];
    assert GapPairs([1, 2, 4, 5]) == [2, 4];
    assert [1, 2, 4, 5, 6][..4] == [1, 2, 4, 5];
    assert GapPairs([1, 2, 4, 5, 6]) == [2, 4];
    assert [1, 2, 4, 5, 6, 7][..5] == [1, 2, 4, 5, 6];
    assert GapPairs([1, 2, 4, 5, 6, 7]) == [2, 4];
    assert [1, 2, 4, 5, 6, 7, 9][..6] == [1, 2, 4, 5, 6, 7];
  }

  /** A gap on the second plane alone excludes nothing when the first plane
      has no gap: event 1, which starts plane 2's gap, is kept on every plane. */
  lemma GapOnSecondPlaneOnly()
    ensures GapPairs([1, 2, 3]) == [] && GapPairs([1, 3]) == [1, 3]
    ensures !Skipped(1, GapPairs([1, 2, 3]), GapPairs([1, 3]), [])
  {
    assert [1, 2, 3][..2] == [1, 2];
    assert [1, 2][..1] == [1];
    assert [1, 3][..1] == [1];
  }

  // ---- the Fill loop ----

  /** One `matedata` entry: tp1:tp2:evn:B1:B2:B3:A1:A2:A3. */
  datatype Row = Row(tp1: int, tp2: int, evn: int, b1: int, b2: int, b3: int, a1: int, a2: int, a3: int)

  /** The number of indices j for which every list the loop reads has an entry. */
  function Filled(p1: Columns, p2: Columns, p3: Columns): (m: nat)
    ensures m <= |p1.b|
    ensures m <= |p1.tp1| && m <= |p1.tp2| && m <= |p1.evn| && m <= |p2.b| && m <= |p3.b|
    ensures m <= |p1.a| && m <= |p2.a| && m <= |p3.a|
    ensures m == |p1.b| || m == |p1.tp1| || m == |p1.tp2| || m == |p1.evn| || m == |p2.b| || m == |p3.b|
      || m == |p1.a| || m == |p2.a| || m == |p3.a|
  {
    Min(Min(Min(|p1.tp1|, |p1.tp2|), Min(|p1.evn|, |p1.b|)), Min(Min(Min(|p2.b|, |p3.b|), Min(|p1.a|, |p2.a|)), |p3.a|))
  }

  /** Row j: the times and event number of plane 1, and the j-th B and A of
      each plane. */
  function RowAt(p1: Columns, p2: Columns, p3: Columns, j: nat): Row
    requires j < Filled(p1, p2, p3)
  {
    Row(p1.tp1[j], p1.tp2[j], p1.evn[j], p1.b[j], p2.b[j], p3.b[j], p1.a[j], p2.a[j], p3.a[j])
  }

  /** The entries the loop fills: one per index below the shortest list. */
  function AssembleRows(p1: Columns, p2: Columns, p3: Columns): (rows: seq<Row>)
    ensures |rows| == Filled(p1, p2, p3)
    ensures forall j :: 0 <= j < |rows| ==> rows[j] == RowAt(p1, p2, p3, j)
  {
    seq(Filled(p1, p2, p3), j requires 0 <= j < Filled(p1, p2, p3) => RowAt(p1, p2, p3, j))
  }

  /** The `matedata` ntuple, seen as the sequence of entries filled so far. */
  class Ntuple {
    var rows: seq<Row>

    constructor()
      ensures rows == []
    {
      rows := [];
    }

    method Fill(r: Row)
      modifies this
      ensures rows == old(rows) + [r]
    {
      rows := rows + [r];
    }
  }

  /** The Fill loop: for every index j of plane 1's B list, fill row j if every
      list has an entry at j, and otherwise report j (`missing`). */
  method FillPlanes(t: Ntuple, p1: Columns, p2: Columns, p3: Columns) returns (missing: seq<nat>)
    modifies t
    ensures t.rows == old(t.rows) + AssembleRows(p1, p2, p3)
    ensures |missing| == |p1.b| - Filled(p1, p2, p3)
    ensures forall k :: 0 <= k < |missing| ==> missing[k] == Filled(p1, p2, p3) + k
  {
    var m := Filled(p1, p2, p3);
    missing := [];
    var j := 0;
    while j < |p1.b|
      invariant 0 <= j <= |p1.b|
      invariant t.rows == old(t.rows) + AssembleRows(p1, p2, p3)[..Min(j, m)]
      invariant |missing| == j - Min(j, m)
      invariant forall k :: 0 <= k < |missing| ==> missing[k] == m + k
    {
      if j < |p1.tp1| && j < |p1.tp2| && j < |p1.evn| && j < |p2.b| && j < |p3.b|
         && j < |p1.a| && j < |p2.a| && j < |p3.a| {
        assert AssembleRows(p1, p2, p3)[..j + 1] == AssembleRows(p1, p2, p3)[..j] + [RowAt(p1, p2, p3, j)];
        t.Fill(RowAt(p1, p2, p3, j));
      } else {
        missing := missing + [j];
      }
      j := j + 1;
    }
    assert AssembleRows(p1, p2, p3)[..Min(j, m)] == AssembleRows(p1, p2, p3);
  }

  // ---- one data set, and the walk over data sets ----

  /** The rows one data set (files m101, m102, m103) contributes. */
  function TripletRows(d1: seq<Record>, d2: seq<Record>, d3: seq<Record>): seq<Row>
  {
    var e1, e2, e3 := GapPairs(Evns(d1)), GapPairs(Evns(d2)), GapPairs(Evns(d3));
    AssembleRows(ColumnsOf(Hits(d1, e1, e2, e3)), ColumnsOf(Hits(d2, e1, e2, e3)), ColumnsOf(Hits(d3, e1, e2, e3)))
  }

  /** The three lists one data set's columns hold are of equal length, so the
      loop fills exactly as many rows as the shortest plane has hits. */
  lemma TripletRowsCount(d1: seq<Record>, d2: seq<Record>, d3: seq<Record>)
    ensures var e1, e2, e3 := GapPairs(Evns(d1)), GapPairs(Evns(d2)), GapPairs(Evns(d3));
      |TripletRows(d1, d2, d3)| ==
        Min(Min(|Hits(d1, e1, e2, e3)|, |Hits(d2, e1, e2, e3)|), |Hits(d3, e1, e2, e3)|)
  {
  }

  /** Processing of one data set: `check_evn`, `get_coordinates_single` on each
      plane, then the Fill loop. When `check_evn` raises, no row is added and
      `aborted` is set. */
  method ProcessTriplet(t: Ntuple, d1: seq<Record>, d2: seq<Record>, d3: seq<Record>) returns (aborted: bool)
    modifies t
    ensures aborted <==> Aborts(d1, d2, d3)
    ensures aborted ==> t.rows == old(t.rows)
    ensures !aborted ==> t.rows == old(t.rows) + TripletRows(d1, d2, d3)
  {
    aborted := Aborts(d1, d2, d3);
    if aborted {
      return;
    }
    var e1, e2, e3, firstDiffers, lastDiffers := CheckEvn(d1, d2, d3);
    var p1, f1 := GetCoordinatesSingle(d1, e1, e2, e3);
    var p2, f2 := GetCoordinatesSingle(d2, e1, e2, e3);
    var p3, f3 := GetCoordinatesSingle(d3, e1, e2, e3);
    var missing := FillPlanes(t, p1, p2, p3);
  }

  /** A data set's three files, or `Missing` when one of them could not be opened. */
  datatype DataSet = Missing | Files(d1: seq<Record>, d2: seq<Record>, d3: seq<Record>)

  /** A data set on which `check_evn` raises. */
  predicate SetAborts(ds: DataSet) {
    ds.Files? && Aborts(ds.d1, ds.d2, ds.d3)
  }

  /** The rows a data set contributes; a missing one adds none. */
  function SetRows(ds: DataSet): seq<Row>
  {
    match ds
    case Missing => []
    case Files(d1, d2, d3) => TripletRows(d1, d2, d3)
  }

  /** All the rows of a walk over data sets, in order. */
  function AllRows(sets: seq<DataSet>): seq<Row>
    decreases |sets|
  {
    if sets == [] then []
    else
      AllRows(sets[..|sets| - 1]) + SetRows(sets[|sets| - 1])
  }

  /** One data set of the walk: processed when its files were read, skipped
      when one is missing (`FileNotFoundError`). */
  method ProcessSet(t: Ntuple, ds: DataSet) returns (aborted: bool)
    modifies t
    ensures aborted <==> SetAborts(ds)
    ensures aborted ==> t.rows == old(t.rows)
    ensures !aborted ==> t.rows == old(t.rows) + SetRows(ds)
  {
    aborted := false;
    if ds.Files? {
      aborted := ProcessTriplet(t, ds.d1, ds.d2, ds.d3);
    }
  }

  lemma AllRowsSnoc(sets: seq<DataSet>, i: nat)
    requires i < |sets|
    ensures AllRows(sets[..i + 1]) == AllRows(sets[..i]) + SetRows(sets[i])
  {
    assert sets[..i + 1][..i] == sets[..i];
  }

  /** No data set of `sets` makes `check_evn` raise. */
  predicate NoneAborts(sets: seq<DataSet>)
    decreases |sets|
  {
    sets == [] || (NoneAborts(sets[..|sets| - 1]) && !SetAborts(sets[|sets| - 1]))
  }

  lemma {:induction false} NoneAbortsMeans(sets: seq<DataSet>)
    ensures NoneAborts(sets) <==> forall k :: 0 <= k < |sets| ==> !SetAborts(sets[k])
    decreases |sets|
  {
    if sets != [] {
      var init := sets[..|sets| - 1];
      NoneAbortsMeans(init);
      assert forall k :: 0 <= k < |init| ==> init[k] == sets[k];
    }
  }

  lemma NoneAbortsSnoc(sets: seq<DataSet>, i: nat)
    requires i < |sets| && NoneAborts(sets[..i]) && !SetAborts(sets[i])
    ensures NoneAborts(sets[..i + 1])
  {
    assert sets[..i + 1][..i] == sets[..i];
  }

  /** The walk over data sets: each readable set is processed into the shared
      ntuple, a missing one is skipped, and the first set on which `check_evn`
      raises ends the script; `aborted` names that set. */
  method ProcessAll(t: Ntuple, sets: seq<DataSet>) returns (aborted: Option<nat>)
    modifies t
    ensures aborted.None? ==> NoneAborts(sets) && t.rows == old(t.rows) + AllRows(sets)
    ensures aborted.Some? ==>
      aborted.value < |sets| && SetAborts(sets[aborted.value]) &&
      NoneAborts(sets[..aborted.value]) &&
      t.rows == old(t.rows) + AllRows(sets[..aborted.value])
  {
    ghost var base := t.rows;
    var i := 0;
    while i < |sets|
      invariant 0 <= i <= |sets|
      invariant NoneAborts(sets[..i])
      invariant t.rows == base + AllRows(sets[..i])
    {
      var stop := WalkStep(t, sets, i, base);
      if stop {
        return Some(i);
      }
      NoneAbortsSnoc(sets, i);
      i := i + 1;
    }
    assert sets[..i] == sets;
    aborted := None;
  }

  /** One turn of the walk, given the rows of the sets before it. */
  method WalkStep(t: Ntuple, sets: seq<DataSet>, i: nat, ghost base: seq<Row>) returns (stop: bool)
    requires i < |sets| && t.rows == base + AllRows(sets[..i])
    modifies t
    ensures stop <==> SetAborts(sets[i])
    ensures stop ==> t.rows == old(t.rows)
    ensures !stop ==> t.rows == base + AllRows(sets[..i + 1])
  {
    ghost var done := AllRows(sets[..i]);
    ghost var next := SetRows(sets[i]);
    stop := ProcessSet(t, sets[i]);
    if !stop {
      AllRowsSnoc(sets, i);
      ConcatAssoc(base, done, next);
    }
  }
}
