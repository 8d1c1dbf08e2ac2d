/** The time-window cut of Termometros/Root/temp_root/draw_range.C: a start
    and an optional end, each written `YYYY-MM-DD HH:MM:SS`, become a
    selection over the `temps` tree's compact date `ymd`, its `tsec` and its
    `file_id`. The selection is modelled as the predicate the ROOT formula
    evaluates, not as the formula's text. */
module DrawRange {
  import opened Common
  import opened CText
  import opened Scanf
  import MakeTupleRows

  /** The six conversions of `"%d-%d-%d %d:%d:%d"`: a date triple, then,
      on the input left after it, the white-space directive and a time
      triple. Anything after them is ignored. */
  function ScanDt(s: string): (r: Option<(int, int, int, int, int, int)>) {
    match ScanTriple(s, 0, '-')
    case None => None
    case Some((y, mo, d, p)) =>
      var left := s[p..];
      match ScanTriple(left, SkipSpaces(left, 0), ':')
      case None => None
      case Some((h, mi, sec, _)) => Some((y, mo, d, h, mi, sec))
  }

  /** The compact date, as both `parse_dt` and the tree alias `ymd` form it. */
  function Ymd(y: int, mo: int, d: int): int {
    y * 10000 + mo * 100 + d
  }

  /** Seconds since midnight. */
  function DaySeconds(h: int, mi: int, sec: int): int {
    h * 3600 + mi * 60 + sec
  }

  /** `parse_dt`: a null or empty text, or one where fewer than six numbers
      convert, gives `None`; otherwise `(ymd, tsec)`. */
  function ParseDt(dt: Option<string>): (r: Option<(int, int)>)
    ensures r.Some? <==> dt.Some? && dt.value != [] && ScanDt(dt.value).Some?
    ensures r.Some? ==>
      var f := ScanDt(dt.value).value;
      r.value == (Ymd(f.0, f.1, f.2), DaySeconds(f.3, f.4, f.5))
  {
    if dt.None? || dt.value == [] then None
    else
      match ScanDt(dt.value)
      case None => None
      case Some((y, mo, d, h, mi, sec)) => Some((Ymd(y, mo, d), DaySeconds(h, mi, sec)))
  }

  /** A date and a time as a user types them: six digit strings, possibly
      zero-padded, one blank between date and time. */
  function DtText(y: string, mo: string, d: string, h: string, mi: string, sec: string): string {
    Joined(y, '-', mo, d) + [' '] + Joined(h, ':', mi, sec)
  }

  predicate Numeral(d: string) {
    d != [] && AllDigits(d)
  }

  /** The position just after a triple of numerals written at p. */
  function TripleEnd(p: nat, dx: string, dy: string, dz: string): nat {
    p + |dx| + 1 + |dy| + 1 + |dz|
  }

  /** s holds the numerals dx, dy, dz at p, separated by sep and followed by a
      non-digit or the end of s. */
  predicate HoldsTriple(s: string, p: nat, sep: char, dx: string, dy: string, dz: string) {
    var p1 := p + |dx|;
    var p3 := p1 + 1 + |dy|;
    var e := TripleEnd(p, dx, dy, dz);
    !IsDigit(sep) && Numeral(dx) && Numeral(dy) && Numeral(dz) && e <= |s| &&
    SpellsAt(s, p, dx) && s[p1] == sep && SpellsAt(s, p1 + 1, dy) && s[p3] == sep && SpellsAt(s, p3 + 1, dz) &&
    (e == |s| || !IsDigit(s[e]))
  }

  /** `"%d<c>%d<c>%d"` reads the three numerals of a triple that s holds at p. */
  lemma ScanHeldTriple(s: string, p: nat, sep: char, dx: string, dy: string, dz: string)
    requires HoldsTriple(s, p, sep, dx, dy, dz)
    ensures ScanTriple(s, p, sep) ==
      Some((DecValue(dx) as int, DecValue(dy) as int, DecValue(dz) as int, TripleEnd(p, dx, dy, dz)))
  {
    ScanTripleDigits(s, sep, dx, dy, dz, p, p + |dx|, p + |dx| + 1 + |dy|, TripleEnd(p, dx, dy, dz));
  }

  /** A triple written between a prefix and a suffix that does not start with
      a digit is held there. */
  lemma TripleWritten(s: string, pre: string, sep: char, dx: string, dy: string, dz: string, post: string)
    requires !IsDigit(sep) && Numeral(dx) && Numeral(dy) && Numeral(dz)
    requires post == [] || !IsDigit(post[0])
    requires s == pre + Joined(dx, sep, dy, dz) + post
    ensures HoldsTriple(s, |pre|, sep, dx, dy, dz)
  {
    var t := Joined(dx, sep, dy, dz);
    var p := |pre|;
    SpellsConcat(pre, t, post);
    JoinedSpells(dx, sep, dy, dz);
    SpellsWithin(s, p, t, 0, dx);
    SpellsWithin(s, p, t, |dx| + 1, dy);
    SpellsWithin(s, p, t, |dx| + 1 + |dy| + 1, dz);
    assert s[p + |dx|] == t[|dx|];
    assert s[p + (|dx| + 1 + |dy|)] == t[|dx| + 1 + |dy|];
    assert post != [] ==> s[p + |t|] == post[0];
  }

  /** s holds a date triple at 0, then one blank and a time triple. */
  predicate HoldsDt(s: string, y: string, mo: string, d: string, h: string, mi: string, sec: string) {
    var q := TripleEnd(0, y, mo, d);
    HoldsTriple(s, 0, '-', y, mo, d) && q < |s| && HoldsTime(s[q..], h, mi, sec)
  }

  /** One blank and a time triple. */
  predicate HoldsTime(left: string, h: string, mi: string, sec: string) {
    |left| > 1 && left[0] == ' ' && HoldsTriple(left, 1, ':', h, mi, sec)
  }

  /** A text holding a date and a time parses to them. */
  lemma ParseHeldDt(s: string, y: string, mo: string, d: string, h: string, mi: string, sec: string)
    requires HoldsDt(s, y, mo, d, h, mi, sec)
    ensures ParseDt(Some(s)) ==
      Some((Ymd(DecValue(y), DecValue(mo), DecValue(d)), DaySeconds(DecValue(h), DecValue(mi), DecValue(sec))))
  {
    var q := TripleEnd(0, y, mo, d);
    ScanHeldTriple(s, 0, '-', y, mo, d);
    ScanHeldTime(s[q..], h, mi, sec);
    ScanDtFrom(s, q, DecValue(y), DecValue(mo), DecValue(d), DecValue(h), DecValue(mi), DecValue(sec));
  }

  /** The six conversions combined. */
  lemma ScanDtFrom(s: string, q: nat, y: int, mo: int, d: int, h: int, mi: int, sec: int)
    requires 0 < q < |s|
    requires ScanTriple(s, 0, '-') == Some((y, mo, d, q))
    requires SkipSpaces(s[q..], 0) == 1
    requires ScanTriple(s[q..], 1, ':').Some?
    requires var t := ScanTriple(s[q..], 1, ':').value; t.0 == h && t.1 == mi && t.2 == sec
    ensures ParseDt(Some(s)) == Some((Ymd(y, mo, d), DaySeconds(h, mi, sec)))
  {
  }

  /** After the date, the blank is skipped and the time triple read. */
  lemma ScanHeldTime(left: string, h: string, mi: string, sec: string)
    requires HoldsTime(left, h, mi, sec)
    ensures SkipSpaces(left, 0) == 1
    ensures ScanTriple(left, 1, ':').Some? && ScanTriple(left, 1, ':').value.0 == DecValue(h) &&
      ScanTriple(left, 1, ':').value.1 == DecValue(mi) && ScanTriple(left, 1, ':').value.2 == DecValue(sec)
  {
    assert left[1 + 0] == h[0];
    OneBlank(left, 0);
    ScanHeldTriple(left, 1, ':', h, mi, sec);
  }

  /** White space skipping over a single blank before a digit. */
  lemma OneBlank(s: string, p: nat)
    requires p + 1 < |s| && s[p] == ' ' && IsDigit(s[p + 1])
    ensures SkipSpaces(s, p) == p + 1
  {
    assert SkipSpaces(s, p + 1) == p + 1;
  }

  /** A typed date and time, followed by a non-digit or nothing, holds them. */
  lemma DtTextHolds(y: string, mo: string, d: string, h: string, mi: string, sec: string, tail: string)
    requires Numeral(y) && Numeral(mo) && Numeral(d) && Numeral(h) && Numeral(mi) && Numeral(sec)
    requires tail == [] || !IsDigit(tail[0])
    ensures HoldsDt(DtText(y, mo, d, h, mi, sec) + tail, y, mo, d, h, mi, sec)
  {
    var date, time := Joined(y, '-', mo, d), Joined(h, ':', mi, sec);
    var s := DtText(y, mo, d, h, mi, sec) + tail;
    var left := [' '] + (time + tail);
    ConcatAssoc(date + [' '], time, tail);
    ConcatAssoc(date, [' '], time + tail);
    assert s == date + left;
    assert [] + date == date;
    TripleWritten(s, [], '-', y, mo, d, left);
    assert s[|date|..] == left;
    ConcatAssoc([' '], time, tail);
    TripleWritten(left, [' '], ':', h, mi, sec, tail);
  }

  /** Reading back a typed date and time: the six numerals are converted and
      combined, whatever follows them (a non-digit, or nothing). */
  lemma ParseDtReads(y: string, mo: string, d: string, h: string, mi: string, sec: string, tail: string)
    requires Numeral(y) && Numeral(mo) && Numeral(d) && Numeral(h) && Numeral(mi) && Numeral(sec)
    requires tail == [] || !IsDigit(tail[0])
    ensures ParseDt(Some(DtText(y, mo, d, h, mi, sec) + tail)) ==
      Some((Ymd(DecValue(y), DecValue(mo), DecValue(d)), DaySeconds(DecValue(h), DecValue(mi), DecValue(sec))))
  {
    DtTextHolds(y, mo, d, h, mi, sec, tail);
    ParseHeldDt(DtText(y, mo, d, h, mi, sec) + tail, y, mo, d, h, mi, sec);
  }

  /** A date with no time after it has only three of the six numbers, so it
      does not parse. */
  lemma DateOnlyFails(y: string, mo: string, d: string)
    requires Numeral(y) && Numeral(mo) && Numeral(d)
    ensures ParseDt(Some(Joined(y, '-', mo, d))) == None
  {
    var s := Joined(y, '-', mo, d);
    assert s == [] + s + [];
    TripleWritten(s, [], '-', y, mo, d, []);
    ScanHeldTriple(s, 0, '-', y, mo, d);
    NothingLeft(s, DecValue(y), DecValue(mo), DecValue(d));
  }

  /** A date triple that uses up the whole input leaves no time to convert. */
  lemma NothingLeft(s: string, y: int, mo: int, d: int)
    requires s != [] && ScanTriple(s, 0, '-') == Some((y, mo, d, |s|))
    ensures ParseDt(Some(s)) == None
  {
    assert s[|s|..] == [];
  }

  /** The start time of the usage examples. */
  lemma ParseDtExample()
    ensures ParseDt(Some("2025-08-19 15:22:22")) == Some((20250819, 55342))
  {
    ExampleNumerals();
    assert DtText("2025", "08", "19", "15", "22", "22") + "" == "2025-08-19 15:22:22";
    ParseDtReads("2025", "08", "19", "15", "22", "22", "");
  }

  /** The numerals of that example and their values. */
  lemma ExampleNumerals()
    ensures Numeral("2025") && Numeral("08") && Numeral("19") && Numeral("15") && Numeral("22")
    ensures DecValue("2025") == 2025 && DecValue("08") == 8 && DecValue("19") == 19
    ensures DecValue("15") == 15 && DecValue("22") == 22
  {
    assert "2025"[..3] == "202" && "202"[..2] == "20" && "20"[..1] == "2";
    assert DecValue("2") == 2 && DecValue("20") == 20 && DecValue("202") == 202;
    assert DecValue("0") == 0 && DecValue("1") == 1;
  }

  /** With month and day below 100 the compact date orders dates as the
      calendar does: year first, then month, then day. */
  lemma YmdOrder(y1: int, m1: int, d1: int, y2: int, m2: int, d2: int)
    requires 0 <= m1 < 100 && 0 <= d1 < 100 && 0 <= m2 < 100 && 0 <= d2 < 100
    ensures Ymd(y1, m1, d1) < Ymd(y2, m2, d2) <==>
      y1 < y2 || (y1 == y2 && (m1 < m2 || (m1 == m2 && d1 < d2)))
    ensures Ymd(y1, m1, d1) == Ymd(y2, m2, d2) <==> y1 == y2 && m1 == m2 && d1 == d2
  {
  }

  /** The three shapes of the time formula. */
  datatype Window =
    | From(ymdS: int, tsS: int)
    | SameDay(ymd: int, tsS: int, tsE: int)
    | Across(ymdS: int, tsS: int, ymdE: int, tsE: int)

  /** The cut: `NoCut` is `TCut("")`, which ROOT applies as no selection at
      all; otherwise a window and, for `file_id >= 0`, the file it is
      restricted to. */
  datatype Sel = NoCut | Cut(window: Window, file: Option<int>)

  /** `build_sel`. */
  function BuildSel(start: Option<string>, end: Option<string>, fileId: int): (c: Sel)
    ensures c.NoCut? <==> ParseDt(start).None?
    ensures c.Cut? ==> (c.file.Some? <==> fileId >= 0) && (c.file.Some? ==> c.file.value == fileId)
    ensures c.Cut? ==> (c.window.From? <==> ParseDt(end).None?)
  {
    match ParseDt(start)
    case None => NoCut
    case Some((ymdS, tsS)) =>
      var hasEnd := end.Some? && end.value != [] && ParseDt(end).Some?;
      var w :=
        if !hasEnd then From(ymdS, tsS)
        else
          var (ymdE, tsE) := ParseDt(end).value;
          if ymdS == ymdE then SameDay(ymdS, tsS, tsE) else Across(ymdS, tsS, ymdE, tsE);
      Cut(w, if fileId >= 0 then Some(fileId) else None)
  }

  /** The formula of each window shape, as the tree evaluates it per entry. */
  predicate InWindow(w: Window, ymd: int, tsec: int) {
    match w
    case From(s, ts) => ymd > s || (ymd == s && tsec >= ts)
    case SameDay(s, ts, te) => ymd == s && tsec >= ts && tsec <= te
    case Across(s, ts, e, te) => (ymd > s && ymd < e) || (ymd == s && tsec >= ts) || (ymd == e && tsec <= te)
  }

  /** Whether the cut keeps an entry with these `ymd`, `tsec` and `file_id`. */
  predicate Admits(c: Sel, ymd: int, tsec: int, fid: int) {
    match c
    case NoCut => true
    case Cut(w, f) => (f.None? || fid == f.value) && InWindow(w, ymd, tsec)
  }

  /** (y1, t1) is no later than (y2, t2): by day, then by second. */
  predicate LexLe(y1: int, t1: int, y2: int, t2: int) {
    y1 < y2 || (y1 == y2 && t1 <= t2)
  }

  /** An unparsable start applies no cut: every entry is kept. */
  lemma UnparsableStartKeepsAll(start: Option<string>, end: Option<string>, fileId: int, ymd: int, tsec: int, fid: int)
    requires ParseDt(start).None?
    ensures BuildSel(start, end, fileId) == NoCut
    ensures Admits(BuildSel(start, end, fileId), ymd, tsec, fid)
  {
  }

  /** Without a usable end the cut keeps exactly the instants from the start
      onwards. */
  lemma OpenEnded(start: Option<string>, end: Option<string>, ymd: int, tsec: int, fid: int)
    requires ParseDt(start).Some?
    requires ParseDt(end).None?
    ensures var (ymdS, tsS) := ParseDt(start).value;
      Admits(BuildSel(start, end, -1), ymd, tsec, fid) <==> LexLe(ymdS, tsS, ymd, tsec)
  {
  }

  /** A start and an end on the same day keep that day's seconds from the
      start to the end, both included, and nothing when the end comes first. */
  lemma SameDayInterval(start: Option<string>, end: Option<string>, ymd: int, tsec: int, fid: int)
    requires ParseDt(start).Some? && ParseDt(end).Some?
    requires ParseDt(start).value.0 == ParseDt(end).value.0
    ensures var (ymdS, tsS) := ParseDt(start).value;
      var tsE := ParseDt(end).value.1;
      (Admits(BuildSel(start, end, -1), ymd, tsec, fid) <==> ymd == ymdS && tsS <= tsec <= tsE) &&
      (tsS > tsE ==> !Admits(BuildSel(start, end, -1), ymd, tsec, fid))
  {
  }

  /** An end on a later day than the start keeps exactly the closed interval
      from the start to the end. */
  lemma ForwardInterval(start: Option<string>, end: Option<string>, ymd: int, tsec: int, fid: int)
    requires ParseDt(start).Some? && ParseDt(end).Some?
    requires ParseDt(start).value.0 < ParseDt(end).value.0
    ensures var (ymdS, tsS) := ParseDt(start).value;
      var (ymdE, tsE) := ParseDt(end).value;
      Admits(BuildSel(start, end, -1), ymd, tsec, fid) <==> LexLe(ymdS, tsS, ymd, tsec) && LexLe(ymd, tsec, ymdE, tsE)
  {
  }

  /** An end on an earlier day than the start does not give an empty cut: the
      two border clauses still keep the start day from the start time on and
      the end day up to the end time. */
  lemma ReversedKeepsBorderDays(start: Option<string>, end: Option<string>, ymd: int, tsec: int, fid: int)
    requires ParseDt(start).Some? && ParseDt(end).Some?
    requires ParseDt(start).value.0 > ParseDt(end).value.0
    ensures var (ymdS, tsS) := ParseDt(start).value;
      var (ymdE, tsE) := ParseDt(end).value;
      (Admits(BuildSel(start, end, -1), ymd, tsec, fid) <==>
        (ymd == ymdS && tsec >= tsS) || (ymd == ymdE && tsec <= tsE)) &&
      Admits(BuildSel(start, end, -1), ymdS, tsS, fid)
  {
  }

  /** A non-negative `file_id` adds the conjunct `file_id == id` to the time
      window; a negative one leaves the window alone for every file. */
  lemma FileRestriction(start: Option<string>, end: Option<string>, fileId: int, ymd: int, tsec: int, fid: int)
    requires ParseDt(start).Some?
    ensures fileId >= 0 ==>
      (Admits(BuildSel(start, end, fileId), ymd, tsec, fid) <==>
        fid == fileId && Admits(BuildSel(start, end, -1), ymd, tsec, fid))
    ensures fileId < 0 ==>
      (Admits(BuildSel(start, end, fileId), ymd, tsec, fid) <==> Admits(BuildSel(start, end, -1), ymd, tsec, 0))
  {
  }

  /** The entry of the `temps` tree that the cut is evaluated on: `ymd` is
      the alias `year*10000 + month*100 + day`. */
  predicate Keeps<V>(c: Sel, r: MakeTupleRows.TempRow<V>) {
    Admits(c, Ymd(r.year, r.month, r.day), r.tsec, r.fileId)
  }

  /** The entries `GetEntries(sel)` counts and `CopyTree(sel)` copies, in
      tree order. */
  function Subset<V>(c: Sel, rows: seq<MakeTupleRows.TempRow<V>>): (out: seq<MakeTupleRows.TempRow<V>>)
    ensures |out| <= |rows|
    decreases |rows|
  {
    if rows == [] then []
    else
      var last := rows[|rows| - 1];
      Subset(c, rows[..|rows| - 1]) + (if Keeps(c, last) then [last] else [])
  }

  /** The subset holds exactly the kept entries, and with no cut it is the
      whole tree. */
  lemma {:induction false} SubsetExact<V>(c: Sel, rows: seq<MakeTupleRows.TempRow<V>>)
    ensures forall r :: r in Subset(c, rows) <==> r in rows && Keeps(c, r)
    ensures c.NoCut? ==> Subset(c, rows) == rows
    decreases |rows|
  {
    if rows != [] {
      var init := rows[..|rows| - 1];
      SubsetExact(c, init);
      assert rows == init + [rows[|rows| - 1]];
    }
  }
}
