/** The per-line parse of Termometros/Root/make_tuple.C: each line of a
    temperature log `YYYY-MM-DD,HH:MM:SS, Unidad: C, S1: v1, ..., S19: v19.`
    becomes one row of the `temps` tree, or none. The sensor pattern
    `S(\d+):\s*([-+]?\d+(?:\.\d+)?)` is a parameter `scan` that lists the
    (index, value) pairs it finds in a text, in order; sensor values are of
    an uninterpreted type V. */
module MakeTupleRows {
  import opened Common
  import opened CText
  import opened Scanf
  import opened MakeTuple

  /** `NSENS`: the sensors S1..S19. */
  const NSens: nat := 19

  const U32: nat := 0x1_0000_0000

  /** A value stored in an `unsigned int`: `%u` and unsigned arithmetic wrap
      modulo 2^32. */
  function U(x: int): (r: nat)
    ensures r < U32
  {
    x % U32
  }

  /** A sensor slot: the quiet NaN it is reset to, or a value read from the line. */
  datatype Reading<V> = NaN | Value(v: V)

  /** One row of the `temps` tree. `sensors[k - 1]` is the branch `S<k>`. */
  datatype TempRow<V> = TempRow(year: nat, month: nat, day: nat, hour: nat, minute: nat, second: nat,
                                tsec: nat, fileId: int, sensors: seq<Reading<V>>)

  predicate IsPunct(c: char) {
    c == '.' || c == ','
  }

  /** The trimmed line with one trailing '.' or ',' removed, or `None` for a
      line the loop skips (empty after trimming, or a '#' comment). */
  function CleanLine(raw: string): (r: Option<string>)
    ensures r.None? <==> Trim(raw) == [] || Trim(raw)[0] == '#'
    ensures r.Some? ==> var t := Trim(raw);
      (IsPunct(t[|t| - 1]) ==> t == r.value + [t[|t| - 1]]) && (!IsPunct(t[|t| - 1]) ==> t == r.value)
  {
    var t := Trim(raw);
    if t == [] || t[0] == '#' then None
    else if IsPunct(t[|t| - 1]) then Some(t[..|t| - 1])
    else Some(t)
  }

  /** The three parts of a line around its first two commas: the trimmed date,
      the trimmed time, and the untrimmed rest. */
  datatype Fields = Fields(date: string, time: string, rest: string)

  function SplitFields(line: string): Option<Fields> {
    match Find(line, ',', 0)
    case None => None
    case Some(p1) =>
      match Find(line, ',', p1 + 1)
      case None => None
      case Some(p2) => Some(Fields(Trim(line[..p1]), Trim(line[p1 + 1..p2]), line[p2 + 1..]))
  }

  /** `tsec = hour*3600u + minute*60u + second`, in unsigned arithmetic. */
  function TSec(h: nat, m: nat, s: nat): nat {
    U(h * 3600 + m * 60 + s)
  }

  /** The value the last match with index k left in `S[k]`, or NaN. */
  function SensorAt<V>(found: seq<(int, V)>, k: int): Reading<V>
    decreases |found|
  {
    if found == [] then NaN
    else if found[|found| - 1].0 == k then Value(found[|found| - 1].1)
    else SensorAt(found[..|found| - 1], k)
  }

  /** The branches S1..S19 after the matches of one line. */
  function Sensors<V>(found: seq<(int, V)>): (r: seq<Reading<V>>)
    ensures |r| == NSens
    ensures forall k :: 1 <= k <= NSens ==> r[k - 1] == SensorAt(found, k)
  {
    seq(NSens, i => SensorAt(found, i + 1))
  }

  /** The row a raw line fills, if any. */
  function LineRecord<V>(raw: string, fileId: int, scan: string -> seq<(int, V)>): Option<TempRow<V>> {
    match CleanLine(raw)
    case None => None
    case Some(line) => FieldsRecord(line, fileId, scan)
  }

  /** The row a cleaned line fills, if its date and time parse. */
  function FieldsRecord<V>(line: string, fileId: int, scan: string -> seq<(int, V)>): Option<TempRow<V>> {
    match SplitFields(line)
    case None => None
    case Some(f) =>
      match ScanTriple(f.date, 0, '-')
      case None => None
      case Some((y, mo, d, _)) =>
        match ScanTriple(f.time, 0, ':')
        case None => None
        case Some((h, mi, s, _)) =>
          var hour, minute, second := U(h), U(mi), U(s);
          Some(TempRow(U(y), U(mo), U(d), hour, minute, second, TSec(hour, minute, second), fileId,
                       Sensors(scan(f.rest))))
  }

  /** The body of the `getline` loop for one line. */
  method ParseLine<V>(raw: string, fileId: int, scan: string -> seq<(int, V)>) returns (row: Option<TempRow<V>>)
    ensures row == LineRecord(raw, fileId, scan)
  {
    var line := TrimCopy(raw);
    if line == [] || line[0] == '#' {
      return None;
    }
    if line[|line| - 1] == '.' || line[|line| - 1] == ',' {
      line := line[..|line| - 1];
    }
    var S := new Reading<V>[NSens + 1];
    ResetSensors(S);
    row := ParseFields(line, S, fileId, scan);
  }

  /** The rest of the loop body, from the comma search to the fill, with the
      sensor slots already reset. */
  method ParseFields<V>(line: string, S: array<Reading<V>>, fileId: int, scan: string -> seq<(int, V)>)
    returns (row: Option<TempRow<V>>)
    requires S.Length == NSens + 1
    requires forall k :: 1 <= k <= NSens ==> S[k] == NaN
    modifies S
    ensures row == FieldsRecord(line, fileId, scan)
  {
    var p1 := Find(line, ',', 0);
    if p1.None? {
      return None;
    }
    var p2 := Find(line, ',', p1.value + 1);
    if p2.None? {
      return None;
    }
    var date := TrimCopy(line[..p1.value]);
    var time := TrimCopy(line[p1.value + 1..p2.value]);
    var rest := line[p2.value + 1..];
    assert SplitFields(line) == Some(Fields(date, time, rest));
    var ymd := ScanTriple(date, 0, '-');
    if ymd.None? {
      return None;
    }
    var hms := ScanTriple(time, 0, ':');
    if hms.None? {
      return None;
    }
    var year, month, day := U(ymd.value.0), U(ymd.value.1), U(ymd.value.2);
    var hour, minute, second := U(hms.value.0), U(hms.value.1), U(hms.value.2);
    var tsec := TSec(hour, minute, second);
    StoreMatches(S, scan(rest));
    row := Some(TempRow(year, month, day, hour, minute, second, tsec, fileId, S[1..]));
  }

  /** `S[k] = quiet_NaN` for k = 1..19. */
  method ResetSensors<V>(S: array<Reading<V>>)
    requires S.Length == NSens + 1
    modifies S
    ensures forall k :: 1 <= k <= NSens ==> S[k] == NaN
    ensures S[0] == old(S[0])
  {
    for k := 1 to NSens + 1
      invariant forall i :: 1 <= i < k ==> S[i] == NaN
      invariant S[0] == old(S[0])
    {
      S[k] := NaN;
    }
  }

  /** The loop over the sensor matches: an index in 1..19 stores its value,
      any other index is ignored. Afterwards `S[1..]` holds the branches. */
  method StoreMatches<V>(S: array<Reading<V>>, found: seq<(int, V)>)
    requires S.Length == NSens + 1
    requires forall k :: 1 <= k <= NSens ==> S[k] == NaN
    modifies S
    ensures S[1..] == Sensors(found)
  {
    for m := 0 to |found|
      invariant forall k :: 1 <= k <= NSens ==> S[k] == SensorAt(found[..m], k)
    {
      assert found[..m + 1][..m] == found[..m];
      var idx := found[m].0;
      if 1 <= idx <= NSens {
        S[idx] := Value(found[m].1);
      }
    }
    assert found[..|found|] == found;
    assert forall k :: 0 <= k < NSens ==> S[1..][k] == S[k + 1];
  }

  /** A blank line or a comment fills nothing. */
  lemma SkippedLines<V>(raw: string, fileId: int, scan: string -> seq<(int, V)>)
    requires Trim(raw) == [] || Trim(raw)[0] == '#'
    ensures LineRecord(raw, fileId, scan) == None
  {
  }

  /** A clock time of the day is stored as its seconds since midnight, and
      hour, minute and second can be read back from it. */
  lemma TSecClock(h: nat, m: nat, s: nat)
    requires h < 24 && m < 60 && s < 60
    ensures TSec(h, m, s) < 86400
    ensures TSec(h, m, s) / 3600 == h && (TSec(h, m, s) % 3600) / 60 == m && TSec(h, m, s) % 60 == s
  {
    var t := h * 3600 + m * 60 + s;
    assert t < 86400;
    assert TSec(h, m, s) == t;
    assert t == h * 3600 + (m * 60 + s) && m * 60 + s < 3600;
    assert t == (h * 60 + m) * 60 + s;
  }

  /** A line written in the log format `Y-M-D,h:m:s,<rest>` is read back: the
      row holds the date and time it was written with (as `unsigned int`s),
      and the sensors the pattern finds in the rest, without its final '.'
      or ','. */
  lemma LineRoundTrip<V>(y: nat, mo: nat, d: nat, h: nat, mi: nat, s: nat, rest: string,
                         fileId: int, scan: string -> seq<(int, V)>)
    requires rest != [] && !IsSpace(rest[|rest| - 1])
    ensures var text := TripleText(y, mo, d, '-') + "," + TripleText(h, mi, s, ':') + "," + rest;
      var tail := if IsPunct(rest[|rest| - 1]) then rest[..|rest| - 1] else rest;
      LineRecord(text, fileId, scan) ==
        Some(TempRow(U(y), U(mo), U(d), U(h), U(mi), U(s), TSec(U(h), U(mi), U(s)), fileId, Sensors(scan(tail))))
  {
    var date, time := TripleText(y, mo, d, '-'), TripleText(h, mi, s, ':');
    var tail := if IsPunct(rest[|rest| - 1]) then rest[..|rest| - 1] else rest;
    TripleTextReads(y, mo, d, '-');
    TripleTextReads(h, mi, s, ':');
    var line := WrittenLine(date, time, rest, tail);
    FieldsParsed(line, Fields(date, time, tail), y, mo, d, |date|, h, mi, s, |time|, fileId, scan);
  }

  /** A written line cleans to its date, time and punctuation-free rest, and
      splits into them. */
  lemma WrittenLine(date: string, time: string, rest: string, tail: string) returns (line: string)
    requires date != [] && IsDigit(date[0]) && IsDigit(date[|date| - 1])
    requires time != [] && IsDigit(time[0]) && IsDigit(time[|time| - 1])
    requires forall k :: 0 <= k < |date| ==> date[k] != ','
    requires forall k :: 0 <= k < |time| ==> time[k] != ','
    requires rest != [] && !IsSpace(rest[|rest| - 1])
    requires tail == if IsPunct(rest[|rest| - 1]) then rest[..|rest| - 1] else rest
    ensures CleanLine(date + "," + time + "," + rest) == Some(line)
    ensures SplitFields(line) == Some(Fields(date, time, tail))
  {
    CleanWritten(date, time, rest, tail);
    SplitWritten(date, time, tail);
    line := date + "," + time + "," + tail;
  }

  /** A cleaned line whose date and time convert fills the row they give. */
  lemma FieldsParsed<V>(line: string, f: Fields, y: int, mo: int, d: int, e1: nat, h: int, mi: int, s: int, e2: nat,
                        fileId: int, scan: string -> seq<(int, V)>)
    requires SplitFields(line) == Some(f)
    requires ScanTriple(f.date, 0, '-') == Some((y, mo, d, e1))
    requires ScanTriple(f.time, 0, ':') == Some((h, mi, s, e2))
    ensures FieldsRecord(line, fileId, scan) ==
      Some(TempRow(U(y), U(mo), U(d), U(h), U(mi), U(s), TSec(U(h), U(mi), U(s)), fileId, Sensors(scan(f.rest))))
  {
  }

  /** Cleaning a written line only drops the final punctuation of its rest. */
  lemma CleanWritten(date: string, time: string, rest: string, tail: string)
    requires date != [] && !IsSpace(date[0]) && date[0] != '#'
    requires rest != [] && !IsSpace(rest[|rest| - 1])
    requires tail == if IsPunct(rest[|rest| - 1]) then rest[..|rest| - 1] else rest
    ensures CleanLine(date + "," + time + "," + rest) == Some(date + "," + time + "," + tail)
  {
    var text := date + "," + time + "," + rest;
    assert text[0] == date[0] && text[|text| - 1] == rest[|rest| - 1];
    TrimTrimmed(text);
    if IsPunct(rest[|rest| - 1]) {
      assert text[..|text| - 1] == date + "," + time + "," + tail;
    }
  }

  /** The first two commas of a written line are the ones after the date and
      after the time. */
  lemma SplitWritten(date: string, time: string, tail: string)
    requires date != [] && !IsSpace(date[0]) && !IsSpace(date[|date| - 1])
    requires time != [] && !IsSpace(time[0]) && !IsSpace(time[|time| - 1])
    requires forall k :: 0 <= k < |date| ==> date[k] != ','
    requires forall k :: 0 <= k < |time| ==> time[k] != ','
    ensures SplitFields(date + "," + time + "," + tail) == Some(Fields(date, time, tail))
  {
    var line := date + "," + time + "," + tail;
    var p1, p2 := |date|, |date| + 1 + |time|;
    assert line[p1] == ',' && line[p2] == ',';
    assert forall k :: 0 <= k < p1 ==> line[k] == date[k];
    assert forall k :: p1 + 1 <= k < p2 ==> line[k] == time[k - p1 - 1];
    FindAt(line, ',', 0, p1);
    FindAt(line, ',', p1 + 1, p2);
    assert line[..p1] == date && line[p1 + 1..p2] == time && line[p2 + 1..] == tail;
    TrimTrimmed(date);
    TrimTrimmed(time);
  }

  /** A match with an index outside 1..19 changes no branch. */
  lemma OutOfRangeIgnored<V>(found: seq<(int, V)>, idx: int, v: V)
    requires idx < 1 || idx > NSens
    ensures Sensors(found + [(idx, v)]) == Sensors(found)
  {
    var g := found + [(idx, v)];
    assert g[..|g| - 1] == found;
    assert forall k :: 1 <= k <= NSens ==> SensorAt(g, k) == SensorAt(found, k);
  }

  /** The last match for a sensor decides its branch. */
  lemma LastMatchWins<V>(found: seq<(int, V)>, k: int, v: V)
    requires 1 <= k <= NSens
    ensures Sensors(found + [(k, v)])[k - 1] == Value(v)
  {
  }

  /** A sensor that no match names stays NaN. */
  lemma {:induction false} UnnamedIsNaN<V>(found: seq<(int, V)>, k: int)
    requires forall i :: 0 <= i < |found| ==> found[i].0 != k
    ensures SensorAt(found, k) == NaN
    decreases |found|
  {
    if found != [] {
      UnnamedIsNaN(found[..|found| - 1], k);
    }
  }

  /** The rows a file's lines fill, in order. */
  function FileRows<V>(lines: seq<string>, fileId: int, scan: string -> seq<(int, V)>): seq<TempRow<V>>
    decreases |lines|
  {
    if lines == [] then []
    else
      var r := LineRecord(lines[|lines| - 1], fileId, scan);
      FileRows(lines[..|lines| - 1], fileId, scan) + (if r.Some? then [r.value] else [])
  }

  /** The rows of all files; a file that cannot be opened is `None` and fills
      nothing, but still uses up its `file_id`. */
  function AllRows<V>(files: seq<Option<seq<string>>>, scan: string -> seq<(int, V)>): seq<TempRow<V>>
    decreases |files|
  {
    if files == [] then []
    else
      var f := files[|files| - 1];
      AllRows(files[..|files| - 1], scan) + (if f.Some? then FileRows(f.value, |files| - 1, scan) else [])
  }

  /** Every row carries the position of an opened file as its `file_id`. */
  lemma {:induction false} FileIdsArePositions<V>(files: seq<Option<seq<string>>>, scan: string -> seq<(int, V)>)
    ensures forall r :: r in AllRows(files, scan) ==> 0 <= r.fileId < |files| && files[r.fileId].Some?
    decreases |files|
  {
    if files != [] {
      var init := files[..|files| - 1];
      FileIdsArePositions(init, scan);
      var f := files[|files| - 1];
      if f.Some? {
        FileRowsId(f.value, |files| - 1, scan);
      }
      assert forall i :: 0 <= i < |init| ==> init[i] == files[i];
    }
  }

  lemma {:induction false} FileRowsId<V>(lines: seq<string>, fileId: int, scan: string -> seq<(int, V)>)
    ensures forall r :: r in FileRows(lines, fileId, scan) ==> r.fileId == fileId
    decreases |lines|
  {
    if lines != [] {
      FileRowsId(lines[..|lines| - 1], fileId, scan);
    }
  }

  /** The `temps` tree, as the rows filled so far. */
  class TempTree<V> {
    var rows: seq<TempRow<V>>

    constructor()
      ensures rows == []
    {
      rows := [];
    }

    method Fill(r: TempRow<V>)
      modifies this
      ensures rows == old(rows) + [r]
    {
      rows := rows + [r];
    }
  }

  /** The `getline` loop over one file. */
  method FillFile<V>(t: TempTree<V>, lines: seq<string>, fileId: int, scan: string -> seq<(int, V)>)
    modifies t
    ensures t.rows == old(t.rows) + FileRows(lines, fileId, scan)
  {
    for i := 0 to |lines|
      invariant t.rows == old(t.rows) + FileRows(lines[..i], fileId, scan)
    {
      assert lines[..i + 1][..i] == lines[..i];
      var row := ParseLine(lines[i], fileId, scan);
      ghost var done := FileRows(lines[..i], fileId, scan);
      if row.Some? {
        t.Fill(row.value);
        ConcatAssoc(old(t.rows), done, [row.value]);
      }
    }
    assert lines[..|lines|] == lines;
  }

  /** The loop over the input files: file i gets `file_id` i. */
  method FillAll<V>(t: TempTree<V>, files: seq<Option<seq<string>>>, scan: string -> seq<(int, V)>)
    modifies t
    ensures t.rows == old(t.rows) + AllRows(files, scan)
  {
    for i := 0 to |files|
      invariant t.rows == old(t.rows) + AllRows(files[..i], scan)
    {
      assert files[..i + 1][..i] == files[..i];
      ghost var done := AllRows(files[..i], scan);
      var f := files[i];
      if f.None? {
        continue;
      }
      FillFile(t, f.value, i, scan);
      ConcatAssoc(old(t.rows), done, FileRows(f.value, i, scan));
    }
    assert files[..|files|] == files;
  }
}
