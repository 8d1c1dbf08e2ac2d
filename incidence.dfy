/** The event selection of Python/1_angulo_incidencia_coordenada.py: a strip
    pair (A2, B2) on the second plate is chosen, and every entry of the
    `matedata` table that hit exactly that pair, with all four strip indices
    on the grid, is collected together with its (A1, B1) and horizontal
    offsets. The angles and the line fit themselves are floating point and
    are not modelled; which events reach them is. */
module Incidence {
  import opened Common
  import MuonCsv

  /** The plate is 0.36 m wide and carries 12 strips. */
  const PlateWidth: real := 0.36
  const Pitch: real := PlateWidth / 12.0

  /** A strip index on the 12-strip grid. */
  predicate InGrid(x: int) {
    0 <= x <= 11
  }

  /** An entry whose first two plates both carry a real hit on each axis. */
  predicate Valid(r: MuonCsv.Row) {
    InGrid(r.a2) && InGrid(r.b2) && InGrid(r.a1) && InGrid(r.b1)
  }

  predicate Selected(r: MuonCsv.Row, a2Sel: int, b2Sel: int) {
    Valid(r) && r.a2 == a2Sel && r.b2 == b2Sel
  }

  /** One collected event: its entry index, its (A1, B1) and the offsets
      `dx = (A2 - A1) * pitch`, `dy = (B2 - B1) * pitch`. */
  datatype Match = Match(index: nat, a1: int, b1: int, dx: real, dy: real)

  function MatchOf(i: nat, r: MuonCsv.Row): Match {
    Match(i, r.a1, r.b1, (r.a2 - r.a1) as real * Pitch, (r.b2 - r.b1) as real * Pitch)
  }

  /** The events the loop collects from the first |rows| entries. */
  function Matches(rows: seq<MuonCsv.Row>, a2Sel: int, b2Sel: int): seq<Match>
    decreases |rows|
  {
    if rows == [] then []
    else
      var last := rows[|rows| - 1];
      Matches(rows[..|rows| - 1], a2Sel, b2Sel)
      + (if Selected(last, a2Sel, b2Sel) then [MatchOf(|rows| - 1, last)] else [])
  }

  /** Every collected event is a selected entry, recorded with its own index
      and its unchanged A1 and B1, and the indices ascend. */
  lemma {:induction false} MatchesSound(rows: seq<MuonCsv.Row>, a2Sel: int, b2Sel: int)
    ensures forall k :: 0 <= k < |Matches(rows, a2Sel, b2Sel)| ==>
      var m := Matches(rows, a2Sel, b2Sel)[k];
      m.index < |rows| && Selected(rows[m.index], a2Sel, b2Sel) && m == MatchOf(m.index, rows[m.index])
    ensures forall k, l :: 0 <= k < l < |Matches(rows, a2Sel, b2Sel)| ==>
      Matches(rows, a2Sel, b2Sel)[k].index < Matches(rows, a2Sel, b2Sel)[l].index
    decreases |rows|
  {
    if rows != [] {
      var init := rows[..|rows| - 1];
      MatchesSound(init, a2Sel, b2Sel);
      assert forall i :: 0 <= i < |init| ==> init[i] == rows[i];
    }
  }

  /** Every selected entry is collected. */
  lemma {:induction false} MatchesComplete(rows: seq<MuonCsv.Row>, a2Sel: int, b2Sel: int, i: nat)
    requires i < |rows| && Selected(rows[i], a2Sel, b2Sel)
    ensures exists k :: 0 <= k < |Matches(rows, a2Sel, b2Sel)| && Matches(rows, a2Sel, b2Sel)[k].index == i
    decreases |rows|
  {
    var init := rows[..|rows| - 1];
    var ms := Matches(rows, a2Sel, b2Sel);
    if i == |rows| - 1 {
      assert ms[|ms| - 1].index == i;
    } else {
      assert init[i] == rows[i];
      MatchesComplete(init, a2Sel, b2Sel, i);
      var k :| 0 <= k < |Matches(init, a2Sel, b2Sel)| && Matches(init, a2Sel, b2Sel)[k].index == i;
      assert ms[k] == Matches(init, a2Sel, b2Sel)[k];
    }
  }

  /** An entry with a strip index off the grid, such as the -1 of an
      ambiguous hit, is never collected. */
  lemma SentinelNeverKept(rows: seq<MuonCsv.Row>, a2Sel: int, b2Sel: int, i: nat)
    requires i < |rows|
    requires rows[i].a1 == -1 || rows[i].b1 == -1 || rows[i].a2 == -1 || rows[i].b2 == -1
    ensures forall m :: m in Matches(rows, a2Sel, b2Sel) ==> m.index != i
  {
    MatchesSound(rows, a2Sel, b2Sel);
  }

  /** The horizontal offset vanishes exactly when the two plates were hit on
      the same strips. */
  lemma OffsetZeroIff(i: nat, r: MuonCsv.Row)
    ensures MatchOf(i, r).dx == 0.0 && MatchOf(i, r).dy == 0.0 <==> r.a1 == r.a2 && r.b1 == r.b2
  {
  }

  /** The filter loop of `main`: the lists `lista_A1`, `lista_B1` and
      `angulos_evento` grow together, one entry per collected event. */
  method Collect(rows: seq<MuonCsv.Row>, a2Sel: int, b2Sel: int)
    returns (listA1: seq<int>, listB1: seq<int>, events: seq<Match>)
    ensures events == Matches(rows, a2Sel, b2Sel)
    ensures |listA1| == |events| && |listB1| == |events|
    ensures forall k :: 0 <= k < |events| ==> listA1[k] == events[k].a1 && listB1[k] == events[k].b1
  {
    listA1, listB1, events := [], [], [];
    for i := 0 to |rows|
      invariant events == Matches(rows[..i], a2Sel, b2Sel)
      invariant |listA1| == |events| && |listB1| == |events|
      invariant forall k :: 0 <= k < |events| ==> listA1[k] == events[k].a1 && listB1[k] == events[k].b1
    {
      assert rows[..i + 1][..i] == rows[..i];
      var r := rows[i];
      if !Valid(r) {
        continue;
      }
      if r.a2 == a2Sel && r.b2 == b2Sel {
        listA1 := listA1 + [r.a1];
        listB1 := listB1 + [r.b1];
        events := events + [MatchOf(i, r)];
      }
    }
    assert rows[..|rows|] == rows;
  }

  /** How a run ends. `NotInteger` and `OutOfRange` are the two aborts on a
      bad selection, `NoEvents` the early exit when nothing matched; otherwise
      the collected events, and whether the line fit ran. */
  datatype Outcome =
    | NotInteger
    | OutOfRange
    | NoEvents
    | Events(listA1: seq<int>, listB1: seq<int>, events: seq<Match>, fitted: bool)

  /** `main` from the selection onwards. The two typed answers arrive already
      converted by `int(...)`: `None` is the `ValueError` of a non-integer. */
  method Analyse(rows: seq<MuonCsv.Row>, a2In: Option<int>, b2In: Option<int>) returns (out: Outcome)
    ensures out == NotInteger <==> a2In.None? || b2In.None?
    ensures out == OutOfRange <==> a2In.Some? && b2In.Some? && !(InGrid(a2In.value) && InGrid(b2In.value))
    ensures out == NoEvents <==>
      a2In.Some? && b2In.Some? && InGrid(a2In.value) && InGrid(b2In.value) && Matches(rows, a2In.value, b2In.value) == []
    ensures out.Events? ==>
      a2In.Some? && b2In.Some? && out.events == Matches(rows, a2In.value, b2In.value) && out.events != [] &&
      |out.listA1| == |out.events| && |out.listB1| == |out.events| &&
      (forall k :: 0 <= k < |out.events| ==> out.listA1[k] == out.events[k].a1 && out.listB1[k] == out.events[k].b1) &&
      (out.fitted <==> |out.events| >= 2)
  {
    if a2In.None? || b2In.None? {
      return NotInteger;
    }
    var a2Sel, b2Sel := a2In.value, b2In.value;
    if !(0 <= a2Sel <= 11 && 0 <= b2Sel <= 11) {
      return OutOfRange;
    }
    var listA1, listB1, events := Collect(rows, a2Sel, b2Sel);
    if |listA1| == 0 {
      return NoEvents;
    }
    out := Events(listA1, listB1, events, |listA1| >= 2);
  }
}
