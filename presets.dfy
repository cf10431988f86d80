/** The Blinker, Glider and Pulsar presets, stamped onto the board at its midpoint. */
module Presets {
  import opened Grids

  datatype Preset = Blinker | Glider | Pulsar

  /** The (row, column) offsets of each preset's live cells, relative to the anchor. */
  function Offsets(p: Preset): (offsets: seq<(int, int)>)
    ensures 3 <= |offsets| <= 48
    ensures (0, 0) in offsets
  {
    match p
    case Blinker => [(-1, 0), (0, 0), (1, 0)]
    case Glider => [(0, 0), (-1, 0), (-2, 0), (-2, -1), (-1, -2)]
    case Pulsar =>
      assert PulsarCluster1[6] == (0, 0);
      PulsarCluster1 + PulsarCluster2 + PulsarCluster3 + PulsarCluster4
  }

  /** The Pulsar table, in its four clusters of twelve cells. */
  const PulsarCluster1: seq<(int, int)> := [
    (-3, -2), (-2, -2), (-1, -2), (-5, 2), (-5, 1), (-5, 0),
    (0, 0), (0, 1), (0, 2), (-1, 3), (-2, 3), (-3, 3)]
  const PulsarCluster2: seq<(int, int)> := [
    (-3, 5), (-2, 5), (-1, 5), (-5, 8), (-5, 7), (-5, 6),
    (0, 6), (0, 7), (0, 8), (-1, 10), (-2, 10), (-3, 10)]
  const PulsarCluster3: seq<(int, int)> := [
    (2, 0), (2, 1), (2, 2), (7, 0), (7, 1), (7, 2),
    (3, -2), (4, -2), (5, -2), (5, 3), (4, 3), (3, 3)]
  const PulsarCluster4: seq<(int, int)> := [
    (2, 6), (2, 7), (2, 8), (7, 6), (7, 7), (7, 8),
    (3, 5), (4, 5), (5, 5), (3, 10), (4, 10), (5, 10)]

  /** Every offset, added to the midpoint, names a cell of the board. */
  predicate FitsAtMid(offsets: seq<(int, int)>)
  {
    forall o :: o in offsets ==> InBounds(VerticalMid + o.0, HorizontalMid + o.1)
  }

  /** The cell (r, c) is one of the listed offsets away from the midpoint. */
  predicate Covers(offsets: seq<(int, int)>, r: int, c: int)
  {
    (r - VerticalMid, c - HorizontalMid) in offsets
  }

  /** The board with the listed cells, anchored at the midpoint, set alive and the rest kept. */
  function Stamp(g: Grid, offsets: seq<(int, int)>): (h: Grid)
    requires HasShape(g)
    ensures HasShape(h)
    ensures IsGrid(g) ==> IsGrid(h)
  {
    seq(Rows, r requires 0 <= r < Rows =>
      seq(Cols, c requires 0 <= c < Cols => if Covers(offsets, r, c) then 1 else g[r][c]))
  }

  /** Anchored at (12, 12), no preset reaches outside the board. */
  lemma PresetsFit(p: Preset)
    ensures VerticalMid == 12 && HorizontalMid == 12
    ensures FitsAtMid(Offsets(p))
  {
    match p
    case Blinker => BlinkerFits();
    case Glider => GliderFits();
    case Pulsar => PulsarFits();
  }

  lemma BlinkerFits()
    ensures FitsAtMid(Offsets(Blinker))
  {
  }

  lemma GliderFits()
    ensures FitsAtMid(Offsets(Glider))
  {
  }

  /** The Pulsar, anchored at the midpoint, covers rows 7..19 and columns 10..22. */
  lemma PulsarFits()
    ensures FitsAtMid(Offsets(Pulsar))
    ensures forall o :: o in Offsets(Pulsar) ==>
      7 <= VerticalMid + o.0 <= 19 && 10 <= HorizontalMid + o.1 <= 22
  {
    PulsarInBox();
    BoxFits(Offsets(Pulsar), -5, 7, -2, 10);
  }

  /** The Pulsar's offsets span rows -5..7 and columns -2..10 around the anchor. */
  lemma PulsarInBox()
    ensures WithinBox(Offsets(Pulsar), -5, 7, -2, 10)
  {
    PulsarClusters();
    WithinBoxConcat(PulsarCluster1, PulsarCluster2, -5, 0, -2, 10);
    WithinBoxConcat(PulsarCluster1 + PulsarCluster2, PulsarCluster3, -5, 7, -2, 10);
    WithinBoxConcat(PulsarCluster1 + PulsarCluster2 + PulsarCluster3, PulsarCluster4, -5, 7, -2, 10);
  }

  /** Offsets within a box that fits around the midpoint fit on the board. */
  lemma BoxFits(offsets: seq<(int, int)>, r0: int, r1: int, c0: int, c1: int)
    requires WithinBox(offsets, r0, r1, c0, c1)
    requires -VerticalMid <= r0 && r1 < Rows - VerticalMid && -HorizontalMid <= c0 && c1 < Cols - HorizontalMid
    ensures FitsAtMid(offsets)
  {
  }

  /** No cell is listed twice. */
  predicate Distinct(offsets: seq<(int, int)>)
  {
    forall j, j' :: 0 <= j < j' < |offsets| ==> offsets[j] != offsets[j']
  }

  lemma DistinctConcat(a: seq<(int, int)>, b: seq<(int, int)>)
    requires Distinct(a) && Distinct(b)
    requires forall o :: o in a ==> o !in b
    ensures Distinct(a + b)
  {
    forall j, j' | 0 <= j < j' < |a + b|
      ensures (a + b)[j] != (a + b)[j']
    {
      if j < |a| && |a| <= j' {
        assert (a + b)[j] in a && (a + b)[j'] == b[j' - |a|];
      }
    }
  }

  /** All the offsets lie within rows r0..r1 and columns c0..c1 of the anchor. */
  predicate WithinBox(offsets: seq<(int, int)>, r0: int, r1: int, c0: int, c1: int)
  {
    forall o :: o in offsets ==> r0 <= o.0 <= r1 && c0 <= o.1 <= c1
  }

  lemma WithinBoxConcat(a: seq<(int, int)>, b: seq<(int, int)>, r0: int, r1: int, c0: int, c1: int)
    requires WithinBox(a, r0, r1, c0, c1) && WithinBox(b, r0, r1, c0, c1)
    ensures WithinBox(a + b, r0, r1, c0, c1)
  {
  }

  lemma PulsarCluster1Box()
    ensures WithinBox(PulsarCluster1, -5, 0, -2, 3)
  {
  }

  lemma PulsarCluster1Distinct()
    ensures Distinct(PulsarCluster1)
  {
  }

  lemma PulsarCluster2Box()
    ensures WithinBox(PulsarCluster2, -5, 0, 5, 10)
  {
  }

  lemma PulsarCluster2Distinct()
    ensures Distinct(PulsarCluster2)
  {
  }

  lemma PulsarCluster3Box()
    ensures WithinBox(PulsarCluster3, 2, 7, -2, 3)
  {
  }

  lemma PulsarCluster3Distinct()
    ensures Distinct(PulsarCluster3)
  {
  }

  lemma PulsarCluster4Box()
    ensures WithinBox(PulsarCluster4, 2, 7, 5, 10)
  {
  }

  lemma PulsarCluster4Distinct()
    ensures Distinct(PulsarCluster4)
  {
  }

  /** The Pulsar's four clusters lie in four disjoint rectangles around the anchor. */
  lemma PulsarClusters()
    ensures WithinBox(PulsarCluster1, -5, 0, -2, 3) && Distinct(PulsarCluster1)
    ensures WithinBox(PulsarCluster2, -5, 0, 5, 10) && Distinct(PulsarCluster2)
    ensures WithinBox(PulsarCluster3, 2, 7, -2, 3) && Distinct(PulsarCluster3)
    ensures WithinBox(PulsarCluster4, 2, 7, 5, 10) && Distinct(PulsarCluster4)
  {
    PulsarCluster1Box();
    PulsarCluster1Distinct();
    PulsarCluster2Box();
    PulsarCluster2Distinct();
    PulsarCluster3Box();
    PulsarCluster3Distinct();
    PulsarCluster4Box();
    PulsarCluster4Distinct();
  }

  /** The preset tables hold 3, 5 and 48 cells, none listed twice. */
  lemma PresetSizes(p: Preset)
    ensures |Offsets(Blinker)| == 3 && |Offsets(Glider)| == 5 && |Offsets(Pulsar)| == 48
    ensures Distinct(Offsets(p))
  {
    match p
    case Blinker =>
    case Glider =>
    case Pulsar =>
      // The four clusters lie in four disjoint rectangles of the board.
      PulsarClusters();
      DistinctConcat(PulsarCluster1, PulsarCluster2);
      DistinctConcat(PulsarCluster1 + PulsarCluster2, PulsarCluster3);
      DistinctConcat(PulsarCluster1 + PulsarCluster2 + PulsarCluster3, PulsarCluster4);
  }

  /** Stamping sets exactly the covered cells alive and leaves every other cell as it was. */
  lemma StampCells(g: Grid, offsets: seq<(int, int)>, r: int, c: int)
    requires HasShape(g) && FitsAtMid(offsets) && InBounds(r, c)
    ensures Covers(offsets, r, c) ==> Stamp(g, offsets)[r][c] == 1
    ensures !Covers(offsets, r, c) ==> Stamp(g, offsets)[r][c] == g[r][c]
    ensures forall o :: o in offsets ==> Stamp(g, offsets)[VerticalMid + o.0][HorizontalMid + o.1] == 1
  {
  }

  /** Stamping the same preset twice is the same as stamping it once. */
  lemma StampIdempotent(g: Grid, offsets: seq<(int, int)>)
    requires HasShape(g)
    ensures Stamp(Stamp(g, offsets), offsets) == Stamp(g, offsets)
  {
    CellwiseEqual(Stamp(Stamp(g, offsets), offsets), Stamp(g, offsets));
  }

  /** Stamping adds live cells: a cell alive before is alive after. */
  lemma StampKeepsLiveCells(g: Grid, offsets: seq<(int, int)>, r: int, c: int)
    requires IsGrid(g) && InBounds(r, c) && g[r][c] == 1
    ensures Stamp(g, offsets)[r][c] == 1
  {
  }

  /** Stamping one more offset sets one more cell. */
  lemma StampOneMore(g: Grid, offsets: seq<(int, int)>, j: int)
    requires HasShape(g) && FitsAtMid(offsets) && 0 <= j < |offsets|
    ensures var r, c := VerticalMid + offsets[j].0, HorizontalMid + offsets[j].1;
      var s := Stamp(g, offsets[..j]);
      Stamp(g, offsets[..j + 1]) == s[r := s[r][c := 1]]
  {
    var r, c := VerticalMid + offsets[j].0, HorizontalMid + offsets[j].1;
    var s := Stamp(g, offsets[..j]);
    assert offsets[..j + 1] == offsets[..j] + [offsets[j]];
    CellwiseEqual(Stamp(g, offsets[..j + 1]), s[r := s[r][c := 1]]);
  }

  /** `gridCopy[r][c] = 1`, seen on the board's value. */
  method SetAlive(gridCopy: array2<int>, r: int, c: int)
    requires Dimensions(gridCopy) && InBounds(r, c)
    modifies gridCopy
    ensures Snapshot(gridCopy) == old(Snapshot(gridCopy))[r := old(Snapshot(gridCopy))[r][c := 1]]
  {
    ghost var s := Snapshot(gridCopy);
    gridCopy[r, c] := 1;
    CellwiseEqual(Snapshot(gridCopy), s[r := s[r][c := 1]]);
  }

  /** One `PresetValues.forEach` pass at cell (i, k): it stamps only when (i, k) is the midpoint. */
  method VisitCell(gridCopy: array2<int>, presetValues: seq<(int, int)>, i: int, k: int)
    requires Dimensions(gridCopy) && FitsAtMid(presetValues)
    modifies gridCopy
    ensures Snapshot(gridCopy) ==
      if i == VerticalMid && k == HorizontalMid then Stamp(old(Snapshot(gridCopy)), presetValues)
      else old(Snapshot(gridCopy))
  {
    ghost var before := Snapshot(gridCopy);
    CellwiseEqual(Stamp(before, presetValues[..0]), before);
    for j := 0 to |presetValues|
      invariant Snapshot(gridCopy) ==
        if i == VerticalMid && k == HorizontalMid then Stamp(before, presetValues[..j]) else before
    {
      var (x, y) := presetValues[j];
      if i == VerticalMid && k == HorizontalMid {
        SetAlive(gridCopy, i + x, k + y);
        StampOneMore(before, presetValues, j);
      }
    }
    assert presetValues[..|presetValues|] == presetValues;
  }

  /**
   * A preset button's recipe: visit every cell of a copy of the board, and at the midpoint
   * only, set each listed offset alive. There is no bounds test: the offsets are known to fit.
   */
  method StampedCopy(g: array2<int>, p: Preset) returns (gridCopy: array2<int>)
    requires Dimensions(g)
    ensures Dimensions(gridCopy)
    ensures Snapshot(gridCopy) == Stamp(Snapshot(g), Offsets(p))
  {
    ghost var before := Snapshot(g);
    ghost var after := Stamp(before, Offsets(p));
    PresetsFit(p);
    gridCopy := CopyOf(g);
    for i := 0 to Rows
      invariant Snapshot(gridCopy) == if i <= VerticalMid then before else after
    {
      for k := 0 to Cols
        invariant Snapshot(gridCopy) ==
          if i < VerticalMid || (i == VerticalMid && k <= HorizontalMid) then before else after
      {
        VisitCell(gridCopy, Offsets(p), i, k);
      }
    }
  }
}
