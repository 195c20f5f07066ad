/**
 * The board: slot layouts for the two shapes, the order the slots are kept in,
 * and the overlap relation that decides which slots cover which.
 *
 * Positions are integers in scene units. The horizontal spacing is 90 and the
 * vertical one 80, so every slot lies on a grid of 45 (half a spacing) by 40;
 * the stacking layer is the row number, where the scene uses z = 0.1 · row.
 */
module Boards {
  import opened Cards
  import opened Slots
  import opened Sorting
  import opened Collections

  /** The two board shapes a level can ask for. */
  datatype Shape = Peaks | Columns

  /** cardSpacing, set by both arrangements. */
  const SpacingX: int := 90
  const SpacingY: int := 80

  // ---------------------------------------------------------------------------
  // Peaks layout, in the order the slots are created
  // ---------------------------------------------------------------------------

  /** boardBounds.x of the peaks shape: (h − 1) · n · 0.5 · 90. */
  function PeaksBoundsX(n: int, h: int): int { (h - 1) * n * (SpacingX / 2) }

  /** boardBounds.y of the peaks shape: (h − 1) · 0.5 · 80. */
  function PeaksBoundsY(h: int): int { (h - 1) * (SpacingY / 2) }

  /** Number of slots in the shared bottom row; a negative count makes the array allocation throw. */
  function BottomRowCount(n: int, h: int): int { (h - 1) * n + 1 }

  /** The shared bottom row, left to right, at layer 0. */
  function BottomRow(n: int, h: int): seq<Pos>
    requires BottomRowCount(n, h) >= 0
  {
    seq(BottomRowCount(n, h), i => Pos(-PeaksBoundsX(n, h) + SpacingX * i, -PeaksBoundsY(h), 0))
  }

  /**
   * Slot k of row r of peak p. Row 0 is the peak's part of the bottom row
   * (bottom slots p·(h − 1) … p·(h − 1) + h − 1); every higher slot sits half a
   * spacing right of, one spacing above and one layer behind slot k of the row below.
   */
  function PeakSlot(n: int, h: int, p: int, r: int, k: int): Pos {
    Pos(-PeaksBoundsX(n, h) + SpacingX * (p * (h - 1) + k) + (SpacingX / 2) * r,
        -PeaksBoundsY(h) + SpacingY * r,
        r)
  }

  /** Row r of peak p: h − r slots. */
  function PeakRow(n: int, h: int, p: int, r: int): (row: seq<Pos>)
    ensures |row| == if h - r > 0 then h - r else 0
  {
    if h - r <= 0 then [] else seq(h - r, k => PeakSlot(n, h, p, r, k))
  }

  /** Rows 1 … r − 1 of peak p, in creation order. */
  function PeakUpper(n: int, h: int, p: int, r: int): seq<Pos>
    requires r >= 1
    decreases r
  {
    if r == 1 then [] else PeakUpper(n, h, p, r - 1) + PeakRow(n, h, p, r - 1)
  }

  /** The row index the row loop of a peak ends at: h, or 1 when there are no rows to add. */
  function LastRow(h: int): int { if h >= 1 then h else 1 }

  /** The upper rows of peaks 0 … m − 1, in creation order. */
  function PeaksUpper(n: int, h: int, m: nat): seq<Pos> {
    if m == 0 then [] else PeaksUpper(n, h, m - 1) + PeakUpper(n, h, m - 1, LastRow(h))
  }

  /** All slots of the peaks shape in creation order: the bottom row, then each peak's upper rows. */
  function PeaksLayout(n: int, h: int): seq<Pos>
    requires BottomRowCount(n, h) >= 0
  {
    BottomRow(n, h) + (if n <= 0 then [] else PeaksUpper(n, h, n))
  }

  lemma {:induction false} PeakUpperSize(n: int, h: int, p: int, r: int)
    requires 1 <= r <= h
    ensures 2 * |PeakUpper(n, h, p, r)| == (r - 1) * (2 * h - r)
    decreases r
  {
    if r > 1 {
      PeakUpperSize(n, h, p, r - 1);
      var a := |PeakUpper(n, h, p, r - 1)|;
      assert |PeakUpper(n, h, p, r)| == a + (h - r + 1);
      assert (r - 2) * (2 * h - r + 1) == 2 * h * r - r * r + 3 * r - 4 * h - 2;
      assert (r - 1) * (2 * h - r) == 2 * h * r - r * r + r - 2 * h;
    }
  }

  lemma {:induction false} PeaksUpperSize(n: int, h: int, m: nat)
    requires h >= 1
    ensures 2 * |PeaksUpper(n, h, m)| == m * (h * (h - 1))
  {
    if m > 0 {
      PeaksUpperSize(n, h, m - 1);
      PeakUpperSize(n, h, m - 1, h);
      var t := h * (h - 1);
      assert 2 * |PeakUpper(n, h, m - 1, h)| == t;
      assert (m - 1) * t + t == m * t;
    }
  }

  /**
   * The slot count of the peaks shape: a bottom row of (h − 1)·n + 1 slots plus
   * h·(h − 1)/2 slots above it per peak.
   */
  lemma PeaksCount(n: nat, h: int)
    requires h >= 1
    ensures |PeaksLayout(n, h)| == (h - 1) * n + 1 + n * (h * (h - 1) / 2)
  {
    if n > 0 {
      PeaksUpperSize(n, h, n);
      var t := h * (h - 1);
      EvenProduct(h);
      assert n * t == 2 * (n * (t / 2));
    }
  }

  lemma EvenProduct(h: int)
    ensures h * (h - 1) % 2 == 0
  {
    if h % 2 == 0 {
      assert h * (h - 1) == 2 * ((h / 2) * (h - 1));
    } else {
      assert h * (h - 1) == 2 * (h * ((h - 1) / 2));
    }
  }

  /** Three peaks of height three: a bottom row of 7 slots and 3 slots above it per peak. */
  lemma ThreePeaksOfThree()
    ensures |PeaksLayout(3, 3)| == 16
    ensures |BottomRow(3, 3)| == 7
  {
    PeaksCount(3, 3);
  }

  /** The bottom row is centred on the board: it runs from −boundsX to +boundsX in steps of 90. */
  lemma BottomRowCentred(n: nat, h: int)
    requires h >= 1
    ensures var row := BottomRow(n, h);
      row[0].x == -PeaksBoundsX(n, h) && row[|row| - 1].x == PeaksBoundsX(n, h) &&
      forall i :: 0 < i < |row| ==> row[i].x == row[i - 1].x + SpacingX && row[i].y == -PeaksBoundsY(h) && row[i].layer == 0
  {
    var row := BottomRow(n, h);
    assert row[|row| - 1].x == -PeaksBoundsX(n, h) + SpacingX * ((h - 1) * n);
    assert SpacingX * ((h - 1) * n) == 2 * PeaksBoundsX(n, h);
  }

  /** Bottom slot i is one of the h bottom slots p·(h − 1) … p·(h − 1) + h − 1 that peak p rests on. */
  predicate OnPeakBase(h: int, p: int, i: int) {
    p * (h - 1) <= i < p * (h - 1) + h
  }

  /** Neighbouring peaks share exactly one bottom slot: the last of peak p, the first of peak p + 1. */
  lemma NeighbouringPeaksShareOneSlot(h: int, p: int, i: int)
    requires h >= 2
    ensures OnPeakBase(h, p, i) && OnPeakBase(h, p + 1, i) <==> i == (p + 1) * (h - 1)
  {
    assert (p + 1) * (h - 1) == p * (h - 1) + (h - 1);
  }

  /** Each upper slot is centred above two neighbouring slots of the row below, one row up and one layer back. */
  lemma PeakSlotAboveTwo(n: int, h: int, p: int, r: int, k: int)
    ensures var s, l, rt := PeakSlot(n, h, p, r + 1, k), PeakSlot(n, h, p, r, k), PeakSlot(n, h, p, r, k + 1);
      2 * s.x == l.x + rt.x && s.x == l.x + SpacingX / 2 && s.y == l.y + SpacingY && s.layer == l.layer + 1
  {
  }

  /** Every peak has h·(h − 1)/2 slots above the bottom row. */
  lemma PeakAdds(n: int, h: int, p: int)
    requires h >= 1
    ensures |PeakUpper(n, h, p, h)| == h * (h - 1) / 2
  {
    PeakUpperSize(n, h, p, h);
  }

  /** In the peaks layout the height of a slot is fixed by its layer. */
  lemma {:induction false} PeaksHeights(n: int, h: int)
    requires BottomRowCount(n, h) >= 0
    ensures forall q | q in PeaksLayout(n, h) :: q.y == -PeaksBoundsY(h) + SpacingY * q.layer && q.layer >= 0
  {
    if n > 0 {
      PeaksUpperHeights(n, h, n);
    }
  }

  lemma {:induction false} PeaksUpperHeights(n: int, h: int, m: nat)
    ensures forall q | q in PeaksUpper(n, h, m) :: q.y == -PeaksBoundsY(h) + SpacingY * q.layer && q.layer >= 0
  {
    if m > 0 {
      PeaksUpperHeights(n, h, m - 1);
      PeakUpperHeights(n, h, m - 1, LastRow(h));
    }
  }

  lemma {:induction false} PeakUpperHeights(n: int, h: int, p: int, r: int)
    requires r >= 1
    ensures forall q | q in PeakUpper(n, h, p, r) :: q.y == -PeaksBoundsY(h) + SpacingY * q.layer && q.layer >= 1
    decreases r
  {
    if r > 1 {
      PeakUpperHeights(n, h, p, r - 1);
    }
  }

  // ---------------------------------------------------------------------------
  // Columns layout, in the order the slots are created
  // ---------------------------------------------------------------------------

  /** boardBounds.x of the columns shape: (c − 1) · 0.5 · 90. */
  function ColumnsBoundsX(c: int): int { (c - 1) * (SpacingX / 2) }

  /** boardBounds.y of the columns shape: (h − 1) · 0.5 · 80. */
  function ColumnsBoundsY(h: int): int { (h - 1) * (SpacingY / 2) }

  /** Slot j (counted from the bottom) of column i. */
  function ColumnSlot(c: int, h: int, i: int, j: int): Pos {
    Pos(-ColumnsBoundsX(c) + SpacingX * i, -ColumnsBoundsY(h) + SpacingY * j, j)
  }

  /** The bottom slots of columns 0 … m − 1. */
  function ColumnBottoms(c: int, h: int, m: nat): (row: seq<Pos>)
    ensures |row| == m
  {
    seq(m, i => ColumnSlot(c, h, i, 0))
  }

  /** Slots 1 … j − 1 of column i. */
  function ColumnUpper(c: int, h: int, i: int, j: nat): (col: seq<Pos>)
    ensures |col| == if j >= 1 then j - 1 else 0
  {
    if j <= 1 then [] else seq(j - 1, k => ColumnSlot(c, h, i, k + 1))
  }

  /** The upper slots of columns 0 … m − 1, column by column. */
  function ColumnsUpper(c: int, h: int, m: nat): seq<Pos> {
    if m == 0 then [] else ColumnsUpper(c, h, m - 1) + ColumnUpper(c, h, m - 1, if h >= 1 then h else 0)
  }

  /** All slots of the columns shape in creation order: the bottoms, then each column upwards. */
  function ColumnsLayout(c: int, h: int): seq<Pos> {
    if c <= 0 then [] else ColumnBottoms(c, h, c) + ColumnsUpper(c, h, c)
  }

  lemma {:induction false} ColumnsUpperSize(c: int, h: int, m: nat)
    requires h >= 1
    ensures |ColumnsUpper(c, h, m)| == m * (h - 1)
  {
    if m > 0 {
      ColumnsUpperSize(c, h, m - 1);
    }
  }

  /** The columns shape has exactly c · h slots. */
  lemma ColumnsCount(c: nat, h: int)
    requires h >= 1
    ensures |ColumnsLayout(c, h)| == c * h
  {
    if c > 0 {
      ColumnsUpperSize(c, h, c);
    }
  }

  /** Column i is a stack at x = −boundsX + 90·i; each slot is one spacing above and one layer behind the one below. */
  lemma ColumnStacks(c: int, h: int, i: int, j: int)
    ensures var s, b := ColumnSlot(c, h, i, j + 1), ColumnSlot(c, h, i, j);
      s.x == b.x == -ColumnsBoundsX(c) + SpacingX * i && s.y == b.y + SpacingY && s.layer == b.layer + 1
  {
  }

  /** In the columns layout, too, the height of a slot is fixed by its layer. */
  lemma {:induction false} ColumnsHeights(c: int, h: int)
    ensures forall q | q in ColumnsLayout(c, h) :: q.y == -ColumnsBoundsY(h) + SpacingY * q.layer && q.layer >= 0
  {
    if c > 0 {
      ColumnsUpperHeights(c, h, c);
    }
  }

  lemma {:induction false} ColumnsUpperHeights(c: int, h: int, m: nat)
    ensures forall q | q in ColumnsUpper(c, h, m) :: q.y == -ColumnsBoundsY(h) + SpacingY * q.layer && q.layer >= 1
  {
    if m > 0 {
      ColumnsUpperHeights(c, h, m - 1);
    }
  }

  /** Slots laid out as a layout are as many as the layout's positions. */
  lemma LayoutSize(ss: seq<Slot>, layout: seq<Pos>)
    requires multiset(Positions(ss)) == multiset(layout)
    ensures |ss| == |layout|
  {
    assert |Positions(ss)| == |multiset(Positions(ss))|;
  }

  /** Number of slots a level's board has, from its shape and parameters. */
  function SlotCount(shape: Shape, numPeaks: int, peakHeight: int, numColumns: int, columnHeight: int): int
    requires shape == Peaks ==> BottomRowCount(numPeaks, peakHeight) >= 0
  {
    if shape == Peaks then |PeaksLayout(numPeaks, peakHeight)| else |ColumnsLayout(numColumns, columnHeight)|
  }

  // ---------------------------------------------------------------------------
  // The overlap relation
  // ---------------------------------------------------------------------------

  function Abs(x: int): nat { if x < 0 then -x else x }

  /**
   * Corner c of the card-sized box centred on s, in doubled coordinates (so that
   * half a card width stays an integer), numbered as the source lists them:
   * 0 = bottom left, 1 = top left, 2 = top right, 3 = bottom right.
   */
  function CornerX(s: Pos, c: int, w: int): int { if c == 0 || c == 1 then 2 * s.x - w else 2 * s.x + w }
  function CornerY(s: Pos, c: int, h: int): int { if c == 0 || c == 3 then 2 * s.y - h else 2 * s.y + h }

  /**
   * The card-sized box centred on t contains the point (px, py), given in doubled
   * coordinates. Whether a ray through the box's boundary hits it is not settled
   * by the scene, so `edge` chooses it.
   */
  predicate InBox(t: Pos, px: int, py: int, w: int, h: int, edge: bool) {
    if edge then 2 * t.x - w <= px <= 2 * t.x + w && 2 * t.y - h <= py <= 2 * t.y + h
    else 2 * t.x - w < px < 2 * t.x + w && 2 * t.y - h < py < 2 * t.y + h
  }

  /** The ray through corner c of s's box hits the box of t. */
  predicate CornerHit(t: Pos, s: Pos, c: int, w: int, h: int, edge: bool) {
    InBox(t, CornerX(s, c, w), CornerY(s, c, h), w, h, edge)
  }

  /** t covers s: t lies on a lower layer (nearer the viewer) and its box contains a corner of s's box. */
  predicate Covers(t: Pos, s: Pos, w: int, h: int, edge: bool) {
    t.layer < s.layer && exists c :: 0 <= c < 4 && CornerHit(t, s, c, w, h, edge)
  }

  /**
   * The corner test is the rectangle-overlap test: with the boundary counted, t
   * covers s exactly when their boxes intersect; without it, exactly when the
   * boxes overlap with neither centre line shared.
   */
  lemma CoversIffBoxesOverlap(t: Pos, s: Pos, w: nat, h: nat, edge: bool)
    ensures Covers(t, s, w, h, edge) <==>
      t.layer < s.layer &&
      if edge then Abs(s.x - t.x) <= w && Abs(s.y - t.y) <= h
      else 0 < Abs(s.x - t.x) < w && 0 < Abs(s.y - t.y) < h
  {
    var dx, dy := s.x - t.x, s.y - t.y;
    var overlap := if edge then Abs(dx) <= w && Abs(dy) <= h else 0 < Abs(dx) < w && 0 < Abs(dy) < h;
    if t.layer < s.layer && overlap {
      var c := if dx >= 0 then (if dy >= 0 then 0 else 1) else (if dy >= 0 then 3 else 2);
      if !edge {
        c := if dx > 0 then (if dy > 0 then 0 else 1) else (if dy > 0 then 3 else 2);
      }
      assert CornerHit(t, s, c, w, h, edge);
    }
  }

  /** The layout position of every slot of a sequence. */
  function Positions(ss: seq<Slot>): seq<Pos> {
    Map(ss, (s: Slot) => s.pos)
  }

  /**
   * The order the slots are kept in: layer descending, then height descending,
   * then x ascending. (The source rounds the difference of the z coordinates,
   * which are 0.1 per row apart; in both layouts a slot's height is fixed by
   * its layer, so the height comparison orders them the same way.)
   */
  function SlotKey(s: Slot): Key {
    Key(-s.pos.layer, -s.pos.y, s.pos.x)
  }

  // ---------------------------------------------------------------------------
  // The board object
  // ---------------------------------------------------------------------------

  class Board {
    /** Size of the card back sprite, the size of every slot's box. */
    const cardWidth: nat
    const cardHeight: nat
    /** Whether a corner exactly on another box's boundary counts as covered. */
    const edgeHits: bool

    var slots: array<Slot>
    var boundsX: int
    var boundsY: int

    constructor (cardWidth: nat, cardHeight: nat, edgeHits: bool)
      ensures this.cardWidth == cardWidth && this.cardHeight == cardHeight && this.edgeHits == edgeHits
      ensures slots.Length == 0 && boundsX == 0 && boundsY == 0
    {
      this.cardWidth := cardWidth;
      this.cardHeight := cardHeight;
      this.edgeHits := edgeHits;
      slots := new Slot[0];
      boundsX := 0;
      boundsY := 0;
    }

    ghost function SlotSet(): set<Slot>
      reads this, slots
    {
      set i | 0 <= i < slots.Length :: slots[i]
    }

    /** What each slot holds, in index order. */
    ghost function Contents(): seq<Card?>
      reads this, slots, SlotSet()`card
    {
      assert forall s | s in slots[..] :: s in SlotSet();
      Holdings(slots[..])
    }

    /** The `Size` property: the number of slots, one entry of the contents each. */
    function Size(): (n: nat)
      reads this
      ensures n == slots.Length
    {
      slots.Length
    }

    /** The indexer: slot i of the sorted array. */
    function At(i: int): (s: Slot)
      requires 0 <= i < Size()
      reads this, slots
      ensures s in SlotSet() && s == slots[i]
    {
      slots[i]
    }

    /** Slots are distinct and every overlapping slot is a slot of this board. */
    ghost predicate Valid()
      reads this, slots, SlotSet()`overlapping
    {
      NoDuplicates(slots[..]) &&
      forall i :: 0 <= i < slots.Length ==> slots[i].overlapping <= SlotSet()
    }

    /** The slots of this board that cover s. */
    ghost function CoveringSlots(s: Slot): set<Slot>
      reads this, slots
    {
      set t | t in SlotSet() && t != s && Covers(t.pos, s.pos, cardWidth, cardHeight, edgeHits)
    }

    /** Every slot's overlapping set is exactly the set of slots covering it. */
    ghost predicate Arranged()
      reads this, slots, SlotSet()`overlapping
    {
      forall i :: 0 <= i < slots.Length ==> slots[i].overlapping == CoveringSlots(slots[i])
    }

    /** Nothing covers a slot of layer 0 when no slot lies on a negative layer. */
    lemma BottomLayerUncovered(i: int)
      requires Arranged() && 0 <= i < slots.Length && slots[i].pos.layer == 0
      requires forall j :: 0 <= j < slots.Length ==> slots[j].pos.layer >= 0
      ensures slots[i].overlapping == {}
    {
      assert forall t | t in SlotSet() :: t.pos.layer >= 0;
    }

    /**
     * Builds the peaks shape: a shared bottom row, then numPeaks peaks of
     * peakHeight rows each narrowing by one; then sorts the slots and computes
     * the overlap relation. A negative bottom-row count makes the source throw.
     */
    method ArrangeSlotsAsPeaks(numPeaks: int, peakHeight: int)
      requires BottomRowCount(numPeaks, peakHeight) >= 0
      modifies this
      ensures boundsX == PeaksBoundsX(numPeaks, peakHeight) && boundsY == PeaksBoundsY(peakHeight)
      ensures fresh(slots) && forall i :: 0 <= i < slots.Length ==> fresh(slots[i]) && slots[i].card == null
      ensures multiset(Positions(slots[..])) == multiset(PeaksLayout(numPeaks, peakHeight))
      ensures forall i :: 0 <= i < slots.Length ==> slots[i].pos in PeaksLayout(numPeaks, peakHeight)
      ensures SortedBy(slots[..], SlotKey)
      ensures Valid() && Arranged()
    {
      ghost var n, h := numPeaks, peakHeight;
      boundsX := (peakHeight - 1) * numPeaks * (SpacingX / 2);
      boundsY := (peakHeight - 1) * (SpacingY / 2);

      var bottom := CreateBottomRow(numPeaks, peakHeight);
      var slotsByPeak := GroupByPeak(bottom, numPeaks, peakHeight);
      var created := StackPeaks(bottom, slotsByPeak, numPeaks, peakHeight);
      PlaceCreated(created, PeaksLayout(n, h));
    }

    /** RefreshSlots on newly created, empty slots laid out as `layout`: the board's slots are those, sorted. */
    method PlaceCreated(created: seq<Slot>, ghost layout: seq<Pos>)
      requires NoDuplicates(created) && Positions(created) == layout
      requires forall s | s in created :: s.card == null
      modifies this, (set s | s in created)`overlapping
      ensures fresh(slots) && forall i :: 0 <= i < slots.Length ==> slots[i] in created && slots[i].card == null
      ensures multiset(Positions(slots[..])) == multiset(layout)
      ensures forall i :: 0 <= i < slots.Length ==> slots[i].pos in layout
      ensures SortedBy(slots[..], SlotKey) && Valid() && Arranged()
      ensures boundsX == old(boundsX) && boundsY == old(boundsY)
    {
      RefreshSlots(created);
      PermutedLayout(slots[..], created, layout);
    }

    /** The bottom row loop: (h − 1)·n + 1 new slots spaced 90 apart from −boundsX, at height −boundsY. */
    method CreateBottomRow(numPeaks: int, peakHeight: int) returns (bottom: seq<Slot>)
      requires BottomRowCount(numPeaks, peakHeight) >= 0
      requires boundsX == PeaksBoundsX(numPeaks, peakHeight) && boundsY == PeaksBoundsY(peakHeight)
      ensures Positions(bottom) == BottomRow(numPeaks, peakHeight)
      ensures NoDuplicates(bottom) && forall s | s in bottom :: fresh(s) && s.card == null
    {
      var numSlotsInBottomRow := (peakHeight - 1) * numPeaks + 1;
      bottom := [];
      var i := 0;
      while i < numSlotsInBottomRow
        invariant 0 <= i <= numSlotsInBottomRow
        invariant Positions(bottom) == BottomRow(numPeaks, peakHeight)[..i]
        invariant NoDuplicates(bottom)
        invariant forall s | s in bottom :: fresh(s) && s.card == null
      {
        var slot := new Slot(Pos(-boundsX + i * SpacingX, -boundsY, 0));
        bottom := bottom + [slot];
        i := i + 1;
      }
    }

    /**
     * Builds the columns shape: numColumns bottom slots, then each column stacked
     * upwards to columnHeight slots; then sorts and computes the overlap relation.
     */
    method ArrangeSlotsAsColumns(numColumns: int, columnHeight: int)
      modifies this
      ensures boundsX == ColumnsBoundsX(numColumns) && boundsY == ColumnsBoundsY(columnHeight)
      ensures fresh(slots) && forall i :: 0 <= i < slots.Length ==> fresh(slots[i]) && slots[i].card == null
      ensures multiset(Positions(slots[..])) == multiset(ColumnsLayout(numColumns, columnHeight))
      ensures forall i :: 0 <= i < slots.Length ==> slots[i].pos in ColumnsLayout(numColumns, columnHeight)
      ensures SortedBy(slots[..], SlotKey)
      ensures Valid() && Arranged()
    {
      ghost var c, h := numColumns, columnHeight;
      boundsX := (numColumns - 1) * (SpacingX / 2);
      boundsY := (columnHeight - 1) * (SpacingY / 2);

      var slotsByColumn, bottoms := CreateColumnBottoms(numColumns, columnHeight);
      var created := StackColumns(slotsByColumn, bottoms, numColumns, columnHeight);
      PlaceCreated(created, ColumnsLayout(c, h));
    }

    /** The shape switch of ArrangeBoard: new, empty slots in the layout of the given shape. */
    method ArrangeSlots(shape: Shape, numPeaks: int, peakHeight: int, numColumns: int, columnHeight: int)
      requires shape == Peaks ==> BottomRowCount(numPeaks, peakHeight) >= 0
      modifies this
      ensures slots.Length == SlotCount(shape, numPeaks, peakHeight, numColumns, columnHeight)
      ensures shape == Peaks ==> multiset(Positions(slots[..])) == multiset(PeaksLayout(numPeaks, peakHeight))
      ensures shape == Columns ==> multiset(Positions(slots[..])) == multiset(ColumnsLayout(numColumns, columnHeight))
      ensures fresh(slots) && forall i :: 0 <= i < slots.Length ==> fresh(slots[i]) && slots[i].card == null
      ensures Valid() && Arranged()
    {
      if shape == Peaks {
        ArrangeSlotsAsPeaks(numPeaks, peakHeight);
        LayoutSize(slots[..], PeaksLayout(numPeaks, peakHeight));
      } else {
        ArrangeSlotsAsColumns(numColumns, columnHeight);
        LayoutSize(slots[..], ColumnsLayout(numColumns, columnHeight));
      }
    }

    /** The first columns loop: one bottom slot per column, 90 apart from −boundsX, at height −boundsY. */
    method CreateColumnBottoms(numColumns: int, columnHeight: int) returns (slotsByColumn: seq<seq<Slot>>, bottoms: seq<Slot>)
      requires boundsX == ColumnsBoundsX(numColumns) && boundsY == ColumnsBoundsY(columnHeight)
      ensures |slotsByColumn| == if numColumns >= 0 then numColumns else 0
      ensures forall q :: 0 <= q < |slotsByColumn| ==> |slotsByColumn[q]| == 1 && slotsByColumn[q][0].pos == ColumnSlot(numColumns, columnHeight, q, 0)
      ensures Positions(bottoms) == if numColumns <= 0 then [] else ColumnBottoms(numColumns, columnHeight, numColumns)
      ensures NoDuplicates(bottoms) && forall s | s in bottoms :: fresh(s) && s.card == null
    {
      ghost var c, h := numColumns, columnHeight;
      slotsByColumn := [];
      bottoms := [];
      var i := 0;
      while i < numColumns
        invariant 0 <= i && (numColumns >= 0 ==> i <= numColumns) && (numColumns < 0 ==> i == 0)
        invariant |slotsByColumn| == i && Positions(bottoms) == ColumnBottoms(c, h, i)
        invariant forall q :: 0 <= q < i ==> |slotsByColumn[q]| == 1 && slotsByColumn[q][0].pos == ColumnSlot(c, h, q, 0)
        invariant NoDuplicates(bottoms)
        invariant forall s | s in bottoms :: fresh(s) && s.card == null
      {
        var slot := new Slot(Pos(-boundsX + i * SpacingX, -boundsY, 0));
        slotsByColumn := slotsByColumn + [[slot]];
        bottoms := bottoms + [slot];
        i := i + 1;
      }
    }

    /**
     * Takes the newly created slots as the board's slots, sorts them by SlotKey
     * and fills in every slot's overlapping set.
     */
    method RefreshSlots(created: seq<Slot>)
      requires NoDuplicates(created)
      modifies this, (set s | s in created)`overlapping
      ensures fresh(slots) && multiset(slots[..]) == multiset(created)
      ensures forall i :: 0 <= i < slots.Length ==> slots[i] in created
      ensures SortedBy(slots[..], SlotKey)
      ensures Valid() && Arranged()
      ensures boundsX == old(boundsX) && boundsY == old(boundsY)
    {
      slots := new Slot[|created|](i requires 0 <= i < |created| => created[i]);
      assert slots[..] == created;
      SortByKey(slots, SlotKey);
      NoDuplicatesIffUnique(created);
      NoDuplicatesIffUnique(slots[..]);
      forall i | 0 <= i < slots.Length ensures slots[i] in created {
        assert slots[i] in multiset(slots[..]);
      }
      ComputeOverlaps();
    }

    /** Fills in the overlapping set of every slot, one slot at a time. */
    method ComputeOverlaps()
      modifies SlotSet()`overlapping
      ensures Arranged()
    {
      var a := 0;
      while a < slots.Length
        invariant 0 <= a <= slots.Length
        invariant forall i :: 0 <= i < a ==> slots[i].overlapping == CoveringSlots(slots[i])
      {
        FindOverlapping(slots[a]);
        a := a + 1;
      }
    }

    /** The slots whose box the ray through corner c of s hits, among the first b slots. */
    ghost function CornerHits(s: Slot, c: int, b: int): set<Slot>
      requires 0 <= b <= slots.Length
      reads this, slots
    {
      set j | 0 <= j < b && slots[j] != s && slots[j].pos.layer < s.pos.layer &&
        CornerHit(slots[j].pos, s.pos, c, cardWidth, cardHeight, edgeHits) :: slots[j]
    }

    /** The slots hit through corners 0 … c − 1 of s. */
    ghost function HitsUpTo(s: Slot, c: nat): set<Slot>
      reads this, slots
    {
      if c == 0 then {} else HitsUpTo(s, c - 1) + CornerHits(s, c - 1, slots.Length)
    }

    /** One pass of the overlap loop: casts a ray through each corner of s and keeps every lower slot it hits. */
    method FindOverlapping(s: Slot)
      modifies s`overlapping
      ensures s.overlapping == CoveringSlots(s)
    {
      s.overlapping := {};
      var c := 0;
      while c < 4
        invariant 0 <= c <= 4
        invariant s.overlapping == HitsUpTo(s, c)
      {
        CastRay(s, c);
        c := c + 1;
      }
      AllCorners(s);
    }

    /** The ray through corner c of s: adds every other, lower slot whose box it hits. */
    method CastRay(s: Slot, c: int)
      modifies s`overlapping
      ensures s.overlapping == old(s.overlapping) + CornerHits(s, c, slots.Length)
    {
      var b := 0;
      while b < slots.Length
        invariant 0 <= b <= slots.Length
        invariant s.overlapping == old(s.overlapping) + CornerHits(s, c, b)
      {
        var t := slots[b];
        CornerHitsStep(s, c, b);
        if t != s && t.pos.layer < s.pos.layer && CornerHit(t.pos, s.pos, c, cardWidth, cardHeight, edgeHits) {
          s.overlapping := s.overlapping + {t};
        }
        b := b + 1;
      }
    }

    lemma CornerHitsStep(s: Slot, c: int, b: int)
      requires 0 <= b < slots.Length
      ensures var t := slots[b];
        CornerHits(s, c, b + 1) == CornerHits(s, c, b) +
          (if t != s && t.pos.layer < s.pos.layer && CornerHit(t.pos, s.pos, c, cardWidth, cardHeight, edgeHits) then {t} else {})
    {
    }

    lemma AllCorners(s: Slot)
      ensures HitsUpTo(s, 4) == CoveringSlots(s)
    {
      var n := slots.Length;
      assert HitsUpTo(s, 1) == CornerHits(s, 0, n);
      assert HitsUpTo(s, 2) == HitsUpTo(s, 1) + CornerHits(s, 1, n);
      assert HitsUpTo(s, 3) == HitsUpTo(s, 2) + CornerHits(s, 2, n);
      assert HitsUpTo(s, 4) == HitsUpTo(s, 3) + CornerHits(s, 3, n);
      forall t | t in CoveringSlots(s)
        ensures t in HitsUpTo(s, 4)
      {
        var c :| 0 <= c < 4 && CornerHit(t.pos, s.pos, c, cardWidth, cardHeight, edgeHits);
        var j :| 0 <= j < n && slots[j] == t;
        assert t in CornerHits(s, c, n);
      }
    }
  }

  /** The slotsByPeak loop: peak p rests on bottom slots p·(h − 1) … p·(h − 1) + h − 1. */
  method GroupByPeak(bottom: seq<Slot>, numPeaks: int, peakHeight: int) returns (slotsByPeak: seq<seq<Slot>>)
    requires BottomRowCount(numPeaks, peakHeight) >= 0
    requires Positions(bottom) == BottomRow(numPeaks, peakHeight)
    ensures |slotsByPeak| == if numPeaks >= 0 then numPeaks else 0
    ensures forall p :: 0 <= p < |slotsByPeak| ==> Positions(slotsByPeak[p]) == PeakRow(numPeaks, peakHeight, p, 0)
  {
    ghost var n, h := numPeaks, peakHeight;
    slotsByPeak := [];
    var p := 0;
    while p < numPeaks
      invariant 0 <= p && (numPeaks >= 0 ==> p <= numPeaks) && (numPeaks < 0 ==> p == 0)
      invariant |slotsByPeak| == p
      invariant forall q :: 0 <= q < p ==> Positions(slotsByPeak[q]) == PeakRow(n, h, q, 0)
    {
      var peak: seq<Slot> := [];
      var j := 0;
      while j < peakHeight
        invariant 0 <= j && (peakHeight >= 0 ==> j <= peakHeight) && (peakHeight < 0 ==> j == 0)
        invariant Positions(peak) == PeakRow(n, h, p, 0)[..j]
      {
        BaseIndexInRange(n, h, p, j);
        peak := peak + [bottom[p * (peakHeight - 1) + j]];
        j := j + 1;
      }
      slotsByPeak := slotsByPeak + [peak];
      p := p + 1;
    }
  }

  /** The peaks loop of ArrangeSlotsAsPeaks: after the bottom row, each peak's upper rows in turn. */
  method StackPeaks(bottom: seq<Slot>, slotsByPeak: seq<seq<Slot>>, numPeaks: int, peakHeight: int) returns (created: seq<Slot>)
    requires BottomRowCount(numPeaks, peakHeight) >= 0
    requires Positions(bottom) == BottomRow(numPeaks, peakHeight) && NoDuplicates(bottom)
    requires forall s | s in bottom :: s.card == null
    requires |slotsByPeak| == if numPeaks >= 0 then numPeaks else 0
    requires forall p :: 0 <= p < |slotsByPeak| ==> Positions(slotsByPeak[p]) == PeakRow(numPeaks, peakHeight, p, 0)
    ensures Positions(created) == PeaksLayout(numPeaks, peakHeight)
    ensures NoDuplicates(created) && forall s | s in created :: s.card == null && (s in bottom || fresh(s))
  {
    ghost var n, h := numPeaks, peakHeight;
    created := bottom;
    var p := 0;
    while p < |slotsByPeak|
      invariant 0 <= p <= |slotsByPeak|
      invariant Positions(created) == BottomRow(n, h) + PeaksUpper(n, h, p)
      invariant NoDuplicates(created) && forall s | s in created :: s.card == null && (s in bottom || fresh(s))
    {
      var upper := AddPeakRows(slotsByPeak[p], numPeaks, peakHeight, p);
      NoDuplicatesConcat(created, upper);
      created := created + upper;
      p := p + 1;
    }
  }

  /**
   * The row loop of one peak: rows of h − 1 down to 1 slots, each placed by
   * AddPeakRow above the row made before it.
   */
  method AddPeakRows(peakBase: seq<Slot>, numPeaks: int, peakHeight: int, p: int) returns (upper: seq<Slot>)
    requires Positions(peakBase) == PeakRow(numPeaks, peakHeight, p, 0)
    ensures Positions(upper) == PeakUpper(numPeaks, peakHeight, p, LastRow(peakHeight))
    ensures NoDuplicates(upper) && forall s | s in upper :: fresh(s) && s.card == null
  {
    ghost var n, h := numPeaks, peakHeight;
    var peakSlots := peakBase;
    upper := [];
    var rowSize := peakHeight - 1;
    while rowSize > 0
      invariant 1 <= h - rowSize <= LastRow(h) && (rowSize <= 0 ==> h - rowSize == LastRow(h))
      invariant peakSlots == peakBase + upper
      invariant Positions(upper) == PeakUpper(n, h, p, h - rowSize)
      invariant NoDuplicates(upper) && forall s | s in upper :: fresh(s) && s.card == null
    {
      var row := AddPeakRow(peakBase, upper, numPeaks, peakHeight, p, rowSize);
      NoDuplicatesConcat(upper, row);
      peakSlots := peakSlots + row;
      upper := upper + row;
      rowSize := rowSize - 1;
    }
  }

  /**
   * One row of rowSize slots: each new slot sits half a spacing right of, one
   * spacing above and one layer behind the slot the source picks at index
   * size − rowSize − 1 of the growing peak list.
   */
  method AddPeakRow(peakBase: seq<Slot>, upper: seq<Slot>, numPeaks: int, peakHeight: int, p: int, rowSize: int)
    returns (row: seq<Slot>)
    requires 1 <= rowSize < peakHeight
    requires Positions(peakBase) == PeakRow(numPeaks, peakHeight, p, 0)
    requires Positions(upper) == PeakUpper(numPeaks, peakHeight, p, peakHeight - rowSize)
    ensures Positions(row) == PeakRow(numPeaks, peakHeight, p, peakHeight - rowSize)
    ensures NoDuplicates(row) && forall s | s in row :: fresh(s) && s.card == null
  {
    ghost var n, h, r := numPeaks, peakHeight, peakHeight - rowSize;
    var peakSlots := peakBase + upper;
    row := [];
    var k := 0;
    while k < rowSize
      invariant 0 <= k <= rowSize
      invariant peakSlots == peakBase + upper + row
      invariant Positions(row) == PeakRow(n, h, p, r)[..k]
      invariant NoDuplicates(row) && forall s | s in row :: fresh(s) && s.card == null
    {
      SlotBelowPicked(peakBase, upper, row, n, h, p, r, k);
      var slotBelow := peakSlots[|peakSlots| - rowSize - 1];
      var slot := new Slot(Pos(slotBelow.pos.x + SpacingX / 2, slotBelow.pos.y + SpacingY, slotBelow.pos.layer + 1));
      ExtendPositions(row, slot, PeakRow(n, h, p, r), k);
      peakSlots := peakSlots + [slot];
      row := row + [slot];
      k := k + 1;
    }
  }

  /** The second columns loop: every column stacked up on its bottom slot, column by column. */
  method StackColumns(slotsByColumn: seq<seq<Slot>>, bottoms: seq<Slot>, numColumns: int, columnHeight: int)
    returns (created: seq<Slot>)
    requires |slotsByColumn| == if numColumns >= 0 then numColumns else 0
    requires forall q :: 0 <= q < |slotsByColumn| ==> |slotsByColumn[q]| == 1 && slotsByColumn[q][0].pos == ColumnSlot(numColumns, columnHeight, q, 0)
    requires Positions(bottoms) == if numColumns <= 0 then [] else ColumnBottoms(numColumns, columnHeight, numColumns)
    requires NoDuplicates(bottoms)
    ensures Positions(created) == ColumnsLayout(numColumns, columnHeight)
    ensures NoDuplicates(created) && forall s | s in created :: s in bottoms || (fresh(s) && s.card == null)
  {
    ghost var c, h := numColumns, columnHeight;
    created := bottoms;
    var i := 0;
    while i < numColumns
      invariant 0 <= i && (numColumns >= 0 ==> i <= numColumns) && (numColumns < 0 ==> i == 0)
      invariant Positions(created) == Positions(bottoms) + ColumnsUpper(c, h, i)
      invariant NoDuplicates(created)
      invariant forall s | s in created :: s in bottoms || (fresh(s) && s.card == null)
    {
      var upper := StackColumn(slotsByColumn[i], numColumns, columnHeight, i);
      NoDuplicatesConcat(created, upper);
      MapConcat(created, upper, (s: Slot) => s.pos);
      created := created + upper;
      i := i + 1;
    }
  }

  /**
   * The second columns loop for column i: slots 1 … h − 1, each one spacing
   * above and one layer behind the slot below it in the column.
   */
  method StackColumn(column: seq<Slot>, numColumns: int, columnHeight: int, i: int) returns (upper: seq<Slot>)
    requires |column| == 1 && column[0].pos == ColumnSlot(numColumns, columnHeight, i, 0)
    ensures Positions(upper) == ColumnUpper(numColumns, columnHeight, i, if columnHeight >= 1 then columnHeight else 0)
    ensures NoDuplicates(upper) && forall s | s in upper :: fresh(s) && s.card == null
  {
    ghost var c, h := numColumns, columnHeight;
    var stack := column;
    upper := [];
    var j := 1;
    while j < columnHeight
      invariant 1 <= j && (columnHeight >= 1 ==> j <= columnHeight) && (columnHeight < 1 ==> j == 1)
      invariant stack == column + upper
      invariant Positions(upper) == ColumnUpper(c, h, i, j)
      invariant NoDuplicates(upper) && forall s | s in upper :: fresh(s) && s.card == null
    {
      var slotBelow := stack[j - 1];
      assert slotBelow.pos == ColumnSlot(c, h, i, j - 1) by {
        if j > 1 { assert slotBelow == upper[j - 2] && Positions(upper)[j - 2] == ColumnUpper(c, h, i, j)[j - 2]; }
      }
      var slot := new Slot(Pos(slotBelow.pos.x, slotBelow.pos.y + SpacingY, slotBelow.pos.layer + 1));
      MapConcat(upper, [slot], (s: Slot) => s.pos);
      assert ColumnUpper(c, h, i, j + 1) == ColumnUpper(c, h, i, j) + [ColumnSlot(c, h, i, j)];
      stack := stack + [slot];
      upper := upper + [slot];
      j := j + 1;
    }
  }

  /**
   * The slot the source picks as "slot below" for slot k of row r is slot k of
   * row r − 1, and the slot placed above it is slot k of row r.
   */
  lemma SlotBelowPicked(peakBase: seq<Slot>, upper: seq<Slot>, row: seq<Slot>, n: int, h: int, p: int, r: int, k: nat)
    requires 1 <= r < h && k < h - r
    requires Positions(peakBase) == PeakRow(n, h, p, 0)
    requires Positions(upper) == PeakUpper(n, h, p, r)
    requires Positions(row) == PeakRow(n, h, p, r)[..k]
    ensures var ps := peakBase + upper + row; var q := ps[|ps| - (h - r) - 1].pos;
      0 <= |ps| - (h - r) - 1 < |ps| && Pos(q.x + SpacingX / 2, q.y + SpacingY, q.layer + 1) == PeakRow(n, h, p, r)[k]
  {
    var ps := peakBase + upper + row;
    var j := |ps| - (h - r) - 1;
    assert 0 <= j < |ps| && ps[j].pos == PeakSlot(n, h, p, r - 1, k) by {
      PositionsJoin(peakBase, upper, row);
      MapConcat(upper, row, (s: Slot) => s.pos);
      var base, rest := Positions(peakBase), Positions(upper + row);
      SlotBelow(n, h, p, r, k, base, rest);
      assert 0 <= j < |ps| && (base + rest)[j] == PeakSlot(n, h, p, r - 1, k);
    }
    SlotAbove(n, h, p, r, k);
  }

  /** The positions of joined slot lists are the joined positions, index by index. */
  lemma PositionsJoin(a: seq<Slot>, b: seq<Slot>, c: seq<Slot>)
    ensures var ps := a + b + c;
      Positions(ps) == Positions(a) + Positions(b + c) && forall i :: 0 <= i < |ps| ==> ps[i].pos == Positions(ps)[i]
  {
    MapConcat(b, c, (s: Slot) => s.pos);
    MapConcat(a, b + c, (s: Slot) => s.pos);
    assert a + b + c == a + (b + c);
  }

  /** The slot placed above slot k of row r − 1 is slot k of row r. */
  lemma SlotAbove(n: int, h: int, p: int, r: int, k: nat)
    requires 1 <= r < h && k < h - r
    ensures var q := PeakSlot(n, h, p, r - 1, k);
      Pos(q.x + SpacingX / 2, q.y + SpacingY, q.layer + 1) == PeakRow(n, h, p, r)[k]
  {
    PeakSlotAboveTwo(n, h, p, r - 1, k);
  }

  /** Appending slot k of a layout row to its first k slots gives its first k + 1. */
  lemma ExtendPositions(ss: seq<Slot>, s: Slot, layout: seq<Pos>, k: nat)
    requires k < |layout| && Positions(ss) == layout[..k] && s.pos == layout[k]
    ensures Positions(ss + [s]) == layout[..k + 1]
  {
    MapConcat(ss, [s], (s: Slot) => s.pos);
    assert layout[..k + 1] == layout[..k] + [layout[k]];
  }

  /** A permutation of slots laid out as `layout` occupies exactly the positions of `layout`. */
  lemma PermutedLayout(slots: seq<Slot>, created: seq<Slot>, layout: seq<Pos>)
    requires multiset(slots) == multiset(created) && Positions(created) == layout
    ensures multiset(Positions(slots)) == multiset(layout)
    ensures forall i :: 0 <= i < |slots| ==> slots[i].pos in layout
  {
    MapPermutation(slots, created, (s: Slot) => s.pos);
    forall i | 0 <= i < |slots|
      ensures slots[i].pos in layout
    {
      assert slots[i].pos == Positions(slots)[i];
      assert slots[i].pos in multiset(Positions(slots));
    }
  }

  lemma BaseIndexInRange(n: int, h: int, p: int, j: int)
    requires 0 <= p < n && 0 <= j < h
    ensures 0 <= p * (h - 1) + j < BottomRowCount(n, h)
  {
    var m := h - 1;
    ScaleMonotone(0, p, m);
    ScaleMonotone(p + 1, n, m);
    assert (p + 1) * m == p * m + m;
    assert BottomRowCount(n, h) == n * m + 1;
  }

  /** Scaling by a natural number keeps the order of two integers. */
  lemma {:induction false} ScaleMonotone(a: int, b: int, m: nat)
    requires a <= b
    ensures a * m <= b * m
    decreases m
  {
    if m > 0 {
      ScaleMonotone(a, b, m - 1);
      assert a * m == a * (m - 1) + a && b * m == b * (m - 1) + b;
    }
  }

  /**
   * During peak p, with rows 0 … r − 1 and the first k slots of row r made, the
   * slot the source picks as "slot below" (index size − rowSize − 1) is slot k of
   * row r − 1.
   */
  lemma SlotBelow(n: int, h: int, p: int, r: int, k: int, base: seq<Pos>, upper: seq<Pos>)
    requires 1 <= r < h && 0 <= k < h - r
    requires base == PeakRow(n, h, p, 0)
    requires upper == PeakUpper(n, h, p, r) + PeakRow(n, h, p, r)[..k]
    ensures var ps := base + upper; 0 <= |ps| - (h - r) - 1 < |ps| && ps[|ps| - (h - r) - 1] == PeakSlot(n, h, p, r - 1, k)
  {
    if r > 1 {
      assert PeakUpper(n, h, p, r) == PeakUpper(n, h, p, r - 1) + PeakRow(n, h, p, r - 1);
    }
  }
}
