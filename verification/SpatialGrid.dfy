/** The grid index over entity positions, and its agreement with a scan of what was inserted. */
module SpatialGrid {
  import opened Arithmetic
  import opened Sequences

  const U32 := 0x1_0000_0000

  /** Conversion of a floored number to an unsigned 32-bit integer: it saturates. */
  function AsU32(x: int): (n: nat)
    ensures n < U32
  {
    if x < 0 then 0 else if x >= U32 then U32 - 1 else x
  }

  /** To the nearest number of 32 bits. */
  lemma Saturates(x: int)
    ensures 0 <= AsU32(x) <= 0xFFFF_FFFF
    ensures 0 <= x <= 0xFFFF_FFFF ==> AsU32(x) == x
    ensures x < 0 ==> AsU32(x) == 0
    ensures x > 0xFFFF_FFFF ==> AsU32(x) == 0xFFFF_FFFF
  {
  }

  function Ceiling(x: real): int {
    -(-x).Floor
  }

  /** The shape of a grid: cell size in degrees, and columns. */
  datatype Grid = Grid(cellSize: real, width: nat)

  function GridFor(cellSize: real): (g: Grid)
    requires cellSize > 0.0
    ensures g.width > 0
  {
    assert 360.0 / cellSize > 0.0;
    Grid(cellSize, AsU32(Ceiling(360.0 / cellSize)))
  }

  /** The number of cells, in 32-bit arithmetic that wraps around. */
  function TotalCells(cellSize: real): nat
    requires cellSize > 0.0
  {
    AsU32(Ceiling(360.0 / cellSize)) * AsU32(Ceiling(180.0 / cellSize)) % U32
  }

  function Column(g: Grid, lon: real): (c: nat)
    requires g.cellSize > 0.0
    ensures c < U32
  {
    AsU32(((lon + 180.0) / g.cellSize).Floor)
  }

  function Row(g: Grid, lat: real): (r: nat)
    requires g.cellSize > 0.0
    ensures r < U32
  {
    AsU32(((lat + 90.0) / g.cellSize).Floor)
  }

  function CellId(g: Grid, row: nat, column: nat): (id: nat)
    ensures id < U32
  {
    (row * g.width + column) % U32
  }

  /** Row times width plus column, cut to 32 bits. */
  lemma CellIs(g: Grid, row: nat, column: nat)
    ensures 0 <= CellId(g, row, column) <= 0xFFFF_FFFF
    ensures row * g.width + column <= 0xFFFF_FFFF ==> CellId(g, row, column) == row * g.width + column
    ensures row * g.width + column == 0x1_0000_0000 ==> CellId(g, row, column) == 0
  {
  }

  datatype Entry = Entry(index: nat, lat: real, lon: real)

  function CellOf(g: Grid, e: Entry): nat
    requires g.cellSize > 0.0
  {
    CellId(g, Row(g, e.lat), Column(g, e.lon))
  }

  /** The indices inserted into one cell, in order of insertion. */
  function Bucket(g: Grid, live: seq<Entry>, id: nat): seq<nat>
    requires g.cellSize > 0.0
  {
    if live == [] then []
    else
      var e := live[|live| - 1];
      Bucket(g, live[..|live| - 1], id) + if CellOf(g, e) == id then [e.index] else []
  }

  // ---------- the cells a query covers ----------

  function RowIds(g: Grid, row: nat, lo: nat, hi: nat): seq<nat> {
    if hi <= lo then [] else RowIds(g, row, lo, hi - 1) + [CellId(g, row, hi - 1)]
  }

  /** Cell ids of the rows [rowLo, rowHi) and columns [lo, hi), row by row. */
  function BoxIds(g: Grid, rowLo: nat, rowHi: nat, lo: nat, hi: nat): seq<nat> {
    if rowHi <= rowLo then [] else BoxIds(g, rowLo, rowHi - 1, lo, hi) + RowIds(g, rowHi - 1, lo, hi)
  }

  datatype Box = Box(minLat: real, minLon: real, maxLat: real, maxLon: real)

  function Covered(g: Grid, b: Box): seq<nat>
    requires g.cellSize > 0.0
  {
    BoxIds(g, Row(g, b.minLat), Row(g, b.maxLat) + 1, Column(g, b.minLon), Column(g, b.maxLon) + 1)
  }

  /** What the cells with these ids hold; ids beyond the table are skipped. */
  function Gather(cells: seq<seq<nat>>, ids: seq<nat>): seq<nat> {
    if ids == [] then []
    else
      var id := ids[|ids| - 1];
      Gather(cells, ids[..|ids| - 1]) + if id < |cells| then cells[id] else []
  }

  lemma GatherAppend(cells: seq<seq<nat>>, ids: seq<nat>, id: nat)
    ensures Gather(cells, ids + [id]) == Gather(cells, ids) + if id < |cells| then cells[id] else []
  {
    assert (ids + [id])[..|ids|] == ids;
  }

  class Index {
    const cellSize: real
    const gridWidth: nat
    const cells: array<seq<nat>>
    ghost var live: seq<Entry>

    ghost function Shape(): Grid {
      Grid(cellSize, gridWidth)
    }

    /** Every cell holds exactly the live entries that fall into it. */
    ghost predicate Valid()
      reads this, cells
    {
      && cellSize > 0.0
      && Shape() == GridFor(cellSize)
      && cells.Length == TotalCells(cellSize)
      && forall id | 0 <= id < cells.Length :: cells[id] == Bucket(Shape(), live, id)
    }

    constructor (cellSize: real)
      requires cellSize > 0.0
      ensures Valid() && live == [] && this.cellSize == cellSize && fresh(cells)
    {
      this.cellSize := cellSize;
      var width := AsU32(Ceiling(360.0 / cellSize));
      var height := AsU32(Ceiling(180.0 / cellSize));
      this.gridWidth := width;
      this.cells := new seq<nat>[width * height % U32](_ => []);
      this.live := [];
    }

    method Clear()
      requires Valid()
      modifies this`live, cells
      ensures Valid() && live == []
    {
      for i := 0 to cells.Length
        invariant forall k | 0 <= k < i :: cells[k] == []
      {
        cells[i] := [];
      }
      live := [];
    }

    function ComputeCell(lat: real, lon: real): (id: nat)
      requires cellSize > 0.0
      ensures id == CellOf(Grid(cellSize, gridWidth), Entry(0, lat, lon))
    {
      var cellX := AsU32(((lon + 180.0) / cellSize).Floor);
      var cellY := AsU32(((lat + 90.0) / cellSize).Floor);
      (cellY * gridWidth + cellX) % U32
    }

    method Insert(entityIndex: nat, latitude: real, longitude: real)
      requires Valid()
      modifies this`live, cells
      ensures Valid() && live == old(live) + [Entry(entityIndex, latitude, longitude)]
    {
      hide Row, Column, CellId, TotalCells, GridFor;
      var cellId := ComputeCell(latitude, longitude);
      if cellId < cells.Length {
        cells[cellId] := cells[cellId] + [entityIndex];
      }
      ghost var e := Entry(entityIndex, latitude, longitude);
      live := live + [e];
      assert live[..|live| - 1] == old(live);
    }

    /** One row of a query: the cells from column minCx to maxCx. */
    method QueryRow(cy: nat, minCx: nat, maxCx: nat) returns (results: seq<nat>)
      ensures results == Gather(cells[..], RowIds(Shape(), cy, minCx, maxCx + 1))
    {
      hide CellId;
      results := [];
      if minCx <= maxCx {
        for cx := minCx to maxCx + 1
          invariant results == Gather(cells[..], RowIds(Shape(), cy, minCx, cx))
        {
          var cellId := CellId(Grid(cellSize, gridWidth), cy, cx);
          GatherAppend(cells[..], RowIds(Shape(), cy, minCx, cx), cellId);
          if cellId < cells.Length {
            results := results + cells[cellId];
          }
        }
      }
    }

    method Query(minLat: real, minLon: real, maxLat: real, maxLon: real) returns (results: seq<nat>)
      requires Valid()
      ensures results == Gather(cells[..], Covered(Shape(), Box(minLat, minLon, maxLat, maxLon)))
    {
      hide AsU32, CellId, Bucket, TotalCells, GridFor, Gather, RowIds;
      var minCx := AsU32(((minLon + 180.0) / cellSize).Floor);
      var maxCx := AsU32(((maxLon + 180.0) / cellSize).Floor);
      var minCy := AsU32(((minLat + 90.0) / cellSize).Floor);
      var maxCy := AsU32(((maxLat + 90.0) / cellSize).Floor);
      results := [];
      NothingGathered(cells[..]);
      if minCy <= maxCy {
        for cy := minCy to maxCy + 1
          invariant results == Gather(cells[..], BoxIds(Shape(), minCy, cy, minCx, maxCx + 1))
        {
          var row := QueryRow(cy, minCx, maxCx);
          GatherConcat(cells[..], BoxIds(Shape(), minCy, cy, minCx, maxCx + 1), RowIds(Shape(), cy, minCx, maxCx + 1));
          results := results + row;
        }
      }
    }
  }

  lemma NothingGathered(cells: seq<seq<nat>>)
    ensures Gather(cells, []) == []
  {
  }

  lemma {:induction false} GatherConcat(cells: seq<seq<nat>>, a: seq<nat>, b: seq<nat>)
    ensures Gather(cells, a + b) == Gather(cells, a) + Gather(cells, b)
  {
    if b == [] {
      assert a + b == a;
    } else {
      var b', id := b[..|b| - 1], b[|b| - 1];
      var last := if id < |cells| then cells[id] else [];
      calc {
        Gather(cells, a + b);
      == { assert a + b == (a + b') + [id]; GatherAppend(cells, a + b', id); }
        Gather(cells, a + b') + last;
      == { hide Gather; GatherConcat(cells, a, b'); }
        Gather(cells, a) + Gather(cells, b') + last;
      == { hide Gather; Regroup(Gather(cells, a), Gather(cells, b'), last); }
        Gather(cells, a) + (Gather(cells, b') + last);
      ==
        Gather(cells, a) + Gather(cells, b);
      }
    }
  }

  // ---------- agreement with a scan ----------

  predicate InBox(b: Box, e: Entry) {
    b.minLat <= e.lat <= b.maxLat && b.minLon <= e.lon <= b.maxLon
  }

  lemma QuotientMonotone(x: real, y: real, d: real)
    requires d > 0.0 && x <= y
    ensures (x / d).Floor <= (y / d).Floor
  {
    assert x / d <= y / d;
  }

  lemma {:induction false} RowContains(g: Grid, row: nat, lo: nat, hi: nat, c: nat)
    requires lo <= c < hi
    ensures CellId(g, row, c) in RowIds(g, row, lo, hi)
  {
    hide CellId;
    if c < hi - 1 {
      RowContains(g, row, lo, hi - 1, c);
    }
  }

  lemma {:induction false} BoxContains(g: Grid, rowLo: nat, rowHi: nat, lo: nat, hi: nat, r: nat, c: nat)
    requires rowLo <= r < rowHi && lo <= c < hi
    ensures CellId(g, r, c) in BoxIds(g, rowLo, rowHi, lo, hi)
  {
    hide CellId, RowIds;
    if r < rowHi - 1 {
      BoxContains(g, rowLo, rowHi - 1, lo, hi, r, c);
    } else {
      RowContains(g, r, lo, hi, c);
    }
  }

  /** The cell of a position inside the box is covered, even where cell numbers wrap around. */
  lemma BoxCovers(g: Grid, b: Box, e: Entry)
    requires g.cellSize > 0.0 && InBox(b, e)
    ensures CellOf(g, e) in Covered(g, b)
  {
    QuotientMonotone(b.minLat + 90.0, e.lat + 90.0, g.cellSize);
    QuotientMonotone(e.lat + 90.0, b.maxLat + 90.0, g.cellSize);
    QuotientMonotone(b.minLon + 180.0, e.lon + 180.0, g.cellSize);
    QuotientMonotone(e.lon + 180.0, b.maxLon + 180.0, g.cellSize);
    hide CellId, BoxIds;
    BoxContains(g, Row(g, b.minLat), Row(g, b.maxLat) + 1, Column(g, b.minLon), Column(g, b.maxLon) + 1,
                Row(g, e.lat), Column(g, e.lon));
  }

  /** The table after a history of inserts. */
  ghost predicate Indexes(g: Grid, cells: seq<seq<nat>>, live: seq<Entry>)
    requires g.cellSize > 0.0
  {
    forall id | 0 <= id < |cells| :: cells[id] == Bucket(g, live, id)
  }

  lemma {:induction false} BucketHolds(g: Grid, live: seq<Entry>, e: Entry)
    requires g.cellSize > 0.0 && e in live
    ensures e.index in Bucket(g, live, CellOf(g, e))
  {
    hide CellOf;
    if live[|live| - 1] != e {
      assert live == live[..|live| - 1] + [live[|live| - 1]];
      BucketHolds(g, live[..|live| - 1], e);
    }
  }

  lemma {:induction false} GatherHolds(cells: seq<seq<nat>>, ids: seq<nat>, id: nat, x: nat)
    requires id in ids && id < |cells| && x in cells[id]
    ensures x in Gather(cells, ids)
  {
    if ids[|ids| - 1] != id {
      assert ids == ids[..|ids| - 1] + [ids[|ids| - 1]];
      GatherHolds(cells, ids[..|ids| - 1], id, x);
    }
  }

  /** Nothing is missed: a query returns every live entity in the box whose cell is within the table. */
  lemma QueryComplete(g: Grid, cells: seq<seq<nat>>, live: seq<Entry>, b: Box, e: Entry)
    requires g.cellSize > 0.0 && Indexes(g, cells, live)
    requires e in live && InBox(b, e) && CellOf(g, e) < |cells|
    ensures e.index in Gather(cells, Covered(g, b))
  {
    hide CellOf, Covered;
    BoxCovers(g, b, e);
    BucketHolds(g, live, e);
    GatherHolds(cells, Covered(g, b), CellOf(g, e), e.index);
  }

  // ---------- which cells are visited twice ----------

  /** No cell of the table is listed twice. */
  predicate VisitsOnce(ids: seq<nat>, size: nat) {
    forall i, j | 0 <= i < j < |ids| && ids[i] == ids[j] :: ids[i] >= size
  }

  lemma OnceAppend(a: seq<nat>, b: seq<nat>, size: nat)
    requires VisitsOnce(a, size) && VisitsOnce(b, size) && forall id | id in a && id in b :: id >= size
    ensures VisitsOnce(a + b, size)
  {
    var ids := a + b;
    forall i, j | 0 <= i < j < |ids| && ids[i] == ids[j]
      ensures ids[i] >= size
    {
      if i < |a| <= j {
        assert ids[i] in a && ids[j] in b;
      } else if i >= |a| {
        assert b[i - |a|] == b[j - |a|];
      }
    }
  }

  lemma TwiceAppend(a: seq<nat>, b: seq<nat>, size: nat, id: nat)
    requires id in a && id in b && id < size
    ensures !VisitsOnce(a + b, size)
  {
    var i :| 0 <= i < |a| && a[i] == id;
    var j :| 0 <= j < |b| && b[j] == id;
    assert (a + b)[i] == (a + b)[|a| + j] == id;
  }

  lemma CellInRange(g: Grid, row: nat, column: nat)
    requires row * g.width + column < U32
    ensures CellId(g, row, column) == row * g.width + column
  {
  }

  /** The cells of one row are consecutive, as long as their numbers fit 32 bits. */
  lemma {:induction false} RowIs(g: Grid, row: nat, lo: nat, hi: nat)
    requires lo <= hi && row * g.width + hi <= U32
    ensures |RowIds(g, row, lo, hi)| == hi - lo
    ensures forall k | 0 <= k < hi - lo :: RowIds(g, row, lo, hi)[k] == row * g.width + lo + k
  {
    hide CellId;
    if lo < hi {
      RowIs(g, row, lo, hi - 1);
      CellInRange(g, row, hi - 1);
    }
  }

  lemma RowMember(g: Grid, row: nat, lo: nat, hi: nat, id: nat)
    requires lo <= hi && row * g.width + hi <= U32
    ensures id in RowIds(g, row, lo, hi) <==> row * g.width + lo <= id < row * g.width + hi
    ensures VisitsOnce(RowIds(g, row, lo, hi), U32)
  {
    RowIs(g, row, lo, hi);
    var ids := RowIds(g, row, lo, hi);
    hide RowIds;
    if row * g.width + lo <= id < row * g.width + hi {
      assert ids[id - row * g.width - lo] == id;
    }
  }

  /** The row r holds this cell number. */
  predicate InRow(g: Grid, r: nat, lo: nat, hi: nat, id: nat) {
    r * g.width + lo <= id < r * g.width + hi
  }

  lemma RowsBelow(g: Grid, r: nat, rowHi: nat)
    requires r <= rowHi
    ensures r * g.width <= rowHi * g.width
  {
    assert rowHi * g.width == r * g.width + (rowHi - r) * g.width;
  }

  lemma {:induction false} BoxMember(g: Grid, rowLo: nat, rowHi: nat, lo: nat, hi: nat, id: nat)
    requires lo <= hi && (rowLo < rowHi ==> (rowHi - 1) * g.width + hi <= U32)
    ensures id in BoxIds(g, rowLo, rowHi, lo, hi) <==> exists r :: rowLo <= r < rowHi && InRow(g, r, lo, hi, id)
  {
    if rowLo < rowHi {
      hide RowIds, InRow;
      var r := rowHi - 1;
      if r > rowLo {
        RowsBelow(g, r - 1, r);
      }
      BoxMember(g, rowLo, r, lo, hi, id);
      RowMember(g, r, lo, hi, id);
      assert InRow(g, r, lo, hi, id) <==> id in RowIds(g, r, lo, hi) by { RowMemberIs(g, r, lo, hi, id); }
    }
  }

  lemma RowMemberIs(g: Grid, row: nat, lo: nat, hi: nat, id: nat)
    requires lo <= hi && row * g.width + hi <= U32
    ensures id in RowIds(g, row, lo, hi) <==> InRow(g, row, lo, hi, id)
  {
    hide RowIds;
    RowMember(g, row, lo, hi, id);
  }

  lemma {:induction false} BoxSplit(g: Grid, rowLo: nat, rowHi: nat, lo: nat, hi: nat)
    requires rowLo < rowHi
    ensures BoxIds(g, rowLo, rowHi, lo, hi) == RowIds(g, rowLo, lo, hi) + BoxIds(g, rowLo + 1, rowHi, lo, hi)
  {
    hide RowIds;
    if rowLo + 1 < rowHi {
      BoxSplit(g, rowLo, rowHi - 1, lo, hi);
      Regroup(RowIds(g, rowLo, lo, hi), BoxIds(g, rowLo + 1, rowHi - 1, lo, hi), RowIds(g, rowHi - 1, lo, hi));
    } else {
      assert BoxIds(g, rowLo, rowLo, lo, hi) == [] && BoxIds(g, rowLo + 1, rowHi, lo, hi) == [];
    }
  }

  /** The box has more columns than the grid, a second row, and that row begins inside the table. */
  predicate Doubles(g: Grid, rowLo: nat, rowHi: nat, lo: nat, hi: nat, size: nat) {
    hi - lo > g.width && rowHi - rowLo >= 2 && (rowLo + 1) * g.width + lo < size
  }

  lemma {:induction false} BoxOnce(g: Grid, rowLo: nat, rowHi: nat, lo: nat, hi: nat, size: nat)
    requires lo <= hi && (rowLo < rowHi ==> (rowHi - 1) * g.width + hi <= U32) && size <= U32
    requires !Doubles(g, rowLo, rowHi, lo, hi, size)
    ensures VisitsOnce(BoxIds(g, rowLo, rowHi, lo, hi), size)
  {
    hide VisitsOnce;
    if rowLo < rowHi {
      var r := rowHi - 1;
      if r > rowLo {
        RowsBelow(g, r - 1, r);
      }
      BoxOnce(g, rowLo, r, lo, hi, size);
      RowOnce(g, r, lo, hi, size);
      var a, b := BoxIds(g, rowLo, r, lo, hi), RowIds(g, r, lo, hi);
      hide BoxIds, RowIds;
      forall id | id in a && id in b
        ensures id >= size
      {
        RowsApart(g, rowLo, r, lo, hi, size, id);
      }
      OnceAppend(a, b, size);
    } else {
      NothingTwice(size);
    }
  }

  lemma NothingTwice(size: nat)
    ensures VisitsOnce([], size)
  {
  }

  lemma RowOnce(g: Grid, row: nat, lo: nat, hi: nat, size: nat)
    requires lo <= hi && row * g.width + hi <= U32 && size <= U32
    ensures VisitsOnce(RowIds(g, row, lo, hi), size)
  {
    hide RowIds;
    RowMember(g, row, lo, hi, 0);
  }

  /** Outside the doubling case a cell that two rows share is beyond the table. */
  lemma RowsApart(g: Grid, rowLo: nat, r: nat, lo: nat, hi: nat, size: nat, id: nat)
    requires lo <= hi && r * g.width + hi <= U32 && rowLo <= r
    requires !Doubles(g, rowLo, r + 1, lo, hi, size)
    requires id in BoxIds(g, rowLo, r, lo, hi) && id in RowIds(g, r, lo, hi)
    ensures id >= size
  {
    if r > rowLo {
      RowsBelow(g, r - 1, r);
    }
    BoxMember(g, rowLo, r, lo, hi, id);
    RowMember(g, r, lo, hi, id);
    hide BoxIds, RowIds;
    var r' :| rowLo <= r' < r && InRow(g, r', lo, hi, id);
    RowsBelow(g, r' + 1, r);
    RowsBelow(g, rowLo + 1, r);
    assert (r' + 1) * g.width == r' * g.width + g.width;
  }

  /** The first cell of the second row is also in the first row. */
  lemma DoubledId(g: Grid, rowLo: nat, rowHi: nat, lo: nat, hi: nat, size: nat)
    requires lo <= hi && (rowHi - 1) * g.width + hi <= U32
    requires Doubles(g, rowLo, rowHi, lo, hi, size)
    ensures var id := (rowLo + 1) * g.width + lo;
            id in RowIds(g, rowLo, lo, hi) && id in BoxIds(g, rowLo + 1, rowHi, lo, hi)
  {
    hide BoxIds, RowIds;
    var id := (rowLo + 1) * g.width + lo;
    assert (rowLo + 1) * g.width == rowLo * g.width + g.width;
    RowsBelow(g, rowLo, rowHi - 1);
    RowMember(g, rowLo, lo, hi, id);
    BoxMember(g, rowLo + 1, rowHi, lo, hi, id);
    assert InRow(g, rowLo + 1, lo, hi, id);
  }

  lemma BoxTwice(g: Grid, rowLo: nat, rowHi: nat, lo: nat, hi: nat, size: nat)
    requires lo <= hi && (rowHi - 1) * g.width + hi <= U32
    requires Doubles(g, rowLo, rowHi, lo, hi, size)
    ensures !VisitsOnce(BoxIds(g, rowLo, rowHi, lo, hi), size)
  {
    hide VisitsOnce, BoxIds, RowIds;
    var id := (rowLo + 1) * g.width + lo;
    BoxSplit(g, rowLo, rowHi, lo, hi);
    DoubledId(g, rowLo, rowHi, lo, hi, size);
    TwiceAppend(RowIds(g, rowLo, lo, hi), BoxIds(g, rowLo + 1, rowHi, lo, hi), size, id);
  }

  /** The last cell of the box has a 32-bit number. */
  predicate Fits(g: Grid, b: Box)
    requires g.cellSize > 0.0
  {
    Row(g, b.maxLat) * g.width + Column(g, b.maxLon) < U32
  }

  predicate DoublesBox(g: Grid, b: Box, size: nat)
    requires g.cellSize > 0.0
  {
    Doubles(g, Row(g, b.minLat), Row(g, b.maxLat) + 1, Column(g, b.minLon), Column(g, b.maxLon) + 1, size)
  }

  lemma {:induction false} NoColumns(g: Grid, rowLo: nat, rowHi: nat, lo: nat, hi: nat)
    requires hi <= lo
    ensures BoxIds(g, rowLo, rowHi, lo, hi) == []
  {
    if rowLo < rowHi {
      NoColumns(g, rowLo, rowHi - 1, lo, hi);
    }
  }

  /** Exactly when a query visits a cell of the table twice. */
  lemma VisitsTwiceIff(g: Grid, b: Box, size: nat)
    requires g.cellSize > 0.0 && Fits(g, b) && size <= U32
    ensures VisitsOnce(Covered(g, b), size) <==> !DoublesBox(g, b, size)
  {
    var rowLo, rowHi, lo, hi := Row(g, b.minLat), Row(g, b.maxLat) + 1, Column(g, b.minLon), Column(g, b.maxLon) + 1;
    hide Row, Column, BoxIds, VisitsOnce;
    if hi <= lo {
      NoColumns(g, rowLo, rowHi, lo, hi);
      NothingTwice(size);
    } else if Doubles(g, rowLo, rowHi, lo, hi, size) {
      BoxTwice(g, rowLo, rowHi, lo, hi, size);
    } else {
      BoxOnce(g, rowLo, rowHi, lo, hi, size);
    }
  }

  // ---------- agreement with a scan of the cells ----------

  /** What a scan of the live entities selects: those whose cell is one of these and in the table. */
  function Scan(g: Grid, size: nat, live: seq<Entry>, ids: seq<nat>): multiset<nat>
    requires g.cellSize > 0.0
  {
    if live == [] then multiset{}
    else
      var e := live[|live| - 1];
      Scan(g, size, live[..|live| - 1], ids)
      + if CellOf(g, e) in ids && CellOf(g, e) < size then multiset{e.index} else multiset{}
  }

  lemma {:induction false} ScanNothing(g: Grid, size: nat, live: seq<Entry>)
    requires g.cellSize > 0.0
    ensures Scan(g, size, live, []) == multiset{}
  {
    hide CellOf;
    if live != [] {
      ScanNothing(g, size, live[..|live| - 1]);
    }
  }

  /** Scanning for one more cell adds exactly that cell's bucket, and nothing if it was there. */
  lemma {:induction false} ScanOneMore(g: Grid, size: nat, live: seq<Entry>, ids: seq<nat>, id: nat)
    requires g.cellSize > 0.0
    ensures Scan(g, size, live, ids + [id])
         == Scan(g, size, live, ids) + if id < size && id !in ids then multiset(Bucket(g, live, id)) else multiset{}
  {
    hide CellOf;
    if live != [] {
      ScanOneMore(g, size, live[..|live| - 1], ids, id);
    }
  }

  /** No cell that holds something is visited twice. */
  predicate HoldsOnce(cells: seq<seq<nat>>, ids: seq<nat>) {
    forall i, j | 0 <= i < j < |ids| && ids[i] == ids[j] && ids[i] < |cells| :: cells[ids[i]] == []
  }

  lemma HoldsOnceAppend(cells: seq<seq<nat>>, ids: seq<nat>, id: nat)
    ensures HoldsOnce(cells, ids + [id]) <==> HoldsOnce(cells, ids) && (id in ids && id < |cells| ==> cells[id] == [])
  {
    var all := ids + [id];
    if HoldsOnce(cells, all) {
      forall i, j | 0 <= i < j < |ids| && ids[i] == ids[j] && ids[i] < |cells|
        ensures cells[ids[i]] == []
      {
        assert all[i] == all[j];
      }
      if id in ids && id < |cells| {
        var i :| 0 <= i < |ids| && ids[i] == id;
        assert all[i] == all[|ids|];
      }
    }
  }

  /** A query finds at least what the scan finds, and exactly that if and only if no cell that holds
      something is visited twice. */
  lemma {:induction false} GatherVersusScan(g: Grid, cells: seq<seq<nat>>, live: seq<Entry>, ids: seq<nat>)
    requires g.cellSize > 0.0 && Indexes(g, cells, live)
    ensures Scan(g, |cells|, live, ids) <= multiset(Gather(cells, ids))
    ensures multiset(Gather(cells, ids)) == Scan(g, |cells|, live, ids) <==> HoldsOnce(cells, ids)
  {
    if ids == [] {
      ScanNothing(g, |cells|, live);
    } else {
      hide CellOf, Bucket, HoldsOnce;
      var front, id := ids[..|ids| - 1], ids[|ids| - 1];
      assert ids == front + [id];
      GatherVersusScan(g, cells, live, front);
      ScanOneMore(g, |cells|, live, front, id);
      HoldsOnceAppend(cells, front, id);
      hide Scan, Gather;
      GatherAppend(cells, front, id);
      var more := if id < |cells| then cells[id] else [];
      assert multiset(Gather(cells, ids)) == multiset(Gather(cells, front)) + multiset(more);
      OneMoreCell(multiset(Gather(cells, front)), Scan(g, |cells|, live, front), multiset(more), id in front);
    }
  }

  lemma OneMoreCell(found: multiset<nat>, scanned: multiset<nat>, more: multiset<nat>, again: bool)
    requires scanned <= found
    ensures var scanned' := scanned + if again then multiset{} else more;
            && scanned' <= found + more
            && (found + more == scanned' <==> found == scanned && (again ==> more == multiset{}))
  {
    if again && found + more == scanned {
      assert |found + more| == |found| + |more|;
      assert |scanned| <= |found| by { assert found == scanned + (found - scanned); }
    }
    if !again && found + more == scanned + more {
      assert (found + more) - more == found && (scanned + more) - more == scanned;
    }
  }

  /** Index agreement: as long as the box's last cell has a 32-bit number, a query returns exactly what
      scanning the live entities for the covered cells returns, each entity once per insert, if and only
      if no cell holding something is visited twice - which never happens unless the box has more columns
      than the grid, and a second row that begins inside the table. */
  lemma QueryExact(g: Grid, cells: seq<seq<nat>>, live: seq<Entry>, b: Box)
    requires g.cellSize > 0.0 && Indexes(g, cells, live) && Fits(g, b) && |cells| <= U32
    ensures multiset(Gather(cells, Covered(g, b))) == Scan(g, |cells|, live, Covered(g, b))
       <==> HoldsOnce(cells, Covered(g, b))
    ensures !DoublesBox(g, b, |cells|) ==> HoldsOnce(cells, Covered(g, b))
  {
    hide Covered, DoublesBox, Gather, Scan;
    GatherVersusScan(g, cells, live, Covered(g, b));
    VisitsTwiceIff(g, b, |cells|);
  }

  // ---------- agreement with a scan of rows and columns ----------

  predicate Inside(g: Grid, b: Box, e: Entry)
    requires g.cellSize > 0.0
  {
    Row(g, b.minLat) <= Row(g, e.lat) <= Row(g, b.maxLat) && Column(g, b.minLon) <= Column(g, e.lon) <= Column(g, b.maxLon)
  }

  /** What a scan by row and column selects, of the entities in the table. */
  function ScanBox(g: Grid, size: nat, live: seq<Entry>, b: Box): multiset<nat>
    requires g.cellSize > 0.0
  {
    if live == [] then multiset{}
    else
      var e := live[|live| - 1];
      ScanBox(g, size, live[..|live| - 1], b) + if Inside(g, b, e) && CellOf(g, e) < size then multiset{e.index} else multiset{}
  }

  /** An entity of the table that a query returns although its row or column is outside the box. */
  predicate Stray(g: Grid, size: nat, b: Box, e: Entry)
    requires g.cellSize > 0.0
  {
    CellOf(g, e) < size && CellOf(g, e) in Covered(g, b) && !Inside(g, b, e)
  }

  lemma InsideCovered(g: Grid, b: Box, e: Entry)
    requires g.cellSize > 0.0 && Inside(g, b, e)
    ensures CellOf(g, e) in Covered(g, b)
  {
    hide CellId, BoxIds, Row, Column;
    BoxContains(g, Row(g, b.minLat), Row(g, b.maxLat) + 1, Column(g, b.minLon), Column(g, b.maxLon) + 1,
                Row(g, e.lat), Column(g, e.lon));
  }

  lemma {:induction false} ScanVersusBox(g: Grid, size: nat, live: seq<Entry>, b: Box)
    requires g.cellSize > 0.0
    ensures ScanBox(g, size, live, b) <= Scan(g, size, live, Covered(g, b))
    ensures Scan(g, size, live, Covered(g, b)) == ScanBox(g, size, live, b) <==> forall e | e in live :: !Stray(g, size, b, e)
  {
    hide CellOf, Covered, Inside;
    if live != [] {
      var front, e := live[..|live| - 1], live[|live| - 1];
      ScanVersusBox(g, size, front, b);
      if Inside(g, b, e) {
        InsideCovered(g, b, e);
      }
      assert live == front + [e];
      var one := if CellOf(g, e) in Covered(g, b) && CellOf(g, e) < size then multiset{e.index} else multiset{};
      OneMoreCell(Scan(g, size, front, Covered(g, b)), ScanBox(g, size, front, b), one, Stray(g, size, b, e));
    }
  }

  /** A query returns exactly the live entities of the box's rows and columns, each once per insert, if and
      only if no cell holding something is visited twice and no entity is a stray. */
  lemma QueryAgrees(g: Grid, cells: seq<seq<nat>>, live: seq<Entry>, b: Box)
    requires g.cellSize > 0.0 && Indexes(g, cells, live)
    ensures multiset(Gather(cells, Covered(g, b))) == ScanBox(g, |cells|, live, b)
       <==> HoldsOnce(cells, Covered(g, b)) && forall e | e in live :: !Stray(g, |cells|, b, e)
  {
    hide Covered, Gather, Scan, ScanBox, HoldsOnce, Stray;
    var ids := Covered(g, b);
    GatherVersusScan(g, cells, live, ids);
    ScanVersusBox(g, |cells|, live, b);
    Between(multiset(Gather(cells, ids)), Scan(g, |cells|, live, ids), ScanBox(g, |cells|, live, b));
  }

  lemma Between(a: multiset<nat>, b: multiset<nat>, c: multiset<nat>)
    requires c <= b <= a
    ensures a == c <==> a == b && b == c
  {
  }

  predicate EntryFits(g: Grid, e: Entry)
    requires g.cellSize > 0.0
  {
    Row(g, e.lat) * g.width + Column(g, e.lon) < U32
  }

  /** No entity is a stray in a box inside the grid if its own column is inside the grid. */
  lemma NoStray(g: Grid, size: nat, b: Box, e: Entry)
    requires g.cellSize > 0.0 && Fits(g, b) && EntryFits(g, e)
    requires Column(g, b.maxLon) < g.width && Column(g, e.lon) < g.width
    ensures !Stray(g, size, b, e)
  {
    var rowLo, rowHi, lo, hi := Row(g, b.minLat), Row(g, b.maxLat) + 1, Column(g, b.minLon), Column(g, b.maxLon) + 1;
    var r, c := Row(g, e.lat), Column(g, e.lon);
    CellInRange(g, r, c);
    hide BoxIds;
    if lo < hi {
      BoxMember(g, rowLo, rowHi, lo, hi, CellOf(g, e));
      if CellOf(g, e) in Covered(g, b) {
        var r' :| rowLo <= r' < rowHi && InRow(g, r', lo, hi, r * g.width + c);
        SameCell(g.width, r, c, r', r * g.width + c - r' * g.width);
      }
    } else {
      NoColumns(g, rowLo, rowHi, lo, hi);
    }
  }

  lemma SameCell(w: nat, r: nat, c: nat, r': nat, c': int)
    requires c < w && 0 <= c' < w && r * w + c == r' * w + c'
    ensures r == r' && c == c'
  {
    DivisionUnique(r * w + c, w, r, c);
    DivisionUnique(r * w + c, w, r', c');
  }

  /** With the box's last column and every entity's own column inside the grid, a query is a scan: it returns
      exactly the live entities of the box's rows and columns, each once per insert. */
  lemma QueryIsScan(g: Grid, cells: seq<seq<nat>>, live: seq<Entry>, b: Box)
    requires g.cellSize > 0.0 && Indexes(g, cells, live) && |cells| <= U32
    requires Fits(g, b) && Column(g, b.maxLon) < g.width
    requires forall e | e in live :: EntryFits(g, e) && Column(g, e.lon) < g.width
    ensures multiset(Gather(cells, Covered(g, b))) == ScanBox(g, |cells|, live, b)
  {
    assert !DoublesBox(g, b, |cells|);
    hide Covered, Gather, ScanBox, HoldsOnce, DoublesBox, Indexes, Fits, EntryFits, Column, Stray;
    QueryAgrees(g, cells, live, b);
    QueryExact(g, cells, live, b);
    forall e | e in live
      ensures !Stray(g, |cells|, b, e)
    {
      NoStray(g, |cells|, b, e);
    }
  }

  /** A grid that 32-bit cell numbers do for, with a row to spare for the pole. */
  predicate Small(cellSize: real)
    requires cellSize > 0.0
  {
    (Ceiling(180.0 / cellSize) + 1) * Ceiling(360.0 / cellSize) <= U32
  }

  lemma QuotientBelow(x: real, y: real, d: real)
    requires d > 0.0 && x < y
    ensures x / d < y / d
  {
    assert (y - x) / d > 0.0;
    assert y / d - x / d == (y - x) / d;
  }

  lemma WithinGrid(cellSize: real, lat: real, lon: real)
    requires cellSize > 0.0 && Small(cellSize) && lat <= 90.0 && lon < 180.0
    ensures var g := GridFor(cellSize);
            Column(g, lon) < g.width && Row(g, lat) * g.width + Column(g, lon) < U32
  {
    var g, height, width := GridFor(cellSize), Ceiling(180.0 / cellSize), Ceiling(360.0 / cellSize);
    QuotientBelow(0.0, 180.0, cellSize);
    QuotientBelow(180.0, 360.0, cellSize);
    assert 1 <= height <= width;
    assert width <= (height + 1) * width;
    QuotientBelow(lon + 180.0, 360.0, cellSize);
    QuotientMonotone(lat + 90.0, 180.0, cellSize);
    assert Column(g, lon) < width && Row(g, lat) <= height;
    assert Row(g, lat) * width <= height * width;
  }

  /** In degrees: over a grid of any cell size that 32-bit numbers do for, with every entity and the box west of
      180 degrees and no further north than the pole, a query is a scan. */
  lemma QueryInDegrees(cellSize: real, cells: seq<seq<nat>>, live: seq<Entry>, b: Box)
    requires cellSize > 0.0 && Small(cellSize) && |cells| == TotalCells(cellSize) && Indexes(GridFor(cellSize), cells, live)
    requires forall e | e in live :: e.lat <= 90.0 && e.lon < 180.0
    requires b.maxLat <= 90.0 && b.maxLon < 180.0
    ensures multiset(Gather(cells, Covered(GridFor(cellSize), b))) == ScanBox(GridFor(cellSize), |cells|, live, b)
  {
    var g := GridFor(cellSize);
    WithinGrid(cellSize, b.maxLat, b.maxLon);
    forall e | e in live
      ensures EntryFits(g, e) && Column(g, e.lon) < g.width
    {
      WithinGrid(cellSize, e.lat, e.lon);
    }
    hide Covered, Gather, ScanBox, Small, Indexes, Column, Row, EntryFits;
    QueryIsScan(g, cells, live, b);
  }

  /** A box within the one cell of this row and column. */
  function CellBox(g: Grid, row: nat, column: nat): Box {
    var lat, lon := row as real * g.cellSize - 90.0, column as real * g.cellSize - 180.0;
    Box(lat, lon, lat, lon)
  }

  lemma CellBoxIs(g: Grid, row: nat, column: nat)
    requires g.cellSize > 0.0 && row < U32 && column < U32
    ensures Row(g, CellBox(g, row, column).minLat) == row && Column(g, CellBox(g, row, column).minLon) == column
  {
    var b := CellBox(g, row, column);
    WholeQuotient(row, g.cellSize, b.minLat + 90.0);
    WholeQuotient(column, g.cellSize, b.minLon + 180.0);
  }

  lemma WholeQuotient(n: nat, d: real, x: real)
    requires d > 0.0 && x == n as real * d
    ensures (x / d).Floor == n
  {
    assert x / d == n as real;
  }

  /** Exactly which entities can be strays: for an entity in the table some box inside the grid returns it
      although it is not in the box's rows and columns, if and only if its column is past the grid. */
  lemma StrayIff(g: Grid, size: nat, e: Entry)
    requires g.cellSize > 0.0 && g.width > 0 && EntryFits(g, e) && CellOf(g, e) < size
    ensures (exists b :: Fits(g, b) && Column(g, b.maxLon) < g.width && Stray(g, size, b, e)) <==> Column(g, e.lon) >= g.width
  {
    var r, c := Row(g, e.lat), Column(g, e.lon);
    if c >= g.width {
      var r', c' := r + c / g.width, c % g.width;
      assert r' * g.width + c' == r * g.width + c by { Carried(g.width, r, c); }
      assert r' < U32 by { RowWithin(g.width, r', c'); }
      var b := CellBox(g, r', c');
      CellBoxIs(g, r', c');
      CellInRange(g, r, c);
      CellInRange(g, r', c');
      hide Row, Column, CellBox;
      assert BoxIds(g, r', r', c', c' + 1) == [] && RowIds(g, r', c', c') == [];
      assert RowIds(g, r', c', c' + 1) == [] + [CellId(g, r', c')];
      assert Covered(g, b) == [] + RowIds(g, r', c', c' + 1);
      assert CellOf(g, e) in Covered(g, b);
      assert Stray(g, size, b, e);
    } else {
      forall b | Fits(g, b) && Column(g, b.maxLon) < g.width
        ensures !Stray(g, size, b, e)
      {
        NoStray(g, size, b, e);
      }
    }
  }

  lemma Carried(w: nat, r: nat, c: nat)
    requires w > 0
    ensures (r + c / w) * w + c % w == r * w + c
  {
    assert (r + c / w) * w == r * w + c / w * w;
  }

  lemma RowWithin(w: nat, r: nat, c: nat)
    requires w > 0 && r * w + c < U32
    ensures r < U32
  {
    assert r * w >= r;
  }

  /** The first cell of the box's second row. */
  function SecondRow(g: Grid, b: Box): nat
    requires g.cellSize > 0.0
  {
    (Row(g, b.minLat) + 1) * g.width + Column(g, b.minLon)
  }

  lemma SecondRowTwice(g: Grid, cells: seq<seq<nat>>, b: Box)
    requires g.cellSize > 0.0 && Fits(g, b) && DoublesBox(g, b, |cells|)
    requires SecondRow(g, b) < |cells| ==> cells[SecondRow(g, b)] != []
    ensures SecondRow(g, b) < |cells| && !HoldsOnce(cells, Covered(g, b))
  {
    hide Row, Column, BoxIds, RowIds, HoldsOnce;
    var rowLo, rowHi, lo, hi := Row(g, b.minLat), Row(g, b.maxLat) + 1, Column(g, b.minLon), Column(g, b.maxLon) + 1;
    BoxSplit(g, rowLo, rowHi, lo, hi);
    DoubledId(g, rowLo, rowHi, lo, hi, |cells|);
    HeldTwice(cells, RowIds(g, rowLo, lo, hi), BoxIds(g, rowLo + 1, rowHi, lo, hi), SecondRow(g, b));
  }

  /** In a box that doubles, an entity in the first cell of the second row is returned once too often. */
  lemma DoubledEntity(g: Grid, cells: seq<seq<nat>>, live: seq<Entry>, b: Box, e: Entry)
    requires g.cellSize > 0.0 && Indexes(g, cells, live) && Fits(g, b) && DoublesBox(g, b, |cells|)
    requires e in live && CellOf(g, e) == SecondRow(g, b)
    ensures multiset(Gather(cells, Covered(g, b))) != Scan(g, |cells|, live, Covered(g, b))
  {
    hide Gather, Scan, Covered, Fits, DoublesBox, SecondRow, CellOf, Bucket, HoldsOnce;
    BucketHolds(g, live, e);
    SecondRowTwice(g, cells, b);
    GatherVersusScan(g, cells, live, Covered(g, b));
  }

  lemma HeldTwice(cells: seq<seq<nat>>, a: seq<nat>, b: seq<nat>, id: nat)
    requires id in a && id in b && id < |cells| && cells[id] != []
    ensures !HoldsOnce(cells, a + b)
  {
    var i :| 0 <= i < |a| && a[i] == id;
    var j :| 0 <= j < |b| && b[j] == id;
    assert (a + b)[i] == (a + b)[|a| + j] == id;
  }

  lemma BucketOfOne(g: Grid, e: Entry, id: nat)
    requires g.cellSize > 0.0
    ensures Bucket(g, [e], id) == if CellOf(g, e) == id then [e.index] else []
  {
    hide CellOf;
    assert [e][..0] == [];
  }

  /** An input that doubles: in a query for the whole world the last column is one beyond the grid, its
      cells are those of the next row's first column, and an entity there is returned twice. */
  lemma LastColumnCountsTwice()
    ensures var g := GridFor(90.0);
            var cells := [[], [], [], [], [7], [], [], []];
            && |cells| == TotalCells(90.0)
            && Indexes(g, cells, [Entry(7, -45.0, 180.0)])
            && Gather(cells, Covered(g, Box(-45.0, -180.0, 45.0, 180.0))) == [7, 7]
  {
    hide *;
    var g, e, b := GridFor(90.0), Entry(7, -45.0, 180.0), Box(-45.0, -180.0, 45.0, 180.0);
    var cells: seq<seq<nat>> := [[], [], [], [], [7], [], [], []];
    CoarseGrid(e, b);
    CoarseTable(g, e, cells);
    FiveColumns(g, 0);
    FiveColumns(g, 1);
    GatheredTwice(cells);
    GatherConcat(cells, RowIds(g, 0, 0, 5), RowIds(g, 1, 0, 5));
  }

  /** The whole-world query over cells of 90 degrees. */
  lemma CoarseGrid(e: Entry, b: Box)
    requires e.lat == -45.0 && e.lon == 180.0 && b == Box(-45.0, -180.0, 45.0, 180.0)
    ensures GridFor(90.0) == Grid(90.0, 4) && TotalCells(90.0) == 8 && CellOf(GridFor(90.0), e) == 4
    ensures Covered(GridFor(90.0), b) == RowIds(GridFor(90.0), 0, 0, 5) + RowIds(GridFor(90.0), 1, 0, 5)
  {
    hide RowIds;
    var g := GridFor(90.0);
    assert BoxIds(g, 0, 2, 0, 5) == BoxIds(g, 0, 1, 0, 5) + RowIds(g, 1, 0, 5);
    assert BoxIds(g, 0, 0, 0, 5) == [];
    assert BoxIds(g, 0, 1, 0, 5) == RowIds(g, 0, 0, 5);
  }

  lemma CoarseTable(g: Grid, e: Entry, cells: seq<seq<nat>>)
    requires g.cellSize > 0.0 && CellOf(g, e) == 4 && cells == [[], [], [], [], [e.index], [], [], []]
    ensures Indexes(g, cells, [e])
  {
    hide CellOf, Bucket;
    forall id | 0 <= id < |cells|
      ensures cells[id] == Bucket(g, [e], id)
    {
      BucketOfOne(g, e, id);
    }
  }

  /** And a stray: at longitude 180 an entity counts for the next row, here for a box that ends at
      longitude -170 and begins ninety degrees further north. */
  lemma StrayExample(e: Entry, b: Box)
    requires e.lat == -45.0 && e.lon == 180.0 && b == Box(45.0, -180.0, 45.0, -170.0)
    ensures Column(GridFor(90.0), b.maxLon) < GridFor(90.0).width && Stray(GridFor(90.0), TotalCells(90.0), b, e)
  {
    hide BoxIds;
    FirstCell(Grid(90.0, 4));
  }

  lemma FirstCell(g: Grid)
    requires g == Grid(90.0, 4)
    ensures BoxIds(g, 1, 2, 0, 1) == [4]
  {
    assert BoxIds(g, 1, 1, 0, 1) == [] && RowIds(g, 1, 0, 0) == [];
    assert RowIds(g, 1, 0, 1) == [] + [4];
  }

  lemma FiveColumns(g: Grid, row: nat)
    requires g == Grid(90.0, 4) && row <= 1
    ensures var first := row * 4; RowIds(g, row, 0, 5) == [first, first + 1, first + 2, first + 3, first + 4]
  {
    var first := row * 4;
    assert RowIds(g, row, 0, 0) == [];
    assert RowIds(g, row, 0, 1) == [first];
    assert RowIds(g, row, 0, 2) == [first, first + 1];
    assert RowIds(g, row, 0, 3) == [first, first + 1, first + 2];
    assert RowIds(g, row, 0, 4) == [first, first + 1, first + 2, first + 3];
  }

  lemma {:induction false} GatherEmpty(cells: seq<seq<nat>>, ids: seq<nat>)
    requires forall id | id in ids && id < |cells| :: cells[id] == []
    ensures Gather(cells, ids) == []
  {
    if ids != [] {
      GatherEmpty(cells, ids[..|ids| - 1]);
    }
  }

  lemma GatherSingle(cells: seq<seq<nat>>, id: nat)
    requires id < |cells|
    ensures Gather(cells, [id]) == cells[id]
  {
    NothingGathered(cells);
    GatherAppend(cells, [], id);
    assert [] + [id] == [id];
  }

  /** Both rows of cells hold the one entity: as the last column of the first, and as the first of
      the second. */
  lemma GatheredTwice(cells: seq<seq<nat>>)
    requires cells == [[], [], [], [], [7], [], [], []]
    ensures Gather(cells, [0, 1, 2, 3, 4]) == [7] && Gather(cells, [4, 5, 6, 7, 8]) == [7]
  {
    hide Gather;
    GatherSingle(cells, 4);
    GatherEmpty(cells, [0, 1, 2, 3]);
    GatherEmpty(cells, [5, 6, 7, 8]);
    assert [0, 1, 2, 3] + [4] == [0, 1, 2, 3, 4] && [4] + [5, 6, 7, 8] == [4, 5, 6, 7, 8];
    GatherConcat(cells, [0, 1, 2, 3], [4]);
    GatherConcat(cells, [4], [5, 6, 7, 8]);
  }
}
