/**
 The looping reduction of rank-two values: one program per segment and block of
 columns. Row and column indices of the loads are 64-bit; the store index is
 computed in 32 bits.
 */
module RowsKernel {
  import opened Int32
  import opened Integers
  import opened Monoids
  import opened SegmentTiles
  import SumError
  import opened Device

  const COLUMNS_FLOOR := 4
  const COLUMNS_CEILING := 64

  function Pow2(k: nat): nat {
    if k == 0 then 1 else 2 * Pow2(k - 1)
  }

  /** The column block and the number of blocks. The block is the least power of two from 4 on that is wide enough. */
  method RowsColumns(features: nat) returns (block: nat, blocks: nat)
    requires features >= 1
    ensures 4 <= block <= 64 && exists k :: 2 <= k <= 6 && block == Pow2(k)
    ensures block >= Min(features, 64) && (block == 4 || block < 2 * Min(features, 64))
    ensures blocks >= 1 && (blocks - 1) * block < features <= blocks * block
  {
    block := COLUMNS_FLOOR;
    ghost var k := 2;
    assert Pow2(2) == 4 && Pow2(6) == 64 by { assert Pow2(1) == 2 && Pow2(3) == 8 && Pow2(4) == 16 && Pow2(5) == 32; }
    while block < Min(features, COLUMNS_CEILING)
      invariant 2 <= k <= 6 && block == Pow2(k) && 4 <= block <= 64
      invariant block == 4 || block < 2 * Min(features, COLUMNS_CEILING)
      decreases 64 - block
    {
      assert k < 6;
      block := block * 2;
      k := k + 1;
    }
    blocks := CeilDiv(features, block);
  }

  /** Python's `-(-n // d)`. */
  function CeilDiv(n: nat, d: nat): (q: nat)
    requires d > 0
    ensures (q - 1) * d < n <= q * d
  {
    assert n == d * (n / d) + n % d;
    if n % d == 0 then n / d else n / d + 1
  }

  /** Values `[N, features]`, row by row, and i32 offsets over the rows. */
  ghost predicate Layout<T>(values: seq<T>, offsets: seq<i32>, features: nat) {
    && 0 < |offsets| && offsets[0] == 0 && offsets[|offsets| - 1] * features == |values|
    && forall i, j :: 0 <= i <= j < |offsets| ==> offsets[i] <= offsets[j]
  }

  /** The cell of a row and a column, and that it is one of the values. */
  lemma CellInBounds(rows: nat, features: nat, row: nat, column: nat)
    requires row < rows && column < features
    ensures 0 <= row * features + column < rows * features
  {
    assert (row + 1) * features <= rows * features by { MultiplyLessEqual(row + 1, rows, features); }
    assert (row + 1) * features == row * features + features;
  }

  /** One column of the rows `[0, rows)`. */
  function Column<T>(values: seq<T>, rows: nat, features: nat, column: nat): (c: seq<T>)
    requires rows * features == |values| && column < features
    ensures |c| == rows
  {
    seq(rows, row requires 0 <= row < rows =>
      (CellInBounds(rows, features, row, column); values[row * features + column]))
  }

  predicate IsValueAt<T(==)>(values: seq<T>, at: int, x: T) {
    0 <= at < |values| && values[at] == x
  }

  /** The rows `[begin, end)` of a column, by their indices in the values. */
  lemma ColumnSlice<T>(values: seq<T>, rows: nat, features: nat, column: nat, begin: nat, end: nat)
    requires rows * features == |values| && column < features && begin <= end <= rows
    ensures forall r: nat :: r < end - begin ==>
              IsValueAt(values, (begin + r) * features + column, Column(values, rows, features, column)[begin..end][r])
  {
    forall r: nat | r < end - begin
      ensures IsValueAt(values, (begin + r) * features + column, Column(values, rows, features, column)[begin..end][r])
    {
      CellInBounds(rows, features, begin + r, column);
    }
  }

  /** The reduction of one column over the rows of one segment. */
  function CellTotal<T(!new)>(m: Monoid<T>, values: seq<T>, offsets: seq<i32>, features: nat, segment: nat,
                              column: nat): T
    requires Layout(values, offsets, features) && segment + 1 < |offsets| && column < features
  {
    assert offsets[0] <= offsets[segment] <= offsets[segment + 1] <= offsets[|offsets| - 1];
    Fold(m, Column(values, offsets[|offsets| - 1], features, column)[offsets[segment]..offsets[segment + 1]])
  }

  /** The loads of one column in one step: 64-bit rows, masked by the segment end and the column. */
  function RowTile<T(!new)>(m: Monoid<T>, values: seq<T>, rows: nat, features: nat, start: nat, end: nat,
                            blockRows: nat, column: nat): (tile: seq<T>)
    requires rows * features == |values| && end <= rows
    ensures |tile| == blockRows
  {
    seq(blockRows, r requires 0 <= r < blockRows =>
      if start + r < end && column < features
      then (CellInBounds(rows, features, start + r, column); values[(start + r) * features + column]) else m.id)
  }

  /** A column of a step reduces to the rows it covers. */
  lemma FoldOfRowTile<T(!new)>(m: Monoid<T>, values: seq<T>, rows: nat, features: nat, start: nat, end: nat,
                               blockRows: nat, column: nat)
    requires Lawful(m) && rows * features == |values| && end <= rows && column < features
    ensures Fold(m, RowTile(m, values, rows, features, start, end, blockRows, column))
         == Fold(m, Covered(Column(values, rows, features, column), start, end, blockRows))
  {
    hide Lawful, Fold;
    var covered := Covered(Column(values, rows, features, column), start, end, blockRows);
    assert RowTile(m, values, rows, features, start, end, blockRows, column)
        == covered + Fill(m, blockRows - |covered|);
    FoldConcat(m, covered, Fill(m, blockRows - |covered|));
    FoldOfFill(m, blockRows - |covered|);
    Identity(m, Fold(m, covered));
  }

  /** A step of the loop accumulates the rows it covers, in every column of the block. */
  lemma AccumulateRows<T(!new)>(m: Monoid<T>, values: seq<T>, rows: nat, features: nat, begin: nat, start: nat,
                                end: nat, blockRows: nat, column: nat, total: seq<T>)
    requires Commutative(m) && rows * features == |values| && begin <= start && begin <= end <= rows
    requires column < features
    requires |total| == blockRows
    requires Fold(m, total) == Fold(m, Column(values, rows, features, column)[begin..Min(end, start)])
    ensures Fold(m, Combine(m, total, RowTile(m, values, rows, features, start, end, blockRows, column)))
         == Fold(m, Column(values, rows, features, column)[begin..Min(end, start + blockRows)])
  {
    hide Commutative, Lawful, Combine;
    var xs := Column(values, rows, features, column);
    var tile := RowTile(m, values, rows, features, start, end, blockRows, column);
    FoldOfRowTile(m, values, rows, features, start, end, blockRows, column);
    hide Column, RowTile;
    FoldOfCombine(m, total, tile);
    if start < end {
      FoldSlices(m, xs, begin, start, Min(end, start + blockRows));
    } else {
      Identity(m, Fold(m, total));
    }
  }

  /** The accumulator of one column after the rows `[begin, to)`. A column past the last holds anything. */
  ghost predicate Accumulated<T(!new)>(m: Monoid<T>, values: seq<T>, rows: nat, features: nat, begin: nat, to: nat,
                                       blockRows: nat, column: nat, total: seq<T>)
    requires rows * features == |values| && begin <= to <= rows
  {
    |total| == blockRows
    && (column < features ==> Fold(m, total) == Fold(m, Column(values, rows, features, column)[begin..to]))
  }

  lemma NothingAccumulated<T(!new)>(m: Monoid<T>, values: seq<T>, rows: nat, features: nat, begin: nat, blockRows: nat,
                                    column: nat)
    requires Commutative(m) && rows * features == |values| && begin <= rows
    ensures Accumulated(m, values, rows, features, begin, begin, blockRows, column, Fill(m, blockRows))
  {
    hide Commutative, Lawful;
    FoldOfFill(m, blockRows);
    if column < features {
      assert Column(values, rows, features, column)[begin..begin] == [];
    }
  }

  /** One step of the loop in one column. */
  function Step<T(!new)>(m: Monoid<T>, values: seq<T>, rows: nat, features: nat, start: nat, end: nat, blockRows: nat,
                         column: nat, total: seq<T>): seq<T>
    requires rows * features == |values| && end <= rows && |total| == blockRows
  {
    Combine(m, total, RowTile(m, values, rows, features, start, end, blockRows, column))
  }

  lemma StepAccumulates<T(!new)>(m: Monoid<T>, values: seq<T>, rows: nat, features: nat, begin: nat, start: nat,
                                 end: nat, blockRows: nat, column: nat, total: seq<T>)
    requires Commutative(m) && rows * features == |values| && begin <= start && begin <= end <= rows
    requires Accumulated(m, values, rows, features, begin, Min(end, start), blockRows, column, total)
    ensures Accumulated(m, values, rows, features, begin, Min(end, start + blockRows), blockRows, column,
                        Step(m, values, rows, features, start, end, blockRows, column, total))
  {
    if column < features {
      AccumulateRows(m, values, rows, features, begin, start, end, blockRows, column, total);
    }
    hide Commutative, RowTile, Fold, Column;
  }

  /** The accumulators of a block of columns after the walk over the rows of a segment. */
  method BlockTotals<T(!new)>(m: Monoid<T>, values: seq<T>, rows: nat, features: nat, begin: nat, end: nat,
                              blockRows: nat, blockColumns: nat, first: nat)
    returns (total: seq<seq<T>>)
    requires Commutative(m) && blockRows > 0 && rows * features == |values| && begin <= end <= rows
    ensures |total| == blockColumns
    ensures forall c :: 0 <= c < blockColumns ==>
              Accumulated(m, values, rows, features, begin, end, blockRows, first + c, total[c])
  {
    total := seq(blockColumns, _ => Fill(m, blockRows));
    var start := begin;
    forall c: nat | c < blockColumns
      ensures Accumulated(m, values, rows, features, begin, begin, blockRows, first + c, total[c])
    {
      NothingAccumulated(m, values, rows, features, begin, blockRows, first + c);
    }
    while start < end
      invariant begin <= start && |total| == blockColumns
      invariant forall c :: 0 <= c < blockColumns ==>
                  Accumulated(m, values, rows, features, begin, Min(end, start), blockRows, first + c, total[c])
      decreases end - start
    {
      hide Commutative, Fold, Column, Step;
      forall c: nat | c < blockColumns
        ensures |total[c]| == blockRows
             && Accumulated(m, values, rows, features, begin, Min(end, start + blockRows), blockRows, first + c,
                            Step(m, values, rows, features, start, end, blockRows, first + c, total[c]))
      {
        StepAccumulates(m, values, rows, features, begin, start, end, blockRows, first + c, total[c]);
      }
      var before := total;
      total := seq(blockColumns,
                   c requires 0 <= c < blockColumns && |before| == blockColumns && |before[c]| == blockRows =>
                     Step(m, values, rows, features, start, end, blockRows, first + c, before[c]));
      start := start + blockRows;
    }
  }

  // ------------------------------------------------------------ the stores

  /** The offset of a store: the 32-bit row offset moves the pointer, and then the column does. */
  function StoreIndex(segment: nat, features: nat, column: nat): int {
    Wrap32(segment * features) + column
  }

  ghost predicate StoresInBounds(segments: nat, features: nat) {
    forall segment: nat, column: nat :: segment < segments && column < features ==>
      0 <= StoreIndex(segment, features, column) < segments * features
  }

  /** The row offset of the last segment is an i32. */
  predicate RowOffsetsFit(segments: nat, features: nat) {
    (segments - 1) * features <= I32_MAX
  }

  lemma RowOffsetFits(segments: nat, features: nat, segment: nat)
    requires segment < segments && RowOffsetsFit(segments, features)
    ensures 0 <= segment * features <= I32_MAX
  {
    MultiplyLessEqual(segment, segments - 1, features);
  }

  /** The first row offset past i32 is negative after it wraps. */
  lemma RowPastI32(segments: nat, features: nat) returns (segment: nat)
    requires 0 < features <= I32_MAX && !RowOffsetsFit(segments, features) && segments > 0
    ensures segment < segments && StoreIndex(segment, features, 0) < 0
  {
    segment := I32_MAX / features + 1;
    assert I32_MAX == features * (segment - 1) + I32_MAX % features;
    assert segment * features == I32_MAX - I32_MAX % features + features;
    SmallerFactor(segment - 1, segments - 1, features);
  }

  lemma SmallerFactor(x: nat, y: nat, f: nat)
    requires x * f < y * f
    ensures x < y
  {
    if y <= x { MultiplyLessEqual(y, x, f); }
  }

  /** Every store stays inside the output exactly when the row offset of the last segment is an i32. */
  lemma StoresInBoundsIff(segments: nat, features: nat)
    requires 0 < segments && 0 < features <= I32_MAX
    ensures StoresInBounds(segments, features) <==> RowOffsetsFit(segments, features)
  {
    if RowOffsetsFit(segments, features) {
      forall segment: nat, column: nat | segment < segments && column < features
        ensures 0 <= StoreIndex(segment, features, column) < segments * features
      {
        StoreIndexFits(segments, features, segment, column);
      }
    } else {
      var segment := RowPastI32(segments, features);
      assert !(0 <= StoreIndex(segment, features, 0));
    }
  }

  /** An output of 2^31 cells in rows of two columns is in bounds, and one more row is not. */
  lemma StoresAtTheLimit()
    ensures StoresInBounds(0x4000_0000, 2) && !StoresInBounds(0x4000_0001, 2)
    ensures StoresInBounds(715827883, 3) && 715827883 * 3 > 0x8000_0000
  {
    StoresInBoundsIff(0x4000_0000, 2);
    StoresInBoundsIff(0x4000_0001, 2);
    StoresInBoundsIff(715827883, 3);
  }

  /** The column lanes of a program never wrap, because the block divides 2^31. */
  lemma ColumnLanesFit(features: nat, block: nat, blocks: nat, k: nat)
    requires 1 <= features <= I32_MAX && 2 <= k <= 6 && block == Pow2(k)
    requires (blocks - 1) * block < features <= blocks * block
    ensures blocks * block <= 0x8000_0000
  {
    assert Pow2(2) == 4 && Pow2(3) == 8 && Pow2(4) == 16 && Pow2(5) == 32 && Pow2(6) == 64 by { assert Pow2(1) == 2; }
    assert block == 4 || block == 8 || block == 16 || block == 32 || block == 64;
    assert block == 4 ==> blocks <= 0x2000_0000;
    assert block == 8 ==> blocks <= 0x1000_0000;
    assert block == 16 ==> blocks <= 0x800_0000;
    assert block == 32 ==> blocks <= 0x400_0000;
    assert block == 64 ==> blocks <= 0x200_0000;
  }

  /** The segment and the column of an output cell. */
  lemma CellCoordinates(segment: nat, features: nat, column: nat)
    requires column < features
    ensures (segment * features + column) / features == segment && (segment * features + column) % features == column
  {
    QuotientUnique(segment * features + column, features, segment, column);
  }

  lemma CellOfOutput(i: nat, segments: nat, features: nat)
    requires i < segments * features
    ensures features > 0 && i / features < segments && i == (i / features) * features + i % features
  {
    if i / features >= segments {
      MultiplyLessEqual(segments, i / features, features);
    }
  }

  /** The program that stores an output cell: its segment and its block of columns. */
  function OwnerOf(i: nat, features: nat, block: nat): (nat, nat)
    requires features > 0 && block > 0
  {
    (i / features, (i % features) / block)
  }

  function Owners(segments: nat, features: nat, block: nat): (owner: seq<(nat, nat)>)
    requires features > 0 && block > 0
  {
    seq(segments * features, i requires 0 <= i < segments * features => OwnerOf(i, features, block))
  }

  /** How many rows a segment has. */
  function Rows(offsets: seq<i32>, segment: nat): int
    requires segment + 1 < |offsets|
  {
    offsets[segment + 1] as int - offsets[segment] as int
  }

  /** What a cell is to hold: the reduction of its column over its segment, and `last` of it and the row count. */
  function WantedCell<T(!new), U>(m: Monoid<T>, last: (T, int) -> U, values: seq<T>, offsets: seq<i32>, features: nat,
                                  i: nat): U
    requires Layout(values, offsets, features) && i < (|offsets| - 1) * features
  {
    CellOfOutput(i, |offsets| - 1, features);
    last(CellTotal(m, values, offsets, features, i / features, i % features), Rows(offsets, i / features))
  }

  function Wanted<T(!new), U>(m: Monoid<T>, last: (T, int) -> U, values: seq<T>, offsets: seq<i32>,
                              features: nat): seq<U>
    requires Layout(values, offsets, features)
  {
    seq((|offsets| - 1) * features, i requires 0 <= i < (|offsets| - 1) * features =>
      WantedCell(m, last, values, offsets, features, i))
  }

  /** The cell of the output at which column `column` of `segment` is stored, and what it wants and who owns it. */
  lemma CellFacts<T(!new), U>(m: Monoid<T>, last: (T, int) -> U, values: seq<T>, offsets: seq<i32>, features: nat,
                              block: nat, segment: nat, column: nat)
    requires Layout(values, offsets, features) && segment + 1 < |offsets| && column < features && block > 0
    ensures var i := segment * features + column;
            && 0 <= i < (|offsets| - 1) * features
            && Wanted(m, last, values, offsets, features)[i]
               == last(CellTotal(m, values, offsets, features, segment, column), Rows(offsets, segment))
            && Owners(|offsets| - 1, features, block)[i] == (segment, column / block)
  {
    CellInBounds(|offsets| - 1, features, segment, column);
    CellCoordinates(segment, features, column);
    hide CellTotal;
  }

  /** The cells of a program before lane `c`: its segment, and the first `c` columns of its block. */
  predicate BeforeLane(i: nat, features: nat, segment: nat, first: nat, c: nat)
    requires features > 0
  {
    i / features == segment && first <= i % features < first + c
  }

  lemma NextLane(i: nat, features: nat, segment: nat, first: nat, c: nat)
    requires features > 0
    ensures BeforeLane(i, features, segment, first, c + 1)
        <==> (BeforeLane(i, features, segment, first, c)
              || (first + c < features && i == segment * features + (first + c)))
  {
    assert i == features * (i / features) + i % features;
    if first + c < features {
      CellCoordinates(segment, features, first + c);
    }
  }

  lemma LanesOfProgram(i: nat, features: nat, block: nat, segment: nat, columnBlock: nat)
    requires features > 0 && block > 0
    ensures !BeforeLane(i, features, segment, columnBlock * block, 0)
    ensures BeforeLane(i, features, segment, columnBlock * block, block)
       <==> OwnerOf(i, features, block) == (segment, columnBlock)
  {
    var column := i % features;
    assert column == block * (column / block) + column % block;
    if column / block > columnBlock { MultiplyLessEqual(columnBlock + 1, column / block, block); }
    if column / block < columnBlock { MultiplyLessEqual(column / block + 1, columnBlock, block); }
  }

  /** The cells of other programs that ran, and the first `c` columns of this one, are stored. */
  ghost predicate StoredBefore<T>(out: Buffer<T>, want: seq<T>, owner: seq<(nat, nat)>, done: set<(nat, nat)>,
                                  features: nat, segment: nat, first: nat, c: nat)
    requires features > 0
    reads out, out.cells
  {
    && |want| == |owner| == |out.stores| == out.cells.Length
    && forall i :: 0 <= i < |owner| ==>
         if owner[i] in done || BeforeLane(i, features, segment, first, c)
         then out.cells[i] == want[i] && out.stores[i] == 1 else out.stores[i] == 0
  }

  /** The masked store of a program, column by column. */
  method StoreColumns<T(!new), U>(m: Monoid<T>, last: (T, int) -> U, values: seq<T>, offsets: seq<i32>, features: nat,
                                  out: Buffer<U>, blockColumns: nat, segment: nat, columnBlock: nat, results: seq<U>,
                                  ghost done: set<(nat, nat)>)
    requires Layout(values, offsets, features) && features > 0 && segment + 1 < |offsets| && blockColumns > 0
    requires RowOffsetsFit(|offsets| - 1, features) && |results| == blockColumns
    requires forall c :: 0 <= c < blockColumns && columnBlock * blockColumns + c < features ==>
               var total := CellTotal(m, values, offsets, features, segment, columnBlock * blockColumns + c);
               results[c] == last(total, Rows(offsets, segment))
    requires (segment, columnBlock) !in done
    requires StoredBefore(out, Wanted(m, last, values, offsets, features),
                          Owners(|offsets| - 1, features, blockColumns), done,
                          features, segment, columnBlock * blockColumns, 0)
    modifies out, out.cells
    ensures StoredBefore(out, Wanted(m, last, values, offsets, features),
                         Owners(|offsets| - 1, features, blockColumns), done,
                         features, segment, columnBlock * blockColumns, blockColumns)
  {
    var first := columnBlock * blockColumns;
    ghost var want, owner := Wanted(m, last, values, offsets, features), Owners(|offsets| - 1, features, blockColumns);
    hide Wanted, Owners, OwnerOf, CellTotal, Rows, BeforeLane, Wrap32;
    for c := 0 to blockColumns
      invariant StoredBefore(out, want, owner, done, features, segment, first, c)
    {
      forall i: nat | i < |owner| {
        NextLane(i, features, segment, first, c);
      }
      if first + c < features {
        CellFacts(m, last, values, offsets, features, blockColumns, segment, first + c);
        StoreIndexFits(|offsets| - 1, features, segment, first + c);
        var index := StoreIndex(segment, features, first + c);
        NotStored(features, blockColumns, segment, columnBlock, c);
        out.Store(index, results[c]);
      }
    }
  }

  /** One program: the rows of one segment in one block of columns, and one masked store. */
  method RowsProgram<T(!new), U>(m: Monoid<T>, last: (T, int) -> U, values: seq<T>, offsets: seq<i32>, features: nat,
                                 out: Buffer<U>, blockRows: nat, blockColumns: nat, segment: nat, columnBlock: nat,
                                 ghost done: set<(nat, nat)>)
    requires Commutative(m) && Layout(values, offsets, features) && features > 0 && segment + 1 < |offsets|
    requires blockRows > 0 && blockColumns > 0 && RowOffsetsFit(|offsets| - 1, features)
    requires out.Launched(Wanted(m, last, values, offsets, features),
                          Owners(|offsets| - 1, features, blockColumns), done)
    requires (segment, columnBlock) !in done
    modifies out, out.cells
    ensures out.Launched(Wanted(m, last, values, offsets, features), Owners(|offsets| - 1, features, blockColumns),
                         done + {(segment, columnBlock)})
  {
    assert offsets[0] <= offsets[segment] <= offsets[segment + 1] <= offsets[|offsets| - 1];
    var begin, end := offsets[segment], offsets[segment + 1];
    var first := columnBlock * blockColumns;
    var total := BlockTotals(m, values, offsets[|offsets| - 1], features, begin, end, blockRows, blockColumns, first);
    var results := seq(blockColumns, c requires 0 <= c < blockColumns => last(Fold(m, total[c]), end - begin));
    ghost var owner := Owners(|offsets| - 1, features, blockColumns);
    assert forall i :: 0 <= i < |owner| ==> owner[i] == OwnerOf(i, features, blockColumns);
    assert forall c :: 0 <= c < blockColumns && first + c < features ==>
      results[c] == last(CellTotal(m, values, offsets, features, segment, first + c), Rows(offsets, segment));
    hide Commutative, Wanted, Owners, OwnerOf, CellTotal, BeforeLane, Accumulated, Fold, Rows, Wrap32;
    forall i: nat | i < |owner| {
      LanesOfProgram(i, features, blockColumns, segment, columnBlock);
    }
    StoreColumns(m, last, values, offsets, features, out, blockColumns, segment, columnBlock, results, done);
  }

  lemma StoreIndexFits(segments: nat, features: nat, segment: nat, column: nat)
    requires RowOffsetsFit(segments, features) && segment < segments && column < features
    ensures StoreIndex(segment, features, column) == segment * features + column
    ensures 0 <= segment * features + column < segments * features
  {
    RowOffsetFits(segments, features, segment);
    CellInBounds(segments, features, segment, column);
  }

  /** A lane stores a cell that its program owns and has not stored yet. */
  lemma NotStored(features: nat, block: nat, segment: nat, columnBlock: nat, c: nat)
    requires features > 0 && c < block && columnBlock * block + c < features
    ensures var i := segment * features + (columnBlock * block + c);
            && OwnerOf(i, features, block) == (segment, columnBlock)
            && !BeforeLane(i, features, segment, columnBlock * block, c)
  {
    CellCoordinates(segment, features, columnBlock * block + c);
    QuotientUnique(columnBlock * block + c, block, columnBlock, c);
  }

  /** Every program of the grid, once, in any order. */
  ghost predicate AnyGridOrder(order: seq<(nat, nat)>, segments: nat, blocks: nat) {
    Distinct(order) && forall p :: p in order <==> p.0 < segments && p.1 < blocks
  }

  /** Every cell of the output has its program in the grid. */
  lemma OwnerInGrid(i: nat, segments: nat, features: nat, block: nat, blocks: nat)
    requires i < segments * features && block > 0 && features <= blocks * block
    ensures features > 0 && var p := OwnerOf(i, features, block); p.0 < segments && p.1 < blocks
  {
    CellOfOutput(i, segments, features);
    var column := i % features;
    assert column == block * (column / block) + column % block;
    if column / block >= blocks { MultiplyLessEqual(blocks, column / block, block); }
  }

  /** The rows of a segment in the column of an output cell. */
  function CellRows<T>(values: seq<T>, offsets: seq<i32>, features: nat, i: nat): (xs: seq<T>)
    requires Layout(values, offsets, features) && i < (|offsets| - 1) * features
    ensures i / features + 1 < |offsets| && |xs| == Rows(offsets, i / features)
  {
    CellOfOutput(i, |offsets| - 1, features);
    var s := i / features;
    assert offsets[0] <= offsets[s] <= offsets[s + 1] <= offsets[|offsets| - 1];
    Column(values, offsets[|offsets| - 1], features, i % features)[offsets[s]..offsets[s + 1]]
  }

  /** Row `r` of a cell is the value at that row of its segment, in the column of the cell. */
  lemma CellRowsAt<T>(values: seq<T>, offsets: seq<i32>, features: nat, i: nat, r: nat)
    requires Layout(values, offsets, features) && i < (|offsets| - 1) * features
    requires r < |CellRows(values, offsets, features, i)|
    ensures features > 0 && i / features + 1 < |offsets| && 0 <= r < offsets[i / features + 1] - offsets[i / features]
    ensures var at := (offsets[i / features] + r) * features + i % features;
            0 <= at < |values| && CellRows(values, offsets, features, i)[r] == values[at]
  {
    CellOfOutput(i, |offsets| - 1, features);
    var s, rows := i / features, offsets[|offsets| - 1];
    assert offsets[0] <= offsets[s] <= offsets[s + 1] <= rows;
    ColumnSlice(values, rows, features, i % features, offsets[s], offsets[s + 1]);
    hide Layout, Column;
    assert IsValueAt(values, (offsets[s] + r) * features + i % features, CellRows(values, offsets, features, i)[r]);
  }

  lemma WantedIsFold<T(!new), U>(m: Monoid<T>, last: (T, int) -> U, values: seq<T>, offsets: seq<i32>, features: nat,
                                 i: nat)
    requires Layout(values, offsets, features) && i < (|offsets| - 1) * features
    ensures var xs := CellRows(values, offsets, features, i);
            WantedCell(m, last, values, offsets, features, i) == last(Fold(m, xs), |xs|)
  {
    hide Fold;
  }

  /** What a launch needs: a grid whose blocks cover the columns, and a fresh output of every cell. */
  ghost predicate Launchable<T, U>(values: seq<T>, offsets: seq<i32>, features: nat, out: Buffer<U>, blockRows: nat,
                                   block: nat, blocks: nat, order: seq<(nat, nat)>)
    reads out
  {
    && Layout(values, offsets, features) && features > 0
    && blockRows > 0 && block > 0 && features <= blocks * block && RowOffsetsFit(|offsets| - 1, features)
    && AnyGridOrder(order, |offsets| - 1, blocks)
    && out.cells.Length == |out.stores| == (|offsets| - 1) * features
    && forall i :: 0 <= i < |out.stores| ==> out.stores[i] == 0
  }

  /** Every cell of the output is stored once, with what it is to hold. */
  ghost predicate Reduced<T(!new), U>(m: Monoid<T>, last: (T, int) -> U, values: seq<T>, offsets: seq<i32>,
                                      features: nat, out: Buffer<U>)
    requires Layout(values, offsets, features)
    reads out, out.cells
  {
    && out.cells.Length == |out.stores| == (|offsets| - 1) * features
    && forall i: nat :: i < (|offsets| - 1) * features ==>
         out.cells[i] == WantedCell(m, last, values, offsets, features, i) && out.stores[i] == 1
  }

  /** All programs in any order reduce every column of every segment; an empty segment leaves the identity. */
  method LaunchRows<T(!new), U>(m: Monoid<T>, last: (T, int) -> U, values: seq<T>, offsets: seq<i32>, features: nat,
                                out: Buffer<U>, blockRows: nat, block: nat, blocks: nat, order: seq<(nat, nat)>)
    requires Commutative(m) && Launchable(values, offsets, features, out, blockRows, block, blocks, order)
    modifies out, out.cells
    ensures Reduced(m, last, values, offsets, features, out)
    ensures forall i: nat :: i < (|offsets| - 1) * features && CellRows(values, offsets, features, i) == [] ==>
              out.cells[i] == last(m.id, 0)
  {
    ghost var segments := |offsets| - 1;
    forall i: nat | i < segments * features {
      WantedIsFold(m, last, values, offsets, features, i);
    }
    ghost var want, owner := Wanted(m, last, values, offsets, features), Owners(segments, features, block);
    assert forall i :: 0 <= i < |want| ==> want[i] == WantedCell(m, last, values, offsets, features, i);
    forall i: nat | i < |owner| ensures owner[i] in Ran(order, |order|) {
      OwnerInGrid(i, segments, features, block, blocks);
      assert owner[i] in order && order[..|order|] == order;
    }
    assert |want| == |owner| == segments * features;
    hide Commutative, WantedCell, Wanted, CellRows, Owners, OwnerOf, Layout;
    for k := 0 to |order|
      invariant out.Launched(want, owner, Ran(order, k))
    {
      RanNext(order, k);
      assert order[k] in order;
      RowsProgram(m, last, values, offsets, features, out, blockRows, block, order[k].0, order[k].1, Ran(order, k));
    }
  }

  // ------------------------------------------------------------- the kinds

  /** Values with the infinities that a masked load of a maximum or a minimum reads. */
  datatype Extended = NegativeInfinity | Finite(v: real) | PositiveInfinity

  /** What the division of a mean gives: nothing is no number. */
  datatype Quotient = NaN | Number(v: real)

  predicate Leq(a: Extended, b: Extended) {
    a.NegativeInfinity? || b.PositiveInfinity? || (a.Finite? && b.Finite? && a.v <= b.v)
  }

  /** The reduction of each kind code: sum and mean, maximum, and minimum. */
  function SumKind(): Monoid<real> {
    Monoid((a, b) => a + b, 0.0)
  }

  function MaxKind(): Monoid<Extended> {
    Monoid((a, b) => if Leq(a, b) then b else a, NegativeInfinity)
  }

  function MinKind(): Monoid<Extended> {
    Monoid((a, b) => if Leq(a, b) then a else b, PositiveInfinity)
  }

  lemma KindsAreCommutative()
    ensures Commutative(SumKind()) && Commutative(MaxKind()) && Commutative(MinKind())
  {
  }

  /** Only a mean does more after the reduction: it divides once. */
  function Same<T>(): (T, int) -> T {
    (total, count) => total
  }

  function Divided(): (real, int) -> Quotient {
    (total: real, count: int) => if count == 0 then NaN else Number(total / count as real)
  }

  /** Bounds every row and is one of them, or is minus infinity for none. */
  ghost predicate IsMaximum(cell: Extended, xs: seq<Extended>) {
    (forall r :: 0 <= r < |xs| ==> Leq(xs[r], cell)) && if xs == [] then cell == NegativeInfinity else cell in xs
  }

  ghost predicate IsMinimum(cell: Extended, xs: seq<Extended>) {
    (forall r :: 0 <= r < |xs| ==> Leq(cell, xs[r])) && if xs == [] then cell == PositiveInfinity else cell in xs
  }

  /** The sum of the rows over their number, and no number for none. */
  ghost predicate IsMean(cell: Quotient, xs: seq<real>) {
    if xs == [] then cell == NaN else cell == Number(SumError.Mean(SumError.Sum(xs), |xs|))
  }

  lemma {:induction false} MaximumIsReached(xs: seq<Extended>)
    ensures IsMaximum(Fold(MaxKind(), xs), xs)
  {
    if xs != [] {
      MaximumIsReached(xs[1..]);
      assert Leq(NegativeInfinity, xs[0]);
    }
  }

  lemma {:induction false} MinimumIsReached(xs: seq<Extended>)
    ensures IsMinimum(Fold(MinKind(), xs), xs)
  {
    if xs != [] {
      MinimumIsReached(xs[1..]);
      assert Leq(xs[0], PositiveInfinity);
    }
  }

  lemma {:induction false} FoldIsSum(xs: seq<real>)
    ensures Fold(SumKind(), xs) == SumError.Sum(xs)
  {
    if xs != [] { FoldIsSum(xs[1..]); }
  }

  /** The sum kind leaves the sum of the rows in every cell. */
  method LaunchSum(values: seq<real>, offsets: seq<i32>, features: nat, out: Buffer<real>, blockRows: nat, block: nat,
                   blocks: nat, order: seq<(nat, nat)>)
    requires Launchable(values, offsets, features, out, blockRows, block, blocks, order)
    modifies out, out.cells
    ensures out.cells.Length == |out.stores| == (|offsets| - 1) * features
    ensures forall i: nat :: i < out.cells.Length ==>
              out.stores[i] == 1 && out.cells[i] == SumError.Sum(CellRows(values, offsets, features, i))
  {
    KindsAreCommutative();
    LaunchRows(SumKind(), Same(), values, offsets, features, out, blockRows, block, blocks, order);
    forall i: nat | i < out.cells.Length ensures out.cells[i] == SumError.Sum(CellRows(values, offsets, features, i)) {
      WantedIsFold(SumKind(), Same<real>(), values, offsets, features, i);
      FoldIsSum(CellRows(values, offsets, features, i));
    }
  }

  /** The maximum kind leaves in every cell a row that bounds them all. */
  method LaunchMaximum(values: seq<Extended>, offsets: seq<i32>, features: nat, out: Buffer<Extended>, blockRows: nat,
                       block: nat, blocks: nat, order: seq<(nat, nat)>)
    requires Launchable(values, offsets, features, out, blockRows, block, blocks, order)
    modifies out, out.cells
    ensures out.cells.Length == |out.stores| == (|offsets| - 1) * features
    ensures forall i: nat :: i < out.cells.Length ==>
              out.stores[i] == 1 && IsMaximum(out.cells[i], CellRows(values, offsets, features, i))
  {
    KindsAreCommutative();
    LaunchRows(MaxKind(), Same(), values, offsets, features, out, blockRows, block, blocks, order);
    forall i: nat | i < out.cells.Length ensures IsMaximum(out.cells[i], CellRows(values, offsets, features, i)) {
      WantedIsFold(MaxKind(), Same<Extended>(), values, offsets, features, i);
      MaximumIsReached(CellRows(values, offsets, features, i));
    }
  }

  /** The minimum kind leaves in every cell a row that all of them bound. */
  method LaunchMinimum(values: seq<Extended>, offsets: seq<i32>, features: nat, out: Buffer<Extended>, blockRows: nat,
                       block: nat, blocks: nat, order: seq<(nat, nat)>)
    requires Launchable(values, offsets, features, out, blockRows, block, blocks, order)
    modifies out, out.cells
    ensures out.cells.Length == |out.stores| == (|offsets| - 1) * features
    ensures forall i: nat :: i < out.cells.Length ==>
              out.stores[i] == 1 && IsMinimum(out.cells[i], CellRows(values, offsets, features, i))
  {
    KindsAreCommutative();
    LaunchRows(MinKind(), Same(), values, offsets, features, out, blockRows, block, blocks, order);
    forall i: nat | i < out.cells.Length ensures IsMinimum(out.cells[i], CellRows(values, offsets, features, i)) {
      WantedIsFold(MinKind(), Same<Extended>(), values, offsets, features, i);
      MinimumIsReached(CellRows(values, offsets, features, i));
    }
  }

  /** The mean kind divides the sum once. */
  method LaunchMean(values: seq<real>, offsets: seq<i32>, features: nat, out: Buffer<Quotient>, blockRows: nat,
                    block: nat, blocks: nat, order: seq<(nat, nat)>)
    requires Launchable(values, offsets, features, out, blockRows, block, blocks, order)
    modifies out, out.cells
    ensures out.cells.Length == |out.stores| == (|offsets| - 1) * features
    ensures forall i: nat :: i < out.cells.Length ==>
              out.stores[i] == 1 && IsMean(out.cells[i], CellRows(values, offsets, features, i))
  {
    KindsAreCommutative();
    LaunchRows(SumKind(), Divided(), values, offsets, features, out, blockRows, block, blocks, order);
    forall i: nat | i < out.cells.Length ensures IsMean(out.cells[i], CellRows(values, offsets, features, i)) {
      WantedIsFold(SumKind(), Divided(), values, offsets, features, i);
      FoldIsSum(CellRows(values, offsets, features, i));
    }
  }
}
