/**
 The padded matrix: every segment is one row, as wide as the longest segment. The
 indices are 32-bit; the mask is taken before the indices are clamped in place.
 */
module PaddedInputs {
  import opened Int32
  import opened Integers
  import opened Wrappers
  import opened Monoids
  import opened SegmentTiles
  import opened TritonKernels

  /** The longest length, or zero when there is none. */
  function Longest(lengths: seq<int>): (width: int)
    ensures lengths == [] ==> width == 0
    ensures forall s :: 0 <= s < |lengths| ==> lengths[s] <= width
    ensures lengths != [] ==> exists s :: 0 <= s < |lengths| && lengths[s] == width
  {
    if lengths == [] then 0
    else if |lengths| == 1 then lengths[0]
    else
      var rest := Longest(lengths[..|lengths| - 1]);
      if lengths[|lengths| - 1] > rest then lengths[|lengths| - 1] else rest
  }

  /** The last index of the last row is an i32. */
  predicate PaddingFits(offsets: seq<i32>)
    requires 0 < |offsets|
  {
    |offsets| == 1 || offsets[|offsets| - 2] + Longest(Lengths(offsets)) - 1 <= I32_MAX
  }

  /** The index of a cell after the clamp. */
  function Clamped(count: nat, begin: int, j: int): int {
    Min(Lane(begin, j), if count > 0 then count - 1 else 0)
  }

  /** A tensor takes an index from the end when it is negative. */
  predicate Gatherable(count: nat, i: int) {
    0 - count <= i < count
  }

  function Gather<T>(values: seq<T>, i: int): T
    requires Gatherable(|values|, i)
  {
    values[if i < 0 then i + |values| else i]
  }

  ghost predicate IsCell(offsets: seq<i32>, s: int, j: int)
    requires 0 < |offsets|
  {
    0 <= s < |offsets| - 1 && 0 <= j < Longest(Lengths(offsets))
  }

  lemma WidthInLayout<T>(values: seq<T>, offsets: seq<i32>)
    requires Layout(values, offsets)
    ensures 0 <= Longest(Lengths(offsets)) <= |values| <= I32_MAX
  {
    var lengths := Lengths(offsets);
    if lengths != [] {
      var s :| 0 <= s < |lengths| && lengths[s] == Longest(lengths);
      SegmentInValues(values, offsets, s);
    }
  }

  /** Rows end where they should exactly when no index wraps. */
  lemma CellFits<T>(values: seq<T>, offsets: seq<i32>, s: nat, j: nat)
    requires Layout(values, offsets) && PaddingFits(offsets) && IsCell(offsets, s, j)
    ensures Lane(offsets[s], j) == offsets[s] + j
    ensures Lane(offsets[s], j) < offsets[s + 1] <==> j < Lengths(offsets)[s]
    ensures 0 <= Clamped(|values|, offsets[s], j) < |values|
    ensures j < Lengths(offsets)[s] ==> Clamped(|values|, offsets[s], j) == offsets[s] + j
  {
    WidthInLayout(values, offsets);
    SegmentInValues(values, offsets, s);
    assert offsets[s] <= offsets[|offsets| - 2];
  }

  /** A wrapped index: negative, so the clamp leaves it, and masked in. */
  lemma CellWraps<T>(values: seq<T>, offsets: seq<i32>) returns (s: nat, j: nat)
    requires Layout(values, offsets) && !PaddingFits(offsets)
    ensures IsCell(offsets, s, j) && Lengths(offsets)[s] <= j
    ensures Clamped(|values|, offsets[s], j) == Lane(offsets[s], j) < 0 <= offsets[s + 1]
  {
    s, j := |offsets| - 2, Longest(Lengths(offsets)) - 1;
    WidthInLayout(values, offsets);
    SegmentInValues(values, offsets, s);
    assert Lengths(offsets)[s] == offsets[s + 1] - offsets[s];
  }

  /** Every gathered index is inside the values exactly when the last index is an i32. */
  lemma GatherInBoundsIff<T>(values: seq<T>, offsets: seq<i32>)
    requires Layout(values, offsets)
    ensures (forall s, j :: IsCell(offsets, s, j) ==> 0 <= Clamped(|values|, offsets[s], j) < |values|)
       <==> PaddingFits(offsets)
  {
    if PaddingFits(offsets) {
      forall s, j | IsCell(offsets, s, j) ensures 0 <= Clamped(|values|, offsets[s], j) < |values| {
        CellFits(values, offsets, s, j);
      }
    } else {
      var s, j := CellWraps(values, offsets);
      assert IsCell(offsets, s, j);
    }
  }

  /** The mask keeps exactly the cells of the segment, under the same condition. */
  lemma MaskIsSegmentIff<T>(values: seq<T>, offsets: seq<i32>)
    requires Layout(values, offsets)
    ensures (forall s, j :: IsCell(offsets, s, j) ==>
               (Lane(offsets[s], j) < offsets[s + 1] <==> j < Lengths(offsets)[s])) <==> PaddingFits(offsets)
  {
    if PaddingFits(offsets) {
      forall s, j | IsCell(offsets, s, j) ensures Lane(offsets[s], j) < offsets[s + 1] <==> j < Lengths(offsets)[s] {
        CellFits(values, offsets, s, j);
      }
    } else {
      var s, j := CellWraps(values, offsets);
      assert IsCell(offsets, s, j);
    }
  }

  /** A matrix and its mask hold the segments, padded with the identity. */
  ghost predicate Pads<T(!new)>(m: Monoid<T>, values: seq<T>, offsets: seq<i32>, padded: array2<T>, mask: array2<bool>)
    requires Layout(values, offsets)
    reads padded, mask
  {
    var lengths := Lengths(offsets);
    && padded.Length0 == mask.Length0 == |lengths| && padded.Length1 == mask.Length1 == Longest(lengths)
    && forall s, j :: 0 <= s < padded.Length0 && 0 <= j < padded.Length1 ==>
         && mask[s, j] == (j < lengths[s])
         && padded[s, j] == PaddedCell(m, values, offsets, s, j)
  }

  ghost function PaddedCell<T(!new)>(m: Monoid<T>, values: seq<T>, offsets: seq<i32>, s: nat, j: nat): T
    requires Layout(values, offsets) && s + 1 < |offsets|
  {
    SegmentInValues(values, offsets, s);
    if j < Lengths(offsets)[s] then values[offsets[s] + j] else m.id
  }

  /** What the gather and the selection leave in a cell. */
  function GatheredCell<T(!new)>(m: Monoid<T>, values: seq<T>, offsets: seq<i32>, s: nat, j: nat): T
    requires s + 1 < |offsets| && Gatherable(|values|, Clamped(|values|, offsets[s], j))
  {
    if Lane(offsets[s], j) < offsets[s + 1] then Gather(values, Clamped(|values|, offsets[s], j)) else m.id
  }

  lemma GatheredIsPadded<T(!new)>(m: Monoid<T>, values: seq<T>, offsets: seq<i32>, s: nat, j: nat)
    requires Layout(values, offsets) && PaddingFits(offsets) && IsCell(offsets, s, j)
    ensures Gatherable(|values|, Clamped(|values|, offsets[s], j))
    ensures GatheredCell(m, values, offsets, s, j) == PaddedCell(m, values, offsets, s, j)
  {
    CellFits(values, offsets, s, j);
  }

  /** The mask, taken before the clamp, and the clamped indices. */
  method MaskAndIndices<T>(values: seq<T>, offsets: seq<i32>) returns (mask: array2<bool>, index: array2<int>)
    requires Layout(values, offsets)
    ensures mask.Length0 == index.Length0 == |offsets| - 1
    ensures mask.Length1 == index.Length1 == Longest(Lengths(offsets))
    ensures forall s, j :: 0 <= s < mask.Length0 && 0 <= j < mask.Length1 ==>
              mask[s, j] == (Lane(offsets[s], j) < offsets[s + 1]) && index[s, j] == Clamped(|values|, offsets[s], j)
  {
    WidthInLayout(values, offsets);
    var rows, width := |Lengths(offsets)|, Longest(Lengths(offsets));
    hide Lane, Longest;
    index := new int[rows, width]((s: nat, j: nat) requires s < rows => Lane(offsets[s], j));
    mask := new bool[rows, width];
    forall s, j | 0 <= s < rows && 0 <= j < width {
      mask[s, j] := index[s, j] < offsets[s + 1];
    }
    forall s, j | 0 <= s < rows && 0 <= j < width {
      index[s, j] := Min(index[s, j], if |values| > 0 then |values| - 1 else 0);
    }
  }

  /** The gather, which refuses an index no tensor takes, and the selection under the mask. */
  method GatherMasked<T(!new)>(m: Monoid<T>, values: seq<T>, mask: array2<bool>, index: array2<int>)
    returns (r: Option<array2<T>>)
    requires mask.Length0 == index.Length0 && mask.Length1 == index.Length1
    ensures r.None?
       <==> exists s, j :: 0 <= s < index.Length0 && 0 <= j < index.Length1 && !Gatherable(|values|, index[s, j])
    ensures r.Some? ==> r.value.Length0 == mask.Length0 && r.value.Length1 == mask.Length1
    ensures r.Some? ==> forall s, j :: 0 <= s < mask.Length0 && 0 <= j < mask.Length1 ==>
              r.value[s, j] == if mask[s, j] then Gather(values, index[s, j]) else m.id
  {
    var rows, width := index.Length0, index.Length1;
    if exists s, j :: 0 <= s < rows && 0 <= j < width && !Gatherable(|values|, index[s, j]) {
      return None;
    }
    hide Gather, Gatherable;
    var padded := new T[rows, width]((s: nat, j: nat) => m.id);
    forall s, j | 0 <= s < rows && 0 <= j < width {
      padded[s, j] := if mask[s, j] then Gather(values, index[s, j]) else m.id;
    }
    return Some(padded);
  }

  /** None stands for the index error of the gather. */
  method PaddedInputs<T(!new)>(m: Monoid<T>, values: seq<T>, offsets: seq<i32>)
    returns (r: Option<(array2<T>, array2<bool>)>)
    requires Layout(values, offsets)
    ensures r.None? <==> exists s, j ::
              IsCell(offsets, s, j) && !(0 - |values| <= Clamped(|values|, offsets[s], j) < |values|)
    ensures PaddingFits(offsets) ==> r.Some? && Pads(m, values, offsets, r.value.0, r.value.1)
  {
    hide PaddingFits, Longest, Clamped, Lane, Layout;
    var mask, index := MaskAndIndices(values, offsets);
    var padded := GatherMasked(m, values, mask, index);
    if padded.None? {
      var s, j :| 0 <= s < index.Length0 && 0 <= j < index.Length1 && !Gatherable(|values|, index[s, j]);
      assert IsCell(offsets, s, j);
      if PaddingFits(offsets) { CellFits(values, offsets, s, j); }
      return None;
    }
    assert forall s, j :: IsCell(offsets, s, j) ==> Gatherable(|values|, index[s, j]);
    if PaddingFits(offsets) {
      forall s, j | 0 <= s < mask.Length0 && 0 <= j < mask.Length1
        ensures mask[s, j] == (j < Lengths(offsets)[s]) && padded.value[s, j] == PaddedCell(m, values, offsets, s, j)
      {
        assert IsCell(offsets, s, j);
        CellFits(values, offsets, s, j);
        GatheredIsPadded(m, values, offsets, s, j);
      }
    }
    return Some((padded.value, mask));
  }

  /** One row under its mask. */
  function Row<T(!new)>(m: Monoid<T>, padded: array2<T>, mask: array2<bool>, s: nat): (row: seq<T>)
    requires padded.Length0 == mask.Length0 && padded.Length1 == mask.Length1 && s < padded.Length0
    reads padded, mask
  {
    seq(padded.Length1, j requires 0 <= j < padded.Length1 reads padded, mask =>
      if mask[s, j] then padded[s, j] else m.id)
  }

  function PaddedSum<T(!new)>(m: Monoid<T>, padded: array2<T>, mask: array2<bool>): (sums: seq<T>)
    requires padded.Length0 == mask.Length0 && padded.Length1 == mask.Length1
    reads padded, mask
  {
    seq(padded.Length0, s requires 0 <= s < padded.Length0 reads padded, mask => Fold(m, Row(m, padded, mask, s)))
  }

  lemma RowIsSegment<T(!new)>(m: Monoid<T>, values: seq<T>, offsets: seq<i32>, padded: array2<T>, mask: array2<bool>,
                              s: nat)
    requires Lawful(m) && Layout(values, offsets) && Pads(m, values, offsets, padded, mask) && s + 1 < |offsets|
    ensures Fold(m, Row(m, padded, mask, s)) == SegmentTotal(m, values, offsets, s)
  {
    hide Lawful;
    SegmentInValues(values, offsets, s);
    var data, padding := values[offsets[s]..offsets[s + 1]], Fill(m, padded.Length1 - Lengths(offsets)[s]);
    assert Row(m, padded, mask, s) == data + padding;
    FoldConcat(m, data, padding);
    FoldOfFill(m, |padding|);
    Identity(m, Fold(m, data));
  }

  /** The padded schedule reduces every segment. */
  lemma PaddedSumIsWanted<T(!new)>(m: Monoid<T>, values: seq<T>, offsets: seq<i32>, padded: array2<T>,
                                   mask: array2<bool>)
    requires Lawful(m) && Layout(values, offsets) && Pads(m, values, offsets, padded, mask)
    ensures PaddedSum(m, padded, mask) == Wanted(m, values, offsets)
  {
    hide Lawful;
    forall s | 0 <= s < padded.Length0 ensures Fold(m, Row(m, padded, mask, s)) == SegmentTotal(m, values, offsets, s) {
      RowIsSegment(m, values, offsets, padded, mask, s);
    }
  }
}
