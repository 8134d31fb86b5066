/**
 Layouts that the harness takes and the 32-bit indices of a kernel do not: one for
 each family of kernels. All have 2^31 - 1 values, the most that i32 offsets name.
 */
module WrappedLanes {
  import opened Int32
  import opened Integers
  import opened SegmentTiles
  import opened TaskPartition
  import opened TritonKernels
  import PaddedInputs

  /** Offsets in equal steps, moved back by `shift`, up to the largest i32. */
  function SpreadAt(step: nat, shift: nat, i: nat): i32
    requires shift < step
  {
    if i == 0 then 0
    else if i * step - shift < I32_MAX then (MultiplyLessEqual(1, i, step); i * step - shift)
    else I32_MAX
  }

  /** As many segments as it takes; the last one begins at `2^31 - shift`. */
  function Spread(step: nat, shift: nat): (offsets: seq<i32>)
    requires shift < step
    ensures |offsets| == 0x8000_0000 / step + 2
  {
    seq(0x8000_0000 / step + 2, i requires 0 <= i < 0x8000_0000 / step + 2 => SpreadAt(step, shift, i))
  }

  lemma SpreadIsOrdered(step: nat, shift: nat, i: nat, j: nat)
    requires shift < step && i <= j
    ensures SpreadAt(step, shift, i) <= SpreadAt(step, shift, j)
  {
    MultiplyLessEqual(i, j, step);
    if i > 0 { MultiplyLessEqual(1, i, step); }
    if j > 0 { MultiplyLessEqual(1, j, step); }
  }

  lemma SpreadLength(step: nat, shift: nat, i: nat)
    requires shift < step
    ensures 0 <= SpreadAt(step, shift, i + 1) - SpreadAt(step, shift, i) <= step
  {
    SpreadIsOrdered(step, shift, i, i + 1);
    assert (i + 1) * step == i * step + step;
  }

  /** It is a layout with segments of at most `step`, whose last one is too close to the end. */
  lemma SpreadIsLayout<T>(v: T, step: nat, shift: nat) returns (values: seq<T>)
    requires 1 < shift < step && 0x8000_0000 % step == 0
    ensures |values| == I32_MAX && Layout(values, Spread(step, shift))
    ensures var offsets := Spread(step, shift);
            && (forall s :: 0 <= s < |offsets| - 1 ==> Lengths(offsets)[s] <= step)
            && offsets[|offsets| - 2] == 0x8000_0000 - shift && Lengths(offsets)[|offsets| - 2] == shift - 1
  {
    values := seq(I32_MAX, _ => v);
    var offsets, n := Spread(step, shift), 0x8000_0000 / step;
    assert n * step == 0x8000_0000;
    assert (n + 1) * step == 0x8000_0000 + step;
    forall i, j | 0 <= i <= j < |offsets| ensures offsets[i] <= offsets[j] {
      SpreadIsOrdered(step, shift, i, j);
    }
    forall s | 0 <= s < |offsets| - 1 ensures Lengths(offsets)[s] <= step {
      SpreadLength(step, shift, s);
    }
    hide Spread;
  }

  /** The last segment of a layout, and a tile over it that reads outside. */
  ghost predicate LastTileReadsOutside<T>(values: seq<T>, offsets: seq<i32>, lanes: nat)
    requires 2 <= |offsets|
  {
    !LoadsInBounds(|values|, offsets[|offsets| - 2], offsets[|offsets| - 1], lanes)
  }

  /** One block: 64 lanes cover every segment, and the last block wraps. */
  lemma OneBlockReadsOutside<T>(v: T) returns (values: seq<T>, offsets: seq<i32>, block: nat)
    ensures |values| == I32_MAX && Layout(values, offsets) && 2 <= |offsets|
    ensures forall s :: 0 <= s < |offsets| - 1 ==> Lengths(offsets)[s] <= block
    ensures LastTileReadsOutside(values, offsets, block)
  {
    offsets, block := Spread(64, 32), 64;
    values := SpreadIsLayout(v, 64, 32);
    LastTile(values, offsets, block);
  }

  lemma LastTile<T>(values: seq<T>, offsets: seq<i32>, lanes: nat)
    requires Layout(values, offsets) && 2 <= |offsets| && 0 < lanes <= I32_MAX
    requires !LaneFits(offsets[|offsets| - 2], lanes)
    ensures LastTileReadsOutside(values, offsets, lanes)
  {
    SegmentInValues(values, offsets, |offsets| - 2);
    LoadsInBoundsIff(|values|, offsets[|offsets| - 2], offsets[|offsets| - 1], lanes);
  }

  /** Packed and fused: only short segments, and the last slot wraps. */
  lemma PackedReadsOutside<T>(v: T) returns (values: seq<T>, offsets: seq<i32>)
    ensures |values| == I32_MAX && Layout(values, offsets) && 2 <= |offsets|
    ensures forall s :: 0 <= s < |offsets| - 1 ==> Lengths(offsets)[s] <= WARP_MAX_ELEMENTS
    ensures LastTileReadsOutside(values, offsets, WARP) && !FusedLoadsInBounds(values, offsets)
  {
    offsets := Spread(32, 16);
    values := SpreadIsLayout(v, 32, 16);
    LastTile(values, offsets, WARP);
    var t := PlaceOfLast(offsets);
    FusedLoadsInBoundsIff(values, offsets);
    hide FusedLoadsInBounds, Layout;
    assert !LaneFits(offsets[WarpIds(offsets)[t]], WARP);
  }

  /** CTA tasks and fused: a segment of 2047 elements at offset 2^31 - 2048. */
  lemma LongReadsOutside<T>(v: T) returns (values: seq<T>, offsets: seq<i32>)
    ensures |values| == I32_MAX && Layout(values, offsets) && 2 <= |offsets|
    ensures forall s :: 0 <= s < |offsets| - 1 ==> Lengths(offsets)[s] <= 4096
    ensures LastTileReadsOutside(values, offsets, 4096) && !FusedLoadsInBounds(values, offsets)
  {
    offsets := Spread(4096, 2048);
    values := SpreadIsLayout(v, 4096, 2048);
    LastTile(values, offsets, MAX_CTA_ELEMENTS);
    var t := PlaceOfLast(offsets);
    FusedLoadsInBoundsIff(values, offsets);
    hide FusedLoadsInBounds, Layout;
    assert !LaneFits(offsets[CtaIds(offsets)[t]], MAX_CTA_ELEMENTS);
  }

  /** Where the last segment is listed. */
  lemma PlaceOfLast(offsets: seq<i32>) returns (t: nat)
    requires 2 <= |offsets|
    ensures if Lengths(offsets)[|offsets| - 2] <= WARP_MAX_ELEMENTS
            then t < |WarpIds(offsets)| && WarpIds(offsets)[t] == |offsets| - 2
            else t < |CtaIds(offsets)| && CtaIds(offsets)[t] == |offsets| - 2
  {
    var lengths := Lengths(offsets);
    PartitionIsPartition(lengths);
    hide ShortIds, LongIds;
    assert ListedAt(WarpIds(offsets), CtaIds(offsets), |offsets| - 2, Places(lengths)[|offsets| - 2]);
    t := Places(lengths)[|offsets| - 2].t;
  }

  /**
   Looped: every tile before the end has i32 lanes; then the counter wraps, and the
   loop neither stays inside nor ends.
  */
  lemma LoopedRunsOn(count: nat, block: nat) returns (begin: nat, end: nat)
    requires count == I32_MAX && block == 128
    ensures begin < end <= count && LaneFits(begin, block) && begin + block >= end
    ensures !LoopLoadsInBounds(count, begin, end, block)
    ensures forall k: nat :: Counter(begin, block, k) < end
  {
    begin, end := 0x8000_0000 - 128, I32_MAX;
    assert begin + block > I32_MAX;
    LoopLoadsInBoundsIff(count, begin, end, block);
    forall k: nat ensures Counter(begin, block, k) < end {
      CounterIsMultiple(begin, k);
    }
  }

  lemma {:induction false} CounterIsMultiple(begin: nat, k: nat)
    requires begin == 0x8000_0000 - 128
    ensures -0x8000_0000 <= Counter(begin, 128, k) <= begin && Counter(begin, 128, k) % 128 == 0
  {
    if k > 0 { CounterIsMultiple(begin, k - 1); }
  }

  /** Padded: two segments, of 2^30 + 1 and 2^30 - 2 elements. */
  lemma PaddedIndexWraps<T>(v: T) returns (values: seq<T>, offsets: seq<i32>, s: nat, j: nat)
    ensures |values| == I32_MAX && Layout(values, offsets) && PaddedInputs.IsCell(offsets, s, j)
    ensures Lengths(offsets)[s] <= j && Lane(offsets[s], j) < offsets[s + 1]
    ensures PaddedInputs.Clamped(|values|, offsets[s], j) < 0
  {
    values, offsets := seq(I32_MAX, _ => v), [0, 0x4000_0001, I32_MAX];
    var lengths := Lengths(offsets);
    assert lengths == [0x4000_0001, 0x3fff_fffe];
    assert PaddedInputs.Longest(lengths) >= lengths[0];
    s, j := PaddedInputs.CellWraps(values, offsets);
  }
}
