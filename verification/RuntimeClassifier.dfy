/**
 The plain C classifier: a branch-free counting walk in 32-bit arithmetic, then
 a second pass that writes the records into one caller-owned buffer.
 */
module RuntimeClassifier {
  import opened Int32
  import opened Wrappers
  import opened TaskPlan

  /** Some offset is negative or below the one before it. */
  ghost predicate Disordered(offsets: seq<int>) {
    offsets != [] && (offsets[0] < 0 || exists i :: 0 < i < |offsets| && offsets[i] < offsets[i - 1])
  }

  ghost predicate AllI32(offsets: seq<int>) {
    forall i :: 0 <= i < |offsets| ==> -0x8000_0000 <= offsets[i] <= I32_MAX
  }

  /** The flag of the counting walk is set exactly when the checked walk refuses. */
  lemma {:induction false} DisorderIsRefused(offsets: seq<int>, n: nat)
    requires AllI32(offsets) && n <= |offsets|
    ensures Disordered(offsets[..n]) <==> WalkRefusal(offsets, n).Some?
  {
    if n > 0 {
      DisorderIsRefused(offsets, n - 1);
      WalkAdmits(offsets, n - 1);
      ghost var shorter, longer := offsets[..n - 1], offsets[..n];
      assert forall i :: 0 <= i < n - 1 ==> shorter[i] == longer[i];
      assert n >= 2 ==> (longer[n - 1] < longer[n - 2] <==> offsets[n - 1] < offsets[n - 2]);
      if Disordered(longer) && !Disordered(shorter) && n >= 2 {
        var i :| 0 < i < |longer| && longer[i] < longer[i - 1];
        assert i == n - 1;
      }
    }
  }

  method FirstOffsetError(offsets: seq<i32>) returns (reason: Refusal)
    requires WalkRefusal(offsets, |offsets|).Some?
    ensures WalkRefusal(offsets, |offsets|) == Some(reason)
  {
    var previous: int := 0;
    for index := 0 to |offsets|
      invariant WalkRefusal(offsets, index).None?
      invariant previous == if index == 0 then 0 else offsets[index - 1]
    {
      if offsets[index] < 0 {
        WalkStops(offsets, index + 1, |offsets|);
        return OffsetRange;
      }
      if offsets[index] < previous {
        WalkStops(offsets, index + 1, |offsets|);
        break;
      }
      previous := offsets[index];
    }
    return OffsetsDecrease;
  }

  /** The counting walk: no branch, 32-bit values, and counts of no use once disordered. */
  method CountSegments(offsets: seq<i32>, segmentCount: int, warpMax: int, chunk: int)
    returns (disorder: bool, warpSegments: nat, splitSegments: nat)
    requires 0 <= segmentCount <= I32_MAX && |offsets| == segmentCount + 1
    requires 0 < warpMax <= chunk <= I32_MAX
    ensures disorder <==> WalkRefusal(offsets, |offsets|).Some?
    ensures !disorder ==>
              && warpSegments == |PlanOf(offsets, segmentCount, warpMax, chunk).warp|
              && splitSegments == |PlanOf(offsets, segmentCount, warpMax, chunk).merges|
    ensures warpSegments + splitSegments <= segmentCount
  {
    disorder := offsets[0] < 0;
    warpSegments, splitSegments := 0, 0;
    for segment := 0 to segmentCount
      invariant warpSegments + splitSegments <= segment
      invariant disorder <==> Disordered(offsets[..segment + 1])
      invariant !disorder ==>
                  && warpSegments == |PlanOf(offsets, segment, warpMax, chunk).warp|
                  && splitSegments == |PlanOf(offsets, segment, warpMax, chunk).merges|
    {
      var begin, end := offsets[segment], offsets[segment + 1];
      var length := WrappedLength(begin, end);
      DisorderStep(offsets, segment + 1);
      disorder := disorder || end < begin;
      warpSegments := Add32(warpSegments, length <= warpMax);
      splitSegments := Add32(splitSegments, length > chunk);
    }
    assert offsets[..segmentCount + 1] == offsets;
    DisorderIsRefused(offsets, |offsets|);
  }

  /** Adds a comparison to an unsigned 32-bit counter. */
  function Add32(counter: nat, flag: bool): (sum: nat)
    ensures counter < I32_MAX ==> sum == counter + if flag then 1 else 0
  {
    U32(counter + if flag then 1 else 0)
  }

  /** The 32-bit difference of two offsets, which wraps when they decrease. */
  function WrappedLength(begin: i32, end: i32): (length: i32)
    ensures 0 <= begin <= end ==> length == end - begin
  {
    Wrap32(U32(U32(end) - U32(begin)))
  }

  lemma DisorderStep(offsets: seq<int>, n: nat)
    requires 0 < n < |offsets| && AllI32(offsets)
    ensures Disordered(offsets[..n + 1]) <==> Disordered(offsets[..n]) || offsets[n] < offsets[n - 1]
    ensures !Disordered(offsets[..n]) ==> 0 <= offsets[n - 1]
  {
    ghost var shorter, longer := offsets[..n], offsets[..n + 1];
    assert forall i :: 0 <= i < n ==> shorter[i] == longer[i];
    assert offsets[n] < offsets[n - 1] ==> longer[n] < longer[n - 1];
    DisorderIsRefused(offsets, n);
    WalkAdmits(offsets, n);
    assert shorter[n - 1] == offsets[n - 1];
  }

  /** The second walk divides, once per split segment, and cannot overflow. */
  method CountPartials(offsets: seq<i32>, segmentCount: int, chunk: int) returns (partialTasks: nat)
    requires 0 <= segmentCount && |offsets| == segmentCount + 1 && 0 < chunk <= I32_MAX
    requires InRangeAndOrdered(offsets)
    ensures partialTasks == PartialTotal(offsets, segmentCount, chunk)
  {
    partialTasks := 0;
    hide ChunkCount;
    for segment := 0 to segmentCount
      invariant partialTasks == PartialTotal(offsets, segment, chunk)
    {
      var length := offsets[segment + 1] - offsets[segment];
      assert offsets[segment] <= offsets[segment + 1];
      PartialTotalBound(offsets, segment + 1, chunk);
      if length > chunk {
        partialTasks := U64(partialTasks + ChunkCount(length, chunk));
      }
    }
  }

  /** The checks on the offsets of a layout whose sizes are in range, and the four counts. */
  method CountOffsets(offsets: seq<i32>, valueCount: int, segmentCount: int, warpMax: int, chunk: int)
    returns (reason: Option<Refusal>, warpSegments: nat, partialTasks: nat, splitSegments: nat)
    requires SizeRefusal(valueCount, segmentCount, warpMax, chunk).None? && |offsets| == segmentCount + 1
    ensures reason == Refused(offsets, valueCount, segmentCount, warpMax, chunk)
    ensures reason.None? ==>
              var p := PlanOf(offsets, segmentCount, warpMax, chunk);
              && warpSegments == |p.warp| && partialTasks == |p.partials| && splitSegments == |p.merges|
              && segmentCount == |p.warp| + |p.cta| + |p.merges|
  {
    var disorder;
    partialTasks := 0;
    disorder, warpSegments, splitSegments := CountSegments(offsets, segmentCount, warpMax, chunk);
    if disorder {
      var error := FirstOffsetError(offsets);
      reason := Some(error);
      return;
    }
    if offsets[0] != 0 { reason := Some(NonzeroStart); return; }
    if offsets[segmentCount] > valueCount { reason := Some(EndAboveValueCount); return; }
    OnlyOverflowIsLeft(offsets, valueCount, segmentCount, warpMax, chunk);
    hide Refused, PlanOf, PartialTotal;
    if splitSegments != 0 {
      partialTasks := CountPartials(offsets, segmentCount, chunk);
    }
    reason := if U64(segmentCount + partialTasks) > I32_MAX then Some(DescriptorOverflow) else None;
  }

  /**
   Validates one layout and counts its records. `counts` is written only for an
   admitted layout; the subtraction of the walk wraps on a refused one.
   */
  method CountTasks(offsets: Option<seq<i32>>, offsetCount: int, valueCount: int, segmentCount: int,
                    warpMax: int, chunk: int, counts: array<int>)
    returns (reason: Option<Refusal>)
    requires counts.Length == 4
    requires offsets.Some? && offsetCount >= 0 ==> |offsets.value| == offsetCount
    modifies counts
    ensures reason == CountRefusal(offsets, offsetCount, valueCount, segmentCount, warpMax, chunk)
    ensures forall why ::
              reason == Some(why) <==> HasReason(why, offsets, offsetCount, valueCount, segmentCount, warpMax, chunk)
    ensures reason.Some? ==> counts[..] == old(counts[..])
    ensures reason.None? ==>
              && offsets.Some? && 0 <= segmentCount < |offsets.value| && chunk > 0
              && var p := PlanOf(offsets.value, segmentCount, warpMax, chunk);
                 counts[..] == [|p.warp|, |p.cta|, |p.partials|, |p.merges|]
  {
    CountedReasons(offsets, offsetCount, valueCount, segmentCount, warpMax, chunk);
    var sizes := SizeRefusal(valueCount, segmentCount, warpMax, chunk);
    hide HasReason;
    if sizes.Some? { return sizes; }
    if offsetCount != segmentCount + 1 { return Some(OffsetCountMismatch); }
    if offsets.None? { return Some(NullOffsets); }
    var warpSegments, partialTasks, splitSegments;
    reason, warpSegments, partialTasks, splitSegments :=
      CountOffsets(offsets.value, valueCount, segmentCount, warpMax, chunk);
    hide Refused, PlanOf;
    if reason.None? {
      counts[0] := warpSegments;
      counts[1] := segmentCount - warpSegments - splitSegments;
      counts[2] := partialTasks;
      counts[3] := splitSegments;
    }
  }

  /** The refusal of the first pass, with the array and its count that only the runtime has. */
  function CountRefusal(offsets: Option<seq<i32>>, offsetCount: int, valueCount: int, segmentCount: int, warpMax: int,
                        chunk: int): Option<Refusal>
    requires offsets.Some? && offsetCount >= 0 ==> |offsets.value| == offsetCount
  {
    var sizes := SizeRefusal(valueCount, segmentCount, warpMax, chunk);
    if sizes.Some? then sizes
    else if offsetCount != segmentCount + 1 then Some(OffsetCountMismatch)
    else if offsets.None? then Some(NullOffsets)
    else Refused(offsets.value, valueCount, segmentCount, warpMax, chunk)
  }

  lemma CountedReasons(offsets: Option<seq<i32>>, offsetCount: int, valueCount: int, segmentCount: int, warpMax: int,
                       chunk: int)
    requires offsets.Some? && offsetCount >= 0 ==> |offsets.value| == offsetCount
    ensures forall why :: CountRefusal(offsets, offsetCount, valueCount, segmentCount, warpMax, chunk) == Some(why)
                     <==> HasReason(why, offsets, offsetCount, valueCount, segmentCount, warpMax, chunk)
  {
    forall why ensures CountRefusal(offsets, offsetCount, valueCount, segmentCount, warpMax, chunk) == Some(why)
                  <==> HasReason(why, offsets, offsetCount, valueCount, segmentCount, warpMax, chunk)
    {
      CountedReason(why, offsets, offsetCount, valueCount, segmentCount, warpMax, chunk);
    }
  }

  lemma CountedReason(why: Refusal, offsets: Option<seq<i32>>, offsetCount: int, valueCount: int, segmentCount: int,
                      warpMax: int, chunk: int)
    requires offsets.Some? && offsetCount >= 0 ==> |offsets.value| == offsetCount
    ensures CountRefusal(offsets, offsetCount, valueCount, segmentCount, warpMax, chunk) == Some(why)
       <==> HasReason(why, offsets, offsetCount, valueCount, segmentCount, warpMax, chunk)
  {
    if offsets.Some? && offsetCount == segmentCount + 1 {
      if segmentCount >= 0 { ReasonIff(why, offsets.value, valueCount, segmentCount, warpMax, chunk); }
    }
    hide WalkRefusal, InRangeAndOrdered, FirstBad, PartialTotal;
  }

  /** Ordered offsets within their value count can only be refused for their descriptor count. */
  lemma OnlyOverflowIsLeft(offsets: seq<int>, valueCount: int, n: int, warpMax: int, chunk: int)
    requires SizeRefusal(valueCount, n, warpMax, chunk).None? && |offsets| == n + 1
    requires WalkRefusal(offsets, |offsets|).None? && offsets[0] == 0 && offsets[n] <= valueCount
    ensures InRangeAndOrdered(offsets)
    ensures var partials := PartialTotal(offsets, n, chunk);
            && Refused(offsets, valueCount, n, warpMax, chunk)
               == (if n + partials > I32_MAX then Some(DescriptorOverflow) else None)
            && var p := PlanOf(offsets, n, warpMax, chunk);
               && n == |p.warp| + |p.cta| + |p.merges| && |p.partials| == partials <= I32_MAX
               && (|p.merges| == 0 ==> partials == 0)
  {
    assert offsets[..n + 1] == offsets;
    WalkAdmits(offsets, n + 1);
    PlanSizes(offsets, n, warpMax, chunk);
    NoSplitNoPartials(offsets, n, warpMax, chunk);
    PartialTotalBound(offsets, n, chunk);
  }

  lemma {:induction false} NoSplitNoPartials(offsets: seq<int>, n: nat, warpMax: int, chunk: nat)
    requires n < |offsets| && 0 < warpMax <= chunk
    ensures |PlanOf(offsets, n, warpMax, chunk).merges| == 0 ==> PartialTotal(offsets, n, chunk) == 0
  {
    if n > 0 { NoSplitNoPartials(offsets, n - 1, warpMax, chunk); }
  }

  // ------------------------------------------------------------ write pass

  /** Where the lists of a plan start in the buffer, after the warp list at cell zero, and where they end. */
  datatype Layout = Layout(cta: nat, partial: nat, merge: nat, mergeOf: nat, size: nat)

  function LayoutOf(p: Plan): Layout {
    var cta := |p.warp|;
    var partial := cta + |p.cta|;
    var merge := partial + 2 * |p.partials|;
    var mergeOf := merge + 3 * |p.merges|;
    Layout(cta, partial, merge, mergeOf, mergeOf + |p.mergeOf|)
  }

  lemma {:induction false} FlatRangesAt(ranges: seq<Range>, i: nat)
    requires i < |ranges|
    ensures FlatRanges(ranges)[2 * i] == ranges[i].begin && FlatRanges(ranges)[2 * i + 1] == ranges[i].end
  {
    if i < |ranges| - 1 { FlatRangesAt(ranges[..|ranges| - 1], i); }
  }

  lemma {:induction false} FlatMergesAt(merges: seq<Merge>, i: nat)
    requires i < |merges|
    ensures var flat := FlatMerges(merges);
            flat[3 * i] == merges[i].segment && flat[3 * i + 1] == merges[i].first && flat[3 * i + 2] == merges[i].last
  {
    if i < |merges| - 1 { FlatMergesAt(merges[..|merges| - 1], i); }
  }

  ghost predicate IdsAt(flat: seq<int>, at: nat, ids: seq<nat>) {
    at + |ids| <= |flat| && forall i :: 0 <= i < |ids| ==> flat[at + i] == ids[i]
  }

  ghost predicate RangesAt(flat: seq<int>, at: nat, ranges: seq<Range>) {
    && at + 2 * |ranges| <= |flat|
    && forall i :: 0 <= i < |ranges| ==> flat[at + 2 * i] == ranges[i].begin && flat[at + 2 * i + 1] == ranges[i].end
  }

  ghost predicate MergesAt(flat: seq<int>, at: nat, merges: seq<Merge>) {
    && at + 3 * |merges| <= |flat|
    && forall i :: 0 <= i < |merges| ==>
         && flat[at + 3 * i] == merges[i].segment
         && flat[at + 3 * i + 1] == merges[i].first
         && flat[at + 3 * i + 2] == merges[i].last
  }

  /** Where the flat layout puts each record of a plan. */
  ghost predicate IsFlat(flat: seq<int>, p: Plan) {
    var at := LayoutOf(p);
    && |flat| == at.size
    && IdsAt(flat, 0, p.warp)
    && IdsAt(flat, at.cta, p.cta)
    && RangesAt(flat, at.partial, p.partials)
    && MergesAt(flat, at.merge, p.merges)
    && IdsAt(flat, at.mergeOf, p.mergeOf)
  }

  lemma RangesFlattened(before: seq<int>, ranges: seq<Range>, after: seq<int>)
    ensures RangesAt(before + FlatRanges(ranges) + after, |before|, ranges)
  {
    forall i | 0 <= i < |ranges|
      ensures FlatRanges(ranges)[2 * i] == ranges[i].begin && FlatRanges(ranges)[2 * i + 1] == ranges[i].end
    {
      FlatRangesAt(ranges, i);
    }
  }

  lemma MergesFlattened(before: seq<int>, merges: seq<Merge>, after: seq<int>)
    ensures MergesAt(before + FlatMerges(merges) + after, |before|, merges)
  {
    var flat := FlatMerges(merges);
    forall i | 0 <= i < |merges|
      ensures flat[3 * i] == merges[i].segment && flat[3 * i + 1] == merges[i].first
      ensures flat[3 * i + 2] == merges[i].last
    {
      FlatMergesAt(merges, i);
    }
  }

  lemma IdsFlattened(before: seq<int>, ids: seq<nat>, after: seq<int>)
    ensures IdsAt(before + ids + after, |before|, ids)
  {
  }

  /** The buffer that Flat describes has every record at its place. */
  lemma FlatIsFlat(p: Plan)
    ensures IsFlat(Flat(p), p)
  {
    var a, b, c, d, e: seq<int> := p.warp, p.cta, FlatRanges(p.partials), FlatMerges(p.merges), p.mergeOf;
    FiveParts(a, b, c, d, e);
    IdsFlattened([], p.warp, b + c + d + e);
    IdsFlattened(a, p.cta, c + d + e);
    RangesFlattened(a + b, p.partials, d + e);
    MergesFlattened(a + b + c, p.merges, e);
    IdsFlattened(a + b + c + d, p.mergeOf, []);
    hide IdsAt, RangesAt, MergesAt, FlatRanges, FlatMerges;
  }

  lemma FiveParts(a: seq<int>, b: seq<int>, c: seq<int>, d: seq<int>, e: seq<int>)
    ensures var all := a + b + c + d + e;
            && [] + a + (b + c + d + e) == all
            && a + b + (c + d + e) == all
            && a + b + c + (d + e) == all
            && a + b + c + d + e + [] == all
            && |all| == |a| + |b| + |c| + |d| + |e|
            && |a + b| == |a| + |b| && |a + b + c| == |a| + |b| + |c| && |a + b + c + d| == |a| + |b| + |c| + |d|
  {
  }

  /** The cells `[from, to)` hold their final values. */
  ghost predicate Final(records: array<i32>, flat: seq<int>, from: nat, to: nat)
    requires |flat| <= records.Length
    reads records
  {
    forall i :: from <= i < to && i < |flat| ==> records[i] == flat[i]
  }

  /** Where the flat layout puts the records of a split segment, from the three write positions on. */
  ghost predicate SplitAt(flat: seq<int>, partial: nat, merge: nat, mergeOf: nat, segment: int, scratch: int,
                          mergeIndex: nat, chunks: seq<Range>)
  {
    && RangesAt(flat, partial, chunks)
    && IdsAt(flat, mergeOf, Repeat(mergeIndex, |chunks|))
    && merge + 3 <= |flat|
    && flat[merge] == segment && flat[merge + 1] == scratch && flat[merge + 2] == scratch + |chunks|
  }

  /** The partial ranges and the merge indices of one split segment. */
  method WriteChunks(records: array<i32>, ghost flat: seq<int>, begin: int, end: int, chunk: nat,
                     partial: nat, mergeOf: nat, scratch: nat, mergeIndex: i32)
    returns (nextPartial: nat, nextMergeOf: nat, nextScratch: nat)
    requires chunk > 0 && 0 <= begin && end <= I32_MAX && 0 <= mergeIndex
    requires |flat| <= records.Length && RangesAt(flat, partial, Chunks(begin, end, chunk))
    requires IdsAt(flat, mergeOf, Repeat(mergeIndex, |Chunks(begin, end, chunk)|))
    modifies records
    ensures nextPartial == partial + 2 * |Chunks(begin, end, chunk)|
    ensures nextMergeOf == mergeOf + |Chunks(begin, end, chunk)|
    ensures nextScratch == scratch + |Chunks(begin, end, chunk)|
    ensures Final(records, flat, partial, nextPartial) && Final(records, flat, mergeOf, nextMergeOf)
    ensures forall i :: 0 <= i < records.Length ==>
              records[i] == old(records[i]) || (i < |flat| && records[i] == flat[i])
  {
    nextPartial, nextMergeOf, nextScratch := partial, mergeOf, scratch;
    ghost var chunks := Chunks(begin, end, chunk);
    var chunkBegin := begin;
    ghost var done := 0;
    while chunkBegin < end
      invariant begin <= chunkBegin && done <= |chunks| && chunks[done..] == Chunks(chunkBegin, end, chunk)
      invariant nextPartial == partial + 2 * done && nextMergeOf == mergeOf + done && nextScratch == scratch + done
      invariant Final(records, flat, partial, nextPartial) && Final(records, flat, mergeOf, nextMergeOf)
      invariant forall i :: 0 <= i < records.Length ==>
                  records[i] == old(records[i]) || (i < |flat| && records[i] == flat[i])
      decreases end - chunkBegin
    {
      var chunkEnd := chunkBegin + chunk;
      assert chunks[done] == chunks[done..][0];
      assert chunks[done + 1..] == chunks[done..][1..];
      assert Repeat(mergeIndex, |chunks|)[done] == mergeIndex;
      records[nextPartial] := chunkBegin;
      records[nextPartial + 1] := if chunkEnd < end then chunkEnd else end;
      nextPartial := nextPartial + 2;
      records[nextMergeOf] := mergeIndex;
      nextMergeOf := nextMergeOf + 1;
      nextScratch := nextScratch + 1;
      done := done + 1;
      chunkBegin := chunkEnd;
    }
  }

  /** The five write positions and the two indices of the write pass. */
  datatype Cursor = Cursor(warp: nat, cta: nat, partial: nat, merge: nat, mergeOf: nat, scratch: nat, mergeIndex: nat)

  function CursorAt(at: Layout, p: Plan): Cursor {
    Cursor(|p.warp|, at.cta + |p.cta|, at.partial + 2 * |p.partials|, at.merge + 3 * |p.merges|,
           at.mergeOf + |p.partials|, |p.partials|, |p.merges|)
  }

  /** The cell is before the write position of its list. */
  ghost predicate Covered(at: Layout, c: Cursor, i: nat) {
    || i < c.warp || at.cta <= i < c.cta || at.partial <= i < c.partial
    || at.merge <= i < c.merge || at.mergeOf <= i < c.mergeOf
  }

  ghost predicate Reached(records: array<i32>, flat: seq<int>, at: Layout, c: Cursor)
    requires |flat| <= records.Length
    reads records
  {
    forall i :: 0 <= i < |flat| && Covered(at, c, i) ==> records[i] == flat[i]
  }

  /** The merge triple of a split segment, around its partial records. */
  method WriteSplit(records: array<i32>, ghost flat: seq<int>, ghost at: Layout, segment: i32, begin: int, end: int,
                    chunk: nat, c: Cursor)
    returns (next: Cursor)
    requires chunk > 0 && 0 <= begin && end <= I32_MAX && c.mergeIndex <= I32_MAX
    requires c.scratch + |Chunks(begin, end, chunk)| <= I32_MAX
    requires |flat| <= records.Length
    requires SplitAt(flat, c.partial, c.merge, c.mergeOf, segment, c.scratch, c.mergeIndex, Chunks(begin, end, chunk))
    modifies records
    ensures next == var chunks := |Chunks(begin, end, chunk)|;
                    Cursor(c.warp, c.cta, c.partial + 2 * chunks, c.merge + 3, c.mergeOf + chunks,
                           c.scratch + chunks, c.mergeIndex + 1)
    ensures forall i :: 0 <= i < |flat| && Covered(at, next, i) ==> Covered(at, c, i) || records[i] == flat[i]
    ensures forall i :: 0 <= i < records.Length ==>
              records[i] == old(records[i]) || (i < |flat| && records[i] == flat[i])
  {
    records[c.merge] := segment;
    records[c.merge + 1] := c.scratch;
    var partial, mergeOf, scratch := WriteChunks(records, flat, begin, end, chunk, c.partial, c.mergeOf, c.scratch,
                                                 c.mergeIndex);
    records[c.merge + 2] := scratch;
    next := Cursor(c.warp, c.cta, partial, c.merge + 3, mergeOf, scratch, c.mergeIndex + 1);
  }

  /** `p` is a prefix of `q`, list by list. */
  ghost predicate Extends(q: Plan, p: Plan) {
    && p.warp <= q.warp && p.cta <= q.cta && p.partials <= q.partials && p.merges <= q.merges && p.mergeOf <= q.mergeOf
    && |p.partials| == |p.mergeOf|
  }

  /** What the buffer of the whole plan holds for the next segment, from the positions its prefix leaves. */
  lemma SegmentCells(flat: seq<int>, full: Plan, p: Plan, segment: nat, begin: int, end: int, warpMax: int, chunk: nat)
    requires chunk > 0 && IsFlat(flat, full)
    requires |p.partials| == |p.mergeOf| && Extends(full, AddSegment(p, segment, begin, end, warpMax, chunk))
    ensures var c := CursorAt(LayoutOf(full), p);
            && (end - begin <= warpMax ==> c.warp < |flat| && flat[c.warp] == segment)
            && (warpMax < end - begin <= chunk ==> c.cta < |flat| && flat[c.cta] == segment)
            && (warpMax < end - begin && chunk < end - begin ==>
                  && SplitAt(flat, c.partial, c.merge, c.mergeOf, segment, c.scratch, c.mergeIndex,
                             Chunks(begin, end, chunk))
                  && c.scratch + |Chunks(begin, end, chunk)| <= |full.partials| && c.mergeIndex < |full.merges|)
    ensures CursorAt(LayoutOf(full), AddSegment(p, segment, begin, end, warpMax, chunk)) ==
            var at, chunks := LayoutOf(full), |Chunks(begin, end, chunk)|;
            var c := CursorAt(at, p);
            if end - begin <= warpMax then c.(warp := c.warp + 1)
            else if end - begin <= chunk then c.(cta := c.cta + 1)
            else Cursor(c.warp, c.cta, c.partial + 2 * chunks, c.merge + 3, c.mergeOf + chunks,
                        c.scratch + chunks, c.mergeIndex + 1)
  {
    var q := AddSegment(p, segment, begin, end, warpMax, chunk);
    hide Chunks, SplitAt, RangesAt, MergesAt;
    if end - begin <= warpMax {
      assert q.warp[|p.warp|] == segment;
    } else if end - begin <= chunk {
      assert q.cta[|p.cta|] == segment;
    } else {
      SplitCells(flat, full, p, segment, Chunks(begin, end, chunk));
    }
  }

  lemma SplitCells(flat: seq<int>, full: Plan, p: Plan, segment: nat, chunks: seq<Range>)
    requires IsFlat(flat, full) && |p.partials| == |p.mergeOf|
    requires p.partials + chunks <= full.partials
    requires p.merges + [Merge(segment, |p.partials|, |p.partials| + |chunks|)] <= full.merges
    requires p.mergeOf + Repeat(|p.merges|, |chunks|) <= full.mergeOf
    ensures var at := LayoutOf(full);
            SplitAt(flat, at.partial + 2 * |p.partials|, at.merge + 3 * |p.merges|, at.mergeOf + |p.partials|,
                    segment, |p.partials|, |p.merges|, chunks)
  {
    var at := LayoutOf(full);
    assert full.merges[|p.merges|] == Merge(segment, |p.partials|, |p.partials| + |chunks|);
    forall i | 0 <= i < |chunks|
      ensures flat[at.partial + 2 * (|p.partials| + i)] == chunks[i].begin
           && flat[at.partial + 2 * (|p.partials| + i) + 1] == chunks[i].end
    {
      assert full.partials[|p.partials| + i] == chunks[i];
    }
    var repeated := Repeat(|p.merges|, |chunks|);
    forall i | 0 <= i < |repeated| ensures flat[at.mergeOf + |p.partials| + i] == repeated[i] {
      assert full.mergeOf[|p.partials| + i] == repeated[i];
      assert flat[at.mergeOf + (|p.partials| + i)] == full.mergeOf[|p.partials| + i];
    }
  }

  /** The records of one segment. */
  method WriteSegment(records: array<i32>, ghost flat: seq<int>, ghost full: Plan, ghost p: Plan,
                      segment: i32, begin: int, end: int, warpMax: int, chunk: int, c: Cursor)
    returns (next: Cursor)
    requires 0 < warpMax <= chunk && 0 <= begin <= end <= I32_MAX && 0 <= segment
    requires |flat| <= records.Length && IsFlat(flat, full)
    requires |p.partials| == |p.mergeOf| && Extends(full, AddSegment(p, segment, begin, end, warpMax, chunk))
    requires |full.partials| <= I32_MAX && |full.merges| <= I32_MAX
    requires c == CursorAt(LayoutOf(full), p) && Reached(records, flat, LayoutOf(full), c)
    modifies records
    ensures next == CursorAt(LayoutOf(full), AddSegment(p, segment, begin, end, warpMax, chunk))
    ensures Reached(records, flat, LayoutOf(full), next)
    ensures forall i :: |flat| <= i < records.Length ==> records[i] == old(records[i])
  {
    next := c;
    var length := end - begin;
    SegmentCells(flat, full, p, segment, begin, end, warpMax, chunk);
    hide IsFlat, SplitAt, Chunks, Repeat, Extends, AddSegment, LayoutOf, CursorAt;
    if length <= warpMax {
      records[c.warp] := segment;
      next := next.(warp := c.warp + 1);
    } else if length <= chunk {
      records[c.cta] := segment;
      next := next.(cta := c.cta + 1);
    } else {
      next := WriteSplit(records, flat, LayoutOf(full), segment, begin, end, chunk, c);
    }
  }

  /** The walk over the segments, from the first write positions on. */
  method WriteSegments(offsets: seq<i32>, segmentCount: int, warpMax: int, chunk: int, records: array<i32>,
                       start: Cursor, ghost flat: seq<int>, ghost full: Plan)
    requires 0 <= segmentCount <= I32_MAX && |offsets| == segmentCount + 1
    requires 0 < warpMax <= chunk && Nondecreasing(offsets) && offsets[0] == 0
    requires full == PlanOf(offsets, segmentCount, warpMax, chunk) && IsFlat(flat, full) && |flat| <= records.Length
    requires |full.partials| <= I32_MAX && |full.merges| <= I32_MAX
    requires start == CursorAt(LayoutOf(full), PlanOf(offsets, 0, warpMax, chunk))
    requires forall i: nat :: !Covered(LayoutOf(full), start, i)
    modifies records
    ensures Reached(records, flat, LayoutOf(full), CursorAt(LayoutOf(full), full))
    ensures forall i :: |flat| <= i < records.Length ==> records[i] == old(records[i])
  {
    ghost var at := LayoutOf(full);
    var cursor := start;
    var begin := 0;
    hide IsFlat, Extends, AddSegment, Nondecreasing, PlanOf, LayoutOf, CursorAt;
    for segment := 0 to segmentCount
      invariant begin == offsets[segment]
      invariant cursor == CursorAt(at, PlanOf(offsets, segment, warpMax, chunk))
      invariant Reached(records, flat, at, cursor)
      invariant forall i :: |flat| <= i < records.Length ==> records[i] == old(records[i])
    {
      var end := offsets[segment + 1];
      PrefixExtends(offsets, segment, segmentCount, warpMax, chunk);
      cursor := WriteSegment(records, flat, full, PlanOf(offsets, segment, warpMax, chunk), segment, begin, end,
                             warpMax, chunk, cursor);
      begin := end;
    }
  }

  /** Writes the records of a layout that CountTasks admitted, and nothing past them. */
  method WriteTasks(offsets: seq<i32>, segmentCount: int, warpMax: int, chunk: int, counts: array<int>,
                    records: array<i32>, ghost valueCount: int)
    requires Refused(offsets, valueCount, segmentCount, warpMax, chunk).None?
    requires var p := PlanOf(offsets, segmentCount, warpMax, chunk);
             && counts[..] == [|p.warp|, |p.cta|, |p.partials|, |p.merges|]
             && FlatSize(p) <= records.Length
    modifies records
    ensures var p := PlanOf(offsets, segmentCount, warpMax, chunk);
            && records[..FlatSize(p)] == Flat(p)
            && records[FlatSize(p)..] == old(records[FlatSize(p)..])
  {
    ghost var full := PlanOf(offsets, segmentCount, warpMax, chunk);
    ghost var flat := Flat(full);
    PassStart(offsets, valueCount, segmentCount, warpMax, chunk);
    hide Flat, IsFlat, Refused, Nondecreasing, PlanOf, LayoutOf, CursorAt, FlatSize, Covered;
    var cta := counts[0];
    var partial := cta + counts[1];
    var merge := partial + 2 * counts[2];
    var mergeOf := merge + 3 * counts[3];
    WriteSegments(offsets, segmentCount, warpMax, chunk, records, Cursor(0, cta, partial, merge, mergeOf, 0, 0), flat,
                  full);
    forall i | 0 <= i < |flat| ensures records[i] == flat[i] {
      AllCovered(full, i);
    }
  }

  lemma PrefixExtends(offsets: seq<int>, k: nat, n: nat, warpMax: int, chunk: nat)
    requires k < n < |offsets| && 0 < warpMax <= chunk && Nondecreasing(offsets)
    ensures Extends(PlanOf(offsets, n, warpMax, chunk), PlanOf(offsets, k + 1, warpMax, chunk))
    ensures |PlanOf(offsets, k, warpMax, chunk).partials| == |PlanOf(offsets, k, warpMax, chunk).mergeOf|
    ensures offsets[0] <= offsets[k] <= offsets[k + 1]
    ensures PlanOf(offsets, k + 1, warpMax, chunk)
         == AddSegment(PlanOf(offsets, k, warpMax, chunk), k, offsets[k], offsets[k + 1], warpMax, chunk)
  {
    PlanGrows(offsets, k + 1, n, warpMax, chunk);
    PlanSizes(offsets, k, warpMax, chunk);
    PlanSizes(offsets, k + 1, warpMax, chunk);
  }

  /** The empty prefix has no record, and the counts give the layout of the whole plan. */
  lemma PassStart(offsets: seq<int>, valueCount: int, n: int, warpMax: int, chunk: int)
    requires Refused(offsets, valueCount, n, warpMax, chunk).None?
    ensures 0 < warpMax <= chunk && 0 <= n <= I32_MAX && |offsets| == n + 1
    ensures offsets[0] == 0 && offsets[n] <= I32_MAX && Nondecreasing(offsets)
    ensures PlanOf(offsets, 0, warpMax, chunk) == Plan([], [], [], [], [])
    ensures var full := PlanOf(offsets, n, warpMax, chunk);
            && FlatSize(full) == |Flat(full)| == LayoutOf(full).size && IsFlat(Flat(full), full)
            && |full.mergeOf| == |full.partials| <= I32_MAX && |full.merges| <= n
            && CursorAt(LayoutOf(full), Plan([], [], [], [], []))
               == Cursor(0, |full.warp|, |full.warp| + |full.cta|, |full.warp| + |full.cta| + 2 * |full.partials|,
                         |full.warp| + |full.cta| + 2 * |full.partials| + 3 * |full.merges|, 0, 0)
            && forall i: nat :: !Covered(LayoutOf(full), CursorAt(LayoutOf(full), Plan([], [], [], [], [])), i)
  {
    AdmittedIffNotRefused(offsets, valueCount, n, warpMax, chunk);
    PlanSizes(offsets, n, warpMax, chunk);
    PartialTotalBound(offsets, n, chunk);
    FlatIsFlat(PlanOf(offsets, n, warpMax, chunk));
    hide IsFlat, PlanOf;
  }

  lemma AllCovered(p: Plan, i: nat)
    requires |p.mergeOf| == |p.partials| && i < LayoutOf(p).size
    ensures Covered(LayoutOf(p), CursorAt(LayoutOf(p), p), i)
  {
  }
}
