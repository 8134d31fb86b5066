/**
 The meaning of a segment layout: when it is refused and why, and which warp,
 CTA, partial, and merge records it stands for. Both classifiers, the runtime
 one over i32 offsets and the descriptor one over i64 offsets, are proved
 against these functions.
 */
module TaskPlan {
  import opened Int32
  import opened Integers
  import opened Wrappers

  datatype Refusal =
    | ValueCountRange
    | SegmentCountRange
    | WarpMaxRange
    | ChunkRange
    | WarpMaxZero
    | ChunkZero
    | WarpAboveChunk
    | OffsetCountMismatch
    | NullOffsets
    | OffsetRange
    | OffsetsDecrease
    | NonzeroStart
    | EndAboveValueCount
    | DescriptorOverflow

  /** The checks on the four sizes, in their order. */
  function SizeRefusal(valueCount: int, segmentCount: int, warpMax: int, chunk: int): Option<Refusal> {
    if OutsideI32(valueCount) then Some(ValueCountRange)
    else if OutsideI32(segmentCount) then Some(SegmentCountRange)
    else if OutsideI32(warpMax) then Some(WarpMaxRange)
    else if OutsideI32(chunk) then Some(ChunkRange)
    else if warpMax == 0 then Some(WarpMaxZero)
    else if chunk == 0 then Some(ChunkZero)
    else if warpMax > chunk then Some(WarpAboveChunk)
    else None
  }

  /** What the first `n` offsets are refused for: the first bad one decides. */
  function WalkRefusal(offsets: seq<int>, n: nat): Option<Refusal>
    requires n <= |offsets|
  {
    if n == 0 then None
    else if WalkRefusal(offsets, n - 1).Some? then WalkRefusal(offsets, n - 1)
    else if OutsideI32(offsets[n - 1]) then Some(OffsetRange)
    else if n >= 2 && offsets[n - 1] < offsets[n - 2] then Some(OffsetsDecrease)
    else None
  }

  /** The number of chunks of at most `chunk` elements that cover `length`. */
  function ChunkCount(length: nat, chunk: nat): nat
    requires chunk > 0
  {
    length / chunk + if length % chunk != 0 then 1 else 0
  }

  /** The partial tasks of the first `n` segments. */
  function PartialTotal(offsets: seq<int>, n: nat, chunk: nat): nat
    requires n < |offsets| && chunk > 0
  {
    if n == 0 then 0
    else
      var length := offsets[n] - offsets[n - 1];
      PartialTotal(offsets, n - 1, chunk) + if length > chunk then ChunkCount(length, chunk) else 0
  }

  /** Why a layout is refused, or None for an admitted one. */
  function Refused(offsets: seq<int>, valueCount: int, segmentCount: int, warpMax: int, chunk: int): Option<Refusal> {
    var sizes := SizeRefusal(valueCount, segmentCount, warpMax, chunk);
    if sizes.Some? then sizes
    else if |offsets| != segmentCount + 1 then Some(OffsetCountMismatch)
    else
      var walk := WalkRefusal(offsets, |offsets|);
      if walk.Some? then walk
      else if offsets[0] != 0 then Some(NonzeroStart)
      else if offsets[segmentCount] > valueCount then Some(EndAboveValueCount)
      else if segmentCount + PartialTotal(offsets, segmentCount, chunk) > I32_MAX then Some(DescriptorOverflow)
      else None
  }

  /** What the header promises of an admitted layout, without an order of checks. */
  ghost predicate Admitted(offsets: seq<int>, valueCount: int, segmentCount: int, warpMax: int, chunk: int) {
    && 0 < warpMax <= chunk <= I32_MAX
    && 0 <= segmentCount <= I32_MAX
    && 0 <= valueCount <= I32_MAX
    && |offsets| == segmentCount + 1
    && offsets[0] == 0
    && Nondecreasing(offsets)
    && offsets[segmentCount] <= valueCount
    && segmentCount + PartialTotal(offsets, segmentCount, chunk) <= I32_MAX
  }

  ghost predicate Nondecreasing(s: seq<int>) {
    forall i, j :: 0 <= i <= j < |s| ==> s[i] <= s[j]
  }

  ghost predicate InRangeAndOrdered(s: seq<int>) {
    Nondecreasing(s) && forall i :: 0 <= i < |s| ==> 0 <= s[i] <= I32_MAX
  }

  /** The walk refuses nothing exactly on ordered offsets in range. */
  lemma {:induction false} WalkAdmits(offsets: seq<int>, n: nat)
    requires n <= |offsets|
    ensures WalkRefusal(offsets, n).None? <==> InRangeAndOrdered(offsets[..n])
  {
    if n > 0 {
      WalkAdmits(offsets, n - 1);
      ghost var shorter, longer := offsets[..n - 1], offsets[..n];
      assert forall i :: 0 <= i < n - 1 ==> shorter[i] == longer[i];
      assert InRangeAndOrdered(longer) ==> InRangeAndOrdered(shorter);
    }
  }

  /** The reason names the first offset that breaks a rule, and which rule. */
  lemma {:induction false} WalkNamesTheFirst(offsets: seq<int>, n: nat, k: nat)
    requires k < n <= |offsets|
    requires InRangeAndOrdered(offsets[..k]) && !InRangeAndOrdered(offsets[..k + 1])
    ensures WalkRefusal(offsets, n) == Some(if OutsideI32(offsets[k]) then OffsetRange else OffsetsDecrease)
  {
    if n > k + 1 {
      WalkNamesTheFirst(offsets, n - 1, k);
    } else {
      WalkAdmits(offsets, k);
      WalkAdmits(offsets, k + 1);
    }
  }

  /** A refused prefix decides the walk. */
  lemma {:induction false} WalkStops(offsets: seq<int>, k: nat, n: nat)
    requires k <= n <= |offsets| && WalkRefusal(offsets, k).Some?
    ensures WalkRefusal(offsets, n) == WalkRefusal(offsets, k)
  {
    if k < n { WalkStops(offsets, k, n - 1); }
  }

  /** The ordered checks admit exactly the layouts the header describes. */
  lemma AdmittedIffNotRefused(offsets: seq<int>, valueCount: int, segmentCount: int, warpMax: int, chunk: int)
    ensures Refused(offsets, valueCount, segmentCount, warpMax, chunk).None?
        <==> Admitted(offsets, valueCount, segmentCount, warpMax, chunk)
  {
    WalkAdmits(offsets, |offsets|);
    assert offsets[..|offsets|] == offsets;
    if Admitted(offsets, valueCount, segmentCount, warpMax, chunk) {
      forall i | 0 <= i < |offsets| ensures 0 <= offsets[i] <= I32_MAX {
        assert offsets[0] <= offsets[i] <= offsets[segmentCount];
      }
    }
  }

  // ------------------------------------------------- what every reason means

  predicate InI32(x: int) {
    0 <= x <= 0x7fff_ffff
  }

  /** The four sizes in range, and the limits in order. */
  predicate SizesFit(valueCount: int, segmentCount: int, warpMax: int, chunk: int) {
    InI32(valueCount) && InI32(segmentCount) && InI32(warpMax) && InI32(chunk)
  }

  predicate LimitsFit(valueCount: int, segmentCount: int, warpMax: int, chunk: int) {
    SizesFit(valueCount, segmentCount, warpMax, chunk) && 0 < warpMax <= chunk
  }

  /** The offset that makes an ordered prefix in range one that is not. */
  ghost predicate FirstBad(offsets: seq<int>, k: nat) {
    k < |offsets| && InRangeAndOrdered(offsets[..k]) && !InRangeAndOrdered(offsets[..k + 1])
  }

  /** When a layout is refused for a reason: the check of the reason fails and every earlier one holds. */
  ghost predicate HasReason(reason: Refusal, offsets: Option<seq<int>>, count: int, valueCount: int, segmentCount: int,
                            warpMax: int, chunk: int) {
    var fit := LimitsFit(valueCount, segmentCount, warpMax, chunk) && count == segmentCount + 1;
    var given := fit && offsets.Some? && |offsets.value| == count;
    match reason
    case ValueCountRange => !InI32(valueCount)
    case SegmentCountRange => InI32(valueCount) && !InI32(segmentCount)
    case WarpMaxRange => InI32(valueCount) && InI32(segmentCount) && !InI32(warpMax)
    case ChunkRange => InI32(valueCount) && InI32(segmentCount) && InI32(warpMax) && !InI32(chunk)
    case WarpMaxZero => SizesFit(valueCount, segmentCount, warpMax, chunk) && warpMax == 0
    case ChunkZero => SizesFit(valueCount, segmentCount, warpMax, chunk) && warpMax > 0 && chunk == 0
    case WarpAboveChunk => SizesFit(valueCount, segmentCount, warpMax, chunk) && warpMax > chunk > 0
    case OffsetCountMismatch => LimitsFit(valueCount, segmentCount, warpMax, chunk) && count != segmentCount + 1
    case NullOffsets => fit && offsets.None?
    case OffsetRange => given && exists k: nat :: FirstBad(offsets.value, k) && !InI32(offsets.value[k])
    case OffsetsDecrease =>
      given && exists k: nat :: FirstBad(offsets.value, k) && InI32(offsets.value[k])
    case NonzeroStart => given && InRangeAndOrdered(offsets.value) && offsets.value[0] != 0
    case EndAboveValueCount =>
      given && InRangeAndOrdered(offsets.value) && offsets.value[0] == 0 && offsets.value[segmentCount] > valueCount
    case DescriptorOverflow =>
      && given && InRangeAndOrdered(offsets.value) && offsets.value[0] == 0
      && offsets.value[segmentCount] <= valueCount
      && segmentCount + PartialTotal(offsets.value, segmentCount, chunk) > 0x7fff_ffff
  }

  lemma {:induction false} FirstBadExists(offsets: seq<int>, n: nat) returns (k: nat)
    requires n <= |offsets| && !InRangeAndOrdered(offsets[..n])
    ensures k < n && FirstBad(offsets, k)
  {
    assert n > 0;
    if InRangeAndOrdered(offsets[..n - 1]) {
      k := n - 1;
    } else {
      k := FirstBadExists(offsets, n - 1);
    }
  }

  lemma FirstBadIsOne(offsets: seq<int>, j: nat, k: nat)
    requires FirstBad(offsets, j) && FirstBad(offsets, k)
    ensures j == k
  {
    if j < k { PrefixIsOrdered(offsets, j + 1, k); }
    if k < j { PrefixIsOrdered(offsets, k + 1, j); }
  }

  lemma PrefixIsOrdered(offsets: seq<int>, j: nat, k: nat)
    requires j <= k <= |offsets| && InRangeAndOrdered(offsets[..k])
    ensures InRangeAndOrdered(offsets[..j])
  {
    assert forall i :: 0 <= i < j ==> offsets[..j][i] == offsets[..k][i];
  }

  /** A walk is refused for the first bad offset. */
  lemma WalkReasons(offsets: seq<int>)
    ensures WalkRefusal(offsets, |offsets|).None? <==> InRangeAndOrdered(offsets)
    ensures WalkRefusal(offsets, |offsets|) == Some(OffsetRange)
       <==> exists k: nat :: FirstBad(offsets, k) && !InI32(offsets[k])
    ensures WalkRefusal(offsets, |offsets|) == Some(OffsetsDecrease)
       <==> exists k: nat :: FirstBad(offsets, k) && InI32(offsets[k])
    ensures WalkRefusal(offsets, |offsets|) in {None, Some(OffsetRange), Some(OffsetsDecrease)}
    ensures (exists k: nat :: FirstBad(offsets, k)) ==> !InRangeAndOrdered(offsets)
  {
    WalkAdmits(offsets, |offsets|);
    assert offsets[..|offsets|] == offsets;
    if InRangeAndOrdered(offsets) {
      forall k: nat ensures !FirstBad(offsets, k) {
        if k < |offsets| { PrefixIsOrdered(offsets, k + 1, |offsets|); }
      }
    } else {
      var first := FirstBadExists(offsets, |offsets|);
      WalkNamesTheFirst(offsets, |offsets|, first);
      forall k: nat | FirstBad(offsets, k) ensures k == first {
        FirstBadIsOne(offsets, k, first);
      }
    }
  }

  /** The ordered checks give the reason of the first check that fails. */
  lemma ReasonIff(reason: Refusal, offsets: seq<int>, valueCount: int, segmentCount: int, warpMax: int, chunk: int)
    ensures Refused(offsets, valueCount, segmentCount, warpMax, chunk) == Some(reason)
       <==> HasReason(reason, Some(offsets), |offsets|, valueCount, segmentCount, warpMax, chunk)
  {
    WalkReasons(offsets);
    hide WalkRefusal, InRangeAndOrdered, FirstBad, PartialTotal;
  }

  // ---------------------------------------------------------------- records

  /** A half-open range of elements. */
  datatype Range = Range(begin: int, end: int)
  /** A merge of the partial results `[first, last)` of one segment. */
  datatype Merge = Merge(segment: nat, first: nat, last: nat)
  /** The records of a layout. `mergeOf` holds the merge index of every partial. */
  datatype Plan = Plan(warp: seq<nat>, cta: seq<nat>, partials: seq<Range>, merges: seq<Merge>, mergeOf: seq<nat>)

  /** The ranges of at most `chunk` elements that follow one another over `[begin, end)`. */
  function Chunks(begin: int, end: int, chunk: nat): seq<Range>
    requires chunk > 0
    decreases end - begin
  {
    if begin >= end then []
    else [Range(begin, if begin + chunk < end then begin + chunk else end)] + Chunks(begin + chunk, end, chunk)
  }

  function Repeat(value: nat, count: nat): seq<nat> {
    seq(count, _ => value)
  }

  /** Adds the records of segment `s`, which holds `[begin, end)`. */
  function AddSegment(p: Plan, s: nat, begin: int, end: int, warpMax: int, chunk: nat): Plan
    requires chunk > 0
  {
    if end - begin <= warpMax then p.(warp := p.warp + [s])
    else if end - begin <= chunk then p.(cta := p.cta + [s])
    else
      var chunks := Chunks(begin, end, chunk);
      p.(partials := p.partials + chunks,
         merges := p.merges + [Merge(s, |p.partials|, |p.partials| + |chunks|)],
         mergeOf := p.mergeOf + Repeat(|p.merges|, |chunks|))
  }

  /** The records of the first `n` segments. */
  function PlanOf(offsets: seq<int>, n: nat, warpMax: int, chunk: nat): Plan
    requires n < |offsets| && chunk > 0
  {
    if n == 0 then Plan([], [], [], [], [])
    else AddSegment(PlanOf(offsets, n - 1, warpMax, chunk), n - 1, offsets[n - 1], offsets[n], warpMax, chunk)
  }

  function FlatRanges(ranges: seq<Range>): (flat: seq<int>)
    ensures |flat| == 2 * |ranges|
  {
    if ranges == [] then []
    else FlatRanges(ranges[..|ranges| - 1]) + [ranges[|ranges| - 1].begin, ranges[|ranges| - 1].end]
  }

  function FlatMerges(merges: seq<Merge>): (flat: seq<int>)
    ensures |flat| == 3 * |merges|
  {
    if merges == [] then []
    else
      var m := merges[|merges| - 1];
      FlatMerges(merges[..|merges| - 1]) + [m.segment, m.first, m.last]
  }

  /** The one-buffer layout of the records. */
  function Flat(p: Plan): seq<int> {
    p.warp + p.cta + FlatRanges(p.partials) + FlatMerges(p.merges) + p.mergeOf
  }

  function FlatSize(p: Plan): nat {
    |p.warp| + |p.cta| + 3 * |p.partials| + 3 * |p.merges|
  }

  lemma FlatRangesSnoc(ranges: seq<Range>, r: Range)
    ensures FlatRanges(ranges + [r]) == FlatRanges(ranges) + [r.begin, r.end]
  {
    assert (ranges + [r])[..|ranges|] == ranges;
  }

  lemma FlatMergesSnoc(merges: seq<Merge>, m: Merge)
    ensures FlatMerges(merges + [m]) == FlatMerges(merges) + [m.segment, m.first, m.last]
  {
    assert (merges + [m])[..|merges|] == merges;
  }

  // --------------------------------------------- what the records cover

  lemma DivStep(x: nat, c: nat)
    requires 0 < c <= x
    ensures x / c == (x - c) / c + 1 && x % c == (x - c) % c
  {
    var q, r := (x - c) / c, (x - c) % c;
    assert x == c * (q + 1) + r;
    QuotientUnique(x, c, q + 1, r);
  }

  /** The division counts the chunks, and every chunk but the last is full. */
  lemma {:induction false} ChunksCovered(begin: int, end: int, chunk: nat)
    requires chunk > 0 && begin <= end
    ensures |Chunks(begin, end, chunk)| == ChunkCount(end - begin, chunk)
    ensures forall i :: 0 <= i < |Chunks(begin, end, chunk)| ==>
              var c := Chunks(begin, end, chunk)[i];
              begin <= c.begin < c.end <= end && c.end - c.begin <= chunk
    decreases end - begin
  {
    if begin < end {
      if begin + chunk <= end {
        DivStep(end - begin, chunk);
        ChunksCovered(begin + chunk, end, chunk);
      } else {
        QuotientUnique(end - begin, chunk, 0, end - begin);
        assert Chunks(begin + chunk, end, chunk) == [];
      }
    }
  }

  /** The chunks follow one another without a gap from the first element to the last, and only the last may be short. */
  lemma {:induction false} ChunksAdjoin(begin: int, end: int, chunk: nat)
    requires chunk > 0 && begin < end
    ensures var c := Chunks(begin, end, chunk);
            && |c| > 0 && c[0].begin == begin && c[|c| - 1].end == end
            && forall i :: 0 <= i < |c| - 1 ==> c[i].end == c[i + 1].begin && c[i].end - c[i].begin == chunk
    decreases end - begin
  {
    var c, rest := Chunks(begin, end, chunk), Chunks(begin + chunk, end, chunk);
    if begin + chunk < end {
      ChunksAdjoin(begin + chunk, end, chunk);
      assert forall i :: 0 <= i < |rest| ==> c[i + 1] == rest[i];
      forall i | 0 <= i < |c| - 1 ensures c[i].end == c[i + 1].begin && c[i].end - c[i].begin == chunk {
        assert i > 0 ==> c[i] == rest[i - 1];
        assert i > 0 ==> c[i + 1] == rest[i];
      }
    }
  }

  lemma ChunkCountBound(length: nat, chunk: nat)
    requires chunk > 0
    ensures ChunkCount(length, chunk) <= length
  {
    var q, r := length / chunk, length % chunk;
    assert length == chunk * q + r;
    ProductBound(chunk, q);
  }

  lemma ProductBound(c: nat, q: nat)
    requires c > 0
    ensures c * q >= q
  {
  }

  /** A chunk holds an element, so there are no more partial tasks than elements. */
  lemma {:induction false} PartialTotalBound(offsets: seq<int>, n: nat, chunk: nat)
    requires n < |offsets| && chunk > 0 && Nondecreasing(offsets)
    ensures PartialTotal(offsets, n, chunk) <= offsets[n] - offsets[0]
  {
    if n > 0 {
      PartialTotalBound(offsets, n - 1, chunk);
      assert offsets[n - 1] <= offsets[n];
      ChunkCountBound(offsets[n] - offsets[n - 1], chunk);
    }
  }

  lemma {:induction false} PartialTotalMonotone(offsets: seq<int>, k: nat, n: nat, chunk: nat)
    requires k <= n < |offsets| && chunk > 0
    ensures PartialTotal(offsets, k, chunk) <= PartialTotal(offsets, n, chunk)
    decreases n
  {
    if k < n { PartialTotalMonotone(offsets, k, n - 1, chunk); }
  }

  /** The list sizes of a prefix: one record per segment, and the counted partials. */
  lemma {:induction false} PlanSizes(offsets: seq<int>, n: nat, warpMax: int, chunk: nat)
    requires n < |offsets| && 0 < warpMax <= chunk && Nondecreasing(offsets)
    ensures var p := PlanOf(offsets, n, warpMax, chunk);
            && |p.warp| + |p.cta| + |p.merges| == n
            && |p.partials| == |p.mergeOf| == PartialTotal(offsets, n, chunk)
  {
    if n > 0 {
      PlanSizes(offsets, n - 1, warpMax, chunk);
      assert offsets[n - 1] <= offsets[n];
      ChunksCovered(offsets[n - 1], offsets[n], chunk);
    }
  }

  lemma {:induction false} PlanGrows(offsets: seq<int>, k: nat, n: nat, warpMax: int, chunk: nat)
    requires k <= n < |offsets| && chunk > 0
    ensures var p, q := PlanOf(offsets, k, warpMax, chunk), PlanOf(offsets, n, warpMax, chunk);
            p.warp <= q.warp && p.cta <= q.cta && p.partials <= q.partials && p.merges <= q.merges
            && p.mergeOf <= q.mergeOf
    decreases n
  {
    if k < n { PlanGrows(offsets, k, n - 1, warpMax, chunk); }
  }

  // ------------------------------------------- the records partition the layout

  predicate InRange(r: Range, x: int) {
    r.begin <= x < r.end
  }

  /** How many of the ranges hold an element. */
  function RangesHolding(ranges: seq<Range>, x: int): nat {
    if ranges == [] then 0
    else RangesHolding(ranges[..|ranges| - 1], x) + if InRange(ranges[|ranges| - 1], x) then 1 else 0
  }

  predicate SegmentHolds(offsets: seq<int>, s: nat, x: int) {
    s + 1 < |offsets| && offsets[s] <= x < offsets[s + 1]
  }

  /** How many of the listed segments hold an element. */
  function SegmentsHolding(ids: seq<nat>, offsets: seq<int>, x: int): nat {
    if ids == [] then 0
    else SegmentsHolding(ids[..|ids| - 1], offsets, x) + if SegmentHolds(offsets, ids[|ids| - 1], x) then 1 else 0
  }

  /** How many of the warp segments, CTA segments and partial ranges hold an element. */
  function PlanHolding(p: Plan, offsets: seq<int>, x: int): nat {
    SegmentsHolding(p.warp, offsets, x) + SegmentsHolding(p.cta, offsets, x) + RangesHolding(p.partials, x)
  }

  lemma {:induction false} RangesHoldingConcat(a: seq<Range>, b: seq<Range>, x: int)
    ensures RangesHolding(a + b, x) == RangesHolding(a, x) + RangesHolding(b, x)
  {
    if b == [] {
      assert a + b == a;
    } else {
      assert (a + b)[..|a + b| - 1] == a + b[..|b| - 1];
      RangesHoldingConcat(a, b[..|b| - 1], x);
    }
  }

  /** The chunks of a segment hold each of its elements once, and no other. */
  lemma {:induction false} ChunksHoldOnce(begin: int, end: int, chunk: nat, x: int)
    requires chunk > 0
    ensures RangesHolding(Chunks(begin, end, chunk), x) == if begin <= x < end then 1 else 0
    decreases end - begin
  {
    if begin < end {
      var first, rest := Chunks(begin, end, chunk)[0], Chunks(begin + chunk, end, chunk);
      ChunksHoldOnce(begin + chunk, end, chunk, x);
      RangesHoldingConcat([first], rest, x);
      assert [first][..0] == [];
    }
  }

  /** The list that a segment of some length belongs to. */
  datatype Kind = WarpWork | CtaWork | SplitWork

  function KindOf(length: int, warpMax: int, chunk: int): Kind {
    if length <= warpMax then WarpWork else if length <= chunk then CtaWork else SplitWork
  }

  function MergeIds(merges: seq<Merge>): (ids: seq<nat>)
    ensures |ids| == |merges|
  {
    seq(|merges|, i requires 0 <= i < |merges| => merges[i].segment)
  }

  ghost predicate Ascending(ids: seq<nat>) {
    forall i, j :: 0 <= i < j < |ids| ==> ids[i] < ids[j]
  }

  ghost predicate IsListed(s: nat, ids: seq<nat>) {
    s in ids
  }

  /** The ids of the segments before `n` of one kind, in ascending order and no others. */
  ghost predicate ListsKind(ids: seq<nat>, offsets: seq<int>, n: nat, warpMax: int, chunk: int, k: Kind)
    requires n < |offsets|
  {
    && Ascending(ids)
    && (forall i :: 0 <= i < |ids| ==> ids[i] < n)
    && forall s: nat :: s < n ==> (IsListed(s, ids) <==> IsOfKind(offsets, s, warpMax, chunk, k))
  }

  predicate IsOfKind(offsets: seq<int>, s: nat, warpMax: int, chunk: int, k: Kind)
    requires s + 1 < |offsets|
  {
    KindOf(offsets[s + 1] - offsets[s], warpMax, chunk) == k
  }

  lemma ListGrows(ids: seq<nat>, offsets: seq<int>, n: nat, warpMax: int, chunk: int, k: Kind)
    requires n + 1 < |offsets| && ListsKind(ids, offsets, n, warpMax, chunk, k)
    ensures var longer := if IsOfKind(offsets, n, warpMax, chunk, k) then ids + [n] else ids;
            ListsKind(longer, offsets, n + 1, warpMax, chunk, k)
  {
    hide IsOfKind;
    assert !IsListed(n, ids);
    var longer := ids + [n];
    assert IsListed(n, longer);
    assert forall s: nat :: s < n ==> (IsListed(s, longer) <==> IsListed(s, ids));
  }

  /** Each of the three lists of segments holds those of its kind. */
  ghost predicate ListsSegments(p: Plan, offsets: seq<int>, n: nat, warpMax: int, chunk: int)
    requires n < |offsets|
  {
    && ListsKind(p.warp, offsets, n, warpMax, chunk, WarpWork)
    && ListsKind(p.cta, offsets, n, warpMax, chunk, CtaWork)
    && ListsKind(MergeIds(p.merges), offsets, n, warpMax, chunk, SplitWork)
  }

  lemma AddedIsListed(p: Plan, offsets: seq<int>, n: nat, warpMax: int, chunk: nat)
    requires n + 1 < |offsets| && chunk > 0 && ListsSegments(p, offsets, n, warpMax, chunk)
    ensures ListsSegments(AddSegment(p, n, offsets[n], offsets[n + 1], warpMax, chunk), offsets, n + 1, warpMax, chunk)
  {
    ListGrows(p.warp, offsets, n, warpMax, chunk, WarpWork);
    ListGrows(p.cta, offsets, n, warpMax, chunk, CtaWork);
    ListGrows(MergeIds(p.merges), offsets, n, warpMax, chunk, SplitWork);
    hide ListsKind, Chunks;
    var q := AddSegment(p, n, offsets[n], offsets[n + 1], warpMax, chunk);
    assert IsOfKind(offsets, n, warpMax, chunk, SplitWork) ==> MergeIds(q.merges) == MergeIds(p.merges) + [n];
  }

  /** Every segment is in exactly one of the warp, CTA and merge lists, the one of its length, and each list ascends. */
  lemma {:induction false} PlanListsEverySegment(offsets: seq<int>, n: nat, warpMax: int, chunk: nat)
    requires n < |offsets| && chunk > 0
    ensures ListsSegments(PlanOf(offsets, n, warpMax, chunk), offsets, n, warpMax, chunk)
  {
    if n > 0 {
      PlanListsEverySegment(offsets, n - 1, warpMax, chunk);
      AddedIsListed(PlanOf(offsets, n - 1, warpMax, chunk), offsets, n - 1, warpMax, chunk);
      hide ListsSegments, AddSegment;
    }
  }

  lemma SegmentsHoldingSnoc(ids: seq<nat>, s: nat, offsets: seq<int>, x: int)
    ensures SegmentsHolding(ids + [s], offsets, x)
         == SegmentsHolding(ids, offsets, x) + if SegmentHolds(offsets, s, x) then 1 else 0
  {
    assert (ids + [s])[..|ids|] == ids;
  }

  lemma AddedIsHeld(p: Plan, offsets: seq<int>, n: nat, warpMax: int, chunk: nat, x: int)
    requires n + 1 < |offsets| && chunk > 0
    ensures PlanHolding(AddSegment(p, n, offsets[n], offsets[n + 1], warpMax, chunk), offsets, x)
         == PlanHolding(p, offsets, x) + if SegmentHolds(offsets, n, x) then 1 else 0
  {
    SegmentsHoldingSnoc(p.warp, n, offsets, x);
    SegmentsHoldingSnoc(p.cta, n, offsets, x);
    ChunksHoldOnce(offsets[n], offsets[n + 1], chunk, x);
    RangesHoldingConcat(p.partials, Chunks(offsets[n], offsets[n + 1], chunk), x);
    hide Chunks, RangesHolding, SegmentsHolding;
  }

  /**
   Every element of the layout is in exactly one warp segment, CTA segment or
   partial range, and no other element is in any.
  */
  lemma {:induction false} PlanHoldsEveryElementOnce(offsets: seq<int>, n: nat, warpMax: int, chunk: nat, x: int)
    requires n < |offsets| && chunk > 0 && Nondecreasing(offsets)
    ensures PlanHolding(PlanOf(offsets, n, warpMax, chunk), offsets, x) == if offsets[0] <= x < offsets[n] then 1 else 0
  {
    if n > 0 {
      PlanHoldsEveryElementOnce(offsets, n - 1, warpMax, chunk, x);
      assert offsets[0] <= offsets[n - 1] <= offsets[n];
      AddedIsHeld(PlanOf(offsets, n - 1, warpMax, chunk), offsets, n - 1, warpMax, chunk, x);
      hide PlanHolding, AddSegment, Nondecreasing;
    }
  }

  /** A merge holds a scratch slot. */
  predicate HoldsSlot(m: Merge, q: nat) {
    m.first <= q < m.last
  }

  /** Merge `m` holds a slot exactly when the merge index of the slot is `m`. */
  predicate HoldsItsSlot(merges: seq<Merge>, mergeOf: seq<nat>, m: nat, q: nat)
    requires m < |merges|
  {
    HoldsSlot(merges[m], q) <==> q < |mergeOf| && mergeOf[q] == m
  }

  /** The merge index of a slot names the merge that holds it, and no other merge holds it. */
  ghost predicate NamesItsMerge(merges: seq<Merge>, mergeOf: seq<nat>) {
    && (forall q :: 0 <= q < |mergeOf| ==> mergeOf[q] < |merges|)
    && forall m: nat, q: nat :: m < |merges| ==> HoldsItsSlot(merges, mergeOf, m, q)
  }

  lemma AddedMergeIsNamed(merges: seq<Merge>, mergeOf: seq<nat>, s: nat, k: nat)
    requires NamesItsMerge(merges, mergeOf)
    ensures NamesItsMerge(merges + [Merge(s, |mergeOf|, |mergeOf| + k)], mergeOf + Repeat(|merges|, k))
  {
    var added, named := merges + [Merge(s, |mergeOf|, |mergeOf| + k)], mergeOf + Repeat(|merges|, k);
    assert |named| == |mergeOf| + k;
    forall m: nat, q: nat | m < |added| ensures HoldsItsSlot(added, named, m, q) {
      assert q < |mergeOf| ==> named[q] == mergeOf[q];
      assert |mergeOf| <= q < |named| ==> named[q] == |merges|;
      assert m < |merges| ==> added[m] == merges[m] && HoldsItsSlot(merges, mergeOf, m, q);
    }
  }

  /**
   The merge index of a partial task names the one merge whose range holds it, so
   the ranges partition the scratch slots.
  */
  lemma {:induction false} MergeOfHolds(offsets: seq<int>, n: nat, warpMax: int, chunk: nat)
    requires n < |offsets| && chunk > 0
    ensures var p := PlanOf(offsets, n, warpMax, chunk);
            |p.mergeOf| == |p.partials| && NamesItsMerge(p.merges, p.mergeOf)
  {
    if n > 0 {
      MergeOfHolds(offsets, n - 1, warpMax, chunk);
      var p := PlanOf(offsets, n - 1, warpMax, chunk);
      AddedMergeIsNamed(p.merges, p.mergeOf, n - 1, |Chunks(offsets[n - 1], offsets[n], chunk)|);
      hide Chunks, NamesItsMerge;
    }
  }
}
