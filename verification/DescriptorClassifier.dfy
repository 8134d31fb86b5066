/**
 The compiler's descriptor classifier, and the regrouping of its descriptors by
 policy and stage that the flat records are checked against.
 */
module DescriptorClassifier {
  import opened Int32
  import opened Wrappers
  import opened TaskPlan

  datatype Policy = Warp | Cta
  datatype Descriptor = Descriptor(segment: int, begin: int, end: int, stage: int, policy: Policy, group: int)

  // ------------------------------------------------------- what is emitted

  function DirectTask(s: nat, begin: int, end: int, warpMax: int): Descriptor {
    Descriptor(s, begin, end, 0, if end - begin <= warpMax then Warp else Cta, s)
  }

  function PartialTasks(s: nat, chunks: seq<Range>): seq<Descriptor> {
    seq(|chunks|, i requires 0 <= i < |chunks| => Descriptor(s, chunks[i].begin, chunks[i].end, 0, Cta, s))
  }

  function MergeTask(m: Merge): Descriptor {
    Descriptor(m.segment, m.first, m.last, 1, Cta, m.segment)
  }

  function MergeTasks(merges: seq<Merge>): seq<Descriptor> {
    seq(|merges|, i requires 0 <= i < |merges| => MergeTask(merges[i]))
  }

  /** The stage-zero descriptors of one segment. */
  function SegmentTasks(s: nat, begin: int, end: int, warpMax: int, chunk: nat): seq<Descriptor>
    requires chunk > 0
  {
    if end - begin <= chunk then [DirectTask(s, begin, end, warpMax)] else PartialTasks(s, Chunks(begin, end, chunk))
  }

  /** The stage-zero descriptors of the first `n` segments. */
  function StageZero(offsets: seq<int>, n: nat, warpMax: int, chunk: nat): seq<Descriptor>
    requires n < |offsets| && chunk > 0
  {
    if n == 0 then []
    else StageZero(offsets, n - 1, warpMax, chunk) + SegmentTasks(n - 1, offsets[n - 1], offsets[n], warpMax, chunk)
  }

  /** All stage-zero work comes before every merge. */
  function Descriptors(offsets: seq<int>, n: nat, warpMax: int, chunk: nat): seq<Descriptor>
    requires n < |offsets| && chunk > 0
  {
    StageZero(offsets, n, warpMax, chunk) + MergeTasks(PlanOf(offsets, n, warpMax, chunk).merges)
  }

  // --------------------------------------------------------- the classifier

  method ValidateOffsets(offsets: seq<int>, valueCount: int, segmentCount: int) returns (r: Option<Refusal>)
    requires 0 <= segmentCount
    ensures r == if |offsets| != segmentCount + 1 then Some(OffsetCountMismatch)
                 else if WalkRefusal(offsets, |offsets|).Some? then WalkRefusal(offsets, |offsets|)
                 else if offsets[0] != 0 then Some(NonzeroStart)
                 else if offsets[segmentCount] > valueCount then Some(EndAboveValueCount)
                 else None
  {
    if |offsets| != segmentCount + 1 { return Some(OffsetCountMismatch); }
    var previous := 0;
    for i := 0 to |offsets|
      invariant WalkRefusal(offsets, i).None?
      invariant previous == if i == 0 then 0 else offsets[i - 1]
    {
      if OutsideI32(offsets[i]) {
        WalkStops(offsets, i + 1, |offsets|);
        return Some(OffsetRange);
      }
      if offsets[i] < previous {
        WalkStops(offsets, i + 1, |offsets|);
        return Some(OffsetsDecrease);
      }
      previous := offsets[i];
    }
    if offsets[0] != 0 { return Some(NonzeroStart); }
    if offsets[|offsets| - 1] > valueCount { return Some(EndAboveValueCount); }
    return None;
  }

  /** Counts before anything is allocated, and stops at the first sum above i32. */
  method CountDescriptors(offsets: seq<int>, segmentCount: int, warpMax: int, chunk: int) returns (r: Option<Refusal>)
    requires 0 <= segmentCount < |offsets| && 0 < warpMax <= chunk && InRangeAndOrdered(offsets)
    ensures r == if segmentCount + PartialTotal(offsets, segmentCount, chunk) > I32_MAX
                 then Some(DescriptorOverflow) else None
  {
    var stageZero, merges := 0, 0;
    for segment := 0 to segmentCount
      invariant stageZero + merges == segment + PartialTotal(offsets, segment, chunk) <= I32_MAX
    {
      var length := offsets[segment + 1] - offsets[segment];
      assert offsets[segment] <= offsets[segment + 1];
      var taskCount := 1;
      if length > chunk {
        taskCount := length / chunk + if length % chunk != 0 then 1 else 0;
        merges := merges + 1;
      }
      stageZero := stageZero + taskCount;
      PartialTotalMonotone(offsets, segment + 1, segmentCount, chunk);
      if stageZero + merges > I32_MAX { return Some(DescriptorOverflow); }
    }
    return None;
  }

  /** Appends the partial descriptors of one split segment and its merge. */
  method AppendSplitTasks(tasks: seq<Descriptor>, merges: seq<Descriptor>, segment: nat, begin: int, end: int,
                          chunk: nat, scratch: nat)
    returns (tasks': seq<Descriptor>, merges': seq<Descriptor>, scratch': nat)
    requires chunk > 0
    ensures var chunks := Chunks(begin, end, chunk);
            && tasks' == tasks + PartialTasks(segment, chunks)
            && merges' == merges + [MergeTask(Merge(segment, scratch, scratch + |chunks|))]
            && scratch' == scratch + |chunks|
  {
    tasks', scratch' := tasks, scratch;
    ghost var chunks := Chunks(begin, end, chunk);
    ghost var done := 0;
    var chunkBegin := begin;
    while chunkBegin < end
      invariant done <= |chunks| && chunks[done..] == Chunks(chunkBegin, end, chunk)
      invariant scratch' == scratch + done && tasks' == tasks + PartialTasks(segment, chunks[..done])
      decreases end - chunkBegin
    {
      var chunkEnd := if chunkBegin + chunk < end then chunkBegin + chunk else end;
      assert chunks[done] == chunks[done..][0] && chunks[done + 1..] == chunks[done..][1..];
      assert chunks[..done + 1] == chunks[..done] + [chunks[done]];
      PartialTasksSnoc(segment, chunks[..done], chunks[done]);
      tasks' := tasks' + [Descriptor(segment, chunkBegin, chunkEnd, 0, Cta, segment)];
      scratch' := scratch' + 1;
      done := done + 1;
      chunkBegin := chunkBegin + chunk;
    }
    assert chunks[..done] == chunks;
    merges' := merges + [Descriptor(segment, scratch, scratch', 1, Cta, segment)];
  }

  lemma PartialTasksSnoc(s: nat, chunks: seq<Range>, r: Range)
    ensures PartialTasks(s, chunks + [r]) == PartialTasks(s, chunks) + [Descriptor(s, r.begin, r.end, 0, Cta, s)]
  {
  }

  lemma MergeTasksSnoc(merges: seq<Merge>, m: Merge)
    ensures MergeTasks(merges + [m]) == MergeTasks(merges) + [MergeTask(m)]
  {
  }

  /** Appends the descriptors of one segment. */
  method AppendTasks(tasks: seq<Descriptor>, merges: seq<Descriptor>, scratch: nat, ghost p: Plan,
                     segment: nat, begin: int, end: int, warpMax: int, chunk: int)
    returns (tasks': seq<Descriptor>, merges': seq<Descriptor>, scratch': nat)
    requires 0 < warpMax <= chunk && begin <= end
    requires merges == MergeTasks(p.merges) && scratch == |p.partials|
    ensures tasks' == tasks + SegmentTasks(segment, begin, end, warpMax, chunk)
    ensures var q := AddSegment(p, segment, begin, end, warpMax, chunk);
            merges' == MergeTasks(q.merges) && scratch' == |q.partials|
  {
    tasks', merges', scratch' := tasks, merges, scratch;
    if end - begin <= chunk {
      tasks' := tasks + [DirectTask(segment, begin, end, warpMax)];
    } else {
      MergeTasksSnoc(p.merges, Merge(segment, scratch, scratch + |Chunks(begin, end, chunk)|));
      tasks', merges', scratch' := AppendSplitTasks(tasks, merges, segment, begin, end, chunk, scratch);
    }
    hide Chunks, MergeTasks, PartialTasks, MergeTask;
  }

  method MaterializeTasks(offsets: seq<int>, segmentCount: int, warpMax: int, chunk: int)
    returns (tasks: seq<Descriptor>)
    requires 0 <= segmentCount < |offsets| && 0 < warpMax <= chunk && Nondecreasing(offsets)
    ensures tasks == Descriptors(offsets, segmentCount, warpMax, chunk)
  {
    tasks := [];
    var merges: seq<Descriptor> := [];
    var scratch := 0;
    assert MergeTasks([]) == [];
    for segment := 0 to segmentCount
      invariant tasks == StageZero(offsets, segment, warpMax, chunk)
      invariant merges == MergeTasks(PlanOf(offsets, segment, warpMax, chunk).merges)
      invariant scratch == |PlanOf(offsets, segment, warpMax, chunk).partials|
    {
      hide SegmentTasks, MergeTasks, AddSegment;
      tasks, merges, scratch := AppendTasks(tasks, merges, scratch, PlanOf(offsets, segment, warpMax, chunk),
                                            segment, offsets[segment], offsets[segment + 1], warpMax, chunk);
    }
    tasks := tasks + merges;
  }

  method ClassifyTasks(offsets: seq<int>, valueCount: int, segmentCount: int, warpMax: int, chunk: int)
    returns (r: Result<seq<Descriptor>, Refusal>)
    ensures match Refused(offsets, valueCount, segmentCount, warpMax, chunk)
            case Some(reason) => r == Err(reason)
            case None =>
              && 0 <= segmentCount < |offsets| && chunk > 0
              && r == Ok(Descriptors(offsets, segmentCount, warpMax, chunk))
    ensures forall why ::
              r == Err(why) <==> HasReason(why, Some(offsets), |offsets|, valueCount, segmentCount, warpMax, chunk)
  {
    forall why {
      ReasonIff(why, offsets, valueCount, segmentCount, warpMax, chunk);
    }
    hide HasReason;
    var sizes := SizeRefusal(valueCount, segmentCount, warpMax, chunk);
    if sizes.Some? { return Err(sizes.value); }
    var invalid := ValidateOffsets(offsets, valueCount, segmentCount);
    if invalid.Some? { return Err(invalid.value); }
    WalkAdmits(offsets, |offsets|);
    assert offsets[..|offsets|] == offsets;
    var overflow := CountDescriptors(offsets, segmentCount, warpMax, chunk);
    if overflow.Some? { return Err(overflow.value); }
    var tasks := MaterializeTasks(offsets, segmentCount, warpMax, chunk);
    return Ok(tasks);
  }

  /** A direct descriptor of a short segment, or one chunk of a longer one. */
  ghost predicate IsStageZero(d: Descriptor, offsets: seq<int>, n: nat, warpMax: int, chunk: nat)
    requires n < |offsets| && chunk > 0
  {
    && 0 <= d.segment < n && d.group == d.segment && d.stage == 0
    && var begin, end := offsets[d.segment], offsets[d.segment + 1];
       if end - begin > chunk then d.policy == Cta && Range(d.begin, d.end) in Chunks(begin, end, chunk)
       else d.begin == begin && d.end == end && (d.policy == Warp <==> end - begin <= warpMax)
  }

  lemma SegmentTaskIs(offsets: seq<int>, n: nat, warpMax: int, chunk: nat, i: nat)
    requires 0 < n < |offsets| && chunk > 0
    requires i < |SegmentTasks(n - 1, offsets[n - 1], offsets[n], warpMax, chunk)|
    ensures IsStageZero(SegmentTasks(n - 1, offsets[n - 1], offsets[n], warpMax, chunk)[i], offsets, n, warpMax, chunk)
  {
    var chunks := Chunks(offsets[n - 1], offsets[n], chunk);
    hide Chunks;
    if offsets[n] - offsets[n - 1] > chunk {
      assert chunks[i] in chunks;
    }
  }

  lemma {:induction false} StageZeroIs(offsets: seq<int>, n: nat, warpMax: int, chunk: nat, t: nat)
    requires n < |offsets| && chunk > 0 && t < |StageZero(offsets, n, warpMax, chunk)|
    ensures IsStageZero(StageZero(offsets, n, warpMax, chunk)[t], offsets, n, warpMax, chunk)
  {
    hide IsStageZero, SegmentTasks, StageZero;
    StageZeroAt(offsets, n, warpMax, chunk, t);
    var before := StageZero(offsets, n - 1, warpMax, chunk);
    if t < |before| {
      StageZeroIs(offsets, n - 1, warpMax, chunk, t);
      EarlierStageZero(before[t], offsets, n, warpMax, chunk);
    } else {
      SegmentTaskIs(offsets, n, warpMax, chunk, t - |before|);
    }
  }

  lemma StageZeroAt(offsets: seq<int>, n: nat, warpMax: int, chunk: nat, t: nat)
    requires n < |offsets| && chunk > 0 && t < |StageZero(offsets, n, warpMax, chunk)|
    ensures n > 0
    ensures var before, next := StageZero(offsets, n - 1, warpMax, chunk),
                                SegmentTasks(n - 1, offsets[n - 1], offsets[n], warpMax, chunk);
            && |StageZero(offsets, n, warpMax, chunk)| == |before| + |next|
            && StageZero(offsets, n, warpMax, chunk)[t] == if t < |before| then before[t] else next[t - |before|]
  {
    hide SegmentTasks;
  }

  lemma EarlierStageZero(d: Descriptor, offsets: seq<int>, n: nat, warpMax: int, chunk: nat)
    requires 0 < n < |offsets| && chunk > 0 && IsStageZero(d, offsets, n - 1, warpMax, chunk)
    ensures IsStageZero(d, offsets, n, warpMax, chunk)
  {
    hide Chunks;
  }

  /**
   Every descriptor is grouped by its segment. Stage zero has the direct tasks and
   the chunks, stage one the merges of the plan, each run by a CTA.
  */
  lemma DescriptorIs(offsets: seq<int>, n: nat, warpMax: int, chunk: nat, t: nat)
    requires n < |offsets| && chunk > 0 && t < |Descriptors(offsets, n, warpMax, chunk)|
    ensures var d, count := Descriptors(offsets, n, warpMax, chunk)[t], |StageZero(offsets, n, warpMax, chunk)|;
            if t < count then IsStageZero(d, offsets, n, warpMax, chunk)
            else
              && d.stage == 1 && d.policy == Cta && d.group == d.segment
              && var merges := PlanOf(offsets, n, warpMax, chunk).merges;
                 && t - count < |merges| && d.segment == merges[t - count].segment
                 && d.begin == merges[t - count].first && d.end == merges[t - count].last
  {
    hide StageZero, IsStageZero, PlanOf, MergeTasks, MergeTask;
    var tasks, merges := StageZero(offsets, n, warpMax, chunk), PlanOf(offsets, n, warpMax, chunk).merges;
    if t < |tasks| {
      StageZeroIs(offsets, n, warpMax, chunk, t);
    } else {
      MergeTaskAt(tasks, merges, t);
    }
  }

  lemma MergeTaskAt(tasks: seq<Descriptor>, merges: seq<Merge>, t: nat)
    requires |tasks| <= t < |tasks + MergeTasks(merges)|
    ensures var d := (tasks + MergeTasks(merges))[t];
            && d.stage == 1 && d.policy == Cta && d.group == d.segment
            && t - |tasks| < |merges| && d.segment == merges[t - |tasks|].segment
            && d.begin == merges[t - |tasks|].first && d.end == merges[t - |tasks|].last
  {
  }

  // --------------------------------------------------------------- regroup

  /** The four record lists, flat, as vectors of i32 hold them. */
  datatype Groups = Groups(warp: seq<int>, cta: seq<int>, partial: seq<int>, merge: seq<int>)

  /** The segments that have a merge descriptor. */
  function SplitIds(tasks: seq<Descriptor>): seq<int> {
    if tasks == [] then []
    else
      var last := tasks[|tasks| - 1];
      SplitIds(tasks[..|tasks| - 1]) + if last.stage == 1 then [last.segment] else []
  }

  predicate Listed(segment: int, split: seq<int>) {
    segment in split
  }

  function AddTask(g: Groups, task: Descriptor, split: seq<int>): Groups {
    if task.stage == 1 then g.(merge := g.merge + [task.segment, task.begin, task.end])
    else if task.policy == Warp then g.(warp := g.warp + [task.segment])
    else if Listed(task.segment, split) then g.(partial := g.partial + [task.begin, task.end])
    else g.(cta := g.cta + [task.segment])
  }

  function Grouped(tasks: seq<Descriptor>, split: seq<int>): Groups {
    if tasks == [] then Groups([], [], [], [])
    else AddTask(Grouped(tasks[..|tasks| - 1], split), tasks[|tasks| - 1], split)
  }

  method Regroup(tasks: seq<Descriptor>) returns (g: Groups)
    ensures g == Grouped(tasks, SplitIds(tasks))
  {
    var split: seq<int> := [];
    for i := 0 to |tasks|
      invariant split == SplitIds(tasks[..i])
    {
      assert tasks[..i + 1][..i] == tasks[..i];
      if tasks[i].stage == 1 { split := split + [tasks[i].segment]; }
    }
    assert tasks[..|tasks|] == tasks;
    g := Groups([], [], [], []);
    for i := 0 to |tasks|
      invariant g == Grouped(tasks[..i], split)
    {
      assert tasks[..i + 1][..i] == tasks[..i];
      g := AddTask(g, tasks[i], split);
    }
  }

  lemma GroupedSnoc(tasks: seq<Descriptor>, task: Descriptor, split: seq<int>)
    ensures Grouped(tasks + [task], split) == AddTask(Grouped(tasks, split), task, split)
    ensures SplitIds(tasks + [task]) == SplitIds(tasks) + if task.stage == 1 then [task.segment] else []
  {
    assert (tasks + [task])[..|tasks|] == tasks;
  }

  lemma {:induction false} PartialsGroup(tasks: seq<Descriptor>, s: nat, chunks: seq<Range>, split: seq<int>)
    requires Listed(s, split)
    ensures var g := Grouped(tasks, split);
            Grouped(tasks + PartialTasks(s, chunks), split) == g.(partial := g.partial + FlatRanges(chunks))
    ensures SplitIds(tasks + PartialTasks(s, chunks)) == SplitIds(tasks)
  {
    if chunks == [] {
      assert tasks + PartialTasks(s, []) == tasks && FlatRanges([]) == [];
    } else {
      var init, last := chunks[..|chunks| - 1], chunks[|chunks| - 1];
      var task := Descriptor(s, last.begin, last.end, 0, Cta, s);
      PartialsGroup(tasks, s, init, split);
      PartialTasksSnoc(s, init, last);
      FlatRangesSnoc(init, last);
      GroupedSnoc(tasks + PartialTasks(s, init), task, split);
      assert chunks == init + [last];
      assert tasks + PartialTasks(s, chunks) == tasks + PartialTasks(s, init) + [task];
    }
    hide Grouped, SplitIds, FlatRanges, PartialTasks;
  }

  lemma {:induction false} MergesGroup(tasks: seq<Descriptor>, merges: seq<Merge>, split: seq<int>)
    ensures var g := Grouped(tasks, split);
            Grouped(tasks + MergeTasks(merges), split) == g.(merge := g.merge + FlatMerges(merges))
    ensures SplitIds(tasks + MergeTasks(merges)) == SplitIds(tasks) + Segments(merges)
  {
    if merges == [] {
      assert tasks + MergeTasks(merges) == tasks && FlatMerges([]) == [] && Segments([]) == [];
    } else {
      var init, m := merges[..|merges| - 1], merges[|merges| - 1];
      MergesGroup(tasks, init, split);
      assert merges == init + [m];
      MergeTasksSnoc(init, m);
      assert tasks + MergeTasks(merges) == (tasks + MergeTasks(init)) + [MergeTask(m)];
      GroupedSnoc(tasks + MergeTasks(init), MergeTask(m), split);
      FlatMergesSnoc(init, m);
      assert Segments(merges) == Segments(init) + [m.segment];
    }
    hide Grouped, SplitIds, FlatMerges, MergeTasks, Segments;
  }

  function Segments(merges: seq<Merge>): seq<int> {
    seq(|merges|, i requires 0 <= i < |merges| => merges[i].segment)
  }

  /** The merges are those of the segments longer than a chunk. */
  lemma {:induction false} SplitSegments(offsets: seq<int>, n: nat, warpMax: int, chunk: nat, s: int)
    requires n < |offsets| && 0 < warpMax <= chunk
    ensures s in Segments(PlanOf(offsets, n, warpMax, chunk).merges)
        <==> 0 <= s < n && offsets[s + 1] - offsets[s] > chunk
  {
    if n > 0 {
      SplitSegments(offsets, n - 1, warpMax, chunk, s);
      var p, q := PlanOf(offsets, n - 1, warpMax, chunk).merges, PlanOf(offsets, n, warpMax, chunk).merges;
      if |q| > |p| {
        assert Segments(q) == Segments(p) + [n - 1];
      }
    }
  }

  /** The record lists that stage-zero descriptors regroup to. */
  function StageZeroLists(p: Plan): Groups {
    Groups(p.warp, p.cta, FlatRanges(p.partials), [])
  }

  lemma SegmentGroups(tasks: seq<Descriptor>, p: Plan, s: nat, begin: int, end: int, warpMax: int, chunk: nat,
                      split: seq<int>)
    requires 0 < warpMax <= chunk && (Listed(s, split) <==> end - begin > chunk)
    requires Grouped(tasks, split) == StageZeroLists(p)
    ensures var longer := tasks + SegmentTasks(s, begin, end, warpMax, chunk);
            && Grouped(longer, split) == StageZeroLists(AddSegment(p, s, begin, end, warpMax, chunk))
            && SplitIds(longer) == SplitIds(tasks)
  {
    if end - begin <= chunk {
      GroupedSnoc(tasks, DirectTask(s, begin, end, warpMax), split);
      assert SplitIds(tasks) + [] == SplitIds(tasks);
    } else {
      var chunks := Chunks(begin, end, chunk);
      PartialsGroup(tasks, s, chunks, split);
      FlatRangesConcat(p.partials, chunks);
    }
    hide Grouped, SplitIds, FlatRanges, Chunks, PartialTasks;
  }

  /** The listed segments are those longer than a chunk. */
  ghost predicate ListsSplit(split: seq<int>, offsets: seq<int>, n: nat, chunk: nat)
    requires n < |offsets|
  {
    forall s :: 0 <= s < n ==> (Listed(s, split) <==> offsets[s + 1] - offsets[s] > chunk)
  }

  lemma ListsSplitBefore(split: seq<int>, offsets: seq<int>, n: nat, chunk: nat)
    requires 0 < n < |offsets| && ListsSplit(split, offsets, n, chunk)
    ensures ListsSplit(split, offsets, n - 1, chunk) && (Listed(n - 1, split) <==> offsets[n] - offsets[n - 1] > chunk)
  {
    hide Listed;
  }

  lemma NothingGroups(split: seq<int>)
    ensures Grouped([], split) == StageZeroLists(Plan([], [], [], [], [])) && SplitIds([]) == []
  {
  }

  lemma {:induction false} StageZeroGroups(offsets: seq<int>, n: nat, warpMax: int, chunk: nat, split: seq<int>)
    requires n < |offsets| && 0 < warpMax <= chunk && ListsSplit(split, offsets, n, chunk)
    ensures Grouped(StageZero(offsets, n, warpMax, chunk), split) == StageZeroLists(PlanOf(offsets, n, warpMax, chunk))
    ensures SplitIds(StageZero(offsets, n, warpMax, chunk)) == []
  {
    NothingGroups(split);
    hide Grouped, SplitIds, StageZeroLists, SegmentTasks, AddSegment, Listed, ListsSplit;
    if n > 0 {
      ListsSplitBefore(split, offsets, n, chunk);
      StageZeroGroups(offsets, n - 1, warpMax, chunk, split);
      SegmentGroups(StageZero(offsets, n - 1, warpMax, chunk), PlanOf(offsets, n - 1, warpMax, chunk),
                    n - 1, offsets[n - 1], offsets[n], warpMax, chunk, split);
    }
  }

  lemma {:induction false} FlatRangesConcat(a: seq<Range>, b: seq<Range>)
    ensures FlatRanges(a + b) == FlatRanges(a) + FlatRanges(b)
  {
    if b == [] {
      assert a + b == a;
    } else {
      hide FlatRanges;
      var init, last := b[..|b| - 1], b[|b| - 1];
      FlatRangesConcat(a, init);
      assert a + b == (a + init) + [last] && b == init + [last];
      FlatRangesSnoc(init, last);
      FlatRangesSnoc(a + init, last);
    }
  }

  /** For each merge its index, once for every partial result of its range. */
  function MergeIndices(merge: seq<int>, count: nat): seq<int>
    requires 3 * count <= |merge|
  {
    if count == 0 then []
    else
      var first, last := merge[3 * count - 2], merge[3 * count - 1];
      MergeIndices(merge, count - 1) + Repeat(count - 1, if first <= last then last - first else 0)
  }

  /**
   The one-buffer records of an admitted layout are its descriptors, regrouped
   by policy and stage and followed by the merge of every partial task.
   */
  lemma RecordsAreRegroupedDescriptors(offsets: seq<int>, n: nat, warpMax: int, chunk: nat)
    requires n < |offsets| && 0 < warpMax <= chunk
    ensures var p, tasks := PlanOf(offsets, n, warpMax, chunk), Descriptors(offsets, n, warpMax, chunk);
            var g := Grouped(tasks, SplitIds(tasks));
            && g == Groups(p.warp, p.cta, FlatRanges(p.partials), FlatMerges(p.merges))
            && Flat(p) == g.warp + g.cta + g.partial + g.merge + MergeIndices(g.merge, |p.merges|)
  {
    var p := PlanOf(offsets, n, warpMax, chunk);
    var split := Segments(p.merges);
    forall s | 0 <= s < n ensures Listed(s, split) <==> offsets[s + 1] - offsets[s] > chunk {
      SplitSegments(offsets, n, warpMax, chunk, s);
    }
    StageZeroGroups(offsets, n, warpMax, chunk, split);
    MergesGroup(StageZero(offsets, n, warpMax, chunk), p.merges, split);
    assert [] + split == split && [] + FlatMerges(p.merges) == FlatMerges(p.merges);
    MergeOfIsExpanded(offsets, n, warpMax, chunk);
  }

  lemma MergeIndicesOf(merges: seq<Merge>, m: Merge, count: nat)
    requires count <= |merges|
    ensures MergeIndices(FlatMerges(merges + [m]), count) == MergeIndices(FlatMerges(merges), count)
  {
    FlatMergesSnoc(merges, m);
    if count > 0 { MergeIndicesOf(merges, m, count - 1); }
  }

  /**
   The indices expanded from the merge list are those of the plan, and each names
   the one merge that holds its slot.
  */
  lemma {:induction false} MergeOfIsExpanded(offsets: seq<int>, n: nat, warpMax: int, chunk: nat)
    requires n < |offsets| && 0 < warpMax <= chunk
    ensures var p := PlanOf(offsets, n, warpMax, chunk);
            && p.mergeOf == MergeIndices(FlatMerges(p.merges), |p.merges|)
            && NamesItsMerge(p.merges, MergeIndices(FlatMerges(p.merges), |p.merges|))
  {
    MergeOfHolds(offsets, n, warpMax, chunk);
    hide NamesItsMerge;
    if n > 0 {
      MergeOfIsExpanded(offsets, n - 1, warpMax, chunk);
      var p := PlanOf(offsets, n - 1, warpMax, chunk);
      if offsets[n] - offsets[n - 1] > chunk {
        var count := |Chunks(offsets[n - 1], offsets[n], chunk)|;
        var m := Merge(n - 1, |p.partials|, |p.partials| + count);
        MergeIndicesOf(p.merges, m, |p.merges|);
        FlatMergesSnoc(p.merges, m);
      }
    }
  }
}
