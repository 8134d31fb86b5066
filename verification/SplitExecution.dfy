/**
 What running the records of a plan leaves in the output: the direct tasks store
 the reduction of a segment, each partial task stores its scratch slot, and each
 merge reduces its scratch range. The tasks may run in any order in which a merge
 follows the partial tasks of its range.
 */
module SplitExecution {
  import opened TaskPlan
  import opened Monoids

  /** A task names a record by its index in the list of its kind. */
  datatype Task = WarpTask(i: nat) | CtaTask(i: nat) | PartialTask(i: nat) | MergeTask(i: nat)

  predicate IsTask(p: Plan, t: Task) {
    match t
    case WarpTask(i) => i < |p.warp|
    case CtaTask(i) => i < |p.cta|
    case PartialTask(i) => i < |p.partials|
    case MergeTask(i) => i < |p.merges|
  }

  /** Every task of the plan once, and no merge before a partial task it reads. */
  ghost predicate Schedule(p: Plan, order: seq<Task>) {
    && (forall t :: t in order <==> IsTask(p, t))
    && (forall i, j :: 0 <= i < j < |order| ==> order[i] != order[j])
    && (forall k, j :: 0 <= k < j < |order| ==> !Reads(p, order[k], order[j]))
  }

  /** `merge` is a merge that reads the scratch slot of `partial`. */
  predicate Reads(p: Plan, merge: Task, partial: Task) {
    && merge.MergeTask? && partial.PartialTask? && merge.i < |p.merges|
    && p.merges[merge.i].first <= partial.i < p.merges[merge.i].last
  }

  /** The stages in their order: direct work and partial tasks, then the merges. */
  function StageOrder(p: Plan): seq<Task> {
    seq(|p.warp|, (i: nat) => WarpTask(i)) + seq(|p.cta|, (i: nat) => CtaTask(i))
    + seq(|p.partials|, (i: nat) => PartialTask(i)) + seq(|p.merges|, (i: nat) => MergeTask(i))
  }

  /** Running stage zero before the merges is one such order. */
  lemma StageOrderIsASchedule(p: Plan)
    ensures Schedule(p, StageOrder(p))
  {
    var order, a := StageOrder(p), |p.warp|;
    var b := a + |p.cta|;
    var c := b + |p.partials|;
    assert forall k :: 0 <= k < |order| ==>
      order[k] == if k < a then WarpTask(k) else if k < b then CtaTask(k - a)
                  else if k < c then PartialTask(k - b) else MergeTask(k - c);
    forall t | IsTask(p, t) ensures t in order {
      var k := match t
        case WarpTask(i) => i
        case CtaTask(i) => a + i
        case PartialTask(i) => b + i
        case MergeTask(i) => c + i;
      assert order[k] == t;
    }
  }

  /** The segment whose result a task stores, if it stores one. */
  function Target(p: Plan, t: Task): int
    requires IsTask(p, t)
  {
    match t
    case WarpTask(i) => p.warp[i]
    case CtaTask(i) => p.cta[i]
    case PartialTask(i) => -1
    case MergeTask(i) => p.merges[i].segment
  }

  /** The task that stores the result of segment `s`. */
  function WriterOf(offsets: seq<int>, s: nat, warpMax: int, chunk: nat): Task
    requires s + 1 < |offsets| && chunk > 0
  {
    var p := PlanOf(offsets, s, warpMax, chunk);
    if offsets[s + 1] - offsets[s] <= warpMax then WarpTask(|p.warp|)
    else if offsets[s + 1] - offsets[s] <= chunk then CtaTask(|p.cta|)
    else MergeTask(|p.merges|)
  }

  /** Every output cell has exactly one writer among the tasks. */
  lemma {:induction false} OneWriter(offsets: seq<int>, n: nat, warpMax: int, chunk: nat, s: nat, t: Task)
    requires n < |offsets| && 0 < warpMax <= chunk && s < n
    requires IsTask(PlanOf(offsets, n, warpMax, chunk), t)
    ensures Target(PlanOf(offsets, n, warpMax, chunk), t) == s <==> t == WriterOf(offsets, s, warpMax, chunk)
  {
    var p := PlanOf(offsets, n - 1, warpMax, chunk);
    if IsTask(p, t) {
      TargetBelow(offsets, n - 1, warpMax, chunk, t);
      if s < n - 1 { OneWriter(offsets, n - 1, warpMax, chunk, s, t); }
    } else if s < n - 1 {
      WriterIsTask(offsets, n - 1, warpMax, chunk, s);
    }
    hide Chunks;
  }

  lemma {:induction false} TargetBelow(offsets: seq<int>, n: nat, warpMax: int, chunk: nat, t: Task)
    requires n < |offsets| && chunk > 0 && IsTask(PlanOf(offsets, n, warpMax, chunk), t)
    ensures -1 <= Target(PlanOf(offsets, n, warpMax, chunk), t) < n
  {
    if n > 0 && IsTask(PlanOf(offsets, n - 1, warpMax, chunk), t) {
      TargetBelow(offsets, n - 1, warpMax, chunk, t);
    }
    hide Chunks;
  }

  lemma WriterIsTask(offsets: seq<int>, n: nat, warpMax: int, chunk: nat, s: nat)
    requires n < |offsets| && 0 < warpMax <= chunk && s < n
    ensures IsTask(PlanOf(offsets, n, warpMax, chunk), WriterOf(offsets, s, warpMax, chunk))
  {
    PlanGrows(offsets, s + 1, n, warpMax, chunk);
    hide Chunks;
  }

  /** The partial ranges of a merge are the chunks of its segment. */
  lemma {:induction false} MergeReadsItsChunks(offsets: seq<int>, n: nat, warpMax: int, chunk: nat, i: nat)
    requires n < |offsets| && 0 < warpMax <= chunk && i < |PlanOf(offsets, n, warpMax, chunk).merges|
    ensures var p := PlanOf(offsets, n, warpMax, chunk);
            var m := p.merges[i];
            && m.segment < n && m.first <= m.last <= |p.partials|
            && p.partials[m.first..m.last] == Chunks(offsets[m.segment], offsets[m.segment + 1], chunk)
  {
    var p, q := PlanOf(offsets, n - 1, warpMax, chunk), PlanOf(offsets, n, warpMax, chunk);
    if i < |p.merges| {
      MergeReadsItsChunks(offsets, n - 1, warpMax, chunk, i);
      var m := p.merges[i];
      assert p.partials <= q.partials;
      assert q.partials[m.first..m.last] == p.partials[m.first..m.last];
    }
    hide Chunks;
  }

  /** Reducing the reductions of the chunks is reducing the segment. */
  lemma {:induction false} FoldOfChunks<T(!new)>(m: Monoid<T>, values: seq<T>, begin: nat, end: nat, chunk: nat,
                                                 parts: seq<T>)
    requires Lawful(m) && chunk > 0 && begin <= end <= |values|
    requires |parts| == |Chunks(begin, end, chunk)|
    requires forall i :: 0 <= i < |parts| ==>
               var c := Chunks(begin, end, chunk)[i];
               0 <= c.begin <= c.end <= |values| && parts[i] == Fold(m, values[c.begin..c.end])
    ensures Fold(m, parts) == Fold(m, values[begin..end])
    decreases end - begin
  {
    var chunks := Chunks(begin, end, chunk);
    if begin == end {
      assert values[begin..end] == [];
    } else {
      var next := if begin + chunk < end then begin + chunk else end;
      assert chunks[0] == Range(begin, next);
      assert parts == [parts[0]] + parts[1..];
      forall i | 0 <= i < |parts| - 1 ensures chunks[1..][i] == chunks[i + 1] { }
      if begin + chunk < end {
        assert chunks[1..] == Chunks(begin + chunk, end, chunk);
        FoldOfChunks(m, values, begin + chunk, end, chunk, parts[1..]);
      } else {
        assert chunks[1..] == [];
        assert values[next..end] == [];
      }
      FoldSlices(m, values, begin, next, end);
    }
  }

  // ------------------------------------------------------------ execution

  /** Output and scratch cells, and how often each was stored. */
  datatype Memory<T> = Memory(output: seq<T>, outputStores: seq<nat>, scratch: seq<T>, scratchStores: seq<nat>)

  function Store<T>(cells: seq<T>, i: int, v: T): seq<T> {
    if 0 <= i < |cells| then cells[i := v] else cells
  }

  function Count(stores: seq<nat>, i: int): seq<nat> {
    if 0 <= i < |stores| then stores[i := stores[i] + 1] else stores
  }

  function Slice<T>(xs: seq<T>, begin: int, end: int): seq<T> {
    if 0 <= begin <= end <= |xs| then xs[begin..end] else []
  }

  /** The kernel of one task: a direct, partial, or merge reduction, and its one store. */
  function RunTask<T(!new)>(m: Monoid<T>, p: Plan, offsets: seq<int>, values: seq<T>, mem: Memory<T>,
                            t: Task): Memory<T>
    requires IsTask(p, t)
  {
    match t
    case PartialTask(i) =>
      var r := p.partials[i];
      mem.(scratch := Store(mem.scratch, i, Fold(m, Slice(values, r.begin, r.end))),
           scratchStores := Count(mem.scratchStores, i))
    case MergeTask(i) =>
      var r := p.merges[i];
      StoreResult(mem, r.segment, Fold(m, Slice(mem.scratch, r.first, r.last)))
    case _ =>
      var s := Target(p, t);
      StoreResult(mem, s, if 0 <= s < |offsets| - 1 then Fold(m, Slice(values, offsets[s], offsets[s + 1])) else m.id)
  }

  function StoreResult<T>(mem: Memory<T>, s: int, v: T): Memory<T> {
    mem.(output := Store(mem.output, s, v), outputStores := Count(mem.outputStores, s))
  }

  /** The memory after the first `k` tasks of an order. */
  function Run<T(!new)>(m: Monoid<T>, p: Plan, offsets: seq<int>, values: seq<T>, mem: Memory<T>, order: seq<Task>,
                        k: nat): Memory<T>
    requires k <= |order| && forall t :: t in order ==> IsTask(p, t)
  {
    if k == 0 then mem
    else RunTask(m, p, offsets, values, Run(m, p, offsets, values, mem, order, k - 1), order[k - 1])
  }

  /** What the scratch slot of partial task `q` has to hold. */
  ghost predicate SlotDone<T(!new)>(m: Monoid<T>, p: Plan, values: seq<T>, mem: Memory<T>, q: nat)
    requires q < |p.partials| && |mem.scratch| == |mem.scratchStores| == |p.partials|
  {
    mem.scratchStores[q] == 1 && mem.scratch[q] == Fold(m, Slice(values, p.partials[q].begin, p.partials[q].end))
  }

  ghost predicate ResultDone<T(!new)>(m: Monoid<T>, offsets: seq<int>, values: seq<T>, mem: Memory<T>, s: nat)
    requires s + 1 < |offsets| && |mem.output| == |mem.outputStores| == |offsets| - 1
  {
    mem.outputStores[s] == 1 && mem.output[s] == Fold(m, Slice(values, offsets[s], offsets[s + 1]))
  }

  /** After the first `k` tasks, exactly the cells they write are done, and the others are untouched. */
  ghost predicate Progress<T(!new)>(m: Monoid<T>, offsets: seq<int>, warpMax: int, chunk: nat, values: seq<T>,
                                    mem: Memory<T>, order: seq<Task>, k: nat)
    requires 0 < |offsets| && chunk > 0 && k <= |order|
  {
    var n, p := |offsets| - 1, PlanOf(offsets, |offsets| - 1, warpMax, chunk);
    && |mem.output| == |mem.outputStores| == n
    && |mem.scratch| == |mem.scratchStores| == |p.partials|
    && (forall s: nat :: s < n ==>
          if WriterOf(offsets, s, warpMax, chunk) in order[..k] then ResultDone(m, offsets, values, mem, s)
          else mem.outputStores[s] == 0)
    && (forall q: nat :: q < |p.partials| ==>
          if PartialTask(q) in order[..k] then SlotDone(m, p, values, mem, q) else mem.scratchStores[q] == 0)
  }

  /** The layout and the schedule of a run. */
  ghost predicate Runs<T(!new)>(m: Monoid<T>, offsets: seq<int>, warpMax: int, chunk: nat, values: seq<T>,
                                order: seq<Task>) {
    && Lawful(m) && 0 < warpMax <= chunk && 0 < |offsets| && Nondecreasing(offsets)
    && offsets[0] == 0 && offsets[|offsets| - 1] <= |values|
    && Schedule(PlanOf(offsets, |offsets| - 1, warpMax, chunk), order)
  }

  lemma PrefixStep(order: seq<Task>, k: nat, t: Task)
    requires k < |order| && forall i, j :: 0 <= i < j < |order| ==> order[i] != order[j]
    ensures t in order[..k + 1] <==> t in order[..k] || t == order[k]
    ensures order[k] !in order[..k]
  {
    assert order[..k + 1] == order[..k] + [order[k]];
  }

  /** The value a task stores is the one its cell has to hold. */
  lemma MergeStoresTheResult<T(!new)>(m: Monoid<T>, offsets: seq<int>, warpMax: int, chunk: nat, values: seq<T>,
                                      mem: Memory<T>, order: seq<Task>, k: nat)
    requires Runs(m, offsets, warpMax, chunk, values, order)
    requires k < |order| && order[k].MergeTask? && Progress(m, offsets, warpMax, chunk, values, mem, order, k)
    ensures var p := PlanOf(offsets, |offsets| - 1, warpMax, chunk);
            && order[k].i < |p.merges|
            && var r := p.merges[order[k].i];
               && r.segment < |offsets| - 1
               && Fold(m, Slice(mem.scratch, r.first, r.last))
                  == Fold(m, Slice(values, offsets[r.segment], offsets[r.segment + 1]))
  {
    var n, p := |offsets| - 1, PlanOf(offsets, |offsets| - 1, warpMax, chunk);
    assert order[k] in order;
    MergeReadsItsChunks(offsets, n, warpMax, chunk, order[k].i);
    var r := p.merges[order[k].i];
    var begin, end := offsets[r.segment], offsets[r.segment + 1];
    var chunks := Chunks(begin, end, chunk);
    hide PlanOf, Fold, WriterOf;
    ChunksCovered(begin, end, chunk);
    var parts := mem.scratch[r.first..r.last];
    assert 0 <= begin <= end <= |values| by {
      assert offsets[0] <= offsets[r.segment] <= offsets[r.segment + 1] <= offsets[n];
    }
    forall i | 0 <= i < |parts|
      ensures parts[i] == Fold(m, values[chunks[i].begin..chunks[i].end])
    {
      var q := r.first + i;
      PartialRanBefore(p, order, k, q);
      assert SlotDone(m, p, values, mem, q);
      assert p.partials[q] == p.partials[r.first..r.last][i] == chunks[i];
    }
    FoldOfChunks(m, values, begin, end, chunk, parts);
  }

  lemma PartialRanBefore(p: Plan, order: seq<Task>, k: nat, q: nat)
    requires Schedule(p, order) && k < |order| && q < |p.partials| && Reads(p, order[k], PartialTask(q))
    ensures PartialTask(q) in order[..k]
  {
    assert IsTask(p, PartialTask(q));
    var j :| 0 <= j < |order| && order[j] == PartialTask(q);
    assert order[..k][j] == PartialTask(q);
  }

  /** A direct task stores the result of its segment, too. */
  lemma TaskStoresTheResult<T(!new)>(m: Monoid<T>, offsets: seq<int>, warpMax: int, chunk: nat, values: seq<T>,
                                     mem: Memory<T>, order: seq<Task>, k: nat)
    requires Runs(m, offsets, warpMax, chunk, values, order)
    requires k < |order| && !order[k].PartialTask? && Progress(m, offsets, warpMax, chunk, values, mem, order, k)
    ensures var p := PlanOf(offsets, |offsets| - 1, warpMax, chunk);
            && IsTask(p, order[k])
            && var s := Target(p, order[k]);
               && 0 <= s < |offsets| - 1
               && RunTask(m, p, offsets, values, mem, order[k])
                  == StoreResult(mem, s, Fold(m, Slice(values, offsets[s], offsets[s + 1])))
  {
    var p := PlanOf(offsets, |offsets| - 1, warpMax, chunk);
    assert order[k] in order;
    TargetBelow(offsets, |offsets| - 1, warpMax, chunk, order[k]);
    if order[k].MergeTask? {
      MergeStoresTheResult(m, offsets, warpMax, chunk, values, mem, order, k);
    }
    hide Progress, Fold, PlanOf, Runs;
  }

  lemma ResultStep<T(!new)>(m: Monoid<T>, offsets: seq<int>, warpMax: int, chunk: nat, values: seq<T>,
                            mem: Memory<T>, order: seq<Task>, k: nat)
    requires Runs(m, offsets, warpMax, chunk, values, order)
    requires k < |order| && !order[k].PartialTask? && Progress(m, offsets, warpMax, chunk, values, mem, order, k)
    ensures var p := PlanOf(offsets, |offsets| - 1, warpMax, chunk);
            && IsTask(p, order[k])
            && Progress(m, offsets, warpMax, chunk, values, RunTask(m, p, offsets, values, mem, order[k]), order, k + 1)
  {
    var n, p := |offsets| - 1, PlanOf(offsets, |offsets| - 1, warpMax, chunk);
    TaskStoresTheResult(m, offsets, warpMax, chunk, values, mem, order, k);
    var after := RunTask(m, p, offsets, values, mem, order[k]);
    hide PlanOf, Fold, RunTask, WriterOf;
    forall s: nat | s < n
      ensures if WriterOf(offsets, s, warpMax, chunk) in order[..k + 1] then ResultDone(m, offsets, values, after, s)
              else after.outputStores[s] == 0
    {
      OneWriter(offsets, n, warpMax, chunk, s, order[k]);
      PrefixStep(order, k, WriterOf(offsets, s, warpMax, chunk));
    }
    forall q: nat | q < |p.partials|
      ensures if PartialTask(q) in order[..k + 1] then SlotDone(m, p, values, after, q) else after.scratchStores[q] == 0
    {
      PrefixStep(order, k, PartialTask(q));
    }
  }

  lemma PartialStep<T(!new)>(m: Monoid<T>, offsets: seq<int>, warpMax: int, chunk: nat, values: seq<T>,
                             mem: Memory<T>, order: seq<Task>, k: nat)
    requires Runs(m, offsets, warpMax, chunk, values, order)
    requires k < |order| && order[k].PartialTask? && Progress(m, offsets, warpMax, chunk, values, mem, order, k)
    ensures var p := PlanOf(offsets, |offsets| - 1, warpMax, chunk);
            && IsTask(p, order[k])
            && Progress(m, offsets, warpMax, chunk, values, RunTask(m, p, offsets, values, mem, order[k]), order, k + 1)
  {
    var n, p := |offsets| - 1, PlanOf(offsets, |offsets| - 1, warpMax, chunk);
    assert order[k] in order;
    var after := RunTask(m, p, offsets, values, mem, order[k]);
    hide PlanOf, Fold;
    forall s: nat | s < n
      ensures if WriterOf(offsets, s, warpMax, chunk) in order[..k + 1] then ResultDone(m, offsets, values, after, s)
              else after.outputStores[s] == 0
    {
      PrefixStep(order, k, WriterOf(offsets, s, warpMax, chunk));
    }
    forall q: nat | q < |p.partials|
      ensures if PartialTask(q) in order[..k + 1] then SlotDone(m, p, values, after, q) else after.scratchStores[q] == 0
    {
      PrefixStep(order, k, PartialTask(q));
    }
  }

  lemma {:induction false} RunProgress<T(!new)>(m: Monoid<T>, offsets: seq<int>, warpMax: int, chunk: nat,
                                                values: seq<T>, mem: Memory<T>, order: seq<Task>, k: nat)
    requires Runs(m, offsets, warpMax, chunk, values, order) && k <= |order|
    requires Progress(m, offsets, warpMax, chunk, values, mem, order, 0)
    ensures var p := PlanOf(offsets, |offsets| - 1, warpMax, chunk);
            Progress(m, offsets, warpMax, chunk, values, Run(m, p, offsets, values, mem, order, k), order, k)
  {
    var p := PlanOf(offsets, |offsets| - 1, warpMax, chunk);
    hide Progress, PlanOf, RunTask, Runs;
    if k > 0 {
      RunProgress(m, offsets, warpMax, chunk, values, mem, order, k - 1);
      var before := Run(m, p, offsets, values, mem, order, k - 1);
      if order[k - 1].PartialTask? {
        PartialStep(m, offsets, warpMax, chunk, values, before, order, k - 1);
      } else {
        ResultStep(m, offsets, warpMax, chunk, values, before, order, k - 1);
      }
    }
  }

  /** Nothing is stored yet, in buffers of the right size. */
  ghost predicate Fresh<T>(mem: Memory<T>, n: nat, partials: nat) {
    && |mem.output| == |mem.outputStores| == n && |mem.scratch| == |mem.scratchStores| == partials
    && (forall s :: 0 <= s < n ==> mem.outputStores[s] == 0)
    && (forall q :: 0 <= q < partials ==> mem.scratchStores[q] == 0)
  }

  /** Every output cell was stored once, with the reduction of its segment, and every scratch slot once. */
  ghost predicate Reduced<T(!new)>(m: Monoid<T>, offsets: seq<int>, values: seq<T>, mem: Memory<T>) {
    && |mem.output| == |mem.outputStores| == |offsets| - 1
    && (forall q :: 0 <= q < |mem.scratchStores| ==> mem.scratchStores[q] == 1)
    && (forall s :: 0 <= s < |offsets| - 1 ==> SegmentReduced(m, offsets, values, mem, s))
  }

  ghost predicate SegmentReduced<T(!new)>(m: Monoid<T>, offsets: seq<int>, values: seq<T>, mem: Memory<T>, s: nat)
    requires s + 1 < |offsets| && |mem.output| == |mem.outputStores| == |offsets| - 1
  {
    && 0 <= offsets[s] <= offsets[s + 1] <= |values|
    && mem.outputStores[s] == 1
    && mem.output[s] == Fold(m, values[offsets[s]..offsets[s + 1]])
  }

  /** Split scheduling preserves meaning, whatever the layout, the limits, and the order of the tasks. */
  lemma SplitSchedulingReducesEverySegment<T(!new)>(m: Monoid<T>, offsets: seq<int>, valueCount: int, warpMax: int,
                                                    chunk: int, values: seq<T>, mem: Memory<T>, order: seq<Task>)
    requires Lawful(m) && |values| == valueCount && 0 < |offsets|
    requires Refused(offsets, valueCount, |offsets| - 1, warpMax, chunk).None?
    requires Schedule(PlanOf(offsets, |offsets| - 1, warpMax, chunk), order)
    requires Fresh(mem, |offsets| - 1, |PlanOf(offsets, |offsets| - 1, warpMax, chunk).partials|)
    ensures Reduced(m, offsets, values,
                    Run(m, PlanOf(offsets, |offsets| - 1, warpMax, chunk), offsets, values, mem, order, |order|))
  {
    var n, p := |offsets| - 1, PlanOf(offsets, |offsets| - 1, warpMax, chunk);
    AdmittedIffNotRefused(offsets, valueCount, n, warpMax, chunk);
    hide PlanOf, Fold, Refused, WriterOf, Schedule;
    RunProgress(m, offsets, warpMax, chunk, values, mem, order, |order|);
    RunEnd(m, offsets, warpMax, chunk, values, order, Run(m, p, offsets, values, mem, order, |order|));
  }

  lemma RunEnd<T(!new)>(m: Monoid<T>, offsets: seq<int>, warpMax: int, chunk: nat, values: seq<T>, order: seq<Task>,
                        after: Memory<T>)
    requires Runs(m, offsets, warpMax, chunk, values, order)
    requires Progress(m, offsets, warpMax, chunk, values, after, order, |order|)
    ensures Reduced(m, offsets, values, after)
  {
    var n, p := |offsets| - 1, PlanOf(offsets, |offsets| - 1, warpMax, chunk);
    assert order[..|order|] == order;
    hide PlanOf, Fold, WriterOf;
    forall s | 0 <= s < n ensures SegmentReduced(m, offsets, values, after, s) {
      WriterIsTask(offsets, n, warpMax, chunk, s);
      assert ResultDone(m, offsets, values, after, s);
      assert offsets[0] <= offsets[s] <= offsets[s + 1] <= offsets[n];
    }
    forall q | 0 <= q < |p.partials| ensures after.scratchStores[q] == 1 {
      assert IsTask(p, PartialTask(q));
      assert SlotDone(m, p, values, after, q);
    }
  }
}
