/**
 The rank-one segmented kernels, one method per program, and their launches. A
 launch runs the programs of its grid in any order over one shared output.
 */
module TritonKernels {
  import opened Int32
  import opened Integers
  import opened Monoids
  import opened SegmentTiles
  import opened TaskPartition
  import opened TaskPlan
  import opened Device

  const WARP := 32
  const LOGICAL_LANES := 128
  const MAX_CTA_ELEMENTS := 4096

  /** Device values and i32 offsets of a layout. */
  ghost predicate Layout<T>(values: seq<T>, offsets: seq<i32>) {
    && 0 < |offsets| && offsets[0] == 0 && offsets[|offsets| - 1] == |values|
    && forall i, j :: 0 <= i <= j < |offsets| ==> offsets[i] <= offsets[j]
  }

  function Lengths(offsets: seq<i32>): seq<int>
    requires 0 < |offsets|
  {
    seq(|offsets| - 1, s requires 0 <= s < |offsets| - 1 => offsets[s + 1] as int - offsets[s])
  }

  /** The reduction of every segment. */
  function Wanted<T(!new)>(m: Monoid<T>, values: seq<T>, offsets: seq<i32>): seq<T>
    requires Layout(values, offsets)
  {
    seq(|offsets| - 1, s requires 0 <= s < |offsets| - 1 => SegmentTotal(m, values, offsets, s))
  }

  function SegmentTotal<T(!new)>(m: Monoid<T>, values: seq<T>, offsets: seq<i32>, s: nat): T
    requires Layout(values, offsets) && s + 1 < |offsets|
  {
    assert offsets[0] <= offsets[s] <= offsets[s + 1] <= offsets[|offsets| - 1];
    Fold(m, values[offsets[s]..offsets[s + 1]])
  }

  /** What a launch leaves: every output cell stored once, with the reduction of its segment. */
  ghost predicate Reduced<T(!new)>(m: Monoid<T>, values: seq<T>, offsets: seq<i32>, out: Buffer<T>)
    requires Layout(values, offsets)
    reads out, out.cells
  {
    && out.cells.Length == |out.stores| == |offsets| - 1
    && forall s :: 0 <= s < |offsets| - 1 ==> out.cells[s] == SegmentTotal(m, values, offsets, s) && out.stores[s] == 1
  }

  ghost predicate Untouched<T>(out: Buffer<T>, n: nat)
    reads out
  {
    out.cells.Length == |out.stores| == n && forall s :: 0 <= s < n ==> out.stores[s] == 0
  }

  /** Loads from `xs` where the mask is set, and `other` elsewhere. */
  function Load<T>(xs: seq<T>, i: int, mask: bool, other: T): T
    requires mask ==> 0 <= i < |xs|
  {
    if mask then xs[i] else other
  }

  lemma SegmentInValues<T>(values: seq<T>, offsets: seq<i32>, s: nat)
    requires Layout(values, offsets) && s + 1 < |offsets|
    ensures 0 <= offsets[s] <= offsets[s + 1] <= |values| <= I32_MAX
  {
  }

  /** Output cells as long as the layout, each stored by one program of the grid. */
  ghost predicate OwnedBy(owner: seq<nat>, n: nat, grid: nat) {
    |owner| == n && forall s :: 0 <= s < n ==> owner[s] < grid
  }

  // ------------------------------------------------- one block per segment

  ghost predicate BlockFits(offsets: seq<i32>, block: nat) {
    forall s :: 0 <= s < |offsets| - 1 ==> LaneFits(offsets[s], block)
  }

  /** The last lane of a tile at `start` has an i32 index. */
  predicate LaneFits(start: int, lanes: nat) {
    start + lanes - 1 <= I32_MAX
  }

  /** One block covers the segment of the program. */
  method OneBlockProgram<T(!new)>(m: Monoid<T>, values: seq<T>, offsets: seq<i32>, out: Buffer<T>, segmentCount: nat,
                                  block: nat, sid: nat, ghost owner: seq<nat>, ghost done: set<nat>)
    requires Commutative(m) && Layout(values, offsets) && segmentCount == |offsets| - 1 && sid < segmentCount
    requires offsets[sid + 1] - offsets[sid] <= block && LaneFits(offsets[sid], block)
    requires out.Launched(Wanted(m, values, offsets), owner, done) && sid !in done
    requires forall s :: 0 <= s < |owner| ==> owner[s] == s
    modifies out, out.cells
    ensures out.Launched(Wanted(m, values, offsets), owner, done + {sid})
  {
    SegmentInValues(values, offsets, sid);
    var begin, end := offsets[sid], offsets[sid + 1];
    FoldOfTile(m, values, begin, end, block);
    hide Commutative, Lawful, Fold, Tile;
    var data := Tile(m, values, begin, end, block, sid < segmentCount);
    var result := Fold(m, data);
    assert Covered(values, begin, end, block) == values[begin..end];
    if sid < segmentCount {
      out.Store(sid, result);
    }
  }

  method LaunchOneBlock<T(!new)>(m: Monoid<T>, values: seq<T>, offsets: seq<i32>, out: Buffer<T>, block: nat,
                                 order: seq<nat>)
    requires Commutative(m) && Layout(values, offsets) && AnyOrder(order, |offsets| - 1)
    requires (forall s :: 0 <= s < |offsets| - 1 ==> Lengths(offsets)[s] <= block) && BlockFits(offsets, block)
    requires Untouched(out, |offsets| - 1)
    modifies out, out.cells
    ensures Reduced(m, values, offsets, out)
  {
    ghost var owner: seq<nat> := seq(|offsets| - 1, (s: nat) => s);
    hide Commutative, SegmentTotal;
    for k := 0 to |order|
      invariant out.Launched(Wanted(m, values, offsets), owner, Ran(order, k))
    {
      RanNext(order, k);
      assert order[k] in order;
      assert Lengths(offsets)[order[k]] <= block && LaneFits(offsets[order[k]], block);
      OneBlockProgram(m, values, offsets, out, |offsets| - 1, block, order[k], owner, Ran(order, k));
    }
    RanAll(order, |offsets| - 1);
    LaunchedAll(m, values, offsets, out, owner, Ran(order, |order|));
  }

  // ------------------------------------------------------ looping kernels

  /** The i32 loop counter stays in range past every tile of a loop over `[start, end)`. */
  predicate LoopFits(start: int, end: int, block: nat)
    requires block > 0
    decreases end - start
  {
    start >= end || (start + block <= I32_MAX && LoopFits(start + block, end, block))
  }

  /** The same without the loop: the counter that ends the loop is an i32. */
  lemma {:induction false} LoopFitsIff(start: nat, end: nat, block: nat)
    requires block > 0
    ensures LoopFits(start, end, block) <==> start >= end || start + ChunkCount(end - start, block) * block <= I32_MAX
    decreases end - start
  {
    if start < end {
      if start + block < end {
        LoopFitsIff(start + block, end, block);
        DivStep(end - start, block);
        OneMoreBlock(ChunkCount(end - (start + block), block), block);
      } else {
        LastBlock(end - start, block);
      }
    }
  }

  lemma OneMoreBlock(n: nat, block: nat)
    ensures (n + 1) * block == n * block + block && n * block >= 0
  {
  }

  lemma LastBlock(length: nat, block: nat)
    requires 0 < length <= block
    ensures ChunkCount(length, block) == 1
  {
    if length < block {
      QuotientUnique(length, block, 0, length);
    } else {
      QuotientUnique(length, block, 1, 0);
    }
  }

  /** The value of the loop counter after `k` steps, in 32-bit arithmetic. */
  function Counter(begin: int, block: nat, k: nat): int {
    if k == 0 then begin else Wrap32(Counter(begin, block, k - 1) + block)
  }

  /** The loop runs its body for step `k`. */
  ghost predicate Visited(begin: int, end: int, block: nat, k: nat) {
    forall j :: 0 <= j <= k ==> Counter(begin, block, j) < end
  }

  /** Every tile that the loop visits, also after its counter wraps, reads only values. */
  ghost predicate LoopLoadsInBounds(count: nat, begin: int, end: int, block: nat) {
    forall k: nat :: Visited(begin, end, block, k) ==> LoadsInBounds(count, Counter(begin, block, k), end, block)
  }

  lemma {:induction false} CounterShift(begin: int, block: nat, k: nat)
    ensures Counter(begin, block, k + 1) == Counter(Wrap32(begin + block), block, k)
  {
    if k > 0 { CounterShift(begin, block, k - 1); }
  }

  /** While the counter fits, it counts. */
  lemma {:induction false} VisitedFits(begin: nat, end: nat, block: nat, k: nat)
    requires block > 0 && LoopFits(begin, end, block) && Visited(begin, end, block, k)
    ensures 0 <= Counter(begin, block, k) < end && LoopFits(Counter(begin, block, k), end, block)
  {
    if k > 0 {
      assert forall j :: 0 <= j <= k - 1 ==> Counter(begin, block, j) < end;
      VisitedFits(begin, end, block, k - 1);
    }
  }

  /**
   When it does not, some visited tile reads outside: its lanes wrap, or the
   counter does and the loop goes on below zero.
  */
  lemma {:induction false} LoopReadsOutside(count: nat, begin: nat, end: nat, block: nat) returns (k: nat)
    requires 0 < block <= I32_MAX && end <= count <= I32_MAX && !LoopFits(begin, end, block)
    ensures Visited(begin, end, block, k) && !LoadsInBounds(count, Counter(begin, block, k), end, block)
    decreases end - begin
  {
    assert Counter(begin, block, 0) == begin < end;
    if begin + block - 1 > I32_MAX {
      k := 0;
      LoadsInBoundsIff(count, begin, end, block);
    } else if begin + block > I32_MAX {
      k := 1;
      assert Counter(begin, block, 1) == -0x8000_0000;
      NegativeTile(count, -0x8000_0000, end, block);
    } else {
      var later := LoopReadsOutside(count, begin + block, end, block);
      k := later + 1;
      VisitedLater(begin, end, block, later);
    }
  }

  lemma VisitedLater(begin: nat, end: nat, block: nat, k: nat)
    requires begin < end && begin + block <= I32_MAX && Visited(begin + block, end, block, k)
    ensures Visited(begin, end, block, k + 1) && Counter(begin, block, k + 1) == Counter(begin + block, block, k)
  {
    CounterShift(begin, block, k);
    forall j | 0 <= j <= k + 1 ensures Counter(begin, block, j) < end {
      if j > 0 {
        CounterShift(begin, block, j - 1);
        assert Counter(begin + block, block, j - 1) < end;
        hide Counter;
      }
    }
  }

  lemma NegativeTile(count: nat, start: int, end: nat, block: nat)
    requires -0x8000_0000 <= start < 0 < block
    ensures !LoadsInBounds(count, start, end, block)
  {
    assert Lane(start, 0) < 0;
  }

  /** A looping kernel reads only values exactly when its counter stays in range past every tile. */
  lemma LoopLoadsInBoundsIff(count: nat, begin: nat, end: nat, block: nat)
    requires 0 < block <= I32_MAX && end <= count <= I32_MAX
    ensures LoopLoadsInBounds(count, begin, end, block) <==> LoopFits(begin, end, block)
  {
    if LoopFits(begin, end, block) {
      forall k: nat | Visited(begin, end, block, k) ensures LoadsInBounds(count, Counter(begin, block, k), end, block) {
        VisitedFits(begin, end, block, k);
        LoadsInBoundsIff(count, Counter(begin, block, k), end, block);
      }
    } else {
      var k := LoopReadsOutside(count, begin, end, block);
    }
  }

  /** The accumulator, lane by lane, after the tiles of `[start, end)`. */
  function LoopedLanes<T(!new)>(m: Monoid<T>, values: seq<T>, start: nat, end: nat, block: nat,
                                total: seq<T>): (lanes: seq<T>)
    requires block > 0 && end <= |values| && |total| == block && LoopFits(start, end, block)
    ensures |lanes| == block
    decreases end - start
  {
    if start >= end then total
    else
      TileInBounds(|values|, start, end, block);
      LoopedLanes(m, values, start + block, end, block, Combine(m, total, Tile(m, values, start, end, block, true)))
  }

  lemma TileInBounds(count: nat, start: nat, end: nat, block: nat)
    requires end <= count && start + block - 1 <= I32_MAX
    ensures LoadsInBounds(count, start, end, block)
  {
  }

  /** The lanes reduce to what was accumulated before and the rest of the segment. */
  lemma {:induction false} LoopedLanesReduce<T(!new)>(m: Monoid<T>, values: seq<T>, begin: nat, start: nat, end: nat,
                                                      block: nat, total: seq<T>)
    requires Commutative(m) && block > 0 && begin <= start && begin <= end <= |values| && |total| == block
    requires LoopFits(start, end, block)
    requires Fold(m, total) == Fold(m, values[begin..Min(end, start)])
    ensures Fold(m, LoopedLanes(m, values, start, end, block, total)) == Fold(m, values[begin..end])
    decreases end - start
  {
    hide Commutative, Lawful, Fold, Tile, Combine;
    if start < end {
      AccumulateTile(m, values, begin, start, end, block, total);
      LoopedLanesReduce(m, values, begin, start + block, end, block,
                        Combine(m, total, Tile(m, values, start, end, block, true)));
    }
  }

  lemma WholeSegmentReduces<T(!new)>(m: Monoid<T>, values: seq<T>, begin: nat, end: nat, block: nat)
    requires block > 0 && begin <= end <= |values| && LoopFits(begin, end, block)
    ensures Commutative(m) ==>
              Fold(m, LoopedLanes(m, values, begin, end, block, Fill(m, block))) == Fold(m, values[begin..end])
  {
    if Commutative(m) {
      FoldOfFill(m, block);
      assert values[begin..Min(end, begin)] == [];
      LoopedLanesReduce(m, values, begin, begin, end, block, Fill(m, block));
    }
  }

  /** The accumulator of a walk over one segment in fixed blocks, with an i32 counter. */
  method LoopedTotal<T(!new)>(m: Monoid<T>, values: seq<T>, begin: nat, end: nat, block: nat) returns (total: seq<T>)
    requires block > 0 && begin <= end <= |values| && LoopFits(begin, end, block)
    ensures total == LoopedLanes(m, values, begin, end, block, Fill(m, block))
    ensures Commutative(m) ==> Fold(m, total) == Fold(m, values[begin..end])
  {
    total := Fill(m, block);
    WholeSegmentReduces(m, values, begin, end, block);
    hide Commutative, Lawful, Fold, Fill, Tile, Combine, LoadsInBounds, Lane;
    var start := begin;
    while start < end
      invariant 0 <= start && LoopFits(start, end, block) && |total| == block
      invariant LoopedLanes(m, values, start, end, block, total)
              == LoopedLanes(m, values, begin, end, block, Fill(m, block))
      decreases end - start
    {
      TileInBounds(|values|, start, end, block);
      total := Combine(m, total, Tile(m, values, start, end, block, true));
      start := Wrap32(start + block);
    }
  }

  method LoopedProgram<T(!new)>(m: Monoid<T>, values: seq<T>, offsets: seq<i32>, out: Buffer<T>, block: nat, sid: nat,
                                ghost owner: seq<nat>, ghost done: set<nat>)
    requires Commutative(m) && Layout(values, offsets) && sid < |offsets| - 1
    requires block > 0 && LoopFits(offsets[sid], offsets[sid + 1], block)
    requires out.Launched(Wanted(m, values, offsets), owner, done) && sid !in done
    requires forall s :: 0 <= s < |owner| ==> owner[s] == s
    modifies out, out.cells
    ensures out.Launched(Wanted(m, values, offsets), owner, done + {sid})
  {
    SegmentInValues(values, offsets, sid);
    hide Commutative, Lawful, Fold, LoopFits;
    var begin, end := offsets[sid], offsets[sid + 1];
    var total := LoopedTotal(m, values, begin, end, block);
    out.Store(sid, Fold(m, total));
  }

  method LaunchLooped<T(!new)>(m: Monoid<T>, values: seq<T>, offsets: seq<i32>, out: Buffer<T>, block: nat,
                               order: seq<nat>)
    requires Commutative(m) && Layout(values, offsets) && AnyOrder(order, |offsets| - 1) && block > 0
    requires forall s :: 0 <= s < |offsets| - 1 ==> SegmentLoopFits(offsets, s, block)
    requires Untouched(out, |offsets| - 1)
    modifies out, out.cells
    ensures Reduced(m, values, offsets, out)
  {
    ghost var owner: seq<nat> := seq(|offsets| - 1, (s: nat) => s);
    hide Commutative, SegmentTotal, LoopFits;
    for k := 0 to |order|
      invariant out.Launched(Wanted(m, values, offsets), owner, Ran(order, k))
    {
      RanNext(order, k);
      assert order[k] in order;
      assert SegmentLoopFits(offsets, order[k], block);
      LoopedProgram(m, values, offsets, out, block, order[k], owner, Ran(order, k));
    }
    RanAll(order, |offsets| - 1);
    LaunchedAll(m, values, offsets, out, owner, Ran(order, |order|));
  }

  ghost predicate SegmentLoopFits(offsets: seq<i32>, s: nat, block: nat)
    requires s + 1 < |offsets| && block > 0
  {
    LoopFits(offsets[s], offsets[s + 1], block)
  }

  // ---------------------------------------------------------- task kernels

  /** Packed programs first, then one program per long task. */
  function OwnerOf(p: Place, warpPrograms: nat): nat {
    match p
    case Short(t) => t / PACKED_TASKS
    case Long(t) => warpPrograms + t
  }

  /** Two task lists that partition the layout, and the program that owns every segment. */
  ghost predicate Planned(offsets: seq<i32>, warpIds: seq<nat>, ctaIds: seq<nat>, places: seq<Place>, owner: seq<nat>) {
    && 0 < |offsets| && Partition(Lengths(offsets), warpIds, ctaIds, places)
    && |owner| == |offsets| - 1
    && forall s :: 0 <= s < |owner| ==> owner[s] == OwnerOf(places[s], PackedPrograms(|warpIds|))
  }

  /** The first tiles of the listed segments have i32 lane indices. */
  ghost predicate ListFits(offsets: seq<i32>, ids: seq<nat>, lanes: nat) {
    forall t :: 0 <= t < |ids| ==> ids[t] + 1 < |offsets| && LaneFits(offsets[ids[t]], lanes)
  }

  /** Lane `lane` of a program that packs four tasks of 32 lanes. */
  function ShortLane<T(!new)>(m: Monoid<T>, values: seq<T>, offsets: seq<i32>, ids: seq<nat>, pid: nat, enabled: bool,
                              lane: nat): T
    requires Layout(values, offsets) && ListFits(offsets, ids, WARP)
  {
    var task := pid * PACKED_TASKS + lane / WARP;
    var active := enabled && task < |ids|;
    var segment := Load(ids, task, active, 0);
    var begin: int := Load(offsets, segment, active, 0);
    var end: int := Load(offsets, segment + 1, active, 0);
    var index := Lane(begin, lane % WARP);
    assert active ==> LaneFits(offsets[ids[task]], WARP) && 0 <= offsets[segment] <= offsets[segment + 1] <= |values|;
    Load(values, index, active && index < end, m.id)
  }

  function ShortData<T(!new)>(m: Monoid<T>, values: seq<T>, offsets: seq<i32>, ids: seq<nat>, pid: nat,
                              enabled: bool): (data: seq<T>)
    requires Layout(values, offsets) && ListFits(offsets, ids, WARP)
    ensures |data| == PACKED_TASKS * WARP
  {
    seq(PACKED_TASKS * WARP, lane requires 0 <= lane < PACKED_TASKS * WARP =>
      ShortLane(m, values, offsets, ids, pid, enabled, lane))
  }

  /** The rows of the reshaped lanes, reduced: one total per slot. */
  function ShortTotals<T(!new)>(m: Monoid<T>, values: seq<T>, offsets: seq<i32>, ids: seq<nat>, pid: nat,
                                enabled: bool): (totals: seq<T>)
    requires Layout(values, offsets) && ListFits(offsets, ids, WARP)
    ensures |totals| == PACKED_TASKS
  {
    var data := ShortData(m, values, offsets, ids, pid, enabled);
    seq(PACKED_TASKS, slot requires 0 <= slot < PACKED_TASKS => Fold(m, data[slot * WARP..slot * WARP + WARP]))
  }

  /** The row of a slot is one tile over its segment. */
  lemma ShortRow<T(!new)>(m: Monoid<T>, values: seq<T>, offsets: seq<i32>, ids: seq<nat>, pid: nat, slot: nat)
    requires Layout(values, offsets) && ListFits(offsets, ids, WARP)
    requires slot < PACKED_TASKS && pid * PACKED_TASKS + slot < |ids|
    ensures var s := ids[pid * PACKED_TASKS + slot];
            && s + 1 < |offsets| && LoadsInBounds(|values|, offsets[s], offsets[s + 1], WARP)
            && ShortData(m, values, offsets, ids, pid, true)[slot * WARP..slot * WARP + WARP]
               == Tile(m, values, offsets[s], offsets[s + 1], WARP, true)
  {
    var task := pid * PACKED_TASKS + slot;
    var s := ids[task];
    assert LaneFits(offsets[s], WARP);
    SegmentInValues(values, offsets, s);
    LoadsInBoundsIff(|values|, offsets[s], offsets[s + 1], WARP);
    var data, tile := ShortData(m, values, offsets, ids, pid, true), Tile(m, values, offsets[s], offsets[s + 1], WARP,
                                true);
    forall l | 0 <= l < WARP ensures data[slot * WARP + l] == tile[l] {
      assert (slot * WARP + l) / WARP == slot && (slot * WARP + l) % WARP == l;
    }
  }

  lemma TotalOfRow<T(!new)>(m: Monoid<T>, values: seq<T>, offsets: seq<i32>, ids: seq<nat>, pid: nat, slot: nat)
    requires Layout(values, offsets) && ListFits(offsets, ids, WARP) && slot < PACKED_TASKS
    ensures ShortTotals(m, values, offsets, ids, pid, true)[slot]
         == Fold(m, ShortData(m, values, offsets, ids, pid, true)[slot * WARP..slot * WARP + WARP])
  {
    hide ShortData, Fold, Layout, ListFits;
  }

  /** One tile of 32 lanes reduces a short segment. */
  lemma WarpTotal<T(!new)>(m: Monoid<T>, values: seq<T>, offsets: seq<i32>, s: nat)
    requires Commutative(m) && Layout(values, offsets) && s + 1 < |offsets| && LaneFits(offsets[s], WARP)
    requires offsets[s + 1] - offsets[s] <= WARP_MAX_ELEMENTS
    ensures LoadsInBounds(|values|, offsets[s], offsets[s + 1], WARP)
    ensures Fold(m, Tile(m, values, offsets[s], offsets[s + 1], WARP, true)) == SegmentTotal(m, values, offsets, s)
  {
    hide Commutative, Lawful, Fold, Tile;
    SegmentInValues(values, offsets, s);
    FoldOfTile(m, values, offsets[s], offsets[s + 1], WARP);
    assert Covered(values, offsets[s], offsets[s + 1], WARP) == values[offsets[s]..offsets[s + 1]];
  }

  /** The total of a slot is the reduction of its segment. */
  lemma ShortTotal<T(!new)>(m: Monoid<T>, values: seq<T>, offsets: seq<i32>, ids: seq<nat>, pid: nat, slot: nat)
    requires Commutative(m) && Layout(values, offsets) && ListFits(offsets, ids, WARP)
    requires slot < PACKED_TASKS && pid * PACKED_TASKS + slot < |ids|
    requires var s := ids[pid * PACKED_TASKS + slot];
             s + 1 < |offsets| && offsets[s + 1] - offsets[s] <= WARP_MAX_ELEMENTS
    ensures ShortTotals(m, values, offsets, ids, pid, true)[slot]
         == SegmentTotal(m, values, offsets, ids[pid * PACKED_TASKS + slot])
  {
    var s := ids[pid * PACKED_TASKS + slot];
    assert LaneFits(offsets[s], WARP);
    hide Commutative, Lawful, Fold, Tile, ShortData, ShortTotals, SegmentTotal, LoadsInBounds, ListFits, Layout;
    TotalOfRow(m, values, offsets, ids, pid, slot);
    ShortRow(m, values, offsets, ids, pid, slot);
    WarpTotal(m, values, offsets, s);
  }

  /** The slots of a packed program before `slot`. */
  predicate InSlots(p: Place, pid: nat, slot: nat) {
    p.Short? && pid * PACKED_TASKS <= p.t < pid * PACKED_TASKS + slot
  }

  /** The segment that the slot of a packed program stores. */
  lemma SlotOwner(offsets: seq<i32>, warpIds: seq<nat>, ctaIds: seq<nat>, places: seq<Place>, owner: seq<nat>, pid: nat,
                  slot: nat)
    requires Planned(offsets, warpIds, ctaIds, places, owner) && slot < PACKED_TASKS
    ensures |places| == |owner| == |offsets| - 1
    ensures var task := pid * PACKED_TASKS + slot;
            && (task < |warpIds| ==>
                  && warpIds[task] < |owner| && owner[warpIds[task]] == pid
                  && !InSlots(places[warpIds[task]], pid, slot)
                  && offsets[warpIds[task] + 1] - offsets[warpIds[task]] <= WARP_MAX_ELEMENTS)
            && forall s :: 0 <= s < |owner| ==>
                 (InSlots(places[s], pid, slot + 1) <==>
                    InSlots(places[s], pid, slot) || (task < |warpIds| && s == warpIds[task]))
  {
    var task := pid * PACKED_TASKS + slot;
    if task < |warpIds| {
      assert Lengths(offsets)[warpIds[task]] == offsets[warpIds[task] + 1] as int - offsets[warpIds[task]];
      assert PackedPrograms(|warpIds|) > pid;
    }
    forall s | 0 <= s < |owner|
      ensures InSlots(places[s], pid, slot + 1)
         <==> InSlots(places[s], pid, slot) || (task < |warpIds| && s == warpIds[task])
    {
      assert ListedAt(warpIds, ctaIds, s, places[s]);
    }
  }

  lemma SlotsOfProgram(offsets: seq<i32>, warpIds: seq<nat>, ctaIds: seq<nat>, places: seq<Place>, owner: seq<nat>,
                       pid: nat, s: nat)
    requires Planned(offsets, warpIds, ctaIds, places, owner) && s < |owner|
    ensures s < |places| && !InSlots(places[s], pid, 0)
    ensures pid < PackedPrograms(|warpIds|) ==> (InSlots(places[s], pid, PACKED_TASKS) <==> owner[s] == pid)
  {
    assert ListedAt(warpIds, ctaIds, s, places[s]);
  }

  /** The packed half of a program: four totals and one masked store. */
  method PackedHalf<T(!new)>(m: Monoid<T>, values: seq<T>, offsets: seq<i32>, out: Buffer<T>, warpIds: seq<nat>,
                             pid: nat, enabled: bool, ghost ctaIds: seq<nat>, ghost places: seq<Place>,
                             ghost owner: seq<nat>, ghost done: set<nat>)
    requires Commutative(m) && Layout(values, offsets) && Planned(offsets, warpIds, ctaIds, places, owner)
    requires ListFits(offsets, warpIds, WARP) && (enabled <==> pid < PackedPrograms(|warpIds|))
    requires out.Launched(Wanted(m, values, offsets), owner, done) && pid !in done
    modifies out, out.cells
    ensures out.Launched(Wanted(m, values, offsets), owner, if enabled then done + {pid} else done)
  {
    var totals := ShortTotals(m, values, offsets, warpIds, pid, enabled);
    ghost var want := Wanted(m, values, offsets);
    assert forall s :: 0 <= s < |want| ==> want[s] == SegmentTotal(m, values, offsets, s);
    forall s: nat | s < |owner| {
      SlotsOfProgram(offsets, warpIds, ctaIds, places, owner, pid, s);
    }
    hide Commutative, ShortTotals, SegmentTotal, ListFits, Wanted, Planned, InSlots, Layout;
    for slot := 0 to PACKED_TASKS
      invariant |out.stores| == |owner| == out.cells.Length
      invariant forall s :: 0 <= s < |owner| ==>
                  if owner[s] in done || (enabled && InSlots(places[s], pid, slot))
                  then out.cells[s] == want[s] && out.stores[s] == 1 else out.stores[s] == 0
    {
      var task := pid * PACKED_TASKS + slot;
      SlotOwner(offsets, warpIds, ctaIds, places, owner, pid, slot);
      if enabled && task < |warpIds| {
        ShortTotal(m, values, offsets, warpIds, pid, slot);
        out.Store(warpIds[task], totals[slot]);
      }
    }
  }

  /** The segment of a long task, and the program that owns it. */
  lemma LongOwner(offsets: seq<i32>, warpIds: seq<nat>, ctaIds: seq<nat>, places: seq<Place>, owner: seq<nat>, c: nat)
    requires Planned(offsets, warpIds, ctaIds, places, owner) && c < |ctaIds|
    ensures ctaIds[c] < |owner| == |offsets| - 1
    ensures forall s :: 0 <= s < |owner| ==> (owner[s] == PackedPrograms(|warpIds|) + c <==> s == ctaIds[c])
  {
    forall s | 0 <= s < |owner| ensures owner[s] == PackedPrograms(|warpIds|) + c <==> s == ctaIds[c] {
      assert ListedAt(warpIds, ctaIds, s, places[s]);
    }
  }

  /** The longest segment of a list that one program reads in `lanes` lanes or steps. */
  ghost predicate ListCovered(offsets: seq<i32>, ids: seq<nat>, elements: nat) {
    forall t :: 0 <= t < |ids| ==> ids[t] + 1 < |offsets| && offsets[ids[t] + 1] - offsets[ids[t]] <= elements
  }

  /** The one store of a long task completes the cell of its segment. */
  method StoreTotal<T(!new)>(m: Monoid<T>, values: seq<T>, offsets: seq<i32>, out: Buffer<T>, segment: nat, total: T,
                             ghost program: nat, ghost owner: seq<nat>, ghost done: set<nat>)
    requires Layout(values, offsets) && segment + 1 < |offsets| && total == SegmentTotal(m, values, offsets, segment)
    requires out.Launched(Wanted(m, values, offsets), owner, done) && program !in done
    requires forall s :: 0 <= s < |owner| ==> (owner[s] == program <==> s == segment)
    modifies out, out.cells
    ensures out.Launched(Wanted(m, values, offsets), owner, done + {program})
  {
    assert Wanted(m, values, offsets)[segment] == total;
    hide Layout, SegmentTotal, Wanted;
    out.Store(segment, total);
  }

  /** The one-block kernel of a long task. */
  method CtaProgram<T(!new)>(m: Monoid<T>, values: seq<T>, offsets: seq<i32>, out: Buffer<T>, ctaIds: seq<nat>,
                             block: nat, c: nat, ghost warpIds: seq<nat>, ghost places: seq<Place>,
                             ghost owner: seq<nat>, ghost done: set<nat>)
    requires Commutative(m) && Layout(values, offsets) && Planned(offsets, warpIds, ctaIds, places, owner)
    requires c < |ctaIds|
    requires ListFits(offsets, ctaIds, block) && ListCovered(offsets, ctaIds, block)
    requires out.Launched(Wanted(m, values, offsets), owner, done) && PackedPrograms(|warpIds|) + c !in done
    modifies out, out.cells
    ensures out.Launched(Wanted(m, values, offsets), owner, done + {PackedPrograms(|warpIds|) + c})
  {
    var segment := ctaIds[c];
    LongOwner(offsets, warpIds, ctaIds, places, owner, c);
    SegmentInValues(values, offsets, segment);
    var begin, end := offsets[segment], offsets[segment + 1];
    assert LaneFits(offsets[ctaIds[c]], block);
    FoldOfTile(m, values, begin, end, block);
    hide Commutative, Lawful, Fold, Tile, Planned, Wanted, Layout;
    var data := Tile(m, values, begin, end, block, true);
    assert Covered(values, begin, end, block) == values[begin..end];
    StoreTotal(m, values, offsets, out, segment, Fold(m, data), PackedPrograms(|warpIds|) + c, owner, done);
  }

  /** The looping kernel of a long task. */
  method LoopedTaskProgram<T(!new)>(m: Monoid<T>, values: seq<T>, offsets: seq<i32>, out: Buffer<T>, ctaIds: seq<nat>,
                                    block: nat, c: nat, ghost warpIds: seq<nat>, ghost places: seq<Place>,
                                    ghost owner: seq<nat>, ghost done: set<nat>)
    requires Commutative(m) && Layout(values, offsets) && Planned(offsets, warpIds, ctaIds, places, owner)
    requires c < |ctaIds|
    requires block > 0 && ListLoopFits(offsets, ctaIds, block)
    requires out.Launched(Wanted(m, values, offsets), owner, done) && PackedPrograms(|warpIds|) + c !in done
    modifies out, out.cells
    ensures out.Launched(Wanted(m, values, offsets), owner, done + {PackedPrograms(|warpIds|) + c})
  {
    var segment := ctaIds[c];
    LongOwner(offsets, warpIds, ctaIds, places, owner, c);
    SegmentInValues(values, offsets, segment);
    hide Commutative, Lawful, Fold, Planned, LoopFits, Wanted, Layout, LoopedLanes;
    var total := LoopedTotal(m, values, offsets[segment], offsets[segment + 1], block);
    StoreTotal(m, values, offsets, out, segment, Fold(m, total), PackedPrograms(|warpIds|) + c, owner, done);
  }

  ghost predicate ListLoopFits(offsets: seq<i32>, ids: seq<nat>, block: nat)
    requires block > 0
  {
    forall t :: 0 <= t < |ids| ==> ids[t] + 1 < |offsets| && SegmentLoopFits(offsets, ids[t], block)
  }

  /** The accumulator, lane by lane, after the block-stride tiles from `base` on. */
  function StridedLanes<T(!new)>(m: Monoid<T>, values: seq<T>, begin: nat, end: nat, base: nat,
                                 total: seq<T>): (lanes: seq<T>)
    requires begin <= end <= |values| && LaneFits(begin, MAX_CTA_ELEMENTS) && |total| == LOGICAL_LANES
    requires base <= MAX_CTA_ELEMENTS && base % LOGICAL_LANES == 0
    ensures |lanes| == LOGICAL_LANES
    decreases MAX_CTA_ELEMENTS - base
  {
    if base == MAX_CTA_ELEMENTS then total
    else
      TileInBounds(|values|, begin + base, end, LOGICAL_LANES);
      StridedLanes(m, values, begin, end, base + LOGICAL_LANES,
                   Combine(m, total, Tile(m, values, begin + base, end, LOGICAL_LANES, true)))
  }

  /** The accumulator of the block-stride loads of a fused program, which always walk 4096 elements. */
  method StridedTotal<T(!new)>(m: Monoid<T>, values: seq<T>, begin: nat, end: nat, active: bool) returns (total: seq<T>)
    requires Commutative(m)
    requires active ==> begin <= end <= |values| && end - begin <= MAX_CTA_ELEMENTS && LaneFits(begin, MAX_CTA_ELEMENTS)
    ensures |total| == 128
    ensures active ==> total == StridedLanes(m, values, begin, end, 0, Fill(m, LOGICAL_LANES))
    ensures active ==> Fold(m, total) == Fold(m, values[begin..end])
  {
    hide Commutative, Lawful, Tile, Combine, Fill, LoadsInBounds, Lane;
    FoldOfFill(m, LOGICAL_LANES);
    total := Fill(m, LOGICAL_LANES);
    var base := 0;
    assert active ==> values[begin..Min(end, begin + base)] == [];
    hide Fold;
    while base < MAX_CTA_ELEMENTS
      invariant 0 <= base <= MAX_CTA_ELEMENTS && base % LOGICAL_LANES == 0 && |total| == LOGICAL_LANES
      invariant active ==> Fold(m, total) == Fold(m, values[begin..Min(end, begin + base)])
      invariant active ==>
                  var lanes := StridedLanes(m, values, begin, end, base, total);
                  lanes == StridedLanes(m, values, begin, end, 0, Fill(m, LOGICAL_LANES))
    {
      if active {
        AccumulateTile(m, values, begin, begin + base, end, LOGICAL_LANES, total);
      }
      total := Combine(m, total, Tile(m, values, begin + base, end, LOGICAL_LANES, active));
      base := base + LOGICAL_LANES;
    }
  }

  /** One fused program: its packed half and its long half, each masked off when the program is of the other kind. */
  method FusedProgram<T(!new)>(m: Monoid<T>, values: seq<T>, offsets: seq<i32>, out: Buffer<T>, warpIds: seq<nat>,
                               ctaIds: seq<nat>, warpPrograms: nat, pid: nat, ghost places: seq<Place>,
                               ghost owner: seq<nat>, ghost done: set<nat>)
    requires Commutative(m) && Layout(values, offsets) && Planned(offsets, warpIds, ctaIds, places, owner)
    requires warpPrograms == PackedPrograms(|warpIds|) && pid < warpPrograms + |ctaIds|
    requires ListFits(offsets, warpIds, WARP)
    requires ListFits(offsets, ctaIds, MAX_CTA_ELEMENTS) && ListCovered(offsets, ctaIds, MAX_CTA_ELEMENTS)
    requires out.Launched(Wanted(m, values, offsets), owner, done) && pid !in done
    modifies out, out.cells
    ensures out.Launched(Wanted(m, values, offsets), owner, done + {pid})
  {
    var isWarpProgram := pid < warpPrograms;
    hide Commutative, Planned, Layout, ListFits, ListCovered, Wanted;
    PackedHalf(m, values, offsets, out, warpIds, pid, isWarpProgram, ctaIds, places, owner, done);
    LongHalf(m, values, offsets, out, ctaIds, pid - warpPrograms, !isWarpProgram, warpIds, places, owner,
             if isWarpProgram then done + {pid} else done);
  }

  /** The long half of a fused program. */
  method LongHalf<T(!new)>(m: Monoid<T>, values: seq<T>, offsets: seq<i32>, out: Buffer<T>, ctaIds: seq<nat>,
                           ctaTask: int, enabled: bool, ghost warpIds: seq<nat>, ghost places: seq<Place>,
                           ghost owner: seq<nat>, ghost done: set<nat>)
    requires Commutative(m) && Layout(values, offsets) && Planned(offsets, warpIds, ctaIds, places, owner)
    requires ListFits(offsets, ctaIds, MAX_CTA_ELEMENTS) && ListCovered(offsets, ctaIds, MAX_CTA_ELEMENTS)
    requires enabled ==> 0 <= ctaTask < |ctaIds| && PackedPrograms(|warpIds|) + ctaTask !in done
    requires out.Launched(Wanted(m, values, offsets), owner, done)
    modifies out, out.cells
    ensures out.Launched(Wanted(m, values, offsets), owner,
                         if enabled then done + {PackedPrograms(|warpIds|) + ctaTask} else done)
  {
    var active := enabled && ctaTask < |ctaIds|;
    var segment := Load(ctaIds, ctaTask, active, 0);
    if active {
      LongOwner(offsets, warpIds, ctaIds, places, owner, ctaTask);
      SegmentInValues(values, offsets, segment);
      assert LaneFits(offsets[ctaIds[ctaTask]], MAX_CTA_ELEMENTS);
    }
    var begin: int := Load(offsets, segment, active, 0);
    var end: int := Load(offsets, segment + 1, active, 0);
    hide Commutative, Lawful, Fold, Planned, ListFits;
    var total := StridedTotal(m, values, begin, end, active);
    if active {
      out.Store(segment, Fold(m, total));
    }
  }

  // -------------------------------------------------------------- launches

  /** The owners of the segments under the device partition at 32 elements. */
  ghost function PlannedOwners(offsets: seq<i32>): seq<nat>
    requires 0 < |offsets|
  {
    var places := Places(Lengths(offsets));
    var warpPrograms := PackedPrograms(|WarpIds(offsets)|);
    seq(|offsets| - 1, s requires 0 <= s < |offsets| - 1 => OwnerOf(places[s], warpPrograms))
  }

  function WarpIds(offsets: seq<i32>): seq<nat>
    requires 0 < |offsets|
  {
    ShortIds(Lengths(offsets), |offsets| - 1)
  }

  function CtaIds(offsets: seq<i32>): seq<nat>
    requires 0 < |offsets|
  {
    LongIds(Lengths(offsets), |offsets| - 1)
  }

  lemma PartitionIsPlanned(offsets: seq<i32>)
    requires 0 < |offsets|
    ensures Planned(offsets, WarpIds(offsets), CtaIds(offsets), Places(Lengths(offsets)), PlannedOwners(offsets))
    ensures OwnedBy(PlannedOwners(offsets), |offsets| - 1, PackedPrograms(|WarpIds(offsets)|) + |CtaIds(offsets)|)
  {
    PartitionIsPartition(Lengths(offsets));
    var owner, places := PlannedOwners(offsets), Places(Lengths(offsets));
    assert |places| == |offsets| - 1 == |Lengths(offsets)|;
    OwnersInGrid(WarpIds(offsets), CtaIds(offsets), places, owner);
    hide Lengths, ShortIds, LongIds, Places, Partition, OwnerOf, PackedPrograms;
  }

  lemma OwnersInGrid(warpIds: seq<nat>, ctaIds: seq<nat>, places: seq<Place>, owner: seq<nat>)
    requires |owner| == |places| && forall s :: 0 <= s < |places| ==> ListedAt(warpIds, ctaIds, s, places[s])
    requires forall s :: 0 <= s < |owner| ==> owner[s] == OwnerOf(places[s], PackedPrograms(|warpIds|))
    ensures OwnedBy(owner, |places|, PackedPrograms(|warpIds|) + |ctaIds|)
  {
    forall s | 0 <= s < |owner| ensures owner[s] < PackedPrograms(|warpIds|) + |ctaIds| {
      assert ListedAt(warpIds, ctaIds, s, places[s]);
    }
  }

  /** One launch serves both task lists; its programs may run in any order. */
  method LaunchFused<T(!new)>(m: Monoid<T>, values: seq<T>, offsets: seq<i32>, out: Buffer<T>, order: seq<nat>)
    requires Commutative(m) && Layout(values, offsets)
    requires AnyOrder(order, PackedPrograms(|WarpIds(offsets)|) + |CtaIds(offsets)|)
    requires ListCovered(offsets, CtaIds(offsets), 4096)
    requires ListFits(offsets, WarpIds(offsets), 32) && ListFits(offsets, CtaIds(offsets), 4096)
    requires Untouched(out, |offsets| - 1)
    modifies out, out.cells
    ensures Reduced(m, values, offsets, out)
  {
    var warpIds, ctaIds := WarpIds(offsets), CtaIds(offsets);
    var warpPrograms := PackedPrograms(|warpIds|);
    ghost var owner := PlannedOwners(offsets);
    PartitionIsPlanned(offsets);
    hide Commutative, SegmentTotal, Planned, Layout, ListFits, ListCovered, WarpIds, CtaIds, PlannedOwners;
    for k := 0 to |order|
      invariant out.Launched(Wanted(m, values, offsets), owner, Ran(order, k))
    {
      RanNext(order, k);
      assert order[k] in order;
      FusedProgram(m, values, offsets, out, warpIds, ctaIds, warpPrograms, order[k], Places(Lengths(offsets)), owner,
                   Ran(order, k));
    }
    RanAll(order, warpPrograms + |ctaIds|);
    LaunchedAll(m, values, offsets, out, owner, Ran(order, |order|));
  }

  method LaunchPacked<T(!new)>(m: Monoid<T>, values: seq<T>, offsets: seq<i32>, out: Buffer<T>, warpIds: seq<nat>,
                               order: seq<nat>, ghost ctaIds: seq<nat>, ghost places: seq<Place>, ghost owner: seq<nat>)
    requires Commutative(m) && Layout(values, offsets) && Planned(offsets, warpIds, ctaIds, places, owner)
    requires AnyOrder(order, PackedPrograms(|warpIds|)) && ListFits(offsets, warpIds, WARP)
    requires out.Launched(Wanted(m, values, offsets), owner, {})
    modifies out, out.cells
    ensures out.Launched(Wanted(m, values, offsets), owner, Ran(order, |order|))
  {
    assert Ran(order, 0) == {};
    hide Commutative, SegmentTotal, Planned, Layout, ListFits, PackedPrograms;
    for k := 0 to |order|
      invariant out.Launched(Wanted(m, values, offsets), owner, Ran(order, k))
    {
      RanNext(order, k);
      assert order[k] in order;
      PackedHalf(m, values, offsets, out, warpIds, order[k], true, ctaIds, places, owner, Ran(order, k));
    }
  }

  /** One program per long task, in one block or looping in blocks. */
  method LaunchLong<T(!new)>(m: Monoid<T>, values: seq<T>, offsets: seq<i32>, out: Buffer<T>, ctaIds: seq<nat>,
                             looped: bool, block: nat, order: seq<nat>, ghost warpIds: seq<nat>,
                             ghost places: seq<Place>, ghost owner: seq<nat>, ghost done: set<nat>)
    requires Commutative(m) && Layout(values, offsets) && Planned(offsets, warpIds, ctaIds, places, owner)
    requires AnyOrder(order, |ctaIds|) && forall p :: p in done ==> p < PackedPrograms(|warpIds|)
    requires looped ==> block > 0 && ListLoopFits(offsets, ctaIds, block)
    requires !looped ==> ListFits(offsets, ctaIds, block) && ListCovered(offsets, ctaIds, block)
    requires out.Launched(Wanted(m, values, offsets), owner, done)
    modifies out, out.cells
    ensures out.Launched(Wanted(m, values, offsets), owner,
                         done + Ran(After(PackedPrograms(|warpIds|), order), |order|))
  {
    ghost var first := PackedPrograms(|warpIds|);
    ghost var after := After(first, order);
    AfterAll(first, order, |ctaIds|);
    assert done + Ran(after, 0) == done;
    hide Commutative, SegmentTotal, Planned, Layout, ListFits, ListLoopFits, ListCovered, PackedPrograms, Wanted;
    for k := 0 to |order|
      invariant out.Launched(Wanted(m, values, offsets), owner, done + Ran(after, k))
    {
      RanNext(after, k);
      assert order[k] in order && after[k] == first + order[k];
      assert done + Ran(after, k + 1) == done + Ran(after, k) + {first + order[k]};
      if looped {
        LoopedTaskProgram(m, values, offsets, out, ctaIds, block, order[k], warpIds, places, owner,
                          done + Ran(after, k));
      } else {
        CtaProgram(m, values, offsets, out, ctaIds, block, order[k], warpIds, places, owner, done + Ran(after, k));
      }
    }
  }

  /** Two launches: packed short tasks, then the long tasks. */
  method LaunchPlanned<T(!new)>(m: Monoid<T>, values: seq<T>, offsets: seq<i32>, out: Buffer<T>, looped: bool,
                                block: nat, packedOrder: seq<nat>, longOrder: seq<nat>)
    requires Commutative(m) && Layout(values, offsets)
    requires AnyOrder(packedOrder, PackedPrograms(|WarpIds(offsets)|)) && AnyOrder(longOrder, |CtaIds(offsets)|)
    requires ListFits(offsets, WarpIds(offsets), WARP)
    requires looped ==> block > 0 && ListLoopFits(offsets, CtaIds(offsets), block)
    requires !looped ==> block == CTA_BLOCK && ListFits(offsets, CtaIds(offsets), block)
    requires !looped ==> ListCovered(offsets, CtaIds(offsets), block)
    requires Untouched(out, |offsets| - 1)
    modifies out, out.cells
    ensures Reduced(m, values, offsets, out)
  {
    var warpIds, ctaIds := WarpIds(offsets), CtaIds(offsets);
    ghost var owner, places := PlannedOwners(offsets), Places(Lengths(offsets));
    ghost var packed := PackedPrograms(|warpIds|);
    PartitionIsPlanned(offsets);
    RanAll(packedOrder, packed);
    AfterAll(packed, longOrder, |ctaIds|);
    hide Commutative, Planned, Layout, ListFits, ListLoopFits, ListCovered, WarpIds, CtaIds, PlannedOwners, Wanted,
      PackedPrograms;
    LaunchPacked(m, values, offsets, out, warpIds, packedOrder, ctaIds, places, owner);
    ghost var done := Ran(packedOrder, |packedOrder|);
    LaunchLong(m, values, offsets, out, ctaIds, looped, block, longOrder, warpIds, places, owner, done);
    LaunchedAll(m, values, offsets, out, owner, done + Ran(After(packed, longOrder), |longOrder|));
  }

  lemma LaunchedAll<T(!new)>(m: Monoid<T>, values: seq<T>, offsets: seq<i32>, out: Buffer<T>, owner: seq<nat>,
                             done: set<nat>)
    requires Layout(values, offsets) && |owner| == |offsets| - 1 && forall s :: 0 <= s < |owner| ==> owner[s] in done
    requires out.Launched(Wanted(m, values, offsets), owner, done)
    ensures Reduced(m, values, offsets, out)
  {
    hide SegmentTotal;
  }

  // --------------------------------------------------- loads of the launches

  /** The block-stride loads of a fused program, from `base` on. */
  ghost predicate StridedLoadsInBounds(count: nat, begin: int, end: int, base: nat)
    decreases MAX_CTA_ELEMENTS - base
  {
    base >= MAX_CTA_ELEMENTS
    || (&& LoadsInBounds(count, begin + base, end, LOGICAL_LANES)
        && StridedLoadsInBounds(count, begin, end, base + LOGICAL_LANES))
  }

  /** A fused program walks 4096 elements whatever the length, so its last lane decides. */
  lemma {:induction false} StridedLoadsInBoundsIff(count: nat, begin: nat, end: nat, base: nat)
    requires begin <= end <= count <= I32_MAX && base <= MAX_CTA_ELEMENTS && base % LOGICAL_LANES == 0
    ensures StridedLoadsInBounds(count, begin, end, base)
       <==> base == MAX_CTA_ELEMENTS || LaneFits(begin, MAX_CTA_ELEMENTS)
    decreases MAX_CTA_ELEMENTS - base
  {
    if base < MAX_CTA_ELEMENTS {
      LoadsInBoundsIff(count, begin + base, end, LOGICAL_LANES);
      StridedLoadsInBoundsIff(count, begin, end, base + LOGICAL_LANES);
    }
  }

  /** Every load of a value in the fused launch is inside the values. */
  ghost predicate FusedLoadsInBounds<T>(values: seq<T>, offsets: seq<i32>)
    requires Layout(values, offsets)
  {
    && (forall t :: 0 <= t < |WarpIds(offsets)| ==> TileLoadsInBounds(values, offsets, WarpIds(offsets)[t], WARP))
    && (forall c :: 0 <= c < |CtaIds(offsets)| ==> LongLoadsInBounds(values, offsets, CtaIds(offsets)[c]))
  }

  /** The loads of one tile over a segment. */
  ghost predicate TileLoadsInBounds<T>(values: seq<T>, offsets: seq<i32>, s: nat, lanes: nat) {
    s + 1 < |offsets| && LoadsInBounds(|values|, offsets[s], offsets[s + 1], lanes)
  }

  /** The loads of the loop over a segment. */
  ghost predicate SegmentLoopLoadsInBounds<T>(values: seq<T>, offsets: seq<i32>, s: nat, block: nat) {
    s + 1 < |offsets| && LoopLoadsInBounds(|values|, offsets[s], offsets[s + 1], block)
  }

  ghost predicate LongLoadsInBounds<T>(values: seq<T>, offsets: seq<i32>, s: nat) {
    s + 1 < |offsets| && StridedLoadsInBounds(|values|, offsets[s], offsets[s + 1], 0)
  }

  lemma IdsInLayout(offsets: seq<i32>)
    requires 0 < |offsets|
    ensures forall t :: 0 <= t < |WarpIds(offsets)| ==> WarpIds(offsets)[t] + 1 < |offsets|
    ensures forall c :: 0 <= c < |CtaIds(offsets)| ==> CtaIds(offsets)[c] + 1 < |offsets|
  {
    hide ShortIds, LongIds;
    PartitionIsPartition(Lengths(offsets));
  }

  /** The fused launch reads only values exactly when its tiles keep i32 lane indices. */
  lemma FusedLoadsInBoundsIff<T>(values: seq<T>, offsets: seq<i32>)
    requires Layout(values, offsets)
    ensures FusedLoadsInBounds(values, offsets)
        <==> ListFits(offsets, WarpIds(offsets), 32) && ListFits(offsets, CtaIds(offsets), 4096)
  {
    var warpIds, ctaIds := WarpIds(offsets), CtaIds(offsets);
    IdsInLayout(offsets);
    hide WarpIds, CtaIds;
    forall t | 0 <= t < |warpIds|
      ensures TileLoadsInBounds(values, offsets, warpIds[t], WARP) <==> LaneFits(offsets[warpIds[t]], WARP)
    {
      SegmentInValues(values, offsets, warpIds[t]);
      LoadsInBoundsIff(|values|, offsets[warpIds[t]], offsets[warpIds[t] + 1], WARP);
    }
    forall c | 0 <= c < |ctaIds|
      ensures LongLoadsInBounds(values, offsets, ctaIds[c]) <==> LaneFits(offsets[ctaIds[c]], MAX_CTA_ELEMENTS)
    {
      SegmentInValues(values, offsets, ctaIds[c]);
      StridedLoadsInBoundsIff(|values|, offsets[ctaIds[c]], offsets[ctaIds[c] + 1], 0);
    }
  }

  lemma SegmentLoadsInBoundsIff<T>(values: seq<T>, offsets: seq<i32>, s: nat, block: nat)
    requires Layout(values, offsets) && s + 1 < |offsets| && 0 < block <= I32_MAX
    ensures TileLoadsInBounds(values, offsets, s, block) <==> LaneFits(offsets[s], block)
    ensures SegmentLoopLoadsInBounds(values, offsets, s, block) <==> SegmentLoopFits(offsets, s, block)
  {
    SegmentInValues(values, offsets, s);
    LoadsInBoundsIff(|values|, offsets[s], offsets[s + 1], block);
    LoopLoadsInBoundsIff(|values|, offsets[s], offsets[s + 1], block);
    hide LoadsInBounds, LoopLoadsInBounds, LoopFits;
  }

  /** The one-block and the looped launch, one program per segment. */
  lemma SegmentLaunchLoadsInBoundsIff<T>(values: seq<T>, offsets: seq<i32>, block: nat)
    requires Layout(values, offsets) && 0 < block <= I32_MAX
    ensures (forall s: nat :: s < |offsets| - 1 ==> TileLoadsInBounds(values, offsets, s, block))
       <==> BlockFits(offsets, block)
    ensures (forall s: nat :: s < |offsets| - 1 ==> SegmentLoopLoadsInBounds(values, offsets, s, block))
       <==> (forall s :: 0 <= s < |offsets| - 1 ==> SegmentLoopFits(offsets, s, block))
  {
    forall s: nat | s < |offsets| - 1
      ensures TileLoadsInBounds(values, offsets, s, block) <==> LaneFits(offsets[s], block)
      ensures SegmentLoopLoadsInBounds(values, offsets, s, block) <==> SegmentLoopFits(offsets, s, block)
    {
      SegmentLoadsInBoundsIff(values, offsets, s, block);
    }
    hide TileLoadsInBounds, SegmentLoopLoadsInBounds, SegmentLoopFits, Layout;
  }

  /** The tasks of a list, in one tile each or looping. */
  lemma ListLoadsInBoundsIff<T>(values: seq<T>, offsets: seq<i32>, ids: seq<nat>, block: nat)
    requires Layout(values, offsets) && 0 < block <= I32_MAX && forall t :: 0 <= t < |ids| ==> ids[t] + 1 < |offsets|
    ensures (forall t :: 0 <= t < |ids| ==> TileLoadsInBounds(values, offsets, ids[t], block))
       <==> ListFits(offsets, ids, block)
    ensures (forall t :: 0 <= t < |ids| ==> SegmentLoopLoadsInBounds(values, offsets, ids[t], block))
       <==> ListLoopFits(offsets, ids, block)
  {
    forall t | 0 <= t < |ids|
      ensures TileLoadsInBounds(values, offsets, ids[t], block) <==> LaneFits(offsets[ids[t]], block)
      ensures SegmentLoopLoadsInBounds(values, offsets, ids[t], block) <==> SegmentLoopFits(offsets, ids[t], block)
    {
      SegmentLoadsInBoundsIff(values, offsets, ids[t], block);
    }
    hide TileLoadsInBounds, SegmentLoopLoadsInBounds, SegmentLoopFits, Layout;
  }

  /** Every load of a value in the two launches of a plan. */
  ghost predicate PlannedLoadsInBounds<T>(values: seq<T>, offsets: seq<i32>, looped: bool, block: nat)
    requires Layout(values, offsets)
  {
    && (forall t :: 0 <= t < |WarpIds(offsets)| ==> TileLoadsInBounds(values, offsets, WarpIds(offsets)[t], WARP))
    && forall c :: 0 <= c < |CtaIds(offsets)| ==>
         if looped then SegmentLoopLoadsInBounds(values, offsets, CtaIds(offsets)[c], block)
         else TileLoadsInBounds(values, offsets, CtaIds(offsets)[c], block)
  }

  /** They are in bounds exactly under what the launch requires of its lanes and counters. */
  lemma PlannedLoadsInBoundsIff<T>(values: seq<T>, offsets: seq<i32>, looped: bool, block: nat)
    requires Layout(values, offsets) && 0 < block <= I32_MAX
    ensures PlannedLoadsInBounds(values, offsets, looped, block)
       <==> (ListFits(offsets, WarpIds(offsets), WARP)
             && if looped then ListLoopFits(offsets, CtaIds(offsets), block)
                else ListFits(offsets, CtaIds(offsets), block))
  {
    IdsInLayout(offsets);
    ListLoadsInBoundsIff(values, offsets, WarpIds(offsets), WARP);
    ListLoadsInBoundsIff(values, offsets, CtaIds(offsets), block);
    hide WarpIds, CtaIds, TileLoadsInBounds, SegmentLoopLoadsInBounds, ListFits, ListLoopFits, Layout;
  }

  lemma {:induction false} ShortLoopFits(start: int, end: int, block: nat)
    requires 0 < block <= MAX_CTA_ELEMENTS && end <= 0x8000_0000 - MAX_CTA_ELEMENTS
    ensures LoopFits(start, end, block)
    decreases end - start
  {
    if start < end { ShortLoopFits(start + block, end, block); }
  }

  /** A layout of at most 2^31 - 4096 values meets every condition on lane indices, at every block up to 4096. */
  lemma SmallLayoutFits<T>(values: seq<T>, offsets: seq<i32>, block: nat)
    requires Layout(values, offsets) && |values| <= 0x8000_0000 - 4096 && 0 < block <= 4096
    ensures BlockFits(offsets, block)
    ensures forall s :: 0 <= s < |offsets| - 1 ==> SegmentLoopFits(offsets, s, block)
    ensures ListFits(offsets, WarpIds(offsets), block) && ListFits(offsets, CtaIds(offsets), block)
    ensures ListLoopFits(offsets, CtaIds(offsets), block)
  {
    IdsInLayout(offsets);
    forall s | 0 <= s < |offsets| - 1 ensures LaneFits(offsets[s], block) && SegmentLoopFits(offsets, s, block) {
      SegmentInValues(values, offsets, s);
      ShortLoopFits(offsets[s], offsets[s + 1], block);
    }
    hide WarpIds, CtaIds, LoopFits, Layout;
  }
}
