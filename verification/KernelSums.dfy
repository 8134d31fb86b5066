/**
 A kernel that sums in floating point is a summation tree. Run over trees instead of
 numbers, the lanes of the looped kernel hold the segment and zeros, whatever shape
 the last reduction has; so the any-order bound applies to what it stores.
 */
module KernelSums {
  import opened Integers
  import opened Wrappers
  import opened Monoids
  import opened SegmentTiles
  import opened SumError
  import TritonKernels
  import Sums

  /** The relative error of the addition of two results, however they came about. */
  type Rounding = (Tree, Tree) -> real

  ghost predicate Rounds(round: Rounding, f: Format, quantum: Option<real>) {
    forall a, b :: RoundsHere(round, a, b, f, quantum)
  }

  ghost predicate RoundsHere(round: Rounding, a: Tree, b: Tree, f: Format, quantum: Option<real>) {
    && Abs(round(a, b)) <= f.unit
    && (Computed(a) == 0.0 || Computed(b) == 0.0 ==> round(a, b) == 0.0)
    && (Representable(Computed(a) + Computed(b), f, quantum) ==> round(a, b) == 0.0)
  }

  /** Addition that remembers its operands; masked lanes read zero. */
  function Additions(round: Rounding): Monoid<Tree> {
    Monoid((a: Tree, b: Tree) => Add(a, b, round(a, b)), Zero)
  }

  function Leaves(xs: seq<real>): (leaves: seq<Tree>)
    ensures |leaves| == |xs|
  {
    seq(|xs|, i requires 0 <= i < |xs| => Value(xs[i]))
  }

  /** The values of the lanes of an order, one after the other. */
  function Picked(order: seq<nat>, lanes: seq<Tree>): seq<real> {
    if order == [] then []
    else (if order[0] < |lanes| then Values(lanes[order[0]]) else []) + Picked(order[1..], lanes)
  }

  function All(n: nat): seq<nat> {
    seq(n, i requires 0 <= i < n => i)
  }

  function LaneValues(lanes: seq<Tree>): seq<real> {
    if lanes == [] then [] else Values(lanes[0]) + LaneValues(lanes[1..])
  }

  ghost predicate AllRounded(lanes: seq<Tree>, f: Format, quantum: Option<real>) {
    forall l :: 0 <= l < |lanes| ==> RoundedBy(lanes[l], f, quantum)
  }

  // ------------------------------------------------------------ one step

  lemma {:induction false} CombineHolds(round: Rounding, a: seq<Tree>, b: seq<Tree>)
    requires |a| == |b|
    ensures multiset(LaneValues(Combine(Additions(round), a, b))) == multiset(LaneValues(a)) + multiset(LaneValues(b))
  {
    if a != [] {
      CombineHolds(round, a[1..], b[1..]);
      assert Combine(Additions(round), a, b)[1..] == Combine(Additions(round), a[1..], b[1..]);
    }
  }

  lemma CombineRounds(round: Rounding, a: seq<Tree>, b: seq<Tree>, f: Format, quantum: Option<real>)
    requires |a| == |b| && Rounds(round, f, quantum) && AllRounded(a, f, quantum) && AllRounded(b, f, quantum)
    ensures AllRounded(Combine(Additions(round), a, b), f, quantum)
  {
    hide Representable, Abs, Computed;
    forall l | 0 <= l < |a| ensures RoundedBy(Combine(Additions(round), a, b)[l], f, quantum) {
      assert RoundsHere(round, a[l], b[l], f, quantum);
    }
  }

  lemma {:induction false} ZerosHoldNothing(round: Rounding, lanes: nat)
    ensures LaneValues(Fill(Additions(round), lanes)) == []
  {
    if lanes > 0 {
      ZerosHoldNothing(round, lanes - 1);
      assert Fill(Additions(round), lanes)[1..] == Fill(Additions(round), lanes - 1);
    }
  }

  lemma {:induction false} LaneValuesConcat(a: seq<Tree>, b: seq<Tree>)
    ensures LaneValues(a + b) == LaneValues(a) + LaneValues(b)
  {
    if a == [] {
      assert a + b == b;
    } else {
      LaneValuesConcat(a[1..], b);
      assert (a + b)[1..] == a[1..] + b;
    }
  }

  lemma {:induction false} LeavesHold(xs: seq<real>)
    ensures LaneValues(Leaves(xs)) == xs
  {
    if xs != [] {
      LeavesHold(xs[1..]);
      assert Leaves(xs)[1..] == Leaves(xs[1..]);
    }
  }

  /** A tile holds the values it covers. */
  lemma TileHolds(round: Rounding, values: seq<real>, start: nat, end: nat, block: nat)
    requires start <= end <= |values| && start + block - 1 <= 0x7fff_ffff
    ensures LoadsInBounds(|values|, start, end, block)
    ensures LaneValues(Tile(Additions(round), Leaves(values), start, end, block, true))
         == values[start..Min(end, start + block)]
  {
    TritonKernels.TileInBounds(|values|, start, end, block);
    var covered := values[start..Min(end, start + block)];
    assert forall l :: 0 <= l < block ==> Lane(start, l) == start + l;
    assert Tile(Additions(round), Leaves(values), start, end, block, true)
        == Leaves(covered) + Fill(Additions(round), block - |covered|);
    LaneValuesConcat(Leaves(covered), Fill(Additions(round), block - |covered|));
    LeavesHold(covered);
    ZerosHoldNothing(round, block - |covered|);
  }

  lemma TileIsRounded(round: Rounding, values: seq<real>, start: nat, end: nat, block: nat, f: Format,
                      quantum: Option<real>)
    requires LoadsInBounds(|values|, start, end, block)
    ensures AllRounded(Tile(Additions(round), Leaves(values), start, end, block, true), f, quantum)
  {
  }

  // ------------------------------------------------------------ the loop

  /** Lanes that hold exactly the values of `xs`, each a rounded tree. */
  ghost predicate Holds(lanes: seq<Tree>, xs: seq<real>, f: Format, quantum: Option<real>) {
    multiset(LaneValues(lanes)) == multiset(xs) && AllRounded(lanes, f, quantum)
  }

  lemma SlicesJoin(values: seq<real>, begin: nat, start: nat, to: nat)
    requires begin <= start <= to <= |values|
    ensures multiset(values[begin..to]) == multiset(values[begin..start]) + multiset(values[start..to])
  {
    assert values[begin..to] == values[begin..start] + values[start..to];
  }

  lemma StepHolds(round: Rounding, values: seq<real>, begin: nat, start: nat, end: nat, block: nat, total: seq<Tree>,
                  f: Format, quantum: Option<real>)
    requires begin <= start < end <= |values| && |total| == block && start + block - 1 <= 0x7fff_ffff
    requires Rounds(round, f, quantum)
    requires Holds(total, values[begin..start], f, quantum)
    ensures LoadsInBounds(|values|, start, end, block)
    ensures Holds(Combine(Additions(round), total, Tile(Additions(round), Leaves(values), start, end, block, true)),
                  values[begin..Min(end, start + block)], f, quantum)
  {
    TileHolds(round, values, start, end, block);
    TileIsRounded(round, values, start, end, block, f, quantum);
    var tile := Tile(Additions(round), Leaves(values), start, end, block, true);
    CombineHolds(round, total, tile);
    CombineRounds(round, total, tile, f, quantum);
    SlicesJoin(values, begin, start, Min(end, start + block));
    hide Rounds, AllRounded, LaneValues, Combine, Tile, Leaves, Additions, LoadsInBounds, Lane;
  }

  /** After the loop the lanes hold the segment, and every addition was rounded. */
  lemma {:induction false} LoopHolds(round: Rounding, values: seq<real>, begin: nat, start: nat, end: nat, block: nat,
                                     total: seq<Tree>, f: Format, quantum: Option<real>)
    requires block > 0 && begin <= start && begin <= end <= |values| && |total| == block
    requires TritonKernels.LoopFits(start, end, block) && Rounds(round, f, quantum)
    requires Holds(total, values[begin..Min(end, start)], f, quantum)
    ensures var lanes := TritonKernels.LoopedLanes(Additions(round), Leaves(values), start, end, block, total);
            Holds(lanes, values[begin..end], f, quantum)
    decreases end - start
  {
    hide Rounds, Holds, Combine, Tile, Leaves, Additions;
    if start < end {
      StepHolds(round, values, begin, start, end, block, total, f, quantum);
      var next := Combine(Additions(round), total, Tile(Additions(round), Leaves(values), start, end, block, true));
      LoopHolds(round, values, begin, start + block, end, block, next, f, quantum);
    }
  }

  // ------------------------------------------------- the block-stride loop

  /** A tile past the segment holds nothing. */
  lemma TileOfNothing(round: Rounding, values: seq<real>, start: nat, end: nat, block: nat)
    requires end <= start && end <= |values| && start + block - 1 <= 0x7fff_ffff
    ensures LoadsInBounds(|values|, start, end, block)
    ensures Tile(Additions(round), Leaves(values), start, end, block, true) == Fill(Additions(round), block)
  {
    TritonKernels.TileInBounds(|values|, start, end, block);
    assert forall l :: 0 <= l < block ==> Lane(start, l) == start + l;
  }

  lemma StepPastHolds(round: Rounding, values: seq<real>, start: nat, end: nat, block: nat, total: seq<Tree>,
                      xs: seq<real>, f: Format, quantum: Option<real>)
    requires end <= start && end <= |values| && |total| == block && start + block - 1 <= 0x7fff_ffff
    requires Rounds(round, f, quantum)
    requires Holds(total, xs, f, quantum)
    ensures LoadsInBounds(|values|, start, end, block)
    ensures var tile := Tile(Additions(round), Leaves(values), start, end, block, true);
            Holds(Combine(Additions(round), total, tile), xs, f, quantum)
  {
    TileOfNothing(round, values, start, end, block);
    TileIsRounded(round, values, start, end, block, f, quantum);
    ZerosHoldNothing(round, block);
    var tile := Tile(Additions(round), Leaves(values), start, end, block, true);
    CombineHolds(round, total, tile);
    CombineRounds(round, total, tile, f, quantum);
    hide Rounds, AllRounded, LaneValues, Combine, Tile, Leaves, Additions, LoadsInBounds, Lane;
  }

  /** After the strided loop of a fused program the lanes hold the segment. */
  lemma {:induction false} StridesHold(round: Rounding, values: seq<real>, begin: nat, end: nat, base: nat,
                                       total: seq<Tree>, f: Format, quantum: Option<real>)
    requires begin <= end <= |values| && end - begin <= TritonKernels.MAX_CTA_ELEMENTS && Rounds(round, f, quantum)
    requires TritonKernels.LaneFits(begin, TritonKernels.MAX_CTA_ELEMENTS) && |total| == TritonKernels.LOGICAL_LANES
    requires base <= TritonKernels.MAX_CTA_ELEMENTS && base % TritonKernels.LOGICAL_LANES == 0
    requires Holds(total, values[begin..Min(end, begin + base)], f, quantum)
    ensures var lanes := TritonKernels.StridedLanes(Additions(round), Leaves(values), begin, end, base, total);
            Holds(lanes, values[begin..end], f, quantum)
    decreases TritonKernels.MAX_CTA_ELEMENTS - base
  {
    hide Rounds, Holds, Combine, Tile, Leaves, Additions;
    if base < TritonKernels.MAX_CTA_ELEMENTS {
      var start, lanes := begin + base, TritonKernels.LOGICAL_LANES;
      if start < end {
        StepHolds(round, values, begin, start, end, lanes, total, f, quantum);
      } else {
        StepPastHolds(round, values, start, end, lanes, total, values[begin..end], f, quantum);
      }
      var next := Combine(Additions(round), total, Tile(Additions(round), Leaves(values), start, end, lanes, true));
      StridesHold(round, values, begin, end, base + lanes, next, f, quantum);
    }
  }

  // ------------------------------------------------------- the last reduction

  /** Any order of reducing the lanes. */
  datatype Shape = One(lane: nat) | Join(a: Shape, b: Shape)

  function LanesOf(shape: Shape): seq<nat> {
    match shape
    case One(l) => [l]
    case Join(a, b) => LanesOf(a) + LanesOf(b)
  }

  /** No lane past the last. */
  predicate InLanes(shape: Shape, lanes: nat) {
    match shape
    case One(l) => l < lanes
    case Join(a, b) => InLanes(a, lanes) && InLanes(b, lanes)
  }

  /** Every lane once. */
  ghost predicate Reduces(shape: Shape, lanes: nat) {
    InLanes(shape, lanes) && multiset(LanesOf(shape)) == multiset(All(lanes))
  }

  function Reduce(shape: Shape, lanes: seq<Tree>, round: Rounding): Tree
    requires InLanes(shape, |lanes|)
  {
    match shape
    case One(l) => lanes[l]
    case Join(a, b) =>
      var x, y := Reduce(a, lanes, round), Reduce(b, lanes, round);
      Add(x, y, round(x, y))
  }

  lemma {:induction false} PickedConcat(s: seq<nat>, t: seq<nat>, lanes: seq<Tree>)
    ensures Picked(s + t, lanes) == Picked(s, lanes) + Picked(t, lanes)
  {
    hide Values;
    if s == [] {
      assert s + t == t;
    } else {
      assert (s + t)[1..] == s[1..] + t;
      PickedConcat(s[1..], t, lanes);
    }
  }

  lemma {:induction false} ReduceValues(shape: Shape, lanes: seq<Tree>, round: Rounding)
    requires InLanes(shape, |lanes|)
    ensures Values(Reduce(shape, lanes, round)) == Picked(LanesOf(shape), lanes)
  {
    match shape
    case One(l) =>
      assert [l][1..] == [];
    case Join(a, b) =>
      ReduceValues(a, lanes, round);
      ReduceValues(b, lanes, round);
      PickedConcat(LanesOf(a), LanesOf(b), lanes);
      hide Picked;
  }

  lemma {:induction false} ReduceRounds(shape: Shape, lanes: seq<Tree>, round: Rounding, f: Format,
                                        quantum: Option<real>)
    requires InLanes(shape, |lanes|) && Rounds(round, f, quantum) && AllRounded(lanes, f, quantum)
    ensures RoundedBy(Reduce(shape, lanes, round), f, quantum)
  {
    hide Rounds, Representable, Abs, Computed;
    match shape
    case One(l) =>
    case Join(a, b) =>
      ReduceRounds(a, lanes, round, f, quantum);
      ReduceRounds(b, lanes, round, f, quantum);
      RoundsAt(round, Reduce(a, lanes, round), Reduce(b, lanes, round), f, quantum);
  }

  lemma RoundsAt(round: Rounding, a: Tree, b: Tree, f: Format, quantum: Option<real>)
    requires Rounds(round, f, quantum)
    ensures RoundsHere(round, a, b, f, quantum)
  {
  }

  /** The order of the lanes does not matter for what they hold. */
  lemma {:induction false} PickedPermutes(s: seq<nat>, t: seq<nat>, lanes: seq<Tree>)
    requires multiset(s) == multiset(t)
    ensures multiset(Picked(s, lanes)) == multiset(Picked(t, lanes))
  {
    if s == [] {
      assert |multiset(t)| == |t|;
    } else {
      assert s[0] in multiset(t);
      var i :| 0 <= i < |t| && t[i] == s[0];
      Sums.RemoveFromBoth(s, t, i);
      assert t == t[..i] + ([t[i]] + t[i + 1..]);
      PickedConcat(t[..i], [t[i]] + t[i + 1..], lanes);
      PickedConcat(t[..i], t[i + 1..], lanes);
      assert ([t[i]] + t[i + 1..])[1..] == t[i + 1..];
      PickedPermutes(s[1..], t[..i] + t[i + 1..], lanes);
    }
  }

  lemma {:induction false} PickedAll(lanes: seq<Tree>, k: nat)
    requires k <= |lanes|
    ensures Picked(All(k), lanes) == LaneValues(lanes[..k])
  {
    if k > 0 {
      PickedAll(lanes, k - 1);
      assert All(k) == All(k - 1) + [k - 1];
      PickedConcat(All(k - 1), [k - 1], lanes);
      assert lanes[..k] == lanes[..k - 1] + [lanes[k - 1]];
      LaneValuesConcat(lanes[..k - 1], [lanes[k - 1]]);
      assert [k - 1][1..] == [] && [lanes[k - 1]][1..] == [];
    }
  }

  /** Whatever reduces lanes that hold some values is a rounded tree over a permutation of them. */
  lemma ReductionHolds(lanes: seq<Tree>, xs: seq<real>, shape: Shape, round: Rounding, f: Format, quantum: Option<real>)
    requires Holds(lanes, xs, f, quantum) && Reduces(shape, |lanes|) && Rounds(round, f, quantum)
    ensures multiset(Values(Reduce(shape, lanes, round))) == multiset(xs)
    ensures RoundedBy(Reduce(shape, lanes, round), f, quantum)
  {
    hide Rounds, AllRounded, LaneValues, Picked, Reduce, Values, RoundedBy;
    ShapePicksAll(shape, lanes);
    ReduceValues(shape, lanes, round);
    ReduceRounds(shape, lanes, round, f, quantum);
  }

  lemma ShapePicksAll(shape: Shape, lanes: seq<Tree>)
    requires Reduces(shape, |lanes|)
    ensures multiset(Picked(LanesOf(shape), lanes)) == multiset(LaneValues(lanes))
  {
    hide LaneValues, Picked, LanesOf;
    PickedPermutes(LanesOf(shape), All(|lanes|), lanes);
    PickedAll(lanes, |lanes|);
    assert lanes[..|lanes|] == lanes;
  }

  lemma ZerosHold(round: Rounding, block: nat, f: Format, quantum: Option<real>)
    ensures Holds(Fill(Additions(round), block), [], f, quantum)
  {
    ZerosHoldNothing(round, block);
  }

  lemma TreeWithinTolerance(t: Tree, xs: seq<real>, f: Format, quantum: Option<real>)
    requires multiset(Values(t)) == multiset(xs) && RoundedBy(t, f, quantum) && Promised(xs, f, quantum)
    ensures Within(Computed(t) - SumError.Sum(xs), SumTolerance(|xs|, Magnitude(xs), quantum, f))
  {
    hide Computed, SumTolerance, RoundedBy, Within, AllOnGrid, Values;
    SumOfPermutation(xs, Values(t));
    if quantum.Some? { GridOfPermutation(xs, Values(t), quantum.value); }
    SumWithinTolerance(t, f, quantum);
  }

  /** A rounded summation tree over a permutation of the values, within the tolerance of their exact sum. */
  ghost predicate SumsWithin(t: Tree, xs: seq<real>, f: Format, quantum: Option<real>) {
    && multiset(Values(t)) == multiset(xs) && RoundedBy(t, f, quantum)
    && Within(Computed(t) - SumError.Sum(xs), SumTolerance(|xs|, Magnitude(xs), quantum, f))
  }

  lemma LanesSumWithin(lanes: seq<Tree>, xs: seq<real>, shape: Shape, round: Rounding, f: Format, quantum: Option<real>)
    requires Holds(lanes, xs, f, quantum) && Reduces(shape, |lanes|) && Rounds(round, f, quantum)
    requires Promised(xs, f, quantum)
    ensures SumsWithin(Reduce(shape, lanes, round), xs, f, quantum)
  {
    hide Rounds, Holds, Reduce, Computed, SumTolerance, RoundedBy, Within, Promised, Values;
    ReductionHolds(lanes, xs, shape, round, f, quantum);
    TreeWithinTolerance(Reduce(shape, lanes, round), xs, f, quantum);
  }

  /** What the looped kernel stores is one summation tree over its segment, within the tolerance of the exact sum. */
  lemma LoopedSumWithinTolerance(values: seq<real>, begin: nat, end: nat, block: nat, shape: Shape, round: Rounding,
                                 f: Format, quantum: Option<real>)
    requires block > 0 && begin <= end <= |values| && TritonKernels.LoopFits(begin, end, block) && Reduces(shape, block)
    requires Rounds(round, f, quantum) && Promised(values[begin..end], f, quantum)
    ensures var zeros := Fill(Additions(round), block);
            var lanes := TritonKernels.LoopedLanes(Additions(round), Leaves(values), begin, end, block, zeros);
            SumsWithin(Reduce(shape, lanes, round), values[begin..end], f, quantum)
  {
    var zeros := Fill(Additions(round), block);
    ZerosHold(round, block, f, quantum);
    assert values[begin..Min(end, begin)] == [];
    hide Rounds, Holds, Additions, Leaves, Reduce, SumsWithin, Promised, Fill, Reduces, TritonKernels.LoopedLanes;
    LoopHolds(round, values, begin, begin, end, block, zeros, f, quantum);
    var lanes := TritonKernels.LoopedLanes(Additions(round), Leaves(values), begin, end, block, zeros);
    LanesSumWithin(lanes, values[begin..end], shape, round, f, quantum);
  }

  /** So is what the long half of a fused program stores. */
  lemma StridedSumWithinTolerance(values: seq<real>, begin: nat, end: nat, shape: Shape, round: Rounding,
                                  f: Format, quantum: Option<real>)
    requires begin <= end <= |values| && end - begin <= TritonKernels.MAX_CTA_ELEMENTS
    requires TritonKernels.LaneFits(begin, TritonKernels.MAX_CTA_ELEMENTS)
    requires Reduces(shape, TritonKernels.LOGICAL_LANES)
    requires Rounds(round, f, quantum) && Promised(values[begin..end], f, quantum)
    ensures var zeros := Fill(Additions(round), TritonKernels.LOGICAL_LANES);
            var lanes := TritonKernels.StridedLanes(Additions(round), Leaves(values), begin, end, 0, zeros);
            SumsWithin(Reduce(shape, lanes, round), values[begin..end], f, quantum)
  {
    var zeros := Fill(Additions(round), TritonKernels.LOGICAL_LANES);
    ZerosHold(round, TritonKernels.LOGICAL_LANES, f, quantum);
    assert values[begin..Min(end, begin)] == [];
    hide Rounds, Holds, Additions, Leaves, Reduce, SumsWithin, Promised, Fill, Reduces, TritonKernels.StridedLanes;
    StridesHold(round, values, begin, end, 0, zeros, f, quantum);
    var lanes := TritonKernels.StridedLanes(Additions(round), Leaves(values), begin, end, 0, zeros);
    LanesSumWithin(lanes, values[begin..end], shape, round, f, quantum);
  }

  lemma TileHoldsSegment(round: Rounding, values: seq<real>, begin: nat, end: nat, lanes: nat, f: Format,
                         quantum: Option<real>)
    requires begin <= end <= |values| && end - begin <= lanes && TritonKernels.LaneFits(begin, lanes)
    ensures LoadsInBounds(|values|, begin, end, lanes)
    ensures Holds(Tile(Additions(round), Leaves(values), begin, end, lanes, true), values[begin..end], f, quantum)
  {
    TileHolds(round, values, begin, end, lanes);
    TileIsRounded(round, values, begin, end, lanes, f, quantum);
    assert Min(end, begin + lanes) == end;
    hide LaneValues, AllRounded, Tile, Leaves, Additions, LoadsInBounds, Lane;
  }

  /** And what a program stores that covers its segment with one tile: one block, a packed slot, or a CTA task. */
  lemma TileSumWithinTolerance(values: seq<real>, begin: nat, end: nat, lanes: nat, shape: Shape, round: Rounding,
                               f: Format, quantum: Option<real>)
    requires begin <= end <= |values| && end - begin <= lanes && TritonKernels.LaneFits(begin, lanes)
    requires Reduces(shape, lanes)
    requires Rounds(round, f, quantum) && Promised(values[begin..end], f, quantum)
    ensures LoadsInBounds(|values|, begin, end, lanes)
    ensures var tile := Tile(Additions(round), Leaves(values), begin, end, lanes, true);
            SumsWithin(Reduce(shape, tile, round), values[begin..end], f, quantum)
  {
    TileHoldsSegment(round, values, begin, end, lanes, f, quantum);
    hide Rounds, Holds, Additions, Leaves, Reduce, SumsWithin, Promised, Reduces, Tile, LoadsInBounds, Lane;
    var tile := Tile(Additions(round), Leaves(values), begin, end, lanes, true);
    LanesSumWithin(tile, values[begin..end], shape, round, f, quantum);
  }
}
