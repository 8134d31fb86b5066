/**
 The algebra of the block kernels: a segment is read in tiles of lanes, a masked
 lane contributes the identity, tiles are accumulated lane by lane, and the lanes
 are reduced at the end. Lane indices are 32-bit and wrap.
 */
module SegmentTiles {
  import opened Int32
  import opened Integers
  import opened Monoids

  /** The index of a lane, in 32-bit arithmetic. */
  function Lane(start: int, l: int): int {
    Wrap32(start + l)
  }

  /** Every lane that the mask keeps reads inside `[0, count)`. */
  ghost predicate LoadsInBounds(count: nat, start: int, end: int, lanes: nat) {
    forall l :: 0 <= l < lanes && Lane(start, l) < end ==> 0 <= Lane(start, l) < count
  }

  /** A wrapped lane index is negative, passes the mask, and reads outside the values. */
  lemma LoadsInBoundsIff(count: nat, start: nat, end: nat, lanes: nat)
    requires end <= count && 0 < lanes && start + lanes <= TWO_32
    ensures LoadsInBounds(count, start, end, lanes) <==> start + lanes - 1 <= I32_MAX
  {
    if start + lanes - 1 > I32_MAX {
      var l := lanes - 1;
      assert Lane(start, l) < 0 <= end;
    }
  }

  /** One masked load of `lanes` consecutive values. */
  function Tile<T(!new)>(m: Monoid<T>, values: seq<T>, start: int, end: int, lanes: nat, active: bool): (tile: seq<T>)
    requires active ==> LoadsInBounds(|values|, start, end, lanes)
    ensures |tile| == lanes
  {
    seq(lanes, l requires 0 <= l < lanes =>
      if active && Lane(start, l) < end then values[Lane(start, l)] else m.id)
  }

  /** Combines two vectors lane by lane. */
  function Combine<T(!new)>(m: Monoid<T>, a: seq<T>, b: seq<T>): (c: seq<T>)
    requires |a| == |b|
    ensures |c| == |a|
  {
    seq(|a|, i requires 0 <= i < |a| => m.op(a[i], b[i]))
  }

  function Fill<T(!new)>(m: Monoid<T>, lanes: nat): (v: seq<T>)
    ensures |v| == lanes
  {
    seq(lanes, _ => m.id)
  }

  lemma {:induction false} FoldOfFill<T(!new)>(m: Monoid<T>, lanes: nat)
    requires Lawful(m)
    ensures Fold(m, Fill(m, lanes)) == m.id
  {
    hide Lawful;
    if lanes > 0 {
      Identity(m, m.id);
      FoldOfFill(m, lanes - 1);
      assert Fill(m, lanes)[1..] == Fill(m, lanes - 1);
    }
  }

  /** Accumulating lane by lane is accumulating the reductions. */
  lemma {:induction false} FoldOfCombine<T(!new)>(m: Monoid<T>, a: seq<T>, b: seq<T>)
    requires Commutative(m) && |a| == |b|
    ensures Fold(m, Combine(m, a, b)) == m.op(Fold(m, a), Fold(m, b))
  {
    hide Commutative, Lawful;
    if a == [] {
      Identity(m, m.id);
    } else {
      FoldOfCombine(m, a[1..], b[1..]);
      assert Combine(m, a, b)[1..] == Combine(m, a[1..], b[1..]);
      Interchange(m, a[0], b[0], Fold(m, a[1..]), Fold(m, b[1..]));
    }
  }

  /** The part of `[start, end)` that a tile of `lanes` covers. */
  function Covered<T>(values: seq<T>, start: nat, end: nat, lanes: nat): seq<T>
    requires end <= |values|
  {
    if start >= end then [] else values[start..Min(end, start + lanes)]
  }

  /** A tile reduces to the values it covers, because a masked lane is the identity. */
  lemma FoldOfTile<T(!new)>(m: Monoid<T>, values: seq<T>, start: nat, end: nat, lanes: nat)
    requires Lawful(m) && end <= |values| && start + lanes - 1 <= I32_MAX
    ensures LoadsInBounds(|values|, start, end, lanes)
    ensures Fold(m, Tile(m, values, start, end, lanes, true)) == Fold(m, Covered(values, start, end, lanes))
  {
    hide Lawful;
    assert forall l :: 0 <= l < lanes ==> Lane(start, l) == start + l;
    var covered := Covered(values, start, end, lanes);
    var tile := Tile(m, values, start, end, lanes, true);
    assert tile == covered + Fill(m, lanes - |covered|);
    FoldConcat(m, covered, Fill(m, lanes - |covered|));
    FoldOfFill(m, lanes - |covered|);
    Identity(m, Fold(m, covered));
  }

  /** One step of the accumulation over a segment. */
  lemma AccumulateTile<T(!new)>(m: Monoid<T>, values: seq<T>, begin: nat, start: nat, end: nat, lanes: nat,
                                total: seq<T>)
    requires Commutative(m) && begin <= start && begin <= end <= |values| && start + lanes - 1 <= I32_MAX
    requires |total| == lanes && Fold(m, total) == Fold(m, values[begin..Min(end, start)])
    ensures LoadsInBounds(|values|, start, end, lanes)
    ensures Fold(m, Combine(m, total, Tile(m, values, start, end, lanes, true)))
         == Fold(m, values[begin..Min(end, start + lanes)])
  {
    hide Commutative, Lawful, Tile, Combine;
    FoldOfTile(m, values, start, end, lanes);
    FoldOfCombine(m, total, Tile(m, values, start, end, lanes, true));
    if start < end {
      FoldSlices(m, values, begin, start, Min(end, start + lanes));
    } else {
      Identity(m, Fold(m, total));
    }
  }
}
