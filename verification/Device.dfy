/** A device output buffer that counts the stores to every cell. */
module Device {

  class Buffer<T> {
    const cells: array<T>
    ghost var stores: seq<nat>

    constructor (cells: array<T>)
      ensures this.cells == cells && stores == seq(cells.Length, _ => 0)
    {
      this.cells := cells;
      stores := seq(cells.Length, _ => 0);
    }

    /** The cells of the programs that ran hold the wanted values, stored once; the others are untouched. */
    ghost predicate Launched<P>(want: seq<T>, owner: seq<P>, done: set<P>)
      reads this, cells
    {
      && |want| == |owner| == |stores| == cells.Length
      && forall s :: 0 <= s < |owner| ==>
           if owner[s] in done then cells[s] == want[s] && stores[s] == 1 else stores[s] == 0
    }

    method Store(i: nat, v: T)
      requires i < cells.Length == |stores|
      modifies this, cells
      ensures cells[i] == v && stores == old(stores)[i := old(stores)[i] + 1]
      ensures forall j :: 0 <= j < cells.Length && j != i ==> cells[j] == old(cells[j])
    {
      cells[i] := v;
      stores := stores[i := stores[i] + 1];
    }
  }

  ghost predicate Distinct<P(!new)>(order: seq<P>) {
    forall i, j :: 0 <= i < j < |order| ==> order[i] != order[j]
  }

  /** Every program of a grid, once, in any order. */
  ghost predicate AnyOrder(order: seq<nat>, grid: nat) {
    Distinct(order) && forall p :: p in order <==> 0 <= p < grid
  }

  ghost function Ran<P(!new)>(order: seq<P>, k: nat): set<P>
    requires k <= |order|
  {
    set p | p in order[..k]
  }

  lemma RanNext<P(!new)>(order: seq<P>, k: nat)
    requires Distinct(order) && k < |order|
    ensures order[k] !in Ran(order, k) && Ran(order, k + 1) == Ran(order, k) + {order[k]}
  {
    assert order[..k + 1] == order[..k] + [order[k]];
  }

  lemma RanAll(order: seq<nat>, grid: nat)
    requires AnyOrder(order, grid)
    ensures forall p: nat :: p in Ran<nat>(order, |order|) <==> p < grid
  {
    assert order[..|order|] == order;
  }

  /** The programs of a second grid, numbered after the first one. */
  ghost function After(first: nat, order: seq<nat>): seq<nat> {
    seq(|order|, k requires 0 <= k < |order| => first + order[k])
  }

  lemma AfterAll(first: nat, order: seq<nat>, grid: nat)
    requires AnyOrder(order, grid)
    ensures Distinct(After(first, order))
    ensures forall p: nat :: first <= p < first + grid ==> p in Ran<nat>(After(first, order), |order|)
    ensures forall p: nat, k :: 0 <= k <= |order| && p in Ran<nat>(After(first, order), k) ==> first <= p
  {
    var after := After(first, order);
    assert after[..|order|] == after;
    forall p: nat | first <= p < first + grid ensures p in after {
      assert p - first in order;
      var k :| 0 <= k < |order| && order[k] == p - first;
      assert after[k] == p;
    }
  }
}
