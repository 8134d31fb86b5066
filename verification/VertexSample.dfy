/** The hash-ranked sample of vertices, and the outgoing lengths it selects. */
module VertexSample {
  import opened Int32
  import opened Wrappers
  import opened Sorting
  import opened Sums
  import opened Rotation
  import opened MatrixMarket

  datatype SampleRefusal = CountOutsideUniverse | IdAboveU64

  /** A digest is a big-endian number of fixed width, so byte order is numeric order. */
  type Digest = nat -> nat

  function RankOrder(digest: Digest): (nat, nat) -> bool {
    (a: nat, b: nat) => digest(a) < digest(b) || (digest(a) == digest(b) && a <= b)
  }

  lemma RankIsTotal(digest: Digest)
    ensures TotalOrder(RankOrder(digest))
  {
  }

  predicate AllFitU64(ids: seq<nat>) {
    forall i :: 0 <= i < |ids| ==> ids[i] < TWO_64
  }

  /** The vertices are iterated in any order. */
  function SelectVertices(iteration: seq<nat>, count: int, digest: Digest): (r: Result<seq<nat>, SampleRefusal>) {
    if !(0 <= count <= |iteration|) then Err(CountOutsideUniverse)
    else if !AllFitU64(iteration) then Err(IdAboveU64)
    else
      RankIsTotal(digest);
      SortSorts(iteration, RankOrder(digest));
      Ok(Sort(iteration, RankOrder(digest))[..count])
  }

  /** One vertex comes before another: by its smaller digest, or by its smaller identifier among equal digests. */
  predicate Before(digest: Digest, a: nat, b: nat) {
    digest(a) < digest(b) || (digest(a) == digest(b) && a < b)
  }

  /** As many vertices of the universe as asked, in order, and every vertex left out comes after every one selected. */
  ghost predicate IsSample(selected: seq<nat>, universe: set<nat>, count: int, digest: Digest) {
    && |selected| == count
    && (forall i, j :: 0 <= i < j < |selected| ==> Before(digest, selected[i], selected[j]))
    && (forall i :: 0 <= i < |selected| ==> selected[i] in universe)
    && forall v, i :: v in universe && v !in selected && 0 <= i < |selected| ==> Before(digest, selected[i], v)
  }

  /** In order is once each, and sorted by rank. */
  lemma BeforeIsRank(s: seq<nat>, digest: Digest)
    ensures Unique(s) && SortedBy(s, RankOrder(digest))
       <==> forall i, j :: 0 <= i < j < |s| ==> Before(digest, s[i], s[j])
  {
    var le := RankOrder(digest);
    forall i, j | 0 <= i < j < |s| ensures Before(digest, s[i], s[j]) <==> le(s[i], s[j]) && s[i] != s[j] {
    }
  }

  lemma {:induction false} CountInUnique(s: seq<nat>, v: nat)
    requires Unique(s)
    ensures multiset(s)[v] == if v in s then 1 else 0
  {
    if s != [] {
      assert s == [s[0]] + s[1..];
      CountInUnique(s[1..], v);
    }
  }

  lemma PermutationIsUnique(s: seq<nat>, t: seq<nat>)
    requires Unique(s) && multiset(s) == multiset(t)
    ensures Unique(t) && Members(s) == Members(t)
  {
    forall i, j | 0 <= i < j < |t| ensures t[i] != t[j] {
      CountInUnique(s, t[i]);
      if t[i] == t[j] { TwiceInSequence(t, i, j); }
    }
    forall v ensures v in s <==> v in t {
      assert v in s <==> v in multiset(s);
      assert v in t <==> v in multiset(t);
    }
  }

  lemma TwiceInSequence(t: seq<nat>, i: nat, j: nat)
    requires i < j < |t| && t[i] == t[j]
    ensures multiset(t)[t[i]] >= 2
  {
    assert t == t[..i] + [t[i]] + t[i + 1..j] + [t[j]] + t[j + 1..];
  }

  lemma PrefixHolds(s: seq<nat>, count: nat, k: nat)
    requires k < |s| && count <= |s|
    ensures k < count ==> s[k] in s[..count]
  {
    if k < count { assert s[..count][k] == s[k]; }
  }

  /** A count beyond the vertices is refused before any identifier is looked at. */
  lemma SelectionRefusals(iteration: seq<nat>, count: int, digest: Digest)
    ensures var r := SelectVertices(iteration, count, digest);
            && (r == Err(CountOutsideUniverse) <==> count < 0 || count > |iteration|)
            && (r == Err(IdAboveU64) <==>
                  && 0 <= count <= |iteration|
                  && exists i :: 0 <= i < |iteration| && iteration[i] >= 0x1_0000_0000_0000_0000)
  {
    hide Sort, RankOrder;
  }

  /** The selection is a sample. */
  lemma SelectionIsSample(iteration: seq<nat>, count: int, digest: Digest)
    requires Unique(iteration) && SelectVertices(iteration, count, digest).Ok?
    ensures IsSample(SelectVertices(iteration, count, digest).value, Members(iteration), count, digest)
  {
    var le := RankOrder(digest);
    RankIsTotal(digest);
    SortSorts(iteration, le);
    var s := Sort(iteration, le);
    PermutationIsUnique(iteration, s);
    BeforeIsRank(s, digest);
    hide TotalOrder, RankOrder, Sort, Before;
    forall v, i | v in Members(iteration) && v !in s[..count] && 0 <= i < count
      ensures Before(digest, s[..count][i], v)
    {
      assert v in Members(s);
      var k :| 0 <= k < |s| && s[k] == v;
      PrefixHolds(s, count, k);
    }
    forall i | 0 <= i < count ensures s[..count][i] in Members(iteration) {
      assert s[i] in Members(s);
    }
  }

  lemma {:induction false} SizeOfUnique(s: seq<nat>)
    requires Unique(s)
    ensures |Members(s)| == |s|
  {
    if s == [] {
      assert Members(s) == {};
    } else {
      SizeOfUnique(s[1..]);
      assert Members(s) == Members(s[1..]) + {s[0]};
      assert s[0] !in s[1..];
    }
  }

  lemma NotBothBefore(digest: Digest, a: nat, b: nat)
    ensures !(Before(digest, a, b) && Before(digest, b, a))
  {
  }

  /** Two samples of one universe hold the same vertices. */
  lemma SameSample(s: seq<nat>, t: seq<nat>, universe: set<nat>, count: int, digest: Digest)
    requires IsSample(s, universe, count, digest) && IsSample(t, universe, count, digest)
    ensures Members(s) == Members(t)
  {
    BeforeIsRank(s, digest);
    BeforeIsRank(t, digest);
    SizeOfUnique(s);
    SizeOfUnique(t);
    var a, b := Members(s), Members(t);
    hide IsSample, Before;
    forall x, y | x in a - b && y in b ensures y in a {
      SelectedRanksBelow(s, universe, count, digest, x, y);
      SelectedRanksBelow(t, universe, count, digest, y, x);
      NotBothBefore(digest, x, y);
    }
    OneHoldsTheOther(a, b);
    SubsetOfSameSize(a, b);
    SubsetOfSameSize(b, a);
  }

  lemma OneHoldsTheOther(a: set<nat>, b: set<nat>)
    requires forall x, y :: x in a - b && y in b ==> y in a
    ensures a <= b || b <= a
  {
    if !(a <= b) {
      var x :| x in a && x !in b;
      assert x in a - b;
    }
  }

  /** A selected vertex ranks below any that is not. */
  lemma SelectedRanksBelow(s: seq<nat>, universe: set<nat>, count: int, digest: Digest, x: nat, v: nat)
    requires IsSample(s, universe, count, digest) && x in Members(s)
    ensures x in universe && (v in universe && v !in Members(s) ==> Before(digest, x, v))
  {
    var i :| 0 <= i < |s| && s[i] == x;
  }

  lemma SubsetOfSameSize(a: set<nat>, b: set<nat>)
    requires |a| == |b|
    ensures a <= b ==> a == b
  {
    if a <= b {
      assert b == a + (b - a);
      assert |b| == |a| + |b - a|;
    }
  }

  /** There is one sample, so the iteration order of the universe does not matter. */
  lemma SampleIsUnique(s: seq<nat>, t: seq<nat>, universe: set<nat>, count: int, digest: Digest)
    requires IsSample(s, universe, count, digest) && IsSample(t, universe, count, digest)
    ensures s == t
  {
    SameSample(s, t, universe, count, digest);
    BeforeIsRank(s, digest);
    BeforeIsRank(t, digest);
    forall v ensures multiset(s)[v] == multiset(t)[v] {
      CountInUnique(s, v);
      CountInUnique(t, v);
      assert v in Members(s) <==> v in Members(t);
    }
    RankIsTotal(digest);
    SortedIsUnique(s, t, RankOrder(digest));
  }

  lemma IterationOrderDoesNotMatter(a: seq<nat>, b: seq<nat>, count: int, digest: Digest)
    requires Unique(a) && Unique(b) && Members(a) == Members(b)
    ensures SelectVertices(a, count, digest) == SelectVertices(b, count, digest)
  {
    SizeOfUnique(a);
    SizeOfUnique(b);
    SameIdsFit(a, b);
    SameIdsFit(b, a);
    hide AllFitU64;
    var x, y := SelectVertices(a, count, digest), SelectVertices(b, count, digest);
    if x.Ok? && y.Ok? {
      SelectionIsSample(a, count, digest);
      SelectionIsSample(b, count, digest);
      SampleIsUnique(x.value, y.value, Members(a), count, digest);
    }
  }

  lemma SameIdsFit(a: seq<nat>, b: seq<nat>)
    requires Members(a) == Members(b)
    ensures AllFitU64(a) ==> AllFitU64(b)
  {
    if AllFitU64(a) {
      forall i | 0 <= i < |b| ensures b[i] < TWO_64 {
        assert b[i] in Members(a);
      }
    }
  }

  // ------------------------------------------------------------ row lengths

  function Lookups(rowCounts: map<nat, nat>, selected: seq<nat>): seq<nat> {
    seq(|selected|, i requires 0 <= i < |selected| => Outgoing(rowCounts, selected[i]))
  }

  function SelectRowLengths(iteration: seq<nat>, rowCounts: map<nat, nat>, count: int,
                            digest: Digest): Result<seq<nat>, SampleRefusal> {
    match SelectVertices(iteration, count, digest)
    case Err(e) => Err(e)
    case Ok(selected) => Ok(Lookups(rowCounts, selected))
  }

  /** Every length is the number of edges that leave the vertex sampled there. */
  lemma LengthsAreDegrees(iteration: seq<nat>, rowCounts: map<nat, nat>, edges: seq<Edge>, count: int, digest: Digest)
    requires RowCountsOf(rowCounts, edges)
    ensures var lengths, selected :=
              SelectRowLengths(iteration, rowCounts, count, digest), SelectVertices(iteration, count, digest);
            && (lengths.Err? <==> selected.Err?) && (lengths.Err? ==> lengths.error == selected.error)
            && (lengths.Ok? ==>
                  && |lengths.value| == |selected.value|
                  && forall i :: 0 <= i < |selected.value| ==>
                       lengths.value[i] == |set k | 0 <= k < |edges| && edges[k].0 == selected.value[i]|)
  {
    var selected := SelectVertices(iteration, count, digest);
    if selected.Ok? {
      forall i | 0 <= i < |selected.value|
        ensures Outgoing(rowCounts, selected.value[i])
             == |set k | 0 <= k < |edges| && edges[k].0 == selected.value[i]|
      {
        OutDegreeIs(edges, selected.value[i]);
      }
    }
    hide SelectVertices, OutDegree;
  }

  /** The out-degrees of distinct vertices that cover the rows add up to the edges. */
  lemma {:induction false} DegreesAddUp(vertices: seq<nat>, edges: seq<Edge>)
    requires Unique(vertices) && forall i :: 0 <= i < |edges| ==> edges[i].0 in vertices
    ensures Sum(Degrees(vertices, edges)) == |edges|
  {
    if edges == [] {
      NoDegrees(vertices);
    } else {
      var before, last := edges[..|edges| - 1], edges[|edges| - 1];
      DegreesAddUp(vertices, before);
      var i :| 0 <= i < |vertices| && vertices[i] == last.0;
      OneMoreEdge(vertices, before, last, i);
      assert edges == before + [last];
    }
  }

  function Degrees(vertices: seq<nat>, edges: seq<Edge>): seq<nat> {
    seq(|vertices|, i requires 0 <= i < |vertices| => OutDegree(edges, vertices[i]))
  }

  lemma {:induction false} NoDegrees(vertices: seq<nat>)
    ensures Sum(Degrees(vertices, [])) == 0
  {
    if vertices != [] {
      NoDegrees(vertices[1..]);
      assert Degrees(vertices, [])[1..] == Degrees(vertices[1..], []);
    }
  }

  lemma {:induction false} OneMoreEdge(vertices: seq<nat>, edges: seq<Edge>, e: Edge, i: nat)
    requires Unique(vertices) && i < |vertices| && vertices[i] == e.0
    ensures Sum(Degrees(vertices, edges + [e])) == Sum(Degrees(vertices, edges)) + 1
  {
    var after := edges + [e];
    assert after[..|edges|] == edges;
    assert Degrees(vertices, after)[1..] == Degrees(vertices[1..], after);
    assert Degrees(vertices, edges)[1..] == Degrees(vertices[1..], edges);
    if i > 0 {
      OneMoreEdge(vertices[1..], edges, e, i - 1);
    } else {
      assert forall k :: 0 <= k < |vertices[1..]| ==> vertices[1..][k] != e.0;
      assert Degrees(vertices[1..], after) == Degrees(vertices[1..], edges);
    }
  }

  lemma {:induction false} RowHasDegree(edges: seq<Edge>, i: nat)
    requires i < |edges|
    ensures OutDegree(edges, edges[i].0) > 0
  {
    if i < |edges| - 1 { RowHasDegree(edges[..|edges| - 1], i); }
  }

  lemma LookupsAreDegrees(vertices: seq<nat>, edges: seq<Edge>, rowCounts: map<nat, nat>)
    requires RowCountsOf(rowCounts, edges)
    ensures Lookups(rowCounts, vertices) == Degrees(vertices, edges)
  {
  }

  /** The row counts add up to the entries. */
  lemma RowCountsAddUp(rows: seq<nat>, edges: seq<Edge>, rowCounts: map<nat, nat>)
    requires Unique(rows) && Members(rows) == rowCounts.Keys && RowCountsOf(rowCounts, edges)
    ensures Sum(Lookups(rowCounts, rows)) == |edges|
  {
    forall i | 0 <= i < |edges| ensures edges[i].0 in rows {
      RowHasDegree(edges, i);
      assert Outgoing(rowCounts, edges[i].0) > 0;
      assert edges[i].0 in Members(rows);
    }
    LookupsAreDegrees(rows, edges, rowCounts);
    DegreesAddUp(rows, edges);
  }

  lemma WholeSample(iteration: seq<nat>, digest: Digest)
    requires Unique(iteration) && SelectVertices(iteration, |iteration|, digest).Ok?
    ensures var selected := SelectVertices(iteration, |iteration|, digest).value;
            Unique(selected) && Members(selected) == Members(iteration)
  {
    var selected := SelectVertices(iteration, |iteration|, digest).value;
    SelectionIsSample(iteration, |iteration|, digest);
    BeforeIsRank(selected, digest);
    hide SelectVertices;
    SizeOfUnique(iteration);
    SizeOfUnique(selected);
    SubsetOfSameSize(Members(selected), Members(iteration));
  }

  /** The outgoing lengths of all vertices add up to the entries, in whatever order they are selected. */
  lemma EntriesAreConserved(iteration: seq<nat>, edges: seq<Edge>, rowCounts: map<nat, nat>, digest: Digest)
    requires Unique(iteration) && Members(iteration) == VerticesOf(edges) && RowCountsOf(rowCounts, edges)
    requires SelectRowLengths(iteration, rowCounts, |iteration|, digest).Ok?
    ensures Sum(SelectRowLengths(iteration, rowCounts, |iteration|, digest).value) == |edges|
  {
    var selected := SelectVertices(iteration, |iteration|, digest).value;
    WholeSample(iteration, digest);
    LookupsAreDegrees(selected, edges, rowCounts);
    hide SelectVertices, RowCountsOf;
    forall i | 0 <= i < |edges| ensures edges[i].0 in selected {
      assert edges[i].0 in Members(selected);
    }
    DegreesAddUp(selected, edges);
  }

  /** The counts of a parsed matrix add up to its declared entries: over its rows, and over its selected vertices. */
  lemma DeclaredEntriesAreConserved(vertices: set<nat>, rowCounts: map<nat, nat>, edges: seq<Edge>, rows: nat,
                                    columns: nat, entries: nat, listing: seq<nat>, iteration: seq<nat>, digest: Digest)
    requires CountsEdges(vertices, rowCounts, edges, rows, columns) && |edges| == entries
    requires Unique(listing) && Members(listing) == rowCounts.Keys && Unique(iteration)
    requires Members(iteration) == vertices
    requires SelectRowLengths(iteration, rowCounts, |iteration|, digest).Ok?
    ensures Sum(Lookups(rowCounts, listing)) == entries
    ensures Sum(SelectRowLengths(iteration, rowCounts, |iteration|, digest).value) == entries
  {
    RowCountsAddUp(listing, edges, rowCounts);
    EntriesAreConserved(iteration, edges, rowCounts, digest);
  }
}
