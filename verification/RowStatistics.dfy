/** The length statistics of a row, the nearest-rank percentile, and a validator's checks of them. */
module RowStatistics {
  import opened Int32
  import opened Wrappers
  import opened Sorting
  import opened Sums
  import opened TaskPartition
  import opened Compilation
  import PaddedInputs

  datatype Summary = Summary(count: nat, total: int, min: int, median: real, p95: int, max: int)

  datatype SummaryRefusal = Empty

  predicate IntOrder(a: int, b: int) {
    a <= b
  }

  function MedianOf(s: seq<int>): real
    requires s != []
  {
    if |s| % 2 == 1 then s[|s| / 2] as real else (s[|s| / 2 - 1] as real + s[|s| / 2] as real) / 2.0
  }

  function P95Index(n: nat): nat
    requires n > 0
  {
    (95 * n + 99) / 100 - 1
  }

  function SummarizeLengths(lengths: seq<int>): Result<Summary, SummaryRefusal> {
    if lengths == [] then Err(Empty)
    else
      SortSorts(lengths, IntOrder);
      var s := Sort(lengths, IntOrder);
      Ok(Summary(|s|, Sum(s), s[0], MedianOf(s), s[P95Index(|s|)], s[|s| - 1]))
  }

  /** The checks of a row's statistics. */
  predicate ConsistentStatistics(s: Summary, segmentCount: nat) {
    && s.count == segmentCount
    && 0 <= s.min && s.min as real <= s.median <= s.p95 as real && s.p95 <= s.max
    && s.min * s.count <= s.total && s.total <= s.max * s.count && s.total <= I32_MAX
  }

  lemma SortedFacts(lengths: seq<int>)
    requires lengths != []
    ensures var s := Sort(lengths, IntOrder);
            && |s| == |lengths| && SortedBy(s, IntOrder) && multiset(s) == multiset(lengths) && Sum(s) == Sum(lengths)
            && (forall i :: 0 <= i < |s| ==> s[i] in lengths)
            && (forall i :: 0 <= i < |lengths| ==> s[0] <= lengths[i] <= s[|s| - 1])
  {
    var s := Sort(lengths, IntOrder);
    SortSorts(lengths, IntOrder);
    SumOfPermutation(s, lengths);
    hide Sort;
    forall i | 0 <= i < |s| ensures s[i] in lengths {
      assert s[i] in multiset(s);
    }
    forall i | 0 <= i < |lengths| ensures s[0] <= lengths[i] <= s[|s| - 1] {
      assert lengths[i] in multiset(s);
      var k :| 0 <= k < |s| && s[k] == lengths[i];
      assert IntOrder(s[0], s[k]) && IntOrder(s[k], s[|s| - 1]);
    }
  }

  lemma MedianInOrder(s: seq<int>)
    requires s != [] && SortedBy(s, IntOrder)
    ensures s[0] as real <= MedianOf(s) <= s[P95Index(|s|)] as real && s[P95Index(|s|)] <= s[|s| - 1]
  {
    var n, k := |s|, P95Index(|s|);
    assert n / 2 <= k < n;
    assert IntOrder(s[0], s[n / 2]) && IntOrder(s[n / 2], s[k]) && IntOrder(s[k], s[n - 1]);
    if n % 2 == 0 {
      assert IntOrder(s[0], s[n / 2 - 1]) && IntOrder(s[n / 2 - 1], s[k]);
    }
  }

  /** The summary of any nonnegative lengths with an i32 total passes the validator. */
  lemma SummaryIsConsistent(lengths: seq<int>)
    requires lengths != [] && (forall i :: 0 <= i < |lengths| ==> 0 <= lengths[i]) && Sum(lengths) <= I32_MAX
    ensures SummarizeLengths(lengths).Ok? && ConsistentStatistics(SummarizeLengths(lengths).value, |lengths|)
  {
    var s := Sort(lengths, IntOrder);
    SortedFacts(lengths);
    MedianInOrder(s);
    hide Sort, MedianOf, P95Index, SortedBy;
    SumBetween(lengths, s[0], s[|s| - 1]);
    assert s[0] in lengths;
  }

  /** The maximum of the summary is the longest length. */
  lemma MaximumIsLongest(lengths: seq<int>)
    requires lengths != []
    ensures SummarizeLengths(lengths).value.max == PaddedInputs.Longest(lengths)
  {
    var s := Sort(lengths, IntOrder);
    SortedFacts(lengths);
    hide Sort, SortedBy, MedianOf, P95Index, PaddedInputs.Longest;
    var i :| 0 <= i < |lengths| && lengths[i] == PaddedInputs.Longest(lengths);
    assert s[|s| - 1] in lengths;
  }

  lemma MedianOfIs(s: seq<int>)
    requires s != []
    ensures |s| % 2 == 1 ==> MedianOf(s) == s[(|s| - 1) / 2] as real
    ensures |s| % 2 == 0 ==> 2.0 * MedianOf(s) == (s[|s| / 2 - 1] + s[|s| / 2]) as real
  {
  }

  /** The count and the total of the lengths, and their least, middle and greatest in ascending order. */
  lemma SummaryIs(lengths: seq<int>, ascending: seq<int>)
    requires lengths != [] && multiset(ascending) == multiset(lengths)
    requires forall i, j :: 0 <= i < j < |ascending| ==> ascending[i] <= ascending[j]
    ensures SummarizeLengths(lengths).Ok? && |ascending| == |lengths|
    ensures var s, n := SummarizeLengths(lengths).value, |lengths|;
            && s.count == n && s.total == Sum(lengths)
            && s.min == ascending[0] && s.max == ascending[n - 1]
            && (n % 2 == 1 ==> s.median == ascending[(n - 1) / 2] as real)
            && (n % 2 == 0 ==> 2.0 * s.median == (ascending[n / 2 - 1] + ascending[n / 2]) as real)
  {
    SortedFacts(lengths);
    var s := Sort(lengths, IntOrder);
    assert SortedBy(ascending, IntOrder);
    hide Sort, SortedBy, P95Index, MedianOf, Sum;
    SortedIsUnique(s, ascending, IntOrder);
    MedianOfIs(ascending);
  }

  // ------------------------------------------------------------ nearest rank

  function CountBelow(s: seq<int>, v: int): nat {
    if s == [] then 0 else (if s[0] < v then 1 else 0) + CountBelow(s[1..], v)
  }

  function CountUpTo(s: seq<int>, v: int): nat {
    CountBelow(s, v + 1)
  }

  lemma {:induction false} CountsOfSorted(s: seq<int>, k: nat, v: int)
    requires SortedBy(s, IntOrder) && k <= |s|
    ensures (forall i :: k <= i < |s| ==> s[i] >= v) ==> CountBelow(s, v) <= k
    ensures (forall i :: 0 <= i < k ==> s[i] < v) ==> CountBelow(s, v) >= k
  {
    if s != [] {
      assert forall i :: 0 <= i < |s[1..]| ==> s[1..][i] == s[i + 1];
      CountsOfSorted(s[1..], if k > 0 then k - 1 else 0, v);
    }
  }

  lemma {:induction false} CountsArePermuted(s: seq<int>, t: seq<int>, v: int)
    requires multiset(s) == multiset(t)
    ensures CountBelow(s, v) == CountBelow(t, v)
  {
    CountIsSum(s, v);
    CountIsSum(t, v);
    MarksArePermuted(s, t, v);
    SumOfPermutation(Marks(s, v), Marks(t, v));
  }

  function Marks(s: seq<int>, v: int): seq<int> {
    seq(|s|, i requires 0 <= i < |s| => if s[i] < v then 1 else 0)
  }

  lemma {:induction false} CountIsSum(s: seq<int>, v: int)
    ensures CountBelow(s, v) == Sum(Marks(s, v))
  {
    if s != [] {
      CountIsSum(s[1..], v);
      assert Marks(s, v)[1..] == Marks(s[1..], v);
    }
  }

  lemma {:induction false} MarksArePermuted(s: seq<int>, t: seq<int>, v: int)
    requires multiset(s) == multiset(t)
    ensures multiset(Marks(s, v)) == multiset(Marks(t, v))
  {
    if s == [] {
      assert |multiset(t)| == |t|;
    } else {
      assert s[0] in multiset(t);
      var i :| 0 <= i < |t| && t[i] == s[0];
      var rest := t[..i] + t[i + 1..];
      RemoveFromBoth(s, t, i);
      MarksArePermuted(s[1..], rest, v);
      assert Marks(s, v) == [Marks(s, v)[0]] + Marks(s[1..], v);
      assert Marks(t, v) == Marks(t, v)[..i] + [Marks(t, v)[i]] + Marks(t, v)[i + 1..];
      assert Marks(rest, v) == Marks(t, v)[..i] + Marks(t, v)[i + 1..];
    }
  }

  lemma P95Rank(n: nat)
    requires n > 0
    ensures P95Index(n) < n && 100 * (P95Index(n) + 1) >= 95 * n && 100 * P95Index(n) < 95 * n
  {
  }

  lemma P95OfSorted(s: seq<int>, k: nat)
    requires SortedBy(s, IntOrder) && k < |s|
    ensures CountUpTo(s, s[k]) >= k + 1 && CountBelow(s, s[k]) <= k
  {
    forall i | k <= i < |s| ensures s[i] >= s[k] { assert IntOrder(s[k], s[i]); }
    forall i | 0 <= i < k + 1 ensures s[i] < s[k] + 1 { assert IntOrder(s[i], s[k]); }
    CountsOfSorted(s, k, s[k]);
    CountsOfSorted(s, k + 1, s[k] + 1);
  }

  /** The percentile is the least value that at least 95 percent of the lengths do not exceed. */
  lemma P95IsNearestRank(lengths: seq<int>)
    requires lengths != []
    ensures var p := SummarizeLengths(lengths).value.p95;
            && p in lengths && 100 * CountUpTo(lengths, p) >= 95 * |lengths|
            && 100 * CountBelow(lengths, p) < 95 * |lengths|
  {
    var s := Sort(lengths, IntOrder);
    SortedFacts(lengths);
    var n, k := |s|, P95Index(|s|);
    P95Rank(n);
    hide Sort, P95Index, CountBelow, MedianOf;
    P95OfSorted(s, k);
    CountsArePermuted(s, lengths, s[k]);
    CountsArePermuted(s, lengths, s[k] + 1);
  }

  // --------------------------------------------------------- the partition

  /** The checks of a row's task counts against its statistics. */
  predicate ConsistentPartition(row: RowFacts, s: Summary) {
    && row.warpTasks + row.ctaTasks == s.count
    && !(s.max <= WARP_MAX_ELEMENTS && row.ctaTasks != 0)
    && !(s.max > WARP_MAX_ELEMENTS && row.ctaTasks == 0)
    && !(s.min > WARP_MAX_ELEMENTS && row.warpTasks != 0)
    && row.warpPrograms == (row.warpTasks + 3) / 4
  }

  lemma {:induction false} ShortCountBounds(lengths: seq<int>)
    ensures ShortCount(lengths) == |lengths| <==> forall i :: 0 <= i < |lengths| ==> lengths[i] <= WARP_MAX_ELEMENTS
    ensures ShortCount(lengths) == 0 <==> forall i :: 0 <= i < |lengths| ==> lengths[i] > WARP_MAX_ELEMENTS
  {
    if lengths != [] {
      var before := lengths[..|lengths| - 1];
      ShortCountBounds(before);
      assert forall i :: 0 <= i < |before| ==> before[i] == lengths[i];
    }
  }

  lemma PartitionIsConsistent(lengths: seq<int>)
    requires lengths != []
    ensures ConsistentPartition(RowOf(lengths), SummarizeLengths(lengths).value)
  {
    ShortCountIs(lengths, |lengths|);
    assert lengths[..|lengths|] == lengths;
    ShortCountBounds(lengths);
    SortedFacts(lengths);
    var s := Sort(lengths, IntOrder);
    hide Sort, MedianOf, P95Index, SortedBy, Sum, ShortIds, LongIds, ShortCount;
    assert s[0] in lengths && s[|s| - 1] in lengths;
  }
}
