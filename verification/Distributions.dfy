/**
 The capped segment-length distributions: every draw is arbitrary within its range,
 and the admission bound is the largest total that draws can reach.
 */
module Distributions {
  import opened Int32
  import opened Integers
  import opened Wrappers
  import opened Sums
  import opened RowStatistics
  import opened Sorting

  const MAX_LENGTH := 4096
  const SHORT_LENGTH := 32

  /** The distributions whose lengths are capped. */
  datatype Name = Uniform | LogNormal | Bimodal | ZipfLike | ManyTiny | FewHuge | OneOutlier | AlternatingEmpty

  datatype Refusal = CountNotPositive | TotalAboveI32

  function WorstCaseTotal(name: Name, count: int): int {
    match name
    case Bimodal => (count - count / 10) * SHORT_LENGTH + count / 10 * MAX_LENGTH
    case FewHuge => (count - count / 20) * 4 + count / 20 * MAX_LENGTH
    case OneOutlier => (count - 1) * SHORT_LENGTH + MAX_LENGTH
    case ManyTiny => count * SHORT_LENGTH
    case AlternatingEmpty => count / 2 * SHORT_LENGTH
    case _ => count * MAX_LENGTH
  }

  // ------------------------------------------------------------------ ranges

  /** The range of the draw for a place, before any shuffle. */
  function Low(name: Name, count: nat, i: nat): int {
    match name
    case Bimodal => if i < count - count / 10 then 1 else 1024
    case FewHuge => if i < count - count / 20 then 0 else 1024
    case OneOutlier => if i + 1 < count then 1 else MAX_LENGTH
    case AlternatingEmpty => if i % 2 == 0 then 0 else 1
    case ZipfLike => 1
    case _ => 0
  }

  function High(name: Name, count: nat, i: nat): int {
    match name
    case Bimodal => if i < count - count / 10 then 32 else MAX_LENGTH
    case FewHuge => if i < count - count / 20 then 4 else MAX_LENGTH
    case OneOutlier => if i + 1 < count then 32 else MAX_LENGTH
    case AlternatingEmpty => if i % 2 == 0 then 0 else 32
    case ManyTiny => 32
    case _ => MAX_LENGTH
  }

  /** Draws within their ranges, in the order they are made. */
  ghost predicate Drawn(name: Name, count: nat, draws: seq<int>) {
    |draws| == count && forall i :: 0 <= i < count ==> Low(name, count, i) <= draws[i] <= High(name, count, i)
  }

  /** A list that the distribution can return. */
  ghost predicate Possible(name: Name, count: nat, lengths: seq<int>) {
    exists draws :: Drawn(name, count, draws) && multiset(draws) == multiset(lengths)
  }

  // ------------------------------------------------------------------ shapes

  ghost predicate AllWithin(lengths: seq<int>, low: int, high: int) {
    forall i :: 0 <= i < |lengths| ==> low <= lengths[i] <= high
  }

  ghost predicate InRanges(s: seq<int>, low: int, high: int, from: int, to: int) {
    forall i :: 0 <= i < |s| ==> low <= s[i] <= high || from <= s[i] <= to
  }

  /** So many long lengths in one range, and all others in a lower one, in any order. */
  ghost predicate TwoGroups(lengths: seq<int>, low: int, high: int, from: int, to: int, long: nat) {
    && InRanges(lengths, low, high, from, to)
    && |set i | 0 <= i < |lengths| && lengths[i] < from| == |lengths| - long
  }

  /** What a list of the distribution looks like. */
  ghost predicate HasShape(name: Name, count: nat, lengths: seq<int>) {
    && |lengths| == count
    && match name
       case Uniform => AllWithin(lengths, 0, 4096)
       case LogNormal => AllWithin(lengths, 0, 4096)
       case ZipfLike => AllWithin(lengths, 1, 4096)
       case ManyTiny => AllWithin(lengths, 0, 32)
       case AlternatingEmpty =>
         forall i :: 0 <= i < count ==> if i % 2 == 0 then lengths[i] == 0 else 1 <= lengths[i] <= 32
       case Bimodal => TwoGroups(lengths, 1, 32, 1024, 4096, count / 10)
       case FewHuge => TwoGroups(lengths, 0, 4, 1024, 4096, count / 20)
       case OneOutlier => TwoGroups(lengths, 1, 32, 4096, 4096, 1)
  }

  /** The distributions that are shuffled after the draws. */
  predicate Shuffled(name: Name) {
    name.Bimodal? || name.FewHuge? || name.OneOutlier?
  }

  lemma {:induction false} CountBelowIs(s: seq<int>, v: int)
    ensures CountBelow(s, v) == |set i | 0 <= i < |s| && s[i] < v|
  {
    var all := set i | 0 <= i < |s| && s[i] < v;
    if s == [] {
      assert all == {};
    } else {
      var n := |s| - 1;
      CountBelowIs(s[..n], v);
      CountBelowLast(s, v);
      var fewer := set i | 0 <= i < |s[..n]| && s[..n][i] < v;
      assert all == if s[n] < v then fewer + {n} else fewer;
    }
  }

  lemma {:induction false} CountBelowLast(s: seq<int>, v: int)
    requires s != []
    ensures CountBelow(s, v) == CountBelow(s[..|s| - 1], v) + if s[|s| - 1] < v then 1 else 0
  {
    if |s| > 1 {
      CountBelowLast(s[1..], v);
      assert s[1..][..|s| - 2] == s[..|s| - 1][1..];
    }
  }

  /** Lower lengths before higher ones: the first are counted. */
  lemma {:induction false} CountOfSplit(s: seq<int>, k: nat, v: int)
    requires k <= |s|
    requires (forall i :: 0 <= i < k ==> s[i] < v) && forall i :: k <= i < |s| ==> s[i] >= v
    ensures CountBelow(s, v) == k
  {
    if s != [] {
      CountOfSplit(s[1..], if k > 0 then k - 1 else 0, v);
    }
  }

  /** Sorted, the lengths below a bound come first. */
  lemma SortedSplits(s: seq<int>, v: int)
    requires SortedBy(s, IntOrder)
    ensures CountBelow(s, v) <= |s| && forall i :: 0 <= i < |s| ==> (s[i] < v <==> i < CountBelow(s, v))
  {
    CountsOfSorted(s, |s|, v);
    forall i | 0 <= i < |s| ensures s[i] < v <==> i < CountBelow(s, v) {
      if s[i] < v {
        assert forall j :: 0 <= j <= i ==> IntOrder(s[j], s[i]);
        CountsOfSorted(s, i + 1, v);
      } else {
        assert forall j :: i <= j < |s| ==> IntOrder(s[i], s[j]);
        CountsOfSorted(s, i, v);
      }
    }
  }

  /** Draws of two ranges, in any order, are two groups; and two groups are such draws. */
  lemma GroupsIff(lengths: seq<int>, low: int, high: int, from: int, to: int, long: nat)
    requires low <= high < from <= to && long <= |lengths|
    ensures TwoGroups(lengths, low, high, from, to, long)
       <==> exists draws :: multiset(draws) == multiset(lengths) && Halves(draws, low, high, from, to, long)
  {
    if TwoGroups(lengths, low, high, from, to, long) {
      GroupsAreDrawn(lengths, low, high, from, to, long);
    }
    forall draws | multiset(draws) == multiset(lengths) && Halves(draws, low, high, from, to, long)
      ensures TwoGroups(lengths, low, high, from, to, long)
    {
      DrawnAreGroups(draws, lengths, low, high, from, to, long);
    }
    hide TwoGroups;
  }

  ghost predicate Halves(draws: seq<int>, low: int, high: int, from: int, to: int, long: nat) {
    forall i :: 0 <= i < |draws| ==>
      if i < |draws| - long then low <= draws[i] <= high else from <= draws[i] <= to
  }

  lemma RangesArePermuted(s: seq<int>, t: seq<int>, low: int, high: int, from: int, to: int)
    requires multiset(s) == multiset(t) && InRanges(t, low, high, from, to)
    ensures InRanges(s, low, high, from, to)
  {
    forall i | 0 <= i < |s| ensures low <= s[i] <= high || from <= s[i] <= to {
      assert s[i] in multiset(t);
      var k :| 0 <= k < |t| && t[k] == s[i];
    }
  }

  lemma SortedIsHalves(s: seq<int>, low: int, high: int, from: int, to: int, long: nat)
    requires low <= high < from <= to && SortedBy(s, IntOrder) && InRanges(s, low, high, from, to)
    requires CountBelow(s, from) == |s| - long
    ensures Halves(s, low, high, from, to, long)
  {
    SortedSplits(s, from);
    hide CountBelow, SortedBy;
  }

  lemma GroupsAreDrawn(lengths: seq<int>, low: int, high: int, from: int, to: int, long: nat)
    requires low <= high < from <= to && TwoGroups(lengths, low, high, from, to, long)
    ensures exists draws :: multiset(draws) == multiset(lengths) && Halves(draws, low, high, from, to, long)
  {
    var s := Sort(lengths, IntOrder);
    SortSorts(lengths, IntOrder);
    CountBelowIs(lengths, from);
    CountsArePermuted(s, lengths, from);
    RangesArePermuted(s, lengths, low, high, from, to);
    hide Sort, SortedBy, CountBelow, IntOrder, InRanges, Halves;
    SortedIsHalves(s, low, high, from, to, long);
  }

  lemma DrawnAreGroups(draws: seq<int>, lengths: seq<int>, low: int, high: int, from: int, to: int, long: nat)
    requires low <= high < from <= to && long <= |lengths|
    requires multiset(draws) == multiset(lengths) && Halves(draws, low, high, from, to, long)
    ensures TwoGroups(lengths, low, high, from, to, long)
  {
    assert |multiset(draws)| == |draws| && |multiset(lengths)| == |lengths|;
    CountBelowIs(lengths, from);
    CountsArePermuted(draws, lengths, from);
    CountOfSplit(draws, |draws| - long, from);
    assert InRanges(draws, low, high, from, to);
    RangesArePermuted(lengths, draws, low, high, from, to);
    hide CountBelow, InRanges;
  }

  function LongCount(name: Name, count: nat): nat {
    match name
    case Bimodal => count / 10
    case FewHuge => count / 20
    case _ => 1
  }

  function ShortLow(name: Name): int {
    if name.FewHuge? then 0 else 1
  }

  function ShortHigh(name: Name): int {
    if name.FewHuge? then 4 else 32
  }

  function LongLow(name: Name): int {
    if name.OneOutlier? then 4096 else 1024
  }

  lemma DrawnIffHalves(name: Name, count: nat, draws: seq<int>)
    requires 0 < count == |draws| && Shuffled(name)
    ensures Drawn(name, count, draws)
       <==> Halves(draws, ShortLow(name), ShortHigh(name), LongLow(name), 4096, LongCount(name, count))
  {
  }

  lemma PossibleIffHalves(name: Name, count: nat, lengths: seq<int>)
    requires 0 < count == |lengths| && Shuffled(name)
    ensures Possible(name, count, lengths) <==>
              exists draws ::
                && multiset(draws) == multiset(lengths)
                && Halves(draws, ShortLow(name), ShortHigh(name), LongLow(name), 4096, LongCount(name, count))
  {
    hide Drawn, Halves, ShortLow, ShortHigh, LongLow, LongCount;
    forall draws: seq<int> | multiset(draws) == multiset(lengths)
      ensures Drawn(name, count, draws)
         <==> Halves(draws, ShortLow(name), ShortHigh(name), LongLow(name), 4096, LongCount(name, count))
    {
      assert |multiset(draws)| == |draws| && |multiset(lengths)| == |lengths|;
      DrawnIffHalves(name, count, draws);
    }
  }

  lemma PossibleHasCount(name: Name, count: nat, lengths: seq<int>)
    requires Possible(name, count, lengths)
    ensures |lengths| == count
  {
    var draws :| Drawn(name, count, draws) && multiset(draws) == multiset(lengths);
    assert |multiset(draws)| == |draws| && |multiset(lengths)| == |lengths|;
  }

  /** The lists of a distribution, shuffled or not, are exactly those of its shape. */
  lemma ShapeIff(name: Name, count: nat, lengths: seq<int>)
    requires 0 < count
    ensures HasShape(name, count, lengths)
       <==> if Shuffled(name) then Possible(name, count, lengths) else Drawn(name, count, lengths)
  {
    if Shuffled(name) {
      if |lengths| == count {
        PossibleIffHalves(name, count, lengths);
        GroupsIff(lengths, ShortLow(name), ShortHigh(name), LongLow(name), 4096, LongCount(name, count));
      }
      if Possible(name, count, lengths) { PossibleHasCount(name, count, lengths); }
      hide TwoGroups, Halves, Possible;
    }
  }

  // -------------------------------------------------------------- generation

  /** An integer draw, both ends included. */
  method RandInt(low: int, high: int) returns (x: int)
    requires low <= high
    ensures low <= x <= high
  {
    x := *;
    if x < low {
      x := low;
    } else if x > high {
      x := high;
    }
  }

  function Exchange(s: seq<int>, i: nat, j: nat): (t: seq<int>)
    requires i < |s| && j < |s|
    ensures |t| == |s|
  {
    s[i := s[j]][j := s[i]]
  }

  /** One partner for every place, not after it. */
  ghost predicate Partners(partners: seq<nat>, n: nat) {
    |partners| == n && forall i :: 0 <= i < n ==> partners[i] <= i
  }

  /** Exchanges the places below `n` with their partners, the last place first. */
  ghost function Exchanged(s: seq<int>, partners: seq<nat>, n: nat): (t: seq<int>)
    requires n <= |s| == |partners| && Partners(partners, |s|)
    ensures |t| == |s|
    decreases n
  {
    if n <= 1 then s else Exchanged(Exchange(s, n - 1, partners[n - 1]), partners, n - 1)
  }

  lemma ExchangeKeeps(s: seq<int>, i: nat, j: nat)
    requires i < |s| && j < |s|
    ensures multiset(Exchange(s, i, j)) == multiset(s)
  {
    assert multiset(s[i := s[j]]) == multiset(s) - multiset{s[i]} + multiset{s[j]};
  }

  /** Only the places below `n` depend on their partners. */
  lemma {:induction false} SamePartners(s: seq<int>, p: seq<nat>, q: seq<nat>, n: nat)
    requires n <= |s| == |p| == |q| && Partners(p, |s|) && Partners(q, |s|)
    requires forall i :: 0 <= i < n ==> p[i] == q[i]
    ensures Exchanged(s, p, n) == Exchanged(s, q, n)
    decreases n
  {
    if n > 1 { SamePartners(Exchange(s, n - 1, p[n - 1]), p, q, n - 1); }
  }

  /** Some partners give any arrangement, so a shuffle can end in every one. */
  lemma {:induction false} EveryArrangement(s: seq<int>, t: seq<int>, n: nat) returns (partners: seq<nat>)
    requires n <= |s| == |t| && multiset(s[..n]) == multiset(t[..n]) && s[n..] == t[n..]
    ensures Partners(partners, |s|) && Exchanged(s, partners, n) == t
    decreases n
  {
    if n <= 1 {
      partners := seq(|s|, _ => 0);
      OneArrangement(s, t, n);
    } else {
      var j := PlaceOf(s[..n], t[n - 1], t[..n]);
      var u := Exchange(s, n - 1, j);
      ExchangedPrefix(s, t, n, j);
      partners := EveryArrangement(u, t, n - 1);
      var chosen := partners[n - 1 := j];
      SamePartners(u, partners, chosen, n - 1);
      partners := chosen;
    }
  }

  lemma OneArrangement(s: seq<int>, t: seq<int>, n: nat)
    requires n <= 1 && n <= |s| == |t| && multiset(s[..n]) == multiset(t[..n]) && s[n..] == t[n..]
    ensures s == t
  {
    assert s == s[..n] + s[n..] && t == t[..n] + t[n..];
    if n == 1 {
      assert s[..1] == [s[0]] && t[..1] == [t[0]];
      assert s[0] in multiset(t[..1]);
    }
  }

  lemma PlaceOf(s: seq<int>, x: int, t: seq<int>) returns (j: nat)
    requires multiset(s) == multiset(t) && x in t
    ensures j < |s| && s[j] == x
  {
    assert x in multiset(s);
    j :| 0 <= j < |s| && s[j] == x;
  }

  /** The exchange settles one place, and leaves the same numbers before it. */
  lemma ExchangedPrefix(s: seq<int>, t: seq<int>, n: nat, j: nat)
    requires j < n <= |s| == |t| && s[j] == t[n - 1]
    requires multiset(s[..n]) == multiset(t[..n]) && s[n..] == t[n..]
    ensures var u := Exchange(s, n - 1, j); multiset(u[..n - 1]) == multiset(t[..n - 1]) && u[n - 1..] == t[n - 1..]
  {
    var u, x := Exchange(s, n - 1, j), t[n - 1];
    ExchangeKeeps(s[..n], n - 1, j);
    ExchangeBelow(s, n, j);
    CutLast(u, n);
    CutLast(t, n);
    hide Exchange;
    WithoutLast(u[..n - 1], t[..n - 1], x);
  }

  lemma ExchangeBelow(s: seq<int>, n: nat, j: nat)
    requires j < n <= |s|
    ensures var u := Exchange(s, n - 1, j);
            u[..n] == Exchange(s[..n], n - 1, j) && u[n - 1] == s[j] && u[n..] == s[n..]
  {
  }

  lemma CutLast(s: seq<int>, n: nat)
    requires 0 < n <= |s|
    ensures s[..n] == s[..n - 1] + [s[n - 1]] && s[n - 1..] == [s[n - 1]] + s[n..]
  {
  }

  lemma WithoutLast(a: seq<int>, b: seq<int>, x: int)
    requires multiset(a + [x]) == multiset(b + [x])
    ensures multiset(a) == multiset(b)
  {
    assert multiset(a) == multiset(a + [x]) - multiset{x} && multiset(b) == multiset(b + [x]) - multiset{x};
  }

  /** The same partners from place `n` on. */
  ghost predicate Agrees(p: seq<nat>, q: seq<nat>, n: nat) {
    |p| == |q| && Partners(p, |p|) && forall i :: n <= i < |p| ==> p[i] == q[i]
  }

  /** What is left of a shuffle, whatever its remaining partners, completes the one begun. */
  ghost predicate Completes(now: seq<int>, before: seq<int>, partners: seq<nat>, n: nat)
    requires n <= |now| == |before| == |partners|
  {
    forall p :: Agrees(p, partners, n) ==> Exchanged(now, p, n) == Exchanged(before, p, |before|)
  }

  lemma CompletesNext(now: seq<int>, before: seq<int>, partners: seq<nat>, n: nat, j: nat)
    requires 1 < n <= |now| == |before| == |partners| && j < n && Completes(now, before, partners, n)
    ensures Completes(Exchange(now, n - 1, j), before, partners[n - 1 := j], n - 1)
  {
    var chosen := partners[n - 1 := j];
    forall p | Agrees(p, chosen, n - 1)
      ensures Exchanged(Exchange(now, n - 1, j), p, n - 1) == Exchanged(before, p, |before|)
    {
      assert p[n - 1] == j;
      assert Agrees(p, partners, n);
    }
  }

  /** A shuffle by exchanges, each place with one not after it. */
  method Shuffle(lengths: array<int>) returns (ghost partners: seq<nat>)
    modifies lengths
    ensures multiset(lengths[..]) == multiset(old(lengths[..]))
    ensures Partners(partners, lengths.Length)
    ensures lengths[..] == Exchanged(old(lengths[..]), partners, lengths.Length)
  {
    partners := seq(lengths.Length, _ => 0);
    var i := lengths.Length;
    while i > 1
      invariant 0 <= i <= lengths.Length && Partners(partners, lengths.Length)
      invariant multiset(lengths[..]) == multiset(old(lengths[..]))
      invariant Completes(lengths[..], old(lengths[..]), partners, i)
    {
      ghost var now := lengths[..];
      i := i - 1;
      var j := RandInt(0, i);
      CompletesNext(now, old(lengths[..]), partners, i + 1, j);
      ExchangeKeeps(now, i, j);
      partners := partners[i := j];
      lengths[i], lengths[j] := lengths[j], lengths[i];
      assert lengths[..] == Exchange(now, i, j);
    }
    assert Agrees(partners, partners, i);
  }

  /** Draws in order, each in its range. */
  method Draw(name: Name, count: nat) returns (lengths: array<int>)
    ensures fresh(lengths) && Drawn(name, count, lengths[..])
  {
    lengths := new int[count];
    for i := 0 to count
      invariant forall k :: 0 <= k < i ==> Low(name, count, k) <= lengths[k] <= High(name, count, k)
    {
      lengths[i] := RandInt(Low(name, count, i), High(name, count, i));
    }
  }

  method GenerateLengths(name: Name, count: int) returns (r: Result<seq<int>, Refusal>)
    ensures r == Err(CountNotPositive) <==> count <= 0
    ensures r == Err(TotalAboveI32) <==> count > 0 && WorstCaseTotal(name, count) > I32_MAX
    ensures r.Ok? ==> Possible(name, count, r.value) && HasShape(name, count, r.value)
  {
    if count <= 0 {
      return Err(CountNotPositive);
    }
    if WorstCaseTotal(name, count) > I32_MAX {
      return Err(TotalAboveI32);
    }
    var lengths := Draw(name, count);
    ghost var draws := lengths[..];
    if name.Bimodal? || name.FewHuge? || name.OneOutlier? {
      ghost var partners := Shuffle(lengths);
    }
    assert Drawn(name, count, draws) && multiset(draws) == multiset(lengths[..]);
    ShapeIff(name, count, lengths[..]);
    return Ok(lengths[..]);
  }

  // ------------------------------------------------------------------ bounds

  function Highs(name: Name, count: nat, n: nat): (hs: seq<int>)
    ensures |hs| == n
  {
    seq(n, i requires 0 <= i < n => High(name, count, i))
  }

  /** The sum of the first `n` upper ends. */
  function HighTotal(name: Name, count: nat, n: nat): int {
    match name
    case Bimodal => Min(n, count - count / 10) * 32 + (n - Min(n, count - count / 10)) * MAX_LENGTH
    case FewHuge => Min(n, count - count / 20) * 4 + (n - Min(n, count - count / 20)) * MAX_LENGTH
    case OneOutlier => Min(n, count - 1) * 32 + (n - Min(n, count - 1)) * MAX_LENGTH
    case ManyTiny => n * 32
    case AlternatingEmpty => n / 2 * 32
    case _ => n * MAX_LENGTH
  }

  lemma HighTotalNext(name: Name, count: nat, n: nat)
    requires 0 < n <= count
    ensures HighTotal(name, count, n) == HighTotal(name, count, n - 1) + High(name, count, n - 1)
  {
    assert n % 2 == 0 ==> n / 2 == (n - 1) / 2 + 1;
  }

  lemma NoHighTotal(name: Name, count: nat)
    requires 0 < count
    ensures HighTotal(name, count, 0) == 0
  {
  }

  lemma {:induction false} SumOfHighs(name: Name, count: nat, n: nat)
    requires 0 < count && n <= count
    ensures Sum(Highs(name, count, n)) == HighTotal(name, count, n)
  {
    hide HighTotal, High;
    NoHighTotal(name, count);
    if n > 0 {
      HighTotalNext(name, count, n);
      SumOfHighs(name, count, n - 1);
      assert Highs(name, count, n) == Highs(name, count, n - 1) + [High(name, count, n - 1)];
      SumConcat(Highs(name, count, n - 1), [High(name, count, n - 1)]);
      OneTerm(High(name, count, n - 1));
    }
  }

  lemma OneTerm(x: int)
    ensures Sum([x]) == x
  {
    assert [x][1..] == [];
  }

  /** The admission bound is the sum of the upper ends. */
  lemma WorstCaseIsHighest(name: Name, count: nat)
    requires 0 < count
    ensures Sum(Highs(name, count, count)) == WorstCaseTotal(name, count)
  {
    SumOfHighs(name, count, count);
  }

  /** Any list the distribution can return: as many lengths as asked, all capped, and a total within the bound. */
  lemma PossibleIsBounded(name: Name, count: nat, lengths: seq<int>)
    requires 0 < count && Possible(name, count, lengths)
    ensures |lengths| == count && forall i :: 0 <= i < count ==> 0 <= lengths[i] <= MAX_LENGTH
    ensures Sum(lengths) <= WorstCaseTotal(name, count)
  {
    var draws :| Drawn(name, count, draws) && multiset(draws) == multiset(lengths);
    assert |multiset(draws)| == |draws| && |multiset(lengths)| == |lengths|;
    SumOfPermutation(draws, lengths);
    SumBelow(draws, Highs(name, count, count));
    WorstCaseIsHighest(name, count);
    RangesAreCapped(name, count);
    hide Low, High, Highs, Sum, WorstCaseTotal;
    forall i | 0 <= i < count ensures 0 <= lengths[i] <= MAX_LENGTH {
      assert lengths[i] in multiset(draws);
      var k :| 0 <= k < count && draws[k] == lengths[i];
    }
  }

  lemma RangesAreCapped(name: Name, count: nat)
    ensures forall i: nat :: 0 <= Low(name, count, i) && High(name, count, i) <= MAX_LENGTH
  {
  }

  /** The bound is reached: no smaller one admits every draw. */
  lemma WorstCaseIsReached(name: Name, count: nat) returns (lengths: seq<int>)
    requires 0 < count
    ensures Possible(name, count, lengths) && Sum(lengths) == WorstCaseTotal(name, count)
  {
    lengths := Highs(name, count, count);
    WorstCaseIsHighest(name, count);
    assert Drawn(name, count, lengths);
  }

  /** Every offset of a generated list is an i32. */
  lemma OffsetsFit(name: Name, count: nat, lengths: seq<int>, k: nat)
    requires 0 < count && WorstCaseTotal(name, count) <= I32_MAX && Possible(name, count, lengths) && k <= |lengths|
    ensures 0 <= Sum(lengths[..k]) <= I32_MAX
  {
    PossibleIsBounded(name, count, lengths);
    PrefixBelowSum(lengths, k);
  }

  /** A count is admitted exactly when no draw overflows an i32 offset. */
  lemma AdmittedIffEveryTotalFits(name: Name, count: nat)
    requires 0 < count
    ensures WorstCaseTotal(name, count) <= I32_MAX
       <==> forall lengths :: Possible(name, count, lengths) ==> Sum(lengths) <= I32_MAX
  {
    forall lengths | Possible(name, count, lengths) ensures Sum(lengths) <= WorstCaseTotal(name, count) {
      PossibleIsBounded(name, count, lengths);
    }
    var worst := WorstCaseIsReached(name, count);
  }

  /** The statistics of every generated list pass the validator. */
  lemma GeneratedRowIsConsistent(name: Name, count: nat, lengths: seq<int>)
    requires 0 < count && WorstCaseTotal(name, count) <= I32_MAX && Possible(name, count, lengths)
    ensures SummarizeLengths(lengths).Ok? && ConsistentStatistics(SummarizeLengths(lengths).value, count)
  {
    PossibleIsBounded(name, count, lengths);
    SummaryIsConsistent(lengths);
  }
}
