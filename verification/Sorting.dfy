/** Sorting by a total order, and the order statistics the benchmarks report. */
module Sorting {

  ghost predicate TotalOrder<T(!new)>(le: (T, T) -> bool) {
    && (forall a, b :: le(a, b) || le(b, a))
    && (forall a, b :: le(a, b) && le(b, a) ==> a == b)
    && (forall a, b, c :: le(a, b) && le(b, c) ==> le(a, c))
  }

  predicate SortedBy<T>(s: seq<T>, le: (T, T) -> bool) {
    forall i, j :: 0 <= i <= j < |s| ==> le(s[i], s[j])
  }

  function Insert<T>(x: T, s: seq<T>, le: (T, T) -> bool): seq<T> {
    if s == [] || le(x, s[0]) then [x] + s else [s[0]] + Insert(x, s[1..], le)
  }

  function Sort<T>(s: seq<T>, le: (T, T) -> bool): (r: seq<T>) {
    if s == [] then [] else Insert(s[0], Sort(s[1..], le), le)
  }

  lemma {:induction false} InsertKeeps<T(!new)>(x: T, s: seq<T>, le: (T, T) -> bool)
    requires TotalOrder(le) && SortedBy(s, le)
    ensures SortedBy(Insert(x, s, le), le) && multiset(Insert(x, s, le)) == multiset{x} + multiset(s)
  {
    if s == [] || le(x, s[0]) {
    } else {
      InsertKeeps(x, s[1..], le);
      var rest := Insert(x, s[1..], le);
      assert s == [s[0]] + s[1..];
      forall i | 0 <= i < |rest| ensures le(s[0], rest[i]) {
        assert rest[i] in multiset(rest);
        assert rest[i] == x || rest[i] in s[1..];
      }
    }
  }

  lemma {:induction false} SortSorts<T(!new)>(s: seq<T>, le: (T, T) -> bool)
    requires TotalOrder(le)
    ensures SortedBy(Sort(s, le), le) && multiset(Sort(s, le)) == multiset(s) && |Sort(s, le)| == |s|
  {
    if s != [] {
      SortSorts(s[1..], le);
      InsertKeeps(s[0], Sort(s[1..], le), le);
      assert s == [s[0]] + s[1..];
    }
    assert |multiset(Sort(s, le))| == |Sort(s, le)| && |multiset(s)| == |s|;
  }

  /** There is one sorted arrangement. */
  lemma {:induction false} SortedIsUnique<T(!new)>(s: seq<T>, t: seq<T>, le: (T, T) -> bool)
    requires TotalOrder(le) && SortedBy(s, le) && SortedBy(t, le) && multiset(s) == multiset(t)
    ensures s == t
  {
    assert |multiset(s)| == |s| && |multiset(t)| == |t|;
    if s != [] {
      assert s[0] in multiset(t) && t[0] in multiset(s);
      var i :| 0 <= i < |t| && t[i] == s[0];
      var j :| 0 <= j < |s| && s[j] == t[0];
      assert le(t[0], t[i]) && le(s[0], s[j]);
      assert s == [s[0]] + s[1..] && t == [t[0]] + t[1..];
      assert multiset(s[1..]) == multiset(s) - multiset{s[0]};
      TailIsSorted(s, le);
      TailIsSorted(t, le);
      hide SortedBy, TotalOrder;
      SortedIsUnique(s[1..], t[1..], le);
    }
  }

  lemma TailIsSorted<T(!new)>(s: seq<T>, le: (T, T) -> bool)
    requires s != [] && SortedBy(s, le)
    ensures SortedBy(s[1..], le)
  {
  }

  // ------------------------------------------------------- sorted sets

  /** A sorted sequence without repetitions. */
  function Dedupe<T(==)>(s: seq<T>): seq<T> {
    if |s| < 2 then s
    else if s[0] == s[1] then Dedupe(s[1..])
    else [s[0]] + Dedupe(s[1..])
  }

  /** The elements, sorted, each once. */
  function SortedSet<T(==)>(s: seq<T>, le: (T, T) -> bool): seq<T> {
    Dedupe(Sort(s, le))
  }

  predicate Ascending<T(==)>(s: seq<T>, le: (T, T) -> bool) {
    forall i, j :: 0 <= i < j < |s| ==> le(s[i], s[j]) && s[i] != s[j]
  }

  lemma {:induction false} DedupeAscends<T(!new)>(s: seq<T>, le: (T, T) -> bool)
    requires TotalOrder(le) && SortedBy(s, le)
    ensures Ascending(Dedupe(s), le)
    ensures forall x :: x in Dedupe(s) <==> x in s
  {
    if |s| >= 2 {
      DedupeAscends(s[1..], le);
      assert s == [s[0]] + s[1..];
      if s[0] != s[1] {
        var rest := Dedupe(s[1..]);
        forall j | 0 <= j < |rest| ensures le(s[0], rest[j]) && s[0] != rest[j] {
          assert rest[j] in s[1..];
          var k :| 1 <= k < |s| && s[k] == rest[j];
          assert le(s[0], s[1]) && le(s[1], s[k]);
        }
      }
    }
  }

  lemma SortedSetIs<T(!new)>(s: seq<T>, le: (T, T) -> bool)
    requires TotalOrder(le)
    ensures Ascending(SortedSet(s, le), le)
    ensures forall x :: x in SortedSet(s, le) <==> x in s
  {
    SortSorts(s, le);
    DedupeAscends(Sort(s, le), le);
    assert forall x :: x in Sort(s, le) <==> x in multiset(Sort(s, le));
    assert forall x :: x in s <==> x in multiset(s);
  }
}
