/** Bytes, their lines, and canonical unsigned decimals. */
module Decimal {

  type byte = x: int | 0 <= x < 256

  const LF: byte := 10
  const CR: byte := 13
  const ZERO: byte := 48

  predicate IsDigit(b: byte) {
    ZERO <= b <= ZERO + 9
  }

  predicate AllDigits(s: seq<byte>) {
    forall i :: 0 <= i < |s| ==> IsDigit(s[i])
  }

  // ---------------------------------------------------------------- decimals

  /** The digits of a number, without leading zeros. */
  function Digits(n: nat): (s: seq<byte>)
    ensures s != [] && AllDigits(s)
  {
    if n < 10 then [ZERO + n] else Digits(n / 10) + [ZERO + n % 10]
  }

  /** The number that digits denote. */
  function Value(s: seq<byte>): nat
    requires AllDigits(s)
  {
    if s == [] then 0 else Value(s[..|s| - 1]) * 10 + (s[|s| - 1] - ZERO)
  }

  predicate Canonical(s: seq<byte>) {
    s != [] && AllDigits(s) && (|s| > 1 ==> s[0] != ZERO)
  }

  lemma {:induction false} ValueOfDigits(n: nat)
    ensures Value(Digits(n)) == n && Canonical(Digits(n))
    ensures n > 0 ==> Digits(n)[0] != ZERO
  {
    var s := Digits(n);
    if n < 10 {
      assert s[..|s| - 1] == [];
    } else {
      ValueOfDigits(n / 10);
      assert s[..|s| - 1] == Digits(n / 10);
    }
  }

  lemma {:induction false} DigitsOfValue(s: seq<byte>)
    requires Canonical(s)
    ensures Digits(Value(s)) == s
    ensures Value(s) == 0 ==> s == [ZERO]
  {
    var before := s[..|s| - 1];
    if |s| == 1 {
      assert before == [] && Value(before) == 0;
    } else {
      assert Canonical(before);
      DigitsOfValue(before);
      assert Value(before) > 0;
      assert s == before + [s[|s| - 1]];
    }
  }

  // ------------------------------------------------------------------- lines

  predicate IsLineEnd(b: byte) {
    b == LF || b == CR
  }

  predicate NoLineEnd(s: seq<byte>) {
    forall i :: 0 <= i < |s| ==> !IsLineEnd(s[i])
  }

  /** The length of the first line. */
  function LineLength(data: seq<byte>): (n: nat)
    ensures n <= |data| && NoLineEnd(data[..n]) && (n < |data| ==> IsLineEnd(data[n]))
  {
    if data == [] || IsLineEnd(data[0]) then 0
    else
      var n := LineLength(data[1..]);
      assert data[..1 + n] == [data[0]] + data[1..][..n];
      1 + n
  }

  /** What ends a line: a line feed, a carriage return, or both. */
  function EndLength(data: seq<byte>): (n: nat)
    requires data != []
    ensures 0 < n <= |data|
  {
    if data[0] == CR && |data| > 1 && data[1] == LF then 2 else 1
  }

  function SplitLines(data: seq<byte>): (lines: seq<seq<byte>>)
    ensures forall i :: 0 <= i < |lines| ==> NoLineEnd(lines[i])
    decreases |data|
  {
    if data == [] then []
    else
      var n := LineLength(data);
      if n == |data| then
        assert data[..n] == data;
        [data]
      else [data[..n]] + SplitLines(data[n..][EndLength(data[n..])..])
  }

  /** Every line, ended by a line feed. */
  function JoinLines(lines: seq<seq<byte>>): seq<byte> {
    if lines == [] then [] else lines[0] + [LF] + JoinLines(lines[1..])
  }

  lemma {:induction false} FirstLine(line: seq<byte>, rest: seq<byte>)
    requires NoLineEnd(line)
    ensures LineLength(line + [LF] + rest) == |line|
  {
    var data := line + [LF] + rest;
    if line == [] {
      assert data[0] == LF;
    } else {
      assert data[0] == line[0];
      assert data[1..] == line[1..] + [LF] + rest;
      FirstLine(line[1..], rest);
    }
  }

  lemma SplitFirst(line: seq<byte>, rest: seq<byte>)
    requires NoLineEnd(line)
    ensures SplitLines(line + [LF] + rest) == [line] + SplitLines(rest)
  {
    var data := line + [LF] + rest;
    FirstLine(line, rest);
    assert data[..|line|] == line;
    assert data[|line|..] == [LF] + rest;
    assert EndLength([LF] + rest) == 1 && ([LF] + rest)[1..] == rest;
    hide LineLength, NoLineEnd;
  }

  lemma {:induction false} SplitOfJoin(lines: seq<seq<byte>>)
    requires forall i :: 0 <= i < |lines| ==> NoLineEnd(lines[i])
    ensures SplitLines(JoinLines(lines)) == lines
  {
    hide SplitLines, NoLineEnd;
    if lines == [] {
      SplitNothing();
    } else {
      SplitOfJoin(lines[1..]);
      SplitFirst(lines[0], JoinLines(lines[1..]));
    }
  }

  // Any line ends: a line feed, a carriage return, or both; the last line may have none.

  predicate IsEnd(e: seq<byte>) {
    e == [10] || e == [13] || e == [13, 10]
  }

  /** A carriage return that ends a line is not followed by a line feed, and an unended line is last and not empty. */
  predicate Ended(lines: seq<seq<byte>>, ends: seq<seq<byte>>) {
    && |ends| == |lines|
    && (forall i :: 0 <= i < |lines| ==> NoLineEnd(lines[i]))
    && (forall i :: 0 <= i < |lines| ==> IsEnd(ends[i]) || (i == |lines| - 1 && ends[i] == [] && lines[i] != []))
    && forall i :: 0 < i < |lines| && ends[i - 1] == [13] ==> lines[i] != [] || ends[i] != [10]
  }

  function WithEnds(lines: seq<seq<byte>>, ends: seq<seq<byte>>): seq<byte>
    requires |ends| == |lines|
  {
    if lines == [] then [] else lines[0] + (ends[0] + WithEnds(lines[1..], ends[1..]))
  }

  lemma {:induction false} LengthBeforeEnd(line: seq<byte>, rest: seq<byte>)
    requires NoLineEnd(line) && (rest == [] || IsLineEnd(rest[0]))
    ensures LineLength(line + rest) == |line|
  {
    if line == [] {
      assert line + rest == rest;
    } else {
      assert (line + rest)[1..] == line[1..] + rest;
      LengthBeforeEnd(line[1..], rest);
    }
  }

  lemma SplitBeforeEnd(line: seq<byte>, end: seq<byte>, rest: seq<byte>)
    requires NoLineEnd(line) && IsEnd(end) && (end == [13] ==> rest == [] || rest[0] != 10)
    ensures SplitLines(line + (end + rest)) == [line] + SplitLines(rest)
  {
    var data, after := line + (end + rest), end + rest;
    assert after[0] == end[0] && (|end| == 2 ==> after[1] == end[1]);
    assert |end| == 1 && rest != [] ==> after[1] == rest[0];
    LengthBeforeEnd(line, after);
    assert data[..|line|] == line && data[|line|..] == after;
    assert EndLength(after) == |end| && after[|end|..] == rest;
    hide LineLength, NoLineEnd;
  }

  lemma LastLine(line: seq<byte>)
    requires NoLineEnd(line) && line != []
    ensures SplitLines(line) == [line]
  {
    LengthBeforeEnd(line, []);
    assert line + [] == line && line[..|line|] == line;
  }

  lemma {:induction false} SplitOfEnded(lines: seq<seq<byte>>, ends: seq<seq<byte>>)
    requires Ended(lines, ends)
    ensures SplitLines(WithEnds(lines, ends)) == lines
  {
    if lines == [] {
      SplitNothing();
    } else {
      var rest := WithEnds(lines[1..], ends[1..]);
      SplitOfEnded(lines[1..], ends[1..]);
      if ends[0] == [] {
        assert lines[1..] == [] && lines[0] + ([] + []) == lines[0];
        LastLine(lines[0]);
      } else {
        RestBegins(lines, ends);
        SplitBeforeEnd(lines[0], ends[0], rest);
      }
    }
    hide SplitLines;
  }

  lemma RestBegins(lines: seq<seq<byte>>, ends: seq<seq<byte>>)
    requires Ended(lines, ends) && lines != []
    ensures var rest := WithEnds(lines[1..], ends[1..]); ends[0] == [13] ==> rest == [] || rest[0] != 10
  {
    if |lines| > 1 {
      var rest := WithEnds(lines[2..], ends[2..]);
      assert lines[1..][1..] == lines[2..] && ends[1..][1..] == ends[2..];
      assert WithEnds(lines[1..], ends[1..]) == lines[1] + (ends[1] + rest);
      if lines[1] == [] {
        assert lines[1] + (ends[1] + rest) == ends[1] + rest;
      }
    }
  }

  lemma {:induction false} EndsOf(data: seq<byte>) returns (ends: seq<seq<byte>>)
    ensures Ended(SplitLines(data), ends) && WithEnds(SplitLines(data), ends) == data
    decreases |data|
  {
    var n := LineLength(data);
    if data == [] {
      ends := [];
    } else if n == |data| {
      assert data[..n] == data;
      ends := [[]];
      assert data + ([] + []) == data;
    } else {
      var e := EndLength(data[n..]);
      var rest := data[n..][e..];
      var later := EndsOf(rest);
      EndOf(data[n..], e);
      CutTwice(data, n, e);
      MoreLines(data[..n], data[n..][..e], rest, SplitLines(rest), later);
      ends := [data[n..][..e]] + later;
    }
  }

  lemma EndOf(after: seq<byte>, e: nat)
    requires after != [] && IsLineEnd(after[0]) && e == EndLength(after)
    ensures IsEnd(after[..e]) && (after[..e] == [13] ==> after[e..] == [] || after[e..][0] != 10)
  {
    assert after[..e] == if e == 2 then [after[0], after[1]] else [after[0]];
  }

  lemma CutTwice(data: seq<byte>, n: nat, e: nat)
    requires n + e <= |data|
    ensures data == data[..n] + (data[n..][..e] + data[n..][e..])
  {
  }

  lemma MoreLines(line: seq<byte>, end: seq<byte>, rest: seq<byte>, lines: seq<seq<byte>>, ends: seq<seq<byte>>)
    requires NoLineEnd(line) && IsEnd(end) && Ended(lines, ends) && WithEnds(lines, ends) == rest
    requires end == [13] ==> rest == [] || rest[0] != 10
    ensures Ended([line] + lines, [end] + ends) && WithEnds([line] + lines, [end] + ends) == line + (end + rest)
  {
    assert ([line] + lines)[1..] == lines && ([end] + ends)[1..] == ends;
    if lines != [] && lines[0] == [] && ends[0] == [10] {
      assert rest[0] == 10;
    }
    hide NoLineEnd;
  }

  /** Splitting gives the lines that some line ends make the data of. */
  lemma SplitLinesIff(data: seq<byte>, lines: seq<seq<byte>>)
    ensures SplitLines(data) == lines <==> exists ends :: Ended(lines, ends) && WithEnds(lines, ends) == data
  {
    var own := EndsOf(data);
    forall ends | Ended(lines, ends) && WithEnds(lines, ends) == data ensures SplitLines(data) == lines {
      SplitOfEnded(lines, ends);
    }
    hide SplitLines;
  }

  lemma SplitNothing()
    ensures SplitLines([]) == []
  {
  }

  /** Data that ends with a line feed, and has no carriage return, has a first line ended by one. */
  lemma SplitAtFeed(data: seq<byte>)
    requires data != [] && CR !in data && data[|data| - 1] == LF
    ensures var n := LineLength(data);
            && n < |data| && data == data[..n] + [LF] + data[n + 1..]
            && SplitLines(data) == [data[..n]] + SplitLines(data[n + 1..])
  {
    var n := LineLength(data);
    FeedPosition(data);
    hide LineLength, SplitLines, NoLineEnd;
    CutAt(data, n);
    SplitFirst(data[..n], data[n + 1..]);
  }

  lemma CutAt(data: seq<byte>, n: nat)
    requires n < |data|
    ensures data == data[..n] + [data[n]] + data[n + 1..]
  {
  }

  lemma FeedPosition(data: seq<byte>)
    requires data != [] && CR !in data && data[|data| - 1] == LF
    ensures LineLength(data) < |data| && data[LineLength(data)] == LF && NoLineEnd(data[..LineLength(data)])
  {
    var n := LineLength(data);
    hide LineLength;
    assert forall i :: 0 <= i < n ==> data[..n][i] == data[i];
    assert IsLineEnd(data[|data| - 1]);
    assert n < |data| ==> data[n] in data;
  }

  lemma {:induction false} JoinOfSplit(data: seq<byte>)
    requires CR !in data && (data != [] ==> data[|data| - 1] == LF)
    ensures JoinLines(SplitLines(data)) == data
    ensures data != [] ==> SplitLines(data) != []
    decreases |data|
  {
    hide SplitLines, LineLength, IsLineEnd;
    if data == [] {
      SplitNothing();
    } else {
      SplitAtFeed(data);
      JoinOfSplit(data[LineLength(data) + 1..]);
    }
  }
}
