/** The frozen trace: one canonical decimal a line, and its strict parser. */
module TraceCodec {
  import opened Wrappers
  import opened Decimal

  const MAX_LENGTH := 4096

  datatype EncodeRefusal = EmptyOrNegative

  datatype ParseRefusal =
    | NoFinalLineFeed
    | CarriageReturn
    | NotDecimal(line: nat)
    | NotCanonical(line: nat)
    | AboveMaximum(line: nat)

  function Lines(lengths: seq<int>): (lines: seq<seq<byte>>)
    requires forall i :: 0 <= i < |lengths| ==> lengths[i] >= 0
    ensures |lines| == |lengths|
  {
    seq(|lengths|, i requires 0 <= i < |lengths| => Digits(lengths[i]))
  }

  function EncodeTrace(lengths: seq<int>): Result<seq<byte>, EncodeRefusal> {
    if lengths == [] || exists i :: 0 <= i < |lengths| && lengths[i] < 0 then Err(EmptyOrNegative)
    else Ok(JoinLines(Lines(lengths)))
  }

  /** Lengths that the parser takes back. */
  ghost predicate IsTrace(lengths: seq<int>) {
    lengths != [] && forall i :: 0 <= i < |lengths| ==> 0 <= lengths[i] <= MAX_LENGTH
  }

  /** Why a line is refused. */
  function LineRefusal(line: seq<byte>, number: nat): Option<ParseRefusal> {
    if line == [] || !AllDigits(line) then Some(NotDecimal(number))
    else if |line| > 1 && line[0] == ZERO then Some(NotCanonical(number))
    else if Value(line) > MAX_LENGTH then Some(AboveMaximum(number))
    else None
  }

  /** A line is a decimal of at most 4096, or refused for the first of three defects. */
  lemma LineRefusals(line: seq<byte>, number: nat)
    ensures var r := LineRefusal(line, number);
            && (r == Some(NotDecimal(number)) <==>
                  line == [] || exists i :: 0 <= i < |line| && !(48 <= line[i] <= 57))
            && (r == Some(NotCanonical(number)) <==>
                  |line| > 1 && line[0] == 48 && forall i :: 0 <= i < |line| ==> 48 <= line[i] <= 57)
            && (r == Some(AboveMaximum(number)) <==> exists n: nat :: n > 4096 && line == Digits(n))
            && (r == None <==> exists n: nat :: n <= 4096 && line == Digits(n))
            && (r.Some? ==> r.value in {NotDecimal(number), NotCanonical(number), AboveMaximum(number)})
  {
    if Canonical(line) { DigitsOfValue(line); }
    forall n: nat | line == Digits(n) ensures Canonical(line) && Value(line) == n {
      ValueOfDigits(n);
    }
    hide Digits, Value;
  }

  /** The first refused line, numbered from one. */
  ghost predicate FirstRefused(lines: seq<seq<byte>>, k: nat, e: ParseRefusal) {
    && k < |lines| && LineRefusal(lines[k], k + 1) == Some(e)
    && forall i :: 0 <= i < k ==> LineRefusal(lines[i], i + 1) == None
  }

  ghost predicate Taken(lines: seq<seq<byte>>, lengths: seq<int>) {
    && |lengths| == |lines|
    && forall i :: 0 <= i < |lines| ==> LineRefusal(lines[i], i + 1) == None && lengths[i] == Value(lines[i])
  }

  method ParseTrace(data: seq<byte>) returns (r: Result<seq<int>, ParseRefusal>)
    ensures r.Ok? ==> IsTrace(r.value) && EncodeTrace(r.value) == Ok(data)
    ensures forall lengths :: IsTrace(lengths) && EncodeTrace(lengths) == Ok(data) ==> r == Ok(lengths)
    ensures r.Err? ==>
              match r.error
              case NoFinalLineFeed => data == [] || data[|data| - 1] != LF
              case CarriageReturn => CR in data
              case _ => exists k: nat :: FirstRefused(SplitLines(data), k, r.error)
    ensures r == Err(NoFinalLineFeed) <==> data == [] || data[|data| - 1] != 10
    ensures r == Err(CarriageReturn) <==> data != [] && data[|data| - 1] == 10 && 13 in data
  {
    r := ParseLines(data);
    if r.Ok? {
      EncodingOfParsed(data, r.value);
    }
    forall lengths | IsTrace(lengths) && EncodeTrace(lengths) == Ok(data) ensures r == Ok(lengths) {
      LinesOfTrace(lengths);
      ParsedIsTaken(data, lengths, r);
    }
  }

  ghost predicate Parsed(data: seq<byte>, r: Result<seq<int>, ParseRefusal>) {
    && (r == Err(NoFinalLineFeed) <==> data == [] || data[|data| - 1] != LF)
    && (r == Err(CarriageReturn) <==> data != [] && data[|data| - 1] == LF && CR in data)
    && (r.Ok? ==> data != [] && data[|data| - 1] == LF && CR !in data && Taken(SplitLines(data), r.value))
    && (r.Err? && !r.error.NoFinalLineFeed? && !r.error.CarriageReturn? ==>
          exists k: nat :: FirstRefused(SplitLines(data), k, r.error))
  }

  lemma ParsedIsTaken(data: seq<byte>, lengths: seq<int>, r: Result<seq<int>, ParseRefusal>)
    requires data != [] && data[|data| - 1] == LF && CR !in data && Taken(SplitLines(data), lengths) && Parsed(data, r)
    ensures r == Ok(lengths)
  {
    hide SplitLines, Value, LineRefusal;
    if r.Ok? {
      assert r.value == lengths;
    } else {
      NoneIsRefused(SplitLines(data), lengths, r.error);
    }
  }

  lemma NoneIsRefused(lines: seq<seq<byte>>, lengths: seq<int>, e: ParseRefusal)
    requires Taken(lines, lengths)
    ensures forall k: nat :: !FirstRefused(lines, k, e)
  {
    hide Value, LineRefusal;
    forall k: nat ensures !FirstRefused(lines, k, e) {
      assert k < |lines| ==> LineRefusal(lines[k], k + 1) == None;
    }
  }

  /** The loop over the lines. */
  method ParseLines(data: seq<byte>) returns (r: Result<seq<int>, ParseRefusal>)
    ensures Parsed(data, r)
  {
    if data == [] || data[|data| - 1] != LF {
      return Err(NoFinalLineFeed);
    }
    if CR in data {
      return Err(CarriageReturn);
    }
    var lines := SplitLines(data);
    hide SplitLines;
    var lengths: seq<int> := [];
    for i := 0 to |lines|
      invariant |lengths| == i
      invariant forall j :: 0 <= j < i ==> LineRefusal(lines[j], j + 1) == None && lengths[j] == Value(lines[j])
    {
      var line := lines[i];
      if line == [] || !AllDigits(line) {
        assert FirstRefused(lines, i, NotDecimal(i + 1));
        return Err(NotDecimal(i + 1));
      }
      if |line| > 1 && line[0] == ZERO {
        assert FirstRefused(lines, i, NotCanonical(i + 1));
        return Err(NotCanonical(i + 1));
      }
      var value := Value(line);
      if value > MAX_LENGTH {
        assert FirstRefused(lines, i, AboveMaximum(i + 1));
        return Err(AboveMaximum(i + 1));
      }
      lengths := lengths + [value];
    }
    return Ok(lengths);
  }

  /** What the parser takes is the encoding of its result. */
  lemma EncodingOfParsed(data: seq<byte>, lengths: seq<int>)
    requires data != [] && data[|data| - 1] == LF && CR !in data && Taken(SplitLines(data), lengths)
    ensures IsTrace(lengths) && EncodeTrace(lengths) == Ok(data)
  {
    hide SplitLines, JoinLines, LineRefusal, Digits, Value, NoLineEnd;
    JoinOfSplit(data);
    var lines := SplitLines(data);
    forall i | 0 <= i < |lines| ensures 0 <= lengths[i] <= MAX_LENGTH && Digits(lengths[i]) == lines[i] {
      TakenLine(lines[i], i + 1);
    }
    assert Lines(lengths) == lines;
  }

  lemma TakenLine(line: seq<byte>, number: nat)
    requires LineRefusal(line, number) == None
    ensures AllDigits(line) && Value(line) <= MAX_LENGTH && Digits(Value(line)) == line
  {
    DigitsOfValue(line);
  }

  /** Two traces with one encoding are the same. */
  lemma EncodingIsInjective(a: seq<int>, b: seq<int>)
    requires IsTrace(a) && IsTrace(b) && EncodeTrace(a) == EncodeTrace(b)
    ensures a == b
  {
    LinesOfTrace(a);
    LinesOfTrace(b);
    hide EncodeTrace, SplitLines, Value, LineRefusal;
    assert |a| == |b| && forall i :: 0 <= i < |a| ==> a[i] == b[i];
  }

  /** The lines of an encoding are its digits, which no check refuses. */
  lemma LinesOfTrace(lengths: seq<int>)
    requires IsTrace(lengths)
    ensures EncodeTrace(lengths).Ok?
    ensures var data := EncodeTrace(lengths).value;
            data != [] && data[|data| - 1] == LF && CR !in data && Taken(SplitLines(data), lengths)
  {
    var lines := Lines(lengths);
    forall i | 0 <= i < |lines|
      ensures NoLineEnd(lines[i]) && LineRefusal(lines[i], i + 1) == None && Value(lines[i]) == lengths[i]
    {
      ValueOfDigits(lengths[i]);
      assert lines[i] == Digits(lengths[i]);
    }
    SplitOfJoin(lines);
    JoinedEnds(lines);
  }

  lemma {:induction false} JoinedEnds(lines: seq<seq<byte>>)
    requires lines != [] && forall i :: 0 <= i < |lines| ==> NoLineEnd(lines[i])
    ensures var data := JoinLines(lines); data != [] && data[|data| - 1] == LF && CR !in data
  {
    var rest := JoinLines(lines[1..]);
    if |lines| > 1 {
      JoinedEnds(lines[1..]);
    } else {
      assert lines[1..] == [];
    }
    assert JoinLines(lines) == lines[0] + [LF] + rest;
    assert CR !in lines[0];
  }
}
