/** A coordinate-pattern matrix: strict parsing, its vertices, and its row counts. */
module MatrixMarket {
  import opened Wrappers
  import opened Decimal

  const BANNER := "%%MatrixMarket matrix coordinate pattern general"
  const PERCENT: byte := 37

  datatype DecimalRefusal = NotDecimal | NotCanonical

  datatype Refusal =
    | Banner
    | NoDimensions
    | DimensionFields
    | Dimension(reason: DecimalRefusal)
    | Shape
    | EntryCount
    | EntryFields(entry: nat)
    | EntryRow(entry: nat, reason: DecimalRefusal)
    | EntryColumn(entry: nat, reason: DecimalRefusal)
    | RowOutOfBounds(entry: nat)
    | ColumnOutOfBounds(entry: nat)
    | Duplicate(entry: nat)

  type Edge = (nat, nat)

  function Ascii(s: string): seq<byte> {
    seq(|s|, i requires 0 <= i < |s| => s[i] as int % 256)
  }

  // ------------------------------------------------------------------ tokens

  predicate IsSpace(b: byte) {
    b == 32 || 9 <= b <= 13
  }

  function TokenLength(line: seq<byte>): (n: nat)
    ensures n <= |line|
  {
    if line == [] || IsSpace(line[0]) then 0 else 1 + TokenLength(line[1..])
  }

  /** The tokens between spaces. */
  function Split(line: seq<byte>): seq<seq<byte>>
    decreases |line|
  {
    if line == [] then []
    else if IsSpace(line[0]) then Split(line[1..])
    else
      var n := TokenLength(line);
      [line[..n]] + Split(line[n..])
  }

  predicate AllSpace(s: seq<byte>) {
    forall i :: 0 <= i < |s| ==> s[i] == 32 || 9 <= s[i] <= 13
  }

  predicate IsToken(s: seq<byte>) {
    s != [] && forall i :: 0 <= i < |s| ==> s[i] != 32 && !(9 <= s[i] <= 13)
  }

  /** Gaps of spaces before, between and after tokens; only the outer two may be empty. */
  predicate Spacing(tokens: seq<seq<byte>>, gaps: seq<seq<byte>>) {
    && |gaps| == |tokens| + 1
    && (forall i :: 0 <= i < |tokens| ==> IsToken(tokens[i]))
    && (forall i :: 0 <= i < |gaps| ==> AllSpace(gaps[i]))
    && forall i :: 0 < i < |tokens| ==> gaps[i] != []
  }

  /** The line of tokens and their gaps. */
  function Spaced(tokens: seq<seq<byte>>, gaps: seq<seq<byte>>): seq<byte>
    requires |gaps| == |tokens| + 1
  {
    if tokens == [] then gaps[0] else gaps[0] + tokens[0] + Spaced(tokens[1..], gaps[1..])
  }

  lemma {:induction false} SkipGap(gap: seq<byte>, rest: seq<byte>)
    requires AllSpace(gap)
    ensures Split(gap + rest) == Split(rest)
  {
    if gap == [] {
      assert gap + rest == rest;
    } else {
      assert (gap + rest)[1..] == gap[1..] + rest;
      SkipGap(gap[1..], rest);
    }
  }

  predicate EndsToken(rest: seq<byte>) {
    rest == [] || IsSpace(rest[0])
  }

  lemma {:induction false} LengthOfToken(token: seq<byte>, rest: seq<byte>)
    requires EndsToken(rest) && forall i :: 0 <= i < |token| ==> !IsSpace(token[i])
    ensures TokenLength(token + rest) == |token|
  {
    if token == [] {
      assert token + rest == rest;
    } else {
      assert (token + rest)[1..] == token[1..] + rest;
      LengthOfToken(token[1..], rest);
    }
  }

  lemma TakeToken(token: seq<byte>, rest: seq<byte>)
    requires IsToken(token) && EndsToken(rest)
    ensures Split(token + rest) == [token] + Split(rest)
  {
    LengthOfToken(token, rest);
    assert (token + rest)[0] == token[0];
    assert (token + rest)[..|token|] == token && (token + rest)[|token|..] == rest;
  }

  lemma SpacedEnds(tokens: seq<seq<byte>>, gaps: seq<seq<byte>>)
    requires Spacing(tokens, gaps) && (tokens != [] ==> gaps[0] != [])
    ensures EndsToken(Spaced(tokens, gaps))
  {
    assert gaps[0] != [] ==> IsSpace(gaps[0][0]);
  }

  lemma {:induction false} SplitOfSpaced(tokens: seq<seq<byte>>, gaps: seq<seq<byte>>)
    requires Spacing(tokens, gaps)
    ensures Split(Spaced(tokens, gaps)) == tokens
  {
    if tokens == [] {
      SkipGap(gaps[0], []);
      assert gaps[0] + [] == gaps[0];
    } else {
      var rest := Spaced(tokens[1..], gaps[1..]);
      SpacedEnds(tokens[1..], gaps[1..]);
      SplitOfSpaced(tokens[1..], gaps[1..]);
      TakeToken(tokens[0], rest);
      SkipGap(gaps[0], tokens[0] + rest);
      hide Split, EndsToken, IsToken, AllSpace;
      assert gaps[0] + (tokens[0] + rest) == gaps[0] + tokens[0] + rest;
    }
  }

  lemma FirstToken(line: seq<byte>)
    requires line != [] && !IsSpace(line[0])
    ensures IsToken(line[..TokenLength(line)]) && EndsToken(line[TokenLength(line)..])
  {
    TokenIs(line);
  }

  lemma {:induction false} TokenIs(line: seq<byte>)
    ensures forall i :: 0 <= i < TokenLength(line) ==> !IsSpace(line[i])
    ensures EndsToken(line[TokenLength(line)..])
    ensures line != [] && !IsSpace(line[0]) ==> TokenLength(line) > 0
  {
    if line != [] && !IsSpace(line[0]) {
      TokenIs(line[1..]);
      assert line[1..][TokenLength(line[1..])..] == line[TokenLength(line)..];
      assert forall i :: 1 <= i < TokenLength(line) ==> line[i] == line[1..][i - 1];
    }
  }

  lemma {:induction false} GapsOf(line: seq<byte>) returns (gaps: seq<seq<byte>>)
    ensures Spacing(Split(line), gaps) && Spaced(Split(line), gaps) == line
    decreases |line|
  {
    if line == [] {
      gaps := [[]];
    } else if IsSpace(line[0]) {
      gaps := GapsOf(line[1..]);
      WiderGap(Split(line[1..]), gaps, line[0]);
      assert line == [line[0]] + line[1..];
      gaps := [[line[0]] + gaps[0]] + gaps[1..];
    } else {
      FirstToken(line);
      var n := TokenLength(line);
      gaps := GapsOf(line[n..]);
      MoreTokens(line[..n], line[n..], Split(line[n..]), gaps);
      assert line == line[..n] + line[n..];
      gaps := [[]] + gaps;
    }
  }

  lemma WiderGap(tokens: seq<seq<byte>>, gaps: seq<seq<byte>>, space: byte)
    requires Spacing(tokens, gaps) && IsSpace(space)
    ensures var wider := [[space] + gaps[0]] + gaps[1..];
            Spacing(tokens, wider) && Spaced(tokens, wider) == [space] + Spaced(tokens, gaps)
  {
    var wider := [[space] + gaps[0]] + gaps[1..];
    assert wider[1..] == gaps[1..];
    assert AllSpace(wider[0]);
    assert forall i :: 0 < i < |wider| ==> wider[i] == gaps[i];
    hide AllSpace, IsToken;
  }

  lemma NotEmptyGap(tokens: seq<seq<byte>>, gaps: seq<seq<byte>>)
    requires tokens != [] && Spacing(tokens, gaps) && EndsToken(Spaced(tokens, gaps))
    ensures gaps[0] != []
  {
    assert Spaced(tokens, gaps)[|gaps[0]|] == tokens[0][0];
  }

  lemma MoreTokens(token: seq<byte>, rest: seq<byte>, tokens: seq<seq<byte>>, gaps: seq<seq<byte>>)
    requires IsToken(token) && EndsToken(rest) && Spacing(tokens, gaps) && Spaced(tokens, gaps) == rest
    ensures Spacing([token] + tokens, [[]] + gaps) && Spaced([token] + tokens, [[]] + gaps) == token + rest
  {
    var more := [[]] + gaps;
    assert AllSpace(more[0]) && more[1..] == gaps && ([token] + tokens)[1..] == tokens;
    if tokens != [] {
      NotEmptyGap(tokens, gaps);
    }
    hide AllSpace;
  }

  /** Splitting gives the tokens that some spacing lays out as the line. */
  lemma SplitIff(line: seq<byte>, tokens: seq<seq<byte>>)
    ensures Split(line) == tokens <==> exists gaps :: Spacing(tokens, gaps) && Spaced(tokens, gaps) == line
  {
    var own := GapsOf(line);
    forall gaps | Spacing(tokens, gaps) && Spaced(tokens, gaps) == line ensures Split(line) == tokens {
      SplitOfSpaced(tokens, gaps);
    }
  }

  lemma OnlyDigits(token: seq<byte>)
    ensures forall n: nat :: token == Digits(n) ==> Canonical(token) && Value(token) == n
  {
    forall n: nat ensures token == Digits(n) ==> Canonical(token) && Value(token) == n {
      ValueOfDigits(n);
    }
  }

  /** One canonical unsigned decimal. */
  function ParseDecimal(token: seq<byte>): (r: Result<nat, DecimalRefusal>)
    ensures forall n: nat :: r == Ok(n) <==> token == Digits(n)
    ensures r == Err(NotDecimal) <==> token == [] || exists i :: 0 <= i < |token| && !(48 <= token[i] <= 57)
    ensures r == Err(NotCanonical) <==>
              |token| > 1 && token[0] == 48 && forall i :: 0 <= i < |token| ==> 48 <= token[i] <= 57
  {
    OnlyDigits(token);
    if token == [] || !AllDigits(token) then Err(NotDecimal)
    else if |token| > 1 && token[0] == ZERO then Err(NotCanonical)
    else
      DigitsOfValue(token);
      Ok(Value(token))
  }

  /** The entry of a record, after the entries before it. */
  function ParseEntry(record: seq<byte>, entry: nat, seen: seq<Edge>, rows: nat, columns: nat): Result<Edge, Refusal> {
    var fields := Split(record);
    if |fields| != 2 then Err(EntryFields(entry))
    else
      var row, column := ParseDecimal(fields[0]), ParseDecimal(fields[1]);
      if row.Err? then Err(EntryRow(entry, row.error))
      else if column.Err? then Err(EntryColumn(entry, column.error))
      else if !(1 <= row.value <= rows) then Err(RowOutOfBounds(entry))
      else if !(1 <= column.value <= columns) then Err(ColumnOutOfBounds(entry))
      else if (row.value, column.value) in seen then Err(Duplicate(entry))
      else Ok((row.value, column.value))
  }

  /** An entry is its row and its column, in this order, within the bounds and new. */
  lemma EntryIff(record: seq<byte>, entry: nat, seen: seq<Edge>, rows: nat, columns: nat, row: nat, column: nat)
    ensures ParseEntry(record, entry, seen, rows, columns) == Ok((row, column)) <==>
            && Split(record) == [Digits(row), Digits(column)]
            && 1 <= row <= rows && 1 <= column <= columns && (row, column) !in seen
  {
    var fields := Split(record);
    hide Split, Digits;
    if fields == [Digits(row), Digits(column)] {
      assert ParseDecimal(fields[0]) == Ok(row) && ParseDecimal(fields[1]) == Ok(column);
    }
  }

  /** The refusals of an entry: the row's token before the column's, and both before the bounds. */
  lemma EntryRefusals(record: seq<byte>, entry: nat, seen: seq<Edge>, rows: nat, columns: nat)
    ensures var fields, r := Split(record), ParseEntry(record, entry, seen, rows, columns);
            && (r == Err(EntryFields(entry)) <==> |fields| != 2)
            && (|fields| == 2 ==>
                  && (forall why :: r == Err(EntryRow(entry, why)) <==> ParseDecimal(fields[0]) == Err(why))
                  && (forall why :: r == Err(EntryColumn(entry, why)) <==>
                        Canonical(fields[0]) && ParseDecimal(fields[1]) == Err(why))
                  && (forall row: nat, column: nat :: fields == [Digits(row), Digits(column)] ==>
                        && (r == Err(RowOutOfBounds(entry)) <==> row == 0 || row > rows)
                        && (r == Err(ColumnOutOfBounds(entry)) <==>
                              1 <= row <= rows && (column == 0 || column > columns))
                        && (r == Err(Duplicate(entry)) <==>
                              1 <= row <= rows && 1 <= column <= columns && (row, column) in seen)))
  {
    var fields, r := Split(record), ParseEntry(record, entry, seen, rows, columns);
    if |fields| == 2 {
      forall row: nat, column: nat | fields == [Digits(row), Digits(column)]
        ensures ParseDecimal(fields[0]) == Ok(row) && ParseDecimal(fields[1]) == Ok(column)
      {
      }
    }
    hide Split, Digits, Canonical;
  }

  /** The entries of the records, or the first refusal. */
  function ParseEntries(records: seq<seq<byte>>, rows: nat, columns: nat): Result<seq<Edge>, Refusal> {
    if records == [] then Ok([])
    else match ParseEntries(records[..|records| - 1], rows, columns)
      case Err(e) => Err(e)
      case Ok(edges) =>
        match ParseEntry(records[|records| - 1], |records|, edges, rows, columns)
        case Err(e) => Err(e)
        case Ok(edge) => Ok(edges + [edge])
  }

  /** A refusal stays: no later record changes it. */
  lemma {:induction false} RefusalStays(records: seq<seq<byte>>, k: nat, rows: nat, columns: nat)
    requires k <= |records| && ParseEntries(records[..k], rows, columns).Err?
    ensures ParseEntries(records, rows, columns) == ParseEntries(records[..k], rows, columns)
  {
    if k < |records| {
      var before := records[..|records| - 1];
      assert before[..k] == records[..k];
      RefusalStays(before, k, rows, columns);
    } else {
      assert records[..k] == records;
    }
  }

  /** The first line after the banner that is no comment. */
  function DimensionsIndex(lines: seq<seq<byte>>, i: nat): (index: nat)
    requires i <= |lines|
    ensures i <= index <= |lines|
    ensures forall k :: i <= k < index ==> lines[k] != [] && lines[k][0] == PERCENT
    ensures index < |lines| ==> lines[index] == [] || lines[index][0] != PERCENT
    decreases |lines| - i
  {
    if i < |lines| && lines[i] != [] && lines[i][0] == PERCENT then DimensionsIndex(lines, i + 1) else i
  }

  /** The refusal of the header, or the records below it. */
  function ParseHeader(lines: seq<seq<byte>>, rows: nat, columns: nat, entries: nat): Result<seq<seq<byte>>, Refusal> {
    if lines == [] || lines[0] != Ascii(BANNER) then Err(Banner)
    else
      var index := DimensionsIndex(lines, 1);
      if index == |lines| then Err(NoDimensions)
      else
        var dimensions := Split(lines[index]);
        if |dimensions| != 3 then Err(DimensionFields)
        else
          var r, c, e := ParseDecimal(dimensions[0]), ParseDecimal(dimensions[1]), ParseDecimal(dimensions[2]);
          if r.Err? then Err(Dimension(r.error))
          else if c.Err? then Err(Dimension(c.error))
          else if e.Err? then Err(Dimension(e.error))
          else if (r.value, c.value, e.value) != (rows, columns, entries) then Err(Shape)
          else if |lines[index + 1..]| != entries then Err(EntryCount)
          else Ok(lines[index + 1..])
  }

  /** The dimension line: after the banner and comments alone. */
  ghost predicate IsDimensions(lines: seq<seq<byte>>, index: nat) {
    && 1 <= index < |lines| && (lines[index] == [] || lines[index][0] != 37)
    && forall k :: 1 <= k < index ==> lines[k] != [] && lines[k][0] == 37
  }

  /** The records are the lines after the banner, the comments, and one line of the three numbers; as many as stated. */
  lemma HeaderIff(lines: seq<seq<byte>>, rows: nat, columns: nat, entries: nat, records: seq<seq<byte>>)
    ensures ParseHeader(lines, rows, columns, entries) == Ok(records)
       <==> && lines != [] && lines[0] == Ascii(BANNER)
            && exists index: nat ::
                 && IsDimensions(lines, index)
                 && Split(lines[index]) == [Digits(rows), Digits(columns), Digits(entries)]
                 && records == lines[index + 1..] && |records| == entries
  {
    hide Split, Ascii, Digits;
    if lines != [] {
      var index := DimensionsIndex(lines, 1);
      OneDimensions(lines);
      if index < |lines| {
        var d := Split(lines[index]);
        assert d == [Digits(rows), Digits(columns), Digits(entries)] ==>
                 && |d| == 3 && d[0] == Digits(rows) && d[1] == Digits(columns) && d[2] == Digits(entries);
      }
    }
  }

  lemma OneDimensions(lines: seq<seq<byte>>)
    requires lines != []
    ensures forall index: nat :: IsDimensions(lines, index) <==> index == DimensionsIndex(lines, 1) < |lines|
  {
  }

  /** The refusals of the header: the banner, the dimension line, its numbers in order, their values, and the count. */
  lemma HeaderRefusals(lines: seq<seq<byte>>, rows: nat, columns: nat, entries: nat, index: nat)
    requires lines != [] && lines[0] == Ascii(BANNER) && IsDimensions(lines, index)
    ensures var r, d := ParseHeader(lines, rows, columns, entries), Split(lines[index]);
            && (r == Err(DimensionFields) <==> |d| != 3)
            && (|d| == 3 ==>
                  && (forall why :: r == Err(Dimension(why)) <==>
                        || ParseDecimal(d[0]) == Err(why)
                        || (Canonical(d[0]) && ParseDecimal(d[1]) == Err(why))
                        || (Canonical(d[0]) && Canonical(d[1]) && ParseDecimal(d[2]) == Err(why)))
                  && (r == Err(Shape) <==>
                        && Canonical(d[0]) && Canonical(d[1]) && Canonical(d[2])
                        && d != [Digits(rows), Digits(columns), Digits(entries)])
                  && (r == Err(EntryCount) <==>
                        d == [Digits(rows), Digits(columns), Digits(entries)] && |lines| - index - 1 != entries))
  {
    hide Split, Ascii, Digits;
    OneDimensions(lines);
    var d := Split(lines[index]);
    if |d| == 3 {
      assert d == [d[0], d[1], d[2]];
    }
  }

  lemma HeaderAbsent(lines: seq<seq<byte>>, rows: nat, columns: nat, entries: nat)
    ensures var r := ParseHeader(lines, rows, columns, entries);
            && (r == Err(Banner) <==> lines == [] || lines[0] != Ascii(BANNER))
            && (r == Err(NoDimensions) <==>
                  && lines != [] && lines[0] == Ascii(BANNER)
                  && forall k :: 1 <= k < |lines| ==> lines[k] != [] && lines[k][0] == 37)
  {
    hide Split, Ascii, Digits;
  }

  // --------------------------------------------------------- what they count

  /** Every endpoint of the edges. */
  function VerticesOf(edges: seq<Edge>): (vertices: set<nat>)
    ensures forall v :: v in vertices <==> exists i :: 0 <= i < |edges| && (edges[i].0 == v || edges[i].1 == v)
  {
    if edges == [] then {} else
      var before, last := edges[..|edges| - 1], edges[|edges| - 1];
      assert forall i :: 0 <= i < |before| ==> edges[i] == before[i];
      VerticesOf(before) + {last.0, last.1}
  }

  /** How many edges leave a vertex. */
  function OutDegree(edges: seq<Edge>, v: nat): nat {
    if edges == [] then 0 else OutDegree(edges[..|edges| - 1], v) + if edges[|edges| - 1].0 == v then 1 else 0
  }

  ghost function EdgesFrom(edges: seq<Edge>, v: nat): set<int> {
    set i | 0 <= i < |edges| && edges[i].0 == v
  }

  lemma EdgesFromNext(edges: seq<Edge>, e: Edge, v: nat)
    ensures EdgesFrom(edges + [e], v) == EdgesFrom(edges, v) + if e.0 == v then {|edges|} else {}
    ensures |edges| !in EdgesFrom(edges, v)
  {
  }

  /** The out-degree is the number of edges whose row is the vertex. */
  lemma {:induction false} OutDegreeIs(edges: seq<Edge>, v: nat)
    ensures OutDegree(edges, v) == |set i | 0 <= i < |edges| && edges[i].0 == v|
  {
    assert EdgesFrom(edges, v) == set i | 0 <= i < |edges| && edges[i].0 == v;
    if edges == [] {
      assert EdgesFrom(edges, v) == {};
    } else {
      var n := |edges| - 1;
      OutDegreeIs(edges[..n], v);
      assert EdgesFrom(edges[..n], v) == set i | 0 <= i < |edges[..n]| && edges[..n][i].0 == v;
      hide EdgesFrom;
      assert edges == edges[..n] + [edges[n]];
      EdgesFromNext(edges[..n], edges[n], v);
    }
  }

  /** A count dictionary: no entry for a vertex without outgoing edges. */
  ghost predicate RowCountsOf(rowCounts: map<nat, nat>, edges: seq<Edge>) {
    forall v: nat :: Outgoing(rowCounts, v) == OutDegree(edges, v) && (v in rowCounts ==> rowCounts[v] > 0)
  }

  /** A dictionary lookup that defaults to zero. */
  function Outgoing(rowCounts: map<nat, nat>, v: nat): nat {
    if v in rowCounts then rowCounts[v] else 0
  }

  ghost predicate UniqueEdges(edges: seq<Edge>, rows: nat, columns: nat) {
    && (forall i, j :: 0 <= i < j < |edges| ==> edges[i] != edges[j])
    && forall i :: 0 <= i < |edges| ==> 1 <= edges[i].0 <= rows && 1 <= edges[i].1 <= columns
  }

  /** Every record is the row and the column of its edge. */
  ghost predicate RecordsOf(records: seq<seq<byte>>, edges: seq<Edge>) {
    && |records| == |edges|
    && forall i :: 0 <= i < |edges| ==> Split(records[i]) == [Digits(edges[i].0), Digits(edges[i].1)]
  }

  lemma OneMoreUnique(edges: seq<Edge>, e: Edge, rows: nat, columns: nat)
    ensures UniqueEdges(edges + [e], rows, columns)
       <==> UniqueEdges(edges, rows, columns) && 1 <= e.0 <= rows && 1 <= e.1 <= columns && e !in edges
  {
    var after := edges + [e];
    assert after[|edges|] == e && forall i :: 0 <= i < |edges| ==> after[i] == edges[i];
  }

  lemma OneMoreRecord(records: seq<seq<byte>>, record: seq<byte>, edges: seq<Edge>, e: Edge)
    ensures RecordsOf(records + [record], edges + [e])
       <==> RecordsOf(records, edges) && Split(record) == [Digits(e.0), Digits(e.1)]
  {
    hide Split, Digits;
    var after, all := edges + [e], records + [record];
    assert after[|edges|] == e && forall i :: 0 <= i < |edges| ==> after[i] == edges[i];
    assert all[|records|] == record && forall i :: 0 <= i < |records| ==> all[i] == records[i];
  }

  lemma NextEntry(records: seq<seq<byte>>, record: seq<byte>, edges: seq<Edge>, e: Edge, rows: nat, columns: nat)
    ensures ParseEntries(records + [record], rows, columns) == Ok(edges + [e])
       <==> && ParseEntries(records, rows, columns) == Ok(edges)
            && ParseEntry(record, |records| + 1, edges, rows, columns) == Ok(e)
  {
    hide ParseEntry;
    assert (records + [record])[..|records|] == records;
    var parsed := ParseEntries(records, rows, columns);
    if parsed.Ok? {
      var edge := ParseEntry(record, |records| + 1, parsed.value, rows, columns);
      if edge.Ok? { SameLast(parsed.value, edge.value, edges, e); }
    }
  }

  lemma SameLast<T>(a: seq<T>, x: T, b: seq<T>, y: T)
    ensures a + [x] == b + [y] <==> a == b && x == y
  {
    if a + [x] == b + [y] {
      assert (a + [x])[..|a|] == a && (b + [y])[..|b|] == b;
      assert (a + [x])[|a|] == x && (b + [y])[|b|] == y;
    }
  }

  /** Entries are accepted exactly when they are records of distinct edges within the bounds. */
  lemma {:induction false} EntriesIff(records: seq<seq<byte>>, rows: nat, columns: nat, edges: seq<Edge>)
    ensures ParseEntries(records, rows, columns) == Ok(edges)
       <==> RecordsOf(records, edges) && UniqueEdges(edges, rows, columns)
  {
    if records == [] || edges == [] {
      NoEntries(records, rows, columns, edges);
    } else {
      var n, m := |records| - 1, |edges| - 1;
      assert edges == edges[..m] + [edges[m]] && records == records[..n] + [records[n]];
      EntriesIff(records[..n], rows, columns, edges[..m]);
      EntriesNext(records[..n], records[n], edges[..m], edges[m], rows, columns);
      hide *;
    }
  }

  lemma EntriesNext(records: seq<seq<byte>>, record: seq<byte>, edges: seq<Edge>, e: Edge, rows: nat, columns: nat)
    requires ParseEntries(records, rows, columns) == Ok(edges)
        <==> RecordsOf(records, edges) && UniqueEdges(edges, rows, columns)
    ensures ParseEntries(records + [record], rows, columns) == Ok(edges + [e])
       <==> RecordsOf(records + [record], edges + [e]) && UniqueEdges(edges + [e], rows, columns)
  {
    hide *;
    NextEntry(records, record, edges, e, rows, columns);
    EntryIff(record, |records| + 1, edges, rows, columns, e.0, e.1);
    OneMoreUnique(edges, e, rows, columns);
    OneMoreRecord(records, record, edges, e);
  }

  lemma NoEntries(records: seq<seq<byte>>, rows: nat, columns: nat, edges: seq<Edge>)
    requires records == [] || edges == []
    ensures ParseEntries(records, rows, columns) == Ok(edges) <==> records == [] && edges == []
    ensures RecordsOf(records, edges) && UniqueEdges(edges, rows, columns) <==> records == [] && edges == []
  {
    hide ParseEntry, Split, Digits;
  }

  lemma EntriesAreUnique(records: seq<seq<byte>>, rows: nat, columns: nat)
    requires ParseEntries(records, rows, columns).Ok?
    ensures var edges := ParseEntries(records, rows, columns).value;
            |edges| == |records| && UniqueEdges(edges, rows, columns)
  {
    EntriesIff(records, rows, columns, ParseEntries(records, rows, columns).value);
    hide ParseEntries, Split, Digits;
  }

  /** A refusal is that of the first record that is no new entry. */
  lemma {:induction false} RefusalIsFirst(records: seq<seq<byte>>, rows: nat, columns: nat)
    requires ParseEntries(records, rows, columns).Err?
    ensures exists i :: 0 <= i < |records| && FirstRefused(records, rows, columns, i)
  {
    hide ParseEntry;
    var n := |records| - 1;
    if ParseEntries(records[..n], rows, columns).Err? {
      RefusalIsFirst(records[..n], rows, columns);
      var i :| 0 <= i < n && FirstRefused(records[..n], rows, columns, i);
      assert records[..n][..i] == records[..i];
      assert FirstRefused(records, rows, columns, i);
    } else {
      assert FirstRefused(records, rows, columns, n);
    }
  }

  /** All records before are entries, and this one is refused as what it is after them. */
  ghost predicate FirstRefused(records: seq<seq<byte>>, rows: nat, columns: nat, i: nat)
    requires i < |records| && ParseEntries(records, rows, columns).Err?
  {
    && ParseEntries(records[..i], rows, columns).Ok?
    && ParseEntry(records[i], i + 1, ParseEntries(records[..i], rows, columns).value, rows, columns)
       == Err(ParseEntries(records, rows, columns).error)
  }

  // -------------------------------------------------------------- the format

  /** Numbers with single spaces between them. */
  function Numbers(ns: seq<nat>): (line: seq<byte>)
    requires ns != []
  {
    if |ns| == 1 then Digits(ns[0]) else Digits(ns[0]) + [32] + Numbers(ns[1..])
  }

  function AllDigitsOf(ns: seq<nat>): seq<seq<byte>> {
    seq(|ns|, i requires 0 <= i < |ns| => Digits(ns[i]))
  }

  function Records(edges: seq<Edge>): seq<seq<byte>> {
    seq(|edges|, i requires 0 <= i < |edges| => Numbers([edges[i].0, edges[i].1]))
  }

  /** A file: the banner, comments, the dimensions, and one record an edge. */
  function FileLines(comments: seq<seq<byte>>, edges: seq<Edge>, rows: nat, columns: nat): seq<seq<byte>> {
    [Ascii(BANNER)] + comments + [Numbers([rows, columns, |edges|])] + Records(edges)
  }

  predicate AreComments(lines: seq<seq<byte>>) {
    forall i :: 0 <= i < |lines| ==> NoLineEnd(lines[i]) && lines[i] != [] && lines[i][0] == 37
  }

  lemma DigitsAreToken(n: nat)
    ensures IsToken(Digits(n)) && NoLineEnd(Digits(n))
  {
    assert forall i :: 0 <= i < |Digits(n)| ==> IsDigit(Digits(n)[i]);
  }

  lemma {:induction false} NumbersAreLine(ns: seq<nat>)
    requires ns != []
    ensures Split(Numbers(ns)) == AllDigitsOf(ns) && NoLineEnd(Numbers(ns))
    ensures Numbers(ns) != [] && IsDigit(Numbers(ns)[0])
  {
    DigitsAreToken(ns[0]);
    if |ns| == 1 {
      TakeToken(Digits(ns[0]), []);
      assert Digits(ns[0]) + [] == Digits(ns[0]);
    } else {
      NumbersAreLine(ns[1..]);
      NextNumber(ns[0], Numbers(ns[1..]));
      hide Split, Digits, IsToken, NoLineEnd;
      assert AllDigitsOf(ns) == [Digits(ns[0])] + AllDigitsOf(ns[1..]);
    }
  }

  lemma NextNumber(n: nat, rest: seq<byte>)
    requires NoLineEnd(rest)
    ensures var line := Digits(n) + [32] + rest;
            Split(line) == [Digits(n)] + Split(rest) && NoLineEnd(line) && IsDigit(line[0])
  {
    DigitsAreToken(n);
    TakeToken(Digits(n), [32] + rest);
    SkipGap([32], rest);
    hide Split, Digits, IsToken;
    assert Digits(n) + ([32] + rest) == Digits(n) + [32] + rest;
  }

  lemma BannerIsLine()
    ensures NoLineEnd(Ascii(BANNER))
  {
    var a, b, c, d, e := "%%MatrixMarket", " matrix", " coordinate", " pattern", " general";
    PrintableWords();
    hide Printable;
    PrintableConcat(a, b);
    PrintableConcat(a + b, c);
    PrintableConcat(a + b + c, d);
    PrintableConcat(a + b + c + d, e);
    assert BANNER == a + b + c + d + e;
    PrintableIsLine(BANNER);
  }

  lemma PrintableWords()
    ensures Printable("%%MatrixMarket") && Printable(" matrix") && Printable(" coordinate") && Printable(" pattern")
    ensures Printable(" general")
  {
  }

  lemma PrintableConcat(a: string, b: string)
    requires Printable(a) && Printable(b)
    ensures Printable(a + b)
  {
  }

  lemma PrintableIsLine(s: string)
    requires Printable(s)
    ensures NoLineEnd(Ascii(s))
  {
  }

  predicate Printable(s: string) {
    forall i :: 0 <= i < |s| ==> 32 <= s[i] as int < 256
  }

  lemma RecordsAreOf(edges: seq<Edge>)
    ensures RecordsOf(Records(edges), edges)
    ensures forall i :: 0 <= i < |edges| ==> NoLineEnd(Records(edges)[i])
  {
    hide Split, Digits, NoLineEnd, Numbers;
    forall i | 0 <= i < |edges|
      ensures Split(Records(edges)[i]) == [Digits(edges[i].0), Digits(edges[i].1)] && NoLineEnd(Records(edges)[i])
    {
      NumbersAreLine([edges[i].0, edges[i].1]);
    }
  }

  lemma LinesOfFile(comments: seq<seq<byte>>, edges: seq<Edge>, rows: nat, columns: nat)
    requires AreComments(comments)
    ensures SplitLines(JoinLines(FileLines(comments, edges, rows, columns)))
          == FileLines(comments, edges, rows, columns)
  {
    var lines := FileLines(comments, edges, rows, columns);
    BannerIsLine();
    RecordsAreOf(edges);
    NumbersAreLine([rows, columns, |edges|]);
    hide NoLineEnd, Numbers, Split, Digits, Ascii, Records;
    SplitOfJoin(lines);
  }

  lemma FileHeader(comments: seq<seq<byte>>, edges: seq<Edge>, rows: nat, columns: nat)
    requires AreComments(comments)
    ensures var lines, index := FileLines(comments, edges, rows, columns), 1 + |comments|;
            && lines[0] == Ascii(BANNER) && IsDimensions(lines, index) && lines[index + 1..] == Records(edges)
            && Split(lines[index]) == [Digits(rows), Digits(columns), Digits(|edges|)]
  {
    var lines, index := FileLines(comments, edges, rows, columns), 1 + |comments|;
    NumbersAreLine([rows, columns, |edges|]);
    hide NoLineEnd, Numbers, Split, Digits, Ascii, Records;
    assert forall k :: 1 <= k < index ==> lines[k] == comments[k - 1];
    assert lines[index] == Numbers([rows, columns, |edges|]);
    assert lines[index + 1..] == Records(edges);
    assert AllDigitsOf([rows, columns, |edges|]) == [Digits(rows), Digits(columns), Digits(|edges|)];
  }

  /** Reading a written file gives the edges it was written from. */
  lemma ParseOfFile(comments: seq<seq<byte>>, edges: seq<Edge>, rows: nat, columns: nat)
    requires AreComments(comments) && UniqueEdges(edges, rows, columns)
    ensures var lines := SplitLines(JoinLines(FileLines(comments, edges, rows, columns)));
            ParseHeader(lines, rows, columns, |edges|) == Ok(Records(edges))
    ensures ParseEntries(Records(edges), rows, columns) == Ok(edges)
  {
    LinesOfFile(comments, edges, rows, columns);
    FileHeader(comments, edges, rows, columns);
    RecordsAreOf(edges);
    EntriesIff(Records(edges), rows, columns, edges);
    hide FileLines, IsDimensions, Split, Digits, ParseHeader, ParseEntries, SplitLines, JoinLines;
    HeaderIff(FileLines(comments, edges, rows, columns), rows, columns, |edges|, Records(edges));
  }

  /** The checks of one record, against the coordinates seen so far. */
  method ReadEntry(record: seq<byte>, entry: nat, coordinates: set<Edge>, rows: nat, columns: nat,
                   ghost seen: seq<Edge>) returns (r: Result<Edge, Refusal>)
    requires forall e :: e in coordinates <==> e in seen
    ensures r == ParseEntry(record, entry, seen, rows, columns)
  {
    var fields := Split(record);
    if |fields| != 2 {
      return Err(EntryFields(entry));
    }
    var row := ParseDecimal(fields[0]);
    if row.Err? {
      return Err(EntryRow(entry, row.error));
    }
    var column := ParseDecimal(fields[1]);
    if column.Err? {
      return Err(EntryColumn(entry, column.error));
    }
    if !(1 <= row.value <= rows) {
      return Err(RowOutOfBounds(entry));
    }
    if !(1 <= column.value <= columns) {
      return Err(ColumnOutOfBounds(entry));
    }
    if (row.value, column.value) in coordinates {
      return Err(Duplicate(entry));
    }
    return Ok((row.value, column.value));
  }

  /** Counts the records, up to the first refused one. */
  method CountRecords(records: seq<seq<byte>>, rows: nat, columns: nat)
    returns (r: Result<(set<nat>, map<nat, nat>), Refusal>)
    ensures var parsed := ParseEntries(records, rows, columns);
            if parsed.Err? then r == Err(parsed.error)
            else r.Ok? && r.value.0 == VerticesOf(parsed.value) && RowCountsOf(r.value.1, parsed.value)
  {
    hide ParseEntry, RowCountsOf, VerticesOf;
    NothingCounted();
    ghost var edges: seq<Edge> := [];
    var vertices: set<nat>, rowCounts: map<nat, nat>, coordinates: set<Edge> := {}, map[], {};
    for i := 0 to |records|
      invariant ParseEntries(records[..i], rows, columns) == Ok(edges)
      invariant forall e :: e in coordinates <==> e in edges
      invariant vertices == VerticesOf(edges) && RowCountsOf(rowCounts, edges)
    {
      assert records[..i + 1][..i] == records[..i];
      var entry := ReadEntry(records[i], i + 1, coordinates, rows, columns, edges);
      if entry.Err? {
        RefusalStays(records, i + 1, rows, columns);
        return Err(entry.error);
      }
      var (row, column) := entry.value;
      NextEdge(edges, entry.value, vertices, rowCounts);
      edges := edges + [entry.value];
      coordinates := coordinates + {(row, column)};
      vertices := vertices + {row} + {column};
      rowCounts := rowCounts[row := Outgoing(rowCounts, row) + 1];
    }
    assert records[..|records|] == records;
    return Ok((vertices, rowCounts));
  }

  lemma NothingCounted()
    ensures VerticesOf([]) == {} && RowCountsOf(map[], [])
  {
  }

  /** The vertices and row counts of distinct edges within the bounds. */
  ghost predicate CountsEdges(vertices: set<nat>, rowCounts: map<nat, nat>, edges: seq<Edge>, rows: nat, columns: nat) {
    UniqueEdges(edges, rows, columns) && vertices == VerticesOf(edges) && RowCountsOf(rowCounts, edges)
  }

  /** Parses the matrix, or gives the first refusal. */
  method ParseMatrixMarket(data: seq<byte>, rows: nat, columns: nat, entries: nat)
    returns (r: Result<(set<nat>, map<nat, nat>), Refusal>)
    ensures var header := ParseHeader(SplitLines(data), rows, columns, entries);
            if header.Err? then r == Err(header.error)
            else
              var parsed := ParseEntries(header.value, rows, columns);
              if parsed.Err? then r == Err(parsed.error)
              else r.Ok? && |parsed.value| == entries && CountsEdges(r.value.0, r.value.1, parsed.value, rows, columns)
  {
    var lines := SplitLines(data);
    hide SplitLines, ParseEntries, VerticesOf, RowCountsOf, UniqueEdges, Split, Digits;
    var header := ParseHeader(lines, rows, columns, entries);
    if header.Err? {
      return Err(header.error);
    }
    r := CountRecords(header.value, rows, columns);
    if ParseEntries(header.value, rows, columns).Ok? {
      EntriesAreUnique(header.value, rows, columns);
    }
  }

  lemma NextEdge(edges: seq<Edge>, e: Edge, vertices: set<nat>, rowCounts: map<nat, nat>)
    requires vertices == VerticesOf(edges) && RowCountsOf(rowCounts, edges)
    ensures vertices + {e.0} + {e.1} == VerticesOf(edges + [e])
    ensures RowCountsOf(rowCounts[e.0 := Outgoing(rowCounts, e.0) + 1], edges + [e])
  {
    assert (edges + [e])[..|edges|] == edges;
  }
}
