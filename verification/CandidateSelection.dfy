/**
 Which candidates of a row are timed, excluded, and skipped: as the harness records
 it, and as a validator with a family table of its own derives it.
 */
module CandidateSelection {
  import opened Wrappers
  import opened Rotation
  import opened CandidateNames
  import opened TaskPartition

  const FUSED_MAX_ELEMENTS := 4096

  // ---------------------------------------------------------- configurations

  function WarpConfigs(block: nat, warps: seq<nat>): seq<(nat, nat)> {
    if warps == [] then []
    else
      var w := warps[|warps| - 1];
      var before := WarpConfigs(block, warps[..|warps| - 1]);
      if w <= block / 32 then before + [(block, w)] else before
  }

  function Configs(blocks: seq<nat>, longest: int): seq<(nat, nat)> {
    if blocks == [] then []
    else
      var b := blocks[|blocks| - 1];
      var before := Configs(blocks[..|blocks| - 1], longest);
      if b >= longest then before + WarpConfigs(b, WARPS) else before
  }

  lemma {:induction false} WarpConfigsIff(block: nat, warps: seq<nat>, c: (nat, nat))
    ensures c in WarpConfigs(block, warps) <==> c.0 == block && c.1 in warps && c.1 <= block / 32
  {
    if warps != [] {
      var before, w := warps[..|warps| - 1], warps[|warps| - 1];
      WarpConfigsIff(block, before, c);
      assert warps == before + [w];
    }
  }

  /** A configuration is a block that covers the longest segment and a swept number of warps it can fill. */
  lemma {:induction false} ConfigsIff(blocks: seq<nat>, longest: int, c: (nat, nat))
    ensures c in Configs(blocks, longest) <==> c.0 in blocks && c.0 >= longest && c.1 in WARPS && 32 * c.1 <= c.0
  {
    if blocks != [] {
      var before, b := blocks[..|blocks| - 1], blocks[|blocks| - 1];
      ConfigsIff(before, longest, c);
      WarpConfigsIff(b, WARPS, c);
      assert blocks == before + [b];
      hide WarpConfigs;
    }
  }

  ghost predicate Rising(numbers: seq<nat>) {
    forall i, j :: 0 <= i < j < |numbers| ==> numbers[i] < numbers[j]
  }

  /** By block, and by warps within a block. */
  ghost predicate InSweepOrder(configs: seq<(nat, nat)>) {
    forall i, j :: 0 <= i < j < |configs| ==>
      configs[i].0 < configs[j].0 || (configs[i].0 == configs[j].0 && configs[i].1 < configs[j].1)
  }

  lemma {:induction false} WarpConfigsRise(block: nat, warps: seq<nat>)
    requires Rising(warps)
    ensures InSweepOrder(WarpConfigs(block, warps))
  {
    if warps != [] {
      var before, w := warps[..|warps| - 1], warps[|warps| - 1];
      WarpConfigsRise(block, before);
      forall i | 0 <= i < |WarpConfigs(block, before)|
        ensures WarpConfigs(block, before)[i].0 == block && WarpConfigs(block, before)[i].1 < w
      {
        WarpConfigsIff(block, before, WarpConfigs(block, before)[i]);
      }
    }
  }

  /** The configurations rise: blocks first, then warps. */
  lemma {:induction false} ConfigsRise(blocks: seq<nat>, longest: int)
    requires Rising(blocks)
    ensures InSweepOrder(Configs(blocks, longest))
  {
    if blocks != [] {
      var before, b := blocks[..|blocks| - 1], blocks[|blocks| - 1];
      ConfigsRise(before, longest);
      WarpConfigsRise(b, WARPS);
      var earlier, next := Configs(before, longest), WarpConfigs(b, WARPS);
      forall i | 0 <= i < |earlier| ensures earlier[i].0 < b {
        ConfigsIff(before, longest, earlier[i]);
      }
      forall i | 0 <= i < |next| ensures next[i].0 == b {
        WarpConfigsIff(b, WARPS, next[i]);
      }
      hide WarpConfigs;
    }
  }

  /** The sweep loop of the harness. */
  method TritonSumConfigs(maxLength: int) returns (configs: seq<(nat, nat)>)
    ensures configs == Configs(FIXED_BLOCKS, maxLength)
  {
    configs := [];
    for i := 0 to |FIXED_BLOCKS|
      invariant configs == Configs(FIXED_BLOCKS[..i], maxLength)
    {
      var block := FIXED_BLOCKS[i];
      assert FIXED_BLOCKS[..i + 1][..i] == FIXED_BLOCKS[..i];
      if block < maxLength {
        continue;
      }
      var before := configs;
      for j := 0 to |WARPS|
        invariant configs == before + WarpConfigs(block, WARPS[..j])
      {
        assert WARPS[..j + 1][..j] == WARPS[..j];
        if WARPS[j] <= block / 32 {
          configs := configs + [(block, WARPS[j])];
        }
      }
      assert WARPS[..|WARPS|] == WARPS;
    }
    assert FIXED_BLOCKS[..|FIXED_BLOCKS|] == FIXED_BLOCKS;
  }

  function FixedOf(configs: seq<(nat, nat)>): (cs: seq<Candidate>)
    ensures |cs| == |configs|
  {
    seq(|configs|, i requires 0 <= i < |configs| => Fixed(configs[i].0, configs[i].1))
  }

  function LoopedOf(configs: seq<(nat, nat)>): (cs: seq<Candidate>)
    ensures |cs| == |configs|
  {
    seq(|configs|, i requires 0 <= i < |configs| => Looped(configs[i].0, configs[i].1))
  }

  function PlannedLoopedOf(configs: seq<(nat, nat)>): (cs: seq<Candidate>)
    ensures |cs| == |configs|
  {
    seq(|configs|, i requires 0 <= i < |configs| => PlannedLooped(configs[i].0, configs[i].1))
  }

  function LoopedConfigs(): seq<(nat, nat)> {
    Configs(LOOPED_BLOCKS, 0)
  }

  /** The candidates that are no Triton kernel, and the ones that are. */
  const BASELINES: seq<Candidate> := [SwageWarp, SwageCta, SwageMixed, TorchSegmentReduce, TorchPadded]

  function TritonCandidates(maxLength: int): seq<Candidate> {
    [TritonFused] + FixedOf(Configs(FIXED_BLOCKS, maxLength)) + [Matched(1), Matched(2), Matched(4), Matched(8)]
    + LoopedOf(LoopedConfigs()) + PlannedLoopedOf(LoopedConfigs())
  }

  function RowCandidates(maxLength: int): seq<Candidate> {
    BASELINES + TritonCandidates(maxLength)
  }

  function Texts(cs: seq<Candidate>): (names: seq<string>)
    ensures |names| == |cs|
  {
    seq(|cs|, i requires 0 <= i < |cs| => Text(cs[i]))
  }

  // ---------------------------------------------------------------- filters

  predicate Named(selectors: seq<string>, name: string, table: Table) {
    name in selectors || Family(table, name) in selectors
  }

  predicate Kept(name: string, only: Option<seq<string>>, exclude: seq<string>, table: Table) {
    (only.None? || Named(only.value, name, table)) && !Named(exclude, name, table)
  }

  function Select(names: seq<string>, only: Option<seq<string>>, exclude: seq<string>, table: Table): seq<string> {
    if names == [] then []
    else if Kept(names[0], only, exclude, table) then [names[0]] + Select(names[1..], only, exclude, table)
    else Select(names[1..], only, exclude, table)
  }

  /** A name is kept when the filter names it or its family, unless it excludes it or its family. */
  lemma KeptIff(name: string, only: Option<seq<string>>, exclude: seq<string>, table: Table)
    ensures Kept(name, only, exclude, table)
       <==> && (only == None || exists s :: s in only.value && (s == name || s == Family(table, name)))
            && forall s :: s in exclude ==> s != name && s != Family(table, name)
  {
    hide Family;
  }

  /** The names whose family can run. */
  function Able(names: seq<string>, unable: set<string>, table: Table): seq<string> {
    if names == [] then []
    else if Family(table, names[0]) !in unable then [names[0]] + Able(names[1..], unable, table)
    else Able(names[1..], unable, table)
  }

  /** The names that are not among some others. */
  function Without(names: seq<string>, others: seq<string>): seq<string> {
    if names == [] then []
    else if names[0] !in others then [names[0]] + Without(names[1..], others)
    else Without(names[1..], others)
  }

  function Families(names: seq<string>, table: Table): (families: set<string>)
    ensures forall f :: f in families <==> exists i :: 0 <= i < |names| && Family(table, names[i]) == f
  {
    set i | 0 <= i < |names| :: Family(table, names[i])
  }

  /** The families that the harness finds no row of this length can run. */
  function LengthLimits(maxLength: int): set<string> {
    (if Configs(FIXED_BLOCKS, maxLength) == [] then {"triton_fixed"} else {})
    + (if maxLength > CTA_BLOCK then {MATCHED} else {})
    + (if maxLength > FUSED_MAX_ELEMENTS then {"triton_fused"} else {})
  }

  /** The same for the validator, which knows one limit. */
  function LengthUnable(maxLength: int): set<string> {
    (if Configs(FIXED_BLOCKS, maxLength) == [] then {"triton_fixed"} else {})
    + (if maxLength > CTA_BLOCK then {MATCHED, "triton_fused"} else {})
  }

  lemma LimitsAgree(maxLength: int)
    ensures LengthLimits(maxLength) == LengthUnable(maxLength)
  {
    hide Configs;
  }

  /** The three limits are one: the largest fixed block, and the two CTA kernels, hold 4096 elements. */
  lemma LengthLimitsAre(maxLength: int)
    ensures LengthLimits(maxLength) == if maxLength > 4096 then {"triton_fixed", MATCHED, "triton_fused"} else {}
  {
    var configs := Configs(FIXED_BLOCKS, maxLength);
    ConfigsIff(FIXED_BLOCKS, maxLength, (4096, 1));
    if configs != [] { ConfigsIff(FIXED_BLOCKS, maxLength, configs[0]); }
    hide Configs;
    assert FIXED_BLOCKS[7] == 4096 && WARPS[0] == 1;
    assert forall b :: b in FIXED_BLOCKS ==> b <= 4096;
  }

  // ---------------------------------------------------------------- the row

  datatype Row = Row(excluded: seq<string>, skipped: set<string>, order: seq<string>)

  /** The setups of the harness: the baselines, then every row candidate that is a Triton kernel. */
  function Setups(maxLength: int): seq<string> {
    Texts(BASELINES) + TritonNames(Texts(RowCandidates(maxLength)))
  }

  function TritonNames(names: seq<string>): seq<string> {
    if names == [] then []
    else if StartsWith(names[0], "triton_") then [names[0]] + TritonNames(names[1..])
    else TritonNames(names[1..])
  }

  /** None when the filter leaves no candidate the row can run. */
  function HarnessRow(maxLength: int, only: Option<seq<string>>, exclude: seq<string>, paddingFits: bool): Option<Row> {
    var unable := LengthLimits(maxLength) + if paddingFits then {} else {"torch_padded"};
    var wanted := Select(Setups(maxLength), only, exclude, HARNESS_FAMILIES);
    var every := Select(Texts(RowCandidates(0)), only, exclude, HARNESS_FAMILIES);
    var selected := Able(wanted, unable, HARNESS_FAMILIES);
    if selected == [] then None
    else
      var skipped := set f | f in unable && f in Families(every, HARNESS_FAMILIES);
      Some(Row(Without(Setups(maxLength), wanted), skipped, selected))
  }

  /** The timed candidates, when the row states what the validator derives. */
  function SegmentSelection(row: Row, maxLength: int, only: Option<seq<string>>,
                            exclude: seq<string>): Option<seq<string>> {
    var every := Select(Texts(RowCandidates(0)), only, exclude, VALIDATOR_FAMILIES);
    var full := Texts(RowCandidates(maxLength));
    var wanted := Select(full, only, exclude, VALIDATOR_FAMILIES);
    var unable := LengthUnable(maxLength) + if "torch_padded" in row.skipped then {"torch_padded"} else {};
    var timed := Able(wanted, unable, VALIDATOR_FAMILIES);
    if !Unique(row.excluded) || row.excluded != Without(full, wanted) then None
    else if row.skipped != unable * Families(every, VALIDATOR_FAMILIES) then None
    else if row.order == [] || !Unique(row.order) || row.order != timed then None
    else Some(timed)
  }

  // ----------------------------------------------------- names of candidates

  lemma {:induction false} TritonNamesOf(cs: seq<Candidate>, triton: bool)
    requires forall i :: 0 <= i < |cs| ==> StartsWith(Text(cs[i]), "triton_") == triton
    ensures TritonNames(Texts(cs)) == if triton then Texts(cs) else []
  {
    if cs != [] {
      TritonNamesOf(cs[1..], triton);
      assert Texts(cs)[1..] == Texts(cs[1..]);
      assert Texts(cs) == [Text(cs[0])] + Texts(cs[1..]);
    }
  }

  lemma {:induction false} TritonNamesConcat(a: seq<string>, b: seq<string>)
    ensures TritonNames(a + b) == TritonNames(a) + TritonNames(b)
  {
    if a == [] {
      assert a + b == b;
    } else {
      TritonNamesConcat(a[1..], b);
      assert (a + b)[1..] == a[1..] + b;
    }
  }

  predicate IsBaseline(c: Candidate) {
    c.SwageWarp? || c.SwageCta? || c.SwageMixed? || c.TorchSegmentReduce? || c.TorchPadded?
  }

  lemma PrefixOfLonger(p: string, s: string, q: string)
    requires StartsWith(p, q)
    ensures StartsWith(p + s, q)
  {
  }

  lemma MatchedLiteral()
    ensures StartsWith(MATCHED, "triton_")
  {
    var m, p := MATCHED, "triton_";
    assert m[0] == p[0] && m[1] == p[1] && m[2] == p[2] && m[3] == p[3] && m[4] == p[4] && m[5] == p[5] && m[6] == p[6];
    assert m[..7] == p;
  }

  lemma TritonLiterals()
    ensures StartsWith("triton_fused", "triton_") && StartsWith("triton_b", "triton_") && StartsWith(MATCHED, "triton_")
    ensures StartsWith("triton_looped_b", "triton_") && StartsWith("triton_planned_looped_b", "triton_")
  {
    Begins("triton_", "fused");
    Begins("triton_", "b");
    Begins("triton_", "looped_b");
    Begins("triton_", "planned_looped_b");
    assert "triton_" + "fused" == "triton_fused" && "triton_" + "b" == "triton_b";
    MatchedLiteral();
    assert "triton_" + "looped_b" == "triton_looped_b" && "triton_" + "planned_looped_b" == "triton_planned_looped_b";
  }

  lemma TritonPrefix(c: Candidate)
    ensures StartsWith(Text(c), "triton_") <==> !IsBaseline(c)
  {
    TritonLiterals();
    if IsBaseline(c) {
      DiffersAt(Text(c), "triton_", if c.TorchSegmentReduce? || c.TorchPadded? then 1 else 0);
    } else {
      hide StartsWith, Config, Dec;
      match c
      case TritonFused =>
      case Fixed(b, w) => PrefixOfLonger("triton_b", Config(b, w), "triton_");
      case Matched(w) =>
        PrefixOfLonger(MATCHED, "_w", "triton_");
        PrefixOfLonger(MATCHED + "_w", Dec(w), "triton_");
      case Looped(b, w) => PrefixOfLonger("triton_looped_b", Config(b, w), "triton_");
      case PlannedLooped(b, w) => PrefixOfLonger("triton_planned_looped_b", Config(b, w), "triton_");
    }
  }

  lemma TritonCandidatesAreTriton(maxLength: int)
    ensures forall i :: 0 <= i < |TritonCandidates(maxLength)| ==> !IsBaseline(TritonCandidates(maxLength)[i])
  {
    hide Configs;
  }

  lemma BaselinesAreBaselines()
    ensures forall i :: 0 <= i < |BASELINES| ==> IsBaseline(BASELINES[i])
  {
  }

  lemma NamesOfRow(maxLength: int)
    ensures Texts(RowCandidates(maxLength)) == Texts(BASELINES) + Texts(TritonCandidates(maxLength))
  {
    hide TritonCandidates, Text;
  }

  /** The setups are the row candidates, in their order. */
  lemma SetupsAreRowCandidates(maxLength: int)
    ensures Setups(maxLength) == Texts(RowCandidates(maxLength))
  {
    var triton := TritonCandidates(maxLength);
    NamesOfRow(maxLength);
    TritonCandidatesAreTriton(maxLength);
    BaselinesAreBaselines();
    hide TritonCandidates, RowCandidates, Text, StartsWith, TritonNames, Texts, IsBaseline;
    TritonNamesConcat(Texts(BASELINES), Texts(triton));
    forall i | 0 <= i < |BASELINES| ensures StartsWith(Text(BASELINES[i]), "triton_") == false {
      TritonPrefix(BASELINES[i]);
    }
    forall i | 0 <= i < |triton| ensures StartsWith(Text(triton[i]), "triton_") == true {
      TritonPrefix(triton[i]);
    }
    TritonNamesOf(BASELINES, false);
    TritonNamesOf(triton, true);
  }

  /** The two family tables agree on these names. */
  ghost predicate Agreed(names: seq<string>) {
    forall i :: 0 <= i < |names| ==> Family(HARNESS_FAMILIES, names[i]) == Family(VALIDATOR_FAMILIES, names[i])
  }

  lemma CandidatesAgree(cs: seq<Candidate>)
    ensures Agreed(Texts(cs))
  {
    forall i | 0 <= i < |cs|
      ensures Family(HARNESS_FAMILIES, Texts(cs)[i]) == Family(VALIDATOR_FAMILIES, Texts(cs)[i])
    {
      TablesAgree(cs[i]);
    }
  }

  lemma {:induction false} SelectIs(names: seq<string>, only: Option<seq<string>>, exclude: seq<string>, table: Table)
    ensures forall n :: n in Select(names, only, exclude, table) <==> n in names && Kept(n, only, exclude, table)
  {
    hide Kept;
    if names != [] {
      SelectIs(names[1..], only, exclude, table);
      assert forall n :: n in names <==> n == names[0] || n in names[1..];
    }
  }

  lemma {:induction false} SelectAgrees(names: seq<string>, only: Option<seq<string>>, exclude: seq<string>)
    requires Agreed(names)
    ensures Select(names, only, exclude, HARNESS_FAMILIES) == Select(names, only, exclude, VALIDATOR_FAMILIES)
  {
    hide Family;
    if names != [] {
      assert forall i :: 0 <= i < |names[1..]| ==> names[1..][i] == names[i + 1];
      SelectAgrees(names[1..], only, exclude);
    }
  }

  lemma {:induction false} AbleIs(names: seq<string>, unable: set<string>, table: Table)
    ensures forall n :: n in Able(names, unable, table) <==> n in names && Family(table, n) !in unable
  {
    hide Family;
    if names != [] {
      AbleIs(names[1..], unable, table);
      assert forall n :: n in names <==> n == names[0] || n in names[1..];
    }
  }

  /** Families that no name has do not matter. */
  lemma {:induction false} AbleAgrees(names: seq<string>, u: set<string>, v: set<string>)
    requires Agreed(names)
    requires forall i :: 0 <= i < |names| ==>
               (Family(HARNESS_FAMILIES, names[i]) in u <==> Family(HARNESS_FAMILIES, names[i]) in v)
    ensures Able(names, u, HARNESS_FAMILIES) == Able(names, v, VALIDATOR_FAMILIES)
  {
    hide Family;
    if names != [] {
      assert forall i :: 0 <= i < |names[1..]| ==> names[1..][i] == names[i + 1];
      AbleAgrees(names[1..], u, v);
    }
  }

  lemma {:induction false} WithoutIs(names: seq<string>, others: seq<string>)
    ensures forall n :: n in Without(names, others) <==> n in names && n !in others
  {
    if names != [] {
      WithoutIs(names[1..], others);
      assert forall n :: n in names <==> n == names[0] || n in names[1..];
    }
  }

  /** A filter of distinct names keeps them distinct. */
  lemma {:induction false} WithoutIsUnique(names: seq<string>, others: seq<string>)
    requires Unique(names)
    ensures Unique(Without(names, others))
  {
    if names != [] {
      WithoutIsUnique(names[1..], others);
      WithoutIs(names[1..], others);
      assert names[0] !in names[1..];
    }
  }

  lemma {:induction false} SelectIsUnique(names: seq<string>, only: Option<seq<string>>, exclude: seq<string>,
                                          table: Table)
    requires Unique(names)
    ensures Unique(Select(names, only, exclude, table))
  {
    hide Kept;
    if names != [] {
      SelectIsUnique(names[1..], only, exclude, table);
      SelectIs(names[1..], only, exclude, table);
      assert names[0] !in names[1..];
    }
  }

  lemma {:induction false} AbleIsUnique(names: seq<string>, unable: set<string>, table: Table)
    requires Unique(names)
    ensures Unique(Able(names, unable, table))
  {
    hide Family;
    if names != [] {
      AbleIsUnique(names[1..], unable, table);
      AbleIs(names[1..], unable, table);
      assert names[0] !in names[1..];
    }
  }

  // --------------------------------------------------------- order of the names

  /** The names at rising positions of the list. */
  ghost predicate Picks(positions: seq<nat>, names: seq<string>, picked: seq<string>) {
    && |positions| == |picked| && Rising(positions)
    && forall i :: 0 <= i < |picked| ==> positions[i] < |names| && names[positions[i]] == picked[i]
  }

  ghost predicate InOrderOf(picked: seq<string>, names: seq<string>) {
    exists positions :: Picks(positions, names, picked)
  }

  /** One name more before a list, picked or not. */
  lemma PicksLater(positions: seq<nat>, names: seq<string>, picked: seq<string>, take: bool)
    requires names != [] && Picks(positions, names[1..], picked)
    ensures InOrderOf(if take then [names[0]] + picked else picked, names)
  {
    var later := seq(|positions|, i requires 0 <= i < |positions| => positions[i] + 1);
    if take {
      assert Picks([0] + later, names, [names[0]] + picked);
    } else {
      assert Picks(later, names, picked);
    }
  }

  lemma {:induction false} SelectInOrder(names: seq<string>, only: Option<seq<string>>, exclude: seq<string>,
                                         table: Table)
    ensures InOrderOf(Select(names, only, exclude, table), names)
  {
    hide Kept, Picks;
    if names == [] {
      PicksNothing(names);
    } else {
      SelectInOrder(names[1..], only, exclude, table);
      var rest := Select(names[1..], only, exclude, table);
      var positions :| Picks(positions, names[1..], rest);
      PicksLater(positions, names, rest, Kept(names[0], only, exclude, table));
    }
  }

  lemma PicksNothing(names: seq<string>)
    ensures InOrderOf([], names)
  {
    assert Picks([], names, []);
  }

  lemma {:induction false} AbleInOrder(names: seq<string>, unable: set<string>, table: Table)
    ensures InOrderOf(Able(names, unable, table), names)
  {
    hide Family, Picks;
    if names == [] {
      PicksNothing(names);
    } else {
      AbleInOrder(names[1..], unable, table);
      var rest := Able(names[1..], unable, table);
      var positions :| Picks(positions, names[1..], rest);
      PicksLater(positions, names, rest, Family(table, names[0]) !in unable);
    }
  }

  lemma {:induction false} WithoutInOrder(names: seq<string>, others: seq<string>)
    ensures InOrderOf(Without(names, others), names)
  {
    hide Picks;
    if names == [] {
      PicksNothing(names);
    } else {
      WithoutInOrder(names[1..], others);
      var rest := Without(names[1..], others);
      var positions :| Picks(positions, names[1..], rest);
      PicksLater(positions, names, rest, names[0] !in others);
    }
  }

  lemma PicksOfPicks(names: seq<string>, some: seq<string>, few: seq<string>)
    requires InOrderOf(some, names) && InOrderOf(few, some)
    ensures InOrderOf(few, names)
  {
    var p :| Picks(p, names, some);
    var q :| Picks(q, some, few);
    var r := seq(|q|, i requires 0 <= i < |q| => if q[i] < |p| then p[q[i]] else 0);
    assert Picks(r, names, few);
  }

  /** The timed and the excluded names of a row stand in the order of its candidates. */
  lemma RowIsInOrder(maxLength: int, only: Option<seq<string>>, exclude: seq<string>, paddingFits: bool)
    requires HarnessRow(maxLength, only, exclude, paddingFits).Some?
    ensures var row, names := HarnessRow(maxLength, only, exclude, paddingFits).value, Texts(RowCandidates(maxLength));
            InOrderOf(row.order, names) && InOrderOf(row.excluded, names)
  {
    var names := Texts(RowCandidates(maxLength));
    SetupsAreRowCandidates(maxLength);
    var wanted := Select(names, only, exclude, HARNESS_FAMILIES);
    var unable := LengthLimits(maxLength) + if paddingFits then {} else {"torch_padded"};
    SelectInOrder(names, only, exclude, HARNESS_FAMILIES);
    AbleInOrder(wanted, unable, HARNESS_FAMILIES);
    WithoutInOrder(names, wanted);
    hide Setups, Select, Able, Without, InOrderOf, LengthLimits, Families, Texts, RowCandidates;
    PicksOfPicks(names, wanted, Able(wanted, unable, HARNESS_FAMILIES));
  }

  // ------------------------------------------------------- distinct candidates

  lemma {:induction false} WarpConfigsAreUnique(block: nat, warps: seq<nat>)
    requires Unique(warps)
    ensures Unique(WarpConfigs(block, warps))
    ensures forall c :: c in WarpConfigs(block, warps) ==> c.0 == block && c.1 in warps
  {
    if warps != [] {
      var before := warps[..|warps| - 1];
      WarpConfigsAreUnique(block, before);
      assert warps == before + [warps[|warps| - 1]];
      assert warps[|warps| - 1] !in before;
    }
  }

  lemma {:induction false} ConfigsAreUnique(blocks: seq<nat>, longest: int)
    requires Unique(blocks)
    ensures Unique(Configs(blocks, longest))
    ensures forall c :: c in Configs(blocks, longest) ==> c.0 in blocks
  {
    if blocks != [] {
      var before, b := blocks[..|blocks| - 1], blocks[|blocks| - 1];
      ConfigsAreUnique(before, longest);
      WarpConfigsAreUnique(b, WARPS);
      assert blocks == before + [b];
      assert b !in before;
      hide WarpConfigs;
      var earlier, next := Configs(before, longest), WarpConfigs(b, WARPS);
      forall i, j | 0 <= i < |earlier| && 0 <= j < |next| ensures earlier[i] != next[j] {
        assert earlier[i] in earlier && next[j] in next;
      }
      UniqueConcat(earlier, next);
    }
  }

  lemma UniqueConcat<T(!new)>(a: seq<T>, b: seq<T>)
    requires Unique(a) && Unique(b) && forall i, j :: 0 <= i < |a| && 0 <= j < |b| ==> a[i] != b[j]
    ensures Unique(a + b)
  {
  }

  /** Where the families stand in a row. */
  function Kind(c: Candidate): nat {
    match c
    case Fixed(_, _) => 1
    case Matched(_) => 2
    case Looped(_, _) => 3
    case PlannedLooped(_, _) => 4
    case _ => 0
  }

  ghost predicate OfKinds(cs: seq<Candidate>, low: nat, high: nat) {
    forall i :: 0 <= i < |cs| ==> low <= Kind(cs[i]) <= high
  }

  lemma KindsConcat(a: seq<Candidate>, b: seq<Candidate>, low: nat, k: nat, high: nat)
    requires Unique(a) && Unique(b) && low <= k < high && OfKinds(a, low, k) && OfKinds(b, k + 1, high)
    ensures Unique(a + b) && OfKinds(a + b, low, high)
  {
    hide Kind;
    forall i, j | 0 <= i < |a| && 0 <= j < |b| ensures a[i] != b[j] {
      assert Kind(a[i]) <= k < Kind(b[j]);
    }
    UniqueConcat(a, b);
  }

  lemma ConfigKinds(configs: seq<(nat, nat)>)
    requires Unique(configs)
    ensures Unique(FixedOf(configs)) && OfKinds(FixedOf(configs), 1, 1)
    ensures Unique(LoopedOf(configs)) && OfKinds(LoopedOf(configs), 3, 3)
    ensures Unique(PlannedLoopedOf(configs)) && OfKinds(PlannedLoopedOf(configs), 4, 4)
  {
  }

  lemma NamedKinds()
    ensures Unique(BASELINES + [TritonFused]) && OfKinds(BASELINES + [TritonFused], 0, 0)
    ensures Unique([Matched(1), Matched(2), Matched(4), Matched(8)])
    ensures OfKinds([Matched(1), Matched(2), Matched(4), Matched(8)], 2, 2)
  {
  }

  lemma RowIsConcat(maxLength: int)
    ensures RowCandidates(maxLength)
         == BASELINES + [TritonFused] + FixedOf(Configs(FIXED_BLOCKS, maxLength))
            + [Matched(1), Matched(2), Matched(4), Matched(8)]
            + LoopedOf(LoopedConfigs()) + PlannedLoopedOf(LoopedConfigs())
  {
    hide FixedOf, LoopedOf, PlannedLoopedOf, Configs, LoopedConfigs;
  }

  lemma CandidatesAreUnique(maxLength: int)
    ensures Unique(RowCandidates(maxLength))
  {
    var fixed, looped := Configs(FIXED_BLOCKS, maxLength), LoopedConfigs();
    ConfigsAreUnique(FIXED_BLOCKS, maxLength);
    ConfigsAreUnique(LOOPED_BLOCKS, 0);
    ConfigKinds(fixed);
    ConfigKinds(looped);
    var first, matched := BASELINES + [TritonFused], [Matched(1), Matched(2), Matched(4), Matched(8)];
    NamedKinds();
    RowIsConcat(maxLength);
    hide *;
    KindsConcat(first, FixedOf(fixed), 0, 0, 1);
    KindsConcat(first + FixedOf(fixed), matched, 0, 1, 2);
    KindsConcat(first + FixedOf(fixed) + matched, LoopedOf(looped), 0, 2, 3);
    KindsConcat(first + FixedOf(fixed) + matched + LoopedOf(looped), PlannedLoopedOf(looped), 0, 3, 4);
  }

  lemma RowIsUnique(maxLength: int)
    ensures Unique(Texts(RowCandidates(maxLength)))
  {
    var cs := RowCandidates(maxLength);
    CandidatesAreUnique(maxLength);
    hide RowCandidates, Text;
    forall i, j | 0 <= i < j < |cs| ensures Texts(cs)[i] != Texts(cs)[j] {
      if Text(cs[i]) == Text(cs[j]) { NamesAreDistinct(cs[i], cs[j]); }
    }
  }

  // ------------------------------------------------------------ the agreement

  /** The one candidate of the padded family. */
  lemma PaddedFamily(maxLength: int, name: string)
    requires name in Texts(RowCandidates(maxLength)) && Family(HARNESS_FAMILIES, name) == "torch_padded"
    ensures name == "torch_padded"
  {
    var cs := RowCandidates(maxLength);
    var i :| 0 <= i < |cs| && Texts(cs)[i] == name;
    TablesAgree(cs[i]);
    hide Family, RowCandidates;
    PaddedFamilyOf(cs[i]);
  }

  lemma PaddedFamilyOf(c: Candidate)
    ensures FamilyOf(c) == "torch_padded" ==> c.TorchPadded?
  {
    assert |"torch_padded"| == 12 && "torch_padded"[1] == 'o';
    assert |"triton_looped"| == 13 && "triton_fixed"[1] == 'r' && |"triton_planned_looped"| == 21 && |MATCHED| == 29;
    assert "triton_fused"[1] == 'r' && |"torch_segment_reduce"| == 20 && |"swage_mixed"| == 11 && |"swage_warp"| == 10;
    assert |"swage_cta"| == 9;
  }

  lemma PaddedIsListed(maxLength: int)
    ensures "torch_padded" in Texts(RowCandidates(maxLength))
    ensures Family(HARNESS_FAMILIES, "torch_padded") == "torch_padded"
  {
    TablesAgree(TorchPadded);
    hide Configs, Family;
    assert RowCandidates(maxLength)[4] == TorchPadded;
    assert Texts(RowCandidates(maxLength))[4] == "torch_padded";
  }

  /** A row wants the padded baseline only when some row may. */
  lemma PaddedIsWanted(maxLength: int, only: Option<seq<string>>, exclude: seq<string>, name: string)
    requires name in Select(Texts(RowCandidates(maxLength)), only, exclude, HARNESS_FAMILIES)
    requires Family(HARNESS_FAMILIES, name) == "torch_padded"
    ensures var kept := Select(Texts(RowCandidates(0)), only, exclude, HARNESS_FAMILIES);
            "torch_padded" in Families(kept, HARNESS_FAMILIES)
  {
    SelectIs(Texts(RowCandidates(maxLength)), only, exclude, HARNESS_FAMILIES);
    SelectIs(Texts(RowCandidates(0)), only, exclude, HARNESS_FAMILIES);
    hide Kept, Family, RowCandidates, Texts, Select;
    PaddedFamily(maxLength, name);
    PaddedIsListed(0);
    var every := Select(Texts(RowCandidates(0)), only, exclude, HARNESS_FAMILIES);
    assert name in every;
    var i :| 0 <= i < |every| && every[i] == name;
  }

  lemma FamiliesAgree(names: seq<string>)
    requires Agreed(names)
    ensures Families(names, HARNESS_FAMILIES) == Families(names, VALIDATOR_FAMILIES)
  {
    hide Family;
    var u, v := Families(names, HARNESS_FAMILIES), Families(names, VALIDATOR_FAMILIES);
    hide Families;
    forall f ensures f in u <==> f in v {
      if f in u {
        var i :| 0 <= i < |names| && Family(HARNESS_FAMILIES, names[i]) == f;
        assert Family(VALIDATOR_FAMILIES, names[i]) == f;
      }
      if f in v {
        var i :| 0 <= i < |names| && Family(VALIDATOR_FAMILIES, names[i]) == f;
        assert Family(HARNESS_FAMILIES, names[i]) == f;
      }
    }
  }

  lemma SelectionIsAgreed(names: seq<string>, only: Option<seq<string>>, exclude: seq<string>)
    requires Agreed(names)
    ensures Agreed(Select(names, only, exclude, HARNESS_FAMILIES))
  {
    var kept := Select(names, only, exclude, HARNESS_FAMILIES);
    SelectIs(names, only, exclude, HARNESS_FAMILIES);
    hide Kept, Family, Select;
    forall i | 0 <= i < |kept| ensures Family(HARNESS_FAMILIES, kept[i]) == Family(VALIDATOR_FAMILIES, kept[i]) {
      assert kept[i] in names;
      var j :| 0 <= j < |names| && names[j] == kept[i];
    }
  }

  /** What a row times by its filter and longest segment alone is the same for both. */
  lemma CaseCandidatesAgree(maxLength: int, only: Option<seq<string>>, exclude: seq<string>)
    ensures CaseCandidates(maxLength, only, exclude, HARNESS_FAMILIES, LengthLimits(maxLength))
         == CaseCandidates(maxLength, only, exclude, VALIDATOR_FAMILIES, LengthUnable(maxLength))
  {
    var full := Texts(RowCandidates(maxLength));
    CandidatesAgree(RowCandidates(maxLength));
    SelectAgrees(full, only, exclude);
    SelectionIsAgreed(full, only, exclude);
    LimitsAgree(maxLength);
    hide LengthLimits, LengthUnable;
    AbleAgrees(Select(full, only, exclude, HARNESS_FAMILIES), LengthLimits(maxLength), LengthUnable(maxLength));
  }

  function CaseCandidates(maxLength: int, only: Option<seq<string>>, exclude: seq<string>, table: Table,
                          unable: set<string>): seq<string> {
    Able(Select(Texts(RowCandidates(maxLength)), only, exclude, table), unable, table)
  }

  /** Every row the harness records is the one the validator derives. */
  lemma HarnessRowPasses(maxLength: int, only: Option<seq<string>>, exclude: seq<string>, paddingFits: bool)
    ensures var row := HarnessRow(maxLength, only, exclude, paddingFits);
            row.Some? ==> SegmentSelection(row.value, maxLength, only, exclude) == Some(row.value.order)
  {
    var full, all := Texts(RowCandidates(maxLength)), Texts(RowCandidates(0));
    SetupsAreRowCandidates(maxLength);
    LimitsAgree(maxLength);
    CandidatesAgree(RowCandidates(maxLength));
    CandidatesAgree(RowCandidates(0));
    RowIsUnique(maxLength);
    hide LengthLimits, Family, Kept, RowCandidates, Texts, Setups, LengthUnable, Agreed, Families, Select, Able,
      Without, Unique;
    SelectAgrees(full, only, exclude);
    SelectAgrees(all, only, exclude);
    SelectionIsAgreed(full, only, exclude);
    SelectionIsAgreed(all, only, exclude);
    var wanted, every := Select(full, only, exclude, HARNESS_FAMILIES), Select(all, only, exclude, HARNESS_FAMILIES);
    FamiliesAgree(every);
    SelectIsUnique(full, only, exclude, HARNESS_FAMILIES);
    WithoutIsUnique(full, wanted);
    var row := HarnessRow(maxLength, only, exclude, paddingFits);
    if row.Some? {
      var u := LengthUnable(maxLength) + if paddingFits then {} else {"torch_padded"};
      var v := LengthUnable(maxLength) + if "torch_padded" in row.value.skipped then {"torch_padded"} else {};
      forall i | 0 <= i < |wanted|
        ensures Family(HARNESS_FAMILIES, wanted[i]) in u <==> Family(HARNESS_FAMILIES, wanted[i]) in v
      {
        assert wanted[i] in wanted;
        if Family(HARNESS_FAMILIES, wanted[i]) == "torch_padded" {
          PaddedIsWanted(maxLength, only, exclude, wanted[i]);
        }
      }
      AbleAgrees(wanted, u, v);
      AbleIsUnique(wanted, u, HARNESS_FAMILIES);
      assert row.value.skipped == v * Families(every, VALIDATOR_FAMILIES);
    }
  }

  /** The validator accepts exactly the rows that the harness records, whether or not the padded baseline fits. */
  lemma AcceptedIff(row: Row, maxLength: int, only: Option<seq<string>>, exclude: seq<string>)
    ensures SegmentSelection(row, maxLength, only, exclude).Some?
       <==> exists paddingFits :: HarnessRow(maxLength, only, exclude, paddingFits) == Some(row)
  {
    if SegmentSelection(row, maxLength, only, exclude).Some? {
      AcceptedIsHarness(row, maxLength, only, exclude);
    }
    forall paddingFits | HarnessRow(maxLength, only, exclude, paddingFits) == Some(row)
      ensures SegmentSelection(row, maxLength, only, exclude).Some?
    {
      HarnessRowPasses(maxLength, only, exclude, paddingFits);
    }
    hide HarnessRow, SegmentSelection;
  }

  lemma AcceptedIsHarness(row: Row, maxLength: int, only: Option<seq<string>>, exclude: seq<string>)
    requires SegmentSelection(row, maxLength, only, exclude).Some?
    ensures HarnessRow(maxLength, only, exclude, "torch_padded" !in row.skipped) == Some(row)
  {
    var full, all := Texts(RowCandidates(maxLength)), Texts(RowCandidates(0));
    SetupsAreRowCandidates(maxLength);
    LimitsAgree(maxLength);
    CandidatesAgree(RowCandidates(maxLength));
    CandidatesAgree(RowCandidates(0));
    hide LengthLimits, Family, Kept, RowCandidates, Texts, Setups, LengthUnable, Agreed, Families, Select, Able,
      Without, Unique;
    SelectAgrees(full, only, exclude);
    SelectAgrees(all, only, exclude);
    SelectionIsAgreed(full, only, exclude);
    SelectionIsAgreed(all, only, exclude);
    var wanted, every := Select(full, only, exclude, HARNESS_FAMILIES), Select(all, only, exclude, HARNESS_FAMILIES);
    FamiliesAgree(every);
    var u := LengthUnable(maxLength) + if "torch_padded" in row.skipped then {"torch_padded"} else {};
    AbleAgrees(wanted, u, u);
    assert (set f | f in u && f in Families(every, HARNESS_FAMILIES)) == u * Families(every, HARNESS_FAMILIES);
  }

  /** The families a row cannot run, by its longest segment and its memory. */
  function Unable(maxLength: int, paddingFits: bool): set<string> {
    LengthLimits(maxLength) + if paddingFits then {} else {"torch_padded"}
  }

  /** There is no row exactly when no kept candidate can run. */
  lemma NoRowIff(maxLength: int, only: Option<seq<string>>, exclude: seq<string>, paddingFits: bool)
    ensures HarnessRow(maxLength, only, exclude, paddingFits).None?
       <==> forall name :: name in Texts(RowCandidates(maxLength)) && Kept(name, only, exclude, HARNESS_FAMILIES) ==>
              Family(HARNESS_FAMILIES, name) in Unable(maxLength, paddingFits)
  {
    var full := Texts(RowCandidates(maxLength));
    SetupsAreRowCandidates(maxLength);
    SelectIs(full, only, exclude, HARNESS_FAMILIES);
    var wanted := Select(full, only, exclude, HARNESS_FAMILIES);
    AbleIs(wanted, Unable(maxLength, paddingFits), HARNESS_FAMILIES);
    var able := Able(wanted, Unable(maxLength, paddingFits), HARNESS_FAMILIES);
    hide Family, Kept, RowCandidates, Texts, Setups, LengthLimits, Select, Able, Without, Families;
    assert able != [] ==> able[0] in able;
  }

  /** Every candidate of a row is timed, excluded, or kept but in a skipped family; and only one of these. */
  lemma Trichotomy(maxLength: int, only: Option<seq<string>>, exclude: seq<string>, paddingFits: bool, name: string)
    requires HarnessRow(maxLength, only, exclude, paddingFits).Some? && name in Texts(RowCandidates(maxLength))
    ensures var row, family := HarnessRow(maxLength, only, exclude, paddingFits).value, Family(HARNESS_FAMILIES, name);
            var kept := (only.None? || name in only.value || family in only.value)
                        && name !in exclude && family !in exclude;
            && kept == Kept(name, only, exclude, HARNESS_FAMILIES)
            && (name in row.excluded <==> !kept)
            && (name in row.order <==> kept && family !in row.skipped)
  {
    KeptIff(name, only, exclude, HARNESS_FAMILIES);
    var full, all := Texts(RowCandidates(maxLength)), Texts(RowCandidates(0));
    SetupsAreRowCandidates(maxLength);
    SelectIs(full, only, exclude, HARNESS_FAMILIES);
    var wanted, every := Select(full, only, exclude, HARNESS_FAMILIES), Select(all, only, exclude, HARNESS_FAMILIES);
    WithoutIs(full, wanted);
    var u := LengthLimits(maxLength) + if paddingFits then {} else {"torch_padded"};
    AbleIs(wanted, u, HARNESS_FAMILIES);
    SelectIs(all, only, exclude, HARNESS_FAMILIES);
    RowWithinEvery(maxLength, name);
    hide Family, Kept, RowCandidates, Texts, Setups, LengthLimits, Select, Able, Without;
    if Kept(name, only, exclude, HARNESS_FAMILIES) {
      assert name in every;
      var i :| 0 <= i < |every| && every[i] == name;
      assert Family(HARNESS_FAMILIES, name) in Families(every, HARNESS_FAMILIES);
    }
  }

  lemma {:induction false} FewerConfigs(blocks: seq<nat>, longest: int, c: (nat, nat))
    requires c in Configs(blocks, longest)
    ensures c in Configs(blocks, 0)
  {
    if blocks != [] && c in Configs(blocks[..|blocks| - 1], longest) {
      FewerConfigs(blocks[..|blocks| - 1], longest, c);
    }
  }

  /** A row has no candidate that no row has. */
  lemma RowWithinEvery(maxLength: int, name: string)
    requires name in Texts(RowCandidates(maxLength))
    ensures name in Texts(RowCandidates(0))
  {
    var cs, all := RowCandidates(maxLength), RowCandidates(0);
    var i :| 0 <= i < |cs| && Texts(cs)[i] == name;
    assert cs[i] in all by { CandidateWithinEvery(maxLength, cs[i]); }
    var j :| 0 <= j < |all| && all[j] == cs[i];
    assert Texts(all)[j] == name;
  }

  lemma CandidateWithinEvery(maxLength: int, c: Candidate)
    requires c in RowCandidates(maxLength)
    ensures c in RowCandidates(0)
  {
    hide Configs, LoopedConfigs, WarpConfigs;
    var fixed, every := Configs(FIXED_BLOCKS, maxLength), Configs(FIXED_BLOCKS, 0);
    if c in FixedOf(fixed) {
      FewerConfigs(FIXED_BLOCKS, maxLength, (c.block, c.warps));
      var k :| 0 <= k < |every| && every[k] == (c.block, c.warps);
      assert FixedOf(every)[k] == c;
    }
  }

  /** The filter keeps some candidate of the family, in this row or another. */
  ghost predicate FamilyKept(family: string, only: Option<seq<string>>, exclude: seq<string>) {
    exists other :: other in Texts(RowCandidates(0)) && Kept(other, only, exclude, HARNESS_FAMILIES)
                 && Family(HARNESS_FAMILIES, other) == family
  }

  /** The skipped families are those that cannot run and that the filter keeps. */
  lemma SkippedIff(maxLength: int, only: Option<seq<string>>, exclude: seq<string>, paddingFits: bool, family: string)
    requires HarnessRow(maxLength, only, exclude, paddingFits).Some?
    ensures family in HarnessRow(maxLength, only, exclude, paddingFits).value.skipped
       <==> family in Unable(maxLength, paddingFits) && FamilyKept(family, only, exclude)
  {
    var all := Texts(RowCandidates(0));
    SelectIs(all, only, exclude, HARNESS_FAMILIES);
    var every := Select(all, only, exclude, HARNESS_FAMILIES);
    hide Family, Kept, RowCandidates, Texts, Setups, LengthLimits, Select, Able, Without;
    assert family in Families(every, HARNESS_FAMILIES) <==> FamilyKept(family, only, exclude) by {
      if family in Families(every, HARNESS_FAMILIES) {
        var i :| 0 <= i < |every| && Family(HARNESS_FAMILIES, every[i]) == family;
        assert every[i] in every;
      }
      if FamilyKept(family, only, exclude) {
        var other :| && other in all && Kept(other, only, exclude, HARNESS_FAMILIES)
                     && Family(HARNESS_FAMILIES, other) == family;
        var i :| 0 <= i < |every| && every[i] == other;
      }
    }
    hide Families;
  }

  /**
   A candidate is excluded and of a skipped family exactly when the filter drops
   it, its family cannot run, and another of the family is kept.
  */
  lemma ExcludedOfSkippedFamilyIff(maxLength: int, only: Option<seq<string>>, exclude: seq<string>, paddingFits: bool,
                                   name: string)
    requires HarnessRow(maxLength, only, exclude, paddingFits).Some? && name in Texts(RowCandidates(maxLength))
    ensures var row, family := HarnessRow(maxLength, only, exclude, paddingFits).value, Family(HARNESS_FAMILIES, name);
            (name in row.excluded && family in row.skipped)
            <==> (!Kept(name, only, exclude, HARNESS_FAMILIES) && family in Unable(maxLength, paddingFits)
                  && FamilyKept(family, only, exclude))
  {
    hide HarnessRow, Kept, Family, Texts, RowCandidates, Unable, FamilyKept;
    Trichotomy(maxLength, only, exclude, paddingFits, name);
    SkippedIff(maxLength, only, exclude, paddingFits, Family(HARNESS_FAMILIES, name));
  }

  predicate ExactlyOne(a: bool, b: bool, c: bool) {
    (a || b || c) && !(a && b) && !(a && c) && !(b && c)
  }

  /** So timed, excluded, and of a skipped family exclude each other exactly when that is not the case. */
  lemma ExactlyOneIff(maxLength: int, only: Option<seq<string>>, exclude: seq<string>, paddingFits: bool, name: string)
    requires HarnessRow(maxLength, only, exclude, paddingFits).Some? && name in Texts(RowCandidates(maxLength))
    ensures var row, family := HarnessRow(maxLength, only, exclude, paddingFits).value, Family(HARNESS_FAMILIES, name);
            ExactlyOne(name in row.order, name in row.excluded, family in row.skipped)
            <==> !(!Kept(name, only, exclude, HARNESS_FAMILIES) && family in Unable(maxLength, paddingFits)
                   && FamilyKept(family, only, exclude))
  {
    hide HarnessRow, Kept, Family, Texts, RowCandidates, Unable, FamilyKept;
    Trichotomy(maxLength, only, exclude, paddingFits, name);
    ExcludedOfSkippedFamilyIff(maxLength, only, exclude, paddingFits, name);
  }

  /** An excluded candidate may belong to a skipped family, when the filter keeps another of that family. */
  lemma ExcludedOfSkippedFamily() returns (maxLength: int, exclude: seq<string>, name: string)
    ensures var row := HarnessRow(maxLength, None, exclude, true);
            row.Some? && name in row.value.excluded && Family(HARNESS_FAMILIES, name) in row.value.skipped
  {
    maxLength, name := 5000, Text(Matched(2));
    exclude := [name];
    TablesAgree(Matched(2));
    RowIsListed(maxLength);
    assert !Kept(name, None, exclude, HARNESS_FAMILIES);
    hide Family, Text, Texts, RowCandidates, Configs, Kept;
    RowWithoutOneTimes(maxLength, exclude);
    Trichotomy(maxLength, None, exclude, true, name);
    FamilyOfMatchedIsWanted(exclude);
    hide Select, Able, Without, Setups, Families;
  }

  /** Something is timed when only one candidate is excluded. */
  lemma RowWithoutOneTimes(maxLength: int, exclude: seq<string>)
    requires exclude == [Text(Matched(2))]
    ensures HarnessRow(maxLength, None, exclude, true).Some?
  {
    var full, unable := Texts(RowCandidates(maxLength)), LengthLimits(maxLength) + {};
    ListedAndKept(maxLength, SwageWarp, exclude);
    assert unable <= {"triton_fixed", MATCHED, "triton_fused"};
    SetupsAreRowCandidates(maxLength);
    hide Family, Text, RowCandidates, Texts, Kept, LengthLimits, Setups;
    SelectIs(full, None, exclude, HARNESS_FAMILIES);
    var wanted := Select(full, None, exclude, HARNESS_FAMILIES);
    AbleIs(wanted, unable, HARNESS_FAMILIES);
    hide Select, Able;
    assert Text(SwageWarp) in Able(wanted, unable, HARNESS_FAMILIES);
  }

  lemma FamilyOfMatchedIsWanted(exclude: seq<string>)
    requires exclude == [Text(Matched(2))]
    ensures MATCHED in Families(Select(Texts(RowCandidates(0)), None, exclude, HARNESS_FAMILIES), HARNESS_FAMILIES)
  {
    ListedAndKept(0, Matched(1), exclude);
    hide Family, Text, RowCandidates, Texts, Kept;
    SelectIs(Texts(RowCandidates(0)), None, exclude, HARNESS_FAMILIES);
    var every := Select(Texts(RowCandidates(0)), None, exclude, HARNESS_FAMILIES);
    hide Select;
    var i :| 0 <= i < |every| && every[i] == Text(Matched(1));
    assert Family(HARNESS_FAMILIES, every[i]) == MATCHED;
  }

  lemma ListedAndKept(maxLength: int, c: Candidate, exclude: seq<string>)
    requires (c == SwageWarp || c == Matched(1)) && exclude == [Text(Matched(2))]
    ensures Text(c) in Texts(RowCandidates(maxLength)) && Kept(Text(c), None, exclude, HARNESS_FAMILIES)
    ensures Family(HARNESS_FAMILIES, Text(c)) == if c == SwageWarp then "swage_warp" else MATCHED
    ensures "swage_warp" !in {"triton_fixed", MATCHED, "triton_fused"}
  {
    var cs := RowCandidates(maxLength);
    TablesAgree(c);
    RowIsListed(maxLength);
    if Text(c) == Text(Matched(2)) { NamesAreDistinct(c, Matched(2)); }
    hide Configs, Family, RowCandidates;
    assert c in cs;
    var i :| 0 <= i < |cs| && cs[i] == c;
    assert Texts(cs)[i] == Text(c);
    assert |Text(Matched(2))| > |MATCHED| by { assert |Dec(2)| >= 0; }
    assert |"swage_warp"| == 10 && |"triton_fixed"| == 12 && |"triton_fused"| == 12 && |MATCHED| == 29;
  }

  lemma RowIsListed(maxLength: int)
    ensures SwageWarp in RowCandidates(maxLength) && Matched(1) in RowCandidates(maxLength)
    ensures Matched(2) in RowCandidates(maxLength)
    ensures Text(Matched(2)) in Texts(RowCandidates(maxLength))
  {
    var cs := RowCandidates(maxLength);
    var k := |BASELINES| + 1 + |FixedOf(Configs(FIXED_BLOCKS, maxLength))|;
    hide Configs, LoopedConfigs;
    assert cs[0] == SwageWarp && cs[k] == Matched(1) && cs[k + 1] == Matched(2);
    assert Texts(cs)[k + 1] == Text(Matched(2));
  }
}
