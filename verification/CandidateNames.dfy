/** The candidates of a segmented row, their names, and the two family tables that read those names. */
module CandidateNames {
  import opened Decimal

  datatype Candidate = SwageWarp | SwageCta | SwageMixed | TorchSegmentReduce | TorchPadded | TritonFused
    | Fixed(block: nat, warps: nat) | Matched(warps: nat) | Looped(block: nat, warps: nat)
    | PlannedLooped(block: nat, warps: nat)

  const MATCHED := "triton_matched_task_partition"
  const FIXED_BLOCKS: seq<nat> := [32, 64, 128, 256, 512, 1024, 2048, 4096]
  const LOOPED_BLOCKS: seq<nat> := [128, 256, 512, 1024]
  const WARPS: seq<nat> := [1, 2, 4, 8]

  /** A decimal in a name. */
  function Dec(n: nat): (s: string)
    ensures forall i :: 0 <= i < |s| ==> s[i] != '_'
  {
    var digits := Digits(n);
    seq(|digits|, i requires 0 <= i < |digits| => digits[i] as char)
  }

  function Config(block: nat, warps: nat): string {
    Dec(block) + "_w" + Dec(warps)
  }

  /** The name of a candidate. */
  function Text(c: Candidate): string {
    match c
    case SwageWarp => "swage_warp"
    case SwageCta => "swage_cta"
    case SwageMixed => "swage_mixed"
    case TorchSegmentReduce => "torch_segment_reduce"
    case TorchPadded => "torch_padded"
    case TritonFused => "triton_fused"
    case Fixed(b, w) => "triton_b" + Config(b, w)
    case Matched(w) => if w == 1 then MATCHED else MATCHED + "_w" + Dec(w)
    case Looped(b, w) => "triton_looped_b" + Config(b, w)
    case PlannedLooped(b, w) => "triton_planned_looped_b" + Config(b, w)
  }

  /** One name of every form. */
  lemma NamesLikeThese()
    ensures Text(SwageWarp) == "swage_warp" && Text(SwageCta) == "swage_cta" && Text(SwageMixed) == "swage_mixed"
    ensures Text(TorchSegmentReduce) == "torch_segment_reduce" && Text(TorchPadded) == "torch_padded"
    ensures Text(TritonFused) == "triton_fused" && Text(Fixed(32, 1)) == "triton_b32_w1"
    ensures Text(Matched(1)) == "triton_matched_task_partition"
    ensures Text(Matched(8)) == "triton_matched_task_partition_w8"
    ensures Text(Looped(256, 4)) == "triton_looped_b256_w4"
    ensures Text(PlannedLooped(128, 2)) == "triton_planned_looped_b128_w2"
  {
    DecsLikeThese();
    assert Config(32, 1) == "32_w1" && Config(256, 4) == "256_w4" && Config(128, 2) == "128_w2";
    assert MATCHED + "_w" + Dec(8) == "triton_matched_task_partition_w8";
    hide Dec, Config;
  }

  lemma DecsLikeThese()
    ensures Dec(1) == "1" && Dec(2) == "2" && Dec(4) == "4" && Dec(8) == "8"
    ensures Dec(32) == "32" && Dec(128) == "128" && Dec(256) == "256"
  {
    assert Digits(32) == Digits(3) + [50] && Digits(12) == Digits(1) + [50] && Digits(25) == Digits(2) + [53];
    assert Digits(128) == Digits(12) + [56] && Digits(256) == Digits(25) + [54];
  }

  // ------------------------------------------------------------ distinct names

  lemma DecIsInjective(m: nat, n: nat)
    requires Dec(m) == Dec(n)
    ensures m == n
  {
    ValueOfDigits(m);
    ValueOfDigits(n);
    assert |Digits(m)| == |Dec(m)| == |Digits(n)|;
    forall i | 0 <= i < |Digits(m)| ensures Digits(m)[i] == Digits(n)[i] {
      assert Dec(m)[i] == Dec(n)[i];
    }
    assert Digits(m) == Digits(n);
  }

  function IndexOf(s: string, c: char): nat {
    if s == [] || s[0] == c then 0 else 1 + IndexOf(s[1..], c)
  }

  lemma {:induction false} IndexAfter(p: string, c: char, rest: string)
    requires forall i :: 0 <= i < |p| ==> p[i] != c
    ensures IndexOf(p + [c] + rest, c) == |p|
  {
    var s := p + [c] + rest;
    if p == [] {
      assert s[0] == c;
    } else {
      assert s[0] == p[0] && s[1..] == p[1..] + [c] + rest;
      IndexAfter(p[1..], c, rest);
    }
  }

  lemma ConfigIsInjective(b: nat, w: nat, c: nat, x: nat)
    requires Config(b, w) == Config(c, x)
    ensures b == c && w == x
  {
    var s, t := Config(b, w), Config(c, x);
    assert s == Dec(b) + ['_'] + (['w'] + Dec(w)) && t == Dec(c) + ['_'] + (['w'] + Dec(x));
    IndexAfter(Dec(b), '_', ['w'] + Dec(w));
    IndexAfter(Dec(c), '_', ['w'] + Dec(x));
    assert Dec(b) == s[..|Dec(b)|] && Dec(c) == t[..|Dec(c)|];
    assert Dec(w) == s[|Dec(b)| + 2..] && Dec(x) == t[|Dec(c)| + 2..];
    DecIsInjective(b, c);
    DecIsInjective(w, x);
  }

  lemma SameSuffix(p: string, s: string, t: string)
    requires p + s == p + t
    ensures s == t
  {
    assert (p + s)[|p|..] == s && (p + t)[|p|..] == t;
  }

  predicate StartsWith(s: string, p: string) {
    |p| <= |s| && s[..|p|] == p
  }

  lemma SameAt(s: string, p: string, k: nat)
    requires k < |p|
    ensures StartsWith(s, p) ==> k < |s| && s[k] == p[k]
  {
    if StartsWith(s, p) { assert s[..|p|][k] == s[k]; }
  }

  lemma DiffersAt(s: string, p: string, k: nat)
    requires k < |p| && (|s| <= k || s[k] != p[k])
    ensures !StartsWith(s, p)
  {
    SameAt(s, p, k);
  }

  lemma Begins(p: string, s: string)
    ensures StartsWith(p + s, p)
  {
  }

  // ---------------------------------------------------------- the family tables

  type Table = seq<(string, string)>

  const HARNESS_FAMILIES: Table := [
    ("triton_planned_looped_b", "triton_planned_looped"), (MATCHED, MATCHED), ("triton_planned_w", "triton_planned"),
    ("triton_looped_b", "triton_looped"), ("triton_rows_looped_r", "triton_rows_looped"), ("triton_b", "triton_fixed")]

  const VALIDATOR_FAMILIES: Table := [
    ("triton_planned_looped_b", "triton_planned_looped"), (MATCHED, MATCHED),
    ("triton_looped_b", "triton_looped"), ("triton_b", "triton_fixed")]

  /** The family of the first prefix, or the name itself. */
  function Family(table: Table, name: string): string {
    if table == [] then name
    else if StartsWith(name, table[0].0) then table[0].1
    else Family(table[1..], name)
  }

  function FamilyOf(c: Candidate): string {
    match c
    case Fixed(_, _) => "triton_fixed"
    case Matched(_) => MATCHED
    case Looped(_, _) => "triton_looped"
    case PlannedLooped(_, _) => "triton_planned_looped"
    case _ => Text(c)
  }

  /** What the prefixes decide about a name. */
  predicate Prefixes(name: string, planned: bool, matched: bool, looped: bool, fixed: bool) {
    && StartsWith(name, "triton_planned_looped_b") == planned && StartsWith(name, MATCHED) == matched
    && !StartsWith(name, "triton_planned_w") && StartsWith(name, "triton_looped_b") == looped
    && !StartsWith(name, "triton_rows_looped_r") && StartsWith(name, "triton_b") == fixed
  }

  lemma NoPrefix(name: string)
    requires |name| > 1 && !(name[0] == 't' && name[1] == 'r')
    ensures Prefixes(name, false, false, false, false)
  {
    var k := if name[0] == 't' then 1 else 0;
    DiffersAt(name, "triton_planned_looped_b", k);
    DiffersAt(name, MATCHED, k);
    DiffersAt(name, "triton_planned_w", k);
    DiffersAt(name, "triton_looped_b", k);
    DiffersAt(name, "triton_rows_looped_r", k);
    DiffersAt(name, "triton_b", k);
  }

  /** Behind "triton_", one character tells the prefixes apart. */
  lemma PrefixesByEighth(name: string)
    requires |name| > 7
    ensures name[7] != 'p' ==> !StartsWith(name, "triton_planned_looped_b") && !StartsWith(name, "triton_planned_w")
    ensures name[7] != 'm' ==> !StartsWith(name, MATCHED)
    ensures name[7] != 'l' ==> !StartsWith(name, "triton_looped_b")
    ensures name[7] != 'r' ==> !StartsWith(name, "triton_rows_looped_r")
    ensures name[7] != 'b' ==> !StartsWith(name, "triton_b")
  {
    if name[7] != 'p' { DiffersAt(name, "triton_planned_looped_b", 7); DiffersAt(name, "triton_planned_w", 7); }
    if name[7] != 'm' { DiffersAt(name, MATCHED, 7); }
    if name[7] != 'l' { DiffersAt(name, "triton_looped_b", 7); }
    if name[7] != 'r' { DiffersAt(name, "triton_rows_looped_r", 7); }
    if name[7] != 'b' { DiffersAt(name, "triton_b", 7); }
  }

  lemma CandidatePrefixes(c: Candidate)
    ensures Prefixes(Text(c), c.PlannedLooped?, c.Matched?, c.Looped?, c.Fixed?)
  {
    match c
    case SwageWarp => NoPrefix(Text(c));
    case SwageCta => NoPrefix(Text(c));
    case SwageMixed => NoPrefix(Text(c));
    case TorchSegmentReduce => NoPrefix(Text(c));
    case TorchPadded => NoPrefix(Text(c));
    case TritonFused => PrefixesByEighth(Text(c));
    case Fixed(b, w) =>
      PrefixesByEighth(Text(c));
      Begins("triton_b", Config(b, w));
    case Matched(w) => MatchedPrefixes(w);
    case Looped(b, w) =>
      PrefixesByEighth(Text(c));
      Begins("triton_looped_b", Config(b, w));
    case PlannedLooped(b, w) => PlannedPrefixes(b, w);
  }

  lemma MatchedPrefixes(w: nat)
    ensures Prefixes(Text(Matched(w)), false, true, false, false)
  {
    var name := Text(Matched(w));
    PrefixesByEighth(name);
    Begins(MATCHED, if w == 1 then "" else "_w" + Dec(w));
    assert MATCHED + "" == MATCHED && MATCHED + ("_w" + Dec(w)) == MATCHED + "_w" + Dec(w);
    hide StartsWith, Dec;
  }

  lemma PlannedPrefixes(b: nat, w: nat)
    ensures Prefixes(Text(PlannedLooped(b, w)), true, false, false, false)
  {
    var name := Text(PlannedLooped(b, w));
    PrefixesByEighth(name);
    Begins("triton_planned_looped_b", Config(b, w));
    DiffersAt(name, "triton_planned_w", 15);
    hide StartsWith, Config;
  }

  lemma FamilyNext(table: Table, name: string)
    requires table != []
    ensures Family(table, name) == if StartsWith(name, table[0].0) then table[0].1 else Family(table[1..], name)
  {
  }

  lemma FamilyFromPrefixes(name: string, planned: bool, matched: bool, looped: bool, fixed: bool)
    requires Prefixes(name, planned, matched, looped, fixed)
    ensures Family(HARNESS_FAMILIES, name) == Family(VALIDATOR_FAMILIES, name)
         == if planned then "triton_planned_looped" else if matched then MATCHED
            else if looped then "triton_looped" else if fixed then "triton_fixed" else name
  {
    var h, v := HARNESS_FAMILIES, VALIDATOR_FAMILIES;
    hide StartsWith, Family;
    FamilyNext(h, name);
    FamilyNext(h[1..], name);
    FamilyNext(h[2..], name);
    FamilyNext(h[3..], name);
    FamilyNext(h[4..], name);
    FamilyNext(h[5..], name);
    assert h[1..][1..] == h[2..] && h[2..][1..] == h[3..] && h[3..][1..] == h[4..] && h[4..][1..] == h[5..];
    assert h[5..][1..] == [];
    FamilyNext(v, name);
    FamilyNext(v[1..], name);
    FamilyNext(v[2..], name);
    FamilyNext(v[3..], name);
    assert v[1..][1..] == v[2..] && v[2..][1..] == v[3..] && v[3..][1..] == [];
    FamilyOfNoTable(name);
  }

  lemma FamilyOfNoTable(name: string)
    ensures Family([], name) == name
  {
  }

  /** The two tables differ, but not on the name of any candidate. */
  lemma TablesAgree(c: Candidate)
    ensures Family(HARNESS_FAMILIES, Text(c)) == FamilyOf(c) == Family(VALIDATOR_FAMILIES, Text(c))
  {
    CandidatePrefixes(c);
    FamilyFromPrefixes(Text(c), c.PlannedLooped?, c.Matched?, c.Looped?, c.Fixed?);
    hide Family, Text, Prefixes;
  }

  lemma LiteralsDiffer(c: Candidate, d: Candidate)
    requires FamilyOf(c) == Text(c) == Text(d) == FamilyOf(d)
    requires !c.Fixed? && !c.Matched? && !c.Looped? && !c.PlannedLooped? && !d.Fixed? && !d.Matched? && !d.Looped?
    requires !d.PlannedLooped?
    ensures c == d
  {
    assert |Text(c)| == |Text(d)| && Text(c)[1] == Text(d)[1];
    assert Text(c)[1] == match c case SwageWarp => 'w' case SwageCta => 'w' case SwageMixed => 'w'
      case TorchSegmentReduce => 'o' case TorchPadded => 'o' case _ => 'r';
    assert |Text(c)| == match c case SwageWarp => 10 case SwageCta => 9 case SwageMixed => 11
      case TorchSegmentReduce => 20 case TorchPadded => 12 case _ => 12;
    assert |Text(d)| == match d case SwageWarp => 10 case SwageCta => 9 case SwageMixed => 11
      case TorchSegmentReduce => 20 case TorchPadded => 12 case _ => 12;
    assert Text(d)[1] == match d case SwageWarp => 'w' case SwageCta => 'w' case SwageMixed => 'w'
      case TorchSegmentReduce => 'o' case TorchPadded => 'o' case _ => 'r';
    hide Text;
  }

  /** No two candidates share a name. */
  lemma NamesAreDistinct(c: Candidate, d: Candidate)
    requires Text(c) == Text(d)
    ensures c == d
  {
    CandidatePrefixes(c);
    CandidatePrefixes(d);
    hide StartsWith, Config, Dec;
    match c
    case Fixed(b, w) =>
      SameSuffix("triton_b", Config(b, w), Config(d.block, d.warps));
      ConfigIsInjective(b, w, d.block, d.warps);
    case Looped(b, w) =>
      SameSuffix("triton_looped_b", Config(b, w), Config(d.block, d.warps));
      ConfigIsInjective(b, w, d.block, d.warps);
    case PlannedLooped(b, w) =>
      SameSuffix("triton_planned_looped_b", Config(b, w), Config(d.block, d.warps));
      ConfigIsInjective(b, w, d.block, d.warps);
    case Matched(w) =>
      MatchedNamesAreDistinct(w, d.warps);
    case _ =>
      LiteralsDiffer(c, d);
  }

  lemma MatchedNamesAreDistinct(w: nat, x: nat)
    requires Text(Matched(w)) == Text(Matched(x))
    ensures w == x
  {
    assert |MATCHED + "_w" + Dec(w)| > |MATCHED| && |MATCHED + "_w" + Dec(x)| > |MATCHED|;
    if w != 1 && x != 1 {
      assert MATCHED + "_w" + Dec(w) == MATCHED + ("_w" + Dec(w));
      assert MATCHED + "_w" + Dec(x) == MATCHED + ("_w" + Dec(x));
      SameSuffix(MATCHED, "_w" + Dec(w), "_w" + Dec(x));
      SameSuffix("_w", Dec(w), Dec(x));
      DecIsInjective(w, x);
    }
  }
}
