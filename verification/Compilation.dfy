/**
 The compilation phase: which kernels are compiled, in which order, and their totals.
 The harness derives them from the cases, the validator from the recorded rows.
 */
module Compilation {
  import opened Wrappers
  import opened Sorting
  import opened Sums
  import opened Rotation
  import opened TaskPartition
  import opened CandidateNames
  import opened CandidateSelection
  import CompiledTasks
  import PaddedInputs

  datatype Signature = Signature(valueCount: int, segmentCount: nat, warpTasks: nat, ctaTasks: nat, warpPrograms: nat,
                                 candidates: seq<string>)

  /** What a row records about its lengths. */
  datatype RowFacts = RowFacts(total: int, segmentCount: nat, longest: int, warpTasks: nat, ctaTasks: nat,
                               warpPrograms: nat)

  datatype Filter = Filter(only: Option<seq<string>>, exclude: seq<string>)

  /** How many lengths are short. */
  function ShortCount(lengths: seq<int>): (n: nat)
    ensures n <= |lengths|
  {
    if lengths == [] then 0
    else ShortCount(lengths[..|lengths| - 1]) + if lengths[|lengths| - 1] <= WARP_MAX_ELEMENTS then 1 else 0
  }

  function CaseSignature(lengths: seq<int>, candidates: seq<string>): Signature {
    var short := ShortCount(lengths);
    Signature(Sum(lengths), |lengths|, short, |lengths| - short, PackedPrograms(short), candidates)
  }

  /** The row of a case: its tasks are the two lists of the partition. */
  function RowOf(lengths: seq<int>): RowFacts {
    var warpTasks, ctaTasks := |ShortIds(lengths, |lengths|)|, |LongIds(lengths, |lengths|)|;
    RowFacts(Sum(lengths), |lengths|, PaddedInputs.Longest(lengths), warpTasks, ctaTasks, PackedPrograms(warpTasks))
  }

  function HarnessSignature(lengths: seq<int>, f: Filter): Signature {
    var longest := PaddedInputs.Longest(lengths);
    CaseSignature(lengths, CaseCandidates(longest, f.only, f.exclude, HARNESS_FAMILIES, LengthLimits(longest)))
  }

  function ValidatorSignature(row: RowFacts, f: Filter): Signature {
    Signature(row.total, row.segmentCount, row.warpTasks, row.ctaTasks, row.warpPrograms,
              CaseCandidates(row.longest, f.only, f.exclude, VALIDATOR_FAMILIES, LengthUnable(row.longest)))
  }

  lemma {:induction false} ShortCountIs(lengths: seq<int>, n: nat)
    requires n <= |lengths|
    ensures |ShortIds(lengths, n)| == ShortCount(lengths[..n]) && |LongIds(lengths, n)| == n - ShortCount(lengths[..n])
  {
    if n > 0 {
      ShortCountIs(lengths, n - 1);
      assert lengths[..n][..n - 1] == lengths[..n - 1];
    }
  }

  lemma {:induction false} ShortCountCounts(lengths: seq<int>)
    ensures ShortCount(lengths) == |set i | 0 <= i < |lengths| && lengths[i] <= 32|
  {
    var all := set i | 0 <= i < |lengths| && lengths[i] <= 32;
    if lengths == [] {
      assert all == {};
    } else {
      var n := |lengths| - 1;
      var before := lengths[..n];
      ShortCountCounts(before);
      var fewer := set i | 0 <= i < |before| && before[i] <= 32;
      assert all == if lengths[n] <= 32 then fewer + {n} else fewer;
    }
  }

  /** A signature counts the segments of at most 32 elements, the others, and programs of up to four short ones. */
  lemma SignatureIs(lengths: seq<int>, candidates: seq<string>)
    ensures var s := CaseSignature(lengths, candidates);
            && s.warpTasks == |set i | 0 <= i < |lengths| && lengths[i] <= 32|
            && s.warpTasks + s.ctaTasks == s.segmentCount == |lengths|
            && 4 * (s.warpPrograms - 1) < s.warpTasks <= 4 * s.warpPrograms
            && s.valueCount == Sum(lengths) && s.candidates == candidates
  {
    ShortCountCounts(lengths);
  }

  /** The validator recomputes, from a row, the signature the harness compiled. */
  lemma SignaturesAgree(lengths: seq<int>, f: Filter)
    ensures ValidatorSignature(RowOf(lengths), f) == HarnessSignature(lengths, f)
  {
    ShortCountIs(lengths, |lengths|);
    assert lengths[..|lengths|] == lengths;
    CaseCandidatesAgree(PaddedInputs.Longest(lengths), f.only, f.exclude);
    hide CaseCandidates, Sum, ShortIds, LongIds, ShortCount;
  }

  // ------------------------------------------------- what the cases compile

  predicate TimedBy(s: Signature, name: string, table: Table) {
    exists i :: 0 <= i < |s.candidates| && (s.candidates[i] == name || Family(table, s.candidates[i]) == name)
  }

  datatype Kernel = FixedKernel | LoopedKernel | PlannedLoopedKernel | MatchedKernel

  function KernelText(k: Kernel, block: nat, warps: nat): string {
    match k
    case FixedKernel => Text(Fixed(block, warps))
    case LoopedKernel => Text(Looped(block, warps))
    case PlannedLoopedKernel => Text(PlannedLooped(block, warps))
    case MatchedKernel => Text(Matched(warps))
  }

  /** A kernel that only CTA tasks launch. */
  predicate NeedsTasks(k: Kernel) {
    k.PlannedLoopedKernel? || k.MatchedKernel?
  }

  predicate Uses(signatures: seq<Signature>, k: Kernel, block: nat, warps: nat, table: Table) {
    exists i :: 0 <= i < |signatures| && (NeedsTasks(k) ==> signatures[i].ctaTasks != 0)
             && TimedBy(signatures[i], KernelText(k, block, warps), table)
  }

  function Used(configs: seq<(nat, nat)>, signatures: seq<Signature>, k: Kernel, table: Table): seq<(nat, nat)> {
    if configs == [] then []
    else
      var before, c := Used(configs[..|configs| - 1], signatures, k, table), configs[|configs| - 1];
      if Uses(signatures, k, c.0, c.1, table) then before + [c] else before
  }

  predicate Packs(s: Signature, table: Table) {
    s.warpTasks != 0 && (TimedBy(s, MATCHED, table) || TimedBy(s, "triton_planned_looped", table))
  }

  function FusedPrograms(signatures: seq<Signature>, table: Table): seq<nat> {
    if signatures == [] then []
    else
      var before, s := FusedPrograms(signatures[..|signatures| - 1], table), signatures[|signatures| - 1];
      if TimedBy(s, "triton_fused", table) then before + [s.warpPrograms] else before
  }

  predicate ConfigOrder(a: (nat, nat), b: (nat, nat)) {
    a.0 < b.0 || (a.0 == b.0 && a.1 <= b.1)
  }

  predicate NatOrder(a: nat, b: nat) {
    a <= b
  }

  datatype Configurations = Configurations(fixed: seq<(nat, nat)>, packed: bool, matched: seq<(nat, nat)>,
                                           fused: seq<nat>,
                                           looped: seq<(nat, nat)>, plannedLooped: seq<(nat, nat)>)

  const MATCHED_CONFIGS: seq<(nat, nat)> := [(CTA_BLOCK, 1), (CTA_BLOCK, 2), (CTA_BLOCK, 4), (CTA_BLOCK, 8)]

  function ConfigurationsOf(signatures: seq<Signature>, table: Table): Configurations {
    Configurations(
      SortedSet(Used(Configs(FIXED_BLOCKS, 0), signatures, FixedKernel, table), ConfigOrder),
      exists i :: 0 <= i < |signatures| && Packs(signatures[i], table),
      Used(MATCHED_CONFIGS, signatures, MatchedKernel, table),
      SortedSet(FusedPrograms(signatures, table), NatOrder),
      Used(LoopedConfigs(), signatures, LoopedKernel, table),
      Used(LoopedConfigs(), signatures, PlannedLoopedKernel, table))
  }

  /** The name of a compiled component. */
  function ComponentText(k: Kernel, c: (nat, nat)): string {
    match k
    case FixedKernel => "triton_b" + Config(c.0, c.1)
    case LoopedKernel => "triton_looped_b" + Config(c.0, c.1)
    case PlannedLoopedKernel => "triton_planned_looped_cta_b" + Config(c.0, c.1)
    case MatchedKernel => "triton_matched_cta_w" + Dec(c.1)
  }

  function ComponentTexts(k: Kernel, configs: seq<(nat, nat)>): seq<string> {
    seq(|configs|, i requires 0 <= i < |configs| => ComponentText(k, configs[i]))
  }

  function TritonComponents(c: Configurations): seq<string> {
    ComponentTexts(FixedKernel, c.fixed) + (if c.packed then ["triton_matched_packed"] else [])
    + ComponentTexts(MatchedKernel, c.matched) + (if c.fused != [] then ["triton_fused"] else [])
    + ComponentTexts(LoopedKernel, c.looped) + ComponentTexts(PlannedLoopedKernel, c.plannedLooped)
  }

  // ------------------------------------------------- what the configurations are

  /** A name is timed in a case by a candidate of that name or of that family. */
  ghost predicate Times(s: Signature, name: string, table: Table) {
    exists candidate :: candidate in s.candidates && (candidate == name || Family(table, candidate) == name)
  }

  lemma TimesIff(s: Signature, name: string, table: Table)
    ensures TimedBy(s, name, table) <==> Times(s, name, table)
  {
    hide Family;
    if TimedBy(s, name, table) {
      var i :| 0 <= i < |s.candidates| && (s.candidates[i] == name || Family(table, s.candidates[i]) == name);
      assert s.candidates[i] in s.candidates;
    }
  }

  /** Some case times a name; when tasks are needed, a case with CTA tasks. */
  ghost predicate SomeCaseTimes(signatures: seq<Signature>, name: string, needsTasks: bool, table: Table) {
    exists s :: s in signatures && (needsTasks ==> s.ctaTasks > 0) && Times(s, name, table)
  }

  lemma UsesIff(signatures: seq<Signature>, k: Kernel, c: (nat, nat), table: Table)
    ensures Uses(signatures, k, c.0, c.1, table)
       <==> SomeCaseTimes(signatures, KernelText(k, c.0, c.1), k == PlannedLoopedKernel || k == MatchedKernel, table)
  {
    hide TimedBy, Times, KernelText;
    var name := KernelText(k, c.0, c.1);
    forall s: Signature ensures TimedBy(s, name, table) <==> Times(s, name, table) {
      TimesIff(s, name, table);
    }
    if Uses(signatures, k, c.0, c.1, table) {
      var i :| && 0 <= i < |signatures| && (NeedsTasks(k) ==> signatures[i].ctaTasks != 0)
               && TimedBy(signatures[i], name, table);
      assert signatures[i] in signatures;
    }
  }

  lemma {:induction false} UsedIff(configs: seq<(nat, nat)>, signatures: seq<Signature>, k: Kernel, table: Table,
                                   c: (nat, nat))
    ensures c in Used(configs, signatures, k, table) <==> c in configs && Uses(signatures, k, c.0, c.1, table)
  {
    hide Uses;
    if configs != [] {
      var before, last := configs[..|configs| - 1], configs[|configs| - 1];
      UsedIff(before, signatures, k, table, c);
      assert configs == before + [last];
    }
  }

  lemma {:induction false} UsedRises(configs: seq<(nat, nat)>, signatures: seq<Signature>, k: Kernel, table: Table)
    requires InSweepOrder(configs)
    ensures InSweepOrder(Used(configs, signatures, k, table))
  {
    hide Uses;
    if configs != [] {
      var before, last := configs[..|configs| - 1], configs[|configs| - 1];
      UsedRises(before, signatures, k, table);
      var used := Used(before, signatures, k, table);
      forall i | 0 <= i < |used|
        ensures used[i].0 < last.0 || (used[i].0 == last.0 && used[i].1 < last.1)
      {
        UsedIff(before, signatures, k, table, used[i]);
        assert used[i] in used;
        var j :| 0 <= j < |before| && before[j] == used[i];
      }
    }
  }

  lemma {:induction false} FusedIff(signatures: seq<Signature>, table: Table, n: nat)
    ensures n in FusedPrograms(signatures, table)
       <==> exists s :: s in signatures && Times(s, "triton_fused", table) && s.warpPrograms == n
  {
    hide TimedBy, Times;
    if signatures != [] {
      var before, last := signatures[..|signatures| - 1], signatures[|signatures| - 1];
      FusedIff(before, table, n);
      TimesIff(last, "triton_fused", table);
      assert forall s :: s in signatures <==> s in before || s == last;
    }
  }

  lemma PackedIff(signatures: seq<Signature>, table: Table)
    ensures ConfigurationsOf(signatures, table).packed
       <==> exists s :: && s in signatures && s.warpTasks > 0
                        && (Times(s, MATCHED, table) || Times(s, "triton_planned_looped", table))
  {
    hide TimedBy, Times, SortedSet, Used, FusedPrograms;
    forall s: Signature
      ensures Packs(s, table)
         <==> s.warpTasks > 0 && (Times(s, MATCHED, table) || Times(s, "triton_planned_looped", table))
    {
      TimesIff(s, MATCHED, table);
      TimesIff(s, "triton_planned_looped", table);
    }
    if ConfigurationsOf(signatures, table).packed {
      var i :| 0 <= i < |signatures| && Packs(signatures[i], table);
      assert signatures[i] in signatures;
    }
  }

  lemma OrdersAreTotal()
    ensures TotalOrder(ConfigOrder) && TotalOrder(NatOrder)
  {
  }

  /** A configuration is compiled exactly when some case times it; the CTA kernels need a case with CTA tasks. */
  lemma CompiledIff(signatures: seq<Signature>, table: Table, c: (nat, nat))
    ensures var k := ConfigurationsOf(signatures, table);
            && (c in k.fixed <==>
                  && c.0 in [32, 64, 128, 256, 512, 1024, 2048, 4096] && c.1 in [1, 2, 4, 8] && 32 * c.1 <= c.0
                  && SomeCaseTimes(signatures, Text(Fixed(c.0, c.1)), false, table))
            && (c in k.matched <==>
                  c.0 == 4096 && c.1 in [1, 2, 4, 8] && SomeCaseTimes(signatures, Text(Matched(c.1)), true, table))
            && (c in k.looped <==>
                  && c.0 in [128, 256, 512, 1024] && c.1 in [1, 2, 4, 8] && 32 * c.1 <= c.0
                  && SomeCaseTimes(signatures, Text(Looped(c.0, c.1)), false, table))
            && (c in k.plannedLooped <==>
                  && c.0 in [128, 256, 512, 1024] && c.1 in [1, 2, 4, 8] && 32 * c.1 <= c.0
                  && SomeCaseTimes(signatures, Text(PlannedLooped(c.0, c.1)), true, table))
  {
    hide Uses, SomeCaseTimes, Text, Configs, SortedSet, FusedPrograms, Packs, Used;
    OrdersAreTotal();
    SortedSetIs(Used(Configs(FIXED_BLOCKS, 0), signatures, FixedKernel, table), ConfigOrder);
    UsedIff(Configs(FIXED_BLOCKS, 0), signatures, FixedKernel, table, c);
    UsedIff(MATCHED_CONFIGS, signatures, MatchedKernel, table, c);
    UsedIff(LoopedConfigs(), signatures, LoopedKernel, table, c);
    UsedIff(LoopedConfigs(), signatures, PlannedLoopedKernel, table, c);
    ConfigsIff(FIXED_BLOCKS, 0, c);
    ConfigsIff(LOOPED_BLOCKS, 0, c);
    MatchedConfigsIff(c);
    UsesIff(signatures, FixedKernel, c, table);
    UsesIff(signatures, MatchedKernel, c, table);
    UsesIff(signatures, LoopedKernel, c, table);
    UsesIff(signatures, PlannedLoopedKernel, c, table);
  }

  lemma MatchedConfigsIff(c: (nat, nat))
    ensures c in MATCHED_CONFIGS <==> c.0 == 4096 && c.1 in WARPS
  {
  }

  /** The fused kernel is compiled for the program counts of the cases that time it. */
  lemma FusedCompiledIff(signatures: seq<Signature>, table: Table, n: nat)
    ensures n in ConfigurationsOf(signatures, table).fused
       <==> exists s :: s in signatures && Times(s, "triton_fused", table) && s.warpPrograms == n
  {
    OrdersAreTotal();
    SortedSetIs(FusedPrograms(signatures, table), NatOrder);
    FusedIff(signatures, table, n);
    hide SortedSet, FusedPrograms, Packs, Used, Times;
  }

  /** Every list of configurations rises, so each is compiled once. */
  lemma ConfigurationsRise(signatures: seq<Signature>, table: Table)
    ensures var k := ConfigurationsOf(signatures, table);
            && InSweepOrder(k.fixed) && InSweepOrder(k.matched) && InSweepOrder(k.looped)
            && InSweepOrder(k.plannedLooped) && Rising(k.fused)
  {
    hide Uses, Configs, SortedSet, FusedPrograms, Packs, Used;
    OrdersAreTotal();
    SortedSetIs(Used(Configs(FIXED_BLOCKS, 0), signatures, FixedKernel, table), ConfigOrder);
    SortedSetIs(FusedPrograms(signatures, table), NatOrder);
    ConfigsRise(LOOPED_BLOCKS, 0);
    UsedRises(MATCHED_CONFIGS, signatures, MatchedKernel, table);
    UsedRises(LoopedConfigs(), signatures, LoopedKernel, table);
    UsedRises(LoopedConfigs(), signatures, PlannedLoopedKernel, table);
  }

  // ---------------------------------------------------- distinct components

  /** Where the components of a kernel stand, by the letters of the name. */
  function Group(name: string): nat {
    if |name| <= 7 || name[0] != 't' then 0
    else if name[7] == 'b' then 1
    else if name[7] == 'm' then (if |name| > 15 && name[15] == 'p' then 2 else 3)
    else if name[7] == 'f' then 4
    else if name[7] == 'l' then 5
    else 6
  }

  function GroupOf(k: Kernel): nat {
    match k
    case FixedKernel => 1
    case MatchedKernel => 3
    case LoopedKernel => 5
    case PlannedLoopedKernel => 6
  }

  lemma ComponentGroup(k: Kernel, c: (nat, nat))
    ensures Group(ComponentText(k, c)) == GroupOf(k)
  {
  }

  lemma NamedGroups()
    ensures Group("triton_matched_packed") == 2 && Group("triton_fused") == 4
  {
  }

  /** The components of the fixed and the looping kernel are named like the candidates. */
  lemma ComponentIsCandidate(block: nat, warps: nat)
    ensures ComponentText(FixedKernel, (block, warps)) == Text(Fixed(block, warps))
    ensures ComponentText(LoopedKernel, (block, warps)) == Text(Looped(block, warps))
  {
  }

  lemma ComponentIsInjective(k: Kernel, c: (nat, nat), d: (nat, nat))
    requires ComponentText(k, c) == ComponentText(k, d)
    ensures c.1 == d.1 && (k != MatchedKernel ==> c == d)
  {
    hide Config, Dec;
    match k
    case FixedKernel =>
      SameSuffix("triton_b", Config(c.0, c.1), Config(d.0, d.1));
      ConfigIsInjective(c.0, c.1, d.0, d.1);
    case LoopedKernel =>
      SameSuffix("triton_looped_b", Config(c.0, c.1), Config(d.0, d.1));
      ConfigIsInjective(c.0, c.1, d.0, d.1);
    case PlannedLoopedKernel =>
      SameSuffix("triton_planned_looped_cta_b", Config(c.0, c.1), Config(d.0, d.1));
      ConfigIsInjective(c.0, c.1, d.0, d.1);
    case MatchedKernel =>
      SameSuffix("triton_matched_cta_w", Dec(c.1), Dec(d.1));
      DecIsInjective(c.1, d.1);
  }

  ghost predicate InGroups(names: seq<string>, low: nat, high: nat) {
    forall i :: 0 <= i < |names| ==> low <= Group(names[i]) <= high
  }

  lemma GroupsConcat(a: seq<string>, b: seq<string>, low: nat, k: nat, high: nat)
    requires Unique(a) && Unique(b) && low <= k < high && InGroups(a, low, k) && InGroups(b, k + 1, high)
    ensures Unique(a + b) && InGroups(a + b, low, high)
  {
    hide Group;
    forall i, j | 0 <= i < |a| && 0 <= j < |b| ensures a[i] != b[j] {
      assert Group(a[i]) <= k < Group(b[j]);
    }
    UniqueConcat(a, b);
  }

  lemma ComponentsOfKernel(k: Kernel, configs: seq<(nat, nat)>)
    requires InSweepOrder(configs) && (k == MatchedKernel ==> forall c :: c in configs ==> c.0 == 4096)
    ensures Unique(ComponentTexts(k, configs)) && InGroups(ComponentTexts(k, configs), GroupOf(k), GroupOf(k))
  {
    hide ComponentText, Group;
    var names := ComponentTexts(k, configs);
    forall i | 0 <= i < |names| ensures Group(names[i]) == GroupOf(k) {
      ComponentGroup(k, configs[i]);
    }
    forall i, j | 0 <= i < j < |names| ensures names[i] != names[j] {
      assert configs[i] in configs && configs[j] in configs;
      if names[i] == names[j] { ComponentIsInjective(k, configs[i], configs[j]); }
    }
  }

  lemma MatchedAreOfBlock(signatures: seq<Signature>, table: Table)
    ensures forall c :: c in ConfigurationsOf(signatures, table).matched ==> c.0 == 4096
  {
    forall c | c in ConfigurationsOf(signatures, table).matched ensures c.0 == 4096 {
      CompiledIff(signatures, table, c);
    }
    hide ConfigurationsOf;
  }

  /** No two Triton components share a name. */
  lemma TritonAreDistinct(signatures: seq<Signature>, table: Table)
    ensures var names := TritonComponents(ConfigurationsOf(signatures, table)); Unique(names) && InGroups(names, 1, 6)
  {
    var c := ConfigurationsOf(signatures, table);
    ConfigurationsRise(signatures, table);
    MatchedAreOfBlock(signatures, table);
    ComponentsOfKernel(FixedKernel, c.fixed);
    ComponentsOfKernel(MatchedKernel, c.matched);
    ComponentsOfKernel(LoopedKernel, c.looped);
    ComponentsOfKernel(PlannedLoopedKernel, c.plannedLooped);
    NamedGroups();
    hide ConfigurationsOf, ComponentTexts, Group, Config, InSweepOrder, Rising;
    var packed := if c.packed then ["triton_matched_packed"] else [];
    var fused := if c.fused != [] then ["triton_fused"] else [];
    assert Unique(packed) && InGroups(packed, 2, 2) && Unique(fused) && InGroups(fused, 4, 4);
    hide Unique, InGroups;
    var a, b, d, e := ComponentTexts(FixedKernel, c.fixed), ComponentTexts(MatchedKernel, c.matched),
                      ComponentTexts(LoopedKernel, c.looped), ComponentTexts(PlannedLoopedKernel, c.plannedLooped);
    GroupsConcat(a, packed, 1, 1, 2);
    GroupsConcat(a + packed, b, 1, 2, 3);
    GroupsConcat(a + packed + b, fused, 1, 3, 4);
    GroupsConcat(a + packed + b + fused, d, 1, 4, 5);
    GroupsConcat(a + packed + b + fused + d, e, 1, 5, 6);
  }

  lemma SwageAreDistinct(direct: bool, split: bool)
    ensures Unique(SwageSteps(direct, split)) && InGroups(SwageSteps(direct, split), 0, 0)
  {
    assert |"swage_warp"| == 10 && |"swage_cta"| == 9 && |"swage_mixed"| == |"swage_merge"| == 11;
    assert |"swage_partial"| == 13 && "swage_mixed"[7] == 'i' && "swage_merge"[7] == 'e';
  }

  /** Every component of a phase is named once. */
  lemma ComponentsAreDistinct(swage: seq<string>, direct: bool, split: bool, signatures: seq<Signature>)
    requires swage == [] || swage == SwageSteps(direct, split)
    ensures Unique(swage + TritonComponents(ConfigurationsOf(signatures, HARNESS_FAMILIES)))
  {
    TritonAreDistinct(signatures, HARNESS_FAMILIES);
    SwageAreDistinct(direct, split);
    hide SwageSteps, TritonComponents, ConfigurationsOf, Group;
    GroupsConcat(swage, TritonComponents(ConfigurationsOf(signatures, HARNESS_FAMILIES)), 0, 0, 6);
  }

  // ---------------------------------------------- the two derivations agree

  lemma TimedAgrees(s: Signature, name: string)
    requires Agreed(s.candidates)
    ensures TimedBy(s, name, HARNESS_FAMILIES) == TimedBy(s, name, VALIDATOR_FAMILIES)
  {
    hide Family;
  }

  ghost predicate AllAgreed(signatures: seq<Signature>) {
    forall i :: 0 <= i < |signatures| ==> Agreed(signatures[i].candidates)
  }

  lemma UsesAgree(signatures: seq<Signature>, k: Kernel, block: nat, warps: nat)
    requires AllAgreed(signatures)
    ensures Uses(signatures, k, block, warps, HARNESS_FAMILIES) == Uses(signatures, k, block, warps, VALIDATOR_FAMILIES)
  {
    var name := KernelText(k, block, warps);
    hide TimedBy, KernelText, Agreed;
    forall i | 0 <= i < |signatures|
      ensures TimedBy(signatures[i], name, HARNESS_FAMILIES) == TimedBy(signatures[i], name, VALIDATOR_FAMILIES)
    {
      TimedAgrees(signatures[i], name);
    }
  }

  lemma {:induction false} UsedAgrees(configs: seq<(nat, nat)>, signatures: seq<Signature>, k: Kernel)
    requires AllAgreed(signatures)
    ensures Used(configs, signatures, k, HARNESS_FAMILIES) == Used(configs, signatures, k, VALIDATOR_FAMILIES)
  {
    hide Uses, AllAgreed;
    if configs != [] {
      UsedAgrees(configs[..|configs| - 1], signatures, k);
      UsesAgree(signatures, k, configs[|configs| - 1].0, configs[|configs| - 1].1);
    }
  }

  lemma PacksAgree(s: Signature)
    requires Agreed(s.candidates)
    ensures Packs(s, HARNESS_FAMILIES) == Packs(s, VALIDATOR_FAMILIES)
  {
    TimedAgrees(s, MATCHED);
    TimedAgrees(s, "triton_planned_looped");
    hide TimedBy;
  }

  lemma {:induction false} FusedAgrees(signatures: seq<Signature>)
    requires AllAgreed(signatures)
    ensures FusedPrograms(signatures, HARNESS_FAMILIES) == FusedPrograms(signatures, VALIDATOR_FAMILIES)
  {
    hide TimedBy, Agreed;
    if signatures != [] {
      FusedAgrees(signatures[..|signatures| - 1]);
      TimedAgrees(signatures[|signatures| - 1], "triton_fused");
    }
  }

  lemma ConfigurationsAgree(signatures: seq<Signature>)
    requires AllAgreed(signatures)
    ensures ConfigurationsOf(signatures, HARNESS_FAMILIES) == ConfigurationsOf(signatures, VALIDATOR_FAMILIES)
  {
    hide Used, Packs, FusedPrograms, Agreed, SortedSet, Configs, LoopedConfigs;
    UsedAgrees(Configs(FIXED_BLOCKS, 0), signatures, FixedKernel);
    UsedAgrees(MATCHED_CONFIGS, signatures, MatchedKernel);
    UsedAgrees(LoopedConfigs(), signatures, LoopedKernel);
    UsedAgrees(LoopedConfigs(), signatures, PlannedLoopedKernel);
    FusedAgrees(signatures);
    forall i | 0 <= i < |signatures|
      ensures Packs(signatures[i], HARNESS_FAMILIES) == Packs(signatures[i], VALIDATOR_FAMILIES)
    {
      PacksAgree(signatures[i]);
    }
  }

  /** Every case times names of candidates only, where the tables agree. */
  lemma SignatureIsAgreed(lengths: seq<int>, f: Filter)
    ensures Agreed(HarnessSignature(lengths, f).candidates)
  {
    var longest := PaddedInputs.Longest(lengths);
    var full := Texts(RowCandidates(longest));
    CandidatesAgree(RowCandidates(longest));
    var wanted := Select(full, f.only, f.exclude, HARNESS_FAMILIES);
    var able := Able(wanted, LengthLimits(longest), HARNESS_FAMILIES);
    SelectionIsAgreed(full, f.only, f.exclude);
    AbleIs(wanted, LengthLimits(longest), HARNESS_FAMILIES);
    hide Select, Able, Family, RowCandidates, LengthLimits;
    forall i | 0 <= i < |able| ensures Family(HARNESS_FAMILIES, able[i]) == Family(VALIDATOR_FAMILIES, able[i]) {
      assert able[i] in wanted;
      var j :| 0 <= j < |wanted| && wanted[j] == able[i];
    }
  }

  // ------------------------------------------------------------- the record

  datatype Phase = Phase(signatures: seq<Signature>, swageKernels: seq<string>, configurations: Configurations,
                         order: seq<string>, totals: map<string, seq<string>>, timings: map<string, real>)

  datatype Failure = NoCase | EmptyCase | Unclassified(reason: CompiledTasks.Failure) | TimerDidNotAdvance

  predicate UsesSwage(signatures: seq<Signature>) {
    exists i :: 0 <= i < |signatures| &&
      exists j :: 0 <= j < |signatures[i].candidates| && StartsWith(signatures[i].candidates[j], "swage_")
  }

  /** The Swage kernels; a case may have a segment that one task covers, and one that is split. */
  function SwageSteps(direct: bool, split: bool): seq<string> {
    if direct && split then ["swage_warp", "swage_cta", "swage_mixed", "swage_partial", "swage_merge"]
    else if direct then ["swage_warp", "swage_cta", "swage_mixed"]
    else if split then ["swage_warp", "swage_cta", "swage_partial", "swage_merge"]
    else ["swage_warp", "swage_cta"]
  }

  /** The mixed kernel is for a segment that one task covers, the partial and merge kernels for one that is split. */
  lemma StepsIff(direct: bool, split: bool)
    ensures var steps := SwageSteps(direct, split);
            && |steps| >= 2 && steps[0] == "swage_warp" && steps[1] == "swage_cta"
            && ("swage_mixed" in steps <==> direct) && ("swage_partial" in steps <==> split)
            && ("swage_merge" in steps <==> split)
  {
    assert |"swage_warp"| == 10 && |"swage_cta"| == 9 && |"swage_mixed"| == |"swage_merge"| == 11;
    assert |"swage_partial"| == 13 && "swage_mixed"[7] == 'i' && "swage_merge"[7] == 'e';
  }

  lemma SwagePrefix(c: Candidate)
    ensures StartsWith(Text(c), "swage_") <==> c.SwageWarp? || c.SwageCta? || c.SwageMixed?
  {
    if c.SwageWarp? {
      Begins("swage_", "warp");
      assert "swage_" + "warp" == "swage_warp";
    } else if c.SwageCta? {
      Begins("swage_", "cta");
      assert "swage_" + "cta" == "swage_cta";
    } else if c.SwageMixed? {
      Begins("swage_", "mixed");
      assert "swage_" + "mixed" == "swage_mixed";
    } else {
      DiffersAt(Text(c), "swage_", 0);
    }
  }

  /** The Swage kernels are compiled exactly when a case times one of the three Swage candidates. */
  lemma UsesSwageIff(signatures: seq<Signature>)
    requires forall s, name :: s in signatures && name in s.candidates ==> exists c :: name == Text(c)
    ensures UsesSwage(signatures)
       <==> exists s, name :: && s in signatures && name in s.candidates
                              && (name == Text(SwageWarp) || name == Text(SwageCta) || name == Text(SwageMixed))
  {
    hide Text;
    forall s, name | s in signatures && name in s.candidates
      ensures StartsWith(name, "swage_")
         <==> name == Text(SwageWarp) || name == Text(SwageCta) || name == Text(SwageMixed)
    {
      var c :| name == Text(c);
      SwagePrefix(c);
      SwagePrefix(SwageWarp);
      SwagePrefix(SwageCta);
      SwagePrefix(SwageMixed);
    }
    hide StartsWith;
    if UsesSwage(signatures) {
      var i :| 0 <= i < |signatures| &&
        exists j :: 0 <= j < |signatures[i].candidates| && StartsWith(signatures[i].candidates[j], "swage_");
      var j :| 0 <= j < |signatures[i].candidates| && StartsWith(signatures[i].candidates[j], "swage_");
      assert signatures[i] in signatures && signatures[i].candidates[j] in signatures[i].candidates;
    }
  }

  function Kernels(components: seq<string>): seq<string>
    requires forall i :: 0 <= i < |components| ==> |components[i]| >= 6
  {
    seq(|components|, i requires 0 <= i < |components| => components[i][6..])
  }

  /** The kernel sets that a prepared sum compiles. */
  const PREPARED_SETS: seq<seq<string>> := [["warp", "cta"], ["warp", "cta", "mixed"],
                                            ["warp", "cta", "partial", "merge"],
                                            ["warp", "cta", "mixed", "partial", "merge"]]

  /** The Swage components of the recorded kernels, when they are allowed. */
  function SwageComponents(kernels: seq<string>, signatures: seq<Signature>): Option<seq<string>> {
    if !UsesSwage(signatures) then (if kernels == [] then Some([]) else None)
    else if kernels !in PREPARED_SETS then None
    else Some(seq(|kernels|, i requires 0 <= i < |kernels| => "swage_" + kernels[i]))
  }

  /** The totals of the nonempty component lists. */
  function TotalsOf(swage: seq<string>, triton: seq<string>): map<string, seq<string>> {
    (if swage == [] then map[] else map["swage_total" := swage])
    + (if triton == [] then map[] else map["triton_total" := triton])
  }

  function SumOver(names: seq<string>, timings: map<string, real>): real {
    if names == [] then 0.0
    else
      var last := names[|names| - 1];
      SumOver(names[..|names| - 1], timings) + (if last in timings then timings[last] else 0.0)
  }

  function RowsOf(cases: seq<seq<int>>): (rows: seq<RowFacts>)
    ensures |rows| == |cases|
  {
    seq(|cases|, i requires 0 <= i < |cases| => RowOf(cases[i]))
  }

  function ValidatorSignatures(rows: seq<RowFacts>, f: Filter): seq<Signature> {
    seq(|rows|, i requires 0 <= i < |rows| => ValidatorSignature(rows[i], f))
  }

  /** The validator's derivation, from the rows alone. */
  ghost predicate Accepted(p: Phase, rows: seq<RowFacts>, f: Filter) {
    var signatures := ValidatorSignatures(rows, f);
    var swage := SwageComponents(p.swageKernels, signatures);
    var configurations := ConfigurationsOf(signatures, VALIDATOR_FAMILIES);
    var triton := TritonComponents(configurations);
    && p.signatures == signatures && p.configurations == configurations
    && swage.Some? && p.order == swage.value + triton
    && p.totals == TotalsOf(swage.value, triton)
    && p.timings.Keys == Members(swage.value) + Members(triton) + p.totals.Keys
    && (forall name :: name in p.timings ==> p.timings[name] > 0.0)
    && forall name :: name in p.totals ==> p.timings[name] == SumOver(p.totals[name], p.timings)
  }

  // ------------------------------------------------------------- the harness

  ghost predicate Measured(order: seq<string>, timings: map<string, real>) {
    timings.Keys == Members(order) && forall name :: name in timings ==> timings[name] > 0.0
  }

  /** The timings of components in order: the sample of each. */
  ghost function Timings(order: seq<string>, samples: seq<real>): map<string, real>
    requires |order| == |samples|
  {
    if order == [] then map[]
    else
      var n := |order| - 1;
      Timings(order[..n], samples[..n])[order[n] := samples[n]]
  }

  /** One positive sample a component. */
  ghost predicate Sampled(order: seq<string>, timings: map<string, real>, samples: seq<real>) {
    && |samples| == |order| && timings == Timings(order, samples)
    && forall i :: 0 <= i < |samples| ==> samples[i] > 0.0
  }

  /** The timer did not advance over the last component that was compiled. */
  ghost predicate Stopped(samples: seq<real>) {
    && samples != [] && samples[|samples| - 1] <= 0.0
    && forall i :: 0 <= i < |samples| - 1 ==> samples[i] > 0.0
  }

  lemma NextSample(order: seq<string>, timings: map<string, real>, samples: seq<real>, name: string, sample: real)
    requires Sampled(order, timings, samples)
    ensures sample > 0.0 ==> Sampled(order + [name], timings[name := sample], samples + [sample])
    ensures sample <= 0.0 ==> Stopped(samples + [sample])
  {
    assert (order + [name])[..|order|] == order && (samples + [sample])[..|order|] == samples;
  }

  lemma {:induction false} TimingsAre(order: seq<string>, samples: seq<real>)
    requires |order| == |samples|
    ensures Timings(order, samples).Keys == Members(order)
    ensures forall name :: name in Timings(order, samples) ==> Timings(order, samples)[name] in samples
    ensures Unique(order) ==> forall i :: 0 <= i < |order| ==> Timings(order, samples)[order[i]] == samples[i]
  {
    if order != [] {
      var n := |order| - 1;
      TimingsAre(order[..n], samples[..n]);
      assert order == order[..n] + [order[n]] && samples == samples[..n] + [samples[n]];
      assert Members(order) == Members(order[..n]) + {order[n]};
    }
  }

  lemma SampledIsMeasured(order: seq<string>, timings: map<string, real>, samples: seq<real>)
    requires Sampled(order, timings, samples)
    ensures Measured(order, timings)
  {
    TimingsAre(order, samples);
  }

  /** Compiles and times components, one positive sample each. */
  method Measure(components: seq<string>, order: seq<string>, timings: map<string, real>, ghost before: seq<real>)
    returns (advanced: bool, newOrder: seq<string>, newTimings: map<string, real>, ghost samples: seq<real>)
    requires Sampled(order, timings, before)
    ensures advanced ==> newOrder == order + components && Sampled(newOrder, newTimings, samples)
    ensures !advanced ==> Stopped(samples)
  {
    newOrder, newTimings, samples := order, timings, before;
    hide Sampled, Stopped;
    for i := 0 to |components|
      invariant newOrder == order + components[..i] && Sampled(newOrder, newTimings, samples)
    {
      var sample: real := *;
      NextSample(newOrder, newTimings, samples, components[i], sample);
      samples := samples + [sample];
      if sample <= 0.0 {
        return false, newOrder, newTimings, samples;
      }
      newOrder := newOrder + [components[i]];
      newTimings := newTimings[components[i] := sample];
    }
    return true, newOrder, newTimings, samples;
  }

  /** No component is named like a total. */
  ghost predicate NoTotal(names: seq<string>) {
    forall i :: 0 <= i < |names| ==> names[i] != "swage_total" && names[i] != "triton_total"
  }

  lemma TritonIsNoTotal(name: string)
    requires |name| > 7 && name[0] == 't' && name[7] != 't'
    ensures name != "swage_total" && name != "triton_total"
  {
    assert "triton_total"[7] == 't' && "swage_total"[0] == 's';
  }

  lemma ComponentIsNoTotal(k: Kernel, c: (nat, nat))
    ensures ComponentText(k, c) != "swage_total" && ComponentText(k, c) != "triton_total"
  {
    TritonIsNoTotal(ComponentText(k, c));
  }

  lemma ComponentsAreNoTotals(k: Kernel, configs: seq<(nat, nat)>)
    ensures NoTotal(ComponentTexts(k, configs))
  {
    forall i | 0 <= i < |configs|
      ensures ComponentText(k, configs[i]) != "swage_total" && ComponentText(k, configs[i]) != "triton_total"
    {
      ComponentIsNoTotal(k, configs[i]);
    }
  }

  lemma NoTotalConcat(a: seq<string>, b: seq<string>)
    requires NoTotal(a) && NoTotal(b)
    ensures NoTotal(a + b)
  {
  }

  lemma TritonHasNoTotal(c: Configurations)
    ensures NoTotal(TritonComponents(c))
  {
    ComponentsAreNoTotals(FixedKernel, c.fixed);
    ComponentsAreNoTotals(MatchedKernel, c.matched);
    ComponentsAreNoTotals(LoopedKernel, c.looped);
    ComponentsAreNoTotals(PlannedLoopedKernel, c.plannedLooped);
    TritonIsNoTotal("triton_matched_packed");
    TritonIsNoTotal("triton_fused");
    var packed := if c.packed then ["triton_matched_packed"] else [];
    var fused := if c.fused != [] then ["triton_fused"] else [];
    assert NoTotal(packed) && NoTotal(fused);
    hide ComponentTexts, NoTotal;
    var a, b, d, e := ComponentTexts(FixedKernel, c.fixed), ComponentTexts(MatchedKernel, c.matched),
                      ComponentTexts(LoopedKernel, c.looped), ComponentTexts(PlannedLoopedKernel, c.plannedLooped);
    NoTotalConcat(a, packed);
    NoTotalConcat(a + packed, b);
    NoTotalConcat(a + packed + b, fused);
    NoTotalConcat(a + packed + b + fused, d);
    NoTotalConcat(a + packed + b + fused + d, e);
  }

  lemma SwageHasNoTotal(direct: bool, split: bool)
    ensures NoTotal(SwageSteps(direct, split))
  {
    assert |"swage_warp"| == 10 && |"swage_cta"| == 9 && |"swage_total"| == 11 && |"triton_total"| == 12;
    assert "swage_mixed"[6] == 'm' && "swage_merge"[6] == 'm' && "swage_total"[6] == 't' && |"swage_partial"| == 13;
    assert |"swage_mixed"| == 11;
  }

  lemma {:induction false} SumUnchanged(names: seq<string>, timings: map<string, real>, total: string, x: real)
    requires NoTotal(names) && (total == "swage_total" || total == "triton_total")
    ensures SumOver(names, timings[total := x]) == SumOver(names, timings)
  {
    if names != [] {
      SumUnchanged(names[..|names| - 1], timings, total, x);
    }
  }

  lemma {:induction false} SumIsPositive(names: seq<string>, order: seq<string>, timings: map<string, real>)
    requires Measured(order, timings) && forall i :: 0 <= i < |names| ==> names[i] in order
    ensures SumOver(names, timings) >= 0.0 && (names != [] ==> SumOver(names, timings) > 0.0)
  {
    if names != [] {
      SumIsPositive(names[..|names| - 1], order, timings);
      assert names[|names| - 1] in Members(order);
    }
  }

  /** The recorded kernels name the steps again. */
  lemma KernelsNameTheSteps(direct: bool, split: bool)
    ensures var steps := SwageSteps(direct, split);
            && (forall i :: 0 <= i < |steps| ==> |steps[i]| >= 6)
            && Kernels(steps) in PREPARED_SETS
            && seq(|steps|, i requires 0 <= i < |steps| => "swage_" + Kernels(steps)[i]) == steps
  {
    assert "swage_warp"[6..] == "warp" && "swage_cta"[6..] == "cta" && "swage_mixed"[6..] == "mixed";
    assert "swage_partial"[6..] == "partial" && "swage_merge"[6..] == "merge";
    assert "swage_" + "warp" == "swage_warp" && "swage_" + "cta" == "swage_cta" && "swage_" + "mixed" == "swage_mixed";
    assert "swage_" + "partial" == "swage_partial" && "swage_" + "merge" == "swage_merge";
    var kernels := Kernels(SwageSteps(direct, split));
    assert PREPARED_SETS[0] == ["warp", "cta"] && PREPARED_SETS[1] == ["warp", "cta", "mixed"];
    assert PREPARED_SETS[2] == ["warp", "cta", "partial", "merge"];
    assert PREPARED_SETS[3] == ["warp", "cta", "mixed", "partial", "merge"];
    assert kernels == PREPARED_SETS[if direct then (if split then 3 else 1) else if split then 2 else 0];
  }

  lemma PartsAreIn(swage: seq<string>, triton: seq<string>)
    ensures Members(swage + triton) == Members(swage) + Members(triton)
    ensures forall i :: 0 <= i < |swage| ==> swage[i] in swage + triton
    ensures forall i :: 0 <= i < |triton| ==> triton[i] in swage + triton
  {
    forall i | 0 <= i < |triton| ensures triton[i] in swage + triton {
      assert (swage + triton)[|swage| + i] == triton[i];
    }
    forall i | 0 <= i < |swage| ensures swage[i] in swage + triton {
      assert (swage + triton)[i] == swage[i];
    }
  }

  /** Adds the sums of the two component lists. */
  method AddTotals(swage: seq<string>, triton: seq<string>, timings: map<string, real>)
    returns (totals: map<string, seq<string>>, all: map<string, real>)
    requires NoTotal(swage) && NoTotal(triton) && Measured(swage + triton, timings)
    ensures totals == TotalsOf(swage, triton)
    ensures all.Keys == Members(swage) + Members(triton) + totals.Keys
    ensures forall name :: name in all ==> all[name] > 0.0
    ensures forall name :: name in totals ==> all[name] == SumOver(totals[name], all)
    ensures forall i :: 0 <= i < |swage| ==> all[swage[i]] == timings[swage[i]]
    ensures forall i :: 0 <= i < |triton| ==> all[triton[i]] == timings[triton[i]]
  {
    PartsAreIn(swage, triton);
    SumIsPositive(swage, swage + triton, timings);
    SumIsPositive(triton, swage + triton, timings);
    assert forall i :: 0 <= i < |swage| ==> swage[i] != "swage_total" && swage[i] != "triton_total";
    assert forall i :: 0 <= i < |triton| ==> triton[i] != "swage_total" && triton[i] != "triton_total";
    hide NoTotal, SumOver;
    totals, all := map[], timings;
    if swage != [] {
      SumUnchanged(swage, all, "swage_total", SumOver(swage, all));
      SumUnchanged(triton, all, "swage_total", SumOver(swage, all));
      totals := totals["swage_total" := swage];
      all := all["swage_total" := SumOver(swage, all)];
    }
    if triton != [] {
      SumUnchanged(swage, all, "triton_total", SumOver(triton, all));
      SumUnchanged(triton, all, "triton_total", SumOver(triton, all));
      totals := totals["triton_total" := triton];
      all := all["triton_total" := SumOver(triton, all)];
    }
    TotalNamesDiffer();
  }

  lemma TotalNamesDiffer()
    ensures "swage_total" != "triton_total"
  {
    assert |"swage_total"| == 11 && |"triton_total"| == 12;
  }

  lemma DerivedFromRows(cases: seq<seq<int>>, f: Filter, signatures: seq<Signature>)
    requires |signatures| == |cases| && forall i :: 0 <= i < |cases| ==> signatures[i] == HarnessSignature(cases[i], f)
    ensures signatures == ValidatorSignatures(RowsOf(cases), f) && AllAgreed(signatures)
  {
    forall i | 0 <= i < |cases|
      ensures Agreed(signatures[i].candidates) && signatures[i] == ValidatorSignature(RowsOf(cases)[i], f)
    {
      SignatureIsAgreed(cases[i], f);
      SignaturesAgree(cases[i], f);
    }
    hide HarnessSignature, ValidatorSignature, Agreed, RowOf;
  }

  /** The compiled Swage components of the cases, and the kernels recorded for them. */
  function SwageOf(signatures: seq<Signature>, direct: bool, split: bool): (swage: seq<string>)
    ensures NoTotal(swage) && forall i :: 0 <= i < |swage| ==> |swage[i]| >= 6
    ensures swage == [] || swage == SwageSteps(direct, split)
    ensures SwageComponents(Kernels(swage), signatures) == Some(swage)
  {
    SwageHasNoTotal(direct, split);
    KernelsNameTheSteps(direct, split);
    if UsesSwage(signatures) then SwageSteps(direct, split) else []
  }

  /** Every component has a sample of its own, and its timing is that sample. */
  ghost predicate TimesEach(p: Phase, samples: seq<real>) {
    && |samples| == |p.order| && Unique(p.order)
    && forall i :: 0 <= i < |p.order| ==>
         p.order[i] in p.timings && p.timings[p.order[i]] == samples[i] && samples[i] > 0.0
  }

  /** The record of the components: in order, with the totals of both compilers. */
  ghost predicate Completed(p: Phase, signatures: seq<Signature>, swage: seq<string>)
    requires forall i :: 0 <= i < |swage| ==> |swage[i]| >= 6
  {
    var configurations := ConfigurationsOf(signatures, HARNESS_FAMILIES);
    var triton := TritonComponents(configurations);
    && p.signatures == signatures && p.configurations == configurations && p.swageKernels == Kernels(swage)
    && p.order == swage + triton && p.totals == TotalsOf(swage, triton)
    && p.timings.Keys == Members(swage) + Members(triton) + p.totals.Keys
    && (forall name :: name in p.timings ==> p.timings[name] > 0.0)
    && forall name :: name in p.totals ==> p.timings[name] == SumOver(p.totals[name], p.timings)
  }

  /** The signatures of the cases; a case without segments has no longest one and is refused. */
  method SignaturesOf(cases: seq<seq<int>>, f: Filter) returns (r: Result<seq<Signature>, Failure>)
    ensures r.Ok? <==> [] !in cases
    ensures r.Err? ==> r.error == EmptyCase
    ensures r.Ok? ==> |r.value| == |cases| && r.value == ValidatorSignatures(RowsOf(cases), f) && AllAgreed(r.value)
  {
    var signatures := [];
    for i := 0 to |cases|
      invariant |signatures| == i && forall j :: 0 <= j < i ==> signatures[j] == HarnessSignature(cases[j], f)
      invariant [] !in cases[..i]
    {
      if cases[i] == [] {
        return Err(EmptyCase);
      }
      signatures := signatures + [HarnessSignature(cases[i], f)];
    }
    assert cases[..|cases|] == cases;
    hide HarnessSignature;
    DerivedFromRows(cases, f, signatures);
    return Ok(signatures);
  }

  /** The Swage components that the cases need: by the timed candidates, and by the lengths of the segments. */
  ghost function NeededSwage(cases: seq<seq<int>>, f: Filter, chunk: int): seq<string> {
    var direct, split := CompiledTasks.SomeDirect(cases, chunk), CompiledTasks.SomeSplit(cases, chunk);
    SwageOf(ValidatorSignatures(RowsOf(cases), f), direct, split)
  }

  /** The Swage components; the cases are classified only when some candidate is a Swage one. */
  method SwageComponentsOf(cases: seq<seq<int>>, signatures: seq<Signature>, chunk: int)
    returns (r: Result<seq<string>, Failure>)
    ensures r.Ok? <==> (UsesSwage(signatures) ==> forall i :: 0 <= i < |cases| ==>
                         CompiledTasks.Classified(cases[i], WARP_MAX_ELEMENTS, chunk))
    ensures r.Ok? ==>
              var direct, split := CompiledTasks.SomeDirect(cases, chunk), CompiledTasks.SomeSplit(cases, chunk);
              r.value == SwageOf(signatures, direct, split)
    ensures r.Err? ==> r.error.Unclassified?
  {
    if !UsesSwage(signatures) {
      return Ok([]);
    }
    var kinds := CompiledTasks.KindsOfCases(cases, WARP_MAX_ELEMENTS, chunk);
    if kinds.Err? {
      return Err(Unclassified(kinds.error));
    }
    return Ok(SwageOf(signatures, kinds.value.0, kinds.value.1));
  }

  /**
   Every measured compilation phase is the one the validator derives from the rows,
   with the Swage kernels that the lengths need.
  */
  method MeasureSegmentedCompilation(cases: seq<seq<int>>, f: Filter, chunk: int)
    returns (r: Result<Phase, Failure>, ghost samples: seq<real>)
    ensures r == Err(NoCase) <==> cases == []
    ensures r == Err(EmptyCase) <==> [] in cases
    ensures r.Err? && r.error.Unclassified? <==>
              && cases != [] && [] !in cases && UsesSwage(ValidatorSignatures(RowsOf(cases), f))
              && exists i :: 0 <= i < |cases| && !CompiledTasks.Classified(cases[i], WARP_MAX_ELEMENTS, chunk)
    ensures r == Err(TimerDidNotAdvance) ==> Stopped(samples)
    ensures r.Ok? ==> TimesEach(r.value, samples)
    ensures r.Ok? ==>
              Accepted(r.value, RowsOf(cases), f) && r.value.swageKernels == Kernels(NeededSwage(cases, f, chunk))
  {
    hide ConfigurationsOf, ValidatorSignatures, AllAgreed, RowsOf, SwageOf, Kernels, SwageComponents,
      TritonComponents, NoTotal, TotalsOf, SumOver, SwageSteps, Stopped, CompiledTasks.Classified;
    var derived := SignaturesOf(cases, f);
    samples := [];
    if derived.Err? {
      return Err(derived.error), samples;
    }
    var signatures := derived.value;
    if signatures == [] {
      return Err(NoCase), samples;
    }
    ConfigurationsAgree(signatures);
    var compiled := SwageComponentsOf(cases, signatures, chunk);
    if compiled.Err? {
      return Err(compiled.error), samples;
    }
    r, samples := MeasureComponents(signatures, compiled.value, CompiledTasks.SomeDirect(cases, chunk),
                                    CompiledTasks.SomeSplit(cases, chunk));
  }

  lemma EachIsTimed(p: Phase, swage: seq<string>, triton: seq<string>, timings: map<string, real>, samples: seq<real>)
    requires p.order == swage + triton && Unique(p.order) && Sampled(p.order, timings, samples)
    requires Members(swage) + Members(triton) <= p.timings.Keys
    requires Measured(p.order, timings)
    requires forall i :: 0 <= i < |swage| ==> swage[i] in timings && p.timings[swage[i]] == timings[swage[i]]
    requires forall i :: 0 <= i < |triton| ==> triton[i] in timings && p.timings[triton[i]] == timings[triton[i]]
    ensures TimesEach(p, samples)
  {
    TimingsAre(p.order, samples);
    hide Timings, Unique;
    forall i | 0 <= i < |p.order| ensures p.order[i] in p.timings && p.timings[p.order[i]] == timings[p.order[i]] {
      assert p.order[i] == if i < |swage| then swage[i] else triton[i - |swage|];
      assert p.order[i] in Members(swage) + Members(triton);
    }
  }

  /** Times the components of both compilers, and adds their totals. */
  method MeasureComponents(signatures: seq<Signature>, swage: seq<string>, ghost direct: bool, ghost split: bool)
    returns (r: Result<Phase, Failure>, ghost samples: seq<real>)
    requires swage == SwageOf(signatures, direct, split)
    ensures r.Err? ==> r.error == TimerDidNotAdvance && Stopped(samples)
    ensures r.Ok? ==> TimesEach(r.value, samples) && Completed(r.value, signatures, swage)
  {
    hide ConfigurationsOf, Kernels, TritonComponents, NoTotal, TotalsOf, SumOver, SwageSteps, Stopped, SwageOf,
      SwageComponents;
    var advanced, order, timings;
    advanced, order, timings, samples := Measure(swage, [], map[], []);
    if !advanced {
      return Err(TimerDidNotAdvance), samples;
    }
    var configurations := ConfigurationsOf(signatures, HARNESS_FAMILIES);
    var triton;
    advanced, triton, order, timings, samples := MeasureTriton(configurations, order, timings, samples);
    if !advanced {
      return Err(TimerDidNotAdvance), samples;
    }
    TritonHasNoTotal(configurations);
    assert order == swage + triton;
    SampledIsMeasured(order, timings, samples);
    ComponentsAreDistinct(swage, direct, split, signatures);
    hide Sampled, Unique, Measured, TimesEach;
    var totals, all := AddTotals(swage, triton, timings);
    var phase := Phase(signatures, Kernels(swage), configurations, order, totals, all);
    EachIsTimed(phase, swage, triton, timings, samples);
    return Ok(phase), samples;
  }

  /** The Triton components, kind by kind. */
  method MeasureTriton(c: Configurations, order: seq<string>, timings: map<string, real>, ghost before: seq<real>)
    returns (advanced: bool, triton: seq<string>, newOrder: seq<string>, newTimings: map<string, real>,
             ghost samples: seq<real>)
    requires Sampled(order, timings, before)
    ensures advanced ==>
              triton == TritonComponents(c) && newOrder == order + triton && Sampled(newOrder, newTimings, samples)
    ensures !advanced ==> Stopped(samples)
  {
    hide ComponentTexts, Sampled, Stopped;
    triton := [];
    advanced, newOrder, newTimings, samples := Measure(ComponentTexts(FixedKernel, c.fixed), order, timings, before);
    if !advanced { return; }
    triton := triton + ComponentTexts(FixedKernel, c.fixed);
    if c.packed {
      advanced, newOrder, newTimings, samples := Measure(["triton_matched_packed"], newOrder, newTimings, samples);
      if !advanced { return; }
      triton := triton + ["triton_matched_packed"];
    }
    advanced, newOrder, newTimings, samples := Measure(ComponentTexts(MatchedKernel, c.matched), newOrder, newTimings,
                                                       samples);
    if !advanced { return; }
    triton := triton + ComponentTexts(MatchedKernel, c.matched);
    if c.fused != [] {
      advanced, newOrder, newTimings, samples := Measure(["triton_fused"], newOrder, newTimings, samples);
      if !advanced { return; }
      triton := triton + ["triton_fused"];
    }
    advanced, newOrder, newTimings, samples := Measure(ComponentTexts(LoopedKernel, c.looped), newOrder, newTimings,
                                                       samples);
    if !advanced { return; }
    triton := triton + ComponentTexts(LoopedKernel, c.looped);
    advanced, newOrder, newTimings, samples := Measure(ComponentTexts(PlannedLoopedKernel, c.plannedLooped), newOrder,
                                                       newTimings, samples);
    if !advanced { return; }
    triton := triton + ComponentTexts(PlannedLoopedKernel, c.plannedLooped);
  }
}
