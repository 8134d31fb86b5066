/** Which kinds of tasks the cases of a compilation phase have, as the classifier of the runtime library finds them. */
module CompiledTasks {
  import opened Wrappers
  import opened TaskPlan
  import opened Sums

  datatype Failure = NegativeLength | Classifier(reason: Refusal)

  function OffsetsOf(lengths: seq<int>): (offsets: seq<int>)
    ensures |offsets| == |lengths| + 1
  {
    seq(|lengths| + 1, k requires 0 <= k <= |lengths| => Sum(lengths[..k]))
  }

  lemma PrefixGrows(lengths: seq<int>, k: nat)
    requires k < |lengths|
    ensures Sum(lengths[..k + 1]) == Sum(lengths[..k]) + lengths[k]
  {
    assert lengths[..k + 1] == lengths[..k] + [lengths[k]];
    SumConcat(lengths[..k], [lengths[k]]);
    assert [lengths[k]][1..] == [];
  }

  /** The offsets of a case, unless a length is negative. */
  method HostOffsets(lengths: seq<int>) returns (r: Result<seq<int>, Failure>)
    ensures r.Ok? <==> forall s :: 0 <= s < |lengths| ==> 0 <= lengths[s]
    ensures r.Ok? ==> r.value == OffsetsOf(lengths)
    ensures r.Err? ==> r.error == NegativeLength
  {
    var offsets := [0];
    for s := 0 to |lengths|
      invariant |offsets| == s + 1 && forall k :: 0 <= k <= s ==> offsets[k] == Sum(lengths[..k])
      invariant forall k :: 0 <= k < s ==> 0 <= lengths[k]
    {
      if lengths[s] < 0 {
        return Err(NegativeLength);
      }
      PrefixGrows(lengths, s);
      offsets := offsets + [offsets[s] + lengths[s]];
    }
    return Ok(offsets);
  }

  // -------------------------------------------------------- the kinds of a case

  /** A segment that one task covers. */
  ghost predicate HasDirect(lengths: seq<int>, chunk: int) {
    exists s :: 0 <= s < |lengths| && lengths[s] <= chunk
  }

  /** A segment that is split. */
  ghost predicate HasSplit(lengths: seq<int>, chunk: int) {
    exists s :: 0 <= s < |lengths| && lengths[s] > chunk
  }

  lemma KindOfSegment(lengths: seq<int>, s: nat, warpMax: int, chunk: int)
    requires s < |lengths| && warpMax <= chunk
    ensures IsOfKind(OffsetsOf(lengths), s, warpMax, chunk, SplitWork) <==> lengths[s] > chunk
    ensures (IsOfKind(OffsetsOf(lengths), s, warpMax, chunk, WarpWork)
             || IsOfKind(OffsetsOf(lengths), s, warpMax, chunk, CtaWork))
       <==> lengths[s] <= chunk
  {
    PrefixGrows(lengths, s);
  }

  /** A list is empty when no segment is of its kind. */
  lemma ListIsEmpty(ids: seq<nat>, offsets: seq<int>, n: nat, warpMax: int, chunk: int, k: Kind)
    requires n < |offsets| && ListsKind(ids, offsets, n, warpMax, chunk, k)
    ensures ids != [] ==> ids[0] < n && IsOfKind(offsets, ids[0], warpMax, chunk, k)
    ensures forall s: nat :: s < n && IsOfKind(offsets, s, warpMax, chunk, k) ==> ids != []
  {
    assert ids != [] ==> IsListed(ids[0], ids);
    assert forall s: nat :: s < n && IsOfKind(offsets, s, warpMax, chunk, k) ==> IsListed(s, ids);
  }

  /** The lists of the plan are nonempty exactly when a segment has the length for them. */
  lemma ListsOfCase(lengths: seq<int>, warpMax: int, chunk: nat)
    requires 0 < warpMax <= chunk && forall s :: 0 <= s < |lengths| ==> 0 <= lengths[s]
    ensures var p := PlanOf(OffsetsOf(lengths), |lengths|, warpMax, chunk);
            && (|p.warp| + |p.cta| > 0 <==> HasDirect(lengths, chunk))
            && (|p.merges| > 0 <==> HasSplit(lengths, chunk))
  {
    var offsets, n := OffsetsOf(lengths), |lengths|;
    var p := PlanOf(offsets, n, warpMax, chunk);
    PlanListsEverySegment(offsets, n, warpMax, chunk);
    ListIsEmpty(p.warp, offsets, n, warpMax, chunk, WarpWork);
    ListIsEmpty(p.cta, offsets, n, warpMax, chunk, CtaWork);
    ListIsEmpty(MergeIds(p.merges), offsets, n, warpMax, chunk, SplitWork);
    forall s: nat | s < n
      ensures IsOfKind(offsets, s, warpMax, chunk, SplitWork) <==> lengths[s] > chunk
      ensures (IsOfKind(offsets, s, warpMax, chunk, WarpWork) || IsOfKind(offsets, s, warpMax, chunk, CtaWork))
         <==> lengths[s] <= chunk
    {
      KindOfSegment(lengths, s, warpMax, chunk);
    }
    hide ListsKind, OffsetsOf, PlanOf, IsOfKind;
  }

  /** There are partial tasks exactly when there is a merge. */
  lemma {:induction false} PartialsAreMerged(offsets: seq<int>, n: nat, warpMax: int, chunk: nat)
    requires n < |offsets| && 0 < warpMax <= chunk
    ensures var p := PlanOf(offsets, n, warpMax, chunk); p.partials == [] <==> p.merges == []
  {
    if n > 0 { PartialsAreMerged(offsets, n - 1, warpMax, chunk); }
  }

  /** No length is negative, and the classifier admits the offsets. */
  ghost predicate Classified(lengths: seq<int>, warpMax: int, chunk: int) {
    && (forall s :: 0 <= s < |lengths| ==> 0 <= lengths[s])
    && Admitted(OffsetsOf(lengths), Sum(lengths), |lengths|, warpMax, chunk)
  }

  /** A negative length fails before the classifier sees the offsets; then the classifier's own reason. */
  ghost predicate FailsWith(e: Failure, lengths: seq<int>, warpMax: int, chunk: int) {
    var negative := exists s :: 0 <= s < |lengths| && lengths[s] < 0;
    match e
    case NegativeLength => negative
    case Classifier(why) =>
      && !negative
      && HasReason(why, Some(OffsetsOf(lengths)), |lengths| + 1, Sum(lengths), |lengths|, warpMax, chunk)
  }

  /** The classifier's answer for one case: whether it has direct tasks, and whether it has partial tasks. */
  method KindsOfCase(lengths: seq<int>, warpMax: int, chunk: int) returns (r: Result<(bool, bool), Failure>)
    ensures r.Ok? <==> Classified(lengths, warpMax, chunk)
    ensures r.Err? ==> FailsWith(r.error, lengths, warpMax, chunk)
    ensures r.Ok? ==> r.value == (HasDirect(lengths, chunk), HasSplit(lengths, chunk))
  {
    var offsets := HostOffsets(lengths);
    if offsets.Err? {
      return Err(offsets.error);
    }
    assert lengths[..|lengths|] == lengths;
    AdmittedIffNotRefused(offsets.value, Sum(lengths), |lengths|, warpMax, chunk);
    var refused := Refused(offsets.value, offsets.value[|lengths|], |lengths|, warpMax, chunk);
    if refused.Some? {
      ReasonIff(refused.value, offsets.value, Sum(lengths), |lengths|, warpMax, chunk);
      return Err(Classifier(refused.value));
    }
    var p := PlanOf(offsets.value, |lengths|, warpMax, chunk);
    ListsOfCase(lengths, warpMax, chunk);
    PartialsAreMerged(offsets.value, |lengths|, warpMax, chunk);
    return Ok((|p.warp| + |p.cta| > 0, |p.partials| > 0));
  }

  ghost predicate SomeDirect(cases: seq<seq<int>>, chunk: int) {
    exists i :: 0 <= i < |cases| && HasDirect(cases[i], chunk)
  }

  ghost predicate SomeSplit(cases: seq<seq<int>>, chunk: int) {
    exists i :: 0 <= i < |cases| && HasSplit(cases[i], chunk)
  }

  /** Whether some case has a direct task, and some case a split one. */
  method KindsOfCases(cases: seq<seq<int>>, warpMax: int, chunk: int) returns (r: Result<(bool, bool), Failure>)
    ensures r.Ok? <==> forall i :: 0 <= i < |cases| ==> Classified(cases[i], warpMax, chunk)
    ensures r.Ok? ==> r.value == (SomeDirect(cases, chunk), SomeSplit(cases, chunk))
    ensures r.Err? ==>
              exists i :: && 0 <= i < |cases| && FailsWith(r.error, cases[i], warpMax, chunk)
                          && forall j :: 0 <= j < i ==> Classified(cases[j], warpMax, chunk)
  {
    var direct, split := false, false;
    hide Classified, HasDirect, HasSplit, FailsWith;
    for i := 0 to |cases|
      invariant forall j :: 0 <= j < i ==> Classified(cases[j], warpMax, chunk)
      invariant direct <==> exists j :: 0 <= j < i && HasDirect(cases[j], chunk)
      invariant split <==> exists j :: 0 <= j < i && HasSplit(cases[j], chunk)
    {
      var kinds := KindsOfCase(cases[i], warpMax, chunk);
      if kinds.Err? {
        return Err(kinds.error);
      }
      direct, split := direct || kinds.value.0, split || kinds.value.1;
    }
    return Ok((direct, split));
  }
}
