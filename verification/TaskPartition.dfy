/** The host partition of the segments into short and long tasks at 32 elements. */
module TaskPartition {
  import opened Wrappers

  const WARP_MAX_ELEMENTS := 32
  const CTA_BLOCK := 4096
  const PACKED_TASKS := 4

  /** Programs that pack four short tasks each. */
  function PackedPrograms(warpTasks: nat): nat {
    (warpTasks + PACKED_TASKS - 1) / PACKED_TASKS
  }

  /** The segments before `n` of at most 32 elements, in order. */
  function ShortIds(lengths: seq<int>, n: nat): seq<nat>
    requires n <= |lengths|
  {
    if n == 0 then []
    else if lengths[n - 1] <= WARP_MAX_ELEMENTS then ShortIds(lengths, n - 1) + [n - 1]
    else ShortIds(lengths, n - 1)
  }

  function LongIds(lengths: seq<int>, n: nat): seq<nat>
    requires n <= |lengths|
  {
    if n == 0 then []
    else if lengths[n - 1] <= WARP_MAX_ELEMENTS then LongIds(lengths, n - 1)
    else LongIds(lengths, n - 1) + [n - 1]
  }

  datatype Refusal = NegativeLength | LengthAboveBlock

  function RefusalOf(length: int): Refusal {
    if length < 0 then NegativeLength else LengthAboveBlock
  }

  ghost predicate FirstRefused(lengths: seq<int>, s: nat) {
    && s < |lengths| && !(0 <= lengths[s] <= CTA_BLOCK)
    && forall i :: 0 <= i < s ==> 0 <= lengths[i] <= CTA_BLOCK
  }

  /** Refuses at the first length that no task list takes. */
  method PartitionLengths(lengths: seq<int>) returns (r: Result<(seq<nat>, seq<nat>), Refusal>)
    ensures r.Ok? <==> forall s :: 0 <= s < |lengths| ==> 0 <= lengths[s] <= CTA_BLOCK
    ensures r.Ok? ==> r.value == (ShortIds(lengths, |lengths|), LongIds(lengths, |lengths|))
    ensures r.Err? ==> exists s: nat :: FirstRefused(lengths, s) && r.error == RefusalOf(lengths[s])
    ensures r == Err(NegativeLength) <==> exists s: nat :: FirstRefused(lengths, s) && lengths[s] < 0
    ensures r == Err(LengthAboveBlock) <==> exists s: nat :: FirstRefused(lengths, s) && lengths[s] > 4096
  {
    var warpIds: seq<nat>, ctaIds: seq<nat> := [], [];
    for s := 0 to |lengths|
      invariant forall i :: 0 <= i < s ==> 0 <= lengths[i] <= CTA_BLOCK
      invariant warpIds == ShortIds(lengths, s) && ctaIds == LongIds(lengths, s)
    {
      if lengths[s] < 0 {
        assert FirstRefused(lengths, s);
        return Err(NegativeLength);
      }
      if lengths[s] <= WARP_MAX_ELEMENTS {
        warpIds := warpIds + [s];
      } else if lengths[s] <= CTA_BLOCK {
        ctaIds := ctaIds + [s];
      } else {
        assert FirstRefused(lengths, s);
        return Err(LengthAboveBlock);
      }
    }
    return Ok((warpIds, ctaIds));
  }

  /** Where a segment is in the two lists. */
  datatype Place = Short(t: nat) | Long(t: nat)

  function PlaceOf(lengths: seq<int>, s: nat): Place
    requires s < |lengths|
  {
    if lengths[s] <= WARP_MAX_ELEMENTS then Short(|ShortIds(lengths, s)|) else Long(|LongIds(lengths, s)|)
  }

  function Places(lengths: seq<int>): seq<Place> {
    seq(|lengths|, s requires 0 <= s < |lengths| => PlaceOf(lengths, s))
  }

  ghost predicate ListedAt(warpIds: seq<nat>, ctaIds: seq<nat>, s: nat, p: Place) {
    match p
    case Short(t) => t < |warpIds| && warpIds[t] == s
    case Long(t) => t < |ctaIds| && ctaIds[t] == s
  }

  /** Every segment is in exactly one list, exactly once. */
  ghost predicate Partition(lengths: seq<int>, warpIds: seq<nat>, ctaIds: seq<nat>, places: seq<Place>) {
    && |places| == |lengths|
    && (forall s :: 0 <= s < |places| ==>
          && ListedAt(warpIds, ctaIds, s, places[s])
          && (places[s].Short? <==> lengths[s] <= 32))
    && (forall t :: 0 <= t < |warpIds| ==> warpIds[t] < |places| && places[warpIds[t]] == Short(t))
    && (forall t :: 0 <= t < |ctaIds| ==> ctaIds[t] < |places| && places[ctaIds[t]] == Long(t))
  }

  lemma {:induction false} ListsPlace(lengths: seq<int>, n: nat)
    requires n <= |lengths|
    ensures var warpIds, ctaIds := ShortIds(lengths, n), LongIds(lengths, n);
            && (forall s :: 0 <= s < n ==> ListedAt(warpIds, ctaIds, s, PlaceOf(lengths, s)))
            && (forall t :: 0 <= t < |warpIds| ==> warpIds[t] < n && PlaceOf(lengths, warpIds[t]) == Short(t))
            && (forall t :: 0 <= t < |ctaIds| ==> ctaIds[t] < n && PlaceOf(lengths, ctaIds[t]) == Long(t))
  {
    if n > 0 { ListsPlace(lengths, n - 1); }
  }

  lemma PartitionIsPartition(lengths: seq<int>)
    ensures Partition(lengths, ShortIds(lengths, |lengths|), LongIds(lengths, |lengths|), Places(lengths))
  {
    ListsPlace(lengths, |lengths|);
  }
}
