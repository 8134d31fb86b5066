/**
 Batches that double until every candidate's sample outgrows the timer tick, and the
 conditions a validator puts on the result. Timer readings are arbitrary.
 */
module BatchGrowth {
  import opened Wrappers
  import opened Sorting
  import opened Rotation

  const BATCHED_LAUNCHES := 32
  const MAX_BATCHED_LAUNCHES := 0x10_0000
  const TICK_FRACTION := 0.01

  type pos = x: int | x > 0 witness 1

  /** One timed batch; None when the candidate has nothing to time. */
  datatype Reading<T> = Reading(name: T, launches: pos, elapsed: Option<real>)

  datatype Failure<T> = Refused(refusal: Refusal) | Unresolved(name: T)

  // ------------------------------------------------------------- statistics

  predicate LessEqual(a: real, b: real) {
    a <= b
  }

  function Median(xs: seq<real>): (median: real)
    requires xs != []
  {
    SortSorts(xs, LessEqual);
    var s := Sort(xs, LessEqual);
    if |s| % 2 == 1 then s[|s| / 2] else (s[|s| / 2 - 1] + s[|s| / 2]) / 2.0
  }

  lemma MedianIsPositive(xs: seq<real>)
    requires xs != [] && forall i :: 0 <= i < |xs| ==> xs[i] > 0.0
    ensures Median(xs) > 0.0
  {
    SortSorts(xs, LessEqual);
    var s := Sort(xs, LessEqual);
    forall i | 0 <= i < |s| ensures s[i] > 0.0 {
      assert s[i] in multiset(s);
      assert s[i] in xs;
    }
    hide Sort, SortedBy;
  }

  /** The middle of the values in ascending order, or the mean of the two in the middle. */
  lemma MedianIs(xs: seq<real>, ascending: seq<real>)
    requires xs != [] && multiset(ascending) == multiset(xs)
    requires forall i, j :: 0 <= i < j < |ascending| ==> ascending[i] <= ascending[j]
    ensures var n := |xs|;
            && |ascending| == n
            && (n % 2 == 1 ==> Median(xs) == ascending[(n - 1) / 2])
            && (n % 2 == 0 ==> 2.0 * Median(xs) == ascending[n / 2 - 1] + ascending[n / 2])
  {
    SortSorts(xs, LessEqual);
    var s := Sort(xs, LessEqual);
    assert SortedBy(ascending, LessEqual);
    SortedIsUnique(s, ascending, LessEqual);
    hide Sort, SortedBy;
  }

  predicate Resolves(tick: Option<real>, sample: real) {
    tick.None? || tick.value < TICK_FRACTION * sample
  }

  // ------------------------------------------------------------ powers of two

  predicate IsPower(x: pos) {
    x == 1 || (x % 2 == 0 && IsPower(x / 2))
  }

  lemma {:induction false} PowersAreApart(a: pos, b: pos)
    requires IsPower(a) && IsPower(b) && a < b
    ensures 2 * a <= b
  {
    if a > 1 { PowersAreApart(a / 2, b / 2); }
  }

  /** 32 launches, doubled up to the limit. */
  predicate IsBatch(launches: int) {
    0 < launches <= MAX_BATCHED_LAUNCHES && launches % BATCHED_LAUNCHES == 0 && IsPower(launches / BATCHED_LAUNCHES)
  }

  lemma Doubles(launches: int)
    requires IsBatch(launches) && launches < MAX_BATCHED_LAUNCHES
    ensures IsBatch(2 * launches)
  {
    var steps := launches / BATCHED_LAUNCHES;
    MaxIsPower();
    PowersAreApart(steps, MAX_BATCHED_LAUNCHES / BATCHED_LAUNCHES);
    assert 2 * launches / BATCHED_LAUNCHES == 2 * steps;
  }

  lemma MaxIsPower()
    ensures IsPower(MAX_BATCHED_LAUNCHES / BATCHED_LAUNCHES)
  {
    assert IsPower(8) by { assert IsPower(1) && IsPower(2) && IsPower(4); }
    assert IsPower(0x40) by { assert IsPower(16) && IsPower(32); }
    assert IsPower(0x200) by { assert IsPower(0x80) && IsPower(0x100); }
    assert IsPower(0x1000) by { assert IsPower(0x400) && IsPower(0x800); }
    assert IsPower(0x8000) by { assert IsPower(0x2000) && IsPower(0x4000); }
  }

  /** Bitwise and. */
  function BitAnd(x: nat, y: nat): nat {
    if x == 0 || y == 0 then 0 else 2 * BitAnd(x / 2, y / 2) + (x % 2) * (y % 2)
  }

  lemma {:induction false} BitAndSelf(x: nat)
    ensures BitAnd(x, x) == x
  {
    if x > 0 {
      BitAndSelf(x / 2);
      assert (x % 2) * (x % 2) == x % 2;
    }
  }

  /** `x & (x - 1)` is zero exactly for powers of two. */
  lemma {:induction false} PowerTest(x: pos)
    ensures BitAnd(x, x - 1) == 0 <==> IsPower(x)
  {
    if x > 1 {
      if x % 2 == 0 {
        PowerTest(x / 2);
        assert (x - 1) / 2 == x / 2 - 1;
        assert x - 1 > 0 ==> BitAnd(x, x - 1) == 2 * BitAnd(x / 2, (x - 1) / 2);
      } else {
        BitAndSelf(x / 2);
        assert (x - 1) / 2 == x / 2;
        assert BitAnd(x, x - 1) == 2 * BitAnd(x / 2, (x - 1) / 2);
      }
    }
  }

  /** The validator's test of a batch. */
  predicate ValidBatch(launches: int) {
    !(launches < BATCHED_LAUNCHES || launches > MAX_BATCHED_LAUNCHES || BitAnd(launches, launches - 1) != 0)
  }

  lemma PowersFrom32(x: pos)
    requires x >= 32
    ensures IsPower(x) <==> x % 32 == 0 && IsPower(x / 32)
  {
    assert x / 2 / 2 == x / 4 && x / 4 / 2 == x / 8 && x / 8 / 2 == x / 16 && x / 16 / 2 == x / 32;
    assert IsPower(x) <==> x % 2 == 0 && IsPower(x / 2);
    assert IsPower(x / 2) <==> x / 2 % 2 == 0 && IsPower(x / 4);
    assert IsPower(x / 4) <==> x / 4 % 2 == 0 && IsPower(x / 8);
    assert IsPower(x / 8) <==> x / 8 % 2 == 0 && IsPower(x / 16);
    assert IsPower(x / 16) <==> x / 16 % 2 == 0 && IsPower(x / 32);
  }

  /** The validator takes exactly the doublings of 32 up to the limit. */
  lemma ValidBatchIff(launches: int)
    ensures ValidBatch(launches) <==> IsBatch(launches)
  {
    if launches >= BATCHED_LAUNCHES {
      PowerTest(launches);
      PowersFrom32(launches);
    }
  }

  // --------------------------------------------------------------- one pass

  /** The per-launch samples of a candidate, in the order they were taken. */
  function Collected<T(==)>(readings: seq<Reading<T>>, name: T): seq<real> {
    if readings == [] then []
    else
      var last, before := readings[|readings| - 1], Collected(readings[..|readings| - 1], name);
      if last.name == name && last.elapsed.Some? then before + [last.elapsed.value / last.launches as real] else before
  }

  function NamesOf<T>(readings: seq<Reading<T>>): seq<T> {
    seq(|readings|, i requires 0 <= i < |readings| => readings[i].name)
  }

  function Flatten<T>(orders: seq<seq<T>>): seq<T> {
    if orders == [] then [] else Flatten(orders[..|orders| - 1]) + orders[|orders| - 1]
  }

  ghost predicate TimingsOf<T(!new)>(timings: map<T, seq<real>>, readings: seq<Reading<T>>) {
    forall name :: (if name in timings then timings[name] else []) == Collected(readings, name)
                && (name in timings ==> timings[name] != [])
  }

  ghost predicate AtBatches<T>(readings: seq<Reading<T>>, batches: map<T, pos>) {
    forall i :: 0 <= i < |readings| ==> readings[i].name in batches && readings[i].launches == batches[readings[i].name]
  }

  /** All readings of one pass: every candidate once a round, at its batch. */
  ghost predicate IsPass<T>(readings: seq<Reading<T>>, orders: seq<seq<T>>, batches: map<T, pos>) {
    NamesOf(readings) == Flatten(orders) && AtBatches(readings, batches)
  }

  /** Appends to the list of a candidate, which is new at its first sample. */
  function Appended<T(==)>(timings: map<T, seq<real>>, name: T, sample: real): map<T, seq<real>> {
    timings[name := (if name in timings then timings[name] else []) + [sample]]
  }

  lemma NextReading<T(!new)>(timings: map<T, seq<real>>, readings: seq<Reading<T>>, r: Reading<T>)
    requires TimingsOf(timings, readings)
    ensures r.elapsed.None? ==> TimingsOf(timings, readings + [r])
    ensures r.elapsed.Some? ==>
              TimingsOf(Appended(timings, r.name, r.elapsed.value / r.launches as real), readings + [r])
    ensures NamesOf(readings + [r]) == NamesOf(readings) + [r.name]
  {
    assert (readings + [r])[..|readings|] == readings;
  }

  ghost predicate HaveBatches<T>(orders: seq<seq<T>>, batches: map<T, pos>) {
    forall k :: 0 <= k < |orders| ==> forall p :: 0 <= p < |orders[k]| ==> orders[k][p] in batches
  }

  method TakePass<T(==, !new)>(orders: seq<seq<T>>, batches: map<T, pos>)
    returns (timings: map<T, seq<real>>, ghost readings: seq<Reading<T>>)
    requires HaveBatches(orders, batches)
    ensures IsPass(readings, orders, batches) && TimingsOf(timings, readings)
  {
    timings, readings := map[], [];
    assert TimingsOf(timings, readings);
    hide TimingsOf, Collected, Appended;
    for k := 0 to |orders|
      invariant NamesOf(readings) == Flatten(orders[..k]) && AtBatches(readings, batches)
      invariant TimingsOf(timings, readings)
    {
      var order := orders[k];
      for p := 0 to |order|
        invariant NamesOf(readings) == Flatten(orders[..k]) + order[..p]
        invariant AtBatches(readings, batches) && TimingsOf(timings, readings)
      {
        var name := order[p];
        var elapsed: Option<real> := *;
        ghost var r := Reading(name, batches[name], elapsed);
        NextReading(timings, readings, r);
        if elapsed.Some? {
          timings := Appended(timings, name, elapsed.value / batches[name] as real);
        }
        readings := readings + [r];
      }
      assert order[..|order|] == order && orders[..k + 1][..k] == orders[..k];
    }
    assert orders[..|orders|] == orders;
  }

  // ------------------------------------------------------------- the growth

  /** How often a batch can still double. */
  function DoublingsLeft(launches: pos): nat
    decreases if launches >= MAX_BATCHED_LAUNCHES then 0 else MAX_BATCHED_LAUNCHES - launches
  {
    if launches >= MAX_BATCHED_LAUNCHES then 0 else 1 + DoublingsLeft(2 * launches)
  }

  function TotalLeft<T(==)>(names: seq<T>, batches: map<T, pos>): nat {
    if names == [] then 0
    else TotalLeft(names[1..], batches) + if names[0] in batches then DoublingsLeft(batches[names[0]]) else 0
  }

  lemma {:induction false} DoublingUsesOne<T>(names: seq<T>, batches: map<T, pos>, name: T)
    requires name in batches && batches[name] < MAX_BATCHED_LAUNCHES
    ensures TotalLeft(names, batches[name := 2 * batches[name]]) <= TotalLeft(names, batches)
    ensures name in names ==> TotalLeft(names, batches[name := 2 * batches[name]]) < TotalLeft(names, batches)
  {
    if names != [] {
      DoublingUsesOne(names[1..], batches, name);
    }
  }

  ghost predicate Batches<T(!new)>(batches: map<T, pos>, names: seq<T>) {
    (forall name :: name in batches <==> name in names) && forall name :: name in batches ==> IsBatch(batches[name])
  }

  /** The time of a whole sample, of its time per launch. */
  function WholeSample(perLaunch: real, launches: int): real {
    perLaunch * launches as real
  }

  /** The time of a whole median sample. */
  function MedianSample(samples: seq<real>, launches: pos): real
    requires samples != []
  {
    WholeSample(Median(samples), launches)
  }

  /** A timed candidate's tick is below one percent of its median sample. */
  predicate Resolved(tick: Option<real>, samples: seq<real>, launches: pos)
  {
    samples == [] || Resolves(tick, MedianSample(samples, launches))
  }

  /** One hundred ticks are less than the median sample of the whole batch. */
  lemma ResolvedIff(tick: Option<real>, samples: seq<real>, launches: pos)
    requires samples != []
    ensures Resolved(tick, samples, launches)
       <==> tick == None || 100.0 * tick.value < Median(samples) * launches as real
  {
  }

  lemma TimingsAt<T(!new)>(timings: map<T, seq<real>>, readings: seq<Reading<T>>, name: T)
    requires TimingsOf(timings, readings)
    ensures name in timings ==> timings[name] == Collected(readings, name) != []
    ensures name !in timings ==> Collected(readings, name) == []
  {
    assert (if name in timings then timings[name] else []) == Collected(readings, name);
  }

  /** The candidates of a pass that need a larger batch. */
  method FindUnresolved<T(==, !new)>(names: seq<T>, tick: Option<real>, timings: map<T, seq<real>>,
                                     batches: map<T, pos>, ghost readings: seq<Reading<T>>) returns (unresolved: seq<T>)
    requires Unique(names) && TimingsOf(timings, readings) && forall name :: name in names ==> name in batches
    ensures Unique(unresolved)
    ensures forall name :: name in unresolved <==>
              name in names && !Resolved(tick, Collected(readings, name), batches[name])
  {
    hide MedianSample, Resolves, Collected;
    unresolved := [];
    for i := 0 to |names|
      invariant Unique(unresolved)
      invariant forall name :: name in unresolved <==>
                  name in names[..i] && !Resolved(tick, Collected(readings, name), batches[name])
    {
      var name := names[i];
      assert names[..i + 1] == names[..i] + [name];
      assert name !in names[..i];
      var resolves := name !in timings || Resolves(tick, MedianSample(timings[name], batches[name]));
      TimingsAt(timings, readings, name);
      assert resolves == Resolved(tick, Collected(readings, name), batches[name]);
      if !resolves {
        unresolved := unresolved + [name];
      }
    }
    assert names[..|names|] == names;
  }

  /** Doubles every unresolved batch, or names one at the limit. */
  method DoubleUnresolved<T(==, !new)>(names: seq<T>, pass: map<T, pos>, unresolved: seq<T>)
    returns (batches: map<T, pos>, stuck: Option<T>)
    requires Batches(pass, names) && Unique(unresolved) && unresolved != []
    requires forall name :: name in unresolved ==> name in names
    ensures Batches(batches, names)
    ensures stuck.None? ==> TotalLeft(names, batches) < TotalLeft(names, pass)
    ensures stuck.None? ==> forall name :: name in names ==>
              batches[name] == if name in unresolved then 2 * pass[name] else pass[name]
    ensures stuck.Some? ==> stuck.value in unresolved && pass[stuck.value] == MAX_BATCHED_LAUNCHES
  {
    batches := pass;
    for i := 0 to |unresolved|
      invariant Batches(batches, names)
      invariant TotalLeft(names, batches) <= TotalLeft(names, pass)
      invariant i > 0 ==> TotalLeft(names, batches) < TotalLeft(names, pass)
      invariant forall name :: name in names ==>
                  batches[name] == if name in unresolved[..i] then 2 * pass[name] else pass[name]
    {
      var name := unresolved[i];
      assert name !in unresolved[..i] && unresolved[..i + 1] == unresolved[..i] + [name];
      if batches[name] >= MAX_BATCHED_LAUNCHES {
        return batches, Some(name);
      }
      Doubles(batches[name]);
      DoublingUsesOne(names, batches, name);
      batches := batches[name := 2 * batches[name]];
    }
    assert unresolved[..|unresolved|] == unresolved;
    return batches, None;
  }

  /** What a finished measurement promises: one pass of readings, at the returned batches, every candidate resolved. */
  ghost predicate FinalPass<T(!new)>(names: seq<T>, samples: int, tick: Option<real>, timings: map<T, seq<real>>,
                                     batches: map<T, pos>, readings: seq<Reading<T>>) {
    && RotatingOrders(names, samples).Ok? && Batches(batches, names)
    && IsPass(readings, RotatingOrders(names, samples).value, batches) && TimingsOf(timings, readings)
    && forall name :: name in names ==> Resolved(tick, Collected(readings, name), batches[name])
  }

  /** The batches after a pass: doubled for the candidates it does not resolve, of which there is one. */
  ghost predicate Grows<T(!new)>(names: seq<T>, tick: Option<real>, readings: seq<Reading<T>>, pass: map<T, pos>,
                                 next: map<T, pos>) {
    && (forall name :: name in names ==>
          && name in pass && name in next
          && (Resolved(tick, Collected(readings, name), pass[name]) ==> next[name] == pass[name])
          && (!Resolved(tick, Collected(readings, name), pass[name]) ==> next[name] == 2 * pass[name]))
    && exists name :: name in names && !Resolved(tick, Collected(readings, name), pass[name])
  }

  /** The passes of one measurement: every batch starts at 32, and each later pass grows the one before. */
  ghost predicate IsGrowth<T(!new)>(names: seq<T>, orders: seq<seq<T>>, tick: Option<real>,
                                    passes: seq<seq<Reading<T>>>, growth: seq<map<T, pos>>) {
    && |passes| == |growth| > 0
    && (forall name :: name in names ==> name in growth[0] && growth[0][name] == 32)
    && (forall k :: 0 <= k < |passes| ==> IsPass(passes[k], orders, growth[k]))
    && forall k :: 0 < k < |passes| ==> Grows(names, tick, passes[k - 1], growth[k - 1], growth[k])
  }

  /** The batches of the next pass: 32 each at first, and then grown from those of the last. */
  ghost predicate IsNext<T(!new)>(names: seq<T>, orders: seq<seq<T>>, tick: Option<real>, passes: seq<seq<Reading<T>>>,
                                  growth: seq<map<T, pos>>, batches: map<T, pos>) {
    if passes == [] || growth == [] then
      passes == [] && growth == [] && forall name :: name in names ==> name in batches && batches[name] == 32
    else
      && IsGrowth(names, orders, tick, passes, growth)
      && Grows(names, tick, passes[|passes| - 1], growth[|growth| - 1], batches)
  }

  lemma NextPass<T(!new)>(names: seq<T>, orders: seq<seq<T>>, tick: Option<real>, passes: seq<seq<Reading<T>>>,
                          growth: seq<map<T, pos>>, readings: seq<Reading<T>>, batches: map<T, pos>)
    requires IsNext(names, orders, tick, passes, growth, batches) && IsPass(readings, orders, batches)
    ensures IsGrowth(names, orders, tick, passes + [readings], growth + [batches])
  {
    hide IsPass, Grows;
  }

  lemma DoublingGrows<T(!new)>(names: seq<T>, orders: seq<seq<T>>, tick: Option<real>, passes: seq<seq<Reading<T>>>,
                               growth: seq<map<T, pos>>, unresolved: seq<T>, next: map<T, pos>)
    requires IsGrowth(names, orders, tick, passes, growth) && unresolved != []
    requires var readings, pass := passes[|passes| - 1], growth[|growth| - 1];
             && Batches(pass, names) && Batches(next, names)
             && (forall name :: name in unresolved <==>
                   name in names && !Resolved(tick, Collected(readings, name), pass[name]))
             && forall name :: name in names ==> next[name] == if name in unresolved then 2 * pass[name] else pass[name]
    ensures IsNext(names, orders, tick, passes, growth, next)
  {
    assert passes != [] && growth != [];
    hide IsGrowth, Resolved, Collected;
    assert unresolved[0] in unresolved;
  }

  /** A candidate whose largest batch does not outgrow the tick. */
  ghost predicate Stuck<T(!new)>(names: seq<T>, samples: int, tick: Option<real>, name: T, readings: seq<Reading<T>>) {
    && RotatingOrders(names, samples).Ok? && name in names
    && !Resolved(tick, Collected(readings, name), MAX_BATCHED_LAUNCHES)
  }

  /** Ends for any readings: every round of growth uses up one of finitely many doublings. */
  method InterleavedBatches<T(==, !new)>(names: seq<T>, samples: int, tick: Option<real>)
    returns (r: Result<(map<T, seq<real>>, map<T, pos>), Failure<T>>, ghost readings: seq<Reading<T>>,
             ghost passes: seq<seq<Reading<T>>>, ghost growth: seq<map<T, pos>>)
    ensures r.Ok? ==> FinalPass(names, samples, tick, r.value.0, r.value.1, readings)
    ensures r.Err? && r.error.Unresolved? ==> Stuck(names, samples, tick, r.error.name, readings)
    ensures RotatingOrders(names, samples).Err? <==> r.Err? && r.error.Refused?
    ensures r.Err? && r.error.Refused? ==> r.error.refusal == RotatingOrders(names, samples).error
    ensures RotatingOrders(names, samples).Ok? ==>
              && IsGrowth(names, RotatingOrders(names, samples).value, tick, passes, growth)
              && readings == passes[|passes| - 1]
              && (r.Ok? ==> r.value.1 == growth[|growth| - 1])
              && (r.Err? && r.error.Unresolved? ==>
                    r.error.name in growth[|growth| - 1] && growth[|growth| - 1][r.error.name] == 0x10_0000)
  {
    readings, passes, growth := [], [], [];
    var batches: map<T, pos> := map name | name in names :: BATCHED_LAUNCHES;
    var orders := RotatingOrders(names, samples);
    if orders.Err? {
      return Err(Refused(orders.error)), [], [], [];
    }
    OrdersAreOfNames(names, samples);
    FirstPass(names, orders.value, tick, batches);
    assert Batches(batches, names);
    hide RotatingOrders, IsPass, Collected, Resolved, TimingsOf, IsGrowth, IsNext, Grows, Batches, Unique, TotalLeft,
      HaveBatches;
    while true
      invariant Batches(batches, names)
      invariant IsNext(names, orders.value, tick, passes, growth, batches)
      decreases TotalLeft(names, batches)
    {
      var timings: map<T, seq<real>>;
      OrdersInBatches(names, orders.value, batches);
      timings, readings := TakePass(orders.value, batches);
      NextPass(names, orders.value, tick, passes, growth, readings, batches);
      passes, growth := passes + [readings], growth + [batches];
      var unresolved := FindUnresolved(names, tick, timings, batches, readings);
      if unresolved == [] {
        assert forall name :: name in names ==> name !in unresolved;
        return Ok((timings, batches)), readings, passes, growth;
      }
      var stuck: Option<T>;
      batches, stuck := DoubleUnresolved(names, batches, unresolved);
      if stuck.Some? {
        return Err(Unresolved(stuck.value)), readings, passes, growth;
      }
      DoublingGrows(names, orders.value, tick, passes, growth, unresolved, batches);
    }
  }

  lemma OrdersInBatches<T(!new)>(names: seq<T>, orders: seq<seq<T>>, batches: map<T, pos>)
    requires forall k :: 0 <= k < |orders| ==> forall p :: 0 <= p < |orders[k]| ==> orders[k][p] in names
    requires Batches(batches, names)
    ensures HaveBatches(orders, batches) && forall name :: name in names ==> name in batches
  {
  }

  lemma FirstPass<T(!new)>(names: seq<T>, orders: seq<seq<T>>, tick: Option<real>, batches: map<T, pos>)
    requires forall name :: name in names ==> name in batches && batches[name] == 32
    ensures IsNext(names, orders, tick, [], [], batches)
  {
  }

  lemma OrdersAreOfNames<T(!new)>(names: seq<T>, samples: int)
    requires RotatingOrders(names, samples).Ok?
    ensures Unique(names)
    ensures var orders := RotatingOrders(names, samples).value;
            forall k :: 0 <= k < |orders| ==> forall p :: 0 <= p < |orders[k]| ==> orders[k][p] in names
  {
  }

  // ---------------------------------------------------------- the validator

  /** One timing entry of a record. */
  datatype TimingEntry =
    TimingEntry(samples: seq<real>, median: real, launches: int, tick: Option<real>, fraction: Option<real>)

  /** The tick over one timed sample; None without a tick or without a positive sample. */
  function TickFraction(tick: Option<real>, sample: real): Option<real> {
    if tick.None? || sample <= 0.0 then None else Some(tick.value / sample)
  }

  function EntryOf(samples: seq<real>, launches: pos, tick: Option<real>): TimingEntry
    requires samples != []
  {
    TimingEntry(samples, Median(samples), launches, tick, TickFraction(tick, MedianSample(samples, launches)))
  }

  /** The checks of one batched entry. */
  predicate KernelMeasurement(e: TimingEntry, count: nat, tick: Option<real>) {
    && |e.samples| == count && count > 0 && (forall i :: 0 <= i < |e.samples| ==> e.samples[i] > 0.0)
    && e.median == Median(e.samples) && e.median > 0.0
    && ValidBatch(e.launches) && e.tick == tick
    && TickPasses(tick, e.fraction, WholeSample(e.median, e.launches))
  }

  lemma SignOfProduct(q: real, y: real)
    requires y > 0.0
    ensures q * y > 0.0 <==> q > 0.0
  {
  }

  lemma ScaleUp(p: real, q: real, y: real)
    requires y > 0.0
    ensures p < q ==> p * y < q * y
    ensures p >= q ==> p * y >= q * y
  {
  }

  lemma QuotientOrder(x: real, y: real, c: real)
    requires y > 0.0
    ensures x / y < c <==> x < c * y
  {
    var q := x / y;
    assert q * y == x;
    ScaleUp(q, c, y);
  }

  lemma FractionIff(tick: real, sample: real)
    requires tick > 0.0 && sample > 0.0
    ensures tick / sample > 0.0
    ensures tick / sample < TICK_FRACTION <==> tick < TICK_FRACTION * sample
  {
    assert tick / sample * sample == tick;
    SignOfProduct(tick / sample, sample);
    QuotientOrder(tick, sample, TICK_FRACTION);
  }

  /** The validator takes an entry exactly when it is complete, positive, a doubling, and resolved. */
  lemma EntryPassesIff(samples: seq<real>, launches: pos, tick: Option<real>, count: nat)
    requires samples != [] && (tick.Some? ==> tick.value > 0.0)
    ensures KernelMeasurement(EntryOf(samples, launches, tick), count, tick)
       <==> && |samples| == count && (forall i :: 0 <= i < |samples| ==> samples[i] > 0.0)
            && IsBatch(launches) && Resolved(tick, samples, launches)
  {
    ValidBatchIff(launches);
    hide WholeSample, Median, IsBatch, ValidBatch, TickPasses, TickFraction, Resolves;
    if forall i :: 0 <= i < |samples| ==> samples[i] > 0.0 {
      MedianIsPositive(samples);
      PositiveProduct(Median(samples), launches);
      TickIff(tick, MedianSample(samples, launches));
    }
  }

  /** An entry passes exactly when it is what the harness records of positive, resolved samples at a doubled batch. */
  lemma AcceptedEntryIff(e: TimingEntry, count: nat, tick: Option<real>)
    requires tick.Some? ==> tick.value > 0.0
    ensures KernelMeasurement(e, count, tick)
       <==> && |e.samples| == count > 0 && (forall i :: 0 <= i < |e.samples| ==> e.samples[i] > 0.0)
            && IsBatch(e.launches) && Resolved(tick, e.samples, e.launches)
            && e == EntryOf(e.samples, e.launches, tick)
  {
    ValidBatchIff(e.launches);
    if |e.samples| == count > 0 && IsBatch(e.launches) {
      EntryPassesIff(e.samples, e.launches, tick, count);
      hide Median, IsBatch, ValidBatch, Resolves;
      if KernelMeasurement(e, count, tick) {
        assert e.fraction == TickFraction(tick, MedianSample(e.samples, e.launches));
      }
    }
    hide IsBatch, ValidBatch;
  }

  predicate TickPasses(tick: Option<real>, fraction: Option<real>, sample: real) {
    if tick.None? then fraction.None?
    else
      && sample > 0.0 && fraction.Some? && fraction.value > 0.0
      && fraction.value == tick.value / sample && fraction.value < TICK_FRACTION
  }

  lemma TickIff(tick: Option<real>, sample: real)
    requires sample > 0.0 && (tick.Some? ==> tick.value > 0.0)
    ensures TickPasses(tick, TickFraction(tick, sample), sample) <==> Resolves(tick, sample)
  {
    if tick.Some? { FractionIff(tick.value, sample); }
  }

  lemma PositiveProduct(x: real, n: pos)
    requires x > 0.0
    ensures WholeSample(x, n) > 0.0
  {
  }

  lemma {:induction false} UniqueCountsOnce<T>(names: seq<T>, name: T)
    requires name in names && forall i, j :: 0 <= i < j < |names| ==> names[i] != names[j]
    ensures multiset(names)[name] == 1
  {
    assert names == [names[0]] + names[1..];
    if names[0] == name {
      assert name !in names[1..];
    } else {
      UniqueCountsOnce(names[1..], name);
    }
  }

  lemma {:induction false} RoundsCount<T(!new)>(names: seq<T>, rounds: nat, name: T)
    requires names != [] && Unique(names) && name in names
    ensures multiset(Flatten(seq(rounds, round requires 0 <= round < rounds => Rotated(names, round))))[name] == rounds
  {
    if rounds > 0 {
      var orders := seq(rounds, round requires 0 <= round < rounds => Rotated(names, round));
      assert orders[..rounds - 1] == seq(rounds - 1, round requires 0 <= round < rounds - 1 => Rotated(names, round));
      RoundsCount(names, rounds - 1, name);
      RotationKeeps(names, rounds - 1);
      UniqueCountsOnce(names, name);
      hide Rotated, Unique;
    }
  }

  lemma RotationKeeps<T(!new)>(names: seq<T>, round: nat)
    requires names != []
    ensures multiset(Rotated(names, round)) == multiset(names)
  {
    var s := round % |names|;
    assert names == names[..s] + names[s..];
  }

  ghost predicate AlwaysTimed<T(!new)>(readings: seq<Reading<T>>, name: T) {
    forall i :: 0 <= i < |readings| && readings[i].name == name ==>
      readings[i].elapsed.Some? && readings[i].elapsed.value > 0.0
  }

  lemma {:induction false} CollectedAll<T(!new)>(readings: seq<Reading<T>>, name: T)
    requires AlwaysTimed(readings, name)
    ensures |Collected(readings, name)| == multiset(NamesOf(readings))[name]
    ensures forall i :: 0 <= i < |Collected(readings, name)| ==> Collected(readings, name)[i] > 0.0
  {
    if readings != [] {
      var before, last := readings[..|readings| - 1], readings[|readings| - 1];
      assert AlwaysTimed(before, name);
      CollectedAll(before, name);
      assert NamesOf(readings) == NamesOf(before) + [last.name];
      if last.name == name { PositiveQuotient(last.elapsed.value, last.launches); }
    }
  }

  lemma PositiveQuotient(x: real, n: pos)
    requires x > 0.0
    ensures x / n as real > 0.0
  {
    var q := x / n as real;
    assert q * n as real == x;
    SignOfProduct(q, n as real);
  }

  /** Every candidate that was timed in every round of the final pass passes the validator. */
  lemma FinalPassIsAccepted<T(!new)>(names: seq<T>, samples: int, tick: Option<real>, timings: map<T, seq<real>>,
                                     batches: map<T, pos>, readings: seq<Reading<T>>, name: T)
    requires FinalPass(names, samples, tick, timings, batches, readings) && samples > 0
    requires tick.Some? ==> tick.value > 0.0
    requires name in names && AlwaysTimed(readings, name)
    ensures name in timings && KernelMeasurement(EntryOf(timings[name], batches[name], tick), samples, tick)
  {
    RoundsCount(names, samples, name);
    CollectedAll(readings, name);
    TimingsAt(timings, readings, name);
    hide Collected, Median, MedianSample, KernelMeasurement;
    EntryPassesIff(timings[name], batches[name], tick, samples);
  }
}
