/** Rotating candidate orders, the position counts a record states, and the ones a validator derives. */
module Rotation {
  import opened Integers
  import opened Wrappers

  datatype Refusal = NoCandidates | DuplicateCandidates | NegativeRounds | NotEveryCandidate

  predicate Unique<T(==, !new)>(names: seq<T>) {
    forall i, j :: 0 <= i < j < |names| ==> names[i] != names[j]
  }

  /** The names, rotated left by one place a round. */
  function Rotated<T>(names: seq<T>, round: nat): (order: seq<T>)
    requires names != []
    ensures |order| == |names|
  {
    names[round % |names|..] + names[..round % |names|]
  }

  function RotatingOrders<T(==, !new)>(names: seq<T>, rounds: int): Result<seq<seq<T>>, Refusal> {
    if names == [] then Err(NoCandidates)
    else if !Unique(names) then Err(DuplicateCandidates)
    else if rounds < 0 then Err(NegativeRounds)
    else Ok(seq(rounds, round requires 0 <= round < rounds => Rotated(names, round)))
  }

  /** The refusals of the rotation, and what each of its orders has at a position. */
  lemma OrdersAre<T(!new)>(names: seq<T>, rounds: int)
    ensures var r := RotatingOrders(names, rounds);
            && (r == Err(NoCandidates) <==> |names| == 0)
            && (r == Err(DuplicateCandidates) <==> exists i, j :: 0 <= i < j < |names| && names[i] == names[j])
            && (r == Err(NegativeRounds) <==>
                  rounds < 0 && |names| > 0 && forall i, j :: 0 <= i < j < |names| ==> names[i] != names[j])
            && r != Err(NotEveryCandidate)
            && (r.Ok? ==>
                  && |r.value| == rounds
                  && (forall k :: 0 <= k < rounds ==> |r.value[k]| == |names|)
                  && forall k, p :: 0 <= k < rounds && 0 <= p < |names| ==>
                       r.value[k][p] == names[(k + p) % |names|])
  {
    var r := RotatingOrders(names, rounds);
    if r.Ok? {
      forall k, p | 0 <= k < rounds && 0 <= p < |names| ensures r.value[k][p] == names[(k + p) % |names|] {
        RotatedAt(names, k, p);
      }
    }
  }

  predicate IsAt<T(==, !new)>(order: seq<T>, name: T, position: nat) {
    position < |order| && order[position] == name
  }

  /** How many of the orders have the name at the position. */
  function CountAt<T(==, !new)>(orders: seq<seq<T>>, name: T, position: nat): nat {
    if orders == [] then 0
    else CountAt(orders[..|orders| - 1], name, position) + if IsAt(orders[|orders| - 1], name, position) then 1 else 0
  }

  predicate SameCandidates<T(==, !new)>(order: seq<T>, names: seq<T>) {
    |order| == |names| && Members(order) == Members(names)
  }

  function Members<T(==, !new)>(order: seq<T>): (members: set<T>)
    ensures forall name :: name in members <==> name in order
  {
    set name | name in order
  }

  function Entry<T(==, !new)>(counts: map<T, seq<nat>>, name: T, position: nat): nat {
    if name in counts && position < |counts[name]| then counts[name][position] else 0
  }

  ghost predicate Shaped<T(!new)>(counts: map<T, seq<nat>>, names: seq<T>) {
    (forall name :: name in counts <==> name in names) && forall name :: name in counts ==> |counts[name]| == |names|
  }

  /** Counts the positions of any orders of the same candidates. */
  method OrderPositionCounts<T(==, !new)>(orders: seq<seq<T>>) returns (r: Result<map<T, seq<nat>>, Refusal>)
    ensures r.Ok? <==> forall k :: 0 <= k < |orders| ==> SameCandidates(orders[k], orders[0])
    ensures r.Err? ==> r.error == NotEveryCandidate
    ensures r.Ok? && orders != [] ==> Shaped(r.value, orders[0])
    ensures r.Ok? ==> forall name, position: nat :: Entry(r.value, name, position) == CountAt(orders, name, position)
  {
    if orders == [] {
      return Ok(map[]);
    }
    var names := orders[0];
    var counts: map<T, seq<nat>> := map name | name in names :: seq(|names|, _ => 0);
    for k := 0 to |orders|
      invariant Shaped(counts, names)
      invariant forall i :: 0 <= i < k ==> SameCandidates(orders[i], names)
      invariant forall name, position: nat :: Entry(counts, name, position) == CountAt(orders[..k], name, position)
    {
      if !SameCandidates(orders[k], names) {
        return Err(NotEveryCandidate);
      }
      counts := CountOrder(counts, orders[k], names);
      assert orders[..k + 1][..k] == orders[..k];
    }
    assert orders[..|orders|] == orders;
    return Ok(counts);
  }

  method CountOrder<T(==, !new)>(before: map<T, seq<nat>>, order: seq<T>, names: seq<T>)
    returns (counts: map<T, seq<nat>>)
    requires Shaped(before, names) && SameCandidates(order, names)
    ensures Shaped(counts, names)
    ensures forall name, position: nat ::
              Entry(counts, name, position)
              == Entry(before, name, position) + if IsAt(order, name, position) then 1 else 0
  {
    counts := before;
    for position := 0 to |order|
      invariant Shaped(counts, names)
      invariant forall name, p: nat ::
                  Entry(counts, name, p)
                  == Entry(before, name, p) + if p < position && IsAt(order, name, p) then 1 else 0
    {
      var name := order[position];
      assert name in Members(order);
      counts := counts[name := counts[name][position := counts[name][position] + 1]];
    }
  }

  // ------------------------------------------------------------ closed form

  /** The count that a record must state for candidate `index` at `position`. */
  function ExpectedCount(rounds: nat, width: nat, index: int, position: int): nat
    requires width > 0
  {
    rounds / width + if (index - position) % width < rounds % width then 1 else 0
  }

  /** Candidate `(round + position) mod width` is at a position. */
  lemma RotatedAt<T>(names: seq<T>, round: nat, position: nat)
    requires position < |names|
    ensures Rotated(names, round)[position] == names[(round + position) % |names|]
  {
    var w := |names|;
    var q, s := round / w, round % w;
    if s + position < w {
      QuotientUnique(round + position, w, q, s + position);
    } else {
      QuotientUnique(round + position, w, q + 1, s + position - w);
    }
  }

  lemma ModOfSum(x: int, y: int, w: nat, c: int)
    requires w > 0 && 0 <= c < w
    ensures (x + y) % w == c <==> x % w == (c - y) % w
  {
    var a, b := (x + y) % w, (c - y) % w;
    assert x == w * ((x + y) / w) + a - y;
    assert c - y == w * ((c - y) / w) + b;
    if a == c {
      QuotientUnique(x, w, (x + y) / w + (c - y) / w, b);
    }
    if x % w == b {
      QuotientUnique(x + y, w, x / w - (c - y) / w, c);
    }
  }

  /** A candidate is at a position exactly in the rounds of one residue. */
  lemma RoundsOfCandidate<T(!new)>(names: seq<T>, round: nat, index: nat, position: nat)
    requires Unique(names) && index < |names| && position < |names|
    ensures IsAt(Rotated(names, round), names[index], position) <==> round % |names| == (index - position) % |names|
  {
    RotatedAt(names, round, position);
    ModOfSum(round, position, |names|, index);
  }

  lemma NextQuotient(n: nat, w: nat)
    requires w > 0
    ensures n % w == w - 1 ==> (n + 1) / w == n / w + 1 && (n + 1) % w == 0
    ensures n % w != w - 1 ==> (n + 1) / w == n / w && (n + 1) % w == n % w + 1
  {
    if n % w == w - 1 {
      QuotientUnique(n + 1, w, n / w + 1, 0);
    } else {
      QuotientUnique(n + 1, w, n / w, n % w + 1);
    }
  }

  lemma {:induction false} CountOfRotations<T(!new)>(names: seq<T>, rounds: nat, index: nat, position: nat)
    requires Unique(names) && index < |names| && position < |names|
    ensures CountAt(seq(rounds, round requires 0 <= round < rounds => Rotated(names, round)), names[index], position)
         == ExpectedCount(rounds, |names|, index, position)
  {
    var orders := seq(rounds, round requires 0 <= round < rounds => Rotated(names, round));
    if rounds == 0 {
      QuotientUnique(0, |names|, 0, 0);
    } else {
      CountOfRotations(names, rounds - 1, index, position);
      assert orders[..rounds - 1] == seq(rounds - 1, round requires 0 <= round < rounds - 1 => Rotated(names, round));
      RoundsOfCandidate(names, rounds - 1, index, position);
      NextQuotient(rounds - 1, |names|);
    }
  }

  /** What the harness counts over its orders is what the validator expects. */
  lemma CountsPassTheValidator<T(!new)>(names: seq<T>, rounds: int, index: nat, position: nat)
    requires RotatingOrders(names, rounds).Ok? && index < |names| && position < |names|
    ensures CountAt(RotatingOrders(names, rounds).value, names[index], position)
         == ExpectedCount(rounds, |names|, index, position)
  {
    CountOfRotations(names, rounds, index, position);
  }

  /** Every rotation has the same candidates, so the counting refuses none. */
  lemma RotationsAreAccepted<T(!new)>(names: seq<T>, round: nat)
    requires names != []
    ensures SameCandidates(Rotated(names, round), names)
  {
    var order := Rotated(names, round);
    var s := round % |names|;
    assert names == names[..s] + names[s..];
    assert forall name :: name in order <==> name in names;
  }

  /** The counts of one record: accepted, and as the validator expects them. */
  method RecordedCounts<T(==, !new)>(names: seq<T>, rounds: int) returns (r: Result<map<T, seq<nat>>, Refusal>)
    ensures r.Ok? <==> RotatingOrders(names, rounds).Ok?
    ensures r.Err? ==> r.error == RotatingOrders(names, rounds).error
    ensures r.Ok? && rounds > 0 ==> Shaped(r.value, names)
    ensures r.Ok? ==> forall i, position: nat :: 0 <= i < |names| && position < |names| ==>
              Entry(r.value, names[i], position) == ExpectedCount(rounds, |names|, i, position)
  {
    var orders := RotatingOrders(names, rounds);
    if orders.Err? {
      return Err(orders.error);
    }
    forall k | 0 <= k < rounds ensures SameCandidates(orders.value[k], orders.value[0]) {
      RotationsAreAccepted(names, k);
      RotationsAreAccepted(names, 0);
    }
    r := OrderPositionCounts(orders.value);
    if rounds > 0 {
      RotationsAreAccepted(names, 0);
      assert forall name :: name in names <==> name in Members(orders.value[0]);
    }
    forall i, position: nat | 0 <= i < |names| && position < |names|
      ensures CountAt(orders.value, names[i], position) == ExpectedCount(rounds, |names|, i, position)
    {
      CountsPassTheValidator(names, rounds, i, position);
    }
  }

  // -------------------------------------------------- places of a policy

  /** The place of policy `index` in the launch order of a sample. */
  function Place(count: nat, index: int, sample: int): int
    requires count > 0
  {
    (index - sample) % count
  }

  /** The places invert the rotation: the policy is there, and nowhere else. */
  lemma PlaceInvertsRotation<T(!new)>(policies: seq<T>, index: nat, sample: nat, place: nat)
    requires Unique(policies) && index < |policies| && place < |policies|
    ensures IsAt(Rotated(policies, sample), policies[index], place) <==> place == Place(|policies|, index, sample)
  {
    var w := |policies|;
    RotatedAt(policies, sample, place);
    assert place % w == place by { QuotientUnique(place, w, 0, place); }
    ModOfSum(place, sample, w, index);
  }
}
