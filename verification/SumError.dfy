/**
 How far a floating-point segment sum may be from the exact one. Values are reals;
 every addition of a summation tree has its own relative error. Padding adds zeros.
 */
module SumError {
  import opened Wrappers
  import Sums

  /** One order of summation, with the relative error of every addition. */
  datatype Tree = Zero | Value(value: real) | Add(a: Tree, b: Tree, error: real)

  /** A type that sums: its unit roundoff, and how many grid steps it holds exactly. */
  datatype Format = Format(unit: real, exactIntegers: nat)

  function Abs(x: real): (r: real)
    ensures 0.0 <= r && -r <= x <= r
  {
    if x < 0.0 then -x else x
  }

  function Computed(t: Tree): real {
    match t
    case Zero => 0.0
    case Value(v) => v
    case Add(a, b, error) => (Computed(a) + Computed(b)) * (1.0 + error)
  }

  function Values(t: Tree): seq<real> {
    match t
    case Zero => []
    case Value(v) => [v]
    case Add(a, b, _) => Values(a) + Values(b)
  }

  function Sum(xs: seq<real>): real {
    if xs == [] then 0.0 else xs[0] + Sum(xs[1..])
  }

  function Magnitude(xs: seq<real>): (r: real)
    ensures r >= 0.0
  {
    if xs == [] then 0.0 else Abs(xs[0]) + Magnitude(xs[1..])
  }

  ghost predicate OnGrid(x: real, quantum: real) {
    exists k: int :: IsSteps(x, k, quantum)
  }

  predicate IsSteps(x: real, k: int, quantum: real) {
    x == k as real * quantum
  }

  /** A sum of operands that the format holds exactly is not rounded. */
  ghost predicate Representable(x: real, f: Format, quantum: Option<real>) {
    quantum.Some? && exists k: int :: 0 - f.exactIntegers <= k <= f.exactIntegers && IsSteps(x, k, quantum.value)
  }

  /** Every addition errs by at most the unit, and not at all when its result is exact. */
  ghost predicate RoundedBy(t: Tree, f: Format, quantum: Option<real>) {
    t.Add? ==>
      && RoundedBy(t.a, f, quantum) && RoundedBy(t.b, f, quantum)
      && Abs(t.error) <= f.unit
      && (Computed(t.a) == 0.0 || Computed(t.b) == 0.0 ==> t.error == 0.0)
      && (Representable(Computed(t.a) + Computed(t.b), f, quantum) ==> t.error == 0.0)
  }

  // ------------------------------------------------------ sums of sequences

  lemma {:induction false} SumConcat(xs: seq<real>, ys: seq<real>)
    ensures Sum(xs + ys) == Sum(xs) + Sum(ys) && Magnitude(xs + ys) == Magnitude(xs) + Magnitude(ys)
  {
    if xs == [] {
      assert xs + ys == ys;
    } else {
      assert (xs + ys)[1..] == xs[1..] + ys;
      SumConcat(xs[1..], ys);
    }
  }

  /** The order of the values changes neither the sum nor the magnitude. */
  lemma {:induction false} SumOfPermutation(xs: seq<real>, ys: seq<real>)
    requires multiset(xs) == multiset(ys)
    ensures |xs| == |ys| && Sum(xs) == Sum(ys) && Magnitude(xs) == Magnitude(ys)
  {
    if xs == [] {
      assert |multiset(xs)| == 0 && |multiset(ys)| == |ys|;
    } else {
      assert xs[0] in multiset(ys);
      var i :| 0 <= i < |ys| && ys[i] == xs[0];
      var rest := ys[..i] + ys[i + 1..];
      assert ys == ys[..i] + ([ys[i]] + ys[i + 1..]);
      Sums.RemoveFromBoth(xs, ys, i);
      SumOfPermutation(xs[1..], rest);
      SumConcat(ys[..i], [ys[i]] + ys[i + 1..]);
      SumConcat(ys[..i], ys[i + 1..]);
      assert ([ys[i]] + ys[i + 1..])[1..] == ys[i + 1..];
    }
  }

  lemma {:induction false} SumBelowMagnitude(xs: seq<real>)
    ensures Abs(Sum(xs)) <= Magnitude(xs)
  {
    if xs != [] { SumBelowMagnitude(xs[1..]); }
  }

  // ------------------------------------------------------------ the growth

  /** `(1 + unit)^k`. */
  function Growth(unit: real, k: nat): (r: real)
    requires unit >= 0.0
    ensures r >= 1.0
  {
    if k == 0 then 1.0 else
      MulMonotone(1.0, Growth(unit, k - 1), unit);
      Growth(unit, k - 1) * (1.0 + unit)
  }

  lemma MulMonotone(x: real, y: real, z: real)
    requires x <= y && z >= 0.0
    ensures x * z <= y * z
  {
  }

  lemma CancelFactor(x: real, y: real, z: real)
    requires x * z <= y * z && z > 0.0
    ensures x <= y
  {
    var d := x - y;
    assert d * z <= 0.0;
  }

  lemma {:induction false} GrowthMonotone(unit: real, j: nat, k: nat)
    requires unit >= 0.0 && j <= k
    ensures Growth(unit, j) <= Growth(unit, k)
  {
    if j < k {
      GrowthMonotone(unit, j, k - 1);
      MulMonotone(0.0, Growth(unit, k - 1), unit);
    }
  }

  /** One factor more, and one step less of the denominator. */
  lemma GrowthStep(g: real, h: real, s: real, r: real, unit: real)
    requires g >= 0.0 && unit >= 0.0 && s <= 1.0 && h == g * (1.0 + unit) && r == s - unit
    ensures h * r <= g * s
  {
    MulMonotone(0.0, g * unit, 1.0 + unit - s);
    assert g * (1.0 + unit) * (s - unit) == g * s - g * unit * (1.0 + unit - s);
  }

  /** `k u`. */
  function Multiple(k: nat, unit: real): real {
    k as real * unit
  }

  lemma MultipleNext(k: nat, unit: real)
    requires unit >= 0.0
    ensures Multiple(k + 1, unit) == Multiple(k, unit) + unit && Multiple(k, unit) >= 0.0 && Multiple(0, unit) == 0.0
  {
    MulMonotone(0.0, k as real, unit);
  }

  /** `(1 + u)^k <= 1 / (1 - k u)`. */
  lemma {:induction false} GrowthBound(unit: real, k: nat)
    requires unit >= 0.0
    ensures Growth(unit, k) * (1.0 - Multiple(k, unit)) <= 1.0
  {
    hide Multiple;
    MultipleNext(if k > 0 then k - 1 else 0, unit);
    if k > 0 {
      GrowthBound(unit, k - 1);
      assert Growth(unit, k) == Growth(unit, k - 1) * (1.0 + unit);
    }
    hide Growth;
    if k > 0 {
      GrowthStep(Growth(unit, k - 1), Growth(unit, k), 1.0 - Multiple(k - 1, unit), 1.0 - Multiple(k, unit), unit);
    }
  }

  // --------------------------------------------------------- the any-order bound

  /** `((1 + u)^k - 1) * m`. */
  function Excess(unit: real, k: nat, m: real): real
    requires unit >= 0.0
  {
    (Growth(unit, k) - 1.0) * m
  }

  lemma ExcessAdds(unit: real, k: nat, m1: real, m2: real)
    requires unit >= 0.0
    ensures Excess(unit, k, m1 + m2) == Excess(unit, k, m1) + Excess(unit, k, m2)
  {
  }

  /** A product that the linear steps need not look into. */
  function Product(x: real, y: real): real {
    x * y
  }

  lemma ProductBound(c: real, s: real, e: real, unit: real)
    requires Abs(c) <= s && Abs(e) <= unit
    ensures Abs(Product(c, e)) <= Product(s, unit)
  {
    MulMonotone(Abs(c), s, Abs(e));
    MulMonotone(Abs(e), unit, s);
    assert Abs(c * e) == Abs(c) * Abs(e);
  }

  /** One more rounding turns a bound on an operand into the excess of a larger exponent. */
  lemma ExcessStep(unit: real, j: nat, k: nat, m: real) returns (s: real)
    requires unit >= 0.0 && j < k && m >= 0.0
    ensures s == Excess(unit, j, m) + m && s + Product(s, unit) <= Excess(unit, k, m) + m
  {
    s := Growth(unit, j) * m;
    GrowthMonotone(unit, j + 1, k);
    assert Growth(unit, j + 1) == Growth(unit, j) * (1.0 + unit);
    hide Growth;
    OneMoreFactor(Growth(unit, j), Growth(unit, k), m, unit);
  }

  lemma OneMoreFactor(h: real, g: real, m: real, unit: real)
    requires h * (1.0 + unit) <= g && m >= 0.0
    ensures h * m + Product(h * m, unit) <= g * m
  {
    MulMonotone(h * (1.0 + unit), g, m);
  }

  /** The error of an operand, and what one more rounding adds to it. */
  lemma OperandErrs(c: real, x: real, m: real, e: real, unit: real, j: nat, k: nat)
    requires unit >= 0.0 && Abs(x) <= m && Abs(e) <= unit && j < k && Abs(c - x) <= Excess(unit, j, m)
    ensures Abs(c - x) + Abs(Product(c, e)) <= Excess(unit, k, m)
  {
    hide Excess, Product;
    var s := ExcessStep(unit, j, k, m);
    OperandBound(c, x, m, s);
    ProductBound(c, s, e, unit);
  }

  lemma OperandBound(c: real, x: real, m: real, s: real)
    requires Abs(x) <= m && Abs(c - x) <= s - m
    ensures Abs(c) <= s
  {
  }

  lemma ErrorsAdd(c1: real, x1: real, r1: real, b1: real, c2: real, x2: real, r2: real, b2: real)
    requires Abs(c1 - x1) + Abs(r1) <= b1 && Abs(c2 - x2) + Abs(r2) <= b2
    ensures Abs(c1 + r1 + c2 + r2 - (x1 + x2)) <= b1 + b2
  {
  }

  lemma AddUnfolds(a: Tree, b: Tree, e: real)
    ensures Computed(Add(a, b, e)) == Computed(a) + Product(Computed(a), e) + Computed(b) + Product(Computed(b), e)
    ensures Values(Add(a, b, e)) == Values(a) + Values(b)
  {
    RoundedSum(Computed(a), Computed(b), e);
    hide Product;
  }

  lemma RoundedSum(x: real, y: real, e: real)
    ensures (x + y) * (1.0 + e) == x + Product(x, e) + y + Product(y, e)
  {
  }

  /** The bound that a tree promises for its own sum. */
  ghost predicate ErrsWithin(t: Tree, unit: real)
    requires unit >= 0.0
  {
    if Values(t) == [] then Computed(t) == 0.0
    else Abs(Computed(t) - Sum(Values(t))) <= Excess(unit, |Values(t)| - 1, Magnitude(Values(t)))
  }

  /** One addition: the errors of the operands, and the rounding of their sum. */
  lemma AddWithin(a: Tree, b: Tree, e: real, unit: real)
    requires unit >= 0.0 && ErrsWithin(a, unit) && ErrsWithin(b, unit) && Values(a) != [] && Values(b) != []
    requires Abs(e) <= unit
    ensures ErrsWithin(Add(a, b, e), unit)
  {
    hide Sum, Magnitude, Growth, Abs, Excess, Computed, Values, Product;
    var xs, ys := Values(a), Values(b);
    var k := |xs| + |ys| - 1;
    SumBelowMagnitude(xs);
    SumBelowMagnitude(ys);
    SumConcat(xs, ys);
    AddUnfolds(a, b, e);
    assert Values(Add(a, b, e)) == xs + ys && |xs + ys| - 1 == k;
    OperandErrs(Computed(a), Sum(xs), Magnitude(xs), e, unit, |xs| - 1, k);
    OperandErrs(Computed(b), Sum(ys), Magnitude(ys), e, unit, |ys| - 1, k);
    ErrorsAdd(Computed(a), Sum(xs), Product(Computed(a), e), Excess(unit, k, Magnitude(xs)),
              Computed(b), Sum(ys), Product(Computed(b), e), Excess(unit, k, Magnitude(ys)));
    ExcessAdds(unit, k, Magnitude(xs), Magnitude(ys));
  }

  /** An operand that holds nothing changes neither the values nor the result. */
  lemma PaddingKeeps(a: Tree, b: Tree)
    ensures Values(a) == [] && Computed(a) == 0.0 ==>
              Values(Add(a, b, 0.0)) == Values(b) && Computed(Add(a, b, 0.0)) == Computed(b)
    ensures Values(b) == [] && Computed(b) == 0.0 ==>
              Values(Add(a, b, 0.0)) == Values(a) && Computed(Add(a, b, 0.0)) == Computed(a)
  {
    AddUnfolds(a, b, 0.0);
    assert Product(Computed(a), 0.0) == 0.0 && Product(Computed(b), 0.0) == 0.0;
    hide Computed, Values, Product;
  }

  lemma SameErrs(t: Tree, u: Tree, unit: real)
    requires unit >= 0.0 && ErrsWithin(u, unit) && Values(t) == Values(u) && Computed(t) == Computed(u)
    ensures ErrsWithin(t, unit)
  {
    hide Computed, Values, Sum, Magnitude, Excess, Abs;
  }

  lemma EmptyIsZero(t: Tree, unit: real)
    requires unit >= 0.0 && ErrsWithin(t, unit)
    ensures Values(t) == [] ==> Computed(t) == 0.0
  {
    hide Computed, Values, Sum, Magnitude, Excess, Abs;
  }

  lemma LeafWithin(t: Tree, unit: real)
    requires unit >= 0.0 && !t.Add?
    ensures ErrsWithin(t, unit)
  {
    if t.Value? {
      assert Growth(unit, 0) == 1.0;
      assert Sum([t.value]) == t.value by { assert [t.value][1..] == []; }
    }
  }

  /** For every order of summation: `n` values err by at most `(1 + u)^(n - 1) - 1` of their magnitude. */
  lemma {:induction false} AnyOrderError(t: Tree, f: Format, quantum: Option<real>)
    requires f.unit >= 0.0 && RoundedBy(t, f, quantum)
    ensures ErrsWithin(t, f.unit)
  {
    hide ErrsWithin, Growth, Excess, Sum, Magnitude, Abs, Representable;
    if t.Add? {
      AnyOrderError(t.a, f, quantum);
      AnyOrderError(t.b, f, quantum);
      if Values(t.a) == [] || Values(t.b) == [] {
        EmptyIsZero(t.a, f.unit);
        EmptyIsZero(t.b, f.unit);
        PaddingKeeps(t.a, t.b);
        assert t == Add(t.a, t.b, 0.0);
        SameErrs(t, if Values(t.a) == [] then t.b else t.a, f.unit);
      } else {
        AddWithin(t.a, t.b, t.error, f.unit);
      }
    } else {
      LeafWithin(t, f.unit);
    }
  }

  // --------------------------------------------------------------- exact grids

  /** The largest magnitude whose grid steps the format holds exactly. */
  function ExactLimit(f: Format, quantum: real): real {
    f.exactIntegers as real * quantum
  }

  lemma StepsBound(k: int, quantum: real, n: nat)
    requires quantum > 0.0 && Abs(k as real * quantum) <= n as real * quantum
    ensures 0 - n <= k <= n
  {
    CancelFactor(k as real, n as real, quantum);
    assert (0.0 - k as real) * quantum == 0.0 - k as real * quantum;
    CancelFactor(0.0 - k as real, n as real, quantum);
  }

  ghost predicate AllOnGrid(xs: seq<real>, quantum: real) {
    forall i :: 0 <= i < |xs| ==> OnGrid(xs[i], quantum)
  }

  lemma {:induction false} SumOnGrid(xs: seq<real>, quantum: real) returns (k: int)
    requires AllOnGrid(xs, quantum)
    ensures IsSteps(Sum(xs), k, quantum)
  {
    if xs == [] {
      k := 0;
    } else {
      assert OnGrid(xs[0], quantum);
      var first: int :| IsSteps(xs[0], first, quantum);
      assert forall i :: 0 <= i < |xs[1..]| ==> xs[1..][i] == xs[i + 1];
      var rest := SumOnGrid(xs[1..], quantum);
      k := first + rest;
    }
  }

  lemma GridParts(xs: seq<real>, ys: seq<real>, quantum: real)
    requires AllOnGrid(xs + ys, quantum)
    ensures AllOnGrid(xs, quantum) && AllOnGrid(ys, quantum)
  {
    assert xs == (xs + ys)[..|xs|] && ys == (xs + ys)[|xs|..];
  }

  lemma StepsInLimit(x: real, k: int, f: Format, quantum: real)
    requires quantum > 0.0 && IsSteps(x, k, quantum) && Abs(x) <= ExactLimit(f, quantum)
    ensures Representable(x, f, Some(quantum))
  {
    StepsBound(k, quantum, f.exactIntegers);
  }

  /** A sum of grid values of a small enough magnitude is one the format holds. */
  lemma SmallSumIsRepresentable(xs: seq<real>, f: Format, quantum: real)
    requires quantum > 0.0 && AllOnGrid(xs, quantum) && Magnitude(xs) <= ExactLimit(f, quantum)
    ensures Representable(Sum(xs), f, Some(quantum))
  {
    SumBelowMagnitude(xs);
    var k := SumOnGrid(xs, quantum);
    StepsInLimit(Sum(xs), k, f, quantum);
    hide *;
  }

  /** Grid values of a small enough magnitude: every partial sum in any order is exact. */
  lemma {:induction false} SmallGridIsExact(t: Tree, f: Format, quantum: real)
    requires quantum > 0.0 && RoundedBy(t, f, Some(quantum)) && AllOnGrid(Values(t), quantum)
    requires Magnitude(Values(t)) <= ExactLimit(f, quantum)
    ensures Computed(t) == Sum(Values(t))
  {
    match t
    case Zero =>
    case Value(v) =>
      assert Sum([v]) == v by { assert [v][1..] == []; }
    case Add(a, b, e) =>
      SumConcat(Values(a), Values(b));
      GridParts(Values(a), Values(b), quantum);
      hide ExactLimit, Abs, Sum, Magnitude, AllOnGrid, Representable;
      SmallGridIsExact(a, f, quantum);
      SmallGridIsExact(b, f, quantum);
      SmallSumIsRepresentable(Values(t), f, quantum);
      ExactAdd(a, b);
  }

  lemma ExactAdd(a: Tree, b: Tree)
    ensures Computed(Add(a, b, 0.0)) == Computed(a) + Computed(b)
  {
    AddUnfolds(a, b, 0.0);
    ProductZero(Computed(a));
    ProductZero(Computed(b));
    hide Computed, Values, Product;
  }

  lemma ProductZero(x: real)
    ensures Product(x, 0.0) == 0.0
  {
  }

  // ------------------------------------------------------------ the tolerance

  datatype Tolerance = Finite(bound: real) | Infinite

  function Doubled(t: Tolerance): Tolerance {
    match t
    case Finite(bound) => Finite(2.0 * bound)
    case Infinite => Infinite
  }

  function Steps(n: nat, unit: real): real {
    Multiple(if n == 0 then 0 else n - 1, unit)
  }

  /** `k u / (1 - k u)`, of `k u`. */
  function Gamma(steps: real): real
    requires steps < 1.0
  {
    steps / (1.0 - steps)
  }

  function SumTolerance(n: nat, magnitude: real, quantum: Option<real>, f: Format): Tolerance {
    var steps := Steps(n, f.unit);
    var tolerance := if steps < 0.5 then Finite(Gamma(steps) * magnitude) else Infinite;
    if quantum.Some? && magnitude <= ExactLimit(f, quantum.value) then Finite(0.0) else tolerance
  }

  ghost predicate Within(error: real, t: Tolerance) {
    t.Finite? ==> Abs(error) <= t.bound
  }

  /** The grid is that of every value, and the format's unit is not negative. */
  ghost predicate Promised(xs: seq<real>, f: Format, quantum: Option<real>) {
    f.unit >= 0.0 && (quantum.Some? ==> quantum.value > 0.0 && AllOnGrid(xs, quantum.value))
  }

  lemma Quotient(g: real, s: real)
    requires s < 1.0 && g * (1.0 - s) <= 1.0
    ensures g - 1.0 <= Gamma(s)
  {
    var d := 1.0 - s;
    var q := s / d;
    assert q * d == s;
    CancelFactor(g - 1.0, q, d);
  }

  /** The excess is below `gamma(n - 1) * m`. */
  lemma ExcessBelowGamma(unit: real, n: nat, m: real)
    requires unit >= 0.0 && n > 0 && m >= 0.0 && Steps(n, unit) < 0.5
    ensures Excess(unit, n - 1, m) <= Gamma(Steps(n, unit)) * m
  {
    GrowthBound(unit, n - 1);
    var s := Steps(n, unit);
    assert s == Multiple(n - 1, unit);
    hide Growth, Steps, Multiple;
    Quotient(Growth(unit, n - 1), s);
    hide Gamma;
    MulMonotone(Growth(unit, n - 1) - 1.0, Gamma(s), m);
  }

  /** Every order of summation is within the tolerance of the exact sum. */
  lemma SumWithinTolerance(t: Tree, f: Format, quantum: Option<real>)
    requires Promised(Values(t), f, quantum) && RoundedBy(t, f, quantum)
    ensures Within(Computed(t) - Sum(Values(t)), SumTolerance(|Values(t)|, Magnitude(Values(t)), quantum, f))
  {
    var xs := Values(t);
    hide Computed, Values, Growth, Excess, Steps, Gamma, Sum, Magnitude, RoundedBy, AllOnGrid, Representable,
      ExactLimit;
    EmptyTolerance(quantum, f);
    if quantum.Some? && Magnitude(xs) <= ExactLimit(f, quantum.value) {
      assert quantum == Some(quantum.value);
      SmallGridIsExact(t, f, quantum.value);
    } else {
      AnyOrderError(t, f, quantum);
      if xs != [] && Steps(|xs|, f.unit) < 0.5 { ExcessBelowGamma(f.unit, |xs|, Magnitude(xs)); }
    }
  }

  lemma EmptyTolerance(quantum: Option<real>, f: Format)
    ensures SumTolerance(0, 0.0, quantum, f) == Finite(0.0)
    ensures Sum([]) == 0.0 && Magnitude([]) == 0.0
  {
  }

  lemma GridOfPermutation(xs: seq<real>, ys: seq<real>, quantum: real)
    requires multiset(xs) == multiset(ys) && AllOnGrid(xs, quantum)
    ensures AllOnGrid(ys, quantum)
  {
    forall i | 0 <= i < |ys| ensures OnGrid(ys[i], quantum) {
      assert ys[i] in multiset(xs);
    }
  }

  /** Two orders of the same values, one of them the reference, are within twice the tolerance. */
  lemma TwoOrdersWithinTwice(t: Tree, r: Tree, f: Format, quantum: Option<real>)
    requires Promised(Values(t), f, quantum) && RoundedBy(t, f, quantum) && RoundedBy(r, f, quantum)
    requires multiset(Values(t)) == multiset(Values(r))
    ensures Within(Computed(t) - Computed(r), Doubled(SumTolerance(|Values(t)|, Magnitude(Values(t)), quantum, f)))
  {
    hide Computed, Values, SumTolerance, RoundedBy, Within, Doubled, Sum, Magnitude, AllOnGrid, Abs;
    SumOfPermutation(Values(t), Values(r));
    if quantum.Some? { GridOfPermutation(Values(t), Values(r), quantum.value); }
    SumWithinTolerance(t, f, quantum);
    SumWithinTolerance(r, f, quantum);
    BothWithin(Computed(t), Computed(r), Sum(Values(t)), SumTolerance(|Values(t)|, Magnitude(Values(t)), quantum, f));
  }

  lemma BothWithin(x: real, y: real, s: real, t: Tolerance)
    requires Within(x - s, t) && Within(y - s, t)
    ensures Within(x - y, Doubled(t))
  {
  }

  // ------------------------------------------------------------------- means

  /** A mean, and the one whose division rounds. */
  function Mean(sum: real, n: nat): real
    requires n > 0
  {
    sum / n as real
  }

  function RoundedMean(sum: real, n: nat, d: real): real
    requires n > 0
  {
    Product(Mean(sum, n), 1.0 + d)
  }

  /** Of one mean: the sum bound over the length, and two units of the reference. */
  function MeanTolerance(n: nat, sum: Tolerance, reference: real, f: Format): Tolerance {
    if n == 0 then Finite(0.0)
    else match sum
      case Finite(bound) => Finite(Mean(bound, n) + Product(2.0 * f.unit, Abs(reference)))
      case Infinite => Infinite
  }

  /** `(1 + u) ((1 + u)^k - 1) <= gamma(k)`: the sum bound has room for the division. */
  lemma {:induction false} GrowthBoundWithDivision(unit: real, k: nat)
    requires unit >= 0.0 && Multiple(k, unit) < 1.0
    ensures Growth(unit, k) * (1.0 + unit) * (1.0 - Multiple(k, unit)) <= Room(Multiple(k, unit), unit)
  {
    hide Multiple, Room, Growth;
    if k == 0 {
      MultipleNext(0, unit);
      RoomAtStart(unit);
    } else {
      MultipleNext(k - 1, unit);
      GrowthBoundWithDivision(unit, k - 1);
      GrowthNext(unit, k - 1);
      DivisionStepTo(Growth(unit, k - 1), Growth(unit, k), Multiple(k - 1, unit), Multiple(k, unit), unit);
    }
  }

  lemma GrowthNext(unit: real, k: nat)
    requires unit >= 0.0
    ensures Growth(unit, k + 1) == Growth(unit, k) * (1.0 + unit)
  {
  }

  lemma RoomAtStart(unit: real)
    requires unit >= 0.0
    ensures Growth(unit, 0) * (1.0 + unit) * (1.0 - 0.0) <= Room(0.0, unit)
  {
  }

  /** `1 + u - b u`, and the two factors that one more step multiplies by. */
  function Room(b: real, u: real): real {
    1.0 + u - b * u
  }

  function TwoFactors(c: real, u: real): real {
    (1.0 + u) * (1.0 - c)
  }

  lemma DivisionStepTo(g: real, h: real, b: real, c: real, u: real)
    requires u >= 0.0 && b >= 0.0 && c == b + u < 1.0 && h == g * (1.0 + u) && g * (1.0 + u) * (1.0 - b) <= Room(b, u)
    ensures h * (1.0 + u) * (1.0 - c) <= Room(c, u)
  {
    assert h * (1.0 - b) <= Room(b, u);
    DivisionStep(h, b, c, u);
    assert h * TwoFactors(c, u) == h * (1.0 + u) * (1.0 - c);
    hide Room, TwoFactors;
  }

  lemma DivisionStep(g: real, b: real, c: real, u: real)
    requires u >= 0.0 && b >= 0.0 && c == b + u < 1.0 && g * (1.0 - b) <= Room(b, u)
    ensures g * TwoFactors(c, u) <= Room(c, u)
  {
    hide Room, TwoFactors;
    DivisionRoom(b, c, u);
    var p, r := TwoFactors(c, u), g * (1.0 - b);
    MulMonotone(r, Room(b, u), p);
    assert r * p == g * p * (1.0 - b);
    CancelFactor(g * p, Room(c, u), 1.0 - b);
  }

  lemma DivisionRoom(b: real, c: real, u: real)
    requires u >= 0.0 && b >= 0.0 && c == b + u < 1.0
    ensures TwoFactors(c, u) >= 0.0 && Room(b, u) * TwoFactors(c, u) <= Room(c, u) * (1.0 - b)
  {
    hide Room, TwoFactors;
    RoomIsAtLeastOne(b, u);
    FactorsAreNotNegative(c, u);
    RoomGap(b, c, Room(b, u), u);
    var gap := c * Room(b, u) - u * (1.0 - b);
    MulMonotone(0.0, gap, u);
    RoomIdentity(b, u);
  }

  lemma RoomIsAtLeastOne(b: real, u: real)
    requires b <= 1.0 && u >= 0.0
    ensures Room(b, u) >= 1.0
  {
    MulMonotone(b, 1.0, u);
  }

  lemma FactorsAreNotNegative(c: real, u: real)
    requires c <= 1.0 && u >= 0.0
    ensures TwoFactors(c, u) >= 0.0
  {
    MulMonotone(0.0, 1.0 + u, 1.0 - c);
  }

  lemma RoomGap(b: real, c: real, x: real, u: real)
    requires u >= 0.0 && b >= 0.0 && c == b + u && x >= 1.0
    ensures c * x - u * (1.0 - b) >= 0.0
  {
    MulMonotone(1.0, x, c);
    MulMonotone(0.0, b, u);
  }

  lemma RoomIdentity(b: real, u: real)
    ensures Room(b + u, u) * (1.0 - b) - Room(b, u) * TwoFactors(b + u, u) == u * ((b + u) * Room(b, u) - u * (1.0 - b))
  {
  }

  /** The error of a sum, and that its tolerance has room for one more rounding of it. */
  lemma SumRoom(t: Tree, f: Format, quantum: Option<real>) returns (err: real)
    requires Promised(Values(t), f, quantum) && RoundedBy(t, f, quantum)
    ensures Abs(Computed(t) - Sum(Values(t))) <= err
    ensures var tolerance := SumTolerance(|Values(t)|, Magnitude(Values(t)), quantum, f);
            tolerance.Finite? ==> Product(err, 1.0 + f.unit) <= tolerance.bound
  {
    var xs := Values(t);
    hide Computed, Values, Growth, Excess, Sum, Magnitude, RoundedBy, AllOnGrid, Representable, ExactLimit, Steps,
      Gamma;
    EmptyTolerance(quantum, f);
    if quantum.Some? && Magnitude(xs) <= ExactLimit(f, quantum.value) {
      assert quantum == Some(quantum.value);
      SmallGridIsExact(t, f, quantum.value);
      err := 0.0;
    } else {
      AnyOrderError(t, f, quantum);
      if xs == [] {
        err := 0.0;
      } else {
        err := Excess(f.unit, |xs| - 1, Magnitude(xs));
        if Steps(|xs|, f.unit) < 0.5 { ExcessRoom(f.unit, |xs|, Magnitude(xs)); }
      }
    }
  }

  lemma ExcessRoom(unit: real, n: nat, m: real)
    requires unit >= 0.0 && n > 0 && m >= 0.0 && Steps(n, unit) < 0.5
    ensures Product(Excess(unit, n - 1, m), 1.0 + unit) <= Gamma(Steps(n, unit)) * m
  {
    var s := Steps(n, unit);
    assert s == Multiple(n - 1, unit);
    hide Multiple;
    GrowthBoundWithDivision(unit, n - 1);
    var g := Growth(unit, n - 1);
    assert Excess(unit, n - 1, m) == (g - 1.0) * m;
    hide Growth, Steps, Excess;
    RoomOfGamma(g, s, unit);
    hide Gamma;
    RoomScaled(g - 1.0, unit, Gamma(s), m);
  }

  lemma RoomScaled(x: real, unit: real, gamma: real, m: real)
    requires x * (1.0 + unit) <= gamma && m >= 0.0
    ensures Product(x * m, 1.0 + unit) <= gamma * m
  {
    MulMonotone(x * (1.0 + unit), gamma, m);
  }

  lemma RoomOfGamma(g: real, s: real, unit: real)
    requires s < 1.0 && g * (1.0 + unit) * (1.0 - s) <= Room(s, unit)
    ensures (g - 1.0) * (1.0 + unit) <= Gamma(s)
  {
    var q, x := Gamma(s), (g - 1.0) * (1.0 + unit);
    assert q * (1.0 - s) == s;
    assert x * (1.0 - s) <= s;
    CancelFactor(x, q, 1.0 - s);
  }

  // The linear structure of a mean.

  lemma MeanAdds(x: real, y: real, n: nat)
    requires n > 0
    ensures Mean(x + y, n) == Mean(x, n) + Mean(y, n) && Mean(x - y, n) == Mean(x, n) - Mean(y, n)
  {
  }

  lemma MeanMonotone(x: real, y: real, n: nat)
    requires n > 0 && x <= y
    ensures Mean(x, n) <= Mean(y, n)
  {
    var a, b := Mean(x, n), Mean(y, n);
    assert a * n as real == x && b * n as real == y;
    CancelFactor(a, b, n as real);
  }

  lemma MeanAbs(x: real, y: real, n: nat)
    requires n > 0 && Abs(x) <= y
    ensures Abs(Mean(x, n)) <= Mean(y, n)
  {
    MeanMonotone(x, y, n);
    MeanMonotone(0.0 - x, y, n);
    MeanAdds(0.0, x, n);
    assert Mean(0.0, n) == 0.0;
    hide Mean;
  }

  lemma MeanTimes(x: real, e: real, n: nat)
    requires n > 0
    ensures Product(Mean(x, n), e) == Mean(Product(x, e), n)
  {
  }

  lemma ProductAdds(x: real, y: real, z: real)
    ensures Product(x + y, z) == Product(x, z) + Product(y, z) && Product(z, x + y) == Product(z, x) + Product(z, y)
    ensures Product(x, y) == Product(y, x) && Product(x, 1.0) == x
  {
  }

  /** A mean of an inexact sum, rounded once more. */
  lemma MeanErrs(c: real, s: real, n: nat, d: real, unit: real, err: real, bound: real)
    requires n > 0 && Abs(c - s) <= err && Product(err, 1.0 + unit) <= bound && Abs(d) <= unit
    ensures Abs(RoundedMean(c, n, d) - Mean(s, n)) <= Mean(bound, n) + Product(unit, Abs(Mean(s, n)))
  {
    var x := Mean(s, n);
    assert Abs(1.0 + d) <= 1.0 + unit;
    hide Product, Mean;
    ProductBound(c - s, err, 1.0 + d, 1.0 + unit);
    MeanAbs(Product(c - s, 1.0 + d), bound, n);
    MeanTimes(c - s, 1.0 + d, n);
    MeanAdds(c, s, n);
    ProductBound(x, Abs(x), d, unit);
    ProductAdds(Abs(x), unit, 0.0);
    ProductAdds(Mean(c - s, n), x, 1.0 + d);
    ProductAdds(1.0, d, x);
    ProductAdds(x, 1.0, 0.0);
  }

  lemma MeanWithin(c: real, s: real, n: nat, f: Format, d: real, err: real, tolerance: Tolerance)
    requires n > 0 && f.unit >= 0.0 && Abs(c - s) <= err && Abs(d) <= f.unit
    requires tolerance.Finite? ==> Product(err, 1.0 + f.unit) <= tolerance.bound
    ensures Within(RoundedMean(c, n, d) - Mean(s, n), MeanTolerance(n, tolerance, Mean(s, n), f))
  {
    if tolerance.Finite? {
      MeanErrs(c, s, n, d, f.unit, err, tolerance.bound);
      hide Abs, RoundedMean, Mean;
      TwoUnits(f.unit, Abs(Mean(s, n)));
      hide Product;
    }
  }

  /** A mean that rounds its sum and its division is within the tolerance of the exact mean. */
  lemma MeanWithinTolerance(t: Tree, f: Format, quantum: Option<real>, d: real)
    requires Promised(Values(t), f, quantum) && RoundedBy(t, f, quantum) && Values(t) != [] && Abs(d) <= f.unit
    ensures var n, reference := |Values(t)|, Mean(Sum(Values(t)), |Values(t)|);
            Within(RoundedMean(Computed(t), n, d) - reference,
                   MeanTolerance(n, SumTolerance(n, Magnitude(Values(t)), quantum, f), reference, f))
  {
    hide Computed, Sum, Values, Magnitude, SumTolerance, RoundedBy, Abs, MeanTolerance, RoundedMean, Mean, Within,
      Product;
    var err := SumRoom(t, f, quantum);
    MeanWithin(Computed(t), Sum(Values(t)), |Values(t)|, f, d, err,
               SumTolerance(|Values(t)|, Magnitude(Values(t)), quantum, f));
  }

  lemma TwoUnits(unit: real, x: real)
    requires unit >= 0.0 && x >= 0.0
    ensures 0.0 <= Product(unit, x) && Product(2.0 * unit, x) == Product(unit, x) + Product(unit, x)
  {
    MulMonotone(0.0, unit, x);
  }

  // ----------------------------------------------- a reference that rounds as well

  /** Rounding to nearest errs by at most `u / (1 + u)`. */
  predicate Nearest(d: real, unit: real) {
    Product(Abs(d), 1.0 + unit) <= unit
  }

  /** Two quotients of inexact sums, each rounded to nearest. */
  lemma TwoQuotients(x: real, y: real, d: real, e: real, unit: real, gap: real, bound: real)
    requires unit >= 0.0 && Abs(x - y) <= gap && Product(gap, 1.0 + unit) <= bound
    requires Nearest(d, unit) && Nearest(e, unit)
    ensures Abs(Product(x, 1.0 + d) - Product(y, 1.0 + e)) <= bound + Product(2.0 * unit, Abs(Product(y, 1.0 + e)))
  {
    NearestIsBelow(d, unit);
    NearestIsBelow(e, unit);
    ProductBound(x - y, gap, 1.0 + d, 1.0 + unit);
    NearestDifference(y, d, e, unit);
    TwoProducts(x, y, d, e);
    hide Product;
  }

  lemma TwoProducts(x: real, y: real, d: real, e: real)
    ensures Product(x, 1.0 + d) - Product(y, 1.0 + e) == Product(x - y, 1.0 + d) + Product(y, d - e)
  {
  }

  lemma NearestIsBelow(d: real, unit: real)
    requires unit >= 0.0 && Nearest(d, unit)
    ensures Abs(d) <= unit && Abs(1.0 + d) <= 1.0 + unit
  {
    MulMonotone(0.0, Abs(d), unit);
  }

  /** The difference of two roundings, relative to one of them. */
  lemma NearestDifference(y: real, d: real, e: real, unit: real)
    requires unit >= 0.0 && Nearest(d, unit) && Nearest(e, unit)
    ensures Abs(Product(y, d - e)) <= Product(2.0 * unit, Abs(Product(y, 1.0 + e)))
  {
    var v := if Abs(d) > Abs(e) then Abs(d) else Abs(e);
    NearestScale(v, Abs(1.0 + e), unit, Abs(y));
    assert Abs(d - e) <= 2.0 * v;
    hide Product;
    ProductBound(y, Abs(y), d - e, 2.0 * v);
    ProductAbs(y, 1.0 + e);
  }

  lemma NearestScale(v: real, w: real, unit: real, y: real)
    requires unit >= 0.0 && v >= 0.0 && y >= 0.0 && Product(v, 1.0 + unit) <= unit
    ensures 1.0 - v <= w ==> Product(y, 2.0 * v) <= Product(2.0 * unit, Product(y, w))
  {
    if 1.0 - v <= w {
      MulMonotone(1.0 - v, w, unit);
      assert v <= w * unit;
      MulMonotone(v, w * unit, 2.0 * y);
    }
  }

  lemma ProductAbs(x: real, y: real)
    ensures Abs(Product(x, y)) == Product(Abs(x), Abs(y))
  {
  }

  lemma DoubleMeanWithin(c: real, s: real, r: real, n: nat, f: Format, d: real, e: real, err: real, errOfR: real,
                         bound: real)
    requires n > 0 && f.unit >= 0.0 && Abs(c - s) <= err && Abs(r - s) <= errOfR && Nearest(d, f.unit)
    requires Nearest(e, f.unit)
    requires Product(err, 1.0 + f.unit) <= bound && Product(errOfR, 1.0 + f.unit) <= bound
    ensures var reference := RoundedMean(r, n, e);
            Within(RoundedMean(c, n, d) - reference, MeanTolerance(n, Finite(2.0 * bound), reference, f))
  {
    assert Abs(c - r) <= err + errOfR;
    hide Product, Mean, Nearest, Abs;
    MeanAbs(c - r, err + errOfR, n);
    MeanAdds(c, r, n);
    ProductAdds(err, errOfR, 1.0 + f.unit);
    MeanTimes(err + errOfR, 1.0 + f.unit, n);
    MeanMonotone(Product(err + errOfR, 1.0 + f.unit), 2.0 * bound, n);
    TwoQuotients(Mean(c, n), Mean(r, n), d, e, f.unit, Mean(err + errOfR, n), Mean(2.0 * bound, n));
  }

  /** In a type whose reference rounds too, doubling the sum bound covers both means; an infinite one checks nothing. */
  lemma DoubleMeanWithinTolerance(t: Tree, r: Tree, f: Format, quantum: Option<real>, d: real, e: real)
    requires Promised(Values(t), f, quantum) && RoundedBy(t, f, quantum) && RoundedBy(r, f, quantum) && Values(t) != []
    requires multiset(Values(t)) == multiset(Values(r)) && Nearest(d, f.unit) && Nearest(e, f.unit)
    ensures var n, reference := |Values(t)|, RoundedMean(Computed(r), |Values(t)|, e);
            var sum := SumTolerance(n, Magnitude(Values(t)), quantum, f);
            sum.Finite? ==>
              Within(RoundedMean(Computed(t), n, d) - reference,
                     MeanTolerance(n, Finite(2.0 * sum.bound), reference, f))
  {
    hide Computed, Sum, Values, Magnitude, SumTolerance, RoundedBy, Abs, MeanTolerance, RoundedMean, Mean, Within,
      Product, Nearest, AllOnGrid;
    SumOfPermutation(Values(t), Values(r));
    if quantum.Some? { GridOfPermutation(Values(t), Values(r), quantum.value); }
    var err := SumRoom(t, f, quantum);
    var errOfR := SumRoom(r, f, quantum);
    var sum := SumTolerance(|Values(t)|, Magnitude(Values(t)), quantum, f);
    if sum.Finite? {
      DoubleMeanWithin(Computed(t), Sum(Values(t)), Computed(r), |Values(t)|, f, d, e, err, errOfR, sum.bound);
    }
  }

  lemma PositiveProduct(a: real, b: real)
    requires a > 0.0 && b > 0.0
    ensures a * b > 0.0
  {
  }

  lemma CubicIsNegative(x: real)
    requires 0.625 <= x < 1.0
    ensures 1.0 + x * x * x < 2.0 * x
  {
    assert x * x >= 0.625 * x;
    PositiveProduct(1.0 - x, x * x + x - 1.0);
    assert (1.0 - x) * (x * x + x - 1.0) == x * x - x * (x * x) + x - x * x - 1.0 + x;
  }

  /**
   The doubled tolerance of the mean of two ones, times `1 - u`, is below the
   distance of the two means, times `1 - u`.
  */
  lemma TightAtOnes(u: real)
    requires 0.0 < u <= 0.375
    ensures 2.0 * Gamma(u) + 2.0 * u * ((1.0 - u) * (1.0 - u)) < 4.0 * u
  {
    var x, g := 1.0 - u, Gamma(u);
    assert g * x == u;
    CubicIsNegative(x);
    var tolerance := 2.0 * g + 2.0 * u * (x * x);
    var gap := 2.0 * u * (2.0 * x - (1.0 + x * x * x));
    ToleranceTimes(u, x, g);
    PositiveProduct(2.0 * u, 2.0 * x - (1.0 + x * x * x));
    BelowByGap(tolerance, 4.0 * u, x, gap);
  }

  lemma ToleranceTimes(u: real, x: real, g: real)
    requires g * x == u
    ensures (2.0 * g + 2.0 * u * (x * x)) * x == 4.0 * u * x - 2.0 * u * (2.0 * x - (1.0 + x * x * x))
  {
    assert 2.0 * g * x == 2.0 * u;
    assert 2.0 * u * (x * x) * x == 2.0 * u * (x * x * x);
  }

  lemma BelowByGap(a: real, b: real, x: real, gap: real)
    requires x > 0.0 && gap > 0.0 && a * x == b * x - gap
    ensures a < b
  {
    if a >= b { MulMonotone(b, a, x); }
  }

  lemma OnesMean(u: real, s: real)
    requires s == u || s == -u
    ensures RoundedMean(2.0 * (1.0 + s), 2, s) == (1.0 + s) * (1.0 + s)
  {
    assert Mean(2.0 * (1.0 + s), 2) == 1.0 + s;
  }

  /**
   With no more than a relative error of one unit, the same tolerance is not
   enough, in any format of unit at most 3/8.
  */
  lemma OneUnitIsNotEnough(u: real) returns (t: Tree, r: Tree, d: real, e: real)
    requires 0.0 < u <= 0.375
    ensures var f := Format(u, 0);
            && Promised(Values(t), f, None) && RoundedBy(t, f, None) && RoundedBy(r, f, None)
            && Values(t) == Values(r) != []
            && Abs(d) <= u && Abs(e) <= u
            && var n, reference := |Values(t)|, RoundedMean(Computed(r), |Values(t)|, e);
               var sum := SumTolerance(n, Magnitude(Values(t)), None, f);
               && sum.Finite?
               && !Within(RoundedMean(Computed(t), n, d) - reference,
                          MeanTolerance(n, Finite(2.0 * sum.bound), reference, f))
  {
    var one, f := Value(1.0), Format(u, 0);
    t, r, d, e := Add(one, one, u), Add(one, one, -u), u, -u;
    assert Values(t) == [1.0, 1.0] && Values(r) == [1.0, 1.0];
    assert Magnitude([1.0, 1.0]) == 2.0;
    assert Computed(t) == 2.0 * (1.0 + u) && Computed(r) == 2.0 * (1.0 - u);
    OnesMean(u, u);
    OnesMean(u, -u);
    TightAtOnes(u);
    SquaresDiffer(u);
    assert Steps(2, u) == u by { assert Multiple(1, u) == u; }
    hide Gamma, RoundedMean;
    assert SumTolerance(2, 2.0, None, f) == Finite(Gamma(u) * 2.0);
    assert Mean(2.0 * (Gamma(u) * 2.0), 2) == 2.0 * Gamma(u);
  }

  lemma SquaresDiffer(u: real)
    requires 0.0 < u < 1.0
    ensures (1.0 + u) * (1.0 + u) - (1.0 - u) * (1.0 - u) == 4.0 * u && (1.0 - u) * (1.0 - u) >= 0.0
  {
  }

  // --------------------------------------------- what the tolerances admit

  /** On a grid that holds every partial sum, no error at all. */
  lemma ExactSumAdmitsNoError(n: nat, magnitude: real, quantum: real, f: Format, error: real)
    requires magnitude <= f.exactIntegers as real * quantum
    ensures Within(error, SumTolerance(n, magnitude, Some(quantum), f)) <==> error == 0.0
  {
  }

  lemma StepsAre(n: nat, k: nat, unit: real)
    requires k == if n == 0 then 0 else n - 1
    ensures Steps(n, unit) == k as real * unit
  {
  }

  lemma ToleranceOfSteps(n: nat, magnitude: real, quantum: Option<real>, f: Format)
    requires quantum.Some? ==> magnitude > ExactLimit(f, quantum.value)
    ensures var steps, t := Steps(n, f.unit), SumTolerance(n, magnitude, quantum, f);
            if steps < 0.5 then t == Finite(Gamma(steps) * magnitude) else t.Infinite?
  {
    hide Steps, ExactLimit, Gamma;
  }

  /** Elsewhere `k u / (1 - k u)` of the magnitude, for the `k` additions, and anything from `k u = 1 / 2` on. */
  lemma SumToleranceIs(n: nat, k: nat, steps: real, magnitude: real, quantum: Option<real>, f: Format)
    requires quantum.Some? ==> magnitude > f.exactIntegers as real * quantum.value
    requires (k == if n == 0 then 0 else n - 1) && steps == k as real * f.unit
    ensures var t := SumTolerance(n, magnitude, quantum, f);
            if steps < 0.5 then t.Finite? && t.bound * (1.0 - steps) == steps * magnitude else t.Infinite?
  {
    StepsAre(n, k, f.unit);
    ToleranceOfSteps(n, magnitude, quantum, f);
    hide Steps, SumTolerance, Gamma;
    if steps < 0.5 {
      GammaIs(steps);
      GammaTimes(Gamma(steps), steps, magnitude);
    }
  }

  lemma GammaIs(steps: real)
    requires steps < 0.5
    ensures Gamma(steps) * (1.0 - steps) == steps
  {
  }

  lemma GammaTimes(gamma: real, steps: real, magnitude: real)
    requires gamma * (1.0 - steps) == steps
    ensures gamma * magnitude * (1.0 - steps) == steps * magnitude
  {
    assert gamma * magnitude * (1.0 - steps) == gamma * (1.0 - steps) * magnitude;
  }

  /** So an error is admitted exactly when it is that small. */
  lemma SumAdmits(n: nat, k: nat, steps: real, magnitude: real, quantum: Option<real>, f: Format, error: real)
    requires quantum.Some? ==> magnitude > f.exactIntegers as real * quantum.value
    requires (k == if n == 0 then 0 else n - 1) && steps == k as real * f.unit
    ensures Within(error, SumTolerance(n, magnitude, quantum, f))
       <==> (steps < 0.5 ==> Abs(error) * (1.0 - steps) <= steps * magnitude)
  {
    SumToleranceIs(n, k, steps, magnitude, quantum, f);
    var t := SumTolerance(n, magnitude, quantum, f);
    hide SumTolerance;
    if steps < 0.5 { TimesPositive(Abs(error), t.bound, 1.0 - steps); }
  }

  lemma TimesPositive(a: real, b: real, x: real)
    requires x > 0.0
    ensures a <= b <==> a * x <= b * x
  {
    if a <= b { MulMonotone(a, b, x); }
    if a > b { BelowByFactorStrict(b, a, x); }
  }

  lemma BelowByFactorStrict(a: real, b: real, x: real)
    requires x > 0.0 && a < b
    ensures a * x < b * x
  {
    PositiveProduct(b - a, x);
    assert (b - a) * x == b * x - a * x;
  }

  /** Against a reference that rounds too, twice as much. */
  lemma DoubledAdmits(t: Tolerance, error: real)
    ensures Within(error, Doubled(t)) <==> (t.Finite? ==> Abs(error) <= 2.0 * t.bound)
  {
  }

  /** Of a mean, the bound of the sum over the length and two units of the reference; of nothing, no error. */
  lemma MeanAdmits(n: nat, sum: Tolerance, reference: real, f: Format, error: real)
    ensures n == 0 ==> (Within(error, MeanTolerance(n, sum, reference, f)) <==> error == 0.0)
    ensures n > 0 && sum.Finite? ==>
              (Within(error, MeanTolerance(n, sum, reference, f))
               <==> (Abs(error) - 2.0 * f.unit * Abs(reference)) * n as real <= sum.bound)
    ensures n > 0 && sum.Infinite? ==> Within(error, MeanTolerance(n, sum, reference, f))
  {
    if n > 0 && sum.Finite? {
      TimesPositive(Abs(error) - 2.0 * f.unit * Abs(reference), Mean(sum.bound, n), n as real);
      assert Mean(sum.bound, n) * n as real == sum.bound;
    }
  }

  /** Rounding to nearest: a relative error of at most `u / (1 + u)`. */
  lemma NearestIff(d: real, unit: real)
    requires unit >= 0.0
    ensures Nearest(d, unit) <==> Abs(d) <= unit / (1.0 + unit)
  {
    TimesPositive(Abs(d), unit / (1.0 + unit), 1.0 + unit);
  }
}
