/** The two weighted medians of src/price/graph.ts, and what the selected element means. */
module WeightedMedian {
  import opened Wrappers
  import opened StableSort
  import opened PathTypes

  // ---------------------------------------------------------------- weight of a part of a list

  datatype Side = Everything | Before | After

  /** What `y` weighs towards one side of `x`. */
  function Part<T>(side: Side, y: T, x: T, lt: (T, T) -> bool, w: T -> nat): nat {
    match side
    case Everything => w(y)
    case Before => if lt(y, x) then w(y) else 0
    case After => if lt(x, y) then w(y) else 0
  }

  /** Total weight of the elements of `s` on one side of `x`. */
  function Mass<T>(side: Side, s: seq<T>, x: T, lt: (T, T) -> bool, w: T -> nat): nat {
    if s == [] then 0 else Part(side, s[0], x, lt, w) + Mass(side, s[1..], x, lt, w)
  }

  lemma {:induction false} MassAppend<T>(side: Side, a: seq<T>, b: seq<T>, x: T, lt: (T, T) -> bool, w: T -> nat)
    ensures Mass(side, a + b, x, lt, w) == Mass(side, a, x, lt, w) + Mass(side, b, x, lt, w)
  {
    if a == [] {
      assert a + b == b;
    } else {
      assert (a + b)[0] == a[0] && (a + b)[1..] == a[1..] + b;
      MassAppend(side, a[1..], b, x, lt, w);
    }
  }

  lemma MassWithout<T>(side: Side, s: seq<T>, i: nat, x: T, lt: (T, T) -> bool, w: T -> nat)
    requires i < |s|
    ensures Mass(side, s, x, lt, w) == Part(side, s[i], x, lt, w) + Mass(side, s[..i] + s[i + 1..], x, lt, w)
  {
    var tail := [s[i]] + s[i + 1..];
    assert s == s[..i] + tail && tail[1..] == s[i + 1..];
    MassAppend(side, s[..i], tail, x, lt, w);
    MassAppend(side, s[..i], s[i + 1..], x, lt, w);
  }

  lemma MultisetWithout<T>(s: seq<T>, i: nat)
    requires i < |s|
    ensures multiset(s[..i] + s[i + 1..]) == multiset(s) - multiset{s[i]}
  {
    assert s == s[..i] + [s[i]] + s[i + 1..];
  }

  /** The head of `a` stands somewhere in any permutation `b`; without it the rests permute. */
  lemma HeadInPermutation<T>(a: seq<T>, b: seq<T>) returns (i: nat)
    requires a != [] && multiset(a) == multiset(b)
    ensures i < |b| && b[i] == a[0] && multiset(a[1..]) == multiset(b[..i] + b[i + 1..])
  {
    assert a[0] in multiset(a);
    i :| 0 <= i < |b| && b[i] == a[0];
    MultisetWithout(a, 0);
    assert a[..0] + a[1..] == a[1..];
    MultisetWithout(b, i);
  }

  /** The order of a list does not change its masses. */
  lemma {:induction false} MassPermutes<T>(side: Side, a: seq<T>, b: seq<T>, x: T, lt: (T, T) -> bool, w: T -> nat)
    requires multiset(a) == multiset(b)
    ensures Mass(side, a, x, lt, w) == Mass(side, b, x, lt, w)
  {
    if a == [] {
      assert |b| == |multiset(b)| == 0;
    } else {
      var i := HeadInPermutation(a, b);
      MassWithout(side, b, i, x, lt, w);
      MassPermutes(side, a[1..], b[..i] + b[i + 1..], x, lt, w);
    }
  }

  lemma {:induction false} MassIsZero<T>(side: Side, s: seq<T>, x: T, lt: (T, T) -> bool, w: T -> nat)
    requires forall y | y in s :: Part(side, y, x, lt, w) == 0
    ensures Mass(side, s, x, lt, w) == 0
  {
    if s != [] {
      MassIsZero(side, s[1..], x, lt, w);
    }
  }

  /** Pointwise heavier parts make a heavier mass. */
  lemma {:induction false} MassMonotone<T>(side: Side, side': Side, s: seq<T>, x: T, x': T,
                                           lt: (T, T) -> bool, lt': (T, T) -> bool, w: T -> nat)
    requires forall y | y in s :: Part(side, y, x, lt, w) <= Part(side', y, x', lt', w)
    ensures Mass(side, s, x, lt, w) <= Mass(side', s, x', lt', w)
  {
    if s != [] {
      MassMonotone(side, side', s[1..], x, x', lt, lt', w);
    }
  }

  /** The whole does not depend on the pivot or the order. */
  lemma {:induction false} TotalIsPivotFree<T>(s: seq<T>, x: T, x': T, lt: (T, T) -> bool, lt': (T, T) -> bool, w: T -> nat)
    ensures Mass(Everything, s, x, lt, w) == Mass(Everything, s, x', lt', w)
  {
    if s != [] {
      TotalIsPivotFree(s[1..], x, x', lt, lt', w);
    }
  }

  // ---------------------------------------------------------------- the lower weighted median

  /** `x` is a lower weighted median of `s`: less than half of the weight lies before it, and
      at least half does not lie after it. */
  ghost predicate IsLowerMedian<T>(s: seq<T>, x: T, lt: (T, T) -> bool, w: T -> nat) {
    && x in s
    && 2 * Mass(Before, s, x, lt, w) < Mass(Everything, s, x, lt, w)
    && 2 * (Mass(Everything, s, x, lt, w) - Mass(After, s, x, lt, w)) >= Mass(Everything, s, x, lt, w)
  }

  /** A strict weak order: the irreflexive half of a comparator. */
  ghost predicate StrictOrder<T(!new)>(lt: (T, T) -> bool) {
    && (forall x, y :: lt(x, y) ==> !lt(y, x))
    && (forall x, y, z :: lt(x, y) ==> lt(x, z) || lt(z, y))
  }

  /** In a sorted list, what lies before element `i` stands at smaller indices. */
  lemma BeforeIsPrefix<T(!new)>(s: seq<T>, i: nat, lt: (T, T) -> bool, w: T -> nat)
    requires i < |s|
    requires forall k | i <= k < |s| :: !lt(s[k], s[i])
    ensures Mass(Before, s, s[i], lt, w) <= Mass(Everything, s[..i], s[i], lt, w)
  {
    assert s == s[..i] + s[i..];
    MassAppend(Before, s[..i], s[i..], s[i], lt, w);
    assert forall k | 0 <= k < |s[i..]| :: s[i..][k] == s[i + k];
    MassIsZero(Before, s[i..], s[i], lt, w);
    MassMonotone(Before, Everything, s[..i], s[i], s[i], lt, lt, w);
  }

  lemma AfterIsSuffix<T(!new)>(s: seq<T>, i: nat, lt: (T, T) -> bool, w: T -> nat)
    requires i < |s|
    requires forall k | 0 <= k <= i :: !lt(s[i], s[k])
    ensures Mass(After, s, s[i], lt, w) <= Mass(Everything, s, s[i], lt, w) - Mass(Everything, s[..i + 1], s[i], lt, w)
  {
    assert s == s[..i + 1] + s[i + 1..];
    MassAppend(After, s[..i + 1], s[i + 1..], s[i], lt, w);
    MassAppend(Everything, s[..i + 1], s[i + 1..], s[i], lt, w);
    MassIsZero(After, s[..i + 1], s[i], lt, w);
    MassMonotone(After, Everything, s[i + 1..], s[i], s[i], lt, lt, w);
  }

  /** At the first index whose running weight reaches half the total stands a lower median. */
  lemma CrossingIsMedian<T(!new)>(s: seq<T>, i: nat, lt: (T, T) -> bool, w: T -> nat)
    requires i < |s| && StrictOrder(lt)
    requires forall j, k | 0 <= j < k < |s| :: !lt(s[k], s[j])
    requires 2 * Mass(Everything, s[..i], s[i], lt, w) < Mass(Everything, s, s[i], lt, w)
    requires 2 * Mass(Everything, s[..i + 1], s[i], lt, w) >= Mass(Everything, s, s[i], lt, w)
    ensures IsLowerMedian(s, s[i], lt, w)
  {
    assert !lt(s[i], s[i]);
    BeforeIsPrefix(s, i, lt, w);
    AfterIsSuffix(s, i, lt, w);
  }

  /** The accumulator loops end at a median: the running weight is kept with any pivot. */
  lemma LoopFindsMedian<T(!new)>(s: seq<T>, sorted: seq<T>, i: nat, any: T, lt: (T, T) -> bool, le: (T, T) -> bool, w: T -> nat)
    requires i < |sorted| && StrictOrder(lt) && multiset(s) == multiset(sorted)
    requires (forall x, y :: le(x, y) <==> !lt(y, x)) && Sorted(sorted, le)
    requires 2 * Mass(Everything, sorted[..i], any, lt, w) < Mass(Everything, sorted, any, lt, w)
    requires 2 * Mass(Everything, sorted[..i + 1], any, lt, w) >= Mass(Everything, sorted, any, lt, w)
    ensures IsLowerMedian(s, sorted[i], lt, w)
  {
    TotalIsPivotFree(sorted, any, sorted[i], lt, lt, w);
    TotalIsPivotFree(sorted[..i], any, sorted[i], lt, lt, w);
    TotalIsPivotFree(sorted[..i + 1], any, sorted[i], lt, lt, w);
    CrossingIsMedian(sorted, i, lt, w);
    MedianPermutes(sorted, s, sorted[i], lt, w);
  }

  /** One step of either accumulator loop. */
  lemma MassStep<T>(s: seq<T>, i: nat, any: T, lt: (T, T) -> bool, w: T -> nat)
    requires i < |s|
    ensures Mass(Everything, s[..i + 1], any, lt, w) == Mass(Everything, s[..i], any, lt, w) + w(s[i])
  {
    assert s[..i + 1] == s[..i] + [s[i]];
    MassAppend(Everything, s[..i], [s[i]], any, lt, w);
  }

  lemma MedianPermutes<T>(a: seq<T>, b: seq<T>, x: T, lt: (T, T) -> bool, w: T -> nat)
    requires multiset(a) == multiset(b) && IsLowerMedian(a, x, lt, w)
    ensures IsLowerMedian(b, x, lt, w)
  {
    assert x in multiset(b);
    MassPermutes(Everything, a, b, x, lt, w);
    MassPermutes(Before, a, b, x, lt, w);
    MassPermutes(After, a, b, x, lt, w);
  }

  /** Two lower medians of one list are equivalent, so a median does not depend on the order
      in which the observations arrived. */
  lemma MedianIsUnique<T(!new)>(s: seq<T>, x: T, y: T, lt: (T, T) -> bool, w: T -> nat)
    requires StrictOrder(lt)
    requires IsLowerMedian(s, x, lt, w) && IsLowerMedian(s, y, lt, w)
    ensures !lt(x, y) && !lt(y, x)
  {
    TotalIsPivotFree(s, x, y, lt, lt, w);
    if lt(x, y) { MedianIsNotBefore(s, x, y, lt, w); }
    if lt(y, x) { MedianIsNotBefore(s, y, x, lt, w); }
  }

  lemma MedianIsNotBefore<T(!new)>(s: seq<T>, x: T, y: T, lt: (T, T) -> bool, w: T -> nat)
    requires StrictOrder(lt) && lt(x, y)
    requires IsLowerMedian(s, x, lt, w)
    ensures 2 * Mass(Before, s, y, lt, w) >= Mass(Everything, s, y, lt, w)
  {
    TotalIsPivotFree(s, x, y, lt, lt, w);
    CoveringParts(s, x, y, lt, w);
  }

  lemma {:induction false} CoveringParts<T(!new)>(s: seq<T>, x: T, y: T, lt: (T, T) -> bool, w: T -> nat)
    requires StrictOrder(lt) && lt(x, y)
    ensures Mass(Before, s, y, lt, w) + Mass(After, s, x, lt, w) >= Mass(Everything, s, x, lt, w)
  {
    if s != [] {
      CoveringParts(s[1..], x, y, lt, w);
      assert lt(x, s[0]) || lt(s[0], y);
    }
  }

  /** A median for a finer order is a median for any coarser one. */
  lemma MedianOfCoarserOrder<T>(s: seq<T>, x: T, fine: (T, T) -> bool, coarse: (T, T) -> bool, w: T -> nat)
    requires IsLowerMedian(s, x, fine, w)
    requires forall y | y in s :: (coarse(x, y) ==> fine(x, y)) && (coarse(y, x) ==> fine(y, x))
    ensures IsLowerMedian(s, x, coarse, w)
  {
    TotalIsPivotFree(s, x, x, fine, coarse, w);
    MassMonotone(Before, Before, s, x, x, coarse, fine, w);
    MassMonotone(After, After, s, x, x, coarse, fine, w);
  }

  // ---------------------------------------------------------------- what a median minimises

  function Abs(x: int): nat { if x < 0 then -x else x }

  /** Weighted sum of absolute deviations from `v`. */
  function Deviation<T>(s: seq<T>, v: int, value: T -> int, w: T -> nat): nat {
    if s == [] then 0 else w(s[0]) * Abs(value(s[0]) - v) + Deviation(s[1..], v, value, w)
  }

  ghost predicate OrdersBy<T(!new)>(lt: (T, T) -> bool, value: T -> int) {
    forall x, y :: lt(x, y) <==> value(x) < value(y)
  }

  /** One observation's share in moving the reference by `d`. */
  lemma DeviationStep(w: nat, moved: int, kept: int, d: int, sign: int, mass: int, restMoved: int, restKept: int)
    requires moved >= kept + sign * d && restMoved >= restKept + d * mass
    ensures w * moved + restMoved >= w * kept + restKept + d * (sign * w + mass)
  {
    Scale(w, moved, kept + sign * d);
    assert w * (kept + sign * d) == w * kept + d * (sign * w);
    assert d * (sign * w + mass) == d * (sign * w) + d * mass;
  }

  lemma Scale(w: nat, a: int, b: int)
    requires a >= b
    ensures w * a >= w * b
  {
  }

  /** Moving the reference up from `x` gains on everything after `x` and loses on the rest. */
  lemma {:induction false} DeviationAbove<T(!new)>(s: seq<T>, x: T, v: int, lt: (T, T) -> bool, value: T -> int, w: T -> nat)
    requires OrdersBy(lt, value) && value(x) <= v
    ensures Deviation(s, v, value, w) >= Deviation(s, value(x), value, w)
              + (v - value(x)) * (Mass(Everything, s, x, lt, w) - 2 * Mass(After, s, x, lt, w))
  {
    if s != [] {
      DeviationAbove(s[1..], x, v, lt, value, w);
      DeviationStep(w(s[0]), Abs(value(s[0]) - v), Abs(value(s[0]) - value(x)), v - value(x), if lt(x, s[0]) then -1 else 1,
                    Mass(Everything, s[1..], x, lt, w) - 2 * Mass(After, s[1..], x, lt, w),
                    Deviation(s[1..], v, value, w), Deviation(s[1..], value(x), value, w));
    }
  }

  /** The mirror image of DeviationAbove. */
  lemma {:induction false} DeviationBelow<T(!new)>(s: seq<T>, x: T, v: int, lt: (T, T) -> bool, value: T -> int, w: T -> nat)
    requires OrdersBy(lt, value) && v <= value(x)
    ensures Deviation(s, v, value, w) >= Deviation(s, value(x), value, w)
              + (value(x) - v) * (Mass(Everything, s, x, lt, w) - 2 * Mass(Before, s, x, lt, w))
  {
    if s != [] {
      DeviationBelow(s[1..], x, v, lt, value, w);
      DeviationStep(w(s[0]), Abs(value(s[0]) - v), Abs(value(s[0]) - value(x)), value(x) - v, if lt(s[0], x) then -1 else 1,
                    Mass(Everything, s[1..], x, lt, w) - 2 * Mass(Before, s[1..], x, lt, w),
                    Deviation(s[1..], v, value, w), Deviation(s[1..], value(x), value, w));
    }
  }

  /** A lower median minimises the weighted sum of absolute deviations. */
  lemma MedianMinimisesDeviation<T(!new)>(s: seq<T>, x: T, v: int, lt: (T, T) -> bool, value: T -> int, w: T -> nat)
    requires OrdersBy(lt, value) && IsLowerMedian(s, x, lt, w)
    ensures Deviation(s, value(x), value, w) <= Deviation(s, v, value, w)
  {
    if value(x) <= v {
      DeviationAbove(s, x, v, lt, value, w);
      Scale(v - value(x), Mass(Everything, s, x, lt, w) - 2 * Mass(After, s, x, lt, w), 0);
    } else {
      DeviationBelow(s, x, v, lt, value, w);
      Scale(value(x) - v, Mass(Everything, s, x, lt, w) - 2 * Mass(Before, s, x, lt, w), 0);
    }
  }

  /** Weight of the observations whose value lies in [lo, hi]. */
  function MassWithin<T>(s: seq<T>, lo: int, hi: int, value: T -> int, w: T -> nat): nat {
    if s == [] then 0
    else (if lo <= value(s[0]) <= hi then w(s[0]) else 0) + MassWithin(s[1..], lo, hi, value, w)
  }

  /** An interval that holds more than half of the weight holds the median: a minority of the
      liquidity cannot move the price out of what the majority quotes. */
  lemma MajorityHoldsMedian<T(!new)>(s: seq<T>, x: T, lo: int, hi: int, lt: (T, T) -> bool, value: T -> int, w: T -> nat)
    requires OrdersBy(lt, value) && IsLowerMedian(s, x, lt, w)
    requires 2 * MassWithin(s, lo, hi, value, w) > Mass(Everything, s, x, lt, w)
    ensures lo <= value(x) <= hi
  {
    if value(x) < lo { WithinIsOneSided(After, s, x, lo, hi, lt, value, w); }
    if hi < value(x) { WithinIsOneSided(Before, s, x, lo, hi, lt, value, w); }
  }

  lemma {:induction false} WithinIsOneSided<T(!new)>(side: Side, s: seq<T>, x: T, lo: int, hi: int,
                                                     lt: (T, T) -> bool, value: T -> int, w: T -> nat)
    requires OrdersBy(lt, value)
    requires (side == After && value(x) < lo) || (side == Before && hi < value(x))
    ensures MassWithin(s, lo, hi, value, w) <= Mass(side, s, x, lt, w)
  {
    if s != [] {
      WithinIsOneSided(side, s[1..], x, lo, hi, lt, value, w);
    }
  }

  // ---------------------------------------------------------------- weightedMedian

  datatype WeightedObservation = WeightedObservation(value: int, weight: int)

  function ValueOf(o: WeightedObservation): int { o.value }
  function WeightOf(o: WeightedObservation): nat { if o.weight > 0 then o.weight else 1 }
  predicate ValueBefore(x: WeightedObservation, y: WeightedObservation) { x.value < y.value }
  predicate ValueAtMost(x: WeightedObservation, y: WeightedObservation) { !ValueBefore(y, x) }

  /** Weight of the observations a condition picks, each weighing at least one. */
  function WeightWhere(s: seq<WeightedObservation>, f: WeightedObservation -> bool): nat {
    if s == [] then 0 else (if !f(s[0]) then 0 else if s[0].weight < 1 then 1 else s[0].weight) + WeightWhere(s[1..], f)
  }

  /** `v` is quoted, less than half of the weight quotes less, and at least half quotes no more. */
  ghost predicate IsMedianValue(s: seq<WeightedObservation>, v: int) {
    && (exists x :: x in s && x.value == v)
    && 2 * WeightWhere(s, QuotesLess(v)) < WeightWhere(s, Anything<WeightedObservation>())
    && 2 * WeightWhere(s, QuotesNoMore(v)) >= WeightWhere(s, Anything<WeightedObservation>())
  }

  function Anything<T>(): T -> bool { (_: T) => true }
  function QuotesLess(v: int): WeightedObservation -> bool { (x: WeightedObservation) => x.value < v }
  function QuotesNoMore(v: int): WeightedObservation -> bool { (x: WeightedObservation) => x.value <= v }

  lemma {:induction false} WeightsAreMasses(s: seq<WeightedObservation>, x: WeightedObservation)
    ensures WeightWhere(s, Anything<WeightedObservation>()) == Mass(Everything, s, x, ValueBefore, WeightOf)
    ensures WeightWhere(s, QuotesLess(x.value)) == Mass(Before, s, x, ValueBefore, WeightOf)
    ensures WeightWhere(s, QuotesNoMore(x.value))
         == Mass(Everything, s, x, ValueBefore, WeightOf) - Mass(After, s, x, ValueBefore, WeightOf)
  {
    if s != [] { WeightsAreMasses(s[1..], x); }
  }

  lemma LowerMedianIsMedianValue(s: seq<WeightedObservation>, x: WeightedObservation)
    requires IsLowerMedian(s, x, ValueBefore, WeightOf)
    ensures IsMedianValue(s, x.value)
  {
    WeightsAreMasses(s, x);
  }

  lemma ValueLoopFindsMedian(s: seq<WeightedObservation>, sorted: seq<WeightedObservation>, i: nat, any: WeightedObservation)
    requires i < |sorted| && multiset(s) == multiset(sorted) && Sorted(sorted, ValueAtMost)
    requires 2 * Mass(Everything, sorted[..i], any, ValueBefore, WeightOf) < Mass(Everything, sorted, any, ValueBefore, WeightOf)
    requires 2 * Mass(Everything, sorted[..i + 1], any, ValueBefore, WeightOf) >= Mass(Everything, sorted, any, ValueBefore, WeightOf)
    ensures IsLowerMedian(s, sorted[i], ValueBefore, WeightOf) && IsMedianValue(s, sorted[i].value)
  {
    LoopFindsMedian(s, sorted, i, any, ValueBefore, ValueAtMost, WeightOf);
    LowerMedianIsMedianValue(s, sorted[i]);
  }

  method SelectMedian(observations: seq<WeightedObservation>) returns (r: Option<int>)
    ensures r == None <==> observations == []
    ensures r.Some? ==> exists x :: IsLowerMedian(observations, x, ValueBefore, WeightOf) && r.value == x.value
    ensures r.Some? ==> IsMedianValue(observations, r.value)
  {
    if observations == [] {
      return None;
    }
    var sorted := Sort(observations, ValueAtMost);
    SortSorts(observations, ValueAtMost);
    SortPermutes(observations, ValueAtMost);
    ghost var any := sorted[0];

    var totalWeight := 0;
    for i := 0 to |sorted|
      invariant totalWeight == Mass(Everything, sorted[..i], any, ValueBefore, WeightOf)
    {
      MassStep(sorted, i, any, ValueBefore, WeightOf);
      totalWeight := totalWeight + WeightOf(sorted[i]);
    }
    assert sorted[..|sorted|] == sorted;

    var threshold := (totalWeight + 1) / 2;
    var runningWeight := 0;
    for i := 0 to |sorted|
      invariant runningWeight == Mass(Everything, sorted[..i], any, ValueBefore, WeightOf)
      invariant i > 0 ==> runningWeight < threshold
    {
      MassStep(sorted, i, any, ValueBefore, WeightOf);
      runningWeight := runningWeight + WeightOf(sorted[i]);
      if runningWeight >= threshold {
        ValueLoopFindsMedian(observations, sorted, i, any);
        return Some(sorted[i].value);
      }
    }
    // The source's fallback `return sorted[sorted.length - 1].value` stands here.
    assert false;
  }

  /** The selected price depends only on the multiset of observations. */
  lemma SelectedValueIsOrderFree(a: seq<WeightedObservation>, b: seq<WeightedObservation>, x: WeightedObservation, y: WeightedObservation)
    requires multiset(a) == multiset(b)
    requires IsLowerMedian(a, x, ValueBefore, WeightOf) && IsLowerMedian(b, y, ValueBefore, WeightOf)
    ensures x.value == y.value
  {
    MedianPermutes(a, b, x, ValueBefore, WeightOf);
    MedianIsUnique(b, x, y, ValueBefore, WeightOf);
  }

  lemma SelectedValueIsRobust(s: seq<WeightedObservation>, x: WeightedObservation, v: int, lo: int, hi: int)
    requires IsLowerMedian(s, x, ValueBefore, WeightOf)
    ensures Deviation(s, x.value, ValueOf, WeightOf) <= Deviation(s, v, ValueOf, WeightOf)
    ensures 2 * MassWithin(s, lo, hi, ValueOf, WeightOf) > Mass(Everything, s, x, ValueBefore, WeightOf) ==> lo <= x.value <= hi
  {
    MedianMinimisesDeviation(s, x, v, ValueBefore, ValueOf, WeightOf);
    if 2 * MassWithin(s, lo, hi, ValueOf, WeightOf) > Mass(Everything, s, x, ValueBefore, WeightOf) {
      MajorityHoldsMedian(s, x, lo, hi, ValueBefore, ValueOf, WeightOf);
    }
  }

  // ---------------------------------------------------------------- weightedMedianPathObservation

  function PriceOf(o: Observation): int { o.price }
  function LiquidityWeight(o: Observation): nat { if o.liquidity > 1 then o.liquidity else 1 }
  predicate PriceBefore(x: Observation, y: Observation) { x.price < y.price }

  /** Price ascending, then hops ascending, then liquidity descending. */
  predicate TripleBefore(x: Observation, y: Observation) {
    || x.price < y.price
    || (x.price == y.price && x.hops < y.hops)
    || (x.price == y.price && x.hops == y.hops && x.liquidity > y.liquidity)
  }
  predicate TripleAtMost(x: Observation, y: Observation) { !TripleBefore(y, x) }

  /** Weight of the observations a condition picks, each weighing at least one. */
  function DepthWhere(s: seq<Observation>, f: Observation -> bool): nat {
    if s == [] then 0 else (if !f(s[0]) then 0 else if s[0].liquidity < 1 then 1 else s[0].liquidity) + DepthWhere(s[1..], f)
  }

  /** Cheaper, or as cheap and nearer, or as cheap and as near and deeper. */
  ghost function StandsBefore(r: Observation): Observation -> bool {
    (o: Observation) =>
      o.price < r.price || (o.price == r.price && (o.hops < r.hops || (o.hops == r.hops && o.liquidity > r.liquidity)))
  }

  /** Before `r` or level with it. */
  ghost function StandsUpTo(r: Observation): Observation -> bool {
    (o: Observation) =>
      o.price < r.price || (o.price == r.price && (o.hops < r.hops || (o.hops == r.hops && o.liquidity >= r.liquidity)))
  }

  /** `r` is recorded, less than half of the depth stands before it, and at least half up to it. */
  ghost predicate IsMedianPath(s: seq<Observation>, r: Observation) {
    r in s && 2 * DepthWhere(s, StandsBefore(r)) < DepthWhere(s, Anything<Observation>()) && 2 * DepthWhere(s, StandsUpTo(r)) >= DepthWhere(s, Anything<Observation>())
  }

  lemma {:induction false} DepthsAreMasses(s: seq<Observation>, x: Observation)
    ensures DepthWhere(s, Anything<Observation>()) == Mass(Everything, s, x, TripleBefore, LiquidityWeight)
    ensures DepthWhere(s, StandsBefore(x)) == Mass(Before, s, x, TripleBefore, LiquidityWeight)
    ensures DepthWhere(s, StandsUpTo(x))
         == Mass(Everything, s, x, TripleBefore, LiquidityWeight) - Mass(After, s, x, TripleBefore, LiquidityWeight)
  {
    if s != [] { DepthsAreMasses(s[1..], x); }
  }

  lemma LowerMedianIsMedianPath(s: seq<Observation>, x: Observation)
    requires IsLowerMedian(s, x, TripleBefore, LiquidityWeight)
    ensures IsMedianPath(s, x)
  {
    DepthsAreMasses(s, x);
  }

  lemma TripleLoopFindsMedian(s: seq<Observation>, sorted: seq<Observation>, i: nat, any: Observation)
    requires i < |sorted| && multiset(s) == multiset(sorted) && Sorted(sorted, TripleAtMost)
    requires 2 * Mass(Everything, sorted[..i], any, TripleBefore, LiquidityWeight) < Mass(Everything, sorted, any, TripleBefore, LiquidityWeight)
    requires 2 * Mass(Everything, sorted[..i + 1], any, TripleBefore, LiquidityWeight) >= Mass(Everything, sorted, any, TripleBefore, LiquidityWeight)
    ensures IsLowerMedian(s, sorted[i], TripleBefore, LiquidityWeight)
  {
    LoopFindsMedian(s, sorted, i, any, TripleBefore, TripleAtMost, LiquidityWeight);
  }

  lemma TriplesSort(s: seq<Observation>)
    ensures Sorted(Sort(s, TripleAtMost), TripleAtMost)
  {
    SortSorts(s, TripleAtMost);
  }

  method SelectMedianPath(observations: seq<Observation>) returns (r: Option<Observation>)
    ensures r == None <==> observations == []
    ensures r.Some? ==> IsLowerMedian(observations, r.value, TripleBefore, LiquidityWeight) && IsMedianPath(observations, r.value)
  {
    if observations == [] {
      return None;
    }
    var sorted := Sort(observations, TripleAtMost);
    TriplesSort(observations);
    SortPermutes(observations, TripleAtMost);
    ghost var any := sorted[0];

    var totalWeight := 0;
    for i := 0 to |sorted|
      invariant totalWeight == Mass(Everything, sorted[..i], any, TripleBefore, LiquidityWeight)
    {
      MassStep(sorted, i, any, TripleBefore, LiquidityWeight);
      totalWeight := totalWeight + LiquidityWeight(sorted[i]);
    }
    assert sorted[..|sorted|] == sorted;

    var threshold := (totalWeight + 1) / 2;
    var runningWeight := 0;
    for i := 0 to |sorted|
      invariant runningWeight == Mass(Everything, sorted[..i], any, TripleBefore, LiquidityWeight)
      invariant i > 0 ==> runningWeight < threshold
    {
      MassStep(sorted, i, any, TripleBefore, LiquidityWeight);
      runningWeight := runningWeight + LiquidityWeight(sorted[i]);
      if runningWeight >= threshold {
        TripleLoopFindsMedian(observations, sorted, i, any);
        LowerMedianIsMedianPath(observations, sorted[i]);
        return Some(sorted[i]);
      }
    }
    // The source's fallback `return sorted[sorted.length - 1]` stands here.
    assert false;
  }

  /** Whatever order the observations were recorded in, the selected price, hop count and
      liquidity are the same. */
  lemma SelectedTripleIsOrderFree(a: seq<Observation>, b: seq<Observation>, x: Observation, y: Observation)
    requires multiset(a) == multiset(b)
    requires IsLowerMedian(a, x, TripleBefore, LiquidityWeight) && IsLowerMedian(b, y, TripleBefore, LiquidityWeight)
    ensures x.price == y.price && x.hops == y.hops && x.liquidity == y.liquidity
  {
    MedianPermutes(a, b, x, TripleBefore, LiquidityWeight);
    MedianIsUnique(b, x, y, TripleBefore, LiquidityWeight);
  }

  lemma SelectedPathIsRobust(s: seq<Observation>, x: Observation, v: int, lo: int, hi: int)
    requires IsLowerMedian(s, x, TripleBefore, LiquidityWeight)
    ensures Deviation(s, x.price, PriceOf, LiquidityWeight) <= Deviation(s, v, PriceOf, LiquidityWeight)
    ensures 2 * MassWithin(s, lo, hi, PriceOf, LiquidityWeight) > Mass(Everything, s, x, TripleBefore, LiquidityWeight) ==> lo <= x.price <= hi
  {
    MedianOfCoarserOrder(s, x, TripleBefore, PriceBefore, LiquidityWeight);
    TotalIsPivotFree(s, x, x, TripleBefore, PriceBefore, LiquidityWeight);
    MedianMinimisesDeviation(s, x, v, PriceBefore, PriceOf, LiquidityWeight);
    if 2 * MassWithin(s, lo, hi, PriceOf, LiquidityWeight) > Mass(Everything, s, x, TripleBefore, LiquidityWeight) {
      MajorityHoldsMedian(s, x, lo, hi, PriceBefore, PriceOf, LiquidityWeight);
    }
  }
}
