/** What `resolveGraphPricesByWeightedMedian` of src/price/graph.ts searches for, stated on
    whole paths, and what one step of its worklist does. */
module PathSearchSpec {
  import opened Wrappers
  import opened PathTypes
  import opened StableSort

  const UNBOUNDED_PATH_LIQUIDITY: nat :=
    1_000_000_000_000_000_000_000_000_000_000_000_000_000_000_000_000_000_000_000_000
  const USD_LIQUIDITY_SCALE: nat := 1_000_000_000_000_000_000
  const DEFAULT_MAX_OBSERVATIONS_PER_ASSET: nat := 64

  /** `ResolvePriceOptions`, a fractional or non-finite dollar threshold already truncated. */
  datatype Options = Options(minGraphPathLiquidityUsd: Option<int>, maxObservationsPerAsset: Option<int>)

  function UsdThresholdTo18(value: Option<int>): nat {
    if value.None? || value.value <= 0 then 0 else value.value * USD_LIQUIDITY_SCALE
  }

  function ObservationCap(value: Option<int>): (cap: nat)
    ensures cap >= 1
  {
    var wanted := if value.None? then DEFAULT_MAX_OBSERVATIONS_PER_ASSET else value.value;
    if wanted < 1 then 1 else wanted
  }

  /** The arguments of the search.  Seeds keep the insertion order of the source's Map. */
  datatype Config = Config(seeds: seq<Seed>, priced: set<int>, graph: Graph, options: Options, maxHops: int) {
    function Threshold(): nat { UsdThresholdTo18(options.minGraphPathLiquidityUsd) }
    function Cap(): (cap: nat) ensures cap >= 1 { ObservationCap(options.maxObservationsPerAsset) }
    function Adjacent(a: int): seq<Edge> { if a in graph then graph[a] else [] }
    ghost predicate Valid() { forall i, j | 0 <= i < j < |seeds| :: seeds[i].asset != seeds[j].asset }
  }

  // ---------------------------------------------------------------- paths, unpruned

  function End(path: seq<int>): int { if path == [] then 0 else path[|path| - 1] }

  function SeedObservation(s: Seed): Observation {
    Observation(s.price, 0, UNBOUNDED_PATH_LIQUIDITY, [s.asset])
  }

  function Crossings(kind: EdgeKind): nat { if kind.AtokenEdge? then 0 else 1 }

  function EdgeLiquidity(e: Edge, known: int, computed: int): int {
    match e.computeLiquidityUsd
    case None => UNBOUNDED_PATH_LIQUIDITY
    case Some(f) => f(known, computed)
  }

  function Min(x: int, y: int): int { if x < y then x else y }

  function Extend(o: Observation, e: Edge): Observation {
    var price := e.computePrice(o.price);
    Observation(price, o.hops + Crossings(e.kind), Min(o.liquidity, EdgeLiquidity(e, o.price, price)), o.path + [e.toAsset])
  }

  /** The observation a route composes to, whatever the search would think of it. */
  function Walk(s: Seed, route: seq<Edge>): (o: Observation)
    ensures |o.path| == |route| + 1 && o.path[0] == s.asset
    ensures End(o.path) == if route == [] then s.asset else route[|route| - 1].toAsset
  {
    if route == [] then SeedObservation(s) else Extend(Walk(s, route[..|route| - 1]), route[|route| - 1])
  }

  ghost predicate Distinct(path: seq<int>) { forall i, j | 0 <= i < j < |path| :: path[i] != path[j] }

  /** The asset from which step `i` of a route leaves. */
  function Origin(s: Seed, route: seq<Edge>, i: nat): int
    requires i <= |route|
  {
    if i == 0 then s.asset else route[i - 1].toAsset
  }

  ghost predicate Connected(cfg: Config, s: Seed, route: seq<Edge>) {
    forall i | 0 <= i < |route| :: route[i] in cfg.Adjacent(Origin(s, route, i))
  }

  ghost predicate AvoidsPriced(cfg: Config, route: seq<Edge>) {
    forall e | e in route :: e.toAsset !in cfg.priced
  }

  ghost predicate NowhereZero(s: Seed, route: seq<Edge>) {
    forall i | 1 <= i <= |route| :: Walk(s, route[..i]).price != 0
  }

  /** A path the search should find, judged as a whole: simple, authoritative at most at its
      seed, within the hop limit, nowhere priced at zero, and deep enough at its bottleneck. */
  ghost predicate Admissible(cfg: Config, s: Seed, route: seq<Edge>) {
    && s in cfg.seeds && route != [] && Connected(cfg, s, route)
    && Distinct(Walk(s, route).path)
    && AvoidsPriced(cfg, route)
    && Walk(s, route).hops <= cfg.maxHops
    && NowhereZero(s, route)
    && Walk(s, route).liquidity >= cfg.Threshold()
  }

  ghost predicate Reached(cfg: Config, s: Seed, route: seq<Edge>) {
    s in cfg.seeds && (route == [] || Admissible(cfg, s, route))
  }

  ghost predicate AdmissibleKey(cfg: Config, a: int, k: Key) {
    exists s, route :: Admissible(cfg, s, route) && KeyOf(Walk(s, route)) == k && End(k.path) == a
  }

  // ---------------------------------------------------------------- one edge of the search

  /** The five `continue` guards of the inner loop. */
  predicate Accepts(cfg: Config, o: Observation, e: Edge) {
    var next := Extend(o, e);
    && e.toAsset !in cfg.priced
    && e.toAsset !in o.path
    && next.hops <= cfg.maxHops
    && next.price != 0
    && next.liquidity >= cfg.Threshold()
  }

  /** Hop counts only grow and the bottleneck only shrinks along a path, so a prefix of an
      admissible path is admissible too. */
  lemma PrefixIsReached(cfg: Config, s: Seed, route: seq<Edge>)
    requires Admissible(cfg, s, route)
    ensures Reached(cfg, s, route[..|route| - 1])
  {
    var n := |route| - 1;
    var prefix := route[..n];
    if n > 0 {
      ConnectedPrefix(cfg, s, route);
      NowhereZeroPrefix(s, route);
      DistinctPrefix(Walk(s, prefix).path, Walk(s, route).path);
      assert forall e | e in prefix :: e in route;
    }
  }

  lemma DistinctPrefix(short: seq<int>, long: seq<int>)
    requires short <= long && Distinct(long)
    ensures Distinct(short)
  {
    forall i, j | 0 <= i < j < |short| ensures short[i] != short[j] {
      assert short[i] == long[i] && short[j] == long[j];
    }
  }

  lemma ConnectedPrefix(cfg: Config, s: Seed, route: seq<Edge>)
    requires route != [] && Connected(cfg, s, route)
    ensures Connected(cfg, s, route[..|route| - 1])
  {
    var prefix := route[..|route| - 1];
    forall i | 0 <= i < |prefix| ensures prefix[i] in cfg.Adjacent(Origin(s, prefix, i)) {
      assert route[i] in cfg.Adjacent(Origin(s, route, i));
    }
  }

  lemma NowhereZeroPrefix(s: Seed, route: seq<Edge>)
    requires route != [] && NowhereZero(s, route)
    ensures NowhereZero(s, route[..|route| - 1])
  {
    var prefix := route[..|route| - 1];
    forall i | 1 <= i <= |prefix| ensures Walk(s, prefix[..i]).price != 0 {
      assert prefix[..i] == route[..i];
    }
  }

  lemma LastStepPasses(cfg: Config, s: Seed, route: seq<Edge>)
    requires Admissible(cfg, s, route)
    ensures route[|route| - 1] in cfg.Adjacent(End(Walk(s, route[..|route| - 1]).path))
    ensures Accepts(cfg, Walk(s, route[..|route| - 1]), route[|route| - 1])
  {
    var n := |route| - 1;
    var o, next := Walk(s, route[..n]), Walk(s, route);
    assert route[n] in cfg.Adjacent(Origin(s, route, n));
    assert route[..n + 1] == route;
    assert Walk(s, route[..n + 1]).price != 0;
    forall i | 0 <= i < |o.path| ensures o.path[i] != route[n].toAsset {
      assert next.path[i] != next.path[|o.path|];
    }
  }

  lemma ExtensionIsAdmissible(cfg: Config, s: Seed, prefix: seq<Edge>, e: Edge)
    requires Reached(cfg, s, prefix)
    requires e in cfg.Adjacent(End(Walk(s, prefix).path)) && Accepts(cfg, Walk(s, prefix), e)
    ensures Admissible(cfg, s, prefix + [e])
    ensures Walk(s, prefix + [e]) == Extend(Walk(s, prefix), e)
  {
    var route := prefix + [e];
    assert route[..|prefix|] == prefix;
    ConnectedExtension(cfg, s, prefix, e);
    NowhereZeroExtension(s, prefix, e);
    var o, next := Walk(s, prefix), Walk(s, route);
    forall i, j | 0 <= i < j < |next.path| ensures next.path[i] != next.path[j] {
      assert next.path[i] == o.path[i];
      if j < |o.path| { assert next.path[j] == o.path[j]; }
    }
  }

  lemma ConnectedExtension(cfg: Config, s: Seed, prefix: seq<Edge>, e: Edge)
    requires Connected(cfg, s, prefix) && e in cfg.Adjacent(Origin(s, prefix, |prefix|))
    ensures Connected(cfg, s, prefix + [e])
  {
    var route := prefix + [e];
    forall i | 0 <= i < |route| ensures route[i] in cfg.Adjacent(Origin(s, route, i)) {
      OriginStays(s, prefix, e, i);
      if i < |prefix| { assert prefix[i] in cfg.Adjacent(Origin(s, prefix, i)); }
    }
  }

  lemma OriginStays(s: Seed, prefix: seq<Edge>, e: Edge, i: nat)
    requires i <= |prefix|
    ensures Origin(s, prefix + [e], i) == Origin(s, prefix, i)
  {
  }

  lemma NowhereZeroExtension(s: Seed, prefix: seq<Edge>, e: Edge)
    requires NowhereZero(s, prefix) && Extend(Walk(s, prefix), e).price != 0
    ensures NowhereZero(s, prefix + [e])
  {
    var route := prefix + [e];
    assert route[..|prefix|] == prefix;
    forall i | 1 <= i <= |route| ensures Walk(s, route[..i]).price != 0 {
      if i <= |prefix| { assert route[..i] == prefix[..i]; } else { assert route[..i] == route; }
    }
  }

  /** Pruning every prefix as the search does admits exactly the whole paths that pass the
      filter. */
  lemma PruningIsFiltering(cfg: Config, s: Seed, route: seq<Edge>)
    requires route != []
    ensures var prefix := route[..|route| - 1];
            Admissible(cfg, s, route) <==>
              && Reached(cfg, s, prefix)
              && route[|route| - 1] in cfg.Adjacent(End(Walk(s, prefix).path))
              && Accepts(cfg, Walk(s, prefix), route[|route| - 1])
  {
    var prefix, e := route[..|route| - 1], route[|route| - 1];
    assert prefix + [e] == route;
    if Admissible(cfg, s, route) {
      PrefixIsReached(cfg, s, route);
      LastStepPasses(cfg, s, route);
    } else if Reached(cfg, s, prefix) && e in cfg.Adjacent(End(Walk(s, prefix).path)) && Accepts(cfg, Walk(s, prefix), e) {
      ExtensionIsAdmissible(cfg, s, prefix, e);
    }
  }

  // ---------------------------------------------------------------- one asset's observation list

  /** Deepest first, then fewest hops, then lowest price. */
  predicate RanksBefore(x: Observation, y: Observation) {
    || x.liquidity > y.liquidity
    || (x.liquidity == y.liquidity && x.hops < y.hops)
    || (x.liquidity == y.liquidity && x.hops == y.hops && x.price < y.price)
  }
  predicate RanksAtMost(x: Observation, y: Observation) { !RanksBefore(y, x) }

  ghost function Keys(list: seq<Observation>): set<Key> { set o | o in list :: KeyOf(o) }

  ghost predicate DistinctKeys(list: seq<Observation>) {
    forall i, j | 0 <= i < j < |list| :: KeyOf(list[i]) != KeyOf(list[j])
  }

  /** Position of the observation with this key, or the length of the list. */
  function IndexOfKey(list: seq<Observation>, k: Key): (i: nat)
    ensures i <= |list| && (i < |list| ==> KeyOf(list[i]) == k)
    ensures i == |list| ==> forall j | 0 <= j < |list| :: KeyOf(list[j]) != k
  {
    if list == [] then 0 else if KeyOf(list[0]) == k then 0 else 1 + IndexOfKey(list[1..], k)
  }

  datatype Offered = Offered(list: seq<Observation>, kept: bool)

  /** `addObservation`: a known key only deepens the stored observation, where it stands; a new
      one is ranked in and may push the last one, possibly itself, over the cap. */
  function Offer(list: seq<Observation>, o: Observation, cap: nat): Offered {
    var i := IndexOfKey(list, KeyOf(o));
    if i < |list| then Offered(Deepen(list, i, o.liquidity), false) else Rank(list, o, cap)
  }

  function Deepen(list: seq<Observation>, i: nat, liquidity: int): seq<Observation>
    requires i < |list|
  {
    list[i := list[i].(liquidity := list[i].liquidity + liquidity)]
  }

  function Rank(list: seq<Observation>, o: Observation, cap: nat): Offered {
    var sorted := Sort(list + [o], RanksAtMost);
    if |sorted| > cap then Offered(sorted[..cap], o !in sorted[cap..]) else Offered(sorted, true)
  }

  lemma DistinctKeysPermute(a: seq<Observation>, b: seq<Observation>)
    requires DistinctKeys(a) && multiset(a) == multiset(b)
    ensures DistinctKeys(b)
  {
    forall i, j | 0 <= i < j < |b| ensures KeyOf(b[i]) != KeyOf(b[j]) {
      if KeyOf(b[i]) == KeyOf(b[j]) {
        assert b[i] in multiset(a) && b[j] in multiset(a);
        if b[i] == b[j] {
          assert b == b[..i] + [b[i]] + b[i + 1..j] + [b[j]] + b[j + 1..];
          assert multiset(b)[b[i]] >= 2;
          OnceWhenDistinct(a, b[i]);
        }
      }
    }
  }

  lemma {:induction false} OnceWhenDistinct(a: seq<Observation>, x: Observation)
    requires DistinctKeys(a)
    ensures multiset(a)[x] <= 1
  {
    if a != [] {
      OnceWhenDistinct(a[1..], x);
      assert a == [a[0]] + a[1..];
      assert forall i | 0 <= i < |a[1..]| :: KeyOf(a[1..][i]) != KeyOf(a[0]);
      assert a[0] !in a[1..];
    }
  }

  /** `x` is a stored observation of `list`, perhaps deepened. */
  ghost predicate Descends(x: Observation, list: seq<Observation>) {
    exists y :: y in list && KeyOf(y) == KeyOf(x) && y.liquidity <= x.liquidity
  }

  /** What offering does to a list: it stays within the cap, loses a key only when it is full,
      and gains nothing but the offered observation. */
  ghost predicate GoodOffer(list: seq<Observation>, o: Observation, cap: nat, r: Offered) {
    && r.list != [] && |list| <= |r.list| <= cap && DistinctKeys(r.list)
    && (Keys(list) + {KeyOf(o)} <= Keys(r.list) || |r.list| == cap)
    && (forall x | x in r.list :: (x == o && r.kept) || Descends(x, list))
  }

  lemma MergeFacts(list: seq<Observation>, o: Observation, cap: nat, i: nat)
    requires DistinctKeys(list) && |list| <= cap && 0 <= o.liquidity
    requires i < |list| && KeyOf(list[i]) == KeyOf(o)
    ensures GoodOffer(list, o, cap, Offered(Deepen(list, i, o.liquidity), false))
  {
    var r := Deepen(list, i, o.liquidity);
    forall j | 0 <= j < |list| ensures KeyOf(r[j]) == KeyOf(list[j]) && list[j].liquidity <= r[j].liquidity {}
    forall x | x in r ensures Descends(x, list) {
      var j :| 0 <= j < |r| && r[j] == x;
      assert list[j] in list;
    }
    SameKeys(list, r);
    assert list[i] in list;
  }

  lemma SameKeys(list: seq<Observation>, r: seq<Observation>)
    requires |r| == |list| && forall j | 0 <= j < |list| :: KeyOf(r[j]) == KeyOf(list[j])
    ensures Keys(list) <= Keys(r)
  {
    forall k | k in Keys(list) ensures k in Keys(r) {
      var y :| y in list && KeyOf(y) == k;
      var j :| 0 <= j < |list| && list[j] == y;
      assert r[j] in r;
    }
  }

  lemma RankedFacts(list: seq<Observation>, o: Observation)
    requires DistinctKeys(list) && IndexOfKey(list, KeyOf(o)) == |list|
    ensures var sorted := Sort(list + [o], RanksAtMost);
            |sorted| == |list| + 1 && DistinctKeys(sorted) && forall x :: x in sorted <==> x in list || x == o
  {
    var all := list + [o];
    var sorted := Sort(all, RanksAtMost);
    SortPermutes(all, RanksAtMost);
    assert DistinctKeys(all);
    DistinctKeysPermute(all, sorted);
    forall x ensures x in sorted <==> x in list || x == o {
      assert x in multiset(sorted) <==> x in multiset(all);
    }
  }

  lemma InsertFacts(list: seq<Observation>, o: Observation, cap: nat)
    requires DistinctKeys(list) && |list| <= cap && 1 <= cap
    requires IndexOfKey(list, KeyOf(o)) == |list|
    ensures GoodOffer(list, o, cap, Rank(list, o, cap))
    ensures Rank(list, o, cap).kept <==> o in Rank(list, o, cap).list
  {
    var r := Rank(list, o, cap);
    var sorted := Sort(list + [o], RanksAtMost);
    RankedFacts(list, o);
    if |sorted| > cap {
      SurvivorIsUnique(sorted, o, cap);
    } else {
      KeysOfSuperset(list, o, sorted);
    }
    forall x | x in r.list && x != o ensures Descends(x, list) {
      assert x in sorted;
    }
  }

  /** In a list of distinct keys an element is either kept or removed by the cut, not both. */
  lemma SurvivorIsUnique(sorted: seq<Observation>, o: Observation, cap: nat)
    requires DistinctKeys(sorted) && cap < |sorted| && o in sorted
    ensures o !in sorted[cap..] <==> o in sorted[..cap]
    ensures DistinctKeys(sorted[..cap])
  {
    assert sorted == sorted[..cap] + sorted[cap..];
  }

  lemma KeysOfSuperset(list: seq<Observation>, o: Observation, bigger: seq<Observation>)
    requires o in bigger && forall x | x in list :: x in bigger
    ensures Keys(list) + {KeyOf(o)} <= Keys(bigger)
  {
    forall k | k in Keys(list) ensures k in Keys(bigger) {
      var y :| y in list && KeyOf(y) == k;
      assert y in bigger;
    }
  }

  lemma OfferFacts(list: seq<Observation>, o: Observation, cap: nat)
    requires DistinctKeys(list) && |list| <= cap && 1 <= cap && 0 <= o.liquidity
    ensures GoodOffer(list, o, cap, Offer(list, o, cap))
  {
    var i := IndexOfKey(list, KeyOf(o));
    if i < |list| { MergeFacts(list, o, cap, i); } else { InsertFacts(list, o, cap); }
  }

  lemma CutRanks(sorted: seq<Observation>, cap: nat, x: Observation, y: Observation)
    requires cap <= |sorted| && Sorted(sorted, RanksAtMost) && x in sorted[..cap] && y in sorted && y !in sorted[..cap]
    ensures RanksAtMost(x, y)
  {
    forall k | 0 <= k < cap ensures sorted[k] in sorted[..cap] { assert sorted[..cap][k] == sorted[k]; }
    var i :| 0 <= i < cap && sorted[..cap][i] == x;
    var j :| 0 <= j < |sorted| && sorted[j] == y;
  }

  lemma RankingHolds(list: seq<Observation>, y: Observation)
    requires y in list
    ensures y in Sort(list, RanksAtMost) && Sorted(Sort(list, RanksAtMost), RanksAtMost)
  {
    RanksAreAComparator();
    SortSorts(list, RanksAtMost);
    SortPermutes(list, RanksAtMost);
    assert y in multiset(list);
    assert y in multiset(Sort(list, RanksAtMost));
  }

  /** What the cut removes is never better than what it keeps: not deeper, at the same depth not
      nearer, and then not cheaper. */
  lemma EvictedIsNeverBetter(list: seq<Observation>, o: Observation, cap: nat, x: Observation, y: Observation)
    requires IndexOfKey(list, KeyOf(o)) == |list|
    requires x in Offer(list, o, cap).list && y in list + [o] && y !in Offer(list, o, cap).list
    ensures y.liquidity <= x.liquidity
    ensures y.liquidity == x.liquidity ==> x.hops <= y.hops
    ensures y.liquidity == x.liquidity && x.hops == y.hops ==> x.price <= y.price
  {
    CutAway(list, o, cap, y);
    CutRanks(Sort(list + [o], RanksAtMost), cap, x, y);
  }

  lemma CutAway(list: seq<Observation>, o: Observation, cap: nat, y: Observation)
    requires IndexOfKey(list, KeyOf(o)) == |list| && y in list + [o] && y !in Offer(list, o, cap).list
    ensures var sorted := Sort(list + [o], RanksAtMost);
            Sorted(sorted, RanksAtMost) && y in sorted && cap < |sorted| && Offer(list, o, cap).list == sorted[..cap]
  {
    RankingHolds(list + [o], y);
  }

  // ---------------------------------------------------------------- streaming top-K

  lemma RanksAreAComparator()
    ensures Comparator(RanksAtMost)
  {
  }

  lemma SortSnoc(s: seq<Observation>, x: Observation)
    ensures Sort(s + [x], RanksAtMost) == Insert(Sort(s, RanksAtMost), x, RanksAtMost)
  {
    assert (s + [x])[..|s|] == s;
  }

  /** As long as no offer merges, the list is what ranking everything offered so far and
      cutting once would give. */
  lemma OfferStreams(list: seq<Observation>, offered: seq<Observation>, o: Observation, cap: nat)
    requires 1 <= cap && list == Take(Sort(offered, RanksAtMost), cap)
    requires IndexOfKey(list, KeyOf(o)) == |list|
    ensures Offer(list, o, cap).list == Take(Sort(offered + [o], RanksAtMost), cap)
  {
    RanksAreAComparator();
    SortSorts(offered, RanksAtMost);
    SortOfSorted(list, RanksAtMost);
    SortSnoc(list, o);
    SortSnoc(offered, o);
    InsertThenTake(Sort(offered, RanksAtMost), o, cap, RanksAtMost);
  }
}
