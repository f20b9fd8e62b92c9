/** What a price path is worth, said of its edges one by one, and that the search's paths are these. */
module PathMeaning {
  import opened Wrappers
  import opened PathTypes
  import opened PathSearchSpec

  // ---------------------------------------------------------------- a route, edge by edge

  /** Wrapping and unwrapping crosses no pool. */
  predicate CrossesPool(e: Edge) { e.kind == XykEdge || e.kind == StableswapEdge || e.kind == UniswapV3Edge }

  /** How many of its edges cross a pool. */
  ghost function PoolsCrossed(route: seq<Edge>): nat { |set i | 0 <= i < |route| && CrossesPool(route[i])| }

  /** The price at every asset of the route. */
  ghost predicate PricedAlong(s: Seed, route: seq<Edge>, prices: seq<int>) {
    && |prices| == |route| + 1 && prices[0] == s.price
    && forall i | 0 <= i < |route| :: prices[i + 1] == route[i].computePrice(prices[i])
  }

  function AssetsAlong(s: Seed, route: seq<Edge>): (assets: seq<int>)
    ensures |assets| == |route| + 1
  {
    [s.asset] + seq(|route|, i requires 0 <= i < |route| => route[i].toAsset)
  }

  /** The depth of edge `i`; an edge that computes none limits nothing. */
  ghost predicate DepthAt(route: seq<Edge>, prices: seq<int>, i: nat, depth: int)
    requires i < |route| && |prices| == |route| + 1
  {
    route[i].computeLiquidityUsd.Some? && route[i].computeLiquidityUsd.value(prices[i], prices[i + 1]) == depth
  }

  /** The bottleneck: the least of the edges' depths and 10^48. */
  ghost predicate IsBottleneck(route: seq<Edge>, prices: seq<int>, depth: int)
    requires |prices| == |route| + 1
  {
    var unbounded := 1_000_000_000_000_000_000_000_000_000_000_000_000_000_000_000_000_000_000_000_000;
    && depth <= unbounded
    && (forall i, d {:trigger DepthAt(route, prices, i, d)} | 0 <= i < |route| && DepthAt(route, prices, i, d) :: depth <= d)
    && (depth == unbounded || exists i :: 0 <= i < |route| && DepthAt(route, prices, i, depth))
  }

  /** Every edge leaves the asset before it. */
  ghost predicate InGraph(cfg: Config, s: Seed, route: seq<Edge>) {
    forall i {:trigger route[i]} | 0 <= i < |route| ::
      AssetsAlong(s, route)[i] in cfg.graph && route[i] in cfg.graph[AssetsAlong(s, route)[i]]
  }

  ghost predicate NoneIsPriced(cfg: Config, route: seq<Edge>) { forall i | 0 <= i < |route| :: route[i].toAsset !in cfg.priced }

  ghost predicate NoneIsZero(route: seq<Edge>, prices: seq<int>)
    requires |prices| == |route| + 1
  {
    forall i | 1 <= i <= |route| :: prices[i] != 0
  }

  /** A whole path the search should find, with its prices and its depth. */
  ghost predicate IsGoodPath(cfg: Config, s: Seed, route: seq<Edge>, prices: seq<int>, depth: int) {
    && s in cfg.seeds && route != [] && PricedAlong(s, route, prices) && IsBottleneck(route, prices, depth)
    && InGraph(cfg, s, route) && Distinct(AssetsAlong(s, route)) && NoneIsPriced(cfg, route)
    && PoolsCrossed(route) <= cfg.maxHops && NoneIsZero(route, prices)
    && DeepEnough(cfg.options.minGraphPathLiquidityUsd, depth)
  }

  /** Dollars count in units of 10^-18; no threshold, or none above zero, still excludes a negative depth. */
  predicate DeepEnough(minUsd: Option<int>, depth: int) {
    0 <= depth && (minUsd.Some? ==> minUsd.value * 1_000_000_000_000_000_000 <= depth)
  }

  // ---------------------------------------------------------------- the composed observation is the route's

  lemma OneMoreCrossed(route: seq<Edge>)
    requires route != []
    ensures PoolsCrossed(route) == PoolsCrossed(route[..|route| - 1]) + if route[|route| - 1].kind == AtokenEdge then 0 else 1
  {
    var n := |route| - 1;
    var before, after := set i | 0 <= i < n && CrossesPool(route[..n][i]), set i | 0 <= i < n + 1 && CrossesPool(route[i]);
    assert forall i | 0 <= i < n :: route[..n][i] == route[i];
    assert after == if CrossesPool(route[n]) then before + {n} else before;
    assert CrossesPool(route[n]) <==> route[n].kind != AtokenEdge;
  }

  ghost predicate PricedAs(s: Seed, route: seq<Edge>, prices: seq<int>) {
    |prices| == |route| + 1 && forall i | 0 <= i <= |route| :: Walk(s, route[..i]).price == prices[i]
  }

  lemma {:induction false} WalkIsPriced(s: Seed, route: seq<Edge>) returns (prices: seq<int>)
    ensures PricedAlong(s, route, prices) && PricedAs(s, route, prices)
  {
    if route == [] {
      prices := [s.price];
      assert route[..0] == [];
    } else {
      var n := |route| - 1;
      var front := WalkIsPriced(s, route[..n]);
      prices := front + [route[n].computePrice(front[n])];
      LastPrice(s, route, front, prices);
    }
  }

  lemma LastPrice(s: Seed, route: seq<Edge>, front: seq<int>, prices: seq<int>)
    requires route != [] && PricedAs(s, route[..|route| - 1], front)
    requires prices == front + [route[|route| - 1].computePrice(front[|route| - 1])]
    ensures PricedAs(s, route, prices)
  {
    var n := |route| - 1;
    assert route[..n][..n] == route[..n] && route[..n + 1] == route;
    forall i | 0 <= i <= |route| ensures Walk(s, route[..i]).price == prices[i] {
      if i <= n { assert route[..n][..i] == route[..i]; }
    }
  }

  lemma {:induction false} PricesAreUnique(s: Seed, route: seq<Edge>, p: seq<int>, q: seq<int>)
    requires PricedAlong(s, route, p) && PricedAlong(s, route, q)
    ensures p == q
  {
    var i := 0;
    while i < |route|
      invariant 0 <= i <= |route| && p[..i + 1] == q[..i + 1]
    {
      assert p[i] == p[..i + 1][i] == q[..i + 1][i] == q[i];
      assert p[i + 1] == q[i + 1];
      assert p[..i + 2] == p[..i + 1] + [p[i + 1]] && q[..i + 2] == q[..i + 1] + [q[i + 1]];
      i := i + 1;
    }
    assert p[..|route| + 1] == p && q[..|route| + 1] == q;
  }

  lemma {:induction false} WalkIsBottleneck(s: Seed, route: seq<Edge>, prices: seq<int>)
    requires PricedAs(s, route, prices)
    ensures IsBottleneck(route, prices, Walk(s, route).liquidity)
  {
    if route != [] {
      var n := |route| - 1;
      LastDepth(s, route, prices);
      WalkIsBottleneck(s, route[..n], prices[..n + 1]);
      BottleneckGrows(route, prices, Walk(s, route[..n]).liquidity, EdgeLiquidity(route[n], prices[n], prices[n + 1]));
    }
  }

  lemma LastDepth(s: Seed, route: seq<Edge>, prices: seq<int>)
    requires route != [] && PricedAs(s, route, prices)
    ensures var n := |route| - 1;
            && PricedAs(s, route[..n], prices[..n + 1])
            && Walk(s, route).liquidity == Min(Walk(s, route[..n]).liquidity, EdgeLiquidity(route[n], prices[n], prices[n + 1]))
  {
    var n := |route| - 1;
    forall i | 0 <= i <= n ensures Walk(s, route[..n][..i]).price == prices[..n + 1][i] { assert route[..n][..i] == route[..i]; }
    assert route[..n + 1] == route;
  }

  lemma BottleneckGrows(route: seq<Edge>, prices: seq<int>, before: int, own: int)
    requires route != [] && |prices| == |route| + 1
    requires IsBottleneck(route[..|route| - 1], prices[..|route|], before)
    requires own == EdgeLiquidity(route[|route| - 1], prices[|route| - 1], prices[|route|])
    ensures IsBottleneck(route, prices, Min(before, own))
  {
    var n := |route| - 1;
    var front, short := route[..n], prices[..n + 1];
    forall i, d | 0 <= i < |route| && DepthAt(route, prices, i, d) ensures Min(before, own) <= d {
      if i < n { assert DepthAt(front, short, i, d); }
    }
    if route[n].computeLiquidityUsd.Some? && own < before {
      assert DepthAt(route, prices, n, own);
    } else if i :| 0 <= i < |front| && DepthAt(front, short, i, before) {
      assert DepthAt(route, prices, i, before);
    }
  }

  lemma BottleneckIsUnique(route: seq<Edge>, prices: seq<int>, d: int, e: int)
    requires |prices| == |route| + 1 && IsBottleneck(route, prices, d) && IsBottleneck(route, prices, e)
    ensures d == e
  {
  }

  lemma NothingCrossed(s: Seed)
    ensures PoolsCrossed([]) == 0 && AssetsAlong(s, []) == [s.asset]
  {
    var none: seq<Edge> := [];
    assert (set i | 0 <= i < |none| && CrossesPool(none[i])) == {};
  }

  lemma {:induction false} WalkPath(s: Seed, route: seq<Edge>)
    ensures Walk(s, route).path == AssetsAlong(s, route) && Walk(s, route).hops == PoolsCrossed(route)
  {
    if route == [] {
      NothingCrossed(s);
    } else {
      WalkPath(s, route[..|route| - 1]);
      OneMoreCrossed(route);
      assert AssetsAlong(s, route) == AssetsAlong(s, route[..|route| - 1]) + [route[|route| - 1].toAsset];
    }
  }

  /** What a route composes to: the price at its end, the pools it crosses, its bottleneck and the
      assets it visits. */
  lemma WalkMeans(s: Seed, route: seq<Edge>, prices: seq<int>, depth: int)
    requires PricedAlong(s, route, prices) && IsBottleneck(route, prices, depth)
    ensures Walk(s, route) == Observation(prices[|route|], PoolsCrossed(route), depth, AssetsAlong(s, route))
    ensures forall i | 0 <= i <= |route| :: Walk(s, route[..i]).price == prices[i]
  {
    var own := WalkIsPriced(s, route);
    PricesAreUnique(s, route, own, prices);
    WalkIsBottleneck(s, route, prices);
    BottleneckIsUnique(route, prices, depth, Walk(s, route).liquidity);
    WalkPath(s, route);
    assert route[..|route|] == route;
  }

  lemma WalkHasMeaning(s: Seed, route: seq<Edge>) returns (prices: seq<int>, depth: int)
    ensures PricedAlong(s, route, prices) && IsBottleneck(route, prices, depth)
    ensures Walk(s, route) == Observation(prices[|route|], PoolsCrossed(route), depth, AssetsAlong(s, route))
  {
    prices := WalkIsPriced(s, route);
    WalkIsBottleneck(s, route, prices);
    depth := Walk(s, route).liquidity;
    WalkMeans(s, route, prices, depth);
  }

  lemma ThresholdIsDeepEnough(cfg: Config, depth: int)
    ensures depth >= cfg.Threshold() <==> DeepEnough(cfg.options.minGraphPathLiquidityUsd, depth)
  {
  }

  /** The paths the search admits are the good ones. */
  lemma AdmissibleMeans(cfg: Config, s: Seed, route: seq<Edge>, prices: seq<int>, depth: int)
    requires PricedAlong(s, route, prices) && IsBottleneck(route, prices, depth)
    ensures Admissible(cfg, s, route) <==> IsGoodPath(cfg, s, route, prices, depth)
  {
    WalkMeans(s, route, prices, depth);
    ThresholdIsDeepEnough(cfg, depth);
    ConnectedMeans(cfg, s, route);
    AvoidsMeans(cfg, route);
    NonzeroMeans(s, route, prices);
  }

  lemma NonzeroMeans(s: Seed, route: seq<Edge>, prices: seq<int>)
    requires |prices| == |route| + 1 && forall i | 0 <= i <= |route| :: Walk(s, route[..i]).price == prices[i]
    ensures NowhereZero(s, route) <==> NoneIsZero(route, prices)
  {
  }

  lemma ConnectedMeans(cfg: Config, s: Seed, route: seq<Edge>)
    ensures Connected(cfg, s, route) <==> InGraph(cfg, s, route)
  {
    forall i: nat | i <= |route| ensures AssetsAlong(s, route)[i] == Origin(s, route, i) {}
  }

  lemma AvoidsMeans(cfg: Config, route: seq<Edge>)
    ensures AvoidsPriced(cfg, route) <==> NoneIsPriced(cfg, route)
  {
    forall i | 0 <= i < |route| ensures route[i] in route {}
  }

  // ---------------------------------------------------------------- keys

  ghost predicate HasKey(cfg: Config, a: int, k: Key, s: Seed, route: seq<Edge>, prices: seq<int>, depth: int) {
    && IsGoodPath(cfg, s, route, prices, depth) && route[|route| - 1].toAsset == a
    && k == Key(prices[|route|], PoolsCrossed(route), AssetsAlong(s, route))
  }

  /** Some good path to `a` has this price, hop count and path. */
  ghost predicate GoodKey(cfg: Config, a: int, k: Key) {
    exists s, route, prices, depth :: HasKey(cfg, a, k, s, route, prices, depth)
  }

  /** Some good path to `a` has this key and a depth of at most `liquidity`. */
  ghost predicate GoodWitness(cfg: Config, a: int, k: Key, liquidity: int) {
    exists s, route, prices, depth :: HasKey(cfg, a, k, s, route, prices, depth) && depth <= liquidity
  }

  lemma AdmissibleHasKey(cfg: Config, a: int, s: Seed, route: seq<Edge>) returns (prices: seq<int>, depth: int)
    requires Admissible(cfg, s, route) && End(Walk(s, route).path) == a
    ensures HasKey(cfg, a, KeyOf(Walk(s, route)), s, route, prices, depth) && depth == Walk(s, route).liquidity
  {
    prices, depth := WalkHasMeaning(s, route);
    AdmissibleMeans(cfg, s, route, prices, depth);
  }

  lemma KeyIsAdmissible(cfg: Config, a: int, k: Key, s: Seed, route: seq<Edge>, prices: seq<int>, depth: int)
    requires HasKey(cfg, a, k, s, route, prices, depth)
    ensures AdmissibleKey(cfg, a, k)
  {
    WalkMeans(s, route, prices, depth);
    AdmissibleMeans(cfg, s, route, prices, depth);
    assert Admissible(cfg, s, route) && KeyOf(Walk(s, route)) == k && End(k.path) == a;
  }

  lemma GoodKeyIff(cfg: Config, a: int, k: Key)
    ensures AdmissibleKey(cfg, a, k) <==> GoodKey(cfg, a, k)
  {
    if AdmissibleKey(cfg, a, k) {
      var s, route :| Admissible(cfg, s, route) && KeyOf(Walk(s, route)) == k && End(k.path) == a;
      var prices, depth := AdmissibleHasKey(cfg, a, s, route);
    }
    if GoodKey(cfg, a, k) {
      var s, route, prices, depth :| HasKey(cfg, a, k, s, route, prices, depth);
      KeyIsAdmissible(cfg, a, k, s, route, prices, depth);
    }
  }
}
