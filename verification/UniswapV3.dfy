/** The concentrated-liquidity tracker of src/price/uniswapV3.ts over many pools. */
module UniswapV3 {
  // The fold of pool events, the tracker, and the edge it offers.

  import opened Wrappers

  const Q96: nat := 0x1_0000_0000_0000_0000_0000_0000

  type Address = string

  /** What a pool's record holds: `UniswapV3PoolState`. */
  datatype PoolState = PoolState(sqrtPriceX96: int, tick: int, liquidity: int)

  const EMPTY := PoolState(0, 0, 0)

  /** The decoded logs, without the fields the fold ignores. */
  datatype LogEvent =
    | PoolCreated(pool: Address)
    | Initialize(pool: Address, sqrtPriceX96: int, tick: int)
    | Swap(pool: Address, sqrtPriceX96: int, liquidity: nat, tick: int)
    | Mint(pool: Address, tickLower: int, tickUpper: int, amount: nat)
    | Burn(pool: Address, tickLower: int, tickUpper: int, amount: nat)

  predicate TickInRange(tick: int, tickLower: int, tickUpper: int) { tickLower <= tick && tick < tickUpper }

  /** One event folded into a pool's state. */
  function Apply(s: PoolState, e: LogEvent): PoolState {
    match e
    case PoolCreated(_) => s
    case Initialize(_, p, t) => s.(sqrtPriceX96 := p, tick := t)
    case Swap(_, p, l, t) => PoolState(p, t, l)
    case Mint(_, lo, hi, amount) =>
      if amount == 0 || !TickInRange(s.tick, lo, hi) then s else s.(liquidity := s.liquidity + amount)
    case Burn(_, lo, hi, amount) =>
      if amount == 0 || !TickInRange(s.tick, lo, hi) then s
      else s.(liquidity := if s.liquidity > amount then s.liquidity - amount else 0)
  }

  /** In range, a burn takes what it names and leaves nothing where there is less; out of range, or
      of nothing, it leaves all. */
  lemma BurnLeaves(s: PoolState, pool: Address, lo: int, hi: int, amount: nat)
    requires 0 <= s.liquidity
    ensures var t := Apply(s, Burn(pool, lo, hi, amount));
            && t.sqrtPriceX96 == s.sqrtPriceX96 && t.tick == s.tick && 0 <= t.liquidity <= s.liquidity
            && (lo <= s.tick < hi ==> t.liquidity + amount == (if amount <= s.liquidity then s.liquidity else amount))
            && (!(lo <= s.tick < hi) ==> t == s)
  {
  }

  function Fold(s: PoolState, es: seq<LogEvent>): PoolState {
    if es == [] then s else Apply(Fold(s, es[..|es| - 1]), es[|es| - 1])
  }

  /** The reserves of the constant-product pool tangent at the current price. */
  function VirtualReserves(sqrtPriceX96: int, liquidity: int): Option<(int, int)> {
    if sqrtPriceX96 <= 0 || liquidity <= 0 then None
    else
      var r0, r1 := liquidity * Q96 / sqrtPriceX96, liquidity * sqrtPriceX96 / Q96;
      if r0 == 0 || r1 == 0 then None else Some((r0, r1))
  }

  function EdgeOf(s: PoolState): Option<(int, int)> { VirtualReserves(s.sqrtPriceX96, s.liquidity) }

  /** Reserve 0 is the liquidity over the square root of the price and reserve 1 the liquidity times
      it, both rounded down; there is an edge exactly when both are positive. */
  lemma VirtualReservesAre(p: int, l: int)
    ensures VirtualReserves(p, l).None? <==> p <= 0 || l <= 0 || l * Q96 < p || l * p < Q96
    ensures VirtualReserves(p, l).Some? ==>
              var (r0, r1) := VirtualReserves(p, l).value;
              && r0 * p <= l * Q96 < (r0 + 1) * p
              && r1 * Q96 <= l * p < (r1 + 1) * Q96
  {
    if p > 0 && l > 0 {
      FloorBrackets(l * Q96, p);
      FloorBrackets(l * p, Q96);
      Products(0, l, 0, Q96);
      Products(0, l, 0, p);
    }
  }

  lemma FloorBrackets(x: int, d: int)
    requires 0 < d
    ensures (x / d) * d <= x < (x / d + 1) * d
    ensures 0 <= x ==> (x / d == 0 <==> x < d)
  {
    var q, r := x / d, x % d;
    assert x == d * q + r && 0 <= r < d;
    assert (q + 1) * d == d * q + d && q * d == d * q;
    if 0 <= x && q != 0 { FloorIsNat(x, d); }
  }

  lemma FloorIsNat(x: int, d: int)
    requires 0 < d && 0 <= x && x / d != 0
    ensures x >= d
  {
  }

  /** The edge a state offers, with 2^96 written out. */
  lemma EdgeIs(s: PoolState)
    ensures EdgeOf(s).Some? <==>
              && s.sqrtPriceX96 > 0 && s.liquidity > 0
              && s.liquidity * 79_228_162_514_264_337_593_543_950_336 >= s.sqrtPriceX96
              && s.liquidity * s.sqrtPriceX96 >= 79_228_162_514_264_337_593_543_950_336
    ensures EdgeOf(s).Some? ==>
              var (r0, r1) := EdgeOf(s).value;
              && r0 * s.sqrtPriceX96 <= s.liquidity * 79_228_162_514_264_337_593_543_950_336 < (r0 + 1) * s.sqrtPriceX96
              && r1 * 79_228_162_514_264_337_593_543_950_336 <= s.liquidity * s.sqrtPriceX96
                 < (r1 + 1) * 79_228_162_514_264_337_593_543_950_336
  {
    VirtualReservesAre(s.sqrtPriceX96, s.liquidity);
  }

  /** At fixed liquidity a higher price never offers more of token 0 nor less of token 1. */
  lemma ReservesFollowPrice(p: int, q: int, l: int)
    requires p <= q && VirtualReserves(p, l).Some? && VirtualReserves(q, l).Some?
    ensures VirtualReserves(q, l).value.0 <= VirtualReserves(p, l).value.0
    ensures VirtualReserves(p, l).value.1 <= VirtualReserves(q, l).value.1
  {
    var (r0, r1) := VirtualReserves(p, l).value;
    var (s0, s1) := VirtualReserves(q, l).value;
    VirtualReservesAre(p, l);
    VirtualReservesAre(q, l);
    Products(p, q, l, l);
    if s0 > r0 { Products(r0 + 1, s0, p, q); }
    if r1 > s1 { Products(s1 + 1, r1, Q96, Q96); }
  }

  /** Rounding never offers more depth than the pool has in range: the product of the virtual
      reserves is at most the square of the liquidity, and an edge needs both reserves. */
  lemma VirtualProductIsBounded(p: int, l: int)
    requires VirtualReserves(p, l).Some?
    ensures var (r0, r1) := VirtualReserves(p, l).value; 0 < r0 && 0 < r1 && r0 * r1 <= l * l
  {
    var r0, r1 := l * Q96 / p, l * p / Q96;
    ProductBound(r0, r1, l, p, Q96);
  }

  lemma ProductBound(r0: int, r1: int, l: int, p: int, q: int)
    requires 0 < p && 0 < q && 0 < l && r0 == l * q / p && r1 == l * p / q
    ensures 0 <= r0 && 0 <= r1 && r0 * r1 <= l * l
  {
    Products(0, l, 0, q);
    Products(0, l, 0, p);
    FloorTimes(l * q, p);
    FloorTimes(l * p, q);
    CrossProduct(r0, r1, l, p, q);
  }

  lemma CrossProduct(r0: int, r1: int, l: int, p: int, q: int)
    requires 0 < p && 0 < q && 0 <= r0 && 0 <= r1
    requires 0 <= r0 * p <= l * q && 0 <= r1 * q <= l * p
    ensures r0 * r1 <= l * l
  {
    Products(r0 * p, l * q, r1 * q, l * p);
    Rearrange(r0, p, r1, q);
    Rearrange(l, q, l, p);
    Products(0, p, 0, q);
    if r0 * r1 > l * l {
      Cancel(p, 0, q);
      Cancel(r0 * r1, l * l, p * q);
    }
  }

  lemma Rearrange(a: int, b: int, c: int, d: int)
    ensures (a * b) * (c * d) == (a * c) * (b * d)
  {
    assert (a * b) * (c * d) == a * (b * (c * d)) == a * ((b * c) * d) == a * ((c * b) * d) == a * (c * (b * d));
  }

  lemma FloorTimes(x: int, d: int)
    requires 0 <= x && 0 < d
    ensures 0 <= x / d && 0 <= (x / d) * d <= x
  {
  }

  lemma Products(a: int, b: int, c: int, d: int)
    requires 0 <= a <= b && 0 <= c <= d
    ensures a * c <= b * d
  {
    assert a * c <= b * c <= b * d;
  }

  lemma Cancel(a: int, b: int, k: int)
    requires a > b && k > 0
    ensures a * k > b * k
  {
  }

  // ---------------------------------------------------------------- the tracker on values

  type Pools = map<Address, PoolState>

  /** `applyEvent`: a created pool starts empty, a known pool folds, anything else is ignored. */
  function TrackOne(pools: Pools, e: LogEvent): Pools {
    if e.PoolCreated? then if e.pool in pools then pools else pools[e.pool := EMPTY]
    else if e.pool in pools then pools[e.pool := Apply(pools[e.pool], e)] else pools
  }

  function Track(pools: Pools, es: seq<LogEvent>): Pools {
    if es == [] then pools else TrackOne(Track(pools, es[..|es| - 1]), es[|es| - 1])
  }

  /** The events of one pool, in order. */
  function For(p: Address, es: seq<LogEvent>): seq<LogEvent> {
    if es == [] then []
    else
      var e := es[|es| - 1];
      For(p, es[..|es| - 1]) + if e.pool == p && !e.PoolCreated? then [e] else []
  }

  predicate Creates(p: Address, es: seq<LogEvent>) { exists i :: 0 <= i < |es| && es[i] == PoolCreated(p) }

  /** What follows the creation of `p`. */
  function SinceCreation(p: Address, es: seq<LogEvent>): seq<LogEvent>
    requires Creates(p, es)
  {
    if es[0] == PoolCreated(p) then es[1..] else SinceCreation(p, es[1..])
  }

  /** Pools do not disturb each other: a known pool's state is the fold of its own events. */
  lemma {:induction false} KnownPoolFoldsAlone(pools: Pools, es: seq<LogEvent>, p: Address)
    requires p in pools
    ensures p in Track(pools, es) && Track(pools, es)[p] == Fold(pools[p], For(p, es))
  {
    if es != [] {
      KnownPoolFoldsAlone(pools, es[..|es| - 1], p);
      var own, e := For(p, es[..|es| - 1]), es[|es| - 1];
      assert (own + [e])[..|own|] == own;
      assert own + [] == own;
    }
  }

  lemma {:induction false} TrackSplits(pools: Pools, a: seq<LogEvent>, b: seq<LogEvent>)
    ensures Track(pools, a + b) == Track(Track(pools, a), b)
  {
    if b == [] {
      assert a + b == a;
    } else {
      TrackSplits(pools, a, b[..|b| - 1]);
      assert (a + b)[..|a + b| - 1] == a + b[..|b| - 1];
    }
  }

  /** A new pool is tracked from its creation on, and from nothing before it. */
  lemma {:induction false} NewPoolStartsEmpty(pools: Pools, es: seq<LogEvent>, p: Address)
    requires p !in pools
    ensures p in Track(pools, es) <==> Creates(p, es)
    ensures Creates(p, es) ==> Track(pools, es)[p] == Fold(EMPTY, For(p, SinceCreation(p, es)))
    decreases |es|
  {
    if es != [] {
      var e, rest := es[0], es[1..];
      assert es == [e] + rest && es[..1] == [e];
      TrackSplits(pools, [e], rest);
      assert Track(pools, [e]) == TrackOne(Track(pools, []), e) by { assert [e][..0] == []; }
      if e == PoolCreated(p) {
        KnownPoolFoldsAlone(Track(pools, [e]), rest, p);
      } else {
        NewPoolStartsEmpty(Track(pools, [e]), rest, p);
        assert Creates(p, rest) ==> Creates(p, es);
        if Creates(p, es) {
          var i :| 0 <= i < |es| && es[i] == PoolCreated(p);
          assert rest[i - 1] == PoolCreated(p);
        }
      }
    }
  }

  // ---------------------------------------------------------------- the tracker on the heap

  /** Whether an event moves anything an edge depends on. */
  predicate Moves(s: PoolState, e: LogEvent) {
    || e.Initialize? || e.Swap?
    || ((e.Mint? || e.Burn?) && e.amount > 0 && e.tickLower <= s.tick && s.tick < e.tickUpper)
  }

  predicate MovesKnown(pools: Pools, e: LogEvent) { !e.PoolCreated? && e.pool in pools && Moves(pools[e.pool], e) }

  predicate AnyMoves(pools: Pools, es: seq<LogEvent>) {
    es != [] && (AnyMoves(pools, es[..|es| - 1]) || MovesKnown(Track(pools, es[..|es| - 1]), es[|es| - 1]))
  }

  /** A tracked pool's mutable record. */
  class TrackedPool {
    var sqrtPriceX96: int
    var tick: int
    var liquidity: int

    constructor ()
      ensures State() == EMPTY
    {
      sqrtPriceX96, tick, liquidity := 0, 0, 0;
    }

    function State(): PoolState
      reads this
    {
      PoolState(sqrtPriceX96, tick, liquidity)
    }

    /** `applyPoolEvent`. */
    method ApplyPoolEvent(e: LogEvent) returns (changed: bool)
      modifies this
      ensures State() == Apply(old(State()), e)
      ensures changed == Moves(old(State()), e) && (!changed ==> State() == old(State()))
    {
      changed := false;
      match e {
        case PoolCreated(_) =>
        case Initialize(_, p, t) =>
          sqrtPriceX96, tick := p, t;
          changed := true;
        case Swap(_, p, l, t) =>
          sqrtPriceX96, tick, liquidity := p, t, l;
          changed := true;
        case Mint(_, lo, hi, amount) =>
          if !(amount == 0 || !TickInRange(tick, lo, hi)) {
            liquidity := liquidity + amount;
            changed := true;
          }
        case Burn(_, lo, hi, amount) =>
          if !(amount == 0 || !TickInRange(tick, lo, hi)) {
            liquidity := if liquidity > amount then liquidity - amount else 0;
            changed := true;
          }
      }
    }
  }

  /** How many swap logs hit a pool that is known when they arrive. */
  function KnownSwaps(pools: Pools, es: seq<LogEvent>): nat {
    if es == [] then 0
    else
      var e := es[|es| - 1];
      KnownSwaps(pools, es[..|es| - 1]) + if e.Swap? && e.pool in Track(pools, es[..|es| - 1]) then 1 else 0
  }

  /** No edge of `before` moved, and what is new offers none. */
  ghost predicate SameEdges(before: Pools, after: Pools) {
    && (forall p | p in before :: p in after && after[p] == before[p])
    && (forall p | p in after && p !in before :: EdgeOf(after[p]) == None)
  }

  class PoolTracker {
    var pools: map<Address, TrackedPool>
    ghost var Repr: set<object>

    ghost predicate Valid()
      reads this, Repr
    {
      && this in Repr
      && (forall p | p in pools :: pools[p] in Repr)
      && (forall p, q | p in pools && q in pools && p != q :: pools[p] != pools[q])
    }

    ghost function View(): Pools
      reads this, Repr
      requires Valid()
    {
      map p | p in pools :: pools[p].State()
    }

    constructor ()
      ensures Valid() && fresh(Repr) && View() == map[]
    {
      pools, Repr := map[], {this};
    }

    method AddPool(p: Address) returns (added: bool)
      requires Valid()
      modifies this
      ensures Valid() && fresh(Repr - old(Repr))
      ensures added == (p !in old(View()))
      ensures View() == TrackOne(old(View()), PoolCreated(p))
    {
      added := p !in pools;
      if added {
        var record := new TrackedPool();
        pools, Repr := pools[p := record], Repr + {record};
      }
    }

    method ApplyEvent(e: LogEvent) returns (changed: bool, swap: bool)
      requires Valid()
      modifies Repr
      ensures Valid() && fresh(Repr - old(Repr))
      ensures View() == TrackOne(old(View()), e)
      ensures swap == (e.Swap? && e.pool in old(View())) && changed == MovesKnown(old(View()), e)
      ensures !changed ==> SameEdges(old(View()), View())
    {
      changed, swap := false, false;
      if e.PoolCreated? {
        var _ := AddPool(e.pool);
      } else if e.pool in pools {
        ghost var before := View();
        changed := pools[e.pool].ApplyPoolEvent(e);
        swap := e.Swap?;
        assert forall p | p in pools && p != e.pool :: pools[p].State() == before[p];
        assert View() == before[e.pool := Apply(before[e.pool], e)];
      }
    }

    /** `processEvents` over the logs that decode. */
    method ProcessEvents(events: seq<LogEvent>) returns (swaps: nat, changed: bool)
      requires Valid()
      modifies Repr
      ensures Valid() && fresh(Repr - old(Repr))
      ensures View() == Track(old(View()), events)
      ensures swaps == KnownSwaps(old(View()), events)
      ensures changed == AnyMoves(old(View()), events)
      ensures !changed ==> SameEdges(old(View()), View())
    {
      swaps, changed := 0, false;
      for i := 0 to |events|
        invariant Valid() && fresh(Repr - old(Repr))
        invariant View() == Track(old(View()), events[..i])
        invariant swaps == KnownSwaps(old(View()), events[..i])
        invariant changed == AnyMoves(old(View()), events[..i])
        invariant !changed ==> SameEdges(old(View()), View())
      {
        assert events[..i + 1][..i] == events[..i];
        var moved, swap := ApplyEvent(events[i]);
        if moved { changed := true; }
        if swap { swaps := swaps + 1; }
      }
      assert events[..|events|] == events;
    }
  }
}
