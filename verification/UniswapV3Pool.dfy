/** The pool the tracker of src/price/uniswapV3.ts follows, and the tracker as its refinement. */
module UniswapV3Pool {
  // The pool contract is reduced to what its logs speak about. Folding those logs gives its price and
  // in-range liquidity; so does a tracker re-seeded from the newest anchor, and exactly when is said.

  import opened UniswapV3

  /** A position is keyed by its owner and range. */
  datatype Position = Position(owner: string, tickLower: int, tickUpper: int)

  type Positions = map<Position, nat>

  datatype Pool = Pool(initialized: bool, sqrtPriceX96: int, tick: int, positions: Positions)

  datatype Action =
    | DoInitialize(sqrtPriceX96: int, tick: int)
    | DoSwap(sqrtPriceX96: int, tick: int)
    | DoMint(position: Position, amount: nat)
    | DoBurn(position: Position, amount: nat)

  const UNBORN := Pool(false, 0, 0, map[])

  function Held(m: Positions, p: Position): nat { if p in m then m[p] else 0 }

  function Share(p: Position, amount: nat, tick: int): nat {
    if p.tickLower <= tick < p.tickUpper then amount else 0
  }

  /** Liquidity of the positions whose range holds the tick. */
  ghost function InRange(m: Positions, tick: int): nat {
    if m.Keys == {} then 0
    else
      var p :| p in m.Keys;
      Share(p, m[p], tick) + InRange(m - {p}, tick)
  }

  /** The pool refuses everything before its one initialisation and a burn of more than is held. */
  predicate Allowed(pool: Pool, a: Action) {
    match a
    case DoInitialize(_, _) => !pool.initialized
    case DoSwap(_, _) => pool.initialized
    case DoMint(_, _) => pool.initialized
    case DoBurn(p, amount) => pool.initialized && amount <= Held(pool.positions, p)
  }

  function Act(pool: Pool, a: Action): Pool
    requires Allowed(pool, a)
  {
    match a
    case DoInitialize(price, t) => pool.(initialized := true, sqrtPriceX96 := price, tick := t)
    case DoSwap(price, t) => pool.(sqrtPriceX96 := price, tick := t)
    case DoMint(p, amount) => pool.(positions := pool.positions[p := Held(pool.positions, p) + amount])
    case DoBurn(p, amount) => pool.(positions := pool.positions[p := Held(pool.positions, p) - amount])
  }

  /** The log an action emits; a Swap reports the liquidity in range after it. */
  ghost function LogOf(pool: Pool, a: Action, address: Address): LogEvent
    requires Allowed(pool, a)
  {
    match a
    case DoInitialize(price, t) => Initialize(address, price, t)
    case DoSwap(price, t) => Swap(address, price, InRange(pool.positions, t), t)
    case DoMint(p, amount) => Mint(address, p.tickLower, p.tickUpper, amount)
    case DoBurn(p, amount) => Burn(address, p.tickLower, p.tickUpper, amount)
  }

  /** A run of the pool from its birth. */
  ghost predicate IsRun(run: seq<Action>)
    decreases |run|, 0
  {
    run == [] || (IsRun(run[..|run| - 1]) && Allowed(After(run[..|run| - 1]), run[|run| - 1]))
  }

  ghost function After(run: seq<Action>): Pool
    requires IsRun(run)
    decreases |run|, 1
  {
    if run == [] then UNBORN else Act(After(run[..|run| - 1]), run[|run| - 1])
  }

  ghost function LogsOf(run: seq<Action>, address: Address): (es: seq<LogEvent>)
    requires IsRun(run)
    ensures |es| == |run|
  {
    if run == [] then []
    else LogsOf(run[..|run| - 1], address) + [LogOf(After(run[..|run| - 1]), run[|run| - 1], address)]
  }

  // ---------------------------------------------------------------- liquidity in range

  lemma InRangePick(m: Positions, tick: int) returns (p: Position)
    requires m.Keys != {}
    ensures p in m && InRange(m, tick) == Share(p, m[p], tick) + InRange(m - {p}, tick)
  {
    p :| p in m.Keys && InRange(m, tick) == Share(p, m[p], tick) + InRange(m - {p}, tick);
  }

  /** Any position can be counted first. */
  lemma {:induction false} InRangeSplit(m: Positions, p: Position, tick: int)
    requires p in m
    ensures InRange(m, tick) == Share(p, m[p], tick) + InRange(m - {p}, tick)
    decreases |m.Keys|
  {
    var q := InRangePick(m, tick);
    if q != p {
      var without := m - {q};
      assert without.Keys == m.Keys - {q};
      InRangeSplit(without, p, tick);
      assert m - {p} - {q} == m - {q} - {p};
      assert (m - {p}).Keys == m.Keys - {p};
      InRangeSplit(m - {p}, q, tick);
    }
  }

  lemma InRangeUpdate(m: Positions, p: Position, amount: nat, tick: int)
    ensures InRange(m[p := amount], tick) == InRange(m, tick) - Share(p, Held(m, p), tick) + Share(p, amount, tick)
  {
    InRangeSplit(m[p := amount], p, tick);
    assert m[p := amount] - {p} == m - {p};
    if p in m {
      InRangeSplit(m, p, tick);
    } else {
      assert m - {p} == m;
    }
  }

  // ---------------------------------------------------------------- simulation

  /** The record the tracker should hold for a pool. */
  ghost function StateOf(pool: Pool): PoolState {
    PoolState(pool.sqrtPriceX96, pool.tick, InRange(pool.positions, pool.tick))
  }

  lemma ActionIsFollowed(pool: Pool, a: Action, address: Address)
    requires Allowed(pool, a)
    requires !pool.initialized ==> pool == UNBORN
    ensures Apply(StateOf(pool), LogOf(pool, a, address)) == StateOf(Act(pool, a))
  {
    match a {
      case DoInitialize(_, t) =>
        assert InRange(UNBORN.positions, t) == 0 == InRange(UNBORN.positions, 0);
      case DoSwap(_, _) =>
      case DoMint(p, amount) =>
        InRangeUpdate(pool.positions, p, Held(pool.positions, p) + amount, pool.tick);
      case DoBurn(p, amount) =>
        InRangeUpdate(pool.positions, p, Held(pool.positions, p) - amount, pool.tick);
        BurnIsCovered(pool.positions, p, amount, pool.tick);
    }
  }

  /** After every event of every run, the tracked price, tick and liquidity are the pool's own:
      the liquidity is that of the positions in range at the tracked tick. */
  lemma {:induction false} TrackerFollowsPool(run: seq<Action>, address: Address)
    requires IsRun(run)
    ensures Fold(EMPTY, LogsOf(run, address)) == StateOf(After(run))
  {
    if run != [] {
      var front := run[..|run| - 1];
      TrackerFollowsPool(front, address);
      assert LogsOf(run, address)[..|front|] == LogsOf(front, address);
      ActionIsFollowed(After(front), run[|run| - 1], address);
    }
  }

  lemma BurnIsCovered(m: Positions, p: Position, amount: nat, tick: int)
    requires amount <= Held(m, p)
    ensures TickInRange(tick, p.tickLower, p.tickUpper) ==> amount <= InRange(m, tick)
  {
    if p in m { InRangeSplit(m, p, tick); }
  }

  /** The saturating subtraction of a burn is never needed. */
  ghost predicate BurnsCovered(s: PoolState, es: seq<LogEvent>) {
    forall i | 0 <= i < |es| && es[i].Burn? ::
      var at := Fold(s, es[..i]);
      TickInRange(at.tick, es[i].tickLower, es[i].tickUpper) ==> es[i].amount <= at.liquidity
  }

  lemma {:induction false} BurnsNeverSaturate(run: seq<Action>, address: Address)
    requires IsRun(run)
    ensures BurnsCovered(EMPTY, LogsOf(run, address))
  {
    var es := LogsOf(run, address);
    if run != [] {
      var front, n := run[..|run| - 1], |run| - 1;
      BurnsNeverSaturate(front, address);
      TrackerFollowsPool(front, address);
      var logs := LogsOf(front, address);
      assert es == logs + [es[n]];
      forall i | 0 <= i < |es| && es[i].Burn?
        ensures var at := Fold(EMPTY, es[..i]);
                TickInRange(at.tick, es[i].tickLower, es[i].tickUpper) ==> es[i].amount <= at.liquidity
      {
        if i < n {
          assert es[..i] == logs[..i] && es[i] == logs[i];
        } else {
          assert es[..i] == logs;
          BurnIsCovered(After(front).positions, run[n].position, run[n].amount, After(front).tick);
        }
      }
    }
  }

  // ---------------------------------------------------------------- re-seeding from an anchor

  /** One pool's indexed events with their block heights, in (block, event) order. */
  datatype Row = Row(block: nat, event: LogEvent)

  predicate IsAnchor(e: LogEvent) { e.Initialize? || e.Swap? }

  ghost predicate WellFormed(h: seq<Row>) {
    && (forall i, j | 0 <= i < j < |h| :: h[i].block <= h[j].block)
    && (forall i | 0 <= i < |h| :: !h[i].event.PoolCreated? && (h[i].event.Initialize? <==> i == 0))
  }

  function Events(h: seq<Row>): (es: seq<LogEvent>)
    ensures |es| == |h|
  {
    seq(|h|, i requires 0 <= i < |h| => h[i].event)
  }

  /** `block_height <= {height}`. */
  function UpTo(h: seq<Row>, height: int): seq<Row> {
    if h == [] then []
    else
      var r := h[|h| - 1];
      UpTo(h[..|h| - 1], height) + if r.block <= height then [r] else []
  }

  /** `block_height >= anchor_block`. */
  function From(h: seq<Row>, block: int): seq<Row> {
    if h == [] then []
    else
      var r := h[|h| - 1];
      From(h[..|h| - 1], block) + if block <= r.block then [r] else []
  }

  /** `max(block_height)` over the Initialize and Swap rows; -1 without any. */
  function AnchorBlock(h: seq<Row>): (b: int)
    ensures b >= -1
  {
    if h == [] then -1
    else
      var r, rest := h[|h| - 1], AnchorBlock(h[..|h| - 1]);
      if IsAnchor(r.event) && r.block > rest then r.block else rest
  }

  /** The rows `loadFromClickHouse` replays: nothing without an anchor. */
  function Replayed(h: seq<Row>, height: int): seq<Row> {
    var upTo := UpTo(h, height);
    if AnchorBlock(upTo) < 0 then [] else From(upTo, AnchorBlock(upTo))
  }

  predicate AnchorHasSwap(h: seq<Row>, height: int) {
    var upTo := UpTo(h, height);
    exists r :: r in upTo && r.event.Swap? && r.block == AnchorBlock(upTo)
  }

  /** What is at or below a height is a prefix of a sorted history. */
  lemma {:induction false} UpToIsPrefix(h: seq<Row>, height: int)
    requires forall i, j | 0 <= i < j < |h| :: h[i].block <= h[j].block
    ensures UpTo(h, height) <= h
    ensures |UpTo(h, height)| < |h| ==> h[|UpTo(h, height)|].block > height
    ensures forall r | r in UpTo(h, height) :: r.block <= height
  {
    if h != [] {
      var front, last := h[..|h| - 1], h[|h| - 1];
      UpToIsPrefix(front, height);
      if last.block <= height {
        assert |UpTo(front, height)| == |front|;
        assert h == front + [last];
      } else if |UpTo(front, height)| < |front| {
        assert h[|UpTo(front, height)|] == front[|UpTo(front, height)|];
      }
    }
  }

  /** What is at or above a block is a suffix of a sorted history. */
  lemma {:induction false} FromIsSuffix(h: seq<Row>, block: int)
    requires forall i, j | 0 <= i < j < |h| :: h[i].block <= h[j].block
    ensures var k := |h| - |From(h, block)|;
            0 <= k && From(h, block) == h[k..] && (forall i | 0 <= i < k :: h[i].block < block) && (forall i | k <= i < |h| :: block <= h[i].block)
  {
    if h != [] {
      FromIsSuffix(h[..|h| - 1], block);
    }
  }

  lemma {:induction false} AnchorIsNewest(h: seq<Row>)
    ensures forall i | 0 <= i < |h| && IsAnchor(h[i].event) :: h[i].block <= AnchorBlock(h)
    ensures AnchorBlock(h) >= 0 ==> exists i :: 0 <= i < |h| && IsAnchor(h[i].event) && h[i].block == AnchorBlock(h)
  {
    if h != [] {
      var front := h[..|h| - 1];
      AnchorIsNewest(front);
      if AnchorBlock(h) == AnchorBlock(front) && AnchorBlock(h) >= 0 {
        var i :| 0 <= i < |front| && IsAnchor(front[i].event) && front[i].block == AnchorBlock(front);
        assert h[i] == front[i];
      } else if AnchorBlock(h) >= 0 {
        assert IsAnchor(h[|h| - 1].event);
      }
    }
  }

  lemma {:induction false} FoldSplits(s: PoolState, a: seq<LogEvent>, b: seq<LogEvent>)
    ensures Fold(s, a + b) == Fold(Fold(s, a), b)
  {
    if b == [] {
      assert a + b == a;
    } else {
      FoldSplits(s, a, b[..|b| - 1]);
      assert (a + b)[..|a + b| - 1] == a + b[..|b| - 1];
    }
  }

  /** A swap erases whatever was there before. */
  lemma SwapErases(s: PoolState, s': PoolState, es: seq<LogEvent>, i: nat)
    requires i < |es| && es[i].Swap?
    ensures Fold(s, es) == Fold(s', es)
  {
    assert es == es[..i + 1] + es[i + 1..];
    assert es[..i + 1][..i] == es[..i];
    FoldSplits(s, es[..i + 1], es[i + 1..]);
    FoldSplits(s', es[..i + 1], es[i + 1..]);
  }

  ghost predicate HasSwap(h: seq<Row>) { exists i :: 0 <= i < |h| && h[i].event.Swap? }

  /** What is replayed is a suffix of the history up to the height. */
  lemma ReplayIsSuffix(h: seq<Row>, height: int) returns (k: nat)
    requires WellFormed(h)
    ensures k <= |UpTo(h, height)| && Replayed(h, height) == UpTo(h, height)[k..]
    ensures forall i | k <= i < |UpTo(h, height)| :: AnchorBlock(UpTo(h, height)) <= UpTo(h, height)[i].block
    ensures forall i | 0 <= i < k :: UpTo(h, height)[i].block < AnchorBlock(UpTo(h, height))
  {
    var up := UpTo(h, height);
    UpToIsPrefix(h, height);
    AnchorIsNewest(up);
    FromIsSuffix(up, AnchorBlock(up));
    k := if up == [] then 0 else |up| - |From(up, AnchorBlock(up))|;
    if up != [] {
      assert IsAnchor(up[0].event);
    }
  }

  lemma SwapIsReplayed(h: seq<Row>, height: int)
    requires WellFormed(h) && AnchorHasSwap(h, height)
    ensures HasSwap(Replayed(h, height))
  {
    var k := ReplayIsSuffix(h, height);
    var up := UpTo(h, height);
    var r :| r in up && r.event.Swap? && r.block == AnchorBlock(up);
    var i :| 0 <= i < |up| && up[i] == r;
    assert Replayed(h, height)[i - k] == r;
  }

  /** When the anchor block holds no swap, the anchor is the initialisation itself and the
      replay is the whole history. */
  lemma NoSwapReplaysAll(h: seq<Row>, height: int)
    requires WellFormed(h) && !AnchorHasSwap(h, height)
    ensures Replayed(h, height) == UpTo(h, height) && !HasSwap(UpTo(h, height))
  {
    var k := ReplayIsSuffix(h, height);
    var up := UpTo(h, height);
    UpToIsPrefix(h, height);
    AnchorIsNewest(up);
    if up != [] {
      assert IsAnchor(up[0].event);
      var i :| 0 <= i < |up| && IsAnchor(up[i].event) && up[i].block == AnchorBlock(up);
      assert up[i] in up;
      assert i == 0;
      forall j | 0 <= j < |up| ensures !up[j].event.Swap? {
        assert up[j] in up && up[0].block <= up[j].block;
      }
    }
  }

  lemma EventsOfSuffix(h: seq<Row>, k: nat)
    requires k <= |h|
    ensures Events(h) == Events(h[..k]) + Events(h[k..])
  {
  }

  /** Re-seeding a fresh tracker gives, at every height, the fold of the whole history. */
  lemma FreshReseedIsExact(h: seq<Row>, height: int)
    requires WellFormed(h)
    ensures Fold(EMPTY, Events(Replayed(h, height))) == Fold(EMPTY, Events(UpTo(h, height)))
  {
    if AnchorHasSwap(h, height) {
      SwapReseedIsExact(h, height, EMPTY);
    } else {
      NoSwapReplaysAll(h, height);
    }
  }

  /** With a swap in the anchor block it does so whatever the tracker held. */
  lemma SwapReseedIsExact(h: seq<Row>, height: int, s: PoolState)
    requires WellFormed(h) && AnchorHasSwap(h, height)
    ensures Fold(s, Events(Replayed(h, height))) == Fold(EMPTY, Events(UpTo(h, height)))
  {
    var up, replayed := UpTo(h, height), Replayed(h, height);
    var k := ReplayIsSuffix(h, height);
    SwapIsReplayed(h, height);
    var i :| 0 <= i < |replayed| && replayed[i].event.Swap?;
    SuffixWithSwap(EMPTY, s, Events(up[..k]), Events(replayed), i);
    EventsOfSuffix(up, k);
  }

  lemma SuffixWithSwap(s: PoolState, s': PoolState, front: seq<LogEvent>, es: seq<LogEvent>, i: nat)
    requires i < |es| && es[i].Swap?
    ensures Fold(s', es) == Fold(s, front + es)
  {
    FoldSplits(s, front, es);
    SwapErases(s', Fold(s, front), es, i);
  }

  /** Without swaps, liquidity left over from before stays added to the result. */
  lemma {:induction false} LeftoverStays(s: PoolState, es: seq<LogEvent>)
    requires 0 <= s.liquidity && es != [] && es[0].Initialize? && BurnsCovered(EMPTY, es)
    requires forall i | 0 <= i < |es| :: !es[i].Swap? && (es[i].Initialize? <==> i == 0)
    ensures var clean, dirty := Fold(EMPTY, es), Fold(s, es);
            dirty == clean.(liquidity := clean.liquidity + s.liquidity) && 0 <= clean.liquidity
  {
    var n := |es| - 1;
    var front := es[..n];
    if n > 0 {
      forall i | 0 <= i < |front| && front[i].Burn?
        ensures var at := Fold(EMPTY, front[..i]);
                TickInRange(at.tick, front[i].tickLower, front[i].tickUpper) ==> front[i].amount <= at.liquidity
      {
        assert front[..i] == es[..i] && es[i].Burn?;
      }
      LeftoverStays(s, front);
      assert es[..n] == front;
      if es[n].Burn? {
        assert TickInRange(Fold(EMPTY, es[..n]).tick, es[n].tickLower, es[n].tickUpper) ==> es[n].amount <= Fold(EMPTY, es[..n]).liquidity;
      }
    } else {
      assert front == [];
    }
  }

  /** Exactly when re-seeding an already advanced tracker is right. With rows at or below the
      height: the anchor block holds a swap, or the tracker held no liquidity, for an
      initialisation alone resets price and tick only. Without any: the tracker held nothing, for
      nothing is replayed. */
  lemma AdvancedReseedIsExactIff(h: seq<Row>, height: int, s: PoolState)
    requires WellFormed(h) && BurnsCovered(EMPTY, Events(UpTo(h, height))) && 0 <= s.liquidity
    ensures (Fold(s, Events(Replayed(h, height))) == Fold(EMPTY, Events(UpTo(h, height))))
            <==> (if UpTo(h, height) == [] then s == EMPTY else AnchorHasSwap(h, height) || s.liquidity == 0)
  {
    if AnchorHasSwap(h, height) {
      SwapReseedIsExact(h, height, s);
    } else {
      NoSwapReplaysAll(h, height);
      if UpTo(h, height) != [] {
        UpToIsPrefix(h, height);
        LeftoverStays(s, Events(UpTo(h, height)));
      }
    }
  }

  /** The replay that follows such a re-seed adds up: going back behind a pool's initialisation
      and folding its blocks again doubles its liquidity, until a swap sets it right. */
  lemma ReplayDoublesLiquidity(h: seq<Row>, height: int)
    requires WellFormed(h) && h != [] && BurnsCovered(EMPTY, Events(h)) && !HasSwap(h) && UpTo(h, height) == []
    ensures var s := Fold(EMPTY, Events(h));
            Fold(Fold(s, Events(Replayed(h, height))), Events(h)) == s.(liquidity := 2 * s.liquidity)
  {
    NoSwapReplaysAll(h, height);
    LeftoverIsNat(EMPTY, Events(h));
    LeftoverStays(Fold(EMPTY, Events(h)), Events(h));
  }

  lemma LeftoverIsNat(s: PoolState, es: seq<LogEvent>)
    requires 0 <= s.liquidity && es != [] && es[0].Initialize? && BurnsCovered(EMPTY, es)
    requires forall i | 0 <= i < |es| :: !es[i].Swap? && (es[i].Initialize? <==> i == 0)
    ensures 0 <= Fold(EMPTY, es).liquidity
  {
    LeftoverStays(s, es);
  }

  /** One such pool: its first position is counted twice. */
  lemma FirstMintCountsTwice(pool: Address, block: nat, price: int, tick: int, amount: nat)
    requires amount > 0
    ensures var h := [Row(block, Initialize(pool, price, tick)), Row(block, Mint(pool, tick, tick + 1, amount))];
            var s := Fold(EMPTY, Events(h));
            && s == PoolState(price, tick, amount)
            && Fold(Fold(s, Events(Replayed(h, block - 1))), Events(h)) == PoolState(price, tick, 2 * amount)
  {
    var h := [Row(block, Initialize(pool, price, tick)), Row(block, Mint(pool, tick, tick + 1, amount))];
    var es := Events(h);
    UpToIsPrefix(h, block - 1);
    assert es[..1] == [h[0].event] && es[..1][..0] == [];
    assert Fold(EMPTY, es[..1]) == PoolState(price, tick, 0);
    ReplayDoublesLiquidity(h, block - 1);
  }

  // ---------------------------------------------------------------- a pool's own history

  lemma {:induction false} PrefixIsRun(run: seq<Action>, k: nat, address: Address)
    requires IsRun(run) && k <= |run|
    ensures IsRun(run[..k]) && LogsOf(run[..k], address) == LogsOf(run, address)[..k]
  {
    if k == |run| {
      assert run[..k] == run;
    } else {
      var front := run[..|run| - 1];
      PrefixIsRun(front, k, address);
      assert front[..k] == run[..k];
    }
  }

  /** The logs of a run open with its only Initialize. */
  lemma {:induction false} RunLogsOpenOnce(run: seq<Action>, address: Address)
    requires IsRun(run)
    ensures forall i | 0 <= i < |run| ::
              !LogsOf(run, address)[i].PoolCreated? && (LogsOf(run, address)[i].Initialize? <==> i == 0)
  {
    if run != [] {
      var front := run[..|run| - 1];
      RunLogsOpenOnce(front, address);
      assert front != [] ==> After(front).initialized;
    }
  }

  /** A tracker restarted at any height holds the price, tick and in-range liquidity the pool
      had there. */
  lemma ReseedFollowsPool(run: seq<Action>, h: seq<Row>, height: int, address: Address)
    requires IsRun(run) && Events(h) == LogsOf(run, address)
    requires forall i, j | 0 <= i < j < |h| :: h[i].block <= h[j].block
    ensures var k := |UpTo(h, height)|;
            && k <= |run| && IsRun(run[..k])
            && Fold(EMPTY, Events(Replayed(h, height))) == StateOf(After(run[..k]))
  {
    UpToIsPrefix(h, height);
    RunRowsAreWellFormed(run, h, address);
    FreshReseedIsExact(h, height);
    var k := |UpTo(h, height)|;
    PrefixIsRun(run, k, address);
    EventsOfPrefix(h, UpTo(h, height));
    TrackerFollowsPool(run[..k], address);
  }

  lemma EventsOfPrefix(h: seq<Row>, front: seq<Row>)
    requires front <= h
    ensures Events(front) == Events(h)[..|front|]
  {
  }

  lemma RunRowsAreWellFormed(run: seq<Action>, h: seq<Row>, address: Address)
    requires IsRun(run) && Events(h) == LogsOf(run, address)
    requires forall i, j | 0 <= i < j < |h| :: h[i].block <= h[j].block
    ensures WellFormed(h)
  {
    RunLogsOpenOnce(run, address);
    forall i | 0 <= i < |h| ensures !h[i].event.PoolCreated? && (h[i].event.Initialize? <==> i == 0) {
      assert h[i].event == LogsOf(run, address)[i];
    }
  }
}
