/** The pool composition cache and the chain, block after block. */
module CompositionRuns {
  import opened Wrappers
  import opened KeyedLists
  import opened CompositionCache
  import opened KeyOrder

  /** The chain's own composition. */
  datatype Chain = Chain(omnipool: map<int, ()>, xyk: map<string, (int, int)>, stable: map<int, Pool>)

  /** What each event reports of it. */
  function ChainAfterEvent(c: Chain, e: Event): Chain {
    match e
    case TokenAdded(asset) => c.(omnipool := c.omnipool[asset := ()])
    case TokenRemoved(asset) => c.(omnipool := c.omnipool - {asset})
    case XykCreated(pool, assetA, assetB) => c.(xyk := c.xyk[pool := (assetA, assetB)])
    case XykDestroyed(pool, _, _) => c.(xyk := c.xyk - {pool})
    case StableCreated(poolId, assets, _, fee) => c.(stable := c.stable[poolId := Pool(assets, fee)])
    case FeeUpdated(poolId, fee) => if poolId in c.stable then c.(stable := c.stable[poolId := Pool(c.stable[poolId].assets, fee)]) else c
    case AmplificationChanging(_, _, _, _, _) => c
    case Other => c
  }

  function ChainAfterEvents(c: Chain, events: seq<Event>): Chain {
    if events == [] then c else ChainAfterEvent(ChainAfterEvents(c, events[..|events| - 1]), events[|events| - 1])
  }

  function ChainAfterOps(c: Chain, events: seq<Event>): Chain {
    Chain(MapAfter(c.omnipool, Ops(events, OmnipoolOp)), MapAfter(c.xyk, Ops(events, XykOp)), MapAfter(c.stable, Ops(events, StableOp)))
  }

  function Moved<K(==), V, E>(m: map<K, V>, op: Option<Op<K, V, E>>): map<K, V> {
    if op.Some? then MapStep(m, op.value) else m
  }

  lemma MapGrows<K, V, E>(m: map<K, V>, events: seq<Event>, opOf: Event -> Option<Op<K, V, E>>)
    requires events != []
    ensures MapAfter(m, Ops(events, opOf)) == Moved(MapAfter(m, Ops(events[..|events| - 1], opOf)), opOf(events[|events| - 1]))
  {
  }

  lemma EventMoves(c: Chain, e: Event)
    ensures ChainAfterEvent(c, e) == Chain(Moved(c.omnipool, OmnipoolOp(e)), Moved(c.xyk, XykOp(e)), Moved(c.stable, StableOp(e)))
  {
  }

  /** The chain's moves are the operations the cache applies. */
  lemma {:induction false} ChainMovesByOps(c: Chain, events: seq<Event>)
    ensures ChainAfterEvents(c, events) == ChainAfterOps(c, events)
  {
    if events != [] {
      ChainMovesByOps(c, events[..|events| - 1]);
      EventMoves(ChainAfterOps(c, events[..|events| - 1]), events[|events| - 1]);
      MapGrows(c.omnipool, events, OmnipoolOp);
      MapGrows(c.xyk, events, XykOp);
      MapGrows(c.stable, events, StableOp);
    }
  }

  // ---------------------------------------------------------------- amplification ramps

  /** A pool's ramp through a block's events: flat when it is created, then as it is last changed. */
  function RampAfter(ramp: Option<Ramp>, events: seq<Event>, poolId: int): Option<Ramp> {
    if events == [] then ramp
    else
      var before := RampAfter(ramp, events[..|events| - 1], poolId);
      match events[|events| - 1]
      case StableCreated(p, _, amplification, _) => if p == poolId then Some(Ramp(amplification, amplification, 0, 0)) else before
      case AmplificationChanging(p, current, final, first, last) =>
        if p == poolId && before.Some? then Some(Ramp(current, final, first, last)) else before
      case _ => before
  }

  function RampIn(list: StableList, poolId: int): Option<Ramp> {
    var i := Position(list, poolId);
    if i < |list| then Some(list[i].extra) else None
  }

  lemma {:induction false} PairRamp(x: Option<(Pool, Ramp)>, events: seq<Event>, poolId: int)
    ensures var pair := PairAfter(x, Ops(events, StableOp), poolId);
            RampAfter(if x.Some? then Some(x.value.1) else None, events, poolId) == if pair.Some? then Some(pair.value.1) else None
  {
    if events != [] {
      PairRamp(x, events[..|events| - 1], poolId);
    }
  }

  /** Every cached ramp follows the events of its own pool. */
  lemma RampsFollowEvents(c: Cache, events: seq<Event>, poolId: int)
    requires c.stable.Some? && DistinctKeys(c.stable.value)
    ensures AfterEvents(c, events).stable.Some?
    ensures RampIn(AfterEvents(c, events).stable.value, poolId) == RampAfter(RampIn(c.stable.value, poolId), events, poolId)
  {
    PairAfterAt(c.stable.value, Ops(events, StableOp), poolId);
    PairRamp(PairAt(c.stable.value, poolId), events, poolId);
  }


  ghost predicate ListAgrees<K(!new), V, E>(list: Option<seq<Entry<K, V, E>>>, m: map<K, V>) { list.Some? ==> Agrees(list.value, m) }

  /** Every list that is cached is the chain's, each key once. */
  ghost predicate CacheAgrees(c: Cache, chain: Chain) {
    ListAgrees(c.omnipool, chain.omnipool) && ListAgrees(c.xyk, chain.xyk) && ListAgrees(c.stable, chain.stable)
  }

  /** One block: its events, whether it upgrades the runtime or rewrites storage, what the chain
      looks like after it, and the storages read for it. */
  datatype Block = Block(
    upgraded: bool,
    events: seq<Event>,
    setStorage: bool,
    after: Chain,
    omnipoolRead: Option<seq<Listed<int, (), ()>>>,
    xykRead: Option<seq<Listed<string, (int, int), ()>>>,
    stableRead: Option<seq<Listed<int, Pool, Ramp>>>)

  /** A read of storage lists every key the chain holds once, with its value, and any other key it
      lists holds nothing. */
  ghost predicate Lists<K(!new), V, E>(read: Option<seq<Listed<K, V, E>>>, m: map<K, V>) {
    read.Some? ==>
      && OneEach(read.value)
      && (forall i | 0 <= i < |read.value| ::
            if read.value[i].held.Some? then read.value[i].key in m && m[read.value[i].key] == read.value[i].held.value.0
            else read.value[i].key !in m)
      && (forall k | k in m :: exists i :: 0 <= i < |read.value| && read.value[i].key == k)
  }

  ghost predicate OneEach<K, V, E>(pairs: seq<Listed<K, V, E>>) {
    forall i, j | 0 <= i < j < |pairs| :: pairs[i].key != pairs[j].key
  }

  function EntryOf<K, V, E>(pair: Listed<K, V, E>): Entry<K, V, E>
    requires pair.held.Some?
  {
    Entry(pair.key, pair.held.value.0, pair.held.value.1)
  }

  lemma {:induction false} BootstrappedHolds<K, V, E>(pairs: seq<Listed<K, V, E>>)
    requires OneEach(pairs)
    ensures DistinctKeys(Bootstrapped(pairs))
    ensures forall x | x in Bootstrapped(pairs) :: exists i :: 0 <= i < |pairs| && pairs[i].held.Some? && EntryOf(pairs[i]) == x
    ensures forall i | 0 <= i < |pairs| && pairs[i].held.Some? :: EntryOf(pairs[i]) in Bootstrapped(pairs)
  {
    if pairs != [] {
      var front, last := pairs[..|pairs| - 1], pairs[|pairs| - 1];
      BootstrappedHolds(front);
      forall x | x in Bootstrapped(front)
        ensures x.key != last.key && exists i :: 0 <= i < |pairs| && pairs[i].held.Some? && EntryOf(pairs[i]) == x
      {
        var i :| 0 <= i < |front| && front[i].held.Some? && EntryOf(front[i]) == x;
        assert pairs[i] == front[i];
      }
      forall i | 0 <= i < |pairs| && pairs[i].held.Some? ensures EntryOf(pairs[i]) in Bootstrapped(pairs) {
        if i < |front| { assert front[i] == pairs[i]; }
      }
    }
  }

  /** Storage is listed in its own order: each pair with a value gives one entry, in place. */
  lemma {:induction false} BootstrapKeepsOrder<K, V, E>(before: seq<Listed<K, V, E>>, pair: Listed<K, V, E>, after: seq<Listed<K, V, E>>)
    ensures Bootstrapped(before + [pair] + after)
         == Bootstrapped(before) + (if pair.held == None then [] else [Entry(pair.key, pair.held.value.0, pair.held.value.1)]) + Bootstrapped(after)
  {
    var all := before + [pair] + after;
    if after == [] {
      assert all[..|all| - 1] == before;
    } else {
      BootstrapKeepsOrder(before, pair, after[..|after| - 1]);
      assert all[..|all| - 1] == before + [pair] + after[..|after| - 1];
    }
  }

  /** A list read from storage is what the chain holds. */
  lemma BootstrapAgrees<K(!new), V, E>(read: Option<seq<Listed<K, V, E>>>, m: map<K, V>)
    requires Lists(read, m)
    ensures read.Some? ==> Agrees(Bootstrapped(read.value), m)
  {
    if read.Some? {
      var pairs := read.value;
      var list := Bootstrapped(pairs);
      BootstrappedHolds(pairs);
      forall k ensures HoldsAt(list, m, k) {
        var p := Position(list, k);
        if p < |list| {
          assert list[p] in list;
          var i :| 0 <= i < |pairs| && pairs[i].held.Some? && EntryOf(pairs[i]) == list[p];
        }
        if k in m {
          var i :| 0 <= i < |pairs| && pairs[i].key == k;
          var j :| 0 <= j < |list| && list[j] == EntryOf(pairs[i]);
        }
      }
    }
  }

  /** The chain moves by its events alone, except in a block that invalidates; a read lists what
      the chain holds after the block. */
  ghost predicate Legit(before: Chain, b: Block) {
    && (b.after == ChainAfterEvents(before, b.events) || b.upgraded || b.setStorage)
    && Lists(b.omnipoolRead, b.after.omnipool) && Lists(b.xykRead, b.after.xyk) && Lists(b.stableRead, b.after.stable)
  }

  /** The order of calls in the block loop, src/indexer.ts:624-642 and 773-775. */
  function AfterBlock(c: Cache, b: Block): Cache {
    var folded := AfterEvents(if b.upgraded then EMPTY else c, b.events);
    var kept := if b.setStorage then EMPTY else folded;
    Cache(Filled(kept.omnipool, b.omnipoolRead), Filled(kept.xyk, b.xykRead), Filled(kept.stable, b.stableRead))
  }

  method RunBlock(cache: PoolCompositionCache, b: Block)
    requires cache.Valid()
    modifies cache
    ensures cache.Valid() && cache.State() == AfterBlock(old(cache.State()), b)
  {
    if b.upgraded {
      cache.InvalidateAll();
    }
    var _ := cache.ProcessEvents(b.events);
    if b.setStorage {
      cache.InvalidateAll();
    }
    var _ := cache.GetOmnipoolAssets(b.omnipoolRead.Some?, if b.omnipoolRead.Some? then b.omnipoolRead.value else []);
    var _ := cache.GetXykPools(b.xykRead.Some?, if b.xykRead.Some? then b.xykRead.value else []);
    var _ := cache.GetStableswapPools(b.stableRead.Some?, if b.stableRead.Some? then b.stableRead.value else []);
  }

  function AfterBlocks(blocks: seq<Block>): Cache {
    if blocks == [] then EMPTY else AfterBlock(AfterBlocks(blocks[..|blocks| - 1]), blocks[|blocks| - 1])
  }

  function ChainAt(genesis: Chain, blocks: seq<Block>): Chain { if blocks == [] then genesis else blocks[|blocks| - 1].after }

  ghost predicate IsRun(genesis: Chain, blocks: seq<Block>) {
    blocks == [] || (IsRun(genesis, blocks[..|blocks| - 1]) && Legit(ChainAt(genesis, blocks[..|blocks| - 1]), blocks[|blocks| - 1]))
  }

  lemma FoldAgrees<K(!new), V, E>(list: Option<seq<Entry<K, V, E>>>, m: map<K, V>, ops: seq<Op<K, V, E>>)
    requires ListAgrees(list, m)
    ensures ListAgrees(Folded(list, ops), MapAfter(m, ops))
  {
    if list.Some? { AfterAgrees(list.value, m, ops); }
  }

  /** A block's events move the cache as they move the chain. */
  lemma EventsAgree(c: Cache, chain: Chain, events: seq<Event>)
    requires CacheAgrees(c, chain)
    ensures CacheAgrees(AfterEvents(c, events), ChainAfterEvents(chain, events))
  {
    FoldAgrees(c.omnipool, chain.omnipool, Ops(events, OmnipoolOp));
    FoldAgrees(c.xyk, chain.xyk, Ops(events, XykOp));
    FoldAgrees(c.stable, chain.stable, Ops(events, StableOp));
    ChainMovesByOps(chain, events);
  }

  lemma BlockAgrees(c: Cache, before: Chain, b: Block)
    requires CacheAgrees(c, before) && Legit(before, b)
    ensures CacheAgrees(AfterBlock(c, b), b.after)
  {
    if !b.upgraded && !b.setStorage { EventsAgree(c, before, b.events); }
    BootstrapAgrees(b.omnipoolRead, b.after.omnipool);
    BootstrapAgrees(b.xykRead, b.after.xyk);
    BootstrapAgrees(b.stableRead, b.after.stable);
  }

  /** After every block of every run, each cached list is exactly the chain's composition. */
  lemma {:induction false} RunAgrees(genesis: Chain, blocks: seq<Block>)
    requires IsRun(genesis, blocks)
    ensures CacheAgrees(AfterBlocks(blocks), ChainAt(genesis, blocks))
  {
    if blocks != [] {
      RunAgrees(genesis, blocks[..|blocks| - 1]);
      BlockAgrees(AfterBlocks(blocks[..|blocks| - 1]), ChainAt(genesis, blocks[..|blocks| - 1]), blocks[|blocks| - 1]);
    }
  }

  // ---------------------------------------------------------------- folding again

  lemma {:induction false} NoPatches<K, V, E>(events: seq<Event>, opOf: Event -> Option<Op<K, V, E>>)
    requires forall e :: opOf(e).Some? ==> !opOf(e).value.Patch?
    ensures forall i | 0 <= i < |Ops(events, opOf)| :: !Ops(events, opOf)[i].Patch?
  {
    if events != [] { NoPatches(events[..|events| - 1], opOf); }
  }

  ghost predicate SetsFee(op: Op<int, Pool, Ramp>) { op.Patch? ==> exists fee :: op.patch == SetFee(fee) }

  lemma {:induction false} PatchesSetFees(events: seq<Event>)
    ensures forall i | 0 <= i < |Ops(events, StableOp)| :: SetsFee(Ops(events, StableOp)[i])
  {
    if events != [] {
      PatchesSetFees(events[..|events| - 1]);
      var op := StableOp(events[|events| - 1]);
      if op.Some? && op.value.Patch? { assert op.value.patch == SetFee(events[|events| - 1].fee); }
    }
  }

  lemma FeesOverwrite(ops: seq<Op<int, Pool, Ramp>>)
    requires forall i | 0 <= i < |ops| :: SetsFee(ops[i])
    ensures LastPatchWins(ops)
  {
    forall i, j, v: Pool | 0 <= i < |ops| && 0 <= j < |ops| && ops[i].Patch? && ops[j].Patch?
      ensures ops[i].patch(ops[j].patch(v)) == ops[i].patch(v)
    {
      assert SetsFee(ops[i]) && SetsFee(ops[j]);
    }
  }

  lemma PatchesOverwrite(events: seq<Event>)
    ensures LastPatchWins(Ops(events, OmnipoolOp)) && LastPatchWins(Ops(events, XykOp)) && LastPatchWins(Ops(events, StableOp))
  {
    NoPatches(events, OmnipoolOp);
    NoPatches(events, XykOp);
    PatchesSetFees(events);
    FeesOverwrite(Ops(events, StableOp));
  }

  /** The chain after a block does not notice the block's events again. */
  lemma ChainSettles(chain: Chain, events: seq<Event>)
    ensures ChainAfterEvents(ChainAfterEvents(chain, events), events) == ChainAfterEvents(chain, events)
  {
    PatchesOverwrite(events);
    AgainSettles(chain.omnipool, Ops(events, OmnipoolOp));
    AgainSettles(chain.xyk, Ops(events, XykOp));
    AgainSettles(chain.stable, Ops(events, StableOp));
    ChainMovesByOps(chain, events);
    ChainMovesByOps(ChainAfterEvents(chain, events), events);
  }

  /** Folding events a cache already reflects, such as those of the block it was read at, leaves
      it in agreement: each list may change its order, never what it holds. */
  lemma RefoldAgrees(c: Cache, chain: Chain, events: seq<Event>)
    requires CacheAgrees(c, ChainAfterEvents(chain, events))
    ensures CacheAgrees(AfterEvents(c, events), ChainAfterEvents(chain, events))
  {
    ChainSettles(chain, events);
    EventsAgree(c, ChainAfterEvents(chain, events), events);
  }

  ghost predicate KeysOnce<K, V, E>(list: Option<seq<Entry<K, V, E>>>) { list.Some? ==> DistinctKeys(list.value) }

  /** In a list that the operations led to, every key they drop and put again stands behind every
      key they never drop. */
  ghost predicate RebornBehind<K, V, E>(list: Option<seq<Entry<K, V, E>>>, ops: seq<Op<K, V, E>>) {
    list.Some? ==> Behind(Keys(list.value), Drops(ops))
  }

  lemma ListRefoldsIff<K, V(!new), E>(list: Option<seq<Entry<K, V, E>>>, ops: seq<Op<K, V, E>>)
    requires KeysOnce(list) && LastPatchWins(ops)
    ensures Folded(Folded(list, ops), ops) == Folded(list, ops) <==> RebornBehind(Folded(list, ops), ops)
  {
    if list.Some? { AgainIsSameIff(list.value, ops); }
  }

  /** Folding a block's events a second time leaves the cache exactly as it was, order included,
      if and only if in each list every key that the events remove and add again stands behind
      every key that they never remove. */
  lemma RefoldIsSameIff(c: Cache, events: seq<Event>)
    requires KeysOnce(c.omnipool) && KeysOnce(c.xyk) && KeysOnce(c.stable)
    ensures var once := AfterEvents(c, events);
            AfterEvents(once, events) == once
            <==> RebornBehind(once.omnipool, Ops(events, OmnipoolOp)) && RebornBehind(once.xyk, Ops(events, XykOp))
                 && RebornBehind(once.stable, Ops(events, StableOp))
  {
    PatchesOverwrite(events);
    ListRefoldsIff(c.omnipool, Ops(events, OmnipoolOp));
    ListRefoldsIff(c.xyk, Ops(events, XykOp));
    ListRefoldsIff(c.stable, Ops(events, StableOp));
  }

  const ONE: Entry<int, (), ()> := Entry(1, (), ())
  const TWO: Entry<int, (), ()> := Entry(2, (), ())
  const MOVES: seq<Op<int, (), ()>> := [Drop(2), Put(2, (), ()), Put(1, (), ())]
  const EVENTS: seq<Event> := [TokenRemoved(2), TokenAdded(2), TokenAdded(1)]

  lemma MovesOfEvents()
    ensures Ops(EVENTS, OmnipoolOp) == MOVES
  {
    assert EVENTS[..2] == [TokenRemoved(2), TokenAdded(2)] && EVENTS[..2][..1] == [TokenRemoved(2)] && EVENTS[..2][..1][..0] == [];
    assert Ops([TokenRemoved(2)], OmnipoolOp) == [Drop(2)];
    assert Ops(EVENTS[..2], OmnipoolOp) == [Drop(2), Put(2, (), ())];
  }

  lemma FirstFold()
    ensures ListAfter([TWO], MOVES) == [TWO, ONE]
  {
    FewEntries(TWO, ONE, 2);
    FewEntries(TWO, ONE, 1);
    ThreeSteps([TWO], MOVES[0], MOVES[1], MOVES[2]);
  }

  lemma SecondFold()
    ensures ListAfter([TWO, ONE], MOVES) == [ONE, TWO]
  {
    FewEntries(TWO, ONE, 2);
    FewEntries(ONE, TWO, 1);
    FewEntries(ONE, TWO, 2);
    ThreeSteps([TWO, ONE], MOVES[0], MOVES[1], MOVES[2]);
    assert [ONE, TWO][0 := ONE] == [ONE, TWO];
  }

  /** The order may indeed change: a cache that lists asset 2 and folds the events `removed 2,
      added 2, added 1` lists 2 before 1, and 1 before 2 once it folds them again. */
  lemma RefoldReorders(c: Cache)
    requires c.omnipool == Some([TWO])
    ensures AfterEvents(c, EVENTS).omnipool == Some([TWO, ONE])
    ensures AfterEvents(AfterEvents(c, EVENTS), EVENTS).omnipool == Some([ONE, TWO])
    ensures AfterEvents(AfterEvents(c, EVENTS), EVENTS) != AfterEvents(c, EVENTS)
  {
    MovesOfEvents();
    FirstFold();
    SecondFold();
    assert [ONE, TWO][0] != [TWO, ONE][0];
  }

  lemma FewEntries<V, E>(x: Entry<int, V, E>, y: Entry<int, V, E>, k: int)
    requires x.key != y.key
    ensures Position([x], k) == if x.key == k then 0 else 1
    ensures Position([x, y], k) == if x.key == k then 0 else if y.key == k then 1 else 2
    ensures Without([x], k) == if x.key == k then [] else [x]
    ensures x.key == k ==> Without([x, y], k) == [y]
  {
    assert [x][..0] == [] && [x, y][..1] == [x];
  }

  lemma ThreeSteps<K, V, E>(list: seq<Entry<K, V, E>>, x: Op<K, V, E>, y: Op<K, V, E>, z: Op<K, V, E>)
    ensures ListAfter(list, [x, y, z]) == ListStep(ListStep(ListStep(list, x), y), z)
  {
    assert [x, y, z][..2] == [x, y] && [x, y][..1] == [x] && [x][..0] == [];
    assert ListAfter(list, [x]) == ListStep(list, x);
    assert ListAfter(list, [x, y]) == ListStep(ListAfter(list, [x]), y);
  }
}
