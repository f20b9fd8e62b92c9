/** The pool composition cache, src/pool/compositionCache.ts: three lists kept up to date by a
    block's events, forgotten when storage may have changed silently, and read from storage again
    on demand. */
module CompositionCache {
  import opened Wrappers
  import opened KeyedLists

  /** What a stableswap pool is; its amplification ramp is carried beside it. */
  datatype Pool = Pool(assets: seq<int>, fee: int)
  datatype Ramp = Ramp(initial: int, final: int, firstBlock: int, lastBlock: int)

  type OmnipoolList = seq<Entry<int, (), ()>>
  type XykList = seq<Entry<string, (int, int), ()>>
  type StableList = seq<Entry<int, Pool, Ramp>>

  datatype Event =
    | TokenAdded(assetId: int)
    | TokenRemoved(assetId: int)
    | XykCreated(pool: string, assetA: int, assetB: int)
    | XykDestroyed(pool: string, assetA: int, assetB: int)
    | StableCreated(poolId: int, assets: seq<int>, amplification: int, fee: int)
    | AmplificationChanging(poolId: int, current: int, final: int, firstBlock: int, lastBlock: int)
    | FeeUpdated(poolId: int, fee: int)
    | Other

  datatype Changes = Changes(omnipool: bool, xyk: bool, stableswap: bool)

  // ---------------------------------------------------------------- what an event does

  function SetFee(fee: int): Pool -> Pool { (pool: Pool) => pool.(fee := fee) }

  function OmnipoolOp(e: Event): Option<Op<int, (), ()>> {
    match e
    case TokenAdded(a) => Some(Put(a, (), ()))
    case TokenRemoved(a) => Some(Drop(a))
    case _ => None
  }

  function XykOp(e: Event): Option<Op<string, (int, int), ()>> {
    match e
    case XykCreated(p, a, b) => Some(Put(p, (a, b), ()))
    case XykDestroyed(p, _, _) => Some(Drop(p))
    case _ => None
  }

  function StableOp(e: Event): Option<Op<int, Pool, Ramp>> {
    match e
    case StableCreated(p, assets, amp, fee) => Some(Put(p, Pool(assets, fee), Ramp(amp, amp, 0, 0)))
    case AmplificationChanging(p, current, final, first, last) => Some(Retune(p, Ramp(current, final, first, last)))
    case FeeUpdated(p, fee) => Some(Patch(p, SetFee(fee)))
    case _ => None
  }

  function Ops<K, V, E>(events: seq<Event>, opOf: Event -> Option<Op<K, V, E>>): seq<Op<K, V, E>> {
    if events == [] then []
    else
      var front, op := Ops(events[..|events| - 1], opOf), opOf(events[|events| - 1]);
      if op.Some? then front + [op.value] else front
  }

  /** A list that is not cached stays uncached. */
  function Folded<K(==), V, E>(list: Option<seq<Entry<K, V, E>>>, ops: seq<Op<K, V, E>>): Option<seq<Entry<K, V, E>>> {
    if list.Some? then Some(ListAfter(list.value, ops)) else None
  }

  function Stepped<K(==), V, E>(list: Option<seq<Entry<K, V, E>>>, op: Option<Op<K, V, E>>): Option<seq<Entry<K, V, E>>> {
    if list.Some? && op.Some? then Some(ListStep(list.value, op.value)) else list
  }

  lemma FoldedGrows<K, V, E>(list: Option<seq<Entry<K, V, E>>>, events: seq<Event>, i: nat, opOf: Event -> Option<Op<K, V, E>>)
    requires i < |events|
    ensures Folded(list, Ops(events[..i + 1], opOf))
         == Stepped(Folded(list, Ops(events[..i], opOf)), opOf(events[i]))
  {
    assert events[..i + 1][..i] == events[..i];
  }

  ghost predicate Touches<K(!new), V(!new), E(!new)>(events: seq<Event>, opOf: Event -> Option<Op<K, V, E>>) {
    exists i :: 0 <= i < |events| && opOf(events[i]).Some?
  }

  lemma TouchesGrows<K(!new), V(!new), E(!new)>(events: seq<Event>, i: nat, opOf: Event -> Option<Op<K, V, E>>)
    requires i < |events|
    ensures Touches(events[..i + 1], opOf) <==> Touches(events[..i], opOf) || opOf(events[i]).Some?
  {
    if Touches(events[..i], opOf) {
      var j :| 0 <= j < i && opOf(events[..i][j]).Some?;
      assert events[..i + 1][j] == events[..i][j];
    }
    if opOf(events[i]).Some? { assert events[..i + 1][i] == events[i]; }
    if Touches(events[..i + 1], opOf) {
      var j :| 0 <= j < i + 1 && opOf(events[..i + 1][j]).Some?;
      assert j < i ==> events[..i][j] == events[..i + 1][j];
    }
  }

  // ---------------------------------------------------------------- reading storage

  /** `getPairs`: every key storage enumerates, with its value where it has one. */
  datatype Listed<K, V, E> = Listed(key: K, held: Option<(V, E)>)

  function Bootstrapped<K, V, E>(pairs: seq<Listed<K, V, E>>): seq<Entry<K, V, E>> {
    if pairs == [] then []
    else
      var front, last := Bootstrapped(pairs[..|pairs| - 1]), pairs[|pairs| - 1];
      if last.held.Some? then front + [Entry(last.key, last.held.value.0, last.held.value.1)] else front
  }

  /** What a getter answers: it throws once a storage it has read becomes unreadable. */
  datatype Answer<T> = Unsupported | Unavailable | Known(list: T)

  /** The cached lists. */
  datatype Cache = Cache(omnipool: Option<OmnipoolList>, xyk: Option<XykList>, stable: Option<StableList>)

  const EMPTY := Cache(None, None, None)

  function AfterEvents(c: Cache, events: seq<Event>): Cache {
    Cache(Folded(c.omnipool, Ops(events, OmnipoolOp)), Folded(c.xyk, Ops(events, XykOp)), Folded(c.stable, Ops(events, StableOp)))
  }

  function AfterEvent(c: Cache, e: Event): Cache {
    Cache(Stepped(c.omnipool, OmnipoolOp(e)), Stepped(c.xyk, XykOp(e)), Stepped(c.stable, StableOp(e)))
  }

  lemma AfterEventsGrows(c: Cache, events: seq<Event>, i: nat)
    requires i < |events|
    ensures AfterEvents(c, events[..i + 1]) == AfterEvent(AfterEvents(c, events[..i]), events[i])
  {
    FoldedGrows(c.omnipool, events, i, OmnipoolOp);
    FoldedGrows(c.xyk, events, i, XykOp);
    FoldedGrows(c.stable, events, i, StableOp);
  }

  ghost function ChangesOf(events: seq<Event>): Changes {
    Changes(Touches(events, OmnipoolOp), Touches(events, XykOp), Touches(events, StableOp))
  }

  function Merged(a: Changes, b: Changes): Changes {
    Changes(a.omnipool || b.omnipool, a.xyk || b.xyk, a.stableswap || b.stableswap)
  }

  lemma ChangesGrow(events: seq<Event>, i: nat)
    requires i < |events|
    ensures ChangesOf(events[..i + 1])
         == Merged(ChangesOf(events[..i]), Changes(OmnipoolOp(events[i]).Some?, XykOp(events[i]).Some?, StableOp(events[i]).Some?))
  {
    TouchesGrows(events, i, OmnipoolOp);
    TouchesGrows(events, i, XykOp);
    TouchesGrows(events, i, StableOp);
  }

  /** Putting an asset that is listed changes nothing. */
  lemma AlreadyThere(list: OmnipoolList, asset: int)
    requires Position(list, asset) < |list|
    ensures ListStep(list, Put(asset, (), ())) == list
  {
    var i := Position(list, asset);
    match list[i] case Entry(_, (), ()) => assert list[i := Entry(asset, (), ())] == list;
  }

  // ---------------------------------------------------------------- the class

  class PoolCompositionCache {
    var omnipoolAssets: Option<OmnipoolList>
    var xykPools: Option<XykList>
    var stableswapPools: Option<StableList>
    var omnipoolBootstrapped: bool
    var xykBootstrapped: bool
    var stableswapBootstrapped: bool
    var omnipoolSupported: bool
    var xykSupported: bool
    var stableswapSupported: bool

    ghost predicate Valid()
      reads this
    {
      && (omnipoolBootstrapped <==> omnipoolAssets.Some?)
      && (xykBootstrapped <==> xykPools.Some?)
      && (stableswapBootstrapped <==> stableswapPools.Some?)
    }

    ghost function State(): Cache
      reads this
    {
      Cache(omnipoolAssets, xykPools, stableswapPools)
    }

    constructor ()
      ensures Valid() && State() == EMPTY && !omnipoolSupported && !xykSupported && !stableswapSupported
    {
      omnipoolAssets, xykPools, stableswapPools := None, None, None;
      omnipoolBootstrapped, xykBootstrapped, stableswapBootstrapped := false, false, false;
      omnipoolSupported, xykSupported, stableswapSupported := false, false, false;
    }

    method ProcessOmnipool(e: Event)
      requires Valid() && OmnipoolOp(e).Some?
      modifies this`omnipoolAssets
      ensures Valid()
      ensures omnipoolAssets == if old(omnipoolAssets).None? then None else Some(ListStep(old(omnipoolAssets).value, OmnipoolOp(e).value))
    {
      if omnipoolAssets.None? {
        return;
      }
      var list := omnipoolAssets.value;
      if e.TokenAdded? {
        if Position(list, e.assetId) == |list| {
          omnipoolAssets := Some(list + [Entry(e.assetId, (), ())]);
        } else {
          AlreadyThere(list, e.assetId);
        }
      } else {
        omnipoolAssets := Some(Without(list, e.assetId));
      }
    }

    method ProcessXyk(e: Event)
      requires Valid() && XykOp(e).Some?
      modifies this`xykPools
      ensures Valid()
      ensures xykPools == if old(xykPools).None? then None else Some(ListStep(old(xykPools).value, XykOp(e).value))
    {
      if xykPools.None? {
        return;
      }
      var list := xykPools.value;
      if e.XykCreated? {
        var entry := Entry(e.pool, (e.assetA, e.assetB), ());
        var existingIndex := Position(list, e.pool);
        xykPools := Some(if existingIndex == |list| then list + [entry] else list[existingIndex := entry]);
      } else {
        xykPools := Some(Without(list, e.pool));
      }
    }

    method ProcessStableswap(e: Event)
      requires Valid() && StableOp(e).Some?
      modifies this`stableswapPools
      ensures Valid()
      ensures stableswapPools == if old(stableswapPools).None? then None else Some(ListStep(old(stableswapPools).value, StableOp(e).value))
    {
      if stableswapPools.None? {
        return;
      }
      var list := stableswapPools.value;
      var i := Position(list, e.poolId);
      match e
      case StableCreated(poolId, assets, amplification, fee) =>
        var entry := Entry(poolId, Pool(assets, fee), Ramp(amplification, amplification, 0, 0));
        stableswapPools := Some(if i == |list| then list + [entry] else list[i := entry]);
      case AmplificationChanging(_, current, final, first, last) =>
        if i < |list| {
          stableswapPools := Some(list[i := list[i].(extra := Ramp(current, final, first, last))]);
        }
      case FeeUpdated(_, fee) =>
        if i < |list| {
          stableswapPools := Some(list[i := list[i].(value := list[i].value.(fee := fee))]);
        }
    }

    /** The switch over one event. */
    method ProcessEvent(e: Event) returns (change: Changes)
      requires Valid()
      modifies this`omnipoolAssets, this`xykPools, this`stableswapPools
      ensures Valid() && change == Changes(OmnipoolOp(e).Some?, XykOp(e).Some?, StableOp(e).Some?)
      ensures State() == AfterEvent(old(State()), e)
    {
      change := Changes(false, false, false);
      if e.TokenAdded? || e.TokenRemoved? {
        ProcessOmnipool(e);
        change := change.(omnipool := true);
      } else if e.XykCreated? || e.XykDestroyed? {
        ProcessXyk(e);
        change := change.(xyk := true);
      } else if e.StableCreated? || e.AmplificationChanging? || e.FeeUpdated? {
        ProcessStableswap(e);
        change := change.(stableswap := true);
      }
    }

    method ProcessEvents(events: seq<Event>) returns (changes: Changes)
      requires Valid()
      modifies this`omnipoolAssets, this`xykPools, this`stableswapPools
      ensures Valid() && State() == AfterEvents(old(State()), events)
      ensures changes == Changes(Touches(events, OmnipoolOp), Touches(events, XykOp), Touches(events, StableOp))
      ensures changes.omnipool <==> exists i :: 0 <= i < |events| && (events[i].TokenAdded? || events[i].TokenRemoved?)
      ensures changes.xyk <==> exists i :: 0 <= i < |events| && (events[i].XykCreated? || events[i].XykDestroyed?)
      ensures changes.stableswap <==>
                exists i :: 0 <= i < |events| && (events[i].StableCreated? || events[i].AmplificationChanging? || events[i].FeeUpdated?)
    {
      changes := Changes(false, false, false);
      for i := 0 to |events|
        invariant Valid() && State() == AfterEvents(old(State()), events[..i])
        invariant changes == ChangesOf(events[..i])
      {
        AfterEventsGrows(old(State()), events, i);
        ChangesGrow(events, i);
        var change := ProcessEvent(events[i]);
        changes := Changes(changes.omnipool || change.omnipool, changes.xyk || change.xyk, changes.stableswap || change.stableswap);
      }
      assert events[..|events|] == events;
    }

    method InvalidateAll()
      modifies this
      ensures Valid() && State() == EMPTY
      ensures omnipoolSupported == old(omnipoolSupported) && xykSupported == old(xykSupported)
      ensures stableswapSupported == old(stableswapSupported)
    {
      omnipoolBootstrapped, omnipoolAssets := false, None;
      xykBootstrapped, xykPools := false, None;
      stableswapBootstrapped, stableswapPools := false, None;
    }

    method GetOmnipoolAssets(readable: bool, pairs: seq<Listed<int, (), ()>>) returns (answer: Answer<OmnipoolList>)
      requires Valid()
      modifies this`omnipoolAssets, this`omnipoolBootstrapped, this`omnipoolSupported
      ensures Valid() && omnipoolSupported == (old(omnipoolSupported) || readable)
      ensures omnipoolAssets == Filled(old(omnipoolAssets), if readable then Some(pairs) else None)
      ensures old(omnipoolAssets).Some? || !readable ==> omnipoolAssets == old(omnipoolAssets)
      ensures answer == if readable then Known(omnipoolAssets.value) else if old(omnipoolSupported) then Unsupported else Unavailable
    {
      if !readable {
        return if omnipoolSupported then Unsupported else Unavailable;
      }
      omnipoolSupported := true;
      if !omnipoolBootstrapped {
        omnipoolAssets := Some(Bootstrapped(pairs));
        omnipoolBootstrapped := true;
      }
      answer := Known(omnipoolAssets.value);
    }

    method GetXykPools(readable: bool, pairs: seq<Listed<string, (int, int), ()>>) returns (answer: Answer<XykList>)
      requires Valid()
      modifies this`xykPools, this`xykBootstrapped, this`xykSupported
      ensures Valid() && xykSupported == (old(xykSupported) || readable)
      ensures xykPools == Filled(old(xykPools), if readable then Some(pairs) else None)
      ensures old(xykPools).Some? || !readable ==> xykPools == old(xykPools)
      ensures answer == if readable then Known(xykPools.value) else if old(xykSupported) then Unsupported else Unavailable
    {
      if !readable {
        return if xykSupported then Unsupported else Unavailable;
      }
      xykSupported := true;
      if !xykBootstrapped {
        xykPools := Some(Bootstrapped(pairs));
        xykBootstrapped := true;
      }
      answer := Known(xykPools.value);
    }

    method GetStableswapPools(readable: bool, pairs: seq<Listed<int, Pool, Ramp>>) returns (answer: Answer<StableList>)
      requires Valid()
      modifies this`stableswapPools, this`stableswapBootstrapped, this`stableswapSupported
      ensures Valid() && stableswapSupported == (old(stableswapSupported) || readable)
      ensures stableswapPools == Filled(old(stableswapPools), if readable then Some(pairs) else None)
      ensures old(stableswapPools).Some? || !readable ==> stableswapPools == old(stableswapPools)
      ensures answer == if readable then Known(stableswapPools.value) else if old(stableswapSupported) then Unsupported else Unavailable
    {
      if !readable {
        return if stableswapSupported then Unsupported else Unavailable;
      }
      stableswapSupported := true;
      if !stableswapBootstrapped {
        stableswapPools := Some(Bootstrapped(pairs));
        stableswapBootstrapped := true;
      }
      answer := Known(stableswapPools.value);
    }
  }

  /** A getter fills an empty list from the storage it reads, if it can read it. */
  function Filled<K, V, E>(list: Option<seq<Entry<K, V, E>>>, read: Option<seq<Listed<K, V, E>>>): Option<seq<Entry<K, V, E>>> {
    if list.None? && read.Some? then Some(Bootstrapped(read.value)) else list
  }
}
