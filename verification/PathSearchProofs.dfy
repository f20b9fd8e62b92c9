/** What holds of the queue and the observation lists throughout the search, and what follows
    once the queue is exhausted. */
module PathSearchProofs {
  import opened PathTypes
  import opened StableSort
  import opened PathSearchSpec

  type Lists = map<int, seq<Observation>>

  function ListOf(lists: Lists, a: int): seq<Observation> { if a in lists then lists[a] else [] }

  // ---------------------------------------------------------------- invariants

  /** A queue entry is a copy taken before any merge, so it is exactly what its route composes
      to, true bottleneck included. */
  ghost predicate IsEntry(cfg: Config, q: Observation) {
    exists s, route :: Reached(cfg, s, route) && q == Walk(s, route)
  }

  /** Every stored observation was queued when it was stored; merges since only deepened it. */
  ghost predicate WasQueued(queue: seq<Observation>, a: int, o: Observation) {
    exists q :: q in queue && KeyOf(q) == KeyOf(o) && q.liquidity <= o.liquidity && |q.path| > 1 && End(q.path) == a
  }

  ghost predicate QueueInv(cfg: Config, queue: seq<Observation>) {
    && |cfg.seeds| <= |queue| && (forall i | 0 <= i < |cfg.seeds| :: queue[i] == SeedObservation(cfg.seeds[i]))
    && (forall q {:trigger IsEntry(cfg, q)} | q in queue :: IsEntry(cfg, q))
  }

  ghost predicate ListsInv(cfg: Config, lists: Lists) {
    forall a | a in lists :: lists[a] != [] && |lists[a]| <= cfg.Cap() && DistinctKeys(lists[a])
  }

  ghost predicate LinkInv(queue: seq<Observation>, lists: Lists) {
    forall a, o {:trigger WasQueued(queue, a, o)} | a in lists && o in lists[a] :: WasQueued(queue, a, o)
  }

  ghost predicate Inv(cfg: Config, queue: seq<Observation>, lists: Lists) {
    QueueInv(cfg, queue) && ListsInv(cfg, lists) && LinkInv(queue, lists)
  }

  /** The extension of `q` over `e`, if the guards let it pass, is stored, or its list is full. */
  ghost predicate Served(cfg: Config, q: Observation, e: Edge, lists: Lists) {
    Accepts(cfg, q, e) ==>
      KeyOf(Extend(q, e)) in Keys(ListOf(lists, e.toAsset)) || |ListOf(lists, e.toAsset)| == cfg.Cap()
  }

  ghost predicate Closed(cfg: Config, processed: seq<Observation>, lists: Lists) {
    forall q, e {:trigger Served(cfg, q, e, lists)} | q in processed && e in cfg.Adjacent(End(q.path)) :: Served(cfg, q, e, lists)
  }

  /** A list never shrinks, and loses a key only by being full. */
  ghost predicate Grows(cfg: Config, before: Lists, after: Lists) {
    forall a :: Keys(ListOf(before, a)) <= Keys(ListOf(after, a)) || |ListOf(after, a)| == cfg.Cap()
  }

  ghost predicate NoShrink(before: Lists, after: Lists) {
    forall a :: |ListOf(before, a)| <= |ListOf(after, a)|
  }

  lemma ServedStays(cfg: Config, q: Observation, e: Edge, before: Lists, after: Lists)
    requires Served(cfg, q, e, before) && Grows(cfg, before, after) && NoShrink(before, after)
    requires |ListOf(after, e.toAsset)| <= cfg.Cap()
    ensures Served(cfg, q, e, after)
  {
    assert |ListOf(before, e.toAsset)| <= |ListOf(after, e.toAsset)|;
  }

  lemma ClosedStays(cfg: Config, processed: seq<Observation>, before: Lists, after: Lists)
    requires Closed(cfg, processed, before) && Grows(cfg, before, after) && NoShrink(before, after)
    requires ListsInv(cfg, after)
    ensures Closed(cfg, processed, after)
  {
    forall q, e | q in processed && e in cfg.Adjacent(End(q.path)) ensures Served(cfg, q, e, after) {
      ServedStays(cfg, q, e, before, after);
    }
  }

  /** An accepted extension of an entry is the composition of an admissible route. */
  lemma ExtensionIsEntry(cfg: Config, q: Observation, e: Edge)
    requires IsEntry(cfg, q) && e in cfg.Adjacent(End(q.path)) && Accepts(cfg, q, e)
    ensures exists s, route :: Admissible(cfg, s, route) && Extend(q, e) == Walk(s, route)
    ensures IsEntry(cfg, Extend(q, e))
    ensures |q.path| >= 1
  {
    var s, route :| Reached(cfg, s, route) && q == Walk(s, route);
    ExtensionIsAdmissible(cfg, s, route, e);
    assert Admissible(cfg, s, route + [e]) && Extend(q, e) == Walk(s, route + [e]);
    assert Reached(cfg, s, route + [e]);
  }

  /** One accepted edge: offering the extension, and queueing it when it is kept, keeps every
      invariant. */
  lemma VisitKeepsInv(cfg: Config, queue: seq<Observation>, lists: Lists, a: int, o: Observation, r: Offered)
    requires Inv(cfg, queue, lists) && IsEntry(cfg, o) && |o.path| > 1 && End(o.path) == a
    requires GoodOffer(ListOf(lists, a), o, cfg.Cap(), r)
    ensures Inv(cfg, if r.kept then queue + [o] else queue, lists[a := r.list])
  {
    LinkStays(cfg, queue, if r.kept then queue + [o] else queue, lists, a, o, r);
    if r.kept { QueueInvGrows(cfg, queue, o); }
    ListsInvStays(cfg, lists, a, o, r);
  }

  lemma ListsInvStays(cfg: Config, lists: Lists, a: int, o: Observation, r: Offered)
    requires ListsInv(cfg, lists) && GoodOffer(ListOf(lists, a), o, cfg.Cap(), r)
    ensures ListsInv(cfg, lists[a := r.list])
  {
  }

  lemma QueueInvGrows(cfg: Config, queue: seq<Observation>, o: Observation)
    requires QueueInv(cfg, queue) && IsEntry(cfg, o)
    ensures QueueInv(cfg, queue + [o])
  {
    forall x | x in queue + [o] ensures IsEntry(cfg, x) {
      assert x in queue || x == o;
    }
  }

  lemma LinkStays(cfg: Config, queue: seq<Observation>, queue': seq<Observation>, lists: Lists, a: int, o: Observation, r: Offered)
    requires LinkInv(queue, lists) && queue' == if r.kept then queue + [o] else queue
    requires GoodOffer(ListOf(lists, a), o, cfg.Cap(), r)
    requires |o.path| > 1 && End(o.path) == a
    ensures LinkInv(queue', lists[a := r.list])
  {
    var lists' := lists[a := r.list];
    forall b, x | b in lists' && x in lists'[b] ensures WasQueued(queue', b, x) {
      if b == a {
        forall y | y in ListOf(lists, a) ensures WasQueued(queue, a, y) {}
        StoredStaysQueued(cfg, queue, queue', lists, a, o, x, r);
      } else {
        assert x in lists[b];
        QueuedStays(queue, queue', b, x);
      }
    }
  }

  lemma VisitServes(cfg: Config, lists: Lists, q: Observation, e: Edge, r: Offered)
    requires ListsInv(cfg, lists) && GoodOffer(ListOf(lists, e.toAsset), Extend(q, e), cfg.Cap(), r)
    ensures Grows(cfg, lists, lists[e.toAsset := r.list]) && NoShrink(lists, lists[e.toAsset := r.list])
    ensures Served(cfg, q, e, lists[e.toAsset := r.list])
  {
    var lists' := lists[e.toAsset := r.list];
    assert ListOf(lists', e.toAsset) == r.list;
    forall a | a != e.toAsset ensures ListOf(lists', a) == ListOf(lists, a) {}
  }

  lemma QueuedStays(queue: seq<Observation>, queue': seq<Observation>, a: int, o: Observation)
    requires WasQueued(queue, a, o) && forall q | q in queue :: q in queue'
    ensures WasQueued(queue', a, o)
  {
    var q :| q in queue && KeyOf(q) == KeyOf(o) && q.liquidity <= o.liquidity && |q.path| > 1 && End(q.path) == a;
    assert q in queue';
  }

  lemma StoredStaysQueued(cfg: Config, queue: seq<Observation>, queue': seq<Observation>, lists: Lists,
                          a: int, o: Observation, x: Observation, r: Offered)
    requires forall y | y in ListOf(lists, a) :: WasQueued(queue, a, y)
    requires GoodOffer(ListOf(lists, a), o, cfg.Cap(), r) && x in r.list
    requires queue' == if r.kept then queue + [o] else queue
    requires |o.path| > 1 && End(o.path) == a
    ensures WasQueued(queue', a, x)
  {
    if x == o && r.kept {
      assert o in queue';
    } else {
      assert Descends(x, ListOf(lists, a));
      var y :| y in ListOf(lists, a) && KeyOf(y) == KeyOf(x) && y.liquidity <= x.liquidity;
      assert WasQueued(queue, a, y);
      var q :| q in queue && KeyOf(q) == KeyOf(y) && q.liquidity <= y.liquidity && |q.path| > 1 && End(q.path) == a;
      assert q in queue';
    }
  }

  // ---------------------------------------------------------------- soundness

  ghost predicate Witnessed(cfg: Config, a: int, o: Observation) {
    exists s, route :: Admissible(cfg, s, route) && KeyOf(Walk(s, route)) == KeyOf(o)
                       && End(o.path) == a && cfg.Threshold() <= Walk(s, route).liquidity <= o.liquidity
  }

  ghost predicate Sound(cfg: Config, lists: Lists) {
    forall a, o {:trigger Witnessed(cfg, a, o)} | a in lists && o in lists[a] :: Witnessed(cfg, a, o)
  }

  /** Whatever was evicted on the way, everything stored is witnessed by a simple priced path. */
  lemma InvIsSound(cfg: Config, queue: seq<Observation>, lists: Lists)
    requires Inv(cfg, queue, lists)
    ensures Sound(cfg, lists)
  {
    forall a, o | a in lists && o in lists[a] ensures Witnessed(cfg, a, o) {
      assert WasQueued(queue, a, o);
      var q :| q in queue && KeyOf(q) == KeyOf(o) && q.liquidity <= o.liquidity && |q.path| > 1 && End(q.path) == a;
      assert IsEntry(cfg, q);
      var s, route :| Reached(cfg, s, route) && q == Walk(s, route);
      assert Admissible(cfg, s, route);
    }
  }

  // ---------------------------------------------------------------- completeness

  ghost predicate CoversAdmissible(cfg: Config, a: int, keys: set<Key>) {
    forall k :: AdmissibleKey(cfg, a, k) ==> k in keys
  }

  /** The list of `a` can hold every admissible key of `a`. */
  ghost predicate Roomy(cfg: Config, a: int) {
    exists keys: set<Key> :: |keys| <= cfg.Cap() && CoversAdmissible(cfg, a, keys)
  }

  /** The recorded keys of every asset are exactly the admissible ones. */
  ghost predicate Exact(cfg: Config, lists: Lists) {
    forall a, k :: k in Keys(ListOf(lists, a)) <==> AdmissibleKey(cfg, a, k)
  }

  lemma SoundKeys(cfg: Config, lists: Lists, a: int, k: Key)
    requires Sound(cfg, lists) && k in Keys(ListOf(lists, a))
    ensures AdmissibleKey(cfg, a, k)
  {
    var o :| o in ListOf(lists, a) && KeyOf(o) == k;
    assert Witnessed(cfg, a, o);
  }

  lemma KeysSplit(list: seq<Observation>)
    requires list != [] && DistinctKeys(list)
    ensures Keys(list) == {KeyOf(list[0])} + Keys(list[1..]) && KeyOf(list[0]) !in Keys(list[1..])
  {
    assert list == [list[0]] + list[1..];
    assert forall i | 0 <= i < |list[1..]| :: KeyOf(list[1..][i]) != KeyOf(list[0]);
  }

  lemma {:induction false} KeysAreAsMany(list: seq<Observation>)
    requires DistinctKeys(list)
    ensures |Keys(list)| == |list|
  {
    if list == [] {
      assert Keys(list) == {};
    } else {
      KeysSplit(list);
      assert DistinctKeys(list[1..]);
      KeysAreAsMany(list[1..]);
    }
  }

  lemma SubsetOfSameSize<T>(a: set<T>, b: set<T>)
    requires a <= b && |b| <= |a|
    ensures a == b
  {
    assert b == a + (b - a);
    assert |b| == |a| + |b - a|;
    assert b - a == {};
  }

  /** A full list with room for all admissible keys holds them all. */
  lemma FullAndRoomyHoldsAll(cfg: Config, lists: Lists, a: int, k: Key)
    requires Sound(cfg, lists) && DistinctKeys(ListOf(lists, a)) && |ListOf(lists, a)| == cfg.Cap()
    requires Roomy(cfg, a) && AdmissibleKey(cfg, a, k)
    ensures k in Keys(ListOf(lists, a))
  {
    var keys: set<Key> :| |keys| <= cfg.Cap() && CoversAdmissible(cfg, a, keys);
    forall k' | k' in Keys(ListOf(lists, a)) ensures k' in keys { SoundKeys(cfg, lists, a, k'); }
    KeysAreAsMany(ListOf(lists, a));
    SubsetOfSameSize(Keys(ListOf(lists, a)), keys);
  }

  /** By induction on the route: its prefix was recorded and therefore queued and processed, so
      its last step was offered. Merging parallel edges loses nothing, because the guards look
      at a key and at each edge's own depth, never at how deep the merged prefix was. */
  lemma {:induction false} RouteIsRecorded(cfg: Config, queue: seq<Observation>, lists: Lists, s: Seed, route: seq<Edge>)
    requires Inv(cfg, queue, lists) && Closed(cfg, queue, lists)
    requires forall a :: |ListOf(lists, a)| < cfg.Cap() || Roomy(cfg, a)
    requires Admissible(cfg, s, route)
    ensures KeyOf(Walk(s, route)) in Keys(ListOf(lists, End(Walk(s, route).path)))
    decreases |route|
  {
    var prefix, e := route[..|route| - 1], route[|route| - 1];
    var o := Walk(s, prefix);
    PruningIsFiltering(cfg, s, route);
    var q := o;
    if prefix == [] {
      var i :| 0 <= i < |cfg.seeds| && cfg.seeds[i] == s;
      assert queue[i] == o;
    } else {
      RouteIsRecorded(cfg, queue, lists, s, prefix);
      q := QueuedTwin(cfg, queue, lists, o);
    }
    TwinStep(cfg, o, q, e);
    assert Served(cfg, q, e, lists);
    if |ListOf(lists, e.toAsset)| == cfg.Cap() {
      InvIsSound(cfg, queue, lists);
      assert AdmissibleKey(cfg, e.toAsset, KeyOf(Walk(s, route)));
      FullAndRoomyHoldsAll(cfg, lists, e.toAsset, KeyOf(Walk(s, route)));
    }
  }

  /** The guards, and the key of the extension, depend on the key of the entry only. */
  lemma TwinStep(cfg: Config, o: Observation, q: Observation, e: Edge)
    requires KeyOf(o) == KeyOf(q) && q.liquidity >= cfg.Threshold() && Accepts(cfg, o, e)
    ensures Accepts(cfg, q, e) && KeyOf(Extend(q, e)) == KeyOf(Extend(o, e))
  {
  }

  lemma QueuedTwin(cfg: Config, queue: seq<Observation>, lists: Lists, o: Observation) returns (q: Observation)
    requires Inv(cfg, queue, lists) && KeyOf(o) in Keys(ListOf(lists, End(o.path)))
    ensures q in queue && KeyOf(q) == KeyOf(o) && q.liquidity >= cfg.Threshold()
  {
    var a := End(o.path);
    var x :| x in ListOf(lists, a) && KeyOf(x) == KeyOf(o);
    assert WasQueued(queue, a, x);
    q :| q in queue && KeyOf(q) == KeyOf(x) && q.liquidity <= x.liquidity && |q.path| > 1 && End(q.path) == a;
    assert IsEntry(cfg, q);
    var s, route :| Reached(cfg, s, route) && q == Walk(s, route);
    assert Admissible(cfg, s, route);
  }

  /** When every list stays below the cap, or has room for all the admissible keys of its
      asset, the search is exact. */
  lemma ExhaustedSearchIsExact(cfg: Config, queue: seq<Observation>, lists: Lists)
    requires Inv(cfg, queue, lists) && Closed(cfg, queue, lists)
    requires forall a :: |ListOf(lists, a)| < cfg.Cap() || Roomy(cfg, a)
    ensures Exact(cfg, lists)
  {
    InvIsSound(cfg, queue, lists);
    forall a, k ensures k in Keys(ListOf(lists, a)) <==> AdmissibleKey(cfg, a, k) {
      if k in Keys(ListOf(lists, a)) {
        SoundKeys(cfg, lists, a, k);
      }
      if AdmissibleKey(cfg, a, k) {
        var s, route :| Admissible(cfg, s, route) && KeyOf(Walk(s, route)) == k && End(k.path) == a;
        RouteIsRecorded(cfg, queue, lists, s, route);
      }
    }
  }

  // ---------------------------------------------------------------- what was offered

  /** Everything offered to the list of an asset is an admissible path to it, at its true
      bottleneck. */
  ghost predicate OffersAdmissible(cfg: Config, offered: Lists) {
    forall a, o {:trigger OfferIsAdmissible(cfg, a, o)} | a in offered && o in offered[a] :: OfferIsAdmissible(cfg, a, o)
  }

  ghost predicate OfferIsAdmissible(cfg: Config, a: int, o: Observation) {
    exists s, route :: Admissible(cfg, s, route) && o == Walk(s, route) && End(o.path) == a
  }

  /** Every list is the best part of everything offered to it. */
  ghost predicate Streams(cfg: Config, lists: Lists, offered: Lists) {
    && lists.Keys == offered.Keys
    && forall a | a in lists :: lists[a] == Take(Sort(offered[a], RanksAtMost), cfg.Cap())
  }

  lemma OffersGrow(cfg: Config, offered: Lists, a: int, o: Observation)
    requires OffersAdmissible(cfg, offered) && OfferIsAdmissible(cfg, a, o)
    ensures OffersAdmissible(cfg, offered[a := ListOf(offered, a) + [o]])
  {
    var offered' := offered[a := ListOf(offered, a) + [o]];
    forall b, x | b in offered' && x in offered'[b] ensures OfferIsAdmissible(cfg, b, x) {
      if b in offered && x in offered[b] {
        assert OfferIsAdmissible(cfg, b, x);
      }
    }
  }

  lemma StreamsStay(cfg: Config, lists: Lists, offered: Lists, a: int, o: Observation)
    requires Streams(cfg, lists, offered)
    requires IndexOfKey(ListOf(lists, a), KeyOf(o)) == |ListOf(lists, a)|
    ensures Streams(cfg, lists[a := Offer(ListOf(lists, a), o, cfg.Cap()).list], offered[a := ListOf(offered, a) + [o]])
  {
    OfferStreams(ListOf(lists, a), ListOf(offered, a), o, cfg.Cap());
  }

  // ---------------------------------------------------------------- what merging adds up to

  /** The depths of all offers with this key, together. */
  function Tally(offers: seq<Observation>, k: Key): int {
    if offers == [] then 0
    else Tally(offers[..|offers| - 1], k) + if KeyOf(offers[|offers| - 1]) == k then offers[|offers| - 1].liquidity else 0
  }

  /** Every offer is stored, and every stored depth is that of all offers with its key. */
  ghost predicate Tallied(list: seq<Observation>, offers: seq<Observation>) {
    && (forall o | o in offers :: KeyOf(o) in Keys(list))
    && (forall i | 0 <= i < |list| :: list[i].liquidity == Tally(offers, KeyOf(list[i])))
  }

  /** A list below its cap never lost anything. */
  ghost predicate TalliedBelow(cap: nat, lists: Lists, offered: Lists) {
    forall a {:trigger ListOf(lists, a)} :: |ListOf(lists, a)| < cap ==> Tallied(ListOf(lists, a), ListOf(offered, a))
  }

  lemma {:induction false} TallyOfAbsent(offers: seq<Observation>, k: Key)
    requires forall o | o in offers :: KeyOf(o) != k
    ensures Tally(offers, k) == 0
  {
    if offers != [] {
      assert offers[|offers| - 1] in offers;
      TallyOfAbsent(offers[..|offers| - 1], k);
    }
  }

  lemma TallyGrows(offers: seq<Observation>, o: Observation, k: Key)
    ensures Tally(offers + [o], k) == Tally(offers, k) + if KeyOf(o) == k then o.liquidity else 0
  {
    assert (offers + [o])[..|offers|] == offers;
  }

  lemma MergeTallies(list: seq<Observation>, offers: seq<Observation>, o: Observation, i: nat)
    requires Tallied(list, offers) && DistinctKeys(list) && i == IndexOfKey(list, KeyOf(o)) && i < |list|
    ensures Tallied(Deepen(list, i, o.liquidity), offers + [o])
  {
    var r := Deepen(list, i, o.liquidity);
    forall j | 0 <= j < |r| ensures r[j].liquidity == Tally(offers + [o], KeyOf(r[j])) && KeyOf(r[j]) == KeyOf(list[j]) {
      TallyGrows(offers, o, KeyOf(list[j]));
    }
    SameKeys(list, r);
    forall x | x in offers + [o] ensures KeyOf(x) in Keys(r) {
      if x in offers { assert KeyOf(x) in Keys(list); } else { assert r[i] in r; }
    }
  }

  lemma RankTallies(list: seq<Observation>, offers: seq<Observation>, o: Observation)
    requires Tallied(list, offers) && DistinctKeys(list) && IndexOfKey(list, KeyOf(o)) == |list|
    ensures Tallied(Sort(list + [o], RanksAtMost), offers + [o])
  {
    var sorted := Sort(list + [o], RanksAtMost);
    RankedFacts(list, o);
    KeysOfSuperset(list, o, sorted);
    forall x | x in offers ensures KeyOf(x) != KeyOf(o) {
      assert KeyOf(x) in Keys(list);
      var y :| y in list && KeyOf(y) == KeyOf(x);
      var j :| 0 <= j < |list| && list[j] == y;
    }
    TallyOfAbsent(offers, KeyOf(o));
    forall j | 0 <= j < |sorted| ensures sorted[j].liquidity == Tally(offers + [o], KeyOf(sorted[j])) {
      TallyGrows(offers, o, KeyOf(sorted[j]));
      assert sorted[j] in sorted;
      if sorted[j] != o {
        var i :| 0 <= i < |list| && list[i] == sorted[j];
      }
    }
  }

  /** An offer that leaves the list below its cap cut nothing off. */
  lemma OfferTallies(list: seq<Observation>, offers: seq<Observation>, o: Observation, cap: nat)
    requires DistinctKeys(list) && |Offer(list, o, cap).list| < cap && (|list| < cap ==> Tallied(list, offers))
    ensures Tallied(Offer(list, o, cap).list, offers + [o])
  {
    var i := IndexOfKey(list, KeyOf(o));
    if i < |list| {
      MergeTallies(list, offers, o, i);
    } else {
      SortPermutes(list + [o], RanksAtMost);
      RankTallies(list, offers, o);
    }
  }

  lemma TalliesStay(cap: nat, lists: Lists, offered: Lists, a: int, o: Observation)
    requires TalliedBelow(cap, lists, offered) && DistinctKeys(ListOf(lists, a))
    ensures TalliedBelow(cap, lists[a := Offer(ListOf(lists, a), o, cap).list], offered[a := ListOf(offered, a) + [o]])
  {
    var lists', offered' := lists[a := Offer(ListOf(lists, a), o, cap).list], offered[a := ListOf(offered, a) + [o]];
    forall b | |ListOf(lists', b)| < cap ensures Tallied(ListOf(lists', b), ListOf(offered', b)) {
      if b == a {
        OfferTallies(ListOf(lists, a), ListOf(offered, a), o, cap);
      } else {
        assert ListOf(lists', b) == ListOf(lists, b) && ListOf(offered', b) == ListOf(offered, b);
      }
    }
  }
}
