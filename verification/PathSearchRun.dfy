/** The worklist of the path search as a function of its arguments, and what its final state means. */
module PathSearchRun {
  import opened PathTypes
  import opened StableSort
  import opened PathSearchSpec
  import opened PathSearchProofs
  import opened PathSearchWork
  import opened PathMeaning

  /** The queue and the lists; `offered` and `merged` are their history, which nothing reads. */
  datatype State = State(queue: seq<Observation>, lists: Lists, offered: Lists, merged: bool)

  /** One adjacent edge of the entry `q`. */
  function Visit(cfg: Config, st: State, q: Observation, e: Edge): (st': State)
    ensures st.queue <= st'.queue
  {
    if !Accepts(cfg, q, e) then st
    else
      var o, list := Extend(q, e), ListOf(st.lists, e.toAsset);
      var r := Offer(list, o, cfg.Cap());
      State(
        if r.kept then st.queue + [o] else st.queue,
        st.lists[e.toAsset := r.list],
        st.offered[e.toAsset := ListOf(st.offered, e.toAsset) + [o]],
        st.merged || IndexOfKey(list, KeyOf(o)) < |list|)
  }

  function Expand(cfg: Config, st: State, q: Observation, edges: seq<Edge>): (st': State)
    ensures st.queue <= st'.queue
  {
    if edges == [] then st else Visit(cfg, Expand(cfg, st, q, edges[..|edges| - 1]), q, edges[|edges| - 1])
  }

  ghost function PendingWork(cfg: Config, queue: seq<Observation>, head: nat): nat
    requires head <= |queue|
  {
    QueueWork(Targets(cfg.graph), Degree(cfg.graph), queue[head..])
  }

  lemma VisitIsCovered(cfg: Config, st: State, q: Observation, e: Edge, from: nat)
    requires from <= |st.queue| && e in cfg.Adjacent(End(q.path))
    ensures var targets, d := Targets(cfg.graph), Degree(cfg.graph);
            QueueWork(targets, d, Visit(cfg, st, q, e).queue[from..])
              <= QueueWork(targets, d, st.queue[from..]) + Below(Free(targets, q.path), d)
  {
    if Accepts(cfg, q, e) {
      PushIsCovered(cfg, st.queue, q, e, from);
    }
  }

  lemma PushIsCovered(cfg: Config, queue: seq<Observation>, q: Observation, e: Edge, from: nat)
    requires from <= |queue| && e in cfg.Adjacent(End(q.path)) && Accepts(cfg, q, e)
    ensures var targets, d := Targets(cfg.graph), Degree(cfg.graph);
            QueueWork(targets, d, (queue + [Extend(q, e)])[from..]) == QueueWork(targets, d, queue[from..]) + Below(Free(targets, q.path), d)
  {
    PushedWork(cfg, Targets(cfg.graph), Degree(cfg.graph), queue[from..], q, e);
    assert (queue + [Extend(q, e)])[from..] == queue[from..] + [Extend(q, e)];
  }

  lemma OneMoreTime(n: nat, x: nat)
    ensures Times(n + 1, x) == Times(n, x) + x
  {
  }

  lemma {:induction false} ExpansionIsCovered(cfg: Config, st: State, q: Observation, edges: seq<Edge>)
    requires forall e | e in edges :: e in cfg.Adjacent(End(q.path))
    ensures var targets, d := Targets(cfg.graph), Degree(cfg.graph);
            QueueWork(targets, d, Expand(cfg, st, q, edges).queue[|st.queue|..]) <= Times(|edges|, Below(Free(targets, q.path), d))
  {
    if edges != [] {
      var front, e := edges[..|edges| - 1], edges[|edges| - 1];
      ExpansionIsCovered(cfg, st, q, front);
      VisitIsCovered(cfg, Expand(cfg, st, q, front), q, e, |st.queue|);
      OneMoreTime(|front|, Below(Free(Targets(cfg.graph), q.path), Degree(cfg.graph)));
    }
  }

  lemma RestOfQueue<T>(queue: seq<T>, queue': seq<T>, head: nat)
    requires head < |queue| && queue <= queue'
    ensures queue'[head + 1..] == queue[head..][1..] + queue'[|queue|..]
  {
    assert queue' == queue + queue'[|queue|..];
  }

  lemma CoveredStepDecreases(cfg: Config, queue: seq<Observation>, queue': seq<Observation>, head: nat)
    requires head < |queue| && queue <= queue'
    requires var targets, d, path := Targets(cfg.graph), Degree(cfg.graph), queue[head].path;
             QueueWork(targets, d, queue'[|queue|..]) <= Times(|cfg.Adjacent(End(path))|, Below(Free(targets, path), d))
    ensures PendingWork(cfg, queue', head + 1) < PendingWork(cfg, queue, head)
  {
    var pending, pushed := queue[head..], queue'[|queue|..];
    RestOfQueue(queue, queue', head);
    ExpansionDecreases(Targets(cfg.graph), Degree(cfg.graph), pending, pushed, |cfg.Adjacent(End(queue[head].path))|);
  }

  /** Taking an entry off the queue leaves strictly less work, whatever its expansion queues. */
  lemma StepDecreases(cfg: Config, st: State, head: nat)
    requires head < |st.queue|
    ensures var q := st.queue[head];
            var st' := Expand(cfg, st, q, cfg.Adjacent(End(q.path)));
            head + 1 <= |st'.queue| && PendingWork(cfg, st'.queue, head + 1) < PendingWork(cfg, st.queue, head)
  {
    var q := st.queue[head];
    ExpansionIsCovered(cfg, st, q, cfg.Adjacent(End(q.path)));
    CoveredStepDecreases(cfg, st.queue, Expand(cfg, st, q, cfg.Adjacent(End(q.path))).queue, head);
  }

  /** The search loop, defined for every finite graph. */
  ghost function Run(cfg: Config, st: State, head: nat): State
    requires head <= |st.queue|
    decreases PendingWork(cfg, st.queue, head)
  {
    if head == |st.queue| then st
    else
      var q := st.queue[head];
      StepDecreases(cfg, st, head);
      Run(cfg, Expand(cfg, st, q, cfg.Adjacent(End(q.path))), head + 1)
  }

  function SeedQueue(cfg: Config): seq<Observation> {
    seq(|cfg.seeds|, i requires 0 <= i < |cfg.seeds| => SeedObservation(cfg.seeds[i]))
  }

  function Start(cfg: Config): State { State(SeedQueue(cfg), map[], map[], false) }

  ghost function Search(cfg: Config): State { Run(cfg, Start(cfg), 0) }

  // ---------------------------------------------------------------- invariants of the run

  ghost predicate History(cfg: Config, st: State) {
    && OffersAdmissible(cfg, st.offered) && (!st.merged ==> Streams(cfg, st.lists, st.offered))
    && TalliedBelow(cfg.Cap(), st.lists, st.offered)
  }

  ghost predicate ServedAll(cfg: Config, q: Observation, edges: seq<Edge>, lists: Lists) {
    forall e {:trigger Served(cfg, q, e, lists)} | e in edges :: Served(cfg, q, e, lists)
  }

  lemma VisitKeeps(cfg: Config, st: State, q: Observation, e: Edge)
    requires Inv(cfg, st.queue, st.lists) && IsEntry(cfg, q) && e in cfg.Adjacent(End(q.path))
    ensures var st' := Visit(cfg, st, q, e);
            && Inv(cfg, st'.queue, st'.lists) && Served(cfg, q, e, st'.lists)
            && Grows(cfg, st.lists, st'.lists) && NoShrink(st.lists, st'.lists)
  {
    if Accepts(cfg, q, e) {
      var o, list := Extend(q, e), ListOf(st.lists, e.toAsset);
      ExtensionIsEntry(cfg, q, e);
      OfferFacts(list, o, cfg.Cap());
      VisitKeepsInv(cfg, st.queue, st.lists, e.toAsset, o, Offer(list, o, cfg.Cap()));
      VisitServes(cfg, st.lists, q, e, Offer(list, o, cfg.Cap()));
    }
  }

  lemma VisitKeepsHistory(cfg: Config, st: State, q: Observation, e: Edge)
    requires History(cfg, st) && ListsInv(cfg, st.lists) && IsEntry(cfg, q) && e in cfg.Adjacent(End(q.path))
    ensures History(cfg, Visit(cfg, st, q, e))
  {
    if Accepts(cfg, q, e) {
      var o, list := Extend(q, e), ListOf(st.lists, e.toAsset);
      ExtensionIsEntry(cfg, q, e);
      OffersGrow(cfg, st.offered, e.toAsset, o);
      assert e.toAsset in st.lists ==> DistinctKeys(st.lists[e.toAsset]);
      TalliesStay(cfg.Cap(), st.lists, st.offered, e.toAsset, o);
      if !st.merged && IndexOfKey(list, KeyOf(o)) == |list| {
        StreamsStay(cfg, st.lists, st.offered, e.toAsset, o);
      }
    }
  }

  lemma {:induction false} ExpandKeeps(cfg: Config, st: State, processed: seq<Observation>, q: Observation, edges: seq<Edge>)
    requires Inv(cfg, st.queue, st.lists) && Closed(cfg, processed, st.lists)
    requires IsEntry(cfg, q) && forall e | e in edges :: e in cfg.Adjacent(End(q.path))
    ensures var st' := Expand(cfg, st, q, edges);
            Inv(cfg, st'.queue, st'.lists) && Closed(cfg, processed, st'.lists) && ServedAll(cfg, q, edges, st'.lists)
  {
    if edges != [] {
      var front, e := edges[..|edges| - 1], edges[|edges| - 1];
      ExpandKeeps(cfg, st, processed, q, front);
      var before := Expand(cfg, st, q, front);
      VisitKeeps(cfg, before, q, e);
      ServedSoFar(cfg, processed, q, front, e, before.lists, Visit(cfg, before, q, e).lists);
      assert edges == front + [e];
    }
  }

  lemma {:induction false} ExpandKeepsHistory(cfg: Config, st: State, q: Observation, edges: seq<Edge>)
    requires Inv(cfg, st.queue, st.lists) && History(cfg, st)
    requires IsEntry(cfg, q) && forall e | e in edges :: e in cfg.Adjacent(End(q.path))
    ensures History(cfg, Expand(cfg, st, q, edges))
  {
    if edges != [] {
      var front, e := edges[..|edges| - 1], edges[|edges| - 1];
      ExpandKeepsHistory(cfg, st, q, front);
      ExpandKeeps(cfg, st, [], q, front);
      VisitKeepsHistory(cfg, Expand(cfg, st, q, front), q, e);
    }
  }

  lemma ServedSoFar(cfg: Config, processed: seq<Observation>, q: Observation, front: seq<Edge>, e: Edge, before: Lists, after: Lists)
    requires Closed(cfg, processed, before) && ServedAll(cfg, q, front, before) && Served(cfg, q, e, after)
    requires Grows(cfg, before, after) && NoShrink(before, after) && ListsInv(cfg, after)
    ensures Closed(cfg, processed, after) && ServedAll(cfg, q, front + [e], after)
  {
    ClosedStays(cfg, processed, before, after);
    ServedAllStays(cfg, q, front, before, after);
    forall x | x in front + [e] ensures Served(cfg, q, x, after) {}
  }

  lemma ServedAllStays(cfg: Config, q: Observation, done: seq<Edge>, before: Lists, after: Lists)
    requires ServedAll(cfg, q, done, before) && Grows(cfg, before, after) && NoShrink(before, after) && ListsInv(cfg, after)
    ensures ServedAll(cfg, q, done, after)
  {
    forall e | e in done ensures Served(cfg, q, e, after) {
      ServedStays(cfg, q, e, before, after);
    }
  }

  lemma ClosedAfterEntry(cfg: Config, processed: seq<Observation>, entry: Observation, lists: Lists)
    requires Closed(cfg, processed, lists) && ServedAll(cfg, entry, cfg.Adjacent(End(entry.path)), lists)
    ensures Closed(cfg, processed + [entry], lists)
  {
    forall q, e | q in processed + [entry] && e in cfg.Adjacent(End(q.path)) ensures Served(cfg, q, e, lists) {
      if q in processed { assert Served(cfg, q, e, lists); }
    }
  }

  ghost predicate RunInv(cfg: Config, st: State, processed: seq<Observation>) {
    Inv(cfg, st.queue, st.lists) && Closed(cfg, processed, st.lists) && History(cfg, st)
  }

  lemma PrefixStays<T>(queue: seq<T>, queue': seq<T>, head: nat)
    requires head < |queue| && queue <= queue'
    ensures queue'[..head + 1] == queue[..head] + [queue[head]]
  {
  }

  lemma StepKeeps(cfg: Config, st: State, head: nat)
    requires head < |st.queue| && RunInv(cfg, st, st.queue[..head])
    ensures var q := st.queue[head];
            var st' := Expand(cfg, st, q, cfg.Adjacent(End(q.path)));
            head < |st'.queue| && RunInv(cfg, st', st'.queue[..head + 1])
  {
    var q := st.queue[head];
    var edges := cfg.Adjacent(End(q.path));
    assert IsEntry(cfg, q);
    ExpandKeeps(cfg, st, st.queue[..head], q, edges);
    ExpandKeepsHistory(cfg, st, q, edges);
    var st' := Expand(cfg, st, q, edges);
    ClosedAfterEntry(cfg, st.queue[..head], q, st'.lists);
    PrefixStays(st.queue, st'.queue, head);
  }

  lemma {:induction false} RunKeeps(cfg: Config, st: State, head: nat)
    requires head <= |st.queue| && RunInv(cfg, st, st.queue[..head])
    ensures RunInv(cfg, Run(cfg, st, head), Run(cfg, st, head).queue)
    decreases PendingWork(cfg, st.queue, head)
  {
    if head == |st.queue| {
      assert st.queue[..head] == st.queue;
    } else {
      var q := st.queue[head];
      StepKeeps(cfg, st, head);
      StepDecreases(cfg, st, head);
      RunKeeps(cfg, Expand(cfg, st, q, cfg.Adjacent(End(q.path))), head + 1);
    }
  }

  lemma SearchKeeps(cfg: Config)
    ensures RunInv(cfg, Search(cfg), Search(cfg).queue)
  {
    var queue := SeedQueue(cfg);
    forall q | q in queue ensures IsEntry(cfg, q) {
      var i :| 0 <= i < |queue| && queue[i] == q;
      assert Reached(cfg, cfg.seeds[i], []) && q == Walk(cfg.seeds[i], []);
    }
    RunKeeps(cfg, Start(cfg), 0);
  }

  // ---------------------------------------------------------------- what the search finds

  /** For any cap: every list stays within it, holds no key twice, and everything in it has the
      price, the hops and the assets of a good path, and no less than its bottleneck. */
  lemma SearchIsSound(cfg: Config)
    ensures Sound(cfg, Search(cfg).lists)
    ensures forall a | a in Search(cfg).lists ::
              1 <= |Search(cfg).lists[a]| <= cfg.Cap() && DistinctKeys(Search(cfg).lists[a])
    ensures forall a, o | a in Search(cfg).lists && o in Search(cfg).lists[a] ::
              GoodWitness(cfg, a, Key(o.price, o.hops, o.path), o.liquidity)
    ensures cfg.options.maxObservationsPerAsset.None? ==> cfg.Cap() == 64
    ensures cfg.options.maxObservationsPerAsset.Some? ==>
              cfg.Cap() >= 1 && (cfg.Cap() == 1 || cfg.Cap() == cfg.options.maxObservationsPerAsset.value)
              && cfg.Cap() >= cfg.options.maxObservationsPerAsset.value
  {
    SearchKeeps(cfg);
    InvIsSound(cfg, Search(cfg).queue, Search(cfg).lists);
    forall a, o | a in Search(cfg).lists && o in Search(cfg).lists[a] ensures GoodWitness(cfg, a, Key(o.price, o.hops, o.path), o.liquidity) {
      WitnessedIsGood(cfg, Search(cfg).lists, a, o);
    }
  }

  lemma WitnessedIsGood(cfg: Config, lists: Lists, a: int, o: Observation)
    requires Sound(cfg, lists) && a in lists && o in lists[a]
    ensures GoodWitness(cfg, a, Key(o.price, o.hops, o.path), o.liquidity)
  {
    assert Witnessed(cfg, a, o);
    var s, route :| Admissible(cfg, s, route) && KeyOf(Walk(s, route)) == KeyOf(o)
                    && End(o.path) == a && cfg.Threshold() <= Walk(s, route).liquidity <= o.liquidity;
    var prices, depth := AdmissibleHasKey(cfg, a, s, route);
    assert HasKey(cfg, a, Key(o.price, o.hops, o.path), s, route, prices, depth) && depth <= o.liquidity;
  }

  /** When no list fills up, or a full one could hold all the keys its asset has, exactly the keys
      of good paths are recorded: no pruning, no merging and no cutting loses one. */
  lemma SearchIsExact(cfg: Config)
    requires forall a :: |ListOf(Search(cfg).lists, a)| < cfg.Cap() || Roomy(cfg, a)
    ensures forall a, k :: k in Keys(ListOf(Search(cfg).lists, a)) <==> GoodKey(cfg, a, k)
  {
    SearchKeeps(cfg);
    ExhaustedSearchIsExact(cfg, Search(cfg).queue, Search(cfg).lists);
    forall a, k ensures k in Keys(ListOf(Search(cfg).lists, a)) <==> GoodKey(cfg, a, k) { GoodKeyIff(cfg, a, k); }
  }

  /** An offer is a good path to `a` with its own price, hops, assets and bottleneck. */
  ghost predicate IsGoodOffer(cfg: Config, a: int, o: Observation) {
    exists s, route, prices :: HasKey(cfg, a, Key(o.price, o.hops, o.path), s, route, prices, o.liquidity)
  }

  lemma OfferIsGood(cfg: Config, offered: Lists, a: int, o: Observation)
    requires OffersAdmissible(cfg, offered) && a in offered && o in offered[a]
    ensures IsGoodOffer(cfg, a, o)
  {
    assert OfferIsAdmissible(cfg, a, o);
    var s, route :| Admissible(cfg, s, route) && o == Walk(s, route) && End(o.path) == a;
    var prices, depth := AdmissibleHasKey(cfg, a, s, route);
  }

  /** In a list below its cap every stored depth is the sum of the depths of all offers with its
      key, and everything offered is an admissible path at its true bottleneck. */
  lemma SearchTallies(cfg: Config, a: int)
    requires |ListOf(Search(cfg).lists, a)| < cfg.Cap()
    ensures forall o | o in ListOf(Search(cfg).lists, a) :: o.liquidity == Tally(ListOf(Search(cfg).offered, a), KeyOf(o))
    ensures forall o | o in ListOf(Search(cfg).offered, a) :: KeyOf(o) in Keys(ListOf(Search(cfg).lists, a)) && IsGoodOffer(cfg, a, o)
  {
    SearchKeeps(cfg);
    var list, offers := ListOf(Search(cfg).lists, a), ListOf(Search(cfg).offered, a);
    assert Tallied(list, offers);
    forall o | o in offers ensures IsGoodOffer(cfg, a, o) { OfferIsGood(cfg, Search(cfg).offered, a, o); }
    forall o | o in list ensures o.liquidity == Tally(offers, KeyOf(o)) {
      var i :| 0 <= i < |list| && list[i] == o;
    }
  }

  /** Without merges the lists are what ranking everything ever offered and cutting once would
      leave, each element at its true bottleneck, however often the cut was made. */
  lemma SearchStreamsTopK(cfg: Config)
    requires !Search(cfg).merged
    ensures forall a | a in Search(cfg).lists :: a in Search(cfg).offered
              && Search(cfg).lists[a] == Take(Sort(Search(cfg).offered[a], RanksAtMost), cfg.Cap())
    ensures forall a, o | a in Search(cfg).offered && o in Search(cfg).offered[a] :: IsGoodOffer(cfg, a, o)
  {
    SearchKeeps(cfg);
    forall a, o | a in Search(cfg).offered && o in Search(cfg).offered[a] ensures IsGoodOffer(cfg, a, o) {
      OfferIsGood(cfg, Search(cfg).offered, a, o);
    }
  }
}
