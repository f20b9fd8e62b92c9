/** `resolveGraphPricesByWeightedMedian` of src/price/graph.ts, as it runs: a growing queue, the
    per-asset lists that are sorted and cut in place, and the key index through which a stored
    record is deepened. */
module PathSearch {
  import opened Wrappers
  import opened PathTypes
  import opened StableSort
  import opened PathSearchSpec
  import opened PathSearchProofs
  import opened PathSearchRun
  import opened PathMeaning
  import opened WeightedMedian

  /** A stored observation: the list and the key index hold the same record, and only its
      liquidity ever changes. */
  class PathObservation {
    const price: int
    const hops: int
    const path: seq<int>
    var pathLiquidityUsd: int

    constructor (o: Observation)
      ensures Value() == o
    {
      price, hops, path, pathLiquidityUsd := o.price, o.hops, o.path, o.liquidity;
    }

    function Value(): Observation
      reads this
    {
      Observation(price, hops, pathLiquidityUsd, path)
    }

    function Id(): Key { Key(price, hops, path) }
  }

  ghost function Values(list: seq<PathObservation>): (r: seq<Observation>)
    reads list
    ensures |r| == |list| && forall i | 0 <= i < |list| :: r[i] == list[i].Value()
  {
    seq(|list|, i requires 0 <= i < |list| reads list => list[i].Value())
  }

  /** `values` are what the records of `list` hold now. */
  ghost predicate Shows(list: seq<PathObservation>, values: seq<Observation>)
    reads list
  {
    |values| == |list| && forall i | 0 <= i < |list| :: values[i] == list[i].Value()
  }

  method InsertRecord(list: seq<PathObservation>, x: PathObservation) returns (r: seq<PathObservation>)
    ensures Values(r) == Insert(Values(list), x.Value(), RanksAtMost)
    ensures multiset(r) == multiset(list) + multiset{x}
  {
    if list == [] {
      r := [x];
    } else {
      var front, last := list[..|list| - 1], list[|list| - 1];
      assert list == front + [last];
      assert Values(list)[..|list| - 1] == Values(front);
      if RanksAtMost(last.Value(), x.Value()) {
        r := list + [x];
      } else {
        r := InsertRecord(front, x);
        r := r + [last];
      }
    }
  }

  lemma SortGrows(values: seq<Observation>, i: nat)
    requires i < |values|
    ensures Sort(values[..i + 1], RanksAtMost) == Insert(Sort(values[..i], RanksAtMost), values[i], RanksAtMost)
  {
    assert values[..i + 1] == values[..i] + [values[i]];
    SortSnoc(values[..i], values[i]);
  }

  lemma MultisetGrows<T>(list: seq<T>, i: nat)
    requires i < |list|
    ensures multiset(list[..i + 1]) == multiset(list[..i]) + multiset{list[i]}
  {
    assert list[..i + 1] == list[..i] + [list[i]];
  }

  /** `list.sort(…)`. */
  method SortRecords(list: seq<PathObservation>) returns (r: seq<PathObservation>)
    ensures Values(r) == Sort(Values(list), RanksAtMost)
    ensures multiset(r) == multiset(list)
  {
    r := [];
    ghost var values := Values(list);
    for i := 0 to |list|
      invariant Values(r) == Sort(values[..i], RanksAtMost)
      invariant multiset(r) == multiset(list[..i])
    {
      SortGrows(values, i);
      MultisetGrows(list, i);
      r := InsertRecord(r, list[i]);
    }
    assert list[..|list|] == list && values[..|list|] == values;
  }

  ghost function Ids(list: seq<PathObservation>): set<Key> { set x | x in list :: x.Id() }

  ghost predicate DistinctIds(list: seq<PathObservation>) {
    forall i, j | 0 <= i < j < |list| :: list[i].Id() != list[j].Id()
  }

  /** The index holds the records of the list, each under its own key. */
  ghost predicate Indexes(keyed: map<Key, PathObservation>, list: seq<PathObservation>) {
    && keyed.Keys == Ids(list)
    && forall x | x in list :: x.Id() in keyed && keyed[x.Id()] == x
  }

  ghost predicate Coherent(keyed: map<Key, PathObservation>, list: seq<PathObservation>) {
    DistinctIds(list) && Indexes(keyed, list)
  }

  /** Records of `a` belong to its list alone: their paths end in `a`. */
  ghost predicate Owned(list: seq<PathObservation>, a: int, records: set<PathObservation>) {
    forall x | x in list :: x in records && End(x.path) == a
  }

  /** One asset's list has its own records, indexed by their keys, */
  ghost predicate KeptAt(lists: map<int, seq<PathObservation>>, keys: map<int, map<Key, PathObservation>>, a: int,
                         records: set<PathObservation>)
    requires a in lists && a in keys
  {
    Owned(lists[a], a, records) && Coherent(keys[a], lists[a])
  }

  /** and holds these values now. */
  ghost predicate ShownAt(lists: map<int, seq<PathObservation>>, view: Lists, a: int)
    requires a in lists && a in view
    reads lists[a]
  {
    Shows(lists[a], view[a])
  }

  ghost predicate AllKept(lists: map<int, seq<PathObservation>>, keys: map<int, map<Key, PathObservation>>,
                          records: set<PathObservation>)
  {
    lists.Keys == keys.Keys && forall a {:trigger KeptAt(lists, keys, a, records)} | a in lists :: KeptAt(lists, keys, a, records)
  }

  lemma StoreKeeps(lists: map<int, seq<PathObservation>>, keys: map<int, map<Key, PathObservation>>, records: set<PathObservation>,
                   a: int, list: seq<PathObservation>, keyed: map<Key, PathObservation>)
    requires AllKept(lists, keys, records) && Owned(list, a, records) && Coherent(keyed, list)
    ensures AllKept(lists[a := list], keys[a := keyed], records)
  {
    var lists', keys' := lists[a := list], keys[a := keyed];
    forall b | b in lists' ensures KeptAt(lists', keys', b, records) {
      assert b != a ==> KeptAt(lists, keys, b, records);
    }
  }

  lemma StoreShows(lists: map<int, seq<PathObservation>>, view: Lists, a: int, list: seq<PathObservation>, values: seq<Observation>)
    requires lists.Keys == view.Keys && forall b {:trigger ShownAt(lists, view, b)} | b in lists :: ShownAt(lists, view, b)
    requires Shows(list, values)
    ensures forall b {:trigger ShownAt(lists[a := list], view[a := values], b)} | b in lists[a := list] ::
              ShownAt(lists[a := list], view[a := values], b)
  {
    var lists', view' := lists[a := list], view[a := values];
    forall b | b in lists' ensures ShownAt(lists', view', b) {
      assert b != a ==> ShownAt(lists, view, b);
    }
  }

  lemma AdoptKeeps(lists: map<int, seq<PathObservation>>, keys: map<int, map<Key, PathObservation>>, records: set<PathObservation>,
                   more: set<PathObservation>)
    requires AllKept(lists, keys, records) && records <= more
    ensures AllKept(lists, keys, more)
  {
    forall a | a in lists ensures KeptAt(lists, keys, a, more) {
      assert KeptAt(lists, keys, a, records);
    }
  }

  lemma IndexIsInjective(keyed: map<Key, PathObservation>, list: seq<PathObservation>, k: Key)
    requires Indexes(keyed, list) && k in keyed
    ensures keyed[k] in list && keyed[k].Id() == k
  {
  }

  lemma IdsIdentify(list: seq<PathObservation>)
    requires DistinctIds(list)
    ensures forall x, y | x in list && y in list && x.Id() == y.Id() :: x == y
  {
    forall x, y | x in list && y in list && x.Id() == y.Id() ensures x == y {
      var i :| 0 <= i < |list| && list[i] == x;
      var j :| 0 <= j < |list| && list[j] == y;
      assert !(i < j) && !(j < i);
    }
  }

  lemma DistinctIdsPermute(a: seq<PathObservation>, b: seq<PathObservation>)
    requires DistinctIds(a) && multiset(a) == multiset(b)
    ensures DistinctIds(b) && forall x :: x in b <==> x in a
  {
    forall x ensures x in b <==> x in a { assert x in multiset(b) <==> x in multiset(a); }
    IdsIdentify(a);
    forall i, j | 0 <= i < j < |b| ensures b[i].Id() != b[j].Id() {
      assert b[i] in a && b[j] in a;
      if b[i] == b[j] {
        assert b == b[..i] + [b[i]] + b[i + 1..j] + [b[j]] + b[j + 1..];
        assert multiset(b)[b[i]] >= 2;
        OnceInDistinct(a, b[i]);
      }
    }
  }

  lemma {:induction false} OnceInDistinct(a: seq<PathObservation>, x: PathObservation)
    requires DistinctIds(a)
    ensures multiset(a)[x] <= 1
  {
    if a != [] {
      OnceInDistinct(a[1..], x);
      assert a == [a[0]] + a[1..];
      assert forall i | 0 <= i < |a[1..]| :: a[1..][i].Id() != a[0].Id();
      assert a[0] !in a[1..];
    }
  }

  lemma IndexOfSupplied(keyed: map<Key, PathObservation>, list: seq<PathObservation>, record: PathObservation, sorted: seq<PathObservation>)
    requires Indexes(keyed, list) && DistinctIds(list) && record.Id() !in keyed
    requires multiset(sorted) == multiset(list + [record])
    ensures DistinctIds(sorted) && Indexes(keyed[record.Id() := record], sorted)
    ensures forall x :: x in sorted <==> x in list || x == record
  {
    assert forall x | x in list :: x.Id() in keyed;
    DistinctIdsPermute(list + [record], sorted);
    assert Ids(sorted) == Ids(list) + {record.Id()};
  }

  /** `for (const item of removed) keyed.delete(…)`. */
  method DeleteKeys(keyed: map<Key, PathObservation>, removed: seq<PathObservation>) returns (left: map<Key, PathObservation>)
    ensures left == keyed - Ids(removed)
  {
    left := keyed;
    for i := 0 to |removed|
      invariant left == keyed - Ids(removed[..i])
    {
      assert removed[..i + 1] == removed[..i] + [removed[i]];
      assert Ids(removed[..i + 1]) == Ids(removed[..i]) + {removed[i].Id()};
      left := left - {removed[i].Id()};
    }
    assert removed[..|removed|] == removed;
  }

  lemma IndexOfCut(keyed: map<Key, PathObservation>, sorted: seq<PathObservation>, cap: nat)
    requires DistinctIds(sorted) && Indexes(keyed, sorted) && cap <= |sorted|
    ensures DistinctIds(sorted[..cap]) && Indexes(keyed - Ids(sorted[cap..]), sorted[..cap])
  {
    DistinctPrefixOfIds(sorted, cap);
    IdsSplit(sorted, cap);
    CutIdsDiffer(sorted, cap);
    forall x | x in sorted[..cap] ensures x in sorted && x.Id() !in Ids(sorted[cap..]) {}
  }

  lemma DistinctPrefixOfIds(sorted: seq<PathObservation>, cap: nat)
    requires DistinctIds(sorted) && cap <= |sorted|
    ensures DistinctIds(sorted[..cap])
  {
  }

  lemma IdsSplit(sorted: seq<PathObservation>, cap: nat)
    requires cap <= |sorted|
    ensures Ids(sorted) == Ids(sorted[..cap]) + Ids(sorted[cap..])
  {
    assert sorted == sorted[..cap] + sorted[cap..];
  }

  lemma CutIdsDiffer(sorted: seq<PathObservation>, cap: nat)
    requires DistinctIds(sorted) && cap <= |sorted|
    ensures forall x, y | x in sorted[..cap] && y in sorted[cap..] :: x.Id() != y.Id()
  {
    forall x, y | x in sorted[..cap] && y in sorted[cap..] ensures x.Id() != y.Id() {
      var i :| 0 <= i < cap && sorted[..cap][i] == x;
      var j :| 0 <= j < |sorted| - cap && sorted[cap..][j] == y;
      assert sorted[i] == x && sorted[cap + j] == y;
    }
  }

  /** `observations` and `observationKeys`, with `addObservation` over them. */
  class ObservationBook {
    const cap: nat
    var observations: map<int, seq<PathObservation>>
    var observationKeys: map<int, map<Key, PathObservation>>
    /** The lists as values. */
    ghost var View: Lists
    ghost var Records: set<PathObservation>

    ghost predicate Valid()
      reads this, Records
    {
      && 1 <= cap
      && AllKept(observations, observationKeys, Records)
      && View.Keys == observations.Keys
      && (forall a {:trigger ShownAt(observations, View, a)} | a in observations ::
            KeptAt(observations, observationKeys, a, Records) && ShownAt(observations, View, a))
    }

    constructor (cap: nat)
      requires 1 <= cap
      ensures Valid() && Records == {} && View == map[] && this.cap == cap
    {
      this.cap := cap;
      observations, observationKeys := map[], map[];
      View, Records := map[], {};
    }

    method AddObservation(asset: int, o: Observation) returns (kept: bool)
      requires Valid() && End(o.path) == asset
      modifies this, Records
      ensures Valid() && fresh(Records - old(Records))
      ensures View == old(View)[asset := Offer(ListOf(old(View), asset), o, cap).list]
      ensures kept == Offer(ListOf(old(View), asset), o, cap).kept
    {
      if asset in observationKeys && KeyOf(o) in observationKeys[asset] {
        ghost var i := DeepenRecord(asset, o, observationKeys[asset][KeyOf(o)]);
        kept := false;
        OfferIsDeepen(old(View)[asset], o, cap, i);
      } else {
        kept := RankRecord(asset, o);
        OfferIsRank(ListOf(old(View), asset), o, cap);
      }
    }

    /** The branch of a new key: the record is ranked in, and what falls over the cap is dropped. */
    method RankRecord(asset: int, o: Observation) returns (kept: bool)
      requires Valid() && End(o.path) == asset
      requires asset in observationKeys ==> KeyOf(o) !in observationKeys[asset]
      modifies this, Records
      ensures Valid() && fresh(Records - old(Records))
      ensures IndexOfKey(ListOf(old(View), asset), KeyOf(o)) == |ListOf(old(View), asset)|
      ensures View == old(View)[asset := Rank(ListOf(old(View), asset), o, cap).list]
      ensures kept == Rank(ListOf(old(View), asset), o, cap).kept
    {
      var list: seq<PathObservation> := [];
      var keyed: map<Key, PathObservation> := map[];
      if asset in observations {
        list, keyed := observations[asset], observationKeys[asset];
      }
      ghost var values := ListOf(View, asset);
      assert asset in observations ==> ShownAt(observations, View, asset);
      NoSuchKey(keyed, list, values, o);
      var record := new PathObservation(o);
      ghost var values';
      list, keyed, values', kept := Ranked(list, values, keyed, record, cap);
      Adopt(record);
      Store(asset, list, values', keyed);
    }

    /** The branch of a known key: the record is deepened where it stands. */
    method DeepenRecord(asset: int, o: Observation, existing: PathObservation) returns (ghost i: nat)
      requires Valid() && asset in observations && End(o.path) == asset
      requires KeyOf(o) in observationKeys[asset] && existing == observationKeys[asset][KeyOf(o)]
      modifies this`View, Records
      ensures Valid() && Records == old(Records)
      ensures i == IndexOfKey(old(View)[asset], KeyOf(o)) && i < |old(View)[asset]|
      ensures View == old(View)[asset := Deepen(old(View)[asset], i, o.liquidity)]
    {
      ghost var view := View;
      assert ShownAt(observations, view, asset);
      IndexIsInjective(observationKeys[asset], observations[asset], KeyOf(o));
      NotInOthers(observations, observationKeys, Records, asset, existing);
      i := DeepenShown(existing, o.liquidity, observations, view, asset);
      View := view[asset := Deepen(view[asset], i, o.liquidity)];
    }

    method Store(asset: int, list: seq<PathObservation>, ghost values: seq<Observation>, keyed: map<Key, PathObservation>)
      requires Valid() && Owned(list, asset, Records) && Coherent(keyed, list) && Shows(list, values)
      modifies this`observations, this`observationKeys, this`View
      ensures Valid() && View == old(View)[asset := values]
    {
      StoreKeeps(observations, observationKeys, Records, asset, list, keyed);
      StoreShows(observations, View, asset, list, values);
      observations, observationKeys, View := observations[asset := list], observationKeys[asset := keyed], View[asset := values];
    }

    /** A fresh record joins the footprint. */
    method Adopt(record: PathObservation)
      requires Valid()
      modifies this`Records
      ensures Valid() && Records == old(Records) + {record}
    {
      AdoptKeeps(observations, observationKeys, Records, Records + {record});
      Records := Records + {record};
    }
  }

  lemma NotInOthers(lists: map<int, seq<PathObservation>>, keys: map<int, map<Key, PathObservation>>, records: set<PathObservation>,
                    a: int, x: PathObservation)
    requires AllKept(lists, keys, records) && a in lists && x in lists[a]
    ensures forall b | b in lists && b != a :: x !in lists[b]
  {
    assert KeptAt(lists, keys, a, records);
    forall b | b in lists && b != a ensures x !in lists[b] { assert KeptAt(lists, keys, b, records); }
  }

  /** Deepening one record deepens the value of its list, and of no other. */
  method DeepenShown(existing: PathObservation, liquidity: int, ghost lists: map<int, seq<PathObservation>>, ghost view: Lists, ghost a: int)
    returns (ghost i: nat)
    requires lists.Keys == view.Keys && a in lists && existing in lists[a] && DistinctIds(lists[a])
    requires forall b | b in lists && b != a :: existing !in lists[b]
    requires forall b {:trigger ShownAt(lists, view, b)} | b in lists :: ShownAt(lists, view, b)
    modifies existing
    ensures i == IndexOfKey(view[a], existing.Id()) && i < |view[a]|
    ensures forall b {:trigger ShownAt(lists, view[a := Deepen(view[a], i, liquidity)], b)} | b in lists ::
              ShownAt(lists, view[a := Deepen(view[a], i, liquidity)], b)
  {
    assert ShownAt(lists, view, a);
    i := DeepenOne(existing, liquidity, lists[a], view[a]);
    forall b | b in lists ensures ShownAt(lists, view[a := Deepen(view[a], i, liquidity)], b) {
      assert old(ShownAt(lists, view, b));
    }
  }

  method DeepenOne(existing: PathObservation, liquidity: int, ghost list: seq<PathObservation>, ghost values: seq<Observation>)
    returns (ghost i: nat)
    requires existing in list && DistinctIds(list) && Shows(list, values)
    modifies existing
    ensures i == IndexOfKey(values, existing.Id()) && i < |values|
    ensures Shows(list, Deepen(values, i, liquidity))
  {
    i := IndexOfRecord(list, values, existing);
    existing.pathLiquidityUsd := existing.pathLiquidityUsd + liquidity;
  }

  lemma OfferIsDeepen(list: seq<Observation>, o: Observation, cap: nat, i: nat)
    requires i == IndexOfKey(list, KeyOf(o)) && i < |list|
    ensures Offer(list, o, cap) == Offered(Deepen(list, i, o.liquidity), false)
  {
  }

  lemma OfferIsRank(list: seq<Observation>, o: Observation, cap: nat)
    requires IndexOfKey(list, KeyOf(o)) == |list|
    ensures Offer(list, o, cap) == Rank(list, o, cap)
  {
  }

  /** Where a record stands is where its key is found. */
  lemma IndexOfRecord(list: seq<PathObservation>, values: seq<Observation>, x: PathObservation) returns (i: nat)
    requires x in list && DistinctIds(list) && Shows(list, values)
    ensures i == IndexOfKey(values, x.Id()) && i < |list| && list[i] == x
    ensures forall j | 0 <= j < |list| && j != i :: list[j] != x
  {
    i :| 0 <= i < |list| && list[i] == x;
    assert forall j | 0 <= j < |list| :: KeyOf(values[j]) == list[j].Id();
  }

  /** Push, sort, and cut what is over the cap. */
  method Ranked(list: seq<PathObservation>, ghost values: seq<Observation>, keyed: map<Key, PathObservation>, record: PathObservation, cap: nat)
    returns (list': seq<PathObservation>, keyed': map<Key, PathObservation>, ghost values': seq<Observation>, kept: bool)
    requires Coherent(keyed, list) && record.Id() !in keyed && Shows(list, values)
    ensures Shows(list', values') && Coherent(keyed', list') && forall x | x in list' :: x == record || x in list
    ensures Offered(values', kept) == Rank(values, record.Value(), cap)
  {
    assert Values(list + [record]) == values + [record.Value()];
    var sorted := SortRecords(list + [record]);
    IndexOfSupplied(keyed, list, record, sorted);
    list', keyed', kept := CutTo(sorted, keyed[record.Id() := record], record, cap);
    values' := Values(list');
  }

  /** `list.splice(cap)`, and forgetting the keys of what it removed. */
  method CutTo(sorted: seq<PathObservation>, keyed: map<Key, PathObservation>, record: PathObservation, cap: nat)
    returns (list: seq<PathObservation>, keyed': map<Key, PathObservation>, kept: bool)
    requires Coherent(keyed, sorted) && record in sorted
    ensures Values(list) == if |sorted| > cap then Values(sorted)[..cap] else Values(sorted)
    ensures kept == (|sorted| <= cap || record.Value() !in Values(sorted)[cap..])
    ensures Coherent(keyed', list) && forall x | x in list :: x in sorted
  {
    list, keyed', kept := sorted, keyed, true;
    if |sorted| > cap {
      var removed := sorted[cap..];
      IndexOfCut(keyed, sorted, cap);
      IdsIdentify(sorted);
      list := sorted[..cap];
      keyed' := DeleteKeys(keyed, removed);
      kept := record !in removed;
      SameRecord(record, record.Value(), sorted, cap);
    }
  }

  lemma NoSuchKey(keyed: map<Key, PathObservation>, list: seq<PathObservation>, values: seq<Observation>, o: Observation)
    requires Indexes(keyed, list) && KeyOf(o) !in keyed && Shows(list, values)
    ensures IndexOfKey(values, KeyOf(o)) == |values|
  {
    forall j | 0 <= j < |list| ensures KeyOf(values[j]) != KeyOf(o) {
      assert list[j].Id() in keyed;
    }
  }

  /** With distinct keys, finding the record among the removed ones is finding its value. */
  lemma SameRecord(record: PathObservation, o: Observation, sorted: seq<PathObservation>, cap: nat)
    requires cap <= |sorted| && record in sorted && record.Value() == o
    requires forall x, y | x in sorted && y in sorted && x.Id() == y.Id() :: x == y
    ensures record in sorted[cap..] <==> o in Values(sorted)[cap..]
    ensures Values(sorted[..cap]) == Values(sorted)[..cap]
  {
    var removed := sorted[cap..];
    assert Values(sorted)[cap..] == Values(removed);
    forall x | x in removed ensures x in sorted {}
    SameIn(record, o, removed);
  }

  lemma SameIn(record: PathObservation, o: Observation, list: seq<PathObservation>)
    requires record.Value() == o && forall x | x in list && x.Id() == record.Id() :: x == record
    ensures record in list <==> o in Values(list)
  {
    if o in Values(list) {
      var i :| 0 <= i < |list| && Values(list)[i] == o;
      assert list[i] in list && list[i].Id() == record.Id();
    }
    if record in list {
      var i :| 0 <= i < |list| && list[i] == record;
      assert Values(list)[i] == o;
    }
  }

  // ---------------------------------------------------------------- the search

  /** One adjacent edge of the entry. */
  method VisitEdge(cfg: Config, book: ObservationBook, queue: seq<Observation>, entry: Observation, edge: Edge, ghost st: State)
    returns (queue': seq<Observation>)
    requires book.Valid() && book.cap == cfg.Cap() && queue == st.queue && book.View == st.lists
    modifies book, book.Records
    ensures book.Valid() && fresh(book.Records - old(book.Records))
    ensures queue' == Visit(cfg, st, entry, edge).queue && book.View == Visit(cfg, st, entry, edge).lists
  {
    queue' := queue;
    if Accepts(cfg, entry, edge) {
      var observation := Extend(entry, edge);
      var kept := book.AddObservation(edge.toAsset, observation);
      if kept {
        queue' := queue' + [observation];
      }
    }
  }

  /** The inner loop: one entry taken off the queue is extended over every adjacent edge. */
  method ExpandEntry(cfg: Config, book: ObservationBook, queue: seq<Observation>, entry: Observation, ghost st: State)
    returns (queue': seq<Observation>)
    requires book.Valid() && book.cap == cfg.Cap() && queue == st.queue && book.View == st.lists
    modifies book, book.Records
    ensures book.Valid() && fresh(book.Records - old(book.Records))
    ensures queue' == Expand(cfg, st, entry, cfg.Adjacent(End(entry.path))).queue
    ensures book.View == Expand(cfg, st, entry, cfg.Adjacent(End(entry.path))).lists
  {
    queue' := queue;
    var edges := cfg.Adjacent(End(entry.path));
    for i := 0 to |edges|
      invariant book.Valid() && fresh(book.Records - old(book.Records))
      invariant queue' == Expand(cfg, st, entry, edges[..i]).queue
      invariant book.View == Expand(cfg, st, entry, edges[..i]).lists
    {
      assert edges[..i + 1][..i] == edges[..i];
      queue' := VisitEdge(cfg, book, queue', entry, edges[i], Expand(cfg, st, entry, edges[..i]));
    }
    assert edges[..|edges|] == edges;
  }

  method Snapshot(list: seq<PathObservation>) returns (values: seq<Observation>)
    ensures values == Values(list)
  {
    values := [];
    for i := 0 to |list|
      invariant values == Values(list)[..i]
    {
      values := values + [list[i].Value()];
    }
  }

  datatype Resolved = Resolved(price: int, hops: int, liquidity: int)

  /** A seed is answered with its own price, at no hops and any depth. */
  predicate IsSeedPrice(resolved: map<int, Resolved>, s: Seed) {
    s.asset in resolved && resolved[s.asset] == Resolved(s.price, 0, UNBOUNDED_PATH_LIQUIDITY)
  }

  ghost function SeedAssets(cfg: Config): set<int> { set s | s in cfg.seeds :: s.asset }

  /** The answer for one asset is a weighted median of its recorded observations. */
  ghost predicate IsMedianOf(r: Resolved, list: seq<Observation>) {
    exists o :: IsMedianPath(list, o) && r == Resolved(o.price, o.hops, o.liquidity)
  }

  /** The answer for one asset is the price at the end of some good path to it, with the number of
      pools it crosses and at least its bottleneck. */
  ghost predicate IsWitnessedPrice(cfg: Config, a: int, r: Resolved) {
    exists s, route, prices, depth ::
      && HasKey(cfg, a, Key(r.price, r.hops, AssetsAlong(s, route)), s, route, prices, depth)
      && depth <= r.liquidity
  }

  method ResolveByWeightedMedian(cfg: Config) returns (resolved: map<int, Resolved>)
    requires cfg.Valid()
    ensures resolved.Keys == Search(cfg).lists.Keys + SeedAssets(cfg)
    ensures forall s | s in cfg.seeds :: IsSeedPrice(resolved, s)
    ensures forall a | a in resolved && a !in SeedAssets(cfg) ::
              IsMedianOf(resolved[a], Search(cfg).lists[a]) && IsWitnessedPrice(cfg, a, resolved[a])
  {
    var book := new ObservationBook(cfg.Cap());
    var queue := SeedQueue(cfg);
    ghost var st := Start(cfg);
    var head := 0;
    while head < |queue|
      invariant head <= |queue| && queue == st.queue && Run(cfg, st, head) == Search(cfg)
      invariant book.Valid() && fresh(book.Records) && book.cap == cfg.Cap() && book.View == st.lists
      decreases PendingWork(cfg, st.queue, head)
    {
      var entry := queue[head];
      StepDecreases(cfg, st, head);
      queue := ExpandEntry(cfg, book, queue, entry, st);
      st, head := Expand(cfg, st, entry, cfg.Adjacent(End(entry.path))), head + 1;
    }
    SearchIsSound(cfg);
    resolved := SelectMedians(book);
    MediansAreWitnessed(cfg, book.View, resolved);
    resolved := OverrideSeeds(cfg, resolved);
  }

  lemma MedianIsWitnessed(cfg: Config, lists: Lists, a: int, o: Observation)
    requires Sound(cfg, lists) && a in lists && o in lists[a]
    ensures IsWitnessedPrice(cfg, a, Resolved(o.price, o.hops, o.liquidity))
  {
    WitnessedIsGood(cfg, lists, a, o);
    var s, route, prices, depth :| HasKey(cfg, a, Key(o.price, o.hops, o.path), s, route, prices, depth) && depth <= o.liquidity;
    assert HasKey(cfg, a, Key(o.price, o.hops, AssetsAlong(s, route)), s, route, prices, depth);
  }

  method SelectMedianOf(book: ObservationBook, a: int) returns (r: Resolved)
    requires book.Valid() && a in book.observations && a in book.View && book.View[a] != []
    ensures IsMedianOf(r, book.View[a])
  {
    assert ShownAt(book.observations, book.View, a);
    var values := Snapshot(book.observations[a]);
    assert values == book.View[a];
    var selected := SelectMedianPath(values);
    r := Resolved(selected.value.price, selected.value.hops, selected.value.liquidity);
  }

  method Next<T(==)>(rest: set<T>) returns (x: T)
    requires rest != {}
    ensures x in rest
  {
    x :| x in rest;
  }

  /** The first result loop: one median per asset with observations, in whatever order. */
  method SelectMedians(book: ObservationBook) returns (resolved: map<int, Resolved>)
    requires book.Valid() && forall a | a in book.View :: book.View[a] != []
    ensures resolved.Keys == book.View.Keys
    ensures forall a | a in resolved :: IsMedianOf(resolved[a], book.View[a])
  {
    resolved := map[];
    var rest := book.observations.Keys;
    while rest != {}
      invariant rest <= book.View.Keys && resolved.Keys == book.View.Keys - rest
      invariant forall a {:trigger resolved[a]} | a in resolved :: IsMedianOf(resolved[a], book.View[a])
      decreases |rest|
    {
      var a := Next(rest);
      var r := SelectMedianOf(book, a);
      resolved, rest := resolved[a := r], rest - {a};
    }
  }

  lemma MediansAreWitnessed(cfg: Config, lists: Lists, resolved: map<int, Resolved>)
    requires Sound(cfg, lists) && forall a | a in resolved :: a in lists && IsMedianOf(resolved[a], lists[a])
    ensures forall a | a in resolved :: IsWitnessedPrice(cfg, a, resolved[a])
  {
    forall a | a in resolved ensures IsWitnessedPrice(cfg, a, resolved[a]) {
      var o :| IsMedianPath(lists[a], o) && resolved[a] == Resolved(o.price, o.hops, o.liquidity);
      MedianIsWitnessed(cfg, lists, a, o);
    }
  }

  /** The second result loop: every seed keeps its own price, at no hops. */
  method OverrideSeeds(cfg: Config, medians: map<int, Resolved>) returns (resolved: map<int, Resolved>)
    requires cfg.Valid()
    ensures resolved.Keys == medians.Keys + SeedAssets(cfg)
    ensures forall s | s in cfg.seeds :: IsSeedPrice(resolved, s)
    ensures forall a | a in medians && a !in SeedAssets(cfg) :: resolved[a] == medians[a]
  {
    resolved := medians;
    ghost var done: set<int> := {};
    for i := 0 to |cfg.seeds|
      invariant resolved.Keys == medians.Keys + done && done <= SeedAssets(cfg)
      invariant forall j | 0 <= j < i :: cfg.seeds[j].asset in done && IsSeedPrice(resolved, cfg.seeds[j])
      invariant forall a | a in medians && a !in SeedAssets(cfg) :: resolved[a] == medians[a]
    {
      assert cfg.seeds[i] in cfg.seeds;
      resolved := resolved[cfg.seeds[i].asset := Resolved(cfg.seeds[i].price, 0, UNBOUNDED_PATH_LIQUIDITY)];
      done := done + {cfg.seeds[i].asset};
    }
    forall s | s in cfg.seeds ensures s.asset in done && IsSeedPrice(resolved, s) {
      var j :| 0 <= j < |cfg.seeds| && cfg.seeds[j] == s;
    }
    assert done == SeedAssets(cfg);
  }
}
