/** Lists with one entry per key, kept up to date operation by operation, and the maps they stand
    for. */
module KeyedLists {
  import opened Wrappers

  /** `extra` is what an entry carries beyond the value it stands for. */
  datatype Entry<K, V, E> = Entry(key: K, value: V, extra: E)

  datatype Op<K, !V, E> =
    | Put(key: K, value: V, extra: E)
    | Drop(key: K)
    | Patch(key: K, patch: V -> V)
    | Retune(key: K, extra: E)

  // ---------------------------------------------------------------- on lists

  /** `findIndex` by key; the length where there is none. */
  function Position<K(==), V, E>(list: seq<Entry<K, V, E>>, key: K): (i: nat)
    ensures i <= |list| && (i < |list| ==> list[i].key == key)
    ensures forall j | 0 <= j < i :: list[j].key != key
  {
    if list == [] then 0
    else
      var i := Position(list[..|list| - 1], key);
      if i < |list| - 1 then i else if list[|list| - 1].key == key then |list| - 1 else |list|
  }

  /** `filter(entry => entry.key !== key)`. */
  function Without<K(==), V, E>(list: seq<Entry<K, V, E>>, key: K): seq<Entry<K, V, E>> {
    if list == [] then []
    else
      var front, last := Without(list[..|list| - 1], key), list[|list| - 1];
      if last.key == key then front else front + [last]
  }

  function ListStep<K(==), V, E>(list: seq<Entry<K, V, E>>, op: Op<K, V, E>): seq<Entry<K, V, E>> {
    var i := Position(list, op.key);
    match op
    case Put(k, v, e) => if i < |list| then list[i := Entry(k, v, e)] else list + [Entry(k, v, e)]
    case Drop(k) => Without(list, k)
    case Patch(k, p) => if i < |list| then list[i := list[i].(value := p(list[i].value))] else list
    case Retune(k, e) => if i < |list| then list[i := list[i].(extra := e)] else list
  }

  // ---------------------------------------------------------------- on maps

  function MapStep<K(==), V, E>(m: map<K, V>, op: Op<K, V, E>): map<K, V> {
    match op
    case Put(k, v, _) => m[k := v]
    case Drop(k) => m - {k}
    case Patch(k, p) => if k in m then m[k := p(m[k])] else m
    case Retune(_, _) => m
  }

  // ---------------------------------------------------------------- agreement

  ghost predicate DistinctKeys<K, V, E>(list: seq<Entry<K, V, E>>) { forall i, j | 0 <= i < j < |list| :: list[i].key != list[j].key }

  ghost predicate HoldsAt<K, V, E>(list: seq<Entry<K, V, E>>, m: map<K, V>, k: K) {
    if k in m then Position(list, k) < |list| && list[Position(list, k)].value == m[k] else Position(list, k) == |list|
  }

  /** The list has every key of the map once, with its value, and no other. */
  ghost predicate Agrees<K(!new), V, E>(list: seq<Entry<K, V, E>>, m: map<K, V>) {
    DistinctKeys(list) && forall k {:trigger HoldsAt(list, m, k)} :: HoldsAt(list, m, k)
  }

  lemma {:induction false} WithoutKeepsDistinct<K, V, E>(list: seq<Entry<K, V, E>>, key: K)
    requires DistinctKeys(list)
    ensures DistinctKeys(Without(list, key)) && forall x | x in Without(list, key) :: x in list
  {
    if list != [] {
      var front, last := list[..|list| - 1], list[|list| - 1];
      WithoutKeepsDistinct(front, key);
      assert list == front + [last];
      forall x | x in Without(front, key) ensures x.key != last.key {
        var j :| 0 <= j < |front| && front[j] == x;
        assert list[j] == front[j];
      }
    }
  }

  lemma {:induction false} WithoutIs<K, V, E>(list: seq<Entry<K, V, E>>, key: K, k: K)
    ensures k == key ==> Position(Without(list, key), k) == |Without(list, key)|
    ensures k != key ==> (Position(Without(list, key), k) < |Without(list, key)| <==> Position(list, k) < |list|)
    ensures k != key && Position(list, k) < |list| ==> Without(list, key)[Position(Without(list, key), k)] == list[Position(list, k)]
  {
    if list != [] {
      var front, last := list[..|list| - 1], list[|list| - 1];
      WithoutIs(front, key, k);
      var rest := Without(front, key);
      if last.key != key { assert (rest + [last])[..|rest|] == rest; }
    }
  }

  lemma StepDistinct<K, V, E>(list: seq<Entry<K, V, E>>, op: Op<K, V, E>)
    requires DistinctKeys(list)
    ensures DistinctKeys(ListStep(list, op))
  {
    if op.Drop? { WithoutKeepsDistinct(list, op.key); }
  }

  /** What an update at one position does to the positions of keys. */
  lemma PositionAfterUpdate<K, V, E>(list: seq<Entry<K, V, E>>, i: nat, entry: Entry<K, V, E>, k: K)
    requires DistinctKeys(list) && i < |list| && entry.key == list[i].key
    ensures Position(list[i := entry], k) == Position(list, k)
  {
    var after := list[i := entry];
    assert forall j | 0 <= j < |list| :: after[j].key == list[j].key;
    var p, q := Position(list, k), Position(after, k);
    if p < |list| { assert after[p].key == k; }
    if q < |list| { assert list[q].key == k; }
  }

  lemma PositionAfterAppend<K, V, E>(list: seq<Entry<K, V, E>>, entry: Entry<K, V, E>, k: K)
    requires Position(list, entry.key) == |list|
    ensures Position(list + [entry], k) == if k == entry.key then |list| else if Position(list, k) < |list| then Position(list, k) else |list| + 1
  {
    assert (list + [entry])[..|list|] == list;
  }

  lemma StepHoldsAt<K, V, E>(list: seq<Entry<K, V, E>>, m: map<K, V>, op: Op<K, V, E>, k: K)
    requires DistinctKeys(list) && HoldsAt(list, m, k) && HoldsAt(list, m, op.key)
    ensures HoldsAt(ListStep(list, op), MapStep(m, op), k)
  {
    var i := Position(list, op.key);
    match op
    case Put(key, v, e) =>
      if i < |list| { PositionAfterUpdate(list, i, Entry(key, v, e), k); } else { PositionAfterAppend(list, Entry(key, v, e), k); }
    case Drop(key) => WithoutIs(list, key, k);
    case Patch(key, p) => if i < |list| { PositionAfterUpdate(list, i, list[i].(value := p(list[i].value)), k); }
    case Retune(key, e) => if i < |list| { PositionAfterUpdate(list, i, list[i].(extra := e), k); }
  }

  /** Each operation keeps the list in step with the map. */
  lemma StepAgrees<K(!new), V, E>(list: seq<Entry<K, V, E>>, m: map<K, V>, op: Op<K, V, E>)
    requires Agrees(list, m)
    ensures Agrees(ListStep(list, op), MapStep(m, op))
  {
    StepDistinct(list, op);
    forall k ensures HoldsAt(ListStep(list, op), MapStep(m, op), k) {
      assert HoldsAt(list, m, k) && HoldsAt(list, m, op.key);
      StepHoldsAt(list, m, op, k);
    }
  }

  // ---------------------------------------------------------------- sequences of operations

  function ListAfter<K(==), V, E>(list: seq<Entry<K, V, E>>, ops: seq<Op<K, V, E>>): seq<Entry<K, V, E>> {
    if ops == [] then list else ListStep(ListAfter(list, ops[..|ops| - 1]), ops[|ops| - 1])
  }

  function MapAfter<K(==), V, E>(m: map<K, V>, ops: seq<Op<K, V, E>>): map<K, V> {
    if ops == [] then m else MapStep(MapAfter(m, ops[..|ops| - 1]), ops[|ops| - 1])
  }

  lemma {:induction false} AfterAgrees<K(!new), V, E>(list: seq<Entry<K, V, E>>, m: map<K, V>, ops: seq<Op<K, V, E>>)
    requires Agrees(list, m)
    ensures Agrees(ListAfter(list, ops), MapAfter(m, ops))
  {
    if ops != [] {
      AfterAgrees(list, m, ops[..|ops| - 1]);
      StepAgrees(ListAfter(list, ops[..|ops| - 1]), MapAfter(m, ops[..|ops| - 1]), ops[|ops| - 1]);
    }
  }

  // ---------------------------------------------------------------- applying them again

  /** One key's value through the operations. */
  function At<K(==), V>(m: map<K, V>, k: K): Option<V> { if k in m then Some(m[k]) else None }

  function StepAt<K(==), V, E>(x: Option<V>, op: Op<K, V, E>, k: K): Option<V> {
    if op.key != k then x
    else
      match op
      case Put(_, v, _) => Some(v)
      case Drop(_) => None
      case Patch(_, p) => if x.Some? then Some(p(x.value)) else None
      case Retune(_, _) => x
  }

  function AfterAt<K(==), V, E>(x: Option<V>, ops: seq<Op<K, V, E>>, k: K): Option<V> {
    if ops == [] then x else StepAt(AfterAt(x, ops[..|ops| - 1], k), ops[|ops| - 1], k)
  }

  lemma {:induction false} MapAfterAt<K, V, E>(m: map<K, V>, ops: seq<Op<K, V, E>>, k: K)
    ensures At(MapAfter(m, ops), k) == AfterAt(At(m, k), ops, k)
  {
    if ops != [] { MapAfterAt(m, ops[..|ops| - 1], k); }
  }

  /** Of two patches the later decides alone. */
  ghost predicate LastPatchWins<K, V(!new), E>(ops: seq<Op<K, V, E>>) {
    forall i, j, v: V {:trigger ops[i].patch(ops[j].patch(v))} | 0 <= i < |ops| && 0 <= j < |ops| && ops[i].Patch? && ops[j].Patch? ::
      ops[i].patch(ops[j].patch(v)) == ops[i].patch(v)
  }

  ghost predicate Decided<K, V, E>(ops: seq<Op<K, V, E>>, k: K) {
    exists i :: 0 <= i < |ops| && ops[i].key == k && (ops[i].Put? || ops[i].Drop?)
  }

  lemma {:induction false} DecidedForgets<K, V, E>(x: Option<V>, y: Option<V>, ops: seq<Op<K, V, E>>, k: K)
    requires Decided(ops, k)
    ensures AfterAt(x, ops, k) == AfterAt(y, ops, k)
  {
    var front, op := ops[..|ops| - 1], ops[|ops| - 1];
    if op.key == k && (op.Put? || op.Drop?) {
    } else {
      var i :| 0 <= i < |ops| && ops[i].key == k && (ops[i].Put? || ops[i].Drop?);
      assert front[i] == ops[i];
      DecidedForgets(x, y, front, k);
    }
  }

  /** Without a put or drop, a patch sees through all earlier ones. */
  lemma {:induction false} PatchSeesThrough<K, V(!new), E>(v: V, ops: seq<Op<K, V, E>>, k: K, all: seq<Op<K, V, E>>, n: nat, i: nat)
    requires n <= |all| && ops == all[..n] && LastPatchWins(all) && !Decided(ops, k) && i < |all| && all[i].Patch?
    ensures AfterAt(Some(v), ops, k).Some? && all[i].patch(AfterAt(Some(v), ops, k).value) == all[i].patch(v)
    decreases n
  {
    if n > 0 {
      var front := all[..n - 1];
      assert ops[..n - 1] == front && ops[n - 1] == all[n - 1];
      assert !Decided(front, k) by { assert forall j | 0 <= j < n - 1 :: front[j] == ops[j]; }
      PatchSeesThrough(v, front, k, all, n - 1, i);
    }
  }

  lemma {:induction false} UndecidedSettles<K, V(!new), E>(x: Option<V>, ops: seq<Op<K, V, E>>, k: K, all: seq<Op<K, V, E>>, n: nat)
    requires n <= |all| && ops == all[..n] && LastPatchWins(all) && !Decided(ops, k)
    ensures AfterAt(AfterAt(x, ops, k), ops, k) == AfterAt(x, ops, k)
    ensures x.None? ==> AfterAt(x, ops, k).None?
    decreases n
  {
    if n > 0 {
      var front, op := all[..n - 1], all[n - 1];
      assert ops[..n - 1] == front && ops[n - 1] == op;
      assert !Decided(front, k) by { assert forall j | 0 <= j < n - 1 :: front[j] == ops[j]; }
      UndecidedSettles(x, front, k, all, n - 1);
      if op.key == k && op.Patch? && x.Some? {
        PatchSeesThrough(x.value, front, k, all, n - 1, n - 1);
        PatchSeesThrough(AfterAt(x, ops, k).value, front, k, all, n - 1, n - 1);
        assert op.patch(op.patch(AfterAt(x, front, k).value)) == op.patch(AfterAt(x, front, k).value);
      } else if op.key != k || op.Retune? {
      }
    }
  }

  /** Applying the same operations again changes nothing. */
  lemma AgainSettles<K(!new), V(!new), E>(m: map<K, V>, ops: seq<Op<K, V, E>>)
    requires LastPatchWins(ops)
    ensures MapAfter(MapAfter(m, ops), ops) == MapAfter(m, ops)
  {
    var once := MapAfter(m, ops);
    var twice := MapAfter(once, ops);
    forall k ensures At(twice, k) == At(once, k) {
      MapAfterAt(m, ops, k);
      MapAfterAt(once, ops, k);
      if Decided(ops, k) {
        DecidedForgets(At(m, k), At(once, k), ops, k);
      } else {
        assert ops[..|ops|] == ops;
        UndecidedSettles(At(m, k), ops, k, ops, |ops|);
      }
    }
    SameAtEqual(once, twice);
  }

  lemma SameAtEqual<K(!new), V>(a: map<K, V>, b: map<K, V>)
    requires forall k {:trigger At(a, k)} {:trigger At(b, k)} :: At(b, k) == At(a, k)
    ensures a == b
  {
    forall k ensures k in a <==> k in b { assert At(b, k) == At(a, k); }
    forall k | k in a ensures a[k] == b[k] { assert At(b, k) == At(a, k); }
  }
}
