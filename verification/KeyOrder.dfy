/** The order a keyed list is in after its operations, and after the same operations once more. */
module KeyOrder {
  import opened Wrappers
  import opened KeyedLists

  // ---------------------------------------------------------------- key sequences

  function Keys<K, V, E>(list: seq<Entry<K, V, E>>): (keys: seq<K>)
    ensures |keys| == |list|
  {
    seq(|list|, i requires 0 <= i < |list| => list[i].key)
  }

  /** The keys in `s`, or those outside it, in order. */
  function Pick<K(==)>(keys: seq<K>, s: set<K>, inside: bool): seq<K> {
    if keys == [] then []
    else
      var front, last := Pick(keys[..|keys| - 1], s, inside), keys[|keys| - 1];
      if (last in s) == inside then front + [last] else front
  }

  /** A key's place is taken by its first put, and given up by a drop. */
  function KeyStep<K(==), V, E>(keys: seq<K>, op: Op<K, V, E>): seq<K> {
    match op
    case Put(k, _, _) => if k in keys then keys else keys + [k]
    case Drop(k) => Pick(keys, {k}, false)
    case _ => keys
  }

  function KeysAfter<K(==), V, E>(keys: seq<K>, ops: seq<Op<K, V, E>>): seq<K> {
    if ops == [] then keys else KeyStep(KeysAfter(keys, ops[..|ops| - 1]), ops[|ops| - 1])
  }

  lemma {:induction false} KeysWithout<K, V, E>(list: seq<Entry<K, V, E>>, key: K)
    ensures Keys(Without(list, key)) == Pick(Keys(list), {key}, false)
  {
    if list != [] {
      KeysWithout(list[..|list| - 1], key);
      assert Keys(list)[..|list| - 1] == Keys(list[..|list| - 1]);
    }
  }

  lemma KeysOfStep<K, V, E>(list: seq<Entry<K, V, E>>, op: Op<K, V, E>)
    ensures Keys(ListStep(list, op)) == KeyStep(Keys(list), op)
  {
    var i := Position(list, op.key);
    assert op.key in Keys(list) <==> i < |list| by {
      if i < |list| { assert Keys(list)[i] == op.key; }
      if op.key in Keys(list) {
        var j :| 0 <= j < |list| && Keys(list)[j] == op.key;
        assert list[j].key == op.key;
      }
    }
    if op.Drop? { KeysWithout(list, op.key); }
  }

  lemma {:induction false} KeysOfAfter<K, V, E>(list: seq<Entry<K, V, E>>, ops: seq<Op<K, V, E>>)
    ensures Keys(ListAfter(list, ops)) == KeysAfter(Keys(list), ops)
  {
    if ops != [] {
      KeysOfAfter(list, ops[..|ops| - 1]);
      KeysOfStep(ListAfter(list, ops[..|ops| - 1]), ops[|ops| - 1]);
    }
  }

  // ---------------------------------------------------------------- picking

  lemma {:induction false} PickHolds<K>(keys: seq<K>, s: set<K>, inside: bool, k: K)
    ensures k in Pick(keys, s, inside) <==> k in keys && (k in s) == inside
  {
    if keys != [] {
      PickHolds(keys[..|keys| - 1], s, inside, k);
      assert keys == keys[..|keys| - 1] + [keys[|keys| - 1]];
    }
  }

  lemma PickOfAppend<K>(keys: seq<K>, k: K, s: set<K>, inside: bool)
    ensures Pick(keys + [k], s, inside) == if (k in s) == inside then Pick(keys, s, inside) + [k] else Pick(keys, s, inside)
  {
    assert (keys + [k])[..|keys|] == keys;
  }

  /** Only the keys that occur matter. */
  lemma {:induction false} PickAgrees<K>(keys: seq<K>, s: set<K>, t: set<K>, inside: bool)
    requires forall k | k in keys :: k in s <==> k in t
    ensures Pick(keys, s, inside) == Pick(keys, t, inside)
  {
    if keys != [] {
      assert keys[|keys| - 1] in keys;
      PickAgrees(keys[..|keys| - 1], s, t, inside);
    }
  }

  lemma {:induction false} PickOfDrop<K>(keys: seq<K>, k: K, s: set<K>, inside: bool)
    ensures Pick(Pick(keys, {k}, false), s, inside) == Pick(keys, if inside then s - {k} else s + {k}, inside)
  {
    if keys != [] {
      var front, last := keys[..|keys| - 1], keys[|keys| - 1];
      PickOfDrop(front, k, s, inside);
      if last != k { PickOfAppend(Pick(front, {k}, false), last, s, inside); }
    }
  }

  /** A step on a key that is not picked does not show. */
  lemma StepNotPicked<K, V, E>(keys: seq<K>, op: Op<K, V, E>, s: set<K>, inside: bool)
    requires (op.key in s) != inside
    ensures Pick(KeyStep(keys, op), s, inside) == Pick(keys, s, inside)
  {
    match op
    case Put(k, _, _) => PickOfAppend(keys, k, s, inside);
    case Drop(k) =>
      PickOfDrop(keys, k, s, inside);
      assert (if inside then s - {k} else s + {k}) == s;
    case _ =>
  }

  lemma {:induction false} NotPicked<K>(keys: seq<K>, s: set<K>, inside: bool)
    requires forall k | k in keys :: (k in s) != inside
    ensures Pick(keys, s, inside) == []
  {
    if keys != [] {
      assert keys[|keys| - 1] in keys;
      NotPicked(keys[..|keys| - 1], s, inside);
    }
  }

  lemma {:induction false} AllPicked<K>(keys: seq<K>, s: set<K>, inside: bool)
    requires forall k | k in keys :: (k in s) == inside
    ensures Pick(keys, s, inside) == keys
  {
    if keys != [] {
      assert keys[|keys| - 1] in keys;
      AllPicked(keys[..|keys| - 1], s, inside);
      assert keys == keys[..|keys| - 1] + [keys[|keys| - 1]];
    }
  }

  // ---------------------------------------------------------------- drops

  function Drops<K, V, E>(ops: seq<Op<K, V, E>>): set<K> {
    if ops == [] then {}
    else
      var front, op := Drops(ops[..|ops| - 1]), ops[|ops| - 1];
      if op.Drop? then front + {op.key} else front
  }

  lemma {:induction false} DropsSplit<K, V, E>(a: seq<Op<K, V, E>>, b: seq<Op<K, V, E>>)
    ensures Drops(a + b) == Drops(a) + Drops(b)
  {
    if b == [] {
      assert a + b == a;
    } else {
      DropsSplit(a, b[..|b| - 1]);
      assert (a + b)[..|a + b| - 1] == a + b[..|b| - 1];
    }
  }

  lemma DropsOfOne<K, V, E>(op: Op<K, V, E>)
    ensures Drops([op]) == if op.Drop? then {op.key} else {}
  {
    assert [op][..0] == [];
  }

  /** What the rest drops, with or without the operation at its head. */
  lemma DropsAhead<K, V, E>(ops: seq<Op<K, V, E>>, n: nat)
    requires n < |ops|
    ensures Drops(ops[..n + 1]) == Drops(ops[..n]) + if ops[n].Drop? then {ops[n].key} else {}
    ensures Drops(ops[n..]) == Drops(ops[n + 1..]) + if ops[n].Drop? then {ops[n].key} else {}
  {
    assert ops[..n + 1][..n] == ops[..n];
    assert ops[n..] == [ops[n]] + ops[n + 1..];
    DropsSplit([ops[n]], ops[n + 1..]);
    DropsOfOne(ops[n]);
  }

  // ---------------------------------------------------------------- the same operations again

  /** Every key that was put and never dropped is there. */
  ghost predicate HoldsKept<K, V, E>(keys: seq<K>, ops: seq<Op<K, V, E>>) {
    forall i | 0 <= i < |ops| && ops[i].Put? :: ops[i].key in keys || ops[i].key in Drops(ops)
  }

  /** After `n` operations on `again`, and the same on any other keys: leaving out what will still
      be dropped, the keys not dropped so far stand in their old order, before those that were
      dropped and put again, which stand as in the other sequence. */
  ghost predicate Lined<K, V, E>(again: seq<K>, keys: seq<K>, ops: seq<Op<K, V, E>>, n: nat)
    requires n <= |ops|
  {
    var done, ahead := Drops(ops[..n]), Drops(ops[n..]);
    Pick(KeysAfter(again, ops[..n]), ahead, false)
      == Pick(again, done + ahead, false) + Pick(KeysAfter(keys, ops[..n]), done - ahead, true)
  }

  lemma LinedPut<K, V, E>(again: seq<K>, op: Op<K, V, E>, a: seq<K>, b: seq<K>, done: set<K>, ahead: set<K>)
    requires Pick(a, ahead, false) == Pick(again, done + ahead, false) + Pick(b, done - ahead, true)
    requires op.Put? && (op.key in again || op.key in done + ahead)
    ensures Pick(KeyStep(a, op), ahead, false) == Pick(again, done + ahead, false) + Pick(KeyStep(b, op), done - ahead, true)
  {
    if op.key in ahead {
      StepNotPicked(a, op, ahead, false);
      StepNotPicked(b, op, done - ahead, true);
    } else if op.key !in done {
      StepNotPicked(b, op, done - ahead, true);
      PickHolds(again, done + ahead, false, op.key);
      PickHolds(a, ahead, false, op.key);
    } else {
      PickHolds(a, ahead, false, op.key);
      PickHolds(again, done + ahead, false, op.key);
      PickHolds(b, done - ahead, true, op.key);
      var kept, moved := Pick(again, done + ahead, false), Pick(b, done - ahead, true);
      assert op.key in kept + moved <==> op.key in moved;
      assert (kept + moved) + [op.key] == kept + (moved + [op.key]);
      PickOfAppend(a, op.key, ahead, false);
      PickOfAppend(b, op.key, done - ahead, true);
    }
  }

  lemma LinedDrop<K, V, E>(again: seq<K>, op: Op<K, V, E>, a: seq<K>, b: seq<K>, done: set<K>, ahead: set<K>)
    requires op.Drop?
    requires Pick(a, ahead + {op.key}, false) == Pick(again, done + (ahead + {op.key}), false) + Pick(b, done - (ahead + {op.key}), true)
    ensures Pick(KeyStep(a, op), ahead, false)
         == Pick(again, (done + {op.key}) + ahead, false) + Pick(KeyStep(b, op), (done + {op.key}) - ahead, true)
  {
    assert (done + {op.key}) + ahead == done + (ahead + {op.key});
    PickOfDrop(a, op.key, ahead, false);
    PickOfDrop(b, op.key, (done + {op.key}) - ahead, true);
    assert (done + {op.key}) - ahead - {op.key} == done - (ahead + {op.key});
  }

  lemma {:induction false} AgainIsLined<K, V, E>(again: seq<K>, keys: seq<K>, ops: seq<Op<K, V, E>>, n: nat)
    requires HoldsKept(again, ops) && n <= |ops|
    ensures Lined(again, keys, ops, n)
  {
    if n == 0 {
      assert Drops(ops[..0]) == {} && {} + Drops(ops) == Drops(ops) && ops[0..] == ops;
      PickNone(keys, {} - Drops(ops));
    } else {
      AgainIsLined(again, keys, ops, n - 1);
      DropsAhead(ops, n - 1);
      assert ops[..n][..n - 1] == ops[..n - 1];
      DropsSplit(ops[..n - 1], ops[n - 1..]);
      assert ops == ops[..n - 1] + ops[n - 1..];
      var op, a, b := ops[n - 1], KeysAfter(again, ops[..n - 1]), KeysAfter(keys, ops[..n - 1]);
      var done, ahead := Drops(ops[..n - 1]), Drops(ops[n..]);
      if op.Drop? {
        LinedDrop(again, op, a, b, done, ahead);
      } else {
        assert done + {} == done && ahead + {} == ahead;
        if op.Put? { LinedPut(again, op, a, b, done, ahead); }
      }
    }
  }

  lemma PickNone<K>(keys: seq<K>, none: set<K>)
    requires none == {}
    ensures Pick(keys, none, true) == [] && Pick(keys, none, false) == keys
  {
    NotPicked(keys, none, true);
    AllPicked(keys, none, false);
  }

  lemma {:induction false} AfterHoldsKept<K, V, E>(keys: seq<K>, ops: seq<Op<K, V, E>>)
    ensures HoldsKept(KeysAfter(keys, ops), ops)
  {
    if ops != [] {
      var front, op := ops[..|ops| - 1], ops[|ops| - 1];
      AfterHoldsKept(keys, front);
      forall i | 0 <= i < |ops| && ops[i].Put? ensures ops[i].key in KeysAfter(keys, ops) || ops[i].key in Drops(ops) {
        if i < |front| {
          assert front[i] == ops[i];
          if op.Drop? { PickHolds(KeysAfter(keys, front), {op.key}, false, ops[i].key); }
        }
      }
    }
  }

  /** Once more: keys that the operations never drop come first, in the order they were in, and
      the others, all put again, follow in the order they were in. */
  lemma AgainPartitions<K, V, E>(keys: seq<K>, ops: seq<Op<K, V, E>>)
    ensures var once := KeysAfter(keys, ops);
            KeysAfter(once, ops) == Pick(once, Drops(ops), false) + Pick(once, Drops(ops), true)
  {
    var once := KeysAfter(keys, ops);
    AfterHoldsKept(keys, ops);
    AgainIsLined(once, keys, ops, |ops|);
    assert ops[..|ops|] == ops && ops[|ops|..] == [];
    PickNone(KeysAfter(once, ops), {});
    assert Drops(ops) + {} == Drops(ops) - {} == Drops(ops);
  }

  /** Every key in `s` stands behind every other key. */
  ghost predicate Behind<K>(keys: seq<K>, s: set<K>) { forall i, j | 0 <= i < j < |keys| && keys[i] in s :: keys[j] in s }

  /** A partition is the sequence itself exactly when nothing has to move. */
  lemma {:induction false} PartitionIsSameIff<K>(keys: seq<K>, s: set<K>)
    ensures Pick(keys, s, false) + Pick(keys, s, true) == keys <==> Behind(keys, s)
  {
    if keys != [] {
      var front, last := keys[..|keys| - 1], keys[|keys| - 1];
      assert keys == front + [last];
      PartitionIsSameIff(front, s);
      PickOfAppend(front, last, s, false);
      PickOfAppend(front, last, s, true);
      if last in s {
        InsideAppended(front, last, s);
      } else if Pick(front, s, true) == [] {
        NoneInside(front, s);
        AllPicked(keys, s, false);
        NotPicked(keys, s, true);
      } else {
        OutsideAppended(front, last, s);
      }
    }
  }

  lemma InsideAppended<K>(front: seq<K>, last: K, s: set<K>)
    requires last in s
    ensures Behind(front + [last], s) <==> Behind(front, s)
    ensures Pick(front, s, false) + (Pick(front, s, true) + [last]) == front + [last]
            <==> Pick(front, s, false) + Pick(front, s, true) == front
  {
    var parts, keys := Pick(front, s, false) + Pick(front, s, true), front + [last];
    PickLengths(front, s);
    assert Pick(front, s, false) + (Pick(front, s, true) + [last]) == parts + [last];
    assert (parts + [last])[..|front|] == parts && keys[..|front|] == front;
    if Behind(keys, s) {
      forall i, j | 0 <= i < j < |front| && front[i] in s ensures front[j] in s { assert keys[i] == front[i] && keys[j] == front[j]; }
    }
  }

  lemma OutsideAppended<K>(front: seq<K>, last: K, s: set<K>)
    requires last !in s && Pick(front, s, true) != []
    ensures !Behind(front + [last], s)
    ensures (Pick(front, s, false) + [last]) + Pick(front, s, true) != front + [last]
  {
    var kept, moved, n := Pick(front, s, false), Pick(front, s, true), |front|;
    PickLengths(front, s);
    PickHolds(front, s, true, moved[|moved| - 1]);
    var i :| 0 <= i < n && front[i] == moved[|moved| - 1];
    assert (front + [last])[i] in s && (front + [last])[n] !in s;
    assert ((kept + [last]) + moved)[n] == moved[|moved| - 1];
  }

  lemma NoneInside<K>(keys: seq<K>, s: set<K>)
    requires Pick(keys, s, true) == []
    ensures forall k | k in keys :: k !in s
  {
    forall k | k in keys ensures k !in s { PickHolds(keys, s, true, k); }
  }

  lemma {:induction false} PickLengths<K>(keys: seq<K>, s: set<K>)
    ensures |Pick(keys, s, false)| + |Pick(keys, s, true)| == |keys|
  {
    if keys != [] { PickLengths(keys[..|keys| - 1], s); }
  }

  // ---------------------------------------------------------------- the same list again

  /** What the list holds for one key, with what the entry carries beside it. */
  function PairStep<K(==), V, E>(x: Option<(V, E)>, op: Op<K, V, E>, k: K): Option<(V, E)> {
    if op.key != k then x
    else
      match op
      case Put(_, v, e) => Some((v, e))
      case Drop(_) => None
      case Patch(_, p) => if x.Some? then Some((p(x.value.0), x.value.1)) else None
      case Retune(_, e) => if x.Some? then Some((x.value.0, e)) else None
  }

  function PairAfter<K(==), V, E>(x: Option<(V, E)>, ops: seq<Op<K, V, E>>, k: K): Option<(V, E)> {
    if ops == [] then x else PairStep(PairAfter(x, ops[..|ops| - 1], k), ops[|ops| - 1], k)
  }

  function PairAt<K(==), V, E>(list: seq<Entry<K, V, E>>, k: K): Option<(V, E)> {
    var i := Position(list, k);
    if i < |list| then Some((list[i].value, list[i].extra)) else None
  }

  function ValueOf<V, E>(x: Option<(V, E)>): Option<V> { if x.Some? then Some(x.value.0) else None }

  lemma StepPairAt<K, V, E>(list: seq<Entry<K, V, E>>, op: Op<K, V, E>, k: K)
    requires DistinctKeys(list)
    ensures PairAt(ListStep(list, op), k) == PairStep(PairAt(list, k), op, k)
  {
    var i := Position(list, op.key);
    match op
    case Put(key, v, e) =>
      if i < |list| { PositionAfterUpdate(list, i, Entry(key, v, e), k); } else { PositionAfterAppend(list, Entry(key, v, e), k); }
    case Drop(key) => WithoutIs(list, key, k);
    case Patch(key, p) => if i < |list| { PositionAfterUpdate(list, i, list[i].(value := p(list[i].value)), k); }
    case Retune(key, e) => if i < |list| { PositionAfterUpdate(list, i, list[i].(extra := e), k); }
  }

  lemma {:induction false} AfterDistinct<K, V, E>(list: seq<Entry<K, V, E>>, ops: seq<Op<K, V, E>>)
    requires DistinctKeys(list)
    ensures DistinctKeys(ListAfter(list, ops))
  {
    if ops != [] {
      AfterDistinct(list, ops[..|ops| - 1]);
      StepDistinct(ListAfter(list, ops[..|ops| - 1]), ops[|ops| - 1]);
    }
  }

  lemma {:induction false} PairAfterAt<K, V, E>(list: seq<Entry<K, V, E>>, ops: seq<Op<K, V, E>>, k: K)
    requires DistinctKeys(list)
    ensures PairAt(ListAfter(list, ops), k) == PairAfter(PairAt(list, k), ops, k)
  {
    if ops != [] {
      PairAfterAt(list, ops[..|ops| - 1], k);
      AfterDistinct(list, ops[..|ops| - 1]);
      StepPairAt(ListAfter(list, ops[..|ops| - 1]), ops[|ops| - 1], k);
    }
  }

  lemma {:induction false} ValueAfter<K, V, E>(x: Option<(V, E)>, ops: seq<Op<K, V, E>>, k: K)
    ensures ValueOf(PairAfter(x, ops, k)) == AfterAt(ValueOf(x), ops, k)
  {
    if ops != [] { ValueAfter(x, ops[..|ops| - 1], k); }
  }

  lemma {:induction false} DecidedForgetsPair<K, V, E>(x: Option<(V, E)>, y: Option<(V, E)>, ops: seq<Op<K, V, E>>, k: K)
    requires Decided(ops, k)
    ensures PairAfter(x, ops, k) == PairAfter(y, ops, k)
  {
    var front, op := ops[..|ops| - 1], ops[|ops| - 1];
    if !(op.key == k && (op.Put? || op.Drop?)) {
      var i :| 0 <= i < |ops| && ops[i].key == k && (ops[i].Put? || ops[i].Drop?);
      assert front[i] == ops[i];
      DecidedForgetsPair(x, y, front, k);
    }
  }

  /** The last retuning of a key that is neither put nor dropped. */
  function LastTune<K(==), V, E>(ops: seq<Op<K, V, E>>, k: K): Option<E> {
    if ops == [] then None
    else if ops[|ops| - 1].key == k && ops[|ops| - 1].Retune? then Some(ops[|ops| - 1].extra)
    else LastTune(ops[..|ops| - 1], k)
  }

  lemma {:induction false} UndecidedTunes<K, V, E>(x: Option<(V, E)>, ops: seq<Op<K, V, E>>, k: K)
    requires !Decided(ops, k)
    ensures PairAfter(x, ops, k).Some? <==> x.Some?
    ensures x.Some? ==> PairAfter(x, ops, k).value.1 == if LastTune(ops, k).Some? then LastTune(ops, k).value else x.value.1
  {
    if ops != [] {
      var front := ops[..|ops| - 1];
      assert !Decided(front, k) by { assert forall i | 0 <= i < |front| :: front[i] == ops[i]; }
      assert !(ops[|ops| - 1].key == k && (ops[|ops| - 1].Put? || ops[|ops| - 1].Drop?));
      UndecidedTunes(x, front, k);
    }
  }

  lemma PairSettles<K, V(!new), E>(x: Option<(V, E)>, ops: seq<Op<K, V, E>>, k: K)
    requires LastPatchWins(ops)
    ensures PairAfter(PairAfter(x, ops, k), ops, k) == PairAfter(x, ops, k)
  {
    if Decided(ops, k) {
      DecidedForgetsPair(x, PairAfter(x, ops, k), ops, k);
    } else {
      assert ops[..|ops|] == ops;
      UndecidedSettles(ValueOf(x), ops, k, ops, |ops|);
      ValueAfter(x, ops, k);
      ValueAfter(PairAfter(x, ops, k), ops, k);
      UndecidedTunes(x, ops, k);
      UndecidedTunes(PairAfter(x, ops, k), ops, k);
    }
  }

  /** Two lists with the same keys in the same order that hold the same are the same. */
  lemma SameKeysSameList<K, V, E>(a: seq<Entry<K, V, E>>, b: seq<Entry<K, V, E>>)
    requires DistinctKeys(a) && DistinctKeys(b) && Keys(a) == Keys(b)
    requires forall i | 0 <= i < |a| :: PairAt(a, a[i].key) == PairAt(b, a[i].key)
    ensures a == b
  {
    forall i | 0 <= i < |a| ensures a[i] == b[i] {
      assert a[i].key == Keys(a)[i] == Keys(b)[i] == b[i].key;
      PositionIs(a, i);
      PositionIs(b, i);
    }
  }

  lemma PositionIs<K, V, E>(list: seq<Entry<K, V, E>>, i: nat)
    requires DistinctKeys(list) && i < |list|
    ensures Position(list, list[i].key) == i
  {
    assert Position(list, list[i].key) <= i;
  }

  /** The operations once more leave the list as it is, order included, if and only if every key
      that they drop and put again stands behind every key that they never drop. */
  lemma AgainIsSameIff<K, V(!new), E>(list: seq<Entry<K, V, E>>, ops: seq<Op<K, V, E>>)
    requires DistinctKeys(list) && LastPatchWins(ops)
    ensures ListAfter(ListAfter(list, ops), ops) == ListAfter(list, ops) <==> Behind(Keys(ListAfter(list, ops)), Drops(ops))
  {
    var once := ListAfter(list, ops);
    var twice := ListAfter(once, ops);
    KeysOfAfter(list, ops);
    KeysOfAfter(once, ops);
    AgainPartitions(Keys(list), ops);
    PartitionIsSameIff(Keys(once), Drops(ops));
    if Keys(twice) == Keys(once) {
      AfterDistinct(list, ops);
      AfterDistinct(once, ops);
      forall i | 0 <= i < |twice| ensures PairAt(twice, twice[i].key) == PairAt(once, twice[i].key) {
        PairAfterAt(list, ops, twice[i].key);
        PairAfterAt(once, ops, twice[i].key);
        PairSettles(PairAt(list, twice[i].key), ops, twice[i].key);
      }
      SameKeysSameList(twice, once);
    }
  }
}
