/** A whole pass of src/scripts/snapshot-balances.ts: the pages, the absent pairs, and what the
    pairs of the maps it read, named by account and asset, hold afterwards. */
module BalanceSweep {
  import opened Wrappers
  import opened BalanceReconcile
  import opened ReconcileProofs

  // ---------------------------------------------------------------- the absent pairs, by name

  /** The map that holds the asset was read: `System.Account` for "0", `Tokens.Accounts` for any other. */
  ghost predicate WasRead(scope: Scope, asset: string) {
    (asset == "0" ==> scope.native) && (asset != "0" ==> scope.tokens)
  }

  /** Projected with some balance no later than the anchor, and not met in storage. */
  ghost predicate Vanished(p: Projection, anchor: int, seen: set<Key>, key: Key) {
    key in p && key !in seen && p[key].lastBlock <= anchor && p[key].sig.text != "0|0|0"
  }

  lemma ReadsWhatWasRead(scope: Scope, account: string, asset: string)
    requires '|' !in asset
    ensures SplitKey(Key(account + "|" + asset)) == (account, asset)
    ensures Reads(scope)(Key(account + "|" + asset)) <==> WasRead(scope, asset)
  {
    KeyRoundTrips(account, asset);
  }

  /** A pair is named absent exactly when it vanished and its own map was read. */
  lemma AbsentPairsAre(p: Projection, anchor: int, seen: set<Key>, scope: Scope, order: seq<Key>, account: string, asset: string)
    requires (forall k :: k in order <==> k in p) && (forall k | k in p :: '|' in k.text) && '|' !in asset
    ensures (account, asset) in Pairs(AbsentKeys(p, anchor, seen, Reads(scope), order))
       <==> Vanished(p, anchor, seen, Key(account + "|" + asset)) && WasRead(scope, asset)
  {
    var key, absent := Key(account + "|" + asset), AbsentKeys(p, anchor, seen, Reads(scope), order);
    ReadsWhatWasRead(scope, account, asset);
    AbsentKeysAre(p, anchor, seen, Reads(scope), order, key);
    if key in absent {
      var i :| 0 <= i < |absent| && absent[i] == key;
      PairAt(absent, i);
      assert Pairs(absent)[i] == (account, asset);
    }
    if (account, asset) in Pairs(absent) {
      var i :| 0 <= i < |absent| && Pairs(absent)[i] == (account, asset);
      PairAt(absent, i);
      assert absent[i] in absent;
      AbsentKeysAre(p, anchor, seen, Reads(scope), order, absent[i]);
      SplitRejoins(absent[i]);
    }
  }

  // ---------------------------------------------------------------- the kept rows, field by field

  /** A storage row is kept exactly when its pair was not observed above the anchor and the
      projection holds no text of its three fields, in this order, for it. */
  lemma KeptIff(p: Projection, anchor: int, rows: seq<Row>, account: string, asset: string, total: string, free: string, reserved: string)
    ensures var key, row := Key(account + "|" + asset), Row(account, asset, Some(total), Some(free), Some(reserved));
            row in Kept(p, anchor, rows)
            <==> row in rows && (key in p ==> p[key].lastBlock <= anchor && p[key].sig.text != total + "|" + free + "|" + reserved)
  {
    var row := Row(account, asset, Some(total), Some(free), Some(reserved));
    KeptAre(p, anchor, rows, row);
    assert total + "|" + (free + "|" + reserved) == total + "|" + free + "|" + reserved;
  }

  // ---------------------------------------------------------------- the counters

  function Above(p: Projection, anchor: int): Row -> bool {
    (row: Row) => var key := Key(row.account + "|" + row.asset); key in p && p[key].lastBlock > anchor
  }

  function Same(p: Projection, anchor: int): Row -> bool {
    (row: Row) => var key := Key(row.account + "|" + row.asset); key in p && p[key].lastBlock <= anchor && p[key].sig == SignatureOf(row)
  }

  function Unprojected(p: Projection): Row -> bool {
    (row: Row) => Key(row.account + "|" + row.asset) !in p
  }

  function Changing(p: Projection, anchor: int): Row -> bool {
    (row: Row) => var key := Key(row.account + "|" + row.asset); key in p && p[key].lastBlock <= anchor && p[key].sig != SignatureOf(row)
  }

  function HowMany(rows: seq<Row>, wanted: Row -> bool): nat {
    if rows == [] then 0 else HowMany(rows[..|rows| - 1], wanted) + if wanted(rows[|rows| - 1]) then 1 else 0
  }

  /** Each counter of `filter` rises by the rows of its own kind. */
  lemma {:induction false} CountsByKind(p: Projection, anchor: int, s: Stats, rows: seq<Row>)
    ensures var t := Tally(p, anchor, s, rows);
            && t.superseded == s.superseded + HowMany(rows, Above(p, anchor))
            && t.same == s.same + HowMany(rows, Same(p, anchor))
            && t.missing == s.missing + HowMany(rows, Unprojected(p))
            && t.changed == s.changed + HowMany(rows, Changing(p, anchor))
  {
    if rows != [] { CountsByKind(p, anchor, s, rows[..|rows| - 1]); }
  }

  ghost predicate CountsAre(t: Stats, p: Projection, anchor: int, rows: seq<Row>) {
    && t.compared == |rows|
    && t.superseded == HowMany(rows, Above(p, anchor)) && t.same == HowMany(rows, Same(p, anchor))
    && t.missing == HowMany(rows, Unprojected(p)) && t.changed == HowMany(rows, Changing(p, anchor))
  }

  /** The examples are the first diffs there is room for, each with what both sides hold. */
  lemma {:induction false} ExamplesAre(p: Projection, anchor: int, examples: seq<Example>, limit: nat, rows: seq<Row>)
    requires |examples| <= limit
    ensures var kept, r := Kept(p, anchor, rows), FilterExamples(p, anchor, examples, limit, rows);
            && |examples| <= |r| && |r| == (if |examples| + |kept| <= limit then |examples| + |kept| else limit)
            && (forall i | 0 <= i < |examples| :: r[i] == examples[i])
            && (forall i | |examples| <= i < |r| :: Illustrates(r[i], p, kept[i - |examples|]))
  {
    if rows != [] { ExamplesAre(p, anchor, examples, limit, rows[..|rows| - 1]); }
  }

  /** An absent pair's example shows what the projection holds against nothing in storage. */
  lemma {:induction false} AbsentExamplesAre(p: Projection, examples: seq<Example>, limit: nat, keys: seq<Key>)
    requires |examples| <= limit && forall k | k in keys :: k in p && '|' in k.text
    ensures var r := AbsentExamples(p, examples, limit, keys);
            && |examples| <= |r| && |r| == (if |examples| + |keys| <= limit then |examples| + |keys| else limit)
            && (forall i | 0 <= i < |examples| :: r[i] == examples[i])
            && (forall i | |examples| <= i < |r| :: IllustratesAbsence(r[i], p, keys[i - |examples|]))
  {
    if keys != [] {
      AbsentExamplesAre(p, examples, limit, keys[..|keys| - 1]);
      SplitRejoins(keys[|keys| - 1]);
    }
  }

  ghost predicate IllustratesAbsence(e: Example, p: Projection, key: Key)
    requires key in p
  {
    e.kind == Absent && key == Key(e.account + "|" + e.asset) && e.projected == Some(p[key]) && e.storage.text == "0|0|0"
  }

  ghost predicate Illustrates(e: Example, p: Projection, row: Row) {
    && e.account == row.account && e.asset == row.asset && e.storage == SignatureOf(row)
    && (Key(row.account + "|" + row.asset) !in p ==> e.kind == Missing && e.projected == None)
    && (Key(row.account + "|" + row.asset) in p ==> e.kind == Changed && e.projected == Some(p[Key(row.account + "|" + row.asset)]))
  }

  // ---------------------------------------------------------------- what a pass leaves behind

  /** After the pass, for every account and asset: a pair newer than the anchor, or of a map that
      was not read, is as before; any other reads as storage does. */
  ghost predicate Reconciles(p: Projection, anchor: int, scope: Scope, rows: seq<Row>, q: Projection) {
    forall account, asset | '|' !in asset :: Reconciled(p, anchor, scope, rows, q, account, asset)
  }

  ghost predicate Reconciled(p: Projection, anchor: int, scope: Scope, rows: seq<Row>, q: Projection, account: string, asset: string) {
    var key := Key(account + "|" + asset);
    if key in p && p[key].lastBlock > anchor then key in q && q[key] == p[key]
    else if WasRead(scope, asset) then ReadsAsStorage(rows, q, anchor, key)
    else !Names(rows, key) ==> (key in q <==> key in p) && (key in p ==> q[key] == p[key])
  }

  /** The row's balance where storage has one; zero, or nothing at all, where it has none. */
  ghost predicate ReadsAsStorage(rows: seq<Row>, q: Projection, anchor: int, key: Key) {
    && (forall i {:trigger rows[i]} | 0 <= i < |rows| && KeyOf(rows[i]) == key :: key in q && q[key].sig == SignatureOf(rows[i]))
    && (!Names(rows, key) && key in q ==> q[key].sig.text == "0|0|0")
    && (key in q ==> q[key].lastBlock <= anchor)
  }

  lemma SweepReconciles(p: Projection, order: seq<Key>, anchor: int, scope: Scope, rows: seq<Row>)
    requires IsPass(p, order, rows)
    ensures Reconciles(p, anchor, scope, rows, Applied(p, anchor, Written(p, order, anchor, Reads(scope), rows)))
  {
    forall account, asset | '|' !in asset
      ensures Reconciled(p, anchor, scope, rows, Applied(p, anchor, Written(p, order, anchor, Reads(scope), rows)), account, asset)
    {
      PairReconciles(p, order, anchor, scope, rows, account, asset);
    }
  }

  lemma PairReconciles(p: Projection, order: seq<Key>, anchor: int, scope: Scope, rows: seq<Row>, account: string, asset: string)
    requires IsPass(p, order, rows) && '|' !in asset
    ensures Reconciled(p, anchor, scope, rows, Applied(p, anchor, Written(p, order, anchor, Reads(scope), rows)), account, asset)
  {
    var key := Key(account + "|" + asset);
    if Superseding(p, anchor, key) {
      SupersededIsKept(p, anchor, Written(p, order, anchor, Reads(scope), rows), key);
    } else if WasRead(scope, asset) {
      SweepConverges(p, order, anchor, scope, rows, account, asset);
    } else if !Names(rows, key) {
      SweepKeepsOutOfScope(p, order, anchor, scope, rows, account, asset);
    }
  }

  /** A pair of a map that was read and not observed above the anchor reads as storage does. */
  lemma SweepConverges(p: Projection, order: seq<Key>, anchor: int, scope: Scope, rows: seq<Row>, account: string, asset: string)
    requires IsPass(p, order, rows) && '|' !in asset && WasRead(scope, asset)
    requires Key(account + "|" + asset) in p ==> p[Key(account + "|" + asset)].lastBlock <= anchor
    ensures ReadsAsStorage(rows, Applied(p, anchor, Written(p, order, anchor, Reads(scope), rows)), anchor, Key(account + "|" + asset))
  {
    var key := Key(account + "|" + asset);
    ReadsWhatWasRead(scope, account, asset);
    if Names(rows, key) {
      var i :| 0 <= i < |rows| && KeyOf(rows[i]) == key;
      PassConverges(p, order, anchor, Reads(scope), rows, key, SignatureOf(rows[i]));
    } else {
      PassConverges(p, order, anchor, Reads(scope), rows, key, ZERO_SIGNATURE);
    }
  }

  /** A pair of a map that was not read, and that no page names, is untouched. */
  lemma SweepKeepsOutOfScope(p: Projection, order: seq<Key>, anchor: int, scope: Scope, rows: seq<Row>, account: string, asset: string)
    requires IsPass(p, order, rows) && '|' !in asset && !WasRead(scope, asset) && !Names(rows, Key(account + "|" + asset))
    ensures var q, key := Applied(p, anchor, Written(p, order, anchor, Reads(scope), rows)), Key(account + "|" + asset);
            (key in q <==> key in p) && (key in p ==> q[key] == p[key])
  {
    var key := Key(account + "|" + asset);
    ReadsWhatWasRead(scope, account, asset);
    forall row | row in rows ensures KeyOf(row) != key {
      var i :| 0 <= i < |rows| && rows[i] == row;
    }
    OutOfScopeIsKept(p, order, anchor, Reads(scope), rows, key);
  }

  // ---------------------------------------------------------------- the pass

  function Flatten(pages: seq<seq<Row>>): seq<Row> {
    if pages == [] then [] else Flatten(pages[..|pages| - 1]) + pages[|pages| - 1]
  }

  /** A whole pass, page by page and then the absent pairs: it writes one row per diff it counts,
      counts every row under its kind, and leaves the projection as storage has it. */
  method Sweep(r: BalanceReconciler, pages: seq<seq<Row>>, scope: Scope) returns (written: seq<Row>)
    requires r.Valid() && r.seen == {} && r.stats == Stats(0, 0, 0, 0, 0, 0)
    modifies r
    ensures SweptAs(r.projection, r.order, r.anchorBlock, scope, Flatten(pages), written, r.stats)
  {
    ghost var p, order, anchor, rows := r.projection, r.order, r.anchorBlock, Flatten(pages);
    written := FilterPages(r, pages);
    var absent := r.AbsentPairs(scope);
    PassIs(p, order, anchor, scope, rows, written, absent, r.stats);
    written := written + ZeroRows(absent);
  }

  ghost predicate SweptAs(p: Projection, order: seq<Key>, anchor: int, scope: Scope, rows: seq<Row>, written: seq<Row>, t: Stats) {
    && written == Written(p, order, anchor, Reads(scope), rows)
    && CountsAre(t, p, anchor, rows) && Balanced(t) && t.changed + t.missing + t.absent == |written|
    && (IsPass(p, order, rows) ==> Reconciles(p, anchor, scope, rows, Applied(p, anchor, written)))
  }

  lemma PassIs(p: Projection, order: seq<Key>, anchor: int, scope: Scope, rows: seq<Row>, kept: seq<Row>, absent: seq<(string, string)>, t: Stats)
    requires kept == Kept(p, anchor, rows) && absent == Pairs(AbsentKeys(p, anchor, Keys(rows), Reads(scope), order))
    requires var s := Tally(p, anchor, Stats(0, 0, 0, 0, 0, 0), rows); t == s.(absent := s.absent + |absent|)
    ensures SweptAs(p, order, anchor, scope, rows, kept + ZeroRows(absent), t)
  {
    PassCounts(p, anchor, rows);
    if IsPass(p, order, rows) { SweepReconciles(p, order, anchor, scope, rows); }
  }

  lemma PassCounts(p: Projection, anchor: int, rows: seq<Row>)
    ensures var t := Tally(p, anchor, Stats(0, 0, 0, 0, 0, 0), rows);
            && Balanced(t) && CountsAre(t, p, anchor, rows)
            && t.absent == 0 && t.changed + t.missing == |Kept(p, anchor, rows)|
  {
    CountsAddUp(p, anchor, Stats(0, 0, 0, 0, 0, 0), rows);
    CountsByKind(p, anchor, Stats(0, 0, 0, 0, 0, 0), rows);
  }

  method FilterPages(r: BalanceReconciler, pages: seq<seq<Row>>) returns (written: seq<Row>)
    requires r.Valid() && r.seen == {}
    modifies r
    ensures r.Valid() && written == Kept(r.projection, r.anchorBlock, Flatten(pages))
    ensures r.stats == Tally(r.projection, r.anchorBlock, old(r.stats), Flatten(pages)) && r.seen == Keys(Flatten(pages))
  {
    written := [];
    ghost var s := r.stats;
    for i := 0 to |pages|
      invariant r.Valid() && written == Kept(r.projection, r.anchorBlock, Flatten(pages[..i]))
      invariant r.stats == Tally(r.projection, r.anchorBlock, s, Flatten(pages[..i]))
      invariant r.seen == Keys(Flatten(pages[..i]))
    {
      assert pages[..i + 1][..i] == pages[..i];
      PagesConcatenate(r.projection, r.anchorBlock, s, Flatten(pages[..i]), pages[i]);
      var kept := r.Filter(pages[i]);
      written := written + kept;
    }
    assert pages[..|pages|] == pages;
  }
}
