/** What a pass of the diff-only balance sweep guarantees. */
module ReconcileProofs {
  import opened Wrappers
  import opened BalanceReconcile

  // ---------------------------------------------------------------- keys

  lemma {:induction false} LastBarAt(prefix: string, suffix: string)
    requires '|' !in suffix
    ensures LastBar(prefix + "|" + suffix) == |prefix|
  {
    var key := prefix + "|" + suffix;
    if suffix != "" {
      assert key[..|key| - 1] == prefix + "|" + suffix[..|suffix| - 1];
      LastBarAt(prefix, suffix[..|suffix| - 1]);
    }
  }

  lemma {:induction false} LastBarIsLast(key: string)
    ensures '|' !in key[LastBar(key) + 1..]
    ensures LastBar(key) >= 0 ==> key[LastBar(key)] == '|'
    ensures LastBar(key) < 0 ==> '|' !in key
  {
    if key != "" && key[|key| - 1] != '|' {
      var front := key[..|key| - 1];
      LastBarIsLast(front);
      assert key[LastBar(key) + 1..] == front[LastBar(front) + 1..] + [key[|key| - 1]];
      assert key == front + [key[|key| - 1]];
    }
  }

  /** A pair survives the key and its split exactly when the asset id holds no bar. */
  lemma KeyRoundTrips(account: string, asset: string)
    ensures SplitKey(PairKey(account, asset)) == (account, asset) <==> '|' !in asset
  {
    var text := account + "|" + asset;
    LastBarIsLast(text);
    assert text[..|account|] == account && text[|account| + 1..] == asset;
    if '|' !in asset { LastBarAt(account, asset); }
  }

  /** Splitting and joining returns any key that has a bar. */
  lemma SplitRejoins(key: Key)
    requires '|' in key.text
    ensures PairKey(SplitKey(key).0, SplitKey(key).1) == key
  {
    LastBarIsLast(key.text);
    var i := LastBar(key.text);
    assert key.text == key.text[..i] + "|" + key.text[i + 1..];
  }

  lemma BarFollows(a: string, b: string, c: string, d: string)
    requires a + "|" + b == c + "|" + d && '|' !in a
    ensures |a| <= |c|
  {
    assert (c + "|" + d)[|c|] == '|';
    assert forall i | 0 <= i < |a| :: (a + "|" + b)[i] == a[i] && a[i] in a;
  }

  lemma BarsAlign(a: string, b: string, c: string, d: string)
    requires a + "|" + b == c + "|" + d && '|' !in a && '|' !in c
    ensures a == c && b == d
  {
    BarFollows(a, b, c, d);
    BarFollows(c, d, a, b);
    var l, r := a + "|" + b, c + "|" + d;
    assert l[..|a|] == a && r[..|c|] == c;
    assert l[|a| + 1..] == b && r[|c| + 1..] == d;
  }

  /** Equal signatures mean equal balances, a missing field counting as an empty one. */
  lemma SignatureTellsBalances(x: Row, y: Row)
    requires '|' !in OrEmpty(x.total) && '|' !in OrEmpty(x.free) && '|' !in OrEmpty(y.total) && '|' !in OrEmpty(y.free)
    ensures SignatureOf(x) == SignatureOf(y)
       <==> OrEmpty(x.total) == OrEmpty(y.total) && OrEmpty(x.free) == OrEmpty(y.free) && OrEmpty(x.reserved) == OrEmpty(y.reserved)
  {
    if SignatureOf(x) == SignatureOf(y) {
      BarsAlign(OrEmpty(x.total), OrEmpty(x.free) + "|" + OrEmpty(x.reserved), OrEmpty(y.total), OrEmpty(y.free) + "|" + OrEmpty(y.reserved));
      BarsAlign(OrEmpty(x.free), OrEmpty(x.reserved), OrEmpty(y.free), OrEmpty(y.reserved));
    }
  }

  // ---------------------------------------------------------------- counting

  predicate Balanced(s: Stats) { s.compared == s.same + s.superseded + s.changed + s.missing }

  /** Every compared row is counted under exactly one verdict, and `filter` finds nothing absent. */
  lemma {:induction false} CountsAddUp(p: Projection, anchor: int, s: Stats, rows: seq<Row>)
    requires Balanced(s)
    ensures var t := Tally(p, anchor, s, rows);
            && Balanced(t) && t.compared == s.compared + |rows| && t.absent == s.absent
            && t.changed + t.missing == s.changed + s.missing + |Kept(p, anchor, rows)|
  {
    if rows != [] { CountsAddUp(p, anchor, s, rows[..|rows| - 1]); }
  }

  lemma {:induction false} KeptOfPages(p: Projection, anchor: int, page: seq<Row>, next: seq<Row>)
    ensures Kept(p, anchor, page + next) == Kept(p, anchor, page) + Kept(p, anchor, next)
  {
    if next == [] {
      assert page + next == page;
    } else {
      KeptOfPages(p, anchor, page, next[..|next| - 1]);
      assert (page + next)[..|page + next| - 1] == page + next[..|next| - 1];
    }
  }

  lemma {:induction false} TallyOfPages(p: Projection, anchor: int, s: Stats, page: seq<Row>, next: seq<Row>)
    ensures Tally(p, anchor, s, page + next) == Tally(p, anchor, Tally(p, anchor, s, page), next)
  {
    if next == [] {
      assert page + next == page;
    } else {
      TallyOfPages(p, anchor, s, page, next[..|next| - 1]);
      assert (page + next)[..|page + next| - 1] == page + next[..|next| - 1];
    }
  }

  lemma KeysOfPages(page: seq<Row>, next: seq<Row>)
    ensures Keys(page + next) == Keys(page) + Keys(next)
  {
    var all := page + next;
    forall k ensures k in Keys(all) <==> k in Keys(page) || k in Keys(next) {
      if k in Keys(page) {
        var i :| 0 <= i < |page| && KeyOf(page[i]) == k;
        assert all[i] == page[i];
      }
      if k in Keys(next) {
        var i :| 0 <= i < |next| && KeyOf(next[i]) == k;
        assert all[|page| + i] == next[i];
      }
    }
  }

  /** Paging does not matter: filtering two pages is filtering their concatenation. */
  lemma PagesConcatenate(p: Projection, anchor: int, s: Stats, page: seq<Row>, next: seq<Row>)
    ensures Kept(p, anchor, page + next) == Kept(p, anchor, page) + Kept(p, anchor, next)
    ensures Tally(p, anchor, s, page + next) == Tally(p, anchor, Tally(p, anchor, s, page), next)
    ensures Keys(page + next) == Keys(page) + Keys(next)
  {
    KeptOfPages(p, anchor, page, next);
    TallyOfPages(p, anchor, s, page, next);
    KeysOfPages(page, next);
  }

  // ---------------------------------------------------------------- applying rows

  ghost predicate Names(rows: seq<Row>, key: Key) { exists i :: 0 <= i < |rows| && KeyOf(rows[i]) == key }

  /** Repeated reads of one pair at one block agree. */
  ghost predicate Agree(rows: seq<Row>, key: Key, sig: Signature) {
    forall i {:trigger rows[i]} | 0 <= i < |rows| && KeyOf(rows[i]) == key :: SignatureOf(rows[i]) == sig
  }

  lemma {:induction false} SupersededIsKept(p: Projection, anchor: int, written: seq<Row>, key: Key)
    requires Superseding(p, anchor, key)
    ensures key in Applied(p, anchor, written) && Applied(p, anchor, written)[key] == p[key]
  {
    if written != [] { SupersededIsKept(p, anchor, written[..|written| - 1], key); }
  }

  lemma NamesGrow(rows: seq<Row>, key: Key)
    requires rows != []
    ensures Names(rows, key) <==> Names(rows[..|rows| - 1], key) || KeyOf(rows[|rows| - 1]) == key
  {
    var front := rows[..|rows| - 1];
    if Names(front, key) {
      var i :| 0 <= i < |front| && KeyOf(front[i]) == key;
      assert rows[i] == front[i];
    }
    if Names(rows, key) && KeyOf(rows[|rows| - 1]) != key {
      var i :| 0 <= i < |rows| && KeyOf(rows[i]) == key;
      assert rows[i] == front[i];
    }
  }

  lemma {:induction false} UnnamedIsKept(p: Projection, anchor: int, written: seq<Row>, key: Key)
    requires !Names(written, key)
    ensures key in Applied(p, anchor, written) <==> key in p
    ensures key in p ==> Applied(p, anchor, written)[key] == p[key]
  {
    if written != [] {
      var front := written[..|written| - 1];
      assert Names(front, key) ==> Names(written, key) by { NamesGrow(written, key); }
      UnnamedIsKept(p, anchor, front, key);
    }
  }

  lemma {:induction false} NamedIsTaken(p: Projection, anchor: int, written: seq<Row>, key: Key, sig: Signature)
    requires !Superseding(p, anchor, key) && Names(written, key) && Agree(written, key, sig)
    ensures key in Applied(p, anchor, written) && Applied(p, anchor, written)[key] == Projected(sig, anchor)
  {
    var front, row := written[..|written| - 1], written[|written| - 1];
    if Names(front, key) {
      NamedIsTaken(p, anchor, front, key, sig);
    } else {
      NamesGrow(written, key);
      UnnamedIsKept(p, anchor, front, key);
    }
  }

  // ---------------------------------------------------------------- what is written

  lemma {:induction false} AbsentKeysAre(p: Projection, anchor: int, seen: set<Key>, inScope: Key -> bool, order: seq<Key>, key: Key)
    ensures key in AbsentKeys(p, anchor, seen, inScope, order) <==> key in order && IsAbsent(p, anchor, seen, inScope, key)
  {
    if order != [] {
      AbsentKeysAre(p, anchor, seen, inScope, order[..|order| - 1], key);
      assert order == order[..|order| - 1] + [order[|order| - 1]];
    }
  }

  lemma {:induction false} KeptAre(p: Projection, anchor: int, rows: seq<Row>, row: Row)
    ensures row in Kept(p, anchor, rows) <==> row in rows && Judge(p, anchor, row).Differs?
  {
    if rows != [] {
      KeptAre(p, anchor, rows[..|rows| - 1], row);
      assert rows == rows[..|rows| - 1] + [rows[|rows| - 1]];
    }
  }

  /** One pass: the projection it read, its anchor, and every storage row of the maps in scope.
      Keys come from `pairKey`, so they hold a bar. */
  ghost predicate IsPass(p: Projection, order: seq<Key>, rows: seq<Row>) {
    && (forall k :: k in order <==> k in p)
    && (forall k | k in p :: '|' in k.text)
    && (forall i, j {:trigger rows[i], rows[j]} | 0 <= i < |rows| && 0 <= j < |rows| && KeyOf(rows[i]) == KeyOf(rows[j]) ::
          SignatureOf(rows[i]) == SignatureOf(rows[j]))
  }

  lemma ZeroRowsAre(p: Projection, anchor: int, seen: set<Key>, inScope: Key -> bool, order: seq<Key>, i: nat)
    requires forall k | k in p :: '|' in k.text
    requires i < |AbsentKeys(p, anchor, seen, inScope, order)|
    ensures var row := ZeroRows(Pairs(AbsentKeys(p, anchor, seen, inScope, order)))[i];
            && KeyOf(row) == AbsentKeys(p, anchor, seen, inScope, order)[i]
            && IsAbsent(p, anchor, seen, inScope, KeyOf(row)) && SignatureOf(row) == ZERO_SIGNATURE
  {
    var key := AbsentKeys(p, anchor, seen, inScope, order)[i];
    assert key in AbsentKeys(p, anchor, seen, inScope, order);
    AbsentKeysAre(p, anchor, seen, inScope, order, key);
    SplitRejoins(key);
    PairAt(AbsentKeys(p, anchor, seen, inScope, order), i);
    ZeroRowIsZero(SplitKey(key));
  }

  lemma {:induction false} PairAt(keys: seq<Key>, i: nat)
    requires i < |keys|
    ensures Pairs(keys)[i] == SplitKey(keys[i])
  {
    if i < |keys| - 1 { PairAt(keys[..|keys| - 1], i); }
  }

  lemma ZeroRowIsZero(pair: (string, string))
    ensures KeyOf(ZeroRow(pair)) == PairKey(pair.0, pair.1) && SignatureOf(ZeroRow(pair)) == ZERO_SIGNATURE
  {
    assert "0" + "|" + ("0" + "|" + "0") == "0|0|0";
  }

  /** A written row is a storage row that differs, or a zero row for an absent pair. */
  lemma WrittenAre(p: Projection, order: seq<Key>, anchor: int, inScope: Key -> bool, rows: seq<Row>, i: nat)
    requires IsPass(p, order, rows) && i < |Written(p, order, anchor, inScope, rows)|
    ensures var row := Written(p, order, anchor, inScope, rows)[i];
            || (row in rows && Judge(p, anchor, row).Differs?)
            || (IsAbsent(p, anchor, Keys(rows), inScope, KeyOf(row)) && SignatureOf(row) == ZERO_SIGNATURE)
  {
    var kept, zeros := Kept(p, anchor, rows), ZeroRows(Pairs(AbsentKeys(p, anchor, Keys(rows), inScope, order)));
    assert Written(p, order, anchor, inScope, rows)[i] == if i < |kept| then kept[i] else zeros[i - |kept|];
    if i < |kept| {
      assert kept[i] in kept;
      KeptAre(p, anchor, rows, kept[i]);
    } else {
      ZeroRowsAre(p, anchor, Keys(rows), inScope, order, i - |kept|);
    }
  }

  /** Storage's answer for a pair: its row's signature, or zero where the sweep saw none. */
  ghost predicate StorageHolds(rows: seq<Row>, key: Key, sig: Signature) {
    if Names(rows, key) then Agree(rows, key, sig) else sig == ZERO_SIGNATURE
  }

  lemma AbsentIsUnnamed(rows: seq<Row>, key: Key)
    ensures key in Keys(rows) <==> Names(rows, key)
  {
  }

  /** What is written about one pair never disagrees with storage. */
  lemma WrittenAgrees(p: Projection, order: seq<Key>, anchor: int, inScope: Key -> bool, rows: seq<Row>, key: Key, sig: Signature)
    requires IsPass(p, order, rows) && StorageHolds(rows, key, sig)
    ensures Agree(Written(p, order, anchor, inScope, rows), key, sig)
  {
    var written := Written(p, order, anchor, inScope, rows);
    forall i | 0 <= i < |written| && KeyOf(written[i]) == key ensures SignatureOf(written[i]) == sig {
      WrittenAre(p, order, anchor, inScope, rows, i);
      AbsentIsUnnamed(rows, key);
      if written[i] in rows {
        var j :| 0 <= j < |rows| && rows[j] == written[i];
      }
    }
  }

  /** A pair is written exactly when the projection, as of the anchor, differs from storage. */
  lemma WrittenIffDifferent(p: Projection, order: seq<Key>, anchor: int, inScope: Key -> bool, rows: seq<Row>, key: Key, sig: Signature)
    requires IsPass(p, order, rows) && inScope(key) && StorageHolds(rows, key, sig)
    ensures Names(Written(p, order, anchor, inScope, rows), key)
       <==> !Superseding(p, anchor, key) && (if key in p then p[key].sig != sig else Names(rows, key))
  {
    var written := Written(p, order, anchor, inScope, rows);
    AbsentIsUnnamed(rows, key);
    if Names(written, key) {
      var i :| 0 <= i < |written| && KeyOf(written[i]) == key;
      WrittenAre(p, order, anchor, inScope, rows, i);
      if written[i] in rows {
        var j :| 0 <= j < |rows| && rows[j] == written[i];
        assert Names(rows, key);
      }
    }
    if !Superseding(p, anchor, key) && (if key in p then p[key].sig != sig else Names(rows, key)) {
      if Names(rows, key) { DifferentIsWritten(p, order, anchor, inScope, rows, key, sig); }
      else { AbsentIsWritten(p, order, anchor, inScope, rows, key); }
    }
  }

  lemma DifferentIsWritten(p: Projection, order: seq<Key>, anchor: int, inScope: Key -> bool, rows: seq<Row>, key: Key, sig: Signature)
    requires Names(rows, key) && Agree(rows, key, sig) && !Superseding(p, anchor, key) && (key in p ==> p[key].sig != sig)
    ensures Names(Written(p, order, anchor, inScope, rows), key)
  {
    var j :| 0 <= j < |rows| && KeyOf(rows[j]) == key;
    KeptAre(p, anchor, rows, rows[j]);
    var kept := Kept(p, anchor, rows);
    assert rows[j] in kept;
    var i :| 0 <= i < |kept| && kept[i] == rows[j];
    assert Written(p, order, anchor, inScope, rows)[i] == kept[i];
  }

  lemma AbsentIsWritten(p: Projection, order: seq<Key>, anchor: int, inScope: Key -> bool, rows: seq<Row>, key: Key)
    requires IsPass(p, order, rows) && IsAbsent(p, anchor, Keys(rows), inScope, key)
    ensures Names(Written(p, order, anchor, inScope, rows), key)
  {
    var absent, kept := AbsentKeys(p, anchor, Keys(rows), inScope, order), Kept(p, anchor, rows);
    AbsentKeysAre(p, anchor, Keys(rows), inScope, order, key);
    assert key in absent;
    var i :| 0 <= i < |absent| && absent[i] == key;
    ZeroRowsAre(p, anchor, Keys(rows), inScope, order, i);
    assert Written(p, order, anchor, inScope, rows)[|kept| + i] == ZeroRows(Pairs(absent))[i];
  }

  // ---------------------------------------------------------------- convergence

  ghost predicate Matches(p: Projection, rows: seq<Row>, key: Key, sig: Signature) {
    if key in p then p[key].sig == sig else !Names(rows, key)
  }

  /** After a pass every pair in scope that was not observed above the anchor reads as storage
      does, and a superseded pair reads as before. */
  lemma PassConverges(p: Projection, order: seq<Key>, anchor: int, inScope: Key -> bool, rows: seq<Row>, key: Key, sig: Signature)
    requires IsPass(p, order, rows) && inScope(key) && StorageHolds(rows, key, sig)
    ensures var q := Applied(p, anchor, Written(p, order, anchor, inScope, rows));
            if Superseding(p, anchor, key) then key in q && q[key] == p[key]
            else Matches(q, rows, key, sig) && !Superseding(q, anchor, key)
  {
    var written := Written(p, order, anchor, inScope, rows);
    if Superseding(p, anchor, key) {
      SupersededIsKept(p, anchor, written, key);
    } else if Names(written, key) {
      WrittenAgrees(p, order, anchor, inScope, rows, key, sig);
      NamedIsTaken(p, anchor, written, key, sig);
    } else {
      WrittenIffDifferent(p, order, anchor, inScope, rows, key, sig);
      UnnamedIsKept(p, anchor, written, key);
    }
  }

  /** A pair outside the maps that were read is not touched. */
  lemma OutOfScopeIsKept(p: Projection, order: seq<Key>, anchor: int, inScope: Key -> bool, rows: seq<Row>, key: Key)
    requires IsPass(p, order, rows) && !inScope(key) && forall row | row in rows :: KeyOf(row) != key
    ensures var q := Applied(p, anchor, Written(p, order, anchor, inScope, rows));
            (key in q <==> key in p) && (key in p ==> q[key] == p[key])
  {
    var written := Written(p, order, anchor, inScope, rows);
    if Names(written, key) {
      var i :| 0 <= i < |written| && KeyOf(written[i]) == key;
      WrittenAre(p, order, anchor, inScope, rows, i);
      assert false;
    } else {
      UnnamedIsKept(p, anchor, written, key);
    }
  }

  lemma {:induction false} NothingKept(p: Projection, anchor: int, rows: seq<Row>)
    requires forall row | row in rows :: !Judge(p, anchor, row).Differs?
    ensures Kept(p, anchor, rows) == []
  {
    if rows != [] {
      assert rows == rows[..|rows| - 1] + [rows[|rows| - 1]];
      NothingKept(p, anchor, rows[..|rows| - 1]);
    }
  }

  lemma NothingDiffers(p: Projection, order: seq<Key>, anchor: int, inScope: Key -> bool, rows: seq<Row>, row: Row)
    requires IsPass(p, order, rows) && row in rows && inScope(KeyOf(row))
    ensures !Judge(Applied(p, anchor, Written(p, order, anchor, inScope, rows)), anchor, row).Differs?
  {
    var i :| 0 <= i < |rows| && rows[i] == row;
    assert Names(rows, KeyOf(row));
    PassConverges(p, order, anchor, inScope, rows, KeyOf(row), SignatureOf(row));
  }

  lemma NothingIsAbsent(p: Projection, order: seq<Key>, anchor: int, inScope: Key -> bool, rows: seq<Row>, key: Key)
    requires IsPass(p, order, rows)
    ensures !IsAbsent(Applied(p, anchor, Written(p, order, anchor, inScope, rows)), anchor, Keys(rows), inScope, key)
  {
    AbsentIsUnnamed(rows, key);
    if !Names(rows, key) && inScope(key) {
      PassConverges(p, order, anchor, inScope, rows, key, ZERO_SIGNATURE);
    }
  }

  /** A second pass over the same storage, whatever order the new projection is read in, finds
      nothing changed, missing or absent. */
  lemma SecondPassIsClean(p: Projection, order: seq<Key>, anchor: int, inScope: Key -> bool, rows: seq<Row>, q: Projection, reorder: seq<Key>)
    requires IsPass(p, order, rows) && (forall row | row in rows :: inScope(KeyOf(row)))
    requires q == Applied(p, anchor, Written(p, order, anchor, inScope, rows))
    ensures Written(q, reorder, anchor, inScope, rows) == []
    ensures Tally(q, anchor, Stats(0, 0, 0, 0, 0, 0), rows).changed == 0
    ensures Tally(q, anchor, Stats(0, 0, 0, 0, 0, 0), rows).missing == 0
  {
    forall row | row in rows ensures !Judge(q, anchor, row).Differs? {
      NothingDiffers(p, order, anchor, inScope, rows, row);
    }
    forall key ensures !IsAbsent(q, anchor, Keys(rows), inScope, key) {
      NothingIsAbsent(p, order, anchor, inScope, rows, key);
    }
    NothingToDo(q, anchor, inScope, rows, reorder, Stats(0, 0, 0, 0, 0, 0));
  }

  lemma NothingToDo(q: Projection, anchor: int, inScope: Key -> bool, rows: seq<Row>, order: seq<Key>, s: Stats)
    requires forall row {:trigger Judge(q, anchor, row)} | row in rows :: !Judge(q, anchor, row).Differs?
    requires forall key {:trigger IsAbsent(q, anchor, Keys(rows), inScope, key)} :: !IsAbsent(q, anchor, Keys(rows), inScope, key)
    requires Balanced(s) && s.changed == s.missing == 0
    ensures Written(q, order, anchor, inScope, rows) == []
    ensures Tally(q, anchor, s, rows).changed == 0 && Tally(q, anchor, s, rows).missing == 0
  {
    NothingKept(q, anchor, rows);
    CountsAddUp(q, anchor, s, rows);
    NoAbsentKeys(q, anchor, Keys(rows), inScope, order);
  }

  lemma {:induction false} NoAbsentKeys(p: Projection, anchor: int, seen: set<Key>, inScope: Key -> bool, order: seq<Key>)
    requires forall key {:trigger IsAbsent(p, anchor, seen, inScope, key)} :: !IsAbsent(p, anchor, seen, inScope, key)
    ensures AbsentKeys(p, anchor, seen, inScope, order) == []
  {
    if order != [] { NoAbsentKeys(p, anchor, seen, inScope, order[..|order| - 1]); }
  }
}
