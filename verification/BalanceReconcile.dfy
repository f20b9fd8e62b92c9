/** The diff-only balance sweep, src/raw/balanceReconcile.ts, as functions of the rows alone. */
module BalanceReconcile {
  import opened Wrappers

  datatype Row = Row(account: string, asset: string, total: Option<string>, free: Option<string>, reserved: Option<string>)

  /** A pair's name in the sweep's sets and maps, and a balance's in a comparison: strings that
      are only ever compared whole. */
  datatype Key = Key(text: string)
  datatype Signature = Signature(text: string)

  datatype Projected = Projected(sig: Signature, lastBlock: int)

  type Projection = map<Key, Projected>

  datatype Scope = Scope(native: bool, tokens: bool)

  datatype Stats = Stats(compared: nat, same: nat, superseded: nat, changed: nat, missing: nat, absent: nat)

  datatype Kind = Changed | Missing | Absent

  datatype Example = Example(kind: Kind, account: string, asset: string, projected: Option<Projected>, storage: Signature)

  const NATIVE_ASSET_ID := "0"
  const ZERO_SIGNATURE := Signature("0|0|0")

  // ---------------------------------------------------------------- keys and signatures

  function OrEmpty(s: Option<string>): string { if s.Some? then s.value else "" }

  function BalanceSignature(total: Option<string>, free: Option<string>, reserved: Option<string>): Signature {
    Signature(OrEmpty(total) + "|" + (OrEmpty(free) + "|" + OrEmpty(reserved)))
  }

  function SignatureOf(row: Row): Signature { BalanceSignature(row.total, row.free, row.reserved) }

  function PairKey(account: string, asset: string): Key { Key(account + "|" + asset) }

  function KeyOf(row: Row): Key { PairKey(row.account, row.asset) }

  /** `lastIndexOf('|')`. */
  function LastBar(key: string): (i: int)
    ensures -1 <= i < |key|
  {
    if key == "" then -1 else if key[|key| - 1] == '|' then |key| - 1 else LastBar(key[..|key| - 1])
  }

  /** `slice(0, split)` and `slice(split + 1)`, where a negative end counts from the right. */
  function SplitKey(key: Key): (string, string) {
    var text, i := key.text, LastBar(key.text);
    if i >= 0 then (text[..i], text[i + 1..]) else (text[..if text == "" then 0 else |text| - 1], text)
  }

  /** Which keys belong to the storage maps that were read. */
  function Reads(scope: Scope): Key -> bool {
    key => if SplitKey(key).1 == NATIVE_ASSET_ID then scope.native else scope.tokens
  }

  // ---------------------------------------------------------------- what a sweep decides

  datatype Verdict = Superseded | Unchanged | Differs(kind: Kind)

  function Judge(p: Projection, anchor: int, row: Row): Verdict {
    if KeyOf(row) in p && p[KeyOf(row)].lastBlock > anchor then Superseded
    else if KeyOf(row) in p && p[KeyOf(row)].sig == SignatureOf(row) then Unchanged
    else Differs(if KeyOf(row) in p then Changed else Missing)
  }

  /** The rows `filter` returns. */
  function Kept(p: Projection, anchor: int, rows: seq<Row>): seq<Row> {
    if rows == [] then []
    else
      var front, row := Kept(p, anchor, rows[..|rows| - 1]), rows[|rows| - 1];
      if Judge(p, anchor, row).Differs? then front + [row] else front
  }

  function Tally(p: Projection, anchor: int, s: Stats, rows: seq<Row>): Stats {
    if rows == [] then s
    else
      var t := Tally(p, anchor, s, rows[..|rows| - 1]);
      Count(t.(compared := t.compared + 1), Judge(p, anchor, rows[|rows| - 1]))
  }

  function Count(t: Stats, v: Verdict): Stats {
    match v
    case Superseded => t.(superseded := t.superseded + 1)
    case Unchanged => t.(same := t.same + 1)
    case Differs(Changed) => t.(changed := t.changed + 1)
    case Differs(Missing) => t.(missing := t.missing + 1)
    case Differs(Absent) => t.(absent := t.absent + 1)
  }

  function Keys(rows: seq<Row>): set<Key> { set i | 0 <= i < |rows| :: KeyOf(rows[i]) }

  predicate IsAbsent(p: Projection, anchor: int, seen: set<Key>, inScope: Key -> bool, key: Key) {
    key in p && key !in seen && p[key].lastBlock <= anchor && p[key].sig != ZERO_SIGNATURE && inScope(key)
  }

  /** The keys `absentPairs` names, in the projection's order. */
  function AbsentKeys(p: Projection, anchor: int, seen: set<Key>, inScope: Key -> bool, order: seq<Key>): seq<Key> {
    if order == [] then []
    else
      var front, key := AbsentKeys(p, anchor, seen, inScope, order[..|order| - 1]), order[|order| - 1];
      if IsAbsent(p, anchor, seen, inScope, key) then front + [key] else front
  }

  function Pairs(keys: seq<Key>): (r: seq<(string, string)>)
    ensures |r| == |keys|
  {
    if keys == [] then [] else Pairs(keys[..|keys| - 1]) + [SplitKey(keys[|keys| - 1])]
  }

  /** `snapshotAbsentRows`: the storage default, which is zero in every field. */
  function ZeroRow(pair: (string, string)): Row {
    Row(pair.0, pair.1, Some("0"), Some("0"), Some("0"))
  }

  function ZeroRows(pairs: seq<(string, string)>): (r: seq<Row>)
    ensures |r| == |pairs|
  {
    seq(|pairs|, i requires 0 <= i < |pairs| => ZeroRow(pairs[i]))
  }

  /** Everything one pass writes, at its anchor block. */
  function Written(p: Projection, order: seq<Key>, anchor: int, inScope: Key -> bool, rows: seq<Row>): seq<Row> {
    Kept(p, anchor, rows) + ZeroRows(Pairs(AbsentKeys(p, anchor, Keys(rows), inScope, order)))
  }

  // ---------------------------------------------------------------- the latest-value projection

  /** The newest observation of each pair wins, and a row at the anchor wins a tie. */
  function Applied(p: Projection, anchor: int, written: seq<Row>): Projection {
    if written == [] then p
    else
      var q, row := Applied(p, anchor, written[..|written| - 1]), written[|written| - 1];
      if KeyOf(row) in q && q[KeyOf(row)].lastBlock > anchor then q
      else q[KeyOf(row) := Projected(SignatureOf(row), anchor)]
  }

  predicate Superseding(p: Projection, anchor: int, key: Key) { key in p && p[key].lastBlock > anchor }

  // ---------------------------------------------------------------- examples

  function Noted(examples: seq<Example>, limit: nat, e: Example): seq<Example> {
    if |examples| >= limit then examples else examples + [e]
  }

  function FilterExamples(p: Projection, anchor: int, examples: seq<Example>, limit: nat, rows: seq<Row>): seq<Example> {
    if rows == [] then examples
    else
      var front, row := FilterExamples(p, anchor, examples, limit, rows[..|rows| - 1]), rows[|rows| - 1];
      if Judge(p, anchor, row).Differs? then Noted(front, limit, DiffExample(p, row, Judge(p, anchor, row).kind)) else front
  }

  function DiffExample(p: Projection, row: Row, kind: Kind): Example {
    Example(kind, row.account, row.asset, if KeyOf(row) in p then Some(p[KeyOf(row)]) else None, SignatureOf(row))
  }

  function AbsentExample(p: Projection, key: Key): Example {
    Example(Absent, SplitKey(key).0, SplitKey(key).1, if key in p then Some(p[key]) else None, ZERO_SIGNATURE)
  }

  function AbsentExamples(p: Projection, examples: seq<Example>, limit: nat, keys: seq<Key>): seq<Example> {
    if keys == [] then examples
    else Noted(AbsentExamples(p, examples, limit, keys[..|keys| - 1]), limit, AbsentExample(p, keys[|keys| - 1]))
  }

  lemma AbsentStep(p: Projection, anchor: int, seen: set<Key>, inScope: Key -> bool, order: seq<Key>, i: nat)
    requires i < |order|
    ensures AbsentKeys(p, anchor, seen, inScope, order[..i + 1])
         == AbsentKeys(p, anchor, seen, inScope, order[..i]) + if IsAbsent(p, anchor, seen, inScope, order[i]) then [order[i]] else []
  {
    assert order[..i + 1][..i] == order[..i];
  }

  lemma SnocKeys(p: Projection, examples: seq<Example>, limit: nat, keys: seq<Key>, key: Key)
    ensures Pairs(keys + [key]) == Pairs(keys) + [SplitKey(key)]
    ensures AbsentExamples(p, examples, limit, keys + [key]) == Noted(AbsentExamples(p, examples, limit, keys), limit, AbsentExample(p, key))
  {
    assert (keys + [key])[..|keys|] == keys;
  }

  // ---------------------------------------------------------------- the class

  class BalanceReconciler {
    const projection: Projection
    /** The projection map's iteration order. */
    const order: seq<Key>
    const anchorBlock: int
    const maxExamples: nat
    var seen: set<Key>
    var stats: Stats
    var examples: seq<Example>

    ghost predicate Valid()
      reads this
    {
      |examples| <= maxExamples && forall k :: k in order <==> k in projection
    }

    constructor (projection: Projection, order: seq<Key>, anchorBlock: int, maxExamples: nat)
      requires forall k :: k in order <==> k in projection
      ensures Valid() && this.projection == projection && this.order == order
      ensures this.anchorBlock == anchorBlock && this.maxExamples == maxExamples
      ensures seen == {} && stats == Stats(0, 0, 0, 0, 0, 0) && examples == []
    {
      this.projection, this.order, this.anchorBlock, this.maxExamples := projection, order, anchorBlock, maxExamples;
      seen, stats, examples := {}, Stats(0, 0, 0, 0, 0, 0), [];
    }

    method Note(e: Example)
      requires Valid()
      modifies this`examples
      ensures Valid() && examples == Noted(old(examples), maxExamples, e)
    {
      if |examples| >= maxExamples {
        return;
      }
      examples := examples + [e];
    }

    method Filter(rows: seq<Row>) returns (out: seq<Row>)
      requires Valid()
      modifies this
      ensures Valid() && out == Kept(projection, anchorBlock, rows)
      ensures seen == old(seen) + Keys(rows)
      ensures stats == Tally(projection, anchorBlock, old(stats), rows)
      ensures examples == FilterExamples(projection, anchorBlock, old(examples), maxExamples, rows)
    {
      out := [];
      for i := 0 to |rows|
        invariant Valid() && out == Kept(projection, anchorBlock, rows[..i])
        invariant seen == old(seen) + Keys(rows[..i])
        invariant stats == Tally(projection, anchorBlock, old(stats), rows[..i])
        invariant examples == FilterExamples(projection, anchorBlock, old(examples), maxExamples, rows[..i])
      {
        var row := rows[i];
        assert rows[..i + 1][..i] == rows[..i];
        KeysGrow(rows, i);
        var key := PairKey(row.account, row.asset);
        seen := seen + {key};
        stats := stats.(compared := stats.compared + 1);
        if key in projection && projection[key].lastBlock > anchorBlock {
          stats := stats.(superseded := stats.superseded + 1);
          continue;
        }
        var sig := BalanceSignature(row.total, row.free, row.reserved);
        if key in projection && projection[key].sig == sig {
          stats := stats.(same := stats.same + 1);
          continue;
        }
        var kind := if key !in projection then Missing else Changed;
        stats := if kind == Missing then stats.(missing := stats.missing + 1) else stats.(changed := stats.changed + 1);
        Note(Example(kind, row.account, row.asset, if key in projection then Some(projection[key]) else None, sig));
        out := out + [row];
      }
      assert rows[..|rows|] == rows;
    }

    /** Whether a projected pair is one storage no longer holds, within the maps that were read. */
    method IsGone(key: Key, scope: Scope) returns (gone: bool)
      requires key in projection
      ensures gone == IsAbsent(projection, anchorBlock, seen, Reads(scope), key)
    {
      if key in seen || projection[key].lastBlock > anchorBlock || projection[key].sig == ZERO_SIGNATURE {
        return false;
      }
      var native := SplitKey(key).1 == NATIVE_ASSET_ID;
      if if native then !scope.native else !scope.tokens {
        return false;
      }
      return true;
    }

    method AbsentPairs(scope: Scope) returns (out: seq<(string, string)>)
      requires Valid()
      modifies this`stats, this`examples
      ensures Valid()
      ensures out == Pairs(AbsentKeys(projection, anchorBlock, seen, Reads(scope), order))
      ensures stats == old(stats).(absent := old(stats).absent + |out|)
      ensures examples == AbsentExamples(projection, old(examples), maxExamples, AbsentKeys(projection, anchorBlock, seen, Reads(scope), order))
    {
      out := [];
      ghost var keys: seq<Key>, inScope := [], Reads(scope);
      for i := 0 to |order|
        invariant Valid() && keys == AbsentKeys(projection, anchorBlock, seen, inScope, order[..i])
        invariant out == Pairs(keys) && stats == old(stats).(absent := old(stats).absent + |out|)
        invariant examples == AbsentExamples(projection, old(examples), maxExamples, keys)
      {
        var key := order[i];
        AbsentStep(projection, anchorBlock, seen, inScope, order, i);
        var gone := IsGone(key, scope);
        if !gone {
          continue;
        }
        stats := stats.(absent := stats.absent + 1);
        Note(AbsentExample(projection, key));
        out := out + [SplitKey(key)];
        SnocKeys(projection, old(examples), maxExamples, keys, key);
        keys := keys + [key];
      }
      assert order[..|order|] == order;
    }

    function DiffCount(): (n: nat)
      reads this
    {
      stats.changed + stats.missing + stats.absent
    }
  }

  lemma KeysGrow(rows: seq<Row>, i: nat)
    requires i < |rows|
    ensures Keys(rows[..i + 1]) == Keys(rows[..i]) + {KeyOf(rows[i])}
  {
    forall k | k in Keys(rows[..i + 1]) ensures k in Keys(rows[..i]) + {KeyOf(rows[i])} {
      var j :| 0 <= j < i + 1 && KeyOf(rows[..i + 1][j]) == k;
      if j < i { assert rows[..i][j] == rows[..i + 1][j]; }
    }
    forall k | k in Keys(rows[..i]) + {KeyOf(rows[i])} ensures k in Keys(rows[..i + 1]) {
      if k in Keys(rows[..i]) {
        var j :| 0 <= j < i && KeyOf(rows[..i][j]) == k;
        assert rows[..i + 1][j] == rows[..i][j];
      } else {
        assert rows[..i + 1][i] == rows[i];
      }
    }
  }
}
