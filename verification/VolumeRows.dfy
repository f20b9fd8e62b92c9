/** Summing volume rows per key, src/blocks/volumeMath.ts:25-68, src/blocks/extractVolume.ts:1000-1026. */
module VolumeRows {
  // A volume stands for the texts of its four fields.

  import opened Wrappers
  import opened DecimalStrings

  datatype Volume = Volume(nativeBuy: int, nativeSell: int, usdBuy: int, usdSell: int)

  const NO_VOLUME := Volume(0, 0, 0, 0)

  function Plus(a: Volume, b: Volume): Volume {
    Volume(a.nativeBuy + b.nativeBuy, a.nativeSell + b.nativeSell, a.usdBuy + b.usdBuy, a.usdSell + b.usdSell)
  }

  // ---------------------------------------------------------------- the four text fields

  datatype VolumeFields = VolumeFields(
    nativeBuy: Option<string>, nativeSell: Option<string>, usdBuy: Option<string>, usdSell: Option<string>)

  /** Token amounts are integers, dollar amounts decimals. */
  function SumFieldsWith(token: Notation, usd: Notation, l: VolumeFields, r: VolumeFields): Option<VolumeFields> {
    var nb, ns := SumWith(token, l.nativeBuy, r.nativeBuy), SumWith(token, l.nativeSell, r.nativeSell);
    var ub, us := SumWith(usd, l.usdBuy, r.usdBuy), SumWith(usd, l.usdSell, r.usdSell);
    if nb.Some? && ns.Some? && ub.Some? && us.Some? then Some(VolumeFields(nb, ns, ub, us)) else None
  }

  function SumVolumeFields(l: VolumeFields, r: VolumeFields): Option<VolumeFields> {
    SumFieldsWith(Integers(), Decimals(), l, r)
  }

  /** The amounts the texts denote; `None` where one is not a number. */
  function DenotesWith(token: Notation, usd: Notation, f: VolumeFields): Option<Volume> {
    var nb, ns := token.parse(OrZero(f.nativeBuy)), token.parse(OrZero(f.nativeSell));
    var ub, us := usd.parse(OrZero(f.usdBuy)), usd.parse(OrZero(f.usdSell));
    if nb.Some? && ns.Some? && ub.Some? && us.Some? then Some(Volume(nb.value, ns.value, ub.value, us.value)) else None
  }

  function Denotes(f: VolumeFields): Option<Volume> { DenotesWith(Integers(), Decimals(), f) }

  lemma SumFieldsWithDenotes(token: Notation, usd: Notation, l: VolumeFields, r: VolumeFields)
    requires RoundTrips(token) && RoundTrips(usd)
    ensures SumFieldsWith(token, usd, l, r).Some? <==> DenotesWith(token, usd, l).Some? && DenotesWith(token, usd, r).Some?
    ensures SumFieldsWith(token, usd, l, r).Some? ==>
              DenotesWith(token, usd, SumFieldsWith(token, usd, l, r).value)
              == Some(Plus(DenotesWith(token, usd, l).value, DenotesWith(token, usd, r).value))
  {
    SumDenotes(token, l.nativeBuy, r.nativeBuy);
    SumDenotes(token, l.nativeSell, r.nativeSell);
    SumDenotes(usd, l.usdBuy, r.usdBuy);
    SumDenotes(usd, l.usdSell, r.usdSell);
  }

  /** Adding fields adds amounts, and fails exactly where a text is not a number. */
  lemma SumVolumeFieldsDenotes(l: VolumeFields, r: VolumeFields)
    ensures SumVolumeFields(l, r).Some? <==> Denotes(l).Some? && Denotes(r).Some?
    ensures SumVolumeFields(l, r).Some? ==> Denotes(SumVolumeFields(l, r).value) == Some(Plus(Denotes(l).value, Denotes(r).value))
  {
    BothRoundTrip();
    SumFieldsWithDenotes(Integers(), Decimals(), l, r);
  }

  /** Token texts add as integers, dollar texts as decimals in units of 10^-12; nothing is zero. */
  ghost predicate AddsUp(parse: string -> Option<int>, l: Option<string>, r: Option<string>, sum: Option<string>) {
    var left, right := if l == None then Some(0) else parse(l.value), if r == None then Some(0) else parse(r.value);
    left.Some? && right.Some? && sum.Some? && parse(sum.value) == Some(left.value + right.value)
  }

  lemma NoTextIsZero()
    ensures ParseBigInt(OrZero(None)) == Some(0) && DecimalToScaledBigInt(OrZero(None)) == Some(0)
  {
    assert "0"[..0] == "" && Value("0") == 0;
    DigitsParse(0, "0");
    WholeDenotes("0", 0);
  }

  lemma SumAddsUp(n: Notation, l: Option<string>, r: Option<string>)
    requires RoundTrips(n) && n.parse(OrZero(None)) == Some(0) && SumWith(n, l, r).Some?
    ensures AddsUp(n.parse, l, r, SumWith(n, l, r))
  {
  }

  /** Both string sums of src/blocks/volumeMath.ts. */
  lemma SumsAddUp(l: Option<string>, r: Option<string>)
    ensures SumBigIntStrings(l, r).Some? ==> AddsUp(ParseBigInt, l, r, SumBigIntStrings(l, r))
    ensures SumDecimal128Strings(l, r).Some? ==> AddsUp(DecimalToScaledBigInt, l, r, SumDecimal128Strings(l, r))
  {
    BothRoundTrip();
    NoTextIsZero();
    if SumBigIntStrings(l, r).Some? { SumAddsUp(Integers(), l, r); }
    if SumDecimal128Strings(l, r).Some? { SumAddsUp(Decimals(), l, r); }
  }

  lemma FieldsAreSums(l: VolumeFields, r: VolumeFields)
    requires SumVolumeFields(l, r).Some?
    ensures SumVolumeFields(l, r).value.nativeBuy == SumBigIntStrings(l.nativeBuy, r.nativeBuy)
    ensures SumVolumeFields(l, r).value.nativeSell == SumBigIntStrings(l.nativeSell, r.nativeSell)
    ensures SumVolumeFields(l, r).value.usdBuy == SumDecimal128Strings(l.usdBuy, r.usdBuy)
    ensures SumVolumeFields(l, r).value.usdSell == SumDecimal128Strings(l.usdSell, r.usdSell)
  {
  }

  lemma FieldsAddUp(l: VolumeFields, r: VolumeFields, sum: VolumeFields)
    requires SumVolumeFields(l, r) == Some(sum)
    ensures AddsUp(ParseBigInt, l.nativeBuy, r.nativeBuy, sum.nativeBuy) && AddsUp(ParseBigInt, l.nativeSell, r.nativeSell, sum.nativeSell)
    ensures AddsUp(DecimalToScaledBigInt, l.usdBuy, r.usdBuy, sum.usdBuy) && AddsUp(DecimalToScaledBigInt, l.usdSell, r.usdSell, sum.usdSell)
  {
    FieldsAreSums(l, r);
    assert sum.nativeBuy.Some? && sum.nativeSell.Some? && sum.usdBuy.Some? && sum.usdSell.Some?;
    SumsAddUp(l.nativeBuy, r.nativeBuy);
    SumsAddUp(l.nativeSell, r.nativeSell);
    SumsAddUp(l.usdBuy, r.usdBuy);
    SumsAddUp(l.usdSell, r.usdSell);
  }

  // ---------------------------------------------------------------- one row per key

  /** A candle row's key is its asset; an account row's its asset, block and account.  Candle
      rows carry no trade count and no flag. */
  datatype Row<K> = Row(key: K, volume: Volume, tradeCount: int, passive: bool)

  function Merge<K>(existing: Row<K>, row: Row<K>): Row<K> {
    Row(existing.key, Plus(existing.volume, row.volume), existing.tradeCount + row.tradeCount, existing.passive && row.passive)
  }

  /** The first position of a key, or the length. */
  function Position<K(==)>(rows: seq<Row<K>>, key: K): (i: nat)
    ensures i <= |rows| && (i < |rows| ==> rows[i].key == key)
    ensures forall j | 0 <= j < i :: rows[j].key != key
  {
    if rows == [] then 0
    else
      var i := Position(rows[..|rows| - 1], key);
      if i < |rows| - 1 then i else if rows[|rows| - 1].key == key then |rows| - 1 else |rows|
  }

  function Insert<K(==)>(rows: seq<Row<K>>, row: Row<K>): seq<Row<K>> {
    var i := Position(rows, row.key);
    if i < |rows| then rows[i := Merge(rows[i], row)] else rows + [row]
  }

  function Aggregate<K(==)>(rows: seq<Row<K>>): seq<Row<K>> {
    if rows == [] then [] else Insert(Aggregate(rows[..|rows| - 1]), rows[|rows| - 1])
  }

  ghost predicate HeldAt<K>(order: seq<K>, byKey: map<K, Row<K>>, rows: seq<Row<K>>, j: nat)
    requires j < |rows| && |order| == |rows|
  {
    order[j] == rows[j].key && order[j] in byKey && byKey[order[j]] == rows[j]
  }

  /** The map the code fills, in its insertion order. */
  ghost predicate Represents<K(!new)>(order: seq<K>, byKey: map<K, Row<K>>, rows: seq<Row<K>>) {
    && |order| == |rows|
    && (forall j {:trigger HeldAt(order, byKey, rows, j)} | 0 <= j < |rows| :: HeldAt(order, byKey, rows, j))
    && (forall k | k in byKey :: Position(rows, k) < |rows|)
    && DistinctKeys(rows)
  }

  ghost predicate DistinctKeys<K>(rows: seq<Row<K>>) { forall i, j | 0 <= i < j < |rows| :: rows[i].key != rows[j].key }

  method AggregateRows<K(==, !new)>(rows: seq<Row<K>>) returns (out: seq<Row<K>>)
    ensures out == Aggregate(rows)
  {
    var byKey: map<K, Row<K>> := map[];
    var order: seq<K> := [];
    for i := 0 to |rows|
      invariant Represents(order, byKey, Aggregate(rows[..i]))
    {
      var row := rows[i];
      assert rows[..i + 1][..i] == rows[..i];
      if row.key !in byKey {
        RepresentsNew(order, byKey, Aggregate(rows[..i]), row);
        byKey := byKey[row.key := row];
        order := order + [row.key];
      } else {
        RepresentsKnown(order, byKey, Aggregate(rows[..i]), row);
        byKey := byKey[row.key := Merge(byKey[row.key], row)];
      }
    }
    assert rows[..|rows|] == rows;
    forall j | 0 <= j < |order| ensures order[j] in byKey && byKey[order[j]] == Aggregate(rows)[j] {
      assert HeldAt(order, byKey, Aggregate(rows), j);
    }
    out := seq(|order|, j requires 0 <= j < |order| && order[j] in byKey => byKey[order[j]]);
  }

  lemma KnownKey<K>(rows: seq<Row<K>>, row: Row<K>, k: K)
    requires Position(rows, k) < |rows| || k == row.key
    ensures Position(Insert(rows, row), k) < |Insert(rows, row)|
  {
    var j, after := Position(rows, k), Insert(rows, row);
    assert after[j].key == k;
  }

  lemma KnownKeys<K(!new)>(byKey: map<K, Row<K>>, rows: seq<Row<K>>, row: Row<K>)
    requires forall k | k in byKey :: Position(rows, k) < |rows|
    ensures forall k | k in byKey || k == row.key :: Position(Insert(rows, row), k) < |Insert(rows, row)|
  {
    forall k | k in byKey || k == row.key ensures Position(Insert(rows, row), k) < |Insert(rows, row)| {
      KnownKey(rows, row, k);
    }
  }

  lemma RepresentsNew<K(!new)>(order: seq<K>, byKey: map<K, Row<K>>, rows: seq<Row<K>>, row: Row<K>)
    requires Represents(order, byKey, rows) && row.key !in byKey
    ensures Represents(order + [row.key], byKey[row.key := row], Insert(rows, row))
  {
    KnownKeys(byKey, rows, row);
    KeysStayDistinct(rows, row);
    forall j | 0 <= j < |rows| ensures rows[j].key != row.key { assert HeldAt(order, byKey, rows, j); }
    var order', byKey', rows' := order + [row.key], byKey[row.key := row], Insert(rows, row);
    forall j | 0 <= j < |rows| + 1 ensures HeldAt(order', byKey', rows', j) {
      if j < |rows| { assert HeldAt(order, byKey, rows, j); }
    }
  }

  lemma RepresentsKnown<K(!new)>(order: seq<K>, byKey: map<K, Row<K>>, rows: seq<Row<K>>, row: Row<K>)
    requires Represents(order, byKey, rows) && row.key in byKey
    ensures Represents(order, byKey[row.key := Merge(byKey[row.key], row)], Insert(rows, row))
  {
    KnownKeys(byKey, rows, row);
    KeysStayDistinct(rows, row);
    var i := Position(rows, row.key);
    assert HeldAt(order, byKey, rows, i);
    var byKey', rows' := byKey[row.key := Merge(byKey[row.key], row)], Insert(rows, row);
    forall j | 0 <= j < |rows| ensures HeldAt(order, byKey', rows', j) {
      assert HeldAt(order, byKey, rows, j);
      if j != i { assert rows[j].key != rows[i].key; }
    }
  }

  lemma KeysStayDistinct<K>(rows: seq<Row<K>>, row: Row<K>)
    requires DistinctKeys(rows)
    ensures DistinctKeys(Insert(rows, row))
  {
  }

  // ---------------------------------------------------------------- what the rows amount to

  function Total<K>(rows: seq<Row<K>>, measure: Row<K> -> int): int {
    if rows == [] then 0 else Total(rows[..|rows| - 1], measure) + measure(rows[|rows| - 1])
  }

  /** A quantity that merging two rows of one key adds up. */
  ghost predicate Additive<K(!new)>(measure: Row<K> -> int) {
    forall a: Row<K>, b: Row<K> {:trigger Merge(a, b)} | a.key == b.key :: measure(Merge(a, b)) == measure(a) + measure(b)
  }

  function NativeBuy<K>(): Row<K> -> int { (row: Row<K>) => row.volume.nativeBuy }
  function NativeSell<K>(): Row<K> -> int { (row: Row<K>) => row.volume.nativeSell }
  function UsdBuy<K>(): Row<K> -> int { (row: Row<K>) => row.volume.usdBuy }
  function UsdSell<K>(): Row<K> -> int { (row: Row<K>) => row.volume.usdSell }
  function Trades<K>(): Row<K> -> int { (row: Row<K>) => row.tradeCount }

  /** The measure, of the rows whose keys are chosen. */
  function Where<K>(measure: Row<K> -> int, chosen: K -> bool): Row<K> -> int {
    (row: Row<K>) => if chosen(row.key) then measure(row) else 0
  }

  function Only<K(==)>(measure: Row<K> -> int, key: K): Row<K> -> int {
    (row: Row<K>) => if row.key == key then measure(row) else 0
  }

  /** Every field of a row that is summed is such a quantity, over any choice of keys. */
  lemma FieldsAreAdditive<K(!new)>(chosen: K -> bool)
    ensures Additive(NativeBuy<K>()) && Additive(NativeSell<K>()) && Additive(UsdBuy<K>()) && Additive(UsdSell<K>())
    ensures Additive(Trades<K>())
    ensures Additive(Where(NativeBuy<K>(), chosen)) && Additive(Where(NativeSell<K>(), chosen))
    ensures Additive(Where(UsdBuy<K>(), chosen)) && Additive(Where(UsdSell<K>(), chosen)) && Additive(Where(Trades<K>(), chosen))
  {
  }

  lemma {:induction false} TotalOfConcatenation<K>(a: seq<Row<K>>, b: seq<Row<K>>, measure: Row<K> -> int)
    ensures Total(a + b, measure) == Total(a, measure) + Total(b, measure)
  {
    if b == [] {
      assert a + b == a;
    } else {
      assert (a + b)[..|a + b| - 1] == a + b[..|b| - 1];
      TotalOfConcatenation(a, b[..|b| - 1], measure);
    }
  }

  lemma TotalSplitsAt<K>(rows: seq<Row<K>>, i: nat, measure: Row<K> -> int)
    requires i < |rows|
    ensures Total(rows, measure) == Total(rows[..i], measure) + measure(rows[i]) + Total(rows[i + 1..], measure)
  {
    assert rows == (rows[..i] + [rows[i]]) + rows[i + 1..];
    TotalOfConcatenation(rows[..i] + [rows[i]], rows[i + 1..], measure);
    assert (rows[..i] + [rows[i]])[..i] == rows[..i];
  }

  lemma TotalOfUpdate<K>(rows: seq<Row<K>>, i: nat, row: Row<K>, measure: Row<K> -> int)
    requires i < |rows|
    ensures Total(rows[i := row], measure) == Total(rows, measure) - measure(rows[i]) + measure(row)
  {
    var after := rows[i := row];
    TotalSplitsAt(rows, i, measure);
    TotalSplitsAt(after, i, measure);
    assert after[..i] == rows[..i] && after[i + 1..] == rows[i + 1..];
  }

  lemma InsertConserves<K(!new)>(rows: seq<Row<K>>, row: Row<K>, measure: Row<K> -> int)
    requires Additive(measure)
    ensures Total(Insert(rows, row), measure) == Total(rows, measure) + measure(row)
  {
    var i := Position(rows, row.key);
    if i < |rows| {
      TotalOfUpdate(rows, i, Merge(rows[i], row), measure);
    } else {
      assert (rows + [row])[..|rows|] == rows;
    }
  }

  /** Aggregation conserves every summed quantity over any choice of keys. */
  lemma {:induction false} AggregateConserves<K(!new)>(rows: seq<Row<K>>, measure: Row<K> -> int)
    requires Additive(measure)
    ensures Total(Aggregate(rows), measure) == Total(rows, measure)
  {
    if rows != [] {
      AggregateConserves(rows[..|rows| - 1], measure);
      InsertConserves(Aggregate(rows[..|rows| - 1]), rows[|rows| - 1], measure);
    }
  }

  // ---------------------------------------------------------------- the row of one key

  function RowFor<K(==)>(rows: seq<Row<K>>, key: K): Option<Row<K>> {
    var i := Position(rows, key);
    if i < |rows| then Some(rows[i]) else None
  }

  lemma RowForAfterInsert<K>(rows: seq<Row<K>>, row: Row<K>, key: K)
    ensures RowFor(Insert(rows, row), key)
         == if key != row.key then RowFor(rows, key)
            else if RowFor(rows, key).Some? then Some(Merge(RowFor(rows, key).value, row)) else Some(row)
  {
    var after := Insert(rows, row);
    var j, j' := Position(rows, key), Position(after, key);
    if j < |rows| { assert after[j].key == key; }
    if j' < |rows| { assert after[j'].key == rows[j'].key; }
  }

  /** A key has one row, whose summed fields are the sums of that key's rows. */
  lemma {:induction false} AggregateIsSum<K(!new)>(rows: seq<Row<K>>, key: K, measure: Row<K> -> int)
    requires Additive(measure)
    ensures DistinctKeys(Aggregate(rows))
    ensures (if RowFor(Aggregate(rows), key).Some? then measure(RowFor(Aggregate(rows), key).value) else 0) == Total(rows, Only(measure, key))
  {
    if rows != [] {
      var front, row := rows[..|rows| - 1], rows[|rows| - 1];
      AggregateIsSum(front, key, measure);
      KeysStayDistinct(Aggregate(front), row);
      RowForAfterInsert(Aggregate(front), row, key);
    }
  }

  ghost predicate HasKey<K(!new)>(rows: seq<Row<K>>, key: K) { exists i :: 0 <= i < |rows| && rows[i].key == key }

  ghost predicate AllPassive<K(!new)>(rows: seq<Row<K>>, key: K) { forall i | 0 <= i < |rows| && rows[i].key == key :: rows[i].passive }

  lemma FlagsGrow<K(!new)>(rows: seq<Row<K>>, key: K)
    requires rows != []
    ensures HasKey(rows, key) <==> HasKey(rows[..|rows| - 1], key) || rows[|rows| - 1].key == key
    ensures AllPassive(rows, key)
       <==> AllPassive(rows[..|rows| - 1], key) && (rows[|rows| - 1].key == key ==> rows[|rows| - 1].passive)
  {
    var front := rows[..|rows| - 1];
    assert forall i | 0 <= i < |front| :: rows[i] == front[i];
  }

  /** It exists when the key occurs, and is passive exactly when all its rows are. */
  lemma {:induction false} AggregateFlags<K(!new)>(rows: seq<Row<K>>, key: K)
    ensures RowFor(Aggregate(rows), key).Some? <==> HasKey(rows, key)
    ensures RowFor(Aggregate(rows), key).Some? ==>
              RowFor(Aggregate(rows), key).value.key == key && (RowFor(Aggregate(rows), key).value.passive <==> AllPassive(rows, key))
    ensures !HasKey(rows, key) ==> AllPassive(rows, key)
  {
    if rows != [] {
      AggregateFlags(rows[..|rows| - 1], key);
      RowForAfterInsert(Aggregate(rows[..|rows| - 1]), rows[|rows| - 1], key);
      FlagsGrow(rows, key);
    }
  }

  // ---------------------------------------------------------------- order does not matter

  lemma Without<T>(s: seq<T>, i: nat)
    requires i < |s|
    ensures multiset(s[..i] + s[i + 1..]) == multiset(s) - multiset{s[i]}
  {
    assert s == s[..i] + [s[i]] + s[i + 1..];
  }

  lemma {:induction false} TotalIsOrderFree<K>(rows: seq<Row<K>>, other: seq<Row<K>>, measure: Row<K> -> int)
    requires multiset(rows) == multiset(other)
    ensures Total(rows, measure) == Total(other, measure)
  {
    if rows == [] {
      assert |multiset(other)| == |other|;
    } else {
      var n, row := |rows| - 1, rows[|rows| - 1];
      assert row in multiset(other);
      var i :| 0 <= i < |other| && other[i] == row;
      Without(rows, n);
      Without(other, i);
      assert rows[..n] + rows[n + 1..] == rows[..n];
      TotalIsOrderFree(rows[..n], other[..i] + other[i + 1..], measure);
      TotalSplitsAt(other, i, measure);
      TotalOfConcatenation(other[..i], other[i + 1..], measure);
    }
  }

  lemma MeasureIsOrderFree<K(!new)>(rows: seq<Row<K>>, other: seq<Row<K>>, key: K, measure: Row<K> -> int)
    requires multiset(rows) == multiset(other) && Additive(measure)
    requires RowFor(Aggregate(rows), key).Some? && RowFor(Aggregate(other), key).Some?
    ensures measure(RowFor(Aggregate(rows), key).value) == measure(RowFor(Aggregate(other), key).value)
  {
    AggregateIsSum(rows, key, measure);
    AggregateIsSum(other, key, measure);
    TotalIsOrderFree(rows, other, Only(measure, key));
  }

  lemma FlagsAreOrderFree<K(!new)>(rows: seq<Row<K>>, other: seq<Row<K>>, key: K)
    requires multiset(rows) == multiset(other)
    ensures RowFor(Aggregate(rows), key).Some? <==> RowFor(Aggregate(other), key).Some?
    ensures RowFor(Aggregate(rows), key).Some? ==>
              RowFor(Aggregate(rows), key).value.passive == RowFor(Aggregate(other), key).value.passive
  {
    AggregateFlags(rows, key);
    AggregateFlags(other, key);
    assert forall i | 0 <= i < |rows| :: rows[i] in multiset(other);
    assert forall i | 0 <= i < |other| :: other[i] in multiset(rows);
  }

  /** Row order changes where a key's row stands, never what it says. */
  lemma AggregateIsOrderFree<K(!new)>(rows: seq<Row<K>>, other: seq<Row<K>>, key: K)
    requires multiset(rows) == multiset(other)
    ensures RowFor(Aggregate(rows), key) == RowFor(Aggregate(other), key)
  {
    FlagsAreOrderFree(rows, other, key);
    AggregateFlags(rows, key);
    AggregateFlags(other, key);
    if RowFor(Aggregate(rows), key).Some? {
      FieldsAreAdditive<K>(_ => true);
      MeasureIsOrderFree(rows, other, key, NativeBuy<K>());
      MeasureIsOrderFree(rows, other, key, NativeSell<K>());
      MeasureIsOrderFree(rows, other, key, UsdBuy<K>());
      MeasureIsOrderFree(rows, other, key, UsdSell<K>());
      MeasureIsOrderFree(rows, other, key, Trades<K>());
    }
  }
}
