/** The two readers of a block's trades, src/blocks/extractVolume.ts:107-137, 327-372 and 805-925. */
module TradeVolumes {
  // Candle rows per asset, and per-account rows with the passive side of a peer-to-peer fill booked
  // the other way round.

  import opened Wrappers
  import opened VolumeRows

  /** `canonicalAssetId` is whatever the canonicaliser made of `assetId`. */
  datatype Leg = Leg(assetId: int, canonicalAssetId: int, amount: int)

  /** Accounts are normalised: an empty or unreadable one is `None`. */
  datatype Trade = Trade(trader: Option<string>, counterparty: Option<string>, inputs: seq<Leg>, outputs: seq<Leg>)

  datatype AccountKey = AccountKey(asset: int, account: string)

  /** `usd` is a leg's dollar volume, rounded per leg; `pot` tells accounts that trade for nobody. */
  datatype Book = Book(usd: Leg -> int, pot: string -> bool)

  // ---------------------------------------------------------------- legs

  /** A leg that only changes an asset's wrapping: the other side holds another original of the
      same canonical asset. */
  predicate SelfConversion(leg: Leg, opposing: seq<Leg>) {
    exists i :: 0 <= i < |opposing| && opposing[i].canonicalAssetId == leg.canonicalAssetId && opposing[i].assetId != leg.assetId
  }

  method IsCanonicalSelfConversion(leg: Leg, opposing: seq<Leg>) returns (selfConversion: bool)
    ensures selfConversion == SelfConversion(leg, opposing)
  {
    var originals: set<int> := {};
    for i := 0 to |opposing|
      invariant originals == set j | 0 <= j < i && opposing[j].canonicalAssetId == leg.canonicalAssetId :: opposing[j].assetId
    {
      if opposing[i].canonicalAssetId == leg.canonicalAssetId {
        originals := originals + {opposing[i].assetId};
      }
    }
    selfConversion := exists o :: o in originals && o != leg.assetId;
    if i :| 0 <= i < |opposing| && opposing[i].canonicalAssetId == leg.canonicalAssetId && opposing[i].assetId != leg.assetId {
      assert opposing[i].assetId in originals;
    }
  }

  function Sold(b: Book, leg: Leg): Volume { Volume(0, leg.amount, 0, b.usd(leg)) }

  function Bought(b: Book, leg: Leg): Volume { Volume(leg.amount, 0, b.usd(leg), 0) }

  /** One row per leg that is not a self conversion, keyed by `keyOf` of its canonical asset. */
  function LegRows<K>(b: Book, legs: seq<Leg>, opposing: seq<Leg>, sold: bool, keyOf: int -> K, passive: bool): seq<Row<K>> {
    if legs == [] then []
    else
      var front, leg := LegRows(b, legs[..|legs| - 1], opposing, sold, keyOf, passive), legs[|legs| - 1];
      if SelfConversion(leg, opposing) then front
      else front + [LegRow(b, leg, sold, keyOf, passive)]
  }

  function LegRow<K>(b: Book, leg: Leg, sold: bool, keyOf: int -> K, passive: bool): Row<K> {
    Row(keyOf(leg.canonicalAssetId), if sold then Sold(b, leg) else Bought(b, leg), 0, passive)
  }

  function SideLegs<K>(b: Book, trade: Trade, mirrored: bool, keyOf: int -> K): seq<Row<K>> {
    LegRows(b, trade.inputs, trade.outputs, !mirrored, keyOf, mirrored) + LegRows(b, trade.outputs, trade.inputs, mirrored, keyOf, mirrored)
  }

  // ---------------------------------------------------------------- candles

  function Itself(): int -> int { asset => asset }

  /** `tradeToVolumeRows`. */
  function CandleRows(b: Book, trade: Trade): seq<Row<int>> { SideLegs(b, trade, false, Itself()) }

  method TradeToVolumeRows(b: Book, trade: Trade) returns (rows: seq<Row<int>>)
    ensures rows == CandleRows(b, trade)
  {
    var sells := BookLegs(b, trade.inputs, trade.outputs, true);
    var buys := BookLegs(b, trade.outputs, trade.inputs, false);
    rows := sells + buys;
  }

  method BookLegs(b: Book, legs: seq<Leg>, opposing: seq<Leg>, sold: bool) returns (rows: seq<Row<int>>)
    ensures rows == LegRows(b, legs, opposing, sold, Itself(), false)
  {
    rows := [];
    for i := 0 to |legs|
      invariant rows == LegRows(b, legs[..i], opposing, sold, Itself(), false)
    {
      assert legs[..i + 1][..i] == legs[..i];
      var selfConversion := IsCanonicalSelfConversion(legs[i], opposing);
      if selfConversion {
        continue;
      }
      rows := rows + [Row(legs[i].canonicalAssetId, if sold then Sold(b, legs[i]) else Bought(b, legs[i]), 0, false)];
    }
    assert legs[..|legs|] == legs;
  }

  // ---------------------------------------------------------------- one account's side

  function ForAccount(account: string): int -> AccountKey { asset => AccountKey(asset, account) }

  function CountedOnce<K>(rows: seq<Row<K>>): (r: seq<Row<K>>)
    ensures |r| == |rows|
  {
    if rows == [] then [] else CountedOnce(rows[..|rows| - 1]) + [rows[|rows| - 1].(tradeCount := 1)]
  }

  /** `accountSideVolumeRows`: the side's legs summed per asset, one trade each. */
  function SideRows(b: Book, trade: Trade, account: string, mirrored: bool): seq<Row<AccountKey>> {
    CountedOnce(Aggregate(SideLegs(b, trade, mirrored, ForAccount(account))))
  }

  predicate Books(b: Book, account: Option<string>) { account.Some? && !b.pot(account.value) }

  predicate BooksCounterparty(b: Book, trade: Trade) { Books(b, trade.counterparty) && trade.counterparty != trade.trader }

  function PrincipalRows(b: Book, trade: Trade): seq<Row<AccountKey>> {
    if Books(b, trade.trader) then SideRows(b, trade, trade.trader.value, false) else []
  }

  function CounterpartyRows(b: Book, trade: Trade): seq<Row<AccountKey>> {
    if BooksCounterparty(b, trade) then SideRows(b, trade, trade.counterparty.value, true) else []
  }

  /** `tradeToAccountVolumeRows`. */
  function AccountRows(b: Book, trade: Trade): seq<Row<AccountKey>> { PrincipalRows(b, trade) + CounterpartyRows(b, trade) }

  // ---------------------------------------------------------------- rows built in place

  ghost predicate Flagged(rows: seq<Row<AccountKey>>, passive: bool) { forall i | 0 <= i < |rows| :: rows[i].passive == passive }

  lemma {:induction false} LegsFlagged(b: Book, legs: seq<Leg>, opposing: seq<Leg>, sold: bool, account: string, passive: bool)
    ensures Flagged(LegRows(b, legs, opposing, sold, ForAccount(account), passive), passive)
  {
    if legs != [] { LegsFlagged(b, legs[..|legs| - 1], opposing, sold, account, passive); }
  }

  lemma {:induction false} AggregateKeepsFlag(rows: seq<Row<AccountKey>>, passive: bool)
    requires Flagged(rows, passive)
    ensures Flagged(Aggregate(rows), passive)
  {
    if rows != [] { AggregateKeepsFlag(rows[..|rows| - 1], passive); }
  }

  lemma {:induction false} CountingKeepsFlag(rows: seq<Row<AccountKey>>, passive: bool)
    requires Flagged(rows, passive)
    ensures Flagged(CountedOnce(rows), passive)
  {
    if rows != [] { CountingKeepsFlag(rows[..|rows| - 1], passive); }
  }

  lemma {:induction false} CountedAt(rows: seq<Row<AccountKey>>, i: nat)
    requires i < |rows|
    ensures CountedOnce(rows)[i] == rows[i].(tradeCount := 1)
  {
    if i < |rows| - 1 { CountedAt(rows[..|rows| - 1], i); }
  }

  lemma CountedPosition(rows: seq<Row<AccountKey>>, key: AccountKey)
    ensures Position(CountedOnce(rows), key) == Position(rows, key)
  {
    forall i | 0 <= i < |rows| ensures CountedOnce(rows)[i].key == rows[i].key { CountedAt(rows, i); }
    var i, j := Position(CountedOnce(rows), key), Position(rows, key);
    if i < |rows| { assert rows[i].key == key; }
    if j < |rows| { assert CountedOnce(rows)[j].key == key; }
  }

  /** `rowForAsset`, then `addSell` or `addBuy`, on the side's rows so far. */
  method AddLeg(rows: seq<Row<AccountKey>>, key: AccountKey, volume: Volume, mirrored: bool, ghost summed: seq<Row<AccountKey>>)
    returns (out: seq<Row<AccountKey>>)
    requires rows == CountedOnce(summed) && Flagged(summed, mirrored)
    ensures out == CountedOnce(Insert(summed, Row(key, volume, 0, mirrored)))
    ensures Flagged(Insert(summed, Row(key, volume, 0, mirrored)), mirrored)
  {
    var i := Position(rows, key);
    CountedPosition(summed, key);
    out := rows;
    if i == |rows| {
      out := out + [Row(key, NO_VOLUME, 1, mirrored)];
    }
    out := out[i := out[i].(volume := Plus(out[i].volume, volume))];
    assert i == |rows| ==> out == rows + [Row(key, Plus(NO_VOLUME, volume), 1, mirrored)];
    LegAdded(rows, summed, key, volume, mirrored, i, out);
  }

  ghost predicate Counted(rows: seq<Row<AccountKey>>, out: seq<Row<AccountKey>>) {
    |out| == |rows| && forall j | 0 <= j < |rows| :: out[j] == rows[j].(tradeCount := 1)
  }

  lemma CountedIs(rows: seq<Row<AccountKey>>, out: seq<Row<AccountKey>>)
    ensures Counted(rows, out) <==> out == CountedOnce(rows)
  {
    forall j | 0 <= j < |rows| ensures CountedOnce(rows)[j] == rows[j].(tradeCount := 1) { CountedAt(rows, j); }
  }

  lemma LegAdded(rows: seq<Row<AccountKey>>, summed: seq<Row<AccountKey>>, key: AccountKey, volume: Volume, mirrored: bool,
                 i: nat, out: seq<Row<AccountKey>>)
    requires rows == CountedOnce(summed) && Flagged(summed, mirrored) && i == Position(summed, key)
    requires out == if i == |rows| then rows + [Row(key, Plus(NO_VOLUME, volume), 1, mirrored)]
                    else rows[i := rows[i].(volume := Plus(rows[i].volume, volume))]
    ensures out == CountedOnce(Insert(summed, Row(key, volume, 0, mirrored)))
    ensures Flagged(Insert(summed, Row(key, volume, 0, mirrored)), mirrored)
  {
    var row, after := Row(key, volume, 0, mirrored), Insert(summed, Row(key, volume, 0, mirrored));
    CountedIs(summed, rows);
    InsertedAt(summed, row, i);
    CountedGrows(summed, rows, row, i, after, out);
    CountedIs(after, out);
  }

  lemma InsertedAt(rows: seq<Row<AccountKey>>, row: Row<AccountKey>, i: nat)
    requires i == Position(rows, row.key)
    ensures Insert(rows, row) == if i < |rows| then rows[i := Merge(rows[i], row)] else rows + [row]
  {
  }

  lemma CountedGrows(summed: seq<Row<AccountKey>>, rows: seq<Row<AccountKey>>, row: Row<AccountKey>, i: nat,
                     after: seq<Row<AccountKey>>, out: seq<Row<AccountKey>>)
    requires Counted(summed, rows) && Flagged(summed, row.passive) && i <= |summed| && row.tradeCount == 0
    requires i < |summed| ==> summed[i].key == row.key
    requires after == if i < |summed| then summed[i := Merge(summed[i], row)] else summed + [row]
    requires out == if i == |rows| then rows + [Row(row.key, Plus(NO_VOLUME, row.volume), 1, row.passive)]
                    else rows[i := rows[i].(volume := Plus(rows[i].volume, row.volume))]
    ensures Counted(after, out) && Flagged(after, row.passive)
  {
  }

  lemma LegRowsGrow(b: Book, legs: seq<Leg>, opposing: seq<Leg>, sold: bool, account: string, passive: bool, i: nat, before: seq<Row<AccountKey>>)
    requires i < |legs|
    ensures before + LegRows(b, legs[..i + 1], opposing, sold, ForAccount(account), passive)
         == (before + LegRows(b, legs[..i], opposing, sold, ForAccount(account), passive))
            + if SelfConversion(legs[i], opposing) then [] else [LegRow(b, legs[i], sold, ForAccount(account), passive)]
  {
    assert legs[..i + 1][..i] == legs[..i];
  }

  lemma AggregateGrows<K>(rows: seq<Row<K>>, row: Row<K>)
    ensures Aggregate(rows + [row]) == Insert(Aggregate(rows), row)
  {
    assert (rows + [row])[..|rows|] == rows;
  }

  method AddLegs(b: Book, legs: seq<Leg>, opposing: seq<Leg>, sold: bool, account: string, mirrored: bool,
                 rows: seq<Row<AccountKey>>, ghost before: seq<Row<AccountKey>>)
    returns (out: seq<Row<AccountKey>>)
    requires rows == CountedOnce(Aggregate(before)) && Flagged(Aggregate(before), mirrored)
    ensures out == CountedOnce(Aggregate(before + LegRows(b, legs, opposing, sold, ForAccount(account), mirrored)))
    ensures Flagged(Aggregate(before + LegRows(b, legs, opposing, sold, ForAccount(account), mirrored)), mirrored)
  {
    out := rows;
    ghost var all := before;
    assert before + [] == before;
    for i := 0 to |legs|
      invariant all == before + LegRows(b, legs[..i], opposing, sold, ForAccount(account), mirrored)
      invariant out == CountedOnce(Aggregate(all)) && Flagged(Aggregate(all), mirrored)
    {
      LegRowsGrow(b, legs, opposing, sold, account, mirrored, i, before);
      var selfConversion := IsCanonicalSelfConversion(legs[i], opposing);
      if selfConversion {
        continue;
      }
      ghost var row := LegRow(b, legs[i], sold, ForAccount(account), mirrored);
      AggregateGrows(all, row);
      out := AddLeg(out, AccountKey(legs[i].canonicalAssetId, account),
                    if sold then Sold(b, legs[i]) else Bought(b, legs[i]), mirrored, Aggregate(all));
      all := all + [row];
    }
    assert legs[..|legs|] == legs;
  }

  method AccountSideVolumeRows(b: Book, trade: Trade, account: string, mirrored: bool) returns (rows: seq<Row<AccountKey>>)
    ensures rows == SideRows(b, trade, account, mirrored)
  {
    rows := [];
    ghost var first := LegRows(b, trade.inputs, trade.outputs, !mirrored, ForAccount(account), mirrored);
    assert [] + first == first;
    rows := AddLegs(b, trade.inputs, trade.outputs, !mirrored, account, mirrored, rows, []);
    rows := AddLegs(b, trade.outputs, trade.inputs, mirrored, account, mirrored, rows, first);
  }

  method TradeToAccountVolumeRows(b: Book, trade: Trade) returns (rows: seq<Row<AccountKey>>)
    ensures rows == AccountRows(b, trade)
  {
    rows := [];
    if trade.trader.Some? && !b.pot(trade.trader.value) {
      rows := AccountSideVolumeRows(b, trade, trade.trader.value, false);
    }
    if trade.counterparty.Some? && trade.counterparty != trade.trader && !b.pot(trade.counterparty.value) {
      var mirror := AccountSideVolumeRows(b, trade, trade.counterparty.value, true);
      rows := rows + mirror;
    }
  }

  // ---------------------------------------------------------------- a block

  function AllCandleRows(b: Book, trades: seq<Trade>): seq<Row<int>> {
    if trades == [] then [] else AllCandleRows(b, trades[..|trades| - 1]) + CandleRows(b, trades[|trades| - 1])
  }

  function AllAccountRows(b: Book, trades: seq<Trade>): seq<Row<AccountKey>> {
    if trades == [] then [] else AllAccountRows(b, trades[..|trades| - 1]) + AccountRows(b, trades[|trades| - 1])
  }

  /** `extractTradeVolumeFromSwaps`. */
  method ExtractTradeVolume(b: Book, trades: seq<Trade>) returns (rows: seq<Row<AccountKey>>)
    ensures rows == Aggregate(AllAccountRows(b, trades))
  {
    rows := [];
    for i := 0 to |trades|
      invariant rows == AllAccountRows(b, trades[..i])
    {
      assert trades[..i + 1][..i] == trades[..i];
      var own := TradeToAccountVolumeRows(b, trades[i]);
      rows := rows + own;
    }
    assert trades[..|trades|] == trades;
    rows := AggregateRows(rows);
  }

  /** The trades a condition picks, in order. */
  function Picked(trades: seq<Trade>, chosen: Trade -> bool): seq<Trade> {
    if trades == [] then []
    else
      var front, trade := Picked(trades[..|trades| - 1], chosen), trades[|trades| - 1];
      if chosen(trade) then front + [trade] else front
  }

  // ---------------------------------------------------------------- both readers agree

  /** A summed field of a row: tokens or dollars, bought or sold. */
  datatype Field = NativeBought | NativeSold | UsdBought | UsdSold

  function Of(field: Field, v: Volume): int {
    match field
    case NativeBought => v.nativeBuy
    case NativeSold => v.nativeSell
    case UsdBought => v.usdBuy
    case UsdSold => v.usdSell
  }

  function Opposite(field: Field): Field {
    match field
    case NativeBought => NativeSold
    case NativeSold => NativeBought
    case UsdBought => UsdSold
    case UsdSold => UsdBought
  }

  function OfAsset(field: Field, asset: int): Row<int> -> int {
    (row: Row<int>) => if row.key == asset then Of(field, row.volume) else 0
  }

  function OfAccountAsset(field: Field, asset: int): Row<AccountKey> -> int {
    (row: Row<AccountKey>) => if row.key.asset == asset then Of(field, row.volume) else 0
  }

  /** The same, over rows of one flag. */
  function OfSide(field: Field, asset: int, passive: bool): Row<AccountKey> -> int {
    (row: Row<AccountKey>) => if row.passive == passive && row.key.asset == asset then Of(field, row.volume) else 0
  }

  lemma LegRowsAgree(b: Book, leg: Leg, sold: bool, account: string, mirrored: bool, field: Field, asset: int)
    ensures OfAccountAsset(field, asset)(LegRow(b, leg, if mirrored then !sold else sold, ForAccount(account), mirrored))
         == OfAsset(if mirrored then Opposite(field) else field, asset)(LegRow(b, leg, sold, Itself(), false))
  {
  }

  lemma {:induction false} LegsAgree(b: Book, legs: seq<Leg>, opposing: seq<Leg>, sold: bool, account: string, mirrored: bool, field: Field, asset: int)
    ensures Total(LegRows(b, legs, opposing, if mirrored then !sold else sold, ForAccount(account), mirrored), OfAccountAsset(field, asset))
         == Total(LegRows(b, legs, opposing, sold, Itself(), false), OfAsset(if mirrored then Opposite(field) else field, asset))
  {
    if legs != [] {
      var front, leg := legs[..|legs| - 1], legs[|legs| - 1];
      LegsAgree(b, front, opposing, sold, account, mirrored, field, asset);
      if !SelfConversion(leg, opposing) {
        var booked := if mirrored then !sold else sold;
        LegRowsAgree(b, leg, sold, account, mirrored, field, asset);
        TotalGrows(LegRows(b, front, opposing, booked, ForAccount(account), mirrored),
                   LegRow(b, leg, booked, ForAccount(account), mirrored), OfAccountAsset(field, asset));
        TotalGrows(LegRows(b, front, opposing, sold, Itself(), false),
                   LegRow(b, leg, sold, Itself(), false), OfAsset(if mirrored then Opposite(field) else field, asset));
      }
    }
  }

  lemma TotalGrows<K>(rows: seq<Row<K>>, row: Row<K>, measure: Row<K> -> int)
    ensures Total(rows + [row], measure) == Total(rows, measure) + measure(row)
  {
    assert (rows + [row])[..|rows|] == rows;
  }

  lemma {:induction false} CountingKeepsVolumes(rows: seq<Row<AccountKey>>, field: Field, asset: int)
    ensures Total(CountedOnce(rows), OfAccountAsset(field, asset)) == Total(rows, OfAccountAsset(field, asset))
  {
    if rows != [] { CountingKeepsVolumes(rows[..|rows| - 1], field, asset); }
  }

  /** One side's rows carry the trade's candle volumes, a mirrored side with buys and sells swapped. */
  lemma SideMatchesCandle(b: Book, trade: Trade, account: string, mirrored: bool, field: Field, asset: int)
    ensures Total(SideRows(b, trade, account, mirrored), OfAccountAsset(field, asset))
         == Total(CandleRows(b, trade), OfAsset(if mirrored then Opposite(field) else field, asset))
  {
    var legs := SideLegs(b, trade, mirrored, ForAccount(account));
    CountingKeepsVolumes(Aggregate(legs), field, asset);
    AggregateConserves(legs, OfAccountAsset(field, asset));
    var f := if mirrored then Opposite(field) else field;
    LegsAgree(b, trade.inputs, trade.outputs, true, account, mirrored, field, asset);
    LegsAgree(b, trade.outputs, trade.inputs, false, account, mirrored, field, asset);
    TotalOfConcatenation(LegRows(b, trade.inputs, trade.outputs, !mirrored, ForAccount(account), mirrored),
                         LegRows(b, trade.outputs, trade.inputs, mirrored, ForAccount(account), mirrored), OfAccountAsset(field, asset));
    TotalOfConcatenation(LegRows(b, trade.inputs, trade.outputs, true, Itself(), false),
                         LegRows(b, trade.outputs, trade.inputs, false, Itself(), false), OfAsset(f, asset));
  }

  lemma SideIsFlagged(b: Book, trade: Trade, account: string, mirrored: bool)
    ensures Flagged(SideRows(b, trade, account, mirrored), mirrored)
  {
    LegsFlagged(b, trade.inputs, trade.outputs, !mirrored, account, mirrored);
    LegsFlagged(b, trade.outputs, trade.inputs, mirrored, account, mirrored);
    AggregateKeepsFlag(SideLegs(b, trade, mirrored, ForAccount(account)), mirrored);
    CountingKeepsFlag(Aggregate(SideLegs(b, trade, mirrored, ForAccount(account))), mirrored);
  }

  lemma {:induction false} FlaggedTotal(rows: seq<Row<AccountKey>>, flag: bool, passive: bool, field: Field, asset: int)
    requires Flagged(rows, flag)
    ensures Total(rows, OfSide(field, asset, passive)) == if flag == passive then Total(rows, OfAccountAsset(field, asset)) else 0
  {
    if rows != [] { FlaggedTotal(rows[..|rows| - 1], flag, passive, field, asset); }
  }

  /** One trade: what each flag's account rows carry. */
  lemma TradeMatches(b: Book, trade: Trade, field: Field, asset: int)
    ensures Total(AccountRows(b, trade), OfSide(field, asset, false))
         == if Books(b, trade.trader) then Total(CandleRows(b, trade), OfAsset(field, asset)) else 0
    ensures Total(AccountRows(b, trade), OfSide(field, asset, true))
         == if BooksCounterparty(b, trade) then Total(CandleRows(b, trade), OfAsset(Opposite(field), asset)) else 0
  {
    TotalOfConcatenation(PrincipalRows(b, trade), CounterpartyRows(b, trade), OfSide(field, asset, false));
    TotalOfConcatenation(PrincipalRows(b, trade), CounterpartyRows(b, trade), OfSide(field, asset, true));
    if Books(b, trade.trader) { SideTotals(b, trade, trade.trader.value, false, field, asset); }
    if BooksCounterparty(b, trade) { SideTotals(b, trade, trade.counterparty.value, true, field, asset); }
  }

  lemma SideTotals(b: Book, trade: Trade, account: string, mirrored: bool, field: Field, asset: int)
    ensures Total(SideRows(b, trade, account, mirrored), OfSide(field, asset, mirrored))
         == Total(CandleRows(b, trade), OfAsset(if mirrored then Opposite(field) else field, asset))
    ensures Total(SideRows(b, trade, account, mirrored), OfSide(field, asset, !mirrored)) == 0
  {
    SideIsFlagged(b, trade, account, mirrored);
    SideMatchesCandle(b, trade, account, mirrored, field, asset);
    FlaggedTotal(SideRows(b, trade, account, mirrored), mirrored, mirrored, field, asset);
    FlaggedTotal(SideRows(b, trade, account, mirrored), mirrored, !mirrored, field, asset);
  }

  function WithoutTrader(b: Book): Trade -> bool { (trade: Trade) => !Books(b, trade.trader) }

  function WithCounterparty(b: Book): Trade -> bool { (trade: Trade) => BooksCounterparty(b, trade) }

  function SumOver(trades: seq<Trade>, f: Trade -> int): int {
    if trades == [] then 0 else SumOver(trades[..|trades| - 1], f) + f(trades[|trades| - 1])
  }

  function CandleOf(b: Book, field: Field, asset: int): Trade -> int {
    (trade: Trade) => Total(CandleRows(b, trade), OfAsset(field, asset))
  }

  function SideOf(b: Book, field: Field, asset: int, passive: bool): Trade -> int {
    (trade: Trade) => Total(AccountRows(b, trade), OfSide(field, asset, passive))
  }

  function When(f: Trade -> int, chosen: Trade -> bool): Trade -> int {
    (trade: Trade) => if chosen(trade) then f(trade) else 0
  }

  lemma {:induction false} CandleSum(b: Book, trades: seq<Trade>, field: Field, asset: int)
    ensures Total(AllCandleRows(b, trades), OfAsset(field, asset)) == SumOver(trades, CandleOf(b, field, asset))
  {
    if trades != [] {
      CandleSum(b, trades[..|trades| - 1], field, asset);
      TotalOfConcatenation(AllCandleRows(b, trades[..|trades| - 1]), CandleRows(b, trades[|trades| - 1]), OfAsset(field, asset));
    }
  }

  lemma {:induction false} AccountSum(b: Book, trades: seq<Trade>, field: Field, asset: int, passive: bool)
    ensures Total(AllAccountRows(b, trades), OfSide(field, asset, passive)) == SumOver(trades, SideOf(b, field, asset, passive))
  {
    if trades != [] {
      AccountSum(b, trades[..|trades| - 1], field, asset, passive);
      TotalOfConcatenation(AllAccountRows(b, trades[..|trades| - 1]), AccountRows(b, trades[|trades| - 1]), OfSide(field, asset, passive));
    }
  }

  lemma {:induction false} PickedSum(trades: seq<Trade>, chosen: Trade -> bool, f: Trade -> int)
    ensures SumOver(Picked(trades, chosen), f) == SumOver(trades, When(f, chosen))
  {
    if trades != [] {
      var front, trade := trades[..|trades| - 1], trades[|trades| - 1];
      PickedSum(front, chosen, f);
      assert (Picked(front, chosen) + [trade])[..|Picked(front, chosen)|] == Picked(front, chosen);
    }
  }

  lemma {:induction false} SumsAdd(trades: seq<Trade>, f: Trade -> int, g: Trade -> int, h: Trade -> int)
    requires forall trade :: f(trade) == g(trade) + h(trade)
    ensures SumOver(trades, f) == SumOver(trades, g) + SumOver(trades, h)
  {
    if trades != [] { SumsAdd(trades[..|trades| - 1], f, g, h); }
  }

  lemma {:induction false} SumsMatch(trades: seq<Trade>, f: Trade -> int, g: Trade -> int)
    requires forall trade :: f(trade) == g(trade)
    ensures SumOver(trades, f) == SumOver(trades, g)
  {
    if trades != [] { SumsMatch(trades[..|trades| - 1], f, g); }
  }

  /** Per asset, every candle total is what the principals' account rows carry plus the trades
      nobody is credited for. */
  lemma ReadersAgree(b: Book, trades: seq<Trade>, field: Field, asset: int)
    ensures Total(AllCandleRows(b, trades), OfAsset(field, asset))
         == Total(AllAccountRows(b, trades), OfSide(field, asset, false))
            + Total(AllCandleRows(b, Picked(trades, WithoutTrader(b))), OfAsset(field, asset))
  {
    var f, g, h := CandleOf(b, field, asset), SideOf(b, field, asset, false), When(CandleOf(b, field, asset), WithoutTrader(b));
    CandleSum(b, trades, field, asset);
    AccountSum(b, trades, field, asset, false);
    CandleSum(b, Picked(trades, WithoutTrader(b)), field, asset);
    PickedSum(trades, WithoutTrader(b), f);
    forall trade: Trade ensures f(trade) == g(trade) + h(trade) { TradeMatches(b, trade, field, asset); }
    SumsAdd(trades, f, g, h);
  }

  /** The counterparties bought what their trades sold, and sold what they bought. */
  lemma CounterpartiesMirror(b: Book, trades: seq<Trade>, field: Field, asset: int)
    ensures Total(AllAccountRows(b, trades), OfSide(field, asset, true))
         == Total(AllCandleRows(b, Picked(trades, WithCounterparty(b))), OfAsset(Opposite(field), asset))
  {
    var f, g := SideOf(b, field, asset, true), When(CandleOf(b, Opposite(field), asset), WithCounterparty(b));
    AccountSum(b, trades, field, asset, true);
    CandleSum(b, Picked(trades, WithCounterparty(b)), Opposite(field), asset);
    PickedSum(trades, WithCounterparty(b), CandleOf(b, Opposite(field), asset));
    forall trade: Trade ensures f(trade) == g(trade) { TradeMatches(b, trade, field, asset); }
    SumsMatch(trades, f, g);
  }
}
