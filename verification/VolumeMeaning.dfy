/** What the volume rows of a trade amount to, said of its legs one by one. */
module VolumeMeaning {
  import opened Wrappers
  import opened VolumeRows
  import opened TradeVolumes

  // ---------------------------------------------------------------- sums over legs

  /** A leg of this canonical asset that is more than a change of wrapping. */
  ghost predicate Counts(leg: Leg, opposing: seq<Leg>, asset: int) {
    && leg.canonicalAssetId == asset
    && forall o | o in opposing && o.canonicalAssetId == asset :: o.assetId == leg.assetId
  }

  /** Sum of `f` over the legs of an asset, without those that face another original of it. */
  ghost function LegSum(legs: seq<Leg>, opposing: seq<Leg>, asset: int, f: Leg -> int): int {
    if legs == [] then 0
    else
      var leg := legs[|legs| - 1];
      LegSum(legs[..|legs| - 1], opposing, asset, f) + if Counts(leg, opposing, asset) then f(leg) else 0
  }

  function Amount(): Leg -> int { (leg: Leg) => leg.amount }

  lemma CountsIff(leg: Leg, opposing: seq<Leg>)
    ensures Counts(leg, opposing, leg.canonicalAssetId) <==> !SelfConversion(leg, opposing)
  {
    if SelfConversion(leg, opposing) {
      var i :| 0 <= i < |opposing| && opposing[i].canonicalAssetId == leg.canonicalAssetId && opposing[i].assetId != leg.assetId;
      assert opposing[i] in opposing;
    }
  }

  // ---------------------------------------------------------------- rows of legs

  /** A key stands for one asset of one account, or for none of these rows. */
  ghost predicate Hits<K(!new)>(keyOf: int -> K, key: K, asset: int, hit: bool) {
    forall x :: keyOf(x) == key <==> hit && x == asset
  }

  lemma {:induction false} LegRowsAmount<K(!new)>(b: Book, legs: seq<Leg>, opposing: seq<Leg>, sold: bool, keyOf: int -> K, passive: bool,
                                                  key: K, asset: int, hit: bool)
    requires Hits(keyOf, key, asset, hit)
    ensures var rows := LegRows(b, legs, opposing, sold, keyOf, passive);
            && Total(rows, Only(NativeSell<K>(), key)) == (if hit && sold then LegSum(legs, opposing, asset, Amount()) else 0)
            && Total(rows, Only(NativeBuy<K>(), key)) == (if hit && !sold then LegSum(legs, opposing, asset, Amount()) else 0)
  {
    if legs != [] {
      var front, leg := legs[..|legs| - 1], legs[|legs| - 1];
      LegRowsAmount(b, front, opposing, sold, keyOf, passive, key, asset, hit);
      CountsIff(leg, opposing);
      if !SelfConversion(leg, opposing) {
        TotalGrows(LegRows(b, front, opposing, sold, keyOf, passive), LegRow(b, leg, sold, keyOf, passive), Only(NativeSell<K>(), key));
        TotalGrows(LegRows(b, front, opposing, sold, keyOf, passive), LegRow(b, leg, sold, keyOf, passive), Only(NativeBuy<K>(), key));
      }
    }
  }

  lemma {:induction false} LegRowsUsd<K(!new)>(b: Book, legs: seq<Leg>, opposing: seq<Leg>, sold: bool, keyOf: int -> K, passive: bool,
                                               key: K, asset: int, hit: bool)
    requires Hits(keyOf, key, asset, hit)
    ensures var rows := LegRows(b, legs, opposing, sold, keyOf, passive);
            && Total(rows, Only(UsdSell<K>(), key)) == (if hit && sold then LegSum(legs, opposing, asset, b.usd) else 0)
            && Total(rows, Only(UsdBuy<K>(), key)) == (if hit && !sold then LegSum(legs, opposing, asset, b.usd) else 0)
  {
    if legs != [] {
      var front, leg := legs[..|legs| - 1], legs[|legs| - 1];
      LegRowsUsd(b, front, opposing, sold, keyOf, passive, key, asset, hit);
      CountsIff(leg, opposing);
      if !SelfConversion(leg, opposing) {
        TotalGrows(LegRows(b, front, opposing, sold, keyOf, passive), LegRow(b, leg, sold, keyOf, passive), Only(UsdSell<K>(), key));
        TotalGrows(LegRows(b, front, opposing, sold, keyOf, passive), LegRow(b, leg, sold, keyOf, passive), Only(UsdBuy<K>(), key));
      }
    }
  }

  /** The four sums of one key. */
  ghost function SumsOf<K(!new)>(rows: seq<Row<K>>, key: K): Volume {
    Volume(Total(rows, Only(NativeBuy<K>(), key)), Total(rows, Only(NativeSell<K>(), key)),
           Total(rows, Only(UsdBuy<K>(), key)), Total(rows, Only(UsdSell<K>(), key)))
  }

  /** What a side books of an asset: it sells what it gave and buys what it received; the mirrored
      side the other way round. */
  ghost function Booked(b: Book, trade: Trade, asset: int, mirrored: bool): Volume {
    var gave, received := if mirrored then trade.outputs else trade.inputs, if mirrored then trade.inputs else trade.outputs;
    Volume(LegSum(received, gave, asset, Amount()), LegSum(gave, received, asset, Amount()),
           LegSum(received, gave, asset, b.usd), LegSum(gave, received, asset, b.usd))
  }

  lemma SumsConcatenate<K(!new)>(x: seq<Row<K>>, y: seq<Row<K>>, key: K)
    ensures SumsOf(x + y, key) == Plus(SumsOf(x, key), SumsOf(y, key))
  {
    TotalOfConcatenation(x, y, Only(NativeBuy<K>(), key));
    TotalOfConcatenation(x, y, Only(NativeSell<K>(), key));
    TotalOfConcatenation(x, y, Only(UsdBuy<K>(), key));
    TotalOfConcatenation(x, y, Only(UsdSell<K>(), key));
  }

  lemma SideLegsAre<K(!new)>(b: Book, trade: Trade, mirrored: bool, keyOf: int -> K, key: K, asset: int, hit: bool)
    requires Hits(keyOf, key, asset, hit)
    ensures SumsOf(SideLegs(b, trade, mirrored, keyOf), key) == if hit then Booked(b, trade, asset, mirrored) else NO_VOLUME
  {
    LegRowsAmount(b, trade.inputs, trade.outputs, !mirrored, keyOf, mirrored, key, asset, hit);
    LegRowsUsd(b, trade.inputs, trade.outputs, !mirrored, keyOf, mirrored, key, asset, hit);
    LegRowsAmount(b, trade.outputs, trade.inputs, mirrored, keyOf, mirrored, key, asset, hit);
    LegRowsUsd(b, trade.outputs, trade.inputs, mirrored, keyOf, mirrored, key, asset, hit);
    SumsConcatenate(LegRows(b, trade.inputs, trade.outputs, !mirrored, keyOf, mirrored),
                    LegRows(b, trade.outputs, trade.inputs, mirrored, keyOf, mirrored), key);
  }

  /** The candle rows of a trade: per asset the inputs are sold and the outputs bought. */
  lemma CandleRowsAre(b: Book, trade: Trade, asset: int)
    ensures var v := SumsOf(CandleRows(b, trade), asset);
            && v.nativeSell == LegSum(trade.inputs, trade.outputs, asset, Amount())
            && v.usdSell == LegSum(trade.inputs, trade.outputs, asset, b.usd)
            && v.nativeBuy == LegSum(trade.outputs, trade.inputs, asset, Amount())
            && v.usdBuy == LegSum(trade.outputs, trade.inputs, asset, b.usd)
  {
    SideLegsAre(b, trade, false, Itself(), asset, asset, true);
  }

  // ---------------------------------------------------------------- one account's rows

  lemma {:induction false} CountingKeeps(rows: seq<Row<AccountKey>>, key: AccountKey)
    ensures SumsOf(CountedOnce(rows), key) == SumsOf(rows, key)
  {
    if rows != [] { CountingKeeps(rows[..|rows| - 1], key); }
  }

  lemma OnlyIsAdditive<K(!new)>(measure: Row<K> -> int, key: K)
    requires Additive(measure)
    ensures Additive(Only(measure, key))
  {
    forall x: Row<K>, y: Row<K> | x.key == y.key ensures Only(measure, key)(Merge(x, y)) == Only(measure, key)(x) + Only(measure, key)(y) {
      assert measure(Merge(x, y)) == measure(x) + measure(y);
    }
  }

  lemma AggregationKeeps<K(!new)>(rows: seq<Row<K>>, key: K)
    ensures SumsOf(Aggregate(rows), key) == SumsOf(rows, key)
  {
    FieldsAreAdditive<K>(_ => true);
    OnlyIsAdditive(NativeBuy<K>(), key);
    OnlyIsAdditive(NativeSell<K>(), key);
    OnlyIsAdditive(UsdBuy<K>(), key);
    OnlyIsAdditive(UsdSell<K>(), key);
    AggregateConserves(rows, Only(NativeBuy<K>(), key));
    AggregateConserves(rows, Only(NativeSell<K>(), key));
    AggregateConserves(rows, Only(UsdBuy<K>(), key));
    AggregateConserves(rows, Only(UsdSell<K>(), key));
  }

  /** One side's rows: of its own account what the side books, of any other account nothing. */
  lemma SideRowsSum(b: Book, trade: Trade, account: string, mirrored: bool, asset: int, other: string)
    ensures SumsOf(SideRows(b, trade, account, mirrored), AccountKey(asset, other))
         == if other == account then Booked(b, trade, asset, mirrored) else NO_VOLUME
  {
    var key := AccountKey(asset, other);
    CountingKeeps(Aggregate(SideLegs(b, trade, mirrored, ForAccount(account))), key);
    AggregationKeeps(SideLegs(b, trade, mirrored, ForAccount(account)), key);
    SideLegsAre(b, trade, mirrored, ForAccount(account), key, asset, other == account);
  }

  /** Every row of a side is its account's, counts one trade and carries its side's flag. */
  lemma SideRowsAre(b: Book, trade: Trade, account: string, mirrored: bool, row: Row<AccountKey>)
    requires row in SideRows(b, trade, account, mirrored)
    ensures row.tradeCount == 1 && row.passive == mirrored && row.key.account == account
  {
    var legs := SideLegs(b, trade, mirrored, ForAccount(account));
    var rows := SideRows(b, trade, account, mirrored);
    SideIsFlagged(b, trade, account, mirrored);
    var i :| 0 <= i < |rows| && rows[i] == row;
    CountedAt(Aggregate(legs), i);
    OwnLegs(b, trade.inputs, trade.outputs, !mirrored, account, mirrored);
    OwnLegs(b, trade.outputs, trade.inputs, mirrored, account, mirrored);
    OwnAggregate(legs, account);
  }

  ghost predicate Own(rows: seq<Row<AccountKey>>, account: string) { forall i | 0 <= i < |rows| :: rows[i].key.account == account }

  lemma {:induction false} OwnLegs(b: Book, legs: seq<Leg>, opposing: seq<Leg>, sold: bool, account: string, passive: bool)
    ensures Own(LegRows(b, legs, opposing, sold, ForAccount(account), passive), account)
  {
    if legs != [] { OwnLegs(b, legs[..|legs| - 1], opposing, sold, account, passive); }
  }

  lemma {:induction false} OwnAggregate(rows: seq<Row<AccountKey>>, account: string)
    requires Own(rows, account)
    ensures Own(Aggregate(rows), account)
  {
    if rows != [] { OwnAggregate(rows[..|rows| - 1], account); }
  }

  /** What a trade books for an account: as trader unless it is a pot, and mirrored as a counterparty
      that is not the trader itself, again unless it is a pot. */
  ghost function Due(b: Book, trade: Trade, asset: int, account: string): Volume {
    if b.pot(account) then NO_VOLUME
    else if trade.trader == Some(account) then Booked(b, trade, asset, false)
    else if trade.counterparty == Some(account) then Booked(b, trade, asset, true)
    else NO_VOLUME
  }

  lemma PrincipalRowsSum(b: Book, trade: Trade, asset: int, account: string)
    ensures SumsOf(PrincipalRows(b, trade), AccountKey(asset, account))
         == if trade.trader == Some(account) && !b.pot(account) then Booked(b, trade, asset, false) else NO_VOLUME
  {
    if Books(b, trade.trader) { SideRowsSum(b, trade, trade.trader.value, false, asset, account); }
  }

  lemma CounterpartyRowsSum(b: Book, trade: Trade, asset: int, account: string)
    ensures SumsOf(CounterpartyRows(b, trade), AccountKey(asset, account))
         == if trade.counterparty == Some(account) && trade.trader != Some(account) && !b.pot(account) then Booked(b, trade, asset, true)
            else NO_VOLUME
  {
    if BooksCounterparty(b, trade) { SideRowsSum(b, trade, trade.counterparty.value, true, asset, account); }
  }

  lemma NothingAdds(v: Volume)
    ensures Plus(v, NO_VOLUME) == v && Plus(NO_VOLUME, v) == v
  {
  }

  lemma AccountRowsAre(b: Book, trade: Trade, asset: int, account: string)
    ensures SumsOf(AccountRows(b, trade), AccountKey(asset, account)) == Due(b, trade, asset, account)
  {
    PrincipalRowsSum(b, trade, asset, account);
    CounterpartyRowsSum(b, trade, asset, account);
    AddUp(b, trade, PrincipalRows(b, trade), CounterpartyRows(b, trade), asset, account);
  }

  lemma AddUp(b: Book, trade: Trade, own: seq<Row<AccountKey>>, other: seq<Row<AccountKey>>, asset: int, account: string)
    requires SumsOf(own, AccountKey(asset, account))
          == if trade.trader == Some(account) && !b.pot(account) then Booked(b, trade, asset, false) else NO_VOLUME
    requires SumsOf(other, AccountKey(asset, account))
          == if trade.counterparty == Some(account) && trade.trader != Some(account) && !b.pot(account) then Booked(b, trade, asset, true)
             else NO_VOLUME
    ensures SumsOf(own + other, AccountKey(asset, account)) == Due(b, trade, asset, account)
  {
    SumsConcatenate(own, other, AccountKey(asset, account));
    NothingAdds(Booked(b, trade, asset, false));
    NothingAdds(Booked(b, trade, asset, true));
  }

  ghost function DueInAll(b: Book, trades: seq<Trade>, asset: int, account: string): Volume {
    if trades == [] then NO_VOLUME
    else Plus(DueInAll(b, trades[..|trades| - 1], asset, account), Due(b, trades[|trades| - 1], asset, account))
  }

  lemma {:induction false} AllAccountRowsAre(b: Book, trades: seq<Trade>, asset: int, account: string)
    ensures SumsOf(AllAccountRows(b, trades), AccountKey(asset, account)) == DueInAll(b, trades, asset, account)
  {
    if trades != [] {
      AllAccountRowsAre(b, trades[..|trades| - 1], asset, account);
      AccountRowsAre(b, trades[|trades| - 1], asset, account);
      SumsConcatenate(AllAccountRows(b, trades[..|trades| - 1]), AccountRows(b, trades[|trades| - 1]), AccountKey(asset, account));
    }
  }

  /** The row of an account and asset that a block's extraction returns carries what the block's
      trades book for it, and no row means nothing is booked. */
  lemma BlockVolumesAre(b: Book, trades: seq<Trade>, asset: int, account: string)
    ensures var row := RowFor(Aggregate(AllAccountRows(b, trades)), AccountKey(asset, account));
            (if row.Some? then row.value.volume else NO_VOLUME) == DueInAll(b, trades, asset, account)
  {
    var rows, key := AllAccountRows(b, trades), AccountKey(asset, account);
    AllAccountRowsAre(b, trades, asset, account);
    FieldsAreAdditive<AccountKey>(_ => true);
    AggregateIsSum(rows, key, NativeBuy<AccountKey>());
    AggregateIsSum(rows, key, NativeSell<AccountKey>());
    AggregateIsSum(rows, key, UsdBuy<AccountKey>());
    AggregateIsSum(rows, key, UsdSell<AccountKey>());
  }
}
