/** ERC-20 balances of pool accounts read from EVM storage in one batch, src/evm/balances.ts:76-258. */
module AtokenBalances {
  // Hashed storage keys stand for the address, slot and word they are derived from.

  import opened Wrappers

  const RAY: nat := 1_000_000_000_000_000_000_000_000_000
  const HALF_RAY: nat := 500_000_000_000_000_000_000_000_000
  const SECONDS_PER_YEAR: nat := 31_536_000
  const TWO_TO_40: nat := 0x100_0000_0000
  const TWO_TO_128: nat := 0x1_0000_0000_0000_0000_0000_0000_0000_0000
  const TWO_TO_160: nat := 0x1_0000_0000_0000_0000_0000_0000_0000_0000_0000_0000

  // Word offsets inside a reserve's struct.
  const LIQUIDITY: nat := 1
  const TIMESTAMP: nat := 3
  const ATOKEN: nat := 4

  datatype Slot = BalanceOf(holder: int) | UserState(holder: int) | ReserveWord(asset: int, offset: nat)

  datatype Key = Key(contract: int, slot: Slot)

  datatype Reserve = Reserve(pool: int, asset: int)

  /** Which assets have a contract, which of those are aTokens, and the reserve of an aToken. */
  datatype Registry = Registry(contracts: map<int, int>, atokens: set<int>, reserves: map<int, Reserve>)

  datatype Request = Request(assetIds: seq<int>, holder: int)

  /** Storage words; a missing one reads as zero. */
  type Storage = Key -> nat

  // ---------------------------------------------------------------- the arithmetic

  /** Aave's product of two ray numbers, rounding half up. */
  function RayMul(a: nat, b: nat): nat { (a * b + HALF_RAY) / RAY }

  function ScaledBalance(word: nat): nat { word % TWO_TO_128 }

  function LiquidityIndex(liquidityWord: nat): nat { liquidityWord % TWO_TO_128 }

  function LastUpdate(timestampWord: nat): nat { timestampWord / TWO_TO_128 % TWO_TO_40 }

  function Linear(rate: nat, elapsed: nat): nat { RAY + rate * elapsed / SECONDS_PER_YEAR }

  /** `normalizedIncomeFromReserveWords`; `None` for a reserve that was never initialised. */
  function NormalizedIncome(liquidityWord: nat, timestampWord: nat, t: nat): Option<nat> {
    var index, lastUpdate := LiquidityIndex(liquidityWord), LastUpdate(timestampWord);
    if index == 0 then None
    else if t <= lastUpdate then Some(index)
    else Some(RayMul(Linear(liquidityWord / TWO_TO_128, t - lastUpdate), index))
  }

  function AtokenBalance(word: nat, income: nat): nat {
    if ScaledBalance(word) == 0 then 0 else RayMul(ScaledBalance(word), income)
  }

  // ---------------------------------------------------------------- one asset

  function ReserveOf(r: Registry, asset: int): Option<Reserve>
    requires asset in r.contracts
  {
    if asset in r.atokens && r.contracts[asset] in r.reserves then Some(r.reserves[r.contracts[asset]]) else None
  }

  function WordOf(s: Storage, reserve: Reserve, offset: nat): nat { s(Key(reserve.pool, ReserveWord(reserve.asset, offset))) }

  /** What one holder has of one asset: the raw word, the aToken balance, or 0 where it cannot be told. */
  function BalanceAt(r: Registry, s: Storage, t: Option<nat>, holder: int, asset: int): nat {
    if asset !in r.contracts then 0
    else if asset !in r.atokens then s(Key(r.contracts[asset], BalanceOf(holder)))
    else if ReserveOf(r, asset).None? || t.None? then 0
    else
      var reserve, state := ReserveOf(r, asset).value, s(Key(r.contracts[asset], UserState(holder)));
      var income := NormalizedIncome(WordOf(s, reserve, LIQUIDITY), WordOf(s, reserve, TIMESTAMP), t.value);
      if WordOf(s, reserve, ATOKEN) % TWO_TO_160 != r.contracts[asset] || income.None? then 0
      else AtokenBalance(state, income.value)
  }

  // ---------------------------------------------------------------- the batch

  datatype Query = Query(request: nat, index: nat, key: Key, reserve: Option<Reserve>, isAtoken: bool)

  function QueryFor(r: Registry, requests: seq<Request>, i: nat, j: nat): Option<Query>
    requires i < |requests| && j < |requests[i].assetIds|
  {
    var asset, holder := requests[i].assetIds[j], requests[i].holder;
    if asset !in r.contracts then None
    else
      var slot := if asset in r.atokens then UserState(holder) else BalanceOf(holder);
      Some(Query(i, j, Key(r.contracts[asset], slot), ReserveOf(r, asset), asset in r.atokens))
  }

  ghost predicate IsQuery(r: Registry, requests: seq<Request>, q: Query) {
    q.request < |requests| && q.index < |requests[q.request].assetIds| && QueryFor(r, requests, q.request, q.index) == Some(q)
  }

  /** Every asked-for balance before `(i, j)` that has a contract has its query. */
  ghost predicate Asked(r: Registry, requests: seq<Request>, queries: seq<Query>, i: nat, j: nat) {
    && (forall q | q in queries :: IsQuery(r, requests, q))
    && (forall a: nat, b: nat {:trigger QueryFor(r, requests, a, b)} | a < |requests| && b < |requests[a].assetIds| && (a < i || (a == i && b < j)) ::
          QueryFor(r, requests, a, b).Some? ==> QueryFor(r, requests, a, b).value in queries)
  }

  method Ask(r: Registry, requests: seq<Request>) returns (queries: seq<Query>)
    ensures Asked(r, requests, queries, |requests|, 0)
  {
    queries := [];
    for i := 0 to |requests|
      invariant Asked(r, requests, queries, i, 0)
    {
      for j := 0 to |requests[i].assetIds|
        invariant Asked(r, requests, queries, i, j)
      {
        var query := QueryFor(r, requests, i, j);
        if query.None? {
          continue;
        }
        queries := queries + [query.value];
      }
    }
  }

  /** The three words of a reserve stand in a row. */
  ghost predicate ReserveAt(keys: seq<Key>, reserve: Reserve, at: nat) {
    && at + 2 < |keys|
    && keys[at] == Key(reserve.pool, ReserveWord(reserve.asset, LIQUIDITY))
    && keys[at + 1] == Key(reserve.pool, ReserveWord(reserve.asset, TIMESTAMP))
    && keys[at + 2] == Key(reserve.pool, ReserveWord(reserve.asset, ATOKEN))
  }

  ghost predicate Laid(queries: seq<Query>, keys: seq<Key>, offsets: map<Reserve, nat>, n: nat)
    requires n <= |queries|
  {
    && |keys| == |queries| + 3 * |offsets|
    && (forall q | 0 <= q < |queries| :: keys[q] == queries[q].key)
    && (forall reserve | reserve in offsets :: ReserveAt(keys, reserve, offsets[reserve]))
    && (forall q | 0 <= q < n :: queries[q].reserve.Some? ==> queries[q].reserve.value in offsets)
  }

  ghost predicate Uses(queries: seq<Query>, reserve: Reserve) {
    exists q :: 0 <= q < |queries| && queries[q].reserve == Some(reserve)
  }

  /** One key per query, then three per distinct reserve. */
  method LayOut(queries: seq<Query>) returns (keys: seq<Key>, offsets: map<Reserve, nat>)
    ensures Laid(queries, keys, offsets, |queries|)
    ensures forall reserve | reserve in offsets :: Uses(queries, reserve)
  {
    keys, offsets := seq(|queries|, q requires 0 <= q < |queries| => queries[q].key), map[];
    for n := 0 to |queries|
      invariant Laid(queries, keys, offsets, n)
      invariant forall reserve | reserve in offsets :: Uses(queries, reserve)
    {
      if queries[n].reserve.None? || queries[n].reserve.value in offsets {
        continue;
      }
      var reserve := queries[n].reserve.value;
      LaidGrows(queries, keys, offsets, n, reserve);
      offsets := offsets[reserve := |keys|];
      keys := keys + ReserveKeys(reserve);
    }
  }

  function ReserveKeys(reserve: Reserve): (k: seq<Key>)
    ensures |k| == 3
  {
    [Key(reserve.pool, ReserveWord(reserve.asset, LIQUIDITY)),
     Key(reserve.pool, ReserveWord(reserve.asset, TIMESTAMP)),
     Key(reserve.pool, ReserveWord(reserve.asset, ATOKEN))]
  }

  lemma LaidGrows(queries: seq<Query>, keys: seq<Key>, offsets: map<Reserve, nat>, n: nat, reserve: Reserve)
    requires n < |queries| && Laid(queries, keys, offsets, n) && queries[n].reserve == Some(reserve) && reserve !in offsets
    ensures Laid(queries, keys + ReserveKeys(reserve), offsets[reserve := |keys|], n + 1)
  {
    var keys', offsets' := keys + ReserveKeys(reserve), offsets[reserve := |keys|];
    assert forall k | 0 <= k < |keys| :: keys'[k] == keys[k];
    forall other | other in offsets' ensures ReserveAt(keys', other, offsets'[other]) {
      if other != reserve { assert ReserveAt(keys, other, offsets[other]); }
    }
  }

  /** One `getMany`. */
  method GetMany(s: Storage, keys: seq<Key>) returns (words: seq<nat>)
    ensures |words| == |keys| && forall k | 0 <= k < |keys| :: words[k] == s(keys[k])
  {
    words := seq(|keys|, k requires 0 <= k < |keys| => s(keys[k]));
  }

  /** What one query's words amount to. */
  method Evaluate(query: Query, word: nat, words: seq<nat>, offsets: map<Reserve, nat>, t: Option<nat>) returns (balance: nat)
    requires query.reserve.Some? ==> query.reserve.value in offsets && offsets[query.reserve.value] + 2 < |words|
    ensures balance == if !query.isAtoken then word
                       else if query.reserve.None? || t.None? then 0
                       else
                         var at := offsets[query.reserve.value];
                         var income := NormalizedIncome(words[at], words[at + 1], t.value);
                         if words[at + 2] % TWO_TO_160 != query.key.contract || income.None? then 0 else AtokenBalance(word, income.value)
  {
    if word == 0 {
      return 0;
    }
    if !query.isAtoken {
      return word;
    }
    if ScaledBalance(word) == 0 || query.reserve.None? || t.None? {
      return 0;
    }
    var at := offsets[query.reserve.value];
    if words[at + 2] % TWO_TO_160 != query.key.contract {
      return 0;
    }
    var income := NormalizedIncome(words[at], words[at + 1], t.value);
    balance := if income.None? then 0 else AtokenBalance(word, income.value);
  }

  ghost predicate Shaped(requests: seq<Request>, results: seq<seq<nat>>) {
    |results| == |requests| && forall i | 0 <= i < |requests| :: |results[i]| == |requests[i].assetIds|
  }

  ghost function Target(r: Registry, s: Storage, t: Option<nat>, requests: seq<Request>, i: nat, j: nat): nat
    requires i < |requests| && j < |requests[i].assetIds|
  {
    BalanceAt(r, s, t, requests[i].holder, requests[i].assetIds[j])
  }

  /** Each result is its target, or still the zero it started from. */
  ghost predicate ZeroOrTarget(r: Registry, s: Storage, t: Option<nat>, requests: seq<Request>, results: seq<seq<nat>>)
    requires Shaped(requests, results)
  {
    forall i: nat, j: nat {:trigger results[i][j]} | i < |requests| && j < |requests[i].assetIds| ::
      results[i][j] == 0 || results[i][j] == Target(r, s, t, requests, i, j)
  }

  ghost predicate Done(r: Registry, s: Storage, t: Option<nat>, requests: seq<Request>, results: seq<seq<nat>>, q: Query)
    requires Shaped(requests, results) && IsQuery(r, requests, q)
  {
    results[q.request][q.index] == Target(r, s, t, requests, q.request, q.index)
  }

  lemma QueryReadsTarget(r: Registry, s: Storage, t: Option<nat>, requests: seq<Request>, q: Query,
                         words: seq<nat>, keys: seq<Key>, offsets: map<Reserve, nat>)
    requires IsQuery(r, requests, q) && |words| == |keys| && forall k | 0 <= k < |keys| :: words[k] == s(keys[k])
    requires q.reserve.Some? ==> q.reserve.value in offsets && ReserveAt(keys, q.reserve.value, offsets[q.reserve.value])
    ensures Target(r, s, t, requests, q.request, q.index)
         == if !q.isAtoken then s(q.key)
            else if q.reserve.None? || t.None? then 0
            else
              var at := offsets[q.reserve.value];
              var income := NormalizedIncome(words[at], words[at + 1], t.value);
              if words[at + 2] % TWO_TO_160 != q.key.contract || income.None? then 0 else AtokenBalance(s(q.key), income.value)
  {
  }

  function Zeros(requests: seq<Request>): (results: seq<seq<nat>>)
    ensures |results| == |requests|
    ensures forall i | 0 <= i < |requests| :: |results[i]| == |requests[i].assetIds| && forall j | 0 <= j < |results[i]| :: results[i][j] == 0
  {
    if requests == [] then [] else Zeros(requests[..|requests| - 1]) + [ZeroRow(|requests[|requests| - 1].assetIds|)]
  }

  function ZeroRow(n: nat): (row: seq<nat>)
    ensures |row| == n && forall j | 0 <= j < n :: row[j] == 0
  {
    if n == 0 then [] else ZeroRow(n - 1) + [0]
  }

  ghost predicate AllTargets(r: Registry, s: Storage, t: Option<nat>, requests: seq<Request>, results: seq<seq<nat>>) {
    && Shaped(requests, results)
    && forall i: nat, j: nat {:trigger results[i][j]} | i < |requests| && j < |requests[i].assetIds| ::
         results[i][j] == BalanceAt(r, s, t, requests[i].holder, requests[i].assetIds[j])
  }

  ghost predicate Wanted(r: Registry, requests: seq<Request>) {
    exists i: nat, j: nat {:trigger requests[i].assetIds[j]} :: i < |requests| && j < |requests[i].assetIds| && requests[i].assetIds[j] in r.contracts
  }

  /** `results[i][j] = v`. */
  function Set(results: seq<seq<nat>>, i: nat, j: nat, v: nat): (after: seq<seq<nat>>)
    requires i < |results| && j < |results[i]|
    ensures |after| == |results| && |after[i]| == |results[i]| && after[i][j] == v
    ensures forall k | 0 <= k < |results| && k != i :: after[k] == results[k]
    ensures forall k | 0 <= k < |results[i]| && k != j :: after[i][k] == results[i][k]
  {
    var row: seq<nat> := results[i][j := v];
    results[i := row]
  }

  lemma Written(r: Registry, s: Storage, t: Option<nat>, requests: seq<Request>, results: seq<seq<nat>>, q: Query, balance: nat, p: Query)
    requires Shaped(requests, results) && ZeroOrTarget(r, s, t, requests, results) && IsQuery(r, requests, q) && IsQuery(r, requests, p)
    requires balance == Target(r, s, t, requests, q.request, q.index)
    ensures var after := Set(results, q.request, q.index, balance);
            && Shaped(requests, after) && ZeroOrTarget(r, s, t, requests, after) && Done(r, s, t, requests, after, q)
            && (Done(r, s, t, requests, results, p) ==> Done(r, s, t, requests, after, p))
  {
  }

  ghost predicate DoneBelow(r: Registry, s: Storage, t: Option<nat>, requests: seq<Request>, results: seq<seq<nat>>, queries: seq<Query>, n: nat)
    requires Shaped(requests, results) && n <= |queries|
  {
    forall p {:trigger queries[p]} | 0 <= p < n :: IsQuery(r, requests, queries[p]) && Done(r, s, t, requests, results, queries[p])
  }

  lemma AllWritten(r: Registry, s: Storage, t: Option<nat>, requests: seq<Request>, results: seq<seq<nat>>, queries: seq<Query>, q: nat, balance: nat)
    requires Shaped(requests, results) && ZeroOrTarget(r, s, t, requests, results) && q < |queries| && IsQuery(r, requests, queries[q])
    requires DoneBelow(r, s, t, requests, results, queries, q)
    requires balance == Target(r, s, t, requests, queries[q].request, queries[q].index)
    ensures var after := Set(results, queries[q].request, queries[q].index, balance);
            Shaped(requests, after) && ZeroOrTarget(r, s, t, requests, after) && DoneBelow(r, s, t, requests, after, queries, q + 1)
  {
    var after := Set(results, queries[q].request, queries[q].index, balance);
    Written(r, s, t, requests, results, queries[q], balance, queries[q]);
    forall p {:trigger queries[p]} | 0 <= p < q + 1 ensures IsQuery(r, requests, queries[p]) && Done(r, s, t, requests, after, queries[p]) {
      if p < q { Written(r, s, t, requests, results, queries[q], balance, queries[p]); }
    }
  }

  /** The queries' words, turned into balances in place. */
  method Fill(r: Registry, s: Storage, t: Option<nat>, requests: seq<Request>, queries: seq<Query>,
              words: seq<nat>, ghost keys: seq<Key>, offsets: map<Reserve, nat>)
    returns (results: seq<seq<nat>>)
    requires Asked(r, requests, queries, |requests|, 0) && Laid(queries, keys, offsets, |queries|)
    requires |words| == |keys| && forall k | 0 <= k < |keys| :: words[k] == s(keys[k])
    ensures AllTargets(r, s, t, requests, results)
  {
    results := Zeros(requests);
    for q := 0 to |queries|
      invariant Shaped(requests, results) && ZeroOrTarget(r, s, t, requests, results)
      invariant DoneBelow(r, s, t, requests, results, queries, q)
    {
      var query := queries[q];
      assert query in queries;
      var balance := Evaluate(query, words[q], words, offsets, t);
      QueryReadsTarget(r, s, t, requests, query, words, keys, offsets);
      AllWritten(r, s, t, requests, results, queries, q, balance);
      results := Set(results, query.request, query.index, balance);
    }
    AllDone(r, s, t, requests, results, queries);
  }

  /** `readErc20BalancesForHolders`: one result per asked-for asset, each what the one-asset
      definition gives; `None` where the source throws because the storage is unreadable. */
  method ReadErc20BalancesForHolders(r: Registry, s: Storage, readable: bool, t: Option<nat>, requests: seq<Request>)
    returns (results: Option<seq<seq<nat>>>)
    ensures results.None? <==> !readable && Wanted(r, requests)
    ensures results.Some? ==> AllTargets(r, s, t, requests, results.value) && AllBalances(r, s, t, requests, results.value)
  {
    var queries := Ask(r, requests);
    if |queries| == 0 {
      NobodyAsked(r, requests);
      TargetsAreBalances(r, s, t, requests, Zeros(requests));
      return Some(Zeros(requests));
    }
    if !readable {
      assert queries[0] in queries && requests[queries[0].request].assetIds[queries[0].index] in r.contracts;
      return None;
    }
    var keys, offsets := LayOut(queries);
    var words := GetMany(s, keys);
    var balances := Fill(r, s, t, requests, queries, words, keys, offsets);
    TargetsAreBalances(r, s, t, requests, balances);
    results := Some(balances);
  }

  lemma NobodyAsked(r: Registry, requests: seq<Request>)
    requires Asked(r, requests, [], |requests|, 0)
    ensures forall i: nat, j: nat | i < |requests| && j < |requests[i].assetIds| :: requests[i].assetIds[j] !in r.contracts
  {
    forall i: nat, j: nat | i < |requests| && j < |requests[i].assetIds| ensures requests[i].assetIds[j] !in r.contracts {
      assert QueryFor(r, requests, i, j).None?;
    }
  }

  lemma AllDone(r: Registry, s: Storage, t: Option<nat>, requests: seq<Request>, results: seq<seq<nat>>, queries: seq<Query>)
    requires Shaped(requests, results) && ZeroOrTarget(r, s, t, requests, results) && Asked(r, requests, queries, |requests|, 0)
    requires forall p | 0 <= p < |queries| :: IsQuery(r, requests, queries[p]) && Done(r, s, t, requests, results, queries[p])
    ensures forall i: nat, j: nat | i < |requests| && j < |requests[i].assetIds| :: results[i][j] == Target(r, s, t, requests, i, j)
  {
    forall i: nat, j: nat | i < |requests| && j < |requests[i].assetIds| ensures results[i][j] == Target(r, s, t, requests, i, j) {
      var query := QueryFor(r, requests, i, j);
      if query.Some? {
        assert query.value in queries;
        var p :| 0 <= p < |queries| && queries[p] == query.value;
        assert Done(r, s, t, requests, results, queries[p]);
      } else {
        assert results[i][j] == 0 || results[i][j] == Target(r, s, t, requests, i, j);
      }
    }
  }

  // ---------------------------------------------------------------- what a balance is

  /** The struct words of a reserve, taken apart: `rate` above `index`, a 40-bit time between
      `above` and `below`, and an address under `high`. */
  datatype Words = Words(rate: nat, index: nat, above: nat, lastUpdate: nat, below: nat, high: nat, atoken: nat)

  /** 2^32: field widths below are counted in it. */
  const W: nat := 4_294_967_296

  /** 10^9: a ray is its cube. */
  const BILLION: nat := 1_000_000_000

  ghost predicate Packed(liquidityWord: nat, timestampWord: nat, w: Words) {
    && liquidityWord == w.rate * (W * W * W * W) + w.index && w.index < W * W * W * W
    && timestampWord == (w.above * (256 * W) + w.lastUpdate) * (W * W * W * W) + w.below
    && w.lastUpdate < 256 * W && w.below < W * W * W * W
  }

  /** Words 1, 3 and 4 of the reserve's struct. */
  ghost predicate Holds(s: Storage, reserve: Reserve, w: Words) {
    && Packed(s(Key(reserve.pool, ReserveWord(reserve.asset, 1))), s(Key(reserve.pool, ReserveWord(reserve.asset, 3))), w)
    && s(Key(reserve.pool, ReserveWord(reserve.asset, 4))) == w.high * (W * W * W * W * W) + w.atoken && w.atoken < W * W * W * W * W
  }

  /** `r` is `product` over one ray, a half rounding up. */
  ghost predicate InRays(product: nat, r: nat) {
    BILLION * BILLION * BILLION * (2 * r) <= 2 * product + BILLION * BILLION * BILLION < BILLION * BILLION * BILLION * (2 * r + 2)
  }

  /** One ray and a year's rate for every 31 536 000 seconds, to the unit below. */
  ghost predicate IsFactor(rate: nat, elapsed: nat, factor: nat) {
    BILLION * BILLION * BILLION <= factor && IsFloor(rate * elapsed, factor - BILLION * BILLION * BILLION)
  }

  ghost predicate IsFloor(amount: nat, years: nat) { 31_536_000 * years <= amount < 31_536_000 * (years + 1) }

  ghost predicate Accrues(rate: nat, elapsed: nat, index: nat, income: nat) {
    exists factor: nat :: IsFactor(rate, elapsed, factor) && InRays(factor * index, income)
  }

  ghost predicate IsIncome(w: Words, t: nat, income: nat) {
    Accrues(w.rate, if t <= w.lastUpdate then 0 else t - w.lastUpdate, w.index, income)
  }

  lemma Unpacked(liquidityWord: nat, timestampWord: nat, w: Words)
    requires Packed(liquidityWord, timestampWord, w)
    ensures LiquidityIndex(liquidityWord) == w.index && liquidityWord / TWO_TO_128 == w.rate && LastUpdate(timestampWord) == w.lastUpdate
  {
    assert timestampWord / TWO_TO_128 == w.above * (256 * W) + w.lastUpdate;
  }

  lemma RayMulInRays(a: nat, b: nat)
    ensures InRays(a * b, RayMul(a, b))
  {
  }

  lemma LinearIsFactor(rate: nat, elapsed: nat)
    ensures IsFactor(rate, elapsed, Linear(rate, elapsed))
  {
  }

  /** The income is the interest since the last update on the index, each rounded as Aave does,
      and there is none exactly when the index is zero. */
  lemma IncomeIs(liquidityWord: nat, timestampWord: nat, t: nat, w: Words)
    requires Packed(liquidityWord, timestampWord, w)
    ensures w.index == 0 <==> NormalizedIncome(liquidityWord, timestampWord, t).None?
    ensures w.index != 0 ==> IsIncome(w, t, NormalizedIncome(liquidityWord, timestampWord, t).value)
  {
    Unpacked(liquidityWord, timestampWord, w);
    if w.index != 0 {
      var elapsed := if t <= w.lastUpdate then 0 else t - w.lastUpdate;
      LinearIsFactor(w.rate, elapsed);
      RayMulInRays(Linear(w.rate, elapsed), w.index);
      RayMulRounds(w.index, w.index);
      assert Linear(w.rate, 0) == RAY;
    }
  }

  /** After whole years the factor is exact. */
  lemma IncomeAfterYears(w: Words, k: nat, income: nat)
    requires IsIncome(w, w.lastUpdate + 31_536_000 * k, income)
    ensures InRays((BILLION * BILLION * BILLION + k * w.rate) * w.index, income)
  {
    var t := w.lastUpdate + 31_536_000 * k;
    var elapsed := if t <= w.lastUpdate then 0 else t - w.lastUpdate;
    var factor: nat :| IsFactor(w.rate, elapsed, factor) && InRays(factor * w.index, income);
    assert w.rate * elapsed == 31_536_000 * (k * w.rate);
    WholeYears(k * w.rate, factor - BILLION * BILLION * BILLION);
  }

  lemma WholeYears(amount: nat, years: nat)
    requires IsFloor(31_536_000 * amount, years)
    ensures years == amount
  {
  }

  /** At any time the income differs from the unrounded one by less than the two roundings: half a
      unit, and one part in 10^27 of the index. */
  lemma IncomeIsClose(w: Words, t: nat, income: nat)
    requires IsIncome(w, t, income) && w.lastUpdate <= t
    ensures var exact := w.index * (31_536_000 * (BILLION * BILLION * BILLION) + w.rate * (t - w.lastUpdate));
            exact - 31_536_000 * (w.index + BILLION * BILLION * BILLION / 2) <= 31_536_000 * (BILLION * BILLION * BILLION) * income
              <= exact + 31_536_000 * (BILLION * BILLION * BILLION / 2)
  {
    var elapsed := if t <= w.lastUpdate then 0 else t - w.lastUpdate;
    assert elapsed == t - w.lastUpdate;
    var factor: nat :| IsFactor(w.rate, elapsed, factor) && InRays(factor * w.index, income);
    ScaledFactor(w.rate * elapsed, factor, w.index);
    InRaysIsClose(factor * w.index, income);
    var exact := w.index * (31_536_000 * (BILLION * BILLION * BILLION) + w.rate * elapsed);
    Combined(exact, factor * w.index, BILLION * BILLION * BILLION * income, w.index, BILLION * BILLION * BILLION / 2);
    assert 31_536_000 * (BILLION * BILLION * BILLION) * income == 31_536_000 * (BILLION * BILLION * BILLION * income);
  }

  lemma InRaysIsClose(product: nat, r: nat)
    requires InRays(product, r)
    ensures product - BILLION * BILLION * BILLION / 2 <= BILLION * BILLION * BILLION * r <= product + BILLION * BILLION * BILLION / 2
  {
  }

  lemma Combined(exact: int, product: int, income: int, index: int, half: int)
    requires 31_536_000 * product <= exact <= 31_536_000 * product + 31_536_000 * index && product - half <= income <= product + half
    ensures exact - 31_536_000 * (index + half) <= 31_536_000 * income <= exact + 31_536_000 * half
  {
  }

  lemma ScaledFactor(amount: nat, factor: nat, index: nat)
    requires BILLION * BILLION * BILLION <= factor && IsFloor(amount, factor - BILLION * BILLION * BILLION)
    ensures 31_536_000 * (factor * index) <= index * (31_536_000 * (BILLION * BILLION * BILLION) + amount) <= 31_536_000 * (factor * index) + 31_536_000 * index
  {
    var a, b := 31_536_000 * (BILLION * BILLION * BILLION) + amount, 31_536_000 * factor;
    assert b <= a <= b + 31_536_000;
    ProductGrows(b, a, index);
    ProductGrows(a, b + 31_536_000, index);
    assert b * index == 31_536_000 * (factor * index);
    assert (b + 31_536_000) * index == 31_536_000 * (factor * index) + 31_536_000 * index;
  }

  /** What a holder has: the word of a plain token; of an aToken its scaled balance, the low half
      of the word, times the income of the reserve that names this very contract; else zero. */
  ghost predicate IsBalance(r: Registry, s: Storage, t: Option<nat>, holder: int, asset: int, balance: nat) {
    if asset !in r.contracts then balance == 0
    else if asset !in r.atokens then balance == s(Key(r.contracts[asset], BalanceOf(holder)))
    else if r.contracts[asset] !in r.reserves || t.None? then balance == 0
    else
      var contract := r.contracts[asset];
      forall w, extra: nat, scaled: nat | Holds(s, r.reserves[contract], w) && HoldsScaled(s, contract, holder, extra, scaled) ::
        IsAtokenBalance(w, scaled, contract, t.value, balance)
  }

  ghost predicate IsAtokenBalance(w: Words, scaled: nat, contract: int, t: nat, balance: nat) {
    if w.atoken != contract || w.index == 0 then balance == 0
    else exists income: nat :: IsIncome(w, t, income) && InRays(scaled * income, balance)
  }

  ghost predicate HoldsScaled(s: Storage, contract: int, holder: int, extra: nat, scaled: nat) {
    s(Key(contract, UserState(holder))) == extra * (W * W * W * W) + scaled && scaled < W * W * W * W
  }

  lemma BalanceAtIs(r: Registry, s: Storage, t: Option<nat>, holder: int, asset: int)
    ensures IsBalance(r, s, t, holder, asset, BalanceAt(r, s, t, holder, asset))
  {
    if asset in r.contracts && asset in r.atokens && r.contracts[asset] in r.reserves && t.Some? {
      var reserve := r.reserves[r.contracts[asset]];
      forall w, extra: nat, scaled: nat | Holds(s, reserve, w) && HoldsScaled(s, r.contracts[asset], holder, extra, scaled)
        ensures IsAtokenBalance(w, scaled, r.contracts[asset], t.value, BalanceAt(r, s, t, holder, asset))
      {
        AtokenBalanceIs(r, s, t.value, holder, asset, w, extra, scaled);
      }
    }
  }

  lemma AtokenBalanceIs(r: Registry, s: Storage, t: nat, holder: int, asset: int, w: Words, extra: nat, scaled: nat)
    requires asset in r.contracts && asset in r.atokens && r.contracts[asset] in r.reserves
    requires Holds(s, r.reserves[r.contracts[asset]], w) && HoldsScaled(s, r.contracts[asset], holder, extra, scaled)
    ensures IsAtokenBalance(w, scaled, r.contracts[asset], t, BalanceAt(r, s, Some(t), holder, asset))
  {
    var reserve, state := r.reserves[r.contracts[asset]], s(Key(r.contracts[asset], UserState(holder)));
    LowAddress(WordOf(s, reserve, ATOKEN), w.high, w.atoken);
    LowHalf(state, extra, scaled);
    ScaledIs(state, WordOf(s, reserve, LIQUIDITY), WordOf(s, reserve, TIMESTAMP), t, w, scaled);
  }

  lemma LowAddress(word: nat, high: nat, low: nat)
    requires word == high * (W * W * W * W * W) + low && low < W * W * W * W * W
    ensures word % TWO_TO_160 == low
  {
  }

  lemma LowHalf(word: nat, high: nat, low: nat)
    requires word == high * (W * W * W * W) + low && low < W * W * W * W
    ensures ScaledBalance(word) == low
  {
  }

  lemma ScaledIs(state: nat, liquidity: nat, timestamp: nat, t: nat, w: Words, scaled: nat)
    requires Packed(liquidity, timestamp, w) && ScaledBalance(state) == scaled
    ensures w.index == 0 <==> NormalizedIncome(liquidity, timestamp, t).None?
    ensures w.index != 0 ==> var income := NormalizedIncome(liquidity, timestamp, t).value;
                             IsIncome(w, t, income) && InRays(scaled * income, AtokenBalance(state, income))
  {
    IncomeIs(liquidity, timestamp, t, w);
    if w.index != 0 { RayMulInRays(scaled, NormalizedIncome(liquidity, timestamp, t).value); }
  }

  ghost predicate AllBalances(r: Registry, s: Storage, t: Option<nat>, requests: seq<Request>, results: seq<seq<nat>>) {
    && Shaped(requests, results)
    && forall i: nat, j: nat {:trigger results[i][j]} | i < |requests| && j < |requests[i].assetIds| ::
         IsBalance(r, s, t, requests[i].holder, requests[i].assetIds[j], results[i][j])
  }

  lemma TargetsAreBalances(r: Registry, s: Storage, t: Option<nat>, requests: seq<Request>, results: seq<seq<nat>>)
    requires AllTargets(r, s, t, requests, results)
    ensures AllBalances(r, s, t, requests, results)
  {
    forall i: nat, j: nat | i < |requests| && j < |requests[i].assetIds|
      ensures IsBalance(r, s, t, requests[i].holder, requests[i].assetIds[j], results[i][j])
    {
      BalanceAtIs(r, s, t, requests[i].holder, requests[i].assetIds[j]);
    }
  }

  /** Every storage has such words, so none escapes the definition. */
  lemma WordsExist(s: Storage, reserve: Reserve)
    ensures exists w :: Holds(s, reserve, w)
  {
    var liquidity, timestamp, word := s(Key(reserve.pool, ReserveWord(reserve.asset, 1))), s(Key(reserve.pool, ReserveWord(reserve.asset, 3))), s(Key(reserve.pool, ReserveWord(reserve.asset, 4)));
    var w := Words(liquidity / TWO_TO_128, liquidity % TWO_TO_128, timestamp / TWO_TO_128 / TWO_TO_40, timestamp / TWO_TO_128 % TWO_TO_40,
                   timestamp % TWO_TO_128, word / TWO_TO_160, word % TWO_TO_160);
    assert Holds(s, reserve, w);
  }

  lemma ScaledExists(s: Storage, contract: int, holder: int)
    ensures exists extra: nat, scaled: nat :: HoldsScaled(s, contract, holder, extra, scaled)
  {
    var word := s(Key(contract, UserState(holder)));
    assert HoldsScaled(s, contract, holder, word / TWO_TO_128, word % TWO_TO_128);
  }

  // ---------------------------------------------------------------- interest only grows

  lemma ProductGrows(a: nat, b: nat, c: nat)
    requires a <= b
    ensures a * c <= b * c
  {
  }

  lemma RayMulGrows(a: nat, b: nat, c: nat)
    requires a <= b
    ensures RayMul(a, c) <= RayMul(b, c) && RayMul(c, a) <= RayMul(c, b)
  {
    ProductGrows(a, b, c);
    assert c * a == a * c && c * b == b * c;
  }

  /** Multiplying by one ray changes nothing, and the product is off by at most half a ray. */
  lemma RayMulRounds(a: nat, b: nat)
    ensures RayMul(RAY, a) == a
    ensures RAY * RayMul(a, b) <= a * b + HALF_RAY < RAY * RayMul(a, b) + RAY
  {
    assert (RAY * a + HALF_RAY) / RAY == a;
  }

  lemma LinearGrows(rate: nat, x: nat, y: nat)
    requires x <= y
    ensures RAY <= Linear(rate, x) <= Linear(rate, y)
  {
    ProductGrows(x, y, rate);
    assert rate * x == x * rate && rate * y == y * rate;
  }

  /** Between two updates of a reserve its income never falls, and it starts at the stored index. */
  lemma IncomeGrows(liquidityWord: nat, timestampWord: nat, t: nat, u: nat)
    requires t <= u && LiquidityIndex(liquidityWord) != 0
    ensures NormalizedIncome(liquidityWord, timestampWord, t).Some? && NormalizedIncome(liquidityWord, timestampWord, u).Some?
    ensures LiquidityIndex(liquidityWord) <= NormalizedIncome(liquidityWord, timestampWord, t).value
         <= NormalizedIncome(liquidityWord, timestampWord, u).value
  {
    var index, lastUpdate, rate := LiquidityIndex(liquidityWord), LastUpdate(timestampWord), liquidityWord / TWO_TO_128;
    RayMulRounds(index, index);
    if lastUpdate < t {
      LinearGrows(rate, 0, t - lastUpdate);
      LinearGrows(rate, t - lastUpdate, u - lastUpdate);
      RayMulGrows(RAY, Linear(rate, t - lastUpdate), index);
      RayMulGrows(Linear(rate, t - lastUpdate), Linear(rate, u - lastUpdate), index);
    } else if lastUpdate < u {
      LinearGrows(rate, 0, u - lastUpdate);
      RayMulGrows(RAY, Linear(rate, u - lastUpdate), index);
    }
  }

  /** For fixed storage a holder's balance never falls as block time passes. */
  lemma BalanceGrows(r: Registry, s: Storage, t: nat, u: nat, holder: int, asset: int)
    requires t <= u
    ensures BalanceAt(r, s, Some(t), holder, asset) <= BalanceAt(r, s, Some(u), holder, asset)
  {
    if asset in r.contracts && asset in r.atokens && ReserveOf(r, asset).Some? {
      var reserve, state := ReserveOf(r, asset).value, s(Key(r.contracts[asset], UserState(holder)));
      var liquidity, timestamp := WordOf(s, reserve, LIQUIDITY), WordOf(s, reserve, TIMESTAMP);
      if LiquidityIndex(liquidity) != 0 {
        IncomeGrows(liquidity, timestamp, t, u);
        RayMulGrows(NormalizedIncome(liquidity, timestamp, t).value, NormalizedIncome(liquidity, timestamp, u).value, ScaledBalance(state));
      }
    }
  }

  /** And it is never below the scaled balance at the reserve's stored index. */
  lemma BalanceCoversIndex(word: nat, liquidityWord: nat, timestampWord: nat, t: nat)
    requires LiquidityIndex(liquidityWord) != 0
    ensures AtokenBalance(word, NormalizedIncome(liquidityWord, timestampWord, t).value) >= AtokenBalance(word, LiquidityIndex(liquidityWord))
  {
    IncomeGrows(liquidityWord, timestampWord, t, t);
    RayMulGrows(LiquidityIndex(liquidityWord), NormalizedIncome(liquidityWord, timestampWord, t).value, ScaledBalance(word));
  }
}
