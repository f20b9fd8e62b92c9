/** Folding a routed Omnipool trade's two hub hops into the trade the user made, src/blocks/hubHops.ts. */
module HubHops {
  import opened Wrappers

  const HUB_ASSET_ID: int := 1

  datatype Leg = Leg(assetId: int, amount: int)

  datatype Trade = Trade(filler: Option<string>, inputs: seq<Leg>, outputs: seq<Leg>, trader: Option<string>)

  predicate IsOmnipoolHop(t: Trade) { t.filler == Some("Omnipool") && |t.inputs| == 1 && |t.outputs| == 1 }

  predicate PaysOutHub(t: Trade) { IsOmnipoolHop(t) && t.outputs[0].assetId == HUB_ASSET_ID }

  predicate TakesInHub(t: Trade) { IsOmnipoolHop(t) && t.inputs[0].assetId == HUB_ASSET_ID }

  /** An empty trader name counts as none. */
  predicate Foldable(first: Trade, second: Trade) {
    PaysOutHub(first) && TakesInHub(second) && first.trader.Some? && first.trader.value != "" && first.trader == second.trader
  }

  function Merged(first: Trade, second: Trade): Trade { first.(outputs := second.outputs) }

  /** What the fold returns, reading from the left. */
  function Fold(trades: seq<Trade>): seq<Trade> {
    if trades == [] then []
    else if |trades| >= 2 && Foldable(trades[0], trades[1]) then [Merged(trades[0], trades[1])] + Fold(trades[2..])
    else [trades[0]] + Fold(trades[1..])
  }

  /** What the loop does at index `i`. */
  lemma FoldFrom(trades: seq<Trade>, i: nat)
    requires i < |trades|
    ensures Fold(trades[i..])
         == if i + 1 < |trades| && Foldable(trades[i], trades[i + 1]) then [Merged(trades[i], trades[i + 1])] + Fold(trades[i + 2..])
            else [trades[i]] + Fold(trades[i + 1..])
  {
    var rest := trades[i..];
    assert rest[1..] == trades[i + 1..];
    if i + 1 < |trades| { assert rest[2..] == trades[i + 2..]; }
  }

  lemma Shift<T>(front: seq<T>, x: T, rest: seq<T>)
    ensures front + ([x] + rest) == (front + [x]) + rest
  {
  }

  method FoldOmnipoolHubHops(trades: seq<Trade>) returns (out: seq<Trade>)
    ensures out == Fold(trades)
  {
    out := [];
    var i := 0;
    ghost var rest := Fold(trades);
    assert trades[0..] == trades;
    while i < |trades|
      invariant 0 <= i <= |trades| && rest == Fold(trades[i..]) && out + rest == Fold(trades)
    {
      FoldFrom(trades, i);
      Shift(out, rest[0], rest[1..]);
      rest := rest[1..];
      if i + 1 < |trades| && PaysOutHub(trades[i]) && TakesInHub(trades[i + 1]) {
        var trader := trades[i].trader;
        if trader.Some? && trader.value != "" && trader == trades[i + 1].trader {
          out := out + [Merged(trades[i], trades[i + 1])];
          i := i + 2;
          continue;
        }
      }
      out := out + [trades[i]];
      i := i + 1;
    }
  }

  // ---------------------------------------------------------------- which hops belong together

  /** One named swapper sells an asset for the hub, asset 1, to the Omnipool, and next buys one from
      it for the hub. */
  predicate AreHubHops(first: Trade, second: Trade) {
    && first.filler == second.filler == Some("Omnipool")
    && |first.inputs| == |first.outputs| == |second.inputs| == |second.outputs| == 1
    && first.outputs[0].assetId == second.inputs[0].assetId == 1
    && first.trader == second.trader && first.trader != None && first.trader != Some("")
  }

  // ---------------------------------------------------------------- conservation

  function LegTotal(legs: seq<Leg>, asset: int): int {
    if legs == [] then 0 else (if legs[0].assetId == asset then legs[0].amount else 0) + LegTotal(legs[1..], asset)
  }

  function InputTotal(trades: seq<Trade>, trader: Option<string>, asset: int): int {
    if trades == [] then 0
    else (if trades[0].trader == trader then LegTotal(trades[0].inputs, asset) else 0) + InputTotal(trades[1..], trader, asset)
  }

  function OutputTotal(trades: seq<Trade>, trader: Option<string>, asset: int): int {
    if trades == [] then 0
    else (if trades[0].trader == trader then LegTotal(trades[0].outputs, asset) else 0) + OutputTotal(trades[1..], trader, asset)
  }

  /** Hub amounts that leave the books: what the folded first hops paid out and the folded second
      hops took in. */
  function FoldedOut(trades: seq<Trade>, trader: Option<string>): int {
    if trades == [] then 0
    else if |trades| >= 2 && AreHubHops(trades[0], trades[1]) then
      (if trades[0].trader == trader then trades[0].outputs[0].amount else 0) + FoldedOut(trades[2..], trader)
    else FoldedOut(trades[1..], trader)
  }

  function FoldedIn(trades: seq<Trade>, trader: Option<string>): int {
    if trades == [] then 0
    else if |trades| >= 2 && AreHubHops(trades[0], trades[1]) then
      (if trades[0].trader == trader then trades[1].inputs[0].amount else 0) + FoldedIn(trades[2..], trader)
    else FoldedIn(trades[1..], trader)
  }

  lemma OneLeg(legs: seq<Leg>, asset: int)
    requires |legs| == 1
    ensures LegTotal(legs, asset) == if legs[0].assetId == asset then legs[0].amount else 0
  {
    assert legs[1..] == [];
  }

  /** Per trader, every asset's totals are kept, except that the hub loses exactly what the folded
      hops carried through it. */
  lemma {:induction false} FoldConserves(trades: seq<Trade>, trader: Option<string>, asset: int)
    ensures InputTotal(Fold(trades), trader, asset)
         == InputTotal(trades, trader, asset) - (if asset == 1 then FoldedIn(trades, trader) else 0)
    ensures OutputTotal(Fold(trades), trader, asset)
         == OutputTotal(trades, trader, asset) - (if asset == 1 then FoldedOut(trades, trader) else 0)
  {
    if trades == [] {
    } else if |trades| >= 2 && AreHubHops(trades[0], trades[1]) {
      FoldConserves(trades[2..], trader, asset);
      assert trades[1..][1..] == trades[2..];
      assert Fold(trades)[1..] == Fold(trades[2..]);
      OneLeg(trades[0].outputs, asset);
      OneLeg(trades[1].inputs, asset);
    } else {
      FoldConserves(trades[1..], trader, asset);
      assert Fold(trades)[1..] == Fold(trades[1..]);
    }
  }

  // ---------------------------------------------------------------- what stays, and where

  /** `sizes[k]` trades, one or two, stand behind the k-th result. */
  function Sizes(trades: seq<Trade>): seq<nat> {
    if trades == [] then []
    else if |trades| >= 2 && AreHubHops(trades[0], trades[1]) then [2] + Sizes(trades[2..])
    else [1] + Sizes(trades[1..])
  }

  function Offset(sizes: seq<nat>, k: nat): nat
    requires k <= |sizes|
  {
    if k == 0 then 0 else sizes[0] + Offset(sizes[1..], k - 1)
  }

  /** The fold splits the list, in order, into singles and adjacent foldable pairs: a single comes
      back as it is and could not have joined the trade after it, a pair comes back merged. */
  lemma {:induction false} FoldKeepsOrder(trades: seq<Trade>, k: nat)
    requires k < |Fold(trades)|
    ensures |Sizes(trades)| == |Fold(trades)| && Offset(Sizes(trades), |Sizes(trades)|) == |trades|
    ensures var at, size := Offset(Sizes(trades), k), Sizes(trades)[k];
            at + size <= |trades| && StandsFor(trades[at..], size, Fold(trades)[k])
  {
    var n := Sizes(trades)[0];
    FoldHead(trades);
    SizesCover(trades);
    SizesCover(trades[n..]);
    if k > 0 {
      FoldKeepsOrder(trades[n..], k - 1);
      var at := Offset(Sizes(trades[n..]), k - 1);
      assert trades[n..][at..] == trades[n + at..];
    }
  }

  /** `folded` is the first of these trades, which cannot join the next, or the first two in one. */
  ghost predicate StandsFor(trades: seq<Trade>, size: nat, folded: Trade) {
    || (size == 1 && |trades| >= 1 && folded == trades[0] && (|trades| >= 2 ==> !AreHubHops(trades[0], trades[1])))
    || (size == 2 && |trades| >= 2 && AreHubHops(trades[0], trades[1])
        && folded == Trade(trades[0].filler, trades[0].inputs, trades[1].outputs, trades[0].trader))
  }

  lemma FoldHead(trades: seq<Trade>)
    requires trades != []
    ensures Sizes(trades) != [] && Fold(trades) != [] && StandsFor(trades, Sizes(trades)[0], Fold(trades)[0])
    ensures Sizes(trades)[1..] == Sizes(trades[Sizes(trades)[0]..]) && Fold(trades)[1..] == Fold(trades[Sizes(trades)[0]..])
  {
  }

  lemma {:induction false} SizesCover(trades: seq<Trade>)
    ensures |Sizes(trades)| == |Fold(trades)| && Offset(Sizes(trades), |Sizes(trades)|) == |trades|
  {
    if trades != [] {
      var n := Sizes(trades)[0];
      assert Sizes(trades)[1..] == Sizes(trades[n..]);
      SizesCover(trades[n..]);
    }
  }

  // ---------------------------------------------------------------- when nothing is left to fold

  predicate LinkAt(trades: seq<Trade>, i: int) { 0 <= i < |trades| - 1 && AreHubHops(trades[i], trades[i + 1]) }

  ghost predicate HasLink(trades: seq<Trade>) { exists i :: LinkAt(trades, i) }

  /** Three trades in a row whose neighbours both fold. */
  ghost predicate HasDoubleLink(trades: seq<Trade>) { exists i {:trigger LinkAt(trades, i)} :: LinkAt(trades, i) && LinkAt(trades, i + 1) }

  lemma LinkShifts(trades: seq<Trade>, i: int)
    requires trades != [] && 0 <= i
    ensures LinkAt(trades[1..], i) <==> LinkAt(trades, i + 1)
  {
  }

  lemma LinkFromHead(trades: seq<Trade>)
    requires trades != []
    ensures HasLink(trades) <==> LinkAt(trades, 0) || HasLink(trades[1..])
  {
    if i :| LinkAt(trades, i) {
      if i > 0 { LinkShifts(trades, i - 1); }
    }
    if i :| LinkAt(trades[1..], i) {
      LinkShifts(trades, i);
    }
  }

  lemma DoubleLinkFromHead(trades: seq<Trade>)
    requires trades != []
    ensures HasDoubleLink(trades) <==> (LinkAt(trades, 0) && LinkAt(trades, 1)) || HasDoubleLink(trades[1..])
  {
    if i :| LinkAt(trades, i) && LinkAt(trades, i + 1) {
      if i > 0 {
        LinkShifts(trades, i - 1);
        LinkShifts(trades, i);
      }
    }
    if i :| LinkAt(trades[1..], i) && LinkAt(trades[1..], i + 1) {
      LinkShifts(trades, i);
      LinkShifts(trades, i + 1);
    }
    if LinkAt(trades, 0) && LinkAt(trades, 1) { assert LinkAt(trades, 0 + 1); }
  }

  /** The folded list still holds a foldable pair exactly when the input held a double link. */
  lemma {:induction false} LeftoverIffDoubleLink(trades: seq<Trade>)
    ensures HasLink(Fold(trades)) <==> HasDoubleLink(trades)
  {
    if trades != [] {
      LinkFromHead(Fold(trades));
      DoubleLinkFromHead(trades);
      if |trades| >= 2 && AreHubHops(trades[0], trades[1]) {
        assert Fold(trades)[1..] == Fold(trades[2..]) && trades[1..][1..] == trades[2..];
        DoubleLinkFromHead(trades[1..]);
        LeftoverIffDoubleLink(trades[2..]);
      } else {
        assert Fold(trades)[1..] == Fold(trades[1..]);
        LeftoverIffDoubleLink(trades[1..]);
      }
    }
  }

  lemma {:induction false} FoldLength(trades: seq<Trade>)
    ensures |Fold(trades)| <= |trades|
    ensures |Fold(trades)| == |trades| <==> !HasLink(trades)
    ensures !HasLink(trades) ==> Fold(trades) == trades
  {
    if trades != [] {
      LinkFromHead(trades);
      if |trades| >= 2 && AreHubHops(trades[0], trades[1]) {
        FoldLength(trades[2..]);
      } else {
        FoldLength(trades[1..]);
        assert trades == [trades[0]] + trades[1..];
      }
    }
  }

  /** Folding again changes something exactly when the input held a double link. */
  lemma IdempotentIff(trades: seq<Trade>)
    ensures Fold(Fold(trades)) == Fold(trades) <==> !HasDoubleLink(trades)
  {
    LeftoverIffDoubleLink(trades);
    FoldLength(Fold(trades));
  }

  /** A double link needs a hop with the hub on both sides. */
  lemma NoHubToHubNoDoubleLink(trades: seq<Trade>)
    requires forall t | t in trades :: !(|t.inputs| == 1 && |t.outputs| == 1 && t.inputs[0].assetId == 1 && t.outputs[0].assetId == 1)
    ensures !HasLink(Fold(trades)) && Fold(Fold(trades)) == Fold(trades)
  {
    LeftoverIffDoubleLink(trades);
    IdempotentIff(trades);
    forall i ensures !(LinkAt(trades, i) && LinkAt(trades, i + 1)) {
      assert 0 <= i + 1 < |trades| ==> trades[i + 1] in trades;
    }
  }

  /** The condition is needed: three such hops by one trader fold to a list that folds again. */
  lemma HubToHubRefolds()
    ensures exists trades :: Fold(Fold(trades)) != Fold(trades)
  {
    var hop := Trade(Some("Omnipool"), [Leg(HUB_ASSET_ID, 5)], [Leg(HUB_ASSET_ID, 5)], Some("a"));
    var trades := [hop, hop, hop];
    assert LinkAt(trades, 0) && LinkAt(trades, 0 + 1);
    IdempotentIff(trades);
  }
}
