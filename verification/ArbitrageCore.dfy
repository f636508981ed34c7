/**
 * Searching for a pair of opposite deals: core/arbitrage_core.py, data/trade_pair.py,
 * data/market_cap.py.
 */
module ArbitrageCore {
  import opened OrderBooks
  import opened Exchanges
  import opened Wrappers
  import opened BaseAnalysis
  import opened DealSizing
  import opened DepthPricing
  import opened StringUtils

  /** The two deals that are handed to `action_to_perform`: one volume, two limit prices. */
  datatype TradePair = TradePair(sellAt: Exchange, sellPrice: real, buyAt: Exchange, buyPrice: real, volume: real,
      difference: real)

  const MIN_FINAL_DIFFERENCE := 0.2

  /** Everything the search reads besides the two books and the caps. */
  datatype Setting = Setting(pair: Pair, sellAt: Exchange, buyAt: Exchange, balances: Balances,
                             threshold: real, binance: Option<nat>, huobi: Option<nat>, printed: Scientific) {
    predicate Valid() { (sellAt, pair.dst) in balances && (buyAt, pair.base) in balances }

    function Precision(): Option<nat> { DealSizing.Precision(sellAt, buyAt, binance, huobi) }
  }

  class MarketCap {
    var minVolumeCap: real
    var maxVolumeCap: real

    constructor (minVolumeCap: real, maxVolumeCap: real)
      ensures this.minVolumeCap == minVolumeCap && this.maxVolumeCap == maxVolumeCap
    {
      this.minVolumeCap := minVolumeCap;
      this.maxVolumeCap := maxVolumeCap;
    }

    method UpdateMaxVolumeCap(maxLimit: real)
      modifies this`maxVolumeCap
      ensures maxVolumeCap == maxLimit
    {
      maxVolumeCap := maxLimit;
    }
  }

  /** The volume before rounding. */
  function CappedVolume(setting: Setting, minCap: real, maxCap: real, bid: Deal, ask: Deal): real
    requires setting.Valid() && ask.price != 0.0
  {
    Capped(minCap, maxCap,
      DetermineMinimumVolume(setting.pair, setting.sellAt, bid, setting.buyAt, ask, setting.balances))
  }

  function SizedVolume(setting: Setting, minCap: real, maxCap: real, bid: Deal, ask: Deal): Option<real>
    requires setting.Valid() && ask.price != 0.0
  {
    RoundVolume(setting.Precision(), CappedVolume(setting, minCap, maxCap, bid, ask), setting.printed)
  }

  /** Nothing is placed, a ValueError ends the search, or a pair is placed. */
  datatype Search = NoPair | Raises | Placed(pair: TradePair)

  /** What a volume is traded for, if the spread left at the adjusted prices is still worth it. */
  function Priced(setting: Setting, bids: seq<Deal>, asks: seq<Deal>, volume: real): Search {
    var sellPrice, buyPrice := AdjustedPrice(bids, volume), AdjustedPrice(asks, volume);
    var difference := GetChange(sellPrice, buyPrice, false);
    if difference <= MIN_FINAL_DIFFERENCE then NoPair
    else Placed(TradePair(setting.sellAt, sellPrice, setting.buyAt, buyPrice, volume, difference))
  }

  /** How `search_for_arbitrage` ends. */
  function SearchForArbitrage(setting: Setting, minCap: real, maxCap: real, bids: seq<Deal>, asks: seq<Deal>): Search
    requires setting.Valid() && (asks != [] ==> asks[0].price != 0.0)
  {
    if bids == [] || asks == [] then NoPair
    else if GetChange(bids[0].price, asks[0].price, false) < setting.threshold then NoPair
    else
      match SizedVolume(setting, minCap, maxCap, bids[0], asks[0])
      case None => Raises
      case Some(volume) => if volume <= 0.0 then NoPair else Priced(setting, bids, asks, volume)
  }

  // ---------------------------------------------------------------- two frozen sides

  predicate PositivePrices(levels: seq<Deal>) { forall d | d in levels :: d.price > 0.0 }

  /** Two frozen sides, sorted as the local copies keep them. */
  ghost predicate MarketSides(bids: seq<Deal>, asks: seq<Deal>) {
    && SortedSide(Bid, bids) && PositivePrices(bids) && PositiveVolumes(bids)
    && SortedSide(Ask, asks) && PositivePrices(asks) && PositiveVolumes(asks)
  }

  /** Reaching into the depth only narrows the spread. */
  lemma DepthNarrowsTheSpread(bids: seq<Deal>, asks: seq<Deal>, volume: real)
    requires MarketSides(bids, asks) && bids != [] && asks != [] && volume > 0.0
    ensures 0.0 < AdjustedPrice(bids, volume) <= bids[0].price
    ensures 0.0 < asks[0].price <= AdjustedPrice(asks, volume)
    ensures GetChange(AdjustedPrice(bids, volume), AdjustedPrice(asks, volume), false)
      <= GetChange(bids[0].price, asks[0].price, false)
  {
    NeverBetterThanTheBest(Bid, bids, volume);
    NeverBetterThanTheBest(Ask, asks, volume);
    assert asks[0] in asks;
    ChangeIsMonotone(AdjustedPrice(bids, volume), AdjustedPrice(asks, volume), bids[0].price, asks[0].price);
  }

  // ----------------------------------------------------------- exactly when and what is placed

  /** The spread over the mid price, in percent and without its digits past the second decimal. */
  predicate SpreadReaches(bid: real, ask: real, threshold: real) {
    bid + ask != 0.0 && Percent(Spread(bid, ask)) >= threshold
  }

  /**
   * What may be placed: sold where the bids come from and bought where the asks come from, at the prices
   * of the levels that twice the volume reaches, when the best spread reaches the threshold and the
   * spread that is left is at least 0.21%.
   */
  ghost predicate IsPlacement(setting: Setting, minCap: real, maxCap: real, bids: seq<Deal>, asks: seq<Deal>,
      p: TradePair)
    requires setting.Valid() && asks != [] && bids != [] && asks[0].price != 0.0
  {
    && p.sellAt == setting.sellAt && p.buyAt == setting.buyAt
    && SpreadReaches(bids[0].price, asks[0].price, setting.threshold)
    && p.volume > 0.0 && SizedVolume(setting, minCap, maxCap, bids[0], asks[0]) == Some(p.volume)
    && PricedByDepth(bids, p.volume, p.sellPrice) && PricedByDepth(asks, p.volume, p.buyPrice)
    && p.sellPrice - p.buyPrice >= 0.0021 * (0.5 * (p.sellPrice + p.buyPrice))
    && p.sellPrice + p.buyPrice != 0.0 && p.difference == Percent(Spread(p.sellPrice, p.buyPrice))
  }

  lemma PricedIff(setting: Setting, bids: seq<Deal>, asks: seq<Deal>, volume: real, p: TradePair)
    requires MarketSides(bids, asks) && bids != [] && asks != [] && volume > 0.0
    ensures Priced(setting, bids, asks, volume) == Placed(p) <==>
      && p.sellAt == setting.sellAt && p.buyAt == setting.buyAt && p.volume == volume
      && PricedByDepth(bids, volume, p.sellPrice) && PricedByDepth(asks, volume, p.buyPrice)
      && p.sellPrice - p.buyPrice >= 0.0021 * (0.5 * (p.sellPrice + p.buyPrice))
      && p.sellPrice + p.buyPrice != 0.0 && p.difference == Percent(Spread(p.sellPrice, p.buyPrice))
  {
    WalkFindsThePrice(bids, volume, p.sellPrice);
    WalkFindsThePrice(asks, volume, p.buyPrice);
    DepthNarrowsTheSpread(bids, asks, volume);
    var sell, buy := AdjustedPrice(bids, volume), AdjustedPrice(asks, volume);
    GateIsASpreadOf21(sell, buy);
    SignedChangeIsPercent(sell, buy);
  }

  /** A search ends with a pair exactly when both sides have levels and the pair may be placed; it raises
      exactly when the threshold is reached and rounding raises. */
  lemma SearchPlacesIff(setting: Setting, minCap: real, maxCap: real, bids: seq<Deal>, asks: seq<Deal>, p: TradePair)
    requires setting.Valid() && MarketSides(bids, asks) && (asks != [] ==> asks[0].price != 0.0)
    ensures SearchForArbitrage(setting, minCap, maxCap, bids, asks) == Placed(p) <==>
      bids != [] && asks != [] && IsPlacement(setting, minCap, maxCap, bids, asks, p)
    ensures SearchForArbitrage(setting, minCap, maxCap, bids, asks) == Raises <==>
      && bids != [] && asks != []
      && SpreadReaches(bids[0].price, asks[0].price, setting.threshold)
      && SizedVolume(setting, minCap, maxCap, bids[0], asks[0]) == None
  {
    if bids != [] && asks != [] {
      assert bids[0] in bids && asks[0] in asks;
      SignedChangeIsPercent(bids[0].price, asks[0].price);
      var sized := SizedVolume(setting, minCap, maxCap, bids[0], asks[0]);
      if sized.Some? && sized.value > 0.0 {
        PricedIff(setting, bids, asks, sized.value, p);
      }
    }
  }

  // -------------------------------------------------------------- every placed pair

  /** A placed pair sells dearer than it buys, by at least 0.21% of the mid price. */
  lemma PlacedPairsHaveASpread(setting: Setting, minCap: real, maxCap: real, bids: seq<Deal>, asks: seq<Deal>)
    requires setting.Valid() && MarketSides(bids, asks) && (asks != [] ==> asks[0].price != 0.0)
    ensures var search := SearchForArbitrage(setting, minCap, maxCap, bids, asks);
      search.Placed? ==>
        && var p := search.pair;
        && p.sellPrice - p.buyPrice >= 0.0021 * (0.5 * (p.sellPrice + p.buyPrice)) > 0.0
        && MIN_FINAL_DIFFERENCE < p.difference <= GetChange(bids[0].price, asks[0].price, false)
  {
    var search := SearchForArbitrage(setting, minCap, maxCap, bids, asks);
    if search.Placed? {
      var p := search.pair;
      DepthNarrowsTheSpread(bids, asks, p.volume);
      GateIsASpreadOf21(p.sellPrice, p.buyPrice);
    }
  }

  /** The volume is printed as the setting says. */
  ghost predicate PrintsTheVolume(setting: Setting, minCap: real, maxCap: real, bids: seq<Deal>, asks: seq<Deal>)
    requires setting.Valid() && (asks != [] ==> asks[0].price != 0.0)
  {
    bids != [] && asks != [] ==> Prints(setting.printed, CappedVolume(setting, minCap, maxCap, bids[0], asks[0]))
  }

  predicate HoldsAtLeast(balances: Balances, exchange: Exchange, currency: Currency, volume: real) {
    (exchange, currency) in balances && balances[(exchange, currency)] >= volume
  }

  /** The coins are held where the pair sells, the base currency where it buys, and both orders fill. */
  ghost predicate IsCovered(setting: Setting, maxCap: real, bids: seq<Deal>, asks: seq<Deal>, p: TradePair)
    requires bids != [] && asks != []
  {
    && 0.0 < p.volume <= bids[0].volume && p.volume <= asks[0].volume
    && HoldsAtLeast(setting.balances, p.sellAt, setting.pair.dst, p.volume)
    && HoldsAtLeast(setting.balances, p.buyAt, setting.pair.base, p.volume * asks[0].price)
    && (maxCap != NO_MAX_CAP_LIMIT ==> p.volume <= maxCap)
    && OfferedAt(Bid, bids, p.sellPrice) >= p.volume
    && OfferedAt(Ask, asks, p.buyPrice) >= p.volume
  }

  lemma PlacementFitsTheMarket(setting: Setting, minCap: real, maxCap: real, bids: seq<Deal>, asks: seq<Deal>,
      p: TradePair)
    requires setting.Valid() && MarketSides(bids, asks) && bids != [] && asks != [] && asks[0].price > 0.0
    requires minCap >= 0.0 && PrintsTheVolume(setting, minCap, maxCap, bids, asks)
    requires IsPlacement(setting, minCap, maxCap, bids, asks, p)
    ensures
      var capped := CappedVolume(setting, minCap, maxCap, bids[0], asks[0]);
      if RoundsDown(setting.Precision(), capped, setting.printed) then
        && p.volume <= bids[0].volume && p.volume <= asks[0].volume
        && HoldsAtLeast(setting.balances, p.sellAt, setting.pair.dst, p.volume)
        && HoldsAtLeast(setting.balances, p.buyAt, setting.pair.base, p.volume * asks[0].price)
        && (maxCap != NO_MAX_CAP_LIMIT ==> p.volume <= maxCap)
      else p.volume > capped
  {
    SurvivingVolumeIsCovered(setting.pair, setting.sellAt, bids[0], setting.buyAt, asks[0], setting.balances,
      minCap, maxCap, setting.Precision(), setting.printed);
  }

  lemma PlacementFills(bids: seq<Deal>, asks: seq<Deal>, p: TradePair)
    requires MarketSides(bids, asks) && bids != [] && asks != []
    requires 0.0 < p.volume <= bids[0].volume && p.volume <= asks[0].volume
    requires PricedByDepth(bids, p.volume, p.sellPrice) && PricedByDepth(asks, p.volume, p.buyPrice)
    ensures OfferedAt(Bid, bids, p.sellPrice) >= p.volume && OfferedAt(Ask, asks, p.buyPrice) >= p.volume
  {
    WalkFindsThePrice(bids, p.volume, p.sellPrice);
    WalkFindsThePrice(asks, p.volume, p.buyPrice);
    SizedOrdersFillCompletely(Bid, bids, p.volume);
    SizedOrdersFillCompletely(Ask, asks, p.volume);
  }

  lemma PlacementIsCovered(setting: Setting, minCap: real, maxCap: real, bids: seq<Deal>, asks: seq<Deal>,
      p: TradePair)
    requires setting.Valid() && MarketSides(bids, asks) && bids != [] && asks != [] && asks[0].price > 0.0
    requires minCap >= 0.0 && PrintsTheVolume(setting, minCap, maxCap, bids, asks)
    requires IsPlacement(setting, minCap, maxCap, bids, asks, p)
    ensures
      var capped := CappedVolume(setting, minCap, maxCap, bids[0], asks[0]);
      if RoundsDown(setting.Precision(), capped, setting.printed) then IsCovered(setting, maxCap, bids, asks, p)
      else p.volume > capped
  {
    PlacementFitsTheMarket(setting, minCap, maxCap, bids, asks, p);
    if RoundsDown(setting.Precision(), CappedVolume(setting, minCap, maxCap, bids[0], asks[0]), setting.printed) {
      PlacementFills(bids, asks, p);
    }
  }

  /** Both its orders are covered by the market and the balances, and would fill against frozen books,
      unless rounding cut into scientific notation; then more than what was sized is placed. */
  lemma PlacedPairsAreCovered(setting: Setting, minCap: real, maxCap: real, bids: seq<Deal>, asks: seq<Deal>)
    requires setting.Valid() && MarketSides(bids, asks) && (asks != [] ==> asks[0].price != 0.0) && minCap >= 0.0
    requires PrintsTheVolume(setting, minCap, maxCap, bids, asks)
    ensures var search := SearchForArbitrage(setting, minCap, maxCap, bids, asks);
      search.Placed? ==>
        var capped := CappedVolume(setting, minCap, maxCap, bids[0], asks[0]);
        if RoundsDown(setting.Precision(), capped, setting.printed) then
          IsCovered(setting, maxCap, bids, asks, search.pair)
        else search.pair.volume > capped
  {
    var search := SearchForArbitrage(setting, minCap, maxCap, bids, asks);
    if search.Placed? {
      SearchPlacesIff(setting, minCap, maxCap, bids, asks, search.pair);
      assert asks[0] in asks;
      PlacementIsCovered(setting, minCap, maxCap, bids, asks, search.pair);
    }
  }

  // ------------------------------------------------------------------------- profit

  /** What selling brings in after its fee, less what buying costs with its fee. */
  function NetProfit(volume: real, sellPrice: real, sellFee: real, buyPrice: real, buyFee: real): real {
    volume * sellPrice * (0.01 * (100.0 - sellFee)) - volume * buyPrice * (0.01 * (100.0 + buyFee))
  }

  function ComputeProfit(p: TradePair): real {
    NetProfit(p.volume, p.sellPrice, Fee(p.sellAt), p.buyPrice, Fee(p.buyAt))
  }

  /** The spread, relative to the mid price, at which the fees are earned back. */
  function BreakEven(f1: real, f2: real): real
    requires f1 < 200.0 + f2
  {
    (f1 + f2) / 100.0 / (1.0 + (f2 - f1) / 200.0)
  }

  lemma ProfitIsAScaledExcess(f1: real, f2: real, s: real, b: real)
    requires f1 < 200.0 + f2 && s + b > 0.0
    ensures s * (0.01 * (100.0 - f1)) - b * (0.01 * (100.0 + f2))
      == (Spread(s, b) - BreakEven(f1, f2)) * ((1.0 + (f2 - f1) / 200.0) * (0.5 * (s + b)))
  {
  }

  lemma ExcessDecides(excess: real, q: real, mid: real, unit: real)
    requires q > 0.0 && mid > 0.0 && unit == excess * (q * mid)
    ensures unit > 0.0 <==> excess > 0.0
  {
  }

  lemma UnitProfitIff(f1: real, f2: real, s: real, b: real)
    requires f1 < 200.0 + f2 && s + b > 0.0
    ensures s * (0.01 * (100.0 - f1)) - b * (0.01 * (100.0 + f2)) > 0.0 <==> Spread(s, b) > BreakEven(f1, f2)
  {
    ProfitIsAScaledExcess(f1, f2, s, b);
    ExcessDecides(Spread(s, b) - BreakEven(f1, f2), 1.0 + (f2 - f1) / 200.0, 0.5 * (s + b),
                  s * (0.01 * (100.0 - f1)) - b * (0.01 * (100.0 + f2)));
  }

  lemma VolumeScales(v: real, s: real, x: real, b: real, y: real)
    requires v > 0.0
    ensures v * s * x - v * b * y > 0.0 <==> s * x - b * y > 0.0
  {
  }

  lemma NetProfitIff(v: real, s: real, f1: real, b: real, f2: real)
    requires v > 0.0 && s > 0.0 && b > 0.0 && f1 < 200.0 + f2
    ensures NetProfit(v, s, f1, b, f2) > 0.0 <==> Spread(s, b) > BreakEven(f1, f2)
  {
    VolumeScales(v, s, 0.01 * (100.0 - f1), b, 0.01 * (100.0 + f2));
    UnitProfitIff(f1, f2, s, b);
  }

  /** A pair earns money exactly when its spread exceeds the break-even spread of its two fees. */
  lemma ProfitIffAboveBreakEven(p: TradePair)
    requires p.volume > 0.0 && p.sellPrice > 0.0 && p.buyPrice > 0.0
    ensures ComputeProfit(p) > 0.0 <==> Spread(p.sellPrice, p.buyPrice) > BreakEven(Fee(p.sellAt), Fee(p.buyAt))
  {
    NetProfitIff(p.volume, p.sellPrice, Fee(p.sellAt), p.buyPrice, Fee(p.buyAt));
  }

  lemma BreakEvenBounds(f1: real, f2: real)
    requires 0.0 < f1 <= 0.26 && 0.0 < f2 <= 0.26
    ensures BreakEven(f1, f2) < 0.0053
    ensures f1 + f2 >= 0.3 ==> BreakEven(f1, f2) > 0.0029
  {
    var e, q := BreakEven(f1, f2), 1.0 + (f2 - f1) / 200.0;
    assert e * q == (f1 + f2) / 100.0;
    assert 0.998 < q < 1.002;
    if e >= 0.0053 {
      SmallerIsCheaper(0.0053, e, q);
    }
    if f1 + f2 >= 0.3 && e <= 0.0029 {
      SmallerIsCheaper(e, 0.0029, q);
    }
  }

  /**
   * The gate at 0.2% lets losing pairs through: the fees of any two exchanges eat a spread of up to
   * 0.29%. A difference above 0.52 always earns.
   */
  lemma GateAndProfit(p: TradePair)
    requires p.volume > 0.0 && p.sellPrice > 0.0 && p.buyPrice > 0.0 && p.sellAt != p.buyAt
    requires p.difference == GetChange(p.sellPrice, p.buyPrice, false)
    ensures Spread(p.sellPrice, p.buyPrice) <= 0.0029 ==> ComputeProfit(p) <= 0.0
    ensures p.difference > 0.52 ==> ComputeProfit(p) > 0.0
  {
    BreakEvenBounds(Fee(p.sellAt), Fee(p.buyAt));
    ProfitIffAboveBreakEven(p);
    SignedChangeIsPercent(p.sellPrice, p.buyPrice);
    PercentAbove(Spread(p.sellPrice, p.buyPrice), 52);
  }

  lemma APlacedPairMayLose()
    ensures var deals := map[(Bittrex, "XRP") := 1000.0, (Poloniex, "BTC") := 1000.0];
      var setting := Setting(Pair("BTC", "XRP"), Bittrex, Poloniex, deals, 0.2, None, None, TINY);
      var search := SearchForArbitrage(setting, 0.0, 0.0, [Deal(1.0025, 2.0)], [Deal(1.0, 2.0)]);
      search.Placed? && ComputeProfit(search.pair) < 0.0
  {
    var deals := map[(Bittrex, "XRP") := 1000.0, (Poloniex, "BTC") := 1000.0];
    assert deals[(Bittrex, "XRP")] == 1000.0 && deals[(Poloniex, "BTC")] == 1000.0;
    var setting := Setting(Pair("BTC", "XRP"), Bittrex, Poloniex, deals, 0.2, None, None, TINY);
    var bid, ask := Deal(1.0025, 2.0), Deal(1.0, 2.0);
    assert DetermineMinimumVolume(setting.pair, Bittrex, bid, Poloniex, ask, deals) == 2.0;
    assert CappedVolume(setting, 0.0, 0.0, bid, ask) == 2.0;
    assert SizedVolume(setting, 0.0, 0.0, bid, ask) == Some(2.0);
    GateIsASpreadOf21(1.0025, 1.0);
  }

  // ------------------------------------------------------- rebalancing: REVERSE trades

  predicate IsThereDisbalance(balances: Balances, currency: Currency, src: Exchange, dst: Exchange, threshold: real)
    requires (src, currency) in balances && (dst, currency) in balances
  {
    GetChange(balances[(src, currency)], balances[(dst, currency)], false) > threshold
  }

  /** Half of what the two balances differ by: moving it makes them equal. */
  function HalfTheDifference(src: real, dst: real): real {
    0.5 * (if dst < src then src - dst else dst - src)
  }

  /** What the two exchanges hold of the currency to be traded. */
  function SellersCoins(setting: Setting): real
    requires setting.Valid()
  {
    setting.balances[(setting.sellAt, setting.pair.dst)]
  }

  function BuyersCoins(setting: Setting): real
    requires (setting.buyAt, setting.pair.dst) in setting.balances
  {
    setting.balances[(setting.buyAt, setting.pair.dst)]
  }

  function RebalancingCap(setting: Setting): real
    requires setting.Valid() && (setting.buyAt, setting.pair.dst) in setting.balances
  {
    HalfTheDifference(SellersCoins(setting), BuyersCoins(setting))
  }

  /** Moving it makes the two balances equal. */
  lemma HalfMakesThemEqual(src: real, dst: real)
    ensures var half := HalfTheDifference(src, dst);
      && half >= 0.0
      && (src >= dst ==> src - half == dst + half)
      && (src <= dst ==> src + half == dst - half)
  {
  }

  method AdjustCurrencyBalance(setting: Setting, balanceThreshold: real, dealCap: MarketCap, bids: seq<Deal>,
      asks: seq<Deal>)
    returns (search: Search)
    requires setting.Valid() && (setting.buyAt, setting.pair.dst) in setting.balances
    requires asks != [] ==> asks[0].price != 0.0
    modifies dealCap`maxVolumeCap
    ensures
      var src, dst := SellersCoins(setting), BuyersCoins(setting);
      if GetChange(src, dst, false) > balanceThreshold then
        && dealCap.maxVolumeCap == HalfTheDifference(src, dst)
        && search == SearchForArbitrage(setting, dealCap.minVolumeCap, HalfTheDifference(src, dst), bids, asks)
      else
        dealCap.maxVolumeCap == old(dealCap.maxVolumeCap) && search == NoPair
  {
    var dst := setting.pair.dst;
    if IsThereDisbalance(setting.balances, dst, setting.sellAt, setting.buyAt, balanceThreshold) {
      dealCap.UpdateMaxVolumeCap(HalfTheDifference(SellersCoins(setting), BuyersCoins(setting)));
      search := SearchForArbitrage(setting, dealCap.minVolumeCap, dealCap.maxVolumeCap, bids, asks);
    } else {
      search := NoPair;
    }
  }

  /** The cap that rebalancing sets is a real limit, for all balances, exactly from a threshold of 0.001 on. */
  lemma RebalancingIsLimitedIff(threshold: real)
    ensures threshold >= 0.001 <==>
      forall src: real, dst: real :: src >= 0.0 && dst >= 0.0 && GetChange(src, dst, false) > threshold ==>
        HalfTheDifference(src, dst) > NO_MAX_CAP_LIMIT
  {
    if threshold >= 0.001 {
      forall src: real, dst: real | src >= 0.0 && dst >= 0.0 && GetChange(src, dst, false) > threshold
        ensures HalfTheDifference(src, dst) > NO_MAX_CAP_LIMIT
      {
        ChangeAboveTheFloor(src, dst, threshold);
      }
    } else {
      assert GetChange(1.0, 1.0, false) == 0.001;
      assert HalfTheDifference(1.0, 1.0) == NO_MAX_CAP_LIMIT;
    }
  }

  /** So no rebalancing trade leaves the seller with less than the buyer, unless rounding cut into
      scientific notation. */
  lemma RebalancingNeverOvershoots(setting: Setting, balanceThreshold: real, minCap: real, bids: seq<Deal>,
      asks: seq<Deal>)
    requires setting.Valid() && (setting.buyAt, setting.pair.dst) in setting.balances
    requires MarketSides(bids, asks) && (asks != [] ==> asks[0].price != 0.0)
    requires minCap >= 0.0 && balanceThreshold >= 0.001
    requires SellersCoins(setting) >= 0.0 && BuyersCoins(setting) >= 0.0
    requires PrintsTheVolume(setting, minCap, RebalancingCap(setting), bids, asks)
    ensures
      var src, dst := SellersCoins(setting), BuyersCoins(setting);
      var cap := RebalancingCap(setting);
      var search := SearchForArbitrage(setting, minCap, cap, bids, asks);
      GetChange(src, dst, false) > balanceThreshold && search.Placed? &&
      RoundsDown(setting.Precision(), CappedVolume(setting, minCap, cap, bids[0], asks[0]), setting.printed) ==>
        src - search.pair.volume >= dst + search.pair.volume
  {
    var src, dst := SellersCoins(setting), BuyersCoins(setting);
    if GetChange(src, dst, false) > balanceThreshold {
      ChangeAboveTheFloor(src, dst, balanceThreshold);
      PlacedPairsAreCovered(setting, minCap, RebalancingCap(setting), bids, asks);
    }
  }
}
