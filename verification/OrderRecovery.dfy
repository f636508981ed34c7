/**
 * What becomes of an order that did not fill or was not confirmed: core/expired_order.py,
 * core/failed_order.py and `place_order_by_market_rate` of core/arbitrage_core.py.
 *
 * The exchange, the caches and the clock are inputs: one record of answers per processed order.
 */
module OrderRecovery {
  import opened OrderBooks
  import opened Exchanges
  import opened Wrappers
  import opened DealSizing
  import opened DepthPricing
  import opened StringUtils

  datatype TradeType = SELL | BUY

  /** An order as it is pickled into the queues. */
  datatype Order = Order(tradeType: TradeType, exchange: Exchange, pair: Pair, price: real, volume: real,
                         executedVolume: Option<real>, orderId: Option<string>, createTime: int, arbitrageId: int)

  /** An order as the exchange reports it. */
  datatype ExchangeOrder = ExchangeOrder(tradeType: TradeType, exchange: Exchange, pair: Pair, price: real,
                                         volume: real, executedVolume: real, orderId: string, createTime: int)

  /** What no step ever changes about an order. */
  datatype Identity = Identity(arbitrageId: int, tradeType: TradeType, exchange: Exchange, pair: Pair)

  function IdentityOf(o: Order): Identity { Identity(o.arbitrageId, o.tradeType, o.exchange, o.pair) }

  datatype BookSides = BookSides(bids: seq<Deal>, asks: seq<Deal>)

  /** Where a processed order ends. */
  datatype Fate =
    | Rewatched(order: Order)
    | Refailed(order: Order)
    | Replaced(order: Order)   // recorded as placed and watched again
    | Closed(order: Order)
    | TooSmall(order: Order)
    | Lost(order: Order)       // an exception after it was taken and before it was pushed anywhere

  // ------------------------------------------------------------------ placing again

  /** What the exchange, the cache and the clock answer while an order is placed again. */
  datatype Market = Market(ticker: Option<real>, book: Option<BookSides>, bookExpired: bool,
                           balance: map<Currency, real>, balanceExpired: bool, precision: Option<nat>,
                           printed: Scientific, now: int, placed: Option<string>)

  const MIN_VOLUME_COEFFICIENT: map<Currency, real> := map["BTC" := 0.004, "ETH" := 0.04, "USDT" := 40.0]

  predicate Priced(pair: Pair) { pair.base in MIN_VOLUME_COEFFICIENT }

  function ComputeMinCapFromTicker(pair: Pair, ask: real): real
    requires Priced(pair)
  {
    if ask > 0.0 then MIN_VOLUME_COEFFICIENT[pair.base] / ask else 0.0
  }

  /** `Balance.do_we_have_enough`: strictly more than asked for. */
  predicate MoreThan(balance: map<Currency, real>, currency: Currency, threshold: real) {
    currency in balance && balance[currency] > threshold
  }

  /** None where a missing balance or a zero price raises. */
  function DetermineMaximumVolumeByBalance(o: Order, balance: map<Currency, real>): Option<real> {
    match o.tradeType
    case SELL =>
      if MoreThan(balance, o.pair.dst, o.volume) then Some(o.volume)
      else if o.pair.dst in balance then Some(balance[o.pair.dst]) else None
    case BUY =>
      if MoreThan(balance, o.pair.base, o.volume * o.price) then Some(o.volume)
      else if o.pair.base in balance && o.price != 0.0 then Some(WhatBasePaysFor(balance[o.pair.base], o.price))
      else None
  }

  /** `takesLogFile` says whether `add_order` accepts the log file name it is called with here. */
  function PlaceOrderByMarketRate(o: Order, minVolume: real, m: Market, takesLogFile: bool): Fate {
    match DetermineMaximumVolumeByBalance(o, m.balance)
    case None => Lost(o)
    case Some(determined) =>
      match RoundVolume(m.precision, determined, m.printed)
      case None => Lost(o)
      case Some(maxVolume) =>
        if maxVolume < minVolume then TooSmall(o)
        else
          var sent := o.(volume := maxVolume, createTime := m.now);
          if m.placed.Some? then Replaced(sent.(orderId := m.placed))
          else if takesLogFile then Refailed(sent)
          else Lost(sent)
  }

  function SideFor(o: Order, b: BookSides): seq<Deal> { if o.tradeType == SELL then b.bids else b.asks }

  function Repriced(o: Order, b: BookSides): Order { o.(price := AdjustedPrice(SideFor(o, b), o.volume)) }

  /** The tail both services share; `back` is where an order goes when an answer is missing. */
  function ReplaceOrder(o: Order, m: Market, back: Order -> Fate, takesLogFile: bool): Fate
    requires Priced(o.pair)
  {
    if m.ticker == None || m.book == None || m.bookExpired then back(o)
    else
      var repriced := Repriced(o, m.book.value);
      if m.balanceExpired then back(repriced)
      else PlaceOrderByMarketRate(repriced, ComputeMinCapFromTicker(o.pair, m.ticker.value), m, takesLogFile)
  }

  // ----------------------------------------------------------------- expired orders

  /** `Trade.__eq__`. */
  predicate SameOrder(e: ExchangeOrder, o: Order) {
    o.orderId == Some(e.orderId) && e.tradeType == o.tradeType && e.exchange == o.exchange && e.pair == o.pair
  }

  function WithExecuted(e: ExchangeOrder, o: Order): Order {
    if o.exchange != Poloniex then o.(volume := o.volume - e.executedVolume, executedVolume := Some(e.executedVolume))
    else o.(executedVolume := Some(o.volume - e.volume), volume := e.volume)
  }

  /** `executed_volume_updated`: the first open order that is this one decides. */
  function ExecutedVolumeUpdated(open: seq<ExchangeOrder>, o: Order): (r: Order)
    ensures IdentityOf(r) == IdentityOf(o)
  {
    if open == [] then o
    else if SameOrder(open[0], o) then WithExecuted(open[0], o)
    else ExecutedVolumeUpdated(open[1..], o)
  }

  datatype ExpiredAnswers = ExpiredAnswers(open: Option<seq<ExchangeOrder>>, cancelled: bool, market: Market)

  function ProcessExpiredOrder(o: Order, a: ExpiredAnswers, takesLogFile: bool): Fate
    requires Priced(o.pair)
  {
    if a.open == None then Rewatched(o)
    else if a.open.value == [] then Closed(o)
    else
      var updated := ExecutedVolumeUpdated(a.open.value, o);
      if !a.cancelled then Rewatched(updated)
      else ReplaceOrder(updated, a.market, (x: Order) => Rewatched(x), takesLogFile)
  }

  // ------------------------------------------------------------------ failed orders

  /** Seconds between the order and its report. */
  const MATCH_WINDOW := 15

  predicate MayBe(e: ExchangeOrder, o: Order) {
    && o.pair == e.pair && o.tradeType == e.tradeType && o.price == e.price
    && 0 <= e.createTime - o.createTime < MATCH_WINDOW
  }

  /** `try_to_set_order_id`: every match counts, each compared with what the one before left. */
  function TryToSetOrderId(found: seq<ExchangeOrder>, o: Order): (r: Order)
    ensures IdentityOf(r) == IdentityOf(o) && r.price == o.price && r.volume == o.volume
    decreases |found|
  {
    if found == [] then o
    else
      var o' := TryToSetOrderId(found[..|found| - 1], o);
      var e := found[|found| - 1];
      if MayBe(e, o') then o'.(orderId := Some(e.orderId), createTime := e.createTime) else o'
  }

  datatype FailedAnswers = FailedAnswers(open: seq<ExchangeOrder>, history: seq<ExchangeOrder>, market: Market)

  function ProcessFailedOrder(o: Order, a: FailedAnswers, takesLogFile: bool): Fate
    requires Priced(o.pair)
  {
    var inOpen := TryToSetOrderId(a.open, o);
    if inOpen.orderId.Some? then Rewatched(inOpen)
    else
      var inHistory := TryToSetOrderId(a.history, inOpen);
      if inHistory.orderId.Some? then Closed(inHistory)
      else ReplaceOrder(inHistory, a.market, (x: Order) => Refailed(x), takesLogFile)
  }

  // -------------------------------------------------------------- the two services

  /** The queues in Redis. The two message queues are pushed at the front. */
  class Services {
    var watch: multiset<Order>
    var failed: seq<Order>
    var placed: seq<Order>
    const takesLogFile: bool

    constructor (takesLogFile: bool)
      ensures watch == multiset{} && failed == [] && placed == [] && this.takesLogFile == takesLogFile
    {
      this.takesLogFile := takesLogFile;
      watch, failed, placed := multiset{}, [], [];
    }

    method UpdateExecutedVolume(open: seq<ExchangeOrder>, expired: Order) returns (o: Order, updated: bool)
      ensures o == ExecutedVolumeUpdated(open, expired)
      ensures updated <==> exists e | e in open :: SameOrder(e, expired)
    {
      o := expired;
      for i := 0 to |open|
        invariant o == expired && ExecutedVolumeUpdated(open, expired) == ExecutedVolumeUpdated(open[i..], expired)
        invariant forall k | 0 <= k < i :: !SameOrder(open[k], expired)
      {
        if SameOrder(open[i], o) {
          return WithExecuted(open[i], o), true;
        }
      }
      updated := false;
    }

    method SetOrderId(found: seq<ExchangeOrder>, failedOrder: Order) returns (o: Order)
      ensures o == TryToSetOrderId(found, failedOrder)
    {
      o := failedOrder;
      for i := 0 to |found|
        invariant o == TryToSetOrderId(found[..i], failedOrder)
      {
        assert found[..i + 1][..i] == found[..i];
        if MayBe(found[i], o) {
          o := o.(orderId := Some(found[i].orderId), createTime := found[i].createTime);
        }
      }
      assert found[..|found|] == found;
    }

    method PlaceByMarketRate(o: Order, minVolume: real, m: Market) returns (fate: Fate)
      modifies this
      ensures fate == PlaceOrderByMarketRate(o, minVolume, m, takesLogFile)
      ensures watch == old(watch) + if fate.Rewatched? || fate.Replaced? then multiset{fate.order} else multiset{}
      ensures failed == (if fate.Refailed? then [fate.order] else []) + old(failed)
      ensures placed == (if fate.Replaced? then [fate.order] else []) + old(placed)
    {
      var determined := DetermineMaximumVolumeByBalance(o, m.balance);
      if determined == None {
        return Lost(o);
      }
      var maxVolume := RoundVolume(m.precision, determined.value, m.printed);
      if maxVolume == None {
        return Lost(o);
      }
      if maxVolume.value < minVolume {
        return TooSmall(o);
      }
      var order := o.(volume := maxVolume.value, createTime := m.now);
      if m.placed.Some? {
        order := order.(orderId := m.placed);
        placed := [order] + placed;
        watch := watch + multiset{order};
        fate := Replaced(order);
      } else if takesLogFile {
        failed := [order] + failed;
        fate := Refailed(order);
      } else {
        fate := Lost(order);
      }
    }

    method ProcessExpired(expired: Order, a: ExpiredAnswers) returns (fate: Fate)
      requires Priced(expired.pair)
      modifies this
      ensures fate == ProcessExpiredOrder(expired, a, takesLogFile)
      ensures watch == old(watch) + if fate.Rewatched? || fate.Replaced? then multiset{fate.order} else multiset{}
      ensures failed == (if fate.Refailed? then [fate.order] else []) + old(failed)
      ensures placed == (if fate.Replaced? then [fate.order] else []) + old(placed)
    {
      if a.open == None {
        watch := watch + multiset{expired};
        return Rewatched(expired);
      }
      if a.open.value == [] {
        return Closed(expired);
      }
      var order, _ := UpdateExecutedVolume(a.open.value, expired);
      var m := a.market;
      if !a.cancelled || m.ticker == None || m.book == None || m.bookExpired {
        watch := watch + multiset{order};
        return Rewatched(order);
      }
      var minVolume := ComputeMinCapFromTicker(order.pair, m.ticker.value);
      order := Repriced(order, m.book.value);
      if m.balanceExpired {
        // and then the service dies
        watch := watch + multiset{order};
        return Rewatched(order);
      }
      fate := PlaceByMarketRate(order, minVolume, m);
    }

    method ProcessFailed(failedOrder: Order, a: FailedAnswers) returns (fate: Fate)
      requires Priced(failedOrder.pair)
      modifies this
      ensures fate == ProcessFailedOrder(failedOrder, a, takesLogFile)
      ensures watch == old(watch) + if fate.Rewatched? || fate.Replaced? then multiset{fate.order} else multiset{}
      ensures failed == (if fate.Refailed? then [fate.order] else []) + old(failed)
      ensures placed == (if fate.Replaced? then [fate.order] else []) + old(placed)
    {
      var order := SetOrderId(a.open, failedOrder);
      if order.orderId.Some? {
        watch := watch + multiset{order};
        return Rewatched(order);
      }
      order := SetOrderId(a.history, order);
      if order.orderId.Some? {
        return Closed(order);
      }
      var m := a.market;
      if m.ticker == None || m.book == None || m.bookExpired {
        failed := [order] + failed;
        return Refailed(order);
      }
      var minVolume := ComputeMinCapFromTicker(order.pair, m.ticker.value);
      order := Repriced(order, m.book.value);
      if m.balanceExpired {
        // and then the service dies
        failed := [order] + failed;
        return Refailed(order);
      }
      fate := PlaceByMarketRate(order, minVolume, m);
    }
  }
}
