/**
 * Matching recorded orders with the exchanges' trades: analysis/grouping_utils.py.
 */
module OrderGrouping {
  import opened Exchanges
  import opened Wrappers

  datatype TradeSide = SELL | BUY | OtherSide

  datatype RecordedOrder = RecordedOrder(orderId: Option<string>, arbitrageId: int, tradeType: TradeSide,
      exchange: Exchange, pairId: nat)

  datatype HistoryTrade = HistoryTrade(orderId: Option<string>, exchange: Exchange, executedVolume: real, price: real)

  /** An order together with its trades. */
  datatype Entry = Entry(order: RecordedOrder, trades: seq<HistoryTrade>)

  function TradesOf(o: RecordedOrder, history: seq<HistoryTrade>): seq<HistoryTrade> {
    if history == [] then []
    else (if history[0].orderId == o.orderId then [history[0]] else []) + TradesOf(o, history[1..])
  }

  datatype Bucket = Failed | Missing | WithTrades

  /** Where an order belongs. */
  function BucketOf(o: RecordedOrder, history: seq<HistoryTrade>): Bucket {
    if o.orderId == None then Failed
    else if exists t | t in history :: t.orderId == o.orderId then WithTrades
    else Missing
  }

  /** Of the first `n` orders, those of one exchange that belong in one bucket. */
  function InBucket(orders: seq<RecordedOrder>, n: nat, history: seq<HistoryTrade>, b: Bucket,
      x: Exchange)
    : seq<RecordedOrder>
    requires n <= |orders|
  {
    if n == 0 then []
    else if BucketOf(orders[n - 1], history) == b && orders[n - 1].exchange == x then
      InBucket(orders, n - 1, history, b, x) + [orders[n - 1]]
    else InBucket(orders, n - 1, history, b, x)
  }

  function Matched(orders: seq<RecordedOrder>, n: nat, history: seq<HistoryTrade>): seq<Entry>
    requires n <= |orders|
  {
    if n == 0 then []
    else if BucketOf(orders[n - 1], history) == WithTrades then
      Matched(orders, n - 1, history) + [Entry(orders[n - 1], TradesOf(orders[n - 1], history))]
    else Matched(orders, n - 1, history)
  }

  function At(m: map<Exchange, seq<RecordedOrder>>, x: Exchange): seq<RecordedOrder> { if x in m then m[x] else [] }

  method FirstTrade(o: RecordedOrder, history: seq<HistoryTrade>) returns (found: bool)
    ensures found <==> exists t | t in history :: t.orderId == o.orderId
  {
    for i := 0 to |history|
      invariant forall k | 0 <= k < i :: history[k].orderId != o.orderId
    {
      if history[i].orderId == o.orderId {
        return true;
      }
    }
    found := false;
  }

  method CurrentTrades(o: RecordedOrder, history: seq<HistoryTrade>) returns (trades: seq<HistoryTrade>)
    ensures trades == TradesOf(o, history)
  {
    trades := [];
    for i := 0 to |history|
      invariant trades + TradesOf(o, history[i..]) == TradesOf(o, history)
    {
      if history[i].orderId == o.orderId {
        trades := trades + [history[i]];
      }
    }
  }

  method GroupTradesByOrders(orders: seq<RecordedOrder>, history: seq<HistoryTrade>)
    returns (missing: map<Exchange, seq<RecordedOrder>>, failed: map<Exchange, seq<RecordedOrder>>,
      withTrades: seq<Entry>)
    ensures forall x :: At(missing, x) == InBucket(orders, |orders|, history, Missing, x)
    ensures forall x :: At(failed, x) == InBucket(orders, |orders|, history, Failed, x)
    ensures withTrades == Matched(orders, |orders|, history)
  {
    missing, failed, withTrades := map[], map[], [];
    for i := 0 to |orders|
      invariant forall x :: At(missing, x) == InBucket(orders, i, history, Missing, x)
      invariant forall x :: At(failed, x) == InBucket(orders, i, history, Failed, x)
      invariant withTrades == Matched(orders, i, history)
    {
      var order := orders[i];
      if order.orderId == None {
        failed := failed[order.exchange := At(failed, order.exchange) + [order]];
      } else {
        var found := FirstTrade(order, history);
        if !found {
          missing := missing[order.exchange := At(missing, order.exchange) + [order]];
        } else {
          var trades := CurrentTrades(order, history);
          withTrades := withTrades + [Entry(order, trades)];
        }
      }
    }
  }

  // --------------------------------------------------------------- nothing gets lost

  /** How often `o` is the order of an entry. */
  function TimesMatched(entries: seq<Entry>, o: RecordedOrder): nat {
    if entries == [] then 0
    else TimesMatched(entries[..|entries| - 1], o) + if entries[|entries| - 1].order == o then 1 else 0
  }

  lemma TimesMatchedSnoc(entries: seq<Entry>, e: Entry, o: RecordedOrder)
    ensures TimesMatched(entries + [e], o) == TimesMatched(entries, o) + if e.order == o then 1 else 0
  {
  }

  lemma TimesSnoc(orders: seq<RecordedOrder>, last: RecordedOrder, o: RecordedOrder)
    ensures multiset(orders + [last])[o] == multiset(orders)[o] + if last == o then 1 else 0
  {
  }

  lemma OneMoreOrder(before: seq<RecordedOrder>, all: seq<RecordedOrder>, last: RecordedOrder, o: RecordedOrder,
      goes: bool, counts: bool)
    requires last == o ==> goes == counts
    requires multiset(before)[o] == if counts then multiset(all)[o] else 0
    ensures multiset(if goes then before + [last] else before)[o] == if counts then multiset(all + [last])[o] else 0
  {
    TimesSnoc(before, last, o);
    TimesSnoc(all, last, o);
  }

  lemma {:induction false} TimesInBucket(orders: seq<RecordedOrder>, n: nat, history: seq<HistoryTrade>, b: Bucket,
      o: RecordedOrder)
    requires n <= |orders|
    ensures multiset(InBucket(orders, n, history, b, o.exchange))[o] ==
      if BucketOf(o, history) == b then multiset(orders[..n])[o] else 0
  {
    if n > 0 {
      var last, before := orders[n - 1], InBucket(orders, n - 1, history, b, o.exchange);
      TimesInBucket(orders, n - 1, history, b, o);
      assert orders[..n] == orders[..n - 1] + [last];
      OneMoreOrder(before, orders[..n - 1], last, o, BucketOf(last, history) == b && last.exchange == o.exchange,
        BucketOf(o, history) == b);
    }
  }

  lemma {:induction false} TimesWithTrades(orders: seq<RecordedOrder>, n: nat, history: seq<HistoryTrade>,
      o: RecordedOrder)
    requires n <= |orders|
    ensures TimesMatched(Matched(orders, n, history), o) ==
      if BucketOf(o, history) == WithTrades then multiset(orders[..n])[o] else 0
  {
    if n > 0 {
      TimesWithTrades(orders, n - 1, history, o);
      assert orders[..n] == orders[..n - 1] + [orders[n - 1]];
      TimesMatchedSnoc(Matched(orders, n - 1, history), Entry(orders[n - 1], TradesOf(orders[n - 1], history)), o);
    }
  }

  /** Every order lands in exactly one of failed, missing and with-trades, as often as it came. */
  lemma EveryOrderInOneBucket(orders: seq<RecordedOrder>, history: seq<HistoryTrade>, o: RecordedOrder)
    ensures
      var n := |orders|;
      var failed, missing, matched := multiset(InBucket(orders, n, history, Failed, o.exchange))[o],
        multiset(InBucket(orders, n, history, Missing, o.exchange))[o], TimesMatched(Matched(orders, n, history), o);
      && failed + missing + matched == multiset(orders)[o]
      && (failed > 0 ==> o.orderId == None && missing == 0 && matched == 0)
      && (missing > 0 ==> (forall t | t in history :: t.orderId != o.orderId) && failed == 0 && matched == 0)
      && (matched > 0 ==> (exists t | t in history :: t.orderId == o.orderId) && failed == 0 && missing == 0)
  {
    assert orders[..|orders|] == orders;
    TimesInBucket(orders, |orders|, history, Failed, o);
    TimesInBucket(orders, |orders|, history, Missing, o);
    TimesWithTrades(orders, |orders|, history, o);
  }

  /** The trades attached to an order are all the trades with its id, as often as they occur, and at least one. */
  lemma {:induction false} AttachedTradesAreItsTrades(orders: seq<RecordedOrder>, n: nat, history: seq<HistoryTrade>,
      e: Entry, t: HistoryTrade)
    requires n <= |orders| && e in Matched(orders, n, history)
    ensures e.order in orders && e.order.orderId.Some? && e.trades != []
    ensures multiset(e.trades)[t] == if t.orderId == e.order.orderId then multiset(history)[t] else 0
  {
    if e in Matched(orders, n - 1, history) {
      AttachedTradesAreItsTrades(orders, n - 1, history, e, t);
    } else {
      TradesAreFiltered(e.order, history, t);
      var first :| first in history && first.orderId == e.order.orderId;
      TradesAreFiltered(e.order, history, first);
      assert first in multiset(history);
    }
  }

  lemma {:induction false} TradesAreFiltered(o: RecordedOrder, history: seq<HistoryTrade>, t: HistoryTrade)
    ensures multiset(TradesOf(o, history))[t] == if t.orderId == o.orderId then multiset(history)[t] else 0
  {
    if history != [] {
      assert history == [history[0]] + history[1..];
      TradesAreFiltered(o, history[1..], t);
    }
  }
}
