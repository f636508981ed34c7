/**
 * Profit and loss of the arbitrage orders that have trades: analysis/profit_report_analysis.py.
 *
 * Orders are paired by arbitrage id. What is paired within its currency pair goes to the profit
 * totals, what has no partner at all goes to the loss totals. Amounts are reals.
 */
module ProfitReport {
  import opened Exchanges
  import opened Wrappers
  import opened OrderGrouping
  import ArbitrageCore
  import BaseAnalysis

  datatype Totals = Totals(coin: real, base: real)

  const ZERO := Totals(0.0, 0.0)

  function Plus(a: Totals, b: Totals): Totals { Totals(a.coin + b.coin, a.base + b.base) }

  datatype Report = Profit | Loss

  /** The profit report adds the fee to what a purchase costs; the loss report subtracts it. */
  function OfTrade(report: Report, side: TradeSide, t: HistoryTrade): Totals {
    match side
    case BUY =>
      var factor := if report == Profit then 100.0 + Fee(t.exchange) else 100.0 - Fee(t.exchange);
      Totals(t.executedVolume, -(t.executedVolume * t.price * 0.01 * factor))
    case SELL => Totals(-t.executedVolume, t.executedVolume * t.price * 0.01 * (100.0 - Fee(t.exchange)))
    case OtherSide => ZERO
  }

  function OfTrades(report: Report, side: TradeSide, trades: seq<HistoryTrade>, n: nat): Totals
    requires n <= |trades|
  {
    if n == 0 then ZERO else Plus(OfTrades(report, side, trades, n - 1), OfTrade(report, side, trades[n - 1]))
  }

  function OfEntry(report: Report, e: Entry): Totals { OfTrades(report, e.order.tradeType, e.trades, |e.trades|) }

  /** The totals of the entries whose arbitrage id is one of `ids`. */
  function SumOf(report: Report, entries: seq<Entry>, ids: set<int>): Totals {
    if entries == [] then ZERO
    else
      var rest := SumOf(report, entries[1..], ids);
      if entries[0].order.arbitrageId in ids then Plus(OfEntry(report, entries[0]), rest) else rest
  }

  function OfId(entries: seq<Entry>, id: int): seq<Entry> {
    if entries == [] then []
    else if entries[0].order.arbitrageId == id then [entries[0]] + OfId(entries[1..], id)
    else OfId(entries[1..], id)
  }

  function OfPair(entries: seq<Entry>, pairId: nat): seq<Entry> {
    if entries == [] then []
    else if entries[0].order.pairId == pairId then [entries[0]] + OfPair(entries[1..], pairId)
    else OfPair(entries[1..], pairId)
  }

  function Ids(entries: seq<Entry>): set<int> { set e | e in entries :: e.order.arbitrageId }

  /** The ids with exactly one entry. */
  function Single(entries: seq<Entry>): set<int> { set id | id in Ids(entries) && |OfId(entries, id)| == 1 }

  function Paired(entries: seq<Entry>): set<int> { Ids(entries) - Single(entries) }

  predicate HasId(entries: seq<Entry>, i: int, id: int) {
    0 <= i < |entries| && entries[i].order.arbitrageId == id
  }

  /** Two entries share the id. */
  ghost predicate Shared(entries: seq<Entry>, id: int) {
    exists i, j :: i < j && HasId(entries, i, id) && HasId(entries, j, id)
  }

  lemma {:induction false} OfIdIsShort(entries: seq<Entry>, id: int)
    ensures |OfId(entries, id)| >= 1 <==> exists i :: HasId(entries, i, id)
    ensures |OfId(entries, id)| >= 2 <==> Shared(entries, id)
    decreases |entries|
  {
    if entries != [] {
      var rest := entries[1..];
      OfIdIsShort(rest, id);
      assert HasId(entries, 0, id) <==> entries[0].order.arbitrageId == id;
      if i :| HasId(rest, i, id) {
        assert HasId(entries, i + 1, id);
        if HasId(entries, 0, id) {
          assert Shared(entries, id);
        }
      }
      if i, j :| i < j && HasId(rest, i, id) && HasId(rest, j, id) {
        assert HasId(entries, i + 1, id) && HasId(entries, j + 1, id);
      }
      if i :| i > 0 && HasId(entries, i, id) {
        assert HasId(rest, i - 1, id);
      } else if i :| HasId(entries, i, id) {
        assert i == 0;
      }
      if i, j :| i < j && HasId(entries, i, id) && HasId(entries, j, id) {
        assert HasId(rest, j - 1, id);
        assert i > 0 ==> HasId(rest, i - 1, id);
      }
    }
  }

  /** An id is paired exactly when two entries share it, and single when one entry alone has it. */
  lemma PairedIff(entries: seq<Entry>, id: int)
    ensures id in Paired(entries) <==> Shared(entries, id)
    ensures id in Single(entries) <==> !Shared(entries, id) && exists i :: HasId(entries, i, id)
  {
    OfIdIsShort(entries, id);
    OfIdIsNotEmpty(entries, id);
  }

  // ------------------------------------------------- what the totals mean, from the trades

  function Volume(trades: seq<HistoryTrade>, n: nat): real
    requires n <= |trades|
  {
    if n == 0 then 0.0 else Volume(trades, n - 1) + trades[n - 1].executedVolume
  }

  /** What a trade is worth in the base currency, with `sign` times its fee on top. */
  function WorthOf(t: HistoryTrade, sign: real): real {
    t.executedVolume * t.price * (0.01 * (100.0 + sign * Fee(t.exchange)))
  }

  function Worth(trades: seq<HistoryTrade>, n: nat, sign: real): real
    requires n <= |trades|
  {
    if n == 0 then 0.0 else Worth(trades, n - 1, sign) + WorthOf(trades[n - 1], sign)
  }

  predicate IsOnSide(e: Entry, ids: set<int>, side: TradeSide) {
    e.order.arbitrageId in ids && e.order.tradeType == side
  }

  function EntryCoins(e: Entry, ids: set<int>, side: TradeSide): real {
    if IsOnSide(e, ids, side) then Volume(e.trades, |e.trades|) else 0.0
  }

  function EntryMoney(e: Entry, ids: set<int>, side: TradeSide, sign: real): real {
    if IsOnSide(e, ids, side) then Worth(e.trades, |e.trades|, sign) else 0.0
  }

  /** The coins that the orders of one side with these ids have traded, and what these were worth. */
  function CoinsOf(entries: seq<Entry>, ids: set<int>, side: TradeSide): real {
    if entries == [] then 0.0
    else
      EntryCoins(entries[0], ids, side) + CoinsOf(entries[1..], ids, side)
  }

  function MoneyOf(entries: seq<Entry>, ids: set<int>, side: TradeSide, sign: real): real {
    if entries == [] then 0.0
    else
      EntryMoney(entries[0], ids, side, sign) + MoneyOf(entries[1..], ids, side, sign)
  }

  const FEE_ON_TOP := 1.0
  const FEE_TAKEN_OFF := -1.0

  /** The fee sign with which a report counts what a purchase costs. */
  function PurchaseSign(report: Report): real { match report case Profit => FEE_ON_TOP case Loss => FEE_TAKEN_OFF }

  lemma OneTradeMeans(report: Report, side: TradeSide, t: HistoryTrade)
    ensures OfTrade(report, side, t) ==
      match side
      case BUY => Totals(t.executedVolume, -WorthOf(t, PurchaseSign(report)))
      case SELL => Totals(-t.executedVolume, WorthOf(t, FEE_TAKEN_OFF))
      case OtherSide => ZERO
  {
  }

  lemma {:induction false} TradesMean(report: Report, side: TradeSide, trades: seq<HistoryTrade>, n: nat)
    requires n <= |trades|
    ensures OfTrades(report, side, trades, n) ==
      match side
      case BUY => Totals(Volume(trades, n), -Worth(trades, n, PurchaseSign(report)))
      case SELL => Totals(-Volume(trades, n), Worth(trades, n, FEE_TAKEN_OFF))
      case OtherSide => ZERO
  {
    if n > 0 {
      TradesMean(report, side, trades, n - 1);
      OneTradeMeans(report, side, trades[n - 1]);
    }
  }

  lemma OneEntryMeans(report: Report, e: Entry, ids: set<int>)
    ensures (if e.order.arbitrageId in ids then OfEntry(report, e) else ZERO) == Totals(
      EntryCoins(e, ids, BUY) - EntryCoins(e, ids, SELL),
      EntryMoney(e, ids, SELL, FEE_TAKEN_OFF) - EntryMoney(e, ids, BUY, PurchaseSign(report)))
  {
    TradesMean(report, e.order.tradeType, e.trades, |e.trades|);
  }

  /** The totals of any ids: coins bought less coins sold, and what all sales bring in after their fee less
      what all purchases cost, which the profit report counts with the fee and the loss report without. */
  lemma {:induction false} TotalsMean(report: Report, entries: seq<Entry>, ids: set<int>)
    ensures SumOf(report, entries, ids) == Totals(
      CoinsOf(entries, ids, BUY) - CoinsOf(entries, ids, SELL),
      MoneyOf(entries, ids, SELL, FEE_TAKEN_OFF) - MoneyOf(entries, ids, BUY, PurchaseSign(report)))
  {
    if entries != [] {
      TotalsMean(report, entries[1..], ids);
      OneEntryMeans(report, entries[0], ids);
    }
  }

  /**
   * For a purchase and a sale of one volume under one id, the base total of the profit report is the net
   * profit of the pair (data/trade_pair.py), so it is positive exactly above the break-even spread.
   */
  lemma MatchedOrdersEarnTheirNetProfit(bought: Entry, sold: Entry, buy: HistoryTrade, sell: HistoryTrade)
    requires bought.order.tradeType == BUY && bought.trades == [buy]
    requires sold.order.tradeType == SELL && sold.trades == [sell]
    requires bought.order.arbitrageId == sold.order.arbitrageId && buy.executedVolume == sell.executedVolume
    ensures
      var entries := [bought, sold];
      var total := SumOf(Profit, entries, Paired(entries));
      && total.coin == 0.0
      && total.base == ArbitrageCore.NetProfit(sell.executedVolume, sell.price, Fee(sell.exchange), buy.price,
           Fee(buy.exchange))
      && (sell.executedVolume > 0.0 && sell.price > 0.0 && buy.price > 0.0 ==>
           (total.base > 0.0 <==>
             BaseAnalysis.Spread(sell.price, buy.price) >
               ArbitrageCore.BreakEven(Fee(sell.exchange), Fee(buy.exchange))))
  {
    PairedOfTwo(bought, sold);
    TotalsMean(Profit, [bought, sold], {bought.order.arbitrageId});
    SumOfAMatch(bought, sold, buy, sell);
    WorthIsTheNetProfit(buy, sell);
    if sell.executedVolume > 0.0 && sell.price > 0.0 && buy.price > 0.0 {
      ArbitrageCore.NetProfitIff(sell.executedVolume, sell.price, Fee(sell.exchange), buy.price, Fee(buy.exchange));
    }
  }

  lemma WorthIsTheNetProfit(buy: HistoryTrade, sell: HistoryTrade)
    requires buy.executedVolume == sell.executedVolume
    ensures WorthOf(sell, FEE_TAKEN_OFF) - WorthOf(buy, FEE_ON_TOP) ==
      ArbitrageCore.NetProfit(sell.executedVolume, sell.price, Fee(sell.exchange), buy.price, Fee(buy.exchange))
  {
  }

  lemma PairedOfTwo(e: Entry, f: Entry)
    requires e.order.arbitrageId == f.order.arbitrageId
    ensures Paired([e, f]) == {e.order.arbitrageId}
  {
    var entries, id := [e, f], e.order.arbitrageId;
    assert e in entries && HasId(entries, 0, id) && HasId(entries, 1, id);
    PairedIff(entries, id);
    assert Paired(entries) == {id};
  }

  lemma SumOfAMatch(bought: Entry, sold: Entry, buy: HistoryTrade, sell: HistoryTrade)
    requires bought.order.tradeType == BUY && bought.trades == [buy]
    requires sold.order.tradeType == SELL && sold.trades == [sell]
    requires bought.order.arbitrageId == sold.order.arbitrageId
    ensures
      var entries, ids := [bought, sold], {bought.order.arbitrageId};
      && CoinsOf(entries, ids, BUY) == buy.executedVolume && CoinsOf(entries, ids, SELL) == sell.executedVolume
      && MoneyOf(entries, ids, BUY, FEE_ON_TOP) == WorthOf(buy, FEE_ON_TOP)
      && MoneyOf(entries, ids, SELL, FEE_TAKEN_OFF) == WorthOf(sell, FEE_TAKEN_OFF)
  {
    var ids := {bought.order.arbitrageId};
    assert [bought, sold] == [bought] + [sold] && [sold] == [sold] + [];
    OneEntryFirst(bought, buy, [sold], ids, BUY, FEE_ON_TOP);
    OneEntryFirst(bought, buy, [sold], ids, SELL, FEE_TAKEN_OFF);
    OneEntryFirst(sold, sell, [], ids, BUY, FEE_ON_TOP);
    OneEntryFirst(sold, sell, [], ids, SELL, FEE_TAKEN_OFF);
  }

  lemma OneEntryFirst(e: Entry, t: HistoryTrade, rest: seq<Entry>, ids: set<int>, side: TradeSide, sign: real)
    requires e.trades == [t]
    ensures
      var counts := e.order.arbitrageId in ids && e.order.tradeType == side;
      && CoinsOf([e] + rest, ids, side) == (if counts then t.executedVolume else 0.0) + CoinsOf(rest, ids, side)
      && MoneyOf([e] + rest, ids, side, sign) ==
           (if counts then WorthOf(t, sign) else 0.0) + MoneyOf(rest, ids, side, sign)
  {
    assert ([e] + rest)[1..] == rest;
    assert Volume([t], 0) == 0.0 && Worth([t], 0, sign) == 0.0;
    assert Volume([t], 1) == t.executedVolume && Worth([t], 1, sign) == WorthOf(t, sign);
  }

  // ------------------------------------------------------------------------ lemmas

  lemma {:induction false} OfIdSnoc(entries: seq<Entry>, e: Entry, id: int)
    ensures OfId(entries + [e], id) == OfId(entries, id) + if e.order.arbitrageId == id then [e] else []
  {
    if entries == [] {
      assert [] + [e] == [e];
    } else {
      assert (entries + [e])[1..] == entries[1..] + [e];
      OfIdSnoc(entries[1..], e, id);
    }
  }

  lemma {:induction false} OfIdIsNotEmpty(entries: seq<Entry>, id: int)
    ensures id in Ids(entries) <==> OfId(entries, id) != []
  {
    if entries != [] {
      assert entries == [entries[0]] + entries[1..];
      OfIdIsNotEmpty(entries[1..], id);
    }
  }

  /** Sums over disjoint ids add up. */
  lemma {:induction false} SumOfUnion(report: Report, entries: seq<Entry>, a: set<int>, b: set<int>)
    requires a !! b
    ensures SumOf(report, entries, a + b) == Plus(SumOf(report, entries, a), SumOf(report, entries, b))
  {
    if entries != [] {
      var rest := entries[1..];
      SumOfUnion(report, rest, a, b);
      var id := entries[0].order.arbitrageId;
      InUnion(a, b, id);
      PlusRegroups(OfEntry(report, entries[0]), SumOf(report, rest, a), SumOf(report, rest, b));
    }
  }

  lemma InUnion(a: set<int>, b: set<int>, id: int)
    requires a !! b
    ensures id in a + b <==> id in a || id in b
    ensures !(id in a && id in b)
  {
  }

  lemma PlusRegroups(x: Totals, a: Totals, b: Totals)
    ensures Plus(x, Plus(a, b)) == Plus(Plus(x, a), b) == Plus(a, Plus(x, b))
  {
  }

  /** Only ids that occur matter. */
  lemma {:induction false} SumOfOccurring(report: Report, entries: seq<Entry>, a: set<int>, b: set<int>)
    requires a * Ids(entries) == b * Ids(entries)
    ensures SumOf(report, entries, a) == SumOf(report, entries, b)
  {
    if entries != [] {
      var id := entries[0].order.arbitrageId;
      assert id in Ids(entries);
      assert id in a * Ids(entries) <==> id in b * Ids(entries);
      forall i ensures i in a * Ids(entries[1..]) <==> i in b * Ids(entries[1..]) {
        assert i in Ids(entries[1..]) ==> i in Ids(entries);
        assert i in a * Ids(entries) <==> i in b * Ids(entries);
      }
      SumOfOccurring(report, entries[1..], a, b);
    }
  }

  lemma {:induction false} SumOfOneId(report: Report, entries: seq<Entry>, id: int)
    ensures SumOf(report, entries, {id}) == SumOf(report, OfId(entries, id), {id})
  {
    if entries != [] {
      SumOfOneId(report, entries[1..], id);
      if entries[0].order.arbitrageId == id {
        assert ([entries[0]] + OfId(entries[1..], id))[1..] == OfId(entries[1..], id);
      }
    }
  }

  lemma {:induction false} SumOfSnoc(report: Report, entries: seq<Entry>, e: Entry, ids: set<int>)
    ensures SumOf(report, entries + [e], ids) ==
      if e.order.arbitrageId in ids then Plus(SumOf(report, entries, ids), OfEntry(report, e))
      else SumOf(report, entries, ids)
  {
    if entries == [] {
      assert [] + [e] == [e];
    } else {
      assert (entries + [e])[1..] == entries[1..] + [e];
      SumOfSnoc(report, entries[1..], e, ids);
    }
  }

  // --------------------------------------------------------------------- the report

  method GroupByArbitrageId(entries: seq<Entry>) returns (groups: map<int, seq<Entry>>)
    ensures groups.Keys == Ids(entries)
    ensures forall id | id in groups :: groups[id] == OfId(entries, id)
  {
    groups := map[];
    for i := 0 to |entries|
      invariant forall id :: (if id in groups then groups[id] else []) == OfId(entries[..i], id)
      invariant forall id | id in groups :: groups[id] != []
    {
      var e := entries[i];
      var id := e.order.arbitrageId;
      forall other
        ensures OfId(entries[..i + 1], other) == OfId(entries[..i], other) + if id == other then [e] else []
      {
        assert entries[..i + 1] == entries[..i] + [e];
        OfIdSnoc(entries[..i], e, other);
      }
      groups := groups[id := (if id in groups then groups[id] else []) + [e]];
    }
    assert entries[..|entries|] == entries;
    forall id ensures id in groups <==> id in Ids(entries) {
      OfIdIsNotEmpty(entries, id);
    }
  }

  method AddTrades(report: Report, e: Entry, coin: real, base: real) returns (coin': real, base': real)
    ensures Totals(coin', base') == Plus(Totals(coin, base), OfEntry(report, e))
  {
    coin', base' := coin, base;
    for i := 0 to |e.trades|
      invariant Totals(coin', base') == Plus(Totals(coin, base), OfTrades(report, e.order.tradeType, e.trades, i))
    {
      var t := OfTrade(report, e.order.tradeType, e.trades[i]);
      coin', base' := coin' + t.coin, base' + t.base;
    }
  }

  method AddEntries(report: Report, entries: seq<Entry>, coin: real, base: real, ghost id: set<int>)
    returns (coin': real, base': real)
    requires forall e | e in entries :: e.order.arbitrageId in id
    ensures Totals(coin', base') == Plus(Totals(coin, base), SumOf(report, entries, id))
  {
    coin', base' := coin, base;
    for i := 0 to |entries|
      invariant Totals(coin', base') == Plus(Totals(coin, base), SumOf(report, entries[..i], id))
    {
      assert entries[..i + 1] == entries[..i] + [entries[i]];
      SumOfSnoc(report, entries[..i], entries[i], id);
      coin', base' := AddTrades(report, entries[i], coin', base');
    }
    assert entries[..|entries|] == entries;
  }

  lemma {:induction false} OfIdHasTheId(entries: seq<Entry>, id: int)
    ensures forall e | e in OfId(entries, id) :: e.order.arbitrageId == id && e in entries
  {
    if entries != [] {
      OfIdHasTheId(entries[1..], id);
    }
  }

  /** What one more group adds to the paired entries counted so far. */
  lemma GroupAdds(report: Report, entries: seq<Entry>, done: set<int>, id: int)
    requires id !in done && id in Ids(entries)
    ensures SumOf(report, entries, (done + {id}) - Single(entries)) ==
      if |OfId(entries, id)| == 1 then SumOf(report, entries, done - Single(entries))
      else Plus(SumOf(report, entries, done - Single(entries)), SumOf(report, OfId(entries, id), {id}))
  {
    if |OfId(entries, id)| == 1 {
      assert (done + {id}) - Single(entries) == done - Single(entries);
    } else {
      assert (done + {id}) - Single(entries) == (done - Single(entries)) + {id};
      SumOfOneId(report, entries, id);
      SumOfUnion(report, entries, done - Single(entries), {id});
    }
  }

  /** A group counts unless it is a single entry. */
  method AddGroup(group: seq<Entry>, coin: real, base: real, ghost id: int) returns (coin': real, base': real)
    requires forall e | e in group :: e.order.arbitrageId == id
    ensures Totals(coin', base') ==
      if |group| == 1 then Totals(coin, base) else Plus(Totals(coin, base), SumOf(Profit, group, {id}))
  {
    coin', base' := coin, base;
    if |group| != 1 {
      coin', base' := AddEntries(Profit, group, coin, base, {id});
    }
  }

  lemma NoGroupsYet(report: Report, entries: seq<Entry>)
    ensures SumOf(report, entries, {} - Single(entries)) == ZERO
  {
    SumOfNothing(report, entries);
    assert {} - Single(entries) == {};
  }

  method ComputeProfitByPair(entries: seq<Entry>) returns (profitCoin: real, profitBase: real)
    ensures Totals(profitCoin, profitBase) == SumOf(Profit, entries, Paired(entries))
    ensures profitCoin == CoinsOf(entries, Paired(entries), BUY) - CoinsOf(entries, Paired(entries), SELL)
    ensures profitBase ==
      MoneyOf(entries, Paired(entries), SELL, FEE_TAKEN_OFF) - MoneyOf(entries, Paired(entries), BUY, FEE_ON_TOP)
  {
    var groups := GroupByArbitrageId(entries);
    profitCoin, profitBase := 0.0, 0.0;
    var left := groups.Keys;
    ghost var done: set<int> := {};
    NoGroupsYet(Profit, entries);
    while left != {}
      invariant left <= Ids(entries) && done == Ids(entries) - left
      invariant Totals(profitCoin, profitBase) == SumOf(Profit, entries, done - Single(entries))
      decreases |left|
    {
      var id :| id in left;
      OfIdHasTheId(entries, id);
      GroupAdds(Profit, entries, done, id);
      profitCoin, profitBase := AddGroup(groups[id], profitCoin, profitBase, id);
      left, done := left - {id}, done + {id};
    }
    assert done == Ids(entries);
    TotalsMean(Profit, entries, Paired(entries));
  }

  lemma {:induction false} SumOfNothing(report: Report, entries: seq<Entry>)
    ensures SumOf(report, entries, {}) == ZERO
  {
    if entries != [] {
      SumOfNothing(report, entries[1..]);
    }
  }

  // --------------------------------------------------------------------- the losses

  function SumOfAll(report: Report, entries: seq<Entry>, n: nat): Totals
    requires n <= |entries|
  {
    if n == 0 then ZERO else Plus(SumOfAll(report, entries, n - 1), OfEntry(report, entries[n - 1]))
  }

  lemma {:induction false} SumOfPrefix(report: Report, entries: seq<Entry>, e: Entry, n: nat)
    requires n <= |entries|
    ensures SumOfAll(report, entries + [e], n) == SumOfAll(report, entries, n)
  {
    if n > 0 {
      SumOfPrefix(report, entries, e, n - 1);
    }
  }

  lemma {:induction false} AllIsTheSumOfTheirIds(report: Report, entries: seq<Entry>, ids: set<int>)
    requires Ids(entries) <= ids
    ensures SumOfAll(report, entries, |entries|) == SumOf(report, entries, ids)
    decreases |entries|
  {
    if entries != [] {
      var n := |entries| - 1;
      var front, last := entries[..n], entries[n];
      assert entries == front + [last];
      assert last in entries && last.order.arbitrageId in ids;
      forall id | id in Ids(front) ensures id in ids {
        var e :| e in front && e.order.arbitrageId == id;
        assert e in entries;
      }
      AllIsTheSumOfTheirIds(report, front, ids);
      SumOfPrefix(report, front, last, n);
      SumOfSnoc(report, front, last, ids);
    }
  }

  method ComputeLossByPair(entries: seq<Entry>) returns (volumePair: real, volumeBaseCurrency: real)
    ensures Totals(volumePair, volumeBaseCurrency) == SumOfAll(Loss, entries, |entries|)
    ensures volumePair == CoinsOf(entries, Ids(entries), BUY) - CoinsOf(entries, Ids(entries), SELL)
    ensures volumeBaseCurrency ==
      MoneyOf(entries, Ids(entries), SELL, FEE_TAKEN_OFF) - MoneyOf(entries, Ids(entries), BUY, FEE_TAKEN_OFF)
  {
    volumePair, volumeBaseCurrency := 0.0, 0.0;
    for i := 0 to |entries|
      invariant Totals(volumePair, volumeBaseCurrency) == SumOfAll(Loss, entries, i)
    {
      volumePair, volumeBaseCurrency := AddTrades(Loss, entries[i], volumePair, volumeBaseCurrency);
    }
    AllIsTheSumOfTheirIds(Loss, entries, Ids(entries));
    TotalsMean(Loss, entries, Ids(entries));
  }

  lemma {:induction false} OfIdOfPair(entries: seq<Entry>, pairId: nat, id: int)
    ensures OfId(OfPair(entries, pairId), id) == OfPair(OfId(entries, id), pairId)
  {
    if entries != [] {
      OfIdOfPair(entries[1..], pairId, id);
      var e := entries[0];
      assert ([e] + OfPair(entries[1..], pairId))[1..] == OfPair(entries[1..], pairId);
      assert ([e] + OfId(entries[1..], id))[1..] == OfId(entries[1..], id);
    }
  }

  lemma SumOfSingle(entries: seq<Entry>, id: int, pairId: nat, e: Entry)
    requires OfId(entries, id) == [e]
    ensures SumOf(Loss, OfPair(entries, pairId), {id}) == if e.order.pairId == pairId then OfEntry(Loss, e) else ZERO
  {
    SumOfOneId(Loss, OfPair(entries, pairId), id);
    OfIdOfPair(entries, pairId, id);
    OfIdHasTheId(entries, id);
    assert e in [e];
    SumOfOneEntry(e, pairId);
  }

  lemma SplitId(done: set<int>, id: int, single: set<int>)
    requires id !in done
    ensures (done + {id}) * single == if id in single then done * single + {id} else done * single
  {
  }

  /** What one more single entry adds to the losses of a pair. */
  lemma SingleAdds(entries: seq<Entry>, done: set<int>, id: int, pairId: nat)
    requires id !in done && id in Ids(entries)
    ensures
      var before := SumOf(Loss, OfPair(entries, pairId), done * Single(entries));
      var group := OfId(entries, id);
      SumOf(Loss, OfPair(entries, pairId), (done + {id}) * Single(entries)) ==
        if |group| == 1 && group[0].order.pairId == pairId then Plus(before, OfEntry(Loss, group[0])) else before
  {
    var group, single := OfId(entries, id), Single(entries);
    assert id in single <==> |group| == 1;
    SplitId(done, id, single);
    if |group| == 1 {
      SumOfSingle(entries, id, pairId, group[0]);
      SumOfUnion(Loss, OfPair(entries, pairId), done * single, {id});
    }
  }

  lemma SumOfOneEntry(e: Entry, pairId: nat)
    ensures SumOf(Loss, OfPair([e], pairId), {e.order.arbitrageId}) ==
      if e.order.pairId == pairId then OfEntry(Loss, e) else ZERO
  {
  }

  function EntriesAt(m: map<nat, seq<Entry>>, pairId: nat): seq<Entry> { if pairId in m then m[pairId] else [] }

  function Recorded(m: map<nat, seq<Entry>>, pairId: nat): Totals {
    SumOfAll(Loss, EntriesAt(m, pairId), |EntriesAt(m, pairId)|)
  }

  function LossAt(m: map<nat, Totals>, pairId: nat): Totals { if pairId in m then m[pairId] else ZERO }

  method OrdersWithoutPartner(entries: seq<Entry>) returns (byPair: map<nat, seq<Entry>>)
    ensures forall p :: Recorded(byPair, p) == SumOf(Loss, OfPair(entries, p), Single(entries))
  {
    var groups := GroupByArbitrageId(entries);
    byPair := map[];
    var left := groups.Keys;
    ghost var done: set<int> := {};
    forall p ensures SumOf(Loss, OfPair(entries, p), {} * Single(entries)) == ZERO {
      assert {} * Single(entries) == {};
      SumOfNothing(Loss, OfPair(entries, p));
    }
    while left != {}
      invariant left <= groups.Keys && done == groups.Keys - left
      invariant forall p :: Recorded(byPair, p) == SumOf(Loss, OfPair(entries, p), done * Single(entries))
      decreases |left|
    {
      var id :| id in left;
      forall p: nat {
        SingleAdds(entries, done, id, p);
      }
      if |groups[id]| == 1 {
        byPair := WithEntry(byPair, groups[id][0]);
      }
      left, done := left - {id}, done + {id};
    }
    assert done * Single(entries) == Single(entries);
  }

  function WithEntry(byPair: map<nat, seq<Entry>>, e: Entry): (m: map<nat, seq<Entry>>)
    ensures forall p ::
      Recorded(m, p) ==
        if p == e.order.pairId then Plus(Recorded(byPair, p), OfEntry(Loss, e)) else Recorded(byPair, p)
  {
    var same := EntriesAt(byPair, e.order.pairId);
    SumOfPrefix(Loss, same, e, |same|);
    byPair[e.order.pairId := same + [e]]
  }

  /** What the loss report says about the entries with these ids. */
  function LossOf(entries: seq<Entry>, ids: set<int>): Totals {
    Totals(CoinsOf(entries, ids, BUY) - CoinsOf(entries, ids, SELL),
      MoneyOf(entries, ids, SELL, FEE_TAKEN_OFF) - MoneyOf(entries, ids, BUY, FEE_TAKEN_OFF))
  }

  method ComputeLoss(entries: seq<Entry>) returns (losses: map<nat, Totals>)
    ensures forall p :: LossAt(losses, p) == SumOf(Loss, OfPair(entries, p), Single(entries))
    ensures forall p :: LossAt(losses, p) == LossOf(OfPair(entries, p), Single(entries))
  {
    var byPair := OrdersWithoutPartner(entries);
    losses := map[];
    var left := byPair.Keys;
    while left != {}
      invariant left <= byPair.Keys && losses.Keys == byPair.Keys - left
      invariant forall p | p in losses :: losses[p] == SumOfAll(Loss, byPair[p], |byPair[p]|)
      decreases |left|
    {
      var p :| p in left;
      var coin, base := ComputeLossByPair(byPair[p]);
      losses := losses[p := Totals(coin, base)];
      left := left - {p};
    }
    forall p ensures LossAt(losses, p) == Recorded(byPair, p) {
    }
    forall p: nat {
      TotalsMean(Loss, OfPair(entries, p), Single(entries));
    }
  }

  // -------------------------------------------------------------------- conservation

  lemma {:induction false} CoinsOfTrades(side: TradeSide, trades: seq<HistoryTrade>, n: nat)
    requires n <= |trades|
    ensures OfTrades(Profit, side, trades, n).coin == OfTrades(Loss, side, trades, n).coin
  {
    if n > 0 {
      CoinsOfTrades(side, trades, n - 1);
    }
  }

  /** Both reports count coins alike. */
  lemma {:induction false} CoinsAreCountedAlike(entries: seq<Entry>, ids: set<int>)
    ensures SumOf(Profit, entries, ids).coin == SumOf(Loss, entries, ids).coin
  {
    if entries != [] {
      CoinsAreCountedAlike(entries[1..], ids);
      CoinsOfTrades(entries[0].order.tradeType, entries[0].trades, |entries[0].trades|);
    }
  }

  /** What `ComputeProfitByPair` returns for the entries of a pair, and `ComputeLoss` for that pair. */
  function ProfitCoin(entries: seq<Entry>, pairId: nat): real {
    SumOf(Profit, OfPair(entries, pairId), Paired(OfPair(entries, pairId))).coin
  }

  function LossCoin(entries: seq<Entry>, pairId: nat): real {
    SumOf(Loss, OfPair(entries, pairId), Single(entries)).coin
  }

  /** The signed executed volume of all entries of a pair: what was bought less what was sold. */
  function SignedVolume(entries: seq<Entry>, pairId: nat): real {
    var own := OfPair(entries, pairId);
    CoinsOf(own, Ids(own), BUY) - CoinsOf(own, Ids(own), SELL)
  }

  /** Ids that are alone within the pair but not alone altogether. */
  function Stranded(entries: seq<Entry>, pairId: nat): set<int> { Single(OfPair(entries, pairId)) - Single(entries) }

  lemma OfPairIsShorter(entries: seq<Entry>, pairId: nat)
    ensures |OfPair(entries, pairId)| <= |entries|
  {
  }

  lemma SingleAltogetherIsSingleInItsPair(entries: seq<Entry>, pairId: nat, id: int)
    requires id in Single(entries) && id in Ids(OfPair(entries, pairId))
    ensures id in Single(OfPair(entries, pairId))
  {
    OfIdOfPair(entries, pairId, id);
    OfPairIsShorter(OfId(entries, id), pairId);
    OfIdIsNotEmpty(OfPair(entries, pairId), id);
  }

  lemma LossIdsWithinAPair(entries: seq<Entry>, pairId: nat)
    ensures
      var own := OfPair(entries, pairId);
      Single(entries) * Ids(own) == (Single(own) - Stranded(entries, pairId)) * Ids(own)
  {
    var own := OfPair(entries, pairId);
    forall id ensures id in Single(entries) * Ids(own) <==> id in (Single(own) - Stranded(entries, pairId)) * Ids(own) {
      if id in Single(entries) && id in Ids(own) {
        SingleAltogetherIsSingleInItsPair(entries, pairId, id);
      }
    }
  }

  /** Per pair, profit coins, loss coins and what is stranded make up the whole signed executed volume. */
  lemma ProfitAndLossAndStranded(entries: seq<Entry>, pairId: nat)
    ensures SignedVolume(entries, pairId) ==
      ProfitCoin(entries, pairId) + LossCoin(entries, pairId) +
        SumOf(Profit, OfPair(entries, pairId), Stranded(entries, pairId)).coin
  {
    var own, stranded := OfPair(entries, pairId), Stranded(entries, pairId);
    TotalsMean(Profit, own, Ids(own));
    SetParts(Ids(own), Single(own));
    SetParts(Single(own), stranded);
    TwoParts(own, Ids(own), Single(own), Paired(own));
    TwoParts(own, Single(own), stranded, Single(own) - stranded);
    LossIdsWithinAPair(entries, pairId);
    LossOfOccurring(own, Single(entries), Single(own) - stranded);
  }

  lemma TwoParts(own: seq<Entry>, whole: set<int>, part: set<int>, rest: set<int>)
    requires rest + part == whole && rest !! part
    ensures SumOf(Profit, own, whole).coin == SumOf(Profit, own, rest).coin + SumOf(Profit, own, part).coin
  {
  }

  lemma SetParts(whole: set<int>, part: set<int>)
    requires part <= whole
    ensures (whole - part) + part == whole && (whole - part) !! part
  {
  }

  lemma LossOfOccurring(own: seq<Entry>, a: set<int>, b: set<int>)
    requires a * Ids(own) == b * Ids(own)
    ensures SumOf(Loss, own, a).coin == SumOf(Profit, own, b).coin
  {
    SumOfOccurring(Loss, own, a, b);
    CoinsAreCountedAlike(own, b);
  }

  /** No arbitrage id is used for two pairs. */
  ghost predicate IdsKeepToTheirPair(entries: seq<Entry>) {
    forall e, f | e in entries && f in entries && e.order.arbitrageId == f.order.arbitrageId ::
      e.order.pairId == f.order.pairId
  }

  lemma {:induction false} OfPairOfOwn(entries: seq<Entry>, pairId: nat)
    requires forall e | e in entries :: e.order.pairId == pairId
    ensures OfPair(entries, pairId) == entries
  {
    if entries != [] {
      OfPairOfOwn(entries[1..], pairId);
    }
  }

  lemma {:induction false} OfPairHasThePair(entries: seq<Entry>, pairId: nat)
    ensures forall e | e in OfPair(entries, pairId) :: e.order.pairId == pairId && e in entries
  {
    if entries != [] {
      OfPairHasThePair(entries[1..], pairId);
    }
  }

  /** So, when ids keep to their pair, the coins are conserved. */
  lemma CoinsAreConserved(entries: seq<Entry>, pairId: nat)
    requires IdsKeepToTheirPair(entries)
    ensures ProfitCoin(entries, pairId) + LossCoin(entries, pairId) == SignedVolume(entries, pairId)
  {
    var own := OfPair(entries, pairId);
    forall id | id in Single(own) ensures id in Single(entries) {
      OfPairHasThePair(entries, pairId);
      OfIdHasTheId(entries, id);
      var e :| e in own && e.order.arbitrageId == id;
      assert e in entries;
      OfPairOfOwn(OfId(entries, id), pairId);
      OfIdOfPair(entries, pairId, id);
    }
    assert Stranded(entries, pairId) == {};
    SumOfNothing(Profit, own);
    ProfitAndLossAndStranded(entries, pairId);
  }

  /** And they are conserved for a pair exactly when what is stranded in it cancels out. */
  lemma CoinsAreConservedIff(entries: seq<Entry>, pairId: nat)
    ensures ProfitCoin(entries, pairId) + LossCoin(entries, pairId) == SignedVolume(entries, pairId) <==>
      SumOf(Profit, OfPair(entries, pairId), Stranded(entries, pairId)).coin == 0.0
  {
    ProfitAndLossAndStranded(entries, pairId);
  }

  // ---------------------------------------------------- conservation for all volumes

  predicate Conserved(entries: seq<Entry>, pairId: nat) {
    ProfitCoin(entries, pairId) + LossCoin(entries, pairId) == SignedVolume(entries, pairId)
  }

  /** The same orders with as many trades each; volumes and prices may differ. */
  ghost predicate SameShape(es: seq<Entry>, fs: seq<Entry>)
    decreases |es|
  {
    && |es| == |fs|
    && (es != [] ==> es[0].order == fs[0].order && |es[0].trades| == |fs[0].trades| && SameShape(es[1..], fs[1..]))
  }

  /** An entry whose trades count. */
  predicate Counts(e: Entry, ids: set<int>) {
    e.order.arbitrageId in ids && e.order.tradeType != OtherSide && e.trades != []
  }

  lemma {:induction false} ShapeOfPair(es: seq<Entry>, fs: seq<Entry>, pairId: nat)
    requires SameShape(es, fs)
    ensures SameShape(OfPair(es, pairId), OfPair(fs, pairId))
  {
    if es != [] {
      ShapeOfPair(es[1..], fs[1..], pairId);
      if es[0].order.pairId == pairId {
        assert ([es[0]] + OfPair(es[1..], pairId))[1..] == OfPair(es[1..], pairId);
        assert ([fs[0]] + OfPair(fs[1..], pairId))[1..] == OfPair(fs[1..], pairId);
      }
    }
  }

  lemma {:induction false} ShapeOfId(es: seq<Entry>, fs: seq<Entry>, id: int)
    requires SameShape(es, fs)
    ensures |OfId(es, id)| == |OfId(fs, id)|
  {
    if es != [] {
      ShapeOfId(es[1..], fs[1..], id);
    }
  }

  lemma ShapeOfSingle(es: seq<Entry>, fs: seq<Entry>)
    requires SameShape(es, fs)
    ensures Single(es) == Single(fs)
  {
    forall id ensures id in Single(es) <==> id in Single(fs) {
      ShapeOfId(es, fs, id);
      OfIdIsNotEmpty(es, id);
      OfIdIsNotEmpty(fs, id);
    }
  }

  lemma ShapeOfStranded(es: seq<Entry>, fs: seq<Entry>, pairId: nat)
    requires SameShape(es, fs)
    ensures Stranded(es, pairId) == Stranded(fs, pairId)
  {
    ShapeOfPair(es, fs, pairId);
    ShapeOfSingle(es, fs);
    ShapeOfSingle(OfPair(es, pairId), OfPair(fs, pairId));
  }

  lemma {:induction false} OtherSideCountsNothing(trades: seq<HistoryTrade>, n: nat)
    requires n <= |trades|
    ensures OfTrades(Profit, OtherSide, trades, n).coin == 0.0
  {
    if n > 0 {
      OtherSideCountsNothing(trades, n - 1);
    }
  }

  lemma {:induction false} NothingCounts(es: seq<Entry>, fs: seq<Entry>, ids: set<int>)
    requires SameShape(es, fs) && forall e | e in es :: !Counts(e, ids)
    ensures SumOf(Profit, fs, ids).coin == 0.0
  {
    if es != [] {
      NothingCounts(es[1..], fs[1..], ids);
      assert !Counts(es[0], ids);
      if fs[0].order.tradeType == OtherSide {
        OtherSideCountsNothing(fs[0].trades, |fs[0].trades|);
      }
    }
  }

  /** One coin for every trade of an order of `side`, none for the others. */
  function Revalued(es: seq<Entry>, side: TradeSide): seq<Entry> {
    if es == [] then []
    else
      var volume := if es[0].order.tradeType == side then 1.0 else 0.0;
      [Entry(es[0].order, AllOf(es[0].trades, volume))] + Revalued(es[1..], side)
  }

  function AllOf(trades: seq<HistoryTrade>, volume: real): seq<HistoryTrade> {
    seq(|trades|, i requires 0 <= i < |trades| => trades[i].(executedVolume := volume))
  }

  lemma {:induction false} RevaluedHasTheShape(es: seq<Entry>, side: TradeSide)
    ensures SameShape(es, Revalued(es, side))
  {
    if es != [] {
      RevaluedHasTheShape(es[1..], side);
      var first := Entry(es[0].order, AllOf(es[0].trades, if es[0].order.tradeType == side then 1.0 else 0.0));
      assert ([first] + Revalued(es[1..], side))[1..] == Revalued(es[1..], side);
    }
  }

  lemma {:induction false} RevaluedOfPair(es: seq<Entry>, side: TradeSide, pairId: nat)
    ensures OfPair(Revalued(es, side), pairId) == Revalued(OfPair(es, pairId), side)
  {
    if es != [] {
      RevaluedOfPair(es[1..], side, pairId);
      var first := Entry(es[0].order, AllOf(es[0].trades, if es[0].order.tradeType == side then 1.0 else 0.0));
      assert ([first] + Revalued(es[1..], side))[1..] == Revalued(es[1..], side);
      assert ([es[0]] + OfPair(es[1..], pairId))[1..] == OfPair(es[1..], pairId);
    }
  }

  lemma {:induction false} CoinsOfAll(side: TradeSide, trades: seq<HistoryTrade>, volume: real, n: nat)
    requires n <= |trades| && volume in {0.0, 1.0}
    ensures var coin := OfTrades(Profit, side, AllOf(trades, volume), n).coin;
      match side
      case BUY => coin == (if volume == 0.0 then 0.0 else n as real)
      case SELL => coin == (if volume == 0.0 then 0.0 else -(n as real))
      case OtherSide => coin == 0.0
  {
    if n > 0 {
      CoinsOfAll(side, trades, volume, n - 1);
    }
  }

  lemma {:induction false} RevaluedSum(es: seq<Entry>, side: TradeSide, ids: set<int>)
    requires side != OtherSide
    ensures var coin := SumOf(Profit, Revalued(es, side), ids).coin;
      && (side == BUY ==> coin >= 0.0) && (side == SELL ==> coin <= 0.0)
      && ((exists e | e in es :: Counts(e, ids) && e.order.tradeType == side) ==> coin != 0.0)
  {
    if es != [] {
      RevaluedSum(es[1..], side, ids);
      var volume := if es[0].order.tradeType == side then 1.0 else 0.0;
      var first := Entry(es[0].order, AllOf(es[0].trades, volume));
      CoinsOfAll(es[0].order.tradeType, es[0].trades, volume, |es[0].trades|);
      assert ([first] + Revalued(es[1..], side))[1..] == Revalued(es[1..], side);
      if e :| e in es && Counts(e, ids) && e.order.tradeType == side {
        assert e == es[0] || e in es[1..];
      }
    }
  }

  lemma ConservedWithoutCounting(entries: seq<Entry>, fs: seq<Entry>, pairId: nat)
    requires SameShape(entries, fs)
    requires forall e | e in OfPair(entries, pairId) :: !Counts(e, Stranded(entries, pairId))
    ensures Conserved(fs, pairId)
  {
    ShapeOfPair(entries, fs, pairId);
    ShapeOfStranded(entries, fs, pairId);
    NothingCounts(OfPair(entries, pairId), OfPair(fs, pairId), Stranded(entries, pairId));
    CoinsAreConservedIff(fs, pairId);
  }

  lemma NotConservedForSome(entries: seq<Entry>, pairId: nat, e: Entry)
    requires e in OfPair(entries, pairId) && Counts(e, Stranded(entries, pairId))
    ensures SameShape(entries, Revalued(entries, e.order.tradeType))
    ensures !Conserved(Revalued(entries, e.order.tradeType), pairId)
  {
    var fs := Revalued(entries, e.order.tradeType);
    RevaluedHasTheShape(entries, e.order.tradeType);
    ShapeOfStranded(entries, fs, pairId);
    RevaluedOfPair(entries, e.order.tradeType, pairId);
    RevaluedSum(OfPair(entries, pairId), e.order.tradeType, Stranded(entries, pairId));
    CoinsAreConservedIff(fs, pairId);
  }

  /** The coins of a pair are conserved whatever the volumes are, exactly when no order with a trade is
      alone within the pair while its id is not alone altogether. */
  lemma CoinsAreConservedForAllVolumesIff(entries: seq<Entry>, pairId: nat)
    ensures (forall fs | SameShape(entries, fs) :: Conserved(fs, pairId)) <==>
      forall e | e in OfPair(entries, pairId) :: !Counts(e, Stranded(entries, pairId))
  {
    if e :| e in OfPair(entries, pairId) && Counts(e, Stranded(entries, pairId)) {
      NotConservedForSome(entries, pairId, e);
    } else {
      forall fs | SameShape(entries, fs) ensures Conserved(fs, pairId) {
        ConservedWithoutCounting(entries, fs, pairId);
      }
    }
  }

  /** One id used for two pairs: each order is left out of both reports. */
  lemma AnIdForTwoPairsIsInNeitherReport()
    ensures exists entries: seq<Entry> ::
      ProfitCoin(entries, 1) == 0.0 && LossCoin(entries, 1) == 0.0 && SignedVolume(entries, 1) == 5.0
  {
    var t := HistoryTrade(Some("a"), Binance, 5.0, 1.0);
    var e := Entry(RecordedOrder(Some("a"), 7, BUY, Binance, 1), [t]);
    var f := Entry(RecordedOrder(Some("b"), 7, SELL, Huobi, 2), [HistoryTrade(Some("b"), Huobi, 5.0, 1.0)]);
    var entries := [e, f];
    assert entries[1..] == [f] && [f][1..] == [];
    assert OfPair(entries, 1) == [e] by {
      assert OfPair([f], 1) == [];
    }
    assert OfId([e], 7) == [e] && OfId([f], 7) == [f] && OfId(entries, 7) == [e, f];
    assert e in [e] && e in entries;
    assert Ids([e]) == {7} && Ids(entries) == {7};
    assert Single([e]) == {7} && Single(entries) == {};
    assert Paired([e]) == {};
    OneEntrySum(e, t);
    TotalsMean(Profit, [e], Ids([e]));
    assert ProfitCoin(entries, 1) == 0.0;
    assert LossCoin(entries, 1) == 0.0;
    assert SignedVolume(entries, 1) == 5.0;
  }

  lemma OneEntrySum(e: Entry, t: HistoryTrade)
    requires e.trades == [t] && e.order.tradeType == BUY
    ensures SumOf(Profit, [e], {e.order.arbitrageId}).coin == t.executedVolume
    ensures SumOf(Profit, [e], {}).coin == 0.0 && SumOf(Loss, [e], {}).coin == 0.0
  {
    assert [e][1..] == [];
    assert OfTrades(Profit, BUY, [t], 0) == ZERO;
    assert OfTrades(Profit, BUY, [t], 1).coin == t.executedVolume;
  }

  /** The fee of a trade, in the base currency, if it is a purchase. */
  function PurchaseFee(side: TradeSide, t: HistoryTrade): real {
    if side == BUY then t.executedVolume * t.price * 0.01 * Fee(t.exchange) else 0.0
  }

  function PurchaseFees(side: TradeSide, trades: seq<HistoryTrade>, n: nat): real
    requires n <= |trades|
  {
    if n == 0 then 0.0 else PurchaseFees(side, trades, n - 1) + PurchaseFee(side, trades[n - 1])
  }

  function PurchaseFeesOf(entries: seq<Entry>, ids: set<int>): real {
    if entries == [] then 0.0
    else
      var rest, e := PurchaseFeesOf(entries[1..], ids), entries[0];
      if e.order.arbitrageId in ids then PurchaseFees(e.order.tradeType, e.trades, |e.trades|) + rest else rest
  }

  lemma OneTradeInBothReports(side: TradeSide, t: HistoryTrade)
    ensures OfTrade(Loss, side, t).base - OfTrade(Profit, side, t).base == 2.0 * PurchaseFee(side, t)
  {
  }

  lemma OneMoreDifference(side: TradeSide, trades: seq<HistoryTrade>, n: nat, x: real, y: real, fee: real)
    requires 0 < n <= |trades|
    requires x == OfTrade(Loss, side, trades[n - 1]).base && y == OfTrade(Profit, side, trades[n - 1]).base
    requires x - y == 2.0 * fee
    ensures OfTrades(Loss, side, trades, n).base - OfTrades(Profit, side, trades, n).base ==
      OfTrades(Loss, side, trades, n - 1).base - OfTrades(Profit, side, trades, n - 1).base + 2.0 * fee
  {
    var before, after := OfTrades(Loss, side, trades, n - 1).base, OfTrades(Loss, side, trades, n).base;
    assert after == before + x;
  }

  lemma {:induction false} OneEntryInBothReports(side: TradeSide, trades: seq<HistoryTrade>, n: nat)
    requires n <= |trades|
    ensures OfTrades(Loss, side, trades, n).base - OfTrades(Profit, side, trades, n).base ==
      2.0 * PurchaseFees(side, trades, n)
  {
    if n > 0 {
      OneEntryInBothReports(side, trades, n - 1);
      var t := trades[n - 1];
      OneTradeInBothReports(side, t);
      OneMoreDifference(side, trades, n, OfTrade(Loss, side, t).base, OfTrade(Profit, side, t).base,
        PurchaseFee(side, t));
    }
  }

  /** The base totals are not comparable: whichever ids are summed, the loss report counts twice the
      fees of all their purchases too little. */
  lemma {:induction false} PurchasesLookCheaperInTheLossReport(entries: seq<Entry>, ids: set<int>)
    ensures SumOf(Loss, entries, ids).base - SumOf(Profit, entries, ids).base == 2.0 * PurchaseFeesOf(entries, ids)
  {
    if entries != [] {
      PurchasesLookCheaperInTheLossReport(entries[1..], ids);
      OneEntryInBothReports(entries[0].order.tradeType, entries[0].trades, |entries[0].trades|);
    }
  }
}
