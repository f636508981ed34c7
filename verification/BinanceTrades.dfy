/**
 * Paging through the account's trades at Binance: analysis/data_load_for_profit_report.py.
 */
module BinanceTrades {

  datatype AccountTrade = AccountTrade(tradeId: nat, createTime: int)

  /** The exchange lists trades by id, one id each, and time does not run backwards. */
  ghost predicate Chronological(h: seq<AccountTrade>) {
    forall i, j | 0 <= i < j < |h| :: Before(h, i, j)
  }

  predicate Before(h: seq<AccountTrade>, i: nat, j: nat)
    requires i < |h| && j < |h|
  {
    h[i].tradeId < h[j].tradeId && h[i].createTime <= h[j].createTime
  }

  /** The first place from `i` on of a trade whose id is at least `cursor`. */
  function FirstFrom(h: seq<AccountTrade>, cursor: nat, i: nat): (at: nat)
    requires i <= |h|
    ensures i <= at <= |h|
    ensures at < |h| ==> h[at].tradeId >= cursor
    ensures forall k | i <= k < at :: h[k].tradeId < cursor
    decreases |h| - i
  {
    if i < |h| && h[i].tradeId < cursor then FirstFrom(h, cursor, i + 1) else i
  }

  function End(h: seq<AccountTrade>, i: nat, limit: nat): nat { if i + limit <= |h| then i + limit else |h| }

  /** What the exchange answers: the first `limit` trades from `cursor` on. */
  function ReceiveBatch(h: seq<AccountTrade>, cursor: nat, limit: nat): seq<AccountTrade> {
    var i := FirstFrom(h, cursor, 0);
    h[i..End(h, i, limit)]
  }

  function NewestFirst(page: seq<AccountTrade>): seq<AccountTrade> {
    if page == [] then [] else [page[|page| - 1]] + NewestFirst(page[..|page| - 1])
  }

  predicate InWindow(t: AccountTrade, startTime: int, endTime: int) { startTime <= t.createTime <= endTime }

  function Within(trades: seq<AccountTrade>, startTime: int, endTime: int): seq<AccountTrade> {
    if trades == [] then []
    else (if InWindow(trades[0], startTime, endTime) then [trades[0]] else []) + Within(trades[1..], startTime, endTime)
  }

  /** There is a next page after the one that starts at place `i`; it starts with this page's last trade. */
  predicate GoesOn(h: seq<AccountTrade>, i: nat, limit: nat, endTime: int) {
    limit >= 2 && i + limit <= |h| && endTime >= h[i + limit - 1].createTime
  }

  /** What of the page at place `i` lies in the window. */
  function PageWithin(h: seq<AccountTrade>, i: nat, limit: nat, startTime: int, endTime: int): seq<AccountTrade>
    requires i <= |h|
  {
    Within(NewestFirst(h[i..End(h, i, limit)]), startTime, endTime)
  }

  /** The pages from place `i` on, after what was collected before. */
  function CollectedFrom(h: seq<AccountTrade>, i: nat, limit: nat, startTime: int, endTime: int,
      before: seq<AccountTrade>): seq<AccountTrade>
    requires i <= |h|
    decreases |h| - i
  {
    var trades := before + PageWithin(h, i, limit, startTime, endTime);
    if GoesOn(h, i, limit, endTime) then CollectedFrom(h, i + limit - 1, limit, startTime, endTime, trades) else trades
  }

  lemma FirstFromId(h: seq<AccountTrade>, i: nat)
    requires Chronological(h) && i < |h|
    ensures FirstFrom(h, h[i].tradeId, 0) == i
  {
    var at := FirstFrom(h, h[i].tradeId, 0);
    assert at < i ==> Before(h, at, i);
  }

  function OneWithin(t: AccountTrade, startTime: int, endTime: int): seq<AccountTrade> {
    if InWindow(t, startTime, endTime) then [t] else []
  }

  lemma WithinCons(t: AccountTrade, trades: seq<AccountTrade>, startTime: int, endTime: int)
    ensures Within([t] + trades, startTime, endTime) ==
      OneWithin(t, startTime, endTime) + Within(trades, startTime, endTime)
  {
    assert ([t] + trades)[1..] == trades;
  }

  lemma {:induction false} WithinSnoc(trades: seq<AccountTrade>, t: AccountTrade, startTime: int, endTime: int)
    ensures Within(trades + [t], startTime, endTime) ==
      Within(trades, startTime, endTime) + OneWithin(t, startTime, endTime)
  {
    if trades == [] {
      WithinCons(t, [], startTime, endTime);
      assert trades + [t] == [t] + [];
    } else {
      var first, rest := trades[0], trades[1..];
      WithinSnoc(rest, t, startTime, endTime);
      WithinCons(first, rest + [t], startTime, endTime);
      assert trades + [t] == [first] + (rest + [t]);
    }
  }

  method AppendWithin(collected: seq<AccountTrade>, recentTrades: seq<AccountTrade>, startTime: int, endTime: int)
    returns (trades: seq<AccountTrade>)
    ensures trades == collected + Within(recentTrades, startTime, endTime)
  {
    trades := collected;
    for k := 0 to |recentTrades|
      invariant trades == collected + Within(recentTrades[..k], startTime, endTime)
    {
      WithinSnoc(recentTrades[..k], recentTrades[k], startTime, endTime);
      assert recentTrades[..k + 1] == recentTrades[..k] + [recentTrades[k]];
      if InWindow(recentTrades[k], startTime, endTime) {
        trades := trades + [recentTrades[k]];
      }
    }
    assert recentTrades[..|recentTrades|] == recentTrades;
  }

  /**
   * The loop of `get_recent_binance_trades` for one pair. `assertFailed` is the source's
   * `assert False` for a cursor that did not move; it cannot be reached.
   */
  method GetRecentBinanceTrades(h: seq<AccountTrade>, startTime: int, endTime: int, fromId: nat, limit: nat)
    returns (trades: seq<AccountTrade>, assertFailed: bool)
    requires Chronological(h) && limit >= 2
    ensures !assertFailed
    ensures trades == CollectedFrom(h, FirstFrom(h, fromId, 0), limit, startTime, endTime, [])
  {
    trades, assertFailed := [], false;
    var lastOrderId := fromId;
    ghost var from := FirstFrom(h, fromId, 0);
    ghost var all := CollectedFrom(h, from, limit, startTime, endTime, []);
    while true
      invariant from <= |h| && FirstFrom(h, lastOrderId, 0) == from
      invariant all == CollectedFrom(h, from, limit, startTime, endTime, trades)
      decreases |h| - from
    {
      var recentTrades := ReceiveBatch(h, lastOrderId, limit);
      PageFacts(h, from, limit);
      if recentTrades == [] {
        break;
      }
      recentTrades := NewestFirst(recentTrades);
      trades := AppendWithin(trades, recentTrades, startTime, endTime);
      if |recentTrades| < limit {
        break;
      }
      if endTime >= recentTrades[0].createTime {
        var prevOrderId := lastOrderId;
        CursorMoves(h, lastOrderId, from, limit);
        lastOrderId := recentTrades[0].tradeId;
        if prevOrderId != 0 && prevOrderId == lastOrderId {
          return trades, true;
        }
        from := from + limit - 1;
      } else {
        break;
      }
    }
  }

  lemma PageFacts(h: seq<AccountTrade>, i: nat, limit: nat)
    requires i <= |h| && limit >= 2
    ensures var page := NewestFirst(h[i..End(h, i, limit)]);
      && |page| <= limit && (|page| == limit <==> i + limit <= |h|)
      && (|page| == limit ==> page[0] == h[i + limit - 1])
      && (i == |h| ==> page == [])
  {
    NewestFirstLength(h[i..End(h, i, limit)]);
  }

  /** A full page of at least two trades ends beyond where it starts. */
  lemma CursorMoves(h: seq<AccountTrade>, cursor: nat, i: nat, limit: nat)
    requires Chronological(h) && limit >= 2 && i + limit <= |h| && FirstFrom(h, cursor, 0) == i
    ensures FirstFrom(h, h[i + limit - 1].tradeId, 0) == i + limit - 1
    ensures cursor < h[i + limit - 1].tradeId
  {
    FirstFromId(h, i + limit - 1);
    assert Before(h, i, i + limit - 1);
  }

  lemma {:induction false} NewestFirstLength(page: seq<AccountTrade>)
    ensures |NewestFirst(page)| == |page|
    ensures page != [] ==> NewestFirst(page)[0] == page[|page| - 1]
  {
    if page != [] {
      NewestFirstLength(page[..|page| - 1]);
    }
  }

  // ---------------------------------------------------------------- nothing is missed

  /** How often the trade at place `k` was collected. */
  function Times(trades: seq<AccountTrade>, t: AccountTrade): nat { multiset(trades)[t] }

  lemma {:induction false} WithinKeepsTimes(page: seq<AccountTrade>, startTime: int, endTime: int, t: AccountTrade)
    ensures Times(Within(NewestFirst(page), startTime, endTime), t) ==
      if InWindow(t, startTime, endTime) then Times(page, t) else 0
    decreases |page|
  {
    if page != [] {
      var n := |page| - 1;
      WithinKeepsTimes(page[..n], startTime, endTime, t);
      TimesOfCons(page[n], NewestFirst(page[..n]), startTime, endTime, t);
      assert page == page[..n] + [page[n]];
    }
  }

  lemma {:induction false} OnceInASlice(h: seq<AccountTrade>, a: nat, b: nat, k: nat)
    requires a <= b <= |h| && k < |h| && forall j | a <= j < b && j != k :: h[j] != h[k]
    ensures Times(h[a..b], h[k]) == if a <= k < b then 1 else 0
    decreases b
  {
    if a < b {
      assert h[a..b] == h[a..b - 1] + [h[b - 1]];
      OnceInASlice(h, a, b - 1, k);
    }
  }

  lemma OncePerPage(h: seq<AccountTrade>, a: nat, b: nat, startTime: int, endTime: int, k: nat)
    requires Chronological(h) && a <= b <= |h| && k < |h|
    ensures Times(Within(NewestFirst(h[a..b]), startTime, endTime), h[k]) ==
      if a <= k < b && InWindow(h[k], startTime, endTime) then 1 else 0
  {
    forall j | a <= j < b && j != k ensures h[j] != h[k] {
      if j < k {
        assert Before(h, j, k);
      } else {
        assert Before(h, k, j);
      }
    }
    OnceInASlice(h, a, b, k);
    WithinKeepsTimes(h[a..b], startTime, endTime, h[k]);
  }

  lemma TimesOfCons(x: AccountTrade, rest: seq<AccountTrade>, startTime: int, endTime: int, t: AccountTrade)
    ensures Times(Within([x] + rest, startTime, endTime), t) ==
      Times(Within(rest, startTime, endTime), t) + if x == t && InWindow(x, startTime, endTime) then 1 else 0
  {
  }

  /** Place `k` ends a page that is followed by another. */
  predicate IsPageEnd(h: seq<AccountTrade>, i: nat, limit: nat, endTime: int, k: nat)
    requires i <= |h|
    decreases |h| - i
  {
    GoesOn(h, i, limit, endTime) && (k == i + limit - 1 || IsPageEnd(h, i + limit - 1, limit, endTime, k))
  }

  lemma {:induction false} PageEndsAreLater(h: seq<AccountTrade>, i: nat, limit: nat, endTime: int, k: nat)
    requires i <= |h| && IsPageEnd(h, i, limit, endTime, k)
    ensures k > i
    decreases |h| - i
  {
    if k != i + limit - 1 {
      PageEndsAreLater(h, i + limit - 1, limit, endTime, k);
    }
  }

  /** How often the trade at place `k` is collected from place `i` on. */
  function Expected(h: seq<AccountTrade>, i: nat, limit: nat, startTime: int, endTime: int, k: nat): nat
    requires i <= |h| && k < |h|
  {
    if k < i || h[k].createTime < startTime || h[k].createTime > endTime then 0
    else if IsPageEnd(h, i, limit, endTime, k) then 2 else 1
  }

  lemma ExpectedOfTheLastPage(h: seq<AccountTrade>, i: nat, limit: nat, startTime: int, endTime: int, k: nat)
    requires Chronological(h) && limit >= 2 && i <= |h| && k < |h| && !GoesOn(h, i, limit, endTime)
    ensures Expected(h, i, limit, startTime, endTime, k) == Times(PageWithin(h, i, limit, startTime, endTime), h[k])
  {
    OncePerPage(h, i, End(h, i, limit), startTime, endTime, k);
    if k >= End(h, i, limit) {
      assert Before(h, i + limit - 1, k);
    }
  }

  lemma ExpectedOfAPage(h: seq<AccountTrade>, i: nat, limit: nat, startTime: int, endTime: int, k: nat)
    requires Chronological(h) && limit >= 2 && i <= |h| && k < |h| && GoesOn(h, i, limit, endTime)
    ensures Expected(h, i, limit, startTime, endTime, k) ==
      Times(PageWithin(h, i, limit, startTime, endTime), h[k]) +
        Expected(h, i + limit - 1, limit, startTime, endTime, k)
  {
    OncePerPage(h, i, End(h, i, limit), startTime, endTime, k);
    var next := i + limit - 1;
    if IsPageEnd(h, next, limit, endTime, k) {
      PageEndsAreLater(h, next, limit, endTime, k);
    }
  }

  lemma CollectedFromUnfolds(h: seq<AccountTrade>, i: nat, limit: nat, startTime: int, endTime: int,
      before: seq<AccountTrade>)
    requires i <= |h|
    ensures var trades := before + PageWithin(h, i, limit, startTime, endTime);
      CollectedFrom(h, i, limit, startTime, endTime, before) ==
        if GoesOn(h, i, limit, endTime) then CollectedFrom(h, i + limit - 1, limit, startTime, endTime, trades)
        else trades
  {
  }

  /** What is collected from place `i` on holds `h[k]` as often as expected. */
  ghost predicate CollectedAsExpected(h: seq<AccountTrade>, i: nat, limit: nat, startTime: int, endTime: int,
      before: seq<AccountTrade>, k: nat)
    requires i <= |h| && k < |h|
  {
    Times(CollectedFrom(h, i, limit, startTime, endTime, before), h[k]) ==
      Times(before, h[k]) + Expected(h, i, limit, startTime, endTime, k)
  }

  lemma CollectsOnePage(h: seq<AccountTrade>, i: nat, limit: nat, startTime: int, endTime: int,
      before: seq<AccountTrade>, k: nat, trades: seq<AccountTrade>)
    requires Chronological(h) && limit >= 2 && i <= |h| && k < |h| && GoesOn(h, i, limit, endTime)
    requires trades == before + PageWithin(h, i, limit, startTime, endTime)
    requires CollectedAsExpected(h, i + limit - 1, limit, startTime, endTime, trades, k)
    ensures CollectedAsExpected(h, i, limit, startTime, endTime, before, k)
  {
    CollectedFromUnfolds(h, i, limit, startTime, endTime, before);
    TimesOfSum(before, PageWithin(h, i, limit, startTime, endTime), h[k]);
    ExpectedOfAPage(h, i, limit, startTime, endTime, k);
  }

  lemma CollectsTheLastPage(h: seq<AccountTrade>, i: nat, limit: nat, startTime: int, endTime: int,
      before: seq<AccountTrade>, k: nat)
    requires Chronological(h) && limit >= 2 && i <= |h| && k < |h| && !GoesOn(h, i, limit, endTime)
    ensures CollectedAsExpected(h, i, limit, startTime, endTime, before, k)
  {
    CollectedFromUnfolds(h, i, limit, startTime, endTime, before);
    TimesOfSum(before, PageWithin(h, i, limit, startTime, endTime), h[k]);
    ExpectedOfTheLastPage(h, i, limit, startTime, endTime, k);
  }

  /**
   * Every trade of the account from the cursor on and within the window is collected, once, except
   * that the last trade of a page that is followed by another is collected twice; nothing else is.
   */
  lemma {:induction false} EveryTradeInTheWindow(h: seq<AccountTrade>, i: nat, limit: nat, startTime: int, endTime: int,
      before: seq<AccountTrade>, k: nat)
    requires Chronological(h) && limit >= 2 && i <= |h| && k < |h|
    ensures CollectedAsExpected(h, i, limit, startTime, endTime, before, k)
    decreases |h| - i
  {
    if GoesOn(h, i, limit, endTime) {
      var trades := before + PageWithin(h, i, limit, startTime, endTime);
      EveryTradeInTheWindow(h, i + limit - 1, limit, startTime, endTime, trades, k);
      CollectsOnePage(h, i, limit, startTime, endTime, before, k, trades);
    } else {
      CollectsTheLastPage(h, i, limit, startTime, endTime, before, k);
    }
  }

  lemma TimesOfSum(a: seq<AccountTrade>, b: seq<AccountTrade>, t: AccountTrade)
    ensures Times(a + b, t) == Times(a, t) + Times(b, t)
  {
  }

  lemma {:induction false} OnlyTradesOfTheAccount(h: seq<AccountTrade>, i: nat, limit: nat, startTime: int,
      endTime: int, before: seq<AccountTrade>, t: AccountTrade)
    requires limit >= 2 && i <= |h| && t in CollectedFrom(h, i, limit, startTime, endTime, before)
    ensures t in before || (t in h[i..] && startTime <= t.createTime <= endTime)
    decreases |h| - i
  {
    var page := h[i..End(h, i, limit)];
    if t in PageWithin(h, i, limit, startTime, endTime) {
      WithinIsAFilter(NewestFirst(page), startTime, endTime, t);
      NewestFirstIsThePage(page, t);
      assert t in h[i..];
    } else if t !in before {
      OnlyTradesOfTheAccount(h, i + limit - 1, limit, startTime, endTime,
        before + PageWithin(h, i, limit, startTime, endTime), t);
      assert h[i..][limit - 1..] == h[i + limit - 1..];
    }
  }

  lemma {:induction false} WithinIsAFilter(trades: seq<AccountTrade>, startTime: int, endTime: int, t: AccountTrade)
    requires t in Within(trades, startTime, endTime)
    ensures t in trades && InWindow(t, startTime, endTime)
  {
    if t in Within(trades[1..], startTime, endTime) {
      WithinIsAFilter(trades[1..], startTime, endTime, t);
    }
  }

  lemma {:induction false} NewestFirstIsThePage(page: seq<AccountTrade>, t: AccountTrade)
    requires t in NewestFirst(page)
    ensures t in page
  {
    if t != page[|page| - 1] {
      NewestFirstIsThePage(page[..|page| - 1], t);
    }
  }
}
