/**
 * What holds over any run of the two order-recovery services, for every sequence of exchange answers.
 */
module RecoveryRuns {
  import opened OrderBooks
  import opened Exchanges
  import opened Wrappers
  import opened DealSizing
  import opened DepthPricing
  import opened OrderRecovery
  import opened StringUtils

  // ------------------------------------------------------------------- conservation

  /** How many of the orders are `id`. */
  function Count(orders: seq<Order>, id: Identity): nat {
    if orders == [] then 0
    else if IdentityOf(orders[0]) == id then 1 + Count(orders[1..], id)
    else Count(orders[1..], id)
  }

  lemma {:induction false} CountOfConcatenation(a: seq<Order>, b: seq<Order>, id: Identity)
    ensures Count(a + b, id) == Count(a, id) + Count(b, id)
  {
    if a == [] {
      assert a + b == b;
    } else {
      assert (a + b)[1..] == a[1..] + b;
      CountOfConcatenation(a[1..], b, id);
    }
  }

  function Without(orders: seq<Order>, i: nat): seq<Order>
    requires i < |orders|
  {
    orders[..i] + orders[i + 1..]
  }

  lemma CountWithout(orders: seq<Order>, i: nat, id: Identity)
    requires i < |orders|
    ensures Count(orders, id) == Count(Without(orders, i), id) + Count([orders[i]], id)
  {
    assert orders == orders[..i] + ([orders[i]] + orders[i + 1..]);
    CountOfConcatenation(orders[..i], [orders[i]] + orders[i + 1..], id);
    CountOfConcatenation([orders[i]], orders[i + 1..], id);
    CountOfConcatenation(orders[..i], orders[i + 1..], id);
  }

  /**
   * The orders in the two queues, in the hands of any number of workers of the two services, judged
   * closed or abandoned as too small, and lost. `entered` is history.
   */
  datatype System = System(watch: seq<Order>, failed: seq<Order>, expiring: seq<Order>, failing: seq<Order>,
                           finished: seq<Order>, lost: seq<Order>, entered: seq<Order>)

  datatype Step =
    | EnterWatch(order: Order)
    | EnterFailed(order: Order)
    | TakeExpired(index: nat)
    | TakeFailed(index: nat)
    | FinishExpired(index: nat, expiredAnswers: ExpiredAnswers)
    | FinishFailed(index: nat, failedAnswers: FailedAnswers)

  const NOTHING := System([], [], [], [], [], [], [])

  predicate Enabled(s: System, step: Step) {
    match step
    case EnterWatch(_) => true
    case EnterFailed(_) => true
    case TakeExpired(i) => i < |s.watch|
    case TakeFailed(i) => i < |s.failed|
    case FinishExpired(i, _) => i < |s.expiring| && Priced(s.expiring[i].pair)
    case FinishFailed(i, _) => i < |s.failing| && Priced(s.failing[i].pair)
  }

  function Put(s: System, f: Fate): System {
    match f
    case Rewatched(o) => s.(watch := s.watch + [o])
    case Replaced(o) => s.(watch := s.watch + [o])
    case Refailed(o) => s.(failed := s.failed + [o])
    case Closed(o) => s.(finished := s.finished + [o])
    case TooSmall(o) => s.(finished := s.finished + [o])
    case Lost(o) => s.(lost := s.lost + [o])
  }

  function After(s: System, step: Step, takesLogFile: bool): System
    requires Enabled(s, step)
  {
    match step
    case EnterWatch(o) => s.(watch := s.watch + [o], entered := s.entered + [o])
    case EnterFailed(o) => s.(failed := s.failed + [o], entered := s.entered + [o])
    case TakeExpired(i) => s.(watch := Without(s.watch, i), expiring := s.expiring + [s.watch[i]])
    case TakeFailed(i) => s.(failed := Without(s.failed, i), failing := s.failing + [s.failed[i]])
    case FinishExpired(i, a) =>
      Put(s.(expiring := Without(s.expiring, i)), ProcessExpiredOrder(s.expiring[i], a, takesLogFile))
    case FinishFailed(i, a) =>
      Put(s.(failing := Without(s.failing, i)), ProcessFailedOrder(s.failing[i], a, takesLogFile))
  }

  function Places(s: System, id: Identity): nat {
    Count(s.watch, id) + Count(s.failed, id) + Count(s.expiring, id) + Count(s.failing, id) + Count(s.finished, id) +
      Count(s.lost, id)
  }

  ghost predicate Conserved(s: System) {
    forall id :: Places(s, id) == Count(s.entered, id)
  }

  /** Where each fate puts the order, and nothing else changes: what is watched again or was replaced is
      watched, what is to be tried again waits with the failed, what is closed or too small is finished. */
  lemma FateDecidesThePlace(s: System, f: Fate)
    ensures
      var s' := Put(s, f);
      && s'.watch == s.watch + (if f.Rewatched? || f.Replaced? then [f.order] else [])
      && s'.failed == s.failed + (if f.Refailed? then [f.order] else [])
      && s'.finished == s.finished + (if f.Closed? || f.TooSmall? then [f.order] else [])
      && s'.lost == s.lost + (if f.Lost? then [f.order] else [])
      && s'.expiring == s.expiring && s'.failing == s.failing && s'.entered == s.entered
  {
  }

  /** The expired service handles what it took from the watch queue, the failed service what it took from
      the failed ones. */
  lemma EachServiceTakesFromItsQueue(s: System, i: nat, takesLogFile: bool)
    ensures i < |s.watch| ==>
      After(s, TakeExpired(i), takesLogFile) ==
        s.(watch := s.watch[..i] + s.watch[i + 1..], expiring := s.expiring + [s.watch[i]])
    ensures i < |s.failed| ==>
      After(s, TakeFailed(i), takesLogFile) ==
        s.(failed := s.failed[..i] + s.failed[i + 1..], failing := s.failing + [s.failed[i]])
  {
  }

  lemma PutAddsOne(s: System, f: Fate, id: Identity)
    ensures Places(Put(s, f), id) == Places(s, id) + Count([f.order], id)
    ensures Put(s, f).entered == s.entered
  {
    match f
    case Rewatched(o) => CountOfConcatenation(s.watch, [o], id);
    case Replaced(o) => CountOfConcatenation(s.watch, [o], id);
    case Refailed(o) => CountOfConcatenation(s.failed, [o], id);
    case Closed(o) => CountOfConcatenation(s.finished, [o], id);
    case TooSmall(o) => CountOfConcatenation(s.finished, [o], id);
    case Lost(o) => CountOfConcatenation(s.lost, [o], id);
  }

  lemma ProcessingKeepsIdentity(o: Order, e: ExpiredAnswers, f: FailedAnswers, takesLogFile: bool)
    requires Priced(o.pair)
    ensures IdentityOf(ProcessExpiredOrder(o, e, takesLogFile).order) == IdentityOf(o)
    ensures IdentityOf(ProcessFailedOrder(o, f, takesLogFile).order) == IdentityOf(o)
  {
  }

  lemma SameIdentitySameCount(o: Order, o': Order, id: Identity)
    requires IdentityOf(o) == IdentityOf(o')
    ensures Count([o], id) == Count([o'], id)
  {
  }

  lemma FinishExpiredConserves(s: System, i: nat, a: ExpiredAnswers, takesLogFile: bool, id: Identity)
    requires Enabled(s, FinishExpired(i, a))
    ensures Places(After(s, FinishExpired(i, a), takesLogFile), id) == Places(s, id)
    ensures After(s, FinishExpired(i, a), takesLogFile).entered == s.entered
  {
    var o, f := s.expiring[i], ProcessExpiredOrder(s.expiring[i], a, takesLogFile);
    CountWithout(s.expiring, i, id);
    PutAddsOne(s.(expiring := Without(s.expiring, i)), f, id);
    ProcessingKeepsIdentity(o, a, FailedAnswers([], [], a.market), takesLogFile);
    SameIdentitySameCount(o, f.order, id);
  }

  lemma FinishFailedConserves(s: System, i: nat, a: FailedAnswers, takesLogFile: bool, id: Identity)
    requires Enabled(s, FinishFailed(i, a))
    ensures Places(After(s, FinishFailed(i, a), takesLogFile), id) == Places(s, id)
    ensures After(s, FinishFailed(i, a), takesLogFile).entered == s.entered
  {
    var o, f := s.failing[i], ProcessFailedOrder(s.failing[i], a, takesLogFile);
    CountWithout(s.failing, i, id);
    PutAddsOne(s.(failing := Without(s.failing, i)), f, id);
    ProcessingKeepsIdentity(o, ExpiredAnswers(None, false, a.market), a, takesLogFile);
    SameIdentitySameCount(o, f.order, id);
  }

  lemma StepConserves(s: System, step: Step, takesLogFile: bool)
    requires Enabled(s, step) && Conserved(s)
    ensures Conserved(After(s, step, takesLogFile))
  {
    var s' := After(s, step, takesLogFile);
    forall id ensures Places(s', id) == Count(s'.entered, id) {
      assert Places(s, id) == Count(s.entered, id);
      match step
      case EnterWatch(o) =>
        CountOfConcatenation(s.watch, [o], id);
        CountOfConcatenation(s.entered, [o], id);
      case EnterFailed(o) =>
        CountOfConcatenation(s.failed, [o], id);
        CountOfConcatenation(s.entered, [o], id);
      case TakeExpired(i) =>
        CountWithout(s.watch, i, id);
        CountOfConcatenation(s.expiring, [s.watch[i]], id);
      case TakeFailed(i) =>
        CountWithout(s.failed, i, id);
        CountOfConcatenation(s.failing, [s.failed[i]], id);
      case FinishExpired(i, a) => FinishExpiredConserves(s, i, a, takesLogFile, id);
      case FinishFailed(i, a) => FinishFailedConserves(s, i, a, takesLogFile, id);
    }
  }

  ghost predicate IsRun(states: seq<System>, steps: seq<Step>, takesLogFile: bool) {
    && |states| == |steps| + 1 && states[0] == NOTHING
    && forall i | 0 <= i < |steps| ::
      Enabled(states[i], steps[i]) && states[i + 1] == After(states[i], steps[i], takesLogFile)
  }

  /**
   * In every run, whatever the exchanges answer, an order that entered once is in exactly one place:
   * a queue, a worker's hands, finished, or lost.
   */
  lemma {:induction false} EveryOrderIsInOnePlace(states: seq<System>, steps: seq<Step>, takesLogFile: bool, i: nat)
    requires IsRun(states, steps, takesLogFile) && i < |states|
    ensures Conserved(states[i])
    ensures forall id | Count(states[i].entered, id) == 1 :: Places(states[i], id) == 1
    decreases i
  {
    if i > 0 {
      EveryOrderIsInOnePlace(states, steps, takesLogFile, i - 1);
      StepConserves(states[i - 1], steps[i - 1], takesLogFile);
      assert states[i] == After(states[i - 1], steps[i - 1], takesLogFile);
    }
  }

  // ----------------------------------------------------------------- how each order ends

  /** The balance that pays for an order is there, and dividing by its price is possible. */
  predicate Computable(o: Order, m: Market) {
    match o.tradeType
    case SELL => o.pair.dst in m.balance
    case BUY => o.pair.base in m.balance && (o.price != 0.0 || MoreThan(m.balance, o.pair.base, o.volume * o.price))
  }

  /** The volume a replacement would have; None where balances, price or rounding raise. */
  function ReplacementVolume(o: Order, m: Market): Option<real> {
    match DetermineMaximumVolumeByBalance(o, m.balance)
    case None => None
    case Some(determined) => RoundVolume(m.precision, determined, m.printed)
  }

  /** The determined volume is printed as the market says. */
  ghost predicate PrintsTheVolume(o: Order, m: Market) {
    var determined := DetermineMaximumVolumeByBalance(o, m.balance);
    determined.Some? ==> Prints(m.printed, determined.value)
  }

  predicate IsMangled(o: Order, m: Market) {
    var determined := DetermineMaximumVolumeByBalance(o, m.balance);
    determined.Some? && m.precision.Some? && !PrintedPlainly(determined.value) && Mangled(m.printed, m.precision.value)
  }

  /** Nothing is lost before the replacement is sent, unless a balance is unknown, the price is zero or
      the volume is cut at the sign of its exponent. */
  lemma RaisesIff(o: Order, m: Market)
    requires Computable(o, m) ==> PrintsTheVolume(o, m)
    ensures ReplacementVolume(o, m) == None <==> !Computable(o, m) || IsMangled(o, m)
  {
    if Computable(o, m) && m.precision.Some? {
      var determined := DetermineMaximumVolumeByBalance(o, m.balance).value;
      if !PrintedPlainly(determined) {
        CutReads(m.printed, m.precision.value);
      }
    }
  }

  /** The market could be asked everything a replacement needs. */
  predicate Answered(m: Market) { m.ticker.Some? && m.book.Some? && !m.bookExpired && !m.balanceExpired }

  /** An expired order is replaced only after it was found open, cancelled, and all answers came in. */
  predicate ExpiredIsTried(a: ExpiredAnswers) {
    a.open.Some? && a.open.value != [] && a.cancelled && Answered(a.market)
  }

  /** The order as it would be replaced, and the least volume for that. */
  function ExpiredRepriced(o: Order, a: ExpiredAnswers): Order
    requires ExpiredIsTried(a)
  {
    Repriced(ExecutedVolumeUpdated(a.open.value, o), a.market.book.value)
  }

  /** The same order, but for a price that it may have been given. */
  predicate IsBack(o: Order, back: Order) { back == o.(price := back.price) }

  lemma FateOfAnExpiredOrder(o: Order, a: ExpiredAnswers, takesLogFile: bool)
    requires Priced(o.pair)
    ensures var f := ProcessExpiredOrder(o, a, takesLogFile);
      && (f.Closed? <==> a.open == Some([])) && (f.Closed? ==> f.order == o)
      && (f.Rewatched? <==> a.open != Some([]) && !ExpiredIsTried(a))
      && (f.Rewatched? ==> IsBack(if a.open.Some? then ExecutedVolumeUpdated(a.open.value, o) else o, f.order))
      && (ExpiredIsTried(a) ==>
           f == PlaceOrderByMarketRate(ExpiredRepriced(o, a), ComputeMinCapFromTicker(o.pair, a.market.ticker.value),
             a.market, takesLogFile))
  {
  }

  /**
   * An expired order is lost exactly when its replacement is tried and either raises or, with the
   * volume it would have after rounding at least the ticker's minimum, is refused by the exchange while
   * `add_order` does not take the log file name.
   */
  lemma ExpiredOrderIsLostIff(o: Order, a: ExpiredAnswers, takesLogFile: bool)
    requires Priced(o.pair)
    ensures ProcessExpiredOrder(o, a, takesLogFile).Lost? <==>
      && ExpiredIsTried(a)
      && var v := ReplacementVolume(ExpiredRepriced(o, a), a.market);
      && (v == None || (
            && v.value >= ComputeMinCapFromTicker(o.pair, a.market.ticker.value)
            && a.market.placed == None && !takesLogFile))
  {
    FateOfAnExpiredOrder(o, a, takesLogFile);
  }

  /** A failed order is tried again only if it has no id and the exchange knows no such order. */
  ghost predicate FailedIsTried(o: Order, a: FailedAnswers) {
    && o.orderId == None && Answered(a.market)
    && (forall e | e in a.open :: !MayBe(e, o)) && (forall e | e in a.history :: !MayBe(e, o))
  }

  /** A failed order is watched exactly when it has an id or matches an open order, closed exactly when it
      only matches the history, and otherwise tried again, or put back when an answer is missing. */
  lemma FateOfAFailedOrder(o: Order, a: FailedAnswers, takesLogFile: bool)
    requires Priced(o.pair)
    ensures var f := ProcessFailedOrder(o, a, takesLogFile);
      var open, closed :=
        o.orderId.Some? || (exists e | e in a.open :: MayBe(e, o)), exists e | e in a.history :: MayBe(e, o);
      && (f.Rewatched? <==> open)
      && (f.Closed? <==> !open && closed)
      && (f.Rewatched? ==> f.order == TryToSetOrderId(a.open, o))
      && (f.Closed? ==> f.order == TryToSetOrderId(a.history, o))
      && (!open && !closed && !Answered(a.market) ==> f.Refailed? && IsBack(o, f.order))
      && (FailedIsTried(o, a) ==>
           f == PlaceOrderByMarketRate(Repriced(o, a.market.book.value),
             ComputeMinCapFromTicker(o.pair, a.market.ticker.value), a.market, takesLogFile))
  {
    IdIsSetIff(a.open, o);
    if o.orderId.Some? {
      AnIdStays(a.open, o);
    } else if !(exists e | e in a.open :: MayBe(e, o)) {
      IdIsSetIff(a.history, o);
    }
  }

  /** And the failed service loses an order in exactly the same way. */
  lemma FailedOrderIsLostIff(o: Order, a: FailedAnswers, takesLogFile: bool)
    requires Priced(o.pair)
    ensures ProcessFailedOrder(o, a, takesLogFile).Lost? <==>
      && FailedIsTried(o, a)
      && var v := ReplacementVolume(Repriced(o, a.market.book.value), a.market);
      && (v == None || (
            && v.value >= ComputeMinCapFromTicker(o.pair, a.market.ticker.value)
            && a.market.placed == None && !takesLogFile))
  {
    FateOfAFailedOrder(o, a, takesLogFile);
  }

  // -------------------------------------------------------------- what is sent again

  predicate Solvent(balance: map<Currency, real>) { forall c | c in balance :: balance[c] >= 0.0 }

  lemma NothingForANegativePrice(base: real, price: real)
    requires base >= 0.0 && price < 0.0
    ensures WhatBasePaysFor(base, price) <= 0.0
  {
    var v := WhatBasePaysFor(base, price);
    assert v * price == MAX_VOLUME_COEFFICIENT * base;
    SmallerIsCheaper(v, 0.0, -price);
    assert v * -price == -(v * price);
  }

  lemma BasePays(volume: real, base: real, price: real)
    requires price > 0.0 && base <= volume * price
    ensures var v := WhatBasePaysFor(base, price);
      v > 0.0 ==> v < volume && v * price <= base
  {
    var v := WhatBasePaysFor(base, price);
    assert v * price == MAX_VOLUME_COEFFICIENT * base;
    SmallerIsCheaper(0.0, v, price);
    SmallerIsCheaper(v, volume, price);
  }

  /** At a positive price, or at the -10 of an empty side. */
  lemma DeterminedIsCovered(o: Order, balance: map<Currency, real>)
    requires o.price > 0.0 || (o.price < 0.0 && Solvent(balance))
    ensures var determined := DetermineMaximumVolumeByBalance(o, balance);
      determined.Some? && determined.value > 0.0 ==>
        && determined.value <= o.volume
        && (o.tradeType == SELL ==> determined.value <= balance[o.pair.dst])
        && (o.tradeType == BUY ==> determined.value * o.price <= balance[o.pair.base])
  {
    if o.tradeType == BUY && o.pair.base in balance && !MoreThan(balance, o.pair.base, o.volume * o.price) {
      if o.price > 0.0 {
        BasePays(o.volume, balance[o.pair.base], o.price);
      } else {
        NothingForANegativePrice(balance[o.pair.base], o.price);
      }
    }
  }

  lemma SmallerIsAffordable(v: real, w: real, price: real, base: real)
    requires 0.0 < v <= w && w * price <= base && (price > 0.0 || base >= 0.0)
    ensures v * price <= base
  {
    if price > 0.0 {
      SmallerIsCheaper(v, w, price);
    } else {
      assert v * price <= 0.0;
    }
  }

  /** The determined volume is not cut into scientific notation. */
  ghost predicate RoundsItsVolume(o: Order, m: Market) {
    var determined := DetermineMaximumVolumeByBalance(o, m.balance);
    determined.Some? ==> RoundsDown(m.precision, determined.value, m.printed)
  }

  /** `sent` is no larger than `o`, at least the minimum, and affordable at its own limit price. */
  ghost predicate IsAffordable(o: Order, sent: Order, minVolume: real, balance: map<Currency, real>) {
    && minVolume <= sent.volume <= o.volume && sent.price == o.price
    && (o.tradeType == SELL ==> o.pair.dst in balance && sent.volume <= balance[o.pair.dst])
    && (o.tradeType == BUY ==> o.pair.base in balance && sent.volume * sent.price <= balance[o.pair.base])
  }

  lemma ReplacedVolume(o: Order, minVolume: real, m: Market, takesLogFile: bool)
    requires minVolume > 0.0 && PrintsTheVolume(o, m) && PlaceOrderByMarketRate(o, minVolume, m, takesLogFile).Replaced?
    ensures var sent := PlaceOrderByMarketRate(o, minVolume, m, takesLogFile).order;
      var determined := DetermineMaximumVolumeByBalance(o, m.balance);
      && determined.Some? && minVolume <= sent.volume && sent.price == o.price
      && (sent.volume <= determined.value <==> RoundsItsVolume(o, m))
  {
    RoundingShrinksIff(m.precision, DetermineMaximumVolumeByBalance(o, m.balance).value, m.printed);
  }

  lemma SmallerIsCovered(o: Order, determined: real, sent: Order, minVolume: real, balance: map<Currency, real>)
    requires DetermineMaximumVolumeByBalance(o, balance) == Some(determined)
    requires 0.0 < minVolume <= sent.volume <= determined && sent.price == o.price
    requires o.price > 0.0 || (o.price < 0.0 && Solvent(balance))
    ensures IsAffordable(o, sent, minVolume, balance)
  {
    DeterminedIsCovered(o, balance);
    if o.tradeType == BUY {
      SmallerIsAffordable(sent.volume, determined, o.price, balance[o.pair.base]);
    }
  }

  /** Every replacement is no larger than the order, at least the minimum, and affordable, unless
      rounding cut into scientific notation; then it is more than the balance was found to allow. */
  lemma ReplacementIsCovered(o: Order, minVolume: real, m: Market, takesLogFile: bool)
    requires o.price > 0.0 || (o.price < 0.0 && Solvent(m.balance))
    requires minVolume > 0.0 && PrintsTheVolume(o, m)
    ensures var f := PlaceOrderByMarketRate(o, minVolume, m, takesLogFile);
      f.Replaced? ==>
        if RoundsItsVolume(o, m) then IsAffordable(o, f.order, minVolume, m.balance)
        else f.order.volume > DetermineMaximumVolumeByBalance(o, m.balance).value
  {
    var f := PlaceOrderByMarketRate(o, minVolume, m, takesLogFile);
    if f.Replaced? {
      ReplacedVolume(o, minVolume, m, takesLogFile);
      if RoundsItsVolume(o, m) {
        SmallerIsCovered(o, DetermineMaximumVolumeByBalance(o, m.balance).value, f.order, minVolume, m.balance);
      }
    }
  }

  /** An exchange's report of an order that is no larger than what is watched. */
  predicate NoLarger(e: ExchangeOrder, o: Order) {
    SameOrder(e, o) ==> e.executedVolume >= 0.0 && e.volume <= o.volume
  }

  lemma {:induction false} UpdatingNeverAdds(open: seq<ExchangeOrder>, o: Order)
    requires forall e | e in open :: NoLarger(e, o)
    ensures ExecutedVolumeUpdated(open, o).volume <= o.volume
  {
    if open != [] {
      assert NoLarger(open[0], o);
      if !SameOrder(open[0], o) {
        UpdatingNeverAdds(open[1..], o);
      }
    }
  }

  predicate PositivePrices(levels: seq<Deal>) { forall d | d in levels :: d.price > 0.0 }

  /** The answers of one round that make sense: nothing grows, prices are positive, balances not negative,
      and no volume is cut into scientific notation. */
  ghost predicate Sensible(o: Order, a: ExpiredAnswers) {
    && (a.open.Some? ==> forall e | e in a.open.value :: NoLarger(e, o))
    && (a.market.ticker.Some? ==> a.market.ticker.value > 0.0)
    && (a.market.book.Some? ==> PositivePrices(a.market.book.value.bids) && PositivePrices(a.market.book.value.asks))
    && Solvent(a.market.balance)
    && (ExpiredIsTried(a) ==>
         PrintsTheVolume(ExpiredRepriced(o, a), a.market) && RoundsItsVolume(ExpiredRepriced(o, a), a.market))
  }

  lemma MinimumIsPositive(pair: Pair, ask: real)
    requires Priced(pair) && ask > 0.0
    ensures ComputeMinCapFromTicker(pair, ask) > 0.0
  {
  }

  /** Nobody is there to trade with: no bids for a sale, no asks for a purchase. */
  predicate NobodyTrades(tradeType: TradeType, b: BookSides) {
    match tradeType case SELL => b.bids == [] case BUY => b.asks == []
  }

  /**
   * The price found is that of a level exactly when there is somebody to trade with and volume left;
   * otherwise it is -10.
   */
  lemma RepricedIffThereIsASide(o: Order, b: BookSides)
    requires PositivePrices(b.bids) && PositivePrices(b.asks)
    ensures Repriced(o, b).price > 0.0 <==> !NobodyTrades(o.tradeType, b) && o.volume > 0.0
    ensures Repriced(o, b).price <= 0.0 ==> Repriced(o, b).price == NO_PRICE
  {
    NoPriceIff(SideFor(o, b), o.volume);
    if SideFor(o, b) != [] && o.volume > 0.0 {
      PriceOfTheFirstDeepEnough(SideFor(o, b), o.volume);
    }
  }

  /** The price at which an order of this kind and volume is placed again: that of the last bid a sale has
      to reach for twice its volume, of the last ask for a purchase, or -10. */
  ghost predicate IsItsPrice(tradeType: TradeType, volume: real, b: BookSides, price: real) {
    if NobodyTrades(tradeType, b) || volume <= 0.0 then price == NO_PRICE
    else
      match tradeType
      case SELL => PricedByDepth(b.bids, volume, price)
      case BUY => PricedByDepth(b.asks, volume, price)
  }

  lemma RepricedIff(o: Order, b: BookSides, price: real)
    ensures Repriced(o, b) == o.(price := price) <==> IsItsPrice(o.tradeType, o.volume, b, price)
  {
    NoPriceIff(SideFor(o, b), o.volume);
    if SideFor(o, b) != [] && o.volume > 0.0 {
      WalkFindsThePrice(SideFor(o, b), o.volume, price);
    }
    assert Repriced(o, b) == o.(price := price) <==> Repriced(o, b).price == price;
  }

  /** A limit on a side: no better than its best level, and good for twice the volume or the whole side. */
  ghost predicate MeetsTwice(side: Side, levels: seq<Deal>, volume: real, limit: real) {
    && levels != [] && !Better(side, limit, levels[0].price)
    && (OfferedAt(side, levels, limit) >= 2.0 * volume ||
         OfferedAt(side, levels, limit) == Depth(levels, |levels|))
  }

  /** On sorted sides a sale meets twice its volume, or everything, among the bids, and never asks for more
      than the best bid; a purchase among the asks, and never offers less than the best ask. */
  lemma PricedAgainstTheOtherSide(tradeType: TradeType, volume: real, b: BookSides, price: real)
    requires SortedSide(Bid, b.bids) && PositiveVolumes(b.bids) && SortedSide(Ask, b.asks) && PositiveVolumes(b.asks)
    requires volume > 0.0 && !NobodyTrades(tradeType, b) && IsItsPrice(tradeType, volume, b, price)
    ensures tradeType == SELL ==> MeetsTwice(Bid, b.bids, volume, price) && price <= b.bids[0].price
    ensures tradeType == BUY ==> MeetsTwice(Ask, b.asks, volume, price) && price >= b.asks[0].price
  {
    var (side, levels) := if tradeType == SELL then (Bid, b.bids) else (Ask, b.asks);
    WalkFindsThePrice(levels, volume, price);
    LimitMeetsTwiceTheVolume(side, levels, volume);
    NeverBetterThanTheBest(side, levels, volume);
  }

  /** One round never adds volume, not even one that finds an empty side. */
  lemma OneRoundNeverAdds(o: Order, a: ExpiredAnswers, takesLogFile: bool)
    requires Priced(o.pair) && Sensible(o, a)
    ensures var f := ProcessExpiredOrder(o, a, takesLogFile);
      f.Rewatched? || f.Replaced? ==> f.order.volume <= o.volume
  {
    if a.open.Some? {
      UpdatingNeverAdds(a.open.value, o);
      FateOfAnExpiredOrder(o, a, takesLogFile);
      if ExpiredIsTried(a) {
        MinimumIsPositive(o.pair, a.market.ticker.value);
        RepricedIffThereIsASide(ExecutedVolumeUpdated(a.open.value, o), a.market.book.value);
        ReplacementIsCovered(ExpiredRepriced(o, a), ComputeMinCapFromTicker(o.pair, a.market.ticker.value), a.market,
          takesLogFile);
      }
    }
  }

  /** `sent` is what `o` is placed again as: nothing changes but price, volume, time and id. */
  ghost predicate IsReplacement(o: Order, m: Market, sent: Order)
    requires Priced(o.pair)
  {
    && m.ticker.Some? && m.book.Some? && m.placed.Some?
    && sent == o.(price := sent.price, volume := sent.volume, createTime := m.now, orderId := m.placed)
    && IsItsPrice(o.tradeType, o.volume, m.book.value, sent.price)
    && ReplacementVolume(o.(price := sent.price), m) == Some(sent.volume)
    && sent.volume >= ComputeMinCapFromTicker(o.pair, m.ticker.value)
  }

  lemma PlacedAgainIff(o: Order, m: Market, takesLogFile: bool, sent: Order)
    requires Priced(o.pair) && Answered(m)
    ensures
      var minVolume := ComputeMinCapFromTicker(o.pair, m.ticker.value);
      PlaceOrderByMarketRate(Repriced(o, m.book.value), minVolume, m, takesLogFile) == Replaced(sent) <==>
        IsReplacement(o, m, sent)
  {
    RepricedIff(o, m.book.value, sent.price);
    RepricedIff(o, m.book.value, Repriced(o, m.book.value).price);
  }

  /** An expired order is replaced exactly when it is tried, by exactly that order. */
  lemma ExpiredIsReplacedIff(o: Order, a: ExpiredAnswers, takesLogFile: bool, sent: Order)
    requires Priced(o.pair)
    ensures ProcessExpiredOrder(o, a, takesLogFile) == Replaced(sent) <==>
      ExpiredIsTried(a) && IsReplacement(ExecutedVolumeUpdated(a.open.value, o), a.market, sent)
  {
    FateOfAnExpiredOrder(o, a, takesLogFile);
    if ExpiredIsTried(a) {
      PlacedAgainIff(ExecutedVolumeUpdated(a.open.value, o), a.market, takesLogFile, sent);
    }
  }

  /** And so is a failed one. */
  lemma FailedIsReplacedIff(o: Order, a: FailedAnswers, takesLogFile: bool, sent: Order)
    requires Priced(o.pair)
    ensures ProcessFailedOrder(o, a, takesLogFile) == Replaced(sent) <==>
      FailedIsTried(o, a) && IsReplacement(o, a.market, sent)
  {
    FateOfAFailedOrder(o, a, takesLogFile);
    if FailedIsTried(o, a) {
      PlacedAgainIff(o, a.market, takesLogFile, sent);
    }
  }

  /** How much of an order its balance pays for: all of it if there is more than that, otherwise the whole
      coin balance for a sale and nine tenths of the base balance for a purchase. */
  lemma DeterminedByTheBalance(o: Order, balance: map<Currency, real>)
    ensures var v := DetermineMaximumVolumeByBalance(o, balance);
      match o.tradeType
      case SELL =>
        && (v == None <==> o.pair.dst !in balance)
        && (v.Some? ==> v.value <= o.volume && v.value <= balance[o.pair.dst])
        && (v.Some? ==> v.value == o.volume || v.value == balance[o.pair.dst])
      case BUY =>
        && (o.pair.base !in balance ==> v == None)
        && (o.pair.base in balance && balance[o.pair.base] > o.volume * o.price ==> v == Some(o.volume))
        && (o.pair.base in balance && balance[o.pair.base] <= o.volume * o.price && o.price != 0.0 ==>
             v.Some? && v.value * o.price == 0.9 * balance[o.pair.base])
        && (o.pair.base in balance && balance[o.pair.base] <= 0.0 && o.price == 0.0 ==> v == None)
  {
  }

  /** The least volume is worth a fixed amount of the base currency at the ticker's ask. */
  lemma MinimumIsWorthAFixedAmount(pair: Pair, ask: real)
    requires Priced(pair)
    ensures var least := ComputeMinCapFromTicker(pair, ask);
      if ask > 0.0 then least * ask == match pair.base case "BTC" => 0.004 case "ETH" => 0.04 case _ => 40.0
      else least == 0.0
  {
  }

  /** One order going round through the watch queue: what each round makes of it. */
  ghost predicate Rounds(orders: seq<Order>, answers: seq<ExpiredAnswers>, takesLogFile: bool) {
    && |orders| == |answers| + 1
    && forall i | 0 <= i < |answers| ::
        && Priced(orders[i].pair) && Sensible(orders[i], answers[i])
        && var f := ProcessExpiredOrder(orders[i], answers[i], takesLogFile);
        && (f.Rewatched? || f.Replaced?) && orders[i + 1] == f.order
  }

  lemma {:induction false} VolumeNeverIncreases(orders: seq<Order>, answers: seq<ExpiredAnswers>, takesLogFile: bool,
      i: nat, j: nat)
    requires Rounds(orders, answers, takesLogFile) && i <= j < |orders|
    ensures orders[j].volume <= orders[i].volume && IdentityOf(orders[j]) == IdentityOf(orders[i])
    decreases j
  {
    if i < j {
      VolumeNeverIncreases(orders, answers, takesLogFile, i, j - 1);
      OneRoundNeverAdds(orders[j - 1], answers[j - 1], takesLogFile);
      ProcessingKeepsIdentity(orders[j - 1], answers[j - 1], FailedAnswers([], [], answers[j - 1].market),
        takesLogFile);
    }
  }

  // ------------------------------------------------------- where the code falls short

  /** A replacement goes out at -10 exactly when there are no bids for a sale, or no asks for a purchase. */
  lemma ReplacedAtMinusTenIff(o: Order, a: ExpiredAnswers, takesLogFile: bool)
    requires Priced(o.pair) && Sensible(o, a)
    ensures var f := ProcessExpiredOrder(o, a, takesLogFile);
      f.Replaced? ==>
        && ExpiredIsTried(a)
        && (f.order.price == NO_PRICE <==> NobodyTrades(o.tradeType, a.market.book.value))
  {
    var f := ProcessExpiredOrder(o, a, takesLogFile);
    FateOfAnExpiredOrder(o, a, takesLogFile);
    if f.Replaced? {
      var updated := ExecutedVolumeUpdated(a.open.value, o);
      MinimumIsPositive(o.pair, a.market.ticker.value);
      RepricedIffThereIsASide(updated, a.market.book.value);
      ReplacementIsCovered(ExpiredRepriced(o, a), ComputeMinCapFromTicker(o.pair, a.market.ticker.value), a.market,
        takesLogFile);
    }
  }

  /** And on an empty side such an order is sent exactly when it is tried, the exchange takes it, and its
      volume reaches the minimum: no price stops it. */
  lemma EmptySideIsTradedAtMinusTen(o: Order, a: ExpiredAnswers, takesLogFile: bool)
    requires Priced(o.pair) && a.market.book.Some? && NobodyTrades(o.tradeType, a.market.book.value)
    ensures var f := ProcessExpiredOrder(o, a, takesLogFile);
      f.Replaced? && f.order.price == NO_PRICE <==>
        && ExpiredIsTried(a) && a.market.placed.Some?
        && var v := ReplacementVolume(ExpiredRepriced(o, a), a.market);
        && v.Some? && v.value >= ComputeMinCapFromTicker(o.pair, a.market.ticker.value)
  {
    FateOfAnExpiredOrder(o, a, takesLogFile);
    if ExpiredIsTried(a) {
      NoPriceIff([], ExecutedVolumeUpdated(a.open.value, o).volume);
    }
  }

  /** An order that was cancelled but could not be replaced for want of an answer is judged closed in the
      next round if no order is open then, whatever volume it had left. */
  lemma CancelledOrdersAreJudgedClosed(o: Order, first: ExpiredAnswers, second: ExpiredAnswers, takesLogFile: bool)
    requires Priced(o.pair) && first.open.Some? && first.open.value != [] && first.cancelled && !Answered(first.market)
    requires second.open == Some([])
    ensures var f := ProcessExpiredOrder(o, first, takesLogFile);
      && f.Rewatched? && f.order.volume == ExecutedVolumeUpdated(first.open.value, o).volume
      && ProcessExpiredOrder(f.order, second, takesLogFile) == Closed(f.order)
  {
  }

  /** `e` is the first report of the order. */
  ghost predicate Decides(open: seq<ExchangeOrder>, o: Order, e: ExchangeOrder) {
    exists j | 0 <= j < |open| ::
      open[j] == e && Concerns(e, o) && forall k | 0 <= k < j :: !Concerns(open[k], o)
  }

  /** Rounds of the expired service in which one order could not be cancelled, and its report in each. */
  ghost predicate Uncancelled(orders: seq<Order>, answers: seq<ExpiredAnswers>, reports: seq<ExchangeOrder>) {
    && |orders| == |answers| + 1 == |reports| + 1
    && forall i | 0 <= i < |answers| :: UncancelledRound(orders[i], answers[i], reports[i], orders[i + 1])
  }

  ghost predicate UncancelledRound(o: Order, a: ExpiredAnswers, e: ExchangeOrder, o': Order) {
    && Priced(o.pair) && a.open.Some? && !a.cancelled && Decides(a.open.value, o, e)
    && forall takesLogFile :: ProcessExpiredOrder(o, a, takesLogFile) == Rewatched(o')
  }

  lemma OneUncancelledRound(o: Order, a: ExpiredAnswers, e: ExchangeOrder, o': Order)
    requires UncancelledRound(o, a, e, o') && o.exchange != Poloniex
    ensures o'.volume == o.volume - e.executedVolume && o'.exchange == o.exchange
  {
    var open := a.open.value;
    var j :| 0 <= j < |open| && open[j] == e && Concerns(e, o) && forall k | 0 <= k < j :: !Concerns(open[k], o);
    TheFirstReportDecides(open, o, j);
    assert ProcessExpiredOrder(o, a, false) == Rewatched(o');
  }

  function Executed(reports: seq<ExchangeOrder>): real {
    if reports == [] then 0.0 else Executed(reports[..|reports| - 1]) + reports[|reports| - 1].executedVolume
  }

  /**
   * Each failed cancellation subtracts the whole executed volume again, so what is watched is the
   * true rest exactly when nothing had been executed in the rounds before the last.
   */
  lemma {:induction false} FailedCancelsSubtractAgain(orders: seq<Order>, answers: seq<ExpiredAnswers>,
      reports: seq<ExchangeOrder>)
    requires Uncancelled(orders, answers, reports) && orders[0].exchange != Poloniex
    ensures orders[|reports|].volume == orders[0].volume - Executed(reports)
    ensures orders[|reports|].exchange == orders[0].exchange
    ensures reports != [] ==>
      (orders[|reports|].volume == orders[0].volume - reports[|reports| - 1].executedVolume <==>
        Executed(reports[..|reports| - 1]) == 0.0)
    decreases |reports|
  {
    if reports != [] {
      var n := |reports| - 1;
      assert Uncancelled(orders[..n + 1], answers[..n], reports[..n]) by {
        forall i | 0 <= i < n
          ensures UncancelledRound(orders[..n + 1][i], answers[..n][i], reports[..n][i], orders[..n + 1][i + 1])
        {
          assert UncancelledRound(orders[i], answers[i], reports[i], orders[i + 1]);
        }
      }
      FailedCancelsSubtractAgain(orders[..n + 1], answers[..n], reports[..n]);
      OneUncancelledRound(orders[n], answers[n], reports[n], orders[n + 1]);
    }
  }

  /**
   * Poloniex reports the starting amount as the volume, and that is taken for what is left: right
   * exactly when nothing was executed.
   */
  lemma PoloniexRestIsTheStartingAmount(o: Order, e: ExchangeOrder)
    requires o.exchange == Poloniex && SameOrder(e, o) && e.volume == o.volume
    ensures ExecutedVolumeUpdated([e], o).volume == o.volume - e.executedVolume <==> e.executedVolume == 0.0
    ensures ExecutedVolumeUpdated([e], o).executedVolume == Some(0.0)
  {
  }

  // ------------------------------------------------------ finding a failed order again

  /** `r` is `o` with the id and the time of a reported order for the same pair, side and price. */
  ghost predicate TakesIdFrom(found: seq<ExchangeOrder>, o: Order, r: Order) {
    exists e | e in found :: r == o.(orderId := Some(e.orderId), createTime := e.createTime)
      && e.pair == o.pair && e.tradeType == o.tradeType && e.price == o.price
  }

  /**
   * A failed order is given an id exactly when some reported order matches it as it was, and then it
   * takes id and time from a reported order for the same pair, side and price.
   */
  lemma {:induction false} IdIsSetIff(found: seq<ExchangeOrder>, o: Order)
    ensures (exists e | e in found :: MayBe(e, o)) ==> TakesIdFrom(found, o, TryToSetOrderId(found, o))
    ensures !(exists e | e in found :: MayBe(e, o)) ==> TryToSetOrderId(found, o) == o
    ensures TryToSetOrderId(found, o).createTime >= o.createTime
    decreases |found|
  {
    if found != [] {
      var n := |found| - 1;
      var before, e := TryToSetOrderId(found[..n], o), found[n];
      assert found == found[..n] + [e];
      assert e in found;
      IdIsSetIff(found[..n], o);
      IdFromPrefix(found, o, before);
      if forall x | x in found[..n] :: !MayBe(x, o) {
        assert before == o;
        if MayBe(e, o) {
          assert TryToSetOrderId(found, o) == o.(orderId := Some(e.orderId), createTime := e.createTime);
        }
      }
    }
  }

  lemma IdFromPrefix(found: seq<ExchangeOrder>, o: Order, r: Order)
    requires found != []
    ensures TakesIdFrom(found[..|found| - 1], o, r) ==> TakesIdFrom(found, o, r)
  {
  }

  /** The report is of this order: its id, kind, exchange and pair. */
  predicate Concerns(e: ExchangeOrder, o: Order) {
    o.orderId == Some(e.orderId) && e.tradeType == o.tradeType && e.exchange == o.exchange && e.pair == o.pair
  }

  /** The first report of an order settles its volumes; without one they stay. */
  lemma {:induction false} TheFirstReportDecides(open: seq<ExchangeOrder>, o: Order, i: nat)
    requires i <= |open| && (forall k | 0 <= k < i :: !Concerns(open[k], o)) && (i < |open| ==> Concerns(open[i], o))
    ensures var r := ExecutedVolumeUpdated(open, o);
      if i == |open| then r == o
      else
        && r == o.(volume := r.volume, executedVolume := r.executedVolume)
        && (o.exchange != Poloniex ==>
             r.volume == o.volume - open[i].executedVolume && r.executedVolume == Some(open[i].executedVolume))
        && (o.exchange == Poloniex ==>
             r.volume == open[i].volume && r.executedVolume == Some(o.volume - open[i].volume))
  {
    if i > 0 {
      TheFirstReportDecides(open[1..], o, i - 1);
    }
  }

  /** A report of the order's pair, side and price, whatever its time. */
  predicate IsLike(e: ExchangeOrder, o: Order) {
    e.pair == o.pair && e.tradeType == o.tradeType && e.price == o.price
  }

  /** A later report in the list is of an order created later, but less than the window later. */
  predicate DrawsOn(found: seq<ExchangeOrder>, o: Order, i: nat, j: nat) {
    && i < j < |found| && IsLike(found[i], o) && IsLike(found[j], o)
    && 0 < found[j].createTime - found[i].createTime < MATCH_WINDOW
  }

  predicate NothingDrawsOn(found: seq<ExchangeOrder>, o: Order) {
    forall i, j | 0 <= i < j < |found| :: !DrawsOn(found, o, i, j)
  }

  /** The time the order has after the first `n` reports, if it was created at `t`. */
  function TimeAfter(found: seq<ExchangeOrder>, o: Order, t: int, n: nat): int
    requires n <= |found|
  {
    TryToSetOrderId(found[..n], o.(createTime := t)).createTime
  }

  lemma OneMoreReport(found: seq<ExchangeOrder>, o: Order, t: int, n: nat)
    requires n < |found|
    ensures
      var before, e := TimeAfter(found, o, t, n), found[n];
      TimeAfter(found, o, t, n + 1) ==
        if IsLike(e, o) && 0 <= e.createTime - before < MATCH_WINDOW then e.createTime else before
  {
    assert found[..n + 1][..n] == found[..n];
    StaysLike(found[..n], o.(createTime := t));
  }

  lemma {:induction false} StaysLike(found: seq<ExchangeOrder>, o: Order)
    ensures forall e :: IsLike(e, TryToSetOrderId(found, o)) <==> IsLike(e, o)
    decreases |found|
  {
    if found != [] {
      StaysLike(found[..|found| - 1], o);
    }
  }

  lemma {:induction false} TimeOnlyGrows(found: seq<ExchangeOrder>, o: Order, t: int, m: nat, n: nat)
    requires m <= n <= |found|
    ensures TimeAfter(found, o, t, m) <= TimeAfter(found, o, t, n)
    decreases n
  {
    if m < n {
      TimeOnlyGrows(found, o, t, m, n - 1);
      OneMoreReport(found, o, t, n - 1);
    }
  }

  /** The time is the order's own, or that of a report inside of its window. */
  predicate InTheWindow(found: seq<ExchangeOrder>, o: Order, t: int, n: nat)
    requires n <= |found|
  {
    var r := TimeAfter(found, o, t, n);
    r == t || exists i | 0 <= i < n :: IsLike(found[i], o) && r == found[i].createTime && 0 <= r - t < MATCH_WINDOW
  }

  lemma {:induction false} StaysInTheWindow(found: seq<ExchangeOrder>, o: Order, t: int, n: nat)
    requires n <= |found| && NothingDrawsOn(found, o)
    ensures InTheWindow(found, o, t, n)
    decreases n
  {
    if n > 0 {
      StaysInTheWindow(found, o, t, n - 1);
      OneMoreReport(found, o, t, n - 1);
      var before, e := TimeAfter(found, o, t, n - 1), found[n - 1];
      if IsLike(e, o) && 0 <= e.createTime - before < MATCH_WINDOW && before != t {
        var i :| 0 <= i < n - 1 && IsLike(found[i], o) && before == found[i].createTime;
        assert !DrawsOn(found, o, i, n - 1);
      }
    } else {
      assert found[..0] == [];
    }
  }

  /** Created a whole window before the later of two such reports, the order takes that report's time or
      an even later one. */
  lemma DrawnOutOfTheWindow(found: seq<ExchangeOrder>, o: Order, i: nat, j: nat)
    requires DrawsOn(found, o, i, j)
    ensures
      var t := found[j].createTime - MATCH_WINDOW;
      TryToSetOrderId(found, o.(createTime := t)).createTime - t >= MATCH_WINDOW
  {
    var t := found[j].createTime - MATCH_WINDOW;
    TimeOnlyGrows(found, o, t, 0, i);
    assert found[..0] == [];
    OneMoreReport(found, o, t, i);
    TimeOnlyGrows(found, o, t, i + 1, j);
    OneMoreReport(found, o, t, j);
    TimeOnlyGrows(found, o, t, j + 1, |found|);
    assert found[..|found|] == found;
  }

  /**
   * Each match moves the time it is compared with. Whenever the order was created, it takes its id from
   * an order created less than 15 seconds later, exactly when no two reports of its pair, side and price
   * come in the list oldest first with less than 15 seconds between them.
   */
  lemma MatchesStayInTheWindowIff(found: seq<ExchangeOrder>, o: Order)
    ensures (forall t: int :: TryToSetOrderId(found, o.(createTime := t)).createTime - t < MATCH_WINDOW) <==>
      NothingDrawsOn(found, o)
  {
    if NothingDrawsOn(found, o) {
      forall t: int ensures TryToSetOrderId(found, o.(createTime := t)).createTime - t < MATCH_WINDOW {
        StaysInTheWindow(found, o, t, |found|);
        assert found[..|found|] == found;
      }
    } else {
      var i, j :| 0 <= i < j < |found| && DrawsOn(found, o, i, j);
      DrawnOutOfTheWindow(found, o, i, j);
    }
  }

  /** `n` reports like `o`, the k-th of an order created 14 * (k + 1) seconds after it. */
  function Drifting(o: Order, n: nat): seq<ExchangeOrder> {
    seq(n, k => ExchangeOrder(o.tradeType, o.exchange, o.pair, o.price, o.volume, 0.0, "late",
      o.createTime + 14 * (k + 1)))
  }

  /** On such a list the order is taken for one created any number of windows later. */
  lemma {:induction false} MatchesDrift(o: Order, n: nat)
    ensures var r := TryToSetOrderId(Drifting(o, n), o);
      r.createTime == o.createTime + 14 * n && (n > 0 ==> r.orderId == Some("late"))
    ensures n >= 2 ==> DrawsOn(Drifting(o, n), o, 0, 1)
  {
    if n > 0 {
      MatchesDrift(o, n - 1);
      assert Drifting(o, n)[..n - 1] == Drifting(o, n - 1);
      StaysLike(Drifting(o, n - 1), o);
    }
  }

  lemma {:induction false} AnIdStays(found: seq<ExchangeOrder>, o: Order)
    requires o.orderId.Some?
    ensures TryToSetOrderId(found, o).orderId.Some?
    decreases |found|
  {
    if found != [] {
      AnIdStays(found[..|found| - 1], o);
    }
  }

  /**
   * A refused replacement of an expired order keeps the id of the cancelled order, so the failed
   * service takes it for an open order: whatever the exchange answers, it is watched, never placed.
   */
  lemma RefusedReplacementsAreNeverPlaced(o: Order, a: ExpiredAnswers, b: FailedAnswers)
    requires Priced(o.pair) && o.orderId.Some?
    requires ProcessExpiredOrder(o, a, true).Refailed?
    ensures ProcessFailedOrder(ProcessExpiredOrder(o, a, true).order, b, true).Rewatched?
  {
    UpdatedKeepsTheId(a.open.value, o);
    AnIdStays(b.open, ProcessExpiredOrder(o, a, true).order);
  }

  lemma {:induction false} UpdatedKeepsTheId(open: seq<ExchangeOrder>, o: Order)
    ensures ExecutedVolumeUpdated(open, o).orderId == o.orderId
  {
    if open != [] {
      UpdatedKeepsTheId(open[1..], o);
    }
  }
}
