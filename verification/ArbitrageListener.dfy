/**
 * `class ArbitrageListener` of services/arbitrage_between_pair_subscription.py, one method at a
 * time and without interference; ListenerSteps interleaves the same code.
 */
module ArbitrageListener {
  import opened BookUpdates
  import opened Exchanges
  import opened Wrappers
  import opened LocalOrderBook
  import opened ListenerSteps

  class ArbitrageListener {
    const sellExchange: Exchange
    const buyExchange: Exchange

    var stage: Stage
    var sellRunning: bool
    var buyRunning: bool
    var orderBookSell: OrderBook?
    var orderBookBuy: OrderBook?
    var sellOrderBookSynced: bool
    var buyOrderBookSynced: bool
    var sellExchangeUpdates: seq<Message>
    var buyExchangeUpdates: seq<Message>

    constructor (sellExchange: Exchange, buyExchange: Exchange)
      ensures this.sellExchange == sellExchange && this.buyExchange == buyExchange
      ensures stage == Unknown && orderBookSell == null && orderBookBuy == null
      ensures !sellOrderBookSynced && !buyOrderBookSynced && sellExchangeUpdates == [] && buyExchangeUpdates == []
    {
      this.sellExchange, this.buyExchange := sellExchange, buyExchange;
      stage, sellRunning, buyRunning := Unknown, false, false;
      orderBookSell, orderBookBuy := null, null;
      sellOrderBookSynced, buyOrderBookSynced := false, false;
      sellExchangeUpdates, buyExchangeUpdates := [], [];
    }

    function BookAt(v: Venue): OrderBook?
      reads this
    {
      if v == Sell then orderBookSell else orderBookBuy
    }

    function SyncedAt(v: Venue): bool
      reads this
    {
      if v == Sell then sellOrderBookSynced else buyOrderBookSynced
    }

    function QueueAt(v: Venue): seq<Message>
      reads this
    {
      if v == Sell then sellExchangeUpdates else buyExchangeUpdates
    }

    /** What the threads of `v` see. */
    function DeskAt(v: Venue): Desk
      reads this, BookAt(v)
    {
      Desk(stage, sellRunning, buyRunning, SyncedAt(v),
        if BookAt(v) == null then None else Some(BookAt(v).Value()), QueueAt(v))
    }

    function ExchangeAt(v: Venue): Exchange { if v == Sell then sellExchange else buyExchange }

    method SetQueue(v: Venue, queue: seq<Message>)
      modifies this`sellExchangeUpdates, this`buyExchangeUpdates
      ensures QueueAt(v) == queue
      ensures QueueAt(Other(v)) == old(QueueAt(Other(v)))
    {
      if v == Sell { sellExchangeUpdates := queue; } else { buyExchangeUpdates := queue; }
    }

    method ShutdownSubscriptions()
      modifies this`sellRunning, this`buyRunning
      ensures !sellRunning && !buyRunning
    {
      sellRunning := false;
      buyRunning := false;
    }

    /** The drain loop. A stopped subscription makes it fail before anything is taken; otherwise the
        outcome, the book and what is left of the queue are those of `Drain`. */
    method UpdateFromQueue(v: Venue, book: OrderBook) returns (status: Outcome)
      modifies this`sellExchangeUpdates, this`buyExchangeUpdates, book
      ensures QueueAt(Other(v)) == old(QueueAt(Other(v)))
      ensures !(sellRunning && buyRunning) ==>
        status == Failure && book.Value() == old(book.Value()) && QueueAt(v) == old(QueueAt(v))
      ensures sellRunning && buyRunning ==>
        var (outcome, after, rest) := Drain(ExchangeAt(v), old(book.Value()), old(QueueAt(v)));
        status == outcome && (outcome != Dead ==> book.Value() == after && QueueAt(v) == rest)
    {
      while true
        invariant QueueAt(Other(v)) == old(QueueAt(Other(v)))
        invariant !(sellRunning && buyRunning) ==> book.Value() == old(book.Value()) && QueueAt(v) == old(QueueAt(v))
        invariant sellRunning && buyRunning ==>
          Drain(ExchangeAt(v), book.Value(), QueueAt(v)) == Drain(ExchangeAt(v), old(book.Value()), old(QueueAt(v)))
        decreases |QueueAt(v)|
      {
        if !buyRunning || !sellRunning {
          return Failure;
        }
        var queue := QueueAt(v);
        if queue == [] {
          return Success;
        }
        SetQueue(v, queue[1..]);
        status := book.Update(ExchangeAt(v), queue[0]);
        if status != Success {
          return;
        }
      }
    }

    method MarkSynced(v: Venue, synced: bool)
      modifies this`sellOrderBookSynced, this`buyOrderBookSynced
      ensures SyncedAt(v) == synced
      ensures SyncedAt(Other(v)) == old(SyncedAt(Other(v)))
    {
      if v == Sell { sellOrderBookSynced := synced; } else { buyOrderBookSynced := synced; }
    }

    method SetBook(v: Venue, book: OrderBook?)
      modifies this`orderBookSell, this`orderBookBuy
      ensures BookAt(v) == book && BookAt(Other(v)) == old(BookAt(Other(v)))
    {
      if v == Sell { orderBookSell := book; } else { orderBookBuy := book; }
    }

    /** A new book from a snapshot, sorted. */
    method Install(v: Venue, m: Message) returns (book: OrderBook)
      requires m.Snapshot?
      modifies this`orderBookSell, this`orderBookBuy
      ensures fresh(book) && BookAt(v) == book && book.Value() == Installed(m)
      ensures BookAt(Other(v)) == old(BookAt(Other(v)))
    {
      book := new OrderBook(m.snapshotAsk, m.snapshotBid, Some(m.snapshotId));
      SetBook(v, book);
      book.SortBothSides();
    }

    /** `sync_sell_order_book` and `sync_buy_order_book`: `answer` is what `get_order_book` returns. The
        venue ends as `AfterSyncing` says, and a snapshot goes into a new book. */
    method SyncOrderBook(v: Venue, answer: Option<Message>) returns (status: Outcome)
      requires answer.Some? ==> answer.value.Snapshot?
      modifies this
      ensures
        var (outcome, d) := AfterSyncing(ExchangeAt(v), old(DeskAt(v)), answer);
        status == outcome && (outcome != Dead ==> DeskAt(v) == d)
      ensures stage == old(stage) && sellRunning == old(sellRunning) && buyRunning == old(buyRunning)
      ensures var w := Other(v);
        SyncedAt(w) == old(SyncedAt(w)) && BookAt(w) == old(BookAt(w)) && QueueAt(w) == old(QueueAt(w))
      ensures ExchangeAt(v) in {Binance, Bittrex} && answer.Some? ==> BookAt(v) != null && fresh(BookAt(v))
      ensures ExchangeAt(v) !in {Binance, Bittrex} ==> BookAt(v) == old(BookAt(v))
    {
      status := Success;
      if ExchangeAt(v) in {Binance, Bittrex} {
        if answer.None? {
          SetBook(v, null);
          return;
        }
        var book := Install(v, answer.value);
        status := UpdateFromQueue(v, book);
        if status == Failure {
          MarkSynced(v, false);
          return;
        }
        if status != Success {
          return;
        }
      }
      MarkSynced(v, true);
    }

    /** The update branch of the callback: FAILURE shuts both subscriptions down. */
    method UpdateBook(v: Venue, m: Message) returns (status: Outcome)
      modifies this`sellRunning, this`buyRunning, BookAt(v)
      ensures BookAt(v) == null ==> status == Raised && sellRunning == old(sellRunning) && buyRunning == old(buyRunning)
      ensures BookAt(v) != null ==>
        var (outcome, after) := AfterUpdate(ExchangeAt(v), old(BookAt(v).Value()), m);
        && status == outcome && (outcome != Dead ==> BookAt(v).Value() == after)
        && sellRunning == (old(sellRunning) && outcome != Failure)
        && buyRunning == (old(buyRunning) && outcome != Failure)
    {
      var book := BookAt(v);
      if book == null {
        return Raised;
      }
      status := book.Update(ExchangeAt(v), m);
      if status == Failure {
        ShutdownSubscriptions();
      }
    }

    /** Messages are routed by exchange id alone. */
    function Routed(exchange: Exchange): Venue { if exchange == buyExchange then Buy else Sell }

    /** What a callback does when nobody interferes: with a stopped subscription it stops both and
        drops the message; before the book is synced it buffers the message; otherwise it updates
        the book; while resetting it does nothing. */
    method OnOrderBookUpdate(exchange: Exchange, m: Message) returns (status: Outcome)
      modifies this`sellRunning, this`buyRunning, this`sellExchangeUpdates, this`buyExchangeUpdates,
        orderBookSell, orderBookBuy
      ensures
        var (outcome, d) := AfterCallback(ExchangeAt(Routed(exchange)), old(DeskAt(Routed(exchange))), m);
        status == outcome && (outcome != Dead ==> DeskAt(Routed(exchange)) == d)
      ensures
        var v := Routed(exchange);
        var up := old(sellRunning && buyRunning);
        var updating := up && (stage == AfterSync || (stage == BeforeSync && SyncedAt(v)));
        && (!up ==> !sellRunning && !buyRunning)
        && QueueAt(v) == (if up && stage == BeforeSync && !SyncedAt(v) then old(QueueAt(v)) + [m] else old(QueueAt(v)))
        && (QueueAt(Other(v)) == old(QueueAt(Other(v))))
        && (updating && BookAt(v) != null ==>
              var (outcome, after) := AfterUpdate(ExchangeAt(v), old(BookAt(v).Value()), m);
              status == outcome && (outcome != Dead ==> BookAt(v).Value() == after)
              && sellRunning == buyRunning == (outcome != Failure))
        && (!updating ==> status == Success)
        && (!updating ==> forall w | BookAt(w) != null :: BookAt(w).Value() == old(BookAt(w).Value()))
    {
      status := Success;
      var v, currentStage := Routed(exchange), stage;
      if !buyRunning || !sellRunning {
        ShutdownSubscriptions();
        return;
      }
      if currentStage == BeforeSync {
        if SyncedAt(v) {
          status := UpdateBook(v, m);
        } else {
          SetQueue(v, QueueAt(v) + [m]);
        }
      } else if currentStage == AfterSync {
        status := UpdateBook(v, m);
      }
    }
  }

  /** Draining an honest queue into an agreeing book: the book still agrees, the process survives,
      and on success nothing is left behind. */
  lemma {:induction false} DrainKeepsAgreement(truth: Truth, exchange: Exchange, book: Book, queue: seq<Message>)
    requires Agrees(truth, book)
    requires forall i | 0 <= i < |queue| :: Honest(truth, exchange, queue[i])
    ensures
      var (outcome, after, rest) := Drain(exchange, book, queue);
      Agrees(truth, after) && outcome != Dead && (outcome == Success ==> rest == [])
    decreases |queue|
  {
    if queue != [] {
      UpdateKeepsAgreement(truth, exchange, book, queue[0]);
      var (outcome, after) := AfterUpdate(exchange, book, queue[0]);
      if outcome == Success {
        DrainKeepsAgreement(truth, exchange, after, queue[1..]);
      }
    }
  }
}
