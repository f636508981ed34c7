/**
 * The synchronisation protocol of services/arbitrage_between_pair_subscription.py as a step
 * system: the main thread, two sync threads, the receive loops of the subscriptions and the
 * callbacks they run, interleaved at every access to the shared stage, flags, queues and order books.
 *
 * A step is one shared access, with these groupings: reading and writing the id at the gate of
 * an update is one step, as are sorting a fresh snapshot, installing a full book, the main thread's
 * look at both flags after it has joined both sync threads, and its finding both subscriptions down
 * with the start of the reset. The safety theorems say when no other thread touches the same book
 * in between.
 */
module ListenerSteps {
  import opened OrderBooks
  import opened BookUpdates
  import opened Exchanges
  import opened Wrappers

  /** The exchange the bot sells at and the exchange it buys at. */
  datatype Venue = Sell | Buy

  function Other(v: Venue): Venue { if v == Sell then Buy else Sell }

  datatype Stage = Unknown | BeforeSync | AfterSync | Resetting

  /** An OrderBook object on the heap, created for one of the two listener fields. */
  datatype BookObject = BookObject(venue: Venue, book: Book)

  /** Where a sync thread stands (`sync_sell_order_book`, `sync_buy_order_book`). */
  datatype SyncThread =
    | Finished
    | Starting
    | Fetching
    | Sorting(id: nat)
    | CheckingBuy(id: nat)
    | CheckingSell(id: nat)
    | Dequeuing(id: nat)
    | Applying(id: nat, m: Message)
    | Editing(id: nat, edits: seq<LevelEdit>)
    | Marking(synced: bool)

  /** Where a callback stands (`on_order_book_update`). */
  datatype CallbackPc =
    | ReadingStage
    | CheckingBuySubscription(stage: Stage)
    | CheckingSellSubscription(stage: Stage)
    | ReadingFlag
    | Putting
    | Calling
    | Entering(id: nat)
    | Changing(id: nat, edits: seq<LevelEdit>)
    | StoppingSell
    | StoppingBuy
    | Returned

  /** A message on its way through `on_order_book_update`, run by the receiver that got it. */
  datatype Callback = Callback(receiver: nat, venue: Venue, m: Message, pc: CallbackPc)

  /** Where a receive loop stands (`subscribe`). It runs its callbacks itself, one after the other, and
      is not joined by anybody: when its subscription is stopped it goes on until it looks. */
  datatype ReceiverPc =
    | Spawned
    | Checking
    | InRecv
    | Handling(callback: nat)
    | Leaving
    | Ended

  datatype Receiver = Receiver(venue: Venue, pc: ReceiverPc)

  /** The main thread's next action (`start`, `reset_arbitrage_state`, `_init_arbitrage_state`,
      `subscribe_to_order_book_update`, `sync_order_books`, and `shutdown_subscriptions` when the books
      were not synced). In `Live` it starts a reset once both subscriptions are down. */
  datatype Main =
    | Live
    | ClearSellQueue | ClearBuyQueue
    | NewSellBook | NewBuyBook
    | UnsyncSell | UnsyncBuy
    | SetBeforeSync
    | SpawnReceivers
    | SpawnSyncThreads
    | JoinSyncThreads
    | LookAtFlags
    | SetAfterSync
    | ShutSell | ShutBuy

  /** The fields of the listener that exist once per venue. `current` is None while the field
      `order_book_sell` or `order_book_buy` holds None. */
  datatype Half = Half(
    exchange: Exchange, running: bool, synced: bool, current: Option<nat>, queue: seq<Message>, sync: SyncThread)

  datatype State = State(
    main: Main, stage: Stage, sell: Half, buy: Half, heap: seq<BookObject>, callbacks: map<nat, Callback>,
    receivers: seq<Receiver>)
  {
    function At(v: Venue): Half { if v == Sell then sell else buy }

    function Put(v: Venue, h: Half): State {
      if v == Sell then this.(sell := h) else this.(buy := h)
    }
  }

  function Initial(sellExchange: Exchange, buyExchange: Exchange): State {
    var half := (exchange: Exchange) => Half(exchange, false, false, None, [], Finished);
    State(Live, Unknown, half(sellExchange), half(buyExchange), [], map[], [])
  }

  /** Updates are routed by exchange id alone. */
  function Route(s: State, exchange: Exchange): Venue {
    if exchange == s.buy.exchange then Buy else Sell
  }

  datatype Step =
    | MainStep
    | StopSubscription(venue: Venue)
    | ReceiverStep(receiver: nat)
    | Break(receiver: nat)
    | Deliver(receiver: nat, callback: nat, m: Message)
    | SyncStep(venue: Venue, answer: Option<Message>)
    | CallbackStep(callback: nat)

  // -------------------------------------------------------------- starting an update

  /** `update` up to its first level edit: over at once, or past the gate with edits to come. */
  datatype Begun = Over(outcome: Outcome, book: Book) | Entered(book: Book, edits: seq<LevelEdit>)

  function Begin(exchange: Exchange, book: Book, m: Message): Begun {
    if m.Delta? && exchange in {Poloniex, Bittrex, Binance}
       && GateOf(book.sequenceId, m.update.sequenceId) == Next
    then Entered(book.(sequenceId := Some(LastId(exchange, m.update))), EditsOf(exchange, m.update))
    else
      var (outcome, after) := AfterUpdate(exchange, book, m);
      Over(outcome, after)
  }

  function SetBook(heap: seq<BookObject>, id: nat, book: Book): seq<BookObject>
    requires id < |heap|
  {
    heap[id := heap[id].(book := book)]
  }

  // ---------------------------------------------------------------------- main thread

  function AfterMain(s: State): State {
    match s.main
    case Live => s.(main := ClearSellQueue, stage := Resetting)
    case ClearSellQueue => s.(main := ClearBuyQueue, sell := s.sell.(queue := []))
    case ClearBuyQueue => s.(main := NewSellBook, buy := s.buy.(queue := []))
    case NewSellBook =>
      s.(main := NewBuyBook, heap := s.heap + [BookObject(Sell, EMPTY_BOOK)],
        sell := s.sell.(current := Some(|s.heap|)))
    case NewBuyBook =>
      s.(main := UnsyncSell, heap := s.heap + [BookObject(Buy, EMPTY_BOOK)], buy := s.buy.(current := Some(|s.heap|)))
    case UnsyncSell => s.(main := UnsyncBuy, sell := s.sell.(synced := false))
    case UnsyncBuy => s.(main := SetBeforeSync, buy := s.buy.(synced := false))
    case SetBeforeSync => s.(main := SpawnReceivers, stage := BeforeSync)
    case SpawnReceivers =>
      s.(main := SpawnSyncThreads, receivers := s.receivers + [Receiver(Buy, Spawned)] + [Receiver(Sell, Spawned)])
    case SpawnSyncThreads =>
      s.(main := JoinSyncThreads, sell := s.sell.(sync := Starting), buy := s.buy.(sync := Starting))
    case JoinSyncThreads => s.(main := LookAtFlags)
    case LookAtFlags => s.(main := if s.sell.synced && s.buy.synced then SetAfterSync else ShutSell)
    case SetAfterSync => s.(main := Live, stage := AfterSync)
    case ShutSell => s.(main := ShutBuy, sell := s.sell.(running := false))
    case ShutBuy => s.(main := Live, buy := s.buy.(running := false))
  }

  // --------------------------------------------------------------------- sync threads

  function BookOf(t: SyncThread): Option<nat> {
    match t
    case Finished => None
    case Starting => None
    case Fetching => None
    case Marking(_) => None
    case _ => Some(t.id)
  }

  predicate SyncEnabled(s: State, v: Venue, answer: Option<Message>) {
    var t := s.At(v).sync;
    && t != Finished
    && (BookOf(t).Some? ==> BookOf(t).value < |s.heap|)
    && (t == Fetching && answer.Some? ==> answer.value.Snapshot?)
    && (t.Editing? && t.edits != [] ==> ApplyEdit(s.heap[t.id].book, t.edits[0]).Some?)
  }

  function AfterSyncStep(s: State, v: Venue, answer: Option<Message>): State
    requires SyncEnabled(s, v, answer)
  {
    var h := s.At(v);
    match h.sync
    case Starting => s.Put(v, h.(sync := if h.exchange in {Binance, Bittrex} then Fetching else Marking(true)))
    case Fetching =>
      (match answer
       case None => s.Put(v, h.(current := None, sync := Finished))
       case Some(m) =>
         s.(heap := s.heap + [BookObject(v, Book(m.snapshotAsk, m.snapshotBid, Some(m.snapshotId)))])
          .Put(v, h.(current := Some(|s.heap|), sync := Sorting(|s.heap|))))
    case Sorting(id) =>
      var b := s.heap[id].book;
      s.(heap := SetBook(s.heap, id, b.(ask := SortByPrice(Ask, b.ask), bid := SortByPrice(Bid, b.bid))))
       .Put(v, h.(sync := CheckingBuy(id)))
    case CheckingBuy(id) => s.Put(v, h.(sync := if s.buy.running then CheckingSell(id) else Marking(false)))
    case CheckingSell(id) => s.Put(v, h.(sync := if s.sell.running then Dequeuing(id) else Marking(false)))
    case Dequeuing(id) =>
      if h.queue == [] then s.Put(v, h.(sync := Marking(true)))
      else s.Put(v, h.(sync := Applying(id, h.queue[0]), queue := h.queue[1..]))
    case Applying(id, m) =>
      (match Begin(h.exchange, s.heap[id].book, m)
       case Entered(book, edits) => s.(heap := SetBook(s.heap, id, book)).Put(v, h.(sync := Editing(id, edits)))
       case Over(outcome, book) =>
         s.(heap := SetBook(s.heap, id, book))
          .Put(v, h.(sync := match outcome
                             case Success => CheckingBuy(id)
                             case Failure => Marking(false)
                             case _ => Finished)))
    case Editing(id, edits) =>
      if edits == [] then s.Put(v, h.(sync := CheckingBuy(id)))
      else
        s.(heap := SetBook(s.heap, id, ApplyEdit(s.heap[id].book, edits[0]).value))
        .Put(v, h.(sync := Editing(id, edits[1..])))
    case Marking(flag) => s.Put(v, h.(synced := flag, sync := Finished))
  }

  /** `update_from_queue` while both subscriptions run and nobody interferes: updates are taken
      from the front until the queue is empty or one does not succeed. */
  function Drain(exchange: Exchange, book: Book, queue: seq<Message>): (Outcome, Book, seq<Message>)
    decreases |queue|
  {
    if queue == [] then (Success, book, [])
    else
      var (outcome, after) := AfterUpdate(exchange, book, queue[0]);
      if outcome == Success then Drain(exchange, after, queue[1..]) else (outcome, after, queue[1..])
  }

  // ---------------------------------------------------- one thread at a time, undisturbed

  /** What the threads of one venue see of the listener. */
  datatype Desk = Desk(
    stage: Stage, sellRunning: bool, buyRunning: bool, synced: bool, book: Option<Book>, queue: seq<Message>)
  {
    predicate Up() { sellRunning && buyRunning }
  }

  /** A whole callback. With a stopped subscription it stops both and drops the message; before the book
      is synced it buffers the message; otherwise it updates the book, and FAILURE stops both
      subscriptions; while resetting it does nothing. */
  function AfterCallback(exchange: Exchange, d: Desk, m: Message): (Outcome, Desk) {
    if !d.Up() then (Success, d.(sellRunning := false, buyRunning := false))
    else if d.stage == BeforeSync && !d.synced then (Success, d.(queue := d.queue + [m]))
    else if d.stage != BeforeSync && d.stage != AfterSync then (Success, d)
    else
      match d.book
      case None => (Raised, d)
      case Some(book) =>
        var (outcome, after) := AfterUpdate(exchange, book, m);
        (outcome, d.(book := Some(after), sellRunning := outcome != Failure, buyRunning := outcome != Failure))
  }

  /** A whole sync thread, with what `get_order_book` answers. */
  function AfterSyncing(exchange: Exchange, d: Desk, answer: Option<Message>): (Outcome, Desk)
    requires answer.Some? ==> answer.value.Snapshot?
  {
    if exchange !in {Binance, Bittrex} then (Success, d.(synced := true))
    else
      match answer
      case None => (Success, d.(book := None))
      case Some(m) =>
        if !d.Up() then (Failure, d.(book := Some(Installed(m)), synced := false))
        else
          var (outcome, after, rest) := Drain(exchange, Installed(m), d.queue);
          var synced := match outcome case Success => true case Failure => false case _ => d.synced;
          (outcome, d.(book := Some(after), queue := rest, synced := synced))
  }

  // -------------------------------------------------------------------- receive loops

  /** The receiver is not inside a callback. */
  predicate IsFree(s: State, r: nat)
    requires r < |s.receivers|
  {
    var pc := s.receivers[r].pc;
    pc.Handling? ==> pc.callback in s.callbacks && s.callbacks[pc.callback].pc == Returned
  }

  /** A receiver that finds its subscription running when it starts ends the process. */
  predicate ReceiverEnabled(s: State, r: nat) {
    && r < |s.receivers| && IsFree(s, r)
    && var rcv := s.receivers[r];
    && rcv.pc != InRecv && rcv.pc != Ended
    && (rcv.pc == Spawned ==> !s.At(rcv.venue).running)
  }

  function WithReceiver(s: State, r: nat, pc: ReceiverPc): State
    requires r < |s.receivers|
  {
    s.(receivers := s.receivers[r := s.receivers[r].(pc := pc)])
  }

  function Switched(s: State, v: Venue, running: bool): State { s.Put(v, s.At(v).(running := running)) }

  function AfterReceiverStep(s: State, r: nat): State
    requires ReceiverEnabled(s, r)
  {
    var rcv := s.receivers[r];
    match rcv.pc
    case Spawned => WithReceiver(Switched(s, rcv.venue, true), r, Checking)
    case Checking => WithReceiver(s, r, if s.At(rcv.venue).running then InRecv else Leaving)
    case Handling(_) => WithReceiver(s, r, Checking)
    case Leaving => WithReceiver(Switched(s, rcv.venue, false), r, Ended)
    case _ => s
  }

  /** Connecting, receiving or a callback has raised, or a heartbeat is missing. */
  predicate MayBreak(s: State, r: nat) {
    r < |s.receivers| && IsFree(s, r) && (s.receivers[r].pc in {Checking, InRecv} || s.receivers[r].pc.Handling?)
  }

  // ------------------------------------------------------------------------ callbacks

  function WithPc(s: State, k: nat, pc: CallbackPc): State
    requires k in s.callbacks
  {
    s.(callbacks := s.callbacks[k := s.callbacks[k].(pc := pc)])
  }

  predicate CallbackEnabled(s: State, k: nat) {
    && k in s.callbacks
    && var c := s.callbacks[k];
    && c.pc != Returned
    && (c.pc.Entering? || c.pc.Changing? ==> c.pc.id < |s.heap|)
    && (c.pc.Changing? && c.pc.edits != [] ==> ApplyEdit(s.heap[c.pc.id].book, c.pc.edits[0]).Some?)
  }

  function AfterCallbackStep(s: State, k: nat): State
    requires CallbackEnabled(s, k)
  {
    var c := s.callbacks[k];
    var h := s.At(c.venue);
    match c.pc
    case ReadingStage => WithPc(s, k, CheckingBuySubscription(s.stage))
    case CheckingBuySubscription(stage) =>
      WithPc(s, k, if s.buy.running then CheckingSellSubscription(stage) else StoppingSell)
    case CheckingSellSubscription(stage) =>
      WithPc(s, k,
        if !s.sell.running then StoppingSell
        else match stage
          case BeforeSync => ReadingFlag
          case AfterSync => Calling
          case _ => Returned)
    case ReadingFlag => WithPc(s, k, if h.synced then Calling else Putting)
    case Putting => WithPc(s.Put(c.venue, h.(queue := h.queue + [c.m])), k, Returned)
    case Calling =>
      // None has no attribute `update`: an exception
      WithPc(s, k, if h.current.None? then Returned else Entering(h.current.value))
    case Entering(id) =>
      (match Begin(h.exchange, s.heap[id].book, c.m)
       case Entered(book, edits) => WithPc(s.(heap := SetBook(s.heap, id, book)), k, Changing(id, edits))
       case Over(outcome, book) =>
         WithPc(s.(heap := SetBook(s.heap, id, book)), k, if outcome == Failure then StoppingSell else Returned))
    case Changing(id, edits) =>
      if edits == [] then WithPc(s, k, Returned)
      else
        WithPc(s.(heap := SetBook(s.heap, id, ApplyEdit(s.heap[id].book, edits[0]).value)), k,
          Changing(id, edits[1..]))
    case StoppingSell => WithPc(s.(sell := s.sell.(running := false)), k, StoppingBuy)
    case StoppingBuy => WithPc(s.(buy := s.buy.(running := false)), k, Returned)
    case Returned => s
  }

  // ------------------------------------------------------------------------------ runs

  predicate Enabled(s: State, step: Step) {
    match step
    case MainStep =>
      && (s.main == Live ==> !s.sell.running && !s.buy.running)
      && (s.main == JoinSyncThreads ==> s.sell.sync == Finished && s.buy.sync == Finished)
    case StopSubscription(_) => true
    case ReceiverStep(r) => ReceiverEnabled(s, r)
    case Break(r) => MayBreak(s, r)
    case Deliver(r, k, _) => r < |s.receivers| && s.receivers[r].pc == InRecv && k !in s.callbacks
    case SyncStep(v, answer) => SyncEnabled(s, v, answer)
    case CallbackStep(k) => CallbackEnabled(s, k)
  }

  function After(s: State, step: Step): State
    requires Enabled(s, step)
  {
    match step
    case MainStep => AfterMain(s)
    case StopSubscription(v) => Switched(s, v, false)
    case ReceiverStep(r) => AfterReceiverStep(s, r)
    case Break(r) => WithReceiver(s, r, Leaving)
    case Deliver(r, k, m) =>
      var venue := Route(s, s.At(s.receivers[r].venue).exchange);
      WithReceiver(s, r, Handling(k)).(callbacks := s.callbacks[k := Callback(r, venue, m, ReadingStage)])
    case SyncStep(v, answer) => AfterSyncStep(s, v, answer)
    case CallbackStep(k) => AfterCallbackStep(s, k)
  }

  /** A run is a list of states, each following from the one before by one enabled step. */
  ghost predicate IsRun(states: seq<State>, steps: seq<Step>) {
    && |states| == |steps| + 1
    && (forall i | 0 <= i < |steps| :: Enabled(states[i], steps[i]) && states[i + 1] == After(states[i], steps[i]))
  }
}
