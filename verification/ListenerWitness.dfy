/**
 * Runs built by hand: a delta left stranded in the queue, and the two runs that show why a reset has to
 * wait for the receive loops.
 */
module ListenerWitness {
  import opened OrderBooks
  import opened BookUpdates
  import opened Exchanges
  import opened Wrappers
  import opened ListenerSteps
  import opened ListenerSafety
  import opened ListenerRuns
  import opened ListenerAlone

  // ---------------------------------------------------------- stretches of a session

  /** The main thread may start a reset. */
  ghost predicate CanReset(p: Patience, s: State) {
    s.main == Live && !s.sell.running && !s.buy.running && Waits(p, s, MainStep)
  }

  function Cleared(s: State): State {
    s.(main := NewSellBook, stage := Resetting, sell := s.sell.(queue := []), buy := s.buy.(queue := []))
  }

  lemma ClearingIsARun(p: Patience, truths: Truths, origin: State, s: State)
    requires Reaches(p, truths, origin, s) && CanReset(p, s)
    ensures Reaches(p, truths, origin, Cleared(s))
  {
    var s1 := AfterMain(s);
    Then(p, truths, origin, s, MainStep, s1);
    var s2 := AfterMain(s1);
    Then(p, truths, origin, s1, MainStep, s2);
    Then(p, truths, origin, s2, MainStep, Cleared(s));
  }

  /** Both books have been replaced. */
  function Renewed(s: State): State {
    Cleared(s).(main := UnsyncSell, sell := s.sell.(queue := [], current := Some(|s.heap|)),
      buy := s.buy.(queue := [], current := Some(|s.heap| + 1)),
      heap := s.heap + [BookObject(Sell, EMPTY_BOOK)] + [BookObject(Buy, EMPTY_BOOK)])
  }

  lemma RenewingIsARun(p: Patience, truths: Truths, origin: State, s: State)
    requires Reaches(p, truths, origin, s) && CanReset(p, s)
    ensures Reaches(p, truths, origin, Renewed(s))
  {
    ClearingIsARun(p, truths, origin, s);
    var s1 := AfterMain(Cleared(s));
    Then(p, truths, origin, Cleared(s), MainStep, s1);
    Then(p, truths, origin, s1, MainStep, Renewed(s));
  }

  /** And both marks have been taken off. */
  function Unsynced(s: State): State {
    var r := Renewed(s);
    r.(main := SetBeforeSync, sell := r.sell.(synced := false), buy := r.buy.(synced := false))
  }

  lemma UnsyncingIsARun(p: Patience, truths: Truths, origin: State, s: State)
    requires Reaches(p, truths, origin, s) && CanReset(p, s)
    ensures Reaches(p, truths, origin, Unsynced(s))
  {
    RenewingIsARun(p, truths, origin, s);
    var s1 := AfterMain(Renewed(s));
    Then(p, truths, origin, Renewed(s), MainStep, s1);
    Then(p, truths, origin, s1, MainStep, Unsynced(s));
  }

  /** The receive loops have been spawned, and the main thread waits for the sync threads. */
  function ResetDone(s: State): State {
    State(JoinSyncThreads, BeforeSync,
      s.sell.(synced := false, queue := [], current := Some(|s.heap|), sync := Starting),
      s.buy.(synced := false, queue := [], current := Some(|s.heap| + 1), sync := Starting),
      s.heap + [BookObject(Sell, EMPTY_BOOK)] + [BookObject(Buy, EMPTY_BOOK)],
      s.callbacks, s.receivers + [Receiver(Buy, Spawned)] + [Receiver(Sell, Spawned)])
  }

  lemma ResetIsARun(p: Patience, truths: Truths, origin: State, s: State)
    requires Reaches(p, truths, origin, s) && CanReset(p, s)
    ensures Reaches(p, truths, origin, ResetDone(s))
  {
    UnsyncingIsARun(p, truths, origin, s);
    var s1 := AfterMain(Unsynced(s));
    Then(p, truths, origin, Unsynced(s), MainStep, s1);
    var s2 := AfterMain(s1);
    Then(p, truths, origin, s1, MainStep, s2);
    Then(p, truths, origin, s2, MainStep, ResetDone(s));
  }

  /** The receive loop `r` has connected and waits for a message. */
  function Connected(s: State, r: nat): State
    requires r < |s.receivers|
  {
    WithReceiver(Switched(s, s.receivers[r].venue, true), r, InRecv)
  }

  lemma ConnectingIsARun(p: Patience, truths: Truths, origin: State, s: State, r: nat)
    requires Reaches(p, truths, origin, s) && r < |s.receivers| && s.receivers[r].pc == Spawned
    requires !s.At(s.receivers[r].venue).running
    ensures Reaches(p, truths, origin, Connected(s, r))
  {
    var s1 := AfterReceiverStep(s, r);
    Then(p, truths, origin, s, ReceiverStep(r), s1);
    assert s1.At(s1.receivers[r].venue).running;
    Then(p, truths, origin, s1, ReceiverStep(r), Connected(s, r));
  }

  /** The state after a whole reset, with both subscriptions running. */
  function Subscribed(s: State): State {
    var r := ResetDone(s);
    r.(sell := r.sell.(running := true), buy := r.buy.(running := true),
      receivers := s.receivers + [Receiver(Buy, InRecv)] + [Receiver(Sell, InRecv)])
  }

  lemma SubscribingIsARun(p: Patience, truths: Truths, origin: State, s: State)
    requires Reaches(p, truths, origin, s) && CanReset(p, s)
    ensures Reaches(p, truths, origin, Subscribed(s))
  {
    ResetIsARun(p, truths, origin, s);
    var s1 := ResetDone(s);
    ConnectingIsARun(p, truths, origin, s1, |s.receivers|);
    var s2 := Connected(s1, |s.receivers|);
    ConnectingIsARun(p, truths, origin, s2, |s.receivers| + 1);
    assert Connected(s2, |s.receivers| + 1) == Subscribed(s);
  }

  /** The sell side, whose exchange needs no snapshot, is marked synced at once. */
  function SellMarked(s: State): State { s.(sell := s.sell.(synced := true, sync := Finished)) }

  lemma MarkingTheSellSideIsARun(p: Patience, truths: Truths, origin: State, s: State)
    requires Reaches(p, truths, origin, s) && s.sell.sync == Starting && s.sell.exchange == Poloniex
    ensures Reaches(p, truths, origin, SellMarked(s))
  {
    var s1 := s.(sell := s.sell.(sync := Marking(true)));
    Then(p, truths, origin, s, SyncStep(Sell, None), s1);
    Then(p, truths, origin, s1, SyncStep(Sell, None), SellMarked(s));
  }

  lemma FetchIsARun(p: Patience, truths: Truths, origin: State, s: State, v: Venue, snapshot: Message)
    requires Reaches(p, truths, origin, s) && s.At(v).sync == Starting && s.At(v).exchange == Binance
    requires snapshot.Snapshot? && Honest(truths(v), Binance, snapshot)
    ensures Reaches(p, truths, origin, Unsorted(s, v, snapshot))
  {
    var s1 := s.Put(v, s.At(v).(sync := Fetching));
    Then(p, truths, origin, s, SyncStep(v, None), s1);
    Then(p, truths, origin, s1, SyncStep(v, Some(snapshot)), Unsorted(s, v, snapshot));
  }

  /** A session up to its unsorted snapshot. */
  lemma SessionIsARun(p: Patience, truths: Truths, origin: State, s: State, snapshot: Message)
    requires Reaches(p, truths, origin, s) && CanReset(p, s)
    requires s.sell.exchange == Poloniex && s.buy.exchange == Binance
    requires snapshot.Snapshot? && Honest(truths(Buy), Binance, snapshot)
    ensures Reaches(p, truths, origin, Unsorted(SellMarked(Subscribed(s)), Buy, snapshot))
  {
    SubscribingIsARun(p, truths, origin, s);
    MarkingTheSellSideIsARun(p, truths, origin, Subscribed(s));
    FetchIsARun(p, truths, origin, SellMarked(Subscribed(s)), Buy, snapshot);
  }

  function BuyAt(s: State, pc: SyncThread): State { s.(buy := s.buy.(sync := pc)) }

  /** The last drain has found the queue empty; the flag is about to be written. */
  lemma EmptyDrainIsARun(p: Patience, truths: Truths, origin: State, s: State, id: nat)
    requires Reaches(p, truths, origin, s) && s.buy.sync == CheckingBuy(id) && s.buy.queue == []
    requires id < |s.heap| && s.sell.running && s.buy.running
    ensures Reaches(p, truths, origin, BuyAt(s, Marking(true)))
  {
    Then(p, truths, origin, s, SyncStep(Buy, None), BuyAt(s, CheckingSell(id)));
    Then(p, truths, origin, BuyAt(s, CheckingSell(id)), SyncStep(Buy, None), BuyAt(s, Dequeuing(id)));
    Then(p, truths, origin, BuyAt(s, Dequeuing(id)), SyncStep(Buy, None), BuyAt(s, Marking(true)));
  }

  /** Both sides are synced and the search may run. */
  function NowLive(s: State): State {
    s.(main := Live, stage := AfterSync, buy := s.buy.(synced := true, sync := Finished))
  }

  lemma GoingLiveIsARun(p: Patience, truths: Truths, origin: State, s: State)
    requires Reaches(p, truths, origin, s) && s.main == JoinSyncThreads && s.buy.sync == Marking(true)
    requires s.sell.synced && s.sell.sync == Finished
    ensures Reaches(p, truths, origin, NowLive(s))
  {
    var s1 := s.(buy := s.buy.(synced := true, sync := Finished));
    Then(p, truths, origin, s, SyncStep(Buy, None), s1);
    Then(p, truths, origin, s1, MainStep, s1.(main := LookAtFlags));
    Then(p, truths, origin, s1.(main := LookAtFlags), MainStep, s1.(main := SetAfterSync));
    Then(p, truths, origin, s1.(main := SetAfterSync), MainStep, NowLive(s));
  }

  /** Both subscriptions have been stopped. */
  function Down(s: State): State { Switched(Switched(s, Sell, false), Buy, false) }

  lemma StoppingIsARun(p: Patience, truths: Truths, origin: State, s: State)
    requires Reaches(p, truths, origin, s)
    ensures Reaches(p, truths, origin, Down(s))
  {
    var s1 := Switched(s, Sell, false);
    Then(p, truths, origin, s, StopSubscription(Sell), s1);
    Then(p, truths, origin, s1, StopSubscription(Buy), Down(s));
  }

  /** The receive loop `r` runs the callback `k`, which stands at `pc`. */
  function Busy(s: State, r: nat, k: nat, m: Message, pc: CallbackPc): State
    requires r < |s.receivers|
  {
    WithReceiver(s, r, Handling(k)).(callbacks := s.callbacks[k := Callback(r, s.receivers[r].venue, m, pc)])
  }

  /** A message has arrived; both subscriptions run. Before the books are synced its callback reads the
      flag next, and afterwards it updates the book. */
  function Arrived(s: State, r: nat, k: nat, m: Message): State
    requires r < |s.receivers|
  {
    Busy(s, r, k, m, if s.stage == BeforeSync then ReadingFlag else Calling)
  }

  ghost predicate Arrives(truths: Truths, s: State, r: nat, k: nat, m: Message) {
    && s.stage in {BeforeSync, AfterSync} && s.sell.exchange != s.buy.exchange
    && r < |s.receivers| && s.receivers[r].pc == InRecv && k !in s.callbacks
    && var v := s.receivers[r].venue; Honest(truths(v), s.At(v).exchange, m)
  }

  lemma DeliveryIsARun(p: Patience, truths: Truths, origin: State, s: State, r: nat, k: nat, m: Message)
    requires Reaches(p, truths, origin, s) && Arrives(truths, s, r, k, m)
    ensures Reaches(p, truths, origin, Busy(s, r, k, m, CheckingBuySubscription(s.stage)))
  {
    var s1 := Busy(s, r, k, m, ReadingStage);
    Then(p, truths, origin, s, Deliver(r, k, m), s1);
    Then(p, truths, origin, s1, CallbackStep(k), Busy(s, r, k, m, CheckingBuySubscription(s.stage)));
  }

  lemma ArrivalIsARun(p: Patience, truths: Truths, origin: State, s: State, r: nat, k: nat, m: Message)
    requires Reaches(p, truths, origin, s) && Arrives(truths, s, r, k, m) && s.sell.running && s.buy.running
    ensures Reaches(p, truths, origin, Arrived(s, r, k, m))
  {
    DeliveryIsARun(p, truths, origin, s, r, k, m);
    var s1 := Busy(s, r, k, m, CheckingBuySubscription(s.stage));
    var s2 := Busy(s, r, k, m, CheckingSellSubscription(s.stage));
    Then(p, truths, origin, s1, CallbackStep(k), s2);
    Then(p, truths, origin, s2, CallbackStep(k), Arrived(s, r, k, m));
  }

  // -------------------------------------------------------------- the exchange of the witnesses

  /** Nothing at id 0, asks at prices 1 and 2 from id 1, the one at price 1 gone from id 2 on. */
  function Asks(id: int): Quotes {
    Quotes(if id <= 0 then map[] else if id == 1 then map[1.0 := 1.0, 2.0 := 1.0] else map[2.0 := 1.0], map[])
  }

  function WitnessTruths(): Truths { v => Asks }

  const D1 := Delta(BookUpdate(1, 1, [Deal(1.0, 1.0), Deal(2.0, 1.0)], [], [], []))
  const D2 := Delta(BookUpdate(2, 2, [Deal(1.0, 0.0)], [], [], []))

  const EDIT1 := LevelEdit(Ask, Deal(1.0, 1.0), true)
  const EDIT2 := LevelEdit(Ask, Deal(2.0, 1.0), true)
  const REMOVE1 := LevelEdit(Ask, Deal(1.0, 0.0), true)

  const SNAPSHOT0 := Snapshot(0, [], [])
  const SNAPSHOT1 := Snapshot(1, [Deal(2.0, 1.0), Deal(1.0, 1.0)], [])

  lemma TheDeltasAreHonest()
    ensures EditsOf(Binance, D1.update) == [EDIT1, EDIT2] && EditsOf(Binance, D2.update) == [REMOVE1]
    ensures Honest(Asks, Binance, D1) && Honest(Asks, Binance, D2)
  {
    assert EditsOf(Binance, D1.update) == [EDIT1, EDIT2];
    assert D1.update.ask[1..] == [Deal(2.0, 1.0)] && [Deal(2.0, 1.0)][1..] == [];
    assert ExchangeSetLevels(Asks(0).ask, D1.update.ask) == map[1.0 := 1.0, 2.0 := 1.0];
    assert EditsOf(Binance, D2.update) == [REMOVE1];
    assert D2.update.ask[1..] == [];
    assert ExchangeSetLevels(Asks(1).ask, D2.update.ask) == map[2.0 := 1.0];
  }

  lemma TheSnapshotsAreHonest()
    ensures Honest(Asks, Binance, SNAPSHOT0) && Honest(Asks, Binance, SNAPSHOT1)
  {
    var two := [Deal(2.0, 1.0), Deal(1.0, 1.0)];
    assert two[1..] == [Deal(1.0, 1.0)] && [Deal(1.0, 1.0)][1..] == [];
    assert Levels(two) == map[1.0 := 1.0, 2.0 := 1.0];
  }

  const EMPTY_AT0 := Book([], [], Some(0))
  const FIRST_BOOKS := [BookObject(Sell, EMPTY_BOOK), BookObject(Buy, EMPTY_BOOK)]

  function Start(): State { Initial(Poloniex, Binance) }

  // ---------------------------------------------------------------------- the first session

  /** Both subscriptions run, and the sell side is marked. The sync thread of the buy side stands at `pc`
      and its receive loop at `receiver`; its book is the empty snapshot. */
  function First(pc: SyncThread, queue: seq<Message>, receiver: ReceiverPc, callbacks: map<nat, Callback>): State {
    State(JoinSyncThreads, BeforeSync,
      Half(Poloniex, true, true, Some(0), [], Finished), Half(Binance, true, false, Some(2), queue, pc),
      FIRST_BOOKS + [BookObject(Buy, EMPTY_AT0)], callbacks, [Receiver(Buy, receiver), Receiver(Sell, InRecv)])
  }

  lemma FirstSessionFetches(p: Patience)
    ensures Reaches(p, WitnessTruths(), Start(), First(Sorting(2), [], InRecv, map[]))
  {
    var s := Start();
    Stays(p, WitnessTruths(), s);
    TheSnapshotsAreHonest();
    SessionIsARun(p, WitnessTruths(), s, s, SNAPSHOT0);
    assert Unsorted(SellMarked(Subscribed(s)), Buy, SNAPSHOT0) == First(Sorting(2), [], InRecv, map[]);
  }

  lemma FirstSessionDrains(p: Patience)
    ensures Reaches(p, WitnessTruths(), Start(), First(Marking(true), [], InRecv, map[]))
  {
    var s, s1 := First(Sorting(2), [], InRecv, map[]), First(CheckingBuy(2), [], InRecv, map[]);
    FirstSessionFetches(p);
    Then(p, WitnessTruths(), Start(), s, SyncStep(Buy, None), s1);
    EmptyDrainIsARun(p, WitnessTruths(), Start(), s1, 2);
  }

  // ------------------------------------------------------------------- a stranded delta

  function LeftInTheQueue(): State {
    First(Marking(true), [D1], Handling(0), map[0 := Callback(0, Buy, D1, Returned)])
  }

  /** The drain loop is over, and a callback of the first delta stands at `pc`. */
  function Late(pc: CallbackPc): State {
    First(Marking(true), [], Handling(0), map[0 := Callback(0, Buy, D1, pc)])
  }

  lemma OneIsLate(p: Patience)
    ensures Reaches(p, WitnessTruths(), Start(), Late(ReadingFlag))
  {
    var s := First(Marking(true), [], InRecv, map[]);
    FirstSessionDrains(p);
    TheDeltasAreHonest();
    ArrivalIsARun(p, WitnessTruths(), Start(), s, 0, 0, D1);
    assert Arrived(s, 0, 0, D1) == Late(ReadingFlag);
  }

  lemma OneIsLeftInTheQueue(p: Patience)
    ensures Reaches(p, WitnessTruths(), Start(), LeftInTheQueue())
  {
    OneIsLate(p);
    Then(p, WitnessTruths(), Start(), Late(ReadingFlag), CallbackStep(0), Late(Putting));
    Then(p, WitnessTruths(), Start(), Late(Putting), CallbackStep(0), LeftInTheQueue());
  }

  lemma WhatIsLeftIsStranded()
    ensures Stranded(LeftInTheQueue(), Buy, 2, 1, D1) && Control(LeftInTheQueue())
  {
  }

  lemma WhatIsLeftIsHonest()
    ensures MessagesGood(WitnessTruths(), LeftInTheQueue())
  {
    var truths, s := WitnessTruths(), LeftInTheQueue();
    TheDeltasAreHonest();
    assert HalfGood(truths, s, Sell);
    assert HalfGood(truths, s, Buy);
  }

  /** Deltas do get stranded, whatever a reset waits for, and then StrandedDeltaIsNeverSkipped applies. */
  lemma DeltasGetStranded(p: Patience)
    ensures exists truths, s :: Reaches(p, truths, Start(), s) && StrandedAtBuy(truths, s)
  {
    OneIsLeftInTheQueue(p);
    WhatIsLeftIsHonest();
    WhatIsLeftIsStranded();
    assert StrandedAtBuy(WitnessTruths(), LeftInTheQueue());
  }

  ghost predicate StrandedAtBuy(truths: Truths, s: State) {
    MessagesGood(truths, s) && Control(s) && exists id, missing, m :: Stranded(s, Buy, id, missing, m)
  }

  // --------------------------------------------------------------------- the second session

  /** The first session has gone live. */
  function FirstLive(receiver: ReceiverPc, callbacks: map<nat, Callback>): State {
    NowLive(First(Marking(true), [], receiver, callbacks))
  }

  lemma FirstSessionGoesLive(p: Patience)
    ensures Reaches(p, WitnessTruths(), Start(), FirstLive(InRecv, map[]))
  {
    FirstSessionDrains(p);
    GoingLiveIsARun(p, WitnessTruths(), Start(), First(Marking(true), [], InRecv, map[]));
  }

  const SECOND_BOOKS :=
    FIRST_BOOKS + [BookObject(Buy, EMPTY_AT0)] + [BookObject(Sell, EMPTY_BOOK)] + [BookObject(Buy, EMPTY_BOOK)]

  /** After a reset: `first` is where the first session's receive loop of the buy side stands, and `second`
      where that of the second stands. */
  function Second(book: Book, pc: SyncThread, first: ReceiverPc, second: ReceiverPc, callbacks: map<nat, Callback>)
    : State
  {
    State(JoinSyncThreads, BeforeSync,
      Half(Poloniex, true, true, Some(3), [], Finished), Half(Binance, true, false, Some(5), [], pc),
      SECOND_BOOKS + [BookObject(Buy, book)], callbacks,
      [Receiver(Buy, first), Receiver(Sell, InRecv), Receiver(Buy, second), Receiver(Sell, InRecv)])
  }

  const UNSORTED_AT1 := Book([Deal(2.0, 1.0), Deal(1.0, 1.0)], [], Some(1))
  const UNSORTED_AT2 := Book([Deal(2.0, 1.0), Deal(1.0, 1.0)], [], Some(2))
  const EMPTY_AT1 := Book([], [], Some(1))
  const EMPTY_AT2 := Book([], [], Some(2))
  const ONE_AT2 := Book([Deal(1.0, 1.0)], [], Some(2))
  const TWO_AT2 := Book([Deal(1.0, 1.0), Deal(2.0, 1.0)], [], Some(2))

  lemma SecondSessionStarts(receiver: ReceiverPc, callbacks: map<nat, Callback>)
    ensures SellMarked(Subscribed(Down(FirstLive(receiver, callbacks)))) ==
      Second(EMPTY_BOOK, Starting, receiver, InRecv, callbacks).(
        heap := SECOND_BOOKS, buy := Half(Binance, true, false, Some(4), [], Starting))
  {
  }

  lemma SecondSessionFetches(p: Patience, receiver: ReceiverPc, callbacks: map<nat, Callback>, snapshot: Message,
      book: Book)
    requires Reaches(p, WitnessTruths(), Start(), FirstLive(receiver, callbacks))
    requires Waits(p, Down(FirstLive(receiver, callbacks)), MainStep)
    requires (snapshot, book) in {(SNAPSHOT0, EMPTY_AT0), (SNAPSHOT1, UNSORTED_AT1)}
    ensures Reaches(p, WitnessTruths(), Start(), Second(book, Sorting(5), receiver, InRecv, callbacks))
  {
    var s := Down(FirstLive(receiver, callbacks));
    StoppingIsARun(p, WitnessTruths(), Start(), FirstLive(receiver, callbacks));
    TheSnapshotsAreHonest();
    SessionIsARun(p, WitnessTruths(), Start(), s, snapshot);
    SecondSessionStarts(receiver, callbacks);
    assert Unsorted(SellMarked(Subscribed(s)), Buy, snapshot) == Second(book, Sorting(5), receiver, InRecv, callbacks);
  }

  /** The second session live. */
  function SecondLive(book: Book, first: ReceiverPc, second: ReceiverPc, callbacks: map<nat, Callback>): State {
    NowLive(Second(book, Marking(true), first, second, callbacks))
  }

  lemma SecondSessionGoesLive(p: Patience, book: Book, first: ReceiverPc, second: ReceiverPc,
      callbacks: map<nat, Callback>)
    requires Reaches(p, WitnessTruths(), Start(), Second(book, CheckingBuy(5), first, second, callbacks))
    ensures Reaches(p, WitnessTruths(), Start(), SecondLive(book, first, second, callbacks))
  {
    EmptyDrainIsARun(p, WitnessTruths(), Start(), Second(book, CheckingBuy(5), first, second, callbacks), 5);
    GoingLiveIsARun(p, WitnessTruths(), Start(), Second(book, Marking(true), first, second, callbacks));
  }

  /** Nobody is changing the book of the listener, and it is not the exchange's book at its own id. */
  ghost predicate SettledButWrong(truths: Truths, s: State, v: Venue) {
    && s.At(v).current.Some? && s.At(v).current.value < |s.heap|
    && (forall t :: !Inside(s, t, s.At(v).current.value))
    && !Agrees(truths(v), s.heap[s.At(v).current.value].book)
  }

  lemma TheRemovedLevelIsThere()
    ensures !Agrees(Asks, TWO_AT2)
  {
    var two := [Deal(1.0, 1.0), Deal(2.0, 1.0)];
    assert Levels(two)[1.0] == 1.0;
    assert 1.0 in Clean(TWO_AT2.View().ask) && 1.0 !in Clean(Asks(2).ask);
  }

  // -------------------------------------------- a receive loop that outlives a reset

  /** The second session, live, with the old receive loop inside of the callback of the first delta and
      the new one inside of that of the second. */
  function Overlap(book: Book, pc0: CallbackPc, pc1: CallbackPc): State {
    SecondLive(book, Handling(0), Handling(1), map[0 := Callback(0, Buy, D1, pc0), 1 := Callback(2, Buy, D2, pc1)])
  }

  function OneCalled(): State {
    SecondLive(EMPTY_AT0, Handling(0), InRecv, map[0 := Callback(0, Buy, D1, Calling)])
  }

  lemma TheOldLoopOutlivesTheReset()
    ensures Reaches(ForCallbacks, WitnessTruths(), Start(), SecondLive(EMPTY_AT0, InRecv, InRecv, map[]))
  {
    var s := Second(EMPTY_AT0, Sorting(5), InRecv, InRecv, map[]);
    FirstSessionGoesLive(ForCallbacks);
    SecondSessionFetches(ForCallbacks, InRecv, map[], SNAPSHOT0, EMPTY_AT0);
    Then(ForCallbacks, WitnessTruths(), Start(), s, SyncStep(Buy, None),
      Second(EMPTY_AT0, CheckingBuy(5), InRecv, InRecv, map[]));
    SecondSessionGoesLive(ForCallbacks, EMPTY_AT0, InRecv, InRecv, map[]);
  }

  lemma OneIsCalled()
    ensures Reaches(ForCallbacks, WitnessTruths(), Start(), OneCalled())
  {
    var s := SecondLive(EMPTY_AT0, InRecv, InRecv, map[]);
    TheOldLoopOutlivesTheReset();
    TheDeltasAreHonest();
    ArrivalIsARun(ForCallbacks, WitnessTruths(), Start(), s, 0, 0, D1);
    assert Arrived(s, 0, 0, D1) == OneCalled();
  }

  lemma BothAreCalled()
    ensures Reaches(ForCallbacks, WitnessTruths(), Start(), Overlap(EMPTY_AT0, Calling, Calling))
  {
    OneIsCalled();
    TheDeltasAreHonest();
    ArrivalIsARun(ForCallbacks, WitnessTruths(), Start(), OneCalled(), 2, 1, D2);
    assert Arrived(OneCalled(), 2, 1, D2) == Overlap(EMPTY_AT0, Calling, Calling);
  }

  lemma OverlapStep(book: Book, pc0: CallbackPc, pc1: CallbackPc, k: nat, book': Book, pc0': CallbackPc,
      pc1': CallbackPc)
    requires Reaches(ForCallbacks, WitnessTruths(), Start(), Overlap(book, pc0, pc1))
    requires CallbackEnabled(Overlap(book, pc0, pc1), k)
    requires AfterCallbackStep(Overlap(book, pc0, pc1), k) == Overlap(book', pc0', pc1')
    ensures Reaches(ForCallbacks, WitnessTruths(), Start(), Overlap(book', pc0', pc1'))
  {
    Then(ForCallbacks, WitnessTruths(), Start(), Overlap(book, pc0, pc1), CallbackStep(k), Overlap(book', pc0', pc1'));
  }

  lemma OneAims()
    ensures Reaches(ForCallbacks, WitnessTruths(), Start(), Overlap(EMPTY_AT0, Entering(5), Calling))
  {
    BothAreCalled();
    OverlapStep(EMPTY_AT0, Calling, Calling, 0, EMPTY_AT0, Entering(5), Calling);
  }

  lemma OneIsInside()
    ensures Reaches(ForCallbacks, WitnessTruths(), Start(), Overlap(EMPTY_AT1, Changing(5, [EDIT1, EDIT2]), Calling))
  {
    OneAims();
    TheDeltasAreHonest();
    OverlapStep(EMPTY_AT0, Entering(5), Calling, 0, EMPTY_AT1, Changing(5, [EDIT1, EDIT2]), Calling);
  }

  lemma TheOtherAims()
    ensures Reaches(ForCallbacks, WitnessTruths(), Start(),
      Overlap(EMPTY_AT1, Changing(5, [EDIT1, EDIT2]), Entering(5)))
  {
    OneIsInside();
    var inside := Changing(5, [EDIT1, EDIT2]);
    OverlapStep(EMPTY_AT1, inside, Calling, 1, EMPTY_AT1, inside, Entering(5));
  }

  lemma BothAreInside()
    ensures Reaches(ForCallbacks, WitnessTruths(), Start(),
      Overlap(EMPTY_AT2, Changing(5, [EDIT1, EDIT2]), Changing(5, [REMOVE1])))
  {
    TheOtherAims();
    TheDeltasAreHonest();
    var inside := Changing(5, [EDIT1, EDIT2]);
    OverlapStep(EMPTY_AT1, inside, Entering(5), 1, EMPTY_AT2, inside, Changing(5, [REMOVE1]));
  }

  lemma TheEdits()
    ensures ApplyEdit(EMPTY_AT2, REMOVE1) == Some(EMPTY_AT2)
    ensures ApplyEdit(EMPTY_AT2, EDIT1) == Some(ONE_AT2)
    ensures ApplyEdit(ONE_AT2, EDIT2) == Some(TWO_AT2)
  {
    var none: seq<Deal> := [];
    assert none[..0] + [Deal(1.0, 1.0)] + none[0..] == [Deal(1.0, 1.0)];
    var one := [Deal(1.0, 1.0)];
    assert one[..1] + [Deal(2.0, 1.0)] + one[1..] == [Deal(1.0, 1.0), Deal(2.0, 1.0)];
  }

  lemma TheLaterFinishes()
    ensures Reaches(ForCallbacks, WitnessTruths(), Start(), Overlap(EMPTY_AT2, Changing(5, [EDIT1, EDIT2]), Returned))
  {
    BothAreInside();
    TheEdits();
    assert [REMOVE1][1..] == [];
    var inside := Changing(5, [EDIT1, EDIT2]);
    OverlapStep(EMPTY_AT2, inside, Changing(5, [REMOVE1]), 1, EMPTY_AT2, inside, Changing(5, []));
    OverlapStep(EMPTY_AT2, inside, Changing(5, []), 1, EMPTY_AT2, inside, Returned);
  }

  lemma TheEarlierEdits()
    ensures Reaches(ForCallbacks, WitnessTruths(), Start(), Overlap(ONE_AT2, Changing(5, [EDIT2]), Returned))
  {
    TheLaterFinishes();
    TheEdits();
    assert [EDIT1, EDIT2][1..] == [EDIT2];
    OverlapStep(EMPTY_AT2, Changing(5, [EDIT1, EDIT2]), Returned, 0, ONE_AT2, Changing(5, [EDIT2]), Returned);
  }

  lemma EditsInTheWrongOrder()
    ensures Reaches(ForCallbacks, WitnessTruths(), Start(), Overlap(TWO_AT2, Returned, Returned))
  {
    TheEarlierEdits();
    TheEdits();
    assert [EDIT2][1..] == [];
    OverlapStep(ONE_AT2, Changing(5, [EDIT2]), Returned, 0, TWO_AT2, Changing(5, []), Returned);
    OverlapStep(TWO_AT2, Changing(5, []), Returned, 0, TWO_AT2, Returned, Returned);
  }

  /** Waiting for the callbacks is not enough: a receive loop of the old session that has a message in
      hand calls back in the new one, beside the new receive loop, and the later of two deltas is
      overtaken by the edits of the earlier one. */
  lemma OverlappingCallbacksBreakTheBook()
    ensures exists truths, s ::
      Reaches(ForCallbacks, truths, Start(), s) && s.stage == AfterSync && SettledButWrong(truths, s, Buy)
  {
    EditsInTheWrongOrder();
    TheRemovedLevelIsThere();
    assert SettledButWrong(WitnessTruths(), Overlap(TWO_AT2, Returned, Returned), Buy);
  }

  // ------------------------------------------------- a callback that outlives a reset

  function Leftover(pc: CallbackPc): map<nat, Callback> { map[0 := Callback(0, Buy, D2, pc)] }

  /** The first session is live, and the callback of the delta with id 2 is about to update the book. */
  lemma LeftoverIsCalled()
    ensures Reaches(ForFlags, WitnessTruths(), Start(), FirstLive(Handling(0), Leftover(Calling)))
  {
    var s := FirstLive(InRecv, map[]);
    FirstSessionGoesLive(ForFlags);
    TheDeltasAreHonest();
    ArrivalIsARun(ForFlags, WitnessTruths(), Start(), s, 0, 0, D2);
    assert Arrived(s, 0, 0, D2) == FirstLive(Handling(0), Leftover(Calling));
  }

  lemma LeftoverOutlivesTheReset()
    ensures Reaches(ForFlags, WitnessTruths(), Start(),
      Second(UNSORTED_AT1, Sorting(5), Handling(0), InRecv, Leftover(Calling)))
  {
    LeftoverIsCalled();
    SecondSessionFetches(ForFlags, Handling(0), Leftover(Calling), SNAPSHOT1, UNSORTED_AT1);
  }

  lemma LeftoverStep(book: Book, pc: CallbackPc, book': Book, pc': CallbackPc)
    requires Reaches(ForFlags, WitnessTruths(), Start(), Second(book, Sorting(5), Handling(0), InRecv, Leftover(pc)))
    requires CallbackEnabled(Second(book, Sorting(5), Handling(0), InRecv, Leftover(pc)), 0)
    requires AfterCallbackStep(Second(book, Sorting(5), Handling(0), InRecv, Leftover(pc)), 0) ==
      Second(book', Sorting(5), Handling(0), InRecv, Leftover(pc'))
    ensures Reaches(ForFlags, WitnessTruths(), Start(), Second(book', Sorting(5), Handling(0), InRecv, Leftover(pc')))
  {
    Then(ForFlags, WitnessTruths(), Start(), Second(book, Sorting(5), Handling(0), InRecv, Leftover(pc)),
      CallbackStep(0), Second(book', Sorting(5), Handling(0), InRecv, Leftover(pc')));
  }

  /** In the unsorted list the search misses the level it should remove. */
  lemma TheSearchMisses()
    ensures ApplyEdit(UNSORTED_AT2, REMOVE1) == Some(UNSORTED_AT2)
  {
    var two := [Deal(2.0, 1.0), Deal(1.0, 1.0)];
    assert two[..0] == [];
    assert Place(Ask, two, Deal(1.0, 0.0)) == 0;
  }

  lemma LeftoverAims()
    ensures Reaches(ForFlags, WitnessTruths(), Start(),
      Second(UNSORTED_AT1, Sorting(5), Handling(0), InRecv, Leftover(Entering(5))))
  {
    LeftoverOutlivesTheReset();
    LeftoverStep(UNSORTED_AT1, Calling, UNSORTED_AT1, Entering(5));
  }

  lemma LeftoverEnters()
    ensures Reaches(ForFlags, WitnessTruths(), Start(),
      Second(UNSORTED_AT2, Sorting(5), Handling(0), InRecv, Leftover(Changing(5, [REMOVE1]))))
  {
    LeftoverAims();
    TheDeltasAreHonest();
    LeftoverStep(UNSORTED_AT1, Entering(5), UNSORTED_AT2, Changing(5, [REMOVE1]));
  }

  lemma LeftoverMisses()
    ensures Reaches(ForFlags, WitnessTruths(), Start(),
      Second(UNSORTED_AT2, Sorting(5), Handling(0), InRecv, Leftover(Returned)))
  {
    LeftoverEnters();
    TheSearchMisses();
    assert [REMOVE1][1..] == [];
    LeftoverStep(UNSORTED_AT2, Changing(5, [REMOVE1]), UNSORTED_AT2, Changing(5, []));
    LeftoverStep(UNSORTED_AT2, Changing(5, []), UNSORTED_AT2, Returned);
  }

  lemma SortingTheTwo()
    ensures SortByPrice(Ask, [Deal(2.0, 1.0), Deal(1.0, 1.0)]) == [Deal(1.0, 1.0), Deal(2.0, 1.0)]
  {
    var two, one := [Deal(2.0, 1.0), Deal(1.0, 1.0)], [Deal(1.0, 1.0)];
    assert two[1..] == one && one[1..] == [];
    assert SortByPrice(Ask, one) == one;
    assert InsertSorted(Ask, Deal(2.0, 1.0), one) == [Deal(1.0, 1.0), Deal(2.0, 1.0)];
  }

  lemma TheWrongBookIsSorted()
    ensures Reaches(ForFlags, WitnessTruths(), Start(),
      Second(TWO_AT2, CheckingBuy(5), Handling(0), InRecv, Leftover(Returned)))
  {
    LeftoverMisses();
    SortingTheTwo();
    Then(ForFlags, WitnessTruths(), Start(), Second(UNSORTED_AT2, Sorting(5), Handling(0), InRecv, Leftover(Returned)),
      SyncStep(Buy, None), Second(TWO_AT2, CheckingBuy(5), Handling(0), InRecv, Leftover(Returned)));
  }

  /** The source as it is: a callback that outlives a reset updates the new book before the sync thread
      has sorted it, and the wrong book goes live. */
  lemma LeftoverCallbackBreaksTheBook()
    ensures exists truths, s ::
      Reaches(ForFlags, truths, Start(), s) && s.stage == AfterSync && SettledButWrong(truths, s, Buy)
  {
    TheWrongBookIsSorted();
    SecondSessionGoesLive(ForFlags, TWO_AT2, Handling(0), InRecv, Leftover(Returned));
    TheRemovedLevelIsThere();
    assert SettledButWrong(WitnessTruths(), SecondLive(TWO_AT2, Handling(0), InRecv, Leftover(Returned)), Buy);
  }

  // ---------------------------------------------------------------- exactly this patience

  /** When resets wait as `p` says, no run ever settles on a wrong book. */
  ghost predicate KeepsBooksTrue(p: Patience) {
    forall truths, exchange, other, s, v | exchange != other && Reaches(p, truths, Initial(exchange, other), s) ::
      !SettledButWrong(truths, s, v)
  }

  /** No run settles on a wrong book while the search may run. */
  ghost predicate KeepsLiveBooksTrue(p: Patience) {
    forall truths, exchange, other, s, v | exchange != other && Reaches(p, truths, Initial(exchange, other), s) ::
      s.stage == AfterSync ==> !SettledButWrong(truths, s, v)
  }

  lemma PatientRunsSettleRight(truths: Truths, exchange: Exchange, other: Exchange, s: State, v: Venue)
    requires exchange != other && Reaches(ForReceivers, truths, Initial(exchange, other), s)
    ensures !SettledButWrong(truths, s, v)
  {
    var states, steps :| RunBetween(ForReceivers, truths, Initial(exchange, other), s, states, steps);
    SerialRunsAgree(truths, states, steps);
    assert Inv(truths, states[|steps|]);
    assert HalfGood(truths, s, v);
    if s.At(v).current.Some? {
      assert BookGood(truths, s, s.At(v).current.value);
    }
  }

  /** Books stay true in all honest runs exactly when a reset waits for the receive loops of the session
      before it. Waiting for both subscriptions to be down, as the source does, is not enough, and
      neither is waiting for the callbacks in flight besides. */
  lemma BooksStayTrueIffResetsWait(p: Patience)
    ensures KeepsBooksTrue(p) <==> p == ForReceivers
    ensures KeepsLiveBooksTrue(p) <==> p == ForReceivers
  {
    match p {
      case ForReceivers =>
        forall truths, exchange, other, s, v | exchange != other && Reaches(p, truths, Initial(exchange, other), s)
          ensures !SettledButWrong(truths, s, v)
        {
          PatientRunsSettleRight(truths, exchange, other, s, v);
        }
      case ForCallbacks => OverlappingCallbacksBreakTheBook();
      case ForFlags => LeftoverCallbackBreaksTheBook();
    }
  }
}
