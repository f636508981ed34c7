/**
 * Safety of the synchronisation protocol over all runs of ListenerSteps.
 */
module ListenerSafety {
  import opened OrderBooks
  import opened BookUpdates
  import opened Exchanges
  import opened Wrappers
  import opened ListenerSteps

  /** The true books of both exchanges. */
  type Truths = Venue -> Truth

  // ------------------------------------------------------- who is inside which book

  datatype Thread = SyncOf(venue: Venue) | CallbackOf(callback: nat)

  datatype Activity = Sorts(id: nat) | Edits(id: nat, edits: seq<LevelEdit>)

  /** The book a thread is in the middle of changing. */
  function ActivityOf(s: State, t: Thread): Option<Activity> {
    match t
    case SyncOf(v) =>
      (match s.At(v).sync
       case Sorting(id) => Some(Sorts(id))
       case Editing(id, edits) => Some(Edits(id, edits))
       case _ => None)
    case CallbackOf(k) =>
      if k in s.callbacks && s.callbacks[k].pc.Changing?
      then Some(Edits(s.callbacks[k].pc.id, s.callbacks[k].pc.edits)) else None
  }

  predicate Inside(s: State, t: Thread, id: nat) {
    ActivityOf(s, t).Some? && ActivityOf(s, t).value.id == id
  }

  /** The book a step reads at the gate or writes. */
  function Touched(s: State, step: Step): Option<nat> {
    match step
    case SyncStep(v, _) =>
      (match s.At(v).sync
       case Sorting(id) => Some(id)
       case Applying(id, _) => Some(id)
       case Editing(id, _) => Some(id)
       case _ => None)
    case CallbackStep(k) =>
      if k !in s.callbacks then None
      else (match s.callbacks[k].pc
            case Entering(id) => Some(id)
            case Changing(id, _) => Some(id)
            case _ => None)
    case _ => None
  }

  ghost predicate IsActor(step: Step, t: Thread) {
    match step
    case SyncStep(v, _) => t == SyncOf(v)
    case CallbackStep(k) => t == CallbackOf(k)
    case _ => false
  }

  /** No other thread is in the middle of changing the book this step touches. */
  ghost predicate Undisturbed(s: State, step: Step) {
    Touched(s, step).Some? ==> forall t | !IsActor(step, t) :: !Inside(s, t, Touched(s, step).value)
  }

  /** Whatever reaches the bot in this step comes from an honest exchange. */
  ghost predicate HonestStep(truths: Truths, s: State, step: Step) {
    match step
    case Deliver(r, _, m) =>
      r < |s.receivers| ==> var v := s.receivers[r].venue; Honest(truths(v), s.At(v).exchange, m)
    case SyncStep(v, answer) => answer.Some? ==> Honest(truths(v), s.At(v).exchange, answer.value)
    case _ => true
  }

  // -------------------------------------------------------------------- the invariant

  ghost predicate SortingWillAgree(truth: Truth, b: Book) {
    Agrees(truth, Book(SortByPrice(Ask, b.ask), SortByPrice(Bid, b.bid), b.sequenceId))
  }

  ghost predicate ActivityGood(truths: Truths, s: State, a: Activity) {
    && a.id < |s.heap|
    && var o := s.heap[a.id];
    match a
    case Sorts(_) => SortingWillAgree(truths(o.venue), o.book)
    case Edits(_, edits) => WillAgree(truths(o.venue), o.book, edits)
  }

  ghost predicate ThreadsGood(truths: Truths, s: State) {
    forall t :: ActivityOf(s, t).Some? ==> ActivityGood(truths, s, ActivityOf(s, t).value)
  }

  ghost predicate Exclusive(s: State) {
    forall t, u | t != u && ActivityOf(s, t).Some? && ActivityOf(s, u).Some? ::
      ActivityOf(s, t).value.id != ActivityOf(s, u).value.id
  }

  ghost predicate BookGood(truths: Truths, s: State, id: nat)
    requires id < |s.heap|
  {
    Agrees(truths(s.heap[id].venue), s.heap[id].book) || exists t :: Inside(s, t, id)
  }

  ghost predicate BooksGood(truths: Truths, s: State) {
    forall id | 0 <= id < |s.heap| :: BookGood(truths, s, id)
  }

  ghost predicate RefGood(s: State, v: Venue, ref: Option<nat>) {
    ref.Some? ==> ref.value < |s.heap| && s.heap[ref.value].venue == v
  }

  ghost predicate HalfGood(truths: Truths, s: State, v: Venue) {
    var h := s.At(v);
    && (forall i | 0 <= i < |h.queue| :: Honest(truths(v), h.exchange, h.queue[i]))
    && (h.sync.Applying? ==> Honest(truths(v), h.exchange, h.sync.m))
    && RefGood(s, v, BookOf(h.sync))
    && RefGood(s, v, h.current)
  }

  function RefOf(pc: CallbackPc): Option<nat> {
    match pc
    case Entering(id) => Some(id)
    case Changing(id, _) => Some(id)
    case _ => None
  }

  ghost predicate CallbackGood(truths: Truths, s: State, k: nat)
    requires k in s.callbacks
  {
    var c := s.callbacks[k];
    Honest(truths(c.venue), s.At(c.venue).exchange, c.m) && RefGood(s, c.venue, RefOf(c.pc))
  }

  ghost predicate MessagesGood(truths: Truths, s: State) {
    && s.sell.exchange != s.buy.exchange
    && HalfGood(truths, s, Sell) && HalfGood(truths, s, Buy)
    && forall k | k in s.callbacks :: CallbackGood(truths, s, k)
  }

  ghost predicate BookInv(truths: Truths, s: State) {
    ThreadsGood(truths, s) && Exclusive(s) && BooksGood(truths, s)
  }

  ghost predicate Inv(truths: Truths, s: State) {
    BookInv(truths, s) && MessagesGood(truths, s)
  }

  /** One thread moves, touching at most one book that nobody else is inside of. */
  lemma OneThreadMoves(truths: Truths, s: State, s': State, a: Thread, touched: Option<nat>)
    requires BookInv(truths, s) && |s.heap| <= |s'.heap|
    requires forall t | t != a :: ActivityOf(s', t) == ActivityOf(s, t)
    requires forall id | 0 <= id < |s.heap| && Some(id) != touched :: s'.heap[id] == s.heap[id]
    requires touched.Some? ==> forall t | t != a :: !Inside(s, t, touched.value)
    requires ActivityOf(s, a).Some? ==> touched == Some(ActivityOf(s, a).value.id)
    requires ActivityOf(s', a).Some? ==>
      var act := ActivityOf(s', a).value;
      ActivityGood(truths, s', act) && (touched == Some(act.id) || act.id >= |s.heap|)
    requires forall id | 0 <= id < |s'.heap| && (Some(id) == touched || id >= |s.heap|) ::
      Agrees(truths(s'.heap[id].venue), s'.heap[id].book) || Inside(s', a, id)
    ensures BookInv(truths, s')
  {
    forall t | ActivityOf(s', t).Some? ensures ActivityGood(truths, s', ActivityOf(s', t).value) {
      if t != a {
        var act := ActivityOf(s, t).value;
        assert ActivityGood(truths, s, act) && Inside(s, t, act.id);
      }
    }
    forall id | 0 <= id < |s'.heap| ensures BookGood(truths, s', id) {
      if id < |s.heap| && Some(id) != touched {
        assert BookGood(truths, s, id);
        if t :| Inside(s, t, id) {
          assert t != a && Inside(s', t, id);
        }
      }
    }
    forall t, u | t != u && ActivityOf(s', t).Some? && ActivityOf(s', u).Some?
      ensures ActivityOf(s', t).value.id != ActivityOf(s', u).value.id
    {
      if t == a {
        assert ActivityGood(truths, s, ActivityOf(s, u).value) && !(touched.Some? && Inside(s, u, touched.value));
      } else if u == a {
        assert ActivityGood(truths, s, ActivityOf(s, t).value) && !(touched.Some? && Inside(s, t, touched.value));
      }
    }
  }

  lemma BeginKeepsAgreement(truth: Truth, exchange: Exchange, book: Book, m: Message)
    requires Agrees(truth, book) && Honest(truth, exchange, m)
    ensures match Begin(exchange, book, m)
      case Over(_, after) => Agrees(truth, after)
      case Entered(after, edits) => WillAgree(truth, after, edits)
  {
    UpdateKeepsAgreement(truth, exchange, book, m);
    if Begin(exchange, book, m).Entered? {
      EnteredWillAgree(truth, exchange, book, m.update);
    }
  }

  // ------------------------------------------------- each step keeps the books in order

  /** Nobody inside a book that is touched undisturbed by a thread outside of it. */
  lemma UntouchedAgrees(truths: Truths, s: State, a: Thread, id: nat)
    requires BookInv(truths, s) && id < |s.heap|
    requires forall t | t != a :: !Inside(s, t, id)
    requires !Inside(s, a, id)
    ensures Agrees(truths(s.heap[id].venue), s.heap[id].book)
  {
    assert BookGood(truths, s, id);
  }

  ghost predicate Alone(s: State, a: Thread, id: nat) {
    && (forall t | t != a :: !Inside(s, t, id))
    && (ActivityOf(s, a).Some? ==> ActivityOf(s, a).value.id == id)
  }

  /** A thread that is alone with a book writes it and moves on: inside, if the remaining edits
      will complete the book, or outside, if it already agrees. */
  lemma SyncWrites(truths: Truths, s: State, v: Venue, id: nat, book: Book, pc: SyncThread)
    requires BookInv(truths, s) && id < |s.heap| && Alone(s, SyncOf(v), id)
    requires pc.Editing? ==> pc.id == id && WillAgree(truths(s.heap[id].venue), book, pc.edits)
    requires !pc.Sorting? && (!pc.Editing? ==> Agrees(truths(s.heap[id].venue), book))
    ensures BookInv(truths, s.(heap := SetBook(s.heap, id, book)).Put(v, s.At(v).(sync := pc)))
  {
    OneThreadMoves(truths, s, s.(heap := SetBook(s.heap, id, book)).Put(v, s.At(v).(sync := pc)), SyncOf(v), Some(id));
  }

  lemma CallbackWrites(truths: Truths, s: State, k: nat, id: nat, book: Book, pc: CallbackPc)
    requires BookInv(truths, s) && k in s.callbacks && id < |s.heap| && Alone(s, CallbackOf(k), id)
    requires pc.Changing? ==> pc.id == id && WillAgree(truths(s.heap[id].venue), book, pc.edits)
    requires !pc.Changing? ==> Agrees(truths(s.heap[id].venue), book)
    ensures BookInv(truths, WithPc(s.(heap := SetBook(s.heap, id, book)), k, pc))
  {
    OneThreadMoves(truths, s, WithPc(s.(heap := SetBook(s.heap, id, book)), k, pc), CallbackOf(k), Some(id));
  }

  lemma FetchingKeepsBooks(truths: Truths, s: State, v: Venue, answer: Option<Message>)
    requires BookInv(truths, s) && SyncEnabled(s, v, answer) && s.At(v).sync == Fetching
    requires answer.Some? ==> Honest(truths(v), s.At(v).exchange, answer.value)
    ensures BookInv(truths, AfterSyncStep(s, v, answer))
  {
    if answer.Some? {
      InstalledAgrees(truths(v), s.At(v).exchange, answer.value);
    }
    OneThreadMoves(truths, s, AfterSyncStep(s, v, answer), SyncOf(v), None);
  }

  lemma SortingKeepsBooks(truths: Truths, s: State, v: Venue, id: nat)
    requires BookInv(truths, s) && SyncEnabled(s, v, None) && s.At(v).sync == Sorting(id) && Alone(s, SyncOf(v), id)
    ensures BookInv(truths, AfterSyncStep(s, v, None))
  {
    assert ActivityGood(truths, s, ActivityOf(s, SyncOf(v)).value);
    var b := s.heap[id].book;
    SyncWrites(truths, s, v, id, b.(ask := SortByPrice(Ask, b.ask), bid := SortByPrice(Bid, b.bid)), CheckingBuy(id));
  }

  lemma ApplyingKeepsBooks(truths: Truths, s: State, v: Venue, id: nat, m: Message)
    requires BookInv(truths, s) && SyncEnabled(s, v, None) && s.At(v).sync == Applying(id, m) && Alone(s, SyncOf(v), id)
    requires s.heap[id].venue == v && Honest(truths(v), s.At(v).exchange, m)
    ensures BookInv(truths, AfterSyncStep(s, v, None))
  {
    UntouchedAgrees(truths, s, SyncOf(v), id);
    BeginKeepsAgreement(truths(v), s.At(v).exchange, s.heap[id].book, m);
    match Begin(s.At(v).exchange, s.heap[id].book, m) {
      case Entered(book, edits) => SyncWrites(truths, s, v, id, book, Editing(id, edits));
      case Over(outcome, book) => SyncWrites(truths, s, v, id, book, AfterSyncStep(s, v, None).At(v).sync);
    }
  }

  lemma EditingKeepsBooks(truths: Truths, s: State, v: Venue, id: nat, edits: seq<LevelEdit>)
    requires BookInv(truths, s) && SyncEnabled(s, v, None) && s.At(v).sync == Editing(id, edits)
      && Alone(s, SyncOf(v), id)
    ensures BookInv(truths, AfterSyncStep(s, v, None))
  {
    var o := s.heap[id];
    assert ActivityGood(truths, s, ActivityOf(s, SyncOf(v)).value);
    if edits != [] {
      EditedWillAgree(truths(o.venue), o.book, edits);
      SyncWrites(truths, s, v, id, ApplyEdit(o.book, edits[0]).value, Editing(id, edits[1..]));
    } else {
      SyncWrites(truths, s, v, id, o.book, CheckingBuy(id));
      assert SetBook(s.heap, id, o.book) == s.heap;
    }
  }

  predicate ChangesBooks(t: SyncThread) { t.Fetching? || t.Sorting? || t.Applying? || t.Editing? }

  lemma SyncStepKeepsBooks(truths: Truths, s: State, v: Venue, answer: Option<Message>)
    requires BookInv(truths, s) && HalfGood(truths, s, v) && SyncEnabled(s, v, answer)
    requires Undisturbed(s, SyncStep(v, answer)) && HonestStep(truths, s, SyncStep(v, answer))
    ensures BookInv(truths, AfterSyncStep(s, v, answer))
  {
    var touched := Touched(s, SyncStep(v, answer));
    assert touched.Some? ==> Alone(s, SyncOf(v), touched.value);
    match s.At(v).sync {
      case Fetching => FetchingKeepsBooks(truths, s, v, answer);
      case Sorting(id) => SortingKeepsBooks(truths, s, v, id);
      case Applying(id, m) => ApplyingKeepsBooks(truths, s, v, id, m);
      case Editing(id, edits) => EditingKeepsBooks(truths, s, v, id, edits);
      case _ => SyncMovesOn(truths, s, v, answer);
    }
  }

  lemma SyncMovesOn(truths: Truths, s: State, v: Venue, answer: Option<Message>)
    requires BookInv(truths, s) && SyncEnabled(s, v, answer) && !ChangesBooks(s.At(v).sync)
    ensures BookInv(truths, AfterSyncStep(s, v, answer))
  {
    var s' := AfterSyncStep(s, v, answer);
    assert s'.heap == s.heap && s'.callbacks == s.callbacks && !s'.At(v).sync.Sorting? && !s'.At(v).sync.Editing?;
    NobodyMoves(truths, s, s');
  }

  lemma EnteringKeepsBooks(truths: Truths, s: State, k: nat, id: nat)
    requires BookInv(truths, s) && CallbackEnabled(s, k) && s.callbacks[k].pc == Entering(id)
      && Alone(s, CallbackOf(k), id)
    requires CallbackGood(truths, s, k)
    ensures BookInv(truths, AfterCallbackStep(s, k))
  {
    var c, h := s.callbacks[k], s.At(s.callbacks[k].venue);
    UntouchedAgrees(truths, s, CallbackOf(k), id);
    BeginKeepsAgreement(truths(c.venue), h.exchange, s.heap[id].book, c.m);
    match Begin(h.exchange, s.heap[id].book, c.m) {
      case Entered(book, edits) => CallbackWrites(truths, s, k, id, book, Changing(id, edits));
      case Over(outcome, book) =>
        CallbackWrites(truths, s, k, id, book, if outcome == Failure then StoppingSell else Returned);
    }
  }

  lemma ChangingKeepsBooks(truths: Truths, s: State, k: nat, id: nat, edits: seq<LevelEdit>)
    requires BookInv(truths, s) && CallbackEnabled(s, k) && s.callbacks[k].pc == Changing(id, edits)
    requires Alone(s, CallbackOf(k), id)
    ensures BookInv(truths, AfterCallbackStep(s, k))
  {
    var o := s.heap[id];
    assert ActivityGood(truths, s, ActivityOf(s, CallbackOf(k)).value);
    if edits != [] {
      EditedWillAgree(truths(o.venue), o.book, edits);
      CallbackWrites(truths, s, k, id, ApplyEdit(o.book, edits[0]).value, Changing(id, edits[1..]));
    } else {
      CallbackWrites(truths, s, k, id, o.book, Returned);
      assert SetBook(s.heap, id, o.book) == s.heap;
    }
  }

  lemma CallbackMovesOn(truths: Truths, s: State, k: nat)
    requires BookInv(truths, s) && CallbackEnabled(s, k)
    requires !s.callbacks[k].pc.Entering? && !s.callbacks[k].pc.Changing?
    ensures BookInv(truths, AfterCallbackStep(s, k))
  {
    var s' := AfterCallbackStep(s, k);
    assert s'.heap == s.heap && s'.callbacks.Keys == s.callbacks.Keys && !s'.callbacks[k].pc.Changing?;
    NobodyMoves(truths, s, s');
  }

  lemma CallbackStepKeepsBooks(truths: Truths, s: State, k: nat)
    requires BookInv(truths, s) && CallbackEnabled(s, k) && CallbackGood(truths, s, k)
    requires Undisturbed(s, CallbackStep(k))
    ensures BookInv(truths, AfterCallbackStep(s, k))
  {
    var touched := Touched(s, CallbackStep(k));
    assert touched.Some? ==> Alone(s, CallbackOf(k), touched.value) by {
      assert forall t | t != CallbackOf(k) :: !IsActor(CallbackStep(k), t);
    }
    match s.callbacks[k].pc {
      case Entering(id) => EnteringKeepsBooks(truths, s, k, id);
      case Changing(id, edits) => ChangingKeepsBooks(truths, s, k, id, edits);
      case _ => CallbackMovesOn(truths, s, k);
    }
  }

  /** A step that leaves every thread where it is inside the books, and every old book as it is. */
  lemma NobodyMoves(truths: Truths, s: State, s': State)
    requires BookInv(truths, s) && s.heap <= s'.heap
    requires forall t :: ActivityOf(s', t) == ActivityOf(s, t)
    requires forall id | |s.heap| <= id < |s'.heap| :: s'.heap[id].book == EMPTY_BOOK
    ensures BookInv(truths, s')
  {
    forall t | ActivityOf(s', t).Some? ensures ActivityGood(truths, s', ActivityOf(s', t).value) {
      assert ActivityGood(truths, s, ActivityOf(s, t).value);
    }
    forall id | 0 <= id < |s'.heap| ensures BookGood(truths, s', id) {
      if id < |s.heap| {
        assert BookGood(truths, s, id);
        if t :| Inside(s, t, id) {
          assert Inside(s', t, id);
        }
      }
    }
  }

  /** Starting and stopping a subscription, and moving along a receive loop. */
  ghost predicate OnlySwitches(s: State, s': State) {
    && s'.main == s.main && s'.stage == s.stage && s'.heap == s.heap && s'.callbacks == s.callbacks
    && s'.sell == s.sell.(running := s'.sell.running) && s'.buy == s.buy.(running := s'.buy.running)
  }

  predicate IsSwitch(step: Step) { step.StopSubscription? || step.ReceiverStep? || step.Break? }

  lemma SwitchedOnlySwitches(s: State, s': State, v: Venue, running: bool, r: nat, pc: ReceiverPc)
    requires r < |s.receivers| && s' == WithReceiver(Switched(s, v, running), r, pc)
    ensures OnlySwitches(s, s')
  {
  }

  lemma ReceiverStepOnlySwitches(s: State, r: nat)
    requires ReceiverEnabled(s, r)
    ensures OnlySwitches(s, AfterReceiverStep(s, r))
  {
    var v, s' := s.receivers[r].venue, AfterReceiverStep(s, r);
    match s.receivers[r].pc {
      case Spawned => SwitchedOnlySwitches(s, s', v, true, r, Checking);
      case Leaving => SwitchedOnlySwitches(s, s', v, false, r, Ended);
      case _ =>
    }
  }

  lemma SwitchesOnlySwitch(s: State, step: Step)
    requires Enabled(s, step) && IsSwitch(step)
    ensures OnlySwitches(s, After(s, step))
  {
    match step {
      case ReceiverStep(r) => ReceiverStepOnlySwitches(s, r);
      case _ =>
    }
  }

  lemma MainStepKeepsBooks(truths: Truths, s: State)
    requires BookInv(truths, s)
    requires s.main == SpawnSyncThreads ==> s.sell.sync == Finished && s.buy.sync == Finished
    ensures BookInv(truths, AfterMain(s))
  {
    NobodyMoves(truths, s, AfterMain(s));
  }

  /** The main thread only clears, replaces and spawns; subscriptions and deliveries touch no book. */
  lemma OtherStepKeepsBooks(truths: Truths, s: State, step: Step)
    requires BookInv(truths, s) && Enabled(s, step) && !step.SyncStep? && !step.CallbackStep?
    requires s.main == SpawnSyncThreads ==> s.sell.sync == Finished && s.buy.sync == Finished
    ensures BookInv(truths, After(s, step))
  {
    if step.MainStep? {
      MainStepKeepsBooks(truths, s);
    } else {
      if IsSwitch(step) {
        SwitchesOnlySwitch(s, step);
      }
      NobodyMoves(truths, s, After(s, step));
    }
  }

  // ------------------------------------------------------ each step keeps the messages honest

  lemma RefsSurvive(s: State, s': State, v: Venue, ref: Option<nat>)
    requires RefGood(s, v, ref) && |s.heap| <= |s'.heap|
    requires forall id | 0 <= id < |s.heap| :: s'.heap[id].venue == s.heap[id].venue
    ensures RefGood(s', v, ref)
  {
  }

  /** What a step may do to the parts of the state that messages and references live in. */
  ghost predicate KeepsVenues(s: State, s': State) {
    && |s.heap| <= |s'.heap|
    && (forall id | 0 <= id < |s.heap| :: s'.heap[id].venue == s.heap[id].venue)
    && s'.sell.exchange == s.sell.exchange && s'.buy.exchange == s.buy.exchange
  }

  ghost predicate HalfMoves(truths: Truths, s: State, s': State, v: Venue) {
    var h, h' := s.At(v), s'.At(v);
    && (forall i | 0 <= i < |h'.queue| :: h'.queue[i] in h.queue || Honest(truths(v), h.exchange, h'.queue[i]))
    && (h'.sync.Applying? ==> h'.sync == h.sync || h'.sync.m in h.queue)
    && (BookOf(h'.sync) == BookOf(h.sync) || RefGood(s', v, BookOf(h'.sync)))
    && (h'.current == h.current || RefGood(s', v, h'.current))
  }

  lemma HalfStaysGood(truths: Truths, s: State, s': State, v: Venue)
    requires HalfGood(truths, s, v) && KeepsVenues(s, s') && HalfMoves(truths, s, s', v)
    ensures HalfGood(truths, s', v)
  {
  }

  ghost predicate CallbacksMove(truths: Truths, s: State, s': State) {
    forall k | k in s'.callbacks ::
      || (k in s.callbacks && s'.callbacks[k].venue == s.callbacks[k].venue && s'.callbacks[k].m == s.callbacks[k].m
          && (RefOf(s'.callbacks[k].pc) == RefOf(s.callbacks[k].pc)
              || RefGood(s', s.callbacks[k].venue, RefOf(s'.callbacks[k].pc))))
      || CallbackGood(truths, s', k)
  }

  lemma MessagesStayGood(truths: Truths, s: State, s': State)
    requires MessagesGood(truths, s) && KeepsVenues(s, s')
    requires HalfMoves(truths, s, s', Sell) && HalfMoves(truths, s, s', Buy) && CallbacksMove(truths, s, s')
    ensures MessagesGood(truths, s')
  {
    HalfStaysGood(truths, s, s', Sell);
    HalfStaysGood(truths, s, s', Buy);
    forall k | k in s'.callbacks ensures CallbackGood(truths, s', k) {
      if k in s.callbacks && s'.callbacks[k].venue == s.callbacks[k].venue && s'.callbacks[k].m == s.callbacks[k].m {
        assert CallbackGood(truths, s, k);
        RefsSurvive(s, s', s.callbacks[k].venue, RefOf(s.callbacks[k].pc));
      }
    }
  }

  /** How one venue's fields may change in a step, in terms of the old ones and of the heap. */
  ghost predicate HalfShape(s: State, s': State, v: Venue) {
    var h, h' := s.At(v), s'.At(v);
    && (forall i | 0 <= i < |h'.queue| :: h'.queue[i] in h.queue)
    && (h'.sync.Applying? ==> h'.sync == h.sync || h'.sync.m in h.queue)
    && (BookOf(h'.sync) in {None, BookOf(h.sync)} || IsNew(s, s', v, BookOf(h'.sync)))
    && (h'.current in {None, h.current} || IsNew(s, s', v, h'.current))
  }

  ghost predicate IsNew(s: State, s': State, v: Venue, ref: Option<nat>) {
    ref == Some(|s.heap|) && |s'.heap| == |s.heap| + 1 && s'.heap[|s.heap|].venue == v
  }

  lemma ShapeIsEnough(truths: Truths, s: State, s': State, v: Venue)
    requires HalfShape(s, s', v)
    ensures HalfMoves(truths, s, s', v)
  {
  }

  lemma SyncStepKeepsTheRest(s: State, v: Venue, answer: Option<Message>)
    requires SyncEnabled(s, v, answer)
    ensures
      var s' := AfterSyncStep(s, v, answer);
      && s'.callbacks == s.callbacks && s'.receivers == s.receivers && s'.main == s.main && s'.stage == s.stage
      && s'.At(Other(v)) == s.At(Other(v))
  {
  }

  lemma SyncStepKeepsVenues(s: State, v: Venue, answer: Option<Message>)
    requires SyncEnabled(s, v, answer)
    ensures KeepsVenues(s, AfterSyncStep(s, v, answer))
  {
  }

  lemma FetchShape(s: State, v: Venue, answer: Option<Message>)
    requires SyncEnabled(s, v, answer) && s.At(v).sync.Fetching?
    ensures HalfShape(s, AfterSyncStep(s, v, answer), v)
  {
  }

  lemma DequeuingShape(s: State, v: Venue, answer: Option<Message>)
    requires SyncEnabled(s, v, answer) && s.At(v).sync.Dequeuing?
    ensures HalfShape(s, AfterSyncStep(s, v, answer), v)
  {
    var h, h' := s.At(v), AfterSyncStep(s, v, answer).At(v);
    if h.queue != [] {
      assert h'.queue == h.queue[1..] && h'.sync.m == h.queue[0];
    }
  }

  lemma SameQueueShape(s: State, s': State, v: Venue)
    requires s'.At(v).queue == s.At(v).queue && s'.At(v).current == s.At(v).current && !s'.At(v).sync.Applying?
    requires BookOf(s'.At(v).sync) in {None, BookOf(s.At(v).sync)}
    ensures HalfShape(s, s', v)
  {
  }

  lemma QuietShape(s: State, v: Venue, answer: Option<Message>)
    requires SyncEnabled(s, v, answer) && !s.At(v).sync.Fetching? && !s.At(v).sync.Dequeuing?
    ensures HalfShape(s, AfterSyncStep(s, v, answer), v)
  {
    SameQueueShape(s, AfterSyncStep(s, v, answer), v);
  }

  lemma SyncStepShape(s: State, v: Venue, answer: Option<Message>)
    requires SyncEnabled(s, v, answer)
    ensures HalfShape(s, AfterSyncStep(s, v, answer), v)
  {
    if s.At(v).sync.Fetching? {
      FetchShape(s, v, answer);
    } else if s.At(v).sync.Dequeuing? {
      DequeuingShape(s, v, answer);
    } else {
      QuietShape(s, v, answer);
    }
  }

  lemma SyncStepKeepsMessages(truths: Truths, s: State, s': State, v: Venue, answer: Option<Message>)
    requires MessagesGood(truths, s) && SyncEnabled(s, v, answer) && s' == AfterSyncStep(s, v, answer)
    ensures MessagesGood(truths, s')
  {
    SyncStepKeepsTheRest(s, v, answer);
    SyncStepKeepsVenues(s, v, answer);
    SyncStepShape(s, v, answer);
    ShapeIsEnough(truths, s, s', v);
    MessagesStayGood(truths, s, s');
  }

  lemma CallbackStepFrame(s: State, k: nat)
    requires CallbackEnabled(s, k)
    ensures
      var c, s' := s.callbacks[k], AfterCallbackStep(s, k);
      && KeepsVenues(s, s') && s'.main == s.main && s'.stage == s.stage && s'.receivers == s.receivers
      && k in s'.callbacks && s'.callbacks == s.callbacks[k := c.(pc := s'.callbacks[k].pc)]
      && s'.sell == s.sell.(running := s'.sell.running, queue := s'.sell.queue)
      && s'.buy == s.buy.(running := s'.buy.running, queue := s'.buy.queue)
  {
  }

  lemma CallbackStepShape(s: State, k: nat)
    requires CallbackEnabled(s, k)
    ensures
      var c, s' := s.callbacks[k], AfterCallbackStep(s, k);
      && s'.sell.queue == (if c.pc.Putting? && c.venue == Sell then s.sell.queue + [c.m] else s.sell.queue)
      && s'.buy.queue == (if c.pc.Putting? && c.venue == Buy then s.buy.queue + [c.m] else s.buy.queue)
      && k in s'.callbacks && RefOf(s'.callbacks[k].pc) in {None, RefOf(c.pc), s.At(c.venue).current}
  {
  }

  lemma CallbackStepKeepsMessages(truths: Truths, s: State, s': State, k: nat)
    requires MessagesGood(truths, s) && CallbackEnabled(s, k) && s' == AfterCallbackStep(s, k)
    ensures MessagesGood(truths, s')
  {
    assert CallbackGood(truths, s, k);
    CallbackStepFrame(s, k);
    CallbackStepShape(s, k);
    var v := s.callbacks[k].venue;
    RefsSurvive(s, s', v, s.At(v).current);
    MessagesStayGood(truths, s, s');
  }

  lemma MainStepFrame(s: State)
    ensures KeepsVenues(s, AfterMain(s)) && AfterMain(s).callbacks == s.callbacks
  {
  }

  lemma MainStepShape(s: State, v: Venue)
    ensures HalfShape(s, AfterMain(s), v)
  {
  }

  lemma MainStepKeepsMessages(truths: Truths, s: State, s': State)
    requires MessagesGood(truths, s) && s' == AfterMain(s)
    ensures MessagesGood(truths, s')
  {
    MainStepFrame(s);
    MainStepShape(s, Sell);
    MainStepShape(s, Buy);
    ShapeIsEnough(truths, s, s', Sell);
    ShapeIsEnough(truths, s, s', Buy);
    MessagesStayGood(truths, s, s');
  }

  lemma DeliveryKeepsMessages(truths: Truths, s: State, step: Step)
    requires MessagesGood(truths, s) && step.Deliver? && Enabled(s, step) && HonestStep(truths, s, step)
    ensures MessagesGood(truths, After(s, step))
  {
    MessagesStayGood(truths, s, After(s, step));
  }

  lemma SwitchingKeepsMessages(truths: Truths, s: State, s': State)
    requires MessagesGood(truths, s) && OnlySwitches(s, s')
    ensures MessagesGood(truths, s')
  {
    MessagesStayGood(truths, s, s');
  }
}
