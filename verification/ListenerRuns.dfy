/**
 * What holds in every state of every run of the synchronisation protocol.
 */
module ListenerRuns {
  import opened OrderBooks
  import opened BookUpdates
  import opened Exchanges
  import opened Wrappers
  import opened ListenerSteps
  import opened ListenerSafety

  // -------------------------------------------------------------- stage, flags, threads

  /** The part of a reset in which nothing may reach the books: the stage is RESETTING throughout. */
  predicate Clearing(main: Main) {
    main in {ClearSellQueue, ClearBuyQueue, NewSellBook, NewBuyBook, UnsyncSell, UnsyncBuy, SetBeforeSync}
  }

  /** Sync threads live only while the main thread waits for them, and AFTER_SYNC is set only
      while both books are marked synced. */
  ghost predicate Control(s: State) {
    && (Clearing(s.main) ==> s.stage == Resetting)
    && (s.main != JoinSyncThreads ==> s.sell.sync == Finished && s.buy.sync == Finished)
    && (s.stage == AfterSync ==> s.main == Live)
    && (s.stage == AfterSync || s.main == SetAfterSync ==> s.sell.synced && s.buy.synced)
    && (s.main in {UnsyncBuy, SetBeforeSync, SpawnReceivers, SpawnSyncThreads} ==> !s.sell.synced)
    && (s.main in {SetBeforeSync, SpawnReceivers, SpawnSyncThreads} ==> !s.buy.synced)
    && (s.sell.synced ==> s.sell.sync == Finished)
    && (s.buy.synced ==> s.buy.sync == Finished)
  }

  lemma SyncStepKeepsControl(s: State, v: Venue, answer: Option<Message>)
    requires Control(s) && SyncEnabled(s, v, answer)
    ensures Control(AfterSyncStep(s, v, answer))
  {
    SyncStepKeepsTheRest(s, v, answer);
  }

  lemma StepKeepsControl(s: State, step: Step)
    requires Control(s) && Enabled(s, step)
    ensures Control(After(s, step))
  {
    match step {
      case SyncStep(v, answer) => SyncStepKeepsControl(s, v, answer);
      case CallbackStep(k) => CallbackStepFrame(s, k);
      case MainStep =>
      case Deliver(_, _, _) =>
      case _ => SwitchesOnlySwitch(s, step);
    }
  }

  // ------------------------------------------------------------------- snapshots in place

  predicate NeedsSnapshot(exchange: Exchange) { exchange in {Binance, Bittrex} }

  predicate HasSnapshot(s: State, id: Option<nat>) {
    id.Some? && id.value < |s.heap| && s.heap[id.value].book.sequenceId.Some?
  }

  /** A book that needs a snapshot has one as soon as it is marked synced, until the next reset
      replaces it; while a sync thread works on a book, the listener's field refers to it. */
  ghost predicate HalfInstalled(s: State, v: Venue) {
    var h := s.At(v);
    && (BookOf(h.sync).Some? ==> h.current == BookOf(h.sync) && HasSnapshot(s, h.current))
    && (h.sync == Marking(true) && NeedsSnapshot(h.exchange) ==> HasSnapshot(s, h.current))
    && (h.sync == Fetching ==> NeedsSnapshot(h.exchange))
    && (Receiving(s.main) && h.synced && NeedsSnapshot(h.exchange) ==> HasSnapshot(s, h.current))
  }

  ghost predicate InstalledInv(s: State) {
    HalfInstalled(s, Sell) && HalfInstalled(s, Buy)
  }

  /** No step takes an id away from a book object. */
  ghost predicate KeepsIds(s: State, s': State) {
    && |s.heap| <= |s'.heap|
    && (forall id | 0 <= id < |s.heap| && s.heap[id].book.sequenceId.Some? :: s'.heap[id].book.sequenceId.Some?)
  }

  lemma BeginKeepsTheId(exchange: Exchange, book: Book, m: Message)
    ensures book.sequenceId.Some? ==> Begin(exchange, book, m).book.sequenceId.Some?
  {
  }

  lemma ApplyEditKeepsTheId(book: Book, e: LevelEdit)
    ensures ApplyEdit(book, e).Some? ==> ApplyEdit(book, e).value.sequenceId == book.sequenceId
  {
  }

  lemma SyncStepKeepsIds(s: State, v: Venue, answer: Option<Message>)
    requires SyncEnabled(s, v, answer)
    ensures KeepsIds(s, AfterSyncStep(s, v, answer))
  {
    match s.At(v).sync {
      case Applying(id, m) => BeginKeepsTheId(s.At(v).exchange, s.heap[id].book, m);
      case Editing(id, edits) => if edits != [] { ApplyEditKeepsTheId(s.heap[id].book, edits[0]); }
      case _ =>
    }
  }

  lemma CallbackStepKeepsIds(s: State, k: nat)
    requires CallbackEnabled(s, k)
    ensures KeepsIds(s, AfterCallbackStep(s, k))
  {
    var c := s.callbacks[k];
    match c.pc {
      case Entering(id) => BeginKeepsTheId(s.At(c.venue).exchange, s.heap[id].book, c.m);
      case Changing(id, edits) => if edits != [] { ApplyEditKeepsTheId(s.heap[id].book, edits[0]); }
      case _ =>
    }
  }

  lemma InstalledSurvives(s: State, s': State, v: Venue)
    requires HalfInstalled(s, v) && KeepsIds(s, s') && s'.main == s.main
    requires s'.At(v) == s.At(v).(running := s'.At(v).running, queue := s'.At(v).queue)
    ensures HalfInstalled(s', v)
  {
  }

  lemma FetchInstalls(s: State, v: Venue, answer: Option<Message>)
    requires HalfInstalled(s, v) && Control(s) && SyncEnabled(s, v, answer) && s.At(v).sync == Fetching
    ensures HalfInstalled(AfterSyncStep(s, v, answer), v)
  {
  }

  lemma MarkingInstalls(s: State, v: Venue, answer: Option<Message>)
    requires HalfInstalled(s, v) && Control(s) && SyncEnabled(s, v, answer) && s.At(v).sync.Marking?
    ensures HalfInstalled(AfterSyncStep(s, v, answer), v)
  {
  }

  lemma OtherStepInstalls(s: State, v: Venue, answer: Option<Message>)
    requires HalfInstalled(s, v) && Control(s) && SyncEnabled(s, v, answer)
    requires s.At(v).sync != Fetching && !s.At(v).sync.Marking?
    ensures HalfInstalled(AfterSyncStep(s, v, answer), v)
  {
    SyncStepKeepsIds(s, v, answer);
    assert AfterSyncStep(s, v, answer).At(v).current == s.At(v).current;
  }

  lemma SyncStepInstalls(s: State, v: Venue, answer: Option<Message>)
    requires HalfInstalled(s, v) && Control(s) && SyncEnabled(s, v, answer)
    ensures HalfInstalled(AfterSyncStep(s, v, answer), v)
  {
    if s.At(v).sync == Fetching {
      FetchInstalls(s, v, answer);
    } else if s.At(v).sync.Marking? {
      MarkingInstalls(s, v, answer);
    } else {
      OtherStepInstalls(s, v, answer);
    }
  }

  lemma SyncStepKeepsInstalled(s: State, v: Venue, answer: Option<Message>)
    requires InstalledInv(s) && Control(s) && SyncEnabled(s, v, answer)
    ensures InstalledInv(AfterSyncStep(s, v, answer))
  {
    SyncStepKeepsTheRest(s, v, answer);
    SyncStepKeepsIds(s, v, answer);
    SyncStepInstalls(s, v, answer);
    InstalledSurvives(s, AfterSyncStep(s, v, answer), Other(v));
  }

  lemma CallbackStepKeepsInstalled(s: State, k: nat)
    requires InstalledInv(s) && CallbackEnabled(s, k)
    ensures InstalledInv(AfterCallbackStep(s, k))
  {
    CallbackStepFrame(s, k);
    CallbackStepKeepsIds(s, k);
    InstalledSurvives(s, AfterCallbackStep(s, k), Sell);
    InstalledSurvives(s, AfterCallbackStep(s, k), Buy);
  }

  lemma ClearingInstalls(s: State, v: Venue)
    requires HalfInstalled(s, v) && Control(s) && Clearing(s.main)
    ensures HalfInstalled(AfterMain(s), v)
  {
  }

  lemma MainStepInstalls(s: State, v: Venue)
    requires HalfInstalled(s, v) && Control(s) && Enabled(s, MainStep)
    ensures HalfInstalled(AfterMain(s), v)
  {
    if Clearing(s.main) {
      ClearingInstalls(s, v);
    }
  }

  lemma MainStepKeepsInstalled(s: State)
    requires InstalledInv(s) && Control(s) && Enabled(s, MainStep)
    ensures InstalledInv(AfterMain(s))
  {
    MainStepInstalls(s, Sell);
    MainStepInstalls(s, Buy);
  }

  lemma OtherStepKeepsInstalled(s: State, step: Step)
    requires InstalledInv(s) && Enabled(s, step) && (IsSwitch(step) || step.Deliver?)
    ensures InstalledInv(After(s, step))
  {
    if IsSwitch(step) {
      SwitchesOnlySwitch(s, step);
    }
  }

  lemma StepKeepsInstalled(s: State, step: Step)
    requires InstalledInv(s) && Control(s) && Enabled(s, step)
    ensures InstalledInv(After(s, step))
  {
    match step {
      case SyncStep(v, answer) => SyncStepKeepsInstalled(s, v, answer);
      case CallbackStep(k) => CallbackStepKeepsInstalled(s, k);
      case MainStep => MainStepKeepsInstalled(s);
      case _ => OtherStepKeepsInstalled(s, step);
    }
  }

  // --------------------------------------------------------------- callbacks one at a time

  predicate Receiving(main: Main) {
    main in {Live, JoinSyncThreads, LookAtFlags, SetAfterSync, ShutSell, ShutBuy}
  }

  /** What a reset waits for besides both subscriptions being down: nothing, as in the source, the
      callbacks in flight, or the receive loops themselves. */
  datatype Patience = ForFlags | ForCallbacks | ForReceivers

  predicate AllReturned(s: State) { forall k | k in s.callbacks :: s.callbacks[k].pc == Returned }

  predicate AllEnded(s: State) { forall r | 0 <= r < |s.receivers| :: s.receivers[r].pc == Ended }

  predicate Waits(p: Patience, s: State, step: Step) {
    step.MainStep? && s.main == Live ==>
      match p
      case ForFlags => true
      case ForCallbacks => AllReturned(s)
      case ForReceivers => AllEnded(s)
  }

  predicate MayUpdate(pc: CallbackPc) {
    || pc in {CheckingBuySubscription(AfterSync), CheckingSellSubscription(AfterSync), Calling}
    || pc.Entering? || pc.Changing?
  }

  /** Its receiver is busy with it. */
  predicate InHand(s: State, k: nat)
    requires k in s.callbacks
  {
    var c := s.callbacks[k];
    c.receiver < |s.receivers| && s.receivers[c.receiver] == Receiver(c.venue, Handling(k))
  }

  predicate CallbackSerial(s: State, k: nat)
    requires k in s.callbacks
  {
    var c := s.callbacks[k];
    && (c.pc != Returned ==> InHand(s, k))
    && (MayUpdate(c.pc) ==> s.At(c.venue).synced)
  }

  /** Each venue has at most one receiver that has not ended. */
  predicate ReceiversApart(s: State) {
    forall q, r | 0 <= q < r < |s.receivers| && s.receivers[q].venue == s.receivers[r].venue ::
      s.receivers[q].pc == Ended || s.receivers[r].pc == Ended
  }

  ghost predicate SerialInv(s: State) {
    && ReceiversApart(s)
    && (Clearing(s.main) || s.main == SpawnReceivers ==> AllEnded(s))
    && forall k | k in s.callbacks :: CallbackSerial(s, k)
  }

  /** Two callbacks of one venue are never in flight together. */
  lemma OneInFlight(s: State, j: nat, k: nat)
    requires SerialInv(s) && j in s.callbacks && k in s.callbacks && s.callbacks[j].venue == s.callbacks[k].venue
    requires s.callbacks[j].pc != Returned && s.callbacks[k].pc != Returned
    ensures j == k
  {
    assert CallbackSerial(s, j) && CallbackSerial(s, k);
  }

  lemma CallbackStepKeepsSerial(s: State, k: nat)
    requires SerialInv(s) && Control(s) && CallbackEnabled(s, k)
    ensures SerialInv(AfterCallbackStep(s, k))
  {
    CallbackStepFrame(s, k);
    var s' := AfterCallbackStep(s, k);
    assert CallbackSerial(s, k);
    forall j | j in s'.callbacks ensures CallbackSerial(s', j) {
      assert CallbackSerial(s, j);
    }
  }

  lemma SyncStepKeepsSerial(s: State, v: Venue, answer: Option<Message>)
    requires SerialInv(s) && Control(s) && SyncEnabled(s, v, answer)
    ensures SerialInv(AfterSyncStep(s, v, answer))
  {
    SyncStepKeepsTheRest(s, v, answer);
    var s' := AfterSyncStep(s, v, answer);
    forall j | j in s'.callbacks ensures CallbackSerial(s', j) {
      assert CallbackSerial(s, j);
    }
  }

  lemma MainStepKeepsSerial(s: State)
    requires SerialInv(s) && Control(s) && Enabled(s, MainStep) && Waits(ForReceivers, s, MainStep)
    ensures SerialInv(AfterMain(s))
  {
    var s' := AfterMain(s);
    MainStepFrame(s);
    assert s.receivers <= s'.receivers;
    forall j | j in s'.callbacks ensures CallbackSerial(s', j) {
      assert CallbackSerial(s, j);
    }
  }

  /** One receiver moves on, and none that is busy with a callback in flight. */
  lemma ReceiverMoves(s: State, s': State, r: nat, pc: ReceiverPc)
    requires SerialInv(s) && r < |s.receivers| && IsFree(s, r) && s.receivers[r].pc != Ended
    requires s'.receivers == s.receivers[r := s.receivers[r].(pc := pc)] && OnlySwitches(s, s')
    ensures SerialInv(s')
  {
    forall j | j in s'.callbacks ensures CallbackSerial(s', j) {
      assert CallbackSerial(s, j);
    }
  }

  lemma ReceiverStepKeepsSerial(s: State, r: nat)
    requires SerialInv(s) && ReceiverEnabled(s, r)
    ensures SerialInv(AfterReceiverStep(s, r))
  {
    var s' := AfterReceiverStep(s, r);
    SwitchesOnlySwitch(s, ReceiverStep(r));
    ReceiverMoves(s, s', r, s'.receivers[r].pc);
  }

  lemma DeliveryKeepsSerial(s: State, r: nat, k: nat, m: Message)
    requires SerialInv(s) && Enabled(s, Deliver(r, k, m)) && s.sell.exchange != s.buy.exchange
    ensures SerialInv(After(s, Deliver(r, k, m)))
  {
    var s' := After(s, Deliver(r, k, m));
    forall j | j in s'.callbacks ensures CallbackSerial(s', j) {
      if j in s.callbacks {
        assert CallbackSerial(s, j);
      }
    }
  }

  lemma StoppingKeepsSerial(s: State, v: Venue)
    requires SerialInv(s)
    ensures SerialInv(Switched(s, v, false))
  {
    var s' := Switched(s, v, false);
    forall j | j in s'.callbacks ensures CallbackSerial(s', j) {
      assert CallbackSerial(s, j);
    }
  }

  lemma StepKeepsSerial(s: State, step: Step)
    requires SerialInv(s) && Control(s) && Enabled(s, step) && Waits(ForReceivers, s, step)
    requires s.sell.exchange != s.buy.exchange
    ensures SerialInv(After(s, step))
  {
    match step {
      case SyncStep(v, answer) => SyncStepKeepsSerial(s, v, answer);
      case CallbackStep(k) => CallbackStepKeepsSerial(s, k);
      case MainStep => MainStepKeepsSerial(s);
      case ReceiverStep(r) => ReceiverStepKeepsSerial(s, r);
      case Break(r) => ReceiverMoves(s, After(s, step), r, Leaving);
      case Deliver(r, k, m) => DeliveryKeepsSerial(s, r, k, m);
      case StopSubscription(v) => StoppingKeepsSerial(s, v);
    }
  }

  /** Then no two threads are ever inside one book: a venue has one callback in flight, and the synced
      flag and the stage keep it out while the venue's sync thread works. */
  lemma SerialStepsAreUndisturbed(truths: Truths, s: State, step: Step)
    requires MessagesGood(truths, s) && SerialInv(s) && Control(s) && Enabled(s, step)
    ensures Undisturbed(s, step)
  {
    var touched := Touched(s, step);
    if touched.Some? {
      match step {
        case SyncStep(v, _) => assert HalfGood(truths, s, v);
        case CallbackStep(k) => assert CallbackGood(truths, s, k) && CallbackSerial(s, k);
      }
      forall t | !IsActor(step, t) ensures !Inside(s, t, touched.value) {
        if ActivityOf(s, t).Some? {
          InsideMeansOwnVenue(truths, s, t);
          if t.CallbackOf? {
            assert CallbackSerial(s, t.callback);
            if step.CallbackStep? {
              assert t.callback != step.callback;
              if s.callbacks[t.callback].venue == s.callbacks[step.callback].venue {
                OneInFlight(s, t.callback, step.callback);
              }
            }
          }
        }
      }
    }
  }

  lemma InsideMeansOwnVenue(truths: Truths, s: State, t: Thread)
    requires MessagesGood(truths, s) && ActivityOf(s, t).Some?
    ensures ActivityOf(s, t).value.id < |s.heap|
    ensures s.heap[ActivityOf(s, t).value.id].venue ==
      match t case SyncOf(v) => v case CallbackOf(k) => s.callbacks[k].venue
  {
    match t {
      case SyncOf(v) => assert HalfGood(truths, s, v);
      case CallbackOf(k) => assert CallbackGood(truths, s, k);
    }
  }

  // -------------------------------------------------------------------- the theorems

  ghost predicate StartsInitial(states: seq<State>) {
    states != [] && states[0].sell.exchange != states[0].buy.exchange
    && states[0] == Initial(states[0].sell.exchange, states[0].buy.exchange)
  }

  ghost predicate HonestRun(truths: Truths, states: seq<State>, steps: seq<Step>)
    requires |states| == |steps| + 1
  {
    forall i | 0 <= i < |steps| :: HonestStep(truths, states[i], steps[i])
  }

  /** AFTER_SYNC is seen only while both books are marked synced, and then every book that needs
      a snapshot has been given one: in every state of every run, however callbacks overlap and
      whatever the exchanges send. */
  lemma {:induction false} AfterSyncMeansBothSynced(states: seq<State>, steps: seq<Step>)
    requires IsRun(states, steps) && StartsInitial(states)
    ensures forall i | 0 <= i < |states| :: Control(states[i]) && InstalledInv(states[i])
    decreases |steps|
  {
    if steps != [] {
      var n := |steps| - 1;
      AfterSyncMeansBothSynced(states[..n + 1], steps[..n]);
      assert Control(states[..n + 1][n]) && InstalledInv(states[..n + 1][n]);
      assert Enabled(states[n], steps[n]) && states[n + 1] == After(states[n], steps[n]);
      StepKeepsControl(states[n], steps[n]);
      StepKeepsInstalled(states[n], steps[n]);
      forall i | 0 <= i < |states| ensures Control(states[i]) && InstalledInv(states[i]) {
        assert i == n + 1 || states[i] == states[..n + 1][i];
      }
    }
  }

  lemma StepKeepsMessages(truths: Truths, s: State, step: Step)
    requires MessagesGood(truths, s) && Enabled(s, step) && HonestStep(truths, s, step)
    ensures MessagesGood(truths, After(s, step))
  {
    match step {
      case SyncStep(v, answer) => SyncStepKeepsMessages(truths, s, After(s, step), v, answer);
      case CallbackStep(k) => CallbackStepKeepsMessages(truths, s, After(s, step), k);
      case MainStep => MainStepKeepsMessages(truths, s, After(s, step));
      case Deliver(_, _, _) => DeliveryKeepsMessages(truths, s, step);
      case _ =>
        SwitchesOnlySwitch(s, step);
        SwitchingKeepsMessages(truths, s, After(s, step));
    }
  }

  lemma StepKeepsInv(truths: Truths, s: State, step: Step)
    requires Inv(truths, s) && Control(s) && Enabled(s, step)
    requires Undisturbed(s, step) && HonestStep(truths, s, step)
    ensures Inv(truths, After(s, step))
  {
    StepKeepsMessages(truths, s, step);
    match step {
      case SyncStep(v, answer) => SyncStepKeepsBooks(truths, s, v, answer);
      case CallbackStep(k) => CallbackStepKeepsBooks(truths, s, k);
      case _ => OtherStepKeepsBooks(truths, s, step);
    }
  }

  /** In every run in which no two threads are inside one book at once, with any number of
      callbacks in flight and callbacks left over from before a reset, every book object that
      nobody is changing shows the true book of its exchange at its own id, up to dust, and every
      other one will when its thread is done. */
  lemma {:induction false} UndisturbedRunsAgree(truths: Truths, states: seq<State>, steps: seq<Step>)
    requires IsRun(states, steps) && StartsInitial(states) && HonestRun(truths, states, steps)
    requires forall i | 0 <= i < |steps| :: Undisturbed(states[i], steps[i])
    ensures forall i | 0 <= i < |states| :: Inv(truths, states[i])
    decreases |steps|
  {
    if steps != [] {
      var n := |steps| - 1;
      UndisturbedRunsAgree(truths, states[..n + 1], steps[..n]);
      AfterSyncMeansBothSynced(states, steps);
      assert Inv(truths, states[..n + 1][n]);
      assert Enabled(states[n], steps[n]) && states[n + 1] == After(states[n], steps[n]);
      StepKeepsInv(truths, states[n], steps[n]);
      forall i | 0 <= i < |states| ensures Inv(truths, states[i]) {
        assert i == n + 1 || states[i] == states[..n + 1][i];
      }
    }
  }

  /** If a reset waits for the receive loops to end, no two threads are ever inside one book, so the
      agreement holds in every state. */
  lemma {:induction false} SerialRunsAgree(truths: Truths, states: seq<State>, steps: seq<Step>)
    requires IsRun(states, steps) && StartsInitial(states) && HonestRun(truths, states, steps)
    requires forall i | 0 <= i < |steps| :: Waits(ForReceivers, states[i], steps[i])
    ensures forall i | 0 <= i < |steps| :: Undisturbed(states[i], steps[i])
    ensures forall i | 0 <= i < |states| :: Inv(truths, states[i]) && SerialInv(states[i])
    decreases |steps|
  {
    if steps != [] {
      var n := |steps| - 1;
      var front := states[..n + 1];
      SerialRunsAgree(truths, front, steps[..n]);
      AfterSyncMeansBothSynced(states, steps);
      var s := states[n];
      assert front[n] == s && Enabled(s, steps[n]) && states[n + 1] == After(s, steps[n]);
      SerialStepsAreUndisturbed(truths, s, steps[n]);
      StepKeepsInv(truths, s, steps[n]);
      StepKeepsSerial(s, steps[n]);
      forall i | 0 <= i < |steps| ensures Undisturbed(states[i], steps[i]) {
        assert i == n || (states[i] == front[i] && steps[i] == steps[..n][i]);
      }
      forall i | 0 <= i < |states| ensures Inv(truths, states[i]) && SerialInv(states[i]) {
        assert i == n + 1 || states[i] == front[i];
      }
    }
  }

  /** The listener's field for `v` holds a book with an id that, once nobody is inside of it,
      shows the true book of the exchange up to dust. */
  ghost predicate LiveBookAgrees(truths: Truths, s: State, v: Venue) {
    var current := s.At(v).current;
    && HasSnapshot(s, current)
    && ((forall t :: !Inside(s, t, current.value)) ==>
          Agrees(truths(v), s.heap[current.value].book))
  }

  /** When the arbitrage search may run, both Binance and Bittrex books are the exchange's books. */
  lemma AfterSyncBooksAreTrue(truths: Truths, states: seq<State>, steps: seq<Step>, i: nat, v: Venue)
    requires IsRun(states, steps) && StartsInitial(states) && HonestRun(truths, states, steps)
    requires forall j | 0 <= j < |steps| :: Waits(ForReceivers, states[j], steps[j])
    requires i < |states| && states[i].stage == AfterSync && NeedsSnapshot(states[i].At(v).exchange)
    ensures states[i].sell.synced && states[i].buy.synced && LiveBookAgrees(truths, states[i], v)
  {
    SerialRunsAgree(truths, states, steps);
    AfterSyncMeansBothSynced(states, steps);
    var s := states[i];
    assert Inv(truths, s) && Control(s) && HalfInstalled(s, v) && HalfGood(truths, s, v);
    assert BookGood(truths, s, s.At(v).current.value);
  }

  // ------------------------------------------------------------------- stranded deltas

  /** A message that cannot bring the book to the id `missing`. */
  ghost predicate Misses(exchange: Exchange, m: Message, missing: int) {
    m.Delta? && !(m.update.sequenceId <= missing <= LastId(exchange, m.update))
  }

  /** The book of `v` is marked synced or about to be, still in front of `missing`, and no callback
      on its way carries that id. */
  ghost predicate Waiting(s: State, v: Venue, id: nat, missing: int) {
    && Receiving(s.main) && (s.At(v).synced || s.At(v).sync == Marking(true))
    && s.At(v).current == Some(id) && id < |s.heap| && s.heap[id].venue == v
    && s.heap[id].book.sequenceId.Some? && s.heap[id].book.sequenceId.value < missing
    && forall k | k in s.callbacks && s.callbacks[k].venue == v && s.callbacks[k].pc != Returned ::
         Misses(s.At(v).exchange, s.callbacks[k].m, missing)
  }

  /** The message `m`, which carries the id `missing`, was put into the queue after the last drain. */
  ghost predicate Stranded(s: State, v: Venue, id: nat, missing: int, m: Message) {
    Waiting(s, v, id, missing) && m in s.At(v).queue && !Misses(s.At(v).exchange, m, missing)
  }

  ghost predicate WithoutResetOr(s: State, step: Step, v: Venue, missing: int) {
    && (step.MainStep? ==> s.main != Live)
    && (step.Deliver? && step.receiver < |s.receivers| && s.receivers[step.receiver].venue == v ==>
          Misses(s.At(v).exchange, step.m, missing))
  }

  lemma BeginDoesNotSkip(exchange: Exchange, book: Book, m: Message, missing: int)
    requires Misses(exchange, m, missing) && book.sequenceId.Some? && book.sequenceId.value < missing
    ensures
      var after := Begin(exchange, book, m).book;
      after.sequenceId.Some? && after.sequenceId.value < missing
  {
  }

  /** The book object stands in front of `missing`. */
  ghost predicate InFront(s: State, id: nat, missing: int) {
    id < |s.heap| && s.heap[id].book.sequenceId.Some? && s.heap[id].book.sequenceId.value < missing
  }

  lemma EnteringKeepsWaiting(truths: Truths, s: State, k: nat, v: Venue, id: nat, missing: int)
    requires MessagesGood(truths, s) && CallbackEnabled(s, k) && Waiting(s, v, id, missing)
      && s.callbacks[k].pc == Entering(id)
    ensures InFront(AfterCallbackStep(s, k), id, missing)
  {
    assert CallbackGood(truths, s, k);
    BeginDoesNotSkip(s.At(v).exchange, s.heap[id].book, s.callbacks[k].m, missing);
  }

  lemma CallbackWritesKeepWaiting(truths: Truths, s: State, k: nat, v: Venue, id: nat, missing: int)
    requires MessagesGood(truths, s) && CallbackEnabled(s, k) && Waiting(s, v, id, missing)
    ensures InFront(AfterCallbackStep(s, k), id, missing)
  {
    var c := s.callbacks[k];
    match c.pc {
      case Entering(at) => if at == id { EnteringKeepsWaiting(truths, s, k, v, id, missing); }
      case Changing(at, edits) => if edits != [] { ApplyEditKeepsTheId(s.heap[at].book, edits[0]); }
      case _ =>
    }
  }

  lemma CallbackStepKeepsWaiting(truths: Truths, s: State, k: nat, v: Venue, id: nat, missing: int)
    requires MessagesGood(truths, s) && CallbackEnabled(s, k) && Waiting(s, v, id, missing)
    ensures Waiting(AfterCallbackStep(s, k), v, id, missing)
  {
    CallbackStepFrame(s, k);
    CallbackWritesKeepWaiting(truths, s, k, v, id, missing);
  }

  lemma OwnSyncStepKeepsWaiting(s: State, answer: Option<Message>, v: Venue, id: nat, missing: int)
    requires Control(s) && SyncEnabled(s, v, answer) && Waiting(s, v, id, missing)
    ensures Waiting(AfterSyncStep(s, v, answer), v, id, missing)
  {
    assert s.At(v).sync == Marking(true);
  }

  lemma OtherSyncStepKeepsBook(s: State, w: Venue, answer: Option<Message>, id: nat)
    requires SyncEnabled(s, w, answer) && id < |s.heap| && BookOf(s.At(w).sync) != Some(id)
    ensures id < |AfterSyncStep(s, w, answer).heap| && AfterSyncStep(s, w, answer).heap[id] == s.heap[id]
  {
  }

  lemma OtherSyncStepKeepsWaiting(s: State, w: Venue, answer: Option<Message>, v: Venue, id: nat, missing: int)
    requires SyncEnabled(s, w, answer) && Waiting(s, v, id, missing) && w != v
    requires RefGood(s, w, BookOf(s.At(w).sync))
    ensures Waiting(AfterSyncStep(s, w, answer), v, id, missing)
  {
    SyncStepKeepsTheRest(s, w, answer);
    OtherSyncStepKeepsBook(s, w, answer, id);
  }

  lemma SyncStepKeepsWaiting(truths: Truths, s: State, w: Venue, answer: Option<Message>, v: Venue, id: nat,
      missing: int)
    requires MessagesGood(truths, s) && Control(s) && SyncEnabled(s, w, answer) && Waiting(s, v, id, missing)
    ensures Waiting(AfterSyncStep(s, w, answer), v, id, missing)
  {
    if w == v {
      OwnSyncStepKeepsWaiting(s, answer, v, id, missing);
    } else {
      assert HalfGood(truths, s, w);
      OtherSyncStepKeepsWaiting(s, w, answer, v, id, missing);
    }
  }

  lemma SwitchKeepsWaiting(s: State, s': State, v: Venue, id: nat, missing: int)
    requires Waiting(s, v, id, missing) && OnlySwitches(s, s')
    ensures Waiting(s', v, id, missing)
  {
  }

  lemma DeliveryKeepsWaiting(s: State, step: Step, v: Venue, id: nat, missing: int)
    requires s.sell.exchange != s.buy.exchange && step.Deliver? && Enabled(s, step) && Waiting(s, v, id, missing)
    requires WithoutResetOr(s, step, v, missing)
    ensures Waiting(After(s, step), v, id, missing)
  {
  }

  lemma MainKeepsWaiting(s: State, v: Venue, id: nat, missing: int)
    requires Control(s) && Enabled(s, MainStep) && Waiting(s, v, id, missing) && s.main != Live
    ensures Waiting(AfterMain(s), v, id, missing)
  {
  }

  lemma StepKeepsWaiting(truths: Truths, s: State, step: Step, v: Venue, id: nat, missing: int)
    requires MessagesGood(truths, s) && Control(s) && Enabled(s, step) && Waiting(s, v, id, missing)
    requires WithoutResetOr(s, step, v, missing)
    ensures Waiting(After(s, step), v, id, missing)
  {
    match step {
      case SyncStep(w, answer) => SyncStepKeepsWaiting(truths, s, w, answer, v, id, missing);
      case CallbackStep(k) => CallbackStepKeepsWaiting(truths, s, k, v, id, missing);
      case MainStep => MainKeepsWaiting(s, v, id, missing);
      case Deliver(_, _, _) => DeliveryKeepsWaiting(s, step, v, id, missing);
      case _ =>
        SwitchesOnlySwitch(s, step);
        SwitchKeepsWaiting(s, After(s, step), v, id, missing);
    }
  }

  lemma CallbackStepKeepsQueued(s: State, k: nat, v: Venue, m: Message)
    requires CallbackEnabled(s, k) && m in s.At(v).queue
    ensures m in AfterCallbackStep(s, k).At(v).queue
  {
  }

  lemma SyncStepKeepsQueued(s: State, w: Venue, answer: Option<Message>, v: Venue, m: Message)
    requires SyncEnabled(s, w, answer) && m in s.At(v).queue && !s.At(v).sync.Dequeuing?
    ensures m in AfterSyncStep(s, w, answer).At(v).queue
  {
    if w != v {
      SyncStepKeepsTheRest(s, w, answer);
    }
  }

  /** Only the drain loop and a reset take messages out of a queue. */
  lemma StepKeepsQueued(s: State, step: Step, v: Venue, m: Message)
    requires Enabled(s, step) && m in s.At(v).queue && !s.At(v).sync.Dequeuing?
    requires step.MainStep? ==> !Clearing(s.main)
    ensures m in After(s, step).At(v).queue
  {
    match step {
      case SyncStep(w, answer) => SyncStepKeepsQueued(s, w, answer, v, m);
      case CallbackStep(k) => CallbackStepKeepsQueued(s, k, v, m);
      case _ =>
    }
  }

  lemma StepKeepsStranded(truths: Truths, s: State, step: Step, v: Venue, id: nat, missing: int, m: Message)
    requires MessagesGood(truths, s) && Control(s) && Enabled(s, step) && Stranded(s, v, id, missing, m)
    requires WithoutResetOr(s, step, v, missing)
    ensures Stranded(After(s, step), v, id, missing, m)
  {
    StepKeepsWaiting(truths, s, step, v, id, missing);
    StepKeepsQueued(s, step, v, m);
    StepKeepsExchanges(s, step);
  }

  /** A delta put into the queue between the last drain and the flag write is never applied and never
      skipped over: from before the flag is written until the next reset it stays in the queue, and
      the book stays in front of its id unless a message carrying that id is delivered again. */
  lemma {:induction false} StrandedDeltaIsNeverSkipped(truths: Truths, states: seq<State>, steps: seq<Step>,
      v: Venue, id: nat, missing: int, m: Message)
    requires IsRun(states, steps) && HonestRun(truths, states, steps)
    requires MessagesGood(truths, states[0]) && Control(states[0]) && Stranded(states[0], v, id, missing, m)
    requires forall i | 0 <= i < |steps| :: WithoutResetOr(states[i], steps[i], v, missing)
    ensures var last := states[|steps|];
      MessagesGood(truths, last) && Control(last) && Stranded(last, v, id, missing, m)
    decreases |steps|
  {
    if steps != [] {
      var n := |steps| - 1;
      StrandedDeltaIsNeverSkipped(truths, states[..n + 1], steps[..n], v, id, missing, m);
      assert Enabled(states[n], steps[n]) && states[n + 1] == After(states[n], steps[n]);
      StepKeepsMessages(truths, states[n], steps[n]);
      StepKeepsControl(states[n], steps[n]);
      StepKeepsStranded(truths, states[n], steps[n], v, id, missing, m);
    }
  }

  /** The next two steps of a callback that shuts the subscriptions down. */
  function Shut(s: State, k: nat): State
    requires k in s.callbacks && s.callbacks[k].pc == StoppingSell
  {
    AfterCallbackStep(AfterCallbackStep(s, k), k)
  }

  /** They leave both subscriptions down and nothing else changed, so that a live main thread, which waits
      for exactly that, may reset. */
  lemma ShuttingStopsBoth(s: State, k: nat)
    requires k in s.callbacks && s.callbacks[k].pc == StoppingSell
    ensures CallbackEnabled(s, k) && CallbackEnabled(AfterCallbackStep(s, k), k)
    ensures Shut(s, k) == s.(sell := s.sell.(running := false), buy := s.buy.(running := false),
      callbacks := s.callbacks[k := s.callbacks[k].(pc := Returned)])
    ensures s.main == Live ==> (Enabled(s, MainStep) <==> !s.sell.running && !s.buy.running)
    ensures s.main == Live ==> Enabled(Shut(s, k), MainStep) && After(Shut(s, k), MainStep).stage == Resetting
  {
  }

  /** When the sync threads are done and not both books are marked, the main thread's own next steps shut
      both subscriptions down, change nothing else, and the one after them may start the next reset. */
  lemma FailedSyncsAreReset(s: State)
    requires s.main == JoinSyncThreads && s.sell.sync == Finished && s.buy.sync == Finished
    requires !(s.sell.synced && s.buy.synced)
    ensures
      var s1 := AfterMain(s);
      var s2 := AfterMain(s1);
      var s3 := AfterMain(s2);
      var back := AfterMain(s3);
      && (forall x | x in {s, s1, s2, s3, back} :: Enabled(x, MainStep))
      && back == s.(main := Live, sell := s.sell.(running := false), buy := s.buy.(running := false))
      && AfterMain(back).stage == Resetting
  {
  }

  /** And the first delta beyond that id is answered with FAILURE, which shuts both subscriptions down. */
  lemma StrandingEndsInFailure(s: State, v: Venue, id: nat, missing: int, k: nat)
    requires Waiting(s, v, id, missing) && k in s.callbacks && s.callbacks[k].venue == v
    requires s.callbacks[k].pc == Entering(id) && s.callbacks[k].m.Delta?
      && s.callbacks[k].m.update.sequenceId > missing
    requires s.At(v).exchange in {Poloniex, Bittrex, Binance}
    ensures CallbackEnabled(s, k)
    ensures var s' := AfterCallbackStep(s, k);
      && s'.heap[id].book == s.heap[id].book && s'.callbacks[k].pc == StoppingSell
      && !Shut(s', k).sell.running && !Shut(s', k).buy.running && Shut(s', k).callbacks[k].pc == Returned
  {
    ShuttingStopsBoth(AfterCallbackStep(s, k), k);
  }

  /** A receive loop that looks at its stopped subscription leaves for good, and so does one that breaks;
      on the way out it stops the subscription once more. */
  lemma StoppedReceiversEnd(s: State, r: nat)
    requires ReceiverEnabled(s, r) && s.receivers[r].pc == Checking && !s.At(s.receivers[r].venue).running
    ensures var s1 := AfterReceiverStep(s, r);
      ReceiverEnabled(s1, r) && AfterReceiverStep(s1, r) == WithReceiver(s, r, Ended)
  {
  }

  lemma BrokenReceiversEnd(s: State, r: nat)
    requires MayBreak(s, r)
    ensures var s1 := After(s, Break(r));
      && ReceiverEnabled(s1, r)
      && AfterReceiverStep(s1, r) == WithReceiver(Switched(s, s.receivers[r].venue, false), r, Ended)
  {
  }

  /** A new one starts only if its subscription is down; it then turns it on and receives. */
  lemma NewReceiversReceiveIffStopped(s: State, r: nat)
    requires r < |s.receivers| && s.receivers[r].pc == Spawned
    ensures var v := s.receivers[r].venue;
      && (ReceiverEnabled(s, r) <==> !s.At(v).running)
      && (!s.At(v).running ==>
            var s1 := AfterReceiverStep(s, r);
            && ReceiverEnabled(s1, r)
            && AfterReceiverStep(s1, r) == Switched(WithReceiver(s, r, InRecv), v, true))
  {
  }

  /** One whose callback has returned while its subscription runs waits for the next message. */
  lemma RunningReceiversReceive(s: State, r: nat)
    requires ReceiverEnabled(s, r) && s.At(s.receivers[r].venue).running && s.receivers[r].pc.Handling?
    ensures var s1 := AfterReceiverStep(s, r);
      ReceiverEnabled(s1, r) && AfterReceiverStep(s1, r) == WithReceiver(s, r, InRecv)
  {
  }

  // ------------------------------------------------------------ what the last drain leaves behind

  /** The message this step puts into the queue of `v`, if it does. */
  function PutBy(s: State, step: Step, v: Venue): seq<Message> {
    if step.CallbackStep? && step.callback in s.callbacks && s.callbacks[step.callback].venue == v
      && s.callbacks[step.callback].pc == Putting
    then [s.callbacks[step.callback].m] else []
  }

  function PutDuring(states: seq<State>, steps: seq<Step>, v: Venue): seq<Message>
    requires |states| == |steps| + 1
  {
    if steps == [] then []
    else
      var n := |steps| - 1;
      PutDuring(states[..n + 1], steps[..n], v) + PutBy(states[n], steps[n], v)
  }

  /** The sync thread of `v` has found the queue empty for the last time, or is done. */
  ghost predicate Drained(s: State, v: Venue) {
    Control(s) && Receiving(s.main) && s.At(v).sync in {Marking(true), Finished}
  }

  lemma SyncStepKeepsDrained(s: State, w: Venue, answer: Option<Message>, v: Venue)
    requires Drained(s, v) && SyncEnabled(s, w, answer)
    ensures
      var s' := AfterSyncStep(s, w, answer);
      Drained(s', v) && s'.At(v).queue == s.At(v).queue
  {
    SyncStepKeepsTheRest(s, w, answer);
    SyncStepKeepsControl(s, w, answer);
  }

  lemma CallbackStepKeepsDrained(s: State, k: nat, v: Venue)
    requires Drained(s, v) && CallbackEnabled(s, k)
    ensures
      var s' := AfterCallbackStep(s, k);
      Drained(s', v) && s'.At(v).queue == s.At(v).queue + PutBy(s, CallbackStep(k), v)
  {
    CallbackStepFrame(s, k);
    CallbackStepShape(s, k);
  }

  lemma MainStepKeepsDrained(s: State, v: Venue)
    requires Drained(s, v) && Enabled(s, MainStep) && s.main != Live
    ensures Drained(AfterMain(s), v) && AfterMain(s).At(v).queue == s.At(v).queue
  {
  }

  lemma OtherStepKeepsDrained(s: State, step: Step, v: Venue)
    requires Drained(s, v) && Enabled(s, step) && (IsSwitch(step) || step.Deliver?)
    ensures Drained(After(s, step), v) && After(s, step).At(v).queue == s.At(v).queue
  {
    if IsSwitch(step) {
      SwitchesOnlySwitch(s, step);
    }
  }

  lemma StepOnlyPuts(s: State, step: Step, v: Venue)
    requires Drained(s, v) && Enabled(s, step) && (step.MainStep? ==> s.main != Live)
    ensures Drained(After(s, step), v) && After(s, step).At(v).queue == s.At(v).queue + PutBy(s, step, v)
  {
    match step {
      case SyncStep(w, answer) => SyncStepKeepsDrained(s, w, answer, v);
      case CallbackStep(k) => CallbackStepKeepsDrained(s, k, v);
      case MainStep => MainStepKeepsDrained(s, v);
      case _ => OtherStepKeepsDrained(s, step, v);
    }
  }

  /** The queue has grown by exactly what was put. */
  ghost predicate GrownByPuts(states: seq<State>, steps: seq<Step>, v: Venue)
    requires |states| == |steps| + 1
  {
    Drained(states[|steps|], v) && states[|steps|].At(v).queue == states[0].At(v).queue + PutDuring(states, steps, v)
  }

  lemma OneMorePut(states: seq<State>, steps: seq<Step>, v: Venue)
    requires |states| == |steps| + 1 && steps != []
    requires var n := |steps| - 1;
      && GrownByPuts(states[..n + 1], steps[..n], v) && Drained(states[n + 1], v)
      && states[n + 1].At(v).queue == states[n].At(v).queue + PutBy(states[n], steps[n], v)
    ensures GrownByPuts(states, steps, v)
  {
    var n := |steps| - 1;
    var before := PutDuring(states[..n + 1], steps[..n], v);
    assert states[n].At(v).queue == states[0].At(v).queue + before;
    assert PutDuring(states, steps, v) == before + PutBy(states[n], steps[n], v);
  }

  /** From then until the next reset the queue only grows, by exactly what callbacks put into it. */
  lemma {:induction false} OnlyPutsAreLeft(states: seq<State>, steps: seq<Step>, v: Venue)
    requires IsRun(states, steps) && Drained(states[0], v)
    requires forall i | 0 <= i < |steps| :: steps[i].MainStep? ==> states[i].main != Live
    ensures GrownByPuts(states, steps, v)
    decreases |steps|
  {
    if steps != [] {
      var n := |steps| - 1;
      OnlyPutsAreLeft(states[..n + 1], steps[..n], v);
      assert Enabled(states[n], steps[n]) && states[n + 1] == After(states[n], steps[n]);
      StepOnlyPuts(states[n], steps[n], v);
      OneMorePut(states, steps, v);
    }
  }

  /** Some callback of `v` puts its message into the queue. */
  ghost predicate SomebodyPuts(states: seq<State>, steps: seq<Step>, v: Venue)
    requires |states| == |steps| + 1
  {
    exists i :: 0 <= i < |steps| && PutBy(states[i], steps[i], v) != []
  }

  lemma SomebodyPutsSnoc(states: seq<State>, steps: seq<Step>, v: Venue)
    requires |states| == |steps| + 1 && steps != []
    ensures var n := |steps| - 1;
      SomebodyPuts(states, steps, v) <==>
        SomebodyPuts(states[..n + 1], steps[..n], v) || PutBy(states[n], steps[n], v) != []
  {
    var n := |steps| - 1;
    forall i | 0 <= i < n
      ensures PutBy(states[..n + 1][i], steps[..n][i], v) == PutBy(states[i], steps[i], v)
    {
      assert states[..n + 1][i] == states[i] && steps[..n][i] == steps[i];
    }
  }

  lemma {:induction false} NothingPutIff(states: seq<State>, steps: seq<Step>, v: Venue)
    requires |states| == |steps| + 1
    ensures PutDuring(states, steps, v) == [] <==> !SomebodyPuts(states, steps, v)
    decreases |steps|
  {
    if steps != [] {
      var n := |steps| - 1;
      NothingPutIff(states[..n + 1], steps[..n], v);
      SomebodyPutsSnoc(states, steps, v);
    }
  }

  /**
   * When a drain ends with an empty queue, deltas are left undrained in it, until the next reset, exactly
   * when some callback that has already seen the flag unset still puts its message in afterwards.
   */
  lemma QueueStaysEmptyIff(states: seq<State>, steps: seq<Step>, v: Venue)
    requires IsRun(states, steps) && Control(states[0]) && Receiving(states[0].main)
    requires states[0].At(v).sync == Marking(true) && states[0].At(v).queue == []
    requires forall i | 0 <= i < |steps| :: steps[i].MainStep? ==> states[i].main != Live
    ensures states[|steps|].At(v).queue == [] <==>
      forall i | 0 <= i < |steps| && steps[i].CallbackStep? ::
        var c := states[i].callbacks[steps[i].callback];
        !(c.venue == v && c.pc == Putting)
  {
    OnlyPutsAreLeft(states, steps, v);
    NothingPutIff(states, steps, v);
    forall i | 0 <= i < |steps| && steps[i].CallbackStep?
      ensures steps[i].callback in states[i].callbacks
    {
      assert Enabled(states[i], steps[i]);
    }
    if SomebodyPuts(states, steps, v) {
      var i :| 0 <= i < |steps| && PutBy(states[i], steps[i], v) != [];
      assert steps[i].CallbackStep?;
    }
  }

  // ----------------------------------------------------- buffers that nobody drains

  /** The sync thread of an exchange that needs no snapshot never looks at the queue. */
  ghost predicate NeverDrains(s: State, v: Venue) {
    !NeedsSnapshot(s.At(v).exchange) && s.At(v).sync in {Finished, Starting, Marking(true)}
  }

  lemma StepKeepsExchanges(s: State, step: Step)
    requires Enabled(s, step)
    ensures After(s, step).sell.exchange == s.sell.exchange && After(s, step).buy.exchange == s.buy.exchange
  {
    match step {
      case SyncStep(w, answer) => SyncStepKeepsVenues(s, w, answer);
      case CallbackStep(k) => CallbackStepFrame(s, k);
      case MainStep => MainStepFrame(s);
      case Deliver(_, _, _) =>
      case _ => SwitchesOnlySwitch(s, step);
    }
  }

  lemma SyncStepNeverDrains(s: State, w: Venue, answer: Option<Message>, v: Venue)
    requires NeverDrains(s, v) && SyncEnabled(s, w, answer)
    ensures NeverDrains(AfterSyncStep(s, w, answer), v)
  {
    if w != v {
      SyncStepKeepsTheRest(s, w, answer);
    }
  }

  lemma MainStepNeverDrains(s: State, v: Venue)
    requires NeverDrains(s, v)
    ensures NeverDrains(AfterMain(s), v)
  {
  }

  lemma StepNeverDrains(s: State, step: Step, v: Venue)
    requires NeverDrains(s, v) && Enabled(s, step)
    ensures NeverDrains(After(s, step), v)
  {
    match step {
      case SyncStep(w, answer) => SyncStepNeverDrains(s, w, answer, v);
      case CallbackStep(k) => CallbackStepFrame(s, k);
      case MainStep => MainStepNeverDrains(s, v);
      case Deliver(_, _, _) =>
      case _ => SwitchesOnlySwitch(s, step);
    }
  }

  ghost predicate Buffered(s: State, v: Venue, m: Message) { NeverDrains(s, v) && m in s.At(v).queue }

  lemma StepKeepsBuffered(s: State, step: Step, s': State, v: Venue, m: Message)
    requires Buffered(s, v, m) && Enabled(s, step) && s' == After(s, step)
    requires step.MainStep? ==> !Clearing(s.main)
    ensures Buffered(s', v, m)
  {
    StepNeverDrains(s, step, v);
    StepKeepsQueued(s, step, v, m);
  }

  /** What is buffered for Poloniex, Huobi or Kraken while their book is not yet marked synced is never
      applied: no sync thread takes it, and it stays in the queue until the next reset clears it. */
  lemma {:induction false} BufferedIsNeverDrained(states: seq<State>, steps: seq<Step>, v: Venue, m: Message)
    requires IsRun(states, steps) && Buffered(states[0], v, m)
    requires forall k | 0 <= k < |steps| :: steps[k].MainStep? ==> !Clearing(states[k].main)
    ensures Buffered(states[|steps|], v, m)
    decreases |steps|
  {
    if steps != [] {
      var n := |steps| - 1;
      BufferedIsNeverDrained(states[..n + 1], steps[..n], v, m);
      StepKeepsBuffered(states[n], steps[n], states[n + 1], v, m);
    }
  }

  /** In every run the sync thread of such an exchange only ever marks its book. */
  lemma {:induction false} NobodyDrainsInARun(states: seq<State>, steps: seq<Step>, v: Venue)
    requires IsRun(states, steps) && StartsInitial(states) && !NeedsSnapshot(states[0].At(v).exchange)
    ensures NeverDrains(states[|steps|], v)
    decreases |steps|
  {
    if steps != [] {
      var n := |steps| - 1;
      NobodyDrainsInARun(states[..n + 1], steps[..n], v);
      assert Enabled(states[n], steps[n]) && states[n + 1] == After(states[n], steps[n]);
      StepNeverDrains(states[n], steps[n], v);
    }
  }

  // ------------------------------------------------------ one exchange on both sides

  /** Nothing was ever meant for the sell side. */
  ghost predicate SellSideStarves(s: State) {
    && s.sell.exchange == s.buy.exchange
    && s.sell.queue == []
    && forall k | k in s.callbacks :: s.callbacks[k].venue == Buy
  }

  lemma SyncStepKeepsStarving(s: State, v: Venue, answer: Option<Message>)
    requires SellSideStarves(s) && SyncEnabled(s, v, answer)
    ensures SellSideStarves(AfterSyncStep(s, v, answer))
  {
    SyncStepKeepsTheRest(s, v, answer);
  }

  lemma MainStepKeepsStarving(s: State)
    requires SellSideStarves(s)
    ensures SellSideStarves(AfterMain(s))
  {
    MainStepFrame(s);
  }

  lemma StepKeepsStarving(s: State, step: Step)
    requires SellSideStarves(s) && Enabled(s, step)
    ensures SellSideStarves(After(s, step))
  {
    match step {
      case SyncStep(v, answer) => SyncStepKeepsStarving(s, v, answer);
      case CallbackStep(k) =>
        CallbackStepFrame(s, k);
        CallbackStepShape(s, k);
      case MainStep => MainStepKeepsStarving(s);
      case Deliver(_, _, _) =>
      case _ => SwitchesOnlySwitch(s, step);
    }
  }

  /** Messages are routed by exchange id, so with one exchange on both sides the sell book never
      receives any: why every other result is about two different exchanges. */
  lemma {:induction false} OneExchangeStarvesTheSellSide(states: seq<State>, steps: seq<Step>, exchange: Exchange,
      i: nat)
    requires IsRun(states, steps) && states[0] == Initial(exchange, exchange) && i < |states|
    ensures SellSideStarves(states[i])
    decreases i
  {
    if i > 0 {
      OneExchangeStarvesTheSellSide(states, steps, exchange, i - 1);
      assert Enabled(states[i - 1], steps[i - 1]) && states[i] == After(states[i - 1], steps[i - 1]);
      StepKeepsStarving(states[i - 1], steps[i - 1]);
    }
  }
}
