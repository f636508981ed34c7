/**
 * Each thread by itself: run without interference, the drain loop, a callback and a sync thread are runs
 * of the step system, and end as the methods of the listener say.
 */
module ListenerAlone {
  import opened OrderBooks
  import opened BookUpdates
  import opened Exchanges
  import opened Wrappers
  import opened ListenerSteps
  import opened ListenerSafety
  import opened ListenerRuns

  /** Some honest run whose resets wait as `p` says leads from `s` to `s'`. */
  ghost predicate Reaches(p: Patience, truths: Truths, s: State, s': State) {
    exists states, steps :: RunBetween(p, truths, s, s', states, steps)
  }

  ghost predicate RunBetween(p: Patience, truths: Truths, s: State, s': State, states: seq<State>, steps: seq<Step>) {
    && IsRun(states, steps) && HonestRun(truths, states, steps) && states[0] == s && states[|steps|] == s'
    && forall i | 0 <= i < |steps| :: Waits(p, states[i], steps[i])
  }

  lemma Stays(p: Patience, truths: Truths, s: State)
    ensures Reaches(p, truths, s, s)
  {
    assert RunBetween(p, truths, s, s, [s], []);
  }

  lemma RunSnoc(states: seq<State>, steps: seq<Step>, step: Step)
    requires IsRun(states, steps) && Enabled(states[|steps|], step)
    ensures IsRun(states + [After(states[|steps|], step)], steps + [step])
  {
  }

  lemma ConductSnoc(p: Patience, truths: Truths, states: seq<State>, steps: seq<Step>, step: Step, s': State)
    requires |states| == |steps| + 1 && HonestRun(truths, states, steps) && HonestStep(truths, states[|steps|], step)
    requires forall i | 0 <= i < |steps| :: Waits(p, states[i], steps[i])
    requires Waits(p, states[|steps|], step)
    ensures HonestRun(truths, states + [s'], steps + [step])
    ensures forall i | 0 <= i < |steps + [step]| :: Waits(p, (states + [s'])[i], (steps + [step])[i])
  {
  }

  /** One more step at the end of a run. */
  lemma Then(p: Patience, truths: Truths, s: State, mid: State, step: Step, s': State)
    requires Reaches(p, truths, s, mid) && Enabled(mid, step) && HonestStep(truths, mid, step) && s' == After(mid, step)
    requires Waits(p, mid, step)
    ensures Reaches(p, truths, s, s')
  {
    var states, steps :| RunBetween(p, truths, s, mid, states, steps);
    RunSnoc(states, steps, step);
    ConductSnoc(p, truths, states, steps, step, s');
    assert RunBetween(p, truths, s, s', states + [s'], steps + [step]);
  }

  // ---------------------------------------------------------------- the drain loop as a run

  /** The state in which the sync thread of `v` stands at `pc` and book `id` and the queue are as given. */
  function WithSync(s: State, v: Venue, id: nat, book: Book, queue: seq<Message>, pc: SyncThread): State
    requires id < |s.heap|
  {
    s.(heap := SetBook(s.heap, id, book)).Put(v, s.At(v).(queue := queue, sync := pc))
  }

  lemma {:induction false} EditsAreARun(p: Patience, truths: Truths, origin: State, s: State, v: Venue, id: nat,
      book: Book, queue: seq<Message>, edits: seq<LevelEdit>)
    requires id < |s.heap| && ApplyEdits(book, edits).Some?
    requires Reaches(p, truths, origin, WithSync(s, v, id, book, queue, Editing(id, edits)))
    ensures Reaches(p, truths, origin, WithSync(s, v, id, ApplyEdits(book, edits).value, queue, CheckingBuy(id)))
    decreases |edits|
  {
    var here := WithSync(s, v, id, book, queue, Editing(id, edits));
    if edits == [] {
      Then(p, truths, origin, here, SyncStep(v, None), WithSync(s, v, id, book, queue, CheckingBuy(id)));
    } else {
      var next := ApplyEdit(book, edits[0]).value;
      Then(p, truths, origin, here, SyncStep(v, None), WithSync(s, v, id, next, queue, Editing(id, edits[1..])));
      EditsAreARun(p, truths, origin, s, v, id, next, queue, edits[1..]);
    }
  }

  /** Where the sync thread goes when the drain loop ends. */
  function AfterDrain(outcome: Outcome): SyncThread {
    match outcome case Success => Marking(true) case Failure => Marking(false) case _ => Finished
  }

  lemma DequeuingIsARun(p: Patience, truths: Truths, origin: State, s: State, v: Venue, id: nat, book: Book,
      queue: seq<Message>)
    requires id < |s.heap| && s.sell.running && s.buy.running
    requires Reaches(p, truths, origin, WithSync(s, v, id, book, queue, CheckingBuy(id)))
    ensures Reaches(p, truths, origin, WithSync(s, v, id, book, queue, Dequeuing(id)))
    ensures queue == [] ==> Reaches(p, truths, origin, WithSync(s, v, id, book, [], Marking(true)))
    ensures queue != [] ==> Reaches(p, truths, origin, WithSync(s, v, id, book, queue[1..], Applying(id, queue[0])))
  {
    var here := WithSync(s, v, id, book, queue, CheckingBuy(id));
    var half := WithSync(s, v, id, book, queue, CheckingSell(id));
    var full := WithSync(s, v, id, book, queue, Dequeuing(id));
    Then(p, truths, origin, here, SyncStep(v, None), half);
    Then(p, truths, origin, half, SyncStep(v, None), full);
    if queue == [] {
      Then(p, truths, origin, full, SyncStep(v, None), WithSync(s, v, id, book, [], Marking(true)));
    } else {
      Then(p, truths, origin, full, SyncStep(v, None), WithSync(s, v, id, book, queue[1..], Applying(id, queue[0])));
    }
  }

  /** Where the sync thread is once it has applied a message. */
  function AfterApplying(id: nat, outcome: Outcome): SyncThread {
    if outcome == Success then CheckingBuy(id) else AfterDrain(outcome)
  }

  lemma EnteringIsARun(p: Patience, truths: Truths, origin: State, s: State, v: Venue, id: nat, book: Book,
      m: Message, queue: seq<Message>)
    requires id < |s.heap| && Begin(s.At(v).exchange, book, m).Entered?
      && AfterUpdate(s.At(v).exchange, book, m).0 != Dead
    requires Reaches(p, truths, origin, WithSync(s, v, id, book, queue, Applying(id, m)))
    ensures
      var (outcome, after) := AfterUpdate(s.At(v).exchange, book, m);
      Reaches(p, truths, origin, WithSync(s, v, id, after, queue, AfterApplying(id, outcome)))
  {
    var begun := Begin(s.At(v).exchange, book, m);
    Then(p, truths, origin, WithSync(s, v, id, book, queue, Applying(id, m)), SyncStep(v, None),
      WithSync(s, v, id, begun.book, queue, Editing(id, begun.edits)));
    EditsAreARun(p, truths, origin, s, v, id, begun.book, queue, begun.edits);
  }

  lemma RejectingIsARun(p: Patience, truths: Truths, origin: State, s: State, v: Venue, id: nat, book: Book,
      m: Message, queue: seq<Message>)
    requires id < |s.heap| && Begin(s.At(v).exchange, book, m).Over? && AfterUpdate(s.At(v).exchange, book, m).0 != Dead
    requires Reaches(p, truths, origin, WithSync(s, v, id, book, queue, Applying(id, m)))
    ensures
      var (outcome, after) := AfterUpdate(s.At(v).exchange, book, m);
      Reaches(p, truths, origin, WithSync(s, v, id, after, queue, AfterApplying(id, outcome)))
  {
    var (outcome, after) := AfterUpdate(s.At(v).exchange, book, m);
    Then(p, truths, origin, WithSync(s, v, id, book, queue, Applying(id, m)), SyncStep(v, None),
      WithSync(s, v, id, after, queue, AfterApplying(id, outcome)));
  }

  lemma ApplyingIsARun(p: Patience, truths: Truths, origin: State, s: State, v: Venue, id: nat, book: Book,
      m: Message, queue: seq<Message>)
    requires id < |s.heap| && AfterUpdate(s.At(v).exchange, book, m).0 != Dead
    requires Reaches(p, truths, origin, WithSync(s, v, id, book, queue, Applying(id, m)))
    ensures
      var (outcome, after) := AfterUpdate(s.At(v).exchange, book, m);
      Reaches(p, truths, origin, WithSync(s, v, id, after, queue, AfterApplying(id, outcome)))
  {
    match Begin(s.At(v).exchange, book, m) {
      case Entered(_, _) => EnteringIsARun(p, truths, origin, s, v, id, book, m, queue);
      case Over(_, _) => RejectingIsARun(p, truths, origin, s, v, id, book, m, queue);
    }
  }

  /** The drain loop, run without interference, is one of the runs of the step system. */
  lemma {:induction false} DrainIsARun(p: Patience, truths: Truths, origin: State, s: State, v: Venue, id: nat,
      book: Book, queue: seq<Message>)
    requires id < |s.heap| && s.sell.running && s.buy.running
    requires Drain(s.At(v).exchange, book, queue).0 != Dead
    requires Reaches(p, truths, origin, WithSync(s, v, id, book, queue, CheckingBuy(id)))
    ensures
      var (outcome, after, rest) := Drain(s.At(v).exchange, book, queue);
      Reaches(p, truths, origin, WithSync(s, v, id, after, rest, AfterDrain(outcome)))
    decreases |queue|
  {
    DequeuingIsARun(p, truths, origin, s, v, id, book, queue);
    if queue != [] {
      ApplyingIsARun(p, truths, origin, s, v, id, book, queue[0], queue[1..]);
      var (outcome, after) := AfterUpdate(s.At(v).exchange, book, queue[0]);
      if outcome == Success {
        DrainIsARun(p, truths, origin, s, v, id, after, queue[1..]);
      }
    }
  }

  // --------------------------------------------------------------- a lone callback as a run

  /** The listener's field for `v` refers to a book that exists. */
  predicate Refers(s: State, v: Venue) { s.At(v).current.Some? ==> s.At(v).current.value < |s.heap| }

  function DeskIn(s: State, v: Venue): Desk
    requires Refers(s, v)
  {
    var h := s.At(v);
    Desk(s.stage, s.sell.running, s.buy.running, h.synced,
      if h.current.Some? then Some(s.heap[h.current.value].book) else None, h.queue)
  }

  /** The callback `k` has returned and its venue's desk is `d`; nothing else has changed. */
  function CallbackDone(s: State, k: nat, d: Desk): State
    requires k in s.callbacks && Refers(s, s.callbacks[k].venue)
  {
    var v := s.callbacks[k].venue;
    var s1 := s.(sell := s.sell.(running := d.sellRunning), buy := s.buy.(running := d.buyRunning));
    var s2 := s1.Put(v, s1.At(v).(queue := d.queue));
    var s3 := if d.book.Some? && s.At(v).current.Some?
              then s2.(heap := SetBook(s2.heap, s.At(v).current.value, d.book.value)) else s2;
    WithPc(s3, k, Returned)
  }

  lemma DeskOfCallbackDone(s: State, k: nat, d: Desk)
    requires k in s.callbacks && Refers(s, s.callbacks[k].venue)
    requires var own := DeskIn(s, s.callbacks[k].venue);
      d.stage == own.stage && d.synced == own.synced && (d.book.Some? <==> own.book.Some?)
    ensures Refers(CallbackDone(s, k, d), s.callbacks[k].venue)
    ensures DeskIn(CallbackDone(s, k, d), s.callbacks[k].venue) == d
  {
  }

  /** A callback that leaves the book alone. */
  lemma SameBookDone(s: State, k: nat, sellRunning: bool, buyRunning: bool, queue: seq<Message>)
    requires k in s.callbacks && Refers(s, s.callbacks[k].venue)
    ensures
      var v := s.callbacks[k].venue;
      var d := DeskIn(s, v).(sellRunning := sellRunning, buyRunning := buyRunning, queue := queue);
      var s1 := s.(sell := s.sell.(running := sellRunning), buy := s.buy.(running := buyRunning));
      CallbackDone(s, k, d) == WithPc(s1.Put(v, s1.At(v).(queue := queue)), k, Returned)
  {
    var v := s.callbacks[k].venue;
    if s.At(v).current.Some? {
      SameBook(s, s.At(v).current.value);
    }
  }

  lemma SameBook(s: State, id: nat)
    requires id < |s.heap|
    ensures SetBook(s.heap, id, s.heap[id].book) == s.heap
  {
  }

  /** Nothing has been changed yet. */
  function Before(s: State, k: nat, pc: CallbackPc): State
    requires k in s.callbacks
  {
    WithPc(s, k, pc)
  }

  lemma StoppingIsACallbackRun(p: Patience, truths: Truths, origin: State, s: State, k: nat)
    requires k in s.callbacks && Reaches(p, truths, origin, Before(s, k, StoppingSell))
    ensures Reaches(p, truths, origin,
      WithPc(s.(sell := s.sell.(running := false), buy := s.buy.(running := false)), k, Returned))
  {
    var s1 := WithPc(s.(sell := s.sell.(running := false)), k, StoppingBuy);
    Then(p, truths, origin, Before(s, k, StoppingSell), CallbackStep(k), s1);
    Then(p, truths, origin, s1, CallbackStep(k),
      WithPc(s.(sell := s.sell.(running := false), buy := s.buy.(running := false)), k, Returned));
  }

  /** The callback has read the stage and looked at both subscriptions. */
  function AfterTheChecks(s: State): CallbackPc {
    if !(s.sell.running && s.buy.running) then StoppingSell
    else match s.stage case BeforeSync => ReadingFlag case AfterSync => Calling case _ => Returned
  }

  lemma ChecksAreARun(p: Patience, truths: Truths, origin: State, s: State, k: nat)
    requires Reaches(p, truths, origin, s) && k in s.callbacks && s.callbacks[k].pc == ReadingStage
    ensures Reaches(p, truths, origin, Before(s, k, AfterTheChecks(s)))
  {
    var s1 := Before(s, k, CheckingBuySubscription(s.stage));
    Then(p, truths, origin, s, CallbackStep(k), s1);
    if s.buy.running {
      var s2 := Before(s, k, CheckingSellSubscription(s.stage));
      Then(p, truths, origin, s1, CallbackStep(k), s2);
      Then(p, truths, origin, s2, CallbackStep(k), Before(s, k, AfterTheChecks(s)));
    } else {
      Then(p, truths, origin, s1, CallbackStep(k), Before(s, k, StoppingSell));
    }
  }

  /** The book `id` and the callback `k`, which is inside of it or past it. */
  function Writing(s: State, k: nat, id: nat, book: Book, pc: CallbackPc): State
    requires k in s.callbacks && id < |s.heap|
  {
    WithPc(s.(heap := SetBook(s.heap, id, book)), k, pc)
  }

  lemma {:induction false} CallbackEditsAreARun(p: Patience, truths: Truths, origin: State, s: State, k: nat, id: nat,
      book: Book, edits: seq<LevelEdit>)
    requires k in s.callbacks && id < |s.heap| && ApplyEdits(book, edits).Some?
    requires Reaches(p, truths, origin, Writing(s, k, id, book, Changing(id, edits)))
    ensures Reaches(p, truths, origin, Writing(s, k, id, ApplyEdits(book, edits).value, Returned))
    decreases |edits|
  {
    var here := Writing(s, k, id, book, Changing(id, edits));
    if edits == [] {
      Then(p, truths, origin, here, CallbackStep(k), Writing(s, k, id, book, Returned));
    } else {
      var next := ApplyEdit(book, edits[0]).value;
      Then(p, truths, origin, here, CallbackStep(k), Writing(s, k, id, next, Changing(id, edits[1..])));
      CallbackEditsAreARun(p, truths, origin, s, k, id, next, edits[1..]);
    }
  }

  /** Where a callback is once `update` has begun, when it is over at once. */
  function AfterOver(outcome: Outcome): CallbackPc { if outcome == Failure then StoppingSell else Returned }

  lemma UpdatingIsARun(p: Patience, truths: Truths, origin: State, s: State, k: nat, id: nat)
    requires k in s.callbacks && id < |s.heap|
    requires var c := s.callbacks[k]; AfterUpdate(s.At(c.venue).exchange, s.heap[id].book, c.m).0 != Dead
    requires Reaches(p, truths, origin, Before(s, k, Entering(id)))
    ensures
      var c := s.callbacks[k];
      var (outcome, after) := AfterUpdate(s.At(c.venue).exchange, s.heap[id].book, c.m);
      Reaches(p, truths, origin, Writing(s, k, id, after, AfterOver(outcome)))
  {
    var c := s.callbacks[k];
    match Begin(s.At(c.venue).exchange, s.heap[id].book, c.m) {
      case Entered(book, edits) =>
        Then(p, truths, origin, Before(s, k, Entering(id)), CallbackStep(k),
          Writing(s, k, id, book, Changing(id, edits)));
        CallbackEditsAreARun(p, truths, origin, s, k, id, book, edits);
      case Over(outcome, book) =>
        Then(p, truths, origin, Before(s, k, Entering(id)), CallbackStep(k),
          Writing(s, k, id, book, AfterOver(outcome)));
    }
  }

  /** From the call of `update` to the return. */
  lemma UpdatingEndsInARun(p: Patience, truths: Truths, origin: State, s: State, k: nat, id: nat)
    requires k in s.callbacks && id < |s.heap| && s.sell.running && s.buy.running
    requires var c := s.callbacks[k]; AfterUpdate(s.At(c.venue).exchange, s.heap[id].book, c.m).0 != Dead
    requires Reaches(p, truths, origin, Before(s, k, Entering(id)))
    ensures
      var c := s.callbacks[k];
      var (outcome, after) := AfterUpdate(s.At(c.venue).exchange, s.heap[id].book, c.m);
      var up := outcome != Failure;
      Reaches(p, truths, origin,
        Writing(s.(sell := s.sell.(running := up), buy := s.buy.(running := up)), k, id, after, Returned))
  {
    var c := s.callbacks[k];
    UpdatingIsARun(p, truths, origin, s, k, id);
    var (outcome, after) := AfterUpdate(s.At(c.venue).exchange, s.heap[id].book, c.m);
    if outcome == Failure {
      StoppingIsACallbackRun(p, truths, origin, s.(heap := SetBook(s.heap, id, after)), k);
    }
  }

  /** On a running listener that does not buffer. */
  ghost predicate Applies(s: State, k: nat) {
    && k in s.callbacks && Refers(s, s.callbacks[k].venue) && s.sell.running && s.buy.running
    && (s.stage == AfterSync || (s.stage == BeforeSync && s.At(s.callbacks[k].venue).synced))
  }

  lemma CallingIsARun(p: Patience, truths: Truths, origin: State, s: State, k: nat)
    requires Applies(s, k) && Reaches(p, truths, origin, Before(s, k, Calling))
    requires var c := s.callbacks[k]; AfterCallback(s.At(c.venue).exchange, DeskIn(s, c.venue), c.m).0 != Dead
    ensures
      var c := s.callbacks[k];
      Reaches(p, truths, origin,
        CallbackDone(s, k, AfterCallback(s.At(c.venue).exchange, DeskIn(s, c.venue), c.m).1))
  {
    match s.At(s.callbacks[k].venue).current {
      case None => Then(p, truths, origin, Before(s, k, Calling), CallbackStep(k), Before(s, k, Returned));
      case Some(id) =>
        Then(p, truths, origin, Before(s, k, Calling), CallbackStep(k), Before(s, k, Entering(id)));
        UpdatingEndsInARun(p, truths, origin, s, k, id);
    }
  }

  /** What the callback `k` leaves on its desk. */
  function DeskAfter(s: State, k: nat): Desk
    requires k in s.callbacks && Refers(s, s.callbacks[k].venue)
  {
    var c := s.callbacks[k];
    AfterCallback(s.At(c.venue).exchange, DeskIn(s, c.venue), c.m).1
  }

  ghost predicate IsFresh(p: Patience, truths: Truths, origin: State, s: State, k: nat) {
    && Reaches(p, truths, origin, s) && k in s.callbacks && s.callbacks[k].pc == ReadingStage
    && Refers(s, s.callbacks[k].venue)
  }

  lemma DroppingIsARun(p: Patience, truths: Truths, origin: State, s: State, k: nat)
    requires IsFresh(p, truths, origin, s, k) && !(s.sell.running && s.buy.running)
    ensures Reaches(p, truths, origin, CallbackDone(s, k, DeskAfter(s, k)))
  {
    ChecksAreARun(p, truths, origin, s, k);
    StoppingIsACallbackRun(p, truths, origin, s, k);
    SameBookDone(s, k, false, false, s.At(s.callbacks[k].venue).queue);
  }

  lemma BufferingIsARun(p: Patience, truths: Truths, origin: State, s: State, k: nat)
    requires IsFresh(p, truths, origin, s, k) && s.sell.running && s.buy.running && s.stage == BeforeSync
    requires !s.At(s.callbacks[k].venue).synced
    ensures Reaches(p, truths, origin, CallbackDone(s, k, DeskAfter(s, k)))
  {
    var c := s.callbacks[k];
    ChecksAreARun(p, truths, origin, s, k);
    SameBookDone(s, k, true, true, s.At(c.venue).queue + [c.m]);
    Then(p, truths, origin, Before(s, k, ReadingFlag), CallbackStep(k), Before(s, k, Putting));
    Then(p, truths, origin, Before(s, k, Putting), CallbackStep(k), CallbackDone(s, k, DeskAfter(s, k)));
  }

  lemma IdlingIsARun(p: Patience, truths: Truths, origin: State, s: State, k: nat)
    requires IsFresh(p, truths, origin, s, k) && s.sell.running && s.buy.running
    requires s.stage != BeforeSync && s.stage != AfterSync
    ensures Reaches(p, truths, origin, CallbackDone(s, k, DeskAfter(s, k)))
  {
    ChecksAreARun(p, truths, origin, s, k);
    SameBookDone(s, k, true, true, s.At(s.callbacks[k].venue).queue);
  }

  lemma ApplyingInACallbackIsARun(p: Patience, truths: Truths, origin: State, s: State, k: nat)
    requires IsFresh(p, truths, origin, s, k) && s.sell.running && s.buy.running
    requires s.stage == AfterSync || (s.stage == BeforeSync && s.At(s.callbacks[k].venue).synced)
    requires var c := s.callbacks[k]; AfterCallback(s.At(c.venue).exchange, DeskIn(s, c.venue), c.m).0 != Dead
    ensures Reaches(p, truths, origin, CallbackDone(s, k, DeskAfter(s, k)))
  {
    ChecksAreARun(p, truths, origin, s, k);
    if s.stage == BeforeSync {
      Then(p, truths, origin, Before(s, k, ReadingFlag), CallbackStep(k), Before(s, k, Calling));
    }
    CallingIsARun(p, truths, origin, s, k);
  }

  /** A callback that is not disturbed is one of the runs of the step system: from any stage, flags,
      subscriptions, book and message it ends as `AfterCallback` says, and changes nothing else. */
  lemma CallbackIsARun(p: Patience, truths: Truths, origin: State, s: State, k: nat)
    requires Reaches(p, truths, origin, s) && k in s.callbacks && s.callbacks[k].pc == ReadingStage
    requires Refers(s, s.callbacks[k].venue)
    requires var c := s.callbacks[k]; AfterCallback(s.At(c.venue).exchange, DeskIn(s, c.venue), c.m).0 != Dead
    ensures
      var c := s.callbacks[k];
      var d := AfterCallback(s.At(c.venue).exchange, DeskIn(s, c.venue), c.m).1;
      && Reaches(p, truths, origin, CallbackDone(s, k, d))
      && Refers(CallbackDone(s, k, d), c.venue) && DeskIn(CallbackDone(s, k, d), c.venue) == d
  {
    DeskOfCallbackDone(s, k, DeskAfter(s, k));
    if !(s.sell.running && s.buy.running) {
      DroppingIsARun(p, truths, origin, s, k);
    } else if s.stage != BeforeSync && s.stage != AfterSync {
      IdlingIsARun(p, truths, origin, s, k);
    } else if s.stage == BeforeSync && !s.At(s.callbacks[k].venue).synced {
      BufferingIsARun(p, truths, origin, s, k);
    } else {
      ApplyingInACallbackIsARun(p, truths, origin, s, k);
    }
  }

  // ------------------------------------------------------------ a lone sync thread as a run

  /** The sync thread of `v` has finished and its desk is `d`; with a snapshot the book is a new object. */
  function SyncDone(s: State, v: Venue, d: Desk): State {
    var h := s.At(v).(synced := d.synced, queue := d.queue, sync := Finished);
    if !NeedsSnapshot(h.exchange) then s.Put(v, h)
    else
      match d.book
      case None => s.Put(v, h.(current := None))
      case Some(book) => s.(heap := s.heap + [BookObject(v, book)]).Put(v, h.(current := Some(|s.heap|)))
  }

  /** A snapshot has been fetched into a new book, which is not yet sorted. */
  function Unsorted(s: State, v: Venue, snapshot: Message): State
    requires snapshot.Snapshot?
  {
    var book := Book(snapshot.snapshotAsk, snapshot.snapshotBid, Some(snapshot.snapshotId));
    s.(heap := s.heap + [BookObject(v, book)])
     .Put(v, s.At(v).(current := Some(|s.heap|), sync := Sorting(|s.heap|)))
  }

  /** The snapshot is in a new book and sorted; the drain loop is about to begin. */
  function Fetched(s: State, v: Venue, m: Message, pc: SyncThread): State
    requires m.Snapshot?
  {
    s.(heap := s.heap + [BookObject(v, Installed(m))]).Put(v, s.At(v).(current := Some(|s.heap|), sync := pc))
  }

  lemma FetchedIsARun(p: Patience, truths: Truths, origin: State, s: State, v: Venue, m: Message)
    requires Reaches(p, truths, origin, s) && s.At(v).sync == Starting && NeedsSnapshot(s.At(v).exchange)
    requires m.Snapshot? && Honest(truths(v), s.At(v).exchange, m)
    ensures Reaches(p, truths, origin, Fetched(s, v, m, CheckingBuy(|s.heap|)))
  {
    var s1 := s.Put(v, s.At(v).(sync := Fetching));
    Then(p, truths, origin, s, SyncStep(v, None), s1);
    Then(p, truths, origin, s1, SyncStep(v, Some(m)), Unsorted(s, v, m));
    SortingIsARun(p, truths, origin, s, v, m);
  }

  lemma SortingIsARun(p: Patience, truths: Truths, origin: State, s: State, v: Venue, m: Message)
    requires m.Snapshot? && Reaches(p, truths, origin, Unsorted(s, v, m))
    ensures Reaches(p, truths, origin, Fetched(s, v, m, CheckingBuy(|s.heap|)))
  {
    assert SetBook(Unsorted(s, v, m).heap, |s.heap|, Installed(m)) == s.heap + [BookObject(v, Installed(m))];
    Then(p, truths, origin, Unsorted(s, v, m), SyncStep(v, None), Fetched(s, v, m, CheckingBuy(|s.heap|)));
  }

  /** With a subscription down the drain loop gives up before it takes anything. */
  lemma GivingUpIsARun(p: Patience, truths: Truths, origin: State, s: State, v: Venue, m: Message)
    requires m.Snapshot? && !(s.sell.running && s.buy.running)
    requires Reaches(p, truths, origin, Fetched(s, v, m, CheckingBuy(|s.heap|)))
    ensures Reaches(p, truths, origin, Fetched(s, v, m, Marking(false)))
  {
    var here := Fetched(s, v, m, CheckingBuy(|s.heap|));
    if s.buy.running {
      var s1 := Fetched(s, v, m, CheckingSell(|s.heap|));
      Then(p, truths, origin, here, SyncStep(v, None), s1);
      Then(p, truths, origin, s1, SyncStep(v, None), Fetched(s, v, m, Marking(false)));
    } else {
      Then(p, truths, origin, here, SyncStep(v, None), Fetched(s, v, m, Marking(false)));
    }
  }

  lemma DrainingIsARun(p: Patience, truths: Truths, origin: State, s: State, v: Venue, m: Message)
    requires m.Snapshot? && s.sell.running && s.buy.running
    requires Drain(s.At(v).exchange, Installed(m), s.At(v).queue).0 != Dead
    requires Reaches(p, truths, origin, Fetched(s, v, m, CheckingBuy(|s.heap|)))
    ensures
      var (outcome, after, rest) := Drain(s.At(v).exchange, Installed(m), s.At(v).queue);
      var s1 := Fetched(s, v, m, CheckingBuy(|s.heap|));
      Reaches(p, truths, origin, WithSync(s1, v, |s.heap|, after, rest, AfterDrain(outcome)))
  {
    var s1 := Fetched(s, v, m, CheckingBuy(|s.heap|));
    SameBook(s1, |s.heap|);
    assert WithSync(s1, v, |s.heap|, Installed(m), s.At(v).queue, CheckingBuy(|s.heap|)) == s1;
    DrainIsARun(p, truths, origin, s1, v, |s.heap|, Installed(m), s.At(v).queue);
  }

  /** The book and the queue as the drain left them, and where the sync thread stands. */
  function Drained(s: State, v: Venue, book: Book, queue: seq<Message>, pc: SyncThread): State {
    s.(heap := s.heap + [BookObject(v, book)])
     .Put(v, s.At(v).(current := Some(|s.heap|), queue := queue, sync := pc))
  }

  lemma WithSyncIsDrained(s: State, v: Venue, m: Message, book: Book, queue: seq<Message>, pc: SyncThread)
    requires m.Snapshot?
    ensures WithSync(Fetched(s, v, m, CheckingBuy(|s.heap|)), v, |s.heap|, book, queue, pc) ==
      Drained(s, v, book, queue, pc)
  {
    var s1 := Fetched(s, v, m, CheckingBuy(|s.heap|));
    assert SetBook(s1.heap, |s.heap|, book) == s.heap + [BookObject(v, book)];
  }

  lemma MarkingAfterADrainIsARun(p: Patience, truths: Truths, origin: State, s: State, v: Venue, m: Message)
    requires m.Snapshot? && s.sell.running && s.buy.running && NeedsSnapshot(s.At(v).exchange) && Refers(s, v)
    requires Drain(s.At(v).exchange, Installed(m), s.At(v).queue).0 != Dead
    requires
      var (outcome, after, rest) := Drain(s.At(v).exchange, Installed(m), s.At(v).queue);
      var s1 := Fetched(s, v, m, CheckingBuy(|s.heap|));
      Reaches(p, truths, origin, WithSync(s1, v, |s.heap|, after, rest, AfterDrain(outcome)))
    ensures Reaches(p, truths, origin, SyncDone(s, v, AfterSyncing(s.At(v).exchange, DeskIn(s, v), Some(m)).1))
  {
    var (outcome, after, rest) := Drain(s.At(v).exchange, Installed(m), s.At(v).queue);
    WithSyncIsDrained(s, v, m, after, rest, AfterDrain(outcome));
    if outcome in {Success, Failure} {
      var done := SyncDone(s, v, AfterSyncing(s.At(v).exchange, DeskIn(s, v), Some(m)).1);
      Then(p, truths, origin, Drained(s, v, after, rest, AfterDrain(outcome)), SyncStep(v, None), done);
    }
  }

  lemma SyncingWithASnapshotIsARun(p: Patience, truths: Truths, origin: State, s: State, v: Venue, m: Message)
    requires Reaches(p, truths, origin, s) && s.At(v).sync == Starting && NeedsSnapshot(s.At(v).exchange)
    requires Refers(s, v) && m.Snapshot? && Honest(truths(v), s.At(v).exchange, m)
    requires AfterSyncing(s.At(v).exchange, DeskIn(s, v), Some(m)).0 != Dead
    ensures Reaches(p, truths, origin, SyncDone(s, v, AfterSyncing(s.At(v).exchange, DeskIn(s, v), Some(m)).1))
  {
    FetchedIsARun(p, truths, origin, s, v, m);
    if s.sell.running && s.buy.running {
      DrainingIsARun(p, truths, origin, s, v, m);
      MarkingAfterADrainIsARun(p, truths, origin, s, v, m);
    } else {
      GivingUpIsARun(p, truths, origin, s, v, m);
      var done := SyncDone(s, v, AfterSyncing(s.At(v).exchange, DeskIn(s, v), Some(m)).1);
      Then(p, truths, origin, Fetched(s, v, m, Marking(false)), SyncStep(v, None), done);
    }
  }

  lemma SyncingWithoutASnapshotIsARun(p: Patience, truths: Truths, origin: State, s: State, v: Venue,
      answer: Option<Message>)
    requires Reaches(p, truths, origin, s) && s.At(v).sync == Starting && Refers(s, v)
    requires answer.Some? ==> answer.value.Snapshot?
    requires !NeedsSnapshot(s.At(v).exchange) || answer.None?
    ensures Reaches(p, truths, origin, SyncDone(s, v, AfterSyncing(s.At(v).exchange, DeskIn(s, v), answer).1))
  {
    var done := SyncDone(s, v, AfterSyncing(s.At(v).exchange, DeskIn(s, v), answer).1);
    var s1 := s.Put(v, s.At(v).(sync := if NeedsSnapshot(s.At(v).exchange) then Fetching else Marking(true)));
    Then(p, truths, origin, s, SyncStep(v, None), s1);
    Then(p, truths, origin, s1, SyncStep(v, None), done);
  }

  lemma DeskOfSyncDone(s: State, v: Venue, answer: Option<Message>)
    requires Refers(s, v) && (answer.Some? ==> answer.value.Snapshot?)
    ensures
      var d := AfterSyncing(s.At(v).exchange, DeskIn(s, v), answer).1;
      Refers(SyncDone(s, v, d), v) && DeskIn(SyncDone(s, v, d), v) == d
  {
  }

  /** A sync thread that is not disturbed is one of the runs of the step system: for every exchange and
      answer, with subscriptions up or down, it ends as `AfterSyncing` says, and changes nothing else. */
  lemma SyncIsARun(p: Patience, truths: Truths, origin: State, s: State, v: Venue, answer: Option<Message>)
    requires Reaches(p, truths, origin, s) && s.At(v).sync == Starting && Refers(s, v)
    requires answer.Some? ==> answer.value.Snapshot? && Honest(truths(v), s.At(v).exchange, answer.value)
    requires AfterSyncing(s.At(v).exchange, DeskIn(s, v), answer).0 != Dead
    ensures
      var d := AfterSyncing(s.At(v).exchange, DeskIn(s, v), answer).1;
      && Reaches(p, truths, origin, SyncDone(s, v, d))
      && Refers(SyncDone(s, v, d), v) && DeskIn(SyncDone(s, v, d), v) == d
  {
    DeskOfSyncDone(s, v, answer);
    if !NeedsSnapshot(s.At(v).exchange) || answer.None? {
      SyncingWithoutASnapshotIsARun(p, truths, origin, s, v, answer);
    } else {
      SyncingWithASnapshotIsARun(p, truths, origin, s, v, answer.value);
    }
  }
}
