/**
 * Streams of deltas against one book: what any delivery order leaves behind, and how the
 * gate of `update_for_binance` compares with the rule documented in binance/socket_api.py.
 */
module BookStream {
  import opened OrderBooks
  import opened BookUpdates
  import opened Exchanges
  import opened Wrappers

  /** The book after a list of deliveries; failures and exceptions leave it to the next one. */
  function Delivered(exchange: Exchange, book: Book, us: seq<BookUpdate>): Book
    decreases |us|
  {
    if us == [] then book
    else ApplyDelta(exchange, Delivered(exchange, book, us[..|us| - 1]), us[|us| - 1]).1
  }

  /** The positions of the deliveries that pass the gate. */
  function Accepted(exchange: Exchange, book: Book, us: seq<BookUpdate>): seq<nat>
    decreases |us|
  {
    if us == [] then []
    else
      var n := |us| - 1;
      var before := Accepted(exchange, book, us[..n]);
      if GateOf(Delivered(exchange, book, us[..n]).sequenceId, us[n].sequenceId) == Next then before + [n] else before
  }

  function Picked(us: seq<BookUpdate>, at: seq<nat>): seq<BookUpdate>
    requires forall i | 0 <= i < |at| :: at[i] < |us|
  {
    seq(|at|, i requires 0 <= i < |at| => us[at[i]])
  }

  /** Each delta starts right after the previous one ends, the first right after `from`. */
  ghost predicate Consecutive(exchange: Exchange, from: int, us: seq<BookUpdate>) {
    forall i | 0 <= i < |us| :: us[i].sequenceId == EndOf(exchange, from, us[..i]) + 1
  }

  function EndOf(exchange: Exchange, from: int, us: seq<BookUpdate>): int {
    if us == [] then from else LastId(exchange, us[|us| - 1])
  }

  /** Both maps after a list of deltas, each setting its asks and bids and applying its fills. */
  ghost function QuotesAfterAll(exchange: Exchange, q: Quotes, us: seq<BookUpdate>): Quotes
    decreases |us|
  {
    if us == [] then q else QuotesAfter(exchange, QuotesAfterAll(exchange, q, us[..|us| - 1]), us[|us| - 1])
  }

  ghost predicate Increasing(at: seq<nat>, bound: nat) {
    && (forall i | 0 <= i < |at| :: at[i] < bound)
    && (forall i, j | 0 <= i < j < |at| :: at[i] < at[j])
  }

  /** No delivery ended the process. Only a Bittrex fill larger than its ask level does. */
  predicate Survives(exchange: Exchange, book: Book, us: seq<BookUpdate>)
    decreases |us|
  {
    us == [] ||
    var n := |us| - 1;
    Survives(exchange, book, us[..n]) && ApplyDelta(exchange, Delivered(exchange, book, us[..n]), us[n]).0 != Dead
  }

  /** The accepted deltas stand in delivery order, each once, without a hole between their ids,
      and the book carries the id of the last one. */
  ghost predicate AcceptsConsecutively(exchange: Exchange, book: Book, us: seq<BookUpdate>, from: int) {
    var at := Accepted(exchange, book, us);
    && Increasing(at, |us|)
    && Consecutive(exchange, from, Picked(us, at))
    && Delivered(exchange, book, us).sequenceId == Some(EndOf(exchange, from, Picked(us, at)))
  }

  /** The book is the old one with exactly the accepted deltas applied. */
  ghost predicate HoldsTheAccepted(exchange: Exchange, book: Book, us: seq<BookUpdate>) {
    var at := Accepted(exchange, book, us);
    var after := Delivered(exchange, book, us);
    && Increasing(at, |us|)
    && after.Sorted()
    && after.View() == QuotesAfterAll(exchange, book.View(), Picked(us, at))
  }

  lemma PickedSnoc(us: seq<BookUpdate>, at: seq<nat>)
    requires us != [] && Increasing(at, |us| - 1)
    ensures Picked(us, at) == Picked(us[..|us| - 1], at)
    ensures Increasing(at + [|us| - 1], |us|)
    ensures Picked(us, at + [|us| - 1]) == Picked(us, at) + [us[|us| - 1]]
  {
  }

  lemma ConsecutiveSnoc(exchange: Exchange, from: int, us: seq<BookUpdate>, u: BookUpdate)
    requires Consecutive(exchange, from, us) && u.sequenceId == EndOf(exchange, from, us) + 1
    ensures Consecutive(exchange, from, us + [u]) && EndOf(exchange, from, us + [u]) == LastId(exchange, u)
  {
  }

  lemma AcceptedDeltaSetsTheId(exchange: Exchange, book: Book, u: BookUpdate)
    requires book.Sorted() && ApplyDelta(exchange, book, u).0 != Dead
    ensures ApplyDelta(exchange, book, u).1.sequenceId
         == if GateOf(book.sequenceId, u.sequenceId) == Next then Some(LastId(exchange, u)) else book.sequenceId
  {
    EditsRefineTheMap(book.(sequenceId := Some(LastId(exchange, u))), EditsOf(exchange, u));
  }

  lemma {:induction false} DeliveriesAreAcceptedConsecutively(exchange: Exchange, book: Book, us: seq<BookUpdate>,
      from: int)
    requires book.sequenceId == Some(from) && book.Sorted() && Survives(exchange, book, us)
    ensures AcceptsConsecutively(exchange, book, us, from)
    decreases |us|
  {
    if us != [] {
      var n := |us| - 1;
      var front, u := us[..n], us[n];
      DeliveriesAreAcceptedConsecutively(exchange, book, front, from);
      DeliveriesAreHeld(exchange, book, front);
      AcceptedDeltaSetsTheId(exchange, Delivered(exchange, book, front), u);
      var at := Accepted(exchange, book, front);
      PickedSnoc(us, at);
      if GateOf(Delivered(exchange, book, front).sequenceId, u.sequenceId) == Next {
        ConsecutiveSnoc(exchange, from, Picked(us, at), u);
      }
    }
  }

  /** One more accepted delta on top of those held. */
  lemma OneMoreIsHeld(exchange: Exchange, q: Quotes, mid: Book, picked: seq<BookUpdate>, u: BookUpdate)
    requires mid.Sorted() && ApplyDelta(exchange, mid, u).0 != Dead && GateOf(mid.sequenceId, u.sequenceId) == Next
    requires mid.View() == QuotesAfterAll(exchange, q, picked)
    ensures
      var after := ApplyDelta(exchange, mid, u).1;
      after.Sorted() && after.View() == QuotesAfterAll(exchange, q, picked + [u])
  {
    assert (picked + [u])[..|picked|] == picked;
    EditsRefineTheMap(mid.(sequenceId := Some(LastId(exchange, u))), EditsOf(exchange, u));
    EditsMakeTheQuotes(exchange, u, mid.View());
  }

  lemma {:induction false} DeliveriesAreHeld(exchange: Exchange, book: Book, us: seq<BookUpdate>)
    requires book.sequenceId.Some? && book.Sorted() && Survives(exchange, book, us)
    ensures HoldsTheAccepted(exchange, book, us)
    decreases |us|
  {
    if us != [] {
      var n := |us| - 1;
      DeliveriesAreHeld(exchange, book, us[..n]);
      var at, mid := Accepted(exchange, book, us[..n]), Delivered(exchange, book, us[..n]);
      PickedSnoc(us, at);
      if GateOf(mid.sequenceId, us[n].sequenceId) == Next {
        OneMoreIsHeld(exchange, book.View(), mid, Picked(us, at), us[n]);
      }
    }
  }

  /** For every list of deliveries, repeats, stale messages and gaps included, the book ends as
      the book it started from with a consecutive run of the deltas applied in order, once each. */
  lemma AnyDeliveryIsAConsecutiveRun(exchange: Exchange, book: Book, us: seq<BookUpdate>, from: int)
    requires book.sequenceId == Some(from) && book.Sorted() && Survives(exchange, book, us)
    ensures AcceptsConsecutively(exchange, book, us, from) && HoldsTheAccepted(exchange, book, us)
  {
    DeliveriesAreAcceptedConsecutively(exchange, book, us, from);
    DeliveriesAreHeld(exchange, book, us);
  }

  /** The id of the book after the first `n` deliveries. */
  function IdAfter(exchange: Exchange, book: Book, us: seq<BookUpdate>, n: nat): Option<int>
    requires n <= |us|
  {
    Delivered(exchange, book, us[..n]).sequenceId
  }

  /** The delta at `k` passes the gate. */
  predicate Passes(exchange: Exchange, book: Book, us: seq<BookUpdate>, k: nat)
    requires k < |us|
  {
    GateOf(IdAfter(exchange, book, us, k), us[k].sequenceId) == Next
  }

  lemma {:induction false} SurvivesSoFar(exchange: Exchange, book: Book, us: seq<BookUpdate>, n: nat)
    requires Survives(exchange, book, us) && n <= |us|
    ensures Survives(exchange, book, us[..n])
    decreases |us|
  {
    if n < |us| {
      SurvivesSoFar(exchange, book, us[..|us| - 1], n);
      assert us[..|us| - 1][..n] == us[..n];
    } else {
      assert us[..n] == us;
    }
  }

  lemma OneDeliveryMovesTheId(exchange: Exchange, book: Book, us: seq<BookUpdate>, from: int, k: nat)
    requires book.sequenceId == Some(from) && book.Sorted() && Survives(exchange, book, us) && k < |us|
    ensures IdAfter(exchange, book, us, k).Some? && IdAfter(exchange, book, us, k + 1).Some?
    ensures IdAfter(exchange, book, us, k + 1).value ==
      if Passes(exchange, book, us, k) then LastId(exchange, us[k]) else IdAfter(exchange, book, us, k).value
  {
    SurvivesSoFar(exchange, book, us, k);
    SurvivesSoFar(exchange, book, us, k + 1);
    DeliveriesAreAcceptedConsecutively(exchange, book, us[..k], from);
    DeliveriesAreHeld(exchange, book, us[..k]);
    assert us[..k + 1][..k] == us[..k];
    AcceptedDeltaSetsTheId(exchange, Delivered(exchange, book, us[..k]), us[k]);
  }

  /** No delta that passes the gate has a range that ends before the id it follows. */
  ghost predicate NoneMovesBack(exchange: Exchange, book: Book, us: seq<BookUpdate>) {
    forall k | 0 <= k < |us| && Passes(exchange, book, us, k) :: us[k].sequenceId <= LastId(exchange, us[k]) + 1
  }

  ghost predicate IdsRise(exchange: Exchange, book: Book, us: seq<BookUpdate>, i: nat, j: nat)
    requires i <= j <= |us|
  {
    var early, late := IdAfter(exchange, book, us, i), IdAfter(exchange, book, us, j);
    early.Some? && late.Some? && early.value <= late.value
  }

  lemma OneMoreRises(exchange: Exchange, book: Book, us: seq<BookUpdate>, from: int, i: nat, j: nat)
    requires book.sequenceId == Some(from) && book.Sorted() && Survives(exchange, book, us) && i <= j < |us|
    requires IdsRise(exchange, book, us, i, j)
    requires Passes(exchange, book, us, j) ==> us[j].sequenceId <= LastId(exchange, us[j]) + 1
    ensures IdsRise(exchange, book, us, i, j + 1)
  {
    OneDeliveryMovesTheId(exchange, book, us, from, j);
  }

  lemma IdIsThere(exchange: Exchange, book: Book, us: seq<BookUpdate>, from: int, i: nat)
    requires book.sequenceId == Some(from) && book.Sorted() && Survives(exchange, book, us) && i <= |us|
    ensures IdsRise(exchange, book, us, i, i)
  {
    SurvivesSoFar(exchange, book, us, i);
    DeliveriesAreAcceptedConsecutively(exchange, book, us[..i], from);
  }

  lemma {:induction false} IdsRiseWhenNoneMovesBack(exchange: Exchange, book: Book, us: seq<BookUpdate>, from: int,
      i: nat, j: nat)
    requires book.sequenceId == Some(from) && book.Sorted() && Survives(exchange, book, us) && i <= j <= |us|
    requires NoneMovesBack(exchange, book, us)
    ensures IdsRise(exchange, book, us, i, j)
    decreases j
  {
    if i < j {
      IdsRiseWhenNoneMovesBack(exchange, book, us, from, i, j - 1);
      OneMoreRises(exchange, book, us, from, i, j - 1);
    } else {
      IdIsThere(exchange, book, us, from, i);
    }
  }

  /** Between snapshots the id never moves backwards, exactly when no delta that passes the gate has a
      range that ends before the id it follows; the source does not look at where a range ends. */
  lemma IdsNeverDecreaseIff(exchange: Exchange, book: Book, us: seq<BookUpdate>, from: int)
    requires book.sequenceId == Some(from) && book.Sorted() && Survives(exchange, book, us)
    ensures (forall i, j | 0 <= i <= j <= |us| :: IdsRise(exchange, book, us, i, j)) <==>
      NoneMovesBack(exchange, book, us)
  {
    if NoneMovesBack(exchange, book, us) {
      forall i, j | 0 <= i <= j <= |us| ensures IdsRise(exchange, book, us, i, j) {
        IdsRiseWhenNoneMovesBack(exchange, book, us, from, i, j);
      }
    } else {
      var k :| 0 <= k < |us| && Passes(exchange, book, us, k) && us[k].sequenceId > LastId(exchange, us[k]) + 1;
      OneDeliveryMovesTheId(exchange, book, us, from, k);
      assert !IdsRise(exchange, book, us, k, k + 1);
    }
  }

  /** A delta that never arrives is never skipped: while no delivery covers the id `missing`,
      the book stays in front of it. */
  lemma {:induction false} AMissingDeltaIsNeverSkipped(exchange: Exchange, book: Book, us: seq<BookUpdate>, from: int,
      missing: int)
    requires book.sequenceId == Some(from) && book.Sorted() && Survives(exchange, book, us) && from < missing
    requires forall k | 0 <= k < |us| :: !(us[k].sequenceId <= missing <= LastId(exchange, us[k]))
    ensures Delivered(exchange, book, us).sequenceId.Some? && Delivered(exchange, book, us).sequenceId.value < missing
    decreases |us|
  {
    if us != [] {
      var n := |us| - 1;
      AMissingDeltaIsNeverSkipped(exchange, book, us[..n], from, missing);
      DeliveriesAreHeld(exchange, book, us[..n]);
      AcceptedDeltaSetsTheId(exchange, Delivered(exchange, book, us[..n]), us[n]);
    }
  }

  // ------------------------------------------------------ Binance against its documentation

  /** A stream without holes: events are ranges of ids, each starting where the last one ended. */
  ghost predicate Contiguous(us: seq<BookUpdate>) {
    && (forall i | 0 <= i < |us| :: us[i].sequenceId <= us[i].sequenceIdEnd)
    && (forall i | 0 < i < |us| :: us[i].sequenceId == us[i - 1].sequenceIdEnd + 1)
  }

  /** The documented rule. Before the first processed event, drop what ends at or before the
      snapshot and take an event that covers the id after it; then take direct successors only. */
  predicate RuleTakes(snapshotId: int, processed: Option<int>, u: BookUpdate) {
    match processed
    case None => u.sequenceId <= snapshotId + 1 && u.sequenceIdEnd >= snapshotId + 1
    case Some(last) => u.sequenceId == last + 1
  }

  /** The last id processed under the rule. */
  function RuleState(snapshotId: int, us: seq<BookUpdate>): Option<int>
    decreases |us|
  {
    if us == [] then None
    else
      var n := |us| - 1;
      var before := RuleState(snapshotId, us[..n]);
      if RuleTakes(snapshotId, before, us[n]) then Some(us[n].sequenceIdEnd) else before
  }

  function RuleAccepted(snapshotId: int, us: seq<BookUpdate>): seq<nat>
    decreases |us|
  {
    if us == [] then []
    else
      var n := |us| - 1;
      var before := RuleAccepted(snapshotId, us[..n]);
      if RuleTakes(snapshotId, RuleState(snapshotId, us[..n]), us[n]) then before + [n] else before
  }

  /** Some event began before the snapshot was taken and ended after it. */
  ghost predicate Straddled(snapshotId: int, us: seq<BookUpdate>) {
    exists i :: 0 <= i < |us| && us[i].sequenceId <= snapshotId < us[i].sequenceIdEnd
  }

  /** Without fills nothing ever ends the process. */
  lemma BinanceSurvives(book: Book, u: BookUpdate)
    requires book.Sorted()
    ensures ApplyDelta(Binance, book, u).0 != Dead
  {
    EditsRefineTheMap(book.(sequenceId := Some(LastId(Binance, u))), EditsOf(Binance, u));
  }

  /** A straddled stream leaves the snapshot as it is, though the rule has taken events. */
  ghost predicate StaysAtTheSnapshot(book: Book, us: seq<BookUpdate>, id: int) {
    var end := EndOf(Binance, id, us);
    && end > id && Delivered(Binance, book, us) == book && Accepted(Binance, book, us) == []
    && RuleState(id, us) == Some(end) && RuleAccepted(id, us) != []
  }

  /** Any other stream is followed by the rule event by event. */
  ghost predicate FollowsTheRule(book: Book, us: seq<BookUpdate>, id: int) {
    var end, after := EndOf(Binance, id, us), Delivered(Binance, book, us);
    && after.Sorted()
    && Accepted(Binance, book, us) == RuleAccepted(id, us)
    && after.sequenceId == Some(if end > id then end else id)
    && RuleState(id, us) == (if end > id then Some(end) else None)
    && (end <= id ==> after == book && Accepted(Binance, book, us) == [])
  }

  /** The first event already leaves a hole after the snapshot. */
  predicate StartsLate(us: seq<BookUpdate>, id: int) { us != [] && us[0].sequenceId > id + 1 }

  /** Then neither the code nor the rule ever takes an event. */
  ghost predicate NobodyJoins(book: Book, us: seq<BookUpdate>, id: int) {
    && Delivered(Binance, book, us) == book && Accepted(Binance, book, us) == []
    && RuleState(id, us) == None && RuleAccepted(id, us) == []
  }

  lemma {:induction false} StartsGrow(us: seq<BookUpdate>, i: nat, j: nat)
    requires Contiguous(us) && i <= j < |us|
    ensures us[i].sequenceId <= us[j].sequenceId
    decreases j
  {
    if i < j {
      StartsGrow(us, i, j - 1);
      assert us[j].sequenceId == us[j - 1].sequenceIdEnd + 1;
    }
  }

  lemma {:induction false} NobodyJoinsALateStream(book: Book, us: seq<BookUpdate>, id: int)
    requires book.sequenceId == Some(id)
    requires forall i | 0 <= i < |us| :: us[i].sequenceId > id + 1
    ensures NobodyJoins(book, us, id)
    decreases |us|
  {
    if us != [] {
      NobodyJoinsALateStream(book, us[..|us| - 1], id);
    }
  }

  /** The last event starts where the one before ended, and the first no later than the snapshot. */
  ghost predicate Joins(us: seq<BookUpdate>, id: int) {
    us != [] ==>
      var u := us[|us| - 1];
      && u.sequenceId <= u.sequenceIdEnd
      && (if |us| == 1 then u.sequenceId <= id + 1 else u.sequenceId == EndOf(Binance, id, us[..|us| - 1]) + 1)
  }

  lemma StaysAfterStraddling(book: Book, us: seq<BookUpdate>, id: int)
    requires book.sequenceId == Some(id) && us != [] && Joins(us, id) && StaysAtTheSnapshot(book, us[..|us| - 1], id)
    ensures StaysAtTheSnapshot(book, us, id)
  {
  }

  lemma StaysAtTheStraddlingEvent(book: Book, us: seq<BookUpdate>, id: int)
    requires book.sequenceId == Some(id) && us != [] && Joins(us, id) && FollowsTheRule(book, us[..|us| - 1], id)
    requires us[|us| - 1].sequenceId <= id < us[|us| - 1].sequenceIdEnd
    ensures StaysAtTheSnapshot(book, us, id)
  {
  }

  lemma FollowsOneMore(book: Book, us: seq<BookUpdate>, id: int)
    requires book.sequenceId == Some(id) && us != [] && Joins(us, id) && FollowsTheRule(book, us[..|us| - 1], id)
    requires !(us[|us| - 1].sequenceId <= id < us[|us| - 1].sequenceIdEnd)
    ensures FollowsTheRule(book, us, id)
  {
    var u, mid := us[|us| - 1], Delivered(Binance, book, us[..|us| - 1]);
    BinanceSurvives(mid, u);
    AcceptedDeltaSetsTheId(Binance, mid, u);
    EditsRefineTheMap(mid.(sequenceId := Some(u.sequenceIdEnd)), EditsOf(Binance, u));
  }

  /** A stream that starts in time: one or the other. */
  lemma {:induction false} GateOnATimelyStream(book: Book, us: seq<BookUpdate>, id: int)
    requires book.sequenceId == Some(id) && book.Sorted()
    requires Contiguous(us) && !StartsLate(us, id)
    ensures if Straddled(id, us) then StaysAtTheSnapshot(book, us, id) else FollowsTheRule(book, us, id)
    decreases |us|
  {
    if us != [] {
      var front := us[..|us| - 1];
      GateOnATimelyStream(book, front, id);
      StraddledSnoc(id, us);
      assert Joins(us, id);
      if Straddled(id, front) {
        StaysAfterStraddling(book, us, id);
      } else if us[|us| - 1].sequenceId <= id < us[|us| - 1].sequenceIdEnd {
        StaysAtTheStraddlingEvent(book, us, id);
      } else {
        FollowsOneMore(book, us, id);
      }
    }
  }

  lemma StraddledSnoc(id: int, us: seq<BookUpdate>)
    requires us != []
    ensures Straddled(id, us) <==>
      Straddled(id, us[..|us| - 1]) || us[|us| - 1].sequenceId <= id < us[|us| - 1].sequenceIdEnd
  {
  }

  /** On a gap-free stream, one of three: it starts too late, an event straddles the snapshot, or the rule is
      followed. */
  lemma GateOnAContiguousStream(book: Book, us: seq<BookUpdate>, id: int)
    requires book.sequenceId == Some(id) && book.Sorted() && Contiguous(us)
    ensures StartsLate(us, id) ==> NobodyJoins(book, us, id) && !Straddled(id, us)
    ensures !StartsLate(us, id) ==>
      if Straddled(id, us) then StaysAtTheSnapshot(book, us, id) else FollowsTheRule(book, us, id)
  {
    if StartsLate(us, id) {
      forall i | 0 <= i < |us| ensures us[i].sequenceId > id + 1 {
        StartsGrow(us, 0, i);
      }
      NobodyJoinsALateStream(book, us, id);
    } else {
      GateOnATimelyStream(book, us, id);
    }
  }

  lemma FailureAfterTheStraddlingEvent(book: Book, us: seq<BookUpdate>, id: int, i: nat, j: nat)
    requires book.sequenceId == Some(id) && book.Sorted()
    requires Contiguous(us) && i < j < |us|
    requires us[i].sequenceId <= id < us[i].sequenceIdEnd
    ensures ApplyDelta(Binance, Delivered(Binance, book, us[..j]), us[j]) == (Failure, book)
  {
    var front := us[..j];
    StartsGrow(us, 0, i);
    assert front[i] == us[i] && front[j - 1] == us[j - 1];
    GateOnAContiguousStream(book, front, id);
    assert us[j].sequenceId == us[j - 1].sequenceIdEnd + 1;
  }

  /** On a gap-free stream, however late it starts, the code takes exactly the events the documentation
      prescribes if and only if no event straddles the snapshot id. Otherwise it takes none, and every
      event after the straddling one is answered with FAILURE. */
  lemma BinanceFollowsTheRuleUnlessStraddled(book: Book, us: seq<BookUpdate>, id: int)
    requires book.sequenceId == Some(id) && book.Sorted() && Contiguous(us)
    ensures Accepted(Binance, book, us) == RuleAccepted(id, us) <==> !Straddled(id, us)
    ensures Straddled(id, us) ==> Delivered(Binance, book, us) == book && Accepted(Binance, book, us) == []
    ensures forall i, j | 0 <= i < j < |us| && us[i].sequenceId <= id < us[i].sequenceIdEnd ::
      ApplyDelta(Binance, Delivered(Binance, book, us[..j]), us[j]) == (Failure, book)
  {
    GateOnAContiguousStream(book, us, id);
    forall i, j | 0 <= i < j < |us| && us[i].sequenceId <= id < us[i].sequenceIdEnd
      ensures ApplyDelta(Binance, Delivered(Binance, book, us[..j]), us[j]) == (Failure, book)
    {
      FailureAfterTheStraddlingEvent(book, us, id, i, j);
    }
  }
}
