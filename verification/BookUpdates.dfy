/**
 * Whole updates of a local book and the sequence-id gate in front of them:
 * the `update_for_*` methods of data/order_book.py as functions on book values.
 */
module BookUpdates {
  import opened Exchanges
  import opened OrderBooks
  import opened Wrappers

  /** The book an exchange has, as two maps from price to volume. */
  datatype Quotes = Quotes(ask: map<real, real>, bid: map<real, real>)

  /** `sequenceId` is None until a snapshot has been installed. */
  datatype Book = Book(ask: seq<Deal>, bid: seq<Deal>, sequenceId: Option<int>) {
    function View(): Quotes { Quotes(Levels(ask), Levels(bid)) }

    ghost predicate Sorted() { SortedSide(Ask, ask) && SortedSide(Bid, bid) }
  }

  const EMPTY_BOOK := Book([], [], None)

  /** `data/order_book_update.py`. Only Binance fills `sequenceIdEnd`; the fills of a
      Bittrex update lower the volume of a level instead of setting it. */
  datatype BookUpdate = BookUpdate(
    sequenceId: int, sequenceIdEnd: int, ask: seq<Deal>, bid: seq<Deal>,
    tradesSell: seq<Deal>, tradesBuy: seq<Deal>)

  /** What a socket callback hands over: a full book or a delta. */
  datatype Message =
    | Snapshot(snapshotId: int, snapshotAsk: seq<Deal>, snapshotBid: seq<Deal>)
    | Delta(update: BookUpdate)

  /** `Raised` is a Python exception, `Dead` is the end of the process by `die_hard`. */
  datatype Outcome = Success | Failure | Raised | Dead

  // ------------------------------------------------------------------ level edits

  /** One call of `insert_new_ask_preserve_order` or `insert_new_bid_preserve_order`. */
  datatype LevelEdit = LevelEdit(side: Side, deal: Deal, overwriteVolume: bool)

  function EditsFor(side: Side, deals: seq<Deal>, overwriteVolume: bool): seq<LevelEdit> {
    seq(|deals|, i requires 0 <= i < |deals| => LevelEdit(side, deals[i], overwriteVolume))
  }

  /** The calls one delta makes, in the order of the source's loops. */
  function EditsOf(exchange: Exchange, u: BookUpdate): seq<LevelEdit> {
    var levels := EditsFor(Ask, u.ask, true) + EditsFor(Bid, u.bid, true);
    if exchange == Bittrex
    then levels + EditsFor(Ask, u.tradesSell, false) + EditsFor(Bid, u.tradesBuy, false)
    else levels
  }

  /** None when the process has died. */
  function ApplyEdit(book: Book, e: LevelEdit): Option<Book> {
    var edit := Insert(e.side, if e.side == Ask then book.ask else book.bid, e.deal, e.overwriteVolume);
    match edit
    case Died => None
    case Kept(levels) => Some(if e.side == Ask then book.(ask := levels) else book.(bid := levels))
  }

  function ApplyEdits(book: Book, edits: seq<LevelEdit>): Option<Book>
    decreases |edits|
  {
    if edits == [] then Some(book)
    else match ApplyEdit(book, edits[0])
      case None => None
      case Some(next) => ApplyEdits(next, edits[1..])
  }

  // ------------------------------------------------- the same edits on the map view

  /** The local rule: overwriting sets or drops a level, a fill lowers it. */
  ghost function EditQuotes(q: Quotes, e: LevelEdit): Quotes {
    match e.side
    case Ask => q.(ask := MapAfter(Ask, q.ask, e.deal, e.overwriteVolume))
    case Bid => q.(bid := MapAfter(Bid, q.bid, e.deal, e.overwriteVolume))
  }

  ghost function EditAllQuotes(q: Quotes, edits: seq<LevelEdit>): Quotes
    decreases |edits|
  {
    if edits == [] then q else EditAllQuotes(EditQuotes(q, edits[0]), edits[1..])
  }

  /** The exchange's rule: set the volume, zero removes. */
  function ExchangeEdit(q: Quotes, e: LevelEdit): Quotes {
    match e.side
    case Ask => q.(ask := ExchangeSetLevel(q.ask, e.deal))
    case Bid => q.(bid := ExchangeSetLevel(q.bid, e.deal))
  }

  function ExchangeEdits(q: Quotes, edits: seq<LevelEdit>): Quotes
    decreases |edits|
  {
    if edits == [] then q else ExchangeEdits(ExchangeEdit(q, edits[0]), edits[1..])
  }

  /** A whole side of a delta under the exchange's rule. */
  function ExchangeSetLevels(m: map<real, real>, deals: seq<Deal>): map<real, real>
    decreases |deals|
  {
    if deals == [] then m else ExchangeSetLevels(ExchangeSetLevel(m, deals[0]), deals[1..])
  }

  /** And under the local rule: setting levels, or lowering them by fills. */
  ghost function SetLevels(side: Side, m: map<real, real>, deals: seq<Deal>, overwriteVolume: bool): map<real, real>
    decreases |deals|
  {
    if deals == [] then m
    else SetLevels(side, MapAfter(side, m, deals[0], overwriteVolume), deals[1..], overwriteVolume)
  }

  function WithSide(q: Quotes, side: Side, m: map<real, real>): Quotes {
    match side case Ask => q.(ask := m) case Bid => q.(bid := m)
  }

  function SideOf(q: Quotes, side: Side): map<real, real> {
    match side case Ask => q.ask case Bid => q.bid
  }

  lemma FirstOfEdits(side: Side, deals: seq<Deal>, overwriteVolume: bool, rest: seq<LevelEdit>)
    requires deals != []
    ensures
      var edits := EditsFor(side, deals, overwriteVolume) + rest;
      && edits[0] == LevelEdit(side, deals[0], overwriteVolume)
      && edits[1..] == EditsFor(side, deals[1..], overwriteVolume) + rest
  {
  }

  lemma {:induction false} ExchangeEditsOfASide(q: Quotes, side: Side, deals: seq<Deal>, rest: seq<LevelEdit>)
    ensures ExchangeEdits(q, EditsFor(side, deals, true) + rest) ==
      ExchangeEdits(WithSide(q, side, ExchangeSetLevels(SideOf(q, side), deals)), rest)
    decreases |deals|
  {
    if deals == [] {
      assert EditsFor(side, deals, true) + rest == rest;
    } else {
      FirstOfEdits(side, deals, true, rest);
      ExchangeEditsOfASide(WithSide(q, side, ExchangeSetLevel(SideOf(q, side), deals[0])), side, deals[1..], rest);
    }
  }

  lemma {:induction false} LocalEditsOfASide(q: Quotes, side: Side, deals: seq<Deal>, overwriteVolume: bool,
      rest: seq<LevelEdit>)
    ensures EditAllQuotes(q, EditsFor(side, deals, overwriteVolume) + rest) ==
      EditAllQuotes(WithSide(q, side, SetLevels(side, SideOf(q, side), deals, overwriteVolume)), rest)
    decreases |deals|
  {
    if deals == [] {
      assert EditsFor(side, deals, overwriteVolume) + rest == rest;
    } else {
      FirstOfEdits(side, deals, overwriteVolume, rest);
      var first := MapAfter(side, SideOf(q, side), deals[0], overwriteVolume);
      LocalEditsOfASide(WithSide(q, side, first), side, deals[1..], overwriteVolume, rest);
    }
  }

  /** No fills among the messages that carry some. */
  predicate WithoutFills(exchange: Exchange, u: BookUpdate) {
    exchange == Bittrex ==> u.tradesSell == [] && u.tradesBuy == []
  }

  /** Without fills, the calls a delta makes set its asks on the ask side and its bids on the bid side. */
  lemma EditsSetBothSides(exchange: Exchange, u: BookUpdate, q: Quotes)
    requires WithoutFills(exchange, u)
    ensures Overwriting(EditsOf(exchange, u))
    ensures ExchangeEdits(q, EditsOf(exchange, u)) ==
      Quotes(ExchangeSetLevels(q.ask, u.ask), ExchangeSetLevels(q.bid, u.bid))
  {
    var asks, bids := EditsFor(Ask, u.ask, true), EditsFor(Bid, u.bid, true);
    assert EditsOf(exchange, u) == asks + bids && bids == bids + [];
    ExchangeEditsOfASide(q, Ask, u.ask, bids);
    ExchangeEditsOfASide(q.(ask := ExchangeSetLevels(q.ask, u.ask)), Bid, u.bid, []);
  }

  /** The two maps after a delta: its asks and bids are set, and then Bittrex fills lower the asks that
      were sold and the bids that were bought. */
  ghost function QuotesAfter(exchange: Exchange, q: Quotes, u: BookUpdate): Quotes {
    var ask, bid := SetLevels(Ask, q.ask, u.ask, true), SetLevels(Bid, q.bid, u.bid, true);
    if exchange == Bittrex
    then Quotes(SetLevels(Ask, ask, u.tradesSell, false), SetLevels(Bid, bid, u.tradesBuy, false))
    else Quotes(ask, bid)
  }

  lemma EditsMakeTheQuotes(exchange: Exchange, u: BookUpdate, q: Quotes)
    ensures EditAllQuotes(q, EditsOf(exchange, u)) == QuotesAfter(exchange, q, u)
  {
    var asks, bids := EditsFor(Ask, u.ask, true), EditsFor(Bid, u.bid, true);
    var sold, bought := EditsFor(Ask, u.tradesSell, false), EditsFor(Bid, u.tradesBuy, false);
    var fills := if exchange == Bittrex then sold + bought else [];
    assert EditsOf(exchange, u) == asks + (bids + fills);
    LocalEditsOfASide(q, Ask, u.ask, true, bids + fills);
    var q1 := q.(ask := SetLevels(Ask, q.ask, u.ask, true));
    LocalEditsOfASide(q1, Bid, u.bid, true, fills);
    if exchange == Bittrex {
      var q2 := q1.(bid := SetLevels(Bid, q.bid, u.bid, true));
      LocalEditsOfASide(q2, Ask, u.tradesSell, false, bought);
      assert bought == bought + [];
      LocalEditsOfASide(q2.(ask := SetLevels(Ask, q2.ask, u.tradesSell, false)), Bid, u.tradesBuy, false, []);
    }
  }

  ghost function CleanQuotes(q: Quotes): Quotes { Quotes(Clean(q.ask), Clean(q.bid)) }

  ghost predicate Overwriting(edits: seq<LevelEdit>) {
    forall i | 0 <= i < |edits| :: edits[i].overwriteVolume
  }

  lemma OneEditRefinesTheMap(book: Book, e: LevelEdit)
    requires book.Sorted()
    ensures e.overwriteVolume ==> ApplyEdit(book, e).Some?
    ensures ApplyEdit(book, e).Some? ==>
      ApplyEdit(book, e).value.Sorted() && ApplyEdit(book, e).value.View() == EditQuotes(book.View(), e)
      && ApplyEdit(book, e).value.sequenceId == book.sequenceId
  {
    InsertIsOneMapUpdate(e.side, if e.side == Ask then book.ask else book.bid, e.deal, e.overwriteVolume);
  }

  /** Any list of edits keeps both sides sorted and acts on the map view as the plain rule says. */
  lemma {:induction false} EditsRefineTheMap(book: Book, edits: seq<LevelEdit>)
    requires book.Sorted()
    ensures Overwriting(edits) ==> ApplyEdits(book, edits).Some?
    ensures ApplyEdits(book, edits).Some? ==>
      && ApplyEdits(book, edits).value.Sorted()
      && ApplyEdits(book, edits).value.View() == EditAllQuotes(book.View(), edits)
      && ApplyEdits(book, edits).value.sequenceId == book.sequenceId
    decreases |edits|
  {
    if edits != [] {
      OneEditRefinesTheMap(book, edits[0]);
      var next := ApplyEdit(book, edits[0]);
      if next.Some? {
        EditsRefineTheMap(next.value, edits[1..]);
      }
    }
  }

  /** Modulo dust, the local rule is the exchange's rule. */
  lemma {:induction false} EditsFollowTheExchange(local: Quotes, exchange: Quotes, edits: seq<LevelEdit>)
    requires CleanQuotes(local) == CleanQuotes(exchange) && Overwriting(edits)
    ensures CleanQuotes(EditAllQuotes(local, edits)) == CleanQuotes(ExchangeEdits(exchange, edits))
    decreases |edits|
  {
    if edits != [] {
      match edits[0].side {
        case Ask => CleanSetLevel(local.ask, exchange.ask, edits[0].deal);
        case Bid => CleanSetLevel(local.bid, exchange.bid, edits[0].deal);
      }
      EditsFollowTheExchange(EditQuotes(local, edits[0]), ExchangeEdit(exchange, edits[0]), edits[1..]);
    }
  }

  // --------------------------------------------------------------------- the gate

  /** How an incoming id compares with the book's own. Comparing None with a number is False
      in Python 2, so before a snapshot the addition that follows raises. */
  datatype Gate = Unset | Stale | Gap | Next

  function GateOf(own: Option<int>, incoming: int): Gate {
    match own
    case None => Unset
    case Some(id) => if id >= incoming then Stale else if id + 1 != incoming then Gap else Next
  }

  /** The id a book carries after a delta. */
  function LastId(exchange: Exchange, u: BookUpdate): int {
    if exchange == Binance then u.sequenceIdEnd else u.sequenceId
  }

  function Installed(m: Message): Book
    requires m.Snapshot?
  {
    Book(SortByPrice(Ask, m.snapshotAsk), SortByPrice(Bid, m.snapshotBid), Some(m.snapshotId))
  }

  function ApplyDelta(exchange: Exchange, book: Book, u: BookUpdate): (Outcome, Book) {
    match GateOf(book.sequenceId, u.sequenceId)
    case Unset => (Raised, book)
    case Stale => (Success, book)
    case Gap => (Failure, book)
    case Next =>
      match ApplyEdits(book.(sequenceId := Some(LastId(exchange, u))), EditsOf(exchange, u))
      case None => (Dead, book)
      case Some(after) => (Success, after)
  }

  /** `OrderBook.update`: Binance expects deltas only, Huobi full books only, Kraken has no entry. */
  function AfterUpdate(exchange: Exchange, book: Book, m: Message): (Outcome, Book) {
    match exchange
    case Poloniex => if m.Snapshot? then (Success, Installed(m)) else ApplyDelta(exchange, book, m.update)
    case Bittrex => if m.Snapshot? then (Success, Installed(m)) else ApplyDelta(exchange, book, m.update)
    case Binance =>
      if m.Delta? then ApplyDelta(exchange, book, m.update)
      else
        (match GateOf(book.sequenceId, m.snapshotId) case Stale => Success case Gap => Failure case _ => Raised, book)
    case Huobi => if m.Snapshot? then (Success, Installed(m)) else (Raised, book)
    case Kraken => (Raised, book)
  }

  // ------------------------------------------------------------------ what an update answers

  /** A delta, by its id and the book's: nothing happens to a stale one, nor without a snapshot, nor after
      a gap; the next one moves both maps and the id, unless a fill ends the process. */
  lemma DeltaAnswers(exchange: Exchange, book: Book, u: BookUpdate)
    requires exchange in {Poloniex, Bittrex, Binance}
    ensures
      var r := AfterUpdate(exchange, book, Delta(u));
      match book.sequenceId
      case None => r == (Raised, book)
      case Some(id) =>
        && (u.sequenceId <= id ==> r == (Success, book))
        && (u.sequenceId > id + 1 ==> r == (Failure, book))
        && (u.sequenceId == id + 1 && book.Sorted() ==>
             && (r.0 == Success || (r.0 == Dead && !WithoutFills(exchange, u)))
             && (r.0 == Success ==>
                  && r.1.Sorted() && r.1.View() == QuotesAfter(exchange, book.View(), u)
                  && r.1.sequenceId == Some(if exchange == Binance then u.sequenceIdEnd else u.sequenceId)))
  {
    if book.sequenceId == Some(u.sequenceId - 1) && book.Sorted() {
      var entered := book.(sequenceId := Some(LastId(exchange, u)));
      EditsRefineTheMap(entered, EditsOf(exchange, u));
      EditsMakeTheQuotes(exchange, u, book.View());
      if WithoutFills(exchange, u) {
        EditsSetBothSides(exchange, u, book.View());
      }
    }
  }

  /** A full book: Poloniex, Bittrex and Huobi take it whatever their own id is; Binance never does. */
  lemma SnapshotAnswers(exchange: Exchange, book: Book, m: Message)
    requires m.Snapshot?
    ensures
      var r := AfterUpdate(exchange, book, m);
      match exchange
      case Kraken => r == (Raised, book)
      case Binance =>
        && r.1 == book
        && (r.0 == Success <==> book.sequenceId.Some? && m.snapshotId <= book.sequenceId.value)
        && (r.0 == Failure <==> book.sequenceId.Some? && m.snapshotId > book.sequenceId.value + 1)
        && r.0 != Dead
      case _ =>
        && r.0 == Success && r.1.sequenceId == Some(m.snapshotId)
        && (DistinctPrices(m.snapshotAsk) && DistinctPrices(m.snapshotBid) ==>
             r.1.Sorted() && r.1.View() == Quotes(Levels(m.snapshotAsk), Levels(m.snapshotBid)))
  {
    SortingKeepsTheMap(Ask, m.snapshotAsk);
    SortingKeepsTheMap(Bid, m.snapshotBid);
  }

  /** Huobi sends full books only and Kraken has no entry. */
  lemma NoDeltasElsewhere(exchange: Exchange, book: Book, u: BookUpdate)
    requires exchange in {Huobi, Kraken}
    ensures AfterUpdate(exchange, book, Delta(u)) == (Raised, book)
  {
  }

  // ------------------------------------------------------------- agreement with the exchange

  /** The exchange's true book after each of its sequence ids. */
  type Truth = int -> Quotes

  /** A message an honest exchange sends: a snapshot shows the true book at its id, a delta
      says which asks and which bids lead from the true book just before its first id to the one at its
      last id, which is the second id of a Binance delta. */
  ghost predicate Honest(truth: Truth, exchange: Exchange, m: Message) {
    match m
    case Snapshot(id, ask, bid) =>
      DistinctPrices(ask) && DistinctPrices(bid) && Quotes(Levels(ask), Levels(bid)) == truth(id)
    case Delta(u) =>
      var before, last := truth(u.sequenceId - 1), if exchange == Binance then u.sequenceIdEnd else u.sequenceId;
      && u.sequenceId <= last
      && WithoutFills(exchange, u)
      && truth(last) == Quotes(ExchangeSetLevels(before.ask, u.ask), ExchangeSetLevels(before.bid, u.bid))
  }

  /** Once a snapshot is in, the book is sorted and shows, up to dust, the true book at its own id. */
  ghost predicate Agrees(truth: Truth, book: Book) {
    book.sequenceId.Some? ==>
      book.Sorted() && CleanQuotes(book.View()) == CleanQuotes(truth(book.sequenceId.value))
  }

  /** A book in the middle of an update: finishing `edits` will make it agree. */
  ghost predicate WillAgree(truth: Truth, book: Book, edits: seq<LevelEdit>) {
    && book.sequenceId.Some? && book.Sorted() && Overwriting(edits)
    && CleanQuotes(EditAllQuotes(book.View(), edits)) == CleanQuotes(truth(book.sequenceId.value))
  }

  lemma InstalledAgrees(truth: Truth, exchange: Exchange, m: Message)
    requires m.Snapshot? && Honest(truth, exchange, m)
    ensures Agrees(truth, Installed(m))
  {
    SortingKeepsTheMap(Ask, m.snapshotAsk);
    SortingKeepsTheMap(Bid, m.snapshotBid);
  }

  /** Passing the gate and writing the new id leaves a book that the remaining edits complete. */
  lemma EnteredWillAgree(truth: Truth, exchange: Exchange, book: Book, u: BookUpdate)
    requires Agrees(truth, book) && Honest(truth, exchange, Delta(u))
    requires GateOf(book.sequenceId, u.sequenceId) == Next
    ensures WillAgree(truth, book.(sequenceId := Some(LastId(exchange, u))), EditsOf(exchange, u))
  {
    EditsSetBothSides(exchange, u, truth(u.sequenceId - 1));
    EditsFollowTheExchange(book.View(), truth(u.sequenceId - 1), EditsOf(exchange, u));
  }

  lemma EditedWillAgree(truth: Truth, book: Book, edits: seq<LevelEdit>)
    requires WillAgree(truth, book, edits) && edits != []
    ensures ApplyEdit(book, edits[0]).Some? && WillAgree(truth, ApplyEdit(book, edits[0]).value, edits[1..])
  {
    OneEditRefinesTheMap(book, edits[0]);
  }

  lemma AcceptedKeepsAgreement(truth: Truth, exchange: Exchange, book: Book, u: BookUpdate)
    requires Agrees(truth, book) && Honest(truth, exchange, Delta(u)) && GateOf(book.sequenceId, u.sequenceId) == Next
    ensures
      var (outcome, after) := ApplyDelta(exchange, book, u);
      Agrees(truth, after) && outcome == Success && after.sequenceId == Some(LastId(exchange, u))
  {
    EnteredWillAgree(truth, exchange, book, u);
    EditsRefineTheMap(book.(sequenceId := Some(LastId(exchange, u))), EditsOf(exchange, u));
  }

  /** Every call of `update` with an honest message keeps the agreement, never dies, leaves the
      book alone unless it succeeds, and a delta never moves the id backwards. */
  lemma UpdateKeepsAgreement(truth: Truth, exchange: Exchange, book: Book, m: Message)
    requires Agrees(truth, book) && Honest(truth, exchange, m)
    ensures
      var (outcome, after) := AfterUpdate(exchange, book, m);
      && Agrees(truth, after)
      && outcome != Dead
      && (outcome != Success ==> after == book)
      && (m.Delta? && book.sequenceId.Some? ==>
            after.sequenceId.Some? && after.sequenceId.value >= book.sequenceId.value)
  {
    if m.Snapshot? {
      InstalledAgrees(truth, exchange, m);
    } else if GateOf(book.sequenceId, m.update.sequenceId) == Next {
      AcceptedKeepsAgreement(truth, exchange, book, m.update);
    }
  }
}
