/**
 * `class OrderBook` of data/order_book.py: the object whose lists and id the update
 * methods change in place. Every method is tied to the functions on book values.
 */
module LocalOrderBook {
  import opened BinarySearch
  import opened OrderBooks
  import opened BookUpdates
  import opened Exchanges
  import opened Wrappers

  class OrderBook {
    var ask: seq<Deal>
    var bid: seq<Deal>
    var sequenceId: Option<int>

    function Value(): Book
      reads this
    {
      Book(ask, bid, sequenceId)
    }

    constructor (sellBids: seq<Deal>, buyBids: seq<Deal>, sequenceId: Option<int>)
      ensures Value() == Book(sellBids, buyBids, sequenceId)
    {
      ask, bid, this.sequenceId := sellBids, buyBids, sequenceId;
    }

    method SortBothSides()
      modifies this`ask, this`bid
      ensures Value() == Book(SortByPrice(Ask, old(ask)), SortByPrice(Bid, old(bid)), sequenceId)
    {
      bid := SortByPrice(Bid, bid);
      ask := SortByPrice(Ask, ask);
    }

    /** False when the process dies. */
    method InsertNewBidPreserveOrder(newBid: Deal, overwriteVolume: bool) returns (alive: bool)
      modifies this`bid
      ensures alive && Some(Value()) == ApplyEdit(old(Value()), LevelEdit(Bid, newBid, overwriteVolume))
    {
      var itemInsertPoint := Search(bid, newBid, SamePrice, BidBefore);
      var isPresent := false;
      if itemInsertPoint < |bid| {
        isPresent := SamePrice(bid[itemInsertPoint], newBid);
      }
      var almostZero := newBid.volume <= DUST;
      var shouldDelete := almostZero && isPresent;
      var updateVolumeError := !isPresent && !overwriteVolume;
      if shouldDelete {
        bid := bid[..itemInsertPoint] + bid[itemInsertPoint + 1..];
      } else if isPresent {
        bid := bid[itemInsertPoint := bid[itemInsertPoint].(volume := newBid.volume)];
      } else if updateVolumeError {
      } else if !almostZero {
        bid := bid[..itemInsertPoint] + [newBid] + bid[itemInsertPoint..];
      }
      alive := true;
    }

    /** False when the process dies. */
    method InsertNewAskPreserveOrder(newAsk: Deal, overwriteVolume: bool) returns (alive: bool)
      modifies this`ask
      ensures alive <==> ApplyEdit(old(Value()), LevelEdit(Ask, newAsk, overwriteVolume)).Some?
      ensures alive ==> Some(Value()) == ApplyEdit(old(Value()), LevelEdit(Ask, newAsk, overwriteVolume))
    {
      var itemInsertPoint := Search(ask, newAsk, SamePrice, AskBefore);
      var isPresent := false;
      if itemInsertPoint < |ask| {
        isPresent := SamePrice(ask[itemInsertPoint], newAsk);
      }
      var almostZero := newAsk.volume <= DUST;
      var shouldDelete := almostZero && isPresent;
      var shouldOverwrite := isPresent && overwriteVolume;
      var shouldUpdateVolume := isPresent && !overwriteVolume;
      var updateVolumeError := !isPresent && !overwriteVolume;
      alive := true;
      if shouldDelete {
        ask := ask[..itemInsertPoint] + ask[itemInsertPoint + 1..];
      } else if shouldOverwrite {
        ask := ask[itemInsertPoint := ask[itemInsertPoint].(volume := newAsk.volume)];
      } else if shouldUpdateVolume {
        var rest := ask[itemInsertPoint].volume - newAsk.volume;
        ask := ask[itemInsertPoint := ask[itemInsertPoint].(volume := rest)];
        alive := rest >= 0.0;
      } else if updateVolumeError {
      } else if !almostZero {
        ask := ask[..itemInsertPoint] + [newAsk] + ask[itemInsertPoint..];
      }
    }

    /** One of the four loops of an update: `deals` go through the insertion one by one. */
    method InsertAll(side: Side, deals: seq<Deal>, overwriteVolume: bool) returns (alive: bool)
      modifies this`ask, this`bid
      ensures alive <==> ApplyEdits(old(Value()), EditsFor(side, deals, overwriteVolume)).Some?
      ensures alive ==> Some(Value()) == ApplyEdits(old(Value()), EditsFor(side, deals, overwriteVolume))
    {
      ghost var edits := EditsFor(side, deals, overwriteVolume);
      alive := true;
      for i := 0 to |deals|
        invariant alive && sequenceId == old(sequenceId)
        invariant ApplyEdits(Value(), edits[i..]) == ApplyEdits(old(Value()), edits)
      {
        assert edits[i..][0] == LevelEdit(side, deals[i], overwriteVolume) && edits[i..][1..] == edits[i + 1..];
        if side == Ask {
          alive := InsertNewAskPreserveOrder(deals[i], overwriteVolume);
        } else {
          alive := InsertNewBidPreserveOrder(deals[i], overwriteVolume);
        }
        if !alive {
          return;
        }
      }
    }

    method CopyOrderBook(m: Message)
      requires m.Snapshot?
      modifies this
      ensures Value() == Book(m.snapshotAsk, m.snapshotBid, Some(m.snapshotId))
    {
      ask, bid, sequenceId := m.snapshotAsk, m.snapshotBid, Some(m.snapshotId);
    }

    method UpdateForPoloniex(m: Message) returns (status: Outcome)
      modifies this
      ensures (status, Value()) == AfterUpdate(Poloniex, old(Value()), m)
    {
      if m.Snapshot? {
        CopyOrderBook(m);
        SortBothSides();
      } else {
        var own, u := sequenceId, m.update;
        if own.Some? && own.value >= u.sequenceId {
          return Success;
        }
        if own.None? {
          return Raised;
        }
        if own.value + 1 != u.sequenceId {
          return Failure;
        }
        sequenceId := Some(u.sequenceId);
        ghost var entered := Value();
        EditsNeverKill(entered, EditsFor(Ask, u.ask, true), EditsFor(Bid, u.bid, true));
        var _ := InsertAll(Ask, u.ask, true);
        var _ := InsertAll(Bid, u.bid, true);
      }
      status := Success;
    }

    method UpdateForBittrex(m: Message) returns (status: Outcome)
      modifies this
      ensures status == AfterUpdate(Bittrex, old(Value()), m).0
      ensures status != Dead ==> Value() == AfterUpdate(Bittrex, old(Value()), m).1
    {
      if m.Snapshot? {
        CopyOrderBook(m);
        SortBothSides();
      } else {
        var own, u := sequenceId, m.update;
        if own.Some? && own.value >= u.sequenceId {
          return Success;
        } else if own.None? {
          return Raised;
        } else if own.value + 1 != u.sequenceId {
          return Failure;
        }
        sequenceId := Some(u.sequenceId);
        ghost var entered := Value();
        ghost var asks, bids := EditsFor(Ask, u.ask, true), EditsFor(Bid, u.bid, true);
        ghost var sold, bought := EditsFor(Ask, u.tradesSell, false), EditsFor(Bid, u.tradesBuy, false);
        EditsInSequence(entered, asks, bids);
        EditsInSequence(entered, asks + bids, sold);
        EditsInSequence(entered, asks + bids + sold, bought);
        var alive := InsertAll(Ask, u.ask, true);
        if alive { alive := InsertAll(Bid, u.bid, true); }
        if alive { alive := InsertAll(Ask, u.tradesSell, false); }
        if alive { alive := InsertAll(Bid, u.tradesBuy, false); }
        if !alive {
          return Dead;
        }
      }
      status := Success;
    }

    method UpdateForBinance(m: Message) returns (status: Outcome)
      modifies this
      ensures (status, Value()) == AfterUpdate(Binance, old(Value()), m)
    {
      var own, incoming := sequenceId, if m.Delta? then m.update.sequenceId else m.snapshotId;
      if own.Some? && own.value >= incoming {
        return Success;
      }
      if own.None? {
        return Raised;
      }
      if own.value + 1 != incoming {
        return Failure;
      }
      if m.Snapshot? {
        return Raised;  // a full book has no attribute sequence_id_end
      }
      var u := m.update;
      sequenceId := Some(u.sequenceIdEnd);
      ghost var entered := Value();
      EditsNeverKill(entered, EditsFor(Ask, u.ask, true), EditsFor(Bid, u.bid, true));
      var _ := InsertAll(Ask, u.ask, true);
      var _ := InsertAll(Bid, u.bid, true);
      status := Success;
    }

    method UpdateForHuobi(m: Message) returns (status: Outcome)
      modifies this
      ensures (status, Value()) == AfterUpdate(Huobi, old(Value()), m)
    {
      if m.Delta? {
        return Raised;  // a delta has no attribute timest
      }
      CopyOrderBook(m);
      SortBothSides();
      status := Success;
    }

    method Update(exchange: Exchange, m: Message) returns (status: Outcome)
      modifies this
      ensures status == AfterUpdate(exchange, old(Value()), m).0
      ensures status != Dead ==> Value() == AfterUpdate(exchange, old(Value()), m).1
    {
      match exchange {
        case Poloniex => status := UpdateForPoloniex(m);
        case Bittrex => status := UpdateForBittrex(m);
        case Binance => status := UpdateForBinance(m);
        case Huobi => status := UpdateForHuobi(m);
        case Kraken => status := Raised;
      }
    }
  }

  lemma {:induction false} EditsInSequence(book: Book, first: seq<LevelEdit>, second: seq<LevelEdit>)
    ensures ApplyEdits(book, first + second)
         == match ApplyEdits(book, first) case None => None case Some(mid) => ApplyEdits(mid, second)
    decreases |first|
  {
    if first == [] {
      assert first + second == second;
    } else {
      assert (first + second)[1..] == first[1..] + second;
      var next := ApplyEdit(book, first[0]);
      if next.Some? {
        EditsInSequence(next.value, first[1..], second);
      }
    }
  }

  /** Overwriting edits never end the process, sorted book or not. */
  lemma {:induction false} OverwritingNeverDies(book: Book, edits: seq<LevelEdit>)
    requires Overwriting(edits)
    ensures ApplyEdits(book, edits).Some?
    decreases |edits|
  {
    if edits != [] {
      assert ApplyEdit(book, edits[0]).Some?;
      OverwritingNeverDies(ApplyEdit(book, edits[0]).value, edits[1..]);
    }
  }

  lemma EditsNeverKill(book: Book, first: seq<LevelEdit>, second: seq<LevelEdit>)
    requires Overwriting(first) && Overwriting(second)
    ensures ApplyEdits(book, first).Some?
    ensures ApplyEdits(ApplyEdits(book, first).value, second).Some?
    ensures ApplyEdits(book, first + second) == ApplyEdits(ApplyEdits(book, first).value, second)
  {
    OverwritingNeverDies(book, first);
    OverwritingNeverDies(ApplyEdits(book, first).value, second);
    EditsInSequence(book, first, second);
  }
}
