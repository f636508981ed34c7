/**
 * Bittrex socket messages: `parse_socket_update_bittrex` of bittrex/socket_api.py turns typed
 * level events into deltas with absolute volumes.
 */
module BittrexSocket {
  import opened OrderBooks
  import opened BookUpdates
  import opened Exchanges
  import opened Wrappers

  const ORDER_ADD := 0
  const ORDER_REMOVE := 1
  const ORDER_UPDATE := 2

  /** One entry of the arrays "S" and "Z"; the type may be missing. */
  datatype LevelEvent = LevelEvent(rate: real, quantity: real, eventType: Option<int>)

  /** What an entry means for a side: ADD and UPDATE give the absolute quantity, REMOVE takes the
      level away whatever quantity it carries, anything else is ignored. */
  function AfterEvent(m: map<real, real>, e: LevelEvent): map<real, real> {
    match e.eventType
    case None => m
    case Some(t) =>
      if t == ORDER_REMOVE then m - {e.rate}
      else if t == ORDER_ADD || t == ORDER_UPDATE then ExchangeSetLevel(m, Deal(e.rate, e.quantity))
      else m
  }

  function AfterEvents(m: map<real, real>, es: seq<LevelEvent>): map<real, real>
    decreases |es|
  {
    if es == [] then m else AfterEvents(AfterEvent(m, es[0]), es[1..])
  }

  /** What one entry contributes to the update. */
  function DealsOf(e: LevelEvent): seq<Deal> {
    match e.eventType
    case None => []
    case Some(t) =>
      if t == ORDER_ADD || t == ORDER_UPDATE then [Deal(e.rate, e.quantity)]
      else if t == ORDER_REMOVE then [Deal(e.rate, 0.0)]
      else []
  }

  function AllDealsOf(es: seq<LevelEvent>): seq<Deal>
    decreases |es|
  {
    if es == [] then [] else DealsOf(es[0]) + AllDealsOf(es[1..])
  }

  lemma {:induction false} AllDealsSnoc(es: seq<LevelEvent>, e: LevelEvent)
    ensures AllDealsOf(es + [e]) == AllDealsOf(es) + DealsOf(e)
    decreases |es|
  {
    if es == [] {
      assert es + [e] == [e] && [e][1..] == [];
    } else {
      assert (es + [e])[1..] == es[1..] + [e];
      AllDealsSnoc(es[1..], e);
    }
  }

  method ParseLevels(events: seq<LevelEvent>) returns (deals: seq<Deal>)
    ensures deals == AllDealsOf(events)
  {
    deals := [];
    for i := 0 to |events|
      invariant deals == AllDealsOf(events[..i])
    {
      assert events[..i + 1] == events[..i] + [events[i]];
      AllDealsSnoc(events[..i], events[i]);
      var newDeal := Deal(events[i].rate, events[i].quantity);
      if events[i].eventType.Some? {
        var typeUpdate := events[i].eventType.value;
        if typeUpdate == ORDER_ADD || typeUpdate == ORDER_UPDATE {
          deals := deals + [newDeal];
        } else if typeUpdate == ORDER_REMOVE {
          deals := deals + [Deal(events[i].rate, 0.0)];
        }
      }
    }
    assert events[..|events|] == events;
  }

  method ParseSocketUpdate(nonce: int, sells: seq<LevelEvent>, buys: seq<LevelEvent>) returns (u: BookUpdate)
    ensures u.sequenceId == nonce && u.ask == AllDealsOf(sells) && u.bid == AllDealsOf(buys)
    ensures u.tradesSell == [] && u.tradesBuy == []
  {
    var asks := ParseLevels(sells);
    var bids := ParseLevels(buys);
    u := BookUpdate(nonce, nonce, asks, bids, [], []);
  }

  lemma {:induction false} DealsMeanTheirEvents(m: map<real, real>, es: seq<LevelEvent>)
    ensures ExchangeSetLevels(m, AllDealsOf(es)) == AfterEvents(m, es)
    decreases |es|
  {
    if es != [] {
      var deals := AllDealsOf(es);
      DealsMeanTheirEvents(AfterEvent(m, es[0]), es[1..]);
      if DealsOf(es[0]) != [] {
        assert deals[0] == DealsOf(es[0])[0] && deals[1..] == AllDealsOf(es[1..]);
      } else {
        assert deals == AllDealsOf(es[1..]);
      }
    }
  }

  /** A parsed update never carries fills, and applying its deltas means what the typed events
      say on each side: in particular a REMOVE takes its level away. */
  lemma ParsedUpdateMeansItsEvents(q: Quotes, u: BookUpdate, sells: seq<LevelEvent>, buys: seq<LevelEvent>)
    requires u.ask == AllDealsOf(sells) && u.bid == AllDealsOf(buys) && u.tradesSell == [] && u.tradesBuy == []
    ensures Overwriting(EditsOf(Bittrex, u))
    ensures ExchangeEdits(q, EditsOf(Bittrex, u)) == Quotes(AfterEvents(q.ask, sells), AfterEvents(q.bid, buys))
  {
    EditsSetBothSides(Bittrex, u, q);
    DealsMeanTheirEvents(q.ask, sells);
    DealsMeanTheirEvents(q.bid, buys);
  }

  /** If the exchange's own book moves by the typed events of message `nonce`, the parsed delta
      is an honest one, so every result about honest deltas applies to it. */
  lemma ParsedUpdateIsHonest(truth: Truth, u: BookUpdate, sells: seq<LevelEvent>, buys: seq<LevelEvent>)
    requires u.ask == AllDealsOf(sells) && u.bid == AllDealsOf(buys) && u.tradesSell == [] && u.tradesBuy == []
    requires var before := truth(u.sequenceId - 1);
      truth(u.sequenceId) == Quotes(AfterEvents(before.ask, sells), AfterEvents(before.bid, buys))
    ensures Honest(truth, Bittrex, Delta(u))
  {
    DealsMeanTheirEvents(truth(u.sequenceId - 1).ask, sells);
    DealsMeanTheirEvents(truth(u.sequenceId - 1).bid, buys);
  }
}
