/**
 * At what price to trade: the walk into the depth of one side of a book, core/arbitrage_core.py.
 */
module DepthPricing {
  import opened OrderBooks

  const NO_PRICE := -10.0

  /** The volume of the first `k` levels. */
  function Depth(levels: seq<Deal>, k: nat): real
    requires k <= |levels|
  {
    if k == 0 then 0.0 else Depth(levels, k - 1) + levels[k - 1].volume
  }

  /** How many levels a walk for `needed` visits when it has visited `k` already. */
  function Visited(levels: seq<Deal>, needed: real, k: nat): (n: nat)
    requires k <= |levels|
    ensures k <= n <= |levels|
    decreases |levels| - k
  {
    if Depth(levels, k) < needed && k < |levels| then Visited(levels, needed, k + 1) else k
  }

  function PriceAfter(levels: seq<Deal>, n: nat): real
    requires n <= |levels|
  {
    if n == 0 then NO_PRICE else levels[n - 1].price
  }

  /** The price `adjust_price_by_order_book` settles on: the last level visited for twice the volume. */
  function AdjustedPrice(levels: seq<Deal>, minVolume: real): real {
    PriceAfter(levels, Visited(levels, 2.0 * minVolume, 0))
  }

  method AdjustPriceByOrderBook(orders: seq<Deal>, minVolume: real) returns (newPrice: real)
    ensures newPrice == AdjustedPrice(orders, minVolume)
  {
    newPrice := NO_PRICE;
    var accVolume := 0.0;
    var maxVolume := 2.0 * minVolume;
    var idx := 0;
    while accVolume < maxVolume && idx < |orders|
      invariant 0 <= idx <= |orders|
      invariant accVolume == Depth(orders, idx) && newPrice == PriceAfter(orders, idx)
      invariant Visited(orders, maxVolume, 0) == Visited(orders, maxVolume, idx)
      decreases |orders| - idx
    {
      newPrice := orders[idx].price;
      accVolume := accVolume + orders[idx].volume;
      idx := idx + 1;
    }
  }

  // --------------------------------------------------------------- where the walk ends

  lemma {:induction false} VisitedIsFirst(levels: seq<Deal>, needed: real, k: nat, j: nat)
    requires k <= j <= |levels|
    ensures var n := Visited(levels, needed, k);
      && (k <= j < n ==> Depth(levels, j) < needed)
      && (n < |levels| ==> Depth(levels, n) >= needed)
    decreases |levels| - k
  {
    if Depth(levels, k) < needed && k < |levels| {
      VisitedIsFirst(levels, needed, k + 1, if j == k then k + 1 else j);
    }
  }

  /**
   * For a positive volume on a non-empty side the price is that of a level: the first whose depth
   * covers twice the volume, or else the last.
   */
  lemma PriceOfTheFirstDeepEnough(levels: seq<Deal>, minVolume: real)
    requires levels != [] && minVolume > 0.0
    ensures var n := Visited(levels, 2.0 * minVolume, 0);
      && 0 < n <= |levels| && AdjustedPrice(levels, minVolume) == levels[n - 1].price
      && (forall j | 0 <= j < n :: Depth(levels, j) < 2.0 * minVolume)
      && (Depth(levels, n) >= 2.0 * minVolume || n == |levels|)
  {
    var n := Visited(levels, 2.0 * minVolume, 0);
    VisitedIsFirst(levels, 2.0 * minVolume, 0, 0);
    forall j | 0 <= j < n ensures Depth(levels, j) < 2.0 * minVolume {
      VisitedIsFirst(levels, 2.0 * minVolume, 0, j);
    }
  }

  /** The first `n` levels are the fewest that offer twice the volume, or all there are. */
  predicate FirstDeepEnough(levels: seq<Deal>, volume: real, n: nat) {
    && 0 < n <= |levels| && (forall j | 0 <= j < n :: Depth(levels, j) < 2.0 * volume)
    && (Depth(levels, n) >= 2.0 * volume || n == |levels|)
  }

  /** The price of the last level one has to reach for twice the volume. */
  ghost predicate PricedByDepth(levels: seq<Deal>, volume: real, price: real) {
    exists n :: FirstDeepEnough(levels, volume, n) && price == levels[n - 1].price
  }

  /** That is exactly the price the walk finds. */
  lemma WalkFindsThePrice(levels: seq<Deal>, volume: real, price: real)
    requires levels != [] && volume > 0.0
    ensures PricedByDepth(levels, volume, price) <==> price == AdjustedPrice(levels, volume)
  {
    PriceOfTheFirstDeepEnough(levels, volume);
    var n := Visited(levels, 2.0 * volume, 0);
    assert FirstDeepEnough(levels, volume, n);
    if m :| FirstDeepEnough(levels, volume, m) && price == levels[m - 1].price {
      assert m == n;
    }
  }

  /** The walk finds no level exactly when there is none or nothing is to be traded. */
  lemma NoPriceIff(levels: seq<Deal>, minVolume: real)
    ensures Visited(levels, 2.0 * minVolume, 0) == 0 <==> levels == [] || minVolume <= 0.0
  {
  }

  lemma {:induction false} VisitedIsMonotone(levels: seq<Deal>, needed: real, needed': real, k: nat)
    requires k <= |levels| && needed <= needed'
    ensures Visited(levels, needed, k) <= Visited(levels, needed', k)
    decreases |levels| - k
  {
    if Depth(levels, k) < needed && k < |levels| {
      VisitedIsMonotone(levels, needed, needed', k + 1);
    }
  }

  /** A larger volume never gets a better price. */
  lemma LargerVolumesArePricedNoBetter(side: Side, levels: seq<Deal>, v: real, w: real)
    requires SortedSide(side, levels) && levels != [] && 0.0 < v <= w
    ensures !Better(side, AdjustedPrice(levels, w), AdjustedPrice(levels, v))
  {
    VisitedIsMonotone(levels, 2.0 * v, 2.0 * w, 0);
  }

  /** Nor a better price than the best level. */
  lemma NeverBetterThanTheBest(side: Side, levels: seq<Deal>, v: real)
    requires SortedSide(side, levels) && levels != [] && v > 0.0
    ensures !Better(side, AdjustedPrice(levels, v), levels[0].price)
    ensures exists k | 0 <= k < |levels| :: levels[k].price == AdjustedPrice(levels, v)
  {
  }

  // ------------------------------------------------------- what a limit order meets

  /** What a frozen side offers at `limit` or better. */
  function OfferedAt(side: Side, levels: seq<Deal>, limit: real): real {
    if levels == [] then 0.0
    else
      var last := levels[|levels| - 1];
      var before := OfferedAt(side, levels[..|levels| - 1], limit);
      if Better(side, limit, last.price) then before else before + last.volume
  }

  predicate PositiveVolumes(levels: seq<Deal>) { forall d | d in levels :: d.volume > 0.0 }

  lemma {:induction false} DepthOfPrefix(levels: seq<Deal>, m: nat, k: nat)
    requires k <= m <= |levels|
    ensures Depth(levels[..m], k) == Depth(levels, k)
  {
    if k > 0 {
      DepthOfPrefix(levels, m, k - 1);
    }
  }

  /** On a sorted side that is the depth down to the level at the limit. */
  lemma {:induction false} OfferedAtALevel(side: Side, levels: seq<Deal>, n: nat)
    requires SortedSide(side, levels) && 0 < n <= |levels|
    ensures OfferedAt(side, levels, levels[n - 1].price) == Depth(levels, n)
    decreases |levels|
  {
    var m := |levels| - 1;
    if n <= m {
      OfferedAtALevel(side, levels[..m], n);
      DepthOfPrefix(levels, m, n);
    } else {
      OfferedAllButLast(side, levels, m);
    }
  }

  lemma {:induction false} OfferedAllButLast(side: Side, levels: seq<Deal>, m: nat)
    requires SortedSide(side, levels) && m < |levels|
    ensures OfferedAt(side, levels[..m], levels[|levels| - 1].price) == Depth(levels, m)
    decreases m
  {
    if m > 0 {
      assert levels[..m][..m - 1] == levels[..m - 1];
      OfferedAllButLast(side, levels, m - 1);
    }
  }

  lemma {:induction false} DepthGrows(levels: seq<Deal>, k: nat, n: nat)
    requires PositiveVolumes(levels) && k <= n <= |levels|
    ensures k == n || Depth(levels, k) < Depth(levels, n)
    decreases n
  {
    if k < n {
      DepthGrows(levels, k, n - 1);
      assert levels[n - 1] in levels;
    }
  }

  /**
   * A limit order at the price found meets at least twice its volume, or everything there is; and a
   * limit strictly better than that price would meet less than twice the volume.
   */
  lemma LimitMeetsTwiceTheVolume(side: Side, levels: seq<Deal>, v: real)
    requires SortedSide(side, levels) && PositiveVolumes(levels) && levels != [] && v > 0.0
    ensures var offered := OfferedAt(side, levels, AdjustedPrice(levels, v));
      offered >= 2.0 * v || offered == Depth(levels, |levels|)
    ensures forall k | 0 <= k < |levels| && Better(side, levels[k].price, AdjustedPrice(levels, v)) ::
      OfferedAt(side, levels, levels[k].price) < 2.0 * v
  {
    var n := Visited(levels, 2.0 * v, 0);
    PriceOfTheFirstDeepEnough(levels, v);
    OfferedAtALevel(side, levels, n);
    forall k | 0 <= k < |levels| && Better(side, levels[k].price, AdjustedPrice(levels, v))
      ensures OfferedAt(side, levels, levels[k].price) < 2.0 * v
    {
      assert k < n - 1;
      OfferedAtALevel(side, levels, k + 1);
    }
  }

  /** So an order of no more than the best level's volume fills completely. */
  lemma SizedOrdersFillCompletely(side: Side, levels: seq<Deal>, v: real)
    requires SortedSide(side, levels) && PositiveVolumes(levels) && levels != [] && 0.0 < v <= levels[0].volume
    ensures OfferedAt(side, levels, AdjustedPrice(levels, v)) >= v
  {
    LimitMeetsTwiceTheVolume(side, levels, v);
    DepthGrows(levels, 1, |levels|);
    assert Depth(levels, 1) == Depth(levels, 0) + levels[0].volume;
  }
}
