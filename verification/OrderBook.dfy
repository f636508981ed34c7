/**
 * The local copy of one exchange's order book: data/order_book.py, data/deal.py.
 *
 * A side of the book is a list of levels kept in price order, best price first. The
 * abstraction that everything is proved against is the plain map from price to volume.
 */
module OrderBooks {
  import opened BinarySearch

  /** One price level. Equality in the source compares the price only. */
  datatype Deal = Deal(price: real, volume: real)

  datatype Side = Ask | Bid

  /** MIN_VOLUME_ORDER_BOOK: a level at or below it is treated as gone. */
  const DUST: real := 0.00001

  predicate SamePrice(a: Deal, b: Deal) { a.price == b.price }
  predicate AskBefore(a: Deal, b: Deal) { a.price < b.price }
  predicate BidBefore(a: Deal, b: Deal) { a.price > b.price }

  /** `p` is a strictly better price than `q`: lower for asks, higher for bids. */
  predicate Better(side: Side, p: real, q: real) {
    match side case Ask => p < q case Bid => p > q
  }

  ghost predicate SortedSide(side: Side, levels: seq<Deal>) {
    forall i, j | 0 <= i < j < |levels| :: Better(side, levels[i].price, levels[j].price)
  }

  // ---------------------------------------------------------------- the map view

  /** Price to volume; of two levels with one price the better placed one counts. */
  function Levels(levels: seq<Deal>): map<real, real> {
    if levels == [] then map[] else Levels(levels[1..])[levels[0].price := levels[0].volume]
  }

  lemma {:induction false} LevelsOfConcatenation(a: seq<Deal>, b: seq<Deal>)
    ensures Levels(a + b) == Levels(b) + Levels(a)
  {
    if a == [] {
      assert a + b == b;
    } else {
      LevelsOfConcatenation(a[1..], b);
      assert (a + b)[1..] == a[1..] + b;
    }
  }

  lemma {:induction false} QuotedPrices(levels: seq<Deal>, p: real)
    ensures p in Levels(levels) <==> exists k :: 0 <= k < |levels| && levels[k].price == p
  {
    if levels != [] {
      QuotedPrices(levels[1..], p);
      if p in Levels(levels[1..]) {
        var k :| 0 <= k < |levels[1..]| && levels[1..][k].price == p;
        assert levels[k + 1].price == p;
      }
      if k :| 1 <= k < |levels| && levels[k].price == p {
        assert levels[1..][k - 1].price == p;
      }
    }
  }

  /** The effect of one delta level on the local copy. */
  function SetLevel(m: map<real, real>, d: Deal): map<real, real> {
    if d.volume <= DUST then m - {d.price} else m[d.price := d.volume]
  }

  /** The exchange's own rule: the volume is absolute and zero removes the level. */
  function ExchangeSetLevel(m: map<real, real>, d: Deal): map<real, real> {
    if d.volume <= 0.0 then m - {d.price} else m[d.price := d.volume]
  }

  /** A book without its dust. */
  ghost function Clean(m: map<real, real>): map<real, real> {
    map p | p in m && m[p] > DUST :: m[p]
  }

  lemma CleanSetLevel(local: map<real, real>, exchange: map<real, real>, d: Deal)
    requires Clean(local) == Clean(exchange)
    ensures Clean(SetLevel(local, d)) == Clean(ExchangeSetLevel(exchange, d))
  {
    var l, e := SetLevel(local, d), ExchangeSetLevel(exchange, d);
    forall p
      ensures p in Clean(l) <==> p in Clean(e)
      ensures p in Clean(l) ==> Clean(l)[p] == Clean(e)[p]
    {
      assert p in Clean(local) <==> p in Clean(exchange);
      assert p in Clean(local) ==> Clean(local)[p] == Clean(exchange)[p];
    }
  }

  // ------------------------------------------------------- one level, as the code does it

  /** `die_hard` ends the process, so a negative remaining volume has no list afterwards. */
  datatype Edit = Kept(levels: seq<Deal>) | Died

  /** `insert_new_ask_preserve_order` once the insertion point is known. */
  function EditAsk(levels: seq<Deal>, at: nat, d: Deal, overwriteVolume: bool): Edit
    requires at <= |levels|
  {
    var isPresent := at < |levels| && SamePrice(levels[at], d);
    var almostZero := d.volume <= DUST;
    if almostZero && isPresent then Kept(levels[..at] + levels[at + 1..])
    else if isPresent && overwriteVolume then Kept(levels[at := levels[at].(volume := d.volume)])
    else if isPresent then
      var rest := levels[at].volume - d.volume;
      if rest < 0.0 then Died else Kept(levels[at := levels[at].(volume := rest)])
    else if !overwriteVolume then Kept(levels)
    else if !almostZero then Kept(levels[..at] + [d] + levels[at..])
    else Kept(levels)
  }

  /** `insert_new_bid_preserve_order` once the insertion point is known. Unlike the ask side,
      a level that is present is overwritten whatever the flag says: the branch that would
      subtract is shadowed. */
  function EditBid(levels: seq<Deal>, at: nat, d: Deal, overwriteVolume: bool): Edit
    requires at <= |levels|
  {
    var isPresent := at < |levels| && SamePrice(levels[at], d);
    var almostZero := d.volume <= DUST;
    if almostZero && isPresent then Kept(levels[..at] + levels[at + 1..])
    else if isPresent then Kept(levels[at := levels[at].(volume := d.volume)])
    else if !overwriteVolume then Kept(levels)
    else if !almostZero then Kept(levels[..at] + [d] + levels[at..])
    else Kept(levels)
  }

  function Place(side: Side, levels: seq<Deal>, d: Deal): (at: nat)
    ensures at <= |levels|
  {
    match side
    case Ask => Search(levels, d, SamePrice, AskBefore)
    case Bid => Search(levels, d, SamePrice, BidBefore)
  }

  function Insert(side: Side, levels: seq<Deal>, d: Deal, overwriteVolume: bool): Edit {
    match side
    case Ask => EditAsk(levels, Place(side, levels, d), d, overwriteVolume)
    case Bid => EditBid(levels, Place(side, levels, d), d, overwriteVolume)
  }

  /** Where a deal belongs in a sorted side. */
  lemma PlaceIsTheLowerBound(side: Side, levels: seq<Deal>, d: Deal)
    requires SortedSide(side, levels)
    ensures
      var at := Place(side, levels, d);
      && (forall k | 0 <= k < at :: Better(side, levels[k].price, d.price))
      && (forall k | at <= k < |levels| :: !Better(side, levels[k].price, d.price))
  {
    var at := Place(side, levels, d);
    match side
    case Ask => SearchIsTheLowerBound(levels, d, SamePrice, AskBefore, at);
    case Bid => SearchIsTheLowerBound(levels, d, SamePrice, BidBefore, at);
  }

  /** Every price of a sorted side is quoted once. */
  lemma LevelIsUnique(side: Side, levels: seq<Deal>, at: nat)
    requires SortedSide(side, levels) && at < |levels|
    ensures levels[at].price !in Levels(levels[..at])
    ensures levels[at].price !in Levels(levels[at + 1..])
  {
    var front, rest, p := levels[..at], levels[at + 1..], levels[at].price;
    QuotedPrices(front, p);
    QuotedPrices(rest, p);
    forall k | 0 <= k < |front| ensures front[k].price != p {
      assert Better(side, levels[k].price, levels[at].price);
    }
    forall k | 0 <= k < |rest| ensures rest[k].price != p {
      assert rest[k] == levels[at + 1 + k];
      assert Better(side, levels[at].price, levels[at + 1 + k].price);
    }
  }

  lemma NotInFrontOfItsPlace(side: Side, levels: seq<Deal>, d: Deal)
    requires SortedSide(side, levels)
    ensures d.price !in Levels(levels[..Place(side, levels, d)])
  {
    PlaceIsTheLowerBound(side, levels, d);
    QuotedPrices(levels[..Place(side, levels, d)], d.price);
  }

  lemma QuotedAtTheLowerBound(side: Side, levels: seq<Deal>, p: real, at: nat)
    requires SortedSide(side, levels) && at <= |levels|
    requires forall k | 0 <= k < at :: Better(side, levels[k].price, p)
    requires forall k | at <= k < |levels| :: !Better(side, levels[k].price, p)
    ensures at < |levels| && levels[at].price == p <==> p in Levels(levels)
    ensures at < |levels| && levels[at].price != p ==> Better(side, p, levels[at].price)
  {
    QuotedPrices(levels, p);
    forall k | at < k < |levels| ensures levels[k].price != p {
      assert Better(side, levels[at].price, levels[k].price);
    }
  }

  lemma QuotedAtItsPlace(side: Side, levels: seq<Deal>, d: Deal)
    requires SortedSide(side, levels)
    ensures
      var at := Place(side, levels, d);
      && (at < |levels| && levels[at].price == d.price <==> d.price in Levels(levels))
      && (at < |levels| && levels[at].price != d.price ==> Better(side, d.price, levels[at].price))
  {
    PlaceIsTheLowerBound(side, levels, d);
    QuotedAtTheLowerBound(side, levels, d.price, Place(side, levels, d));
  }

  // --------------------------------------------------------------- the three list edits

  lemma RemovedIsSorted(side: Side, levels: seq<Deal>, at: nat)
    requires SortedSide(side, levels) && at < |levels|
    ensures SortedSide(side, levels[..at] + levels[at + 1..])
  {
  }

  lemma RemovedLevels(levels: seq<Deal>, at: nat)
    requires at < |levels|
    requires levels[at].price !in Levels(levels[..at]) && levels[at].price !in Levels(levels[at + 1..])
    ensures Levels(levels[..at] + levels[at + 1..]) == Levels(levels) - {levels[at].price}
  {
    SplitLevels(levels, at);
    LevelsOfConcatenation(levels[..at], levels[at + 1..]);
    var before, after := Levels(levels[..at]), Levels(levels[at + 1..]);
    var p, v := levels[at].price, levels[at].volume;
    assert after[p := v] + before - {p} == after + before;
  }

  /** The map of a side, split around one level. */
  lemma SplitLevels(levels: seq<Deal>, at: nat)
    requires at < |levels|
    ensures Levels(levels) == Levels(levels[at + 1..])[levels[at].price := levels[at].volume] + Levels(levels[..at])
  {
    LevelsOfConcatenation(levels[..at], levels[at..]);
    assert levels == levels[..at] + levels[at..];
    assert levels[at..][1..] == levels[at + 1..];
  }

  lemma LevelOverwritten(side: Side, levels: seq<Deal>, at: nat, volume: real)
    requires SortedSide(side, levels) && at < |levels|
    requires levels[at].price !in Levels(levels[..at])
    ensures
      var new' := levels[at := levels[at].(volume := volume)];
      SortedSide(side, new') && Levels(new') == Levels(levels)[levels[at].price := volume]
  {
    var new' := levels[at := levels[at].(volume := volume)];
    SplitLevels(levels, at);
    SplitLevels(new', at);
    assert new'[..at] == levels[..at] && new'[at + 1..] == levels[at + 1..];
    forall i, j | 0 <= i < j < |new'| ensures Better(side, new'[i].price, new'[j].price) {
      assert Better(side, levels[i].price, levels[j].price);
    }
  }

  lemma InsertedIsSorted(side: Side, levels: seq<Deal>, at: nat, d: Deal)
    requires SortedSide(side, levels) && at <= |levels|
    requires forall k | 0 <= k < at :: Better(side, levels[k].price, d.price)
    requires at < |levels| ==> Better(side, d.price, levels[at].price)
    ensures SortedSide(side, levels[..at] + [d] + levels[at..])
  {
  }

  lemma InsertedLevels(levels: seq<Deal>, at: nat, d: Deal)
    requires at <= |levels| && d.price !in Levels(levels[..at])
    ensures Levels(levels[..at] + [d] + levels[at..]) == Levels(levels)[d.price := d.volume]
  {
    var new' := levels[..at] + [d] + levels[at..];
    SplitLevels(new', at);
    assert new'[..at] == levels[..at] && new'[at + 1..] == levels[at..];
    LevelsOfConcatenation(levels[..at], levels[at..]);
    assert levels == levels[..at] + levels[at..];
  }

  /** The effect on the map of one call, by case: the level is removed, set, lowered or left. */
  ghost function MapAfter(side: Side, m: map<real, real>, d: Deal, overwriteVolume: bool): map<real, real> {
    if overwriteVolume then SetLevel(m, d)
    else if d.price !in m then m
    else if d.volume <= DUST then m - {d.price}
    else if side == Bid then m[d.price := d.volume]
    else m[d.price := m[d.price] - d.volume]
  }

  ghost predicate EditIsMapUpdate(side: Side, levels: seq<Deal>, d: Deal, overwriteVolume: bool) {
    IsMapUpdate(side, Levels(levels), d, overwriteVolume, Insert(side, levels, d, overwriteVolume))
  }

  ghost predicate IsMapUpdate(side: Side, m: map<real, real>, d: Deal, overwriteVolume: bool, edit: Edit) {
    && (edit.Died? <==> side == Ask && !overwriteVolume && d.volume > DUST && d.price in m && m[d.price] < d.volume)
    && (edit.Kept? ==> SortedSide(side, edit.levels) && Levels(edit.levels) == MapAfter(side, m, d, overwriteVolume))
  }

  lemma InsertDeletes(side: Side, levels: seq<Deal>, d: Deal, overwriteVolume: bool)
    requires SortedSide(side, levels) && d.price in Levels(levels) && d.volume <= DUST
    ensures EditIsMapUpdate(side, levels, d, overwriteVolume)
  {
    QuotedAtItsPlace(side, levels, d);
    var at := Place(side, levels, d);
    LevelIsUnique(side, levels, at);
    RemovedIsSorted(side, levels, at);
    RemovedLevels(levels, at);
  }

  /** The volume of a level that is present, after the edit. */
  function NewVolume(side: Side, level: Deal, d: Deal, overwriteVolume: bool): real {
    if overwriteVolume || side == Bid then d.volume else level.volume - d.volume
  }

  lemma EditOfALevel(side: Side, levels: seq<Deal>, d: Deal, overwriteVolume: bool)
    requires
      var at := Place(side, levels, d);
      at < |levels| && SamePrice(levels[at], d) && d.volume > DUST
    ensures
      var at := Place(side, levels, d);
      var volume := NewVolume(side, levels[at], d, overwriteVolume);
      Insert(side, levels, d, overwriteVolume) ==
        if volume < 0.0 then Died else Kept(levels[at := levels[at].(volume := volume)])
  {
  }

  lemma VolumeAtItsPlace(side: Side, levels: seq<Deal>, d: Deal)
    requires SortedSide(side, levels) && d.price in Levels(levels)
    ensures
      var at := Place(side, levels, d);
      && at < |levels| && levels[at].price == d.price && Levels(levels)[d.price] == levels[at].volume
      && d.price !in Levels(levels[..at])
  {
    QuotedAtItsPlace(side, levels, d);
    var at := Place(side, levels, d);
    LevelIsUnique(side, levels, at);
    SplitLevels(levels, at);
  }

  lemma LevelEditIsMapUpdate(side: Side, levels: seq<Deal>, at: nat, d: Deal, overwriteVolume: bool)
    requires SortedSide(side, levels) && at < |levels| && levels[at].price == d.price && d.volume > DUST
    requires d.price in Levels(levels) && Levels(levels)[d.price] == levels[at].volume
    requires d.price !in Levels(levels[..at])
    ensures
      var volume := NewVolume(side, levels[at], d, overwriteVolume);
      IsMapUpdate(side, Levels(levels), d, overwriteVolume,
        if volume < 0.0 then Died else Kept(levels[at := levels[at].(volume := volume)]))
  {
    LevelOverwritten(side, levels, at, NewVolume(side, levels[at], d, overwriteVolume));
  }

  lemma InsertWhenPresent(side: Side, levels: seq<Deal>, d: Deal, overwriteVolume: bool)
    requires SortedSide(side, levels) && d.price in Levels(levels) && d.volume > DUST
    ensures EditIsMapUpdate(side, levels, d, overwriteVolume)
  {
    VolumeAtItsPlace(side, levels, d);
    EditOfALevel(side, levels, d, overwriteVolume);
    LevelEditIsMapUpdate(side, levels, Place(side, levels, d), d, overwriteVolume);
  }

  lemma InsertWhenAbsent(side: Side, levels: seq<Deal>, d: Deal, overwriteVolume: bool)
    requires SortedSide(side, levels) && d.price !in Levels(levels)
    ensures EditIsMapUpdate(side, levels, d, overwriteVolume)
  {
    QuotedAtItsPlace(side, levels, d);
    NotInFrontOfItsPlace(side, levels, d);
    var at := Place(side, levels, d);
    assert Levels(levels) - {d.price} == Levels(levels);
    if d.volume > DUST && overwriteVolume {
      PlaceIsTheLowerBound(side, levels, d);
      InsertedIsSorted(side, levels, at, d);
      InsertedLevels(levels, at, d);
    }
  }

  /** One list edit keeps the side sorted with distinct prices and is exactly one map update;
      the process dies exactly when a fill larger than the level hits the ask side. */
  lemma InsertIsOneMapUpdate(side: Side, levels: seq<Deal>, d: Deal, overwriteVolume: bool)
    requires SortedSide(side, levels)
    ensures EditIsMapUpdate(side, levels, d, overwriteVolume)
  {
    if d.price in Levels(levels) && d.volume <= DUST {
      InsertDeletes(side, levels, d, overwriteVolume);
    } else if d.price in Levels(levels) {
      InsertWhenPresent(side, levels, d, overwriteVolume);
    } else {
      InsertWhenAbsent(side, levels, d, overwriteVolume);
    }
  }

  // ----------------------------------------------------------------------- sorting

  /** `sorted` by price, best first; it is stable, so equal prices keep their order. */
  function SortByPrice(side: Side, levels: seq<Deal>): seq<Deal> {
    if levels == [] then [] else InsertSorted(side, levels[0], SortByPrice(side, levels[1..]))
  }

  function InsertSorted(side: Side, d: Deal, levels: seq<Deal>): seq<Deal> {
    if levels == [] || !Better(side, levels[0].price, d.price) then [d] + levels
    else [levels[0]] + InsertSorted(side, d, levels[1..])
  }

  ghost predicate DistinctPrices(levels: seq<Deal>) {
    levels == [] || (levels[0].price !in Levels(levels[1..]) && DistinctPrices(levels[1..]))
  }

  lemma {:induction false} InsertSortedLevels(side: Side, d: Deal, levels: seq<Deal>)
    ensures Levels(InsertSorted(side, d, levels)) == Levels(levels)[d.price := d.volume]
  {
    if levels == [] || !Better(side, levels[0].price, d.price) {
      assert ([d] + levels)[1..] == levels;
    } else {
      InsertSortedLevels(side, d, levels[1..]);
    }
  }

  lemma {:induction false} InsertSortedSorts(side: Side, d: Deal, levels: seq<Deal>)
    ensures SortedSide(side, InsertSorted(side, d, levels)) <==> SortedSide(side, levels) && d.price !in Levels(levels)
    ensures InsertSorted(side, d, levels) != []
    ensures InsertSorted(side, d, levels)[0] == d || (levels != [] && InsertSorted(side, d, levels)[0] == levels[0])
  {
    var all := InsertSorted(side, d, levels);
    if levels == [] || !Better(side, levels[0].price, d.price) {
      assert all == [d] + levels;
      QuotedPrices(levels, d.price);
      SortedCons(side, d, levels);
    } else {
      var tail := InsertSorted(side, d, levels[1..]);
      InsertSortedSorts(side, d, levels[1..]);
      assert all == [levels[0]] + tail;
      assert levels == [levels[0]] + levels[1..];
      SortedCons(side, levels[0], tail);
      SortedCons(side, levels[0], levels[1..]);
      if SortedSide(side, levels) {
        assert levels[1..] != [] ==> levels[1..][0] == levels[1];
      }
    }
  }

  lemma SortedCons(side: Side, d: Deal, levels: seq<Deal>)
    ensures SortedSide(side, [d] + levels)
       <==> SortedSide(side, levels) && (levels != [] ==> Better(side, d.price, levels[0].price))
  {
    var all := [d] + levels;
    if SortedSide(side, all) {
      forall i, j | 0 <= i < j < |levels| ensures Better(side, levels[i].price, levels[j].price) {
        assert Better(side, all[i + 1].price, all[j + 1].price);
      }
      if levels != [] {
        assert Better(side, all[0].price, all[1].price);
      }
    }
    if SortedSide(side, levels) && levels != [] && Better(side, d.price, levels[0].price) {
      forall i, j | 0 <= i < j < |all| ensures Better(side, all[i].price, all[j].price) {
        if 0 < i {
          assert Better(side, levels[i - 1].price, levels[j - 1].price);
        } else if 1 < j {
          assert Better(side, levels[0].price, levels[j - 1].price);
        }
      }
    }
  }

  /** Sorting keeps the map, and yields a strictly sorted side exactly for distinct prices. */
  lemma {:induction false} SortingKeepsTheMap(side: Side, levels: seq<Deal>)
    ensures Levels(SortByPrice(side, levels)) == Levels(levels)
    ensures SortedSide(side, SortByPrice(side, levels)) <==> DistinctPrices(levels)
  {
    if levels != [] {
      SortingKeepsTheMap(side, levels[1..]);
      InsertSortedLevels(side, levels[0], SortByPrice(side, levels[1..]));
      InsertSortedSorts(side, levels[0], SortByPrice(side, levels[1..]));
    }
  }

  // ------------------------------------------------------- the two sides against each other

  /** A side seen from the other side: prices negated, so the best level stays first. */
  function Mirrored(levels: seq<Deal>): seq<Deal> {
    seq(|levels|, i requires 0 <= i < |levels| => MirroredDeal(levels[i]))
  }

  function MirroredDeal(d: Deal): Deal { Deal(-d.price, d.volume) }

  lemma MirroredPlace(levels: seq<Deal>, d: Deal)
    requires SortedSide(Ask, levels)
    ensures SortedSide(Bid, Mirrored(levels)) && Place(Bid, Mirrored(levels), MirroredDeal(d)) == Place(Ask, levels, d)
  {
    var m, e := Mirrored(levels), MirroredDeal(d);
    forall i, j | 0 <= i < j < |m| ensures Better(Bid, m[i].price, m[j].price) {
      assert Better(Ask, levels[i].price, levels[j].price);
    }
    PlaceIsTheLowerBound(Ask, levels, d);
    var at := Place(Ask, levels, d);
    forall k | 0 <= k < at ensures BidBefore(m[k], e) {
      assert Better(Ask, levels[k].price, d.price);
    }
    forall k | at <= k < |m| ensures !BidBefore(m[k], e) {
      assert !Better(Ask, levels[k].price, d.price);
    }
    SearchIsTheLowerBound(m, e, SamePrice, BidBefore, at);
  }

  lemma MirroredEdit(levels: seq<Deal>, at: nat, d: Deal, overwriteVolume: bool)
    requires at <= |levels|
    ensures
      var onAsk := EditAsk(levels, at, d, overwriteVolume);
      (onAsk.Kept? && EditBid(Mirrored(levels), at, MirroredDeal(d), overwriteVolume) == Kept(Mirrored(onAsk.levels)))
        <==> overwriteVolume || d.volume <= DUST || at == |levels| || levels[at].price != d.price
             || levels[at].volume == 2.0 * d.volume
  {
    var m := Mirrored(levels);
    if at < |levels| && levels[at].price == d.price {
      if d.volume <= DUST {
        assert Mirrored(levels[..at] + levels[at + 1..]) == m[..at] + m[at + 1..];
      } else if overwriteVolume {
        assert Mirrored(levels[at := levels[at].(volume := d.volume)]) == m[at := m[at].(volume := d.volume)];
      } else {
        var lowered := levels[at := levels[at].(volume := levels[at].volume - d.volume)];
        assert Mirrored(lowered)[at].volume == levels[at].volume - d.volume;
        assert Mirrored(lowered) == m[at := m[at].(volume := levels[at].volume - d.volume)];
      }
    } else {
      assert Mirrored(levels[..at] + [d] + levels[at..]) == m[..at] + [MirroredDeal(d)] + m[at..];
    }
  }

  /** The two insertion methods are mirror images exactly when volumes are overwritten, the
      level is absent or almost empty, or subtracting and overwriting happen to coincide. */
  lemma SidesMirrorEachOther(levels: seq<Deal>, d: Deal, overwriteVolume: bool)
    requires SortedSide(Ask, levels)
    ensures
      var onAsk := Insert(Ask, levels, d, overwriteVolume);
      var onBid := Insert(Bid, Mirrored(levels), MirroredDeal(d), overwriteVolume);
      var m := Levels(levels);
      (onAsk.Kept? && onBid == Kept(Mirrored(onAsk.levels)))
        <==> overwriteVolume || d.volume <= DUST || d.price !in m || m[d.price] == 2.0 * d.volume
  {
    MirroredPlace(levels, d);
    QuotedAtItsPlace(Ask, levels, d);
    NotInFrontOfItsPlace(Ask, levels, d);
    var at := Place(Ask, levels, d);
    MirroredEdit(levels, at, d, overwriteVolume);
    if d.price in Levels(levels) {
      SplitLevels(levels, at);
    }
  }
}
