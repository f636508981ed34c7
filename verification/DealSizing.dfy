/**
 * How much to trade: the volume part of core/arbitrage_core.py over data/balance_state.py.
 *
 * Decimals are reals. A volume below one millionth is printed by Python in scientific notation, and
 * cutting that string is not a rounding (StringUtils.TruncatingScientific). How such a volume is
 * printed is an input, `printed`, of the functions below; the theorems ask that it denotes the volume.
 */
module DealSizing {
  import opened OrderBooks
  import opened Exchanges
  import opened Wrappers
  import opened Decimals
  import opened StringUtils

  type Currency = string

  /** Bought with `base`, sold for `base`. */
  datatype Pair = Pair(base: Currency, dst: Currency)

  /** The available balance of every currency at every exchange. */
  type Balances = map<(Exchange, Currency), real>

  predicate DoWeHaveEnough(balances: Balances, currency: Currency, exchange: Exchange, volume: real)
    requires (exchange, currency) in balances
  {
    balances[(exchange, currency)] >= volume
  }

  const MAX_VOLUME_COEFFICIENT := 0.9
  const NO_MAX_CAP_LIMIT := 0.0

  /** Below this, in magnitude, Python prints a Decimal in scientific notation. */
  const SCIENTIFIC_BELOW := 0.000001

  /** The share of the base balance that is spent when it does not pay for everything. */
  function WhatBasePaysFor(base: real, price: real): real
    requires price != 0.0
  {
    MAX_VOLUME_COEFFICIENT * base / price
  }

  /** The first two stages: what the books offer, and what the seller holds. */
  function SellableVolume(pair: Pair, sellAt: Exchange, bid: Deal, ask: Deal, balances: Balances): real
    requires (sellAt, pair.dst) in balances
  {
    var byBooks := if ask.volume < bid.volume then ask.volume else bid.volume;
    if DoWeHaveEnough(balances, pair.dst, sellAt, byBooks) then byBooks else balances[(sellAt, pair.dst)]
  }

  function DetermineMinimumVolume(pair: Pair, sellAt: Exchange, bid: Deal, buyAt: Exchange, ask: Deal,
      balances: Balances): real
    requires (sellAt, pair.dst) in balances && (buyAt, pair.base) in balances && ask.price != 0.0
  {
    var sellable := SellableVolume(pair, sellAt, bid, ask, balances);
    if DoWeHaveEnough(balances, pair.base, buyAt, sellable * ask.price) then sellable
    else WhatBasePaysFor(balances[(buyAt, pair.base)], ask.price)
  }

  function AdjustMinimumVolumeByTradingCap(minCap: real, volume: real): real {
    if volume < minCap then -1.0 else volume
  }

  function AdjustMaximumVolumeByTradingCap(maxCap: real, volume: real): real {
    if maxCap == NO_MAX_CAP_LIMIT then volume else if volume > maxCap then maxCap else volume
  }

  /** Which precision table rules: none means the pair is not listed there and is left unrounded. */
  function Precision(sellAt: Exchange, buyAt: Exchange, binance: Option<nat>, huobi: Option<nat>): Option<nat> {
    if Binance in {sellAt, buyAt} then binance else if Huobi in {sellAt, buyAt} then huobi else Some(8)
  }

  predicate PrintedPlainly(volume: real) { !(-SCIENTIFIC_BELOW < volume < SCIENTIFIC_BELOW) || volume == 0.0 }

  /** `truncate_float`, or nothing where the pair is not listed; None where `float()` raises. */
  function RoundVolume(precision: Option<nat>, volume: real, printed: Scientific): Option<real> {
    if precision == None then Some(volume)
    else if PrintedPlainly(volume) then Some(Truncated(volume, precision.value))
    else FloatOf(TruncateFloat(printed.Text(), precision.value))
  }

  /** A volume that Python prints in scientific notation is printed as `printed`. */
  ghost predicate Prints(printed: Scientific, volume: real) {
    !PrintedPlainly(volume) ==>
      printed.Valid() && printed.down && printed.negative == (volume < 0.0) && printed.Value() == volume
  }

  /** Rounding does not cut into scientific notation. */
  predicate RoundsDown(precision: Option<nat>, volume: real, printed: Scientific) {
    precision == None || PrintedPlainly(volume) || Uncut(printed, precision.value)
  }

  /** A volume that survived rounding. */
  predicate Survives(rounded: Option<real>) { rounded.Some? && rounded.value > 0.0 }

  function Capped(minCap: real, maxCap: real, volume: real): real {
    AdjustMaximumVolumeByTradingCap(maxCap, AdjustMinimumVolumeByTradingCap(minCap, volume))
  }

  predicate IsSteps(r: real, k: int, n: nat) { r == Down(k as real, n) }

  /** `r` is the largest multiple of 10^-n that is no larger. */
  ghost predicate IsRoundedDown(volume: real, r: real, n: nat) {
    (exists k: int :: IsSteps(r, k, n)) && r <= volume < r + Down(1.0, n)
  }

  /** Where Binance is one of the two exchanges its table rules, otherwise that of Huobi if that is, and
      otherwise eight decimals: a plainly printed volume is rounded down to a whole number of its steps. */
  lemma RoundedByTheRightTable(sellAt: Exchange, buyAt: Exchange, binance: Option<nat>, huobi: Option<nat>,
      volume: real, printed: Scientific)
    requires volume >= 0.0 && PrintedPlainly(volume)
    ensures
      var r := RoundVolume(Precision(sellAt, buyAt, binance, huobi), volume, printed);
      var table := if sellAt == Binance || buyAt == Binance then binance
                   else if sellAt == Huobi || buyAt == Huobi then huobi
                   else Some(8);
      r.Some? && match table case None => r.value == volume case Some(n) => IsRoundedDown(volume, r.value, n)
  {
    var precision := Precision(sellAt, buyAt, binance, huobi);
    if precision.Some? {
      CutIsClose(volume, precision.value);
      assert IsSteps(Cut(volume, precision.value), Up(volume, precision.value).Floor, precision.value);
    }
  }

  /** Rounding raises exactly for a volume of less than a millionth, of either sign, that is cut at the sign
      of its exponent; and nothing below zero survives it. */
  lemma RoundingRaisesIff(precision: Option<nat>, volume: real, printed: Scientific)
    requires Prints(printed, volume)
    ensures var rounded := RoundVolume(precision, volume, printed);
      && (rounded == None <==>
            && precision.Some? && volume != 0.0 && -0.000001 < volume < 0.000001
            && Mangled(printed, precision.value))
      && (volume <= 0.0 ==> !Survives(rounded))
  {
    if precision.Some? {
      if volume <= 0.0 {
        CutIsClose(-volume, precision.value);
      }
      if !PrintedPlainly(volume) {
        CutReads(printed, precision.value);
        if volume < 0.0 {
          TruncatingNegativeScientific(printed, precision.value);
        }
      }
    }
  }

  // -------------------------------------------------------- what survives every stage

  lemma SmallerIsCheaper(v: real, w: real, price: real)
    requires price > 0.0
    ensures v <= w <==> v * price <= w * price
    ensures v < w <==> v * price < w * price
  {
  }

  ghost predicate WithinTheMarket(pair: Pair, sellAt: Exchange, bid: Deal, buyAt: Exchange, ask: Deal,
      balances: Balances, volume: real)
    requires (sellAt, pair.dst) in balances && (buyAt, pair.base) in balances
  {
    && volume <= bid.volume && volume <= ask.volume
    && volume <= balances[(sellAt, pair.dst)]
    && volume * ask.price <= balances[(buyAt, pair.base)]
  }

  lemma DeterminedIsWithinTheMarket(pair: Pair, sellAt: Exchange, bid: Deal, buyAt: Exchange, ask: Deal,
      balances: Balances)
    requires (sellAt, pair.dst) in balances && (buyAt, pair.base) in balances && ask.price > 0.0
    ensures var v := DetermineMinimumVolume(pair, sellAt, bid, buyAt, ask, balances);
      v > 0.0 ==> WithinTheMarket(pair, sellAt, bid, buyAt, ask, balances, v)
  {
  }

  /** The least of three offers. */
  ghost predicate IsLeast(v: real, a: real, b: real, c: real) { v in {a, b, c} && v <= a && v <= b && v <= c }

  /** Nothing is left on the table: it is the least of what the two books and the seller offer, or spends 90% of a base
      balance that does not pay for that. */
  lemma DeterminedUsesALimit(pair: Pair, sellAt: Exchange, bid: Deal, buyAt: Exchange, ask: Deal, balances: Balances,
      least: real)
    requires (sellAt, pair.dst) in balances && (buyAt, pair.base) in balances && ask.price > 0.0
    requires IsLeast(least, bid.volume, ask.volume, balances[(sellAt, pair.dst)])
    ensures
      var v, base := DetermineMinimumVolume(pair, sellAt, bid, buyAt, ask, balances), balances[(buyAt, pair.base)];
      if least * ask.price <= base then v == least else v * ask.price == MAX_VOLUME_COEFFICIENT * base
  {
  }

  lemma SmallerStaysWithinTheMarket(pair: Pair, sellAt: Exchange, bid: Deal, buyAt: Exchange, ask: Deal,
      balances: Balances, v: real, w: real)
    requires (sellAt, pair.dst) in balances && (buyAt, pair.base) in balances && ask.price > 0.0
    requires WithinTheMarket(pair, sellAt, bid, buyAt, ask, balances, w) && v <= w
    ensures WithinTheMarket(pair, sellAt, bid, buyAt, ask, balances, v)
  {
  }

  /** A surviving volume is no more than what was rounded exactly when rounding did not cut into
      scientific notation; otherwise it is more. */
  lemma RoundingShrinksIff(precision: Option<nat>, volume: real, printed: Scientific)
    requires Prints(printed, volume)
    ensures var r := RoundVolume(precision, volume, printed);
      Survives(r) ==> volume > 0.0 && (r.value <= volume <==> RoundsDown(precision, volume, printed))
  {
    if precision.Some? {
      if PrintedPlainly(volume) {
        CutIsClose(if volume < 0.0 then -volume else volume, precision.value);
      } else if volume > 0.0 {
        TruncatingScientific(printed, precision.value);
      } else {
        TruncatingNegativeScientific(printed, precision.value);
      }
    }
  }

  /**
   * A volume that survives every stage is positive and, unless rounding cut into scientific notation,
   * no more than the best bid, the best ask, the coins held where they are sold, a maximum cap if
   * there is one, and what the base currency pays for.
   */
  lemma SurvivingVolumeIsCovered(pair: Pair, sellAt: Exchange, bid: Deal, buyAt: Exchange, ask: Deal,
      balances: Balances, minCap: real, maxCap: real, precision: Option<nat>, printed: Scientific)
    requires (sellAt, pair.dst) in balances && (buyAt, pair.base) in balances && ask.price > 0.0
    requires minCap >= 0.0
    requires Prints(printed, Capped(minCap, maxCap, DetermineMinimumVolume(pair, sellAt, bid, buyAt, ask, balances)))
    ensures var capped := Capped(minCap, maxCap, DetermineMinimumVolume(pair, sellAt, bid, buyAt, ask, balances));
      var r := RoundVolume(precision, capped, printed);
      Survives(r) ==>
        && (RoundsDown(precision, capped, printed) ==>
             && WithinTheMarket(pair, sellAt, bid, buyAt, ask, balances, r.value)
             && (maxCap != NO_MAX_CAP_LIMIT ==> r.value <= maxCap))
        && (!RoundsDown(precision, capped, printed) ==> r.value > capped)
  {
    var w := DetermineMinimumVolume(pair, sellAt, bid, buyAt, ask, balances);
    var capped := Capped(minCap, maxCap, w);
    var r := RoundVolume(precision, capped, printed);
    RoundingShrinksIff(precision, capped, printed);
    if Survives(r) && RoundsDown(precision, capped, printed) {
      assert 0.0 < r.value <= capped <= w;
      DeterminedIsWithinTheMarket(pair, sellAt, bid, buyAt, ask, balances);
      SmallerStaysWithinTheMarket(pair, sellAt, bid, buyAt, ask, balances, r.value, w);
    }
  }

  /** Caps of at least one millionth keep every surviving volume out of scientific notation. */
  lemma CapsKeepVolumesPlain(minCap: real, maxCap: real)
    ensures (forall volume: real :: Capped(minCap, maxCap, volume) > 0.0 ==>
      PrintedPlainly(Capped(minCap, maxCap, volume)))
      <==> (minCap >= SCIENTIFIC_BELOW || 0.0 > maxCap) && !(0.0 < maxCap < SCIENTIFIC_BELOW)
  {
    var tiny := SCIENTIFIC_BELOW / 2.0;
    if !(minCap >= SCIENTIFIC_BELOW || 0.0 > maxCap) {
      var v := if minCap > tiny then minCap else tiny;
      assert Capped(minCap, maxCap, v) > 0.0;
      assert !PrintedPlainly(Capped(minCap, maxCap, v));
    } else if 0.0 < maxCap < SCIENTIFIC_BELOW {
      var v := if minCap > maxCap then minCap else maxCap;
      assert Capped(minCap, maxCap, v) == maxCap;
      assert !PrintedPlainly(Capped(minCap, maxCap, v));
    }
  }

  const TINY := Scientific(false, '5', "12345678", true, "7")
  const TINY_VOLUME := 0.000000512345678

  lemma TinyIsPrinted()
    ensures Prints(TINY, TINY_VOLUME) && !PrintedPlainly(TINY_VOLUME)
    ensures RoundVolume(Some(8), TINY_VOLUME, TINY) == Some(5.12345678)
  {
    TinyDigits();
    CutReads(TINY, 8);
    assert TINY.frac[..8] == TINY.frac;
    assert Down(512345678.0, 8) == 5.12345678;
    assert Down(5.12345678, 7) == TINY_VOLUME;
  }

  lemma TinyDigits()
    ensures NatOf("512345678") == 512345678 && NatOf("7") == 7 && ['5'] + "12345678" == "512345678"
  {
    assert "512345678"[..8] == "51234567" && "51234567"[..7] == "5123456" && "5123456"[..6] == "512345";
    assert "512345"[..5] == "51234" && "51234"[..4] == "5123" && "5123"[..3] == "512" && "512"[..2] == "51";
    assert "51"[..1] == "5" && "5"[..0] == "" && "7"[..0] == "";
  }

  /** Where rounding does cut, half a millionth of a coin held is sold as more than five. */
  lemma TinyVolumeIsBlownUp()
    ensures var balances := map[(Bittrex, "XRP") := TINY_VOLUME, (Poloniex, "BTC") := 1.0];
      var deal := Deal(0.1, 100.0);
      var capped := Capped(0.0, NO_MAX_CAP_LIMIT,
        DetermineMinimumVolume(Pair("BTC", "XRP"), Bittrex, deal, Poloniex, deal, balances));
      var r := RoundVolume(Precision(Bittrex, Poloniex, None, None), capped, TINY);
      && Prints(TINY, capped) && !RoundsDown(Some(8), capped, TINY)
      && Survives(r) && r.value == 10000000.0 * balances[(Bittrex, "XRP")]
  {
    var balances := map[(Bittrex, "XRP") := TINY_VOLUME, (Poloniex, "BTC") := 1.0];
    assert balances[(Bittrex, "XRP")] == TINY_VOLUME && balances[(Poloniex, "BTC")] == 1.0;
    TinyIsPrinted();
  }

  // ----------------------------------------------------------------- the minimum cap

  lemma CutTwice(x: real, n: nat)
    ensures Cut(Cut(x, n), n) == Cut(x, n)
  {
    UpOfDown(Up(x, n).Floor as real, n);
  }

  /** A surviving volume that is below the minimum. */
  predicate FallsBelow(rounded: Option<real>, minCap: real) { Survives(rounded) && rounded.value < minCap }

  /** A maximum below the minimum is no volume to place: it is cut to nothing, is cut at the sign of its
      exponent, or has so much of its exponent cut off that it reaches the minimum. */
  predicate Vanishes(minCap: real, maxCap: real, precision: Option<nat>, printed: Scientific) {
    precision.Some? &&
    if PrintedPlainly(maxCap) then Cut(maxCap, precision.value) <= 0.0
    else Mangled(printed, precision.value) || CutMagnitudeOf(printed, precision.value) >= minCap
  }

  /** The caps and the precision under which no surviving volume is below the minimum. */
  ghost predicate KeepsTheMinimum(minCap: real, maxCap: real, precision: Option<nat>) {
    || minCap <= 0.0 || maxCap < 0.0
    || if maxCap != NO_MAX_CAP_LIMIT && maxCap < minCap then
         forall printed | Prints(printed, maxCap) :: Vanishes(minCap, maxCap, precision, printed)
       else
         || precision == None || minCap < SCIENTIFIC_BELOW
         || Cut(minCap, precision.value) == minCap || Cut(minCap, precision.value) <= 0.0
  }

  lemma MaximumFallsBelowUnlessItVanishes(minCap: real, maxCap: real, precision: Option<nat>, printed: Scientific)
    requires 0.0 < maxCap < minCap && Prints(printed, maxCap)
    ensures FallsBelow(RoundVolume(precision, maxCap, printed), minCap) <==>
      !Vanishes(minCap, maxCap, precision, printed)
  {
    if precision.Some? {
      if PrintedPlainly(maxCap) {
        CutIsClose(maxCap, precision.value);
      } else {
        CutReads(printed, precision.value);
        TruncatingScientific(printed, precision.value);
      }
    }
  }

  lemma CappedFromTheMinimum(minCap: real, maxCap: real, volume: real)
    requires minCap >= 0.0 && maxCap >= 0.0
    ensures volume < minCap ==> Capped(minCap, maxCap, volume) == -1.0
    ensures volume >= minCap && maxCap != NO_MAX_CAP_LIMIT && maxCap < minCap ==>
      Capped(minCap, maxCap, volume) == maxCap
    ensures volume >= minCap && !(maxCap != NO_MAX_CAP_LIMIT && maxCap < minCap) ==>
      Capped(minCap, maxCap, volume) >= minCap
  {
  }

  lemma MinusOneDoesNotSurvive(precision: Option<nat>, printed: Scientific)
    ensures !Survives(RoundVolume(precision, -1.0, printed))
  {
    if precision.Some? {
      CutIsClose(1.0, precision.value);
    }
  }

  /** What is left of a millionth or more is nothing, or a millionth or more. */
  lemma CutOfAMillionth(x: real, n: nat)
    requires x >= SCIENTIFIC_BELOW
    ensures Cut(x, n) <= 0.0 || Cut(x, n) >= SCIENTIFIC_BELOW
  {
    CutIsMonotone(SCIENTIFIC_BELOW, x, n);
    if n >= 6 {
      UpSum(SCIENTIFIC_BELOW, 6, n - 6);
      assert Up(SCIENTIFIC_BELOW, 6) == 1.0;
      UpOfWhole(1, n - 6);
      assert 1 as real == 1.0;
      DownOfUp(SCIENTIFIC_BELOW, n);
    } else if Cut(x, n) < SCIENTIFIC_BELOW {
      var r := Cut(x, n);
      CutTwice(x, n);
      UpOrder(SCIENTIFIC_BELOW, r, n);
      UpOrder(r, SCIENTIFIC_BELOW, n);
      UpSum(SCIENTIFIC_BELOW, n, 6 - n);
      FewPlacesOfAMillionth(n);
      FloorIsMonotone(Up(r, n), Up(SCIENTIFIC_BELOW, n));
      DownOrder(Up(r, n).Floor as real, 0.0, n);
      DownOrder(0.0, 0.0, n);
    }
  }

  lemma FewPlacesOfAMillionth(n: nat)
    requires n < 6
    ensures 0.0 < Up(SCIENTIFIC_BELOW, n) < 1.0
  {
    if n == 0 {
    } else if n == 1 { assert Up(SCIENTIFIC_BELOW, 1) == 0.00001;
    } else if n == 2 { assert Up(SCIENTIFIC_BELOW, 2) == 0.0001;
    } else if n == 3 { assert Up(SCIENTIFIC_BELOW, 3) == 0.001;
    } else if n == 4 { assert Up(SCIENTIFIC_BELOW, 4) == 0.01;
    } else { assert Up(SCIENTIFIC_BELOW, 5) == 0.1; }
  }

  lemma CutKeepsTheMinimum(minCap: real, capped: real, n: nat)
    requires 0.0 <= minCap <= capped && PrintedPlainly(capped)
    requires minCap < SCIENTIFIC_BELOW || Cut(minCap, n) == minCap || Cut(minCap, n) <= 0.0
    ensures Cut(capped, n) <= 0.0 || Cut(capped, n) >= minCap
  {
    var r := Cut(capped, n);
    CutIsMonotone(minCap, capped, n);
    CutIsClose(capped, n);
    if 0.0 < r < minCap {
      CutIsMonotone(r, minCap, n);
      CutTwice(capped, n);
      if capped >= SCIENTIFIC_BELOW {
        CutOfAMillionth(capped, n);
      }
    }
  }

  /** Under those caps whatever survives is at least the minimum. */
  lemma MinimumKept(minCap: real, maxCap: real, precision: Option<nat>, volume: real, printed: Scientific)
    requires KeepsTheMinimum(minCap, maxCap, precision) && Prints(printed, Capped(minCap, maxCap, volume))
    ensures !FallsBelow(RoundVolume(precision, Capped(minCap, maxCap, volume), printed), minCap)
  {
    if maxCap < 0.0 {
      RoundingShrinksIff(precision, Capped(minCap, maxCap, volume), printed);
    } else if minCap > 0.0 {
      MinimumKeptBetweenCaps(minCap, maxCap, precision, volume, printed);
    }
  }

  lemma MinimumKeptBetweenCaps(minCap: real, maxCap: real, precision: Option<nat>, volume: real, printed: Scientific)
    requires minCap > 0.0 && maxCap >= 0.0 && KeepsTheMinimum(minCap, maxCap, precision)
    requires Prints(printed, Capped(minCap, maxCap, volume))
    ensures !FallsBelow(RoundVolume(precision, Capped(minCap, maxCap, volume), printed), minCap)
  {
    var capped := Capped(minCap, maxCap, volume);
    CappedFromTheMinimum(minCap, maxCap, volume);
    if volume < minCap {
      MinusOneDoesNotSurvive(precision, printed);
    } else if maxCap != NO_MAX_CAP_LIMIT && maxCap < minCap {
      MaximumFallsBelowUnlessItVanishes(minCap, maxCap, precision, printed);
    } else if precision.Some? {
      if PrintedPlainly(capped) {
        CutKeepsTheMinimum(minCap, capped, precision.value);
      } else {
        TruncatingScientific(printed, precision.value);
      }
    }
  }

  lemma MinimumLost(minCap: real, maxCap: real, precision: Option<nat>) returns (printed: Scientific)
    requires !KeepsTheMinimum(minCap, maxCap, precision)
    ensures Prints(printed, Capped(minCap, maxCap, minCap))
    ensures FallsBelow(RoundVolume(precision, Capped(minCap, maxCap, minCap), printed), minCap)
  {
    CappedFromTheMinimum(minCap, maxCap, minCap);
    if maxCap != NO_MAX_CAP_LIMIT && maxCap < minCap {
      printed :| Prints(printed, maxCap) && !Vanishes(minCap, maxCap, precision, printed);
      MaximumFallsBelowUnlessItVanishes(minCap, maxCap, precision, printed);
    } else {
      printed := TINY;
      CutIsClose(minCap, precision.value);
    }
  }

  /**
   * Exactly under those caps every surviving volume is at least the minimum: a maximum below the
   * minimum must vanish, and otherwise the minimum must be a multiple of the last decimal kept, be cut to
   * nothing itself, or be below one millionth.
   */
  lemma MinimumKeptIff(minCap: real, maxCap: real, precision: Option<nat>)
    ensures KeepsTheMinimum(minCap, maxCap, precision) <==>
      forall volume: real, printed | Prints(printed, Capped(minCap, maxCap, volume)) ::
        !FallsBelow(RoundVolume(precision, Capped(minCap, maxCap, volume), printed), minCap)
  {
    if KeepsTheMinimum(minCap, maxCap, precision) {
      forall volume: real, printed | Prints(printed, Capped(minCap, maxCap, volume))
        ensures !FallsBelow(RoundVolume(precision, Capped(minCap, maxCap, volume), printed), minCap)
      {
        MinimumKept(minCap, maxCap, precision, volume, printed);
      }
    } else {
      var printed := MinimumLost(minCap, maxCap, precision);
      assert Prints(printed, Capped(minCap, maxCap, minCap));
    }
  }
}
