/**
 * The percentage difference every decision is gated on: core/base_analysis.py.
 */
module BaseAnalysis {
  import opened Decimals

  /** `get_change`, with Decimals as reals: a spread of at most 0.1% reads as 0.001. */
  function GetChange(current: real, previous: real, provideAbs: bool): real {
    var tot := 0.5 * (current + previous);
    var diff := if provideAbs && current < previous then previous - current else current - previous;
    if tot != 0.0 && diff / tot > 0.001 then Truncated(diff / tot * 100.0, 2) else 0.001
  }

  /** The spread relative to the mid price, unrounded. */
  function Spread(current: real, previous: real): real
    requires current + previous != 0.0
  {
    (current - previous) / (0.5 * (current + previous))
  }

  /** What `get_change` makes of a spread. */
  function Percent(z: real): real { if z > 0.001 then Truncated(z * 100.0, 2) else 0.001 }

  lemma PercentIsAtLeastATenth(z: real)
    requires z > 0.001
    ensures Percent(z) >= 0.1
  {
  }

  lemma PercentIsMonotone(z: real, z': real)
    requires z <= z'
    ensures Percent(z) <= Percent(z')
  {
    if z > 0.001 {
      CutIsMonotone(z * 100.0, z' * 100.0, 2);
    } else if z' > 0.001 {
      PercentIsAtLeastATenth(z');
    }
  }

  /** An answer above `hundredths`/100 needs a spread of at least one hundredth of a percent more. */
  lemma PercentAbove(z: real, hundredths: nat)
    requires hundredths >= 10
    ensures Percent(z) > hundredths as real / 100.0 <==> z >= (hundredths + 1) as real / 10000.0
  {
    if z > 0.001 {
      CutAtTwoPlaces(z * 100.0);
      FloorAbove(100.0 * (z * 100.0), hundredths);
    }
  }

  lemma CutAtTwoPlaces(x: real)
    requires x >= 0.0
    ensures Truncated(x, 2) == (100.0 * x).Floor as real / 100.0
  {
  }

  lemma FloorAbove(y: real, h: int)
    ensures y.Floor > h <==> y >= h as real + 1.0
  {
  }

  lemma QuotientsByCrossMultiplying(z: real, t: real, z': real, t': real)
    requires t > 0.0 && t' > 0.0
    ensures z <= z' <==> (z * t) * t' <= (z' * t') * t
  {
  }

  lemma Sign(d: real, p: real)
    requires p > 0.0
    ensures d >= 0.0 <==> d * p >= 0.0
    ensures d > 0.0 <==> d * p > 0.0
  {
  }

  lemma SpreadTimesMid(current: real, previous: real)
    requires current + previous > 0.0
    ensures Spread(current, previous) * (0.5 * (current + previous)) == current - previous
  {
  }

  /** For positive prices the spread grows with `current` and shrinks with `previous`. */
  lemma SpreadIsMonotone(c: real, p: real, c': real, p': real)
    requires 0.0 < c <= c' && 0.0 < p' <= p
    ensures Spread(c, p) <= Spread(c', p')
  {
    var t, t' := 0.5 * (c + p), 0.5 * (c' + p');
    SpreadTimesMid(c, p);
    SpreadTimesMid(c', p');
    CrossTerms(c, p, c', p');
    QuotientsByCrossMultiplying(Spread(c, p), t, Spread(c', p'), t');
  }

  lemma CrossTerms(c: real, p: real, c': real, p': real)
    requires 0.0 < c <= c' && 0.0 < p' <= p
    ensures (c - p) * (0.5 * (c' + p')) <= (c' - p') * (0.5 * (c + p))
  {
  }

  lemma SignedChangeIsPercent(current: real, previous: real)
    requires current + previous > 0.0
    ensures GetChange(current, previous, false) == Percent(Spread(current, previous))
  {
  }

  lemma ChangeIsMonotone(c: real, p: real, c': real, p': real)
    requires 0.0 < c <= c' && 0.0 < p' <= p
    ensures GetChange(c, p, false) <= GetChange(c', p', false)
  {
    SpreadIsMonotone(c, p, c', p');
    PercentIsMonotone(Spread(c, p), Spread(c', p'));
    SignedChangeIsPercent(c, p);
    SignedChangeIsPercent(c', p');
  }

  /** Taken absolutely, the change is that from the smaller to the larger, whichever comes first. */
  lemma AbsoluteChange(c: real, p: real)
    ensures GetChange(c, p, true) == GetChange(p, c, true)
    ensures c >= p ==> GetChange(c, p, true) == GetChange(c, p, false)
  {
    assert c + p == p + c;
  }

  /** The gate `final_difference > 0.2` passes exactly the spreads of at least 0.21%. */
  lemma GateIsASpreadOf21(c: real, p: real)
    requires c > 0.0 && p > 0.0
    ensures GetChange(c, p, false) > 0.2 <==> Spread(c, p) >= 0.0021
    ensures GetChange(c, p, false) > 0.2 <==> c - p >= 0.0021 * (0.5 * (c + p))
  {
    SignedChangeIsPercent(c, p);
    PercentAbove(Spread(c, p), 20);
    SpreadTimesMid(c, p);
    var d, t := Spread(c, p) - 0.0021, 0.5 * (c + p);
    assert d * t == (c - p) - 0.0021 * t;
    Sign(d, t);
  }

  /** Above any threshold of at least 0.001 there is a real difference, whatever the (non-negative) amounts. */
  lemma ChangeAboveTheFloor(current: real, previous: real, threshold: real)
    requires current >= 0.0 && previous >= 0.0 && threshold >= 0.001
    requires GetChange(current, previous, false) > threshold
    ensures current > previous
  {
  }
}
