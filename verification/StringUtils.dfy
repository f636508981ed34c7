/**
 * Printing and cutting of decimal strings: utils/string_utils.py.
 *
 * A number is given by the string Python prints for it; the results relate the numbers that the
 * strings denote.
 */
module StringUtils {
  import opened Wrappers
  import opened Decimals

  // ------------------------------------------------------------- strings of digits

  predicate IsDigit(c: char) { '0' <= c <= '9' }

  predicate AllDigits(s: string) { forall i | 0 <= i < |s| :: IsDigit(s[i]) }

  function DigitOf(c: char): nat { if IsDigit(c) then c as int - '0' as int else 0 }

  function NatOf(s: string): nat
    decreases |s|
  {
    if s == "" then 0 else 10 * NatOf(s[..|s| - 1]) + DigitOf(s[|s| - 1])
  }

  /** Moving the point to the front of `tail` leaves `head` before it. */
  lemma {:induction false} TailIsAFraction(head: string, tail: string, y: real)
    requires NatOf(head + tail) as real <= y < NatOf(head + tail) as real + 1.0
    ensures NatOf(head) as real <= Down(y, |tail|) < NatOf(head) as real + 1.0
    decreases |tail|
  {
    if tail == "" {
      assert head + tail == head;
    } else {
      var n := |tail| - 1;
      assert (head + tail)[..|head + tail| - 1] == head + tail[..n];
      TailIsAFraction(head, tail[..n], y / 10.0);
    }
  }

  lemma {:induction false} LeadingZeros(n: nat, s: string)
    ensures NatOf(Zeros(n) + s) == NatOf(s)
    decreases n, |s|
  {
    if s != "" {
      assert (Zeros(n) + s)[..|Zeros(n) + s| - 1] == Zeros(n) + s[..|s| - 1];
      LeadingZeros(n, s[..|s| - 1]);
    } else if n > 0 {
      assert (Zeros(n) + s)[..n - 1] == Zeros(n - 1) + s;
      LeadingZeros(n - 1, s);
    }
  }

  lemma {:induction false} TrailingZeros(s: string, n: nat)
    ensures NatOf(s + Zeros(n)) as real == Up(NatOf(s) as real, n)
  {
    if n > 0 {
      assert (s + Zeros(n))[..|s + Zeros(n)| - 1] == s + Zeros(n - 1);
      TrailingZeros(s, n - 1);
      UpLast(NatOf(s) as real, n);
    } else {
      assert s + Zeros(0) == s;
    }
  }

  function Zeros(n: nat): string { seq(n, i => '0') }

  // --------------------------------------------------------------- the two functions

  /** The first place of `c`. */
  function Find(s: string, c: char): (at: Option<nat>)
    ensures at.Some? ==> at.value < |s| && s[at.value] == c
  {
    if s == "" then None
    else if s[0] == c then Some(0)
    else match Find(s[1..], c) case None => None case Some(i) => Some(i + 1)
  }

  function Without(s: string, c: char): string {
    if s == "" then "" else if s[0] == c then Without(s[1..], c) else [s[0]] + Without(s[1..], c)
  }

  function IntOf(s: string): int {
    if s != "" && s[0] == '-' then 0 - NatOf(s[1..])
    else if s != "" && s[0] == '+' then NatOf(s[1..])
    else NatOf(s)
  }

  /** The digits padded for the exponent. */
  function Padded(digits: string, exp: int, negative: bool): string {
    var magnitude := if exp < 0 then -exp else exp;
    var zeroPadding := if magnitude == 0 then "" else Zeros(magnitude - 1);
    WithSign(negative, if exp > 0 then digits + zeroPadding + "." + "0" else "0" + "." + (zeroPadding + digits))
  }

  /** `float_to_str` of a number printed, in lower case, as `text`. */
  function FloatToStr(text: string, negative: bool): string {
    match Find(text, 'e')
    case None => if |text| >= 2 && text[|text| - 2..] == ".0" then text[..|text| - 2] else text
    case Some(at) => Padded(Without(Without(text[..at], '.'), '-'), IntOf(text[at + 1..]), negative)
  }

  /** The string `truncate_float` hands to `float()`, for a number printed as `text`. */
  function TruncateFloat(text: string, n: nat): string {
    match Find(text, '.')
    case None => text
    case Some(at) => if at > 0 && 1 + at + n < |text| then text[..1 + at + n] else text
  }

  // ----------------------------------------------------------------- the notations

  function WithSign(negative: bool, body: string): string { if negative then "-" + body else body }

  function WithExponent(head: string, tail: string): string { head + "e" + tail }

  /** [-]whole.frac */
  datatype Plain = Plain(negative: bool, whole: string, frac: string) {
    ghost predicate Valid() { whole != "" && AllDigits(whole) && AllDigits(frac) }

    function Text(): string { WithSign(negative, whole + "." + frac) }

    function Magnitude(): real { Down(NatOf(whole + frac) as real, |frac|) }

    function Value(): real { if negative then -Magnitude() else Magnitude() }
  }

  /** [-]lead[.frac]e<sign>exponent, with one leading digit; `down` says the exponent is negative. */
  datatype Scientific = Scientific(negative: bool, lead: char, frac: string, down: bool, exponent: string) {
    ghost predicate Valid() {
      IsDigit(lead) && lead != '0' && AllDigits(frac) && exponent != "" && AllDigits(exponent) && NatOf(exponent) > 0
    }

    function Mantissa(): string { WithSign(negative, if frac == "" then [lead] else [lead] + "." + frac) }

    function Text(): string { WithExponent(Mantissa(), (if down then "-" else "+") + exponent) }

    function Magnitude(): real {
      var m := Down(NatOf([lead] + frac) as real, |frac|);
      if down then Down(m, NatOf(exponent)) else Up(m, NatOf(exponent))
    }

    function Value(): real { if negative then -Magnitude() else Magnitude() }
  }

  // ------------------------------------------------------------------------ cutting

  lemma {:induction false} FindFirst(s: string, c: char, i: nat)
    requires i < |s| && s[i] == c && forall j | 0 <= j < i :: s[j] != c
    ensures Find(s, c) == Some(i)
  {
    if i > 0 {
      assert s[0] != c;
      FindFirst(s[1..], c, i - 1);
    }
  }

  lemma {:induction false} FindNone(s: string, c: char)
    requires c !in s
    ensures Find(s, c) == None
  {
  }

  lemma PointOfPlain(p: Plain)
    requires p.Valid()
    ensures Find(p.Text(), '.') == Some(|p.whole| + if p.negative then 1 else 0)
  {
    FindFirst(p.Text(), '.', |p.whole| + if p.negative then 1 else 0);
  }

  /** `truncate_float` on plain notation cuts towards zero at the n-th decimal. */
  lemma TruncateFloatTruncates(p: Plain, n: nat)
    requires p.Valid()
    ensures
      var cut := p.(frac := if n < |p.frac| then p.frac[..n] else p.frac);
      TruncateFloat(p.Text(), n) == cut.Text() && cut.Valid() && cut.Value() == Truncated(p.Value(), n)
  {
    PointOfPlain(p);
    if n < |p.frac| {
      CutText(p, n);
      CutValue(p, n);
    } else {
      WholeAfterScaling(p, n);
    }
  }

  lemma CutText(p: Plain, n: nat)
    requires p.Valid() && n < |p.frac|
    ensures TruncateFloat(p.Text(), n) == p.(frac := p.frac[..n]).Text()
  {
    PointOfPlain(p);
    assert p.frac == p.frac[..n] + p.frac[n..];
    assert p.Text() == p.(frac := p.frac[..n]).Text() + p.frac[n..];
  }

  /** Dropping the decimals in `tail` is rounding down, on magnitudes. */
  lemma CutMagnitude(head: string, n: nat, tail: string)
    ensures Cut(Down(NatOf(head + tail) as real, |tail| + n), n) == Down(NatOf(head) as real, n)
  {
    var digits := NatOf(head + tail) as real;
    TailIsAFraction(head, tail, digits);
    DownSum(digits, |tail|, n);
    UpOfDown(Down(digits, |tail|), n);
    FloorIs(Down(digits, |tail|), NatOf(head));
  }

  lemma CutValue(p: Plain, n: nat)
    requires p.Valid() && n < |p.frac|
    ensures p.(frac := p.frac[..n]).Value() == Truncated(p.Value(), n)
  {
    var head, tail := p.whole + p.frac[..n], p.frac[n..];
    assert head + tail == p.whole + p.frac;
    assert |tail| + n == |p.frac|;
    CutMagnitude(head, n, tail);
    MagnitudeIsTruncated(p, n);
  }

  /** Truncating the signed value is cutting its magnitude. */
  lemma MagnitudeIsTruncated(p: Plain, n: nat)
    ensures 0.0 <= p.Magnitude()
    ensures Truncated(p.Value(), n) == if p.negative then -Cut(p.Magnitude(), n) else Cut(p.Magnitude(), n)
  {
    DownOrder(0.0, NatOf(p.whole + p.frac) as real, |p.frac|);
    SignedTruncation(p.Magnitude(), n, p.negative);
  }

  lemma WholeAfterScaling(p: Plain, n: nat)
    requires n >= |p.frac|
    ensures Truncated(p.Value(), n) == p.Value()
  {
    var m, digits := |p.frac|, NatOf(p.whole + p.frac);
    UpSum(p.Magnitude(), m, n - m);
    UpOfDown(digits as real, m);
    UpOfWhole(digits, n - m);
    DownOfUp(p.Magnitude(), n);
    MagnitudeIsTruncated(p, n);
  }

  /** Cutting twice is cutting once, and never moves away from zero. */
  lemma TruncationIsIdempotentAndShrinks(p: Plain, n: nat)
    requires p.Valid()
    ensures TruncateFloat(TruncateFloat(p.Text(), n), n) == TruncateFloat(p.Text(), n)
    ensures var cut := Truncated(p.Value(), n);
      if p.negative then p.Value() <= cut <= 0.0 else 0.0 <= cut <= p.Value()
  {
    TruncateFloatTruncates(p, n);
    TruncateFloatTruncates(p.(frac := if n < |p.frac| then p.frac[..n] else p.frac), n);
    MagnitudeIsTruncated(p, n);
    CutIsClose(p.Magnitude(), n);
  }

  // ----------------------------------------------------------------------- printing

  lemma {:induction false} WithoutConcat(s: string, t: string, c: char)
    ensures Without(s + t, c) == Without(s, c) + Without(t, c)
  {
    if s == "" {
      assert s + t == t;
    } else {
      assert (s + t)[1..] == s[1..] + t;
      WithoutConcat(s[1..], t, c);
    }
  }

  lemma {:induction false} WithoutNone(s: string, c: char)
    requires c !in s
    ensures Without(s, c) == s
  {
    if s != "" {
      WithoutNone(s[1..], c);
    }
  }

  lemma {:induction false} WithoutOnly(c: char)
    ensures Without([c], c) == ""
  {
  }

  lemma MantissaText(s: Scientific)
    ensures var sign := if s.negative then "-" else "";
      s.Mantissa() == if s.frac == "" then sign + [s.lead] + s.frac else sign + [s.lead] + "." + s.frac
  {
  }

  lemma DigitsOfMantissa(s: Scientific)
    requires s.Valid()
    ensures Without(Without(s.Mantissa(), '.'), '-') == [s.lead] + s.frac
  {
    var sign := if s.negative then "-" else "";
    MantissaText(s);
    PointDropped(sign + [s.lead], s.frac);
    assert sign + [s.lead] + s.frac == sign + ([s.lead] + s.frac);
    SignDropped(sign, [s.lead] + s.frac);
  }

  lemma TrailingPointDropped(head: string)
    requires '.' !in head
    ensures Without(head + ".", '.') == head
  {
    WithoutConcat(head, ".", '.');
    WithoutNone(head, '.');
    WithoutOnly('.');
  }

  lemma PointDropped(head: string, frac: string)
    requires '.' !in head && '.' !in frac
    ensures Without(head + frac, '.') == head + frac
    ensures Without(head + "." + frac, '.') == head + frac
  {
    WithoutNone(head + frac, '.');
    WithoutConcat(head + ".", frac, '.');
    TrailingPointDropped(head);
    WithoutNone(frac, '.');
  }

  lemma SignDropped(sign: string, digits: string)
    requires sign in {"", "-"} && AllDigits(digits)
    ensures Without(sign + digits, '-') == digits
  {
    WithoutConcat(sign, digits, '-');
    WithoutNone(digits, '-');
    assert Without(sign, '-') == "";
  }

  lemma ExponentOf(s: Scientific)
    requires s.Valid()
    ensures Find(s.Text(), 'e') == Some(|s.Mantissa()|)
    ensures s.Text()[..|s.Mantissa()|] == s.Mantissa()
    ensures IntOf(s.Text()[|s.Mantissa()| + 1..]) == if s.down then 0 - NatOf(s.exponent) else NatOf(s.exponent)
  {
    FindFirst(s.Text(), 'e', |s.Mantissa()|);
    var tail := s.Text()[|s.Mantissa()| + 1..];
    assert tail == (if s.down then "-" else "+") + s.exponent;
    assert tail[1..] == s.exponent;
  }

  /** What `float_to_str` makes of scientific notation. */
  function Expanded(s: Scientific): Plain {
    var k := NatOf(s.exponent);
    if k == 0 then Plain(s.negative, [s.lead], s.frac)
    else if s.down then Plain(s.negative, "0", Zeros(k - 1) + ([s.lead] + s.frac))
    else Plain(s.negative, [s.lead] + s.frac + Zeros(k - 1), "0")
  }

  /** The exponent as `int()` reads it. */
  function SignedExponent(s: Scientific): int { if s.down then 0 - NatOf(s.exponent) else NatOf(s.exponent) }

  lemma FloatToStrExpands(s: Scientific)
    requires s.Valid()
    ensures FloatToStr(s.Text(), s.negative) == Expanded(s).Text() && Expanded(s).Valid()
  {
    ExponentOf(s);
    DigitsOfMantissa(s);
    ExpandedText(s);
    assert FloatToStr(s.Text(), s.negative) == Padded([s.lead] + s.frac, SignedExponent(s), s.negative);
  }

  lemma ExpandedText(s: Scientific)
    requires s.Valid()
    ensures Expanded(s).Text() == Padded([s.lead] + s.frac, SignedExponent(s), s.negative)
    ensures Expanded(s).Valid()
  {
  }

  lemma ExpandedHasTheMagnitude(s: Scientific)
    requires s.Valid() && s.down
    ensures Expanded(s).Magnitude() == s.Magnitude()
  {
    var k, digits := NatOf(s.exponent), [s.lead] + s.frac;
    var p := Expanded(s);
    assert p.whole + p.frac == Zeros(k) + digits;
    LeadingZeros(k, digits);
    assert |p.frac| == |s.frac| + k;
    DownSum(NatOf(digits) as real, |s.frac|, k);
  }

  /** A negative exponent is expanded to the same number. */
  lemma NegativeExponentsKeepTheValue(s: Scientific)
    requires s.Valid() && s.down
    ensures FloatToStr(s.Text(), s.negative) == Expanded(s).Text()
    ensures Expanded(s).Value() == s.Value()
  {
    FloatToStrExpands(s);
    ExpandedHasTheMagnitude(s);
  }

  lemma {:induction false} DownShrinks(x: real, n: nat)
    requires x > 0.0 && n > 0
    ensures 0.0 < Down(x, n) < x
    decreases n
  {
    if n > 1 {
      DownShrinks(x / 10.0, n - 1);
    }
  }

  lemma {:induction false} LeadingDigitCounts(lead: char, frac: string)
    requires IsDigit(lead) && lead != '0'
    ensures NatOf([lead] + frac) > 0
    decreases |frac|
  {
    if frac == "" {
      assert ([lead] + frac)[..0] == "";
    } else {
      assert ([lead] + frac)[..|frac|] == [lead] + frac[..|frac| - 1];
      LeadingDigitCounts(lead, frac[..|frac| - 1]);
    }
  }

  /** A positive exponent is padded with as many zeros as if there were exactly one decimal. */
  lemma ExpandedUpValue(s: Scientific)
    requires s.Valid() && !s.down
    ensures Expanded(s).Magnitude() == Up(NatOf([s.lead] + s.frac) as real, NatOf(s.exponent) - 1)
  {
    var k, digits := NatOf(s.exponent), [s.lead] + s.frac;
    assert digits + Zeros(k - 1) + "0" == digits + Zeros(k);
    TrailingZeros(digits, k);
    UpLast(NatOf(digits) as real, k);
    assert Down(Up(NatOf(digits) as real, k), 1) == Up(NatOf(digits) as real, k - 1) by {
      assert Down(Up(NatOf(digits) as real, k), 1) == Up(NatOf(digits) as real, k) / 10.0;
    }
  }

  lemma TenTimesDown(d: real, j: nat)
    requires d > 0.0
    ensures Up(Down(d, j), 1) == d <==> j == 1
  {
    assert Up(Down(d, j), 1) == 10.0 * Down(d, j);
    if j > 0 {
      DownLast(d, j);
      if j > 1 {
        DownShrinks(d, j - 1);
      }
    }
  }

  /** So a positive exponent keeps the value exactly when one decimal was printed. */
  lemma PositiveExponentsKeepTheValueIffOneDecimal(s: Scientific)
    requires s.Valid() && !s.down
    ensures FloatToStr(s.Text(), s.negative) == Expanded(s).Text()
    ensures Expanded(s).Value() == s.Value() <==> |s.frac| == 1
  {
    FloatToStrExpands(s);
    ExpandedUpValue(s);
    var k, d := NatOf(s.exponent), NatOf([s.lead] + s.frac) as real;
    LeadingDigitCounts(s.lead, s.frac);
    var m := Down(d, |s.frac|);
    UpSum(m, 1, k - 1);
    UpOrder(Up(m, 1), d, k - 1);
    UpOrder(d, Up(m, 1), k - 1);
    TenTimesDown(d, |s.frac|);
  }

  /** Python prints 10**22 as "1e+22"; `float_to_str` turns that into 10**21. */
  lemma TenToTheTwentyTwo()
    ensures var s := Scientific(false, '1', "", false, "22");
      s.Valid() && s.Text() == "1e+22" && Expanded(s).Value() != s.Value()
  {
    var s := Scientific(false, '1', "", false, "22");
    assert s.exponent[..1] == "2" && "2"[..0] == "";
    assert NatOf("2") == 2;
    assert s.Text() == "1e+22";
    PositiveExponentsKeepTheValueIffOneDecimal(s);
  }

  lemma PlainHasNoExponent(p: Plain)
    requires p.Valid()
    ensures Find(p.Text(), 'e') == None
  {
  }

  /** Plain notation only loses a lone trailing zero, which carries no value. */
  lemma PlainNotationIsKept(p: Plain)
    requires p.Valid()
    ensures FloatToStr(p.Text(), p.negative) ==
      if p.frac == "0" then (if p.negative then "-" else "") + p.whole else p.Text()
    ensures p.frac == "0" ==> p.Magnitude() == NatOf(p.whole) as real
  {
    PlainHasNoExponent(p);
    var head, n := (if p.negative then "-" else "") + p.whole, |p.frac|;
    var t := p.Text();
    assert t == head + ("." + p.frac);
    if p.frac == "0" {
      assert t[..|t| - 2] == head;
      assert (p.whole + "0")[..|p.whole|] == p.whole;
    } else {
      EndOfPlain(p);
    }
  }

  lemma EndOfPlain(p: Plain)
    requires p.Valid() && p.frac != "0"
    ensures |p.Text()| >= 2 && p.Text()[|p.Text()| - 2..] != ".0"
  {
    var t, n := p.Text(), |p.frac|;
    if n == 0 {
      assert t[|t| - 2..][1] == '.';
    } else if n == 1 {
      assert p.frac == [p.frac[0]];
      assert t[|t| - 2..][1] == p.frac[0];
    } else {
      assert t[|t| - 2..][0] == p.frac[n - 2];
    }
  }

  // ------------------------------------------------------------------ reading numbers

  /** [-]digits[.digits] without the sign. */
  function UnsignedOf(text: string): Option<real> {
    match Find(text, '.')
    case None => if text != "" && AllDigits(text) then Some(NatOf(text) as real) else None
    case Some(at) =>
      var whole, frac := text[..at], text[at + 1..];
      if whole + frac != "" && AllDigits(whole) && AllDigits(frac) then
        Some(Down(NatOf(whole + frac) as real, |frac|))
      else None
  }

  function PlainOf(text: string): Option<real> {
    if text != "" && text[0] == '-' then
      (match UnsignedOf(text[1..]) case None => None case Some(x) => Some(-x))
    else UnsignedOf(text)
  }

  function ExponentAs(text: string): Option<int> {
    var digits := if text != "" && text[0] in {'-', '+'} then text[1..] else text;
    if digits != "" && AllDigits(digits) then Some(IntOf(text)) else None
  }

  function Scaled(m: Option<real>, k: Option<int>): Option<real> {
    if m == None || k == None then None
    else if k.value < 0 then Some(Down(m.value, -k.value))
    else Some(Up(m.value, k.value))
  }

  /** `float(text)`; None where Python raises ValueError. */
  function FloatOf(text: string): Option<real> {
    match Find(text, 'e')
    case None => PlainOf(text)
    case Some(at) => Scaled(PlainOf(text[..at]), ExponentAs(text[at + 1..]))
  }

  lemma UnsignedReads(whole: string, frac: string)
    requires whole != "" && AllDigits(whole) && AllDigits(frac)
    ensures UnsignedOf(whole + "." + frac) == Some(Down(NatOf(whole + frac) as real, |frac|))
    ensures UnsignedOf(whole) == Some(NatOf(whole) as real)
  {
    var text := whole + "." + frac;
    FindFirst(text, '.', |whole|);
    assert text[..|whole|] == whole && text[|whole| + 1..] == frac;
    FindNone(whole, '.');
  }

  lemma SignReads(negative: bool, body: string, x: real)
    requires body != "" && body[0] != '-' && UnsignedOf(body) == Some(x)
    ensures PlainOf(WithSign(negative, body)) == Some(if negative then -x else x)
  {
    assert ("-" + body)[1..] == body;
  }

  lemma DigitFirst(digits: string, frac: string)
    requires digits != "" && AllDigits(digits)
    ensures var body := digits + "." + frac; body != "" && body[0] != '-' && digits[0] != '-'
  {
    assert (digits + "." + frac)[0] == digits[0];
  }

  lemma BodyReads(negative: bool, body: string, p: Plain)
    requires body != "" && body[0] != '-' && UnsignedOf(body) == Some(p.Magnitude()) && p.negative == negative
    ensures PlainOf(WithSign(negative, body)) == Some(p.Value())
  {
    var x := p.Magnitude();
    SignReads(negative, body, x);
  }

  lemma PlainTextReads(negative: bool, whole: string, frac: string)
    requires whole != "" && AllDigits(whole) && AllDigits(frac)
    ensures PlainOf(WithSign(negative, whole + "." + frac)) == Some(Plain(negative, whole, frac).Value())
  {
    DigitFirst(whole, frac);
    UnsignedReads(whole, frac);
    BodyReads(negative, whole + "." + frac, Plain(negative, whole, frac));
  }

  lemma WithoutExponent(text: string)
    requires Find(text, 'e') == None
    ensures FloatOf(text) == PlainOf(text)
  {
  }

  /** Plain notation reads as the number it denotes. */
  lemma PlainReads(p: Plain)
    requires p.Valid()
    ensures PlainOf(p.Text()) == Some(p.Value()) && FloatOf(p.Text()) == Some(p.Value())
  {
    PlainTextReads(p.negative, p.whole, p.frac);
    PlainHasNoExponent(p);
    WithoutExponent(p.Text());
  }

  /** The mantissa as a number in plain notation. */
  function MantissaOf(s: Scientific): Plain { Plain(s.negative, [s.lead], s.frac) }

  lemma MantissaReads(s: Scientific)
    requires IsDigit(s.lead) && AllDigits(s.frac)
    ensures 'e' !in s.Mantissa() && PlainOf(s.Mantissa()) == Some(MantissaOf(s).Value())
  {
    var lead := [s.lead];
    DigitFirst(lead, s.frac);
    UnsignedReads(lead, s.frac);
    if s.frac == "" {
      assert lead + "" == lead;
      BodyReads(s.negative, lead, MantissaOf(s));
    } else {
      BodyReads(s.negative, lead + "." + s.frac, MantissaOf(s));
    }
  }

  lemma SplitAtE(head: string, tail: string)
    requires 'e' !in head
    ensures FloatOf(WithExponent(head, tail)) == Scaled(PlainOf(head), ExponentAs(tail))
  {
    var text := WithExponent(head, tail);
    FindFirst(text, 'e', |head|);
    assert text[..|head|] == head && text[|head| + 1..] == tail;
  }

  lemma {:induction false} DownOfNegative(x: real, n: nat)
    ensures Down(-x, n) == -Down(x, n)
    decreases n
  {
    if n > 0 {
      DownOfNegative(x / 10.0, n - 1);
      assert -x / 10.0 == -(x / 10.0);
    }
  }

  lemma NegativeExponentReads(exponent: string)
    requires exponent != "" && AllDigits(exponent)
    ensures ExponentAs("-" + exponent) == Some(0 - NatOf(exponent))
  {
    assert ("-" + exponent)[1..] == exponent;
  }

  /** With its sign. */
  function Signed(negative: bool, x: real): Option<real> { Some(if negative then -x else x) }

  /** A negative exponent reads as moving the point to the left, whatever its digits. */
  lemma DownReads(head: string, p: Plain, exponent: string)
    requires 'e' !in head && PlainOf(head) == Some(p.Value()) && exponent != "" && AllDigits(exponent)
    ensures FloatOf(WithExponent(head, "-" + exponent)) == Signed(p.negative, Down(p.Magnitude(), NatOf(exponent)))
  {
    SplitAtE(head, "-" + exponent);
    NegativeExponentReads(exponent);
    MovedPoint(p, NatOf(exponent));
  }

  lemma MovedPoint(p: Plain, k: nat)
    ensures Scaled(Some(p.Value()), Some(0 - k)) == Signed(p.negative, Down(p.Magnitude(), k))
  {
    DownOfNegative(p.Magnitude(), k);
  }

  // -------------------------------------------------- cutting scientific notation

  lemma PointOfScientific(s: Scientific)
    requires s.Valid()
    ensures s.frac == "" ==> Find(s.Text(), '.') == None
    ensures s.frac != "" ==> Find(s.Text(), '.') == Some(1 + if s.negative then 1 else 0)
  {
    if s.frac == "" {
      FindNone(s.Text(), '.');
    } else {
      FindFirst(s.Text(), '.', 1 + if s.negative then 1 else 0);
    }
  }

  /** Short enough not to be cut. */
  predicate Uncut(s: Scientific, n: nat) { s.frac == "" || n >= |s.frac| + 2 + |s.exponent| }

  /** Cut right before or right after the sign of the exponent. */
  predicate Mangled(s: Scientific, n: nat) { s.frac != "" && |s.frac| < n <= |s.frac| + 2 }

  /** Nor does it cut a text that begins with the point, or has none. */
  lemma PointFirstIsLeftAlone(text: string, n: nat)
    requires Find(text, '.') == None || Find(text, '.') == Some(0)
    ensures TruncateFloat(text, n) == text
  {
  }

  /** `truncate_float` leaves scientific notation alone exactly when it is short enough. */
  lemma ScientificIsUncutIff(s: Scientific, n: nat)
    requires s.Valid()
    ensures TruncateFloat(s.Text(), n) == s.Text() <==> Uncut(s, n)
  {
    PointOfScientific(s);
  }

  lemma PrefixOfSum(a: string, b: string, k: nat)
    requires k <= |a + b|
    ensures (a + b)[..k] == if k <= |a| then a[..k] else a + b[..k - |a|]
  {
  }

  /** The text of a negative exponent with decimals, around the `e`. */
  lemma TextWithDecimals(s: Scientific)
    requires s.Valid() && s.down && s.frac != ""
    ensures s.Text() == s.Mantissa() + ("e-" + s.exponent)
    ensures |s.Mantissa()| == 2 + (if s.negative then 1 else 0) + |s.frac|
  {
  }

  /** What else it makes of a negative exponent: the decimals cut, the exponent's sign cut, or its digits. */
  lemma CutText3(s: Scientific, n: nat)
    requires s.Valid() && s.down && !Uncut(s, n)
    ensures
      TruncateFloat(s.Text(), n) ==
        if n <= |s.frac| then s.Mantissa()[..|s.Mantissa()| - |s.frac| + n]
        else s.Mantissa() + ("e-" + s.exponent)[..n - |s.frac|]
  {
    PointOfScientific(s);
    TextWithDecimals(s);
    PrefixOfSum(s.Mantissa(), "e-" + s.exponent, |s.Mantissa()| - |s.frac| + n);
  }

  lemma CutDecimals(s: Scientific, n: nat)
    requires s.frac != "" && n <= |s.frac|
    ensures s.Mantissa()[..|s.Mantissa()| - |s.frac| + n] == Plain(s.negative, [s.lead], s.frac[..n]).Text()
  {
    var head := (if s.negative then "-" else "") + [s.lead] + ".";
    assert s.Mantissa() == head + s.frac;
    PrefixOfSum(head, s.frac, |head| + n);
  }

  lemma CutExponent(head: string, exponent: string, j: nat)
    requires 0 < j < |exponent| + 2
    ensures head + ("e-" + exponent)[..j] == WithExponent(head, if j == 1 then "" else "-" + exponent[..j - 2])
  {
    assert ("e-" + exponent)[..j] == "e" + (if j == 1 then "" else "-" + exponent[..j - 2]);
  }

  lemma {:induction false} PrefixIsSmaller(head: string, tail: string)
    ensures NatOf(head) <= NatOf(head + tail)
    ensures tail != "" && NatOf(head + tail) > 0 ==> NatOf(head) < NatOf(head + tail)
    decreases |tail|
  {
    if tail == "" {
      assert head + tail == head;
    } else {
      var n := |tail| - 1;
      assert (head + tail)[..|head + tail| - 1] == head + tail[..n];
      PrefixIsSmaller(head, tail[..n]);
    }
  }

  lemma SmallerExponentGrows(m: real, j: nat, k: nat)
    requires m > 0.0 && j < k
    ensures Down(m, k) < Down(m, j)
  {
    DownSum(m, j, k - j);
    if j > 0 {
      DownShrinks(m, j);
    }
    DownShrinks(Down(m, j), k - j);
  }

  /** The number a cut text denotes, in magnitude. */
  function CutMagnitudeOf(s: Scientific, n: nat): real {
    if Uncut(s, n) then s.Magnitude()
    else if n <= |s.frac| then Plain(s.negative, [s.lead], s.frac[..n]).Magnitude()
    else if Mangled(s, n) then 0.0
    else Down(MantissaOf(s).Magnitude(), NatOf(s.exponent[..n - |s.frac| - 2]))
  }

  lemma TextReads(s: Scientific)
    requires s.Valid() && s.down
    ensures FloatOf(s.Text()) == Signed(s.negative, s.Magnitude())
  {
    MantissaReads(s);
    assert s.Text() == WithExponent(s.Mantissa(), "-" + s.exponent);
    DownReads(s.Mantissa(), MantissaOf(s), s.exponent);
  }

  lemma CutDecimalsRead(s: Scientific, n: nat)
    requires s.Valid() && s.down && s.frac != "" && n <= |s.frac|
    ensures FloatOf(TruncateFloat(s.Text(), n)) ==
      Signed(s.negative, Plain(s.negative, [s.lead], s.frac[..n]).Magnitude())
  {
    CutText3(s, n);
    CutDecimals(s, n);
    PlainReads(Plain(s.negative, [s.lead], s.frac[..n]));
  }

  lemma MangledReads(s: Scientific, n: nat)
    requires s.Valid() && s.down && Mangled(s, n)
    ensures FloatOf(TruncateFloat(s.Text(), n)) == None
  {
    CutText3(s, n);
    CutExponent(s.Mantissa(), s.exponent, n - |s.frac|);
    MantissaReads(s);
    assert s.exponent[..0] == "" && "-" + "" == "-";
    SplitAtE(s.Mantissa(), if n == |s.frac| + 1 then "" else "-");
  }

  lemma CutExponentReads(s: Scientific, n: nat)
    requires s.Valid() && s.down && !Uncut(s, n) && n > |s.frac| + 2
    ensures FloatOf(TruncateFloat(s.Text(), n)) ==
      Signed(s.negative, Down(MantissaOf(s).Magnitude(), NatOf(s.exponent[..n - |s.frac| - 2])))
  {
    CutText3(s, n);
    CutExponent(s.Mantissa(), s.exponent, n - |s.frac|);
    MantissaReads(s);
    DownReads(s.Mantissa(), MantissaOf(s), s.exponent[..n - |s.frac| - 2]);
  }

  lemma CutReads(s: Scientific, n: nat)
    requires s.Valid() && s.down
    ensures FloatOf(TruncateFloat(s.Text(), n)) ==
      if Mangled(s, n) then None else Signed(s.negative, CutMagnitudeOf(s, n))
  {
    if Uncut(s, n) {
      ScientificIsUncutIff(s, n);
      TextReads(s);
    } else if n <= |s.frac| {
      CutDecimalsRead(s, n);
    } else if Mangled(s, n) {
      MangledReads(s, n);
    } else {
      CutExponentReads(s, n);
    }
  }

  lemma CutGrows(s: Scientific, n: nat)
    requires s.Valid() && s.down && !Uncut(s, n) && !Mangled(s, n)
    ensures CutMagnitudeOf(s, n) > s.Magnitude()
  {
    if n <= |s.frac| {
      OneDigitAtLeastOne(s.lead, s.frac[..n]);
      BelowOne(s);
    } else {
      var j := n - |s.frac| - 2;
      assert s.exponent == s.exponent[..j] + s.exponent[j..];
      PrefixIsSmaller(s.exponent[..j], s.exponent[j..]);
      OneDigitAtLeastOne(s.lead, s.frac);
      SmallerExponentGrows(MantissaOf(s).Magnitude(), NatOf(s.exponent[..j]), NatOf(s.exponent));
    }
  }

  /**
   * What `truncate_float` answers for a positive number below one that is printed in scientific
   * notation: it raises exactly when the text is cut at the sign of the exponent, keeps the number
   * exactly when the text is not cut, and otherwise answers a larger number.
   */
  lemma TruncatingScientific(s: Scientific, n: nat)
    requires s.Valid() && s.down && !s.negative
    ensures var r := FloatOf(TruncateFloat(s.Text(), n));
      && (r == None <==> Mangled(s, n))
      && (r == Some(s.Value()) <==> Uncut(s, n))
      && (r.Some? && r.value > s.Value() <==> !Uncut(s, n) && !Mangled(s, n))
  {
    CutReads(s, n);
    if !Uncut(s, n) && !Mangled(s, n) {
      CutGrows(s, n);
    }
  }

  /** The same for negative numbers: they never come near zero. */
  lemma TruncatingNegativeScientific(s: Scientific, n: nat)
    requires s.Valid() && s.down && s.negative
    ensures var r := FloatOf(TruncateFloat(s.Text(), n));
      (r == None <==> Mangled(s, n)) && (r.Some? ==> r.value <= s.Value() < 0.0)
  {
    CutReads(s, n);
    OneDigitAtLeastOne(s.lead, s.frac);
    if NatOf(s.exponent) > 0 {
      DownShrinks(MantissaOf(s).Magnitude(), NatOf(s.exponent));
    }
    if !Uncut(s, n) && !Mangled(s, n) {
      CutGrows(s, n);
    }
  }

  lemma OneDigit(c: char)
    requires IsDigit(c)
    ensures NatOf([c]) == DigitOf(c) <= 9 && (c != '0' ==> NatOf([c]) >= 1)
  {
  }

  lemma OneDigitAtLeastOne(lead: char, frac: string)
    requires IsDigit(lead) && lead != '0'
    ensures 1.0 <= Down(NatOf([lead] + frac) as real, |frac|) < 10.0
  {
    OneDigit(lead);
    TailIsAFraction([lead], frac, NatOf([lead] + frac) as real);
  }

  lemma BelowOne(s: Scientific)
    requires s.Valid() && s.down
    ensures s.Magnitude() < 1.0
  {
    OneDigitAtLeastOne(s.lead, s.frac);
    var m, k := Down(NatOf([s.lead] + s.frac) as real, |s.frac|), NatOf(s.exponent);
    assert s.Magnitude() == Down(m / 10.0, k - 1);
    if k > 1 {
      DownShrinks(m / 10.0, k - 1);
    }
  }

  lemma NoNumberEndsAtASign()
    ensures FloatOf("5.123456e-") == None
  {
    assert WithExponent("5.123456", "-") == "5.123456e-";
    SplitAtE("5.123456", "-");
    assert "-"[1..] == "";
  }

  lemma LosesItsExponent()
    ensures TruncateFloat("5.123456789e-7", 8) == "5.12345678"
  {
    FindFirst("5.123456789e-7", '.', 1);
  }

  lemma CutsItsExponentShort()
    ensures TruncateFloat("5.12345e-10", 8) == "5.12345e-1"
  {
    FindFirst("5.12345e-10", '.', 1);
  }

  lemma EndsAtTheSign()
    ensures TruncateFloat("5.123456e-7", 8) == "5.123456e-"
  {
    FindFirst("5.123456e-7", '.', 1);
  }

  /** Three volumes cut at eight decimals, as volumes are: the exponent lost, cut short, and mangled. */
  lemma CutsAtEightDecimals()
    ensures TruncateFloat("5.123456789e-7", 8) == "5.12345678"
    ensures TruncateFloat("5.12345e-10", 8) == "5.12345e-1"
    ensures TruncateFloat("5.123456e-7", 8) == "5.123456e-" && FloatOf("5.123456e-") == None
  {
    LosesItsExponent();
    CutsItsExponentShort();
    EndsAtTheSign();
    NoNumberEndsAtASign();
  }
}
