/** JavaScript's global `parseFloat` on the finite decimal forms, with the
    exact rational value of the literal rather than the nearest double.

    `parseFloat` skips leading white space and then reads the LONGEST prefix
    that is a decimal literal: an optional sign, digits with an optional
    point and fraction (at least one digit in all), and an optional exponent
    `e`/`E` with its own optional sign and at least one digit. Anything after
    that prefix is ignored; when no such prefix exists the result is NaN,
    here `None`. */
module NumberParse {
  import opened Optional
  import opened JsString

  predicate IsDigit(c: char) {
    '0' <= c <= '9'
  }

  predicate AllDigits(s: string) {
    forall i :: 0 <= i < |s| ==> IsDigit(s[i])
  }

  function DigitValue(c: char): nat
    requires IsDigit(c)
  {
    c as int - '0' as int
  }

  /** Length of the run of digits at the front of `s`. */
  function DigitRun(s: string): (n: nat)
    ensures n <= |s|
    ensures forall i :: 0 <= i < n ==> IsDigit(s[i])
    ensures n < |s| ==> !IsDigit(s[n])
  {
    if |s| > 0 && IsDigit(s[0]) then 1 + DigitRun(s[1..]) else 0
  }

  /** The number a string of decimal digits denotes. */
  function DigitsValue(d: string): nat
    requires AllDigits(d)
  {
    if |d| == 0 then 0 else 10 * DigitsValue(d[..|d| - 1]) + DigitValue(d[|d| - 1])
  }

  function Pow10(e: nat): (p: nat)
    ensures p >= 1
  {
    if e == 0 then 1 else 10 * Pow10(e - 1)
  }

  /** Ten to the power `e`, for a signed exponent. */
  function Scale(e: int): (r: real)
    ensures r > 0.0
  {
    if e >= 0 then Pow10(e) as real else 1.0 / Pow10(-e) as real
  }

  /** A decimal literal read from the front of a string: its sign, the digits
      on both sides of the point read as one integer, how many of them are
      fraction digits, and the exponent. */
  datatype Literal = Literal(negative: bool, digits: nat, fractionDigits: nat, exponent: int)

  function LiteralValue(l: Literal): (r: real)
    ensures l.negative ==> r <= 0.0
    ensures !l.negative ==> r >= 0.0
  {
    var magnitude := l.digits as real / Pow10(l.fractionDigits) as real * Scale(l.exponent);
    assert magnitude >= 0.0 by {
      var q := l.digits as real / Pow10(l.fractionDigits) as real;
      assert q >= 0.0;
      assert q * Scale(l.exponent) >= 0.0;
    }
    if l.negative then -magnitude else magnitude
  }

  /** The exponent part at the front of `s` and its length; `(0, 0)` when `s`
      does not start with a complete exponent part (`e` not followed by
      digits is not part of the literal). */
  function ScanExponent(s: string): (int, nat)
  {
    if |s| > 0 && (s[0] == 'e' || s[0] == 'E') then
      var signLen := if |s| > 1 && (s[1] == '+' || s[1] == '-') then 1 else 0;
      var n := DigitRun(s[1 + signLen..]);
      if n == 0 then (0, 0)
      else
        var magnitude := DigitsValue(s[1 + signLen..1 + signLen + n]) as int;
        (if signLen == 1 && s[1] == '-' then -magnitude else magnitude, 1 + signLen + n)
    else (0, 0)
  }

  /** The digits of a mantissa read as one integer, how many of them follow
      the point, and how many characters the mantissa takes. */
  datatype Mantissa = Mantissa(digits: nat, fractionDigits: nat, length: nat)

  /** The longest mantissa at the front of `b`: digits, then optionally a
      point and more digits, with at least one digit in all. */
  function ScanMantissa(b: string): (r: Option<Mantissa>)
    ensures r.Some? <==> (|b| > 0 && IsDigit(b[0])) || (|b| > 1 && b[0] == '.' && IsDigit(b[1]))
    ensures r.Some? ==> r.value.length <= |b|
  {
    var w := DigitRun(b);
    var hasPoint := w < |b| && b[w] == '.';
    var f := if hasPoint then DigitRun(b[w + 1..]) else 0;
    if w + f == 0 then None
    else
      var digits := if hasPoint then b[..w] + b[w + 1..w + 1 + f] else b[..w];
      Some(Mantissa(DigitsValue(digits), f, if hasPoint then w + 1 + f else w))
  }

  /** The longest unsigned decimal literal at the front of `b`. */
  function ScanUnsigned(b: string): (r: Option<Literal>)
    ensures r.Some? <==> ScanMantissa(b).Some?
    ensures r.Some? ==> !r.value.negative
  {
    match ScanMantissa(b)
    case None => None
    case Some(m) =>
      var (exponent, _) := ScanExponent(b[m.length..]);
      Some(Literal(false, m.digits, m.fractionDigits, exponent))
  }

  /** The longest decimal literal at the very front of `s`, if any: an
      optional sign and an unsigned literal. */
  function ScanLiteral(s: string): (r: Option<Literal>)
    ensures r.Some? <==> StartsNumeric(s)
    ensures r.Some? ==> (r.value.negative <==> s[0] == '-')
  {
    var signLen := if |s| > 0 && (s[0] == '+' || s[0] == '-') then 1 else 0;
    match ScanUnsigned(s[signLen..])
    case None => None
    case Some(l) => Some(l.(negative := signLen == 1 && s[0] == '-'))
  }

  /** Whether a decimal literal can start at the front of `s`: after an
      optional sign comes a digit, or a point followed by a digit. */
  predicate StartsNumeric(s: string) {
    var b := if |s| > 0 && (s[0] == '+' || s[0] == '-') then s[1..] else s;
    || (|b| > 0 && IsDigit(b[0]))
    || (|b| > 1 && b[0] == '.' && IsDigit(b[1]))
  }

  /** `parseFloat(s)` for the finite forms: a value exactly when a decimal
      literal starts once the leading white space is skipped, and that value
      carries the literal's sign. */
  function ParseFloat(s: string): (r: Option<real>)
    ensures r.Some? <==> StartsNumeric(TrimStart(s))
    ensures r.Some? && TrimStart(s)[0] == '-' ==> r.value <= 0.0
    ensures r.Some? && TrimStart(s)[0] != '-' ==> r.value >= 0.0
  {
    var t := TrimStart(s);
    match ScanLiteral(t)
    case None => None
    case Some(l) => Some(LiteralValue(l))
  }

  /** Appending one digit multiplies the value by ten and adds the digit. */
  lemma DigitsValueSnoc(d: string, c: char)
    requires AllDigits(d) && IsDigit(c)
    ensures AllDigits(d + [c])
    ensures DigitsValue(d + [c]) == 10 * DigitsValue(d) + DigitValue(c)
  {
    assert (d + [c])[..|d|] == d;
  }

  /** Text that cannot continue a literal that ends in digits: it is empty
      or starts with neither a digit nor an exponent mark. */
  predicate StopsLiteral(tail: string) {
    |tail| == 0 || (!IsDigit(tail[0]) && tail[0] != 'e' && tail[0] != 'E')
  }

  /** A mantissa with a point: `w` leading digits, the point, then `f`
      digits, read as the digits on both sides of the point. */
  lemma MantissaWithPoint(b: string, w: nat, f: nat, digits: string)
    requires DigitRun(b) == w && w < |b| && b[w] == '.'
    requires DigitRun(b[w + 1..]) == f && w + f > 0
    requires digits == b[..w] + b[w + 1..w + 1 + f] && AllDigits(digits)
    ensures ScanMantissa(b) == Some(Mantissa(DigitsValue(digits), f, w + 1 + f))
  {
  }

  /** Where the pieces of `whole.fraction` followed by `tail` sit. */
  lemma DecimalPieces(whole: string, fraction: string, tail: string)
    ensures var s := whole + "." + fraction + tail;
            && s == (whole + ['.']) + (fraction + tail)
            && |s| > |whole| && s[|whole|] == '.'
            && s[|whole| + 1..] == fraction + tail
            && s[..|whole|] + s[|whole| + 1..|whole| + 1 + |fraction|] == whole + fraction
  {
    var s := whole + "." + fraction + tail;
    assert s[..|whole|] == whole;
    assert s[|whole| + 1..|whole| + 1 + |fraction|] == fraction;
  }

  /** All digits on both sides of the point are digits together. */
  lemma DigitsConcat(a: string, b: string)
    requires AllDigits(a) && AllDigits(b)
    ensures AllDigits(a + b)
  {
    assert forall i :: |a| <= i < |a + b| ==> (a + b)[i] == b[i - |a|];
  }

  /** `whole.fraction` followed by text that stops the literal is read as
      a mantissa with those digits, that many fraction digits and nothing
      after. */
  lemma MantissaDecimal(whole: string, fraction: string, tail: string)
    requires |whole| > 0 && AllDigits(whole) && AllDigits(fraction) && StopsLiteral(tail)
    ensures AllDigits(whole + fraction)
    ensures ScanMantissa(whole + "." + fraction + tail)
         == Some(Mantissa(DigitsValue(whole + fraction), |fraction|, |whole| + 1 + |fraction|))
  {
    var s := whole + "." + fraction + tail;
    DecimalPieces(whole, fraction, tail);
    DigitRunAll(whole, '.');
    DigitRunPrefix(whole + ['.'], fraction + tail);
    DigitRunThenStop(fraction, tail);
    DigitsConcat(whole, fraction);
    MantissaWithPoint(s, |whole|, |fraction|, whole + fraction);
  }

  /** Digits followed by text that is neither a point nor continues the
      literal are read as a mantissa without fraction. */
  lemma MantissaWhole(whole: string, tail: string)
    requires |whole| > 0 && AllDigits(whole) && StopsLiteral(tail)
    requires |tail| == 0 || tail[0] != '.'
    ensures ScanMantissa(whole + tail) == Some(Mantissa(DigitsValue(whole), 0, |whole|))
  {
    var s := whole + tail;
    DigitRunThenStop(whole, tail);
    assert s[..|whole|] == whole;
  }

  /** Text that stops the literal holds no exponent part. */
  lemma NoExponent(tail: string)
    requires StopsLiteral(tail)
    ensures ScanExponent(tail) == (0, 0)
  {
  }

  /** The run of digits at the front of `digits + tail` is `digits` when the
      tail does not start with a digit. */
  lemma DigitRunThenStop(digits: string, tail: string)
    requires AllDigits(digits) && StopsLiteral(tail)
    ensures DigitRun(digits + tail) == |digits|
  {
    if |tail| == 0 {
      assert digits + tail == digits;
      DigitRunWhole(digits);
    } else {
      DigitRunAll(digits, tail[0]);
      assert digits + tail == (digits + [tail[0]]) + tail[1..];
      DigitRunPrefix(digits + [tail[0]], tail[1..]);
    }
  }

  /** Without a sign in front, the literal is the unsigned literal. */
  lemma ScanUnsignedFront(s: string)
    requires |s| > 0 && s[0] != '+' && s[0] != '-'
    ensures ScanLiteral(s) == ScanUnsigned(s)
  {
    assert s[0..] == s;
  }

  /** A minus sign in front of an unsigned literal negates it. */
  lemma ScanNegated(s: string)
    requires |s| > 0 && s[0] != '+' && s[0] != '-'
    ensures ScanLiteral(['-'] + s)
         == match ScanUnsigned(s)
            case None => None
            case Some(l) => Some(l.(negative := true))
  {
    assert (['-'] + s)[1..] == s;
  }

  /** Text that does not start with white space is parsed from its first
      character. */
  lemma ParseFront(s: string)
    requires |s| > 0 && !IsSpace(s[0])
    ensures ParseFloat(s)
         == match ScanLiteral(s)
            case None => None
            case Some(l) => Some(LiteralValue(l))
  {
    assert TrimStart(s) == s;
  }

  /** Text that starts with neither white space nor a sign is parsed as an
      unsigned literal. */
  lemma ParseUnsigned(s: string)
    requires |s| > 0 && s[0] != '+' && s[0] != '-' && !IsSpace(s[0])
    ensures ParseFloat(s)
         == match ScanUnsigned(s)
            case None => None
            case Some(l) => Some(LiteralValue(l))
  {
    ParseFront(s);
    ScanUnsignedFront(s);
  }

  /** Setting the sign of a literal negates its value. */
  lemma NegatedValue(l: Literal)
    requires !l.negative
    ensures LiteralValue(l.(negative := true)) == -LiteralValue(l)
  {
  }

  /** `parseFloat` of a minus sign and an unsigned number is the negated
      number. */
  lemma ParseNegated(s: string)
    requires |s| > 0 && s[0] != '+' && s[0] != '-' && !IsSpace(s[0])
    ensures ParseFloat(['-'] + s)
         == match ParseFloat(s)
            case None => None
            case Some(v) => Some(-v)
  {
    var n := ['-'] + s;
    assert n[0] == '-';
    ParseFront(n);
    ScanNegated(s);
    ParseUnsigned(s);
    if ScanUnsigned(s).Some? {
      NegatedValue(ScanUnsigned(s).value);
    }
  }

  /** The first comma of `whole,rest` follows `whole` when `whole` is all
      digits, so replacing it gives `whole.rest`. */
  lemma ReplaceCommaAfterDigits(whole: string, rest: string)
    requires AllDigits(whole)
    ensures ReplaceFirst(whole + "," + rest, ',', '.') == whole + "." + rest
  {
    var typed := whole + "," + rest;
    assert typed == whole + [','] + rest;
    assert forall i :: 0 <= i < |whole| ==> whole[i] != ',';
    IndexOfAfterPiece(whole, rest, ',');
    var r := ReplaceFirst(typed, ',', '.');
    assert |r| == |whole + "." + rest|;
    forall i | 0 <= i < |r|
      ensures r[i] == (whole + "." + rest)[i]
    {
    }
  }

  /** The value of a literal without exponent or sign. */
  lemma PlainValue(digits: nat, fractionDigits: nat)
    ensures LiteralValue(Literal(false, digits, fractionDigits, 0))
         == digits as real / Pow10(fractionDigits) as real
  {
    assert Scale(0) == 1.0;
  }

  /** The comma-decimal input a Brazilian user types, `whole,fraction`, once
      its FIRST comma is turned into a point, parses to `whole.fraction`
      exactly; whatever follows that stops the literal, another comma
      included, is ignored. */
  lemma CommaDecimal(whole: string, fraction: string, tail: string)
    requires |whole| > 0 && AllDigits(whole) && AllDigits(fraction) && StopsLiteral(tail)
    ensures AllDigits(whole + fraction)
    ensures ParseFloat(ReplaceFirst(whole + "," + fraction + tail, ',', '.'))
         == Some(DigitsValue(whole + fraction) as real / Pow10(|fraction|) as real)
  {
    assert whole + "," + fraction + tail == whole + "," + (fraction + tail);
    ReplaceCommaAfterDigits(whole, fraction + tail);
    var s := whole + "." + fraction + tail;
    assert whole + "." + (fraction + tail) == s;
    assert s[0] == whole[0];
    ParseUnsigned(s);
    MantissaDecimal(whole, fraction, tail);
    assert s[|whole| + 1 + |fraction|..] == tail;
    NoExponent(tail);
    PlainValue(DigitsValue(whole + fraction), |fraction|);
  }

  /** A whole number followed by text that stops the literal is read as
      that number with neither fraction nor exponent. */
  lemma ScanWholeNumber(whole: string, tail: string)
    requires |whole| > 0 && AllDigits(whole) && StopsLiteral(tail)
    requires |tail| == 0 || tail[0] != '.'
    ensures ScanUnsigned(whole + tail) == Some(Literal(false, DigitsValue(whole), 0, 0))
  {
    var s := whole + tail;
    MantissaWhole(whole, tail);
    assert s[|whole|..] == tail;
    NoExponent(tail);
  }

  /** A literal with neither fraction digits nor exponent is its digits. */
  lemma WholeValue(digits: nat)
    ensures LiteralValue(Literal(false, digits, 0, 0)) == digits as real
  {
    PlainValue(digits, 0);
    assert Pow10(0) == 1;
  }

  /** A whole number, followed by text that stops the literal, parses to
      itself. */
  lemma WholeNumber(whole: string, tail: string)
    requires |whole| > 0 && AllDigits(whole) && StopsLiteral(tail)
    requires |tail| == 0 || tail[0] != '.'
    ensures ParseFloat(whole + tail) == Some(DigitsValue(whole) as real)
  {
    var s := whole + tail;
    assert s[0] == whole[0];
    ParseUnsigned(s);
    ScanWholeNumber(whole, tail);
    WholeValue(DigitsValue(whole));
  }

  /** Text after a first non-digit does not change the digit run. */
  lemma {:induction false} DigitRunPrefix(d: string, rest: string)
    requires DigitRun(d) < |d|
    ensures DigitRun(d + rest) == DigitRun(d)
    decreases |d|
  {
    if IsDigit(d[0]) {
      assert (d + rest)[1..] == d[1..] + rest;
      DigitRunPrefix(d[1..], rest);
    }
  }

  /** A run of digits followed by a non-digit is read up to that non-digit. */
  lemma {:induction false} DigitRunAll(d: string, c: char)
    requires AllDigits(d) && !IsDigit(c)
    ensures DigitRun(d + [c]) == |d|
    decreases |d|
  {
    if |d| > 0 {
      assert (d + [c])[1..] == d[1..] + [c];
      DigitRunAll(d[1..], c);
    }
  }

  /** A string made of digits only is read whole. */
  lemma {:induction false} DigitRunWhole(d: string)
    requires AllDigits(d)
    ensures DigitRun(d) == |d|
    decreases |d|
  {
    if |d| > 0 {
      DigitRunWhole(d[1..]);
    }
  }
}
