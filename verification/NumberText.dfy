/**
 Numbers as JSON text.

 A finite JavaScript number is represented by what identifies it in the ECMAScript definition of
 Number::toString: its sign, its shortest decimal digits and the position of the decimal point.
 `NumberToText` prints it with the same four layouts; `ParseNumber` reads the number grammar of
 RFC 8259, section 6, and normalises the value it denotes.
*/
module NumberText {
  import opened Lists
  import opened Utf16
  import opened Wrappers

  const POINT: CodeUnit := 0x2E
  const PLUS: CodeUnit := 0x2B
  const EXPONENT: CodeUnit := 0x65

  /** `Decimal(neg, d1..dk, n)` is the number 0.d1..dk times ten to the power n. */
  datatype Number =
    | Zero(negative: bool)
    | Decimal(negative: bool, digits: List<Digit>, point: int)
    | NotFinite

  function StripTrailing(ds: List<Digit>): List<Digit> {
    match ds
    case Nil => Nil
    case Cons(d, rest) =>
      var stripped := StripTrailing(rest);
      if d == 0 && stripped.Nil? then Nil else Cons(d, stripped)
  }

  /** The digits are the shortest ones: there is no zero to strip on either side. */
  predicate ShortestDigits(ds: List<Digit>) {
    ds.Cons? && ds.head != 0 && StripTrailing(ds) == ds
  }

  predicate ValidNumber(n: Number) {
    n.Decimal? ==> ShortestDigits(n.digits)
  }

  /** Negative zero prints as zero. */
  function CanonicalNumber(n: Number): Number {
    if n.Zero? then Zero(false) else n
  }

  function Zeros(n: nat): List<Digit> {
    if n == 0 then Nil else Cons(0, Zeros(n - 1))
  }

  function Magnitude(digits: List<Digit>, n: int): Text {
    var k := Length(digits);
    if k <= n <= 21 then DigitText(Concat(digits, Zeros(n - k)))
    else if 0 < n <= 21 then PointedText(Take(digits, n), Drop(digits, n))
    else if -6 < n <= 0 then PointedText(Zeros(1), Concat(Zeros(-n), digits))
    else ScientificText(digits, n - 1)
  }

  function PointedText(whole: List<Digit>, fraction: List<Digit>): Text {
    Concat(DigitText(whole), Cons(POINT, DigitText(fraction)))
  }

  function ScientificText(digits: List<Digit>, exponent: int): Text {
    match digits
    case Nil => Nil
    case Cons(d, rest) => Cons(ZERO + d, Concat(FractionText(rest), ExponentText(exponent)))
  }

  function FractionText(fraction: List<Digit>): Text {
    if fraction.Nil? then Nil else Cons(POINT, DigitText(fraction))
  }

  function ExponentText(exponent: int): Text {
    Cons(EXPONENT, Cons(if exponent < 0 then MINUS else PLUS,
                        DigitText(DigitsOf(if exponent < 0 then -exponent else exponent))))
  }

  /** `JSON.stringify` of a finite number. */
  function NumberToText(n: Number): Text
    requires !n.NotFinite?
  {
    if n.Zero? then Singleton(ZERO)
    else if n.negative then Cons(MINUS, Magnitude(n.digits, n.point))
    else Magnitude(n.digits, n.point)
  }

  // Reading numbers

  /** The longest run of digits at the front, and what follows it. */
  function SplitDigits(t: Text): (r: (List<Digit>, Text))
    ensures Length(r.0) + Length(r.1) == Length(t)
  {
    if t.Nil? || !IsDigitUnit(t.head) then (Nil, t)
    else
      var (ds, rest) := SplitDigits(t.tail);
      (Cons(t.head - ZERO, ds), rest)
  }

  function StripLeading(ds: List<Digit>): List<Digit> {
    if ds.Cons? && ds.head == 0 then StripLeading(ds.tail) else ds
  }

  /** The number whose decimal expansion has these digits with the point after `point` of them. */
  function Normalise(negative: bool, ds: List<Digit>, point: int): Number {
    var significant := StripLeading(ds);
    if significant.Nil? then Zero(negative)
    else Decimal(negative, StripTrailing(significant), point - (Length(ds) - Length(significant)))
  }

  /** The optional fraction: its digits and what follows. */
  function ReadFraction(t: Text): (r: (List<Digit>, Text))
    ensures Length(r.1) <= Length(t)
  {
    if t.Nil? || t.head != POINT then (Nil, t) else SplitDigits(t.tail)
  }

  /** The optional exponent: its value and what follows. */
  function ReadExponent(t: Text): (r: (int, Text))
    ensures Length(r.1) <= Length(t)
  {
    if t.Nil? || t.head != EXPONENT || t.tail.Nil? || (t.tail.head != PLUS && t.tail.head != MINUS) then (0, t)
    else
      var (ds, rest) := SplitDigits(t.tail.tail);
      var value: int := ValueOf(ds);
      (if t.tail.head == MINUS then -value else value, rest)
  }

  function ReadMagnitude(negative: bool, t: Text): (r: Option<(Number, Text)>)
    ensures r.Some? ==> Length(r.value.1) < Length(t)
  {
    var (whole, afterWhole) := SplitDigits(t);
    if whole.Nil? then None
    else
      var (fraction, afterFraction) := ReadFraction(afterWhole);
      var (exponent, rest) := ReadExponent(afterFraction);
      Some((Normalise(negative, Concat(whole, fraction), Length(whole) + exponent), rest))
  }

  function ParseNumber(t: Text): (r: Option<(Number, Text)>)
    ensures r.Some? ==> Length(r.value.1) < Length(t)
  {
    if t.Cons? && t.head == MINUS then ReadMagnitude(true, t.tail) else ReadMagnitude(false, t)
  }

  /** What follows a number in JSON text cannot extend it. */
  predicate EndsNumber(rest: Text) {
    rest.Cons? ==> !IsDigitUnit(rest.head) && rest.head != POINT && rest.head != EXPONENT
  }

  // Round trip

  lemma {:induction false} SplitDigitText(ds: List<Digit>, rest: Text)
    requires rest.Cons? ==> !IsDigitUnit(rest.head)
    ensures SplitDigits(Concat(DigitText(ds), rest)) == (ds, rest)
  {
    if ds.Cons? {
      SplitDigitText(ds.tail, rest);
    }
  }

  lemma StripTrailingPadded(ds: List<Digit>, n: nat)
    ensures StripTrailing(Concat(ds, Zeros(n))) == StripTrailing(ds)
  {
    if ds.Nil? {
      StripTrailingZeros(n);
    }
  }

  lemma StripTrailingZeros(n: nat)
    ensures StripTrailing(Zeros(n)) == Nil
  {
  }

  lemma StripLeadingPadded(n: nat, ds: List<Digit>)
    ensures StripLeading(Concat(Zeros(n), ds)) == StripLeading(ds)
    ensures Length(Concat(Zeros(n), ds)) == n + Length(ds)
  {
  }

  /** Zeros on either side of the digits only move the point. */
  lemma NormalisePadded(negative: bool, before: nat, ds: List<Digit>, after: nat, point: int)
    requires ShortestDigits(ds)
    ensures Normalise(negative, Concat(Zeros(before), Concat(ds, Zeros(after))), point) ==
              Decimal(negative, ds, point - before)
  {
    StripLeadingPadded(before, Concat(ds, Zeros(after)));
    StripTrailingPadded(ds, after);
  }

  lemma ReadWhole(negative: bool, whole: List<Digit>, rest: Text)
    requires whole.Cons? && EndsNumber(rest)
    ensures ReadMagnitude(negative, Concat(DigitText(whole), rest)) ==
              Some((Normalise(negative, whole, Length(whole)), rest))
  {
    SplitDigitText(whole, rest);
    ConcatNil(whole);
  }

  lemma ReadPointed(negative: bool, whole: List<Digit>, fraction: List<Digit>, rest: Text)
    requires whole.Cons? && EndsNumber(rest)
    ensures ReadMagnitude(negative, Concat(PointedText(whole, fraction), rest)) ==
              Some((Normalise(negative, Concat(whole, fraction), Length(whole)), rest))
  {
    var tail := Cons(POINT, Concat(DigitText(fraction), rest));
    ConcatAssociative(DigitText(whole), Cons(POINT, DigitText(fraction)), rest);
    SplitDigitText(whole, tail);
    SplitDigitText(fraction, rest);
  }

  lemma ReadScientific(negative: bool, digits: List<Digit>, exponent: int, rest: Text)
    requires digits.Cons? && EndsNumber(rest)
    ensures ReadMagnitude(negative, Concat(ScientificText(digits, exponent), rest)) ==
              Some((Normalise(negative, digits, 1 + exponent), rest))
  {
    var ds := DigitsOf(if exponent < 0 then -exponent else exponent);
    var tail := Concat(ExponentText(exponent), rest);
    SplitDigitText(ds, rest);
    ValueOfDigits(if exponent < 0 then -exponent else exponent);
    assert tail.tail == Concat(ExponentText(exponent).tail, rest);
    assert tail.tail.tail == Concat(DigitText(ds), rest);
    assert ReadExponent(tail) == (exponent, rest);
    ConcatAssociative(FractionText(digits.tail), ExponentText(exponent), rest);
    var afterWhole := Concat(FractionText(digits.tail), tail);
    SplitDigitText(digits.tail, tail);
    assert ReadFraction(afterWhole) == (digits.tail, tail);
    SplitDigitText(Singleton<Digit>(digits.head), afterWhole);
    assert Concat<Digit>(Singleton<Digit>(digits.head), digits.tail) == digits;
    assert SplitDigits(Concat(ScientificText(digits, exponent), rest)) == (Singleton<Digit>(digits.head), afterWhole);
    assert ReadFraction(afterWhole).1 == tail;
  }

  lemma LengthZeros(n: nat)
    ensures Length(Zeros(n)) == n
  {
  }

  lemma PlainRoundTrip(negative: bool, digits: List<Digit>, n: int, rest: Text)
    requires ShortestDigits(digits) && EndsNumber(rest) && Length(digits) <= n
    ensures ReadMagnitude(negative, Concat(DigitText(Concat(digits, Zeros(n - Length(digits)))), rest)) ==
              Some((Decimal(negative, digits, n), rest))
  {
    var padding := n - Length(digits);
    ReadWhole(negative, Concat(digits, Zeros(padding)), rest);
    LengthZeros(padding);
    LengthConcat(digits, Zeros(padding));
    NormalisePadded(negative, 0, digits, padding, n);
  }

  lemma PointedRoundTrip(negative: bool, digits: List<Digit>, n: int, rest: Text)
    requires ShortestDigits(digits) && EndsNumber(rest) && 0 < n < Length(digits)
    ensures ReadMagnitude(negative, Concat(PointedText(Take(digits, n), Drop(digits, n)), rest)) ==
              Some((Decimal(negative, digits, n), rest))
  {
    TakeDrop(digits, n);
    ReadPointed(negative, Take(digits, n), Drop(digits, n), rest);
    ConcatNil(digits);
    NormalisePadded(negative, 0, digits, 0, n);
  }

  lemma SmallRoundTrip(negative: bool, digits: List<Digit>, n: int, rest: Text)
    requires ShortestDigits(digits) && EndsNumber(rest) && n <= 0
    ensures ReadMagnitude(negative, Concat(PointedText(Zeros(1), Concat(Zeros(-n), digits)), rest)) ==
              Some((Decimal(negative, digits, n), rest))
  {
    ReadPointed(negative, Zeros(1), Concat(Zeros(-n), digits), rest);
    ConcatNil(digits);
    NormalisePadded(negative, 1 - n, digits, 0, 1);
  }

  lemma ScientificRoundTrip(negative: bool, digits: List<Digit>, n: int, rest: Text)
    requires ShortestDigits(digits) && EndsNumber(rest)
    ensures ReadMagnitude(negative, Concat(ScientificText(digits, n - 1), rest)) ==
              Some((Decimal(negative, digits, n), rest))
  {
    ReadScientific(negative, digits, n - 1, rest);
    ConcatNil(digits);
    NormalisePadded(negative, 0, digits, 0, n);
  }

  /** Each of the four layouts is read back as the digits and the point it was printed from. */
  lemma MagnitudeRoundTrip(negative: bool, digits: List<Digit>, n: int, rest: Text)
    requires ShortestDigits(digits) && EndsNumber(rest)
    ensures ReadMagnitude(negative, Concat(Magnitude(digits, n), rest)) == Some((Decimal(negative, digits, n), rest))
  {
    if Length(digits) <= n <= 21 {
      PlainRoundTrip(negative, digits, n, rest);
    } else if 0 < n <= 21 {
      PointedRoundTrip(negative, digits, n, rest);
    } else if -6 < n <= 0 {
      SmallRoundTrip(negative, digits, n, rest);
    } else {
      ScientificRoundTrip(negative, digits, n, rest);
    }
  }

  lemma MagnitudeStarts(digits: List<Digit>, n: int)
    requires digits.Cons?
    ensures Magnitude(digits, n).Cons? && IsDigitUnit(Magnitude(digits, n).head)
  {
  }

  /** The text of a finite number denotes that number, whatever follows it. */
  lemma NumberRoundTrip(n: Number, rest: Text)
    requires ValidNumber(n) && !n.NotFinite? && EndsNumber(rest)
    ensures ParseNumber(Concat(NumberToText(n), rest)) == Some((CanonicalNumber(n), rest))
    ensures NumberToText(n).Cons? && (IsDigitUnit(NumberToText(n).head) || NumberToText(n).head == MINUS)
  {
    if n.Zero? {
      ReadWhole(false, Zeros(1), rest);
    } else {
      MagnitudeRoundTrip(n.negative, n.digits, n.point, rest);
      MagnitudeStarts(n.digits, n.point);
    }
  }
}
