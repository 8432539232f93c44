/** Strings as JSON text: `JSON.stringify` quoting, and the string grammar of RFC 8259, section 7. */
module StringText {
  import opened Lists
  import opened Utf16
  import opened Wrappers

  const QUOTE: CodeUnit := 0x22
  const BACKSLASH: CodeUnit := 0x5C
  const UNICODE_ESCAPE: CodeUnit := 0x75

  predicate IsHighSurrogate(u: CodeUnit) {
    0xD800 <= u <= 0xDBFF
  }

  predicate IsLowSurrogate(u: CodeUnit) {
    0xDC00 <= u <= 0xDFFF
  }

  /** The letter of a two-character escape, when the unit has one. */
  function ShortEscape(u: CodeUnit): Option<CodeUnit> {
    if u == QUOTE then Some(QUOTE)
    else if u == BACKSLASH then Some(BACKSLASH)
    else if u == 0x08 then Some(0x62)
    else if u == 0x0C then Some(0x66)
    else if u == 0x0A then Some(0x6E)
    else if u == 0x0D then Some(0x72)
    else if u == 0x09 then Some(0x74)
    else None
  }

  function HexUnit(d: nat): CodeUnit
    requires d < 16
  {
    if d < 10 then 0x30 + d else 0x61 + (d - 10)
  }

  function Hex4(u: CodeUnit): Text {
    Cons(HexUnit(u / 0x1000), Cons(HexUnit(u / 0x100 % 16), Cons(HexUnit(u / 16 % 16), Singleton(HexUnit(u % 16)))))
  }

  /** One unit that is not half of a surrogate pair. */
  function EscapeUnit(u: CodeUnit): Text {
    if ShortEscape(u).Some? then Cons(BACKSLASH, Singleton(ShortEscape(u).value))
    else if u < 0x20 || IsHighSurrogate(u) || IsLowSurrogate(u) then Cons(BACKSLASH, Cons(UNICODE_ESCAPE, Hex4(u)))
    else Singleton(u)
  }

  /** Surrogate pairs are copied; lone surrogates are escaped. */
  function EscapeText(s: Text): Text {
    match s
    case Nil => Nil
    case Cons(u, rest) =>
      if IsHighSurrogate(u) && rest.Cons? && IsLowSurrogate(rest.head)
      then Cons(u, Cons(rest.head, EscapeText(rest.tail)))
      else Concat(EscapeUnit(u), EscapeText(rest))
  }

  /** `JSON.stringify` of a string. */
  function QuoteText(s: Text): Text {
    Cons(QUOTE, Concat(EscapeText(s), Singleton(QUOTE)))
  }

  // Reading strings

  function HexValue(u: CodeUnit): (r: Option<nat>)
    ensures r.Some? ==> r.value < 16
  {
    if 0x30 <= u <= 0x39 then Some(u - 0x30)
    else if 0x61 <= u <= 0x66 then Some(u - 0x61 + 10)
    else if 0x41 <= u <= 0x46 then Some(u - 0x41 + 10)
    else None
  }

  function ReadHex4(t: Text): (r: Option<(CodeUnit, Text)>)
    ensures r.Some? ==> Length(r.value.1) < Length(t)
  {
    if t.Nil? || t.tail.Nil? || t.tail.tail.Nil? || t.tail.tail.tail.Nil? then None
    else
      var a :- HexValue(t.head);
      var b :- HexValue(t.tail.head);
      var c :- HexValue(t.tail.tail.head);
      var d :- HexValue(t.tail.tail.tail.head);
      var rest := t.tail.tail.tail.tail;
      assert Length(t.tail.tail) == 2 + Length(rest);
      Some((a * 0x1000 + b * 0x100 + c * 16 + d, rest))
  }

  function ReadShortEscape(u: CodeUnit): Option<CodeUnit> {
    if u == QUOTE || u == BACKSLASH || u == 0x2F then Some(u)
    else if u == 0x62 then Some(0x08)
    else if u == 0x66 then Some(0x0C)
    else if u == 0x6E then Some(0x0A)
    else if u == 0x72 then Some(0x0D)
    else if u == 0x74 then Some(0x09)
    else None
  }

  /** One character of a string: its code unit and what follows it. */
  function ReadUnit(t: Text): (r: Option<(CodeUnit, Text)>)
    ensures r.Some? ==> Length(r.value.1) < Length(t)
  {
    if t.Nil? || t.head < 0x20 || t.head == QUOTE then None
    else if t.head != BACKSLASH then Some((t.head, t.tail))
    else if t.tail.Nil? then None
    else if t.tail.head == UNICODE_ESCAPE then ReadHex4(t.tail.tail)
    else
      var u :- ReadShortEscape(t.tail.head);
      Some((u, t.tail.tail))
  }

  /** The rest of a string up to its closing quote, and what follows the quote. */
  function ReadText(t: Text): (r: Option<(Text, Text)>)
    ensures r.Some? ==> Length(r.value.1) < Length(t)
    decreases Length(t)
  {
    if t.Nil? then None
    else if t.head == QUOTE then Some((Nil, t.tail))
    else
      var (u, rest) :- ReadUnit(t);
      var (s, after) :- ReadText(rest);
      Some((Cons(u, s), after))
  }

  // Round trip

  lemma TwoDigits(u: CodeUnit)
    ensures u / 0x100 == u / 16 / 16
  {
  }

  lemma ThreeDigits(u: CodeUnit)
    ensures u / 0x1000 == u / 0x100 / 16
  {
  }

  lemma HexDigitsOf(u: CodeUnit)
    ensures u / 0x1000 * 0x1000 + u / 0x100 % 16 * 0x100 + u / 16 % 16 * 16 + u % 16 == u
  {
    TwoDigits(u);
    ThreeDigits(u);
    var a, b, c := u / 16, u / 0x100, u / 0x1000;
    assert u == 16 * a + u % 16 && a == 16 * b + a % 16 && b == 16 * c + b % 16;
  }

  lemma Hex4RoundTrip(u: CodeUnit, rest: Text)
    ensures ReadHex4(Concat(Hex4(u), rest)) == Some((u, rest))
  {
    HexDigitsOf(u);
    var t := Concat(Hex4(u), rest);
    assert t.tail == Concat(Hex4(u).tail, rest);
    assert t.tail.tail == Concat(Hex4(u).tail.tail, rest);
    assert t.tail.tail.tail == Concat(Hex4(u).tail.tail.tail, rest);
    assert t.tail.tail.tail.tail == Concat(Hex4(u).tail.tail.tail.tail, rest);
  }

  lemma UnitRoundTrip(u: CodeUnit, rest: Text)
    ensures ReadUnit(Concat(EscapeUnit(u), rest)) == Some((u, rest))
    ensures Concat(EscapeUnit(u), rest).head != QUOTE
  {
    var escaped := EscapeUnit(u);
    var t := Concat(escaped, rest);
    assert t.tail == Concat(escaped.tail, rest);
    if ShortEscape(u).Some? {
      assert t.tail.tail == Concat(escaped.tail.tail, rest);
    } else if escaped.tail.Cons? {
      assert t.tail.tail == Concat(Hex4(u), rest);
      Hex4RoundTrip(u, rest);
    }
  }

  /** Escaped text is read back unit by unit, up to the closing quote. */
  lemma {:induction false} EscapeRoundTrip(s: Text, rest: Text)
    ensures ReadText(Concat(EscapeText(s), Cons(QUOTE, rest))) == Some((s, rest))
  {
    if s.Cons? {
      if IsHighSurrogate(s.head) && s.tail.Cons? && IsLowSurrogate(s.tail.head) {
        EscapeRoundTrip(s.tail.tail, rest);
      } else {
        EscapeRoundTrip(s.tail, rest);
        ConcatAssociative(EscapeUnit(s.head), EscapeText(s.tail), Cons(QUOTE, rest));
        UnitRoundTrip(s.head, Concat(EscapeText(s.tail), Cons(QUOTE, rest)));
      }
    }
  }

  /** A quoted string denotes the string it was made from, whatever follows it. */
  lemma QuoteRoundTrip(s: Text, rest: Text)
    ensures Concat(QuoteText(s), rest).head == QUOTE
    ensures ReadText(Concat(QuoteText(s), rest).tail) == Some((s, rest))
  {
    ConcatAssociative(EscapeText(s), Singleton(QUOTE), rest);
    EscapeRoundTrip(s, rest);
  }
}
