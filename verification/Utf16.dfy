/** JavaScript strings as lists of UTF-16 code units, with decimal text and the code-unit order of `Array.sort`. */
module Utf16 {
  import opened Lists

  type CodeUnit = n: nat | n < 0x1_0000

  type Text = List<CodeUnit>

  type Digit = d: nat | d < 10

  const ZERO: CodeUnit := 0x30
  const MINUS: CodeUnit := 0x2D

  /** The text of an ASCII literal, from position `i` on. */
  function AsciiFrom(s: string, i: nat): (t: Text)
    requires i <= |s|
    ensures Length(t) == |s| - i
    decreases |s| - i
  {
    if i == |s| then Nil else Cons(s[i] as int % 0x1_0000, AsciiFrom(s, i + 1))
  }

  function Ascii(s: string): Text {
    AsciiFrom(s, 0)
  }

  /** Literals that differ in length or at one position are different texts. */
  lemma {:induction false} AsciiDiffers(a: string, b: string, i: nat, k: nat)
    requires i <= k && i <= |a| && i <= |b|
    requires |a| != |b| || (k < |a| && a[k] as int % 0x1_0000 != b[k] as int % 0x1_0000)
    ensures AsciiFrom(a, i) != AsciiFrom(b, i)
    decreases |a| - i
  {
    if |a| != |b| {
      assert Length(AsciiFrom(a, i)) != Length(AsciiFrom(b, i));
    } else if i < k {
      AsciiDiffers(a, b, i + 1, k);
    }
  }

  predicate IsDigitUnit(u: CodeUnit) {
    ZERO <= u <= 0x39
  }

  function DigitText(ds: List<Digit>): Text {
    match ds
    case Nil => Nil
    case Cons(d, rest) => Cons(ZERO + d, DigitText(rest))
  }

  /** Most significant digit first, without leading zeros. */
  function DigitsOf(n: nat): List<Digit> {
    if n < 10 then Singleton<Digit>(n) else Concat<Digit>(DigitsOf(n / 10), Singleton<Digit>(n % 10))
  }

  function ValueOf(ds: List<Digit>, sofar: nat := 0): nat {
    match ds
    case Nil => sofar
    case Cons(d, rest) => ValueOf(rest, 10 * sofar + d)
  }

  lemma ValueOfConcat(ds: List<Digit>, d: Digit, sofar: nat)
    ensures ValueOf(Concat<Digit>(ds, Singleton<Digit>(d)), sofar) == 10 * ValueOf(ds, sofar) + d
  {
  }

  /** Decimal digits denote the number they were taken from. */
  lemma {:induction false} ValueOfDigits(n: nat)
    ensures ValueOf(DigitsOf(n)) == n
    ensures DigitsOf(n).Cons?
  {
    if n >= 10 {
      ValueOfDigits(n / 10);
      ValueOfConcat(DigitsOf(n / 10), n % 10, 0);
    }
  }

  /** Decimal text of an integer, as `String(n)` prints it. */
  function IntText(n: int): Text {
    if n < 0 then Cons(MINUS, DigitText(DigitsOf(-n))) else DigitText(DigitsOf(n))
  }

  lemma DigitTextInjective(a: List<Digit>, b: List<Digit>)
    requires DigitText(a) == DigitText(b)
    ensures a == b
  {
    if a.Cons? && b.Cons? {
      DigitTextInjective(a.tail, b.tail);
    }
  }

  /** Different integers print differently. */
  lemma IntTextInjective(a: int, b: int)
    requires IntText(a) == IntText(b)
    ensures a == b
  {
    var x, y := if a < 0 then -a else a, if b < 0 then -b else b;
    ValueOfDigits(x);
    ValueOfDigits(y);
    DigitTextInjective(DigitsOf(x), DigitsOf(y));
  }

  /** Lexicographic order of code units: the order `Array.prototype.sort` gives strings. */
  predicate Less(a: Text, b: Text) {
    b.Cons? && (a.Nil? || a.head < b.head || (a.head == b.head && Less(a.tail, b.tail)))
  }

  lemma LessTotal(a: Text, b: Text)
    ensures Less(a, b) || a == b || Less(b, a)
  {
  }

  lemma LessAsymmetric(a: Text, b: Text)
    requires Less(a, b)
    ensures a != b && !Less(b, a)
  {
  }

  lemma LessTransitive(a: Text, b: Text, c: Text)
    requires Less(a, b) && Less(b, c)
    ensures Less(a, c)
  {
  }

  /** Every key comes after `key`. */
  predicate AllAfter(key: Text, keys: List<Text>) {
    keys.Cons? ==> Less(key, keys.head) && AllAfter(key, keys.tail)
  }

  /** Strictly ascending. */
  predicate Sorted(keys: List<Text>) {
    keys.Cons? ==> AllAfter(keys.head, keys.tail) && Sorted(keys.tail)
  }

  function Insert(key: Text, keys: List<Text>): List<Text> {
    if keys.Nil? || !Less(keys.head, key) then Cons(key, keys)
    else Cons(keys.head, Insert(key, keys.tail))
  }

  /** `keys.sort()`. */
  function SortKeys(keys: List<Text>): List<Text> {
    match keys
    case Nil => Nil
    case Cons(k, rest) => Insert(k, SortKeys(rest))
  }

  lemma InsertContains(key: Text, keys: List<Text>, k: Text)
    ensures Contains(Insert(key, keys), k) <==> k == key || Contains(keys, k)
  {
  }

  lemma {:induction false} SortKeysContains(keys: List<Text>, k: Text)
    ensures Contains(SortKeys(keys), k) <==> Contains(keys, k)
  {
    if keys.Cons? {
      SortKeysContains(keys.tail, k);
      InsertContains(keys.head, SortKeys(keys.tail), k);
    }
  }

  lemma AllAfterContains(key: Text, keys: List<Text>, k: Text)
    requires AllAfter(key, keys) && Contains(keys, k)
    ensures Less(key, k) && k != key
  {
    if keys.head == k {
      LessAsymmetric(key, k);
    } else {
      AllAfterContains(key, keys.tail, k);
    }
  }

  lemma AllAfterTransitive(a: Text, b: Text, keys: List<Text>)
    requires Less(a, b) && AllAfter(b, keys)
    ensures AllAfter(a, keys)
  {
    if keys.Cons? {
      LessTransitive(a, b, keys.head);
    }
  }

  lemma {:induction false} AllAfterInsert(a: Text, key: Text, keys: List<Text>)
    requires Less(a, key) && AllAfter(a, keys)
    ensures AllAfter(a, Insert(key, keys))
  {
    if keys.Cons? && Less(keys.head, key) {
      AllAfterInsert(a, key, keys.tail);
    }
  }

  lemma {:induction false} InsertSorted(key: Text, keys: List<Text>)
    requires Sorted(keys) && !Contains(keys, key)
    ensures Sorted(Insert(key, keys))
  {
    if keys.Cons? {
      if Less(keys.head, key) {
        InsertSorted(key, keys.tail);
        AllAfterInsert(keys.head, key, keys.tail);
      } else {
        LessTotal(keys.head, key);
        AllAfterTransitive(key, keys.head, keys.tail);
      }
    }
  }

  lemma {:induction false} SortKeysSorted(keys: List<Text>)
    requires Distinct(keys)
    ensures Sorted(SortKeys(keys))
  {
    if keys.Cons? {
      SortKeysSorted(keys.tail);
      SortKeysContains(keys.tail, keys.head);
      InsertSorted(keys.head, SortKeys(keys.tail));
    }
  }

  /** A strictly ascending list is determined by its elements. */
  lemma {:induction false} SortedUnique(a: List<Text>, b: List<Text>)
    requires Sorted(a) && Sorted(b)
    requires forall k :: Contains(a, k) <==> Contains(b, k)
    ensures a == b
  {
    assert a.Cons? ==> Contains(a, a.head);
    assert b.Cons? ==> Contains(b, b.head);
    if a.Cons? && b.Cons? {
      HeadsAgree(a, b);
      forall k
        ensures Contains(a.tail, k) <==> Contains(b.tail, k)
      {
        TailContains(a, k);
        TailContains(b, k);
      }
      SortedUnique(a.tail, b.tail);
    }
  }

  lemma HeadsAgree(a: List<Text>, b: List<Text>)
    requires Sorted(a) && Sorted(b) && a.Cons? && b.Cons?
    requires forall k :: Contains(a, k) <==> Contains(b, k)
    ensures a.head == b.head
  {
    assert Contains(a, a.head) && Contains(b, b.head);
    if a.head != b.head {
      AllAfterContains(b.head, b.tail, a.head);
      AllAfterContains(a.head, a.tail, b.head);
      LessAsymmetric(a.head, b.head);
      assert false;
    }
  }

  lemma TailContains(a: List<Text>, k: Text)
    requires Sorted(a) && a.Cons?
    ensures Contains(a.tail, k) <==> Contains(a, k) && k != a.head
  {
    if Contains(a.tail, k) {
      AllAfterContains(a.head, a.tail, k);
    }
  }

  /** Sorting depends only on which keys there are. */
  lemma SortKeysSameKeys(a: List<Text>, b: List<Text>)
    requires Distinct(a) && Distinct(b)
    requires forall k :: Contains(a, k) <==> Contains(b, k)
    ensures SortKeys(a) == SortKeys(b)
  {
    SortKeysSorted(a);
    SortKeysSorted(b);
    forall k
      ensures Contains(SortKeys(a), k) <==> Contains(SortKeys(b), k)
    {
      SortKeysContains(a, k);
      SortKeysContains(b, k);
    }
    SortedUnique(SortKeys(a), SortKeys(b));
  }
}
