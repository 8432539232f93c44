/**
 The canonical JSON printer behind order fingerprints.

 JSON values are what JavaScript hands to the printer: object members in insertion order, numbers
 with both zeros, and the values JSON does not have. `Serialize` is the printer; `ParseValue` reads the
 JSON grammar of RFC 8259 (without insignificant white space) and shows what the printed text denotes.
*/
module CanonicalJson {
  import opened Lists
  import opened Utf16
  import opened NumberText
  import opened StringText
  import opened Wrappers

  const COMMA: CodeUnit := 0x2C
  const COLON: CodeUnit := 0x3A
  const OPEN_BRACKET: CodeUnit := 0x5B
  const CLOSE_BRACKET: CodeUnit := 0x5D
  const OPEN_BRACE: CodeUnit := 0x7B
  const CLOSE_BRACE: CodeUnit := 0x7D

  datatype Json =
    | Null
    | Bool(truth: bool)
    | Num(number: Number)
    | Str(text: Text)
    | Arr(items: List<Json>)
    | Obj(members: List<Member>)
    | Unsupported  // undefined, functions, symbols, big integers

  datatype Member = Member(key: Text, value: Json)

  function Keys(members: List<Member>): List<Text> {
    match members
    case Nil => Nil
    case Cons(m, rest) => Cons(m.key, Keys(rest))
  }

  /** An object has each key once and numbers are in shortest form. */
  predicate WellFormed(v: Json) {
    match v
    case Num(n) => ValidNumber(n)
    case Arr(items) => WellFormedItems(items)
    case Obj(members) => Distinct(Keys(members)) && WellFormedMembers(members)
    case _ => true
  }

  predicate WellFormedItems(items: List<Json>) {
    items.Cons? ==> WellFormed(items.head) && WellFormedItems(items.tail)
  }

  predicate WellFormedMembers(members: List<Member>) {
    members.Cons? ==> WellFormed(members.head.value) && WellFormedMembers(members.tail)
  }

  // The printer

  /** `canonicalSerialize`; `None` is the malformed-order-json error. */
  function Serialize(v: Json): Option<Text> {
    match v
    case Null => Some(Ascii("null"))
    case Bool(b) => Some(if b then Ascii("true") else Ascii("false"))
    case Num(n) => if n.NotFinite? then None else Some(NumberToText(n))
    case Str(s) => Some(QuoteText(s))
    case Arr(items) =>
      var body :- SerializeItems(items);
      Some(Cons(OPEN_BRACKET, Concat(body, Singleton(CLOSE_BRACKET))))
    case Obj(members) =>
      var texts :- SerializeMembers(members);
      Some(Cons(OPEN_BRACE, Concat(JoinMembers(SortKeys(Keys(members)), texts), Singleton(CLOSE_BRACE))))
    case Unsupported => None
  }

  function SerializeItems(items: List<Json>): Option<Text> {
    match items
    case Nil => Some(Nil)
    case Cons(v, rest) =>
      var first :- Serialize(v);
      var others :- SerializeItems(rest);
      Some(if rest.Nil? then first else Concat(first, Cons(COMMA, others)))
  }

  /** The text of every member's value, by key. */
  function SerializeMembers(members: List<Member>): Option<map<Text, Text>> {
    match members
    case Nil => Some(map[])
    case Cons(m, rest) =>
      var text :- Serialize(m.value);
      var others :- SerializeMembers(rest);
      Some(others[m.key := text])
  }

  function MemberText(key: Text, value: Text): Text {
    Concat(QuoteText(key), Cons(COLON, value))
  }

  function JoinMembers(keys: List<Text>, texts: map<Text, Text>): Text {
    match keys
    case Nil => Nil
    case Cons(k, rest) =>
      var first := MemberText(k, if k in texts then texts[k] else Nil);
      if rest.Nil? then first else Concat(first, Cons(COMMA, JoinMembers(rest, texts)))
  }

  // The reader

  function StripPrefix(prefix: Text, t: Text): (r: Option<Text>)
    ensures r.Some? ==> Length(r.value) + Length(prefix) == Length(t)
  {
    if prefix.Nil? then Some(t)
    else if t.Nil? || t.head != prefix.head then None
    else StripPrefix(prefix.tail, t.tail)
  }

  function ParseLiteral(literal: Text, v: Json, t: Text): (r: Option<(Json, Text)>)
    requires literal.Cons?
    ensures r.Some? ==> Length(r.value.1) < Length(t)
  {
    var rest :- StripPrefix(literal, t);
    Some((v, rest))
  }

  /** The value at the front of a text, and what follows it. */
  function ParseValue(t: Text): (r: Option<(Json, Text)>)
    ensures r.Some? ==> Length(r.value.1) < Length(t)
    decreases Length(t), 0
  {
    if t.Nil? then None
    else if t.head == 0x6E then ParseLiteral(Ascii("null"), Null, t)
    else if t.head == 0x74 then ParseLiteral(Ascii("true"), Bool(true), t)
    else if t.head == 0x66 then ParseLiteral(Ascii("false"), Bool(false), t)
    else if t.head == QUOTE then
      var (s, rest) :- ReadText(t.tail);
      Some((Str(s), rest))
    else if t.head == OPEN_BRACKET then
      if t.tail.Cons? && t.tail.head == CLOSE_BRACKET then Some((Arr(Nil), t.tail.tail))
      else
        var (items, rest) :- ParseItems(t.tail);
        Some((Arr(items), rest))
    else if t.head == OPEN_BRACE then
      if t.tail.Cons? && t.tail.head == CLOSE_BRACE then Some((Obj(Nil), t.tail.tail))
      else
        var (members, rest) :- ParseMembers(t.tail);
        Some((Obj(members), rest))
    else
      var (n, rest) :- ParseNumber(t);
      Some((Num(n), rest))
  }

  /** Items up to and including the closing bracket. */
  function ParseItems(t: Text): (r: Option<(List<Json>, Text)>)
    ensures r.Some? ==> Length(r.value.1) < Length(t)
    decreases Length(t), 1
  {
    var (v, after) :- ParseValue(t);
    if after.Nil? then None
    else if after.head == CLOSE_BRACKET then Some((Cons(v, Nil), after.tail))
    else if after.head != COMMA then None
    else
      var (others, rest) :- ParseItems(after.tail);
      Some((Cons(v, others), rest))
  }

  /** One key, its colon and its value. */
  function ParseMember(t: Text): (r: Option<(Member, Text)>)
    ensures r.Some? ==> Length(r.value.1) < Length(t)
    decreases Length(t), 1
  {
    if t.Nil? || t.head != QUOTE then None
    else
      var (key, afterKey) :- ReadText(t.tail);
      if afterKey.Nil? || afterKey.head != COLON then None
      else
        var (v, rest) :- ParseValue(afterKey.tail);
        Some((Member(key, v), rest))
  }

  /** Members up to and including the closing brace. */
  function ParseMembers(t: Text): (r: Option<(List<Member>, Text)>)
    ensures r.Some? ==> Length(r.value.1) < Length(t)
    decreases Length(t), 2
  {
    var (m, after) :- ParseMember(t);
    if after.Nil? then None
    else if after.head == CLOSE_BRACE then Some((Cons(m, Nil), after.tail))
    else if after.head != COMMA then None
    else
      var (others, rest) :- ParseMembers(after.tail);
      Some((Cons(m, others), rest))
  }

  // What the text denotes

  /** The value with every object's members in ascending key order and one zero. */
  function Canonical(v: Json): Json {
    match v
    case Num(n) => Num(CanonicalNumber(n))
    case Arr(items) => Arr(CanonicalItems(items))
    case Obj(members) => Obj(MembersAt(SortKeys(Keys(members)), CanonicalValues(members)))
    case _ => v
  }

  function CanonicalItems(items: List<Json>): List<Json> {
    match items
    case Nil => Nil
    case Cons(v, rest) => Cons(Canonical(v), CanonicalItems(rest))
  }

  function CanonicalValues(members: List<Member>): map<Text, Json> {
    match members
    case Nil => map[]
    case Cons(m, rest) => CanonicalValues(rest)[m.key := Canonical(m.value)]
  }

  function MembersAt(keys: List<Text>, values: map<Text, Json>): List<Member> {
    match keys
    case Nil => Nil
    case Cons(k, rest) => Cons(Member(k, if k in values then values[k] else Null), MembersAt(rest, values))
  }

  // Round trip

  lemma StripPrefixConcat(prefix: Text, rest: Text)
    ensures StripPrefix(prefix, Concat(prefix, rest)) == Some(rest)
  {
  }

  lemma LiteralRoundTrip(v: Json, rest: Text)
    requires v.Null? || v.Bool?
    ensures ParseValue(Concat(Serialize(v).value, rest)) == Some((v, rest))
  {
    var literal := Serialize(v).value;
    assert literal.head == match v case Null => 0x6E case Bool(b) => if b then 0x74 else 0x66 case _ => 0;
    StripPrefixConcat(literal, rest);
  }

  /** Printed values start with a character no closing or separating character can be taken for. */
  lemma StartsValue(v: Json)
    requires WellFormed(v) && Serialize(v).Some?
    ensures Serialize(v).value.Cons?
    ensures Serialize(v).value.head !in {COMMA, COLON, CLOSE_BRACKET, CLOSE_BRACE}
  {
    match v
    case Null =>
    case Bool(b) =>
    case Num(n) => NumberRoundTrip(n, Nil);
    case Str(s) =>
    case Arr(items) =>
    case Obj(members) =>
  }

  lemma NumRoundTrip(n: Number, rest: Text)
    requires ValidNumber(n) && !n.NotFinite? && EndsNumber(rest)
    ensures ParseValue(Concat(NumberToText(n), rest)) == Some((Num(CanonicalNumber(n)), rest))
  {
    NumberRoundTrip(n, rest);
    var first := Concat(NumberToText(n), rest).head;
    assert first == MINUS || IsDigitUnit(first);
  }

  /** Reading the printed text of a value gives the value back in canonical form, whatever follows it. */
  lemma {:induction false} SerializeRoundTrip(v: Json, rest: Text)
    requires WellFormed(v) && Serialize(v).Some? && EndsNumber(rest)
    ensures ParseValue(Concat(Serialize(v).value, rest)) == Some((Canonical(v), rest))
    decreases v
  {
    match v
    case Null => LiteralRoundTrip(v, rest);
    case Bool(b) => LiteralRoundTrip(v, rest);
    case Num(n) => NumRoundTrip(n, rest);
    case Str(s) => QuoteRoundTrip(s, rest);
    case Arr(items) => ArrayRoundTrip(items, rest);
    case Obj(members) => ObjectRoundTrip(members, rest);
  }

  lemma ParseArray(t: Text, items: List<Json>, rest: Text)
    requires t.Cons? && t.head == OPEN_BRACKET && t.tail.Cons? && t.tail.head != CLOSE_BRACKET
    requires ParseItems(t.tail) == Some((items, rest))
    ensures ParseValue(t) == Some((Arr(items), rest))
  {
  }

  lemma ParseObject(t: Text, members: List<Member>, rest: Text)
    requires t.Cons? && t.head == OPEN_BRACE && t.tail.Cons? && t.tail.head != CLOSE_BRACE
    requires ParseMembers(t.tail) == Some((members, rest))
    ensures ParseValue(t) == Some((Obj(members), rest))
  {
  }

  lemma ParseEmpty(rest: Text)
    ensures ParseValue(Cons(OPEN_BRACKET, Cons(CLOSE_BRACKET, rest))) == Some((Arr(Nil), rest))
    ensures ParseValue(Cons(OPEN_BRACE, Cons(CLOSE_BRACE, rest))) == Some((Obj(Nil), rest))
  {
  }

  lemma {:induction false} ArrayRoundTrip(items: List<Json>, rest: Text)
    requires WellFormedItems(items) && SerializeItems(items).Some?
    ensures ParseValue(Concat(Serialize(Arr(items)).value, rest)) == Some((Canonical(Arr(items)), rest))
    decreases items, 1
  {
    var body := SerializeItems(items).value;
    var t := Concat(Serialize(Arr(items)).value, rest);
    ConcatAssociative(body, Singleton(CLOSE_BRACKET), rest);
    assert t == Cons(OPEN_BRACKET, Concat(body, Cons(CLOSE_BRACKET, rest)));
    if items.Nil? {
      ParseEmpty(rest);
    } else {
      ItemsRoundTrip(items, rest);
      StartsItems(items);
      ParseArray(t, CanonicalItems(items), rest);
    }
  }

  lemma {:induction false} ObjectRoundTrip(members: List<Member>, rest: Text)
    requires WellFormed(Obj(members)) && SerializeMembers(members).Some?
    ensures ParseValue(Concat(Serialize(Obj(members)).value, rest)) == Some((Canonical(Obj(members)), rest))
    decreases members, 1
  {
    var keys := SortKeys(Keys(members));
    var texts := SerializeMembers(members).value;
    var body := JoinMembers(keys, texts);
    var t := Concat(Serialize(Obj(members)).value, rest);
    ConcatAssociative(body, Singleton(CLOSE_BRACE), rest);
    assert t == Cons(OPEN_BRACE, Concat(body, Cons(CLOSE_BRACE, rest)));
    if members.Nil? {
      ParseEmpty(rest);
    } else {
      MemberValuesRoundTrip(members);
      SortedKeysOf(members);
      MembersRoundTrip(keys, texts, CanonicalValues(members), rest);
      StartsMembers(keys, texts);
      ParseObject(t, MembersAt(keys, CanonicalValues(members)), rest);
    }
  }

  lemma StartsItems(items: List<Json>)
    requires items.Cons? && WellFormedItems(items) && SerializeItems(items).Some?
    ensures SerializeItems(items).value.Cons? && SerializeItems(items).value.head != CLOSE_BRACKET
  {
    StartsValue(items.head);
  }

  lemma StartsMembers(keys: List<Text>, texts: map<Text, Text>)
    requires keys.Cons?
    ensures JoinMembers(keys, texts).Cons? && JoinMembers(keys, texts).head == QUOTE
  {
  }

  lemma {:induction false} ItemsRoundTrip(items: List<Json>, rest: Text)
    requires items.Cons? && WellFormedItems(items) && SerializeItems(items).Some?
    ensures ParseItems(Concat(SerializeItems(items).value, Cons(CLOSE_BRACKET, rest))) ==
              Some((CanonicalItems(items), rest))
    decreases items, 0
  {
    var first := Serialize(items.head).value;
    if items.tail.Nil? {
      SerializeRoundTrip(items.head, Cons(CLOSE_BRACKET, rest));
    } else {
      var others := SerializeItems(items.tail).value;
      ConcatAssociative(first, Cons(COMMA, others), Cons(CLOSE_BRACKET, rest));
      SerializeRoundTrip(items.head, Cons(COMMA, Concat(others, Cons(CLOSE_BRACKET, rest))));
      ItemsRoundTrip(items.tail, rest);
    }
  }

  /** Whatever follows it, the text is read back as the value. */
  ghost predicate ValueRoundTrips(text: Text, v: Json) {
    forall rest: Text | EndsNumber(rest) :: ParseValue(Concat(text, rest)) == Some((v, rest))
  }

  lemma {:induction false} MemberValuesRoundTrip(members: List<Member>)
    requires WellFormedMembers(members) && SerializeMembers(members).Some?
    ensures var texts, values := SerializeMembers(members).value, CanonicalValues(members);
            forall k | Contains(Keys(members), k) :: k in texts && k in values && ValueRoundTrips(texts[k], values[k])
    decreases members, 0
  {
    if members.Cons? {
      var m := members.head;
      MemberValuesRoundTrip(members.tail);
      forall rest: Text | EndsNumber(rest)
        ensures ParseValue(Concat(Serialize(m.value).value, rest)) == Some((Canonical(m.value), rest))
      {
        SerializeRoundTrip(m.value, rest);
      }
      assert ValueRoundTrips(Serialize(m.value).value, Canonical(m.value));
    }
  }

  lemma SortedKeysOf(members: List<Member>)
    ensures members.Cons? ==> SortKeys(Keys(members)).Cons?
    ensures forall k :: Contains(SortKeys(Keys(members)), k) <==> Contains(Keys(members), k)
  {
    forall k
      ensures Contains(SortKeys(Keys(members)), k) <==> Contains(Keys(members), k)
    {
      SortKeysContains(Keys(members), k);
    }
  }

  lemma MemberRoundTrip(k: Text, text: Text, v: Json, rest: Text)
    requires ValueRoundTrips(text, v) && EndsNumber(rest)
    ensures ParseMember(Concat(MemberText(k, text), rest)) == Some((Member(k, v), rest))
  {
    var afterKey := Cons(COLON, Concat(text, rest));
    ConcatAssociative(QuoteText(k), Cons(COLON, text), rest);
    QuoteRoundTrip(k, afterKey);
  }

  lemma {:induction false} MembersRoundTrip(keys: List<Text>, texts: map<Text, Text>, values: map<Text, Json>,
                                            rest: Text)
    requires keys.Cons?
    requires forall k | Contains(keys, k) :: k in texts && k in values && ValueRoundTrips(texts[k], values[k])
    ensures ParseMembers(Concat(JoinMembers(keys, texts), Cons(CLOSE_BRACE, rest))) ==
              Some((MembersAt(keys, values), rest))
  {
    var k := keys.head;
    var first := MemberText(k, texts[k]);
    if keys.tail.Nil? {
      MemberRoundTrip(k, texts[k], values[k], Cons(CLOSE_BRACE, rest));
    } else {
      var others := JoinMembers(keys.tail, texts);
      ConcatAssociative(first, Cons(COMMA, others), Cons(CLOSE_BRACE, rest));
      MemberRoundTrip(k, texts[k], values[k], Cons(COMMA, Concat(others, Cons(CLOSE_BRACE, rest))));
      MembersRoundTrip(keys.tail, texts, values, rest);
    }
  }

  // When two values print alike

  function Lookup(members: List<Member>, key: Text): Option<Json> {
    match members
    case Nil => None
    case Cons(m, rest) => if m.key == key then Some(m.value) else Lookup(rest, key)
  }

  /** The same value: object members in any order, and zero whatever its sign. */
  ghost predicate SameValue(a: Json, b: Json)
    decreases a
  {
    match a
    case Num(n) => b.Num? && CanonicalNumber(n) == CanonicalNumber(b.number)
    case Arr(items) => b.Arr? && SameItems(items, b.items)
    case Obj(members) =>
      && b.Obj?
      && (forall k :: Contains(Keys(members), k) <==> Contains(Keys(b.members), k))
      && SameMembers(members, b.members)
    case _ => a == b
  }

  ghost predicate SameItems(a: List<Json>, b: List<Json>)
    decreases a
  {
    if a.Nil? then b.Nil? else b.Cons? && SameValue(a.head, b.head) && SameItems(a.tail, b.tail)
  }

  /** Every member of the first list has a member of the second with its key and the same value. */
  ghost predicate SameMembers(a: List<Member>, b: List<Member>)
    decreases a
  {
    a.Cons? ==>
      && Lookup(b, a.head.key).Some?
      && SameValue(a.head.value, Lookup(b, a.head.key).value)
      && SameMembers(a.tail, b)
  }

  lemma LookupKeys(members: List<Member>, k: Text)
    ensures Lookup(members, k).Some? <==> Contains(Keys(members), k)
    ensures k in CanonicalValues(members) <==> Contains(Keys(members), k)
    ensures Lookup(members, k).Some? ==> CanonicalValues(members)[k] == Canonical(Lookup(members, k).value)
  {
  }

  lemma MembersAtInjective(keys: List<Text>, a: map<Text, Json>, otherKeys: List<Text>, b: map<Text, Json>)
    requires MembersAt(keys, a) == MembersAt(otherKeys, b)
    requires forall k | Contains(keys, k) :: k in a
    requires forall k | Contains(otherKeys, k) :: k in b
    ensures keys == otherKeys
    ensures forall k | Contains(keys, k) :: a[k] == b[k]
  {
    if keys.Cons? && otherKeys.Cons? {
      MembersAtInjective(keys.tail, a, otherKeys.tail, b);
    }
  }

  lemma MembersAtAgree(keys: List<Text>, a: map<Text, Json>, b: map<Text, Json>)
    requires forall k | Contains(keys, k) :: k in a && k in b && a[k] == b[k]
    ensures MembersAt(keys, a) == MembersAt(keys, b)
  {
    if keys.Cons? {
      assert Contains(keys, keys.head);
      MembersAtAgree(keys.tail, a, b);
    }
  }

  /** Canonical forms coincide exactly when the values are the same up to member order. */
  lemma {:induction false} CanonicalIff(a: Json, b: Json)
    requires WellFormed(a) && WellFormed(b)
    ensures Canonical(a) == Canonical(b) <==> SameValue(a, b)
    decreases a
  {
    match a
    case Arr(items) =>
      if b.Arr? {
        CanonicalItemsIff(items, b.items);
      }
    case Obj(members) =>
      if b.Obj? {
        CanonicalObjectIff(members, b.members);
      }
    case _ =>
  }

  lemma {:induction false} CanonicalItemsIff(a: List<Json>, b: List<Json>)
    requires WellFormedItems(a) && WellFormedItems(b)
    ensures CanonicalItems(a) == CanonicalItems(b) <==> SameItems(a, b)
    decreases a
  {
    if a.Cons? && b.Cons? {
      CanonicalIff(a.head, b.head);
      CanonicalItemsIff(a.tail, b.tail);
    }
  }

  lemma {:induction false} CanonicalObjectIff(a: List<Member>, b: List<Member>)
    requires WellFormed(Obj(a)) && WellFormed(Obj(b))
    ensures Canonical(Obj(a)) == Canonical(Obj(b)) <==> SameValue(Obj(a), Obj(b))
    decreases a, 1
  {
    forall k
      ensures Contains(SortKeys(Keys(a)), k) <==> Contains(Keys(a), k)
      ensures Contains(SortKeys(Keys(b)), k) <==> Contains(Keys(b), k)
      ensures k in CanonicalValues(a) <==> Contains(Keys(a), k)
      ensures k in CanonicalValues(b) <==> Contains(Keys(b), k)
    {
      SortKeysContains(Keys(a), k);
      SortKeysContains(Keys(b), k);
      LookupKeys(a, k);
      LookupKeys(b, k);
    }
    CanonicalMembersIff(a, b);
    if Canonical(Obj(a)) == Canonical(Obj(b)) {
      MembersAtInjective(SortKeys(Keys(a)), CanonicalValues(a), SortKeys(Keys(b)), CanonicalValues(b));
    }
    if SameValue(Obj(a), Obj(b)) {
      SortKeysSameKeys(Keys(a), Keys(b));
      assert SameMembers(a, b);
      forall k | Contains(SortKeys(Keys(a)), k)
        ensures k in CanonicalValues(a) && k in CanonicalValues(b) && CanonicalValues(a)[k] == CanonicalValues(b)[k]
      {
        assert Contains(Keys(a), k);
      }
      MembersAtAgree(SortKeys(Keys(a)), CanonicalValues(a), CanonicalValues(b));
    }
  }

  lemma {:induction false} CanonicalMembersIff(a: List<Member>, b: List<Member>)
    requires WellFormedMembers(a) && Distinct(Keys(a)) && WellFormedMembers(b)
    ensures (forall k | Contains(Keys(a), k) ::
               && k in CanonicalValues(a) && k in CanonicalValues(b)
               && CanonicalValues(a)[k] == CanonicalValues(b)[k])
       <==> SameMembers(a, b)
    decreases a, 0
  {
    if a.Cons? {
      var m := a.head;
      CanonicalMembersIff(a.tail, b);
      LookupKeys(b, m.key);
      if Lookup(b, m.key).Some? {
        LookupWellFormed(b, m.key);
        CanonicalIff(m.value, Lookup(b, m.key).value);
      }
      forall k | Contains(Keys(a.tail), k)
        ensures k != m.key && k in CanonicalValues(a.tail) && CanonicalValues(a)[k] == CanonicalValues(a.tail)[k]
      {
        LookupKeys(a.tail, k);
      }
    }
  }

  lemma LookupWellFormed(members: List<Member>, k: Text)
    requires WellFormedMembers(members) && Lookup(members, k).Some?
    ensures WellFormed(Lookup(members, k).value)
  {
  }

  /**
   Equal text exactly for the same value: the printer is injective and does not see member order.
  */
  lemma SerializeEqualIff(a: Json, b: Json)
    requires WellFormed(a) && WellFormed(b)
    requires Serialize(a).Some? && Serialize(b).Some?
    ensures Serialize(a) == Serialize(b) <==> SameValue(a, b)
  {
    ConcatNil(Serialize(a).value);
    ConcatNil(Serialize(b).value);
    SerializeRoundTrip(a, Nil);
    SerializeRoundTrip(b, Nil);
    CanonicalIff(a, b);
    if SameValue(a, b) {
      SameValueSerializesAlike(a, b);
    }
  }

  function TextAt(members: List<Member>, k: Text): Option<Text> {
    var v :- Lookup(members, k);
    Serialize(v)
  }

  /** Printing an object prints every member's value under its key, or fails if one of them does. */
  lemma {:induction false} SerializeMembersTexts(members: List<Member>)
    requires Distinct(Keys(members))
    ensures SerializeMembers(members).Some? <==> forall k | Contains(Keys(members), k) :: TextAt(members, k).Some?
    ensures SerializeMembers(members).Some? ==>
              var texts := SerializeMembers(members).value;
              && (forall k :: k in texts <==> Contains(Keys(members), k))
              && (forall k | k in texts :: TextAt(members, k) == Some(texts[k]))
  {
    if members.Cons? {
      var m, rest := members.head, members.tail;
      SerializeMembersTexts(rest);
      assert TextAt(members, m.key) == Serialize(m.value);
      forall k | Contains(Keys(rest), k)
        ensures k != m.key && TextAt(members, k) == TextAt(rest, k)
      {
      }
      if SerializeMembers(members).None? {
        if Serialize(m.value).None? {
          assert Contains(Keys(members), m.key) && TextAt(members, m.key).None?;
        } else {
          var k :| Contains(Keys(rest), k) && TextAt(rest, k).None?;
          assert Contains(Keys(members), k) && TextAt(members, k).None?;
        }
      }
    }
  }

  lemma {:induction false} SameValueSerializesAlike(a: Json, b: Json)
    requires WellFormed(a) && WellFormed(b) && SameValue(a, b)
    ensures Serialize(a) == Serialize(b)
    decreases a
  {
    match a
    case Num(n) =>
    case Arr(items) => SameItemsSerializeAlike(items, b.items);
    case Obj(members) =>
      SameMembersTexts(members, b.members);
      SerializeMembersTexts(members);
      SerializeMembersTexts(b.members);
      SortKeysSameKeys(Keys(members), Keys(b.members));
      if SerializeMembers(members).Some? && SerializeMembers(b.members).Some? {
        var x, y := SerializeMembers(members).value, SerializeMembers(b.members).value;
        assert x == y by {
          assert forall k | k in x :: TextAt(members, k) == TextAt(b.members, k);
          assert forall k :: k in x <==> k in y;
        }
      }
    case _ =>
  }

  lemma {:induction false} SameItemsSerializeAlike(a: List<Json>, b: List<Json>)
    requires WellFormedItems(a) && WellFormedItems(b) && SameItems(a, b)
    ensures SerializeItems(a) == SerializeItems(b)
    decreases a
  {
    if a.Cons? {
      SameValueSerializesAlike(a.head, b.head);
      SameItemsSerializeAlike(a.tail, b.tail);
    }
  }

  lemma {:induction false} SameMembersTexts(a: List<Member>, b: List<Member>)
    requires WellFormedMembers(a) && Distinct(Keys(a)) && WellFormedMembers(b) && SameMembers(a, b)
    ensures forall k | Contains(Keys(a), k) :: TextAt(a, k) == TextAt(b, k)
    decreases a
  {
    if a.Cons? {
      LookupWellFormed(b, a.head.key);
      SameValueSerializesAlike(a.head.value, Lookup(b, a.head.key).value);
      SameMembersTexts(a.tail, b);
    }
  }

  // Preparing values for storage

  /** `canonicalizeJson`: members are put in the order of `before`, the source's locale comparison. */
  function CanonicalizeJson(before: (Text, Text) -> bool, v: Json): Option<Json> {
    match v
    case Num(n) => if n.NotFinite? then None else Some(v)
    case Arr(items) =>
      var canonical :- CanonicalizeItems(before, items);
      Some(Arr(canonical))
    case Obj(members) =>
      var canonical :- CanonicalizeMembers(before, members);
      Some(Obj(canonical))
    case Unsupported => None
    case _ => Some(v)
  }

  function CanonicalizeItems(before: (Text, Text) -> bool, items: List<Json>): Option<List<Json>> {
    match items
    case Nil => Some(Nil)
    case Cons(v, rest) =>
      var first :- CanonicalizeJson(before, v);
      var others :- CanonicalizeItems(before, rest);
      Some(Cons(first, others))
  }

  function CanonicalizeMembers(before: (Text, Text) -> bool, members: List<Member>): Option<List<Member>> {
    match members
    case Nil => Some(Nil)
    case Cons(m, rest) =>
      var v :- CanonicalizeJson(before, m.value);
      var others :- CanonicalizeMembers(before, rest);
      Some(InsertMember(before, Member(m.key, v), others))
  }

  function InsertMember(before: (Text, Text) -> bool, m: Member, members: List<Member>): List<Member> {
    if members.Nil? || !before(members.head.key, m.key) then Cons(m, members)
    else Cons(members.head, InsertMember(before, m, members.tail))
  }

  lemma {:induction false} InsertMemberKeeps(before: (Text, Text) -> bool, m: Member, members: List<Member>,
                                             original: List<Member>)
    requires WellFormedMembers(Cons(m, members)) && Distinct(Keys(Cons(m, members)))
             && SameMembers(Cons(m, members), original)
    ensures var r := InsertMember(before, m, members);
            WellFormedMembers(r) && Distinct(Keys(r)) && SameMembers(r, original)
    ensures forall k :: Contains(Keys(InsertMember(before, m, members)), k) <==> Contains(Keys(Cons(m, members)), k)
  {
    if members.Cons? && before(members.head.key, m.key) {
      var shorter := Cons(m, members.tail);
      assert Keys(shorter) == Cons(m.key, Keys(members.tail));
      assert Contains(Keys(members), members.head.key);
      InsertMemberKeeps(before, m, members.tail, original);
      assert !Contains(Keys(shorter), members.head.key);
    }
  }

  lemma SameMembersExtend(a: List<Member>, m: Member, b: List<Member>)
    requires !Contains(Keys(a), m.key)
    ensures SameMembers(a, b) <==> SameMembers(a, Cons(m, b))
  {
  }

  /** Canonicalizing succeeds exactly when printing does, and gives the same value. */
  lemma {:induction false} CanonicalizeSameValue(before: (Text, Text) -> bool, v: Json)
    requires WellFormed(v)
    ensures CanonicalizeJson(before, v).Some? <==> Serialize(v).Some?
    ensures CanonicalizeJson(before, v).Some? ==>
              WellFormed(CanonicalizeJson(before, v).value) && SameValue(CanonicalizeJson(before, v).value, v)
    decreases v
  {
    match v
    case Arr(items) => CanonicalizeItemsSame(before, items);
    case Obj(members) => CanonicalizeMembersSame(before, members);
    case _ =>
  }

  lemma {:induction false} CanonicalizeItemsSame(before: (Text, Text) -> bool, items: List<Json>)
    requires WellFormedItems(items)
    ensures CanonicalizeItems(before, items).Some? <==> SerializeItems(items).Some?
    ensures CanonicalizeItems(before, items).Some? ==>
              WellFormedItems(CanonicalizeItems(before, items).value)
                && SameItems(CanonicalizeItems(before, items).value, items)
    decreases items
  {
    if items.Cons? {
      CanonicalizeSameValue(before, items.head);
      CanonicalizeItemsSame(before, items.tail);
    }
  }

  lemma {:induction false} CanonicalizeMembersSame(before: (Text, Text) -> bool, members: List<Member>)
    requires WellFormedMembers(members) && Distinct(Keys(members))
    ensures var r := CanonicalizeMembers(before, members);
            && (r.Some? <==> SerializeMembers(members).Some?)
            && (r.Some? ==>
                  && WellFormedMembers(r.value) && Distinct(Keys(r.value)) && SameMembers(r.value, members)
                  && (forall k :: Contains(Keys(r.value), k) <==> Contains(Keys(members), k)))
    decreases members
  {
    if members.Cons? {
      var m := members.head;
      CanonicalizeSameValue(before, m.value);
      CanonicalizeMembersSame(before, members.tail);
      var others := CanonicalizeMembers(before, members.tail);
      if CanonicalizeJson(before, m.value).Some? && others.Some? {
        var canonical := Member(m.key, CanonicalizeJson(before, m.value).value);
        SameMembersExtend(others.value, m, members.tail);
        InsertMemberKeeps(before, canonical, others.value, members);
      }
    }
  }

  /** Canonicalizing first never changes what is printed, nor whether printing fails. */
  lemma CanonicalizeThenSerialize(before: (Text, Text) -> bool, v: Json)
    requires WellFormed(v)
    ensures var canonical := CanonicalizeJson(before, v);
            && (canonical.Some? ==> WellFormed(canonical.value) && Serialize(canonical.value) == Serialize(v))
            && (canonical.None? ==> Serialize(v).None?)
  {
    CanonicalizeSameValue(before, v);
    if CanonicalizeJson(before, v).Some? {
      SameValueSerializesAlike(CanonicalizeJson(before, v).value, v);
    }
  }
}
