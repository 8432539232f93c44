/** Order projections and their fingerprints. */
module OrderPayload {
  import opened Common
  import opened Lists
  import opened Utf16
  import opened CanonicalJson
  import opened Wrappers

  /** Times are milliseconds. */
  datatype Order = Order(
    wcOrderId: Text,
    orderNumber: Text,
    status: Text,
    currency: Text,
    totals: Json,
    customer: Json,
    lineItems: Json,
    payment: Json,
    shippingLines: Json,
    createdAt: int,
    modifiedAt: int,
    deletedAt: Option<int>
  )

  predicate StorableJson(v: Json) {
    WellFormed(v) && Serialize(v).Some?
  }

  predicate Storable(o: Order) {
    && StorableJson(o.totals) && StorableJson(o.customer) && StorableJson(o.lineItems)
    && StorableJson(o.payment) && StorableJson(o.shippingLines)
  }

  /** A date prints as text that determines it; the millisecond count stands in for the ISO form. */
  function DateJson(t: int): Json {
    Str(IntText(t))
  }

  const FIELD_COUNT: nat := 12

  function FieldName(i: nat): string {
    if i == 0 then "wcOrderId" else if i == 1 then "orderNumber" else if i == 2 then "status"
    else if i == 3 then "currency" else if i == 4 then "wcCreatedAt" else if i == 5 then "wcModifiedAt"
    else if i == 6 then "remoteDeletedAt" else if i == 7 then "totals" else if i == 8 then "customerSnapshot"
    else if i == 9 then "lineItemsSnapshot" else if i == 10 then "paymentSnapshot" else "shippingLinesSnapshot"
  }

  function FieldValue(o: Order, i: nat): Json {
    if i == 0 then Str(o.wcOrderId) else if i == 1 then Str(o.orderNumber) else if i == 2 then Str(o.status)
    else if i == 3 then Str(o.currency) else if i == 4 then DateJson(o.createdAt)
    else if i == 5 then DateJson(o.modifiedAt)
    else if i == 6 then if o.deletedAt.None? then Null else DateJson(o.deletedAt.value)
    else if i == 7 then o.totals else if i == 8 then o.customer else if i == 9 then o.lineItems
    else if i == 10 then o.payment else o.shippingLines
  }

  function Field(o: Order, i: nat): Member {
    Member(Ascii(FieldName(i)), FieldValue(o, i))
  }

  function OrderFields(o: Order): seq<Member> {
    seq(FIELD_COUNT, i requires 0 <= i < FIELD_COUNT => Field(o, i))
  }

  /** The members from the `i`th on. */
  function Record(f: seq<Member>, i: nat): List<Member>
    decreases |f| - i
  {
    if i >= |f| then Nil else Cons(f[i], Record(f, i + 1))
  }

  /** `orderProjectionFingerprint`. */
  function Fingerprint(o: Order): Digest<Text>
    requires Storable(o)
  {
    DocumentStorable(o);
    Hash(Serialize(Document(o)).value)
  }

  /** The record the fingerprint is taken of. */
  function Document(o: Order): Json {
    Obj(Record(OrderFields(o), 0))
  }

  /** The names differ in length or in their first letter. */
  predicate Apart(a: string, b: string) {
    |a| != |b| || (a != [] && a[0] as int % 0x1_0000 != b[0] as int % 0x1_0000)
  }

  lemma FieldNamesApart(i: nat, j: nat)
    requires i < j < FIELD_COUNT
    ensures Apart(FieldName(i), FieldName(j))
  {
    assert |FieldName(0)| == 9 && |FieldName(1)| == 11 && |FieldName(2)| == 6 && |FieldName(3)| == 8;
    assert |FieldName(4)| == 11 && |FieldName(5)| == 12 && |FieldName(6)| == 15 && |FieldName(7)| == 6;
    assert |FieldName(8)| == 16 && |FieldName(9)| == 17 && |FieldName(10)| == 15 && |FieldName(11)| == 21;
    assert Apart(FieldName(1), FieldName(4)) && Apart(FieldName(2), FieldName(7))
           && Apart(FieldName(6), FieldName(10)) by {
      assert FieldName(1)[0] == 'o' && FieldName(4)[0] == 'w' && FieldName(2)[0] == 's';
      assert FieldName(7)[0] == 't' && FieldName(6)[0] == 'r' && FieldName(10)[0] == 'p';
    }
  }

  lemma FieldKeysDiffer(o: Order, i: nat, j: nat)
    requires i < j < FIELD_COUNT
    ensures Field(o, i).key != Field(o, j).key
  {
    FieldNamesApart(i, j);
    AsciiDiffers(FieldName(i), FieldName(j), 0, 0);
  }

  lemma FieldValueStorable(o: Order, i: nat)
    requires Storable(o)
    ensures StorableJson(Field(o, i).value)
  {
  }

  ghost predicate DistinctFields(f: seq<Member>) {
    forall i: nat, j: nat | i < j < |f| :: f[i].key != f[j].key
  }

  ghost predicate StorableFields(f: seq<Member>) {
    forall i: nat | i < |f| :: StorableJson(f[i].value)
  }

  lemma {:induction false} LaterKeysDiffer(f: seq<Member>, i: nat, j: nat)
    requires i < j && i < |f| && DistinctFields(f)
    ensures !Contains(Keys(Record(f, j)), f[i].key)
    decreases |f| - j
  {
    if j < |f| {
      LaterKeysDiffer(f, i, j + 1);
    }
  }

  lemma {:induction false} RecordStorable(f: seq<Member>, i: nat)
    requires DistinctFields(f) && StorableFields(f)
    ensures var fields := Record(f, i);
            Distinct(Keys(fields)) && WellFormedMembers(fields) && SerializeMembers(fields).Some?
    decreases |f| - i
  {
    if i < |f| {
      RecordStorable(f, i + 1);
      LaterKeysDiffer(f, i, i + 1);
    }
  }

  lemma FieldsStorable(o: Order)
    requires Storable(o)
    ensures DistinctFields(OrderFields(o)) && StorableFields(OrderFields(o))
  {
    forall i: nat, j: nat | i < j < FIELD_COUNT
      ensures Field(o, i).key != Field(o, j).key
    {
      FieldKeysDiffer(o, i, j);
    }
    forall i: nat | i < FIELD_COUNT
      ensures StorableJson(Field(o, i).value)
    {
      FieldValueStorable(o, i);
    }
  }

  lemma RecordObjectStorable(f: seq<Member>)
    requires DistinctFields(f) && StorableFields(f)
    ensures StorableJson(Obj(Record(f, 0)))
  {
    RecordStorable(f, 0);
  }

  lemma DocumentStorable(o: Order)
    requires Storable(o)
    ensures StorableJson(Document(o))
  {
    FieldsStorable(o);
    RecordObjectStorable(OrderFields(o));
  }

  /** The same order: equal identity and dates, the same snapshots up to member order. */
  ghost predicate SameOrder(a: Order, b: Order) {
    && a.wcOrderId == b.wcOrderId && a.orderNumber == b.orderNumber && a.status == b.status && a.currency == b.currency
    && a.createdAt == b.createdAt && a.modifiedAt == b.modifiedAt && a.deletedAt == b.deletedAt
    && SameValue(a.totals, b.totals) && SameValue(a.customer, b.customer) && SameValue(a.lineItems, b.lineItems)
    && SameValue(a.payment, b.payment) && SameValue(a.shippingLines, b.shippingLines)
  }

  lemma DateJsonIff(a: int, b: int)
    ensures SameValue(DateJson(a), DateJson(b)) <==> a == b
  {
    if IntText(a) == IntText(b) {
      IntTextInjective(a, b);
    }
  }

  ghost predicate SameKeys(a: seq<Member>, b: seq<Member>) {
    |a| == |b| && forall i: nat | i < |a| :: a[i].key == b[i].key
  }

  ghost predicate SameFields(a: seq<Member>, b: seq<Member>, i: nat)
    requires |a| == |b|
  {
    forall k: nat | i <= k < |a| :: SameValue(a[k].value, b[k].value)
  }

  lemma {:induction false} RecordSameIff(a: seq<Member>, b: seq<Member>, i: nat)
    requires DistinctFields(a) && SameKeys(a, b)
    ensures SameMembers(Record(a, i), Record(b, i)) <==> SameFields(a, b, i)
    ensures Keys(Record(a, i)) == Keys(Record(b, i))
    decreases |a| - i
  {
    if i < |a| {
      RecordSameIff(a, b, i + 1);
      LaterKeysDiffer(a, i, i + 1);
      SameMembersExtend(Record(a, i + 1), b[i], Record(b, i + 1));
      assert SameFields(a, b, i) <==> SameValue(a[i].value, b[i].value) && SameFields(a, b, i + 1);
    }
  }

  lemma RecordObjectsIff(a: seq<Member>, b: seq<Member>)
    requires DistinctFields(a) && StorableFields(a) && DistinctFields(b) && StorableFields(b) && SameKeys(a, b)
    ensures Serialize(Obj(Record(a, 0))) == Serialize(Obj(Record(b, 0))) <==> SameFields(a, b, 0)
  {
    RecordObjectStorable(a);
    RecordObjectStorable(b);
    SerializeEqualIff(Obj(Record(a, 0)), Obj(Record(b, 0)));
    RecordSameIff(a, b, 0);
  }

  ghost predicate SameFieldValues(a: Order, b: Order) {
    forall k: nat | k < FIELD_COUNT :: SameValue(FieldValue(a, k), FieldValue(b, k))
  }

  lemma SameFieldsIff(a: Order, b: Order)
    ensures SameFieldValues(a, b) <==> SameOrder(a, b)
  {
    DateJsonIff(a.createdAt, b.createdAt);
    DateJsonIff(a.modifiedAt, b.modifiedAt);
    if a.deletedAt.Some? && b.deletedAt.Some? {
      DateJsonIff(a.deletedAt.value, b.deletedAt.value);
    }
    if SameFieldValues(a, b) {
      assert SameValue(FieldValue(a, 0), FieldValue(b, 0)) && SameValue(FieldValue(a, 1), FieldValue(b, 1));
      assert SameValue(FieldValue(a, 2), FieldValue(b, 2)) && SameValue(FieldValue(a, 3), FieldValue(b, 3));
      assert SameValue(FieldValue(a, 4), FieldValue(b, 4)) && SameValue(FieldValue(a, 5), FieldValue(b, 5));
      assert SameValue(FieldValue(a, 6), FieldValue(b, 6)) && SameValue(FieldValue(a, 7), FieldValue(b, 7));
      assert SameValue(FieldValue(a, 8), FieldValue(b, 8)) && SameValue(FieldValue(a, 9), FieldValue(b, 9));
      assert SameValue(FieldValue(a, 10), FieldValue(b, 10)) && SameValue(FieldValue(a, 11), FieldValue(b, 11));
    }
  }

  lemma DocumentsIff(a: Order, b: Order)
    requires Storable(a) && Storable(b)
    ensures Serialize(Document(a)) == Serialize(Document(b)) <==> SameFieldValues(a, b)
  {
    FieldsStorable(a);
    FieldsStorable(b);
    RecordObjectsIff(OrderFields(a), OrderFields(b));
    var x, y := OrderFields(a), OrderFields(b);
    assert forall k: nat | k < FIELD_COUNT :: x[k].value == FieldValue(a, k) && y[k].value == FieldValue(b, k);
    assert SameFields(x, y, 0) <==> SameFieldValues(a, b);
  }

  /** Fingerprints agree exactly on the same order. */
  lemma FingerprintIff(a: Order, b: Order)
    requires Storable(a) && Storable(b)
    ensures Fingerprint(a) == Fingerprint(b) <==> SameOrder(a, b)
  {
    DocumentStorable(a);
    DocumentStorable(b);
    DocumentsIff(a, b);
    SameFieldsIff(a, b);
    var x, y := Serialize(Document(a)), Serialize(Document(b));
    assert x.Some? && y.Some?;
    assert Fingerprint(a) == Hash(x.value) && Fingerprint(b) == Hash(y.value);
  }
}
