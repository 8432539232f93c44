/** The fields of an order that are kept, and scrubbing older rows down to them. */
module OrderMinimisation {
  import opened Lists
  import opened Utf16
  import opened CanonicalJson
  import opened OrderPayload
  import opened Wrappers

  const BILLING_FIELDS: seq<string> := ["first_name", "last_name", "company"]
  const SHIPPING_FIELDS: seq<string> := ["company", "address_1", "address_2", "city", "state", "postcode", "country"]
  const LINE_FIELDS: seq<string> := ["name", "quantity", "total"]

  /** `jsonRecord`: anything but an object counts as an empty one. */
  function RecordOf(v: Option<Json>): List<Member> {
    if v.Some? && v.value.Obj? then v.value.members else Nil
  }

  predicate Displayable(v: Json) {
    v.Str? || (v.Num? && !v.number.NotFinite?)
  }

  function PickField(record: List<Member>, field: string): Option<Json> {
    var v :- Lookup(record, Ascii(field));
    if Displayable(v) then Some(v) else None
  }

  /** `pick`: the listed fields that hold text or a finite number, in list order. */
  function Pick(record: List<Member>, fields: seq<string>): List<Member>
    decreases |fields|, record
  {
    if fields == [] then Nil
    else
      var others := Pick(record, fields[1..]);
      match PickField(record, fields[0])
      case None => others
      case Some(v) => Cons(Member(Ascii(fields[0]), v), others)
  }

  /** One part of the customer snapshot. */
  function MinimalPart(customer: Json, part: Text, fields: seq<string>): Json {
    Obj(Pick(RecordOf(Lookup(RecordOf(Some(customer)), part)), fields))
  }

  function TwoParts(customer: Json, first: Text, firstFields: seq<string>, second: Text,
                    secondFields: seq<string>): Json
  {
    Obj(Cons(Member(first, MinimalPart(customer, first, firstFields)),
        Cons(Member(second, MinimalPart(customer, second, secondFields)), Nil)))
  }

  function MinimalCustomer(customer: Json): Json {
    TwoParts(customer, Ascii("billing"), BILLING_FIELDS, Ascii("shipping"), SHIPPING_FIELDS)
  }

  function MinimalLines(lines: List<Json>, fields: seq<string>): List<Json>
    decreases lines
  {
    match lines
    case Nil => Nil
    case Cons(line, rest) => Cons(Obj(Pick(RecordOf(Some(line)), fields)), MinimalLines(rest, fields))
  }

  function MinimalLineItems(lineItems: Json): Json {
    Arr(if lineItems.Arr? then MinimalLines(lineItems.items, LINE_FIELDS) else Nil)
  }

  predicate AsciiDistinct(names: seq<string>) {
    forall i, j | 0 <= i < j < |names| :: Ascii(names[i]) != Ascii(names[j])
  }

  lemma ShippingFieldsDistinct()
    ensures AsciiDistinct(SHIPPING_FIELDS)
  {
    var n := SHIPPING_FIELDS;
    assert |n[0]| == 7 && |n[1]| == 9 && |n[2]| == 9 && |n[3]| == 4 && |n[4]| == 5 && |n[5]| == 8 && |n[6]| == 7;
    forall i, j | 0 <= i < j < |n|
      ensures Ascii(n[i]) != Ascii(n[j])
    {
      if |n[i]| != |n[j]| {
        AsciiDiffers(n[i], n[j], 0, 0);
      } else if i == 0 {
        AsciiDiffers(n[0], n[6], 0, 2);
      } else {
        AsciiDiffers(n[1], n[2], 0, 8);
      }
    }
  }

  lemma BillingFieldsDistinct()
    ensures AsciiDistinct(BILLING_FIELDS)
  {
    var n := BILLING_FIELDS;
    assert |n[0]| == 10 && |n[1]| == 9 && |n[2]| == 7;
    LengthsDiffer(n);
  }

  lemma LineFieldsDistinct()
    ensures AsciiDistinct(LINE_FIELDS)
  {
    var n := LINE_FIELDS;
    assert |n[0]| == 4 && |n[1]| == 8 && |n[2]| == 5;
    LengthsDiffer(n);
  }

  lemma LengthsDiffer(names: seq<string>)
    requires forall i, j | 0 <= i < j < |names| :: |names[i]| != |names[j]|
    ensures AsciiDistinct(names)
  {
    forall i, j | 0 <= i < j < |names|
      ensures Ascii(names[i]) != Ascii(names[j])
    {
      AsciiDiffers(names[i], names[j], 0, 0);
    }
  }

  lemma ShortListsDistinct()
    ensures AsciiDistinct(BILLING_FIELDS) && AsciiDistinct(LINE_FIELDS)
  {
    BillingFieldsDistinct();
    LineFieldsDistinct();
  }

  // What a scrub stores can be stored

  lemma {:induction false} PickStorable(record: List<Member>, fields: seq<string>)
    requires WellFormedMembers(record) && AsciiDistinct(fields)
    ensures var r := Pick(record, fields);
            WellFormedMembers(r) && SerializeMembers(r).Some? && Distinct(Keys(r))
    ensures forall k | Contains(Keys(Pick(record, fields)), k) :: exists i :: 0 <= i < |fields| && k == Ascii(fields[i])
  {
    if fields != [] {
      PickStorable(record, fields[1..]);
      forall k | Contains(Keys(Pick(record, fields[1..])), k)
        ensures k != Ascii(fields[0]) && exists i :: 0 <= i < |fields| && k == Ascii(fields[i])
      {
        var i :| 0 <= i < |fields| - 1 && k == Ascii(fields[1..][i]);
        assert fields[1..][i] == fields[i + 1];
      }
      if PickField(record, fields[0]).Some? {
        LookupWellFormed(record, Ascii(fields[0]));
      }
      assert forall k | Contains(Keys(Pick(record, fields)), k) ::
               k == Ascii(fields[0]) || Contains(Keys(Pick(record, fields[1..])), k);
    }
  }

  lemma PartStorable(customer: Json, part: Text, fields: seq<string>)
    requires WellFormed(customer) && AsciiDistinct(fields)
    ensures StorableJson(MinimalPart(customer, part, fields))
  {
    var record := RecordOf(Some(customer));
    if Lookup(record, part).Some? {
      LookupWellFormed(record, part);
    }
    PickStorable(RecordOf(Lookup(record, part)), fields);
  }

  lemma TwoMembersStorable(first: Member, second: Member)
    requires first.key != second.key && StorableJson(first.value) && StorableJson(second.value)
    ensures StorableJson(Obj(Cons(first, Cons(second, Nil))))
  {
    var last: List<Member> := Cons(second, Nil);
    assert Keys(last) == Cons(second.key, Keys(Nil));
    assert !Contains(Keys(last), first.key) && Distinct(Keys(last));
    assert WellFormedMembers(last.tail) && SerializeMembers(last.tail).Some?;
    assert WellFormedMembers(last) && SerializeMembers(last).Some?;
  }

  lemma MinimalCustomerStorable(customer: Json)
    requires WellFormed(customer)
    ensures StorableJson(MinimalCustomer(customer))
  {
    ShippingFieldsDistinct();
    ShortListsDistinct();
    PartStorable(customer, Ascii("billing"), BILLING_FIELDS);
    PartStorable(customer, Ascii("shipping"), SHIPPING_FIELDS);
    AsciiDiffers("billing", "shipping", 0, 0);
    var members := MinimalCustomer(customer).members;
    TwoMembersStorable(members.head, members.tail.head);
  }

  lemma {:induction false} MinimalLinesStorable(lines: List<Json>, fields: seq<string>)
    requires WellFormedItems(lines) && AsciiDistinct(fields)
    ensures WellFormedItems(MinimalLines(lines, fields)) && SerializeItems(MinimalLines(lines, fields)).Some?
    decreases lines
  {
    if lines.Cons? {
      PickStorable(RecordOf(Some(lines.head)), fields);
      MinimalLinesStorable(lines.tail, fields);
    }
  }

  lemma MinimalLineItemsStorable(lineItems: Json)
    requires WellFormed(lineItems)
    ensures StorableJson(MinimalLineItems(lineItems))
  {
    ShortListsDistinct();
    MinimalLinesStorable(if lineItems.Arr? then lineItems.items else Nil, LINE_FIELDS);
  }

  lemma MinimalStorable(o: Order)
    requires Storable(o)
    ensures StorableJson(MinimalCustomer(o.customer)) && StorableJson(MinimalLineItems(o.lineItems))
  {
    assert WellFormed(o.customer) && WellFormed(o.lineItems);
    assert StorableJson(MinimalCustomer(o.customer)) by {
      MinimalCustomerStorable(o.customer);
    }
    MinimalLineItemsStorable(o.lineItems);
  }

  // Minimal values, whatever the order of their members

  predicate ListedField(k: Text, fields: seq<string>) {
    exists i :: 0 <= i < |fields| && Ascii(fields[i]) == k
  }

  /** All members are listed fields with displayable values. */
  predicate OnlyFields(members: List<Member>, fields: seq<string>)
    decreases members
  {
    members.Cons? ==>
      && ListedField(members.head.key, fields) && Displayable(members.head.value)
      && OnlyFields(members.tail, fields)
  }

  predicate MinimalObject(v: Json, fields: seq<string>) {
    v.Obj? && OnlyFields(v.members, fields)
  }

  /** Exactly the two parts, each a minimal object. */
  ghost predicate MinimalParts(v: Json, first: Text, firstFields: seq<string>, second: Text,
                               secondFields: seq<string>)
  {
    && v.Obj?
    && (forall k :: Contains(Keys(v.members), k) <==> k == first || k == second)
    && (Lookup(v.members, first).Some? && MinimalObject(Lookup(v.members, first).value, firstFields))
    && (Lookup(v.members, second).Some? && MinimalObject(Lookup(v.members, second).value, secondFields))
  }

  predicate MinimalItems(items: List<Json>, fields: seq<string>)
    decreases items
  {
    items.Cons? ==> MinimalObject(items.head, fields) && MinimalItems(items.tail, fields)
  }

  /** What the mapper stores and what a scrub leaves, up to the order of members. */
  ghost predicate IsMinimalCustomer(v: Json) {
    MinimalParts(v, Ascii("billing"), BILLING_FIELDS, Ascii("shipping"), SHIPPING_FIELDS)
  }

  predicate IsMinimalLineItems(v: Json) {
    v.Arr? && MinimalItems(v.items, LINE_FIELDS)
  }

  lemma {:induction false} OnlyFieldsAt(members: List<Member>, fields: seq<string>, k: Text)
    requires OnlyFields(members, fields) && Lookup(members, k).Some?
    ensures ListedField(k, fields) && Displayable(Lookup(members, k).value)
  {
    if members.head.key != k {
      OnlyFieldsAt(members.tail, fields, k);
    }
  }

  lemma ListedLater(k: Text, fields: seq<string>)
    requires fields != []
    ensures ListedField(k, fields) <==> k == Ascii(fields[0]) || ListedField(k, fields[1..])
  {
    if ListedField(k, fields) && k != Ascii(fields[0]) {
      var i :| 0 <= i < |fields| && Ascii(fields[i]) == k;
      assert fields[1..][i - 1] == fields[i];
    }
    if ListedField(k, fields[1..]) {
      var i :| 0 <= i < |fields| - 1 && Ascii(fields[1..][i]) == k;
      assert fields[i + 1] == fields[1..][i];
    }
  }

  /** A pick holds the listed fields that are displayable, and nothing else. */
  lemma {:induction false} PickHolds(record: List<Member>, fields: seq<string>, k: Text)
    requires AsciiDistinct(fields)
    ensures Lookup(Pick(record, fields), k)
         == if ListedField(k, fields) && Lookup(record, k).Some? && Displayable(Lookup(record, k).value) then
              Lookup(record, k)
            else None
    decreases |fields|
  {
    if fields != [] {
      PickHolds(record, fields[1..], k);
      ListedLater(k, fields);
    }
  }

  lemma {:induction false} PickOnlyFields(record: List<Member>, fields: seq<string>, all: seq<string>)
    requires forall i | 0 <= i < |fields| :: ListedField(Ascii(fields[i]), all)
    ensures OnlyFields(Pick(record, fields), all)
    decreases |fields|
  {
    if fields != [] {
      forall i | 0 <= i < |fields| - 1
        ensures ListedField(Ascii(fields[1..][i]), all)
      {
        assert fields[1..][i] == fields[i + 1];
      }
      PickOnlyFields(record, fields[1..], all);
    }
  }

  ghost predicate SameAt(a: List<Member>, b: List<Member>, k: Text) {
    Lookup(a, k).Some? && Lookup(b, k).Some? && SameValue(Lookup(a, k).value, Lookup(b, k).value)
  }

  lemma {:induction false} SameMembersAt(a: List<Member>, b: List<Member>)
    requires Distinct(Keys(a))
    requires forall k | Contains(Keys(a), k) :: SameAt(a, b, k)
    ensures SameMembers(a, b)
    decreases a
  {
    if a.Cons? {
      forall k | Contains(Keys(a.tail), k)
        ensures SameAt(a.tail, b, k)
      {
        assert SameAt(a, b, k) && Lookup(a, k) == Lookup(a.tail, k);
      }
      assert SameAt(a, b, a.head.key) && Lookup(a, a.head.key) == Some(a.head.value);
      SameMembersAt(a.tail, b);
    }
  }

  /** Picking the fields of a minimal object keeps its value. */
  lemma PickKeepsMinimal(members: List<Member>, fields: seq<string>)
    requires AsciiDistinct(fields) && OnlyFields(members, fields) && WellFormed(Obj(members))
    ensures SameValue(Obj(Pick(members, fields)), Obj(members))
  {
    var picked := Pick(members, fields);
    PickStorable(members, fields);
    forall k
      ensures Lookup(picked, k) == Lookup(members, k)
    {
      PickHolds(members, fields, k);
      if Lookup(members, k).Some? {
        OnlyFieldsAt(members, fields, k);
      }
    }
    forall k
      ensures Contains(Keys(picked), k) <==> Contains(Keys(members), k)
    {
      LookupKeys(picked, k);
      LookupKeys(members, k);
    }
    forall k | Contains(Keys(picked), k)
      ensures SameAt(picked, members, k)
    {
      LookupKeys(members, k);
      OnlyFieldsAt(members, fields, k);
    }
    SameMembersAt(picked, members);
  }

  lemma {:induction false} SameMembersLookup(a: List<Member>, b: List<Member>, k: Text)
    requires SameMembers(a, b) && Lookup(a, k).Some?
    ensures Lookup(b, k).Some? && SameValue(Lookup(a, k).value, Lookup(b, k).value)
  {
    if a.head.key != k {
      SameMembersLookup(a.tail, b, k);
    }
  }

  lemma {:induction false} OnlyFieldsSame(a: List<Member>, b: List<Member>, fields: seq<string>)
    requires SameMembers(a, b) && OnlyFields(b, fields)
    ensures OnlyFields(a, fields)
    decreases a
  {
    if a.Cons? {
      OnlyFieldsAt(b, fields, a.head.key);
      OnlyFieldsSame(a.tail, b, fields);
    }
  }

  lemma {:induction false} MinimalItemsSame(a: List<Json>, b: List<Json>, fields: seq<string>)
    requires SameItems(a, b) && MinimalItems(b, fields)
    ensures MinimalItems(a, fields)
    decreases a
  {
    if a.Cons? {
      OnlyFieldsSame(a.head.members, b.head.members, fields);
      MinimalItemsSame(a.tail, b.tail, fields);
    }
  }

  lemma MinimalPartsSame(a: Json, b: Json, first: Text, firstFields: seq<string>, second: Text,
                         secondFields: seq<string>)
    requires SameValue(a, b) && MinimalParts(b, first, firstFields, second, secondFields)
    ensures MinimalParts(a, first, firstFields, second, secondFields)
  {
    assert Contains(Keys(a.members), first) && Contains(Keys(a.members), second);
    LookupKeys(a.members, first);
    LookupKeys(a.members, second);
    SameMembersLookup(a.members, b.members, first);
    SameMembersLookup(a.members, b.members, second);
    OnlyFieldsSame(Lookup(a.members, first).value.members, Lookup(b.members, first).value.members, firstFields);
    OnlyFieldsSame(Lookup(a.members, second).value.members, Lookup(b.members, second).value.members, secondFields);
  }

  lemma PickIsMinimal(record: List<Member>, fields: seq<string>)
    ensures MinimalObject(Obj(Pick(record, fields)), fields)
  {
    PickOnlyFields(record, fields, fields);
  }

  lemma TwoMembersHold(a: Member, b: Member, k: Text)
    requires a.key != b.key
    ensures var members := Cons(a, Cons(b, Nil));
            && (Contains(Keys(members), k) <==> k == a.key || k == b.key)
            && Lookup(members, k) == (if k == a.key then Some(a.value) else if k == b.key then Some(b.value) else None)
  {
    var last: List<Member> := Cons(b, Nil);
    var none: List<Text> := Nil;
    assert Lookup(last, k) == if k == b.key then Some(b.value) else None;
    assert Contains(Cons(b.key, none), k) <==> k == b.key;
    assert Keys(last) == Cons(b.key, none) && Keys(Cons(a, last)) == Cons(a.key, Keys(last));
  }

  lemma TwoPartsMinimal(customer: Json, first: Text, firstFields: seq<string>, second: Text, secondFields: seq<string>)
    requires first != second
    ensures MinimalParts(TwoParts(customer, first, firstFields, second, secondFields), first, firstFields, second,
                         secondFields)
  {
    var a := Member(first, MinimalPart(customer, first, firstFields));
    var b := Member(second, MinimalPart(customer, second, secondFields));
    forall k
      ensures Contains(Keys(Cons(a, Cons(b, Nil))), k) <==> k == first || k == second
    {
      TwoMembersHold(a, b, k);
    }
    TwoMembersHold(a, b, first);
    TwoMembersHold(a, b, second);
    PickIsMinimal(RecordOf(Lookup(RecordOf(Some(customer)), first)), firstFields);
    PickIsMinimal(RecordOf(Lookup(RecordOf(Some(customer)), second)), secondFields);
  }

  lemma {:induction false} MinimalLinesAre(lines: List<Json>, fields: seq<string>)
    ensures MinimalItems(MinimalLines(lines, fields), fields)
    decreases lines
  {
    if lines.Cons? {
      PickIsMinimal(RecordOf(Some(lines.head)), fields);
      MinimalLinesAre(lines.tail, fields);
    }
  }

  lemma TwoPartsKeep(v: Json, first: Text, firstFields: seq<string>, second: Text, secondFields: seq<string>)
    requires first != second && AsciiDistinct(firstFields) && AsciiDistinct(secondFields)
    requires WellFormed(v) && MinimalParts(v, first, firstFields, second, secondFields)
    ensures SameValue(TwoParts(v, first, firstFields, second, secondFields), v)
  {
    var a, b := Member(first, MinimalPart(v, first, firstFields)), Member(second, MinimalPart(v, second, secondFields));
    LookupWellFormed(v.members, first);
    LookupWellFormed(v.members, second);
    PickKeepsMinimal(Lookup(v.members, first).value.members, firstFields);
    PickKeepsMinimal(Lookup(v.members, second).value.members, secondFields);
    forall k
      ensures Contains(Keys(Cons(a, Cons(b, Nil))), k) <==> k == first || k == second
    {
      TwoMembersHold(a, b, k);
    }
    var none: List<Member> := Nil;
    assert SameMembers(none, v.members);
    assert SameMembers(Cons(b, none), v.members);
    assert SameMembers(Cons(a, Cons(b, none)), v.members);
  }

  lemma {:induction false} MinimalLinesKeep(lines: List<Json>, fields: seq<string>)
    requires AsciiDistinct(fields) && WellFormedItems(lines) && MinimalItems(lines, fields)
    ensures SameItems(MinimalLines(lines, fields), lines)
    decreases lines
  {
    if lines.Cons? {
      PickKeepsMinimal(lines.head.members, fields);
      MinimalLinesKeep(lines.tail, fields);
    }
  }

  /** Minimising gives minimal values, and keeps the value of those that are minimal already. */
  lemma Minimising(customer: Json, lineItems: Json)
    requires WellFormed(customer) && WellFormed(lineItems)
    ensures IsMinimalCustomer(MinimalCustomer(customer)) && IsMinimalLineItems(MinimalLineItems(lineItems))
    ensures IsMinimalCustomer(customer) ==> SameValue(MinimalCustomer(customer), customer)
    ensures IsMinimalLineItems(lineItems) ==> SameValue(MinimalLineItems(lineItems), lineItems)
  {
    ShippingFieldsDistinct();
    ShortListsDistinct();
    AsciiDiffers("billing", "shipping", 0, 0);
    TwoPartsMinimal(customer, Ascii("billing"), BILLING_FIELDS, Ascii("shipping"), SHIPPING_FIELDS);
    MinimalLinesAre(if lineItems.Arr? then lineItems.items else Nil, LINE_FIELDS);
    if IsMinimalCustomer(customer) {
      TwoPartsKeep(customer, Ascii("billing"), BILLING_FIELDS, Ascii("shipping"), SHIPPING_FIELDS);
    }
    if IsMinimalLineItems(lineItems) {
      MinimalLinesKeep(lineItems.items, LINE_FIELDS);
    }
  }

  /** Being minimal does not depend on the order of members. */
  lemma MinimalSame(a: Json, b: Json)
    requires SameValue(a, b)
    ensures IsMinimalCustomer(b) ==> IsMinimalCustomer(a)
    ensures IsMinimalLineItems(b) ==> IsMinimalLineItems(a)
  {
    if IsMinimalCustomer(b) {
      MinimalPartsSame(a, b, Ascii("billing"), BILLING_FIELDS, Ascii("shipping"), SHIPPING_FIELDS);
    }
    if IsMinimalLineItems(b) {
      MinimalItemsSame(a.items, b.items, LINE_FIELDS);
    }
  }

  predicate Named(k: Text, names: seq<string>) {
    exists name :: name in names && Ascii(name) == k
  }

  lemma NamedIff(k: Text, names: seq<string>)
    ensures ListedField(k, names) <==> Named(k, names)
  {
    if Named(k, names) {
      var name :| name in names && Ascii(name) == k;
      var i :| 0 <= i < |names| && names[i] == name;
    }
  }

  /** What is left of a record: the named fields that hold text or a finite number, with their values. */
  ghost predicate KeepsFields(kept: List<Member>, record: List<Member>, names: seq<string>) {
    forall k :: Lookup(kept, k) ==
      if Named(k, names) && Lookup(record, k).Some?
         && (Lookup(record, k).value.Str?
             || (Lookup(record, k).value.Num? && !Lookup(record, k).value.number.NotFinite?))
      then Lookup(record, k) else None
  }

  lemma PickKeepsFields(record: List<Member>, names: seq<string>)
    requires AsciiDistinct(names)
    ensures KeepsFields(Pick(record, names), record, names)
  {
    forall k
      ensures Lookup(Pick(record, names), k) == if Named(k, names) && Lookup(record, k).Some?
                                                   && Displayable(Lookup(record, k).value)
                                                then Lookup(record, k) else None
    {
      PickHolds(record, names, k);
      NamedIff(k, names);
    }
  }

  /** What a scrub keeps of a customer: names and company for billing, the address without names for shipping. */
  lemma CustomerKeeps(customer: Json)
    ensures var billing := Lookup(RecordOf(Some(MinimalCustomer(customer))), Ascii("billing"));
            var shipping := Lookup(RecordOf(Some(MinimalCustomer(customer))), Ascii("shipping"));
            && billing.Some? && billing.value.Obj? && shipping.Some? && shipping.value.Obj?
            && KeepsFields(billing.value.members, RecordOf(Lookup(RecordOf(Some(customer)), Ascii("billing"))),
                           ["first_name", "last_name", "company"])
            && KeepsFields(shipping.value.members, RecordOf(Lookup(RecordOf(Some(customer)), Ascii("shipping"))),
                           ["company", "address_1", "address_2", "city", "state", "postcode", "country"])
  {
    ShippingFieldsDistinct();
    ShortListsDistinct();
    AsciiDiffers("billing", "shipping", 0, 0);
    var a := Member(Ascii("billing"), MinimalPart(customer, Ascii("billing"), BILLING_FIELDS));
    var b := Member(Ascii("shipping"), MinimalPart(customer, Ascii("shipping"), SHIPPING_FIELDS));
    TwoMembersHold(a, b, a.key);
    TwoMembersHold(a, b, b.key);
    PickKeepsFields(RecordOf(Lookup(RecordOf(Some(customer)), Ascii("billing"))), BILLING_FIELDS);
    PickKeepsFields(RecordOf(Lookup(RecordOf(Some(customer)), Ascii("shipping"))), SHIPPING_FIELDS);
  }

  ghost predicate KeepsLines(kept: List<Json>, lines: List<Json>, names: seq<string>)
    decreases kept, lines
  {
    (kept.Nil? <==> lines.Nil?)
    && (kept.Cons? && lines.Cons? ==>
          && kept.head.Obj? && KeepsFields(kept.head.members, RecordOf(Some(lines.head)), names)
          && KeepsLines(kept.tail, lines.tail, names))
  }

  lemma {:induction false} LinesKeep(lines: List<Json>, names: seq<string>)
    requires AsciiDistinct(names)
    ensures KeepsLines(MinimalLines(lines, names), lines, names)
    decreases lines
  {
    if lines.Cons? {
      PickKeepsFields(RecordOf(Some(lines.head)), names);
      LinesKeep(lines.tail, names);
    }
  }

  /** And of every line, in order, its name, quantity and total. */
  lemma LineItemsKeep(lineItems: Json)
    ensures MinimalLineItems(lineItems).Arr?
    ensures KeepsLines(MinimalLineItems(lineItems).items, if lineItems.Arr? then lineItems.items else Nil,
                       ["name", "quantity", "total"])
  {
    LineFieldsDistinct();
    LinesKeep(if lineItems.Arr? then lineItems.items else Nil, LINE_FIELDS);
  }

  // Values that minimising does not change at all

  /** The members come in the order of the field list. */
  predicate InFieldOrder(members: List<Member>, fields: seq<string>)
    decreases |fields|, members
  {
    members.Nil? ||
    (fields != [] &&
      if members.head.key == Ascii(fields[0]) then InFieldOrder(members.tail, fields[1..])
      else InFieldOrder(members, fields[1..]))
  }

  lemma {:induction false} OutsideFields(members: List<Member>, fields: seq<string>, k: Text)
    requires InFieldOrder(members, fields) && !ListedField(k, fields)
    ensures Lookup(members, k).None?
    decreases |fields|
  {
    if members.Cons? {
      ListedLater(k, fields);
      if members.head.key == Ascii(fields[0]) {
        OutsideFields(members.tail, fields[1..], k);
      } else {
        OutsideFields(members, fields[1..], k);
      }
    }
  }

  lemma {:induction false} PickSkips(m: Member, rest: List<Member>, fields: seq<string>)
    requires !ListedField(m.key, fields)
    ensures Pick(Cons(m, rest), fields) == Pick(rest, fields)
    decreases |fields|
  {
    if fields != [] {
      ListedLater(m.key, fields);
      assert ListedField(Ascii(fields[0]), fields);
      PickSkips(m, rest, fields[1..]);
    }
  }

  predicate AllDisplayable(members: List<Member>) {
    members.Cons? ==> Displayable(members.head.value) && AllDisplayable(members.tail)
  }

  lemma FirstFieldAlone(fields: seq<string>)
    requires AsciiDistinct(fields) && fields != []
    ensures AsciiDistinct(fields[1..]) && !ListedField(Ascii(fields[0]), fields[1..])
  {
  }

  lemma {:induction false} PickInOrder(record: List<Member>, fields: seq<string>)
    requires AsciiDistinct(fields)
    ensures InFieldOrder(Pick(record, fields), fields)
    decreases |fields|
  {
    if fields != [] {
      FirstFieldAlone(fields);
      PickInOrder(record, fields[1..]);
      PickOnlyFields(record, fields[1..], fields[1..]);
    }
  }

  lemma {:induction false} OrderedPick(members: List<Member>, fields: seq<string>)
    requires AsciiDistinct(fields) && InFieldOrder(members, fields) && AllDisplayable(members)
    ensures Pick(members, fields) == members
    decreases |fields|
  {
    if fields != [] {
      FirstFieldAlone(fields);
      if members.Cons? && members.head.key == Ascii(fields[0]) {
        PickSkips(members.head, members.tail, fields[1..]);
        OrderedPick(members.tail, fields[1..]);
      } else {
        OutsideFields(members, fields[1..], Ascii(fields[0]));
        OrderedPick(members, fields[1..]);
      }
    }
  }

  lemma {:induction false} PickDisplayable(record: List<Member>, fields: seq<string>)
    ensures AllDisplayable(Pick(record, fields))
    decreases |fields|
  {
    if fields != [] {
      PickDisplayable(record, fields[1..]);
    }
  }

  /** A pick changes nothing exactly when the members are displayable and in the order of the list. */
  lemma PickUnchangedIff(members: List<Member>, fields: seq<string>)
    requires AsciiDistinct(fields)
    ensures Pick(members, fields) == members <==> InFieldOrder(members, fields) && AllDisplayable(members)
  {
    PickInOrder(members, fields);
    PickDisplayable(members, fields);
    if InFieldOrder(members, fields) && AllDisplayable(members) {
      OrderedPick(members, fields);
    }
  }

  /** The parts in order, each with its members displayable and in list order. */
  predicate PartsListed(v: Json, first: Text, firstFields: seq<string>, second: Text, secondFields: seq<string>) {
    && v.Obj? && v.members.Cons? && v.members.tail.Cons? && v.members.tail.tail.Nil?
    && PartListed(v.members.head, first, firstFields) && PartListed(v.members.tail.head, second, secondFields)
  }

  predicate PartListed(m: Member, part: Text, fields: seq<string>) {
    m.key == part && m.value.Obj? && InFieldOrder(m.value.members, fields) && AllDisplayable(m.value.members)
  }

  predicate ItemsListed(items: List<Json>, fields: seq<string>)
    decreases items
  {
    items.Cons? ==>
      && items.head.Obj? && InFieldOrder(items.head.members, fields) && AllDisplayable(items.head.members)
      && ItemsListed(items.tail, fields)
  }

  /** The very form in which a scrub writes the customer. */
  predicate CustomerListed(v: Json) {
    PartsListed(v, Ascii("billing"), BILLING_FIELDS, Ascii("shipping"), SHIPPING_FIELDS)
  }

  predicate LineItemsListed(v: Json) {
    v.Arr? && ItemsListed(v.items, LINE_FIELDS)
  }

  lemma PartsUnchangedIff(v: Json, first: Text, firstFields: seq<string>, second: Text, secondFields: seq<string>)
    requires first != second && AsciiDistinct(firstFields) && AsciiDistinct(secondFields)
    ensures TwoParts(v, first, firstFields, second, secondFields) == v
       <==> PartsListed(v, first, firstFields, second, secondFields)
  {
    var parts := TwoParts(v, first, firstFields, second, secondFields);
    assert parts.members.tail.tail.Nil?;
    if v.Obj? && v.members.Cons? && v.members.tail.Cons? && v.members.tail.tail.Nil? {
      var a, b := v.members.head, v.members.tail.head;
      if a.key == first && b.key == second && a.value.Obj? && b.value.Obj? {
        assert v.members == Cons(a, Cons(b, Nil));
        TwoMembersHold(a, b, first);
        TwoMembersHold(a, b, second);
        PickUnchangedIff(a.value.members, firstFields);
        PickUnchangedIff(b.value.members, secondFields);
      }
    }
  }

  lemma {:induction false} ItemsUnchangedIff(items: List<Json>, fields: seq<string>)
    requires AsciiDistinct(fields)
    ensures MinimalLines(items, fields) == items <==> ItemsListed(items, fields)
    decreases items
  {
    if items.Cons? {
      ItemsUnchangedIff(items.tail, fields);
      if items.head.Obj? {
        PickUnchangedIff(items.head.members, fields);
      }
    }
  }

  /** Minimising changes nothing exactly when the value already has the form it would be given. */
  lemma MinimisingUnchangedIff(customer: Json, lineItems: Json)
    ensures MinimalCustomer(customer) == customer <==> CustomerListed(customer)
    ensures MinimalLineItems(lineItems) == lineItems <==> LineItemsListed(lineItems)
  {
    ShippingFieldsDistinct();
    ShortListsDistinct();
    AsciiDiffers("billing", "shipping", 0, 0);
    PartsUnchangedIff(customer, Ascii("billing"), BILLING_FIELDS, Ascii("shipping"), SHIPPING_FIELDS);
    if lineItems.Arr? {
      ItemsUnchangedIff(lineItems.items, LINE_FIELDS);
    }
  }

  // The order in which JSONB returns members

  /** Shorter keys first; among equally long ones the smaller. */
  predicate JsonbBefore(a: Text, b: Text) {
    Length(a) < Length(b) || (Length(a) == Length(b) && Less(a, b))
  }

  predicate JsonbOrdered(members: List<Member>) {
    members.Cons? ==>
      && (members.tail.Cons? ==> JsonbBefore(members.head.key, members.tail.head.key))
      && JsonbOrdered(members.tail)
  }

  /** Of two listed fields the earlier is the longer: JSONB returns them the other way round. */
  lemma {:induction false} JsonbDisagrees(members: List<Member>, fields: seq<string>, i: nat)
    requires AsciiDistinct(fields) && i + 2 == |fields| && |fields[i]| > |fields[i + 1]|
    requires JsonbOrdered(members) && InFieldOrder(members, fields)
    ensures Lookup(members, Ascii(fields[i])).None? || Lookup(members, Ascii(fields[i + 1])).None?
    decreases i
  {
    FirstFieldAlone(fields);
    var rest := fields[1..];
    if i > 0 {
      assert rest[i - 1] == fields[i] && rest[i] == fields[i + 1];
      if members.Cons? && members.head.key == Ascii(fields[0]) {
        JsonbDisagrees(members.tail, rest, i - 1);
        assert Ascii(fields[0]) != Ascii(fields[i]) && Ascii(fields[0]) != Ascii(fields[i + 1]);
      } else {
        JsonbDisagrees(members, rest, i - 1);
      }
    } else {
      assert rest == [fields[1]];
      if members.Cons? && members.head.key == Ascii(fields[0]) {
        if members.tail.Cons? {
          InLastFieldOrder(members.tail, fields[1]);
        }
      } else {
        OutsideFields(members, rest, Ascii(fields[0]));
      }
    }
  }

  lemma InLastFieldOrder(members: List<Member>, field: string)
    requires members.Cons? && InFieldOrder(members, [field])
    ensures members.head.key == Ascii(field)
  {
    assert [field][1..] == [];
  }

  /** A line with a quantity and a total, as JSONB returns it, is not in the form a scrub writes. */
  lemma JsonbLineUnlisted(members: List<Member>)
    requires JsonbOrdered(members)
    requires Lookup(members, Ascii("quantity")).Some? && Lookup(members, Ascii("total")).Some?
    ensures !InFieldOrder(members, LINE_FIELDS)
  {
    LineFieldsDistinct();
    if InFieldOrder(members, LINE_FIELDS) {
      JsonbDisagrees(members, LINE_FIELDS, 1);
    }
  }
}
