/**
 Scrubbing stored orders down to the fields that are kept.

 Snapshots are JSONB columns: what is read back has the same value as what was stored, but its members in the
 database's order. The scrub compares texts, and so sees that order.
*/
module OrderScrub {
  import opened Lists
  import opened Utf16
  import opened CanonicalJson
  import opened OrderPayload
  import opened OrderMinimisation
  import opened OrderProjection
  import opened Wrappers

  /** The row after the order half of `scrubHistorical`. */
  function ScrubOrder(row: Row): Row
    requires Storable(row.order)
  {
    MinimalStorable(row.order);
    ScrubRow(Some(row), MinimalCustomer(row.order.customer), MinimalLineItems(row.order.lineItems)).value
  }

  function Scrubbed(row: Row): Row {
    if Storable(row.order) then ScrubOrder(row) else row
  }

  ghost predicate MinimalOrder(o: Order) {
    IsMinimalCustomer(o.customer) && IsMinimalLineItems(o.lineItems)
  }

  /** The two snapshots have the very form in which a scrub writes them. */
  predicate ListedOrder(o: Order) {
    CustomerListed(o.customer) && LineItemsListed(o.lineItems)
  }

  /** A scrub keeps a row valid, touches only the two snapshots, and leaves them minimal. */
  lemma ScrubMinimises(row: Row)
    requires ValidRow(row)
    ensures var after := ScrubOrder(row);
            && ValidRow(after) && MinimalOrder(after.order)
            && after.order == row.order.(customer := after.order.customer, lineItems := after.order.lineItems)
  {
    MinimalStorable(row.order);
    ScrubKeepsRow(row, MinimalCustomer(row.order.customer), MinimalLineItems(row.order.lineItems));
    Minimising(row.order.customer, row.order.lineItems);
  }

  /** A scrub counts a row exactly when its snapshots do not have the form it writes. */
  lemma ScrubCountsIff(row: Row)
    requires ValidRow(row)
    ensures ScrubOrder(row) != row <==> !ListedOrder(row.order)
  {
    MinimalStorable(row.order);
    ScrubKeepsRow(row, MinimalCustomer(row.order.customer), MinimalLineItems(row.order.lineItems));
    MinimisingUnchangedIff(row.order.customer, row.order.lineItems);
  }

  lemma ReplacedSnapshots(o: Order, customer: Json, lineItems: Json)
    requires Storable(o) && StorableJson(customer) && StorableJson(lineItems)
    requires SameValue(customer, o.customer) && SameValue(lineItems, o.lineItems)
    ensures SameOrder(o.(customer := customer, lineItems := lineItems), o)
  {
    SameOrderReflexive(o);
  }

  /** The content and the fingerprint of a row whose snapshots are minimal are not changed by a scrub. */
  lemma ScrubKeepsContent(row: Row)
    requires ValidRow(row) && MinimalOrder(row.order)
    ensures var after := ScrubOrder(row);
            ValidRow(after) && SameOrder(after.order, row.order) && after.fingerprint == row.fingerprint
  {
    var customer, lineItems := MinimalCustomer(row.order.customer), MinimalLineItems(row.order.lineItems);
    MinimalStorable(row.order);
    ScrubKeepsRow(row, customer, lineItems);
    Minimising(row.order.customer, row.order.lineItems);
    ReplacedSnapshots(row.order, customer, lineItems);
    FingerprintIff(ScrubOrder(row).order, row.order);
  }

  /**
  After a scrub the row is settled in content and fingerprint, whatever order of members the database returns; a
  second scrub counts it, and writes it again, exactly when that order is not the one of the field lists.
  */
  lemma ScrubSettles(row: Row, back: Row)
    requires ValidRow(row) && Reread(back, ScrubOrder(row))
    ensures ValidRow(back) && MinimalOrder(back.order)
    ensures SameOrder(ScrubOrder(back).order, back.order) && ScrubOrder(back).fingerprint == back.fingerprint
    ensures ScrubOrder(back) != back <==> !ListedOrder(back.order)
  {
    var stored := ScrubOrder(row);
    ScrubMinimises(row);
    RereadKeepsRow(back, stored);
    MinimalSame(back.order.customer, stored.order.customer);
    MinimalSame(back.order.lineItems, stored.order.lineItems);
    ScrubKeepsContent(back);
    ScrubCountsIff(back);
  }

  lemma {:induction false} UnlistedItem(items: List<Json>, fields: seq<string>, line: Json)
    requires Contains(items, line) && (line.Obj? ==> !InFieldOrder(line.members, fields))
    ensures !ItemsListed(items, fields)
    decreases items
  {
    if items.head != line {
      UnlistedItem(items.tail, fields, line);
    }
  }

  /**
  So an order with a line that has a quantity and a total, read back in JSONB's order of members, is counted and
  written by every scrub.
  */
  lemma JsonbRowsAreCounted(row: Row, line: Json)
    requires ValidRow(row) && row.order.lineItems.Arr? && Contains(row.order.lineItems.items, line)
    requires line.Obj? && JsonbOrdered(line.members)
    requires Lookup(line.members, Ascii("quantity")).Some? && Lookup(line.members, Ascii("total")).Some?
    ensures ScrubOrder(row) != row
  {
    JsonbLineUnlisted(line.members);
    UnlistedItem(row.order.lineItems.items, LINE_FIELDS, line);
    ScrubCountsIff(row);
  }

  /** A scrub leaves the content of a mirrored order: the mapper stores minimal snapshots. */
  lemma ScrubKeepsMirror(row: Row, remote: Order)
    requires ValidRow(row) && ValidCandidate(remote) && MinimalOrder(remote) && SameContent(row.order, remote)
    ensures ValidRow(ScrubOrder(row)) && SameContent(ScrubOrder(row).order, remote)
  {
    MinimalSame(row.order.customer, remote.customer);
    MinimalSame(row.order.lineItems, remote.lineItems);
    ScrubKeepsContent(row);
    var a, b := ScrubOrder(row).order.(deletedAt := None), row.order.(deletedAt := None);
    assert SameOrder(a, b);
    FingerprintIff(a, b);
    FingerprintIff(b, remote);
    FingerprintIff(a, remote);
  }
}
