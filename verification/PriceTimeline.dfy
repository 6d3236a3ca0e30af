/**
 product_variant_prices: a slowly changing dimension kept by a BEFORE INSERT trigger, a CHECK, an
 exclusion constraint and a partial unique index. An insert that breaks any of them changes nothing.
 */
module PriceTimeline {
  import opened Optional

  type Id = nat
  type Store = nat
  type Variant = nat

  datatype Terms = Terms(
    sellingPrice: real,
    minSellingPrice: Option<real>,
    allowDiscount: bool,
    maxDiscountPercent: Option<real>)

  datatype Price = Price(store: Store, variant: Variant, terms: Terms, validFrom: int, validTo: Option<int>)

  type Table = map<Id, Price>

  // ---- Constraints ----

  predicate AmountsValid(t: Terms) {
    && t.sellingPrice >= 0.0
    && (t.minSellingPrice.Some? ==> t.minSellingPrice.value >= 0.0)
    && (t.maxDiscountPercent.Some? ==> 0.0 <= t.maxDiscountPercent.value <= 1.0)
  }

  predicate RangeValid(p: Price) {
    p.validTo.None? || p.validFrom < p.validTo.value
  }

  predicate RowValid(p: Price) {
    AmountsValid(p.terms) && RangeValid(p)
  }

  predicate InRange(p: Price, at: int) {
    p.validFrom <= at && (p.validTo.None? || at < p.validTo.value)
  }

  /** tstzrange && tstzrange, for non-empty ranges. */
  predicate Overlap(a: Price, b: Price) {
    && (b.validTo.None? || a.validFrom < b.validTo.value)
    && (a.validTo.None? || b.validFrom < a.validTo.value)
  }

  /** The exclusion constraint and the unique index on open rows, between two rows. */
  predicate Compatible(a: Price, b: Price) {
    && (a.variant == b.variant ==> !Overlap(a, b))
    && !(a.store == b.store && a.variant == b.variant && a.validTo.None? && b.validTo.None?)
  }

  predicate ConstraintsHold(rows: Table) {
    && (forall id | id in rows :: RowValid(rows[id]))
    && (forall a, b | a in rows && b in rows && a != b :: Compatible(rows[a], rows[b]))
  }

  // ---- The insert ----

  predicate IsOpenFor(p: Price, price: Price) {
    p.store == price.store && p.variant == price.variant && p.validTo.None?
  }

  /** close_previous_product_variant_price. */
  function Closed(rows: Table, price: Price): Table {
    map id | id in rows :: if IsOpenFor(rows[id], price) then rows[id].(validTo := Some(price.validFrom)) else rows[id]
  }

  predicate Accepts(rows: Table, id: Id, price: Price) {
    id !in rows && ConstraintsHold(Closed(rows, price)[id := price])
  }

  function Inserted(rows: Table, id: Id, price: Price): Table {
    if Accepts(rows, id, price) then Closed(rows, price)[id := price] else rows
  }

  /** An insert that the exclusion constraint and the trigger's own CHECK let through. */
  predicate Fits(rows: Table, price: Price) {
    forall id | id in rows ::
      if IsOpenFor(rows[id], price) then rows[id].validFrom < price.validFrom
      else rows[id].variant == price.variant ==> !Overlap(rows[id], price)
  }

  class ProductVariantPrices {
    var rows: Table

    constructor ()
      ensures rows == map[] && ConstraintsHold(rows)
    {
      rows := map[];
    }

    /** One INSERT statement: trigger, constraint checks, and rollback if any of them fails. */
    method Insert(id: Id, price: Price) returns (ok: bool)
      requires ConstraintsHold(rows)
      modifies this
      ensures ConstraintsHold(rows)
      ensures ok <==> Accepts(old(rows), id, price)
      ensures rows == Inserted(old(rows), id, price)
    {
      AcceptedIff(rows, id, price);
      var before := rows;
      var open := set other | other in rows && IsOpenFor(rows[other], price);
      var late := set other | other in open && rows[other].validFrom >= price.validFrom;
      rows := rows + map other | other in open :: rows[other].(validTo := Some(price.validFrom));
      assert rows == Closed(before, price);
      var clash := set other | other in rows && rows[other].variant == price.variant && Overlap(rows[other], price);
      ChecksDecide(before, price, late, clash);
      ok := late == {} && id !in rows && RowValid(price) && clash == {};
      if ok {
        rows := rows[id := price];
      } else {
        rows := before;
      }
    }
  }

  /** The trigger's own CHECK and the exclusion constraint, taken together, are Fits. */
  lemma ChecksDecide(rows: Table, price: Price, late: set<Id>, clash: set<Id>)
    requires late == set id | id in rows && IsOpenFor(rows[id], price) && rows[id].validFrom >= price.validFrom
    requires clash == set id | id in rows && rows[id].variant == price.variant && Overlap(Closed(rows, price)[id], price)
    ensures Fits(rows, price) <==> late == {} && clash == {}
  {
    if late == {} && clash == {} {
      forall id | id in rows
        ensures if IsOpenFor(rows[id], price) then rows[id].validFrom < price.validFrom
                else rows[id].variant == price.variant ==> !Overlap(rows[id], price)
      {
        assert id !in late && id !in clash;
      }
    }
  }

  // ---- Which inserts are accepted ----

  /** In general: a valid row that starts after the row it closes and overlaps no other of its variant. */
  lemma AcceptedIff(rows: Table, id: Id, price: Price)
    requires ConstraintsHold(rows)
    ensures Accepts(rows, id, price) <==> id !in rows && RowValid(price) && Fits(rows, price)
  {
    if id !in rows {
      var closed := Closed(rows, price);
      var after := closed[id := price];
      if RowValid(price) && Fits(rows, price) {
        forall a, b | a in after && b in after && a != b
          ensures Compatible(after[a], after[b])
        {
          if a != id && b != id {
            assert Compatible(rows[a], rows[b]);
          }
        }
      }
      if ConstraintsHold(after) {
        assert after[id] == price;
        forall other | other in rows
          ensures if IsOpenFor(rows[other], price) then rows[other].validFrom < price.validFrom
                  else rows[other].variant == price.variant ==> !Overlap(rows[other], price)
        {
          assert after[other] == closed[other];
          assert Compatible(after[other], after[id]) && RowValid(after[other]);
        }
      }
    }
  }

  /** A variant's first price is refused only for its own columns: negative amounts, a discount over 100%, no range. */
  lemma FirstPriceAcceptedIff(rows: Table, id: Id, price: Price)
    requires ConstraintsHold(rows) && id !in rows
    requires forall other | other in rows :: rows[other].variant != price.variant
    ensures Accepts(rows, id, price) <==>
      && price.terms.sellingPrice >= 0.0
      && (price.terms.minSellingPrice.Some? ==> price.terms.minSellingPrice.value >= 0.0)
      && (price.terms.maxDiscountPercent.Some? ==>
            price.terms.maxDiscountPercent.value >= 0.0 && price.terms.maxDiscountPercent.value <= 1.0)
      && (price.validTo.Some? ==> price.validTo.value > price.validFrom)
    ensures Accepts(rows, id, price) ==> Inserted(rows, id, price) == rows[id := price]
  {
    AcceptedIff(rows, id, price);
    assert Closed(rows, price) == rows;
  }

  /** Non-empty ranges overlap iff some instant lies in both; the end of a range is not in it. */
  lemma OverlapIffShared(a: Price, b: Price)
    requires a.validTo.Some? ==> a.validFrom < a.validTo.value
    requires b.validTo.Some? ==> b.validFrom < b.validTo.value
    ensures Overlap(a, b) <==> exists at: int ::
      && InRange(a, at) && a.validFrom <= at && (a.validTo.Some? ==> at < a.validTo.value)
      && InRange(b, at) && b.validFrom <= at && (b.validTo.Some? ==> at < b.validTo.value)
  {
    var start := if a.validFrom < b.validFrom then b.validFrom else a.validFrom;
    if Overlap(a, b) {
      assert InRange(a, start) && InRange(b, start);
    }
  }

  /**
   With an open row of the store, nothing else can be in the way, not even another store's price: the other
   rows of the variant end before the open one starts. So the insert is accepted exactly when it is a valid row
   that starts after the open row does.
   */
  lemma AcceptedAfterOpenRow(rows: Table, id: Id, price: Price, open: Id)
    requires ConstraintsHold(rows) && id !in rows
    requires open in rows && IsOpenFor(rows[open], price)
    ensures Accepts(rows, id, price) <==> RowValid(price) && rows[open].validFrom < price.validFrom
    ensures forall other | other in rows && other != open && rows[other].variant == price.variant ::
              rows[other].validTo.Some? && rows[other].validTo.value <= rows[open].validFrom
  {
    AcceptedIff(rows, id, price);
    forall other | other in rows && other != open && rows[other].variant == price.variant
      ensures rows[other].validTo.Some? && rows[other].validTo.value <= rows[open].validFrom
    {
      assert Compatible(rows[other], rows[open]);
      assert RowValid(rows[other]);
    }
  }

  /**
   The store's next price, while it has an open one: refused for its own columns, or for starting no later than
   the open one. It ends the open one at its own start, and touches no other row.
   */
  lemma NextPriceAcceptedIff(rows: Table, id: Id, price: Price, open: Id)
    requires ConstraintsHold(rows) && id !in rows && open in rows && rows[open].validTo.None?
    requires rows[open].store == price.store && rows[open].variant == price.variant
    ensures Accepts(rows, id, price) <==>
      && price.terms.sellingPrice >= 0.0
      && (price.terms.minSellingPrice.Some? ==> price.terms.minSellingPrice.value >= 0.0)
      && (price.terms.maxDiscountPercent.Some? ==>
            price.terms.maxDiscountPercent.value >= 0.0 && price.terms.maxDiscountPercent.value <= 1.0)
      && (price.validTo.Some? ==> price.validTo.value > price.validFrom)
      && price.validFrom > rows[open].validFrom
    ensures Accepts(rows, id, price) ==>
      Inserted(rows, id, price) == rows[open := rows[open].(validTo := Some(price.validFrom))][id := price]
    ensures !Accepts(rows, id, price) ==> Inserted(rows, id, price) == rows
  {
    AcceptedAfterOpenRow(rows, id, price, open);
    assert Closed(rows, price) == rows[open := rows[open].(validTo := Some(price.validFrom))];
  }

  /**
   A variant belongs to one store, but the foreign key of a price names the variant alone: a price filed
   under another store is taken, and then refuses the owner's own price exactly while the ranges overlap.
   */
  lemma ForeignPriceBlocks(first: Price, second: Price)
    requires RowValid(first) && RowValid(second) && first.variant == second.variant && first.store != second.store
    ensures Accepts(map[], 1, first)
    ensures Accepts(map[1 := first], 2, second) <==> !Overlap(first, second)
  {
    AcceptedIff(map[], 1, first);
    var rows := map[1 := first];
    AcceptedIff(rows, 2, second);
    assert rows[1] == first;
    assert forall id | id in rows :: id == 1;
  }

  // ---- As-of prices ----

  ghost predicate Quotes(rows: Table, variant: Variant, at: int, id: Id) {
    id in rows && rows[id].variant == variant && InRange(rows[id], at)
  }

  /** What a timeline holds at an instant: whose price it is, and since when it has been open, if it is. */
  datatype Entry = Entry(store: Store, terms: Terms, openSince: Option<int>)

  function EntryOf(p: Price): Entry {
    Entry(p.store, p.terms, if p.validTo.None? then Some(p.validFrom) else None)
  }

  ghost function EntryAt(rows: Table, variant: Variant, at: int): Option<Entry> {
    if id :| Quotes(rows, variant, at, id) then Some(EntryOf(rows[id])) else None
  }

  /** The table is a partial function from time to price: one row at most covers an instant. */
  lemma QuoteIsUnique(rows: Table, variant: Variant, at: int, a: Id, b: Id)
    requires ConstraintsHold(rows) && Quotes(rows, variant, at, a) && Quotes(rows, variant, at, b)
    ensures a == b
  {
    assert a != b ==> Compatible(rows[a], rows[b]);
  }

  lemma EntryIs(rows: Table, variant: Variant, at: int, id: Id)
    requires ConstraintsHold(rows) && Quotes(rows, variant, at, id)
    ensures EntryAt(rows, variant, at) == Some(EntryOf(rows[id]))
  {
    var q :| Quotes(rows, variant, at, q) && EntryAt(rows, variant, at) == Some(EntryOf(rows[q]));
    QuoteIsUnique(rows, variant, at, q, id);
  }

  lemma EntryQuoted(rows: Table, variant: Variant, at: int) returns (id: Id)
    requires EntryAt(rows, variant, at).Some?
    ensures Quotes(rows, variant, at, id) && EntryAt(rows, variant, at) == Some(EntryOf(rows[id]))
  {
    id :| Quotes(rows, variant, at, id) && EntryAt(rows, variant, at) == Some(EntryOf(rows[id]));
  }

  // ---- The timeline by itself ----

  /** An open price of this store for the variant being written. */
  predicate Own(e: Entry, price: Price) {
    e.store == price.store && e.openSince.Some?
  }

  /** Writing `price` over an instant of its variant that holds `e`: functional override, closing the store's open price. */
  function Written(e: Option<Entry>, price: Price, at: int): Option<Entry> {
    if InRange(price, at) then Some(EntryOf(price))
    else if e.None? || !Own(e.value, price) then e
    else if at >= price.validFrom then None
    else Some(e.value.(openSince := None))
  }

  /** The price may be written here: after the open price it closes began, and over nothing else. */
  predicate Room(e: Option<Entry>, price: Price, at: int) {
    e.Some? ==>
      && (Own(e.value, price) ==> e.value.openSince.value < price.validFrom)
      && (InRange(price, at) ==> Own(e.value, price))
  }

  datatype Insertion = Insertion(id: Id, price: Price)

  /** What the timeline of a variant holds at an instant, from the insertions alone; no table is consulted. */
  ghost function Timeline(inserts: seq<Insertion>, variant: Variant, at: int): Option<Entry>
    decreases |inserts|, 0
  {
    if inserts == [] then None
    else
      var earlier, last := inserts[..|inserts| - 1], inserts[|inserts| - 1];
      var before := Timeline(earlier, variant, at);
      if last.price.variant == variant && Admits(earlier, last) then Written(before, last.price, at) else before
  }

  /** Whether the timeline takes one more insertion. */
  ghost predicate Admits(earlier: seq<Insertion>, last: Insertion)
    decreases |earlier|, 1
  {
    && last.id !in Taken(earlier) && RowValid(last.price)
    && forall at: int :: Room(Timeline(earlier, last.price.variant, at), last.price, at)
  }

  ghost function Taken(inserts: seq<Insertion>): set<Id>
    decreases |inserts|, 0
  {
    if inserts == [] then {}
    else
      var earlier, last := inserts[..|inserts| - 1], inserts[|inserts| - 1];
      Taken(earlier) + if Admits(earlier, last) then {last.id} else {}
  }

  // ---- One insert into the table, seen on the timeline ----

  /** Two ranges overlap where the later one begins. */
  lemma FitsIffRoom(rows: Table, price: Price)
    requires ConstraintsHold(rows) && RowValid(price)
    ensures Fits(rows, price) <==> forall at: int :: Room(EntryAt(rows, price.variant, at), price, at)
  {
    if Fits(rows, price) {
      forall at: int
        ensures Room(EntryAt(rows, price.variant, at), price, at)
      {
        if EntryAt(rows, price.variant, at).Some? {
          var id := EntryQuoted(rows, price.variant, at);
        }
      }
    }
    if forall at: int :: Room(EntryAt(rows, price.variant, at), price, at) {
      forall id | id in rows && rows[id].variant == price.variant
        ensures if IsOpenFor(rows[id], price) then rows[id].validFrom < price.validFrom else !Overlap(rows[id], price)
      {
        RoomAtRow(rows, price, id);
      }
    }
  }

  lemma RoomAtRow(rows: Table, price: Price, id: Id)
    requires ConstraintsHold(rows) && RowValid(price) && id in rows && rows[id].variant == price.variant
    requires forall at: int :: Room(EntryAt(rows, price.variant, at), price, at)
    ensures if IsOpenFor(rows[id], price) then rows[id].validFrom < price.validFrom else !Overlap(rows[id], price)
  {
    var r := rows[id];
    var at := if r.validFrom < price.validFrom && !IsOpenFor(r, price) then price.validFrom else r.validFrom;
    assert Room(EntryAt(rows, price.variant, at), price, at);
    if InRange(r, at) {
      EntryIs(rows, price.variant, at, id);
    }
  }

  /** An accepted insert writes the timeline of its variant, and touches no other. */
  lemma InsertWrites(rows: Table, id: Id, price: Price, variant: Variant, at: int)
    requires ConstraintsHold(rows) && Accepts(rows, id, price)
    ensures
      EntryAt(Inserted(rows, id, price), variant, at) ==
      if variant == price.variant then Written(EntryAt(rows, variant, at), price, at) else EntryAt(rows, variant, at)
  {
    var rows' := Inserted(rows, id, price);
    AcceptedIff(rows, id, price);
    assert rows'[id] == price;
    if variant == price.variant && InRange(price, at) {
      EntryIs(rows', variant, at, id);
    } else if EntryAt(rows, variant, at).Some? {
      var q := EntryQuoted(rows, variant, at);
      QuotedRowAfter(rows, id, price, variant, at, q);
    } else if EntryAt(rows', variant, at).Some? {
      var q := EntryQuoted(rows', variant, at);
      assert Quotes(rows, variant, at, q);
    }
  }

  lemma QuotedRowAfter(rows: Table, id: Id, price: Price, variant: Variant, at: int, q: Id)
    requires ConstraintsHold(rows) && Accepts(rows, id, price) && Quotes(rows, variant, at, q)
    requires !(variant == price.variant && InRange(price, at))
    ensures
      EntryAt(Inserted(rows, id, price), variant, at) ==
      if variant == price.variant then Written(Some(EntryOf(rows[q])), price, at) else Some(EntryOf(rows[q]))
  {
    var rows' := Inserted(rows, id, price);
    if IsOpenFor(rows[q], price) && at >= price.validFrom {
      if EntryAt(rows', variant, at).Some? {
        var other := EntryQuoted(rows', variant, at);
        assert other != q;
        QuoteIsUnique(rows, variant, at, other, q);
      }
    } else {
      EntryIs(rows', variant, at, q);
    }
  }

  ghost function PriceAt(rows: Table, variant: Variant, at: int): Option<Terms> {
    var e := EntryAt(rows, variant, at);
    if e.Some? then Some(e.value.terms) else None
  }

  /**
   What an accepted insert does to the as-of prices: inside its range they become its own; before it starts,
   and for every other variant, they stay; from the end of its range on they stay too, unless the store had
   an open price, which is cut off at the start of the new one.
   */
  lemma InsertOverrides(rows: Table, id: Id, price: Price, variant: Variant, at: int)
    requires ConstraintsHold(rows) && Accepts(rows, id, price)
    ensures
      var before, after := PriceAt(rows, variant, at), PriceAt(Inserted(rows, id, price), variant, at);
      && (variant == price.variant && InRange(price, at) ==> after == Some(price.terms))
      && (variant != price.variant || at < price.validFrom ==> after == before)
      && (variant == price.variant && at >= price.validFrom && !InRange(price, at) ==>
            after == if exists open :: open in rows && IsOpenFor(rows[open], price) then None else before)
  {
    InsertWrites(rows, id, price, variant, at);
    AcceptedIff(rows, id, price);
    if variant == price.variant && at >= price.validFrom && !InRange(price, at) {
      if open :| open in rows && IsOpenFor(rows[open], price) {
        EntryIs(rows, variant, at, open);
      } else if EntryAt(rows, variant, at).Some? {
        var q := EntryQuoted(rows, variant, at);
        assert !IsOpenFor(rows[q], price);
      }
    }
  }

  // ---- Any history of inserts ----

  function Filled(inserts: seq<Insertion>): Table {
    if inserts == [] then map[]
    else
      var last := inserts[|inserts| - 1];
      Inserted(Filled(inserts[..|inserts| - 1]), last.id, last.price)
  }

  ghost predicate IsTimeline(rows: Table, inserts: seq<Insertion>) {
    && ConstraintsHold(rows) && rows.Keys == Taken(inserts)
    && forall variant: Variant, at: int :: EntryAt(rows, variant, at) == Timeline(inserts, variant, at)
  }

  lemma AcceptsIffAdmits(rows: Table, earlier: seq<Insertion>, last: Insertion)
    requires IsTimeline(rows, earlier)
    ensures Accepts(rows, last.id, last.price) <==> Admits(earlier, last)
  {
    AcceptedIff(rows, last.id, last.price);
    if RowValid(last.price) {
      FitsIffRoom(rows, last.price);
      assert forall at: int ::
          EntryAt(rows, last.price.variant, at) == Timeline(earlier, last.price.variant, at);
    }
  }

  lemma TimelineStep(rows: Table, inserts: seq<Insertion>)
    requires inserts != []
    requires IsTimeline(rows, inserts[..|inserts| - 1])
    ensures
      var last := inserts[|inserts| - 1];
      IsTimeline(Inserted(rows, last.id, last.price), inserts)
  {
    var earlier, last := inserts[..|inserts| - 1], inserts[|inserts| - 1];
    AcceptsIffAdmits(rows, earlier, last);
    forall variant: Variant, at: int
      ensures EntryAt(Inserted(rows, last.id, last.price), variant, at) == Timeline(inserts, variant, at)
    {
      assert EntryAt(rows, variant, at) == Timeline(earlier, variant, at);
      if Accepts(rows, last.id, last.price) {
        InsertWrites(rows, last.id, last.price, variant, at);
      }
    }
  }

  /** After any sequence of inserts, accepted and rejected, the table holds what the timeline holds, everywhere. */
  lemma {:induction false} TableIsTimeline(inserts: seq<Insertion>)
    ensures IsTimeline(Filled(inserts), inserts)
    decreases |inserts|
  {
    if inserts != [] {
      TableIsTimeline(inserts[..|inserts| - 1]);
      TimelineStep(Filled(inserts[..|inserts| - 1]), inserts);
    }
  }

  /** And the table took exactly the insertions that the timeline admits. */
  lemma {:induction false} TakenIffAdmitted(inserts: seq<Insertion>, n: nat)
    requires n < |inserts|
    ensures Accepts(Filled(inserts[..n]), inserts[n].id, inserts[n].price) <==> Admits(inserts[..n], inserts[n])
  {
    TableIsTimeline(inserts[..n]);
    AcceptsIffAdmits(Filled(inserts[..n]), inserts[..n], inserts[n]);
  }

  /** In particular the ranges of a variant stay pairwise disjoint, with at most one of them open. */
  lemma RangesDisjoint(inserts: seq<Insertion>, a: Id, b: Id)
    requires a in Filled(inserts) && b in Filled(inserts) && a != b
    requires Filled(inserts)[a].variant == Filled(inserts)[b].variant
    ensures !Overlap(Filled(inserts)[a], Filled(inserts)[b])
    ensures !(Filled(inserts)[a].validTo.None? && Filled(inserts)[b].validTo.None?)
  {
    TableIsTimeline(inserts);
    assert Compatible(Filled(inserts)[a], Filled(inserts)[b]);
  }

  /** No row ever holds a negative price, a discount beyond 100%, or an end that is not after its start. */
  lemma RowsAreSane(inserts: seq<Insertion>, id: Id)
    requires id in Filled(inserts)
    ensures
      var row := Filled(inserts)[id];
      && row.terms.sellingPrice >= 0.0
      && (row.terms.minSellingPrice.Some? ==> row.terms.minSellingPrice.value >= 0.0)
      && (row.terms.maxDiscountPercent.Some? ==>
            row.terms.maxDiscountPercent.value >= 0.0 && row.terms.maxDiscountPercent.value <= 1.0)
      && (row.validTo.Some? ==> row.validTo.value > row.validFrom)
  {
    TableIsTimeline(inserts);
  }

  /** A row is the price of its variant from its start on, up to but not including its end. */
  lemma QuotedThroughout(inserts: seq<Insertion>, id: Id, at: int)
    requires id in Filled(inserts)
    ensures
      var rows := Filled(inserts);
      var row := rows[id];
      if row.validFrom <= at && (row.validTo.Some? ==> at < row.validTo.value)
      then PriceAt(rows, row.variant, at) == Some(row.terms) else !Quotes(rows, row.variant, at, id)
  {
    var rows := Filled(inserts);
    TableIsTimeline(inserts);
    if rows[id].validFrom <= at && (rows[id].validTo.Some? ==> at < rows[id].validTo.value) {
      EntryIs(rows, rows[id].variant, at, id);
    }
  }
}
