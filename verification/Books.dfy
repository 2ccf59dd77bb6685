/** One side of the order book: the ordered map of resting orders, as the sequence of its entries
    from the best to the worst. */
module Books {
  import opened Quantities
  import opened OrderIds

  type TraderId = nat

  datatype Clock = Clock(slot: nat, time: nat)

  predicate NotBefore(c: Clock, c': Clock) {
    c.slot <= c'.slot && c.time <= c'.time
  }

  /** Zero in an expiry field means the order never expires by that clock. */
  datatype Order = Order(trader: TraderId, lots: nat, lastValidSlot: nat, lastValidTime: nat)

  predicate Expired(o: Order, c: Clock) {
    (o.lastValidSlot != 0 && o.lastValidSlot < c.slot) || (o.lastValidTime != 0 && o.lastValidTime < c.time)
  }

  lemma ExpiryIsPermanent(o: Order, c: Clock, c': Clock)
    requires Expired(o, c) && NotBefore(c, c')
    ensures Expired(o, c')
  {
  }

  datatype Entry = Entry(id: OrderId, order: Order)

  type Book = seq<Entry>

  predicate Sorted(book: Book) {
    forall i, j | 0 <= i < j < |book| :: Ahead(book[i].id, book[j].id)
  }

  /** A resting order has a positive price and size, its side's bit, and was placed before
      the counter reached `counter`. */
  predicate EntryOk(side: Side, e: Entry, counter: nat) {
    && 0 < e.id.price <= U64_MAX
    && ValidId(side, e.id)
    && Counter(e.id.seqNum) < counter
    && e.order.lots > 0
  }

  predicate BookOk(side: Side, book: Book, counter: nat) {
    && Sorted(book)
    && (forall i | 0 <= i < |book| :: EntryOk(side, book[i], counter))
    && (forall i, j | 0 <= i < j < |book| :: book[i].id.seqNum != book[j].id.seqNum)
  }

  /** In a sorted book no entry has a better price than an earlier one. */
  lemma PricesWorsen(side: Side, book: Book, counter: nat, i: nat, j: nat)
    requires BookOk(side, book, counter) && i <= j < |book|
    ensures !BetterPrice(side, book[j].id.price, book[i].id.price)
  {
    if i < j {
      assert Ahead(book[i].id, book[j].id);
    }
  }

  // ---------- lookup ----------

  function IndexOf(book: Book, id: OrderId): (r: Option<nat>)
    ensures r.Some? ==> r.value < |book| && book[r.value].id == id
    ensures r.None? ==> forall i | 0 <= i < |book| :: book[i].id != id
  {
    if book == [] then None
    else if book[0].id == id then Some(0)
    else match IndexOf(book[1..], id)
      case None => None
      case Some(i) => Some(i + 1)
  }

  // ---------- taking lots from a resting order ----------

  /** Takes lots from the entry at `i`, removing it when nothing is left. */
  function Shrink(book: Book, i: nat, lots: nat): Book
    requires i < |book| && lots <= book[i].order.lots
  {
    if lots == book[i].order.lots then
      book[..i] + book[i + 1..]
    else
      var o := book[i].order;
      book[i := book[i].(order := o.(lots := o.lots - lots))]
  }

  /** Every entry of the shrunk book comes from the old one with the same id and owner, and
      all others keep their place in order. */
  lemma ShrinkOk(side: Side, book: Book, counter: nat, i: nat, lots: nat)
    requires BookOk(side, book, counter) && i < |book| && lots <= book[i].order.lots
    ensures BookOk(side, Shrink(book, i, lots), counter)
  {
    hide Ahead;
    var b := Shrink(book, i, lots);
    var off := |book| - |b|;
    assert forall k | 0 <= k < |b| :: b[k].id == book[if k < i then k else k + off].id;
  }

  // ---------- placing a resting order ----------

  function InsertPos(book: Book, id: OrderId): (n: nat)
    ensures n <= |book|
    ensures forall i | 0 <= i < n :: Ahead(book[i].id, id)
    ensures n < |book| ==> !Ahead(book[n].id, id)
  {
    if book == [] || !Ahead(book[0].id, id) then 0 else 1 + InsertPos(book[1..], id)
  }

  function Insert(book: Book, e: Entry): Book {
    var n := InsertPos(book, e.id);
    book[..n] + [e] + book[n..]
  }

  lemma InsertOk(side: Side, book: Book, counter: nat, e: Entry)
    requires BookOk(side, book, counter)
    requires EntryOk(side, e, counter + 1) && Counter(e.id.seqNum) == counter
    ensures BookOk(side, Insert(book, e), counter + 1)
  {
    hide Ahead;
    var n, b := InsertPos(book, e.id), Insert(book, e);
    forall i, j | 0 <= i < j < |b|
      ensures Ahead(b[i].id, b[j].id)
    {
      if i == n {
        AheadOfRest(side, book, counter, e, n, j - 1);
      }
    }
  }

  lemma AheadOfRest(side: Side, book: Book, counter: nat, e: Entry, n: nat, j: nat)
    requires BookOk(side, book, counter) && n <= j < |book|
    requires EntryOk(side, e, counter + 1) && Counter(e.id.seqNum) == counter
    requires !Ahead(book[n].id, e.id)
    ensures Ahead(e.id, book[j].id)
  {
    hide Ahead;
    assert EntryOk(side, book[n], counter) && EntryOk(side, book[j], counter);
    CompareIsPriceTimePriority(side, book[n].id, e.id);
    assert Ahead(e.id, book[n].id);
    if n < j {
      assert Ahead(book[n].id, book[j].id);
      AheadIsTransitive(side, e.id, book[n].id, book[j].id);
    }
  }

  // ---------- funds a book locks ----------

  /** What `lots` lots resting at a price lock: quote lots behind a bid, base lots behind an ask. */
  function Worth(p: Params, side: Side, price: nat, lots: nat): nat
    requires p.Valid()
  {
    match side case Bid => QuoteLots(p, price, lots) case Ask => lots
  }

  lemma WorthSplit(p: Params, side: Side, price: nat, part: nat, whole: nat)
    requires p.Valid() && part <= whole
    ensures Worth(p, side, price, whole) == Worth(p, side, price, part) + Worth(p, side, price, whole - part)
    ensures Worth(p, side, price, 0) == 0
    ensures price > 0 && whole > 0 ==> Worth(p, side, price, whole) > 0
  {
    QuoteLotsSplit(p, price, part, whole);
  }

  function LockedByEntry(p: Params, side: Side, e: Entry, t: TraderId): nat
    requires p.Valid()
  {
    if e.order.trader == t then Worth(p, side, e.id.price, e.order.lots) else 0
  }

  /** Everything trader `t` has locked behind the orders of a book. */
  function LockedIn(p: Params, side: Side, book: Book, t: TraderId): nat
    requires p.Valid()
  {
    if book == [] then 0 else LockedByEntry(p, side, book[0], t) + LockedIn(p, side, book[1..], t)
  }

  lemma {:induction false} LockedInConcat(p: Params, side: Side, a: Book, b: Book, t: TraderId)
    requires p.Valid()
    ensures LockedIn(p, side, a + b, t) == LockedIn(p, side, a, t) + LockedIn(p, side, b, t)
  {
    if a == [] {
      assert a + b == b;
    } else {
      assert (a + b)[1..] == a[1..] + b;
      LockedInConcat(p, side, a[1..], b, t);
    }
  }

  lemma LockedAround(p: Params, side: Side, a: Book, e: Entry, b: Book, t: TraderId)
    requires p.Valid()
    ensures LockedIn(p, side, a + [e] + b, t) == LockedIn(p, side, a + b, t) + LockedByEntry(p, side, e, t)
  {
    LockedInConcat(p, side, a + [e], b, t);
    LockedInConcat(p, side, a, [e], t);
    LockedInConcat(p, side, a, b, t);
    assert [e][1..] == [];
  }

  lemma LockedInShrink(p: Params, side: Side, book: Book, i: nat, lots: nat, t: TraderId)
    requires p.Valid() && i < |book| && lots <= book[i].order.lots
    ensures LockedIn(p, side, book, t) ==
            LockedIn(p, side, Shrink(book, i, lots), t)
            + (if book[i].order.trader == t then Worth(p, side, book[i].id.price, lots) else 0)
  {
    var e, b := book[i], Shrink(book, i, lots);
    WorthSplit(p, side, e.id.price, lots, e.order.lots);
    assert book == book[..i] + [e] + book[i + 1..];
    LockedAround(p, side, book[..i], e, book[i + 1..], t);
    if lots < e.order.lots {
      assert b == book[..i] + [b[i]] + book[i + 1..];
      LockedAround(p, side, book[..i], b[i], book[i + 1..], t);
    }
  }

  lemma LockedInInsert(p: Params, side: Side, book: Book, e: Entry, t: TraderId)
    requires p.Valid()
    ensures LockedIn(p, side, Insert(book, e), t) ==
            LockedIn(p, side, book, t) + LockedByEntry(p, side, e, t)
  {
    var n := InsertPos(book, e.id);
    assert book == book[..n] + book[n..];
    LockedAround(p, side, book[..n], e, book[n..], t);
  }

  /** A trader with nothing locked in a book has no order in it. */
  lemma {:induction false} LockedInPositive(p: Params, side: Side, book: Book, counter: nat, i: nat)
    requires p.Valid() && i < |book|
    requires forall k | 0 <= k < |book| :: EntryOk(side, book[k], counter)
    ensures LockedIn(p, side, book, book[i].order.trader) > 0
  {
    if i == 0 {
      WorthSplit(p, side, book[0].id.price, 0, book[0].order.lots);
    } else {
      LockedInPositive(p, side, book[1..], counter, i - 1);
    }
  }

  lemma {:induction false} LockedInAbsent(p: Params, side: Side, book: Book, t: TraderId)
    requires p.Valid()
    requires forall k | 0 <= k < |book| :: book[k].order.trader != t
    ensures LockedIn(p, side, book, t) == 0
  {
    if book != [] {
      LockedInAbsent(p, side, book[1..], t);
    }
  }
}
