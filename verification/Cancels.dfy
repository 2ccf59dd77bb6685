/** What reducing and cancelling orders removes, releases and pays, exactly. */
module Cancels {
  import opened Quantities
  import opened OrderIds
  import opened Books
  import opened Traders
  import opened Markets
  import opened Placement
  import opened Accounts

  // ---------- one order ----------

  lemma UniqueIndex(side: Side, book: Book, counter: nat, i: nat)
    requires BookOk(side, book, counter) && i < |book|
    ensures IndexOf(book, book[i].id) == Some(i)
  {
  }

  lemma EntryFacts(m: Market, side: Side, i: nat)
    requires Inv(m) && i < |m.BookOf(side)|
    ensures BookOk(side, m.BookOf(side), m.counter) && EntryOk(side, m.BookOf(side)[i], m.counter) && m.counter > 0
  {
    assert SideInv(m, side);
  }

  /** The balances of a trader after lots worth `w` were released: they become free or are paid out. */
  predicate ReleasedTo(s: TraderState, s': TraderState, side: Side, w: nat, claim: bool) {
    && s'.Locked(side) + w == s.Locked(side)
    && s'.Free(side) == s.Free(side) + (if claim then 0 else w)
    && s'.Locked(Opposite(side)) == s.Locked(Opposite(side)) && s'.Free(Opposite(side)) == s.Free(Opposite(side))
  }

  /** Reducing the order at `i`: it fails exactly for an order of somebody else. Of an own order it
      removes all, or the size named if that is less, keeps the rest in its place, and releases or
      pays out exactly what the removed lots locked. */
  lemma ReduceExact(m: Market, t: TraderId, side: Side, i: nat, size: Option<nat>, expired: bool, claim: bool)
    requires Inv(m) && t in m.traders && i < |m.BookOf(side)|
    ensures var b := m.BookOf(side);
            var r := ReduceOrder(m, t, b[i].id, side, size, expired, claim);
            && (r.None? <==> b[i].order.trader != t)
            && (r.Some? ==>
                  var o, m' := b[i].order, r.value.market;
                  var lots := if !expired && size.Some? && size.value < o.lots then size.value else o.lots;
                  var w := Worth(m.params, side, b[i].id.price, lots);
                  && m'.BookOf(side) == (if lots == o.lots then b[..i] + b[i + 1..]
                                         else b[i := Entry(b[i].id, o.(lots := o.lots - lots))])
                  && m'.BookOf(Opposite(side)) == m.BookOf(Opposite(side))
                  && t in m'.traders && m'.traders == m.traders[t := m'.traders[t]]
                  && ReleasedTo(m.traders[t], m'.traders[t], side, w, claim)
                  && r.value.response.Out(side) == (if claim then w else 0)
                  && r.value.response.Out(Opposite(side)) == 0 && m'.counter == m.counter)
  {
    hide Inv, Worth, Take, BookOk, Claim, ReduceOrder, EntryOk;
    var b := m.BookOf(side);
    InvIsValid(m);
    EntryFacts(m, side, i);
    ReduceIsTake(m, t, side, i, size, expired, claim);
    if b[i].order.trader == t {
      var lots := if !expired && size.Some? && size.value < b[i].order.lots then size.value else b[i].order.lots;
      var kind := if expired then ByExpiry else ByReduce;
      TakeShape(m, side, i, lots, kind);
      if claim {
        ClaimReleased(Take(m, side, i, lots, kind), t, side, Worth(m.params, side, b[i].id.price, lots));
      }
    }
  }

  lemma ReduceIsTake(m: Market, t: TraderId, side: Side, i: nat, size: Option<nat>, expired: bool, claim: bool)
    requires Inv(m) && t in m.traders && i < |m.BookOf(side)|
    ensures var e := m.BookOf(side)[i];
            var lots := if !expired && size.Some? && size.value < e.order.lots then size.value else e.order.lots;
            var kind, w := if expired then ByExpiry else ByReduce, Worth(m.params, side, e.id.price, lots);
            && TakeEnabled(m.BookOf(side), i, lots, kind)
            && var m' := Take(m, side, i, lots, kind);
            && t in m'.traders
            && ReduceOrder(m, t, e.id, side, size, expired, claim) ==
               if e.order.trader != t then None
               else if !claim then Some(Settled(m', NOTHING))
               else Claim(m', t, Some(if side.Bid? then w else 0), Some(if side.Bid? then 0 else w), false)
  {
    hide SideOk, Worth, BookOk, Claim, Shrink, TakeEvents, TakeState;
    EntryFacts(m, side, i);
    UniqueIndex(side, m.BookOf(side), m.counter, i);
  }

  lemma ClaimReleased(m: Market, t: TraderId, side: Side, w: nat)
    requires t in m.traders && m.counter > 0 && w <= m.traders[t].Free(side)
    ensures var r := Claim(m, t, Some(if side.Bid? then w else 0), Some(if side.Bid? then 0 else w), false);
            && r.Some?
            && r.value.market == m.WithTrader(t, m.traders[t].UseFree(side, w))
            && r.value.response.Out(side) == w && r.value.response.Out(Opposite(side)) == 0
  {
  }

  lemma TakeShape(m: Market, side: Side, i: nat, lots: nat, kind: TakeKind)
    requires Inv(m) && TakeEnabled(m.BookOf(side), i, lots, kind) && !kind.ByFill?
    ensures var b, m' := m.BookOf(side), Take(m, side, i, lots, kind);
            var o := b[i].order;
            var w := Worth(m.params, side, b[i].id.price, lots);
            && m'.BookOf(side) == (if lots == o.lots then b[..i] + b[i + 1..]
                                   else b[i := Entry(b[i].id, o.(lots := o.lots - lots))])
            && m'.BookOf(Opposite(side)) == m.BookOf(Opposite(side)) && m'.counter == m.counter
            && o.trader in m.traders && w <= m.traders[o.trader].Locked(side)
            && m'.traders == m.traders[o.trader := m.traders[o.trader].Unlock(side, w)]
  {
    hide SideOk, Worth;
    LockedCovers(m, side, i, lots);
  }

  /** An id that is in neither place is no error and changes nothing. */
  lemma ReduceMissing(m: Market, t: TraderId, id: OrderId, side: Side, size: Option<nat>, expired: bool, claim: bool)
    requires Inv(m) && t in m.traders
    requires forall i | 0 <= i < |m.BookOf(side)| :: m.BookOf(side)[i].id != id
    ensures ReduceOrder(m, t, id, side, size, expired, claim) == Some(Settled(m, NOTHING))
  {
    hide SideOk;
  }

  // ---------- a list of orders ----------

  predicate Listed(e: Entry, t: TraderId, ids: seq<OrderId>) {
    e.order.trader == t && e.id in ids
  }

  /** A book without the trader's orders that are on the list. */
  function Kept(book: Book, t: TraderId, ids: seq<OrderId>): Book {
    if book == [] then []
    else (if Listed(book[0], t, ids) then [] else [book[0]]) + Kept(book[1..], t, ids)
  }

  /** What the trader's orders on the list lock. */
  function Released(p: Params, side: Side, book: Book, t: TraderId, ids: seq<OrderId>): nat
    requires p.Valid()
  {
    if book == [] then 0
    else (if Listed(book[0], t, ids) then Worth(p, side, book[0].id.price, book[0].order.lots) else 0)
         + Released(p, side, book[1..], t, ids)
  }

  lemma {:induction false} KeptConcat(p: Params, side: Side, a: Book, b: Book, t: TraderId, ids: seq<OrderId>)
    requires p.Valid()
    ensures Kept(a + b, t, ids) == Kept(a, t, ids) + Kept(b, t, ids)
    ensures Released(p, side, a + b, t, ids) == Released(p, side, a, t, ids) + Released(p, side, b, t, ids)
  {
    hide Worth, Listed;
    if a == [] {
      assert a + b == b;
    } else {
      assert (a + b)[1..] == a[1..] + b;
      KeptConcat(p, side, a[1..], b, t, ids);
    }
  }

  /** Lists that select the same orders of a book leave the same book. */
  lemma {:induction false} KeptSame(p: Params, side: Side, book: Book, t: TraderId, ids: seq<OrderId>, ids': seq<OrderId>)
    requires p.Valid() && forall k | 0 <= k < |book| :: Listed(book[k], t, ids) == Listed(book[k], t, ids')
    ensures Kept(book, t, ids) == Kept(book, t, ids')
    ensures Released(p, side, book, t, ids) == Released(p, side, book, t, ids')
  {
    hide Worth, Listed;
    if book != [] {
      forall k | 0 <= k < |book[1..]|
        ensures Listed(book[1..][k], t, ids) == Listed(book[1..][k], t, ids')
      {
        assert book[1..][k] == book[k + 1];
      }
      KeptSame(p, side, book[1..], t, ids, ids');
    }
  }

  lemma {:induction false} KeptNone(p: Params, side: Side, book: Book, t: TraderId, ids: seq<OrderId>)
    requires p.Valid() && forall k | 0 <= k < |book| :: !Listed(book[k], t, ids)
    ensures Kept(book, t, ids) == book && Released(p, side, book, t, ids) == 0
  {
    hide Worth, Listed;
    if book != [] {
      forall k | 0 <= k < |book[1..]|
        ensures !Listed(book[1..][k], t, ids)
      {
        assert book[1..][k] == book[k + 1];
      }
      KeptNone(p, side, book[1..], t, ids);
    }
  }

  lemma {:induction false} KeptMembers(book: Book, t: TraderId, ids: seq<OrderId>, e: Entry)
    ensures e in Kept(book, t, ids) <==> e in book && !Listed(e, t, ids)
  {
    hide Listed;
    if book != [] {
      KeptMembers(book[1..], t, ids, e);
    }
  }

  /** What is released and what the kept orders lock is what the book locked. */
  lemma {:induction false} ReleasedIsLocked(p: Params, side: Side, book: Book, t: TraderId, ids: seq<OrderId>)
    requires p.Valid()
    ensures Released(p, side, book, t, ids) + LockedIn(p, side, Kept(book, t, ids), t) == LockedIn(p, side, book, t)
  {
    hide Worth;
    if book != [] {
      ReleasedIsLocked(p, side, book[1..], t, ids);
      if Listed(book[0], t, ids) {
        assert Kept(book, t, ids) == Kept(book[1..], t, ids);
      } else {
        assert Kept(book, t, ids)[1..] == Kept(book[1..], t, ids);
      }
    }
  }

  /** Removing the first listed order leaves the rest of the list to do. */
  lemma KeptStep(p: Params, side: Side, book: Book, counter: nat, i: nat, t: TraderId, ids: seq<OrderId>)
    requires p.Valid() && BookOk(side, book, counter) && i < |book| && ids != []
    requires book[i].order.trader == t && book[i].id == ids[0]
    ensures var rest := book[..i] + book[i + 1..];
            && Kept(rest, t, ids[1..]) == Kept(book, t, ids)
            && Released(p, side, book, t, ids)
               == Worth(p, side, book[i].id.price, book[i].order.lots) + Released(p, side, rest, t, ids[1..])
  {
    hide Worth, Kept, Released, BookOk;
    var a, e, b := book[..i], [book[i]], book[i + 1..];
    assert book == a + (e + b);
    KeptConcat(p, side, a, e + b, t, ids);
    KeptConcat(p, side, e, b, t, ids);
    KeptConcat(p, side, a, b, t, ids[1..]);
    KeptOne(p, side, book[i], t, ids);
    DistinctIds(side, book, counter, a, book[i], b);
    KeptTail(p, side, a, t, ids);
    KeptTail(p, side, b, t, ids);
  }

  lemma KeptOne(p: Params, side: Side, e: Entry, t: TraderId, ids: seq<OrderId>)
    requires p.Valid() && Listed(e, t, ids)
    ensures Kept([e], t, ids) == [] && Released(p, side, [e], t, ids) == Worth(p, side, e.id.price, e.order.lots)
  {
    hide Worth;
    assert [e][1..] == [];
  }

  lemma DistinctIds(side: Side, book: Book, counter: nat, a: Book, e: Entry, b: Book)
    requires BookOk(side, book, counter) && book == a + ([e] + b)
    ensures forall k | 0 <= k < |a| :: a[k].id != e.id
    ensures forall k | 0 <= k < |b| :: b[k].id != e.id
  {
    hide Ahead, EntryOk;
    assert book[|a|] == e;
    forall k | 0 <= k < |a|
      ensures a[k].id != e.id
    {
      assert a[k] == book[k];
    }
    forall k | 0 <= k < |b|
      ensures b[k].id != e.id
    {
      assert b[k] == book[|a| + 1 + k];
    }
  }

  /** The first id of a list does not matter to a book that has no own order with it. */
  lemma KeptTail(p: Params, side: Side, book: Book, t: TraderId, ids: seq<OrderId>)
    requires p.Valid() && ids != [] && forall k | 0 <= k < |book| :: book[k].id == ids[0] ==> book[k].order.trader != t
    ensures Kept(book, t, ids) == Kept(book, t, ids[1..])
    ensures Released(p, side, book, t, ids) == Released(p, side, book, t, ids[1..])
  {
    assert ids == [ids[0]] + ids[1..];
    KeptSame(p, side, book, t, ids, ids[1..]);
  }

  /** Balances after the lots behind cancelled orders were freed, or paid out. */
  function Freed(s: TraderState, quote: nat, base: nat, claim: bool): TraderState
    requires quote <= s.quoteLocked && base <= s.baseLocked
  {
    TraderState(
      s.quoteLocked - quote, if claim then s.quoteFree else s.quoteFree + quote,
      s.baseLocked - base, if claim then s.baseFree else s.baseFree + base)
  }

  /** Exactly the trader's own orders on the list have left the books, and exactly what they locked was
      freed or paid out. */
  predicate CancelledExactly(m: Market, r: Cancelled, t: TraderId, ids: seq<OrderId>, claim: bool)
    requires m.params.Valid() && t in m.traders
  {
    var s := m.traders[t];
    var quote, base := Released(m.params, Bid, m.bids, t, ids), Released(m.params, Ask, m.asks, t, ids);
    && r.market.bids == Kept(m.bids, t, ids) && r.market.asks == Kept(m.asks, t, ids)
    && quote <= s.quoteLocked && base <= s.baseLocked
    && r.market.traders == m.traders[t := Freed(s, quote, base, claim)]
    && r.quoteOut == (if claim then quote else 0) && r.baseOut == (if claim then base else 0)
  }

  /** Cancelling any list of ids, with repetitions, unknown ids and other traders' ids in it: exactly
      the trader's own orders on the list leave the books, wherever they are on it, and exactly what
      they locked is freed or paid out. */
  lemma {:induction false} CancelIdsExact(m: Market, t: TraderId, ids: seq<OrderId>, claim: bool)
    requires Inv(m) && t in m.traders
    ensures m.params.Valid() && CancelledExactly(m, CancelIds(m, t, ids, claim), t, ids, claim)
    decreases ids
  {
    hide Inv, Worth, ReduceOrder, CancelledExactly, Uncrossed, LogInv, Balanced, ReleasedTo;
    InvIsValid(m);
    if ids == [] {
      CancelNothing(m, t, claim);
    } else {
      var side := SideOf(ids[0].seqNum);
      var b := m.BookOf(side);
      OtherSideIds(m, side, ids[0]);
      if i: nat :| i < |b| && b[i].id == ids[0] && b[i].order.trader == t {
        ReduceExact(m, t, side, i, None, false, claim);
        ReduceOrderKeeps(m, t, ids[0], side, None, false, claim, Clock(0, 0));
        EntryFacts(m, side, i);
        var r := ReduceOrder(m, t, ids[0], side, None, false, claim).value;
        CancelIdsExact(r.market, t, ids[1..], claim);
        CancelMore(m, r, CancelIds(r.market, t, ids[1..], claim), t, ids, claim, side, i);
      } else {
        CancelSkip(m, t, ids, claim);
        CancelIdsExact(m, t, ids[1..], claim);
        forall s: Side, k | 0 <= k < |m.BookOf(s)| && m.BookOf(s)[k].id == ids[0]
          ensures m.BookOf(s)[k].order.trader != t
        {
          assert s == side || s == Opposite(side);
        }
        SkipListed(m, CancelIds(m, t, ids, claim), t, ids, claim);
      }
    }
  }

  lemma CancelNothing(m: Market, t: TraderId, claim: bool)
    requires m.params.Valid() && t in m.traders
    ensures CancelledExactly(m, Cancelled(m, 0, 0), t, [], claim)
  {
    KeptNone(m.params, Bid, m.bids, t, []);
    KeptNone(m.params, Ask, m.asks, t, []);
    assert m.traders == m.traders[t := m.traders[t]];
  }

  /** No own order has the first id of the list. */
  lemma SkipListed(m: Market, r: Cancelled, t: TraderId, ids: seq<OrderId>, claim: bool)
    requires m.params.Valid() && t in m.traders && ids != [] && CancelledExactly(m, r, t, ids[1..], claim)
    requires forall s: Side, k | 0 <= k < |m.BookOf(s)| && m.BookOf(s)[k].id == ids[0] :: m.BookOf(s)[k].order.trader != t
    ensures CancelledExactly(m, r, t, ids, claim)
  {
    hide Kept, Released;
    assert m.BookOf(Bid) == m.bids && m.BookOf(Ask) == m.asks;
    KeptTail(m.params, Bid, m.bids, t, ids);
    KeptTail(m.params, Ask, m.asks, t, ids);
  }

  /** The first id of the list is that of the own order at `i`, which was cancelled first. */
  lemma CancelMore(m: Market, r: Settled, rest: Cancelled, t: TraderId, ids: seq<OrderId>, claim: bool, side: Side, i: nat)
    requires m.params.Valid() && r.market.params == m.params && ids != []
    requires BookOk(side, m.BookOf(side), m.counter) && i < |m.BookOf(side)|
    requires var b := m.BookOf(side);
             b[i].id == ids[0] && b[i].order.trader == t && r.market.BookOf(side) == b[..i] + b[i + 1..]
    requires var b := m.BookOf(Opposite(side)); r.market.BookOf(Opposite(side)) == b && forall k | 0 <= k < |b| :: b[k].id != ids[0]
    requires t in m.traders && t in r.market.traders && r.market.traders == m.traders[t := r.market.traders[t]]
    requires var e := m.BookOf(side)[i];
             var w := Worth(m.params, side, e.id.price, e.order.lots);
             && ReleasedTo(m.traders[t], r.market.traders[t], side, w, claim)
             && r.response.Out(side) == (if claim then w else 0) && r.response.Out(Opposite(side)) == 0
    requires CancelledExactly(r.market, rest, t, ids[1..], claim)
    ensures var all := Cancelled(rest.market, r.response.quoteOut + rest.quoteOut, r.response.baseOut + rest.baseOut);
            CancelledExactly(m, all, t, ids, claim)
  {
    hide Kept, Released, Worth, BookOk;
    KeptStep(m.params, side, m.BookOf(side), m.counter, i, t, ids);
    KeptTail(m.params, Opposite(side), m.BookOf(Opposite(side)), t, ids);
    assert rest.market.traders == m.traders[t := rest.market.traders[t]];
  }

  lemma InvIsValid(m: Market)
    requires Inv(m)
    ensures m.params.Valid()
  {
  }

  lemma OtherSideIds(m: Market, side: Side, id: OrderId)
    requires Inv(m) && side == SideOf(id.seqNum)
    ensures var b := m.BookOf(Opposite(side)); forall k | 0 <= k < |b| :: b[k].id != id
  {
    var b := m.BookOf(Opposite(side));
    assert SideInv(m, Opposite(side));
    assert forall k | 0 <= k < |b| :: EntryOk(Opposite(side), b[k], m.counter);
  }

  /** An unknown id and another trader's id are passed over. */
  lemma CancelSkip(m: Market, t: TraderId, ids: seq<OrderId>, claim: bool)
    requires Inv(m) && t in m.traders && ids != []
    requires var b := m.BookOf(SideOf(ids[0].seqNum));
             forall k | 0 <= k < |b| :: b[k].id == ids[0] ==> b[k].order.trader != t
    ensures CancelIds(m, t, ids, claim) == CancelIds(m, t, ids[1..], claim)
  {
    hide Inv, ReduceOrder;
    var side := SideOf(ids[0].seqNum);
    var b := m.BookOf(side);
    if i: nat :| i < |b| && b[i].id == ids[0] {
      ReduceExact(m, t, side, i, None, false, claim);
    } else {
      ReduceMissing(m, t, ids[0], side, None, false, claim);
    }
  }

  // ---------- cancelling everything ----------

  /** A book without the orders of one trader. */
  function Without(book: Book, t: TraderId): Book {
    if book == [] then [] else (if book[0].order.trader == t then [] else [book[0]]) + Without(book[1..], t)
  }

  lemma {:induction false} OwnIdsConcat(a: Book, b: Book, t: TraderId)
    ensures OwnIds(a + b, t) == OwnIds(a, t) + OwnIds(b, t)
  {
    if a == [] {
      assert a + b == b;
    } else {
      assert (a + b)[1..] == a[1..] + b;
      OwnIdsConcat(a[1..], b, t);
    }
  }

  lemma {:induction false} OwnListed(book: Book, t: TraderId, k: nat)
    requires k < |book| && book[k].order.trader == t && book[k].order.lots > 0
    ensures book[k].id in OwnIds(book, t)
  {
    if k > 0 {
      OwnListed(book[1..], t, k - 1);
    }
  }

  lemma {:induction false} KeptAll(p: Params, side: Side, book: Book, t: TraderId, ids: seq<OrderId>)
    requires p.Valid() && forall k | 0 <= k < |book| && book[k].order.trader == t :: book[k].id in ids
    ensures Kept(book, t, ids) == Without(book, t) && Released(p, side, book, t, ids) == LockedIn(p, side, book, t)
  {
    hide Worth;
    if book != [] {
      forall k | 0 <= k < |book[1..]| && book[1..][k].order.trader == t
        ensures book[1..][k].id in ids
      {
        assert book[1..][k] == book[k + 1];
      }
      KeptAll(p, side, book[1..], t, ids);
    }
  }

  /** Cancelling all of a trader's orders removes exactly those, empties the locked balances, leaves
      every other trader and order alone, and pays out exactly what was locked if asked to. */
  lemma CancelAllExact(m: Market, t: TraderId, claim: bool)
    requires Inv(m) && t in m.traders
    ensures var r, s := CancelAll(m, t, claim), m.traders[t];
            && r.market.bids == Without(m.bids, t) && r.market.asks == Without(m.asks, t)
            && r.market.traders == m.traders[t := Freed(s, s.quoteLocked, s.baseLocked, claim)]
            && r.quoteOut == (if claim then s.quoteLocked else 0)
            && r.baseOut == (if claim then s.baseLocked else 0)
  {
    hide BookOk, Registered, CancelIds, OwnIds, Kept, Released, LockedIn, Without;
    var ids := OwnIds(m.bids, t) + OwnIds(m.asks, t);
    CancelIdsExact(m, t, ids, claim);
    OwnAreListed(m, Bid, t);
    OwnAreListed(m, Ask, t);
    KeptAll(m.params, Bid, m.bids, t, ids);
    KeptAll(m.params, Ask, m.asks, t, ids);
    assert SideInv(m, Bid) && SideInv(m, Ask);
  }

  lemma OwnAreListed(m: Market, side: Side, t: TraderId)
    requires Inv(m)
    ensures var b := m.BookOf(side); forall k | 0 <= k < |b| && b[k].order.trader == t :: b[k].id in OwnIds(b, t)
  {
    hide OwnIds;
    var b := m.BookOf(side);
    forall k | 0 <= k < |b| && b[k].order.trader == t
      ensures b[k].id in OwnIds(b, t)
    {
      EntryFacts(m, side, k);
      OwnListed(b, t, k);
    }
  }

  // ---------- cancelling up to a number or a price ----------

  /** An own order at the limit price or better: at least it for bids, at most it for asks. */
  predicate Eligible(side: Side, e: Entry, t: TraderId, limit: Option<nat>) {
    && e.order.trader == t
    && (limit.Some? && side.Bid? ==> e.id.price >= limit.value)
    && (limit.Some? && side.Ask? ==> e.id.price <= limit.value)
  }

  /** How many of the first `k` orders are eligible. */
  function EligibleBefore(side: Side, book: Book, t: TraderId, limit: Option<nat>, k: nat): (n: nat)
    requires k <= |book|
    ensures n <= k
  {
    if k == 0 then 0
    else (if Eligible(side, book[0], t, limit) then 1 else 0) + EligibleBefore(side, book[1..], t, limit, k - 1)
  }

  /** The orders a bounded cancellation is after: eligible, among the first `search`, and with fewer
      than `count` eligible ones before. */
  predicate Sought(side: Side, book: Book, t: TraderId, search: Option<nat>, count: Option<nat>, limit: Option<nat>, k: nat)
    requires k < |book|
  {
    && Eligible(side, book[k], t, limit)
    && (search.Some? ==> k < search.value)
    && (count.Some? ==> EligibleBefore(side, book, t, limit, k) < count.value)
  }

  lemma {:induction false} NotFound(side: Side, book: Book, t: TraderId, search: nat, count: nat, limit: nat, id: OrderId)
    requires forall k | 0 <= k < |book| :: book[k].id != id
    ensures id !in FoundIds(side, book, t, search, count, limit)
  {
    if book != [] && search > 0 && count > 0 {
      assert forall k | 0 <= k < |book[1..]| :: book[1..][k] == book[k + 1];
      if book[0].order.trader == t && !BetterPrice(side, limit, book[0].id.price) {
        NotFound(side, book[1..], t, search - 1, count - 1, limit, id);
      } else {
        NotFound(side, book[1..], t, search - 1, count, limit, id);
      }
    }
  }

  lemma {:induction false} FoundExactly(side: Side, book: Book, t: TraderId, search: nat, count: nat, limit: nat, k: nat)
    requires k < |book| && forall i, j | 0 <= i < j < |book| :: book[i].id != book[j].id
    ensures book[k].id in FoundIds(side, book, t, search, count, limit) <==>
            k < search && Eligible(side, book[k], t, Some(limit)) && EligibleBefore(side, book, t, Some(limit), k) < count
  {
    if search > 0 && count > 0 {
      var eligible := Eligible(side, book[0], t, Some(limit));
      var count' := if eligible then count - 1 else count;
      if k > 0 {
        assert book[1..][k - 1] == book[k];
        assert forall i, j | 0 <= i < j < |book[1..]| :: book[1..][i].id == book[i + 1].id && book[1..][j].id == book[j + 1].id;
        FoundExactly(side, book[1..], t, search - 1, count', limit, k - 1);
      } else {
        assert forall j | 0 <= j < |book[1..]| :: book[1..][j] == book[j + 1];
        NotFound(side, book[1..], t, search - 1, count', limit, book[0].id);
      }
    }
  }

  /** The default limits and numbers exclude nothing. */
  lemma SoughtAreFound(m: Market, t: TraderId, side: Side, search: Option<nat>, count: Option<nat>, limit: Option<nat>, k: nat)
    requires Inv(m) && k < |m.BookOf(side)|
    ensures var b := m.BookOf(side);
            b[k].id in UpToIds(m, t, side, search, count, limit) <==> Sought(side, b, t, search, count, limit, k)
  {
    hide Ahead, FoundIds, Eligible, EligibleBefore, Inv;
    var b := m.BookOf(side);
    EntryFacts(m, side, k);
    var last := match limit case Some(l) => l case None => if side.Ask? then U64_MAX else 0;
    FoundExactly(
      side, b, t, if search.Some? then search.value else |b|, if count.Some? then count.value else |b|, last, k);
    SameEligible(side, b, m.counter, t, limit, last, |b|);
    SameEligible(side, b, m.counter, t, limit, last, k);
  }

  lemma {:induction false} SameEligible(side: Side, book: Book, counter: nat, t: TraderId, limit: Option<nat>, last: nat, k: nat)
    requires k <= |book| && forall i | 0 <= i < |book| :: EntryOk(side, book[i], counter)
    requires last == match limit case Some(l) => l case None => if side.Ask? then U64_MAX else 0
    ensures EligibleBefore(side, book, t, limit, k) == EligibleBefore(side, book, t, Some(last), k)
    ensures forall i | 0 <= i < |book| :: Eligible(side, book[i], t, limit) == Eligible(side, book[i], t, Some(last))
  {
    if k > 0 {
      SameEligible(side, book[1..], counter, t, limit, last, k - 1);
    }
  }

  /** A bounded cancellation removes exactly the orders sought, keeps all others, and frees or pays out
      exactly what the removed ones locked. */
  ghost predicate CancelledUpTo(
    m: Market, t: TraderId, side: Side, search: Option<nat>, count: Option<nat>, limit: Option<nat>, claim: bool, r: Cancelled)
    requires m.params.Valid() && t in m.traders
  {
    var b, b' := m.BookOf(side), r.market.BookOf(side);
    && (forall k | 0 <= k < |b| :: b[k] in b' <==> !Sought(side, b, t, search, count, limit, k))
    && (forall e | e in b' :: e in b)
    && r.market.BookOf(Opposite(side)) == m.BookOf(Opposite(side))
    && t in r.market.traders && r.market.traders == m.traders[t := r.market.traders[t]]
    && LockedIn(m.params, side, b', t) <= LockedIn(m.params, side, b, t)
    && var w := LockedIn(m.params, side, b, t) - LockedIn(m.params, side, b', t);
       && ReleasedTo(m.traders[t], r.market.traders[t], side, w, claim)
       && (if side.Bid? then r.quoteOut else r.baseOut) == (if claim then w else 0)
       && (if side.Bid? then r.baseOut else r.quoteOut) == 0
  }

  lemma CancelUpToExact(m: Market, t: TraderId, side: Side, search: Option<nat>, count: Option<nat>, limit: Option<nat>, claim: bool)
    requires Inv(m) && t in m.traders
    ensures m.params.Valid()
    ensures CancelledUpTo(m, t, side, search, count, limit, claim, CancelUpTo(m, t, side, search, count, limit, claim))
  {
    hide Inv, CancelIds, UpToIds, Kept, Released, LockedIn, Sought, Eligible;
    InvIsValid(m);
    var ids, b, opp := UpToIds(m, t, side, search, count, limit), m.BookOf(side), Opposite(side);
    CancelIdsExact(m, t, ids, claim);
    ReleasedIsLocked(m.params, side, b, t, ids);
    NotOnOtherSide(m, t, side, search, count, limit);
    KeptNone(m.params, opp, m.BookOf(opp), t, ids);
    forall k | 0 <= k < |b|
      ensures b[k] in Kept(b, t, ids) <==> !Sought(side, b, t, search, count, limit, k)
    {
      KeptMembers(b, t, ids, b[k]);
      SoughtAreFound(m, t, side, search, count, limit, k);
      SoughtIsOwn(side, b, t, search, count, limit, k);
    }
    forall e | e in Kept(b, t, ids)
      ensures e in b
    {
      KeptMembers(b, t, ids, e);
    }
  }

  lemma SoughtIsOwn(side: Side, book: Book, t: TraderId, search: Option<nat>, count: Option<nat>, limit: Option<nat>, k: nat)
    requires k < |book|
    ensures Sought(side, book, t, search, count, limit, k) ==> book[k].order.trader == t
  {
  }

  lemma NotOnOtherSide(m: Market, t: TraderId, side: Side, search: Option<nat>, count: Option<nat>, limit: Option<nat>)
    requires Inv(m)
    ensures var b, ids := m.BookOf(Opposite(side)), UpToIds(m, t, side, search, count, limit);
            forall k | 0 <= k < |b| :: !Listed(b[k], t, ids)
  {
    hide FoundIds;
    var b, ids := m.BookOf(Opposite(side)), UpToIds(m, t, side, search, count, limit);
    var own := m.BookOf(side);
    forall k | 0 <= k < |b|
      ensures !Listed(b[k], t, ids)
    {
      EntryFacts(m, Opposite(side), k);
      OtherSideIds(m, Opposite(side), b[k].id);
      NotFound(
        side, own, t, if search.Some? then search.value else |own|, if count.Some? then count.value else |own|,
        match limit case Some(l) => l case None => if side.Ask? then U64_MAX else 0, b[k].id);
    }
  }
}
