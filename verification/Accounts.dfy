/** Reducing and cancelling orders, claiming and depositing funds, and collecting fees. */
module Accounts {
  import opened Quantities
  import opened OrderIds
  import opened Books
  import opened Traders
  import opened Markets
  import opened Placement

  // ---------- claiming and depositing ----------

  function Claimed(wanted: Option<nat>, free: nat): nat {
    match wanted case None => free case Some(n) => Min(n, free)
  }

  /** Pays out free lots, at most those asked for; an emptied seat may be given up. */
  function Claim(m: Market, t: TraderId, quote: Option<nat>, base: Option<nat>, evict: bool): Option<Settled>
    requires t in m.traders
  {
    if m.counter == 0 then None else
      var s := m.traders[t];
      var q, b := Claimed(quote, s.quoteFree), Claimed(base, s.baseFree);
      var s' := s.(quoteFree := s.quoteFree - q, baseFree := s.baseFree - b);
      var m' := m.WithTrader(t, s');
      Some(Settled(if s' == EMPTY && evict then m'.(traders := m'.traders - {t}) else m', Withdrawal(b, q)))
  }

  lemma ClaimKeeps(m: Market, t: TraderId, quote: Option<nat>, base: Option<nat>, evict: bool, c: Clock)
    requires Inv(m) && t in m.traders && Claim(m, t, quote, base, evict).Some?
    ensures var r := Claim(m, t, quote, base, evict).value;
            Keeps(m, r.market, c) && Balanced(m, r.market, r.response)
  {
    hide SideOk, Uncrossed, LogInv;
    var s := m.traders[t];
    var s' := s.(quoteFree := s.quoteFree - Claimed(quote, s.quoteFree), baseFree := s.baseFree - Claimed(base, s.baseFree));
    var m' := m.WithTrader(t, s');
    FreeChangeKeeps(m, t, s', c);
    if s' == EMPTY && evict {
      UnseatInv(m', t);
      UnseatKeeps(m, m', t, c);
    }
  }

  /** How much a claim pays: all that is free of a token when no amount is named, and otherwise the
      amount or all that is free, whichever is less. Nothing else changes, except that the seat goes
      when that is allowed and nothing is left on it. */
  ghost predicate PaidOut(m: Market, t: TraderId, quote: Option<nat>, base: Option<nat>, evict: bool, m': Market, r: Response)
    requires t in m.traders
  {
    var s := m.traders[t];
    var paidQuote := if quote.Some? && quote.value < s.quoteFree then quote.value else s.quoteFree;
    var paidBase := if base.Some? && base.value < s.baseFree then base.value else s.baseFree;
    var left := TraderState(s.quoteLocked, s.quoteFree - paidQuote, s.baseLocked, s.baseFree - paidBase);
    && r == NOTHING.(quoteOut := paidQuote, baseOut := paidBase)
    && m' == m.(traders := m'.traders)
    && (forall u | u != t :: u in m'.traders <==> u in m.traders)
    && (forall u | u != t && u in m.traders :: m'.traders[u] == m.traders[u])
    && (t !in m'.traders <==> evict && left.quoteLocked == left.quoteFree == left.baseLocked == left.baseFree == 0)
    && (t in m'.traders ==> m'.traders[t] == left)
  }

  lemma ClaimExact(m: Market, t: TraderId, quote: Option<nat>, base: Option<nat>, evict: bool)
    requires t in m.traders
    ensures var r := Claim(m, t, quote, base, evict);
            && (r.Some? <==> m.counter > 0)
            && (r.Some? ==> PaidOut(m, t, quote, base, evict, r.value.market, r.value.response))
  {
  }

  lemma UnseatKeeps(m: Market, m': Market, t: TraderId, c: Clock)
    requires Keeps(m, m', c) && t in m'.traders && m'.traders[t] == EMPTY
    ensures Keeps(m, m'.(traders := m'.traders - {t}), c)
  {
    hide SideOk, UncrossedBooks, Agrees;
    UnseatInv(m', t);
  }

  function Deposit(m: Market, t: TraderId, quote: nat, base: nat): Option<Settled> {
    match Register(m, t)
    case None => None
    case Some(m') =>
      Some(Settled(m'.WithTrader(t, m'.traders[t].DepositFree(Ask, base).DepositFree(Bid, quote)),
                   NOTHING.(quoteIn := quote, baseIn := base)))
  }

  function FreeOf(m: Market, t: TraderId, side: Side): nat {
    if t in m.traders then m.traders[t].Free(side) else 0
  }

  /** Nothing but the free balance of `t`, or its seat, changed. */
  ghost predicate OnlyFree(m: Market, m': Market, t: TraderId) {
    && m' == m.(traders := m'.traders)
    && t in m'.traders
    && (forall u | u != t :: u in m'.traders <==> u in m.traders)
    && (forall u | u != t && u in m.traders :: u in m'.traders && m'.traders[u] == m.traders[u])
    && (forall side :: m'.traders[t].Locked(side) == if t in m.traders then m.traders[t].Locked(side) else 0)
  }

  lemma DepositCredits(m: Market, t: TraderId, quote: nat, base: nat)
    requires Deposit(m, t, quote, base).Some?
    ensures var d := Deposit(m, t, quote, base).value;
            && d.response == NOTHING.(quoteIn := quote, baseIn := base)
            && OnlyFree(m, d.market, t)
            && FreeOf(d.market, t, Bid) == FreeOf(m, t, Bid) + quote
            && FreeOf(d.market, t, Ask) == FreeOf(m, t, Ask) + base
  {
  }

  /** A deposit seats the trader if need be and adds exactly the deposited lots to its free balance;
      every other balance, the books and the log stay. */
  lemma DepositKeeps(m: Market, t: TraderId, quote: nat, base: nat, c: Clock)
    requires Inv(m) && Deposit(m, t, quote, base).Some?
    ensures var r := Deposit(m, t, quote, base).value;
            && Keeps(m, r.market, c) && Balanced(m, r.market, r.response)
            && OnlyFree(m, r.market, t)
            && FreeOf(r.market, t, Bid) == FreeOf(m, t, Bid) + quote
            && FreeOf(r.market, t, Ask) == FreeOf(m, t, Ask) + base
  {
    hide SideOk, UncrossedBooks, Agrees, OnlyFree, FreeOf, FreshIds;
    DepositCredits(m, t, quote, base);
    RegisterInv(m, t);
    var m' := Register(m, t).value;
    FreeChangeKeeps(m', t, m'.traders[t].DepositFree(Ask, base).DepositFree(Bid, quote), c);
    assert Funds(m', Bid) == Funds(m, Bid) && Funds(m', Ask) == Funds(m, Ask);
  }

  function CollectFees(m: Market): Settled {
    Settled(m.(collected := m.collected + m.unclaimed, unclaimed := 0).Record([Fee(m.unclaimed)]),
            Withdrawal(0, m.unclaimed))
  }

  lemma CollectFeesKeeps(m: Market, c: Clock)
    requires Inv(m)
    ensures Keeps(m, CollectFees(m).market, c) && Balanced(m, CollectFees(m).market, CollectFees(m).response)
    ensures CollectFees(m).response == NOTHING.(quoteOut := m.unclaimed)
    ensures CollectFees(m).market.unclaimed == 0 && CollectFees(m).market.collected == m.collected + m.unclaimed
    ensures CollectFees(m).market.traders == m.traders && CollectFees(m).market.bids == m.bids && CollectFees(m).market.asks == m.asks
  {
    hide BookOk, Funded, Registered, UncrossedBooks, Agrees;
    var m' := m.(collected := m.collected + m.unclaimed, unclaimed := 0);
    assert SideInv(m', Bid) && SideInv(m', Ask);
    QuietRecordKeeps(m', Fee(m.unclaimed), c);
  }

  // ---------- reducing an order ----------

  /** Takes up to `size` lots (all, if not given) out of one of the trader's own orders. A missing
      order is no error; another trader's order is. */
  function ReduceOrder(m: Market, t: TraderId, id: OrderId, side: Side, size: Option<nat>, expired: bool, claim: bool): Option<Settled>
    requires Inv(m) && t in m.traders
  {
    match IndexOf(m.BookOf(side), id)
    case None => Some(Settled(m, NOTHING))
    case Some(i) =>
      var e := m.BookOf(side)[i];
      if e.order.trader != t then None else
        var lots := if expired then e.order.lots else Claimed(size, e.order.lots);
        var m' := Take(m, side, i, lots, if expired then ByExpiry else ByReduce);
        if !claim then Some(Settled(m', NOTHING)) else
          var w := Worth(m.params, side, e.id.price, lots);
          match side
          case Bid => Claim(m', t, Some(w), Some(0), false)
          case Ask => Claim(m', t, Some(0), Some(w), false)
  }

  lemma ReduceOrderKeeps(m: Market, t: TraderId, id: OrderId, side: Side, size: Option<nat>, expired: bool, claim: bool, c: Clock)
    requires Inv(m) && t in m.traders && ReduceOrder(m, t, id, side, size, expired, claim).Some?
    ensures var r := ReduceOrder(m, t, id, side, size, expired, claim).value;
            Keeps(m, r.market, c) && Balanced(m, r.market, r.response) && r.market.traders.Keys == m.traders.Keys
  {
    hide SideOk, Uncrossed, LogInv, Take, Worth, Funds;
    var found := IndexOf(m.BookOf(side), id);
    if found.Some? {
      var i, e := found.value, m.BookOf(side)[found.value];
      var lots := if expired then e.order.lots else Claimed(size, e.order.lots);
      var kind := if expired then ByExpiry else ByReduce;
      TakeReturns(m, side, i, lots, kind, c);
      if claim {
        var w := Worth(m.params, side, e.id.price, lots);
        ClaimKeeps(Take(m, side, i, lots, kind), t, Some(if side.Bid? then w else 0), Some(if side.Bid? then 0 else w), false, c);
      }
    } else {
      assert Keeps(m, m, c);
    }
  }

  // ---------- cancelling orders ----------

  datatype Cancelled = Cancelled(market: Market, quoteOut: nat, baseOut: nat)

  /** Cancels orders one by one, skipping those that are not the trader's. */
  function CancelIds(m: Market, t: TraderId, ids: seq<OrderId>, claim: bool): (r: Cancelled)
    requires Inv(m) && t in m.traders
    ensures Inv(r.market)
    decreases ids
  {
    if ids == [] then Cancelled(m, 0, 0) else
      match ReduceOrder(m, t, ids[0], SideOf(ids[0].seqNum), None, false, claim)
      case None => CancelIds(m, t, ids[1..], claim)
      case Some(r) =>
        ReduceOrderKeeps(m, t, ids[0], SideOf(ids[0].seqNum), None, false, claim, Clock(0, 0));
        var rest := CancelIds(r.market, t, ids[1..], claim);
        Cancelled(rest.market, r.response.quoteOut + rest.quoteOut, r.response.baseOut + rest.baseOut)
  }

  lemma {:induction false} CancelIdsKeeps(m: Market, t: TraderId, ids: seq<OrderId>, claim: bool, c: Clock)
    requires Inv(m) && t in m.traders
    ensures var r := CancelIds(m, t, ids, claim);
            Keeps(m, r.market, c) && Balanced(m, r.market, Withdrawal(r.baseOut, r.quoteOut))
    decreases ids
  {
    hide Inv, Uncrossed, LogInv, ReduceOrder, Funds;
    if ids == [] {
      assert Keeps(m, m, c);
    } else {
      var r := ReduceOrder(m, t, ids[0], SideOf(ids[0].seqNum), None, false, claim);
      if r.None? {
        CancelIdsKeeps(m, t, ids[1..], claim, c);
      } else {
        ReduceOrderKeeps(m, t, ids[0], SideOf(ids[0].seqNum), None, false, claim, c);
        ReduceOrderPaysNothingIn(m, t, ids[0], SideOf(ids[0].seqNum), claim);
        CancelIdsKeeps(r.value.market, t, ids[1..], claim, c);
      }
    }
  }

  lemma ReduceOrderPaysNothingIn(m: Market, t: TraderId, id: OrderId, side: Side, claim: bool)
    requires Inv(m) && t in m.traders && ReduceOrder(m, t, id, side, None, false, claim).Some?
    ensures var r := ReduceOrder(m, t, id, side, None, false, claim).value.response;
            r == Withdrawal(r.baseOut, r.quoteOut)
  {
  }

  /** The ids of a trader's orders in a book, best first. */
  function OwnIds(book: Book, t: TraderId): seq<OrderId> {
    if book == [] then []
    else (if book[0].order.trader == t && book[0].order.lots > 0 then [book[0].id] else []) + OwnIds(book[1..], t)
  }

  function CancelAll(m: Market, t: TraderId, claim: bool): Cancelled
    requires Inv(m) && t in m.traders
  {
    CancelIds(m, t, OwnIds(m.bids, t) + OwnIds(m.asks, t), claim)
  }

  /** The ids that a bounded search finds: among the first `search` orders, the trader's own at
      `limit` or better, at most `count` of them. */
  function FoundIds(side: Side, book: Book, t: TraderId, search: nat, count: nat, limit: nat): seq<OrderId> {
    if book == [] || search == 0 || count == 0 then []
    else if book[0].order.trader == t && !BetterPrice(side, limit, book[0].id.price) then
      [book[0].id] + FoundIds(side, book[1..], t, search - 1, count - 1, limit)
    else FoundIds(side, book[1..], t, search - 1, count, limit)
  }

  function UpToIds(m: Market, t: TraderId, side: Side, search: Option<nat>, count: Option<nat>, limit: Option<nat>): seq<OrderId> {
    var book := m.BookOf(side);
    FoundIds(
      side, book, t,
      if search.Some? then search.value else |book|,
      if count.Some? then count.value else |book|,
      match limit case Some(l) => l case None => if side.Ask? then U64_MAX else 0)
  }

  function CancelUpTo(m: Market, t: TraderId, side: Side, search: Option<nat>, count: Option<nat>, limit: Option<nat>, claim: bool): Cancelled
    requires Inv(m) && t in m.traders
  {
    CancelIds(m, t, UpToIds(m, t, side, search, count, limit), claim)
  }
}
