/** The matching engine as it runs: an object whose fields the instructions update in place. Each
    method is proved to compute what the corresponding function on market values says. When a
    method returns `None` the transaction is rolled back, so nothing is promised of the fields. */
module Engine {
  import opened Quantities
  import opened OrderIds
  import opened Books
  import opened Traders
  import opened Markets
  import opened Matching
  import opened Packets
  import opened Placement
  import opened Outcomes
  import opened Accounts
  import opened Cancels
  import opened Runs

  /** Matching one more resting order is taking from the top of the book and matching the rest. */
  lemma MatchStep(m: Market, taker: Option<TraderId>, c: Clock, f: Inflight)
    requires Inv(m) && f.InProgress() && m.BookOf(Opposite(f.side)) != []
    requires f.Crosses(m.BookOf(Opposite(f.side))[0].id.price)
    ensures var opp, e := Opposite(f.side), m.BookOf(Opposite(f.side))[0];
            && e.id.price > 0 && e.order.lots > 0
            && match React(m.params, e, taker, c, f)
               case None => MatchFrom(m, taker, c, f) == None
               case Some(r) =>
                 && r.flight.side == f.side
                 && TakeEnabled(m.BookOf(opp), 0, r.take.lots, r.take.kind)
                 && Inv(Take(m, opp, 0, r.take.lots, r.take.kind))
                 && |Take(m, opp, 0, r.take.lots, r.take.kind).BookOf(opp)| + (if r.flight.stop then 0 else 1) <= |m.BookOf(opp)|
                 && MatchFrom(m, taker, c, f) == MatchFrom(Take(m, opp, 0, r.take.lots, r.take.kind), taker, c, r.flight)
  {
    hide SideOk, React, TakeState, TakeEvents, Worth;
    var opp, book, p := Opposite(f.side), m.BookOf(Opposite(f.side)), m.params;
    InvPositive(m, opp);
    var r := React(p, book[0], taker, c, f);
    if r.Some? {
      ReactTreats(p, book[0], taker, c, f);
      var take := r.value.take;
      TakeInv(m, opp, 0, take.lots, take.kind);
      var m' := Take(m, opp, 0, take.lots, take.kind);
      InvPositive(m', opp);
      WalkTreats(p, book, taker, c, f);
      WalkTreats(p, m'.BookOf(opp), taker, c, r.value.flight);
      if take.lots == book[0].order.lots {
        assert m'.BookOf(opp) == book[1..];
        var w := Walk(p, book[1..], taker, c, r.value.flight);
        if w.Some? {
          assert ([take] + w.value.takes)[1..] == w.value.takes;
        }
      } else {
        assert [take][1..] == [];
      }
    }
  }

  lemma MatchDone(m: Market, taker: Option<TraderId>, c: Clock, f: Inflight)
    requires Inv(m)
    requires var b := m.BookOf(Opposite(f.side)); !f.InProgress() || b == [] || !f.Crosses(b[0].id.price)
    ensures MatchFrom(m, taker, c, f) == Some(Outcome(m, f))
  {
  }

  /** Reducing the order at the top of a book, its owner being known, is a take from the top. */
  lemma ReduceHead(m: Market, side: Side, size: Option<nat>, expired: bool)
    requires Inv(m) && m.BookOf(side) != []
    ensures var e := m.BookOf(side)[0];
            var lots := if expired then e.order.lots else Claimed(size, e.order.lots);
            && e.order.trader in m.traders
            && ReduceOrder(m, e.order.trader, e.id, side, size, expired, false)
               == Some(Settled(Take(m, side, 0, lots, if expired then ByExpiry else ByReduce), NOTHING))
  {
    LockedCovers(m, side, 0, 0);
  }

  class FifoMarket {
    const params: Params
    var counter: nat
    var collected: nat
    var unclaimed: nat
    var bids: Book
    var asks: Book
    var traders: TraderMap
    var log: seq<Event>

    function State(): Market
      reads this
    {
      Market(params, counter, collected, unclaimed, bids, asks, traders, log)
    }

    ghost predicate Valid()
      reads this
    {
      Inv(State())
    }

    constructor (p: Params)
      requires p.Valid()
      ensures Valid() && State() == Fresh(p)
    {
      params := p;
      counter, collected, unclaimed := 1, 0, 0;
      bids, asks, traders, log := [], [], map[], [];
      new;
      FreshIsGood(p, Clock(0, 0));
    }

    /** Undoes a failed transaction. */
    method Restore(m: Market)
      requires m.params == params
      modifies this
      ensures State() == m
    {
      counter, collected, unclaimed := m.counter, m.collected, m.unclaimed;
      bids, asks, traders, log := m.bids, m.asks, m.traders, m.log;
    }

    function GetBook(side: Side): Book
      reads this
    {
      match side case Bid => bids case Ask => asks
    }

    method SetBook(side: Side, book: Book)
      modifies this`bids, this`asks
      ensures State() == old(State()).WithBook(side, book)
    {
      match side {
        case Bid => bids := book;
        case Ask => asks := book;
      }
    }

    method GetOrRegisterTrader(t: TraderId) returns (ok: bool)
      requires Valid()
      modifies this`traders
      ensures ok <==> old(Register(State(), t)).Some?
      ensures ok ==> Valid() && State() == old(Register(State(), t)).value && t in traders
      ensures !ok ==> State() == old(State())
    {
      if t !in traders {
        if |traders| >= params.seatCapacity {
          return false;
        }
        RegisterInv(State(), t);
        traders := traders[t := EMPTY];
      }
      return true;
    }

    method ClaimFunds(t: TraderId, quote: Option<nat>, base: Option<nat>, evict: bool) returns (r: Option<Response>)
      requires Valid() && t in traders
      modifies this`traders
      ensures r.Some? <==> old(Claim(State(), t, quote, base, evict)).Some?
      ensures r.Some? ==> Valid() && Settled(State(), r.value) == old(Claim(State(), t, quote, base, evict)).value
      ensures r.Some? ==> PaidOut(old(State()), t, quote, base, evict, State(), r.value)
      ensures r.None? ==> State() == old(State())
    {
      hide SideOk, Uncrossed, LogInv, Funds, PaidOut;
      ClaimExact(State(), t, quote, base, evict);
      if counter == 0 {
        return None;
      }
      ghost var m := State();
      var s := traders[t];
      var q := Min(if quote.Some? then quote.value else s.quoteFree, s.quoteFree);
      var b := Min(if base.Some? then base.value else s.baseFree, s.baseFree);
      s := s.(quoteFree := s.quoteFree - q);
      s := s.(baseFree := s.baseFree - b);
      traders := traders[t := s];
      if s == EMPTY && evict {
        traders := traders - {t};
      }
      ClaimKeeps(m, t, quote, base, evict, Clock(0, 0));
      return Some(Withdrawal(b, q));
    }

    /** Seats the trader if need be and credits free funds. */
    method DepositFunds(t: TraderId, quote: nat, base: nat) returns (ok: bool)
      requires Valid()
      modifies this`traders
      ensures ok <==> old(Deposit(State(), t, quote, base)).Some?
      ensures ok ==> Valid() && State() == old(Deposit(State(), t, quote, base)).value.market
      ensures !ok ==> State() == old(State())
    {
      hide SideOk, Uncrossed, LogInv, Funds;
      ghost var m := State();
      var seated := GetOrRegisterTrader(t);
      if !seated {
        return false;
      }
      DepositKeeps(m, t, quote, base, Clock(0, 0));
      traders := traders[t := traders[t].DepositFree(Ask, base).DepositFree(Bid, quote)];
      return true;
    }

    method DebitFunds(t: TraderId, quote: nat, base: nat)
      requires Valid() && t in traders && quote <= traders[t].quoteFree && base <= traders[t].baseFree
      modifies this`traders
      ensures Valid() && State() == old(State().WithTrader(t, traders[t].UseFree(Ask, base).UseFree(Bid, quote)))
    {
      hide SideOk;
      FreeChangeInv(State(), t, traders[t].UseFree(Ask, base).UseFree(Bid, quote));
      traders := traders[t := traders[t].UseFree(Ask, base).UseFree(Bid, quote)];
    }

    method CollectAllFees() returns (fees: nat)
      requires Valid()
      modifies this`collected, this`unclaimed, this`log
      ensures Valid() && State() == CollectFees(old(State())).market && fees == old(unclaimed)
    {
      hide Inv, Uncrossed, LogInv, Funds;
      CollectFeesKeeps(State(), Clock(0, 0));
      fees := unclaimed;
      collected := collected + unclaimed;
      unclaimed := 0;
      log := log + [Fee(fees)];
    }

    /** Takes lots from a resting order, or all of it, reports that, and unlocks what backed them. */
    method TakeFromOrder(side: Side, i: nat, lots: nat, remove: bool, expired: bool) returns (quote: nat, base: nat)
      requires Valid() && TakeEnabled(GetBook(side), i, lots, if expired then ByExpiry else ByReduce)
      requires remove == (lots == GetBook(side)[i].order.lots)
      modifies this
      ensures Valid() && State() == Take(old(State()), side, i, lots, if expired then ByExpiry else ByReduce)
      ensures var w := Worth(params, side, old(GetBook(side)[i].id.price), lots);
              quote == (if side.Bid? then w else 0) && base == (if side.Bid? then 0 else w)
    {
      hide SideOk, QuoteLots;
      ghost var m := State();
      var book := GetBook(side);
      var id, order := book[i].id, book[i].order;
      var t, remaining := order.trader, 0;
      LockedCovers(m, side, i, lots);
      TakeInv(m, side, i, lots, if expired then ByExpiry else ByReduce);
      if remove {
        SetBook(side, book[..i] + book[i + 1..]);
      } else {
        remaining := order.lots - lots;
        SetBook(side, book[i := book[i].(order := order.(lots := remaining))]);
      }
      if expired {
        log := log + [ExpiredOrder(t, id.seqNum, id.price, lots)];
      } else {
        log := log + [Reduce(id.seqNum, id.price, lots, remaining)];
      }
      quote, base := 0, 0;
      match side {
        case Bid =>
          quote := QuoteLots(params, id.price, lots);
          traders := traders[t := traders[t].Unlock(Bid, quote)];
        case Ask =>
          base := lots;
          traders := traders[t := traders[t].Unlock(Ask, base)];
      }
    }

    method ReduceOrderInner(t: TraderId, id: OrderId, side: Side, size: Option<nat>, expired: bool, claim: bool)
      returns (r: Option<Response>)
      requires Valid() && t in traders
      modifies this
      ensures r.Some? <==> old(ReduceOrder(State(), t, id, side, size, expired, claim)).Some?
      ensures r.Some? ==> Valid() && Settled(State(), r.value) == old(ReduceOrder(State(), t, id, side, size, expired, claim)).value
      ensures r.None? ==> State() == old(State())
    {
      hide SideOk, Uncrossed, LogInv, Funds, Worth, PaidOut, Take, Claim;
      ghost var m := State();
      var book := GetBook(side);
      var found := IndexOf(book, id);
      if found.None? {
        return Some(NOTHING);
      }
      var i := found.value;
      var order := book[i].order;
      var lots := if size.Some? then Min(size.value, order.lots) else order.lots;
      if order.trader != t {
        return None;
      }
      var remove := lots == order.lots;
      if expired {
        remove, lots := true, order.lots;
      }
      TakeShape(m, side, i, lots, if expired then ByExpiry else ByReduce);
      var quote, base := TakeFromOrder(side, i, lots, remove, expired);
      if claim {
        NonemptyBookCounter(m, side);
        ClaimExact(State(), t, Some(quote), Some(base), false);
        r := ClaimFunds(t, Some(quote), Some(base), false);
      } else {
        r := Some(NOTHING);
      }
    }

    /** Removes expired orders from the top of the opposite book while the price crosses them. */
    method CheckForCrossing(side: Side, price: nat, c: Clock) returns (best: Option<nat>)
      requires Valid()
      modifies this
      ensures Valid() && CrossChecked(State(), best) == old(CheckForCross(State(), side, price, c))
    {
      while true
        invariant Valid() && CheckForCross(State(), side, price, c) == old(CheckForCross(State(), side, price, c))
        decreases |GetBook(Opposite(side))|
      {
        var book := GetBook(Opposite(side));
        CrossCheckDone(State(), side, price, c);
        if book == [] {
          return None;
        }
        var e := book[0];
        if !CrossesAt(side, price, e.id.price) {
          return None;
        } else if e.order.lots > 0 {
          if Expired(e.order, c) {
            CrossCheckStep(State(), side, price, c);
            ReduceHead(State(), Opposite(side), None, true);
            var _ := ReduceOrderInner(e.order.trader, e.id, Opposite(side), None, true, false);
          } else {
            return Some(e.id.price);
          }
        } else {
          InvPositive(State(), Opposite(side));
          assert false;
        }
      }
    }

    /** Matches an order against the opposite book until it is done. */
    method MatchInflight(f0: Inflight, taker: Option<TraderId>, c: Clock) returns (r: Option<Inflight>)
      requires Valid() && f0.matchedBase == 0 && f0.matchedAdj == 0 && !f0.stop
      modifies this
      ensures r.Some? <==> old(MatchOrder(State(), taker, c, f0)).Some?
      ensures r.Some? ==> Valid() && Outcome(State(), r.value) == old(MatchOrder(State(), taker, c, f0)).value
      ensures r.Some? ==> FillsAsLimited(f0.side, f0.limit, taker, old(log), log)
    {
      hide SideOk, Uncrossed, LogInv, Walk, TakeHeads, AdjustedLots, QuoteLots, React, Take, MatchFrom, FillsAsLimited;
      ghost var m0 := State();
      MatchFills(m0, taker, c, f0);
      var f, total, opp := f0, 0, Opposite(f0.side);
      while f.InProgress()
        invariant Valid() && f.side == f0.side && total == f.matchedAdj
        invariant MatchFrom(State(), taker, c, f) == MatchFrom(m0, taker, c, f0)
        decreases |GetBook(opp)|, if f.stop then 0 else 1
      {
        var book := GetBook(opp);
        if book == [] {
          break;
        }
        var e := book[0];
        if !f.Crosses(e.id.price) {
          break;
        }
        MatchStep(State(), taker, c, f);
        if e.order.lots == 0 {
          assert false;
        }
        if Expired(e.order, c) {
          ReactExpired(params, e, taker, c, f);
          ReduceHead(State(), opp, None, true);
          var _ := ReduceOrderInner(e.order.trader, e.id, opp, None, true, false);
          f := f.(matchLimit := f.matchLimit - 1);
        } else if taker == Some(e.order.trader) {
          var met := MeetOwnHead(f, taker, c);
          if met.None? {
            return None;
          }
          f := met.value;
        } else {
          f := FillHead(f, taker, c);
          total := f.matchedAdj;
        }
      }
      MatchDone(State(), taker, c, f);
      f := f.(quoteFees := RoundUp(params, ComputeFee(params, total)) / params.lotsPerUnit);
      FeesInv(State(), unclaimed + f.quoteFees);
      unclaimed := unclaimed + f.quoteFees;
      return Some(f);
    }

    /** Meets the taker's own order at the top of the opposite book. */
    method MeetOwnHead(f: Inflight, ghost taker: Option<TraderId>, ghost c: Clock) returns (g: Option<Inflight>)
      requires Valid() && f.InProgress() && GetBook(Opposite(f.side)) != []
      requires !Expired(GetBook(Opposite(f.side))[0].order, c) && taker == Some(GetBook(Opposite(f.side))[0].order.trader)
      modifies this
      ensures Valid()
      ensures old(GetBook(Opposite(f.side))[0].id.price) > 0
      ensures var r := React(params, old(GetBook(Opposite(f.side))[0]), taker, c, f);
              && (g.Some? <==> r.Some?)
              && (g.Some? ==>
                    && g.value == r.value.flight && g.value.matchedAdj == f.matchedAdj && g.value.side == f.side
                    && TakeEnabled(old(GetBook(Opposite(f.side))), 0, r.value.take.lots, r.value.take.kind)
                    && State() == Take(old(State()), Opposite(f.side), 0, r.value.take.lots, r.value.take.kind))
    {
      hide SideOk, Uncrossed, LogInv, AdjustedLots, QuoteLots, React, Take;
      var opp := Opposite(f.side);
      var e := GetBook(opp)[0];
      InvPositive(State(), opp);
      ReactOwn(params, e, taker, c, f);
      match f.selfTrade {
        case Abort =>
          return None;
        case CancelProvide =>
          ReduceHead(State(), opp, None, false);
          var _ := ReduceOrderInner(e.order.trader, e.id, opp, None, false, false);
          return Some(f.(matchLimit := f.matchLimit - 1));
        case DecrementTake =>
          var lots := Min(Min(f.baseBudget, f.adjBudget / PriceUnit(params, e.id.price)), e.order.lots);
          ReduceHead(State(), opp, Some(lots), false);
          var _ := ReduceOrderInner(e.order.trader, e.id, opp, Some(lots), false, false);
          return Some(f.(baseBudget := SaturatingSub(f.baseBudget, lots),
                         adjBudget := SaturatingSub(f.adjBudget, AdjustedLots(params, e.id.price, lots)),
                         matchLimit := f.matchLimit - 1,
                         stop := lots < e.order.lots));
      }
    }

    /** Fills the top order of the opposite book, whole or as far as the budgets go. */
    method FillHead(f: Inflight, ghost taker: Option<TraderId>, ghost c: Clock) returns (g: Inflight)
      requires Valid() && f.InProgress() && GetBook(Opposite(f.side)) != []
      requires !Expired(GetBook(Opposite(f.side))[0].order, c) && taker != Some(GetBook(Opposite(f.side))[0].order.trader)
      modifies this
      ensures Valid()
      ensures old(GetBook(Opposite(f.side))[0].id.price) > 0
      ensures var r := React(params, old(GetBook(Opposite(f.side))[0]), taker, c, f);
              && r.Some? && g == r.value.flight
              && TakeEnabled(old(GetBook(Opposite(f.side))), 0, r.value.take.lots, r.value.take.kind)
              && State() == Take(old(State()), Opposite(f.side), 0, r.value.take.lots, r.value.take.kind)
    {
      hide SideOk, AdjustedLots, React, Take;
      var e := GetBook(Opposite(f.side))[0];
      InvPositive(State(), Opposite(f.side));
      ReactFill(params, e, taker, c, f);
      var lots := e.order.lots;
      g := f;
      if !(lots <= f.baseBudget && AdjustedLots(params, e.id.price, lots) <= f.adjBudget) {
        lots := Min(f.baseBudget, f.adjBudget / PriceUnit(params, e.id.price));
        g := g.(stop := true);
      }
      g := g.ProcessMatch(AdjustedLots(params, e.id.price, lots), lots);
      ExchangeWithMaker(Opposite(f.side), lots);
    }

    /** Takes lots from the top order of a book and settles them with its owner. */
    method ExchangeWithMaker(side: Side, lots: nat)
      requires Valid() && GetBook(side) != [] && lots <= GetBook(side)[0].order.lots
      modifies this
      ensures Valid() && State() == Take(old(State()), side, 0, lots, ByFill)
    {
      hide SideOk, AdjustedLots, QuoteLots;
      ghost var m := State();
      var book := GetBook(side);
      var e := book[0];
      var t := e.order.trader;
      TakeInv(m, side, 0, lots, ByFill);
      LockedCovers(m, side, 0, lots);
      QuoteLotsLinear(params, e.id.price, lots);
      DivOfProduct(QuoteLots(params, e.id.price, lots), params.lotsPerUnit);
      var quote := AdjustedLots(params, e.id.price, lots) / params.lotsPerUnit;
      var remaining := e.order.lots - lots;
      if remaining == 0 {
        SetBook(side, book[1..]);
      } else {
        SetBook(side, book[0 := e.(order := e.order.(lots := remaining))]);
      }
      if lots != 0 {
        log := log + [Fill(t, e.id.seqNum, e.id.price, lots, remaining)];
      }
      match side {
        case Ask => traders := traders[t := traders[t].Matched(Ask, lots, quote)];
        case Bid => traders := traders[t := traders[t].Matched(Bid, quote, lots)];
      }
      assert State().BookOf(side) == Shrink(book, 0, lots);
      assert log == m.log + TakeEvents(e, lots, ByFill);
    }

    /** Evicts the worst order of a book for a better-priced one. */
    method EvictLeastAggressive(side: Side, price: nat) returns (evicted: bool)
      requires Valid() && |GetBook(side)| >= params.Capacity(side)
      modifies this
      ensures evicted <==> old(MakeRoom(State(), side, price)).Some?
      ensures evicted ==> Valid() && State() == old(MakeRoom(State(), side, price)).value
      ensures !evicted ==> State() == old(State())
    {
      hide SideOk, QuoteLots;
      ghost var m := State();
      var book := GetBook(side);
      if book == [] {
        return false;
      }
      var last := |book| - 1;
      var id, order := book[last].id, book[last].order;
      if !BetterPrice(side, price, id.price) {
        return false;
      }
      TakeInv(m, side, last, order.lots, ByEviction);
      LockedCovers(m, side, last, order.lots);
      SetBook(side, book[..last] + book[last + 1..]);
      log := log + [Evict(order.trader, id.seqNum, id.price, order.lots)];
      var worth := match side case Bid => QuoteLots(params, id.price, order.lots) case Ask => order.lots;
      traders := traders[order.trader := traders[order.trader].Unlock(side, worth)];
      return true;
    }

    /** Rests an order, evicting the worst one if the book is full, and locks its worth. */
    method PostResting(trader: TraderId, packet: OrderPacket, price: U64, lots: nat, r0: Response)
      returns (posted: Option<(OrderId, Response)>)
      requires Valid() && trader in traders && price > 0 && lots > 0 && 0 < counter < LAST_COUNTER
      modifies this
      ensures posted.Some? <==> old(TryPost(State(), trader, packet, price, lots, false, r0)).Some?
      ensures posted.Some? ==> Valid()
      ensures posted.Some? ==> Rested(State(), Some(posted.value.0), posted.value.1)
                               == old(TryPost(State(), trader, packet, price, lots, false, r0)).value
      ensures posted.Some? ==>
                var side := packet.side;
                && posted.value.0 == OrderId(price, SeqNum(side, old(counter)))
                && RestsAs(old(GetBook(side)), params.Capacity(side), GetBook(side),
                           Entry(posted.value.0, RestingOrder(trader, packet, lots)))
    {
      hide SideOk, Uncrossed, LogInv, Funds, Take, Post, PostEnabled, BetterPrice, RestsAs, RestingOrder;
      PostedRests(State(), trader, packet, price, lots, r0);
      var side := packet.side;
      ghost var m := State();
      if |GetBook(side)| >= params.Capacity(side) {
        var evicted := EvictLeastAggressive(side, price);
        if !evicted {
          return None;
        }
      }
      MakeRoomKeeps(m, side, price, Clock(0, 0));
      NewEntryFits(State(), side, trader, price, lots, packet);
      var id := OrderId(price, SeqNum(side, counter));
      var e := Entry(id, Order(trader, lots, OrZero(packet.lastValidSlot), OrZero(packet.lastValidTime)));
      var worth, used := InsertResting(side, e, packet.clientId);
      return Some((id, r0.Post(side, worth).UseFree(side, used)));
    }

    /** Adds an order to a book with room for it, locks its worth and records it. */
    method InsertResting(side: Side, e: Entry, clientId: nat) returns (worth: nat, used: nat)
      requires Valid() && PostEnabled(State(), side, e)
      modifies this
      ensures Valid() && State() == Post(old(State()), side, e, clientId)
      ensures worth == Worth(params, side, e.id.price, e.order.lots)
      ensures used == Min(worth, old(traders)[e.order.trader].Free(side))
    {
      hide SideOk, QuoteLots, EntryOk, Insert;
      ghost var m := State();
      var t, k := e.order.trader, e.id.seqNum;
      PostInv(m, side, e, clientId);
      SetBook(side, Insert(GetBook(side), e));
      worth := match side case Bid => QuoteLots(params, e.id.price, e.order.lots) case Ask => e.order.lots;
      used := Min(worth, traders[t].Free(side));
      traders := traders[t := traders[t].UseFree(side, used).Lock(side, worth)];
      log := log + [Place(k, clientId, e.id.price, e.order.lots)];
      if e.order.lastValidSlot != 0 || e.order.lastValidTime != 0 {
        log := log + [TimeInForce(k, e.order.lastValidSlot, e.order.lastValidTime)];
      }
      counter := counter + 1;
      assert log == m.log + PostEvents(e, clientId);
    }

    /** Whether a limit remainder would cross the best live order of the opposite book. */
    method FindCross(side: Side, price: U64, c: Clock) returns (crosses: bool)
      ensures crosses == LimitCrosses(State(), side, price, c)
    {
      var book, i := GetBook(Opposite(side)), 0;
      assert book[0..] == book;
      while i < |book| && (Expired(book[i].order, c) || book[i].order.lots == 0)
        invariant i <= |book| && BestLive(book[i..], c) == BestLive(book, c)
      {
        assert book[i..][1..] == book[i + 1..];
        i := i + 1;
      }
      match side {
        case Bid =>
          var best := if i < |book| then book[i].id.price else U64_MAX;
          return price >= best;
        case Ask =>
          var best := if i < |book| then book[i].id.price else 0;
          return price <= best;
      }
    }

    /** Matches a limit or immediate order and records its fill summary. */
    method ExecuteOrder(packet: OrderPacket, price: U64, taker: Option<TraderId>, c: Clock)
      returns (done: Option<(nat, Response)>)
      requires Valid() && !packet.PostOnly?
      modifies this
      ensures done.Some? <==> old(Execute(State(), packet, price, taker, c)).Some?
      ensures done.Some? ==> Valid()
      ensures done.Some? ==> var e := old(Execute(State(), packet, price, taker, c)).value;
                             State() == e.market && done.value == (e.lots, e.response)
    {
      hide SideOk, Uncrossed, LogInv, Funds, MatchOrder, AdjustedBudget, RoundUp, RoundDown, TakerFee;
      var side := packet.side;
      ghost var m := State();
      var budget := AdjustedBudget(params, side, packet.QuoteBudget());
      if budget.None? {
        return None;
      }
      var f0 := NewInflight(side, packet, price, budget.value);
      var matched := MatchInflight(f0, taker, c);
      if matched.None? {
        return None;
      }
      var f := matched.value;
      MatchedFacts(m, taker, c, f0);
      ExecuteKeeps(m, packet, price, taker, c);
      var quote, response;
      match side {
        case Bid =>
          quote := RoundUp(params, f.matchedAdj) / params.lotsPerUnit + f.quoteFees;
          response := FromBuy(quote, f.matchedBase);
        case Ask =>
          quote := RoundDown(params, f.matchedAdj) / params.lotsPerUnit - f.quoteFees;
          response := FromSell(f.matchedBase, quote);
      }
      log := log + [FillSummary(packet.clientId, f.matchedBase, quote, f.quoteFees)];
      return Some((f.baseBudget, response));
    }

    /** Pays with free funds, and keeps what was matched if only deposited funds may be used. */
    method SettleFunds(side: Side, taker: Option<TraderId>, depositedOnly: bool, r0: Response) returns (done: Option<Response>)
      requires Valid() && (taker.Some? ==> taker.value in traders)
      modifies this`traders
      ensures done.Some? <==> old(Settle(State(), side, taker, depositedOnly, r0)).Some?
      ensures done.Some? ==> Settled(State(), done.value) == old(Settle(State(), side, taker, depositedOnly, r0)).value && Valid()
    {
      hide SideOk;
      if taker.None? {
        return Some(r0);
      }
      ghost var m := State();
      var t, r := taker.value, r0;
      var s := traders[t];
      var used := Min(s.Free(side), r.Matched(side));
      s, r := s.UseFree(side, used), r.UseFree(side, used);
      if depositedOnly {
        match side {
          case Bid =>
            s := s.DepositFree(Ask, r.baseOut);
            r := r.(baseOut := 0);
          case Ask =>
            s := s.DepositFree(Bid, r.quoteOut);
            r := r.(quoteOut := 0);
        }
        if !r.NoDeposit() || !r.NoWithdrawal() {
          return None;
        }
      }
      FreeChangeInv(m, t, s);
      traders := traders[t := s];
      return Some(r);
    }

    /** Matching and posting by kind of packet. */
    method WorkOrder(trader: TraderId, taker: Option<TraderId>, packet: OrderPacket, price: U64, c: Clock)
      returns (done: Option<(Option<OrderId>, Response)>)
      requires Valid() && 0 < counter < LAST_COUNTER
      requires !packet.TakeOnly() ==> trader in traders && price > 0
      modifies this
      ensures done.Some? <==> old(Work(State(), trader, taker, packet, price, c)).Some?
      ensures done.Some? ==> Valid()
      ensures done.Some? ==> Rested(State(), done.value.0, done.value.1) == old(Work(State(), trader, taker, packet, price, c)).value
    {
      hide SideOk, Uncrossed, LogInv, Funds, Execute, TryPost, CheckForCross, LimitCrosses, NoCross;
      var side := packet.side;
      ghost var m := State();
      var lots, resting, response, crosses;
      if packet.PostOnly? {
        var best := CheckForCrossing(side, price, c);
        resting := price;
        if best.Some? {
          if packet.reject || (side.Bid? && best.value <= 1) || (side.Ask? && best.value >= U64_MAX) {
            return None;
          }
          CrossedPrice(m, side, price, c);
          resting := if side.Bid? then best.value - 1 else best.value + 1;
        }
        PreparePostOnlyKeeps(m, side, price, packet.reject, c);
        lots, response, crosses := packet.baseLots, NOTHING, false;
      } else {
        var executed := ExecuteOrder(packet, price, taker, c);
        if executed.None? {
          return None;
        }
        ExecuteKeeps(m, packet, price, taker, c);
        resting, lots, response := price, executed.value.0, executed.value.1;
        if packet.ImmediateOrCancel? {
          if response.Matched(Ask) < packet.minBase || response.Matched(Bid) < packet.minQuote {
            return None;
          }
          return Some((None, response));
        }
        crosses := FindCross(side, price, c);
      }
      PostNothing(State(), trader, packet, resting, lots, crosses, response);
      if lots > 0 && !crosses {
        var posted := PostResting(trader, packet, resting, lots, response);
        if posted.None? {
          return None;
        }
        return Some((Some(posted.value.0), posted.value.1));
      }
      return Some((None, response));
    }

    /** Places an order. */
    method PlaceOrderInner(trader: TraderId, packet: OrderPacket, c: Clock) returns (done: Option<(Option<OrderId>, Response)>)
      requires Valid()
      modifies this
      ensures done.Some? <==> old(PlaceOrder(State(), trader, packet, c)).Some?
      ensures done.Some? ==> Valid()
      ensures done.Some? ==> Placed(State(), done.value.0, done.value.1) == old(PlaceOrder(State(), trader, packet, c)).value
    {
      hide Inv, Uncrossed, LogInv, Balanced, Work, Settle;
      ghost var m := State();
      if counter == 0 || counter == LAST_COUNTER {
        return None;
      }
      var side, price := packet.side, packet.Price();
      if side.Bid? && price == 0 {
        return None;
      }
      if side.Ask? && !packet.TakeOnly() && price == 0 {
        price := 1;
      }
      var taker: Option<TraderId>;
      if packet.TakeOnly() {
        taker := if trader in traders then Some(trader) else None;
      } else {
        var seated := GetOrRegisterTrader(trader);
        if !seated {
          return None;
        }
        taker := Some(trader);
      }
      if packet.baseLots == 0 && packet.QuoteLotsGiven() == 0 {
        return None;
      }
      if packet.ImmediateOrCancel? && packet.baseLots > 0 && packet.quoteLots > 0 {
        return None;
      }
      AdmitKeeps(m, trader, packet, c);
      if packet.IsExpired(c) {
        return Some((None, NOTHING));
      }
      ghost var m1 := State();
      var worked := WorkOrder(trader, taker, packet, price, c);
      if worked.None? {
        return None;
      }
      WorkKeeps(m1, trader, taker, packet, price, c);
      var settled := SettleFunds(side, taker, packet.depositedOnly, worked.value.1);
      if settled.None? {
        return None;
      }
      return Some((worked.value.0, settled.value));
    }

    /** Cancels orders by id, skipping those that are not the trader's. */
    method CancelMultiple(t: TraderId, ids: seq<OrderId>, claim: bool) returns (quoteOut: nat, baseOut: nat)
      requires Valid() && t in traders
      modifies this
      ensures Valid() && Cancelled(State(), quoteOut, baseOut) == old(CancelIds(State(), t, ids, claim))
    {
      hide SideOk, Uncrossed, LogInv, Funds, ReduceOrder;
      quoteOut, baseOut := 0, 0;
      var i := 0;
      assert ids[0..] == ids;
      ghost var whole := CancelIds(State(), t, ids, claim);
      while i < |ids|
        invariant i <= |ids| && Valid() && t in traders
        invariant var rest := CancelIds(State(), t, ids[i..], claim);
                  whole == Cancelled(rest.market, quoteOut + rest.quoteOut, baseOut + rest.baseOut)
      {
        assert ids[i..][0] == ids[i] && ids[i..][1..] == ids[i + 1..];
        ghost var m, side := State(), SideOf(ids[i].seqNum);
        var r := ReduceOrderInner(t, ids[i], SideOf(ids[i].seqNum), None, false, claim);
        if r.Some? {
          ReduceOrderKeeps(m, t, ids[i], side, None, false, claim, Clock(0, 0));
          quoteOut, baseOut := quoteOut + r.value.quoteOut, baseOut + r.value.baseOut;
        }
        i := i + 1;
      }
      assert ids[i..] == [];
    }

    method CollectOwn(side: Side, t: TraderId) returns (ids: seq<OrderId>)
      ensures ids == OwnIds(GetBook(side), t)
    {
      var book := GetBook(side);
      ids := [];
      assert book[..0] == [];
      for i := 0 to |book|
        invariant ids == OwnIds(book[..i], t)
      {
        OwnIdsConcat(book[..i], [book[i]], t);
        assert book[..i + 1] == book[..i] + [book[i]];
        assert [book[i]][1..] == [];
        if book[i].order.trader == t && book[i].order.lots > 0 {
          ids := ids + [book[i].id];
        }
      }
      assert book[..|book|] == book;
    }

    /** Cancels the trader's orders that a bounded search of one book finds. */
    method CancelUpToOrders(t: TraderId, side: Side, search: Option<nat>, count: Option<nat>, limit: Option<nat>, claim: bool)
      returns (r: Option<Response>)
      requires Valid()
      modifies this
      ensures Valid()
      ensures r.None? <==> t !in old(traders)
      ensures r.None? ==> State() == old(State())
      ensures r.Some? ==>
                && Some(Settled(State(), r.value)) == FromCancelled(old(CancelUpTo(State(), t, side, search, count, limit, claim)))
                && CancelledUpTo(old(State()), t, side, search, count, limit, claim,
                                 Cancelled(State(), r.value.quoteOut, r.value.baseOut))
    {
      hide Inv, CancelIds, CancelledUpTo;
      if t !in traders {
        return None;
      }
      CancelUpToExact(State(), t, side, search, count, limit, claim);
      var quoteOut, baseOut := CancelMultiple(t, UpToIds(State(), t, side, search, count, limit), claim);
      return Some(Withdrawal(baseOut, quoteOut));
    }

    /** Cancels every order of a trader: exactly those leave the books, the locked balances go to zero
        and, when claiming, exactly what was locked is paid out. */
    method CancelAllOrders(t: TraderId, claim: bool) returns (r: Option<Response>)
      requires Valid()
      modifies this
      ensures Valid()
      ensures r.None? <==> t !in old(traders)
      ensures r.None? ==> State() == old(State())
      ensures r.Some? ==>
                && bids == Without(old(bids), t) && asks == Without(old(asks), t)
                && traders == old(traders)[t := Freed(old(traders)[t], old(traders)[t].quoteLocked, old(traders)[t].baseLocked, claim)]
                && r.value == (if claim then Withdrawal(old(traders)[t].baseLocked, old(traders)[t].quoteLocked) else NOTHING)
                && Some(Settled(State(), r.value)) == FromCancelled(old(CancelAll(State(), t, claim)))
    {
      if t !in traders {
        return None;
      }
      hide SideOk, CancelIds, Without, OwnIds;
      CancelAllExact(State(), t, claim);
      var bidIds := CollectOwn(Bid, t);
      var askIds := CollectOwn(Ask, t);
      var quoteOut, baseOut := CancelMultiple(t, bidIds + askIds, claim);
      return Some(Withdrawal(baseOut, quoteOut));
    }
  }

  lemma PostNothing(m: Market, trader: TraderId, packet: OrderPacket, price: U64, lots: nat, crosses: bool, r: Response)
    requires Inv(m) && trader in m.traders && price > 0 && 0 < m.counter < LAST_COUNTER
    ensures lots == 0 || crosses ==> TryPost(m, trader, packet, price, lots, crosses, r) == Some(Rested(m, None, r))
  {
  }

  function SaturatingSub(a: nat, b: nat): nat {
    if a >= b then a - b else 0
  }

  /** Adjusted quote lots per base lot at a price. */
  function PriceUnit(p: Params, price: nat): (u: nat)
    requires p.Valid() && price > 0
    ensures u > 0
  {
    PositiveUnit(p, price);
    price * p.tickSize
  }

  lemma ReactExpired(p: Params, e: Entry, taker: Option<TraderId>, c: Clock, f: Inflight)
    requires p.Valid() && e.id.price > 0 && f.matchLimit > 0 && Expired(e.order, c)
    ensures React(p, e, taker, c, f) == Some(Reaction(HeadTake(e.order.lots, ByExpiry), f.(matchLimit := f.matchLimit - 1)))
  {
  }

  lemma ReactOwn(p: Params, e: Entry, taker: Option<TraderId>, c: Clock, f: Inflight)
    requires p.Valid() && e.id.price > 0 && f.matchLimit > 0 && !Expired(e.order, c) && taker == Some(e.order.trader)
    ensures var lots := Min(Min(f.baseBudget, f.adjBudget / PriceUnit(p, e.id.price)), e.order.lots);
            React(p, e, taker, c, f) == match f.selfTrade
              case Abort => None
              case CancelProvide =>
                Some(Reaction(HeadTake(e.order.lots, ByReduce), f.(matchLimit := f.matchLimit - 1)))
              case DecrementTake =>
                Some(Reaction(
                       HeadTake(lots, ByReduce),
                       f.(baseBudget := SaturatingSub(f.baseBudget, lots),
                          adjBudget := SaturatingSub(f.adjBudget, AdjustedLots(p, e.id.price, lots)),
                          matchLimit := f.matchLimit - 1,
                          stop := lots < e.order.lots)))
  {
    hide AdjustedLots;
    assert Takeable(p, f, e) == Min(Min(f.baseBudget, f.adjBudget / PriceUnit(p, e.id.price)), e.order.lots);
  }

  lemma ReactFill(p: Params, e: Entry, taker: Option<TraderId>, c: Clock, f: Inflight)
    requires p.Valid() && e.id.price > 0 && f.InProgress() && !Expired(e.order, c) && taker != Some(e.order.trader)
    ensures var r := React(p, e, taker, c, f);
            && r.Some? && r.value.take.kind == ByFill
            && var lots := r.value.take.lots;
               && lots <= e.order.lots && lots <= f.baseBudget && AdjustedLots(p, e.id.price, lots) <= f.adjBudget
               && (lots == e.order.lots <==> e.order.lots <= f.baseBudget && AdjustedLots(p, e.id.price, e.order.lots) <= f.adjBudget)
               && (lots < e.order.lots ==> lots == Min(f.baseBudget, f.adjBudget / PriceUnit(p, e.id.price)))
               && r.value.flight == f.(stop := lots < e.order.lots).ProcessMatch(AdjustedLots(p, e.id.price, lots), lots)
  {
    hide AdjustedLots;
    assert Takeable(p, f, e) == Min(Min(f.baseBudget, f.adjBudget / PriceUnit(p, e.id.price)), e.order.lots);
  }

  lemma FeesInv(m: Market, fees: nat)
    requires Inv(m)
    ensures Inv(m.(unclaimed := fees))
  {
    var m' := m.(unclaimed := fees);
    hide BookOk, Funded, Registered;
    assert SideInv(m', Bid) && SideInv(m', Ask);
  }

  lemma NonemptyBookCounter(m: Market, side: Side)
    requires Inv(m) && m.BookOf(side) != []
    ensures m.counter > 0
  {
    assert SideInv(m, side) && EntryOk(side, m.BookOf(side)[0], m.counter);
  }

  lemma CrossCheckDone(m: Market, side: Side, price: nat, c: Clock)
    requires Inv(m)
    ensures var b := m.BookOf(Opposite(side));
            && (b == [] || !CrossesAt(side, price, b[0].id.price) ==>
                  CheckForCross(m, side, price, c) == CrossChecked(m, None))
            && (b != [] && CrossesAt(side, price, b[0].id.price) && !Expired(b[0].order, c) ==>
                  CheckForCross(m, side, price, c) == CrossChecked(m, Some(b[0].id.price)))
  {
    hide Inv;
    assert ExpireHeads(m.BookOf(Opposite(side)), 0) == [];
  }

  lemma CrossCheckStep(m: Market, side: Side, price: nat, c: Clock)
    requires Inv(m) && m.BookOf(Opposite(side)) != []
    requires CrossesAt(side, price, m.BookOf(Opposite(side))[0].id.price) && Expired(m.BookOf(Opposite(side))[0].order, c)
    ensures var opp, b := Opposite(side), m.BookOf(Opposite(side));
            var m' := Take(m, opp, 0, b[0].order.lots, ByExpiry);
            Inv(m') && m'.BookOf(opp) == b[1..] && CheckForCross(m, side, price, c) == CheckForCross(m', side, price, c)
  {
    hide Inv, Take, HeadsEnabled, ExpireHeads, BookAfter;
    var opp, b := Opposite(side), m.BookOf(Opposite(side));
    var n, lots := Stale(side, price, b, c), b[0].order.lots;
    TakeInv(m, opp, 0, lots, ByExpiry);
    TakeWholeHead(m, opp, ByExpiry);
    ExpireHeadsRemove(b, n);
    ExpireHeadsRemove(b[1..], n - 1);
    ExpireHeadsFirst(b, n);
  }

  lemma ExpireHeadsFirst(book: Book, n: nat)
    requires 0 < n <= |book|
    ensures ExpireHeads(book, n) != [] && ExpireHeads(book, n)[0] == HeadTake(book[0].order.lots, ByExpiry)
    ensures ExpireHeads(book, n)[1..] == ExpireHeads(book[1..], n - 1)
  {
  }

  lemma TakeWholeHead(m: Market, side: Side, kind: TakeKind)
    requires Inv(m) && m.BookOf(side) != []
    ensures Take(m, side, 0, m.BookOf(side)[0].order.lots, kind).BookOf(side) == m.BookOf(side)[1..]
  {
    hide Inv;
  }
}
