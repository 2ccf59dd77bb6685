/** What a placement comes to, told from the packet, the books and the event log. */
module Outcomes {
  import opened Quantities
  import opened OrderIds
  import opened Books
  import opened Traders
  import opened Markets
  import opened Matching
  import opened Packets
  import opened Placement

  // ---------- admission ----------

  /** Which packets are let in: a working market, a positive price for bids, an amount, exactly one
      amount for immediate orders, and a seat for orders that may rest. The sender is recognised as
      the taker exactly when it is seated. */
  lemma AdmitExactly(m: Market, trader: TraderId, packet: OrderPacket)
    requires Inv(m)
    ensures var a := Admit(m, trader, packet);
            && (a.Some? <==>
                  && 0 < m.counter < LAST_COUNTER
                  && (match packet
                      case PostOnly(side, price, base, _, _, _, _, _, _) => base > 0 && (side.Bid? ==> price > 0)
                      case Limit(side, price, base, _, _, _, _, _, _, _) => base > 0 && (side.Bid? ==> price > 0)
                      case ImmediateOrCancel(side, limit, base, quote, _, _, _, _, _, _, _, _) =>
                        (base > 0) != (quote > 0) && (side.Bid? ==> limit != Some(0)))
                  && (packet.ImmediateOrCancel? || trader in m.traders || |m.traders| < m.params.seatCapacity))
            && (a.Some? ==>
                  && a.value.taker == (if trader in a.value.market.traders then Some(trader) else None)
                  && a.value.market == m.(traders := a.value.market.traders)
                  && a.value.market.traders == (if packet.ImmediateOrCancel? || trader in m.traders then m.traders
                                                else m.traders[trader := EMPTY]))
  {
    hide SideOk;
  }

  /** An expired packet succeeds, at most takes a seat, and moves nothing. */
  lemma ExpiredPlacesNothing(m: Market, trader: TraderId, packet: OrderPacket, c: Clock)
    requires Inv(m) && PlaceOrder(m, trader, packet, c).Some?
    requires (packet.lastValidSlot.Some? && packet.lastValidSlot.value < c.slot)
             || (packet.lastValidTime.Some? && packet.lastValidTime.value < c.time)
    ensures var r := PlaceOrder(m, trader, packet, c).value;
            && r.id.None? && r.response == NOTHING
            && r.market == m.(traders := r.market.traders)
            && (r.market.traders == m.traders || (trader !in m.traders && r.market.traders == m.traders[trader := EMPTY]))
  {
    hide SideOk, Work, Settle;
    AdmitExactly(m, trader, packet);
  }

  // ---------- what is matched ----------

  /** The order's limit price, if it has one. An ask that may rest has a limit of at least one tick. */
  function LimitOf(packet: OrderPacket): Option<nat> {
    match packet
    case PostOnly(side, price, _, _, _, _, _, _, _) => Some(if side.Ask? && price == 0 then 1 else price)
    case Limit(side, price, _, _, _, _, _, _, _, _) => Some(if side.Ask? && price == 0 then 1 else price)
    case ImmediateOrCancel(_, limit, _, _, _, _, _, _, _, _, _, _) => limit
  }

  /** The price is within the limit: at most it for a buy, at least it for a sell. */
  predicate Within(side: Side, limit: Option<nat>, price: nat) {
    limit.Some? ==> match side case Bid => price <= limit.value case Ask => price >= limit.value
  }

  lemma LimitIsPrice(m: Market, trader: TraderId, packet: OrderPacket, price: nat)
    requires Admit(m, trader, packet).Some? && price <= U64_MAX
    ensures var limit := Admit(m, trader, packet).value.price;
            Within(packet.side, LimitOf(packet), price) <==>
            match packet.side case Bid => price <= limit case Ask => price >= limit
  {
  }

  predicate Extends(log: seq<Event>, log': seq<Event>) {
    |log| <= |log'| && log'[..|log|] == log
  }

  /** Fills come from the takes that are fills: somebody else's unexpired orders. */
  lemma {:induction false} FillOrigin(book: Book, takes: seq<HeadTake>, i: nat) returns (k: nat)
    requires HeadsEnabled(book, takes) && i < |EventsOf(book, takes)| && EventsOf(book, takes)[i].Fill?
    ensures k < |takes| && k < |book| && takes[k].kind.ByFill?
    ensures var ev := EventsOf(book, takes)[i];
            && ev.maker == book[k].order.trader && ev.seqNum == book[k].id.seqNum && ev.price == book[k].id.price
            && ev.filled == takes[k].lots > 0 && ev.remaining + ev.filled == book[k].order.lots
  {
    var head := TakeEvents(book[0], takes[0].lots, takes[0].kind);
    if i >= |head| {
      assert EventsOf(book, takes)[i] == EventsOf(book[1..], takes[1..])[i - |head|];
      k := FillOrigin(book[1..], takes[1..], i - |head|);
      k := k + 1;
    } else {
      assert EventsOf(book, takes)[i] == head[i] && takes[0].kind.ByFill?;
      k := 0;
    }
  }

  /** The log grew, and every fill it gained is of another trader's order at the limit price or better:
      at most the limit for a buy, at least it for a sell. */
  predicate FillsAsLimited(side: Side, limit: nat, taker: Option<TraderId>, log: seq<Event>, log': seq<Event>) {
    && Extends(log, log')
    && forall i | |log| <= i < |log'| && log'[i].Fill? ::
         && (side.Bid? ==> log'[i].price <= limit) && (side.Ask? ==> log'[i].price >= limit)
         && Some(log'[i].maker) != taker && log'[i].filled > 0
  }

  lemma MatchFills(m: Market, taker: Option<TraderId>, c: Clock, f: Inflight)
    requires Inv(m)
    ensures var o := MatchOrder(m, taker, c, f);
            o.Some? ==> FillsAsLimited(f.side, f.limit, taker, m.log, o.value.market.log)
  {
    hide Inv, MatchOrder, FillsAsLimited;
    if MatchOrder(m, taker, c, f).Some? {
      MatchedFills(m, taker, c, f);
    }
  }

  lemma MatchedFills(m: Market, taker: Option<TraderId>, c: Clock, f: Inflight)
    requires Inv(m) && MatchOrder(m, taker, c, f).Some?
    ensures FillsAsLimited(f.side, f.limit, taker, m.log, MatchOrder(m, taker, c, f).value.market.log)
  {
    hide SideOk, TakeHeads, Walk, TakerFee, EventsOf, HeadsEnabled;
    var opp := Opposite(f.side);
    var b, log := m.BookOf(opp), MatchOrder(m, taker, c, f).value.market.log;
    InvPositive(m, opp);
    WalkTreats(m.params, b, taker, c, f);
    var takes := Walk(m.params, b, taker, c, f).value.takes;
    TakeHeadsLog(m, opp, takes);
    forall i | |m.log| <= i < |log| && log[i].Fill?
      ensures f.side.Bid? ==> log[i].price <= f.limit
      ensures f.side.Ask? ==> log[i].price >= f.limit
      ensures Some(log[i].maker) != taker && log[i].filled > 0
    {
      assert log[i] == EventsOf(b, takes)[i - |m.log|];
      var k := FillOrigin(b, takes, i - |m.log|);
    }
  }

  /** What the takes use of the order's budget in one token: the fills and, if self trades are
      decremented, the lots taken off own orders. */
  function Spent(p: Params, packet: OrderPacket, token: Side, book: Book, takes: seq<HeadTake>): nat
    requires p.Valid() && !packet.PostOnly? && |takes| <= |book|
  {
    FilledWorth(p, token, book, takes) + if packet.selfTrade == DecrementTake then OwnWorth(p, token, book, takes) else 0
  }

  /** Only immediate orders can name an amount of quote lots. */
  function QuoteNamed(packet: OrderPacket): Option<nat> {
    if packet.ImmediateOrCancel? && packet.quoteLots > 0 then Some(packet.quoteLots) else None
  }

  /** The order may not go on: the base amount or the match limit is used up, nothing is left at the
      limit price or better, or what is left of the quote budget does not pay for one more lot. */
  predicate CannotGoOn(p: Params, packet: OrderPacket, limit: nat, lots: nat, met: nat, quoteLeft: int, rest: Book)
    requires !packet.PostOnly?
  {
    || lots == 0
    || (packet.matchLimit.Some? && met == packet.matchLimit.value) || met == U64_MAX
    || rest == []
    || (packet.side.Bid? && rest[0].id.price > limit)
    || (packet.side.Ask? && rest[0].id.price < limit)
    || quoteLeft < rest[0].id.price * p.tickSize
  }

  /** Which orders matching met, what it did to the opposite book, and what it recorded. */
  predicate TakesRight(m: Market, packet: OrderPacket, limit: nat, taker: Option<TraderId>, c: Clock, e: Executed, takes: seq<HeadTake>)
    requires m.params.Valid()
  {
    var p, side, opp := m.params, packet.side, Opposite(packet.side);
    var b := m.BookOf(opp);
    && HeadsEnabled(b, takes)
    && (forall k | 0 <= k < |takes| ::
          && (side.Bid? ==> b[k].id.price <= limit) && (side.Ask? ==> b[k].id.price >= limit)
          && Treated(b[k], taker, c, takes[k]))
    && e.market.BookOf(side) == m.BookOf(side) && e.market.BookOf(opp) == BookAfter(b, takes)
    && var quote, fee := FilledWorth(p, Bid, b, takes), CeilDiv(FilledWorth(p, Bid, b, takes) * p.feeBps, BPS);
       e.market.log == m.log + EventsOf(b, takes)
         + [FillSummary(
              packet.clientId, FilledWorth(p, Ask, b, takes),
              if side.Bid? then quote + fee else if fee <= quote then quote - fee else 0, fee)]
  }

  /** What is left of the amounts named, and why matching stopped. */
  predicate AmountsRight(m: Market, packet: OrderPacket, limit: nat, e: Executed, takes: seq<HeadTake>)
    requires m.params.Valid() && !packet.PostOnly?
  {
    var p, b := m.params, m.BookOf(Opposite(packet.side));
    var budget := AdjustedBudget(p, packet.side, QuoteNamed(packet));
    && HeadsEnabled(b, takes)
    && e.lots + Spent(p, packet, Ask, b, takes) == (if packet.baseLots == 0 then U64_MAX else packet.baseLots)
    && budget.Some?
    && |takes| <= U64_MAX && (packet.matchLimit.Some? ==> |takes| <= packet.matchLimit.value)
    && CannotGoOn(p, packet, limit, e.lots, |takes|,
                  budget.value - Spent(p, packet, Bid, b, takes) * p.lotsPerUnit, BookAfter(b, takes))
  }

  predicate Executes(m: Market, packet: OrderPacket, limit: nat, taker: Option<TraderId>, c: Clock, e: Executed, takes: seq<HeadTake>)
    requires m.params.Valid() && !packet.PostOnly?
  {
    TakesRight(m, packet, limit, taker, c, e, takes) && AmountsRight(m, packet, limit, e, takes)
  }

  lemma ExecuteExact(m: Market, packet: OrderPacket, limit: U64, taker: Option<TraderId>, c: Clock) returns (takes: seq<HeadTake>)
    requires Inv(m) && !packet.PostOnly? && Execute(m, packet, limit, taker, c).Some?
    ensures Executes(m, packet, limit, taker, c, Execute(m, packet, limit, taker, c).value, takes)
  {
    hide Inv, Execute, TakesRight, AmountsRight;
    takes := ExecuteTakes(m, packet, limit, taker, c);
  }

  lemma ExecuteTakes(m: Market, packet: OrderPacket, limit: U64, taker: Option<TraderId>, c: Clock) returns (takes: seq<HeadTake>)
    requires Inv(m) && !packet.PostOnly? && Execute(m, packet, limit, taker, c).Some?
    ensures TakesRight(m, packet, limit, taker, c, Execute(m, packet, limit, taker, c).value, takes)
    ensures AmountsRight(m, packet, limit, Execute(m, packet, limit, taker, c).value, takes)
  {
    hide SideOk, TakeHeads, Walk, RoundUp, RoundDown, TakerFee, CeilDiv, AdjustedBudget, FilledWorth, OwnWorth, HeadsEnabled,
         BookAfter, EventsOf, Treated, AmountsRight;
    var p, side, opp := m.params, packet.side, Opposite(packet.side);
    var b := m.BookOf(opp);
    var f := NewInflight(side, packet, limit, AdjustedBudget(p, side, packet.QuoteBudget()).value);
    InvPositive(m, opp);
    WalkTreats(p, b, taker, c, f);
    WalkBudgets(p, b, taker, c, f);
    takes := Walk(p, b, taker, c, f).value.takes;
    TakeHeadsShape(m, opp, takes);
    TakeHeadsLog(m, opp, takes);
    MatchedFacts(m, taker, c, f);
    TakerFeeOfQuoteLots(p, FilledWorth(p, Bid, b, takes));
    ExecuteAmounts(m, packet, limit, taker, c, f, takes);
  }

  lemma ExecuteAmounts(m: Market, packet: OrderPacket, limit: U64, taker: Option<TraderId>, c: Clock, f: Inflight, takes: seq<HeadTake>)
    requires Inv(m) && !packet.PostOnly? && Execute(m, packet, limit, taker, c).Some?
    requires f == NewInflight(packet.side, packet, limit, AdjustedBudget(m.params, packet.side, packet.QuoteBudget()).value)
    requires Positive(m.BookOf(Opposite(packet.side)))
    requires var w := Walk(m.params, m.BookOf(Opposite(packet.side)), taker, c, f); w.Some? && w.value.takes == takes
    ensures AmountsRight(m, packet, limit, Execute(m, packet, limit, taker, c).value, takes)
  {
    hide SideOk, TakeHeads, Walk, RoundUp, RoundDown, TakerFee, AdjustedBudget, FilledWorth, OwnWorth, HeadsEnabled, BookAfter, Treated;
    var p, b := m.params, m.BookOf(Opposite(packet.side));
    WalkTreats(p, b, taker, c, f);
    WalkBudgets(p, b, taker, c, f);
    WalkIsMaximal(p, b, taker, c, f);
    OneLot(p, BookAfter(b, takes));
    Distribute(FilledWorth(p, Bid, b, takes), OwnWorth(p, Bid, b, takes), p.lotsPerUnit);
  }

  lemma OneLot(p: Params, book: Book)
    ensures book != [] ==> AdjustedLots(p, book[0].id.price, 1) == book[0].id.price * p.tickSize
  {
  }

  // ---------- what rests ----------

  predicate NoTrades(events: seq<Event>) {
    forall i | 0 <= i < |events| :: !events[i].Fill? && !events[i].Reduce?
  }

  /** Nothing in these events is about matching. */
  predicate Quiet(events: seq<Event>) {
    forall i | 0 <= i < |events| :: !events[i].Fill? && !events[i].Reduce? && !events[i].FillSummary?
  }

  /** The entry was added to the book, whose other orders kept their places; only the last of a full
      book had to go. No two entries share an id. */
  predicate RestsAs(book: Book, capacity: nat, book': Book, e: Entry) {
    var kept := if |book| >= capacity && book != [] then book[..|book| - 1] else book;
    && (exists i | 0 <= i <= |kept| :: book' == kept[..i] + [e] + kept[i..])
    && (forall i, j | 0 <= i < j < |book'| :: book'[i].id != book'[j].id)
  }

  /** The order a packet leaves in the book: the sender's, with the packet's own limits in time, where
      zero stands for none. */
  function RestingOrder(trader: TraderId, packet: OrderPacket, lots: nat): Order {
    Order(
      trader, lots,
      match packet.lastValidSlot case None => 0 case Some(slot) => slot,
      match packet.lastValidTime case None => 0 case Some(time) => time)
  }

  lemma TryPostExact(m: Market, trader: TraderId, packet: OrderPacket, price: U64, lots: nat, crosses: bool, r: Response)
    requires Inv(m) && trader in m.traders && price > 0 && 0 < m.counter < LAST_COUNTER
    requires TryPost(m, trader, packet, price, lots, crosses, r).Some?
    ensures var p, side := TryPost(m, trader, packet, price, lots, crosses, r).value, packet.side;
            && p.market.BookOf(Opposite(side)) == m.BookOf(Opposite(side))
            && (p.id.None? <==> lots == 0 || crosses)
            && (p.id.Some? ==>
                  && p.id.value == OrderId(price, SeqNum(side, m.counter))
                  && RestsAs(m.BookOf(side), m.params.Capacity(side), p.market.BookOf(side),
                             Entry(p.id.value, RestingOrder(trader, packet, lots))))
            && (exists tail :: p.market.log == m.log + tail && Quiet(tail))
  {
    hide SideOk, Worth, PostEnabled, Post, MakeRoom, Quiet, SeqNum, PostEvents, RestsAs, Balanced, Keeps;
    var side, p := packet.side, TryPost(m, trader, packet, price, lots, crosses, r).value;
    if p.id.None? {
      QuietNone();
      assert p.market.log == m.log + [];
    } else {
      var m1 := MakeRoom(m, side, price).value;
      RoomMade(m, side, price);
      var evicted := MakeRoomShape(m, side, price);
      var e := NewEntry(m1, side, trader, price, lots, packet);
      NewEntryFits(m1, side, trader, price, lots, packet);
      var n := PostShape(m1, side, e, packet.clientId);
      RestsAt(m.BookOf(side), m.params.Capacity(side), m1.BookOf(side), p.market.BookOf(side), e, n);
      QuietPost(e, packet.clientId, evicted);
      assert p.market.log == m.log + (evicted + PostEvents(e, packet.clientId));
    }
  }

  lemma PostedRests(m: Market, trader: TraderId, packet: OrderPacket, price: U64, lots: nat, r: Response)
    requires Inv(m) && trader in m.traders && price > 0 && lots > 0 && 0 < m.counter < LAST_COUNTER
    ensures var p, side := TryPost(m, trader, packet, price, lots, false, r), packet.side;
            p.Some? ==>
              var id := OrderId(price, SeqNum(side, m.counter));
              && p.value.id == Some(id)
              && RestsAs(m.BookOf(side), m.params.Capacity(side), p.value.market.BookOf(side),
                         Entry(id, RestingOrder(trader, packet, lots)))
  {
    hide Inv, TryPost, RestsAs, SeqNum;
    if TryPost(m, trader, packet, price, lots, false, r).Some? {
      TryPostExact(m, trader, packet, price, lots, false, r);
    }
  }

  lemma PostShape(m: Market, side: Side, e: Entry, clientId: nat) returns (n: nat)
    requires Inv(m) && PostEnabled(m, side, e)
    ensures var m', b := Post(m, side, e, clientId), m.BookOf(side);
            && n <= |b| && m'.BookOf(side) == b[..n] + [e] + b[n..]
            && (forall i, j | 0 <= i < j < |m'.BookOf(side)| :: m'.BookOf(side)[i].id != m'.BookOf(side)[j].id)
            && m'.BookOf(Opposite(side)) == m.BookOf(Opposite(side))
            && m'.log == m.log + PostEvents(e, clientId)
  {
    hide SideOk, Worth, PostEnabled, PostState, PostEvents, Ahead;
    PostInv(m, side, e, clientId);
    n := InsertPos(m.BookOf(side), e.id);
    assert Post(m, side, e, clientId).BookOf(side) == m.BookOf(side)[..n] + [e] + m.BookOf(side)[n..];
    DistinctBook(Post(m, side, e, clientId), side);
  }

  lemma RoomMade(m: Market, side: Side, price: nat)
    requires Inv(m) && MakeRoom(m, side, price).Some?
    ensures var m' := MakeRoom(m, side, price).value;
            && Inv(m') && m'.params == m.params && m'.counter == m.counter && m'.traders.Keys == m.traders.Keys
            && |m'.BookOf(side)| < m.params.Capacity(side)
            && m'.BookOf(Opposite(side)) == m.BookOf(Opposite(side))
  {
    MakeRoomKeeps(m, side, price, Clock(0, 0));
  }

  lemma RestsAt(book: Book, capacity: nat, kept: Book, book': Book, e: Entry, n: nat)
    requires kept == (if |book| >= capacity && book != [] then book[..|book| - 1] else book)
    requires n <= |kept| && book' == kept[..n] + [e] + kept[n..]
    requires forall i, j | 0 <= i < j < |book'| :: book'[i].id != book'[j].id
    ensures RestsAs(book, capacity, book', e)
  {
  }

  lemma QuietNone()
    ensures Quiet([])
  {
  }

  lemma QuietPost(e: Entry, clientId: nat, evicted: seq<Event>)
    requires Quiet(evicted)
    ensures Quiet(evicted + PostEvents(e, clientId))
  {
  }

  lemma DistinctBook(m: Market, side: Side)
    requires Inv(m)
    ensures var b := m.BookOf(side); forall i, j | 0 <= i < j < |b| :: b[i].id != b[j].id
  {
    assert SideInv(m, side);
  }

  /** Making room takes at most the last order of a full book. */
  lemma MakeRoomShape(m: Market, side: Side, price: nat) returns (evicted: seq<Event>)
    requires Inv(m) && MakeRoom(m, side, price).Some?
    ensures var m', b := MakeRoom(m, side, price).value, m.BookOf(side);
            && m'.BookOf(side) == (if |b| >= m.params.Capacity(side) && b != [] then b[..|b| - 1] else b)
            && m'.log == m.log + evicted && Quiet(evicted)
  {
    hide SideOk, TakeState;
    var b := m.BookOf(side);
    if |b| >= m.params.Capacity(side) {
      var e := b[|b| - 1];
      evicted := TakeEvents(e, e.order.lots, ByEviction);
      LockedCovers(m, side, |b| - 1, e.order.lots);
      assert b[..|b| - 1] + b[|b|..] == b[..|b| - 1];
    } else {
      evicted := [];
      assert m.log + [] == m.log;
    }
  }

  // ---------- prices that cross ----------

  /** An unexpired resting order that an order of `side` at `price` would trade with. */
  predicate Meets(side: Side, price: nat, e: Entry, c: Clock) {
    && !Expired(e.order, c)
    && (side.Bid? ==> e.id.price <= price)
    && (side.Ask? ==> e.id.price >= price)
  }

  predicate CrossesLive(side: Side, price: nat, book: Book, c: Clock) {
    exists j | 0 <= j < |book| :: Meets(side, price, book[j], c)
  }

  /** The price of a post-only order: as asked when it meets no live order, and otherwise exactly one
      tick away from the best live price, unless that is refused or impossible. */
  predicate AmendedRight(side: Side, price: nat, reject: bool, book: Book, c: Clock, r: Option<nat>) {
    if !CrossesLive(side, price, book, c) then r == Some(price)
    else exists j | 0 <= j < |book| ::
      && Meets(side, price, book[j], c)
      && (forall i | 0 <= i < |book| && !Expired(book[i].order, c) ::
            if side.Bid? then book[i].id.price >= book[j].id.price else book[i].id.price <= book[j].id.price)
      && (r.None? <==> reject || (side.Bid? && book[j].id.price == 1) || (side.Ask? && book[j].id.price == U64_MAX))
      && (r.Some? ==> r.value == if side.Bid? then book[j].id.price - 1 else book[j].id.price + 1)
  }

  lemma PreparePostOnlyExactly(m: Market, side: Side, price: U64, reject: bool, c: Clock)
    requires Inv(m)
    ensures var r := PreparePostOnly(m, side, price, reject, c);
            AmendedRight(side, price, reject, m.BookOf(Opposite(side)), c, if r.None? then None else Some(r.value.price))
  {
    hide SideOk, TakeHeads, ExpireHeads, Stale, Expired;
    var opp, book := Opposite(side), m.BookOf(Opposite(side));
    var n := Stale(side, price, book, c);
    BookFacts(m, opp);
    if n < |book| && CrossesAt(side, price, book[n].id.price) {
      assert Meets(side, price, book[n], c);
      CrossedPrice(m, side, price, c);
      forall i | 0 <= i < |book| && !Expired(book[i].order, c)
        ensures if side.Bid? then book[i].id.price >= book[n].id.price else book[i].id.price <= book[n].id.price
      {
        PricesWorsen(opp, book, m.counter, n, i);
      }
    } else {
      forall j | 0 <= j < |book|
        ensures !Meets(side, price, book[j], c)
      {
        if j >= n {
          PricesWorsen(opp, book, m.counter, n, j);
        }
      }
    }
  }

  lemma BookFacts(m: Market, side: Side)
    requires Inv(m)
    ensures BookOk(side, m.BookOf(side), m.counter)
  {
    assert SideInv(m, side);
  }

  lemma {:induction false} BestLiveEntry(book: Book, c: Clock) returns (k: nat)
    requires BestLive(book, c).Some?
    ensures k < |book| && !Expired(book[k].order, c) && book[k].id.price == BestLive(book, c).value
  {
    if !Expired(book[0].order, c) && book[0].order.lots > 0 {
      k := 0;
    } else {
      k := BestLiveEntry(book[1..], c);
      k := k + 1;
    }
  }

  /** The remainder of a limit order is held back exactly when it meets a live order; a buy at the
      highest possible price is always held back. */
  lemma LimitCrossesExactly(m: Market, side: Side, price: U64, c: Clock)
    requires Inv(m) && price > 0
    ensures LimitCrosses(m, side, price, c) <==>
            CrossesLive(side, price, m.BookOf(Opposite(side)), c) || (side.Bid? && price == U64_MAX)
  {
    hide SideOk, BookOk, Expired, BestLive;
    var opp, book := Opposite(side), m.BookOf(Opposite(side));
    BookFacts(m, opp);
    if BestLive(book, c).Some? {
      var k := BestLiveEntry(book, c);
      EntryPrice(m, opp, k);
      if LimitCrosses(m, side, price, c) {
        assert Meets(side, price, book[k], c);
      }
    }
    forall j | 0 <= j < |book| && Meets(side, price, book[j], c)
      ensures LimitCrosses(m, side, price, c)
    {
      BestLiveIsBest(opp, book, m.counter, c, j);
    }
  }

  lemma EntryPrice(m: Market, side: Side, i: nat)
    requires Inv(m) && i < |m.BookOf(side)|
    ensures 0 < m.BookOf(side)[i].id.price <= U64_MAX
  {
    assert SideInv(m, side);
    assert EntryOk(side, m.BookOf(side)[i], m.counter);
  }

  // ---------- lots told by the log ----------

  function SumFilled(log: seq<Event>): nat {
    if log == [] then 0 else SumFilled(log[..|log| - 1]) + if log[|log| - 1].Fill? then log[|log| - 1].filled else 0
  }

  function SumReduced(log: seq<Event>): nat {
    if log == [] then 0 else SumReduced(log[..|log| - 1]) + if log[|log| - 1].Reduce? then log[|log| - 1].removed else 0
  }

  lemma {:induction false} SumConcat(a: seq<Event>, b: seq<Event>)
    ensures SumFilled(a + b) == SumFilled(a) + SumFilled(b)
    ensures SumReduced(a + b) == SumReduced(a) + SumReduced(b)
    decreases |b|
  {
    if b == [] {
      assert a + b == a;
    } else {
      var n := |b| - 1;
      SumConcat(a, b[..n]);
      assert (a + b)[..|a + b| - 1] == a + b[..n];
    }
  }

  lemma {:induction false} SumNone(events: seq<Event>)
    requires NoTrades(events)
    ensures SumFilled(events) == 0 && SumReduced(events) == 0
  {
    if events != [] {
      SumNone(events[..|events| - 1]);
    }
  }

  lemma {:induction false} SumOfTakes(p: Params, book: Book, takes: seq<HeadTake>)
    requires p.Valid() && HeadsEnabled(book, takes)
    ensures SumFilled(EventsOf(book, takes)) == FilledWorth(p, Ask, book, takes)
    ensures SumReduced(EventsOf(book, takes)) == OwnWorth(p, Ask, book, takes)
    decreases takes
  {
    if takes != [] {
      SumOfTakes(p, book[1..], takes[1..]);
      var head := TakeEvents(book[0], takes[0].lots, takes[0].kind);
      SumConcat(head, EventsOf(book[1..], takes[1..]));
      if head != [] {
        assert head[..0] == [];
      }
    }
  }

  // ---------- whole placements ----------

  /** Neither books, log nor counter change when a placement is paid for. */
  lemma PlacedAsWorked(m: Market, trader: TraderId, packet: OrderPacket, c: Clock) returns (a: Admitted, w: Rested)
    requires Inv(m) && PlaceOrder(m, trader, packet, c).Some? && !packet.IsExpired(c)
    ensures Admit(m, trader, packet) == Some(a)
    ensures Inv(a.market) && 0 < a.market.counter < LAST_COUNTER && a.market == m.(traders := a.market.traders)
    ensures !packet.TakeOnly() ==> trader in a.market.traders && a.price > 0
    ensures Work(a.market, trader, a.taker, packet, a.price, c) == Some(w)
    ensures var r := PlaceOrder(m, trader, packet, c).value;
            r.id == w.id && r.market.bids == w.market.bids && r.market.asks == w.market.asks && r.market.log == w.market.log
  {
    hide SideOk, Work, Uncrossed, LogInv, Balanced;
    AdmitKeeps(m, trader, packet, c);
    AdmitExactly(m, trader, packet);
    a := Admit(m, trader, packet).value;
    w := Work(a.market, trader, a.taker, packet, a.price, c).value;
    WorkKeeps(a.market, trader, a.taker, packet, a.price, c);
  }

  /** Fills and reductions of a placement are those of its takes from the opposite book. */
  ghost predicate Logged(m: Market, m': Market, side: Side, takes: seq<HeadTake>) {
    && HeadsEnabled(m.BookOf(side), takes)
    && exists tail ::
         && m'.log == m.log + EventsOf(m.BookOf(side), takes) + tail
         && NoTrades(tail)
  }

  lemma LoggedWith(m: Market, m': Market, side: Side, takes: seq<HeadTake>, tail: seq<Event>)
    requires HeadsEnabled(m.BookOf(side), takes) && m'.log == m.log + EventsOf(m.BookOf(side), takes) + tail
    requires NoTrades(tail)
    ensures Logged(m, m', side, takes)
  {
  }

  lemma LoggedSums(m: Market, m': Market, side: Side, takes: seq<HeadTake>)
    requires m.params.Valid() && Logged(m, m', side, takes)
    ensures SumFilled(m'.log) == SumFilled(m.log) + FilledWorth(m.params, Ask, m.BookOf(side), takes)
    ensures SumReduced(m'.log) == SumReduced(m.log) + OwnWorth(m.params, Ask, m.BookOf(side), takes)
  {
    hide EventsOf, HeadsEnabled, FilledWorth, OwnWorth, SumFilled, SumReduced;
    var b := m.BookOf(side);
    var tail :| m'.log == m.log + EventsOf(b, takes) + tail && NoTrades(tail);
    SumConcat(m.log + EventsOf(b, takes), tail);
    SumConcat(m.log, EventsOf(b, takes));
    SumOfTakes(m.params, b, takes);
    SumNone(tail);
  }

  /** A limit order: what it matched and what it left, before payment. */
  lemma LimitWork(m: Market, trader: TraderId, taker: Option<TraderId>, packet: OrderPacket, price: U64, c: Clock)
    returns (e: Executed, takes: seq<HeadTake>)
    requires Inv(m) && 0 < m.counter < LAST_COUNTER && packet.Limit? && trader in m.traders && price > 0
    requires Work(m, trader, taker, packet, price, c).Some?
    ensures Execute(m, packet, price, taker, c) == Some(e) && Executes(m, packet, price, taker, c, e, takes)
    ensures var w, side := Work(m, trader, taker, packet, price, c).value, packet.side;
            var opp := Opposite(side);
            && w.market.BookOf(opp) == e.market.BookOf(opp)
            && Logged(m, w.market, opp, takes)
            && (w.id.None? <==> e.lots == 0 || CrossesLive(side, price, w.market.BookOf(opp), c) || (side.Bid? && price == U64_MAX))
            && (w.id.Some? ==>
                  && w.id.value == OrderId(price, SeqNum(side, m.counter))
                  && RestsAs(m.BookOf(side), m.params.Capacity(side), w.market.BookOf(side),
                             Entry(w.id.value, RestingOrder(trader, packet, e.lots))))
  {
    hide Inv, Execute, TryPost, LimitCrosses, CrossesLive, RestsAs, Keeps, Balanced, Logged, TakesRight, AmountsRight, Quiet, SeqNum, RestingOrder;
    var side := packet.side;
    takes := ExecuteExact(m, packet, price, taker, c);
    e := Execute(m, packet, price, taker, c).value;
    ExecutedInv(m, packet, price, taker, c);
    SameOwnBook(m, packet, price, taker, c, e, takes);
    var crosses := LimitCrosses(e.market, side, price, c);
    LimitCrossesExactly(e.market, side, price, c);
    TryPostExact(e.market, trader, packet, price, e.lots, crosses, e.response);
    var w := TryPost(e.market, trader, packet, price, e.lots, crosses, e.response).value;
    var tail :| w.market.log == e.market.log + tail && Quiet(tail);
    ExecutedLogged(m, packet, price, taker, c, e, takes, w.market, tail);
  }

  lemma SameOwnBook(m: Market, packet: OrderPacket, limit: nat, taker: Option<TraderId>, c: Clock, e: Executed, takes: seq<HeadTake>)
    requires m.params.Valid() && TakesRight(m, packet, limit, taker, c, e, takes)
    ensures e.market.BookOf(packet.side) == m.BookOf(packet.side)
  {
    hide HeadsEnabled, Treated, BookAfter, FilledWorth, EventsOf;
  }

  /** What is recorded after matching is not about matching. */
  lemma ExecutedLogged(
    m: Market, packet: OrderPacket, limit: nat, taker: Option<TraderId>, c: Clock, e: Executed, takes: seq<HeadTake>,
    m': Market, tail: seq<Event>)
    requires m.params.Valid() && TakesRight(m, packet, limit, taker, c, e, takes)
    requires m'.log == e.market.log + tail && Quiet(tail)
    ensures Logged(m, m', Opposite(packet.side), takes)
  {
    hide HeadsEnabled, Treated, BookAfter, FilledWorth, EventsOf, Logged;
    var events := EventsOf(m.BookOf(Opposite(packet.side)), takes);
    var summary := e.market.log[|m.log + events|];
    assert e.market.log == m.log + events + [summary];
    assert m'.log == m.log + events + ([summary] + tail);
    LoggedWith(m, m', Opposite(packet.side), takes, [summary] + tail);
  }

  lemma ExecutedInv(m: Market, packet: OrderPacket, price: U64, taker: Option<TraderId>, c: Clock)
    requires Inv(m) && !packet.PostOnly? && Execute(m, packet, price, taker, c).Some?
    ensures var e := Execute(m, packet, price, taker, c).value;
            Inv(e.market) && e.market.counter == m.counter && e.market.params == m.params && e.market.traders.Keys == m.traders.Keys
  {
    ExecuteKeeps(m, packet, price, taker, c);
  }

  lemma InvValid(m: Market)
    requires Inv(m)
    ensures m.params.Valid()
  {
  }

  /** What a successful limit order leaves in the book. The lots named are matched, taken off own
      orders if self trades are decremented, or left. What is left rests, under the next number and
      with the packet's price and limits in time, unless it meets a live order, or is a buy at the
      highest possible price. */
  lemma LimitRests(m: Market, trader: TraderId, packet: OrderPacket, c: Clock)
    requires Inv(m) && packet.Limit? && !packet.IsExpired(c) && PlaceOrder(m, trader, packet, c).Some?
    ensures var r, side, price := PlaceOrder(m, trader, packet, c).value, packet.side, LimitOf(packet).value;
            var left := packet.baseLots - (SumFilled(r.market.log) - SumFilled(m.log))
                        - (if packet.selfTrade == DecrementTake then SumReduced(r.market.log) - SumReduced(m.log) else 0);
            && left >= 0 && m.counter <= U64_MAX
            && (r.id.None? <==>
                  left == 0 || CrossesLive(side, price, r.market.BookOf(Opposite(side)), c) || (side.Bid? && price == U64_MAX))
            && (r.id.Some? ==>
                  && r.id.value == OrderId(price, SeqNum(side, m.counter))
                  && RestsAs(m.BookOf(side), m.params.Capacity(side), r.market.BookOf(side),
                             Entry(r.id.value, RestingOrder(trader, packet, left))))
  {
    hide Inv, PlaceOrder, Work, Execute, CrossesLive, RestsAs, Logged, SumFilled, SumReduced, HeadsEnabled, FilledWorth, OwnWorth,
         CannotGoOn, TakesRight, AdjustedBudget, RestingOrder, SeqNum;
    var a, w := PlacedAsWorked(m, trader, packet, c);
    InvValid(m);
    var e, takes := LimitWork(a.market, trader, a.taker, packet, a.price, c);
    LoggedSums(a.market, w.market, Opposite(packet.side), takes);
  }

  /** What a successful post-only order leaves in the book: all its lots, at the price asked or
      exactly one tick away from the best live price of the other side. */
  lemma PostOnlyRests(m: Market, trader: TraderId, packet: OrderPacket, c: Clock)
    requires Inv(m) && packet.PostOnly? && !packet.IsExpired(c) && PlaceOrder(m, trader, packet, c).Some?
    ensures var r, side, asked := PlaceOrder(m, trader, packet, c).value, packet.side, LimitOf(packet).value;
            && m.counter <= U64_MAX && r.id.Some? && r.id.value.seqNum == SeqNum(side, m.counter)
            && RestsAs(m.BookOf(side), m.params.Capacity(side), r.market.BookOf(side),
                       Entry(r.id.value, RestingOrder(trader, packet, packet.baseLots)))
            && AmendedRight(side, asked, packet.reject, m.BookOf(Opposite(side)), c, Some(r.id.value.price))
  {
    hide Inv, PlaceOrder, PreparePostOnly, TryPost, RestsAs, Keeps, Balanced, SeqNum, AmendedRight, RestingOrder, NoCross, BetterPrice;
    var a, w := PlacedAsWorked(m, trader, packet, c);
    AdmitExactly(m, trader, packet);
    var side := packet.side;
    PreparePostOnlyKeeps(a.market, side, a.price, packet.reject, c);
    PreparePostOnlyExactly(a.market, side, a.price, packet.reject, c);
    var p := PreparePostOnly(a.market, side, a.price, packet.reject, c).value;
    PreparedInv(a.market, side, a.price, packet.reject, c);
    TryPostExact(p.market, trader, packet, p.price, packet.baseLots, false, NOTHING);
  }

  lemma PreparedInv(m: Market, side: Side, price: U64, reject: bool, c: Clock)
    requires Inv(m) && price > 0 && PreparePostOnly(m, side, price, reject, c).Some?
    ensures var p := PreparePostOnly(m, side, price, reject, c).value;
            && Inv(p.market) && p.market.params == m.params && p.market.counter == m.counter
            && p.market.traders.Keys == m.traders.Keys && p.market.BookOf(side) == m.BookOf(side)
  {
    hide SideOk, Uncrossed, LogInv, Balanced, NoCross, Stale;
    PreparePostOnlyKeeps(m, side, price, reject, c);
    CheckForCrossKeeps(m, side, price, c);
  }

  // ---------- fills ----------

  /** What happened on the opposite book of any unexpired placement. */
  lemma PlacementLogged(m: Market, trader: TraderId, packet: OrderPacket, c: Clock) returns (takes: seq<HeadTake>)
    requires Inv(m) && !packet.IsExpired(c) && PlaceOrder(m, trader, packet, c).Some?
    ensures var r, opp := PlaceOrder(m, trader, packet, c).value, Opposite(packet.side);
            var b := m.BookOf(opp);
            && Logged(m, r.market, opp, takes) && |takes| <= |b|
            && forall k | 0 <= k < |takes| && takes[k].kind.ByFill? ::
                 && !packet.PostOnly? && b[k].order.trader != trader && !Expired(b[k].order, c)
                 && Within(packet.side, LimitOf(packet), b[k].id.price)
  {
    hide Inv, PlaceOrder, Execute, PreparePostOnly, TryPost, Logged, Within, LimitOf, EventsOf, BookAfter, CannotGoOn, Spent, FilledWorth;
    var a, w := PlacedAsWorked(m, trader, packet, c);
    var side, opp := packet.side, Opposite(packet.side);
    AdmitExactly(m, trader, packet);
    if packet.PostOnly? {
      takes := PostOnlyLogged(a.market, trader, a.taker, packet, a.price, c);
      SameLogged(a.market, w.market, m, PlaceOrder(m, trader, packet, c).value.market, opp, takes);
    } else {
      var e;
      if packet.Limit? {
        e, takes := LimitWork(a.market, trader, a.taker, packet, a.price, c);
      } else {
        takes := ImmediateLogged(a.market, trader, a.taker, packet, a.price, c);
      }
      SameLogged(a.market, w.market, m, PlaceOrder(m, trader, packet, c).value.market, opp, takes);
      forall k | 0 <= k < |takes| && takes[k].kind.ByFill?
        ensures m.BookOf(opp)[k].order.trader != trader && !Expired(m.BookOf(opp)[k].order, c)
        ensures Within(side, LimitOf(packet), m.BookOf(opp)[k].id.price)
      {
        EntryPrice(m, opp, k);
        MakerSeated(m, opp, k);
        LimitIsPrice(m, trader, packet, m.BookOf(opp)[k].id.price);
      }
    }
  }

  lemma MakerSeated(m: Market, side: Side, i: nat)
    requires Inv(m) && i < |m.BookOf(side)|
    ensures m.BookOf(side)[i].order.trader in m.traders
  {
    assert SideInv(m, side);
  }

  lemma SameLogged(m: Market, m': Market, n: Market, n': Market, side: Side, takes: seq<HeadTake>)
    requires Logged(m, m', side, takes) && n.log == m.log && n'.log == m'.log && n.BookOf(side) == m.BookOf(side)
    ensures Logged(n, n', side, takes) && |takes| <= |n.BookOf(side)|
  {
  }

  lemma PostOnlyLogged(m: Market, trader: TraderId, taker: Option<TraderId>, packet: OrderPacket, price: U64, c: Clock)
    returns (takes: seq<HeadTake>)
    requires Inv(m) && 0 < m.counter < LAST_COUNTER && packet.PostOnly? && trader in m.traders && price > 0
    requires Work(m, trader, taker, packet, price, c).Some?
    ensures Logged(m, Work(m, trader, taker, packet, price, c).value.market, Opposite(packet.side), takes)
    ensures forall k | 0 <= k < |takes| :: !takes[k].kind.ByFill?
  {
    hide SideOk, TryPost, TakeHeads, ExpireHeads, Stale, EventsOf, HeadsEnabled, RestsAs, Logged, Keeps, Balanced;
    var side, opp := packet.side, Opposite(packet.side);
    var b := m.BookOf(opp);
    var n := Stale(side, price, b, c);
    takes := ExpireHeads(b, n);
    ExpireHeadsRemove(b, n);
    TakeHeadsLog(m, opp, takes);
    PreparedInv(m, side, price, packet.reject, c);
    var p := PreparePostOnly(m, side, price, packet.reject, c).value;
    PreparePostOnlyKeeps(m, side, price, packet.reject, c);
    TryPostExact(p.market, trader, packet, p.price, packet.baseLots, false, NOTHING);
    var w := TryPost(p.market, trader, packet, p.price, packet.baseLots, false, NOTHING).value;
    var tail :| w.market.log == p.market.log + tail && Quiet(tail);
    assert w.market.log == m.log + EventsOf(b, takes) + tail;
    LoggedWith(m, w.market, opp, takes, tail);
  }

  lemma ImmediateLogged(m: Market, trader: TraderId, taker: Option<TraderId>, packet: OrderPacket, price: U64, c: Clock)
    returns (takes: seq<HeadTake>)
    requires Inv(m) && 0 < m.counter < LAST_COUNTER && packet.ImmediateOrCancel?
    requires Work(m, trader, taker, packet, price, c).Some?
    ensures m.params.Valid() && Execute(m, packet, price, taker, c).Some?
    ensures Executes(m, packet, price, taker, c, Execute(m, packet, price, taker, c).value, takes)
    ensures Logged(m, Work(m, trader, taker, packet, price, c).value.market, Opposite(packet.side), takes)
  {
    hide SideOk, Execute, Logged, TakesRight, AmountsRight;
    takes := ExecuteExact(m, packet, price, taker, c);
    var e := Execute(m, packet, price, taker, c).value;
    assert e.market.log == e.market.log + [];
    ExecutedLogged(m, packet, price, taker, c, e, takes, e.market, []);
  }

  /** Every fill a placement records is of somebody else's resting order on the other side, at a price
      within the packet's limit: at most it for a buy, at least it for a sell. Post-only and expired
      packets record none. */
  lemma FillsWithinLimit(m: Market, trader: TraderId, packet: OrderPacket, c: Clock)
    requires Inv(m) && PlaceOrder(m, trader, packet, c).Some?
    ensures var log := PlaceOrder(m, trader, packet, c).value.market.log;
            && Extends(m.log, log)
            && forall i | |m.log| <= i < |log| && log[i].Fill? ::
                 && !packet.PostOnly? && !packet.IsExpired(c)
                 && log[i].maker != trader && log[i].filled > 0 && SideOf(log[i].seqNum) == Opposite(packet.side)
                 && (match packet.side
                     case Bid => LimitOf(packet).Some? ==> log[i].price <= LimitOf(packet).value
                     case Ask => LimitOf(packet).Some? ==> log[i].price >= LimitOf(packet).value)
  {
    hide Inv, PlaceOrder, EventsOf, HeadsEnabled, LimitOf;
    var r := PlaceOrder(m, trader, packet, c).value;
    if packet.IsExpired(c) {
      ExpiredPlacesNothing(m, trader, packet, c);
    } else {
      var opp := Opposite(packet.side);
      var b := m.BookOf(opp);
      var takes := PlacementLogged(m, trader, packet, c);
      var tail :| r.market.log == m.log + EventsOf(b, takes) + tail && NoTrades(tail);
      forall i | |m.log| <= i < |r.market.log| && r.market.log[i].Fill?
        ensures !packet.PostOnly? && r.market.log[i].maker != trader && r.market.log[i].filled > 0
        ensures SideOf(r.market.log[i].seqNum) == opp && Within(packet.side, LimitOf(packet), r.market.log[i].price)
      {
        var j := i - |m.log|;
        assert j < |EventsOf(b, takes)| && r.market.log[i] == EventsOf(b, takes)[j];
        var k := FillOrigin(b, takes, j);
        EntrySide(m, opp, k);
      }
    }
  }

  lemma EntrySide(m: Market, side: Side, i: nat)
    requires Inv(m) && i < |m.BookOf(side)|
    ensures SideOf(m.BookOf(side)[i].id.seqNum) == side
  {
    assert SideInv(m, side);
    assert EntryOk(side, m.BookOf(side)[i], m.counter);
  }

  /** Matching goes as far as the packet allows: afterwards the base amount or the match limit is used
      up, the other side is empty or its best price is beyond the limit, or what is left of the quote
      budget does not pay for one more lot at that price. */
  lemma MatchesAsFarAsPossible(m: Market, trader: TraderId, packet: OrderPacket, c: Clock) returns (takes: seq<HeadTake>)
    requires Inv(m) && !packet.PostOnly? && !packet.IsExpired(c) && PlaceOrder(m, trader, packet, c).Some?
    ensures var p, side, opp := m.params, packet.side, Opposite(packet.side);
            var b, rest := m.BookOf(opp), PlaceOrder(m, trader, packet, c).value.market.BookOf(opp);
            var budget := AdjustedBudget(p, side, QuoteNamed(packet));
            && HeadsEnabled(b, takes) && rest == BookAfter(b, takes) && Logged(m, PlaceOrder(m, trader, packet, c).value.market, opp, takes)
            && budget.Some?
            && var lots := (if packet.baseLots == 0 then U64_MAX else packet.baseLots) - Spent(p, packet, Ask, b, takes);
               && lots >= 0 && (packet.matchLimit.Some? ==> |takes| <= packet.matchLimit.value)
               && (|| lots == 0
                   || (packet.matchLimit.Some? && |takes| == packet.matchLimit.value) || |takes| == U64_MAX
                   || rest == []
                   || !Within(side, LimitOf(packet), rest[0].id.price)
                   || budget.value - Spent(p, packet, Bid, b, takes) * p.lotsPerUnit < rest[0].id.price * p.tickSize)
  {
    hide Inv, PlaceOrder, Execute, TryPost, Logged, Within, LimitOf, EventsOf, HeadsEnabled, BookAfter, Spent, Treated, AdjustedBudget, Keeps, Balanced;
    InvValid(m);
    var a, w := PlacedAsWorked(m, trader, packet, c);
    var opp := Opposite(packet.side);
    var e;
    if packet.Limit? {
      e, takes := LimitWork(a.market, trader, a.taker, packet, a.price, c);
    } else {
      takes := ImmediateLogged(a.market, trader, a.taker, packet, a.price, c);
      e := Execute(a.market, packet, a.price, a.taker, c).value;
    }
    SameLogged(a.market, w.market, m, PlaceOrder(m, trader, packet, c).value.market, opp, takes);
    var rest := w.market.BookOf(opp);
    if rest != [] {
      RestPrice(m, trader, packet, c);
      LimitIsPrice(m, trader, packet, rest[0].id.price);
    }
  }

  lemma RestPrice(m: Market, trader: TraderId, packet: OrderPacket, c: Clock)
    requires Inv(m) && PlaceOrder(m, trader, packet, c).Some?
    ensures var b := PlaceOrder(m, trader, packet, c).value.market.BookOf(Opposite(packet.side));
            b != [] ==> b[0].id.price <= U64_MAX
  {
    hide SideOk, PlaceOrder, Uncrossed, LogInv, Balanced;
    PlaceOrderKeeps(m, trader, packet, c);
    var m', opp := PlaceOrder(m, trader, packet, c).value.market, Opposite(packet.side);
    if m'.BookOf(opp) != [] {
      EntryPrice(m', opp, 0);
    }
  }

  // ---------- paying ----------

  /** A seated sender pays with its free funds first: it deposits only when none are left, and never
      uses more of them than it owes. */
  lemma FreeFundsFirst(m: Market, trader: TraderId, packet: OrderPacket, c: Clock)
    requires Inv(m) && PlaceOrder(m, trader, packet, c).Some?
    ensures var r, side := PlaceOrder(m, trader, packet, c).value, packet.side;
            && r.response.FreeUsed(side) <= r.response.In(side) + r.response.Posted(side)
            && r.response.FreeUsed(Opposite(side)) == 0
            && (trader in r.market.traders && r.response.Deposit(side) > 0 ==> r.market.traders[trader].Free(side) == 0)
  {
    hide SideOk, Work, Admit, Settle, Uncrossed, LogInv;
    PlaceOrderKeeps(m, trader, packet, c);
    AdmitExactly(m, trader, packet);
    if !packet.IsExpired(c) {
      AdmitKeeps(m, trader, packet, c);
      var a := Admit(m, trader, packet).value;
      WorkKeeps(a.market, trader, a.taker, packet, a.price, c);
      WorkPaid(a.market, trader, a.taker, packet, a.price, c);
      var w := Work(a.market, trader, a.taker, packet, a.price, c).value;
      SettlePaid(w.market, packet.side, a.taker, packet.depositedOnly, w.response, trader);
    }
  }

  /** Nothing of the other token is used, and what was posted is paid for by a deposit only when no
      free funds are left. */
  predicate PaidSoFar(m: Market, trader: TraderId, side: Side, r: Response) {
    && r.FreeUsed(Opposite(side)) == 0 && r.FreeUsed(side) <= r.Posted(side)
    && (r.Posted(side) > r.FreeUsed(side) ==> trader in m.traders && m.traders[trader].Free(side) == 0)
  }

  lemma TryPostPaid(m: Market, trader: TraderId, packet: OrderPacket, price: U64, lots: nat, crosses: bool, r: Response)
    requires Inv(m) && trader in m.traders && price > 0 && 0 < m.counter < LAST_COUNTER
    requires TryPost(m, trader, packet, price, lots, crosses, r).Some?
    requires forall s :: r.Posted(s) == r.FreeUsed(s) == 0
    ensures var p := TryPost(m, trader, packet, price, lots, crosses, r).value; PaidSoFar(p.market, trader, packet.side, p.response)
  {
    hide SideOk, Worth, MakeRoom, Insert, PostEnabled, PostEvents, SeqNum, Counter;
    assert r.Posted(Bid) == r.FreeUsed(Bid) == r.Posted(Ask) == r.FreeUsed(Ask) == 0;
    if lots > 0 && !crosses {
      RoomMade(m, packet.side, price);
      var m1 := MakeRoom(m, packet.side, price).value;
      NewEntryFits(m1, packet.side, trader, price, lots, packet);
    }
  }

  lemma WorkPaid(m: Market, trader: TraderId, taker: Option<TraderId>, packet: OrderPacket, price: U64, c: Clock)
    requires Inv(m) && 0 < m.counter < LAST_COUNTER
    requires !packet.TakeOnly() ==> trader in m.traders && price > 0
    requires Work(m, trader, taker, packet, price, c).Some?
    ensures var w := Work(m, trader, taker, packet, price, c).value; PaidSoFar(w.market, trader, packet.side, w.response)
  {
    hide SideOk, Execute, PreparePostOnly, TryPost, LimitCrosses, Uncrossed, LogInv, Balanced;
    if packet.PostOnly? {
      PreparePostOnlyKeeps(m, packet.side, price, packet.reject, c);
      var p := PreparePostOnly(m, packet.side, price, packet.reject, c).value;
      TryPostPaid(p.market, trader, packet, p.price, packet.baseLots, false, NOTHING);
    } else {
      ExecuteKeeps(m, packet, price, taker, c);
      var e := Execute(m, packet, price, taker, c).value;
      if packet.Limit? {
        TryPostPaid(e.market, trader, packet, price, e.lots, LimitCrosses(e.market, packet.side, price, c), e.response);
      }
    }
  }

  lemma SettlePaid(m: Market, side: Side, taker: Option<TraderId>, depositedOnly: bool, r: Response, trader: TraderId)
    requires taker.Some? ==> taker.value in m.traders && taker.value == trader
    requires taker.None? ==> trader !in m.traders
    requires Settle(m, side, taker, depositedOnly, r).Some? && PaidSoFar(m, trader, side, r) && r.Out(side) == 0
    ensures var s := Settle(m, side, taker, depositedOnly, r).value;
            && s.response.FreeUsed(Opposite(side)) == 0
            && (trader in s.market.traders && s.response.Deposit(side) > 0 ==> s.market.traders[trader].Free(side) == 0)
  {
  }

  // ---------- time limits ----------

  /** An order rests for as long as its packet is valid, except that a limit of zero, which makes a
      packet expire at once, means no limit to a resting order. */
  lemma RestsWhileValid(trader: TraderId, packet: OrderPacket, lots: nat, c: Clock)
    ensures Expired(RestingOrder(trader, packet, lots), c) <==>
            packet.(lastValidSlot := if packet.lastValidSlot == Some(0) then None else packet.lastValidSlot,
                    lastValidTime := if packet.lastValidTime == Some(0) then None else packet.lastValidTime).IsExpired(c)
  {
  }

  // ---------- failures ----------

  /** Matching fails exactly for a sell in quote lots at a fee of 100%, and when self trades abort and
      the walk that would cancel them instead meets one of the sender's own live orders. */
  lemma ExecuteFailsExactly(m: Market, packet: OrderPacket, limit: U64, taker: Option<TraderId>, c: Clock)
    requires Inv(m) && !packet.PostOnly?
    ensures m.params.Valid() && Positive(m.BookOf(Opposite(packet.side)))
    ensures var p, side := m.params, packet.side;
            var budget := AdjustedBudget(p, side, QuoteNamed(packet));
            Execute(m, packet, limit, taker, c).None? <==>
            if side.Ask? && QuoteNamed(packet).Some? && p.feeBps == BPS then true
            else
              && budget.Some? && packet.selfTrade == Abort
              && var w := Walk(p, m.BookOf(Opposite(side)), taker, c,
                               NewInflight(side, packet, limit, budget.value).(selfTrade := CancelProvide));
                 w.Some? && MeetsOwn(w.value.takes)
  {
    hide SideOk, TakeHeads, Walk, RoundUp, RoundDown, TakerFee, AdjustedBudget, MeetsOwn;
    var p, side, opp := m.params, packet.side, Opposite(packet.side);
    InvPositive(m, opp);
    BudgetFailsExactly(p, side, packet.QuoteBudget());
    var budget := AdjustedBudget(p, side, packet.QuoteBudget());
    if budget.Some? {
      var f := NewInflight(side, packet, limit, budget.value);
      if packet.selfTrade == Abort {
        WalkAbortsExactly(p, m.BookOf(opp), taker, c, f);
      } else {
        WalkFailsOnlyByAbort(p, m.BookOf(opp), taker, c, f);
      }
    }
  }

  /** An immediate order is void exactly when matching fails or fills less than one of its minima, as
      its fill summary tells. */
  lemma ImmediateFailsExactly(m: Market, trader: TraderId, taker: Option<TraderId>, packet: OrderPacket, limit: U64, c: Clock)
    requires Inv(m) && 0 < m.counter < LAST_COUNTER && packet.ImmediateOrCancel?
    ensures var e, w := Execute(m, packet, limit, taker, c), Work(m, trader, taker, packet, limit, c);
            && (e.Some? ==> e.value.market.log != [] && e.value.market.log[|e.value.market.log| - 1].FillSummary?)
            && (w.Some? <==>
                  && e.Some?
                  && var summary := e.value.market.log[|e.value.market.log| - 1];
                     summary.baseFilled >= packet.minBase && summary.quoteFilled >= packet.minQuote)
            && (w.Some? ==> w.value == Rested(e.value.market, None, e.value.response))
  {
    hide SideOk, MatchOrder, RoundUp, RoundDown, AdjustedBudget;
  }

  /** Paying fails exactly for a seated sender who may use only deposited funds and owes more than it
      has free. */
  lemma SettleFailsExactly(m: Market, side: Side, taker: Option<TraderId>, depositedOnly: bool, r: Response, trader: TraderId)
    requires taker.Some? ==> taker.value in m.traders && taker.value == trader
    requires PaidSoFar(m, trader, side, r) && r.Out(side) == 0 && r.In(Opposite(side)) == r.Posted(Opposite(side)) == 0
    ensures Settle(m, side, taker, depositedOnly, r).None? <==>
            taker.Some? && depositedOnly && m.traders[trader].Free(side) < r.In(side) + r.Posted(side) - r.FreeUsed(side)
  {
  }
}
