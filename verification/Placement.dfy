/** Placing an order: admission, matching or cross checking, posting with eviction, and payment
    out of free funds. A result of `None` is an error or an abort, after which the transaction is
    rolled back. */
module Placement {
  import opened Quantities
  import opened OrderIds
  import opened Books
  import opened Traders
  import opened Markets
  import opened Matching
  import opened Packets

  /** What an operation moved between the trader and the market, in lots. */
  datatype Response = Response(
    quoteIn: nat, baseIn: nat, quoteOut: nat, baseOut: nat,
    quotePosted: nat, basePosted: nat, freeQuoteUsed: nat, freeBaseUsed: nat)
  {
    function In(side: Side): nat {
      match side case Bid => quoteIn case Ask => baseIn
    }

    function Out(side: Side): nat {
      match side case Bid => quoteOut case Ask => baseOut
    }

    function Posted(side: Side): nat {
      match side case Bid => quotePosted case Ask => basePosted
    }

    function FreeUsed(side: Side): nat {
      match side case Bid => freeQuoteUsed case Ask => freeBaseUsed
    }

    /** What the trader's token account must pay in. */
    function Deposit(side: Side): int {
      In(side) + Posted(side) - FreeUsed(side)
    }

    function Matched(side: Side): nat {
      In(side) + Out(side)
    }

    predicate NoDeposit() {
      baseIn + basePosted == freeBaseUsed && quoteIn + quotePosted == freeQuoteUsed
    }

    predicate NoWithdrawal() {
      baseOut == 0 && quoteOut == 0
    }

    function Post(side: Side, lots: nat): Response {
      match side
      case Bid => this.(quotePosted := quotePosted + lots)
      case Ask => this.(basePosted := basePosted + lots)
    }

    function UseFree(side: Side, lots: nat): Response {
      match side
      case Bid => this.(freeQuoteUsed := freeQuoteUsed + lots)
      case Ask => this.(freeBaseUsed := freeBaseUsed + lots)
    }

    function KeepOut(side: Side): Response {
      match side case Bid => this.(quoteOut := 0) case Ask => this.(baseOut := 0)
    }
  }

  const NOTHING: Response := Response(0, 0, 0, 0, 0, 0, 0, 0)

  function FromBuy(quoteIn: nat, baseOut: nat): Response {
    NOTHING.(quoteIn := quoteIn, baseOut := baseOut)
  }

  function FromSell(baseIn: nat, quoteOut: nat): Response {
    NOTHING.(baseIn := baseIn, quoteOut := quoteOut)
  }

  function Withdrawal(baseOut: nat, quoteOut: nat): Response {
    NOTHING.(baseOut := baseOut, quoteOut := quoteOut)
  }

  // ---------- funds ----------

  /** All lots of one token the market accounts for: every trader's, and the unclaimed fees. */
  ghost function Funds(m: Market, side: Side): nat {
    Total(m.traders, side) + if side.Bid? then m.unclaimed else 0
  }

  /** The market's funds changed by exactly what the response says went in and came out. */
  ghost predicate BalancedFor(m: Market, m': Market, r: Response, side: Side) {
    && r.FreeUsed(side) <= r.In(side) + r.Posted(side)
    && Funds(m', side) + r.Out(side) == Funds(m, side) + r.In(side) + r.Posted(side) - r.FreeUsed(side)
  }

  ghost predicate Balanced(m: Market, m': Market, r: Response) {
    BalancedFor(m, m', r, Bid) && BalancedFor(m, m', r, Ask)
  }

  /** What every operation keeps at the current clock. */
  ghost predicate Keeps(m: Market, m': Market, c: Clock) {
    && Inv(m') && m'.params == m.params && m.counter <= m'.counter
    && (Uncrossed(m, c) ==> Uncrossed(m', c))
    && (LogInv(m) ==> LogInv(m'))
  }

  /** Changes outside the books and the log keep everything that `FreeChangeInv` keeps. */
  lemma FreeChangeKeeps(m: Market, t: TraderId, s: TraderState, c: Clock)
    requires Inv(m) && t in m.traders
    requires s.quoteLocked == m.traders[t].quoteLocked && s.baseLocked == m.traders[t].baseLocked
    ensures Keeps(m, m.WithTrader(t, s), c)
    ensures forall side :: Funds(m.WithTrader(t, s), side) + m.traders[t].Free(side) == Funds(m, side) + s.Free(side)
  {
    FreeChangeInv(m, t, s);
    forall side
      ensures Total(m.traders[t := s], side) + m.traders[t].Free(side) == Total(m.traders, side) + s.Free(side)
    {
      TotalUpdate(m.traders, side, t, s);
    }
  }

  // ---------- admission ----------

  datatype Admitted = Admitted(market: Market, price: U64, taker: Option<TraderId>)

  /** Checks the packet, fixes its price and finds or makes the trader's seat. */
  function Admit(m: Market, trader: TraderId, packet: OrderPacket): Option<Admitted> {
    if m.counter == 0 || m.counter == LAST_COUNTER then None
    else if packet.side.Bid? && packet.Price() == 0 then None
    else if packet.baseLots == 0 && packet.QuoteLotsGiven() == 0 then None
    else if packet.ImmediateOrCancel? && packet.baseLots > 0 && packet.quoteLots > 0 then None
    else if packet.TakeOnly() then
      Some(Admitted(m, packet.Price(), if trader in m.traders then Some(trader) else None))
    else match Register(m, trader)
      case None => None
      case Some(m') =>
        Some(Admitted(m', if packet.side.Ask? && packet.Price() == 0 then 1 else packet.Price(), Some(trader)))
  }

  lemma AdmitKeeps(m: Market, trader: TraderId, packet: OrderPacket, c: Clock)
    requires Inv(m) && Admit(m, trader, packet).Some?
    ensures var a := Admit(m, trader, packet).value;
            && Keeps(m, a.market, c) && Balanced(m, a.market, NOTHING)
            && a.market.counter == m.counter && 0 < m.counter < LAST_COUNTER
            && (a.taker.Some? ==> a.taker.value == trader && trader in a.market.traders)
            && (!packet.TakeOnly() ==> a.taker.Some? && a.price > 0)
            && a.market.BookOf(packet.side) == m.BookOf(packet.side)
  {
    if !packet.TakeOnly() {
      RegisterInv(m, trader);
      assert Funds(Register(m, trader).value, Bid) == Funds(m, Bid);
    }
  }

  // ---------- post-only orders ----------

  /** An order of `side` at `price` would trade with a resting order at `resting`. */
  predicate CrossesAt(side: Side, price: nat, resting: nat) {
    match side case Bid => resting <= price case Ask => resting >= price
  }

  /** How many orders at the top of the opposite book cross the price but have expired. */
  function Stale(side: Side, price: nat, book: Book, c: Clock): (n: nat)
    ensures n <= |book|
    ensures forall i | 0 <= i < n :: Expired(book[i].order, c) && CrossesAt(side, price, book[i].id.price)
    ensures n < |book| && CrossesAt(side, price, book[n].id.price) ==> !Expired(book[n].order, c)
  {
    if book == [] || !CrossesAt(side, price, book[0].id.price) || !Expired(book[0].order, c) then 0
    else 1 + Stale(side, price, book[1..], c)
  }

  function ExpireHeads(book: Book, n: nat): seq<HeadTake>
    requires n <= |book|
  {
    seq(n, i requires 0 <= i < n => HeadTake(book[i].order.lots, ByExpiry))
  }

  datatype CrossChecked = CrossChecked(market: Market, best: Option<nat>)

  /** Removes expired orders that the price crosses and finds the best live price it crosses. */
  function CheckForCross(m: Market, side: Side, price: nat, c: Clock): CrossChecked
    requires Inv(m)
  {
    var book := m.BookOf(Opposite(side));
    var n := Stale(side, price, book, c);
    ExpireHeadsRemove(book, n);
    CrossChecked(
      TakeHeads(m, Opposite(side), ExpireHeads(book, n)),
      if n < |book| && CrossesAt(side, price, book[n].id.price) then Some(book[n].id.price) else None)
  }

  lemma CheckForCrossKeeps(m: Market, side: Side, price: nat, c: Clock)
    requires Inv(m)
    ensures var r := CheckForCross(m, side, price, c);
            && Keeps(m, r.market, c) && Balanced(m, r.market, NOTHING)
            && r.market.counter == m.counter && r.market.traders.Keys == m.traders.Keys
            && r.market.BookOf(side) == m.BookOf(side)
            && r.market.BookOf(Opposite(side)) == m.BookOf(Opposite(side))[Stale(side, price, m.BookOf(Opposite(side)), c)..]
  {
    hide SideOk, Uncrossed, LogInv, TakeHeads, ExpireHeads, BookAfter, HeadsEnabled, Stale, FilledWorth;
    var opp, book := Opposite(side), m.BookOf(Opposite(side));
    var takes := ExpireHeads(book, Stale(side, price, book, c));
    ExpireHeadsRemove(book, Stale(side, price, book, c));
    TakeHeadsShape(m, opp, takes);
    TakeHeadsFollow(m, opp, takes, c);
    TakeHeadsTotals(m, opp, takes);
    NothingFilled(m.params, Bid, book, takes);
    NothingFilled(m.params, Ask, book, takes);
  }

  /** The funds behind every removed order return to its owner's free balance, and nothing else of
      anybody's balances changes. */
  lemma CheckForCrossReturns(m: Market, side: Side, price: nat, c: Clock, u: TraderId)
    requires Inv(m) && u in m.traders
    ensures var m', opp := CheckForCross(m, side, price, c).market, Opposite(side);
            var removed := m.BookOf(opp)[..Stale(side, price, m.BookOf(opp), c)];
            && u in m'.traders
            && m'.traders[u].Locked(opp) + LockedIn(m.params, opp, removed, u) == m.traders[u].Locked(opp)
            && m'.traders[u].Free(opp) == m.traders[u].Free(opp) + LockedIn(m.params, opp, removed, u)
            && m'.traders[u].Locked(side) == m.traders[u].Locked(side) && m'.traders[u].Free(side) == m.traders[u].Free(side)
  {
    hide BookOk, Registered, Uncrossed, LogInv, TakeHeads, ExpireHeads, BookAfter, HeadsEnabled, Stale, LockedIn, Balanced;
    var opp, book := Opposite(side), m.BookOf(Opposite(side));
    var n := Stale(side, price, book, c);
    var m' := CheckForCross(m, side, price, c).market;
    ExpireHeadsRemove(book, n);
    CheckForCrossKeeps(m, side, price, c);
    TakeHeadsReturn(m, opp, ExpireHeads(book, n), u);
    assert SideInv(m, opp) && SideInv(m', opp);
    assert book == book[..n] + book[n..];
    LockedInConcat(m.params, opp, book[..n], book[n..], u);
  }

  lemma {:induction false} TakeHeadsReturn(m: Market, side: Side, takes: seq<HeadTake>, u: TraderId)
    requires Inv(m) && HeadsEnabled(m.BookOf(side), takes) && u in m.traders
    requires forall k | 0 <= k < |takes| :: !takes[k].kind.ByFill?
    ensures var m' := TakeHeads(m, side, takes);
            && u in m'.traders
            && m'.traders[u].Held(side) == m.traders[u].Held(side)
            && m'.traders[u].Locked(Opposite(side)) == m.traders[u].Locked(Opposite(side))
            && m'.traders[u].Free(Opposite(side)) == m.traders[u].Free(Opposite(side))
    decreases takes
  {
    hide Inv, Worth, HeadsEnabled, TakeEvents, Shrink;
    if takes != [] {
      var lots, kind := takes[0].lots, takes[0].kind;
      HeadsEnabledHead(m.BookOf(side), takes);
      TakeInv(m, side, 0, lots, kind);
      HeadsEnabledTail(m, side, takes);
      LockedCovers(m, side, 0, lots);
      TakeHeadsReturn(Take(m, side, 0, lots, kind), side, takes[1..], u);
    }
  }

  lemma ExpireHeadsRemove(book: Book, n: nat)
    requires n <= |book|
    ensures HeadsEnabled(book, ExpireHeads(book, n))
    ensures BookAfter(book, ExpireHeads(book, n)) == book[n..]
    ensures forall k | 0 <= k < |ExpireHeads(book, n)| :: !ExpireHeads(book, n)[k].kind.ByFill?
  {
  }

  lemma TakeHeadsFollow(m: Market, side: Side, takes: seq<HeadTake>, c: Clock)
    requires Inv(m) && HeadsEnabled(m.BookOf(side), takes)
    ensures Keeps(m, TakeHeads(m, side, takes), c)
  {
    hide Inv, Uncrossed, LogInv, HeadsEnabled, BookAfter;
    TakeHeadsShape(m, side, takes);
    TakeHeadsKeeps(m, side, takes, c);
  }

  lemma {:induction false} NothingFilled(p: Params, side: Side, book: Book, takes: seq<HeadTake>)
    requires p.Valid() && |takes| <= |book|
    requires forall k | 0 <= k < |takes| :: !takes[k].kind.ByFill?
    ensures FilledWorth(p, side, book, takes) == 0
  {
    if takes != [] {
      NothingFilled(p, side, book[1..], takes[1..]);
    }
  }

  datatype Prepared = Prepared(market: Market, price: U64)

  /** A post-only order that would cross is rejected or moved to the closest price that does not. */
  function PreparePostOnly(m: Market, side: Side, price: U64, reject: bool, c: Clock): Option<Prepared>
    requires Inv(m)
  {
    var r := CheckForCross(m, side, price, c);
    match r.best
    case None => Some(Prepared(r.market, price))
    case Some(best) =>
      if reject || (side.Bid? && best <= 1) || (side.Ask? && best >= U64_MAX) then None
      else if side.Bid? then Some(Prepared(r.market, Min(best - 1, U64_MAX)))
      else Some(Prepared(r.market, best + 1))
  }

  /** Whatever price a post-only order ends up with crosses no live order, and is no more
      aggressive than the price asked for. */
  lemma PreparePostOnlyKeeps(m: Market, side: Side, price: U64, reject: bool, c: Clock)
    requires Inv(m) && price > 0 && PreparePostOnly(m, side, price, reject, c).Some?
    ensures var r := PreparePostOnly(m, side, price, reject, c).value;
            && Keeps(m, r.market, c) && Balanced(m, r.market, NOTHING)
            && r.market.counter == m.counter && r.market.traders.Keys == m.traders.Keys
            && NoCross(r.market, side, r.price, c)
            && r.price > 0 && !BetterPrice(side, r.price, price)
  {
    hide SideOk, Uncrossed, LogInv, CheckForCross, Balanced;
    CheckForCrossKeeps(m, side, price, c);
    CrossedPrice(m, side, price, c);
    LiveBeyond(m, side, price, PreparePostOnly(m, side, price, reject, c).value.price, c);
  }

  lemma CrossedPrice(m: Market, side: Side, price: nat, c: Clock)
    requires Inv(m)
    ensures var best := CheckForCross(m, side, price, c).best;
            best.Some? ==> 0 < best.value <= U64_MAX && CrossesAt(side, price, best.value)
  {
    var opp, book := Opposite(side), m.BookOf(Opposite(side));
    assert SideInv(m, opp);
    var n := Stale(side, price, book, c);
    assert n < |book| ==> EntryOk(opp, book[n], m.counter);
  }

  /** A price beyond the best crossed live price, or the asked price if there is none, crosses
      nothing that is left. */
  lemma LiveBeyond(m: Market, side: Side, price: nat, price': nat, c: Clock)
    requires Inv(m)
    requires match CheckForCross(m, side, price, c).best
             case None => price' == price
             case Some(best) => !CrossesAt(side, price', best)
    ensures NoCross(CheckForCross(m, side, price, c).market, side, price', c)
  {
    hide BookOk, Funded, Registered, Uncrossed, LogInv, TakeHeads, ExpireHeads, Balanced, Stale;
    CheckForCrossKeeps(m, side, price, c);
    assert SideInv(m, Opposite(side));
    BeyondRest(side, m.BookOf(Opposite(side)), m.counter, price, price', c);
  }

  lemma BeyondRest(side: Side, book: Book, counter: nat, price: nat, price': nat, c: Clock)
    requires BookOk(Opposite(side), book, counter)
    requires var n := Stale(side, price, book, c);
             if n < |book| && CrossesAt(side, price, book[n].id.price) then !CrossesAt(side, price', book[n].id.price)
             else price' == price
    ensures var rest := book[Stale(side, price, book, c)..];
            forall i | 0 <= i < |rest| :: BetterPrice(Opposite(side), price', rest[i].id.price)
  {
    var n := Stale(side, price, book, c);
    forall i | 0 <= i < |book| - n
      ensures BetterPrice(Opposite(side), price', book[n..][i].id.price)
    {
      PricesWorsen(Opposite(side), book, counter, n, n + i);
    }
  }

  // ---------- matching ----------

  function NewInflight(side: Side, packet: OrderPacket, price: nat, adjBudget: nat): Inflight
    requires !packet.PostOnly?
  {
    Inflight(side, packet.selfTrade, false, price, packet.MatchLimit(), packet.BaseBudget(), adjBudget, 0, 0, 0,
             packet.lastValidSlot, packet.lastValidTime)
  }

  datatype Executed = Executed(market: Market, lots: nat, response: Response, flight: Inflight)

  /** Matches a limit or immediate order and accounts for the whole quote lots it pays or gets. */
  function Execute(m: Market, packet: OrderPacket, price: U64, taker: Option<TraderId>, c: Clock): Option<Executed>
    requires Inv(m) && !packet.PostOnly?
  {
    var p, side := m.params, packet.side;
    match AdjustedBudget(p, side, packet.QuoteBudget())
    case None => None
    case Some(adjBudget) =>
      match MatchOrder(m, taker, c, NewInflight(side, packet, price, adjBudget))
      case None => None
      case Some(o) =>
        var f := o.flight;
        MatchedFacts(m, taker, c, NewInflight(side, packet, price, adjBudget));
        var quote := match side
          case Bid => RoundUp(p, f.matchedAdj) / p.lotsPerUnit + f.quoteFees
          case Ask => RoundDown(p, f.matchedAdj) / p.lotsPerUnit - f.quoteFees;
        var response := match side
          case Bid => FromBuy(quote, f.matchedBase)
          case Ask => FromSell(f.matchedBase, quote);
        Some(Executed(o.market.Record([FillSummary(packet.clientId, f.matchedBase, quote, f.quoteFees)]),
                      f.baseBudget, response, f))
  }

  /** Quote lots exchanged with the makers by one match. */
  function MatchedQuote(m: Market, taker: Option<TraderId>, c: Clock, f: Inflight): nat
    requires Inv(m) && MatchOrder(m, taker, c, f).Some?
  {
    var book := m.BookOf(Opposite(f.side));
    InvPositive(m, Opposite(f.side));
    WalkTreats(m.params, book, taker, c, f);
    FilledWorth(m.params, Bid, book, Walk(m.params, book, taker, c, f).value.takes)
  }

  /** Matched amounts are whole quote lots, stay within the budgets, and the fee on a sell never
      exceeds what was matched. */
  lemma MatchedFacts(m: Market, taker: Option<TraderId>, c: Clock, f: Inflight)
    requires Inv(m) && MatchOrder(m, taker, c, f).Some? && f.matchedBase == 0 && f.matchedAdj == 0
    ensures var g, q, p := MatchOrder(m, taker, c, f).value.flight, MatchedQuote(m, taker, c, f), m.params;
            && g.matchedAdj == q * p.lotsPerUnit <= f.adjBudget
            && g.matchedBase + g.baseBudget <= f.baseBudget
            && RoundUp(p, g.matchedAdj) / p.lotsPerUnit == q
            && RoundDown(p, g.matchedAdj) / p.lotsPerUnit == q
            && g.quoteFees == TakerFee(p, q * p.lotsPerUnit) <= q
  {
    hide RoundUp, RoundDown, TakerFee, CeilDiv, SelfSpent, FilledWorth, Walk, SideOk;
    var book := m.BookOf(Opposite(f.side));
    InvPositive(m, Opposite(f.side));
    WalkTreats(m.params, book, taker, c, f);
    WalkBudgets(m.params, book, taker, c, f);
    TakerFeeOfQuoteLots(m.params, MatchedQuote(m, taker, c, f));
  }

  /** Events that say nothing about resting orders keep the log in agreement with the books. */
  lemma QuietRecordKeeps(m: Market, ev: Event, c: Clock)
    requires Inv(m) && (ev.FillSummary? || ev.Fee?)
    ensures Keeps(m, m.Record([ev]), c)
  {
    hide BookOk, Funded, Registered, Agrees, UncrossedBooks;
    var m' := m.Record([ev]);
    assert SideInv(m', Bid) && SideInv(m', Ask);
    ReplayAppend(m.log, ev);
    if LogInv(m) {
      FreshIdsQuiet(m.log, [ev], m.counter);
    }
  }

  lemma MatchOrderKeeps(m: Market, taker: Option<TraderId>, c: Clock, f: Inflight)
    requires Inv(m) && MatchOrder(m, taker, c, f).Some? && f.matchedBase == 0 && f.matchedAdj == 0
    ensures var o, q, opp := MatchOrder(m, taker, c, f).value, MatchedQuote(m, taker, c, f), Opposite(f.side);
            && Keeps(m, o.market, c) && o.market.counter == m.counter && o.market.traders.Keys == m.traders.Keys
            && o.market.BookOf(f.side) == m.BookOf(f.side)
            && o.market.unclaimed == m.unclaimed + o.flight.quoteFees
            && (f.side.Bid? ==>
                && Total(o.market.traders, Bid) == Total(m.traders, Bid) + q
                && Total(o.market.traders, Ask) + o.flight.matchedBase == Total(m.traders, Ask))
            && (f.side.Ask? ==>
                && Total(o.market.traders, Bid) + q == Total(m.traders, Bid)
                && Total(o.market.traders, Ask) == Total(m.traders, Ask) + o.flight.matchedBase)
  {
    hide SideOk, Uncrossed, LogInv, TakeHeads, Walk, HeadsEnabled, FilledWorth, TakerFee, BookAfter, TreatedAs;
    var opp, book := Opposite(f.side), m.BookOf(Opposite(f.side));
    InvPositive(m, opp);
    WalkTreats(m.params, book, taker, c, f);
    WalkBudgets(m.params, book, taker, c, f);
    var takes := Walk(m.params, book, taker, c, f).value.takes;
    TakeHeadsShape(m, opp, takes);
    TakeHeadsFollow(m, opp, takes, c);
    TakeHeadsTotals(m, opp, takes);
    FeesKeep(m, TakeHeads(m, opp, takes), MatchOrder(m, taker, c, f).value.market.unclaimed, c);
  }

  lemma FeesKeep(m: Market, m': Market, fees: nat, c: Clock)
    requires Keeps(m, m', c)
    ensures Keeps(m, m'.(unclaimed := fees), c)
  {
    var m'' := m'.(unclaimed := fees);
    assert SideInv(m'', Bid) && SideInv(m'', Ask);
  }

  lemma ExecuteKeeps(m: Market, packet: OrderPacket, price: U64, taker: Option<TraderId>, c: Clock)
    requires Inv(m) && !packet.PostOnly? && Execute(m, packet, price, taker, c).Some?
    ensures var e, side := Execute(m, packet, price, taker, c).value, packet.side;
            && Keeps(m, e.market, c) && Balanced(m, e.market, e.response)
            && e.market.counter == m.counter && e.market.traders.Keys == m.traders.Keys
            && e.market.BookOf(side) == m.BookOf(side)
            && e.response.Out(side) == 0 && e.response.In(Opposite(side)) == 0
            && e.response.Posted(Bid) == e.response.Posted(Ask) == 0
            && e.response.FreeUsed(Bid) == e.response.FreeUsed(Ask) == 0
  {
    hide SideOk, Uncrossed, LogInv, MatchOrder, RoundUp, RoundDown, TakerFee, AdjustedBudget, MatchedQuote;
    var f := NewInflight(packet.side, packet, price, AdjustedBudget(m.params, packet.side, packet.QuoteBudget()).value);
    var o := MatchOrder(m, taker, c, f).value;
    MatchedFacts(m, taker, c, f);
    MatchOrderKeeps(m, taker, c, f);
    var e := Execute(m, packet, price, taker, c).value;
    QuietRecordKeeps(o.market, e.market.log[|o.market.log|], c);
  }

  // ---------- posting ----------

  /** The first unexpired order of a book: its best live price. */
  function BestLive(book: Book, c: Clock): Option<nat> {
    if book == [] then None
    else if !Expired(book[0].order, c) && book[0].order.lots > 0 then Some(book[0].id.price)
    else BestLive(book[1..], c)
  }

  /** The remainder of a limit order is posted only at a price that crosses no live order. */
  predicate LimitCrosses(m: Market, side: Side, price: U64, c: Clock) {
    var best := BestLive(m.BookOf(Opposite(side)), c);
    match side
    case Bid => price >= (if best.Some? then best.value else U64_MAX)
    case Ask => price <= (if best.Some? then best.value else 0)
  }

  lemma {:induction false} BestLiveIsBest(side: Side, book: Book, counter: nat, c: Clock, i: nat)
    requires BookOk(side, book, counter) && i < |book| && !Expired(book[i].order, c)
    ensures BestLive(book, c).Some? && !BetterPrice(side, book[i].id.price, BestLive(book, c).value)
  {
    assert EntryOk(side, book[0], counter);
    if Expired(book[0].order, c) {
      BookOkTail(side, book, counter);
      BestLiveIsBest(side, book[1..], counter, c, i - 1);
    } else {
      PricesWorsen(side, book, counter, 0, i);
    }
  }

  lemma BookOkTail(side: Side, book: Book, counter: nat)
    requires BookOk(side, book, counter) && book != []
    ensures BookOk(side, book[1..], counter)
  {
  }

  lemma LimitNoCross(m: Market, side: Side, price: U64, c: Clock)
    requires Inv(m) && !LimitCrosses(m, side, price, c)
    ensures NoCross(m, side, price, c)
  {
    var opp, book := Opposite(side), m.BookOf(Opposite(side));
    assert SideInv(m, opp);
    forall i | 0 <= i < |book| && !Expired(book[i].order, c)
      ensures BetterPrice(opp, price, book[i].id.price)
    {
      BestLiveIsBest(opp, book, m.counter, c, i);
    }
  }

  /** Evicts the least aggressive order of a full book, if the new price beats it. */
  function MakeRoom(m: Market, side: Side, price: nat): Option<Market>
    requires Inv(m)
  {
    var book := m.BookOf(side);
    if |book| < m.params.Capacity(side) then Some(m)
    else if book == [] || !BetterPrice(side, price, book[|book| - 1].id.price) then None
    else Some(Take(m, side, |book| - 1, book[|book| - 1].order.lots, ByEviction))
  }

  lemma MakeRoomKeeps(m: Market, side: Side, price: nat, c: Clock)
    requires Inv(m) && MakeRoom(m, side, price).Some?
    ensures var m' := MakeRoom(m, side, price).value;
            && Keeps(m, m', c) && Balanced(m, m', NOTHING)
            && m'.counter == m.counter && m'.traders.Keys == m.traders.Keys
            && |m'.BookOf(side)| < m.params.Capacity(side)
            && m'.BookOf(Opposite(side)) == m.BookOf(Opposite(side))
  {
    hide SideOk, Uncrossed, LogInv, TakeState, TakeEvents;
    var b := m.BookOf(side);
    WithinCapacity(m, side);
    if |b| == m.params.Capacity(side) {
      TakeReturns(m, side, |b| - 1, b[|b| - 1].order.lots, ByEviction, c);
      assert |Shrink(b, |b| - 1, b[|b| - 1].order.lots)| == |b| - 1;
    }
  }

  /** There is room in a book that is not full, and otherwise for a price strictly better than the
      worst one. Only the owner of the evicted order is affected: what it locked becomes free. */
  lemma MakeRoomReturns(m: Market, side: Side, price: nat)
    requires Inv(m)
    ensures var book := m.BookOf(side);
            MakeRoom(m, side, price).Some? <==>
            || |book| < m.params.Capacity(side)
            || (book != [] && if side.Bid? then price > book[|book| - 1].id.price else price < book[|book| - 1].id.price)
    ensures MakeRoom(m, side, price).Some? ==>
            var book, ts := m.BookOf(side), MakeRoom(m, side, price).value.traders;
            if |book| < m.params.Capacity(side) then ts == m.traders
            else
              && book != []
              && var e := book[|book| - 1];
              && BetterPrice(side, price, e.id.price)
              && e.order.trader in m.traders
              && Worth(m.params, side, e.id.price, e.order.lots) <= m.traders[e.order.trader].Locked(side)
              && ts == m.traders[e.order.trader :=
                                 m.traders[e.order.trader].Unlock(side, Worth(m.params, side, e.id.price, e.order.lots))]
  {
    hide SideOk, Worth, Shrink, TakeEvents;
    var b := m.BookOf(side);
    if |b| >= m.params.Capacity(side) && b != [] {
      LockedCovers(m, side, |b| - 1, b[|b| - 1].order.lots);
    }
  }

  /** Taking lots other than by a fill returns them to their owner and moves nothing else. */
  lemma TakeReturns(m: Market, side: Side, i: nat, lots: nat, kind: TakeKind, c: Clock)
    requires Inv(m) && TakeEnabled(m.BookOf(side), i, lots, kind) && !kind.ByFill?
    ensures var m' := Take(m, side, i, lots, kind);
            Keeps(m, m', c) && Balanced(m, m', NOTHING) && m'.counter == m.counter && m'.traders.Keys == m.traders.Keys
  {
    hide SideOk, Uncrossed, LogInv, TakeState, TakeEvents, Shrink, Worth;
    TakeFollows(m, side, i, lots, kind, c);
    TakeTotals(m, side, i, lots, kind);
    LockedCovers(m, side, i, lots);
    assert Take(m, side, i, lots, kind).traders.Keys == m.traders.Keys;
  }

  lemma WithinCapacity(m: Market, side: Side)
    requires Inv(m)
    ensures |m.BookOf(side)| <= m.params.Capacity(side)
  {
    assert SideInv(m, side);
  }

  lemma TakeFollows(m: Market, side: Side, i: nat, lots: nat, kind: TakeKind, c: Clock)
    requires Inv(m) && TakeEnabled(m.BookOf(side), i, lots, kind)
    ensures Keeps(m, Take(m, side, i, lots, kind), c)
  {
    hide SideOk, Uncrossed, LogInv, TakeState, TakeEvents;
    TakeInv(m, side, i, lots, kind);
    if Uncrossed(m, c) {
      TakeUncrossed(m, side, i, lots, kind, c);
    }
    if LogInv(m) {
      TakeLog(m, side, i, lots, kind);
    }
  }

  datatype Rested = Rested(market: Market, id: Option<OrderId>, response: Response)

  function NewEntry(m: Market, side: Side, trader: TraderId, price: nat, lots: nat, packet: OrderPacket): Entry
    requires m.counter <= U64_MAX
  {
    Entry(OrderId(price, SeqNum(side, m.counter)),
          Order(trader, lots, OrZero(packet.lastValidSlot), OrZero(packet.lastValidTime)))
  }

  lemma NewEntryFits(m: Market, side: Side, trader: TraderId, price: nat, lots: nat, packet: OrderPacket)
    requires trader in m.traders && 0 < price <= U64_MAX && lots > 0 && 0 < m.counter < LAST_COUNTER
    requires |m.BookOf(side)| < m.params.Capacity(side)
    ensures PostEnabled(m, side, NewEntry(m, side, trader, price, lots, packet))
  {
    SeqNumRoundTrip(side, m.counter);
  }

  /** Rests the remaining lots unless nothing is left or they would cross. */
  function TryPost(m: Market, trader: TraderId, packet: OrderPacket, price: U64, lots: nat, crosses: bool, r: Response): Option<Rested>
    requires Inv(m) && trader in m.traders && price > 0 && 0 < m.counter < LAST_COUNTER
  {
    var side := packet.side;
    if lots == 0 || crosses then Some(Rested(m, None, r))
    else match MakeRoom(m, side, price)
      case None => None
      case Some(m1) =>
        MakeRoomKeeps(m, side, price, Clock(0, 0));
        NewEntryFits(m1, side, trader, price, lots, packet);
        var e := NewEntry(m1, side, trader, price, lots, packet);
        var w := Worth(m.params, side, price, lots);
        var used := Min(w, m1.traders[trader].Free(side));
        Some(Rested(Post(m1, side, e, packet.clientId), Some(e.id), r.Post(side, w).UseFree(side, used)))
  }

  lemma TryPostKeeps(m0: Market, m: Market, trader: TraderId, packet: OrderPacket, price: U64, lots: nat, crosses: bool, r: Response, c: Clock)
    requires Inv(m) && trader in m.traders && price > 0 && 0 < m.counter < LAST_COUNTER
    requires TryPost(m, trader, packet, price, lots, crosses, r).Some?
    requires crosses || NoCross(m, packet.side, price, c)
    requires Balanced(m0, m, r) && r.Posted(packet.side) == r.FreeUsed(packet.side) == 0
    ensures var p, side := TryPost(m, trader, packet, price, lots, crosses, r).value, packet.side;
            && Keeps(m, p.market, c) && Balanced(m0, p.market, p.response)
            && p.market.traders.Keys == m.traders.Keys
            && (forall s :: p.response.In(s) == r.In(s) && p.response.Out(s) == r.Out(s))
            && p.response.FreeUsed(side) <= p.response.Posted(side)
  {
    hide SideOk, Uncrossed, LogInv, Worth, MakeRoom, Insert, PostEnabled, PostEvents, PostState, Counter, SeqNum, Funds;
    var side, p := packet.side, TryPost(m, trader, packet, price, lots, crosses, r).value;
    if p.id.Some? {
      var m1 := MakeRoom(m, side, price).value;
      MakeRoomKeeps(m, side, price, c);
      var e := NewEntry(m1, side, trader, price, lots, packet);
      NewEntryFits(m1, side, trader, price, lots, packet);
      PostFollows(m1, side, e, packet.clientId, c);
      PostBalances(m0, m1, side, e, packet.clientId, r);
      assert p.market.traders.Keys == m1.traders.Keys;
    }
  }

  lemma PostBalances(m0: Market, m: Market, side: Side, e: Entry, clientId: nat, r: Response)
    requires Inv(m) && PostEnabled(m, side, e)
    requires Balanced(m0, m, r) && r.Posted(side) == r.FreeUsed(side) == 0
    ensures var w := Worth(m.params, side, e.id.price, e.order.lots);
            var used := Min(w, m.traders[e.order.trader].Free(side));
            Balanced(m0, Post(m, side, e, clientId), r.Post(side, w).UseFree(side, used))
  {
    hide SideOk, Worth, Insert, EntryOk, PostEvents, PostState;
    PostTotals(m, side, e, clientId);
    var w := Worth(m.params, side, e.id.price, e.order.lots);
    var m', r' := Post(m, side, e, clientId), r.Post(side, w).UseFree(side, Min(w, m.traders[e.order.trader].Free(side)));
    assert m'.unclaimed == m.unclaimed;
    assert BalancedFor(m0, m', r', side) && BalancedFor(m0, m', r', Opposite(side));
  }

  lemma PostFollows(m: Market, side: Side, e: Entry, clientId: nat, c: Clock)
    requires Inv(m) && PostEnabled(m, side, e) && NoCross(m, side, e.id.price, c)
    ensures Keeps(m, Post(m, side, e, clientId), c)
  {
    hide SideOk, Uncrossed, LogInv, NoCross, PostEnabled, PostState, PostEvents, Insert;
    PostInv(m, side, e, clientId);
    if Uncrossed(m, c) {
      PostUncrossed(m, side, e, clientId, c);
    }
    if LogInv(m) {
      PostLog(m, side, e, clientId);
    }
  }

  // ---------- paying with free funds ----------

  datatype Settled = Settled(market: Market, response: Response)

  /** A seated trader's free funds pay first; an order that may use only deposited funds keeps what
      it matched in the free balance and fails if anything would have to be paid in. */
  function Settle(m: Market, side: Side, taker: Option<TraderId>, depositedOnly: bool, r: Response): Option<Settled>
    requires taker.Some? ==> taker.value in m.traders
  {
    if taker.None? then Some(Settled(m, r)) else
      var t := taker.value;
      var used := Min(m.traders[t].Free(side), r.Matched(side));
      var s1, r1 := m.traders[t].UseFree(side, used), r.UseFree(side, used);
      if !depositedOnly then Some(Settled(m.WithTrader(t, s1), r1)) else
        var opp := Opposite(side);
        var s2, r2 := s1.DepositFree(opp, r1.Out(opp)), r1.KeepOut(opp);
        if r2.NoDeposit() && r2.NoWithdrawal() then Some(Settled(m.WithTrader(t, s2), r2)) else None
  }

  lemma SettleKeeps(m0: Market, m: Market, side: Side, taker: Option<TraderId>, depositedOnly: bool, r: Response, c: Clock)
    requires Inv(m) && (taker.Some? ==> taker.value in m.traders)
    requires Settle(m, side, taker, depositedOnly, r).Some?
    requires Balanced(m0, m, r) && r.Out(side) == 0 && r.FreeUsed(side) <= r.Posted(side)
    ensures var s := Settle(m, side, taker, depositedOnly, r).value;
            && Keeps(m, s.market, c) && Balanced(m0, s.market, s.response)
            && (taker.Some? && depositedOnly ==> s.response.NoWithdrawal() && s.response.Deposit(Bid) == s.response.Deposit(Ask) == 0)
  {
    hide Inv, Uncrossed, LogInv, Funds;
    if taker.Some? {
      var t, s := taker.value, Settle(m, side, taker, depositedOnly, r).value;
      FreeChangeKeeps(m, t, s.market.traders[t], c);
      assert BalancedFor(m0, s.market, s.response, side);
      assert BalancedFor(m0, s.market, s.response, Opposite(side));
    } else {
      assert Keeps(m, m, c);
    }
  }

  // ---------- the whole operation ----------

  /** Matching and posting, by kind of packet. */
  function Work(m: Market, trader: TraderId, taker: Option<TraderId>, packet: OrderPacket, price: U64, c: Clock): Option<Rested>
    requires Inv(m) && 0 < m.counter < LAST_COUNTER
    requires !packet.TakeOnly() ==> trader in m.traders && price > 0
  {
    if packet.PostOnly? then
      match PreparePostOnly(m, packet.side, price, packet.reject, c)
      case None => None
      case Some(p) =>
        PreparePostOnlyKeeps(m, packet.side, price, packet.reject, c);
        TryPost(p.market, trader, packet, p.price, packet.baseLots, false, NOTHING)
    else match Execute(m, packet, price, taker, c)
      case None => None
      case Some(e) =>
        ExecuteKeeps(m, packet, price, taker, c);
        if packet.Limit? then
          TryPost(e.market, trader, packet, price, e.lots, LimitCrosses(e.market, packet.side, price, c), e.response)
        else if e.response.Matched(Ask) < packet.minBase || e.response.Matched(Bid) < packet.minQuote then None
        else Some(Rested(e.market, None, e.response))
  }

  lemma WorkKeeps(m: Market, trader: TraderId, taker: Option<TraderId>, packet: OrderPacket, price: U64, c: Clock)
    requires Inv(m) && 0 < m.counter < LAST_COUNTER
    requires !packet.TakeOnly() ==> trader in m.traders && price > 0
    requires Work(m, trader, taker, packet, price, c).Some?
    ensures var w, side := Work(m, trader, taker, packet, price, c).value, packet.side;
            && Keeps(m, w.market, c) && Balanced(m, w.market, w.response)
            && w.market.traders.Keys == m.traders.Keys
            && w.response.Out(side) == 0 && w.response.FreeUsed(side) <= w.response.Posted(side)
  {
    hide SideOk, Uncrossed, LogInv, Execute, PreparePostOnly, TryPost, NoCross, LimitCrosses, Balanced;
    if packet.PostOnly? {
      PreparePostOnlyKeeps(m, packet.side, price, packet.reject, c);
      var p := PreparePostOnly(m, packet.side, price, packet.reject, c).value;
      TryPostKeeps(m, p.market, trader, packet, p.price, packet.baseLots, false, NOTHING, c);
    } else {
      ExecuteKeeps(m, packet, price, taker, c);
      var e := Execute(m, packet, price, taker, c).value;
      if packet.Limit? {
        var crosses := LimitCrosses(e.market, packet.side, price, c);
        if !crosses {
          LimitNoCross(e.market, packet.side, price, c);
        }
        TryPostKeeps(m, e.market, trader, packet, price, e.lots, crosses, e.response, c);
      }
    }
  }

  datatype Placed = Placed(market: Market, id: Option<OrderId>, response: Response)

  function PlaceOrder(m: Market, trader: TraderId, packet: OrderPacket, c: Clock): Option<Placed>
    requires Inv(m)
  {
    match Admit(m, trader, packet)
    case None => None
    case Some(a) =>
      AdmitKeeps(m, trader, packet, c);
      if packet.IsExpired(c) then Some(Placed(a.market, None, NOTHING)) else
        match Work(a.market, trader, a.taker, packet, a.price, c)
        case None => None
        case Some(w) =>
          WorkKeeps(a.market, trader, a.taker, packet, a.price, c);
          match Settle(w.market, packet.side, a.taker, packet.depositedOnly, w.response)
          case None => None
          case Some(s) => Some(Placed(s.market, w.id, s.response))
  }

  /** Every successful placement keeps the market's invariant, leaves no live bid at or above a live
      ask, keeps the log in step with the books, and changes the market's funds by exactly what
      the response says is paid in and out. */
  lemma PlaceOrderKeeps(m: Market, trader: TraderId, packet: OrderPacket, c: Clock)
    requires Inv(m) && PlaceOrder(m, trader, packet, c).Some?
    ensures var r := PlaceOrder(m, trader, packet, c).value;
            Keeps(m, r.market, c) && Balanced(m, r.market, r.response)
  {
    hide Inv, Uncrossed, LogInv, Work, Settle, Admit;
    var a := Admit(m, trader, packet).value;
    AdmitKeeps(m, trader, packet, c);
    if !packet.IsExpired(c) {
      WorkKeeps(a.market, trader, a.taker, packet, a.price, c);
      var w := Work(a.market, trader, a.taker, packet, a.price, c).value;
      SettleKeeps(a.market, w.market, packet.side, a.taker, packet.depositedOnly, w.response, c);
      var s := Settle(w.market, packet.side, a.taker, packet.depositedOnly, w.response).value;
      assert BalancedFor(m, s.market, s.response, Bid) && BalancedFor(m, s.market, s.response, Ask);
    }
  }

  /** An order that may use only deposited funds, from a seated trader, moves nothing in or out. */
  lemma DepositedOnlyMovesNothing(m: Market, trader: TraderId, packet: OrderPacket, c: Clock)
    requires Inv(m) && PlaceOrder(m, trader, packet, c).Some?
    requires packet.depositedOnly && (trader in m.traders || !packet.TakeOnly())
    ensures var r := PlaceOrder(m, trader, packet, c).value;
            r.response.NoWithdrawal() && r.response.Deposit(Bid) == r.response.Deposit(Ask) == 0
            && Funds(r.market, Bid) == Funds(m, Bid) && Funds(r.market, Ask) == Funds(m, Ask)
  {
    hide Inv, Uncrossed, LogInv, PlaceOrder, Funds;
    PlaceOrderKeeps(m, trader, packet, c);
    DepositedOnlyPays(m, trader, packet, c);
  }

  lemma DepositedOnlyPays(m: Market, trader: TraderId, packet: OrderPacket, c: Clock)
    requires Inv(m) && PlaceOrder(m, trader, packet, c).Some?
    requires packet.depositedOnly && (trader in m.traders || !packet.TakeOnly())
    ensures var r := PlaceOrder(m, trader, packet, c).value.response; r.NoWithdrawal() && r.Deposit(Bid) == r.Deposit(Ask) == 0
  {
    hide Inv, Uncrossed, LogInv, Work, Settle, Register, Balanced;
    var a := Admit(m, trader, packet).value;
    AdmitKeeps(m, trader, packet, c);
    if !packet.IsExpired(c) {
      WorkKeeps(a.market, trader, a.taker, packet, a.price, c);
      var w := Work(a.market, trader, a.taker, packet, a.price, c).value;
      SettleKeeps(a.market, w.market, packet.side, a.taker, packet.depositedOnly, w.response, c);
    }
  }

  // ---------- budgets of immediate orders ----------

  /** A buy pays at most the quote lots it was given, fee included; a sell receives at most those
      it asked for, fee deducted; neither matches more base lots than it named. */
  lemma ExecuteWithinBudget(m: Market, packet: OrderPacket, price: U64, taker: Option<TraderId>, c: Clock)
    requires Inv(m) && packet.ImmediateOrCancel? && Execute(m, packet, price, taker, c).Some?
    ensures var r := Execute(m, packet, price, taker, c).value.response;
            && (packet.quoteLots > 0 ==> r.Matched(Bid) <= packet.quoteLots)
            && (packet.baseLots > 0 ==> r.Matched(Ask) <= packet.baseLots)
  {
    hide SideOk, MatchOrder, RoundUp, RoundDown, TakerFee, AdjustedBudget, MatchedQuote;
    var p, side := m.params, packet.side;
    var f := NewInflight(side, packet, price, AdjustedBudget(p, side, packet.QuoteBudget()).value);
    MatchedFacts(m, taker, c, f);
    if packet.quoteLots > 0 {
      match side {
        case Bid => BuyNeverOverpays(p, packet.quoteLots, MatchedQuote(m, taker, c, f));
        case Ask => SellNeverOverreceives(p, packet.quoteLots, MatchedQuote(m, taker, c, f));
      }
    }
  }

  /** The same of the whole placement, in its response and in its fill summary. */
  lemma PlaceOrderWithinBudget(m: Market, trader: TraderId, packet: OrderPacket, c: Clock)
    requires Inv(m) && packet.ImmediateOrCancel? && !packet.IsExpired(c) && PlaceOrder(m, trader, packet, c).Some?
    ensures var r := PlaceOrder(m, trader, packet, c).value;
            var log := r.market.log;
            && log != [] && log[|log| - 1].FillSummary?
            && (packet.quoteLots > 0 ==>
                  r.response.Matched(Bid) <= packet.quoteLots && log[|log| - 1].quoteFilled <= packet.quoteLots)
            && (packet.baseLots > 0 ==>
                  r.response.Matched(Ask) <= packet.baseLots && log[|log| - 1].baseFilled <= packet.baseLots)
  {
    hide Inv, MatchOrder, RoundUp, RoundDown, AdjustedBudget;
    var a := Admit(m, trader, packet).value;
    AdmitKeeps(m, trader, packet, c);
    var e := Execute(a.market, packet, a.price, a.taker, c).value;
    ExecuteWithinBudget(a.market, packet, a.price, a.taker, c);
    assert PlaceOrder(m, trader, packet, c).value.market.log == e.market.log;
  }

  /** A successful unexpired fill-or-kill order fills exactly the amount it specified, as its fill
      summary records. */
  lemma FillOrKillFillsExactly(m: Market, trader: TraderId, packet: OrderPacket, c: Clock)
    requires Inv(m) && packet.FillOrKill() && !packet.IsExpired(c) && PlaceOrder(m, trader, packet, c).Some?
    ensures var log := PlaceOrder(m, trader, packet, c).value.market.log;
            && log != [] && log[|log| - 1].FillSummary?
            && (packet.baseLots > 0 && packet.baseLots == packet.minBase ==> log[|log| - 1].baseFilled == packet.baseLots)
            && (packet.quoteLots > 0 && packet.quoteLots == packet.minQuote ==> log[|log| - 1].quoteFilled == packet.quoteLots)
  {
    hide Inv, MatchOrder, RoundUp, RoundDown, AdjustedBudget;
    var a := Admit(m, trader, packet).value;
    AdmitKeeps(m, trader, packet, c);
    var e := Execute(a.market, packet, a.price, a.taker, c).value;
    ExecuteWithinBudget(a.market, packet, a.price, a.taker, c);
    assert PlaceOrder(m, trader, packet, c).value.market.log == e.market.log;
  }
}
