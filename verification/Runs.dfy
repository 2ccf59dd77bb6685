/** Runs of a market: any sequence of instructions under a clock that never goes back, failed
    instructions being rolled back. */
module Runs {
  import opened Quantities
  import opened OrderIds
  import opened Books
  import opened Traders
  import opened Markets
  import opened Packets
  import opened Placement
  import opened Accounts
  import opened Batches

  datatype Step =
    | PlaceStep(trader: TraderId, packet: OrderPacket, clock: Clock)
    | BatchStep(
        trader: TraderId, levels: seq<Level>, mode: Mode, clock: Clock, accountQuote: nat, accountBase: nat)
    | ReduceStep(trader: TraderId, id: OrderId, side: Side, size: Option<nat>, claim: bool)
    | CancelAllStep(trader: TraderId, claim: bool)
    | CancelUpToStep(trader: TraderId, side: Side, search: Option<nat>, count: Option<nat>, limit: Option<nat>, claim: bool)
    | CancelIdsStep(trader: TraderId, ids: seq<OrderId>, claim: bool)
    | ClaimStep(trader: TraderId, quoteWanted: Option<nat>, baseWanted: Option<nat>, evict: bool)
    | DepositStep(trader: TraderId, quote: nat, base: nat)
    | CollectFeesStep
  {
    /** Placing orders reads the clock. */
    predicate Timed() {
      PlaceStep? || BatchStep?
    }

    function ClockOr(c: Clock): Clock {
      if Timed() then clock else c
    }
  }

  function FromCancelled(r: Cancelled): Option<Settled> {
    Some(Settled(r.market, Withdrawal(r.baseOut, r.quoteOut)))
  }

  /** The effect of one instruction. Cancelling the orders of an unknown trader does nothing; evicting
      a seat fails unless the seat is empty afterwards. */
  function Apply(m: Market, step: Step): Option<Settled>
    requires Inv(m)
  {
    match step
    case PlaceStep(t, packet, clock) =>
      (match PlaceOrder(m, t, packet, clock) case None => None case Some(p) => Some(Settled(p.market, p.response)))
    case BatchStep(t, levels, mode, clock, accountQuote, accountBase) =>
      (match WholeBatch(m, t, levels, mode, clock, accountQuote, accountBase)
       case None => None
       case Some(b) => Some(Settled(b.market, DepositOf(b.purse))))
    case ReduceStep(t, id, side, size, claim) =>
      if t in m.traders then ReduceOrder(m, t, id, side, size, false, claim) else None
    case CancelAllStep(t, claim) =>
      if t in m.traders then FromCancelled(CancelAll(m, t, claim)) else Some(Settled(m, NOTHING))
    case CancelUpToStep(t, side, search, count, limit, claim) =>
      if t in m.traders then FromCancelled(CancelUpTo(m, t, side, search, count, limit, claim)) else Some(Settled(m, NOTHING))
    case CancelIdsStep(t, ids, claim) =>
      if t in m.traders then FromCancelled(CancelIds(m, t, ids, claim)) else Some(Settled(m, NOTHING))
    case ClaimStep(t, quote, base, evict) =>
      if t !in m.traders then None
      else if evict && Claim(m, t, quote, base, evict).Some? && t in Claim(m, t, quote, base, evict).value.market.traders then None
      else Claim(m, t, quote, base, evict)
    case DepositStep(t, quote, base) => Deposit(m, t, quote, base)
    case CollectFeesStep => Some(CollectFees(m))
  }

  lemma ApplyKeeps(m: Market, step: Step, c: Clock)
    requires Inv(m) && Apply(m, step).Some? && step.ClockOr(c) == c
    ensures var r := Apply(m, step).value; Keeps(m, r.market, c) && Balanced(m, r.market, r.response)
  {
    hide SideOk, Uncrossed, LogInv, Funds, PlaceOrder, WholeBatch, ReduceOrder, CancelIds, Claim, Deposit, CollectFees;
    match step {
      case PlaceStep(t, packet, clock) => PlaceOrderKeeps(m, t, packet, clock);
      case BatchStep(t, levels, mode, clock, accountQuote, accountBase) =>
        WholeBatchKeeps(m, t, levels, mode, clock, accountQuote, accountBase);
      case ReduceStep(t, id, side, size, claim) => ReduceOrderKeeps(m, t, id, side, size, false, claim, c);
      case CancelAllStep(t, claim) =>
        if t in m.traders {
          CancelIdsKeeps(m, t, OwnIds(m.bids, t) + OwnIds(m.asks, t), claim, c);
        }
      case CancelUpToStep(t, side, search, count, limit, claim) =>
        if t in m.traders {
          CancelIdsKeeps(m, t, UpToIds(m, t, side, search, count, limit), claim, c);
        }
      case CancelIdsStep(t, ids, claim) =>
        if t in m.traders {
          CancelIdsKeeps(m, t, ids, claim, c);
        }
      case ClaimStep(t, quote, base, evict) => ClaimKeeps(m, t, quote, base, evict, c);
      case DepositStep(t, quote, base) => DepositKeeps(m, t, quote, base, c);
      case CollectFeesStep => CollectFeesKeeps(m, c);
    }
  }

  /** Withdrawing succeeds exactly for a seated trader of a working market and pays what was asked for
      or is there; giving up the seat succeeds exactly when that leaves nothing on it. */
  lemma ClaimStepExact(m: Market, t: TraderId, quote: Option<nat>, base: Option<nat>, evict: bool)
    requires Inv(m)
    ensures var r := Apply(m, ClaimStep(t, quote, base, evict));
            && (r.Some? <==>
                  && t in m.traders && m.counter > 0
                  && (evict ==>
                        && m.traders[t].quoteLocked == m.traders[t].baseLocked == 0
                        && (quote.None? || quote.value >= m.traders[t].quoteFree)
                        && (base.None? || base.value >= m.traders[t].baseFree)))
            && (r.Some? ==>
                  PaidOut(m, t, quote, base, evict, r.value.market, r.value.response) && (evict ==> t !in r.value.market.traders))
  {
    hide Inv;
    if t in m.traders {
      ClaimExact(m, t, quote, base, evict);
    }
  }

  // ---------- runs ----------

  datatype Now = Now(market: Market, clock: Clock)

  function Time(s: Now, step: Step): Clock {
    step.ClockOr(s.clock)
  }

  function Next(s: Now, step: Step): (r: Now)
    requires Inv(s.market)
    ensures Inv(r.market)
  {
    match Apply(s.market, step)
    case None => Now(s.market, Time(s, step))
    case Some(r) => ApplyKeeps(s.market, step, Time(s, step)); Now(r.market, Time(s, step))
  }

  /** Every placement sees a clock no earlier than the one before. */
  predicate Timely(c: Clock, steps: seq<Step>)
    decreases steps
  {
    steps == [] ||
    if steps[0].Timed() then NotBefore(c, steps[0].clock) && Timely(steps[0].clock, steps[1..])
    else Timely(c, steps[1..])
  }

  function Run(s: Now, steps: seq<Step>): Now
    requires Inv(s.market)
    decreases steps
  {
    if steps == [] then s else Run(Next(s, steps[0]), steps[1..])
  }

  ghost predicate Good(s: Now) {
    Inv(s.market) && Uncrossed(s.market, s.clock) && LogInv(s.market)
  }

  lemma {:induction false} RunKeepsGood(s: Now, steps: seq<Step>)
    requires Good(s) && Timely(s.clock, steps)
    ensures Good(Run(s, steps))
    decreases steps
  {
    hide Inv, Uncrossed, LogInv, Apply;
    if steps != [] {
      var c := Time(s, steps[0]);
      UncrossedLater(s.market, s.clock, c);
      if Apply(s.market, steps[0]).Some? {
        ApplyKeeps(s.market, steps[0], c);
      }
      RunKeepsGood(Next(s, steps[0]), steps[1..]);
    }
  }

  /** A newly initialized market. */
  function Fresh(p: Params): Market {
    Market(p, 1, 0, 0, [], [], map[], [])
  }

  lemma FreshIsGood(p: Params, c: Clock)
    requires p.Valid()
    ensures Good(Now(Fresh(p), c))
  {
  }

  /** What holds after every run of a market from its initialization. */
  lemma EveryRun(p: Params, c: Clock, steps: seq<Step>)
    requires p.Valid() && Timely(c, steps)
    ensures Inv(Fresh(p))
    ensures var s := Run(Now(Fresh(p), c), steps);
            var m := s.market;
            && m.params.Valid()
            // locked balances are exactly what the trader's resting orders need
            && (forall t | t in m.traders ::
                  && m.traders[t].quoteLocked == LockedIn(m.params, Bid, m.bids, t)
                  && m.traders[t].baseLocked == LockedIn(m.params, Ask, m.asks, t))
            // every resting order is live in size and price and names a seated trader
            && (forall i | 0 <= i < |m.bids| ::
                  m.bids[i].order.lots > 0 && m.bids[i].id.price > 0 && m.bids[i].order.trader in m.traders)
            && (forall i | 0 <= i < |m.asks| ::
                  m.asks[i].order.lots > 0 && m.asks[i].id.price > 0 && m.asks[i].order.trader in m.traders)
            && |m.bids| <= m.params.bidCapacity && |m.asks| <= m.params.askCapacity
            && |m.traders| <= m.params.seatCapacity
            // both books are in price-time priority: best price first, then the earliest placement
            && (forall i, j | 0 <= i < j < |m.bids| :: HasPriority(Bid, m.bids[i].id, m.bids[j].id))
            && (forall i, j | 0 <= i < j < |m.asks| :: HasPriority(Ask, m.asks[i].id, m.asks[j].id))
            // no unexpired bid is at or above an unexpired ask
            && UncrossedBooks(m.bids, m.asks, s.clock)
            // the event log rebuilds the books
            && Agrees(Replay(m.log), m.bids, m.asks)
            // no order id is ever used twice
            && (forall i, j | 0 <= i < j < |m.log| && m.log[i].Place? && m.log[j].Place? ::
                  m.log[i].seqNum != m.log[j].seqNum)
  {
    FreshIsGood(p, c);
    RunKeepsGood(Now(Fresh(p), c), steps);
    SpellOut(Run(Now(Fresh(p), c), steps));
    SpellOutPriority(Run(Now(Fresh(p), c), steps));
  }

  /** Price, then time: the better price, or the same price and the earlier placement. */
  predicate HasPriority(side: Side, a: OrderId, b: OrderId) {
    && a.seqNum <= U64_MAX && b.seqNum <= U64_MAX
    && ((if side.Bid? then a.price > b.price else a.price < b.price) || (a.price == b.price && Counter(a.seqNum) < Counter(b.seqNum)))
  }

  lemma SortedIsPriority(side: Side, book: Book, counter: nat)
    requires BookOk(side, book, counter)
    ensures forall i, j | 0 <= i < j < |book| :: HasPriority(side, book[i].id, book[j].id)
  {
    hide Ahead, Counter;
    forall i, j | 0 <= i < j < |book|
      ensures HasPriority(side, book[i].id, book[j].id)
    {
      assert Ahead(book[i].id, book[j].id);
      assert EntryOk(side, book[i], counter) && EntryOk(side, book[j], counter);
      CompareIsPriceTimePriority(side, book[i].id, book[j].id);
    }
  }

  lemma SpellOutPriority(s: Now)
    requires Good(s)
    ensures var m := s.market;
            && (forall i, j | 0 <= i < j < |m.bids| :: HasPriority(Bid, m.bids[i].id, m.bids[j].id))
            && (forall i, j | 0 <= i < j < |m.asks| :: HasPriority(Ask, m.asks[i].id, m.asks[j].id))
  {
    hide BookOk, Funded, Registered, Uncrossed, LogInv, HasPriority;
    var m := s.market;
    SortedIsPriority(Bid, m.bids, m.counter);
    SortedIsPriority(Ask, m.asks, m.counter);
  }

  lemma SpellOut(s: Now)
    requires Good(s)
    ensures var m := s.market;
            && (forall t | t in m.traders ::
                  && m.traders[t].quoteLocked == LockedIn(m.params, Bid, m.bids, t)
                  && m.traders[t].baseLocked == LockedIn(m.params, Ask, m.asks, t))
            && (forall i | 0 <= i < |m.bids| ::
                  m.bids[i].order.lots > 0 && m.bids[i].id.price > 0 && m.bids[i].order.trader in m.traders)
            && (forall i | 0 <= i < |m.asks| ::
                  m.asks[i].order.lots > 0 && m.asks[i].id.price > 0 && m.asks[i].order.trader in m.traders)
            && (forall i, j | 0 <= i < j < |m.log| && m.log[i].Place? && m.log[j].Place? ::
                  m.log[i].seqNum != m.log[j].seqNum)
  {
    var m := s.market;
    hide LockedIn, Ahead;
    assert forall t | t in m.traders ::
        m.traders[t].Locked(Bid) == LockedIn(m.params, Bid, m.bids, t)
        && m.traders[t].Locked(Ask) == LockedIn(m.params, Ask, m.asks, t);
    assert forall i | 0 <= i < |m.bids| :: EntryOk(Bid, m.bids[i], m.counter);
    assert forall i | 0 <= i < |m.asks| :: EntryOk(Ask, m.asks[i], m.counter);
  }
}
