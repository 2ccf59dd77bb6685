/** Matching an incoming order against the opposite book, as a greedy walk over the book in
    priority order, and what the walk does to the market. */
module Matching {
  import opened Quantities
  import opened OrderIds
  import opened Books
  import opened Traders
  import opened Markets

  datatype SelfTrade = Abort | CancelProvide | DecrementTake

  /** The order being matched: what is left of its budgets and what it has matched so far. */
  datatype Inflight = Inflight(
    side: Side, selfTrade: SelfTrade, stop: bool, limit: nat, matchLimit: nat,
    baseBudget: nat, adjBudget: nat, matchedBase: nat, matchedAdj: nat, quoteFees: nat,
    lastValidSlot: Option<nat>, lastValidTime: Option<nat>)
  {
    predicate InProgress() {
      baseBudget > 0 && adjBudget > 0 && matchLimit > 0 && !stop
    }

    predicate Crosses(price: nat) {
      match side case Bid => price <= limit case Ask => price >= limit
    }

    /** Spends budget on one match, counting it as matched. */
    function ProcessMatch(adj: nat, base: nat): Inflight
      requires base <= baseBudget && adj <= adjBudget
    {
      if matchLimit >= 1 then
        Spend(adj, base).(matchedBase := matchedBase + base, matchedAdj := matchedAdj + adj)
      else
        this
    }

    function Spend(adj: nat, base: nat): Inflight
      requires base <= baseBudget && adj <= adjBudget && matchLimit >= 1
    {
      this.(baseBudget := baseBudget - base, adjBudget := adjBudget - adj, matchLimit := matchLimit - 1)
    }
  }

  /** The most base lots both budgets allow at a price. */
  function Affordable(p: Params, f: Inflight, price: nat): nat
    requires p.Valid() && price > 0
  {
    PositiveUnit(p, price);
    Min(f.baseBudget, f.adjBudget / (price * p.tickSize))
  }

  lemma PositiveUnit(p: Params, price: nat)
    requires p.Valid() && price > 0
    ensures price * p.tickSize > 0
  {
  }

  /** Affordable lots are exactly those that fit both budgets. */
  lemma AffordableFits(p: Params, f: Inflight, price: nat, lots: nat)
    requires p.Valid() && price > 0
    ensures lots <= Affordable(p, f, price) <==> lots <= f.baseBudget && AdjustedLots(p, price, lots) <= f.adjBudget
  {
    PositiveUnit(p, price);
    DivIsFloor(f.adjBudget, price * p.tickSize, lots);
  }

  /** The lots taken from a resting order: all of it, or as much as the budgets allow. */
  function Takeable(p: Params, f: Inflight, e: Entry): (n: nat)
    requires p.Valid() && e.id.price > 0
    ensures n <= e.order.lots && n <= f.baseBudget && AdjustedLots(p, e.id.price, n) <= f.adjBudget
    ensures n == e.order.lots <==>
            e.order.lots <= f.baseBudget && AdjustedLots(p, e.id.price, e.order.lots) <= f.adjBudget
  {
    var n := Min(Affordable(p, f, e.id.price), e.order.lots);
    AffordableFits(p, f, e.id.price, n);
    AffordableFits(p, f, e.id.price, e.order.lots);
    n
  }

  /** When a resting order is only partly taken, no budget is left for one more lot at its price. */
  lemma PartlyTaken(p: Params, f: Inflight, e: Entry)
    requires p.Valid() && e.id.price > 0 && Takeable(p, f, e) < e.order.lots
    ensures var n := Takeable(p, f, e);
            n == f.baseBudget || f.adjBudget - AdjustedLots(p, e.id.price, n) < AdjustedLots(p, e.id.price, 1)
  {
    var n := Takeable(p, f, e);
    AffordableFits(p, f, e.id.price, n + 1);
    var u := e.id.price * p.tickSize;
    assert u * (n + 1) == u * n + u;
    assert u * 1 == u;
  }

  // ---------- the greedy walk ----------

  /** Lots taken from the order at the top of the book. */
  datatype HeadTake = HeadTake(lots: nat, kind: TakeKind)

  datatype Reaction = Reaction(take: HeadTake, flight: Inflight)

  /** What happens when the incoming order meets the resting order `e`. */
  function React(p: Params, e: Entry, taker: Option<TraderId>, c: Clock, f: Inflight): Option<Reaction>
    requires p.Valid() && e.id.price > 0 && f.matchLimit > 0
  {
    if Expired(e.order, c) then
      Some(Reaction(HeadTake(e.order.lots, ByExpiry), f.Spend(0, 0)))
    else
      var lots := Takeable(p, f, e);
      var adj := AdjustedLots(p, e.id.price, lots);
      var partly := lots < e.order.lots;
      if taker != Some(e.order.trader) then
        Some(Reaction(HeadTake(lots, ByFill), f.ProcessMatch(adj, lots).(stop := partly)))
      else match f.selfTrade
        case Abort => None
        case CancelProvide => Some(Reaction(HeadTake(e.order.lots, ByReduce), f.Spend(0, 0)))
        case DecrementTake => Some(Reaction(HeadTake(lots, ByReduce), f.Spend(adj, lots).(stop := partly)))
  }

  predicate Positive(book: Book) {
    forall i | 0 <= i < |book| :: book[i].id.price > 0 && book[i].order.lots > 0
  }

  datatype Walked = Walked(takes: seq<HeadTake>, flight: Inflight)

  /** Walks the book from its best order: stops when the order is done or no longer crosses, and
      otherwise takes from the top order and goes on with the next, unless lots were left in it. */
  function Walk(p: Params, book: Book, taker: Option<TraderId>, c: Clock, f: Inflight): Option<Walked>
    requires p.Valid() && Positive(book)
  {
    if !f.InProgress() || book == [] || !f.Crosses(book[0].id.price) then
      Some(Walked([], f))
    else match React(p, book[0], taker, c, f)
      case None => None
      case Some(r) =>
        if r.take.lots < book[0].order.lots then
          Some(Walked([r.take], r.flight))
        else match Walk(p, book[1..], taker, c, r.flight)
          case None => None
          case Some(w) => Some(Walked([r.take] + w.takes, w.flight))
  }

  /** Takes fit the book they are made from: all but the last remove the order they take from. */
  predicate HeadsEnabled(book: Book, takes: seq<HeadTake>) {
    && |takes| <= |book|
    && (forall k | 0 <= k < |takes| ::
          takes[k].lots <= book[k].order.lots && !takes[k].kind.ByEviction?
          && (takes[k].kind.ByExpiry? ==> takes[k].lots == book[k].order.lots))
    && (forall k | 0 <= k < |takes| - 1 :: takes[k].lots == book[k].order.lots)
  }

  /** What is left of the book after the takes. */
  function BookAfter(book: Book, takes: seq<HeadTake>): Book
    requires HeadsEnabled(book, takes)
  {
    if takes == [] then book else Shrink(book[|takes| - 1..], 0, takes[|takes| - 1].lots)
  }

  /** The lots of one token that change hands in the fills among the takes. */
  function FilledWorth(p: Params, side: Side, book: Book, takes: seq<HeadTake>): nat
    requires p.Valid() && |takes| <= |book|
  {
    if takes == [] then 0 else
      (if takes[0].kind.ByFill? then Worth(p, side, book[0].id.price, takes[0].lots) else 0)
      + FilledWorth(p, side, book[1..], takes[1..])
  }

  /** The worth, in one token, of the takes that reduce the taker's own orders. */
  function OwnWorth(p: Params, side: Side, book: Book, takes: seq<HeadTake>): nat
    requires p.Valid() && |takes| <= |book|
  {
    if takes == [] then 0 else
      (if takes[0].kind.ByReduce? then Worth(p, side, book[0].id.price, takes[0].lots) else 0)
      + OwnWorth(p, side, book[1..], takes[1..])
  }

  /** What self trades cost the taker's budgets: nothing unless they are decremented. */
  function SelfSpent(p: Params, f: Inflight, side: Side, book: Book, takes: seq<HeadTake>): nat
    requires p.Valid() && |takes| <= |book|
  {
    if f.selfTrade == DecrementTake then OwnWorth(p, side, book, takes) else 0
  }

  /** How the walk treats an order it meets: expired orders are dropped, the taker's own are
      reduced, and all others are filled. */
  predicate Treated(e: Entry, taker: Option<TraderId>, c: Clock, take: HeadTake) {
    && (take.kind.ByExpiry? <==> Expired(e.order, c))
    && (take.kind.ByReduce? <==> !Expired(e.order, c) && taker == Some(e.order.trader))
    && (take.kind.ByFill? <==> !Expired(e.order, c) && taker != Some(e.order.trader))
  }

  /** Every order met is at the limit price or better for the taker: at most it for a buy, at least
      it for a sell. Expired orders leave as a whole, and so do own orders that are to be cancelled. */
  predicate TreatedAs(book: Book, taker: Option<TraderId>, c: Clock, f: Inflight, takes: seq<HeadTake>) {
    |takes| <= |book| && forall k | 0 <= k < |takes| ::
      && (f.side.Bid? ==> book[k].id.price <= f.limit)
      && (f.side.Ask? ==> book[k].id.price >= f.limit)
      && Treated(book[k], taker, c, takes[k])
      && (takes[k].kind.ByExpiry? || (takes[k].kind.ByReduce? && f.selfTrade == CancelProvide) ==>
            takes[k].lots == book[k].order.lots)
  }

  lemma ReactTreats(p: Params, e: Entry, taker: Option<TraderId>, c: Clock, f: Inflight)
    requires p.Valid() && e.id.price > 0 && f.matchLimit > 0 && React(p, e, taker, c, f).Some?
    ensures var r := React(p, e, taker, c, f).value;
            && r.take.lots <= e.order.lots
            && Treated(e, taker, c, r.take) && !r.take.kind.ByEviction?
            && (r.take.kind.ByExpiry? || (r.take.kind.ByReduce? && f.selfTrade == CancelProvide) ==>
                  r.take.lots == e.order.lots)
            && (r.take.lots < e.order.lots ==> r.flight.stop)
            && SameOrder(r.flight, f)
  {
    hide AdjustedLots, Takeable;
  }

  lemma {:induction false} WalkTreats(p: Params, book: Book, taker: Option<TraderId>, c: Clock, f: Inflight)
    requires p.Valid() && Positive(book)
    ensures var w := Walk(p, book, taker, c, f);
            w.Some? ==> HeadsEnabled(book, w.value.takes) && TreatedAs(book, taker, c, f, w.value.takes)
    decreases |book|
  {
    hide React, Treated;
    var w := Walk(p, book, taker, c, f);
    if w.Some? && w.value.takes != [] {
      var r := React(p, book[0], taker, c, f).value;
      ReactTreats(p, book[0], taker, c, f);
      if r.take.lots == book[0].order.lots {
        WalkTreats(p, book[1..], taker, c, r.flight);
        var takes := w.value.takes;
        assert forall k | 1 <= k < |takes| :: book[k] == book[1..][k - 1] && takes[k] == takes[1..][k - 1];
      }
    }
  }

  predicate MeetsOwn(takes: seq<HeadTake>) {
    exists k | 0 <= k < |takes| :: takes[k].kind.ByReduce?
  }

  lemma {:induction false} WalkFailsOnlyByAbort(p: Params, book: Book, taker: Option<TraderId>, c: Clock, f: Inflight)
    requires p.Valid() && Positive(book) && f.selfTrade != Abort
    ensures Walk(p, book, taker, c, f).Some?
    decreases |book|
  {
    hide AdjustedLots, Takeable, Expired;
    if f.InProgress() && book != [] && f.Crosses(book[0].id.price) {
      WalkFailsOnlyByAbort(p, book[1..], taker, c, React(p, book[0], taker, c, f).value.flight);
    }
  }

  /** Matching fails exactly when self trades abort and the walk that would cancel them instead meets
      one of the taker's own live orders; otherwise it makes the same takes as that walk. */
  lemma {:induction false} WalkAbortsExactly(p: Params, book: Book, taker: Option<TraderId>, c: Clock, f: Inflight)
    requires p.Valid() && Positive(book) && f.selfTrade == Abort
    ensures var g := f.(selfTrade := CancelProvide);
            var w, v := Walk(p, book, taker, c, f), Walk(p, book, taker, c, g);
            && v.Some?
            && (w.None? <==> MeetsOwn(v.value.takes))
            && (w.Some? ==> w.value.takes == v.value.takes)
    decreases |book|
  {
    hide AdjustedLots, Takeable, Expired;
    var g := f.(selfTrade := CancelProvide);
    WalkFailsOnlyByAbort(p, book, taker, c, g);
    var v := Walk(p, book, taker, c, g).value;
    if v.takes != [] {
      var r, q := React(p, book[0], taker, c, f), React(p, book[0], taker, c, g).value;
      if r.None? {
        assert v.takes[0].kind.ByReduce?;
      } else {
        SameReaction(p, book[0], taker, c, f);
        if q.take.lots == book[0].order.lots {
          WalkAbortsExactly(p, book[1..], taker, c, r.value.flight);
          MeetsOwnTail(v.takes);
        }
      }
    }
  }

  /** Away from the taker's own orders the self-trade behaviour plays no part. */
  lemma SameReaction(p: Params, e: Entry, taker: Option<TraderId>, c: Clock, f: Inflight)
    requires p.Valid() && e.id.price > 0 && f.matchLimit > 0 && f.selfTrade == Abort && React(p, e, taker, c, f).Some?
    ensures var r, q := React(p, e, taker, c, f).value, React(p, e, taker, c, f.(selfTrade := CancelProvide));
            && q == Some(Reaction(r.take, r.flight.(selfTrade := CancelProvide)))
            && !r.take.kind.ByReduce? && r.flight.selfTrade == Abort
  {
    hide AdjustedLots, Expired;
  }

  lemma MeetsOwnTail(takes: seq<HeadTake>)
    requires takes != [] && !takes[0].kind.ByReduce?
    ensures MeetsOwn(takes) <==> MeetsOwn(takes[1..])
  {
    if MeetsOwn(takes) {
      var k :| 0 <= k < |takes| && takes[k].kind.ByReduce?;
      assert takes[1..][k - 1].kind.ByReduce?;
    }
  }

  /** Matched totals are exactly the fills, and the budgets fall by exactly the fills and by the self
      trades that are decremented. */
  lemma {:induction false} WalkBudgets(p: Params, book: Book, taker: Option<TraderId>, c: Clock, f: Inflight)
    requires p.Valid() && Positive(book)
    requires Walk(p, book, taker, c, f).Some?
    ensures var w := Walk(p, book, taker, c, f).value;
            && |w.takes| <= |book|
            && w.flight.matchedBase == f.matchedBase + FilledWorth(p, Ask, book, w.takes)
            && w.flight.matchedAdj == f.matchedAdj + FilledWorth(p, Bid, book, w.takes) * p.lotsPerUnit
            && w.flight.matchedBase + w.flight.baseBudget + SelfSpent(p, f, Ask, book, w.takes) == f.matchedBase + f.baseBudget
            && w.flight.matchedAdj + w.flight.adjBudget + SelfSpent(p, f, Bid, book, w.takes) * p.lotsPerUnit
               == f.matchedAdj + f.adjBudget
            && w.flight.matchedAdj + w.flight.adjBudget <= f.matchedAdj + f.adjBudget
            && w.flight.matchLimit + |w.takes| == f.matchLimit
            && SameOrder(w.flight, f)
    decreases |book|
  {
    hide React, QuoteLots, FilledWorth, OwnWorth, HeadsEnabled, Treated;
    var w := Walk(p, book, taker, c, f).value;
    WalkTreats(p, book, taker, c, f);
    HeadWorths(p, book, w.takes);
    if w.takes != [] {
      var r := React(p, book[0], taker, c, f).value;
      ReactBudgets(p, book[0], taker, c, f);
      var rest := w.takes[1..];
      if r.take.lots == book[0].order.lots {
        WalkBudgets(p, book[1..], taker, c, r.flight);
        assert rest == Walk(p, book[1..], taker, c, r.flight).value.takes;
      } else {
        assert rest == [];
        HeadWorths(p, book[1..], rest);
      }
      var quote := if r.take.kind.ByFill? then QuoteLots(p, book[0].id.price, r.take.lots) else 0;
      var own := if r.take.kind.ByReduce? then QuoteLots(p, book[0].id.price, r.take.lots) else 0;
      Distribute(quote, FilledWorth(p, Bid, book[1..], rest), p.lotsPerUnit);
      Distribute(own, OwnWorth(p, Bid, book[1..], rest), p.lotsPerUnit);
    }
  }

  lemma HeadWorths(p: Params, book: Book, takes: seq<HeadTake>)
    requires p.Valid() && |takes| <= |book|
    ensures takes == [] ==> forall side :: FilledWorth(p, side, book, takes) == OwnWorth(p, side, book, takes) == 0
    ensures takes != [] ==> forall side ::
              var w := Worth(p, side, book[0].id.price, takes[0].lots);
              && FilledWorth(p, side, book, takes)
                 == (if takes[0].kind.ByFill? then w else 0) + FilledWorth(p, side, book[1..], takes[1..])
              && OwnWorth(p, side, book, takes)
                 == (if takes[0].kind.ByReduce? then w else 0) + OwnWorth(p, side, book[1..], takes[1..])
  {
  }

  lemma Distribute(a: nat, b: nat, c: nat)
    ensures (a + b) * c == a * c + b * c
  {
  }

  /** The fields of an order that matching never changes. */
  predicate SameOrder(f: Inflight, g: Inflight) {
    && f.side == g.side && f.selfTrade == g.selfTrade && f.limit == g.limit && f.quoteFees == g.quoteFees
    && f.lastValidSlot == g.lastValidSlot && f.lastValidTime == g.lastValidTime
  }

  lemma ReactBudgets(p: Params, e: Entry, taker: Option<TraderId>, c: Clock, f: Inflight)
    requires p.Valid() && e.id.price > 0 && f.matchLimit > 0 && React(p, e, taker, c, f).Some?
    ensures var r := React(p, e, taker, c, f).value;
            var lots, quote := r.take.lots, QuoteLots(p, e.id.price, r.take.lots);
            var filled, spent := r.take.kind.ByFill?, r.take.kind.ByReduce? && f.selfTrade == DecrementTake;
            && lots <= e.order.lots
            && r.flight.matchedBase == f.matchedBase + (if filled then lots else 0)
            && r.flight.matchedAdj == f.matchedAdj + (if filled then quote else 0) * p.lotsPerUnit
            && r.flight.baseBudget + (if filled || spent then lots else 0) == f.baseBudget
            && r.flight.adjBudget + (if filled || spent then quote else 0) * p.lotsPerUnit == f.adjBudget
            && r.flight.matchLimit + 1 == f.matchLimit
            && SameOrder(r.flight, f)
  {
    hide AdjustedLots, QuoteLots, Takeable, Expired;
    QuoteLotsLinear(p, e.id.price, Takeable(p, f, e));
  }

  /** Matching goes as far as it can: it stops only when the base budget is spent, the match
      limit is spent, the book is exhausted or no longer crosses, or the remaining quote budget
      cannot buy one lot at the top price. */
  predicate Exhausted(p: Params, book: Book, f: Inflight) {
    || f.baseBudget == 0 || f.matchLimit == 0 || book == []
    || (f.side.Bid? && book[0].id.price > f.limit)
    || (f.side.Ask? && book[0].id.price < f.limit)
    || f.adjBudget < AdjustedLots(p, book[0].id.price, 1)
  }

  lemma {:induction false} WalkIsMaximal(p: Params, book: Book, taker: Option<TraderId>, c: Clock, f: Inflight)
    requires p.Valid() && Positive(book) && !f.stop
    requires Walk(p, book, taker, c, f).Some?
    ensures var w := Walk(p, book, taker, c, f).value;
            HeadsEnabled(book, w.takes) && Exhausted(p, BookAfter(book, w.takes), w.flight)
    decreases |book|
  {
    var w := Walk(p, book, taker, c, f).value;
    WalkTreats(p, book, taker, c, f);
    if w.takes == [] {
      if book != [] {
        PositiveUnit(p, book[0].id.price);
      }
    } else {
      hide AdjustedLots, Takeable, Expired;
      var e, r := book[0], React(p, book[0], taker, c, f).value;
      if r.take.lots == e.order.lots {
        WalkIsMaximal(p, book[1..], taker, c, r.flight);
        var rest := Walk(p, book[1..], taker, c, r.flight).value.takes;
        if rest == [] {
          assert BookAfter(book, w.takes) == book[1..];
        } else {
          assert book[|w.takes| - 1..] == book[1..][|rest| - 1..];
        }
      } else {
        PartlyTaken(p, f, e);
        assert BookAfter(book, w.takes)[0].id == e.id;
      }
    }
  }

  // ---------- the effect on the market ----------

  /** Applies takes to the top of a book, one after the other. */
  function TakeHeads(m: Market, side: Side, takes: seq<HeadTake>): (r: Market)
    requires Inv(m) && HeadsEnabled(m.BookOf(side), takes)
    ensures Inv(r)
    decreases takes
  {
    if takes == [] then m else
      var m' := Take(m, side, 0, takes[0].lots, takes[0].kind);
      TakeInv(m, side, 0, takes[0].lots, takes[0].kind);
      HeadsEnabledTail(m, side, takes);
      TakeHeads(m', side, takes[1..])
  }

  lemma HeadsEnabledTail(m: Market, side: Side, takes: seq<HeadTake>)
    requires Inv(m) && takes != [] && HeadsEnabled(m.BookOf(side), takes)
    ensures var b := Take(m, side, 0, takes[0].lots, takes[0].kind).BookOf(side);
            HeadsEnabled(b, takes[1..]) && (|takes| > 1 ==> b == m.BookOf(side)[1..])
  {
    hide Inv, TakeState, TakeEvents;
    if |takes| > 1 {
      assert Take(m, side, 0, takes[0].lots, takes[0].kind).BookOf(side) == m.BookOf(side)[1..];
    }
  }

  /** Takes change one book, the balances of its makers and the log, and nothing else. */
  lemma {:induction false} TakeHeadsShape(m: Market, side: Side, takes: seq<HeadTake>)
    requires Inv(m) && HeadsEnabled(m.BookOf(side), takes)
    ensures var m' := TakeHeads(m, side, takes);
            && m'.BookOf(side) == BookAfter(m.BookOf(side), takes)
            && m'.BookOf(Opposite(side)) == m.BookOf(Opposite(side))
            && m'.params == m.params && m'.counter == m.counter && m'.traders.Keys == m.traders.Keys
            && m'.unclaimed == m.unclaimed && m'.collected == m.collected
    decreases takes
  {
    hide Inv, Worth, Shrink;
    if takes != [] {
      var lots, kind := takes[0].lots, takes[0].kind;
      var m1, b := Take(m, side, 0, lots, kind), m.BookOf(side);
      TakeInv(m, side, 0, lots, kind);
      HeadsEnabledTail(m, side, takes);
      TakeHeadsShape(m1, side, takes[1..]);
      LockedCovers(m, side, 0, lots);
      assert m1.traders.Keys == m.traders.Keys;
      if |takes| > 1 {
        assert b[1..][|takes| - 2..] == b[|takes| - 1..];
      } else {
        assert b[0..] == b;
      }
    }
  }

  lemma {:induction false} TakeHeadsKeeps(m: Market, side: Side, takes: seq<HeadTake>, c: Clock)
    requires Inv(m) && HeadsEnabled(m.BookOf(side), takes)
    ensures Uncrossed(m, c) ==> Uncrossed(TakeHeads(m, side, takes), c)
    ensures LogInv(m) ==> LogInv(TakeHeads(m, side, takes))
    decreases takes
  {
    hide Inv, Uncrossed, LogInv, Take, HeadsEnabled;
    if takes != [] {
      var lots, kind := takes[0].lots, takes[0].kind;
      HeadsEnabledHead(m.BookOf(side), takes);
      TakeInv(m, side, 0, lots, kind);
      HeadsEnabledTail(m, side, takes);
      if Uncrossed(m, c) {
        TakeUncrossed(m, side, 0, lots, kind, c);
      }
      if LogInv(m) {
        TakeLog(m, side, 0, lots, kind);
      }
      TakeHeadsKeeps(Take(m, side, 0, lots, kind), side, takes[1..], c);
    }
  }

  /** The events that takes from the top of a book record, in order. */
  function EventsOf(book: Book, takes: seq<HeadTake>): seq<Event>
    requires HeadsEnabled(book, takes)
  {
    if takes == [] then []
    else TakeEvents(book[0], takes[0].lots, takes[0].kind) + EventsOf(book[1..], takes[1..])
  }

  lemma {:induction false} TakeHeadsLog(m: Market, side: Side, takes: seq<HeadTake>)
    requires Inv(m) && HeadsEnabled(m.BookOf(side), takes)
    ensures TakeHeads(m, side, takes).log == m.log + EventsOf(m.BookOf(side), takes)
    decreases takes
  {
    hide Inv, HeadsEnabled, TakeState, Shrink, TakeEvents;
    if takes != [] {
      var lots, kind := takes[0].lots, takes[0].kind;
      HeadsEnabledHead(m.BookOf(side), takes);
      TakeInv(m, side, 0, lots, kind);
      HeadsEnabledTail(m, side, takes);
      LockedCovers(m, side, 0, lots);
      TakeHeadsLog(Take(m, side, 0, lots, kind), side, takes[1..]);
    }
  }

  lemma HeadsEnabledHead(book: Book, takes: seq<HeadTake>)
    requires takes != [] && HeadsEnabled(book, takes)
    ensures TakeEnabled(book, 0, takes[0].lots, takes[0].kind)
  {
  }

  lemma {:induction false} TakeHeadsTotals(m: Market, side: Side, takes: seq<HeadTake>)
    requires Inv(m) && HeadsEnabled(m.BookOf(side), takes)
    ensures var m', other := TakeHeads(m, side, takes), Opposite(side);
            && Total(m'.traders, side) + FilledWorth(m.params, side, m.BookOf(side), takes) == Total(m.traders, side)
            && Total(m'.traders, other) == Total(m.traders, other) + FilledWorth(m.params, other, m.BookOf(side), takes)
    decreases takes
  {
    if takes != [] {
      var lots, kind := takes[0].lots, takes[0].kind;
      var m1 := Take(m, side, 0, lots, kind);
      TakeInv(m, side, 0, lots, kind);
      HeadsEnabledTail(m, side, takes);
      TakeTotals(m, side, 0, lots, kind);
      TakeHeadsTotals(m1, side, takes[1..]);
    }
  }

  /** Free balances only grow, and locked ones of the other side stay, for every trader. */
  lemma {:induction false} TakeHeadsFree(m: Market, side: Side, takes: seq<HeadTake>, t: TraderId)
    requires Inv(m) && HeadsEnabled(m.BookOf(side), takes) && t in m.traders
    ensures var m' := TakeHeads(m, side, takes);
            t in m'.traders && m'.traders[t].quoteFree >= m.traders[t].quoteFree && m'.traders[t].baseFree >= m.traders[t].baseFree
    decreases takes
  {
    hide Inv, Worth;
    if takes != [] {
      var lots, kind := takes[0].lots, takes[0].kind;
      TakeInv(m, side, 0, lots, kind);
      HeadsEnabledTail(m, side, takes);
      LockedCovers(m, side, 0, lots);
      TakeHeadsFree(Take(m, side, 0, lots, kind), side, takes[1..], t);
    }
  }

  datatype Outcome = Outcome(market: Market, flight: Inflight)

  /** The market and the order after matching, before fees. */
  function MatchFrom(m: Market, taker: Option<TraderId>, c: Clock, f: Inflight): Option<Outcome>
    requires Inv(m)
  {
    var book := m.BookOf(Opposite(f.side));
    InvPositive(m, Opposite(f.side));
    WalkTreats(m.params, book, taker, c, f);
    match Walk(m.params, book, taker, c, f)
    case None => None
    case Some(w) => Some(Outcome(TakeHeads(m, Opposite(f.side), w.takes), w.flight))
  }

  lemma InvPositive(m: Market, side: Side)
    requires Inv(m)
    ensures Positive(m.BookOf(side))
  {
    assert SideInv(m, side);
  }

  /** Matching, with the fee on everything matched added to the market's unclaimed fees. */
  function MatchOrder(m: Market, taker: Option<TraderId>, c: Clock, f: Inflight): Option<Outcome>
    requires Inv(m)
  {
    match MatchFrom(m, taker, c, f)
    case None => None
    case Some(o) =>
      var fee := TakerFee(m.params, o.flight.matchedAdj);
      Some(Outcome(o.market.(unclaimed := o.market.unclaimed + fee), o.flight.(quoteFees := fee)))
  }
}
