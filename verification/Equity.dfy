/** Whose lots move: an exact account, trader by trader, of what each instruction does to the
    balances. Makers gain and lose exactly what the fills in the event log say; only the trader
    who sends the instruction is affected otherwise. */
module Equity {
  import opened Quantities
  import opened OrderIds
  import opened Books
  import opened Traders
  import opened Markets
  import opened Matching
  import opened Packets
  import opened Placement
  import opened Accounts
  import opened Batches
  import opened Runs

  function HeldBy(m: Market, t: TraderId, token: Side): nat {
    if t in m.traders then m.traders[t].Held(token) else 0
  }

  /** What a fill brings its maker in one token: it costs the token of the maker's side, which the
      order's number tells, and brings the other one. */
  function FillGain(p: Params, ev: Event, token: Side): int
    requires p.Valid()
  {
    if !ev.Fill? then 0
    else if token == SideOf(ev.seqNum) then 0 - Worth(p, token, ev.price, ev.filled)
    else Worth(p, token, ev.price, ev.filled)
  }

  /** What all fills of a log together brought one maker. */
  function MakerGain(p: Params, log: seq<Event>, t: TraderId, token: Side): int
    requires p.Valid()
  {
    if log == [] then 0 else
      var n := |log| - 1;
      MakerGain(p, log[..n], t, token) + if log[n].Fill? && log[n].maker == t then FillGain(p, log[n], token) else 0
  }

  /** What all fills of a log together brought all makers: the takers' side of it is the opposite. */
  function FillFlow(p: Params, log: seq<Event>, token: Side): int
    requires p.Valid()
  {
    if log == [] then 0 else FillFlow(p, log[..|log| - 1], token) + FillGain(p, log[|log| - 1], token)
  }

  // ---------- accounts ----------

  /** What a trader holds beyond the fills of its resting orders. */
  ghost function Own(m: Market, t: TraderId, token: Side): int
    requires m.params.Valid()
  {
    HeldBy(m, t, token) - MakerGain(m.params, m.log, t, token)
  }

  /** What all traders hold beyond the fills of resting orders. */
  ghost function OwnOfAll(m: Market, token: Side): int
    requires m.params.Valid()
  {
    Total(m.traders, token) - FillFlow(m.params, m.log, token)
  }

  ghost predicate SameOwn(m: Market, m': Market) {
    && m.params.Valid() && m'.params == m.params
    && (forall u, token :: Own(m', u, token) == Own(m, u, token))
    && forall token :: OwnOfAll(m', token) == OwnOfAll(m, token)
  }

  /** Apart from fills, the change affects the balances of `t` alone. */
  ghost predicate ActsFor(m: Market, m': Market, t: TraderId) {
    && m.params.Valid() && m'.params == m.params
    && (forall u, token | u != t :: Own(m', u, token) == Own(m, u, token))
    && forall token :: Own(m', t, token) - Own(m, t, token) == OwnOfAll(m', token) - OwnOfAll(m, token)
  }

  lemma ActsForTransitive(a: Market, b: Market, d: Market, t: TraderId)
    requires ActsFor(a, b, t) && ActsFor(b, d, t)
    ensures ActsFor(a, d, t)
  {
    hide Own, OwnOfAll;
    forall u, token | u != t
      ensures Own(d, u, token) == Own(a, u, token)
    {
      assert Own(b, u, token) == Own(a, u, token);
    }
    forall token
      ensures Own(d, t, token) - Own(a, t, token) == OwnOfAll(d, token) - OwnOfAll(a, token)
    {
      assert Own(b, t, token) - Own(a, t, token) == OwnOfAll(b, token) - OwnOfAll(a, token);
    }
  }

  lemma SameOwnActs(m: Market, m': Market, t: TraderId)
    requires SameOwn(m, m')
    ensures ActsFor(m, m', t)
  {
    hide Own, OwnOfAll;
  }

  // ---------- the log ----------

  lemma GainAppend(p: Params, log: seq<Event>, ev: Event, t: TraderId, token: Side)
    requires p.Valid()
    ensures MakerGain(p, log + [ev], t, token)
            == MakerGain(p, log, t, token) + if ev.Fill? && ev.maker == t then FillGain(p, ev, token) else 0
    ensures FillFlow(p, log + [ev], token) == FillFlow(p, log, token) + FillGain(p, ev, token)
  {
    assert (log + [ev])[..|log|] == log;
  }

  predicate NoFills(events: seq<Event>) {
    forall i | 0 <= i < |events| :: !events[i].Fill?
  }

  lemma {:induction false} NoFillsNoGain(p: Params, log: seq<Event>, events: seq<Event>, t: TraderId, token: Side)
    requires p.Valid() && NoFills(events)
    ensures MakerGain(p, log + events, t, token) == MakerGain(p, log, t, token)
    ensures FillFlow(p, log + events, token) == FillFlow(p, log, token)
    decreases |events|
  {
    hide MakerGain, FillFlow;
    if events == [] {
      assert log + events == log;
    } else {
      var n := |events| - 1;
      NoFillsNoGain(p, log, events[..n], t, token);
      GainAppend(p, log + events[..n], events[n], t, token);
      assert log + events == log + events[..n] + [events[n]];
    }
  }

  // ---------- elementary edits ----------

  /** A change of one trader's balances, with nothing filled. */
  lemma EditActs(m: Market, m': Market, t: TraderId, s: TraderState, events: seq<Event>)
    requires m.params.Valid() && m'.params == m.params
    requires m'.traders == m.traders[t := s] && m'.log == m.log + events && NoFills(events)
    ensures ActsFor(m, m', t)
  {
    hide MakerGain, FillFlow, Total;
    forall u, token
      ensures u != t ==> Own(m', u, token) == Own(m, u, token)
      ensures Own(m', t, token) - Own(m, t, token) == OwnOfAll(m', token) - OwnOfAll(m, token)
    {
      NoFillsNoGain(m.params, m.log, events, u, token);
      NoFillsNoGain(m.params, m.log, events, t, token);
      TotalUpdate(m.traders, token, t, s);
    }
  }

  lemma UnseatActs(m: Market, t: TraderId)
    requires m.params.Valid() && t in m.traders && m.traders[t] == EMPTY
    ensures SameOwn(m, m.(traders := m.traders - {t}))
  {
    hide MakerGain, FillFlow, Total;
    forall token
      ensures Total(m.traders - {t}, token) == Total(m.traders, token)
    {
      TotalWithout(m.traders, token, t);
    }
  }

  /** Balances and log unchanged: the books, fees and counters belong to nobody. */
  lemma IdleActs(m: Market, m': Market, events: seq<Event>)
    requires m.params.Valid() && m'.params == m.params
    requires m'.traders == m.traders && m'.log == m.log + events && NoFills(events)
    ensures SameOwn(m, m')
  {
    hide MakerGain, FillFlow, Total;
    forall u, token
      ensures Own(m', u, token) == Own(m, u, token)
    {
      NoFillsNoGain(m.params, m.log, events, u, token);
    }
    forall token
      ensures OwnOfAll(m', token) == OwnOfAll(m, token)
    {
      NoFillsNoGain(m.params, m.log, events, 0, token);
    }
  }

  /** Taking lots from a resting order changes its owner's balance by exactly the fill it logs. */
  lemma TakeActs(m: Market, side: Side, i: nat, lots: nat, kind: TakeKind)
    requires Inv(m) && TakeEnabled(m.BookOf(side), i, lots, kind)
    ensures SameOwn(m, Take(m, side, i, lots, kind))
  {
    hide Inv, Take, Own, OwnOfAll;
    InvParams(m);
    var m' := Take(m, side, i, lots, kind);
    TakeOwn(m, side, i, lots, kind, 0, Bid);
    forall u, token
      ensures Own(m', u, token) == Own(m, u, token)
    {
      TakeOwn(m, side, i, lots, kind, u, token);
    }
    forall token
      ensures OwnOfAll(m', token) == OwnOfAll(m, token)
    {
      TakeOwn(m, side, i, lots, kind, 0, token);
    }
  }

  lemma TakeOwn(m: Market, side: Side, i: nat, lots: nat, kind: TakeKind, u: TraderId, token: Side)
    requires Inv(m) && TakeEnabled(m.BookOf(side), i, lots, kind)
    ensures var m' := Take(m, side, i, lots, kind);
            m'.params == m.params && Own(m', u, token) == Own(m, u, token) && OwnOfAll(m', token) == OwnOfAll(m, token)
  {
    hide MakerGain, FillFlow, Total, BookOk, Funded, Registered, QuoteLots, Shrink;
    var e, p := m.BookOf(side)[i], m.params;
    LockedCovers(m, side, i, lots);
    TakeTotals(m, side, i, lots, kind);
    WorthSplit(p, side, e.id.price, 0, 0);
    WorthSplit(p, Opposite(side), e.id.price, 0, 0);
    EntryOfSide(m, side, i);
    var events := TakeEvents(e, lots, kind);
    if events == [] {
      NoFillsNoGain(p, m.log, events, u, token);
    } else {
      GainAppend(p, m.log, events[0], u, token);
      assert events == [events[0]];
    }
  }

  lemma EntryOfSide(m: Market, side: Side, i: nat)
    requires Inv(m) && i < |m.BookOf(side)|
    ensures SideOf(m.BookOf(side)[i].id.seqNum) == side
  {
    assert SideInv(m, side);
    assert EntryOk(side, m.BookOf(side)[i], m.counter);
  }

  lemma {:induction false} TakeHeadsActs(m: Market, side: Side, takes: seq<HeadTake>)
    requires Inv(m) && HeadsEnabled(m.BookOf(side), takes)
    ensures SameOwn(m, TakeHeads(m, side, takes))
    decreases takes
  {
    hide Inv, Own, OwnOfAll, Take, HeadsEnabled;
    assert m.params.Valid() by {
      InvParams(m);
    }
    if takes != [] {
      var lots, kind := takes[0].lots, takes[0].kind;
      HeadsEnabledHead(m.BookOf(side), takes);
      TakeInv(m, side, 0, lots, kind);
      HeadsEnabledTail(m, side, takes);
      TakeActs(m, side, 0, lots, kind);
      TakeHeadsActs(Take(m, side, 0, lots, kind), side, takes[1..]);
    }
  }

  lemma InvParams(m: Market)
    requires Inv(m)
    ensures m.params.Valid()
  {
  }

  // ---------- placing an order ----------

  lemma AdmitActs(m: Market, trader: TraderId, packet: OrderPacket)
    requires Inv(m) && Admit(m, trader, packet).Some?
    ensures ActsFor(m, Admit(m, trader, packet).value.market, trader)
  {
    hide Own, OwnOfAll, SideOk;
    var m' := Admit(m, trader, packet).value.market;
    if m' == m {
      SameOwnActs(m, m, trader);
    } else {
      EditActs(m, m', trader, EMPTY, []);
    }
  }

  lemma CheckForCrossActs(m: Market, side: Side, price: nat, c: Clock)
    requires Inv(m)
    ensures SameOwn(m, CheckForCross(m, side, price, c).market)
  {
    hide Own, OwnOfAll, Inv, TakeHeads, Stale, ExpireHeads;
    var book := m.BookOf(Opposite(side));
    var n := Stale(side, price, book, c);
    ExpireHeadsRemove(book, n);
    TakeHeadsActs(m, Opposite(side), ExpireHeads(book, n));
  }

  lemma ExecuteActs(m: Market, packet: OrderPacket, price: U64, taker: Option<TraderId>, c: Clock)
    requires Inv(m) && !packet.PostOnly? && Execute(m, packet, price, taker, c).Some?
    ensures SameOwn(m, Execute(m, packet, price, taker, c).value.market)
  {
    hide Own, OwnOfAll, Inv, TakeHeads, Walk, RoundUp, RoundDown, TakerFee, AdjustedBudget, HeadsEnabled;
    InvParams(m);
    var f := NewInflight(packet.side, packet, price, AdjustedBudget(m.params, packet.side, packet.QuoteBudget()).value);
    var opp := Opposite(packet.side);
    InvPositive(m, opp);
    WalkTreats(m.params, m.BookOf(opp), taker, c, f);
    var takes := Walk(m.params, m.BookOf(opp), taker, c, f).value.takes;
    var m1, m2 := TakeHeads(m, opp, takes), Execute(m, packet, price, taker, c).value.market;
    TakeHeadsActs(m, opp, takes);
    IdleActs(m1, m2, [m2.log[|m1.log|]]);
  }

  lemma MakeRoomActs(m: Market, side: Side, price: nat)
    requires Inv(m) && MakeRoom(m, side, price).Some?
    ensures SameOwn(m, MakeRoom(m, side, price).value)
  {
    hide Own, OwnOfAll, SideOk, Take;
    var b := m.BookOf(side);
    if |b| >= m.params.Capacity(side) {
      TakeActs(m, side, |b| - 1, b[|b| - 1].order.lots, ByEviction);
    }
  }

  lemma TryPostActs(m: Market, trader: TraderId, packet: OrderPacket, price: U64, lots: nat, crosses: bool, r: Response)
    requires Inv(m) && trader in m.traders && price > 0 && 0 < m.counter < LAST_COUNTER
    requires TryPost(m, trader, packet, price, lots, crosses, r).Some?
    ensures ActsFor(m, TryPost(m, trader, packet, price, lots, crosses, r).value.market, trader)
  {
    hide Own, OwnOfAll, SideOk, Worth, MakeRoom, Insert, PostEnabled, PostState, Counter, SeqNum;
    var side, p := packet.side, TryPost(m, trader, packet, price, lots, crosses, r).value;
    if p.id.None? {
      SameOwnActs(m, m, trader);
    } else {
      var m1 := MakeRoom(m, side, price).value;
      MakeRoomKeeps(m, side, price, Clock(0, 0));
      MakeRoomActs(m, side, price);
      SameOwnActs(m, m1, trader);
      var e := NewEntry(m1, side, trader, price, lots, packet);
      EditActs(m1, p.market, trader, p.market.traders[trader], PostEvents(e, packet.clientId));
      ActsForTransitive(m, m1, p.market, trader);
    }
  }

  lemma SettleActs(m: Market, side: Side, taker: Option<TraderId>, depositedOnly: bool, r: Response, t: TraderId)
    requires m.params.Valid() && (taker.Some? ==> taker.value in m.traders && taker.value == t)
    requires Settle(m, side, taker, depositedOnly, r).Some?
    ensures ActsFor(m, Settle(m, side, taker, depositedOnly, r).value.market, t)
  {
    hide Own, OwnOfAll;
    var m' := Settle(m, side, taker, depositedOnly, r).value.market;
    if taker.Some? {
      EditActs(m, m', t, m'.traders[t], []);
    } else {
      SameOwnActs(m, m, t);
    }
  }

  lemma WorkActs(m: Market, trader: TraderId, taker: Option<TraderId>, packet: OrderPacket, price: U64, c: Clock)
    requires Inv(m) && 0 < m.counter < LAST_COUNTER
    requires !packet.TakeOnly() ==> trader in m.traders && price > 0
    requires Work(m, trader, taker, packet, price, c).Some?
    ensures ActsFor(m, Work(m, trader, taker, packet, price, c).value.market, trader)
  {
    hide SideOk, Own, OwnOfAll, Execute, TryPost, NoCross, LimitCrosses, CheckForCross, Keeps, Balanced, SameOwn, ActsFor;
    var m' := Work(m, trader, taker, packet, price, c).value.market;
    if packet.PostOnly? {
      PreparePostOnlyKeeps(m, packet.side, price, packet.reject, c);
      var p := PreparePostOnly(m, packet.side, price, packet.reject, c).value;
      CheckForCrossActs(m, packet.side, price, c);
      SameOwnActs(m, p.market, trader);
      assert Inv(p.market) by { KeepsInv(m, p.market, c); }
      TryPostActs(p.market, trader, packet, p.price, packet.baseLots, false, NOTHING);
      ActsForTransitive(m, p.market, m', trader);
    } else {
      ExecuteKeeps(m, packet, price, taker, c);
      ExecuteActs(m, packet, price, taker, c);
      var e := Execute(m, packet, price, taker, c).value;
      SameOwnActs(m, e.market, trader);
      assert Inv(e.market) by { KeepsInv(m, e.market, c); }
      if packet.Limit? {
        TryPostActs(e.market, trader, packet, price, e.lots, LimitCrosses(e.market, packet.side, price, c), e.response);
        ActsForTransitive(m, e.market, m', trader);
      }
    }
  }

  lemma KeepsInv(m: Market, m': Market, c: Clock)
    requires Keeps(m, m', c)
    ensures Inv(m')
  {
  }

  lemma PlaceOrderActs(m: Market, trader: TraderId, packet: OrderPacket, c: Clock)
    requires Inv(m) && PlaceOrder(m, trader, packet, c).Some?
    ensures ActsFor(m, PlaceOrder(m, trader, packet, c).value.market, trader)
  {
    hide SideOk, Work, Settle, Admit, Own, OwnOfAll, ActsFor, Balanced;
    var a, m' := Admit(m, trader, packet).value, PlaceOrder(m, trader, packet, c).value.market;
    AdmitKeeps(m, trader, packet, c);
    AdmitActs(m, trader, packet);
    if !packet.IsExpired(c) {
      WorkKeeps(a.market, trader, a.taker, packet, a.price, c);
      WorkActs(a.market, trader, a.taker, packet, a.price, c);
      var w := Work(a.market, trader, a.taker, packet, a.price, c).value;
      SettleActs(w.market, packet.side, a.taker, packet.depositedOnly, w.response, trader);
      ActsForTransitive(a.market, w.market, m', trader);
      ActsForTransitive(m, a.market, m', trader);
    }
  }

  /** What the taker of an instruction gets of one token: the makers' fills reversed, less the fee. */
  function TakerGain(m: Market, m': Market, token: Side): int
    requires m.params.Valid() && m'.params == m.params
  {
    FillFlow(m.params, m.log, token) - FillFlow(m.params, m'.log, token)
    - if token.Bid? then m'.unclaimed - m.unclaimed else 0
  }

  /** The change of a trader's balance in one token that its own instruction accounts for: what its
      response says was paid in and out, and its side of the fills together with the fee. */
  function SenderGain(m: Market, m': Market, r: Response, token: Side): int
    requires m.params.Valid() && m'.params == m.params
  {
    r.Deposit(token) - r.Out(token) + TakerGain(m, m', token)
  }

  lemma SenderOwn(m: Market, m': Market, t: TraderId, r: Response, token: Side)
    requires ActsFor(m, m', t) && Balanced(m, m', r)
    ensures Own(m', t, token) - Own(m, t, token) == SenderGain(m, m', r, token)
  {
    hide MakerGain, FillFlow, Total, HeldBy;
    assert BalancedFor(m, m', r, token) by { match token case Bid => case Ask => }
    assert Own(m', t, token) - Own(m, t, token) == OwnOfAll(m', token) - OwnOfAll(m, token);
  }

  /** An exact account of an instruction sent by `t`: every maker's balance changes by exactly its
      logged fills, the sender's also by exactly what the response says, the makers' fills
      reversed, and the fee, and nobody else's changes at all. */
  ghost predicate Accounted(m: Market, m': Market, t: TraderId, r: Response) {
    && m.params.Valid() && m'.params == m.params
    && forall u, token ::
         HeldBy(m', u, token) - HeldBy(m, u, token)
         == MakerGain(m.params, m'.log, u, token) - MakerGain(m.params, m.log, u, token)
            + (if u == t then SenderGain(m, m', r, token) else 0)
  }

  lemma ActsForAccounted(m: Market, m': Market, t: TraderId, r: Response)
    requires ActsFor(m, m', t) && Balanced(m, m', r)
    ensures Accounted(m, m', t, r)
  {
    hide MakerGain, FillFlow, Total;
    forall u, token
      ensures HeldBy(m', u, token) - HeldBy(m, u, token)
              == MakerGain(m.params, m'.log, u, token) - MakerGain(m.params, m.log, u, token)
                 + (if u == t then SenderGain(m, m', r, token) else 0)
    {
      SenderOwn(m, m', t, r, token);
      assert u != t ==> Own(m', u, token) == Own(m, u, token);
    }
  }

  /** Who gains and who pays in a placement. */
  lemma PlaceOrderAccounted(m: Market, trader: TraderId, packet: OrderPacket, c: Clock)
    requires Inv(m) && PlaceOrder(m, trader, packet, c).Some?
    ensures var r := PlaceOrder(m, trader, packet, c).value; Accounted(m, r.market, trader, r.response)
  {
    hide Inv, PlaceOrder, ActsFor, Balanced, Accounted;
    PlaceOrderActs(m, trader, packet, c);
    PlaceOrderKeeps(m, trader, packet, c);
    var r := PlaceOrder(m, trader, packet, c).value;
    ActsForAccounted(m, r.market, trader, r.response);
  }

  // ---------- all instructions ----------

  lemma ClaimActs(m: Market, t: TraderId, quote: Option<nat>, base: Option<nat>, evict: bool)
    requires m.params.Valid() && t in m.traders && Claim(m, t, quote, base, evict).Some?
    ensures ActsFor(m, Claim(m, t, quote, base, evict).value.market, t)
  {
    hide Own, OwnOfAll, ActsFor;
    var s, m' := m.traders[t], Claim(m, t, quote, base, evict).value.market;
    var s' := s.(quoteFree := s.quoteFree - Claimed(quote, s.quoteFree), baseFree := s.baseFree - Claimed(base, s.baseFree));
    var m1 := m.WithTrader(t, s');
    EditActs(m, m1, t, s', []);
    if m' != m1 {
      UnseatActs(m1, t);
      SameOwnActs(m1, m', t);
      ActsForTransitive(m, m1, m', t);
    }
  }

  lemma DepositActs(m: Market, t: TraderId, quote: nat, base: nat)
    requires m.params.Valid() && Deposit(m, t, quote, base).Some?
    ensures ActsFor(m, Deposit(m, t, quote, base).value.market, t)
  {
    hide ActsFor;
    var m' := Deposit(m, t, quote, base).value.market;
    assert m'.traders == m.traders[t := m'.traders[t]];
    EditActs(m, m', t, m'.traders[t], []);
  }

  lemma ReduceOrderActs(m: Market, t: TraderId, id: OrderId, side: Side, size: Option<nat>, expired: bool, claim: bool)
    requires Inv(m) && t in m.traders && ReduceOrder(m, t, id, side, size, expired, claim).Some?
    ensures ActsFor(m, ReduceOrder(m, t, id, side, size, expired, claim).value.market, t)
  {
    hide SideOk, Own, OwnOfAll, ActsFor, SameOwn, Take, Claim, Worth;
    var found, m' := IndexOf(m.BookOf(side), id), ReduceOrder(m, t, id, side, size, expired, claim).value.market;
    if found.Some? {
      var i, e := found.value, m.BookOf(side)[found.value];
      var lots := if expired then e.order.lots else Claimed(size, e.order.lots);
      var kind := if expired then ByExpiry else ByReduce;
      var m1 := Take(m, side, i, lots, kind);
      TakeReturns(m, side, i, lots, kind, Clock(0, 0));
      TakeActs(m, side, i, lots, kind);
      SameOwnActs(m, m1, t);
      if claim {
        var w := Worth(m.params, side, e.id.price, lots);
        ClaimActs(m1, t, Some(if side.Bid? then w else 0), Some(if side.Bid? then 0 else w), false);
        ActsForTransitive(m, m1, m', t);
      }
    } else {
      Unmoved(m, t);
    }
  }

  lemma Unmoved(m: Market, t: TraderId)
    requires m.params.Valid()
    ensures ActsFor(m, m, t)
  {
    hide Own, OwnOfAll;
  }

  lemma {:induction false} CancelIdsActs(m: Market, t: TraderId, ids: seq<OrderId>, claim: bool)
    requires Inv(m) && t in m.traders
    ensures ActsFor(m, CancelIds(m, t, ids, claim).market, t)
    decreases ids
  {
    hide SideOk, ReduceOrder, ActsFor, Uncrossed, LogInv, Balanced;
    if ids == [] {
      Unmoved(m, t);
    } else {
      var side := SideOf(ids[0].seqNum);
      var r := ReduceOrder(m, t, ids[0], side, None, false, claim);
      if r.None? {
        CancelIdsActs(m, t, ids[1..], claim);
      } else {
        ReduceOrderKeeps(m, t, ids[0], side, None, false, claim, Clock(0, 0));
        ReduceOrderActs(m, t, ids[0], side, None, false, claim);
        CancelIdsActs(r.value.market, t, ids[1..], claim);
        ActsForTransitive(m, r.value.market, CancelIds(m, t, ids, claim).market, t);
      }
    }
  }

  lemma PlaceLevelActs(m: Market, t: TraderId, level: Level, mode: Mode, c: Clock, purse: Purse)
    requires Inv(m) && t in m.traders && PlaceLevel(m, t, level, mode, c, purse).Some?
    ensures ActsFor(m, PlaceLevel(m, t, level, mode, c, purse).value.market, t)
  {
    hide SideOk, PlaceOrder, ActsFor, Worth;
    if mode.skipUnfunded && purse.Available(level.side) < Required(m.params, level) {
      Unmoved(m, t);
    } else {
      PlaceOrderActs(m, t, PacketFor(level, mode), c);
    }
  }

  lemma {:induction false} PlaceLevelsActs(m: Market, t: TraderId, levels: seq<Level>, mode: Mode, c: Clock, purse: Purse)
    requires Inv(m) && t in m.traders && PlaceLevels(m, t, levels, mode, c, purse).Some?
    ensures ActsFor(m, PlaceLevels(m, t, levels, mode, c, purse).value.market, t)
    decreases levels
  {
    hide Inv, PlaceLevel, ActsFor, Uncrossed, LogInv, Funds;
    if levels == [] {
      InvParams(m);
      Unmoved(m, t);
    } else {
      var b := PlaceLevel(m, t, levels[0], mode, c, purse).value;
      PlaceLevelKeeps(m, t, levels[0], mode, c, purse);
      PlaceLevelActs(m, t, levels[0], mode, c, purse);
      PlaceLevelsActs(b.market, t, levels[1..], mode, c, b.purse);
      ActsForTransitive(m, b.market, PlaceLevels(m, t, levels, mode, c, purse).value.market, t);
    }
  }

  lemma ApplyActs(m: Market, step: Step)
    requires Inv(m) && Apply(m, step).Some?
    ensures var m' := Apply(m, step).value.market;
            if step.CollectFeesStep? then SameOwn(m, m') else ActsFor(m, m', step.trader)
  {
    hide SideOk, PlaceOrder, PlaceLevels, ReduceOrder, CancelIds, Claim, Deposit, ActsFor, SameOwn;
    match step {
      case PlaceStep(t, packet, clock) => PlaceOrderActs(m, t, packet, clock);
      case BatchStep(t, levels, mode, clock, accountQuote, accountBase) =>
        PlaceLevelsActs(m, t, levels, mode, clock, StartingPurse(m.traders[t], accountQuote, accountBase));
      case ReduceStep(t, id, side, size, claim) => ReduceOrderActs(m, t, id, side, size, false, claim);
      case CancelAllStep(t, claim) =>
        if t in m.traders {
          CancelIdsActs(m, t, OwnIds(m.bids, t) + OwnIds(m.asks, t), claim);
        } else {
          Unmoved(m, t);
        }
      case CancelUpToStep(t, side, search, count, limit, claim) =>
        if t in m.traders {
          CancelIdsActs(m, t, UpToIds(m, t, side, search, count, limit), claim);
        } else {
          Unmoved(m, t);
        }
      case CancelIdsStep(t, ids, claim) =>
        if t in m.traders {
          CancelIdsActs(m, t, ids, claim);
        } else {
          Unmoved(m, t);
        }
      case ClaimStep(t, quote, base, evict) => ClaimActs(m, t, quote, base, evict);
      case DepositStep(t, quote, base) => DepositActs(m, t, quote, base);
      case CollectFeesStep => IdleActs(m, CollectFees(m).market, [Fee(m.unclaimed)]);
    }
  }

  /** Every instruction is accounted for trader by trader; collecting fees touches no trader. */
  lemma ApplyAccounted(m: Market, step: Step)
    requires Inv(m) && Apply(m, step).Some?
    ensures var r := Apply(m, step).value;
            if step.CollectFeesStep? then r.market.traders == m.traders
            else Accounted(m, r.market, step.trader, r.response)
  {
    if !step.CollectFeesStep? {
      hide Inv, Apply, ActsFor, Balanced, Accounted;
      ApplyActs(m, step);
      ApplyKeeps(m, step, step.ClockOr(Clock(0, 0)));
      var r := Apply(m, step).value;
      ActsForAccounted(m, r.market, step.trader, r.response);
    }
  }
}
