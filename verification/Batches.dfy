/** Placing many post-only orders in one instruction, with a running estimate of the trader's
    available funds. */
module Batches {
  import opened Quantities
  import opened OrderIds
  import opened Books
  import opened Traders
  import opened Markets
  import opened Matching
  import opened Packets
  import opened Placement

  /** One price level of the batch. */
  datatype Level = Level(side: Side, price: U64, lots: U64, slot: Option<U64>, time: Option<U64>)

  /** How the batch treats orders that cross and orders the trader cannot fund. */
  datatype Mode = Mode(skipUnfunded: bool, failOnCross: bool, depositedOnly: bool, clientId: U128)

  function PacketFor(level: Level, mode: Mode): OrderPacket {
    PostOnly(level.side, level.price, level.lots, mode.clientId, mode.failOnCross, mode.depositedOnly,
             level.slot, level.time, mode.skipUnfunded)
  }

  /** Lots of the paying token an order needs at the price it asks for. */
  function Required(p: Params, level: Level): nat
    requires p.Valid()
  {
    Worth(p, level.side, level.price, level.lots)
  }

  /** Running amounts per token: the estimate of what is available, and what must be deposited. */
  datatype Purse = Purse(quoteAvailable: nat, baseAvailable: nat, quoteDeposit: nat, baseDeposit: nat) {
    function Available(side: Side): nat {
      match side case Bid => quoteAvailable case Ask => baseAvailable
    }
  }

  datatype Batch = Batch(market: Market, purse: Purse)

  /** What a post-only placement by a seated trader moves: it posts no more than the asked price
      requires, deposits only what free funds did not cover, and touches nothing else. */
  lemma PostOnlyMoves(m: Market, t: TraderId, packet: OrderPacket, c: Clock)
    requires Inv(m) && t in m.traders && packet.PostOnly? && PlaceOrder(m, t, packet, c).Some?
    ensures var r, side := PlaceOrder(m, t, packet, c).value, packet.side;
            && t in r.market.traders && r.market.params == m.params
            && (forall s :: r.response.In(s) == r.response.Out(s) == 0)
            && r.response.Posted(Opposite(side)) == r.response.FreeUsed(Opposite(side)) == 0
            && r.response.FreeUsed(side) <= r.response.Posted(side) <= Worth(m.params, side, packet.price, packet.baseLots)
            && (r.response.Posted(side) > r.response.FreeUsed(side) ==>
                  r.response.Posted(side) - r.response.FreeUsed(side) + m.traders[t].Free(side) <= r.response.Posted(side))
            && (forall s :: r.market.traders[t].Free(s) + r.response.FreeUsed(s) >= m.traders[t].Free(s))
  {
    hide SideOk, Uncrossed, LogInv, Funds, CheckForCross, TryPost, Worth, Balanced, NoCross, Settle;
    AdmitKeeps(m, t, packet, c);
    var a := Admit(m, t, packet).value;
    assert a.market == m;
    if !packet.IsExpired(c) {
      PreparePostOnlyKeeps(m, packet.side, a.price, packet.reject, c);
      var p := PreparePostOnly(m, packet.side, a.price, packet.reject, c).value;
      CheckForCrossFree(m, packet.side, a.price, c, t);
      TryPostMoves(p.market, t, packet, p.price);
      WorthMonotone(m.params, packet.side, p.price, packet.price, packet.baseLots);
      WorkKeeps(m, t, Some(t), packet, a.price, c);
      var w := Work(m, t, Some(t), packet, a.price, c).value;
      SettleUnmatched(w.market, packet.side, t, packet.depositedOnly, w.response);
    }
  }

  /** Nothing was matched, so there is nothing more to pay. */
  lemma SettleUnmatched(m: Market, side: Side, t: TraderId, depositedOnly: bool, r: Response)
    requires t in m.traders && Settle(m, side, Some(t), depositedOnly, r).Some?
    requires forall s :: r.In(s) == r.Out(s) == 0
    ensures var s := Settle(m, side, Some(t), depositedOnly, r).value;
            s.response == r && s.market == m
  {
    assert r.In(Bid) == r.Out(Bid) == r.In(Ask) == r.Out(Ask) == 0;
    assert m.traders[t := m.traders[t]] == m.traders;
  }

  lemma CheckForCrossFree(m: Market, side: Side, price: nat, c: Clock, t: TraderId)
    requires Inv(m) && t in m.traders
    ensures var m' := CheckForCross(m, side, price, c).market;
            && Inv(m') && t in m'.traders && m'.params == m.params && m'.counter == m.counter
            && m'.traders[t].quoteFree >= m.traders[t].quoteFree && m'.traders[t].baseFree >= m.traders[t].baseFree
  {
    hide SideOk, Uncrossed, LogInv, Funds, TakeHeads;
    CheckForCrossKeeps(m, side, price, c);
    var book := m.BookOf(Opposite(side));
    ExpireHeadsRemove(book, Stale(side, price, book, c));
    TakeHeadsFree(m, Opposite(side), ExpireHeads(book, Stale(side, price, book, c)), t);
  }

  lemma WorthMonotone(p: Params, side: Side, price: nat, asked: nat, lots: nat)
    requires p.Valid() && (side.Bid? ==> price <= asked)
    ensures Worth(p, side, price, lots) <= Worth(p, side, asked, lots)
  {
    if side.Bid? {
      QuoteLotsMonotone(p, price, asked, lots);
    }
  }

  lemma TryPostMoves(m: Market, t: TraderId, packet: OrderPacket, price: U64)
    requires Inv(m) && t in m.traders && price > 0 && 0 < m.counter < LAST_COUNTER
    requires TryPost(m, t, packet, price, packet.baseLots, false, NOTHING).Some?
    ensures var r, side := TryPost(m, t, packet, price, packet.baseLots, false, NOTHING).value, packet.side;
            && t in r.market.traders
            && (forall s :: r.response.In(s) == r.response.Out(s) == 0)
            && r.response.Posted(Opposite(side)) == r.response.FreeUsed(Opposite(side)) == 0
            && r.response.FreeUsed(side) <= r.response.Posted(side) <= Worth(m.params, side, price, packet.baseLots)
            && (r.response.Posted(side) > r.response.FreeUsed(side) ==> r.response.FreeUsed(side) >= m.traders[t].Free(side))
            && (forall s :: r.market.traders[t].Free(s) + r.response.FreeUsed(s) >= m.traders[t].Free(s))
  {
    hide SideOk, Uncrossed, LogInv, Funds, Worth, TakeEvents, PostEvents, Insert, Shrink, PostEnabled;
    var side := packet.side;
    if packet.baseLots > 0 {
      MakeRoomKeeps(m, side, price, Clock(0, 0));
      MakeRoomFree(m, side, price, t);
    }
  }

  lemma MakeRoomFree(m: Market, side: Side, price: nat, t: TraderId)
    requires Inv(m) && t in m.traders && MakeRoom(m, side, price).Some?
    ensures var m' := MakeRoom(m, side, price).value;
            t in m'.traders && m'.traders[t].quoteFree >= m.traders[t].quoteFree && m'.traders[t].baseFree >= m.traders[t].baseFree
  {
    hide SideOk, Worth, Shrink, TakeEvents;
    var book := m.BookOf(side);
    if |book| >= m.params.Capacity(side) {
      LockedCovers(m, side, |book| - 1, book[|book| - 1].order.lots);
    }
  }

  // ---------- one level ----------

  /** Skips a level the trader cannot fund, if told to; otherwise places it and books what it used. */
  function PlaceLevel(m: Market, t: TraderId, level: Level, mode: Mode, c: Clock, purse: Purse): Option<Batch>
    requires Inv(m) && t in m.traders
  {
    if mode.skipUnfunded && purse.Available(level.side) < Required(m.params, level) then Some(Batch(m, purse)) else
      match PlaceOrder(m, t, PacketFor(level, mode), c)
      case None => None
      case Some(r) =>
        PostOnlyMoves(m, t, PacketFor(level, mode), c);
        var quote, base := r.response.Deposit(Bid), r.response.Deposit(Ask);
        Some(Batch(r.market, Purse(
          if mode.skipUnfunded then purse.quoteAvailable - (quote + r.response.freeQuoteUsed) else purse.quoteAvailable,
          if mode.skipUnfunded then purse.baseAvailable - (base + r.response.freeBaseUsed) else purse.baseAvailable,
          purse.quoteDeposit + quote,
          purse.baseDeposit + base)))
  }

  /** The estimate never promises more than the token account and the free balance still hold, and
      the deposits so far fit the token account. */
  predicate PurseOk(m: Market, t: TraderId, purse: Purse, accountQuote: nat, accountBase: nat)
    requires t in m.traders
  {
    && purse.quoteAvailable + purse.quoteDeposit <= accountQuote + m.traders[t].quoteFree
    && purse.baseAvailable + purse.baseDeposit <= accountBase + m.traders[t].baseFree
    && purse.quoteDeposit <= accountQuote && purse.baseDeposit <= accountBase
  }

  lemma PlaceLevelKeeps(m: Market, t: TraderId, level: Level, mode: Mode, c: Clock, purse: Purse)
    requires Inv(m) && t in m.traders && PlaceLevel(m, t, level, mode, c, purse).Some?
    ensures var b := PlaceLevel(m, t, level, mode, c, purse).value;
            && Keeps(m, b.market, c) && t in b.market.traders
            && Funds(b.market, Bid) + purse.quoteDeposit == Funds(m, Bid) + b.purse.quoteDeposit
            && Funds(b.market, Ask) + purse.baseDeposit == Funds(m, Ask) + b.purse.baseDeposit
  {
    hide SideOk, Uncrossed, LogInv, Funds, PlaceOrder, Worth;
    var b := PlaceLevel(m, t, level, mode, c, purse).value;
    if mode.skipUnfunded && purse.Available(level.side) < Required(m.params, level) {
      assert Keeps(m, m, c);
    } else {
      PlaceOrderKeeps(m, t, PacketFor(level, mode), c);
      PostOnlyMoves(m, t, PacketFor(level, mode), c);
      var r := PlaceOrder(m, t, PacketFor(level, mode), c).value.response;
      assert r.In(Bid) == r.Out(Bid) == r.In(Ask) == r.Out(Ask) == 0;
    }
  }

  /** Placing a level keeps the purse covered, whatever was amended, expired or evicted meanwhile. */
  lemma PlaceLevelCovered(m: Market, t: TraderId, level: Level, mode: Mode, c: Clock, purse: Purse, accountQuote: nat, accountBase: nat)
    requires Inv(m) && t in m.traders && mode.skipUnfunded && PurseOk(m, t, purse, accountQuote, accountBase)
    requires PlaceLevel(m, t, level, mode, c, purse).Some?
    ensures var b := PlaceLevel(m, t, level, mode, c, purse).value;
            t in b.market.traders && PurseOk(b.market, t, b.purse, accountQuote, accountBase)
  {
    hide SideOk, PlaceOrder, Worth;
    if purse.Available(level.side) >= Required(m.params, level) {
      PostOnlyMoves(m, t, PacketFor(level, mode), c);
      var r := PlaceOrder(m, t, PacketFor(level, mode), c).value;
      assert r.response.In(Bid) == 0 && r.response.In(Ask) == 0;
      assert r.market.traders[t].Free(Bid) + r.response.FreeUsed(Bid) >= m.traders[t].Free(Bid);
      assert r.market.traders[t].Free(Ask) + r.response.FreeUsed(Ask) >= m.traders[t].Free(Ask);
    }
  }

  // ---------- all levels ----------

  function PlaceLevels(m: Market, t: TraderId, levels: seq<Level>, mode: Mode, c: Clock, purse: Purse): Option<Batch>
    requires Inv(m) && t in m.traders
    decreases levels
  {
    if levels == [] then Some(Batch(m, purse)) else
      match PlaceLevel(m, t, levels[0], mode, c, purse)
      case None => None
      case Some(b) =>
        PlaceLevelKeeps(m, t, levels[0], mode, c, purse);
        PlaceLevels(b.market, t, levels[1..], mode, c, b.purse)
  }

  /** A batch keeps the market's invariants and pays in exactly what it deposits. */
  lemma {:induction false} PlaceLevelsKeeps(m: Market, t: TraderId, levels: seq<Level>, mode: Mode, c: Clock, purse: Purse)
    requires Inv(m) && t in m.traders && PlaceLevels(m, t, levels, mode, c, purse).Some?
    ensures var b := PlaceLevels(m, t, levels, mode, c, purse).value;
            && Keeps(m, b.market, c)
            && Funds(b.market, Bid) + purse.quoteDeposit == Funds(m, Bid) + b.purse.quoteDeposit
            && Funds(b.market, Ask) + purse.baseDeposit == Funds(m, Ask) + b.purse.baseDeposit
    decreases levels
  {
    hide Inv, Uncrossed, LogInv, Funds, PlaceLevel;
    if levels == [] {
      assert Keeps(m, m, c);
    } else {
      var b := PlaceLevel(m, t, levels[0], mode, c, purse).value;
      PlaceLevelKeeps(m, t, levels[0], mode, c, purse);
      PlaceLevelsKeeps(b.market, t, levels[1..], mode, c, b.purse);
    }
  }

  lemma {:induction false} PlaceLevelsCovered(m: Market, t: TraderId, levels: seq<Level>, mode: Mode, c: Clock, purse: Purse, accountQuote: nat, accountBase: nat)
    requires Inv(m) && t in m.traders && mode.skipUnfunded && PurseOk(m, t, purse, accountQuote, accountBase)
    requires PlaceLevels(m, t, levels, mode, c, purse).Some?
    ensures var b := PlaceLevels(m, t, levels, mode, c, purse).value;
            b.purse.quoteDeposit <= accountQuote && b.purse.baseDeposit <= accountBase
    decreases levels
  {
    hide Inv, PlaceLevel, Keeps;
    if levels != [] {
      var b := PlaceLevel(m, t, levels[0], mode, c, purse).value;
      PlaceLevelInv(m, t, levels[0], mode, c, purse);
      PlaceLevelCovered(m, t, levels[0], mode, c, purse, accountQuote, accountBase);
      PlaceLevelsCovered(b.market, t, levels[1..], mode, c, b.purse, accountQuote, accountBase);
    }
  }

  lemma PlaceLevelInv(m: Market, t: TraderId, level: Level, mode: Mode, c: Clock, purse: Purse)
    requires Inv(m) && t in m.traders && PlaceLevel(m, t, level, mode, c, purse).Some?
    ensures Inv(PlaceLevel(m, t, level, mode, c, purse).value.market)
  {
    PlaceLevelKeeps(m, t, level, mode, c, purse);
  }

  /** The lots the trader starts with: free balances and, if token accounts are given, theirs. */
  function StartingPurse(s: TraderState, accountQuote: nat, accountBase: nat): Purse {
    Purse(accountQuote + s.quoteFree, accountBase + s.baseFree, 0, 0)
  }

  /** In skip mode the deposit of a whole batch never exceeds the lots in the trader's token accounts
      at the start. */
  lemma BatchIsCovered(m: Market, t: TraderId, levels: seq<Level>, mode: Mode, c: Clock, accountQuote: nat, accountBase: nat)
    requires Inv(m) && t in m.traders && mode.skipUnfunded
    requires PlaceLevels(m, t, levels, mode, c, StartingPurse(m.traders[t], accountQuote, accountBase)).Some?
    ensures var b := PlaceLevels(m, t, levels, mode, c, StartingPurse(m.traders[t], accountQuote, accountBase)).value;
            b.purse.quoteDeposit <= accountQuote && b.purse.baseDeposit <= accountBase
  {
    PlaceLevelsCovered(m, t, levels, mode, c, StartingPurse(m.traders[t], accountQuote, accountBase), accountQuote, accountBase);
  }

  /** The whole batch; it fails for a trader without a seat. */
  function WholeBatch(m: Market, t: TraderId, levels: seq<Level>, mode: Mode, c: Clock, accountQuote: nat, accountBase: nat): Option<Batch>
    requires Inv(m)
  {
    if t !in m.traders then None
    else PlaceLevels(m, t, levels, mode, c, StartingPurse(m.traders[t], accountQuote, accountBase))
  }

  /** The deposit of a whole batch as what the instruction moves. */
  function DepositOf(purse: Purse): Response {
    NOTHING.(quoteIn := purse.quoteDeposit, baseIn := purse.baseDeposit)
  }

  lemma WholeBatchKeeps(m: Market, t: TraderId, levels: seq<Level>, mode: Mode, c: Clock, accountQuote: nat, accountBase: nat)
    requires Inv(m) && WholeBatch(m, t, levels, mode, c, accountQuote, accountBase).Some?
    ensures var b := WholeBatch(m, t, levels, mode, c, accountQuote, accountBase).value;
            Keeps(m, b.market, c) && Balanced(m, b.market, DepositOf(b.purse))
  {
    hide Inv, PlaceLevels, Keeps, Funds;
    PlaceLevelsKeeps(m, t, levels, mode, c, StartingPurse(m.traders[t], accountQuote, accountBase));
  }

  // ---------- which levels are placed ----------

  /** What a level does to the batch. In skip mode it is left out exactly when the lots still available
      are fewer than it needs: price times tick size times size over lots per unit for a bid, its size
      for an ask. Otherwise its packet is placed, the estimate falls by what it posts, and what free
      funds did not pay is added to the deposit. The other token is not touched. */
  predicate LevelDone(before: Batch, t: TraderId, level: Level, mode: Mode, c: Clock, after: Batch)
    requires Inv(before.market) && t in before.market.traders
  {
    var m, p, side, purse, purse' := before.market, before.market.params, level.side, before.purse, after.purse;
    var need := if side.Bid? then level.price * p.tickSize * level.lots / p.lotsPerUnit else level.lots;
    if mode.skipUnfunded && (if side.Bid? then purse.quoteAvailable else purse.baseAvailable) < need then
      after == before
    else
      var r := PlaceOrder(
        m, t,
        PostOnly(side, level.price, level.lots, mode.clientId, mode.failOnCross, mode.depositedOnly, level.slot, level.time, mode.skipUnfunded),
        c);
      && r.Some? && after.market == r.value.market
      && var quote, base := r.value.response.quotePosted, r.value.response.basePosted;
      && (if side.Bid? then base == 0 else quote == 0)
      && purse'.quoteAvailable == purse.quoteAvailable - (if mode.skipUnfunded then quote else 0)
      && purse'.baseAvailable == purse.baseAvailable - (if mode.skipUnfunded then base else 0)
      && purse'.quoteDeposit == purse.quoteDeposit + quote - r.value.response.freeQuoteUsed
      && purse'.baseDeposit == purse.baseDeposit + base - r.value.response.freeBaseUsed
  }

  lemma PlaceLevelExactly(m: Market, t: TraderId, level: Level, mode: Mode, c: Clock, purse: Purse, b: Batch)
    requires Inv(m) && t in m.traders
    ensures PlaceLevel(m, t, level, mode, c, purse) == Some(b) <==> LevelDone(Batch(m, purse), t, level, mode, c, b)
  {
    hide SideOk, PlaceOrder, Required;
    NeedIsRequired(m.params, level);
    var r := PlaceOrder(m, t, PacketFor(level, mode), c);
    if r.Some? {
      PostOnlyMoves(m, t, PacketFor(level, mode), c);
      var q := r.value.response;
      assert q.In(Bid) == q.Out(Bid) == q.In(Ask) == q.Out(Ask) == 0;
      assert q.FreeUsed(level.side) <= q.Posted(level.side);
    }
  }

  lemma NeedIsRequired(p: Params, level: Level)
    requires p.Valid()
    ensures Required(p, level) == if level.side.Bid? then level.price * p.tickSize * level.lots / p.lotsPerUnit else level.lots
  {
  }

  lemma PlacedLevelDone(m: Market, t: TraderId, level: Level, mode: Mode, c: Clock, purse: Purse)
    requires Inv(m) && t in m.traders
    ensures var b := PlaceLevel(m, t, level, mode, c, purse);
            b.Some? ==> LevelDone(Batch(m, purse), t, level, mode, c, b.value)
  {
    hide Inv, PlaceLevel, LevelDone;
    if PlaceLevel(m, t, level, mode, c, purse).Some? {
      PlaceLevelExactly(m, t, level, mode, c, purse, PlaceLevel(m, t, level, mode, c, purse).value);
    }
  }

  /** The states of a batch between its levels. */
  ghost predicate Trace(t: TraderId, levels: seq<Level>, mode: Mode, c: Clock, states: seq<Batch>) {
    && |states| == |levels| + 1
    && (forall i | 0 <= i < |states| :: Inv(states[i].market) && t in states[i].market.traders)
    && (forall i | 0 <= i < |levels| :: LevelDone(states[i], t, levels[i], mode, c, states[i + 1]))
  }

  /** A batch that succeeds takes its levels in order, each on the market and the estimate the ones
      before it left. */
  lemma {:induction false} BatchHasTrace(m: Market, t: TraderId, levels: seq<Level>, mode: Mode, c: Clock, purse: Purse)
    returns (states: seq<Batch>)
    requires Inv(m) && t in m.traders && PlaceLevels(m, t, levels, mode, c, purse).Some?
    ensures Trace(t, levels, mode, c, states)
    ensures states[0] == Batch(m, purse) && states[|levels|] == PlaceLevels(m, t, levels, mode, c, purse).value
    decreases levels
  {
    hide Inv, PlaceLevel, LevelDone, Keeps;
    if levels == [] {
      states := [Batch(m, purse)];
    } else {
      var b := PlaceLevel(m, t, levels[0], mode, c, purse).value;
      LevelLeaves(m, t, levels[0], mode, c, purse);
      PlaceLevelExactly(m, t, levels[0], mode, c, purse, b);
      var rest := BatchHasTrace(b.market, t, levels[1..], mode, c, b.purse);
      states := [Batch(m, purse)] + rest;
      TraceCons(Batch(m, purse), t, levels, mode, c, rest);
    }
  }

  lemma LevelLeaves(m: Market, t: TraderId, level: Level, mode: Mode, c: Clock, purse: Purse)
    requires Inv(m) && t in m.traders && PlaceLevel(m, t, level, mode, c, purse).Some?
    ensures var b := PlaceLevel(m, t, level, mode, c, purse).value; Inv(b.market) && t in b.market.traders
  {
    PlaceLevelKeeps(m, t, level, mode, c, purse);
  }

  lemma TraceCons(first: Batch, t: TraderId, levels: seq<Level>, mode: Mode, c: Clock, rest: seq<Batch>)
    requires levels != [] && Trace(t, levels[1..], mode, c, rest)
    requires Inv(first.market) && t in first.market.traders && LevelDone(first, t, levels[0], mode, c, rest[0])
    ensures Trace(t, levels, mode, c, [first] + rest)
  {
    hide Inv, LevelDone;
    var states := [first] + rest;
    forall i | 0 <= i < |states|
      ensures Inv(states[i].market) && t in states[i].market.traders
    {
      if i > 0 {
        assert states[i] == rest[i - 1];
      }
    }
    forall i | 0 <= i < |levels|
      ensures LevelDone(states[i], t, levels[i], mode, c, states[i + 1])
    {
      if i > 0 {
        assert states[i] == rest[i - 1] && states[i + 1] == rest[i] && levels[i] == levels[1..][i - 1];
        assert LevelDone(rest[i - 1], t, levels[1..][i - 1], mode, c, rest[i - 1 + 1]);
      }
    }
  }

  /** And whatever the levels lead to in this way is what the batch does. */
  lemma {:induction false} TraceIsBatch(t: TraderId, levels: seq<Level>, mode: Mode, c: Clock, states: seq<Batch>)
    requires Trace(t, levels, mode, c, states)
    ensures PlaceLevels(states[0].market, t, levels, mode, c, states[0].purse) == Some(states[|levels|])
    decreases levels
  {
    hide Inv, PlaceLevel, LevelDone;
    if levels != [] {
      var rest := states[1..];
      assert LevelDone(states[0], t, levels[0], mode, c, states[0 + 1]);
      PlaceLevelExactly(states[0].market, t, levels[0], mode, c, states[0].purse, states[1]);
      forall i | 0 <= i < |levels[1..]|
        ensures LevelDone(rest[i], t, levels[1..][i], mode, c, rest[i + 1])
      {
        assert rest[i] == states[i + 1] && rest[i + 1] == states[i + 2] && levels[1..][i] == levels[i + 1];
        assert LevelDone(states[i + 1], t, levels[i + 1], mode, c, states[i + 1 + 1]);
      }
      assert forall i | 0 <= i < |rest| :: rest[i] == states[i + 1];
      TraceIsBatch(t, levels[1..], mode, c, rest);
    }
  }

  /** The whole instruction: it needs a seat, starts from what the token accounts and the free balances
      hold together, and ends where the levels lead. */
  lemma WholeBatchHasTrace(m: Market, t: TraderId, levels: seq<Level>, mode: Mode, c: Clock, accountQuote: nat, accountBase: nat)
    returns (states: seq<Batch>)
    requires Inv(m) && WholeBatch(m, t, levels, mode, c, accountQuote, accountBase).Some?
    ensures t in m.traders && Trace(t, levels, mode, c, states)
    ensures states[0] == Batch(m, Purse(accountQuote + m.traders[t].quoteFree, accountBase + m.traders[t].baseFree, 0, 0))
    ensures states[|levels|] == WholeBatch(m, t, levels, mode, c, accountQuote, accountBase).value
  {
    hide Inv, PlaceLevels, Trace;
    states := BatchHasTrace(m, t, levels, mode, c, StartingPurse(m.traders[t], accountQuote, accountBase));
  }

  lemma TraceIsWholeBatch(m: Market, t: TraderId, levels: seq<Level>, mode: Mode, c: Clock, accountQuote: nat, accountBase: nat, states: seq<Batch>)
    requires Inv(m) && t in m.traders && Trace(t, levels, mode, c, states)
    requires states[0] == Batch(m, Purse(accountQuote + m.traders[t].quoteFree, accountBase + m.traders[t].baseFree, 0, 0))
    ensures WholeBatch(m, t, levels, mode, c, accountQuote, accountBase) == Some(states[|levels|])
  {
    hide Inv, PlaceLevels;
    TraceIsBatch(t, levels, mode, c, states);
  }
}
