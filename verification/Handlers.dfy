/** The instruction handlers, which update the market, the vaults and the receipt accounts in place.
    Each says outright when it succeeds and what it changes, and keeps the system solvent; each is
    also one move of the two-layer system, so what is proved of all runs holds of these objects.
    A handler that fails has changed nothing. */
module Handlers {
  import opened Quantities
  import opened Books
  import opened Traders
  import opened Markets
  import opened Packets
  import opened Placement
  import opened Accounts
  import opened Cancels
  import opened Batches
  import opened Runs
  import opened Equity
  import opened Engine
  import opened Receipts

  /** Places one level on a live market, unless it is to be skipped. */
  method PlaceOne(market: FifoMarket, t: TraderId, level: Level, mode: Mode, c: Clock, purse0: Purse) returns (done: Option<Purse>)
    requires market.Valid() && t in market.traders
    modifies market
    ensures done.Some? <==> old(PlaceLevel(market.State(), t, level, mode, c, purse0)).Some?
    ensures done.Some? ==> market.Valid() && t in market.traders
    ensures done.Some? ==> Batch(market.State(), done.value) == old(PlaceLevel(market.State(), t, level, mode, c, purse0)).value
    ensures done.Some? ==> LevelDone(Batch(old(market.State()), purse0), t, level, mode, c, Batch(market.State(), done.value))
  {
    hide SideOk, PlaceOrder, Worth, LevelDone;
    PlacedLevelDone(market.State(), t, level, mode, c, purse0);
    var purse := purse0;
    ghost var m := market.State();
    if mode.skipUnfunded && purse.Available(level.side) < Required(market.params, level) {
      return Some(purse);
    }
    var placed := market.PlaceOrderInner(t, PacketFor(level, mode), c);
    if placed.None? {
      return None;
    }
    PostOnlyMoves(m, t, PacketFor(level, mode), c);
    var r := placed.value.1;
    var quote, base := r.Deposit(Bid), r.Deposit(Ask);
    if mode.skipUnfunded {
      purse := purse.(quoteAvailable := purse.quoteAvailable - (quote + r.freeQuoteUsed),
                      baseAvailable := purse.baseAvailable - (base + r.freeBaseUsed));
    }
    purse := purse.(quoteDeposit := purse.quoteDeposit + quote, baseDeposit := purse.baseDeposit + base);
    return Some(purse);
  }

  /** Places the levels one after the other on a live market. */
  method PlaceBatch(market: FifoMarket, t: TraderId, levels: seq<Level>, mode: Mode, c: Clock, accountQuote: nat, accountBase: nat)
    returns (deposit: Option<(nat, nat)>)
    requires market.Valid()
    modifies market
    ensures deposit.Some? <==> old(WholeBatch(market.State(), t, levels, mode, c, accountQuote, accountBase)).Some?
    ensures deposit.Some? ==>
            var b := old(WholeBatch(market.State(), t, levels, mode, c, accountQuote, accountBase)).value;
            market.Valid() && market.State() == b.market && deposit.value == (b.purse.quoteDeposit, b.purse.baseDeposit)
    ensures deposit.Some? && mode.skipUnfunded ==> deposit.value.0 <= accountQuote && deposit.value.1 <= accountBase
  {
    if t !in market.traders {
      return None;
    }
    hide Inv, PlaceLevel;
    ghost var m0 := market.State();
    var purse := StartingPurse(market.traders[t], accountQuote, accountBase);
    ghost var whole := PlaceLevels(m0, t, levels, mode, c, purse);
    assert levels[0..] == levels;
    for i := 0 to |levels|
      invariant market.Valid() && t in market.traders
      invariant PlaceLevels(market.State(), t, levels[i..], mode, c, purse) == whole
    {
      assert levels[i..][0] == levels[i] && levels[i..][1..] == levels[i + 1..];
      var done := PlaceOne(market, t, levels[i], mode, c, purse);
      if done.None? {
        return None;
      }
      purse := done.value;
    }
    assert levels[|levels|..] == [];
    if mode.skipUnfunded {
      BatchIsCovered(m0, t, levels, mode, c, accountQuote, accountBase);
    }
    return Some((purse.quoteDeposit, purse.baseDeposit));
  }

  /** Carries out any market instruction on a live market. After `None` the transaction must be
      undone. */
  method Dispatch(market: FifoMarket, step: Step) returns (r: Option<Response>)
    requires market.Valid()
    modifies market
    ensures r.Some? <==> old(Apply(market.State(), step)).Some?
    ensures r.Some? ==> market.Valid() && Settled(market.State(), r.value) == old(Apply(market.State(), step)).value
  {
    hide Inv, PlaceOrder, PlaceLevels, ReduceOrder, CancelIds, Claim, Deposit, Without, UpToIds, OwnIds;
    match step {
      case PlaceStep(t, packet, clock) =>
        var placed := market.PlaceOrderInner(t, packet, clock);
        return if placed.Some? then Some(placed.value.1) else None;
      case BatchStep(t, levels, mode, clock, accountQuote, accountBase) =>
        var deposit := PlaceBatch(market, t, levels, mode, clock, accountQuote, accountBase);
        return if deposit.Some? then Some(NOTHING.(quoteIn := deposit.value.0, baseIn := deposit.value.1)) else None;
      case ReduceStep(t, id, side, size, claim) =>
        if t !in market.traders {
          return None;
        }
        r := market.ReduceOrderInner(t, id, side, size, false, claim);
      case CancelAllStep(t, claim) =>
        r := market.CancelAllOrders(t, claim);
        r := if r.None? then Some(NOTHING) else r;
      case CancelUpToStep(t, side, search, count, limit, claim) =>
        r := market.CancelUpToOrders(t, side, search, count, limit, claim);
        r := if r.None? then Some(NOTHING) else r;
      case CancelIdsStep(t, ids, claim) =>
        if t !in market.traders {
          return Some(NOTHING);
        }
        var quoteOut, baseOut := market.CancelMultiple(t, ids, claim);
        return Some(Withdrawal(baseOut, quoteOut));
      case ClaimStep(t, quote, base, evict) =>
        if t !in market.traders {
          return None;
        }
        r := market.ClaimFunds(t, quote, base, evict);
        if r.Some? && evict && t in market.traders {
          return None;
        }
      case DepositStep(t, quote, base) =>
        ghost var m := market.State();
        var ok := market.DepositFunds(t, quote, base);
        if ok {
          DepositCredits(m, t, quote, base);
        }
        return if ok then Some(NOTHING.(quoteIn := quote, baseIn := base)) else None;
      case CollectFeesStep =>
        var fees := market.CollectAllFees();
        return Some(Withdrawal(0, fees));
    }
  }

  /** A handler's outcome is the move's: it succeeds when the move does and leaves its state. */
  ghost predicate IsMove(x: Exchange, move: Move, ok: bool, y: Exchange)
    requires Inv(x.market)
  {
    Perform(x, move) == (if ok then Some(y) else None) && (!ok ==> y == x)
  }

  class Desk {
    const market: FifoMarket
    const quoteLot: nat
    const baseLot: nat
    var open: bool
    var delegated: bool
    var quoteVault: nat
    var baseVault: nat
    var deposits: ReceiptMap
    var withdrawals: ReceiptMap
    /** What an observer has seen; no handler reads it. */
    ghost var ledgers: map<TraderId, Ledger>

    ghost function State(): Exchange
      reads this, market
    {
      Exchange(market.State(), open, delegated, quoteLot, baseLot, quoteVault, baseVault, deposits, withdrawals, ledgers)
    }

    /** Both vaults hold exactly what they must cover, and every trader's account adds up. */
    ghost predicate Valid()
      reads this, market
    {
      Solvent(State())
    }

    constructor (p: Params, quoteLot: nat, baseLot: nat)
      requires p.Valid()
      ensures Valid() && fresh(market) && State() == NewExchange(p, quoteLot, baseLot)
    {
      market := new FifoMarket(p);
      this.quoteLot, this.baseLot := quoteLot, baseLot;
      open, delegated := true, false;
      quoteVault, baseVault := 0, 0;
      deposits, withdrawals, ledgers := map[], map[], map[];
      new;
      NewExchangeSolvent(p, quoteLot, baseLot);
    }

    /** Base layer, step 1 of a deposit: the tokens reach the vaults and a receipt for them is left. */
    method RequestDeposit(t: TraderId, quote: nat, base: nat) returns (ok: bool)
      requires Valid()
      modifies this
      ensures Valid() && IsMove(old(State()), RequestDepositMove(t, quote, base), ok, State())
      ensures ok <==> old(open && delegated) && (quote > 0 || base > 0) && t !in old(deposits)
      ensures ok ==>
                && quoteVault == old(quoteVault) + quote * quoteLot && baseVault == old(baseVault) + base * baseLot
                && deposits == old(deposits)[t := Receipt(base, quote, false)]
      ensures withdrawals == old(withdrawals) && open == old(open) && delegated == old(delegated)
    {
      hide Inv, TallyOk, VaultOk, Seen;
      if !open || (quote == 0 && base == 0) || !delegated || t in deposits {
        return false;
      }
      ghost var x := State();
      InvParams(x.market);
      RequestDepositSolvent(x, t, quote, base);
      quoteVault := quoteVault + quote * quoteLot;
      baseVault := baseVault + base * baseLot;
      deposits := deposits[t := Receipt(base, quote, false)];
      ledgers := Observed(x, State(), RequestDepositMove(t, quote, base)).ledgers;
      return true;
    }

    /** Rollup, step 2 of a deposit: the receipt's trader is credited with its lots, once. */
    method ProcessDepositEr(t: TraderId) returns (ok: bool)
      requires Valid()
      modifies this, market
      ensures Valid() && IsMove(old(State()), ProcessDepositMove(t), ok, State())
      ensures ok <==>
              && old(open) && t in old(deposits) && !old(deposits)[t].processed
              && (t in old(market.traders) || |old(market.traders)| < market.params.seatCapacity)
      ensures ok ==>
                && OnlyFree(old(market.State()), market.State(), t)
                && FreeOf(market.State(), t, Bid) == old(FreeOf(market.State(), t, Bid)) + old(deposits)[t].quote
                && FreeOf(market.State(), t, Ask) == old(FreeOf(market.State(), t, Ask)) + old(deposits)[t].base
                && deposits == old(deposits)[t := old(deposits)[t].(processed := true)]
      ensures quoteVault == old(quoteVault) && baseVault == old(baseVault) && withdrawals == old(withdrawals)
    {
      hide Inv, TallyOk, VaultOk, Seen, Deposit, OnlyFree, FreeOf;
      ghost var x := State();
      InvParams(x.market);
      if !open || t !in deposits || deposits[t].processed {
        return false;
      }
      var receipt := deposits[t];
      DepositSucceeds(x.market, t, receipt.quote, receipt.base);
      var credited := market.DepositFunds(t, receipt.quote, receipt.base);
      if !credited {
        return false;
      }
      ProcessDepositCredits(x, t);
      ProcessDepositSolvent(x, t);
      deposits := deposits[t := receipt.(processed := true)];
      ledgers := Observed(x, State(), ProcessDepositMove(t)).ledgers;
      return true;
    }

    /** Base layer, step 3 of a deposit: only a processed receipt goes away, and nothing else moves. */
    method CloseDepositReceipt(t: TraderId) returns (ok: bool)
      requires Valid()
      modifies this
      ensures Valid() && IsMove(old(State()), CloseDepositMove(t), ok, State())
      ensures ok <==> t in old(deposits) && old(deposits)[t].processed
      ensures ok ==> deposits == old(deposits) - {t}
      ensures quoteVault == old(quoteVault) && baseVault == old(baseVault) && withdrawals == old(withdrawals)
    {
      hide Inv, TallyOk, VaultOk, Seen;
      if t !in deposits || !deposits[t].processed {
        return false;
      }
      ghost var x := State();
      InvParams(x.market);
      CloseDepositSolvent(x, t);
      deposits := deposits - {t};
      ledgers := Observed(x, State(), CloseDepositMove(t)).ledgers;
      return true;
    }

    /** Base layer, step 1 of a withdrawal: a receipt for the request is left, and nothing moves. */
    method RequestWithdrawal(t: TraderId, quote: nat, base: nat) returns (ok: bool)
      requires Valid()
      modifies this
      ensures Valid() && IsMove(old(State()), RequestWithdrawalMove(t, quote, base), ok, State())
      ensures ok <==> old(open) && (quote > 0 || base > 0) && t !in old(withdrawals)
      ensures ok ==> withdrawals == old(withdrawals)[t := Receipt(base, quote, false)]
      ensures quoteVault == old(quoteVault) && baseVault == old(baseVault) && deposits == old(deposits)
    {
      hide Inv, TallyOk, VaultOk, Seen;
      if !open || (quote == 0 && base == 0) || t in withdrawals {
        return false;
      }
      ghost var x := State();
      InvParams(x.market);
      RequestWithdrawalSolvent(x, t, quote, base);
      withdrawals := withdrawals[t := Receipt(base, quote, false)];
      ledgers := Observed(x, State(), RequestWithdrawalMove(t, quote, base)).ledgers;
      return true;
    }

    /** Rollup, step 2 of a withdrawal: the receipt's trader is debited by what the receipt then says,
        which is its request, or all the free funds if those are less. */
    method ProcessWithdrawalEr(t: TraderId) returns (ok: bool)
      requires Valid()
      modifies this, market
      ensures Valid() && IsMove(old(State()), ProcessWithdrawalMove(t), ok, State())
      ensures ok <==>
              && old(open) && t in old(withdrawals) && !old(withdrawals)[t].processed
              && exists side :: old(withdrawals)[t].Lots(side) > 0 && old(FreeOf(market.State(), t, side)) > 0
      ensures ok ==>
                && OnlyFree(old(market.State()), market.State(), t)
                && t in withdrawals && withdrawals[t].processed && withdrawals == old(withdrawals)[t := withdrawals[t]]
                && forall side ::
                     && withdrawals[t].Lots(side) == Min(old(withdrawals)[t].Lots(side), old(FreeOf(market.State(), t, side)))
                     && FreeOf(market.State(), t, side) + withdrawals[t].Lots(side) == old(FreeOf(market.State(), t, side))
      ensures quoteVault == old(quoteVault) && baseVault == old(baseVault) && deposits == old(deposits)
    {
      hide Inv, TallyOk, VaultOk, Seen, FreeOf, OnlyFree;
      ghost var x := State();
      InvParams(x.market);
      ProcessWithdrawalWhen(x, t);
      if !open || t !in withdrawals || withdrawals[t].processed || t !in market.traders {
        return false;
      }
      var receipt, s := withdrawals[t], market.traders[t];
      var base, quote := Min(receipt.base, s.baseFree), Min(receipt.quote, s.quoteFree);
      if base == 0 && quote == 0 {
        return false;
      }
      ProcessWithdrawalDebits(x, t);
      ProcessWithdrawalSolvent(x, t);
      market.DebitFunds(t, quote, base);
      withdrawals := withdrawals[t := Receipt(base, quote, true)];
      ledgers := Observed(x, State(), ProcessWithdrawalMove(t)).ledgers;
      return true;
    }

    /** Base layer, step 3 of a withdrawal: every processed receipt of an open market is paid in full,
        because the vaults always hold enough. */
    method ExecuteWithdrawalBaseChain(t: TraderId) returns (ok: bool)
      requires Valid()
      modifies this
      ensures Valid() && IsMove(old(State()), ExecuteWithdrawalMove(t), ok, State())
      ensures ok <==> old(open) && t in old(withdrawals) && old(withdrawals)[t].processed
      ensures ok ==>
                && quoteVault + old(withdrawals)[t].quote * quoteLot == old(quoteVault)
                && baseVault + old(withdrawals)[t].base * baseLot == old(baseVault)
                && withdrawals == old(withdrawals) - {t}
      ensures deposits == old(deposits) && open == old(open) && delegated == old(delegated)
    {
      hide Inv, TallyOk, VaultOk, Seen;
      if !open || t !in withdrawals || !withdrawals[t].processed {
        return false;
      }
      ghost var x := State();
      InvParams(x.market);
      ExecuteWithdrawalSolvent(x, t);
      var receipt := withdrawals[t];
      var baseAtoms, quoteAtoms := receipt.base * baseLot, receipt.quote * quoteLot;
      if baseVault < baseAtoms || quoteVault < quoteAtoms {
        assert false;
        return false;
      }
      baseVault := baseVault - baseAtoms;
      quoteVault := quoteVault - quoteAtoms;
      withdrawals := withdrawals - {t};
      ledgers := Observed(x, State(), ExecuteWithdrawalMove(t)).ledgers;
      return true;
    }

    /** Any market instruction: the tokens it pays in and out move between the trader and the vaults,
        which always hold enough. An instruction that moves tokens fails on the rollup. */
    method Trade(step: Step) returns (ok: bool)
      requires Valid()
      modifies this, market
      ensures Valid() && IsMove(old(State()), TradeMove(step), ok, State())
      ensures var r := old(Apply(market.State(), step));
              ok <==> old(open) && r.Some? && (old(delegated) ==> r.value.response.NoDeposit() && r.value.response.NoWithdrawal())
      ensures ok ==>
                var r := old(Apply(market.State(), step)).value;
                && market.State() == r.market
                && quoteVault + r.response.quoteOut * quoteLot == old(quoteVault) + r.response.Deposit(Bid) * quoteLot
                && baseVault + r.response.baseOut * baseLot == old(baseVault) + r.response.Deposit(Ask) * baseLot
      ensures deposits == old(deposits) && withdrawals == old(withdrawals) && open == old(open) && delegated == old(delegated)
    {
      hide Inv, TallyOk, VaultOk, Seen, Apply, Receipts.Trade, Perform, Observed, Solvent;
      ghost var x := State();
      TradeIsMove(x, step);
      if !open {
        return false;
      }
      var saved := market.State();
      var done := Dispatch(market, step);
      if done.None? {
        market.Restore(saved);
        return false;
      }
      var r := done.value;
      if delegated && !(r.NoDeposit() && r.NoWithdrawal()) {
        market.Restore(saved);
        return false;
      }
      quoteVault := quoteVault + r.Deposit(Bid) * quoteLot;
      baseVault := baseVault + r.Deposit(Ask) * baseLot;
      quoteVault := quoteVault - r.quoteOut * quoteLot;
      baseVault := baseVault - r.baseOut * baseLot;
      ledgers := Observed(x, State(), TradeMove(step)).ledgers;
      return true;
    }

    /** Hands the market to the rollup or takes it back. */
    method Delegate(toRollup: bool) returns (ok: bool)
      requires Valid()
      modifies this
      ensures Valid() && IsMove(old(State()), DelegateMove(toRollup), ok, State())
      ensures ok <==> old(open)
      ensures ok ==> State() == old(State()).(delegated := toRollup)
    {
      hide Inv, TallyOk, VaultOk, Seen;
      if !open {
        return false;
      }
      InvParams(market.State());
      FlagsSolvent(State(), open, toRollup);
      delegated := toRollup;
      return true;
    }

    /** Tombstoning, allowed only for a market without orders, uncollected fees and traders: what is
        left in the vaults then is on receipts in flight. */
    method TombstoneMarket() returns (ok: bool)
      requires Valid()
      modifies this
      ensures Valid() && IsMove(old(State()), TombstoneMove, ok, State())
      ensures ok <==> old(open && !delegated && Vacant(market.State()))
      ensures ok ==> State() == old(State()).(open := false)
      ensures ok ==>
                && quoteVault == quoteLot * (Outstanding(deposits, Bid, false) + Outstanding(withdrawals, Bid, true))
                && baseVault == baseLot * (Outstanding(deposits, Ask, false) + Outstanding(withdrawals, Ask, true))
    {
      hide Inv, TallyOk, Seen, Outstanding;
      if !open || delegated || market.bids != [] || market.asks != [] || market.unclaimed != 0 || market.traders != map[] {
        return false;
      }
      InvParams(market.State());
      FlagsSolvent(State(), false, delegated);
      VacantFunds(market.State());
      open := false;
      return true;
    }

    /** Any instruction of the system. */
    method Handle(move: Move) returns (ok: bool)
      requires Valid()
      modifies this, market
      ensures Valid() && IsMove(old(State()), move, ok, State())
    {
      hide Solvent, IsMove;
      match move {
        case RequestDepositMove(t, quote, base) => ok := RequestDeposit(t, quote, base);
        case ProcessDepositMove(t) => ok := ProcessDepositEr(t);
        case CloseDepositMove(t) => ok := CloseDepositReceipt(t);
        case RequestWithdrawalMove(t, quote, base) => ok := RequestWithdrawal(t, quote, base);
        case ProcessWithdrawalMove(t) => ok := ProcessWithdrawalEr(t);
        case ExecuteWithdrawalMove(t) => ok := ExecuteWithdrawalBaseChain(t);
        case TradeMove(step) => ok := Trade(step);
        case DelegateMove(toRollup) => ok := Delegate(toRollup);
        case TombstoneMove => ok := TombstoneMarket();
      }
    }
  }

  lemma TradeIsMove(x: Exchange, step: Step)
    requires Solvent(x)
    ensures Inv(x.market)
    ensures var a := Apply(x.market, step);
            Perform(x, TradeMove(step)).Some? <==>
            x.open && a.Some? && (x.delegated ==> a.value.response.NoDeposit() && a.value.response.NoWithdrawal())
    ensures Perform(x, TradeMove(step)).Some? ==>
              var a := Apply(x.market, step).value;
              var quote, base := a.response.Deposit(Bid), a.response.Deposit(Ask);
              && quote >= 0 && base >= 0
              && a.response.quoteOut * x.quoteLot <= x.quoteVault + quote * x.quoteLot
              && a.response.baseOut * x.baseLot <= x.baseVault + base * x.baseLot
              && x.market.params.Valid() && a.market.params == x.market.params
              && var y := x.(
                   market := a.market,
                   quoteVault := x.quoteVault + quote * x.quoteLot - a.response.quoteOut * x.quoteLot,
                   baseVault := x.baseVault + base * x.baseLot - a.response.baseOut * x.baseLot);
              && Perform(x, TradeMove(step)).value == Observed(x, y, TradeMove(step)) == y.(ledgers := Observed(x, y, TradeMove(step)).ledgers)
              && Solvent(Observed(x, y, TradeMove(step)))
  {
    hide Inv, TallyOk, VaultOk, Apply, Receipts.Trade, Seen;
    InvParams(x.market);
    TradeOutcome(x, step);
    if Receipts.Trade(x, step).Some? {
      TradeSolvent(x, step);
    }
  }

  lemma VacantFunds(m: Market)
    requires Vacant(m)
    ensures Funds(m, Bid) == 0 && Funds(m, Ask) == 0
  {
  }

  lemma DepositSucceeds(m: Market, t: TraderId, quote: nat, base: nat)
    ensures Deposit(m, t, quote, base).Some? <==> t in m.traders || |m.traders| < m.params.seatCapacity
  {
  }
}
