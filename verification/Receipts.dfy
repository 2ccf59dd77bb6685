/** The vaults and the two-layer receipt protocol. Deposits and withdrawals of a delegated market
    take three steps across the base layer and the rollup, interleaved with trading; the vaults
    hold token atoms and are written on the base layer only. */
module Receipts {
  import opened Quantities
  import opened Books
  import opened Traders
  import opened Markets
  import opened Placement
  import opened Accounts
  import opened Runs
  import opened Equity

  /** A work order that travels between the layers: one per trader and direction at a time. */
  datatype Receipt = Receipt(base: nat, quote: nat, processed: bool) {
    function Lots(side: Side): nat {
      match side case Bid => quote case Ask => base
    }
  }

  type ReceiptMap = map<TraderId, Receipt>

  /** The lots of one token on receipts whose processed flag is `flag`. */
  ghost function Outstanding(rs: ReceiptMap, side: Side, flag: bool): nat {
    if rs == map[] then 0 else
      var t :| t in rs;
      Weight(rs[t], side, flag) + Outstanding(rs - {t}, side, flag)
  }

  function Weight(r: Receipt, side: Side, flag: bool): nat {
    if r.processed == flag then r.Lots(side) else 0
  }

  lemma {:induction false} OutstandingWithout(rs: ReceiptMap, side: Side, flag: bool, t: TraderId)
    requires t in rs
    ensures Outstanding(rs, side, flag) == Weight(rs[t], side, flag) + Outstanding(rs - {t}, side, flag)
    decreases rs
  {
    var u :| u in rs && Outstanding(rs, side, flag) == Weight(rs[u], side, flag) + Outstanding(rs - {u}, side, flag);
    if u != t {
      OutstandingWithout(rs - {u}, side, flag, t);
      OutstandingWithout(rs - {t}, side, flag, u);
      assert rs - {u} - {t} == rs - {t} - {u};
    }
  }

  lemma OutstandingUpdate(rs: ReceiptMap, side: Side, flag: bool, t: TraderId, r: Receipt)
    ensures Outstanding(rs[t := r], side, flag) + (if t in rs then Weight(rs[t], side, flag) else 0)
            == Outstanding(rs, side, flag) + Weight(r, side, flag)
  {
    OutstandingWithout(rs[t := r], side, flag, t);
    assert rs[t := r] - {t} == rs - {t};
    if t in rs {
      OutstandingWithout(rs, side, flag, t);
    } else {
      assert rs - {t} == rs;
    }
  }

  // ---------- the state ----------

  /** What one trader's moves were seen to do in one token. Nothing in the system reads it; it is
      filled in from the states before and after each move. Atoms that reached the vault with deposit
      requests (`sent`), left it with withdrawals (`paid`), and moved with the trader's own market
      instructions (`moved`, paid in less paid out); lots by which the trader's balance rose and fell
      when its receipts were processed (`credited`, `debited`) and that it got as a taker (`taken`); and
      the lots named in its latest withdrawal request (`asked`). */
  datatype Tally = Tally(sent: int, credited: int, asked: nat, debited: int, paid: int, moved: int, taken: int)

  const NO_TALLY: Tally := Tally(0, 0, 0, 0, 0, 0, 0)

  datatype Ledger = Ledger(quote: Tally, base: Tally) {
    function Of(side: Side): Tally {
      match side case Bid => quote case Ask => base
    }
  }

  datatype Exchange = Exchange(
    market: Market, open: bool, delegated: bool,
    quoteLot: nat, baseLot: nat, quoteVault: nat, baseVault: nat,
    deposits: ReceiptMap, withdrawals: ReceiptMap, ledgers: map<TraderId, Ledger>)
  {
    function Vault(side: Side): nat {
      match side case Bid => quoteVault case Ask => baseVault
    }

    function Lot(side: Side): nat {
      match side case Bid => quoteLot case Ask => baseLot
    }

    function LedgerOf(t: TraderId): Ledger {
      if t in ledgers then ledgers[t] else Ledger(NO_TALLY, NO_TALLY)
    }

    function PayIn(quote: nat, base: nat): Exchange {
      this.(quoteVault := quoteVault + quote * quoteLot, baseVault := baseVault + base * baseLot)
    }

    /** Token transfers out of the vaults fail when a vault holds too little. */
    function PayOut(quote: nat, base: nat): Option<Exchange> {
      if quote * quoteLot <= quoteVault && base * baseLot <= baseVault then
        Some(this.(quoteVault := quoteVault - quote * quoteLot, baseVault := baseVault - base * baseLot))
      else
        None
    }
  }

  // ---------- deposits ----------

  /** Base layer: moves tokens to the vaults and leaves an unprocessed receipt. */
  function RequestDeposit(x: Exchange, t: TraderId, quote: nat, base: nat): Option<Exchange> {
    if !x.open || !x.delegated || (quote == 0 && base == 0) || t in x.deposits then None
    else Some(x.PayIn(quote, base).(deposits := x.deposits[t := Receipt(base, quote, false)]))
  }

  /** Rollup: credits the trader, once, with what the receipt says. */
  function ProcessDeposit(x: Exchange, t: TraderId): Option<Exchange> {
    if !x.open || t !in x.deposits || x.deposits[t].processed then None else
      var r := x.deposits[t];
      match Deposit(x.market, t, r.quote, r.base)
      case None => None
      case Some(d) => Some(x.(market := d.market, deposits := x.deposits[t := r.(processed := true)]))
  }

  /** Base layer: closes a processed deposit receipt. */
  function CloseDeposit(x: Exchange, t: TraderId): Option<Exchange> {
    if t !in x.deposits || !x.deposits[t].processed then None else Some(x.(deposits := x.deposits - {t}))
  }

  // ---------- withdrawals ----------

  /** Base layer: leaves an unprocessed receipt for what the trader wants; nothing moves yet. */
  function RequestWithdrawal(x: Exchange, t: TraderId, quote: nat, base: nat): Option<Exchange> {
    if !x.open || (quote == 0 && base == 0) || t in x.withdrawals then None
    else Some(x.(withdrawals := x.withdrawals[t := Receipt(base, quote, false)]))
  }

  /** Rollup: debits free funds, clamped to what is there, and rewrites the receipt to the debit. */
  function ProcessWithdrawal(x: Exchange, t: TraderId): Option<Exchange> {
    if !x.open || t !in x.withdrawals || x.withdrawals[t].processed || t !in x.market.traders then None else
      var r, s := x.withdrawals[t], x.market.traders[t];
      var quote, base := Min(r.quote, s.quoteFree), Min(r.base, s.baseFree);
      if quote == 0 && base == 0 then None else
        Some(x.(market := x.market.WithTrader(t, s.UseFree(Ask, base).UseFree(Bid, quote)),
                withdrawals := x.withdrawals[t := Receipt(base, quote, true)]))
  }

  /** Base layer: pays a processed receipt from the vaults and closes it. */
  function ExecuteWithdrawal(x: Exchange, t: TraderId): Option<Exchange> {
    if !x.open || t !in x.withdrawals || !x.withdrawals[t].processed then None else
      match x.PayOut(x.withdrawals[t].quote, x.withdrawals[t].base)
      case None => None
      case Some(x') => Some(x'.(withdrawals := x.withdrawals - {t}))
  }

  // ---------- trading and tombstoning ----------

  /** Any market instruction. One that moves tokens writes the vaults, so it needs the market on the
      base layer. */
  function Trade(x: Exchange, step: Step): Option<Exchange>
    requires Inv(x.market)
  {
    if !x.open then None else match Apply(x.market, step)
      case None => None
      case Some(r) =>
        ApplyKeeps(x.market, step, step.ClockOr(Clock(0, 0)));
        var quote, base := r.response.Deposit(Bid), r.response.Deposit(Ask);
        if x.delegated && !(quote == 0 && base == 0 && r.response.NoWithdrawal()) then None
        else x.(market := r.market).PayIn(quote, base).PayOut(r.response.quoteOut, r.response.baseOut)
  }

  predicate Vacant(m: Market) {
    m.bids == [] && m.asks == [] && m.unclaimed == 0 && m.traders == map[]
  }

  /** Removes a market that is on the base layer and holds no orders, fees or traders. */
  function Tombstone(x: Exchange): Option<Exchange> {
    if x.open && !x.delegated && Vacant(x.market) then Some(x.(open := false)) else None
  }

  datatype Move =
    | RequestDepositMove(t: TraderId, quote: nat, base: nat)
    | ProcessDepositMove(t: TraderId)
    | CloseDepositMove(t: TraderId)
    | RequestWithdrawalMove(t: TraderId, quote: nat, base: nat)
    | ProcessWithdrawalMove(t: TraderId)
    | ExecuteWithdrawalMove(t: TraderId)
    | TradeMove(step: Step)
    | DelegateMove(delegated: bool)
    | TombstoneMove

  function Effect(x: Exchange, move: Move): Option<Exchange>
    requires Inv(x.market)
  {
    match move
    case RequestDepositMove(t, quote, base) => RequestDeposit(x, t, quote, base)
    case ProcessDepositMove(t) => ProcessDeposit(x, t)
    case CloseDepositMove(t) => CloseDeposit(x, t)
    case RequestWithdrawalMove(t, quote, base) => RequestWithdrawal(x, t, quote, base)
    case ProcessWithdrawalMove(t) => ProcessWithdrawal(x, t)
    case ExecuteWithdrawalMove(t) => ExecuteWithdrawal(x, t)
    case TradeMove(step) => Trade(x, step)
    case DelegateMove(delegated) => if x.open then Some(x.(delegated := delegated)) else None
    case TombstoneMove => Tombstone(x)
  }

  // ---------- what an observer sees ----------

  function Mover(move: Move): Option<TraderId> {
    match move
    case TradeMove(step) => if step.CollectFeesStep? then None else Some(step.trader)
    case DelegateMove(_) => None
    case TombstoneMove => None
    case _ => Some(move.t)
  }

  /** The change a move made to the balance of `t` in one token, read off the two states. */
  function Gain(x: Exchange, x': Exchange, t: TraderId, side: Side): int {
    HeldBy(x'.market, t, side) - HeldBy(x.market, t, side)
  }

  /** One trader's tally after its move took the system from `x` to `x'`. */
  function Seen(a: Tally, x: Exchange, x': Exchange, move: Move, t: TraderId, side: Side): Tally
    requires x.market.params.Valid() && x'.market.params == x.market.params
  {
    var inflow := x'.Vault(side) - x.Vault(side);
    match move
    case RequestDepositMove(_, _, _) => a.(sent := a.sent + inflow)
    case ProcessDepositMove(_) => a.(credited := a.credited + Gain(x, x', t, side))
    case RequestWithdrawalMove(_, quote, base) => a.(asked := if side.Bid? then quote else base)
    case ProcessWithdrawalMove(_) => a.(debited := a.debited - Gain(x, x', t, side))
    case ExecuteWithdrawalMove(_) => a.(paid := a.paid - inflow)
    case TradeMove(_) => a.(moved := a.moved + inflow, taken := a.taken + TakerGain(x.market, x'.market, side))
    case _ => a
  }

  function Observed(x: Exchange, x': Exchange, move: Move): Exchange
    requires x.market.params.Valid() && x'.market.params == x.market.params
  {
    match Mover(move)
    case None => x'.(ledgers := x.ledgers)
    case Some(t) =>
      var l := x.LedgerOf(t);
      x'.(ledgers := x.ledgers[t := Ledger(Seen(l.quote, x, x', move, t, Bid), Seen(l.base, x, x', move, t, Ask))])
  }

  lemma EffectInv(x: Exchange, move: Move)
    requires Inv(x.market) && Effect(x, move).Some?
    ensures var x' := Effect(x, move).value;
            Inv(x'.market) && x'.market.params == x.market.params && x'.quoteLot == x.quoteLot && x'.baseLot == x.baseLot
  {
    hide SideOk, Uncrossed, LogInv, Deposit, Apply;
    match move {
      case ProcessDepositMove(t) => DepositKeeps(x.market, t, x.deposits[t].quote, x.deposits[t].base, Clock(0, 0));
      case ProcessWithdrawalMove(t) => FreeChangeInv(x.market, t, Effect(x, move).value.market.traders[t]);
      case TradeMove(step) => ApplyKeeps(x.market, step, step.ClockOr(Clock(0, 0)));
      case _ =>
    }
  }

  function Perform(x: Exchange, move: Move): Option<Exchange>
    requires Inv(x.market)
  {
    match Effect(x, move)
    case None => None
    case Some(x') => EffectInv(x, move); Some(Observed(x, x', move))
  }

  // ---------- the conservation invariant ----------

  /** Lots of one token the vault must cover: everything in the market, deposits not yet credited and
      withdrawals already debited. */
  ghost function Covered(x: Exchange, side: Side): nat {
    Funds(x.market, side) + Outstanding(x.deposits, side, false) + Outstanding(x.withdrawals, side, true)
  }

  ghost predicate VaultOk(x: Exchange, side: Side) {
    x.Vault(side) == x.Lot(side) * Covered(x, side)
  }

  function Pending(rs: ReceiptMap, t: TraderId, side: Side, flag: bool): nat {
    if t in rs then Weight(rs[t], side, flag) else 0
  }

  /** What was seen of one trader adds up. */
  predicate TallyOk(x: Exchange, t: TraderId, side: Side)
    requires x.market.params.Valid()
  {
    var a, lot := x.LedgerOf(t).Of(side), x.Lot(side);
    // every atom sent is on the open deposit receipt or was credited to this trader, once
    && a.sent == lot * (a.credited + Pending(x.deposits, t, side, false))
    // every lot debited from this trader was paid out or is on the processed withdrawal receipt
    && lot * a.debited == a.paid + lot * Pending(x.withdrawals, t, side, true)
    // a withdrawal receipt never exceeds its own request
    && (t in x.withdrawals ==>
          && x.withdrawals[t].Lots(side) <= a.asked
          && (!x.withdrawals[t].processed ==> x.withdrawals[t].Lots(side) == a.asked))
    // the trader's balance is exactly its receipts, its payments, its fills as a maker and as a taker
    && lot * HeldBy(x.market, t, side)
       == lot * (a.credited - a.debited + a.taken + MakerGain(x.market.params, x.market.log, t, side)) + a.moved
  }

  ghost predicate Solvent(x: Exchange) {
    && Inv(x.market)
    && (!x.open ==> Vacant(x.market))
    && VaultOk(x, Bid) && VaultOk(x, Ask)
    && forall t, side :: TallyOk(x, t, side)
  }

  lemma VaultMoves(lot: nat, vault: nat, covered: nat, paidIn: nat, paidOut: nat, covered': nat)
    requires vault == lot * covered && covered' + paidOut == covered + paidIn
    ensures paidOut * lot <= vault + paidIn * lot
    ensures vault + paidIn * lot - paidOut * lot == lot * covered'
  {
    assert lot * (covered' + paidOut) == lot * covered' + paidOut * lot;
    assert lot * (covered + paidIn) == lot * covered + paidIn * lot;
  }

  lemma Scale(lot: int, a: int, b: int)
    ensures lot * (a + b) == lot * a + lot * b
  {
  }

  /** Receipts, totals, balances and fills of a trader did not change, so they still add up. */
  lemma Untouched(x: Exchange, x': Exchange, u: TraderId, side: Side)
    requires x.market.params.Valid() && x'.market.params == x.market.params && x'.Lot(side) == x.Lot(side)
    requires TallyOk(x, u, side) && x'.LedgerOf(u) == x.LedgerOf(u)
    requires Own(x'.market, u, side) == Own(x.market, u, side)
    requires (u in x'.deposits <==> u in x.deposits) && (u in x.deposits ==> x'.deposits[u] == x.deposits[u])
    requires (u in x'.withdrawals <==> u in x.withdrawals) && (u in x.withdrawals ==> x'.withdrawals[u] == x.withdrawals[u])
    ensures TallyOk(x', u, side)
  {
    hide HeldBy, MakerGain;
    var a, lot := x.LedgerOf(u).Of(side), x.Lot(side);
    Scale(lot, a.credited - a.debited + a.taken, MakerGain(x.market.params, x.market.log, u, side));
    Scale(lot, a.credited - a.debited + a.taken, MakerGain(x.market.params, x'.market.log, u, side));
    Scale(lot, Own(x.market, u, side), MakerGain(x.market.params, x.market.log, u, side));
    Scale(lot, Own(x.market, u, side), MakerGain(x.market.params, x'.market.log, u, side));
  }

  // ---------- deposits keep it ----------

  lemma RequestDepositSolvent(x: Exchange, t: TraderId, quote: nat, base: nat)
    requires Solvent(x) && RequestDeposit(x, t, quote, base).Some?
    ensures var x' := RequestDeposit(x, t, quote, base).value;
            Solvent(Observed(x, x', RequestDepositMove(t, quote, base)))
  {
    hide Inv, Funds, Own, HeldBy, MakerGain, TallyOk, Outstanding;
    var r, move := Receipt(base, quote, false), RequestDepositMove(t, quote, base);
    InvParams(x.market);
    var y := Observed(x, RequestDeposit(x, t, quote, base).value, move);
    OutstandingUpdate(x.deposits, Bid, false, t, r);
    OutstandingUpdate(x.deposits, Ask, false, t, r);
    VaultMoves(x.quoteLot, x.quoteVault, Covered(x, Bid), quote, 0, Covered(y, Bid));
    VaultMoves(x.baseLot, x.baseVault, Covered(x, Ask), base, 0, Covered(y, Ask));
    forall u, side
      ensures TallyOk(y, u, side)
    {
      assert TallyOk(x, u, side);
      if u == t {
        SendTally(x, y, t, side, r.Lots(side));
      } else {
        Untouched(x, y, u, side);
      }
    }
  }

  lemma SendTally(x: Exchange, y: Exchange, t: TraderId, side: Side, lots: nat)
    requires x.market.params.Valid() && y.market == x.market && y.Lot(side) == x.Lot(side) && y.withdrawals == x.withdrawals
    requires TallyOk(x, t, side)
    requires Pending(x.deposits, t, side, false) == 0 && Pending(y.deposits, t, side, false) == lots
    requires var a := x.LedgerOf(t).Of(side); y.LedgerOf(t).Of(side) == a.(sent := a.sent + lots * x.Lot(side))
    ensures TallyOk(y, t, side)
  {
    hide HeldBy, MakerGain;
    Scale(x.Lot(side), x.LedgerOf(t).Of(side).credited, lots);
  }

  /** Processing a deposit credits the receipt's own trader with exactly the receipt's lots, as free
      funds, and leaves every other trader, the books and the log alone. */
  lemma ProcessDepositCredits(x: Exchange, t: TraderId)
    requires Inv(x.market) && ProcessDeposit(x, t).Some?
    ensures var x', r := ProcessDeposit(x, t).value, x.deposits[t];
            && OnlyFree(x.market, x'.market, t)
            && (forall side :: FreeOf(x'.market, t, side) == FreeOf(x.market, t, side) + r.Lots(side))
            && x' == x.(market := x'.market, deposits := x.deposits[t := r.(processed := true)])
  {
    hide Inv, Deposit, OnlyFree;
    DepositCredits(x.market, t, x.deposits[t].quote, x.deposits[t].base);
  }

  lemma ProcessDepositSolvent(x: Exchange, t: TraderId)
    requires Solvent(x) && ProcessDeposit(x, t).Some?
    ensures var x' := ProcessDeposit(x, t).value;
            x'.market.params == x.market.params && Solvent(Observed(x, x', ProcessDepositMove(t)))
  {
    hide Inv, Deposit, Uncrossed, LogInv, Own, MakerGain, Funds, Outstanding, TallyOk, Seen, OnlyFree, FreeOf;
    InvParams(x.market);
    var x', r := ProcessDeposit(x, t).value, x.deposits[t];
    DepositKeeps(x.market, t, r.quote, r.base, Clock(0, 0));
    DepositCredits(x.market, t, r.quote, r.base);
    var y := Observed(x, x', ProcessDepositMove(t));
    OutstandingUpdate(x.deposits, Bid, false, t, r.(processed := true));
    OutstandingUpdate(x.deposits, Ask, false, t, r.(processed := true));
    forall u, side
      ensures TallyOk(y, u, side)
    {
      ProcessDepositTallied(x, t, u, side);
    }
  }

  lemma ProcessDepositTallied(x: Exchange, t: TraderId, u: TraderId, side: Side)
    requires Solvent(x) && ProcessDeposit(x, t).Some? && x.market.params.Valid()
    requires ProcessDeposit(x, t).value.market.params == x.market.params
    ensures TallyOk(Observed(x, ProcessDeposit(x, t).value, ProcessDepositMove(t)), u, side)
  {
    hide Inv, ProcessDeposit, Own, MakerGain, HeldBy, ActsFor, VaultOk, TallyOk, OnlyFree;
    ProcessDepositActs(x, t);
    ProcessDepositCredits(x, t);
    var x', lots := ProcessDeposit(x, t).value, x.deposits[t].Lots(side);
    var y := Observed(x, x', ProcessDepositMove(t));
    assert TallyOk(x, u, side);
    if u == t {
      FreeIsHeld(x.market, x'.market, t, side);
      OnlyFreeLog(x.market, x'.market, t);
      CreditTally(x, y, t, side, lots);
    } else {
      ActsForOthers(x.market, x'.market, t, u, side);
      Untouched(x, y, u, side);
    }
  }

  lemma ProcessDepositActs(x: Exchange, t: TraderId)
    requires Inv(x.market) && ProcessDeposit(x, t).Some?
    ensures t in x.deposits && !x.deposits[t].processed && ActsFor(x.market, ProcessDeposit(x, t).value.market, t)
  {
    hide Inv, Deposit, ActsFor;
    InvParams(x.market);
    DepositActs(x.market, t, x.deposits[t].quote, x.deposits[t].base);
  }

  lemma ActsForOthers(m: Market, m': Market, t: TraderId, u: TraderId, side: Side)
    requires ActsFor(m, m', t) && u != t
    ensures Own(m', u, side) == Own(m, u, side)
  {
    hide Own, OwnOfAll;
  }

  lemma CreditTally(x: Exchange, y: Exchange, t: TraderId, side: Side, lots: nat)
    requires x.market.params.Valid() && y.market.params == x.market.params && y.market.log == x.market.log
    requires TallyOk(x, t, side) && y.Lot(side) == x.Lot(side) && y.withdrawals == x.withdrawals
    requires HeldBy(y.market, t, side) == HeldBy(x.market, t, side) + lots
    requires Pending(x.deposits, t, side, false) == lots && Pending(y.deposits, t, side, false) == 0
    requires var a := x.LedgerOf(t).Of(side); y.LedgerOf(t).Of(side) == a.(credited := a.credited + lots)
    ensures TallyOk(y, t, side)
  {
    hide HeldBy, MakerGain;
    var a, lot := x.LedgerOf(t).Of(side), x.Lot(side);
    var rest := a.credited - a.debited + a.taken + MakerGain(x.market.params, x.market.log, t, side);
    Scale(lot, HeldBy(x.market, t, side), lots);
    Scale(lot, rest, lots);
  }

  lemma CloseDepositSolvent(x: Exchange, t: TraderId)
    requires Solvent(x) && CloseDeposit(x, t).Some?
    ensures Solvent(Observed(x, CloseDeposit(x, t).value, CloseDepositMove(t)))
  {
    hide Inv, Funds, Own, HeldBy, MakerGain;
    InvParams(x.market);
    OutstandingWithout(x.deposits, Bid, false, t);
    OutstandingWithout(x.deposits, Ask, false, t);
    var y := Observed(x, CloseDeposit(x, t).value, CloseDepositMove(t));
    forall u, side
      ensures TallyOk(y, u, side)
    {
      assert TallyOk(x, u, side);
      if u != t {
        Untouched(x, y, u, side);
      }
    }
  }

  // ---------- withdrawals keep it ----------

  lemma RequestWithdrawalSolvent(x: Exchange, t: TraderId, quote: nat, base: nat)
    requires Solvent(x) && RequestWithdrawal(x, t, quote, base).Some?
    ensures var x' := RequestWithdrawal(x, t, quote, base).value;
            Solvent(Observed(x, x', RequestWithdrawalMove(t, quote, base)))
  {
    hide Inv, Funds, Own, HeldBy, MakerGain;
    InvParams(x.market);
    var r, move := Receipt(base, quote, false), RequestWithdrawalMove(t, quote, base);
    var y := Observed(x, RequestWithdrawal(x, t, quote, base).value, move);
    OutstandingUpdate(x.withdrawals, Bid, true, t, r);
    OutstandingUpdate(x.withdrawals, Ask, true, t, r);
    forall u, side
      ensures TallyOk(y, u, side)
    {
      assert TallyOk(x, u, side);
      if u != t {
        Untouched(x, y, u, side);
      }
    }
  }

  /** Processing a withdrawal debits the receipt's own trader by exactly what the receipt then says,
      which is its request or all the free funds there are, and leaves every other trader, the books
      and the log alone. */
  lemma ProcessWithdrawalDebits(x: Exchange, t: TraderId)
    requires Inv(x.market) && ProcessWithdrawal(x, t).Some?
    ensures t in x.withdrawals
    ensures var x', r := ProcessWithdrawal(x, t).value, x.withdrawals[t];
            && OnlyFree(x.market, x'.market, t)
            && t in x'.withdrawals && x'.withdrawals[t].processed && !r.processed
            && (forall side ::
                  && FreeOf(x'.market, t, side) + x'.withdrawals[t].Lots(side) == FreeOf(x.market, t, side)
                  && x'.withdrawals[t].Lots(side) == Min(r.Lots(side), FreeOf(x.market, t, side)))
            && x' == x.(market := x'.market, withdrawals := x.withdrawals[t := x'.withdrawals[t]])
  {
    hide Inv;
  }

  /** A withdrawal can be processed exactly when some of what it asks for is there. */
  lemma ProcessWithdrawalWhen(x: Exchange, t: TraderId)
    ensures ProcessWithdrawal(x, t).Some? <==>
            && x.open && t in x.withdrawals && !x.withdrawals[t].processed
            && exists side :: x.withdrawals[t].Lots(side) > 0 && FreeOf(x.market, t, side) > 0
  {
    if x.open && t in x.withdrawals && !x.withdrawals[t].processed && t in x.market.traders {
      var r, s := x.withdrawals[t], x.market.traders[t];
      assert Min(r.quote, s.quoteFree) > 0 <==> r.Lots(Bid) > 0 && FreeOf(x.market, t, Bid) > 0;
      assert Min(r.base, s.baseFree) > 0 <==> r.Lots(Ask) > 0 && FreeOf(x.market, t, Ask) > 0;
    }
  }

  lemma ProcessWithdrawalSolvent(x: Exchange, t: TraderId)
    requires Solvent(x) && ProcessWithdrawal(x, t).Some?
    ensures var x' := ProcessWithdrawal(x, t).value;
            x'.market.params == x.market.params && Solvent(Observed(x, x', ProcessWithdrawalMove(t)))
  {
    hide Inv, Funds, Uncrossed, LogInv, Own, MakerGain, Outstanding, TallyOk, Seen;
    InvParams(x.market);
    var x', r := ProcessWithdrawal(x, t).value, ProcessWithdrawal(x, t).value.withdrawals[t];
    FreeChangeKeeps(x.market, t, x'.market.traders[t], Clock(0, 0));
    OutstandingUpdate(x.withdrawals, Bid, true, t, r);
    OutstandingUpdate(x.withdrawals, Ask, true, t, r);
    var y := Observed(x, x', ProcessWithdrawalMove(t));
    assert Covered(y, Bid) == Covered(x, Bid) && Covered(y, Ask) == Covered(x, Ask);
    forall u, side
      ensures TallyOk(y, u, side)
    {
      ProcessWithdrawalTallied(x, t, u, side);
    }
  }

  lemma ProcessWithdrawalActs(x: Exchange, t: TraderId)
    requires Inv(x.market) && ProcessWithdrawal(x, t).Some?
    ensures ActsFor(x.market, ProcessWithdrawal(x, t).value.market, t)
  {
    hide Inv, ActsFor;
    InvParams(x.market);
    var m' := ProcessWithdrawal(x, t).value.market;
    EditActs(x.market, m', t, m'.traders[t], []);
  }

  lemma ProcessWithdrawalTallied(x: Exchange, t: TraderId, u: TraderId, side: Side)
    requires Solvent(x) && ProcessWithdrawal(x, t).Some? && x.market.params.Valid()
    requires ProcessWithdrawal(x, t).value.market.params == x.market.params
    ensures TallyOk(Observed(x, ProcessWithdrawal(x, t).value, ProcessWithdrawalMove(t)), u, side)
  {
    hide Inv, ProcessWithdrawal, Own, MakerGain, HeldBy, ActsFor, VaultOk, TallyOk, OnlyFree, FreeOf;
    ProcessWithdrawalDebits(x, t);
    ProcessWithdrawalActs(x, t);
    var x' := ProcessWithdrawal(x, t).value;
    var y := Observed(x, x', ProcessWithdrawalMove(t));
    assert TallyOk(x, u, side);
    if u == t {
      FreeIsHeld(x.market, x'.market, t, side);
      OnlyFreeLog(x.market, x'.market, t);
      DebitTally(x, y, t, side, x'.withdrawals[t].Lots(side));
    } else {
      ActsForOthers(x.market, x'.market, t, u, side);
      Untouched(x, y, u, side);
    }
  }

  lemma OnlyFreeLog(m: Market, m': Market, t: TraderId)
    requires OnlyFree(m, m', t)
    ensures m'.log == m.log
  {
  }

  lemma DebitTally(x: Exchange, y: Exchange, t: TraderId, side: Side, lots: nat)
    requires x.market.params.Valid() && y.market.params == x.market.params && y.market.log == x.market.log
    requires TallyOk(x, t, side) && y.Lot(side) == x.Lot(side) && y.deposits == x.deposits
    requires HeldBy(y.market, t, side) + lots == HeldBy(x.market, t, side)
    requires t in x.withdrawals && !x.withdrawals[t].processed && t in y.withdrawals && y.withdrawals[t].processed
    requires y.withdrawals[t].Lots(side) == lots <= x.withdrawals[t].Lots(side)
    requires var a := x.LedgerOf(t).Of(side); y.LedgerOf(t).Of(side) == a.(debited := a.debited + lots)
    ensures TallyOk(y, t, side)
  {
    hide HeldBy, MakerGain;
    var a, lot := x.LedgerOf(t).Of(side), x.Lot(side);
    var rest := a.credited - a.debited + a.taken + MakerGain(x.market.params, x.market.log, t, side);
    Scale(lot, HeldBy(y.market, t, side), lots);
    Scale(lot, rest - lots, lots);
    Scale(lot, a.debited, lots);
  }

  /** Paying a processed receipt never fails for want of tokens in a vault. */
  lemma ExecuteWithdrawalSolvent(x: Exchange, t: TraderId)
    requires Solvent(x) && x.open && t in x.withdrawals && x.withdrawals[t].processed
    ensures ExecuteWithdrawal(x, t).Some?
    ensures Solvent(Observed(x, ExecuteWithdrawal(x, t).value, ExecuteWithdrawalMove(t)))
  {
    hide Inv, Funds, Own, HeldBy, MakerGain, TallyOk, Outstanding;
    InvParams(x.market);
    var r := x.withdrawals[t];
    OutstandingWithout(x.withdrawals, Bid, true, t);
    OutstandingWithout(x.withdrawals, Ask, true, t);
    VaultMoves(x.quoteLot, x.quoteVault, Covered(x, Bid), 0, r.quote, Covered(x, Bid) - r.quote);
    VaultMoves(x.baseLot, x.baseVault, Covered(x, Ask), 0, r.base, Covered(x, Ask) - r.base);
    var y := Observed(x, ExecuteWithdrawal(x, t).value, ExecuteWithdrawalMove(t));
    forall u, side
      ensures TallyOk(y, u, side)
    {
      assert TallyOk(x, u, side);
      if u == t {
        PayTally(x, y, t, side, r.Lots(side));
      } else {
        Untouched(x, y, u, side);
      }
    }
  }

  lemma PayTally(x: Exchange, y: Exchange, t: TraderId, side: Side, lots: nat)
    requires x.market.params.Valid() && y.market == x.market && y.Lot(side) == x.Lot(side) && y.deposits == x.deposits
    requires TallyOk(x, t, side)
    requires Pending(x.withdrawals, t, side, true) == lots && t !in y.withdrawals
    requires var a := x.LedgerOf(t).Of(side); y.LedgerOf(t).Of(side) == a.(paid := a.paid + lots * x.Lot(side))
    ensures TallyOk(y, t, side)
  {
    hide HeldBy, MakerGain;
  }

  lemma FreeIsHeld(m: Market, m': Market, t: TraderId, side: Side)
    requires OnlyFree(m, m', t)
    ensures HeldBy(m', t, side) - HeldBy(m, t, side) == FreeOf(m', t, side) - FreeOf(m, t, side)
  {
  }

  // ---------- trading keeps it ----------

  /** A market instruction that succeeds, on the right layer, is always paid. */
  lemma TradeSolvent(x: Exchange, step: Step)
    requires Solvent(x) && x.open && Apply(x.market, step).Some?
    ensures !x.delegated ==> Trade(x, step).Some?
    ensures Trade(x, step).Some? ==>
              && Trade(x, step).value.market.params == x.market.params
              && Solvent(Observed(x, Trade(x, step).value, TradeMove(step)))
  {
    hide Inv, Apply, Uncrossed, LogInv, Funds, Covered, Balanced, TallyOk, Seen, ActsFor, SameOwn;
    var r := Apply(x.market, step).value;
    InvParams(x.market);
    ApplyKeeps(x.market, step, step.ClockOr(Clock(0, 0)));
    ApplyActs(x.market, step);
    TradeCovers(x, r.market, r.response);
    var z := x.(market := r.market);
    VaultMoves(x.quoteLot, x.quoteVault, Covered(x, Bid), r.response.Deposit(Bid), r.response.quoteOut, Covered(z, Bid));
    VaultMoves(x.baseLot, x.baseVault, Covered(x, Ask), r.response.Deposit(Ask), r.response.baseOut, Covered(z, Ask));
    if Trade(x, step).Some? {
      var y := Observed(x, Trade(x, step).value, TradeMove(step));
      SameCover(z, y);
      forall u, side
        ensures TallyOk(y, u, side)
      {
        assert TallyOk(x, u, side);
        TradeTallied(x, Trade(x, step).value, r.response, TradeMove(step), u, side);
      }
    }
  }

  /** When an instruction is carried out, and what it does to the vaults. */
  lemma TradeOutcome(x: Exchange, step: Step)
    requires Solvent(x)
    ensures var a := Apply(x.market, step);
            Trade(x, step).Some? <==>
            x.open && a.Some? && (x.delegated ==> a.value.response.NoDeposit() && a.value.response.NoWithdrawal())
    ensures Trade(x, step).Some? ==>
              var a := Apply(x.market, step).value;
              var quote, base := a.response.Deposit(Bid), a.response.Deposit(Ask);
              && quote >= 0 && base >= 0
              && a.response.quoteOut * x.quoteLot <= x.quoteVault + quote * x.quoteLot
              && a.response.baseOut * x.baseLot <= x.baseVault + base * x.baseLot
              && Trade(x, step).value == x.(
                   market := a.market,
                   quoteVault := x.quoteVault + quote * x.quoteLot - a.response.quoteOut * x.quoteLot,
                   baseVault := x.baseVault + base * x.baseLot - a.response.baseOut * x.baseLot)
  {
    hide Inv, Apply, Uncrossed, LogInv, Funds, Covered, TallyOk;
    if x.open && Apply(x.market, step).Some? {
      var r := Apply(x.market, step).value;
      ApplyKeeps(x.market, step, step.ClockOr(Clock(0, 0)));
      TradeCovers(x, r.market, r.response);
      var z := x.(market := r.market);
      VaultMoves(x.quoteLot, x.quoteVault, Covered(x, Bid), r.response.Deposit(Bid), r.response.quoteOut, Covered(z, Bid));
      VaultMoves(x.baseLot, x.baseVault, Covered(x, Ask), r.response.Deposit(Ask), r.response.baseOut, Covered(z, Ask));
      assert r.response.FreeUsed(Bid) <= r.response.In(Bid) + r.response.Posted(Bid);
      assert r.response.FreeUsed(Ask) <= r.response.In(Ask) + r.response.Posted(Ask);
    }
  }

  lemma TradeCovers(x: Exchange, m: Market, r: Response)
    requires Balanced(x.market, m, r)
    ensures r.Deposit(Bid) >= 0 && r.Deposit(Ask) >= 0
    ensures Covered(x.(market := m), Bid) + r.quoteOut == Covered(x, Bid) + r.Deposit(Bid)
    ensures Covered(x.(market := m), Ask) + r.baseOut == Covered(x, Ask) + r.Deposit(Ask)
  {
  }

  lemma SameCover(x: Exchange, y: Exchange)
    requires y.market == x.market && y.deposits == x.deposits && y.withdrawals == x.withdrawals
    ensures Covered(y, Bid) == Covered(x, Bid) && Covered(y, Ask) == Covered(x, Ask)
  {
  }

  lemma TradeTallied(x: Exchange, x': Exchange, r: Response, move: Move, u: TraderId, side: Side)
    requires x.market.params.Valid() && x'.market.params == x.market.params && move.TradeMove? && TallyOk(x, u, side)
    requires x' == x.(market := x'.market, quoteVault := x'.quoteVault, baseVault := x'.baseVault)
    requires x'.Vault(side) - x.Vault(side) == r.Deposit(side) * x.Lot(side) - r.Out(side) * x.Lot(side)
    requires Balanced(x.market, x'.market, r)
    requires match Mover(move) case None => SameOwn(x.market, x'.market) case Some(t) => ActsFor(x.market, x'.market, t)
    ensures TallyOk(Observed(x, x', move), u, side)
  {
    hide Balanced, ActsFor, SameOwn, Own, HeldBy, MakerGain, TakerGain, TallyOk;
    var y := Observed(x, x', move);
    if Mover(move) == Some(u) {
      SenderOwn(x.market, x'.market, u, r, side);
      Difference(x.Lot(side), r.Deposit(side), r.Out(side));
      OwnTally(x, y, u, side, r.Deposit(side) - r.Out(side), TakerGain(x.market, x'.market, side));
    } else {
      if Mover(move).None? {
        SameOwnOf(x.market, x'.market, u, side);
      } else {
        ActsForOthers(x.market, x'.market, Mover(move).value, u, side);
      }
      Untouched(x, y, u, side);
    }
  }

  lemma Difference(lot: int, a: int, b: int)
    ensures lot * (a - b) == a * lot - b * lot
  {
  }

  lemma SameOwnOf(m: Market, m': Market, u: TraderId, side: Side)
    requires SameOwn(m, m')
    ensures Own(m', u, side) == Own(m, u, side)
  {
    hide Own, OwnOfAll;
  }

  lemma OwnTally(x: Exchange, y: Exchange, t: TraderId, side: Side, paid: int, taken: int)
    requires x.market.params.Valid() && y.market.params == x.market.params
    requires TallyOk(x, t, side) && y.Lot(side) == x.Lot(side) && y.deposits == x.deposits && y.withdrawals == x.withdrawals
    requires Own(y.market, t, side) == Own(x.market, t, side) + paid + taken
    requires var a := x.LedgerOf(t).Of(side);
             y.LedgerOf(t).Of(side) == a.(moved := a.moved + x.Lot(side) * paid, taken := a.taken + taken)
    ensures TallyOk(y, t, side)
  {
    hide HeldBy, MakerGain;
    var a, lot, p := x.LedgerOf(t).Of(side), x.Lot(side), x.market.params;
    var g, g' := MakerGain(p, x.market.log, t, side), MakerGain(p, y.market.log, t, side);
    var own, rest := Own(x.market, t, side), a.credited - a.debited + a.taken;
    Scale(lot, own, g);
    Scale(lot, rest, g);
    Scale(lot, own + paid + taken, g');
    Scale(lot, own, paid + taken);
    Scale(lot, paid, taken);
    Scale(lot, rest + taken, g');
    Scale(lot, rest, taken);
  }

  // ---------- every move keeps it ----------

  lemma PerformSolvent(x: Exchange, move: Move)
    requires Solvent(x) && Perform(x, move).Some?
    ensures var y := Perform(x, move).value; Solvent(y) && y.quoteLot == x.quoteLot && y.baseLot == x.baseLot
  {
    hide Inv, VaultOk, RequestDeposit, ProcessDeposit, CloseDeposit, RequestWithdrawal, ProcessWithdrawal, Apply, TallyOk, Seen;
    EffectInv(x, move);
    match move {
      case RequestDepositMove(t, quote, base) => RequestDepositSolvent(x, t, quote, base);
      case ProcessDepositMove(t) => ProcessDepositSolvent(x, t);
      case CloseDepositMove(t) => CloseDepositSolvent(x, t);
      case RequestWithdrawalMove(t, quote, base) => RequestWithdrawalSolvent(x, t, quote, base);
      case ProcessWithdrawalMove(t) => ProcessWithdrawalSolvent(x, t);
      case ExecuteWithdrawalMove(t) => ExecuteWithdrawalSolvent(x, t);
      case TradeMove(step) => TradeSolvent(x, step);
      case DelegateMove(delegated) => FlagsSolvent(x, x.open, delegated);
      case TombstoneMove => FlagsSolvent(x, false, x.delegated);
    }
  }

  lemma FlagsSolvent(x: Exchange, open: bool, delegated: bool)
    requires Solvent(x) && (!open ==> Vacant(x.market))
    ensures Solvent(x.(open := open, delegated := delegated))
  {
    hide Inv, Own, HeldBy, MakerGain;
    InvParams(x.market);
    var y := x.(open := open, delegated := delegated);
    assert Covered(y, Bid) == Covered(x, Bid) && Covered(y, Ask) == Covered(x, Ask);
    forall t, side
      ensures TallyOk(y, t, side)
    {
      assert TallyOk(x, t, side);
    }
  }

  // ---------- every run of the two layers ----------

  /** Runs of the whole system; a move that fails changes nothing. */
  function PerformAll(x: Exchange, moves: seq<Move>): Exchange
    requires Inv(x.market)
    decreases moves
  {
    if moves == [] then x else match Perform(x, moves[0])
      case None => PerformAll(x, moves[1..])
      case Some(x') => EffectInv(x, moves[0]); PerformAll(x', moves[1..])
  }

  lemma {:induction false} PerformAllSolvent(x: Exchange, moves: seq<Move>)
    requires Solvent(x)
    ensures var y := PerformAll(x, moves); Solvent(y) && y.quoteLot == x.quoteLot && y.baseLot == x.baseLot
    decreases moves
  {
    hide Inv, Perform, VaultOk, TallyOk;
    if moves != [] {
      if Perform(x, moves[0]).Some? {
        PerformSolvent(x, moves[0]);
        PerformAllSolvent(Perform(x, moves[0]).value, moves[1..]);
      } else {
        PerformAllSolvent(x, moves[1..]);
      }
    }
  }

  function NewExchange(p: Params, quoteLot: nat, baseLot: nat): Exchange {
    Exchange(Fresh(p), true, false, quoteLot, baseLot, 0, 0, map[], map[], map[])
  }

  lemma NewExchangeSolvent(p: Params, quoteLot: nat, baseLot: nat)
    requires p.Valid()
    ensures Solvent(NewExchange(p, quoteLot, baseLot))
  {
    hide SideOk;
    FreshIsGood(p, Clock(0, 0));
    var x := NewExchange(p, quoteLot, baseLot);
    assert Covered(x, Bid) == 0 && Covered(x, Ask) == 0;
  }

  /** In every reachable state each vault holds exactly the lots of all traders, the unclaimed fees,
      the deposits still to be credited and the withdrawals still to be paid; and for every trader
      and token the tallies seen over the whole run add up. */
  lemma VaultsConserve(p: Params, quoteLot: nat, baseLot: nat, moves: seq<Move>)
    requires p.Valid()
    ensures Inv(Fresh(p))
    ensures var x := PerformAll(NewExchange(p, quoteLot, baseLot), moves);
            && x.market.params.Valid() && x.quoteLot == quoteLot && x.baseLot == baseLot
            && x.quoteVault == quoteLot * (Total(x.market.traders, Bid) + x.market.unclaimed
                                           + Outstanding(x.deposits, Bid, false) + Outstanding(x.withdrawals, Bid, true))
            && x.baseVault == baseLot * (Total(x.market.traders, Ask)
                                         + Outstanding(x.deposits, Ask, false) + Outstanding(x.withdrawals, Ask, true))
            && forall t, side :: TallyOk(x, t, side)
  {
    hide Inv, PerformAll, TallyOk, Outstanding, Total;
    NewExchangeSolvent(p, quoteLot, baseLot);
    PerformAllSolvent(NewExchange(p, quoteLot, baseLot), moves);
    var x := PerformAll(NewExchange(p, quoteLot, baseLot), moves);
    InvParams(x.market);
    assert VaultOk(x, Bid) && VaultOk(x, Ask);
  }

  /** A tombstoned market leaves nothing in its vaults but what is on receipts in flight. */
  lemma TombstoneLeavesOnlyReceipts(p: Params, quoteLot: nat, baseLot: nat, moves: seq<Move>)
    requires p.Valid()
    ensures Inv(Fresh(p))
    ensures var x := PerformAll(NewExchange(p, quoteLot, baseLot), moves);
            !x.open ==>
              && x.quoteVault == quoteLot * (Outstanding(x.deposits, Bid, false) + Outstanding(x.withdrawals, Bid, true))
              && x.baseVault == baseLot * (Outstanding(x.deposits, Ask, false) + Outstanding(x.withdrawals, Ask, true))
  {
    hide Inv, PerformAll, TallyOk, Outstanding;
    NewExchangeSolvent(p, quoteLot, baseLot);
    PerformAllSolvent(NewExchange(p, quoteLot, baseLot), moves);
    var x := PerformAll(NewExchange(p, quoteLot, baseLot), moves);
    assert VaultOk(x, Bid) && VaultOk(x, Ask);
    if !x.open {
      assert Funds(x.market, Bid) == 0 && Funds(x.market, Ask) == 0;
    }
  }
}
