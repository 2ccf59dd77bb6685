/** Trader balances. A bid locks and spends quote lots, an ask base lots, so each balance is
    selected by the side whose orders it funds. */
module Traders {
  import opened Quantities
  import opened Books

  datatype TraderState = TraderState(quoteLocked: nat, quoteFree: nat, baseLocked: nat, baseFree: nat) {
    function Locked(side: Side): nat {
      match side case Bid => quoteLocked case Ask => baseLocked
    }

    function Free(side: Side): nat {
      match side case Bid => quoteFree case Ask => baseFree
    }

    function Held(side: Side): nat {
      Locked(side) + Free(side)
    }

    function Lock(side: Side, lots: nat): TraderState {
      match side
      case Bid => this.(quoteLocked := quoteLocked + lots)
      case Ask => this.(baseLocked := baseLocked + lots)
    }

    function Unlock(side: Side, lots: nat): TraderState
      requires lots <= Locked(side)
    {
      match side
      case Bid => this.(quoteLocked := quoteLocked - lots, quoteFree := quoteFree + lots)
      case Ask => this.(baseLocked := baseLocked - lots, baseFree := baseFree + lots)
    }

    /** A resting order of `side` was matched: `paid` locked lots go to the taker and `received`
        free lots of the other token arrive. */
    function Matched(side: Side, paid: nat, received: nat): TraderState
      requires paid <= Locked(side)
    {
      match side
      case Bid => this.(quoteLocked := quoteLocked - paid, baseFree := baseFree + received)
      case Ask => this.(baseLocked := baseLocked - paid, quoteFree := quoteFree + received)
    }

    function UseFree(side: Side, lots: nat): TraderState
      requires lots <= Free(side)
    {
      match side
      case Bid => this.(quoteFree := quoteFree - lots)
      case Ask => this.(baseFree := baseFree - lots)
    }

    function DepositFree(side: Side, lots: nat): TraderState {
      match side
      case Bid => this.(quoteFree := quoteFree + lots)
      case Ask => this.(baseFree := baseFree + lots)
    }
  }

  const EMPTY: TraderState := TraderState(0, 0, 0, 0)

  type TraderMap = map<TraderId, TraderState>

  /** All lots of one token held by the traders of a map. */
  ghost function Total(ts: TraderMap, side: Side): nat {
    if ts == map[] then 0 else
      var t :| t in ts;
      ts[t].Held(side) + Total(ts - {t}, side)
  }

  /** The total does not depend on the order in which traders are counted. */
  lemma {:induction false} TotalWithout(ts: TraderMap, side: Side, t: TraderId)
    requires t in ts
    ensures Total(ts, side) == ts[t].Held(side) + Total(ts - {t}, side)
    decreases ts
  {
    var u :| u in ts && Total(ts, side) == ts[u].Held(side) + Total(ts - {u}, side);
    if u != t {
      TotalWithout(ts - {u}, side, t);
      TotalWithout(ts - {t}, side, u);
      assert ts - {u} - {t} == ts - {t} - {u};
    }
  }

  lemma TotalUpdate(ts: TraderMap, side: Side, t: TraderId, s: TraderState)
    ensures Total(ts[t := s], side) + (if t in ts then ts[t].Held(side) else 0) == Total(ts, side) + s.Held(side)
  {
    TotalWithout(ts[t := s], side, t);
    assert ts[t := s] - {t} == ts - {t};
    if t in ts {
      TotalWithout(ts, side, t);
    } else {
      assert ts - {t} == ts;
    }
  }
}
