/** The order packets a trader submits. */
module Packets {
  import opened Quantities
  import opened Books
  import opened Matching

  type U128 = n: nat | n <= 0xFFFF_FFFF_FFFF_FFFF_FFFF_FFFF_FFFF_FFFF

  datatype OrderPacket =
    | PostOnly(
        side: Side, price: U64, baseLots: U64, clientId: U128, reject: bool, depositedOnly: bool,
        lastValidSlot: Option<U64>, lastValidTime: Option<U64>, failSilently: bool)
    | Limit(
        side: Side, price: U64, baseLots: U64, selfTrade: SelfTrade, matchLimit: Option<U64>,
        clientId: U128, depositedOnly: bool,
        lastValidSlot: Option<U64>, lastValidTime: Option<U64>, failSilently: bool)
    | ImmediateOrCancel(
        side: Side, limitPrice: Option<U64>, baseLots: U64, quoteLots: U64, minBase: U64, minQuote: U64,
        selfTrade: SelfTrade, matchLimit: Option<U64>, clientId: U128, depositedOnly: bool,
        lastValidSlot: Option<U64>, lastValidTime: Option<U64>)
  {
    /** Only immediate-or-cancel packets take without resting; fill-or-kill ones are among them. */
    predicate TakeOnly() {
      ImmediateOrCancel?
    }

    predicate FillOrKill() {
      ImmediateOrCancel? && ((baseLots > 0 && baseLots == minBase) || (quoteLots > 0 && quoteLots == minQuote))
    }

    function Price(): U64 {
      match this
      case PostOnly(_, price, _, _, _, _, _, _, _) => price
      case Limit(_, price, _, _, _, _, _, _, _, _) => price
      case ImmediateOrCancel(side, limit, _, _, _, _, _, _, _, _, _, _) =>
        match limit
        case Some(price) => price
        case None => if side.Bid? then U64_MAX else 0
    }

    function QuoteLotsGiven(): U64 {
      if ImmediateOrCancel? then quoteLots else 0
    }

    function BaseBudget(): U64 {
      if baseLots == 0 then U64_MAX else baseLots
    }

    function QuoteBudget(): Option<nat> {
      if QuoteLotsGiven() == 0 then None else Some(QuoteLotsGiven())
    }

    function MatchLimit(): U64 {
      if PostOnly? || matchLimit.None? then U64_MAX else matchLimit.value
    }

    predicate IsExpired(c: Clock) {
      || (lastValidSlot.Some? && c.slot > lastValidSlot.value)
      || (lastValidTime.Some? && c.time > lastValidTime.value)
    }
  }

  function OrZero(x: Option<nat>): nat {
    match x case None => 0 case Some(v) => v
  }
}
