/** Lot, tick and fee arithmetic of the matching engine. Quantities are unbounded naturals:
    every arithmetic overflow aborts the transaction in the program, so the runs modelled
    here include every run the program completes. The 64-bit maximum appears where the program
    itself uses it: as the "no budget" value and as the fallback of a failed conversion. */
module Quantities {

  const U64_MAX: nat := 0xFFFF_FFFF_FFFF_FFFF
  const BPS: nat := 10000

  type U64 = n: nat | n <= U64_MAX

  datatype Option<+T> = None | Some(value: T)

  datatype Side = Bid | Ask

  function Opposite(side: Side): (r: Side)
    ensures r != side
  {
    match side case Bid => Ask case Ask => Bid
  }

  function Min(a: nat, b: nat): nat {
    if a <= b then a else b
  }

  /** The fixed parameters of one market. */
  datatype Params = Params(
    tickSize: nat, lotsPerUnit: nat, feeBps: nat,
    bidCapacity: nat, askCapacity: nat, seatCapacity: nat)
  {
    predicate Valid() {
      tickSize > 0 && lotsPerUnit > 0 && tickSize % lotsPerUnit == 0 && feeBps <= BPS
    }

    function Capacity(side: Side): nat {
      match side case Bid => bidCapacity case Ask => askCapacity
    }
  }

  // ---------- products and quotients ----------

  function CeilDiv(a: nat, b: nat): nat
    requires b > 0
  {
    (a + b - 1) / b
  }

  lemma MulLe(a: nat, b: nat, c: nat)
    requires a <= b
    ensures a * c <= b * c
  {
  }

  lemma MulCancel(a: nat, b: nat, c: nat)
    requires c > 0 && a * c <= b * c
    ensures a <= b
  {
    if b < a {
      MulLe(b + 1, a, c);
    }
  }

  /** Floor division is the largest quotient whose product fits. */
  lemma DivIsFloor(a: nat, b: nat, q: nat)
    requires b > 0
    ensures q <= a / b <==> q * b <= a
  {
    assert a == b * (a / b) + a % b;
    if q <= a / b {
      MulLe(q, a / b, b);
      assert q * b <= a;
    } else {
      MulLe(a / b + 1, q, b);
      assert (a / b + 1) * b == (a / b) * b + b;
      assert q * b > a;
    }
  }

  /** Ceiling division is the smallest quotient whose product covers. */
  lemma CeilDivIsCeil(a: nat, b: nat, q: nat)
    requires b > 0
    ensures CeilDiv(a, b) <= q <==> a <= q * b
  {
    DivIsFloor(a + b - 1, b, q + 1);
    assert (q + 1) * b == q * b + b;
  }

  lemma CeilDivNested(a: nat, l: nat, d: nat)
    requires l > 0 && d > 0
    ensures CeilDiv(CeilDiv(a * l, d), l) == CeilDiv(a, d)
  {
    var x, y := CeilDiv(CeilDiv(a * l, d), l), CeilDiv(a, d);
    CeilDivNestedLe(a, l, d, x);
    CeilDivNestedLe(a, l, d, y);
    CeilDivIsCeil(a, d, x);
    CeilDivIsCeil(a, d, y);
  }

  lemma CeilDivNestedLe(a: nat, l: nat, d: nat, q: nat)
    requires l > 0 && d > 0
    ensures CeilDiv(CeilDiv(a * l, d), l) <= q <==> a <= q * d
  {
    CeilDivIsCeil(CeilDiv(a * l, d), l, q);
    CeilDivIsCeil(a * l, d, q * l);
    assert (q * l) * d == (q * d) * l by { MulSwap(q, l, d); }
    if a <= q * d {
      MulLe(a, q * d, l);
    }
    if a * l <= (q * d) * l {
      MulCancel(a, q * d, l);
    }
  }

  lemma MulSwap(a: nat, b: nat, c: nat)
    ensures (a * b) * c == (a * c) * b == a * (b * c)
  {
  }

  // ---------- what lots are worth ----------

  /** Quote lots scaled by base lots per base unit, at a tick price. */
  function AdjustedLots(p: Params, price: nat, lots: nat): nat {
    price * p.tickSize * lots
  }

  /** Quote lots that `lots` base lots are worth at a tick price. */
  function QuoteLots(p: Params, price: nat, lots: nat): nat
    requires p.Valid()
  {
    AdjustedLots(p, price, lots) / p.lotsPerUnit
  }

  lemma QuoteLotsLinear(p: Params, price: nat, lots: nat)
    requires p.Valid()
    ensures QuoteLots(p, price, lots) == (price * (p.tickSize / p.lotsPerUnit)) * lots
    ensures QuoteLots(p, price, lots) * p.lotsPerUnit == AdjustedLots(p, price, lots)
  {
    var u, l := p.tickSize / p.lotsPerUnit, p.lotsPerUnit;
    var n := price * u * lots;
    assert p.tickSize == u * l;
    calc {
      AdjustedLots(p, price, lots);
      (price * (u * l)) * lots;
      { MulSwap(price, u, l); }
      ((price * u) * l) * lots;
      { MulSwap(price * u, l, lots); }
      n * l;
    }
    DivIsFloor(n * l, l, n);
    DivIsFloor(n * l, l, n + 1);
    assert (n + 1) * l == n * l + l;
  }

  /** The division by lots per unit is exact, so value splits over any partition of an order. */
  lemma QuoteLotsSplit(p: Params, price: nat, part: nat, whole: nat)
    requires p.Valid() && part <= whole
    ensures QuoteLots(p, price, whole) == QuoteLots(p, price, part) + QuoteLots(p, price, whole - part)
    ensures QuoteLots(p, price, 0) == 0
    ensures price > 0 && whole > 0 ==> QuoteLots(p, price, whole) > 0
  {
    var u := price * (p.tickSize / p.lotsPerUnit);
    QuoteLotsLinear(p, price, whole);
    QuoteLotsLinear(p, price, part);
    QuoteLotsLinear(p, price, whole - part);
    QuoteLotsLinear(p, price, 0);
    assert u * whole == u * part + u * (whole - part);
    if price > 0 && whole > 0 {
      assert p.tickSize / p.lotsPerUnit > 0;
      assert u >= 1 by { MulLe(1, price, p.tickSize / p.lotsPerUnit); }
      assert u * whole >= whole by { MulLe(1, u, whole); }
    }
  }

  lemma QuoteLotsMonotone(p: Params, price: nat, price': nat, lots: nat)
    requires p.Valid() && price <= price'
    ensures QuoteLots(p, price, lots) <= QuoteLots(p, price', lots)
  {
    var u := p.tickSize / p.lotsPerUnit;
    QuoteLotsLinear(p, price, lots);
    QuoteLotsLinear(p, price', lots);
    MulLe(price, price', u);
    MulLe(price * u, price' * u, lots);
  }

  // ---------- taker fees ----------

  /** Fee on an adjusted amount, rounded up. */
  function ComputeFee(p: Params, adjusted: nat): nat {
    CeilDiv(adjusted * p.feeBps, BPS)
  }

  function RoundUp(p: Params, adjusted: nat): nat
    requires p.Valid()
  {
    CeilDiv(adjusted, p.lotsPerUnit) * p.lotsPerUnit
  }

  function RoundDown(p: Params, adjusted: nat): nat
    requires p.Valid()
  {
    adjusted / p.lotsPerUnit * p.lotsPerUnit
  }

  /** The fee charged in whole quote lots on everything one order matched. */
  function TakerFee(p: Params, matchedAdjusted: nat): nat
    requires p.Valid()
  {
    RoundUp(p, ComputeFee(p, matchedAdjusted)) / p.lotsPerUnit
  }

  lemma DivOfProduct(n: nat, l: nat)
    requires l > 0
    ensures n * l / l == n && CeilDiv(n * l, l) == n
  {
    DivIsFloor(n * l, l, n);
    DivIsFloor(n * l, l, n + 1);
    assert (n + 1) * l == n * l + l;
    CeilDivIsCeil(n * l, l, n);
    if n > 0 {
      CeilDivIsCeil(n * l, l, n - 1);
      assert (n - 1) * l == n * l - l;
    }
  }

  /** On a whole number of quote lots the two roundings collapse into one, the fee never exceeds
      the amount, and rounding up or down changes nothing. */
  lemma TakerFeeOfQuoteLots(p: Params, quote: nat)
    requires p.Valid()
    ensures TakerFee(p, quote * p.lotsPerUnit) == CeilDiv(quote * p.feeBps, BPS) <= quote
    ensures RoundUp(p, quote * p.lotsPerUnit) / p.lotsPerUnit == quote
    ensures RoundDown(p, quote * p.lotsPerUnit) / p.lotsPerUnit == quote
  {
    var l := p.lotsPerUnit;
    DivOfProduct(quote, l);
    var c := CeilDiv(ComputeFee(p, quote * l), l);
    DivOfProduct(c, l);
    assert (quote * l) * p.feeBps == (quote * p.feeBps) * l by { MulSwap(quote, l, p.feeBps); }
    CeilDivNested(quote * p.feeBps, l, BPS);
    CeilDivIsCeil(quote * p.feeBps, BPS, quote);
    MulLe(p.feeBps, BPS, quote);
  }

  // ---------- quote budgets ----------

  /** A quote amount as adjusted lots, scaled by the 64-bit maximum over `divisor`. */
  function Scaled(quote: nat, lotsPerUnit: nat, divisor: nat): nat
    requires divisor > 0
  {
    quote * lotsPerUnit * U64_MAX / divisor
  }

  /** The adjusted quote budget an order matches against. The outer `None` is the division by
      zero of a sell with a quote budget on a market whose fee is 100%. */
  function AdjustedBudget(p: Params, side: Side, quoteBudget: Option<nat>): Option<nat>
    requires p.Valid()
  {
    match quoteBudget
    case None => Some(U64_MAX)
    case Some(quote) =>
      var divisor := match side
        case Bid => U64_MAX + ComputeFee(p, U64_MAX)
        case Ask => U64_MAX - Min(U64_MAX, ComputeFee(p, U64_MAX));
      if divisor == 0 then
        None
      else
        Some(Min(Scaled(quote, p.lotsPerUnit, divisor), U64_MAX))
  }

  lemma MaxFeeBounds(p: Params)
    requires p.Valid()
    ensures U64_MAX * p.feeBps <= ComputeFee(p, U64_MAX) * BPS < U64_MAX * p.feeBps + BPS
    ensures ComputeFee(p, U64_MAX) <= U64_MAX
  {
    var f := ComputeFee(p, U64_MAX);
    CeilDivIsCeil(U64_MAX * p.feeBps, BPS, f);
    CeilDivIsCeil(U64_MAX * p.feeBps, BPS, U64_MAX);
    if f > 0 {
      CeilDivIsCeil(U64_MAX * p.feeBps, BPS, f - 1);
    }
  }

  /** The conversion of a budget fails exactly for a sell in quote lots at a fee of 100%. */
  lemma BudgetFailsExactly(p: Params, side: Side, quoteBudget: Option<nat>)
    requires p.Valid()
    ensures AdjustedBudget(p, side, quoteBudget).None? <==> side.Ask? && quoteBudget.Some? && p.feeBps == BPS
    ensures quoteBudget.None? ==> AdjustedBudget(p, side, quoteBudget) == Some(U64_MAX)
  {
    hide CeilDiv, Scaled, ComputeFee;
    MaxFeeBounds(p);
  }

  /** A buy that matched `matched` quote lots within its budget pays, fee included, at most the
      quote lots it was given. */
  lemma BuyNeverOverpays(p: Params, quote: nat, matched: nat)
    requires p.Valid()
    requires var b := AdjustedBudget(p, Bid, Some(quote)); b.Some? && matched * p.lotsPerUnit <= b.value
    ensures matched + TakerFee(p, matched * p.lotsPerUnit) <= quote
  {
    hide Scaled, TakerFee, CeilDiv, ComputeFee;
    var d := U64_MAX + ComputeFee(p, U64_MAX);
    MaxFeeBounds(p);
    WithinBudget(quote, matched, p.lotsPerUnit, d);
    BuyBound(quote, matched, p.feeBps, d);
    TakerFeeOfQuoteLots(p, matched);
    CeilDivIsCeil(matched * p.feeBps, BPS, quote - matched);
  }

  lemma WithinBudget(quote: nat, matched: nat, l: nat, d: nat)
    requires l > 0 && d > 0 && matched * l <= Scaled(quote, l, d)
    ensures matched * d <= quote * U64_MAX
  {
    DivIsFloor(quote * l * U64_MAX, d, matched * l);
    MulSwap(matched, d, l);
    MulSwap(quote, U64_MAX, l);
    MulCancel(matched * d, quote * U64_MAX, l);
  }

  lemma BuyBound(quote: nat, matched: nat, bps: nat, d: nat)
    requires d * BPS >= U64_MAX * (BPS + bps)
    requires matched * d <= quote * U64_MAX
    ensures matched <= quote && matched * bps <= (quote - matched) * BPS
  {
    // matched * MAX * (BPS + bps) <= matched * d * BPS <= quote * MAX * BPS
    MulLe(U64_MAX * (BPS + bps), d * BPS, matched);
    MulSwap(matched, d, BPS);
    MulLe(matched * d, quote * U64_MAX, BPS);
    MulSwap(matched, BPS + bps, U64_MAX);
    MulSwap(quote, BPS, U64_MAX);
    MulCancel(matched * (BPS + bps), quote * BPS, U64_MAX);
    assert matched * (BPS + bps) == matched * BPS + matched * bps;
    MulCancel(matched, quote, BPS);
  }

  /** A sell that matched `matched` quote lots within its budget receives, fee deducted, at most
      the quote lots it asked for. */
  lemma SellNeverOverreceives(p: Params, quote: nat, matched: nat)
    requires p.Valid()
    requires var b := AdjustedBudget(p, Ask, Some(quote)); b.Some? && matched * p.lotsPerUnit <= b.value
    ensures matched - TakerFee(p, matched * p.lotsPerUnit) <= quote
  {
    hide Scaled, TakerFee, CeilDiv, ComputeFee;
    var d, l := U64_MAX - ComputeFee(p, U64_MAX), p.lotsPerUnit;
    MaxFeeBounds(p);
    WithinBudget(quote, matched, l, d);
    MulLe(1, l, matched);
    TakerFeeOfQuoteLots(p, matched);
    SellNet(p, matched);
    Kept(p.feeBps, ComputeFee(p, U64_MAX));
    SellBound(quote, matched, matched - CeilDiv(matched * p.feeBps, BPS), BPS - p.feeBps, d);
  }

  lemma Kept(bps: nat, fee: nat)
    requires bps <= BPS && fee <= U64_MAX && fee * BPS < U64_MAX * bps + BPS
    ensures (U64_MAX - fee) * BPS + BPS > U64_MAX * (BPS - bps)
  {
  }

  lemma SellNet(p: Params, matched: nat)
    requires p.Valid()
    ensures var fee := CeilDiv(matched * p.feeBps, BPS);
            fee <= matched && (matched - fee) * BPS <= matched * (BPS - p.feeBps)
  {
    var fee := CeilDiv(matched * p.feeBps, BPS);
    CeilDivIsCeil(matched * p.feeBps, BPS, fee);
    CeilDivIsCeil(matched * p.feeBps, BPS, matched);
    MulLe(p.feeBps, BPS, matched);
  }

  lemma SellBound(quote: nat, matched: nat, net: nat, keep: nat, d: nat)
    requires matched <= U64_MAX
    requires net * BPS <= matched * keep
    requires d * BPS + BPS > U64_MAX * keep
    requires matched * d <= quote * U64_MAX
    ensures net <= quote
  {
    // BPS * MAX * net <= MAX * matched * keep < BPS * matched * (d + 1) <= BPS * MAX * (quote + 1), unless nothing matched
    if matched > 0 {
      SellProducts(matched, d, keep);
      SellLinear(matched * d, matched * keep, matched, net, quote);
    }
  }

  lemma SellProducts(matched: nat, d: nat, keep: nat)
    requires d * BPS + BPS > U64_MAX * keep
    ensures BPS * (matched * d) + BPS * matched >= U64_MAX * (matched * keep) + matched
  {
    MulLe(U64_MAX * keep + 1, d * BPS + BPS, matched);
  }

  lemma SellLinear(md: nat, mk: nat, matched: nat, net: nat, quote: nat)
    requires BPS * md + BPS * matched >= U64_MAX * mk + matched
    requires md <= quote * U64_MAX && net * BPS <= mk && 0 < matched <= U64_MAX
    ensures net <= quote
  {
  }

  // ---------- how tight the budgets are ----------

  lemma FitsScaled(quote: nat, matched: nat, l: nat, d: nat)
    requires l > 0 && d > 0
    ensures matched * l <= Scaled(quote, l, d) <==> matched * d <= quote * U64_MAX
  {
    DivIsFloor(quote * l * U64_MAX, d, matched * l);
    MulSwap(matched, d, l);
    MulSwap(quote, U64_MAX, l);
    if matched * d <= quote * U64_MAX {
      MulLe(matched * d, quote * U64_MAX, l);
    }
    if matched * l <= Scaled(quote, l, d) {
      WithinBudget(quote, matched, l, d);
    }
  }

  /** A carry below the base decides only ties. */
  lemma Carry(a: nat, b: nat, carry: nat, base: nat)
    requires carry < base
    ensures a * base + carry <= b * base <==> a < b || (a == b && carry == 0)
    ensures a * base <= b * base + carry <==> a <= b
  {
    if a < b {
      MulLe(a + 1, b, base);
      assert (a + 1) * base == a * base + base;
    } else if b < a {
      MulLe(b + 1, a, base);
      assert (b + 1) * base == b * base + base;
    }
  }

  lemma SmallCarry(matched: nat, e: nat)
    requires e < BPS && matched * (BPS - 1) < U64_MAX
    ensures matched * e < U64_MAX
    ensures matched * e == 0 <==> matched == 0 || e == 0
  {
    MulLe(e, BPS - 1, matched);
  }

  /** How much a buy may match: exactly what it can pay for with the unrounded fee, except that an
      amount which would use the budget to the last lot does not fit when the fee rate does not
      divide the 64-bit maximum. */
  lemma BuyFitsExactly(p: Params, quote: nat, matched: nat)
    requires p.Valid() && matched * p.lotsPerUnit <= U64_MAX && matched * (BPS - 1) < U64_MAX
    ensures var b, paid := AdjustedBudget(p, Bid, Some(quote)), matched * (BPS + p.feeBps);
            && b.Some?
            && (matched * p.lotsPerUnit <= b.value <==>
                  paid < quote * BPS || (paid == quote * BPS && (matched == 0 || U64_MAX * p.feeBps % BPS == 0)))
  {
    hide Scaled, CeilDiv, ComputeFee;
    var f := ComputeFee(p, U64_MAX);
    var d, k := U64_MAX + f, BPS + p.feeBps;
    MaxFeeBounds(p);
    var e := f * BPS - U64_MAX * p.feeBps;
    FitsScaled(quote, matched, p.lotsPerUnit, d);
    assert d * BPS == U64_MAX * k + e;
    BuyTies(quote, matched, k, d, e);
    Remainder(U64_MAX * p.feeBps, f, e);
  }

  lemma Remainder(a: nat, f: nat, e: nat)
    requires f * BPS == a + e && e < BPS
    ensures a % BPS == 0 <==> e == 0
  {
    assert a % BPS == if e == 0 then 0 else BPS - e;
  }

  /** How much a sell may match: exactly what brings no more than was asked for after the unrounded
      fee. */
  lemma SellFitsExactly(p: Params, quote: nat, matched: nat)
    requires p.Valid() && p.feeBps < BPS && matched * p.lotsPerUnit <= U64_MAX && matched * (BPS - 1) < U64_MAX
    ensures var b := AdjustedBudget(p, Ask, Some(quote));
            && b.Some?
            && (matched * p.lotsPerUnit <= b.value <==> matched * (BPS - p.feeBps) <= quote * BPS)
  {
    hide Scaled, CeilDiv, ComputeFee;
    BudgetFailsExactly(p, Ask, Some(quote));
    var f := ComputeFee(p, U64_MAX);
    var d, k := U64_MAX - f, BPS - p.feeBps;
    MaxFeeBounds(p);
    var e := f * BPS - U64_MAX * p.feeBps;
    FitsScaled(quote, matched, p.lotsPerUnit, d);
    assert d * BPS + e == U64_MAX * k;
    SellTies(quote, matched, k, d, e);
  }

  lemma BuyTies(quote: nat, matched: nat, k: nat, d: nat, e: nat)
    requires d * BPS == U64_MAX * k + e && e < BPS && matched * (BPS - 1) < U64_MAX
    ensures matched * d <= quote * U64_MAX <==>
            matched * k < quote * BPS || (matched * k == quote * BPS && (matched == 0 || e == 0))
  {
    SmallCarry(matched, e);
    ThreeTerms(matched, d, k, e);
    Ties(matched * d, matched * k, matched * e, quote);
  }

  lemma SellTies(quote: nat, matched: nat, k: nat, d: nat, e: nat)
    requires d * BPS + e == U64_MAX * k && e < BPS && matched * (BPS - 1) < U64_MAX
    ensures matched * d <= quote * U64_MAX <==> matched * k <= quote * BPS
  {
    SmallCarry(matched, e);
    ThreeTermsBelow(matched, d, k, e);
    TiesBelow(matched * d, matched * k, matched * e, quote);
  }

  lemma ThreeTerms(n: int, d: int, k: int, e: int)
    requires d * BPS == U64_MAX * k + e
    ensures BPS * (n * d) == U64_MAX * (n * k) + n * e
  {
    assert n * (d * BPS) == n * (U64_MAX * k + e);
  }

  lemma ThreeTermsBelow(n: int, d: int, k: int, e: int)
    requires d * BPS + e == U64_MAX * k
    ensures BPS * (n * d) + n * e == U64_MAX * (n * k)
  {
    assert n * (d * BPS + e) == n * (U64_MAX * k);
  }

  lemma Ties(md: nat, mk: nat, carry: nat, quote: nat)
    requires BPS * md == U64_MAX * mk + carry && carry < U64_MAX
    ensures md <= quote * U64_MAX <==> mk < quote * BPS || (mk == quote * BPS && carry == 0)
  {
    Carry(mk, quote * BPS, carry, U64_MAX);
  }

  lemma TiesBelow(md: nat, mk: nat, carry: nat, quote: nat)
    requires BPS * md + carry == U64_MAX * mk && carry < U64_MAX
    ensures md <= quote * U64_MAX <==> mk <= quote * BPS
  {
    Carry(mk, quote * BPS, carry, U64_MAX);
  }

  /** A buy with 5001 quote lots at a fee of 2 basis points could pay for 5000 lots to the last lot, but
      its budget does not reach that far. */
  lemma LastLotOutOfReach(p: Params)
    requires p.Valid() && p.lotsPerUnit == 1 && p.feeBps == 2
    ensures 5000 + TakerFee(p, 5000 * p.lotsPerUnit) == 5001
    ensures AdjustedBudget(p, Bid, Some(5001)).Some? && AdjustedBudget(p, Bid, Some(5001)).value < 5000
  {
    TakerFeeOfQuoteLots(p, 5000);
    BuyFitsExactly(p, 5001, 5000);
  }
}
