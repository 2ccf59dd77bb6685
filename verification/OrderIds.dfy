/** Order identifiers: a price and a sequence number whose leading bit tells the side. */
module OrderIds {
  import opened Quantities

  const SIGN_BIT: nat := 0x8000_0000_0000_0000

  /** Placement stops when the market's counter reaches this value. */
  const LAST_COUNTER: nat := U64_MAX / 2

  datatype OrderId = OrderId(price: nat, seqNum: nat)

  datatype Ordering = Less | Equal | Greater

  function CompareNat(a: nat, b: nat): Ordering {
    if a < b then Less else if a == b then Equal else Greater
  }

  /** The side is the leading bit of the 64-bit sequence number. */
  function SideOf(seqNum: nat): Side {
    if seqNum >= SIGN_BIT then Bid else Ask
  }

  /** The sequence number given to the `counter`-th placement: bids store the bitwise complement. */
  function SeqNum(side: Side, counter: nat): nat
    requires counter <= U64_MAX
  {
    match side case Bid => U64_MAX - counter case Ask => counter
  }

  /** The placement counter a sequence number was made from. */
  function Counter(seqNum: nat): nat
    requires seqNum <= U64_MAX
  {
    match SideOf(seqNum) case Bid => U64_MAX - seqNum case Ask => seqNum
  }

  /** The comparison of the order tree: by price, then sequence number, both reversed when the
      left operand is a bid. */
  function Compare(a: OrderId, b: OrderId): Ordering {
    var (tick, time) := match SideOf(a.seqNum)
      case Bid => (CompareNat(b.price, a.price), CompareNat(b.seqNum, a.seqNum))
      case Ask => (CompareNat(a.price, b.price), CompareNat(a.seqNum, b.seqNum));
    if tick == Equal then time else tick
  }

  predicate Ahead(a: OrderId, b: OrderId) {
    Compare(a, b) == Less
  }

  predicate BetterPrice(side: Side, p: nat, q: nat) {
    match side case Bid => p > q case Ask => p < q
  }

  predicate ValidId(side: Side, id: OrderId) {
    id.seqNum <= U64_MAX && SideOf(id.seqNum) == side
  }

  /** Encoding a counter is undone by decoding, and the leading bit recovers the side. */
  lemma SeqNumRoundTrip(side: Side, counter: nat)
    requires counter <= LAST_COUNTER
    ensures SideOf(SeqNum(side, counter)) == side
    ensures Counter(SeqNum(side, counter)) == counter
  {
  }

  lemma CounterRoundTrip(seqNum: nat)
    requires seqNum <= U64_MAX
    ensures Counter(seqNum) <= LAST_COUNTER
    ensures SeqNum(SideOf(seqNum), Counter(seqNum)) == seqNum
  {
  }

  /** Within one book the comparison is price-time priority: best price first, then the earliest
      placement. */
  lemma CompareIsPriceTimePriority(side: Side, a: OrderId, b: OrderId)
    requires ValidId(side, a) && ValidId(side, b)
    ensures Ahead(a, b) <==>
            BetterPrice(side, a.price, b.price) || (a.price == b.price && Counter(a.seqNum) < Counter(b.seqNum))
    ensures Compare(a, b) == Equal <==> a == b
    ensures Compare(a, b) == Greater <==> Ahead(b, a)
  {
  }

  lemma AheadIsTransitive(side: Side, a: OrderId, b: OrderId, c: OrderId)
    requires ValidId(side, a) && ValidId(side, b) && ValidId(side, c)
    requires Ahead(a, b) && Ahead(b, c)
    ensures Ahead(a, c)
  {
  }
}
