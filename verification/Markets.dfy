/** The state of a market, what holds of it in every reachable state, and the elementary edits
    every operation is made of: taking lots from a resting order, and posting an order. */
module Markets {
  import opened Quantities
  import opened OrderIds
  import opened Books
  import opened Traders

  datatype Event =
    | Fill(maker: TraderId, seqNum: nat, price: nat, filled: nat, remaining: nat)
    | Place(seqNum: nat, clientId: nat, price: nat, lots: nat)
    | Reduce(seqNum: nat, price: nat, removed: nat, remaining: nat)
    | Evict(maker: TraderId, seqNum: nat, price: nat, lots: nat)
    | FillSummary(clientId: nat, baseFilled: nat, quoteFilled: nat, feeQuote: nat)
    | Fee(quote: nat)
    | TimeInForce(seqNum: nat, slot: nat, time: nat)
    | ExpiredOrder(maker: TraderId, seqNum: nat, price: nat, removed: nat)

  datatype Market = Market(
    params: Params, counter: nat, collected: nat, unclaimed: nat,
    bids: Book, asks: Book, traders: TraderMap, log: seq<Event>)
  {
    function BookOf(side: Side): Book {
      match side case Bid => bids case Ask => asks
    }

    function WithBook(side: Side, book: Book): Market {
      match side case Bid => this.(bids := book) case Ask => this.(asks := book)
    }

    function WithTrader(t: TraderId, s: TraderState): Market {
      this.(traders := traders[t := s])
    }

    function Record(events: seq<Event>): Market {
      this.(log := log + events)
    }
  }

  // ---------- the invariant ----------

  predicate Registered(book: Book, ts: TraderMap) {
    forall i | 0 <= i < |book| :: book[i].order.trader in ts
  }

  /** Locked balances are exactly what the resting orders of the book lock. */
  ghost predicate Funded(p: Params, side: Side, book: Book, ts: TraderMap)
    requires p.Valid()
  {
    forall t | t in ts :: ts[t].Locked(side) == LockedIn(p, side, book, t)
  }

  ghost predicate SideOk(p: Params, side: Side, book: Book, counter: nat, ts: TraderMap)
    requires p.Valid()
  {
    && BookOk(side, book, counter)
    && |book| <= p.Capacity(side)
    && Registered(book, ts)
    && Funded(p, side, book, ts)
  }

  ghost predicate SideInv(m: Market, side: Side)
    requires m.params.Valid()
  {
    SideOk(m.params, side, m.BookOf(side), m.counter, m.traders)
  }

  ghost predicate Inv(m: Market) {
    && m.params.Valid()
    && m.counter <= LAST_COUNTER
    && |m.traders| <= m.params.seatCapacity
    && SideInv(m, Bid)
    && SideInv(m, Ask)
  }

  /** No unexpired bid is at or above an unexpired ask. */
  predicate Uncrossed(m: Market, c: Clock) {
    UncrossedBooks(m.bids, m.asks, c)
  }

  predicate UncrossedBooks(bids: Book, asks: Book, c: Clock) {
    forall i, j | 0 <= i < |bids| && 0 <= j < |asks| ::
      !Expired(bids[i].order, c) && !Expired(asks[j].order, c) ==> bids[i].id.price < asks[j].id.price
  }

  lemma UncrossedLater(m: Market, c: Clock, c': Clock)
    requires Uncrossed(m, c) && NotBefore(c, c')
    ensures Uncrossed(m, c')
  {
    hide Expired, NotBefore;
    forall o | Expired(o, c)
      ensures Expired(o, c')
    {
      ExpiryIsPermanent(o, c, c');
    }
  }

  // ---------- replaying the event log ----------

  datatype Resting = Resting(price: nat, lots: nat, slot: nat, time: nat)

  type View = map<nat, Resting>

  /** What a client that follows the events learns about the resting orders, by sequence number. */
  function ApplyEvent(v: View, ev: Event): View {
    match ev
    case Place(k, _, price, lots) => v[k := Resting(price, lots, 0, 0)]
    case TimeInForce(k, slot, time) => if k in v then v[k := v[k].(slot := slot, time := time)] else v
    case Fill(_, k, _, _, remaining) => SetLots(v, k, remaining)
    case Reduce(k, _, _, remaining) => SetLots(v, k, remaining)
    case Evict(_, k, _, _) => v - {k}
    case ExpiredOrder(_, k, _, _) => v - {k}
    case FillSummary(_, _, _, _) => v
    case Fee(_) => v
  }

  function SetLots(v: View, k: nat, lots: nat): View {
    if lots == 0 || k !in v then v - {k} else v[k := v[k].(lots := lots)]
  }

  function Replay(log: seq<Event>): View {
    if log == [] then map[] else ApplyEvent(Replay(log[..|log| - 1]), log[|log| - 1])
  }

  lemma ReplayAppend(log: seq<Event>, ev: Event)
    ensures Replay(log + [ev]) == ApplyEvent(Replay(log), ev)
  {
    assert (log + [ev])[..|log|] == log;
  }

  function ViewOf(e: Entry): Resting {
    Resting(e.id.price, e.order.lots, e.order.lastValidSlot, e.order.lastValidTime)
  }

  predicate Shown(book: Book, v: View) {
    forall i | 0 <= i < |book| :: book[i].id.seqNum in v && v[book[i].id.seqNum] == ViewOf(book[i])
  }

  predicate Rests(book: Book, k: nat) {
    exists i | 0 <= i < |book| :: book[i].id.seqNum == k
  }

  /** A view shows exactly the orders of the two books. */
  predicate Agrees(v: View, bids: Book, asks: Book) {
    Shown(bids, v) && Shown(asks, v) && forall k | k in v :: Rests(bids, k) || Rests(asks, k)
  }

  /** Placements are logged with strictly increasing counters, all below the market's. */
  predicate FreshIds(log: seq<Event>, counter: nat) {
    && (forall i | 0 <= i < |log| && log[i].Place? ::
          log[i].seqNum <= U64_MAX && Counter(log[i].seqNum) < counter)
    && (forall i, j | 0 <= i < j < |log| && log[i].Place? && log[j].Place? ::
          Counter(log[i].seqNum) < Counter(log[j].seqNum))
  }

  /** The log rebuilds the books and never reuses an order id. */
  predicate LogInv(m: Market) {
    Agrees(Replay(m.log), m.bids, m.asks) && FreshIds(m.log, m.counter)
  }

  // ---------- taking lots from a resting order ----------

  datatype TakeKind = ByFill | ByReduce | ByExpiry | ByEviction

  predicate TakeEnabled(book: Book, i: nat, lots: nat, kind: TakeKind) {
    i < |book| && lots <= book[i].order.lots && (kind.ByExpiry? || kind.ByEviction? ==> lots == book[i].order.lots)
  }

  /** The event recorded for taking lots; an empty fill records none. */
  function TakeEvents(e: Entry, lots: nat, kind: TakeKind): seq<Event>
    requires lots <= e.order.lots
  {
    var t, k, price, rest := e.order.trader, e.id.seqNum, e.id.price, e.order.lots - lots;
    match kind
    case ByFill => if lots == 0 then [] else [Fill(t, k, price, lots, rest)]
    case ByReduce => [Reduce(k, price, lots, rest)]
    case ByExpiry => [ExpiredOrder(t, k, price, lots)]
    case ByEviction => [Evict(t, k, price, lots)]
  }

  /** The owner's balances: matched lots are exchanged, all other lots return to the free balance. */
  function TakeState(p: Params, s: TraderState, side: Side, price: nat, lots: nat, kind: TakeKind): TraderState
    requires p.Valid() && Worth(p, side, price, lots) <= s.Locked(side)
  {
    var w := Worth(p, side, price, lots);
    if kind.ByFill? then s.Matched(side, w, Worth(p, Opposite(side), price, lots)) else s.Unlock(side, w)
  }

  function Take(m: Market, side: Side, i: nat, lots: nat, kind: TakeKind): Market
    requires Inv(m) && TakeEnabled(m.BookOf(side), i, lots, kind)
  {
    var e := m.BookOf(side)[i];
    var t := e.order.trader;
    LockedCovers(m, side, i, lots);
    m.WithBook(side, Shrink(m.BookOf(side), i, lots))
     .WithTrader(t, TakeState(m.params, m.traders[t], side, e.id.price, lots, kind))
     .Record(TakeEvents(e, lots, kind))
  }

  /** No subtraction from a locked balance can underflow. */
  lemma LockedCovers(m: Market, side: Side, i: nat, lots: nat)
    requires Inv(m) && i < |m.BookOf(side)| && lots <= m.BookOf(side)[i].order.lots
    ensures var e := m.BookOf(side)[i];
            e.order.trader in m.traders &&
            Worth(m.params, side, e.id.price, lots) <= m.traders[e.order.trader].Locked(side)
  {
    LockedInShrink(m.params, side, m.BookOf(side), i, lots, m.BookOf(side)[i].order.trader);
  }

  /** A balance change that leaves a side's locked lots alone keeps that side in order. */
  lemma OtherSideOk(p: Params, side: Side, book: Book, counter: nat, counter': nat, ts: TraderMap, t: TraderId, s: TraderState)
    requires p.Valid() && SideOk(p, side, book, counter, ts) && counter <= counter'
    requires t in ts && s.Locked(side) == ts[t].Locked(side)
    ensures SideOk(p, side, book, counter', ts[t := s])
  {
  }

  lemma ShrinkSideOk(p: Params, side: Side, book: Book, counter: nat, ts: TraderMap, i: nat, lots: nat, s: TraderState)
    requires p.Valid() && SideOk(p, side, book, counter, ts)
    requires i < |book| && lots <= book[i].order.lots
    requires s.Locked(side) + Worth(p, side, book[i].id.price, lots) == ts[book[i].order.trader].Locked(side)
    ensures SideOk(p, side, Shrink(book, i, lots), counter, ts[book[i].order.trader := s])
  {
    ShrinkOk(side, book, counter, i, lots);
    var ts' := ts[book[i].order.trader := s];
    forall t | t in ts'
      ensures ts'[t].Locked(side) == LockedIn(p, side, Shrink(book, i, lots), t)
    {
      LockedInShrink(p, side, book, i, lots, t);
    }
  }

  lemma InsertSideOk(p: Params, side: Side, book: Book, counter: nat, ts: TraderMap, e: Entry, s: TraderState)
    requires p.Valid() && SideOk(p, side, book, counter, ts)
    requires EntryOk(side, e, counter + 1) && Counter(e.id.seqNum) == counter
    requires |book| < p.Capacity(side) && e.order.trader in ts
    requires s.Locked(side) == ts[e.order.trader].Locked(side) + Worth(p, side, e.id.price, e.order.lots)
    ensures SideOk(p, side, Insert(book, e), counter + 1, ts[e.order.trader := s])
  {
    InsertOk(side, book, counter, e);
    var ts' := ts[e.order.trader := s];
    forall t | t in ts'
      ensures ts'[t].Locked(side) == LockedIn(p, side, Insert(book, e), t)
    {
      LockedInInsert(p, side, book, e, t);
    }
  }

  lemma TakeInv(m: Market, side: Side, i: nat, lots: nat, kind: TakeKind)
    requires Inv(m) && TakeEnabled(m.BookOf(side), i, lots, kind)
    ensures Inv(Take(m, side, i, lots, kind))
  {
    var m', t := Take(m, side, i, lots, kind), m.BookOf(side)[i].order.trader;
    LockedCovers(m, side, i, lots);
    var s := m'.traders[t];
    hide BookOk, Funded, Registered, Shrink;
    assert SideInv(m', side) by {
      assert SideInv(m, side);
      ShrinkSideOk(m.params, side, m.BookOf(side), m.counter, m.traders, i, lots, s);
    }
    assert SideInv(m', Opposite(side)) by {
      assert SideInv(m, Opposite(side));
      OtherSideOk(m.params, Opposite(side), m.BookOf(Opposite(side)), m.counter, m.counter, m.traders, t, s);
    }
    assert m'.traders.Keys == m.traders.Keys;
  }

  lemma TakeUncrossed(m: Market, side: Side, i: nat, lots: nat, kind: TakeKind, c: Clock)
    requires Inv(m) && TakeEnabled(m.BookOf(side), i, lots, kind)
    requires Uncrossed(m, c)
    ensures Uncrossed(Take(m, side, i, lots, kind), c)
  {
    var m' := Take(m, side, i, lots, kind);
    forall x, y | 0 <= x < |m'.bids| && 0 <= y < |m'.asks| && !Expired(m'.bids[x].order, c) && !Expired(m'.asks[y].order, c)
      ensures m'.bids[x].id.price < m'.asks[y].id.price
    {
      ShrunkEntries(m.BookOf(side), i, lots, if side.Bid? then x else y);
    }
  }

  lemma TakeLog(m: Market, side: Side, i: nat, lots: nat, kind: TakeKind)
    requires Inv(m) && TakeEnabled(m.BookOf(side), i, lots, kind)
    requires LogInv(m)
    ensures LogInv(Take(m, side, i, lots, kind))
  {
    hide BookOk, Funded, Registered, Shrink, Worth, TakeState;
    var b, other := m.BookOf(side), m.BookOf(Opposite(side));
    assert SideInv(m, side) && SideInv(m, Opposite(side)) && Agrees(Replay(m.log), b, other);
    EntryPositive(side, b, m.counter, i);
    ShrinkAgrees(side, b, other, m.counter, i, lots, Replay(m.log));
    ReplayTake(m.log, b, i, lots, kind);
    FreshIdsQuiet(m.log, TakeEvents(b[i], lots, kind), m.counter);
  }

  lemma EntryPositive(side: Side, book: Book, counter: nat, i: nat)
    requires BookOk(side, book, counter) && i < |book|
    ensures book[i].order.lots > 0 && book[i].id.price > 0
  {
    assert EntryOk(side, book[i], counter);
  }

  lemma ReplayTake(log: seq<Event>, b: Book, i: nat, lots: nat, kind: TakeKind)
    requires TakeEnabled(b, i, lots, kind) && Shown(b, Replay(log)) && b[i].order.lots > 0
    ensures Replay(log + TakeEvents(b[i], lots, kind)) ==
            SetLots(Replay(log), b[i].id.seqNum, b[i].order.lots - lots)
  {
    var events := TakeEvents(b[i], lots, kind);
    if events == [] {
      assert log + [] == log;
    } else {
      ReplayAppend(log, events[0]);
    }
  }

  lemma FreshIdsQuiet(log: seq<Event>, events: seq<Event>, counter: nat)
    requires FreshIds(log, counter) && forall i | 0 <= i < |events| :: !events[i].Place?
    ensures FreshIds(log + events, counter)
  {
    var l := log + events;
    assert forall i | 0 <= i < |l| && l[i].Place? :: i < |log| && l[i] == log[i];
  }

  lemma ShrunkEntries(b: Book, i: nat, lots: nat, j: nat)
    requires i < |b| && lots <= b[i].order.lots && j < |Shrink(b, i, lots)|
    ensures var x := Shrink(b, i, lots)[j];
            (lots < b[i].order.lots && x == b[i].(order := b[i].order.(lots := b[i].order.lots - lots)))
            || exists k | 0 <= k < |b| :: k != i && x == b[k]
  {
    if lots == b[i].order.lots {
      assert Shrink(b, i, lots)[j] == b[if j < i then j else j + 1];
    }
  }

  lemma ShrinkShown(side: Side, b: Book, counter: nat, i: nat, lots: nat, v: View)
    requires BookOk(side, b, counter) && i < |b| && lots <= b[i].order.lots && Shown(b, v)
    ensures Shown(Shrink(b, i, lots), SetLots(v, b[i].id.seqNum, b[i].order.lots - lots))
  {
    var b', v' := Shrink(b, i, lots), SetLots(v, b[i].id.seqNum, b[i].order.lots - lots);
    forall j | 0 <= j < |b'|
      ensures b'[j].id.seqNum in v' && v'[b'[j].id.seqNum] == ViewOf(b'[j])
    {
      ShrunkEntries(b, i, lots, j);
    }
  }

  lemma ShrinkRests(b: Book, i: nat, lots: nat, x: nat)
    requires i < |b| && lots <= b[i].order.lots && Rests(b, x)
    requires x != b[i].id.seqNum || lots < b[i].order.lots
    ensures Rests(Shrink(b, i, lots), x)
  {
    var b' := Shrink(b, i, lots);
    var j :| 0 <= j < |b| && b[j].id.seqNum == x;
    assert b'[if j <= i then j else j - (|b| - |b'|)].id == b[j].id;
  }

  lemma ShrinkAgrees(side: Side, b: Book, other: Book, counter: nat, i: nat, lots: nat, v: View)
    requires BookOk(side, b, counter) && BookOk(Opposite(side), other, counter)
    requires i < |b| && lots <= b[i].order.lots && Agrees(v, b, other)
    ensures Agrees(SetLots(v, b[i].id.seqNum, b[i].order.lots - lots), Shrink(b, i, lots), other)
  {
    var k := b[i].id.seqNum;
    var v' := SetLots(v, k, b[i].order.lots - lots);
    ShrinkShown(side, b, counter, i, lots, v);
    forall j | 0 <= j < |other|
      ensures other[j].id.seqNum in v' && v'[other[j].id.seqNum] == ViewOf(other[j])
    {
      assert EntryOk(Opposite(side), other[j], counter) && EntryOk(side, b[i], counter);
    }
    forall x | x in v'
      ensures Rests(Shrink(b, i, lots), x) || Rests(other, x)
    {
      if Rests(b, x) {
        ShrinkRests(b, i, lots, x);
      }
    }
  }

  /** Taking lots moves no funds between traders and the outside, except that a fill hands the
      locked lots to the taker and brings in what the taker pays. */
  lemma TakeTotals(m: Market, side: Side, i: nat, lots: nat, kind: TakeKind)
    requires Inv(m) && TakeEnabled(m.BookOf(side), i, lots, kind)
    ensures var m', price := Take(m, side, i, lots, kind), m.BookOf(side)[i].id.price;
            && Total(m'.traders, side) + (if kind.ByFill? then Worth(m.params, side, price, lots) else 0)
               == Total(m.traders, side)
            && Total(m'.traders, Opposite(side))
               == Total(m.traders, Opposite(side))
                  + (if kind.ByFill? then Worth(m.params, Opposite(side), price, lots) else 0)
  {
    var m', t := Take(m, side, i, lots, kind), m.BookOf(side)[i].order.trader;
    LockedCovers(m, side, i, lots);
    TotalUpdate(m.traders, side, t, m'.traders[t]);
    TotalUpdate(m.traders, Opposite(side), t, m'.traders[t]);
  }

  // ---------- posting an order ----------

  predicate PostEnabled(m: Market, side: Side, e: Entry) {
    && m.counter < LAST_COUNTER
    && EntryOk(side, e, m.counter + 1) && Counter(e.id.seqNum) == m.counter
    && e.order.trader in m.traders
    && |m.BookOf(side)| < m.params.Capacity(side)
  }

  function PostEvents(e: Entry, clientId: nat): seq<Event> {
    var o, k := e.order, e.id.seqNum;
    [Place(k, clientId, e.id.price, o.lots)]
    + if o.lastValidSlot != 0 || o.lastValidTime != 0 then [TimeInForce(k, o.lastValidSlot, o.lastValidTime)] else []
  }

  function PostState(s: TraderState, side: Side, worth: nat): (r: TraderState)
    ensures r.Locked(side) == s.Locked(side) + worth
    ensures r.Locked(Opposite(side)) == s.Locked(Opposite(side))
    ensures r.Free(side) == s.Free(side) - Min(worth, s.Free(side))
    ensures r.Free(Opposite(side)) == s.Free(Opposite(side))
  {
    s.UseFree(side, Min(worth, s.Free(side))).Lock(side, worth)
  }

  /** Rests an order, locking its worth and paying for it with free funds first. */
  function Post(m: Market, side: Side, e: Entry, clientId: nat): Market
    requires m.params.Valid() && PostEnabled(m, side, e)
  {
    var t := e.order.trader;
    var w := Worth(m.params, side, e.id.price, e.order.lots);
    m.WithBook(side, Insert(m.BookOf(side), e))
     .WithTrader(t, PostState(m.traders[t], side, w))
     .Record(PostEvents(e, clientId))
     .(counter := m.counter + 1)
  }

  lemma PostInv(m: Market, side: Side, e: Entry, clientId: nat)
    requires Inv(m) && PostEnabled(m, side, e)
    ensures Inv(Post(m, side, e, clientId))
  {
    hide BookOk, Funded, Registered, EntryOk, Worth, Insert;
    var m', t := Post(m, side, e, clientId), e.order.trader;
    var s := PostState(m.traders[t], side, Worth(m.params, side, e.id.price, e.order.lots));
    assert m'.traders == m.traders[t := s];
    assert SideInv(m', side) by {
      assert SideInv(m, side);
      InsertSideOk(m.params, side, m.BookOf(side), m.counter, m.traders, e, s);
    }
    assert SideInv(m', Opposite(side)) by {
      assert SideInv(m, Opposite(side));
      OtherSideOk(m.params, Opposite(side), m.BookOf(Opposite(side)), m.counter, m.counter + 1, m.traders, t, s);
    }
    assert m'.traders.Keys == m.traders.Keys;
  }

  /** The price crosses no unexpired order of the opposite book. */
  predicate NoCross(m: Market, side: Side, price: nat, c: Clock) {
    var b := m.BookOf(Opposite(side));
    forall i | 0 <= i < |b| :: !Expired(b[i].order, c) ==> BetterPrice(Opposite(side), price, b[i].id.price)
  }

  lemma InsertedEntries(b: Book, e: Entry, i: nat)
    requires i < |Insert(b, e)|
    ensures Insert(b, e)[i] == e || Insert(b, e)[i] in b
  {
  }

  lemma PostUncrossed(m: Market, side: Side, e: Entry, clientId: nat, c: Clock)
    requires m.params.Valid() && PostEnabled(m, side, e)
    requires Uncrossed(m, c) && NoCross(m, side, e.id.price, c)
    ensures Uncrossed(Post(m, side, e, clientId), c)
  {
    match side {
      case Bid =>
        assert m.BookOf(Opposite(side)) == m.asks;
        InsertBidUncrossed(m.bids, m.asks, e, c);
      case Ask =>
        assert m.BookOf(Opposite(side)) == m.bids;
        InsertAskUncrossed(m.bids, m.asks, e, c);
    }
  }

  lemma InsertBidUncrossed(bids: Book, asks: Book, e: Entry, c: Clock)
    requires UncrossedBooks(bids, asks, c)
    requires forall j | 0 <= j < |asks| :: !Expired(asks[j].order, c) ==> e.id.price < asks[j].id.price
    ensures UncrossedBooks(Insert(bids, e), asks, c)
  {
    forall i | 0 <= i < |Insert(bids, e)|
      ensures Insert(bids, e)[i] == e || Insert(bids, e)[i] in bids
    {
      InsertedEntries(bids, e, i);
    }
  }

  lemma InsertAskUncrossed(bids: Book, asks: Book, e: Entry, c: Clock)
    requires UncrossedBooks(bids, asks, c)
    requires forall i | 0 <= i < |bids| :: !Expired(bids[i].order, c) ==> bids[i].id.price < e.id.price
    ensures UncrossedBooks(bids, Insert(asks, e), c)
  {
    forall j | 0 <= j < |Insert(asks, e)|
      ensures Insert(asks, e)[j] == e || Insert(asks, e)[j] in asks
    {
      InsertedEntries(asks, e, j);
    }
  }

  lemma InsertShown(side: Side, b: Book, counter: nat, e: Entry, v: View)
    requires BookOk(side, b, counter) && Shown(b, v)
    requires EntryOk(side, e, counter + 1) && Counter(e.id.seqNum) == counter
    ensures Shown(Insert(b, e), v[e.id.seqNum := ViewOf(e)])
  {
    forall i | 0 <= i < |Insert(b, e)|
      ensures var x := Insert(b, e)[i]; x == e || (x.id.seqNum != e.id.seqNum && x.id.seqNum in v && v[x.id.seqNum] == ViewOf(x))
    {
      InsertedEntries(b, e, i);
    }
  }

  lemma InsertRests(b: Book, e: Entry, x: nat)
    requires Rests(b, x) || x == e.id.seqNum
    ensures Rests(Insert(b, e), x)
  {
    var n := InsertPos(b, e.id);
    if x == e.id.seqNum {
      assert Insert(b, e)[n] == e;
    } else {
      var j :| 0 <= j < |b| && b[j].id.seqNum == x;
      assert Insert(b, e)[if j < n then j else j + 1] == b[j];
    }
  }

  lemma InsertAgrees(side: Side, b: Book, other: Book, counter: nat, e: Entry, v: View)
    requires BookOk(side, b, counter) && BookOk(Opposite(side), other, counter)
    requires EntryOk(side, e, counter + 1) && Counter(e.id.seqNum) == counter && Agrees(v, b, other)
    ensures Agrees(v[e.id.seqNum := ViewOf(e)], Insert(b, e), other)
  {
    var v' := v[e.id.seqNum := ViewOf(e)];
    InsertShown(side, b, counter, e, v);
    forall j | 0 <= j < |other|
      ensures other[j].id.seqNum in v' && v'[other[j].id.seqNum] == ViewOf(other[j])
    {
      assert EntryOk(Opposite(side), other[j], counter);
    }
    forall x | x in v'
      ensures Rests(Insert(b, e), x) || Rests(other, x)
    {
      if Rests(b, x) || x == e.id.seqNum {
        InsertRests(b, e, x);
      }
    }
  }

  lemma ReplayPost(log: seq<Event>, e: Entry, clientId: nat)
    ensures Replay(log + PostEvents(e, clientId)) == Replay(log)[e.id.seqNum := ViewOf(e)]
  {
    var events := PostEvents(e, clientId);
    ReplayAppend(log, events[0]);
    if |events| == 2 {
      assert log + events == log + [events[0]] + [events[1]];
      ReplayAppend(log + [events[0]], events[1]);
    } else {
      assert log + events == log + [events[0]];
    }
  }

  lemma PostLog(m: Market, side: Side, e: Entry, clientId: nat)
    requires Inv(m) && PostEnabled(m, side, e) && LogInv(m)
    ensures LogInv(Post(m, side, e, clientId))
  {
    ReplayPost(m.log, e, clientId);
    assert SideInv(m, side) && SideInv(m, Opposite(side));
    InsertAgrees(side, m.BookOf(side), m.BookOf(Opposite(side)), m.counter, e, Replay(m.log));
    FreshIdsPost(m, side, e, clientId);
  }

  lemma FreshIdsPost(m: Market, side: Side, e: Entry, clientId: nat)
    requires m.params.Valid() && PostEnabled(m, side, e) && FreshIds(m.log, m.counter)
    ensures FreshIds(Post(m, side, e, clientId).log, m.counter + 1)
  {
    var log := Post(m, side, e, clientId).log;
    assert forall i | 0 <= i < |log| && log[i].Place? :: i <= |m.log| && (i < |m.log| ==> log[i] == m.log[i]);
  }

  lemma PostTotals(m: Market, side: Side, e: Entry, clientId: nat)
    requires Inv(m) && PostEnabled(m, side, e)
    ensures var m', t := Post(m, side, e, clientId), e.order.trader;
            var w := Worth(m.params, side, e.id.price, e.order.lots);
            && Total(m'.traders, side) == Total(m.traders, side) + w - Min(w, m.traders[t].Free(side))
            && Total(m'.traders, Opposite(side)) == Total(m.traders, Opposite(side))
  {
    var m', t := Post(m, side, e, clientId), e.order.trader;
    TotalUpdate(m.traders, side, t, m'.traders[t]);
    TotalUpdate(m.traders, Opposite(side), t, m'.traders[t]);
  }

  // ---------- changes of free balances and seats ----------

  /** A change of free balances, fees or unrelated log entries keeps the invariants. */
  lemma FreeChangeInv(m: Market, t: TraderId, s: TraderState)
    requires Inv(m) && t in m.traders
    requires s.quoteLocked == m.traders[t].quoteLocked && s.baseLocked == m.traders[t].baseLocked
    ensures Inv(m.WithTrader(t, s))
  {
    OtherSideOk(m.params, Bid, m.bids, m.counter, m.counter, m.traders, t, s);
    OtherSideOk(m.params, Ask, m.asks, m.counter, m.counter, m.traders, t, s);
    assert m.WithTrader(t, s).traders.Keys == m.traders.Keys;
  }

  /** Gives a new trader an empty seat; fails when every seat is taken. */
  function Register(m: Market, t: TraderId): Option<Market> {
    if t in m.traders then Some(m)
    else if |m.traders| >= m.params.seatCapacity then None
    else Some(m.WithTrader(t, EMPTY))
  }

  lemma RegisterInv(m: Market, t: TraderId)
    requires Inv(m) && Register(m, t).Some?
    ensures Inv(Register(m, t).value) && t in Register(m, t).value.traders
    ensures forall side :: Total(Register(m, t).value.traders, side) == Total(m.traders, side)
  {
    if t !in m.traders {
      var m' := Register(m, t).value;
      assert m'.traders.Keys == m.traders.Keys + {t};
      SeatedSideOk(m, Bid, t);
      SeatedSideOk(m, Ask, t);
      forall side
        ensures Total(m'.traders, side) == Total(m.traders, side)
      {
        TotalUpdate(m.traders, side, t, EMPTY);
      }
    }
  }

  lemma SeatedSideOk(m: Market, side: Side, t: TraderId)
    requires Inv(m) && t !in m.traders
    ensures SideOk(m.params, side, m.BookOf(side), m.counter, m.traders[t := EMPTY])
  {
    assert SideInv(m, side);
    LockedInAbsent(m.params, side, m.BookOf(side), t);
  }

  /** A seat can be given up once it holds nothing: no resting order names its trader. */
  lemma UnseatInv(m: Market, t: TraderId)
    requires Inv(m) && t in m.traders && m.traders[t] == EMPTY
    ensures Inv(m.(traders := m.traders - {t}))
    ensures forall side :: Total(m.traders - {t}, side) == Total(m.traders, side)
  {
    hide SideOk, Total;
    var m' := m.(traders := m.traders - {t});
    assert m'.traders.Keys == m.traders.Keys - {t};
    UnseatSideOk(m, Bid, t);
    UnseatSideOk(m, Ask, t);
    forall side
      ensures Total(m'.traders, side) == Total(m.traders, side)
    {
      TotalWithout(m.traders, side, t);
    }
  }

  lemma UnseatSideOk(m: Market, side: Side, t: TraderId)
    requires Inv(m) && t in m.traders && m.traders[t] == EMPTY
    ensures SideOk(m.params, side, m.BookOf(side), m.counter, m.traders - {t})
  {
    hide LockedIn, BookOk;
    var b := m.BookOf(side);
    assert SideInv(m, side);
    forall i | 0 <= i < |b|
      ensures b[i].order.trader != t
    {
      BookEntries(side, b, m.counter);
      LockedInPositive(m.params, side, b, m.counter, i);
    }
  }

  lemma BookEntries(side: Side, book: Book, counter: nat)
    requires BookOk(side, book, counter)
    ensures forall k | 0 <= k < |book| :: EntryOk(side, book[k], counter)
  {
  }
}
