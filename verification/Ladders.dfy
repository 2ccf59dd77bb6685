/** The aggregated view of the books: the best price levels with their total sizes. */
module Ladders {
  import opened Quantities
  import opened OrderIds
  import opened Books
  import opened Markets
  import opened Packets

  datatype Level = Level(price: nat, lots: nat)

  datatype Ladder = Ladder(bids: seq<Level>, asks: seq<Level>)

  /** The price and size of every unexpired order, in book order. */
  function LiveOrders(book: Book, c: Clock): seq<Level> {
    if book == [] then []
    else if Expired(book[0].order, c) then LiveOrders(book[1..], c)
    else [Level(book[0].id.price, book[0].order.lots)] + LiveOrders(book[1..], c)
  }

  /** Puts an order in front of a ladder, into its first level when the price is the same. */
  function Join(first: Level, rest: seq<Level>): seq<Level> {
    if rest != [] && rest[0].price == first.price then
      [Level(first.price, first.lots + rest[0].lots)] + rest[1..]
    else
      [first] + rest
  }

  /** Joins neighbours of equal price in one pass. */
  function Grouped(s: seq<Level>): seq<Level> {
    if s == [] then [] else Join(s[0], Grouped(s[1..]))
  }

  function SideLadder(book: Book, levels: nat, c: Clock): seq<Level> {
    var all := Grouped(LiveOrders(book, c));
    if |all| <= levels then all else all[..levels]
  }

  function TypedLadder(m: Market, levels: nat, lastValidSlot: Option<nat>, lastValidTime: Option<nat>): Ladder {
    var c := Clock(OrZero(lastValidSlot), OrZero(lastValidTime));
    Ladder(SideLadder(m.bids, levels, c), SideLadder(m.asks, levels, c))
  }

  // ---------- what a ladder should show ----------

  /** The unexpired size resting at a price, anywhere in a book. */
  function SizeAt(book: Book, c: Clock, price: nat): nat {
    if book == [] then 0
    else (if book[0].id.price == price && !Expired(book[0].order, c) then book[0].order.lots else 0)
         + SizeAt(book[1..], c, price)
  }

  predicate Listed(ladder: seq<Level>, price: nat) {
    exists i | 0 <= i < |ladder| :: ladder[i].price == price
  }

  predicate BestFirst(side: Side, ladder: seq<Level>) {
    forall i, j | 0 <= i < j < |ladder| :: BetterPrice(side, ladder[i].price, ladder[j].price)
  }

  predicate AllBetter(side: Side, ladder: seq<Level>, price: nat) {
    forall i | 0 <= i < |ladder| :: BetterPrice(side, ladder[i].price, price)
  }

  /** Levels in strict priority order, each with the whole size at its price, and every live price
      listed unless the ladder is full of better ones. */
  ghost predicate Shows(side: Side, book: Book, levels: nat, c: Clock, ladder: seq<Level>) {
    && |ladder| <= levels
    && BestFirst(side, ladder)
    && (forall i | 0 <= i < |ladder| :: ladder[i].lots > 0 && ladder[i].lots == SizeAt(book, c, ladder[i].price))
    && (forall price | SizeAt(book, c, price) > 0 ::
          Listed(ladder, price) || (|ladder| == levels && AllBetter(side, ladder, price)))
  }

  // ---------- one-pass grouping is correct because the book is sorted ----------

  function TotalAt(s: seq<Level>, price: nat): nat {
    if s == [] then 0 else (if s[0].price == price then s[0].lots else 0) + TotalAt(s[1..], price)
  }

  predicate Worsening(side: Side, s: seq<Level>) {
    forall i, j | 0 <= i <= j < |s| :: !BetterPrice(side, s[j].price, s[i].price)
  }

  predicate Positive(s: seq<Level>) {
    forall i | 0 <= i < |s| :: s[i].lots > 0
  }

  lemma {:induction false} LiveOrdersTotal(book: Book, c: Clock, price: nat)
    ensures TotalAt(LiveOrders(book, c), price) == SizeAt(book, c, price)
  {
    if book != [] {
      LiveOrdersTotal(book[1..], c, price);
      if !Expired(book[0].order, c) {
        assert LiveOrders(book, c)[1..] == LiveOrders(book[1..], c);
      }
    }
  }

  lemma {:induction false} LiveOrderEntry(book: Book, c: Clock, i: nat) returns (k: nat)
    requires i < |LiveOrders(book, c)|
    ensures k < |book| && LiveOrders(book, c)[i] == Level(book[k].id.price, book[k].order.lots)
  {
    if !Expired(book[0].order, c) && i == 0 {
      k := 0;
    } else {
      k := LiveOrderEntry(book[1..], c, if Expired(book[0].order, c) then i else i - 1);
      k := k + 1;
    }
  }

  lemma {:induction false} LiveOrdersSorted(side: Side, book: Book, c: Clock, counter: nat)
    requires BookOk(side, book, counter)
    ensures Worsening(side, LiveOrders(book, c)) && Positive(LiveOrders(book, c))
  {
    hide Ahead, BetterPrice;
    var s := LiveOrders(book, c);
    forall i | 0 <= i < |s|
      ensures s[i].lots > 0
    {
      var k := LiveOrderEntry(book, c, i);
    }
    if book != [] {
      var rest := LiveOrders(book[1..], c);
      LiveOrdersSorted(side, book[1..], c, counter);
      var off := |s| - |rest|;
      forall i, j | 0 <= i <= j < |s|
        ensures !BetterPrice(side, s[j].price, s[i].price)
      {
        if i >= off {
          assert s[i] == rest[i - off] && s[j] == rest[j - off];
        } else {
          var k := LiveOrderEntry(book, c, j);
          PricesWorsen(side, book, counter, 0, k);
        }
      }
    }
  }

  lemma {:induction false} AbsentTotal(s: seq<Level>, price: nat)
    requires forall i | 0 <= i < |s| :: s[i].price != price
    ensures TotalAt(s, price) == 0
  {
    if s != [] {
      AbsentTotal(s[1..], price);
    }
  }

  /** Grouping keeps the first price and every price. */
  lemma {:induction false} GroupedPrices(s: seq<Level>, price: nat)
    requires Positive(s)
    ensures s != [] ==> Grouped(s) != [] && Grouped(s)[0].price == s[0].price
    ensures TotalAt(s, price) > 0 ==> Listed(Grouped(s), price)
  {
    if s != [] {
      var rest, g := Grouped(s[1..]), Grouped(s);
      GroupedPrices(s[1..], price);
      if price == s[0].price {
        assert g[0].price == price;
      } else if Listed(rest, price) {
        var i :| 0 <= i < |rest| && rest[i].price == price;
        assert g[i + |g| - |rest|].price == price;
      }
    }
  }

  lemma JoinOrder(side: Side, first: Level, rest: seq<Level>)
    requires BestFirst(side, rest) && (rest != [] ==> !BetterPrice(side, rest[0].price, first.price))
    ensures BestFirst(side, Join(first, rest))
  {
    var g := Join(first, rest);
    var off := |g| - |rest|;
    assert forall i | 1 <= i < |g| :: g[i] == rest[i - off];
    forall i, j | 0 <= i < j < |g|
      ensures BetterPrice(side, g[i].price, g[j].price)
    {
      if i == 0 && j > off {
        assert BetterPrice(side, rest[0].price, rest[j - off].price);
      }
    }
  }

  lemma {:induction false} GroupedOrder(side: Side, s: seq<Level>)
    requires Worsening(side, s) && Positive(s)
    ensures BestFirst(side, Grouped(s))
  {
    hide Listed, TotalAt, BetterPrice, Join;
    if s != [] {
      var t := s[1..];
      GroupedPrices(t, 0);
      GroupedOrder(side, t);
      assert |s| > 1 ==> t[0] == s[1] && !BetterPrice(side, s[1].price, s[0].price);
      JoinOrder(side, s[0], Grouped(t));
    }
  }

  lemma {:induction false} GroupedTotals(side: Side, s: seq<Level>, i: nat)
    requires Worsening(side, s) && Positive(s) && i < |Grouped(s)|
    ensures Grouped(s)[i].lots > 0 && Grouped(s)[i].lots == TotalAt(s, Grouped(s)[i].price)
  {
    hide Listed;
    var rest, g := Grouped(s[1..]), Grouped(s);
    GroupedOrder(side, s);
    GroupedPrices(s, 0);
    var off := |g| - |rest|;
    if i > 0 || off == 0 {
      assert i > 0 ==> g[i] == rest[i - off] && BetterPrice(side, g[0].price, g[i].price);
      GroupedTotals(side, s[1..], i - off);
    } else {
      FirstAlone(side, s);
    }
  }

  /** A first price that the rest does not begin with does not come back later. */
  lemma FirstAlone(side: Side, s: seq<Level>)
    requires Worsening(side, s) && Positive(s) && s != []
    requires |Grouped(s)| == 1 + |Grouped(s[1..])|
    ensures TotalAt(s[1..], s[0].price) == 0
  {
    GroupedPrices(s[1..], 0);
    forall i | 0 <= i < |s[1..]|
      ensures s[1..][i].price != s[0].price
    {
      assert !BetterPrice(side, s[1].price, s[0].price) && !BetterPrice(side, s[i + 1].price, s[1].price);
    }
    AbsentTotal(s[1..], s[0].price);
  }

  /** The ladder of a sorted book shows its best `levels` prices. */
  lemma SideLadderShows(side: Side, book: Book, counter: nat, levels: nat, c: Clock)
    requires BookOk(side, book, counter)
    ensures Shows(side, book, levels, c, SideLadder(book, levels, c))
  {
    hide BetterPrice, LiveOrders, Grouped, BookOk, TotalAt, SizeAt;
    var s := LiveOrders(book, c);
    var all, ladder := Grouped(s), SideLadder(book, levels, c);
    LiveOrdersSorted(side, book, c, counter);
    GroupedOrder(side, s);
    forall price
      ensures TotalAt(s, price) == SizeAt(book, c, price)
      ensures TotalAt(s, price) > 0 ==> Listed(all, price)
    {
      LiveOrdersTotal(book, c, price);
      GroupedPrices(s, price);
    }
    forall i | 0 <= i < |ladder|
      ensures ladder[i].lots > 0 && ladder[i].lots == SizeAt(book, c, ladder[i].price)
    {
      GroupedTotals(side, s, i);
      LiveOrdersTotal(book, c, ladder[i].price);
    }
    forall price | SizeAt(book, c, price) > 0
      ensures Listed(ladder, price) || (|ladder| == levels && AllBetter(side, ladder, price))
    {
      assert TotalAt(s, price) == SizeAt(book, c, price);
      assert Listed(all, price);
      var i :| 0 <= i < |all| && all[i].price == price;
      if i < |ladder| {
        assert ladder[i].price == price;
      }
    }
  }

  lemma TypedLadderShows(m: Market, levels: nat, lastValidSlot: Option<nat>, lastValidTime: Option<nat>)
    requires Inv(m)
    ensures var ladder := TypedLadder(m, levels, lastValidSlot, lastValidTime);
            var c := Clock(OrZero(lastValidSlot), OrZero(lastValidTime));
            Shows(Bid, m.bids, levels, c, ladder.bids) && Shows(Ask, m.asks, levels, c, ladder.asks)
  {
    hide Shows, SideLadder, BookOk;
    var c := Clock(OrZero(lastValidSlot), OrZero(lastValidTime));
    assert SideInv(m, Bid) && SideInv(m, Ask);
    SideLadderShows(Bid, m.bids, m.counter, levels, c);
    SideLadderShows(Ask, m.asks, m.counter, levels, c);
  }
}
