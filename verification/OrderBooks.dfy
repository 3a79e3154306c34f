/** The mutable order book: two containers of order objects, changed in place
    (`source/order_matcher/order_book.cpp`). */
module OrderBooks {
  import opened Wrappers
  import opened Orders
  import opened Matching

  /** The objects `s`, read one by one, have the values `v`. */
  ghost predicate Holds(s: seq<Order>, v: seq<OrderState>)
    reads s
  {
    |s| == |v| && forall i | 0 <= i < |s| :: s[i].View() == v[i]
  }

  ghost predicate Distinct(s: seq<Order>) {
    forall i, j | 0 <= i < j < |s| :: s[i] != s[j]
  }

  ghost function Objects(s: seq<Order>): set<Order> {
    set i | 0 <= i < |s| :: s[i]
  }

  /** One container: distinct objects holding the values `v`. */
  ghost predicate SideValid(s: seq<Order>, v: seq<OrderState>)
    reads s
  {
    Distinct(s) && Holds(s, v) && AllBalanced(v)
  }

  class OrderBook {
    var bidOrders: seq<Order>
    var askOrders: seq<Order>
    ghost var book: Book
    ghost var Repr: set<object>

    ghost predicate Valid()
      reads this, Repr
      ensures Valid() ==> this in Repr
    {
      && this in Repr && Objects(bidOrders) <= Repr && Objects(askOrders) <= Repr
      && Objects(bidOrders) !! Objects(askOrders)
      && SidesValid()
    }

    ghost predicate SidesValid()
      reads this, Objects(bidOrders), Objects(askOrders)
    {
      SideValid(bidOrders, book.bids) && SideValid(askOrders, book.asks)
    }

    constructor ()
      ensures Valid() && fresh(Repr) && book == Book([], [])
    {
      bidOrders, askOrders := [], [];
      book := Book([], []);
      Repr := {this};
    }

    /** The book keeps its own copy of the order. */
    method Insert(order: Order)
      requires Valid() && Balanced(order.View())
      modifies this
      ensures Valid() && fresh(Repr - old(Repr))
      ensures book == Matching.Insert(old(book), order.View())
    {
      var copy := new Order.Copy(order.View());
      Place(copy);
    }

    method Place(copy: Order)
      requires Valid() && Balanced(copy.View()) && copy !in Repr
      modifies this
      ensures Valid() && Repr == old(Repr) + {copy}
      ensures book == Matching.Insert(old(book), copy.View())
    {
      bidOrders, askOrders := InsertInto(bidOrders, askOrders, book, copy);
      book := Matching.Insert(book, copy.View());
      Repr := Repr + {copy};
    }

    static method InsertInto(bids: seq<Order>, asks: seq<Order>, ghost b: Book, copy: Order)
      returns (newBids: seq<Order>, newAsks: seq<Order>)
      requires SideValid(bids, b.bids) && SideValid(asks, b.asks) && Objects(bids) !! Objects(asks)
      requires copy !in Objects(bids) + Objects(asks) && Balanced(copy.View())
      ensures SideValid(newBids, Matching.Insert(b, copy.View()).bids)
      ensures SideValid(newAsks, Matching.Insert(b, copy.View()).asks)
      ensures Objects(newBids) !! Objects(newAsks)
      ensures Objects(newBids) + Objects(newAsks) == Objects(bids) + Objects(asks) + {copy}
    {
      newBids, newAsks := bids, asks;
      if copy.side == Buy {
        newBids := InsertIn(bids, b.bids, copy);
      } else {
        newAsks := InsertIn(asks, b.asks, copy);
      }
    }

    static method InsertIn(s: seq<Order>, ghost v: seq<OrderState>, copy: Order) returns (t: seq<Order>)
      requires SideValid(s, v) && copy !in Objects(s) && Balanced(copy.View())
      ensures SideValid(t, Inserted(v, copy.View()))
      ensures Objects(t) == Objects(s) + {copy}
    {
      var i := UpperBound(s, v, copy.side, copy.price);
      t := InsertAt(s, i, copy);
      forall o | o in Objects(s) ensures o in Objects(t) {
        var k :| 0 <= k < |s| && s[k] == o;
        assert t[if k < i then k else k + 1] == o;
      }
    }

    /** The place a multimap gives to a new key. */
    static method UpperBound(s: seq<Order>, ghost v: seq<OrderState>, side: Side, price: real) returns (i: nat)
      requires Holds(s, v)
      ensures i == InsertPosition(v, side, price) <= |s|
    {
      i := 0;
      while i < |s| && !Precedes(side, price, s[i].price)
        invariant i <= InsertPosition(v, side, price) <= |s|
      {
        i := i + 1;
      }
    }

    /** The first resting order of that side with these two ids, as a reference into the book. */
    method Find(clientId: string, session: nat, side: Side) returns (found: bool, order: Order?)
      requires Valid()
      ensures side == NonSupported ==> !found
      ensures side == Buy ==>
                var i := FirstMatch(book.bids, session, clientId);
                found == (i < |bidOrders|) && (found ==> order == bidOrders[i])
      ensures side == Sell ==>
                var i := FirstMatch(book.asks, session, clientId);
                found == (i < |askOrders|) && (found ==> order == askOrders[i])
    {
      if side == Buy {
        var i := Search(bidOrders, book.bids, clientId, session);
        if i < |bidOrders| { return true, bidOrders[i]; }
      } else if side == Sell {
        var i := Search(askOrders, book.asks, clientId, session);
        if i < |askOrders| { return true, askOrders[i]; }
      }
      return false, null;
    }

    static method Search(s: seq<Order>, ghost v: seq<OrderState>, clientId: string, session: nat) returns (i: nat)
      requires Holds(s, v)
      ensures i == FirstMatch(v, session, clientId) <= |s|
    {
      i := 0;
      while i < |s| && !(s[i].session == session && s[i].clientId == clientId)
        invariant i <= FirstMatch(v, session, clientId) <= |s|
      {
        i := i + 1;
      }
    }

    /** Marks a resting order through the reference `Find` returned. */
    method Cancel(order: Order, side: Side, ghost i: nat)
      requires Valid() && side != NonSupported && i < |book.Side(side)|
      requires order == if side == Buy then bidOrders[i] else askOrders[i]
      modifies this, order
      ensures Valid() && Repr == old(Repr) && bidOrders == old(bidOrders) && askOrders == old(askOrders)
      ensures book == Mark(old(book), side, i) && order.View() == old(order.View()).(cancelled := true)
    {
      assert order in if side == Buy then Objects(bidOrders) else Objects(askOrders);
      order.Cancel();
      book := Mark(book, side, i);
      assert SideValid(bidOrders, book.bids);
      assert SideValid(askOrders, book.asks);
    }

    /** Removes the first order of the argument's own side that carries its two ids. */
    method Erase(order: Order)
      requires Valid()
      modifies this
      ensures Valid() && Repr == old(Repr)
      ensures book == Matching.Erase(old(book), order.View())
    {
      var clientId, session := order.clientId, order.session;
      book := Matching.Erase(book, order.View());
      if order.side == Buy {
        bidOrders := EraseIn(bidOrders, old(book).bids, clientId, session);
      } else if order.side == Sell {
        askOrders := EraseIn(askOrders, old(book).asks, clientId, session);
      }
    }

    static method EraseIn(s: seq<Order>, ghost v: seq<OrderState>, clientId: string, session: nat)
      returns (t: seq<Order>)
      requires SideValid(s, v)
      ensures SideValid(t, EraseFirst(v, session, clientId))
      ensures Objects(t) <= Objects(s)
    {
      var i := Search(s, v, clientId, session);
      t := s;
      if i < |s| { t := Without(s, i); }
    }

    method MatchTwoOrders(bid: Order, ask: Order)
      requires bid != ask
      modifies bid, ask
      ensures bid.View() == TradedBid(old(bid.View()), old(ask.View()))
      ensures ask.View() == TradedAsk(old(bid.View()), old(ask.View()))
    {
      var price := ask.price;
      var quantity := 0;
      if bid.open > ask.open {
        quantity := ask.open;
      } else {
        quantity := bid.open;
      }
      bid.Execute(price, quantity);
      ask.Execute(price, quantity);
    }

    /** One round: the two tops trade, and whichever is filled leaves its container. */
    method MatchTops() returns (bid: OrderState, ask: OrderState)
      requires Valid() && book.Crossed()
      modifies Repr
      ensures Valid() && Repr == old(Repr)
      ensures book == Round(old(book)) && [bid, ask] == RoundTrades(old(book))
    {
      var b, a := bidOrders[0], askOrders[0];
      assert b in Objects(bidOrders) && a in Objects(askOrders);
      MatchTwoOrders(b, a);
      bid, ask := b.View(), a.View();
      book := Round(book);
      bidOrders := SettleIn(bidOrders, old(book).bids);
      askOrders := SettleIn(askOrders, old(book).asks);
    }

    static method SettleIn(s: seq<Order>, ghost v: seq<OrderState>) returns (t: seq<Order>)
      requires s != [] && |s| == |v| && Distinct(s) && AllBalanced(v) && Balanced(s[0].View())
      requires forall i | 1 <= i < |s| :: s[i].View() == v[i]
      ensures SideValid(t, Settle(v, s[0].View()))
      ensures Objects(t) <= Objects(s)
    {
      t := s;
      if Filled(s[0].View()) {
        t := s[1..];
      }
    }

    static lemma MatchUnfolds(b: Book)
      requires b.Balanced() && b.Crossed()
      ensures Round(b).Balanced() && |Round(b).bids| + |Round(b).asks| < |b.bids| + |b.asks|
      ensures Match(b) == Matched(Match(Round(b)).book, RoundTrades(b) + Match(Round(b)).trades)
    {
      RoundShrinks(b);
    }

    /** Crosses the tops until the book is uncrossed, appending a copy of both orders of every trade. */
    method ProcessMatching(queue: seq<OrderState>) returns (processed: seq<OrderState>, any: bool)
      requires Valid()
      modifies Repr
      ensures Valid() && Repr == old(Repr)
      ensures book == Match(old(book)).book
      ensures processed == queue + Match(old(book)).trades
      ensures any == (processed != [])
    {
      processed := queue;
      while true
        invariant Valid() && Repr == old(Repr)
        invariant book.Balanced() && Match(book).book == Match(old(book)).book
        invariant processed + Match(book).trades == queue + Match(old(book)).trades
        decreases |bidOrders| + |askOrders|
      {
        if |bidOrders| == 0 || |askOrders| == 0 {
          return processed, processed != [];
        }
        if bidOrders[0].price >= askOrders[0].price {
          MatchUnfolds(book);
          var bid, ask := MatchTops();
          processed := processed + [bid, ask];
        } else {
          return processed, processed != [];
        }
      }
    }
  }
}
