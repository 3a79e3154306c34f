/** The limit order book as a value: insertion in price-time order and the matching loop
    (`source/order_matcher/order_book.cpp`, `source/order_matcher/order_book.h`). */
module Matching {
  import opened Wrappers
  import opened Orders

  /** Both containers from the top: the first bid and the first ask are the next to trade. */
  datatype Book = Book(bids: seq<OrderState>, asks: seq<OrderState>) {
    predicate Balanced() {
      AllBalanced(bids) && AllBalanced(asks)
    }

    predicate Crossed() {
      bids != [] && asks != [] && bids[0].price >= asks[0].price
    }

    function Side(side: Side): seq<OrderState> {
      if side == Buy then bids else asks
    }
  }

  predicate AllBalanced(s: seq<OrderState>) {
    forall i | 0 <= i < |s| :: Orders.Balanced(s[i])
  }

  // ----- Insertion -----

  /** The comparators of the two multimaps: greatest bid first, lowest ask first. */
  predicate Precedes(side: Side, a: real, b: real) {
    if side == Buy then a > b else a < b
  }

  /** Where a multimap puts a new key: after every key that does not come later, so after its equals. */
  function InsertPosition(s: seq<OrderState>, side: Side, price: real): (i: nat)
    ensures i <= |s|
    ensures forall j | 0 <= j < i :: !Precedes(side, price, s[j].price)
    ensures i < |s| ==> Precedes(side, price, s[i].price)
  {
    if s == [] || Precedes(side, price, s[0].price) then 0
    else 1 + InsertPosition(s[1..], side, price)
  }

  function InsertAt<T>(s: seq<T>, i: nat, x: T): (t: seq<T>)
    requires i <= |s|
    ensures |t| == |s| + 1 && t[i] == x
    ensures forall k | 0 <= k < i :: t[k] == s[k]
    ensures forall k {:trigger t[k]} | i < k < |t| :: t[k] == s[k - 1]
  {
    seq(|s| + 1, k requires 0 <= k <= |s| => if k < i then s[k] else if k == i then x else s[k - 1])
  }

  function Inserted(s: seq<OrderState>, o: OrderState): seq<OrderState> {
    InsertAt(s, InsertPosition(s, o.side, o.price), o)
  }

  /** Every side other than BUY goes to the asks. */
  function Insert(b: Book, o: OrderState): Book {
    if o.side == Buy then b.(bids := Inserted(b.bids, o)) else b.(asks := Inserted(b.asks, o))
  }

  // ----- Finding and erasing -----

  /** The first order with this session and client id, or |s|. */
  function FirstMatch(s: seq<OrderState>, session: nat, clientId: string): (i: nat)
    ensures i <= |s|
    ensures i < |s| ==> s[i].session == session && s[i].clientId == clientId
    ensures forall j | 0 <= j < i :: s[j].session != session || s[j].clientId != clientId
  {
    if s == [] || (s[0].session == session && s[0].clientId == clientId) then 0
    else 1 + FirstMatch(s[1..], session, clientId)
  }

  function Without<T>(s: seq<T>, i: nat): (t: seq<T>)
    requires i < |s|
    ensures |t| == |s| - 1
    ensures forall k | 0 <= k < i :: t[k] == s[k]
    ensures forall k {:trigger t[k]} | i <= k < |t| :: t[k] == s[k + 1]
  {
    seq(|s| - 1, k requires 0 <= k < |s| - 1 => if k < i then s[k] else s[k + 1])
  }

  function EraseFirst(s: seq<OrderState>, session: nat, clientId: string): seq<OrderState> {
    var i := FirstMatch(s, session, clientId);
    if i < |s| then Without(s, i) else s
  }

  /** Erasing looks on the order's own side and takes the first order with its two ids. */
  function Erase(b: Book, o: OrderState): Book {
    match o.side
    case Buy => b.(bids := EraseFirst(b.bids, o.session, o.clientId))
    case Sell => b.(asks := EraseFirst(b.asks, o.session, o.clientId))
    case NonSupported => b
  }

  /** The located order marked as cancelled inside the book. */
  function Mark(b: Book, side: Side, i: nat): Book
    requires i < |b.Side(side)|
  {
    var o := b.Side(side)[i].(cancelled := true);
    if side == Buy then b.(bids := b.bids[i := o]) else b.(asks := b.asks[i := o])
  }

  lemma EraseBalanced(b: Book, o: OrderState)
    requires b.Balanced()
    ensures Erase(b, o).Balanced()
  {
  }

  // ----- Matching -----

  /** The quantity of one trade: the smaller of the two open quantities. */
  function TradeQuantity(bid: OrderState, ask: OrderState): int {
    if bid.open > ask.open then ask.open else bid.open
  }

  /** Both orders after they trade, at the ask's price. */
  function TradedBid(bid: OrderState, ask: OrderState): OrderState {
    Executed(bid, ask.price, TradeQuantity(bid, ask))
  }

  function TradedAsk(bid: OrderState, ask: OrderState): OrderState {
    Executed(ask, ask.price, TradeQuantity(bid, ask))
  }

  /** The top of a side after it became `o`: gone when filled. */
  function Settle(s: seq<OrderState>, o: OrderState): seq<OrderState>
    requires s != []
  {
    if Filled(o) then s[1..] else s[0 := o]
  }

  /** One round of the loop on a crossed book. */
  function Round(b: Book): Book
    requires b.Crossed()
  {
    Book(Settle(b.bids, TradedBid(b.bids[0], b.asks[0])), Settle(b.asks, TradedAsk(b.bids[0], b.asks[0])))
  }

  /** The two copies one round hands to the caller, bid first. */
  function RoundTrades(b: Book): seq<OrderState>
    requires b.Crossed()
  {
    [TradedBid(b.bids[0], b.asks[0]), TradedAsk(b.bids[0], b.asks[0])]
  }

  datatype Matched = Matched(book: Book, trades: seq<OrderState>)

  /** Every round fills and removes an order: whichever side had less open, whatever the signs. */
  lemma RoundShrinks(b: Book)
    requires b.Balanced() && b.Crossed()
    ensures Round(b).Balanced()
    ensures |Round(b).bids| + |Round(b).asks| < |b.bids| + |b.asks|
  {
    var bid, ask := b.bids[0], b.asks[0];
    assert Filled(TradedBid(bid, ask)) || Filled(TradedAsk(bid, ask));
    assert Balanced(TradedBid(bid, ask)) && Balanced(TradedAsk(bid, ask));
  }

  /** The whole loop: rounds until the book is no longer crossed. */
  function Match(b: Book): (m: Matched)
    requires b.Balanced()
    ensures m.book.Balanced() && !m.book.Crossed()
    decreases |b.bids| + |b.asks|
  {
    if !b.Crossed() then Matched(b, [])
    else
      RoundShrinks(b);
      var rest := Match(Round(b));
      Matched(rest.book, RoundTrades(b) + rest.trades)
  }

  /** Adding an order is one insertion and one run of the loop. */
  function Submit(b: Book, o: OrderState): Matched
    requires b.Balanced() && Balanced(o)
  {
    InsertBalanced(b, o);
    Match(Insert(b, o))
  }

  lemma InsertBalanced(b: Book, o: OrderState)
    requires b.Balanced() && Balanced(o)
    ensures Insert(b, o).Balanced()
  {
  }

  // ----- What a book looks like between tasks -----

  /** `a` trades before `b`: better price, or the same price and an earlier number. */
  predicate Before(side: Side, a: OrderState, b: OrderState) {
    Precedes(side, a.price, b.price) || (a.price == b.price && a.id < b.id)
  }

  ghost predicate Sorted(s: seq<OrderState>, side: Side) {
    forall i, j | 0 <= i < j < |s| :: Before(side, s[i], s[j])
  }

  predicate Resting(o: OrderState, side: Side, last: nat) {
    && o.side == side && o.id <= last && !o.cancelled
    && Balanced(o) && o.open > 0 && o.executed >= 0
  }

  /** One side: in price-time order, every order live, no number twice. */
  ghost predicate SideOrdered(s: seq<OrderState>, side: Side, last: nat) {
    && Sorted(s, side)
    && (forall i | 0 <= i < |s| :: Resting(s[i], side, last))
    && (forall i, j | 0 <= i < j < |s| :: s[i].id != s[j].id)
  }

  function Ids(s: seq<OrderState>): set<nat> {
    set i | 0 <= i < |s| :: s[i].id
  }

  /** Everything but "not crossed": holds between tasks and between rounds. */
  ghost predicate Ordered(b: Book, last: nat) {
    SideOrdered(b.bids, Buy, last) && SideOrdered(b.asks, Sell, last) && Ids(b.bids) !! Ids(b.asks)
  }

  /** The invariant of a book between tasks. */
  ghost predicate Standing(b: Book, last: nat) {
    Ordered(b, last) && !b.Crossed()
  }

  /** The limits of a new order that a caller must respect for the book to mean anything. */
  predicate Acceptable(o: OrderState) {
    IsNew(o) && o.quantity > 0 && o.side != NonSupported
  }

  /** `t` is `s` with `o` put at `i`, element by element. */
  ghost predicate OneMore(s: seq<OrderState>, t: seq<OrderState>, i: nat, o: OrderState) {
    && i <= |s| && |t| == |s| + 1
    && t[i] == o
    && (forall k | 0 <= k < i :: t[k] == s[k])
    && (forall k {:trigger t[k]} | i < k < |t| :: t[k] == s[k - 1])
  }

  lemma OneMoreOrdered(s: seq<OrderState>, t: seq<OrderState>, i: nat, last: nat, o: OrderState)
    requires SideOrdered(s, o.side, last) && Acceptable(o) && o.id == last + 1
    requires OneMore(s, t, i, o)
    requires forall j | 0 <= j < i :: !Precedes(o.side, o.price, s[j].price)
    requires i < |s| ==> Precedes(o.side, o.price, s[i].price)
    ensures SideOrdered(t, o.side, last + 1)
  {
    forall j, k | 0 <= j < k < |t| ensures Before(o.side, t[j], t[k]) && t[j].id != t[k].id {
      var a, c := if j < i then j else j - 1, if k < i then k else k - 1;
      if j == i {
        assert Resting(s[c], o.side, last) && (i < c ==> Before(o.side, s[i], s[c]));
      } else if k == i {
        assert Resting(s[a], o.side, last);
      } else {
        assert Before(o.side, s[a], s[c]);
      }
    }
    forall j | 0 <= j < |t| ensures Resting(t[j], o.side, last + 1) {
      if j != i {
        assert Resting(s[if j < i then j else j - 1], o.side, last);
      }
    }
  }

  lemma OneMoreIds(s: seq<OrderState>, t: seq<OrderState>, i: nat, o: OrderState)
    requires OneMore(s, t, i, o)
    ensures Ids(t) == Ids(s) + {o.id}
  {
    forall k | k in Ids(s) + {o.id} ensures k in Ids(t) {
      if k == o.id {
        assert t[i].id == k;
      } else {
        var a :| 0 <= a < |s| && s[a].id == k;
        assert t[if a < i then a else a + 1].id == k;
      }
    }
  }

  lemma InsertKeepsSide(s: seq<OrderState>, last: nat, o: OrderState)
    requires SideOrdered(s, o.side, last) && Acceptable(o) && o.id == last + 1
    ensures SideOrdered(Inserted(s, o), o.side, last + 1)
    ensures Ids(Inserted(s, o)) == Ids(s) + {o.id}
  {
    var i := InsertPosition(s, o.side, o.price);
    OneMoreOrdered(s, Inserted(s, o), i, last, o);
    OneMoreIds(s, Inserted(s, o), i, o);
  }

  lemma InsertKeepsOrdered(b: Book, last: nat, o: OrderState)
    requires Ordered(b, last) && Acceptable(o) && o.id == last + 1
    ensures Ordered(Insert(b, o), last + 1)
  {
    InsertKeepsSide(if o.side == Buy then b.bids else b.asks, last, o);
    assert o.id !in Ids(b.bids) && o.id !in Ids(b.asks);
  }

  lemma SettleKeepsSide(s: seq<OrderState>, side: Side, last: nat, o: OrderState)
    requires s != [] && SideOrdered(s, side, last)
    requires o.id == s[0].id && o.price == s[0].price
    requires Filled(o) || Resting(o, side, last)
    ensures SideOrdered(Settle(s, o), side, last)
    ensures Ids(Settle(s, o)) == if Filled(o) then Ids(s) - {o.id} else Ids(s)
  {
    var t := Settle(s, o);
    var d := if Filled(o) then 1 else 0;
    assert forall i | 0 <= i < |t| :: t[i].id == s[i + d].id && t[i].price == s[i + d].price;
    forall i, j | 0 <= i < j < |t| ensures Before(side, t[i], t[j]) && t[i].id != t[j].id {
      assert Before(side, s[i + d], s[j + d]) && s[i + d].id != s[j + d].id;
    }
    forall k | k in Ids(s) && (Filled(o) ==> k != o.id) ensures k in Ids(t) {
      var i :| 0 <= i < |s| && s[i].id == k;
      assert t[i - d].id == k;
    }
    forall k | k in Ids(t) ensures k in Ids(s) && (Filled(o) ==> k != o.id) {
      var i :| 0 <= i < |t| && t[i].id == k;
      assert s[i + d].id == k;
    }
  }

  /** A round keeps the order of both sides: it removes a top or changes only its quantities. */
  lemma RoundKeepsOrdered(b: Book, last: nat)
    requires Ordered(b, last) && b.Crossed()
    ensures Ordered(Round(b), last)
  {
    var bid, ask := b.bids[0], b.asks[0];
    assert Resting(bid, Buy, last) && Resting(ask, Sell, last);
    SettleKeepsSide(b.bids, Buy, last, TradedBid(bid, ask));
    SettleKeepsSide(b.asks, Sell, last, TradedAsk(bid, ask));
  }

  /** The loop ends in a standing book, from any ordered one. */
  lemma {:induction false} MatchStands(b: Book, last: nat)
    requires Ordered(b, last)
    ensures b.Balanced() && Standing(Match(b).book, last)
    decreases |b.bids| + |b.asks|
  {
    if b.Crossed() {
      RoundShrinks(b);
      RoundKeepsOrdered(b, last);
      MatchStands(Round(b), last);
    }
  }

  /** Price-time priority and "no crossed book" survive the arrival of any acceptable order. */
  lemma SubmitStands(b: Book, last: nat, o: OrderState)
    requires Standing(b, last) && Acceptable(o) && o.id == last + 1
    ensures b.Balanced() && Standing(Submit(b, o).book, last + 1)
  {
    InsertKeepsOrdered(b, last, o);
    MatchStands(Insert(b, o), last + 1);
  }

  lemma WithoutKeepsSide(s: seq<OrderState>, side: Side, last: nat, i: nat)
    requires SideOrdered(s, side, last) && i < |s|
    ensures SideOrdered(Without(s, i), side, last)
    ensures Ids(Without(s, i)) == Ids(s) - {s[i].id}
  {
    var t := Without(s, i);
    forall j, k | 0 <= j < k < |t| ensures Before(side, t[j], t[k]) && t[j].id != t[k].id {
      var a, c := if j < i then j else j + 1, if k < i then k else k + 1;
      assert Before(side, s[a], s[c]) && s[a].id != s[c].id;
    }
    forall k | k in Ids(s) - {s[i].id} ensures k in Ids(t) {
      var a :| 0 <= a < |s| && s[a].id == k;
      assert t[if a < i then a else a - 1].id == k;
    }
    forall k | k in Ids(t) ensures k in Ids(s) - {s[i].id} {
      var a :| 0 <= a < |t| && t[a].id == k;
      assert s[if a < i then a else a + 1].id == k;
    }
  }

  /** The side without its i-th order: a standing book stays standing. */
  lemma RemoveStands(b: Book, last: nat, side: Side, i: nat)
    requires Standing(b, last) && side != NonSupported && i < |b.Side(side)|
    ensures Standing(Removed(b, side, i), last)
  {
    var s := b.Side(side);
    WithoutKeepsSide(s, side, last, i);
    var t := Without(s, i);
    if t != [] {
      assert t[0] == s[0] || (t[0] == s[1] && Before(side, s[0], s[1]));
    }
  }

  function Removed(b: Book, side: Side, i: nat): Book
    requires i < |b.Side(side)|
  {
    if side == Buy then b.(bids := Without(b.bids, i)) else b.(asks := Without(b.asks, i))
  }
}
