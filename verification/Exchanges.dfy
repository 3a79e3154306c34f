/** The central order book in single-threaded mode as a machine over commands: one venue (a book and the
    history of its outgoing queue) per security (`source/order_matcher/central_order_book.cpp`). */
module Exchanges {
  import opened Wrappers
  import opened Orders
  import opened Matching
  import ClosedForm

  datatype Status = Accepted | PartiallyFilled | Filled | Canceled | Rejected

  datatype Report = Report(status: Status, order: OrderState, text: string)

  datatype Venue = Venue(book: Book, reports: seq<Report>)

  // ----- The tasks -----

  function FillReport(o: OrderState): Report {
    Report(if Orders.Filled(o) then Filled else PartiallyFilled, o, "")
  }

  function FillReports(trades: seq<OrderState>): (r: seq<Report>)
    ensures |r| == |trades| && forall i | 0 <= i < |r| :: r[i] == FillReport(trades[i])
  {
    if trades == [] then [] else [FillReport(trades[0])] + FillReports(trades[1..])
  }

  lemma FillReportsConcat(s: seq<OrderState>, t: seq<OrderState>)
    ensures FillReports(s + t) == FillReports(s) + FillReports(t)
  {
  }

  function NewTask(v: Venue, o: OrderState): Venue
    requires v.book.Balanced() && Balanced(o)
  {
    var m := Submit(v.book, o);
    Venue(m.book, v.reports + FillReports(m.trades))
  }

  /** The side a cancel searches; nothing is found on a side that is neither. */
  function Found(b: Book, side: Side, session: nat, clientId: string): Option<nat> {
    if side == NonSupported then None
    else
      var i := FirstMatch(b.Side(side), session, clientId);
      if i < |b.Side(side)| then Some(i) else None
  }

  /** Finding, marking and reporting, then erasing by the located order's own side and ids. */
  function CancelTask(v: Venue, request: OrderState, original: string, text: string): Venue {
    match Found(v.book, request.side, request.session, original)
    case None => v.(reports := v.reports + [Report(Rejected, request, text)])
    case Some(i) =>
      var o := v.book.Side(request.side)[i].(cancelled := true);
      Venue(Erase(Mark(v.book, request.side, i), o), v.reports + [Report(Canceled, o, "Order canceled")])
  }

  // ----- What a cancel removes -----

  /** Every order lies on the side `insert` puts it on. */
  ghost predicate Placed(b: Book) {
    && (forall i | 0 <= i < |b.bids| :: b.bids[i].side == Buy)
    && (forall i | 0 <= i < |b.asks| :: b.asks[i].side != Buy)
  }

  /** A located order leaves the book exactly when its own side is a supported one; otherwise it stays,
      marked, and can trade or be cancelled again. */
  lemma CancelRemoves(v: Venue, request: OrderState, original: string, text: string, i: nat)
    requires Placed(v.book) && Found(v.book, request.side, request.session, original) == Some(i)
    ensures var s := v.book.Side(request.side);
            var after := CancelTask(v, request, original, text).book;
            && (after == Removed(v.book, request.side, i) <==> s[i].side != NonSupported)
            && (after == Mark(v.book, request.side, i) <==> s[i].side == NonSupported)
  {
    var s := v.book.Side(request.side);
    var o := s[i].(cancelled := true);
    MarkedFirst(s, i, request.session, original);
    var t := s[i := o];
    assert |Without(s, i)| != |t|;
    assert Without(t, i) == Without(s, i);
  }

  lemma MarkedFirst(s: seq<OrderState>, i: nat, session: nat, clientId: string)
    requires i < |s| && i == FirstMatch(s, session, clientId)
    ensures FirstMatch(s[i := s[i].(cancelled := true)], session, clientId) == i
  {
    var t := s[i := s[i].(cancelled := true)];
    assert t[i].session == session;
    assert forall k | 0 <= k < i :: t[k] == s[k];
  }

  /** The failing family is inhabited: one order of no supported side is reported cancelled twice. */
  lemma CancelTwice(o: OrderState, request: OrderState)
    requires IsNew(o) && o.side == NonSupported && o.quantity > 0
    requires request.side == Sell && request.session == o.session
    ensures var v := CancelTask(NewTask(Venue(Book([], []), []), o), request, o.clientId, "");
            var w := CancelTask(v, request, o.clientId, "");
            |w.reports| == 2 && w.reports[0].status == w.reports[1].status == Canceled
            && w.reports[0].order.id == w.reports[1].order.id
  {
    var v := NewTask(Venue(Book([], []), []), o);
    assert v == Venue(Book([], [o]), []);
  }

  // ----- The life of one order, read from the reports -----

  /** Live carries the order as last reported and the money its trades add up to. */
  datatype Life = Unborn | Live(order: OrderState, paid: real) | Done(last: Status) | Broken

  /** `n` is `o` after one more trade at a price its limit allows, with the exact average. */
  ghost predicate IsFill(o: OrderState, paid: real, n: OrderState) {
    && n.lastQuantity > 0
    && n == o.(open := o.open - n.lastQuantity, executed := o.executed + n.lastQuantity, average := n.average,
               lastPrice := n.lastPrice, lastQuantity := n.lastQuantity)
    && n.open >= 0 && Balanced(n)
    && (n.side == Buy ==> n.lastPrice <= n.price)
    && (n.side == Sell ==> n.lastPrice == n.price)
    && Paid(n, paid + n.lastPrice * n.lastQuantity as real)
  }

  /** The only reports an order may get next. */
  ghost function Advance(life: Life, r: Report): Life {
    var n := r.order;
    match (life, r.status)
    case (Unborn, Accepted) => if Acceptable(n) then Live(n, 0.0) else Broken
    case (Live(o, paid), PartiallyFilled) =>
      if IsFill(o, paid, n) && n.open > 0 then Live(n, paid + n.lastPrice * n.lastQuantity as real) else Broken
    case (Live(o, paid), Filled) => if IsFill(o, paid, n) && n.open == 0 then Done(Filled) else Broken
    case (Live(o, paid), Canceled) => if n == o.(cancelled := true) then Done(Canceled) else Broken
    case _ => Broken
  }

  /** A REJECTED report answers a cancel request and carries no order of the book. */
  ghost function Track(reports: seq<Report>, id: nat): Life {
    if reports == [] then Unborn
    else
      var before := Track(reports[..|reports| - 1], id);
      var r := reports[|reports| - 1];
      if r.order.id == id && r.status != Rejected then Advance(before, r) else before
  }

  lemma TrackLast(reports: seq<Report>, r: Report, id: nat)
    ensures Track(reports + [r], id) ==
            if r.order.id == id && r.status != Rejected then Advance(Track(reports, id), r) else Track(reports, id)
  {
    assert (reports + [r])[..|reports|] == reports;
  }

  predicate Over(life: Life) {
    life.Unborn? || life.Done?
  }

  ghost predicate IsLive(reports: seq<Report>, o: OrderState) {
    var life := Track(reports, o.id);
    life.Live? && life.order == o && Paid(o, life.paid)
  }

  /** The resting orders are exactly the live ones, each as last reported. */
  ghost predicate Lives(b: Book, reports: seq<Report>, last: nat) {
    && (forall i | 0 <= i < |b.bids| :: IsLive(reports, b.bids[i]))
    && (forall i | 0 <= i < |b.asks| :: IsLive(reports, b.asks[i]))
    && (forall id | id !in Ids(b.bids) && id !in Ids(b.asks) :: Over(Track(reports, id)))
    && (forall id | id > last :: Track(reports, id).Unborn?)
  }

  // ----- The totals of one side, read from the reports -----

  datatype Ledger = Ledger(accepted: int, executed: int, cancelled: int, fills: nat, orders: nat)

  function Post(l: Ledger, r: Report, side: Side): Ledger {
    if r.order.side != side then l
    else
      match r.status
      case Accepted => l.(accepted := l.accepted + r.order.quantity, orders := l.orders + 1)
      case PartiallyFilled | Filled =>
        l.(executed := l.executed + r.order.lastQuantity, fills := l.fills + 1)
      case Canceled => l.(cancelled := l.cancelled + r.order.open)
      case Rejected => l
  }

  function Totals(reports: seq<Report>, side: Side): Ledger {
    if reports == [] then Ledger(0, 0, 0, 0, 0)
    else Post(Totals(reports[..|reports| - 1], side), reports[|reports| - 1], side)
  }

  lemma TotalsLast(reports: seq<Report>, r: Report, side: Side)
    ensures Totals(reports + [r], side) == Post(Totals(reports, side), r, side)
  {
    assert (reports + [r])[..|reports|] == reports;
  }

  function Amount(o: OrderState): real {
    o.lastPrice * o.lastQuantity as real
  }

  predicate IsTrade(r: Report) {
    r.status == PartiallyFilled || r.status == Filled
  }

  /** The money one side has traded for. */
  function Cash(reports: seq<Report>, side: Side): real {
    if reports == [] then 0.0
    else
      var r := reports[|reports| - 1];
      Cash(reports[..|reports| - 1], side) + if IsTrade(r) && r.order.side == side then Amount(r.order) else 0.0
  }

  lemma CashLast(reports: seq<Report>, r: Report, side: Side)
    ensures Cash(reports + [r], side) ==
            Cash(reports, side) + if IsTrade(r) && r.order.side == side then Amount(r.order) else 0.0
  {
    assert (reports + [r])[..|reports|] == reports;
  }

  lemma PairCash(reports: seq<Report>, bid: OrderState, ask: OrderState)
    requires bid.side == Buy && ask.side == Sell
    requires bid.lastPrice == ask.lastPrice && bid.lastQuantity == ask.lastQuantity
    requires Cash(reports, Buy) == Cash(reports, Sell)
    ensures Cash(reports + FillReports([bid, ask]), Buy) == Cash(reports + FillReports([bid, ask]), Sell)
  {
    var more := reports + [FillReport(bid)];
    assert reports + FillReports([bid, ask]) == more + [FillReport(ask)];
    CashLast(reports, FillReport(bid), Buy);
    CashLast(more, FillReport(ask), Buy);
    CashLast(reports, FillReport(bid), Sell);
    CashLast(more, FillReport(ask), Sell);
  }

  /** A report that is not a trade moves no money. */
  lemma NoCash(reports: seq<Report>, r: Report)
    requires !IsTrade(r)
    ensures forall side :: Cash(reports + [r], side) == Cash(reports, side)
  {
    forall side ensures Cash(reports + [r], side) == Cash(reports, side) { CashLast(reports, r, side); }
  }

  /** Nothing accepted is lost or invented, both sides trade the same, and every trade used up an order. */
  ghost predicate Conserved(b: Book, reports: seq<Report>) {
    var buys, sells := Totals(reports, Buy), Totals(reports, Sell);
    && buys.accepted == ClosedForm.OpenTotal(b.bids) + buys.executed + buys.cancelled
    && sells.accepted == ClosedForm.OpenTotal(b.asks) + sells.executed + sells.cancelled
    && buys.executed == sells.executed && buys.fills == sells.fills
    && Cash(reports, Buy) == Cash(reports, Sell)
    && buys.fills + |b.bids| + |b.asks| <= buys.orders + sells.orders
  }

  // ----- One round of matching -----

  lemma SettleOpen(s: seq<OrderState>, o: OrderState)
    requires s != [] && Balanced(o)
    ensures ClosedForm.OpenTotal(Settle(s, o)) == ClosedForm.OpenTotal(s) - s[0].open + o.open
    ensures |Settle(s, o)| == if Orders.Filled(o) then |s| - 1 else |s|
  {
    assert s[0 := o][1..] == s[1..];
  }

  function Traded(l: Ledger, o: OrderState): Ledger {
    l.(executed := l.executed + o.lastQuantity, fills := l.fills + 1)
  }

  lemma PairTotals(reports: seq<Report>, bid: OrderState, ask: OrderState)
    requires bid.side == Buy && ask.side == Sell
    ensures Totals(reports + FillReports([bid, ask]), Buy) == Traded(Totals(reports, Buy), bid)
    ensures Totals(reports + FillReports([bid, ask]), Sell) == Traded(Totals(reports, Sell), ask)
  {
    var more := reports + [FillReport(bid)];
    assert reports + FillReports([bid, ask]) == more + [FillReport(ask)];
    TotalsLast(reports, FillReport(bid), Buy);
    TotalsLast(more, FillReport(ask), Buy);
    TotalsLast(reports, FillReport(bid), Sell);
    TotalsLast(more, FillReport(ask), Sell);
  }

  lemma RoundConserved(b: Book, reports: seq<Report>, last: nat)
    requires Ordered(b, last) && b.Crossed() && Conserved(b, reports)
    ensures Conserved(Round(b), reports + FillReports(RoundTrades(b)))
  {
    var bid, ask := b.bids[0], b.asks[0];
    var tb, ta := TradedBid(bid, ask), TradedAsk(bid, ask);
    assert Resting(bid, Buy, last) && Resting(ask, Sell, last);
    PairTotals(reports, tb, ta);
    PairCash(reports, tb, ta);
    SettleOpen(b.bids, tb);
    SettleOpen(b.asks, ta);
  }

  lemma TradeIsFill(o: OrderState, price: real, quantity: int, paid: real)
    requires Balanced(o) && o.executed >= 0 && 0 < quantity <= o.open && Paid(o, paid)
    requires (o.side == Buy ==> price <= o.price) && (o.side == Sell ==> price == o.price)
    ensures IsFill(o, paid, Executed(o, price, quantity))
    ensures Orders.Filled(Executed(o, price, quantity)) <==> Executed(o, price, quantity).open == 0
  {
    ExecutedPaid(o, price, quantity, paid);
  }

  /** One side of a round: the top's life moves on, every other life is as it was. */
  lemma SettleLives(s: seq<OrderState>, side: Side, last: nat, n: OrderState, before: seq<Report>, after: seq<Report>)
    requires SideOrdered(s, side, last) && s != [] && n.id == s[0].id
    requires forall i | 0 <= i < |s| :: IsLive(before, s[i])
    requires !Orders.Filled(n) ==> IsLive(after, n)
    requires forall id | id in Ids(s) && id != n.id :: Track(after, id) == Track(before, id)
    ensures forall i | 0 <= i < |Settle(s, n)| :: IsLive(after, Settle(s, n)[i])
  {
    var t := Settle(s, n);
    forall i | 0 <= i < |t| ensures IsLive(after, t[i]) {
      if i > 0 || Orders.Filled(n) {
        var k := if Orders.Filled(n) then i + 1 else i;
        assert t[i] == s[k] && s[k].id in Ids(s) && s[0].id != s[k].id;
      }
    }
  }

  lemma PairTracks(reports: seq<Report>, bid: OrderState, ask: OrderState, id: nat)
    requires bid.id != ask.id
    ensures Track(reports + FillReports([bid, ask]), id) ==
            if id == bid.id then Advance(Track(reports, id), FillReport(bid))
            else if id == ask.id then Advance(Track(reports, id), FillReport(ask))
            else Track(reports, id)
  {
    var more := reports + [FillReport(bid)];
    assert reports + FillReports([bid, ask]) == more + [FillReport(ask)];
    TrackLast(reports, FillReport(bid), id);
    TrackLast(more, FillReport(ask), id);
  }

  /** A fill moves a live order on, or ends its life when nothing is left open. */
  lemma FillAdvances(o: OrderState, paid: real, n: OrderState)
    requires IsFill(o, paid, n)
    ensures var spent := paid + n.lastPrice * n.lastQuantity as real;
            && Paid(n, spent)
            && Advance(Live(o, paid), FillReport(n)) == if Orders.Filled(n) then Done(Filled) else Live(n, spent)
  {
  }

  /** The life of one of the two orders of a trade. */
  lemma TradedLife(o: OrderState, price: real, quantity: int, before: seq<Report>, after: seq<Report>)
    requires Balanced(o) && o.executed >= 0 && 0 < quantity <= o.open && IsLive(before, o)
    requires (o.side == Buy ==> price <= o.price) && (o.side == Sell ==> price == o.price)
    requires Track(after, o.id) == Advance(Track(before, o.id), FillReport(Executed(o, price, quantity)))
    ensures var n := Executed(o, price, quantity);
            if Orders.Filled(n) then Over(Track(after, o.id)) else IsLive(after, n)
  {
    var paid := Track(before, o.id).paid;
    TradeIsFill(o, price, quantity, paid);
    FillAdvances(o, paid, Executed(o, price, quantity));
  }

  lemma RoundLives(b: Book, reports: seq<Report>, last: nat)
    requires Ordered(b, last) && b.Crossed() && Lives(b, reports, last)
    ensures Lives(Round(b), reports + FillReports(RoundTrades(b)), last)
  {
    var bid, ask := b.bids[0], b.asks[0];
    var q, price := TradeQuantity(bid, ask), ask.price;
    var tb, ta := TradedBid(bid, ask), TradedAsk(bid, ask);
    var after := reports + FillReports(RoundTrades(b));
    assert Resting(bid, Buy, last) && Resting(ask, Sell, last) && IsLive(reports, bid) && IsLive(reports, ask);
    assert bid.id in Ids(b.bids) && ask.id in Ids(b.asks);
    PairTracks(reports, tb, ta, bid.id);
    PairTracks(reports, tb, ta, ask.id);
    TradedLife(bid, price, q, reports, after);
    TradedLife(ask, price, q, reports, after);
    forall id: nat | id != bid.id && id != ask.id ensures Track(after, id) == Track(reports, id) {
      PairTracks(reports, tb, ta, id);
    }
    SettleLives(b.bids, Buy, last, tb, reports, after);
    SettleLives(b.asks, Sell, last, ta, reports, after);
    SettleKeepsSide(b.bids, Buy, last, tb);
    SettleKeepsSide(b.asks, Sell, last, ta);
  }

  // ----- Whole tasks -----

  ghost predicate VenueInv(v: Venue, last: nat) {
    Standing(v.book, last) && Lives(v.book, v.reports, last) && Conserved(v.book, v.reports)
  }

  /** What every round keeps, the whole loop keeps; the reports grow with the book. */
  lemma {:induction false} MatchInduction(P: (Book, seq<Report>) -> bool, b: Book, reports: seq<Report>)
    requires forall c, r | P(c, r) :: c.Balanced()
    requires forall c, r | P(c, r) && c.Crossed() :: P(Round(c), r + FillReports(RoundTrades(c)))
    requires P(b, reports)
    ensures b.Balanced() && P(Match(b).book, reports + FillReports(Match(b).trades))
    decreases |b.bids| + |b.asks|
  {
    if b.Crossed() {
      RoundShrinks(b);
      var after := reports + FillReports(RoundTrades(b));
      MatchInduction(P, Round(b), after);
      FillReportsConcat(RoundTrades(b), Match(Round(b)).trades);
      assert reports + FillReports(Match(b).trades) == after + FillReports(Match(Round(b)).trades);
    } else {
      assert reports + FillReports(Match(b).trades) == reports;
    }
  }

  /** The invariant inside the loop, when the book may be crossed. */
  ghost predicate Busy(b: Book, reports: seq<Report>, last: nat) {
    Ordered(b, last) && Lives(b, reports, last) && Conserved(b, reports)
  }

  lemma RoundBusy(b: Book, reports: seq<Report>, last: nat)
    requires Busy(b, reports, last) && b.Crossed()
    ensures Busy(Round(b), reports + FillReports(RoundTrades(b)), last)
  {
    RoundKeepsOrdered(b, last);
    RoundLives(b, reports, last);
    RoundConserved(b, reports, last);
  }

  lemma BusyBalanced(b: Book, reports: seq<Report>, last: nat)
    requires Busy(b, reports, last)
    ensures b.Balanced()
  {
  }

  lemma MatchKeeps(b: Book, reports: seq<Report>, last: nat)
    requires Busy(b, reports, last)
    ensures b.Balanced() && VenueInv(Venue(Match(b).book, reports + FillReports(Match(b).trades)), last)
  {
    forall c, r | Busy(c, r, last) ensures c.Balanced() { BusyBalanced(c, r, last); }
    forall c, r | Busy(c, r, last) && c.Crossed() ensures Busy(Round(c), r + FillReports(RoundTrades(c)), last) {
      RoundBusy(c, r, last);
    }
    MatchInduction((c, r) => Busy(c, r, last), b, reports);
  }

  lemma InsertOpen(s: seq<OrderState>, i: nat, o: OrderState)
    requires i <= |s|
    ensures ClosedForm.OpenTotal(InsertAt(s, i, o)) == ClosedForm.OpenTotal(s) + o.open
  {
    var t := InsertAt(s, i, o);
    if i == 0 {
      assert t[1..] == s;
    } else {
      assert t[1..] == InsertAt(s[1..], i - 1, o);
      InsertOpen(s[1..], i - 1, o);
    }
  }

  lemma InsertLives(s: seq<OrderState>, i: nat, o: OrderState, before: seq<Report>, after: seq<Report>)
    requires i <= |s| && (forall k | 0 <= k < |s| :: IsLive(before, s[k]) && s[k].id != o.id)
    requires IsLive(after, o)
    requires forall id | id != o.id :: Track(after, id) == Track(before, id)
    ensures forall k | 0 <= k <= |s| :: IsLive(after, InsertAt(s, i, o)[k])
  {
    var t := InsertAt(s, i, o);
    forall k | 0 <= k <= |s| ensures IsLive(after, t[k]) {
      if k != i {
        assert t[k] == s[if k < i then k else k - 1];
      }
    }
  }

  lemma AcceptLives(b: Book, reports: seq<Report>, last: nat, o: OrderState)
    requires Ordered(b, last) && Lives(b, reports, last) && Acceptable(o) && o.id == last + 1
    ensures Lives(Insert(b, o), reports + [Report(Accepted, o, "")], last + 1)
  {
    var r := Report(Accepted, o, "");
    var after := reports + [r];
    forall id ensures Track(after, id) == if id == o.id then Advance(Track(reports, id), r) else Track(reports, id) {
      TrackLast(reports, r, id);
    }
    assert IsLive(after, o);
    var s := if o.side == Buy then b.bids else b.asks;
    assert forall k | 0 <= k < |b.bids| :: Resting(b.bids[k], Buy, last) && b.bids[k].id != o.id;
    assert forall k | 0 <= k < |b.asks| :: Resting(b.asks[k], Sell, last) && b.asks[k].id != o.id;
    InsertLives(s, InsertPosition(s, o.side, o.price), o, reports, after);
    InsertKeepsSide(s, last, o);
  }

  lemma AcceptConserved(b: Book, reports: seq<Report>, o: OrderState)
    requires Conserved(b, reports) && Acceptable(o)
    ensures Conserved(Insert(b, o), reports + [Report(Accepted, o, "")])
  {
    NoCash(reports, Report(Accepted, o, ""));
    TotalsLast(reports, Report(Accepted, o, ""), Buy);
    TotalsLast(reports, Report(Accepted, o, ""), Sell);
    var s := if o.side == Buy then b.bids else b.asks;
    InsertOpen(s, InsertPosition(s, o.side, o.price), o);
  }

  function Acknowledge(v: Venue, o: OrderState): Venue {
    v.(reports := v.reports + [Report(Accepted, o, "")])
  }

  /** An accepted order and its task keep every invariant of the venue. */
  lemma NewKeeps(v: Venue, last: nat, o: OrderState)
    requires VenueInv(v, last) && Acceptable(o) && o.id == last + 1
    ensures v.book.Balanced() && VenueInv(NewTask(Acknowledge(v, o), o), last + 1)
  {
    InsertKeepsOrdered(v.book, last, o);
    AcceptLives(v.book, v.reports, last, o);
    AcceptConserved(v.book, v.reports, o);
    MatchKeeps(Insert(v.book, o), v.reports + [Report(Accepted, o, "")], last + 1);
  }

  lemma WithoutOpen(s: seq<OrderState>, i: nat)
    requires i < |s|
    ensures ClosedForm.OpenTotal(Without(s, i)) == ClosedForm.OpenTotal(s) - s[i].open
  {
    if i == 0 {
      assert Without(s, i) == s[1..];
    } else {
      assert Without(s, i)[1..] == Without(s[1..], i - 1);
      WithoutOpen(s[1..], i - 1);
    }
  }

  function CancelReport(o: OrderState): Report {
    Report(Canceled, o.(cancelled := true), "Order canceled")
  }

  /** Cancelling what was found: exactly the located order leaves, and one report names it. */
  lemma CancelFound(v: Venue, last: nat, request: OrderState, original: string, text: string, i: nat)
    requires Ordered(v.book, last) && Found(v.book, request.side, request.session, original) == Some(i)
    ensures CancelTask(v, request, original, text) ==
            Venue(Removed(v.book, request.side, i), v.reports + [CancelReport(v.book.Side(request.side)[i])])
  {
    var s := v.book.Side(request.side);
    assert Resting(s[i], request.side, last);
    forall k | 0 <= k < |v.book.bids| ensures v.book.bids[k].side == Buy { assert Resting(v.book.bids[k], Buy, last); }
    forall k | 0 <= k < |v.book.asks| ensures v.book.asks[k].side != Buy { assert Resting(v.book.asks[k], Sell, last); }
    CancelRemoves(v, request, original, text, i);
  }

  lemma RemoveConserved(b: Book, reports: seq<Report>, side: Side, i: nat)
    requires Conserved(b, reports) && side != NonSupported && i < |b.Side(side)| && b.Side(side)[i].side == side
    ensures Conserved(Removed(b, side, i), reports + [CancelReport(b.Side(side)[i])])
  {
    var r := CancelReport(b.Side(side)[i]);
    WithoutOpen(b.Side(side), i);
    NoCash(reports, r);
    TotalsLast(reports, r, Buy);
    TotalsLast(reports, r, Sell);
  }

  lemma RemoveBookLives(b: Book, reports: seq<Report>, last: nat, side: Side, i: nat)
    requires Ordered(b, last) && Lives(b, reports, last) && side != NonSupported && i < |b.Side(side)|
    ensures Lives(Removed(b, side, i), reports + [CancelReport(b.Side(side)[i])], last)
  {
    var s := b.Side(side);
    var r := CancelReport(s[i]);
    var after := reports + [r];
    assert Resting(s[i], side, last) && IsLive(reports, s[i]) && s[i].id in Ids(s);
    forall id ensures Track(after, id) == if id == s[i].id then Done(Canceled) else Track(reports, id) {
      TrackLast(reports, r, id);
    }
    RemoveLives(s, side, last, i, reports, after);
  }

  lemma RemoveKeeps(v: Venue, last: nat, side: Side, i: nat)
    requires VenueInv(v, last) && side != NonSupported && i < |v.book.Side(side)|
    ensures VenueInv(Venue(Removed(v.book, side, i), v.reports + [CancelReport(v.book.Side(side)[i])]), last)
  {
    assert Resting(v.book.Side(side)[i], side, last);
    RemoveStands(v.book, last, side, i);
    RemoveBookLives(v.book, v.reports, last, side, i);
    RemoveConserved(v.book, v.reports, side, i);
  }

  lemma RemoveLives(s: seq<OrderState>, side: Side, last: nat, i: nat, before: seq<Report>, after: seq<Report>)
    requires SideOrdered(s, side, last) && i < |s|
    requires forall k | 0 <= k < |s| :: IsLive(before, s[k])
    requires forall id | id != s[i].id :: Track(after, id) == Track(before, id)
    ensures forall k | 0 <= k < |s| - 1 :: IsLive(after, Without(s, i)[k])
    ensures Ids(Without(s, i)) == Ids(s) - {s[i].id}
  {
    WithoutKeepsSide(s, side, last, i);
    var t := Without(s, i);
    forall k | 0 <= k < |t| ensures IsLive(after, t[k]) {
      var j := if k < i then k else k + 1;
      assert t[k] == s[j] && s[j].id != s[i].id;
    }
  }

  lemma CancelKeeps(v: Venue, last: nat, request: OrderState, original: string, text: string)
    requires VenueInv(v, last)
    ensures VenueInv(CancelTask(v, request, original, text), last)
  {
    match Found(v.book, request.side, request.session, original)
    case Some(i) =>
      CancelFound(v, last, request, original, text, i);
      RemoveKeeps(v, last, request.side, i);
    case None =>
      var r := Report(Rejected, request, text);
      NoCash(v.reports, r);
      TotalsLast(v.reports, r, Buy);
      TotalsLast(v.reports, r, Sell);
      forall id ensures Track(v.reports + [r], id) == Track(v.reports, id) {
        TrackLast(v.reports, r, id);
      }
  }

  // ----- Runs -----

  datatype Exchange = Exchange(last: nat, venues: map<nat, Venue>)

  datatype Command = New(order: OrderState) | Cancel(request: OrderState, original: string, text: string)

  function Security(c: Command): nat {
    match c case New(o) => o.security case Cancel(r, _, _) => r.security
  }

  /** A new order is numbered, acknowledged and then matched; a cancel runs its task. */
  function Apply(x: Exchange, c: Command): Exchange
    requires Security(c) in x.venues
    requires x.venues[Security(c)].book.Balanced() && (c.New? ==> Balanced(c.order))
  {
    var v := x.venues[Security(c)];
    match c
    case New(order) =>
      var o := order.(id := x.last + 1);
      Exchange(x.last + 1, x.venues[order.security := NewTask(Acknowledge(v, o), o)])
    case Cancel(request, original, text) =>
      x.(venues := x.venues[request.security := CancelTask(v, request, original, text)])
  }

  /** What the results about runs assume of a command: a known security, and of a new order a positive quantity
      and a supported side. A cancel may name any side. These are hypotheses: an unknown symbol throws
      before a command is made of its message, but the quantity and the side of a new order are not checked. */
  predicate Admissible(c: Command, securities: set<nat>) {
    Security(c) in securities && (c.New? ==> Acceptable(c.order))
  }

  ghost predicate ExchangeInv(x: Exchange) {
    VenuesInv(x.venues, x.last) && VenuesApart(x.venues)
  }

  ghost predicate VenuesInv(venues: map<nat, Venue>, last: nat) {
    forall s | s in venues :: VenueInv(venues[s], last)
  }

  ghost predicate VenuesApart(venues: map<nat, Venue>) {
    forall s, t | s in venues && t in venues && s != t :: Apart(venues[s], venues[t])
  }

  /** No number is reported by both. */
  ghost predicate Apart(v: Venue, w: Venue) {
    forall id :: Track(v.reports, id).Unborn? || Track(w.reports, id).Unborn?
  }

  /** The states that satisfy the invariant. */
  type Sound = x: Exchange | ExchangeInv(x) ghost witness Exchange(0, map[])

  /** Empty books and empty histories. */
  ghost function Start(securities: set<nat>): (x: Sound)
    ensures x.venues.Keys == securities
  {
    Exchange(0, map s | s in securities :: Venue(Book([], []), []))
  }

  lemma VenueLater(v: Venue, last: nat)
    requires VenueInv(v, last)
    ensures VenueInv(v, last + 1)
  {
    SideLater(v.book.bids, Buy, last);
    SideLater(v.book.asks, Sell, last);
  }

  lemma SideLater(s: seq<OrderState>, side: Side, last: nat)
    requires SideOrdered(s, side, last)
    ensures SideOrdered(s, side, last + 1)
  {
    forall i | 0 <= i < |s| ensures Resting(s[i], side, last + 1) {
      assert Resting(s[i], side, last);
    }
  }

  /** No task makes a number appear in a venue that had not reported it, except the new order's own. */
  lemma RoundBirths(b: Book, reports: seq<Report>, last: nat, id: nat)
    requires Busy(b, reports, last) && b.Crossed() && Track(reports, id).Unborn?
    ensures Track(reports + FillReports(RoundTrades(b)), id).Unborn?
  {
    var bid, ask := b.bids[0], b.asks[0];
    assert IsLive(reports, bid) && IsLive(reports, ask) && bid.id in Ids(b.bids) && ask.id in Ids(b.asks);
    PairTracks(reports, TradedBid(bid, ask), TradedAsk(bid, ask), id);
  }

  lemma MatchBirths(b: Book, reports: seq<Report>, last: nat, id: nat)
    requires Busy(b, reports, last) && Track(reports, id).Unborn?
    ensures b.Balanced() && Track(reports + FillReports(Match(b).trades), id).Unborn?
  {
    forall c, r | Busy(c, r, last) ensures c.Balanced() { BusyBalanced(c, r, last); }
    forall c, r | Busy(c, r, last) && Track(r, id).Unborn? && c.Crossed()
      ensures Busy(Round(c), r + FillReports(RoundTrades(c)), last) && Track(r + FillReports(RoundTrades(c)), id).Unborn?
    {
      RoundBusy(c, r, last);
      RoundBirths(c, r, last, id);
    }
    MatchInduction((c, r) => Busy(c, r, last) && Track(r, id).Unborn?, b, reports);
  }

  lemma NewBirths(v: Venue, last: nat, o: OrderState, id: nat)
    requires VenueInv(v, last) && Acceptable(o) && o.id == last + 1
    requires id != o.id && Track(v.reports, id).Unborn?
    ensures v.book.Balanced() && Track(NewTask(Acknowledge(v, o), o).reports, id).Unborn?
  {
    InsertKeepsOrdered(v.book, last, o);
    AcceptLives(v.book, v.reports, last, o);
    AcceptConserved(v.book, v.reports, o);
    TrackLast(v.reports, Report(Accepted, o, ""), id);
    MatchBirths(Insert(v.book, o), v.reports + [Report(Accepted, o, "")], last + 1, id);
  }

  lemma CancelBirths(v: Venue, last: nat, request: OrderState, original: string, text: string, id: nat)
    requires VenueInv(v, last) && Track(v.reports, id).Unborn?
    ensures Track(CancelTask(v, request, original, text).reports, id).Unborn?
  {
    match Found(v.book, request.side, request.session, original)
    case Some(i) =>
      CancelFound(v, last, request, original, text, i);
      var o := v.book.Side(request.side)[i];
      assert IsLive(v.reports, o);
      TrackLast(v.reports, CancelReport(o), id);
    case None => TrackLast(v.reports, Report(Rejected, request, text), id);
  }

  /** What one task does to its venue, as far as the others are concerned. */
  ghost predicate Succeeds(v: Venue, w: Venue, last: nat, next: nat) {
    VenueInv(w, next) && last <= next <= last + 1 && NoBirths(v, w, last)
  }

  /** Of the numbers given so far none appears anew. */
  ghost predicate NoBirths(v: Venue, w: Venue, last: nat) {
    forall id: nat | id <= last && Track(v.reports, id).Unborn? :: Track(w.reports, id).Unborn?
  }

  lemma NewSucceeds(v: Venue, last: nat, o: OrderState)
    requires VenueInv(v, last) && Acceptable(o) && o.id == last + 1
    ensures v.book.Balanced() && Succeeds(v, NewTask(Acknowledge(v, o), o), last, last + 1)
  {
    NewKeeps(v, last, o);
    forall id: nat | id <= last && Track(v.reports, id).Unborn?
      ensures Track(NewTask(Acknowledge(v, o), o).reports, id).Unborn?
    {
      NewBirths(v, last, o, id);
    }
  }

  lemma CancelSucceeds(v: Venue, last: nat, request: OrderState, original: string, text: string)
    requires VenueInv(v, last)
    ensures Succeeds(v, CancelTask(v, request, original, text), last, last)
  {
    CancelKeeps(v, last, request, original, text);
    forall id | Track(v.reports, id).Unborn? ensures Track(CancelTask(v, request, original, text).reports, id).Unborn? {
      CancelBirths(v, last, request, original, text, id);
    }
  }

  lemma UpdateVenues(venues: map<nat, Venue>, last: nat, k: nat, w: Venue, next: nat)
    requires VenuesInv(venues, last) && k in venues && Succeeds(venues[k], w, last, next)
    ensures VenuesInv(venues[k := w], next)
  {
    forall s | s in venues && s != k ensures VenueInv(venues[s], next) {
      if next > last { VenueLater(venues[s], last); }
    }
  }

  lemma UpdateAparts(venues: map<nat, Venue>, last: nat, k: nat, w: Venue)
    requires VenuesInv(venues, last) && VenuesApart(venues) && k in venues && NoBirths(venues[k], w, last)
    ensures VenuesApart(venues[k := w])
  {
    forall s | s in venues && s != k ensures Apart(venues[s], w) && Apart(w, venues[s]) {
      VenueUnborn(venues[s], last);
      UpdateApart(venues[s], venues[k], w, last);
    }
  }

  lemma VenueUnborn(v: Venue, last: nat)
    requires VenueInv(v, last)
    ensures forall id | id > last :: Track(v.reports, id).Unborn?
  {
  }

  lemma UpdateKeeps(x: Sound, k: nat, w: Venue, next: nat) returns (y: Sound)
    requires k in x.venues && Succeeds(x.venues[k], w, x.last, next)
    ensures y == Exchange(next, x.venues[k := w])
  {
    UpdateVenues(x.venues, x.last, k, w, next);
    UpdateAparts(x.venues, x.last, k, w);
    y := Exchange(next, x.venues[k := w]);
  }

  lemma UpdateApart(u: Venue, v: Venue, w: Venue, last: nat)
    requires (forall id | id > last :: Track(u.reports, id).Unborn?) && NoBirths(v, w, last) && Apart(u, v)
    ensures Apart(u, w) && Apart(w, u)
  {
  }

  lemma ApplyNewIs(x: Exchange, order: OrderState)
    requires order.security in x.venues && x.venues[order.security].book.Balanced() && Balanced(order)
    ensures var o := order.(id := x.last + 1);
            Apply(x, New(order)) ==
            Exchange(x.last + 1, x.venues[order.security := NewTask(Acknowledge(x.venues[order.security], o), o)])
  {
  }

  lemma ApplyNew(x: Sound, order: OrderState) returns (y: Sound)
    requires Admissible(New(order), x.venues.Keys)
    ensures x.venues[order.security].book.Balanced() && y == Apply(x, New(order))
  {
    var v := x.venues[order.security];
    var o := order.(id := x.last + 1);
    NewSucceeds(v, x.last, o);
    ApplyNewIs(x, order);
    y := UpdateKeeps(x, order.security, NewTask(Acknowledge(v, o), o), x.last + 1);
  }

  lemma ApplyCancel(x: Sound, request: OrderState, original: string, text: string) returns (y: Sound)
    requires request.security in x.venues
    ensures x.venues[request.security].book.Balanced() && y == Apply(x, Cancel(request, original, text))
  {
    var v := x.venues[request.security];
    VenueBalanced(v, x.last);
    CancelSucceeds(v, x.last, request, original, text);
    y := UpdateKeeps(x, request.security, CancelTask(v, request, original, text), x.last);
  }

  /** An admissible command leads from a sound state to a sound state. */
  lemma ApplySound(x: Sound, c: Command)
    requires Admissible(c, x.venues.Keys)
    ensures x.venues[Security(c)].book.Balanced() && ExchangeInv(Apply(x, c)) && Apply(x, c).venues.Keys == x.venues.Keys
  {
    match c
    case New(order) => var y := ApplyNew(x, order);
    case Cancel(request, original, text) => var y := ApplyCancel(x, request, original, text);
  }

  lemma VenueBalanced(v: Venue, last: nat)
    requires VenueInv(v, last)
    ensures v.book.Balanced()
  {
  }

  ghost predicate AllAdmissible(cs: seq<Command>, securities: set<nat>) {
    forall i | 0 <= i < |cs| :: Admissible(cs[i], securities)
  }

  /** A run: every command applied in turn. */
  ghost function Run(x: Sound, cs: seq<Command>): (y: Sound)
    requires AllAdmissible(cs, x.venues.Keys)
    decreases |cs|
  {
    if cs == [] then x
    else
      var z := Next(x, cs[0]);
      assert z.venues.Keys == x.venues.Keys;
      assert AllAdmissible(cs[1..], z.venues.Keys);
      Run(z, cs[1..])
  }

  ghost function Next(x: Sound, c: Command): (y: Sound)
    requires Admissible(c, x.venues.Keys)
    ensures y.venues.Keys == x.venues.Keys
  {
    ApplySound(x, c);
    Apply(x, c)
  }
}
