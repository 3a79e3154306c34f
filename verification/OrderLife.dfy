/** What a client reads off the outgoing queues over a whole run: the life of each order, its average
    price, and the totals of both sides (`source/order_matcher/central_order_book.cpp`). */
module OrderLife {
  import opened Wrappers
  import opened Orders
  import opened Matching
  import opened Exchanges
  import ClosedForm

  /** The reports about one order, oldest first. */
  function Of(reports: seq<Report>, id: nat): seq<Report> {
    if reports == [] then []
    else
      var r := reports[|reports| - 1];
      Of(reports[..|reports| - 1], id) + if r.order.id == id && r.status != Rejected then [r] else []
  }

  function Spent(history: seq<Report>): real {
    if history == [] then 0.0
    else
      var r := history[|history| - 1];
      Spent(history[..|history| - 1]) + if IsTrade(r) then Amount(r.order) else 0.0
  }

  predicate Final(r: Report) {
    r.status == Filled || r.status == Canceled
  }

  /** `after` may follow `before` in the history of one order. */
  ghost predicate Follows(before: Report, after: Report) {
    && !Final(before)
    && if after.status == Canceled then after.order == before.order.(cancelled := true)
       else IsTrade(after) && after.order.executed > before.order.executed
            && after.order.quantity == before.order.quantity && after.order.price == before.order.price
            && after.order.side == before.order.side
  }

  /** ACCEPTED, then partial fills with growing executed quantity, then at most one final report. */
  ghost predicate WellLived(history: seq<Report>) {
    && (history != [] ==> history[0].status == Accepted && history[0].order.executed == 0)
    && (forall k | 0 <= k < |history| :: Balanced(history[k].order))
    && (forall k | 0 < k < |history| :: history[k].status != Accepted && Follows(history[k - 1], history[k]))
    && (forall k | 0 <= k < |history| :: history[k].status == Filled ==> history[k].order.open == 0)
    && (forall k | 0 <= k < |history| :: history[k].status == PartiallyFilled ==> history[k].order.open > 0)
  }

  lemma WellLivedPush(h: seq<Report>, r: Report)
    requires WellLived(h) && Balanced(r.order)
    requires if h == [] then r.status == Accepted && r.order.executed == 0
             else r.status != Accepted && Follows(h[|h| - 1], r)
    requires (r.status == Filled ==> r.order.open == 0) && (r.status == PartiallyFilled ==> r.order.open > 0)
    ensures WellLived(h + [r])
  {
    var t := h + [r];
    forall k | 0 < k < |t| ensures t[k].status != Accepted && Follows(t[k - 1], t[k]) {
      if k < |h| { assert t[k] == h[k] && t[k - 1] == h[k - 1]; }
    }
  }

  /** The history and the life agree. */
  ghost predicate Tells(h: seq<Report>, life: Life) {
    && WellLived(h)
    && (life.Unborn? <==> h == [])
    && (life.Done? <==> h != [] && Final(h[|h| - 1]))
    && (life.Live? ==> h[|h| - 1].order == life.order && life.paid == Spent(h))
  }

  /** A life that never broke is well lived, and says what the history says. */
  lemma {:induction false} HistoryOf(reports: seq<Report>, id: nat)
    requires !Track(reports, id).Broken?
    ensures Tells(Of(reports, id), Track(reports, id))
  {
    if reports != [] {
      var before := reports[..|reports| - 1];
      var r := reports[|reports| - 1];
      HistoryOf(before, id);
      if r.order.id == id && r.status != Rejected {
        HistoryPush(Of(before, id), Track(before, id), r);
      } else {
        assert Of(before, id) + [] == Of(before, id);
      }
    }
  }

  /** What one step of an unbroken life says about its report. */
  ghost predicate Moves(life: Life, r: Report, next: Life) {
    && Balanced(r.order)
    && (r.status == Filled ==> r.order.open == 0) && (r.status == PartiallyFilled ==> r.order.open > 0)
    && match life
       case Unborn => r.status == Accepted && r.order.executed == 0 && next == Live(r.order, 0.0)
       case Live(o, paid) =>
         && r.status != Accepted && Follows(Report(Accepted, o, ""), r)
         && next == if Final(r) then Done(r.status) else Live(r.order, paid + Amount(r.order))
       case _ => false
  }

  lemma AdvanceMoves(life: Life, r: Report)
    requires !Advance(life, r).Broken? && (life.Live? ==> Balanced(life.order))
    ensures Moves(life, r, Advance(life, r))
  {
  }

  lemma HistoryPush(h: seq<Report>, life: Life, r: Report)
    requires Tells(h, life) && !Advance(life, r).Broken?
    ensures Tells(h + [r], Advance(life, r))
  {
    AdvanceMoves(life, r);
    HistoryMoves(h, life, r, Advance(life, r));
  }

  lemma HistoryMoves(h: seq<Report>, life: Life, r: Report, next: Life)
    requires Tells(h, life) && Moves(life, r, next)
    ensures Tells(h + [r], next)
  {
    assert (h + [r])[..|h|] == h;
    WellLivedPush(h, r);
  }

  /** Breaking is for good, so every prefix of an unbroken history is unbroken. */
  lemma {:induction false} TrackPrefix(reports: seq<Report>, k: nat, id: nat)
    requires k <= |reports| && !Track(reports, id).Broken?
    ensures !Track(reports[..k], id).Broken?
  {
    if k < |reports| {
      assert reports[..|reports| - 1][..k] == reports[..k];
      TrackPrefix(reports[..|reports| - 1], k, id);
    } else {
      assert reports[..k] == reports;
    }
  }

  // ----- The average price -----

  /** Buys have paid at most their limit per unit, sells have received exactly theirs. */
  ghost predicate WithinLimit(o: OrderState, paid: real) {
    && (o.side == Buy ==> paid <= o.price * o.executed as real)
    && (o.side == Sell ==> paid == o.price * o.executed as real)
  }

  lemma FillWithinLimit(o: OrderState, paid: real, n: OrderState)
    requires IsFill(o, paid, n) && WithinLimit(o, paid)
    ensures WithinLimit(n, paid + Amount(n))
  {
    var q := n.lastQuantity as real;
    assert n.executed as real == o.executed as real + q;
    assert n.price * n.executed as real == o.price * o.executed as real + n.price * q;
    if n.side == Buy { assert n.lastPrice * q <= n.price * q; }
  }

  lemma {:induction false} LiveWithinLimit(reports: seq<Report>, id: nat)
    requires Track(reports, id).Live?
    ensures WithinLimit(Track(reports, id).order, Track(reports, id).paid) && Track(reports, id).order.executed >= 0
  {
    var r := reports[|reports| - 1];
    var before := Track(reports[..|reports| - 1], id);
    if r.order.id == id && r.status != Rejected {
      if before.Live? {
        LiveWithinLimit(reports[..|reports| - 1], id);
        FillWithinLimit(before.order, before.paid, r.order);
      }
    } else {
      LiveWithinLimit(reports[..|reports| - 1], id);
    }
  }

  lemma AverageOf(o: OrderState, paid: real)
    requires Paid(o, paid) && WithinLimit(o, paid) && o.executed > 0
    ensures o.side == Buy ==> o.average.value <= o.price
    ensures o.side == Sell ==> o.average.value == o.price
  {
    var e := o.executed as real;
    CancelFactor(o.average.value, o.price, e);
    CancelFactor(o.price, o.average.value, e);
  }

  lemma CancelFactor(a: real, b: real, e: real)
    requires e > 0.0
    ensures a * e <= b * e ==> a <= b
  {
    if a > b { assert (a - b) * e > 0.0; }
  }

  /** In every fill report the average times the executed quantity is the sum of price times quantity over
      that order's trades so far; a buy's average is within its limit, a sell's is its limit. */
  lemma {:induction false} AverageInReports(reports: seq<Report>, k: nat)
    requires k < |reports| && IsTrade(reports[k]) && !Track(reports, reports[k].order.id).Broken?
    ensures var o := reports[k].order;
            && Paid(o, Spent(Of(reports[..k + 1], o.id)))
            && o.executed > 0
            && (o.side == Buy ==> o.average.value <= o.price)
            && (o.side == Sell ==> o.average.value == o.price)
  {
    TrackPrefix(reports, k + 1, reports[k].order.id);
    assert reports[..k + 1] == reports[..k] + [reports[k]];
    AverageInLast(reports[..k], reports[k]);
  }

  lemma AverageInLast(before: seq<Report>, r: Report)
    requires IsTrade(r) && !Track(before + [r], r.order.id).Broken?
    ensures Paid(r.order, Spent(Of(before + [r], r.order.id)))
    ensures r.order.executed > 0
    ensures r.order.side == Buy ==> r.order.average.value <= r.order.price
    ensures r.order.side == Sell ==> r.order.average.value == r.order.price
  {
    var id := r.order.id;
    var life := Track(before, id);
    TrackLast(before, r, id);
    HistoryOf(before, id);
    LiveWithinLimit(before, id);
    FillAverage(life.order, life.paid, r.order);
    SpentLast(before, r);
  }

  lemma SpentLast(before: seq<Report>, r: Report)
    requires IsTrade(r)
    ensures Spent(Of(before + [r], r.order.id)) == Spent(Of(before, r.order.id)) + Amount(r.order)
  {
    OfLast(before, r);
    SpentPush(Of(before, r.order.id), r);
  }

  lemma OfLast(before: seq<Report>, r: Report)
    requires r.status != Rejected
    ensures Of(before + [r], r.order.id) == Of(before, r.order.id) + [r]
  {
    assert (before + [r])[..|before|] == before;
  }

  lemma SpentPush(h: seq<Report>, r: Report)
    requires IsTrade(r)
    ensures Spent(h + [r]) == Spent(h) + Amount(r.order)
  {
    assert (h + [r])[..|h|] == h;
  }

  lemma FillAverage(o: OrderState, paid: real, n: OrderState)
    requires IsFill(o, paid, n) && WithinLimit(o, paid) && o.executed >= 0
    ensures Paid(n, paid + Amount(n)) && n.executed > 0
    ensures n.side == Buy ==> n.average.value <= n.price
    ensures n.side == Sell ==> n.average.value == n.price
  {
    FillWithinLimit(o, paid, n);
    AverageOf(n, paid + Amount(n));
  }

  // ----- Over every run -----

  /** For every run of admissible commands from empty books, every security and every order number: the
      reports tell a well-lived history. */
  lemma {:induction false} RunLife(securities: set<nat>, cs: seq<Command>, s: nat, id: nat)
    requires AllAdmissible(cs, securities) && s in securities
    ensures Run(Start(securities), cs).venues.Keys == securities
    ensures var venues := Run(Start(securities), cs).venues;
            WellLived(Of(venues[s].reports, id))
  {
    RunKeys(Start(securities), cs);
    SoundLife(Run(Start(securities), cs), s, id);
  }

  lemma SoundLife(x: Sound, s: nat, id: nat)
    requires s in x.venues
    ensures WellLived(Of(x.venues[s].reports, id))
  {
    Unbroken(x.venues[s], x.last, id);
    HistoryOf(x.venues[s].reports, id);
  }

  /** No order is reported in two securities. */
  lemma {:induction false} RunBornOnce(securities: set<nat>, cs: seq<Command>, s: nat, t: nat, id: nat)
    requires AllAdmissible(cs, securities) && s in securities && t in securities && s != t
    ensures Run(Start(securities), cs).venues.Keys == securities
    ensures var venues := Run(Start(securities), cs).venues;
            Of(venues[s].reports, id) == [] || Of(venues[t].reports, id) == []
  {
    RunKeys(Start(securities), cs);
    SoundApart(Run(Start(securities), cs), s, t, id);
  }

  lemma SoundApart(x: Sound, s: nat, t: nat, id: nat)
    requires s in x.venues && t in x.venues && s != t
    ensures Of(x.venues[s].reports, id) == [] || Of(x.venues[t].reports, id) == []
  {
    BornOnce(x.venues[s], x.venues[t], x.last, id);
  }

  lemma BornOnce(v: Venue, w: Venue, last: nat, id: nat)
    requires VenueInv(v, last) && VenueInv(w, last) && Apart(v, w)
    ensures Of(v.reports, id) == [] || Of(w.reports, id) == []
  {
    Unbroken(v, last, id);
    Unbroken(w, last, id);
    HistoryOf(v.reports, id);
    HistoryOf(w.reports, id);
  }

  lemma {:induction false} RunKeys(x: Sound, cs: seq<Command>)
    requires AllAdmissible(cs, x.venues.Keys)
    ensures Run(x, cs).venues.Keys == x.venues.Keys
    decreases |cs|
  {
    if cs != [] {
      var z := Next(x, cs[0]);
      assert AllAdmissible(cs[1..], z.venues.Keys);
      RunKeys(z, cs[1..]);
    }
  }

  lemma Unbroken(v: Venue, last: nat, id: nat)
    requires VenueInv(v, last)
    ensures !Track(v.reports, id).Broken?
  {
    if id in Ids(v.book.bids) {
      var i :| 0 <= i < |v.book.bids| && v.book.bids[i].id == id;
      assert IsLive(v.reports, v.book.bids[i]);
    } else if id in Ids(v.book.asks) {
      var i :| 0 <= i < |v.book.asks| && v.book.asks[i].id == id;
      assert IsLive(v.reports, v.book.asks[i]);
    } else {
      assert Over(Track(v.reports, id));
    }
  }

  /** The average price in a fill report, as the trades of that order so far have it. */
  ghost predicate AverageTells(reports: seq<Report>, k: nat)
    requires k < |reports|
  {
    var o := reports[k].order;
    IsTrade(reports[k]) ==>
      && Paid(o, Spent(Of(reports[..k + 1], o.id))) && o.executed > 0 && o.average.Some?
      && (o.side == Buy ==> o.average.value <= o.price) && (o.side == Sell ==> o.average.value == o.price)
  }

  /** In every run every fill report carries the exact volume-weighted price of its order's trades. */
  lemma {:induction false} RunAverages(securities: set<nat>, cs: seq<Command>, s: nat, k: nat)
    requires AllAdmissible(cs, securities) && s in securities
    ensures Run(Start(securities), cs).venues.Keys == securities
    ensures var reports := Run(Start(securities), cs).venues[s].reports;
            k < |reports| ==> AverageTells(reports, k)
  {
    RunKeys(Start(securities), cs);
    SoundAverages(Run(Start(securities), cs), s, k);
  }

  lemma SoundAverages(x: Sound, s: nat, k: nat)
    requires s in x.venues
    ensures k < |x.venues[s].reports| ==> AverageTells(x.venues[s].reports, k)
  {
    var reports := x.venues[s].reports;
    if k < |reports| && IsTrade(reports[k]) {
      Unbroken(x.venues[s], x.last, reports[k].order.id);
      AverageInReports(reports, k);
    }
  }

  /** The book invariant of every reachable state: both sides in price-time order, every resting order with
      open quantity left and balanced, no number twice, and best bid below best ask. */
  lemma {:induction false} RunStands(securities: set<nat>, cs: seq<Command>, s: nat)
    requires AllAdmissible(cs, securities) && s in securities
    ensures Run(Start(securities), cs).venues.Keys == securities
    ensures var x := Run(Start(securities), cs); Standing(x.venues[s].book, x.last)
  {
    RunKeys(Start(securities), cs);
    SoundStands(Run(Start(securities), cs), s);
  }

  lemma SoundStands(x: Sound, s: nat)
    requires s in x.venues
    ensures Standing(x.venues[s].book, x.last)
  {
    assert VenueInv(x.venues[s], x.last);
  }

  /** No bid reaches any ask, and both sides are in price-time order: bids from the highest price down, asks from the
      lowest up, earlier numbers first at equal prices. */
  ghost predicate Uncrossed(b: Book) {
    && (forall i, j | 0 <= i < |b.bids| && 0 <= j < |b.asks| :: b.bids[i].price < b.asks[j].price)
    && (forall i, j | 0 <= i < j < |b.bids| ::
          b.bids[i].price > b.bids[j].price || (b.bids[i].price == b.bids[j].price && b.bids[i].id < b.bids[j].id))
    && (forall i, j | 0 <= i < j < |b.asks| ::
          b.asks[i].price < b.asks[j].price || (b.asks[i].price == b.asks[j].price && b.asks[i].id < b.asks[j].id))
  }

  lemma StandingUncrossed(b: Book, last: nat)
    requires Standing(b, last)
    ensures Uncrossed(b)
  {
    forall i, j | 0 <= i < |b.bids| && 0 <= j < |b.asks| ensures b.bids[i].price < b.asks[j].price {
      assert i > 0 ==> Before(Buy, b.bids[0], b.bids[i]);
      assert j > 0 ==> Before(Sell, b.asks[0], b.asks[j]);
    }
    forall i, j | 0 <= i < j < |b.bids| ensures Before(Buy, b.bids[i], b.bids[j]) {}
    forall i, j | 0 <= i < j < |b.asks| ensures Before(Sell, b.asks[i], b.asks[j]) {}
  }

  lemma SoundUncrossed(x: Sound, s: nat)
    requires s in x.venues
    ensures Uncrossed(x.venues[s].book)
  {
    StandingUncrossed(x.venues[s].book, x.last);
  }

  /** So it is in every reachable state. */
  lemma {:induction false} RunUncrossed(securities: set<nat>, cs: seq<Command>, s: nat)
    requires AllAdmissible(cs, securities) && s in securities
    ensures Run(Start(securities), cs).venues.Keys == securities
    ensures Uncrossed(Run(Start(securities), cs).venues[s].book)
  {
    RunKeys(Start(securities), cs);
    SoundUncrossed(Run(Start(securities), cs), s);
  }

  /** For every run and security: quantities accepted on a side are open, executed or cancelled; both sides
      executed the same quantity for the same money; and there are at most as many trades as orders. */
  lemma {:induction false} RunConserves(securities: set<nat>, cs: seq<Command>, s: nat)
    requires AllAdmissible(cs, securities) && s in securities
    ensures Run(Start(securities), cs).venues.Keys == securities
    ensures var v := Run(Start(securities), cs).venues[s];
            var buys, sells := Totals(v.reports, Buy), Totals(v.reports, Sell);
            && buys.accepted == ClosedForm.OpenTotal(v.book.bids) + buys.executed + buys.cancelled
            && sells.accepted == ClosedForm.OpenTotal(v.book.asks) + sells.executed + sells.cancelled
            && buys.executed == sells.executed && Cash(v.reports, Buy) == Cash(v.reports, Sell)
            && buys.fills == sells.fills <= buys.orders + sells.orders
  {
    RunKeys(Start(securities), cs);
    SoundConserved(Run(Start(securities), cs), s);
  }

  lemma SoundConserved(x: Sound, s: nat)
    requires s in x.venues
    ensures Conserved(x.venues[s].book, x.venues[s].reports)
  {
    assert VenueInv(x.venues[s], x.last);
  }

  // ----- Trades come in pairs -----

  /** Both sides of one trade: the ask's price, the same quantity. */
  predicate IsPair(bid: Report, ask: Report) {
    && IsTrade(bid) && IsTrade(ask) && bid.order.side == Buy && ask.order.side == Sell
    && bid.order.lastQuantity == ask.order.lastQuantity > 0
    && bid.order.lastPrice == ask.order.lastPrice == ask.order.price <= bid.order.price
  }

  /** A buy's fill is followed by the sell's fill of the same trade, and a sell's fill preceded by the buy's. */
  predicate PairedAt(reports: seq<Report>, k: nat)
    requires k < |reports|
  {
    IsTrade(reports[k]) ==>
      if reports[k].order.side == Buy then k + 1 < |reports| && IsPair(reports[k], reports[k + 1])
      else k > 0 && IsPair(reports[k - 1], reports[k])
  }

  ghost predicate Paired(reports: seq<Report>) {
    forall k | 0 <= k < |reports| :: PairedAt(reports, k)
  }

  lemma PairedOther(reports: seq<Report>, r: Report)
    requires Paired(reports) && !IsTrade(r)
    ensures Paired(reports + [r])
  {
    forall k | 0 <= k < |reports + [r]| ensures PairedAt(reports + [r], k) {
      if k < |reports| { assert PairedAt(reports, k); }
    }
  }

  lemma PairedTrade(reports: seq<Report>, bid: Report, ask: Report)
    requires Paired(reports) && IsPair(bid, ask)
    ensures Paired(reports + [bid, ask])
  {
    forall k | 0 <= k < |reports + [bid, ask]| ensures PairedAt(reports + [bid, ask], k) {
      if k < |reports| { assert PairedAt(reports, k); }
    }
  }

  lemma RoundPaired(b: Book, reports: seq<Report>, last: nat)
    requires Busy(b, reports, last) && b.Crossed() && Paired(reports)
    ensures Paired(reports + FillReports(RoundTrades(b)))
  {
    var bid, ask := b.bids[0], b.asks[0];
    assert Resting(bid, Buy, last) && Resting(ask, Sell, last);
    var tb, ta := TradedBid(bid, ask), TradedAsk(bid, ask);
    PairedTrade(reports, FillReport(tb), FillReport(ta));
    assert FillReports([tb, ta]) == [FillReport(tb), FillReport(ta)];
  }

  lemma MatchPaired(b: Book, reports: seq<Report>, last: nat)
    requires Busy(b, reports, last) && Paired(reports)
    ensures b.Balanced() && Paired(reports + FillReports(Match(b).trades))
  {
    forall c, r | Busy(c, r, last) ensures c.Balanced() { BusyBalanced(c, r, last); }
    forall c, r | Busy(c, r, last) && Paired(r) && c.Crossed()
      ensures Busy(Round(c), r + FillReports(RoundTrades(c)), last) && Paired(r + FillReports(RoundTrades(c)))
    {
      RoundBusy(c, r, last);
      RoundPaired(c, r, last);
    }
    MatchInduction((c, r) => Busy(c, r, last) && Paired(r), b, reports);
  }

  lemma NewPaired(v: Venue, last: nat, o: OrderState)
    requires VenueInv(v, last) && Acceptable(o) && o.id == last + 1 && Paired(v.reports)
    ensures v.book.Balanced() && Paired(NewTask(Acknowledge(v, o), o).reports)
  {
    InsertKeepsOrdered(v.book, last, o);
    AcceptLives(v.book, v.reports, last, o);
    AcceptConserved(v.book, v.reports, o);
    PairedOther(v.reports, Report(Accepted, o, ""));
    MatchPaired(Insert(v.book, o), v.reports + [Report(Accepted, o, "")], last + 1);
  }

  lemma CancelPaired(v: Venue, last: nat, request: OrderState, original: string, text: string)
    requires VenueInv(v, last) && Paired(v.reports)
    ensures Paired(CancelTask(v, request, original, text).reports)
  {
    match Found(v.book, request.side, request.session, original)
    case Some(i) =>
      CancelFound(v, last, request, original, text, i);
      PairedOther(v.reports, CancelReport(v.book.Side(request.side)[i]));
    case None => PairedOther(v.reports, Report(Rejected, request, text));
  }

  /** The venue that a command changes, afterwards. */
  function After(v: Venue, last: nat, c: Command): Venue
    requires v.book.Balanced() && (c.New? ==> Balanced(c.order))
  {
    match c
    case New(order) => var o := order.(id := last + 1); NewTask(Acknowledge(v, o), o)
    case Cancel(request, original, text) => CancelTask(v, request, original, text)
  }

  lemma ApplyAfter(x: Exchange, c: Command)
    requires Security(c) in x.venues
    requires x.venues[Security(c)].book.Balanced() && (c.New? ==> Balanced(c.order))
    ensures Apply(x, c).venues == x.venues[Security(c) := After(x.venues[Security(c)], x.last, c)]
  {
  }

  lemma AfterPaired(v: Venue, last: nat, c: Command)
    requires VenueInv(v, last) && Paired(v.reports) && (c.New? ==> Acceptable(c.order))
    ensures v.book.Balanced() && Paired(After(v, last, c).reports)
  {
    match c
    case New(order) => NewPaired(v, last, order.(id := last + 1));
    case Cancel(request, original, text) =>
      VenueBalanced(v, last);
      CancelPaired(v, last, request, original, text);
  }

  lemma SoundAfter(x: Sound, c: Command)
    requires Admissible(c, x.venues.Keys) && Paired(x.venues[Security(c)].reports)
    ensures x.venues[Security(c)].book.Balanced() && Paired(After(x.venues[Security(c)], x.last, c).reports)
  {
    AfterPaired(x.venues[Security(c)], x.last, c);
  }

  lemma NextAfter(x: Sound, c: Command)
    requires Admissible(c, x.venues.Keys)
    ensures x.venues[Security(c)].book.Balanced()
    ensures Next(x, c).venues == x.venues[Security(c) := After(x.venues[Security(c)], x.last, c)]
  {
    VenueBalanced(x.venues[Security(c)], x.last);
    ApplyAfter(x, c);
  }

  lemma NextPaired(x: Sound, c: Command, s: nat)
    requires Admissible(c, x.venues.Keys) && s in x.venues && Paired(x.venues[s].reports)
    ensures Paired(Next(x, c).venues[s].reports)
  {
    NextAfter(x, c);
    if s == Security(c) { SoundAfter(x, c); }
  }

  lemma {:induction false} RunPaired(x: Sound, cs: seq<Command>, s: nat)
    requires AllAdmissible(cs, x.venues.Keys) && s in x.venues && Paired(x.venues[s].reports)
    ensures Run(x, cs).venues.Keys == x.venues.Keys && Paired(Run(x, cs).venues[s].reports)
    decreases |cs|
  {
    if cs != [] {
      var z := Next(x, cs[0]);
      NextPaired(x, cs[0], s);
      assert AllAdmissible(cs[1..], z.venues.Keys);
      RunPaired(z, cs[1..], s);
    }
  }

  /** In every run a security's fill reports are adjacent pairs of a buy and a sell, for the same quantity and at the
      sell's own price, which the buy accepts. */
  lemma RunPairs(securities: set<nat>, cs: seq<Command>, s: nat)
    requires AllAdmissible(cs, securities) && s in securities
    ensures Run(Start(securities), cs).venues.Keys == securities
    ensures Paired(Run(Start(securities), cs).venues[s].reports)
  {
    RunPaired(Start(securities), cs, s);
  }
}
