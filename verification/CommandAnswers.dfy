/** What every command is answered, told from the book and the reports alone, in every reachable state
    (`source/order_matcher/central_order_book.cpp`, `source/order_matcher/order_book.cpp`). */
module CommandAnswers {
  import opened Wrappers
  import opened Orders
  import opened Matching
  import opened Exchanges
  import opened OrderLife
  import ClosedForm

  // ----- A cancel -----

  predicate Named(o: OrderState, session: nat, clientId: string) {
    o.session == session && o.clientId == clientId
  }

  ghost predicate NoneNamed(s: seq<OrderState>, session: nat, clientId: string) {
    forall k | 0 <= k < |s| :: !Named(s[k], session, clientId)
  }

  /** The first order of a side that has these two ids goes, and exactly it; the one new report names it. */
  ghost predicate TakenOut(s: seq<OrderState>, t: seq<OrderState>, before: seq<Report>, after: seq<Report>,
                           session: nat, clientId: string)
  {
    exists i: nat | i < |s| && Named(s[i], session, clientId) ::
      && (forall k | 0 <= k < i :: !Named(s[k], session, clientId))
      && t == s[..i] + s[i + 1..]
      && after == before + [Report(Canceled, s[i].(cancelled := true), "Order canceled")]
  }

  /** The book is as it was, and the one new report returns the request with the text. */
  predicate TurnedDown(v: Venue, w: Venue, request: OrderState, text: string) {
    w.book == v.book && w.reports == v.reports + [Report(Rejected, request, text)]
  }

  /** The whole answer to a cancel. */
  ghost predicate CancelAnswered(v: Venue, w: Venue, request: OrderState, original: string, text: string) {
    match request.side
    case Buy =>
      if NoneNamed(v.book.bids, request.session, original) then TurnedDown(v, w, request, text)
      else w.book.asks == v.book.asks
           && TakenOut(v.book.bids, w.book.bids, v.reports, w.reports, request.session, original)
    case Sell =>
      if NoneNamed(v.book.asks, request.session, original) then TurnedDown(v, w, request, text)
      else w.book.bids == v.book.bids
           && TakenOut(v.book.asks, w.book.asks, v.reports, w.reports, request.session, original)
    case NonSupported => TurnedDown(v, w, request, text)
  }

  lemma WithoutIs<T>(s: seq<T>, i: nat)
    requires i < |s|
    ensures Without(s, i) == s[..i] + s[i + 1..]
  {
  }

  lemma CancelOn(s: seq<OrderState>, before: seq<Report>, i: nat, session: nat, clientId: string)
    requires i < |s| && i == FirstMatch(s, session, clientId)
    ensures TakenOut(s, Without(s, i), before, before + [CancelReport(s[i])], session, clientId)
  {
    WithoutIs(s, i);
    assert Named(s[i], session, clientId);
  }

  /** On every ordered book. */
  lemma CancelExactly(v: Venue, last: nat, request: OrderState, original: string, text: string)
    requires Ordered(v.book, last)
    ensures CancelAnswered(v, CancelTask(v, request, original, text), request, original, text)
  {
    var s := if request.side == Buy then v.book.bids else v.book.asks;
    var i := FirstMatch(s, request.session, original);
    if request.side != NonSupported && i < |s| {
      assert Named(s[i], request.session, original);
      CancelFound(v, last, request, original, text, i);
      CancelOn(s, v.reports, i, request.session, original);
    }
  }

  // ----- A new order -----

  /** One report for every executed copy, FILLED when nothing of it is left to execute. */
  ghost predicate FillsReported(reports: seq<Report>, at: nat, trades: seq<OrderState>) {
    && |reports| == at + |trades|
    && forall j | 0 <= j < |trades| ::
         reports[at + j] == Report(if trades[j].executed == trades[j].quantity then Filled else PartiallyFilled,
                                   trades[j], "")
  }

  /** The whole answer to a new order: it is reported ACCEPTED as it came, then trades and rests as the closed form says,
      and every share is reported. */
  ghost predicate NewAnswered(v: Venue, w: Venue, o: OrderState) {
    var own := if o.side == Buy then v.book.bids else v.book.asks;
    var makers := if o.side == Buy then v.book.asks else v.book.bids;
    exists t: nat, trades: seq<OrderState> ::
      && ClosedForm.Outcome(o, own, makers, t, Matched(w.book, trades))
      && v.reports + [Report(Accepted, o, "")] <= w.reports && FillsReported(w.reports, |v.reports| + 1, trades)
  }

  lemma NewExactly(v: Venue, last: nat, o: OrderState)
    requires Standing(v.book, last) && Acceptable(o) && o.id == last + 1
    ensures v.book.Balanced() && NewAnswered(v, NewTask(Acknowledge(v, o), o), o)
  {
    var t := ClosedForm.SubmitIs(v.book, last, o);
    var m := Submit(v.book, o);
    assert NewTask(Acknowledge(v, o), o) ==
           Venue(m.book, v.reports + [Report(Accepted, o, "")] + FillReports(m.trades));
    ReportsOf(v.reports + [Report(Accepted, o, "")], m.trades);
    assert ClosedForm.Outcome(o, v.book.Side(o.side), v.book.Side(ClosedForm.Opposite(o.side)), t,
                              Matched(m.book, m.trades));
  }

  lemma ReportsOf(before: seq<Report>, trades: seq<OrderState>)
    ensures before <= before + FillReports(trades) && FillsReported(before + FillReports(trades), |before|, trades)
  {
  }

  // ----- In every reachable state -----

  /** What a command does to its venue. */
  ghost predicate VenueAnswered(v: Venue, w: Venue, last: nat, c: Command) {
    match c
    case New(order) => NewAnswered(v, w, order.(id := last + 1))
    case Cancel(request, original, text) => CancelAnswered(v, w, request, original, text)
  }

  /** Nothing but the command's own venue changes, and only a new order takes a number. */
  ghost predicate Answered(x: Exchange, y: Exchange, c: Command) {
    && y.venues.Keys == x.venues.Keys && Security(c) in x.venues
    && (forall s | s in x.venues && s != Security(c) :: y.venues[s] == x.venues[s])
    && y.last == (if c.New? then x.last + 1 else x.last)
    && VenueAnswered(x.venues[Security(c)], y.venues[Security(c)], x.last, c)
  }

  lemma AfterAnswered(v: Venue, last: nat, c: Command)
    requires VenueInv(v, last) && (c.New? ==> Acceptable(c.order))
    ensures v.book.Balanced() && VenueAnswered(v, After(v, last, c), last, c)
  {
    match c
    case New(order) => NewExactly(v, last, order.(id := last + 1));
    case Cancel(request, original, text) => CancelExactly(v, last, request, original, text);
  }

  lemma SoundVenue(x: Sound, c: Command)
    requires Admissible(c, x.venues.Keys)
    ensures x.venues[Security(c)].book.Balanced()
    ensures VenueAnswered(x.venues[Security(c)], After(x.venues[Security(c)], x.last, c), x.last, c)
  {
    AfterAnswered(x.venues[Security(c)], x.last, c);
  }

  lemma AnsweredBy(x: Exchange, y: Exchange, c: Command, w: Venue)
    requires Security(c) in x.venues && y.venues == x.venues[Security(c) := w]
    requires y.last == if c.New? then x.last + 1 else x.last
    requires VenueAnswered(x.venues[Security(c)], w, x.last, c)
    ensures Answered(x, y, c)
  {
  }

  lemma SoundAnswered(x: Sound, y: Exchange, c: Command)
    requires Admissible(c, x.venues.Keys) && x.venues[Security(c)].book.Balanced()
    requires y.venues == x.venues[Security(c) := After(x.venues[Security(c)], x.last, c)]
    requires y.last == if c.New? then x.last + 1 else x.last
    ensures Answered(x, y, c)
  {
    SoundVenue(x, c);
    AnsweredBy(x, y, c, After(x.venues[Security(c)], x.last, c));
  }

  lemma NextAnswered(x: Sound, c: Command)
    requires Admissible(c, x.venues.Keys)
    ensures Answered(x, Next(x, c), c)
  {
    NextAfter(x, c);
    NextNumber(x, c);
    SoundAnswered(x, Next(x, c), c);
  }

  lemma ApplyNumber(x: Exchange, c: Command)
    requires Security(c) in x.venues
    requires x.venues[Security(c)].book.Balanced() && (c.New? ==> Balanced(c.order))
    ensures Apply(x, c).last == if c.New? then x.last + 1 else x.last
  {
  }

  lemma NextNumber(x: Sound, c: Command)
    requires Admissible(c, x.venues.Keys)
    ensures Next(x, c).last == if c.New? then x.last + 1 else x.last
  {
    VenueBalanced(x.venues[Security(c)], x.last);
    ApplyNumber(x, c);
  }

  lemma AdmissibleMore(cs: seq<Command>, c: Command, securities: set<nat>)
    requires AllAdmissible(cs, securities) && Admissible(c, securities)
    ensures AllAdmissible(cs + [c], securities)
    ensures if cs == [] then cs + [c] == [c] else (cs + [c])[0] == cs[0] && (cs + [c])[1..] == cs[1..] + [c]
    ensures cs != [] ==> AllAdmissible(cs[1..], securities)
  {
  }

  lemma {:induction false} RunOneMore(x: Sound, cs: seq<Command>, c: Command)
    requires AllAdmissible(cs, x.venues.Keys) && Admissible(c, x.venues.Keys)
    ensures AllAdmissible(cs + [c], x.venues.Keys) && Run(x, cs).venues.Keys == x.venues.Keys
    ensures Run(x, cs + [c]) == Next(Run(x, cs), c)
    decreases |cs|
  {
    AdmissibleMore(cs, c, x.venues.Keys);
    if cs == [] {
      RunOne(x, cs + [c]);
    } else {
      var z := Next(x, cs[0]);
      RunOneMore(z, cs[1..], c);
    }
  }

  lemma RunOne(x: Sound, cs: seq<Command>)
    requires |cs| == 1 && AllAdmissible(cs, x.venues.Keys)
    ensures Run(x, cs) == Next(x, cs[0])
  {
    RunNone(Next(x, cs[0]), cs[1..]);
  }

  lemma RunNone(x: Sound, cs: seq<Command>)
    requires cs == [] && AllAdmissible(cs, x.venues.Keys)
    ensures Run(x, cs) == x
  {
  }

  /** After every run, the next command is answered in exactly this way. */
  lemma RunAnswered(securities: set<nat>, cs: seq<Command>, c: Command)
    requires AllAdmissible(cs, securities) && Admissible(c, securities)
    ensures AllAdmissible(cs + [c], securities)
    ensures Answered(Run(Start(securities), cs), Run(Start(securities), cs + [c]), c)
  {
    RunOneMore(Start(securities), cs, c);
    NextAnswered(Run(Start(securities), cs), c);
  }

  // ----- A cancel, from the reports alone -----

  /** As last reported, the order is accepted and neither filled nor cancelled. */
  ghost predicate Open(reports: seq<Report>, o: OrderState) {
    var h := Of(reports, o.id);
    h != [] && !Final(h[|h| - 1]) && h[|h| - 1].order == o
  }

  /** A cancel can mean this order. */
  ghost predicate Meant(reports: seq<Report>, o: OrderState, request: OrderState, original: string) {
    Open(reports, o) && o.side == request.side && Named(o, request.session, original)
  }

  /** The resting orders are those that are open by the reports. */
  lemma RestingIsOpen(v: Venue, last: nat, o: OrderState)
    requires VenueInv(v, last)
    ensures o in v.book.bids || o in v.book.asks <==> Open(v.reports, o)
  {
    Unbroken(v, last, o.id);
    HistoryOf(v.reports, o.id);
    if o in v.book.bids {
      var i :| 0 <= i < |v.book.bids| && v.book.bids[i] == o;
      assert IsLive(v.reports, v.book.bids[i]);
    } else if o in v.book.asks {
      var i :| 0 <= i < |v.book.asks| && v.book.asks[i] == o;
      assert IsLive(v.reports, v.book.asks[i]);
    } else if Open(v.reports, o) {
      LiveRests(v, last, o);
    }
  }

  lemma LiveRests(v: Venue, last: nat, o: OrderState)
    requires VenueInv(v, last)
    requires Track(v.reports, o.id).Live? && Track(v.reports, o.id).order == o
    ensures o in v.book.bids || o in v.book.asks
  {
    if o.id in Ids(v.book.bids) {
      var i :| 0 <= i < |v.book.bids| && v.book.bids[i].id == o.id;
      assert IsLive(v.reports, v.book.bids[i]);
    } else if o.id in Ids(v.book.asks) {
      var i :| 0 <= i < |v.book.asks| && v.book.asks[i].id == o.id;
      assert IsLive(v.reports, v.book.asks[i]);
    }
  }

  /** `o` is matched before `p` on their side: better price, or the same price and an earlier number. */
  predicate Ahead(o: OrderState, p: OrderState) {
    || (if o.side == Buy then o.price > p.price else o.price < p.price)
    || (o.price == p.price && o.id < p.id)
  }

  /** Of the open orders that a cancel can mean the one ahead of all others is reported CANCELED; without one the request
      is reported REJECTED. */
  ghost predicate CancelReported(before: seq<Report>, after: seq<Report>, request: OrderState, original: string,
                                 text: string)
  {
    if exists o :: Meant(before, o, request, original) then
      exists o | Meant(before, o, request, original) ::
        && (forall p | Meant(before, p, request, original) && p != o :: Ahead(o, p))
        && after == before + [Report(Canceled, o.(cancelled := true), "Order canceled")]
    else after == before + [Report(Rejected, request, text)]
  }

  /** The orders a cancel can mean are the named ones of the side it names. */
  lemma MeantIsNamed(v: Venue, last: nat, o: OrderState, request: OrderState, original: string)
    requires VenueInv(v, last)
    ensures Meant(v.reports, o, request, original) <==>
            request.side != NonSupported && o in v.book.Side(request.side) && Named(o, request.session, original)
  {
    RestingIsOpen(v, last, o);
    if o in v.book.bids {
      var i :| 0 <= i < |v.book.bids| && v.book.bids[i] == o;
      assert Resting(v.book.bids[i], Buy, last);
    }
    if o in v.book.asks {
      var i :| 0 <= i < |v.book.asks| && v.book.asks[i] == o;
      assert Resting(v.book.asks[i], Sell, last);
    }
  }

  /** One side, its named orders given by a predicate. */
  lemma SideReported(s: seq<OrderState>, side: Side, last: nat, t: seq<OrderState>, before: seq<Report>,
                     after: seq<Report>, request: OrderState, original: string)
    requires side != NonSupported && SideOrdered(s, side, last)
    requires forall o :: Meant(before, o, request, original) <==> o in s && Named(o, request.session, original)
    requires TakenOut(s, t, before, after, request.session, original)
    ensures CancelReported(before, after, request, original, "")
  {
    var i: nat :| i < |s| && Named(s[i], request.session, original)
                  && (forall k | 0 <= k < i :: !Named(s[k], request.session, original))
                  && t == s[..i] + s[i + 1..]
                  && after == before + [Report(Canceled, s[i].(cancelled := true), "Order canceled")];
    assert Resting(s[i], side, last) && Meant(before, s[i], request, original);
    forall p | Meant(before, p, request, original) && p != s[i] ensures Ahead(s[i], p) {
      var k :| 0 <= k < |s| && s[k] == p;
      assert i < k && Before(side, s[i], s[k]);
    }
  }

  lemma CancelTells(v: Venue, last: nat, w: Venue, request: OrderState, original: string, text: string)
    requires VenueInv(v, last) && CancelAnswered(v, w, request, original, text)
    ensures CancelReported(v.reports, w.reports, request, original, text)
  {
    forall o ensures Meant(v.reports, o, request, original) <==>
                     request.side != NonSupported && o in v.book.Side(request.side)
                     && Named(o, request.session, original)
    {
      MeantIsNamed(v, last, o, request, original);
    }
    var s, t := v.book.Side(request.side), w.book.Side(request.side);
    if request.side != NonSupported && !NoneNamed(s, request.session, original) {
      SideReported(s, request.side, last, t, v.reports, w.reports, request, original);
      assert exists o :: Meant(v.reports, o, request, original);
    }
  }

  lemma SoundTells(x: Sound, w: Venue, request: OrderState, original: string, text: string)
    requires request.security in x.venues
    requires CancelAnswered(x.venues[request.security], w, request, original, text)
    ensures CancelReported(x.venues[request.security].reports, w.reports, request, original, text)
  {
    CancelTells(x.venues[request.security], x.last, w, request, original, text);
  }

  /** After every run, a cancel is reported CANCELED if and only if some order of its security, side, session and client
      id was accepted and has no final report yet; it is the one ahead of all such. */
  lemma RunCancels(securities: set<nat>, cs: seq<Command>, request: OrderState, original: string, text: string)
    requires AllAdmissible(cs, securities) && request.security in securities
    ensures AllAdmissible(cs + [Cancel(request, original, text)], securities)
    ensures var x, y := Run(Start(securities), cs), Run(Start(securities), cs + [Cancel(request, original, text)]);
            && x.venues.Keys == y.venues.Keys == securities
            && CancelReported(x.venues[request.security].reports, y.venues[request.security].reports, request, original,
                              text)
  {
    var c := Cancel(request, original, text);
    AdmissibleMore(cs, c, securities);
    RunKeys(Start(securities), cs);
    RunAnswered(securities, cs, c);
    var x, y := Run(Start(securities), cs), Run(Start(securities), cs + [c]);
    SoundTells(x, y.venues[request.security], request, original, text);
  }
}
