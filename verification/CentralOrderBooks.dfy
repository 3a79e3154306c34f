/** The central order book object in single-threaded mode (`source/order_matcher/central_order_book.cpp`): a
    dictionary of book objects, created on first use, and one outgoing queue per symbol. An outgoing queue is the
    sequence of everything pushed to it. */
module CentralOrderBooks {
  import opened Wrappers
  import opened Orders
  import opened Matching
  import opened OrderBooks
  import opened Exchanges
  import BookTasks

  ghost predicate Injective(m: map<nat, nat>) {
    forall s, t | s in m && t in m && s != t :: m[s] != m[t]
  }

  // ----- The dictionary -----

  /** The books are valid, within `repr`, and no two share an object. */
  ghost predicate Separate(books: map<nat, OrderBook>, repr: set<object>)
    reads repr
  {
    && (forall s | s in books :: books[s] in repr && books[s].Repr <= repr && books[s].Valid())
    && (forall s, t | s in books && t in books && s != t :: books[s].Repr !! books[t].Repr)
  }

  /** The entries hold these books; an absent entry is an empty one. */
  ghost predicate Holding(entries: map<nat, OrderBook>, books: map<nat, Book>, repr: set<object>)
    reads repr
  {
    forall s | s in books ::
      if s in entries then entries[s] in repr && entries[s].book == books[s] else books[s] == Book([], [])
  }

  ghost predicate BooksBalanced(books: map<nat, Book>) {
    forall s | s in books :: books[s].Balanced()
  }

  /** An entry is valid, apart from all others, and holds its book; an absent one stands for an empty book. */
  ghost predicate EntrySound(entries: map<nat, OrderBook>, books: map<nat, Book>, repr: set<object>, s: nat)
    requires s in books
    reads repr
  {
    books[s].Balanced() &&
    if s in entries then
      && entries[s] in repr && entries[s].Repr <= repr && entries[s].Valid() && entries[s].book == books[s]
      && (forall t | t in entries && t != s :: entries[t] in repr && entries[s].Repr !! entries[t].Repr)
    else books[s] == Book([], [])
  }

  /** The ids whose entries are not as they should be. */
  ghost function Faults(entries: map<nat, OrderBook>, books: map<nat, Book>, repr: set<object>): set<nat>
    reads repr
  {
    set s | s in books && !EntrySound(entries, books, repr, s)
  }

  lemma NoFaults(entries: map<nat, OrderBook>, books: map<nat, Book>, repr: set<object>)
    requires entries.Keys <= books.Keys && Faults(entries, books, repr) == {}
    ensures Separate(entries, repr) && Holding(entries, books, repr) && BooksBalanced(books)
  {
    forall s | s in books ensures EntrySound(entries, books, repr, s) {
      assert s !in Faults(entries, books, repr);
    }
  }

  lemma Faultless(entries: map<nat, OrderBook>, books: map<nat, Book>, repr: set<object>)
    requires entries.Keys <= books.Keys && Separate(entries, repr) && Holding(entries, books, repr) && BooksBalanced(books)
    ensures Faults(entries, books, repr) == {}
  {
    forall s | s in books ensures EntrySound(entries, books, repr, s) {
    }
  }

  /** A new empty book fills an absent entry. */
  lemma AddEntry(entries: map<nat, OrderBook>, books: map<nat, Book>, repr: set<object>, s: nat, book: OrderBook)
    requires entries.Keys <= books.Keys && Separate(entries, repr) && Holding(entries, books, repr) && BooksBalanced(books)
    requires s in books && s !in entries && book.Valid() && book.book == Book([], []) && book.Repr !! repr
    ensures Faults(entries[s := book], books, repr + book.Repr) == {}
  {
    Faultless(entries[s := book], books, repr + book.Repr);
  }

  /** One entry taken out: it is valid, and the others do without its objects. */
  lemma Split(entries: map<nat, OrderBook>, books: map<nat, Book>, repr: set<object>, s: nat)
    requires entries.Keys <= books.Keys && Faults(entries, books, repr) == {} && s in entries
    ensures entries[s] in repr && entries[s].Repr <= repr && entries[s].Valid() && entries[s].book == books[s]
    ensures books[s].Balanced() && Faults(entries - {s}, books - {s}, repr - entries[s].Repr) == {}
  {
    NoFaults(entries, books, repr);
    Faultless(entries - {s}, books - {s}, repr - entries[s].Repr);
  }

  lemma JoinSeparate(entries: map<nat, OrderBook>, rest: set<object>, repr: set<object>, s: nat)
    requires s in entries && Separate(entries - {s}, rest)
    requires entries[s].Valid() && entries[s].Repr !! rest && rest + entries[s].Repr <= repr
    ensures Separate(entries, repr)
  {
    assert forall t | t in entries && t != s :: t in entries - {s} && (entries - {s})[t] == entries[t];
  }

  lemma JoinHolding(entries: map<nat, OrderBook>, books: map<nat, Book>, rest: set<object>, repr: set<object>, s: nat)
    requires s in entries && s in books && Holding(entries - {s}, books - {s}, rest) && BooksBalanced(books - {s})
    requires rest <= repr && entries[s] in repr && entries[s].book == books[s] && books[s].Balanced()
    ensures Holding(entries, books, repr) && BooksBalanced(books)
  {
    assert forall t | t in entries && t != s :: t in entries - {s} && (entries - {s})[t] == entries[t];
    assert forall t | t in books && t != s :: t in books - {s} && (books - {s})[t] == books[t];
  }

  /** An entry put back, whatever its task did to it. */
  lemma Join(entries: map<nat, OrderBook>, books: map<nat, Book>, rest: set<object>, repr: set<object>, s: nat)
    requires entries.Keys <= books.Keys && s in entries && Faults(entries - {s}, books - {s}, rest) == {}
    requires entries[s].Valid() && entries[s].book == books[s] && books[s].Balanced() && entries[s].Repr !! rest
    requires rest + entries[s].Repr <= repr
    ensures Faults(entries, books, repr) == {}
  {
    NoFaults(entries - {s}, books - {s}, rest);
    JoinSeparate(entries, rest, repr, s);
    JoinHolding(entries, books, rest, repr, s);
    Faultless(entries, books, repr);
  }

  /** A task on one entry leaves the other books alone. */
  method RunNewIn(entries: map<nat, OrderBook>, s: nat, order: Order, ghost books: map<nat, Book>, ghost repr: set<object>)
    returns (messages: seq<Report>, ghost left: map<nat, Book>, ghost after: set<object>)
    requires entries.Keys <= books.Keys && Faults(entries, books, repr) == {}
    requires s in entries && order !in repr && Balanced(order.View())
    modifies entries[s].Repr
    ensures Faults(entries, left, after) == {} && repr <= after && fresh(after - repr) && books[s].Balanced()
    ensures order.View() == old(order.View())
    ensures var w := NewTask(Venue(books[s], []), old(order.View()));
            messages == w.reports && left == books[s := w.book]
  {
    Split(entries, books, repr, s);
    ghost var rest := repr - entries[s].Repr;
    messages := BookTasks.RunNew(entries[s], order);
    after, left := repr + entries[s].Repr, books[s := entries[s].book];
    assert left - {s} == books - {s};
    Join(entries, left, rest, after, s);
  }

  method RunCancelIn(entries: map<nat, OrderBook>, s: nat, request: Order, original: string, text: string,
                     ghost books: map<nat, Book>, ghost repr: set<object>)
    returns (message: Report, ghost left: map<nat, Book>)
    requires entries.Keys <= books.Keys && Faults(entries, books, repr) == {}
    requires s in entries && request !in repr
    modifies entries[s].Repr
    ensures Faults(entries, left, repr) == {}
    ensures var w := CancelTask(Venue(books[s], []), request.View(), original, text);
            [message] == w.reports && left == books[s := w.book]
  {
    Split(entries, books, repr, s);
    ghost var rest := repr - entries[s].Repr;
    message := BookTasks.RunCancel(entries[s], request, original, text);
    left := books[s := entries[s].book];
    assert left - {s} == books - {s};
    Join(entries, left, rest, repr, s);
  }

  /** The dictionary of book objects by security id. */
  class BookDictionary {
    var entries: map<nat, OrderBook>
    ghost var books: map<nat, Book>
    ghost var repr: set<object>

    ghost predicate Valid()
      reads this, repr
      ensures Valid() ==> BooksBalanced(books)
    {
      if this !in repr && entries.Keys <= books.Keys && Faults(entries, books, repr) == {} then
        NoFaults(entries, books, repr);
        true
      else false
    }

    /** The objects of one book. */
    ghost function Own(security: nat): (own: set<object>)
      requires Valid()
      reads this, repr
      ensures own <= repr
    {
      NoFaults(entries, books, repr);
      if security in entries then entries[security].Repr else {}
    }

    constructor (ghost ids: set<nat>)
      ensures Valid() && fresh(repr) && books == (map s | s in ids :: Book([], [])) && entries == map[]
    {
      entries := map[];
      books := map s | s in ids :: Book([], []);
      repr := {};
    }

    /** The indexing operator: an absent entry becomes an empty book. */
    method At(security: nat)
      requires Valid() && security in books
      modifies this`entries, this`repr
      ensures Valid() && security in entries && old(repr) <= repr && fresh(repr - old(repr))
      ensures forall s | s in old(entries) :: s in entries && entries[s] == old(entries)[s]
      ensures security !in old(entries) ==> fresh(entries[security])
      ensures fresh(Own(security) - old(Own(security)))
    {
      NoFaults(entries, books, repr);
      if security !in entries {
        var book := new OrderBook();
        AddEntry(entries, books, repr, security, book);
        entries, repr := entries[security := book], repr + book.Repr;
      }
    }

    /** The part of a new-order task that works on the dictionary; it changes the security's own book alone. */
    method RunNew(order: Order) returns (messages: seq<Report>)
      requires Valid() && order.security in books && order !in repr && Balanced(order.View())
      modifies this, Own(order.security)
      ensures Valid() && fresh(repr - old(repr)) && old(books)[order.security].Balanced()
      ensures var w := NewTask(Venue(old(books)[order.security], []), order.View());
              messages == w.reports && books == old(books)[order.security := w.book]
    {
      At(order.security);
      messages, books, repr := RunNewIn(entries, order.security, order, books, repr);
    }

    /** The part of a cancel that works on the dictionary. */
    method RunCancel(request: Order, original: string, text: string) returns (message: Report)
      requires Valid() && request.security in books && request !in repr
      modifies this, Own(request.security)
      ensures Valid() && fresh(repr - old(repr))
      ensures var w := CancelTask(Venue(old(books)[request.security], []), request.View(), original, text);
              [message] == w.reports && books == old(books)[request.security := w.book]
    {
      At(request.security);
      message, books := RunCancelIn(entries, request.security, request, original, text, books, repr);
    }
  }

  // ----- Values -----

  /** The ids of n securities. */
  function SecurityIds(firstId: nat, n: nat): (ids: set<nat>)
    ensures forall s :: s in ids <==> firstId <= s < firstId + n
  {
    if n == 0 then {} else SecurityIds(firstId, n - 1) + {firstId + n - 1}
  }

  ghost predicate QueuesFit(queues: map<nat, nat>, outgoing: seq<seq<Report>>) {
    Injective(queues) && forall s | s in queues :: queues[s] < |outgoing|
  }

  /** Books and queues put together. */
  ghost function Venues(queues: map<nat, nat>, books: map<nat, Book>, outgoing: seq<seq<Report>>): map<nat, Venue>
    requires QueuesFit(queues, outgoing) && books.Keys == queues.Keys
  {
    map s | s in queues :: Venue(books[s], outgoing[queues[s]])
  }

  lemma PushVenues(queues: map<nat, nat>, books: map<nat, Book>, outgoing: seq<seq<Report>>, s: nat, queue: seq<Report>)
    requires QueuesFit(queues, outgoing) && books.Keys == queues.Keys && s in queues
    ensures QueuesFit(queues, outgoing[queues[s] := queue])
    ensures Venues(queues, books, outgoing[queues[s] := queue]) ==
            Venues(queues, books, outgoing)[s := Venue(books[s], queue)]
  {
  }

  lemma BookVenues(queues: map<nat, nat>, books: map<nat, Book>, outgoing: seq<seq<Report>>, s: nat, book: Book)
    requires QueuesFit(queues, outgoing) && books.Keys == queues.Keys && s in queues
    ensures Venues(queues, books[s := book], outgoing) ==
            Venues(queues, books, outgoing)[s := Venue(book, outgoing[queues[s]])]
  {
  }

  lemma StartVenues(queues: map<nat, nat>, books: map<nat, Book>, outgoing: seq<seq<Report>>, ids: set<nat>)
    requires QueuesFit(queues, outgoing) && queues.Keys == ids && (forall j | 0 <= j < |outgoing| :: outgoing[j] == [])
    requires books == map s | s in ids :: Book([], [])
    ensures Exchange(0, Venues(queues, books, outgoing)) == Start(ids)
  {
    assert Venues(queues, books, outgoing) == Start(ids).venues;
  }

  /** A task run on a venue without history is the task run on the venue, but for the history. */
  lemma NewTaskHistory(v: Venue, o: OrderState)
    requires v.book.Balanced() && Balanced(o)
    ensures NewTask(v, o) ==
            var w := NewTask(Venue(v.book, []), o); Venue(w.book, v.reports + w.reports)
  {
    assert [] + FillReports(Submit(v.book, o).trades) == FillReports(Submit(v.book, o).trades);
  }

  lemma CancelTaskHistory(v: Venue, request: OrderState, original: string, text: string)
    ensures CancelTask(v, request, original, text) ==
            var w := CancelTask(Venue(v.book, []), request, original, text); Venue(w.book, v.reports + w.reports)
  {
  }

  // ----- The object -----

  class CentralOrderBook {
    const dictionary: BookDictionary
    var orderNumber: nat
    var queueIds: map<nat, nat>
    var outgoing: seq<seq<Report>>

    ghost predicate Valid()
      reads this, dictionary, dictionary.repr
    {
      Fits() && this !in dictionary.repr && dictionary.Valid()
    }

    /** The object does not belong to the books. */
    ghost predicate Outside(o: object)
      reads dictionary
    {
      o !in dictionary.repr && o != dictionary
    }

    /** Every security has a queue of its own. */
    ghost predicate Fits()
      reads this, dictionary
    {
      QueuesFit(queueIds, outgoing) && dictionary.books.Keys == queueIds.Keys
    }

    /** The object as a state of the machine over commands. */
    ghost function View(): Exchange
      requires Fits()
      reads this, dictionary
    {
      Exchange(orderNumber, Venues(queueIds, dictionary.books, outgoing))
    }

    constructor (symbols: seq<string>, firstId: nat)
      ensures Valid() && View() == Start(SecurityIds(firstId, |symbols|))
      ensures fresh(dictionary) && fresh(dictionary.repr)
      ensures forall s | s in SecurityIds(firstId, |symbols|) :: s in queueIds && queueIds[s] == s - firstId
    {
      orderNumber := 0;
      dictionary := new BookDictionary(SecurityIds(firstId, |symbols|));
      queueIds := map[];
      outgoing := [];
      new;
      SetSymbols(symbols, firstId);
      StartVenues(queueIds, dictionary.books, outgoing, SecurityIds(firstId, |symbols|));
    }

    /** Every symbol, repeated or not, gets the next security id and the next queue. */
    method SetSymbols(symbols: seq<string>, firstId: nat)
      requires queueIds == map[] && outgoing == []
      modifies this`queueIds, this`outgoing
      ensures queueIds.Keys == SecurityIds(firstId, |symbols|)
      ensures forall s | s in queueIds :: queueIds[s] == s - firstId
      ensures |outgoing| == |symbols| && forall j | 0 <= j < |outgoing| :: outgoing[j] == []
    {
      for i := 0 to |symbols|
        invariant queueIds.Keys == SecurityIds(firstId, i)
        invariant forall s | s in queueIds :: queueIds[s] == s - firstId
        invariant |outgoing| == i && forall j | 0 <= j < i :: outgoing[j] == []
      {
        var currentSecurityId := firstId + i;
        queueIds := queueIds[currentSecurityId := i];
        outgoing := outgoing + [[]];
      }
    }

    /** The state after the venue of one security changed. */
    static ghost function With(x: Exchange, s: nat, v: Venue): Exchange {
      x.(venues := x.venues[s := v])
    }

    /** Two changes of one venue are one. */
    static lemma WithTwice(x: Exchange, s: nat, v: Venue, w: Venue)
      ensures With(With(x, s, v), s, w) == With(x, s, w)
    {
    }

    method Push(security: nat, messages: seq<Report>)
      requires Valid() && security in queueIds
      modifies this`outgoing
      ensures Valid()
      ensures View() == var v := old(View()).venues[security];
                        With(old(View()), security, v.(reports := v.reports + messages))
    {
      var queue := queueIds[security];
      PushVenues(queueIds, dictionary.books, outgoing, security, outgoing[queue] + messages);
      outgoing := outgoing[queue := outgoing[queue] + messages];
    }

    method TaskNewOrder(order: Order)
      requires Valid() && order.security in queueIds && Outside(order) && Balanced(order.View())
      modifies this`outgoing, dictionary, dictionary.Own(order.security)
      ensures Valid() && fresh(dictionary.repr - old(dictionary.repr)) && old(View()).venues[order.security].book.Balanced()
      ensures View() == With(old(View()), order.security, NewTask(old(View()).venues[order.security], order.View()))
    {
      ghost var x, s := View(), order.security;
      ghost var v := x.venues[s];
      var messages := dictionary.RunNew(order);
      BookVenues(queueIds, old(dictionary.books), outgoing, s, dictionary.books[s]);
      NewTaskHistory(v, order.View());
      ghost var mid := v.(book := dictionary.books[s]);
      assert View() == With(x, s, mid);
      Push(order.security, messages);
      WithTwice(x, s, mid, NewTask(v, order.View()));
    }

    /** Numbers the order and acknowledges it. */
    method Acknowledge(order: Order)
      requires Valid() && order.security in queueIds && Outside(order) && Balanced(order.View())
      modifies this`orderNumber, this`outgoing, order
      ensures Valid() && order.View() == old(order.View()).(id := old(orderNumber) + 1)
      ensures var x, o := old(View()), order.View();
              View() == With(Exchange(x.last + 1, x.venues), o.security, Exchanges.Acknowledge(x.venues[o.security], o))
    {
      ghost var x := View();
      orderNumber := orderNumber + 1;
      order.id := orderNumber;
      assert dictionary.Valid() && View() == Exchange(x.last + 1, x.venues);
      Push(order.security, [Report(Accepted, order.View(), "")]);
    }

    static lemma Added(x: Exchange, was: OrderState, o: OrderState, mid: Exchange)
      requires was.security in x.venues && x.venues[was.security].book.Balanced() && Balanced(was)
      requires o == was.(id := x.last + 1)
      requires mid == With(Exchange(x.last + 1, x.venues), o.security, Exchanges.Acknowledge(x.venues[o.security], o))
      ensures With(mid, o.security, NewTask(mid.venues[o.security], o)) == Apply(x, New(was))
    {
      ApplyNewIs(x, was);
    }

    /** A new order is acknowledged, and its task runs at once. */
    method AddOrder(order: Order) returns (added: bool)
      requires Valid() && order.security in queueIds && Outside(order) && Balanced(order.View())
      modifies this`orderNumber, this`outgoing, order, dictionary, dictionary.Own(order.security)
      ensures Valid() && fresh(dictionary.repr - old(dictionary.repr)) && added
      ensures View() == Apply(old(View()), New(old(order.View())))
      ensures order.View() == old(order.View()).(id := old(orderNumber) + 1)
    {
      ghost var x, was := View(), order.View();
      Acknowledge(order);
      ghost var mid, o, repr := View(), order.View(), dictionary.repr;
      assert repr == old(dictionary.repr);
      Added(x, was, o, mid);
      TaskNewOrder(order);
      assert fresh(dictionary.repr - repr);
      assert order.View() == o;
      added := true;
    }

    method RejectOrder(request: OrderState, text: string)
      requires Valid() && request.security in queueIds
      modifies this`outgoing
      ensures Valid()
      ensures View() == var v := old(View()).venues[request.security];
                        With(old(View()), request.security, v.(reports := v.reports + [Report(Rejected, request, text)]))
    {
      Push(request.security, [Report(Rejected, request, text)]);
    }

    /** A synchronous cancel: found, marked, reported and erased, or rejected. */
    method CancelOrder(request: Order, original: string, text: string)
      requires Valid() && request.security in queueIds && Outside(request)
      modifies this`outgoing, dictionary, dictionary.Own(request.security)
      ensures Valid() && fresh(dictionary.repr - old(dictionary.repr))
      ensures View() == Apply(old(View()), Cancel(request.View(), original, text))
    {
      ghost var x, s := View(), request.security;
      ghost var v := x.venues[s];
      var message := dictionary.RunCancel(request, original, text);
      BookVenues(queueIds, old(dictionary.books), outgoing, s, dictionary.books[s]);
      CancelTaskHistory(v, request.View(), original, text);
      ghost var mid := v.(book := dictionary.books[s]);
      assert View() == With(x, s, mid);
      Push(request.security, [message]);
      WithTwice(x, s, mid, CancelTask(v, request.View(), original, text));
    }
  }

  // ----- Whole runs -----

  lemma RunFirst(x: Sound, cs: seq<Command>)
    requires cs != [] && AllAdmissible(cs, x.venues.Keys)
    ensures Admissible(cs[0], x.venues.Keys) && x.venues[Security(cs[0])].book.Balanced()
    ensures Next(x, cs[0]) == Apply(x, cs[0]) && AllAdmissible(cs[1..], Next(x, cs[0]).venues.Keys)
    ensures Run(x, cs) == Run(Next(x, cs[0]), cs[1..])
  {
    ApplySound(x, cs[0]);
  }

  method RunCommand(central: CentralOrderBook, c: Command)
    requires central.Valid() && Security(c) in central.queueIds && (c.New? ==> Balanced(c.order))
    modifies central`orderNumber, central`outgoing, central.dictionary, central.dictionary.Own(Security(c))
    ensures central.Valid() && fresh(central.dictionary.repr - old(central.dictionary.repr))
    ensures central.View() == Apply(old(central.View()), c)
  {
    if c.New? {
      var order := new Order.Copy(c.order);
      var _ := central.AddOrder(order);
    } else {
      var request := new Order.Copy(c.request);
      central.CancelOrder(request, c.original, c.text);
    }
  }

  /** The next of a list of commands; x is the state of the machine. */
  method RunNext(central: CentralOrderBook, cs: seq<Command>, i: nat, ghost x: Sound) returns (ghost y: Sound)
    requires i < |cs| && AllAdmissible(cs[i..], x.venues.Keys)
    requires central.Valid() && central.View() == x
    modifies central`orderNumber, central`outgoing, central.dictionary, central.dictionary.repr
    ensures central.Valid() && central.View() == y && fresh(central.dictionary.repr - old(central.dictionary.repr))
    ensures AllAdmissible(cs[i + 1..], y.venues.Keys) && Run(x, cs[i..]) == Run(y, cs[i + 1..])
  {
    assert cs[i..][0] == cs[i] && cs[i..][1..] == cs[i + 1..];
    RunFirst(x, cs[i..]);
    y := Next(x, cs[i]);
    RunCommand(central, cs[i]);
  }

  method RunFrom(central: CentralOrderBook, cs: seq<Command>, i: nat, ghost x: Sound)
    requires i <= |cs| && AllAdmissible(cs[i..], x.venues.Keys) && central.Valid() && central.View() == x
    modifies central`orderNumber, central`outgoing, central.dictionary, central.dictionary.repr
    ensures central.Valid() && central.View() == Run(x, cs[i..])
    decreases |cs| - i
  {
    if i < |cs| {
      ghost var y := RunNext(central, cs, i, x);
      RunFrom(central, cs, i + 1, y);
    }
  }

  /** The book as its caller drives it: for every list of admissible commands the objects end as the machine over
      commands does. */
  method RunCommands(symbols: seq<string>, firstId: nat, cs: seq<Command>) returns (central: CentralOrderBook)
    requires AllAdmissible(cs, SecurityIds(firstId, |symbols|))
    ensures central.Valid() && central.View() == Run(Start(SecurityIds(firstId, |symbols|)), cs)
  {
    central := new CentralOrderBook(symbols, firstId);
    assert cs[0..] == cs;
    RunFrom(central, cs, 0, Start(SecurityIds(firstId, |symbols|)));
  }
}
