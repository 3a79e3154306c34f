/** Multithreaded matching refines sequential matching: whatever the interleaving, a book between two tasks is
    the book of a sequential run over a prefix of what was submitted
    (`source/order_matcher/central_order_book.cpp`, `source/core/concurrency/thread_pool.cpp`). */
module MatchingRefinement {
  import opened Integers
  import opened Orders
  import opened Matching
  import opened Exchanges
  import R = RingBuffers
  import M = MultithreadedMatching

  /** After initialiseMultithreadedMatching: empty books, empty queues, all workers about to load the flag. */
  ghost predicate Initial(y: M.System) {
    && M.Shaped(y) && y.submitter.Ready? && y.last == 0 && !y.shuttingDown && y.submitted == []
    && (forall q | 0 <= q < |y.lanes| :: R.Initial(y.lanes[q].ring) && y.lanes[q].worker.AtLoop?)
    && (forall s | s in y.books :: y.books[s] == Book([], []))
  }

  /** Any interleaving of the submitting thread and the workers is a sequence of steps. */
  ghost function RunSteps(y: M.System, steps: seq<M.Action>): (z: M.System)
    requires M.Shaped(y)
    ensures M.Shaped(z) && z.securities == y.securities
    decreases |steps|
  {
    if steps == [] then y else RunSteps(M.Next(y, steps[0]), steps[1..])
  }

  predicate Allowed(a: M.Action) {
    a.Take? && a.c.New? ==> Acceptable(a.c.order)
  }

  // ----- Order numbers -----

  function NewCount(cs: seq<Command>): nat {
    if cs == [] then 0 else NewCount(cs[..|cs| - 1]) + if cs[|cs| - 1].New? then 1 else 0
  }

  /** New orders carry the numbers 1, 2, 3, ... */
  predicate InTurn(cs: seq<Command>) {
    cs == [] ||
    (InTurn(cs[..|cs| - 1]) && (cs[|cs| - 1].New? ==> cs[|cs| - 1].order.id == NewCount(cs[..|cs| - 1]) + 1))
  }

  function SetOf(s: seq<nat>): set<nat> {
    set x | x in s
  }

  ghost predicate Accounted(y: M.System) {
    && y.last == NewCount(y.submitted) && InTurn(y.submitted)
    && AllAdmissible(y.submitted, SetOf(y.securities))
  }

  lemma StepAccounts(y: M.System, a: M.Action)
    requires M.Shaped(y) && Accounted(y) && Allowed(a)
    ensures Accounted(M.Next(y, a))
  {
    if a.Take? && Security(a.c) in y.securities {
      InTurnLast(y.submitted, M.Numbered(a.c, y.last));
      AdmissibleLast(y.submitted, M.Numbered(a.c, y.last), SetOf(y.securities));
    }
  }

  lemma InTurnLast(cs: seq<Command>, c: Command)
    ensures NewCount(cs + [c]) == NewCount(cs) + if c.New? then 1 else 0
    ensures InTurn(cs + [c]) <==> InTurn(cs) && (c.New? ==> c.order.id == NewCount(cs) + 1)
  {
    assert (cs + [c])[..|cs|] == cs;
  }

  lemma AdmissibleLast(cs: seq<Command>, c: Command, securities: set<nat>)
    requires AllAdmissible(cs, securities) && Admissible(c, securities)
    ensures AllAdmissible(cs + [c], securities)
  {
  }

  lemma {:induction false} PushedGrows(y: M.System, steps: seq<M.Action>, q: nat)
    requires M.Shaped(y) && q < |y.lanes|
    ensures |y.lanes[q].ring.pushed| <= |RunSteps(y, steps).lanes[q].ring.pushed|
    decreases |steps|
  {
    if steps != [] {
      StepGrows(y, steps[0], q);
      PushedGrows(M.Next(y, steps[0]), steps[1..], q);
    }
  }

  lemma StepGrows(y: M.System, a: M.Action, q: nat)
    requires M.Shaped(y) && q < |y.lanes|
    ensures |M.Next(y, a).lanes| == |y.lanes|
    ensures |y.lanes[q].ring.pushed| <= |M.Next(y, a).lanes[q].ring.pushed|
  {
  }

  lemma ExactBefore(y: M.System, steps: seq<M.Action>)
    requires M.Shaped(y) && M.Exact(RunSteps(y, steps))
    ensures M.Exact(y)
  {
    forall q | 0 <= q < |y.lanes| ensures |y.lanes[q].ring.pushed| <= INT_MAX {
      PushedGrows(y, steps, q);
    }
  }

  /** Every interleaving keeps the invariant while the push counters are exact. */
  lemma {:induction false} RunKeeps(y: M.System, steps: seq<M.Action>)
    requires M.Inv(y) && Accounted(y) && (forall i | 0 <= i < |steps| :: Allowed(steps[i]))
    requires M.Exact(RunSteps(y, steps))
    ensures M.Inv(RunSteps(y, steps)) && Accounted(RunSteps(y, steps))
    decreases |steps|
  {
    if steps != [] {
      var z := M.Next(y, steps[0]);
      assert Allowed(steps[0]);
      ExactBefore(y, steps);
      ExactBefore(z, steps[1..]);
      M.StepKeeps(y, steps[0]);
      StepAccounts(y, steps[0]);
      RunKeeps(z, steps[1..]);
    }
  }

  lemma InitialInv(y: M.System)
    requires Initial(y)
    ensures M.Inv(y) && Accounted(y)
  {
    forall q | 0 <= q < |y.lanes|
      ensures M.LaneInv(y.lanes[q], y.securities[q], M.BookOf(y, y.securities[q]))
      ensures M.FeedInv(y.lanes[q], q, y.securities[q], y.submitter, y.submitted)
    {
      R.InitialInv(y.lanes[q].ring);
    }
  }

  // ----- The sequential side -----

  /** A command leaves its own venue with the book its task leaves, and the other books alone. */
  lemma NextBook(x: Sound, c: Command, s: nat)
    requires Admissible(c, x.venues.Keys) && s in x.venues && (c.New? ==> c.order.id == x.last + 1)
    ensures x.venues[s].book.Balanced() && M.TaskOk(c) && s in Next(x, c).venues
    ensures Next(x, c).venues[s].book == if Security(c) == s then M.RunTask(x.venues[s].book, c) else x.venues[s].book
    ensures Next(x, c).last == x.last + if c.New? then 1 else 0
  {
    ApplySound(x, c);
    Balances(x, s);
    match c
    case New(o) =>
      assert o.(id := x.last + 1) == o;
      NextNewBook(x, o, s);
    case Cancel(request, original, text) =>
      NextCancelBook(x, request, original, text, s);
  }

  lemma Balances(x: Sound, s: nat)
    requires s in x.venues
    ensures x.venues[s].book.Balanced()
  {
    VenueBalanced(x.venues[s], x.last);
  }

  lemma NextNewBook(x: Exchange, o: OrderState, s: nat)
    requires o.security in x.venues && x.venues[o.security].book.Balanced() && Balanced(o)
    requires s in x.venues && o.id == x.last + 1
    ensures Apply(x, New(o)).venues[s].book ==
            if o.security == s then Submit(x.venues[s].book, o).book else x.venues[s].book
  {
    assert o.(id := x.last + 1) == o;
  }

  lemma NextCancelBook(x: Exchange, request: OrderState, original: string, text: string, s: nat)
    requires request.security in x.venues && x.venues[request.security].book.Balanced() && s in x.venues
    ensures Apply(x, Cancel(request, original, text)).venues[s].book ==
            if request.security == s then CancelTask(Venue(x.venues[s].book, []), request, original, text).book
            else x.venues[s].book
  {
  }

  /** The single-threaded machine after `cs`, seen from one security. */
  ghost predicate Agrees(x: Exchange, cs: seq<Command>, s: nat) {
    && x.last == NewCount(cs) && M.AllOk(M.Of(cs, s), s)
    && s in x.venues && x.venues[s].book == M.RunTasks(M.Of(cs, s))
  }

  lemma TasksLast(cs: seq<Command>, c: Command, s: nat)
    requires M.AllOk(M.Of(cs, s), s) && M.TaskOk(c)
    ensures M.AllOk(M.Of(cs + [c], s), s)
    ensures M.RunTasks(M.Of(cs + [c], s)) ==
            if Security(c) == s then M.RunTask(M.RunTasks(M.Of(cs, s)), c) else M.RunTasks(M.Of(cs, s))
  {
    M.OfLast(cs, c, s);
    if Security(c) == s {
      M.RunTasksLast(M.Of(cs, s), c, s);
    } else {
      assert M.Of(cs, s) + [] == M.Of(cs, s);
    }
  }

  lemma SequentialStep(x: Sound, cs: seq<Command>, c: Command, s: nat)
    requires Agrees(x, cs, s) && Admissible(c, x.venues.Keys) && (c.New? ==> c.order.id == NewCount(cs) + 1)
    ensures Agrees(Next(x, c), cs + [c], s)
  {
    NextBook(x, c, s);
    AgreesNext(x, Next(x, c), cs, c, s);
  }

  lemma AgreesNext(x: Exchange, y: Exchange, cs: seq<Command>, c: Command, s: nat)
    requires Agrees(x, cs, s) && x.venues[s].book.Balanced() && M.TaskOk(c) && s in y.venues
    requires y.venues[s].book == if Security(c) == s then M.RunTask(x.venues[s].book, c) else x.venues[s].book
    requires y.last == x.last + if c.New? then 1 else 0
    ensures Agrees(y, cs + [c], s)
  {
    TasksLast(cs, c, s);
    InTurnLast(cs, c);
  }

  lemma {:induction false} InTurnPrefix(cs: seq<Command>, k: nat)
    requires InTurn(cs) && k <= |cs|
    ensures InTurn(cs[..k])
    decreases |cs|
  {
    if k == |cs| {
      assert cs[..k] == cs;
    } else {
      assert cs[..|cs| - 1][..k] == cs[..k];
      InTurnPrefix(cs[..|cs| - 1], k);
    }
  }

  /** Where the next command stands among those already run. */
  lemma MoveOver(ran: seq<Command>, rest: seq<Command>, securities: set<nat>)
    requires rest != [] && InTurn(ran + rest) && AllAdmissible(rest, securities)
    ensures Admissible(rest[0], securities) && AllAdmissible(rest[1..], securities)
    ensures ran + rest == (ran + [rest[0]]) + rest[1..]
    ensures rest[0].New? ==> rest[0].order.id == NewCount(ran) + 1
  {
    var k := |ran| + 1;
    InTurnPrefix(ran + rest, k);
    assert (ran + rest)[..k] == ran + [rest[0]];
    InTurnLast(ran, rest[0]);
  }

  /** Running on in one thread runs the tasks of each security on its book. */
  lemma {:induction false} SequentialFrom(x: Sound, ran: seq<Command>, rest: seq<Command>, s: nat, securities: set<nat>)
    requires x.venues.Keys == securities && AllAdmissible(rest, securities) && InTurn(ran + rest) && Agrees(x, ran, s)
    ensures Agrees(Run(x, rest), ran + rest, s)
    decreases |rest|
  {
    if rest == [] {
      assert ran + rest == ran;
    } else {
      MoveOver(ran, rest, securities);
      SequentialStep(x, ran, rest[0], s);
      SequentialFrom(Next(x, rest[0]), ran + [rest[0]], rest[1..], s, securities);
    }
  }

  lemma SequentialBook(securities: set<nat>, cs: seq<Command>, s: nat)
    requires AllAdmissible(cs, securities) && InTurn(cs) && s in securities
    ensures Agrees(Run(Start(securities), cs), cs, s)
  {
    StartAgrees(Start(securities), securities, s);
    assert [] + cs == cs;
    SequentialFrom(Start(securities), [], cs, s, securities);
  }

  lemma StartAgrees(x: Sound, securities: set<nat>, s: nat)
    requires x == Start(securities) && s in securities
    ensures Agrees(x, [], s)
  {
  }

  /** The first n tasks of a security come from some prefix of all tasks. */
  lemma {:induction false} OfPrefix(cs: seq<Command>, s: nat, n: nat) returns (k: nat)
    requires n <= |M.Of(cs, s)|
    ensures k <= |cs| && M.Of(cs[..k], s) == M.Of(cs, s)[..n] && (n == |M.Of(cs, s)| ==> k == |cs|)
    decreases |cs|
  {
    if n == |M.Of(cs, s)| {
      k := |cs|;
      assert cs[..k] == cs;
    } else {
      var before := cs[..|cs| - 1];
      k := OfPrefix(before, s, n);
      assert before[..k] == cs[..k];
    }
  }

  // ----- The refinement -----

  /** `book` is what a single thread leaves in the book of `s` after the first k commands. */
  ghost predicate SequentialAfter(securities: set<nat>, cs: seq<Command>, k: nat, s: nat, book: Book) {
    && k <= |cs| && AllAdmissible(cs[..k], securities)
    && s in Run(Start(securities), cs[..k]).venues && book == Run(Start(securities), cs[..k]).venues[s].book
    && Standing(book, Run(Start(securities), cs[..k]).last)
  }

  lemma PrefixSequential(securities: set<nat>, cs: seq<Command>, k: nat, s: nat)
    requires AllAdmissible(cs, securities) && InTurn(cs) && s in securities && k <= |cs|
    ensures M.AllOk(M.Of(cs[..k], s), s) && SequentialAfter(securities, cs, k, s, M.RunTasks(M.Of(cs[..k], s)))
  {
    InTurnPrefix(cs, k);
    SequentialBook(securities, cs[..k], s);
    var x := Run(Start(securities), cs[..k]);
    assert VenueInv(x.venues[s], x.last);
  }

  /** What an observer finds of lane q while its worker is between tasks. */
  ghost predicate Observable(y: M.System, q: nat)
    requires q < |y.securities| && q < |y.lanes|
  {
    var s, ring := y.securities[q], y.lanes[q].ring;
    && (exists k: nat :: SequentialAfter(SetOf(y.securities), y.submitted, k, s, M.BookOf(y, s)))
    && (!M.PushingTo(y, q) && ring.popped == ring.pushed ==>
          SequentialAfter(SetOf(y.securities), y.submitted, |y.submitted|, s, M.BookOf(y, s)))
  }

  /** The main result. In every reachable state of every interleaving, the book of a security whose worker
      is between tasks is the book of the single-threaded machine after some prefix of the commands
      submitted so far; and after all of them when nothing is queued or under way for that security. */
  lemma Refines(start: M.System, steps: seq<M.Action>, q: nat)
    requires Initial(start) && (forall i | 0 <= i < |steps| :: Allowed(steps[i]))
    requires M.Exact(RunSteps(start, steps)) && q < |start.securities|
    ensures var y := RunSteps(start, steps);
            !y.lanes[q].worker.Executing? ==> Observable(y, q)
  {
    InitialInv(start);
    RunKeeps(start, steps);
    var y := RunSteps(start, steps);
    if !y.lanes[q].worker.Executing? {
      Observed(y, q);
    }
  }

  lemma Observed(y: M.System, q: nat)
    requires M.Inv(y) && Accounted(y) && q < |y.lanes| && !y.lanes[q].worker.Executing?
    ensures Observable(y, q)
  {
    var s := y.securities[q];
    var k := PoppedPrefix(y, q);
    PrefixSequential(SetOf(y.securities), y.submitted, k, s);
  }

  /** What a worker has popped is what some prefix of the submitted commands says of its security. */
  lemma PoppedPrefix(y: M.System, q: nat) returns (k: nat)
    requires M.Inv(y) && q < |y.lanes| && !y.lanes[q].worker.Executing?
    ensures var s := y.securities[q];
            && k <= |y.submitted| && M.AllOk(M.Of(y.submitted[..k], s), s)
            && M.BookOf(y, s) == M.RunTasks(M.Of(y.submitted[..k], s))
            && (!M.PushingTo(y, q) && y.lanes[q].ring.popped == y.lanes[q].ring.pushed ==> k == |y.submitted|)
  {
    var l := y.lanes[q];
    var s := y.securities[q];
    assert M.LaneInv(l, s, M.BookOf(y, s)) && M.FeedInv(l, q, s, y.submitter, y.submitted);
    var n := |l.ring.popped|;
    assert M.Of(y.submitted, s)[..n] == l.ring.popped;
    k := OfPrefix(y.submitted, s, n);
  }
}
