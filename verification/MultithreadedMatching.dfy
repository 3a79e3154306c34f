/** Multithreaded matching: one submitting thread, one work queue and one worker per symbol
    (`source/order_matcher/central_order_book.cpp`, `source/core/concurrency/thread_pool.cpp`). A step is one
    atomic access of a work queue, one load of the shutdown flag, or one action inside a task. */
module MultithreadedMatching {
  import opened Integers
  import opened Wrappers
  import opened Orders
  import opened Matching
  import opened Exchanges
  import R = RingBuffers

  // ----- Tasks, as a whole and step by step -----

  predicate TaskOk(t: Command) {
    t.New? ==> Balanced(t.order)
  }

  /** The effect of a whole task on its book. */
  function RunTask(b: Book, t: Command): (c: Book)
    requires b.Balanced() && TaskOk(t)
    ensures c.Balanced()
  {
    match t
    case New(o) => Submit(b, o).book
    case Cancel(request, original, text) =>
      CancelBalanced(b, request, original, text);
      CancelTask(Venue(b, []), request, original, text).book
  }

  lemma CancelBalanced(b: Book, request: OrderState, original: string, text: string)
    requires b.Balanced()
    ensures CancelTask(Venue(b, []), request, original, text).book.Balanced()
  {
    match Found(b, request.side, request.session, original)
    case Some(i) => EraseBalanced(Mark(b, request.side, i), b.Side(request.side)[i].(cancelled := true));
    case None =>
  }

  function RunTasks(ts: seq<Command>): (b: Book)
    requires forall i | 0 <= i < |ts| :: TaskOk(ts[i])
    ensures b.Balanced()
  {
    if ts == [] then Book([], []) else RunTask(RunTasks(ts[..|ts| - 1]), ts[|ts| - 1])
  }

  /** Where a worker stands inside a task. */
  datatype Phase = Starting | Looping | Erasing(order: OrderState) | Finished

  /** One action of a task on its book. */
  function Act(b: Book, t: Command, phase: Phase): (Book, Phase) {
    match (t, phase)
    case (New(o), Starting) => (Insert(b, o), Looping)
    case (New(_), Looping) => if b.Crossed() then (Round(b), Looping) else (b, Finished)
    case (Cancel(request, original, _), Starting) =>
      (match Found(b, request.side, request.session, original)
       case Some(i) => (Mark(b, request.side, i), Erasing(b.Side(request.side)[i].(cancelled := true)))
       case None => (b, Finished))
    case (Cancel(_, _, _), Erasing(o)) => (Erase(b, o), Finished)
    case _ => (b, Finished)
  }

  /** The book a task will leave when its worker is let run to the end. */
  function Outcome(b: Book, t: Command, phase: Phase): Book
    requires b.Balanced() && TaskOk(t)
  {
    match (t, phase)
    case (_, Starting) => RunTask(b, t)
    case (New(_), Looping) => Match(b).book
    case (Cancel(_, _, _), Erasing(o)) => Erase(b, o)
    case _ => b
  }

  /** No action changes where the task will end. */
  lemma ActKeepsOutcome(b: Book, t: Command, phase: Phase)
    requires b.Balanced() && TaskOk(t)
    ensures var (c, next) := Act(b, t, phase);
            c.Balanced() && Outcome(c, t, next) == Outcome(b, t, phase)
  {
    match (t, phase)
    case (New(o), Starting) => InsertBalanced(b, o);
    case (New(_), Looping) => if b.Crossed() { RoundShrinks(b); }
    case (Cancel(request, original, _), Starting) =>
    case (Cancel(_, _, _), Erasing(o)) => EraseBalanced(b, o);
    case _ =>
  }

  // ----- The system -----

  datatype Submitter = Ready | Pushing(task: Command, queue: nat)

  datatype Worker = AtLoop | InPop | Executing(task: Command, phase: Phase) | Exited

  /** A work queue and its worker. */
  datatype Lane = Lane(ring: R.State<Command>, worker: Worker)

  /** Queue q serves the q-th security. `submitted` lists the tasks as the submitting thread took them up. */
  datatype System = System(
    securities: seq<nat>, lanes: seq<Lane>, books: map<nat, Book>,
    submitter: Submitter, last: nat, shuttingDown: bool, submitted: seq<Command>)

  datatype Action = Take(c: Command) | Push | Shutdown | Work(queue: nat)

  ghost predicate Shaped(y: System) {
    && |y.lanes| == |y.securities| && (forall q | 0 <= q < |y.lanes| :: R.Shaped(y.lanes[q].ring))
    && (forall i, j | 0 <= i < j < |y.securities| :: y.securities[i] != y.securities[j])
    && (y.submitter.Pushing? ==> y.submitter.queue < |y.lanes|)
  }

  /** The submitting thread is inside `push` on queue q. */
  predicate PushingTo(y: System, q: nat) {
    y.submitter.Pushing? && y.submitter.queue == q
  }

  /** The queue number of a security. */
  function QueueOf(securities: seq<nat>, s: nat): (q: nat)
    requires s in securities
    ensures q < |securities| && securities[q] == s
  {
    if securities[0] == s then 0 else 1 + QueueOf(securities[1..], s)
  }

  function BookOf(y: System, s: nat): Book {
    if s in y.books then y.books[s] else Book([], [])
  }

  /** The order number a command gets when the submitting thread takes it up. */
  function Numbered(c: Command, last: nat): Command {
    if c.New? then New(c.order.(id := last + 1)) else c
  }

  /** The next step of tryPush; after a failed attempt `push` starts over. */
  function PushStep(r: R.State<Command>, task: Command): R.Step<Command> {
    match r.producer
    case NotPushing => R.LoadWrite(task)
    case HasTail(_, _) => R.LoadRead
    case MayWrite(_, _) => R.StoreSlot
    case Written(_, _) => R.StoreWrite
  }

  function PopStep(r: R.State<Command>): R.Step<Command> {
    match r.consumer
    case NotPopping => R.LoadHead
    case HasHead(_) => R.LoadTail
    case MayRead(_) => R.LoadSlot
    case Taken(_, _) => R.StoreRead
  }

  /** A worker that is not executing: load the flag, then go through tryPop. */
  function PollLane(l: Lane, shuttingDown: bool): Lane
    requires R.Shaped(l.ring)
  {
    if l.worker.AtLoop? then
      l.(worker := if shuttingDown then Exited else InPop)
    else if l.worker.InPop? then
      var r := R.Next(l.ring, PopStep(l.ring));
      Lane(r, if l.ring.consumer.Taken? then Executing(l.ring.consumer.element, Starting)
              else if l.ring.consumer.HasHead? && r.consumer.NotPopping? then AtLoop
              else InPop)
    else l
  }

  function PushLane(l: Lane, task: Command): Lane
    requires R.Shaped(l.ring)
  {
    l.(ring := R.Next(l.ring, PushStep(l.ring, task)))
  }

  function AfterAct(t: Command, phase: Phase): Worker {
    if phase.Finished? then AtLoop else Executing(t, phase)
  }

  /** One step of some thread; a step its thread cannot take changes nothing. */
  ghost function Next(y: System, a: Action): (z: System)
    requires Shaped(y)
    ensures Shaped(z) && z.securities == y.securities
  {
    match a
    case Take(c) =>
      if y.submitter.Ready? && Security(c) in y.securities then
        var t := Numbered(c, y.last);
        y.(submitter := Pushing(t, QueueOf(y.securities, Security(c))), submitted := y.submitted + [t],
           last := if c.New? then y.last + 1 else y.last)
      else y
    case Push =>
      if y.submitter.Pushing? then
        var q := y.submitter.queue;
        y.(lanes := y.lanes[q := PushLane(y.lanes[q], y.submitter.task)],
           submitter := if y.lanes[q].ring.producer.Written? then Ready else y.submitter)
      else y
    case Shutdown => y.(shuttingDown := true)
    case Work(q) =>
      if q < |y.lanes| then
        var l := y.lanes[q];
        if l.worker.Executing? then
          var s := Security(l.worker.task);
          var (b, phase) := Act(BookOf(y, s), l.worker.task, l.worker.phase);
          y.(books := y.books[s := b], lanes := y.lanes[q := l.(worker := AfterAct(l.worker.task, phase))])
        else y.(lanes := y.lanes[q := PollLane(l, y.shuttingDown)])
      else y
  }

  // ----- The invariant -----

  /** The tasks of one security, in submission order. */
  function Of(ts: seq<Command>, s: nat): seq<Command> {
    if ts == [] then []
    else Of(ts[..|ts| - 1], s) + if Security(ts[|ts| - 1]) == s then [ts[|ts| - 1]] else []
  }

  predicate OkFor(t: Command, s: nat) {
    TaskOk(t) && Security(t) == s
  }

  predicate AllOk(ts: seq<Command>, s: nat) {
    forall i | 0 <= i < |ts| :: OkFor(ts[i], s)
  }

  ghost predicate QueueInv(ring: R.State<Command>, s: nat) {
    R.Inv(ring) && AllOk(ring.pushed, s)
  }

  /** The tasks popped so far, run one after the other, give the book the worker is heading for. */
  ghost predicate Heading(w: Worker, popped: seq<Command>, s: nat, book: Book) {
    && AllOk(popped, s) && book.Balanced()
    && if w.Executing? then OkFor(w.task, s) && Outcome(book, w.task, w.phase) == RunTasks(popped)
       else book == RunTasks(popped)
  }

  ghost predicate LaneInv(l: Lane, s: nat, book: Book) {
    && QueueInv(l.ring, s) && Heading(l.worker, l.ring.popped, s, book)
    && (l.ring.consumer.NotPopping? || l.worker.InPop?)
  }

  /** The producer side of lane q, seen from the submitting thread. */
  ghost predicate FeedInv(l: Lane, q: nat, s: nat, submitter: Submitter, submitted: seq<Command>) {
    && (if submitter.Pushing? && submitter.queue == q
        then OkFor(submitter.task, s) && (l.ring.producer.NotPushing? || l.ring.producer.val == submitter.task)
        else l.ring.producer.NotPushing?)
    && Of(submitted, s) == l.ring.pushed + if submitter.Pushing? && submitter.queue == q then [submitter.task] else []
  }

  ghost predicate Inv(y: System) {
    && Shaped(y)
    && (forall q | 0 <= q < |y.lanes| :: LaneInv(y.lanes[q], y.securities[q], BookOf(y, y.securities[q])))
    && (forall q | 0 <= q < |y.lanes| :: FeedInv(y.lanes[q], q, y.securities[q], y.submitter, y.submitted))
  }

  /** The push counters of all work queues are still exact. */
  ghost predicate Exact(y: System) {
    forall q | 0 <= q < |y.lanes| :: |y.lanes[q].ring.pushed| <= INT_MAX
  }

  // ----- One lane at a time -----

  lemma RunTasksLast(ts: seq<Command>, t: Command, s: nat)
    requires AllOk(ts, s) && OkFor(t, s)
    ensures AllOk(ts + [t], s) && RunTasks(ts + [t]) == RunTask(RunTasks(ts), t)
  {
    assert (ts + [t])[..|ts|] == ts;
  }

  /** A successful tryPop hands its worker the next task. */
  lemma TakeHeads(w: Worker, popped: seq<Command>, t: Command, s: nat, book: Book)
    requires Heading(w, popped, s, book) && !w.Executing? && OkFor(t, s)
    ensures Heading(Executing(t, Starting), popped + [t], s, book)
  {
    RunTasksLast(popped, t, s);
    assert Outcome(book, t, Starting) == RunTask(book, t);
  }

  /** The steps of tryPop leave the producer alone, and pop only in order. */
  lemma PopKeepsQueue(ring: R.State<Command>, s: nat)
    requires QueueInv(ring, s) && |ring.pushed| <= INT_MAX
    ensures var r := R.Next(ring, PopStep(ring));
            && QueueInv(r, s) && r.producer == ring.producer && r.pushed == ring.pushed
            && r.popped == (if ring.consumer.Taken? then ring.popped + [ring.consumer.element] else ring.popped)
            && (ring.consumer.Taken? ==> r.consumer.NotPopping? && OkFor(ring.consumer.element, s))
  {
    R.StepKeeps(ring, PopStep(ring));
  }

  lemma PollKeeps(l: Lane, s: nat, book: Book, down: bool)
    requires LaneInv(l, s, book) && !l.worker.Executing? && |l.ring.pushed| <= INT_MAX
    ensures LaneInv(PollLane(l, down), s, book)
  {
    if l.worker.InPop? {
      PopKeepsQueue(l.ring, s);
      if l.ring.consumer.Taken? {
        TakeKeeps(l, s, book);
      }
    }
  }

  lemma TakeKeeps(l: Lane, s: nat, book: Book)
    requires LaneInv(l, s, book) && l.worker.InPop? && l.ring.consumer.Taken? && |l.ring.pushed| <= INT_MAX
    ensures LaneInv(Lane(R.Next(l.ring, R.StoreRead), Executing(l.ring.consumer.element, Starting)), s, book)
  {
    PopKeepsQueue(l.ring, s);
    TakeHeads(l.worker, l.ring.popped, l.ring.consumer.element, s, book);
  }

  lemma PollLeaves(l: Lane, down: bool)
    requires R.Shaped(l.ring)
    ensures PollLane(l, down).ring.producer == l.ring.producer && PollLane(l, down).ring.pushed == l.ring.pushed
  {
  }

  lemma ActHeads(w: Worker, popped: seq<Command>, s: nat, book: Book)
    requires Heading(w, popped, s, book) && w.Executing?
    ensures var (b, phase) := Act(book, w.task, w.phase);
            Heading(AfterAct(w.task, phase), popped, s, b)
  {
    ActKeepsOutcome(book, w.task, w.phase);
  }

  lemma PushKeepsQueue(ring: R.State<Command>, s: nat, t: Command)
    requires QueueInv(ring, s) && OkFor(t, s) && (ring.producer.NotPushing? || ring.producer.val == t)
    requires |R.Next(ring, PushStep(ring, t)).pushed| <= INT_MAX
    ensures var r := R.Next(ring, PushStep(ring, t));
            && QueueInv(r, s) && r.popped == ring.popped && r.consumer == ring.consumer
            && (r.producer.NotPushing? || r.producer.val == t)
            && r.pushed == (if ring.producer.Written? then ring.pushed + [t] else ring.pushed)
            && (ring.producer.Written? ==> r.producer.NotPushing?)
  {
    R.StepKeeps(ring, PushStep(ring, t));
  }

  // ----- All lanes at once -----

  /** What a step of one lane leaves of every other lane. */
  ghost predicate OnlyLane(y: System, z: System, q: nat) {
    && z.securities == y.securities && |z.lanes| == |y.lanes|
    && (forall k | 0 <= k < |y.lanes| && k != q :: z.lanes[k] == y.lanes[k])
    && (forall s: nat | q < |y.securities| ==> s != y.securities[q] :: BookOf(z, s) == BookOf(y, s))
  }

  /** A worker changes no lane but its own and no book but that of its own security. */
  lemma WorkTouches(y: System, q: nat)
    requires Inv(y)
    ensures OnlyLane(y, Next(y, Work(q)), q)
  {
    if q < |y.lanes| {
      assert LaneInv(y.lanes[q], y.securities[q], BookOf(y, y.securities[q]));
    }
  }

  lemma WorkKeepsLane(y: System, q: nat)
    requires Inv(y) && Exact(y) && q < |y.lanes|
    ensures var z := Next(y, Work(q));
            LaneInv(z.lanes[q], y.securities[q], BookOf(z, y.securities[q]))
  {
    var l := y.lanes[q];
    var s := y.securities[q];
    assert LaneInv(l, s, BookOf(y, s));
    if l.worker.Executing? {
      ActHeads(l.worker, l.ring.popped, s, BookOf(y, s));
    } else {
      PollKeeps(l, s, BookOf(y, s), y.shuttingDown);
    }
  }

  lemma WorkKeepsFeed(y: System, q: nat)
    requires Inv(y) && q < |y.lanes|
    ensures var z := Next(y, Work(q));
            z.submitter == y.submitter && z.submitted == y.submitted
            && FeedInv(z.lanes[q], q, y.securities[q], z.submitter, z.submitted)
  {
    assert FeedInv(y.lanes[q], q, y.securities[q], y.submitter, y.submitted);
    PollLeaves(y.lanes[q], y.shuttingDown);
  }

  lemma WorkKeeps(y: System, q: nat)
    requires Inv(y) && Exact(y) && q < |y.lanes|
    ensures Inv(Next(y, Work(q)))
  {
    WorkTouches(y, q);
    WorkKeepsLane(y, q);
    WorkKeepsFeed(y, q);
    OthersKeep(y, Next(y, Work(q)), q);
  }

  /** A step of one lane that keeps the invariant of that lane keeps that of all. */
  lemma OthersKeep(y: System, z: System, q: nat)
    requires Inv(y) && Shaped(z) && OnlyLane(y, z, q) && q < |z.lanes|
    requires LaneInv(z.lanes[q], z.securities[q], BookOf(z, z.securities[q]))
    requires FeedInv(z.lanes[q], q, z.securities[q], z.submitter, z.submitted)
    requires z.submitted == y.submitted
    requires z.submitter == y.submitter || (y.submitter.Pushing? && y.submitter.queue == q && z.submitter.Ready?)
    ensures Inv(z)
  {
    forall k | 0 <= k < |z.lanes| && k != q ensures LaneInv(z.lanes[k], z.securities[k], BookOf(z, z.securities[k])) {
      assert LaneInv(y.lanes[k], y.securities[k], BookOf(y, y.securities[k]));
    }
    forall k | 0 <= k < |z.lanes| && k != q
      ensures FeedInv(z.lanes[k], k, z.securities[k], z.submitter, z.submitted)
    {
      assert FeedInv(y.lanes[k], k, y.securities[k], y.submitter, y.submitted);
    }
  }

  lemma PushStepKeeps(y: System)
    requires Inv(y) && y.submitter.Pushing? && Exact(Next(y, Push))
    ensures Inv(Next(y, Push))
  {
    var z := Next(y, Push);
    var q := y.submitter.queue;
    var s := y.securities[q];
    assert LaneInv(y.lanes[q], s, BookOf(y, s)) && FeedInv(y.lanes[q], q, s, y.submitter, y.submitted);
    assert |z.lanes[q].ring.pushed| <= INT_MAX;
    PushKeepsQueue(y.lanes[q].ring, s, y.submitter.task);
    OthersKeep(y, z, q);
  }

  lemma TakeUpKeeps(y: System, c: Command)
    requires Inv(y) && TaskOk(c)
    ensures Inv(Next(y, Take(c)))
  {
    var z := Next(y, Take(c));
    forall k | 0 <= k < |z.lanes| ensures LaneInv(z.lanes[k], z.securities[k], BookOf(z, z.securities[k])) {
      assert LaneInv(y.lanes[k], y.securities[k], BookOf(y, y.securities[k]));
    }
    forall k | 0 <= k < |z.lanes| ensures FeedInv(z.lanes[k], k, z.securities[k], z.submitter, z.submitted) {
      TakeUpFeeds(y, c, k);
    }
  }

  lemma TakeUpFeeds(y: System, c: Command, k: nat)
    requires Inv(y) && TaskOk(c) && k < |y.lanes|
    ensures var z := Next(y, Take(c)); FeedInv(z.lanes[k], k, z.securities[k], z.submitter, z.submitted)
  {
    assert FeedInv(y.lanes[k], k, y.securities[k], y.submitter, y.submitted);
    if y.submitter.Ready? && Security(c) in y.securities {
      var t, q := Numbered(c, y.last), QueueOf(y.securities, Security(c));
      assert q != k ==> y.securities[q] != y.securities[k];
      FeedTaken(y.lanes[k], k, y.securities[k], y.submitted, t, q);
    }
  }

  lemma FeedTaken(l: Lane, k: nat, s: nat, submitted: seq<Command>, t: Command, q: nat)
    requires FeedInv(l, k, s, Ready, submitted) && TaskOk(t) && (Security(t) == s <==> q == k)
    ensures FeedInv(l, k, s, Pushing(t, q), submitted + [t])
  {
    OfLast(submitted, t, s);
  }

  lemma OfLast(ts: seq<Command>, t: Command, s: nat)
    ensures Of(ts + [t], s) == Of(ts, s) + if Security(t) == s then [t] else []
  {
    assert (ts + [t])[..|ts|] == ts;
  }

  predicate ActionOk(a: Action) {
    a.Take? ==> TaskOk(a.c)
  }

  /** Every step of every thread keeps the invariant. */
  lemma StepKeeps(y: System, a: Action)
    requires Inv(y) && ActionOk(a) && Exact(y) && Exact(Next(y, a))
    ensures Inv(Next(y, a))
  {
    match a
    case Take(c) => TakeUpKeeps(y, c);
    case Push => if y.submitter.Pushing? { PushStepKeeps(y); }
    case Work(q) => if q < |y.lanes| { WorkKeeps(y, q); }
    case Shutdown =>
      var z := Next(y, a);
      assert forall s: nat :: BookOf(z, s) == BookOf(y, s);
  }
}
