/** No book is left behind: until the shutdown, whatever was submitted for a security can always be worked off, by
    its worker and by the pending `push` alone
    (`source/core/concurrency/thread_pool.cpp`, `source/core/concurrency/ring_buffer_spsc_lockfree.hpp`). */
module MatchingProgress {
  import opened Integers
  import opened Matching
  import opened Exchanges
  import R = RingBuffers
  import M = MultithreadedMatching
  import opened MatchingRefinement

  // ----- The worker -----

  /** A bound on the actions that are left of a task. */
  function ActionsLeft(b: Book, t: Command, phase: M.Phase): nat {
    match (t, phase)
    case (New(_), Starting) => |b.bids| + |b.asks| + 3
    case (New(_), Looping) => |b.bids| + |b.asks| + 1
    case (Cancel(_, _, _), Starting) => 2
    case _ => 1
  }

  lemma ActEnds(b: Book, t: Command, phase: M.Phase)
    requires b.Balanced() && M.TaskOk(t)
    ensures var (c, next) := M.Act(b, t, phase);
            next.Finished? || ActionsLeft(c, t, next) < ActionsLeft(b, t, phase)
  {
    if t.New? && phase.Looping? && b.Crossed() { RoundShrinks(b); }
  }

  /** The steps that an idle worker is away from a task. */
  function StepsToTask(l: M.Lane): nat {
    if l.worker.AtLoop? then 5
    else
      match l.ring.consumer
      case NotPopping => 4
      case HasHead(_) => 3
      case MayRead(_) => 2
      case Taken(_, _) => 1
  }

  predicate Idle(l: M.Lane) {
    l.worker.AtLoop? || l.worker.InPop?
  }

  lemma PollAdvances(l: M.Lane)
    requires R.Inv(l.ring) && Idle(l) && (l.ring.consumer.NotPopping? || l.worker.InPop?) && l.ring.popped != l.ring.pushed
    ensures var n := M.PollLane(l, false);
            || (n.worker.Executing? && |n.ring.popped| == |l.ring.popped| + 1)
            || (Idle(n) && n.ring.popped == l.ring.popped && StepsToTask(n) < StepsToTask(l))
  {
    assert |l.ring.popped| < |l.ring.pushed|;
  }

  /** The pool is running, and so is the worker of queue q. */
  ghost predicate Serving(y: M.System, q: nat) {
    M.Inv(y) && M.Exact(y) && q < |y.lanes| && !y.shuttingDown && !y.lanes[q].worker.Exited?
  }

  predicate Drained(l: M.Lane) {
    !l.worker.Executing? && l.ring.popped == l.ring.pushed
  }

  function Waiting(l: M.Lane): int {
    |l.ring.pushed| - |l.ring.popped|
  }

  function StepsLeft(l: M.Lane, b: Book): nat {
    if l.worker.Executing? then ActionsLeft(b, l.worker.task, l.worker.phase) else StepsToTask(l)
  }

  /** The lane is nearer to being drained: fewer tasks wait, or its task is done, or fewer steps are left. */
  predicate Nearer(l: M.Lane, b: Book, n: M.Lane, c: Book) {
    || Waiting(n) < Waiting(l)
    || (Waiting(n) == Waiting(l) && l.worker.Executing? && !n.worker.Executing?)
    || (Waiting(n) == Waiting(l) && l.worker.Executing? == n.worker.Executing? && StepsLeft(n, c) < StepsLeft(l, b))
  }

  lemma WorkOnce(y: M.System, q: nat)
    requires Serving(y, q) && !Drained(y.lanes[q])
    ensures var z := M.Next(y, M.Work(q));
            && Serving(z, q) && Same(y, z, q)
            && Nearer(y.lanes[q], M.BookOf(y, y.securities[q]), z.lanes[q], M.BookOf(z, y.securities[q]))
  {
    var l, s, z := y.lanes[q], y.securities[q], M.Next(y, M.Work(q));
    M.WorkKeeps(y, q);
    assert M.LaneInv(l, s, M.BookOf(y, s));
    if l.worker.Executing? {
      ActEnds(M.BookOf(y, s), l.worker.task, l.worker.phase);
    } else {
      M.PollLeaves(l, false);
      PollAdvances(l);
    }
  }

  /** What the worker of queue q leaves to others. */
  ghost predicate Same(y: M.System, z: M.System, q: nat)
    requires q < |y.lanes| && q < |z.lanes|
  {
    && z.securities == y.securities && z.submitter == y.submitter && z.submitted == y.submitted
    && z.lanes[q].ring.pushed == y.lanes[q].ring.pushed
  }

  lemma RunOn(y: M.System, a: M.Action, rest: seq<M.Action>)
    requires M.Shaped(y)
    ensures RunSteps(y, [a] + rest) == RunSteps(M.Next(y, a), rest)
  {
    assert ([a] + rest)[1..] == rest;
  }

  lemma {:induction false} Drain(y: M.System, q: nat) returns (steps: seq<M.Action>)
    requires Serving(y, q)
    ensures forall i | 0 <= i < |steps| :: steps[i] == M.Work(q)
    ensures var z := RunSteps(y, steps); Serving(z, q) && Same(y, z, q) && Drained(z.lanes[q])
    decreases Waiting(y.lanes[q]), y.lanes[q].worker.Executing?, StepsLeft(y.lanes[q], M.BookOf(y, y.securities[q]))
  {
    if Drained(y.lanes[q]) {
      steps := [];
    } else {
      WorkOnce(y, q);
      var rest := Drain(M.Next(y, M.Work(q)), q);
      RunOn(y, M.Work(q), rest);
      steps := [M.Work(q)] + rest;
    }
  }

  // ----- The push under way -----

  function StepsToPushed(r: R.State<Command>): nat {
    match r.producer
    case NotPushing => 4
    case HasTail(_, _) => 3
    case MayWrite(_, _) => 2
    case Written(_, _) => 1
  }

  /** Into an empty queue a push succeeds at the first attempt. */
  lemma PushAdvances(r: R.State<Command>, t: Command)
    requires R.Inv(r) && r.popped == r.pushed
    ensures var n := R.Next(r, M.PushStep(r, t));
            if r.producer.Written? then n.pushed == r.pushed + [r.producer.val]
            else n.pushed == r.pushed && n.popped == r.popped && StepsToPushed(n) < StepsToPushed(r)
                 && !n.producer.NotPushing?
  {
  }

  lemma PushExact(y: M.System)
    requires M.Shaped(y) && M.Exact(y) && y.submitter.Pushing? && |y.lanes[y.submitter.queue].ring.pushed| < INT_MAX
    ensures M.Exact(M.Next(y, M.Push))
  {
    var z := M.Next(y, M.Push);
    forall k | 0 <= k < |z.lanes| ensures |z.lanes[k].ring.pushed| <= INT_MAX {
      assert |y.lanes[k].ring.pushed| <= INT_MAX;
    }
  }

  lemma PushOnce(y: M.System, q: nat)
    requires Serving(y, q) && M.PushingTo(y, q) && Drained(y.lanes[q]) && |y.lanes[q].ring.pushed| < INT_MAX
    ensures var z := M.Next(y, M.Push);
            && Serving(z, q) && z.submitted == y.submitted
            && if y.lanes[q].ring.producer.Written? then z.submitter.Ready?
               else && z.submitter == y.submitter && Drained(z.lanes[q])
                    && |z.lanes[q].ring.pushed| == |y.lanes[q].ring.pushed|
                    && StepsToPushed(z.lanes[q].ring) < StepsToPushed(y.lanes[q].ring)
  {
    PushExact(y);
    M.PushStepKeeps(y);
    assert M.LaneInv(y.lanes[q], y.securities[q], M.BookOf(y, y.securities[q]));
    PushAdvances(y.lanes[q].ring, y.submitter.task);
  }

  lemma {:induction false} FinishPush(y: M.System, q: nat) returns (steps: seq<M.Action>)
    requires Serving(y, q) && M.PushingTo(y, q) && Drained(y.lanes[q]) && |y.lanes[q].ring.pushed| < INT_MAX
    ensures forall i | 0 <= i < |steps| :: steps[i] == M.Push
    ensures var z := RunSteps(y, steps); Serving(z, q) && z.submitter.Ready? && z.submitted == y.submitted
    decreases StepsToPushed(y.lanes[q].ring)
  {
    var z := M.Next(y, M.Push);
    PushOnce(y, q);
    var rest := [];
    if z.submitter.Pushing? {
      rest := FinishPush(z, q);
    }
    RunOn(y, M.Push, rest);
    steps := [M.Push] + rest;
  }

  // ----- Together -----

  lemma {:induction false} RunBoth(y: M.System, first: seq<M.Action>, second: seq<M.Action>)
    requires M.Shaped(y)
    ensures RunSteps(y, first + second) == RunSteps(RunSteps(y, first), second)
    decreases |first|
  {
    if first == [] {
      assert first + second == second;
    } else {
      assert first + second == [first[0]] + (first[1..] + second);
      RunOn(y, first[0], first[1..] + second);
      RunBoth(M.Next(y, first[0]), first[1..], second);
    }
  }

  predicate Helps(a: M.Action, q: nat) {
    a == M.Push || a == M.Work(q)
  }

  /** Nothing is queued or under way for the security of queue q. */
  predicate Settled(y: M.System, q: nat)
    requires q < |y.lanes|
  {
    Drained(y.lanes[q]) && !M.PushingTo(y, q)
  }

  lemma Settle(y: M.System, q: nat) returns (steps: seq<M.Action>)
    requires Serving(y, q) && |M.Of(y.submitted, y.securities[q])| <= INT_MAX
    ensures forall i | 0 <= i < |steps| :: Helps(steps[i], q)
    ensures var z := RunSteps(y, steps); Serving(z, q) && Settled(z, q) && z.submitted == y.submitted
    ensures RunSteps(y, steps).submitter == if M.PushingTo(y, q) then M.Ready else y.submitter
  {
    steps := Drain(y, q);
    var z := RunSteps(y, steps);
    if M.PushingTo(z, q) {
      assert M.FeedInv(z.lanes[q], q, z.securities[q], z.submitter, z.submitted);
      var push := FinishPush(z, q);
      var more := Drain(RunSteps(z, push), q);
      RunBoth(z, push, more);
      RunBoth(y, steps, push + more);
      steps := steps + (push + more);
    }
  }

  // ----- Over every run -----

  /** Workers exit only when the pool is shutting down. */
  ghost predicate Awake(y: M.System) {
    y.shuttingDown || forall q | 0 <= q < |y.lanes| :: !y.lanes[q].worker.Exited?
  }

  lemma StepAwake(y: M.System, a: M.Action)
    requires M.Shaped(y) && Awake(y)
    ensures Awake(M.Next(y, a))
  {
  }

  lemma {:induction false} RunAwake(y: M.System, steps: seq<M.Action>)
    requires M.Shaped(y) && Awake(y)
    ensures Awake(RunSteps(y, steps))
    decreases |steps|
  {
    if steps != [] {
      StepAwake(y, steps[0]);
      RunAwake(M.Next(y, steps[0]), steps[1..]);
    }
  }

  lemma SettledSequential(z: M.System, q: nat)
    requires M.Inv(z) && Accounted(z) && q < |z.lanes| && Settled(z, q)
    ensures SequentialAfter(SetOf(z.securities), z.submitted, |z.submitted|, z.securities[q], M.BookOf(z, z.securities[q]))
  {
    Observed(z, q);
  }

  /** All commands submitted have had their effect on the book of queue q. */
  ghost predicate Complete(z: M.System, q: nat, submitted: seq<Command>) {
    && q < |z.securities| == |z.lanes| && z.submitted == submitted && Settled(z, q)
    && SequentialAfter(SetOf(z.securities), submitted, |submitted|, z.securities[q], M.BookOf(z, z.securities[q]))
  }

  lemma Finish(y: M.System, q: nat) returns (more: seq<M.Action>)
    requires Serving(y, q) && Accounted(y) && |M.Of(y.submitted, y.securities[q])| <= INT_MAX
    ensures forall i | 0 <= i < |more| :: Helps(more[i], q)
    ensures Complete(RunSteps(y, more), q, y.submitted)
  {
    more := Settle(y, q);
    forall i | 0 <= i < |more| ensures Allowed(more[i]) { assert Helps(more[i], q); }
    RunKeeps(y, more);
    SettledSequential(RunSteps(y, more), q);
  }

  /** From every reachable state before the shutdown some steps of the worker of queue q and of the pending push
      alone lead to a state in which its book is the book of the single-threaded machine after all commands. */
  lemma Progress(start: M.System, steps: seq<M.Action>, q: nat) returns (more: seq<M.Action>)
    requires Initial(start) && (forall i | 0 <= i < |steps| :: Allowed(steps[i])) && q < |start.securities|
    requires M.Exact(RunSteps(start, steps)) && !RunSteps(start, steps).shuttingDown
    requires |M.Of(RunSteps(start, steps).submitted, start.securities[q])| <= INT_MAX
    ensures forall i | 0 <= i < |more| :: Helps(more[i], q)
    ensures Complete(RunSteps(start, steps + more), q, RunSteps(start, steps).submitted)
  {
    InitialInv(start);
    RunKeeps(start, steps);
    RunAwake(start, steps);
    more := Finish(RunSteps(start, steps), q);
    RunBoth(start, steps, more);
  }

  // ----- Every command gets through -----

  /** Running, with the submitting thread between two commands. */
  ghost predicate Open(y: M.System) {
    M.Inv(y) && Accounted(y) && M.Exact(y) && !y.shuttingDown && Awake(y) && y.submitter.Ready?
  }

  lemma InitialOpen(y: M.System)
    requires Initial(y)
    ensures Open(y)
  {
    InitialInv(y);
  }

  ghost predicate AllAllowed(steps: seq<M.Action>) {
    forall i | 0 <= i < |steps| :: Allowed(steps[i])
  }

  lemma {:induction false} OfShorter(ts: seq<Command>, s: nat)
    ensures |M.Of(ts, s)| <= |ts|
    decreases |ts|
  {
    if ts != [] { OfShorter(ts[..|ts| - 1], s); }
  }

  lemma TakeUp(y: M.System, c: Command)
    requires Open(y) && Allowed(M.Take(c)) && Security(c) in y.securities
    ensures var z, q := M.Next(y, M.Take(c)), M.QueueOf(y.securities, Security(c));
            && Serving(z, q) && Accounted(z) && Awake(z) && M.PushingTo(z, q)
            && z.submitted == y.submitted + [M.Numbered(c, y.last)]
  {
    M.TakeUpKeeps(y, c);
    StepAccounts(y, M.Take(c));
  }

  /** The submitting thread takes up a command and, with the worker of its queue, gets it done. */
  lemma Handle(y: M.System, c: Command) returns (steps: seq<M.Action>)
    requires Open(y) && Allowed(M.Take(c)) && Security(c) in y.securities && |y.submitted| < INT_MAX
    ensures AllAllowed(steps)
    ensures Open(RunSteps(y, steps)) && RunSteps(y, steps).submitted == y.submitted + [M.Numbered(c, y.last)]
  {
    var z, q := M.Next(y, M.Take(c)), M.QueueOf(y.securities, Security(c));
    TakeUp(y, c);
    OfShorter(z.submitted, z.securities[q]);
    var more := Settle(z, q);
    HelpsAllowed(more, q);
    RunKeeps(z, more);
    RunAwake(z, more);
    RunOn(y, M.Take(c), more);
    steps := [M.Take(c)] + more;
  }

  /** The command as submitted: a new order has got its number. */
  predicate IsNumbered(t: Command, c: Command) {
    match (t, c)
    case (New(o), New(p)) => o == p.(id := o.id)
    case _ => t == c
  }

  /** These commands were submitted next. */
  ghost predicate Carries(before: seq<Command>, after: seq<Command>, cs: seq<Command>) {
    && |after| == |before| + |cs| && before <= after
    && forall i | 0 <= i < |cs| :: IsNumbered(after[|before| + i], cs[i])
  }

  lemma CarriesMore(before: seq<Command>, t: Command, after: seq<Command>, cs: seq<Command>)
    requires cs != [] && IsNumbered(t, cs[0]) && Carries(before + [t], after, cs[1..])
    ensures Carries(before, after, cs)
  {
    forall i | 0 <= i < |cs| ensures IsNumbered(after[|before| + i], cs[i]) {
      if i > 0 { assert cs[i] == cs[1..][i - 1]; }
    }
  }

  /** Every command is acceptable and for a known security. */
  ghost predicate AllKnown(cs: seq<Command>, securities: seq<nat>) {
    forall i | 0 <= i < |cs| :: Allowed(M.Take(cs[i])) && Security(cs[i]) in securities
  }

  lemma {:induction false} HandleAll(y: M.System, cs: seq<Command>) returns (steps: seq<M.Action>)
    requires Open(y) && AllKnown(cs, y.securities) && |y.submitted| + |cs| <= INT_MAX
    ensures AllAllowed(steps)
    ensures Open(RunSteps(y, steps)) && Carries(y.submitted, RunSteps(y, steps).submitted, cs)
    decreases |cs|
  {
    if cs == [] {
      steps := [];
    } else {
      var first := Handle(y, cs[0]);
      var z := RunSteps(y, first);
      assert AllKnown(cs[1..], z.securities);
      var rest := HandleAll(z, cs[1..]);
      HandleMore(y, z, cs, M.Numbered(cs[0], y.last), first, rest);
      steps := first + rest;
    }
  }

  lemma HandleMore(y: M.System, z: M.System, cs: seq<Command>, t: Command, first: seq<M.Action>, rest: seq<M.Action>)
    requires M.Shaped(y) && z == RunSteps(y, first) && AllAllowed(first) && AllAllowed(rest)
    requires cs != [] && IsNumbered(t, cs[0]) && z.submitted == y.submitted + [t]
    requires Carries(z.submitted, RunSteps(z, rest).submitted, cs[1..])
    ensures RunSteps(y, first + rest) == RunSteps(z, rest) && AllAllowed(first + rest)
    ensures Carries(y.submitted, RunSteps(z, rest).submitted, cs)
  {
    RunBoth(y, first, rest);
    CarriesMore(y.submitted, t, RunSteps(z, rest).submitted, cs);
  }

  lemma FinishFrom(y: M.System, q: nat) returns (more: seq<M.Action>)
    requires Open(y) && q < |y.lanes| && |y.submitted| <= INT_MAX
    ensures AllAllowed(more)
    ensures Complete(RunSteps(y, more), q, y.submitted)
  {
    OpenServing(y, q);
    more := Finish(y, q);
    HelpsAllowed(more, q);
  }

  lemma OpenServing(y: M.System, q: nat)
    requires Open(y) && q < |y.lanes| && |y.submitted| <= INT_MAX
    ensures Serving(y, q) && |M.Of(y.submitted, y.securities[q])| <= INT_MAX
  {
    OfShorter(y.submitted, y.securities[q]);
  }

  lemma HelpsAllowed(steps: seq<M.Action>, q: nat)
    requires forall i | 0 <= i < |steps| :: Helps(steps[i], q)
    ensures AllAllowed(steps)
  {
  }

  /** Every list of acceptable commands can be submitted, and for every security a run of all threads ends with its book
      as the single-threaded machine leaves it after all of them. */
  lemma AllReachBooks(start: M.System, cs: seq<Command>, q: nat) returns (steps: seq<M.Action>)
    requires Initial(start) && |cs| <= INT_MAX && q < |start.securities| && AllKnown(cs, start.securities)
    ensures AllAllowed(steps)
    ensures Carries([], RunSteps(start, steps).submitted, cs)
    ensures Complete(RunSteps(start, steps), q, RunSteps(start, steps).submitted)
  {
    InitialOpen(start);
    var before := HandleAll(start, cs);
    var more := FinishFrom(RunSteps(start, before), q);
    RunBoth(start, before, more);
    steps := before + more;
  }

  // ----- The shutdown -----

  /** How far a worker is from its next load of the flag, but for a task. */
  function StepsToFlag(l: M.Lane): nat {
    match l.worker
    case InPop => 5 + StepsToTask(l)
    case Executing(_, _) => 2
    case _ => 1
  }

  lemma FlagNears(l: M.Lane)
    requires l.worker.InPop? && R.Inv(l.ring)
    ensures var n := M.PollLane(l, true); !n.worker.Exited? && StepsToFlag(n) < StepsToFlag(l)
  {
  }

  /** After the shutdown every worker, on its own, finishes the task it has, or the one it is just popping, and exits. */
  lemma {:induction false} Exits(y: M.System, q: nat) returns (steps: seq<M.Action>)
    requires M.Inv(y) && M.Exact(y) && y.shuttingDown && q < |y.lanes|
    ensures forall i | 0 <= i < |steps| :: steps[i] == M.Work(q)
    ensures RunSteps(y, steps).lanes[q].worker.Exited?
    decreases StepsToFlag(y.lanes[q]), StepsLeft(y.lanes[q], M.BookOf(y, y.securities[q]))
  {
    var l, z := y.lanes[q], M.Next(y, M.Work(q));
    if l.worker.Exited? {
      steps := [];
    } else {
      M.WorkKeeps(y, q);
      assert M.LaneInv(l, y.securities[q], M.BookOf(y, y.securities[q]));
      if l.worker.Executing? {
        ActEnds(M.BookOf(y, y.securities[q]), l.worker.task, l.worker.phase);
      } else if l.worker.InPop? {
        M.PollLeaves(l, true);
        FlagNears(l);
      }
      steps := [];
      if !z.lanes[q].worker.Exited? { steps := Exits(z, q); }
      RunOn(y, M.Work(q), steps);
      steps := [M.Work(q)] + steps;
    }
  }

  /** So it is in every reachable state after the shutdown. */
  lemma WorkersExit(start: M.System, steps: seq<M.Action>, q: nat) returns (more: seq<M.Action>)
    requires Initial(start) && AllAllowed(steps) && q < |start.securities|
    requires M.Exact(RunSteps(start, steps)) && RunSteps(start, steps).shuttingDown
    ensures forall i | 0 <= i < |more| :: more[i] == M.Work(q)
    ensures RunSteps(start, steps + more).lanes[q].worker.Exited?
  {
    InitialInv(start);
    RunKeeps(start, steps);
    more := Exits(RunSteps(start, steps), q);
    RunBoth(start, steps, more);
  }
}
