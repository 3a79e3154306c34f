/** Double-checked locking over a test-and-set lock (`source/core/design_patterns/singleton_dclp.hpp`,
    `source/core/concurrency/spinlock.hpp`): any number of threads call getInstance over and over; a step is one
    atomic access, or the construction. */
module LazySingleton {
  import opened Wrappers

  /** Where a thread stands inside getInstance, with the pointer it has loaded or built. Objects are numbered in
      the order of their construction. */
  datatype Caller =
    | Calling                   // about to load the instance
    | Spinning                  // saw null; in the loop of lock
    | Holding                   // about to load the instance again
    | Building                  // saw null again; about to construct
    | Storing(instance: nat)
    | Unlocking(instance: nat)
    | Returning(instance: nat)

  /** `built` objects exist; `returned` lists what all finished calls returned. */
  datatype State = State(flag: bool, instance: Option<nat>, built: nat, callers: seq<Caller>, returned: seq<nat>)

  function With(s: State, t: nat, c: Caller): State
    requires t < |s.callers|
  {
    s.(callers := s.callers[t := c])
  }

  /** The next step of thread t. A test-and-set that finds the flag set spins. */
  function Step(s: State, t: nat): (n: State)
    ensures |n.callers| == |s.callers|
  {
    if t >= |s.callers| then s
    else
      match s.callers[t]
      case Calling => With(s, t, match s.instance case Some(p) => Returning(p) case None => Spinning)
      case Spinning => if s.flag then s else With(s.(flag := true), t, Holding)
      case Holding => With(s, t, match s.instance case Some(p) => Unlocking(p) case None => Building)
      case Building => With(s.(built := s.built + 1), t, Storing(s.built))
      case Storing(p) => With(s.(instance := Some(p)), t, Unlocking(p))
      case Unlocking(p) => With(s.(flag := false), t, Returning(p))
      case Returning(p) => With(s.(returned := s.returned + [p]), t, Calling)
  }

  /** Any interleaving is the sequence of the threads that take a step. */
  function Run(s: State, schedule: seq<nat>): State
    decreases |schedule|
  {
    if schedule == [] then s else Run(Step(s, schedule[0]), schedule[1..])
  }

  predicate Initial(s: State) {
    && !s.flag && s.instance == None && s.built == 0 && s.returned == []
    && forall t | 0 <= t < |s.callers| :: s.callers[t].Calling?
  }

  /** The thread is inside the critical section of the lock. */
  predicate Inside(c: Caller) {
    c.Holding? || c.Building? || c.Storing? || c.Unlocking?
  }

  ghost predicate Exclusive(s: State) {
    && (forall i, j | 0 <= i < j < |s.callers| :: !(Inside(s.callers[i]) && Inside(s.callers[j])))
    && (forall i | 0 <= i < |s.callers| && Inside(s.callers[i]) :: s.flag)
  }

  /** What a thread knows where it stands. */
  predicate Knows(s: State, c: Caller) {
    match c
    case Building => s.instance == None && s.built == 0
    case Storing(p) => s.instance == None && s.built == 1 && p == 0
    case Unlocking(p) => s.instance == Some(p)
    case Returning(p) => s.instance == Some(p)
    case _ => true
  }

  ghost predicate Inv(s: State) {
    && Exclusive(s)
    && (forall t | 0 <= t < |s.callers| :: Knows(s, s.callers[t]))
    && (s.instance.Some? ==> s.instance == Some(0) && s.built == 1)
    && (s.instance == None && s.built > 0 ==> exists t :: 0 <= t < |s.callers| && s.callers[t].Storing?)
    && (forall k | 0 <= k < |s.returned| :: s.instance == Some(s.returned[k]))
  }

  lemma StepKeeps(s: State, t: nat)
    requires Inv(s)
    ensures Inv(Step(s, t))
  {
    var n := Step(s, t);
    if t < |s.callers| {
      forall i | 0 <= i < |n.callers| && i != t ensures Knows(n, n.callers[i]) {
        assert Knows(s, s.callers[i]);
      }
      if s.callers[t].Building? {
        assert n.callers[t].Storing?;
      } else if s.instance == None && s.built > 0 {
        var u :| 0 <= u < |s.callers| && s.callers[u].Storing?;
        assert u != t ==> n.callers[u].Storing?;
      }
    }
  }

  /** At most one object was built, and every finished call returned it. */
  ghost predicate OneInstance(s: State) {
    && s.built <= 1 && (s.returned != [] ==> s.instance == Some(0) && s.built == 1)
    && forall k | 0 <= k < |s.returned| :: s.returned[k] == 0
  }

  lemma InvOne(s: State)
    requires Inv(s)
    ensures OneInstance(s)
  {
    if s.instance == None && s.built > 0 {
      var u :| 0 <= u < |s.callers| && s.callers[u].Storing?;
      assert Knows(s, s.callers[u]);
    }
    assert s.returned != [] ==> s.instance == Some(s.returned[0]);
  }

  lemma {:induction false} RunKeeps(s: State, schedule: seq<nat>)
    requires Inv(s)
    ensures Inv(Run(s, schedule))
    decreases |schedule|
  {
    if schedule != [] {
      StepKeeps(s, schedule[0]);
      RunKeeps(Step(s, schedule[0]), schedule[1..]);
    }
  }

  /** In every interleaving of any number of threads at most one is inside the lock, at most one object is
      ever built, and all calls that have returned returned that object, which is the instance. */
  lemma BuiltOnce(s: State, schedule: seq<nat>)
    requires Initial(s)
    ensures Exclusive(Run(s, schedule)) && OneInstance(Run(s, schedule))
  {
    RunKeeps(s, schedule);
    InvOne(Run(s, schedule));
  }

  /** The lock is not left behind: with nobody inside it is free, so the next test-and-set succeeds. */
  ghost predicate Held(s: State) {
    s.flag ==> exists t :: 0 <= t < |s.callers| && Inside(s.callers[t])
  }

  lemma StepReleases(s: State, t: nat)
    requires Inv(s) && Held(s)
    ensures Held(Step(s, t))
  {
    var n := Step(s, t);
    if n.flag && t < |s.callers| && !Inside(n.callers[t]) {
      var u :| 0 <= u < |s.callers| && Inside(s.callers[u]);
      assert u != t && Inside(n.callers[u]);
    }
  }

  lemma {:induction false} RunReleases(s: State, schedule: seq<nat>)
    requires Inv(s) && Held(s)
    ensures Held(Run(s, schedule))
    decreases |schedule|
  {
    if schedule != [] {
      StepKeeps(s, schedule[0]);
      StepReleases(s, schedule[0]);
      RunReleases(Step(s, schedule[0]), schedule[1..]);
    }
  }

  // ----- Every call returns -----

  /** A schedule in which thread t alone takes k steps. */
  function Alone(t: nat, k: nat): (schedule: seq<nat>)
    ensures |schedule| == k && forall i | 0 <= i < k :: schedule[i] == t
  {
    seq(k, i => t)
  }

  /** Nobody but thread t is inside the lock. */
  ghost predicate LeftTo(s: State, t: nat) {
    forall u | 0 <= u < |s.callers| && u != t :: !Inside(s.callers[u])
  }

  /** How far a thread that runs alone has to go. */
  function Distance(c: Caller, present: bool): (k: nat)
    ensures 0 < k <= 7
  {
    match c
    case Calling => if present then 2 else 7
    case Spinning => if present then 4 else 6
    case Holding => if present then 3 else 5
    case Building => 4
    case Storing(_) => 3
    case Unlocking(_) => 2
    case Returning(_) => 1
  }

  /** Between `s` and `n` a call of thread t has returned the one instance, which is built if it was not, and the lock
      is free; the other threads stand where they stood. */
  ghost predicate Returned(s: State, n: State, t: nat)
    requires t < |s.callers|
  {
    && n.returned == s.returned + [0]
    && n.instance == Some(0) && n.built == 1 && !n.flag
    && n.callers == s.callers[t := Calling]
  }

  lemma {:induction false} ReturnsAlone(s: State, t: nat)
    requires Inv(s) && Held(s) && t < |s.callers| && LeftTo(s, t)
    ensures Returned(s, Run(s, Alone(t, Distance(s.callers[t], s.instance.Some?))), t)
    decreases Distance(s.callers[t], s.instance.Some?)
  {
    var k, n := Distance(s.callers[t], s.instance.Some?), Step(s, t);
    StepKeeps(s, t);
    StepReleases(s, t);
    assert Knows(s, s.callers[t]);
    assert Alone(t, k)[1..] == Alone(t, k - 1);
    if s.callers[t].Returning? {
      assert Run(n, Alone(t, 0)) == n;
    } else {
      InvOne(s);
      assert Distance(n.callers[t], n.instance.Some?) == k - 1;
      ReturnsAlone(n, t);
    }
  }

  lemma InitialInv(s: State)
    requires Initial(s)
    ensures Inv(s) && Held(s)
  {
  }

  lemma {:induction false} RunThreads(s: State, schedule: seq<nat>)
    ensures |Run(s, schedule).callers| == |s.callers|
    decreases |schedule|
  {
    if schedule != [] { RunThreads(Step(s, schedule[0]), schedule[1..]); }
  }

  /** In every reachable state: a thread with nobody else inside the lock, running alone, returns the instance within
      seven steps, and in two when it has one to load. */
  lemma CallReturns(start: State, schedule: seq<nat>, t: nat)
    requires Initial(start) && t < |start.callers| && LeftTo(Run(start, schedule), t)
    ensures |Run(start, schedule).callers| == |start.callers|
    ensures var s := Run(start, schedule);
            exists k: nat | 0 < k <= 7 && (s.callers[t].Calling? ==> k == if s.instance == None then 7 else 2) ::
              Returned(s, Run(s, Alone(t, k)), t)
  {
    RunThreads(start, schedule);
    InitialInv(start);
    RunKeeps(start, schedule);
    RunReleases(start, schedule);
    ReturnsAlone(Run(start, schedule), t);
  }

  /** With an instance present a call takes two steps and leaves the lock alone, whoever holds it. */
  lemma LoadReturns(start: State, schedule: seq<nat>, t: nat)
    requires Initial(start) && t < |start.callers|
    ensures |Run(start, schedule).callers| == |start.callers|
    ensures var s := Run(start, schedule);
            s.instance.Some? && s.callers[t].Calling? ==> Run(s, [t, t]) == s.(returned := s.returned + [0])
  {
    RunThreads(start, schedule);
    InitialInv(start);
    RunKeeps(start, schedule);
    var s := Run(start, schedule);
    if s.instance.Some? && s.callers[t].Calling? {
      var n := Step(s, t);
      assert [t, t][1..] == [t] && [t][1..] == [];
      assert Run(s, [t, t]) == Run(n, [t]) == Step(n, t);
      assert n.callers[t] == Returning(0) && Step(n, t).callers == s.callers;
    }
  }

  lemma {:induction false} RunOn(s: State, before: seq<nat>, after: seq<nat>)
    ensures Run(s, before + after) == Run(Run(s, before), after)
    decreases |before|
  {
    if before == [] {
      assert before + after == after;
    } else {
      assert (before + after)[1..] == before[1..] + after;
      RunOn(Step(s, before[0]), before[1..], after);
    }
  }

  /** No reachable state is a deadlock: whoever is inside the lock leaves it, and then any thread's call returns. */
  lemma NoDeadlock(start: State, schedule: seq<nat>, t: nat) returns (more: seq<nat>)
    requires Initial(start) && t < |start.callers|
    ensures |more| <= 14 && |Run(start, schedule).callers| == |start.callers|
    ensures var s, n := Run(start, schedule), Run(start, schedule + more);
            |n.callers| == |s.callers| && s.returned < n.returned && n.instance == Some(0) && n.built == 1
            && n.callers[t].Calling? && !n.flag && forall u | 0 <= u < |n.callers| :: !Inside(n.callers[u])
  {
    RunThreads(start, schedule);
    InitialInv(start);
    RunKeeps(start, schedule);
    RunReleases(start, schedule);
    more := [];
    var s := Run(start, schedule);
    if !LeftTo(s, t) {
      var u :| 0 <= u < |s.callers| && u != t && Inside(s.callers[u]);
      more := Alone(u, Distance(s.callers[u], s.instance.Some?));
      ReturnsAlone(s, u);
      RunOn(start, schedule, more);
      RunKeeps(s, more);
      RunReleases(s, more);
    }
    var n := Run(start, schedule + more);
    RunOn(start, schedule, more);
    var last := Alone(t, Distance(n.callers[t], n.instance.Some?));
    ReturnsAlone(n, t);
    RunOn(start, schedule + more, last);
    assert schedule + more + last == schedule + (more + last);
    more := more + last;
  }
}
