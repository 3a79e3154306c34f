/** The single-producer single-consumer ring buffer (`source/core/concurrency/ring_buffer_spsc_lockfree.hpp`).
    One step per atomic load or store and per slot access, sequentially consistent; each thread works on
    the copies it loaded earlier. */
module RingBuffers {
  import opened Integers

  // ----- The C++ integers -----

  /** `increment` on an int: beyond the largest value the counter is no longer exact. */
  function Increment(n: int): int {
    if n == INT_MAX then INT_MIN else n + 1
  }

  /** Where a counter points in the buffer. */
  function Slot(counter: int, capacity: nat): nat
    requires capacity > 0
  {
    ToSize(counter) % capacity
  }

  /** The guard of tryPush. */
  predicate HasRoom(tail: int, head: int, capacity: nat) {
    ToSize(tail - head) <= capacity - 1
  }

  // ----- The steps -----

  /** Where the producer stands inside tryPush, with its local copy of the write counter. */
  datatype Producer<T> = NotPushing | HasTail(val: T, tail: int) | MayWrite(val: T, tail: int) | Written(val: T, tail: int)

  /** Where the consumer stands inside tryPop, with its local copy of the read counter. */
  datatype Consumer<T> = NotPopping | HasHead(head: int) | MayRead(head: int) | Taken(head: int, element: T)

  /** `pushed` and `popped` are the values of all completed pushes and pops. */
  datatype State<T> = State(
    capacity: nat, buffer: seq<T>, write: int, read: int,
    producer: Producer<T>, consumer: Consumer<T>,
    pushed: seq<T>, popped: seq<T>)

  datatype Step<T> =
    | LoadWrite(val: T) | LoadRead | StoreSlot | StoreWrite
    | LoadHead | LoadTail | LoadSlot | StoreRead

  predicate Shaped<T>(s: State<T>) {
    s.capacity > 0 && |s.buffer| == s.capacity
  }

  /** The effect of one step; a step its thread is not at changes nothing. */
  function Next<T>(s: State<T>, a: Step<T>): (n: State<T>)
    requires Shaped(s)
    ensures Shaped(n)
  {
    match (a, s.producer, s.consumer)
    case (LoadWrite(val), NotPushing, _) => s.(producer := HasTail(val, s.write))
    case (LoadRead, HasTail(val, tail), _) =>
      s.(producer := if HasRoom(tail, s.read, s.capacity) then MayWrite(val, tail) else NotPushing)
    case (StoreSlot, MayWrite(val, tail), _) =>
      s.(buffer := s.buffer[Slot(tail, s.capacity) := val], producer := Written(val, tail))
    case (StoreWrite, Written(val, tail), _) =>
      s.(write := Increment(tail), producer := NotPushing, pushed := s.pushed + [val])
    case (LoadHead, _, NotPopping) => s.(consumer := HasHead(s.read))
    case (LoadTail, _, HasHead(head)) => s.(consumer := if head != s.write then MayRead(head) else NotPopping)
    case (LoadSlot, _, MayRead(head)) => s.(consumer := Taken(head, s.buffer[Slot(head, s.capacity)]))
    case (StoreRead, _, Taken(head, element)) =>
      s.(read := Increment(head), consumer := NotPopping, popped := s.popped + [element])
    case _ => s
  }

  /** An empty buffer with arbitrary slot contents. */
  predicate Initial<T(==)>(s: State<T>) {
    && Shaped(s) && s.write == 0 && s.read == 0 && s.pushed == [] && s.popped == []
    && s.producer.NotPushing? && s.consumer.NotPopping?
  }

  /** Any interleaving of the two threads is a sequence of steps. */
  function Run<T>(s: State<T>, steps: seq<Step<T>>): (n: State<T>)
    requires Shaped(s)
    ensures Shaped(n)
    decreases |steps|
  {
    if steps == [] then s else Run(Next(s, steps[0]), steps[1..])
  }

  // ----- The invariant -----

  /** What the queue holds: pushed and not yet popped. */
  function Contents<T>(s: State<T>): seq<T>
    requires |s.popped| <= |s.pushed|
  {
    s.pushed[|s.popped|..]
  }

  predicate Counters<T(==)>(s: State<T>) {
    && s.write == |s.pushed| <= INT_MAX && s.read == |s.popped| <= s.write <= s.read + s.capacity
    && s.popped <= s.pushed
  }

  ghost predicate Slots<T>(s: State<T>)
    requires Shaped(s)
  {
    forall k | |s.popped| <= k < |s.pushed| :: s.buffer[k % s.capacity] == s.pushed[k]
  }

  /** A stale copy is never stale: only its own thread changes the counter it copied. */
  predicate ProducerOk<T(==)>(s: State<T>)
    requires Shaped(s)
  {
    match s.producer
    case NotPushing => true
    case HasTail(_, tail) => tail == s.write
    case MayWrite(_, tail) => tail == s.write && s.write - s.read < s.capacity
    case Written(val, tail) => tail == s.write && s.write - s.read < s.capacity && s.write >= 0
                               && s.buffer[s.write % s.capacity] == val
  }

  predicate ConsumerOk<T(==)>(s: State<T>)
    requires Counters(s)
  {
    match s.consumer
    case NotPopping => true
    case HasHead(head) => head == s.read
    case MayRead(head) => head == s.read < s.write
    case Taken(head, element) => head == s.read < s.write && element == s.pushed[s.read]
  }

  ghost predicate Inv<T>(s: State<T>) {
    Shaped(s) && Counters(s) && Slots(s) && ProducerOk(s) && ConsumerOk(s)
  }

  /** Counters less than a capacity apart point to different slots. */
  lemma SlotsDiffer(i: nat, j: nat, capacity: nat)
    requires i < j < i + capacity
    ensures i % capacity != j % capacity
  {
    var d := j / capacity - i / capacity;
    assert j - i == capacity * d + (j % capacity - i % capacity);
    assert d <= 0 ==> capacity * d <= 0;
    assert d >= 1 ==> capacity * d >= capacity;
  }

  /** Every step of either thread keeps the invariant, as long as the push counter has not overflowed. */
  lemma StepKeeps<T>(s: State<T>, a: Step<T>)
    requires Inv(s) && |Next(s, a).pushed| <= INT_MAX
    ensures Inv(Next(s, a))
  {
    if a.StoreSlot? && s.producer.MayWrite? {
      forall k | |s.popped| <= k < |s.pushed| ensures k % s.capacity != s.write % s.capacity {
        SlotsDiffer(k, s.write, s.capacity);
      }
    }
  }

  // ----- What the steps mean -----

  /** The queue operation a step amounts to: pushes take effect when the write counter is stored, pops
      when the read counter is, and the failing tests saw a full or an empty queue at that instant. */
  ghost predicate Means<T>(s: State<T>, a: Step<T>, n: State<T>)
    requires Inv(s) && |n.popped| <= |n.pushed|
  {
    if a.StoreWrite? && s.producer.Written? then
      |Contents(s)| < s.capacity && Contents(n) == Contents(s) + [s.producer.val]
    else if a.StoreRead? && s.consumer.Taken? then
      Contents(s) != [] && s.consumer.element == Contents(s)[0] && Contents(n) == Contents(s)[1..]
    else
      && Contents(n) == Contents(s)
      && (a.LoadRead? && s.producer.HasTail? ==> (n.producer.NotPushing? <==> |Contents(s)| == s.capacity))
      && (a.LoadTail? && s.consumer.HasHead? ==> (n.consumer.NotPopping? <==> Contents(s) == []))
  }

  /** Every step is an operation of the bounded queue, or invisible. */
  lemma StepMeans<T>(s: State<T>, a: Step<T>)
    requires Inv(s) && |Next(s, a).pushed| <= INT_MAX
    ensures Inv(Next(s, a)) && Means(s, a, Next(s, a))
  {
    StepKeeps(s, a);
  }

  /** The slot being written is never the slot being read. */
  lemma NoRace<T>(s: State<T>)
    requires Inv(s) && s.producer.MayWrite? && s.consumer.MayRead?
    ensures Slot(s.producer.tail, s.capacity) != Slot(s.consumer.head, s.capacity)
  {
    SlotsDiffer(s.read, s.write, s.capacity);
  }

  lemma {:induction false} PushedGrows<T>(s: State<T>, steps: seq<Step<T>>)
    requires Shaped(s)
    ensures s.pushed <= Run(s, steps).pushed
    decreases |steps|
  {
    if steps != [] {
      PushedGrows(Next(s, steps[0]), steps[1..]);
    }
  }

  /** In every interleaving with fewer than 2^31 pushes the popped values are a prefix of the pushed ones,
      and no more than the capacity apart. */
  lemma {:induction false} RunKeeps<T>(s: State<T>, steps: seq<Step<T>>)
    requires Inv(s) && |Run(s, steps).pushed| <= INT_MAX
    ensures Inv(Run(s, steps))
    ensures Run(s, steps).popped <= Run(s, steps).pushed && |Contents(Run(s, steps))| <= s.capacity
    decreases |steps|
  {
    if steps != [] {
      var n := Next(s, steps[0]);
      PushedGrows(n, steps[1..]);
      StepKeeps(s, steps[0]);
      RunKeeps(n, steps[1..]);
    }
  }

  lemma InitialInv<T>(s: State<T>)
    requires Initial(s)
    ensures Inv(s)
  {
  }

  // ----- The object -----

  /** The buffer object. A call runs its steps without interruption; the steps above interleave them. */
  class RingBuffer<T(0)> {
    const capacity: nat
    var buffer: array<T>
    var write: int
    var read: int
    ghost var pushed: seq<T>
    ghost var popped: seq<T>

    ghost function View(): State<T>
      reads this, buffer
    {
      State(capacity, buffer[..], write, read, NotPushing, NotPopping, pushed, popped)
    }

    constructor (capacity: nat)
      requires capacity > 0
      ensures Initial(View()) && this.capacity == capacity && fresh(buffer)
    {
      this.capacity := capacity;
      buffer := new T[capacity];
      write, read := 0, 0;
      pushed, popped := [], [];
    }

    method TryPush(val: T) returns (ok: bool)
      requires Inv(View())
      modifies this, buffer
      ensures buffer == old(buffer)
      ensures View() == Run(old(View()), [LoadWrite(val), LoadRead, StoreSlot, StoreWrite])
      ensures ok == (|Contents(old(View()))| < capacity)
      ensures pushed == if ok then old(pushed) + [val] else old(pushed)
    {
      ghost var s := View();
      RunFour(s, LoadWrite(val), LoadRead, StoreSlot, StoreWrite);
      var currentTail := write;
      var nextTail := Increment(currentTail);
      if HasRoom(currentTail, read, capacity) {
        buffer[Slot(currentTail, capacity)] := val;
        write := nextTail;
        pushed := pushed + [val];
        return true;
      }
      return false;
    }

    method TryPop() returns (ok: bool, element: T)
      requires Inv(View())
      modifies this
      ensures View() == Run(old(View()), [LoadHead, LoadTail, LoadSlot, StoreRead])
      ensures ok == (Contents(old(View())) != [])
      ensures ok ==> element == Contents(old(View()))[0] && popped == old(popped) + [element]
    {
      ghost var s := View();
      RunFour(s, LoadHead, LoadTail, LoadSlot, StoreRead);
      var currentHead := read;
      if currentHead != write {
        element := buffer[Slot(currentHead, capacity)];
        read := Increment(currentHead);
        popped := popped + [element];
        return true, element;
      }
      return false, *;
    }
  }

  lemma RunFour<T>(s: State<T>, a: Step<T>, b: Step<T>, c: Step<T>, d: Step<T>)
    requires Shaped(s)
    ensures Run(s, [a, b, c, d]) == Next(Next(Next(Next(s, a), b), c), d)
  {
    RunTwo(s, a, b, [c, d]);
    RunTwo(Next(Next(s, a), b), c, d, []);
    assert [a, b, c, d] == [a, b] + [c, d] && [c, d] == [c, d] + [];
  }

  lemma RunTwo<T>(s: State<T>, a: Step<T>, b: Step<T>, rest: seq<Step<T>>)
    requires Shaped(s)
    ensures Run(s, [a, b] + rest) == Run(Next(Next(s, a), b), rest)
  {
    assert ([a, b] + rest)[1..] == [b] + rest && ([b] + rest)[1..] == rest;
  }
}
