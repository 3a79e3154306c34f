/** The unbounded multi-producer single-consumer queue (`source/core/concurrency/queue_mpsc.hpp`): a linked list
    with a dummy head. Each method is one critical section of the lock; a schedule interleaves them. */
module QueueMpsc {
  class Node<T(0)> {
    var data: T
    var next: Node?<T>

    constructor ()
      ensures next == null
    {
      next := null;
    }
  }

  /** Every node points to the one after it, and the last to nothing. */
  ghost predicate Linked<T(0)>(ns: seq<Node<T>>)
    reads ns
  {
    && (ns != [] ==> ns[|ns| - 1].next == null)
    && (forall i | 0 <= i < |ns| - 1 :: ns[i].next == ns[i + 1])
  }

  /** The nodes carry these values, as the heap is now. */
  ghost predicate Holds<T(0)>(ns: seq<Node<T>>, values: seq<T>)
    reads ns
  {
    |ns| == |values| && forall i | 0 <= i < |ns| :: ns[i].data == values[i]
  }

  ghost function Flat<T>(chains: seq<seq<T>>): seq<T> {
    if chains == [] then [] else Flat(chains[..|chains| - 1]) + chains[|chains| - 1]
  }

  lemma FlatLast<T>(chains: seq<seq<T>>, c: seq<T>)
    ensures Flat(chains + [c]) == Flat(chains) + c
  {
    assert (chains + [c])[..|chains|] == chains;
  }

  /** Every chain is whole: its nodes are among `given` and end in null. */
  ghost predicate Whole<T(0)>(chains: seq<seq<Node<T>>>, given: seq<Node<T>>)
    reads given
  {
    forall k | 0 <= k < |chains| ::
      chains[k] != [] && (forall i | 0 <= i < |chains[k]| :: chains[k][i] in given) && Linked(chains[k])
  }

  lemma WholeLast<T(0)>(chains: seq<seq<Node<T>>>, given: seq<Node<T>>, c: seq<Node<T>>)
    requires Whole(chains, given) && c != [] && Linked(c)
    ensures Whole(chains + [c], given + c)
  {
  }

  class QueueMPSC<T(0)> {
    var head: Node<T>
    var tail: Node<T>
    /** The dummy and the nodes behind it, with the values of the latter. */
    ghost var chain: seq<Node<T>>
    ghost var contents: seq<T>
    /** The chains handed out so far, oldest first; all their nodes; and the values those held. */
    ghost var handed: seq<seq<Node<T>>>
    ghost var given: seq<Node<T>>
    ghost var delivered: seq<T>

    ghost predicate Valid()
      reads this, chain, given
    {
      && chain != [] && head == chain[0] && tail == chain[|chain| - 1] && Linked(chain)
      && (forall i, j | 0 <= i < j < |chain| :: chain[i] != chain[j])
      && (forall i | 0 <= i < |chain| :: chain[i] !in given)
      && Holds(chain[1..], contents) && HandedOut()
    }

    ghost predicate HandedOut()
      reads this, given
    {
      given == Flat(handed) && Whole(handed, given) && Holds(given, delivered)
    }

    constructor ()
      ensures Valid() && contents == [] && handed == [] && delivered == [] && fresh(chain)
    {
      var dummy := new Node<T>();
      head, tail := dummy, dummy;
      chain, contents, handed, given, delivered := [dummy], [], [], [], [];
    }

    /** Links a new node behind the tail. Nothing handed out is in the frame, or changes. */
    method Push(data: T)
      requires Valid()
      modifies this, tail
      ensures Valid() && handed == old(handed) && delivered == old(delivered)
      ensures contents == old(contents) + [data]
      ensures fresh(chain[|chain| - 1]) && chain[..|chain| - 1] == old(chain)
    {
      var newNode := new Node<T>();
      newNode.data := data;
      tail.next := newNode;
      tail := newNode;
      chain := chain + [newNode];
      contents := contents + [data];
    }

    method IsEmpty() returns (retVal: bool)
      requires Valid()
      ensures retVal == (contents == [])
    {
      assert |chain| > 1 ==> chain[0].next == chain[1];
      retVal := head.next == null;
    }

    /** The second section of flush: hand the whole chain out by swapping pointers. */
    method TakeAll() returns (ret: Node<T>)
      requires Valid() && contents != []
      modifies this, head
      ensures Valid() && contents == [] && chain == [head] && head == old(head)
      ensures handed == old(handed) + [old(chain[1..])] && ret == old(chain)[1]
      ensures delivered == old(delivered) + old(contents)
    {
      assert head !in chain[1..] && chain[0].next == chain[1];
      ret := head.next;
      head.next := null;
      tail := head;
      HandOver(chain[1..]);
    }

    /** The bookkeeping of a flush, with the pointers already swapped. */
    ghost method HandOver(out: seq<Node<T>>)
      requires HandedOut() && out != [] && Linked(out) && Holds(out, contents)
      requires head == tail && head.next == null && head !in given && head !in out
      modifies `chain, `contents, `handed, `given, `delivered
      ensures Valid() && contents == [] && chain == [head]
      ensures handed == old(handed) + [out] && delivered == old(delivered) + old(contents)
    {
      FlatLast(handed, out);
      WholeLast(handed, given, out);
      chain, given, handed := [head], given + out, handed + [out];
      delivered, contents := delivered + contents, [];
    }

    /** An undisturbed flush. */
    method Flush() returns (ret: Node?<T>)
      requires Valid()
      modifies this, head
      ensures Valid() && contents == [] && delivered == old(delivered) + old(contents)
      ensures ret == null <==> old(contents) == []
      ensures ret != null ==> ret == old(chain)[1] && handed == old(handed) + [old(chain[1..])]
    {
      var empty := IsEmpty();
      if empty {
        return null;
      }
      ret := TakeAll();
    }

    /** One section of a flush; `nonEmpty` says that the first one is over and found the queue not empty. */
    method FlushStep(nonEmpty: bool) returns (ret: Node?<T>, pending: bool)
      requires Valid() && (nonEmpty ==> contents != [])
      modifies this, head
      ensures Valid() && head == old(head) && chain <= old(chain)
      ensures nonEmpty ==> !pending && ret == old(chain)[1] && handed == old(handed) + [old(chain[1..])]
      ensures !nonEmpty ==> ret == null && handed == old(handed) && (pending <==> contents != [])
      ensures delivered + contents == old(delivered + contents)
    {
      if nonEmpty {
        ret := TakeAll();
        pending := false;
      } else {
        var empty := IsEmpty();
        ret, pending := null, !empty;
      }
    }
  }

  // ----- Any interleaving -----

  /** One critical section: some producer pushes, or the consumer goes on with its flush. */
  datatype Event<T> = PushBy(data: T) | Consume

  /** The values in the order in which their producers got the lock. */
  function Pushed<T>(events: seq<Event<T>>): seq<T> {
    if events == [] then []
    else Pushed(events[..|events| - 1])
         + Gain(events[|events| - 1])
  }

  lemma PushedNext<T>(events: seq<Event<T>>, n: nat)
    requires n < |events|
    ensures Pushed(events[..n + 1]) == Pushed(events[..n]) + Gain(events[n])
  {
    assert events[..n + 1][..n] == events[..n];
  }

  /** The pointers the consumer got are the first nodes of the chains handed out. */
  ghost predicate Heads<T>(results: seq<T>, chains: seq<seq<T>>) {
    |results| == |chains| && forall k | 0 <= k < |chains| :: chains[k] != [] && results[k] == chains[k][0]
  }

  lemma HeadsLast<T>(results: seq<T>, chains: seq<seq<T>>, c: seq<T>)
    requires Heads(results, chains) && c != []
    ensures Heads(results + [c[0]], chains + [c])
  {
  }

  function Gain<T>(e: Event<T>): seq<T> {
    match e case PushBy(data) => [data] case Consume => []
  }

  /** The next critical section of a schedule. */
  method Turn<T(0)>(q: QueueMPSC<T>, e: Event<T>, nonEmpty: bool, results: seq<Node<T>>)
    returns (pending: bool, more: seq<Node<T>>)
    requires q.Valid() && (nonEmpty ==> q.contents != []) && Heads(results, q.handed)
    modifies q, q.tail, q.head
    ensures q.Valid() && (pending ==> q.contents != []) && Heads(more, q.handed)
    ensures q.delivered + q.contents == old(q.delivered + q.contents) + Gain(e)
    ensures q.head == old(q.head) && (q.tail == old(q.tail) || q.tail == q.head || fresh(q.tail))
  {
    pending, more := nonEmpty, results;
    match e
    case PushBy(data) =>
      q.Push(data);
    case Consume =>
      var ret: Node?<T>;
      ghost var handed, out := q.handed, q.chain[1..];
      ret, pending := q.FlushStep(nonEmpty);
      if ret != null {
        HeadsLast(results, handed, out);
        more := results + [ret];
      }
  }

  /** Runs any schedule against a new queue. `nonEmpty` says that the consumer stands between the two sections
      of its flush; whatever was pushed in between, the condition it waits for then holds. */
  method Serve<T(0)>(events: seq<Event<T>>) returns (q: QueueMPSC<T>, results: seq<Node<T>>)
    ensures q.Valid() && q.delivered + q.contents == Pushed(events)
    ensures Heads(results, q.handed)
  {
    q := new QueueMPSC<T>();
    results := [];
    var nonEmpty := false;
    for n := 0 to |events|
      invariant fresh(q) && q.Valid() && fresh(q.head) && fresh(q.tail) && (nonEmpty ==> q.contents != [])
      invariant q.delivered + q.contents == Pushed(events[..n])
      invariant Heads(results, q.handed)
    {
      PushedNext(events, n);
      nonEmpty, results := Turn(q, events[n], nonEmpty, results);
    }
    assert events[..|events|] == events;
  }
}
