/** The two tasks run on one book object: what the worker does with the dictionary entry of a security
    (`source/order_matcher/central_order_book.cpp`). */
module BookTasks {
  import opened Wrappers
  import opened Orders
  import opened Matching
  import opened OrderBooks
  import opened Exchanges

  /** Drains the queue of processed copies into reports, oldest first. */
  method Drain(queue: seq<OrderState>) returns (messages: seq<Report>)
    ensures messages == FillReports(queue)
  {
    var processed := queue;
    messages := [];
    ghost var n := 0;
    while processed != []
      invariant n <= |queue| && processed == queue[n..]
      invariant messages == FillReports(queue[..n])
      decreases |processed|
    {
      var front := processed[0];
      processed := processed[1..];
      messages := messages + [Report(if Orders.Filled(front) then Filled else PartiallyFilled, front, "")];
      assert queue[..n + 1] == queue[..n] + [front];
      FillReportsConcat(queue[..n], [front]);
      n := n + 1;
    }
    assert queue[..n] == queue;
  }

  /** Inserts, matches, and reports every copy the loop handed back. */
  method RunNew(book: OrderBook, order: Order) returns (messages: seq<Report>)
    requires book.Valid() && book.book.Balanced() && Balanced(order.View()) && order !in book.Repr
    modifies book.Repr
    ensures book.Valid() && fresh(book.Repr - old(book.Repr))
    ensures Venue(book.book, messages) == NewTask(Venue(old(book.book), []), old(order.View()))
  {
    InsertBalanced(book.book, order.View());
    book.Insert(order);
    var processed, any := book.ProcessMatching([]);
    messages := Drain(processed);
  }

  /** Finds, marks, reports and erases, or rejects the request. */
  method RunCancel(book: OrderBook, request: Order, original: string, text: string) returns (message: Report)
    requires book.Valid() && request !in book.Repr
    modifies book.Repr
    ensures book.Valid() && book.Repr == old(book.Repr)
    ensures Venue(book.book, [message]) == CancelTask(Venue(old(book.book), []), old(request.View()), original, text)
  {
    var found, order := book.Find(original, request.session, request.side);
    if found {
      ghost var i := Found(book.book, request.side, request.session, original).value;
      book.Cancel(order, request.side, i);
      message := Report(Canceled, order.View(), "Order canceled");
      book.Erase(order);
    } else {
      message := Report(Rejected, request.View(), text);
    }
  }
}
