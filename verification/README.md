# Verification of liteExchange

A Dafny model of the four connected cores of the exchange, with proofs about them.

1. **Order book and matching.** `Orders`, `Matching` and `ClosedForm` describe orders, the two price-time ordered
   sides and the matching loop on values; `OrderBooks` and `BookTasks` are the book as an object over heap orders,
   proved against them. `Exchanges` is the central order book in single-threaded mode as a machine over commands,
   `OrderLife` what its reports tell over whole runs, `CommandAnswers` what every command is answered,
   `CentralOrderBooks` the object with its dictionaries.
2. **Concurrency.** `RingBuffers`, `QueueMpsc` and `LazySingleton` are the ring buffer, the linked queue and
   double-checked locking; `MultithreadedMatching` composes work queues, workers and books into one step system,
   `MatchingRefinement` proves that it refines the single-threaded machine, and `MatchingProgress` that no book is
   left behind.
3. **FIX codec and streams.** `Integers`, `Text`, `FixConstants` and `FixMessages` print messages, `FixParsers` holds
   the four parsers, `RoundTrip` relates the two, `RawStreams` says what the parsers make of any text, `ReceiveCaches`
   is the restartable stream scanner, `StreamDelivery` says which chunks of a stream it delivers as sent, `Framing`
   receives one message without the cache.
4. **FIX sessions.** `FixServers` has the slot tables and the sequence numbers, `MessageHandling` says what every message
   causes, `ServerRuns` and `SequenceNumbers` what every run keeps, `SequenceFutures` and `SequenceExactness` which messages put the numbers at risk,
   `SequenceWitnesses` runs in which they repeat.

Concurrent code is a step system: one step per atomic load, store or test-and-set, with the stale local copies of each
thread in its state; an interleaving is any sequence of steps. Code that changes things in place is a class or a
method with its loops, whose contract ties the new state to a function of the old one; the properties are lemmas about
these functions. Prices and averages are exact reals, quantities unbounded integers. Tag 9 and the checksum follow the
definitions of BodyLength (tag 9) and CheckSum (tag 10) and Appendix B of the FIX 4.2 specification.

Where the code does less than one would expect, the exact condition is proved, with an input at which it fails:

- A cancelled order leaves the book exactly when its own side is BUY or SELL (`CancelRemoves`; `CancelTwice` is an
  order of another side).
- `FixReceiveCache::parse` drops a single byte left behind the last message. That loses nothing in any future exactly
  when the byte is not `'8'` (`KeptExactly`; `DroppedStart` is a content at which the next message is lost). In a stream
  of printed messages that never happens exactly when no chunk that completes a message ends exactly one byte into the
  next (`SafeExactly`).
- `parseFromMultipleBuffers` reads nothing at all when the first buffer is empty, which matters exactly when the second
  holds a whole field (`JoinedExactly`; `LostInSecondBuffer`).
- A printed message comes back unchanged but for tags 9 and 10 exactly when no value holds an `'='`; the parsers drop it
  (`ReceivedIsStamped`; `LostEquals` is a comp id `a=b` that is received as `ab`).
- Splitting a line sets the tags that scanning sets exactly when no value is empty and, in the last field of each tag,
  nothing but `'='` follows the first `'='` (`LineLikeBuffer`; `LineUnlikeBuffer` is `58=a=b`).
- `FixSession::receive` takes exactly one message if and only if the checksum has three characters and `"35"` lies
  within the first 20 bytes, or its second character is what the stack happened to hold there (`ReceivesExactly`;
  `WideNotReceived` and `HeavyNotReceived` are messages of either kind).
- When the stream ends inside a message, `FixSession::receive` parses what came behind the first 20 bytes and does not
  notice (`CutShort`).
- From a state with all sequence numbers in order, an event keeps them in order, now and in every fair continuation,
  exactly when it is fair (`FairExactly`, `ReachableExactly`): an incomplete message or an application message finds the
  session logged on (`RejectedExactly`); a logon, readable or not, comes on a session whose numbers, if it has a comp id,
  are those in the store, under a comp id that no other live session has (`LogonExactly`); any other message is refused
  or comes from the session's own comp id (`AcceptedExactly`). Runs in which one other message repeats a number are
  `EarlyMessage` (an order before the logon), `DoubleLogon` (a comp id that another session has), `Renamed` (a session
  that logs on again under another comp id and forgets the numbers of the first) and `UnreadableLogon` (a logon that
  throws, under a comp id that another session has).

## Model

| member | source | states |
|---|---|---|
| Orders.ExecutedPaid | source/order_matcher/order.cpp:39-49 | one execution moves average times executed quantity by exactly price times quantity |
| Orders.Order.constructor | source/order_matcher/order.cpp:26-37 | a new order is fully open and nothing of it is executed |
| Orders.Order.Execute | source/order_matcher/order.cpp:39-49 | the five assignments in sequence leave the order that the value function describes |
| Orders.Order.Cancel | source/order_matcher/order.h:21 | only the cancelled mark changes |
| Matching.InsertKeepsOrdered | source/order_matcher/order_book.cpp:25-35 | insertion puts an order behind all equal prices and keeps both sides in price-time order with distinct numbers |
| Matching.RoundShrinks | source/order_matcher/order_book.cpp:94-147 | every round fills and erases at least one order, so the loop ends |
| Matching.RoundKeepsOrdered | source/order_matcher/order_book.cpp:124-147 | a round keeps priority order, positive open quantities and executed + open = quantity |
| Matching.MatchStands | source/order_matcher/order_book.cpp:115-154 | the loop ends with best bid below best ask and the order of both sides intact |
| Matching.SubmitStands | source/order_matcher/central_order_book.cpp:96-99 | insert and match lead from a standing book to a standing book |
| Matching.RemoveStands | source/order_matcher/order_book.cpp:65-92 | taking one order out leaves a standing book |
| ClosedForm.SubmitIs | source/order_matcher/order_book.cpp:94-154 | an incoming order of quantity Q fills the i-th opposite order by max(0, min(open_i, Q minus earlier opens)) while prices cross, touches nothing else, rests with what is left, and fills min(Q, total crossing open) |
| ClosedForm.FilledInAll | source/order_matcher/order_book.cpp:117-153 | the fills add up to the smaller of the taker's quantity and the crossing open quantity |
| OrderBooks.OrderBook.Insert | source/order_matcher/order_book.cpp:25-35 | a copy of the order enters its side at the place a multimap gives it |
| OrderBooks.OrderBook.UpperBound | source/order_matcher/order_book.h:32-35 | equal keys go last, in descending order for bids and ascending order for asks |
| OrderBooks.OrderBook.Find | source/order_matcher/order_book.cpp:37-63 | the first order of that session and client id on that side, nothing on a side that is neither |
| OrderBooks.OrderBook.Erase | source/order_matcher/order_book.cpp:65-92 | the first matching order of its own side goes, nothing else changes |
| OrderBooks.OrderBook.MatchTwoOrders | source/order_matcher/order_book.cpp:94-110 | both orders execute the smaller open quantity at the ask's price |
| OrderBooks.OrderBook.MatchTops | source/order_matcher/order_book.cpp:124-147 | one turn of the loop on the heap is one round of the value model |
| OrderBooks.OrderBook.ProcessMatching | source/order_matcher/order_book.cpp:115-154 | the loop leaves the matched book and appends the executed orders in pairs, and says whether any are queued |
| Exchanges.CancelRemoves | source/order_matcher/central_order_book.cpp:150-173 | the located order leaves the book if and only if its own side is BUY or SELL, else it stays marked |
| Exchanges.CancelTwice | source/order_matcher/order_book.cpp:65-92 | an order of no supported side is reported cancelled twice |
| Exchanges.CancelFound | source/order_matcher/central_order_book.cpp:157-163 | a successful cancel removes exactly the located order and reports exactly it |
| Exchanges.NewKeeps | source/order_matcher/central_order_book.cpp:65-119 | accepting and matching an order keeps book order, report life cycles and conservation |
| Exchanges.CancelKeeps | source/order_matcher/central_order_book.cpp:150-173 | a cancel or its rejection keeps them too |
| Exchanges.ApplySound | source/order_matcher/central_order_book.cpp:65-173 | every admissible command keeps the invariant of all venues, and no order number appears in two |
| OrderLife.RunLife | source/order_matcher/central_order_book.cpp:65-119 | in every run the reports of an order are ACCEPTED, partial fills with growing executed quantity, at most one FILLED or CANCELED and nothing after, with executed + open = quantity in each |
| OrderLife.RunBornOnce | source/order_matcher/central_order_book.cpp:65-67 | no order is reported in two securities |
| OrderLife.RunAverages | source/order_matcher/order.cpp:39-49 | in every run average times executed quantity is the sum of price times quantity over the order's trades; a buy's average is within its limit, a sell's is its limit |
| OrderLife.RunStands | source/order_matcher/order_book.cpp:115-154 | the book invariant holds in every reachable state |
| OrderLife.RunUncrossed | source/order_matcher/order_book.cpp:115-154 | in every reachable state every bid is below every ask, bids lie from the highest price down and asks from the lowest up, earlier numbers first at equal prices |
| OrderLife.RunConserves | source/order_matcher/order_book.cpp:94-154 | accepted = open + executed + cancelled on each side, bought equals sold in quantity and cash, and there are at most as many trades as orders |
| OrderLife.RunPairs | source/order_matcher/order_book.cpp:94-147 | in every run a security's fill reports are adjacent pairs of a buy and a sell, of the same quantity, at the sell's own price and within the buy's limit |
| CommandAnswers.CancelExactly | source/order_matcher/central_order_book.cpp:150-173 | on every ordered book: if the side is BUY or SELL and an order on it has the two ids, the first such order in priority order is reported CANCELED and exactly it is gone; else the book is unchanged and the request is reported REJECTED with the text |
| CommandAnswers.NewExactly | source/order_matcher/central_order_book.cpp:65-119 | a new order is reported ACCEPTED as it came, then one fill report per share of the closed form, FILLED exactly when quantity and executed quantity agree |
| CommandAnswers.RunAnswered | source/order_matcher/central_order_book.cpp:65-173 | after every run the next command is answered in exactly this way, other securities keep book and reports, and only a new order takes a number |
| CommandAnswers.RunCancels | source/order_matcher/order_book.cpp:37-63 | after every run, from the reports alone: a cancel is reported CANCELED if and only if an order of its security, side, session and client id was accepted and has no final report, and names the one ahead of all such |
| BookTasks.RunNew | source/order_matcher/central_order_book.cpp:90-119 | the new-order task on the heap book reports and leaves what the value machine says |
| BookTasks.RunCancel | source/order_matcher/central_order_book.cpp:150-173 | the cancel task on the heap book reports and leaves what the value machine says, which `CommandAnswers.CancelExactly` tells without it |
| CentralOrderBooks.BookDictionary.At | source/order_matcher/central_order_book.cpp:99-102 | indexing the dictionary puts an empty book where there is none; every other entry keeps its object, and every book its value |
| CentralOrderBooks.BookDictionary.RunNew | source/order_matcher/central_order_book.cpp:90-119 | the new-order task, run in place on the security's own book object, leaves that book as the value task does and all other books alone |
| CentralOrderBooks.BookDictionary.RunCancel | source/order_matcher/central_order_book.cpp:150-173 | the cancel task, run in place, leaves the security's own book as the value task does (`CommandAnswers.CancelExactly`) and all other books alone |
| CentralOrderBooks.CentralOrderBook.constructor | source/order_matcher/central_order_book.cpp:28-37 | the object starts, with a dictionary of its own, as the machine over commands does, for any list of symbols |
| CentralOrderBooks.CentralOrderBook.SetSymbols | source/order_matcher/central_order_book.cpp:28-37 | every symbol, repeated or not, gets the next security and a queue number of its own |
| CentralOrderBooks.CentralOrderBook.AddOrder | source/order_matcher/central_order_book.cpp:65-88 | in single-threaded mode, numbering, acknowledging and matching on the heap is one step of the machine over commands |
| CentralOrderBooks.CentralOrderBook.RejectOrder | source/order_matcher/central_order_book.cpp:121-128 | one REJECTED report on the security's queue, nothing else |
| CentralOrderBooks.CentralOrderBook.CancelOrder | source/order_matcher/central_order_book.cpp:130-173 | in single-threaded mode, a cancel on the heap is one step of the machine over commands, whose answers `CommandAnswers.RunAnswered` tells |
| CentralOrderBooks.RunCommands | source/order_matcher/central_order_book.cpp:28-173 | a new object driven through any list of admissible commands ends as the machine over commands does |
| RingBuffers.StepKeeps | source/core/concurrency/ring_buffer_spsc_lockfree.hpp:33-65 | every load and store keeps the invariant: stale copies are exact, slots between the counters hold the queue |
| RingBuffers.StepMeans | source/core/concurrency/ring_buffer_spsc_lockfree.hpp:33-65 | each step is a push, a pop or invisible on a bounded FIFO; a failed test saw a full or an empty queue |
| RingBuffers.NoRace | source/core/concurrency/ring_buffer_spsc_lockfree.hpp:38-59 | the slot being written is never the slot being read |
| RingBuffers.RunKeeps | source/core/concurrency/ring_buffer_spsc_lockfree.hpp:33-72 | in every interleaving with fewer than 2^31 pushes the popped values are a prefix of the pushed ones, at most the capacity behind |
| RingBuffers.RingBuffer.TryPush | source/core/concurrency/ring_buffer_spsc_lockfree.hpp:33-46 | an undisturbed call is four steps and succeeds exactly when there is room |
| RingBuffers.RingBuffer.TryPop | source/core/concurrency/ring_buffer_spsc_lockfree.hpp:53-65 | an undisturbed call is four steps and yields the oldest value exactly when there is one |
| MultithreadedMatching.ActKeepsOutcome | source/order_matcher/central_order_book.cpp:90-173 | a task interrupted at any action is still heading for the same book |
| MultithreadedMatching.WorkTouches | source/core/concurrency/thread_pool.cpp:98-121 | no worker touches another queue or another security's book |
| MultithreadedMatching.StepKeeps | source/core/concurrency/thread_pool.cpp:79-121 | every step of the submitting thread and of every worker keeps: what was popped, run in order, gives the book the worker is heading for |
| MatchingRefinement.SequentialBook | source/order_matcher/central_order_book.cpp:76-86 | running all commands in one thread runs each security's tasks on its book in submission order |
| MatchingRefinement.Refines | source/order_matcher/central_order_book.cpp:39-54 | under every interleaving each book, seen between tasks, is the book of the single-threaded machine after a prefix of the submitted commands, and after all of them once its queue is drained |
| MatchingProgress.Progress | source/core/concurrency/thread_pool.cpp:79-121 | from every reachable state before the shutdown, some steps of a security's worker and of the pending push alone lead to the book of the single-threaded machine after all commands |
| MatchingProgress.AllReachBooks | source/core/concurrency/thread_pool.cpp:79-121 | every list of acceptable commands can be submitted, and every security's book then reaches that of the single-threaded machine after all of them |
| MatchingProgress.WorkersExit | source/core/concurrency/thread_pool.cpp:89-121 | in every reachable state after the shutdown each worker, running alone, finishes its task or the one it is popping, and exits |
| QueueMpsc.QueueMPSC.Push | source/core/concurrency/queue_mpsc.hpp:46-57 | appends one value and changes no node that was handed out |
| QueueMpsc.QueueMPSC.TakeAll | source/core/concurrency/queue_mpsc.hpp:81-90 | swapping pointers hands out the whole chain, linked and null-terminated, and empties the queue |
| QueueMpsc.QueueMPSC.Flush | source/core/concurrency/queue_mpsc.hpp:70-90 | an undisturbed flush delivers all contents, and null exactly when there are none |
| QueueMpsc.QueueMPSC.FlushStep | source/core/concurrency/queue_mpsc.hpp:70-90 | between its two sections a flush loses nothing, and what it waits for holds |
| QueueMpsc.Serve | source/core/concurrency/queue_mpsc.hpp:27-90 | for every schedule of locked pushes and flush sections, the values found in the handed-out chains at the end followed by the contents are all pushes in lock order |
| LazySingleton.StepKeeps | source/core/design_patterns/singleton_dclp.hpp:21-37 | every load, test-and-set, construction, store and clear keeps the invariant |
| LazySingleton.BuiltOnce | source/core/design_patterns/singleton_dclp.hpp:21-37 | for any number of threads at most one holds the lock, at most one instance is built, and all calls that return, return it |
| LazySingleton.RunReleases | source/core/concurrency/spinlock.hpp:54-67 | the flag is set only while some thread is inside |
| LazySingleton.CallReturns | source/core/design_patterns/singleton_dclp.hpp:21-37 | from every reachable state with nobody else inside the lock, a thread running alone returns the one instance within seven steps, building it if it was not built, and leaves the lock free |
| LazySingleton.LoadReturns | source/core/design_patterns/singleton_dclp.hpp:21-25 | with an instance present a call takes two steps and leaves the lock alone, whoever holds it |
| LazySingleton.NoDeadlock | source/core/concurrency/spinlock.hpp:54-67 | from every reachable state, whoever is inside the lock can leave it, and then any thread's call return, in fourteen steps at most |
| Text.StoIOfToDec | source/fix/fix_message.cpp:195-198 | stoi reads back what to_string writes, exactly as far as an int reaches |
| Text.StoIExactly | source/fix/fix_message.cpp:195-198 | of every text: blanks, a sign and the digits that follow are read, what is behind them is ignored, and it throws exactly when there is no digit or the number is no int |
| Text.SplitTwo | source/core/string_utility.h:46-59 | splitting two parts joined by a separator gives the two parts |
| Text.SplitJoined | source/core/string_utility.h:46-59 | splitting undoes joining for any number of parts; only an empty last part is not seen |
| Text.PadLeft | source/core/string_utility.h:61-68 | the input at the right end, pad characters before it, never shorter than asked |
| Text.CompareLiteral | source/core/string_utility.h:86-99 | equality up to ASCII case for strings without NUL |
| Text.CompareExactly | source/core/string_utility.h:86-99 | for all strings the comparison is equality up to ASCII case as far as C strings go |
| FixConstants.VersionRoundTrip | source/fix/fix_constants.h:149-191 | every version text maps back to its version |
| FixConstants.MessageTypeRoundTrip | source/fix/fix_constants.h:193-257 | every message type text of the table maps back to its own index, although the comparison ignores case |
| FixConstants.VersionTexts | source/fix/fix_constants.h:149-191 | for every text, which version it is read as: FIX.4.0 to FIX.5.0SP2, up to case, and none other |
| FixConstants.SessionTypeTexts | source/fix/fix_constants.h:193-257 | for every text, it is read as LOGON if and only if it is "A" up to case, and so for the other session messages: 5, 1, 2, 3, 4, 0 |
| FixConstants.ApplicationTypeTexts | source/fix/fix_constants.h:193-257 | likewise for BE, BF, D (a new order), F (a cancel), 8 and j; there are thirteen types in all |
| FixMessages.CheckSumWidth | source/fix/fix_message.cpp:287-300 | three characters if and only if the signed remainder is above -100 |
| FixMessages.CheckSumValue | source/fix/fix_message.cpp:287-300 | of 7-bit text the checksum is the unsigned sum of all bytes modulo 256 in three digits |
| FixMessages.SumOfBytes | source/fix/fix_message.cpp:289-294 | the signed sum of any bytes is their unsigned sum less 256 for each with its highest bit set |
| FixMessages.CheckSumExactly | source/fix/fix_message.cpp:287-300 | of any bytes, in terms of their unsigned sum and of how many have their highest bit set |
| FixMessages.HeartbeatText | source/fix/fix_message.cpp:235-300 | a heartbeat of FIX.4.2 with number 1 from X to S at T is printed as the standard writes it, with 9=25 and 10=161 |
| FixMessages.PrintedVersions | source/fix/fix_constants.h:30-41 | the text of tag 8 that each version is printed as |
| FixMessages.PrintedTypes | source/fix/fix_constants.h:62-78 | the text of tag 35 that each type is printed as |
| FixMessages.HeaderExactly | source/fix/fix_message.cpp:100-137 | of every message: fails exactly when tag 34 is there and is no int, else the six header tags that are there leave the body for their fields, and nothing else changes |
| FixMessages.SumConcat | source/fix/fix_message.cpp:289-294 | the sum is additive, wherever the text is cut; what each byte adds is said by `SumOfBytes` |
| FixMessages.FixMessage.Reset | source/fix/fix_message.cpp:18-27 | the message has number 1, no version, no type, no ids and no tags |
| FixMessages.FixMessage.SetTag | source/fix/fix_message.cpp:149-152 | one body tag is set, the header stays |
| FixMessages.FixMessage.InitialiseHeader | source/fix/fix_message.cpp:100-137 | each header tag present moves from the body to its field; fails exactly when the sequence number is no int |
| FixMessages.FixMessage.CalculateHeaderLength | source/fix/fix_message.cpp:43-68 | the constant 20 and five lengths are the bytes that the five header fields print to |
| FixMessages.FixMessage.CalculateBodyLength | source/fix/fix_message.cpp:70-88 | the counting loop gives the printed length of everything tag 9 covers |
| FixMessages.FixMessage.CalculateCheckSum | source/fix/fix_message.cpp:287-300 | the summing loop gives the checksum; of 7-bit text, three digits of the unsigned byte sum modulo 256 |
| FixMessages.FixMessage.ToString | source/fix/fix_message.cpp:235-285 | header fields, body in enumeration order, checksum over all of it |
| FixParsers.ParseFromString | source/fix/fix_parser.h:18-35 | the split loop fills the message as the specification by pieces says |
| FixParsers.ParseFromBuffer | source/fix/fix_parser.h:37-63 | the character loop fills the message as the one-character-at-a-time specification says, failing when it fails |
| FixParsers.ParseFromMultipleBuffers | source/fix/fix_parser.h:65-110 | for every split with a non-empty first buffer the same as one buffer with the concatenation; with an empty one, nothing is read |
| FixParsers.JoinedExactly | source/fix/fix_parser.h:65-110 | two buffers fill a message as their concatenation does if and only if the first is not empty or the second holds no whole field |
| FixParsers.ParseMultipleMessages | source/fix/fix_parser.h:112-185 | the messages of the stream scanner, and the index where what follows the last of them begins |
| FixParsers.LookaheadIrrelevant | source/fix/fix_parser.h:128-136 | the byte behind the end cannot change what was found |
| RawStreams.ParsesExactly | source/fix/fix_parser.h:37-63 | of every text: each field up to a delimiter sets the tag before its first '=' to what stands behind, without '='; it fails exactly when such a tag is no int or the header fails |
| RawStreams.LinesExactly | source/fix/fix_parser.h:18-35 | of every line: each field but the empty ones sets its tag to what stands between its first two '=', and it fails exactly when one has no int or nothing behind the '=', or the header fails |
| RawStreams.ScansExactly | source/fix/fix_parser.h:112-185 | of every stream: what stands before "8=" is skipped, a message has the tags of its fields up to the first checksum field, these messages are found, what is behind the last is kept, and the scan fails exactly when a tag of one is no int or its header fails |
| RoundTrip.LineLikeBuffer | source/fix/fix_parser.h:18-63 | splitting a line of printed fields sets the tags that scanning it sets if and only if no value is empty and in the last field of each tag nothing but '=' follows the first '=' |
| RoundTrip.LineUnlikeBuffer | source/fix/fix_parser.h:18-63 | of 58=a=b splitting keeps "a" and scanning "ab" |
| RoundTrip.LostInSecondBuffer | source/fix/fix_parser.h:65-110 | a field that one buffer yields is not read from the second of two |
| RoundTrip.HeaderOfRaw | source/fix/fix_message.cpp:100-137 | a printed header is taken out as it was printed, or fails when the sequence number exceeds an int |
| RoundTrip.ParsePrinted | source/fix/fix_parser.h:37-63 | the one-message parser inverts printing |
| RoundTrip.ScanPrinted | source/fix/fix_parser.h:112-185 | one printed message inside any stream is found and completed, and the scanner is as new behind it |
| RoundTrip.PrintScan | source/fix/fix_parser.h:112-185 | scanning the concatenated prints of any messages gives these messages in order with nothing left over, for any enumeration order of their bodies |
| RoundTrip.ReceivedIsStamped | source/fix/fix_parser.h:44-60 | only tags 9 and 10 are added if and only if no value holds '=' |
| RoundTrip.LostEquals | source/fix/fix_parser.h:44-47 | a comp id a=b is printed, and received as ab |
| ReceiveCaches.Resume | source/fix/fix_parser.h:152-167 | a scan can stop anywhere and go on from what follows the last message |
| ReceiveCaches.KeptExactly | source/fix/fix_receive_cache.cpp:28-38 | a parse keeps enough for every future if and only if it does not drop a single '8' |
| ReceiveCaches.LostMessage | source/fix/fix_receive_cache.cpp:30-37 | a stream that holds a message, and without its first byte holds none |
| ReceiveCaches.DroppedStart | source/fix/fix_receive_cache.cpp:28-38 | a content at which the parse drops the '8' of the next message, which is then not delivered |
| ReceiveCaches.ChunksDoNotMatter | source/fix/fix_receive_cache.cpp:20-50 | for any split of a stream into receives the delivered messages, and those still to come, are those of one scan, provided no parse drops an '8' |
| ReceiveCaches.FixReceiveCache.Receive | source/fix/fix_receive_cache.h:20-23 | received bytes go behind the content |
| ReceiveCaches.FixReceiveCache.MoveBufferToStart | source/fix/fix_receive_cache.cpp:43-50 | the rest of the buffer becomes its content |
| ReceiveCaches.FixReceiveCache.Parse | source/fix/fix_receive_cache.cpp:20-41 | delivers what the scanner finds and keeps what follows, but for a single byte |
| ReceiveCaches.FixReceiveCache.Serve | source/fix/fix_session.cpp:206-217 | receives and parses in turn over the mutable buffer deliver exactly the messages of the whole stream |
| StreamDelivery.SafeExactly | source/fix/fix_receive_cache.cpp:20-41 | over a stream of whole messages no parse drops a byte that matters if and only if no chunk that completes a message ends exactly one byte into the next, told from lengths alone |
| StreamDelivery.PrintsDelivered | source/fix/fix_session.cpp:206-217 | printed messages sent in such chunks are delivered as sent, in order, with nothing left in the cache |
| Framing.PrintOpening | source/fix/fix_message.cpp:70-88 | tag 9 equals the bytes from "35=" to before "10=" |
| Framing.FindBody | source/fix/fix_session.cpp:239-272 | the nested scanning loops find the body length and the index of "35", reading one byte of garbage at the end |
| Framing.Receive | source/fix/fix_session.cpp:219-308 | a call behaves as the specification on every stream and stack content, on both paths |
| Framing.ReceivesExactly | source/fix/fix_session.cpp:219-276 | for every printed message, one call takes exactly it if and only if the trailer has seven bytes and "35" is found in the first read |
| Framing.WideNotReceived | source/fix/fix_session.cpp:219-276 | a message of version FIX.5.0SP2 with a body of 100 bytes or more, whose opening does not fit, is not taken exactly |
| Framing.HeavyNotReceived | source/fix/fix_message.cpp:287-300 | a message whose checksum has four characters is not taken exactly |
| Framing.ReceivesPrinted | source/fix/fix_session.cpp:219-308 | a 7-bit message that fits is received as sent on the stack or the heap path |
| Framing.CutShort | source/fix/fix_session.cpp:219-308 | of a stream that ends inside such a message behind its first 20 bytes, the call parses what came, or says closed when nothing follows them |
| Framing.ReceivesAll | source/fix/fix_session.cpp:219-308 | k messages back to back are recovered by k calls, whatever the stack held |
| FixServers.StoreRoundTrip | source/fix/fix_sequence_store.h:20-51 | the store reads back the two numbers it wrote |
| FixServers.FixServerReactor.AddPeer | source/core/network/tcp_server.cpp:46-76 | the first free slot is reused, or a new one appended |
| FixServers.FixServerReactor.AddSession | source/fix/fix_server_reactor.cpp:16-42 | the same search on the session flags |
| FixServers.FixServerReactor.AcceptNewConnection | source/core/network/tcp_server_reactor.cpp:92-106 | peer, descriptor table and session are entered in turn |
| FixServers.FixServerReactor.OnClientDisconnected | source/fix/fix_server_reactor.cpp:117-132 | the numbers are saved and both slots freed |
| FixServers.FixServerReactor.SendMessage | source/fix/fix_session.cpp:389-420 | a message takes the next outgoing number |
| FixServers.FixServerReactor.Restore | source/fix/fix_sequence_store.h:20-39 | both numbers are read, or stoi throws, after the outgoing one is assigned if that can be read |
| FixServers.FixServerReactor.OnLogon | source/fix/fix_session.cpp:151-168 | the numbers of the comp id are restored, and a response is sent unless stoi throws on the store or on tags 108 and 98 |
| FixServers.FixServerReactor.OnNumbered | source/fix/fix_server_reactor.cpp:168-203 | the numbered messages run as the value machine says, which `MessageHandling.HandledExactly` tells without it |
| FixServers.FixServerReactor.ProcessMessage | source/fix/fix_server_reactor.cpp:134-204 | the branches for missing tags, logon, wrong target and numbered messages, which `MessageHandling.HandledExactly` tells without them |
| MessageHandling.HandledExactly | source/fix/fix_server_reactor.cpp:134-204 | of every message to a live session, over state and logs: a logon for another server or, with validation on, a wrong number ends the session with its numbers stored; a logoff is answered with one number and ends it; a heartbeat, test request or user logon is answered with one number; nothing else is |
| MessageHandling.RejectedExactly | source/fix/fix_session.cpp:338-387 | one number is sent and nothing else happens if and only if one of the fields and tags listed for its type is missing |
| MessageHandling.FileNumbers | source/fix/fix_sequence_store.h:20-39 | the numbers of a store file are its parts between commas |
| MessageHandling.RunHandled | source/fix/fix_server_reactor.cpp:104-204 | in every run, the next connect, message, disconnect or outgoing message does just this to the one slot of its descriptor |
| ServerRuns.ConnectAligned | source/fix/fix_server_reactor.cpp:104-115 | the session fetched at the index addPeer returned is the one just created, and no live slot is disturbed |
| ServerRuns.RunAligned | source/core/network/tcp_server_reactor.cpp:69-106 | in every run the flags of both layers agree, live peers have distinct descriptors and slots, and each live descriptor leads to its slot |
| SequenceNumbers.DisconnectKeeps | source/fix/fix_session.cpp:99-107 | leaving stores exactly the numbers that the logs of the comp id end with |
| SequenceNumbers.LogonKeeps | source/fix/fix_session.cpp:151-168 | a logon of a session with nothing to lose, under a comp id that no other session has, takes its numbers up where they were left |
| SequenceNumbers.RunGapless | source/fix/fix_server_reactor.cpp:117-204 | in every fair run every number is sent to a comp id, and over all its connections the numbers accepted from a comp id are 1, 2, 3, ... and so are the numbers sent to it |
| SequenceExactness.FairExactly | source/fix/fix_server_reactor.cpp:134-204 | from numbers in order, an event is followed by numbers in order in every fair continuation if and only if it is fair |
| SequenceExactness.ReachableExactly | source/fix/fix_server_reactor.cpp:104-204 | so in every state that fair events lead to |
| SequenceExactness.LogonExactly | source/fix/fix_session.cpp:151-168 | for a logon, readable or not: if and only if the session's numbers, if it has a comp id, are those in the store, and no other live session has the comp id |
| SequenceExactness.AcceptedExactly | source/fix/fix_server_reactor.cpp:167-204 | for another complete message: if and only if the session refuses it or has its sender's comp id |
| SequenceExactness.RejectedExactly | source/fix/fix_server_reactor.cpp:140-151 | for an incomplete message: if and only if the session is logged on, else the rejection is numbered for nobody |
| SequenceWitnesses.EarlyMessage | source/fix/fix_server_reactor.cpp:153-182 | a run in which an order numbered 2 is accepted without a logon, and a logon numbered 1 after it |
| SequenceWitnesses.DoubleLogon | source/fix/fix_session.cpp:151-168 | after a fair run a second logon under the comp id is answered with number 1 once more |
| SequenceWitnesses.Renamed | source/fix/fix_session.cpp:151-168 | after a session has logged on again under another comp id, the numbers of the first are sent and accepted once more |
| SequenceWitnesses.UnreadableLogon | source/fix/fix_session.cpp:151-168 | after an unreadable second logon the next rejection repeats number 1 |

## Left out

- FixParsers.ParseFromString: `tokens[1]` of a field without a value is undefined in C++; the model counts it as a failure.
- FixParsers.ParseMultipleMessages: the byte behind the last array element is not read; a read behind the received bytes but
  inside the array is, and is shown to be irrelevant.
- Framing.Receive: a length so small that the `size_t` arithmetic wraps ends in `Overrun`; what the read then does is not modelled.
- RingBuffers.RunKeeps: the ring buffer's counters are exact for fewer than 2^31 pushes; signed overflow is undefined in C++.
- SequenceNumbers.RunGapless: fewer than 2^31 events, so that all numbers fit an int, an empty store at the start, and
  fair runs; `SequenceExactness` says what any other event does.
- CentralOrderBooks.CentralOrderBook.AddOrder: the multithreaded branch, which is a step of `MultithreadedMatching` on
  values.
- CentralOrderBooks.CentralOrderBook.CancelOrder: likewise.
- FixServers.FixServerReactor.ProcessMessage: sessions are values in the session table, not heap objects, and the file
  behind the store is a text in which a missing number counts as unreadable. An exception ends the call; that it then leaves the reactor thread is not modelled.
- ReceiveCaches.FixReceiveCache.MoveBufferToStart: the overlapping `memcpy` is a forward copy.
- FixMessages.FixMessage.CalculateCheckSum: overflow of the `int` sum for texts of more than sixteen million bytes.
- FixMessages.FixMessage.constructor: `m_messageType` is uninitialised in C++ and starts as none here.
- Orders.Order.Execute: a zero total quantity gives NaN in C++ and no average here; order type and the two unused status fields
  are not modelled.
- SpinLock: the spin count, yielding and the unbounded lock loop; a spinning thread is a step that changes nothing.
- Weak memory: acquire, release and fences are sequentially consistent atomic steps.
- Rounding of doubles, overflow of `long` quantities.
- Outgoing rings in multithreaded mode, which have two producers: only the books are claimed there. In single-threaded mode each
  outgoing queue is an unbounded history.
- Exchanges.ApplySound: orders with a quantity that is not positive or a side that is neither BUY nor SELL, and commands
  for securities without an entry. Of these the server excludes only the last, because an unknown symbol throws while
  the message is converted; of a new order it checks the type besides, of a cancel nothing. The others are hypotheses of
  all results about runs.
- Orders.Order.constructor: the constructor with all values. The server starts from the default one, which leaves the
  side and the cancelled mark uninitialised until they are set.
- What stands in the messages that a session sends (rejections, responses); the model has that one is sent, to whom and
  under which number.
- Conversion between FIX messages and orders; the model starts at the order with its side as an input.
- Messages after a disconnect within one batch, disconnects of peers that are not live, and `FixServerReactor::stop`.
- Condition variables, sockets, epoll, select, files, logging, time, configuration, the thread pool's placement on
  cores, the pool allocator and the thread-per-client server.
