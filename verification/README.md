# A verified model of the repository's protocols, machines and indexes

Dafny models of the programs in this repository whose correctness is hard to see, with
proofs of what they are for. `dafny verify dfyconfig.toml` checks the whole project.

| file | models |
|---|---|
| `ThreadPool.dfy` | the condition-variable thread pools: 03_ThreadPool, which joins its workers, and ThreadPoolCpp14, which detaches them |
| `BoundedBuffer.dfy` | the ring buffer and the multi-producer, multi-consumer program around it |
| `LruCache.dfy` | the LRU cache: list, map, recency, inclusion between capacities |
| `RequestParser.dfy` | the incremental HTTP/1.0 request parser and its exact language |
| `InvertIndex.dfy` | the inverted index, its files, and its second implementation |
| `ChatMessage.dfy`, `ChatRoom.dfy` | framing, and ordered broadcast with a replayed history |
| `ListChecker.dfy` | libevent's list and tail-queue consistency checks |
| `LineReader.dfy` | the buffered line reader and the full reads and writes over partial ones |
| `SelectServer.dfy` | the bookkeeping of the select() server |
| `DynamicPool.dfy` | the C thread pool that grows and shrinks |
| `ParallelCopy.dfy` | the multi-threaded file copy and its progress bar |
| `Sums.dfy`, `Common.dfy` | sums over sequences; small shared definitions |

How concurrency is modelled. The thread pools and the bounded buffer are state machines:
a state with one program counter per thread, a step for every point at which threads can
interleave (taking a mutex, testing a predicate, sleeping, notifying, running), and runs
of any length over any number of threads. The class beside the thread pool machine updates
the same fields in place, and its `Play` follows any run of the machine. In the C pool, the
chat room and the copy every method is one critical section, one handler of the event loop,
or one byte; a script says what happens next, and each `Play` states what holds after every
script, so after every prefix of one.

How the environment is modelled. Descriptors, the choice of the thread that is woken, the
set `select` reports, the lengths `read` returns, the order in which a hash map is walked
and the answers of `is_thread_alive` are arbitrary. Mutexes and condition variables are
ideal; spurious wakeups are allowed in every safety claim and excluded only where
termination is counted. Bytes are characters. Integers are unbounded, except where the
source compares a signed with an unsigned number, which is written out.

## Model

| member | source | states |
|---|---|---|
| `ThreadPoolMachine.StepKeepsInv` | zl_threadpool/03_ThreadPool/ThreadPool.h:41-57 | Every interleaved step of a worker, a submitter or the destructor keeps mutual exclusion, the queue history, the wakeup count and the meaning of the stop flag; both pools, spurious wakeups included. |
| `ThreadPoolMachine.Reachable` | zl_threadpool/03_ThreadPool/ThreadPool.h:34-60 | Hence they hold in every state reachable by any run, for any number of workers and submitters. |
| `ThreadPoolMachine.NoLostWakeup` | zl_threadpool/03_ThreadPool/ThreadPool.h:41-57 | While some worker sleeps, the queued tasks are at most the notifications still owed plus the workers awake and about to look; and once stop is set, the notify_all is still owed. |
| `ThreadPoolMachine.FirstInFirstOut` | zl_threadpool/03_ThreadPool/ThreadPool.h:52-53 | The popped tasks followed by the queued ones are the accepted ones in order; the popped ones are exactly the running and the finished ones. |
| `ThreadPoolMachine.NothingAcceptedAfterStop` | zl_threadpool/03_ThreadPool/ThreadPool.h:77-79 | No run that starts after stop is set accepts another task in the joining pool. |
| `ThreadPoolMachine.FetchIsDefined` | zl_threadpool/03_ThreadPool/ThreadPool.h:50-53 | A worker whose wait predicate was true never meets an empty queue at front() unless it returns. |
| `ThreadPoolMachine.Progress` | zl_threadpool/03_ThreadPool/ThreadPool.h:88-97 | Deadlock freedom: some thread of the pool can step if and only if the pool is not quiet. |
| `ThreadPoolMachine.AtRest` | zl_threadpool/ThreadPoolCpp14/ThreadPool.h:25-40 | A quiet pool with a worker: open, all workers sleep; closed, all have returned. The queue then holds exactly as many tasks as were pushed when no worker was left, so every accepted task has run, once and in order, if and only if none was. |
| `ThreadPoolMachine.DrainedWhenJoined` | zl_threadpool/03_ThreadPool/ThreadPool.h:88-97 | When the joining destructor has returned, with at least one worker, the queue is empty and every accepted task ran exactly once, dequeued in submission order. |
| `ThreadPoolMachine.MeasureDecreases` | zl_threadpool/03_ThreadPool/ThreadPool.h:41-57 | Every internal step uses up some of a finite budget. |
| `ThreadPoolMachine.RunsAreBounded` | zl_threadpool/03_ThreadPool/ThreadPool.h:34-60 | So under every scheduler the pool makes at most that many steps before it needs a new call. |
| `ThreadPoolMachine.DestructorReturns` | zl_threadpool/03_ThreadPool/ThreadPool.h:88-97 | From any reachable state in which the destructor has been entered, every run of the pool's own steps is bounded, and one that cannot go on ends with the destructor over, all workers returned and every accepted task run once and in order; in the detached pool, all but the stranded ones. |
| `ThreadPoolMachine.NobodyLeft` | zl_threadpool/ThreadPoolCpp14/ThreadPool.h:35-35 | Once all workers have returned, no run takes anything from the queue. |
| `ThreadPoolMachine.DetachedDrains` | zl_threadpool/ThreadPoolCpp14/ThreadPool.h:47-64 | In every reachable state in which the detached pool is closed and at rest, the tasks not run are those pushed when no worker was left; all have run if and only if there are none. |
| `ThreadPoolMachine.DetachedStrands` | zl_threadpool/ThreadPoolCpp14/ThreadPool.h:47-64 | A run from the start, for any number of workers, in which a client inside `execute` pushes its task while the destructor is between setting the flag and notifying, after all workers have returned: the task stays in the queue. |
| `ThreadPoolMachine.ThreadPool.constructor` | zl_threadpool/03_ThreadPool/ThreadPool.h:34-60 | The new pool is the initial state of the machine. |
| `ThreadPoolMachine.ThreadPool.Submit` | zl_threadpool/03_ThreadPool/ThreadPool.h:64-73 | A call of `enqueue` or `execute` begins. |
| `ThreadPoolMachine.ThreadPool.Close` | zl_threadpool/03_ThreadPool/ThreadPool.h:88-90 | The destructor begins. |
| `ThreadPoolMachine.ThreadPool.SpuriousWakeup` | zl_threadpool/03_ThreadPool/ThreadPool.h:48-49 | A wait returns without notification. |
| `ThreadPoolMachine.ThreadPool.WorkerStep` | zl_threadpool/03_ThreadPool/ThreadPool.h:41-57 | The worker loop updates the fields as the machine's step for that worker does. |
| `ThreadPoolMachine.ThreadPool.ClientStep` | zl_threadpool/03_ThreadPool/ThreadPool.h:74-83 | So does `enqueue` (and `execute` in the detached pool), including the rejection after stop. |
| `ThreadPoolMachine.ThreadPool.CloserStep` | zl_threadpool/03_ThreadPool/ThreadPool.h:88-97 | So does the destructor: flag under the mutex, notify_all, joins in order. |
| `ThreadPoolMachine.ThreadPool.Take` | zl_threadpool/03_ThreadPool/ThreadPool.h:34-97 | Every step of the machine is taken by one of the methods. |
| `ThreadPoolMachine.Play` | zl_threadpool/03_ThreadPool/ThreadPool.h:14-97 | An object driven through any run of the machine ends in the run's state. |
| `ItemRing.FullAndEmpty` | produce_consume/04.多生产者-多消费者模型.cpp:31-32 | The two position tests mean full (all slots but one used) and empty. |
| `ItemRing.PutAppends` | produce_consume/04.多生产者-多消费者模型.cpp:37-41 | Storing appends to the contents between the positions, across the wrap. |
| `ItemRing.TakeRemovesOldest` | produce_consume/04.多生产者-多消费者模型.cpp:57-61 | Fetching returns and removes the oldest item. |
| `ItemRing.ItemRepository.IsFull` | produce_consume/04.多生产者-多消费者模型.cpp:31-32 | The producer's wait test is true exactly when size - 1 items are stored. |
| `ItemRing.ItemRepository.IsEmpty` | produce_consume/04.多生产者-多消费者模型.cpp:52-52 | The consumer's wait test is true exactly when nothing is stored. |
| `ItemRing.ItemRepository.Store` | produce_consume/04.多生产者-多消费者模型.cpp:37-41 | In-place store: the new contents are the old ones and the item. |
| `ItemRing.ItemRepository.Fetch` | produce_consume/04.多生产者-多消费者模型.cpp:57-61 | In-place fetch: result and new contents make up the old contents. |
| `ProducersConsumers.StepKeepsInv` | produce_consume/04.多生产者-多消费者模型.cpp:28-106 | Every step of any producer or consumer, and every spurious wakeup, keeps the three mutexes, the data, the counters and the sleepers consistent. |
| `ProducersConsumers.FifoRefinement` | produce_consume/04.多生产者-多消费者模型.cpp:28-67 | In every reachable state the consumed items followed by the ring are 1, 2, 3, ... up to the number stored, and the ring never holds more than size - 1. |
| `ProducersConsumers.MutualExclusion` | produce_consume/04.多生产者-多消费者模型.cpp:69-106 | No two threads of a side are inside their counter's section, nor two threads inside the repository. |
| `ProducersConsumers.Progress` | produce_consume/04.多生产者-多消费者模型.cpp:28-106 | Deadlock freedom: a thread can step if and only if not all have exited. |
| `ProducersConsumers.EverythingIsConsumed` | produce_consume/04.多生产者-多消费者模型.cpp:89-106 | When all have exited, exactly 1..K have been consumed, in order, and the ring is empty. |
| `ProducersConsumers.MeasureDecreases` | produce_consume/04.多生产者-多消费者模型.cpp:28-106 | Without spurious wakeups every step uses up some of a finite budget, waking included. |
| `ProducersConsumers.RunsAreBounded` | produce_consume/04.多生产者-多消费者模型.cpp:28-106 | So every schedule ends within the budget. |
| `ProducersConsumers.ProgramEnds` | produce_consume/04.多生产者-多消费者模型.cpp:69-106 | From the start every run without spurious wakeups has at most 32 K + 10 (producers + consumers) steps, and one that cannot go on ends with all threads exited, 1..K consumed in order and an empty ring. |
| `LruCache.PutKeepsMostRecent` | c++11/LRUCache.cpp:30-46 | A put leaves the list the `cap` most recently touched keys of the extended history, latest first. |
| `LruCache.GetKeepsMostRecent` | c++11/LRUCache.cpp:47-61 | So does a get, whether it hits or misses. |
| `LruCache.MostRecentIsUnique` | c++11/LRUCache.cpp:30-61 | The history and the capacity leave only one such list. |
| `LruCache.RunIsMostRecent` | c++11/LRUCache.cpp:30-61 | After any sequence of operations the list is what recency says. |
| `LruCache.RunsAreNested` | c++11/LRUCache.cpp:30-61 | The same operations on capacities c <= c' give a list that is a subsequence, and equal while the smaller is not full. |
| `LruCache.PutsAgree` | c++11/LRUCache.cpp:30-46 | The last put values do not depend on the capacity. |
| `LruCache.Inclusion` | c++11/LRUCache.cpp:47-61 | Every hit of the smaller cache is a hit of the larger one, with the same value. |
| `LruCache.BoundedIffNotNegative` | c++11/LRUCache.cpp:41-41 | No run lists more than max(capacity, 0) keys if and only if the capacity is not negative. |
| `LruCache.NothingIsEvicted` | c++11/LRUCache.cpp:41-41 | With a negative capacity every key ever touched stays listed, in any run shorter than the unsigned number it turns into. |
| `LruCache.LRUCache.constructor` | c++11/LRUCache.cpp:27-29 | The empty cache. |
| `LruCache.PushKeepsKeys` | c++11/LRUCache.cpp:33-39 | After erasing the key's old node and pushing the new one, the list is the old one with the key moved to the front, without repetition. |
| `LruCache.PushKeepsSize` | c++11/LRUCache.cpp:39-41 | The map's size is the list's, so comparing it with the capacity compares the list. |
| `LruCache.EvictionKeepsConsistent` | c++11/LRUCache.cpp:41-45 | Dropping the last node and its key leaves list and map pointing at each other. |
| `LruCache.PutKeepsConsistent` | c++11/LRUCache.cpp:30-46 | All of `put` together keeps recency, values and index. |
| `LruCache.LRUCache.Put` | c++11/LRUCache.cpp:30-46 | The list is the most recent keys, each node holds its key's last put value, the map sends exactly the listed keys to their nodes; after erase, push_front and eviction. |
| `LruCache.LRUCache.Get` | c++11/LRUCache.cpp:47-61 | Found exactly if listed; then the value is the last one put and the node moves to the front; otherwise the argument is left alone. |
| `LruCache.Perform` | c++11/LRUCache.cpp:17-62 | A client of a fresh object sees exactly the specified run. |
| `RequestParser.FeedAppend` | boost/http_server/request_parser.hpp:38-49 | Feeding a concatenation is feeding the parts, unless the first part brought a verdict. |
| `RequestParser.ChunksDoNotMatter` | boost/http_server/connection.cpp:41-63 | However a stream is split over reads, verdict, consumed bytes, state and request are those of the whole. |
| `RequestParser.TreeGrows` | boost/http_server/request_parser.cpp:27-283 | Each byte consumed without a verdict extends a partial syntax tree that prints as the bytes read and means the stored request. |
| `RequestParser.TreeShrinks` | boost/http_server/request_parser.cpp:27-283 | Each nonempty partial tree comes from a smaller one by one consumed byte. |
| `RequestParser.NameTokenGrows` | boost/http_server/request_parser.cpp:228-242 | A token byte in a header name extends the name of the last header, in the tree, in the stored request and in what has been read. |
| `RequestParser.TextOfValueGrows` | boost/http_server/request_parser.cpp:208-267 | A byte of a value or of a continuation line extends the value of the last header, likewise. |
| `RequestParser.PrintedIsRead` | boost/http_server/request_parser.cpp:27-283 | Reading what a partial tree prints as leads to its state and request. |
| `RequestParser.ReadIsPrinted` | boost/http_server/request_parser.cpp:27-283 | Whatever was read without a verdict is a partial tree. |
| `RequestParser.PrintedIsAccepted` | boost/http_server/request_parser.cpp:27-283 | A printed well-formed request is accepted whatever follows, its bytes consumed, its fields extracted, continuation lines appended without leading blanks. |
| `RequestParser.AcceptedIsPrinted` | boost/http_server/request_parser.cpp:27-283 | Whatever is accepted is a printed well-formed request, and the fields are that request's. |
| `RequestParser.ExactLanguage` | boost/http_server/request_parser.cpp:27-283 | Good if and only if a prefix matches the grammar; the match is exactly what is consumed and stored. |
| `RequestParser.Completable` | boost/http_server/request_parser.cpp:27-283 | Every partial tree can be completed to a request. |
| `RequestParser.FirstErrorIsReported` | boost/http_server/request_parser.cpp:27-283 | Indeterminate means some request continues the input; bad means none begins with the bytes consumed. |
| `RequestParser.RoundTrip` | ad_system/server3/client/sync_client.cpp:45-50 | A request printed in the client's form parses as itself and all its bytes are consumed. |
| `RequestParser.Rewriting` | boost/http_server/request_parser.cpp:27-283 | Any accepted request, folded headers included, can be printed unfolded and parses as the same request. |
| `RequestParser.HttpParser.ConsumeByte` | boost/http_server/request_parser.cpp:27-283 | The in-place machine takes the transition of the specification in all twenty states. |
| `RequestParser.HttpParser.Parse` | boost/http_server/request_parser.hpp:38-49 | The loop stops at the first verdict, or at the end with the state kept for the next chunk. |
| `InvertIndex.BeforeIsStrictTotal` | invert/invert.hpp:59-74 | The comparator is a strict total order. |
| `InvertIndex.SortedIsUnique` | invert/invert.hpp:278-278 | A multiset of triples has one sorted arrangement, so the sorting algorithm does not matter. |
| `InvertIndex.AnswerIsUnique` | invert/invert.hpp:186-234 | The specification of a lookup (each id once, first weight, by weight descending then id ascending) leaves one answer. |
| `InvertIndex.SortedHoldsAnswers` | invert/invert.hpp:267-309 | The sorted first-wins vector holds exactly the specified answer for every key, and a key exactly if it was added. |
| `InvertIndex.RunEnds` | invert/invert.hpp:291-299 | Saving the entry of a finished run extends the index to it. |
| `InvertIndex.EntryHoldsPostings` | invert/invert.hpp:195-213 | The records behind an entry are the key's postings. |
| `InvertIndex.IndexIsUnique` | invert/invert.hpp:280-308 | The vector determines the entries. |
| `InvertIndex.PermutationGivesSameTable` | invert/invert.hpp:267-309 | Permuted input gives the same vector and the same entries. |
| `InvertIndex.EntriesPartition` | invert/invert.hpp:280-308 | Every position of the vector belongs to exactly one entry, that of its key. |
| `InvertIndex.ReuseIsRight` | invert/invert.hpp:242-250 | On postings that follow older ones, the new entries name the right postings if and only if the new postings also begin the combined vector. |
| `InvertIndex.InvertTable.LookupsAreRight` | invert/invert.hpp:124-150 | The same of the reader: after `create` on a cached table that is not fresh, every lookup of an added key is right exactly under that condition. |
| `InvertIndex.CreateTwice` | invert/invert.hpp:124-150 | What a lookup returns after two `create` calls on one cached table. |
| `InvertIndex.ReuseCanBeWrong` | invert/invert.hpp:124-150 | Two `create` calls after which the reader returns the posting of the first for a key of the second. |
| `InvertIndex.ImplementationsAgree` | invert_table/z_invert_table.h:21-63 | Both implementations hold the same multiset of postings under every key. |
| `InvertIndex.StdSort` | invert/invert.hpp:278-278 | Some sorted rearrangement. |
| `InvertIndex.InvertTable.constructor` | invert/invert.hpp:108-111 | A fresh table. |
| `InvertIndex.InvertTable.CreateInvertTable` | invert/invert.hpp:267-309 | The scan of the sorted vector produces the entries that partition it, and appends its postings. |
| `InvertIndex.InvertTable.WriteIndex` | invert/invert.hpp:316-325 | The file holds exactly the map's entries, in any order. |
| `InvertIndex.InvertTable.ReadIndex` | invert/invert.hpp:343-367 | Record by record on top of the map; records without postings are skipped. |
| `InvertIndex.RecordsAreRead` | invert/invert.hpp:316-366 | Reading the records of a map, written in any order, adds that map and overrides what was there. |
| `InvertIndex.InvertTable.Create` | invert/invert.hpp:124-150 | On a table whose vector is empty, cached or not, the table answers from the new data; otherwise the new postings are appended. |
| `InvertIndex.InvertTable.Load` | invert/invert.hpp:158-177 | On any table: for every key of the files, lookups answer from the vector that was written, cached or not; a fresh table answers exactly from it. |
| `InvertIndex.InvertTable.GetInvertInfo` | invert/invert.hpp:186-214 | In any state the slice or the records the key's entry names; on a table built or loaded fresh, success exactly for keys of the vector, with their postings. |
| `InvertIndex.InvertTable.ReadRecords` | invert/invert.hpp:415-436 | Seek and read of `cnt` records; a short read fails. |
| `InvertIndex.InvertCreator.AddTriple` | invert/invertCreator.cpp:60-66 | Only the first triple for each key and id is kept. |
| `InvertIndex.InvertCreator.Create` | invert/invertCreator.cpp:73-75 | Lookups on the created table answer as specified for all calls made. |
| `InvertIndex.ZInvertTable.Insert` | invert_table/z_invert_table.h:21-31 | First wins, per key in insertion order. |
| `InvertIndex.ZInvertTable.CreateInvertTable` | invert_table/z_invert_table.h:41-47 | Inserts all. |
| `InvertIndex.ZInvertTable.GetPostList` | invert_table/z_invert_table.h:49-63 | Succeeds exactly for keys that were added, with their first-wins postings. |
| `InvertIndex.BuildBoth` | invert/invertCreator.cpp:60-75 | The same calls on both implementations, and the files written. |
| `InvertIndex.AllReadersAgree` | invert/invert.hpp:186-234 | The built table, a cached and an uncached table loaded from the files, and the other implementation all succeed together and return the same postings (the last as a multiset), and these meet the specification. |
| `ChatMessage.HeaderRoundTrip` | boost/3.chat_message.hpp:56-74 | Every body length up to 512 survives encoding in four characters and decoding by atoi. |
| `ChatMessage.FramesAreRead` | boost/3.chat_client.cpp:55-89 | Frames written one after the other are read back as they were, and reading goes on with the following bytes. |
| `ChatMessage.ReadFramesAreValid` | boost/3.chat_server.cpp:91-126 | Frames read are valid and are the bytes up to where reading ended. |
| `ChatMessage.LinesArrive` | boost/3.chat_client.cpp:139-145 | The lines a client sends are the bodies the server reads. |
| `ChatMessage.ChatMessageBuffer.SetBodyLength` | boost/3.chat_message.hpp:49-54 | The length is clamped to 512. |
| `ChatMessage.ChatMessageBuffer.DecodeHeader` | boost/3.chat_message.hpp:56-67 | True exactly if the header announces a length in bounds, which is then set; otherwise it becomes 0. |
| `ChatMessage.ChatMessageBuffer.EncodeHeader` | boost/3.chat_message.hpp:69-74 | The first four bytes become the header; the rest stays. |
| `ChatRooms.ChatSession.Deliver` | boost/3.chat_server.cpp:80-88 | The message is queued, and exactly one write is in flight afterwards. |
| `ChatRooms.ChatSession.Written` | boost/3.chat_server.cpp:128-149 | A finished write moves the front message to the written ones and starts the next, if any; a failed one starts none. |
| `ChatRooms.ChatRoom.constructor` | boost/3.chat_server.cpp:30-65 | An empty room meets the invariant. |
| `ChatRooms.ChatRoom.Join` | boost/3.chat_server.cpp:33-38 | The newcomer's segment of the log starts min(100, log length) before its end; everyone's stays a contiguous segment. |
| `ChatRooms.ChatRoom.Leave` | boost/3.chat_server.cpp:40-43 | The leaver's segment ends at the end of the log. |
| `ChatRooms.ChatRoom.Remember` | boost/3.chat_server.cpp:47-49 | The history is the last 100 messages of the log. |
| `ChatRooms.ChatRoom.Deliver` | boost/3.chat_server.cpp:45-53 | The log and every participant's queue grow by the message; written and queued messages stay a segment of the log for everyone. |
| `ChatRooms.ChatRoom.Broadcast` | boost/3.chat_server.cpp:51-52 | Each participant receives the message once. |
| `ChatRooms.ChatRoom.WriteDone` | boost/3.chat_server.cpp:128-149 | A write moves the front message to the written ones; a failed one makes the session leave here; the invariant holds. |
| `ChatRooms.ClientReadsTheLog` | boost/3.chat_client.cpp:55-89 | What the other end decodes, broken off anywhere, is the room's log from the session's start, without gap or repetition. |
| `ChatRooms.OneOrder` | boost/3.chat_server.cpp:45-53 | Any two sessions agree on every message both have written. |
| `ChatRooms.MemberHistory` | boost/3.chat_server.cpp:33-149 | For every script of connections, messages, ends of connections and answered writes: the part of a session begins at most 100 messages before its join and ends at the first event that puts it out, its own end or a failed write that was in flight; it has no end exactly if there is no such event. |
| `ChatRooms.Play` | boost/3.chat_server.cpp:33-149 | Ordered broadcast in every run from an empty room, for any script: the log is what was said, and each session has written, and has queued, exactly its part of it, with a write in flight exactly if it has not failed and something is queued. |
| `ListChecker.CircularIffEndless` | libevent/util-internal.h:178-190 | A list is circular if and only if it has not ended after as many steps as there are elements. |
| `ListChecker.TheyMeet` | libevent/util-internal.h:182-190 | On a circular list the hare meets the tortoise within as many rounds as there are elements. |
| `ListChecker.ChainIsUnique` | libevent/util-internal.h:192-200 | A list is at most one chain, and none if circular. |
| `ListChecker.TortoiseAndHare` | libevent/util-internal.h:178-190 | The loop ends on every list, and its assertions fail if and only if the list is circular. |
| `ListChecker.Walk` | libevent/util-internal.h:192-200 | The walk passes if and only if every back-pointer names the field that leads to its element. |
| `ListChecker.CheckList` | libevent/util-internal.h:173-201 | The whole check passes if and only if the list is one finite chain without repetition with right back-pointers. |
| `ListChecker.CheckTailq` | libevent/util-internal.h:209-238 | The tail-queue check also needs the stored tail pointer to be the last link, unless the queue is empty. |
| `ListChecker.StrayTail` | libevent/util-internal.h:209-238 | An empty queue whose tail pointer leads elsewhere passes. |
| `LineReader.Descriptor.Read` | Linux_Net/Reactor/wrap.c:118-118 | read(2) as the helpers see it: part of the stream, the end, an interruption or an error. |
| `LineReader.Descriptor.Write` | Linux_Net/Reactor/wrap.c:141-141 | write(2) likewise. |
| `LineReader.Readn` | Linux_Net/Reactor/wrap.c:108-130 | The next min(n, remaining) bytes, whatever the splitting; -1 exactly on an error. |
| `LineReader.Writen` | Linux_Net/Reactor/wrap.c:132-152 | All n bytes in order, or -1 after a prefix. |
| `LineReader.PieceIsUnique` | Linux_Net/Reactor/wrap.c:182-195 | What one call must store is determined by the stream. |
| `LineReader.PiecesAreTheStream` | Linux_Net/Reactor/wrap.c:176-196 | The pieces make up the stream. |
| `LineReader.PieceShape` | Linux_Net/Reactor/wrap.c:176-196 | Each piece has its only newline at its end, and is full, ends a line, or is the last. |
| `LineReader.LineBuffer.Refill` | Linux_Net/Reactor/wrap.c:160-169 | The buffer is filled from the stream, interruptions retried. |
| `LineReader.LineBuffer.MyRead` | Linux_Net/Reactor/wrap.c:154-174 | One byte of what is pending; 0 exactly at the end, -1 exactly on an error; always a byte, without reading, while bytes are left over. The byte is the next of the descriptor's own stream if and only if nothing was left over from another descriptor. |
| `LineReader.LineBuffer.Readline` | Linux_Net/Reactor/wrap.c:176-196 | Stores the next piece and a zero byte; returns its length, or `maxlen` for a full piece without newline; what an error leaves behind. |
| `LineReader.LineBuffer.ReadLines` | Linux_Net/Reactor/wrap.c:176-196 | Repeated calls return exactly the pieces of the stream, or a prefix of them before an error. |
| `LineReader.Crosstalk` | Linux_Net/Reactor/wrap.c:154-174 | Two descriptors read in turn: the second caller receives a byte of the first. |
| `LineReader.OneTooMany` | Linux_Net/Reactor/wrap.c:176-196 | A full piece of one byte without newline is reported as two bytes. |
| `LineReader.LostBytes` | Linux_Net/Reactor/wrap.c:186-192 | A byte read before an error is neither returned nor left to read. |
| `SelectServer.AddKeepsBook` | Linux_Net/concurrent/moreIO_concurrent/select_concurrent/server.c:60-76 | A new connection keeps the watched set, the array and both bounds consistent. |
| `SelectServer.ClearKeepsBook` | Linux_Net/concurrent/moreIO_concurrent/select_concurrent/server.c:88-91 | So does a closed one. |
| `SelectServer.SomeEntryIsFree` | Linux_Net/concurrent/moreIO_concurrent/select_concurrent/server.c:66-69 | With descriptors in range the array is never full, so the exit for too many clients is never taken. |
| `SelectServer.AllServed` | Linux_Net/concurrent/moreIO_concurrent/select_concurrent/server.c:98-99 | As many distinct ready clients served as are ready: all of them, so stopping at zero is sound. |
| `SelectServer.Server.constructor` | Linux_Net/concurrent/moreIO_concurrent/select_concurrent/server.c:37-44 | The initial bookkeeping. |
| `SelectServer.Server.AddClient` | Linux_Net/concurrent/moreIO_concurrent/select_concurrent/server.c:60-76 | The connection takes the first free entry; the watched set grows by it. |
| `SelectServer.Server.Turn` | Linux_Net/concurrent/moreIO_concurrent/select_concurrent/server.c:46-102 | One turn of the event loop serves every ready client exactly once and nobody else, and the watched set changes by the accepted and the closed ones only. |
| `SelectServer.Server.Serve` | Linux_Net/concurrent/moreIO_concurrent/select_concurrent/server.c:82-101 | The loop over the entries with its early exit. |
| `DynamicPool.RingAfterPut` | zl_threadpool/02_thread_pool/threadpool.c:147-150 | Enqueueing appends to the ring's contents, across the wrap. |
| `DynamicPool.RingAfterTake` | zl_threadpool/02_thread_pool/threadpool.c:196-201 | Dequeueing removes the oldest. |
| `DynamicPool.FullTable` | zl_threadpool/02_thread_pool/threadpool.c:250-258 | If every entry holds a live worker, there are as many live workers as entries. |
| `DynamicPool.Pool.constructor` | zl_threadpool/02_thread_pool/threadpool.c:71-126 | A new pool meets the invariant with `min` live workers. |
| `DynamicPool.Pool.Add` | zl_threadpool/02_thread_pool/threadpool.c:129-157 | Blocks exactly when the queue is full; otherwise the task is the last one accepted. |
| `DynamicPool.Pool.Section` | zl_threadpool/02_thread_pool/threadpool.c:165-207 | A worker under the lock exits, sleeps or takes the oldest task exactly in the cases given; the exit request is counted down either way. |
| `DynamicPool.Pool.Fetch` | zl_threadpool/02_thread_pool/threadpool.c:196-201 | The task taken is the oldest one not yet taken. |
| `DynamicPool.Pool.StartTask` | zl_threadpool/02_thread_pool/threadpool.c:211-213 | The busy counter counts the running workers. |
| `DynamicPool.Pool.EndTask` | zl_threadpool/02_thread_pool/threadpool.c:218-221 | The task is done and its worker is free again. |
| `DynamicPool.Pool.Grow` | zl_threadpool/02_thread_pool/threadpool.c:245-261 | Of the entries looked at, exactly those without a thread that seems alive get a new worker, at most ten and within the maximum, never a live worker's entry; ten or up to the maximum if `is_thread_alive` is never wrong. |
| `DynamicPool.Pool.RequestShrink` | zl_threadpool/02_thread_pool/threadpool.c:263-269 | Ten exits are asked for exactly when the samples show idle workers above the minimum. |
| `DynamicPool.Bounds` | zl_threadpool/02_thread_pool/threadpool.c:129-279 | Of a pool that meets the invariant: the counters lie within their bounds and rear = (front + size) mod capacity. |
| `DynamicPool.RunOnce` | zl_threadpool/02_thread_pool/threadpool.c:196-221 | Of a pool that meets the invariant: no two workers hold the same task. |
| `DynamicPool.NothingForgotten` | zl_threadpool/02_thread_pool/threadpool.c:196-221 | Of a pool that meets the invariant, with an empty queue and idle workers: every accepted task has been run to its end. |
| `DynamicPool.ExitsBetweenRequests` | zl_threadpool/02_thread_pool/threadpool.c:177-186 | Idle exits in a stretch without a request are among those since the last request. |
| `DynamicPool.Play` | zl_threadpool/02_thread_pool/threadpool.c:129-279 | Every interleaving of callers, workers and manager from a new pool: the bounds hold, a caller has to wait exactly when as many tasks as fit are accepted and not taken, tasks are dequeued in the order of their acceptance and finished once each, at most ten idle exits lie between two requests, and an idle pool has finished everything. |
| `ParallelCopy.ExactlyOneOwner` | file_cp/mult_thread_cp.c:115-118 | Every byte lies in exactly one worker's range. |
| `ParallelCopy.Divide` | file_cp/mult_thread_cp.c:115-118 | The ranges are adjacent from 0 to the size, equal but for the last, which gets the remainder. |
| `ParallelCopy.Copier.constructor` | file_cp/mult_thread_cp.c:104-118 | Nothing copied, nothing counted. |
| `ParallelCopy.Copier.CopyByte` | file_cp/mult_thread_cp.c:38-43 | One byte copied by one worker, no other byte touched. |
| `ParallelCopy.Copier.CountByte` | file_cp/mult_thread_cp.c:38-43 | And counted by it. |
| `ParallelCopy.CopyIsExact` | file_cp/mult_thread_cp.c:31-46 | Of a copy that meets the invariant: when all workers have ended the destination is the source. |
| `ParallelCopy.Copier.Run` | file_cp/mult_thread_cp.c:38-43 | A scheduled worker copies or counts its next byte, and no other worker is affected. |
| `ParallelCopy.Play` | file_cp/mult_thread_cp.c:31-46 | Under every schedule of the workers each has come as far as its turns allow, and once all had enough turns the destination is the source. |
| `ParallelCopy.CountsAddUp` | file_cp/mult_thread_cp.c:56-57 | The counts never sum to more than the size, and to it exactly when all workers have ended. |
| `ParallelCopy.FullInTime` | file_cp/mult_thread_cp.c:53-61 | The bar is full exactly from 49 intervals on, not after the end of the copy, with at most 98 marks. |
| `ParallelCopy.NoInterval` | file_cp/mult_thread_cp.c:53-53 | The interval is zero exactly for files of fewer than 49 bytes. |
| `ParallelCopy.Display` | file_cp/mult_thread_cp.c:48-66 | The progress loop ends at the first sum that fills the bar, or divides by zero if and only if the file has fewer than 49 bytes. |

## Where the code falls short of what one would expect

These are properties of the code, kept as it is, each stated by the members named.

- A second `create` on a table that is not fresh appends behind the old postings while the
  offsets count from zero: `LookupsAreRight` gives the exact condition, `ReuseCanBeWrong`
  an input.
- A task can be pushed into the detached pool after its last worker has returned, and is
  never run: `DetachedStrands` gives a run, `DetachedDrains` the exact condition.
- A negative LRU capacity is compared as an unsigned number and does not bound the list:
  `BoundedIffNotNegative`, `NothingIsEvicted`.
- `Readline` reports a full piece without newline as one byte longer than it is, and bytes
  read before an error are gone from the stream: `Readline`'s contract says exactly when,
  `OneTooMany` and `LostBytes` are inputs.
- The buffer of `my_read` is shared by all descriptors: `MyRead`'s contract says when a call
  returns the next byte of its own stream, `Crosstalk` is an input where it does not.
- The tail-queue check does not look at the tail pointer of an empty queue: `CheckTailq`
  says when it passes, `StrayTail` is an input where the pointer is wrong.
- A file of fewer than 49 bytes makes the progress bar divide by zero: `NoInterval`,
  `Display`.
- The exit for too many clients in the select() server cannot be reached with descriptors
  that `FD_SET` admits: `SomeEntryIsFree`.

## Left out

- HttpParser.ConsumeByte: version numbers do not wrap, because overflow of an `int` is undefined in the source; characters above 127 are treated alike.
- InvertTable.ReadInvert: files are sequences of records, not bytes, and writing or opening them does not fail; only an empty file, which cannot be mapped, does.
- InvertCreator.Create: the source sorts the creator's own vector in place; here the creator keeps insertion order, which no lookup can tell apart.
- Divide: at least one worker; the program divides by the number it is given.
- InvertTable.WriteInvert: taking the address of the first element of an empty vector.
- ZInvertTable.CreateInvertTable: the `clear()` of both containers that `create` does before it.
- Server.Turn: connections are accepted with descriptors below FD_SETSIZE, as `FD_SET` demands; the bytes echoed, and a `Read` that fails, which is served like any other.
- Pool.constructor: `wait_exit_thr_num`, which the program leaves unset, is taken to be 0.
- Pool.Add: the state after shutdown, when a blocked `threadpool_add` falls through, and the freeing of an old task's argument.
- Pool.Section: liveness of the C pool, since a worker that exits can use up the signal meant for a task.
- ThreadPool.ClientStep: the future and its exception, and a moved-from or default-constructed detached pool.
- ChatRoom.Deliver: which participant is served first; sockets and the lifetime of sessions.
- ChatSession.Written: which bytes are on the wire while a write is in flight.
- Descriptor.Read: a blocking descriptor that is interrupted finitely often; would-block errors.
- Copier.CopyByte: the write of one byte is atomic; files that cannot be mapped, such as the empty one.
- Display: the size is passed through a 32-bit `int`, so larger files are not covered; the sums it reads are arbitrary but for the last.
- LRUCache.Put: the cache's mutex, under which every call runs as a whole.
- The C++98, C++03 and C++11 pools of the same directory: they set the stop flag outside the mutex, and the wakeup and drain claims do not hold.
- produce_consume 01 to 03 and the other copies of the parser and of wrap.c: the same code or near-instances.
- mult_process_cp.c, the flow-control experiment, the philosophers and the epoll reactors: the natural claims are false there.
- url_decode, StringSplit, the UTF-8 test, handler_memory and the list macros of the simple pool: they would add easier members only.
- Sockets, asio, mmap, stdio, logging, printing, memory exhaustion and thread-creation failure.
