# Verification of a distributed tracing agent

The system monitors Java applications. A native agent inside the application's virtual machine sees every class
file that is loaded and asks a separate instrumentor process to transform it; the instrumented code opens and
closes spans of traces. This project models the parts that hold the protocol, the data structures and the
formats together, and proves what they promise.

* `MpmcQueue`, `BoundedQueueObject`, `AsyncLog`: the lock-free bounded queue of the logger as an interleaving of
  single atomic accesses by any number of threads, the same ring as an object used by one thread, and the worker
  that feeds the sinks from it until a terminate message.
* `Conversation`, `ConversationRuns`, `RequestEffects`, `InstrumentorServerObject`, `InstrumentorApiObject`,
  `Dependencies`, `AgentDriver`: the two processes that talk over two FIFO channels with untagged replies, their
  runs and what each request comes to in them, the objects that implement them, the walk that sends referenced
  classes, and the callback that orders the requests.
* `ByteReading`, `ClassFileParsing`, `ClassParserObject`, `ClassFileEncoding`, `Descriptors`, `ClassReferences`: the
  class file parser (sections 4.1 to 4.7 of the JVM Specification SE 8), its object, an encoding of class file
  structures that it inverts, and what the references it collects make the walk send.
* `DigitCount`, `IntFormat`, `IntWriter`, `IntReading`: integer formatting of the bundled formatting library, and a
  reader for its texts.
* `JsonText`, `Json`, `JsonGrammar`: the JSON writer and a parser for its output (RFC 7159).
* `RotatingSink`, `Tracing`, `Uuid`: the rotating file sink, span chains and their deep copies, identifiers and their
  text forms.
* `Arithmetic`, `Bits`, `Decimal`, `Positional`, `Wrappers`: shared facts about numbers, numerals and results.

Code that works in place is a class or a method over arrays, and each such method is tied to a function of the old
state; what the system promises is then proved about these functions, about runs of them, and about all inputs.

Where the code does not do what its documentation says, the model follows the code and states exactly when the two
agree:

* a second request to instrument a class, for instance the same name from another class loader, leaves the agent
  waiting for ever (`Conversation.InstrumentFinishesIffNew`, `AgentDriver.FinishesIffNamesDiffer`,
  `AgentDriver.SecondLoaderBlocks`), and so does an interceptor without known code
  (`ConversationRuns.RestsExactlyWhenInstrumentable`);
* method descriptors whose class names hold a parenthesis are misread, or the scan never ends
  (`Descriptors.CollectsExactlyWithoutParentheses`, `Descriptors.ScanHalts`, and for whole class files
  `ClassFileEncoding.ParseInvertsEncode`); results and fields of array type are not collected at all;
* two-byte numbers of 32768 and more are read as negative, which does no harm to versions and flags and ends the
  parse for lengths and counts (`ClassFileEncoding.ParseOfEncode`, `ClassFileEncoding.ParseInvertsEncode`);
* texts lose everything above eight bits and behind a NUL (`ByteReading.ShownExactly`);
* the digits of an integer with a precision and left alignment are written to storage that the buffer has left, if
  the fill behind them makes it grow (`IntWriter.PlaceIsKept`, `IntWriter.BasicWriter.PrepareIntBuffer`,
  `IntWriter.LosesSeven`);
* a number in a field whose fill is a digit, or a minus, can have the text of another number
  (`IntReading.PlainTextsDifferIff`);
* an empty JSON object or array is written without its opening bracket
  (`JsonGrammar.WrittenIsJsonWithoutEmptyContainers`, `JsonGrammar.WrittenReadsBack`);
* a copied span keeps everything but its service name (`Tracing.Span.CopyOf`,
  `Tracing.NamedSpanIsCopiedUnnamed`).

To verify the project, run `dafny verify dfyconfig.toml`.

## Model

| member | source | states |
|---|---|---|
| MpmcQueue.RunKeepsInv | agent/include/spdlog/details/mpmc_bounded_q.h:83-134 | in every interleaving of any number of threads, with weak compare-and-swap failing at will, the invariant of the queue holds: positions, cell states, ticket owners and the items taken out |
| MpmcQueue.StepKeepsInv | agent/include/spdlog/details/mpmc_bounded_q.h:83-134 | every single load, compare-and-swap, move and store of one thread keeps that invariant |
| MpmcQueue.ConsumersGetTheirTicket | agent/include/spdlog/details/mpmc_bounded_q.h:83-134 | in every run the consumer of ticket p takes out exactly the item that the producer of ticket p brought, and a successful call returns it |
| MpmcQueue.NothingLostOrReordered | agent/include/spdlog/details/mpmc_bounded_q.h:83-134 | in every run that leaves no thread between claim and release, the items taken out by ticket, followed by those in the ring, are all items brought in, in order |
| MpmcQueue.TicketsKeepOrder | agent/include/spdlog/details/mpmc_bounded_q.h:83-108 | tickets are given in the order of the claims: what was brought in earlier in a run stays a prefix |
| MpmcQueue.PositionsStayInWindow | agent/include/spdlog/details/mpmc_bounded_q.h:62-134 | in every run the dequeue position is at most the enqueue position, which is at most one ring ahead |
| MpmcQueue.CellsHaveOneOwner | agent/include/spdlog/details/mpmc_bounded_q.h:106-132 | in every run no two threads between claim and release work on one cell |
| MpmcQueue.SequenceTellsTicketState | agent/include/spdlog/details/mpmc_bounded_q.h:90-130 | a cell's sequence compared with a position tells exactly whether the ticket one ring earlier is released and whether this one is published or released |
| MpmcQueue.EnqueueFailsExactlyWhenFull | agent/include/spdlog/details/mpmc_bounded_q.h:90-100 | in every run enqueue gives up exactly when the ticket one ring earlier is not released; without other operations in flight that is a full queue |
| MpmcQueue.DequeueFailsExactlyWhenEmpty | agent/include/spdlog/details/mpmc_bounded_q.h:117-127 | in every run dequeue gives up exactly when its ticket is not published; without other operations in flight that is an empty queue |
| MpmcQueue.EnqueueTellsTheTruth | agent/include/spdlog/details/mpmc_bounded_q.h:83-109 | every run, every call of enqueue from the step that makes it to the one before it comes back: it comes back true exactly if it won a ticket in between, then only one, published with the item of the call; and if it comes back false it found the ring full in one of its own steps |
| MpmcQueue.DequeueTellsTheTruth | agent/include/spdlog/details/mpmc_bounded_q.h:111-134 | the same for dequeue: true exactly if it won a ticket, then only one, whose item it brings and whose cell it has given back; otherwise it brings nothing and found the item of its position missing |
| MpmcQueue.EnqueueGoesOn | agent/include/spdlog/details/mpmc_bounded_q.h:83-109 | at every point inside a call of enqueue it has won no ticket yet or the one it works on, and still carries the item it was given |
| MpmcQueue.DequeueGoesOn | agent/include/spdlog/details/mpmc_bounded_q.h:111-134 | the same for dequeue |
| MpmcQueue.RetryMeansOvertaken | agent/include/spdlog/details/mpmc_bounded_q.h:88-105 | a call starts again, apart from a compare-and-swap that fails for no reason, only if others have claimed its position since it loaded it |
| MpmcQueue.RetriesMeanProgress | agent/include/spdlog/details/mpmc_bounded_q.h:83-134 | in every run a call starts again at most as often as calls of its kind have claimed tickets since it began, apart from compare-and-swaps that fail for no reason |
| MpmcQueue.InitInv | agent/include/spdlog/details/mpmc_bounded_q.h:62-75 | the ring starts with every cell waiting for its first ticket |
| BoundedQueueObject.BoundedQueue.Create | agent/include/spdlog/details/mpmc_bounded_q.h:62-75 | a queue exists exactly for sizes that are powers of two and at least 2 |
| BoundedQueueObject.BoundedQueue.MaskedIndex | agent/include/spdlog/details/mpmc_bounded_q.h:89 | masking a position with size - 1 is the position modulo the size |
| BoundedQueueObject.BoundedQueue.Enqueue | agent/include/spdlog/details/mpmc_bounded_q.h:83-109 | used by one thread at a time: succeeds exactly below capacity and appends the item |
| BoundedQueueObject.BoundedQueue.Dequeue | agent/include/spdlog/details/mpmc_bounded_q.h:111-134 | used by one thread at a time: gives the oldest item, or nothing exactly when empty |
| BoundedQueueObject.BoundedQueue.ApproxSize | agent/include/spdlog/details/mpmc_bounded_q.h:136-144 | without interference the size is exact |
| BoundedQueueObject.QuietRunIsValidObject | agent/include/spdlog/details/mpmc_bounded_q.h:83-134 | the ring that any concurrent run leaves behind, once no call is in progress, is a valid sequential queue of the items not yet taken out |
| Bits.PowerOfTwoTest | agent/include/spdlog/details/mpmc_bounded_q.h:68 | size & (size - 1) is 0 exactly for powers of two |
| AsyncLog.ShutdownDeliversEverything | agent/include/spdlog/details/async_log_helper.h:236-339 | in every run that ends with the worker gone: each sink has seen, once and in ticket order, exactly the messages its level accepts among the tickets handled, these include every ticket before the terminate message, and every sink was flushed last; with the blocking policy every push that came back has its ticket |
| AsyncLog.EverySinkSeesItsEvents | agent/include/spdlog/details/async_log_helper.h:236-339 | in every run each sink has seen exactly the events it was to see of the rounds that the worker took: the messages of at least its level, and a flush in every round that found the queue empty when one was wanted or the interval had run out |
| AsyncLog.SinksSeeTheRounds | agent/include/spdlog/details/async_log_helper.h:282-339 | the same for every sequence of rounds from the start of the thread, with what its own variables then say and whether it runs on |
| AsyncLog.FlushIsCarriedOut | agent/include/spdlog/details/async_log_helper.h:292-316 | a flush or terminate message is carried out by the first round after it that finds the queue empty: every sink has then been flushed last |
| AsyncLog.EmptyRoundFlushesIffWanted | agent/include/spdlog/details/async_log_helper.h:310-339 | a round that finds the queue empty flushes every sink exactly if a flush or terminate message was taken since the queue was last found empty or the interval has run out, and no sink sees anything else |
| AsyncLog.MessagesAreConserved | agent/include/spdlog/details/async_log_helper.h:236-256 | in every run the calls of each message are its tickets, those given up and those still trying: no sink sees a message more often than it was logged, and with the blocking policy every message has as many tickets as calls once no producer is in one |
| AsyncLog.ActAllKeepsInv | agent/include/spdlog/details/async_log_helper.h:236-339 | every run of pushes, retries, queue accesses and worker rounds keeps the invariant that ties the sinks to the tickets handled |
| AsyncLog.ActKeepsInv | agent/include/spdlog/details/async_log_helper.h:236-339 | one action keeps it |
| AsyncLog.AsyncLogHelper.ProcessNextMsg | agent/include/spdlog/details/async_log_helper.h:282-326 | one round of the worker: what each sink sees and how the flags change for every kind of message and for an empty queue |
| AsyncLog.AsyncLogHelper.HandleFlushInterval | agent/include/spdlog/details/async_log_helper.h:329-339 | flushes every sink exactly when a flush is wanted or the interval has run out, and clears the request |
| AsyncLog.AsyncLogHelper.WorkerLoop | agent/include/spdlog/details/async_log_helper.h:260-278 | the loop ends with the first round that finds the queue empty after a terminate message, and only then |
| AsyncLog.AsyncLogHelper.constructor | agent/include/spdlog/details/async_log_helper.h:192-212 | flags start cleared and nothing has reached a sink |
| ConversationRuns.RunsStayInLockStep | agent/src/main/cpp/InstrumentorAPI.cpp:86-259 | in every run that asks for no class twice and only for classes whose interceptors have known code: no message is taken for something it is not, neither side fails, while a request is under way some process can move, and at rest the caches agree |
| ConversationRuns.RestsExactlyWhenInstrumentable | instrumenter/src/main/java/cz/cuni/mff/d3s/distrace/instrumentation/InstrumentorServer.java:207-221 | every run whatsoever that can go no further has ended all requests with empty channels exactly if no class was asked for twice and all have only interceptors with known code |
| ConversationRuns.RequestsEnd | agent/src/main/cpp/InstrumentorAPI.cpp:86-380 | in every run, from any point on, as long as no request is begun: the number of steps taken is exactly what was left to do less what is left now, so every request ends, after the same number of steps in every interleaving |
| ConversationRuns.EveryStepLeavesOneLess | agent/src/main/cpp/InstrumentorAPI.cpp:86-380 | whichever side moves leaves exactly one step less |
| ConversationRuns.DoneWhenNobodyMoves | agent/src/main/cpp/InstrumentorAPI.cpp:86-380 | nothing is left to do exactly when neither side can move |
| ConversationRuns.ChannelsAreEmptyAfterRequest | agent/src/main/cpp/InstrumentorAPI.cpp:86-380 | in every run both channels are empty and the server has nothing to send when the agent has ended a request to instrument a class, to ask for one, or for the helper classes |
| ConversationRuns.CachesAgreeBetweenRequests | agent/src/main/cpp/InstrumentorAPI.cpp:231-259 | at every request boundary: interceptors agree in names and bytes with what the server sent; a loader is recorded to have exactly the interceptors it was given, each once, with the bytes of the server and when it was ignored; and every class believed to be on the server is there |
| Conversation.InstrumentFinishesIffNew | instrumenter/src/main/java/cz/cuni/mff/d3s/distrace/instrumentation/InstrumentorServer.java:207-221 | the reply to an instrument request is read to its end exactly when the server has not yet cached the class and has the code of all its interceptors |
| Conversation.UnknownReplyBlocks | instrumenter/src/main/java/cz/cuni/mff/d3s/distrace/instrumentation/BaseAgentBuilder.java:103-110 | an interceptor without known code: the server throws in the middle of the reply and the agent waits for the rest |
| Conversation.RepeatedReplyBlocks | instrumenter/src/main/java/cz/cuni/mff/d3s/distrace/instrumentation/InstrumentorServer.java:212-213 | a second request for a class leaves the agent waiting for a message nobody sends |
| Conversation.RepeatedReplyIsEnd | instrumenter/src/main/java/cz/cuni/mff/d3s/distrace/instrumentation/InstrumentorServer.java:207-221 | what the server answers to a second request for a class is the end of its first answer, or nothing for an ignored class, and changes nothing |
| Conversation.BadRequestEndsServer | instrumenter/src/main/java/cz/cuni/mff/d3s/distrace/instrumentation/InstrumentorServer.java:63-76 | a request that is empty or of no known kind ends the server, which changes nothing and reads nothing more |
| Conversation.WrongAnswersFail | agent/src/main/cpp/InstrumentorAPI.cpp:166-186 | a wrong acknowledgement or verdict ends the agent, which keeps what it had and reads nothing more |
| Conversation.OnlyAnnouncedIsKept | agent/src/main/cpp/InstrumentorAPI.cpp:447-449 | of more bytes than were announced just as many are kept, for each of the five things received that way |
| Conversation.FirstReplyIsRead | agent/src/main/cpp/InstrumentorAPI.cpp:166-259 | the reply to a first request is read completely, every message as what it is, and the caches agree afterwards |
| Conversation.InstrumentDelivers | agent/src/main/cpp/InstrumentorAPI.cpp:86-102 | what a first request that transforms the class leaves with the agent, and that it leaves everything else alone: the code; on disk the auxiliary classes, the interceptors that came along and the class, with the bytes written last; the initializers in the order of the leaves; and each of their interceptors defined for the loader of the call with the bytes of the server |
| Conversation.StepKeepsAligned | agent/src/main/cpp/InstrumentorAPI.cpp:86-259 | every step of either process keeps the two sides aligned |
| ConversationRuns.RunKeepsAligned | agent/src/main/cpp/InstrumentorAPI.cpp:86-380 | every run that asks for no class twice and only for classes with known interceptors keeps them aligned |
| ConversationRuns.RunKeepsInv | agent/src/main/cpp/InstrumentorAPI.cpp:86-380 | every run at all, with classes asked for again and interceptors without code, keeps them aligned as long as the requests can be met and from the first other one on has the agent waiting inside a reply |
| Conversation.FeedAux | agent/src/main/cpp/InstrumentorAPI.cpp:191-209 | the auxiliary classes of a reply are read to their end marker, for any number of them |
| Conversation.FeedLeaves | agent/src/main/cpp/InstrumentorAPI.cpp:212-259 | the initializers of a reply are read to their end marker, with the interceptor's code exactly when it has not been sent before |
| Conversation.FeedPrep | agent/src/main/cpp/InstrumentorAPI.cpp:324-339 | the helper classes are read to the last one |
| Conversation.ClassesSaved | agent/src/main/cpp/InstrumentorAPI.cpp:191-209 | every class received this way is on the ignored list and on disk with the bytes that came last for its name, and nothing else changes |
| Conversation.LeavesSave | agent/src/main/cpp/InstrumentorAPI.cpp:231-245 | the interceptors that come along, those not known before and each once, are on disk, on the ignored list and in the cache |
| Conversation.LeavesDefine | agent/src/main/cpp/InstrumentorAPI.cpp:246-258 | after the initializers of a class every interceptor of theirs has been defined for the loader of the call |
| Conversation.LeavesFrame | agent/src/main/cpp/InstrumentorAPI.cpp:212-259 | initializers of other classes and everything else stays as it was, and definitions are only added |
| RequestEffects.RequestsTakeEffect | agent/src/main/cpp/InstrumentorAPI.cpp:86-392 | every run, every request of the five kinds, with both sides and the channels moving in any order: once the agent has come to its end the request has had exactly its effect on the stores of both sides, which for a check is the answer whether the class is cached, registered or loadable, for a registration that the first code stays, for the helper classes that all are ignored and on disk |
| RequestEffects.RequestIsUnderway | agent/src/main/cpp/InstrumentorAPI.cpp:86-392 | and until then it has not been sent in full, or has had its effect once what is under way arrives, or is a request to instrument whose reply is never read to its end |
| RequestEffects.StepIsUnderway | agent/src/main/cpp/InstrumentorAPI.cpp:86-392 | whichever side moves keeps this |
| Conversation.LeavesKeepAgreement | agent/src/main/cpp/InstrumentorAPI.cpp:231-259 | reading initializers keeps the interceptor caches equal and defines no interceptor twice per loader |
| Conversation.LeavesStoreInitializers | agent/src/main/cpp/InstrumentorAPI.cpp:212-229 | the serialized initializers are appended under the class name in order |
| InstrumentorServerObject.InstrumentorServer.Serve | instrumenter/src/main/java/cz/cuni/mff/d3s/distrace/instrumentation/InstrumentorServer.java:59-86 | the request loop reads and sends exactly what the modelled server process does, until it stops, throws or waits |
| InstrumentorServerObject.InstrumentorServer.OneRequest | instrumenter/src/main/java/cz/cuni/mff/d3s/distrace/instrumentation/InstrumentorServer.java:63-76 | one round: acknowledge, then stop or dispatch |
| InstrumentorServerObject.InstrumentorServer.HandleRequest | instrumenter/src/main/java/cz/cuni/mff/d3s/distrace/instrumentation/InstrumentorServer.java:254-271 | dispatch by request type, with the exception for an unknown one |
| InstrumentorServerObject.InstrumentorServer.HandleInstrument | instrumenter/src/main/java/cz/cuni/mff/d3s/distrace/instrumentation/InstrumentorServer.java:207-221 | what is sent and cached for a cached, an ignored and a newly transformed class, and for the exception |
| InstrumentorServerObject.InstrumentorServer.HandleHasClassCheck | instrumenter/src/main/java/cz/cuni/mff/d3s/distrace/instrumentation/InstrumentorServer.java:139-166 | yes exactly for a cached, registered or loadable class |
| InstrumentorServerObject.InstrumentorServer.HandleRegisterByteCode | instrumenter/src/main/java/cz/cuni/mff/d3s/distrace/instrumentation/InstrumentorClassLoader.java:28-32 | the first byte code registered for a name stays |
| InstrumentorServerObject.InstrumentorServer.HandleSentPrepClasses | instrumenter/src/main/java/cz/cuni/mff/d3s/distrace/instrumentation/InstrumentorServer.java:185-205 | the count and then every helper class |
| InstrumentorServerObject.InstrumentorServer.SendByteCodeToAgent | instrumenter/src/main/java/cz/cuni/mff/d3s/distrace/instrumentation/InstrumentorServer.java:243-248 | length and code, or nothing for an ignored class |
| InstrumentorServerObject.InstrumentorServer.HandleLoadedTypeInitializers | instrumenter/src/main/java/cz/cuni/mff/d3s/distrace/instrumentation/BaseAgentBuilder.java:91-134 | a nested initializer tree is sent as its leaves from left to right, interceptor code only the first time, up to an interceptor without known code |
| InstrumentorServerObject.InstrumentorServer.HandleStaticField | instrumenter/src/main/java/cz/cuni/mff/d3s/distrace/instrumentation/BaseAgentBuilder.java:93-121 | the messages for one leaf and the growth of the sent list |
| InstrumentorServerObject.InstrumentorServer.OnTransformation | instrumenter/src/main/java/cz/cuni/mff/d3s/distrace/instrumentation/BaseAgentBuilder.java:145-162 | auxiliary classes, end marker, initializers, end marker and verdict, in this order |
| InstrumentorServerObject.InstrumentorServer.OnIgnored | instrumenter/src/main/java/cz/cuni/mff/d3s/distrace/instrumentation/BaseAgentBuilder.java:165-170 | the three messages for an ignored class |
| InstrumentorServerObject.InstrumentorServer.SendAuxiliaryTypes | instrumenter/src/main/java/cz/cuni/mff/d3s/distrace/instrumentation/BaseAgentBuilder.java:147-153 | every auxiliary class with its marker |
| InstrumentorApiObject.InstrumentorApi.Instrument | agent/src/main/cpp/InstrumentorAPI.cpp:86-102 | the nested receive loops read a reply exactly as the modelled agent process, return the code it carried, and otherwise wait for ever or throw |
| InstrumentorApiObject.InstrumentorApi.LoadAuxiliaryClasses | agent/src/main/cpp/InstrumentorAPI.cpp:191-209 | the loop over auxiliary classes is that part of the process |
| InstrumentorApiObject.InstrumentorApi.LoadInitializers | agent/src/main/cpp/InstrumentorAPI.cpp:212-229 | the loop over initializers is that part of the process |
| InstrumentorApiObject.InstrumentorApi.LoadInterceptor | agent/src/main/cpp/InstrumentorAPI.cpp:231-259 | receiving an interceptor, or only its name, and defining it |
| InstrumentorApiObject.InstrumentorApi.DefineClass | agent/src/main/cpp/InstrumentorAPI.cpp:249-258 | an interceptor is defined exactly if this loader was not given it before |
| InstrumentorApiObject.InstrumentorApi.KeepInitializer | agent/src/main/cpp/InstrumentorAPI.cpp:225-226 | the initializer is appended to those of the class |
| InstrumentorApiObject.InstrumentorApi.LoadPrepClasses | agent/src/main/cpp/InstrumentorAPI.cpp:324-339 | the counted loop over helper classes is that part of the process |
| InstrumentorApiObject.InstrumentorApi.ReceiveAnswer | agent/src/main/cpp/InstrumentorAPI.cpp:366-380 | the answer about a class, which enters the cache exactly when it is yes |
| InstrumentorApiObject.InstrumentorApi.ReceiveVerdict | agent/src/main/cpp/InstrumentorAPI.cpp:177-187 | yes, no, or an exception for anything else |
| Dependencies.DependencyLoader.LoadDependencies | agent/src/main/cpp/InstrumentorAPI.cpp:62-84 | on every finite, possibly cyclic reference graph the walk ends; no reference of the root or of a newly sent class is left to send, each class sent was needed when its turn came, and all are reachable from the root |
| Dependencies.DependencyLoader.LoadReference | agent/src/main/cpp/InstrumentorAPI.cpp:68-80 | one reference: afterwards it is on the server, ignored or without byte code |
| Dependencies.DependencyLoader.IsClassOnInstrumentor | agent/src/main/cpp/InstrumentorAPI.cpp:366-392 | the cached answer is the one the server would give |
| Dependencies.DependencyLoader.SendClassData | agent/src/main/cpp/InstrumentorAPI.cpp:341-351 | the server gets the byte code and the cache the name |
| Dependencies.DependencyLoader.SendReferencedClass | agent/src/main/cpp/InstrumentorAPI.cpp:353-364 | sent if and only if byte code can be had |
| Dependencies.SentExactlyWhatIsReachable | agent/src/main/cpp/InstrumentorAPI.cpp:62-84 | the classes sent are exactly those that references reach through classes the server lacked |
| Dependencies.SentOnceIsDistinct | agent/src/main/cpp/InstrumentorAPI.cpp:62-84 | no class is sent twice, however its name is written, and none the server had |
| Dependencies.SentCodeArrives | agent/src/main/cpp/InstrumentorAPI.cpp:341-364 | afterwards the server has, for each class sent, the byte code that could be had of it, and what it had before is as it was |
| Dependencies.NoLibraryClassIsSent | agent/src/main/cpp/InstrumentorAPI.cpp:398-405 | no class whose name starts with java/ or sun/ is sent |
| ClassReferences.AllRefsAreReferences | agent/src/main/cpp/bytecode/ClassParser.cpp:142-161 | for every class file that can be read: the set that the walk goes over holds exactly the superclass, the interfaces, the classes of plain object fields, and the classes of method descriptors |
| ClassReferences.AllRefsAreSeen | agent/src/main/cpp/bytecode/ClassParser.cpp:142-161 | and for every file parsed to its end, parentheses in descriptors or not, exactly these and what is taken for the class of a result |
| ClassReferences.SentExactlyWhatFilesReferTo | agent/src/main/cpp/InstrumentorAPI.cpp:62-84 | where the byte code is that of class files, the walk from a class file sends exactly the classes that chains of such references lead to through classes the server lacked |
| ClassReferences.PathsThroughFiles | agent/src/main/cpp/InstrumentorAPI.cpp:62-84 | the chains of references between byte codes are the chains of references between the class files they encode |
| Dependencies.SendingShrinks | agent/src/main/cpp/InstrumentorAPI.cpp:62-84 | every class sent makes the set of classes that can still be sent smaller |
| AgentDriver.AgentCallbacks.ClassFileLoadHook | agent/src/main/cpp/AgentCallbacks.cpp:15-46 | which classes are handled, that the server has such a class and what it refers to when it is asked for, both sides afterwards, and that the call ends exactly when the server can instrument the class |
| AgentDriver.AgentCallbacks.Prepare | agent/src/main/cpp/AgentCallbacks.cpp:35-38 | when a class is asked for the server has it, and if it was new nothing it refers to is left to send |
| AgentDriver.AgentCallbacks.Run | agent/src/main/cpp/AgentCallbacks.cpp:15-46 | every run of class loads does what their replay says: the same classes are handled, in order and up to the first that blocks, and it comes to its end exactly when no two of them have one name and the server can instrument each |
| AgentDriver.FinishesIffNamesDiffer | agent/src/main/cpp/AgentCallbacks.cpp:15-46 | every replay of class loads comes to its end exactly when no class name is handled twice and the server can instrument every class that is handled |
| AgentDriver.LoadsFinishIffNamesDiffer | agent/src/main/cpp/AgentCallbacks.cpp:15-46 | the same condition on the class loads alone, for classes that are never ignored for their names |
| AgentDriver.ReplayInstruments | agent/src/main/cpp/AgentCallbacks.cpp:15-46 | every replay: the results of the agent are those of the server, namely those there were and, for every class whose reply was read to its end, what the transformer makes of it |
| AgentDriver.HandledAreWanted | agent/src/main/cpp/AgentCallbacks.cpp:26-45 | every class handled came from a loader other than the two that are left out and was not on the ignored list |
| AgentDriver.HandledAreAll | agent/src/main/cpp/AgentCallbacks.cpp:26-45 | where no class is ignored for its name, a replay that comes to its end has handled every class of the other loaders, in order |
| AgentDriver.NothingBeforeStart | agent/src/main/cpp/AgentCallbacks.cpp:23-25 | before the virtual machine has started nothing is handled and nothing changes |
| AgentDriver.SecondLoaderBlocks | agent/src/main/cpp/AgentCallbacks.cpp:31-40 | a class of the same name from a second loader blocks the agent |
| AgentDriver.MainFromTwoLoaders | agent/src/main/cpp/AgentCallbacks.cpp:31-40 | an instance of this right after the start |
| AgentDriver.MainWithUnknownInterceptor | instrumenter/src/main/java/cz/cuni/mff/d3s/distrace/instrumentation/BaseAgentBuilder.java:103-110 | an instance: the first class loaded, with an interceptor that the server has no code of, blocks the agent |
| AgentDriver.AskedFinishesIffNew | instrumenter/src/main/java/cz/cuni/mff/d3s/distrace/instrumentation/InstrumentorServer.java:207-221 | one request is read to its end exactly when the server can instrument the class, and the caches agree then |
| AgentDriver.AgentCallbacks.VMInit | agent/src/main/cpp/AgentCallbacks.cpp:49-54 | the helper classes are ignored from the start of the virtual machine |
| ClassFileEncoding.ParseInvertsEncode | agent/src/main/cpp/bytecode/ClassParser.cpp:149-183 | every class file whose two-byte numbers fit two bytes is read back from its bytes, with names, interfaces, field and method references and the position behind the methods, exactly if its flags are allowed, pool slots, text lengths and counts are below 32768, and no class name in a method descriptor that is looked at holds a parenthesis; the name alone exactly if this holds of flags, pool and texts |
| ClassFileEncoding.ParseOfEncode | agent/src/main/cpp/bytecode/ClassParser.cpp:149-183 | what the parse of every such file comes to: the structure with the references that are seen, the exception about the flags, a number taken for a negative length, or a descriptor whose scan never ends, whichever is first |
| ClassFileEncoding.HeaderFails | agent/src/main/cpp/bytecode/ConstantPool.cpp:14-37 | a pool too large, or a text in it, ends the parse |
| ClassFileEncoding.EntriesFail | agent/src/main/cpp/utils/ByteReader.cpp:67-75 | the first text of 32768 bytes or more ends the reading of the pool |
| ClassFileEncoding.MemberFails | agent/src/main/cpp/bytecode/FieldOrMethod.cpp:10-21 | 32768 attributes or more end the parse |
| ClassFileEncoding.MembersAreRead | agent/src/main/cpp/bytecode/ClassParser.cpp:64-140 | what reading interfaces, fields and methods comes to: the references seen and the position behind them, or the first count of 32768 or more, or the first descriptor whose scan never ends |
| ClassFileEncoding.RejectsExactlyFinalAndAbstract | agent/src/main/cpp/bytecode/ClassParser.cpp:37-62 | of the files with a readable pool exactly those that are final and also abstract or an interface are rejected for it |
| ClassFileEncoding.FlagBits | agent/src/main/cpp/bytecode/ClassParser.cpp:37-62 | the flags are the bits of table 4.1-B of the JVM Specification |
| ClassFileEncoding.TagsOfTheSpecification | agent/src/main/cpp/bytecode/Constant.cpp:33-67 | tags, sizes and slots of the constants are those of section 4.4 of the JVM Specification, and there are no other tags |
| ClassFileEncoding.UnknownTagEndsReading | agent/src/main/cpp/bytecode/Constant.cpp:33-67 | exactly the other tags end the reading with that exception |
| ClassFileEncoding.MagicBytes | agent/src/main/cpp/bytecode/ClassParser.cpp:15-35 | the header is accepted exactly if the file starts with the four bytes of the magic number |
| ClassFileEncoding.LargePoolIsRejected | agent/src/main/cpp/bytecode/ConstantPool.cpp:14-16 | a pool of 32768 or more slots is never read, whatever follows, because counts are read as signed numbers |
| ClassFileEncoding.ShortIsSigned | agent/src/main/cpp/utils/ByteReader.cpp:21-25 | a two-byte number is read as a signed one |
| ClassFileEncoding.EntryIsInItsSlot | agent/src/main/cpp/bytecode/ConstantPool.cpp:21-36 | every constant is found in its slot, however many two-slot constants precede it |
| ClassFileEncoding.EntryIsRead | agent/src/main/cpp/bytecode/Constant.cpp:33-67 | a constant of any of the fourteen kinds is read with its exact length |
| ClassFileEncoding.PoolIsRead | agent/src/main/cpp/bytecode/ConstantPool.cpp:14-37 | the whole pool is read and its end found |
| ClassFileEncoding.TableResolves | agent/src/main/cpp/bytecode/ConstantPool.cpp:39-87 | looking up a class or text constant by its slot gives what it stands for |
| ClassFileEncoding.LookupOutcome | agent/src/main/cpp/bytecode/ConstantPool.cpp:39-58 | for every pool, index and tag: invalid exactly outside the slots, null exactly in slots that no entry begins, a wrong tag exactly for entries of another one, and the entry otherwise |
| ClassFileEncoding.HeaderIsRead | agent/src/main/cpp/bytecode/ClassParser.cpp:149-153 | magic number, versions, pool and class names are read |
| ClassFileEncoding.AttributesAreRead | agent/src/main/cpp/bytecode/Attribute.cpp:17-39 | attributes of any content are skipped by exactly their length |
| ClassFileEncoding.MemberIsRead | agent/src/main/cpp/bytecode/FieldOrMethod.cpp:10-27 | a field or method is read to its end and its signature found |
| ClassFileEncoding.FieldsAreRead | agent/src/main/cpp/bytecode/ClassParser.cpp:94-104 | the class names of fields of a plain object type, and only these, are collected |
| ClassFileEncoding.MethodsAreRead | agent/src/main/cpp/bytecode/ClassParser.cpp:123-140 | what reading the methods comes to, up to the first that ends it: of each descriptor the class names of parameters, array elements and what is taken for the result |
| ClassFileEncoding.CollectedExactlyWhenReadable | agent/src/main/cpp/bytecode/ClassParser.cpp:123-140 | over all methods of a file: the class names of parameters, array elements and plain object results, and only these, are collected exactly if no class name that matters holds a parenthesis, so no method makes up for another |
| ClassFileEncoding.InterfacesAreRead | agent/src/main/cpp/bytecode/ClassParser.cpp:64-74 | the names of all interfaces are collected |
| ClassFileParsing.JustNameAgrees | agent/src/main/cpp/bytecode/ClassParser.cpp:173-183 | on any bytes: the name alone agrees with the full parse, and where it fails the full parse fails alike |
| ClassParserObject.ClassParser.Parse | agent/src/main/cpp/bytecode/ClassParser.cpp:149-162 | the object reads what the specification reads, and collects all references; the same errors |
| ClassParserObject.ClassParser.ParseJustName | agent/src/main/cpp/bytecode/ClassParser.cpp:173-183 | the name, or the same error |
| ClassParserObject.ClassParser.ReadClassInfo | agent/src/main/cpp/bytecode/ClassParser.cpp:37-62 | flags, class name and superclass name, with the exception |
| ClassParserObject.ClassParser.ReadInterfaces | agent/src/main/cpp/bytecode/ClassParser.cpp:64-74 | the interface loop reads what the specification reads |
| ClassParserObject.ClassParser.ReadFields | agent/src/main/cpp/bytecode/ClassParser.cpp:94-104 | the field loop reads what the specification reads |
| ClassParserObject.ClassParser.ReadMethods | agent/src/main/cpp/bytecode/ClassParser.cpp:123-140 | the method loop reads what the specification reads |
| ClassParserObject.ReadPool | agent/src/main/cpp/bytecode/ConstantPool.cpp:14-37 | the loop with its extra index step fills the specified table |
| ClassParserObject.ReadConstant | agent/src/main/cpp/bytecode/Constant.cpp:33-67 | dispatch by tag, with the exception for an invalid one |
| ClassParserObject.ReadAttribute | agent/src/main/cpp/bytecode/Attribute.cpp:17-39 | one attribute is skipped by its signed length |
| ClassParserObject.ReadMember | agent/src/main/cpp/bytecode/FieldOrMethod.cpp:10-27 | a field or method and its signature |
| ByteReading.ByteReader.ReadUTF | agent/src/main/cpp/utils/ByteReader.cpp:67-127 | text is decoded and cut at NUL as specified, for any bytes, with every error |
| ByteReading.DecodeArray | agent/src/main/cpp/utils/ByteReader.cpp:67-127 | the two loops end on every input and never write past an output as long as the input |
| ByteReading.DecodeUnitAt | agent/src/main/cpp/utils/ByteReader.cpp:84-124 | the switch over the first byte, with masks and shifts, is the specified decoding |
| ByteReading.ByteReader.ReadShort | agent/src/main/cpp/utils/ByteReader.cpp:21-25 | big-endian, signed |
| ByteReading.ByteReader.ReadInt | agent/src/main/cpp/utils/ByteReader.cpp:15-19 | big-endian, signed |
| ByteReading.ByteReader.ReadFully | agent/src/main/cpp/utils/ByteReader.cpp:61-65 | exactly the next bytes, if there are enough |
| ByteReading.DecodeInvertsEncode | agent/src/main/cpp/utils/ByteReader.cpp:67-127 | decoding inverts the encoding of every text of 16-bit units, each narrowed to eight bits |
| ByteReading.DecodesExactlyPieces | agent/src/main/cpp/utils/ByteReader.cpp:67-127 | any bytes: they are decoded exactly if they consist of characters of one, two or three bytes with their continuation bytes, each then one unit narrowed to eight bits |
| ByteReading.FirstBrokenEndsDecoding | agent/src/main/cpp/utils/ByteReader.cpp:81-127 | what is said of every other text: the first bytes that begin no character tell which exception and around which byte |
| ByteReading.LengthDecides | agent/src/main/cpp/utils/ByteReader.cpp:67-77 | the length in front of a text: too large a one is negative, more than the file has is out of bounds, and otherwise exactly that many bytes are decoded and cut at NUL |
| ByteReading.ShownExactly | agent/src/main/cpp/utils/ByteReader.cpp:67-127 | a text comes back unchanged exactly when every unit is between 1 and 255 |
| Descriptors.CollectsExactlyWithoutParentheses | agent/src/main/cpp/bytecode/ClassParser.cpp:77-140 | for every well-formed method descriptor: the right classes are collected exactly when no class name that matters holds a parenthesis |
| Descriptors.MethodRefsOfAnyText | agent/src/main/cpp/bytecode/ClassParser.cpp:93-140 | on every text, a descriptor or not: exactly when the scan never ends and exactly when a piece is missing |
| Descriptors.MethodRefsAre | agent/src/main/cpp/bytecode/ClassParser.cpp:123-140 | on every well-formed descriptor, with parentheses or without: what is collected, or that the scan never ends |
| Descriptors.ParenthesisIsNeverScanned | agent/src/main/cpp/bytecode/ClassParser.cpp:106-121 | an instance: the scan of a parameter of a class named ( never ends |
| Descriptors.MethodRefsOfDescriptor | agent/src/main/cpp/bytecode/ClassParser.cpp:123-140 | then the classes of parameters, of array elements and of a plain object result are added, and nothing else |
| Descriptors.ScanHalts | agent/src/main/cpp/bytecode/ClassParser.cpp:106-121 | on any text the scan ends exactly when no L comes after the last semicolon |
| Descriptors.ScanParams | agent/src/main/cpp/bytecode/ClassParser.cpp:106-121 | on every list of types the scan collects exactly the classes of objects and array elements |
| Descriptors.ParseAndSaveArguments | agent/src/main/cpp/bytecode/ClassParser.cpp:106-121 | the loop collects what the specification of the scan says, and reports where it would never end |
| Descriptors.TypeNameOf | agent/src/main/cpp/bytecode/ClassParser.cpp:77-84 | only a plain object type gives a class name |
| Descriptors.SplitString | agent/src/main/cpp/utils/Utils.cpp:15-39 | the loop gives the pieces between delimiters, without the empty ones if asked for |
| Descriptors.JoinTokens | agent/src/main/cpp/utils/Utils.cpp:41-50 | the loop joins the tokens |
| Descriptors.JoinOfSplit | agent/src/main/cpp/utils/Utils.cpp:15-50 | joining what was split at a character gives the text back |
| Descriptors.SplitOfJoin | agent/src/main/cpp/utils/Utils.cpp:15-50 | splitting what was joined gives the tokens back when none holds the character |
| DigitCount.CountDigits64 | agent/include/spdlog/fmt/bundled/format.h:990-996 | the shift-and-table count is the number of decimal digits of every 64-bit number, and the table has the entry |
| DigitCount.CountDigits32 | agent/include/spdlog/fmt/bundled/format.h:1019-1023 | the same for every 32-bit number |
| DigitCount.CountDigitsByFour | agent/include/spdlog/fmt/bundled/format.h:999-1016 | the fallback loop counts the same |
| DigitCount.ApproximationIsClose | agent/include/spdlog/fmt/bundled/format.h:994 | the shifted product is off by at most one digit between any two powers of two |
| DigitCount.Between | agent/include/spdlog/fmt/bundled/format.cc:282-295 | the table's powers of ten lie between the right powers of two |
| IntFormat.FormatDecimal | agent/include/spdlog/fmt/bundled/format.h:1059-1085 | fills exactly the place of the grouped numeral, to the left of the given end, and changes nothing else |
| IntFormat.EmitIsGrouped | agent/include/spdlog/fmt/bundled/format.h:1045-1053 | what is written digit by digit is the numeral in groups of three from the right |
| IntFormat.GroupedLength | agent/include/spdlog/fmt/bundled/format.h:3298-3310 | the length is the digits plus one separator for every three digits after the first three |
| IntFormat.GroupsReadBack | agent/include/spdlog/fmt/bundled/format.h:1034-1053 | without the separators the text is the numeral |
| IntFormat.GroupedWithout | agent/include/spdlog/fmt/bundled/format.h:1026-1031 | an empty separator adds nothing |
| IntFormat.PutSeparator | agent/include/spdlog/fmt/bundled/format.h:1045-1053 | a separator is put in exactly after every third digit |
| Decimal.NoLeadingZero | agent/include/spdlog/fmt/bundled/format.h:1059-1085 | only the numeral of 0 starts with a zero |
| Decimal.ValueOfNumeral | agent/include/spdlog/fmt/bundled/format.h:1059-1085 | the numeral stands for its number |
| IntWriter.BasicWriter.WriteInt | agent/include/spdlog/fmt/bundled/format.h:3198-3317 | appends exactly sign, prefix, digits, padding and alignment of the number in every base, unless the place of the digits is lost, and then everything but the digits, whose place holds what the memory held; nothing for an unknown type |
| IntReading.IntIsReadBack | agent/include/spdlog/fmt/bundled/format.h:3198-3317 | for every number and every format whose fill can be told from a number: a reader of its own for fill, sign, base prefix and digits gives the number back from the text |
| IntReading.TextsDiffer | agent/include/spdlog/fmt/bundled/format.h:3198-3317 | so different numbers have different texts |
| IntReading.SignIsShown | agent/include/spdlog/fmt/bundled/format.h:3205-3215 | the number starts with a minus exactly if it is negative, with a plus or a blank exactly if it is not and the format asks for it |
| IntReading.LettersHaveTheCase | agent/include/spdlog/fmt/bundled/format.h:3234-3253 | the letters of a hexadecimal number have the case of the type letter |
| IntReading.PlainTextsDifferIff | agent/include/spdlog/fmt/bundled/format.h:3156-3196 | for every format of plain decimal numbers: different numbers have different texts exactly if the fill is not a digit that could be one of the number or a minus that could be its sign |
| IntWriter.PlaceIsKept | agent/include/spdlog/fmt/bundled/format.h:3134-3155 | the place is kept in an empty buffer, and in one with room for the field |
| IntWriter.FullBufferLosesPlace | agent/include/spdlog/fmt/bundled/format.h:3143-3155 | a full buffer loses it for a whole family of fields |
| IntWriter.LostAfter495Characters | agent/include/spdlog/fmt/bundled/format.h:635 | a new buffer with 495 characters loses the 7 of %-10.3d |
| IntWriter.LosesSeven | agent/include/spdlog/fmt/bundled/format.h:3143-3155 | and its text is then wrong, unless the memory held a 7 by chance |
| IntWriter.TextIsRight | agent/include/spdlog/fmt/bundled/format.h:3198-3317 | the text is right exactly if the digits are in their place |
| IntWriter.BasicWriter.Grow | agent/include/spdlog/fmt/bundled/format.h:825-844 | the text moves to larger storage of the stated capacity |
| IntWriter.BasicWriter.Reserve | agent/include/spdlog/fmt/bundled/format.h:710-714 | reserving bounds the capacity, not the room behind the text |
| IntWriter.BasicWriter.GrowBuffer | agent/include/spdlog/fmt/bundled/format.h:2766-2771 | room behind the text, in the same storage exactly if the capacity was enough |
| IntWriter.BasicWriter.PrepareIntBuffer | agent/include/spdlog/fmt/bundled/format.h:3121-3196 | prefix, zeros and fill are in place for every alignment with and without precision; the returned place is in the storage of the buffer exactly if no fill for left alignment, appended after it was determined, made the buffer move |
| IntWriter.BasicWriter.WriteDecimal | agent/include/spdlog/fmt/bundled/format.h:3219-3226 | decimal digits with or without separators, with the same condition |
| IntWriter.BasicWriter.WriteBase | agent/include/spdlog/fmt/bundled/format.h:3227-3297 | digits in base 16, 2 or 8, with the same condition |
| IntWriter.WriteShifted | agent/include/spdlog/fmt/bundled/format.h:3240-3253 | the loop over masked digits writes the number in its base |
| IntWriter.LayoutPlaces | agent/include/spdlog/fmt/bundled/format.h:3156-3196 | where the number stands in a wider field for each alignment |
| IntWriter.LayoutPrecision | agent/include/spdlog/fmt/bundled/format.h:3131-3155 | zeros up to the precision, in place of an octal prefix, and fill on one side |
| IntWriter.LayoutLength | agent/include/spdlog/fmt/bundled/format.h:3121-3196 | the text is as wide as asked for, or as long as the number |
| IntWriter.AbsoluteValue | agent/include/spdlog/fmt/bundled/format.h:3203-3210 | wrapping conversion and negation give the absolute value, the least number included |
| Positional.ValueOfDigits | agent/include/spdlog/fmt/bundled/format.h:3227-3297 | digits in any base read back as their number |
| JsonGrammar.WrittenIsJsonWithoutEmptyContainers | instrumenter/src/main/java/cz/cuni/mff/d3s/distrace/json/JSONObject.java:100-110 | for every value whose numbers have the texts of numbers, as the constructors of values see to: the text written is JSON exactly when no container in it is empty |
| JsonGrammar.WrittenReadsBack | instrumenter/src/main/java/cz/cuni/mff/d3s/distrace/json/JSONObject.java:100-110 | for every value: its text parses back to the same value, numbers unit by unit, exactly when no container in it is empty and its numbers have the texts of numbers |
| JsonGrammar.IntIsNumber | instrumenter/src/main/java/cz/cuni/mff/d3s/distrace/json/JSON.java:23-33 | every integer is written as a JSON number |
| JsonGrammar.FractionIsNumber | instrumenter/src/main/java/cz/cuni/mff/d3s/distrace/json/JSON.java:35-47 | and so is every finite floating-point number, with or without an exponent, in the form the standard library prints |
| JsonGrammar.NumberIsParsed | instrumenter/src/main/java/cz/cuni/mff/d3s/distrace/json/JSONNumber.java:9-19 | the text of a number is taken as that number whatever may follow a value |
| JsonGrammar.ParsedNumbersOk | instrumenter/src/main/java/cz/cuni/mff/d3s/distrace/json/JSONNumber.java:9-19 | the numbers of every value read have the texts of numbers |
| JsonGrammar.ValueIsRead | instrumenter/src/main/java/cz/cuni/mff/d3s/distrace/json/JSONArray.java:64-72 | a value without empty containers is read back with members and elements in order, whatever follows it |
| JsonGrammar.TextBalance | instrumenter/src/main/java/cz/cuni/mff/d3s/distrace/json/JSONObject.java:100-110 | every empty container leaves one closing bracket too many |
| JsonGrammar.ParsedIsBalanced | instrumenter/src/main/java/cz/cuni/mff/d3s/distrace/json/JSONObject.java:100-110 | whatever the grammar accepts is balanced |
| JsonGrammar.ArrayTextIs | instrumenter/src/main/java/cz/cuni/mff/d3s/distrace/json/JSONArray.java:64-72 | the character removed before the closing bracket is the last separator, or the opening bracket of an empty array |
| JsonGrammar.ObjectTextIs | instrumenter/src/main/java/cz/cuni/mff/d3s/distrace/json/JSONObject.java:100-110 | the same for objects |
| JsonGrammar.ArrayIsWritten | instrumenter/src/main/java/cz/cuni/mff/d3s/distrace/json/JSONArray.java:64-72 | an instance unit by unit |
| JsonGrammar.ObjectIsWritten | instrumenter/src/main/java/cz/cuni/mff/d3s/distrace/json/JSONObject.java:100-110 | an instance with escapes, unit by unit |
| Json.JSONStringBuilder.Write | instrumenter/src/main/java/cz/cuni/mff/d3s/distrace/json/JSONStringBuilder.java:19-76 | the recursive writer appends exactly the text of the value |
| Json.JSONStringBuilder.WriteArray | instrumenter/src/main/java/cz/cuni/mff/d3s/distrace/json/JSONArray.java:64-72 | the array loop with the removal of the trailing character |
| Json.JSONStringBuilder.WriteObject | instrumenter/src/main/java/cz/cuni/mff/d3s/distrace/json/JSONObject.java:100-110 | the object loop with the removal of the trailing character |
| Json.JSONStringBuilder.RemoveSingleTrailingChar | instrumenter/src/main/java/cz/cuni/mff/d3s/distrace/json/JSONStringBuilder.java:49-52 | the last character, whatever it is, is removed |
| Json.JSONObject.Add | instrumenter/src/main/java/cz/cuni/mff/d3s/distrace/json/JSONObject.java:94-97 | a new name goes to the end, a known one keeps its place |
| Json.JSONObject.AddIfNotEmpty | instrumenter/src/main/java/cz/cuni/mff/d3s/distrace/json/JSONObject.java:58-63 | an empty array is not added |
| Json.PutKeepsOrder | instrumenter/src/main/java/cz/cuni/mff/d3s/distrace/json/JSONObject.java:94-97 | names stay distinct and in the order of their first appearance |
| JsonText.JsonEscaped | instrumenter/src/main/java/cz/cuni/mff/d3s/distrace/json/JSONStringBuilder.java:118-150 | copying runs gives the text escaped unit by unit |
| JsonText.EscapedIsRead | instrumenter/src/main/java/cz/cuni/mff/d3s/distrace/json/JSONStringBuilder.java:93-150 | reading the escaped form of any string gives the string back |
| JsonText.EscapedIsClean | instrumenter/src/main/java/cz/cuni/mff/d3s/distrace/json/JSONStringBuilder.java:83-107 | no unescaped quotation mark, no control character and neither of the two separators is left |
| JsonText.EscapesByUnit | instrumenter/src/main/java/cz/cuni/mff/d3s/distrace/json/JSONStringBuilder.java:93-111 | which units have the short escapes of RFC 7159, which are written with four digits, and that all others stand for themselves |
| JsonText.EscapedInjective | instrumenter/src/main/java/cz/cuni/mff/d3s/distrace/json/JSONStringBuilder.java:93-150 | different strings have different escaped forms |
| RotatingSink.FilesHoldSuffix | agent/include/spdlog/sinks/file_sinks.h:79-129 | after every run of writes: what was there and all that was written is the whole oldest files that were driven out, one per rotation, and then the files from the oldest to file 0; file 0 is past the limit only with the last message alone in it |
| RotatingSink.NothingLostWithinLimit | agent/include/spdlog/sinks/file_sinks.h:79-88 | no file is driven out while everything fits into file 0 |
| RotatingSink.SinkItKeeps | agent/include/spdlog/sinks/file_sinks.h:79-88 | one write appends the message and loses the oldest file exactly when it rotates; the recorded size is that of file 0 |
| RotatingSink.RotationDropsOldest | agent/include/spdlog/sinks/file_sinks.h:101-129 | a rotation empties file 0 and loses nothing but the oldest file |
| RotatingSink.RotatedContent | agent/include/spdlog/sinks/file_sinks.h:107-129 | each file takes the place of the next |
| RotatingSink.OthersStay | agent/include/spdlog/sinks/file_sinks.h:107-129 | files of other names are not touched |
| RotatingSink.NamesDiffer | agent/include/spdlog/sinks/file_sinks.h:91-99 | different indices have different file names |
| RotatingSink.NameTellsIndex | agent/include/spdlog/sinks/file_sinks.h:91-99 | a file name starts with the base name and a dot and ends with the extension, and has the index in decimal digits and a dot in between exactly if it is not 0 |
| RotatingSink.RotatingFileSink.Rotate | agent/include/spdlog/sinks/file_sinks.h:107-129 | the descending loop of removals and renames is the specified rotation |
| RotatingSink.RotatingFileSink.Log | agent/include/spdlog/sinks/file_sinks.h:79-88 | one write of the object |
| RotatingSink.RotatingFileSink.constructor | agent/include/spdlog/sinks/file_sinks.h:60-69 | the size starts as that of file 0, which is opened for appending |
| Tracing.Contexts.OpenIn | instrumenter/src/main/java/cz/cuni/mff/d3s/distrace/tracing/TraceContext.java:58-69 | nesting in one context changes no other context, and chains stay separate and without cycles |
| Tracing.Contexts.CloseIn | instrumenter/src/main/java/cz/cuni/mff/d3s/distrace/tracing/TraceContext.java:78-84 | closing in one context changes no other and exports its current span |
| Tracing.Contexts.CopyContext | instrumenter/src/main/java/cz/cuni/mff/d3s/distrace/tracing/TraceContext.java:175-177 | a copy shares no span with any context |
| Tracing.Contexts.CreateContext | instrumenter/src/main/java/cz/cuni/mff/d3s/distrace/tracing/TraceContext.java:87-89 | a new context has its trace id and no span |
| Tracing.Contexts.AnnotateIn | instrumenter/src/main/java/cz/cuni/mff/d3s/distrace/tracing/Span.java:290-293 | annotating in one context changes no other |
| Tracing.TraceContext.OpenNestedSpan | instrumenter/src/main/java/cz/cuni/mff/d3s/distrace/tracing/TraceContext.java:58-69 | a new current span of this trace above the old chain |
| Tracing.TraceContext.CloseCurrentSpan | instrumenter/src/main/java/cz/cuni/mff/d3s/distrace/tracing/TraceContext.java:78-84 | exports the current span with the parent's id and goes one up, or fails without a span |
| Tracing.TraceContext.DeepCopy | instrumenter/src/main/java/cz/cuni/mff/d3s/distrace/tracing/TraceContext.java:20-23 | a separate chain of copied spans with the same trace id |
| Tracing.Span.CopyOf | instrumenter/src/main/java/cz/cuni/mff/d3s/distrace/tracing/Span.java:77-91 | every span of the chain is copied |
| Tracing.Span.Top | instrumenter/src/main/java/cz/cuni/mff/d3s/distrace/tracing/Span.java:47-54 | a chain of one span |
| Tracing.Span.Nested | instrumenter/src/main/java/cz/cuni/mff/d3s/distrace/tracing/Span.java:63-70 | a span on top of its parent's chain |
| Tracing.Span.Export | instrumenter/src/main/java/cz/cuni/mff/d3s/distrace/tracing/Span.java:204-224 | the received annotation, the parent's id, and a duration of at least 1 |
| Tracing.CopyMap | instrumenter/src/main/java/cz/cuni/mff/d3s/distrace/tracing/Span.java:467-473 | the loop copies the whole map |
| Tracing.Contexts.NameServiceIn | instrumenter/src/main/java/cz/cuni/mff/d3s/distrace/tracing/Span.java:117-120 | naming the service in one context changes no other |
| Tracing.Contexts.SetEndpointIn | instrumenter/src/main/java/cz/cuni/mff/d3s/distrace/tracing/Span.java:129-137 | nor does setting address and port |
| Tracing.SpanIsExportedWhole | instrumenter/src/main/java/cz/cuni/mff/d3s/distrace/tracing/TraceContext.java:58-84 | in every run a span is exported, whatever was done to it, on top of it and to other contexts, under its name and id with the id of the span it was opened on; with the times of its opening and closing and the time between them, or 1; with the service name, address and annotations it was given last, the two stack traces among them; and the spans above it are as they were |
| Tracing.NewContextsKeepTheirTrace | instrumenter/src/main/java/cz/cuni/mff/d3s/distrace/tracing/TraceContext.java:20-23 | a context keeps the trace id it was created with, and a copy that of its original, whatever is done later |
| Tracing.CopyLosesServiceNames | instrumenter/src/main/java/cz/cuni/mff/d3s/distrace/tracing/Span.java:77-91 | a copied chain is equal to its original exactly if no span was given a service name |
| Tracing.NamedSpanIsCopiedUnnamed | instrumenter/src/main/java/cz/cuni/mff/d3s/distrace/tracing/Span.java:77-91 | in every run in which a span is given a service name and its context is copied later, with any other operations in between and further spans on top of it, the original exports the name and the copy the one that stands for none, and the two exports are equal exactly if that was the name given |
| Tracing.RunsKeepOneTrace | instrumenter/src/main/java/cz/cuni/mff/d3s/distrace/tracing/TraceContext.java:20-84 | in every run all spans of a context carry its trace id |
| Tracing.CopyExportsAlike | instrumenter/src/main/java/cz/cuni/mff/d3s/distrace/tracing/TraceContext.java:20-84 | whatever is done to a copy exports the same trace, span and parent ids as when done to the original |
| Uuid.RebuildInvertsStr | agent/include/sole/sole.hpp:350-367 | the classic form of every identifier is read back, the dashes telling the form |
| Uuid.RebuildInvertsBase62 | agent/include/sole/sole.hpp:369-375 | the base 62 form of every identifier is read back |
| Uuid.RebuildIgnoresCase | agent/include/sole/sole.hpp:733-757 | the classic form of every identifier is read back with capital letters as well |
| Uuid.RebuildOfFields | agent/include/sole/sole.hpp:733-757 | any three or more fields of hexadecimal digits: exactly five numbers that fit 64 bits at the front are joined, everything else gives 0 |
| Uuid.StrangeCountsAsMinusOne | agent/include/sole/sole.hpp:282-292 | a character outside the base does not stop the decoding but counts as minus one |
| Uuid.StrHasForm | agent/include/sole/sole.hpp:350-367 | the classic form has 36 characters, dashes after 8, 12, 16 and 20 lower-case hexadecimal digits, and the digits are the 128-bit number of the two words |
| Uuid.Base62Ascends | agent/include/sole/sole.hpp:369-375 | the 62 digits are all digits and letters in ascending order |
| Uuid.RebaseRoundTrip | agent/include/sole/sole.hpp:271-292 | decoding inverts encoding for every 64-bit number and every table of different digits |
| Uuid.DecodedIsValue | agent/include/sole/sole.hpp:282-292 | no step of the decoding loop wraps as long as the number fits 64 bits |
| Uuid.RebaseNumber | agent/include/sole/sole.hpp:271-280 | the loop gives the digits of the number |
| Uuid.RebaseText | agent/include/sole/sole.hpp:282-292 | the loop computes the number modulo 2^64, unknown characters counting as the greatest number |
| Uuid.Uuid0 | agent/include/sole/sole.hpp:693-725 | 60 bits of time, 16 of the process number and 48 of the address are found again by the shifts that show them |
| Uuid.PrettyIs | agent/include/sole/sole.hpp:322-348 | which bits the shown fields are |

## Left out

- MpmcQueue.RunKeepsInv: positions are unbounded numbers, so neither the wrap-around of the counters nor the signed difference of positions is modelled, and every atomic access is sequentially consistent.
- MpmcQueue.RetriesMeanProgress: a weak compare-and-swap may fail for no reason as often as it likes; nothing is said about how the threads are scheduled.
- AsyncLog.ShutdownDeliversEverything: sinks do not throw and keep their level; clocks, sleeping, formatting and the destruction of the thread are left out, and so is the delivery promise of `flush(true)`.
- ConversationRuns.RunsStayInLockStep: all other runs end as ConversationRuns.RestsExactlyWhenInstrumentable says; the transformer is a function of the class name, receive timeouts, transformation errors and sends that fail are left out.
- ConversationRuns.RestsExactlyWhenInstrumentable: requests of one agent do not overlap. The code does not see to that at the start: `agent/src/main/cpp/AgentCallbacks.cpp:49-52` sets the flag that lets class loads through and only then asks for the helper classes, for which `agent/src/main/cpp/InstrumentorAPI.cpp:324-339` takes no lock, so a class loaded by another thread at that time can mix its untagged replies with these.
- InstrumentorApiObject.InstrumentorApi.LoadInitializers: running the initializers later, when their class is prepared, is a call into the virtual machine.
- Dependencies.DependencyLoader.LoadDependencies: a request is one atomic call; loading a class through its loader when its byte code cannot be had is a call into the virtual machine and changes nothing here.
- Dependencies.SentExactlyWhatIsReachable: the byte code of a name is the same for every class loader, while `agent/src/main/cpp/InstrumentorAPI.cpp:353-364` asks the loader of the class at hand for it.
- Dependencies.DependencyLoader.LoadReference: `World.refs` is what the parser collects only for class files that it reads to their end, as ClassReferences.SentExactlyWhatFilesReferTo has it; the exception about any other file, which nobody catches, is not modelled here.
- IntReading.IntIsReadBack: does not say which fills mislead in other bases and with a sign for numbers that are not negative; IntReading.PlainTextsDifferIff does for plain decimal numbers.
- AgentDriver.AgentCallbacks.VMInit: is one step before the class loads, as under ConversationRuns.RestsExactlyWhenInstrumentable.
- AgentDriver.AgentCallbacks.Run: the name of a loaded class is a parameter, ClassParserObject.ClassParser.ParseJustName reads it.
- ClassFileEncoding.ParseInvertsEncode: the operands of constants other than classes, strings and texts are read and not kept, as the code never looks at them and the order in which two of them are read is not fixed by the language; the same goes for the tag looked up for an attribute's name.
- ClassParserObject.ClassParser.Parse: reads outside the byte array, which the code does not check, are an error of the model; slots that the code leaves uninitialised count as null.
- Json.JSONObject.AddIfNotEmpty: values are added as they are at that time; a later change of a nested array object is not seen.
- Json.JSONStringBuilder.Write: a number is the text that the standard library prints for it; that printing, for floating-point numbers, and the indenting builder are left out.
- IntWriter.BasicWriter.WriteInt: the locale's separator is a parameter; sizes are unbounded numbers; the buffer is the growing one, not the one of fixed size, which throws where this one grows.
- RotatingSink.RotatingFileSink.Rotate: file operations succeed and nobody else touches the files.
- Tracing.Span.Export: the exporter itself, stack traces and clocks are parameters; the cached text form of the endpoint is left out.
- Uuid.RebuildInvertsStr: reading leaves out spaces, signs and the 0x prefix that a stream would also accept, none of which the text forms contain.
- Uuid.RebuildOfFields: the fields are not empty, since behind an empty one the next dash would be taken for a sign.
- Conversation.OnlyAnnouncedIsKept: where fewer bytes arrive than were announced, the rest of the buffer is what the memory held before; the model keeps what arrived.
- Generation of times and identifiers, network addresses, versions 1 and 4 of the identifiers.
- Java native interface, tool interface, byte code library and socket library; the advices for the example applications; exporters, logging set-up, agent arguments, build files.
- Floating-point formatting, format string parsing and custom arguments of the bundled formatting library.
- Colour, console and system log sinks, the registry of loggers and pattern formatting.
