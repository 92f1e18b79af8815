# Verified model of the communication and settings core

A Dafny 4.11 model, with proofs, of four parts of this repository:

- **The bounded blocking queue** (`libs/comm/.../bounded_blocking_queue.hpp`), as a concurrent
  protocol. `AtomicQueue` is the queue as a value, with logs of atomic events. `Protocol` is the
  lock-level machine: one mutex, two condition variables, any number of threads, any capacity
  including 0. A wait releases the mutex and falls asleep in one step, `notify_one` is sent after
  the unlock and wakes an arbitrary sleeper or nobody, and wake-ups may be spurious. `WakeUps`,
  `Termination`, `Refinement` and `Safety` prove its properties for every interleaving;
  `Answers` says what every call returns in terms of the history alone; `StrictHistory` and
  `Causes` say when a timed call may fail; `LostWakeUps` finds the exact
  conditions under which a wake-up can be lost; `ProducerConsumer` is the client of the
  repository's multi-threaded queue test. `BlockingQueue` is the object itself, with its fields,
  methods and wait loops; `CallRefinement` and `CallRealisation` tie it to the machine, in both
  directions.
- **The message header** (`message_header`): the 32-byte buffer written in place, with the
  host's byte order as a parameter (`Bytes`, `MessageHeader`).
- **The session id** (`session::id()`): the in-place escape loop and the id as an invertible
  encoding of the endpoint (`SessionId`).
- **The settings conversions** (`commons`, `communications`, `input_file`): records to and from
  JSON values (`Settings`).

`dafny verify dfyconfig.toml` checks the whole project.

## Assumptions and readings of the code

- **Timeouts.** A timed wait either times out while nobody has woken the thread (`Timeout`) or
  after it was woken (`LateTimeout`); POSIX allows the latter (`pthread_cond_timedwait` may
  consume a signal), and the timed calls of the queue then return without rechecking or passing
  the notification on. All safety results hold for both. The counting invariant of the
  no-lost-wake-up results needs `LateTimeout` excluded, and `LostWakeUps.MissesExactlyWhenDropping`
  says for which programs: it can break on a side if and only if the capacity is at least 1, at
  least three threads take part, the program makes timed calls of that side, and any calls of the
  other side. This is so even if all calls of the side are timed. Whether an untimed caller can
  then be left asleep, with work there for it and nobody on the way to wake it until some thread
  makes another call, is the narrower question of `LostWakeUps.LosesExactlyWhenMixing`: if and
  only if, besides, the program makes untimed calls of that side.
- **Waits of the object's methods.** A method of `BoundedBlockingQueue` takes a list of wake-ups:
  for each return from a wait, what the other threads did to the queue meanwhile and, for the timed
  calls, whether the wait timed out. A call that is still blocked after the last one is reported as
  asleep (`None`, `Sleeping`). `CallRefinement.WakesOf` reads this list off a run of the lock-level
  machine, one entry for each time the thread falls asleep; `CallRefinement.MachineCallIsMethodCall`
  shows that the completed call is the method's call under that list. Not every list that is legal
  for the atomic queue comes from a run: the other threads' timed calls must have a reason to fail
  (`CallRealisation.CauseIsNeeded` is an example). `CallRealisation.GivenExactly` says which lists do.
- **`close`.** Its comment says that both push and pop return false afterwards; the code lets pop
  drain what is left first, and the model follows the code.
- **`message_type`.** Its comment announces a `runtime_error`; the code throws a `logic_error`. The
  model reports failure only. The field is called `name` here, since `type` is a Dafny keyword.
- **Settings.** The comments give an empty string as the default of a missing `service`; the code
  gives an absent value, and so does the model; line 90 of `tests/src/test_settings.cpp` compares it
  with an empty string, which is not what the code returns. The library's conversions are taken as:
  an empty optional is written as null, and null is rejected where a string is wanted. Sizes and
  positions are unbounded naturals.
- **Session.** The address's own text and the port are inputs; an unavailable endpoint is `None`.

## Model

| member | source | states |
|---|---|---|
| AtomicQueue.Conservation | libs/comm/include/comm/utilities/bounded_blocking_queue.hpp:72-136 | for any starting queue and any legal history: old contents then accepted items = delivered items then new contents, and the bound is kept |
| AtomicQueue.ClosedIsFinal | libs/comm/include/comm/utilities/bounded_blocking_queue.hpp:38-44 | after closing nothing is accepted and what is left only drains from the front |
| AtomicQueue.OrderPerThread | libs/comm/include/comm/utilities/bounded_blocking_queue.hpp:73-81 | delivered items of each producer are a prefix of its accepted ones in its order; each consumer gets its own positions of the accepted sequence |
| Answers.LegalExactly | libs/comm/include/comm/utilities/bounded_blocking_queue.hpp:38-166 | the legal histories of a fresh queue are exactly those in which every event answers to the ones before it: closed() says whether a close stands before, size() is accepted minus delivered, a pop gets the first accepted item not yet delivered, a push is accepted only while open and below capacity |
| Answers.ReachableAnswers | libs/comm/include/comm/utilities/bounded_blocking_queue.hpp:38-166 | in every reachable state of the machine all events so far answer in this sense |
| Answers.CallAnswers | libs/comm/include/comm/utilities/bounded_blocking_queue.hpp:38-166 | every call that starts and returns has one event in between, with the returned value, that answers to all before it |
| Answers.MethodAnswers | libs/comm/include/comm/utilities/bounded_blocking_queue.hpp:38-166 | so do the methods of the object, under any wake-ups |
| Protocol.InvStep | libs/comm/include/comm/utilities/bounded_blocking_queue.hpp:72-166 | every action of every thread keeps the safety invariant (mutex ownership, bound, decided return values, legal history) |
| Protocol.InvRun | libs/comm/include/comm/utilities/bounded_blocking_queue.hpp:72-166 | the invariant holds in every reachable state, with spurious wake-ups and timeouts of both kinds |
| WakeUps.SideStep | libs/comm/include/comm/utilities/bounded_blocking_queue.hpp:74-83 | the counting invariant of one condition variable is kept by every step, save a late timeout without slack |
| WakeUps.WakeRun | libs/comm/include/comm/utilities/bounded_blocking_queue.hpp:122-136 | no lost wake-up over any run: while open, a side with sleepers has at most as much supply as pending notifications and rechecks; once closed, sleepers only while a notify_all is pending |
| WakeUps.UntimedIsConsiderate | libs/comm/include/comm/utilities/bounded_blocking_queue.hpp:72-84 | with push and pop only, no timeout assumption is needed |
| WakeUps.LateTimeoutExact | libs/comm/include/comm/utilities/bounded_blocking_queue.hpp:153-157 | a timeout that consumes a notification keeps the counting invariant if and only if there is slack |
| WakeUps.CloseRun | libs/comm/include/comm/utilities/bounded_blocking_queue.hpp:38-44 | the closed half of the invariant holds in every reachable state without any assumption on timeouts |
| WakeUps.StuckExactly | libs/comm/include/comm/utilities/bounded_blocking_queue.hpp:74-76 | no thread can step if and only if each is between calls or in an untimed wait whose condition holds |
| WakeUps.NeverBothStuck | libs/comm/include/comm/utilities/bounded_blocking_queue.hpp:124-126 | with capacity at least 1, producers and consumers never sleep together in a stuck state |
| WakeUps.CloseReleasesEverybody | libs/comm/include/comm/utilities/bounded_blocking_queue.hpp:38-44 | in a stuck state of a closed queue every call has returned |
| Termination.MeasureFalls | libs/comm/include/comm/utilities/bounded_blocking_queue.hpp:38-44 | every step of the call bodies lowers a weighted sum over the threads |
| Termination.RunsAreBounded | libs/comm/include/comm/utilities/bounded_blocking_queue.hpp:72-166 | runs of the calls under way are no longer than the measure plus three steps for each spurious wake-up |
| Termination.ReachesStuck | libs/comm/include/comm/utilities/bounded_blocking_queue.hpp:72-166 | from every state the calls under way can be run until none can move |
| Refinement.RefinesStep | libs/comm/include/comm/utilities/bounded_blocking_queue.hpp:72-166 | each step of the lock-level machine is one step of the atomic bounded FIFO with a close flag, or invisible |
| Refinement.RefinesRun | libs/comm/include/comm/utilities/bounded_blocking_queue.hpp:38-166 | every run of the lock-level machine is a run of the atomic machine |
| Refinement.EventsRun | libs/comm/include/comm/utilities/bounded_blocking_queue.hpp:38-166 | the events of a run are a legal history of the atomic queue leading to the queue's contents |
| Refinement.Linearizable | libs/comm/include/comm/utilities/bounded_blocking_queue.hpp:38-166 | between its start and its return each call contributes exactly one event, with the returned value; the history is legal (when a timed call may fail is in StrictHistory and Causes) |
| StrictHistory.StrictRun | libs/comm/include/comm/utilities/bounded_blocking_queue.hpp:96-166 | with each timed failure placed where its thread last found the condition true, the history of any run is legal for a queue in which push_for is refused only when full or closed and pop_for fails only when empty, and leads to the queue's contents |
| StrictHistory.StrictlyLinearizable | libs/comm/include/comm/utilities/bounded_blocking_queue.hpp:72-166 | that strict history also holds exactly one event of each call between its start and return, with the returned value |
| Causes.RunIsCaused | libs/comm/include/comm/utilities/bounded_blocking_queue.hpp:96-112 | in the history of any run, a timed failure decided so in its critical section or found its condition true at some point since its thread's previous event (or before the run began, if it was already waiting then) |
| Safety.OnlyHolderChangesQueue | libs/comm/include/comm/utilities/bounded_blocking_queue.hpp:73-81 | mutual exclusion, and only the lock holder's commit changes the queue |
| Safety.ReachableFifo | libs/comm/include/comm/utilities/bounded_blocking_queue.hpp:14-23 | in every reachable state: accepted = delivered then queue, the bound, order per producer, disjoint shares per consumer |
| Safety.CloseFreezesAccepted | libs/comm/include/comm/utilities/bounded_blocking_queue.hpp:38-44 | closed never reverts and the accepted items are frozen from then on |
| Safety.FalsePopIsFinal | libs/comm/include/comm/utilities/bounded_blocking_queue.hpp:124-129 | a false pop means closed and everything delivered, then and for ever |
| Safety.CloseLetsEverybodyReturn | libs/comm/include/comm/utilities/bounded_blocking_queue.hpp:32-44 | in every reachable stuck state with the queue closed all calls have returned, whatever timeouts do |
| Safety.ReachableStuckExactly | libs/comm/include/comm/utilities/bounded_blocking_queue.hpp:72-166 | the stuck states that can be reached without a late timeout are exactly the legitimate ones |
| Safety.UntimedStuckExactly | libs/comm/include/comm/utilities/bounded_blocking_queue.hpp:72-136 | the same for programs without timed calls, unconditionally |
| Safety.FalseCallSawIt | libs/comm/include/comm/utilities/bounded_blocking_queue.hpp:96-112 | a false push saw the queue full or closed, and a false pop saw it empty, in one of its own critical sections |
| Safety.FalseCallChangesNothing | libs/comm/include/comm/utilities/bounded_blocking_queue.hpp:149-166 | no step of a call that returns false changes the queue, the accepted items or the delivered items |
| Safety.FalsePopForWhileOpen | libs/comm/include/comm/utilities/bounded_blocking_queue.hpp:153-157 | a concrete run: a false pop_for does not imply closed |
| LostWakeUps.SafeState | libs/comm/include/comm/utilities/bounded_blocking_queue.hpp:96-166 | in a program that cannot drop a wake-up, the no-lost-wake-up invariant holds in every reachable state, late timeouts included |
| LostWakeUps.MissesExactlyWhenDropping | libs/comm/include/comm/utilities/bounded_blocking_queue.hpp:100-104 | n threads can reach a state in which the invariant of a side fails if and only if n is at least 3, capacity at least 1, and timed calls of the side meet calls of the other |
| LostWakeUps.SafeRun | libs/comm/include/comm/utilities/bounded_blocking_queue.hpp:96-166 | a program that cannot drop a wake-up, or makes no untimed calls of the side, never leaves an untimed caller of it asleep without reason |
| LostWakeUps.LosesExactlyWhenMixing | libs/comm/include/comm/utilities/bounded_blocking_queue.hpp:153-157 | an untimed caller can be left asleep without reason when nobody else can move if and only if, besides, untimed calls of the side are made |
| ProducerConsumer.ClientDeliversAll | tests/src/test_bounded_blocking_queue.cpp:193-220 | for every n, capacity of at least 1 and interleaving: no halt before both loops end, and then exactly 0 to n-1 in order |
| ProducerConsumer.RemainingFalls | tests/src/test_bounded_blocking_queue.cpp:199-211 | every move of the client except a spurious wake-up lowers its measure |
| ProducerConsumer.ClientTerminates | tests/src/test_bounded_blocking_queue.cpp:199-214 | every run of the client has at most 16n + 22 moves plus three for each spurious wake-up |
| BlockingQueue.BoundedBlockingQueue.constructor | libs/comm/include/comm/utilities/bounded_blocking_queue.hpp:30 | a fresh queue is empty and open |
| BlockingQueue.BoundedBlockingQueue.Close | libs/comm/include/comm/utilities/bounded_blocking_queue.hpp:38-44 | sets the flag and nothing else, as the machine's close() does |
| BlockingQueue.BoundedBlockingQueue.Closed | libs/comm/include/comm/utilities/bounded_blocking_queue.hpp:50-53 | reports the flag, as the machine's closed() does |
| BlockingQueue.BoundedBlockingQueue.Size | libs/comm/include/comm/utilities/bounded_blocking_queue.hpp:59-62 | reports the number of items, as the machine's size() does |
| BlockingQueue.BoundedBlockingQueue.Push | libs/comm/include/comm/utilities/bounded_blocking_queue.hpp:72-84 | result and final queue for any sequence of wake-ups |
| BlockingQueue.BoundedBlockingQueue.PushFor | libs/comm/include/comm/utilities/bounded_blocking_queue.hpp:96-112 | the same, with waits that may time out |
| BlockingQueue.BoundedBlockingQueue.Pop | libs/comm/include/comm/utilities/bounded_blocking_queue.hpp:122-136 | result, item and final queue for any sequence of wake-ups |
| BlockingQueue.BoundedBlockingQueue.PopFor | libs/comm/include/comm/utilities/bounded_blocking_queue.hpp:149-166 | the same, with waits that may time out |
| BlockingQueue.CallIsOneEvent | libs/comm/include/comm/utilities/bounded_blocking_queue.hpp:72-166 | a blocking call is one atomic event after what the others did during its waits; if still asleep, its condition holds |
| CallRefinement.MachineCallIsMethodCall | libs/comm/include/comm/utilities/bounded_blocking_queue.hpp:72-166 | every completed call of the machine is the method's call on the queue found at its first taking of the mutex, under the wake-ups read off the run: one for each sleep, with the others' events up to the next taking of the mutex; same return value, and the method's history follows in the run's |
| CallRealisation.MethodCallIsMachineCall | libs/comm/include/comm/utilities/bounded_blocking_queue.hpp:72-166 | any wake-ups that fit a call, let it return and have a cause for each timed failure are given by some run, which ends with the method's queue and return value |
| CallRealisation.GivenExactly | libs/comm/include/comm/utilities/bounded_blocking_queue.hpp:72-166 | with the others between calls, the wake-ups that runs give to a call are exactly these |
| CallRealisation.CauseIsNeeded | libs/comm/include/comm/utilities/bounded_blocking_queue.hpp:100-104 | a concrete legal list of wake-ups, without a cause for a refused push_for, that no run gives |
| Bytes.StoreIsBig | libs/comm/src/messages/message_header.cpp:22-26 | both host byte orders write the big-endian bytes |
| Bytes.LoadIsBig | libs/comm/src/messages/message_header.cpp:34-40 | both host byte orders read the big-endian number |
| Bytes.CrossHost | libs/comm/src/messages/message_header.cpp:22-40 | a word written on one host is read unchanged on another |
| MessageHeader.WireExactly | libs/comm/include/comm/messages/message_header.hpp:22-35 | the wire format byte by byte: 32 bytes, the length in bytes 0 to 3 and the version in bytes 4 and 5 by plain arithmetic, at most 25 bytes of type from byte 6 on, zeros up to the end |
| MessageHeader.DecodedSpelledOut | libs/comm/src/messages/message_header.cpp:33-48 | what a decode reads, byte by byte: the two words by plain arithmetic, success iff a NUL stands in bytes 6 to 31, then the type before the first one |
| MessageHeader.MessageHeader.constructor | libs/comm/include/comm/messages/message_header.hpp:30-38 | defaults: empty type, length 0, version 1, arbitrary buffer of 32 bytes |
| MessageHeader.MessageHeader.SetType | libs/comm/src/messages/message_header.cpp:10-15 | accepts types of at most 25 bytes, refuses longer ones and then changes nothing |
| MessageHeader.MessageHeader.SetLength | libs/comm/include/comm/messages/message_header.hpp:66 | changes the length only |
| MessageHeader.MessageHeader.SetVersion | libs/comm/include/comm/messages/message_header.hpp:78 | changes the version only |
| MessageHeader.MessageHeader.Overwrite | libs/comm/include/comm/messages/message_header.hpp:92 | writing through the buffer reference changes the buffer only |
| MessageHeader.MessageHeader.EncodeHeader | libs/comm/src/messages/message_header.cpp:17-31 | fails exactly for an empty type, otherwise the 32 bytes have the layout of WireExactly on either host order |
| MessageHeader.MessageHeader.DecodeHeader | libs/comm/src/messages/message_header.cpp:33-48 | the fields that the 32 bytes spell on either host order, and the partial update on failure |
| MessageHeader.RoundTrip | libs/comm/src/messages/message_header.cpp:17-48 | encode then decode keeps length, version and the type before its first NUL (all of it iff NUL-free), independent of the old buffer |
| MessageHeader.Transmit | libs/comm/src/messages/message_header.cpp:17-48 | a header encoded on one object and decoded on another, of any two byte orders, gives the receiver the sender's length, version and type before its first NUL; refused exactly for an empty type, then nothing changes |
| MessageHeader.SameWire | libs/comm/src/messages/message_header.cpp:22-30 | equal wire bytes exactly when length and version agree and the types differ in trailing NULs only |
| MessageHeader.InjectiveWithoutNul | libs/comm/src/messages/message_header.cpp:22-30 | encoding is injective on NUL-free types |
| MessageHeader.Canonicalises | libs/comm/src/messages/message_header.cpp:17-48 | decode then encode zeroes everything after the type's first NUL, and succeeds iff the type area does not start with NUL |
| MessageHeader.CanonicalIdempotent | libs/comm/src/messages/message_header.cpp:28-47 | canonicalisation is idempotent |
| MessageHeader.DecodeEqual | libs/comm/src/messages/message_header.cpp:33-48 | two decodable buffers decode equal iff their canonical forms are equal |
| MessageHeader.FailedDecode | libs/comm/src/messages/message_header.cpp:33-46 | decode fails iff the type area holds no NUL; length and version are then already updated, the type is not |
| MessageHeader.After | libs/comm/src/messages/message_header.cpp:10-48 | after any sequence of the object's calls (each method ends in its Step) the type fits the buffer, so every encode stays inside |
| MessageHeader.DecodeRecallsEncode | libs/comm/src/messages/message_header.cpp:17-48 | a decode after any setters delivers the fields as they were when encoded |
| SessionId.Find | libs/comm/include/comm/session.hpp:66-67 | the first occurrence from a position, or none |
| SessionId.EscapeInPlace | libs/comm/include/comm/session.hpp:66-69 | the in-place loop ends and equals the per-character escape, for every string |
| SessionId.UnescapeEscape | libs/comm/include/comm/session.hpp:66-69 | single-pass unescaping is a left inverse |
| SessionId.EscapedExactly | libs/comm/include/comm/session.hpp:66-69 | the escaped strings are exactly those in which every '%' is followed by "25" |
| SessionId.NumeralExactly | libs/comm/include/comm/session.hpp:72-74 | the port's text is the only decimal numeral of its value without a leading zero |
| SessionId.IdExactly | libs/comm/include/comm/session.hpp:57-75 | the only text of the right shape: "unknown", or host, ':' and numeral, where an IPv6 host stands between '[' and ']' with "%25" for each '%' |
| SessionId.Id | libs/comm/include/comm/session.hpp:57-75 | the method computes the text of that shape, for an endpoint or for an unavailable one |
| SessionId.ParseInvertsId | libs/comm/include/comm/session.hpp:57-75 | family, host text and port can be read back iff an IPv4 text does not itself stand in brackets |
| SessionId.SameId | libs/comm/include/comm/session.hpp:57-75 | two endpoints share an id exactly when equal or when an IPv4 text spells a bracketed IPv6 one |
| SessionId.IdsAreKeys | libs/comm/include/comm/session.hpp:30-75 | distinct endpoints have distinct ids, none of them the unknown id |
| Settings.ReadsExactly | libs/core/src/settings/input_file.cpp:26-39 | reading gives a record iff the document says so: each field is the member's own value, or false, empty, absent or the empty list where the member or section is missing |
| Settings.ReadableExactly | libs/core/src/settings/communications.cpp:37-140 | reading succeeds iff every member that is present, at every level, has the right kind |
| Settings.ReadsServer | libs/core/src/settings/communications.cpp:37-50 | the same exact condition for a server section alone |
| Settings.ReadsClient | libs/core/src/settings/communications.cpp:78-96 | the same for one client |
| Settings.WritesExactly | libs/core/src/settings/input_file.cpp:50-56 | a record is written as exactly one document: the key sets, the values, null for an absent optional, and `appName` and `version` only if not empty |
| Settings.WritesCommons | libs/core/src/settings/commons.cpp:46-55 | the same for the commons section: empty strings are left out, nothing else is |
| Settings.CommonsRoundTrip | libs/core/src/settings/commons.cpp:23-55 | write then read is the identity although empty strings are left out |
| Settings.ServerRoundTrip | libs/core/src/settings/communications.cpp:37-67 | write then read is the identity iff `service` is present, and fails otherwise |
| Settings.ClientRoundTrip | libs/core/src/settings/communications.cpp:78-113 | the same for `host` and `service` of a client |
| Settings.ClientsRoundTrip | libs/core/src/settings/communications.cpp:134-154 | the same for a whole client list |
| Settings.InputFileRoundTrip | libs/core/src/settings/input_file.cpp:26-56 | write then read is the identity iff all optional fields are present, and fails otherwise |
| Settings.WritingIsInjective | libs/core/src/settings/input_file.cpp:50-56 | complete settings that are written alike are equal |
| Settings.PresentIffSpelledOut | libs/core/src/settings/communications.cpp:125-140 | what a readable document must contain for all optional fields to be present |
| Settings.RewriteReadsBack | libs/core/src/settings/input_file.cpp:26-56 | a document that was read and written again can be read once more iff it spelled those keys out |

## Left out

- Real time and deadlines: a timeout is a step that may happen at any moment of a timed wait.
- Fairness: `notify_one` may pick any sleeper and newcomers may overtake, so no single thread is promised progress; what is proved is that runs end and where.
- Destruction, moves and throwing element types of the queue: C++ object lifetime.
- BlockingQueue.BoundedBlockingQueue.Close: the two notify_all steps and the mutex itself are in the lock-level machine, not in the object.
- MessageHeader.MessageHeader.SetType: the exception's type and text are not modelled, only that the call fails.
- `session_manager`: it uses a session after moving it and recomputes ids from live sockets, so no add/remove invariant can be read from it.
- `message_factory`, `message_register`: a map lookup, only easy members.
- TCP client and server, signals, options, the JSON text parser, logging and `main`: I/O and library code.
- `resolve_relative_path` of the settings: empty bodies.
