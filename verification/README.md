# A verified model of redisclient

redisclient is a C++ client for Redis built on Boost.Asio. This project models its three
hard parts in Dafny and proves what they are for.

* **The reply parser** (`ParserModel.dfy`, `RedisParser.dfy`, `Decoder.dfy`, `RoundTrip.dfy`,
  `WireFormat.dfy`).
  `RedisParser` is a resumable byte automaton with a saved state, a stack of partly filled
  arrays and block copies. `RedisParsers.RedisParser` has its fields and loops and is proved
  equal to a byte-at-a-time machine; the machine is proved equal to a recursive-descent
  decoder of the RESP2 reply format that knows neither stacks nor chunks; and the decoder is
  proved to undo the encoding of every reply. `WireFormat` says in bytes what is accepted and
  what is an error. All of this holds for every input, good or bad,
  every nesting depth and every cut into chunks.
* **Commands and the synchronous client** (`Commands.dfy`, `Sockets.dfy`, `Streams.dfy`,
  `Sessions.dfy`, `RedisClient.dfy`). `makeCommand` is undone by the parser. The read and write
  loops run against a socket that is an arbitrary script of partial transfers, interrupts,
  timeouts and failures, and are specified by the bytes they send and use up and by what the
  system has left to do afterwards. `Sessions` is about successive commands.
* **The asynchronous client** (`AsyncModel.dfy`, `AsyncMessages.dfy`, `AsyncInvariants.dfy`,
  `AsyncMatching.dfy`, `AsyncResults.dfy`, `AsyncExamples.dfy`, and the same class in
  `RedisClient.dfy`). `AsyncModel` says what each user call and each callback does to the whole
  client; the class methods are proved to do that; the results in `AsyncResults` are about every
  run, that is every list of events, and `AsyncExamples` has concrete runs that meet their
  hypotheses or show what goes wrong.

A byte is a `char`, a buffer a `string`; nothing depends on a `char` being below 256. A
`std::function` is a number, and what a reply handler does when it is called is an arbitrary
function from the handler and its value to the calls it makes. A `std::multimap` is a map from
keys to the list of entries in insertion order; `find` returns the first. `long` is 64 bits.

## How undefined behaviour is treated

A number header such as `1-2` passes the parser's byte check and then fails an assertion in
`bufToLong`; a header beyond 2^63-1 overflows a signed `long`. Both end a parse call with the
outcome `Undefined`, at the byte where the original is undefined, so that no theorem has to
exclude such inputs. `Numbers.UndefinedHeaders` says exactly which headers these are. The inner
'-' is caught by nothing but that assertion: a build without assertions goes on with a wrong
number, and that is not modelled. Header bytes above 127 are classified with `isdigit` of a
negative `char`, which the C standard leaves undefined as well; the model takes such a byte for
the error that the usual libraries make of it.

## Where the code falls short of what one would expect

Each of these is a lemma or a contract with the exact condition.

* An idle parser given an empty chunk reports a completed value, so cutting a non-empty input
  goes wrong exactly when an idle parser is first given an empty piece (`ParserModel.AnyCut`).
* An error clears the saved state but not the open arrays: the reply after a malformed one is
  read correctly if and only if the malformed one did not begin with the complete header of a
  non-empty array (`RoundTrip.AfterErrorReadsNextReply`); the shortest such input is in
  `RoundTrip.BrokenElementBreaksNextReply`.
* -2^63 cannot be read back (`Numbers.OnlyTheMinimumIsLost`).
* A client is in subscribed mode from the call of `subscribe` on, and from then on passes only
  acknowledgements to its reply handlers. So the k-th answer reaches the k-th handler, for all of
  them, if and only if every answer since the first subscription looks like an acknowledgement
  (`AsyncResults.RepliesReachTheirHandlers`). In terms of requests, when all are answered there
  are two ways to go wrong (`AsyncResults.MatchedUnlessRacedOrRefused`): the first subscription is
  made with an ordinary command outstanding, even if that is still on the strand
  (`AsyncExamples.SubscribingTooEarly`), or the server refuses a subscription or, in subscribed
  mode, an unsubscription (`AsyncExamples.RefusedSubscription`). `AsyncResults.RaceMisroutes` says
  what happens to the lost reply and to the next acknowledgement.
* Channels and patterns share their keys: a message reaches exactly the handlers it is meant for
  if and only if every subscription under its key that still stands, and the oldest single shot
  waiting there, was made for its kind (`AsyncResults.MessagesStayInTheirKind`; a run in which a
  message for a pattern also reaches the handler of a channel is
  `AsyncExamples.MessageCrossesKinds`).
* A refused subscription returns the handle 0, which is also the first one given out; used to
  unsubscribe, it removes a later subscription to the same channel
  (`AsyncResults.ReturnedHandles`, `AsyncResults.RefusedHandleErases`).
* A failed write leaves the queue without a write in flight exactly when something was queued
  meanwhile (`AsyncInvariants.FailedWriteStrandsTheQueue`); nothing queued is lost
  (`AsyncResults.WritesAreOrdered`).
* Reconnecting a closed client gives it a new parser over TCP but not over a local socket
  (`RedisClients.RedisClientImpl.Connect`).
* A synchronous command started with an error code that is already set leaves its reply unread
  (`RedisClients.RedisClientImpl.DoSyncCommand`).
* After a synchronous command that was sent and then ended in an error, such as a timeout, its
  late reply is what the next command returns: the k-th command returns the k-th reply if and only
  if none sent before it ended in an error (`Sessions.RepliesLagBehindErrors`,
  `Sessions.LateReply`).

## Model

| member | source | states |
|---|---|---|
| Numbers.BufToLong | src/redisclient/impl/redisparser.cpp:395-428 | The accumulation loop, in a 64-bit `long`: it returns the number the text denotes, or None when a byte is no digit or an intermediate value would leave the type |
| Numbers.ReadBack | src/redisclient/impl/redisparser.cpp:395-428 | Printing any integer and reading it back gives it back exactly when its magnitude is at most 2^63-1 |
| Numbers.OnlyTheMinimumIsLost | src/redisclient/impl/redisparser.cpp:423-427 | Of all 64-bit values only -2^63 is lost, because the sign is applied after the digits |
| Numbers.UndefinedHeaders | src/redisclient/impl/redisparser.cpp:119-122 | Of the headers the byte check lets through, exactly those with an inner '-' or too large a magnitude have no defined value |
| Numbers.CanonicalIsUnique | src/redisclient/impl/redisclientimpl.cpp:387-393 | A number has exactly one decimal form without leading zeros, and that is the one printed (DecimalIsCanonical) |
| Numbers.DigitsOfTen | src/redisclient/impl/redisparser.cpp:418-425 | The digits are those of base ten, for instance all ten of them |
| ParserModel.Parse | src/redisclient/impl/redisparser.cpp:31-383 | A call consumes at most its chunk and at least one byte of a non-empty one; Completed leaves the parser idle; Incompleted consumes everything and leaves it not idle |
| ParserModel.DeliverKeepsDeclared | src/redisclient/impl/redisparser.cpp:347-363 | Handing a value to the open arrays keeps, for every array that stays open, elements held plus elements missing equal to the declared size; arrays close from the inside out |
| ParserModel.FullArrayHasDeclaredSize | src/redisclient/impl/redisparser.cpp:354-359 | The innermost array is closed exactly when it holds as many elements as its header declared |
| ParserModel.StepKeepsDeclared | src/redisclient/impl/redisparser.cpp:283-295 | Every byte keeps the declared sizes of the open arrays; the only array it can open is the one whose header it finished, with that size |
| ParserModel.BulkKeepsLength | src/redisclient/impl/redisparser.cpp:154-220 | While a bulk string is read, bytes held plus bytes missing is the declared length, and the state leaves Bulk exactly when none is missing |
| ParserModel.BlockCopy | src/redisclient/impl/redisparser.cpp:205-219 | Copying any block that is neither longer than what is missing nor than the chunk gives the machine that reading its bytes one by one gives |
| ParserModel.ParseStops | src/redisclient/impl/redisparser.cpp:42-72 | A call that does not ask for more bytes has the same result whatever follows |
| ParserModel.ChunksJoin | src/redisclient/impl/redisparser.cpp:36-40 | If the first part is Incompleted, parsing the second part gives the outcome, the value and the whole parser of parsing both at once, and the consumed counts add up; either part may be empty |
| ParserModel.AnyCut | src/redisclient/impl/redisparser.cpp:374-382 | Any cut into chunks gives the result of one call if and only if an idle parser is not first given an empty chunk of a non-empty input |
| RedisParsers.RedisParser.constructor | src/redisclient/impl/redisparser.cpp:20-24 | A new parser is idle |
| RedisParsers.RedisParser.Result | src/redisclient/impl/redisparser.cpp:385-388 | Returns the finished value and leaves only a moved-from value behind |
| RedisParsers.RedisParser.Unwind | src/redisclient/impl/redisparser.cpp:347-363 | The loop over the counters delivers the value through all arrays it completes |
| RedisParsers.RedisParser.CountOne | src/redisclient/impl/redisparser.cpp:354-362 | One turn of that loop: counts, and pops the array when the counter reaches zero |
| RedisParsers.RedisParser.Accept | src/redisclient/impl/redisparser.cpp:49-345 | The switch over the state for single bytes, with the state cleared on every error |
| RedisParsers.RedisParser.AcceptArraySize | src/redisclient/impl/redisparser.cpp:267-302 | An array header gives nil, an empty array, an error or a new open array |
| RedisParsers.RedisParser.AcceptBulkSize | src/redisclient/impl/redisparser.cpp:154-204 | A bulk header gives nil, an empty string, an error or the block of payload already in the chunk |
| RedisParsers.RedisParser.CopyBulk | src/redisclient/impl/redisparser.cpp:205-220 | Takes as many payload bytes as are there and missing |
| RedisParsers.RedisParser.Advance | src/redisclient/impl/redisparser.cpp:42-345 | One turn of the parse loop moves on by at least one byte, stays within the chunk, and is a step of the byte-at-a-time run |
| RedisParsers.RedisParser.ParseChunk | src/redisclient/impl/redisparser.cpp:31-383 | The whole loop with its block copies has the outcome, the consumed count and the final fields of the byte-at-a-time run |
| RoundTrip.ParserIsDecoder | src/redisclient/impl/redisparser.cpp:31-383 | For an idle parser and every non-empty input: outcome, consumed bytes and value are those of the recursive decoder, on good, cut-off, malformed and undefined input |
| RoundTrip.DecodeEncode | src/redisclient/impl/redisparser.cpp:49-345 | The decoder undoes the encoding of every reply: simple strings, errors, integers, bulk strings of any bytes, both nulls, nested arrays |
| RoundTrip.ReplyRoundTrip | src/redisclient/impl/redisparser.cpp:31-383 | Parsing an encoded reply followed by anything completes after exactly its bytes with its value and an idle parser |
| RoundTrip.ReplyPrefixIncomplete | src/redisclient/impl/redisparser.cpp:374-382 | Every proper non-empty prefix of an encoded reply is Incompleted |
| RoundTrip.EncodingIsUnique | src/redisclient/impl/redisparser.cpp:31-383 | Replies are self-delimiting: the bytes determine the value and where it ends |
| WireFormat.TextReply | src/redisclient/impl/redisparser.cpp:76-153 | Status and error lines: every text of bytes 32 to 126, blanks included, is read back behind `+` and `-` |
| WireFormat.BrokenLine | src/redisclient/impl/redisparser.cpp:76-128 | A byte that may not stand in a line is the error, in every kind of line, and so is the end of an empty number |
| WireFormat.UnclosedLine | src/redisclient/impl/redisparser.cpp:129-345 | Behind the carriage return only a line feed will do |
| WireFormat.UnknownTag | src/redisclient/impl/redisparser.cpp:51-72 | Every other first byte than the five of a reply is an error |
| WireFormat.IntegerReply | src/redisclient/impl/redisparser.cpp:303-345 | Digits behind `:` or `:-`, with leading zeros or without, give the integer of base ten up to 2^63-1 |
| WireFormat.LoneMinus | src/redisclient/impl/redisparser.cpp:408-416 | A `-` without digits reads as 0 |
| WireFormat.HugeNumber | src/redisclient/impl/redisparser.cpp:395-428 | A larger number is undefined in every kind of header |
| WireFormat.BulkReply | src/redisclient/impl/redisparser.cpp:106-243 | Length, line end, any bytes, line end |
| WireFormat.ArrayReply | src/redisclient/impl/redisparser.cpp:244-302 | Number of elements, line end, elements |
| WireFormat.NegativeSize | src/redisclient/impl/redisparser.cpp:154-302 | Size -1 is nil for bulk strings and arrays, any other negative size an error |
| WireFormat.TextEncoding | src/redisclient/impl/redisparser.cpp:76-153 | The bytes of a status or an error a server sends, their value, and which texts it may send |
| WireFormat.NumberEncoding | src/redisclient/impl/redisparser.cpp:303-345 | The same for integers, by a canonical decimal |
| WireFormat.BulkEncoding | src/redisclient/impl/redisparser.cpp:106-243 | The same for bulk strings |
| WireFormat.NilEncoding | src/redisclient/impl/redisparser.cpp:154-302 | The same for both forms of nil |
| WireFormat.ArrayEncoding | src/redisclient/impl/redisparser.cpp:244-302 | The same for arrays |
| RoundTrip.AfterErrorReadsNextReply | src/redisclient/impl/redisparser.cpp:73-89 | After any malformed reply the next reply is read correctly if and only if the malformed one did not begin with the complete header of a non-empty array |
| RoundTrip.ErrorLeavesArraysOpen | src/redisclient/impl/redisparser.cpp:267-302 | An error clears the saved state, and leaves an array open exactly on such inputs |
| RoundTrip.BrokenElementBreaksNextReply | src/redisclient/impl/redisparser.cpp:73-89 | After `*1\r\n?` one array stays open and no reply that follows is read correctly |
| Commands.MakeCommand | src/redisclient/impl/redisclientimpl.cpp:382-400 | The printing loop writes the number of arguments, and for each its length and its bytes, with canonical decimals and CR LF; this determines the bytes (PrintedIsUnique), and it is the RESP array of bulk strings |
| Commands.PrintedIsUnique | src/redisclient/impl/redisclientimpl.cpp:382-400 | Only one string of bytes is what is to be printed for a command |
| Commands.MakeCommands | src/redisclient/impl/redisclientimpl.cpp:426-430 | The buffers of a pipeline, in order |
| Commands.CommandRoundTrip | src/redisclient/impl/redisclientimpl.cpp:382-400 | The parser reads a printed command back as the array of its arguments, for every list of arguments and whatever follows |
| Commands.CommandIsUnique | src/redisclient/impl/redisclientimpl.cpp:382-400 | `makeCommand` is injective and self-delimiting |
| Commands.PipelineIsUnique | src/redisclient/impl/redisclientimpl.cpp:426-432 | Commands sent back to back split in only one way |
| Streams.DrainJoins | src/redisclient/impl/redisclientimpl.cpp:520-542 | Two reads deliver the values of their concatenation and leave the same parser |
| Streams.AnyPieces | src/redisclient/impl/redisclientimpl.cpp:520-542 | However a stream is cut, the read loop delivers the same values, stops for the same reason and leaves the same parser |
| Streams.DrainReplies | src/redisclient/impl/redisclientimpl.cpp:520-542 | The first n bytes of a stream of replies deliver exactly the replies complete by then, for every n |
| Streams.RepliesThroughPieces | src/redisclient/impl/redisclientimpl.cpp:509-543 | A list of replies cut into pieces anywhere comes out as exactly that list, in order |
| Streams.FirstJoins | src/redisclient/impl/redisclientimpl.cpp:469-486 | Bytes read after an unfinished value complete the value the whole stream would give |
| Streams.FirstIsDecoded | src/redisclient/impl/redisclientimpl.cpp:458-493 | For an idle parser the first value of a stream is what the recursive decoder finds |
| Streams.FirstManyIsDecoded | src/redisclient/impl/redisclientimpl.cpp:438-448 | The replies of a pipeline, read one by one, are those of the recursive decoder, as long as none is malformed |
| Streams.FirstManyShort | src/redisclient/impl/redisclientimpl.cpp:438-448 | When the stream ends within the replies of a pipeline, at any byte, the reading ends there |
| Sockets.SocketReadSome | src/redisclient/impl/redisclientimpl.cpp:88-129 | Retries interrupts; delivers at least one byte and leaves the error code alone, or reports how the stream ended; no byte is lost, and what the system does behind the end is still to come |
| Sockets.SocketWrite | src/redisclient/impl/redisclientimpl.cpp:160-200 | Sends as many bytes of the buffer as the system takes before its first timeout or failure, interrupts not counting; reports that one exactly when bytes are left |
| Sockets.InterruptsAreRetried | src/redisclient/impl/redisclientimpl.cpp:103-106 | Errno 4 (EINTR) never ends reading or sending |
| Sockets.FailuresEnd | src/redisclient/impl/redisclientimpl.cpp:107-121 | Every other one does, and is reported |
| Sockets.SocketWriteAll | src/redisclient/impl/redisclientimpl.cpp:202-216 | The same for a list of buffers, one after the other; with a stale error code nothing behind the first buffer is sent |
| RedisClients.RedisClientImpl.Connect | src/redisclient/impl/redisasyncclient.cpp:28-73 | Starts connecting in the two states that allow it, where only the TCP overload renews the parser of a closed client; in the others the user's handler runs at once, with no error |
| RedisClients.RedisClientImpl.HandleAsyncConnect | src/redisclient/impl/redisclientimpl.cpp:364-380 | Enters Connected, lets the user's handler call the client and starts the first read; or goes back to Unconnected and lets it know |
| RedisClients.RedisClientImpl.ConnectNew | src/redisclient/impl/redisclientimpl.cpp:364-380 | A new client that connects is in a state of the runs considered below: the one in which they begin, after the calls of the user's handler |
| RedisClients.RedisClientImpl.PostCommand | src/redisclient/impl/redisclientimpl.h:117-121 | Posts the printed command behind everything posted before |
| RedisClients.RedisClientImpl.ExecuteCommand | src/redisclient/impl/redisasyncclient.cpp:92-102 | An ordinary command is posted only in state Connected |
| RedisClients.RedisClientImpl.SubscribeChannel | src/redisclient/impl/redisclientimpl.cpp:555-584 | Posts the command, stores the handler under a new handle, enters subscribed mode |
| RedisClients.RedisClientImpl.SingleShotSubscribe | src/redisclient/impl/redisclientimpl.cpp:586-613 | The same for a handler that is to run once |
| RedisClients.RedisClientImpl.EraseHandle | src/redisclient/impl/redisclientimpl.cpp:635-645 | The erase-while-iterating loop removes the entries with the handle and keeps the others in order |
| RedisClients.RedisClientImpl.UnsubscribeChannel | src/redisclient/impl/redisclientimpl.cpp:615-670 | Removes the handle's entry of the channel and posts the command |
| RedisClients.RedisClientImpl.AsyncWriteDone | src/redisclient/impl/redisclientimpl.cpp:337-362 | The double buffer: what was queued becomes the next write |
| RedisClients.RedisClientImpl.StartCommand | src/redisclient/impl/redisclientimpl.cpp:496-507 | Queues handler and bytes and starts a write if none is in flight |
| RedisClients.RedisClientImpl.PostMessage | src/redisclient/impl/redisclientimpl.cpp:274-290 | Posts one single-shot handler and all ordinary handlers of a key |
| RedisClients.RedisClientImpl.CallFront | src/redisclient/impl/redisclientimpl.cpp:319-323 | Calls the oldest handler, which may call back into the client, and removes it |
| RedisClients.RedisClientImpl.DoProcessMessage | src/redisclient/impl/redisclientimpl.cpp:258-335 | Every branch of message processing, in both modes |
| RedisClients.RedisClientImpl.ReadLoop | src/redisclient/impl/redisclientimpl.cpp:520-540 | Processes the values completed in the bytes read, in order, and nothing else |
| RedisClients.RedisClientImpl.AsyncReadDone | src/redisclient/impl/redisclientimpl.cpp:509-543 | The completed read, including failed reads, parser errors and the start of the next read |
| RedisClients.RedisClientImpl.ParseBuffer | src/redisclient/impl/redisclientimpl.cpp:469-492 | The loop with the move of the remaining bytes: one parse call, its bytes gone, the others kept, although `pos` is not reset |
| RedisClients.RedisClientImpl.SyncReadResponse | src/redisclient/impl/redisclientimpl.cpp:454-494 | Returns the first value of the bytes available and uses up exactly its bytes; a malformed one gives nil and is gone up to the offending byte; without a complete value all of them are parsed and the error that ended the stream is reported; with a stale error code only the bytes buffered are available; ends for every script of the system |
| RedisClients.RedisClientImpl.DoSyncCommand | src/redisclient/impl/redisclientimpl.cpp:401-414 | Sends what the system takes of the command; reads the reply exactly when that is all and the error code was clear, and then does a step of the sessions below; otherwise reports what stopped it and reads nothing |
| Sessions.RepliesLagBehindErrors | src/redisclient/impl/redisclientimpl.cpp:401-414 | Over successive commands, for a server that answers in order and bytes that arrive in any pieces with failures anywhere: a command that returns a value returns the reply behind those returned before, so the k-th returns the k-th if and only if none before it ended in an error |
| Sessions.LateReply | src/redisclient/impl/redisclientimpl.cpp:401-414 | After a first command that timed out, the second returns its reply |
| RedisClients.RedisClientImpl.DoSyncPipeline | src/redisclient/impl/redisclientimpl.cpp:416-452 | Sends what the system takes of the commands; when that is all, returns as many replies as commands, in order and with nil for each malformed one, and leaves later bytes pending, or reports how the stream ended within them; otherwise reports what stopped the sending |
| RedisClients.Pipeline.AddCommand | src/redisclient/impl/pipeline.cpp:21-26 | Appends the command with its name in front of its arguments |
| RedisClients.Pipeline.Finish | src/redisclient/impl/pipeline.cpp:28-36 | A client that is not connected only reports it. A connected one sends what the system takes; when that is all, the i-th element of the result is the i-th well-formed reply and the bytes behind them stay pending, or the error that ended the stream within them is reported; otherwise what stopped the sending is reported and nothing is read |
| AsyncInvariants.WithoutRemovesOne | src/redisclient/impl/redisclientimpl.cpp:635-645 | With distinct handles, unsubscribing removes exactly one entry and keeps the rest in order |
| AsyncMessages.LiveMeans | src/redisclient/impl/redisclientimpl.cpp:569-645 | A subscription is live exactly when it was made and its handle was not unsubscribed from its key since |
| AsyncInvariants.OccurKeeps | src/redisclient/impl/redisclientimpl.cpp:258-362 | Every event keeps the queue order, the double buffer, the mode discipline, the handle table, the account of message handlers and the read loop |
| AsyncInvariants.ExecKeeps | src/redisclient/impl/redisclientimpl.cpp:258-543 | So does every run, with failures, malformed input and handlers that call back |
| AsyncMatching.ProcessMatches | src/redisclient/impl/redisclientimpl.cpp:258-335 | The next thing the server sent is handled as what it is: an answer, of any shape, goes to the handler of its request exactly as long as all since the first subscription are acknowledgements; a pushed message is posted and goes to no reply handler |
| AsyncMatching.RunInStep | src/redisclient/impl/redisclientimpl.cpp:496-543 | In every orderly run the values processed are exactly the replies complete in the bytes read, and have gone where the row above says |
| AsyncResults.CallsReachTheWire | src/redisclient/impl/redisasyncclient.cpp:92-144 | A call is accepted exactly in the states that allow it; its bytes decode to exactly its words; its handler goes with it, and what it changes is remembered; a refused call is only reported |
| AsyncResults.RepliesReachTheirHandlers | src/redisclient/impl/redisclientimpl.cpp:258-362 | In every run with a causal server that pushes messages only behind the answer to a subscription, answers of any shape, arbitrary read cuts and write completions and reentrant handlers: the answers received went to the handlers of their own requests if and only if all since the first subscription look like acknowledgements, and then no message was unexpected |
| AsyncResults.OrdinaryRepliesReachTheirHandlers | src/redisclient/impl/redisclientimpl.cpp:317-334 | The same without any assumption on the shape of replies when only ordinary commands are issued |
| AsyncResults.MatchedUnlessRacedOrRefused | src/redisclient/impl/redisclientimpl.cpp:258-316 | Over all such runs in which everything was answered, ordinary commands not by acknowledgements: the answers went to their own handlers if and only if no ordinary command was outstanding at the first subscription and no subscription, nor any unsubscription in subscribed mode, was refused |
| AsyncResults.SubscribedAnswersOnlyAcks | src/redisclient/impl/redisclientimpl.cpp:260-316 | In subscribed mode the oldest handler gets a value if and only if it is an acknowledgement |
| AsyncResults.SubscribedMode | src/redisclient/impl/redisclientimpl.cpp:260-316 | In subscribed mode, word by word: what is dispatched under which key with which payload, what calls the oldest handler, and what is reported |
| AsyncResults.AcknowledgementsAreAnswered | src/redisclient/impl/redisclientimpl.cpp:291-298 | The answers to SUBSCRIBE, UNSUBSCRIBE, PSUBSCRIBE and PUNSUBSCRIBE, for any channel or nil and any count, call the oldest handler |
| AsyncResults.SubscribedModeRejects | src/redisclient/impl/redisclientimpl.cpp:299-315 | Short arrays and other values are protocol errors there |
| AsyncResults.OtherModes | src/redisclient/impl/redisclientimpl.cpp:317-334 | In any other mode every value calls the oldest handler, or is reported as unexpected |
| AsyncResults.RaceMisroutes | src/redisclient/impl/redisclientimpl.cpp:258-316 | After a race the outstanding reply reaches no reply handler: it is posted if it looks like a message and reported otherwise; its handler gets the acknowledgement instead |
| AsyncResults.MessagesReachTheirHandlers | src/redisclient/impl/redisclientimpl.cpp:265-290 | Over every run, with any failures: the message handlers that ran and those on the strand are exactly the postings in order, and each posting is the oldest single shot waiting under its key and then every subscription live under it at that moment |
| AsyncResults.PushesReachTheirHandlers | src/redisclient/impl/redisclientimpl.cpp:265-290 | In the orderly runs the postings are the messages the server pushed, one for one, if and only if no answer since the first subscription looked like one |
| AsyncResults.MessagesStayInTheirKind | src/redisclient/impl/redisclientimpl.cpp:274-290 | Over every run, a message reaches exactly those it is meant for if and only if every subscription made under its key and not taken back, and the oldest single shot waiting there, is of its kind, channel or pattern |
| AsyncExamples.CommandAndReply | src/redisclient/impl/redisclientimpl.cpp:496-543 | A concrete family of runs meets the hypotheses: the reply even arrives before the write completes |
| AsyncExamples.SubscribingTooEarly | src/redisclient/impl/redisclientimpl.cpp:555-584 | A command and a subscription back to back: the command's handler is called with the acknowledgement |
| AsyncExamples.RefusedSubscription | src/redisclient/impl/redisclientimpl.cpp:260-316 | Two subscriptions of which the first is refused: its handler is called with the acknowledgement of the second |
| AsyncExamples.MessageCrossesKinds | src/redisclient/impl/redisclientimpl.cpp:274-290 | With one text subscribed to as a channel and as a pattern, a message for the pattern is posted to both handlers |
| AsyncResults.WritesAreOrdered | src/redisclient/impl/redisclientimpl.cpp:337-362 | Over every run, with any failures: at most one write in flight, `dataWrited` empty exactly when none is, the buffers handed over and then those queued are those of the requests in issue order; while writes succeed nothing is queued without one in flight, and at rest all are handed over |
| AsyncResults.FailuresAreReported | src/redisclient/impl/redisclientimpl.cpp:337-345 | Failed writes and failed reads are reported, cancelled reads are not; none starts another |
| AsyncResults.MalformedReplyStopsReading | src/redisclient/impl/redisclientimpl.cpp:520-543 | A malformed reply is reported behind the replies in front of it and no read is started; otherwise the next one is |
| AsyncResults.StoppedForGood | src/redisclient/impl/redisclientimpl.cpp:509-543 | Over every run: after a failed read or a malformed reply nothing that arrives is processed any more |
| AsyncResults.HandlesAreUnique | src/redisclient/impl/redisclientimpl.cpp:569-572 | Over every run: handles given out are distinct, every entry carries one, no two entries share one |
| AsyncResults.ReturnedHandles | src/redisclient/impl/redisclientimpl.cpp:555-584 | A subscription returns a new handle if and only if it is accepted, and that handle identifies its entry; a refused one returns 0 |
| AsyncResults.RefusedHandleErases | src/redisclient/impl/redisclientimpl.cpp:572-583 | Unsubscribing with the handle of a refused subscription removes the first accepted one of the channel |
| AsyncResults.TablesFollowTheCalls | src/redisclient/impl/redisclientimpl.cpp:274-290 | Over every run and for every key: the single-shot handlers stored are those posted, in order and once each, followed by those still waiting, and the others stored are the live subscriptions |
| AsyncResults.UnsubscribedForGood | src/redisclient/impl/redisclientimpl.cpp:628-645 | After unsubscribing, no later event of any run stores the entry again or posts a message to it, because handles are never reused |

## Left out

- RedisClients.RedisClientImpl.SyncReadResponse: promises nothing after an undefined header, where the original has no defined behaviour.
- RedisClients.RedisClientImpl.DoSyncPipeline: nor does this one, for the same reason.
- AsyncResults.RepliesReachTheirHandlers: about one connection, without `close` and without failing writes or reads; runs with failures are covered by AsyncInvariants.ExecKeeps and AsyncResults.MessagesReachTheirHandlers.
- Strand and threads: callbacks are atomic events in any order, the strand is a FIFO; executors and multithreading are not modelled. A pushed message only posts its handlers, so what those do later are separate events.
- `disconnect`, and reply handlers or connect handlers that disconnect while they run.
- Sockets, poll, timeouts and connecting in the synchronous client: replaced by the script in Sockets.Socket; a timeout is an end of file there as in the original.
- `close`, runs that go on after a reconnect, the debug-only assertions on the connection state, and a default error handler that throws: errors are recorded and the call returns.
- Server-side effects of UNSUBSCRIBE, which is sent even when other local handlers share the channel.
- Capacity reservation and allocation failure, so a header may declare any size up to 2^63-1.
- Container sizes beyond PTRDIFF_MAX (Commands.Storable), and a 32-bit `long`.
- `inspect`, comparison and the other accessors of RedisValue, the two representations inside RedisBuffer, the amalgamated copy, examples, benchmarks and build files: they play no part in the properties.
