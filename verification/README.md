# A verified model of MQTTv1

MQTTv1 is a small publish/subscribe system. Publishers send comma-separated frames of system
measurements to a broker; the broker forwards to each subscriber the topics its filter selects, as
labelled lines. All traffic goes through the Rio robust I/O package of `csapp.c`. This project models
four parts of it and proves what they promise:

- **Rio** (`Kernel.dfy`, `Lines.dfy`, `RioSpec.dfy`, `Rio.dfy`, `Arrivals.dfy`, with `Echo.dfy` as a
  whole-run client). The kernel is a byte stream with an arbitrary finite schedule of short counts, interrupts and errors,
  followed by full transfers (a terminating run makes finitely many calls, so no schedule is lost).
  `RioT` is a class with the 8192-byte array, the cursor and the count, and its methods keep the loops
  of the source. Each method is proved equal to a function of the unread bytes and the schedule, and
  those functions are proved to be a plain cursor on the byte stream: buffering and chunking are
  invisible.
- **The broker as a protocol** (`Broker*.dfy`). A small-step transition system in which one step is one
  access to shared state: any number of threads register under `sem_mutex`, are let through
  `sem_control`, and then scan the same tables without a lock. `BrokerSafety`, `BrokerCounting` and
  `BrokerScan` hold the inductive invariants, `BrokerRuns` the theorems about every run, and
  `BrokerRace` a property that fails, with exactly the clients it fails for; `BrokerFilters`
  ties registration and calls to the filter strings, `BrokerProgress` says where threads can stop,
  `BrokerLookup` when a publisher is not found, and `BrokerTurns` shows that the forwarders make their
  calls in the turns of `Dispatch`.
- **Frames and topics** (`Tokenizer.dfy`, `Topics.dfy`, `Frames.dfy`, `Forwarding.dfy`,
  `Subscriptions.dfy`, `Dispatch.dfy`, `Deliveries.dfy`, `ForwardLoop.dfy`). From the publisher's six
  fields through the broker's tokenizer and topic mask to the lines the subscriber reads; the wildcard
  branch tree against section 4.7.1 of MQTT Version 3.1.1; what is lost because each call declares a new `rio_t`; and how the forwarding loop shares its turns
  and the lines among the subscribers.
- **Number printing** (`Sio.dfy`). `sio_ltoa` and `sio_reverse` as in-place array methods, against an
  independent reader of numerals.

`dafny verify dfyconfig.toml` checks everything.

## What turned out to be false of the code

- A subscriber does not always get its own topics: `client_sus_list[i]` is written before
  `topic_list[i]` (broker_server.c:227, 236-238), so a forwarder can copy entries that are still zero.
  `BrokerRace.RaceIsLostExactly` says for which clients this can happen: those that subscribe to
  somebody with a filter that leaves a topic out. `BrokerRuns.CallsAreRight` says what holds of
  every call, and when its row is right too: if the slot was below `fd_idx` when its subscription was
  read.
- A publisher lookup can yield -1, with which the source then indexes its tables
  (broker_server.c:316): a subscriber may register before its publisher. `BrokerLookup.StrandsForwarder`
  gives the run, `BrokerLookup.InOrderStrandsNobody` the order of registration that prevents it, and
  `BrokerLookup.StrandsExactly` the clients that can cause it.
- The branch tree of `update_sus_info` is not the wildcard matcher for every filter.
  `Topics.AgreesExactly` gives the filters on which the two agree, `Topics.Disagreements` two on which
  they do not, and `Topics.KeepsWhatItIsTakenFor` what the tree does instead, for every filter. One of
  the two, `node1/task/#`, is the example on line 44 of the repository's own README.md, said there to
  select `tasks/...`; the code gives the memory topic, and the model follows the code.
- `sio_ltoa` prints one character for a negative number, and a numeral for v exactly when v is not
  negative (`Sio.OneCharacter`, `Sio.PrintsExactly`).
- `forward_message` loses what a read brought behind the line it takes. `Forwarding.ConsumedIsTaken`
  says what is taken under every schedule, and `Forwarding.NoFrameLostExactly` when nothing is lost: if
  and only if no read brings a byte behind a newline.
- The echo server answers a line "help" with a text of its own (`Echo.EchoesExactly`).

## Model

| member | source | states |
|---|---|---|
| Lines.FirstLineIsLine | csapp.c:852-876 | the line a reader takes stops only at a newline, at the limit or at the end of the stream, and holds no newline before its last byte |
| Lines.LineIsUnique | csapp.c:852-876 | only one string meets those stopping rules, so it is the shortest of "through the first newline", maxlen - 1 bytes and the rest |
| Lines.PiecesConcat | csapp.c:852-876 | the pieces that repeated line reading cuts a stream into concatenate to the stream |
| Lines.FirstLineOfText | csapp.c:852-876 | a text line in front of any stream is read back exactly if and only if it fits the limit |
| Lines.PiecesOfText | csapp.c:852-876 | a stream of text lines that fit is cut into exactly those lines |
| RioSpec.RioReadLaw | csapp.c:786-811 | rio_read conserves the stream, delivers at most n bytes, reports the end only at the end, and fails only on a hard error, with nothing delivered |
| RioSpec.ReadsAhead | csapp.c:790-810 | an empty reader asks the kernel for 8192 bytes whatever its caller wants, hands over what was asked for and keeps the rest |
| RioSpec.ReadBytesLaw | csapp.c:830-845 | rio_readnb delivers exactly the next min(n, rest) bytes, or fails on a hard error having stored fewer than n; no byte is lost either way |
| RioSpec.ReadLineLaw | csapp.c:852-876 | rio_readlineb delivers exactly the next line, or fails on a hard error having stored a proper beginning of it |
| RioSpec.ReadNLaw | csapp.c:730-749 | rio_readn returns exactly the first min(n, remaining) bytes, or -1 on a hard error after a shorter beginning |
| Arrivals.ChunksConcat | csapp.c:790-801 | the reads of a schedule bring a beginning of the stream, and all of it unless a hard error comes first |
| Arrivals.RioReadFails | csapp.c:786-811 | rio_read fails exactly when nothing is buffered and a hard error comes before any byte and before the end of the stream |
| Arrivals.ReadBytesFails | csapp.c:830-845 | rio_readnb fails exactly when a hard error comes before n bytes and before the end of the stream |
| Arrivals.ReadLineFails | csapp.c:852-876 | rio_readlineb fails exactly when a hard error comes before the line is complete and before the end of the stream |
| Arrivals.ReadNFails | csapp.c:730-749 | rio_readn fails exactly when a hard error comes before n bytes and before the end of the stream |
| Arrivals.LineInBuffer | csapp.c:852-876 | a line that is complete in the buffer is read without another read(); otherwise all of the buffer goes into it |
| Arrivals.LineFromChunks | csapp.c:852-876 | rio_readlineb on a new rio_t takes the first line of what the reads bring and uses up exactly the reads up to its end |
| RioSpec.RunConserves | csapp.c:786-876 | after any mix of calls, failed ones included, bytes delivered, bytes buffered and bytes in the kernel make up the original stream |
| RioSpec.ReaderRefinesCursor | csapp.c:786-876 | any mix of calls is answered as by a cursor on the pure stream as long as none fails, and none fails if the kernel never does |
| RioSpec.ChunkingIndependence | csapp.c:786-876 | two readers with the same bytes to come, under any two schedules of short reads and interrupts, give the same answers and end with the same rest |
| RioSpec.ReaderReadsPieces | csapp.c:852-876 | reading lines to the end of the stream yields its pieces, under every schedule |
| RioSpec.WriteNLaw | csapp.c:756-773 | rio_writen sends all n bytes in order or a proper beginning of them; it sends all exactly when no hard outcome comes before there was room for them |
| Rio.RioT.ReadInitB | csapp.c:818-823 | a new reader has nothing buffered and everything still to come |
| Rio.RioT.Refill | csapp.c:790-801 | the refill loop changes nothing that rio_read will answer; it ends with bytes buffered, at the end of the stream, or on a hard error |
| Rio.RioT.CopyOut | csapp.c:803-810 | min(n, rio_cnt) bytes move to the caller and the cursor passes them, staying inside rio_buf |
| Rio.RioT.RioRead | csapp.c:786-811 | the method computes its specification, stores exactly the bytes it counts, and leaves the rest of the caller's buffer alone |
| Rio.RioT.ReadNB | csapp.c:830-845 | the same for the loop of rio_readnb |
| Rio.RioT.ReadLineB | csapp.c:852-876 | the same for the loop of rio_readlineb; the terminator follows the last byte stored, inside maxlen, and is not written at the end of the stream |
| Rio.RioT.NextLine | csapp.c:911-918 | as its callers see it: the count and bytes of the next line of whatever is to come, terminated, or -1 only after a hard error |
| Rio.ReadNUnbuffered | csapp.c:730-749 | the loop of rio_readn computes its specification and stores exactly the bytes read |
| Rio.WriteNBytes | csapp.c:756-773 | the loop of rio_writen appends exactly what its specification says and returns n or -1 |
| Echo.NulFreeIsClean | prototypes/demo_tcpip/echoserveri.c:42-59 | NUL-free input meets what the loop demands of its input |
| Echo.SeesHelp | prototypes/demo_tcpip/echoserveri.c:50 | for a line as rio_readlineb cuts it, strcmp takes it for "help\n" exactly when it is |
| Echo.Answer | prototypes/demo_tcpip/echoserveri.c:50-57 | the body of the loop sends the line itself or the 16-byte help reply |
| Echo.Run | prototypes/demo_tcpip/echoserveri.c:42-59 | the whole conversation, under every read and write schedule: it ends, having sent the reply to each piece in order, or a beginning of that if the process exits; it exits only after a hard error |
| Echo.EchoesExactly | prototypes/demo_tcpip/echoserveri.c:42-59 | the output equals the input exactly when no piece of it, cut at newlines and at 8191 bytes, is "help\n" |
| Echo.HelpReply | prototypes/demo_tcpip/echoserveri.c:50-51 | a line "help" among other lines is answered with "NO HELP FOR YOU", and the others are echoed around it |
| Sio.ReverseAt | csapp.c:217-226 | what reversing means, position by position |
| Sio.StrLen | csapp.c:241-248 | the index of the first NUL |
| Sio.ReverseInPlace | csapp.c:217-226 | the string before the NUL is reversed, the rest of the array is unchanged |
| Sio.DivisionLoop | csapp.c:233-235 | the do-while loop ends and leaves the digits, least significant first, and nothing else changed |
| Sio.LtoaInto | csapp.c:229-238 | the array holds the numeral, terminated, and is unchanged behind it |
| Sio.Putl | csapp.c:259-265 | exactly one write of the decimal numeral: what the kernel accepts of it is sent and returned |
| Sio.LtoaIsNumeral | csapp.c:229-238 | for v >= 0 the result is made of digits of the base, has value v, and no leading zero unless v is 0 |
| Sio.PrintsExactly | csapp.c:229-238 | the printed form is a numeral, optionally signed, with value v if and only if v >= 0 |
| Sio.OneCharacter | csapp.c:233-235 | for a negative number the loop stops after one character, as far below '0' as the remainder is below zero |
| Sio.NumeralIsUnique | csapp.c:229-238 | the inverse: every numeral is what is printed for its value |
| Sio.LtoaLength | csapp.c:229-238 | a number below b to the k prints in at most k digits |
| Sio.LongFits | csapp.c:259-265 | every 64-bit number, in every base, fits the 128-byte buffer with its terminator |
| Sio.NoNulDigits | csapp.c:229-238 | no digit is a NUL, so sio_reverse and strlen see all of them |
| Tokenizer.StrTok | broker_server.c:258-271 | one strtok call returns the next token, terminated in place, and leaves the saved position before the remaining tokens |
| Tokenizer.Split | broker_server.c:258-271 | argv has one pointer per token of the line, in order, and at the end each still points at its token |
| Tokenizer.TokensOfJoin | broker_server.c:258-271 | for every list of delimiter-free parts, the tokens of their join are the non-empty ones, in order |
| Tokenizer.JoinOfParts | broker_server.c:258-271 | every string is the join of its delimiter-free parts |
| Tokenizer.PartsAreUnique | broker_server.c:258-271 | and of no other list of delimiter-free parts |
| Tokenizer.TokensAreParts | broker_server.c:258-271 | so the tokens of any string are its non-empty parts |
| Tokenizer.SplitUndoesJoin | broker_server.c:258-271 | splitting a join gives the list back exactly when its members are non-empty and delimiter-free |
| Topics.KeepOnly | broker_server.c:363-367 | every slot of the mask but one becomes -1 |
| Topics.UpdateSusInfo | broker_server.c:331-452 | the mask in place: -1 for every topic the tree does not keep, unchanged for the others |
| Topics.KeepsWhatItIsTakenFor | broker_server.c:331-452 | for every subscription the tree keeps exactly what the standard's matcher accepts for the filter it takes it for, default branches included |
| Topics.SupportedTails | broker_server.c:331-452 | the tree and the matcher agree on all six topics exactly for the supported tails |
| Topics.AgreesExactly | broker_server.c:224-238 | for every subscription string, the mask left of one with no -1 enables a topic exactly when the matcher accepts it, if and only if the string has no empty level and a supported tail |
| Topics.Disagreements | broker_server.c:336-346 | two subscriptions on which they differ, one of them the README's own example |
| Frames.CommasToPeriods | pub_client.c:184-190 | same length, a period for every comma, every other character unchanged |
| Frames.LabelIsTopic | broker_server.c:40 | the label of each topic is its name, level by level |
| Frames.ChangeCommaForPeriod | pub_client.c:184-190 | the string is changed in place that way, up to its terminator and no further |
| Frames.Publisher.JoinFullInfo | pub_client.c:123-146 | full_info is the six fields joined with commas, the last character replaced by a newline |
| Frames.FrameTokens | pub_client.c:133-145 | a frame of clean fields is one text line, and cutting it gives the fields back, the last with the newline for its last character |
| Frames.SendTokens | broker_server.c:151-169 | the tokens are cut in place and one labelled line per selected topic is sent, in order |
| Frames.ForwardMessage | broker_server.c:127-177 | one line is taken from the publisher and its labelled lines go to the subscriber; what a failed run sent is a beginning of that; the publisher's stream moves as one line read from a new reader moves it |
| Frames.ExpectedLines | broker_server.c:154-169 | for a frame of clean fields the lines sent are topic name, field and newline for each selected topic, and each is one text line |
| Frames.EndToEnd | broker_server.c:143-169 | under all schedules of both streams, the broker reads back the very frame and the subscriber reads exactly one line per selected topic, in topic order, each the topic's name and its field, the memory field less its last character |
| Subscriptions.MaskedIsAccepted | broker_server.c:154-169 | for a filter on which tree and matcher agree, the lines for the mask are the lines for the accepted topics |
| Subscriptions.FilterToLines | broker_server.c:143-169 | for every supported filter, the subscriber reads exactly one line for each topic that the wildcard rules accept, with its name and field, under all schedules |
| Subscriptions.SixTopics | broker_server.c:331-452 | subscribing to each of the six topics by name brings that topic's name and the measurement the publisher joined in its place |
| Forwarding.NothingInvented | broker_server.c:139-143 | under every schedule the bytes that repeated calls consume are a subsequence of those the publisher sent |
| Forwarding.ConsumedIsTaken | broker_server.c:139-143 | under every schedule, hard errors included, n calls take exactly this: each the first line of what the reads still to come bring, the reads it used up being gone with all that they brought behind that line |
| Forwarding.UsedSplit | broker_server.c:139-143 | what one call uses up is its line and a lost end of its last read |
| Forwarding.NoLossNothingBehind | broker_server.c:139-143 | if no byte of any stream is lost, no read brought a byte behind a newline |
| Forwarding.NoFrameLostExactly | broker_server.c:139-143 | exactly the published frames are consumed, in order, if and only if the reads bring all of them before any hard error and no read brings a byte behind a newline, wherever else they cut |
| Forwarding.SplitFrames | broker_server.c:139-143 | bytes that end where a line ends are a whole number of frames, at least one |
| Forwarding.WholeFramesOnly | broker_server.c:139-143 | each consumed line is a whole published frame, in order, when every read that brings bytes behind a newline ends with one; other reads may cut anywhere |
| Forwarding.FirstLineOfEachRead | broker_server.c:139-143 | when every read holds a whole line, exactly the first line of each is taken |
| Forwarding.SecondFrameLost | broker_server.c:139-143 | of two frames that one read of the 8192-byte buffer brings, only the first is ever consumed |
| Forwarding.ArriveTogether | csapp.c:790-801 | two frames that fit the buffer are brought by one read when both are there |
| Forwarding.Repeat | broker_server.c:306-326 | n rounds for one subscription send the labelled lines of exactly the consumed frames, in order |
| Dispatch.FindIndexByClientName | broker_server.c:273-280 | the first entry of that name before the null entry, or -1 when there is none |
| Dispatch.ServeSlot | broker_server.c:308-324 | a call for a subscribed slot reads from the client named in it, writes to its own descriptor and carries its own topics |
| Dispatch.FairShares | broker_server.c:306-326 | after m calls each of the s subscribed slots was served m / s times, and the first m % s once more |
| Dispatch.RoundRobin | broker_server.c:306-326 | so at every point of a run the shares of two subscribed slots differ by at most one |
| Dispatch.PublisherTakesTurns | broker_server.c:306-326 | the calls that read from one publisher serve its own subscribers in turn, whoever else is served in between |
| Deliveries.EachLineOnce | broker_server.c:306-326 | in any sequence of turns, the lines read from a publisher and the turns of its subscribers pair off in order: each consumed line goes to exactly one subscriber |
| Deliveries.LinesTakeTurns | broker_server.c:306-326 | over m calls, the j-th line consumed from a publisher goes to the j-th of its own subscribers, counted round and round in slot order |
| Deliveries.TableCanTakeTurns | broker_server.c:306-326 | in a table whose subscribed publishers are registered every turn has a stream to read |
| ForwardLoop.ForwardOne | broker_server.c:308-324 | one turn: the publisher's stream moves by one line, the slot's own client receives its labelled lines, no other client receives anything |
| ForwardLoop.TakeTurn | broker_server.c:308-324 | one turn carries out the next delivery |
| ForwardLoop.ForwardMessages | broker_server.c:298-328 | the first m calls of the loop, for every m, go round the subscribed slots in slot order, each for its own slot, and every client receives exactly the labelled lines delivered to it |
| BrokerSafety.StepKeepsRegistry | broker_server.c:189-249 | every step of every thread keeps the lock, the registered slots and the untouched slots as they should be |
| BrokerSafety.WrittenNext | broker_server.c:191-238 | field by field, in the order of the writes, an empty slot grows into the record of the connection |
| BrokerCounting.StepKeepsCounting | broker_server.c:242-252 | every step keeps the count of posts, credits and forwarders |
| BrokerCounting.OneIsLeftOver | broker_server.c:242-252 | no forwarder before two registrations, never more than N - 1 of N, and the registered threads not past the semaphore outnumber its value by one |
| BrokerScan.PublishedMeansNamed | broker_server.c:191-227 | a subscription that can be read means that its slot and all before it hold the descriptor and name of their clients, even in the middle of a registration |
| BrokerScan.StepIsLater | broker_server.c:189-249 | a step never changes what a slot already holds: it only fills in what was missing |
| BrokerScan.NextKnows | broker_server.c:306-326 | each step of a forwarder leads to a position whose needs are met; the subscriber lookup stops at or before the slot being served |
| BrokerScan.NothingOutOfBounds | broker_server.c:306-326 | whatever a thread is about to touch is in range and not null |
| BrokerScan.StepKeepsScanning | broker_server.c:306-326 | every step of any thread keeps what all forwarders know |
| BrokerRuns.RunKeepsInv | broker_server.c:180-328 | all invariants hold after every run, and no run overwrites what an earlier state had |
| BrokerRuns.SafeTables | broker_server.c:189-249 | in every reachable state: mutual exclusion, slots below fd_idx hold exactly their connection's record, slots above are untouched, no access is out of range or null, and no subscriber lookup yields -1 |
| BrokerRuns.PublishedInOrder | broker_server.c:191-227 | the same in every reachable state |
| BrokerRuns.WrittenOnce | broker_server.c:189-249 | registered slots and the order of registration never change again |
| BrokerRuns.ForwarderCount | broker_server.c:242-252 | in every reachable state outside the window between increment and post, the value of sem_control plus the threads past it is max(0, fd_idx - 1); nobody forwards before two registrations |
| BrokerProgress.OnlySemaphoresBlock | broker_server.c:180-328 | in every reachable state a thread can go on unless it waits for a semaphore, the tables are full or its publisher lookup has failed; the holder of the lock always can |
| BrokerProgress.RegisteredWereAccepted | broker_server.c:114-116 | every registered client is a connection accepted in the run, just as it arrived |
| BrokerProgress.EveryCallIsKept | broker_server.c:324 | the history of calls is exactly the calls that the threads make |
| BrokerLookup.InOrderStrandsNobody | broker_server.c:305-316 | if every published subscription names a client at or before its own slot, no forwarder's publisher lookup has yielded -1: each one let through is still in its loop |
| BrokerLookup.StrandsForwarder | broker_server.c:316 | for every client that subscribes to another there is a run in which a publisher lookup yields -1 |
| BrokerLookup.StrandsExactly | broker_server.c:316 | the only subscriber of a broker can make a lookup fail if and only if it subscribes to somebody else |
| BrokerRuns.CallsAreRight | broker_server.c:307-324 | every forward_message call has the subscription and name of the client in its slot and the descriptors of the first clients of the two names, and its topic row too if the client was registered when scanned; a call for a client not yet registered can only be for the one registering |
| BrokerFilters.FilterOf | broker_server.c:216-240 | what is stored for a client: its publisher is the first non-empty level of its filter, its row is the filter's, and the row is what the wildcard rules accept if and only if the filter is a supported one |
| BrokerFilters.RegisteredFilters | broker_server.c:216-240 | that is what every registered slot holds, in every reachable state |
| BrokerFilters.CallsMeetFilters | broker_server.c:307-324 | every call reads from the node that its client's filter names, and a settled one sends exactly the topics that the wildcard rules accept, if and only if the filter is a supported one |
| BrokerRuns.NeverTooFewTopics | broker_server.c:312-314 | no call, settled or not, leaves out a topic that the subscription selects |
| BrokerRuns.CallsWithDistinctNames | broker_server.c:307-324 | with distinct names every call joins exactly the subscriber's and its publisher's descriptors |
| BrokerRace.LateRow | broker_server.c:227-238 | for every subscriber there is a run with a call that carries an all-zero row for its slot |
| BrokerRace.RaceIsLostExactly | broker_server.c:227-238 | calls for a client have its own topics in every run if and only if it subscribes to nobody or its filter leaves no topic out |
| BrokerTurns.TurnStep | broker_server.c:306-326 | one step of a forwarder over a complete table keeps its place in the turns |
| BrokerTurns.TurnsInRun | broker_server.c:298-328 | in every interleaving that leaves a complete table as it is, the calls of each forwarder go round the subscribed slots in slot order, each for its own slot |

## Left out

- Broker.State: the four parallel tables are one sequence of slot records, and threads are values in a transition system rather than objects, because what is proved is about interleavings of single accesses.
- Broker.Enabled: a registration that would fill the tenth slot is not a step of the model; after it the source has no null entry to end a scan.
- Broker.NextPc: the two reads of client_sus_list[i] at lines 308 and 309 are one step (the entry never changes once read), and a publisher lookup that finds nothing ends the thread instead of indexing with -1.
- Broker.IsConn: the uninitialised subscribed_info is assumed to hold no -1, and a subscription must have the tokens update_sus_info reads; the two-entry token array of broker_server.c:196 is taken to be large enough.
- The two handshake lines of a connection are inputs of the model (their reading is covered by Rio.RioT.NextLine); the name and subscription strings live on the registering thread's stack, which never returns.
- BrokerRace.RaceIsLostExactly: speaks of the set of topics a row selects; the other entries are arbitrary values that only -1 is compared with.
- ForwardLoop.ForwardMessages: the tables are fixed and hold distinct names, registered publishers and one open descriptor a client; the loop is watched up to its m-th call because the source's never ends. A loop with no subscribed slot at all, which spins, is not watched.
- BrokerTurns.TurnsInRun: is about runs in which nobody registers meanwhile, from the start of a pass.
- Frames.ForwardMessage: requires a token for every selected topic, because the source would otherwise read an unset pointer; its 50-byte and 100-byte buffers are taken to be large enough, its unused second reader and its log messages are not modelled, and the newline it stores behind the terminator is dropped.
- Frames.Publisher.JoinFullInfo: the malloc'd buffer is a string that starts empty and is large enough; the source clears neither and allocates too little.
- Frames.EndToEnd: the frame and the lines must fit the 8192-byte line buffers of their readers.
- separar_tokens of pub_client.c: the same loop as split, plus a closing NULL entry.
- Tokenizer.StrTok: the position that strtok keeps is a parameter and a result, so two threads never disturb each other's splitting.
- Echo.Run: the log line is left out, and a piece that starts with a NUL is excluded, because the source then writes before its buffer; where the wrappers end the process the method returns.
- Sio.LtoaInto: bases 2 to 36 only; beyond them the source leaves the letters.
- Sio.Putl: numbers up to the largest 64-bit long; negative ones are covered as the code treats them.
- Counts and lengths are unbounded integers: requests above INT_MAX bytes, for which rio_read and rio_readlineb truncate, are not modelled.
- Rio_readn, Rio_writen and the other error wrappers, and unix_error: they end the process, which the callers here return as a status.
- find_topic_by_name, write_log, sig_handler, main and the socket, process, signal, mmap, stdio and pthread wrappers: plumbing, or never called.
- sub_client.c, echoclient.c, exec_top.c, exec_grep.c: the subscriber's loop is a sequence of line reads; the rest starts processes.
- pub_client.c's token positions in the output of top and its floating-point memory percentage: the six fields are inputs.
- prototypes/demo_tcpip/csapp.c: the same package again.
