# FlowCtl.Game broker: verified model

A judge talks to several solutions through a broker. Each solution is a process that is
frozen except while the broker exchanges data with it over two pipes. The judge opens a
session for a solution (`begin`), sends it bytes (`send`) and closes the session (`end`),
which returns the next token of the solution's output. Tokens are cut by a loadable
tokenizer. The judge and the broker exchange escaped, newline-terminated text records.

This project models that behaviour and proves what the judge can rely on.

| file | models |
|---|---|
| `Basics.dfy` | byte strings, options |
| `Tokenizers.dfy` | the tokenizer contract; `split`, `split_char` and any other byte automaton |
| `SplitTokenizer.dfy`, `SplitCharTokenizer.dfy` | the two shipped tokenizers and what they find |
| `Sessions.dfy` | the state of one solution and the effect of each broker operation |
| `Runs.dfy` | whole runs: the coupling of buffers and tokenizer; refinement of a stream reader |
| `Visibility.dfy` | when chunking and scheduling can be noticed by the judge |
| `Terminations.dfy` | which calls have certain answers although `terminate` drops what was read ahead |
| `Streams.dfy` | conservation of output and input bytes, end of output |
| `Tokens.dfy` | what `end` returns, in terms of the argument of `begin` and no tokenizer |
| `Restarts.dfy` | what a session inherits from earlier ones |
| `Communicate.dfy` | the steps of `communicate` on one session, and which transfers they can add up to |
| `Fleet.dfy` | several solutions: independence, freezing and thawing |
| `Kernel.dfy` | the environment: clock, pipes, epoll, killer |
| `BrokerImpl.dfy` | the broker object with its event loop |
| `TextCodec.dfy`, `Archives.dfy`, `Decimal.dfy` | escaping, records, numbers |
| `BrokerInterface.dfy` | client stubs and server of the remote broker |
| `Judge.dfy` | the judge's own implementation of the wire format |
| `Server.dfy` | the broker process: the judge's commands served on the broker object |

## How the model is built

The environment is nondeterministic. A read returns any nonempty prefix of the bytes the
solution will still write, up to `BUFSIZ` (8192, the glibc value), or would block, or fails.
A write takes any nonempty prefix, or would block, or fails. `epoll_wait` returns any batch
that a kernel may deliver for the registered descriptors, in any order. The clock advances by
an arbitrary positive amount at every reading, and a wait sleeps at most its timeout; this and
the next assumption are what termination rests on. `Pipes.unread`
is a finite prophecy of everything a solution will still write. The killer may report errors.

The kernel keeps ghost records that the broker cannot write: of every wait, what was registered,
what the solution had been delivered, whether the write end was reported broken, the time, the
reported events not yet attended to, and the batch (`Wait`); of the pipes, the reported events
still owed an answer, the number of failed reads and writes, and what the killer had been told
whenever the pipes were read, written or waited for (`Pipes.owed`, `errors`, `usedWith`).
An event is attended to when its descriptor is removed, or when a transfer would block or meets
the end of file; removing and registering a descriptor again does not attend to it.

The broker object carries a ghost log of its operations together with what the environment did
during each `end` (`IO`). `BrokerImpl.Valid` says that every solution is exactly where the
legal run `log` of the model leads, and that the killer has been given exactly the commands of
that run. Every theorem about runs therefore holds of every reachable broker; `JudgeSeesTheStream`,
`ObjectIsCoupled` and `ObjectIsFrozen` say so for the object.

The main results:

- **Token refinement.** A run without timeout or system error, in which no `terminate` drops bytes
  read ahead, gives the judge what a plain reader gives that cuts tokens off the solution's
  output and knows no buffers, chunks or clock (`RunRefinesReader`). After any termination or
  timeout, the reader starts again on the bytes still unread (`ReaderRestarts`); how many these
  are depends on how far the broker had read.
- **Every answer fits the argument of its `begin`** (`EveryAnswerFits`, and `End` of the object),
  whatever the environment does: with `split` and `split_char`, an OK answer is the beginning of
  the bytes not yet returned up to the separator the argument spells, and another answer says why
  there is none; with any other library, it is where the folded automaton first accepts.
- **As long as no `terminate` drops bytes read ahead, scheduling is invisible exactly when the
  tokenizer never fails** (`InvisibleIffNeverFails`). The code drops the whole chunk in which a
  tokenizer fails, so for every library that can fail there are two runs of the same calls on
  the same output with different answers. The shipped tokenizers never fail.
- **If `terminate` may find bytes read ahead, scheduling is invisible exactly when the tokenizer
  neither fails nor accepts** (`InvisibleAcrossTerminateIffNeverDecides`): `terminate` clears
  `outbuf`, so what later sessions see depends on the chunk the last session read. An instance
  with `split_char` is `TerminateShowsReadAheadOfSplitChar`. What a judge can check of its own
  calls: with the shipped tokenizers their answers are certain, on every output and under every
  schedule, exactly when no session is ended both before and after a `terminate`
  (`CertainIffNoEndsAroundTerminate`).
- **No wakeup is lost and no outcome is without a cause** (`Communicate`). Every wait watches the
  output, and the input until all of it has been taken or the kernel has reported the write end
  broken, with every earlier event attended to and before the deadline. A timeout comes past the
  deadline with nothing left unattended, an error exactly if the kernel reported one, and an
  undecided end only after the kernel reported the end of the output. `End` carries these causes
  to the broker, and `Valid` says that a broker has crashed if and only if a read or write failed.
- **A solution's pipes are used only while it is the one thawed process**
  (`ObjectServesTheThawed`), and the killer is told to terminate a process exactly as often as
  its sessions are terminated or run out of time (`ObjectKills`).
- **`split` finds the first occurrence of its separator on every input if and only if** the
  separator repeats its beginning wherever its first byte returns (`SplitIsExactIffOverlapSafe`).
  For any other separator an input that it misses is given.
- **The wire format is a bijection**, the judge's own codec agrees with it on every line, and
  remote calls are direct calls (`RemoteCallsAreDirectCalls`).
- **End to end**, the commands the judge prints, served on the broker object, bring back lines that
  the judge splits into the status and data that plain readers of the solutions' outputs give
  (`ServeJudge`, `JudgeGetsTheTokens`). The server gets to the end of its input if and only if
  the judge's calls are permitted and no read or write failed.

## Reading notes

- `Result result;` at `src/lib/BrokerImpl.cpp:110` leaves `status` unset, and line 122 reads it
  even if `communicate` was skipped. The model takes the intended value `OK`.
- The header warns that only one solution may be active at a time
  (`include/yandex/contest/invoker/flowctl/game/Broker.hpp:86-88`). The code has no such limit,
  and `Projection` holds for any interleaving of open sessions.
- The header says that `terminate` closes all related resources (line 117). The code clears the
  buffers but keeps the pipes: bytes the solution had already written are still there for later
  sessions, as `BlankIsANewSolution` states.
- `defaultTokenizerArgument` is not read from the configuration
  (`include/yandex/contest/invoker/flowctl/game/BrokerImpl.hpp:55-71`), so `begin(id)` passes the
  empty string, which both shipped tokenizers refuse by assertion. `BeginDefault` requires an
  argument that the tokenizer takes.
- `Clock::now() + realTimeLimit` is a sum of 64-bit nanoseconds, and the judge may send any 64-bit
  number of milliseconds. `Communicate` promises the deadline start + limit if limit and deadline
  fit; if not, its deadline is arbitrary. The header has a note on this overflow
  (`include/yandex/contest/invoker/flowctl/game/Broker.hpp:42-43`).
- The broker's assertions are preconditions of the model's methods. In the text protocol, where
  the input is not under the caller's control, failed assertions and exceptions are results
  (`Fault`), also those of the broker behind the server.
- Bytes are Dafny characters. The constants of the machine widths are in `Basics.dfy`.

## Model

| member | source | states |
|---|---|---|
| Tokenizers.FeedConcat | src/tokenizers/split.c:65-80 | parsing b after an undecided a gives the verdict, state and shifted position of parsing a + b; a decision within a ignores b |
| Tokenizers.ChunkingIsInvisible | src/lib/BrokerImplCommunicate.cpp:128-163 | every partition of the input into chunks gives the result of one scan |
| Tokenizers.FeedFindsTheToken | include/yandex/contest/invoker/flowctl/game/Tokenizer.hpp:20-36 | a scan accepts after n bytes iff the first n bytes are a complete token, and no other prefix is one |
| SplitTokenizer.SplitInstance.constructor | src/tokenizers/split.c:25-45 | the separator is the argument up to its first NUL, nothing is matched yet; the instance is the one the broker starts a session with, unless the argument starts with NUL |
| SplitTokenizer.SplitInstance.Parse | src/tokenizers/split.c:56-81 | the loop reports the verdict, the accepted size and the state of the byte-at-a-time scan |
| SplitTokenizer.AcceptsOnlySeparators | src/tokenizers/split.c:65-79 | whatever the separator, accepted bytes end with it |
| SplitTokenizer.SplitIsExactIffOverlapSafe | src/tokenizers/split.c:56-81 | the search finds the first occurrence on all inputs iff the separator repeats its beginning wherever its first byte returns |
| SplitTokenizer.MissesOverlap | src/tokenizers/split.c:9-14 | for a position p that violates this, the input sep[..p] + sep ends with the separator and is not accepted |
| SplitTokenizer.OverlappingTestIsMissed | tests/SharedTokenizer.cpp:82-88 | the expected failure of the repository's own test is one such input |
| SplitCharTokenizer.Parse | src/tokenizers/split_char.c:31-49 | accepts iff the byte occurs, at its first occurrence, leaving the tokenizer unchanged |
| SplitCharTokenizer.SearchIsScan | src/tokenizers/split_char.c:37-48 | the stateless search equals a byte-at-a-time automaton |
| SplitCharTokenizer.SplitRefinesSplitChar | src/tokenizers/split.c:56-81 | with a one-byte non-NUL separator, split reports what split_char reports on every chunk sequence up to the first acceptance |
| Runs.BeginCouples | src/lib/BrokerImpl.cpp:60-92 | begin on any read-ahead leaves a coupled session |
| Runs.CommunicateKeepsCoupling | src/lib/BrokerImplCommunicate.cpp:128-163 | every loop state of communicate is coupled until the tokenizer fails |
| Runs.ReachableIsCoupled | src/lib/BrokerImpl.cpp:60-154 | in every reachable state an undecided session has empty outbuf and a tokenizer that consumed exactly result; an accepted one holds exactly one complete token |
| Runs.EndScansPending | src/lib/BrokerImpl.cpp:101-144 | however reads were cut, a session decides as one scan of all bytes not yet returned, and keeps the rest in order |
| Runs.RunRefinesReader | src/lib/BrokerImpl.cpp:60-154 | over any run without timeout or system error in which no terminate drops bytes read ahead, the answers are those of a reader of one byte stream, and what is left for it is what is buffered and unread |
| Visibility.SameCallsSameAnswers | src/lib/BrokerImplCommunicate.cpp:39-164 | with a tokenizer that never fails, any two schedules of the same calls give the same answers if every terminate finds nothing read ahead |
| Visibility.FailureShowsChunking | src/lib/BrokerImplCommunicate.cpp:152-155 | with a tokenizer that can fail, begin, end, begin, end have two runs on the same output with different answers |
| Visibility.InvisibleIffNeverFails | src/lib/BrokerImplCommunicate.cpp:128-163 | as long as no terminate drops bytes read ahead, scheduling and chunking are invisible to the judge iff the tokenizer library never fails |
| Visibility.ShippedLibrariesHideScheduling | src/tokenizers/split.c:56-81 | as long as no terminate drops bytes read ahead, they are invisible with split and split_char |
| Visibility.TerminateShowsReadAhead | src/lib/BrokerImpl.cpp:146-154 | with a tokenizer that can accept or fail, begin, end, terminate, begin, end have two runs on the same output with different answers |
| Visibility.TerminateShowsReadAheadOfSplitChar | src/lib/BrokerImpl.cpp:152-153 | with split_char on the output aa: OK a twice, or OK a and then EOF_ERROR |
| Visibility.InvisibleAcrossTerminateIffNeverDecides | src/lib/BrokerImpl.cpp:146-154 | over runs in which terminate may drop bytes read ahead, scheduling is invisible iff the library neither fails nor accepts |
| Visibility.PermittedCallsHaveARun | src/lib/BrokerImpl.cpp:60-154 | every sequence of calls that the assertions permit, terminate included, has a run in which nothing is dropped, for every solution output |
| Visibility.LegalIsPermitted | src/lib/BrokerImpl.cpp:60-154 | every legal run makes permitted calls, and its session is open exactly between begin and end or terminate |
| Terminations.UncutRunIsRead | src/lib/BrokerImpl.cpp:101-154 | if no session is ended both before and after a terminate, every run without timeout or system error gives the answers of the stream reader, whatever a terminate drops |
| Terminations.CutShowsScheduling | src/lib/BrokerImpl.cpp:146-154 | for every permitted sequence of calls in which some session is, an output and two runs of it with different answers |
| Terminations.CertainIffNoEndsAroundTerminate | src/lib/BrokerImpl.cpp:60-154 | for each permitted sequence of calls, with a tokenizer that never fails and always can decide: all runs on all outputs agree iff no session is ended both before and after a terminate |
| Terminations.ShippedCertainIffNoEndsAroundTerminate | src/tokenizers/split.c:56-81 | the same with split and split_char, without conditions on the tokenizer |
| Communicate.ReadExtends | src/lib/BrokerImplCommunicate.cpp:128-163 | one more chunk turns the effect of some transfers into the effect of the longer transfers |
| Communicate.TransfersAreChunks | src/lib/BrokerImplCommunicate.cpp:79-164 | every legal transfer, with whatever was written meanwhile, is made of chunks of 1 to BUFSIZ bytes, each read while undecided, the last being the one in which the tokenizer decided |
| Streams.CommunicateConserves | src/lib/BrokerImplCommunicate.cpp:79-163 | at every loop head and return: inbuf splits into written and left; bytes read are what result and outbuf gained; a failure loses exactly the last chunk; read-ahead is less than one chunk of 8192 bytes |
| Streams.AnswersAreTheStream | src/lib/BrokerImpl.cpp:128-143 | if all sessions ended OK, answers followed by buffered and unread bytes are the solution's output |
| Streams.AnswerIsTheNextToken | src/lib/BrokerImpl.cpp:122-143 | for every outcome: a timeout answers REAL_TIME_LIMIT_EXCEEDED without data and an error nothing; otherwise an OK answer is the one prefix of the bytes not yet returned that a fresh tokenizer accepts, TOKENIZER_ERROR carries the explanation of the failed one, and no prefix is accepted unless the answer is OK |
| Streams.EofExhausts | src/lib/BrokerImplCommunicate.cpp:113-122 | after EOF_ERROR nothing is unread and nothing is buffered |
| Streams.EofIsSticky | src/lib/BrokerImpl.cpp:135-137 | after EOF_ERROR no later session returns data, whatever is called |
| Streams.InputIsFifo | src/lib/BrokerImpl.cpp:94-121 | in every reachable state, delivered bytes and inbuf are the sent bytes minus exactly those pending at each clearing operation |
| Streams.NothingClearedNothingLost | src/lib/BrokerImpl.cpp:94-99 | without clearing operations, sent bytes are the delivered bytes followed by inbuf, across sessions |
| Tokens.ArgumentOkIffUsable | src/tokenizers/split.c:25-32 | begin takes the arguments of which the C string is not empty, for split_char those of one byte, for other libraries all |
| Tokens.ScanFolds | include/yandex/contest/invoker/flowctl/game/Tokenizer.hpp:20-36 | the scan of any other automaton decides where the plain fold of its step function first decides, in the same state |
| Tokens.ScanAnswers | src/tokenizers/split.c:56-81 | what a fresh tokenizer decides, in terms of its argument: the beginning of the data up to the separator, none, or the error of the folded automaton |
| Tokens.EveryAnswerFits | src/lib/BrokerImpl.cpp:60-144 | in every legal run, whatever the environment does, the answer of an end is the token of the bytes not yet returned under the argument of the last begin, or says why there is none; timeouts and errors are told apart |
| Tokens.AnswerFitsItsBegin | src/lib/BrokerImpl.cpp:60-161 | the same for each solution of an interleaved run |
| Restarts.ClearingLeavesBlank | src/lib/BrokerImpl.cpp:122-127 | termination and timeout leave no session and empty buffers |
| Restarts.BlankIsANewSolution | src/lib/BrokerImpl.cpp:146-154 | from there on the answers are those of a new solution whose output is the unread bytes |
| Restarts.ReaderRestarts | src/lib/BrokerImpl.cpp:122-144 | from there on the judge sees a reader of the unread bytes |
| Restarts.SessionKeepsItsLimits | src/lib/BrokerImpl.cpp:49-69 | an open session has the limits of its begin |
| Fleet.Projection | src/lib/BrokerImpl.cpp:156-161 | in any interleaved run each solution has the state and answers it would have alone |
| Fleet.LegalAloneIsLegalTogether | src/lib/BrokerImpl.cpp:156-161 | runs legal for each solution alone may be interleaved in any order |
| Fleet.InterleavingIsInvisible | src/lib/BrokerImpl.cpp:156-161 | interleavings with the same operations and transfers per solution end in the same states with the same answers |
| Fleet.SchedulesAreInvisiblePerSolution | src/lib/BrokerImpl.cpp:60-161 | interleavings with only the same calls per solution give each the same answers, if nothing is dropped and the tokenizer never fails |
| Fleet.OperationThawsItsOwn | src/lib/BrokerImpl.cpp:111-119 | inside an operation only its own process can be thawed, and only between thaw and freeze around communicate |
| Fleet.FrozenBetweenOperations | src/lib/BrokerImpl.cpp:40-46 | after construction and between operations every solution is frozen |
| Fleet.OneThawed | src/lib/BrokerImpl.cpp:111-119 | after any uncrashed run, one thaw leaves exactly one process thawed |
| Fleet.KillsAreTerminations | src/lib/BrokerImpl.cpp:122-149 | in every run, the killer is told to terminate a process exactly once for each terminate and each timed-out end of its solutions |
| Fleet.AtMostOneThawed | src/lib/BrokerImpl.cpp:111-119 | at no point of any run is more than one solution thawed |
| Fleet.BufferedTokenNeverThaws | src/lib/BrokerImpl.cpp:70-91 | a token complete in outbuf is returned without thawing the solution or reading |
| BrokerImpl.Solution.ServeWriteEnd | src/lib/BrokerImplCommunicate.cpp:57-109 | any partial writes move a prefix of inbuf to the pipe; bytes are left only if the session is decided, the write end is broken, or a write would block or failed, and an error is thrown exactly if the kernel reported one; the descriptor is removed only when drained or broken |
| BrokerImpl.Solution.Tokenize | src/lib/BrokerImplCommunicate.cpp:148-163 | the effect of one chunk on the session |
| BrokerImpl.Solution.ServeReadEnd | src/lib/BrokerImplCommunicate.cpp:125-164 | any reads leave the session where one scan of all bytes read leads; a session still undecided has met a read that would block, the end of file or an error, and an error is thrown exactly if the kernel reported one |
| BrokerImpl.Solution.AwaitBatch | src/lib/BrokerImplCommunicate.cpp:42-53 | every wait the kernel records starts before the deadline, with a complete interest set and no earlier event unattended; an empty batch means the deadline has passed |
| BrokerImpl.Solution.ServeBatch | src/lib/BrokerImplCommunicate.cpp:55-166 | any batch in any order keeps the session on track; if it stays undecided, every event of the batch has been attended to and the interest set is complete, unless the kernel reported an error, or the end of the drained output |
| BrokerImpl.Solution.ServeEvents | src/lib/BrokerImplCommunicate.cpp:39-167 | the event loop as part of communicate: transfers, discipline of the recorded waits, and the cause of each outcome |
| BrokerImpl.Solution.Communicate | src/lib/BrokerImplCommunicate.cpp:23-168 | terminates; session, pipe positions and outcome are those of the transfers made; no wait the kernel records can miss an event; a timeout comes past the deadline (start + realTimeLimit unless that overflows) with every reported event attended to, an error exactly if the kernel reported one, an undecided end only after a reported end of output; waits last 100 ms at most and time asleep stays within the limit plus one wait |
| BrokerImpl.BrokerImpl.constructor | src/lib/BrokerImpl.cpp:31-47 | freezes every solution, in order, and gives it the default limits |
| BrokerImpl.BrokerImpl.BeginDefault | src/lib/BrokerImpl.cpp:49-52 | begin with the default argument and limits |
| BrokerImpl.BrokerImpl.BeginWith | src/lib/BrokerImpl.cpp:54-58 | begin with the default limits |
| BrokerImpl.BrokerImpl.Begin | src/lib/BrokerImpl.cpp:60-92 | one legal begin step of the run, under the given limits, with the input kept and no command to the killer; other solutions unchanged |
| BrokerImpl.BrokerImpl.Send | src/lib/BrokerImpl.cpp:94-99 | one legal send step of the run: the message is appended to inbuf and nothing else happens |
| BrokerImpl.BrokerImpl.Terminate | src/lib/BrokerImpl.cpp:146-154 | one terminate step of the run: the killer is told to terminate this process, the session is closed and both buffers are empty |
| BrokerImpl.BrokerImpl.CommunicateThawed | src/lib/BrokerImpl.cpp:116-118 | thaw, communicate, freeze: the pipes are used only after the thaw and before the freeze; a thrown error skips the freeze and comes exactly if the kernel reported one; a timeout comes only after the whole real time limit |
| BrokerImpl.BrokerImpl.Conclude | src/lib/BrokerImpl.cpp:120-143 | discarding, the turn of a timeout into a termination, and the answer for each verdict |
| BrokerImpl.BrokerImpl.EndSession | src/lib/BrokerImpl.cpp:101-144 | answer, new session, bytes moved through the pipes and killer commands of one end, for each outcome; the pipes are used only while thawed; REAL_TIME_LIMIT_EXCEEDED exactly for a timeout, which comes only after the whole real time limit, an error exactly if the kernel reported one, EOF_ERROR after communicating only if the end of the output was reported |
| BrokerImpl.BrokerImpl.End | src/lib/BrokerImpl.cpp:101-144 | one legal end step of the run, whose answer is the next answer of that run and fits the argument of the last begin and the bytes not yet returned; with the causes, commands and effects of EndSession |
| BrokerImpl.JudgeSeesTheStream | src/lib/BrokerImpl.cpp:60-144 | for every reachable broker, what the judge was given for a solution of which nothing was dropped is what a stream reader gives |
| BrokerImpl.ObjectIsCoupled | src/lib/BrokerImpl.cpp:60-154 | for every reachable broker, buffers and tokenizers are coupled and input is FIFO |
| BrokerImpl.ObjectIsFrozen | src/lib/BrokerImpl.cpp:40-47 | for every running broker, all solutions are frozen between calls |
| BrokerImpl.ObjectServesTheThawed | src/lib/BrokerImpl.cpp:116-118 | for every reachable broker, whenever a solution's pipes were read, written or waited for, it was the one thawed process |
| BrokerImpl.ObjectKills | src/lib/BrokerImpl.cpp:122-149 | for every reachable broker, the terminations commanded are those of its log |
| TextCodec.WriteEscaped | src/lib/BrokerTextInterface.cpp:19-45 | appends the escaped text |
| TextCodec.Unescape | src/lib/BrokerTextInterface.cpp:47-104 | reads one field, with the source's end-of-file and bad-escape outcomes |
| TextCodec.EscapedFieldReadsBack | src/lib/BrokerTextInterface.cpp:19-104 | an escaped field followed by a separator is read back exactly |
| TextCodec.AcceptedFieldReprints | src/lib/BrokerTextInterface.cpp:47-104 | an accepted field, up to its separator, is the escaped form of what was read |
| Archives.OutputArchive.Print | src/lib/BrokerTextInterface.cpp:171-179 | appends one field with its separator |
| Archives.OutputArchive.PrintAll | src/lib/BrokerTextInterface.cpp:163-169 | appends all elements and closes the record for further fields |
| Archives.OutputArchive.Close | src/lib/BrokerTextInterface.cpp:142-145 | the output has gained exactly one record |
| Archives.InputArchive.Read | src/lib/BrokerTextInterface.cpp:198-209 | reads the next field, or reports the end of the record |
| Archives.InputArchive.ReadAll | src/lib/BrokerTextInterface.cpp:211-257 | reads all fields left, and none at the end of the record |
| Archives.PrintedLineReadsBack | src/lib/BrokerTextInterface.cpp:163-179 | every nonempty field list is read back exactly and nothing behind its newline is touched |
| Archives.AcceptedLineReprints | src/lib/BrokerTextInterface.cpp:246-257 | every accepted newline-terminated record is, byte for byte, what printing its fields gives |
| Archives.LinesAreUnique | src/lib/BrokerTextInterface.cpp:142-179 | concatenated records decode uniquely |
| Archives.EmptyLineIsOneEmptyField | src/lib/BrokerTextInterface.cpp:246-257 | the empty field list is the one that is not read back |
| Decimal.IdReadsBack | src/lib/BrokerTextInterface.cpp:239-244 | all ids below 2^64 survive printing and parsing |
| Decimal.MillisReadsBack | src/lib/BrokerInterface.cpp:70-77 | all signed 64-bit milliseconds survive printing and parsing |
| Decimal.NatTextIsDecimal | src/lib/BrokerTextInterface.cpp:171-179 | a number is printed as decimal digits whose positional value it is, without leading zeros |
| Decimal.IntTextIsDecimal | src/lib/BrokerInterface.cpp:16-22 | negative numbers are printed with a minus sign before the digits of their magnitude |
| Decimal.CastIdIsExact | src/lib/BrokerTextInterface.cpp:239-244 | exactly the numerals below 2^64 are ids, with their positional value; anything else is a bad cast |
| Decimal.CastMillisIsExact | src/lib/BrokerInterface.cpp:70-77 | exactly the numerals of signed 64-bit range are milliseconds, with their positional value; anything else is a bad cast |
| BrokerInterface.TextInterface.SendCommand | src/lib/BrokerTextInterface.cpp:269-273 | appends the record of a command |
| BrokerInterface.TextInterface.SendResult | src/lib/BrokerTextInterface.cpp:275-279 | appends the record of a result |
| BrokerInterface.TextInterface.RecvCommand | src/lib/BrokerTextInterface.cpp:281-287 | reads one command and leaves the rest |
| BrokerInterface.TextInterface.RecvResult | src/lib/BrokerTextInterface.cpp:289-295 | reads one result and leaves the rest |
| BrokerInterface.TextInterface.Request | src/lib/BrokerInterface.cpp:16-55 | what the stubs write |
| BrokerInterface.TextInterface.RequestResult | src/lib/BrokerInterface.cpp:40-50 | what the stubs of end write and return |
| BrokerInterface.TextInterface.RunOnce | src/lib/BrokerInterface.cpp:7-14 | one call on the broker, or none on malformed input; a result is written only for end |
| BrokerInterface.CommandReadsBack | src/lib/BrokerInterface.cpp:57-105 | a printed command is received unchanged |
| BrokerInterface.ResultReadsBack | src/lib/BrokerTextInterface.cpp:275-295 | a printed result is received unchanged |
| BrokerInterface.StubIsDispatched | src/lib/BrokerInterface.cpp:57-105 | dispatching the command of a stub makes the stub's call with the same arguments |
| BrokerInterface.DispatchIsExact | src/lib/BrokerInterface.cpp:57-105 | a command is dispatched exactly if its kind takes that many arguments and they can be cast, to the call with its id and arguments; which fault it is otherwise |
| BrokerInterface.CastsAreExact | src/lib/BrokerTextInterface.cpp:239-244 | exactly the names of the enumerators can be cast to them |
| BrokerInterface.ServesWhatWasAsked | src/lib/BrokerInterface.cpp:7-14 | serving consumes exactly the bytes of one stub and makes its call |
| BrokerInterface.ServerMakesTheCalls | src/lib/BrokerInterface.cpp:7-105 | for all finite call lists and all brokers: the server makes the same calls in the same order, consumes every byte and answers as the broker does |
| BrokerInterface.ClientReadsTheResults | src/lib/BrokerInterface.cpp:40-50 | from those answers the client reads the results that direct calls would return |
| BrokerInterface.RemoteCallsAreDirectCalls | src/lib/BrokerInterface.cpp:7-105 | hence, for all finite call lists and all brokers: same calls, same order, same results read back |
| Judge.EscapeText | tests/resources/judge.py:9-17 | the table-driven loop escapes as the broker does |
| Judge.Split | tests/resources/judge.py:24-49 | the splitting loop computes SplitFrom |
| Judge.CodecsAgree | tests/resources/judge.py:24-49 | on every line with one trailing newline, _split and the C++ vector reader accept the same lines and give the same fields |
| Judge.JudgeReadsResults | tests/resources/judge.py:77-79 | every result the broker prints is split into the name of its status, as the judges compare it, and its data |
| Judge.JudgePrintsCommands | tests/resources/judge.py:96-140 | every command is printed byte for byte as the client stubs print it |
| Judge.JudgeIsUnderstood | tests/resources/judge.py:96-140 | the broker takes every printed command as the call it means; an end without a flag discards nothing |
| Server.Perform | src/lib/BrokerInterface.cpp:57-105 | one dispatched call makes exactly its operation, with its arguments and limits, on the broker object and returns its result; it fails its assertion exactly if the solution does not exist, begin finds a session or a refused argument, or send or end finds none, and then nothing is logged; the only other fault is a failed read or write |
| Server.RunOnce | src/lib/BrokerInterface.cpp:7-14 | one command served on the broker object: its operation is logged and its result record appended; it is refused exactly if the calls so far with this one are not permitted |
| Server.ServeJudge | src/bin/broker.cpp:43-50 | the serving loop: it gets to the end of the input iff the judge's calls are permitted and no read or write failed; then every call has been made in order and every result sent; end to end, if the tokenizer never fails and nothing was dropped, the judge splits off the status and data that plain readers of the solutions' outputs give |
| Server.TakesWhatIsPermitted | src/lib/BrokerImpl.cpp:60-161 | after any served calls, the broker's assertions hold for exactly the calls that are permitted next, seen from the calls alone |
| Server.AnswersAreExpected | src/lib/BrokerImpl.cpp:60-161 | over all solutions, the results in the order of the calls are those of plain readers, one for each solution |
| Server.JudgeGetsTheTokens | tests/resources/judge.py:77-142 | for every such log, the judge splits the result records into the status and data those readers give |

## Left out

- Real descriptors, `fcntl`, `epoll` and `errno`: replaced by the nondeterministic environment of `Kernel.dfy`.
- The killer process, control groups and the binary killer protocol: the model records the commands given to the killer and reasons about their effect when they succeed.
- Dynamic loading: a third-party tokenizer is a byte-at-a-time automaton (`Library.Other`); one whose verdicts depend on how its input is cut is not covered.
- Tokenizers with look-ahead: the contract (`include/yandex/contest/invoker/flowctl/game/Tokenizer.hpp:30-34`) lets a tokenizer accept before the byte it has just seen, even 0 bytes of a chunk; in the model the accepted bytes end with the byte that decides.
- Configuration, logging and the set-up in the executables' `main` functions: they choose the constants of a run (tokenizer library, defaults, processes), over which the theorems quantify.
- Memory allocation failure.
- A solution that writes without end: `Pipes.unread` is finite. The read loop of the source does not look at the clock, so with an endless writer and no separator it would not return.
- `userTimeLimit` and `TIME_LIMIT_EXCEEDED`: carried, never enforced or returned.
- Signs, leading blanks and other spellings that `boost::lexical_cast` accepts for numbers besides the decimal ones that the protocol prints.
- Decimal.CastIdIsExact: numerals only; the other spellings that `boost::lexical_cast` accepts are not modelled.
- Decimal.CastMillisIsExact: the same.
- BrokerImpl.BrokerImpl.Begin: requires an argument that passes the tokenizer's assertions already at begin; the source notices an empty C string only when the first byte is parsed.
- BrokerImpl.BrokerImpl.BeginWith: the same requirement on the argument.
- BrokerImpl.BrokerImpl.BeginDefault: the same requirement on the default argument.
- BrokerImpl.Solution.Communicate: called by the source, and so in the model, only for an undecided session.
- BrokerInterface.TextInterface.RequestResult: the reply is in the channel when it is read; blocking until it arrives is not modelled.
- Server.ServeJudge: the channel holds what the judge will print, so that a judge that chooses its calls after seeing results is covered for each conversation it ends up having; waiting for input is not modelled.
- Judge.JudgePrintsCommands: ids are nonnegative; flushing and logging are not modelled.
