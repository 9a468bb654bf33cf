# Models of the firmware's stateful core and its text codecs

The project models the parts of the router firmware that carry real state, concurrency or text
formats, and proves properties of them over every input and every run. One group of files belongs
to one source file:

| files | source | what they model |
|---|---|---|
| GoformJobs, GoformSafety, GoformRuns, GoformLaws, GoformEngine | src/system/goform_async.c | the background job engine: an event-loop thread and a worker thread share a locked list of jobs |
| Basics, CStrings | | what several models share: options, small functions on sequences, and character buffers that hold C strings |
| Ipv6Proxy, Ipv6ProxyRuns, Ipv6ProxyService, Ipv6SendLog | src/system/ipv6_proxy.c | starting, rolling back and stopping the proxy children, who owns which firewall entry, and the send log |
| Sha256, Sha256Constants, Sha256Example | src/system/sha256.c | streaming SHA-256 against FIPS 180-4, where its constants come from, and its example |
| CellText, CellRoundTrip, CellExact, CellParser | src/handlers/handlers.c | the comma and dash format of cell tables |
| JsonText, JsonRuns, JsonCalls, JsonDepth, JsonBuilder | src/system/json_builder.c | the JSON builder with its stack of first-child flags |
| TemplateText | src/system/notification_rules.c | expansion of message templates |
| SqlText, SqlStatements | src/system/database.c, src/system/sms.c | escaping for SQL literals and the way back; how a statement gets to SQLite, through a shell or a file |
| UrlText | src/system/goform_client.c | percent-encoding and the WiFi query |
| NotificationQueue, NotificationRules, NotificationRuns, NotificationService, NotificationThreads | src/system/notification.c, src/system/notification_rules.c | the webhook queue, the rules with their cooldowns, and the two threads |
| AuthStatements, AuthTokens, AuthRuns | src/system/auth.c | the statements that hold a token, the table of sessions, and its runs |
| SmsText, SmsParser, SmsStatements, SmsInbox | src/system/sms.c | the rows of the inbox as text, the statement that stores a message, and retention |
| PowerKey | src/system/power_key.c | double click and long press |

How the models are built:

- The job engine is a state machine. A step is one locked region, or one piece of a thread between
  two of them, and a run is any interleaving of steps. Addresses are reused after a free, and
  connection ids are not, which is what the identifier of a Mongoose connection promises. Wakeups
  may also be lost. `GoformEngine` is the same engine with its heap cells and `next` pointers;
  each of its methods is proved to be one step of the state machine.
- Code that changes state in place is a class or a method on arrays, proved against functions on
  values; the properties over whole runs are lemmas about these functions.
- What the operating system does (fork, pipe, ip6tables, SQLite, memory, clocks, timers, random
  numbers) is a parameter, and the lemmas hold for every choice of it. Where a property needs a
  promise of the environment, for instance that fork returns fresh process ids or that the clock
  does not go back, a predicate named `Environment`, `FreshPids`, `Printable` or `Enabled` says so.
- Sizes that headers define are parameters, so that the results hold for any value:
  `NOTIFICATION_MAX_RULES` (16), `JSON_MAX_DEPTH` (8), `IPV6_PROXY_MAX_RULES` (10), the buffers of
  `SmsMessage` (64 and 1024) and the numbers of the event types. `AUTH_MAX_TOKENS` is 5, a token has
  64 characters, and it lives one day.

What is not true of the code, with the exact condition under which it is:

- A table of cells is read back from its print exactly when it has at most 64 rows of 16 cells of 31
  characters, its very first cell has no sign, and the reply fits in 4095 characters; a print of 4092 characters leaves the "O" of the final "OK" in
  the buffer, where it joins the last cell unless that is full (`CellExact.RoundTrip`).
- The firewall and the children stay conserved, with the calls in any order, exactly as long as
  `ipv6_proxy_init` is never called on a module that is not initialised and has entries, because it
  clears the slots (`Ipv6ProxyRuns.FirewallIsConserved`). A final `ipv6_proxy_deinit` gives
  everything back exactly if that never happened and the module is initialised or has no entries
  (`DeinitRestores`). Both hold when start and restart are called only between init and deinit
  (`OrderSuffices`); `StartThenInitLeaks` and `DeinitWithoutInitLeaks` are the inputs that fail. Such
  an order is possible, as http_server.c goes on when init fails (src/handlers/http_server.c:614-616).
- A token is put between quotes as it is (src/system/auth.c:199-203, src/system/auth.c:260-261). The
  check answers for the token it is given, whatever the table holds, exactly if the token has no
  single quote, has nothing that the shell changes between double quotes, and fits the buffer
  (`AuthTokens.VerifyIff`); a logout deletes exactly that token's row under the same condition, where
  a token with a double quote or a newline goes to a file and must have no carriage return before a
  newline instead (`AuthTokens.LogoutIff`). Every issued token meets both
  (`AuthRuns.IssuedAreGenerated`). With a quote, the literal ends there and the rest of the token is
  read as part of the statement (`AuthStatements.QuoteEndsLiteral`). If only words follow, as in
  `o'clock`, both statements are refused: the check answers -1 and the logout leaves the table
  (`WordsAreRefused`). If a second comparison follows, as in `x' OR '1'='1`, the check accepts a token
  that was never issued whenever any session is under way, and a logout with it ends them all
  (`AuthRuns.QuotesDecide`). `AuthRuns.VerifyIsExact`, `VerifyKeepsIff` and `LogoutKeepsIff` say
  exactly when an answer is right and a call does no harm to the sessions of others.
- The content of a message is stored as it is exactly if the escape of all of it but the last
  character is shorter than 1022, the statement fits its buffer, and the content has nothing that the
  shell changes or, if the statement goes to a file, no carriage return before a newline
  (`SmsStatements.MessageArrives`). The input that fails is `costs $5`, of which `costs ` is stored
  (`PriceIsLost`).
- Escaped text survives the buffer exactly when all of it but the last character leaves room
  (`SqlText.RoundTrip`); what is cut off is never half an escape pair.
- The comparison of client lists is one of sets of addresses exactly if an address went away, or the
  lists have as many entries exactly if they have as many addresses
  (`NotificationService.ChangedIsExact`). Against every list without repeats it is right exactly if
  the list before has no repeats (`DistinctIsNeeded`); `RepeatHidesChange` gives lists for which it
  is not.
- The builder writes the right text exactly if no container with items finds all levels in use
  (`JsonDepth.BuilderIsExact`); for trees without empty containers that means fewer levels of nesting
  than `JSON_MAX_DEPTH` (`HeightDecides`). `JsonRuns.TooDeepBreaks` is an input that fails.

Where comments and code differ the model follows the code: the power key has code 116, although the
comment before the test says 74, and the first report after a start is scheduled after 120 seconds,
although the message says 15.

## Model

| member | source | states |
|---|---|---|
| `GoformSafety.InitKeeps` | src/system/goform_async.c:151-168 | starting the engine leaves an empty list and one worker; the invariant of the engine holds |
| `GoformSafety.SubmitRefusedKeeps` | src/system/goform_async.c:175-184 | a submit that fails before the lock frees its argument once and keeps the invariant |
| `GoformSafety.SubmitAllocKeeps` | src/system/goform_async.c:180-190 | a new job may take any free address, even one a stale token still names |
| `GoformSafety.SubmitLockedKeeps` | src/system/goform_async.c:192-209 | the locked region of submit keeps the invariant, whether it accepts the job or refuses it |
| `GoformSafety.CancelKeeps` | src/system/goform_async.c:211-228 | cancelling a job of a connection that stays open keeps the invariant |
| `GoformSafety.CloseKeeps` | src/system/goform_async.c:211-228 | closing a connection cancels its job, so that no token of a live connection names it |
| `GoformSafety.DeliverKeeps` | src/system/goform_async.c:230-247 | a wakeup with any token, stale or not, hands over a completed job of that connection or nothing |
| `GoformSafety.RunCompletionKeeps` | src/system/goform_async.c:249-250 | the completion runs while the loop thread alone holds the job |
| `GoformSafety.WorkerTakeKeeps` | src/system/goform_async.c:92-121 | taking a queued job keeps at most one running job, the worker's own |
| `GoformSafety.WorkerStopKeeps` | src/system/goform_async.c:97-114 | the worker's last act drops the queued jobs and only those |
| `GoformSafety.WorkerCallbackKeeps` | src/system/goform_async.c:123-125 | the callback runs outside the lock on a job that cannot be freed meanwhile |
| `GoformSafety.WorkerFinishKeeps` | src/system/goform_async.c:127-146 | publishing a result, dropping it, or failing to wake the loop keeps the invariant |
| `GoformSafety.DisposeKeeps` | src/system/goform_async.c:43-47 | disposing a job that a thread has unlinked frees it once |
| `GoformSafety.ShutdownFinishKeeps` | src/system/goform_async.c:265-277 | after the join every job that is left is disposed and no cell remains |
| `GoformRuns.RunKeeps` | src/system/goform_async.c:86-278 | in every interleaving the invariant holds, and the step each thread is about to take is enabled |
| `GoformRuns.ArgumentsFreedOnce` | src/system/goform_async.c:170-209 | the argument of every submit, refused or accepted, is freed at most once, and exactly once when its job no longer exists |
| `GoformRuns.NoUseAfterFree` | src/system/goform_async.c:86-252 | no thread ever holds or lists a job that is freed |
| `GoformRuns.CompletionsAreRight` | src/system/goform_async.c:127-145 | a completion runs at most once, after its job was accepted on this connection and its worker had returned this reply, and never after that connection closed |
| `GoformLaws.CompletionsComeFromWorkers` | src/system/goform_async.c:123-145 | the reply of every completion is what the worker callback gave in a step taken before, inside the callback of the very job with this ticket, and the connection is the one with which this ticket was submitted |
| `GoformLaws.EventsHaveSteps` | src/system/goform_async.c:86-278 | every event of the log was appended by the step it stands for: an acceptance by a submit whose connection had no listed job, a return by the callback with this result, a disposal by whoever held the job |
| `GoformLaws.JobsWereSubmitted` | src/system/goform_async.c:180-190 | every allocated job has the ticket and the connection of a call of submit |
| `GoformLaws.SubmitIsServed` | src/system/goform_async.c:86-252 | whatever else is queued: when both threads are free and the connection has no job, submit and the turns after it run the completion on this connection with the worker's result, free the job once, and leave everything else as it was |
| `GoformLaws.CancelledIsNeverCompleted` | src/system/goform_async.c:211-228 | once a connection was cancelled or closed, no completion ever runs on it for a job submitted before |
| `GoformLaws.SubmitDecides` | src/system/goform_async.c:192-209 | submit accepts if and only if the engine is not stopping and no listed job has the connection; then the job stands first in the list |
| `GoformLaws.TakeDecides` | src/system/goform_async.c:74-84 | a worker that is not told to stop takes the first queued job of the list, and waits if and only if there is none |
| `GoformLaws.DeliverDecides` | src/system/goform_async.c:235-247 | a wakeup hands a job over if and only if its token names a listed completed job of its connection that was not cancelled |
| `GoformLaws.CancelDecides` | src/system/goform_async.c:211-228 | a running job is marked and stays listed, any other one is unlinked and kept for disposal, and without a job nothing changes |
| `GoformLaws.FinishDecides` | src/system/goform_async.c:127-146 | a result is published with one token if and only if nobody asked to stop or cancelled the job and the wakeup works |
| `GoformRuns.ListStaysInShape` | src/system/goform_async.c:49-84 | listed connections are pairwise distinct; at most one listed job is running and it is the worker's; a cancelled job that is still listed is running |
| `GoformRuns.PendingTokensAreFresh` | src/system/goform_async.c:136-145 | every pending token of a connection that is open and was not cancelled names a listed completed job of that connection, and is the only one |
| `GoformRuns.ShutdownDisposesEverything` | src/system/goform_async.c:254-278 | after shutdown every job ever submitted has been disposed |
| `GoformRuns.JoinReturns` | src/system/goform_async.c:258-263 | while shutdown joins, the worker always has a step to take, and it gets closer to its exit with each |
| `GoformRuns.RankFalls` | src/system/goform_async.c:258-263 | every step of the worker during shutdown lowers its distance to the exit |
| `GoformEngine.Engine.FindJobLocked` | src/system/goform_async.c:49-60 | walking the `next` pointers finds what the list function finds |
| `GoformEngine.Engine.UnlinkJobLocked` | src/system/goform_async.c:62-72 | relinking through the cursor takes exactly this job out of the chain |
| `GoformEngine.Engine.TakeQueuedJobLocked` | src/system/goform_async.c:74-84 | the first queued job becomes running and nothing else changes |
| `GoformEngine.Engine.DisposeJob` | src/system/goform_async.c:43-47 | frees the argument and the cell |
| `GoformEngine.Engine.SubmitAllocate` | src/system/goform_async.c:170-190 | submit up to the lock is the step of the state machine, refusals included |
| `GoformEngine.Engine.SubmitUnderLock` | src/system/goform_async.c:192-209 | the locked region links the job first, or refuses it while stopping or when the connection has one |
| `GoformEngine.Engine.CancelUnderLock` | src/system/goform_async.c:211-228 | marks the job and unlinks it unless it is running |
| `GoformEngine.Engine.HandleWakeupUnderLock` | src/system/goform_async.c:235-247 | the token is looked up before it is dereferenced |
| `GoformEngine.Engine.RunCompletionCallback` | src/system/goform_async.c:249-250 | runs the completion on an unlinked job |
| `GoformEngine.Engine.LoopDisposeJob` | src/system/goform_async.c:251 | disposes the job after its completion |
| `GoformEngine.Engine.ShutdownRequest` | src/system/goform_async.c:258-263 | sets the flag and joins |
| `GoformEngine.Engine.ShutdownCleanup` | src/system/goform_async.c:265-277 | takes the list and disposes it cell by cell, reading `next` before the free |
| `GoformEngine.Engine.WorkerTakesLock` | src/system/goform_async.c:92-121 | stops, waits, or takes a job |
| `GoformEngine.Engine.DropQueuedLocked` | src/system/goform_async.c:98-111 | walks the list while unlinking and freeing the queued cells |
| `GoformEngine.Engine.RunWorkerCallback` | src/system/goform_async.c:123-125 | stores exactly the result of the callback in the job |
| `GoformEngine.Engine.WorkerPublishes` | src/system/goform_async.c:127-146 | completes the job and sends its token, or unlinks it |
| `GoformEngine.Engine.WorkerDisposeJob` | src/system/goform_async.c:127-143 | disposes the job the worker has unlinked |
| `Ipv6ProxyRuns.StartAllOrNothing` | src/system/ipv6_proxy.c:1329-1470 | start succeeds exactly when some rule is enabled and every enabled rule can be served; then it has recorded, in order, one live child for each enabled rule that is not the management rule, and otherwise nothing has changed |
| `Ipv6ProxyRuns.PassesIs` | src/system/ipv6_proxy.c:1359-1380 | which rules start gets past: those that are disabled, the management rule with 6677 on both sides, and those with 6677 on neither whose child is ready |
| `Ipv6ProxyRuns.StartOpensPorts` | src/system/ipv6_proxy.c:1329-1470 | after a start that succeeds exactly these ports are open: those that were, and those of the served rules that ip6tables could open |
| `Ipv6ProxyRuns.InitStarts` | src/system/ipv6_proxy.c:938-1003 | init starts the service if and only if it is so configured, was not initialised, and the rules can be served |
| `Ipv6ProxyRuns.AllowOpens` | src/system/ipv6_proxy.c:1307-1323 | what allow_port leaves for every port: the one held before is given back, and the new one is open, held, and owned exactly if it was not open |
| `Ipv6ProxyRuns.AllowManagement` | src/handlers/http_server.c:655 | the call at every start opens port 6677 |
| `Ipv6ProxyRuns.RollbackUndoes` | src/system/ipv6_proxy.c:1448-1465 | rolling back after any failure restores the state before the start |
| `Ipv6ProxyRuns.LaunchConserves` | src/system/ipv6_proxy.c:1359-1446 | at every point of the start loop the firewall and the children are what the module found plus what it owns |
| `Ipv6ProxyRuns.FirewallIsConserved` | src/system/ipv6_proxy.c:1253-1323 | over any run, with the calls in any order: the firewall is the initial set plus exactly the owned ports, each once and absent initially, no recorded port is 6677, and the children match the entries, if and only if init was never called on an uninitialised module with entries |
| `Ipv6ProxyRuns.OpKeeps` | src/system/ipv6_proxy.c:938-1021 | every call keeps the conservation invariant but an init on an uninitialised module with entries |
| `Ipv6ProxyRuns.ForgettingStrays` | src/system/ipv6_proxy.c:957-962 | that call leaves a child that no entry records |
| `Ipv6ProxyRuns.OpSpares` | src/system/ipv6_proxy.c:938-1021 | and no later call ever stops it |
| `Ipv6ProxyRuns.DeinitRestores` | src/system/ipv6_proxy.c:1005-1021 | a final deinit has given back every entry and child if and only if nothing was forgotten and the module was initialised or had no entries |
| `Ipv6ProxyRuns.OrderSuffices` | src/system/ipv6_proxy.c:938-1021 | that is so whenever start and restart are called only between init and deinit |
| `Ipv6ProxyRuns.StartThenInitLeaks` | src/system/ipv6_proxy.c:957-962 | a start before init, then init and deinit: entry and child stay |
| `Ipv6ProxyRuns.DeinitWithoutInitLeaks` | src/system/ipv6_proxy.c:1005-1009 | a start and a deinit without init: entry and child stay |
| `Ipv6ProxyRuns.StopKeepsManagementPort` | src/system/ipv6_proxy.c:1472-1505 | stopping never removes an entry for port 6677 |
| `Ipv6ProxyRuns.StopAllReturns` | src/system/ipv6_proxy.c:1478-1487 | stopping removes exactly the owned entries and the recorded children |
| `Ipv6ProxyService.Service.AddFirewallRule` | src/system/ipv6_proxy.c:1253-1276 | 0 if the entry is there, 1 if it was added, -1 if it could not be |
| `Ipv6ProxyService.Service.ReleaseNativeRule` | src/system/ipv6_proxy.c:1299-1305 | removes the entry of the management listener only if this module added it |
| `Ipv6ProxyService.Service.Allow` | src/system/ipv6_proxy.c:1307-1323 | opens a valid new port if that is possible and records it as held, owned exactly if it was not open before; any other port changes nothing |
| `Ipv6ProxyService.Service.RecordChild` | src/system/ipv6_proxy.c:1434-1440 | fills the next slot of the four parallel arrays |
| `Ipv6ProxyService.Service.KillRecorded` | src/system/ipv6_proxy.c:1448-1456 | the loop that a failed start and stop share |
| `Ipv6ProxyService.Service.StartService` | src/system/ipv6_proxy.c:1329-1470 | the loop with its breaks is the start function; a failed start leaves every slot cleared |
| `Ipv6ProxyService.Service.StopService` | src/system/ipv6_proxy.c:1472-1505 | kills the recorded children and clears every slot |
| `Ipv6ProxyService.Service.Restart` | src/system/ipv6_proxy.c:1507-1511 | stop and then start |
| `Ipv6ProxyService.Service.InitService` | src/system/ipv6_proxy.c:938-1003 | forgets the slots and starts if so configured |
| `Ipv6ProxyService.Service.DeinitService` | src/system/ipv6_proxy.c:1005-1021 | stops only if initialised, and always releases the management entry |
| `Ipv6SendLog.Log.Append` | src/system/ipv6_proxy.c:1597-1621 | the ring refines an unbounded history, with texts cut to their buffers |
| `Ipv6SendLog.Log.Read` | src/system/ipv6_proxy.c:1691-1730 | gives the last min(k, 30, appended) records, newest first, with consecutive descending ids |
| `Sha256Spec.AbsorbHolds` | src/system/sha256.c:97-110 | after every byte the state is the fold of the compression over the full blocks, the rest is buffered, and the length counts the blocks |
| `Sha256Spec.FinishPads` | src/system/sha256.c:112-141 | the one or two last blocks are the padding of section 5.1.1 of FIPS 180-4 |
| `Sha256Spec.StreamingIsSha256` | src/system/sha256.c:83-154 | for every message and every way of splitting it into updates the digest is that of FIPS 180-4 |
| `Sha256Spec.DigestIsWords` | src/system/sha256.c:145-155 | four bytes of the digest are one word of the hash value, most significant byte first |
| `Sha256Spec.LengthFieldIs` | src/system/sha256.c:131-140 | the last eight bytes of the padding are the digits of the length in bits, modulo 2^64, most significant byte first |
| `Sha256Spec.HexIsLower` | src/system/sha256.c:168-171 | every byte prints as two lower-case digits |
| `Sha256Constants.ConstantsAreCubeRoots` | src/system/sha256.c:12-29 | the 64 constants are the first 32 bits of the fractional parts of the cube roots of the first 64 prime numbers, section 4.2.2 |
| `Sha256Constants.PrimesAreFirst` | src/system/sha256.c:12-29 | these are the first 64 prime numbers |
| `Sha256Constants.FirstHashIsSquareRoots` | src/system/sha256.c:83-95 | the first hash value is the same with the square roots of the first eight, section 5.3.3 |
| `Sha256Constants.ChChooses` | src/system/sha256.c:33 | each bit of the first word chooses between the two others |
| `Sha256Constants.MajIsMajority` | src/system/sha256.c:34 | each bit is that of at least two of the three words |
| `Sha256Example.AbcHash` | src/system/sha256.c:31-95 | the message "abc", computed through every round, has the hash value of the standard |
| `Sha256Spec.WordsAndBytes` | src/system/sha256.c:45-47 | reading a word from its bytes and writing it out are inverse |
| `Sha256.Context.Transform` | src/system/sha256.c:41-81 | in-place rounds compute the compression function of section 6.2.2 of FIPS 180-4 |
| `Sha256.Context.ExpandBlock` | src/system/sha256.c:45-49 | the message schedule |
| `Sha256.Context.Update` | src/system/sha256.c:97-110 | absorbs the bytes one at a time |
| `Sha256.Context.Final` | src/system/sha256.c:112-154 | pads, compresses and writes the digest of the stream |
| `Sha256.Context.PadBlock` | src/system/sha256.c:118-129 | the two branches of the padding |
| `Sha256.Context.StoreLength` | src/system/sha256.c:132-140 | the length field, modulo 2^64 |
| `Sha256.Context.WriteDigest` | src/system/sha256.c:144-153 | the digest, column by column |
| `Sha256.ColumnsAreDigest` | src/system/sha256.c:144-153 | writing columns gives the words in big-endian order |
| `Sha256.HashData` | src/system/sha256.c:156-170 | the hex form of the SHA-256 of the whole input |
| `CellExact.RoundTrip` | src/handlers/handlers.c:476-573 | a table of numbers, printed and followed by CRLF, OK and anything, is read back if and only if it has at most 64 rows of 16 cells of 31 characters, its first cell has no sign, and the reply fits |
| `CellExact.NothingIsInvented` | src/handlers/handlers.c:476-573 | for every input and every character, the cells hold it no more often than the input |
| `CellExact.CellsAreTrimmed` | src/handlers/handlers.c:476-573 | whatever the modem sends: at most 64 rows of 16 cells, each shorter than 32 characters, without commas and line ends, and not starting with a space |
| `CellExact.RowIsTrimmed` | src/handlers/handlers.c:518-529 | a cell is what stands between two commas without exactly the spaces before it, cut to 31 characters |
| `CellExact.PartsCount` | src/handlers/handlers.c:505-557 | splitting into rows adds no character and takes away only dashes |
| `CellExact.SignedTableIsLost` | src/handlers/handlers.c:530-546 | a sign at the very start is dropped |
| `CellExact.CutTableIsLost` | src/handlers/handlers.c:477-479 | a table longer than the buffer is never read back |
| `CellExact.StrayO` | src/handlers/handlers.c:477-484 | an "O" left over from "OK" joins the last cell unless that is full |
| `CellRoundTrip.CleanReply` | src/handlers/handlers.c:477-496 | what is left of a reply after the cut, the search for OK and the removal of line ends |
| `CellRoundTrip.RestIsParted` | src/handlers/handlers.c:508-552 | a dash before a number ends the row, and a second dash is the sign of the next |
| `CellRoundTrip.RowSurvives` | src/handlers/handlers.c:521-529 | splitting a printed row at its commas gives its cells |
| `CellParser.CopyInput` | src/handlers/handlers.c:477-479 | the cut copy of the input |
| `CellParser.CutAtOk` | src/handlers/handlers.c:481-484 | ends the text at the first OK |
| `CellParser.DropLineEnds` | src/handlers/handlers.c:486-496 | compacts the buffer in place |
| `CellParser.NextToken` | src/handlers/handlers.c:521-529 | strtok with the terminators it writes |
| `CellParser.CopyCell` | src/handlers/handlers.c:523-526 | skips spaces and copies at most 31 characters |
| `CellParser.FlushPart` | src/handlers/handlers.c:518-529 | stores at most 16 cells of a row and leaves the others |
| `CellParser.ParseCells` | src/handlers/handlers.c:476-573 | for every input the rows that the parse function names are stored, every other cell is as before, and every index is in bounds |
| `JsonDepth.BuilderIsExact` | src/system/json_builder.c:85-297 | the calls for any tree within the piece limits, however deep, write its compact text if and only if no container with items finds all levels in use |
| `JsonDepth.CallsAreExact` | src/system/json_builder.c:85-297 | the same for any well-nested sequence of calls |
| `JsonDepth.HeightDecides` | src/system/json_builder.c:89-92 | any tree with fewer levels of nesting than the builder has is written right, and of the trees without empty containers only those are |
| `JsonDepth.EmptySurvives` | src/system/json_builder.c:85-101 | why without empty ones: an empty object comes out right in a builder that has no level for it |
| `JsonDepth.ItemMeets` | src/system/json_builder.c:85-145 | what one item adds to the buffer at any depth, the commas too many, and the depth and flags afterwards |
| `JsonRuns.BuilderSerialises` | src/system/json_builder.c:85-297 | the calls for any tree within the depth and piece limits write its compact text |
| `JsonRuns.ArrayLooksLike` | src/system/json_builder.c:287-297 | the text of an array with true, false and null |
| `JsonRuns.ScalarIsExact` | src/system/json_builder.c:32-42 | a value without items comes out right if and only if its pieces are within the limits; a longer one is cut or dropped |
| `JsonRuns.LimitsAre` | src/system/json_builder.c:242-249 | a formatted piece has at most 4095 characters and a copied key 255 |
| `JsonRuns.ObjectLooksLike` | src/system/json_builder.c:149-228 | the text of an object with a number and a string |
| `JsonRuns.EmptiesLookLike` | src/system/json_builder.c:85-145 | the texts of an empty object, an empty array and a raw value |
| `JsonCalls.CallsSerialise` | src/system/json_builder.c:85-297 | any well-nested sequence of calls within the limits writes the text of the tree it builds |
| `JsonCalls.ItemWasCalled` | src/system/json_builder.c:85-297 | the tree read from a well-nested sequence is the one whose calls it is |
| `JsonCalls.CallsAreRead` | src/system/json_builder.c:85-297 | the calls of every tree are well nested, and only null in an array is read back as raw text |
| `JsonRuns.ItemIsWritten` | src/system/json_builder.c:17-23 | an item is written with one comma unless it is first, and the flags of the levels below it are as before |
| `JsonRuns.ItemsAreWritten` | src/system/json_builder.c:149-297 | a list of items gets commas between them and none before the first or after the last |
| `JsonRuns.ContainerIsWritten` | src/system/json_builder.c:85-145 | closing restores the state of the parent |
| `JsonRuns.TooDeepBreaks` | src/system/json_builder.c:89-92 | an input: with one level, an object with a member gets a comma before it |
| `JsonBuilder.Builder.PutComma` | src/system/json_builder.c:17-23 | the comma and the flag |
| `JsonBuilder.Builder.PutPiece` | src/system/json_builder.c:32-42 | pieces of 4096 characters or more are dropped |
| `JsonBuilder.Builder.ObjOpen` | src/system/json_builder.c:85-93 | opens an object; also json_arr_obj_open |
| `JsonBuilder.Builder.ObjClose` | src/system/json_builder.c:95-101 | closes an object |
| `JsonBuilder.Builder.KeyObjOpen` | src/system/json_builder.c:103-111 | opens an object under a key |
| `JsonBuilder.Builder.ArrOpen` | src/system/json_builder.c:115-127 | opens an array, under a key if there is one |
| `JsonBuilder.Builder.ArrClose` | src/system/json_builder.c:129-135 | closes an array |
| `JsonBuilder.Builder.AddString` | src/system/json_builder.c:149-186 | adds a quoted string; both buffers are large enough for any value |
| `JsonBuilder.Builder.AddNum` | src/system/json_builder.c:188-216 | adds a printed number |
| `JsonBuilder.Builder.AddBoolean` | src/system/json_builder.c:218-222 | adds true or false |
| `JsonBuilder.Builder.AddNothing` | src/system/json_builder.c:224-228 | adds null |
| `JsonBuilder.Builder.AddRawText` | src/system/json_builder.c:230-252 | adds a value as it is, in one or two pieces |
| `JsonBuilder.Builder.ArrAddString` | src/system/json_builder.c:256-285 | adds a quoted string to an array |
| `JsonBuilder.Builder.ArrAddNum` | src/system/json_builder.c:287-291 | adds a printed number to an array |
| `JsonBuilder.Builder.ArrAddBoolean` | src/system/json_builder.c:293-297 | adds true or false to an array |
| `TemplateText.ExpandRenders` | src/system/notification_rules.c:142-187 | a template of texts and tokens expands to the texts and the values, which are never expanded again; unknown tokens stay, and so does an unterminated or over-long one with all that follows |
| `TemplateText.TokensStandForFields` | src/system/notification_rules.c:111-140 | the six tokens stand for the event's id, title, message, sender, content and time |
| `TemplateText.OtherTokensStay` | src/system/notification_rules.c:111-140 | any other name stays as it is written |
| `TemplateText.LongTokenStops` | src/system/notification_rules.c:142-188 | a name of 32 characters or more, or one that is never closed, stops the expansion and all the rest stays |
| `TemplateText.EveryTemplateIsReadable` | src/system/notification_rules.c:142-187 | every template is of that form |
| `TemplateText.AppendText` | src/system/notification_rules.c:100-110 | appends all of a value or nothing |
| `TemplateText.ExpandTemplate` | src/system/notification_rules.c:142-187 | returns 0 exactly when the whole expansion fits, and otherwise leaves a prefix of it |
| `SqlText.LiteralEnds` | src/system/database.c:265-296 | no text can end its literal early or run past its end |
| `SqlText.UnescapeUndoes` | src/system/database.c:298-319 | unescaping what SQLite stores gives the text back |
| `SqlText.RoundTrip` | src/system/database.c:265-319 | for any buffer of at least 4 characters what comes back is a prefix of the text, and all of it if and only if it fits |
| `SqlText.KeptExactly` | src/system/database.c:272 | how far the loop gets |
| `SqlText.EscapeInto` | src/system/database.c:265-296 | the buffer holds the escape of exactly that prefix |
| `SqlText.UnescapeInPlace` | src/system/database.c:298-319 | the write position never passes the read position |
| `SqlText.MessageIsStored` | src/system/sms.c:78-95 | in the SQL literal the content stands as it is, up to what fits, and no content can end its literal early; the way of the statement to SQLite is `SmsStatements.MessageArrives` |
| `SqlStatements.ShellShrinks` | src/system/database.c:151-155 | between double quotes the shell leaves a text alone if it has no backquote or double quote, no dollar sign before something it would expand, and no backslash before something that a backslash protects; otherwise it makes the text shorter or something else |
| `SqlStatements.NameIsExpanded` | src/system/database.c:151-155 | a dollar sign before a name, a brace, a parenthesis or a special parameter is expanded |
| `SqlStatements.DollarStays` | src/system/database.c:151-155 | before a blank or other punctuation it stays |
| `SqlStatements.RouteIs` | src/system/database.c:135-155 | statements of more than 1000 characters and those with a double quote or a newline go through the file, all others through the shell |
| `SqlStatements.FileShrinks` | src/system/database.c:135-150 | a statement that goes through the file is read as it is if and only if no carriage return stands before a newline, and otherwise becomes shorter |
| `SqlStatements.QuoteFreeIsReadBack` | src/system/auth.c:199-203 | a text between quotes is read back as it is if and only if it has no quote |
| `SqlStatements.QueriedAsIs` | src/system/database.c:171-196 | a text put between quotes as it is, through db_query_int and a buffer, arrives if and only if it has no quote, the shell leaves it alone, and it fits |
| `SqlStatements.ExecutedAsIs` | src/system/database.c:126-162 | the same through db_execute, where a statement that goes to a file needs no carriage return before a newline instead |
| `SqlStatements.EitherIsRead` | src/system/auth.c:199-203 | a text whose quotes make a second comparison is read as that: one value, or two literals that are compared with each other |
| `SmsStatements.MessageArrives` | src/system/sms.c:76-98 | the content of a message is stored as it is if and only if its escape and the statement fit, and the way of the statement, by the shell or by a file, leaves the content alone |
| `SmsStatements.StatementIs` | src/system/sms.c:94-98 | the text of the statement |
| `SmsStatements.AmountIsLost` | src/system/database.c:151-155 | a message of ordinary words that ends with a dollar sign and a digit from 1 to 9 is stored without the two |
| `SmsStatements.PriceIsLost` | src/system/database.c:151-155 | an input: of `costs $5` only `costs ` is stored |
| `SqlText.QuoteInto` | src/system/sms.c:80-90 | the buffer holds the content with its quotes doubled, cut where the loop stops |
| `UrlText.EncodeDecodes` | src/system/goform_client.c:43-67 | decoding undoes encoding |
| `UrlText.EncodeIsEncoded` | src/system/goform_client.c:50-63 | nothing but unreserved characters and percent signs with two upper-case digits, sections 2.1 and 2.3 of RFC 3986 |
| `UrlText.UrlEncode` | src/system/goform_client.c:43-67 | succeeds exactly when the result and its terminator fit |
| `UrlText.QueryCarries` | src/system/goform_client.c:146-162 | splitting the query at & and = and decoding gives exactly the five fields, with any SSID and password |
| `UrlText.BuildWifiQuery` | src/system/goform_client.c:146-162 | returns 0 exactly when both settings are present and everything fits |
| `NotificationQueue.Queue.Start` | src/system/notification.c:252-271 | the queue starts empty |
| `NotificationQueue.Queue.Enqueue` | src/system/notification.c:65-80 | accepts a job exactly when the worker runs and fewer than 8 are queued |
| `NotificationQueue.Queue.WorkerTurn` | src/system/notification.c:152-171 | takes the job that was accepted first, or exits |
| `NotificationQueue.Queue.RequestStop` | src/system/notification.c:273-278 | asks the worker to stop |
| `NotificationQueue.Queue.Joined` | src/system/notification.c:279-282 | the queue is closed after the join |
| `NotificationThreads.ThreadsHold` | src/system/notification.c:152-171 | in every interleaving of the loop thread's locked regions and the worker's: event types stay unique, two events of a rule are its cooldown apart, each rule has its own last-sent time but for one whose job was just queued, and jobs are taken in the order they were accepted, at most 8 waiting |
| `NotificationThreads.StepIsOperation` | src/system/notification.c:285-310 | the three locked regions of an emit act together where it queues its job, whatever the worker does in between |
| `NotificationRuns.RulesHold` | src/system/notification.c:285-462 | over any run of operations event types stay unique, each rule has its own last-sent time, and two events of a rule are its cooldown apart |
| `NotificationRuns.OpKeeps` | src/system/notification.c:373-462 | every operation keeps that |
| `NotificationRuns.SendIsSpaced` | src/system/notification_rules.c:73-78 | an event that passes the test is the cooldown away from all earlier ones of its rule |
| `NotificationRuns.ValidIs` | src/system/notification_rules.c:36-65 | which rules are valid, for each event type: the units, the ranges of the threshold, and a cooldown of at most a day |
| `NotificationRuns.AddDecides` | src/system/notification.c:373-411 | a rule is added if and only if it is valid and enabled, there is room, its event type has none, and SQLite gives it an id; it goes to the end with nothing sent |
| `NotificationRuns.UpdateDecides` | src/system/notification.c:413-439 | a rule is replaced under its id if no other has its event type; it keeps its last-sent time and the others stay |
| `NotificationRuns.DeleteDecides` | src/system/notification.c:441-462 | exactly the rule with the id goes |
| `NotificationRuns.EmitSends` | src/system/notification.c:285-310 | an event is sent exactly when its rule is enabled, the webhook is ready, the queue has room, and the rule has no cooldown, has sent nothing yet, or its newest event is at least the cooldown ago or lies in the future; only then is the cooldown consumed |
| `NotificationRuns.FreeIsElapsed` | src/system/notification_rules.c:73-78 | the test on the last-sent time says that of the history of events |
| `NotificationService.Service.FindRuleIndex` | src/system/notification.c:346-351 | the first rule with the id |
| `NotificationService.Service.FindEventIndex` | src/system/notification.c:353-358 | the first rule for the event |
| `NotificationService.Service.AddRule` | src/system/notification.c:373-411 | appends a valid rule for a new event, with nothing sent yet |
| `NotificationService.Service.UpdateRule` | src/system/notification.c:413-439 | replaces a rule in place and keeps its last-sent time |
| `NotificationService.Service.DeleteRule` | src/system/notification.c:441-462 | shifts both arrays together |
| `NotificationService.Service.Look` | src/system/notification.c:291-303 | the first locked region finds the rule that wants the event |
| `NotificationService.Service.Note` | src/system/notification.c:306-308 | the last one notes the time for it |
| `NotificationService.Service.EmitEvent` | src/system/notification.c:285-310 | the job and the last-sent time change together or not at all |
| `NotificationService.MacSetChanged` | src/system/notification_rules.c:84-98 | compares lengths and membership |
| `NotificationService.ChangedIsExact` | src/system/notification_rules.c:91-98 | the answer is about the sets of addresses if and only if one went away, or the lists have as many entries exactly if they have as many addresses |
| `NotificationService.DistinctIsNeeded` | src/system/notification_rules.c:91-98 | against every list without repeats it is, if and only if the list before has no repeats |
| `NotificationService.RepeatHidesChange` | src/system/notification_rules.c:91-98 | inputs for which it is not |
| `AuthStatements.CountedIff` | src/system/auth.c:199-205 | a check compares the rows with the token it is given if and only if that has no quote, nothing the shell would change, and fits |
| `AuthStatements.DeletedIff` | src/system/auth.c:260-263 | and so does a logout, where a double quote or a newline sends the statement to a file |
| `AuthStatements.QuoteEndsLiteral` | src/system/auth.c:199-203 | a quote ends the literal: what comes before it is compared and what comes after it is part of the statement |
| `AuthStatements.WordsAreRefused` | src/system/auth.c:199-205 | a token with one quote and only words after it gives two statements whose last literal never ends, so that SQLite refuses both |
| `AuthStatements.TokenWithQuote` | src/system/auth.c:260-265 | an input: `o'clock` |
| `AuthStatements.EitherToken` | src/system/auth.c:199-203 | a token whose quotes make a second comparison gives two statements with that comparison |
| `AuthStatements.GeneratedMeansItself` | src/system/auth.c:45-49 | the tokens of the generator are compared with themselves in both |
| `AuthStatements.PrintedIsGenerated` | src/system/auth.c:44-50 | whatever its 32 bytes are, what generate_token prints is such a token: 64 lower-case digits |
| `AuthStatements.StatementsAre` | src/system/auth.c:199-261 | the text of the two statements |
| `AuthTokens.VerifyIff` | src/system/auth.c:186-212 | a check answers for its token in every table, whatever an open statement may do, if and only if the token has no quote, nothing the shell would change, and fits |
| `AuthTokens.LogoutIff` | src/system/auth.c:251-269 | a logout deletes exactly its token's rows in every table, if and only if the token has no quote, fits, and its statement goes through the shell or the file unchanged |
| `AuthRuns.RowsAreExact` | src/system/auth.c:131-269 | after any run of harmless calls, a token has an unexpired row exactly when it was issued, has not expired, and has not been logged out, evicted or cleared; there are never more than 5 rows |
| `AuthRuns.VerifyIsExact` | src/system/auth.c:186-212 | after such a run the check of any token answers right, whatever an open statement may do, if and only if its statement is about that token or an unaccepted one, is refused, or has a second comparison that counts nothing |
| `AuthRuns.QueryableIsExact` | src/system/auth.c:186-212 | so it does for every token that fits and has no quote and nothing the shell would change |
| `AuthRuns.IssuedAreGenerated` | src/system/auth.c:131-183 | every token that is ever accepted is one of those, in a logout too |
| `AuthRuns.QuotesDecide` | src/system/auth.c:199-206 | an input: after any run with a session under way the check of `x' OR '1'='1`, never issued, gives 0, and a logout with it empties the table |
| `AuthRuns.LoginIsStep` | src/system/auth.c:131-183 | a login of the store is a login of the run |
| `AuthRuns.LoginIssues` | src/system/auth.c:131-183 | with the right password a login issues its token, which is accepted for exactly 86400 seconds unless something else ends it; with a wrong one nothing changes |
| `AuthRuns.LogoutEnds` | src/system/auth.c:251-269 | a logout whose statement is read as meant succeeds and ends exactly the sessions of its token |
| `AuthRuns.OthersStay` | src/system/auth.c:131-269 | no call touches a session that it is not about |
| `AuthRuns.ChangeRefused` | src/system/auth.c:214-230 | an empty new password or a wrong old one changes nothing |
| `AuthRuns.EvictionIsMinimal` | src/system/auth.c:149-155 | a login evicts only from a table full of unexpired sessions, and then exactly one; by the history, no session that stays ends earlier |
| `AuthRuns.CleanupIsInvisible` | src/system/auth.c:77-86 | removing expired rows never changes what a check says |
| `AuthRuns.ChangeLocksOut` | src/system/auth.c:214-249 | after a change of password no old token is accepted and the new password is the one that counts |
| `AuthRuns.OpKeeps` | src/system/auth.c:131-269 | every harmless operation keeps rows and history in step |
| `AuthRuns.VerifyKeepsIff` | src/system/auth.c:186-212 | a check does, whatever an open statement may do, if and only if it is harmless: its statement is not open |
| `AuthRuns.LogoutKeepsIff` | src/system/auth.c:251-269 | a logout does if and only if it is harmless: its statement ends no session under way but that of its own token |
| `AuthRuns.MeaningItselfIsHarmless` | src/system/auth.c:186-269 | an operation whose token means itself in its statement is harmless, whatever the state |
| `AuthTokens.Store.CleanupExpired` | src/system/auth.c:77-86 | exactly the rows that have not expired stay |
| `AuthTokens.Store.DeleteOldest` | src/system/auth.c:99-104 | one row with the smallest creation time goes |
| `AuthTokens.Store.MakeRoom` | src/system/auth.c:149-155 | the oldest rows go until fewer than 5 are left |
| `AuthTokens.Store.Login` | src/system/auth.c:131-183 | a wrong password changes nothing; otherwise the rows are what was kept and the new one |
| `AuthTokens.Store.VerifyToken` | src/system/auth.c:186-212 | 0 exactly if the statement that arrives counts a row; otherwise expired rows go |
| `AuthTokens.Store.ExecuteCount` | src/system/auth.c:203-205 | what the statement counts: the rows of one token, with a second comparison that holds every unexpired row, and nothing if it is refused |
| `AuthTokens.Store.Logout` | src/system/auth.c:251-269 | only the rows go that the statement compares with, all of them under a second comparison that holds, and none if it is refused, which gives -1 |
| `AuthTokens.Store.ChangePassword` | src/system/auth.c:214-249 | -2 for an empty new password, -1 for a wrong old one, and otherwise the new hash and no tokens |
| `AuthTokens.Store.Status` | src/system/auth.c:271-292 | whether an unexpired session exists |
| `SmsText.RowsAreRead` | src/system/sms.c:424-505 | whatever bytes the messages hold, the rows come back in order, cut to the buffers, as many as there is room for |
| `SmsText.HexIsRead` | src/system/sms.c:59-73 | decoding undoes hex, up to the end of the buffer |
| `SmsText.NibbleIs` | src/system/sms.c:59-73 | the digits of a byte are read in upper and lower case, and nothing else is |
| `SmsText.DecimalLooks` | src/system/sms.c:434-441 | a number is printed with a sign exactly if it is negative, and without leading zeros |
| `SmsText.SignedIsRead` | src/system/sms.c:486-496 | atoi skips blanks and reads either sign |
| `SmsText.LineIsRead` | src/system/sms.c:469-496 | the five fields of a row come back |
| `SmsText.SenderDecides` | src/system/sms.c:472-496 | a row whose sender fits its buffer comes back if and only if the sender has no separator |
| `SmsText.SenderShifts` | src/system/sms.c:472-481 | a separator in a sender shifts the fields |
| `SmsParser.HexDecodeInto` | src/system/sms.c:59-73 | decodes pairs of digits until the buffer is full or something else comes |
| `SmsParser.SplitFields` | src/system/sms.c:471-484 | splits a line into at most five fields in place |
| `SmsParser.ReadOne` | src/system/sms.c:456-500 | one turn of the loop over the lines |
| `SmsParser.GetList` | src/system/sms.c:424-505 | the messages of all lines, up to the limit of the caller |
| `SmsInbox.NewestAreHighest` | src/system/sms.c:101-108 | the rows that stay are those with the highest ids |
| `SmsInbox.InboxIsNewest` | src/system/sms.c:76-114 | after any number of saves the inbox is the newest part of the whole history |
| `SmsInbox.Inbox.Save` | src/system/sms.c:94-113 | inserts and trims, for each outcome of the two statements |
| `SmsInbox.Inbox.Select` | src/system/sms.c:434-441 | the newest rows, highest id first |
| `PowerKey.PlayIsExact` | src/system/power_key.c:101-184 | over any trace, however late the timer fires, the lights toggle at exactly the presses with an even place in their burst, and a shutdown begins at exactly those with an odd place that are held until it fires |
| `PowerKey.ShutdownsAreTimely` | src/system/power_key.c:162-180 | with a timer that is at most some delay late, every such press held that much longer than 2000 ms begins a shutdown in that time, and none held for less than 2000 ms does |
| `PowerKey.PunctualShutdowns` | src/system/power_key.c:74-83 | with a timer on time, a shutdown begins at exactly the presses held for 2000 ms |
| `PowerKey.BurstToggles` | src/system/power_key.c:140-160 | a burst of k presses toggles k / 2 times, whatever came before |
| `PowerKey.BurstGoesOn` | src/system/power_key.c:140-160 | a burst goes on exactly when a press comes less than 500 ms after the release before it |
| `PowerKey.TimerMeansDown` | src/system/power_key.c:162-180 | an armed timer means that the key is down |
| `PowerKey.ShutdownMeansHeld` | src/system/power_key.c:74-83 | a shutdown begins only when a press has lasted 2000 ms |
| `PowerKey.Monitor.Press` | src/system/power_key.c:134-166 | a press within 500 ms of a release toggles the lights on the second count and arms no timer; any other arms it |
| `PowerKey.Monitor.Release` | src/system/power_key.c:168-180 | a release disarms the timer and is what the next press is measured against |
| `PowerKey.Monitor.Fire` | src/system/power_key.c:74-83 | the callback disarms the timer and begins a shutdown only if the key is down |

## Left out

- goform_async.c: the `is_full` flag of a connection, a submit from inside a completion callback, and failures of pthread_create in init. The wakeup pipe is empty after init.
- goform_async.c: `GoformJobs` keeps the jobs in a sequence; the chain of pointers is in `GoformEngine`, whose methods require the program counters of the threads that `GoformRuns` establishes for every run.
- goform_proxy.c: its callers free an argument again after a failed submit, against the contract of submit; they are not part of this model.
- ipv6_proxy.c: sockets, the forwarding loop, timers, the webhook and the config table. `ip6tables -C` and `-D` are taken to do what they say and nobody else is taken to edit the same entries; `-A` may fail. A rule of the database is an argument of start, so any edit between two starts is covered.
- ipv6_proxy.c: the JSON text of the send log and its early end when the output buffer is full; the records themselves are modelled.
- sha256.c: `sha256_hash_string` is `sha256_hash_data` on the bytes of a string. The length field wraps at 2^64 bits as in the code.
- handlers.c: everything but `parse_cell_to_vec`. Cells are any characters but separators, spaces, line ends and, for the round trip, "O".
- json_builder.c: failing allocations, for which the code writes an empty string. Keys are written as they are, so the text is JSON for keys that need no escaping. How a string is quoted (`MG_ESC`) is a parameter of which only the length bound of six characters for one is used.
- JsonDepth.BuilderIsExact: the limit on formatted pieces is a precondition; beyond it the code drops text silently. `JsonRuns.ScalarIsExact` says which values without items meet it.
- TemplateText.ExpandTemplate: the local time that strftime prints is a field of the event.
- SqlText.RoundTrip: is about the literal in the statement; short statements also pass through a shell, which `SqlStatements` models. `db_escape_string` with fewer than 4 characters of room wraps around and is excluded.
- notification.c: the log ring, whose index comes from a saturating count, and loading rules and webhook from their tables.
- NotificationThreads.ThreadsHold: one thread edits the rules and emits events, as all callers run on the loop of src/handlers/http_server.c:677-697, and the worker only takes jobs. Nothing is claimed for a second thread that does the same.
- SqlStatements.ShellShrinks: what the shell makes of a backquote, or of a dollar sign before something it expands other than $1 to $9, is left open, and with it what such a statement does. `$[`, which bash alone expands, is taken as plain text.
- AuthRuns.RowsAreExact: what a statement does that SQLite reads in another way than as one comparison, as that or a second one, or as a literal that never ends, is left open; a call with such a statement is not harmless, as it may do anything.
- auth.c: statements that SQLite reads succeed; the hash is a parameter.
- SmsStatements.MessageArrives: the sender, which is not escaped, has no quote, no carriage return and nothing the shell looks at.
- sms.c: sent messages; D-Bus.
- SmsText.RowsAreRead: rows that together exceed the 256 KiB query buffer, and the blanks, signs and prefixes that `%2x` would also accept but `hex()` never prints. Numbers are unbounded.
- PowerKey.PlayIsExact: the race between the timer callback and the key thread on the timer id is not modelled.
- Band tables, LED mappings, routing and the HTTP handlers would only add easy members.
