# A verified model of the ChungusMonitor SOCKS5 proxy

The program is a single-threaded SOCKS5 proxy (RFC 1928, with the
username/password sub-negotiation of RFC 1929) and a text protocol to watch and
administer it. This project models its stateful core in Dafny and proves what
that core promises over whole runs. `dafny verify dfyconfig.toml` checks it.

Code that changes state step by step is modelled twice. A specification on
values says what each operation does; a class with the source's fields, arrays,
pointers and loops is proved to do just that, method by method
(`ensures View() == Spec(old(View()))`). The theorems about runs are proved of
the specification and so hold of the objects. Outcomes of system calls — how
much a `read` or `write` moved, `EAGAIN`, errors, what the resolver answered,
how a `connect` ended, whether memory was left — are arguments of the events,
so a theorem that quantifies over runs quantifies over all of them.

| component | specification | objects | theorems |
|---|---|---|---|
| buffer | `Buffer.dfy` (`Buf`) | `Buffer.dfy` (`Buffer`) | `Buffer.dfy` |
| byte parsers | `Greeting.dfy`, `Auth.dfy`, `Request.dfy` | the `Parser` class of each | the same files |
| handshake and session | `Handshake.dfy`, `SessionSpec.dfy` | `SocksSession.dfy`, `ProxySession.dfy` | `SessionSafety.dfy` (invariant), `SessionRuns.dfy`, `SessionEffects.dfy` and `SessionAnswers.dfy` (what one event does, without the handlers), `SessionStreams.dfy` (bytes), `SessionRules.dfy` (users and deny lists), `SessionTrials.dfy` (addresses), `SessionStalls.dfy`, `SessionProgress.dfy`, `DrainLoop.dfy` |
| idle list | `IdleList.dfy` (`Population`) | `IdleList.dfy` (`Server`) | `IdleList.dfy`, `IdleSessions.dfy` (which events count as activity) |
| store: sessions, settings, log | `StoreSpec.dfy`, `AccessLog.dfy` | `SessionTable.dfy`, `AccessLog.dfy` (`Ring`) | the same files |
| accounting | `Accounting.dfy` | | `SessionCalls.dfy`, `Accounting.dfy` |
| users | `UserMap.dfy` | `Users.dfy` | `UserMap.dfy` |
| deny lists | `Acl.dfy` | `Acl.dfy` | `Acl.dfy`, `ProxyTables.dfy` (as the proxy reads them) |
| monitor protocol | `MonitorLines.dfy`, `MonitorSpec.dfy` | `MonitorStore.dfy`, `MonitorSession.dfy` | `MonitorRuns.dfy`, `ClientCommands.dfy`, `CommandEffects.dfy` |
| table-driven matcher | `ParserEngine.dfy`, `StringMatcher.dfy` | the same files | `StringMatcher.dfy` |
| selector table | | `Selector.dfy` | `Selector.dfy` |

Each specification is met from a second side. `SessionEffects.StepSeen`,
`SessionAnswers.StepTold`, `StoreSpec.SettingStored` and `CommandEffects.CommandDoes` say
what an event, a setting or a command does in terms of bytes, counts, fields and texts,
naming neither the handlers nor the functions that specify them;
`SessionStreams.StreamsOfRun`, `SessionCalls.LastCall`, `StoreSpec.SettingsAreLastSet` and
`Accounting.ConnectionsAreLogged` lift this to whole runs.

Where the code does not do what its own comments or a reader would expect, the
model follows the code, and the exact condition is proved:

- A write to the client re-arms only the client (src/server/socks/socks.c:1532-1546),
  so the origin's OP_READ can stay off although o2c has room. The lemmas of
  `SessionStalls` say exactly which event causes that, exactly which end it, that with
  both buffers empty nothing moves meanwhile, and that such runs exist.
- src/server/monitor/store.h:18 announces a FAILED log entry for a failed CONNECT.
  The host it needs is only set on success, so none is ever written:
  `Accounting.LogFollowsSessions`.
- User names are compared in full but stored cut to 64 bytes
  (src/server/monitor/store.c:305-316). `UserMap.AddExactly` gives the condition under
  which the table is a map, `UserMap.LongNamesAreLost` and
  `UserMap.DuplicateOfLongName` what happens otherwise.
- A host rule is copied with `strcpy` into a field of 256 bytes
  (src/server/monitor/store.c:950-952) while a command line carries up to 511.
  `Acl.OverflowsExactly` gives the condition under which the copy stays in its field,
  `ClientCommands.LongHostArrives` the lines on which it does not. Where it does not, the
  program's behaviour is undefined; methods on the objects require that it does.
- A line of exactly 512 bytes is refused at its newline, and the byte that finds
  the line buffer full is swallowed: `MonitorLines.FramingExactly`.

## Model

| member | source | states |
|---|---|---|
| `Buffers.Buffer.constructor` | src/shared/buffer.c:17-22 | a new buffer is the empty FIFO of its size |
| `Buffers.Buffer.Reset` | src/shared/buffer.c:11-15 | the buffer is empty again, with all its space writable |
| `Buffers.Buffer.Put` | src/shared/buffer.c:29-55 | copying at the write pointer and advancing it appends exactly those bytes to the FIFO |
| `Buffers.Buffer.ReadAdv` | src/shared/buffer.c:57-70 | advancing drops a prefix; a negative count is ignored; an emptied buffer starts over at index 0 |
| `Buffers.Buffer.Compact` | src/shared/buffer.c:96-114 | the overlapping move keeps the content and makes all free space writable |
| `Buffers.Buffer.Read` | src/shared/buffer.c:72-85 | the oldest byte is removed and returned, 0 from an empty buffer |
| `Buffers.Buffer.Write` | src/shared/buffer.c:87-94 | one byte is appended if there is room, else nothing changes |
| `Buffers.FifoOverRuns` | src/shared/buffer.c:11-114 | over every sequence of operations the bytes written are the bytes taken followed by the bytes pending |
| `Buffers.RunBuffer` | src/shared/buffer.c:11-114 | so on the object: after any operations its unread bytes are those of the FIFO, with read <= write <= limit throughout |
| `Greeting.Parser.FeedByte` | src/server/socks/greeting/greeting.c:27-77 | one byte moves the parser object as it moves the abstract machine, with the status the caller sees |
| `Greeting.OfferIsDecided` | src/server/socks/greeting/greeting.c:27-77 | every offer of methods is decided after exactly its own bytes, whatever follows: 2 if it is offered, else 0 if that is, else refused |
| `Greeting.AcceptedIsOffer` | src/server/socks/greeting/greeting.c:27-77 | whatever bytes came in, the ones consumed have the form the reached state stands for: an accepted greeting is an offer that contains the method chosen |
| `Auth.Parser.FeedByte` | src/server/socks/auth/auth.c:100-155 | one byte moves the parser object as it moves the abstract machine; both arrays are written in range |
| `Auth.EncodingIsAccepted` | src/server/socks/auth/auth.c:100-155 | every encoded user name and password is accepted after exactly its own bytes, with those fields, whatever follows |
| `Auth.AcceptedIsEncoding` | src/server/socks/auth/auth.c:100-155 | the bytes consumed without a rejection are the encoding of the fields parsed so far |
| `Auth.Parser.Validate` | src/server/socks/auth/auth.c:64-98 | validation is membership of the pair of C strings (each field cut at its first NUL) in the credentials it is given |
| `ProxyTables.CredentialsHold` | src/server/socks/auth/auth.c:64-98 | run on the user table object, the lookup of the parsed fields as C strings says whether some slot in use holds them |
| `Request.Parser.FeedByte` | src/server/socks/request/request.c:82-222 | one byte moves the parser object as it moves the abstract machine; name and address bytes are written in range |
| `Request.EncodingIsAccepted` | src/server/socks/request/request.c:82-222 | every encoded CONNECT (IPv4, IPv6 or name) is accepted after exactly its own bytes, with its destination and port, whatever follows |
| `Request.AcceptedIsEncoding` | src/server/socks/request/request.c:82-222 | the bytes consumed without a rejection are the encoding of what was parsed so far |
| `Handshake.RunKeepsWf` | src/server/socks/socks.c:136-276 | over every client stream the replies, the parsed fields and the phase of the handshake agree with the bytes consumed |
| `Handshake.RunTakesPrefix` | src/server/socks/socks.c:136-276 | the handshake consumes a prefix of its input, all of it unless it is left |
| `Handshake.RunSplit` | src/server/socks/socks.c:136-276 | splitting a client stream in two changes nothing |
| `Handshake.RunStops` | src/server/socks/socks.c:619-689 | once left, the handshake ignores what follows |
| `Handshake.ExitIsScripted` | src/server/socks/socks.c:619-689 | under tables t, a handshake that goes on to connect or resolve has consumed exactly one encoded greeting, then credentials of t's user table if method 2 was offered, then one encoded CONNECT to a destination t's deny lists do not hold |
| `Handshake.ScriptBytes` | src/server/socks/socks.c:619-689 | the bytes of such a script, one by one, as RFC 1928 and RFC 1929 lay them out |
| `Handshake.RunDecides` | src/server/socks/socks.c:208-276 | whatever came before, the tables in force when the credentials, or the request, are completed accept or refuse them: validated iff let in, denied iff answered so |
| `Handshake.ScriptIsAccepted` | src/server/socks/socks.c:136-276 | conversely every such script is accepted after exactly its own bytes, early data behind it untouched |
| `SessionSafety.StepKeeps` | src/server/socks/socks.c:1440-1546 | every handler, with every outcome of its reads, writes and connects, keeps the session invariant (streams, replies, states, interests, retry cursor, store calls) |
| `SessionSafety.RunKeeps` | src/server/socks/socks.c:1440-1546 | so does every run |
| `SessionSafety.FreshHolds` | src/server/socks/socks.c:1337-1410 | a new session satisfies it for every buffer size the configuration allows |
| `SessionSafety.BeginConnectKeeps` | src/server/socks/socks.c:525-607 | the recursive connect loop ends in CONNECTING or in an answered failure with the retry bookkeeping intact |
| `SessionRuns.StreamConservation` | src/server/socks/socks.c:810-985 | over every run, handshake bytes, bytes written to the origin and c2o add up to the client bytes read, and bytes written to the client and o2c add up to replies and origin bytes, in order |
| `SessionStreams.StreamsOfRun` | src/server/socks/socks.c:810-985 | over every run, what the client was sent, what the origin was sent and what each sent are functions of the outcomes of the events' own reads and writes: each write moves the first min(n, pending) bytes and keeps the rest, each read brings the event's bytes cut at the room |
| `SessionStreams.ClientSide` | src/server/socks/socks.c:810-850 | for one event: the client is sent exactly the first bytes pending for it, as many as that event's writes report, and the rest stays |
| `SessionStreams.OriginSide` | src/server/socks/socks.c:876-916 | the same towards the origin |
| `SessionEffects.StepSeen` | src/server/socks/socks.c:810-985 | every event of every reachable open session, said without the handlers: counts written and read, the calls the store gets with their arguments, the final call, and exactly when the session closes |
| `SessionAnswers.StepTold` | src/server/socks/socks.c:315-606 | every event of every reachable open session: the reply bytes it queues, to the code, and which addresses it dials, by the position in the list at which the connect loop stops |
| `SessionAnswers.RefusalDeserves` | src/server/socks/request/request.c:82-222 | a refused request has the bytes that earn its code: 7 for a command other than 1, 8 for an unknown address type, 1 for a wrong version, reserved byte or empty name, 2 for a well-formed one that is denied |
| `SessionAnswers.BeginConnectDials` | src/server/socks/socks.c:525-607 | the connect loop stops at the first address that is denied, does not fail at once, or is the last; the answer and the addresses tried are those of that position |
| `SessionRuns.StatesNeverGoBack` | src/server/socks/socks.c:136-325 | the rank of the session state never decreases |
| `SessionRuns.ChunkingIndependence` | src/server/socks/socks.c:1497-1507 | two runs that read the same client bytes, however chunked and with whatever buffer sizes, agree on parser contents, replies and leftover bytes |
| `SessionRuns.HandshakeOfRun` | src/server/socks/socks.c:1440-1507 | in every run the handshake is the one-byte-at-a-time automaton run over all client bytes read |
| `SessionRuns.ReplyGrammarOverRuns` | src/server/socks/socks.c:315-338 | the replies are [05 m], then [01 s] only after m = 2, then at most one 10-byte reply, at most 14 bytes in all |
| `SessionRuns.RepliesFit` | src/server/socks/socks.c:85-100 | before the relay there is always room for a 10-byte reply, so the append never fails |
| `SessionRuns.RelayInterest` | src/server/socks/socks.c:790-804 | in RELAY, client OP_READ iff c2o has room, client OP_WRITE iff o2c holds bytes, origin OP_WRITE iff c2o holds bytes, origin OP_READ only if o2c has room |
| `SessionRuns.InterestsNow` | src/server/socks/socks.c:790-804 | in every open session client OP_READ iff c2o has room and client OP_WRITE iff o2c holds bytes; while connecting the origin is watched for OP_WRITE only |
| `SessionRules.CredentialsChecked` | src/server/socks/socks.c:208-276 | in every run, a client past authentication by name and password had its credentials in the user table of the very read that completed them |
| `SessionRules.RefusalDeserved` | src/server/socks/socks.c:208-276 | and credentials that were refused were not in the table of that read |
| `SessionRules.RequestDecided` | src/server/socks/socks.c:619-689 | the read that completed a well-formed request answered denied iff its own deny lists held the destination; a session that resolves, connects or relays asked for one they did not |
| `SessionRules.RelayIsEarned` | src/server/socks/socks.c:619-689 | a session in RELAY has an open origin; its client's bytes are a complete script and what went to the origin; the read that completed the credentials found them in its user table, the one that completed the request did not find the destination in its deny lists |
| `SessionRules.RelayIsEarnedUnder` | src/server/socks/socks.c:619-689 | with one set of tables throughout, those are the ones |
| `SessionTrials.RetryOrder` | src/server/socks/socks.c:525-607 | addresses are tried in list order, each once, by an event whose own deny list did not hold it; every failure is one an event reported; a connect error is answered only after the last address failed, with that failure's code |
| `SessionTrials.TrialAllowed` | src/server/socks/socks.c:525-607 | the event that tried the i-th address, and that its deny list did not hold it |
| `SessionTrials.FailureCaused` | src/server/socks/socks.c:732-762 | the j-th failure is the code of the connect error an event reported, immediate or deferred, in the order it reported them |
| `SessionTrials.CandidatesSourced` | src/server/socks/socks.c:695-713 | the list of addresses is the resolver's answer given while RESOLVING, or the one address of the CONNECT |
| `SessionStalls.StallExactly` | src/server/socks/socks.c:1532-1546 | of all events in all states, exactly a client write that makes room in a full o2c leaves the origin's OP_READ off although o2c has room |
| `SessionStalls.StallEndsExactly` | src/server/socks/socks.c:1412-1546 | a stall ends exactly with client data, an origin write, a write error, a close or a timeout |
| `SessionStalls.StallFreezes` | src/server/socks/socks.c:1532-1546 | a stalled session with both buffers empty does not move, whatever the origin does, until the client speaks or it times out |
| `SessionStalls.StallIsReachable` | src/server/socks/socks.c:918-967 | every welcome visit whose origin sends a bufferful the client takes late runs into it |
| `SessionProgress.RelayIsReached` | src/server/socks/socks.c:732-779 | every welcome script, to an address or a name, in whatever pieces it is read and with early data behind it, reaches RELAY once an address answers, with the success reply queued and the early data first in line |
| `SessionProgress.ScriptTaken` | src/server/socks/socks.c:1440-1524 | after the last piece of such a script the session waits for the resolver or for its connect, having consumed the script and nothing else |
| `SessionProgress.FirstAnswerWins` | src/server/socks/socks.c:525-607 | if the first k addresses fail at once and the next gets under way, none of them denied, the session waits for that one, having tried exactly those before it |
| `SessionProgress.NameIsDialed` | src/server/socks/socks.c:695-713 | a resolved name with such a list leads to a connect to the first address that answers |
| `DrainLoop.DrainUnfold` | src/server/socks/socks.c:1497-1507 | one pass of the drain loop consumes one byte and the rest of the loop gives the same result as the whole |
| `DrainLoop.ConsumedTwice` | src/server/socks/socks.c:1497-1507 | consuming one byte and then n more is consuming n + 1 |
| `ProxySession.Proxy.EatGreeting` | src/server/socks/socks.c:136-206 | one greeting byte on the objects: parser, reply and next state are those of the automaton |
| `ProxySession.Proxy.EatAuth` | src/server/socks/socks.c:208-276 | one byte of the credentials: validation, reply, user name in the store and next state |
| `ProxySession.Proxy.EatRequest` | src/server/socks/socks.c:619-689 | one byte of the CONNECT: refused, denied, to be resolved or to be connected, as the automaton says |
| `SocksSession.Link.CloseNow` | src/server/socks/socks.c:1580-1617 | closing ends the store session (or marks it timed out), once, and drops the origin |
| `SocksSession.Link.FlushToClient` | src/server/socks/socks.c:810-850 | one write of everything in o2c, with partial writes, EAGAIN and errors |
| `SocksSession.Link.FlushToOrigin` | src/server/socks/socks.c:876-916 | one write of everything in c2o, counted in the store |
| `SocksSession.Link.CloseFlushed` | src/server/socks/socks.c:852-874 | the session closes once its last answer is out |
| `SocksSession.Link.Fail` | src/server/socks/socks.c:397-441 | the store is told, the reply queued, and the session left to close when flushed |
| `SocksSession.Link.BeginConnectNow` | src/server/socks/socks.c:525-607 | the recursion over the resolved list does what the specification says, and ends |
| `SocksSession.Link.HandleLookup` | src/server/socks/socks.c:1549-1562 | the resolver's answer: first candidate or failure reply |
| `SocksSession.Link.ReadOrigin` | src/server/socks/socks.c:918-967 | origin bytes are counted, queued and flushed; EOF and errors close |
| `SocksSession.Link.ConnectFailedNow` | src/server/socks/socks.c:732-762 | a deferred failure tries the next address or reports this one |
| `SocksSession.Link.ConnectSucceeded` | src/server/socks/socks.c:763-779 | success is recorded in the store and answered, and the relay begins |
| `SocksSession.Link.RecordDestNow` | src/server/socks/socks.c:1089-1138 | the destination is recorded once |
| `SocksSession.Link.ExpireNow` | src/server/socks/socks.c:1226-1252 | an expired session before the relay is answered with reply 06 and closed when flushed |
| `ProxySession.Proxy.DrainAll` | src/server/socks/socks.c:1497-1507 | the drain loop terminates, because each pass consumes a byte, and equals the one-shot specification |
| `ProxySession.Proxy.ClientReadNow` | src/server/socks/socks.c:1440-1524 | the whole client read handler on objects has the specified effect |
| `ProxySession.Proxy.ConnectCompleteNow` | src/server/socks/socks.c:732-779 | the connect completion handler on objects has the specified effect |
| `ProxySession.Proxy.OriginWriteNow` | src/server/socks/socks.c:969-985 | the origin write handler on objects has the specified effect |
| `ProxySession.Proxy.Handle` | src/server/socks/socks.c:1440-1562 | every event moves the session object as the specification moves the session, and keeps the invariant |
| `ProxySession.Proxy.HandleAll` | src/server/socks/socks.c:1440-1562 | so does every sequence of events |
| `IdleList.Server.Remove` | src/server/socks/socks.c:1144-1172 | the neighbours are joined and the rest keeps its order; a session not listed changes nothing |
| `IdleList.Server.PushTail` | src/server/socks/socks.c:1174-1205 | the session becomes the last one, wherever it was |
| `IdleList.Server.Touch` | src/server/socks/socks.c:1207-1220 | its time is the clock's and it moves to the end, if listed; the list stays sorted |
| `IdleList.Server.Close` | src/server/socks/socks.c:1580-1587 | a closed session leaves the list |
| `IdleList.Server.Accept` | src/server/socks/socks.c:1703-1704 | an accepted session is the newest and goes last |
| `IdleList.Server.Expire` | src/server/socks/socks.c:1254-1291 | the early-exit scan removes and marks exactly the listed sessions with now - last_activity >= timeout, and none if the timeout is 0 |
| `IdleList.HandleEvents` | src/server/socks/socks.c:1144-1291 | every interleaving of accept, touch, close and sweep under a clock that does not go back keeps the list well formed, duplicate-free and sorted, and lets live, time-stamps and expires exactly the sessions a list-free reference does |
| `IdleSessions.ExpiredWhenIdle` | src/server/socks/socks.c:1207-1291 | from accept on, under a clock that does not go back: a session is expired iff some sweep found it open with its accept and all its reads and writes at least the timeout ago that it read from the store, and that timeout was not 0 |
| `IdleSessions.TouchesMove` | src/server/socks/socks.c:842-845 | whatever moves a byte of either stream counts as activity, and activity moves a byte unless a write reports that it took none |
| `AccessLog.Ring.Append` | src/server/monitor/store.c:104-135 | the ring becomes the window on the history with one more entry, cut to field sizes, with the next id |
| `AccessLog.Ring.Update` | src/server/monitor/store.c:138-164 | the scan by id updates the entry of the full history with that id: in the ring if it is still there, nothing if it was overwritten |
| `AccessLog.Ring.Foreach` | src/server/monitor/store.c:795-832 | newest first, filtered, ending where the callback says so |
| `AccessLog.NewestIsWindow` | src/server/monitor/store.c:795-832 | the traversal shows an entry iff it is one of the newest and passes the filter, in strictly decreasing id order |
| `AccessLog.RunAndList` | src/server/monitor/store.c:104-164 | after any appends and updates the ring lists exactly the newest 4096 entries of the full history |
| `StoreSpec.RunsAreSound` | src/server/monitor/store.c:466-607 | over every sequence of begins, session calls and settings: at most cap sessions, cap within the slots, ids in use below the next one, settings in range |
| `StoreSpec.ApplySound` | src/server/monitor/store.c:610-773 | every session call keeps that, and only the three final calls end a session |
| `SessionTable.Table.constructor` | src/server/monitor/store.c:187-210 | a new store stands for the empty map with the default settings |
| `SessionTable.Table.Find` | src/server/monitor/store.c:69-84 | the scan finds the slot of a session in progress and nothing else |
| `SessionTable.Table.Begin` | src/server/monitor/store.c:571-607 | fails iff the cap is reached, because below it a slot is free; otherwise the session gets an id nobody has |
| `SessionTable.Table.Remove` | src/server/monitor/store.c:167-180 | the slot is free and the count one less |
| `SessionTable.Table.SetUserName` | src/server/monitor/store.c:610-622 | the cut name of that session, nothing else |
| `SessionTable.Table.SetDestination` | src/server/monitor/store.c:629-656 | destination and phase of that session; a CONNECTED entry iff it has a user name (that entries exist over runs: `Accounting.ConnectionsAreLogged`) |
| `SessionTable.Table.EnterPhase` | src/server/monitor/store.c:659-671 | the phase of that session, nothing else |
| `SessionTable.Table.CountBytes` | src/server/monitor/store.c:674-699 | session, global and log counters move together |
| `SessionTable.Table.Fail` | src/server/monitor/store.c:702-721 | the session is released; a FAILED entry iff it had a name and a host |
| `SessionTable.Table.Finish` | src/server/monitor/store.c:724-743 | the session is released and its entry, if any, reads CLOSED with its counters |
| `SessionTable.Table.TimeOut` | src/server/monitor/store.c:746-773 | the session is released and its entry reads TTL_EXPIRED, a new one if it had none but a name and a host |
| `SessionTable.Table.Grow` | src/server/monitor/store.c:414-437 | old slots keep their sessions, new ones are free, or memory ran out and nothing changed |
| `SessionTable.Table.Configure` | src/server/monitor/store.c:466-526 | accepted iff timeout <= 86400, or the cap lies in 1..16384, holds the sessions in progress and finds memory for its slots, or the buffer size lies in 1024..65536; then that field holds the value and the other settings stay |
| `StoreSpec.CallTells` | src/server/monitor/store.c:610-773 | every session call, field by field: the record of that session, the counters, and the entry it adds or updates; nothing else |
| `StoreSpec.SettingStored` | src/server/monitor/store.c:466-526 | an accepted value is stored as the setting it was meant for, with sessions, log, counters and other settings unchanged; a refused one changes nothing |
| `StoreSpec.SettingsAreLastSet` | src/server/monitor/store.c:466-526 | over every run of begins, session calls and settings each setting is the last value accepted for it, else its default (0, 1024, 4096) |
| `SessionTable.RunStore` | src/server/monitor/store.c:414-773 | every sequence of operations has on the growing slot array the effect it has on the map |
| `SessionCalls.StepStory` | src/server/socks/socks.c:397-441 | what the store was told agrees with the session after every event: the user once authenticated, one destination at most and before any byte is counted, no failure after it, nothing after the final call |
| `SessionCalls.LastCall` | src/server/socks/socks.c:1589-1600 | the last call of a run: MARK_FAILED iff the request failed; else, once closed, MARK_TTL iff an idle timeout of the run reached the session while it was open, and END iff none did; no final call before |
| `SessionCalls.ExpiredExactly` | src/server/socks/socks.c:1223-1291 | a session is marked expired exactly if some Expire event of the run met it open |
| `SessionCalls.DestinationTold` | src/server/socks/socks.c:1089-1138 | the store is told of a destination exactly if a connect was reported to have succeeded: the name or printed address, and the port, of the request, by that very event |
| `SessionCalls.UserTold` | src/server/socks/socks.c:243-256 | the user name told is the authenticated one as a C string, or Anon without authentication |
| `Accounting.ConnectionsAreLogged` | src/server/monitor/store.c:629-773 | over every run of accepts, events and settings, every session whose connect succeeded owns exactly one log entry, with its user, host, port and byte counts, reading CONNECTED while it is open, TTL_EXPIRED after an idle timeout, CLOSED otherwise; any other session owns none |
| `Accounting.AdmittedExactly` | src/server/socks/socks.c:1620-1704 | a connection is admitted iff fewer sessions than the cap are in progress and its setup succeeds: with an id of its own, an empty record and buffers of the size in force |
| `Accounting.RunsAreGood` | src/server/socks/socks.c:1580-1704 | for all sessions and the store together, every accept, event and setting keeps the accounting invariant |
| `Accounting.GlobalBytes` | src/server/monitor/store.c:674-699 | global bytes up and down are the sums over all past and present sessions of the bytes written to and read from their origins |
| `Accounting.SessionRecords` | src/server/monitor/store.c:571-773 | a session has a record in the store exactly while it holds a store id, and the record has its byte counts, user name and phase, and in RELAY host and port |
| `Accounting.LogFollowsSessions` | src/server/monitor/store.c:629-773 | an entry reads CONNECTED iff a session in progress owns it, and then shows that session's counters; no entry ever reads FAILED |
| `Accounting.CountsDifferByFailures` | src/server/socks/socks.c:397-406 | active_sessions minus concurrent_connections is the number of open sessions whose store id was cleared by a failed CONNECT |
| `Users.UserTable.Validate` | src/server/monitor/store.c:238-260 | true iff some slot in use holds exactly this name and password |
| `Users.UserTable.Authenticate` | src/server/monitor/store.c:263-290 | the first slot with the name decides: wrong password, not an administrator, or ok |
| `Users.UserTable.Add` | src/server/monitor/store.c:293-327 | exists, full, or the first free slot takes the cut name and password |
| `Users.UserTable.CountAdmins` | src/server/monitor/store.c:330-343 | the number of administrators in use |
| `Users.UserTable.Delete` | src/server/monitor/store.c:346-379 | not found, last administrator, or the slot is freed |
| `Users.UserTable.SetPassword` | src/server/monitor/store.c:382-404 | the first slot with the name takes the cut password |
| `Users.UserTable.Exists` | src/server/monitor/store.c:835-850 | true iff some slot in use has this name |
| `UserMap.AddRefines` | src/server/monitor/store.c:293-327 | with names up to 64 and passwords up to 255 bytes the slots behave as a map of at most 256 names |
| `UserMap.DeleteRefines` | src/server/monitor/store.c:346-379 | deleting removes that name from the map, unless it is the only administrator |
| `UserMap.PasswordRefines` | src/server/monitor/store.c:382-404 | setting a password changes that name's password only |
| `UserMap.LookupRefines` | src/server/monitor/store.c:238-290 | validation and administrator login read the map: ok iff that name has that password and is an administrator |
| `UserMap.AddExactly` | src/server/monitor/store.c:305-318 | adding keeps the correspondence iff the name is known, the table is full, or neither name nor password is cut |
| `UserMap.LongNamesAreLost` | src/server/monitor/store.c:305-318 | a name of more than 64 bytes is never found again |
| `UserMap.DuplicateOfLongName` | src/server/monitor/store.c:305-318 | the same long name is added twice and two slots then hold one name |
| `UserMap.RunsRefine` | src/server/monitor/store.c:293-404 | so over every sequence of operations that fit |
| `UserMap.RunsFromEmpty` | src/server/monitor/store.c:293-404 | in particular from the empty table on |
| `UserMap.AdminStays` | src/server/monitor/store.c:346-379 | whatever the names, one operation leaves an administrator if there was one |
| `UserMap.AdminStaysForever` | src/server/monitor/store.c:293-404 | so does every sequence of operations |
| `Acl.RuleList.Contains` | src/server/monitor/store.c:1007-1033 | the walk finds a key iff it is in the list |
| `Acl.RuleList.Append` | src/server/monitor/store.c:910-932 | a rule with a new key goes last and the tail pointer follows |
| `Acl.CopyHost` | src/server/monitor/store.c:950-952 | the name is copied into a zeroed field of 256 bytes, every index in range, for names of at most 255 bytes |
| `Acl.RuleList.Remove` | src/server/monitor/store.c:1035-1093 | exactly the matching rule goes, the rest keeps its order, the tail pointer is at the last rule |
| `Acl.DenyLists.IsIpDenied` | src/server/monitor/store.c:1021-1033 | an address is denied iff it parses and its value is listed, however it is written |
| `Acl.OverflowsExactly` | src/server/monitor/store.c:934-956 | the copy leaves its field iff the text has 256 bytes or more and does not parse as an address |
| `Acl.DenyLists.DenyHostName` | src/server/monitor/store.c:934-956 | unless the copy would leave its field: a host that is new and no address goes last, else nothing changes, and the answer says which |
| `Acl.DenyLists.DenyAddress` | src/server/monitor/store.c:958-982 | an address that parses and is new goes last, else nothing changes |
| `Acl.DenyLists.UndenyHostName` | src/server/monitor/store.c:1035-1063 | exactly that host goes |
| `Acl.DenyLists.UndenyAddress` | src/server/monitor/store.c:1065-1093 | exactly that address goes, however it is written |
| `Acl.DeniedAsLastSaid` | src/server/monitor/store.c:934-1093 | over every run of rules that fit their fields the lists hold no duplicate and deny exactly what was denied last |
| `Acl.RunRules` | src/server/monitor/store.c:910-1093 | every sequence of deny and undeny that fits keeps both heap lists acyclic and in step with the sets |
| `MonitorLines.FramingExactly` | src/server/monitor/monitor_commands.c:691-728 | for every stream and chunking the lines run are exactly those of the newline split, stripped, iff every terminated line has at most 511 bytes and the rest at most 512 |
| `MonitorLines.SplitOfIsSplit` | src/server/monitor/monitor_commands.c:691-728 | the newline split it is compared with puts the stream together again, with no newline in any piece |
| `MonitorLines.ChunksDoNotMatter` | src/server/monitor/monitor_commands.c:720-728 | feeding chunks is feeding their concatenation |
| `MonitorLines.SplitLine` | src/server/monitor/monitor_commands.c:110-123 | the first eight blank-separated tokens |
| `MonitorLines.PrintedSplitsExactly` | src/server/monitor/monitor_commands.c:110-123 | tokens come back from their printed form iff none is empty or holds a blank |
| `MonitorRuns.GateHolds` | src/server/monitor/monitor_commands.c:589-614 | over every run a session is authenticated iff one of its lines is an AUTH that matches an administrator of the initial table; it stays so, and until then the store is unchanged |
| `MonitorRuns.RunsKeep` | src/server/monitor/monitor_commands.c:589-681 | through any run settings stay in range, an administrator remains, and what is sent is whole texts in order, at most 4096 bytes pending |
| `MonitorRuns.RulesKeep` | src/server/monitor/monitor_commands.c:461-533 | through any run in which no host name is copied past its field the deny lists stay duplicate-free and their names within their fields |
| `MonitorRuns.ShortHostsSpare` | src/server/monitor/monitor_commands.c:461-485 | only a DENY_HOST of 256 bytes or more can copy past a field |
| `MonitorRuns.LineIsAnswered` | src/server/monitor/monitor_commands.c:589-681 | a line is answered by its texts and a final dot, less those that find no room: with room for all nothing is lost, and the dot is lost iff what fitted before it leaves less than two bytes |
| `MonitorRuns.UsersStayByName` | src/server/monitor/monitor_commands.c:388-459 | while no name or password is longer than its field, the 256 slots stand for a map through every run |
| `MonitorRuns.DrainSends` | src/server/monitor/monitor_commands.c:85-101 | a write sends the first n pending bytes, or all there are, and keeps the rest |
| `MonitorRuns.BytesRunLines` | src/server/monitor/monitor_commands.c:720-728 | a read runs the lines its bytes complete, in order |
| `MonitorRuns.GateStep` | src/server/monitor/monitor_commands.c:130-161 | before authentication one line lets the session in iff it logs an administrator in, and changes nothing in the store |
| `MonitorStore.Shared.ChangeUsers` | src/server/monitor/monitor_commands.c:388-459 | each user command makes its change and gives the answer that goes with it |
| `MonitorStore.Shared.Configure` | src/server/monitor/monitor_commands.c:325-338 | a setting in range is tried in the store, and the answer says whether it took |
| `MonitorStore.Shared.Deny` | src/server/monitor/monitor_commands.c:461-511 | a rule that fits its field is added unless it is there or malformed, with the answer that goes with it |
| `MonitorStore.Shared.Undeny` | src/server/monitor/monitor_commands.c:513-533 | the host list first, the address list if that fails (what that leaves: `CommandEffects.UndenyDoes`) |
| `MonitorStore.Create` | src/server/monitor/store.c:187-210 | a new store has no users, no rules and no sessions, on memory of its own |
| `MonitorSession.Admin.constructor` | src/server/monitor/monitor_commands.c:67-75 | a new session is not authenticated, with an empty line and an empty output buffer |
| `MonitorSession.Admin.Append` | src/server/monitor/monitor_commands.c:31-46 | a text is appended whole or dropped whole |
| `MonitorSession.Admin.HandleAuth` | src/server/monitor/monitor_commands.c:130-161 | only a matching administrator gets in |
| `MonitorSession.Admin.DispatchLine` | src/server/monitor/monitor_commands.c:589-681 | gate, router, handler and final dot on the objects have the specified effect |
| `MonitorSession.Admin.ProcessByte` | src/server/monitor/monitor_commands.c:691-717 | one byte on the line buffer has the specified effect, including the swallowed byte of a long line; every index is in range |
| `MonitorSession.Admin.FeedBytes` | src/server/monitor/monitor_commands.c:720-728 | so has every read |
| `MonitorSession.Admin.FlushOnEof` | src/server/monitor/monitor_commands.c:731-739 | the unfinished line is run at end of input, its CR kept |
| `MonitorSession.Admin.WbRead` | src/server/monitor/monitor_commands.c:85-101 | one write hands over and drops what `MonitorRuns.DrainSends` says |
| `MonitorSession.Admin.ShouldClose` | src/server/monitor/monitor_commands.c:104-107 | after QUIT, once the output is out |
| `MonitorSession.Admin.HandleAll` | src/server/monitor/monitor_commands.c:720-739 | every sequence of reads, writes and end of input moves the session object as the specification moves the session |
| `MonitorSession.RunSession` | src/server/monitor/monitor_commands.c:67-75 | from a new store and a new session on, every run that spares the host fields |
| `ClientCommands.CommandArrives` | src/client/protocol.c:133-268 | a printed command of clean words, at most 511 bytes, reaches the dispatcher as those words |
| `ClientCommands.CommandMeans` | src/client/protocol.c:133-278 | an authenticated server takes each command of the client for what the client meant, CONFIG with its key and value if in range |
| `ClientCommands.CommandTakesEffect` | src/client/protocol.c:133-268 | end to end: an authenticated session executes the command it was meant as, unless it is a host name that does not fit (what that does: `CommandEffects.CommandDoes`) |
| `CommandEffects.CommandDoes` | src/server/monitor/monitor_commands.c:388-533 | end to end, for each command typed at the client: what the users, settings and deny lists are after it, and its answer, +OK or the error that applies, followed by a dot; QUIT alone makes the session close |
| `CommandEffects.UndenyDoes` | src/server/monitor/monitor_commands.c:513-533 | UNDENY: a listed host is gone and the rest of both lists is as before; else a listed address is; else nothing changes; +OK iff something went |
| `CommandEffects.LineMeans` | src/server/monitor/monitor_commands.c:589-681 | any other line does what the client command of its first words does; with the words of none it changes nothing and is answered with the syntax error, unknown command or already authenticated |
| `CommandEffects.UsersByName` | src/server/monitor/monitor_commands.c:388-459 | on the map from names to users, for words that fit: ADD_USER adds a new name if there is room, DEL_USER drops one unless it is the last administrator, SET_PASSWORD replaces a password; +OK iff so |
| `ClientCommands.LoginEndToEnd` | src/client/protocol.c:133-138 | logging in from the client works iff name and password are an administrator's, and changes nothing in the store |
| `ClientCommands.LongHostArrives` | src/client/protocol.c:249-254 | a host name of 256 to 501 bytes reaches the dispatcher whole, and is copied past its field iff it is neither listed nor an address |
| `ProxyTables.NameDenied` | src/server/monitor/store.c:1007-1019 | the host list object says whether the name of a CONNECT is denied |
| `ProxyTables.AddressDenied` | src/server/socks/socks.c:102-126 | an address, printed and parsed again, is denied iff the address list object holds it |
| `ProxyTables.DenyReachesProxy` | src/server/monitor/monitor_commands.c:461-511 | after an accepted DENY_HOST or DENY_IP the tables the proxy reads deny its target |
| `ProxyTables.RulesReachProxy` | src/server/monitor/monitor_commands.c:461-533 | for every destination: after DENY_HOST, DENY_IP or UNDENY the proxy denies it iff it did before and the rule did not lift it, or the accepted rule names it |
| `ProxyTables.UsersReachProxy` | src/server/monitor/monitor_commands.c:388-459 | for every name and password: after a user command a client may log in with them iff the command says so, or it could before and the command does not touch them |
| `ParserEngine.Parser.Feed` | src/shared/parser.c:52-95 | the first transition that applies is taken with its one or two events; if none does, the state stays |
| `StringMatcher.Compile` | src/shared/parser_utils.c:75-139 | the flat table, offsets and counts hold the rows for the string; every index is in range |
| `StringMatcher.MatcherCompares` | src/shared/parser_utils.c:75-139 | for every string and non-empty input the last event is EQ iff they are equal ignoring case, MAYEQ iff the input is a proper prefix, NEQ otherwise |
| `StringMatcher.DifferentStaysDifferent` | src/shared/parser_utils.c:75-139 | NEQ is forever |
| `StringMatcher.CompareIgnoringCase` | src/shared/parser.c:52-95 | compiler and interpreter together compare two strings |
| `Selector.NextCapacity` | src/shared/selector.c:128-146 | one more than the least power of two above n, capped at 65536; above n for every n up to the maximum |
| `Selector.Table.ItemsInit` | src/shared/selector.c:157-164 | every item from last on is marked unused, the ones before are untouched |
| `Selector.Table.EnsureCapacity` | src/shared/selector.c:171-229 | on success n is a valid index; old items stay, new ones are unused; more than 65536 is refused, and nothing changes on failure |

## Left out

- Sockets, epoll, `accept`, signals, threads and the main loop: only their outcomes appear, as arguments of events. An event is delivered only when its interest is armed, a DNS answer only to a live session in RESOLVING.
- src/shared/stm.c: the `current` pointer is the `st` field of the session; entry and exit hooks are empty in socks.c and not modelled.
- Memory lifetime: closing is a terminal flag, and the rest of a handler that has closed its session is not modelled. Allocation failure appears only where the source reports it (a raised cap, the selector's table, session setup).
- `socks_fail_request` when its reply does not fit: modelled as a close; `SessionRuns.RepliesFit` shows it does not happen.
- A retry that fails at once inside `socks_origin_connect_complete` returns without closing: modelled as it is, and no promptness of closing is claimed. Nor is liveness of a relay whose peers stay silent.
- Widths: byte and connection counters and ids are unbounded naturals, so wrap-around after 2^32 ids or 2^64 bytes is not modelled.
- `inet_pton`, `inet_ntop`, `getaddrinfo`, `strtol` and timestamps are parameters; the wording of listings (STATS, CONNECTIONS, USERS, ACCESS_LOG, DENY_LIST, CONFIG reads) is a parameter too, and a line `printf` cannot fit in 4096 bytes counts as never printed.
- The table from errno to reply codes and the name tables of enums: each is one switch. The errno values are modelled by the reply class they map to.
- Auth.Parser.Validate: takes the stored credentials as a set; `ProxyTables.CredentialsHold` does the lookup on the table object.
- Credentials and deny lists reach the session model as sets (`Handshake.Tables`), chosen afresh for every event; `ProxyTables.TablesOf` says which sets a store stands for. One object that joins all sessions with the store is not built; `Accounting` joins their specifications.
- StringMatcher.Compile: requires 7-bit strings, for which `tolower` and `toupper` are defined whatever the sign of `char`; memory running out is not modelled.
- ParserEngine.Parser.constructor: requires a table of 256 classes; the one src/shared/parser.c:97 provides has 255.
- Selector.Table.EnsureCapacity: is not tied to `selector_register`, which grows the table only for a descriptor above its size, not one equal to it.
- Selector.NextCapacity: shifts on unbounded naturals; its callers ask for at most 65536.
- Acl.DenyLists.DenyHostName: says nothing of a host name that does not fit its field, where the source writes past it; theorems over monitor runs that do not assume it fits speak of the specification alone from such a line on.
- SessionProgress.RelayIsReached: asks that script and early data fit the buffer together and that the tables stay the same while the script is read.
- IdleSessions.ExpiredWhenIdle: reads activity off the reads and writes of the events; the session objects carry no clock.
- SessionRuns.ChunkingIndependence: speaks of runs without an idle timeout and with one user table and one deny list throughout.
- MonitorRuns.GateHolds: follows one session; changes other sessions and the proxy make to the store meanwhile are not interleaved.
- The fixed greeting line of the monitor (src/server/monitor/monitor_commands.c:78-82).
- Reading the monitor's answers in the client (src/client/protocol.c:58-131), the user interface, option parsing, the echo server, the stress tools and scripts.
