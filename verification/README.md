# TitanShare daemon: protocol, authentication and streaming

A Dafny model of the TitanShare daemon's per-connection protocol engine and of the state and
streams around it, with proofs about every run of it.

- `Text.dfy` — the string functions taken from the C and C++ libraries, `std::stoull` included.
- `Protocol.dfy` — the wire protocol as a parser that reads **one byte at a time**. It knows no
  buffers, calls or short writes: it is the reference.
- `Connection.dfy` — a connection as the daemon drives it: one call per received chunk, at most
  one disk write per call, the DATA stage leaving the loop after it, an end marker dropped only
  if it is wholly buffered, the cap before authentication. `Run` folds it over any chunks.
- `Refinement.dfy` — how `Run` relates to the reference, for all chunkings and all write results.
- `Traces.dfy` — the grammar of every conversation and the uploads it records.
  `LinesAndPayload.dfy` — where its lines and payloads lie in the stream, and when they meet.
- `LineMeaning.dfy` — what every line means, as a relation between how its text is composed and what
  it brings about, and the proof that every event of a run is said by a handled line.
- `Requests.dfy` — what a trace shows to have been asked of the dispatcher, the drop folder and the
  disk.
- `Framing.dfy` — headers, commands and PIN lines: what clients write is what the daemon reads.
- `AuthBook.dfy` — the shared authentication state as a function of the history of calls on it,
  and the laws over all histories.
- `SessionManager.dfy`, `ClientSession.dfy`, `TcpServer.dfy` — the mutable objects, with the
  source's fields, each tied to the specifications above.
- `SessionLaws.dfy` — the laws about runs, of the session object. `Admission.dfy` — a PIN's way from
  the draw through framing, the shared state and the session to AUTH_OK.
- `Transport.dfy` — responses over TLS and the file push, over sends that stall or break.
- `MirrorStream.dfy` — the mirror frame reader, byte arithmetic included.
- `VirtualKeyboard.dfy` — the character table, the typed events, and a keyboard reading them.

## How the pieces fit

The outside world is nondeterministic. In the classes, `open`, `write`, the dispatcher, the clock
and the refresh thread may answer anything. Each request records itself: what it was asked, and what
the answer was. The trace of a session shows exactly these requests (`Recorded`). A `World`
is one complete assignment of answers; `Agrees` says that a world gives the recorded ones.
`ClientSession.OnData` proves that in *every* agreeing world the session object — buffer, read
head, compaction, descriptor and all — is exactly where `Connection.OnData` says, and keeps
`Follows`: in every agreeing world the session is where the `Run` of all its chunks is. There
always is such a world (`SessionLaws.SessionIsRun`), so the laws of `Refinement` and `Traces`, which
are about `Run` in an arbitrary world, hold of the object (`SessionRefines`, `SessionKeepsFiles`,
`SessionParts`, `SessionWasTold`, `SessionAsksAsShown`).
`TcpServer.Valid` includes `Follows` for every client, so they hold of every client of a server.

The consumed bytes are logged as the parser reads them: a byte, a dropped end marker (`Skip`), or
a failed write together with the buffered bytes it throws away (`Fault`). `Expand(log)` is always
the consumed part of the stream and replaying the log byte by byte always gives the session's
state, also after write errors (`Sound`). A trace is the sequence of observable events; a reply to
a late `FILE_END` line is the event `StraySentinel`, and `Erase` removes exactly those events.

Sessions work on `char` buffers in the source and on strings here. Dafny's `char` has more values
than a byte; every statement is for all strings, so in particular for all byte strings.

## What the proofs found

- **Chunk independence is false as it stands, and this is exactly how far it goes.** Sessions with
  the same answers agree up to replies to late end markers and up to work that waits
  (`Confluence`, `CaughtUpIffNotStalled`). Work waits after a call if and only if the call came to
  payload and the disk took less than it was offered, or the file completed with a further line
  already buffered (`StalledIff`). So a command sent in one segment behind the last payload bytes
  is not answered until more data arrives (`PipelinedLineWaits`).
- **The cap before authentication depends on the cuts.** It closes a session if and only if some
  chunk finds the reference still waiting for a PIN on everything before it and brings the bytes
  received above 4096 (`OverflowIff`). So a correct PIN is not heard if too much arrives with it in
  one segment, although the same bytes in two segments are accepted (`OverflowDependsOnCuts`).
- **A write error can turn payload into commands, and this is exactly when.** A failed write throws
  away what is buffered and goes back to reading lines. A byte of an announced payload is handled as
  part of a line if and only if some failed write threw away fewer bytes than were missing of its
  file and a line was handled afterwards (`PayloadIsALineIff`). So without a failed write it never
  happens (`PayloadIsNeverALine`), nor if everything missing was thrown away with it; otherwise a
  `CMD:` line inside the rest of the file is obeyed (`PayloadIsObeyed`).
- **Bans never escalate in the running daemon.** The class does double its bans (`EscalationLaw`,
  `DirectFailuresEscalate`), as `src/auth/session_manager.hpp:31-32` promises, but `handleAuth`
  asks `isIpBlocked` before every PIN, and that call clears the ban count when a ban has expired.
  On the daemon's path every ban is an IP's first and lasts 30 seconds (`BansNeverEscalate`). The
  guess rate is bounded all the same (`GuessRate`).
- A size with a minus sign is read modulo 2^64, so `-18446744073709551615` announces one byte.
  Exactly the magnitudes from 2^64 - 2^31 to 2^64 - 1 open a file (`NegativeSizeWraps`).
- The documents under `Titan share/` speak of a window of three PINs; the code keeps twelve, and so
  does the model.

## Model

| member | source | states |
|---|---|---|
| Connection.Run | src/server/client_session.cpp:83-164 | after any chunks, short writes and write errors, the consumed part of the stream, read byte by byte, leads the reference parser to exactly the session's state and trace |
| Connection.OnDataSound | src/server/client_session.cpp:83-164 | one received chunk keeps that relation, counters included |
| Connection.TakeLineSound | src/server/client_session.cpp:132-158 | taking a line off the buffer is reading its bytes one at a time |
| Connection.FileDataSound | src/server/client_session.cpp:297-352 | one write, short, full or failed, with or without a dropped end marker, is reading the written bytes one at a time |
| Protocol.FeedPayload | src/server/client_session.cpp:301-320 | storing payload in one piece or byte by byte is the same, up to and including completion |
| Protocol.RepliesAreLines | src/server/client_session.cpp:168-352 | each reply is one line, and no two read alike |
| Connection.FileDataWrites | src/server/client_session.cpp:297-352 | one write stores, in order, as much of what is both unread and missing as the disk takes; FILE_OK follows with the last missing byte and drops an end marker behind it; a failure answers CMD_FAIL and loses everything unread |
| Refinement.PrefixOfReference | src/server/client_session.cpp:130-352 | up to the first write error a session has done a prefix of what the one-pass reference does, up to replies to late end markers |
| Refinement.ExactPrefixOfReference | src/server/client_session.cpp:83-352 | if no end marker follows a payload, the trace is literally a prefix of the reference's, for every chunking and every short write |
| Refinement.Confluence | src/server/client_session.cpp:130-352 | two sessions whose streams extend one another, cut and written in any ways, have erased traces that extend one another |
| Refinement.LogAlike | src/server/client_session.cpp:334-343 | dropping end markers instead of reading them changes nothing but one reply for each |
| Refinement.CaughtUpIffNotStalled | src/server/client_session.cpp:130-164 | for chunks that do not overflow the cap, a session has done all the reference does on the stream so far if and only if nothing it could handle is waiting |
| Refinement.ChunkingIsIrrelevant | src/server/client_session.cpp:83-164 | two sessions on one stream, cut and written in any ways that do not overflow the cap, have done the same once neither has work waiting |
| Refinement.StalledIff | src/server/client_session.cpp:159-162 | a call leaves work waiting if and only if it comes to payload and the write is short or the completed file has a further line behind it |
| Refinement.PipelinedLineWaits | src/server/client_session.cpp:159-162 | a line sent with the last payload bytes is left unread by that call, and handled if sent separately |
| Refinement.PreAuthBounded | src/server/client_session.cpp:86-98 | before authentication an open session has received at most 4096 bytes |
| Refinement.OverflowIff | src/server/client_session.cpp:86-98 | for all chunks and all write results, the cap closes a session if and only if some chunk brings the bytes received above 4096 while the reference, on the bytes before it, still waits for a PIN |
| Refinement.OverflowDependsOnCuts | src/server/client_session.cpp:86-98 | the same bytes, starting with a correct PIN line, close the session in one segment and authenticate it in two |
| Refinement.PayloadIsObeyed | src/server/client_session.cpp:307-317 | the family of such runs that obey payload: a command line inside an announced payload is stored if the writes succeed and carried out as a command if the write before it failed |
| Traces.RunSpeaks | src/server/client_session.cpp:130-352 | every run keeps to the grammar of conversations, and the grammar's phase is the one the session's stage, attempts and missing bytes name |
| Traces.RunGuesses | src/server/client_session.cpp:168-212 | nothing but guesses and refusals precedes AUTH_OK, which comes at most once and after at most two refusals; a closed parser ended in AUTH_BLOCKED or a third refusal |
| Traces.GuessesFirst | src/server/client_session.cpp:168-212 | in a conversation that keeps the grammar no command, reply or file comes before AUTH_OK |
| Traces.OverAfterRefusal | src/server/client_session.cpp:170-210 | a conversation is over exactly after AUTH_BLOCKED or the third AUTH_FAIL |
| Traces.UploadShape | src/server/client_session.cpp:284-352 | an opened file is announced by READY_FOR_FILE, then bytes are stored, then exactly FILE_OK after the declared number or CMD_FAIL before it |
| Traces.FilesAreStreamSlices | src/server/client_session.cpp:239-352 | every received file holds the consecutive stream bytes behind its header's newline, exactly the declared number if acknowledged, and the one in progress every byte consumed since, over all runs and after failed transfers too |
| Traces.UploadsAreDisjoint | src/server/client_session.cpp:239-352 | over all runs, failed transfers included, the stored bytes of an upload end before the newline of the next upload's header, so no byte is stored twice |
| LinesAndPayload.PayloadIsALineIff | src/server/client_session.cpp:130-352 | over all runs the handled lines are newline-terminated stretches of the stream, and some of them meets an announced payload if and only if a line was handled after a failed write that threw away less than was missing of its file |
| LinesAndPayload.PayloadIsNeverALine | src/server/client_session.cpp:130-352 | without a failed write no handled line meets the announced payload of any upload |
| Framing.FileStartRoundTrip | src/server/client_session.cpp:239-288 | any non-empty name, colons included, with any size from 1 to 2^31 opens a file with the flattened name of the same length and that size |
| Framing.UploadRoundTrip | src/server/client_session.cpp:239-352 | header and content of any upload are stored as that content, acknowledged, and leave the connection ready |
| Framing.FileStartRefuses | src/server/client_session.cpp:260-271 | sizes 0 and above 2^31 are refused and open nothing |
| Framing.SignedSizeOpens | src/server/client_session.cpp:239-288 | for every digit string behind a sign or none: a file is opened if and only if the number fits 64 bits and is then taken for 1 to 2^31 bytes, it gets that size, and everything else is answered CMD_FAIL |
| Framing.NegativeSizeWraps | src/server/client_session.cpp:253-271 | a minus sign opens a file if and only if the magnitude behind it lies from 2^64 - 2^31 to 2^64 - 1 |
| Framing.CommandRoundTrip | src/server/client_session.cpp:217-238 | a command line hands exactly the command behind its blanks to the dispatcher, the listing or the push, and sends back what comes of it |
| LineMeaning.ChompIff | src/server/client_session.cpp:130-158 | a line loses at most one carriage return, and only at its end |
| LineMeaning.PinIff | src/server/client_session.cpp:178-189 | for every line, the PIN judged is the one it frames: the prefix exactly if something stands behind it, blanks in front, blanks and carriage returns behind, and neither at the ends of the PIN |
| LineMeaning.StoullIff | src/server/client_session.cpp:253-258 | a text is read as a number if and only if it is white space, a sign or none, digits that fit 64 bits, and anything that does not begin with a digit |
| LineMeaning.HeaderIsMeant | src/server/client_session.cpp:216-293 | every header line, whatever it says, brings about exactly what its composition means: one request, one file opened or refused, or UNKNOWN_REQUEST |
| LineMeaning.UploadLineOpensIff | src/server/client_session.cpp:239-289 | a line that begins like an announcement opens a file if and only if it has a non-empty name, behind its last colon a numeral of 1 to 2^31, and the file can be created |
| LineMeaning.UnknownLine | src/server/client_session.cpp:290-292 | a line that begins with neither prefix changes nothing and is answered UNKNOWN_REQUEST |
| LineMeaning.EveryLineIsMeant | src/server/client_session.cpp:130-293 | feeding any line to a connection in the header stage adds exactly what it means |
| LineMeaning.EveryPinLineIsMeant | src/server/client_session.cpp:168-212 | feeding any line before authentication judges the PIN it frames unless the IP is banned, and the third wrong one closes the connection |
| LineMeaning.EventsAreSaid | src/server/client_session.cpp:130-293 | over all runs each judged PIN, each command carried out, each listing, each push and each file opened stands in the stream as a handled line that says exactly that |
| Framing.PinThroughFraming | src/server/client_session.cpp:178-189 | a digit PIN survives the optional prefix, leading blanks, and trailing blanks and carriage returns |
| SessionManagement.PinRange | src/auth/session_manager.cpp:33-36 | for every digit count that fits an int the loop gives 10^(d-1) and 10^d - 1 without overflow |
| Framing.DrawnPinsAreFramed | src/auth/session_manager.cpp:29-40 | every number in that range prints with exactly d digits and no leading zero, and is what any framing of it presents |
| Text.StoullOfPrint | src/server/client_session.cpp:253-258 | printing and reading a 64-bit number are inverse |
| Text.ValueIsPositional | src/server/client_session.cpp:253-258 | each digit of a number counts by its position in base ten |
| Text.PrintLength | src/auth/session_manager.cpp:29-40 | a number with d digits prints as d characters without a leading zero |
| Admission.AnswersAreDetermined | src/server/client_session.cpp:168-191 | the ban check refuses exactly while a ban stands, and a PIN is valid exactly when it is one of the last twelve |
| Admission.DrawnPinIsAdmitted | src/server/client_session.cpp:168-195 | a drawn PIN in any framing, from an IP without a standing ban, is ruled valid exactly while it is one of the last twelve |
| Admission.VerdictIsDetermined | src/server/client_session.cpp:168-199 | whatever refreshes come in between, a PIN line is blocked exactly if a ban stood at its check, and otherwise accepted exactly if its PIN was one of the last twelve at its ruling |
| Admission.DrawnPinOpensSession | src/server/client_session.cpp:168-195 | a drawn PIN in any framing, if no ban of its IP stands at the line's ban check and it is one of the last twelve at its ruling, is answered AUTH_OK and takes the connection to the header stage |
| Admission.SuccessIsEarned | src/server/client_session.cpp:168-196 | in every history of the daemon each registered success follows, refreshes aside, a ban check of its own IP while no ban stood and the ruling on a PIN that was then one of the last twelve |
| AuthBook.Bookkeeping | src/auth/session_manager.cpp:81-124 | after any history the failure count, ban count and ban expiry of an IP are those its failures since the last reset determine; ban entries exist exactly with a positive ban count, failure counts stay below five |
| AuthBook.EscalationLaw | src/auth/session_manager.cpp:97-117 | the j-th ban starts at exactly the 5j-th failure since the last reset and lasts min(30 * 2^(j-1), 3600) seconds |
| AuthBook.BansDouble | src/auth/session_manager.cpp:97-117 | the first ban lasts 30 seconds and each further one twice as long, up to 3600 |
| AuthBook.CheckIsByFailures | src/auth/session_manager.cpp:81-95 | a ban check answers yes exactly while the ban those failures determine has not ended |
| AuthBook.WindowIsHistory | src/auth/session_manager.cpp:42-61 | the window is the last twelve PINs issued and ends with the current one |
| AuthBook.PinLifetime | src/auth/session_manager.cpp:42-67 | a PIN is in the window exactly while fewer than twelve PINs were issued since one of its issues |
| AuthBook.RulingIsByWindow | src/auth/session_manager.cpp:63-67 | every ruling on a PIN in a history is the one that law gives |
| AuthBook.FewOnRecord | src/server/client_session.cpp:170-199 | on the daemon's path an IP has at most five failures on record, and fewer while its PIN is judged |
| AuthBook.BansNeverEscalate | src/server/client_session.cpp:170-199 | on the daemon's path every ban is an IP's first and ends 30 seconds after its fifth failure |
| AuthBook.DirectFailuresEscalate | src/auth/session_manager.cpp:97-117 | ten direct failures give a ban of 60 seconds, in a history the daemon cannot produce |
| AuthBook.NoRulingUnderBan | src/server/client_session.cpp:170-199 | no PIN, right or wrong, is ruled on while its IP has a ban entry |
| AuthBook.WindowPaced | src/auth/session_manager.cpp:81-117 | without a success, any six consecutive failures of an IP span a whole ban |
| AuthBook.GuessRate | src/auth/session_manager.cpp:81-117 | over all connections and refreshes, without a success at most 5 * (T / 30s + 1) wrong PINs of an IP fall within any time T |
| SessionManagement.GeneratePin | src/auth/session_manager.cpp:29-40 | six digits, no leading zero |
| SessionManagement.SessionManager.GenerateSession | src/auth/session_manager.cpp:42-61 | issues the persisted PIN or a fresh one and rotates the window as the history specification says |
| SessionManagement.SessionManager.ValidateKey | src/auth/session_manager.cpp:63-67 | true exactly for a PIN in the window |
| SessionManagement.SessionManager.IsIpBlocked | src/auth/session_manager.cpp:81-95 | answers as the history requires, clears all three tables on an expired ban, and leaves a ban entry exactly if it blocks |
| SessionManagement.SessionManager.BanLength | src/auth/session_manager.cpp:102-108 | the doubling loop gives min(30 * 2^n, 3600); its invariant keeps the value below 7200 |
| SessionManagement.SessionManager.RegisterAuthFailure | src/auth/session_manager.cpp:97-117 | updates the three tables as the history specification says |
| SessionManagement.SessionManager.RegisterAuthSuccess | src/auth/session_manager.cpp:119-124 | clears the three tables of the IP |
| ClientSessions.ClientSession.constructor | src/server/client_session.hpp:53-68 | a new session is the start of a run |
| ClientSessions.ClientSession.ConsumeBuffer | src/server/client_session.cpp:62-79 | the buffer behind the read head stays the unconsumed stream, it is compacted exactly when the dead prefix exceeds 262144 bytes, an uncompacted buffer stays whole, and compactions have moved no more than was consumed |
| ClientSessions.ClientSession.CompactBuffer | src/server/client_session.cpp:71-79 | compaction changes nothing behind the read head |
| ClientSessions.ClientSession.ExtractPin | src/server/client_session.cpp:178-189 | the trimming loops compute the specified PIN |
| ClientSessions.ClientSession.Judge | src/server/client_session.cpp:168-199 | one PIN line asks, judges and registers in that order, with refreshes possible in between, and its verdict is what the shared state answered |
| ClientSessions.ClientSession.HandleAuth | src/server/client_session.cpp:168-212 | reacts to that verdict as the parser does |
| ClientSessions.ClientSession.HandleCommand | src/server/client_session.cpp:217-238 | one command makes one request, the one its event shows, and reacts to the answer as the parser does |
| ClientSessions.ClientSession.PushFile | src/server/client_session.cpp:383-457 | a push records its name and puts on the wire what a push of that name may put there |
| ClientSessions.ClientSession.HandleFileStart | src/server/client_session.cpp:239-289 | parses, asks the disk for at most one file, under the name it shows, and replies as the parser does to whatever opening returned |
| ClientSessions.ClientSession.HandleHeader | src/server/client_session.cpp:216-293 | dispatches a header line as the parser does with whatever answers came, a late end marker included |
| ClientSessions.ClientSession.StorePart | src/server/client_session.cpp:304-320 | the file, already longer by what the disk took, is again exactly the bytes consumed since its header |
| ClientSessions.ClientSession.FinishFile | src/server/client_session.cpp:329-351 | closes, drops a wholly buffered end marker only, acknowledges, compacts |
| ClientSessions.ClientSession.AbandonFile | src/server/client_session.cpp:307-317 | a failed write closes the file, replies CMD_FAIL and throws away everything buffered |
| ClientSessions.ClientSession.HandleFileData | src/server/client_session.cpp:297-352 | offers the disk everything both buffered and missing, whatever it answers, and does what follows from the answer |
| ClientSessions.ClientSession.ProcessBuffer | src/server/client_session.cpp:130-164 | the loop terminates and, in all worlds that give the answers received, does what the specification does; a session leaves authentication only if its IP was admitted |
| ClientSessions.ClientSession.OnData | src/server/client_session.cpp:83-99 | one received chunk keeps the invariants and, in all worlds that give the answers received, takes the session one step further along the run of its chunks |
| SessionLaws.SessionIsRun | src/server/client_session.cpp:83-164 | there is a world that gives a session the answers it received and in which it is the run of its chunks |
| SessionLaws.SessionRefines | src/server/client_session.cpp:83-352 | up to its first write error a session object has done a prefix of what the reference does on everything it received, up to replies to late end markers, and the cap has closed it exactly if its chunks overflow |
| SessionLaws.SessionKeepsFiles | src/server/client_session.cpp:239-352 | a session object keeps the grammar, and its open file holds exactly the bytes the upload in progress has stored |
| SessionLaws.SessionParts | src/server/client_session.cpp:239-352 | in every agreeing world the uploads of a session object are disjoint slices of what it received, each behind its header's newline, and lines keep apart from payload exactly if none followed a write that spilt |
| SessionLaws.SessionWasTold | src/server/client_session.cpp:130-293 | each PIN a session judged, each command, listing and push, and each file it created is said by a line it received |
| SessionLaws.SessionAsksAsShown | src/server/client_session.cpp:216-289 | what a session's trace shows was really asked: commands, listings, files created, and pushes under their own names, with exactly the bytes a push of that name puts on the wire |
| TcpServers.TcpServer.AcceptConnection | src/server/tcp_server.cpp:119-156 | at most 64 clients, a new one starts a fresh session for its own descriptor and address |
| TcpServers.TcpServer.HandleClientData | src/server/tcp_server.cpp:158-187 | data goes in order to its own session, which stays the run of its chunks, and no other changes; end or failure removes it; the shared state serves whole PIN lines only |
| TcpServers.ReceivedIsAll | src/server/tcp_server.cpp:163-187 | the chunks delivered are all reads, in order, up to the first end or failure |
| TcpServers.TcpServer.RemoveClient | src/server/tcp_server.cpp:189-197 | removes that client and no other |
| TcpServers.TcpServer.Idle | src/main.cpp:94-106 | PIN refreshes between calls keep every session and the shared state valid |
| TcpServers.ServerGuessRate | src/server/tcp_server.cpp:158-187 | the guess rate holds of the history of every reachable server, from any moment on |
| TcpServers.ServerBansNeverEscalate | src/server/client_session.cpp:170-199 | in every reachable server the ban count of a banned IP is one and its ban ends 30 seconds after one of its failures |
| TcpServers.OnlyCurrentPinsAdmit | src/server/client_session.cpp:168-196 | in every reachable server a session past authentication was answered AUTH_OK for a PIN that a line it received frames and that was then one of the last twelve, ruled on, refreshes aside, between a free ban check of its IP and the registration of its success |
| Transport.SendResponse | src/server/client_session.cpp:101-126 | what goes out is a prefix of the response; over TLS all of it unless the connection breaks, nothing after that, and never more than the sends took; without TLS what the single send takes |
| Transport.SafeName | src/server/client_session.cpp:386-389 | the part behind the last slash or backslash |
| Transport.SendChunk | src/server/client_session.cpp:429-445 | with finitely many stalls the inner loop ends; it puts a prefix of the buffer on the wire, all of it or exactly as much as the sends took up to the first that broke, and sends nothing after that |
| Transport.StreamFile | src/server/client_session.cpp:418-453 | the bytes put on the wire, chunk after chunk, are an in-order prefix of the file, never longer than announced, all of it exactly if no send broke, and nothing is sent after a break |
| Transport.PushFile | src/server/client_session.cpp:383-457 | the three errors, and otherwise a header with the size followed by that payload |
| Transport.PushHeaderRoundTrip | src/server/client_session.cpp:412-414 | a client reads the announced size back from the push header |
| MirrorStream.DecodeIsPositional | src/mirror/mirror_receiver.cpp:444-447 | shifting and or-ing the four header bytes gives their positional value |
| MirrorStream.LengthRoundTrip | src/mirror/mirror_receiver.cpp:444-447 | every 32-bit length survives its big-endian header |
| MirrorStream.FramesRoundTrip | src/mirror/mirror_receiver.cpp:438-471 | any payloads of 1 byte to 24 MiB, serialised, are read back in order, whatever follows |
| MirrorStream.FramesArePrefix | src/mirror/mirror_receiver.cpp:438-471 | the frames of any stream are a valid frame prefix of it |
| MirrorStream.FramesAreLongest | src/mirror/mirror_receiver.cpp:448-452 | every valid frame prefix of a stream is a prefix of its frames |
| MirrorStream.ReadExact | src/mirror/mirror_receiver.cpp:426-436 | fills the buffer with exactly the next bytes under any fragmentation |
| MirrorStream.ReadFrames | src/mirror/mirror_receiver.cpp:438-471 | the loop reads the first frames of the stream, all of them if nothing fails or stops it, and counts those accepted downstream |
| VirtualKeyboard.TypingRoundTrip | src/input/virtual_input.cpp:156-180 | a keyboard reading the events of any text types it back, less what cannot be typed, with no key or shift left down |
| VirtualKeyboard.StrokeTypes | src/input/virtual_input.cpp:156-169 | one stroke types its character and restores every key |
| VirtualKeyboard.TableIsInjective | src/input/virtual_input.cpp:213-285 | no two characters share a key and shift state |
| VirtualKeyboard.VirtualInput.InitAsciiMap | src/input/virtual_input.cpp:213-285 | the table maps exactly printable ASCII, newline and tab, each to a key that types it |
| VirtualKeyboard.VirtualInput.TypeKeyCode | src/input/virtual_input.cpp:156-169 | writes the events of one stroke |
| VirtualKeyboard.VirtualInput.TypeText | src/input/virtual_input.cpp:171-180 | writes the strokes of a text, nothing before initialisation |

## Left out

- Sockets, epoll, TLS handshakes, certificates and poll timing: only byte counts and results remain.
- Transport.SendResponse: stands beside the session model, where a response is one event; how much of it the client receives is stated there only.
- ClientSessions.ClientSession.HandleCommand: the dispatcher and the listing may answer anything, and a push may meet any file and any sends; exceptions they might throw are not modelled.
- SessionManagement.SessionManager.IsIpBlocked: every call is stamped with a clock reading, also where the source needs none, so that histories have times; integer ban counts are unbounded.
- ClientSessions.ClientSession.Judge: refreshes by the other thread come before, between and after the calls, since each call holds the mutex throughout; the source sends AUTH_FAIL just before it registers the failure, the model just after.
- TcpServers.TcpServer.HandleClientData: the reads of one call are a finite list; epoll registration and the closing of descriptors are not modelled.
- MirrorStream.ReadFrames: allocation and the pipeline are one answer per payload; starting and stopping the receiver is not modelled.
- The disk as a map from names to contents: an upload is the bytes it writes. Opening truncates, so a later upload with the same flattened name replaces an earlier one, and two sessions may write one name at once.
- Transfer progress files, `m_sessionKey` (written, never read) and log lines.
- The guard at the top of `handleFileData` (line 298), which the session invariant makes unreachable.
- Mouse events, named keys and the creation of the input devices: they would only add easy members.
- Session files, IPC files, mDNS, notifications, system information, power, volume and lock commands, the GUI and the QR generator.
