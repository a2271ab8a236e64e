# f10diag: transports, captures, decoders

A Dafny model of the implemented layers of f10diag: the transports that move bytes (mock, replay,
TCP), the capture files that record them, and the decoders and the interface ranking beside them.
Source paths are relative to the repository root.

Objects whose methods update fields are classes (`Base.Transport`, `Mock.MockTransport`,
`Replaying.ReplayTransport`, `EnetTransports.ENETTransport`, `Capture.DiagnosticLogger`), loops are
loops, and each method is proved equal to a function on values (`old(Model())`). What those functions do is then
stated without their own bodies: call by call from what they find, and over whole runs. Some of the costlier
proofs use `hide` so that the solver does not expand definitions a step does not need.

Everything outside the program is an explicit argument that the lemmas quantify over: what a responder
replies, what `recv`, `sendall`, the TCP handshake and the interface lookup answer, which observers raise,
and the clock.

| file | what it holds |
|---|---|
| Hex.dfy, Packets.dfy | hex text, packets and their JSON records |
| Base.dfy | lifecycle state, observers, packet emission |
| Mock.dfy | the scripted transport |
| Replay.dfy, ReplayTransport.dfy | the recording as a tape, and the replay transport |
| Transcripts.dfy, Fidelity.dfy | replaying a recorded conversation; sessions on the mock |
| Enet.dfy, EnetTransport.dfy, EnetRuns.dfy, EnetReads.dfy | the TCP transport: functions, class, runs, reads |
| EnetCalls.dfy | what each call of the TCP transport does, by what it finds and what the world answers |
| EnetHistory.dfy, EnetIsolation.dfy | what a run leaves traced to the call that left it; runs with other observers raising |
| Capture.dfy, Layout.dfy | the logger, its files, the loader and the exporter; the text that tells layouts apart |
| EndToEnd.dfy | TCP traffic, capture file, replay |
| Ethernet.dfy | interface predicates, ranking, selection |
| Positional.dfy, Decoding.dfy, Signals.dfy | numbers from bytes, BCD, decoders, signal definitions |

## What the code does not do

These are promises that fail for some inputs. Each comes with a theorem giving the exact condition under
which it holds, for all inputs, and with a concrete input where it fails.

- Replaying a session with the same requests repeats its successes with the same values and its failures with
  failures (not always of the same kind) exactly when no `receive` succeeded after another `receive` had failed,
  and no `send` after another `send` had failed, unless the replay is strict and the next successful `send` has
  other bytes than the failed one (`Transcripts.Lockstep`, `Fidelity.RecordThenReplay`). A failed request leaves
  no packet, so the replay answers it from the next recorded one (`Fidelity.LateAnswerDiverges`,
  `Fidelity.RepeatedSendDiverges`).
- The capture file of a TCP session loads exactly when every event written to it imitates a header or a packet
  and the layout is not mistaken (`Capture.SaveAndLoad`). The commands that capture TCP traffic write an event
  right after the header as soon as they are connected, and one of them also when it is not. A new file of a command
  loads exactly when the header is all of it: the command did not get through its connect, and is `capture`
  or met an error that is not one of the program's own (`EndToEnd.CommandFileLoads`). No captured traffic ever loads.
- An event recorded while the file is open is read back as what it is not: the file can be read line by line
  exactly when it could before and every such event has type session among its own fields, or fields that
  imitate a packet (`Capture.RunReads`, with the guard in `Capture.EventReadsAsPacket`). An ordinary event
  makes it unreadable (`Capture.EventSpoilsTheFile`), one kind is loaded as a packet that never existed
  (`Capture.EventCanPassForPacket`), another replaces the session (`Capture.EventCanPassForHeader`).
- A capture of more than its one header line cannot be loaded when its first 4096 characters contain the
  quoted word packets (`Capture.LayoutDecides`), for instance because a session note consists of that word
  (`Capture.MarkerSpoilsTheFile`). An exported document can be loaded exactly when they do
  (`Capture.ExportRoundTrip`): when the text of its session is no longer than 4021 characters or holds that word
  early (`Capture.ExportLoads`), which one long note prevents (`Capture.UnmarkedExportIsLost`).
- The loader documents MalformedPacketError for a file that is no readable capture. A file of lines raises another error
  exactly when its first bad line is a JSON value that is no object, or all lines are good and the first bad record
  has a list or an object as its timestamp (`Capture.LoaderCrashes`, `Capture.NumberLineCrashes`,
  `Capture.ListTimeCrashes`).
- `rewind` and `connect` return to the start of the recording exactly when no read has split a packet
  (`Replaying.RewindLaw`): the full packet stays in place and its remainder is inserted behind it, so the
  remainder is read twice the next time (`Replaying.RewindRepeatsAfterSplit`).
- The mismatch log, described for non-strict mode only, is filled in strict mode too. There it points at TX
  packets exactly when no read since the last `connect` or `rewind` has split a packet below one of its
  entries (`Replaying.StrictLogSurvives`, `Replay.StrictLogCanLie`).
- A socket is leaked exactly by a `connect` that opens another one while that of a timed-out send is still
  held (`EnetRuns.StepKeepsInv`, `EnetRuns.RunKeepsInv`, `EnetRuns.ConnectAfterSendTimeoutLeaks`). The
  transport never closes the old socket; it only drops its last reference to it, which is what `unclosed` models.
- CONNECTING is left visible exactly when an attempt found the host out of sockets and no later `disconnect`,
  `reconnect` or `connect` with a target left it again (`EnetHistory.ConnectingIsSeen`,
  `EnetRuns.NoSocketLeavesConnecting`).
- A socket outside CONNECTED is not confined to ERROR: it is that of a timed-out send nobody cleaned up
  (`EnetHistory.OrphansComeFromSends`), and it is held in CONNECTING exactly when a later attempt found no
  socket (`EnetHistory.OrphanStates`, `EnetHistory.OrphanInConnecting`).
- docs/architecture.md:68 says the ranking explains every point it awards; it does exactly for interfaces that
  are not up, and have a link-local address or none at all (`Ethernet.ReasonsExplainTheScore`,
  `Ethernet.UpIsNotExplained`).
- src/f10diag/status.py:28 describes ETHERNET_LINK as a link that carries an IPv4 address; the code checks the
  link only, so the level carries one exactly when the interface found last had one
  (`EnetHistory.LinkCarriesAddress`, `EnetHistory.LinkWithoutAddress`).

## Model

The rows from `Hex.Parse` on, at the end, tie the methods of the classes and the loops to the functions the
results above them are about.

| member | source | states |
|---|---|---|
| Transcripts.Lockstep | src/f10diag/transport/replay.py:188-251 | replaying what a conversation left, from anywhere in it, agrees with every answer iff no receive succeeded after a failed one and no send after a failed one, except that a strict replay refuses a failed send again when the next successful one has other bytes; it then ends at the end of the tape, unsplit, with one mismatch for each failed send followed by a successful one |
| Transcripts.OneConnection | src/f10diag/transport/replay.py:188-251 | where a failed send ends the sending, strictness does not matter and only failed receives do |
| Transcripts.SuccessesReplayExactly | src/f10diag/transport/replay.py:188-251 | a conversation of successes is replayed with identical answers, strict or not, ending exhausted |
| Fidelity.RecordThenReplay | src/f10diag/cli.py:516-535 | record any session on a mock in any state, with any responder, observers, connects and failures, and replay the recording with the same requests: all answers agree iff the session is replayable in the sense of Lockstep, which settles what the replay ends as |
| Fidelity.ReplayRecordsTheSame | src/f10diag/transport/replay.py:188-251 | recording the replay of a replayable conversation gives the traffic of the recording again |
| Fidelity.WholeSessionThenReplay | src/f10diag/cli.py:516-535 | connect, talk and disconnect on a mock, then all of it again over a replay: every answer agrees, those to the connect and disconnect included, iff the connect had failed, or the recording holds a packet and the talk is replayable |
| Fidelity.SessionIsRecorded | src/f10diag/transport/mock.py:120-159 | over every session, connects and disconnects included, the mock emits one packet per success and none per failure, and every RX packet fits the read that got it |
| Fidelity.ObserverSeesTheSession | src/f10diag/transport/mock.py:120-159 | an observer registered once sees exactly the packets a mock session emits |
| Fidelity.LateAnswerDiverges | src/f10diag/transport/replay.py:218-233 | a session of a timed-out read and a later answered one, whose replay answers the first read |
| Fidelity.RepeatedSendDiverges | src/f10diag/transport/replay.py:188-216 | a send refused while disconnected and repeated once connected: the replay, though strict, answers the first |
| EndToEnd.ConverseSaveLoadReplay | docs/usage.md:350-385 | the library recipe on a new file with any TCP calls: the file loads as exactly the packets of what was said unless it holds one and the layout marker is in reach, and the replay agrees iff the conversation is replayable; without packets the replay refuses to connect |
| EndToEnd.ConversationIsRecorded | src/f10diag/transport/enet.py:131-340 | whatever is called on the TCP transport, an observer registered once sees exactly the packets of the sends and receives made, those inside receive_exactly and passive listening included: one per success with its data and time, none per failure |
| EndToEnd.OneConnectionOverTcp | src/f10diag/transport/enet.py:239-340 | while nothing connects again a failed send ends the sending, so a replay agrees iff no receive succeeded after a failed one |
| EndToEnd.SessionFileLoads | src/f10diag/logging/diagnostic_logger.py:148-192 | a logger session appended to any readable file, or to a new one, loads iff the marker is out of reach or the header is alone in the file, and then as the earlier packets, its own packets and its own metadata |
| EndToEnd.CommandFileLoads | src/f10diag/cli.py:264-278 | by the guards of connect: the new file of a capturing command loads iff nothing followed its header, that is iff the command did not get through its connect and is capture or met an error not its own; it then loads as no packets and the metadata |
| Replaying.RewindLaw | src/f10diag/transport/replay.py:168-182 | after a run, connecting again answers every later call sequence as the first time iff the run never split a packet |
| Replaying.RewindRestoresTheTape | src/f10diag/transport/replay.py:168-171 | rewinding after a run restores packets, cursor and mismatches of the start iff the run never split a packet |
| Replaying.SplitsGrowTheRecording | src/f10diag/transport/replay.py:235-248 | over every run the recording's RX bytes grow by exactly the remainders inserted, and the packet list is untouched iff nothing split |
| Replaying.RewindRepeatsAfterSplit | src/f10diag/transport/replay.py:168-251 | a two-byte recording read one byte at a time has three bytes after connecting again |
| Replaying.LenientLogStaysTruthful | src/f10diag/transport/replay.py:198-248 | over every lenient run each logged index lies below the cursor, is a TX packet holding the expected bytes, differs from what was sent, and indices strictly increase |
| Replaying.StrictLogSurvives | src/f10diag/transport/replay.py:168-251 | over every run, strict or not, with connects and rewinds, the log points at TX packets with the bytes it says iff no read since the last reset split a packet below one of its entries |
| Replay.StrictSendKeepsLog | src/f10diag/transport/replay.py:198-215 | a send only ever adds truthful entries, and leaves RX packets only between the cursor and an entry above it |
| Replay.StrictLogBreaksOnSplit | src/f10diag/transport/replay.py:218-248 | after a read the log is truthful iff it was before and the read did not split a packet below one of its entries; an entry once spoiled lies on an RX packet |
| Replay.StrictLogCanLie | src/f10diag/transport/replay.py:198-248 | a two-packet recording where one short read makes the strict log point at an RX packet |
| Replay.TapeRefinesList | src/f10diag/transport/replay.py:188-270 | whatever is requested, strict or not, walking the recording with a cursor answers as consuming a list does: skip to the first pending packet of the direction, take it, put a remainder back in its place |
| Replay.CursorStopsBehind | src/f10diag/transport/replay.py:214-251 | after a success everything pending behind the packet used, the first of its direction, is still pending, the remainder of a short read before it; a send leaves the packets alone |
| Replay.ReceiveConserves | src/f10diag/transport/replay.py:218-251 | delivered plus pending RX bytes after equal pending RX bytes before, with splitting and skipping; pending TX becomes a suffix |
| Replay.SendConsumesHead | src/f10diag/transport/replay.py:188-216 | a successful send consumes exactly the head of pending TX (its own bytes in strict mode), pending RX bytes become a suffix |
| Replay.AnswersFollowPending | src/f10diag/transport/replay.py:195-229 | a send times out iff no TX is pending and is refused iff strict and the head differs, a receive times out iff no RX is pending; only a differing head is logged, and no failure moves the tape |
| Replay.ReadsConserve | src/f10diag/transport/replay.py:218-251 | over any sequence of reads, all delivered bytes followed by those pending are the bytes that were pending |
| Replay.ReadsAreSizeBlind | src/f10diag/transport/replay.py:218-251 | two ways of cutting the reads give the same bytes as far as both go |
| Replay.ReceiveProgress | src/f10diag/transport/replay.py:218-251 | unread bytes plus packets not passed never grow, and shrink except on a zero-size read that splits the packet under the cursor |
| Replay.RunsAreBounded | src/f10diag/transport/replay.py:188-251 | without a reset, successful sends and receives of positive size number at most the unread bytes plus the remaining packets |
| Replaying.RequestsAreEmitted | src/f10diag/transport/replay.py:188-251 | connected, requests are answered by the tape and only successes are emitted, with the data that crossed and the index of the packet just passed; not connected, they are refused and nothing happens |
| Replaying.DecimalReads | src/f10diag/transport/replay.py:215 | the index in a note is written in decimal |
| Replaying.Lifecycle | src/f10diag/transport/replay.py:175-186 | connect fails iff there is no packet and otherwise starts over; disconnect leaves CONNECTED, keeps ERROR and the tape |
| EnetRuns.StepKeepsInv | src/f10diag/transport/enet.py:131-340 | every call keeps the state invariant (socket and linked interface when CONNECTED, no socket when DISCONNECTED, message when ERROR, timeout restored, counters equal emitted bytes); by the guards of its branches: the interface it stores, the socket it leaks, when it leaves an orphan socket and that it is the same socket, when it ends in CONNECTING |
| EnetRuns.RunKeepsInv | src/f10diag/transport/enet.py:131-340 | over every run the invariant holds, the interface once resolved stays, and sockets leak iff some connect opens a socket while an orphan is held |
| EnetRuns.CleanRunsNeverLeak | src/f10diag/transport/enet.py:200-268 | runs that disconnect or reconnect after a send timeout before connecting never leak |
| EnetRuns.AtMostOneSocket | src/f10diag/transport/enet.py:156-268 | on such runs from a new transport the only unclosed socket is the transport's own |
| EnetRuns.ConnectAfterSendTimeoutLeaks | src/f10diag/transport/enet.py:189-259 | connect, timed-out send, connect leaks the first socket |
| EnetRuns.NoSocketLeavesConnecting | src/f10diag/transport/enet.py:148-158 | a failing socket creation leaves the state CONNECTING |
| EnetCalls.ConnectContract | src/f10diag/transport/enet.py:131-198 | which of connect's outcomes comes when, by the first obstacle met: the state, the interface and the socket it leaves; history, counters and clock stay |
| EnetCalls.DisconnectContract | src/f10diag/transport/enet.py:200-213 | the socket is closed and forgotten, ERROR and everything else kept |
| EnetRuns.ReconnectContract | src/f10diag/transport/enet.py:215-235 | between 1 and reconnect_attempts + 1 attempts; the outcome is that of the first attempt not failing to connect, or of the last; a final failure means all were made and the state is ERROR; one sleep between attempts unless the delay is zero |
| EnetCalls.ReconnectAttempts | src/f10diag/transport/enet.py:215-235 | with n retries configured exactly n + 1 attempts are made when all fail to connect, and up to the first that does not otherwise; exactly one when n is negative; the state and socket left, by the outcome; only the sleeps take time |
| EnetCalls.SendContract | src/f10diag/transport/enet.py:239-268 | success iff connected and written, and then counted and emitted; a timeout reports ERROR and keeps the socket, a failure reports ERROR and closes it, neither counts or emits |
| EnetCalls.OnlyWrittenDataIsSent | src/f10diag/transport/enet.py:239-268 | over every run the emitted TX packets carry exactly the data of the sends made while connected and written, in order |
| EnetCalls.ReceiveContract | src/f10diag/transport/enet.py:270-312 | data iff connected and some arrive, from the front of the stream and at most size bytes; end of stream or failure closes the socket, silence costs time only |
| EnetCalls.LevelExactly | src/f10diag/transport/enet.py:87-100 | the level by connection state, stored interface and its link, for every state |
| EnetHistory.ConnectingIsSeen | src/f10diag/transport/enet.py:131-235 | over every run the state is CONNECTING afterwards iff some connect or reconnect ended on a host without sockets and no disconnect, reconnect or connect with a target came since |
| EnetHistory.NeverConnecting | src/f10diag/transport/enet.py:131-235 | a run from a new transport whose attempts always get a socket never shows CONNECTING |
| EnetHistory.OrphansComeFromSends | src/f10diag/transport/enet.py:131-268 | over every run a socket is held outside CONNECTED iff some send timed out and no call since closed or replaced its socket, and it is the socket of that send |
| EnetHistory.OrphanStates | src/f10diag/transport/enet.py:148-268 | such a socket is held in ERROR, or in CONNECTING iff a later attempt got no socket |
| EnetHistory.OrphanInConnecting | src/f10diag/transport/enet.py:148-259 | connect, timed-out send, connect on a host without sockets: CONNECTING with the first socket still held |
| EnetHistory.InterfaceIsTheLastFound | src/f10diag/transport/enet.py:112-158 | the stored interface is the one stored by the last connect or reconnect to find a linked one |
| EnetHistory.ReportedLevels | src/f10diag/transport/enet.py:87-100 | over every run the level is NONE, ETHERNET_LINK or TCP_CONNECTED, the last iff CONNECTED and the first iff no call has found a linked interface; INTERFACE_PRESENT is unreachable |
| EnetHistory.EvidenceIsNeverLost | src/f10diag/transport/enet.py:112-235 | once a connect, or an attempt inside reconnect, resolved a linked interface the level never returns to NONE |
| EnetHistory.LinkCarriesAddress | src/f10diag/status.py:27-28 | over every run a reported ETHERNET_LINK carries an IPv4 address iff the interface found last had one when it was found |
| EnetHistory.LinkWithoutAddress | src/f10diag/transport/enet.py:87-100 | a refused handshake over a linked interface without any address is reported as ETHERNET_LINK |
| EnetReads.ReceiveExactlyContract | src/f10diag/transport/enet.py:314-340 | on success exactly the next size bytes of the peer's stream and none beyond; on timeout fewer, counted and emitted, the link as it was and the deadline passed; on loss the socket gone |
| EnetReads.ReceiveExactlyEndsInTime | src/f10diag/transport/enet.py:323-334 | it ends no later than start plus timeout plus the lateness of one recv |
| EnetReads.ListenContract | src/f10diag/cli.py:315-331 | listening sends nothing, returns the increase of bytes_received, and ends once the deadline passed or the link is gone, at most 50 ms plus the lateness of one recv late |
| EnetCalls.SliceOfTime | src/f10diag/cli.py:319-322 | the listener waits for the time left, but half a second at most and 50 ms at least |
| Capture.RunReads | src/f10diag/logging/diagnostic_logger.py:148-252 | any sequence of opens, records, events and closes appended to a file: read line by line it is readable iff it was before and every event written imitates a header or a packet; it then gives exactly the packets written and the last session named, both told from the calls alone |
| Capture.OpenExactly | src/f10diag/logging/diagnostic_logger.py:148-171 | after any run a logger is open iff some open (with a path) has no close after it, or it was open and there was no close |
| Capture.WrittenExactly | src/f10diag/logging/diagnostic_logger.py:148-252 | the packets in the file are those of the calls made at positions where the logger was open in that sense, in order |
| Capture.SessionExactly | src/f10diag/logging/diagnostic_logger.py:148-208 | when the last call to name a session is an open, made while closed, the session is that of the metadata with the level last set before it |
| Capture.EventReadsAsPacket | src/f10diag/transport/packet.py:117-161 | an event line is read as a packet iff its own fields hold a valid direction, valid raw_hex or else raw_data, a readable timestamp (its own or the stamp), a transport that is absent, false or an object, and a decoded that is null or an object; and which packet that is |
| Capture.EventSays | src/f10diag/logging/diagnostic_logger.py:194-203 | an event line holds its own fields before everything else, then type, time and name |
| Capture.FormatIsNamed | src/f10diag/logging/diagnostic_logger.py:154-161 | header and document name the same format and version and the same metadata |
| Capture.SaveAndLoad | src/f10diag/transport/replay.py:55-100 | loading a logger's file succeeds iff something was written, every event written imitates a header or a packet, and the layout is not mistaken; it then returns exactly the packets written and the last session named |
| Capture.LayoutDecides | src/f10diag/transport/replay.py:55-86 | on a file the logger started, the layout marker spoils everything but a lone header |
| Capture.LinesExactly | src/f10diag/transport/replay.py:55-100 | a file of lines loads iff some line is not blank, every line is a JSON object or blank, and every record among them is a packet; it then gives those packets and the session of the last header |
| Capture.LoaderCrashes | src/f10diag/transport/replay.py:72-98 | a file of lines raises an error other than MalformedPacketError iff its first bad line is a JSON value that is no object, or all lines are good and the first bad record has a list or object as its timestamp |
| Capture.RecordCrashes | src/f10diag/transport/packet.py:124-161 | a record does so iff everything in it is good but its timestamp is a list or an object |
| Capture.NumberLineCrashes | src/f10diag/transport/replay.py:83 | a file of one line that is a number |
| Capture.ListTimeCrashes | src/f10diag/transport/packet.py:157 | a packet whose timestamp is a list |
| Capture.SortingFails | src/f10diag/transport/replay.py:71-86 | the first bad line decides what is raised, and without one all lines are sorted |
| Capture.ReadingFails | src/f10diag/transport/replay.py:88-98 | the first bad record decides what is raised, and without one all are read |
| Capture.BlankLinesAreSkipped | src/f10diag/transport/replay.py:73-75 | a blank line anywhere makes no difference |
| Capture.DocumentExactly | src/f10diag/transport/replay.py:62-69 | a single document must be an object with a list of packets, or none; a missing or false session is an empty one; the first bad record decides |
| Capture.PacketsInOrder | src/f10diag/transport/replay.py:88-98 | the packets are read one for one, in order |
| Capture.EventSpoilsTheFile | src/f10diag/logging/diagnostic_logger.py:194-203 | an event without fields of its own makes any file unreadable |
| Capture.EventCanPassForPacket | src/f10diag/logging/diagnostic_logger.py:194-203 | an event with direction and raw_hex fields loads as a packet |
| Capture.EventCanPassForHeader | src/f10diag/logging/diagnostic_logger.py:194-203 | an event with type session replaces the session of the file |
| Capture.MarkerSpoilsTheFile | src/f10diag/transport/replay.py:55-86 | a header whose note is the word packets, within the first 4096 characters, and one packet: readable line by line, rejected by the loader |
| Capture.RunKeepsCounts | src/f10diag/logging/diagnostic_logger.py:140-192 | over every run memory holds every packet recorded and counts are its per-direction counts |
| Capture.ExportRoundTrip | src/f10diag/logging/diagnostic_logger.py:274-285 | export to JSON then load gives the same packets and session iff the marker is within the first 4096 characters |
| Capture.ExportLoads | src/f10diag/transport/replay.py:62-69 | by the text of the document: an export loads iff its session takes at most 4021 characters or holds the marker early |
| Layout.MarkerOfExport | src/f10diag/logging/diagnostic_logger.py:274-285 | the marker is in the first 4096 characters of an exported text iff the text of the session is at most 4021 characters or holds the marker within the first 4034; it occurs nowhere in the text before, and overlaps no boundary |
| Capture.UnmarkedExportIsLost | src/f10diag/transport/replay.py:55-86 | an export whose session has one note of at least 4096 characters cannot be loaded, whatever its packets |
| Capture.DocumentRoundTrip | src/f10diag/logging/diagnostic_logger.py:212-228 | the logger's own document loads as everything in memory with its metadata iff the marker is in reach |
| Hex.ParseInvertsEveryLayout | src/f10diag/transport/packet.py:36-50 | any text made of byte pairs in either case, each with or without a 0x or 0X prefix and followed by any separators, parses to exactly its bytes |
| Hex.FormatThenParse | src/f10diag/transport/packet.py:31-50 | parsing inverts printing for every byte string and every separator built from the six stripped characters |
| Hex.LowerFormatThenParse | src/f10diag/transport/packet.py:31-50 | parsing inverts printing in lower case too |
| Hex.DigitsInOrder | src/f10diag/transport/packet.py:31-50 | a hex digit of either case is worth its place among the sixteen and printed in upper case |
| Hex.ParseThenFormat | src/f10diag/transport/packet.py:36-50 | text of digits and separators parses iff its digit count is even, and printing the bytes, with any separator string, gives the upper-cased digits regrouped in pairs with the separator between them |
| Hex.ParseExactly | src/f10diag/transport/packet.py:36-50 | exactly which texts parse: after removing prefixes and separators an even number of characters, only digits and whitespace, digits in pairs; the bytes spell all digits; odd lengths have their own error |
| Hex.RemovePairCuts | src/f10diag/transport/packet.py:42 | a replace cuts an occurrence out and joins nothing new to one |
| Hex.RemovePairLeaves | src/f10diag/transport/packet.py:42 | a replace leaves text without an occurrence alone |
| Hex.SeparatorsAre | src/f10diag/transport/packet.py:43 | the characters stripped are the six listed |
| Packets.PacketRoundTrip | src/f10diag/transport/packet.py:100-161 | every packet survives to_dict then from_dict, whatever hosts save and load it |
| Packets.RecordExactly | src/f10diag/transport/packet.py:117-161 | exactly which records are packets, with what direction, payload and time, and which one fault escapes as another error |
| Packets.DirectionIgnoresCase | src/f10diag/transport/packet.py:124-132 | a direction is its name in any case and nothing else |
| Packets.ToDictShows | src/f10diag/transport/packet.py:100-115 | a saved record shows length and date, and leaves out an empty transport, decoding or note |
| Mock.RunConserves | src/f10diag/transport/mock.py:98-159 | over every run, bytes delivered then bytes still queued are exactly what arrived, in arrival order, for any read sizes, replies, failures and reconnects; the invariant holds |
| Mock.RequestsAreAnswered | src/f10diag/transport/mock.py:120-159 | a send succeeds iff connected with fewer sends made than the limit allows, and what it then keeps, emits and queues; a receive returns what fits of the head of the queue and keeps the rest there |
| Mock.Lifecycle | src/f10diag/transport/mock.py:108-118 | connect fails iff armed; disconnect leaves CONNECTED and keeps ERROR; neither touches the data |
| Mock.StepKeepsInv | src/f10diag/transport/mock.py:108-159 | `sent` is the emitted TX payloads, its length is bounded by the drop limit, ERROR has a message and is left only by a connect that succeeds |
| Mock.FailuresMoveNothing | src/f10diag/transport/mock.py:120-152 | when send and receive succeed, and that a failure changes neither queue nor sent nor history, so that it leaves no packet in a recording |
| Mock.RaisingChangesNothing | src/f10diag/transport/base.py:87-110 | two runs that differ only in which observers raise answer every call alike and end in states differing only in last_error |
| Replaying.RaisingChangesNothing | src/f10diag/transport/base.py:87-110 | two replays that differ only in which observers raise answer every call alike and end in states differing only in last_error |
| EnetIsolation.RaisingChangesNothing | src/f10diag/transport/base.py:87-110 | two runs over TCP that differ only in which observers raise, also inside receive_exactly and passive listening, answer every call alike and end in states differing only in last_error |
| Base.ObserverIsolation | src/f10diag/transport/base.py:87-110 | an observer sees each packet as often as it is registered whichever others raise; which ones raise changes nothing but last_error |
| Base.EmitOnce | src/f10diag/transport/base.py:87-110 | one emission puts one packet with the given data, time and interface on the wire and calls each registered observer with it, in order of registration |
| Base.ErrorsStay | src/f10diag/transport/base.py:63-68 | an error is cleared only by a connection without one and replaced only by another |
| Base.ShortRead | src/f10diag/transport/mock.py:152-158 | a short read returns as much as fits from the front and leaves exactly the rest |
| Base.RemoveTakesTheFirst | src/f10diag/transport/base.py:82-85 | removing an observer takes out its earliest registration and keeps all others in order |
| Ethernet.RankingIsComplete | src/f10diag/transport/ethernet.py:369-424 | the ranking holds exactly the Ethernet-like interfaces, by descending score then name, scores 0 to 90 |
| Ethernet.EthernetLikeExactly | src/f10diag/transport/ethernet.py:120-147 | by what the host reports, at which position a port name mentions which hint: the interfaces that are ranked, and the external ones |
| Ethernet.LowerExactly | src/f10diag/transport/ethernet.py:124-143 | port names are lowered letter by letter |
| Ethernet.ScoreExactly | src/f10diag/transport/ethernet.py:384-412 | the score is what the reasons name plus five points each for a routable address and for being up; reasons and warnings are given iff their conditions hold |
| Ethernet.LinkExactly | src/f10diag/transport/ethernet.py:109-118 | a reported status alone decides about the link; without one the RUNNING flag does |
| Ethernet.RankingIgnoresOrder | src/f10diag/transport/ethernet.py:369-424 | for distinct names the ranking is the same for every enumeration order |
| Ethernet.SortIsStable | src/f10diag/transport/ethernet.py:423 | candidates of equal score and name keep the order in which the host lists them |
| Ethernet.StringLessExactly | src/f10diag/transport/ethernet.py:423 | names are compared at their first difference, a name before its extensions |
| Ethernet.SelectionIgnoresOrder | src/f10diag/transport/ethernet.py:427-447 | so is the selected interface, by name or automatic |
| Ethernet.SelectionIsTheBest | src/f10diag/transport/ethernet.py:427-447 | without a name the selected interface is an Ethernet-like one that no other comes before, and selection fails iff there is none; with a name it is the first of that name, and fails iff there is none |
| Ethernet.FindByNameFinds | src/f10diag/transport/ethernet.py:349-358 | lookup fails iff no interface has the name, and otherwise returns one that has it |
| Ethernet.LinkLocalIsThePrefix | src/f10diag/transport/ethernet.py:62-73 | link-local is exactly 169.254/16 (section 2.1 of RFC 3927), and never a malformed address |
| Ethernet.ReasonsExplainTheScore | src/f10diag/transport/ethernet.py:384-412 | the reasons account for the whole score iff the interface is not up, and has a link-local address or none at all |
| Ethernet.UpIsNotExplained | src/f10diag/transport/ethernet.py:384-412 | an Ethernet-like interface that is merely up is ranked with score 5 and no reason |
| Decoding.BcdIsBaseHundred | src/f10diag/decoding/values.py:93-101 | decoding succeeds iff every nibble is at most 9 |
| Decoding.BcdOfConcat | src/f10diag/decoding/values.py:93-101 | the value lies below 100 to the length, and concatenation shifts and adds |
| Decoding.BcdInvertsEncode | src/f10diag/decoding/values.py:93-101 | every number below 100 to the length has an encoding that decodes to it |
| Decoding.EncodeInvertsBcd | src/f10diag/decoding/values.py:93-101 | encoding a decoded payload gives it back |
| Decoding.BcdIsInjective | src/f10diag/decoding/values.py:93-101 | payloads of one length that decode to the same number are the same |
| Decoding.FromBytesInvertsToBytes | src/f10diag/decoding/values.py:27-69 | every value of an integer type has bytes that decode to it, in both byte orders and signednesses |
| Decoding.ToBytesInvertsFromBytes | src/f10diag/decoding/values.py:27-69 | every payload decodes into the type's range and is recovered from the value |
| Decoding.BytesWeigh | src/f10diag/decoding/values.py:27-69 | one more byte at the low end makes the others count 256 times as much, at the end for big and at the start for little endian |
| Decoding.SignedIsTheNearerHalf | src/f10diag/decoding/values.py:32-69 | reading signed subtracts the range from exactly the upper half of it |
| Signals.DecoderFailures | src/f10diag/decoding/values.py:19-158 | on a window of the declared length a decoder fails iff it is unknown, BCD with a non-decimal nibble, or ASCII with a byte above 127 |
| Signals.FixedDecodersExactly | src/f10diag/decoding/values.py:27-73 | the ten fixed-width decoders as arithmetic on the bytes of the window |
| Signals.DecodersRefuse | src/f10diag/decoding/values.py:19-158 | which names and widths are refused, and how |
| Signals.AsciiExactly | src/f10diag/decoding/values.py:77-86 | filler goes from the end, then blanks from both ends; what is left is read character by character, iff all its bytes are below 128 |
| Signals.Latin1Exactly | src/f10diag/decoding/values.py:89-106 | the same with the blanks of Latin-1, and never refused; the dump shows every byte |
| Signals.ScalingExactly | src/f10diag/decoding/values.py:161-175 | scaling is value times scale plus offset on numbers, keeps whole numbers whole iff it is the identity, and passes text and truth values |
| Signals.DecodeGate | src/f10diag/decoding/signals.py:81-135 | results are withheld iff unverified without opt-in or too short; they show the window's bytes and the scaled value of their decoder with the unit, are verified iff the definition is and decoding succeeded, and fall back to the dump without a unit iff undecodable |
| Signals.Construct | src/f10diag/decoding/signals.py:65-76 | a definition is accepted iff its length is positive, its offset not negative and its length that of its fixed-width decoder, and then unchanged |
| Signals.FixedWidthNeverFallsBack | src/f10diag/decoding/signals.py:65-126 | the constructor's length check makes the fallback unreachable for fixed-width decoders |
| Signals.FallbackKeepsTheBytes | src/f10diag/decoding/signals.py:115-127 | the fallback text parses back to the window's bytes |
| Hex.Parse | src/f10diag/transport/packet.py:36-50 | the loop of six successive replaces computes one filter of the text, then the even-length and digit checks |
| Base.Transport.SetState | src/f10diag/transport/base.py:63-68 | a given error is kept, reaching CONNECTED without one clears the last error, any other state keeps it |
| Base.Transport.Emit | src/f10diag/transport/base.py:87-110 | the observer loop calls each observer registered at emission once, in order, and turns exceptions into last_error only |
| Mock.MockTransport.Connect | src/f10diag/transport/mock.py:108-113 | the armed failure moves to ERROR with its message and raises, otherwise the link is CONNECTED |
| Mock.MockTransport.Disconnect | src/f10diag/transport/mock.py:115-118 | ERROR is preserved, every other state becomes DISCONNECTED |
| Mock.MockTransport.Send | src/f10diag/transport/mock.py:120-141 | rejects when not connected or at the drop limit, else records, emits and queues the reply |
| Mock.MockTransport.Receive | src/f10diag/transport/mock.py:143-159 | rejects, times out, or delivers at most size bytes of the head of the queue and pushes the rest back |
| Replaying.ReplayTransport.FindNext | src/f10diag/transport/replay.py:265-270 | the scan from the cursor finds the first packet of the direction, or none |
| Replaying.ReplayTransport.Connect | src/f10diag/transport/replay.py:175-182 | an empty capture is ERROR; otherwise cursor and mismatches are reset and the packets kept |
| Replaying.ReplayTransport.Send | src/f10diag/transport/replay.py:188-216 | strict mismatches are logged before raising and leave the cursor, lenient ones are logged and passed |
| Replaying.ReplayTransport.Receive | src/f10diag/transport/replay.py:218-251 | the next RX packet is delivered, cut to size, and its remainder inserted behind it in the list |
| EnetTransports.ENETTransport.ConnectVia | src/f10diag/transport/enet.py:131-198 | the connect procedure with every failure: missing parameters, interface, link, socket, handshake |
| EnetTransports.ENETTransport.Disconnect | src/f10diag/transport/enet.py:200-213 | the socket is closed and forgotten, ERROR preserved, any other state DISCONNECTED |
| EnetTransports.ENETTransport.Reconnect | src/f10diag/transport/enet.py:215-235 | the retry loop computes the specified sequence of attempts and sleeps |
| EnetTransports.ENETTransport.Send | src/f10diag/transport/enet.py:239-268 | a timeout sets ERROR and keeps the socket, another failure also closes it, success counts and emits |
| EnetTransports.ENETTransport.Receive | src/f10diag/transport/enet.py:270-312 | the timeout is set for one recv and restored; timeout, end of stream, failure and data are handled as specified |
| EnetTransports.ENETTransport.ReceiveExactly | src/f10diag/transport/enet.py:314-340 | the assembly loop with one overall deadline computes its specification and terminates |
| EnetTransports.PassiveListen | src/f10diag/cli.py:315-331 | the listening loop computes its specification and terminates on stream bytes, then remaining time |
| Capture.LoadCapture | src/f10diag/transport/replay.py:55-100 | the two loader loops compute the first error in order, or all packets and the last session |
| Capture.DiagnosticLogger.Open | src/f10diag/logging/diagnostic_logger.py:148-163 | without a path or when already open nothing happens, otherwise a header is appended |
| Capture.DiagnosticLogger.Record | src/f10diag/logging/diagnostic_logger.py:186-192 | memory and counts always grow, the file only while open |
| Capture.DiagnosticLogger.RecordEvent | src/f10diag/logging/diagnostic_logger.py:194-203 | an event goes to the file only, while open |
| Capture.DiagnosticLogger.UpdateCommsLevel | src/f10diag/logging/diagnostic_logger.py:205-208 | the metadata changes and an event is recorded |
| Ethernet.RankCandidates | src/f10diag/transport/ethernet.py:369-424 | filtering, scoring and sorting in loops computes the ranking |
| Decoding.DecodeBcd | src/f10diag/decoding/values.py:93-101 | the loop returns the decimal number spelled by the unspaced hex dump, or fails when it spells none |

## Left out

- Real sockets, file handles, subprocesses and wall clocks: an adversarial peer, a list of records and a clock advanced by blocking calls stand for them; code between blocking calls takes no time.
- JSON text: a file is its lines as JSON values, and whether the marker of the document layout is in reach is a parameter of the file; the text around it is modelled only for exported documents and for a note.
- ISO timestamps and the text of JSON numbers are arbitrary functions of the host.
- Wording of error messages, interface info attached to packets, latency sleeps, connect and disconnect call counters, and the connect timeout's duration: metadata that decides no branch.
- Failures of socket options after the socket exists, and of a clean shutdown.
- Host texts that the socket library rejects with an error that is not an `OSError`: they too leave CONNECTING and a socket that nothing refers to, which the model's answers to a connect attempt do not include.
- Observers and responders that call back into the transport, and responders that raise.
- Negative read sizes, `recv` of zero bytes, non-positive socket timeouts and ports outside 1 to 65535: the code hands them to Python's slicing or to the socket library.
- Parsing of `ifconfig` and `networksetup` output, MTU, IPv6 and media: ranking starts from parsed interfaces.
- Case folding beyond ASCII in hardware port names.
- Floating-point rounding: times and scaled values are reals.
- Loading of signal registries, configuration files and command lines: plumbing with one-branch checks.
- The text export of captures: nothing reads it back.
- `protocols/`, `ecus/` and `vehicle/`: they refuse every operation.
