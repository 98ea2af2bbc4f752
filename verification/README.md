# SoupBinTCP, OUCH and ITCH: a verified model

This project models the protocol library in Dafny and proves what it is for: that the log a
SoupBinTCP client rebuilds by counting is the server's log, through real bytes, partial reads, a
reused buffer, heartbeats, replay and reconnects; and that the OUCH and ITCH codecs store what they
are given.

## The parts

- `Bytes`, `Numeric`: machine words, host byte order, `swap_endian_bytes`, C strings, 20-character
  ASCII numbers. The host is little-endian, as on x86-64; this is stated once, in `Store` and `Load`.
- `Records`, `Layouts`: the fixed record behind every ITCH and OUCH message, and all field tables of
  the three protocols as data. A table of type `MapLayout` is checked by the verifier where it is
  declared.
- `Ouch`: appendages and their scanning lookups.
- `SoupPacket`, `Framing`: packet buffers that grow in place, and the header/body read loop.
- `Protocol`: what one end of a connection does, as functions on its state. `Endpoint`: the classes
  `Connection` and `SoupBinServer`, whose methods are proved to do exactly that.
- `Session`, `Agreement`: the session as two queues of messages per connection, its invariant, and
  when the client's numbers are the server's.
- `Wire`: the system of bytes. Its steps are: a client dials (accept and login request), a
  broadcast, a heartbeat timer on either side, the transport moving any number of bytes of the packet
  being written, a write completing, any number of bytes being read and dispatched, and either end
  closing while the other may still read what is on the wire. A reconnect is another dial.
- `Carriage`, `Refinement`, `EndToEnd`: the byte system refines the message session, and what follows
  for every run of it.
- `Draining`: every schedule of the transport that keeps moving delivers everything.
- `Heartbeats`: what each side has counted, and what is on its way, are the other side's timer firings.
- `Scenario`: the repository's reconnect test, stated for all payloads and all numbers to resume from;
  and the two ways a client gets out of step, as runs.
- `Timer`: the heartbeat timer over clock readings.

## What is proved of the session

`EndToEnd` and `Draining` state their results on the byte system alone; the message session is only how they are
proved. A run is any list of steps, with any interleaving of the connections and any cutting of the
bytes. The results hold while every payload has at most 65532 bytes, which is exactly what the read
loop can deliver (`Framing.DeliveredIff`), and for fewer than 2^64 - 1 broadcasts.

The client's state is a closed form (`Agreement.ClientAfter`) of what it asked for, of the number of
broadcasts when its connection was accepted and when its login was handled, and of how many packets
it has handled. From it follows the exact condition for agreement, `Agreement.InStep`: if no
broadcast fell between accept and login, the requested number is between 1 and the server's next
number, or 0 on an empty log; if some did, the request is exactly the next number at accept. A
connection is on the broadcast list from its accept on, so such early broadcasts reach the client
before its login is answered, and it files them under the numbers it asked for. With distinct
payloads a client out of step disagrees with the server as soon as it has filed anything. Both ways
to get there are shown by runs: `Scenario.LateLogin` (number 0 on a log that is not empty) and
`Scenario.OvertakenLogin` (a broadcast before a login with number 0).

## What fixes the bytes

The classes are proved against functions, and those functions against statements that name neither:
the packets of the program byte by byte (`SoupPacket.PacketIs`, `LoginRequestIs`, `LoginAcceptedIs`,
`OthersAre`), the ten packet types (`Framing.KnownIff`), the digits of a number and how they are read
(`Numeric.TextIs`, `NumericFieldAt`, `ParseIs`), network order (`Records.IntWireOrder`, `IntValueIs`,
`Bytes.BigEndianConcat`), and the value bytes and place of an OUCH appendage (`Ouch.TextEntryIs`,
`IntEntryIs`, `AddPlacesEntry`).

## Where the code and its documentation differ

- The repository's README shows a 6-byte timestamp reading back as 6. The code reads 0
  (`Records.IntRoundTripIff`), and writes the six bytes low byte first (`Records.IntWireOrder`).
- OUCH lookups take the value length from the first entry. They return the stored value exactly
  under the conditions of `Ouch.TextLookupIff` and `Ouch.IntLookupIff`;
  `Ouch.LongTagAfterShortFirst` shows two of the library's own tags that cannot be used together.
- In the OUCH table `order_accepted` six pairs of fields overlap, and exactly seven of its sixteen
  fields can lose a write (`Layouts.OrderAcceptedLosers`). Its appendage length lies inside the order
  reference number, so that number cannot be kept together with an appendage
  (`Ouch.AddAfterReference`).
- `Timer::check` leaves the reset to its caller. The timer's own loop always resets; another thread
  that checks and does not reset makes the listener be called again at once
  (`Timer.NextCheckIff`, `Timer.UnresetChecksFireTwice`).
- The timer compares a signed difference as unsigned, so a clock that steps back fires it at once
  (`Timer.CheckRightIff`, `Timer.BackwardClockFires`).

## Model

| member | source | states |
|---|---|---|
| EndToEnd.ClientOfRun | test/soupbinserver.cpp:21-30 | in every byte-level run a client's counter, session and log are a closed form of its request, the accept and login points and the packets handled; its numbers are the server's if, and for distinct payloads only if, it was in step |
| EndToEnd.QuietLoginOfRun | test/soupbinserver.cpp:21-30 | with no broadcast between accept and login the client's keys are exactly announced..nextSeq-1, each message the server's at one fixed distance, and that distance is 0 exactly when the request was in step |
| EndToEnd.HandshakeOfRun | src/soup_bin_connection.cpp:65-106 | Login Accepted sets the client's counter to the number it asked for, or 1 for 0, from where it counts on; the client then has its session cut at ten characters, or seven spaces and "ABC", and asking again with it returns the same |
| EndToEnd.ClosedStays | src/soup_bin_connection.cpp:55-63 | once a client has closed, its log, counter and session stay as they are in every continuation, whatever was in flight; and a closed server side handles no login |
| Heartbeats.HeartbeatsOfRun | test/soupbinserver.cpp:13-20 | conservation in every run: the server heartbeats a client has counted and those on their way to it are the firings of the server's timer for it, and the other way round; no side ever counts a heartbeat of its own kind |
| Heartbeats.AllBeatsCounted | test/soupbinserver.cpp:130-133 | with nothing in transit every firing was counted by the other side, and none by its own |
| Heartbeats.AfterIs | test/soupbinserver.cpp:13-20 | a counter after k heartbeats is k modulo 2^32 |
| EndToEnd.ServerLogOfRun | include/soup_bin_server.h:48-54 | in every run the server's keys are exactly 1..nextSeq-1 holding the broadcasts in order, and each server-side connection's map is a part of it although broadcast and replay both emplace |
| EndToEnd.EntriesStay | include/soup_bin_server.h:50-51 | a log entry never changes once written, whatever the run goes on to do |
| EndToEnd.QuietIsComplete | src/soup_bin_connection.cpp:107-250 | with an empty queue and an empty wire there is not even half a packet left, the client has handled everything sent, and its login was handled |
| EndToEnd.ReconnectOfRun | test/soupbinserver.cpp:138-166 | a client in step that stops after any prefix and returns asking for a number up to its counter ends, once drained, with two logs that carry the server's numbers and together miss nothing from the old start on |
| Draining.EveryScheduleArrives | src/soup_bin_connection.cpp:107-250 | from any state of any run, every schedule of an open connection's transport that keeps changing it while something is in transit comes after finitely many steps to where all is handled, and a client in step then holds every message from the announced number to the last broadcast |
| Draining.EveryMoveWorks | src/soup_bin_connection.cpp:107-250 | any transport step changes nothing or leaves less to do, upwards before downwards |
| Draining.EverythingArrives | src/soup_bin_connection.cpp:107-250 | there is such a schedule from every state with an open connection |
| EndToEnd.LoginHandledOnce | src/soup_bin_connection.cpp:65-88 | once a login was handled, no later step of any run handles another or changes its recorded points |
| Scenario.FirstVisit | test/soupbinserver.cpp:138-160 | for any payloads there is a run after which the client holds exactly 1..n under the server's numbers, counts n+1 next and has the default session |
| Scenario.ReconnectScenario | test/soupbinserver.cpp:138-166 | it continues to a run in which a second connection asked for any r from 1 to n+1 and holds exactly r..n, while the dropped client keeps what it had |
| Scenario.LateLogin | src/soup_bin_connection.cpp:76-83 | after any broadcasts ps, a first login with number 0 files the next broadcasts under 1, 2, ..., where the server has others |
| Scenario.OvertakenLogin | include/soup_bin_server.h:48-77 | a broadcast between accept and a login with number 0 is held by the client under number 0, and under that number only |
| Refinement.BytesRefineMessages | src/soup_bin_connection.cpp:107-250 | every run of the byte system is matched by a run of the message session with the same log and clients, whose queues are exactly what is in flight |
| Refinement.StepRefines | src/soup_bin_connection.cpp:107-250 | one byte-level step is zero or more message steps; a delivery is as many takes as packets it finishes |
| Refinement.LoginServing | src/soup_bin_connection.cpp:65-88 | handling a login adds to the downlink exactly Login Accepted followed by the replay, and files only the server's numbers |
| Refinement.RepeatAdds | include/soup_bin_server.h:56-66 | whatever sending a message does to a connection, repeat_from does it for the broadcasts from k on, in order, and stops after the last |
| Refinement.RepeatServing | include/soup_bin_server.h:56-66 | a replay adds exactly the broadcasts from the requested number on, in order, to what the downlink carries |
| Refinement.RepeatSends | include/soup_bin_server.h:56-66 | on a gapless log repeat_from sends exactly the packets of k..nextSeq-1, each once and ascending, and nothing when k is not stored; the connection's map gains exactly those numbers |
| Refinement.ClientPackets | test/soupbinserver.cpp:21-30 | the client's dispatch of encoded packets is its handling of the messages, and sends nothing |
| Refinement.ServerPackets | src/soup_bin_connection.cpp:129-194 | the server's dispatch of a client's packets keeps the downlink equal to the messages it should carry |
| Carriage.SendCarries | src/soup_bin_connection.cpp:231-250 | sending appends one message to what a direction carries, wherever its transmission stands |
| Carriage.TransmitCarries | src/soup_bin_connection.cpp:217-229 | moving any piece of the front packet onto the wire changes nothing of what is carried |
| Carriage.CompleteCarries | src/soup_bin_connection.cpp:220-228 | neither does a write completion |
| Carriage.DeliverCarries | src/soup_bin_connection.cpp:107-194 | reading any n bytes hands on exactly the messages they finish and leaves the others in transit |
| Agreement.ClientLogOfRun | test/soupbinserver.cpp:21-30 | the closed form of a client's state in every run of the message session |
| Agreement.LogsAgreeIff | test/soupbinserver.cpp:21-30 | right numbers exactly when in step, in every run of the message session |
| Agreement.FileFacts | test/soupbinserver.cpp:26-30 | filing under successive wrapping numbers keeps old entries, adds exactly those keys, and gives new keys their payloads |
| Agreement.InStepAgrees | test/soupbinserver.cpp:21-30 | a client in step has the server's message under every number it holds |
| Agreement.OutOfStepDisagrees | test/soupbinserver.cpp:21-30 | with distinct payloads a client out of step that has filed anything has a wrong one |
| Agreement.HoldsUpToCounter | test/soupbinserver.cpp:26-30 | a client in step has no gap from the announced number to its counter |
| Agreement.TogetherComplete | test/soupbinserver.cpp:138-166 | the logs of two connections, the second starting no later than the first one's counter, together have no gap |
| Session.RunKeepsInv | src/soup_bin_connection.cpp:65-88 | in every run each client has handled a prefix of its script, the rest is in flight in order, and the client is that prefix's effect |
| Session.TermsSettled | src/soup_bin_connection.cpp:90-106 | a client sends one login, so after it was handled nothing recorded of the connection changes |
| Session.ScriptGrows | include/soup_bin_server.h:48-54 | a broadcast extends every connection's script by its message, before and after its login |
| Session.LoginScript | src/soup_bin_connection.cpp:65-88 | handling a login extends the script by exactly the answer and the replay |
| Protocol.LoginPacket | src/soup_bin_connection.cpp:90-106 | the packet a client builds is dispatched as a login with the number it asked for and its session cut at ten characters |
| Protocol.BeatPacket | test/soupbinserver.cpp:13-20 | either heartbeat packet adds one, modulo 2^32, to the counter of its kind and changes nothing else |
| Protocol.IgnoredPackets | src/soup_bin_connection.cpp:137-183 | debug packets, rejections, ends of session, unsequenced data, logouts, unknown types and login packets that are too short change nothing |
| Protocol.QueueKeepsOrder | src/soup_bin_connection.cpp:217-250 | without a failed write, a write is in flight exactly when the queue is non-empty, never two at once, and written followed by queued is what was sent |
| Protocol.CompletionsDrain | src/soup_bin_connection.cpp:217-250 | as many completions as packets are queued write everything ever sent, in order |
| Endpoint.Connection.Accepted | src/soup_bin_connection.cpp:4-9 | a connected server-side connection with an idle reader |
| Endpoint.Connection.Dialing | src/soup_bin_connection.cpp:11-34 | a connecting client-side connection with the requested session and number |
| Endpoint.Connection.OnConnect | src/soup_bin_connection.cpp:90-106 | connects and queues the encoded login request with the connection's own names and number |
| Endpoint.Connection.CloseSocket | src/soup_bin_connection.cpp:55-63 | disconnected, with no write outstanding |
| Endpoint.Connection.Send | src/soup_bin_connection.cpp:231-250 | queues the packet, and starts a write only on an empty queue |
| Endpoint.Connection.OnWritten | src/soup_bin_connection.cpp:217-229 | pops the front and writes on while packets remain, or closes on failure |
| Endpoint.Connection.SendSequenced | src/soup_bin_connection.cpp:196-203 | stores the payload unless the number is taken, and queues the encoded packet |
| Endpoint.Connection.GetNextSeq | src/soup_bin_connection.cpp:252-257 | the counter before a wrapping increment |
| Endpoint.Connection.OnTimer | src/soup_bin_connection.cpp:259-272 | queues 00 01 'H' on a server and 00 01 'R' on a client |
| Endpoint.Connection.OnServerHeartbeat | test/soupbinserver.cpp:17-20 | adds one to the counter of server heartbeats and to no other |
| Endpoint.Connection.OnClientHeartbeat | test/soupbinserver.cpp:13-16 | adds one to the counter of client heartbeats and to no other |
| Endpoint.Connection.OnLoginRequest | src/soup_bin_connection.cpp:65-88 | answers request 0 with number 1 and no replay, any other with that number and its replay |
| Endpoint.Connection.OnLoginAccepted | test/soupbinserver.cpp:21-25 | takes over the announced number and session |
| Endpoint.Connection.OnSequencedData | test/soupbinserver.cpp:26-30 | files the payload under the counter unless taken, and counts on |
| Endpoint.Connection.OnPacket | src/soup_bin_connection.cpp:137-183 | the switch on the packet type is the dispatch the session results are about |
| Endpoint.Connection.Receive | src/soup_bin_connection.cpp:107-194 | any chunk of bytes advances the reader as the stream would and dispatches exactly the packets it finishes, in order |
| Endpoint.SoupBinServer.constructor | include/soup_bin_server.h:80-87 | numbering starts at 1 with an empty log |
| Endpoint.SoupBinServer.OnAccept | include/soup_bin_server.h:69-77 | a connection joins the broadcast list at its accept |
| Endpoint.SoupBinServer.SendSequenced | include/soup_bin_server.h:48-54 | stores the payload under the counter, counts on, and sends number and payload to each connection once |
| Endpoint.SoupBinServer.SendToAll | include/soup_bin_server.h:52-53 | the loop over the connections reaches each of them exactly once and no other object |
| Endpoint.SoupBinServer.RepeatFrom | include/soup_bin_server.h:56-66 | the loop terminates on every log and sends exactly the stored run from the requested number |
| Endpoint.NewLoginRequest | src/soup_bin_connection.cpp:97-102 | four field writes into a blank record are the encoded login request |
| Endpoint.NewLoginAccepted | src/soup_bin_connection.cpp:80-83 | two field writes into a blank record are the encoded answer |
| Endpoint.NewSequenced | src/soup_bin_connection.cpp:200-202 | a blank packet grown by its payload is the encoded sequenced packet |
| Endpoint.NewHeartbeat | src/soup_bin_connection.cpp:262-271 | the server's is 00 01 'H', the client's 00 01 'R' |
| Framing.FramingRoundTrip | src/soup_bin_connection.cpp:107-194 | on any prefix of concatenated packets the loop hands on exactly the packets wholly inside it, in order, and holds the beginning of the next |
| Framing.ChunkingInvisible | src/soup_bin_connection.cpp:107-136 | the outcome does not depend on how the bytes were cut |
| Framing.OnlyFramedPackets | src/soup_bin_connection.cpp:129-182 | whatever the bytes, a handler only ever gets a packet of a known type with the length its field says |
| Framing.FeedPart | src/soup_bin_connection.cpp:107-182 | nothing of a packet is handed on before its last byte, and the reader holds exactly what arrived |
| Framing.FeedPacket | src/soup_bin_connection.cpp:107-182 | the last byte hands on exactly that packet and leaves the reader waiting for a header |
| Framing.ReadOn | src/soup_bin_connection.cpp:107-194 | from the middle of a packet, what arrives finishes some packets and leaves the reader inside the next one |
| Framing.UnknownDropsHeader | src/soup_bin_connection.cpp:114-121 | an unknown type loses three bytes, and what follows is read as a header |
| Framing.KnownIff | include/soupbintcp.h:186-203 | the loop knows exactly the types + A J S H Z L U R O |
| Framing.DeliveredIff | include/soupbintcp.h:204-212 | a packet of any type with any body reaches the other side's dispatch whole exactly when its type is one of the ten and its body has at most 65532 bytes |
| Framing.OverrunIff | src/soup_bin_connection.cpp:129-136 | a header of a known type makes the loop read outside its buffer exactly when its length is 0 or above 65533 |
| Framing.EncodedAreFramed | include/soupbintcp.h:143-159 | every packet the program sends, with such a payload, can be delivered |
| Framing.PacketReader.constructor | include/soupbintcp.h:183-185 | waiting for a header, with nothing read |
| Framing.PacketReader.DecodeHeader | include/soupbintcp.h:186-203 | whether the third buffer byte is one of the ten types |
| Framing.PacketReader.ReceiveByte | src/soup_bin_connection.cpp:107-194 | reading into the reused, never cleared buffer depends only on the bytes of the current packet |
| Framing.PacketReader.Receive | src/soup_bin_connection.cpp:107-194 | the same for a chunk of any size |
| SoupPacket.PayloadBytes | include/soupbintcp.h:143-166 | after any calls of set_message each payload byte is that of the last call long enough to cover it |
| SoupPacket.Grown | include/soupbintcp.h:143-159 | the payload size is the longest ever written, and the length field is the total less two, modulo 2^16 |
| SoupPacket.LastCallReadsBackIff | include/soupbintcp.h:143-166 | get_message returns the last argument exactly when no earlier one was longer |
| SoupPacket.DuplicateIff | include/soupbintcp.h:61-68 | the byte constructor rebuilds the packet exactly when its length fits sixteen bits, whatever bytes follow it |
| SoupPacket.LengthBytesAreSwapped | include/soupbintcp.h:151-152 | the bytes copied from the swapped length are its network order |
| SoupPacket.PacketIs | include/soupbintcp.h:46-60 | two length bytes in network order, counting type and body, then the type, then the body |
| SoupPacket.LoginRequestIs | src/soup_bin_connection.cpp:97-102 | 00 2F 'L', the user name at 3, the password at 9, the session at 19, the number's text at 29 |
| SoupPacket.LoginAcceptedIs | src/soup_bin_connection.cpp:80-83 | 00 1F 'A', the session at 3, the number's text at 13 |
| SoupPacket.OthersAre | src/soup_bin_connection.cpp:196-272 | 'S' and the payload behind their length; 00 01 'H'; 00 01 'R' |
| SoupPacket.LoginRequestReadsBack | src/soup_bin_connection.cpp:97-102 | the server reads the number and the cut session the client put in, for every number and session |
| SoupPacket.LoginAcceptedReadsBack | src/soup_bin_connection.cpp:80-83 | the client reads the number and the cut session the server put in |
| SoupPacket.SoupMessage.Blank | include/soupbintcp.h:46-60 | length, type, zeros |
| SoupPacket.SoupMessage.FromBytes | include/soupbintcp.h:61-68 | as many bytes as the length field announces |
| SoupPacket.SoupMessage.SetString | include/soupbintcp.h:131-134 | the field holds the cut, NUL-padded string and no other byte changes |
| SoupPacket.SoupMessage.SetNumeric | include/soupbintcp.h:100-108 | the field holds the right-justified decimal text and no other byte changes |
| SoupPacket.SoupMessage.SetMessage | include/soupbintcp.h:143-159 | reallocates and rewrites the length only when the payload needs it, and copies in place otherwise |
| SoupPacket.SoupMessage.GetMessage | include/soupbintcp.h:160-166 | everything behind the fixed part |
| Numeric.TextIs | include/soupbintcp.h:100-108 | the text of a number is its decimal digits without leading zeros, behind a minus sign if it is negative |
| Numeric.NumericFieldAt | include/soupbintcp.h:100-108 | it stands at the right of its field, behind spaces |
| Numeric.ParseIs | include/soupbintcp.h:74-80 | white space, a sign, digits and anything that ends them read as the saturated number of the digits |
| Numeric.NumericRoundTrip | include/soupbintcp.h:74-108 | every int64 printed right-justified in 20 characters is parsed back to itself |
| Numeric.SequenceNumberRoundTrip | src/soup_bin_connection.cpp:74-81 | every uint64 number survives the way through int64 and text |
| Numeric.StringFieldRoundTrip | include/soupbintcp.h:131-142 | a string field reads back its string up to the first NUL or the field's end |
| Numeric.StrnCpyAt | include/soupbintcp.h:131-134 | strncpy byte by byte: the string, then NULs, with nothing left of an older one |
| Bytes.ConversionsAre | src/soup_bin_connection.cpp:74-81 | the conversions between int64_t and uint64_t keep the number modulo 2^64 |
| Bytes.SwapEndianBytes | include/soupbintcp.h:12-25 | the loop over the union's bytes reverses them, and reading them back is Swap of the value |
| Bytes.SwapThenStore | include/itch.h:23-37 | the swapped value in host order is the value in network order |
| Bytes.LoadThenSwap | include/itch.h:54-72 | a host-order load and a swap read the network-order value |
| Bytes.BigEndianRoundTrip | include/itch.h:54-93 | n bytes of network order hold a number modulo 256^n |
| Records.RecordRefinesMap | include/itch.h:54-105 | a field that shares no byte with another holds exactly its last-written value after any writes to any fields; on a disjoint layout that is every field |
| Records.LosesWriteIff | include/ouch.h:151-175 | some writes make a field lose its last-written value exactly if it shares a byte with another field |
| Records.GapsUntouched | include/itch.h:73-97 | bytes outside every field never change |
| Records.OverlapBreaksMap | include/ouch.h:151-175 | disjointness is needed: two overlapping fields always have a pair of writes that loses one |
| Records.IntReadsBack | include/itch.h:54-93 | a 2/4/8-byte field reads back its number modulo 2^(8*length), any other size reads 0 |
| Records.IntRoundTripIff | include/itch.h:54-93 | exactly when a field returns the number stored: always for 8 bytes, in range for 2 and 4, only 0 otherwise |
| Records.IntWireOrder | include/ouch.h:151-175 | 2/4/8-byte integers are in network order; other sizes are zeros in OUCH and in the reverse of network order in ITCH |
| Records.IntValueIs | include/itch.h:54-72 | a slot of 2, 4 or 8 bytes reads as its network-order number, signed if it has 8 |
| Records.FixedRecord.Blank | include/itch.h:42-46 | the type byte, then zeros |
| Records.FixedRecord.FromBytes | include/itch.h:47-50 | the first SIZE bytes of the source |
| Records.FixedRecord.SetInt | include/itch.h:73-93 | writes the integer's bytes into its slot and nothing else |
| Records.FixedRecord.GetInt | include/ouch.h:134-150 | the number in the slot; any number for a one-byte OUCH field, where the source returns an address |
| Records.FixedRecord.SetString | include/itch.h:94-97 | the slot holds the cut, NUL-padded string and no other byte changes |
| Records.FixedRecord.GetString | include/itch.h:98-105 | the slot up to its first NUL, or all of it |
| Layouts.CheckedLayoutIsMap | include/itch.h:111-601 | every table that passes the declaration check, all but one, is in bounds and disjoint, so RecordRefinesMap applies to it |
| Layouts.OrderAcceptedLosers | include/ouch.h:371-392 | of the sixteen fields of order_accepted exactly symbol, price, time in force, display, order reference number, client order id and appendage length can lose a write |
| Ouch.Run | include/ouch.h:186-229 | after any adds and any writes to fields apart from the length field, the appendage is exactly the concatenated entries, the length field is its size, and other bytes are as the field writes left them; order_accepted included |
| Ouch.AppendageTables | include/ouch.h:292-541 | the six tables with an appendage length meet the hypotheses of Run, and only in order_accepted is there a field, the order reference number, that may not be written |
| Ouch.AddKeepsValidIff | include/ouch.h:186-229 | on any message, the stored length is the buffer's size after an add exactly if that is below 2^16 |
| Ouch.AppendsIff | include/ouch.h:186-229 | on any message, an add appends its entry exactly if the stored length was the buffer's size |
| Ouch.AddAfterReference | include/ouch.h:382-388 | writing the order reference number of order_accepted moves the stored length to the number's third and fourth byte, so a later add appends exactly if these are the buffer's size; and the number never survives the add |
| Ouch.FieldsOfRun | include/ouch.h:134-175 | adds never disturb a field that shares no byte with another; it holds its last-written value |
| Ouch.ScanFindsFirst | include/ouch.h:230-251 | for any stored length, the scan only ever stands at the start of an entry and stops at the first with the tag or the first that does not begin below that length, and reads outside the buffer exactly if there is neither |
| Ouch.MissingTag | include/ouch.h:250-280 | a tag no entry carries reads as "" and 0 |
| Ouch.TextEntryIs | include/ouch.h:218-229 | the value of a string tag has the tag's length and holds the string from its beginning, then its NUL |
| Ouch.IntEntryIs | include/ouch.h:186-217 | the value of a 4- or 8-byte integer tag is the number in network order, of any other its low bytes, low byte first |
| Ouch.AddPlacesEntry | include/ouch.h:186-229 | on any message, an add keeps the bytes below the stored length, puts length, tag and value there, stores the new size modulo 2^16 and changes no other byte of the record |
| Ouch.TextOfHistory | include/ouch.h:218-251 | after any history of adds and field writes, a tag first added with a string reads back as that string, cut at its NUL and the tag's length, if the first entry has that length too |
| Ouch.IntOfHistory | include/ouch.h:186-281 | so does a tag first added with an integer: modulo 2^32 for 4 bytes, whole for 8 |
| Ouch.FirmAndQuantity | test/ouch.cpp:14-39 | FIRM "ABCD" and MIN_QTY 100 are stored as 05 02 41 42 43 44 05 03 00 00 00 64 |
| Ouch.FirstTextReads | test/ouch.cpp:14-24 | a string that fills its tag reads back from the first entry |
| Ouch.NextNumberReads | test/ouch.cpp:25-40 | a 4-byte number behind a 4-byte first entry reads back modulo 2^32 |
| Ouch.TextLookupReads | include/ouch.h:230-251 | what a string lookup returns whenever the tag is found: as many bytes as the first entry has, from the value on and past its end, cut at a NUL |
| Ouch.IntLookupReads | include/ouch.h:252-281 | what an integer lookup then returns: the network-order number of as many bytes as the first entry has |
| Ouch.TextLookupIff | include/ouch.h:230-251 | exactly when a string lookup returns the first match's value, given that it uses the first entry's length |
| Ouch.IntLookupIff | include/ouch.h:252-281 | exactly when an integer lookup does, for values of every length |
| Ouch.LongTagAfterShortFirst | include/ouch.h:260-272 | an 8-byte tag behind a 4-byte first entry reads back only when it is 0 |
| Ouch.WireRoundTripIff | include/ouch.h:117-131 | a message rebuilt from its bytes is the same exactly when its stored length is right |
| Ouch.Resend | include/ouch.h:117-131 | the byte constructor and set_tag_values on what a message sends give the same record and appendages, hence the same lookups |
| Ouch.TagData | include/ouch.h:197-214 | the value bytes of an integer tag, for every tag length of the table |
| Ouch.OuchMessage.Blank | include/ouch.h:111-116 | no appendage, and a length field that says so |
| Ouch.OuchMessage.FromBytes | include/ouch.h:117-121 | the record alone |
| Ouch.OuchMessage.SetTagValues | include/ouch.h:126-131 | takes as many bytes as the length field says |
| Ouch.OuchMessage.AddTagInt | include/ouch.h:186-217 | on any message, puts the entry where the stored length says and stores the new size |
| Ouch.OuchMessage.AddTagText | include/ouch.h:218-229 | the same for a string |
| Ouch.OuchMessage.ScanTags | include/ouch.h:233-249 | the loop of both lookups terminates and ends where the scan does, whatever the stored length |
| Ouch.OuchMessage.GetTagText | include/ouch.h:230-251 | returns what ScanFindsFirst and TextLookupIff describe |
| Ouch.OuchMessage.GetTagInt | include/ouch.h:252-281 | returns what ScanFindsFirst and IntLookupIff describe |
| Timer.RunIsCalls | src/soup_bin_timer.cpp:33-65 | with a clock that never steps back the listener is called, in every history, at exactly the checks a period or more after the latest reset, and told the time since that reset |
| Timer.NextReading | src/soup_bin_timer.cpp:33-65 | for all readings: one more check calls the listener exactly if the time since the latest reset, modulo 2^64, reaches msBeforeFire; one more reset calls nobody and begins the wait again |
| Timer.ResetRestarts | src/soup_bin_timer.cpp:61-65 | after a reset there is no call for one period, whatever came before |
| Timer.NoCallNearReset | src/soup_bin_timer.cpp:33-65 | in every history of such a clock, no reset lies less than a period before a call |
| Timer.ResetAtHalfTime | test/soupbinserver.cpp:102-113 | the repository's test for all times: reset at a, silent less than a period after a, one call after that |
| Timer.TimerBound | src/soup_bin_timer.cpp:18-65 | with a clock that never steps back, in every history that resets after each callback, with any other checks and resets: k callbacks by time t mean t - start >= k * msBeforeFire, and each is told at least msBeforeFire |
| Timer.SpacedRun | src/soup_bin_timer.cpp:18-65 | in such a history callbacks are at least msBeforeFire apart, the first from the start |
| Timer.NextCheckIff | src/soup_bin_timer.cpp:33-44 | one more check, at whatever time, keeps the callbacks apart exactly if no callback waits for its reset |
| Timer.UnresetChecksFireTwice | src/soup_bin_timer.cpp:33-44 | two checks without a reset between call a one-second listener twice in 1001 milliseconds |
| Timer.LoopResets | src/soup_bin_timer.cpp:18-31 | the thread's loop always resets in time, so the bound holds of it |
| Timer.CheckRightIff | src/soup_bin_timer.cpp:33-44 | exactly when a check is right about the elapsed time: the clock did not step back, or by more than 2^64 - msBeforeFire |
| Timer.BackwardClockFires | src/soup_bin_timer.cpp:33-44 | a clock one millisecond back fires a one-second timer at once, telling it 2^64 - 1 |
| Timer.Timer.CheckNow | src/soup_bin_timer.cpp:33-44 | calls the listener, with the elapsed time, exactly if the unsigned difference reaches msBeforeFire, and does not reset |
| Timer.Timer.ResetNow | src/soup_bin_timer.cpp:61-65 | the wait starts again at the reading, and nobody is called |
| Timer.Timer.RunLoop | src/soup_bin_timer.cpp:18-31 | each reading is a reset if the one before was a check that called the listener, and a check otherwise, and the state is that of this run |

## Left out

- Endpoint.SoupBinServer.SendSequenced: does not model the 2^64-th broadcast, whose number would be 0.
- Endpoint.Connection.OnPacket: ignores a login packet shorter than its layout, because the source reads past its end; and a client that gets a login request for a number other than 0 only answers it, because the source then follows an unset pointer.
- Framing.PacketReader.ReceiveByte: stops at a length of 0 or above 65533, because the source then writes past its buffer.
- Records.FixedRecord.SetInt: requires a field of at most 8 bytes, because the source copies out of an 8-byte temporary.
- Ouch.OuchMessage.AddTagText: requires the string and its NUL to be as long as the tag, because the source copies that many bytes.
- Ouch.OuchMessage.GetTagText, GetTagInt: return `Undefined` where the source reads outside its buffer or returns an address.
- Timer.Timer.RunLoop: how long wait_until sleeps is not modelled; the bound does not depend on it. Resets by other threads between the loop's readings are covered by TimerBound, not by the loop.
- Boost.Asio, sockets, name resolution and threads: async_read is waiting for bytes, async_write is a later completion, and posted work is one atomic step. Data races between threads are outside the model.
- malloc, realloc and object lifetimes: arrays and sequences of the right length.
- The Boolean results of the network: a connection attempt that fails never becomes a connection.
- `set_int` on non-NUMERIC SoupBinTCP fields, which copies the unswapped number and is never called.
- `message_type` in packets built from bytes, and the default branch that fills `read_msgs`: no code reads them.
- The number-less `send_sequenced`, `send_unsequenced` and the empty default handlers.
- The convenience constructors of ITCH messages that print a character as a number.
- `SoupBinLoginVerifier`, which is never called, and the raw-byte getters and setters.
