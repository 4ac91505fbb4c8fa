# FFXIVPingMachina in Dafny

FFXIVPingMachina measures a game client's network latency by watching the
game's own TCP traffic. It has a packet capture front end and a library
(`LibPingMachina`). The library splits each connection's messages into
segments, each behind a 16-byte segment header. It hands the segments to
two ping handlers and reports the lowest latency seen in the last five
seconds:

- The **keep-alive handler** remembers the id and send time of the last
  outbound keep-alive. A sample is taken when the server echoes that id.
- The **IPC handler** records the timestamp of every outbound IPC ping
  message and the time it was sent. When the server's reply arrives
  carrying that timestamp plus a fixed 64-bit offset, the handler takes a
  sample, then forgets every older record.
- The **opcode detector** finds the IPC ping opcodes when they are not
  known. It keeps the last 512 candidate messages in a ring buffer. For
  every ping index it counts the send and receive opcodes, scores every
  (send, receive) pair, and adopts the best-scoring pair.
- The **per-connection monitor** lists its samples by time and keeps only
  those of the last five seconds. Its current ping is the window's minimum.
- The **packet monitor** holds one monitor per connection string. After
  every message it removes connections idle for more than two minutes.
  Whenever a monitor has a new sample, it reports the highest current ping
  over all connections.
- Connection strings (`local:port=>remote:port`) are parsed into
  connection identifiers. Samples of connections are ordered by their ping.

The model follows the source's structure:

- Fixed-layout wire records are datatypes with an explicit byte encoding
  and decoding.
- The in-place byte-order fix-up of the marshaller is a method on an
  `array`, proved against a function on the buffer's contents.
- The handlers, the detector and both monitors are classes whose fields
  their methods update. Each method is proved equal to a function on a
  value "view" of the object, and the properties are lemmas about those
  functions.
- The clock is a parameter `now` (milliseconds). Notifications that the
  source raises as events are returned as `Option` values.

`ByteArrayToStructure` (`LibPingMachina/FFXIVNetwork/Util.cs` lines 9-24)
fixes up the byte order in the caller's own buffer when the host order
differs from the requested one. `Util.ByteArrayToStructure` leaves the
buffer fixed up, and `Util.SecondDecodeDiffers` shows that a second decode
of the same bytes then reads a different keep-alive id. On a little-endian
host the fix-up never runs.

## Model

| member | source | states |
|---|---|---|
| Bytes.ReadLE | LibPingMachina/FFXIVNetwork/Util.cs:17 | an n-byte little-endian scalar read from a buffer is below 256^n |
| Bytes.ReadWriteLE | LibPingMachina/FFXIVNetwork/Util.cs:9-24 | reading back the n-byte little-endian encoding of any value below 256^n gives that value |
| Bytes.WriteReadLE | LibPingMachina/FFXIVNetwork/Util.cs:9-24 | writing back a scalar that was read gives exactly the bytes it was read from |
| Bytes.ReadBEOfMirror | LibPingMachina/FFXIVNetwork/Util.cs:64 | big-endian reading of a range equals little-endian reading of its mirror image |
| Bytes.ReadLESlice | LibPingMachina/FFXIVNetwork/Util.cs:17 | a scalar read depends only on the bytes it covers |
| Def.OpCodeTable | LibPingMachina/FFXIVNetwork/Packets/Def.cs:137-168 | the ping opcodes are 0x0200/0x0200 for the global client and 0x0358/0x0358 for the Chinese client; there is no entry for an unknown client |
| Def.Encode | LibPingMachina/FFXIVNetwork/Packets/Def.cs:21-42 | a record's wire image is exactly as long as its layout: 16, 8, 16, 24 or 32 bytes |
| Def.DecodeEncode | LibPingMachina/FFXIVNetwork/Packets/Def.cs:21-203 | decoding the wire image of any record of any layout gives the record back |
| Def.DecodeEncodeSegmentHeader | LibPingMachina/FFXIVNetwork/Packets/Def.cs:21-42 | segment header round trip, with fields at offsets 0, 4, 8, 12 and 14 |
| Def.DecodeEncodeKeepAlive | LibPingMachina/FFXIVNetwork/Packets/Def.cs:65-72 | keep-alive round trip: id at 0, timestamp at 4 |
| Def.DecodeEncodeIpcHeader | LibPingMachina/FFXIVNetwork/Packets/Def.cs:87-104 | IPC header round trip, with fields at offsets 0, 1, 2, 4, 6, 8 and 12 |
| Def.EncodeDecode | LibPingMachina/FFXIVNetwork/Packets/Def.cs:21-203 | re-encoding a decoded record gives exactly the bytes it was decoded from, for every layout |
| Def.EncodeDecodeSegmentHeader | LibPingMachina/FFXIVNetwork/Packets/Def.cs:21-42 | the same for the 16 bytes of a segment header |
| Def.EncodeDecodeKeepAlive | LibPingMachina/FFXIVNetwork/Packets/Def.cs:65-72 | the same for the 8 bytes of a keep-alive |
| Def.EncodeDecodeIpcHeader | LibPingMachina/FFXIVNetwork/Packets/Def.cs:87-104 | the same for the 16 bytes of an IPC header |
| Def.EncodeDecodeClientPing | LibPingMachina/FFXIVNetwork/Packets/Def.cs:179-186 | the same for the 24 bytes of a client ping: timestamp then 20 reserved bytes |
| Def.EncodeDecodeServerPing | LibPingMachina/FFXIVNetwork/Packets/Def.cs:196-203 | the same for the 32 bytes of a server ping: 64-bit timestamp then 24 reserved bytes |
| Def.EncodeInjective | LibPingMachina/FFXIVNetwork/Packets/Def.cs:21-203 | two records of the same layout with the same wire image are equal |
| Util.RangesOfLayout | LibPingMachina/FFXIVNetwork/Util.cs:40-71 | for every layout, the fix-up reverses exactly the scalar fields' byte ranges; a nested fixed buffer contributes only its first byte; ranges are ascending and inside the record |
| Util.ReverseRange | LibPingMachina/FFXIVNetwork/Util.cs:64 | `Array.Reverse` on a range: inside it each byte comes from its mirror position, outside nothing changes |
| Util.ReversalsInside | LibPingMachina/FFXIVNetwork/Util.cs:40-71 | after the fix-up each byte of a field range holds the byte from its mirror position |
| Util.ReversalsOutside | LibPingMachina/FFXIVNetwork/Util.cs:40-71 | bytes outside every field range are unchanged |
| Util.ReversalsInvolution | LibPingMachina/FFXIVNetwork/Util.cs:40-71 | applying the fix-up twice gives the original bytes |
| Util.FlippedRead | LibPingMachina/FFXIVNetwork/Util.cs:64 | reading a reversed range in the opposite byte order gives the original reading |
| Util.SameBytes | LibPingMachina/FFXIVNetwork/Util.cs:40-71 | bytes that only single-byte ranges meet are unchanged by the fix-up |
| Util.HostDecodeOfFixedUp | LibPingMachina/FFXIVNetwork/Util.cs:9-24 | for every layout, decoding the fixed-up bytes in the order opposite to the requested one gives what decoding the original bytes in the requested order gives |
| Util.FixUpRewritesBuffer | LibPingMachina/FFXIVNetwork/Util.cs:11 | when the orders differ, the fix-up of a keep-alive rewrites the bytes 01 00 00 00 of the caller's buffer as 00 00 00 01 |
| Util.SecondDecodeSeesHostOrder | LibPingMachina/FFXIVNetwork/Util.cs:9-24 | a second decode of a fixed-up buffer reads the original bytes in host order, and fixing up again restores them |
| Util.SecondDecodeDiffers | LibPingMachina/FFXIVNetwork/Util.cs:9-24 | for keep-alive bytes 01 00 00 00 requested big-endian on a little-endian host, the first decode reads id 0x01000000 and a second decode of the fixed-up buffer reads 1 |
| Util.ReverseInPlace | LibPingMachina/FFXIVNetwork/Util.cs:64 | the range of the array is reversed in place and nothing else changes |
| Util.MaybeAdjustEndianness | LibPingMachina/FFXIVNetwork/Util.cs:32-72 | the buffer is unchanged when the host order matches the requested one; otherwise every scalar field range of the layout is reversed in turn |
| Util.AdjustField | LibPingMachina/FFXIVNetwork/Util.cs:42-70 | one field: a scalar is reversed, a nested record is fixed up at the accumulated offset, a skipped field is left alone |
| Util.ByteArrayToStructure | LibPingMachina/FFXIVNetwork/Util.cs:9-24 | the record returned is the original bytes read in the requested order; the buffer is left fixed up |
| Util.TruncDiv | LibPingMachina/FFXIVNetwork/Util.cs:79 | integer division rounding toward zero for both signs |
| Util.EpochMillis | LibPingMachina/FFXIVNetwork/Util.cs:74-81 | whole milliseconds between 1970 and a tick count, truncated toward zero for either sign |
| Util.EpochMillisOfWholeMillis | LibPingMachina/FFXIVNetwork/Util.cs:74-81 | a time that is a whole number of milliseconds converts exactly |
| Packets.ErrorCode | LibPingMachina/FFXIVNetwork/Packets/Packets.cs:10-17 | every error code is negative, and Incomplete is -1 |
| Packets.NaiveParsePacket | LibPingMachina/FFXIVNetwork/Packets/Packets.cs:45-57 | fails with Incomplete exactly when fewer bytes than the layout's size remain; otherwise consumes exactly that size |
| Packets.ParseSegmentHeader | LibPingMachina/FFXIVNetwork/Packets/Packets.cs:68-81 | Incomplete exactly when fewer than 16 bytes remain; Malformed exactly when at least 16 remain and the size field exceeds 256 KiB; success consumes 16 bytes and the size is within the cap |
| Packets.ParseIpcHeader | LibPingMachina/FFXIVNetwork/Packets/Packets.cs:83-94 | fails only when fewer than 16 bytes remain, with no check of the reserved bytes; success consumes 16 bytes and reads the type at offset 2 |
| Packets.ParseKeepAlive | LibPingMachina/FFXIVNetwork/Packets/Packets.cs:45-57 | fails exactly when fewer than 8 bytes remain; otherwise reads the id and timestamp |
| Packets.ParseClientPing | LibPingMachina/FFXIVNetwork/Packets/Packets.cs:45-57 | fails exactly when fewer than 24 bytes remain; otherwise reads the 32-bit timestamp and the reserved bytes |
| Packets.ParseServerPing | LibPingMachina/FFXIVNetwork/Packets/Packets.cs:45-57 | fails exactly when fewer than 32 bytes remain; otherwise reads the 64-bit timestamp and the reserved bytes |
| Packets.NaiveParseWireImage | LibPingMachina/FFXIVNetwork/Packets/Packets.cs:54-56 | the wire image of a parsed record is exactly the bytes consumed |
| Packets.NaiveParseEncoded | LibPingMachina/FFXIVNetwork/Packets/Packets.cs:45-57 | any record placed at any offset of any buffer parses back, consuming its size |
| Packets.ParseSegmentHeaderEncoded | LibPingMachina/FFXIVNetwork/Packets/Packets.cs:68-81 | a header whose size is within 256 KiB parses back (the cap itself included); a larger one is Malformed |
| Packets.ParseIpcHeaderEncoded | LibPingMachina/FFXIVNetwork/Packets/Packets.cs:83-94 | every IPC header parses back, whatever its reserved bytes hold |
| Packets.NaiveParseIsMarshalled | LibPingMachina/FFXIVNetwork/Packets/Packets.cs:54 | the parsed record is the one the marshaller yields with little-endian requested |
| LegacyPackets.ParseSegmentHeader | FFXIVPingMachina/FFXIVNetwork/Packets/Packets.cs:31-51 | returns 16, -1 or -2: -1 exactly when short, -2 exactly when the size exceeds 256 KiB; on error the header is untouched, on success it is decoded |
| LegacyPackets.AgreesWithExceptionParser | FFXIVPingMachina/FFXIVNetwork/Packets/Packets.cs:31-51 | the status-code parser and the exception parser succeed and fail on the same inputs with the same header and error |
| KeepAlive.Sent | LibPingMachina/PingMonitor/handler/KeepAliveHandler.cs:13-21 | fails exactly when the keep-alive is short; otherwise remembers its id and the send time |
| KeepAlive.Recv | LibPingMachina/PingMonitor/handler/KeepAliveHandler.cs:23-36 | fails exactly when short; a sample exactly when the id is the remembered one, equal to the time since the send |
| KeepAlive.EchoAfterSend | LibPingMachina/PingMonitor/handler/KeepAliveHandler.cs:13-36 | the echo of the last keep-alive sent yields the round-trip time |
| KeepAlive.RepeatedEcho | LibPingMachina/PingMonitor/handler/KeepAliveHandler.cs:23-36 | receiving does not change the state: a repeated echo is measured from the same send again, and two such samples differ by the time between the receipts |
| KeepAlive.ZeroIdBeforeAnySend | LibPingMachina/PingMonitor/handler/KeepAliveHandler.cs:10-11 | before any send, an echo with id 0 is already taken as a sample, measured from the handler's creation |
| KeepAlive.KeepAliveHandler.constructor | LibPingMachina/PingMonitor/handler/KeepAliveHandler.cs:10-11 | the handler starts with id 0 and the creation time |
| KeepAlive.KeepAliveHandler.ClientSent | LibPingMachina/PingMonitor/handler/KeepAliveHandler.cs:13-21 | the new state is the one Sent gives; on failure nothing changes |
| KeepAlive.KeepAliveHandler.ClientRecv | LibPingMachina/PingMonitor/handler/KeepAliveHandler.cs:23-36 | changes nothing and returns what Recv gives |
| Ipc.ServerIndex | LibPingMachina/PingMonitor/handler/IPCHandler.cs:54 | the index of a reply, its timestamp minus the offset with 64-bit wrap-around cut to 32 bits, is the timestamp modulo 2^32 |
| Ipc.ServerIndexIsLowBytes | LibPingMachina/PingMonitor/handler/IPCHandler.cs:54 | that index is the reply's low four timestamp bytes |
| Ipc.CurrentIpcType | LibPingMachina/PingMonitor/handler/IPCHandler.cs:66-79 | the Chinese client uses 0x0358 both ways; the global and unknown clients use 0x0200 |
| Ipc.HandleClientPing | LibPingMachina/PingMonitor/handler/IPCHandler.cs:39-46 | fails exactly when short of 24 bytes; otherwise records the send time under the ping's timestamp, replacing an earlier one |
| Ipc.Prune | LibPingMachina/PingMonitor/handler/IPCHandler.cs:63 | keeps exactly the records with a key above the index, with their values |
| Ipc.HandleServerPing | LibPingMachina/PingMonitor/handler/IPCHandler.cs:48-64 | fails exactly when short of 32 bytes; otherwise a sample exactly when the index is recorded, equal to the time since that send, and all records up to the index are dropped |
| Ipc.Sent | LibPingMachina/PingMonitor/handler/IPCHandler.cs:15-25 | an IPC header short of 16 bytes fails; another opcode leaves the records alone; the ping opcode hands the payload after the header to HandleClientPing |
| Ipc.Recv | LibPingMachina/PingMonitor/handler/IPCHandler.cs:27-37 | the same for received messages and HandleServerPing |
| Ipc.ReplyMatchesPing | LibPingMachina/PingMonitor/handler/IPCHandler.cs:48-64 | after any reply only the records above its index remain, unchanged, and a sample is the time since the matched record |
| Ipc.PingRecorded | LibPingMachina/PingMonitor/handler/IPCHandler.cs:15-46 | a sent ping message with the ping opcode records its timestamp |
| Ipc.ServerPingMatched | LibPingMachina/PingMonitor/handler/IPCHandler.cs:48-64 | a reply whose index is recorded yields exactly the time since that record, and leaves only the records above the index |
| Ipc.ReplyMatched | LibPingMachina/PingMonitor/handler/IPCHandler.cs:27-64 | a received reply message with the ping opcode yields the matching sample |
| Ipc.PingThenReply | LibPingMachina/PingMonitor/handler/IPCHandler.cs:15-64 | a ping sent at t0 then answered at t1 gives the sample t1 - t0, with the recorded entry gone |
| Ipc.IpcHandler.constructor | LibPingMachina/PingMonitor/handler/IPCHandler.cs:12 | no records at start |
| Ipc.IpcHandler.ClientSent | LibPingMachina/PingMonitor/handler/IPCHandler.cs:15-25 | the records become those Sent gives, unchanged on failure |
| Ipc.IpcHandler.ClientRecv | LibPingMachina/PingMonitor/handler/IPCHandler.cs:27-37 | the records and the sample are those Recv gives |
| Ipc.IpcHandler.HandleClientPingIn | LibPingMachina/PingMonitor/handler/IPCHandler.cs:39-46 | the records become those HandleClientPing gives |
| Ipc.IpcHandler.HandleServerPingIn | LibPingMachina/PingMonitor/handler/IPCHandler.cs:48-64 | the records and the sample are those HandleServerPing gives |
| OpCodeStats.BiasBounds | LibPingMachina/PingMonitor/handler/IPCPingOpCodeDetector.cs:185-193 | the bias is between 0 and 1; it is 0 exactly when a count is 0 and 1 exactly when the counts are equal |
| OpCodeStats.ConfidenceSign | LibPingMachina/PingMonitor/handler/IPCPingOpCodeDetector.cs:195-200 | the confidence is never negative, and positive exactly when both counts are at least 1 |
| OpCodeStats.ConfidenceFalls | LibPingMachina/PingMonitor/handler/IPCPingOpCodeDetector.cs:196-200 | with send and receive counts equal, more occurrences give a lower confidence |
| OpCodeStats.MeanPositive | LibPingMachina/PingMonitor/handler/IPCPingOpCodeDetector.cs:327 | the average of positive confidences is positive |
| OpCodeStats.RecordKeyed | LibPingMachina/PingMonitor/handler/IPCPingOpCodeDetector.cs:275-279 | counting a slot keeps the ping indices distinct, and the opcodes under each of them |
| OpCodeStats.RecordCounts | LibPingMachina/PingMonitor/handler/IPCPingOpCodeDetector.cs:275-288 | counting a slot raises exactly one counter by one: the send or receive count of its opcode under its ping index |
| OpCodeStats.BumpCounts | LibPingMachina/PingMonitor/handler/IPCPingOpCodeDetector.cs:219-238 | counting an opcode raises only its own send or receive count by one |
| OpCodeStats.AddIndex | LibPingMachina/PingMonitor/handler/IPCPingOpCodeDetector.cs:312-321 | after adding counts to a pair the table is non-empty and no shorter (its contents: AddIndexLists) |
| OpCodeStats.AddIndexLists | LibPingMachina/PingMonitor/handler/IPCPingOpCodeDetector.cs:312-321 | adding keeps the pairs distinct, appends the counts at the end of that pair's list, creating it when the pair is new, and leaves every other pair's list unchanged |
| OpCodeStats.RecvPairs | LibPingMachina/PingMonitor/handler/IPCPingOpCodeDetector.cs:304-322 | pairing one sent opcode: the table gains entries when some opcode of the index was received, and is unchanged otherwise (its contents: RecvPairsLists) |
| OpCodeStats.RecvPairsLists | LibPingMachina/PingMonitor/handler/IPCPingOpCodeDetector.cs:304-322 | pairing sent opcode s with an index appends to the list of (s, r) one entry, the send count of s and the receive count of r, exactly when r was received under that index, and appends nothing to any other pair |
| OpCodeStats.SendPairs | LibPingMachina/PingMonitor/handler/IPCPingOpCodeDetector.cs:297-323 | pairing all opcodes of an index: the table is non-empty when some opcode was sent and some received, and unchanged otherwise (its contents: SendPairsLists) |
| OpCodeStats.SendPairsLists | LibPingMachina/PingMonitor/handler/IPCPingOpCodeDetector.cs:297-323 | pairing all opcodes of an index appends to the list of (s, r) one entry, the send count of s and the receive count of r, exactly when s was sent and r received under that index, and nothing otherwise |
| OpCodeStats.GroupPairs | LibPingMachina/PingMonitor/handler/IPCPingOpCodeDetector.cs:293-324 | there are no pairs exactly when no ping index has both a sent and a received opcode (which pairs and lists: GroupedLists) |
| OpCodeStats.GroupedLists | LibPingMachina/PingMonitor/handler/IPCPingOpCodeDetector.cs:293-324 | with distinct opcodes per index, pair (s, r) is grouped exactly when some ping index saw s sent and r received, and its list holds, in table order, the send count of s and the receive count of r of exactly those indices |
| OpCodeStats.ListedHits | LibPingMachina/PingMonitor/handler/IPCPingOpCodeDetector.cs:293-324 | the expected list of a pair is non-empty exactly when some ping index saw its client opcode sent and its server opcode received |
| OpCodeStats.GroupPairsGood | LibPingMachina/PingMonitor/handler/IPCPingOpCodeDetector.cs:293-324 | every pair's list is non-empty and every listed count is at least 1, so every pair can be scored |
| OpCodeStats.Scores | LibPingMachina/PingMonitor/handler/IPCPingOpCodeDetector.cs:326-329 | only positive average confidences are kept, one per pair |
| OpCodeStats.EveryPairScored | LibPingMachina/PingMonitor/handler/IPCPingOpCodeDetector.cs:326-329 | on grouped pairs the positive filter drops nothing |
| OpCodeStats.ArgMax | LibPingMachina/PingMonitor/handler/IPCPingOpCodeDetector.cs:334 | the chosen score is the greatest, and on ties the last one wins |
| OpCodeStats.WinnerOfPairs | LibPingMachina/PingMonitor/handler/IPCPingOpCodeDetector.cs:326-334 | there is a winner exactly when there is a pair; it is a grouped pair whose average confidence no other pair exceeds |
| OpCodeStats.OnlyPairWins | LibPingMachina/PingMonitor/handler/IPCPingOpCodeDetector.cs:293-341 | when under every ping index only opcode A is sent and only opcode B received, and some index saw both, the adopted pair is (A, B) |
| OpCodeStats.HitOnly | LibPingMachina/PingMonitor/handler/IPCPingOpCodeDetector.cs:297-322 | under such an index the only pair with an entry is (A, B) |
| OpCodeStats.ScoreIsMean | LibPingMachina/PingMonitor/handler/IPCPingOpCodeDetector.cs:327 | a pair's score is the average confidence of its list |
| OpCodeDetector.IsAllZeros | LibPingMachina/PingMonitor/handler/IPCPingOpCodeDetector.cs:78-89 | true exactly when the first `size` bytes are zero |
| OpCodeDetector.PingIndexNoWrap | LibPingMachina/PingMonitor/handler/IPCPingOpCodeDetector.cs:264-273 | an admitted server slot's ping index is its timestamp minus the offset, with no wrap-around |
| OpCodeDetector.WalkShape | LibPingMachina/PingMonitor/handler/IPCPingOpCodeDetector.cs:243-261 | the walk visits slots newest first, back to the ring's head, and stops at the first slot outside the 20-second window |
| OpCodeDetector.VisitedAdmissible | LibPingMachina/PingMonitor/handler/IPCPingOpCodeDetector.cs:243-273 | at most min(buffer write count, 512) slots are visited, and each passed the admission checks when it was buffered |
| OpCodeDetector.TallyCounts | LibPingMachina/PingMonitor/handler/IPCPingOpCodeDetector.cs:253-290 | every counter is the number of visited slots with that ping index, direction and opcode |
| OpCodeDetector.DetectFindsPair | LibPingMachina/PingMonitor/handler/IPCPingOpCodeDetector.cs:241-341 | detection finds nothing exactly when no visited ping index has both a send and a receive; otherwise it finds a grouped pair whose average confidence no other pair exceeds; the adopted pair was seen sent and received under some visited ping index, and its list is exactly the counts of those indices |
| OpCodeDetector.AddRecvPairs | LibPingMachina/PingMonitor/handler/IPCPingOpCodeDetector.cs:304-322 | the inner loop computes RecvPairs |
| OpCodeDetector.AddSendPairs | LibPingMachina/PingMonitor/handler/IPCPingOpCodeDetector.cs:297-323 | the middle loop computes SendPairs |
| OpCodeDetector.CollectPairs | LibPingMachina/PingMonitor/handler/IPCPingOpCodeDetector.cs:293-324 | the outer loop computes GroupPairs |
| OpCodeDetector.TallyRing | LibPingMachina/PingMonitor/handler/IPCPingOpCodeDetector.cs:243-290 | the ring walk's tallies are those of the visited slots |
| OpCodeDetector.IpcPingOpCodeDetector.constructor | LibPingMachina/PingMonitor/handler/IPCPingOpCodeDetector.cs:58-75 | the opcode starts as (0, 0), with an empty 512-slot ring and the cursor at 0 |
| OpCodeDetector.IpcPingOpCodeDetector.Push | LibPingMachina/PingMonitor/handler/IPCPingOpCodeDetector.cs:114-123 | the slot at the cursor modulo 512 is written and the cursor advances |
| OpCodeDetector.IpcPingOpCodeDetector.ClientSent | LibPingMachina/PingMonitor/handler/IPCPingOpCodeDetector.cs:92-124 | a client ping that passes the length, reserved-bytes and non-zero checks is buffered; anything else changes nothing; no detection runs |
| OpCodeDetector.IpcPingOpCodeDetector.ClientRecv | LibPingMachina/PingMonitor/handler/IPCPingOpCodeDetector.cs:126-160 | a server ping that passes the length, reserved-bytes and timestamp checks is buffered and detection runs; anything else changes nothing and reports nothing |
| OpCodeDetector.IpcPingOpCodeDetector.KeepAlive | LibPingMachina/PingMonitor/handler/IPCPingOpCodeDetector.cs:162-178 | a keep-alive either way moves the window's center to now and runs detection |
| OpCodeDetector.IpcPingOpCodeDetector.DetectPingPkt | LibPingMachina/PingMonitor/handler/IPCPingOpCodeDetector.cs:241-341 | the opcode becomes the detected pair, and is reported, exactly when one is found and it differs from the current one |
| Monitor.MinValue | LibPingMachina/PingMonitor/PerConnectionMonitor.cs:91 | the minimum is one of the window's values and no value is below it |
| Monitor.InsertHolds | LibPingMachina/PingMonitor/PerConnectionMonitor.cs:83-84 | storing a sample keeps keys ascending, holds it under its time, and replaces only an earlier sample with the same time |
| Monitor.DropBeforeHolds | LibPingMachina/PingMonitor/PerConnectionMonitor.cs:86-88 | removing from the front keeps exactly the samples whose time is not below the bound |
| Monitor.SlideHolds | LibPingMachina/PingMonitor/PerConnectionMonitor.cs:83-91 | after a sample the window is ascending and holds exactly that sample and the earlier ones of the last five seconds, and its minimum is at most the sample |
| Monitor.ActivityStamped | LibPingMachina/PingMonitor/PerConnectionMonitor.cs:26-47 | every message stamps the activity time, whether or not it parses |
| Monitor.BadHeaderFails | LibPingMachina/PingMonitor/PerConnectionMonitor.cs:31 | a message short of a segment header, or too large, fails before any handler sees it |
| Monitor.OtherSegmentsIgnored | LibPingMachina/PingMonitor/PerConnectionMonitor.cs:34-61 | a segment no handler claims changes nothing but the activity time; type 7 is claimed outbound only and type 8 inbound only |
| Monitor.SentDispatch | LibPingMachina/PingMonitor/PerConnectionMonitor.cs:26-43 | keep-alive and IPC segments reach their handler with the payload after the header, and sending never touches the window |
| Monitor.ReceivedDispatch | LibPingMachina/PingMonitor/PerConnectionMonitor.cs:45-61 | an inbound keep-alive segment (type 8) reaches the keep-alive handler and an IPC segment (type 3) the IPC handler with the client version's opcodes, both with the payload after the 16-byte header; a handler failure is returned with only the activity time changed, the IPC handler's new records are kept, a handler sample enters the window, and other segment types change only the activity time |
| Monitor.ReceivedSample | LibPingMachina/PingMonitor/PerConnectionMonitor.cs:45-93 | a reported sample is the minimum of the new window, which holds the handler's sample and only samples of the last five seconds; otherwise the window and ping stay |
| Monitor.SampleEntered | LibPingMachina/PingMonitor/PerConnectionMonitor.cs:81-93 | taking in a sample touches only the window and the current ping, and reports the new minimum with the sample's time |
| Monitor.PerConnectionMonitor.constructor | LibPingMachina/PingMonitor/PerConnectionMonitor.cs:15-24 | a new monitor has fresh handlers, an empty window and ping 0 |
| Monitor.PerConnectionMonitor.MessageSent | LibPingMachina/PingMonitor/PerConnectionMonitor.cs:26-43 | the monitor's new state and result are those OnSent gives |
| Monitor.PerConnectionMonitor.MessageReceived | LibPingMachina/PingMonitor/PerConnectionMonitor.cs:45-62 | the monitor's new state and result are those OnReceived gives |
| Monitor.PerConnectionMonitor.HandleNewSample | LibPingMachina/PingMonitor/PerConnectionMonitor.cs:81-93 | the window, current ping and report are those NewSample gives |
| Dicts.Find | LibPingMachina/PingMonitor/PacketMonitor.cs:23 | a lookup gives the position of the key, or -1 exactly when the key is absent |
| Dicts.PutGet | LibPingMachina/PingMonitor/PacketMonitor.cs:27 | an insert keeps keys distinct and positions stable, and a later lookup sees the new value under that key and the old values elsewhere |
| Registry.SweepKeeps | LibPingMachina/PingMonitor/PacketMonitor.cs:67-72 | the sweep keeps exactly the connections not idle for more than two minutes, and keys stay distinct |
| Registry.MaxPing | LibPingMachina/PingMonitor/PacketMonitor.cs:76 | the maximum is some connection's current ping and no connection's is above it |
| Registry.PutMax | LibPingMachina/PingMonitor/PacketMonitor.cs:76 | after the dispatch the maximum is the dispatched monitor's ping or another connection's, and bounds them all |
| Registry.Dispatched | LibPingMachina/PingMonitor/PacketMonitor.cs:23-41 | after the dispatch and sweep the connection holds its new state and every other connection is kept exactly when it is not idle |
| Registry.SentKeeps | LibPingMachina/PingMonitor/PacketMonitor.cs:21-42 | after any sent message, parsed or not, its connection is registered and stamped; others are kept exactly when not idle |
| Registry.ReceivedKeeps | LibPingMachina/PingMonitor/PacketMonitor.cs:44-65 | the same after a received message |
| Registry.ReceivedAnnounces | LibPingMachina/PingMonitor/PacketMonitor.cs:44-78 | a report is made exactly when the monitor has a new sample, and then carries the highest current ping; otherwise the current ping stays |
| Registry.PacketMonitor.constructor | LibPingMachina/PingMonitor/PacketMonitor.cs:16-19 | no connections and ping 0 at start |
| Registry.PacketMonitor.CheckActivity | LibPingMachina/PingMonitor/PacketMonitor.cs:67-72 | the connections become the sweep of the old ones |
| Registry.PacketMonitor.MessageSent | LibPingMachina/PingMonitor/PacketMonitor.cs:21-42 | the registry becomes what Sent gives |
| Registry.PacketMonitor.MessageReceived | LibPingMachina/PingMonitor/PacketMonitor.cs:44-65 | the registry, current ping and report are those Received gives |
| Registry.PacketMonitor.DispatchSent | LibPingMachina/PingMonitor/PacketMonitor.cs:23-37 | the connection's monitor, found or created, handles the message; a parse failure is swallowed |
| Registry.PacketMonitor.DispatchReceived | LibPingMachina/PingMonitor/PacketMonitor.cs:46-60 | the same for a received message, with its result |
| Registry.PacketMonitor.UpdateCurrentPing | LibPingMachina/PingMonitor/PacketMonitor.cs:74-78 | the current ping becomes the highest over all connections and is reported |
| Registry.PacketMonitor.SendTo | LibPingMachina/PingMonitor/PacketMonitor.cs:30-37 | only the addressed monitor changes, as OnSent gives |
| Registry.PacketMonitor.ReceiveAt | LibPingMachina/PingMonitor/PacketMonitor.cs:53-60 | only the addressed monitor changes, as OnReceived gives |
| Registry.PacketMonitor.MonitorFor | LibPingMachina/PingMonitor/PacketMonitor.cs:23-28 | the connection's monitor is found, or created and added last |
| Registry.PacketMonitor.Register | LibPingMachina/PingMonitor/PacketMonitor.cs:25-27 | a new monitor with its own fresh handlers is registered last under the connection string |
| ConnectionIdentifiers.SplitJoin | LibPingMachina/PingMonitor/ConnectionIdentifier.cs:24-26 | splitting and joining back with the separator gives the string |
| ConnectionIdentifiers.SplitCharPieces | LibPingMachina/PingMonitor/ConnectionIdentifier.cs:26 | no piece of a split by ':' contains ':' |
| ConnectionIdentifiers.RemoveEmpty | LibPingMachina/PingMonitor/ConnectionIdentifier.cs:24 | the result holds exactly the non-empty pieces |
| ConnectionIdentifiers.RemoveEmptyConcat | LibPingMachina/PingMonitor/ConnectionIdentifier.cs:24 | removing empty pieces distributes over concatenation, so order is kept |
| ConnectionIdentifiers.ArrowSplit | LibPingMachina/PingMonitor/ConnectionIdentifier.cs:24 | `x=>y...` with non-empty, separator-free x and y gives x and y as the first two non-empty pieces |
| ConnectionIdentifiers.ColonSplitMore | LibPingMachina/PingMonitor/ConnectionIdentifier.cs:26 | for a colon-free `a` and `p`, `a:p` followed by nothing or by ':'-led pieces splits on ':' with `a` and `p` as its first two pieces |
| ConnectionIdentifiers.ParsePortShow | LibPingMachina/PingMonitor/ConnectionIdentifier.cs:31-32 | every port number written in decimal parses back |
| ConnectionIdentifiers.ParsePortTooLarge | LibPingMachina/PingMonitor/ConnectionIdentifier.cs:31-32 | a number above 65535 does not parse |
| ConnectionIdentifiers.Parse | LibPingMachina/PingMonitor/ConnectionIdentifier.cs:18-41 | the identifier always keeps the original connection string |
| ConnectionIdentifiers.ParseShape | LibPingMachina/PingMonitor/ConnectionIdentifier.cs:18-41 | for `a:p[:…]=>…=>b:q[:…][=>…]` with colon-free hosts and ports: the identifier has hosts a and b and ports p and q exactly when both ports parse, and is the unknown identifier with that string otherwise; pieces after each port, empty pieces between the two sides and pieces after the remote side are ignored |
| ConnectionIdentifiers.ParseWellFormed | LibPingMachina/PingMonitor/ConnectionIdentifier.cs:18-32 | `l:p=>r:q` with ports written in decimal parses to hosts l and r and ports p and q |
| ConnectionIdentifiers.ParseNoArrow | LibPingMachina/PingMonitor/ConnectionIdentifier.cs:34-40 | a string without a `=>` gives the unknown identifier |
| ConnectionIdentifiers.ParseSkipsLeadingArrow | LibPingMachina/PingMonitor/ConnectionIdentifier.cs:24 | a leading `=>` changes only the kept string, because empty pieces are dropped |
| ConnectionIdentifiers.EqualIffSameString | LibPingMachina/PingMonitor/ConnectionIdentifier.cs:43-49 | two identifiers are equal exactly when their connection strings are |
| ConnectionIdentifiers.MalformedUnequal | LibPingMachina/PingMonitor/ConnectionIdentifier.cs:34-49 | two malformed strings both give the unknown identifier, yet are unequal |
| ConnectionIdentifiers.HashToString | LibPingMachina/PingMonitor/ConnectionIdentifier.cs:51-59 | the hash and the text are those of the connection string, so equal identifiers hash alike |
| ConnectionPings.CompareTo | LibPingMachina/PingMonitor/ConnectionPing.cs:16-19 | the result is -1, 0 or 1, with the sign of the ping difference |
| ConnectionPings.CompareIgnoresConnection | LibPingMachina/PingMonitor/ConnectionPing.cs:16-19 | the connection and sample time play no part in the order |
| ConnectionPings.CompareAntisymmetric | LibPingMachina/PingMonitor/ConnectionPing.cs:18 | swapping the operands negates the result |
| ConnectionPings.CompareTransitive | LibPingMachina/PingMonitor/ConnectionPing.cs:18 | the order is transitive |

## Left out

- The packet capture front end (`FFXIVPingMachina/Program.cs`) and the TCP reassembly it drives are not part of this model; messages arrive as byte sequences tagged with a connection string.
- Console logging and the `try`/`catch` that prints a swallowed parse failure: the failure is returned and dropped instead of printed.
- Locks and threads: every operation runs alone.
- Clocks: every `DateTime.Now`/`UtcNow` reading is the parameter `now`, in milliseconds, so the model has a single clock and drops the local-time offset that the source's mix of the two clocks introduces. `LastActivity` is stamped with local time (`PerConnectionMonitor.cs:28` and `:47`) but the sweep subtracts it from UTC time (`PacketMonitor.cs:69-70`), so the source's idle time is the elapsed time minus the local offset from UTC. The model does not capture the effects of that offset:
  - West of UTC by more than two minutes, every connection counts as idle at once and is removed after each message. The next message then gets a fresh monitor, so an IPC reply never finds its ping's record and a keep-alive echo never matches its send.
  - East of UTC, nothing is removed until the offset plus two minutes have passed.
  - A keep-alive echo with id 0 before any send is measured from the handler's local-time creation stamp (`KeepAliveHandler.cs:11`) against UTC time (`:33`), so its sample is off by the offset.
- Floating point: pings are whole milliseconds, and the bias, confidence and averages are exact rationals. Rounding, `Math.Pow` and NaN are not modelled.
- Reflection and `Marshal`: each wire record's layout is a fixed table of fields (offset, size, nested record or skipped) instead of reflection over attributes.
- `ConnectionIdentifier.GetStringIdentifier` (lines 61-65) builds the `local:port=>remote:port` connection string from a packet capture `TCPConnection`; it needs the capture library's types, which are not part of this model, and nothing in the core calls it.
- Events (`OnPingSample`, `OnPingOpCodeDetected`) are results returned as `Option` values, and subscriptions are direct calls.
- `Dictionary` enumeration order is first-insertion order, with removal handled as a filter that keeps the order. When scores tie, the detector's choice depends on this order. Slot reuse after `Remove` is not modelled.
- `ConnectionIdentifiers.Hash`: `string.GetHashCode` is a parameter, so the hash is only stated in terms of it.
- The static `PacketMonitor.ClientVersion` is a parameter of every message.
- Monitor.NewView: a new monitor's `LastActivity` is `default(DateTime)`, which is 0 here. It is stamped before anything reads it.
- ConnectionIdentifiers.ParsePort: `ushort.Parse` is modelled for ASCII white space, one optional sign (with `-0` as 0) and decimal digits. Culture-specific signs, trailing NUL characters and non-ASCII digits are not modelled.
- Registry.PacketMonitor.MessageReceived: the source declares `CurrentPing` as a `ConnectionPing` but assigns it the maximum of the pings. The model keeps the ping, an integer.
- Registry.PacketMonitor.Register: the source calls `new PerConnectionMonitor(connection)` but the constructor takes no argument. The model passes only the creation time.
- OpCodeDetector.IpcPingOpCodeDetector.ClientSent: the source checks six bytes of a field `Unknown2`, but the client ping record declares 20 reserved bytes `Unknown`. The model checks the six bytes at offset 4 of the record.
- The opcode detector is not connected to anything: no monitor creates one, and no handler listens to its event. It is modelled on its own. `IPCHandler` always uses the opcodes of the client version table; the model passes that pair to `Ipc.Sent` and `Ipc.Recv` as a parameter.
- The `epoch` argument of `PerConnectionMonitor.MessageSent` and `MessageReceived` is unused in the source and is left out.
