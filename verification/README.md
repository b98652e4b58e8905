# Verification of RzRouter

RzRouter is a TCP router. Clients send length-prefixed frames that name a segment; the router looks
the segment up, forwards the frame over one of a few shared hop connections under a fresh correlation
id, and sends the answer back under the client's own correlation id (CLRID). Which hops serve which
segment comes from a registry that a refresh task polls.

This project models those parts in Dafny and proves what they promise together. `dafny verify
dfyconfig.toml` checks all of it.

| part | modules | main results |
|---|---|---|
| wire formats | `Bytes`, `Utf8`, `Protocol`, `ShardStream`, `Serializers` | the decoder's language and its waiting exactly, round trips, back-patching serialisers against the client's parser |
| client connection | `FrameStream`, `TcpServer`, `EndToEnd`, `Calls` | frames do not depend on how the stream is cut; every byte accounted for; recovery from malformed pieces; one framed response for each request, in order; from a frame's bytes to its response |
| shared hop connection | `CorrelationIds`, `Demux`, `Multiplexer`, `MultiplexerSafety`, `MultiplexerRuns`, `SharedTable` | every waiter resolved at most once, answers reach their own caller, every return has its reason, nobody is stuck, conservation, shards refine one map |
| forwarding | `Rotation`, `Forwarder`, `ForwarderSafety`, `ForwarderVisits` | rewriting touches four bytes only, retry discipline, which hops are visited in which order, when each outcome comes, coverage and bound |
| registry sync | `RegistryKeys`, `Ownership`, `RoutingState`, `Sync`, `SyncSafety`, `Rebuild`, `EdgeHistory`, `ZoneRebuild`, `ZoneHistory` | what a sync leaves for every pattern of failures; order independence and incremental-equals-rebuild, each with its exact condition; what is shown after any history |
| hops and refresh | `Hop`, `HopManager`, `Rzid`, `Refresh`, `RefreshSafety` | registry and published snapshot agree at every tick of every run; no dangling route; bounded connection sets |

How the asynchronous parts are represented:

- What a socket delivers is a sequence of chunks of any sizes. End of file, read errors, idle timeout
  and cancellation all mean that no more chunks come.
- The multiplexer is a transition system. One step is one lock acquisition, channel operation or
  access to `closed`; any number of callers, one reader and any number of `fail_all` runs interleave
  freely. Its table is a plain map, and `SharedTable` shows that the sharded table follows it through
  every run. `DemuxTable` is the sharded table as code, each operation run alone.
- A forwarded call meets a *world*: which snapshot each attempt loads, and what the i-th hop tried in
  an attempt offers. The results hold for every world.
- The registry is an arbitrary function from resource to optional answer; `None` is a failed fetch.
  `HashMap` and `HashSet` iteration orders are arbitrary.
- Time only appears as a choice: whether a timeout has run out is arbitrary.

Integers are unbounded except where the program's width matters: the 32-bit id counter, the 16-bit
field ids and counts, and the 32-bit length words are modelled with their wrap-around. For the field
ids this is the release profile's arithmetic.

## Code and documentation disagree

- `build_error_response` means to send the error's text in one field. The field's length word, 4,
  covers a second length word instead and the text lies behind the field. The client's decoder does
  find a message, but always the bytes 3, 0, 0, 0: it cannot tell one error from another
  (`Serializers.ErrorTextOutsideField`, `EndToEnd.ErrorsLookAlike`). The model follows the code.
- `serialize_get_segments` numbers fields with 16 bits, so from 32768 segments on the count no longer
  matches what follows; `Serializers.SegmentsRoundTrip` has the exact limit.
- A withdrawal is meant to clean up a caller's own entry. It hits another caller's exactly when that
  caller's entry is in the table and was issued a multiple of 2^32 - 1 ids away
  (`MultiplexerSafety.WithdrawHitsAnotherIff`, over whole runs `RunsAreOwnOnlyIff`), and such a run
  exists (`LateWithdrawalHitsAnother`).
- The registry's answer is called authoritative, but a zone that comes back under a version still
  recorded for it is not fetched again, and a zone that vanishes is only dropped by a tick that sees
  some other change. `Rebuild.TickReflectsIff` says exactly when a tick ends up with its topology,
  `EdgeHistory.ReturningZoneStaysMissing` shows how it comes about from start-up, and
  `EdgeHistory.HistoryHolds` what is shown after any history.
- On a zone router a shard that comes back under a recorded version is not fetched again either; and
  a zone that loses its last shard keeps its old routes, because the empty result of the sync is taken
  for an error (`ZoneRebuild.TickReflectsIff`; from start-up `ZoneHistory.ReturningShardStaysMissing`
  and `EmptiedZoneKeepsRoutes`; after any history `ZoneHistory.HistoryHolds`).

## Model

| member | source | states |
|---|---|---|
| Protocol.TryDecode | src/protocol.rs:32-86 | a frame found lies within the buffer, is not empty and holds its CLRID with four more bytes behind it; nothing is rejected before five bytes are there (what it accepts, and when it waits, are the rows `DecodesIff` and `NeedMoreIff`) |
| Protocol.NeedMoreIff | src/protocol.rs:32-51 | it waits exactly with fewer than 5 bytes, or with a magic byte and a length of at most 16 MiB that is not there yet; anything else is a frame or an error |
| Utf8.ValidIff | src/protocol.rs:65-66 | a segment is accepted as UTF-8 exactly when it is the concatenated encodings of some Unicode scalar values |
| Bytes.LittleEndian | src/protocol.rs:41 | two and four bytes are read with the least significant first |
| Protocol.DecodeStable | src/protocol.rs:32-86 | every verdict but "need more" is final: later bytes cannot change it |
| Protocol.DecodeRaw | src/protocol.rs:32-86 | a frame laid out from any UTF-8 segment, flag byte, CLRID and tail, followed by anything, decodes to those parts and its own length |
| Protocol.DecodedIsRaw | src/protocol.rs:64-85 | conversely, whatever the decoder accepts is such a layout with exactly the parts reported |
| Protocol.DecodesIff | src/protocol.rs:32-86 | the accepted language and the reported values, as an if and only if |
| Protocol.PrefixNeedsMore | src/protocol.rs:33-35 | self-delimitation: every strict prefix of a frame yields "need more" |
| Protocol.PrependRouterHeader | tests/common/command.rs:66-99 | the client's pushes produce the frame layout with a length-prefixed payload |
| Protocol.EncodeDecodes | tests/common/command.rs:66-99 | what a client encodes the router decodes, whatever follows on the stream, and the payload is still there behind its length |
| Protocol.KeepaliveDecodes | src/protocol.rs:129-155 | the keepalive layout decodes as the control segment, not a write, taking all its bytes |
| Protocol.BuildKeepaliveFrame | src/protocol.rs:129-155 | the bytes pushed are that layout |
| Protocol.FindNextRouterMagic | src/protocol.rs:159-164 | the first magic byte at or behind `from`, or none if there is none |
| FrameStream.SkipGarbage | src/tcp_server.rs:303-318 | bytes without a magic byte can be skipped at any time without changing any later frame |
| FrameStream.GarbageYieldsNothing | src/tcp_server.rs:311-318 | a buffer without a magic byte, kept window included, holds no frame |
| FrameStream.MalformedIsSkipped | src/tcp_server.rs:291-308 | a piece that is no frame and cannot become one, magic byte only in front, is passed over whatever follows |
| FrameStream.ResyncRecovers | src/tcp_server.rs:291-308 | such pieces anywhere between whole frames cost no frame and bring none in |
| FrameStream.EmptyHeaderIsSkipped | src/protocol.rs:53-55 | a magic byte with a two-byte body, too short for a frame, and then any frame give just that frame |
| FrameStream.TakeFirst | src/tcp_server.rs:208-229 | a whole frame at the front of a stream is the first frame of the stream |
| FrameStream.ConcatenationRecovered | src/tcp_server.rs:185-229 | frames back to back, followed by an unfinished piece, are recovered in order |
| FrameStream.LedgerKeepsFrames | src/tcp_server.rs:185-323 | consuming a stream by taking, rejecting and skipping pieces loses no frame and invents none |
| FrameStream.PieceKeepsFrames | src/tcp_server.rs:197-320 | each single take, reject or skip keeps the one-shot reading |
| FrameStream.LedgerAppend | src/tcp_server.rs:185-323 | one more step may be added to a correct account, and adds just the frame it took |
| FrameStream.LedgerConserves | src/tcp_server.rs:229-318 | consumed bytes plus buffered bytes are the bytes received |
| FrameStream.AcceptedAppend | src/tcp_server.rs:209-218 | frames within the limit, put before others, do not change where the limit cuts |
| TcpServer.AnswersAreFramed | src/tcp_server.rs:239-287 | whatever a request is answered with is one response frame under the request's own CLRID |
| TcpServer.Respond | src/tcp_server.rs:239-279 | the response written is the forwarder's, or the error frame of the forwarder's error |
| TcpServer.ProgressMeans | src/tcp_server.rs:185-323 | frames taken plus frames still in the rest are the one-shot reading of the stream |
| TcpServer.TakeStep | src/tcp_server.rs:208-229 | taking the decoded frame keeps the account |
| TcpServer.RejectStep | src/tcp_server.rs:291-301 | dropping the first byte of a rejected parse keeps the account |
| TcpServer.SkipStep | src/tcp_server.rs:303-318 | dropping bytes that hold no magic byte keeps the account |
| TcpServer.Resync | src/tcp_server.rs:291-320 | the buffer shrinks, no magic byte is skipped, and if the loop waits nothing decodable is left |
| TcpServer.AnsweredSnoc | src/tcp_server.rs:238-249 | one more answered request keeps requests and responses in step |
| TcpServer.Serve | src/tcp_server.rs:231-288 | keepalives get no response, every other frame gets one; exactly after a failed write the last response is missing |
| TcpServer.ProcessBuffer | src/tcp_server.rs:185-323 | the inner loop terminates, keeps the account, overflows exactly when it starts over the limit, and otherwise ends with a rest that holds no frame or for its stated reason |
| TcpServer.HandleConnection | src/tcp_server.rs:145-329 | the whole connection: the frames taken are a prefix of the one-shot reading, all of it at end of input, up to the first oversized frame when one ends it; every early end has its reason; every request has its response, in order |
| EndToEnd.ChunkingIndependent | src/tcp_server.rs:163-229 | two connections that read the same bytes in different chunks took the same requests, as far as both got |
| EndToEnd.FrameStandsAlone | src/protocol.rs:41-51 | a frame parses the same without the bytes behind it |
| EndToEnd.DecodedRequests | src/tcp_server.rs:223-229 | the bytes handed on for a frame decode to the very values handed on with them |
| EndToEnd.ForwardedFramesHoldClrid | src/forwarder.rs:107-117 | no frame the connection loop forwards is too short for its CLRID: the internal error cannot occur |
| EndToEnd.StopsBetweenFrames | src/tcp_server.rs:185-229 | on a stream of whole frames consumption stops only between frames |
| EndToEnd.UnfinishedIsShort | src/tcp_server.rs:186-195 | what waits in the buffer of such a stream is shorter than a frame |
| EndToEnd.ProperClientsAreServed | src/tcp_server.rs:186-218 | a client that sends frames within the limit, in reads that leave room for one frame, is never cut off by a size limit, and all its frames arrive in order |
| EndToEnd.ResponsesAreFramed | src/tcp_server.rs:239-288 | the bytes written, cut by the reader's rule, are one frame for each non-keepalive request, in order, under its CLRID; after a failed write just the last one is missing |
| EndToEnd.SegmentsAnswerParses | src/routing_state.rs:163-170 | the GETSEGMENTS answer parses exactly when the snapshot has at most 32767 segments, and then lists each of them once |
| EndToEnd.CodecsAnswerParses | src/forwarder.rs:60-66 | the codecs answer parses to its one field with the joined codecs |
| EndToEnd.ErrorsLookAlike | src/tcp_server.rs:257-279 | whatever went wrong, the client gets the same failure with the same message |
| EndToEnd.MultiplexedAnswersOk | src/forwarder.rs:134-150 | answers that callers of multiplexer runs returned with are what the forwarder relies on |
| Calls.ControlNames | src/forwarder.rs:21-22 | the names of the control segments and of the keepalive, byte by byte |
| Calls.CallIsTheFrames | src/tcp_server.rs:223-240 | a frame taken from any stream is forwarded as what its bytes say: its segment, a write iff the flag byte is 1, its CLRID at its place |
| Calls.FrameGoesWhereItSays | src/tcp_server.rs:227-240 | every hop visited for it belongs to the owner of the bytes behind the segment length, in the snapshot of that attempt; what is sent is the frame but for the CLRID, which is the id of its waiter |
| Calls.FlagDecidesRetries | src/forwarder.rs:151-182 | with flag byte 1 every send but the last found its connection closed and the first other error is answered with code 3; with any other flag byte the call never ends so |
| Calls.ErrorFrameIs | src/protocol.rs:96-125 | the error frames byte by byte: 404, 503, 408 and 500 for unknown segment, network, timeout and internal error |
| Calls.ResponsesAreOutcomes | src/tcp_server.rs:239-279 | the i-th response written is what the i-th non-keepalive frame came to: the answer itself, or the error frame under its CLRID |
| Calls.RealMembers | src/tcp_server.rs:231-236 | the frames that are answered are all but those for the keepalive segment |
| Calls.RealAppend | src/tcp_server.rs:231-236 | in their order, each once |
| ShardStream.CutsAreWhole | src/connection.rs:211-257 | everything the reader cuts is a whole response, so at least 9 bytes long |
| ShardStream.CutsAreInverse | src/connection.rs:211-257 | responses written back to back are cut back into exactly those responses |
| ShardStream.SlidesOverGarbage | src/connection.rs:211-220 | bytes without a response magic are passed over, whatever follows |
| ShardStream.RestampKeepsFraming | src/forwarder.rs:144-148 | another CLRID in bytes 1..5 keeps the framing and changes nothing else |
| ShardStream.FillTo | src/connection.rs:183-209 | an inner read loop loses no byte and ends short only at end of input |
| ShardStream.ReadTurn | src/connection.rs:181-257 | one turn slides by one byte or cuts the next frame of the stream, and ends only when nothing more can be cut |
| ShardStream.ReadResponses | src/connection.rs:178-274 | whatever the chunks, the reader hands over the frames of the whole stream |
| Serializers.ResponseFramedIff | src/protocol.rs:173-177 | a response is well framed exactly when its payload fits the 32-bit length |
| Serializers.SegmentFieldAt | src/protocol.rs:188-202 | fields 2i and 2i+1 are the i-th key and a zero count, with their 16-bit numbers |
| Serializers.PushSegment | src/protocol.rs:188-202 | one turn of the loop appends the two encoded fields of one segment and advances the wrapping counter by two |
| Serializers.PushField | src/protocol.rs:190-193 | the four pushes are one encoded field |
| Serializers.PushSegments | src/protocol.rs:186-202 | the loop appends the fields of all segments and leaves their number modulo 2^16 |
| Serializers.PatchBack | src/protocol.rs:204-211 | the two back-patches turn the placeholders into the count and the payload length of a response |
| Serializers.SerializeGetSegments | src/protocol.rs:167-214 | the two back-patches leave the response frame of the fields, with the right length and count |
| Serializers.SerializeCodecs | src/protocol.rs:216-252 | likewise for the single raw field |
| Serializers.ReadField | tests/common/command.rs:191-212 | the field macro: a field that is read ends behind where it began and inside the data |
| Serializers.ReadEncodedField | tests/common/command.rs:191-212 | an encoded field is read back wherever it stands, to its exact end |
| Serializers.ReadEncodedFields | tests/common/command.rs:191-212 | so is a whole list of fields |
| Serializers.ReadFieldIff | tests/common/command.rs:191-212 | a field is read exactly where the encoding of one stands, up to its end |
| Serializers.ParseSuccessIff | tests/common/command.rs:161-212 | behind the status check, the field macro applied as often as the 16-bit count says reads a payload to its end exactly when the count can hold the number of fields |
| Serializers.ParsesIff | tests/common/command.rs:161-212 | the payloads that parse are the serialised ones of fewer than 65536 fields, and no others |
| Serializers.SegmentsRoundTrip | src/protocol.rs:167-214 | GETSEGMENTS is read to its end exactly for at most 32767 keys, and then gives each key in order with a zero count and ids from 1 on |
| Serializers.BuildErrorResponse | src/protocol.rs:96-125 | the error frame is a response for the given CLRID |
| Serializers.ErrorTextOutsideField | tests/common/command.rs:271-298 | for every code the one field covers a length word, the text lies behind it, and the client extracts 3, 0, 0, 0 as the message |
| Serializers.ExtractsIff | tests/common/command.rs:271-298 | a message is extracted exactly when the first field is a whole field 1 of type 1 |
| CorrelationIds.SameIdIff | src/connection.rs:346-354 | two issues share an id exactly when they are a multiple of 2^32 - 1 apart |
| CorrelationIds.WindowDistinct | src/connection.rs:346-354 | any 2^32 - 1 consecutive ids differ |
| CorrelationIds.NextCounter | src/connection.rs:346-354 | a nonzero counter is the next id; a zero counter is followed by id 1 |
| CorrelationIds.IdSource.NextCorrId | src/connection.rs:346-354 | the k-th id is 1 + k mod (2^32 - 1), never 0; the skip loop ends within two turns |
| Demux.PutFlat | src/demux.rs:49-62 | inserting into the home shard is inserting into the plain map |
| Demux.DropFlat | src/demux.rs:65-69 | removing from the home shard is removing from the plain map |
| Demux.DrainFlat | src/demux.rs:100-105 | draining a shard removes exactly the ids at home there |
| Demux.TotalSizeIsFlatSize | src/demux.rs:114-120 | the shard sizes add up to the size of the plain map |
| Demux.DemuxTable.Insert | src/demux.rs:49-62 | refuses a present id and changes nothing, else adds the entry |
| Demux.DemuxTable.Remove | src/demux.rs:65-69 | returns and removes the entry of the id, if any, and nothing else |
| Demux.DemuxTable.DrainShard | src/demux.rs:100-105 | takes out and lists each entry of one shard |
| Demux.DemuxTable.FailAll | src/demux.rs:97-111 | run alone, fails every entry exactly once and empties the table |
| Demux.DemuxTable.FindExpired | src/demux.rs:73-84 | finds exactly the entries older than the threshold, each once |
| Demux.DemuxTable.Cleanup | src/demux.rs:72-94 | run alone, times out exactly those entries, once each, and keeps the rest |
| Demux.DemuxTable.PendingCount | src/demux.rs:114-120 | the number of entries |
| Multiplexer.InitInv | src/connection.rs:178-320 | the invariant holds at the start |
| Multiplexer.StepCore | src/connection.rs:178-320 | every step of every task keeps: table, reader and drains hold disjoint live waiters, each under its own id |
| Multiplexer.StepIds | src/connection.rs:346-354 | every step keeps the ids issued in sequence |
| Multiplexer.RunInv | src/connection.rs:178-320 | so the invariant holds in every state of every interleaving |
| MultiplexerSafety.ResolvedOnce | src/connection.rs:259-319 | a waiter's outcome never changes once set, `closed` never falls, a caller's return is final |
| MultiplexerSafety.AnswerIsOwn | src/connection.rs:257-302 | an answer is the frame delivered to that caller, a whole response with the id it registered under in bytes 1..5 |
| MultiplexerSafety.Conservation | src/demux.rs:49-111 | registered = pending + in flight + delivered + failed + withdrawn, as disjoint sets and as numbers |
| MultiplexerSafety.PendingIsLive | src/connection.rs:294-318 | an entry never outlives its caller |
| MultiplexerSafety.QuiescentIsEmpty | src/connection.rs:294-318 | once every caller has returned the table is empty |
| MultiplexerSafety.FailAllLeavesNobody | src/demux.rs:97-105 | a fail_all that has passed every shard, interleaved with anything, has left no waiter present when it began in the table |
| MultiplexerSafety.FailAllFailsEveryone | src/demux.rs:97-111 | a fail_all that has drained every shard and notified all it found, interleaved with anything, has failed each waiter present when it began that no response, withdrawal or other fail_all took first |
| MultiplexerSafety.FailAllAccountsForEveryone | src/demux.rs:97-111 | and every other waiter present when it began has an outcome, or is in the hands of the reader or of another fail_all |
| MultiplexerSafety.WindowIdsDiffer | src/connection.rs:346-354 | inside the window live callers have different ids |
| MultiplexerSafety.WindowIsSafe | src/demux.rs:57-68 | inside the window a fresh id is not in the table and a withdrawal can only hit its own entry |
| MultiplexerSafety.CollidesIff | src/demux.rs:57-68 | the entry under a caller's id is another's exactly when one is in the table that was issued a multiple of 2^32 - 1 ids away |
| MultiplexerSafety.WithdrawHitsAnotherIff | src/connection.rs:294-317 | a withdrawal resolves another caller's waiter exactly then |
| MultiplexerSafety.InsertRefusedIff | src/connection.rs:285-290 | a registration is refused exactly then |
| MultiplexerSafety.RunsAreOwnOnlyIff | src/connection.rs:284-317 | over every run, nobody is refused and nobody's entry is withdrawn by another exactly when no registration and no withdrawal meets such an entry |
| MultiplexerSafety.WindowedRunsAreOwnOnly | src/connection.rs:284-317 | over every run inside the window nobody is rejected and nobody's entry is withdrawn by another |
| MultiplexerSafety.LateWithdrawalHitsAnother | src/connection.rs:314-317 | for any number of shards there is a run in which a late withdrawal takes another caller's entry |
| MultiplexerRuns.ResolvedCallerGetsIt | src/connection.rs:300-313 | once a waiting caller has an outcome, in every run from there on it is waiting or has returned with it: the frame delivered, else ConnectionClosed; its own next step returns |
| MultiplexerRuns.ResponseReachesItsWaiter | src/connection.rs:256-264 | a response read off the wire is delivered to the waiter registered under its id and changes nothing for the others |
| MultiplexerRuns.CallGoesThrough | src/connection.rs:292-302 | so a registered caller can always be served: queued, answered and returned with that answer |
| MultiplexerRuns.StrayResponseIsDropped | src/connection.rs:259-273 | a response under an id nobody waits for changes nothing |
| MultiplexerRuns.ReturnsHaveReasons | src/connection.rs:278-320 | over every run: Timeout comes of a timeout, a refusal of a registration, an answer of a frame read, and ConnectionClosed of a close, a failed send, a fail_all or a withdrawal |
| MultiplexerRuns.ClosedIff | src/connection.rs:335-343 | a connection is closed exactly when some step closed it |
| MultiplexerRuns.ClosedAdmitsNobody | src/connection.rs:278-281 | after a close nobody who had not passed the check registers, ever, or returns with anything but ConnectionClosed |
| MultiplexerRuns.NobodyIsStuck | src/connection.rs:278-320 | from every reachable state four steps of its own are enough for a caller to return, whatever the others do |
| MultiplexerRuns.FailAllCanFinish | src/demux.rs:97-111 | from every reachable state a fail_all can come to its end by its own steps |
| MultiplexerRuns.FailAllAlone | src/demux.rs:97-111 | and one that runs without interference fails everyone who was in the table |
| SharedTable.ShardsFollow | src/demux.rs:43-105 | one step on the shards, looking only into the locked one, is that step on the plain table |
| SharedTable.ShardRunFollows | src/demux.rs:43-105 | so for any positive shard count and any interleaved run |
| SharedTable.RunsFollow | src/demux.rs:36-105 | and so from the empty table on |
| Rotation.RoundIsPermutation | src/forwarder.rs:79-83 | a round of n steps from any start reaches each of n places at exactly one step |
| Rotation.StepsForward | src/forwarder.rs:79-83 | a round starts at its start and goes forward by one place, from the last place to the first |
| Forwarder.Forward | src/forwarder.rs:47-204 | control segments are answered locally; any other call comes to the outcome its world dictates, by the visits it dictates |
| Forwarder.SegmentKeys | src/routing_state.rs:163-170 | the key iterator yields each segment of the snapshot once |
| Forwarder.JoinAppend | src/forwarder.rs:60-66 | joined codecs are all parts in order with one comma between any two |
| Forwarder.TryHop | src/forwarder.rs:85-184 | one hop: the frame differs from the client's in the CLRID only, and the call ends exactly on an answer, a bad offset or a write's error |
| Forwarder.TryHops | src/forwarder.rs:79-185 | one attempt visits the hops in order until the call ends, all of them otherwise |
| Forwarder.Route | src/forwarder.rs:68-203 | the retry loops; the guard on `is_write && request_sent` is dead |
| ForwarderSafety.SentIsStamped | src/forwarder.rs:119-134 | every frame sent, in every retry, is the client's but for four bytes, which hold the id its waiter registered under |
| ForwarderSafety.AnswerIsRestored | src/forwarder.rs:137-150 | the client gets the hop's response with its own CLRID in bytes 1..5 and nothing else changed |
| ForwarderSafety.WritesStopAtFirstError | src/forwarder.rs:151-182 | for a write all sends but the last found the connection closed, and the first other error ends the call with Timeout |
| ForwarderSafety.ReadsNeverTimeOut | src/forwarder.rs:172-181 | a read never ends in Timeout |
| ForwarderSafety.DecodedNeverTooShort | src/forwarder.rs:107-117 | for a decoded frame the CLRID lies inside and the internal error is unreachable |
| ForwarderSafety.PassVisitsAll | src/forwarder.rs:78-83 | a completed attempt visits every hop of its snapshot exactly once, starting at clrid mod n |
| ForwarderSafety.RetriesAreBounded | src/forwarder.rs:187-203 | NetworkError comes exactly after all attempts in full, and visits never exceed the hops of the snapshots loaded |
| ForwarderSafety.OutcomeIsDetermined | src/forwarder.rs:68-203 | the world determines result, attempts and visits |
| ForwarderVisits.VisitsAreRouted | src/routing_state.rs:64-74 | every visit goes to a hop of the segment's owner in the snapshot of its attempt, the i-th one to place clrid + i going round, and sends exactly when it found an open connection, which it closes exactly after ConnectionClosed or a read's error |
| ForwarderVisits.AttemptsVisitAll | src/forwarder.rs:79-185 | an attempt that was given up has visited every hop of the segment's owner, each once |
| ForwarderVisits.UnknownSegmentIff | src/forwarder.rs:70-75 | UnknownSegment is returned exactly when the snapshot loaded last has no owner for the segment, no list for the owner or an empty one; the ones before had hops |
| ForwarderVisits.AnswerEndsCall | src/forwarder.rs:137-150 | the first answer is the last visit and, but for the CLRID, the result |
| ForwarderVisits.OutcomeIff | src/forwarder.rs:136-184 | a call succeeds exactly when a visit was answered, and times out exactly when it is a write one of whose sends failed after it was sent |
| Ownership.FoldAt | src/routing_state.rs:42-52 | for any visiting order and any lists, a segment goes to its last claimer, else stays unless its owner's list was replaced |
| Ownership.SyncedOwner | src/routing_state.rs:42-61 | with compatible lists ownership after a sync is described without any order |
| Ownership.ConflictShows | src/rzid.rs:383-465 | two owners listing one segment, one of them kept, make two orders differ |
| Ownership.OrderIndependentIff | src/rzid.rs:383-465 | the outcome is independent of the order exactly when the fetched lists are compatible |
| RoutingState.RouteTable.ReplaceSegments | src/routing_state.rs:42-52 | the retain and the removals and insertions one by one amount to the replacement of one owner's list |
| RegistryKeys.KeysNameTheirZone | src/rzid.rs:363-374 | the keys built for a zone are split back to that zone when its id has no slash |
| RegistryKeys.ZoneOfIff | src/rzid.rs:363-374 | a key names a zone exactly when it is "zones/" and the zone id, with nothing or a slash behind |
| RegistryKeys.KeysDiffer | src/rzid.rs:388-548 | keys of different zones or shards differ, and no key is of two of the four kinds |
| Sync.EdgeSyncShape | src/rzid.rs:345-472 | the edge sync in closed form for every pattern of failed fetches: hops independent of the order, zones only from the manifest, no dangling route |
| Sync.EdgeOrderIndependentIff | src/rzid.rs:383-465 | edge routes do not depend on the hash order exactly when no segment is listed by a zone with routers and another fetched zone |
| Sync.ZoneSyncShape | src/rzid.rs:478-611 | the zone sync in closed form; replies for another zone are ignored; no dangling route |
| Sync.ZoneOrderIndependentIff | src/rzid.rs:547-604 | zone routes do not depend on the order exactly when no segment is listed by two fetched shards |
| SyncSafety.ZonesAre | src/rzid.rs:363-374 | the zones are what stands between "zones/" and the next slash, or the end, in the keys of the manifest |
| SyncSafety.EdgeDetects | src/rzid.rs:309-334 | an edge router finds exactly the router and segment keys of zones changed whose version is not the recorded one |
| SyncSafety.EdgeWatches | src/rzid.rs:309-334 | so for each zone its routers and its segments, and never shards |
| SyncSafety.EdgeRoutersAre | src/rzid.rs:376-420 | after an edge sync a zone of the manifest has the routers that came, else those it had, and no other zone has any |
| SyncSafety.EdgeSegmentsAre | src/rzid.rs:421-471 | a segment named by at most one list that came belongs to a zone exactly when the zone has routers and its list names it, or its list did not come, it held it, and no list names it |
| SyncSafety.EdgeVersionsAre | src/rzid.rs:386-453 | versions are recorded for just what came |
| SyncSafety.EdgeAdopts | src/rzid.rs:455-471 | the result is published unless no zone has routers in it |
| SyncSafety.ZoneDetects | src/rzid.rs:309-334 | a zone router finds exactly the keys changed that are a zone's and contain its id, and the segment lists of shards, whose version is not the recorded one |
| SyncSafety.ZoneWatches | src/rzid.rs:309-334 | so its own topology and every shard's list |
| SyncSafety.ZoneShardsAre | src/rzid.rs:494-539 | the shards are those fetched, if the topology was due or there was none, and came; else the old ones |
| SyncSafety.ZoneSegmentsAre | src/rzid.rs:548-604 | a segment named by at most one list taken belongs to a shard exactly when the shard is in the topology and its list came for our zone and names it, or none was taken for it, it held it, and no list taken names it |
| SyncSafety.ForeignReplyIgnored | src/rzid.rs:565-575 | a reply for another zone gives its shard no segment and records no version |
| SyncSafety.ZoneVersionsAre | src/rzid.rs:494-595 | versions are recorded for just what was taken |
| SyncSafety.ZoneAdopts | src/rzid.rs:606-611 | the result is published unless it has no shard |
| Rebuild.SyncReflects | src/rzid.rs:345-472 | an incremental sync takes a state that is exactly the old topology to one that is exactly the new |
| Rebuild.IncrementalEqualsRebuild | src/rzid.rs:345-472 | and so gives what a sync from nothing gives, whatever the two hash orders |
| Rebuild.TickKeepsStep | src/rzid.rs:309-339 | a tick keeps the state exact and its versions recorded |
| Rebuild.HistoryReflects | src/rzid.rs:266-339 | after any history the state is exactly the topology of the last tick that saw a change |
| Rebuild.HistoryEqualsRebuild | src/rzid.rs:266-472 | from start-up on, a tick that sees a change leaves what a rebuild from scratch would |
| Rebuild.StaleZoneStaysMissing | src/rzid.rs:326-332 | a zone whose old router version is still recorded is not fetched when it comes back, and stays missing |
| Rebuild.TickReflectsIff | src/rzid.rs:274-334 | exactly when a tick ends with its topology: on a change, iff no zone came back under recorded versions; on none, iff the zones are the same |
| EdgeHistory.TickHolds | src/rzid.rs:274-472 | one tick from any state and to any topology: which zones have their routers afterwards, and which of them their segments |
| EdgeHistory.HistoryHolds | src/rzid.rs:266-472 | so after any history from start-up the state is exactly that part of the topology last adopted |
| EdgeHistory.ZoneShownIff | src/rzid.rs:326-393 | after any history, a change shows a zone iff it was shown or comes under another router version than the recorded one |
| EdgeHistory.HoldsAllIff | src/rzid.rs:455-471 | such a state is all of its topology iff every zone has its routers, and its segments unless it lists none |
| EdgeHistory.ReturningZoneStaysMissing | src/rzid.rs:326-376 | from start-up: a zone that vanishes with a change and comes back under its old router version is not shown again |
| EdgeHistory.SuchAHistory | src/rzid.rs:326-376 | there is such a history for any two zone ids and any two segments |
| ZoneRebuild.SyncReflectsIff | src/rzid.rs:478-611 | a zone sync ends with exactly the current shards and segments iff no shard comes back under a recorded version |
| ZoneRebuild.EmptySync | src/rzid.rs:606-608 | from any state, the sync of a zone without shards comes out empty, and the old routes stay |
| ZoneRebuild.TickReflectsIff | src/rzid.rs:274-334 | exactly when a zone tick ends with its topology: no shard came back under a recorded version and the zone did not lose its last shard |
| ZoneRebuild.TickKeepsStep | src/rzid.rs:478-611 | such a tick keeps the state exact and its versions recorded |
| ZoneRebuild.HistoryReflects | src/rzid.rs:266-334 | after any history of such ticks the state is exactly the last topology |
| ZoneRebuild.HistoryEqualsRebuild | src/rzid.rs:266-611 | and so what a rebuild from scratch would give, whatever the two orders |
| ZoneHistory.TickHolds | src/rzid.rs:274-611 | one tick from any state and to any topology: the shards shown afterwards, and which of them have their segments |
| ZoneHistory.HistoryHolds | src/rzid.rs:266-611 | so after any history from start-up, lost and stale shards included |
| ZoneHistory.ShardsShown | src/rzid.rs:494-539 | after any history, a change shows the current shards, unless there are none while some are shown |
| ZoneHistory.EmptiedZoneKeepsRoutes | src/rzid.rs:606-608 | from start-up: a zone whose shards have all gone keeps its routes |
| ZoneHistory.ReturningShardStaysMissing | src/rzid.rs:550-561 | from start-up: a shard that vanishes and comes back under its old version stays without its segments |
| ZoneHistory.SuchAnEmptying | src/rzid.rs:606-608 | there is such a history of a zone that loses its shards |
| ZoneHistory.SuchAReturn | src/rzid.rs:550-561 | there is such a history of a returning shard |
| Hop.Target | src/hop.rs:256 | the target is the configured number, or 1 if that is less |
| Hop.Pick | src/hop.rs:28-41 | returns a connection iff one is live, namely the first live one cyclically from the cursor |
| Hop.LiveCount | src/hop.rs:52-54 | the number of live connections |
| Hop.LiveShrinks | src/hop.rs:257-285 | closing connections never raises the count |
| Hop.Hop.NextConnection | src/hop.rs:180-184 | the cursor moves on by one and the choice is the one from the old cursor |
| Hop.Hop.EnsureConnections | src/hop.rs:255-330 | the set never exceeds max(conn_per_hop, 1) though connections, new ones too, close between the count, the filter and the store; live ones are kept; it reaches the target if nothing fails, and nothing is stored without need or address |
| Hop.Hop.RefillSet | src/hop.rs:279-328 | the filter-open-store half of it |
| Hop.Hop.TryReconnect | src/hop.rs:332-358 | replaces the set by one fresh connection, or leaves it |
| HopManager.HopRegistry.GetOrCreate | src/hop_manager.rs:37-57 | an existing hop is returned unchanged, a missing one is added, no other is touched |
| HopManager.HopRegistry.RetireUnused | src/hop_manager.rs:65-94 | exactly the inactive hops go, by one store, and the others keep their objects |
| Rzid.CreateAll | src/rzid.rs:393-399 | every listed hop exists afterwards and hops were only added on the way |
| Rzid.RzidClient.VisitZone | src/rzid.rs:388-452 | one zone's two fetches, applied or kept |
| Rzid.RzidClient.VisitZones | src/rzid.rs:383-453 | the loop visits every zone once and equals the fold in that order |
| Rzid.RzidClient.SyncEdgeState | src/rzid.rs:345-472 | state, versions and outcome are the edge sync's for the order used; hops were only added, and only those of the new routes |
| Rzid.RzidClient.FetchTopology | src/rzid.rs:494-539 | the shard topology replaced, or kept on failure |
| Rzid.RzidClient.CreateBridges | src/rzid.rs:501-511 | every bridge of the fetched shards has a hop afterwards, and hops were only added |
| Rzid.RzidClient.VisitShard | src/rzid.rs:548-595 | one shard's fetch, applied only for our zone and a new version |
| Rzid.RzidClient.SyncZoneState | src/rzid.rs:478-611 | likewise for the zone sync |
| Refresh.Router.SyncRoutingState | src/rzid.rs:266-303 | with the manifest, the sync's outcome; after success the hops are exactly the snapshot's, otherwise the hops are as before; an edge snapshot names manifest zones only |
| Refresh.Router.SyncByMode | src/rzid.rs:283-293 | the sync proper: an empty result is an error, and then no hop was created |
| Refresh.Router.Tick | src/lib.rs:177-191 | versions and snapshot become the sync's, the hops those of a new snapshot, else nothing changes; a hop in both snapshots is never missing on the way and stays the same object |
| Refresh.Router.RunRefreshTask | src/lib.rs:171-193 | any run is a chain of such ticks, from the state it started in to the state it ended in |
| RefreshSafety.RunAgrees | src/lib.rs:177-191 | at every tick boundary of every run, failed and empty syncs included, the registry's hops are the published snapshot's and no route dangles |
| RefreshSafety.HopSurvives | src/hop_manager.rs:37-94 | a hop named by every snapshot of a stretch of a run keeps its object, in every map a reader could load meanwhile |
| RefreshSafety.StepIsTick | src/rzid.rs:266-303 | one step of an edge router's refresh task is one tick of its history, empty results included |
| RefreshSafety.RunIsHistory | src/lib.rs:171-193 | over whole runs, ticks without a manifest left out |
| RefreshSafety.RunHolds | src/lib.rs:171-193 | so the published routes after any edge run are what its history leaves of each zone |
| RefreshSafety.RunPublishesRebuild | src/lib.rs:177-183 | in any edge run a tick that sees a change publishes exactly the rebuild from scratch |
| RefreshSafety.TickPublishesRebuild | src/rzid.rs:345-472 | from a state in step, one sync's outcome is the rebuild |
| RefreshSafety.ZoneRunReflects | src/lib.rs:171-193 | in any zone run the published snapshot is exactly the shard topology heard of last |
| RefreshSafety.ZoneRunPublishesRebuild | src/lib.rs:177-183 | and so equals a rebuild from scratch after every manifest |

## Left out

- Sockets, HTTP fetches, JSON, tracing, metrics, command line, configuration files, the API server, heartbeats and runtime wiring.
- UTF-8 is a predicate on bytes (section 4 of RFC 3629); strings of the registry are Dafny strings.
- Address resolution, sleeps, backoff and the health states of a hop (src/hop.rs:211-253), and the `Recovering` mark in `ensure_connections`.
- Keepalive sending, `send_raw` and the writer task's queue: only whether a frame could be queued is modelled. The writer's end is a `fail_all` and a rise of `closed` in either order.
- Bytes of a response whose write failed half-way: `written` holds whole responses. A failed flush of a forwarded answer counts as a failed write; that of an error frame is ignored, as in the program.
- At-most-once delivery of writes: ConnectionClosed is also reported by `fail_all` after a frame was sent, and is retried.
- The round-robin cursor's wrap at 64 bits, and 16 MiB frames' memory.
- The debug profile's overflow panic when more than 32767 segments are listed; the release profile's wrap is modelled.
- Serializers.ParsePayload: reads any fields; the five typed fields GETPROPROOMDAY insists on (tests/common/command.rs:183-256) and the lossy UTF-8 conversion of an error message are not modelled.
- `get`, a plain look-up in the current map: a call's world says which hops it finds.
- The race branch of `get_or_create` and shutdown of retired hops: one task writes the registry, readers see the maps stored.
- `EdgeState` and `ZoneState` are one class, `RouteTable`; they differ in names and in which retain is used.
- Decode-then-encode identity does not hold: any flag byte but 1 reads as false and the inner shard length is not checked. `Protocol.DecodedIsRaw` says what is kept.
- "A recorded version implies that the content is in the snapshot" does not hold after failed fetches, so the rebuild results assume that fetches succeed.
- Demux.DemuxTable.Cleanup: stated for a run without interference; no caller of it exists in the program.
- A waiter that registers behind a running `fail_all` is left to its timeout, as in the program; `MultiplexerSafety.FailAllLeavesNobody` speaks of those present when it began.
- The `buf.is_empty()` branch of the resync: a parse error needs five bytes (`Protocol.TryDecode`), so it cannot be taken.
