# qrpc: a verified model

qrpc is a small RPC stack over QUIC streams. A client encodes a request with a generated protobuf codec, frames it
in a pooled buffer, writes it to one of 32 streams of a connection and waits on a pooled capacity-1 channel that it
has entered in a sharded table under the request's id. The server reads frames off each stream, runs the registered
handler, and writes a response frame with the same id; a reader goroutine of the client decodes it, takes the channel
out of the table and delivers the response.

This project models that path from the varint loop to the value `SendRequest` returns, and proves what holds for
every message, every byte string, every interleaving of callers and readers, and every run of client, streams and
server together. Beside it are the stream balancer, stream opening, the batchers, and the latency statistics of the
stress tester. `dafny verify dfyconfig.toml` checks everything.

| module | what it holds |
|---|---|
| `Wire` | machine integers, the varint loop and writer, skipping one unknown record |
| `Codec`, `CodecTheorems` | the generated size function, backward marshaller and parser; round trip, merge, canonical form |
| `Framing`, `Encoder` | frames on a byte stream; `encodeMessage` in pooled buffers |
| `Layout` | the bytes of records, fields and frames in the numbers of the schema and the frame format |
| `Server`, `ServerTheorems` | the server's loop over one stream, against what it must send |
| `ClientReader` | the client's read loop over one stream |
| `Client`, `Correlation`, `Orderliness`, `ClientTheorems` | request/response correlation as interleaved atomic steps |
| `System`, `NetRuns`, `Conformance` | client, byte streams and server composed: end to end; the composed server is the loop |
| `Scenario`, `Exactness`, `SharedIds`, `Guards` | the faults that break correlation, and exactly when it holds |
| `Submission`, `Answering`, `Events` | requests and events as the application submits them: ids drawn, replies, order |
| `Supply`, `Progress`, `Conservation` | without faults nothing is lost, and waiting calls can be answered |
| `Aliasing` | handlers that answer with the request's own body, over an explicit heap |
| `Balancer`, `ShardedMap`, `Multiplexer`, `Metrics` | the supporting components |

Main results:

* **End to end** (`System.EndToEnd`): in every run of client, streams and server, whatever is cancelled, closed or
  fails, a call whose id no other call has, and whose channel nothing referred to when it was stored, gets the code,
  headers and body that the registered handler produces for that very request.
* **End to end, exactly** (`SharedIds.EndToEndExactly`): for a server that tells two requests apart, all runs give
  every call its own handler's reply if and only if ids are distinct and no call can give up a request that may have
  gone out: no cancellation, no close while a call waits, no write that reports an error after its frame went out.
  Errors before sending leave a stale table entry behind but are harmless, because only requests that were sent are
  answered. Two calls that share an id mix without any fault: the second `Store` replaces the first entry.
* **Correlation against any peer, exactly** (`Guards.OwnIdsExactlyWithoutFaults`): if the peer may send anything,
  responses stay with their ids if and only if no call can give its channel up at all, before or after sending.
  On cancel and close the channel is pooled before its table entry is deleted (`client.go:181-189`); on a send error
  `Delete(req.RequestId)` comes after `ReleaseRequest` has reset the id (`client.go:137-139`), so the entry stays.
* **From submission to reply** (`Submission.SubmittedEndToEnd`, `Answering.NewRequestIsAnswered`): a request goes out as
  submitted, with its own id or the first draw that is not zero; if the ids drawn are distinct, each response is the
  handler's reply to the request submitted for that call, and from any state reached without faults a request
  submitted now can be brought to return it. Events are handled in the order submitted
  (`Events.EventsAreHandledInOrder`).
* **Nothing is lost** (`Conservation.NothingIsLost`, `Progress.NoResponseIsLost`): in every run without faults and with
  distinct ids, as long as no server loop has returned, a waiting call's request is still on its way up a stream or the
  call can be brought to return its own handler's reply; so can a call whose request is next on a stream.
* **The composed server is the loop** (`Conformance.ServerConforms`): in every run, what the server has written to a
  stream is what its imperative loop writes on the bytes it has read there, failing writes included.
* **Aliasing, exactly** (`Aliasing.EchoIsFaithfulExactly`): a handler may answer with the request's own body, which goes
  back to the pool before the response is encoded (`server.go:208-214`), if and only if it copies it or only one
  goroutine serves requests. Otherwise another request can be parsed into the same array first.
* **Codec**: the messages that survive marshalling and parsing are exactly the well-formed ones
  (`CodecTheorems.RoundTripExactly`); any accepted byte string re-marshals to a canonical form no longer than itself
  (`CodecTheorems.Canonicalisation`); parsing a concatenation merges (`CodecTheorems.MergeLaw`). What the bytes are is
  stated in the schema's own numbers (`Layout.RecordTag`, `Layout.EncodedFields`, `Layout.FrameLayout`).
* **Frames**: the pooled encoder's frame depends on the message alone, over any history of encodes and releases
  (`Encoder.RunHistory`), and a stream of frames reads back as the messages written (`Framing.StreamRoundTrip`).
* **Server**: the imperative loop sends exactly one response per decodable request, in order, up to the stop, which a
  failing write may be (`Server.StreamReadCycle` with `ServerTheorems.ServerRun`).

Conventions. Bytes are integers below 256; 64- and 32-bit wrap-around is written out where the code relies on it. A
byte slice has fewer than 2^63 bytes, as in Go. `Request` and `Response` have the same generated code but for field 5,
so there is one codec with the schema as parameter. `protohelpers` is not part of the repository: `EncodeVarint`,
`SizeOfVarint` and `Skip` follow the Protocol Buffers Encoding specification ("Base 128 Varints", "Message
Structure"). The zstd pair is two arbitrary functions with `decompress(compress(x)) == x`. Fields marked as history in
`Client` (`origin`, `got`, `put`, `sent`, `clean`, `serial`, `decoded`) are written by steps and never read by their
guards or by the real fields' updates. A message is sent, and a turn of the server taken, in the composed model only
if its frame can carry it: a payload of 2^32 - 1 bytes or more makes the length field wrap (`Framing.FrameLengthExact`).

## Model

| member | source | states |
|---|---|---|
| Wire.OrIsAddition | protos/pb/gen/schema_vtproto.pb.go:220-220 | or-ing bits in above the ones already present is addition |
| Wire.OrGroup | protos/pb/gen/schema_vtproto.pb.go:220-220 | one turn of the varint loop adds the shifted group modulo 2^width, also when the shift drops bits or exceeds the width |
| Wire.ReadVarint | protos/pb/gen/schema_vtproto.pb.go:211-224 | the or-and-shift loop returns the sum of the 7-bit groups modulo 2^64 (2^32 for the code), or the overflow or truncation error, and never indexes out of range |
| Wire.VarintRoundTrip | protos/pb/gen/schema_vtproto.pb.go:305-318 | a written varint of up to 64 bits reads back as its value and the reader stops right after it |
| Wire.VarintSizeMinimal | protos/pb/gen/schema_vtproto.pb.go:157-157 | the size added for a varint is the least number of groups that hold the value |
| Wire.EncodeVarint | protos/pb/gen/schema_vtproto.pb.go:54-59 | fills exactly the `SizeOfVarint` bytes before the offset with the varint and leaves every other byte alone |
| Wire.UvarintLocal | protos/pb/gen/schema_vtproto.pb.go:211-224 | a varint is determined by the bytes it consumes, wherever they stand |
| Wire.SkipLocal | protos/pb/gen/schema_vtproto.pb.go:353-366 | a skipped record, nested groups included, is determined by the bytes it consumes |
| Codec.ReadTag | protos/pb/gen/schema_vtproto.pb.go:210-232 | field number as a truncated `int32`, wire type, and the two illegal-tag errors |
| Codec.ReadDelimited | protos/pb/gen/schema_vtproto.pb.go:235-265 | under 64-bit wrap-around of length and index the slice taken is in range, or one of the three errors is returned |
| Codec.PooledMessage.UnmarshalField | protos/pb/gen/schema_vtproto.pb.go:209-367 | one turn of the parser applies exactly the record at the index to the fields, or returns that record's error |
| Codec.PooledMessage.UnmarshalVT | protos/pb/gen/schema_vtproto.pb.go:205-374 | for every byte string the parser terminates; it accepts exactly what the record grammar accepts and leaves the records applied in order to what the object held |
| Codec.PooledMessage.Release | transport/quic/client/multiplexer.go:270-290 | a released message is empty |
| Codec.SizeVT | protos/pb/gen/schema_vtproto.pb.go:148-203 | the size computed without writing is the exact length of the encoding |
| Codec.PutHeaders | protos/pb/gen/schema_vtproto.pb.go:70-78 | the descending loop leaves the headers' fields in list order in front of what was written before |
| Codec.MarshalToSizedBufferVT | protos/pb/gen/schema_vtproto.pb.go:39-146 | writes exactly the encoding at the end of the slice, never below its start, and changes no byte outside it |
| Codec.MarshalVT | protos/pb/gen/schema_vtproto.pb.go:21-32 | on a buffer of the computed size the backward writer ends at index 0 |
| CodecTheorems.NextRecordLocal | protos/pb/gen/schema_vtproto.pb.go:208-368 | every record is determined by its own bytes, at any position in any slice |
| CodecTheorems.RecordsConcat | protos/pb/gen/schema_vtproto.pb.go:208-368 | the records of a concatenation are the records of the parts, and it parses if and only if the second part does |
| CodecTheorems.ParseConcat | protos/pb/gen/schema_vtproto.pb.go:208-368 | parsing a ++ b is parsing b into the result of parsing a, and one is accepted exactly when the other is |
| CodecTheorems.MergeLaw | protos/pb/gen/schema_vtproto.pb.go:208-368 | if a and b parse, a ++ b parses to: scalars of b where present, else of a; headers and unknown fields appended |
| CodecTheorems.EncodeReadBack | protos/pb/gen/schema_vtproto.pb.go:100-146 | the encoding of a well-formed message is read as exactly its records in field order |
| CodecTheorems.RoundTripInto | protos/pb/gen/schema_vtproto.pb.go:205-563 | parsing an encoding into any message lays the encoded one over it |
| CodecTheorems.RoundTrip | protos/pb/gen/schema_vtproto.pb.go:39-563 | parsing the encoding into an empty or released message gives back every field, empty headers and unknown fields included |
| CodecTheorems.RoundTripExactly | protos/pb/gen/schema_vtproto.pb.go:39-563 | the round trip holds if and only if the fields fit their widths and the unknown fields are whole unknown records |
| CodecTheorems.RecordCost | protos/pb/gen/schema_vtproto.pb.go:205-374 | re-encoding a record takes no more bytes than it was read from, over-long varints included |
| CodecTheorems.ParsedMessage | protos/pb/gen/schema_vtproto.pb.go:205-563 | whatever the parser accepts is well formed and encodes in no more bytes |
| CodecTheorems.Canonicalisation | protos/pb/gen/schema_vtproto.pb.go:39-563 | for every accepted byte string, marshalling the message and parsing again gives the same message, in no more bytes |
| Layout.Truncations | protos/pb/gen/schema_vtproto.pb.go:225-226 | conversions to `int64` and `int32` keep the value modulo 2^64 and 2^32 |
| Layout.VarintMeans | protos/pb/gen/schema_vtproto.pb.go:211-224 | a varint ends with the first byte below 128; ten bytes without one are an overflow, fewer at the end of the data a truncation |
| Layout.VarintBytes | protos/pb/gen/schema_vtproto.pb.go:54-59 | the written groups are least significant first, all but the last with the high bit |
| Layout.RecordTag | protos/pb/gen/schema_vtproto.pb.go:225-366 | every accepted record's tag carries its schema number and wire type: headers 1, method 2, id 3, body 4, code 5 in a response only, any other number unknown |
| Layout.BadTagRejected | protos/pb/gen/schema_vtproto.pb.go:227-236 | end markers, numbers below 1 and known fields with a foreign wire type are rejected with their errors |
| Layout.DelimitedExactly | protos/pb/gen/schema_vtproto.pb.go:238-265 | in plain arithmetic: the length is the varint's value, and its bytes are taken if they are there, else which error |
| Layout.RecordValue | protos/pb/gen/schema_vtproto.pb.go:233-367 | the value of each kind of record is what stands after its tag, the code truncated to 32 bits, an unknown record all its bytes |
| Layout.EncodedFields | protos/pb/gen/schema_vtproto.pb.go:100-135 | each field's bytes begin with 0x12, 0x18, 0x22 or 0x28, then value or length and content; defaults are left out |
| Layout.EncodedHeaders | protos/pb/gen/schema_vtproto.pb.go:136-144 | each header is 0x0a, its length and its bytes, in list order, empty ones included |
| Layout.EncodedInOrder | protos/pb/gen/schema_vtproto.pb.go:100-146 | a message is its fields in the order of their numbers, then its unknown fields |
| Layout.SkippedLength | protos/pb/gen/schema_vtproto.pb.go:353-366 | a skipped record takes a varint, eight bytes, a length and as many bytes, or four bytes after its tag, by wire type |
| Layout.SkippedGroup | protos/pb/gen/schema_vtproto.pb.go:353-366 | a skipped group ends with its own end marker, the first that is not inside a record of the group |
| Framing.FrameReadBack | internal/encoder.go:120-122 | a frame in front of anything is read as its flag and payload, and nothing of what follows |
| Framing.FrameLengthExact | internal/encoder.go:121-121 | the `uint32` length delimits the payload if and only if it is shorter than 2^32 - 1 |
| Framing.PackedReadBack | transport/quic/client/multiplexer.go:253-260 | compressed or not, the payload decodes to its kind and message on the side that expects it |
| Framing.EncodeFrameReadBack | internal/encoder.go:61-125 | one encoded frame at the head of a stream decodes to its message and leaves the reader aligned |
| Framing.StreamRoundTrip | transport/quic/client/multiplexer.go:113-180 | reading the concatenated frames of any list of messages yields the same kinds and messages in order |
| Layout.FrameLayout | internal/encoder.go:104-122 | every frame: big-endian length of what follows modulo 2^32, flag 1, 2 or 3 by kind and three more if compressed, and the encoding, compressed only above 16384 bytes and if shorter |
| Layout.ReadLayout | transport/quic/client/multiplexer.go:132-162 | what a reader takes from any bytes, by the big-endian number in the first four |
| Layout.FlagMeans | server.go:178-268 | what each flag from 1 to 6 means to each side, and that no other means anything |
| Encoder.BufferPool.GetBuffer | internal/encoder.go:127-136 | the buffer has exactly the requested length, whichever pooled or new buffer it is, and is no longer in the pool |
| Encoder.BufferPool.Release | internal/encoder.go:25-32 | the buffer is back with its full capacity and nothing used |
| Encoder.FillFrame | internal/encoder.go:97-122 | marshalling, compressing in place and writing the header leave exactly the frame, whatever bytes the buffer held |
| Encoder.BufferPool.EncodeMessage | internal/encoder.go:88-125 | the frame is a function of the message alone, `used` is 5 plus the payload, and no buffer in use is touched |
| Encoder.EncodeBeside | internal/encoder.go:88-125 | encoding one more message leaves all frames in use intact and all buffers separate |
| Encoder.ReleaseAmong | internal/encoder.go:25-38 | releasing one buffer leaves all other frames in use intact |
| Encoder.RunHistory | internal/encoder.go:25-136 | over any history of encodes and single releases, the buffers given back held, in order, exactly the frames of their messages |
| Server.ReadOne | server.go:129-176 | reading length, flag and payload into reused buffers yields the frame at the head of the stream and consumes exactly it |
| Server.DecodeInto | server.go:180-195 | succeeds exactly when the payload decompresses and parses, and then holds that message |
| Server.Respond | server.go:206-228 | one response frame is written, the handler's reply under the request's id, if the stream takes it, and nothing otherwise; the request is released before encoding, both objects and the buffer in any case |
| Server.Dispatch | server.go:178-257 | answers, handles, ignores or stops as the flag, payload, registered handlers and the outcome of the write demand; nothing is written unless a request is answered |
| Server.StreamReadCycle | server.go:117-259 | on any stream whose responses fit in memory, and whose writes may fail from any point on, the whole loop with its reused buffers writes exactly the specified responses' frames and handles exactly the specified events |
| ServerTheorems.ServeItem | server.go:123-257 | the loop returns at a zero length, at a request for an unregistered method and at a request whose write fails, and at nothing else; otherwise it answers a request, handles an event that has a handler, and goes on |
| ServerTheorems.ServerRun | server.go:117-259 | the responses are, in order, one for each decodable request before the first zero length, unregistered method or failed write, with its id and its handler's code, headers and body, and no other |
| ServerTheorems.EventRun | server.go:230-256 | the events handled are, in order, the decodable ones before the stop whose method has a handler |
| ServerTheorems.StopIndexIsFirst | server.go:145-204 | when writes do not fail, the loop stops at the first zero length or unregistered method |
| ServerTheorems.SilentItemIsInvisible | server.go:178-257 | an event with or without a handler, an unknown or response flag, or a payload that does not decompress or parse changes no response before or after it |
| ServerTheorems.OutputReadBack | server.go:214-222 | reading the server's output yields its responses and only responses |
| ClientReader.DecodeFrame | transport/quic/client/multiplexer.go:177-249 | a message from the pool takes in exactly the message in the frame, for all three kinds, and stays out of the pool; it goes back if the frame does not decode |
| ClientReader.Accept | transport/quic/client/multiplexer.go:177-249 | a response object is handed on unreleased, requests and events go back to the pool, and no object handed on before changes |
| ClientReader.ReadCycle | transport/quic/client/multiplexer.go:105-251 | the read loop with its reused buffers and pooled messages hands on exactly the responses on the stream, in order, in objects that are all different and that no later frame overwrites |
| ClientReader.ServerOutputIsHandedOn | transport/quic/client/multiplexer.go:177-203 | what the server writes for a list of responses is handed on as exactly that list |
| Client.LinearStep | client.go:122-221 | every step, faults included, keeps channels linear: at most one owner, never owned and pooled, never pooled twice |
| Correlation.NoRefBeforeStore | client.go:133-134 | nothing in the table, with a reader or in a channel comes from a call that has not stored its channel yet |
| Correlation.CorrelatedDeliver | transport/quic/client/multiplexer.go:194-203 | a delivery moves the reader's reference into the channel or drops it, and keeps the invariant |
| Correlation.ReceivesOwnId | client.go:191-193 | a call whose channel was clean at `Store` receives a response with its own id |
| Correlation.CleanChannelIsEmpty | transport/quic/client/multiplexer.go:196-200 | the channel of such a call is empty when a reader comes with its response |
| Correlation.CorrelatedStep | client.go:122-221 | every step, faults included, keeps: each `Store` is referred to from at most one place, under its own id, and a clean channel only by its own call's `Store` |
| Orderliness.OrderlyStep | client.go:122-195 | a step that does not give a sent request's channel up keeps every reference with the call that keeps the channel, or with one whose request never went out |
| ClientTheorems.UniqueStep | transport/quic/client/multiplexer.go:185-203 | every step keeps each decoded response in at most one place |
| ClientTheorems.ChannelLinearity | client.go:122-195 | in every run a returned call has put back exactly the one channel it got, no two calls own one channel, and no response reaches two calls |
| ClientTheorems.CleanReplyHasOwnId | client.go:191-193 | in every run, with faults, colliding ids and any peer, a call whose channel nothing referred to at `Store` gets a response with its own id |
| ClientTheorems.CleanResponseIsDelivered | transport/quic/client/multiplexer.go:196-200 | in every run such a call's response is never dropped for want of room in the channel |
| ClientTheorems.CorrelationSafety | transport/quic/client/multiplexer.go:194-203 | without give-ups every channel in the table or with a reader is empty and kept by the call that stored it under that id, so the `default` branch of the channel send is never taken, and every response received bears its request's id |
| ClientTheorems.ClosedClientRejects | client.go:123-127 | a call begun after the client was closed is never sent, takes no channel and returns rejected, in every run |
| ClientTheorems.SlotStays | transport/quic/client/multiplexer.go:196-200 | a response in a channel stays until its call receives it, whatever else is sent to the channel |
| ClientTheorems.AbandonedLeavesNoEntry | client.go:181-189 | a call that gave up waiting has deleted its entry by the time it returns, if its id is its own |
| ClientTheorems.SendErrorDeletes | client.go:138-138 | a send error deletes exactly the entry under the id the released object has at that moment |
| Scenario.Abandons0 | client.go:181-189 | cancelling or closing while waiting pools the channel with its entry still in the table |
| Scenario.Deletes0 | client.go:137-139 | a send error deletes key 0 and leaves the call's own entry in the table |
| Guards.NetReachesClient | client.go:122-221 | every run of the composed system is, on the client's side, a run against an arbitrary peer with the same faults |
| Guards.FaultMixesResponses | client.go:137-189 | each of the four faults alone has a run that gives a call a response with another id, the peer being arbitrary |
| Guards.OwnIdsExactlyWithoutFaults | client.go:122-195 | against an arbitrary peer all runs keep responses with their ids if and only if no call can cancel, be closed while waiting, or fail to send, early or late |
| System.EventKeeps | client.go:122-221 | every step of client, streams and server keeps: bytes upward are frames of events and of requests that were sent, bytes downward are frames of handlers' responses to them |
| System.ExecutionKeeps | client.go:122-221 | every run of client, streams and server from a state with that invariant ends in one |
| System.ReplyIsGenuine | server.go:178-228 | in every run each response received is what the registered handler produces for some request that was sent |
| System.EndToEnd | client.go:197-221 | in every run a call with an id of its own and a clean channel gets the code, headers and body its handler produces for that very request |
| System.OnlyResponsesComeDown | transport/quic/client/multiplexer.go:205-230 | only flags 2 and 5 ever come down, so the branch that asserts a request channel is never reached and the client does not panic |
| Exactness.HarmlessFaultsKeepReplies | client.go:122-221 | with distinct ids and no give-up of a request that may have gone out, every call gets its own handler's reply, also on channels that failed sends left entries for |
| Exactness.HarmfulFaultMixesReplies | client.go:159-189 | cancelling, closing and a late write error each have a run with distinct ids and this very server that gives a call another request's response |
| Exactness.OwnRepliesExactly | client.go:122-221 | for any server that answers some request, all runs with distinct ids give every call its own handler's reply if and only if no call can cancel, be closed while waiting, or see a write fail after its frame went out |
| SharedIds.SharedIdMixesReplies | client.go:133-134 | for any server and two requests under one id with different replies, some run without faults gives a call the other's reply |
| SharedIds.EndToEndExactly | client.go:122-221 | all runs give every call its own handler's reply if and only if ids are distinct and no call can give up a request that may have gone out |
| Supply.SuppliedStep | client.go:133-195 | without give-ups and with distinct ids no step loses the reference to a call's channel |
| Progress.ResponseArrives | transport/quic/client/multiplexer.go:105-203 | from any state reached without faults, a waiting call whose response is anywhere on a stream, however many are in front of it, has a continuation in which it returns its own handler's reply |
| Progress.NoResponseIsLost | client.go:177-195 | so has a waiting call whose request is next on a stream whose loop has not returned |
| Conservation.EventConserves | client.go:122-221 | every event keeps: while no server loop has returned, each waiting call's request is on a stream or its response on its way |
| Conservation.NothingIsLost | client.go:122-221 | in every such run a waiting call's request is still on its way up, or the call can be brought to return its own handler's reply |
| Conformance.ServeAppend | server.go:117-259 | the loop on whole frames and what follows them does what it does on the first, then on the rest |
| Conformance.EventTied | server.go:123-228 | every event of the composed system keeps what the server has written to a stream tied to what it has read there |
| Conformance.ServerConforms | server.go:117-259 | in every run the bytes written to a stream are the response frames the loop writes on the bytes read from it, with as many writes as succeeded |
| Submission.BeginDraws | client.go:197-207 | a call's request is the one submitted with only the id changed: kept if not zero, else the first draw, else the second |
| Submission.ExecutionSubmits | client.go:129-131 | in every run each call bears a request that was submitted, with the id drawn for it |
| Submission.DrawnIdsAreDistinct | client.go:203-205 | ids in a run are distinct if the ids drawn are |
| Submission.RandomIdsAreDistinct | client.go:203-205 | requests submitted without ids get distinct ones if the first draws are distinct and not zero |
| Submission.SubmittedEndToEnd | client.go:197-221 | with distinct draws and no give-up of a sent request, each response is the handler's reply to the request submitted for that call |
| Submission.CleanSubmittedEndToEnd | client.go:197-221 | the same in any run for a call with a clean channel |
| Events.EventsAreHandledInOrder | client.go:223-263 | in every run the events handled on a stream are, in order, the first of those submitted there that have a handler, each with id 0 |
| Answering.NewRequestIsAnswered | client.go:122-221 | from any state reached without faults, of an open client, a request submitted now, with or without an id, can be brought to return its handler's reply |
| Answering.RequestIsAnswered | client.go:197-221 | in particular the first request of a run |
| Answering.EchoIsAnswered | README.md:43-46 | a server that sends a copy of the request's body back returns any body of up to 2^32 - 32 bytes |
| Aliasing.SoundStep | server.go:186-215 | with copying handlers or a single goroutine every step leaves each body in use as it arrived |
| Aliasing.SharedArrayRun | server.go:206-215 | otherwise a run exists in which a released request's array is overwritten before the response that shares it is encoded |
| Aliasing.EchoIsFaithfulExactly | ctx.go:149-151 | answering with the request's own body, by reference, is right in all runs if and only if it is copied or only one goroutine serves requests |
| Balancer.BalancerImpl.GetStream | transport/quic/balancer.go:37-47 | the stream at the old counter modulo the list's length; an empty list is an error and does not count |
| Balancer.BalancerImpl.AddStream | transport/quic/balancer.go:49-63 | appends in a fresh snapshot; the old snapshot is unchanged for whoever still reads it |
| Balancer.BalancerImpl.Reset | transport/quic/balancer.go:65-81 | counter zero, empty list, and every old stream closed in order |
| Balancer.BalancerImpl.PickMany | transport/quic/balancer.go:37-47 | any number of calls over a fixed list, through wraps: which stream each picks and how often each stream occurs |
| Balancer.CountClosedForm | client.go:109-112 | how often each index is picked in any number of picks from counter 0, through wraps |
| Balancer.WindowHitsEachOnce | transport/quic/balancer.go:45-46 | any n consecutive picks that cross no wrap hit each of n streams exactly once |
| Balancer.FairUpToWraps | transport/quic/balancer.go:45-46 | after N picks the counts differ by at most 1 + floor(N / 2^32) |
| Balancer.EvenIffDivides | transport/quic/balancer.go:45-46 | wraps never make picks uneven if and only if n divides 2^32 |
| Balancer.ThirtyTwoStreamsAreEven | client.go:94-94 | the 32 streams of a connection are picked evenly for ever |
| ShardedMap.ShardedMapImpl.Store | internal/shardedmap.go:24-29 | the one map the shards stand for is updated at the key, and the shards stay a partition |
| ShardedMap.ShardedMapImpl.LoadAndDelete | internal/shardedmap.go:31-40 | returns what the one map held and removes the key |
| ShardedMap.ShardedMapImpl.Delete | internal/shardedmap.go:42-47 | removes the key from the one map |
| ShardedMap.ShardsPartition | internal/shardedmap.go:24-25 | key k is in shard k mod 256 and in no other |
| ShardedMap.TakenAtMostOnce | internal/shardedmap.go:31-40 | over any history each stored value is returned by at most one `LoadAndDelete`, and for its own key |
| ShardedMap.Replay | internal/shardedmap.go:16-47 | any history of operations returns on the 256 shards what it returns on a single map |
| Multiplexer.Start | transport/quic/client/multiplexer.go:61-79 | for any failure pattern the loop ends exactly when c opens have succeeded and has then added exactly those c streams, despite the `uint16` decrement at 0 |
| Multiplexer.Batcher.Write | transport/quic/client/batcher.go:31-49 | is the critical section followed, on an empty buffer, by the stream write, as steps of the interleaving model; reports the write's error |
| Multiplexer.Batcher.Flush | transport/quic/client/batcher.go:51-68 | is the critical section followed, on a non-empty buffer, by one stream write, as steps of the interleaving model |
| Multiplexer.BufferedInOrder | transport/quic/client/batcher.go:46-68 | a buffer that is not empty takes data in order, and a flush hands it all over in one piece |
| Multiplexer.PassThroughStep | transport/quic/client/batcher.go:31-68 | every step, failing writes included, keeps all buffers empty and every submitted frame written, refused or about to be written |
| Multiplexer.BatchersPassThrough | transport/quic/client/multiplexer.go:81-89 | in every interleaving, with duplicate batchers for a stream, all buffers are empty and each frame submitted has been written exactly once, has been refused by the stream once, or is about to be written |
| Metrics.Aggregate | stress_tester/internal/metrics/collector.go:106-125 | counts, 64-bit total, extremes and latencies of the successful samples |
| Metrics.AverageExact | stress_tester/internal/metrics/collector.go:151-151 | the average is the truncated mean if and only if the total stays below 2^63 |
| Metrics.AverageBetween | stress_tester/internal/metrics/collector.go:151-153 | avg never exceeds max, and min <= avg if and only if the 64-bit total, overflowed or not, is at least min times the count (above minus the count if min is 0) |
| Metrics.OverflowedAverage | stress_tester/internal/metrics/collector.go:151-151 | with overflow the average can lie below the minimum |
| Metrics.PercentileIs | stress_tester/internal/metrics/collector.go:180-186 | with the values spread evenly over 0 to 100, a percentile is linear between neighbours |
| Metrics.PercentileAtValue | stress_tester/internal/metrics/collector.go:180-186 | at the position of a value it is that value |
| Metrics.PercentileMonotone | stress_tester/internal/metrics/collector.go:170-187 | interpolated percentiles grow with p and stay within the sample |
| Metrics.ReportOrdered | stress_tester/internal/metrics/collector.go:152-158 | min <= P50 <= P90 <= P95 <= P99 <= P99.9 <= max in whole nanoseconds |
| Metrics.LatenciesAre | stress_tester/internal/metrics/collector.go:112-123 | the latencies are the durations of the successful samples, in order, and as many |
| Metrics.BucketBounds | stress_tester/internal/metrics/collector.go:191-207 | which bucket, by name, each latency in nanoseconds falls in |
| Metrics.BuildDistribution | stress_tester/internal/metrics/collector.go:189-218 | under each bucket's name, and no other, the number of latencies whose first fitting bucket it is |
| Metrics.CountsAddUp | stress_tester/internal/metrics/collector.go:209-216 | the bucket counts add up to the number of latencies |
| Metrics.MakeReport | stress_tester/internal/metrics/collector.go:96-168 | successes are the successful samples, successes + errors = total, each bucket holds its count and they sum to successes, each percentile is that of its own p in whole nanoseconds, the figures are ordered, the average is between the extremes exactly when the total suffices and exact if and only if it does not overflow |

## Left out

- QUIC dialling, TLS, deadlines, keep-alive: each stream is taken as an ordered reliable byte stream with atomic `Write` calls; a write takes a whole frame or none of it.
- zstd internals and compression errors: only the inverse law is used; decompression may fail on any input.
- protoreflect and descriptor code of the generated schema: runtime registration only.
- Codec.PooledMessage.UnmarshalVT: what the fields hold after a parse error is not specified, because every caller releases the object without reading it.
- Server.StreamReadCycle: the message and buffer pools are objects of one stream here rather than of the process, and handlers are pure functions of the request; what sharing arrays through the pools does to a handler that stores the request's body by reference is in `Aliasing`, for the server's side alone.
- System.EndToEnd: says nothing of a call that shares its id with another; `System.ReplyIsGenuine` is what remains for it, and `SharedIds.SharedIdMixesReplies` shows that no more holds.
- Progress.NoResponseIsLost: a continuation exists; that schedulers and networks take it is not claimed. Nothing is proved about `Close` draining or the order of the wait group.
- ClientReader.ReadCycle: stops at handing the response on; the table lookup and the delivery depend on the other goroutines and are in the steps of `Client` and `System`. The flush at the head of each turn is left out, the buffers being always empty (`Multiplexer.BatchersPassThrough`).
- Metrics: `float64` rounding is idealised away (reals and integers); `sort.Float64s` is known by its result; success rate, requests per second, JSON, CSV and HTML output would only add easy members.
- Multiplexer: `lastFlush` and the batch window, which no code reads; delays between stream openings.
- `ctx.go` locals, getters and header lookup: easy members.
- Logging, error classification, wall-clock time and the quality of random ids.
- Stress-test command line, network emulation, the gRPC comparison client and scripts.
