# Protocols and step machines of the camera bridge, in Dafny

The bridge connects an Amcrest camera to HomeKit. This project models the parts of it that are its own
protocols and state machines, and proves what they are for:

* **HomeKit Data Stream** (`Codec*`, `Frame`, `Framed`, `HdsStream`, `Hds`, `HdsSessions`, `DataSend*`, `Pump*`,
  `Delivery`, `Replies`): the tagged value codec with terminated containers and back-references, 24-bit length frames sealed under counter nonces
  (ChaCha20-Poly1305, section 2.8 of RFC 8439), the connection's reassembly loop, and the pump that turns a
  recording into numbered, chunked data events. The layers compose: what a peer rebuilds from the bytes on the
  wire, cut up in any way and with other messages in between, is what the recorder produced.
* **The HAP record layer** (`HapRecords`, `HapTransport`, `SerializedOutput`, `HapSession`): poll-style writing and
  reading of 1024-byte encrypted records over sockets that stall, fail and take part of a buffer whenever they like,
  and the queue in front of them, which never splits a response with an event; together, the controller reads whole
  responses.
* **The recorder** (`Fmp4`, `Mp4Boxes`, `Recorder`, `RecordingSession`, `Footage`): splitting a fragmented MP4 stream (section 4.2
  of ISO/IEC 14496-12), the generation-guarded prebuffer with its live subscribers, over all interleavings of restarts,
  commits and publications, and a recording from ffmpeg's output through that buffer all the way to the controller.
* **TLV8** (`Tlv8`, `HapTlv`, `VideoConfig`, `RecordingConfig`): both implementations of the format, and the
  nested configurations built and read with it.
* **Camera settings** (`Json`, `Settings`, `SettingsKeys`, `SettingsValues`, `SettingsProperties`, `SettingsRetry`): keys to JSON pointers (section
  4 of RFC 6901), reading, writing and verifying a table, and retrying against a camera that may answer anything.
* **Smaller state machines**: the snapshot cache (`Snapshots`), the RTP and RTCP timestamp rescaler (`Srtp`;
  sections 5.1, 6.1 and 6.4.1 of RFC 3550), the live-session maps (`LiveSessions`) and the motion sensors with their
  timers (`Motion`).

Code that works step by step is a method or a class here, proved against a function; what the function means is
proved in lemmas. Each interleaving is a list of events over a state, with the methods' functions as its steps.

## What is assumed

* `Aead.Lawful`: sealing adds a tag of fixed length, and opening with the same key, nonce and associated data
  gives the plaintext back. `LawsAreConsistent` shows that the laws can be met. "Nothing else opens it" cannot be a
  law (there are more keys than tags), so where the server tries several session keys on a first frame,
  `Hds.Recognised` states that the session is among those alive and that no earlier one's key opens the frame; it is
  asked for at the one read that completes the first frame, after which the session is gone from the list.
* Whether the connection's handler takes the n-th payload or fails on it is a parameter, `HdsStream.Handler`. A handler
  with state is one of these for each stream, as the payloads before the n-th are given with it. A failure ends the
  connection.
* Floats are opaque bytes in the codec, and the widening of 32 to 64 bits a parameter; in the settings a float is
  its real value. Strings are byte sequences on which the lossy UTF-8 conversion changes nothing.
* `HapTransport.EncryptedWriter.PollUntilDone` stands for the executor, which polls the writer again after every stall; it
  is the one operation here that the repository does not have itself.
* Clock readings, sockets, the camera, ffmpeg, hashing and randomness are parameters or scripts that may be
  anything. Time does not run backwards where the statement says so (`PumpProperties.ClockRuns`, `Snapshots`), and in
  `Motion` a timer that is due fires before time goes on, each handler and timer body being one step.

## Where the code differs from its documents or from what one would expect

* `docs/hds-wire-format.md:94-97` gives the tags 0x61-0x64 and 0x91-0x94 lengths of 1, 2, 4 and 8 bytes; the decoder
  reads 1, 2, 3 and 4 (src/hsv/codec.rs:258-275, 354-361). The encoder follows the document (4 bytes from 65536 on).
  So `LengthTable` has both readers: with the code's own table a value is read back exactly if nothing in it is
  longer than 65535 bytes, with the documented one exactly up to 2^32 - 1 (`CodecLimits.RoundTripExactly`).
* The same table gives the small integers the tags 0x08-0x2E and the values 0-39; the decoder takes 0x2F for 39
  (src/hsv/codec.rs:246), and the encoder stops at 38: `CodecTable.SmallIntsRead`, `CodecStream.IntForms`.
* The TLV parser joins to an item whose length so far is a multiple of 255, not, as its comment has it, to a
  fragment of 255 bytes (src/tlv8.rs:64-65, 73-78). On any buffer the two agree if and only if no fragment of 255 bytes
  is followed by an empty one and a third of the same tag: `Tlv8.CommentHoldsExactly`, with such a buffer in
  `Tlv8.JoinsPastAnEmptyFragment`.
* `tlv::decode` loses a value whose length is a non-zero multiple of 255 if another item follows it
  (hap/src/tlv.rs:46-73); `HapTlv.DecodesExactly` is the exact condition. It indexes out of bounds, and so panics, on
  exactly those inputs whose last fragment is cut short: `HapTlv.StopsExactlyWhenCutShort`, with the shortest of them
  in `HapTlv.CutShort`.
* A superseded parser may still publish the fragment it had committed, to subscribers of the next generation
  (src/hsv/fmp4.rs:281-302). `Recorder.OwnOnlyExactlyWhenNothingStale` says exactly when that cannot happen.
* Distinct JSON pointers may name the same node (`~` and `~0`), and then settings overwrite each other:
  `SettingsProperties.AppliesExactlyWhenDistinct`, and `SettingsProperties.TildesCollide` for every configuration name.

## Model

| member | source | states |
|---|---|---|
| CodecRoundTrip.ValueReadsBack | src/hsv/codec.rs:59-343 | a value within the length limit is read back as written (Int64 as Int), before any tail and after any tracked list: the cursor stops right behind it and exactly its keys and leaves are appended to the list |
| CodecRoundTrip.DictReadsBack | src/hsv/codec.rs:133-148 | the same for dictionaries, counted up to 14 entries and terminated beyond |
| CodecRoundTrip.ArrayReadsBack | src/hsv/codec.rs:119-132 | the same for arrays, counted up to 12 items and terminated beyond |
| CodecLimits.RoundTripExactly | src/hsv/codec.rs:59-361 | for every value, tail and tracked list the round trip holds if and only if every string, key and blob fits the reader's length field |
| CodecLimits.ValueDerails | src/hsv/codec.rs:93-116 | one over-long string, key or blob anywhere in a value, and the value with its position does not come back |
| CodecLimits.BackReferenceAfter | src/hsv/codec.rs:226-289 | after a value, tag 0xA0 + k yields the k-th remembered leaf, consumes one byte and remembers nothing |
| CodecTable.ConstantsRead | src/hsv/codec.rs:233-245 | before any tail and after any tracked list: 0x01, 0x02, 0x04 and 0x07 are true, false, null and -1, read off one byte and remembered |
| CodecTable.SmallIntsRead | src/hsv/codec.rs:246 | 0x08 to 0x2F are 0 to 39, 39 included, which is never written |
| CodecTable.WideIntsRead | src/hsv/codec.rs:247-250 | 0x30 to 0x33 are signed integers of 1, 2, 4 and 8 bytes, least significant first, whether or not a shorter form exists |
| CodecTable.FixedWidthsRead | src/hsv/codec.rs:239-252 | 0x05, 0x06, 0x36 and 0x35: sixteen bytes of UUID, eight of date, eight of float, and four of float, widened |
| CodecTable.ShortFormsRead | src/hsv/codec.rs:253-271 | 0x40 + n and 0x70 + n: strings and blobs of up to 32 bytes, the blobs too, though they are never written so |
| CodecTable.CountedFormsRead | src/hsv/codec.rs:258-275 | 0x61 + k and 0x91 + k: strings and blobs behind their length, in 1, 2, 3 and 4 bytes as coded, in 1, 2, 4 and 8 as documented |
| CodecTable.MarkedFormsRead | src/hsv/codec.rs:263-280 | 0x6F and 0x9F: strings up to the first zero byte, blobs up to the first 0x03, of any length |
| CodecTable.ArraysRead | src/hsv/codec.rs:290-307 | arrays of any items in both forms, counted up to 14 and terminated at any length |
| CodecTable.DictsRead | src/hsv/codec.rs:308-337 | dictionaries likewise |
| CodecTable.ReferencesRead | src/hsv/codec.rs:281-289 | 0xA0 + k is the k-th remembered leaf, itself not remembered again, or an error if there are not so many |
| CodecTable.TagsRefused | src/hsv/codec.rs:231-339 | nothing, tag 0x00, the terminator and every unassigned tag give their own answers |
| CodecTable.ShortInputRefused | src/hsv/codec.rs:214-271 | a leaf with fewer bytes behind its tag than it takes is refused with how many were needed and how many there were |
| CodecTable.ShortCountRefused | src/hsv/codec.rs:258-280 | so is one whose length field or announced bytes are cut short, in either table, or whose end mark is missing |
| CodecTable.TerminatorRefused | src/hsv/codec.rs:290-299 | a counted array is refused if a terminator stands where one of its items should |
| CodecTable.KeysRefused | src/hsv/codec.rs:308-352 | a dictionary is refused if its first key is no string or no value follows it, in both forms |
| CodecStream.DecodeStays | src/hsv/codec.rs:214-362 | for any bytes: more of them behind change no decode and no error but a truncation, and are left over |
| CodecStream.PrefixIsTruncated | src/hsv/codec.rs:59-362 | a value cut short anywhere is refused as truncated, so no encoding is the beginning of another |
| CodecStream.IntForms | src/hsv/codec.rs:152-172 | the bytes of every integer: the first form it fits, 0 to 38 in the tag |
| CodecStream.LengthForms | src/hsv/codec.rs:81-148 | the bytes of every string and blob, and the tag of every array and dictionary |
| CodecBounds.DecodedIsSmall | src/hsv/codec.rs:214-362 | decoding any bytes consumes at least one byte per value, only appends plain leaves to the tracked list, and yields no more nodes than bytes consumed |
| CodecBounds.DecodedReencodes | src/hsv/codec.rs:59-362 | whatever was decoded from arbitrary bytes, if within the limit, survives encoding and decoding unchanged |
| Codec.EncodeInt | src/hsv/codec.rs:152-172 | appends the integer in the form of the first range it falls in, and nothing else |
| Codec.EncodeString | src/hsv/codec.rs:81-99 | appends the string with the header its length calls for |
| Codec.EncodeData | src/hsv/codec.rs:100-118 | appends the blob with the header its length calls for |
| Codec.Encode | src/hsv/codec.rs:59-150 | the recursive encoder appends exactly the value's encoding to the buffer |
| Codec.EncodeArray | src/hsv/codec.rs:119-132 | the array loop appends the items' encodings in order, with a terminator only in the terminated form |
| Codec.EncodeDict | src/hsv/codec.rs:133-148 | the dictionary loop appends keys and values alternately, in order |
| Codec.EncodeToVec | src/hsv/codec.rs:174-178 | a fresh buffer holds exactly the value's encoding |
| Codec.Decoder.Take | src/hsv/codec.rs:214-224 | takes n bytes off the front or fails without moving |
| Codec.Decoder.ReadLength | src/hsv/codec.rs:354-361 | the loop over the length bytes is the little-endian number of that width |
| Codec.Decoder.TakeUntil | src/hsv/codec.rs:263-280 | stops behind the first mark and returns what is before it |
| Codec.Decoder.Decode | src/hsv/codec.rs:231-343 | the mutable decoder computes exactly the functional one: value, cursor, tracked list and error, on every input; it terminates and never reads out of bounds |
| Codec.Decoder.DecodeTerminatedArray | src/hsv/codec.rs:301-307 | the loop up to the terminator, likewise |
| Codec.Decoder.DecodeTerminatedDict | src/hsv/codec.rs:320-337 | the loop over key and value pairs up to the terminator, likewise |
| Aead.NoncesDiffer | src/hsv/frame.rs:43-47 | different counters below 2^64 never share a nonce |
| Aead.NonceLayout | src/hsv/frame.rs:43-47 | a nonce is twelve bytes: four zeros, then the counter in eight, least significant first |
| Frame.FrameOpens | src/hsv/frame.rs:50-120 | a sealed frame in front of any bytes is recognised at its exact length and opens to its payload |
| Frame.BoundaryStable | src/hsv/frame.rs:103-120 | bytes arriving later neither move the first frame's boundary nor mend an error in it |
| Frame.FrameLayout | src/hsv/frame.rs:50-80 | on the wire a frame is type 1, the length in three bytes, most significant first, and the text sealed with those four as associated data; a payload over 0xFFFFF is refused |
| Frame.BoundaryExactly | src/hsv/frame.rs:103-120 | what the first four bytes of any buffer decide: another type and a length too large are errors, and the frame is there from 20 bytes more than its length on |
| Framed.CuttingDoesNotMatter | src/hsv/hds.rs:200-219 | for any framing, any cutting of a stream into reads gives the payloads, counter and verdict of the whole stream |
| Framed.RecordsDrain | src/hsv/hds.rs:200-209 | records sealed with consecutive counters drain to their payloads, and draining then continues with what follows |
| Framed.RefusedDrains | src/hsv/hds.rs:200-209 | a payload the handler fails on is the last handed over, with exactly those before it, whatever follows on the wire |
| Framed.PrefixDrains | hap/src/transport/tcp.rs:340-366 | every prefix of a sealed stream drains to a prefix of the payloads without an error |
| HdsStream.FramesOpen | src/hsv/frame.rs:50-120 | every payload up to the maximum, sealed at any counter, is found and opened wherever it stands in the stream, whatever the handler does |
| HdsStream.PayloadSplits | src/hsv/hds.rs:230-284 | a header and message within the codec's limit are split back out of the payload built from them |
| HdsStream.PayloadsRefused | src/hsv/hds.rs:268-284 | nothing at all, less than the header announced and a terminator for a header are refused, each with its own error; an absent message counts as an empty one |
| Hds.HdsServer.Setup | src/hsv/hds.rs:71-87 | expired sessions go, the new one is added last |
| Hds.HdsServer.Claim | src/hsv/hds.rs:140-166 | the first unexpired session whose key opens the frame is handed out with the plaintext, and only it is removed |
| Hds.FirstOpening | src/hsv/hds.rs:146-157 | the first session that opens the frame, and none before it does |
| HdsSessions.HandedOutOnce | src/hsv/hds.rs:71-166 | over every interleaving of setups and claims each prepared session is handed out at most once, for a frame its key opens and less than 10 s after being made; until its time is over or it is handed out it is there to be, and nothing else is, oldest first |
| Hds.Connection.OnRead | src/hsv/hds.rs:132-219 | one more read moves the connection exactly as the functional step says, from waiting through identified to failed, a handler that fails on a payload included |
| Hds.Connection.DrainBuffer | src/hsv/hds.rs:200-209 | the inner loop hands over exactly the complete frames in the buffer, up to one that does not open or is refused by the handler |
| Hds.ConnectionDelivers | src/hsv/hds.rs:132-219 | however the controller's bytes arrive, if its session was recognised when the first frame was complete, whatever becomes of the sessions later, the connection is its own and hands over exactly the payloads sent |
| Hds.RunIsFaithful | src/hsv/hds.rs:132-219 | the same of every part of the bytes: before the first frame is complete the connection waits, from then on it is its own session's and has handed over exactly what has arrived |
| Hds.ConnectionStopsAtFailure | src/hsv/hds.rs:195-209 | if the handler fails on a payload, exactly the payloads up to that one have been handed over |
| Hds.RunDependsOnBytes | src/hsv/hds.rs:132-219 | for arbitrary bytes, sessions and handlers: however the bytes are cut into reads, the connection ends up as if all had come in one read, with the sessions alive when the first frame was complete |
| Hds.FrameWriter.Send | src/hsv/hds.rs:230-246 | a message is framed at the next counter, or refused (long header, large payload) with nothing written; the socket carries the frames of what was sealed, and from where it broke a prefix of them |
| Hds.FrameWriter.WriteAll | src/hsv/hds.rs:242-245 | a socket that breaks has taken a part of the frame from the start, and takes nothing any more |
| DataSend.SegmentRebuilt | src/hsv/hds.rs:550-609 | the data events of a segment, chunks numbered from 1 and only the last flagged, rebuild it in a strict receiver |
| DataSend.AllRebuilt | src/hsv/hds.rs:550-609 | so do the events of any run of segments, in order, with none rejected |
| DataSend.PiecesFlatten | src/hsv/hds.rs:558-564 | the chunks of a segment are its bytes, at least one chunk, none over the maximum |
| DataSend.PiecesAreFull | src/hsv/hds.rs:558-564 | every chunk but the last has 256 KiB, and the last is empty only if the segment is |
| DataSendWire.DataEventDeliverable | src/hsv/hds.rs:230-246 | no data event ever exceeds the header length or MAX_PAYLOAD, whatever was recorded |
| DataSendWire.DataEventReadsBack | src/hsv/hds.rs:268-284 | a peer splits and decodes the event it was sent, if its chunk fits the peer's length field |
| Pump.SharedWriter.SendInTurn | src/hsv/hds.rs:534-609 | whatever the handler sends before the pump gets the lock, the pump's message comes next after its own earlier ones |
| Pump.SharedWriter.SendData | src/hsv/hds.rs:550-609 | sends exactly the segment's events, none refused, or, if the socket breaks, those up to then; other messages in between |
| Pump.SharedWriter.SendClose | src/hsv/hds.rs:534-548 | sends exactly the close event |
| Pump.SharedWriter.PumpRecording | src/hsv/hds.rs:440-532 | the pump puts exactly the planned segments, and the close event if it closes, on the wire, for every schedule of cancellation, stall, lag and fragments and whatever else uses the writer; where the socket breaks, a part of that from the start |
| Pump.SharedWriter.PumpBuffered | src/hsv/hds.rs:471-489 | the same for the loop over the prebuffer |
| Pump.SharedWriter.PumpLive | src/hsv/hds.rs:491-531 | the same for the live loop |
| PumpProperties.RecordingSegments | src/hsv/hds.rs:440-532 | the segments are init, prebuffer and live fragments up to exactly where the run ends: where the prebuffer was cancelled, the tick that cancelled or closed it, or the fragment that completed the quiet tail, that one included; and the outcome is that tick's |
| PumpProperties.RecordingNumbered | src/hsv/hds.rs:459-520 | they are numbered 1, 2, 3, ..., the first the init segment and the others fragments |
| PumpProperties.EndOfStreamExactly | src/hsv/hds.rs:491-531 | a segment carries endOfStream if and only if it is a live fragment and every fragment over at least 8 s up to it found motion inactive; only the last segment can |
| Delivery.PeerRebuildsRecording | src/hsv/hds.rs:132-609 | end to end, for a run with any outcome and any other messages in between: from the frames, cut in any way, decrypted, split, decoded and reassembled, a peer holds the init segment, the prebuffer and the live fragments up to where the run ended, and the reason if it was closed |
| Delivery.PeerHoldsWhatArrived | src/hsv/hds.rs:132-609 | wherever the run or the wire was cut off, the peer meets no error and holds a part of the recording from the start |
| Delivery.WriterFeedsPeer | src/hsv/hds.rs:222-247 | the same for any part of what the writer's socket took, broken or not |
| Delivery.CloseReadsBack | src/hsv/hds.rs:534-548 | a peer reads the close event with its stream and reason back, with either length table |
| Delivery.OnlyOwnMatters | src/hsv/hds.rs:268-284 | messages that are no event of the stream change nothing for its receiver, wherever they stand |
| Replies.ReplyPassesBy | src/hsv/hds.rs:295-373 | the answer to a hello and every other answer of the handler, for any id, status and reason and with either length table, is framed, read back as sent and no event of any stream |
| Replies.OtherStreamPassesBy | src/hsv/hds.rs:550-609 | nor does a data event of another stream concern the receiver of this one |
| Replies.OthersDoPassBy | src/hsv/hds.rs:295-609 | so whatever handler and pumps of other streams put between a run's messages, its receiver can follow |
| Delivery.DocumentedPeersRead | src/hsv/codec.rs:354-361 | a peer with the documented length fields can read every chunk, this decoder every segment up to 65535 bytes |
| RecordingSession.RecordingIsGapless | src/hsv/hds.rs:440-532 | over all interleavings: for a subscription made while no superseded parser has a fragment in flight, and as long as its generation lasts, a run sends its generation's init segment and a stretch of what that parser produced, without a gap from the oldest fragment buffered on, with at most the one fragment in flight sent twice |
| RecordingSession.ControllerHoldsAGaplessRecording | src/hsv/hds.rs:132-609 | and that is what the controller rebuilds from the wire |
| Footage.RunFed | src/hsv/fmp4.rs:235-302 | over every interleaving, parsers that commit what they split off their own process's output have committed the fragments of that, in order |
| Footage.ControllerHoldsTheOutput | src/hsv/fmp4.rs:139-313 | then the controller holds the init segment of the current process's output and its fragments, without a gap from the oldest one buffered, at most one of them twice |
| Footage.ControllerHoldsFootage | src/hsv/fmp4.rs:235-313 | and where ffmpeg wrote, laid out byte by byte, boxes of other types and then moof and mdat in turn, exactly those first boxes and consecutive pairs of moof and mdat |
| HapRecords.RecordFound | hap/src/transport/tcp.rs:644-713 | a sealed record in front of any bytes is recognised and opens to its chunk |
| HapRecords.RecordChunksKeepBytes | hap/src/transport/tcp.rs:585-601 | cutting queue items into records keeps their bytes, and no record exceeds 1024 |
| HapRecords.PrefixOpens | hap/src/transport/tcp.rs:340-366 | any prefix of the wire opens to a prefix of the plaintext, all of it to all of it |
| HapRecords.RecordLayout | hap/src/transport/tcp.rs:644-713 | on the wire a record is its length in two bytes, least significant first, and the text sealed with those as associated data |
| HapRecords.RecordBoundaryExactly | hap/src/transport/tcp.rs:340-366 | what the first two bytes of any buffer decide: a length over 1024 is an error, and the record is there from 18 bytes more than its length on |
| HapRecords.RecordsAreFull | hap/src/transport/tcp.rs:585-601 | every record of an item but the last has 1024 bytes |
| HapTransport.EncryptedWriter.SealItem | hap/src/transport/tcp.rs:583-602 | an item's chunks are sealed once, at the next counters, behind what is on the wire |
| HapTransport.EncryptedWriter.PollWrite | hap/src/transport/tcp.rs:572-629 | seals only when nothing is pending, so a retry never seals again; reports the whole plaintext length once everything is out; it is pending exactly if the socket stalled in this poll, and an error only if the socket failed, or took nothing, in it |
| HapTransport.EncryptedWriter.WriteCurrent | hap/src/transport/tcp.rs:374-418 | one attempt at the current item, whatever the socket answers: the item stays for the next poll exactly if the socket stalled, and an error ends it exactly if the socket failed or took nothing, or the item is empty |
| HapTransport.EncryptedWriter.Close | hap/src/transport/tcp.rs:420-437 | closing the queue loses nothing that is on it |
| HapTransport.EncryptedWriter.PollOutgoing | hap/src/transport/tcp.rs:368-439 | writes items until the socket stalls; if it stops with no item left, everything submitted is on the wire, and it is over exactly if the queue was closed; polled again then, it says so again and changes nothing; with an error only after a failure, a write of nothing or an empty item |
| HapTransport.EncryptedWriter.PollUntilDone | hap/src/transport/tcp.rs:368-439 | polled again whenever the socket stalled: a socket that neither fails nor takes nothing never ends the session, and once it has taken enough, everything submitted is on the wire |
| HapTransport.AcceptedIsPrefix | hap/src/transport/tcp.rs:368-629 | for every schedule of stalls, failures and partial writes the bytes the socket took are a prefix of the items' records, sealed once each with counters 0, 1, 2, ... |
| HapTransport.EncryptedReader.DecryptBufferedRecord | hap/src/transport/tcp.rs:340-366 | opens one record if all of it has arrived, and otherwise changes nothing |
| HapTransport.EncryptedReader.PollRead | hap/src/transport/tcp.rs:508-567 | delivers at most the caller's capacity, in order; pending exactly if the socket stalled in this poll, and then everything received has been delivered; an error only if the socket failed, or ended inside a record, or a record is bad |
| HapTransport.ReaderGetsPrefix | hap/src/transport/tcp.rs:340-629 | a reader with the key, over any fragmentation and any buffer sizes, has delivered a prefix of what was submitted, met no bad record and lost nothing |
| SerializedOutput.Output.AppendHttp | hap/src/transport/tcp.rs:63-69 | response bytes gather, nothing else moves |
| SerializedOutput.Output.SendEvent | hap/src/transport/tcp.rs:99-111 | an event goes out at once or waits behind the response it arrived during; a closed queue is reported |
| SerializedOutput.Output.FlushHttp | hap/src/transport/tcp.rs:71-97 | the response goes out as one item, then the deferred events in order |
| SerializedOutput.RunsRender | hap/src/transport/tcp.rs:63-111 | over every run each round is on the queue in its place: earlier events, the whole response, later events |
| SerializedOutput.RunLosesNothing | hap/src/transport/tcp.rs:63-111 | queue and waiting events are all events in submission order, queue and buffer all bytes appended; with no response buffered no event waits |
| HapSession.ControllerReadsWholeResponses | hap/src/transport/tcp.rs:63-629 | for every run of the serialiser and every schedule of the sockets the controller has read a part, from the start, of the rounds in order, where no event stands inside a response; all of it once everything was handed over, sent and read |
| Fmp4.ReadBox | src/hsv/fmp4.rs:246-268 | a box read and what is left are the stream, for 32-bit and 64-bit sizes; sizes below the header are refused, so lengths never underflow |
| Fmp4.ParseStream | src/hsv/fmp4.rs:235-313 | the read loop computes the split of the stream, box by box, with the right end |
| Fmp4.SplitOfBoxes | src/hsv/fmp4.rs:235-313 | a stream of whole boxes is handled box by box, up to what is cut off |
| Fmp4.PairsBecomeFragments | src/hsv/fmp4.rs:269-310 | a head without moof and then moof, mdat pairs: the head is the init segment, each pair one fragment |
| Fmp4.StreamKept | src/hsv/fmp4.rs:235-313 | init segment and fragments together are exactly the input if and only if from the first moof on every box is a moof directly before an mdat, or an mdat |
| Mp4Boxes.LaidIsBox | src/hsv/fmp4.rs:246-268 | a box by its layout, size and type and body with a size of four bytes or of eight, is read as one whole box of that type |
| Mp4Boxes.PartOfBox | src/hsv/fmp4.rs:246-268 | a box of which anything is missing is not handled |
| Mp4Boxes.SizesRefused | src/hsv/fmp4.rs:246-268 | size 0, and sizes below the header in either form, end the parse with their own errors |
| Mp4Boxes.StreamSplits | src/hsv/fmp4.rs:235-313 | of a stream laid out as boxes of other types and then moof and mdat in turn, the former are the init segment and each pair is one fragment |
| Mp4Boxes.PieceAnywhere | src/hsv/fmp4.rs:269-310 | from the first moof on, in whatever order boxes come: a moof and the next mdat are a fragment, with strays between them left out; an mdat alone is one too |
| Recorder.RecorderState.Start | src/hsv/fmp4.rs:139-198 | a running pipeline with the same configuration is kept; otherwise a new generation starts empty, with a parser if ffmpeg could be spawned |
| Recorder.RecorderState.Stop | src/hsv/fmp4.rs:200-210 | a new generation, nothing running, nothing buffered |
| Recorder.RecorderState.Commit | src/hsv/fmp4.rs:281-299 | a superseded parser changes nothing; the current one appends its fragment and the loop trims the front |
| Recorder.RecorderState.Snapshot | src/hsv/fmp4.rs:218-231 | the init segment and prebuffer as they are |
| Recorder.TrimIsSuffix | src/hsv/fmp4.rs:290-298 | trimming keeps a suffix of at most eight fragments |
| Recorder.TrimKeepsTheWindow | src/hsv/fmp4.rs:289-298 | no fragment among the newest eight goes while it and all newer ones are within the window |
| Recorder.TrimDropsTheOld | src/hsv/fmp4.rs:290-298 | the oldest fragment left was within the window when it was looked at |
| Recorder.CommitKeepsTheWindow | src/hsv/fmp4.rs:281-299 | what a commit does to the buffer: its fragment is added, of the newest eight whatever is within the window stays with all that is newer, and the oldest left was within it when looked at |
| Recorder.WhenAStartCounts | src/hsv/fmp4.rs:139-210 | whatever was committed and published in between: asking again for what was started changes nothing; after a stop, with another configuration, or if ffmpeg could not be started, a new generation begins with nothing buffered and a window of the prebuffer and one second more |
| Recorder.SnapshotsAreCoherent | src/hsv/fmp4.rs:139-302 | in every reachable state the prebuffer is at most eight and a suffix of what the current generation committed, and non-empty only with that generation's init segment |
| Recorder.SubscriberMissesNothing | src/hsv/fmp4.rs:218-302 | over all interleavings a snapshot and the generation's live fragments are one gapless stretch, with at most the one fragment in flight repeated |
| Recorder.SupersededIsNearlySilent | src/hsv/fmp4.rs:281-302 | a superseded parser commits nothing more and publishes at most the one fragment in flight |
| Recorder.SupersededChangesNothing | src/hsv/fmp4.rs:281-284 | whatever superseded parsers do, the state under the lock stays as it is |
| Recorder.OwnOnlyExactlyWhenNothingStale | src/hsv/fmp4.rs:218-302 | a subscriber can never get a fragment of another generation while its own lasts if and only if no superseded parser had one in flight when it subscribed |
| Recorder.ForeignFragmentIsReachable | src/hsv/fmp4.rs:281-302 | a restart between commit and publication reaches such a state |
| Tlv8.Writer.Bytes | src/tlv8.rs:30-42 | appends the item, cut into fragments of 255 bytes, an empty value as one empty fragment |
| Tlv8.Writer.U8 | src/tlv8.rs:18-20 | appends a one-byte item |
| Tlv8.Writer.U16 | src/tlv8.rs:22-24 | appends a little-endian item |
| Tlv8.Writer.U32 | src/tlv8.rs:26-28 | appends a little-endian item |
| Tlv8.Writer.Delimiter | src/tlv8.rs:46-50 | appends the empty item of type 0 |
| Tlv8.Writer.Build | src/tlv8.rs:52-54 | returns what was written and starts afresh |
| Tlv8.Parse | src/tlv8.rs:66-89 | the parse loop computes the functional parse of any buffer, truncated or not |
| Tlv8.WrittenParses | src/tlv8.rs:30-89 | what was written is parsed as its items, each joined to the one before where it looks like a continuation, before any tail |
| Tlv8.ReadsBackExactly | src/tlv8.rs:30-89 | written items are parsed as written if and only if no item has the tag of the one before while that one's length is a non-zero multiple of 255 |
| Tlv8.ItemLayout | src/tlv8.rs:30-42 | on the wire fragment k of an item is at byte 257 * k: tag, length and up to 255 bytes of the value from 255 * k on; nothing follows the last |
| Tlv8.ParsedReadsBack | src/tlv8.rs:66-89 | what is parsed from any buffer survives being written and parsed again |
| Tlv8.CommentHoldsExactly | src/tlv8.rs:64-89 | for every buffer the code joins fragments as its comment says if and only if no fragment of 255 bytes is followed by an empty one and a third of the same tag; otherwise it has strictly fewer items |
| Tlv8.JoinsPastAnEmptyFragment | src/tlv8.rs:64-79 | such a buffer: three fragments that are one item for the code and two for the comment |
| Tlv8.Find | src/tlv8.rs:92-97 | the value of the first item of the tag, if there is one |
| HapTlv.Encode | hap/src/tlv.rs:11-43 | the second encoder produces, for every list of items, the bytes of successive writes |
| HapTlv.Decode | hap/src/tlv.rs:46-73 | the decoder loop computes the functional decoder, out-of-bounds input included |
| HapTlv.DecodesExactly | hap/src/tlv.rs:11-73 | items of distinct tags come back exactly if and only if no value but the last has a length that is a non-zero multiple of 255; every such value is lost with its tag |
| HapTlv.StopsExactlyWhenCutShort | hap/src/tlv.rs:46-73 | on any input the decoder indexes out of bounds if and only if not every fragment announced is there in full |
| HapTlv.CutShort | hap/src/tlv.rs:51-63 | a lone tag byte does it, and so does a length with nothing behind it |
| HapTlv.AsMapIs | hap/src/tlv.rs:46-73 | with distinct tags the map holds exactly the items |
| VideoConfig.Deduplicate | src/stream.rs:839-848 | the loop keeps the first occurrence of every width, height and rate, in order |
| VideoConfig.FirstOccurrencesMembers | src/stream.rs:839-848 | nothing is lost by it |
| VideoConfig.FirstOccurrencesDiffer | src/stream.rs:839-848 | nothing is left twice |
| VideoConfig.SupportedVideoConfig | src/stream.rs:819-872 | writes the nested live configuration of the deduplicated profiles |
| VideoConfig.LiveConfigReads | src/stream.rs:819-872 | whatever the profiles and however long the container, reading it gives exactly the deduplicated list |
| VideoConfig.SupportedVideoRecordingConfig | src/hsv/recording.rs:377-410 | writes the nested recording configuration of the attributes |
| VideoConfig.RecordingConfigReads | src/hsv/recording.rs:377-410 | reading it gives exactly the attributes, repetitions included |
| VideoConfig.ConfigLayout | src/stream.rs:819-872 | both configurations byte by byte: codec, profiles, levels, for live streams the packetization mode, and the attributes with delimiters between them |
| RecordingConfig.NumberReads | src/hsv/recording.rs:428-435 | a number sent in any width up to eight bytes is read as itself |
| RecordingConfig.SelectionReads | src/hsv/recording.rs:437-475 | every field of a controller's nested selection is recovered |
| RecordingConfig.BytesRead | src/hsv/recording.rs:428-435 | of any value the first four bytes count, and fewer stand for themselves |
| RecordingConfig.DefaultsApply | src/hsv/recording.rs:437-475 | a selection of a fragment length alone gets every other default, and a keyframe every fragment |
| RecordingConfig.BothPartsNeeded | src/hsv/recording.rs:437-447 | without a general part or without a video part there is no selection |
| Json.IndexInjective | src/amcrest.rs:86-101 | array tokens that name the same element are equal |
| Json.ReplaceElsewhere | src/amcrest.rs:99-107 | assigning a scalar through a pointer changes that node, and of every other node at most the contents of the containers around it |
| Json.TokensInjective | src/amcrest.rs:22-58 | pointers without a tilde are distinct exactly when their tokens are |
| Settings.ConfigKeyPointer | src/amcrest.rs:22-58 | the scanner turns a key into its pointer, or refuses it, as the recursive reading of the path does |
| Settings.ValueLikeKeepsKind | src/amcrest.rs:60-79 | a desired value takes the JSON type of the current scalar, floats apart from integers |
| Settings.ValueLikeSettles | src/amcrest.rs:60-79 | once written it is what the setting asks for |
| SettingsKeys.KeyNamesItsSegments | src/amcrest.rs:22-58 | a key of plain segments, dotted names and bracketed indices, names exactly the node at the end of them |
| SettingsKeys.KeyHasPointerExactly | src/amcrest.rs:22-58 | a key has a pointer if and only if it is the configuration name and then dotted names and bracketed indices, and then it is their pointer |
| SettingsKeys.NumbersRead | src/amcrest.rs:60-79 | a number written in decimal is read as itself, signed, unsigned or as an array index |
| SettingsValues.WholesRead | src/amcrest.rs:60-79 | so are they with a plus sign and with leading zeros; those out of range are refused |
| SettingsValues.OthersAreNotWhole | src/amcrest.rs:60-79 | and so is every other text |
| SettingsValues.IndicesRead | src/amcrest.rs:86-101 | as an array index a number has no sign and no leading zero |
| SettingsValues.BoolsRead | src/amcrest.rs:62 | `true` is true, `false` is false, and no other text is either |
| SettingsValues.ValuesOfKind | src/amcrest.rs:60-79 | what a text is as a value for a node that holds a Bool, a string, a whole number of either range, a float or none of these |
| SettingsValues.EscapeReadsBack | src/amcrest.rs:86-101 | every token can be written in a pointer, and is read back |
| Settings.ApplyRpcSettings | src/amcrest.rs:93-111 | the loop computes the table and the number of updates |
| SettingsProperties.AppliedLeavesNothing | src/amcrest.rs:81-111 | with keys for distinct nodes, the result is the number of settings that were unapplied, and none is afterwards |
| SettingsProperties.SecondRunDoesNothing | src/amcrest.rs:93-111 | then applying again updates nothing |
| SettingsProperties.AppliedKeepsKinds | src/amcrest.rs:60-111 | whatever the settings, no node appears, vanishes or changes its kind |
| SettingsProperties.AppliedElsewhere | src/amcrest.rs:93-111 | a node no setting names stays as it is, but for what a container contains |
| SettingsValues.AppliedHolds | src/amcrest.rs:93-111 | with keys for distinct nodes, afterwards each node named holds what its setting says: the Bool, text or number written there, if it is of the kind and range of what the node held, and otherwise what it held |
| SettingsProperties.AppliesExactlyWhenDistinct | src/amcrest.rs:81-111 | keys leave nothing unapplied on every table and with all values if and only if no two of them name the same node |
| SettingsProperties.PlainPointersDiffer | src/amcrest.rs:22-111 | distinct pointers are enough where none contains a tilde |
| SettingsProperties.TildesCollide | src/amcrest.rs:22-58 | in general they are not: after every configuration name, the keys `.~` and `.~0` have different pointers to one node |
| SettingsRetry.Client.RpcGetConfig | src/amcrest.rs:541-583 | up to three requests for a table |
| SettingsRetry.Client.ApplySupportedSettings | src/amcrest.rs:607-657 | up to three rounds of reading, writing and verifying |
| SettingsRetry.SuccessIsVerified | src/amcrest.rs:607-657 | against any camera, success means that the table read last has nothing unapplied and nothing was written since; at most one write per attempt, each a table the camera had shown with the settings applied |
| SettingsRetry.ReadsUpToThree | src/amcrest.rs:541-583 | a read takes the first table among the next three answers and none beyond it; without one it fails |
| SettingsRetry.TryIsSafe | src/amcrest.rs:607-657 | an attempt writes exactly the table it read with the settings applied, if it read one that lacked any, and nothing else |
| SettingsRetry.ReportIsReal | src/amcrest.rs:614-645 | the number reported is what some table the camera had shown lacked, or none; later attempts never lower it |
| SettingsRetry.HonestCameraIsConfigured | src/amcrest.rs:607-657 | a camera that stores what it accepts and shows what it stores, but may fail any request, is configured if and only if one of the three attempts gets through; the result is then the number of settings unapplied at first, and the table shown last has them applied |
| Snapshots.SnapshotCache.Latest | src/amcrest.rs:1643-1647 | the latest frame if it is young enough |
| Snapshots.SnapshotCache.Accept | src/amcrest.rs:1627-1635 | only a JPEG gets a frame, with the next generation |
| Snapshots.SnapshotCache.Lookup | src/amcrest.rs:1675-1692 | a picture of the same generation is served at once, another kept to fall back on if young enough |
| Snapshots.SnapshotCache.Insert | src/amcrest.rs:1714-1722 | a scaled picture is cached with its frame's generation, time and fingerprint |
| Snapshots.RunKeepsCoherent | src/amcrest.rs:1609-1730 | every step of the refresher and the requests, at any interleaving, keeps the cache coherent, and the latest frame only gives way to newer ones |
| Snapshots.PicturesAreFaithful | src/amcrest.rs:1609-1730 | generations name one frame each, in order; every cached or served picture is a scaling of the frame its generation and fingerprint name, at most 120 s old when looked up, and as old as it says |
| Snapshots.YoungFrameIsUsed | src/amcrest.rs:1642-1692 | a request with a frame at most 120 s old does not ask the camera, and gets a picture of that frame in its size at once if there is one |
| Snapshots.HeldFrameIsScaled | src/amcrest.rs:1675-1730 | otherwise one is scaled, served and kept |
| Snapshots.FailedScalingFallsBack | src/amcrest.rs:1675-1712 | if that fails, an older picture in the size is served exactly if its frame is at most 120 s old |
| Snapshots.OldFrameIsReplaced | src/amcrest.rs:1609-1652 | without a frame that young the camera is asked |
| Snapshots.AnswerIsTaken | src/amcrest.rs:1609-1666 | a JPEG it sends becomes the latest frame under the next generation and the one to serve; after anything else a frame at most 120 s old by then is, or the request fails |
| Snapshots.RefreshesAreShared | src/amcrest.rs:1613-1619 | who gets to refresh at most 1 s after the last frame takes that one, and otherwise asks the camera |
| Srtp.TimestampRescaler.RescaleTimestamp | src/srtp.rs:66-70 | the first timestamp becomes the base, and the output is that of the clock |
| Srtp.TimestampRescaler.RescaleRtp | src/srtp.rs:72-79 | rewrites the packet in place, or leaves a short one alone |
| Srtp.TimestampRescaler.RescaleRtcp | src/srtp.rs:83-103 | the in-place loop over a compound packet computes the rewriting of its sender reports |
| Srtp.OutputOffset | src/srtp.rs:66-70 | for input offset d and output offset q, 0 <= d - ratio * q < ratio, around the 2^32 wrap |
| Srtp.OrderKept | src/srtp.rs:66-70 | order is kept while the input has not gone around |
| Srtp.RunKeepsTheRest | src/srtp.rs:66-103 | over any run every packet keeps its length and all other bytes, and all timestamps go through one clock |
| Srtp.EqualStampsStayEqual | src/srtp.rs:66-103 | equal timestamps stay equal wherever they occur, in media packets and sender reports alike |
| Srtp.ClockReads | src/srtp.rs:66-70 | the first timestamp comes out as the output base; one d past it comes out d / ratio past that, around 2^32 |
| Srtp.MediaLayout | src/srtp.rs:72-79 | a media packet of twelve bytes or more keeps everything but the timestamp behind its first four; a shorter one is left alone |
| Srtp.ReportLayout | src/srtp.rs:83-103 | in a compound packet a unit of type 200 with the length in its words keeps everything but the timestamp at its byte 16, and what follows it is next |
| Srtp.OtherLayout | src/srtp.rs:83-103 | a unit of another type, or too short for a timestamp, stays as it is |
| Srtp.RemainderLayout | src/srtp.rs:83-103 | a unit cut short, or fewer than four bytes, ends the rewriting |
| LiveSessions.ResponseReadsBack | src/stream.rs:243-258 | a controller reads back exactly the session id, parameters and ports of the response, whatever their lengths |
| LiveSessions.EchoIsIgnored | src/stream.rs:151-158 | the response coming back as a write is never taken for a request |
| LiveSessions.RequestIsPrepared | src/stream.rs:150-230 | a request laid out item by item is answered exactly if both ports could be bound, and the session then has its id and address, the video its own port, key and salt, and the audio its own |
| LiveSessions.RequestIsAnswered | src/stream.rs:236-258 | the response has the id, status 0, the address and ports to send to, both parameter sets as asked for, and both identifiers, under the tags 1 to 7 |
| LiveSessions.StreamManager.HandleSetupWrite | src/stream.rs:150-263 | a request with a session id and both ports bound prepares the session and its response, anything else changes nothing |
| LiveSessions.StreamManager.StartStream | src/stream.rs:376-598 | takes the prepared session, tears down what it had running and starts video and audio as far as binding and spawning succeed |
| LiveSessions.StreamManager.EndSession | src/stream.rs:601-637 | ends one session or, without an id, all of them |
| LiveSessions.NothingLeaks | src/stream.rs:150-637 | over every run video processes and proxies pair up, audio is within video, the gauge is the number of streams, prepared sessions have their sockets, and exactly what is in the maps is running |
| LiveSessions.StartRunsWhatItCan | src/stream.rs:376-598 | after a start, video with its proxy, audio and its proxy run exactly if everything each of them needs succeeded; the preparation is used up |
| LiveSessions.StartNeedsAChoice | src/stream.rs:388-402 | without an id the only session there is starts; if there is a choice or none, or nothing was prepared under the id, nothing happens |
| LiveSessions.AllEndedIsIdle | src/stream.rs:620-634 | ending all sessions leaves nothing running |
| LiveSessions.StartLeavesOthers | src/stream.rs:376-598 | starting a session touches no other |
| LiveSessions.EndLeavesOthers | src/stream.rs:604-619 | ending a session touches no other |
| Motion.MotionMapper.Handle | src/motion.rs:65-142 | a Start lights the sensor its event names and sets a timer, a Stop puts it out, anything else does nothing |
| Motion.MotionMapper.Fire | src/motion.rs:119-124 | a timer of the current generation puts its sensor out, an older one nothing |
| Motion.MotionIsBounded | src/motion.rs:14-142 | in every reachable state there is motion exactly if a sensor is active, HomeKit sees what is, and an active sensor was started at most 90 s ago and has a timer of its generation |
| Motion.TimersAreOnTime | src/motion.rs:117-125 | a timer never puts a sensor out before 90 s have passed since its last Start |
| Motion.LaterEventsSilence | src/motion.rs:99-141 | after a later Start or Stop of its sensor, anywhere in a run, a timer changes nothing |
| Motion.LastEventDecides | src/motion.rs:65-142 | in any run, after a Stop a sensor is dark until it is started again; after a Start it is lit until the 90 s are over and not beyond, whatever else happens |
| Motion.NeverStartedIsDark | src/motion.rs:65-142 | a sensor nothing was ever started for is dark |
| Motion.TimeoutPutsOut | src/motion.rs:117-125 | a lone Start lights its sensor for 90 s, and then the timer does put it out |

## Left out

- Hds: what the handler does with a payload beyond taking it or failing (src/hsv/hds.rs:256-436): which of its answers it gives, and when; `recording_busy`: at most one recording at a time is not claimed; the timeout for the first frame and the end of the stream, after which there are no more reads.
- Pump.SharedWriter.PumpRecording: the live receiver's lag shows as the tick `Disconnected`; what the handler sends comes before the pump's next message, not while that is being written, as the lock has it.
- RecordingSession.RecordingIsGapless: a run in which the recorder changes its generation, after which the bus carries another parser's fragments.
- HapTransport: plaintext before the session secret is installed, the moment it is installed, and the notification of snapshot delivery (hap/src/transport/tcp.rs:268-340, 441-500, 672-690).
- SerializedOutput: waking the writer and the reading half of the channel.
- Aead: key derivation, and what happens once a 64-bit counter overflows.
- Codec: recursion depth and memory; `as_i64` and the Debug format.
- Fmp4: a box larger than memory.
- Recorder: the command line of ffmpeg, metrics, the 16-message capacity of the broadcast channel (a lagging subscriber), and generations beyond 2^64.
- RecordingConfig: which configuration is acceptable to the camera, and persistence.
- Settings: the CGI variant of applying settings, HTTP and sessions of the camera's RPC.
- Json: values are replaced whole instead of in place; nothing else holds a reference to the table.
- Snapshots: the request pipeline around the cache, timeouts (they show as failed fetches and failed scalings), and the refresher's schedule.
- LiveSessions: the proxies' own loops and encryption of packets, and what the ffmpeg processes do.
- Motion: interleavings inside a handler or a timer body, which go through several atomics, and a failing write of the characteristic.
- Metrics, mDNS, accessory tables, overlays and the command line: finite tables, and wrappers around other programs and libraries.
