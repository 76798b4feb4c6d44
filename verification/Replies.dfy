/**
  What the connection's handler sends on the writer it shares with the pump (src/hsv/hds.rs:295-312, 362-404), and what
  a pump of another stream does: to the receiver of a stream all of it is passing by.
 */
module Replies {
  import opened Wrappers
  import opened Bytes
  import opened CodecValues
  import opened CodecReader
  import opened Frame
  import opened HdsStream
  import opened Hds
  import opened DataSend
  import opened DataSendWire
  import opened Pump
  import opened Delivery

  /** The answer to a hello, and the answers to other requests, with a status of their own in the body or none. */
  datatype Reply = Hello(id: i64) | Response(id: i64, status: i64, reason: Option<i64>)

  function ReplyHeader(protocol: string, response: string, id: Value, status: Value): Value {
    Dict([Field("protocol", Text(protocol)), Field("response", Text(response)), Field("id", id), Field("status", status)])
  }

  function StatusBody(status: Option<Value>): Value {
    Dict(if status.Some? then [Field("status", status.value)] else [])
  }

  function ReplyMessage(reply: Reply): Message {
    match reply
    case Hello(id) => Message(ReplyHeader("control", "hello", Int64(id), Int64(0)), StatusBody(None))
    case Response(id, status, None) => Message(ReplyHeader("dataSend", "open", Int64(id), Int64(status)), StatusBody(None))
    case Response(id, status, Some(reason)) =>
      Message(ReplyHeader("dataSend", "open", Int64(id), Int64(status)), StatusBody(Some(Int64(reason))))
  }

  /** The reply as it is read back. */
  function ReplyRead(reply: Reply): Message {
    match reply
    case Hello(id) => Message(ReplyHeader("control", "hello", Int(id), Int(0)), StatusBody(None))
    case Response(id, status, None) => Message(ReplyHeader("dataSend", "open", Int(id), Int(status)), StatusBody(None))
    case Response(id, status, Some(reason)) =>
      Message(ReplyHeader("dataSend", "open", Int(id), Int(status)), StatusBody(Some(Int(reason))))
  }

  // --- Sizes ---

  lemma ReplyHeaderLen(protocol: string, response: string, id: i64, status: i64)
    requires |protocol| <= 16 && |response| <= 16
    ensures |Encoded(ReplyHeader(protocol, response, Int64(id), Int64(status)))| <= 100
  {
    hide Encoded, EncodedEntries, Ascii;
    var a, b := Field("protocol", Text(protocol)), Field("response", Text(response));
    var c, d := Field("id", Int64(id)), Field("status", Int64(status));
    var header := ReplyHeader(protocol, response, Int64(id), Int64(status));
    assert header == Dict([a] + [b] + [c] + [d]);
    EntriesLen([a] + [b] + [c], [d]);
    EntriesLen([a] + [b], [c]);
    EntriesLen([a], [b]);
    OneEntryLen("protocol", Text(protocol));
    OneEntryLen("response", Text(response));
    OneEntryLen("id", Int64(id));
    OneEntryLen("status", Int64(status));
    ScalarLen(Text(protocol));
    ScalarLen(Text(response));
    ScalarLen(Int64(id));
    ScalarLen(Int64(status));
    ScalarLen(header);
  }

  lemma StatusBodyLen(status: Option<i64>)
    ensures |Encoded(StatusBody(if status.Some? then Some(Int64(status.value)) else None))| <= 17
  {
    hide Encoded, EncodedEntries, Ascii;
    if status.Some? {
      OneEntryLen("status", Int64(status.value));
      ScalarLen(Int64(status.value));
      ScalarLen(StatusBody(Some(Int64(status.value))));
    } else {
      NoEntriesLen();
      ScalarLen(StatusBody(None));
    }
  }

  lemma ReplyDeliverable(reply: Reply)
    ensures Deliverable(ReplyMessage(reply))
  {
    hide Encoded, ReplyHeader, StatusBody, Ascii;
    match reply
    case Hello(id) =>
      ReplyHeaderLen("control", "hello", id, 0);
      StatusBodyLen(None);
    case Response(id, status, reason) =>
      ReplyHeaderLen("dataSend", "open", id, status);
      StatusBodyLen(reason);
  }

  // --- Reading replies back ---

  lemma ReplyHeaderReads(limit: nat, protocol: string, response: string, id: i64, status: i64)
    requires limit >= 32 && |protocol| <= 16 && |response| <= 16
    ensures var h := ReplyHeader(protocol, response, Int64(id), Int64(status));
      Fits(limit, h) && Normal(h) == ReplyHeader(protocol, response, Int(id), Int(status))
  {
    hide EntriesFit, NormalEntries, Ascii;
    var a, b := Field("protocol", Text(protocol)), Field("response", Text(response));
    var c, d := Field("id", Int64(id)), Field("status", Int64(status));
    TwoEntries(limit, a, b, [c, d] + []);
    TwoEntries(limit, c, d, []);
    OneEntry(limit, a);
    OneEntry(limit, b);
    OneEntry(limit, c);
    OneEntry(limit, d);
    NoEntries(limit);
    assert ReplyHeader(protocol, response, Int64(id), Int64(status)).entries == [a, b] + ([c, d] + []);
    assert ReplyHeader(protocol, response, Int(id), Int(status)).entries
        == [a] + [b] + ([Field("id", Int(id))] + [Field("status", Int(status))] + []);
  }

  lemma StatusBodyReads(limit: nat, status: Option<i64>)
    requires limit >= 32
    ensures var b := StatusBody(if status.Some? then Some(Int64(status.value)) else None);
      Fits(limit, b) && Normal(b) == StatusBody(if status.Some? then Some(Int(status.value)) else None)
  {
    hide EntriesFit, NormalEntries, Ascii;
    if status.Some? { OneEntry(limit, Field("status", Int64(status.value))); } else { NoEntries(limit); }
  }

  lemma ReplyReadsBack(r: Reader, reply: Reply)
    ensures PeerMessage(r, PayloadOf(ReplyMessage(reply))) == Some(ReplyRead(reply))
  {
    hide ReplyHeader, StatusBody, Fits, Normal, SplitPayload, Payload, Ascii;
    var limit, m := r.lengths.Limit(), ReplyMessage(reply);
    ReplyDeliverable(reply);
    match reply {
      case Hello(id) =>
        ReplyHeaderReads(limit, "control", "hello", id, 0);
        StatusBodyReads(limit, None);
      case Response(id, status, reason) =>
        ReplyHeaderReads(limit, "dataSend", "open", id, status);
        StatusBodyReads(limit, reason);
    }
    PayloadSplits(r, m.header, m.body);
  }

  // --- Passing by ---

  lemma NoEvent(protocol: string, response: string, id: Value, status: Value)
    ensures TextField(ReplyHeader(protocol, response, id, status), "event") == None
  {
    var entries := ReplyHeader(protocol, response, id, status).entries;
    FindNowhere(entries, Ascii("event"));
  }

  /** Whatever the handler answers, for every id, status and reason and with either length table: it is framed, read
      back as it was sent, and no event of any stream. */
  lemma ReplyPassesBy(r: Reader, stream: i64, reply: Reply)
    ensures Deliverable(ReplyMessage(reply)) && Bystander(r, stream, PayloadOf(ReplyMessage(reply)))
    ensures PeerMessage(r, PayloadOf(ReplyMessage(reply))) == Some(ReplyRead(reply))
  {
    hide ReplyHeader, StatusBody, SplitPayload, Payload, PeerMessage;
    ReplyDeliverable(reply);
    ReplyReadsBack(r, reply);
    match reply
    case Hello(id) => NoEvent("control", "hello", Int(id), Int(0));
    case Response(id, status, _) => NoEvent("dataSend", "open", Int(id), Int(status));
  }

  /** An event of a run on another stream, which the reader can read. */
  lemma OtherStreamPassesBy(r: Reader, stream: i64, other: i64, m: Media, i: nat)
    requires other != stream && |m.kind| <= 32 && i < |Pieces(m.data)| && |Pieces(m.data)[i]| <= r.lengths.Limit()
    ensures Bystander(r, stream, PayloadOf(DataEvent(Int64(other), m, i)))
  {
    hide Pieces, Payload, PeerMessage, Metadata, AsI64, Ascii, Find;
    DataEventReadsBack(r, other, m, i);
    var last := i + 1 == |Pieces(m.data)|;
    var total := if i == 0 then Some(AsI64(|m.data|)) else None;
    BodyFields(other, Packet(Pieces(m.data)[i], Metadata(m.kind, m.number, AsI64(i + 1), last, total)),
               if last then Some(m.eos) else None);
  }

  lemma OtherClosePassesBy(r: Reader, stream: i64, other: i64, reason: i64)
    requires other != stream
    ensures Bystander(r, stream, PayloadOf(CloseMessage(other, reason)))
  {
    hide Payload, PeerMessage;
    CloseDeliverable(other, reason);
    CloseReadsBack(r, other, reason);
    FindAt(CloseRead(other, reason).body.entries, 0, Ascii("streamId"));
  }

  /** A payload that somebody else sends: an answer of the handler, or an event of another stream. */
  ghost predicate SentByOthers(r: Reader, stream: i64, payload: bytes) {
    || (exists reply: Reply :: payload == PayloadOf(ReplyMessage(reply)))
    || (exists other: i64, m: Media, i: nat ::
          other != stream && |m.kind| <= 32 && i < |Pieces(m.data)| && |Pieces(m.data)[i]| <= r.lengths.Limit()
          && payload == PayloadOf(DataEvent(Int64(other), m, i)))
    || (exists other: i64, reason: i64 :: other != stream && payload == PayloadOf(CloseMessage(other, reason)))
  }

  /** So a log of the writer with nothing else between the run's messages is one the receiver can follow. */
  lemma OthersDoPassBy(r: Reader, stream: i64, log: seq<Sent>)
    requires forall s :: s in log && !s.own ==> SentByOthers(r, stream, s.payload)
    ensures OthersPassBy(r, stream, log)
  {
    hide Bystander, SentByOthers;
    forall s | s in log && !s.own ensures Bystander(r, stream, s.payload) { OtherPassesBy(r, stream, s.payload); }
  }

  lemma OtherPassesBy(r: Reader, stream: i64, payload: bytes)
    requires SentByOthers(r, stream, payload)
    ensures Bystander(r, stream, payload)
  {
    hide Bystander, PayloadOf, ReplyMessage, Pieces, DataEvent, CloseMessage;
    if reply: Reply :| payload == PayloadOf(ReplyMessage(reply)) {
      ReplyPassesBy(r, stream, reply);
    } else if other: i64, m: Media, i: nat :|
        other != stream && |m.kind| <= 32 && i < |Pieces(m.data)| && |Pieces(m.data)[i]| <= r.lengths.Limit()
        && payload == PayloadOf(DataEvent(Int64(other), m, i)) {
      OtherStreamPassesBy(r, stream, other, m, i);
    } else {
      var other: i64, reason: i64 :| other != stream && payload == PayloadOf(CloseMessage(other, reason));
      OtherClosePassesBy(r, stream, other, reason);
    }
  }
}
