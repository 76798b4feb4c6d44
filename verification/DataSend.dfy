/**
  The dataSend data events of a recording (src/hsv/hds.rs:550-609; docs/hds-wire-format.md, section 8),
  and the receiver they are meant for.
 */
module DataSend {
  import opened Wrappers
  import opened Bytes
  import opened CodecValues

  const MAX_CHUNK: nat := 0x4_0000

  /** A header and message dictionary, as handed to the frame writer. */
  datatype Message = Message(header: Value, body: Value)

  /** `as i64` of an unsigned 64-bit number. */
  function AsI64(n: nat): i64 {
    (n + 0x8000_0000_0000_0000) % 0x1_0000_0000_0000_0000 - 0x8000_0000_0000_0000
  }

  function Text(s: string): Value {
    String(Ascii(s))
  }

  function Field(key: string, v: Value): Entry {
    Entry(Ascii(key), v)
  }

  // --- What is sent ---

  /** One recorded segment: its kind, its sequence number, its bytes, and whether it ends the stream. */
  datatype Media = Media(kind: bytes, number: i64, data: bytes, eos: bool)

  /** The chunks of a segment; an empty segment still has one. */
  function Pieces(data: bytes): seq<bytes> {
    if data == [] then [[]] else Chunks(data, MAX_CHUNK)
  }

  function EventHeader(event: string): Value {
    Dict([Field("protocol", Text("dataSend")), Field("event", Text(event))])
  }

  function Metadata(kind: bytes, number: i64, chunk: i64, last: bool, total: Option<i64>): seq<Entry> {
    [Field("dataType", String(kind)), Field("dataSequenceNumber", Int(number)),
     Field("dataChunkSequenceNumber", Int(chunk)), Field("isLastDataChunk", Bool(last))]
    + if total.Some? then [Field("dataTotalSize", Int(total.value))] else []
  }

  function Packet(piece: bytes, metadata: seq<Entry>): Value {
    Dict([Field("data", Data(piece)), Field("metadata", Dict(metadata))])
  }

  /** `stream` is Int64 when written and Int when read back. */
  function Body(stream: Value, packet: Value, eos: Option<bool>): Value {
    Dict([Field("streamId", stream), Field("packets", Array([packet]))]
         + if eos.Some? then [Field("endOfStream", Bool(eos.value))] else [])
  }

  /** The event carrying piece i of a segment. */
  function DataEvent(stream: Value, m: Media, i: nat): Message
    requires i < |Pieces(m.data)|
  {
    var last := i + 1 == |Pieces(m.data)|;
    var total := if i == 0 then Some(AsI64(|m.data|)) else None;
    Message(EventHeader("data"),
            Body(stream,
                 Packet(Pieces(m.data)[i], Metadata(m.kind, m.number, AsI64(i + 1), last, total)),
                 if last then Some(m.eos) else None))
  }

  function DataEvents(stream: Value, m: Media, i: nat): (events: seq<Message>)
    requires i <= |Pieces(m.data)|
    ensures |events| == |Pieces(m.data)| - i
    decreases |Pieces(m.data)| - i
  {
    if i == |Pieces(m.data)| then [] else [DataEvent(stream, m, i)] + DataEvents(stream, m, i + 1)
  }

  function AllEvents(stream: Value, media: seq<Media>): seq<Message> {
    if media == [] then [] else DataEvents(stream, media[0], 0) + AllEvents(stream, media[1..])
  }

  // --- What a receiver makes of it ---

  /** A segment under reassembly. */
  datatype Partial = Partial(kind: bytes, number: i64, total: i64, data: bytes, chunks: nat)

  datatype Receiver = Receiver(media: seq<Media>, open: Option<Partial>)

  function IntField(d: Value, key: string): Option<i64> {
    match d.Get(Ascii(key)) case Some(Int(i)) => Some(i) case _ => None
  }

  function BoolField(d: Value, key: string): Option<bool> {
    match d.Get(Ascii(key)) case Some(Bool(b)) => Some(b) case _ => None
  }

  function TextField(d: Value, key: string): Option<bytes> {
    match d.Get(Ascii(key)) case Some(String(s)) => Some(s) case _ => None
  }

  /** The single packet of an event body: its bytes and its metadata. */
  function PacketOf(body: Value): Option<(bytes, Value)> {
    match body.Get(Ascii("packets"))
    case Some(Array(packets)) =>
      if |packets| != 1 then None
      else (match (packets[0].Get(Ascii("data")), packets[0].Get(Ascii("metadata")))
            case (Some(Data(d)), Some(metadata)) => Some((d, metadata))
            case _ => None)
    case _ => None
  }

  /**
    A strict receiver: it takes a data event only if it belongs to the stream and continues the
    open segment with the next chunk number, or starts a segment at chunk 1 with its total size;
    the last chunk must carry endOfStream and complete the announced size.
   */
  function Accept(stream: i64, rx: Receiver, m: Message): Option<Receiver> {
    if TextField(m.header, "protocol") != Some(Ascii("dataSend")) then None
    else if TextField(m.header, "event") != Some(Ascii("data")) then None
    else if IntField(m.body, "streamId") != Some(stream) then None
    else
      var packet := PacketOf(m.body);
      if packet.None? then None
      else AcceptPacket(rx, packet.value.0, packet.value.1, BoolField(m.body, "endOfStream"))
  }

  function AcceptPacket(rx: Receiver, piece: bytes, metadata: Value, eos: Option<bool>): Option<Receiver> {
    var kind, number := TextField(metadata, "dataType"), IntField(metadata, "dataSequenceNumber");
    var chunk, last := IntField(metadata, "dataChunkSequenceNumber"), BoolField(metadata, "isLastDataChunk");
    var total := IntField(metadata, "dataTotalSize");
    if kind.None? || number.None? || chunk.None? || last.None? || eos.Some? != last.value then None
    else
      var before := if rx.open.Some? then rx.open
                    else if total.Some? then Some(Partial(kind.value, number.value, total.value, [], 0)) else None;
      if before.None? || rx.open.Some? == total.Some? then None
      else if before.value.kind != kind.value || before.value.number != number.value then None
      else if chunk.value != AsI64(before.value.chunks + 1) then None
      else
        var data := before.value.data + piece;
        if !last.value then Some(rx.(open := Some(before.value.(data := data, chunks := before.value.chunks + 1))))
        else if before.value.total != AsI64(|data|) then None
        else Some(Receiver(rx.media + [Media(kind.value, number.value, data, eos.value)], None))
  }

  /** The receiver after a run of events, unless it rejected one. */
  function Receive(stream: i64, rx: Receiver, events: seq<Message>): Option<Receiver>
    decreases |events|
  {
    if events == [] then Some(rx)
    else
      match Accept(stream, rx, events[0])
      case None => None
      case Some(rx') => Receive(stream, rx', events[1..])
  }

  // --- Dictionary look-ups ---

  lemma {:induction false} FindAt(entries: seq<Entry>, i: nat, key: bytes)
    requires i < |entries| && entries[i].key == key
    requires forall j :: 0 <= j < i ==> entries[j].key != key
    ensures Find(entries, key) == Some(entries[i].value)
  {
    if i > 0 {
      FindAt(entries[1..], i - 1, key);
    }
  }

  lemma {:induction false} FindNowhere(entries: seq<Entry>, key: bytes)
    requires forall j :: 0 <= j < |entries| ==> entries[j].key != key
    ensures Find(entries, key) == None
  {
    if entries != [] {
      FindNowhere(entries[1..], key);
    }
  }

  lemma HeaderFields(event: string)
    ensures TextField(EventHeader(event), "protocol") == Some(Ascii("dataSend"))
    ensures TextField(EventHeader(event), "event") == Some(Ascii(event))
  {
    var entries := EventHeader(event).entries;
    FindAt(entries, 0, Ascii("protocol"));
    FindAt(entries, 1, Ascii("event"));
  }

  lemma BodyFields(stream: i64, packet: Value, eos: Option<bool>)
    ensures var b := Body(Int(stream), packet, eos);
      && IntField(b, "streamId") == Some(stream)
      && b.Get(Ascii("packets")) == Some(Array([packet]))
      && BoolField(b, "endOfStream") == eos
  {
    var entries := Body(Int(stream), packet, eos).entries;
    FindAt(entries, 0, Ascii("streamId"));
    FindAt(entries, 1, Ascii("packets"));
    if eos.Some? {
      FindAt(entries, 2, Ascii("endOfStream"));
    } else {
      FindNowhere(entries, Ascii("endOfStream"));
    }
  }

  lemma PacketFields(piece: bytes, metadata: seq<Entry>)
    ensures Packet(piece, metadata).Get(Ascii("data")) == Some(Data(piece))
    ensures Packet(piece, metadata).Get(Ascii("metadata")) == Some(Dict(metadata))
  {
    FindAt(Packet(piece, metadata).entries, 0, Ascii("data"));
    FindAt(Packet(piece, metadata).entries, 1, Ascii("metadata"));
  }

  lemma MetadataFields(kind: bytes, number: i64, chunk: i64, last: bool, total: Option<i64>)
    ensures var d := Dict(Metadata(kind, number, chunk, last, total));
      && TextField(d, "dataType") == Some(kind)
      && IntField(d, "dataSequenceNumber") == Some(number)
      && IntField(d, "dataChunkSequenceNumber") == Some(chunk)
      && BoolField(d, "isLastDataChunk") == Some(last)
      && IntField(d, "dataTotalSize") == total
  {
    var entries := Metadata(kind, number, chunk, last, total);
    FindAt(entries, 0, Ascii("dataType"));
    FindAt(entries, 1, Ascii("dataSequenceNumber"));
    FindAt(entries, 2, Ascii("dataChunkSequenceNumber"));
    FindAt(entries, 3, Ascii("isLastDataChunk"));
    if total.Some? {
      FindAt(entries, 4, Ascii("dataTotalSize"));
    } else {
      FindNowhere(entries, Ascii("dataTotalSize"));
    }
  }

  // --- Reassembly ---

  /** A receiver that has taken the first i pieces of m. */
  function Midway(rx: Receiver, m: Media, i: nat): Receiver
    requires i <= |Pieces(m.data)|
  {
    if i == 0 then rx
    else rx.(open := Some(Partial(m.kind, m.number, AsI64(|m.data|), Flatten(Pieces(m.data)[..i]), i)))
  }

  lemma PiecesFlatten(data: bytes)
    ensures Flatten(Pieces(data)) == data && |Pieces(data)| > 0
    ensures forall p :: p in Pieces(data) ==> |p| <= MAX_CHUNK
  {
    if data != [] {
      ChunksFlatten(data, MAX_CHUNK);
      ChunksBounded(data, MAX_CHUNK);
    }
  }

  /** Of 256 KiB each but for the last, which is empty only if there was nothing. */
  lemma PiecesAreFull(data: bytes, i: nat)
    requires i < |Pieces(data)|
    ensures if i + 1 < |Pieces(data)| then |Pieces(data)[i]| == 262144
            else |Pieces(data)[i]| <= 262144 && (Pieces(data)[i] == [] <==> data == [])
  {
    hide Chunks;
    if data != [] {
      ChunksBounded(data, MAX_CHUNK);
      if i + 1 < |Pieces(data)| { ChunksFull(data, MAX_CHUNK, i); }
    }
  }

  /** Numbers are as counted, and beyond 2^63 what is left of them in 64 bits. */
  lemma NumbersWrap(n: nat)
    ensures n < 0x8000_0000_0000_0000 ==> AsI64(n) == n
    ensures (n - AsI64(n)) % 0x1_0000_0000_0000_0000 == 0
  {
  }

  lemma FlattenUpTo(parts: seq<bytes>, i: nat)
    requires i < |parts|
    ensures Flatten(parts[..i + 1]) == Flatten(parts[..i]) + parts[i]
  {
    FlattenAppend(parts[..i], [parts[i]]);
    assert parts[..i + 1] == parts[..i] + [parts[i]];
    assert [parts[i]][1..] == [];
    Unit(parts[i]);
  }

  /** Whoever is in the middle of a segment, a data event comes down to its packet. */
  lemma DataEventTaken(stream: i64, rx: Receiver, m: Media, i: nat)
    requires i < |Pieces(m.data)|
    ensures var last := i + 1 == |Pieces(m.data)|;
      var total := if i == 0 then Some(AsI64(|m.data|)) else None;
      Accept(stream, rx, DataEvent(Int(stream), m, i))
      == AcceptPacket(rx, Pieces(m.data)[i], Dict(Metadata(m.kind, m.number, AsI64(i + 1), last, total)),
                      if last then Some(m.eos) else None)
  {
    hide Find, Pieces, Ascii, AsI64, AcceptPacket, Metadata;
    var last := i + 1 == |Pieces(m.data)|;
    var total := if i == 0 then Some(AsI64(|m.data|)) else None;
    var metadata := Metadata(m.kind, m.number, AsI64(i + 1), last, total);
    HeaderFields("data");
    BodyFields(stream, Packet(Pieces(m.data)[i], metadata), if last then Some(m.eos) else None);
    PacketFields(Pieces(m.data)[i], metadata);
  }

  lemma PieceAccepted(stream: i64, rx: Receiver, m: Media, i: nat)
    requires rx.open.None? && i < |Pieces(m.data)|
    ensures var last := i + 1 == |Pieces(m.data)|;
      Accept(stream, Midway(rx, m, i), DataEvent(Int(stream), m, i))
      == Some(if last then Receiver(rx.media + [m], None) else Midway(rx, m, i + 1))
  {
    hide Flatten, Pieces, AsI64, DataEvent, Accept, AcceptPacket, Metadata;
    var pieces := Pieces(m.data);
    var last := i + 1 == |pieces|;
    var total := if i == 0 then Some(AsI64(|m.data|)) else None;
    var eos := if last then Some(m.eos) else None;
    DataEventTaken(stream, Midway(rx, m, i), m, i);
    FlattenUpTo(pieces, i);
    PiecesFlatten(m.data);
    assert last ==> pieces[..i + 1] == pieces;
    assert Flatten(pieces[..0]) == [] by { NoParts(pieces); }
    MetadataAccepted(Midway(rx, m, i), pieces[i], m.kind, m.number, i, last, total, eos);
  }

  lemma NoParts(parts: seq<bytes>)
    ensures Flatten(parts[..0]) == []
  {
  }

  lemma MetadataAccepted(rx: Receiver, piece: bytes, kind: bytes, number: i64, i: nat, last: bool,
                         total: Option<i64>, eos: Option<bool>)
    requires total.Some? == rx.open.None? && eos.Some? == last
    requires rx.open.Some? ==> rx.open.value.kind == kind && rx.open.value.number == number && rx.open.value.chunks == i
    requires rx.open.None? ==> i == 0
    ensures var before := if rx.open.Some? then rx.open.value else Partial(kind, number, total.value, [], 0);
      var data := before.data + piece;
      AcceptPacket(rx, piece, Dict(Metadata(kind, number, AsI64(i + 1), last, total)), eos)
      == if !last then Some(rx.(open := Some(before.(data := data, chunks := i + 1))))
         else if before.total != AsI64(|data|) then None
         else Some(Receiver(rx.media + [Media(kind, number, data, eos.value)], None))
  {
    hide Find, Ascii, AsI64, Metadata;
    MetadataFields(kind, number, AsI64(i + 1), last, total);
  }

  /** The events of one segment rebuild exactly that segment. */
  lemma {:induction false} SegmentRebuilt(stream: i64, rx: Receiver, m: Media, i: nat)
    requires rx.open.None? && i < |Pieces(m.data)|
    ensures Receive(stream, Midway(rx, m, i), DataEvents(Int(stream), m, i))
         == Some(Receiver(rx.media + [m], None))
    decreases |Pieces(m.data)| - i
  {
    hide Accept, Pieces, Midway, DataEvent;
    PieceAccepted(stream, rx, m, i);
    var events := DataEvents(Int(stream), m, i);
    assert events[1..] == DataEvents(Int(stream), m, i + 1);
    if i + 1 < |Pieces(m.data)| {
      SegmentRebuilt(stream, rx, m, i + 1);
    }
  }

  lemma {:induction false} ReceiveAppend(stream: i64, rx: Receiver, a: seq<Message>, b: seq<Message>)
    ensures Receive(stream, rx, a + b) ==
      match Receive(stream, rx, a) case None => None case Some(rx') => Receive(stream, rx', b)
    decreases |a|
  {
    hide Accept;
    if a == [] {
      Unit(b);
    } else {
      assert (a + b)[1..] == a[1..] + b;
      var next := Accept(stream, rx, a[0]);
      if next.Some? { ReceiveAppend(stream, next.value, a[1..], b); }
    }
  }

  /** The events of a run of segments rebuild exactly those segments, in order, none rejected. */
  lemma {:induction false} AllRebuilt(stream: i64, rx: Receiver, media: seq<Media>)
    requires rx.open.None?
    ensures Receive(stream, rx, AllEvents(Int(stream), media)) == Some(Receiver(rx.media + media, None))
    decreases |media|
  {
    hide Accept, Receive, DataEvents, Pieces;
    if media == [] {
      Unit(rx.media);
      NothingReceived(stream, rx);
    } else {
      var m, more := media[0], media[1..];
      var first, rest := DataEvents(Int(stream), m, 0), AllEvents(Int(stream), more);
      PiecesFlatten(m.data);
      SegmentRebuilt(stream, rx, m, 0);
      ReceiveAppend(stream, rx, first, rest);
      AllRebuilt(stream, Receiver(rx.media + [m], None), more);
      Assoc(rx.media, [m], more);
      assert [m] + more == media;
    }
  }

  lemma NothingReceived(stream: i64, rx: Receiver)
    ensures Receive(stream, rx, []) == Some(rx)
  {
  }
}
