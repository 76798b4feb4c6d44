/**
  Data events on the wire (src/hsv/hds.rs:230-246, 550-609; src/hsv/frame.rs:50-70): every one of them
  fits a frame, and a reader using the documented length table gets it back.
 */
module DataSendWire {
  import opened Wrappers
  import opened Bytes
  import opened CodecValues
  import opened CodecReader
  import opened Frame
  import opened HdsStream
  import opened DataSend

  // --- Sizes ---

  /** An upper bound of the encoded length, simple enough to add up. */
  ghost predicate AtMost(v: Value, n: nat) {
    |Encoded(v)| <= n
  }

  lemma {:induction false} EntriesLen(a: seq<Entry>, b: seq<Entry>)
    ensures |EncodedEntries(a + b)| == |EncodedEntries(a)| + |EncodedEntries(b)|
  {
    hide Encoded, EncodedKey;
    if a == [] {
      Unit(b);
    } else {
      EntriesLen(a[1..], b);
      assert (a + b)[1..] == a[1..] + b;
    }
  }

  lemma OneEntryLen(key: string, v: Value)
    requires |key| <= 32
    ensures |EncodedEntries([Field(key, v)])| == 1 + |key| + |Encoded(v)|
  {
    assert [Field(key, v)][1..] == [];
  }

  lemma ScalarLen(v: Value)
    ensures v.Bool? ==> AtMost(v, 1)
    ensures v.Int? || v.Int64? ==> AtMost(v, 9)
    ensures v.String? && |v.s| <= 32 ==> AtMost(v, 1 + |v.s|)
    ensures v.Data? ==> AtMost(v, 5 + |v.d|)
    ensures v.Dict? && |v.entries| <= 14 ==> |Encoded(v)| == 1 + |EncodedEntries(v.entries)|
  {
  }

  lemma HeaderLen(event: string)
    requires |event| <= 16
    ensures |Encoded(EventHeader(event))| <= 42
  {
    hide Encoded, EncodedEntries, Ascii;
    var a, b := Field("protocol", Text("dataSend")), Field("event", Text(event));
    assert EventHeader(event) == Dict([a] + [b]);
    EntriesLen([a], [b]);
    OneEntryLen("protocol", Text("dataSend"));
    OneEntryLen("event", Text(event));
    ScalarLen(Text("dataSend"));
    ScalarLen(Text(event));
    ScalarLen(EventHeader(event));
  }

  lemma MetadataLen(kind: bytes, number: i64, chunk: i64, last: bool, total: Option<i64>)
    requires |kind| <= 32
    ensures AtMost(Dict(Metadata(kind, number, chunk, last, total)), 160)
  {
    hide Encoded, EncodedEntries, Ascii;
    var a, b := Field("dataType", String(kind)), Field("dataSequenceNumber", Int(number));
    var c, d := Field("dataChunkSequenceNumber", Int(chunk)), Field("isLastDataChunk", Bool(last));
    var e := if total.Some? then [Field("dataTotalSize", Int(total.value))] else [];
    assert Metadata(kind, number, chunk, last, total) == [a] + [b] + [c] + [d] + e;
    EntriesLen([a] + [b] + [c] + [d], e);
    EntriesLen([a] + [b] + [c], [d]);
    EntriesLen([a] + [b], [c]);
    EntriesLen([a], [b]);
    OneEntryLen("dataType", String(kind));
    OneEntryLen("dataSequenceNumber", Int(number));
    OneEntryLen("dataChunkSequenceNumber", Int(chunk));
    OneEntryLen("isLastDataChunk", Bool(last));
    ScalarLen(String(kind));
    ScalarLen(Int(number));
    ScalarLen(Int(chunk));
    ScalarLen(Bool(last));
    if total.Some? {
      OneEntryLen("dataTotalSize", Int(total.value));
      ScalarLen(Int(total.value));
    } else {
      NoEntriesLen();
    }
    ScalarLen(Dict(Metadata(kind, number, chunk, last, total)));
  }

  lemma NoEntriesLen()
    ensures EncodedEntries([]) == []
  {
  }

  lemma ArrayOfOneLen(v: Value)
    ensures |Encoded(Array([v]))| == 1 + |Encoded(v)|
  {
    assert [v][1..] == [];
    assert EncodedItems([v]) == Encoded(v) + EncodedItems([]);
    assert EncodedItems([]) == [];
  }

  lemma PacketLen(piece: bytes, metadata: seq<Entry>, n: nat)
    requires AtMost(Dict(metadata), n)
    ensures AtMost(Packet(piece, metadata), |piece| + n + 20)
  {
    hide Encoded, EncodedEntries, Ascii;
    var a, b := Field("data", Data(piece)), Field("metadata", Dict(metadata));
    assert Packet(piece, metadata) == Dict([a] + [b]);
    EntriesLen([a], [b]);
    OneEntryLen("data", Data(piece));
    OneEntryLen("metadata", Dict(metadata));
    ScalarLen(Data(piece));
    ScalarLen(Packet(piece, metadata));
  }

  lemma BodyLen(stream: Value, packet: Value, eos: Option<bool>, n: nat)
    requires stream.Int? || stream.Int64?
    requires AtMost(packet, n)
    ensures AtMost(Body(stream, packet, eos), n + 50)
  {
    hide Encoded, EncodedEntries, Ascii;
    var a, b := Field("streamId", stream), Field("packets", Array([packet]));
    var e := if eos.Some? then [Field("endOfStream", Bool(eos.value))] else [];
    assert Body(stream, packet, eos) == Dict([a] + [b] + e);
    EntriesLen([a] + [b], e);
    EntriesLen([a], [b]);
    OneEntryLen("streamId", stream);
    OneEntryLen("packets", Array([packet]));
    ArrayOfOneLen(packet);
    ScalarLen(stream);
    if eos.Some? {
      OneEntryLen("endOfStream", Bool(eos.value));
      ScalarLen(Bool(eos.value));
    } else {
      NoEntriesLen();
    }
    ScalarLen(Body(stream, packet, eos));
  }

  /** The writer accepts the message: header and payload are within their limits. */
  ghost predicate Deliverable(m: Message) {
    var p := Payload(m.header, m.body);
    p.Ok? && |p.value| <= MAX_PAYLOAD
  }

  /** No data event is ever too large to be framed, whatever was recorded. */
  lemma DataEventDeliverable(stream: Value, m: Media, i: nat)
    requires stream.Int? || stream.Int64?
    requires |m.kind| <= 32 && i < |Pieces(m.data)|
    ensures Deliverable(DataEvent(stream, m, i))
  {
    hide Encoded, EncodedEntries, Ascii, Pieces, AsI64, Metadata, Packet, Body, EventHeader;
    var last := i + 1 == |Pieces(m.data)|;
    var total := if i == 0 then Some(AsI64(|m.data|)) else None;
    var metadata := Metadata(m.kind, m.number, AsI64(i + 1), last, total);
    var piece := Pieces(m.data)[i];
    PiecesFlatten(m.data);
    HeaderLen("data");
    MetadataLen(m.kind, m.number, AsI64(i + 1), last, total);
    PacketLen(piece, metadata, 160);
    BodyLen(stream, Packet(piece, metadata), if last then Some(m.eos) else None, |piece| + 180);
  }

  // --- Reading events back ---

  lemma {:induction false} EntriesFitAppend(limit: nat, a: seq<Entry>, b: seq<Entry>)
    ensures EntriesFit(limit, a + b) <==> EntriesFit(limit, a) && EntriesFit(limit, b)
  {
    hide Fits;
    if a == [] {
      Unit(b);
    } else {
      EntriesFitAppend(limit, a[1..], b);
      assert (a + b)[1..] == a[1..] + b;
    }
  }

  lemma {:induction false} NormalEntriesAppend(a: seq<Entry>, b: seq<Entry>)
    ensures NormalEntries(a + b) == NormalEntries(a) + NormalEntries(b)
  {
    hide Normal;
    if a == [] {
      Unit(b);
      Unit(NormalEntries(b));
    } else {
      NormalEntriesAppend(a[1..], b);
      assert (a + b)[1..] == a[1..] + b;
      Assoc([Entry(a[0].key, Normal(a[0].value))], NormalEntries(a[1..]), NormalEntries(b));
    }
  }

  lemma OneEntry(limit: nat, e: Entry)
    ensures EntriesFit(limit, [e]) <==> |e.key| <= limit && Fits(limit, e.value)
    ensures NormalEntries([e]) == [Entry(e.key, Normal(e.value))]
  {
    assert [e][1..] == [];
  }

  lemma OneItem(limit: nat, v: Value)
    ensures Fits(limit, Array([v])) <==> Fits(limit, v)
    ensures Normal(Array([v])) == Array([Normal(v)])
  {
    hide Fits, Normal;
    OneItemFits(limit, v);
    assert [v][1..] == [];
    assert NormalItems([v]) == [Normal(v)] + NormalItems([]);
    ArrayUnfolds(limit, [v]);
  }

  lemma ArrayUnfolds(limit: nat, items: seq<Value>)
    ensures Fits(limit, Array(items)) == ItemsFit(limit, items) && Normal(Array(items)) == Array(NormalItems(items))
  {
  }

  lemma OneItemFits(limit: nat, v: Value)
    ensures ItemsFit(limit, [v]) <==> Fits(limit, v)
  {
    hide Fits;
    assert [v][1..] == [];
    assert ItemsFit(limit, []);
  }

  lemma TwoEntries(limit: nat, a: Entry, b: Entry, more: seq<Entry>)
    ensures EntriesFit(limit, [a, b] + more)
        <==> EntriesFit(limit, [a]) && EntriesFit(limit, [b]) && EntriesFit(limit, more)
    ensures NormalEntries([a, b] + more) == NormalEntries([a]) + NormalEntries([b]) + NormalEntries(more)
  {
    hide EntriesFit, NormalEntries;
    assert [a, b] == [a] + [b];
    EntriesFitAppend(limit, [a], [b]);
    EntriesFitAppend(limit, [a, b], more);
    NormalEntriesAppend([a], [b]);
    NormalEntriesAppend([a, b], more);
  }

  lemma NoEntries(limit: nat)
    ensures EntriesFit(limit, []) && NormalEntries([]) == []
  {
  }

  lemma HeaderReads(limit: nat, event: string)
    requires limit >= 32 && |event| <= 16
    ensures Fits(limit, EventHeader(event)) && Normal(EventHeader(event)) == EventHeader(event)
  {
    hide EntriesFit, NormalEntries, Ascii;
    var a, b := Field("protocol", Text("dataSend")), Field("event", Text(event));
    TwoEntries(limit, a, b, []);
    OneEntry(limit, a);
    OneEntry(limit, b);
    NoEntries(limit);
    Unit([a, b]);
    assert EventHeader(event).entries == [a, b] + [];
    Unit([a] + [b]);
  }

  lemma MetadataReads(limit: nat, kind: bytes, number: i64, chunk: i64, last: bool, total: Option<i64>)
    requires limit >= 32 && |kind| <= 32
    ensures var es := Metadata(kind, number, chunk, last, total);
      EntriesFit(limit, es) && NormalEntries(es) == es
  {
    hide EntriesFit, NormalEntries, Ascii;
    var a, b := Field("dataType", String(kind)), Field("dataSequenceNumber", Int(number));
    var c, d := Field("dataChunkSequenceNumber", Int(chunk)), Field("isLastDataChunk", Bool(last));
    var e := if total.Some? then [Field("dataTotalSize", Int(total.value))] else [];
    assert Metadata(kind, number, chunk, last, total) == [a, b] + ([c, d] + e);
    TwoEntries(limit, a, b, [c, d] + e);
    TwoEntries(limit, c, d, e);
    OneEntry(limit, a);
    OneEntry(limit, b);
    OneEntry(limit, c);
    OneEntry(limit, d);
    if total.Some? { OneEntry(limit, e[0]); } else { NoEntries(limit); }
  }

  lemma PacketReads(limit: nat, piece: bytes, metadata: seq<Entry>)
    requires limit >= 32 && |piece| <= limit
    requires EntriesFit(limit, metadata) && NormalEntries(metadata) == metadata
    ensures Fits(limit, Packet(piece, metadata)) && Normal(Packet(piece, metadata)) == Packet(piece, metadata)
  {
    hide EntriesFit, NormalEntries, Ascii;
    var a, b := Field("data", Data(piece)), Field("metadata", Dict(metadata));
    TwoEntries(limit, a, b, []);
    OneEntry(limit, a);
    OneEntry(limit, b);
    NoEntries(limit);
    Unit([a, b]);
    Unit([a] + [b]);
    assert Packet(piece, metadata).entries == [a, b] + [];
  }

  lemma BodyReads(limit: nat, stream: i64, packet: Value, eos: Option<bool>)
    requires limit >= 32 && Fits(limit, packet) && Normal(packet) == packet
    ensures Fits(limit, Body(Int64(stream), packet, eos))
    ensures Normal(Body(Int64(stream), packet, eos)) == Body(Int(stream), packet, eos)
  {
    hide EntriesFit, NormalEntries, Ascii;
    var a, b := Field("streamId", Int64(stream)), Field("packets", Array([packet]));
    var e := if eos.Some? then [Field("endOfStream", Bool(eos.value))] else [];
    TwoEntries(limit, a, b, e);
    OneEntry(limit, a);
    OneEntry(limit, b);
    OneItem(limit, packet);
    if eos.Some? { OneEntry(limit, e[0]); } else { NoEntries(limit); }
    assert Body(Int64(stream), packet, eos).entries == [a, b] + e;
    assert Body(Int(stream), packet, eos).entries == [Field("streamId", Int(stream))] + [b] + e;
  }

  /** What a peer splits out of the payload of an event. */
  function PeerMessage(r: Reader, payload: bytes): Option<Message> {
    match SplitPayload(r, payload)
    case Ok((header, body)) => Some(Message(header, body))
    case Err(_) => None
  }

  /** With 4-byte lengths under 0x93 a peer reads back every data event. */
  lemma DataEventReadsBack(r: Reader, stream: i64, m: Media, i: nat)
    requires |m.kind| <= 32 && i < |Pieces(m.data)|
    requires |Pieces(m.data)[i]| <= r.lengths.Limit()
    ensures Deliverable(DataEvent(Int64(stream), m, i))
    ensures var e := DataEvent(Int64(stream), m, i);
      PeerMessage(r, Payload(e.header, e.body).value) == Some(DataEvent(Int(stream), m, i))
  {
    hide Pieces, AsI64, Metadata, Packet, Body, EventHeader, Fits, Normal, EntriesFit, NormalEntries, SplitPayload, Payload;
    var last := i + 1 == |Pieces(m.data)|;
    var total := if i == 0 then Some(AsI64(|m.data|)) else None;
    var metadata := Metadata(m.kind, m.number, AsI64(i + 1), last, total);
    var packet := Packet(Pieces(m.data)[i], metadata);
    var eos := if last then Some(m.eos) else None;
    var limit := r.lengths.Limit();
    DataEventDeliverable(Int64(stream), m, i);
    HeaderReads(limit, "data");
    MetadataReads(limit, m.kind, m.number, AsI64(i + 1), last, total);
    PacketReads(limit, Pieces(m.data)[i], metadata);
    BodyReads(limit, stream, packet, eos);
    PayloadSplits(r, EventHeader("data"), Body(Int64(stream), packet, eos));
  }
}
