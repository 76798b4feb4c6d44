/**
  From the recorder to the controller (src/hsv/hds.rs:129-220, 268-284, 437-609): what a peer makes of the bytes it
  gets, whatever else is on the stream and however much of it arrives.
 */
module Delivery {
  import opened Wrappers
  import opened Bytes
  import opened CodecValues
  import opened CodecReader
  import opened Aead
  import opened Frame
  import opened Framed
  import opened HdsStream
  import opened Hds
  import opened DataSend
  import opened DataSendWire
  import opened Pump
  import opened PumpProperties

  // --- The peer ---

  /** A receiver of one stream, and the reason it was closed for, if it was. */
  datatype Peer = Peer(rx: Receiver, closed: Option<i64>)

  const NewPeer := Peer(Receiver([], None), None)

  /** The message is an event of this stream. */
  predicate Concerns(stream: i64, m: Message) {
    && TextField(m.header, "protocol") == Some(Ascii("dataSend"))
    && TextField(m.header, "event").Some?
    && IntField(m.body, "streamId") == Some(stream)
  }

  /** Messages that are none of its events pass by; nothing may follow a close. */
  function Take(stream: i64, peer: Peer, m: Message): Option<Peer> {
    if !Concerns(stream, m) then Some(peer)
    else if peer.closed.Some? then None
    else if TextField(m.header, "event") == Some(Ascii("close")) then
      var reason := IntField(m.body, "reason");
      if reason.None? then None else Some(peer.(closed := reason))
    else
      var rx := Accept(stream, peer.rx, m);
      if rx.None? then None else Some(peer.(rx := rx.value))
  }

  /** The peer after these payloads, unless it could not read or take one. */
  function Given(r: Reader, stream: i64, peer: Peer, payloads: seq<bytes>): Option<Peer>
    decreases |payloads|
  {
    if payloads == [] then Some(peer)
    else
      var m := PeerMessage(r, payloads[0]);
      var next := if m.None? then None else Take(stream, peer, m.value);
      if next.None? then None else Given(r, stream, next.value, payloads[1..])
  }

  lemma {:induction false} GivenAppend(r: Reader, stream: i64, peer: Peer, a: seq<bytes>, b: seq<bytes>)
    ensures var half := Given(r, stream, peer, a);
      Given(r, stream, peer, a + b) == if half.None? then None else Given(r, stream, half.value, b)
    decreases |a|
  {
    hide PeerMessage, Take;
    if a == [] {
      Unit(b);
    } else {
      assert (a + b)[1..] == a[1..] + b;
      var m := PeerMessage(r, a[0]);
      var next := if m.None? then None else Take(stream, peer, m.value);
      if next.Some? { GivenAppend(r, stream, next.value, a[1..], b); }
    }
  }

  /** What it has rebuilt it keeps. */
  lemma TakeKeeps(stream: i64, peer: Peer, m: Message)
    ensures var next := Take(stream, peer, m);
      next.Some? ==> peer.rx.media <= next.value.rx.media
  {
  }

  lemma {:induction false} GivenKeeps(r: Reader, stream: i64, peer: Peer, payloads: seq<bytes>)
    ensures var end := Given(r, stream, peer, payloads);
      end.Some? ==> peer.rx.media <= end.value.rx.media
    decreases |payloads|
  {
    hide PeerMessage, Take;
    if payloads != [] {
      var m := PeerMessage(r, payloads[0]);
      if m.Some? {
        TakeKeeps(stream, peer, m.value);
        var next := Take(stream, peer, m.value);
        if next.Some? { GivenKeeps(r, stream, next.value, payloads[1..]); }
      }
    }
  }

  /** A peer that could take everything can take every part of it from the start, and has rebuilt as much. */
  lemma GivenPart(r: Reader, stream: i64, peer: Peer, part: seq<bytes>, all: seq<bytes>)
    requires part <= all && Given(r, stream, peer, all).Some?
    ensures var half := Given(r, stream, peer, part);
      half.Some? && half.value.rx.media <= Given(r, stream, peer, all).value.rx.media
  {
    hide Given;
    assert all == part + all[|part|..];
    GivenAppend(r, stream, peer, part, all[|part|..]);
    var half := Given(r, stream, peer, part);
    if half.Some? { GivenKeeps(r, stream, half.value, all[|part|..]); }
  }

  // --- Other messages ---

  /** A payload the peer can read, and which is no event of this stream. */
  ghost predicate Bystander(r: Reader, stream: i64, payload: bytes) {
    && |payload| <= MAX_PAYLOAD
    && PeerMessage(r, payload).Some? && !Concerns(stream, PeerMessage(r, payload).value)
  }

  ghost predicate OthersPassBy(r: Reader, stream: i64, log: seq<Sent>) {
    forall s :: s in log && !s.own ==> Bystander(r, stream, s.payload)
  }

  /** The peer sees only the run, whatever was sealed in between. */
  lemma {:induction false} OnlyOwnMatters(r: Reader, stream: i64, peer: Peer, log: seq<Sent>)
    requires OthersPassBy(r, stream, log)
    ensures Given(r, stream, peer, PayloadsIn(log)) == Given(r, stream, peer, OwnIn(log))
    decreases |log|
  {
    hide PeerMessage, Concerns;
    if log != [] {
      var s, more := log[0], log[1..];
      assert s in log;
      assert PayloadsIn(log)[1..] == PayloadsIn(more);
      Unit(OwnIn(more));
      if s.own {
        assert ([s.payload] + OwnIn(more))[1..] == OwnIn(more);
        var m := PeerMessage(r, s.payload);
        if m.Some? && Take(stream, peer, m.value).Some? {
          OnlyOwnMatters(r, stream, Take(stream, peer, m.value).value, more);
        }
      } else {
        OnlyOwnMatters(r, stream, peer, more);
      }
    }
  }

  // --- The run's own messages ---

  ghost predicate ShortKinds(media: seq<Media>) {
    forall i :: 0 <= i < |media| ==> |media[i].kind| <= 32
  }

  /** Every chunk is short enough for the reader's length table. */
  ghost predicate PiecesFit(r: Reader, media: seq<Media>) {
    forall i, j :: 0 <= i < |media| && 0 <= j < |Pieces(media[i].data)| ==>
      |Pieces(media[i].data)[j]| <= r.lengths.Limit()
  }

  lemma {:induction false} SegmentSendable(stream: i64, m: Media, i: nat)
    requires |m.kind| <= 32 && i <= |Pieces(m.data)|
    ensures Sendable(PayloadsOf(DataEvents(Int64(stream), m, i)))
    decreases |Pieces(m.data)| - i
  {
    hide Payload, DataEvent, Pieces;
    if i < |Pieces(m.data)| {
      DataEventDeliverable(Int64(stream), m, i);
      SegmentSendable(stream, m, i + 1);
      var events := DataEvents(Int64(stream), m, i);
      assert events[1..] == DataEvents(Int64(stream), m, i + 1);
    }
  }

  lemma {:induction false} MediaSendable(stream: i64, media: seq<Media>)
    requires ShortKinds(media)
    ensures Sendable(MediaPayloads(stream, media))
  {
    hide PayloadsOf, DataEvents, Pieces;
    if media == [] {
      NoMediaPayloads(stream);
    } else {
      assert [media[0]] + media[1..] == media;
      MediaPayloadsCons(stream, media[0], media[1..]);
      SegmentSendable(stream, media[0], 0);
      MediaSendable(stream, media[1..]);
    }
  }

  lemma OwnSendable(stream: i64, p: Plan)
    requires ShortKinds(p.media)
    ensures Sendable(RunPayloads(stream, p))
  {
    hide MediaPayloads, Payload;
    MediaSendable(stream, p.media);
    if p.outcome.Closed? { CloseDeliverable(stream, p.outcome.reason); }
  }

  lemma {:induction false} OwnAmong(log: seq<Sent>)
    ensures forall s :: s in log && s.own ==> s.payload in OwnIn(log)
  {
    if log != [] { OwnAmong(log[1..]); }
  }

  lemma LogSendable(r: Reader, stream: i64, p: Plan, log: seq<Sent>)
    requires ShortKinds(p.media) && OwnIn(log) <= RunPayloads(stream, p) && OthersPassBy(r, stream, log)
    ensures Sendable(PayloadsIn(log))
  {
    hide RunPayloads, PeerMessage, OwnIn;
    OwnSendable(stream, p);
    OwnAmong(log);
    forall i | 0 <= i < |log| ensures |log[i].payload| <= MAX_PAYLOAD {
      assert log[i] in log;
      if log[i].own { assert log[i].payload in RunPayloads(stream, p); }
    }
  }

  lemma EventNames()
    ensures Ascii("data") != Ascii("close")
  {
    assert |Ascii("data")| == 4 && |Ascii("close")| == 5;
  }

  lemma AcceptedConcerns(stream: i64, rx: Receiver, m: Message)
    requires Accept(stream, rx, m).Some?
    ensures Take(stream, Peer(rx, None), m) == Some(Peer(Accept(stream, rx, m).value, None))
  {
    hide Ascii, AcceptPacket, PacketOf;
    EventNames();
  }

  lemma {:induction false} SegmentGiven(r: Reader, stream: i64, rx: Receiver, m: Media, i: nat)
    requires rx.open.None? && |m.kind| <= 32 && i < |Pieces(m.data)|
    requires forall j :: 0 <= j < |Pieces(m.data)| ==> |Pieces(m.data)[j]| <= r.lengths.Limit()
    ensures Given(r, stream, Peer(Midway(rx, m, i), None), PayloadsOf(DataEvents(Int64(stream), m, i)))
         == Some(Peer(Receiver(rx.media + [m], None), None))
    decreases |Pieces(m.data)| - i
  {
    hide Payload, DataEvent, Pieces, PeerMessage, Take, Accept, Midway;
    var events := DataEvents(Int64(stream), m, i);
    assert events[1..] == DataEvents(Int64(stream), m, i + 1);
    assert PayloadsOf(events)[1..] == PayloadsOf(events[1..]);
    DataEventReadsBack(r, stream, m, i);
    PieceAccepted(stream, rx, m, i);
    AcceptedConcerns(stream, Midway(rx, m, i), DataEvent(Int(stream), m, i));
    if i + 1 < |Pieces(m.data)| {
      SegmentGiven(r, stream, rx, m, i + 1);
    } else {
      assert PayloadsOf(events[1..]) == [];
    }
  }

  lemma {:induction false} MediaGiven(r: Reader, stream: i64, rx: Receiver, media: seq<Media>)
    requires rx.open.None? && ShortKinds(media) && PiecesFit(r, media)
    ensures Given(r, stream, Peer(rx, None), MediaPayloads(stream, media)) == Some(Peer(Receiver(rx.media + media, None), None))
    decreases |media|
  {
    hide PayloadsOf, DataEvents, Pieces, Given, ShortKinds, PiecesFit;
    if media == [] {
      NoMediaPayloads(stream);
      NothingGiven(r, stream, Peer(rx, None));
      Unit(rx.media);
    } else {
      var m, more := media[0], media[1..];
      var next := Receiver(rx.media + [m], None);
      assert [m] + more == media;
      MediaPayloadsCons(stream, m, more);
      FirstFits(r, media);
      PiecesFlatten(m.data);
      MidwayStart(rx, m);
      SegmentGiven(r, stream, rx, m, 0);
      MediaGiven(r, stream, next, more);
      GivenAppend(r, stream, Peer(rx, None), SegmentPayloads(stream, m), MediaPayloads(stream, more));
      Assoc(rx.media, [m], more);
    }
  }

  lemma NothingGiven(r: Reader, stream: i64, peer: Peer)
    ensures Given(r, stream, peer, []) == Some(peer)
  {
  }

  lemma MidwayStart(rx: Receiver, m: Media)
    requires rx.open.None?
    ensures Midway(rx, m, 0) == rx
  {
  }

  lemma FirstFits(r: Reader, media: seq<Media>)
    requires media != [] && ShortKinds(media) && PiecesFit(r, media)
    ensures |media[0].kind| <= 32
    ensures forall j :: 0 <= j < |Pieces(media[0].data)| ==> |Pieces(media[0].data)[j]| <= r.lengths.Limit()
    ensures ShortKinds(media[1..]) && PiecesFit(r, media[1..])
  {
    hide Pieces;
    var more := media[1..];
    forall i, j | 0 <= i < |more| && 0 <= j < |Pieces(more[i].data)|
      ensures |Pieces(more[i].data)[j]| <= r.lengths.Limit()
    {
      assert media[i + 1] == more[i];
    }
  }

  // --- The close event ---

  /** The close event as it is read back. */
  function CloseRead(stream: i64, reason: i64): Message {
    Message(EventHeader("close"), Dict([Field("streamId", Int(stream)), Field("reason", Int(reason))]))
  }

  lemma CloseReadsBack(r: Reader, stream: i64, reason: i64)
    ensures PeerMessage(r, PayloadOf(CloseMessage(stream, reason))) == Some(CloseRead(stream, reason))
  {
    hide EventHeader, Fits, Normal, EntriesFit, NormalEntries, SplitPayload, Payload, Ascii;
    var a, b := Field("streamId", Int64(stream)), Field("reason", Int64(reason));
    var limit := r.lengths.Limit();
    CloseDeliverable(stream, reason);
    HeaderReads(limit, "close");
    TwoEntries(limit, a, b, []);
    OneEntry(limit, a);
    OneEntry(limit, b);
    NoEntries(limit);
    Unit([a, b]);
    CloseFits(limit, stream, reason);
    PayloadSplits(r, EventHeader("close"), CloseMessage(stream, reason).body);
  }

  lemma CloseFits(limit: nat, stream: i64, reason: i64)
    requires limit >= 32
    ensures Fits(limit, CloseMessage(stream, reason).body)
    ensures Normal(CloseMessage(stream, reason).body) == CloseRead(stream, reason).body
  {
    hide EntriesFit, NormalEntries, Ascii;
    var a, b := Field("streamId", Int64(stream)), Field("reason", Int64(reason));
    TwoEntries(limit, a, b, []);
    OneEntry(limit, a);
    OneEntry(limit, b);
    NoEntries(limit);
    Unit([a, b]);
    assert CloseMessage(stream, reason).body.entries == [a, b] + [];
    assert CloseRead(stream, reason).body.entries == [Field("streamId", Int(stream))] + [Field("reason", Int(reason))] + [];
  }

  lemma CloseTaken(stream: i64, reason: i64, rx: Receiver)
    ensures Take(stream, Peer(rx, None), CloseRead(stream, reason)) == Some(Peer(rx, Some(reason)))
  {
    var entries := CloseRead(stream, reason).body.entries;
    HeaderFields("close");
    assert Ascii("streamId") != Ascii("reason") by { assert |Ascii("streamId")| == 8 && |Ascii("reason")| == 6; }
    FindAt(entries, 0, Ascii("streamId"));
    FindAt(entries, 1, Ascii("reason"));
    hide Ascii, EventHeader, Accept;
  }

  /** A whole run, given to the peer: its segments, and its close if it was closed. */
  lemma RunGiven(r: Reader, stream: i64, p: Plan)
    requires ShortKinds(p.media) && PiecesFit(r, p.media)
    ensures Given(r, stream, NewPeer, RunPayloads(stream, p)) == Some(AsHeld(p))
  {
    hide MediaPayloads, PayloadOf, PeerMessage, Take, ShortKinds, PiecesFit;
    MediaGiven(r, stream, Receiver([], None), p.media);
    Unit(p.media);
    var half := Peer(Receiver(p.media, None), None);
    if p.outcome.Closed? {
      var close := PayloadOf(CloseMessage(stream, p.outcome.reason));
      GivenAppend(r, stream, NewPeer, MediaPayloads(stream, p.media), [close]);
      CloseReadsBack(r, stream, p.outcome.reason);
      CloseTaken(stream, p.outcome.reason, half.rx);
      assert [close][1..] == [];
    } else {
      Unit(MediaPayloads(stream, p.media));
    }
  }

  function AsHeld(p: Plan): Peer {
    Peer(Receiver(p.media, None), if p.outcome.Closed? then Some(p.outcome.reason) else None)
  }

  // --- What the peer can read ---

  /** The documented 4-byte length reads every chunk; the 3-byte one only those below 64 KiB. */
  lemma DocumentedPeersRead(r: Reader, media: seq<Media>)
    ensures r.lengths.AsDocumented? ==> PiecesFit(r, media)
    ensures r.lengths.AsCoded? && (forall i :: 0 <= i < |media| ==> |media[i].data| <= 65535) ==> PiecesFit(r, media)
  {
    hide Pieces;
    forall i, j | 0 <= i < |media| && 0 <= j < |Pieces(media[i].data)|
      ensures |Pieces(media[i].data)[j]| <= MAX_CHUNK && |Pieces(media[i].data)[j]| <= |media[i].data|
    {
      var data := media[i].data;
      PiecesFlatten(data);
      assert Pieces(data)[j] in Pieces(data);
      PartOfWhole(Pieces(data), j);
    }
  }

  lemma {:induction false} PartOfWhole(parts: seq<bytes>, j: nat)
    requires j < |parts|
    ensures |parts[j]| <= |Flatten(parts)|
  {
    if j > 0 {
      PartOfWhole(parts[1..], j - 1);
    }
  }

  /** A peer with the documented length fields can read anything recorded, one with the decoder's own only segments
      up to 65535 bytes. */
  ghost predicate Readable(r: Reader, recorded: seq<bytes>) {
    r.lengths.AsDocumented? || forall d :: d in recorded ==> |d| <= 65535
  }

  lemma RunFits(r: Reader, init: Option<bytes>, prebuffer: seq<bytes>, cancelAt: nat, ticks: seq<Tick>)
    requires ClockRuns(ticks) && Readable(r, Recorded(init, prebuffer, cancelAt, ticks))
    ensures var media := Recording(init, prebuffer, cancelAt, ticks).media;
      ShortKinds(media) && PiecesFit(r, media)
  {
    hide Recorded, ClockRuns, PiecesFit, Buffered;
    var media := Recording(init, prebuffer, cancelAt, ticks).media;
    RecordingSegments(init, prebuffer, cancelAt, ticks);
    if init.Some? { RecordingNumbered(init.value, prebuffer, cancelAt, ticks); }
    hide Recording;
    forall i | 0 <= i < |media| ensures |media[i].kind| <= 32 {
      if i > 0 { assert media[1..][i - 1] == media[i]; }
    }
    forall i | 0 <= i < |media| && r.lengths.AsCoded? ensures |media[i].data| <= 65535 {
      assert DataOf(media)[i] in Recorded(init, prebuffer, cancelAt, ticks);
    }
    DocumentedPeersRead(r, media);
  }

  // --- From the recorder to the peer ---

  lemma WireDrains(c: Cipher, key: bytes, sent: seq<bytes>, cuts: seq<bytes>)
    requires Lawful(c) && Sendable(sent)
    requires Flatten(cuts) <= Frames(c, key, 0, sent)
    ensures var d := AfterReads(HdsFraming(c, key, Patient()), Drained([], 0, [], None), cuts);
      && d.error.None? && d.payloads <= sent
      && (Flatten(cuts) == Frames(c, key, 0, sent) ==> d.payloads == sent && d.rest == [])
  {
    hide Lawful, Records, Opened, Sound, Drain, AfterReads, Sendable, CompleteFrameLen;
    var f, wire := HdsFraming(c, key, Patient()), Frames(c, key, 0, sent);
    FramesOpen(c, key, Patient(), sent);
    AllWelcome(c, key, Patient(), sent);
    NothingToDrain(f, 0, []);
    CuttingDoesNotMatter(f, 0, Drained([], 0, [], None), [], cuts);
    Unit(Flatten(cuts));
    WholeDrains(f, HdsSeal(c, key), 0, sent);
    assert Flatten(cuts) + wire[|Flatten(cuts)|..] == wire;
    PrefixDrains(f, HdsSeal(c, key), 0, sent, Flatten(cuts), wire[|Flatten(cuts)|..]);
  }

  /**
    A run of the pump, other messages sealed in between, the socket broken at any point, and the bytes that got
    through cut up in any way: the peer decrypts a part of what was sealed, from the start and without an error,
    and has rebuilt a part of the recording, from the start.
   */
  lemma PeerHoldsWhatArrived(
      c: Cipher, key: bytes, r: Reader, stream: i64, init: Option<bytes>, prebuffer: seq<bytes>, cancelAt: nat, ticks: seq<Tick>,
      log: seq<Sent>, cuts: seq<bytes>)
    requires Lawful(c) && ClockRuns(ticks) && Readable(r, Recorded(init, prebuffer, cancelAt, ticks))
    requires OthersPassBy(r, stream, log)
    requires OwnIn(log) <= RunPayloads(stream, Recording(init, prebuffer, cancelAt, ticks))
    requires Flatten(cuts) <= Frames(c, key, 0, PayloadsIn(log))
    ensures var d := AfterReads(HdsFraming(c, key, Patient()), Drained([], 0, [], None), cuts);
      var peer := Given(r, stream, NewPeer, d.payloads);
      && d.error.None? && d.payloads <= PayloadsIn(log)
      && peer.Some?
      && DataOf(peer.value.rx.media) <= Recorded(init, prebuffer, cancelAt, ticks)
  {
    hide Lawful, ClockRuns, Readable, Recorded, OthersPassBy, OwnIn, RunPayloads, Recording, AfterReads, Given, ShortKinds, PiecesFit,
         HdsFraming, Frames, Sendable;
    var p := Recording(init, prebuffer, cancelAt, ticks);
    RunFits(r, init, prebuffer, cancelAt, ticks);
    LogSendable(r, stream, p, log);
    WireDrains(c, key, PayloadsIn(log), cuts);
    RunGiven(r, stream, p);
    GivenPart(r, stream, NewPeer, OwnIn(log), RunPayloads(stream, p));
    OnlyOwnMatters(r, stream, NewPeer, log);
    GivenPart(r, stream, NewPeer, AfterReads(HdsFraming(c, key, Patient()), Drained([], 0, [], None), cuts).payloads, PayloadsIn(log));
    RecordingSegments(init, prebuffer, cancelAt, ticks);
  }

  /**
    And when everything was sealed and has arrived, it holds the recording: the init segment, the prebuffer and the
    live fragments, byte for byte up to where the run ended, and the reason if the run was closed.
   */
  lemma PeerRebuildsRecording(
      c: Cipher, key: bytes, r: Reader, stream: i64, init: Option<bytes>, prebuffer: seq<bytes>, cancelAt: nat, ticks: seq<Tick>,
      log: seq<Sent>, cuts: seq<bytes>)
    requires Lawful(c) && ClockRuns(ticks) && Readable(r, Recorded(init, prebuffer, cancelAt, ticks))
    requires OthersPassBy(r, stream, log)
    requires OwnIn(log) == RunPayloads(stream, Recording(init, prebuffer, cancelAt, ticks))
    requires Flatten(cuts) == Frames(c, key, 0, PayloadsIn(log))
    ensures var d := AfterReads(HdsFraming(c, key, Patient()), Drained([], 0, [], None), cuts);
      var peer := Given(r, stream, NewPeer, d.payloads);
      && d.error.None? && d.rest == [] && d.payloads == PayloadsIn(log)
      && peer.Some? && peer.value.rx.open.None?
      && peer.value.rx.media == Recording(init, prebuffer, cancelAt, ticks).media
      && DataOf(peer.value.rx.media) == Recorded(init, prebuffer, cancelAt, ticks)
      && (var ends := HowItEnds(init, prebuffer, cancelAt, ticks);
          peer.value.closed == if ends.Closed? then Some(ends.reason) else None)
  {
    hide Lawful, ClockRuns, Readable, Recorded, OthersPassBy, OwnIn, RunPayloads, Recording, AfterReads, Given, ShortKinds, PiecesFit,
         HdsFraming, Frames, Sendable, HowItEnds;
    var p := Recording(init, prebuffer, cancelAt, ticks);
    RunFits(r, init, prebuffer, cancelAt, ticks);
    LogSendable(r, stream, p, log);
    WireDrains(c, key, PayloadsIn(log), cuts);
    RunGiven(r, stream, p);
    OnlyOwnMatters(r, stream, NewPeer, log);
    RecordingSegments(init, prebuffer, cancelAt, ticks);
  }

  /** So for the writer the pump has run against: whatever part of its socket's bytes arrives. */
  lemma WriterFeedsPeer(
      w: FrameWriter, r: Reader, stream: i64, init: Option<bytes>, prebuffer: seq<bytes>, cancelAt: nat, ticks: seq<Tick>,
      cuts: seq<bytes>)
    requires w.Valid() && Lawful(w.c) && ClockRuns(ticks) && Readable(r, Recorded(init, prebuffer, cancelAt, ticks))
    requires OthersPassBy(r, stream, w.log)
    requires OwnIn(w.log) <= RunPayloads(stream, Recording(init, prebuffer, cancelAt, ticks))
    requires Flatten(cuts) <= w.wire
    ensures var d := AfterReads(HdsFraming(w.c, w.key, Patient()), Drained([], 0, [], None), cuts);
      var peer := Given(r, stream, NewPeer, d.payloads);
      d.error.None? && peer.Some? && DataOf(peer.value.rx.media) <= Recorded(init, prebuffer, cancelAt, ticks)
  {
    hide Lawful, ClockRuns, Readable, Recorded, OthersPassBy, OwnIn, RunPayloads, Recording, AfterReads, Given, HdsFraming, Frames, Sendable;
    PeerHoldsWhatArrived(w.c, w.key, r, stream, init, prebuffer, cancelAt, ticks, w.log, cuts);
  }
}
