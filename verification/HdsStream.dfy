/**
  A HomeKit Data Stream as a sequence of payloads (src/hsv/frame.rs:49-119; src/hsv/hds.rs:230-246, 268-284):
  its framing, and the header and message dictionaries inside a payload.
 */
module HdsStream {
  import opened Wrappers
  import opened Bytes
  import opened Aead
  import opened Frame
  import opened Framed
  import opened CodecValues
  import opened CodecReader
  import opened CodecRoundTrip

  // --- The framing ---

  /** What ends a connection: a bad frame, a first frame no session opens, or a payload its handler fails on. */
  datatype ConnectionError = BadFrame(error: FrameError) | NoSessionMatched | NotHandled

  /** Whether the handler takes the n-th payload of the connection. */
  type Handler = (nat, bytes) -> bool

  function Patient(): Handler {
    (n: nat, p: bytes) => true
  }

  /** The framing of a stream under one session key. */
  function HdsFraming(c: Cipher, key: bytes, handler: Handler): (f: Framing<ConnectionError>)
    ensures Sound(f)
  {
    var f := Framing(buf => AsBadFrame(CompleteFrameLen(buf)),
                     (n: nat, frame: bytes) => AsBadFrame(DecryptFrame(c, key, n, frame)),
                     (n: nat, p: bytes) => if handler(n, p) then None else Some(NotHandled));
    assert Sound(f) by { BoundariesStable(); }
    f
  }

  function AsBadFrame<T>(r: Result<T, FrameError>): Result<T, ConnectionError> {
    match r case Ok(t) => Ok(t) case Err(e) => Err(BadFrame(e))
  }

  lemma BoundariesStable()
    ensures forall a, b :: CompleteFrameLen(a) != Ok(None) ==> CompleteFrameLen(a + b) == CompleteFrameLen(a)
  {
    forall a: bytes, b: bytes
      ensures CompleteFrameLen(a) != Ok(None) ==> CompleteFrameLen(a + b) == CompleteFrameLen(a)
    {
      BoundaryStable(a, b);
    }
  }

  function HdsSeal(c: Cipher, key: bytes): (nat, bytes) -> bytes {
    (n: nat, p: bytes) => Sealed(c, key, n, p)
  }

  /** The frames of the payloads, sealed with consecutive counters. */
  function Frames(c: Cipher, key: bytes, counter: nat, payloads: seq<bytes>): bytes {
    Records(HdsSeal(c, key), counter, payloads)
  }

  ghost predicate Sendable(payloads: seq<bytes>) {
    forall p :: p in payloads ==> |p| <= MAX_PAYLOAD
  }

  lemma FramesOpen(c: Cipher, key: bytes, handler: Handler, payloads: seq<bytes>)
    requires Lawful(c) && Sendable(payloads)
    ensures Opened(HdsFraming(c, key, handler), HdsSeal(c, key), payloads)
    ensures HdsFraming(c, key, handler).boundary([]) == Ok(None)
  {
    hide Lawful, Sound, Sealed, CompleteFrameLen, DecryptFrame;
    forall p, counter: nat | p in payloads
      ensures OpensAgain(HdsFraming(c, key, handler), HdsSeal(c, key), counter, p)
    {
      FrameFound(c, key, handler, counter, p);
    }
    EmptyBuffer();
  }

  lemma FrameFound(c: Cipher, key: bytes, handler: Handler, counter: nat, p: bytes)
    requires Lawful(c) && |p| <= MAX_PAYLOAD
    ensures OpensAgain(HdsFraming(c, key, handler), HdsSeal(c, key), counter, p)
  {
    hide Lawful, Sound, Sealed, CompleteFrameLen, DecryptFrame;
    FrameOpens(c, key, counter, p, []);
    forall tail: bytes
      ensures AsBadFrame(CompleteFrameLen(Sealed(c, key, counter, p) + tail)) == Ok(Some(|Sealed(c, key, counter, p)|))
    {
      FrameOpens(c, key, counter, p, tail);
    }
  }

  lemma EmptyBuffer()
    ensures CompleteFrameLen([]) == Ok(None)
  {
  }

  // --- Payloads ---

  datatype PayloadError =
    | HeaderTooLong
    | EmptyPayload
    | TruncatedHeader
    | MissingHeader
    | BadValue(error: DecodeError)

  /** A length byte, the header dictionary, the message dictionary. */
  function Payload(header: Value, message: Value): Result<bytes, PayloadError> {
    var h := Encoded(header);
    if |h| > 255 then Err(HeaderTooLong) else Ok([|h| as byte] + h + Encoded(message))
  }

  /** The two dictionaries of a payload; an absent message counts as an empty one. */
  function SplitPayload(r: Reader, payload: bytes): Result<(Value, Value), PayloadError> {
    if payload == [] then Err(EmptyPayload)
    else
      var headerLen := payload[0] as int;
      if |payload| < 1 + headerLen then Err(TruncatedHeader)
      else
        match Decode(r, payload[1..], [])
        case Fail(e) => Err(BadValue(e))
        case Done(None, _, _) => Err(MissingHeader)
        case Done(Some(header), _, _) =>
          match Decode(r, payload[1 + headerLen..], [])
          case Fail(e) => Err(BadValue(e))
          case Done(None, _, _) => Ok((header, Dict([])))
          case Done(Some(message), _, _) => Ok((header, message))
  }

  /** A payload splits back into the dictionaries it was built from. */
  lemma PayloadSplits(r: Reader, header: Value, message: Value)
    requires Fits(r.lengths.Limit(), header) && Fits(r.lengths.Limit(), message)
    ensures Payload(header, message).Ok? ==>
      SplitPayload(r, Payload(header, message).value) == Ok((Normal(header), Normal(message)))
  {
    hide Encoded, Decode, Normal, Leaves, Fits;
    var h, m := Encoded(header), Encoded(message);
    if |h| <= 255 {
      var payload := [|h| as byte] + h + m;
      assert payload[1..] == h + m;
      assert payload[1 + |h|..] == m;
      ValueReadsBack(r, header, m, []);
      ValueReadsBack(r, message, [], []);
      Unit(m);
    }
  }

  /** A header of up to 255 bytes is put behind its length; a longer one is refused. */
  lemma PayloadLayout(header: Value, message: Value)
    ensures var h := Encoded(header);
      Payload(header, message) == if |h| < 256 then Ok([|h| as byte] + h + Encoded(message)) else Err(HeaderTooLong)
  {
  }

  /** What is no payload: nothing at all, less than the header announced, no header; an absent message is none, and a
      message is read from where the header was announced to end, wherever it does. */
  lemma PayloadsRefused(r: Reader, n: byte, s: bytes, header: Value, tail: bytes)
    requires Fits(r.lengths.Limit(), header) && |Encoded(header)| <= 255
    ensures SplitPayload(r, []) == Err(EmptyPayload)
    ensures |s| < n as int ==> SplitPayload(r, [n] + s) == Err(TruncatedHeader)
    ensures n as int <= |[0x03] + s| ==> SplitPayload(r, [n] + ([0x03] + s)) == Err(MissingHeader)
    ensures var h := Encoded(header);
      SplitPayload(r, [|h| as byte] + (h + ([0x03] + tail))) == Ok((Normal(header), Dict([])))
  {
    hide Encoded, Decode, Normal, Leaves, Fits;
    var h := Encoded(header);
    assert ([n] + ([0x03] + s))[1..] == [0x03] + s;
    TerminatorRead(r, s, []);
    var payload := [|h| as byte] + (h + ([0x03] + tail));
    assert payload[1..] == h + ([0x03] + tail) && payload[1 + |h|..] == [0x03] + tail;
    ValueReadsBack(r, header, [0x03] + tail, []);
    TerminatorRead(r, tail, []);
  }
}
