/** HomeKit Data Stream framing (src/hsv/frame.rs): sealed frames and their boundaries in a byte stream. */
module Frame {
  import opened Wrappers
  import opened Bytes
  import opened Aead

  const MAX_PAYLOAD: nat := 0xF_FFFF
  const FRAME_HEADER_LEN: nat := 4

  datatype FrameError =
    | PayloadTooLarge(len: nat)
    | FrameTooShort
    | DecryptFailed
    | UnexpectedType(tag: byte)
    | FrameTooLarge(len: nat)

  function Header(len: nat): (h: bytes)
    ensures |h| == FRAME_HEADER_LEN
  {
    [0x01] + Be(len, 3)
  }

  function Sealed(c: Cipher, key: bytes, counter: nat, plain: bytes): bytes {
    Header(|plain|) + c.seal(key, NonceFor(counter), Header(|plain|), plain)
  }

  /** One frame; the caller advances its counter when it gets one. */
  function EncryptFrame(c: Cipher, key: bytes, counter: nat, plain: bytes): Result<bytes, FrameError> {
    if |plain| > MAX_PAYLOAD then Err(PayloadTooLarge(|plain|))
    else Ok(Sealed(c, key, counter, plain))
  }

  /** The payload of one whole frame; the caller advances its counter when it gets one. */
  function DecryptFrame(c: Cipher, key: bytes, counter: nat, frame: bytes): Result<bytes, FrameError> {
    if |frame| < FRAME_HEADER_LEN + TAG_LEN then Err(FrameTooShort)
    else
      match c.open(key, NonceFor(counter), frame[..FRAME_HEADER_LEN], frame[FRAME_HEADER_LEN..])
      case None => Err(DecryptFailed)
      case Some(plain) => Ok(plain)
  }

  /** Length of the first frame in buf, once all of it has arrived. */
  function CompleteFrameLen(buf: bytes): (r: Result<Option<nat>, FrameError>)
    ensures r.Ok? && r.value.Some? ==> FRAME_HEADER_LEN + TAG_LEN <= r.value.value <= |buf|
  {
    if |buf| < FRAME_HEADER_LEN then Ok(None)
    else if buf[0] != 0x01 then Err(UnexpectedType(buf[0]))
    else
      var len := buf[1] as int * 0x1_0000 + buf[2] as int * 0x100 + buf[3] as int;
      if len > MAX_PAYLOAD + TAG_LEN then Err(FrameTooLarge(len))
      else
        var total := FRAME_HEADER_LEN + len + TAG_LEN;
        Ok(if |buf| >= total then Some(total) else None)
  }

  lemma HeaderBytes(len: nat)
    requires len <= MAX_PAYLOAD
    ensures var h := Header(len);
      h[0] == 0x01 && h[1] as int * 0x1_0000 + h[2] as int * 0x100 + h[3] as int == len
  {
    var a, b := len / 256 / 256, len / 256;
    assert Be(a, 1) == [(a % 256) as byte];
    assert Be(b, 2) == [(a % 256) as byte, (b % 256) as byte];
    assert Be(len, 3) == [(a % 256) as byte, (b % 256) as byte, (len % 256) as byte];
  }

  /** A frame is recognised at the head of any stream, and opens to its payload. */
  lemma FrameOpens(c: Cipher, key: bytes, counter: nat, plain: bytes, tail: bytes)
    requires Lawful(c) && |plain| <= MAX_PAYLOAD
    ensures var frame := Sealed(c, key, counter, plain);
      && CompleteFrameLen(frame + tail) == Ok(Some(|frame|))
      && DecryptFrame(c, key, counter, frame) == Ok(plain)
  {
    hide Be, NonceFor;
    var header := Header(|plain|);
    var sealed := c.seal(key, NonceFor(counter), header, plain);
    var frame := header + sealed;
    HeaderBytes(|plain|);
    assert (frame + tail)[..4] == header;
    assert frame[..4] == header && frame[4..] == sealed;
    assert c.open(key, NonceFor(counter), header, sealed) == Some(plain);
  }

  /** On the wire: type 1, the payload's length in three bytes, most significant first, and the text sealed with those
      four bytes as associated data; sixteen bytes of tag make up the rest. */
  lemma FrameLayout(c: Cipher, key: bytes, counter: nat, plain: bytes)
    ensures |plain| > 0xF_FFFF ==> EncryptFrame(c, key, counter, plain) == Err(PayloadTooLarge(|plain|))
    ensures |plain| <= 0xF_FFFF ==>
      var n := |plain|;
      var header: bytes := [0x01, (n / 0x1_0000) as byte, (n / 0x100 % 0x100) as byte, (n % 0x100) as byte];
      && EncryptFrame(c, key, counter, plain) == Ok(header + c.seal(key, NonceFor(counter), header, plain))
      && (Lawful(c) ==> |Sealed(c, key, counter, plain)| == 4 + |plain| + 16)
  {
    hide Be, NonceFor, Lawful;
    if |plain| <= 0xF_FFFF { HeaderLayout(|plain|); }
    if Lawful(c) { SealedLen(c, key, NonceFor(counter), Header(|plain|), plain); }
  }

  lemma HeaderLayout(n: nat)
    requires n <= 0xF_FFFF
    ensures Header(n) == [0x01, (n / 0x1_0000) as byte, (n / 0x100 % 0x100) as byte, (n % 0x100) as byte]
  {
    var a, b := n / 256 / 256, n / 256;
    assert Be(a, 1) == [(a % 256) as byte];
    assert Be(b, 2) == [(a % 256) as byte, (b % 256) as byte];
    assert Be(n, 3) == [(a % 256) as byte, (b % 256) as byte, (n % 256) as byte];
  }

  lemma SealedLen(c: Cipher, key: bytes, nonce: bytes, aad: bytes, plain: bytes)
    requires Lawful(c)
    ensures |c.seal(key, nonce, aad, plain)| == |plain| + 16
  {
  }

  /** What a buffer's first four bytes decide, and when the first frame has arrived. */
  lemma BoundaryExactly(buf: bytes)
    ensures |buf| < 4 ==> CompleteFrameLen(buf) == Ok(None)
    ensures |buf| >= 4 && buf[0] != 1 ==> CompleteFrameLen(buf) == Err(UnexpectedType(buf[0]))
    ensures |buf| >= 4 && buf[0] == 1 ==>
      var len := 65536 * buf[1] as int + 256 * buf[2] as int + buf[3] as int;
      CompleteFrameLen(buf) == if len > 0xF_FFFF + 16 then Err(FrameTooLarge(len))
                               else if |buf| < len + 20 then Ok(None) else Ok(Some(len + 20))
  {
  }

  /** Opening takes the header as associated data, and gives the cipher's answer or an error. */
  lemma OpeningExactly(c: Cipher, key: bytes, counter: nat, frame: bytes)
    ensures |frame| < 20 ==> DecryptFrame(c, key, counter, frame) == Err(FrameTooShort)
    ensures |frame| >= 20 ==>
      var plain := c.open(key, NonceFor(counter), frame[..4], frame[4..]);
      DecryptFrame(c, key, counter, frame) == if plain.None? then Err(DecryptFailed) else Ok(plain.value)
  {
  }

  /** More bytes at the end never move the boundary of the first frame, nor an error in it. */
  lemma BoundaryStable(a: bytes, b: bytes)
    ensures match CompleteFrameLen(a)
      case Ok(None) => true
      case r => CompleteFrameLen(a + b) == r
  {
    if |a| >= 4 {
      assert (a + b)[..4] == a[..4];
    }
  }
}
