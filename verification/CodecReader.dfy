/** What the value decoder computes (src/hsv/codec.rs), as a function of the bytes ahead of it. */
module CodecReader {
  import opened Wrappers
  import opened Bytes
  import opened CodecValues

  /** How many bytes of length follow the tags 0x61-0x64 and 0x91-0x94. */
  datatype LengthTable =
    | AsCoded       // 1, 2, 3, 4: what the decoder computes from the tag
    | AsDocumented  // 1, 2, 4, 8: what the wire-format document says
  {
    function Width(k: nat): (w: nat)
      requires k < 4
      ensures 1 <= w <= 8
    {
      if AsCoded? then k + 1
      else if k == 0 then 1 else if k == 1 then 2 else if k == 2 then 4 else 8
    }

    /** The longest string or data blob that survives a round trip. */
    function Limit(): nat {
      if AsCoded? then 65535 else 0xFFFF_FFFF
    }
  }

  /** A reader: its length table and the widening of f32 to f64, which stays abstract. */
  datatype Reader = Reader(lengths: LengthTable, widen: Bytes4 -> Bytes8)

  datatype DecodeError =
    | Truncated(need: nat, have: nat)
    | ZeroTag
    | UnknownTag(tag: byte)
    | BackReferenceOutOfRange(index: nat)
    | TerminatorInArray
    | TerminatorInDict
    | NonStringKey(other: Value)
    | ExpectedStringKey

  /** A decoding step: the result, the bytes not read yet, and the leaves read so far. */
  datatype Step<+T> =
    | Done(value: T, rest: bytes, tracked: seq<Value>)
    | Fail(error: DecodeError)

  /** `rest` is what is left of s after reading at least `least` bytes. */
  ghost predicate Consumes(s: bytes, rest: bytes, least: nat) {
    |rest| + least <= |s| && rest == s[|s| - |rest|..]
  }

  // --- Leaves ---

  predicate LeafTag(tag: byte) {
    0x01 <= tag <= 0x02 || 0x04 <= tag <= 0x33 || 0x35 <= tag <= 0x36
    || 0x40 <= tag <= 0x64 || tag == 0x6F || 0x70 <= tag <= 0x94 || tag == 0x9F
  }

  /** Position of the first `mark` in s. */
  function IndexOf(s: bytes, mark: byte): (r: Option<nat>)
    ensures r.Some? ==> r.value < |s| && s[r.value] == mark && mark !in s[..r.value]
    ensures r.None? ==> mark !in s
  {
    if s == [] then None
    else if s[0] == mark then Some(0)
    else match IndexOf(s[1..], mark)
      case None => None
      case Some(i) =>
        assert s[..i + 1] == [s[0]] + s[1..][..i];
        Some(i + 1)
  }

  function Fixed(s: bytes, n: nat, make: bytes -> Value): Result<(Value, bytes), DecodeError> {
    if |s| < n then Err(Truncated(n, |s|)) else Ok((make(s[..n]), s[n..]))
  }

  /** A length of `w` bytes followed by that many bytes. */
  function Counted(s: bytes, w: nat, make: bytes -> Value): Result<(Value, bytes), DecodeError> {
    if |s| < w then Err(Truncated(w, |s|)) else Fixed(s[w..], FromLe(s[..w]), make)
  }

  function Marked(s: bytes, mark: byte, make: bytes -> Value): Result<(Value, bytes), DecodeError> {
    match IndexOf(s, mark)
    case None => Err(Truncated(1, 0))
    case Some(i) => Ok((make(s[..i]), s[i + 1..]))
  }

  function SignedInt(b: bytes): Value
    requires |b| in {1, 2, 4, 8}
  {
    assert Pow256(1) == 0x100 && Pow256(2) == 0x1_0000;
    assert Pow256(4) == 0x1_0000_0000 && Pow256(8) == 0x1_0000_0000_0000_0000;
    Int(Signed(FromLe(b), |b|))
  }

  /** Payload bytes of the leaf tags whose payload has a length the tag alone gives. */
  function PayloadLen(tag: byte): nat {
    if tag == 0x05 then 16
    else if tag == 0x30 then 1
    else if tag == 0x31 then 2
    else if tag == 0x32 || tag == 0x35 then 4
    else if tag == 0x06 || tag == 0x33 || tag == 0x36 then 8
    else if 0x40 <= tag <= 0x60 then tag as int - 0x40
    else if 0x70 <= tag <= 0x90 then tag as int - 0x70
    else 0
  }

  function FixedLeaf(r: Reader, tag: byte, b: bytes): (v: Value)
    requires LeafTag(tag) && |b| == PayloadLen(tag)
    ensures v.IsLeaf() && !v.Int64?
  {
    if tag == 0x01 then Bool(true)
    else if tag == 0x02 then Bool(false)
    else if tag == 0x04 then Null
    else if tag == 0x05 then Uuid(b)
    else if tag == 0x06 then Date(b)
    else if tag == 0x07 then Int(-1)
    else if tag <= 0x2F then Int(tag as int - 0x08)
    else if tag <= 0x33 then SignedInt(b)
    else if tag == 0x35 then Float(r.widen(b))
    else if tag == 0x36 then Float(b)
    else if tag <= 0x60 then String(b)
    else Data(b)
  }

  /** The leaf announced by `tag`, read from the bytes after the tag. */
  function Leaf(r: Reader, tag: byte, s: bytes): (out: Result<(Value, bytes), DecodeError>)
    requires LeafTag(tag)
    ensures out.Ok? ==> out.value.0.IsLeaf() && !out.value.0.Int64?
    ensures out.Ok? ==> Consumes(s, out.value.1, 0)
  {
    if 0x61 <= tag <= 0x64 then Counted(s, r.lengths.Width(tag as int - 0x61), b => String(b))
    else if 0x91 <= tag <= 0x94 then Counted(s, r.lengths.Width(tag as int - 0x91), b => Data(b))
    else if tag == 0x6F then Marked(s, 0x00, b => String(b))
    else if tag == 0x9F then Marked(s, 0x03, b => Data(b))
    else
      var n := PayloadLen(tag);
      if |s| < n then Err(Truncated(n, |s|)) else Ok((FixedLeaf(r, tag, s[..n]), s[n..]))
  }

  // --- Values ---

  /** One value; None stands for the terminator 0x03. */
  function Decode(r: Reader, s: bytes, tracked: seq<Value>): (out: Step<Option<Value>>)
    ensures out.Done? ==> Consumes(s, out.rest, 1)
    decreases |s|, 0
  {
    if s == [] then Fail(Truncated(1, 0))
    else
      var tag, body := s[0], s[1..];
      if LeafTag(tag) then
        match Leaf(r, tag, body)
        case Err(e) => Fail(e)
        case Ok((v, rest)) => Done(Some(v), rest, tracked + [v])
      else if tag == 0x00 then Fail(ZeroTag)
      else if tag == 0x03 then Done(None, body, tracked)
      else if 0xA0 <= tag <= 0xCF then
        var index := tag as int - 0xA0;
        if index < |tracked| then Done(Some(tracked[index]), body, tracked)
        else Fail(BackReferenceOutOfRange(index))
      else if 0xD0 <= tag <= 0xDE then AsArray(DecodeCounted(r, tag as int - 0xD0, body, tracked, []))
      else if tag == 0xDF then AsArray(DecodeTerminated(r, body, tracked, []))
      else if 0xE0 <= tag <= 0xEE then AsDict(DecodePairs(r, tag as int - 0xE0, body, tracked, []))
      else if tag == 0xEF then AsDict(DecodeTerminatedPairs(r, body, tracked, []))
      else Fail(UnknownTag(tag))
  }

  function AsArray(step: Step<seq<Value>>): Step<Option<Value>> {
    match step
    case Done(items, rest, tracked) => Done(Some(Array(items)), rest, tracked)
    case Fail(e) => Fail(e)
  }

  function AsDict(step: Step<seq<Entry>>): Step<Option<Value>> {
    match step
    case Done(entries, rest, tracked) => Done(Some(Dict(entries)), rest, tracked)
    case Fail(e) => Fail(e)
  }

  /** `count` more values after those in `acc`. */
  function DecodeCounted(r: Reader, count: nat, s: bytes, tracked: seq<Value>, acc: seq<Value>)
    : (out: Step<seq<Value>>)
    ensures out.Done? ==> Consumes(s, out.rest, count)
    decreases |s|, 1 + count
  {
    if count == 0 then Done(acc, s, tracked)
    else
      match Decode(r, s, tracked)
      case Fail(e) => Fail(e)
      case Done(None, _, _) => Fail(TerminatorInArray)
      case Done(Some(v), rest, tracked') => DecodeCounted(r, count - 1, rest, tracked', acc + [v])
  }

  /** Values up to a terminator, after those in `acc`. */
  function DecodeTerminated(r: Reader, s: bytes, tracked: seq<Value>, acc: seq<Value>)
    : (out: Step<seq<Value>>)
    ensures out.Done? ==> Consumes(s, out.rest, 1)
    decreases |s|, 1
  {
    match Decode(r, s, tracked)
    case Fail(e) => Fail(e)
    case Done(None, rest, tracked') => Done(acc, rest, tracked')
    case Done(Some(v), rest, tracked') => DecodeTerminated(r, rest, tracked', acc + [v])
  }

  function DecodePairs(r: Reader, count: nat, s: bytes, tracked: seq<Value>, acc: seq<Entry>)
    : (out: Step<seq<Entry>>)
    ensures out.Done? ==> Consumes(s, out.rest, 2 * count)
    decreases |s|, 1 + count
  {
    if count == 0 then Done(acc, s, tracked)
    else
      match Decode(r, s, tracked)
      case Fail(e) => Fail(e)
      case Done(key, rest, tracked') =>
        if !(key.Some? && key.value.String?) then Fail(ExpectedStringKey)
        else
          match Decode(r, rest, tracked')
          case Fail(e) => Fail(e)
          case Done(None, _, _) => Fail(TerminatorInDict)
          case Done(Some(v), rest', tracked'') =>
            DecodePairs(r, count - 1, rest', tracked'', acc + [Entry(key.value.s, v)])
  }

  function DecodeTerminatedPairs(r: Reader, s: bytes, tracked: seq<Value>, acc: seq<Entry>)
    : (out: Step<seq<Entry>>)
    ensures out.Done? ==> Consumes(s, out.rest, 1)
    decreases |s|, 1
  {
    match Decode(r, s, tracked)
    case Fail(e) => Fail(e)
    case Done(None, rest, tracked') => Done(acc, rest, tracked')
    case Done(Some(key), rest, tracked') =>
      if !key.String? then Fail(NonStringKey(key))
      else
        match Decode(r, rest, tracked')
        case Fail(e) => Fail(e)
        case Done(None, _, _) => Fail(TerminatorInDict)
        case Done(Some(v), rest', tracked'') =>
          DecodeTerminatedPairs(r, rest', tracked'', acc + [Entry(key.s, v)])
  }

  // One iteration of each container loop.

  ghost predicate Got(d: Step<Option<Value>>) {
    d.Done? && d.value.Some?
  }

  ghost predicate GotKey(d: Step<Option<Value>>) {
    Got(d) && d.value.value.String?
  }

  lemma CountedStep(r: Reader, n: nat, s: bytes, tracked: seq<Value>, acc: seq<Value>)
    requires n > 0
    ensures var d := Decode(r, s, tracked);
      DecodeCounted(r, n, s, tracked, acc) ==
        if d.Fail? then Fail(d.error)
        else if d.value.None? then Fail(TerminatorInArray)
        else DecodeCounted(r, n - 1, d.rest, d.tracked, acc + [d.value.value])
  {
    hide Decode, Consumes;
  }

  lemma TerminatedStep(r: Reader, s: bytes, tracked: seq<Value>, acc: seq<Value>)
    ensures var d := Decode(r, s, tracked);
      DecodeTerminated(r, s, tracked, acc) ==
        if d.Fail? then Fail(d.error)
        else if d.value.None? then Done(acc, d.rest, d.tracked)
        else DecodeTerminated(r, d.rest, d.tracked, acc + [d.value.value])
  {
    hide Decode, Consumes;
  }

  lemma PairsStep(r: Reader, n: nat, s: bytes, tracked: seq<Value>, acc: seq<Entry>)
    requires n > 0
    ensures var k := Decode(r, s, tracked);
      DecodePairs(r, n, s, tracked, acc) ==
        if k.Fail? then Fail(k.error)
        else if !GotKey(k) then Fail(ExpectedStringKey)
        else
          var d := Decode(r, k.rest, k.tracked);
          if d.Fail? then Fail(d.error)
          else if d.value.None? then Fail(TerminatorInDict)
          else DecodePairs(r, n - 1, d.rest, d.tracked, acc + [Entry(k.value.value.s, d.value.value)])
  {
    hide Decode, Consumes;
  }

  lemma TerminatedPairsStep(r: Reader, s: bytes, tracked: seq<Value>, acc: seq<Entry>)
    ensures var k := Decode(r, s, tracked);
      DecodeTerminatedPairs(r, s, tracked, acc) ==
        if k.Fail? then Fail(k.error)
        else if k.value.None? then Done(acc, k.rest, k.tracked)
        else if !GotKey(k) then Fail(NonStringKey(k.value.value))
        else
          var d := Decode(r, k.rest, k.tracked);
          if d.Fail? then Fail(d.error)
          else if d.value.None? then Fail(TerminatorInDict)
          else DecodeTerminatedPairs(r, d.rest, d.tracked, acc + [Entry(k.value.value.s, d.value.value)])
  {
    hide Decode, Consumes;
  }

  lemma NothingCounted(r: Reader, tail: bytes, tracked: seq<Value>, acc: seq<Value>)
    ensures DecodeCounted(r, 0, tail, tracked, acc) == Done(acc, tail, tracked)
  {
  }

  lemma NoPairs(r: Reader, tail: bytes, tracked: seq<Value>, acc: seq<Entry>)
    ensures DecodePairs(r, 0, tail, tracked, acc) == Done(acc, tail, tracked)
  {
  }
}
