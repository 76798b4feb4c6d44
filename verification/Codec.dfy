/**
  The encoder and the decoder as they run (src/hsv/codec.rs:59-172, 182-362): bytes pushed onto an
  output buffer, a cursor moved over an input buffer.
 */
module Codec {
  import opened Wrappers
  import opened Bytes
  import opened CodecValues
  import Spec = CodecReader
  import opened CodecReader

  class OutBuffer {
    var data: bytes

    constructor ()
      ensures data == []
    {
      data := [];
    }

    method Push(b: byte)
      modifies this
      ensures data == old(data) + [b]
    {
      data := data + [b];
    }

    method Extend(s: bytes)
      modifies this
      ensures data == old(data) + s
    {
      data := data + s;
    }
  }

  // --- Encoding ---

  method EncodeInt(v: i64, out: OutBuffer)
    modifies out
    ensures out.data == old(out.data) + EncodedInt(v)
  {
    if v == -1 {
      out.Push(0x07);
    } else if 0 <= v <= 38 {
      out.Push((0x08 + v) as byte);
    } else {
      var w := IntWidth(v);
      out.Push(WidthTag(w));
      out.Extend(Le(Unsigned(v, w), w));
      Assoc(old(out.data), [WidthTag(w)], Le(Unsigned(v, w), w));
    }
  }

  method EncodeString(s: bytes, out: OutBuffer)
    modifies out
    ensures out.data == old(out.data) + EncodedKey(s)
  {
    var n := |s|;
    if n <= 32 {
      out.Push((0x40 + n) as byte);
    } else if n <= 255 {
      out.Push(0x61);
      out.Push(n as byte);
    } else if n <= 65535 {
      out.Push(0x62);
      out.Extend(Le(n, 2));
    } else {
      out.Push(0x63);
      out.Extend(Le(n, 4));
    }
    assert out.data == old(out.data) + StringHeader(n);
    out.Extend(s);
    Assoc(old(out.data), StringHeader(n), s);
  }

  method EncodeData(d: bytes, out: OutBuffer)
    modifies out
    ensures out.data == old(out.data) + Encoded(Data(d))
  {
    var n := |d|;
    if n <= 255 {
      out.Push(0x91);
      out.Push(n as byte);
    } else if n <= 65535 {
      out.Push(0x92);
      out.Extend(Le(n, 2));
    } else {
      out.Push(0x93);
      out.Extend(Le(n, 4));
    }
    assert out.data == old(out.data) + DataHeader(n);
    out.Extend(d);
    Assoc(old(out.data), DataHeader(n), d);
  }

  /** Appends exactly the layout of the value to what the buffer already held. */
  method Encode(value: Value, out: OutBuffer)
    modifies out
    ensures out.data == old(out.data) + Encoded(value)
    decreases value, 1
  {
    hide EncodedInt, StringHeader, DataHeader, EncodedItems, EncodedEntries, Le;
    match value
    case Bool(b) => out.Push(if b then 0x01 else 0x02);
    case Null => out.Push(0x04);
    case Uuid(u) => out.Push(0x05); out.Extend(u); Assoc(old(out.data), [0x05], u);
    case Date(secs) => out.Push(0x06); out.Extend(secs); Assoc(old(out.data), [0x06], secs);
    case Int(i) => EncodeInt(i, out);
    case Int64(i) =>
      out.Push(0x33);
      assert Pow256(8) == 0x1_0000_0000_0000_0000;
      out.Extend(Le(Unsigned(i, 8), 8));
      Assoc(old(out.data), [0x33], Le(Unsigned(i, 8), 8));
    case Float(f) => out.Push(0x36); out.Extend(f); Assoc(old(out.data), [0x36], f);
    case String(s) => EncodeString(s, out);
    case Data(d) => EncodeData(d, out);
    case Array(items) => EncodeArray(items, out);
    case Dict(entries) => EncodeDict(entries, out);
  }

  method EncodeArray(items: seq<Value>, out: OutBuffer)
    modifies out
    ensures out.data == old(out.data) + Encoded(Array(items))
    decreases items, 1
  {
    var short := |items| <= 12;
    var tag := if short then (0xD0 + |items|) as byte else 0xDF;
    out.Push(tag);
    EncodeItems(items, out);
    Assoc(old(out.data), [tag], EncodedItems(items));
    if !short {
      out.Push(0x03);
      Assoc(old(out.data), [tag] + EncodedItems(items), [0x03]);
    }
  }

  method EncodeItems(items: seq<Value>, out: OutBuffer)
    modifies out
    ensures out.data == old(out.data) + EncodedItems(items)
    decreases items, 0
  {
    assert items[0..] == items;
    for i := 0 to |items|
      invariant out.data + EncodedItems(items[i..]) == old(out.data) + EncodedItems(items)
    {
      ghost var before := out.data;
      Encode(items[i], out);
      assert items[i..][1..] == items[i + 1..];
      Assoc(before, Encoded(items[i]), EncodedItems(items[i + 1..]));
    }
    assert items[|items|..] == [];
    Unit(out.data);
  }

  method EncodeDict(entries: seq<Entry>, out: OutBuffer)
    modifies out
    ensures out.data == old(out.data) + Encoded(Dict(entries))
    decreases entries, 1
  {
    var short := |entries| <= 14;
    var tag := if short then (0xE0 + |entries|) as byte else 0xEF;
    out.Push(tag);
    EncodeEntries(entries, out);
    Assoc(old(out.data), [tag], EncodedEntries(entries));
    if !short {
      out.Push(0x03);
      Assoc(old(out.data), [tag] + EncodedEntries(entries), [0x03]);
    }
  }

  method EncodeEntries(entries: seq<Entry>, out: OutBuffer)
    modifies out
    ensures out.data == old(out.data) + EncodedEntries(entries)
    decreases entries, 0
  {
    assert entries[0..] == entries;
    for i := 0 to |entries|
      invariant out.data + EncodedEntries(entries[i..]) == old(out.data) + EncodedEntries(entries)
    {
      ghost var before := out.data;
      ghost var more := EncodedEntries(entries[i + 1..]);
      ghost var key, value := EncodedKey(entries[i].key), Encoded(entries[i].value);
      EncodeString(entries[i].key, out);
      Encode(entries[i].value, out);
      assert entries[i..][1..] == entries[i + 1..];
      Assoc(before, key, value);
      Assoc(before, key + value, more);
    }
    assert entries[|entries|..] == [];
    Unit(out.data);
  }

  method EncodeToVec(value: Value) returns (r: bytes)
    ensures r == Encoded(value)
  {
    var out := new OutBuffer();
    Encode(value, out);
    Unit(Encoded(value));
    r := out.data;
  }

  // --- Decoding ---

  class Decoder {
    const r: Reader
    const buf: bytes
    var pos: nat
    var tracked: seq<Value>

    ghost predicate Valid()
      reads this
    {
      pos <= |buf|
    }

    ghost function Ahead(): bytes
      requires Valid()
      reads this
    {
      buf[pos..]
    }

    constructor (r: Reader, buf: bytes)
      ensures Valid() && this.r == r && this.buf == buf
      ensures Ahead() == buf && tracked == []
    {
      this.r := r;
      this.buf := buf;
      pos := 0;
      tracked := [];
    }

    function Remaining(): (n: nat)
      requires Valid()
      reads this
      ensures n == |Ahead()|
    {
      |buf| - pos
    }

    method Take(n: nat) returns (out: Result<bytes, DecodeError>)
      requires Valid()
      modifies this`pos
      ensures Valid() && pos == if out.Ok? then old(pos) + n else old(pos)
      ensures out == if |old(Ahead())| < n then Err(Truncated(n, |old(Ahead())|)) else Ok(old(Ahead())[..n])
      ensures Ahead() == if out.Ok? then old(Ahead())[n..] else old(Ahead())
    {
      if Remaining() < n {
        return Err(Truncated(n, Remaining()));
      }
      assert buf[pos..pos + n] == Ahead()[..n] && buf[pos + n..] == Ahead()[n..];
      out := Ok(buf[pos..pos + n]);
      pos := pos + n;
    }

    method TakeByte() returns (out: Result<byte, DecodeError>)
      requires Valid()
      modifies this`pos
      ensures Valid()
      ensures if old(pos) < |buf| then out == Ok(buf[old(pos)]) && pos == old(pos) + 1
              else out == Err(Truncated(1, 0)) && pos == old(pos)
    {
      var b := Take(1);
      out := match b case Ok(s) => Ok(s[0]) case Err(e) => Err(e);
    }

    /** Reads up to and including the first `mark`; what precedes it is the value. */
    method TakeUntil(mark: byte) returns (out: Result<bytes, DecodeError>)
      requires Valid()
      modifies this`pos
      ensures Valid() && old(pos) <= pos
      ensures match IndexOf(old(Ahead()), mark)
        case Some(i) => out == Ok(old(Ahead())[..i]) && Ahead() == old(Ahead())[i + 1..]
        case None => out == Err(Truncated(1, 0))
    {
      hide IndexOf;
      ghost var ahead := Ahead();
      var start := pos;
      var b := TakeByte();
      while b.Ok? && b.value != mark
        invariant start <= pos <= |buf|
        invariant b.Ok? ==> start < pos && b.value == buf[pos - 1]
        invariant forall k :: start <= k < (if b.Ok? then pos - 1 else pos) ==> buf[k] != mark
        invariant b.Err? ==> pos == |buf| && b.error == Truncated(1, 0)
        decreases |buf| - pos, b.Ok?
      {
        b := TakeByte();
      }
      if b.Err? {
        NoMark(ahead, mark);
        return Err(b.error);
      }
      FirstMark(ahead, mark, pos - start - 1);
      assert buf[start..pos - 1] == ahead[..pos - start - 1];
      assert Ahead() == ahead[pos - start..];
      out := Ok(buf[start..pos - 1]);
    }

    method ReadLength(width: nat) returns (out: Result<nat, DecodeError>)
      requires Valid()
      modifies this`pos
      ensures Valid() && old(pos) <= pos
      ensures |old(Ahead())| < width ==> out == Err(Truncated(width, |old(Ahead())|))
      ensures |old(Ahead())| >= width ==>
        out == Ok(FromLe(old(Ahead())[..width])) && Ahead() == old(Ahead())[width..]
    {
      hide FromLe;
      var taken := Take(width);
      if taken.Err? { return Err(taken.error); }
      var digits := taken.value;
      var len: nat, unit: nat := 0, 1;
      assert digits[0..] == digits;
      for i := 0 to |digits|
        invariant Valid() && old(pos) <= pos && Ahead() == old(Ahead())[width..]
        invariant len + unit * FromLe(digits[i..]) == FromLe(digits)
      {
        ShiftIn(digits, i, len, unit);
        len, unit := len + digits[i] as int * unit, unit * 256;
      }
      assert digits[|digits|..] == [];
      out := Ok(len);
    }

    method TakeCounted(width: nat) returns (out: Result<bytes, DecodeError>)
      requires Valid()
      modifies this`pos
      ensures Valid() && old(pos) <= pos
      ensures match Counted(old(Ahead()), width, b => Data(b))
        case Ok((Data(b), rest)) => out == Ok(b) && Ahead() == rest
        case Ok(_) => false
        case Err(e) => out == Err(e)
    {
      var len := ReadLength(width);
      if len.Err? { return Err(len.error); }
      out := Take(len.value);
    }

    /** The leaf announced by `tag`; the cursor stands after the tag. */
    method TakeLeaf(tag: byte) returns (out: Result<Value, DecodeError>)
      requires Valid() && LeafTag(tag)
      modifies this`pos
      ensures Valid() && old(pos) <= pos
      ensures match Leaf(r, tag, old(Ahead()))
        case Ok((v, rest)) => out == Ok(v) && Ahead() == rest
        case Err(e) => out == Err(e)
    {
      if 0x61 <= tag <= 0x64 || 0x91 <= tag <= 0x94 {
        var text := tag <= 0x64;
        var s := TakeCounted(r.lengths.Width(tag as int - if text then 0x61 else 0x91));
        return match s case Ok(b) => Ok(if text then String(b) else Data(b)) case Err(e) => Err(e);
      }
      if tag == 0x6F || tag == 0x9F {
        var s := TakeUntil(if tag == 0x6F then 0x00 else 0x03);
        return match s case Ok(b) => Ok(if tag == 0x6F then String(b) else Data(b)) case Err(e) => Err(e);
      }
      var s := Take(PayloadLen(tag));
      out := match s case Ok(b) => Ok(FixedLeaf(r, tag, b)) case Err(e) => Err(e);
    }

    /** What a call that should have computed `step` did. */
    ghost predicate Did(out: Result<Option<Value>, DecodeError>, step: Step<Option<Value>>)
      reads this
      requires Valid()
    {
      if step.Done? then out == Ok(step.value) && Ahead() == step.rest && tracked == step.tracked
      else out == Err(step.error)
    }

    /** One value from the cursor on; None is the terminator. */
    method Decode() returns (out: Result<Option<Value>, DecodeError>)
      requires Valid()
      modifies this
      ensures Valid() && old(pos) <= pos && (out.Ok? ==> old(pos) < pos)
      ensures Did(out, Spec.Decode(r, old(Ahead()), old(tracked)))
      decreases |buf| - pos, 0
    {
      hide Leaf, DecodeCounted, DecodeTerminated, DecodePairs, DecodeTerminatedPairs, Consumes;
      var t := Take(1);
      if t.Err? { return Err(t.error); }
      var tag := t.value[0];
      if LeafTag(tag) {
        var leaf := TakeLeaf(tag);
        if leaf.Err? { return Err(leaf.error); }
        tracked := tracked + [leaf.value];
        return Ok(Some(leaf.value));
      }
      if tag == 0x00 { return Err(ZeroTag); }
      if tag == 0x03 { return Ok(None); }
      if 0xA0 <= tag <= 0xCF {
        var index := tag as int - 0xA0;
        return if index < |tracked| then Ok(Some(tracked[index])) else Err(BackReferenceOutOfRange(index));
      }
      if 0xD0 <= tag <= 0xDE { out := DecodeArray(tag as int - 0xD0); return; }
      if tag == 0xDF { out := DecodeTerminatedArray(); return; }
      if 0xE0 <= tag <= 0xEE { out := DecodeDict(tag as int - 0xE0); return; }
      if tag == 0xEF { out := DecodeTerminatedDict(); return; }
      out := Err(UnknownTag(tag));
    }

    method DecodeArray(count: nat) returns (out: Result<Option<Value>, DecodeError>)
      requires Valid()
      modifies this
      ensures Valid() && old(pos) <= pos
      ensures Did(out, AsArray(DecodeCounted(r, count, old(Ahead()), old(tracked), [])))
      decreases |buf| - pos, 1
    {
      hide Spec.Decode, DecodeCounted, Consumes;
      var items: seq<Value> := [];
      for k := 0 to count
        invariant Valid() && old(pos) <= pos
        invariant DecodeCounted(r, count, old(Ahead()), old(tracked), [])
               == DecodeCounted(r, count - k, Ahead(), tracked, items)
      {
        CountedStep(r, count - k, Ahead(), tracked, items);
        var v := Decode();
        if v.Err? { return Err(v.error); }
        if v.value.None? { return Err(TerminatorInArray); }
        items := items + [v.value.value];
      }
      NothingCounted(r, Ahead(), tracked, items);
      out := Ok(Some(Array(items)));
    }

    method DecodeTerminatedArray() returns (out: Result<Option<Value>, DecodeError>)
      requires Valid()
      modifies this
      ensures Valid() && old(pos) <= pos
      ensures Did(out, AsArray(DecodeTerminated(r, old(Ahead()), old(tracked), [])))
      decreases |buf| - pos, 1
    {
      hide Spec.Decode, DecodeTerminated, Consumes;
      var items: seq<Value> := [];
      while true
        invariant Valid() && old(pos) <= pos
        invariant DecodeTerminated(r, old(Ahead()), old(tracked), [])
               == DecodeTerminated(r, Ahead(), tracked, items)
        decreases |buf| - pos
      {
        TerminatedStep(r, Ahead(), tracked, items);
        var v := Decode();
        if v.Err? { return Err(v.error); }
        if v.value.None? { return Ok(Some(Array(items))); }
        items := items + [v.value.value];
      }
    }

    method DecodeDict(count: nat) returns (out: Result<Option<Value>, DecodeError>)
      requires Valid()
      modifies this
      ensures Valid() && old(pos) <= pos
      ensures Did(out, AsDict(DecodePairs(r, count, old(Ahead()), old(tracked), [])))
      decreases |buf| - pos, 1
    {
      hide Spec.Decode, DecodePairs, Consumes;
      var entries: seq<Entry> := [];
      for k := 0 to count
        invariant Valid() && old(pos) <= pos
        invariant DecodePairs(r, count, old(Ahead()), old(tracked), [])
               == DecodePairs(r, count - k, Ahead(), tracked, entries)
      {
        PairsStep(r, count - k, Ahead(), tracked, entries);
        var key := Decode();
        if key.Err? { return Err(key.error); }
        if !(key.value.Some? && key.value.value.String?) { return Err(ExpectedStringKey); }
        var v := Decode();
        if v.Err? { return Err(v.error); }
        if v.value.None? { return Err(TerminatorInDict); }
        entries := entries + [Entry(key.value.value.s, v.value.value)];
      }
      NoPairs(r, Ahead(), tracked, entries);
      out := Ok(Some(Dict(entries)));
    }

    method DecodeTerminatedDict() returns (out: Result<Option<Value>, DecodeError>)
      requires Valid()
      modifies this
      ensures Valid() && old(pos) <= pos
      ensures Did(out, AsDict(DecodeTerminatedPairs(r, old(Ahead()), old(tracked), [])))
      decreases |buf| - pos, 1
    {
      hide Spec.Decode, DecodeTerminatedPairs, Consumes;
      var entries: seq<Entry> := [];
      while true
        invariant Valid() && old(pos) <= pos
        invariant DecodeTerminatedPairs(r, old(Ahead()), old(tracked), [])
               == DecodeTerminatedPairs(r, Ahead(), tracked, entries)
        decreases |buf| - pos
      {
        TerminatedPairsStep(r, Ahead(), tracked, entries);
        var key := Decode();
        if key.Err? { return Err(key.error); }
        if key.value.None? { return Ok(Some(Dict(entries))); }
        if !key.value.value.String? { return Err(NonStringKey(key.value.value)); }
        var v := Decode();
        if v.Err? { return Err(v.error); }
        if v.value.None? { return Err(TerminatorInDict); }
        entries := entries + [Entry(key.value.value.s, v.value.value)];
      }
    }
  }

  /** One digit moved from the part still to be read into the length read so far. */
  lemma ShiftIn(digits: bytes, i: nat, len: nat, unit: nat)
    requires i < |digits|
    ensures len + unit * FromLe(digits[i..])
         == (len + digits[i] as int * unit) + unit * 256 * FromLe(digits[i + 1..])
  {
    var more := FromLe(digits[i + 1..]);
    assert digits[i..][1..] == digits[i + 1..];
    assert unit * (digits[i] as int + 256 * more) == digits[i] as int * unit + unit * 256 * more;
  }

  /** The index found is the one a left-to-right scan stops at. */
  lemma FirstMark(s: bytes, mark: byte, k: nat)
    requires k < |s| && s[k] == mark && forall j :: 0 <= j < k ==> s[j] != mark
    ensures IndexOf(s, mark) == Some(k)
  {
    var found := IndexOf(s, mark);
    assert found.Some?;
    forall j | 0 <= j < found.value
      ensures s[j] != mark
    {
      assert s[j] in s[..found.value];
    }
  }

  lemma NoMark(s: bytes, mark: byte)
    requires forall j :: 0 <= j < |s| ==> s[j] != mark
    ensures IndexOf(s, mark).None?
  {
  }
}
