/**
  The codec and what follows it (src/hsv/codec.rs:59-362): bytes that arrive later change no decode that needed no more
  of them, no value's encoding is the beginning of another's, and which forms the encoder chooses.
 */
module CodecStream {
  import opened Wrappers
  import opened Bytes
  import opened CodecValues
  import opened CodecReader
  import opened CodecRoundTrip

  // --- Later bytes ---

  /** With t behind it the same comes out, and t is left as well; only a truncation may turn into anything else. */
  ghost predicate Same<T>(d: Step<T>, e: Step<T>, t: bytes) {
    if d.Done? then e == Done(d.value, d.rest + t, d.tracked) else d.error.Truncated? || e == d
  }

  ghost predicate SameLeaf(a: Result<(Value, bytes), DecodeError>, b: Result<(Value, bytes), DecodeError>, t: bytes) {
    if a.Ok? then b == Ok((a.value.0, a.value.1 + t)) else a.error.Truncated?
  }

  lemma FixedStays(s: bytes, t: bytes, n: nat, make: bytes -> Value)
    ensures SameLeaf(Fixed(s, n, make), Fixed(s + t, n, make), t)
  {
    if n <= |s| { assert (s + t)[..n] == s[..n] && (s + t)[n..] == s[n..] + t; }
  }

  lemma CountedStays(s: bytes, t: bytes, w: nat, make: bytes -> Value)
    ensures SameLeaf(Counted(s, w, make), Counted(s + t, w, make), t)
  {
    hide Fixed, FromLe;
    if w <= |s| {
      assert (s + t)[..w] == s[..w] && (s + t)[w..] == s[w..] + t;
      FixedStays(s[w..], t, FromLe(s[..w]), make);
    }
  }

  lemma {:induction false} MarkStays(s: bytes, t: bytes, mark: byte)
    ensures IndexOf(s, mark).Some? ==> IndexOf(s + t, mark) == IndexOf(s, mark)
  {
    if s != [] {
      MarkStays(s[1..], t, mark);
      assert (s + t)[1..] == s[1..] + t;
    }
  }

  lemma MarkedStays(s: bytes, t: bytes, mark: byte, make: bytes -> Value)
    ensures SameLeaf(Marked(s, mark, make), Marked(s + t, mark, make), t)
  {
    hide IndexOf;
    MarkStays(s, t, mark);
    var i := IndexOf(s, mark);
    if i.Some? { assert (s + t)[..i.value] == s[..i.value] && (s + t)[i.value + 1..] == s[i.value + 1..] + t; }
  }

  lemma LeafStays(r: Reader, tag: byte, s: bytes, t: bytes)
    requires LeafTag(tag)
    ensures SameLeaf(Leaf(r, tag, s), Leaf(r, tag, s + t), t)
  {
    hide Counted, Marked, FixedLeaf, PayloadLen;
    if 0x61 <= tag <= 0x64 {
      CountedStays(s, t, r.lengths.Width(tag as int - 0x61), (b: bytes) => String(b));
    } else if 0x91 <= tag <= 0x94 {
      CountedStays(s, t, r.lengths.Width(tag as int - 0x91), (b: bytes) => Data(b));
    } else if tag == 0x6F {
      MarkedStays(s, t, 0x00, (b: bytes) => String(b));
    } else if tag == 0x9F {
      MarkedStays(s, t, 0x03, (b: bytes) => Data(b));
    } else {
      var n := PayloadLen(tag);
      if n <= |s| { assert (s + t)[..n] == s[..n] && (s + t)[n..] == s[n..] + t; }
    }
  }

  lemma LeafTagStep(r: Reader, tag: byte, body: bytes, tracked: seq<Value>)
    requires LeafTag(tag)
    ensures var leaf := Leaf(r, tag, body);
      Decode(r, [tag] + body, tracked)
      == if leaf.Err? then Fail(leaf.error) else Done(Some(leaf.value.0), leaf.value.1, tracked + [leaf.value.0])
  {
    hide Leaf;
    assert ([tag] + body)[1..] == body;
  }

  /** Tags of neither a leaf nor a container. */
  lemma OtherTagStays(r: Reader, tag: byte, body: bytes, t: bytes, tracked: seq<Value>)
    requires !LeafTag(tag) && !(0xD0 <= tag <= 0xEF)
    ensures Same(Decode(r, [tag] + body, tracked), Decode(r, [tag] + (body + t), tracked), t)
  {
    assert ([tag] + body)[1..] == body && ([tag] + (body + t))[1..] == body + t;
  }

  lemma {:induction false} DecodeStays(r: Reader, s: bytes, t: bytes, tracked: seq<Value>)
    ensures Same(Decode(r, s, tracked), Decode(r, s + t, tracked), t)
    decreases |s|, 0
  {
    if s == [] {
      NothingDecodes(r, tracked);
    } else {
      hide Decode, Leaf;
      var tag, body := s[0], s[1..];
      assert s == [tag] + body && s + t == [tag] + (body + t);
      if LeafTag(tag) {
        LeafStays(r, tag, body, t);
        LeafTagStep(r, tag, body, tracked);
        LeafTagStep(r, tag, body + t, tracked);
      } else if 0xD0 <= tag <= 0xEF {
        ContainerStays(r, tag, body, t, tracked);
      } else {
        OtherTagStays(r, tag, body, t, tracked);
      }
    }
  }

  lemma NothingDecodes(r: Reader, tracked: seq<Value>)
    ensures Decode(r, [], tracked) == Fail(Truncated(1, 0))
  {
  }

  lemma {:induction false} ContainerStays(r: Reader, tag: byte, body: bytes, t: bytes, tracked: seq<Value>)
    requires 0xD0 <= tag <= 0xEF
    ensures Same(Decode(r, [tag] + body, tracked), Decode(r, [tag] + (body + t), tracked), t)
    decreases |body|, 20
  {
    hide Decode, DecodeCounted, DecodeTerminated, DecodePairs, DecodeTerminatedPairs;
    ContainerTag(r, tag, body, tracked);
    ContainerTag(r, tag, body + t, tracked);
    if tag == 0xDF {
      TerminatedStays(r, body, t, tracked, []);
    } else if tag == 0xEF {
      TerminatedPairsStay(r, body, t, tracked, []);
    } else if tag < 0xDF {
      CountedItemsStay(r, tag as int - 0xD0, body, t, tracked, []);
    } else {
      PairsStay(r, tag as int - 0xE0, body, t, tracked, []);
    }
  }

  lemma {:induction false} CountedItemsStay(r: Reader, n: nat, s: bytes, t: bytes, tracked: seq<Value>, acc: seq<Value>)
    ensures Same(DecodeCounted(r, n, s, tracked, acc), DecodeCounted(r, n, s + t, tracked, acc), t)
    decreases |s|, 1 + n
  {
    hide Decode, DecodeCounted, Consumes;
    if n == 0 {
      NothingCounted(r, s, tracked, acc);
      NothingCounted(r, s + t, tracked, acc);
    } else {
      CountedStep(r, n, s, tracked, acc);
      CountedStep(r, n, s + t, tracked, acc);
      DecodeStays(r, s, t, tracked);
      var d := Decode(r, s, tracked);
      if Got(d) {
        Shrinks(r, s, tracked);
        CountedItemsStay(r, n - 1, d.rest, t, d.tracked, acc + [d.value.value]);
      }
    }
  }

  lemma Shrinks(r: Reader, s: bytes, tracked: seq<Value>)
    ensures var d := Decode(r, s, tracked); d.Done? ==> |d.rest| < |s|
  {
    assert Decode(r, s, tracked).Done? ==> Consumes(s, Decode(r, s, tracked).rest, 1);
  }

  lemma {:induction false} TerminatedStays(r: Reader, s: bytes, t: bytes, tracked: seq<Value>, acc: seq<Value>)
    ensures Same(DecodeTerminated(r, s, tracked, acc), DecodeTerminated(r, s + t, tracked, acc), t)
    decreases |s|, 1
  {
    hide Decode, DecodeTerminated, Consumes;
    TerminatedStep(r, s, tracked, acc);
    TerminatedStep(r, s + t, tracked, acc);
    DecodeStays(r, s, t, tracked);
    var d := Decode(r, s, tracked);
    if Got(d) {
      Shrinks(r, s, tracked);
      TerminatedStays(r, d.rest, t, d.tracked, acc + [d.value.value]);
    }
  }

  lemma {:induction false} PairsStay(r: Reader, n: nat, s: bytes, t: bytes, tracked: seq<Value>, acc: seq<Entry>)
    ensures Same(DecodePairs(r, n, s, tracked, acc), DecodePairs(r, n, s + t, tracked, acc), t)
    decreases |s|, 1 + n
  {
    hide Decode, DecodePairs, Consumes;
    if n == 0 {
      NoPairs(r, s, tracked, acc);
      NoPairs(r, s + t, tracked, acc);
    } else {
      PairsStep(r, n, s, tracked, acc);
      PairsStep(r, n, s + t, tracked, acc);
      DecodeStays(r, s, t, tracked);
      var k := Decode(r, s, tracked);
      if GotKey(k) {
        Shrinks(r, s, tracked);
        DecodeStays(r, k.rest, t, k.tracked);
        var d := Decode(r, k.rest, k.tracked);
        if Got(d) {
          Shrinks(r, k.rest, k.tracked);
          PairsStay(r, n - 1, d.rest, t, d.tracked, acc + [Entry(k.value.value.s, d.value.value)]);
        }
      }
    }
  }

  lemma {:induction false} TerminatedPairsStay(r: Reader, s: bytes, t: bytes, tracked: seq<Value>, acc: seq<Entry>)
    ensures Same(DecodeTerminatedPairs(r, s, tracked, acc), DecodeTerminatedPairs(r, s + t, tracked, acc), t)
    decreases |s|, 1
  {
    hide Decode, DecodeTerminatedPairs, Consumes;
    TerminatedPairsStep(r, s, tracked, acc);
    TerminatedPairsStep(r, s + t, tracked, acc);
    DecodeStays(r, s, t, tracked);
    var k := Decode(r, s, tracked);
    if GotKey(k) {
      Shrinks(r, s, tracked);
      DecodeStays(r, k.rest, t, k.tracked);
      var d := Decode(r, k.rest, k.tracked);
      if Got(d) {
        Shrinks(r, k.rest, k.tracked);
        TerminatedPairsStay(r, d.rest, t, d.tracked, acc + [Entry(k.value.value.s, d.value.value)]);
      }
    }
  }

  /** A value cut short anywhere is refused as truncated, never read as another. */
  lemma PrefixIsTruncated(r: Reader, v: Value, k: nat, tracked: seq<Value>)
    requires Fits(r.lengths.Limit(), v) && k < |Encoded(v)|
    ensures Decode(r, Encoded(v)[..k], tracked).Fail? && Decode(r, Encoded(v)[..k], tracked).error.Truncated?
  {
    hide Decode, Encoded, Normal, Leaves, Fits;
    var s, t := Encoded(v)[..k], Encoded(v)[k..];
    assert s + t == Encoded(v);
    Unit(Encoded(v));
    ValueReadsBack(r, v, [], tracked);
    DecodeStays(r, s, t, tracked);
    NotEmpty(Decode(r, s, tracked), t);
  }

  lemma NotEmpty<T>(d: Step<T>, t: bytes)
    requires t != []
    ensures d.Done? ==> d.rest + t != []
  {
  }

  // --- The encoder's choices ---

  /** Integers take the first of these forms that holds them; an Int64 always the widest. */
  lemma IntForms(i: i64)
    ensures i == -1 ==> Encoded(Int(i)) == [0x07]
    ensures 0 <= i <= 38 ==> Encoded(Int(i)) == [(0x08 + i) as byte]
    ensures !(-1 <= i <= 38) && -0x80 <= i < 0x80 ==> Encoded(Int(i)) == [0x30, (i % 0x100) as byte]
    ensures !(-0x80 <= i < 0x80) && -0x8000 <= i < 0x8000 ==> Encoded(Int(i)) == [0x31] + Le(i % 0x1_0000, 2)
    ensures !(-0x8000 <= i < 0x8000) && -0x8000_0000 <= i < 0x8000_0000 ==>
      Encoded(Int(i)) == [0x32] + Le(i % 0x1_0000_0000, 4)
    ensures !(-0x8000_0000 <= i < 0x8000_0000) ==> Encoded(Int(i)) == Encoded(Int64(i))
    ensures Encoded(Int64(i)) == [0x33] + Le(i % 0x1_0000_0000_0000_0000, 8)
  {
    Powers();
    if !(-1 <= i <= 38) && -0x80 <= i < 0x80 { OneByteLength(i % 0x100); }
    hide Le;
    assert -0x80 <= i < 0x80 ==> Unsigned(i, 1) == i % 0x100;
    assert -0x8000 <= i < 0x8000 ==> Unsigned(i, 2) == i % 0x1_0000;
    assert -0x8000_0000 <= i < 0x8000_0000 ==> Unsigned(i, 4) == i % 0x1_0000_0000;
    assert Unsigned(i, 8) == i % 0x1_0000_0000_0000_0000;
  }

  /** Strings, blobs and containers take the first form their length allows. */
  lemma LengthForms(b: bytes, items: seq<Value>, entries: seq<Entry>)
    ensures var n := |b|;
      && (n <= 32 ==> Encoded(String(b)) == [(0x40 + n) as byte] + b)
      && (32 < n <= 255 ==> Encoded(String(b)) == [0x61, n as byte] + b)
      && (255 < n <= 65535 ==> Encoded(String(b)) == [0x62] + Le(n, 2) + b)
      && (65535 < n ==> Encoded(String(b)) == [0x63] + Le(n, 4) + b)
      && (n <= 255 ==> Encoded(Data(b)) == [0x91, n as byte] + b)
      && (255 < n <= 65535 ==> Encoded(Data(b)) == [0x92] + Le(n, 2) + b)
      && (65535 < n ==> Encoded(Data(b)) == [0x93] + Le(n, 4) + b)
    ensures Encoded(Array(items))[0] == if |items| <= 12 then (0xD0 + |items|) as byte else 0xDF
    ensures Encoded(Dict(entries))[0] == if |entries| <= 14 then (0xE0 + |entries|) as byte else 0xEF
  {
    hide Le;
  }
}
