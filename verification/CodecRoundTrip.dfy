/**
  Reading back what the encoder wrote (src/hsv/codec.rs): a value survives exactly when
  every string, key and blob in it is short enough for the reader's length table.
 */
module CodecRoundTrip {
  import opened Wrappers
  import opened Bytes
  import opened CodecValues
  import opened CodecReader

  /** Exactly v comes back, exactly its bytes are read, exactly its leaves are remembered. */
  ghost predicate ReadsBack(r: Reader, v: Value, tail: bytes, tracked: seq<Value>) {
    Decode(r, Encoded(v) + tail, tracked) == Done(Some(Normal(v)), tail, tracked + Leaves(v))
  }

  // --- Leaves ---

  lemma LeafStep(r: Reader, tag: byte, body: bytes, v: Value, rest: bytes, tracked: seq<Value>)
    requires LeafTag(tag) && Leaf(r, tag, body) == Ok((v, rest))
    ensures Decode(r, [tag] + body, tracked) == Done(Some(v), rest, tracked + [v])
  {
    assert ([tag] + body)[1..] == body;
  }

  /** A leaf whose tag fixes the length of its payload. */
  lemma FixedLeafStep(r: Reader, tag: byte, payload: bytes, tail: bytes, tracked: seq<Value>)
    requires LeafTag(tag) && |payload| == PayloadLen(tag)
    requires !(0x61 <= tag <= 0x64 || 0x91 <= tag <= 0x94 || tag == 0x6F || tag == 0x9F)
    ensures var v := FixedLeaf(r, tag, payload);
      Decode(r, [tag] + payload + tail, tracked) == Done(Some(v), tail, tracked + [v])
  {
    hide Decode, FixedLeaf, PayloadLen;
    var body := payload + tail;
    assert body[..|payload|] == payload && body[|payload|..] == tail;
    Assoc([tag], payload, tail);
    LeafStep(r, tag, body, FixedLeaf(r, tag, payload), tail, tracked);
  }

  lemma FixedAt(payload: bytes, tail: bytes, make: bytes -> Value)
    ensures Fixed(payload + tail, |payload|, make) == Ok((make(payload), tail))
  {
    assert (payload + tail)[..|payload|] == payload;
    assert (payload + tail)[|payload|..] == tail;
  }

  lemma CountedAt(w: nat, payload: bytes, tail: bytes, make: bytes -> Value)
    requires |payload| < Pow256(w)
    ensures Counted(Le(|payload|, w) + payload + tail, w, make) == Ok((make(payload), tail))
  {
    hide Fixed, Le, FromLe;
    var s := Le(|payload|, w) + payload + tail;
    Assoc(Le(|payload|, w), payload, tail);
    assert s[..w] == Le(|payload|, w);
    assert s[w..] == payload + tail;
    FromLeOfLe(|payload|, w);
    FixedAt(payload, tail, make);
  }

  lemma SignedIntAt(i: i64, w: nat)
    requires w in {1, 2, 4, 8} && 0 <= 2 * i + Pow256(w) && 2 * i < Pow256(w)
    ensures SignedInt(Le(Unsigned(i, w), w)) == Int(i)
  {
    hide Le, FromLe;
    SignedOfUnsigned(i, w);
    FromLeOfLe(Unsigned(i, w), w);
  }

  lemma WideIntReadsBack(r: Reader, i: i64, w: nat, tail: bytes, tracked: seq<Value>)
    requires w in {1, 2, 4, 8} && 0 <= 2 * i + Pow256(w) && 2 * i < Pow256(w)
    ensures Decode(r, [WidthTag(w)] + Le(Unsigned(i, w), w) + tail, tracked)
         == Done(Some(Int(i)), tail, tracked + [Int(i)])
  {
    hide Le, Unsigned, SignedInt, Decode, Pow256;
    SignedIntAt(i, w);
    FixedLeafStep(r, WidthTag(w), Le(Unsigned(i, w), w), tail, tracked);
  }

  lemma IntReadsBack(r: Reader, v: Value, tail: bytes, tracked: seq<Value>)
    requires v.Int? || v.Int64?
    ensures ReadsBack(r, v, tail, tracked)
  {
    hide Decode, IntWidth, Le, Unsigned;
    if v.Int? && (v.i == -1 || 0 <= v.i <= 38) {
      Unit([Encoded(v)[0]]);
      FixedLeafStep(r, Encoded(v)[0], [], tail, tracked);
    } else {
      Powers();
      WideIntReadsBack(r, v.i, if v.Int? then IntWidth(v.i) else 8, tail, tracked);
    }
  }

  lemma ScalarReadsBack(r: Reader, v: Value, tail: bytes, tracked: seq<Value>)
    requires v.Bool? || v.Null? || v.Uuid? || v.Date? || v.Float?
    ensures ReadsBack(r, v, tail, tracked)
  {
    hide Decode;
    var tag, payload := Encoded(v)[0], Encoded(v)[1..];
    assert Encoded(v) == [tag] + payload;
    FixedLeafStep(r, tag, payload, tail, tracked);
  }

  lemma StringReadsBack(r: Reader, s: bytes, tail: bytes, tracked: seq<Value>)
    requires |s| <= r.lengths.Limit()
    ensures Decode(r, EncodedKey(s) + tail, tracked) == Done(Some(String(s)), tail, tracked + [String(s)])
  {
    hide Decode, Le, Counted, Fixed;
    Powers();
    var n := |s|;
    var make := (b: bytes) => String(b);
    if n <= 32 {
      Assoc(StringHeader(n), s, tail);
      FixedLeafStep(r, (0x40 + n) as byte, s, tail, tracked);
    } else {
      var w := if n <= 255 then 1 else if n <= 65535 then 2 else 4;
      var tag: byte := if n <= 255 then 0x61 else if n <= 65535 then 0x62 else 0x63;
      CountedAt(w, s, tail, make);
      OneByteLength(n);
      assert StringHeader(n) == [tag] + Le(n, w);
      Assoc(StringHeader(n), s, tail);
      Assoc([tag], Le(n, w), s + tail);
      Assoc(Le(n, w), s, tail);
      LeafStep(r, tag, Le(n, w) + s + tail, String(s), tail, tracked);
    }
  }

  lemma OneByteLength(n: nat)
    ensures n <= 255 ==> Le(n, 1) == [n as byte]
  {
  }

  lemma DataReadsBack(r: Reader, d: bytes, tail: bytes, tracked: seq<Value>)
    requires |d| <= r.lengths.Limit()
    ensures ReadsBack(r, Data(d), tail, tracked)
  {
    hide Decode, Le, Counted, Fixed;
    Powers();
    var n := |d|;
    var w := if n <= 255 then 1 else if n <= 65535 then 2 else 4;
    var tag: byte := if n <= 255 then 0x91 else if n <= 65535 then 0x92 else 0x93;
    CountedAt(w, d, tail, (b: bytes) => Data(b));
    OneByteLength(n);
    assert DataHeader(n) == [tag] + Le(n, w);
    Assoc(DataHeader(n), d, tail);
    Assoc([tag], Le(n, w), d + tail);
    Assoc(Le(n, w), d, tail);
    LeafStep(r, tag, Le(n, w) + d + tail, Data(d), tail, tracked);
  }

  // --- Containers ---

  lemma ContainerTag(r: Reader, tag: byte, body: bytes, tracked: seq<Value>)
    requires 0xD0 <= tag <= 0xEF
    ensures Decode(r, [tag] + body, tracked) ==
            if tag == 0xDF then AsArray(DecodeTerminated(r, body, tracked, []))
            else if tag == 0xEF then AsDict(DecodeTerminatedPairs(r, body, tracked, []))
            else if tag < 0xDF then AsArray(DecodeCounted(r, tag as int - 0xD0, body, tracked, []))
            else AsDict(DecodePairs(r, tag as int - 0xE0, body, tracked, []))
  {
    assert ([tag] + body)[1..] == body;
  }

  lemma TerminatorRead(r: Reader, tail: bytes, tracked: seq<Value>)
    ensures Decode(r, [0x03] + tail, tracked) == Done(None, tail, tracked)
  {
    assert ([0x03] + tail)[1..] == tail;
  }

  /** A value that fits reads back, whatever follows it and whatever was read before it. */
  lemma {:induction false} ValueReadsBack(r: Reader, v: Value, tail: bytes, tracked: seq<Value>)
    requires Fits(r.lengths.Limit(), v)
    ensures ReadsBack(r, v, tail, tracked)
    decreases v, 1
  {
    match v
    case Int(_) => IntReadsBack(r, v, tail, tracked);
    case Int64(_) => IntReadsBack(r, v, tail, tracked);
    case String(s) => StringReadsBack(r, s, tail, tracked);
    case Data(d) => DataReadsBack(r, d, tail, tracked);
    case Array(items) => ArrayReadsBack(r, items, tail, tracked);
    case Dict(entries) => DictReadsBack(r, entries, tail, tracked);
    case _ => ScalarReadsBack(r, v, tail, tracked);
  }

  lemma ArrayReadsBack(r: Reader, items: seq<Value>, tail: bytes, tracked: seq<Value>)
    requires ItemsFit(r.lengths.Limit(), items)
    ensures ReadsBack(r, Array(items), tail, tracked)
    decreases items, 1
  {
    hide Decode, EncodedItems, NormalItems, LeavesOfItems;
    var body := EncodedItems(items);
    if |items| <= 12 {
      var tag := (0xD0 + |items|) as byte;
      ItemsReadBack(r, items, tail, tracked, []);
      Assoc([tag], body, tail);
      ContainerTag(r, tag, body + tail, tracked);
    } else {
      TerminatedItemsReadBack(r, items, tail, tracked, []);
      Assoc([0xDF] + body, [0x03], tail);
      Assoc([0xDF], body, [0x03] + tail);
      ContainerTag(r, 0xDF, body + ([0x03] + tail), tracked);
    }
    Unit(NormalItems(items));
  }

  lemma DictReadsBack(r: Reader, entries: seq<Entry>, tail: bytes, tracked: seq<Value>)
    requires EntriesFit(r.lengths.Limit(), entries)
    ensures ReadsBack(r, Dict(entries), tail, tracked)
    decreases entries, 1
  {
    hide Decode, EncodedEntries, NormalEntries, LeavesOfEntries;
    var body := EncodedEntries(entries);
    if |entries| <= 14 {
      var tag := (0xE0 + |entries|) as byte;
      EntriesReadBack(r, entries, tail, tracked, []);
      Assoc([tag], body, tail);
      ContainerTag(r, tag, body + tail, tracked);
    } else {
      TerminatedEntriesReadBack(r, entries, tail, tracked, []);
      Assoc([0xEF] + body, [0x03], tail);
      Assoc([0xEF], body, [0x03] + tail);
      ContainerTag(r, 0xEF, body + ([0x03] + tail), tracked);
    }
    Unit(NormalEntries(entries));
  }

  lemma {:induction false} ItemsReadBack(
      r: Reader, items: seq<Value>, tail: bytes, tracked: seq<Value>, acc: seq<Value>)
    requires ItemsFit(r.lengths.Limit(), items)
    ensures DecodeCounted(r, |items|, EncodedItems(items) + tail, tracked, acc)
         == Done(acc + NormalItems(items), tail, tracked + LeavesOfItems(items))
    decreases items, 0
  {
    hide Decode, DecodeCounted, Encoded, Normal, Leaves, Fits, Consumes;
    if items == [] {
      assert DecodeCounted(r, 0, tail, tracked, acc) == Done(acc, tail, tracked) by { NothingCounted(r, tail, tracked, acc); }
      Unit(tail); Unit(acc); Unit(tracked);
    } else {
      var v, more := items[0], items[1..];
      var after := EncodedItems(more) + tail;
      Assoc(Encoded(v), EncodedItems(more), tail);
      ValueReadsBack(r, v, after, tracked);
      CountedStep(r, |items|, Encoded(v) + after, tracked, acc);
      ItemsReadBack(r, more, tail, tracked + Leaves(v), acc + [Normal(v)]);
      Assoc(acc, [Normal(v)], NormalItems(more));
      Assoc(tracked, Leaves(v), LeavesOfItems(more));
    }
  }

  lemma {:induction false} TerminatedItemsReadBack(
      r: Reader, items: seq<Value>, tail: bytes, tracked: seq<Value>, acc: seq<Value>)
    requires ItemsFit(r.lengths.Limit(), items)
    ensures DecodeTerminated(r, EncodedItems(items) + ([0x03] + tail), tracked, acc)
         == Done(acc + NormalItems(items), tail, tracked + LeavesOfItems(items))
    decreases items, 0
  {
    hide Decode, DecodeTerminated, Encoded, Normal, Leaves, Fits, Consumes;
    var end := [0x03] + tail;
    if items == [] {
      TerminatorRead(r, tail, tracked);
      TerminatedStep(r, end, tracked, acc);
      Unit(end); Unit(acc); Unit(tracked);
    } else {
      var v, more := items[0], items[1..];
      var after := EncodedItems(more) + end;
      Assoc(Encoded(v), EncodedItems(more), end);
      ValueReadsBack(r, v, after, tracked);
      TerminatedStep(r, Encoded(v) + after, tracked, acc);
      TerminatedItemsReadBack(r, more, tail, tracked + Leaves(v), acc + [Normal(v)]);
      Assoc(acc, [Normal(v)], NormalItems(more));
      Assoc(tracked, Leaves(v), LeavesOfItems(more));
    }
  }

  /** A key and its value, read one after the other. */
  lemma EntryReadsBack(r: Reader, entries: seq<Entry>, end: bytes, tracked: seq<Value>)
    requires EntriesFit(r.lengths.Limit(), entries) && entries != []
    ensures var e, more := entries[0], entries[1..];
      var after := EncodedEntries(more) + end;
      && EncodedEntries(entries) + end == EncodedKey(e.key) + (Encoded(e.value) + after)
      && Decode(r, EncodedEntries(entries) + end, tracked)
         == Done(Some(String(e.key)), Encoded(e.value) + after, tracked + [String(e.key)])
      && Decode(r, Encoded(e.value) + after, tracked + [String(e.key)])
         == Done(Some(Normal(e.value)), after, tracked + [String(e.key)] + Leaves(e.value))
      && tracked + [String(e.key)] + Leaves(e.value) + LeavesOfEntries(more) == tracked + LeavesOfEntries(entries)
    decreases entries, 0, 0
  {
    hide Decode, Encoded, Normal, Leaves, Fits, Consumes, EncodedKey;
    var e, more := entries[0], entries[1..];
    var after := EncodedEntries(more) + end;
    Assoc(EncodedKey(e.key) + Encoded(e.value), EncodedEntries(more), end);
    Assoc(EncodedKey(e.key), Encoded(e.value), after);
    StringReadsBack(r, e.key, Encoded(e.value) + after, tracked);
    ValueReadsBack(r, e.value, after, tracked + [String(e.key)]);
    Assoc(tracked, [String(e.key)], Leaves(e.value));
    Assoc(tracked, [String(e.key)] + Leaves(e.value), LeavesOfEntries(more));
  }

  lemma {:induction false} EntriesReadBack(
      r: Reader, entries: seq<Entry>, tail: bytes, tracked: seq<Value>, acc: seq<Entry>)
    requires EntriesFit(r.lengths.Limit(), entries)
    ensures DecodePairs(r, |entries|, EncodedEntries(entries) + tail, tracked, acc)
         == Done(acc + NormalEntries(entries), tail, tracked + LeavesOfEntries(entries))
    decreases entries, 0, 1
  {
    hide Decode, DecodePairs, Encoded, Normal, Leaves, Fits, Consumes, EncodedKey;
    if entries == [] {
      NoPairs(r, tail, tracked, acc);
      Unit(tail); Unit(acc); Unit(tracked);
    } else {
      var e, more := entries[0], entries[1..];
      EntryReadsBack(r, entries, tail, tracked);
      PairsStep(r, |entries|, EncodedEntries(entries) + tail, tracked, acc);
      var e' := Entry(e.key, Normal(e.value));
      EntriesReadBack(r, more, tail, tracked + [String(e.key)] + Leaves(e.value), acc + [e']);
      Assoc(acc, [e'], NormalEntries(more));
    }
  }

  lemma {:induction false} TerminatedEntriesReadBack(
      r: Reader, entries: seq<Entry>, tail: bytes, tracked: seq<Value>, acc: seq<Entry>)
    requires EntriesFit(r.lengths.Limit(), entries)
    ensures DecodeTerminatedPairs(r, EncodedEntries(entries) + ([0x03] + tail), tracked, acc)
         == Done(acc + NormalEntries(entries), tail, tracked + LeavesOfEntries(entries))
    decreases entries, 0, 1
  {
    hide Decode, DecodeTerminatedPairs, Encoded, Normal, Leaves, Fits, Consumes, EncodedKey;
    var end := [0x03] + tail;
    if entries == [] {
      TerminatorRead(r, tail, tracked);
      TerminatedPairsStep(r, end, tracked, acc);
      Unit(end); Unit(acc); Unit(tracked);
    } else {
      var e, more := entries[0], entries[1..];
      EntryReadsBack(r, entries, end, tracked);
      TerminatedPairsStep(r, EncodedEntries(entries) + end, tracked, acc);
      var e' := Entry(e.key, Normal(e.value));
      TerminatedEntriesReadBack(r, more, tail, tracked + [String(e.key)] + Leaves(e.value), acc + [e']);
      Assoc(acc, [e'], NormalEntries(more));
    }
  }
}
