/**
  The tags of the wire format (src/hsv/codec.rs:231-343; docs/hds-wire-format.md:79-104), one by one: what each decodes
  to and where the cursor stops, the ones the encoder never writes included; and what is refused.
 */
module CodecTable {
  import opened Wrappers
  import opened Bytes
  import opened CodecValues
  import opened CodecReader
  import opened CodecRoundTrip

  /** `s` in front of any tail is the leaf v: it is read, remembered, and nothing more is. */
  ghost predicate ReadsAs(r: Reader, s: bytes, v: Value) {
    forall tail: bytes, tracked: seq<Value> :: Decode(r, s + tail, tracked) == Done(Some(v), tail, tracked + [v])
  }

  // --- Leaves ---

  lemma FixedReads(r: Reader, tag: byte, payload: bytes, v: Value)
    requires LeafTag(tag) && |payload| == PayloadLen(tag) && FixedLeaf(r, tag, payload) == v
    requires !(0x61 <= tag <= 0x64 || 0x91 <= tag <= 0x94 || tag == 0x6F || tag == 0x9F)
    ensures ReadsAs(r, [tag] + payload, v)
  {
    hide Decode;
    forall tail: bytes, tracked: seq<Value>
      ensures Decode(r, [tag] + payload + tail, tracked) == Done(Some(v), tail, tracked + [v])
    {
      FixedLeafStep(r, tag, payload, tail, tracked);
    }
  }

  lemma OneByteReads(r: Reader, tag: byte, v: Value)
    requires LeafTag(tag) && PayloadLen(tag) == 0 && FixedLeaf(r, tag, []) == v
    requires !(0x61 <= tag <= 0x64 || 0x91 <= tag <= 0x94 || tag == 0x6F || tag == 0x9F)
    ensures ReadsAs(r, [tag], v)
  {
    FixedReads(r, tag, [], v);
    Unit([tag]);
  }

  lemma ConstantsRead(r: Reader)
    ensures ReadsAs(r, [0x01], Bool(true)) && ReadsAs(r, [0x02], Bool(false)) && ReadsAs(r, [0x04], Null)
    ensures ReadsAs(r, [0x07], Int(-1))
  {
    hide ReadsAs;
    OneByteReads(r, 0x01, Bool(true));
    OneByteReads(r, 0x02, Bool(false));
    OneByteReads(r, 0x04, Null);
    OneByteReads(r, 0x07, Int(-1));
  }

  /** Up to 39, though the encoder stops at 38. */
  lemma SmallIntsRead(r: Reader, n: nat)
    requires n <= 39
    ensures ReadsAs(r, [(0x08 + n) as byte], Int(n))
  {
    hide ReadsAs;
    OneByteReads(r, (0x08 + n) as byte, Int(n));
  }

  /** Two's complement, least significant byte first, and not only where it is the shortest form. */
  lemma WideIntsRead(r: Reader, i: i64, k: nat)
    requires k < 4
    ensures var (tag, w) := [(0x30, 1), (0x31, 2), (0x32, 4), (0x33, 8)][k];
      0 <= 2 * i + Pow256(w) && 2 * i < Pow256(w) ==>
        ReadsAs(r, [tag as byte] + Le(if i < 0 then i + Pow256(w) else i, w), Int(i))
  {
    hide ReadsAs, Le, FromLe, Pow256;
    var w := [1, 2, 4, 8][k];
    if 0 <= 2 * i + Pow256(w) && 2 * i < Pow256(w) {
      SignedIntAt(i, w);
      FixedReads(r, (0x30 + k) as byte, Le(Unsigned(i, w), w), Int(i));
    }
  }

  lemma FixedWidthsRead(r: Reader, u: Bytes16, f: Bytes8, g: Bytes4)
    ensures ReadsAs(r, [0x05] + u, Uuid(u)) && ReadsAs(r, [0x06] + f, Date(f))
    ensures ReadsAs(r, [0x36] + f, Float(f)) && ReadsAs(r, [0x35] + g, Float(r.widen(g)))
  {
    hide ReadsAs;
    FixedReads(r, 0x05, u, Uuid(u));
    FixedReads(r, 0x06, f, Date(f));
    FixedReads(r, 0x36, f, Float(f));
    FixedReads(r, 0x35, g, Float(r.widen(g)));
  }

  /** Strings and blobs of up to 32 bytes with their length in the tag. */
  lemma ShortFormsRead(r: Reader, b: bytes)
    requires |b| <= 32
    ensures ReadsAs(r, [(0x40 + |b|) as byte] + b, String(b)) && ReadsAs(r, [(0x70 + |b|) as byte] + b, Data(b))
  {
    hide ReadsAs;
    FixedReads(r, (0x40 + |b|) as byte, b, String(b));
    FixedReads(r, (0x70 + |b|) as byte, b, Data(b));
  }

  /** The width of the length behind 0x61 + k and 0x91 + k: as coded and as documented. */
  function LengthWidth(lengths: LengthTable, k: nat): nat
    requires k < 4
  {
    match lengths
    case AsCoded => [1, 2, 3, 4][k]
    case AsDocumented => [1, 2, 4, 8][k]
  }

  lemma CountedFormsRead(r: Reader, k: nat, b: bytes)
    requires k < 4 && |b| < Pow256(LengthWidth(r.lengths, k))
    ensures var w := LengthWidth(r.lengths, k);
      && ReadsAs(r, [(0x61 + k) as byte] + Le(|b|, w) + b, String(b))
      && ReadsAs(r, [(0x91 + k) as byte] + Le(|b|, w) + b, Data(b))
  {
    hide Decode, Le, Counted, Pow256;
    var w := LengthWidth(r.lengths, k);
    assert r.lengths.Width(k) == w;
    forall tail: bytes, tracked: seq<Value>
      ensures Decode(r, [(0x61 + k) as byte] + Le(|b|, w) + b + tail, tracked) == Done(Some(String(b)), tail, tracked + [String(b)])
      ensures Decode(r, [(0x91 + k) as byte] + Le(|b|, w) + b + tail, tracked) == Done(Some(Data(b)), tail, tracked + [Data(b)])
    {
      var body := Le(|b|, w) + b + tail;
      CountedAt(w, b, tail, (b: bytes) => String(b));
      CountedAt(w, b, tail, (b: bytes) => Data(b));
      Regroup([(0x61 + k) as byte], Le(|b|, w), b, tail);
      Regroup([(0x91 + k) as byte], Le(|b|, w), b, tail);
      LeafStep(r, (0x61 + k) as byte, body, String(b), tail, tracked);
      LeafStep(r, (0x91 + k) as byte, body, Data(b), tail, tracked);
    }
  }

  lemma Regroup(a: bytes, b: bytes, c: bytes, d: bytes)
    ensures a + b + c + d == a + (b + c + d)
  {
  }

  lemma {:induction false} FirstMark(b: bytes, mark: byte, tail: bytes)
    requires mark !in b
    ensures IndexOf(b + ([mark] + tail), mark) == Some(|b|)
  {
    if b == [] {
      assert b + ([mark] + tail) == [mark] + tail;
    } else {
      FirstMark(b[1..], mark, tail);
      assert (b + ([mark] + tail))[1..] == b[1..] + ([mark] + tail);
    }
  }

  lemma MarkedAt(b: bytes, mark: byte, tail: bytes, make: bytes -> Value)
    requires mark !in b
    ensures Marked(b + ([mark] + tail), mark, make) == Ok((make(b), tail))
  {
    hide IndexOf;
    FirstMark(b, mark, tail);
    var s := b + ([mark] + tail);
    assert s[..|b|] == b && s[|b| + 1..] == tail;
  }

  /** A string up to its zero byte, a blob up to its 0x03, of any length. */
  lemma MarkedFormsRead(r: Reader, b: bytes)
    ensures 0x00 !in b ==> ReadsAs(r, [0x6F] + b + [0x00], String(b))
    ensures 0x03 !in b ==> ReadsAs(r, [0x9F] + b + [0x03], Data(b))
  {
    hide Decode, Marked;
    forall tail: bytes, tracked: seq<Value>
      ensures 0x00 !in b ==> Decode(r, [0x6F] + b + [0x00] + tail, tracked) == Done(Some(String(b)), tail, tracked + [String(b)])
      ensures 0x03 !in b ==> Decode(r, [0x9F] + b + [0x03] + tail, tracked) == Done(Some(Data(b)), tail, tracked + [Data(b)])
    {
      if 0x00 !in b {
        MarkedAt(b, 0x00, tail, (b: bytes) => String(b));
        assert [0x6F] + b + [0x00] + tail == [0x6F] + (b + ([0x00] + tail));
        LeafStep(r, 0x6F, b + ([0x00] + tail), String(b), tail, tracked);
      }
      if 0x03 !in b {
        MarkedAt(b, 0x03, tail, (b: bytes) => Data(b));
        assert [0x9F] + b + [0x03] + tail == [0x9F] + (b + ([0x03] + tail));
        LeafStep(r, 0x9F, b + ([0x03] + tail), Data(b), tail, tracked);
      }
    }
  }

  // --- Containers, in both forms at any length they can have ---

  lemma ArraysRead(r: Reader, items: seq<Value>, tail: bytes, tracked: seq<Value>)
    requires ItemsFit(r.lengths.Limit(), items)
    ensures var all := Done(Some(Array(NormalItems(items))), tail, tracked + LeavesOfItems(items));
      && (|items| <= 14 ==> Decode(r, [(0xD0 + |items|) as byte] + (EncodedItems(items) + tail), tracked) == all)
      && Decode(r, [0xDF] + (EncodedItems(items) + ([0x03] + tail)), tracked) == all
  {
    hide Decode, EncodedItems, NormalItems, LeavesOfItems, ItemsFit;
    Unit(NormalItems(items));
    if |items| <= 14 {
      ItemsReadBack(r, items, tail, tracked, []);
      ContainerTag(r, (0xD0 + |items|) as byte, EncodedItems(items) + tail, tracked);
    }
    TerminatedItemsReadBack(r, items, tail, tracked, []);
    ContainerTag(r, 0xDF, EncodedItems(items) + ([0x03] + tail), tracked);
  }

  lemma DictsRead(r: Reader, entries: seq<Entry>, tail: bytes, tracked: seq<Value>)
    requires EntriesFit(r.lengths.Limit(), entries)
    ensures var all := Done(Some(Dict(NormalEntries(entries))), tail, tracked + LeavesOfEntries(entries));
      && (|entries| <= 14 ==> Decode(r, [(0xE0 + |entries|) as byte] + (EncodedEntries(entries) + tail), tracked) == all)
      && Decode(r, [0xEF] + (EncodedEntries(entries) + ([0x03] + tail)), tracked) == all
  {
    hide Decode, EncodedEntries, NormalEntries, LeavesOfEntries, EntriesFit;
    Unit(NormalEntries(entries));
    if |entries| <= 14 {
      EntriesReadBack(r, entries, tail, tracked, []);
      ContainerTag(r, (0xE0 + |entries|) as byte, EncodedEntries(entries) + tail, tracked);
    }
    TerminatedEntriesReadBack(r, entries, tail, tracked, []);
    ContainerTag(r, 0xEF, EncodedEntries(entries) + ([0x03] + tail), tracked);
  }

  /** A back-reference repeats a leaf, and is not a leaf itself. */
  lemma ReferencesRead(r: Reader, k: nat, tail: bytes, tracked: seq<Value>)
    requires k < 48
    ensures Decode(r, [(0xA0 + k) as byte] + tail, tracked)
         == if k < |tracked| then Done(Some(tracked[k]), tail, tracked) else Fail(BackReferenceOutOfRange(k))
  {
    assert ([(0xA0 + k) as byte] + tail)[1..] == tail;
  }

  // --- What is refused ---

  predicate Unassigned(tag: byte) {
    tag == 0x34 || 0x37 <= tag <= 0x3F || 0x65 <= tag <= 0x6E || 0x95 <= tag <= 0x9E || tag >= 0xF0
  }

  lemma TagsRefused(r: Reader, tag: byte, tail: bytes, tracked: seq<Value>)
    ensures Decode(r, [], tracked) == Fail(Truncated(1, 0))
    ensures Decode(r, [0x00] + tail, tracked) == Fail(ZeroTag)
    ensures Decode(r, [0x03] + tail, tracked) == Done(None, tail, tracked)
    ensures Unassigned(tag) ==> Decode(r, [tag] + tail, tracked) == Fail(UnknownTag(tag))
  {
    assert ([0x03] + tail)[1..] == tail;
  }

  lemma LeafFails(r: Reader, tag: byte, body: bytes, e: DecodeError, tracked: seq<Value>)
    requires LeafTag(tag) && Leaf(r, tag, body) == Err(e)
    ensures Decode(r, [tag] + body, tracked) == Fail(e)
  {
    assert ([tag] + body)[1..] == body;
  }

  /** A leaf of n bytes with fewer behind its tag: how many were needed, and how many there were. */
  lemma ShortInputRefused(r: Reader, tag: byte, n: nat, s: bytes, tracked: seq<Value>)
    requires |s| < n
    requires (tag, n) in [(0x05, 16), (0x06, 8), (0x30, 1), (0x31, 2), (0x32, 4), (0x33, 8), (0x35, 4), (0x36, 8)]
             || (n <= 32 && (tag as int == 0x40 + n || tag as int == 0x70 + n))
    ensures Decode(r, [tag] + s, tracked) == Fail(Truncated(n, |s|))
  {
    assert LeafTag(tag) && PayloadLen(tag) == n;
    FixedFails(r, tag, s, tracked);
  }

  lemma FixedFails(r: Reader, tag: byte, s: bytes, tracked: seq<Value>)
    requires LeafTag(tag) && |s| < PayloadLen(tag)
    requires !(0x61 <= tag <= 0x64 || 0x91 <= tag <= 0x94 || tag == 0x6F || tag == 0x9F)
    ensures Decode(r, [tag] + s, tracked) == Fail(Truncated(PayloadLen(tag), |s|))
  {
    hide Decode, LeafTag, PayloadLen, FixedLeaf;
    LeafFails(r, tag, s, Truncated(PayloadLen(tag), |s|), tracked);
  }

  /** The same behind 0x61 + k and 0x91 + k, of the length itself and of what it announces; and without an end mark. */
  lemma ShortCountRefused(r: Reader, k: nat, n: nat, s: bytes, tracked: seq<Value>)
    requires k < 4 && n < Pow256(LengthWidth(r.lengths, k))
    ensures var w := LengthWidth(r.lengths, k);
      && (|s| < w ==>
            Decode(r, [(0x61 + k) as byte] + s, tracked) == Decode(r, [(0x91 + k) as byte] + s, tracked) == Fail(Truncated(w, |s|)))
      && (|s| < n ==> var cut := Le(n, w) + s;
            Decode(r, [(0x61 + k) as byte] + cut, tracked) == Decode(r, [(0x91 + k) as byte] + cut, tracked) == Fail(Truncated(n, |s|)))
    ensures 0x00 !in s ==> Decode(r, [0x6F] + s, tracked) == Fail(Truncated(1, 0))
    ensures 0x03 !in s ==> Decode(r, [0x9F] + s, tracked) == Fail(Truncated(1, 0))
  {
    hide Decode, Le, FromLe, Pow256, Counted, LengthWidth;
    var w := LengthWidth(r.lengths, k);
    if |s| < w {
      CountCut(w, 0, s);
      CountedFails(r, k, s, Truncated(w, |s|), tracked);
    }
    if |s| < n {
      CountCut(w, n, s);
      CountedFails(r, k, Le(n, w) + s, Truncated(n, |s|), tracked);
    }
    if 0x00 !in s {
      NoMark(s, 0x00);
      LeafFails(r, 0x6F, s, Truncated(1, 0), tracked);
    }
    if 0x03 !in s {
      NoMark(s, 0x03);
      LeafFails(r, 0x9F, s, Truncated(1, 0), tracked);
    }
  }

  lemma CountCut(w: nat, n: nat, s: bytes)
    requires n < Pow256(w)
    ensures |s| < w ==> forall make: bytes -> Value :: Counted(s, w, make) == Err(Truncated(w, |s|))
    ensures |s| < n ==> forall make: bytes -> Value :: Counted(Le(n, w) + s, w, make) == Err(Truncated(n, |s|))
  {
    hide Le, FromLe, Pow256;
    var cut := Le(n, w) + s;
    FromLeOfLe(n, w);
    assert cut[..w] == Le(n, w) && cut[w..] == s;
  }

  lemma CountedFails(r: Reader, k: nat, s: bytes, e: DecodeError, tracked: seq<Value>)
    requires k < 4 && forall make: bytes -> Value :: Counted(s, LengthWidth(r.lengths, k), make) == Err(e)
    ensures Decode(r, [(0x61 + k) as byte] + s, tracked) == Decode(r, [(0x91 + k) as byte] + s, tracked) == Fail(e)
  {
    hide Decode, Counted;
    assert r.lengths.Width(k) == LengthWidth(r.lengths, k);
    LeafFails(r, (0x61 + k) as byte, s, e, tracked);
    LeafFails(r, (0x91 + k) as byte, s, e, tracked);
  }

  lemma {:induction false} NoMark(s: bytes, mark: byte)
    requires mark !in s
    ensures IndexOf(s, mark) == None
  {
    if s != [] {
      assert s[0] in s;
      NoMark(s[1..], mark);
    }
  }

  /** Items in front of anything leave the rest of the count to that. */
  lemma {:induction false} ItemsAhead(r: Reader, items: seq<Value>, n: nat, s: bytes, tracked: seq<Value>, acc: seq<Value>)
    requires ItemsFit(r.lengths.Limit(), items) && |items| <= n
    ensures DecodeCounted(r, n, EncodedItems(items) + s, tracked, acc)
         == DecodeCounted(r, n - |items|, s, tracked + LeavesOfItems(items), acc + NormalItems(items))
    decreases |items|
  {
    hide Decode, DecodeCounted, Encoded, Normal, Leaves, Fits, Consumes;
    if items == [] {
      Unit(s);
      Unit(acc);
      Unit(tracked);
    } else {
      var v, more := items[0], items[1..];
      Assoc(Encoded(v), EncodedItems(more), s);
      ValueReadsBack(r, v, EncodedItems(more) + s, tracked);
      CountedStep(r, n, Encoded(v) + (EncodedItems(more) + s), tracked, acc);
      ItemsAhead(r, more, n - 1, s, tracked + Leaves(v), acc + [Normal(v)]);
      Assoc(acc, [Normal(v)], NormalItems(more));
      Assoc(tracked, Leaves(v), LeavesOfItems(more));
    }
  }

  /** A counted array cannot end early. */
  lemma TerminatorRefused(r: Reader, items: seq<Value>, n: nat, tail: bytes, tracked: seq<Value>)
    requires ItemsFit(r.lengths.Limit(), items) && |items| < n <= 14
    ensures Decode(r, [(0xD0 + n) as byte] + (EncodedItems(items) + ([0x03] + tail)), tracked) == Fail(TerminatorInArray)
  {
    hide Decode, DecodeCounted, EncodedItems, ItemsFit, LeavesOfItems, NormalItems;
    ItemsAhead(r, items, n, [0x03] + tail, tracked, []);
    TerminatorRead(r, tail, tracked + LeavesOfItems(items));
    CountedStep(r, n - |items|, [0x03] + tail, tracked + LeavesOfItems(items), [] + NormalItems(items));
    ContainerTag(r, (0xD0 + n) as byte, EncodedItems(items) + ([0x03] + tail), tracked);
  }

  /** A first key must be a string; a key without a value is refused. */
  lemma KeysRefused(r: Reader, v: Value, n: nat, tail: bytes, tracked: seq<Value>)
    requires Fits(r.lengths.Limit(), v) && 0 < n <= 14
    ensures !v.String? ==>
      && Decode(r, [(0xE0 + n) as byte] + (Encoded(v) + tail), tracked) == Fail(ExpectedStringKey)
      && Decode(r, [0xEF] + (Encoded(v) + tail), tracked) == Fail(NonStringKey(Normal(v)))
    ensures v.String? ==>
      && Decode(r, [(0xE0 + n) as byte] + (Encoded(v) + ([0x03] + tail)), tracked) == Fail(TerminatorInDict)
      && Decode(r, [0xEF] + (Encoded(v) + ([0x03] + tail)), tracked) == Fail(TerminatorInDict)
    ensures Decode(r, [(0xE0 + n) as byte] + ([0x03] + tail), tracked) == Fail(ExpectedStringKey)
  {
    NormalString(v);
    hide Decode, DecodePairs, DecodeTerminatedPairs, Encoded, Normal, Leaves, Fits;
    var rest := if v.String? then [0x03] + tail else tail;
    var s := Encoded(v) + rest;
    ValueReadsBack(r, v, rest, tracked);
    TerminatorRead(r, tail, tracked + Leaves(v));
    TerminatorRead(r, tail, tracked);
    PairsStep(r, n, s, tracked, []);
    PairsStep(r, n, [0x03] + tail, tracked, []);
    TerminatedPairsStep(r, s, tracked, []);
    ContainerTag(r, (0xE0 + n) as byte, s, tracked);
    ContainerTag(r, (0xE0 + n) as byte, [0x03] + tail, tracked);
    ContainerTag(r, 0xEF, s, tracked);
  }

  lemma NormalString(v: Value)
    ensures Normal(v).String? <==> v.String?
  {
  }
}
