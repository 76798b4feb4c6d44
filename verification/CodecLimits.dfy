/**
  The other half of the round trip (src/hsv/codec.rs:93-96, 112-115, 258-275, 354-361): one string,
  key or blob over the reader's limit, anywhere in a value, and the value is not read back.
 */
module CodecLimits {
  import opened Wrappers
  import opened Bytes
  import opened CodecValues
  import opened CodecReader
  import opened CodecRoundTrip

  /** If `want` came back at all, reading stopped one byte early, in front of a zero. */
  ghost predicate OffByOneAtZero(rest: bytes, tail: bytes) {
    |rest| == |tail| + 1 && rest[0] == 0
  }

  ghost predicate Derailed(d: Step<Option<Value>>, want: Value, tail: bytes) {
    d.Done? && d.value == Some(want) ==> OffByOneAtZero(d.rest, tail)
  }

  // --- An over-long payload ---

  lemma {:induction false} ShiftedOntoItself(p: bytes, k: nat)
    requires k < |p| && p == ([0] + p)[..|p|]
    ensures p[k] == 0
  {
    assert p[k] == ([0] + p)[k];
    if k > 0 {
      ShiftedOntoItself(p, k - 1);
      assert ([0] + p)[k] == p[k - 1];
    }
  }

  /** What a reader with a `w`-byte length sees where a longer length was written in 4 bytes. */
  lemma OverlongPayload(lengths: LengthTable, p: bytes, tail: bytes, make: bytes -> Value)
    returns (q: bytes, rest: bytes)
    requires |p| > lengths.Limit()
    ensures var out := Counted(Le(|p|, 4) + p + tail, lengths.Width(2), make);
      out.Ok? ==> out.value == (make(q), rest) && (q == p ==> OffByOneAtZero(rest, tail))
  {
    hide Le, FromLe;
    Powers();
    var n, w := |p|, lengths.Width(2);
    var s := Le(n, 4) + p + tail;
    LePrefix(n, 4, w);
    assert s[..w] == Le(n, 4)[..w];
    var read := FromLe(s[..w]);
    var body := s[w..];
    if read > |body| {
      q, rest := [], [];
    } else {
      q, rest := body[..read], body[read..];
      if read == n {
        assert w == 3;
        FromLeOfLe(n, 3);
        LeHighZero(n, 4, 3);
        assert body == [0] + p + tail;
        assert q == ([0] + p)[..n];
        if q == p {
          ShiftedOntoItself(p, n - 1);
          assert rest[0] == ([0] + p)[n];
        }
      }
    }
  }

  lemma KeyDerails(r: Reader, key: bytes, tail: bytes, tracked: seq<Value>)
    requires |key| > r.lengths.Limit()
    ensures Derailed(Decode(r, EncodedKey(key) + tail, tracked), String(key), tail)
  {
    hide Counted, Le;
    var q, rest := OverlongPayload(r.lengths, key, tail, (b: bytes) => String(b));
    var body := Le(|key|, 4) + key + tail;
    Assoc([0x63] + Le(|key|, 4), key, tail);
    Assoc([0x63], Le(|key|, 4), key + tail);
    Assoc(Le(|key|, 4), key, tail);
    assert EncodedKey(key) + tail == [0x63] + body;
    assert ([0x63] + body)[1..] == body;
  }

  lemma DataDerails(r: Reader, d: bytes, tail: bytes, tracked: seq<Value>)
    requires |d| > r.lengths.Limit()
    ensures Derailed(Decode(r, Encoded(Data(d)) + tail, tracked), Data(d), tail)
  {
    hide Counted, Le;
    var q, rest := OverlongPayload(r.lengths, d, tail, (b: bytes) => Data(b));
    var body := Le(|d|, 4) + d + tail;
    Assoc([0x93] + Le(|d|, 4), d, tail);
    Assoc([0x93], Le(|d|, 4), d + tail);
    Assoc(Le(|d|, 4), d, tail);
    assert Encoded(Data(d)) + tail == [0x93] + body;
    assert ([0x93] + body)[1..] == body;
  }

  // --- What the container loops keep ---

  lemma {:induction false} CountedKeeps(r: Reader, n: nat, s: bytes, tracked: seq<Value>, acc: seq<Value>)
    ensures var d := DecodeCounted(r, n, s, tracked, acc);
      d.Done? ==> acc <= d.value && |d.value| == |acc| + n
    decreases n
  {
    hide Decode, DecodeCounted, Consumes;
    if n == 0 {
      NothingCounted(r, s, tracked, acc);
    } else {
      CountedStep(r, n, s, tracked, acc);
      var d := Decode(r, s, tracked);
      if Got(d) { CountedKeeps(r, n - 1, d.rest, d.tracked, acc + [d.value.value]); }
    }
  }

  lemma {:induction false} TerminatedKeeps(r: Reader, s: bytes, tracked: seq<Value>, acc: seq<Value>)
    ensures var d := DecodeTerminated(r, s, tracked, acc); d.Done? ==> acc <= d.value
    decreases |s|
  {
    hide Decode, DecodeTerminated;
    TerminatedStep(r, s, tracked, acc);
    var d := Decode(r, s, tracked);
    if Got(d) { TerminatedKeeps(r, d.rest, d.tracked, acc + [d.value.value]); }
  }

  lemma {:induction false} PairsKeep(r: Reader, n: nat, s: bytes, tracked: seq<Value>, acc: seq<Entry>)
    ensures var d := DecodePairs(r, n, s, tracked, acc);
      d.Done? ==> acc <= d.value && |d.value| == |acc| + n
    decreases n
  {
    hide Decode, DecodePairs, Consumes;
    if n == 0 {
      NoPairs(r, s, tracked, acc);
    } else {
      PairsStep(r, n, s, tracked, acc);
      var k := Decode(r, s, tracked);
      if GotKey(k) {
        var d := Decode(r, k.rest, k.tracked);
        if Got(d) { PairsKeep(r, n - 1, d.rest, d.tracked, acc + [Entry(k.value.value.s, d.value.value)]); }
      }
    }
  }

  lemma {:induction false} TerminatedPairsKeep(r: Reader, s: bytes, tracked: seq<Value>, acc: seq<Entry>)
    ensures var d := DecodeTerminatedPairs(r, s, tracked, acc); d.Done? ==> acc <= d.value
    decreases |s|
  {
    hide Decode, DecodeTerminatedPairs;
    TerminatedPairsStep(r, s, tracked, acc);
    var k := Decode(r, s, tracked);
    if GotKey(k) {
      var d := Decode(r, k.rest, k.tracked);
      if Got(d) { TerminatedPairsKeep(r, d.rest, d.tracked, acc + [Entry(k.value.value.s, d.value.value)]); }
    }
  }

  lemma HeadsAgree<T>(acc: seq<T>, x: T, whole: seq<T>, value: seq<T>)
    ensures acc + [x] <= value && whole != [] && value == acc + whole ==> x == whole[0]
  {
    if acc + [x] <= value && whole != [] && value == acc + whole {
      assert x == (acc + [x])[|acc|] == value[|acc|] == (acc + whole)[|acc|];
    }
  }

  lemma ZeroFails(r: Reader, s: bytes, tracked: seq<Value>)
    requires s != [] && s[0] == 0
    ensures Decode(r, s, tracked).Fail?
  {
  }

  // --- Values ---

  lemma {:induction false} ValueDerails(r: Reader, v: Value, tail: bytes, tracked: seq<Value>)
    requires !Fits(r.lengths.Limit(), v)
    ensures Derailed(Decode(r, Encoded(v) + tail, tracked), Normal(v), tail)
    decreases v, 1
  {
    match v
    case String(s) => KeyDerails(r, s, tail, tracked);
    case Data(d) => DataDerails(r, d, tail, tracked);
    case Array(items) => ArrayDerails(r, items, tail, tracked);
    case Dict(entries) => DictDerails(r, entries, tail, tracked);
    case _ =>
  }

  lemma ArrayDerails(r: Reader, items: seq<Value>, tail: bytes, tracked: seq<Value>)
    requires !ItemsFit(r.lengths.Limit(), items)
    ensures Derailed(Decode(r, Encoded(Array(items)) + tail, tracked), Normal(Array(items)), tail)
    decreases items, 1
  {
    hide Decode, EncodedItems, NormalItems, DecodeCounted, DecodeTerminated;
    var body := EncodedItems(items);
    Unit(NormalItems(items));
    if |items| <= 12 {
      var tag := (0xD0 + |items|) as byte;
      ItemsDerail(r, items, tail, tracked, []);
      Assoc([tag], body, tail);
      ContainerTag(r, tag, body + tail, tracked);
    } else {
      TerminatedItemsDerail(r, items, tail, tracked, []);
      Assoc([0xDF] + body, [0x03], tail);
      Assoc([0xDF], body, [0x03] + tail);
      ContainerTag(r, 0xDF, body + ([0x03] + tail), tracked);
    }
  }

  lemma DictDerails(r: Reader, entries: seq<Entry>, tail: bytes, tracked: seq<Value>)
    requires !EntriesFit(r.lengths.Limit(), entries)
    ensures Derailed(Decode(r, Encoded(Dict(entries)) + tail, tracked), Normal(Dict(entries)), tail)
    decreases entries, 1
  {
    hide Decode, EncodedEntries, NormalEntries, DecodePairs, DecodeTerminatedPairs;
    var body := EncodedEntries(entries);
    Unit(NormalEntries(entries));
    if |entries| <= 14 {
      var tag := (0xE0 + |entries|) as byte;
      EntriesDerail(r, entries, tail, tracked, []);
      Assoc([tag], body, tail);
      ContainerTag(r, tag, body + tail, tracked);
    } else {
      TerminatedEntriesDerail(r, entries, tail, tracked, []);
      Assoc([0xEF] + body, [0x03], tail);
      Assoc([0xEF], body, [0x03] + tail);
      ContainerTag(r, 0xEF, body + ([0x03] + tail), tracked);
    }
  }

  lemma {:induction false} ItemsDerail(
      r: Reader, items: seq<Value>, tail: bytes, tracked: seq<Value>, acc: seq<Value>)
    requires !ItemsFit(r.lengths.Limit(), items)
    ensures var d := DecodeCounted(r, |items|, EncodedItems(items) + tail, tracked, acc);
      d.Done? && d.value == acc + NormalItems(items) ==> OffByOneAtZero(d.rest, tail)
    decreases items, 0
  {
    hide Decode, DecodeCounted, Encoded, Normal, Leaves, Fits, Consumes;
    var v, more := items[0], items[1..];
    var after := EncodedItems(more) + tail;
    Assoc(Encoded(v), EncodedItems(more), tail);
    var d := Decode(r, Encoded(v) + after, tracked);
    CountedStep(r, |items|, Encoded(v) + after, tracked, acc);
    Assoc(acc, [Normal(v)], NormalItems(more));
    if Fits(r.lengths.Limit(), v) {
      ValueReadsBack(r, v, after, tracked);
      ItemsDerail(r, more, tail, d.tracked, acc + [Normal(v)]);
    } else if Got(d) {
      ValueDerails(r, v, after, tracked);
      CountedKeeps(r, |more|, d.rest, d.tracked, acc + [d.value.value]);
      var result := DecodeCounted(r, |items|, Encoded(v) + after, tracked, acc);
      if result.Done? { HeadsAgree(acc, d.value.value, NormalItems(items), result.value); }
      if d.value.value == Normal(v) {
        if more == [] {
          Unit(tail);
          NothingCounted(r, d.rest, d.tracked, acc + [Normal(v)]);
        } else {
          ZeroFails(r, d.rest, d.tracked);
          CountedStep(r, |more|, d.rest, d.tracked, acc + [Normal(v)]);
        }
      }
    }
  }

  lemma {:induction false} TerminatedItemsDerail(
      r: Reader, items: seq<Value>, tail: bytes, tracked: seq<Value>, acc: seq<Value>)
    requires !ItemsFit(r.lengths.Limit(), items)
    ensures var d := DecodeTerminated(r, EncodedItems(items) + ([0x03] + tail), tracked, acc);
      d.Done? ==> d.value != acc + NormalItems(items)
    decreases items, 0
  {
    hide Decode, DecodeTerminated, Encoded, Normal, Leaves, Fits, Consumes;
    var end := [0x03] + tail;
    var v, more := items[0], items[1..];
    var after := EncodedItems(more) + end;
    Assoc(Encoded(v), EncodedItems(more), end);
    var d := Decode(r, Encoded(v) + after, tracked);
    TerminatedStep(r, Encoded(v) + after, tracked, acc);
    Assoc(acc, [Normal(v)], NormalItems(more));
    if Fits(r.lengths.Limit(), v) {
      ValueReadsBack(r, v, after, tracked);
      TerminatedItemsDerail(r, more, tail, d.tracked, acc + [Normal(v)]);
    } else if Got(d) {
      ValueDerails(r, v, after, tracked);
      TerminatedKeeps(r, d.rest, d.tracked, acc + [d.value.value]);
      var result := DecodeTerminated(r, Encoded(v) + after, tracked, acc);
      if result.Done? { HeadsAgree(acc, d.value.value, NormalItems(items), result.value); }
      if d.value.value == Normal(v) {
        ZeroFails(r, d.rest, d.tracked);
        TerminatedStep(r, d.rest, d.tracked, acc + [Normal(v)]);
      }
    }
  }

  /** Where the first entry goes wrong, nothing after it is read; where it fits, it is read in full. */
  lemma FirstEntry(r: Reader, entries: seq<Entry>, end: bytes, tracked: seq<Value>)
    requires entries != []
    requires !EntriesFit(r.lengths.Limit(), entries)
    ensures var e, more := entries[0], entries[1..];
      var after := EncodedEntries(more) + end;
      var k := Decode(r, EncodedEntries(entries) + end, tracked);
      GotKey(k) && k.value.value == String(e.key) ==>
        var d := Decode(r, k.rest, k.tracked);
        Got(d) && d.value.value == Normal(e.value) ==>
          if |e.key| <= r.lengths.Limit() && Fits(r.lengths.Limit(), e.value) then d.rest == after
          else OffByOneAtZero(d.rest, after)
    decreases entries, 0, 0
  {
    hide Decode, Encoded, Normal, Leaves, Fits, Consumes, EncodedKey;
    var e, more := entries[0], entries[1..];
    var after := EncodedEntries(more) + end;
    var value := Encoded(e.value) + after;
    Assoc(EncodedKey(e.key) + Encoded(e.value), EncodedEntries(more), end);
    Assoc(EncodedKey(e.key), Encoded(e.value), after);
    var k := Decode(r, EncodedKey(e.key) + value, tracked);
    if |e.key| > r.lengths.Limit() {
      KeyDerails(r, e.key, value, tracked);
      if GotKey(k) && k.value.value == String(e.key) { ZeroFails(r, k.rest, k.tracked); }
    } else {
      StringReadsBack(r, e.key, value, tracked);
      if Fits(r.lengths.Limit(), e.value) {
        ValueReadsBack(r, e.value, after, k.tracked);
      } else {
        ValueDerails(r, e.value, after, k.tracked);
      }
    }
  }

  lemma {:induction false} EntriesDerail(
      r: Reader, entries: seq<Entry>, tail: bytes, tracked: seq<Value>, acc: seq<Entry>)
    requires !EntriesFit(r.lengths.Limit(), entries)
    ensures var d := DecodePairs(r, |entries|, EncodedEntries(entries) + tail, tracked, acc);
      d.Done? && d.value == acc + NormalEntries(entries) ==> OffByOneAtZero(d.rest, tail)
    decreases entries, 0, 1
  {
    hide Decode, DecodePairs, Encoded, Normal, Leaves, Fits, Consumes, EncodedKey;
    var e, more := entries[0], entries[1..];
    var e' := Entry(e.key, Normal(e.value));
    var k := Decode(r, EncodedEntries(entries) + tail, tracked);
    FirstEntry(r, entries, tail, tracked);
    PairsStep(r, |entries|, EncodedEntries(entries) + tail, tracked, acc);
    Assoc(acc, [e'], NormalEntries(more));
    if GotKey(k) && Got(Decode(r, k.rest, k.tracked)) {
      var d := Decode(r, k.rest, k.tracked);
      var got := Entry(k.value.value.s, d.value.value);
      PairsKeep(r, |more|, d.rest, d.tracked, acc + [got]);
      var result := DecodePairs(r, |entries|, EncodedEntries(entries) + tail, tracked, acc);
      if result.Done? { HeadsAgree(acc, got, NormalEntries(entries), result.value); }
      if got == e' {
        if |e.key| <= r.lengths.Limit() && Fits(r.lengths.Limit(), e.value) {
          EntriesDerail(r, more, tail, d.tracked, acc + [e']);
        } else if more == [] {
          Unit(tail);
          NoPairs(r, d.rest, d.tracked, acc + [e']);
        } else {
          ZeroFails(r, d.rest, d.tracked);
          PairsStep(r, |more|, d.rest, d.tracked, acc + [e']);
        }
      }
    }
  }

  lemma {:induction false} TerminatedEntriesDerail(
      r: Reader, entries: seq<Entry>, tail: bytes, tracked: seq<Value>, acc: seq<Entry>)
    requires !EntriesFit(r.lengths.Limit(), entries)
    ensures var d := DecodeTerminatedPairs(r, EncodedEntries(entries) + ([0x03] + tail), tracked, acc);
      d.Done? ==> d.value != acc + NormalEntries(entries)
    decreases entries, 0, 1
  {
    hide Decode, DecodeTerminatedPairs, Encoded, Normal, Leaves, Fits, Consumes, EncodedKey;
    var end := [0x03] + tail;
    var e, more := entries[0], entries[1..];
    var e' := Entry(e.key, Normal(e.value));
    var k := Decode(r, EncodedEntries(entries) + end, tracked);
    FirstEntry(r, entries, end, tracked);
    TerminatedPairsStep(r, EncodedEntries(entries) + end, tracked, acc);
    Assoc(acc, [e'], NormalEntries(more));
    if GotKey(k) && Got(Decode(r, k.rest, k.tracked)) {
      var d := Decode(r, k.rest, k.tracked);
      var got := Entry(k.value.value.s, d.value.value);
      TerminatedPairsKeep(r, d.rest, d.tracked, acc + [got]);
      var result := DecodeTerminatedPairs(r, EncodedEntries(entries) + end, tracked, acc);
      if result.Done? { HeadsAgree(acc, got, NormalEntries(entries), result.value); }
      if got == e' {
        if |e.key| <= r.lengths.Limit() && Fits(r.lengths.Limit(), e.value) {
          TerminatedEntriesDerail(r, more, tail, d.tracked, acc + [e']);
        } else {
          ZeroFails(r, d.rest, d.tracked);
          TerminatedPairsStep(r, d.rest, d.tracked, acc + [e']);
        }
      }
    }
  }

  /**
    The round trip, exactly: for every value, whatever follows it and whatever was read before,
    the value, the position and the remembered leaves are right if and only if it fits.
   */
  lemma RoundTripExactly(r: Reader, v: Value, tail: bytes, tracked: seq<Value>)
    ensures ReadsBack(r, v, tail, tracked) <==> Fits(r.lengths.Limit(), v)
  {
    if Fits(r.lengths.Limit(), v) {
      ValueReadsBack(r, v, tail, tracked);
    } else {
      ValueDerails(r, v, tail, tracked);
    }
  }

  /** After a value, a tag 0xA0 + k names the k-th leaf remembered so far. */
  lemma BackReferenceAfter(r: Reader, v: Value, tail: bytes, tracked: seq<Value>, k: nat)
    requires Fits(r.lengths.Limit(), v)
    requires k < |tracked + Leaves(v)| && k < 48
    ensures var s := Encoded(v) + ([(0xA0 + k) as byte] + tail);
      var first := Decode(r, s, tracked);
      && first.Done?
      && Decode(r, first.rest, first.tracked) == Done(Some((tracked + Leaves(v))[k]), tail, tracked + Leaves(v))
  {
    hide Decode, Encoded, Leaves, Fits;
    var ref := (0xA0 + k) as byte;
    ValueReadsBack(r, v, [ref] + tail, tracked);
    ReferenceStep(r, k, tail, tracked + Leaves(v));
  }

  lemma ReferenceStep(r: Reader, k: nat, tail: bytes, tracked: seq<Value>)
    requires k < |tracked| && k < 48
    ensures Decode(r, [(0xA0 + k) as byte] + tail, tracked) == Done(Some(tracked[k]), tail, tracked)
  {
    assert ([(0xA0 + k) as byte] + tail)[1..] == tail;
  }
}
