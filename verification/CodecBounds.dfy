/**
  What every successful decode keeps (src/hsv/codec.rs:214-362), on arbitrary bytes: a result no
  larger than what was read, in the normal form the encoder reproduces, and a growing list of leaves.
 */
module CodecBounds {
  import opened Bytes
  import opened CodecValues
  import opened CodecReader
  import opened CodecRoundTrip

  ghost predicate Plain(v: Value) {
    v.IsLeaf() && Normal(v) == v
  }

  ghost predicate AllPlain(tracked: seq<Value>) {
    forall i :: 0 <= i < |tracked| ==> Plain(tracked[i])
  }

  /** A value read from s, leaving rest: at most one node a byte, and in normal form. */
  ghost predicate Small(v: Value, s: bytes, rest: bytes) {
    Nodes(v) + |rest| <= |s| && Normal(v) == v
  }

  ghost predicate SmallItems(items: seq<Value>, acc: seq<Value>, s: bytes, rest: bytes) {
    NodesOfItems(items) + |rest| <= NodesOfItems(acc) + |s| && NormalItems(items) == items
  }

  ghost predicate SmallEntries(entries: seq<Entry>, acc: seq<Entry>, s: bytes, rest: bytes) {
    NodesOfEntries(entries) + |rest| <= NodesOfEntries(acc) + |s| && NormalEntries(entries) == entries
  }

  lemma {:induction false} ItemAppended(acc: seq<Value>, v: Value)
    ensures NodesOfItems(acc + [v]) == NodesOfItems(acc) + Nodes(v)
    ensures NormalItems(acc + [v]) == NormalItems(acc) + [Normal(v)]
  {
    hide Nodes, Normal;
    if acc == [] {
      assert acc + [v] == [v] && [v][1..] == [];
    } else {
      ItemAppended(acc[1..], v);
      assert (acc + [v])[1..] == acc[1..] + [v];
      Assoc([Normal(acc[0])], NormalItems(acc[1..]), [Normal(v)]);
    }
  }

  lemma {:induction false} EntryAppended(acc: seq<Entry>, e: Entry)
    ensures NodesOfEntries(acc + [e]) == NodesOfEntries(acc) + 1 + Nodes(e.value)
    ensures NormalEntries(acc + [e]) == NormalEntries(acc) + [Entry(e.key, Normal(e.value))]
  {
    hide Nodes, Normal;
    if acc == [] {
      assert acc + [e] == [e] && [e][1..] == [];
    } else {
      EntryAppended(acc[1..], e);
      assert (acc + [e])[1..] == acc[1..] + [e];
      Assoc([Entry(acc[0].key, Normal(acc[0].value))], NormalEntries(acc[1..]), [Entry(e.key, Normal(e.value))]);
    }
  }

  /** Decoding arbitrary bytes: at least one byte per call, at most one node per byte. */
  lemma {:induction false} DecodedIsSmall(r: Reader, s: bytes, tracked: seq<Value>)
    requires AllPlain(tracked)
    ensures var d := Decode(r, s, tracked);
      d.Done? ==>
        && |d.rest| < |s|
        && tracked <= d.tracked && AllPlain(d.tracked)
        && (d.value.Some? ==> Small(d.value.value, s, d.rest))
    decreases |s|, 0
  {
    if s != [] {
      var tag, body := s[0], s[1..];
      if LeafTag(tag) {
        hide Leaf;
      } else if 0xD0 <= tag <= 0xEF {
        assert s == [tag] + body;
        ContainerIsSmall(r, tag, body, tracked);
      }
    }
  }

  lemma ItemsWrapped(items: seq<Value>, tag: byte, body: bytes, rest: bytes)
    requires SmallItems(items, [], body, rest)
    ensures Small(Array(items), [tag] + body, rest)
  {
  }

  lemma EntriesWrapped(entries: seq<Entry>, tag: byte, body: bytes, rest: bytes)
    requires SmallEntries(entries, [], body, rest)
    ensures Small(Dict(entries), [tag] + body, rest)
  {
  }

  lemma {:induction false} ContainerIsSmall(r: Reader, tag: byte, body: bytes, tracked: seq<Value>)
    requires AllPlain(tracked) && 0xD0 <= tag <= 0xEF
    ensures var d := Decode(r, [tag] + body, tracked);
      d.Done? ==>
        && |d.rest| <= |body|
        && tracked <= d.tracked && AllPlain(d.tracked)
        && d.value.Some? && Small(d.value.value, [tag] + body, d.rest)
    decreases |body|, 20
  {
    hide Decode, DecodeCounted, DecodeTerminated, DecodePairs, DecodeTerminatedPairs, AllPlain, Small, SmallItems, SmallEntries;
    ContainerTag(r, tag, body, tracked);
    if tag == 0xDF {
      var d := DecodeTerminated(r, body, tracked, []);
      TerminatedIsSmall(r, body, tracked, []);
      if d.Done? { ItemsWrapped(d.value, tag, body, d.rest); }
    } else if tag == 0xEF {
      var d := DecodeTerminatedPairs(r, body, tracked, []);
      TerminatedPairsAreSmall(r, body, tracked, []);
      if d.Done? { EntriesWrapped(d.value, tag, body, d.rest); }
    } else if tag < 0xDF {
      var d := DecodeCounted(r, tag as int - 0xD0, body, tracked, []);
      CountedIsSmall(r, tag as int - 0xD0, body, tracked, []);
      if d.Done? { ItemsWrapped(d.value, tag, body, d.rest); }
    } else {
      var d := DecodePairs(r, tag as int - 0xE0, body, tracked, []);
      PairsAreSmall(r, tag as int - 0xE0, body, tracked, []);
      if d.Done? { EntriesWrapped(d.value, tag, body, d.rest); }
    }
  }

  lemma {:induction false} CountedIsSmall(r: Reader, n: nat, s: bytes, tracked: seq<Value>, acc: seq<Value>)
    requires AllPlain(tracked) && NormalItems(acc) == acc
    ensures var d := DecodeCounted(r, n, s, tracked, acc);
      d.Done? ==> |d.rest| <= |s| && tracked <= d.tracked && AllPlain(d.tracked) && SmallItems(d.value, acc, s, d.rest)
    decreases |s|, 1 + n
  {
    hide Decode, DecodeCounted, AllPlain, NormalItems, NodesOfItems, Consumes;
    if n == 0 {
      NothingCounted(r, s, tracked, acc);
    } else {
      CountedStep(r, n, s, tracked, acc);
      DecodedIsSmall(r, s, tracked);
      var d := Decode(r, s, tracked);
      if Got(d) {
        ItemAppended(acc, d.value.value);
        CountedIsSmall(r, n - 1, d.rest, d.tracked, acc + [d.value.value]);
      }
    }
  }

  lemma {:induction false} TerminatedIsSmall(r: Reader, s: bytes, tracked: seq<Value>, acc: seq<Value>)
    requires AllPlain(tracked) && NormalItems(acc) == acc
    ensures var d := DecodeTerminated(r, s, tracked, acc);
      d.Done? ==> |d.rest| <= |s| && tracked <= d.tracked && AllPlain(d.tracked) && SmallItems(d.value, acc, s, d.rest)
    decreases |s|, 1
  {
    hide Decode, DecodeTerminated, AllPlain, NormalItems, NodesOfItems, Consumes;
    TerminatedStep(r, s, tracked, acc);
    DecodedIsSmall(r, s, tracked);
    var d := Decode(r, s, tracked);
    if Got(d) {
      ItemAppended(acc, d.value.value);
      TerminatedIsSmall(r, d.rest, d.tracked, acc + [d.value.value]);
    }
  }

  lemma {:induction false} PairsAreSmall(r: Reader, n: nat, s: bytes, tracked: seq<Value>, acc: seq<Entry>)
    requires AllPlain(tracked) && NormalEntries(acc) == acc
    ensures var d := DecodePairs(r, n, s, tracked, acc);
      d.Done? ==> |d.rest| <= |s| && tracked <= d.tracked && AllPlain(d.tracked) && SmallEntries(d.value, acc, s, d.rest)
    decreases |s|, 1 + n
  {
    hide Decode, DecodePairs, AllPlain, NormalEntries, NodesOfEntries, Consumes;
    if n == 0 {
      NoPairs(r, s, tracked, acc);
    } else {
      PairsStep(r, n, s, tracked, acc);
      DecodedIsSmall(r, s, tracked);
      var k := Decode(r, s, tracked);
      if GotKey(k) {
        DecodedIsSmall(r, k.rest, k.tracked);
        var d := Decode(r, k.rest, k.tracked);
        if Got(d) {
          EntryAppended(acc, Entry(k.value.value.s, d.value.value));
          PairsAreSmall(r, n - 1, d.rest, d.tracked, acc + [Entry(k.value.value.s, d.value.value)]);
        }
      }
    }
  }

  lemma {:induction false} TerminatedPairsAreSmall(r: Reader, s: bytes, tracked: seq<Value>, acc: seq<Entry>)
    requires AllPlain(tracked) && NormalEntries(acc) == acc
    ensures var d := DecodeTerminatedPairs(r, s, tracked, acc);
      d.Done? ==> |d.rest| <= |s| && tracked <= d.tracked && AllPlain(d.tracked) && SmallEntries(d.value, acc, s, d.rest)
    decreases |s|, 1
  {
    hide Decode, DecodeTerminatedPairs, AllPlain, NormalEntries, NodesOfEntries, Consumes;
    TerminatedPairsStep(r, s, tracked, acc);
    DecodedIsSmall(r, s, tracked);
    var k := Decode(r, s, tracked);
    if GotKey(k) {
      DecodedIsSmall(r, k.rest, k.tracked);
      var d := Decode(r, k.rest, k.tracked);
      if Got(d) {
        EntryAppended(acc, Entry(k.value.value.s, d.value.value));
        TerminatedPairsAreSmall(r, d.rest, d.tracked, acc + [Entry(k.value.value.s, d.value.value)]);
      }
    }
  }

  /** Whatever was decoded, if short enough, survives being encoded and decoded again, unchanged. */
  lemma DecodedReencodes(r: Reader, s: bytes, tail: bytes)
    ensures var d := Decode(r, s, []);
      Got(d) && Fits(r.lengths.Limit(), d.value.value) ==>
        var again := Decode(r, Encoded(d.value.value) + tail, []);
        again.Done? && again.value == d.value && again.rest == tail
  {
    hide Decode;
    var d := Decode(r, s, []);
    if Got(d) && Fits(r.lengths.Limit(), d.value.value) {
      DecodedIsSmall(r, s, []);
      ValueReadsBack(r, d.value.value, tail, []);
    }
  }
}
