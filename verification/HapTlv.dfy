/**
  The pairing TLVs (hap/src/tlv.rs:11-73): a second encoder for the same format, and a decoder into a map.
 */
module HapTlv {
  import opened Wrappers
  import opened Bytes
  import opened Tlv8

  // --- Encoding ---

  /** Produces what successive `Writer.Bytes` calls would. */
  method Encode(tlvs: seq<Item>) returns (vec: bytes)
    ensures vec == WriteAll(tlvs)
  {
    hide WriteItem;
    vec := [];
    var i := 0;
    assert tlvs[0..] == tlvs;
    while i < |tlvs|
      invariant i <= |tlvs|
      invariant vec + WriteAll(tlvs[i..]) == WriteAll(tlvs)
    {
      ghost var before := vec;
      var item := EncodeItem(tlvs[i].tag, tlvs[i].value);
      vec := vec + item;
      assert tlvs[i..][1..] == tlvs[i + 1..];
      Assoc(before, item, WriteAll(tlvs[i + 1..]));
      i := i + 1;
    }
    Unit(vec);
  }

  method EncodeItem(t: byte, v: bytes) returns (vec: bytes)
    ensures vec == WriteItem(t, v)
  {
    var length := |v|;
    if length <= 255 {
      vec := [t, length as byte] + v;
    } else {
      var l, p := length, 0;
      vec := [];
      assert v[0..] == v;
      while l > 255
        invariant 0 < l && p + l == length
        invariant vec + WriteItem(t, v[p..]) == WriteItem(t, v)
      {
        ghost var before := vec;
        var fragment := [t, 255] + v[p..p + 255];
        vec := vec + fragment;
        assert v[p..][..FRAGMENT] == v[p..p + 255] && v[p..][FRAGMENT..] == v[p + 255..];
        Assoc(before, fragment, WriteItem(t, v[p + 255..]));
        l := l - 255;
        p := p + 255;
      }
      if l > 0 {
        assert v[p..] == v[p..p + l];
        vec := vec + ([t, l as byte] + v[p..p + l]);
      }
    }
  }

  // --- Decoding ---

  /** Indexing past the end of the input stops the program. */
  datatype Failure = OutOfBounds

  type Outcome = Result<map<byte, bytes>, Failure>

  /** `buf` holds whole fragments not yet stored, `pt` the tag seen last. */
  function DecodeFrom(tlv: bytes, hm: map<byte, bytes>, buf: bytes, pt: byte): Outcome
    decreases |tlv|
  {
    if tlv == [] then Ok(if buf == [] then hm else hm[pt := buf])
    else if |tlv| < 2 || |tlv| < 2 + tlv[1] as int then Err(OutOfBounds)
    else
      var t, l := tlv[0], tlv[1] as int;
      var value := tlv[2..2 + l];
      if l < 255 then DecodeFrom(tlv[2 + l..], hm[t := if t != pt then value else buf + value], [], t)
      else DecodeFrom(tlv[2 + l..], hm, buf + value, t)
  }

  function Decoded(tlv: bytes): Outcome {
    DecodeFrom(tlv, map[], [], 0)
  }

  /** One turn of the loop, at position p. */
  lemma DecodeStep(tlv: bytes, p: nat, hm: map<byte, bytes>, buf: bytes, pt: byte)
    requires p < |tlv|
    ensures DecodeFrom(tlv[p..], hm, buf, pt) ==
      if p + 1 >= |tlv| || p + 2 + tlv[p + 1] as int > |tlv| then Err(OutOfBounds)
      else
        var t, end := tlv[p], p + 2 + tlv[p + 1] as int;
        var value := tlv[p + 2..end];
        if tlv[p + 1] < 255 then DecodeFrom(tlv[end..], hm[t := if t != pt then value else buf + value], [], t)
        else DecodeFrom(tlv[end..], hm, buf + value, t)
  {
    var rest := tlv[p..];
    assert rest[0] == tlv[p] && (|rest| >= 2 ==> rest[1] == tlv[p + 1]);
    if |rest| >= 2 && p + 2 + tlv[p + 1] as int <= |tlv| { Within(tlv, p, 2, 2 + tlv[p + 1] as int); }
  }

  lemma NothingToDecode(hm: map<byte, bytes>, buf: bytes, pt: byte)
    ensures DecodeFrom([], hm, buf, pt) == Ok(if buf == [] then hm else hm[pt := buf])
  {
  }

  method Decode(tlv: bytes) returns (r: Outcome)
    ensures r == Decoded(tlv)
  {
    hide DecodeFrom;
    var hm: map<byte, bytes> := map[];
    var buf: bytes := [];
    var p, pt: byte := 0, 0;
    assert tlv[0..] == tlv;
    while p < |tlv|
      invariant p <= |tlv|
      invariant Decoded(tlv) == DecodeFrom(tlv[p..], hm, buf, pt)
    {
      ghost var hm0, buf0 := hm, buf;
      DecodeStep(tlv, p, hm, buf, pt);
      var t := tlv[p];
      if p + 1 >= |tlv| { return Err(OutOfBounds); }
      var l := tlv[p + 1] as int;
      if p + 2 + l > |tlv| { return Err(OutOfBounds); }
      var value := tlv[p + 2..p + 2 + l];
      Unit(value);
      if l < 255 {
        if t != pt && buf != [] {
          hm := hm[t := buf];
          buf := [];
        }
        buf := buf + value;
        hm := hm[t := buf];
        buf := [];
        assert hm == hm0[t := if t != pt then value else buf0 + value];
      } else {
        buf := buf + value;
      }
      pt := t;
      p := p + 2 + l;
    }
    assert tlv[p..] == [];
    NothingToDecode(hm, buf, pt);
    if buf != [] {
      hm := hm[pt := buf];
      buf := [];
    }
    r := Ok(hm);
  }

  // --- When the decoder returns at all ---

  /** Every fragment announced is there in full. */
  predicate WholeFragments(tlv: bytes)
    decreases |tlv|
  {
    tlv == [] || (|tlv| >= 2 && |tlv| >= 2 + tlv[1] as int && WholeFragments(tlv[2 + tlv[1] as int..]))
  }

  lemma {:induction false} FragmentsDecide(tlv: bytes, hm: map<byte, bytes>, buf: bytes, pt: byte)
    ensures DecodeFrom(tlv, hm, buf, pt) == Err(OutOfBounds) <==> !WholeFragments(tlv)
    decreases |tlv|
  {
    if |tlv| >= 2 && |tlv| >= 2 + tlv[1] as int {
      var t, l := tlv[0], tlv[1] as int;
      var value := tlv[2..2 + l];
      if l < 255 {
        FragmentsDecide(tlv[2 + l..], hm[t := if t != pt then value else buf + value], [], t);
      } else {
        FragmentsDecide(tlv[2 + l..], hm, buf + value, t);
      }
    }
  }

  /** On any input at all: the decoder indexes out of bounds if and only if the last fragment is cut short. */
  lemma StopsExactlyWhenCutShort(tlv: bytes)
    ensures Decoded(tlv) == Err(OutOfBounds) <==> !WholeFragments(tlv)
  {
    FragmentsDecide(tlv, map[], [], 0);
  }

  /** A lone tag byte is enough, and so is a length with nothing behind it. */
  lemma CutShort(tag: byte, length: byte)
    ensures Decoded([tag]) == Err(OutOfBounds)
    ensures length > 0 ==> Decoded([tag, length]) == Err(OutOfBounds)
  {
    StopsExactlyWhenCutShort([tag]);
    StopsExactlyWhenCutShort([tag, length]);
  }

  // --- What is read back ---

  ghost predicate DistinctTags(items: seq<Item>) {
    forall i, j :: 0 <= i < j < |items| ==> items[i].tag != items[j].tag
  }

  /** The items as a map; a later item replaces an earlier one of its tag. */
  function AsMap(hm: map<byte, bytes>, items: seq<Item>): map<byte, bytes>
    decreases |items|
  {
    if items == [] then hm else AsMap(hm[items[0].tag := items[0].value], items[1..])
  }

  /** The last fragment is a whole one, which looks as if more were to come. */
  predicate Whole(value: bytes) {
    value != [] && |value| % 255 == 0
  }

  lemma FragmentDecodes(t: byte, value: bytes, tail: bytes, hm: map<byte, bytes>, buf: bytes, pt: byte)
    requires |value| <= 255
    ensures DecodeFrom(WriteFragment(t, value) + tail, hm, buf, pt)
         == if |value| < 255 then DecodeFrom(tail, hm[t := if t != pt then value else buf + value], [], t)
            else DecodeFrom(tail, hm, buf + value, t)
  {
    var tlv := WriteFragment(t, value) + tail;
    assert tlv[0] == t && tlv[1] == |value| as byte;
    assert tlv[2..2 + |value|] == value && tlv[2 + |value|..] == tail;
  }

  /** One item is stored under its tag, or, if whole, left in the buffer. */
  lemma {:induction false} ItemDecodes(t: byte, value: bytes, tail: bytes, hm: map<byte, bytes>, buf: bytes, pt: byte)
    requires buf == [] || t == pt
    ensures DecodeFrom(WriteItem(t, value) + tail, hm, buf, pt)
         == if Whole(value) then DecodeFrom(tail, hm, buf + value, t)
            else DecodeFrom(tail, hm[t := buf + value], [], t)
    decreases |value|
  {
    hide DecodeFrom;
    if |value| <= 255 {
      FragmentDecodes(t, value, tail, hm, buf, pt);
      Unit(value);
    } else {
      var first, more := value[..FRAGMENT], value[FRAGMENT..];
      Assoc(WriteFragment(t, first), WriteItem(t, more), tail);
      FragmentDecodes(t, first, WriteItem(t, more) + tail, hm, buf, pt);
      ItemDecodes(t, more, tail, hm, buf + first, t);
      Assoc(buf, first, more);
      assert first + more == value;
    }
  }

  lemma {:induction false} ItemsDecode(items: seq<Item>, hm: map<byte, bytes>, pt: byte)
    requires forall i :: 0 <= i < |items| - 1 ==> !Whole(items[i].value)
    ensures DecodeFrom(WriteAll(items), hm, [], pt) == Ok(AsMap(hm, items))
    decreases |items|
  {
    hide WriteItem, Whole;
    if items != [] {
      var t, value := items[0].tag, items[0].value;
      ItemDecodes(t, value, WriteAll(items[1..]), hm, [], pt);
      Unit(value);
      if |items| == 1 {
        assert Whole(value) ==> value != [] by { WholeValue(value); }
      } else {
        ItemsDecode(items[1..], hm[t := value], t);
      }
    }
  }

  lemma WholeValue(value: bytes)
    ensures Whole(value) ==> value != []
  {
  }

  // --- What is lost ---

  /** Whatever the buffer holds, an item is stored under its own tag or not at all; a whole one not at all. */
  lemma {:induction false} ItemStores(t: byte, value: bytes, tail: bytes, hm: map<byte, bytes>, buf: bytes, pt: byte)
    returns (next: map<byte, bytes>, left: bytes)
    ensures DecodeFrom(WriteItem(t, value) + tail, hm, buf, pt) == DecodeFrom(tail, next, left, t)
    ensures next.Keys <= hm.Keys + {t}
    ensures Whole(value) ==> next == hm
    decreases |value|
  {
    hide DecodeFrom;
    if |value| <= 255 {
      FragmentDecodes(t, value, tail, hm, buf, pt);
      next := if |value| < 255 then hm[t := if t != pt then value else buf + value] else hm;
      left := if |value| < 255 then [] else buf + value;
    } else {
      var first, more := value[..FRAGMENT], value[FRAGMENT..];
      Assoc(WriteFragment(t, first), WriteItem(t, more), tail);
      FragmentDecodes(t, first, WriteItem(t, more) + tail, hm, buf, pt);
      next, left := ItemStores(t, more, tail, hm, buf + first, t);
    }
  }

  lemma {:induction false} NeverStored(items: seq<Item>, hm: map<byte, bytes>, buf: bytes, pt: byte, tag: byte)
    requires tag !in hm && (forall i :: 0 <= i < |items| ==> items[i].tag != tag)
    requires items == [] ==> pt != tag
    ensures var r := DecodeFrom(WriteAll(items), hm, buf, pt);
      r.Ok? && tag !in r.value
    decreases |items|
  {
    hide WriteItem;
    if items != [] {
      var next, left := ItemStores(items[0].tag, items[0].value, WriteAll(items[1..]), hm, buf, pt);
      NeverStored(items[1..], next, left, items[0].tag, tag);
    }
  }

  /** A whole value with anything after it is lost, tag and all. */
  lemma {:induction false} WholeIsLost(items: seq<Item>, k: nat, hm: map<byte, bytes>, buf: bytes, pt: byte)
    requires k + 1 < |items| && Whole(items[k].value)
    requires DistinctTags(items) && items[k].tag !in hm
    ensures var r := DecodeFrom(WriteAll(items), hm, buf, pt);
      r.Ok? && items[k].tag !in r.value
    decreases k
  {
    hide WriteItem, DecodeFrom, Whole;
    var next, left := ItemStores(items[0].tag, items[0].value, WriteAll(items[1..]), hm, buf, pt);
    if k == 0 {
      NeverStored(items[1..], next, left, items[0].tag, items[0].tag);
    } else {
      assert items[0].tag != items[k].tag;
      WholeIsLost(items[1..], k - 1, next, left, items[0].tag);
    }
  }

  /** With distinct tags the map holds exactly the items. */
  lemma {:induction false} AsMapIs(hm: map<byte, bytes>, items: seq<Item>)
    requires DistinctTags(items)
    ensures var m := AsMap(hm, items);
      && (forall i :: 0 <= i < |items| ==> items[i].tag in m && m[items[i].tag] == items[i].value)
      && (forall t :: t in m ==> t in hm || exists i :: 0 <= i < |items| && items[i].tag == t)
      && (forall t :: t in hm && (forall i :: 0 <= i < |items| ==> items[i].tag != t) ==> t in m && m[t] == hm[t])
    decreases |items|
  {
    if items != [] {
      var more := items[1..];
      assert forall i :: 0 < i < |items| ==> items[i] == more[i - 1];
      AsMapIs(hm[items[0].tag := items[0].value], more);
    }
  }

  /**
    What the encoder wrote for items of distinct tags is decoded to exactly those items if and only if no
    value but the last is a non-zero multiple of 255 bytes long; every such value is lost with its tag.
   */
  lemma DecodesExactly(items: seq<Item>)
    requires DistinctTags(items)
    ensures Decoded(WriteAll(items)).Ok?
    ensures Decoded(WriteAll(items)) == Ok(AsMap(map[], items))
       <==> forall i :: 0 <= i < |items| - 1 ==> !Whole(items[i].value)
    ensures forall i :: 0 <= i < |items| - 1 && Whole(items[i].value) ==> items[i].tag !in Decoded(WriteAll(items)).value
  {
    hide Whole, DecodeFrom, WriteAll, AsMap;
    AsMapIs(map[], items);
    forall i | 0 <= i < |items| - 1 && Whole(items[i].value)
      ensures Decoded(WriteAll(items)).Ok? && items[i].tag !in Decoded(WriteAll(items)).value
    {
      WholeIsLost(items, i, map[], [], 0);
    }
    if forall i :: 0 <= i < |items| - 1 ==> !Whole(items[i].value) {
      ItemsDecode(items, map[], 0);
    }
  }
}
