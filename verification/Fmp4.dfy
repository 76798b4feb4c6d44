/**
  Splitting a fragmented MP4 stream (src/hsv/fmp4.rs:233-313; box layout: section 4.2 of ISO/IEC 14496-12)
  into an init segment and moof + mdat fragments.
 */
module Fmp4 {
  import opened Bytes

  // --- Boxes ---

  datatype StreamEnd = EndOfInput | ZeroSizeBox | InvalidSize(size: nat)

  datatype BoxRead = Got(box: bytes, rest: bytes) | Ended(end: StreamEnd)

  /** The next box of a stream, with a 32-bit size or, where that is 1, a 64-bit one after the type. */
  function ReadBox(s: bytes): (r: BoxRead)
    ensures r.Got? ==> 8 <= |r.box| && r.box + r.rest == s
  {
    if |s| < 8 then Ended(EndOfInput)
    else
      var size32 := FromBe(s[..4]);
      if size32 == 1 && |s| < 16 then Ended(EndOfInput)
      else if size32 == 0 then Ended(ZeroSizeBox)
      else
        var header := if size32 == 1 then 16 else 8;
        var size := if size32 == 1 then FromBe(s[8..16]) else size32;
        if size < header then Ended(InvalidSize(size))
        else if |s| < size then Ended(EndOfInput)
        else Got(s[..size], s[size..])
  }

  /** The four bytes of a box that name its type. */
  function Kind(box: bytes): bytes {
    if |box| < 8 then [] else box[4..8]
  }

  /** One whole box: its size field, short or long, gives exactly its length. */
  ghost predicate IsBox(b: bytes) {
    ReadBox(b) == Got(b, [])
  }

  lemma BoxAhead(b: bytes, tail: bytes)
    requires IsBox(b)
    ensures ReadBox(b + tail) == Got(b, tail)
  {
    hide FromBe;
    var s := b + tail;
    assert s[..4] == b[..4];
    if FromBe(b[..4]) == 1 { assert s[8..16] == b[8..16]; }
    assert s[..|b|] == b && s[|b|..] == tail;
  }

  // --- The splitter ---

  /** `fragment` is a moof still waiting for its mdat; `fragments` are those handed over. */
  datatype Splitter = Splitter(init: bytes, initDone: bool, fragment: bytes, fragments: seq<bytes>)

  const Fresh := Splitter([], false, [], [])

  function TakeBox(st: Splitter, box: bytes): Splitter
  {
    if Kind(box) == Ascii("moof") then st.(initDone := true, fragment := box)
    else if Kind(box) == Ascii("mdat") && st.initDone then
      st.(fragment := [], fragments := st.fragments + [st.fragment + box])
    else if !st.initDone then st.(init := st.init + box)
    else st
  }

  function Split(st: Splitter, s: bytes): (Splitter, StreamEnd)
    decreases |s|
  {
    match ReadBox(s)
    case Ended(end) => (st, end)
    case Got(box, rest) => Split(TakeBox(st, box), rest)
  }

  /** The next box by its position in the stream. */
  lemma BoxAt(s: bytes, pos: nat)
    requires pos + 8 <= |s|
    ensures var size32 := FromBe(s[pos..pos + 4]);
      ReadBox(s[pos..]) ==
      if size32 == 0 then Ended(ZeroSizeBox)
      else if size32 == 1 then (if pos + 16 > |s| then Ended(EndOfInput) else SizedBox(s, pos, 16, FromBe(s[pos + 8..pos + 16])))
      else SizedBox(s, pos, 8, size32)
  {
    hide FromBe;
    var rest := s[pos..];
    Within(s, pos, 0, 4);
    if pos + 16 <= |s| { Within(s, pos, 8, 16); }
    var size := if FromBe(rest[..4]) == 1 && pos + 16 <= |s| then FromBe(rest[8..16]) else FromBe(rest[..4]);
    if pos + size <= |s| { Within(s, pos, 0, size); }
  }

  function SizedBox(s: bytes, pos: nat, header: nat, size: nat): BoxRead {
    if size < header then Ended(InvalidSize(size))
    else if pos + size > |s| then Ended(EndOfInput)
    else Got(s[pos..pos + size], s[pos + size..])
  }

  lemma SplitStep(st: Splitter, s: bytes)
    ensures Split(st, s) ==
      if ReadBox(s).Ended? then (st, ReadBox(s).end) else Split(TakeBox(st, ReadBox(s).box), ReadBox(s).rest)
  {
    hide ReadBox, TakeBox;
  }

  /** The parse loop: one `read_exact` after the other until the stream ends or makes no sense. */
  method ParseStream(stdout: bytes) returns (st: Splitter, end: StreamEnd)
    ensures (st, end) == Split(Fresh, stdout)
  {
    hide FromBe, ReadBox, Split, TakeBox;
    st := Fresh;
    var pos := 0;
    assert stdout[0..] == stdout;
    while true
      invariant pos <= |stdout|
      invariant Split(Fresh, stdout) == Split(st, stdout[pos..])
      decreases |stdout| - pos
    {
      SplitStep(st, stdout[pos..]);
      if |stdout| - pos < 8 {
        TooShort(stdout[pos..]);
        return st, EndOfInput;
      }
      BoxAt(stdout, pos);
      var header := stdout[pos..pos + 8];
      assert header[..4] == stdout[pos..pos + 4];
      var size := FromBe(header[..4]);
      var boxBytes := header;
      if size == 1 {
        if |stdout| - pos - 8 < 8 { return st, EndOfInput; }
        var large := stdout[pos + 8..pos + 16];
        boxBytes := boxBytes + large;
        size := FromBe(large);
      } else if size == 0 {
        return st, ZeroSizeBox;
      }
      if size < |boxBytes| { return st, InvalidSize(size); }
      var bodyLen := size - |boxBytes|;
      if |stdout| - pos - |boxBytes| < bodyLen { return st, EndOfInput; }
      assert boxBytes + stdout[pos + |boxBytes|..pos + size] == stdout[pos..pos + size];
      boxBytes := boxBytes + stdout[pos + |boxBytes|..pos + size];
      st := TakeBox(st, boxBytes);
      pos := pos + size;
    }
  }

  lemma TooShort(s: bytes)
    requires |s| < 8
    ensures ReadBox(s) == Ended(EndOfInput)
  {
  }

  // --- Streams as lists of boxes ---

  ghost predicate AllBoxes(bs: seq<bytes>) {
    forall i :: 0 <= i < |bs| ==> IsBox(bs[i])
  }

  function SplitBoxes(st: Splitter, bs: seq<bytes>): Splitter
    decreases |bs|
  {
    if bs == [] then st else SplitBoxes(TakeBox(st, bs[0]), bs[1..])
  }

  /** What is left of a stream after its last whole box does not matter, unless it is a box itself. */
  lemma {:induction false} SplitOfBoxes(st: Splitter, bs: seq<bytes>, tail: bytes)
    requires AllBoxes(bs) && ReadBox(tail).Ended?
    ensures Split(st, Flatten(bs) + tail) == (SplitBoxes(st, bs), ReadBox(tail).end)
    decreases |bs|
  {
    hide IsBox, ReadBox, TakeBox;
    if bs == [] {
      Unit(tail);
    } else {
      Assoc(bs[0], Flatten(bs[1..]), tail);
      BoxAhead(bs[0], Flatten(bs[1..]) + tail);
      assert AllBoxes(bs[1..]);
      SplitOfBoxes(TakeBox(st, bs[0]), bs[1..], tail);
    }
  }

  function Output(st: Splitter): bytes {
    st.init + Flatten(st.fragments)
  }

  predicate IsMoof(b: bytes)
  {
    Kind(b) == Ascii("moof")
  }

  predicate IsMdat(b: bytes)
  {
    Kind(b) == Ascii("mdat")
  }

  lemma KindsDiffer(b: bytes)
    ensures !(IsMoof(b) && IsMdat(b))
  {
    assert Ascii("moof")[1] != Ascii("mdat")[1];
  }

  /** Number of boxes before the first moof. */
  function HeadLen(bs: seq<bytes>): (n: nat)
    ensures n <= |bs| && (n < |bs| ==> IsMoof(bs[n]))
    ensures forall i :: 0 <= i < n ==> !IsMoof(bs[i])
  {
    if bs == [] || IsMoof(bs[0]) then 0 else 1 + HeadLen(bs[1..])
  }

  /** Box i is a moof directly before an mdat, or an mdat. */
  ghost predicate PairedAt(bs: seq<bytes>, i: nat)
    requires i < |bs|
  {
    IsMdat(bs[i]) || (IsMoof(bs[i]) && i + 1 < |bs| && IsMdat(bs[i + 1]))
  }

  /** From box k on: nothing but moof and mdat, and every moof directly before an mdat. */
  ghost predicate Paired(bs: seq<bytes>, k: nat) {
    forall i: nat :: k <= i < |bs| ==> PairedAt(bs, i)
  }

  lemma PairedTail(bs: seq<bytes>, n: nat)
    requires n <= |bs|
    ensures Paired(bs, n) <==> Paired(bs[n..], 0)
  {
    hide PairedAt;
    forall i: nat | i < |bs| - n
      ensures PairedAt(bs, n + i) == PairedAt(bs[n..], i)
    {
      PairedShift(bs, n, i);
    }
    if Paired(bs[n..], 0) {
      forall i: nat | n <= i < |bs|
        ensures PairedAt(bs, i)
      {
        assert PairedAt(bs[n..], i - n) && n + (i - n) == i;
      }
    }
  }

  lemma PairedShift(bs: seq<bytes>, n: nat, i: nat)
    requires n + i < |bs|
    ensures PairedAt(bs, n + i) == PairedAt(bs[n..], i)
  {
  }

  lemma PairedFirst(bs: seq<bytes>)
    requires bs != []
    ensures Paired(bs, 0) <==> PairedAt(bs, 0) && Paired(bs, 1)
  {
    hide PairedAt;
  }

  /** Bytes a started splitter drops from these boxes: stray boxes, and moofs whose mdat never came. */
  function Lost(pending: bytes, bs: seq<bytes>): nat
    decreases |bs|
  {
    if bs == [] then |pending|
    else if IsMoof(bs[0]) then |pending| + Lost(bs[0], bs[1..])
    else if IsMdat(bs[0]) then Lost([], bs[1..])
    else |bs[0]| + Lost(pending, bs[1..])
  }

  lemma TakeBoxCases(st: Splitter, b: bytes)
    requires st.initDone
    ensures TakeBox(st, b) ==
      if IsMoof(b) then st.(fragment := b)
      else if IsMdat(b) then st.(fragment := [], fragments := st.fragments + [st.fragment + b])
      else st
  {
  }

  lemma PairFlattened(fragments: seq<bytes>, moof: bytes, mdat: bytes, rest: bytes)
    ensures Flatten(fragments + [moof + mdat]) + rest == Flatten(fragments) + moof + (mdat + rest)
  {
    hide Flatten;
    FlattenAppend(fragments, [moof + mdat]);
    FlattenOne(moof + mdat);
    Assoc(Flatten(fragments), moof, mdat);
    Assoc(Flatten(fragments) + moof, mdat, rest);
  }

  lemma FlattenOne(part: bytes)
    ensures Flatten([part]) == part
  {
    assert [part][1..] == [];
    Unit(part);
  }

  /** From st on, `out` comes of these boxes: what it does not hold is lost, and if nothing is, it holds them in order. */
  ghost predicate Kept(st: Splitter, bs: seq<bytes>, out: Splitter) {
    && out.init == st.init
    && |Flatten(out.fragments)| + Lost(st.fragment, bs) == |Flatten(st.fragments)| + |st.fragment| + |Flatten(bs)|
    && (Lost(st.fragment, bs) == 0 ==> Flatten(out.fragments) == Flatten(st.fragments) + st.fragment + Flatten(bs))
  }

  lemma MoofKept(st: Splitter, bs: seq<bytes>, out: Splitter)
    requires bs != [] && IsMoof(bs[0]) && Kept(st.(fragment := bs[0]), bs[1..], out)
    ensures Kept(st, bs, out)
  {
    hide IsMoof, IsMdat;
    assert Flatten(bs) == bs[0] + Flatten(bs[1..]);
    hide Flatten;
    if st.fragment == [] {
      Assoc(Flatten(st.fragments), bs[0], Flatten(bs[1..]));
      Unit(Flatten(st.fragments));
    }
  }

  lemma MdatKept(st: Splitter, bs: seq<bytes>, out: Splitter)
    requires bs != [] && IsMdat(bs[0])
    requires Kept(st.(fragment := [], fragments := st.fragments + [st.fragment + bs[0]]), bs[1..], out)
    ensures Kept(st, bs, out)
  {
    KindsDiffer(bs[0]);
    hide IsMoof, IsMdat;
    assert Flatten(bs) == bs[0] + Flatten(bs[1..]);
    hide Flatten;
    PairFlattened(st.fragments, st.fragment, bs[0], Flatten(bs[1..]));
    Unit(Flatten(st.fragments + [st.fragment + bs[0]]));
  }

  lemma StrayKept(st: Splitter, bs: seq<bytes>, out: Splitter)
    requires bs != [] && !IsMoof(bs[0]) && !IsMdat(bs[0]) && Kept(st, bs[1..], out)
    ensures Kept(st, bs, out)
  {
    hide IsMoof, IsMdat;
    assert Flatten(bs) == bs[0] + Flatten(bs[1..]);
    hide Flatten;
    if bs[0] == [] { Unit(Flatten(bs[1..])); }
  }

  lemma {:induction false} StartedSplit(st: Splitter, bs: seq<bytes>)
    requires st.initDone
    ensures Kept(st, bs, SplitBoxes(st, bs))
    decreases |bs|
  {
    if bs == [] {
      Unit(Flatten(st.fragments));
    } else {
      hide IsMoof, IsMdat, Kept, TakeBox;
      var b := bs[0];
      TakeBoxCases(st, b);
      StartedSplit(TakeBox(st, b), bs[1..]);
      var out := SplitBoxes(st, bs);
      if IsMoof(b) { MoofKept(st, bs, out); } else if IsMdat(b) { MdatKept(st, bs, out); } else { StrayKept(st, bs, out); }
    }
  }

  /** Nothing is lost exactly when the boxes pair up. */
  lemma {:induction false} LostExactly(pending: bytes, bs: seq<bytes>)
    requires forall i :: 0 <= i < |bs| ==> bs[i] != []
    ensures Lost(pending, bs) == 0 <==> Paired(bs, 0) && (pending != [] ==> bs != [] && IsMdat(bs[0]))
    decreases |bs|
  {
    hide Kind, Ascii;
    if bs != [] {
      var b, more := bs[0], bs[1..];
      KindsDiffer(b);
      LostExactly(if IsMoof(b) then b else if IsMdat(b) then [] else pending, more);
      PairedFirst(bs);
      PairedTail(bs, 1);
    }
  }

  lemma {:induction false} HeadSplit(st: Splitter, bs: seq<bytes>)
    requires !st.initDone && forall i :: 0 <= i < |bs| ==> !IsMoof(bs[i])
    ensures SplitBoxes(st, bs) == st.(init := st.init + Flatten(bs))
    decreases |bs|
  {
    hide Kind, Ascii;
    if bs == [] {
      Unit(st.init);
    } else {
      HeadSplit(TakeBox(st, bs[0]), bs[1..]);
      Assoc(st.init, bs[0], Flatten(bs[1..]));
    }
  }

  lemma {:induction false} SplitAppend(st: Splitter, a: seq<bytes>, b: seq<bytes>)
    ensures SplitBoxes(st, a + b) == SplitBoxes(SplitBoxes(st, a), b)
    decreases |a|
  {
    hide TakeBox;
    if a == [] {
      Unit(b);
    } else {
      SplitAppend(TakeBox(st, a[0]), a[1..], b);
      assert (a + b)[1..] == a[1..] + b;
    }
  }

  /**
    The init segment and the fragments together are exactly the input, box for box, if and only if from
    the first moof on there is nothing but moof and mdat, with every moof directly before an mdat.
   */
  lemma NothingDropped(bs: seq<bytes>)
    requires forall i :: 0 <= i < |bs| ==> bs[i] != []
    ensures Output(SplitBoxes(Fresh, bs)) == Flatten(bs) <==> Paired(bs, HeadLen(bs))
  {
    hide Kind, Ascii, SplitBoxes, Flatten, Paired, IsMoof, TakeBox, Output, HeadLen;
    var n := HeadLen(bs);
    var head, tail := bs[..n], bs[n..];
    assert head + tail == bs;
    SplitAppend(Fresh, head, tail);
    HeadSplit(Fresh, head);
    FlattenAppend(head, tail);
    PairedTail(bs, n);
    Unit(Flatten(head));
    TailSplit(Flatten(head), tail);
  }

  /** The same of the byte stream itself, however it is cut off after its last whole box. */
  lemma StreamKept(bs: seq<bytes>, rest: bytes)
    requires AllBoxes(bs) && ReadBox(rest).Ended?
    ensures Output(Split(Fresh, Flatten(bs) + rest).0) == Flatten(bs) <==> Paired(bs, HeadLen(bs))
  {
    hide SplitBoxes, Split, Flatten, Paired, HeadLen, Output;
    SplitOfBoxes(Fresh, bs, rest);
    forall i | 0 <= i < |bs| ensures bs[i] != [] { assert IsBox(bs[i]); }
    NothingDropped(bs);
  }

  lemma TailSplit(init: bytes, tail: seq<bytes>)
    requires forall i :: 0 <= i < |tail| ==> tail[i] != []
    requires tail != [] ==> IsMoof(tail[0])
    ensures Output(SplitBoxes(Fresh.(init := init), tail)) == init + Flatten(tail) <==> Paired(tail, 0)
  {
    hide SplitBoxes, Flatten, Lost, IsMoof, IsMdat, PairedAt, TakeBox;
    var st := Fresh.(init := init);
    NoFlatten();
    if tail == [] {
      NothingSplit(st);
    } else {
      FirstMoof(st, tail);
      StartedSplit(TakeBox(st, tail[0]), tail[1..]);
      LostAtMoof(tail);
      LostExactly([], tail);
      assert [tail[0]] + tail[1..] == tail;
      FlattenCons(tail[0], tail[1..]);
      Unit(tail[0]);
    }
  }

  lemma NoFlatten()
    ensures Flatten([]) == []
  {
  }

  lemma NothingSplit(st: Splitter)
    ensures SplitBoxes(st, []) == st
  {
  }

  lemma FirstMoof(st: Splitter, tail: seq<bytes>)
    requires tail != [] && IsMoof(tail[0])
    ensures TakeBox(st, tail[0]) == st.(initDone := true, fragment := tail[0])
    ensures SplitBoxes(st, tail) == SplitBoxes(TakeBox(st, tail[0]), tail[1..])
  {
  }

  lemma LostAtMoof(tail: seq<bytes>)
    requires tail != [] && IsMoof(tail[0])
    ensures Lost([], tail) == Lost(tail[0], tail[1..])
  {
  }

  // --- The shape ffmpeg writes ---

  /** A moof and its mdat. */
  datatype Pair = Pair(moof: bytes, mdat: bytes)

  ghost predicate IsPair(p: Pair) {
    IsMoof(p.moof) && IsMdat(p.mdat)
  }

  function PairBoxes(ps: seq<Pair>): seq<bytes> {
    if ps == [] then [] else [ps[0].moof, ps[0].mdat] + PairBoxes(ps[1..])
  }

  function PairBytes(ps: seq<Pair>): (r: seq<bytes>)
    ensures |r| == |ps|
  {
    if ps == [] then [] else [ps[0].moof + ps[0].mdat] + PairBytes(ps[1..])
  }

  lemma {:induction false} PairsSplit(st: Splitter, ps: seq<Pair>)
    requires forall i :: 0 <= i < |ps| ==> IsPair(ps[i])
    requires ps != [] || st.initDone
    ensures var out := SplitBoxes(st, PairBoxes(ps));
      out.init == st.init && out.fragments == st.fragments + PairBytes(ps) && (ps != [] ==> out.fragment == [])
    decreases |ps|
  {
    hide Kind, Ascii;
    if ps == [] {
      Unit(st.fragments);
    } else {
      var p, more := ps[0], ps[1..];
      KindsDiffer(p.mdat);
      var bs := PairBoxes(ps);
      assert bs[1..][1..] == PairBoxes(more) && bs[1..][0] == p.mdat;
      var next := TakeBox(TakeBox(st, p.moof), p.mdat);
      assert next == st.(initDone := true, fragment := [], fragments := st.fragments + [p.moof + p.mdat]);
      PairsSplit(next, more);
      Assoc(st.fragments, [p.moof + p.mdat], PairBytes(more));
      if more == [] { NothingSplit(next); }
    }
  }

  /** A head without moof, then moof + mdat pairs: the head is the init segment, each pair one fragment. */
  lemma PairsBecomeFragments(head: seq<bytes>, ps: seq<Pair>)
    requires forall i :: 0 <= i < |head| ==> !IsMoof(head[i])
    requires forall i :: 0 <= i < |ps| ==> IsPair(ps[i])
    ensures var out := SplitBoxes(Fresh, head + PairBoxes(ps));
      out.init == Flatten(head) && out.fragments == PairBytes(ps)
  {
    hide Kind, Ascii, SplitBoxes, Flatten;
    SplitAppend(Fresh, head, PairBoxes(ps));
    HeadSplit(Fresh, head);
    var st := Fresh.(init := [] + Flatten(head));
    Unit(Flatten(head));
    if ps == [] {
      NothingSplit(st);
    } else {
      PairsSplit(st, ps);
      Unit(PairBytes(ps));
    }
  }
}
