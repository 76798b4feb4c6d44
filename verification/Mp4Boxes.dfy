/**
  Boxes by their layout (section 4.2 of ISO/IEC 14496-12): size, type and body, and what src/hsv/fmp4.rs:235-313 makes
  of streams built of them.
 */
module Mp4Boxes {
  import opened Bytes
  import opened Fmp4

  /** `long`: the size follows the type in eight bytes, and the size field says 1. */
  datatype Layout = Layout(kind: bytes, body: bytes, long: bool)

  const MOOF: bytes := [0x6D, 0x6F, 0x6F, 0x66]
  const MDAT: bytes := [0x6D, 0x64, 0x61, 0x74]

  predicate Sized(b: Layout) {
    |b.kind| == 4 && if b.long then 16 + |b.body| < 0x1_0000_0000_0000_0000 else 8 + |b.body| < 0x1_0000_0000
  }

  function Laid(b: Layout): bytes {
    if b.long then Be(1, 4) + b.kind + Be(16 + |b.body|, 8) + b.body else Be(8 + |b.body|, 4) + b.kind + b.body
  }

  function AllLaid(bs: seq<Layout>): (r: seq<bytes>)
    ensures |r| == |bs| && forall i :: 0 <= i < |r| ==> r[i] == Laid(bs[i])
  {
    seq(|bs|, i requires 0 <= i < |bs| => Laid(bs[i]))
  }

  lemma Typed(b: Layout)
    requires |b.kind| == 4
    ensures |Laid(b)| == |b.body| + (if b.long then 16 else 8) && Kind(Laid(b)) == b.kind
  {
    hide Be;
    if b.long {
      assert Laid(b)[4..8] == b.kind;
    } else {
      assert Laid(b)[4..8] == b.kind;
    }
  }

  /** A box so built is one whole box, of its type. */
  lemma LaidIsBox(b: Layout)
    requires Sized(b)
    ensures IsBox(Laid(b)) && Kind(Laid(b)) == b.kind
  {
    hide Be, FromBe;
    Powers();
    Typed(b);
    hide Kind;
    var s := Laid(b);
    if b.long {
      FromBeOfBe(1, 4);
      FromBeOfBe(16 + |b.body|, 8);
      assert s[..4] == Be(1, 4) && s[8..16] == Be(16 + |b.body|, 8);
    } else {
      FromBeOfBe(8 + |b.body|, 4);
      assert s[..4] == Be(8 + |b.body|, 4);
    }
    assert s[..|s|] == s && s[|s|..] == [];
  }

  /** A box of which anything is missing is not handled. */
  lemma PartOfBox(b: bytes, k: nat)
    requires IsBox(b) && k < |b|
    ensures ReadBox(b[..k]) == Ended(EndOfInput)
  {
    hide FromBe;
    var s := b[..k];
    if k >= 8 {
      assert s[..4] == b[..4];
      if k >= 16 { assert s[8..16] == b[8..16]; }
    }
  }

  /** Sizes no box can have end the parse. */
  lemma SizesRefused(size: nat, kind: bytes, more: bytes)
    requires |kind| == 4
    ensures ReadBox(Be(0, 4) + kind + more) == Ended(ZeroSizeBox)
    ensures 2 <= size < 8 ==> ReadBox(Be(size, 4) + kind + more) == Ended(InvalidSize(size))
    ensures size < 16 ==> ReadBox(Be(1, 4) + kind + Be(size, 8) + more) == Ended(InvalidSize(size))
  {
    hide Be, FromBe;
    Powers();
    FromBeOfBe(0, 4);
    FromBeOfBe(1, 4);
    assert (Be(0, 4) + kind + more)[..4] == Be(0, 4);
    if size < 16 {
      FromBeOfBe(size, 4);
      FromBeOfBe(size, 8);
      assert (Be(size, 4) + kind + more)[..4] == Be(size, 4);
      var long := Be(1, 4) + kind + Be(size, 8) + more;
      assert long[..4] == Be(1, 4) && long[8..16] == Be(size, 8);
    }
  }

  lemma KindNames()
    ensures Ascii("moof") == MOOF && Ascii("mdat") == MDAT
  {
  }

  lemma LaidKinds(b: Layout)
    requires |b.kind| == 4
    ensures IsMoof(Laid(b)) <==> b.kind == MOOF
    ensures IsMdat(Laid(b)) <==> b.kind == MDAT
  {
    KindNames();
    Typed(b);
    hide Ascii, Laid, Kind;
  }

  // --- The streams ffmpeg writes ---

  datatype Piece = Piece(moof: Layout, mdat: Layout)

  ghost predicate IsPiece(p: Piece) {
    Sized(p.moof) && Sized(p.mdat) && p.moof.kind == MOOF && p.mdat.kind == MDAT
  }

  ghost predicate IsHead(head: seq<Layout>) {
    forall i :: 0 <= i < |head| ==> Sized(head[i]) && head[i].kind != MOOF
  }

  function LaidPairs(ps: seq<Piece>): (r: seq<Pair>)
    ensures |r| == |ps| && forall i :: 0 <= i < |r| ==> r[i] == Pair(Laid(ps[i].moof), Laid(ps[i].mdat))
  {
    seq(|ps|, i requires 0 <= i < |ps| => Pair(Laid(ps[i].moof), Laid(ps[i].mdat)))
  }

  /** The bytes of each piece: its two boxes, one after the other. */
  function PieceBytes(ps: seq<Piece>): (r: seq<bytes>)
    ensures |r| == |ps| && forall i :: 0 <= i < |r| ==> r[i] == Laid(ps[i].moof) + Laid(ps[i].mdat)
  {
    seq(|ps|, i requires 0 <= i < |ps| => Laid(ps[i].moof) + Laid(ps[i].mdat))
  }

  lemma {:induction false} PairsAreLaid(ps: seq<Piece>)
    requires forall i :: 0 <= i < |ps| ==> IsPiece(ps[i])
    ensures forall i :: 0 <= i < |ps| ==> IsPair(LaidPairs(ps)[i])
    ensures AllBoxes(PairBoxes(LaidPairs(ps))) && PairBytes(LaidPairs(ps)) == PieceBytes(ps)
    ensures Flatten(PairBoxes(LaidPairs(ps))) == Flatten(PieceBytes(ps))
  {
    hide IsBox, Laid, IsMoof, IsMdat;
    if ps != [] {
      var p, more := ps[0], ps[1..];
      PairsAreLaid(more);
      assert LaidPairs(ps)[1..] == LaidPairs(more) && PieceBytes(ps)[1..] == PieceBytes(more);
      LaidIsBox(p.moof);
      LaidIsBox(p.mdat);
      LaidKinds(p.moof);
      LaidKinds(p.mdat);
      forall i | 0 <= i < |ps| ensures IsPair(LaidPairs(ps)[i]) {
        if i > 0 { assert LaidPairs(ps)[i] == LaidPairs(more)[i - 1]; }
      }
      TwoFlat(Laid(p.moof), Laid(p.mdat), PairBoxes(LaidPairs(more)));
      FlattenCons(Laid(p.moof) + Laid(p.mdat), PieceBytes(more));
      assert PieceBytes(ps) == [Laid(p.moof) + Laid(p.mdat)] + PieceBytes(more);
    }
  }

  lemma TwoFlat(a: bytes, b: bytes, more: seq<bytes>)
    ensures Flatten([a, b] + more) == (a + b) + Flatten(more)
  {
    assert [a, b] + more == [a] + ([b] + more);
    FlattenCons(a, [b] + more);
    FlattenCons(b, more);
    Assoc(a, b, Flatten(more));
  }

  lemma HeadIsLaid(head: seq<Layout>)
    requires IsHead(head)
    ensures AllBoxes(AllLaid(head)) && forall i :: 0 <= i < |head| ==> !IsMoof(AllLaid(head)[i])
  {
    hide IsBox, Laid, IsMoof, IsMdat;
    forall i | 0 <= i < |head| ensures IsBox(AllLaid(head)[i]) && !IsMoof(AllLaid(head)[i]) {
      LaidIsBox(head[i]);
      LaidKinds(head[i]);
    }
  }

  /** All that ffmpeg writes, in bytes; `rest` is a box cut off, or nothing. */
  function Stream(head: seq<Layout>, ps: seq<Piece>, rest: bytes): bytes {
    Flatten(AllLaid(head)) + Flatten(PieceBytes(ps)) + rest
  }

  /** Boxes of other types, then moof and mdat in turn: the first ones are the init segment, and each pair is a fragment. */
  lemma StreamSplits(head: seq<Layout>, ps: seq<Piece>, rest: bytes)
    requires IsHead(head) && (forall i :: 0 <= i < |ps| ==> IsPiece(ps[i])) && ReadBox(rest).Ended?
    ensures var (out, end) := Split(Fresh, Stream(head, ps, rest));
      out.init == Flatten(AllLaid(head)) && out.fragments == PieceBytes(ps) && end == ReadBox(rest).end
  {
    hide IsBox, ReadBox, Split, SplitBoxes, Laid, IsMoof, IsPair, IsPiece, Flatten, PairBoxes, PairBytes;
    HeadIsLaid(head);
    PairsAreLaid(ps);
    var boxes := AllLaid(head) + PairBoxes(LaidPairs(ps));
    FlattenAppend(AllLaid(head), PairBoxes(LaidPairs(ps)));
    SplitOfBoxes(Fresh, boxes, rest);
    PairsBecomeFragments(AllLaid(head), LaidPairs(ps));
  }

  // --- Whatever else is in a stream ---

  ghost predicate IsStray(b: Layout) {
    |b.kind| == 4 && b.kind != MOOF && b.kind != MDAT
  }

  lemma {:induction false} StraysPass(st: Splitter, strays: seq<Layout>)
    requires st.initDone && forall i :: 0 <= i < |strays| ==> IsStray(strays[i])
    ensures SplitBoxes(st, AllLaid(strays)) == st
  {
    hide TakeBox, Laid, IsMoof, IsMdat;
    if strays == [] {
      NothingSplit(st);
    } else {
      LaidKinds(strays[0]);
      TakeBoxCases(st, Laid(strays[0]));
      assert AllLaid(strays)[1..] == AllLaid(strays[1..]);
      StraysPass(st, strays[1..]);
    }
  }

  /** Once there was a moof, in whatever order boxes have come: a moof and the next mdat are a fragment, whatever is between
      them and whatever was pending; an mdat alone is one too; nothing else is. */
  lemma PieceAnywhere(st: Splitter, moof: Layout, strays: seq<Layout>, mdat: Layout)
    requires |moof.kind| == 4 && moof.kind == MOOF && |mdat.kind| == 4 && mdat.kind == MDAT
    requires forall i :: 0 <= i < |strays| ==> IsStray(strays[i])
    ensures SplitBoxes(st, [Laid(moof)] + AllLaid(strays) + [Laid(mdat)])
         == st.(initDone := true, fragment := [], fragments := st.fragments + [Laid(moof) + Laid(mdat)])
    ensures st.initDone ==>
      SplitBoxes(st, AllLaid(strays) + [Laid(mdat)]) == st.(fragment := [], fragments := st.fragments + [st.fragment + Laid(mdat)])
  {
    hide TakeBox, Laid, IsMoof, IsMdat, SplitBoxes;
    var begun := st.(initDone := true, fragment := Laid(moof));
    LaidKinds(moof);
    LaidKinds(mdat);
    MoofBegins(st, Laid(moof));
    OneSplit(st, Laid(moof));
    SplitAppend(st, [Laid(moof)] + AllLaid(strays), [Laid(mdat)]);
    SplitAppend(st, [Laid(moof)], AllLaid(strays));
    StraysPass(begun, strays);
    TakeBoxCases(begun, Laid(mdat));
    OneSplit(begun, Laid(mdat));
    if st.initDone {
      SplitAppend(st, AllLaid(strays), [Laid(mdat)]);
      StraysPass(st, strays);
      TakeBoxCases(st, Laid(mdat));
      OneSplit(st, Laid(mdat));
    }
  }

  lemma MoofBegins(st: Splitter, b: bytes)
    requires IsMoof(b)
    ensures TakeBox(st, b) == st.(initDone := true, fragment := b)
  {
  }

  lemma OneSplit(st: Splitter, b: bytes)
    ensures SplitBoxes(st, [b]) == TakeBox(st, b)
  {
    hide TakeBox;
    assert [b][1..] == [];
    NothingSplit(TakeBox(st, b));
  }

  /** Before the first moof everything is init segment, an mdat too. */
  lemma HeadKept(st: Splitter, b: Layout)
    requires !st.initDone && |b.kind| == 4 && b.kind != MOOF
    ensures SplitBoxes(st, [Laid(b)]) == st.(init := st.init + Laid(b))
  {
    hide Laid, Ascii;
    LaidKinds(b);
    OneSplit(st, Laid(b));
    KindNames();
  }
}
