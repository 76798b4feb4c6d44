/**
  What the key scanner and the number parsers are for (src/amcrest.rs:22-79): a key such as
  `Encode[0].MainFormat[0].Video.FPS` names the node at the end of its segments, and a number written in decimal
  is read as itself.
 */
module SettingsKeys {
  import opened Wrappers
  import opened Bytes
  import opened Json
  import opened Settings

  // --- Keys ---

  datatype Segment = Field(name: bytes) | Index(digits: bytes)

  /** No dot, bracket, slash or tilde in a name. */
  ghost predicate Plain(s: Segment) {
    match s
    case Field(name) => name != [] && 0x2E !in name && 0x5B !in name && 0x2F !in name && 0x7E !in name
    case Index(digits) => digits != [] && AllDigits(digits)
  }

  /** What the scanner takes for a segment; a plain one has nothing in it that a pointer escapes. */
  ghost predicate Scannable(s: Segment) {
    match s
    case Field(name) => name != [] && 0x2E !in name && 0x5B !in name
    case Index(digits) => digits != [] && AllDigits(digits)
  }

  ghost predicate AllScannable(segments: seq<Segment>) {
    forall s :: s in segments ==> Scannable(s)
  }

  ghost predicate AllPlain(segments: seq<Segment>) {
    forall s :: s in segments ==> Plain(s)
  }

  function Token(s: Segment): bytes {
    match s
    case Field(name) => name
    case Index(digits) => digits
  }

  function TokensOf(segments: seq<Segment>): seq<bytes> {
    if segments == [] then [] else [Token(segments[0])] + TokensOf(segments[1..])
  }

  function Written(s: Segment): bytes {
    match s
    case Field(name) => [0x2E] + name
    case Index(digits) => [0x5B] + digits + [0x5D]
  }

  function WrittenPath(segments: seq<Segment>): bytes {
    if segments == [] then [] else Written(segments[0]) + WrittenPath(segments[1..])
  }

  function PointerOf(segments: seq<Segment>): bytes {
    if segments == [] then [] else [0x2F] + Token(segments[0]) + PointerOf(segments[1..])
  }

  lemma {:induction false} NameEnds(name: bytes, rest: bytes)
    requires DOT !in name && OPEN !in name && (rest == [] || rest[0] == DOT || rest[0] == OPEN)
    ensures SegmentLength(name + rest) == |name|
  {
    if name == [] {
      assert name + rest == rest;
    } else {
      assert name[0] in name;
      NameEnds(name[1..], rest);
      assert (name + rest)[1..] == name[1..] + rest;
    }
  }

  lemma {:induction false} DigitsEnd(digits: bytes, rest: bytes)
    requires AllDigits(digits) && (rest == [] || !IsDigit(rest[0]))
    ensures DigitsLength(digits + rest) == |digits|
  {
    if digits == [] {
      assert digits + rest == rest;
    } else {
      assert digits[0] in digits;
      DigitsEnd(digits[1..], rest);
      assert (digits + rest)[1..] == digits[1..] + rest;
    }
  }

  lemma PathBegins(segments: seq<Segment>)
    ensures var p := WrittenPath(segments);
      p == [] || p[0] == DOT || p[0] == OPEN
  {
  }

  lemma FieldScanned(name: bytes, rest: bytes)
    requires Scannable(Field(name)) && (rest == [] || rest[0] == DOT || rest[0] == OPEN)
    ensures PathPointer([DOT] + name + rest) == Prepend([SLASH] + name, PathPointer(rest))
  {
    hide PathPointer, SegmentLength;
    var path := [DOT] + name + rest;
    assert path[1..] == name + rest && path[1..|name| + 1] == name && path[|name| + 1..] == rest;
    NameEnds(name, rest);
    DotUnfolds(path);
  }

  lemma IndexScanned(digits: bytes, rest: bytes)
    requires Scannable(Index(digits))
    ensures PathPointer([OPEN] + digits + [CLOSE] + rest) == Prepend([SLASH] + digits, PathPointer(rest))
  {
    hide PathPointer, DigitsLength;
    var path := [OPEN] + digits + [CLOSE] + rest;
    assert path[1..] == digits + ([CLOSE] + rest) && path[1..|digits| + 1] == digits;
    assert path[|digits| + 1] == CLOSE && path[|digits| + 2..] == rest;
    DigitsEnd(digits, [CLOSE] + rest);
    BracketUnfolds(path);
  }

  lemma {:induction false} PathScanned(segments: seq<Segment>)
    requires AllScannable(segments)
    ensures PathPointer(WrittenPath(segments)) == Some(PointerOf(segments))
  {
    hide PathPointer;
    if segments == [] {
      EmptyPath();
    } else {
      var s, more := segments[0], segments[1..];
      assert s in segments;
      PathScanned(more);
      PathBegins(more);
      if s.Field? { FieldScanned(s.name, WrittenPath(more)); } else { IndexScanned(s.digits, WrittenPath(more)); }
    }
  }

  lemma FieldAhead(path: bytes) returns (name: bytes, rest: bytes)
    requires path != [] && path[0] == DOT && PathPointer(path).Some?
    ensures Scannable(Field(name)) && path == Written(Field(name)) + rest
    ensures PathPointer(rest).Some? && |rest| < |path|
  {
    hide PathPointer, SegmentLength;
    var n := SegmentLength(path[1..]);
    DotUnfolds(path);
    ScannedName(path[1..]);
    name, rest := path[1..][..n], path[n + 1..];
    assert path[1..n + 1] == name;
  }

  lemma IndexAhead(path: bytes) returns (digits: bytes, rest: bytes)
    requires path != [] && path[0] == OPEN && PathPointer(path).Some?
    ensures Scannable(Index(digits)) && path == Written(Index(digits)) + rest
    ensures PathPointer(rest).Some? && |rest| < |path|
  {
    hide PathPointer, DigitsLength;
    var n := DigitsLength(path[1..]);
    BracketUnfolds(path);
    ScannedDigits(path[1..]);
    digits, rest := path[1..][..n], path[n + 2..];
    assert path[1..n + 1] == digits;
  }

  /** Whatever was scanned was a row of segments. */
  lemma {:induction false} SegmentsOf(path: bytes) returns (segments: seq<Segment>)
    requires PathPointer(path).Some?
    ensures AllScannable(segments) && WrittenPath(segments) == path
    decreases |path|
  {
    if path == [] {
      segments := [];
    } else {
      if path[0] != DOT && path[0] != OPEN { NotABracket(path); }
      hide *;
      var s, rest;
      if path[0] == DOT {
        var name;
        name, rest := FieldAhead(path);
        s := Field(name);
      } else {
        var digits;
        digits, rest := IndexAhead(path);
        s := Index(digits);
      }
      var more := SegmentsOf(rest);
      segments := SegmentAhead(s, more);
    }
  }

  lemma NotABracket(path: bytes)
    requires path != [] && path[0] != DOT && path[0] != OPEN
    ensures PathPointer(path) == None
  {
  }

  lemma SegmentAhead(s: Segment, more: seq<Segment>) returns (all: seq<Segment>)
    requires Scannable(s) && AllScannable(more)
    ensures AllScannable(all) && WrittenPath(all) == Written(s) + WrittenPath(more)
  {
    all := [s] + more;
    assert all[1..] == more;
  }

  lemma {:induction false} ScannedName(s: bytes)
    ensures DOT !in s[..SegmentLength(s)] && OPEN !in s[..SegmentLength(s)]
  {
    if SegmentLength(s) > 0 {
      ScannedName(s[1..]);
      assert s[..SegmentLength(s)] == [s[0]] + s[1..][..SegmentLength(s) - 1];
    }
  }

  lemma {:induction false} ScannedDigits(s: bytes)
    ensures AllDigits(s[..DigitsLength(s)])
  {
    if DigitsLength(s) > 0 {
      ScannedDigits(s[1..]);
      assert s[..DigitsLength(s)] == [s[0]] + s[1..][..DigitsLength(s) - 1];
    }
  }

  /** A key has a pointer if and only if it is the name and then dotted names and bracketed indices; then it is theirs. */
  lemma KeyHasPointerExactly(name: bytes, key: bytes)
    ensures KeyPointer(name, key).Some? <==> exists segments :: AllScannable(segments) && key == name + WrittenPath(segments)
    ensures forall segments :: AllScannable(segments) && key == name + WrittenPath(segments) ==>
      KeyPointer(name, key) == Some(PointerOf(segments))
  {
    hide PathPointer, AllScannable, WrittenPath;
    if KeyPointer(name, key).Some? {
      var segments := SegmentsOf(key[|name|..]);
      assert key == name + WrittenPath(segments);
    }
    forall segments | AllScannable(segments) && key == name + WrittenPath(segments)
      ensures KeyPointer(name, key) == Some(PointerOf(segments))
    {
      assert key[|name|..] == WrittenPath(segments) && key[..|name|] == name;
      PathScanned(segments);
    }
  }

  lemma EmptyPath()
    ensures PathPointer([]) == Some([])
  {
  }

  lemma {:induction false} TokenEnds(token: bytes, rest: bytes)
    requires SLASH !in token && (rest == [] || rest[0] == SLASH)
    ensures TokenLength(token + rest) == |token|
  {
    if token == [] {
      assert token + rest == rest;
    } else {
      assert token[0] in token;
      TokenEnds(token[1..], rest);
      assert (token + rest)[1..] == token[1..] + rest;
    }
  }

  lemma PlainToken(s: Segment)
    requires Plain(s)
    ensures SLASH !in Token(s) && TILDE !in Token(s)
  {
  }

  lemma SplitOne(token: bytes, rest: bytes)
    requires SLASH !in token && (rest == [] || rest[0] == SLASH)
    ensures SplitTokens(token + rest) == [token] + if rest == [] then [] else SplitTokens(rest[1..])
  {
    hide TokenLength;
    TokenEnds(token, rest);
    if rest == [] {
      Unit(token);
      Unit([token]);
    } else {
      assert (token + rest)[..|token|] == token && (token + rest)[|token| + 1..] == rest[1..];
    }
  }

  lemma PointerBegins(segments: seq<Segment>)
    ensures PointerOf(segments) == [] <==> segments == []
    ensures segments != [] ==> PointerOf(segments)[0] == SLASH
    ensures segments != [] ==> PointerOf(segments)[1..] == Token(segments[0]) + PointerOf(segments[1..])
  {
    hide Token;
    if segments != [] { AfterSlash(Token(segments[0]), PointerOf(segments[1..])); }
  }

  lemma AfterSlash(token: bytes, rest: bytes)
    ensures var p := [SLASH] + token + rest; p[0] == SLASH && p[1..] == token + rest
  {
  }

  lemma {:induction false} PointerSplits(segments: seq<Segment>)
    requires segments != [] && AllPlain(segments)
    ensures SplitTokens(PointerOf(segments)[1..]) == TokensOf(segments)
  {
    hide Plain, SplitTokens, PointerOf, Token;
    var more := segments[1..];
    assert segments[0] in segments;
    PlainToken(segments[0]);
    PointerBegins(segments);
    PointerBegins(more);
    SplitOne(Token(segments[0]), PointerOf(more));
    if more != [] { PointerSplits(more); }
  }

  lemma {:induction false} TokensArePlain(segments: seq<Segment>)
    requires AllPlain(segments)
    ensures forall t :: t in TokensOf(segments) ==> TILDE !in t
  {
    hide Plain, Token;
    if segments != [] {
      assert segments[0] in segments;
      PlainToken(segments[0]);
      TokensArePlain(segments[1..]);
    }
  }

  /** A key of plain segments names exactly the node at the end of them. */
  lemma KeyNamesItsSegments(name: bytes, segments: seq<Segment>)
    requires AllPlain(segments)
    ensures Path(name, name + WrittenPath(segments)) == Some(TokensOf(segments))
  {
    hide PathPointer, SplitTokens, UnescapeAll, WrittenPath;
    var key := name + WrittenPath(segments);
    assert key[|name|..] == WrittenPath(segments) && key[..|name|] == name;
    PathScanned(segments);
    if segments != [] {
      PointerSplits(segments);
      TokensArePlain(segments);
      PlainTokens(TokensOf(segments));
    }
  }

  // --- Numbers ---

  const ZERO: byte := 0x30

  function Shown(n: nat): bytes {
    if n < 10 then [ZERO + n as byte] else Shown(n / 10) + [ZERO + (n % 10) as byte]
  }

  function ShownInt(n: int): bytes {
    if n < 0 then [0x2D] + Shown(-n) else Shown(n)
  }

  lemma {:induction false} ShownReads(n: nat)
    ensures var s := Shown(n);
      && s != [] && AllDigits(s) && Decimal(s) == n
      && (s[0] == ZERO ==> n == 0 && |s| == 1)
  {
    var s := Shown(n);
    if n < 10 {
      assert s[..0] == [];
    } else {
      ShownReads(n / 10);
      var front := Shown(n / 10);
      assert s[..|s| - 1] == front && s[0] == front[0];
    }
  }

  lemma NumbersRead(n: int)
    ensures IsI64(n) ==> ParseI64(ShownInt(n)) == Some(n)
    ensures 0 <= n < 0x1_0000_0000_0000_0000 ==> ParseU64(ShownInt(n)) == Some(n) && ParseIndex(ShownInt(n)) == Some(n)
  {
    hide Shown, Decimal;
    var digits := Shown(if n < 0 then -n else n);
    ShownReads(if n < 0 then -n else n);
    assert digits[0] in digits;
    if n < 0 { assert ([MINUS] + digits)[1..] == digits; }
  }
}
