/**
  JSON values and the pointers into them that serde_json evaluates (section 4 of RFC 6901).
 */
module Json {
  import opened Wrappers
  import opened Bytes

  /** An integer that fits i64 or u64, or a float. */
  type whole = x: int | -0x8000_0000_0000_0000 <= x < 0x1_0000_0000_0000_0000

  datatype Number = Whole(n: whole) | Float(r: real)

  datatype Value =
    | Null
    | Bool(b: bool)
    | Num(number: Number)
    | Str(s: bytes)
    | Arr(items: seq<Value>)
    | Obj(fields: map<bytes, Value>)

  predicate IsScalar(v: Value) {
    v.Bool? || v.Num? || v.Str?
  }

  // --- Decimal digits ---

  predicate IsDigit(b: byte) {
    '0' as byte <= b <= '9' as byte
  }

  predicate AllDigits(s: bytes) {
    forall b :: b in s ==> IsDigit(b)
  }

  function Decimal(s: bytes): nat
    requires AllDigits(s)
  {
    if s == [] then 0
    else
      assert s[|s| - 1] in s;
      10 * Decimal(s[..|s| - 1]) + (s[|s| - 1] as int - '0' as int)
  }

  /** An array index: digits without a leading zero. */
  function ParseIndex(s: bytes): Option<nat> {
    if s == [] || !AllDigits(s) || (s[0] == '0' as byte && |s| != 1) || Decimal(s) >= 0x1_0000_0000_0000_0000 then None
    else Some(Decimal(s))
  }

  lemma {:induction false} DecimalIsPositive(s: bytes)
    requires s != [] && AllDigits(s) && s[0] != '0' as byte
    ensures Decimal(s) > 0
  {
    assert s[0] in s;
    if |s| > 1 {
      assert s[|s| - 1] in s;
      assert s[..|s| - 1][0] == s[0];
      DecimalIsPositive(s[..|s| - 1]);
    }
  }

  lemma {:induction false} DecimalInjective(a: bytes, b: bytes)
    requires AllDigits(a) && AllDigits(b) && |a| >= |b| > 0
    requires (a[0] != '0' as byte || |a| == 1) && (b[0] != '0' as byte || |b| == 1)
    requires Decimal(a) == Decimal(b)
    ensures a == b
    decreases |b|
  {
    var m, n := |a| - 1, |b| - 1;
    assert a[m] in a && b[n] in b;
    LastDigit(10 * Decimal(a[..m]), a[m] as int - '0' as int, 10 * Decimal(b[..n]), b[n] as int - '0' as int);
    if n > 0 {
      DecimalInjective(a[..m], b[..n]);
    } else if m > 0 {
      DecimalIsPositive(a[..m]);
    }
    assert a == a[..m] + [a[m]] && b == b[..n] + [b[n]];
  }

  lemma LastDigit(p: int, d: int, q: int, e: int)
    requires p % 10 == 0 && q % 10 == 0 && 0 <= d < 10 && 0 <= e < 10 && p + d == q + e
    ensures p == q && d == e
  {
  }

  /** Different tokens never name the same element. */
  lemma IndexInjective(a: bytes, b: bytes)
    requires ParseIndex(a).Some? && ParseIndex(a) == ParseIndex(b)
    ensures a == b
  {
    if |a| >= |b| { DecimalInjective(a, b); } else { DecimalInjective(b, a); }
  }

  // --- Pointers ---

  const SLASH: byte := 47
  const TILDE: byte := 126

  /** `replace`: every tilde followed by `digit`, from the left. */
  function ReplaceEscape(s: bytes, digit: byte, with_: byte): bytes {
    if s == [] then []
    else if |s| >= 2 && s[0] == TILDE && s[1] == digit then [with_] + ReplaceEscape(s[2..], digit, with_)
    else [s[0]] + ReplaceEscape(s[1..], digit, with_)
  }

  function Unescape(token: bytes): bytes {
    ReplaceEscape(ReplaceEscape(token, '1' as byte, SLASH), '0' as byte, TILDE)
  }

  /** The bytes before the first slash. */
  function TokenLength(s: bytes): (n: nat)
    ensures n <= |s| && (n < |s| ==> s[n] == SLASH)
    ensures SLASH !in s[..n]
  {
    if s == [] || s[0] == SLASH then 0
    else
      var n := TokenLength(s[1..]);
      assert s[..n + 1] == [s[0]] + s[1..][..n];
      n + 1
  }

  /** The tokens of what follows the first slash. */
  function SplitTokens(s: bytes): seq<bytes>
    decreases |s|
  {
    var n := TokenLength(s);
    if n == |s| then [s] else [s[..n]] + SplitTokens(s[n + 1..])
  }

  function UnescapeAll(tokens: seq<bytes>): seq<bytes> {
    if tokens == [] then [] else [Unescape(tokens[0])] + UnescapeAll(tokens[1..])
  }

  function Tokens(pointer: bytes): Option<seq<bytes>> {
    if pointer == [] then Some([])
    else if pointer[0] != SLASH then None
    else Some(UnescapeAll(SplitTokens(pointer[1..])))
  }

  function Lookup(v: Value, tokens: seq<bytes>): Option<Value>
    decreases |tokens|
  {
    if tokens == [] then Some(v)
    else if v.Obj? then
      if tokens[0] in v.fields then Lookup(v.fields[tokens[0]], tokens[1..]) else None
    else if v.Arr? then
      var i := ParseIndex(tokens[0]);
      if i.Some? && i.value < |v.items| then Lookup(v.items[i.value], tokens[1..]) else None
    else None
  }

  /** Assigning through the pointer. */
  function Replace(v: Value, tokens: seq<bytes>, next: Value): Value
    requires Lookup(v, tokens).Some?
    decreases |tokens|
  {
    if tokens == [] then next
    else if v.Obj? then Obj(v.fields[tokens[0] := Replace(v.fields[tokens[0]], tokens[1..], next)])
    else
      var i := ParseIndex(tokens[0]).value;
      Arr(v.items[i := Replace(v.items[i], tokens[1..], next)])
  }

  /** Equal, or containers of the same shape. */
  predicate Alike(a: Option<Value>, b: Option<Value>) {
    a == b || (a.Some? && b.Some? && SameShape(a.value, b.value))
  }

  predicate SameShape(a: Value, b: Value) {
    (a.Obj? && b.Obj? && a.fields.Keys == b.fields.Keys) || (a.Arr? && b.Arr? && |a.items| == |b.items|)
  }

  /** Replacing a scalar by a scalar changes that node, and only the contents of the containers around it. */
  lemma {:induction false} ReplaceElsewhere(v: Value, p: seq<bytes>, next: Value, q: seq<bytes>)
    requires Lookup(v, p).Some? && IsScalar(Lookup(v, p).value) && IsScalar(next)
    ensures Lookup(Replace(v, p, next), p) == Some(next)
    ensures p != q ==> Alike(Lookup(v, q), Lookup(Replace(v, p, next), q))
    decreases |p|
  {
    if p != [] {
      var r := Replace(v, p, next);
      if q != [] && p[0] == q[0] {
        assert p == [p[0]] + p[1..] && q == [q[0]] + q[1..];
      }
      if v.Obj? {
        ReplaceElsewhere(v.fields[p[0]], p[1..], next, if q == [] then [] else q[1..]);
      } else {
        var i := ParseIndex(p[0]).value;
        ReplaceElsewhere(v.items[i], p[1..], next, if q == [] then [] else q[1..]);
        if q != [] && ParseIndex(q[0]) == Some(i) { IndexInjective(p[0], q[0]); }
      }
    }
  }

  // --- When pointers and token lists correspond ---

  lemma {:induction false} NothingToReplace(s: bytes, digit: byte, with_: byte)
    requires TILDE !in s
    ensures ReplaceEscape(s, digit, with_) == s
  {
    if s != [] {
      assert s[0] in s;
      NothingToReplace(s[1..], digit, with_);
      assert s == [s[0]] + s[1..];
    }
  }

  /** Without escapes the tokens are the pointer's own bytes. */
  lemma {:induction false} PlainTokens(tokens: seq<bytes>)
    requires forall t :: t in tokens ==> TILDE !in t
    ensures UnescapeAll(tokens) == tokens
  {
    if tokens != [] {
      assert tokens[0] in tokens;
      NothingToReplace(tokens[0], '1' as byte, SLASH);
      NothingToReplace(tokens[0], '0' as byte, TILDE);
      PlainTokens(tokens[1..]);
      assert tokens == [tokens[0]] + tokens[1..];
    }
  }

  /** The inverse of splitting. */
  function JoinTokens(tokens: seq<bytes>): bytes
    requires tokens != []
  {
    if |tokens| == 1 then tokens[0] else tokens[0] + [SLASH] + JoinTokens(tokens[1..])
  }

  lemma JoinOne(token: bytes)
    ensures JoinTokens([token]) == token
  {
  }

  lemma JoinMore(token: bytes, more: seq<bytes>)
    requires more != []
    ensures JoinTokens([token] + more) == token + [SLASH] + JoinTokens(more)
  {
    assert ([token] + more)[1..] == more;
  }

  lemma SplitStep(s: bytes)
    ensures var n := TokenLength(s);
      SplitTokens(s) == if n == |s| then [s] else [s[..n]] + SplitTokens(s[n + 1..])
  {
    hide TokenLength;
  }

  lemma {:induction false} SplitJoins(s: bytes)
    ensures SplitTokens(s) != [] && JoinTokens(SplitTokens(s)) == s
    decreases |s|
  {
    hide TokenLength, SplitTokens, JoinTokens;
    var n := TokenLength(s);
    SplitStep(s);
    if n < |s| {
      SplitJoins(s[n + 1..]);
      JoinMore(s[..n], SplitTokens(s[n + 1..]));
      assert s == s[..n] + [SLASH] + s[n + 1..];
    } else {
      JoinOne(s);
    }
  }

  lemma {:induction false} SplitKeepsOut(s: bytes, b: byte)
    requires b !in s
    ensures forall t :: t in SplitTokens(s) ==> b !in t
    decreases |s|
  {
    var n := TokenLength(s);
    if n < |s| {
      SplitKeepsOut(s[n + 1..], b);
      assert b !in s[..n];
    }
  }

  /** Different pointers without a tilde have different tokens. */
  lemma TokensInjective(p: bytes, q: bytes)
    requires TILDE !in p && TILDE !in q
    requires Tokens(p).Some? && Tokens(p) == Tokens(q)
    ensures p == q
  {
    hide SplitTokens, UnescapeAll, JoinTokens;
    if p != [] {
      SplitJoins(p[1..]);
      SplitKeepsOut(p[1..], TILDE);
      PlainTokens(SplitTokens(p[1..]));
      assert p == [SLASH] + p[1..];
    }
    if q != [] {
      SplitJoins(q[1..]);
      SplitKeepsOut(q[1..], TILDE);
      PlainTokens(SplitTokens(q[1..]));
      assert q == [SLASH] + q[1..];
    }
  }
}
