/**
  What ends up in a camera's table (src/amcrest.rs:60-111): the texts that the settings' values are written in, what each
  is read as, and what a table holds where a setting has been applied.
 */
module SettingsValues {
  import opened Wrappers
  import opened Bytes
  import opened Json
  import opened Settings
  import opened SettingsKeys
  import opened SettingsProperties

  // --- Texts ---

  const TRUE: bytes := [0x74, 0x72, 0x75, 0x65]
  const FALSE: bytes := [0x66, 0x61, 0x6C, 0x73, 0x65]

  lemma BoolsRead(s: bytes)
    ensures s == TRUE ==> ParseBool(s) == Some(true)
    ensures s == FALSE ==> ParseBool(s) == Some(false)
    ensures s != TRUE && s != FALSE ==> ParseBool(s) == None
  {
    assert Ascii("true") == TRUE && Ascii("false") == FALSE;
  }

  function Zeros(k: nat): bytes {
    if k == 0 then [] else [ZERO] + Zeros(k - 1)
  }

  lemma {:induction false} LeadingZeros(k: nat, digits: bytes)
    requires AllDigits(digits)
    ensures AllDigits(Zeros(k) + digits) && Decimal(Zeros(k) + digits) == Decimal(digits)
  {
    hide Decimal;
    if k == 0 {
      Unit(digits);
    } else {
      LeadingZeros(k - 1, digits);
      assert Zeros(k) + digits == [ZERO] + (Zeros(k - 1) + digits);
      OneZero(Zeros(k - 1) + digits);
    }
  }

  lemma {:induction false} OneZero(digits: bytes)
    requires AllDigits(digits)
    ensures AllDigits([ZERO] + digits) && Decimal([ZERO] + digits) == Decimal(digits)
  {
    var s := [ZERO] + digits;
    if digits == [] {
      assert s == [ZERO] && s[..0] == [];
    } else {
      var n := |digits| - 1;
      assert digits[n] in digits;
      OneZero(digits[..n]);
      assert s[..n + 1] == [ZERO] + digits[..n] && s[n + 1] == digits[n];
    }
  }

  /** Whole numbers with a sign and leading zeros or without, but only those of the range. */
  lemma WholesRead(n: nat, k: nat)
    ensures var text := Zeros(k) + Shown(n);
      && ParseI64(text) == ParseI64([0x2B] + text) == (if n < 0x8000_0000_0000_0000 then Some(n) else None)
      && ParseI64([0x2D] + text) == (if n <= 0x8000_0000_0000_0000 then Some(-(n as int)) else None)
      && ParseU64(text) == ParseU64([0x2B] + text) == (if n < 0x1_0000_0000_0000_0000 then Some(n) else None)
      && ParseU64([0x2D] + text) == None
  {
    hide Shown, Decimal, Zeros;
    ShownReads(n);
    LeadingZeros(k, Shown(n));
    var text := Zeros(k) + Shown(n);
    assert text != [] && text[0] in text;
    assert ([PLUS] + text)[1..] == text && ([MINUS] + text)[1..] == text;
    assert ([MINUS] + text)[0] in [MINUS] + text;
  }

  /** An index is written without a sign and without leading zeros. */
  lemma IndicesRead(n: nat, k: nat)
    ensures var text := Zeros(k) + Shown(n);
      && ParseIndex(text) == (if k == 0 && n < 0x1_0000_0000_0000_0000 then Some(n) else None)
      && ParseIndex([0x2B] + text) == ParseIndex([0x2D] + text) == None
  {
    hide Shown, Decimal, Zeros;
    ShownReads(n);
    LeadingZeros(k, Shown(n));
    ZerosLead(k, Shown(n));
    var text := Zeros(k) + Shown(n);
    assert ([PLUS] + text)[0] in [PLUS] + text && ([MINUS] + text)[0] in [MINUS] + text;
  }

  lemma ZerosLead(k: nat, s: bytes)
    requires s != []
    ensures k == 0 ==> Zeros(k) + s == s
    ensures k > 0 ==> (Zeros(k) + s)[0] == 0x30 && |Zeros(k) + s| > 1
  {
    if k == 0 { Unit(s); }
  }

  /** Nothing else is a whole number. */
  lemma OthersAreNotWhole(s: bytes)
    requires var digits := if s != [] && s[0] in [0x2B, 0x2D] then s[1..] else s;
      digits == [] || !AllDigits(digits)
    ensures ParseI64(s) == None && ParseU64(s) == None
  {
    if s != [] && s[0] == MINUS { assert s[0] in s; }
  }

  // --- A value for a node ---

  /** What a text is as a value for a node that holds v; none if it cannot be. */
  lemma ValuesOfKind(real_: RealParser, v: Value, s: bytes, n: int)
    ensures v.Bool? ==> ValueLike(real_, v, s) == (if s == TRUE then Some(Bool(true)) else if s == FALSE then Some(Bool(false)) else None)
    ensures v.Str? ==> ValueLike(real_, v, s) == Some(Str(s))
    ensures v.Num? && v.number.Whole? && s == ShownInt(n) ==>
      ValueLike(real_, v, s) == (if (if v.number.n < 0x8000_0000_0000_0000 then IsI64(n) else 0 <= n < 0x1_0000_0000_0000_0000)
                                 then Some(Num(Whole(n))) else None)
    ensures v.Num? && v.number.Float? ==>
      ValueLike(real_, v, s) == (if real_(s).Some? then Some(Num(Float(real_(s).value))) else None)
    ensures v.Null? || v.Arr? || v.Obj? ==> ValueLike(real_, v, s) == None
  {
    BoolsRead(s);
    hide ParseBool, ParseI64, ParseU64;
    if s == ShownInt(n) {
      WholesRead(if n < 0 then -n else n, 0);
      Unit(Shown(if n < 0 then -n else n));
    }
  }

  // --- The table afterwards ---

  lemma ApplyOneHere(real_: RealParser, name: bytes, table: Value, s: Setting, p: seq<bytes>)
    requires Path(name, s.key) == Some(p) && Lookup(table, p).Some?
    ensures var v := Lookup(table, p).value;
      var after := Lookup(ApplyOne(real_, name, table, s), p);
      after == if ValueLike(real_, v, s.value).Some? then ValueLike(real_, v, s.value) else Some(v)
  {
    hide Path, Lookup, Replace, ValueLike;
    if IsUnapplied(real_, name, table, s) {
      ValueLikeKeepsKind(real_, Lookup(table, p).value, s.value);
      ReplaceElsewhere(table, p, Wanted(real_, name, table, s).value, p);
    }
  }

  lemma AlikeScalars(a: Option<Value>, b: Option<Value>)
    requires Alike(a, b) && a.Some? && IsScalar(a.value)
    ensures a == b
  {
  }

  lemma ScalarOrNothing(real_: RealParser, v: Value, w: Value, s: bytes)
    requires Alike(Some(v), Some(w))
    ensures ValueLike(real_, v, s) == ValueLike(real_, w, s)
    ensures ValueLike(real_, v, s).Some? ==> IsScalar(ValueLike(real_, v, s).value)
  {
  }

  /** What a setting's node holds in the end, from what it held at first. */
  lemma {:induction false} AppliedAt(real_: RealParser, name: bytes, table: Value, desired: seq<Setting>, i: nat, p: seq<bytes>)
    requires DistinctNodes(name, Keys(desired)) && i < |desired|
    requires Path(name, desired[i].key) == Some(p) && Lookup(table, p).Some?
    ensures var v, after := Lookup(table, p).value, Lookup(Applied(real_, name, table, desired), p);
      var value := ValueLike(real_, v, desired[i].value);
      if value.Some? then after == value else Alike(Some(v), after)
    decreases |desired|
  {
    hide ApplyOne, Path, Lookup, Alike, Names, DistinctNodes, ValueLike;
    var s, others := desired[0], desired[1..];
    var next := ApplyOne(real_, name, table, s);
    var v := Lookup(table, p).value;
    DistinctRest(name, desired);
    if i == 0 {
      ApplyOneHere(real_, name, table, s, p);
      AppliedElsewhere(real_, name, next, others, p);
      AlikeItself(Some(v));
      ScalarOrNothing(real_, v, v, s.value);
      if ValueLike(real_, v, s.value).Some? {
        AlikeScalars(Lookup(next, p), Lookup(Applied(real_, name, next, others), p));
      }
    } else {
      NamedLater(name, desired, i, p);
      ApplyOneElsewhere(real_, name, table, s, p);
      AlikeIsThere(Lookup(table, p), Lookup(next, p));
      AppliedAt(real_, name, next, others, i - 1, p);
      ScalarOrNothing(real_, v, Lookup(next, p).value, desired[i].value);
      var after := Lookup(Applied(real_, name, next, others), p);
      if ValueLike(real_, v, desired[i].value).None? { AlikeTransitive(Some(v), Lookup(next, p), after); }
    }
  }

  lemma AlikeIsThere(a: Option<Value>, b: Option<Value>)
    requires Alike(a, b)
    ensures a.Some? <==> b.Some?
  {
  }

  lemma NamedLater(name: bytes, desired: seq<Setting>, i: nat, p: seq<bytes>)
    requires DistinctNodes(name, Keys(desired)) && 0 < i < |desired| && Path(name, desired[i].key) == Some(p)
    ensures Path(name, desired[0].key) != Some(p)
  {
    hide Path;
    var keys := Keys(desired);
    assert Path(name, keys[0]).Some? ==> Path(name, keys[0]) != Path(name, keys[i]);
  }

  /**
    With distinct nodes, after applying: where a setting names a Bool, there is the Bool it is written as; where a
    string, its text; where a whole number or a float, that number, if it is one of the range; and where it is none of
    these the node is as it was.
   */
  lemma AppliedHolds(real_: RealParser, name: bytes, table: Value, desired: seq<Setting>, i: nat, p: seq<bytes>, n: int)
    requires DistinctNodes(name, Keys(desired)) && i < |desired|
    requires Path(name, desired[i].key) == Some(p) && Lookup(table, p).Some?
    ensures var v, after := Lookup(table, p).value, Lookup(Applied(real_, name, table, desired), p);
      var text := desired[i].value;
      && (v.Bool? && text == TRUE ==> after == Some(Bool(true)))
      && (v.Bool? && text == FALSE ==> after == Some(Bool(false)))
      && (v.Bool? && text != TRUE && text != FALSE ==> after == Some(v))
      && (v.Str? ==> after == Some(Str(text)))
      && (v.Num? && v.number.Whole? && text == ShownInt(n) ==>
            after == if (if v.number.n < 0x8000_0000_0000_0000 then IsI64(n) else 0 <= n < 0x1_0000_0000_0000_0000)
                     then Some(Num(Whole(n))) else Some(v))
      && (v.Num? && v.number.Float? ==> after == Some(if real_(text).Some? then Num(Float(real_(text).value)) else v))
      && (v.Null? || v.Arr? || v.Obj? ==> Alike(Some(v), after))
  {
    hide Path, Lookup, Applied, ValueLike, ShownInt, IsI64;
    AppliedAt(real_, name, table, desired, i, p);
    ValuesOfKind(real_, Lookup(table, p).value, desired[i].value, n);
  }

  // --- Pointers with escapes ---

  /** How a token is written in a pointer (section 3 of RFC 6901). */
  function Escape(token: bytes): bytes {
    if token == [] then []
    else (if token[0] == 0x7E then [0x7E, 0x30] else if token[0] == 0x2F then [0x7E, 0x31] else [token[0]]) + Escape(token[1..])
  }

  /** After the first replacement only tildes are escaped. */
  function EscapeTildes(token: bytes): bytes {
    if token == [] then [] else (if token[0] == TILDE then [TILDE, 0x30] else [token[0]]) + EscapeTildes(token[1..])
  }

  lemma ReplaceOne(a: byte, s: bytes, digit: byte, with_: byte)
    requires a != TILDE
    ensures ReplaceEscape([a] + s, digit, with_) == [a] + ReplaceEscape(s, digit, with_)
  {
    assert ([a] + s)[1..] == s;
  }

  lemma ReplaceTwo(a: byte, s: bytes, digit: byte, with_: byte)
    requires a != TILDE
    ensures ReplaceEscape([TILDE, a] + s, digit, with_)
         == if a == digit then [with_] + ReplaceEscape(s, digit, with_) else [TILDE, a] + ReplaceEscape(s, digit, with_)
  {
    var t := [TILDE, a] + s;
    assert t[2..] == s && t[1..] == [a] + s;
    ReplaceOne(a, s, digit, with_);
    if a != digit { assert [TILDE] + ([a] + ReplaceEscape(s, digit, with_)) == [TILDE, a] + ReplaceEscape(s, digit, with_); }
  }

  lemma {:induction false} SlashesBack(token: bytes)
    ensures ReplaceEscape(Escape(token), 0x31, SLASH) == EscapeTildes(token)
  {
    hide ReplaceEscape;
    if token == [] {
      NothingEscaped();
    } else {
      SlashesBack(token[1..]);
      if token[0] == TILDE {
        ReplaceTwo(0x30, Escape(token[1..]), 0x31, SLASH);
      } else if token[0] == SLASH {
        ReplaceTwo(0x31, Escape(token[1..]), 0x31, SLASH);
      } else {
        ReplaceOne(token[0], Escape(token[1..]), 0x31, SLASH);
      }
    }
  }

  lemma NothingEscaped()
    ensures ReplaceEscape([], 0x31, SLASH) == [] && ReplaceEscape([], 0x30, TILDE) == []
  {
  }

  lemma {:induction false} TildesBack(token: bytes)
    ensures ReplaceEscape(EscapeTildes(token), 0x30, TILDE) == token
  {
    hide ReplaceEscape;
    if token == [] {
      NothingEscaped();
    } else {
      TildesBack(token[1..]);
      assert token == [token[0]] + token[1..];
      if token[0] == TILDE {
        ReplaceTwo(0x30, EscapeTildes(token[1..]), 0x30, TILDE);
      } else {
        ReplaceOne(token[0], EscapeTildes(token[1..]), 0x30, TILDE);
      }
    }
  }

  /** Every token can be written, and is read back. */
  lemma EscapeReadsBack(token: bytes)
    ensures Unescape(Escape(token)) == token && SLASH !in Escape(token)
  {
    SlashesBack(token);
    TildesBack(token);
    NoSlash(token);
  }

  lemma {:induction false} NoSlash(token: bytes)
    ensures SLASH !in Escape(token)
  {
    if token != [] { NoSlash(token[1..]); }
  }
}
