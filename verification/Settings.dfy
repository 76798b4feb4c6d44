/**
  Writing settings into a camera's configuration table and checking that they stuck
  (src/amcrest.rs:22-111, 541-657).
 */
module Settings {
  import opened Wrappers
  import opened Bytes
  import opened Json

  datatype Setting = Setting(key: bytes, value: bytes)

  /** `parse::<f64>`, where it yields a finite number. */
  type RealParser = bytes -> Option<real>

  // --- From keys to pointers ---

  const DOT: byte := 46
  const OPEN: byte := 91
  const CLOSE: byte := 93

  function SegmentLength(s: bytes): (n: nat)
    ensures n <= |s|
  {
    if s == [] || s[0] == DOT || s[0] == OPEN then 0 else 1 + SegmentLength(s[1..])
  }

  function DigitsLength(s: bytes): (n: nat)
    ensures n <= |s|
  {
    if s == [] || !IsDigit(s[0]) then 0 else 1 + DigitsLength(s[1..])
  }

  function Prepend(head: bytes, tail: Option<bytes>): Option<bytes> {
    if tail.None? then None else Some(head + tail.value)
  }

  function PathPointer(path: bytes): Option<bytes>
    decreases |path|
  {
    if path == [] then Some([])
    else if path[0] == DOT then
      var n := SegmentLength(path[1..]);
      if n == 0 then None else Prepend([SLASH] + path[1..n + 1], PathPointer(path[n + 1..]))
    else if path[0] == OPEN then
      var n := DigitsLength(path[1..]);
      if n == 0 || n + 1 >= |path| || path[n + 1] != CLOSE then None
      else Prepend([SLASH] + path[1..n + 1], PathPointer(path[n + 2..]))
    else None
  }

  function KeyPointer(name: bytes, key: bytes): Option<bytes> {
    if name <= key then PathPointer(key[|name|..]) else None
  }

  method ConfigKeyPointer(name: bytes, key: bytes) returns (r: Option<bytes>)
    ensures r == KeyPointer(name, key)
  {
    hide PathPointer, Prepend, SegmentLength, DigitsLength;
    if !(name <= key) { return None; }
    var path := key[|name|..];
    var pointer: bytes := [];
    var position := 0;
    assert path[0..] == path;
    PrependNothing(PathPointer(path));
    while position < |path|
      invariant position <= |path|
      invariant PathPointer(path) == Prepend(pointer, PathPointer(path[position..]))
    {
      if path[position] == DOT {
        DotStep(path, position, pointer);
        position := position + 1;
        var start := position;
        position := EndOfSegment(path, position);
        if start == position { return None; }
        pointer := pointer + [SLASH];
        pointer := pointer + path[start..position];
      } else if path[position] == OPEN {
        BracketStep(path, position, pointer);
        position := position + 1;
        var start := position;
        position := EndOfDigits(path, position);
        if start == position || position == |path| || path[position] != CLOSE { return None; }
        pointer := pointer + [SLASH];
        pointer := pointer + path[start..position];
        position := position + 1;
      } else {
        OtherStep(path, position, pointer);
        return None;
      }
    }
    PrependAll(pointer, path);
    r := Some(pointer);
  }

  lemma PrependNothing(tail: Option<bytes>)
    ensures Prepend([], tail) == tail
  {
    if tail.Some? { Unit(tail.value); }
  }

  lemma PrependAll(pointer: bytes, path: bytes)
    ensures Prepend(pointer, PathPointer(path[|path|..])) == Some(pointer)
  {
    Unit(pointer);
  }

  lemma PrependTwice(a: bytes, b: bytes, tail: Option<bytes>)
    ensures Prepend(a, Prepend(b, tail)) == Prepend(a + b, tail)
  {
    if tail.Some? { Assoc(a, b, tail.value); }
  }

  lemma NothingToPrepend(pointer: bytes)
    ensures Prepend(pointer, None) == None
  {
  }

  lemma DotUnfolds(rest: bytes)
    requires rest != [] && rest[0] == DOT
    ensures var n := SegmentLength(rest[1..]);
      PathPointer(rest) == if n == 0 then None else Prepend([SLASH] + rest[1..n + 1], PathPointer(rest[n + 1..]))
  {
    hide SegmentLength, DigitsLength, Prepend;
  }

  lemma BracketUnfolds(rest: bytes)
    requires rest != [] && rest[0] == OPEN
    ensures var n := DigitsLength(rest[1..]);
      PathPointer(rest) == if n == 0 || n + 1 >= |rest| || rest[n + 1] != CLOSE then None
                           else Prepend([SLASH] + rest[1..n + 1], PathPointer(rest[n + 2..]))
  {
  }

  /** One turn of the loop, at a dot ... */
  lemma DotStep(path: bytes, position: nat, pointer: bytes)
    requires position < |path| && path[position] == DOT
    ensures var start := position + 1;
      var n := SegmentLength(path[start..]);
      Prepend(pointer, PathPointer(path[position..])) ==
      if n == 0 then None
      else Prepend(pointer + [SLASH] + path[start..start + n], PathPointer(path[start + n..]))
  {
    hide SegmentLength, DigitsLength, PathPointer, Prepend;
    var rest, start := path[position..], position + 1;
    Within(path, position, 1, 1);
    DotUnfolds(rest);
    NothingToPrepend(pointer);
    var n := SegmentLength(path[start..]);
    Within(path, position, 1, n + 1);
    PrependTwice(pointer, [SLASH] + path[start..start + n], PathPointer(path[start + n..]));
    Assoc(pointer, [SLASH], path[start..start + n]);
  }

  /** ... and at a bracket. */
  lemma BracketStep(path: bytes, position: nat, pointer: bytes)
    requires position < |path| && path[position] == OPEN
    ensures var start := position + 1;
      var n := DigitsLength(path[start..]);
      Prepend(pointer, PathPointer(path[position..])) ==
      if n == 0 || start + n == |path| || path[start + n] != CLOSE then None
      else Prepend(pointer + [SLASH] + path[start..start + n], PathPointer(path[start + n + 1..]))
  {
    hide SegmentLength, DigitsLength, PathPointer, Prepend;
    var rest, start := path[position..], position + 1;
    Within(path, position, 1, 1);
    BracketUnfolds(rest);
    NothingToPrepend(pointer);
    var n := DigitsLength(path[start..]);
    if n > 0 && start + n < |path| && path[start + n] == CLOSE {
      assert rest[n + 1] == path[start + n];
      Within(path, position, 1, n + 1);
      Within(path, position, 1, n + 2);
      PrependTwice(pointer, [SLASH] + path[start..start + n], PathPointer(path[start + n + 1..]));
      Assoc(pointer, [SLASH], path[start..start + n]);
    }
  }

  lemma OtherStep(path: bytes, position: nat, pointer: bytes)
    requires position < |path| && path[position] != DOT && path[position] != OPEN
    ensures Prepend(pointer, PathPointer(path[position..])) == None
  {
  }

  method EndOfSegment(path: bytes, from: nat) returns (position: nat)
    requires from <= |path|
    ensures position == from + SegmentLength(path[from..]) <= |path|
  {
    position := from;
    while position < |path| && path[position] != DOT && path[position] != OPEN
      invariant from <= position <= |path|
      invariant from + SegmentLength(path[from..]) == position + SegmentLength(path[position..])
    {
      assert path[position..][1..] == path[position + 1..];
      position := position + 1;
    }
  }

  method EndOfDigits(path: bytes, from: nat) returns (position: nat)
    requires from <= |path|
    ensures position == from + DigitsLength(path[from..]) <= |path|
  {
    position := from;
    while position < |path| && IsDigit(path[position])
      invariant from <= position <= |path|
      invariant from + DigitsLength(path[from..]) == position + DigitsLength(path[position..])
    {
      assert path[position..][1..] == path[position + 1..];
      position := position + 1;
    }
  }

  /** The node a key names: the decoded tokens of its pointer. */
  function Path(name: bytes, key: bytes): Option<seq<bytes>> {
    var pointer := KeyPointer(name, key);
    if pointer.None? then None else Tokens(pointer.value)
  }

  // --- Values of the same kind ---

  function ParseBool(s: bytes): Option<bool> {
    if s == Ascii("true") then Some(true) else if s == Ascii("false") then Some(false) else None
  }

  const PLUS: byte := 43
  const MINUS: byte := 45

  function ParseDigits(s: bytes): Option<nat> {
    if s == [] || !AllDigits(s) then None else Some(Decimal(s))
  }

  function ParseI64(s: bytes): Option<whole> {
    if s == [] then None
    else
      var digits := ParseDigits(if s[0] == PLUS || s[0] == MINUS then s[1..] else s);
      if digits.None? then None
      else
        var n: int := if s[0] == MINUS then -(digits.value as int) else digits.value;
        if IsI64(n) then Some(n) else None
  }

  function ParseU64(s: bytes): Option<whole> {
    if s == [] then None
    else
      var digits := ParseDigits(if s[0] == PLUS then s[1..] else s);
      if digits.Some? && digits.value < 0x1_0000_0000_0000_0000 then Some(digits.value) else None
  }

  predicate IsI64(n: int) {
    -0x8000_0000_0000_0000 <= n < 0x8000_0000_0000_0000
  }

  function MapNumber(o: Option<whole>): Option<Value> {
    if o.None? then None else Some(Num(Whole(o.value)))
  }

  /** The desired text as a value of the current one's kind. */
  function ValueLike(real_: RealParser, current: Value, desired: bytes): Option<Value> {
    match current
    case Bool(_) =>
      var b := ParseBool(desired);
      if b.None? then None else Some(Bool(b.value))
    case Num(Whole(n)) => if IsI64(n) then MapNumber(ParseI64(desired)) else MapNumber(ParseU64(desired))
    case Num(Float(_)) =>
      var r := real_(desired);
      if r.None? then None else Some(Num(Float(r.value)))
    case Str(_) => Some(Str(desired))
    case _ => None
  }

  /** Same JSON type, floats apart from integers. */
  predicate SameKind(a: Value, b: Value) {
    match a
    case Null => b.Null?
    case Bool(_) => b.Bool?
    case Num(n) => b.Num? && (n.Whole? <==> b.number.Whole?)
    case Str(_) => b.Str?
    case Arr(_) => SameShape(a, b)
    case Obj(_) => SameShape(a, b)
  }

  lemma ValueLikeKeepsKind(real_: RealParser, current: Value, desired: bytes)
    requires ValueLike(real_, current, desired).Some?
    ensures IsScalar(current) && SameKind(current, ValueLike(real_, current, desired).value)
  {
  }

  /** Once the value is there, asking again asks for the same; even where a large unsigned number has become
      a small one. */
  lemma ValueLikeSettles(real_: RealParser, current: Value, desired: bytes)
    requires ValueLike(real_, current, desired).Some?
    ensures var v := ValueLike(real_, current, desired).value;
      ValueLike(real_, v, desired) == Some(v)
  {
    if current.Num? && current.number.Whole? && !IsI64(current.number.n) { ParsersAgree(desired); }
  }

  lemma ParsersAgree(s: bytes)
    ensures ParseU64(s).Some? && IsI64(ParseU64(s).value) ==> ParseI64(s) == ParseU64(s)
  {
    assert s != [] ==> s[0] in s;
  }

  // --- Settings and tables ---

  /** What the setting would put at its node, if it has one that can take it. */
  function Wanted(real_: RealParser, name: bytes, table: Value, s: Setting): Option<Value> {
    var path := Path(name, s.key);
    if path.None? || Lookup(table, path.value).None? then None
    else ValueLike(real_, Lookup(table, path.value).value, s.value)
  }

  predicate IsUnapplied(real_: RealParser, name: bytes, table: Value, s: Setting) {
    Wanted(real_, name, table, s).Some?
    && Lookup(table, Path(name, s.key).value).value != Wanted(real_, name, table, s).value
  }

  function UnappliedKeys(real_: RealParser, name: bytes, table: Value, desired: seq<Setting>): seq<bytes> {
    if desired == [] then []
    else (if IsUnapplied(real_, name, table, desired[0]) then [desired[0].key] else [])
         + UnappliedKeys(real_, name, table, desired[1..])
  }

  function ApplyOne(real_: RealParser, name: bytes, table: Value, s: Setting): Value {
    if IsUnapplied(real_, name, table, s)
    then Replace(table, Path(name, s.key).value, Wanted(real_, name, table, s).value)
    else table
  }

  function Applied(real_: RealParser, name: bytes, table: Value, desired: seq<Setting>): Value
    decreases |desired|
  {
    if desired == [] then table
    else Applied(real_, name, ApplyOne(real_, name, table, desired[0]), desired[1..])
  }

  function Updates(real_: RealParser, name: bytes, table: Value, desired: seq<Setting>): nat
    decreases |desired|
  {
    if desired == [] then 0
    else (if IsUnapplied(real_, name, table, desired[0]) then 1 else 0)
         + Updates(real_, name, ApplyOne(real_, name, table, desired[0]), desired[1..])
  }

  method ApplyRpcSettings(real_: RealParser, name: bytes, table: Value, desired: seq<Setting>)
    returns (applied: Value, updates: nat)
    ensures applied == Applied(real_, name, table, desired) && updates == Updates(real_, name, table, desired)
  {
    hide ValueLike, Lookup, Replace, Tokens, KeyPointer;
    applied, updates := table, 0;
    var i := 0;
    assert desired[0..] == desired;
    while i < |desired|
      invariant i <= |desired|
      invariant Applied(real_, name, table, desired) == Applied(real_, name, applied, desired[i..])
      invariant Updates(real_, name, table, desired) == updates + Updates(real_, name, applied, desired[i..])
    {
      assert desired[i..][1..] == desired[i + 1..];
      var s := desired[i];
      i := i + 1;
      var pointer := ConfigKeyPointer(name, s.key);
      if pointer.None? { continue; }
      var tokens := Tokens(pointer.value);
      if tokens.None? { continue; }
      var current := Lookup(applied, tokens.value);
      if current.None? { continue; }
      var value := ValueLike(real_, current.value, s.value);
      if value.None? { continue; }
      if current.value != value.value {
        applied := Replace(applied, tokens.value, value.value);
        updates := updates + 1;
      }
    }
  }
}
