/**
  What applying settings achieves, and when (src/amcrest.rs:81-111): exactly if no two keys name the same node.
 */
module SettingsProperties {
  import opened Wrappers
  import opened Bytes
  import opened Json
  import opened Settings

  // --- One setting ---

  lemma ApplyOneElsewhere(real_: RealParser, name: bytes, table: Value, s: Setting, q: seq<bytes>)
    requires Path(name, s.key) != Some(q)
    ensures Alike(Lookup(table, q), Lookup(ApplyOne(real_, name, table, s), q))
  {
    hide Path, Lookup, Replace, ValueLike, Alike;
    AlikeItself(Lookup(table, q));
    if IsUnapplied(real_, name, table, s) {
      var p := Path(name, s.key).value;
      ValueLikeKeepsKind(real_, Lookup(table, p).value, s.value);
      ReplaceElsewhere(table, p, Wanted(real_, name, table, s).value, q);
    }
  }

  lemma AlikeItself(a: Option<Value>)
    ensures Alike(a, a)
  {
  }

  lemma AlikeTransitive(a: Option<Value>, b: Option<Value>, c: Option<Value>)
    requires Alike(a, b) && Alike(b, c)
    ensures Alike(a, c)
  {
  }

  /** A setting elsewhere neither gains nor loses anything. */
  lemma AlikeWantsTheSame(real_: RealParser, name: bytes, t: Value, u: Value, s: Setting)
    requires Path(name, s.key).Some? ==> Alike(Lookup(t, Path(name, s.key).value), Lookup(u, Path(name, s.key).value))
    ensures IsUnapplied(real_, name, t, s) <==> IsUnapplied(real_, name, u, s)
  {
    hide Path, Lookup;
  }

  lemma ApplyOneSettles(real_: RealParser, name: bytes, table: Value, s: Setting)
    ensures !IsUnapplied(real_, name, ApplyOne(real_, name, table, s), s)
  {
    hide Path, Lookup, Replace, ValueLike;
    if IsUnapplied(real_, name, table, s) {
      var p := Path(name, s.key).value;
      ValueLikeKeepsKind(real_, Lookup(table, p).value, s.value);
      ValueLikeSettles(real_, Lookup(table, p).value, s.value);
      ReplaceElsewhere(table, p, Wanted(real_, name, table, s).value, p);
    }
  }

  // --- Kinds never change ---

  ghost predicate SameKindAt(t: Value, u: Value, q: seq<bytes>) {
    (Lookup(t, q).Some? <==> Lookup(u, q).Some?)
    && (Lookup(t, q).Some? ==> SameKind(Lookup(t, q).value, Lookup(u, q).value))
  }

  lemma AlikeIsSameKind(t: Value, u: Value, q: seq<bytes>)
    requires Alike(Lookup(t, q), Lookup(u, q))
    ensures SameKindAt(t, u, q)
  {
    hide Lookup;
  }

  lemma SameKindTransitive(t: Value, u: Value, v: Value, q: seq<bytes>)
    requires SameKindAt(t, u, q) && SameKindAt(u, v, q)
    ensures SameKindAt(t, v, q)
  {
    hide Lookup;
  }

  lemma ApplyOneKeepsKind(real_: RealParser, name: bytes, table: Value, s: Setting, q: seq<bytes>)
    ensures SameKindAt(table, ApplyOne(real_, name, table, s), q)
  {
    hide Path, Lookup, Replace, ValueLike;
    if Path(name, s.key) != Some(q) {
      ApplyOneElsewhere(real_, name, table, s, q);
      AlikeIsSameKind(table, ApplyOne(real_, name, table, s), q);
    } else if IsUnapplied(real_, name, table, s) {
      ValueLikeKeepsKind(real_, Lookup(table, q).value, s.value);
      ReplaceElsewhere(table, q, Wanted(real_, name, table, s).value, q);
    } else {
      AlikeItself(Lookup(table, q));
      AlikeIsSameKind(table, table, q);
    }
  }

  /** Whatever the settings, no node appears, vanishes or changes its kind. */
  lemma {:induction false} AppliedKeepsKinds(real_: RealParser, name: bytes, table: Value, desired: seq<Setting>, q: seq<bytes>)
    ensures SameKindAt(table, Applied(real_, name, table, desired), q)
    decreases |desired|
  {
    hide ApplyOne, SameKindAt;
    if desired == [] {
      AlikeItself(Lookup(table, q));
      AlikeIsSameKind(table, table, q);
    } else {
      var next := ApplyOne(real_, name, table, desired[0]);
      ApplyOneKeepsKind(real_, name, table, desired[0], q);
      AppliedKeepsKinds(real_, name, next, desired[1..], q);
      SameKindTransitive(table, next, Applied(real_, name, next, desired[1..]), q);
    }
  }

  // --- Nodes nobody names ---

  ghost predicate Names(name: bytes, desired: seq<Setting>, q: seq<bytes>) {
    exists s :: s in desired && Path(name, s.key) == Some(q)
  }

  lemma NamesRest(name: bytes, desired: seq<Setting>, q: seq<bytes>)
    requires desired != [] && !Names(name, desired, q)
    ensures Path(name, desired[0].key) != Some(q) && !Names(name, desired[1..], q)
  {
    hide Path;
    assert desired[0] in desired;
  }

  /** They stay as they are, but for what the containers among them contain. */
  lemma {:induction false} AppliedElsewhere(real_: RealParser, name: bytes, table: Value, desired: seq<Setting>, q: seq<bytes>)
    requires !Names(name, desired, q)
    ensures Alike(Lookup(table, q), Lookup(Applied(real_, name, table, desired), q))
    decreases |desired|
  {
    hide ApplyOne, Alike, Names, Path, Lookup;
    if desired == [] {
      AlikeItself(Lookup(table, q));
    } else {
      var next := ApplyOne(real_, name, table, desired[0]);
      NamesRest(name, desired, q);
      ApplyOneElsewhere(real_, name, table, desired[0], q);
      AppliedElsewhere(real_, name, next, desired[1..], q);
      AlikeTransitive(Lookup(table, q), Lookup(next, q), Lookup(Applied(real_, name, next, desired[1..]), q));
    }
  }

  // --- All settings together ---

  /** No two of the keys that name a node name the same one. */
  ghost predicate DistinctNodes(name: bytes, keys: seq<bytes>) {
    forall i, j :: 0 <= i < j < |keys| && Path(name, keys[i]).Some? ==> Path(name, keys[i]) != Path(name, keys[j])
  }

  function Keys(desired: seq<Setting>): (r: seq<bytes>)
    ensures |r| == |desired| && forall i :: 0 <= i < |r| ==> r[i] == desired[i].key
  {
    seq(|desired|, i requires 0 <= i < |desired| => desired[i].key)
  }

  lemma DistinctRest(name: bytes, desired: seq<Setting>)
    requires desired != [] && DistinctNodes(name, Keys(desired))
    ensures DistinctNodes(name, Keys(desired[1..]))
    ensures Path(name, desired[0].key).Some? ==> !Names(name, desired[1..], Path(name, desired[0].key).value)
  {
    hide Path;
    var keys, more := Keys(desired), Keys(desired[1..]);
    assert forall i :: 0 <= i < |more| ==> more[i] == keys[i + 1];
    forall s | s in desired[1..] ensures Path(name, s.key) != Path(name, keys[0]) || Path(name, keys[0]).None? {
      var i :| 0 <= i < |more| && desired[1..][i] == s;
      assert Path(name, more[i]) == Path(name, keys[i + 1]);
    }
  }

  /** Applying one setting leaves the others as applied or unapplied as they were. */
  lemma {:induction false} UnappliedElsewhere(real_: RealParser, name: bytes, table: Value, s: Setting, others: seq<Setting>)
    requires Path(name, s.key).Some? ==> !Names(name, others, Path(name, s.key).value)
    ensures UnappliedKeys(real_, name, ApplyOne(real_, name, table, s), others) == UnappliedKeys(real_, name, table, others)
  {
    hide ApplyOne, IsUnapplied, Path, Lookup, Alike, Names;
    if others != [] {
      var o := others[0];
      OthersElsewhere(name, s, others);
      if Path(name, o.key).Some? { ApplyOneElsewhere(real_, name, table, s, Path(name, o.key).value); }
      AlikeWantsTheSame(real_, name, table, ApplyOne(real_, name, table, s), o);
      UnappliedElsewhere(real_, name, table, s, others[1..]);
    }
  }

  lemma OthersElsewhere(name: bytes, s: Setting, others: seq<Setting>)
    requires others != []
    requires Path(name, s.key).Some? ==> !Names(name, others, Path(name, s.key).value)
    ensures Path(name, others[0].key).Some? ==> Path(name, s.key) != Path(name, others[0].key)
    ensures Path(name, s.key).Some? ==> !Names(name, others[1..], Path(name, s.key).value)
  {
    hide Path;
    if Path(name, s.key).Some? { NamesRest(name, others, Path(name, s.key).value); }
  }

  /**
    With distinct nodes: the result is the number of settings that were unapplied, none is afterwards, and so
    a second run does nothing.
   */
  lemma {:induction false} AppliedLeavesNothing(real_: RealParser, name: bytes, table: Value, desired: seq<Setting>)
    requires DistinctNodes(name, Keys(desired))
    ensures Updates(real_, name, table, desired) == |UnappliedKeys(real_, name, table, desired)|
    ensures UnappliedKeys(real_, name, Applied(real_, name, table, desired), desired) == []
    decreases |desired|
  {
    hide ApplyOne, IsUnapplied, Path, Lookup, Alike, Names, DistinctNodes;
    if desired != [] {
      var s, others := desired[0], desired[1..];
      var next := ApplyOne(real_, name, table, s);
      var end := Applied(real_, name, next, others);
      DistinctRest(name, desired);
      AppliedLeavesNothing(real_, name, next, others);
      UnappliedElsewhere(real_, name, table, s, others);
      ApplyOneSettles(real_, name, table, s);
      if Path(name, s.key).Some? { AppliedElsewhere(real_, name, next, others, Path(name, s.key).value); }
      AlikeWantsTheSame(real_, name, next, end, s);
    }
  }

  lemma SecondRunDoesNothing(real_: RealParser, name: bytes, table: Value, desired: seq<Setting>)
    requires DistinctNodes(name, Keys(desired))
    ensures var t := Applied(real_, name, table, desired);
      Updates(real_, name, t, desired) == 0 && Applied(real_, name, t, desired) == t
  {
    var t := Applied(real_, name, table, desired);
    AppliedLeavesNothing(real_, name, table, desired);
    AppliedLeavesNothing(real_, name, t, desired);
    NoUpdatesNoChange(real_, name, t, desired);
  }

  /** Even without distinct nodes, no updates means that everything was there already. */
  lemma {:induction false} NoUpdatesNoChange(real_: RealParser, name: bytes, table: Value, desired: seq<Setting>)
    requires Updates(real_, name, table, desired) == 0
    ensures Applied(real_, name, table, desired) == table
    ensures UnappliedKeys(real_, name, table, desired) == []
    decreases |desired|
  {
    hide IsUnapplied;
    if desired != [] {
      NoUpdatesNoChange(real_, name, ApplyOne(real_, name, table, desired[0]), desired[1..]);
    }
  }

  // --- And only with distinct nodes ---

  /** Whatever the table and the values, these keys can all be applied. */
  ghost predicate AlwaysApplies(real_: RealParser, name: bytes, keys: seq<bytes>) {
    forall table: Value, desired: seq<Setting> :: Keys(desired) == keys ==> LeavesNothing(real_, name, table, desired)
  }

  ghost predicate LeavesNothing(real_: RealParser, name: bytes, table: Value, desired: seq<Setting>) {
    UnappliedKeys(real_, name, Applied(real_, name, table, desired), desired) == []
  }

  /** A table that has a string at the end of the path and nothing else. */
  function Only(path: seq<bytes>): Value {
    if path == [] then Str([]) else Obj(map[path[0] := Only(path[1..])])
  }

  lemma {:induction false} OnlyHasIt(path: seq<bytes>)
    ensures Lookup(Only(path), path) == Some(Str([]))
  {
    if path != [] { OnlyHasIt(path[1..]); }
  }

  lemma {:induction false} UnappliedIsListed(real_: RealParser, name: bytes, table: Value, desired: seq<Setting>, i: nat)
    requires i < |desired| && IsUnapplied(real_, name, table, desired[i])
    ensures UnappliedKeys(real_, name, table, desired) != []
  {
    hide IsUnapplied;
    if i > 0 { UnappliedIsListed(real_, name, table, desired[1..], i - 1); }
  }

  /** Two keys for one string node cannot both have their way. */
  lemma SharedNodeConflicts(real_: RealParser, name: bytes, desired: seq<Setting>, i: nat, j: nat, path: seq<bytes>)
    requires i < j < |desired| && desired[i].value != desired[j].value
    requires Path(name, desired[i].key) == Some(path) == Path(name, desired[j].key)
    ensures !LeavesNothing(real_, name, Only(path), desired)
  {
    hide Path, Lookup, Applied, Only;
    var t := Applied(real_, name, Only(path), desired);
    OnlyHasIt(path);
    AppliedKeepsKinds(real_, name, Only(path), desired, path);
    assert Lookup(t, path).Some? && Lookup(t, path).value.Str?;
    if Lookup(t, path).value == Str(desired[i].value) {
      UnappliedIsListed(real_, name, t, desired, j);
    } else {
      UnappliedIsListed(real_, name, t, desired, i);
    }
  }

  /** Keys are safe to apply together if and only if no two of them name the same node. */
  lemma AppliesExactlyWhenDistinct(real_: RealParser, name: bytes, keys: seq<bytes>)
    ensures AlwaysApplies(real_, name, keys) <==> DistinctNodes(name, keys)
  {
    hide Path, UnappliedKeys, Applied;
    if DistinctNodes(name, keys) {
      forall table: Value, desired: seq<Setting> | Keys(desired) == keys ensures LeavesNothing(real_, name, table, desired) {
        AppliedLeavesNothing(real_, name, table, desired);
      }
    } else {
      var i, j :| 0 <= i < j < |keys| && Path(name, keys[i]).Some? && Path(name, keys[i]) == Path(name, keys[j]);
      var desired := seq(|keys|, k requires 0 <= k < |keys| => Setting(keys[k], if k == i then [0] else []));
      assert Keys(desired) == keys;
      assert desired[i].value[0..] == [0] && desired[j].value == [];
      SharedNodeConflicts(real_, name, desired, i, j, Path(name, keys[i]).value);
    }
  }

  /** Distinct pointers are enough where none contains a tilde ... */
  lemma PlainPointersDiffer(name: bytes, keys: seq<bytes>)
    requires forall i :: 0 <= i < |keys| && KeyPointer(name, keys[i]).Some? ==> TILDE !in KeyPointer(name, keys[i]).value
    requires forall i, j :: 0 <= i < j < |keys| && KeyPointer(name, keys[i]).Some? ==> KeyPointer(name, keys[i]) != KeyPointer(name, keys[j])
    ensures DistinctNodes(name, keys)
  {
    hide KeyPointer, Tokens;
    forall i, j | 0 <= i < j < |keys| && Path(name, keys[i]).Some? ensures Path(name, keys[i]) != Path(name, keys[j]) {
      if Path(name, keys[i]) == Path(name, keys[j]) {
        TokensInjective(KeyPointer(name, keys[i]).value, KeyPointer(name, keys[j]).value);
      }
    }
  }

  /** ... but not in general: after any name, the keys `.~` and `.~0` have different pointers to the same node. */
  lemma TildesCollide(name: bytes)
    ensures KeyPointer(name, name + [0x2E, 0x7E]) == Some([0x2F, 0x7E])
    ensures KeyPointer(name, name + [0x2E, 0x7E, 0x30]) == Some([0x2F, 0x7E, 0x30])
    ensures !DistinctNodes(name, [name + [0x2E, 0x7E], name + [0x2E, 0x7E, 0x30]])
  {
    hide Tokens, KeyPointer, Unescape;
    OneSegment(name, [TILDE]);
    OneSegment(name, [TILDE, 48]);
    assert [DOT] + [TILDE] == [DOT, TILDE] && [DOT] + [TILDE, 48] == [DOT, TILDE, 48];
    assert [SLASH] + [TILDE] == [SLASH, TILDE] && [SLASH] + [TILDE, 48] == [SLASH, TILDE, 48];
    OneToken([TILDE]);
    OneToken([TILDE, 48]);
    EscapesMeet();
    var keys := [name + [DOT, TILDE], name + [DOT, TILDE, 48]];
    assert Path(name, keys[0]) == Path(name, keys[1]);
  }

  lemma {:induction false} PlainSegment(s: bytes)
    requires DOT !in s && OPEN !in s
    ensures SegmentLength(s) == |s|
  {
    if s != [] {
      assert s[0] in s;
      PlainSegment(s[1..]);
    }
  }

  lemma OneSegment(name: bytes, s: bytes)
    requires s != [] && DOT !in s && OPEN !in s
    ensures KeyPointer(name, name + ([DOT] + s)) == Some([SLASH] + s)
  {
    hide SegmentLength, PathPointer;
    var path := [DOT] + s;
    assert (name + path)[|name|..] == path && (name + path)[..|name|] == name;
    assert path[1..] == s && path[1..|s| + 1] == s && path[|s| + 1..] == [];
    PlainSegment(s);
    DotUnfolds(path);
    NoPath();
    Unit([SLASH] + s);
  }

  lemma NoPath()
    ensures PathPointer([]) == Some([])
  {
  }

  lemma {:induction false} NoSlash(s: bytes)
    requires SLASH !in s
    ensures TokenLength(s) == |s|
  {
    if s != [] {
      assert s[0] in s;
      NoSlash(s[1..]);
    }
  }

  lemma OneToken(s: bytes)
    requires SLASH !in s
    ensures Tokens([SLASH] + s) == Some([Unescape(s)])
  {
    hide Unescape;
    var pointer := [SLASH] + s;
    assert pointer[0] == SLASH && pointer[1..] == s;
    OneSplit(s);
    OneUnescaped(s);
    hide UnescapeAll, SplitTokens;
  }

  lemma OneSplit(s: bytes)
    requires SLASH !in s
    ensures SplitTokens(s) == [s]
  {
    hide TokenLength;
    NoSlash(s);
  }

  lemma OneUnescaped(s: bytes)
    ensures UnescapeAll([s]) == [Unescape(s)]
  {
    hide Unescape;
    assert [s][1..] == [];
    NoneUnescaped();
    Unit([Unescape(s)]);
  }

  lemma NoneUnescaped()
    ensures UnescapeAll([]) == []
  {
  }

  /** An escape at the head, and a tilde that is none. */
  lemma EscapeReplaced(digit: byte, with_: byte)
    ensures ReplaceEscape([TILDE, digit], digit, with_) == [with_]
  {
    var s: bytes := [TILDE, digit];
    assert s[2..] == [];
    NothingToReplace([], digit, with_);
    Unit([with_]);
  }

  lemma TildeKept(rest: bytes, digit: byte, with_: byte)
    requires TILDE !in rest && (rest == [] || rest[0] != digit)
    ensures ReplaceEscape([TILDE] + rest, digit, with_) == [TILDE] + rest
  {
    var s := [TILDE] + rest;
    assert s[1..] == rest;
    NothingToReplace(rest, digit, with_);
  }

  lemma EscapesMeet()
    ensures Unescape([TILDE]) == [TILDE] == Unescape([TILDE, 48])
  {
    hide ReplaceEscape;
    Unit<byte>([TILDE]);
    assert [TILDE] + [48] == [TILDE, 48];
    TildeKept([], 49, SLASH);
    TildeKept([], 48, TILDE);
    TildeKept([48], 49, SLASH);
    EscapeReplaced(48, TILDE);
  }
}
