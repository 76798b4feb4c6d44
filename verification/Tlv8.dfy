/**
  TLV8 containers (src/tlv8.rs:1-110): tag, length byte, value; longer values split into items of 255 bytes,
  which the parser joins again.
 */
module Tlv8 {
  import opened Wrappers
  import opened Bytes

  datatype Item = Item(tag: byte, value: bytes)

  const FRAGMENT := 255

  // --- Writing ---

  function WriteFragment(tag: byte, value: bytes): bytes
    requires |value| <= FRAGMENT
  {
    [tag, |value| as byte] + value
  }

  /** An item on the wire. An empty value still takes a fragment. */
  function WriteItem(tag: byte, value: bytes): bytes
    decreases |value|
  {
    if |value| <= FRAGMENT then WriteFragment(tag, value)
    else WriteFragment(tag, value[..FRAGMENT]) + WriteItem(tag, value[FRAGMENT..])
  }

  function WriteAll(items: seq<Item>): bytes {
    if items == [] then [] else WriteItem(items[0].tag, items[0].value) + WriteAll(items[1..])
  }

  lemma {:induction false} WriteAllAppend(a: seq<Item>, b: seq<Item>)
    ensures WriteAll(a + b) == WriteAll(a) + WriteAll(b)
  {
    hide WriteItem;
    if a == [] {
      Unit(b);
      Unit(WriteAll(b));
    } else {
      WriteAllAppend(a[1..], b);
      assert (a + b)[1..] == a[1..] + b;
      Assoc(WriteItem(a[0].tag, a[0].value), WriteAll(a[1..]), WriteAll(b));
    }
  }

  lemma WriteOne(item: Item)
    ensures WriteAll([item]) == WriteItem(item.tag, item.value)
  {
    hide WriteItem;
    assert [item][1..] == [];
    Unit(WriteItem(item.tag, item.value));
  }

  lemma FirstFragment(tag: byte, value: bytes)
    ensures var n := if |value| < 255 then |value| else 255;
      && 2 + n <= |WriteItem(tag, value)| && WriteItem(tag, value)[..2 + n] == [tag, n as byte] + value[..n]
      && (n == |value| ==> |WriteItem(tag, value)| == 2 + n)
    ensures |value| > 255 ==> WriteItem(tag, value) == WriteFragment(tag, value[..255]) + WriteItem(tag, value[255..])
  {
  }

  /** Fragment k, if there is one, sits at 257 * k: tag, length, and the bytes from 255 * k on, up to 255 of them; behind
      the last one nothing follows. */
  lemma {:induction false} ItemLayout(tag: byte, value: bytes, k: nat)
    requires k == 0 || 255 * k < |value|
    ensures var n := if |value| - 255 * k < 255 then |value| - 255 * k else 255;
      var w := WriteItem(tag, value);
      && 257 * k + 2 + n <= |w| && w[257 * k..257 * k + 2 + n] == [tag, n as byte] + value[255 * k..255 * k + n]
      && (255 * k + n == |value| ==> |w| == 257 * k + 2 + n)
    decreases k
  {
    var n := if |value| - 255 * k < 255 then |value| - 255 * k else 255;
    FirstFragment(tag, value);
    hide WriteItem, WriteFragment;
    if k > 0 {
      var rest := WriteItem(tag, value[255..]);
      ItemLayout(tag, value[255..], k - 1);
      Within(value, 255, 255 * (k - 1), 255 * (k - 1) + n);
      BehindFragment(tag, value, rest, 257 * (k - 1), 257 * (k - 1) + 2 + n);
    }
  }

  lemma BehindFragment(tag: byte, value: bytes, rest: bytes, i: nat, j: nat)
    requires |value| > 255 && WriteItem(tag, value) == WriteFragment(tag, value[..255]) + rest && i <= j <= |rest|
    ensures |WriteItem(tag, value)| == 257 + |rest| && WriteItem(tag, value)[257 + i..257 + j] == rest[i..j]
  {
    hide WriteItem;
    assert |WriteFragment(tag, value[..255])| == 257;
  }

  /** The delimiter between repeated items. */
  const DELIMITER := Item(0, [])

  lemma ChunkWritten(buf: bytes, tag: byte, value: bytes, pos: nat, end: nat)
    requires pos < |value| && end == if |value| - pos < FRAGMENT then |value| else pos + FRAGMENT
    ensures buf + [tag] + [(end - pos) as byte] + value[pos..end] + (if end < |value| then WriteItem(tag, value[end..]) else [])
         == buf + WriteItem(tag, value[pos..])
  {
    var chunk := value[pos..end];
    assert buf + [tag] + [(end - pos) as byte] + chunk == buf + WriteFragment(tag, chunk);
    Within(value, pos, 0, end - pos);
    assert value[pos..][..end - pos] == chunk;
    if end < |value| {
      Assoc(buf, WriteFragment(tag, chunk), WriteItem(tag, value[end..]));
    } else {
      Unit(buf + WriteFragment(tag, chunk));
    }
  }

  class Writer {
    var buf: bytes
    ghost var items: seq<Item>

    /** The buffer holds the items written since the last build. */
    ghost predicate Valid()
      reads this
    {
      buf == WriteAll(items)
    }

    constructor ()
      ensures Valid() && items == []
    {
      buf, items := [], [];
    }

    method U8(tag: byte, value: byte)
      requires Valid()
      modifies this
      ensures Valid() && items == old(items) + [Item(tag, [value])]
    {
      Bytes(tag, [value]);
    }

    method U16(tag: byte, value: u16)
      requires Valid()
      modifies this
      ensures Valid() && items == old(items) + [Item(tag, Le(value, 2))]
    {
      Bytes(tag, Le(value, 2));
    }

    method U32(tag: byte, value: u32)
      requires Valid()
      modifies this
      ensures Valid() && items == old(items) + [Item(tag, Le(value, 4))]
    {
      Bytes(tag, Le(value, 4));
    }

    method Bytes(tag: byte, value: bytes)
      requires Valid()
      modifies this
      ensures Valid() && items == old(items) + [Item(tag, value)]
    {
      WriteOne(Item(tag, value));
      WriteAllAppend(items, [Item(tag, value)]);
      items := items + [Item(tag, value)];
      if value == [] {
        buf := buf + [tag];
        buf := buf + [0];
        return;
      }
      WriteChunks(tag, value);
    }

    method WriteChunks(tag: byte, value: bytes)
      requires value != []
      modifies this`buf
      ensures buf == old(buf) + WriteItem(tag, value)
    {
      hide WriteItem;
      var pos := 0;
      ghost var rest := WriteItem(tag, value);
      assert value[0..] == value;
      while pos < |value|
        invariant pos <= |value|
        invariant rest == if pos < |value| then WriteItem(tag, value[pos..]) else []
        invariant buf + rest == old(buf) + WriteItem(tag, value)
      {
        var end := if |value| - pos < FRAGMENT then |value| else pos + FRAGMENT;
        ChunkWritten(buf, tag, value, pos, end);
        var chunk := value[pos..end];
        buf := buf + [tag];
        buf := buf + [|chunk| as byte];
        buf := buf + chunk;
        rest := if end < |value| then WriteItem(tag, value[end..]) else [];
        pos := end;
      }
      Unit(buf);
    }

    method Delimiter()
      requires Valid()
      modifies this
      ensures Valid() && items == old(items) + [DELIMITER]
    {
      WriteOne(DELIMITER);
      WriteAllAppend(items, [DELIMITER]);
      items := items + [DELIMITER];
      buf := buf + [0];
      buf := buf + [0];
    }

    method Build() returns (built: bytes)
      requires Valid()
      modifies this
      ensures built == WriteAll(old(items)) && Valid() && items == []
    {
      built := buf;
      buf, items := [], [];
    }
  }

  // --- Parsing ---

  /** A fragment that continues `last`: same tag, and so far only whole fragments. */
  predicate Joins(last: Item, tag: byte) {
    last.tag == tag && |last.value| % FRAGMENT == 0 && last.value != []
  }

  function Add(items: seq<Item>, tag: byte, value: bytes): seq<Item> {
    var n := |items|;
    if n > 0 && Joins(items[n - 1], tag) then items[..n - 1] + [Item(tag, items[n - 1].value + value)]
    else items + [Item(tag, value)]
  }

  lemma AddIs(items: seq<Item>, tag: byte, value: bytes)
    ensures var n := |items|;
      Add(items, tag, value) ==
      if n > 0 && items[n - 1].tag == tag && |items[n - 1].value| % FRAGMENT == 0 && items[n - 1].value != []
      then items[..n - 1] + [items[n - 1].(value := items[n - 1].value + value)]
      else items + [Item(tag, value)]
  {
  }

  /** `items` are those parsed before `data`; a value cut short is taken as far as it goes. */
  function ParseInto(items: seq<Item>, data: bytes): seq<Item>
    decreases |data|
  {
    if |data| < 2 then items
    else
      var end := if 2 + data[1] as int <= |data| then 2 + data[1] as int else |data|;
      ParseInto(Add(items, data[0], data[2..end]), data[end..])
  }

  function Parsed(data: bytes): seq<Item> {
    ParseInto([], data)
  }

  /** One turn of the loop, at position i. */
  lemma ParseStep(items: seq<Item>, data: bytes, i: nat)
    requires i + 2 <= |data|
    ensures var end := if i + 2 + data[i + 1] as int < |data| then i + 2 + data[i + 1] as int else |data|;
      ParseInto(items, data[i..]) == ParseInto(Add(items, data[i], data[i + 2..end]), data[end..])
  {
    hide Add;
    var rest := data[i..];
    assert rest[0] == data[i] && rest[1] == data[i + 1];
    Within(data, i, 2, (if i + 2 + data[i + 1] as int < |data| then i + 2 + data[i + 1] as int else |data|) - i);
  }

  lemma TooShort(items: seq<Item>, data: bytes)
    requires |data| < 2
    ensures ParseInto(items, data) == items
  {
  }

  method Parse(data: bytes) returns (items: seq<Item>)
    ensures items == Parsed(data)
  {
    hide Add, ParseInto;
    items := [];
    var i := 0;
    assert data[0..] == data;
    while i + 2 <= |data|
      invariant i <= |data|
      invariant Parsed(data) == ParseInto(items, data[i..])
    {
      var tag := data[i];
      var len := data[i + 1] as int;
      var end := if i + 2 + len < |data| then i + 2 + len else |data|;
      var value := data[i + 2..end];
      ParseStep(items, data, i);
      var n := |items|;
      AddIs(items, tag, value);
      if n > 0 && items[n - 1].tag == tag && |items[n - 1].value| % FRAGMENT == 0 && items[n - 1].value != [] {
        var last := items[n - 1];
        items := items[..n - 1] + [last.(value := last.value + value)];
      } else {
        items := items + [Item(tag, value)];
      }
      i := end;
    }
    TooShort(items, data[i..]);
  }

  lemma FragmentAhead(items: seq<Item>, tag: byte, value: bytes, tail: bytes)
    requires |value| <= FRAGMENT
    ensures ParseInto(items, WriteFragment(tag, value) + tail) == ParseInto(Add(items, tag, value), tail)
  {
    hide Add;
    var data := WriteFragment(tag, value) + tail;
    assert data[0] == tag && data[1] == |value| as byte;
    assert data[2..2 + |value|] == value && data[2 + |value|..] == tail;
  }

  /** A fragment of 255 bytes is open to the next one of its tag, whatever it was itself joined to. */
  lemma AddTwice(items: seq<Item>, tag: byte, whole: bytes, more: bytes)
    requires |whole| == FRAGMENT
    ensures Add(Add(items, tag, whole), tag, more) == Add(items, tag, whole + more)
  {
    var n := |items|;
    if n > 0 && Joins(items[n - 1], tag) {
      Assoc(items[n - 1].value, whole, more);
      var joined := Add(items, tag, whole);
      assert joined[..n - 1] == items[..n - 1];
    } else {
      assert (items + [Item(tag, whole)])[..n] == items;
    }
  }

  lemma {:induction false} ItemAhead(items: seq<Item>, tag: byte, value: bytes, tail: bytes)
    ensures ParseInto(items, WriteItem(tag, value) + tail) == ParseInto(Add(items, tag, value), tail)
    decreases |value|
  {
    hide Add, ParseInto;
    if |value| <= FRAGMENT {
      FragmentAhead(items, tag, value, tail);
    } else {
      var first, more := value[..FRAGMENT], value[FRAGMENT..];
      Assoc(WriteFragment(tag, first), WriteItem(tag, more), tail);
      FragmentAhead(items, tag, first, WriteItem(tag, more) + tail);
      ItemAhead(Add(items, tag, first), tag, more, tail);
      AddTwice(items, tag, first, more);
      assert first + more == value;
    }
  }

  // --- What is read back ---

  function AddAll(items: seq<Item>, more: seq<Item>): seq<Item>
    decreases |more|
  {
    if more == [] then items else AddAll(Add(items, more[0].tag, more[0].value), more[1..])
  }

  /** Whatever was written, the parser returns it with each item joined to the one before where it looks like
      a continuation; and any bytes may follow. */
  lemma {:induction false} WrittenParses(items: seq<Item>, more: seq<Item>, tail: bytes)
    ensures ParseInto(items, WriteAll(more) + tail) == ParseInto(AddAll(items, more), tail)
    decreases |more|
  {
    hide Add, ParseInto, WriteItem;
    if more == [] {
      Unit(tail);
    } else {
      var head := WriteItem(more[0].tag, more[0].value);
      Assoc(head, WriteAll(more[1..]), tail);
      ItemAhead(items, more[0].tag, more[0].value, WriteAll(more[1..]) + tail);
      WrittenParses(Add(items, more[0].tag, more[0].value), more[1..], tail);
    }
  }

  /** No item looks like a continuation of the one before it. */
  ghost predicate Separated(items: seq<Item>) {
    forall i :: 0 < i < |items| ==> !Joins(items[i - 1], items[i].tag)
  }

  lemma {:induction false} AddAllShrinks(items: seq<Item>, more: seq<Item>)
    ensures |AddAll(items, more)| <= |items| + |more|
    decreases |more|
  {
    if more != [] {
      AddAllShrinks(Add(items, more[0].tag, more[0].value), more[1..]);
    }
  }

  lemma NotSeparated(items: seq<Item>, more: seq<Item>)
    requires items != [] && more != [] && Joins(items[|items| - 1], more[0].tag)
    ensures !Separated(items + more)
  {
    hide Joins;
    var all, n := items + more, |items|;
    assert all[n - 1] == items[n - 1] && all[n] == more[0];
  }

  lemma SeparatedPush(items: seq<Item>, x: Item)
    requires Separated(items) && (items == [] || !Joins(items[|items| - 1], x.tag))
    ensures Separated(items + [x])
  {
    hide Joins;
    var all := items + [x];
    forall i | 0 < i < |all| ensures !Joins(all[i - 1], all[i].tag) {
      if i < |items| { assert !Joins(items[i - 1], items[i].tag); }
    }
  }

  lemma {:induction false} AddAllSeparated(items: seq<Item>, more: seq<Item>)
    requires Separated(items)
    ensures Separated(items + more) ==> AddAll(items, more) == items + more
    ensures !Separated(items + more) ==> |AddAll(items, more)| < |items| + |more|
    decreases |more|
  {
    hide Joins, Separated;
    var n := |items|;
    if more == [] {
      Unit(items);
    } else if n > 0 && Joins(items[n - 1], more[0].tag) {
      NotSeparated(items, more);
      AddAllShrinks(Add(items, more[0].tag, more[0].value), more[1..]);
    } else {
      var next := items + [more[0]];
      assert next + more[1..] == items + more;
      SeparatedPush(items, more[0]);
      AddAllSeparated(next, more[1..]);
    }
  }

  /** Exactly the separated lists are read back as written. */
  lemma ReadsBackExactly(items: seq<Item>)
    ensures Parsed(WriteAll(items)) == items <==> Separated(items)
    ensures !Separated(items) ==> |Parsed(WriteAll(items))| < |items|
  {
    hide AddAll, Separated;
    Unit(WriteAll(items));
    WrittenParses([], items, []);
    Unit(items);
    SeparatedEmpty();
    AddAllSeparated([], items);
  }

  lemma SeparatedEmpty()
    ensures Separated([])
  {
  }

  lemma AddKeepsSeparated(items: seq<Item>, tag: byte, value: bytes)
    requires Separated(items)
    ensures Separated(Add(items, tag, value))
  {
    var n, r := |items|, Add(items, tag, value);
    if n > 0 && Joins(items[n - 1], tag) {
      assert r[n - 1].tag == items[n - 1].tag;
      hide Joins;
      forall i | 0 < i < |r| ensures !Joins(r[i - 1], r[i].tag) {
        assert !Joins(items[i - 1], items[i].tag);
      }
    } else {
      SeparatedPush(items, Item(tag, value));
    }
  }

  lemma {:induction false} ParseIntoSeparated(items: seq<Item>, data: bytes)
    requires Separated(items)
    ensures Separated(ParseInto(items, data))
    decreases |data|
  {
    hide Add, Separated;
    if |data| >= 2 {
      var end := if 2 + data[1] as int <= |data| then 2 + data[1] as int else |data|;
      AddKeepsSeparated(items, data[0], data[2..end]);
      ParseIntoSeparated(Add(items, data[0], data[2..end]), data[end..]);
    }
  }

  /** Any buffer at all: what the parser makes of it survives being written and parsed again. */
  lemma ParsedReadsBack(data: bytes)
    ensures Separated(Parsed(data))
    ensures Parsed(WriteAll(Parsed(data))) == Parsed(data)
  {
    SeparatedEmpty();
    hide Separated;
    ParseIntoSeparated([], data);
    ReadsBackExactly(Parsed(data));
  }

  /** No value long enough to fill a fragment, so none that looks unfinished. */
  ghost predicate AllShort(items: seq<Item>) {
    forall item :: item in items ==> |item.value| < FRAGMENT
  }

  lemma ShortIsSeparated(items: seq<Item>)
    requires AllShort(items)
    ensures Separated(items)
  {
    forall i | 0 < i < |items| ensures !Joins(items[i - 1], items[i].tag) {
      assert items[i - 1] in items;
    }
  }

  lemma OneIsSeparated(item: Item)
    ensures Separated([item])
  {
  }

  lemma WriteAllStep(items: seq<Item>, m: nat)
    requires items != [] && m <= FRAGMENT && forall item :: item in items ==> |item.value| <= m
    ensures |WriteAll(items[1..])| <= |WriteAll(items)| <= |WriteAll(items[1..])| + m + 2
    ensures forall item :: item in items[1..] ==> |item.value| <= m
  {
    assert items[0] in items;
  }

  function Times(a: nat, n: nat): nat {
    a * n
  }

  lemma OneTimeMore(a: nat, n: nat)
    ensures Times(a, n + 1) == Times(a, n) + a
  {
  }

  lemma {:induction false} LengthTimes(items: seq<Item>, m: nat)
    requires m <= FRAGMENT && forall item :: item in items ==> |item.value| <= m
    ensures |WriteAll(items)| <= Times(m + 2, |items|)
  {
    if items != [] {
      hide WriteAll, Times;
      WriteAllStep(items, m);
      LengthTimes(items[1..], m);
      OneTimeMore(m + 2, |items| - 1);
    }
  }

  lemma BoundedLength(items: seq<Item>, m: nat)
    requires m <= FRAGMENT && forall item :: item in items ==> |item.value| <= m
    ensures |WriteAll(items)| <= (m + 2) * |items|
  {
    hide WriteAll;
    LengthTimes(items, m);
  }

  // --- The joining rule as its comment has it ---

  /** The fragments of a buffer, none joined yet; one cut short is taken as far as it goes. */
  function Fragments(data: bytes): (fs: seq<Item>)
    ensures forall f :: f in fs ==> |f.value| <= FRAGMENT
    decreases |data|
  {
    if |data| < 2 then []
    else
      var end := if 2 + data[1] as int <= |data| then 2 + data[1] as int else |data|;
      [Item(data[0], data[2..end])] + Fragments(data[end..])
  }

  /** A fragment joins its predecessor's item if the tag is the same and `previous`, that fragment's length, is 255. */
  function AddAsCommented(items: seq<Item>, previous: nat, f: Item): seq<Item> {
    var n := |items|;
    if n > 0 && items[n - 1].tag == f.tag && previous == FRAGMENT
    then items[..n - 1] + [Item(f.tag, items[n - 1].value + f.value)]
    else items + [f]
  }

  function JoinAsCommented(items: seq<Item>, previous: nat, fs: seq<Item>): seq<Item>
    decreases |fs|
  {
    if fs == [] then items else JoinAsCommented(AddAsCommented(items, previous, fs[0]), |fs[0].value|, fs[1..])
  }

  function ParsedAsCommented(data: bytes): seq<Item> {
    JoinAsCommented([], 0, Fragments(data))
  }

  /** From fragment i on: one of 255 bytes, an empty one and any third, under one tag. */
  predicate PartsAt(fs: seq<Item>, i: nat) {
    i + 2 < |fs| && fs[i].tag == fs[i + 1].tag == fs[i + 2].tag && |fs[i].value| == FRAGMENT && fs[i + 1].value == []
  }

  ghost predicate Parts(fs: seq<Item>) {
    exists i: nat :: PartsAt(fs, i)
  }

  lemma {:induction false} ParsedFromFragments(items: seq<Item>, data: bytes)
    ensures ParseInto(items, data) == AddAll(items, Fragments(data))
    decreases |data|
  {
    hide Add;
    if |data| >= 2 {
      var end := if 2 + data[1] as int <= |data| then 2 + data[1] as int else |data|;
      ParsedFromFragments(Add(items, data[0], data[2..end]), data[end..]);
      assert ([Item(data[0], data[2..end])] + Fragments(data[end..]))[1..] == Fragments(data[end..]);
    }
  }

  /** The last item is that of fragment p, and looks finished or not as p does, but for an item that an empty p ended. */
  ghost predicate Follows(items: seq<Item>, p: Item) {
    items != [] &&
    var last := items[|items| - 1];
    last.tag == p.tag && |last.value| % FRAGMENT == |p.value| % FRAGMENT && (p.value != [] ==> last.value != [])
  }

  lemma AddFollows(items: seq<Item>, f: Item)
    ensures Follows(Add(items, f.tag, f.value), f)
  {
  }

  /** Once the code has fewer items it keeps having fewer: it joins wherever the comment does. */
  lemma {:induction false} StaysShorter(items: seq<Item>, others: seq<Item>, p: Item, fs: seq<Item>)
    requires Follows(items, p) && others != [] && others[|others| - 1].tag == p.tag && |items| < |others|
    ensures |AddAll(items, fs)| < |JoinAsCommented(others, |p.value|, fs)|
    decreases |fs|
  {
    if fs != [] {
      AddFollows(items, fs[0]);
      StaysShorter(Add(items, fs[0].tag, fs[0].value), AddAsCommented(others, |p.value|, fs[0]), fs[0], fs[1..]);
    }
  }

  function Previous(done: seq<Item>): nat {
    if done == [] then 0 else |done[|done| - 1].value|
  }

  /** The last two fragments are a whole one and an empty one that ended its item. */
  predicate JustEnded(done: seq<Item>) {
    var n := |done|;
    n >= 2 && done[n - 2].tag == done[n - 1].tag && |done[n - 2].value| == FRAGMENT && done[n - 1].value == []
  }

  /** What the last item tells of the fragments so far. */
  ghost predicate Tracks(items: seq<Item>, done: seq<Item>) {
    && (items == [] <==> done == [])
    && (done != [] ==>
          var p := done[|done| - 1];
          Follows(items, p) && (items[|items| - 1].value == [] <==> p.value == [] && !JustEnded(done)))
  }

  lemma PartsMore(done: seq<Item>, f: Item)
    requires !Parts(done)
    ensures Parts(done + [f]) <==> JustEnded(done) && f.tag == done[|done| - 1].tag
  {
    var n, all := |done|, done + [f];
    if JustEnded(done) && f.tag == done[n - 1].tag { assert PartsAt(all, n - 2); }
    if Parts(all) {
      var i: nat :| PartsAt(all, i);
      if i + 2 < n { assert PartsAt(done, i); }
    }
  }

  /** The next fragment is added alike, unless it is the third of such a row; then only the code joins it. */
  lemma AddedAlike(items: seq<Item>, done: seq<Item>, f: Item)
    requires Tracks(items, done) && Previous(done) <= FRAGMENT && !Parts(done)
    ensures var next, other := Add(items, f.tag, f.value), AddAsCommented(items, Previous(done), f);
      && (!Parts(done + [f]) ==> next == other && Tracks(next, done + [f]))
      && (Parts(done + [f]) ==> |next| < |other| && other[|other| - 1] == f)
  {
    PartsMore(done, f);
    AddFollows(items, f);
    hide Parts;
    assert (done + [f])[..|done|] == done;
  }

  lemma PartsStay(done: seq<Item>, fs: seq<Item>)
    requires Parts(done)
    ensures Parts(done + fs)
  {
    var i: nat :| PartsAt(done, i);
    assert PartsAt(done + fs, i);
  }

  lemma {:induction false} JoinedAlike(items: seq<Item>, done: seq<Item>, fs: seq<Item>)
    requires Tracks(items, done) && !Parts(done)
    requires forall f :: f in done + fs ==> |f.value| <= FRAGMENT
    ensures var code, comment := AddAll(items, fs), JoinAsCommented(items, Previous(done), fs);
      if Parts(done + fs) then |code| < |comment| else code == comment
    decreases |fs|
  {
    hide Parts, Tracks, Add, AddAsCommented;
    if fs == [] {
      Unit(done);
    } else {
      var f, more := fs[0], fs[1..];
      var now := done + [f];
      assert now + more == done + fs;
      assert done != [] ==> done[|done| - 1] in done + fs;
      AddedAlike(items, done, f);
      if Parts(now) {
        PartsStay(now, more);
        AddFollows(items, f);
        StaysShorter(Add(items, f.tag, f.value), AddAsCommented(items, Previous(done), f), f, more);
      } else {
        JoinedAlike(Add(items, f.tag, f.value), now, more);
      }
    }
  }

  /**
    For every buffer: the code joins as its comment says if and only if no fragment of 255 bytes is followed by an
    empty one and a third of the same tag; otherwise it has fewer items.
   */
  lemma CommentHoldsExactly(data: bytes)
    ensures Parsed(data) == ParsedAsCommented(data) <==> !Parts(Fragments(data))
    ensures Parts(Fragments(data)) ==> |Parsed(data)| < |ParsedAsCommented(data)|
  {
    hide AddAll, JoinAsCommented, Fragments;
    var fs := Fragments(data);
    ParsedFromFragments([], data);
    assert !Parts([]) && Tracks([], []);
    assert [] + fs == fs;
    JoinedAlike([], [], fs);
  }

  /** Such a buffer: the third fragment joins, where the comment would start a new item. */
  lemma JoinsPastAnEmptyFragment(tag: byte, whole: bytes, more: bytes)
    requires |whole| == FRAGMENT && |more| <= FRAGMENT
    ensures var data := WriteFragment(tag, whole) + (WriteFragment(tag, []) + (WriteFragment(tag, more) + []));
      Parsed(data) == [Item(tag, whole + more)] && ParsedAsCommented(data) == [Item(tag, whole), Item(tag, more)]
  {
    hide Fragments, WriteFragment;
    var data := WriteFragment(tag, whole) + (WriteFragment(tag, []) + (WriteFragment(tag, more) + []));
    FragmentOff(tag, whole, WriteFragment(tag, []) + (WriteFragment(tag, more) + []));
    FragmentOff(tag, [], WriteFragment(tag, more) + []);
    FragmentOff(tag, more, []);
    NoFragments();
    ParsedFromFragments([], data);
    ThreeFragments(tag, whole, more);
  }

  lemma FragmentOff(tag: byte, value: bytes, tail: bytes)
    requires |value| <= FRAGMENT
    ensures Fragments(WriteFragment(tag, value) + tail) == [Item(tag, value)] + Fragments(tail)
  {
    var data := WriteFragment(tag, value) + tail;
    assert data[0] == tag && data[1] == |value| as byte;
    assert data[2..2 + |value|] == value && data[2 + |value|..] == tail;
  }

  lemma NoFragments()
    ensures Fragments([]) == []
  {
  }

  lemma ThreeFragments(tag: byte, whole: bytes, more: bytes)
    requires |whole| == FRAGMENT
    ensures var fs := [Item(tag, whole)] + ([Item(tag, [])] + ([Item(tag, more)] + []));
      AddAll([], fs) == [Item(tag, whole + more)] && JoinAsCommented([], 0, fs) == [Item(tag, whole), Item(tag, more)]
  {
    var fs := [Item(tag, whole)] + ([Item(tag, [])] + ([Item(tag, more)] + []));
    var a, b, c := Item(tag, whole), Item(tag, []), Item(tag, more);
    assert fs == [a, b, c] && fs[1..] == [b, c] && fs[1..][1..] == [c] && fs[1..][1..][1..] == [];
    Unit(whole);
    assert Add([], tag, whole) == [a] == AddAsCommented([], 0, a);
    assert [a][..0] == [];
    assert Add([a], tag, []) == [a] == AddAsCommented([a], FRAGMENT, b);
    assert Add([a], tag, more) == [Item(tag, whole + more)] && AddAsCommented([a], 0, c) == [a, c];
    hide Add, AddAsCommented;
    assert AddAll([a], [b, c]) == AddAll([a], [c]) == AddAll([Item(tag, whole + more)], []);
    assert JoinAsCommented([a], FRAGMENT, [b, c]) == JoinAsCommented([a], 0, [c]) == JoinAsCommented([a, c], |more|, []);
  }

  // --- Looking things up ---

  function Find(items: seq<Item>, tag: byte): (r: Option<bytes>)
    ensures r.Some? <==> exists i :: 0 <= i < |items| && items[i].tag == tag
    ensures r.Some? ==> exists i :: 0 <= i < |items| && items[i] == Item(tag, r.value)
                                    && forall j :: 0 <= j < i ==> items[j].tag != tag
  {
    if items == [] then None
    else if items[0].tag == tag then Some(items[0].value)
    else
      var r := Find(items[1..], tag);
      assert forall i :: 0 < i < |items| ==> items[i] == items[1..][i - 1];
      assert r.Some? ==> exists i :: 0 <= i < |items[1..]| && items[1..][i] == Item(tag, r.value);
      r
  }

  function FindU8(items: seq<Item>, tag: byte): Option<byte> {
    var v := Find(items, tag);
    if v.Some? && v.value != [] then Some(v.value[0]) else None
  }

  function FindU16(items: seq<Item>, tag: byte): Option<nat> {
    var v := Find(items, tag);
    if v.Some? && |v.value| == 2 then Some(FromLe(v.value)) else None
  }
}
