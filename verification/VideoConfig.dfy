/**
  The video configurations advertised to a controller, as nested TLV8 containers (src/stream.rs:816-872 for
  live streams, src/hsv/recording.rs:377-410 for recordings).
 */
module VideoConfig {
  import opened Wrappers
  import opened Bytes
  import opened Tlv8

  datatype Profile = Profile(width: u16, height: u16, fps: byte, bitrateKbps: nat)

  /** What a controller is told of a profile. */
  datatype Attribute = Attribute(width: u16, height: u16, fps: byte)

  function AttributeOf(p: Profile): Attribute {
    Attribute(p.width, p.height, p.fps)
  }

  function Attributes(profiles: seq<Profile>): (r: seq<Attribute>)
    ensures |r| == |profiles|
    ensures forall i :: 0 <= i < |r| ==> r[i] == Attribute(profiles[i].width, profiles[i].height, profiles[i].fps)
  {
    seq(|profiles|, i requires 0 <= i < |profiles| => AttributeOf(profiles[i]))
  }

  // --- Removing repetitions ---

  /** Those that differ from everything before them. */
  function FirstOccurrences(all: seq<Attribute>): seq<Attribute> {
    if all == [] then []
    else
      var n := |all| - 1;
      FirstOccurrences(all[..n]) + if all[n] in all[..n] then [] else [all[n]]
  }

  lemma {:induction false} FirstOccurrencesMembers(all: seq<Attribute>, a: Attribute)
    ensures a in FirstOccurrences(all) <==> a in all
  {
    if all != [] {
      var n := |all| - 1;
      FirstOccurrencesMembers(all[..n], a);
      FirstOccurrencesMembers(all[..n], all[n]);
      assert all == all[..n] + [all[n]];
    }
  }

  lemma {:induction false} FirstOccurrencesDiffer(all: seq<Attribute>)
    ensures var r := FirstOccurrences(all);
      forall i, j :: 0 <= i < j < |r| ==> r[i] != r[j]
  {
    if all != [] {
      var n := |all| - 1;
      FirstOccurrencesDiffer(all[..n]);
      FirstOccurrencesMembers(all[..n], all[n]);
    }
  }

  method Known(unique: seq<Profile>, profile: Profile) returns (any: bool)
    ensures any <==> AttributeOf(profile) in Attributes(unique)
  {
    any := false;
    var k := 0;
    ghost var seen := Attributes(unique);
    while k < |unique| && !any
      invariant k <= |unique|
      invariant any <==> AttributeOf(profile) in seen[..k]
    {
      var current := unique[k];
      any := current.width == profile.width && current.height == profile.height && current.fps == profile.fps;
      assert seen[..k + 1] == seen[..k] + [seen[k]];
      k := k + 1;
    }
    assert seen == seen[..k] + seen[k..];
  }

  /** The two comparisons over what is kept so far and over everything seen so far agree. */
  method Deduplicate(profiles: seq<Profile>) returns (unique: seq<Profile>)
    ensures Attributes(unique) == FirstOccurrences(Attributes(profiles))
  {
    unique := [];
    var n := 0;
    ghost var all := Attributes(profiles);
    while n < |profiles|
      invariant n <= |profiles|
      invariant Attributes(unique) == FirstOccurrences(all[..n])
    {
      var profile := profiles[n];
      var any := Known(unique, profile);
      ghost var before := Attributes(unique);
      FirstOccurrencesMembers(all[..n], all[n]);
      assert all[..n + 1][..n] == all[..n];
      if !any {
        unique := unique + [profile];
        assert Attributes(unique) == before + [AttributeOf(profile)];
      } else {
        Unit(before);
      }
      n := n + 1;
    }
    assert all[..n] == all;
  }

  // --- The containers ---

  const PROFILE: byte := 1
  const LEVEL: byte := 2

  /** The three values of a repeated parameter, with delimiters between them. */
  function ThreeChoices(tag: byte): seq<Item> {
    [Item(tag, [0]), DELIMITER, Item(tag, [1]), DELIMITER, Item(tag, [2])]
  }

  const RECORDING_PARAMS: seq<Item> := ThreeChoices(PROFILE) + ThreeChoices(LEVEL)
  const LIVE_PARAMS: seq<Item> := RECORDING_PARAMS + [Item(3, [0])]

  function AttributeItems(a: Attribute): seq<Item> {
    [Item(1, Le(a.width, 2)), Item(2, Le(a.height, 2)), Item(3, [a.fps])]
  }

  function AttributeList(attributes: seq<Attribute>): seq<Item> {
    if attributes == [] then []
    else
      var n := |attributes| - 1;
      AttributeList(attributes[..n])
      + (if n > 0 then [DELIMITER] else [])
      + [Item(3, WriteAll(AttributeItems(attributes[n])))]
  }

  function CodecItems(params: seq<Item>, attributes: seq<Attribute>): seq<Item> {
    [Item(1, [0]), Item(2, WriteAll(params))] + AttributeList(attributes)
  }

  function Config(params: seq<Item>, attributes: seq<Attribute>): bytes {
    WriteAll([Item(1, WriteAll(CodecItems(params, attributes)))])
  }

  // --- The bytes of a configuration ---

  const CHOICE_BYTES: bytes := [1, 1, 0, 0, 0, 1, 1, 1, 0, 0, 1, 1, 2, 2, 1, 0, 0, 0, 2, 1, 1, 0, 0, 2, 1, 2]

  function AttributeBytes(a: Attribute): bytes {
    [3, 11, 1, 2, (a.width % 256) as byte, (a.width / 256) as byte, 2, 2, (a.height % 256) as byte, (a.height / 256) as byte,
     3, 1, a.fps]
  }

  function ListBytes(attributes: seq<Attribute>): bytes {
    if attributes == [] then []
    else
      var n := |attributes| - 1;
      ListBytes(attributes[..n]) + (if n > 0 then [0, 0] else []) + AttributeBytes(attributes[n])
  }

  lemma WriteShort(tag: byte, value: bytes, more: seq<Item>)
    requires |value| <= 255
    ensures WriteAll([Item(tag, value)] + more) == [tag, |value| as byte] + value + WriteAll(more)
  {
    assert ([Item(tag, value)] + more)[1..] == more;
  }

  lemma ThreeWritten(tag: byte)
    ensures WriteAll(ThreeChoices(tag)) == [tag, 1, 0, 0, 0, tag, 1, 1, 0, 0, tag, 1, 2]
  {
    hide WriteAll;
    var two := [Item(tag, [1]), DELIMITER, Item(tag, [2])];
    WriteShort(tag, [2], []);
    WriteShort(0, [], [Item(tag, [2])]);
    WriteShort(tag, [1], [DELIMITER, Item(tag, [2])]);
    WriteShort(0, [], two);
    WriteShort(tag, [0], [DELIMITER] + two);
    assert ThreeChoices(tag) == [Item(tag, [0])] + ([DELIMITER] + two);
    assert two == [Item(tag, [1])] + [DELIMITER, Item(tag, [2])] && [DELIMITER, Item(tag, [2])] == [DELIMITER] + [Item(tag, [2])];
    assert [Item(tag, [2])] + [] == [Item(tag, [2])] && WriteAll([]) == [] by { NothingWritten(); }
  }

  lemma NothingWritten()
    ensures WriteAll([]) == []
  {
  }

  lemma OneWritten(tag: byte, value: bytes)
    requires |value| <= 255
    ensures WriteAll([Item(tag, value)]) == [tag, |value| as byte] + value
  {
    hide WriteAll;
    WriteOne(Item(tag, value));
  }

  lemma AttributeWritten(a: Attribute)
    ensures [3, 11] + WriteAll(AttributeItems(a)) == AttributeBytes(a) && |WriteAll(AttributeItems(a))| == 11
  {
    hide WriteAll, Le;
    TwoBytes(a.width);
    TwoBytes(a.height);
    var third := [Item(3, [a.fps])];
    WriteShort(3, [a.fps], []);
    WriteShort(2, Le(a.height, 2), third);
    WriteShort(1, Le(a.width, 2), [Item(2, Le(a.height, 2))] + third);
    assert AttributeItems(a) == [Item(1, Le(a.width, 2))] + ([Item(2, Le(a.height, 2))] + third);
    assert third + [] == third;
    NothingWritten();
  }

  lemma {:induction false} ListWritten(attributes: seq<Attribute>)
    ensures WriteAll(AttributeList(attributes)) == ListBytes(attributes)
  {
    hide WriteAll, AttributeItems, AttributeBytes;
    NothingWritten();
    if attributes != [] {
      var n := |attributes| - 1;
      var list, delimiter := AttributeList(attributes[..n]), if n > 0 then [DELIMITER] else [];
      var value := WriteAll(AttributeItems(attributes[n]));
      ListWritten(attributes[..n]);
      AttributeWritten(attributes[n]);
      OneWritten(3, value);
      OneWritten(0, []);
      Unit([0 as byte, 0]);
      WriteAllAppend(list, delimiter);
      WriteAllAppend(list + delimiter, [Item(3, value)]);
    }
  }

  /** Codec H.264, three profiles and three levels (and a packetization mode for live streams), and the attributes, with
      delimiters between them, in the item of type 1. */
  lemma ConfigLayout(attributes: seq<Attribute>)
    ensures Config(RECORDING_PARAMS, attributes) == WriteItem(1, [1, 1, 0, 2, 26] + CHOICE_BYTES + ListBytes(attributes))
    ensures Config(LIVE_PARAMS, attributes) == WriteItem(1, [1, 1, 0, 2, 29] + CHOICE_BYTES + [3, 1, 0] + ListBytes(attributes))
  {
    hide WriteAll, WriteItem, AttributeList, ListBytes;
    ListWritten(attributes);
    ThreeWritten(PROFILE);
    ThreeWritten(LEVEL);
    NothingWritten();
    WriteAllAppend(ThreeChoices(PROFILE), ThreeChoices(LEVEL));
    OneWritten(3, [0]);
    WriteAllAppend(RECORDING_PARAMS, [Item(3, [0])]);
    CodecWritten(RECORDING_PARAMS, CHOICE_BYTES, attributes);
    CodecWritten(LIVE_PARAMS, CHOICE_BYTES + [3, 1, 0], attributes);
    Assoc([1, 1, 0, 2, 29], CHOICE_BYTES, [3, 1, 0]);
  }

  lemma CodecWritten(params: seq<Item>, p: bytes, attributes: seq<Attribute>)
    requires WriteAll(params) == p && |p| <= 255
    ensures Config(params, attributes) == WriteItem(1, [1, 1, 0, 2, |p| as byte] + p + WriteAll(AttributeList(attributes)))
  {
    hide WriteAll, WriteItem, AttributeList;
    var list := AttributeList(attributes);
    WriteShort(2, p, list);
    WriteShort(1, [0], [Item(2, p)] + list);
    Assoc([Item(1, [0])], [Item(2, p)], list);
    assert [Item(1, [0])] + [Item(2, p)] == [Item(1, [0]), Item(2, p)];
    FiveAhead(|p| as byte, p, WriteAll(list));
    WriteOne(Item(1, WriteAll(CodecItems(params, attributes))));
  }

  lemma FiveAhead(n: byte, p: bytes, q: bytes)
    ensures [1, 1] + [0] + ([2, n] + p + q) == [1, 1, 0, 2, n] + p + q
  {
  }

  method WriteThreeChoices(w: Writer, tag: byte)
    requires w.Valid()
    modifies w
    ensures w.Valid() && w.items == old(w.items) + ThreeChoices(tag)
  {
    w.U8(tag, 0);
    w.Delimiter();
    w.U8(tag, 1);
    w.Delimiter();
    w.U8(tag, 2);
  }

  method WriteAttribute(a: Attribute) returns (attr: bytes)
    ensures attr == WriteAll(AttributeItems(a))
  {
    var w := new Writer();
    w.U16(1, a.width);
    w.U16(2, a.height);
    w.U8(3, a.fps);
    attr := w.Build();
  }

  method WriteCodecConfig(params: seq<Item>, paramBytes: bytes, attributes: seq<Attribute>) returns (raw: bytes)
    requires paramBytes == WriteAll(params)
    ensures raw == Config(params, attributes)
  {
    hide WriteAll, AttributeItems;
    var codecConfig := new Writer();
    codecConfig.U8(1, 0);
    codecConfig.Bytes(2, paramBytes);
    WriteAttributes(codecConfig, attributes);
    assert codecConfig.items == CodecItems(params, attributes);
    var built := codecConfig.Build();
    var root := new Writer();
    root.Bytes(1, built);
    Unit([Item(1, built)]);
    raw := root.Build();
  }

  method WriteAttributes(codecConfig: Writer, attributes: seq<Attribute>)
    requires codecConfig.Valid()
    modifies codecConfig
    ensures codecConfig.Valid() && codecConfig.items == old(codecConfig.items) + AttributeList(attributes)
  {
    hide AttributeItems, WriteAll;
    ghost var head := codecConfig.items;
    var i := 0;
    Unit(head);
    while i < |attributes|
      invariant i <= |attributes|
      invariant codecConfig.Valid()
      invariant codecConfig.items == head + AttributeList(attributes[..i])
    {
      ghost var list := AttributeList(attributes[..i]);
      if i > 0 { codecConfig.Delimiter(); }
      var attr := WriteAttribute(attributes[i]);
      codecConfig.Bytes(3, attr);
      assert attributes[..i + 1][..i] == attributes[..i];
      ghost var delimiter := if i > 0 then [DELIMITER] else [];
      Unit(head + list);
      Assoc(head, list, delimiter);
      Assoc(head, list + delimiter, [Item(3, attr)]);
      i := i + 1;
    }
    assert attributes[..i] == attributes;
  }

  method SupportedVideoConfig(profiles: seq<Profile>) returns (raw: bytes)
    ensures raw == Config(LIVE_PARAMS, FirstOccurrences(Attributes(profiles)))
  {
    hide WriteAll;
    var params := new Writer();
    WriteThreeChoices(params, PROFILE);
    WriteThreeChoices(params, LEVEL);
    params.U8(3, 0);
    assert params.items == LIVE_PARAMS;
    var paramBytes := params.Build();
    var unique := Deduplicate(profiles);
    raw := WriteCodecConfig(LIVE_PARAMS, paramBytes, Attributes(unique));
  }

  method SupportedVideoRecordingConfig(attributes: seq<Attribute>) returns (raw: bytes)
    ensures raw == Config(RECORDING_PARAMS, attributes)
  {
    hide WriteAll;
    var params := new Writer();
    WriteThreeChoices(params, PROFILE);
    WriteThreeChoices(params, LEVEL);
    assert params.items == RECORDING_PARAMS;
    var paramBytes := params.Build();
    raw := WriteCodecConfig(RECORDING_PARAMS, paramBytes, attributes);
  }

  // --- Reading an advertised configuration ---

  function ReadAttribute(value: bytes): Option<Attribute> {
    var items := Parsed(value);
    var width, height, fps := FindU16(items, 1), FindU16(items, 2), FindU8(items, 3);
    if width.None? || height.None? || fps.None? then None
    else Some(Attribute(width.value, height.value, fps.value))
  }

  /** Every item of tag 3, in order. */
  function ReadAttributes(items: seq<Item>): Option<seq<Attribute>> {
    if items == [] then Some([])
    else
      var more := ReadAttributes(items[1..]);
      if items[0].tag != 3 || more.None? then more
      else
        var a := ReadAttribute(items[0].value);
        if a.None? then None else Some([a.value] + more.value)
  }

  function ReadConfig(raw: bytes): Option<seq<Attribute>> {
    var codec := Find(Parsed(raw), 1);
    if codec.None? then None else ReadAttributes(Parsed(codec.value))
  }

  lemma AttributeReads(a: Attribute)
    ensures ReadAttribute(WriteAll(AttributeItems(a))) == Some(a)
    ensures |WriteAll(AttributeItems(a))| < 255
  {
    hide WriteAll, Parsed, Separated, FromLe, Le;
    var items := AttributeItems(a);
    BoundedLength(items, 2);
    ShortIsSeparated(items);
    ReadsBackExactly(items);
    FromLeOfLe(a.width, 2);
    FromLeOfLe(a.height, 2);
    assert items[1..] == [items[1], items[2]] && items[1..][1..] == [items[2]];
    assert Pow256(2) == 65536;
  }

  lemma ReadOne(item: Item)
    requires item.tag == 3 ==> ReadAttribute(item.value).Some?
    ensures ReadAttributes([item]) == Some(if item.tag == 3 then [ReadAttribute(item.value).value] else [])
  {
    hide ReadAttribute;
    assert [item][1..] == [];
    if item.tag == 3 { Unit([ReadAttribute(item.value).value]); }
  }

  lemma {:induction false} ReadAppend(a: seq<Item>, b: seq<Item>)
    requires ReadAttributes(a).Some? && ReadAttributes(b).Some?
    ensures ReadAttributes(a + b) == Some(ReadAttributes(a).value + ReadAttributes(b).value)
  {
    hide ReadAttribute;
    if a == [] {
      Unit(b);
      Unit(ReadAttributes(b).value);
    } else {
      ReadAppend(a[1..], b);
      assert (a + b)[1..] == a[1..] + b;
      var more := ReadAttributes(a[1..]).value;
      if a[0].tag == 3 {
        Assoc([ReadAttribute(a[0].value).value], more, ReadAttributes(b).value);
      }
    }
  }

  lemma {:induction false} ListReads(attributes: seq<Attribute>)
    ensures ReadAttributes(AttributeList(attributes)) == Some(attributes)
    ensures AllShort(AttributeList(attributes))
  {
    hide WriteAll, ReadAttribute, ReadAttributes, AttributeItems, AllShort;
    if attributes == [] {
      NothingReads();
    } else {
      var n := |attributes| - 1;
      var list := AttributeList(attributes[..n]);
      var delimiter := if n > 0 then [DELIMITER] else [];
      var last := Item(3, WriteAll(AttributeItems(attributes[n])));
      ListReads(attributes[..n]);
      AttributeReads(attributes[n]);
      NothingReads();
      ReadOne(DELIMITER);
      ReadOne(last);
      ReadAppend(list, delimiter);
      Unit(attributes[..n]);
      ReadAppend(list + delimiter, [last]);
      OneShort(DELIMITER);
      OneShort(last);
      ShortAppend(list, delimiter);
      ShortAppend(list + delimiter, [last]);
      assert attributes == attributes[..n] + [attributes[n]];
    }
  }

  lemma NothingReads()
    ensures ReadAttributes([]) == Some([]) && AllShort([])
  {
  }

  lemma OneShort(item: Item)
    requires |item.value| < FRAGMENT
    ensures AllShort([item])
  {
  }

  lemma ShortAppend(a: seq<Item>, b: seq<Item>)
    requires AllShort(a) && AllShort(b)
    ensures AllShort(a + b)
  {
  }

  lemma CodecItemsRead(params: seq<Item>, attributes: seq<Attribute>)
    requires |WriteAll(params)| < 255
    ensures ReadAttributes(CodecItems(params, attributes)) == Some(attributes)
    ensures Separated(CodecItems(params, attributes))
  {
    hide ReadAttribute, AttributeList, WriteAll, ReadAttributes, Separated, AllShort;
    var type_, param := Item(1, [0]), Item(2, WriteAll(params));
    ListReads(attributes);
    ReadOne(type_);
    ReadOne(param);
    ReadAppend([type_], [param]);
    Unit<Attribute>([]);
    ReadAppend([type_] + [param], AttributeList(attributes));
    Unit(attributes);
    assert [] + attributes == attributes;
    assert [type_] + [param] == [type_, param];
    OneShort(type_);
    OneShort(param);
    ShortAppend([type_], [param]);
    ShortAppend([type_] + [param], AttributeList(attributes));
    ShortIsSeparated(CodecItems(params, attributes));
  }

  /** However many attributes there are, and however many fragments the container takes: all of them come
      out again, in order. */
  lemma ConfigReads(params: seq<Item>, attributes: seq<Attribute>)
    requires |WriteAll(params)| < 255
    ensures ReadConfig(Config(params, attributes)) == Some(attributes)
  {
    hide WriteAll, Parsed, ReadAttributes, CodecItems, Separated;
    CodecItemsRead(params, attributes);
    ReadsBackExactly(CodecItems(params, attributes));
    var codec := Item(1, WriteAll(CodecItems(params, attributes)));
    OneIsSeparated(codec);
    ReadsBackExactly([codec]);
    assert Find([codec], 1) == Some(codec.value);
  }

  lemma ParamsAreShort()
    ensures |WriteAll(LIVE_PARAMS)| < 255 && |WriteAll(RECORDING_PARAMS)| < 255
  {
    hide WriteAll;
    BoundedLength(LIVE_PARAMS, 2);
    BoundedLength(RECORDING_PARAMS, 2);
  }

  /** A controller reads the first occurrence of every size and rate, in order, whatever the profiles. */
  lemma LiveConfigReads(profiles: seq<Profile>)
    ensures ReadConfig(Config(LIVE_PARAMS, FirstOccurrences(Attributes(profiles))))
         == Some(FirstOccurrences(Attributes(profiles)))
  {
    ParamsAreShort();
    ConfigReads(LIVE_PARAMS, FirstOccurrences(Attributes(profiles)));
  }

  lemma RecordingConfigReads(attributes: seq<Attribute>)
    ensures ReadConfig(Config(RECORDING_PARAMS, attributes)) == Some(attributes)
  {
    ParamsAreShort();
    ConfigReads(RECORDING_PARAMS, attributes);
  }
}
