/**
  Reading the recording configuration a controller has selected (src/hsv/recording.rs:428-475).
 */
module RecordingConfig {
  import opened Wrappers
  import opened Bytes
  import opened Tlv8

  datatype Selected = Selected(
    raw: bytes,
    prebufferMs: nat, fragmentMs: nat,
    width: nat, height: nat, fps: byte,
    videoBitrateKbps: nat, iframeIntervalMs: nat,
    audioChannels: byte, audioSampleRate: byte, audioBitrateKbps: nat)

  const PREBUFFER_MS: nat := 4000
  const FRAGMENT_MS: nat := 4000

  function Zeros(n: nat): (r: bytes)
    ensures |r| == n
  {
    if n == 0 then [] else [0 as byte] + Zeros(n - 1)
  }

  /** At most the first four bytes, into a zeroed buffer of four. */
  function ReadU32(items: seq<Item>, tag: byte): Option<nat> {
    var v := Find(items, tag);
    if v.None? then None
    else
      var n := if |v.value| < 4 then |v.value| else 4;
      Some(FromLe(v.value[..n] + Zeros(4 - n)))
  }

  function OrElse<T>(o: Option<T>, default_: T): T {
    if o.Some? then o.value else default_
  }

  /** A nested container; an absent one reads as empty. */
  function Nested(items: seq<Item>, tag: byte): seq<Item> {
    Parsed(OrElse(Find(items, tag), []))
  }

  function ParseSelected(raw: bytes): Option<Selected> {
    var items := Parsed(raw);
    if Find(items, 1).None? then None
    else
      var general := Nested(items, 1);
      var prebufferMs := OrElse(ReadU32(general, 1), PREBUFFER_MS);
      var container := Nested(general, 3);
      var fragmentMs := OrElse(ReadU32(Nested(container, 2), 1), FRAGMENT_MS);
      if Find(items, 2).None? then None
      else
        var video := Nested(items, 2);
        var videoParams := Nested(video, 2);
        var attributes := Nested(video, 3);
        var audioParams := Nested(Nested(Nested(items, 3), 1), 2);
        Some(Selected(
          raw, prebufferMs, fragmentMs,
          OrElse(FindU16(attributes, 1), 1920), OrElse(FindU16(attributes, 2), 1080), OrElse(FindU8(attributes, 3), 15),
          OrElse(ReadU32(videoParams, 3), 2000), OrElse(ReadU32(videoParams, 4), fragmentMs),
          OrElse(FindU8(audioParams, 1), 1), OrElse(FindU8(audioParams, 3), 5), OrElse(ReadU32(audioParams, 4), 64)))
  }

  // --- What a controller sends ---

  /** An integer in as many bytes as the controller likes. */
  datatype Number = Number(value: u32, width: nat)

  predicate Fits(n: Number) {
    n.width <= 8 && n.value < Pow256(n.width)
  }

  function Field(tag: byte, n: Number): Item {
    Item(tag, Le(n.value, n.width))
  }

  datatype Choice = Choice(
    prebufferMs: Number, triggers: bytes, fragmentMs: Number,
    profile: byte, level: byte, videoBitrateKbps: Number, iframeIntervalMs: Number,
    width: u16, height: u16, fps: byte,
    audioChannels: byte, audioMode: byte, audioSampleRate: byte, audioBitrateKbps: Number)

  predicate Sendable(c: Choice) {
    && Fits(c.prebufferMs) && Fits(c.fragmentMs) && Fits(c.videoBitrateKbps)
    && Fits(c.iframeIntervalMs) && Fits(c.audioBitrateKbps) && |c.triggers| <= 8
  }

  function Container(c: Choice): seq<Item> {
    [Item(1, [0]), Item(2, WriteAll([Field(1, c.fragmentMs)]))]
  }

  function General(c: Choice): seq<Item> {
    [Field(1, c.prebufferMs), Item(2, c.triggers), Item(3, WriteAll(Container(c)))]
  }

  function VideoParams(c: Choice): seq<Item> {
    [Item(1, [c.profile]), Item(2, [c.level]), Field(3, c.videoBitrateKbps), Field(4, c.iframeIntervalMs)]
  }

  function VideoAttributes(c: Choice): seq<Item> {
    [Item(1, Le(c.width, 2)), Item(2, Le(c.height, 2)), Item(3, [c.fps])]
  }

  function Video(c: Choice): seq<Item> {
    [Item(1, [0]), Item(2, WriteAll(VideoParams(c))), Item(3, WriteAll(VideoAttributes(c)))]
  }

  function AudioParams(c: Choice): seq<Item> {
    [Item(1, [c.audioChannels]), Item(2, [c.audioMode]), Item(3, [c.audioSampleRate]), Field(4, c.audioBitrateKbps)]
  }

  function AudioCodec(c: Choice): seq<Item> {
    [Item(1, [0]), Item(2, WriteAll(AudioParams(c)))]
  }

  function Audio(c: Choice): seq<Item> {
    [Item(1, WriteAll(AudioCodec(c)))]
  }

  function Root(c: Choice): seq<Item> {
    [Item(1, WriteAll(General(c))), Item(2, WriteAll(Video(c))), Item(3, WriteAll(Audio(c)))]
  }

  // --- Reading it back ---

  lemma {:induction false} ZerosReadZero(n: nat)
    ensures FromLe(Zeros(n)) == 0
  {
    if n > 0 {
      ZerosReadZero(n - 1);
      assert Zeros(n)[1..] == Zeros(n - 1);
    }
  }

  lemma {:induction false} PaddingAddsNothing(a: bytes, n: nat)
    ensures FromLe(a + Zeros(n)) == FromLe(a)
  {
    hide Zeros;
    if a != [] {
      PaddingAddsNothing(a[1..], n);
      assert (a + Zeros(n))[1..] == a[1..] + Zeros(n);
    } else {
      Unit(Zeros(n));
      ZerosReadZero(n);
    }
  }

  /** Fewer than four bytes stand for themselves, of more the first four count. */
  lemma BytesRead(items: seq<Item>, tag: byte, v: bytes)
    requires Find(items, tag) == Some(v)
    ensures ReadU32(items, tag) == Some(FromLe(if |v| <= 4 then v else v[..4]))
  {
    hide Find, FromLe, Zeros;
    PaddingAddsNothing(if |v| <= 4 then v else v[..4], if |v| <= 4 then 4 - |v| else 0);
    if |v| <= 4 { assert v[..|v|] == v; }
  }

  /** Short or long, a number is read for what it is. */
  lemma NumberReads(items: seq<Item>, tag: byte, n: Number)
    requires Fits(n) && Find(items, tag) == Some(Le(n.value, n.width))
    ensures ReadU32(items, tag) == Some(n.value as nat)
  {
    hide Find, FromLe, Zeros, Le;
    var v := Le(n.value, n.width);
    var k := if n.width < 4 then n.width else 4;
    PaddingAddsNothing(v[..k], 4 - k);
    assert n.value < Pow256(4) by { assert Pow256(2) == 65536; assert Pow256(4) == 0x1_0000_0000; }
    LePrefix(n.value, n.width, k);
    FromLeOfLe(n.value, k);
  }

  /** A container of short values reads back, and is itself of bounded size. */
  lemma ContainerReads(items: seq<Item>, m: nat)
    requires m < FRAGMENT && forall item :: item in items ==> |item.value| <= m
    ensures Parsed(WriteAll(items)) == items && |WriteAll(items)| <= (m + 2) * |items|
  {
    hide Parsed, WriteAll, Separated;
    ShortIsSeparated(items);
    ReadsBackExactly(items);
    BoundedLength(items, m);
  }

  /** An item is found by its tag if no earlier one has it. */
  lemma ItemFound(items: seq<Item>, i: nat)
    requires i < |items| && forall j :: 0 <= j < i ==> items[j].tag != items[i].tag
    ensures Find(items, items[i].tag) == Some(items[i].value)
  {
  }

  lemma NestedReads(items: seq<Item>, i: nat, inner: seq<Item>)
    requires i < |items| && forall j :: 0 <= j < i ==> items[j].tag != items[i].tag
    requires items[i].value == WriteAll(inner) && Parsed(WriteAll(inner)) == inner
    ensures Nested(items, items[i].tag) == inner
  {
    hide Parsed, WriteAll;
    ItemFound(items, i);
  }

  lemma ContainerReadsBack(c: Choice)
    requires Sendable(c)
    ensures Parsed(WriteAll(Container(c))) == Container(c) && |WriteAll(Container(c))| <= 24
    ensures ReadU32(Nested(Container(c), 2), 1) == Some(c.fragmentMs.value as nat)
  {
    hide Parsed, WriteAll, Le, Pow256, ReadU32, Nested, Find;
    var params := [Field(1, c.fragmentMs)];
    ContainerReads(params, 8);
    ContainerReads(Container(c), 10);
    NestedReads(Container(c), 1, params);
    ItemFound(params, 0);
    NumberReads(params, 1, c.fragmentMs);
  }

  lemma GeneralReadsBack(c: Choice)
    requires Sendable(c)
    ensures Parsed(WriteAll(General(c))) == General(c) && |WriteAll(General(c))| <= 100
    ensures ReadU32(General(c), 1) == Some(c.prebufferMs.value as nat)
    ensures Nested(General(c), 3) == Container(c)
  {
    hide Parsed, WriteAll, Le, Pow256, ReadU32, Nested, Find, Container;
    ContainerReadsBack(c);
    ContainerReads(General(c), 24);
    NestedReads(General(c), 2, Container(c));
    ItemFound(General(c), 0);
    NumberReads(General(c), 1, c.prebufferMs);
  }

  lemma VideoParamsReadBack(c: Choice)
    requires Sendable(c)
    ensures Parsed(WriteAll(VideoParams(c))) == VideoParams(c) && |WriteAll(VideoParams(c))| <= 40
    ensures ReadU32(VideoParams(c), 3) == Some(c.videoBitrateKbps.value as nat)
    ensures ReadU32(VideoParams(c), 4) == Some(c.iframeIntervalMs.value as nat)
  {
    hide Parsed, WriteAll, Le, Pow256, ReadU32, Find;
    ContainerReads(VideoParams(c), 8);
    ItemFound(VideoParams(c), 2);
    ItemFound(VideoParams(c), 3);
    NumberReads(VideoParams(c), 3, c.videoBitrateKbps);
    NumberReads(VideoParams(c), 4, c.iframeIntervalMs);
  }

  lemma VideoAttributesReadBack(c: Choice)
    ensures Parsed(WriteAll(VideoAttributes(c))) == VideoAttributes(c) && |WriteAll(VideoAttributes(c))| <= 12
    ensures FindU16(VideoAttributes(c), 1) == Some(c.width as nat)
    ensures FindU16(VideoAttributes(c), 2) == Some(c.height as nat)
    ensures FindU8(VideoAttributes(c), 3) == Some(c.fps)
  {
    hide Parsed, WriteAll, Le, FromLe, Find;
    var items := VideoAttributes(c);
    ContainerReads(items, 2);
    ItemFound(items, 0);
    ItemFound(items, 1);
    ItemFound(items, 2);
    FromLeOfLe(c.width, 2);
    FromLeOfLe(c.height, 2);
  }

  lemma VideoContainerReads(c: Choice)
    requires Sendable(c)
    ensures Parsed(WriteAll(Video(c))) == Video(c) && |WriteAll(Video(c))| <= 126
  {
    hide Parsed, WriteAll, VideoParams, VideoAttributes, Sendable;
    VideoParamsReadBack(c);
    VideoAttributesReadBack(c);
    ContainerReads(Video(c), 40);
  }

  lemma VideoReadsBack(c: Choice)
    requires Sendable(c)
    ensures Nested(Video(c), 2) == VideoParams(c) && Nested(Video(c), 3) == VideoAttributes(c)
  {
    hide Parsed, WriteAll, Nested, VideoParams, VideoAttributes, Sendable;
    VideoParamsReadBack(c);
    VideoAttributesReadBack(c);
    NestedReads(Video(c), 1, VideoParams(c));
    NestedReads(Video(c), 2, VideoAttributes(c));
  }

  lemma AudioParamsReadBack(c: Choice)
    requires Sendable(c)
    ensures Parsed(WriteAll(AudioParams(c))) == AudioParams(c) && |WriteAll(AudioParams(c))| <= 40
    ensures FindU8(AudioParams(c), 1) == Some(c.audioChannels)
    ensures FindU8(AudioParams(c), 3) == Some(c.audioSampleRate)
    ensures ReadU32(AudioParams(c), 4) == Some(c.audioBitrateKbps.value as nat)
  {
    hide Parsed, WriteAll, Le, Pow256, ReadU32, Find;
    var items := AudioParams(c);
    ContainerReads(items, 8);
    ItemFound(items, 0);
    ItemFound(items, 2);
    ItemFound(items, 3);
    NumberReads(items, 4, c.audioBitrateKbps);
  }

  lemma AudioReadsBack(c: Choice)
    requires Sendable(c)
    ensures Parsed(WriteAll(Audio(c))) == Audio(c) && |WriteAll(Audio(c))| <= 86
    ensures Nested(Nested(Audio(c), 1), 2) == AudioParams(c)
  {
    hide Parsed, WriteAll, Nested, AudioParams;
    AudioParamsReadBack(c);
    ContainerReads(AudioCodec(c), 40);
    ContainerReads(Audio(c), 84);
    NestedReads(AudioCodec(c), 1, AudioParams(c));
    NestedReads(Audio(c), 0, AudioCodec(c));
  }

  function ChosenBy(c: Choice, raw: bytes): Selected {
    Selected(raw, c.prebufferMs.value, c.fragmentMs.value, c.width, c.height, c.fps,
             c.videoBitrateKbps.value, c.iframeIntervalMs.value,
             c.audioChannels, c.audioSampleRate, c.audioBitrateKbps.value)
  }

  /** Every field of the controller's choice arrives, in however many bytes each number was sent. */
  lemma SelectionReads(c: Choice)
    requires Sendable(c)
    ensures ParseSelected(WriteAll(Root(c))) == Some(ChosenBy(c, WriteAll(Root(c))))
  {
    hide Parsed, WriteAll, Nested, ReadU32, FindU16, FindU8, Find, General, Container, Video, VideoParams, VideoAttributes,
         Audio, AudioParams;
    GeneralReadsBack(c);
    ContainerReadsBack(c);
    VideoContainerReads(c);
    VideoReadsBack(c);
    VideoParamsReadBack(c);
    VideoAttributesReadBack(c);
    AudioReadsBack(c);
    AudioParamsReadBack(c);
    var root := Root(c);
    ContainerReads(root, 126);
    ItemFound(root, 0);
    ItemFound(root, 1);
    NestedReads(root, 0, General(c));
    NestedReads(root, 1, Video(c));
    NestedReads(root, 2, Audio(c));
  }

  // --- And where something is missing ---

  lemma NothingParsed()
    ensures Parsed([]) == [] && forall tag: byte :: Find([], tag) == None
  {
  }

  lemma OneReads(tag: byte, value: bytes)
    ensures Parsed(WriteAll([Item(tag, value)])) == [Item(tag, value)]
    ensures Find([Item(tag, value)], tag) == Some(value) && forall t: byte :: t != tag ==> Find([Item(tag, value)], t) == None
  {
    hide Parsed, WriteAll;
    ReadsBackExactly([Item(tag, value)]);
  }

  /** What a controller that chooses a fragment length, and nothing else, gets: 4 s of prebuffer, 1080p at 15 frames and 2000
      kbit/s with a keyframe every fragment, and one channel at 48 kHz and 64 kbit/s. */
  lemma DefaultsApply(fragment: Number)
    requires Fits(fragment)
    ensures var general := WriteAll([Item(3, WriteAll([Item(2, WriteAll([Field(1, fragment)]))]))]);
      var raw := WriteAll([Item(1, general), Item(2, [])]);
      ParseSelected(raw) == Some(Selected(raw, 4000, fragment.value, 1920, 1080, 15, 2000, fragment.value, 1, 5, 64))
  {
    hide Parsed, WriteAll, Find, Le, ReadU32;
    var params := [Field(1, fragment)];
    var container := [Item(2, WriteAll(params))];
    var general := [Item(3, WriteAll(container))];
    var root := [Item(1, WriteAll(general)), Item(2, [])];
    NothingParsed();
    OneReads(1, Le(fragment.value, fragment.width));
    OneReads(2, WriteAll(params));
    OneReads(3, WriteAll(container));
    NumberReads(params, 1, fragment);
    NotThere(general, 1);
    TwoRead(WriteAll(general), []);
    NothingRead();
  }

  /** And the fragments are 4 s long if it does not even choose that. */
  lemma NothingChosen()
    ensures var raw := WriteAll([Item(1, []), Item(2, [])]);
      ParseSelected(raw) == Some(Selected(raw, 4000, 4000, 1920, 1080, 15, 2000, 4000, 1, 5, 64))
  {
    hide Parsed, WriteAll, Find, ReadU32;
    NothingParsed();
    TwoRead([], []);
    NothingRead();
  }

  /** Without a general part or without a video part there is no selection. */
  lemma BothPartsNeeded(items: seq<Item>)
    requires Separated(items) && ((forall item :: item in items ==> item.tag != 1) || (forall item :: item in items ==> item.tag != 2))
    ensures ParseSelected(WriteAll(items)) == None
  {
    hide Parsed, WriteAll, ReadU32, Nested;
    ReadsBackExactly(items);
  }

  lemma NotThere(items: seq<Item>, tag: byte)
    requires Find(items, tag).None?
    ensures ReadU32(items, tag) == None
  {
  }

  lemma NothingRead()
    ensures forall tag: byte :: ReadU32([], tag) == None && FindU8([], tag) == None && FindU16([], tag) == None
  {
  }

  lemma TwoRead(a: bytes, b: bytes)
    ensures var items := [Item(1, a), Item(2, b)];
      && Parsed(WriteAll(items)) == items
      && Find(items, 1) == Some(a) && Find(items, 2) == Some(b) && Find(items, 3) == None
  {
    hide Parsed, WriteAll;
    var items := [Item(1, a), Item(2, b)];
    ReadsBackExactly(items);
    ItemFound(items, 0);
    ItemFound(items, 1);
  }
}
