/** The HomeKit Data Stream value model and its byte layout (src/hsv/codec.rs). */
module CodecValues {
  import opened Wrappers
  import opened Bytes

  type Bytes4 = s: bytes | |s| == 4 witness [0, 0, 0, 0]
  type Bytes8 = s: bytes | |s| == 8 witness [0, 0, 0, 0, 0, 0, 0, 0]
  type Bytes16 = s: bytes | |s| == 16 witness [0, 0, 0, 0, 0, 0, 0, 0, 0, 0, 0, 0, 0, 0, 0, 0]

  datatype Entry = Entry(key: bytes, value: Value)

  datatype Value =
    | Bool(b: bool)
    | Null
    | Int(i: i64)
    | Int64(i: i64)
    | Float(f: Bytes8)
    | String(s: bytes)
    | Data(d: bytes)
    | Array(items: seq<Value>)
    | Dict(entries: seq<Entry>)
    | Uuid(u: Bytes16)
    | Date(secs: Bytes8)
  {
    predicate IsLeaf() {
      !Array? && !Dict?
    }

    /** First entry of a dict with the given key; nothing for any other value. */
    function Get(key: bytes): Option<Value> {
      if Dict? then Find(entries, key) else None
    }
  }

  function Find(entries: seq<Entry>, key: bytes): Option<Value> {
    if entries == [] then None
    else if entries[0].key == key then Some(entries[0].value)
    else Find(entries[1..], key)
  }

  // --- Encoding ---

  /** The narrowest signed width that holds i. */
  function IntWidth(i: i64): (w: nat)
    ensures w in {1, 2, 4, 8}
    ensures 0 <= 2 * i + Pow256(w) && 2 * i < Pow256(w)
  {
    assert Pow256(1) == 0x100 && Pow256(2) == 0x1_0000;
    assert Pow256(4) == 0x1_0000_0000 && Pow256(8) == 0x1_0000_0000_0000_0000;
    if -0x80 <= i < 0x80 then 1
    else if -0x8000 <= i < 0x8000 then 2
    else if -0x8000_0000 <= i < 0x8000_0000 then 4
    else 8
  }

  function WidthTag(w: nat): byte {
    if w == 1 then 0x30 else if w == 2 then 0x31 else if w == 4 then 0x32 else 0x33
  }

  function EncodedInt(i: i64): bytes {
    if i == -1 then [0x07]
    else if 0 <= i <= 38 then [(0x08 + i) as byte]
    else
      var w := IntWidth(i);
      [WidthTag(w)] + Le(Unsigned(i, w), w)
  }

  function StringHeader(n: nat): bytes {
    if n <= 32 then [(0x40 + n) as byte]
    else if n <= 255 then [0x61, n as byte]
    else if n <= 65535 then [0x62] + Le(n, 2)
    else [0x63] + Le(n, 4)
  }

  function DataHeader(n: nat): bytes {
    if n <= 255 then [0x91, n as byte]
    else if n <= 65535 then [0x92] + Le(n, 2)
    else [0x93] + Le(n, 4)
  }

  function Encoded(v: Value): bytes
    decreases v, 1
  {
    match v
    case Bool(true) => [0x01]
    case Bool(false) => [0x02]
    case Null => [0x04]
    case Uuid(u) => [0x05] + u
    case Date(secs) => [0x06] + secs
    case Int(i) => EncodedInt(i)
    case Int64(i) => [0x33] + Le(Unsigned(i, 8), 8)
    case Float(f) => [0x36] + f
    case String(s) => StringHeader(|s|) + s
    case Data(d) => DataHeader(|d|) + d
    case Array(items) =>
      if |items| <= 12 then [(0xD0 + |items|) as byte] + EncodedItems(items)
      else [0xDF] + EncodedItems(items) + [0x03]
    case Dict(entries) =>
      if |entries| <= 14 then [(0xE0 + |entries|) as byte] + EncodedEntries(entries)
      else [0xEF] + EncodedEntries(entries) + [0x03]
  }

  function EncodedKey(key: bytes): bytes {
    StringHeader(|key|) + key
  }

  function EncodedItems(items: seq<Value>): bytes
    decreases items, 0
  {
    if items == [] then [] else Encoded(items[0]) + EncodedItems(items[1..])
  }

  function EncodedEntries(entries: seq<Entry>): bytes
    decreases entries, 0
  {
    if entries == [] then []
    else EncodedKey(entries[0].key) + Encoded(entries[0].value) + EncodedEntries(entries[1..])
  }

  // --- What a reader gets back ---

  /** Int64 only asks for the 8-byte form: it reads back as Int. */
  function Normal(v: Value): Value
    decreases v, 1
  {
    match v
    case Int64(i) => Int(i)
    case Array(items) => Array(NormalItems(items))
    case Dict(entries) => Dict(NormalEntries(entries))
    case _ => v
  }

  function NormalItems(items: seq<Value>): (r: seq<Value>)
    ensures |r| == |items|
    decreases items, 0
  {
    if items == [] then [] else [Normal(items[0])] + NormalItems(items[1..])
  }

  function NormalEntries(entries: seq<Entry>): (r: seq<Entry>)
    ensures |r| == |entries|
    decreases entries, 0
  {
    if entries == [] then []
    else [Entry(entries[0].key, Normal(entries[0].value))] + NormalEntries(entries[1..])
  }

  /** The scalars of a value in the order a reader meets them: dict keys count, containers do not. */
  function Leaves(v: Value): seq<Value>
    decreases v, 1
  {
    match v
    case Array(items) => LeavesOfItems(items)
    case Dict(entries) => LeavesOfEntries(entries)
    case _ => [Normal(v)]
  }

  function LeavesOfItems(items: seq<Value>): seq<Value>
    decreases items, 0
  {
    if items == [] then [] else Leaves(items[0]) + LeavesOfItems(items[1..])
  }

  function LeavesOfEntries(entries: seq<Entry>): seq<Value>
    decreases entries, 0
  {
    if entries == [] then []
    else [String(entries[0].key)] + Leaves(entries[0].value) + LeavesOfEntries(entries[1..])
  }

  /** Every string, dict key and data blob is at most `limit` bytes long. */
  predicate Fits(limit: nat, v: Value)
    decreases v, 1
  {
    match v
    case String(s) => |s| <= limit
    case Data(d) => |d| <= limit
    case Array(items) => ItemsFit(limit, items)
    case Dict(entries) => EntriesFit(limit, entries)
    case _ => true
  }

  predicate ItemsFit(limit: nat, items: seq<Value>)
    decreases items, 0
  {
    items == [] || (Fits(limit, items[0]) && ItemsFit(limit, items[1..]))
  }

  predicate EntriesFit(limit: nat, entries: seq<Entry>)
    decreases entries, 0
  {
    entries == []
    || (|entries[0].key| <= limit && Fits(limit, entries[0].value) && EntriesFit(limit, entries[1..]))
  }

  /** Nodes of a value: itself, its elements, its keys. */
  function Nodes(v: Value): nat
    decreases v, 1
  {
    match v
    case Array(items) => 1 + NodesOfItems(items)
    case Dict(entries) => 1 + NodesOfEntries(entries)
    case _ => 1
  }

  function NodesOfItems(items: seq<Value>): nat
    decreases items, 0
  {
    if items == [] then 0 else Nodes(items[0]) + NodesOfItems(items[1..])
  }

  function NodesOfEntries(entries: seq<Entry>): nat
    decreases entries, 0
  {
    if entries == [] then 0 else 1 + Nodes(entries[0].value) + NodesOfEntries(entries[1..])
  }
}
