/** The record layer of an encrypted HAP session (hap/src/transport/tcp.rs:340-366, 585-601, 644-713). */
module HapRecords {
  import opened Wrappers
  import opened Bytes
  import opened Aead
  import opened Framed

  const MAX_RECORD: nat := 1024

  datatype RecordError = RecordTooLong(len: nat) | DecryptionFailed

  /** Length field, ciphertext and tag; the length is also the associated data. */
  function SealedRecord(c: Cipher, key: bytes, counter: nat, chunk: bytes): bytes {
    Le(|chunk|, 2) + c.seal(key, NonceFor(counter), Le(|chunk|, 2), chunk)
  }

  function RecordLen(buf: bytes): (r: Result<Option<nat>, RecordError>)
    ensures r.Ok? && r.value.Some? ==> 2 + TAG_LEN <= r.value.value <= |buf|
  {
    if |buf| < 2 then Ok(None)
    else
      var len := FromLe(buf[..2]);
      if len > MAX_RECORD then Err(RecordTooLong(len))
      else if |buf| < 2 + len + TAG_LEN then Ok(None)
      else Ok(Some(2 + len + TAG_LEN))
  }

  function OpenRecord(c: Cipher, key: bytes, counter: nat, record: bytes): Result<bytes, RecordError>
  {
    if |record| < 2 then Err(DecryptionFailed)
    else
      match c.open(key, NonceFor(counter), record[..2], record[2..])
      case None => Err(DecryptionFailed)
      case Some(plain) => Ok(plain)
  }

  function HapFraming(c: Cipher, key: bytes): (f: Framing<RecordError>)
    ensures Sound(f)
  {
    var f := Framing(buf => RecordLen(buf), (n: nat, record: bytes) => OpenRecord(c, key, n, record),
                     (n: nat, p: bytes) => None);
    assert Sound(f) by { BoundariesStable(); }
    f
  }

  lemma BoundariesStable()
    ensures forall a, b :: RecordLen(a) != Ok(None) ==> RecordLen(a + b) == RecordLen(a)
  {
    forall a: bytes, b: bytes
      ensures RecordLen(a) != Ok(None) ==> RecordLen(a + b) == RecordLen(a)
    {
      if |a| >= 2 { assert (a + b)[..2] == a[..2]; }
    }
  }

  function HapSeal(c: Cipher, key: bytes): (nat, bytes) -> bytes {
    (n: nat, p: bytes) => SealedRecord(c, key, n, p)
  }

  ghost predicate RecordSized(chunks: seq<bytes>) {
    forall p :: p in chunks ==> |p| <= MAX_RECORD
  }

  lemma RecordFound(c: Cipher, key: bytes, counter: nat, p: bytes, tail: bytes)
    requires Lawful(c) && |p| <= MAX_RECORD
    ensures var record := SealedRecord(c, key, counter, p);
      && RecordLen(record + tail) == Ok(Some(|record|))
      && OpenRecord(c, key, counter, record) == Ok(p)
  {
    hide Le, FromLe, NonceFor;
    var len := Le(|p|, 2);
    var sealed := c.seal(key, NonceFor(counter), len, p);
    var record := len + sealed;
    assert Pow256(2) == 0x1_0000;
    FromLeOfLe(|p|, 2);
    assert (record + tail)[..2] == len;
    assert record[..2] == len && record[2..] == sealed;
    assert c.open(key, NonceFor(counter), len, sealed) == Some(p);
  }

  /** On the wire: the length in two bytes, least significant first, and the text sealed with those as associated data. */
  lemma RecordLayout(c: Cipher, key: bytes, counter: nat, chunk: bytes)
    requires |chunk| <= 1024
    ensures var len: bytes := [(|chunk| % 256) as byte, (|chunk| / 256) as byte];
      && SealedRecord(c, key, counter, chunk) == len + c.seal(key, NonceFor(counter), len, chunk)
      && (Lawful(c) ==> |SealedRecord(c, key, counter, chunk)| == 2 + |chunk| + 16)
  {
    hide Le, NonceFor;
    TwoBytes(|chunk|);
  }

  lemma RecordBoundaryExactly(buf: bytes)
    ensures |buf| < 2 ==> RecordLen(buf) == Ok(None)
    ensures |buf| >= 2 ==>
      var len := buf[0] as int + 256 * buf[1] as int;
      RecordLen(buf) == if len > 1024 then Err(RecordTooLong(len))
                        else if |buf| < len + 18 then Ok(None) else Ok(Some(len + 18))
  {
    if |buf| >= 2 {
      assert buf[..2][1..] == [buf[1]] && [buf[1]][1..] == [];
      assert FromLe([buf[1]]) == buf[1] as int;
    }
  }

  /** An item goes out in records of 1024 bytes, but for the last. */
  lemma RecordsAreFull(item: bytes, i: nat)
    requires i < |Chunks(item, MAX_RECORD)|
    ensures if i + 1 < |Chunks(item, MAX_RECORD)| then |Chunks(item, MAX_RECORD)[i]| == 1024
            else 0 < |Chunks(item, MAX_RECORD)[i]| <= 1024
  {
    hide Chunks;
    ChunksBounded(item, MAX_RECORD);
    if i + 1 < |Chunks(item, MAX_RECORD)| { ChunksFull(item, MAX_RECORD, i); }
  }

  lemma RecordsOpen(c: Cipher, key: bytes, chunks: seq<bytes>)
    requires Lawful(c) && RecordSized(chunks)
    ensures Opened(HapFraming(c, key), HapSeal(c, key), chunks) && Welcome(HapFraming(c, key), 0, chunks)
    ensures HapFraming(c, key).boundary([]) == Ok(None)
  {
    hide Lawful, Sound, SealedRecord, RecordLen, OpenRecord;
    forall p, counter: nat | p in chunks
      ensures OpensAgain(HapFraming(c, key), HapSeal(c, key), counter, p)
    {
      RecordFound(c, key, counter, p, []);
      forall tail: bytes
        ensures RecordLen(SealedRecord(c, key, counter, p) + tail) == Ok(Some(|SealedRecord(c, key, counter, p)|))
      {
        RecordFound(c, key, counter, p, tail);
      }
    }
    EmptyBuffer();
  }

  lemma EmptyBuffer()
    ensures RecordLen([]) == Ok(None)
  {
  }

  // --- Queue items as records ---

  /** The records of a run of queue items: each item is cut into chunks of 1024 bytes of its own. */
  function RecordChunks(items: seq<bytes>): seq<bytes> {
    if items == [] then [] else Chunks(items[0], MAX_RECORD) + RecordChunks(items[1..])
  }

  lemma {:induction false} RecordChunksAppend(a: seq<bytes>, b: seq<bytes>)
    ensures RecordChunks(a + b) == RecordChunks(a) + RecordChunks(b)
  {
    hide Chunks;
    if a == [] {
      Unit(b);
      Unit(RecordChunks(b));
    } else {
      RecordChunksAppend(a[1..], b);
      assert (a + b)[1..] == a[1..] + b;
      Assoc(Chunks(a[0], MAX_RECORD), RecordChunks(a[1..]), RecordChunks(b));
    }
  }

  lemma {:induction false} RecordChunksKeepBytes(items: seq<bytes>)
    ensures Flatten(RecordChunks(items)) == Flatten(items) && RecordSized(RecordChunks(items))
  {
    hide Chunks;
    if items != [] {
      ChunksFlatten(items[0], MAX_RECORD);
      ChunksBounded(items[0], MAX_RECORD);
      RecordChunksKeepBytes(items[1..]);
      FlattenAppend(Chunks(items[0], MAX_RECORD), RecordChunks(items[1..]));
    }
  }

  /** Everything a session puts on the wire for its queue items. */
  function Wire(c: Cipher, key: bytes, items: seq<bytes>): bytes {
    Records(HapSeal(c, key), 0, RecordChunks(items))
  }

  lemma WireAppend(c: Cipher, key: bytes, a: seq<bytes>, b: seq<bytes>)
    ensures Wire(c, key, a + b)
         == Wire(c, key, a) + Records(HapSeal(c, key), |RecordChunks(a)|, RecordChunks(b))
    ensures |RecordChunks(a + b)| == |RecordChunks(a)| + |RecordChunks(b)|
  {
    hide RecordChunks, Records;
    RecordChunksAppend(a, b);
    RecordsAppend(HapSeal(c, key), 0, RecordChunks(a), RecordChunks(b));
  }

  lemma OneItem(item: bytes)
    ensures RecordChunks([item]) == Chunks(item, MAX_RECORD)
  {
    hide Chunks;
    assert [item][1..] == [];
    Unit(Chunks(item, MAX_RECORD));
  }

  /** A prefix of the records opens to a prefix of the items' bytes, without an error. */
  lemma PrefixOpens(c: Cipher, key: bytes, items: seq<bytes>, got: bytes)
    requires Lawful(c) && got <= Wire(c, key, items)
    ensures var d := Drain(HapFraming(c, key), 0, got);
      && d.error.None? && d.payloads <= RecordChunks(items)
      && Flatten(d.payloads) <= Flatten(items)
      && (got == Wire(c, key, items) ==> Flatten(d.payloads) == Flatten(items) && d.rest == [])
  {
    hide Lawful, Sound, Opened, Records, Drain, RecordChunks, RecordSized;
    var chunks := RecordChunks(items);
    var later := Wire(c, key, items)[|got|..];
    assert got + later == Wire(c, key, items);
    RecordChunksKeepBytes(items);
    RecordsOpen(c, key, chunks);
    PrefixDrains(HapFraming(c, key), HapSeal(c, key), 0, chunks, got, later);
    WholeDrains(HapFraming(c, key), HapSeal(c, key), 0, chunks);
    PrefixFlattens(Drain(HapFraming(c, key), 0, got).payloads, chunks);
  }

  lemma PrefixFlattens(a: seq<bytes>, b: seq<bytes>)
    requires a <= b
    ensures Flatten(a) <= Flatten(b)
  {
    hide Flatten;
    FlattenAppend(a, b[|a|..]);
    assert a + b[|a|..] == b;
  }
}
