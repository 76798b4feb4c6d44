/**
  ChaCha20-Poly1305 (section 2.8 of RFC 8439) as an abstract cipher: only its lengths and the fact
  that opening undoes sealing are used.
 */
module Aead {
  import opened Wrappers
  import opened Bytes

  const TAG_LEN: nat := 16

  /** `seal` and `open` take key, nonce, associated data and text; a sealed text ends with its tag. */
  datatype Cipher = Cipher(
    seal: (bytes, bytes, bytes, bytes) -> bytes,
    open: (bytes, bytes, bytes, bytes) -> Option<bytes>)

  ghost predicate Lawful(c: Cipher) {
    && (forall k, n, a, p :: |c.seal(k, n, a, p)| == |p| + TAG_LEN)
    && (forall k, n, a, p :: c.open(k, n, a, c.seal(k, n, a, p)) == Some(p))
  }

  /** The 12-byte nonce of a frame: four zero bytes and the 64-bit counter, which wraps. */
  function NonceFor(counter: nat): bytes {
    [0, 0, 0, 0] + Le(counter, 8)
  }

  /** No two counters of a session share a nonce before the 64-bit counter wraps. */
  lemma NoncesDiffer(a: nat, b: nat)
    requires a < 0x1_0000_0000_0000_0000 && b < 0x1_0000_0000_0000_0000
    requires NonceFor(a) == NonceFor(b)
    ensures a == b
  {
    hide Le;
    assert Pow256(8) == 0x1_0000_0000_0000_0000;
    assert NonceFor(a)[4..] == Le(a, 8) && NonceFor(b)[4..] == Le(b, 8);
    LeInjective(a, b, 8);
  }

  /** Twelve bytes: four zeros, then the counter, least significant byte first (section 2.3 of RFC 8439). */
  lemma NonceLayout(n: nat)
    requires n < 0x1_0000_0000_0000_0000
    ensures var nonce := NonceFor(n);
      && |nonce| == 12 && nonce[..4] == [0, 0, 0, 0] && FromLe(nonce[4..]) == n
      && forall k :: 0 <= k < 8 ==> nonce[4 + k] as int == n / Pow256(k) % 256
  {
    hide Le, FromLe, Pow256;
    Powers();
    FromLeOfLe(n, 8);
    assert NonceFor(n)[4..] == Le(n, 8);
    forall k | 0 <= k < 8 ensures NonceFor(n)[4 + k] as int == n / Pow256(k) % 256 { LeByte(n, 8, k); }
  }

  /** The laws can be met: a cipher that only appends a constant tag satisfies them. */
  lemma LawsAreConsistent()
    ensures exists c :: Lawful(c)
  {
    var tag: bytes := seq(TAG_LEN, i => 0);
    var seal := (k: bytes, n: bytes, a: bytes, p: bytes) => p + tag;
    var open := (k: bytes, n: bytes, a: bytes, s: bytes) =>
      if |s| < TAG_LEN then None else Some(s[..|s| - TAG_LEN]);
    var c := Cipher(seal, open);
    forall k: bytes, n: bytes, a: bytes, p: bytes
      ensures c.open(k, n, a, c.seal(k, n, a, p)) == Some(p)
    {
      assert (p + tag)[..|p|] == p;
    }
    assert Lawful(c);
  }
}
