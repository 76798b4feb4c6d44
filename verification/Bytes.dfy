/** Bytes, and the fixed-width integer layouts every wire format below is built from. */
module Bytes {
  newtype byte = x: int | 0 <= x < 256
  type bytes = seq<byte>

  type u16 = x: int | 0 <= x < 0x1_0000
  type u32 = x: int | 0 <= x < 0x1_0000_0000
  type i64 = x: int | -0x8000_0000_0000_0000 <= x < 0x8000_0000_0000_0000

  function Pow256(w: nat): (p: nat)
    ensures p >= 1
  {
    if w == 0 then 1 else 256 * Pow256(w - 1)
  }

  /** The low `w` bytes of n, least significant first: a truncating cast followed by to_le_bytes. */
  function Le(n: nat, w: nat): (r: bytes)
    ensures |r| == w
  {
    if w == 0 then [] else [(n % 256) as byte] + Le(n / 256, w - 1)
  }

  function FromLe(s: bytes): (n: nat)
    ensures n < Pow256(|s|)
  {
    if s == [] then 0 else s[0] as int + 256 * FromLe(s[1..])
  }

  /** The low `w` bytes of n, most significant first. */
  function Be(n: nat, w: nat): (r: bytes)
    ensures |r| == w
  {
    if w == 0 then [] else Be(n / 256, w - 1) + [(n % 256) as byte]
  }

  function FromBe(s: bytes): (n: nat)
    ensures n < Pow256(|s|)
  {
    if s == [] then 0 else 256 * FromBe(s[..|s| - 1]) + s[|s| - 1] as int
  }

  /** Two's complement in `w` bytes. */
  function Unsigned(v: int, w: nat): (n: nat)
    requires 0 <= v + Pow256(w)
  {
    if v < 0 then v + Pow256(w) else v
  }

  function Signed(n: nat, w: nat): int
  {
    if 2 * n >= Pow256(w) then n - Pow256(w) else n
  }

  lemma {:induction false} FromLeOfLe(n: nat, w: nat)
    requires n < Pow256(w)
    ensures FromLe(Le(n, w)) == n
  {
    if w > 0 {
      FromLeOfLe(n / 256, w - 1);
      assert Le(n, w)[1..] == Le(n / 256, w - 1);
    }
  }

  lemma {:induction false} FromBeOfBe(n: nat, w: nat)
    requires n < Pow256(w)
    ensures FromBe(Be(n, w)) == n
  {
    if w > 0 {
      FromBeOfBe(n / 256, w - 1);
      assert Be(n, w)[..w - 1] == Be(n / 256, w - 1);
    }
  }

  /** A cut layout keeps the low bytes. */
  lemma {:induction false} LePrefix(n: nat, w: nat, k: nat)
    requires k <= w
    ensures Le(n, w)[..k] == Le(n, k)
  {
    if k > 0 {
      LePrefix(n / 256, w - 1, k - 1);
      assert Le(n, w)[..k] == [(n % 256) as byte] + Le(n / 256, w - 1)[..k - 1];
    }
  }

  /** The bytes above the highest significant one are zero. */
  lemma {:induction false} LeHighZero(n: nat, w: nat, k: nat)
    requires k < w && n < Pow256(k)
    ensures Le(n, w)[k] == 0
  {
    if k > 0 {
      LeHighZero(n / 256, w - 1, k - 1);
    }
  }

  lemma SignedOfUnsigned(v: int, w: nat)
    requires 0 <= 2 * v + Pow256(w) && 2 * v < Pow256(w)
    ensures Unsigned(v, w) < Pow256(w)
    ensures Signed(Unsigned(v, w), w) == v
  {
  }

  /** Distinct counters below the wrap-around have distinct layouts. */
  lemma LeInjective(a: nat, b: nat, w: nat)
    requires a < Pow256(w) && b < Pow256(w)
    requires Le(a, w) == Le(b, w)
    ensures a == b
  {
    FromLeOfLe(a, w);
    FromLeOfLe(b, w);
  }

  lemma Assoc<T>(a: seq<T>, b: seq<T>, c: seq<T>)
    ensures a + b + c == a + (b + c)
  {
  }

  lemma Unit<T>(a: seq<T>)
    ensures a + [] == a && [] + a == a
  {
  }

  lemma Within<T>(s: seq<T>, p: nat, a: nat, b: nat)
    requires a <= b && p + b <= |s|
    ensures s[p..][a..b] == s[p + a..p + b] && s[p..][b..] == s[p + b..]
  {
  }

  /** The bytes of an ASCII literal. */
  function Ascii(s: string): (r: bytes)
    ensures |r| == |s|
  {
    seq(|s|, i requires 0 <= i < |s| => (s[i] as int % 256) as byte)
  }

  function Flatten(parts: seq<bytes>): bytes
  {
    if parts == [] then [] else parts[0] + Flatten(parts[1..])
  }

  lemma FlattenCons(x: bytes, more: seq<bytes>)
    ensures Flatten([x] + more) == x + Flatten(more)
  {
    assert ([x] + more)[1..] == more;
  }

  lemma {:induction false} FlattenAppend(a: seq<bytes>, b: seq<bytes>)
    ensures Flatten(a + b) == Flatten(a) + Flatten(b)
  {
    if a == [] {
      Unit(b);
      Unit(Flatten(b));
    } else {
      FlattenAppend(a[1..], b);
      assert (a + b)[1..] == a[1..] + b;
      Assoc(a[0], Flatten(a[1..]), Flatten(b));
    }
  }

  /** `chunks(n)`: pieces of n elements, the last one shorter; none at all for an empty slice. */
  function Chunks(s: bytes, n: nat): (r: seq<bytes>)
    requires n > 0
    decreases |s|
  {
    if s == [] then []
    else if |s| <= n then [s]
    else [s[..n]] + Chunks(s[n..], n)
  }

  lemma {:induction false} ChunksFlatten(s: bytes, n: nat)
    requires n > 0
    ensures Flatten(Chunks(s, n)) == s
    decreases |s|
  {
    if s == [] {
    } else if |s| <= n {
      assert [s][1..] == [];
      Unit(s);
    } else {
      ChunksFlatten(s[n..], n);
      FlattenCons(s[..n], Chunks(s[n..], n));
      assert s == s[..n] + s[n..];
    }
  }

  lemma {:induction false} ChunksBounded(s: bytes, n: nat)
    requires n > 0
    ensures forall c :: c in Chunks(s, n) ==> 0 < |c| <= n
    ensures s != [] ==> |Chunks(s, n)| > 0
    decreases |s|
  {
    if |s| > n {
      ChunksBounded(s[n..], n);
    }
  }

  // --- The layouts, byte by byte ---

  lemma DividedTwice(n: nat, p: nat)
    requires p > 0
    ensures n / 256 / p == n / (256 * p)
  {
    var q, d := n / 256, n % 256;
    var a, b := q / p, q % p;
    assert n == 256 * q + d && q == p * a + b;
    assert n == (256 * p) * a + (256 * b + d) by { assert 256 * (p * a) == (256 * p) * a; }
    QuotientIs(n, 256 * p, a, 256 * b + d);
  }

  lemma QuotientIs(n: nat, p: nat, q: nat, d: nat)
    requires n == p * q + d && d < p
    ensures n / p == q
  {
    var e := n / p - q;
    assert n == p * (n / p) + n % p;
    assert p * e == d - n % p by { assert p * (n / p) - p * q == p * e; }
    FactorGrows(p, e);
  }

  lemma FactorGrows(p: nat, e: int)
    ensures e >= 1 ==> p * e >= p
    ensures e <= -1 ==> p * e <= 0 - p
  {
  }

  /** Byte k counts 256^k in a little-endian layout ... */
  lemma {:induction false} LeByte(n: nat, w: nat, k: nat)
    requires k < w
    ensures Le(n, w)[k] as int == n / Pow256(k) % 256
  {
    if k > 0 {
      LeByte(n / 256, w - 1, k - 1);
      DividedTwice(n, Pow256(k - 1));
      assert Le(n, w)[k] == Le(n / 256, w - 1)[k - 1];
    }
  }

  /** ... and a big-endian one is the same in the other direction. */
  lemma {:induction false} BeByte(n: nat, w: nat, k: nat)
    requires k < w
    ensures Be(n, w)[k] == Le(n, w)[w - 1 - k]
  {
    if k < w - 1 {
      BeByte(n / 256, w - 1, k);
      assert Be(n, w)[k] == Be(n / 256, w - 1)[k];
      assert Le(n, w)[w - 1 - k] == Le(n / 256, w - 1)[w - 2 - k];
    }
  }

  lemma TwoBytes(n: nat)
    requires n < 0x1_0000
    ensures Le(n, 2) == [(n % 256) as byte, (n / 256) as byte]
  {
    assert Le(n, 2) == [(n % 256) as byte] + Le(n / 256, 1);
    assert Le(n / 256, 1) == [(n / 256) as byte] + Le(n / 256 / 256, 0);
  }

  lemma Powers()
    ensures Pow256(0) == 1 && Pow256(1) == 0x100 && Pow256(2) == 0x1_0000 && Pow256(3) == 0x100_0000
    ensures Pow256(4) == 0x1_0000_0000 && Pow256(8) == 0x1_0000_0000_0000_0000
  {
  }

  /** A character's own code, for characters that have one of a byte. */
  lemma AsciiByte(s: string, i: nat)
    requires i < |s| && s[i] as int < 256
    ensures Ascii(s)[i] as int == s[i] as int
  {
  }

  /** Every chunk but the last is full. */
  lemma {:induction false} ChunksFull(s: bytes, n: nat, i: nat)
    requires n > 0 && i + 1 < |Chunks(s, n)|
    ensures |Chunks(s, n)[i]| == n
    decreases |s|
  {
    if i > 0 { ChunksFull(s[n..], n, i - 1); }
  }
}
