/**
  Rewriting RTP timestamps, in place, in media packets and in the sender reports of compound RTCP packets
  (src/srtp.rs:48-104; RTP header: section 5.1, RTCP: sections 6.1 and 6.4.1 of RFC 3550).
 */
module Srtp {
  import opened Wrappers
  import opened Bytes

  const WRAP: nat := 0x1_0000_0000

  /** `ratio` is at least one; the first timestamp seen becomes the input base. */
  datatype Clock = Clock(ratio: nat, baseIn: Option<u32>, baseOut: u32)

  predicate Ticking(c: Clock) {
    c.ratio >= 1
  }

  function Seen(c: Clock, t: u32): Clock {
    if c.baseIn.Some? then c else c.(baseIn := Some(t))
  }

  /** How far `t` is past the base, going around after 2^32. */
  function Offset(base: u32, t: u32): (d: u32) {
    (t - base) % WRAP
  }

  function Mapped(ratio: nat, base: u32, baseOut: u32, t: u32): u32
    requires ratio >= 1
  {
    (baseOut + Offset(base, t) / ratio) % WRAP
  }

  function Scaled(c: Clock, t: u32): u32
    requires Ticking(c)
  {
    Mapped(c.ratio, Seen(c, t).baseIn.value, c.baseOut, t)
  }

  // --- Packets as values ---

  /** The length in bytes of the packet at the head of a compound one, if it is all there. */
  function UnitLength(s: bytes): (n: Option<nat>)
    ensures n.Some? ==> 4 <= n.value <= |s|
  {
    if |s| < 4 then None
    else
      var length := 4 * (FromBe(s[2..4]) + 1);
      if length > |s| then None else Some(length)
  }

  /** A sender report, with its timestamp at bytes 16 to 19. */
  predicate IsSenderReport(s: bytes, length: nat) {
    |s| >= 4 && s[1] == 200 && length >= 20
  }

  function Put(s: bytes, at: nat, t: u32): (r: bytes)
    requires at + 4 <= |s|
    ensures |r| == |s|
  {
    s[..at] + Be(t, 4) + s[at + 4..]
  }

  function At(s: bytes, at: nat): u32
    requires at + 4 <= |s|
  {
    Stamp(s[at..at + 4])
  }

  function Stamp(b: bytes): u32
    requires |b| == 4
  {
    assert Pow256(4) == 256 * Pow256(3) && Pow256(3) == 256 * Pow256(2) && Pow256(2) == 65536;
    FromBe(b)
  }

  function RtpRewritten(s: bytes, c: Clock): (r: (bytes, Clock))
    requires Ticking(c)
    ensures Ticking(r.1)
  {
    if |s| < 12 then (s, c) else (Put(s, 4, Scaled(c, At(s, 4))), Seen(c, At(s, 4)))
  }

  function RtcpRewritten(s: bytes, c: Clock): (r: (bytes, Clock))
    requires Ticking(c)
    ensures Ticking(r.1)
    decreases |s|
  {
    var n := UnitLength(s);
    if n.None? then (s, c)
    else
      var unit := s[..n.value];
      var report := IsSenderReport(s, n.value);
      var (rest, end) := RtcpRewritten(s[n.value..], if report then Seen(c, At(unit, 16)) else c);
      ((if report then Put(unit, 16, Scaled(c, At(unit, 16))) else unit) + rest, end)
  }

  class TimestampRescaler {
    const ratio: nat
    var baseIn: Option<u32>
    const baseOut: u32

    /** `random` stands for the random 16-bit output base. */
    constructor (requested: nat, random: u16)
      ensures Ticking(State()) && State() == Clock(if requested == 0 then 1 else requested, None, random)
    {
      ratio := if requested < 1 then 1 else requested;
      baseIn := None;
      baseOut := random;
    }

    function State(): Clock
      reads this
    {
      Clock(ratio, baseIn, baseOut)
    }

    method RescaleTimestamp(timestamp: u32) returns (r: u32)
      requires Ticking(State())
      modifies this
      ensures r == Scaled(old(State()), timestamp) && State() == Seen(old(State()), timestamp)
    {
      if baseIn.None? { baseIn := Some(timestamp); }
      r := (baseOut + ((timestamp - baseIn.value) % WRAP) / ratio) % WRAP;
    }

    method RescaleRtp(packet: array<byte>)
      requires Ticking(State())
      modifies this, packet
      ensures (packet[..], State()) == RtpRewritten(old(packet[..]), old(State()))
    {
      if packet.Length < 12 { return; }
      assert packet[4..8] == packet[..][4..8];
      var scaled := RescaleTimestamp(Stamp(packet[4..8]));
      Store(packet, 4, scaled);
    }

    method RescaleRtcp(packet: array<byte>)
      requires Ticking(State())
      modifies this, packet
      ensures (packet[..], State()) == RtcpRewritten(old(packet[..]), old(State()))
    {
      hide RtcpRewritten, FromBe, Put, Stamp, Scaled, Seen;
      var offset := 0;
      NothingDone(packet[..], State());
      while offset + 4 <= packet.Length
        invariant offset <= packet.Length && Ticking(State())
        invariant |old(packet[..])| == packet.Length
        invariant RtcpRewritten(old(packet[..]), old(State())) == After(packet[..], offset, State())
        decreases packet.Length - offset
      {
        ghost var s, clock := packet[..], State();
        assert packet[offset + 2..offset + 4] == s[offset + 2..offset + 4];
        var words := FromBe(packet[offset + 2..offset + 4]) + 1;
        var length := words * 4;
        UnitAt(s, offset);
        if length < 4 || offset + length > packet.Length { break; }
        UnitDone(s, offset, clock);
        if packet[offset + 1] == 200 && length >= 20 {
          assert packet[offset + 16..offset + 20] == s[offset + 16..offset + 20];
          var scaled := RescaleTimestamp(Stamp(packet[offset + 16..offset + 20]));
          Store(packet, offset + 16, scaled);
        }
        offset := offset + length;
      }
      UnitAt(packet[..], offset);
      NothingLeft(packet[..], offset, State());
    }
  }

  /** What the whole packet becomes when everything before `offset` is done. */
  ghost function After(s: bytes, offset: nat, c: Clock): (bytes, Clock)
    requires offset <= |s| && Ticking(c)
  {
    (s[..offset] + RtcpRewritten(s[offset..], c).0, RtcpRewritten(s[offset..], c).1)
  }

  lemma NothingDone(s: bytes, c: Clock)
    requires Ticking(c)
    ensures RtcpRewritten(s, c) == After(s, 0, c)
  {
    assert s[0..] == s && s[..0] == [];
    Unit(RtcpRewritten(s, c).0);
  }

  lemma NothingLeft(s: bytes, offset: nat, c: Clock)
    requires offset <= |s| && Ticking(c) && UnitLength(s[offset..]).None?
    ensures After(s, offset, c) == (s, c)
  {
    assert s[..offset] + s[offset..] == s;
  }

  lemma UnitAt(s: bytes, offset: nat)
    requires offset <= |s|
    ensures UnitLength(s[offset..]) ==
      if offset + 4 > |s| || offset + 4 * (FromBe(s[offset + 2..offset + 4]) + 1) > |s| then None
      else Some(4 * (FromBe(s[offset + 2..offset + 4]) + 1))
  {
    if offset + 4 <= |s| { Within(s, offset, 2, 4); }
  }

  lemma UnitDone(s: bytes, offset: nat, c: Clock)
    requires offset <= |s| && Ticking(c) && UnitLength(s[offset..]).Some?
    ensures var n := UnitLength(s[offset..]).value;
      var report := s[offset + 1] == 200 && n >= 20;
      var t := if report then At(s, offset + 16) else 0;
      After(s, offset, c) == if report then After(Put(s, offset + 16, Scaled(c, t)), offset + n, Seen(c, t))
                             else After(s, offset + n, c)
  {
    hide FromBe, Be, Stamp, Scaled, UnitLength;
    var n, rest := UnitLength(s[offset..]).value, s[offset..];
    var unit := rest[..n];
    assert rest[1] == s[offset + 1];
    Within(s, offset, 0, n);
    if IsSenderReport(rest, n) {
      assert unit[16..20] == s[offset + 16..offset + 20];
      var t := At(s, offset + 16);
      var put := Put(s, offset + 16, Scaled(c, t));
      assert put[offset + n..] == s[offset + n..];
      assert put[..offset + n] == s[..offset] + Put(unit, 16, Scaled(c, t));
      Assoc(s[..offset], Put(unit, 16, Scaled(c, t)), RtcpRewritten(rest[n..], Seen(c, t)).0);
    } else {
      assert s[..offset + n] == s[..offset] + unit;
      Assoc(s[..offset], unit, RtcpRewritten(rest[n..], c).0);
    }
  }

  /** `copy_from_slice` of the big-endian bytes. */
  method Store(packet: array<byte>, at: nat, t: u32)
    requires at + 4 <= packet.Length
    modifies packet
    ensures packet[..] == Put(old(packet[..]), at, t)
  {
    hide Be;
    ghost var s := packet[..];
    var b := Be(t, 4);
    packet[at] := b[0];
    packet[at + 1] := b[1];
    packet[at + 2] := b[2];
    packet[at + 3] := b[3];
    assert packet[..] == s[..at] + b + s[at + 4..];
  }

  // --- The arithmetic ---

  /** The output runs at the input's rate divided by the ratio: it has gone q steps where the input has gone
      between ratio * q and ratio * (q + 1); so order is kept for as long as the input has not gone around. */
  lemma OutputOffset(ratio: nat, base: u32, baseOut: u32, t: u32)
    requires ratio >= 1
    ensures var d, q := Offset(base, t), Offset(baseOut, Mapped(ratio, base, baseOut, t));
      0 <= d - ratio * q < ratio
  {
    MappedOffset(ratio, base, baseOut, t);
    hide Offset, Mapped;
    QuotientBounds(Offset(base, t), ratio);
  }

  lemma MappedOffset(ratio: nat, base: u32, baseOut: u32, t: u32)
    requires ratio >= 1
    ensures Offset(baseOut, Mapped(ratio, base, baseOut, t)) == Offset(base, t) / ratio
  {
    var d := Offset(base, t);
    assert 0 <= d < WRAP;
    hide Offset;
    QuotientBounds(d, ratio);
    OffsetOfSum(baseOut, d / ratio);
  }

  lemma OffsetOfSum(base: u32, q: nat)
    requires q < WRAP
    ensures Offset(base, (base + q) % WRAP) == q
  {
    Around(base, q);
  }

  lemma QuotientBounds(d: nat, ratio: nat)
    requires ratio >= 1
    ensures 0 <= d - ratio * (d / ratio) < ratio && d / ratio <= d
  {
    assert d == ratio * (d / ratio) + d % ratio;
  }

  lemma Around(base: u32, q: nat)
    requires q < WRAP
    ensures ((base + q) % WRAP - base) % WRAP == q
  {
    if base + q < WRAP { assert (base + q) % WRAP == base + q; } else { assert (base + q) % WRAP == base + q - WRAP; }
  }

  lemma OrderKept(ratio: nat, base: u32, baseOut: u32, t: u32, u: u32)
    requires ratio >= 1 && Offset(base, t) <= Offset(base, u)
    ensures Offset(baseOut, Mapped(ratio, base, baseOut, t)) <= Offset(baseOut, Mapped(ratio, base, baseOut, u))
  {
    OutputOffset(ratio, base, baseOut, t);
    OutputOffset(ratio, base, baseOut, u);
    hide Offset, Mapped;
    QuotientsOrdered(ratio, Offset(base, t), Offset(base, u),
                     Offset(baseOut, Mapped(ratio, base, baseOut, t)), Offset(baseOut, Mapped(ratio, base, baseOut, u)));
  }

  lemma QuotientsOrdered(ratio: nat, d: nat, e: nat, q: nat, p: nat)
    requires d <= e && 0 <= d - ratio * q < ratio && 0 <= e - ratio * p < ratio
    ensures q <= p
  {
    if q > p { MulMonotone(ratio, p + 1, q); }
  }

  lemma MulMonotone(r: nat, a: nat, b: nat)
    requires a <= b
    ensures r * a <= r * b
  {
  }

  // --- What a packet says, and what else is in it ---

  datatype Packet = Rtp(bytes: bytes) | Rtcp(bytes: bytes)

  function RtpStamps(s: bytes): seq<u32> {
    if |s| < 12 then [] else [At(s, 4)]
  }

  /** The timestamps of the sender reports, as far as the packet is well formed. */
  function RtcpStamps(s: bytes): seq<u32>
    decreases |s|
  {
    var n := UnitLength(s);
    if n.None? then []
    else (if IsSenderReport(s, n.value) then [At(s[..n.value], 16)] else []) + RtcpStamps(s[n.value..])
  }

  /** The packet with its timestamps blanked. */
  function RtpRest(s: bytes): bytes {
    if |s| < 12 then s else Put(s, 4, 0)
  }

  function RtcpRest(s: bytes): bytes
    decreases |s|
  {
    var n := UnitLength(s);
    if n.None? then s
    else (if IsSenderReport(s, n.value) then Put(s[..n.value], 16, 0) else s[..n.value]) + RtcpRest(s[n.value..])
  }

  function Stamps(p: Packet): seq<u32> {
    if p.Rtp? then RtpStamps(p.bytes) else RtcpStamps(p.bytes)
  }

  function Rest(p: Packet): Packet {
    if p.Rtp? then Rtp(RtpRest(p.bytes)) else Rtcp(RtcpRest(p.bytes))
  }

  /** Timestamps through the clock, one after the other. */
  function ScaledAll(c: Clock, ts: seq<u32>): seq<u32>
    requires Ticking(c)
    decreases |ts|
  {
    if ts == [] then [] else [Scaled(c, ts[0])] + ScaledAll(Seen(c, ts[0]), ts[1..])
  }

  function SeenAll(c: Clock, ts: seq<u32>): Clock {
    if ts == [] then c else Seen(c, ts[0])
  }

  lemma PutAt(s: bytes, at: nat, t: u32)
    requires at + 4 <= |s|
    ensures At(Put(s, at, t), at) == t
    ensures forall u: u32 :: Put(Put(s, at, t), at, u) == Put(s, at, u)
  {
    hide Be, FromBe;
    assert Put(s, at, t)[at..at + 4] == Be(t, 4);
    assert Pow256(4) == 256 * Pow256(3) && Pow256(3) == 256 * Pow256(2) && Pow256(2) == 65536;
    FromBeOfBe(t, 4);
    assert Put(s, at, t)[..at] == s[..at] && Put(s, at, t)[at + 4..] == s[at + 4..];
  }

  lemma RtpKeepsTheRest(s: bytes, c: Clock)
    requires Ticking(c)
    ensures var (r, end) := RtpRewritten(s, c);
      && |r| == |s| && RtpRest(r) == RtpRest(s)
      && RtpStamps(r) == ScaledAll(c, RtpStamps(s)) && end == SeenAll(c, RtpStamps(s))
  {
    hide Scaled, Put, At;
    if |s| >= 12 {
      PutAt(s, 4, Scaled(c, At(s, 4)));
      assert [At(s, 4)][1..] == [];
      Unit([Scaled(c, At(s, 4))]);
    }
  }

  /** A timestamp is not part of any header, so rewriting it leads nowhere else. */
  lemma UnitKept(unit: bytes, unit': bytes, tail: bytes, tail': bytes)
    requires UnitLength(unit + tail) == Some(|unit|) && |unit'| == |unit| && unit'[..4] == unit[..4] && |tail'| == |tail|
    ensures UnitLength(unit' + tail') == Some(|unit|)
    ensures IsSenderReport(unit' + tail', |unit|) == IsSenderReport(unit + tail, |unit|)
    ensures (unit' + tail')[..|unit|] == unit' && (unit' + tail')[|unit|..] == tail'
  {
    hide FromBe;
    assert (unit' + tail')[2..4] == unit'[..4][2..4];
    assert (unit + tail)[2..4] == unit[..4][2..4];
    assert (unit' + tail')[1] == unit'[..4][1] && (unit + tail)[1] == unit[..4][1];
  }

  lemma {:induction false} RtcpKeepsTheRest(s: bytes, c: Clock)
    requires Ticking(c)
    ensures var (r, end) := RtcpRewritten(s, c);
      && |r| == |s| && RtcpRest(r) == RtcpRest(s)
      && RtcpStamps(r) == ScaledAll(c, RtcpStamps(s)) && end == SeenAll(c, RtcpStamps(s))
    decreases |s|
  {
    hide Scaled, Put, At, UnitLength;
    var n := UnitLength(s);
    if n.Some? {
      var unit, tail := s[..n.value], s[n.value..];
      var report := IsSenderReport(s, n.value);
      var unit' := if report then Put(unit, 16, Scaled(c, At(unit, 16))) else unit;
      var c' := if report then Seen(c, At(unit, 16)) else c;
      var tail' := RtcpRewritten(tail, c').0;
      RtcpKeepsTheRest(tail, c');
      assert unit + tail == s;
      if report {
        PutAt(unit, 16, Scaled(c, At(unit, 16)));
        PutAfterHeader(unit, Scaled(c, At(unit, 16)));
      }
      UnitKept(unit, unit', tail, tail');
      Unit(RtcpStamps(tail));
      Unit(RtcpStamps(tail'));
      if report { StampsCons(c, At(unit, 16), RtcpStamps(tail)); }
    }
  }

  lemma PutAfterHeader(unit: bytes, t: u32)
    requires |unit| >= 20
    ensures Put(unit, 16, t)[..4] == unit[..4]
  {
    hide Be;
  }

  lemma StampsCons(c: Clock, t: u32, more: seq<u32>)
    requires Ticking(c)
    ensures ScaledAll(c, [t] + more) == [Scaled(c, t)] + ScaledAll(Seen(c, t), more)
    ensures SeenAll(Seen(c, t), more) == SeenAll(c, [t] + more) == Seen(c, t)
  {
    hide Scaled;
    assert ([t] + more)[1..] == more;
  }

  // --- Whole runs ---

  function Rewritten(p: Packet, c: Clock): (r: (Packet, Clock))
    requires Ticking(c)
    ensures Ticking(r.1)
  {
    if p.Rtp? then var (r, end) := RtpRewritten(p.bytes, c); (Rtp(r), end)
    else var (r, end) := RtcpRewritten(p.bytes, c); (Rtcp(r), end)
  }

  lemma PacketKeepsTheRest(p: Packet, c: Clock)
    requires Ticking(c)
    ensures var (r, end) := Rewritten(p, c);
      && |r.bytes| == |p.bytes| && Rest(r) == Rest(p)
      && Stamps(r) == ScaledAll(c, Stamps(p)) && end == SeenAll(c, Stamps(p))
  {
    if p.Rtp? { RtpKeepsTheRest(p.bytes, c); } else { RtcpKeepsTheRest(p.bytes, c); }
  }

  function Run(packets: seq<Packet>, c: Clock): (r: seq<Packet>)
    requires Ticking(c)
    ensures |r| == |packets|
    decreases |packets|
  {
    if packets == [] then []
    else
      var (r, end) := Rewritten(packets[0], c);
      [r] + Run(packets[1..], end)
  }

  /** All the timestamps of a run, in order. */
  function AllStamps(packets: seq<Packet>): seq<u32> {
    if packets == [] then [] else Stamps(packets[0]) + AllStamps(packets[1..])
  }

  lemma {:induction false} ScaledAllAppend(c: Clock, a: seq<u32>, b: seq<u32>)
    requires Ticking(c)
    ensures ScaledAll(c, a + b) == ScaledAll(c, a) + ScaledAll(SeenAll(c, a), b)
    decreases |a|
  {
    hide Scaled;
    if a == [] {
      Unit(b);
      Unit(ScaledAll(c, b));
    } else {
      assert (a + b)[1..] == a[1..] + b;
      ScaledAllAppend(Seen(c, a[0]), a[1..], b);
      Assoc([Scaled(c, a[0])], ScaledAll(Seen(c, a[0]), a[1..]), ScaledAll(SeenAll(c, a), b));
    }
  }

  /** Every packet keeps its length and everything but its timestamps, and the timestamps of the whole run,
      media and reports together, go through the one clock. */
  lemma {:induction false} RunKeepsTheRest(packets: seq<Packet>, c: Clock)
    requires Ticking(c)
    ensures var out := Run(packets, c);
      && (forall i :: 0 <= i < |packets| ==> |out[i].bytes| == |packets[i].bytes| && Rest(out[i]) == Rest(packets[i]))
      && AllStamps(out) == ScaledAll(c, AllStamps(packets))
    decreases |packets|
  {
    hide Rewritten, Rest, Stamps;
    if packets != [] {
      var (r, end) := Rewritten(packets[0], c);
      PacketKeepsTheRest(packets[0], c);
      RunKeepsTheRest(packets[1..], end);
      ScaledAllAppend(c, Stamps(packets[0]), AllStamps(packets[1..]));
      assert Run(packets, c)[1..] == Run(packets[1..], end);
    }
  }

  lemma {:induction false} OneBase(c: Clock, base: u32, ts: seq<u32>, i: nat)
    requires Ticking(c) && i < |ts|
    requires c.baseIn == Some(base) || (c.baseIn.None? && base == ts[0])
    ensures |ScaledAll(c, ts)| == |ts| && ScaledAll(c, ts)[i] == Mapped(c.ratio, base, c.baseOut, ts[i])
    decreases |ts|
  {
    hide Mapped;
    if |ts| > 1 { OneBase(Seen(c, ts[0]), base, ts[1..], if i > 0 then i - 1 else 0); }
  }

  /** In any run, equal timestamps stay equal, wherever they occur: an RTP packet and a sender report that agree
      on the time still agree. */
  lemma EqualStampsStayEqual(packets: seq<Packet>, c: Clock, i: nat, j: nat)
    requires Ticking(c)
    requires i < |AllStamps(packets)| && j < |AllStamps(packets)| && AllStamps(packets)[i] == AllStamps(packets)[j]
    ensures var out := AllStamps(Run(packets, c));
      |out| == |AllStamps(packets)| && out[i] == out[j]
  {
    hide AllStamps, Run, ScaledAll, Mapped;
    var ts := AllStamps(packets);
    var base := if c.baseIn.Some? then c.baseIn.value else ts[0];
    RunKeepsTheRest(packets, c);
    OneBase(c, base, ts, i);
    OneBase(c, base, ts, j);
  }

  lemma {:induction false} AllStampsAppend(a: seq<Packet>, b: seq<Packet>)
    ensures AllStamps(a + b) == AllStamps(a) + AllStamps(b)
  {
    hide Stamps;
    if a == [] {
      Unit(b);
      Unit(AllStamps(b));
    } else {
      AllStampsAppend(a[1..], b);
      assert (a + b)[1..] == a[1..] + b;
      Assoc(Stamps(a[0]), AllStamps(a[1..]), AllStamps(b));
    }
  }

  // --- Packets by their layout ---

  /** The first timestamp becomes the output base; one that is d past it comes out d / ratio past that, around 2^32. */
  lemma ClockReads(c: Clock, t: u32, d: u32)
    requires Ticking(c)
    ensures c.baseIn.None? ==> Scaled(c, t) == c.baseOut && Seen(c, t) == c.(baseIn := Some(t))
    ensures c.baseIn == Some(t) ==> var u: u32 := (t + d) % 0x1_0000_0000;
      Scaled(c, u) == (c.baseOut + d / c.ratio) % 0x1_0000_0000 && Seen(c, u) == c
  {
    OffsetOfSum(t, d);
    QuotientBounds(d, c.ratio);
    assert 0 / c.ratio == 0;
    hide Offset;
    assert Offset(t, t) == 0 by { OffsetOfSum(t, 0); }
  }

  /** A media packet: the timestamp is behind four bytes, and eight or more are behind the timestamp. */
  lemma MediaLayout(head: bytes, t: u32, rest: bytes, c: Clock)
    requires Ticking(c) && |head| == 4
    ensures RtpRewritten(head + Be(t, 4) + rest, c)
         == if |rest| >= 4 then (head + Be(Scaled(c, t), 4) + rest, Seen(c, t)) else (head + Be(t, 4) + rest, c)
  {
    hide Be, FromBe, Scaled, Seen;
    StampIn(head, t, rest, Scaled(c, t));
  }

  lemma StampIn(front: bytes, t: u32, back: bytes, u: u32)
    ensures At(front + Be(t, 4) + back, |front|) == t
    ensures Put(front + Be(t, 4) + back, |front|, u) == front + Be(u, 4) + back
  {
    hide Be, FromBe;
    var s := front + Be(t, 4) + back;
    assert s[|front|..|front| + 4] == Be(t, 4) && s[..|front|] == front && s[|front| + 4..] == back;
    assert Pow256(4) == 0x1_0000_0000 by { Powers(); }
    FromBeOfBe(t, 4);
  }

  lemma HeaderRead(a: byte, kind: byte, words: nat, more: bytes)
    requires words < 0x1_0000
    ensures var s := [a, kind] + Be(words, 2) + more;
      s[1] == kind && UnitLength(s) == if 4 * (words + 1) <= 4 + |more| then Some(4 * (words + 1)) else None
  {
    hide Be, FromBe;
    var s := [a, kind] + Be(words, 2) + more;
    assert s[2..4] == Be(words, 2);
    assert Pow256(2) == 0x1_0000;
    FromBeOfBe(words, 2);
  }

  lemma RtcpStep(unit: bytes, tail: bytes, c: Clock)
    requires Ticking(c) && UnitLength(unit + tail) == Some(|unit|)
    ensures var report := IsSenderReport(unit + tail, |unit|);
      var (rest, end) := RtcpRewritten(tail, if report then Seen(c, At(unit, 16)) else c);
      RtcpRewritten(unit + tail, c) == ((if report then Put(unit, 16, Scaled(c, At(unit, 16))) else unit) + rest, end)
  {
    hide UnitLength, Scaled, Seen, At, Put;
    assert (unit + tail)[..|unit|] == unit && (unit + tail)[|unit|..] == tail;
  }

  /** A sender report in a compound packet: type 200, the length in words less one, and the timestamp at byte 16; the
      report keeps all its other bytes, and the packets behind it are next. */
  lemma ReportLayout(a: byte, words: nat, front: bytes, t: u32, back: bytes, tail: bytes, c: Clock)
    requires Ticking(c) && |front| == 12 && 20 + |back| == 4 * (words + 1) && words < 0x1_0000
    ensures var head := [a, 200] + Be(words, 2) + front;
      var (rest, end) := RtcpRewritten(tail, Seen(c, t));
      RtcpRewritten(head + Be(t, 4) + back + tail, c) == (head + Be(Scaled(c, t), 4) + back + rest, end)
  {
    hide Be, FromBe, Scaled, Seen, At, Put, RtcpRewritten, UnitLength;
    var head := [a, 200] + Be(words, 2) + front;
    var unit := head + Be(t, 4) + back;
    HeaderRead(a, 200, words, front + Be(t, 4) + back + tail);
    assert unit + tail == [a, 200] + Be(words, 2) + (front + Be(t, 4) + back + tail);
    StampIn(head, t, back, Scaled(c, t));
    RtcpStep(unit, tail, c);
  }

  /** Any other packet in it, and one too short for a timestamp, stays as it is. */
  lemma OtherLayout(a: byte, kind: byte, words: nat, body: bytes, tail: bytes, c: Clock)
    requires Ticking(c) && 4 + |body| == 4 * (words + 1) && words < 0x1_0000 && (kind != 200 || words < 4)
    ensures var unit := [a, kind] + Be(words, 2) + body;
      RtcpRewritten(unit + tail, c) == (unit + RtcpRewritten(tail, c).0, RtcpRewritten(tail, c).1)
  {
    hide Be, FromBe, Scaled, Seen, At, Put, RtcpRewritten, UnitLength;
    var unit := [a, kind] + Be(words, 2) + body;
    HeaderRead(a, kind, words, body + tail);
    assert unit + tail == [a, kind] + Be(words, 2) + (body + tail);
    RtcpStep(unit, tail, c);
  }

  /** What is left over, or cut short, ends the rewriting. */
  lemma RemainderLayout(a: byte, kind: byte, words: nat, body: bytes, s: bytes, c: Clock)
    requires Ticking(c) && 4 + |body| < 4 * (words + 1) && words < 0x1_0000 && |s| < 4
    ensures RtcpRewritten([a, kind] + Be(words, 2) + body, c) == ([a, kind] + Be(words, 2) + body, c)
    ensures RtcpRewritten(s, c) == (s, c)
  {
    HeaderRead(a, kind, words, body);
    hide Be, FromBe;
  }
}
