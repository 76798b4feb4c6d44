/**
  The data stream server over whole runs of setups and claims (src/hsv/hds.rs:69-86, 137-166): every session is handed
  out at most once, and within its time.
 */
module HdsSessions {
  import opened Wrappers
  import opened Bytes
  import opened Aead
  import opened Hds

  /** Which frame a session was handed out for, and when. */
  datatype Handed = Handed(session: PreparedSession, frame: bytes, at: nat)

  /** `made` is every session there ever was, `handed` those handed out, each in order. */
  datatype Sessions = Sessions(now: nat, prepared: seq<PreparedSession>, made: seq<PreparedSession>, handed: seq<Handed>)

  const Initially := Sessions(0, [], [], [])

  /** What the server is asked, `after` so many milliseconds since it was asked last. */
  datatype Event =
    | Setup(after: nat, keys: SessionKeys)
    | Claim(after: nat, frame: bytes)

  function Next(c: Cipher, s: Sessions, e: Event): Sessions {
    var now := s.now + e.after;
    match e
    case Setup(_, keys) =>
      Sessions(now, SetUp(s.prepared, keys, now), s.made + [PreparedSession(keys, now)], s.handed)
    case Claim(_, frame) =>
      var (claimed, left) := Claimed(c, s.prepared, frame, now);
      Sessions(now, left, s.made, if claimed.None? then s.handed else s.handed + [Handed(claimed.value, frame, now)])
  }

  function Run(c: Cipher, s: Sessions, events: seq<Event>): Sessions
    decreases |events|
  {
    if events == [] then s else Run(c, Next(c, s, events[0]), events[1..])
  }

  function SessionsIn(handed: seq<Handed>): (r: seq<PreparedSession>)
    ensures |r| == |handed| && forall i :: 0 <= i < |r| ==> r[i] == handed[i].session
  {
    seq(|handed|, i requires 0 <= i < |handed| => handed[i].session)
  }

  predicate Alive(p: PreparedSession, now: nat) {
    now < p.created + 10_000
  }

  /** How often a session is in a list. */
  function Count(p: PreparedSession, s: seq<PreparedSession>): nat {
    multiset(s)[p]
  }

  /** A session is in the list or handed out, not both; only one whose time is over may be neither. */
  ghost predicate Conserved(s: Sessions) {
    forall p: PreparedSession ::
      && Count(p, s.prepared) + Count(p, SessionsIn(s.handed)) <= Count(p, s.made)
      && (Alive(p, s.now) ==> Count(p, s.prepared) + Count(p, SessionsIn(s.handed)) == Count(p, s.made))
  }

  /** It was handed out for a frame its key opens, within its time. */
  ghost predicate Rightly(c: Cipher, h: Handed) {
    Opens(c, h.session, h.frame) && h.session.created <= h.at && Alive(h.session, h.at)
  }

  ghost predicate InTime(c: Cipher, s: Sessions) {
    && (forall p :: p in s.prepared ==> p.created <= s.now)
    && (forall h :: h in s.handed ==> Rightly(c, h))
  }

  lemma CountAppend(p: PreparedSession, a: seq<PreparedSession>, b: seq<PreparedSession>)
    ensures Count(p, a + b) == Count(p, a) + Count(p, b)
  {
    assert multiset(a + b) == multiset(a) + multiset(b);
  }

  lemma CountOne(p: PreparedSession, q: PreparedSession)
    ensures Count(p, [q]) == if p == q then 1 else 0
  {
  }

  lemma CountWithout(p: PreparedSession, s: seq<PreparedSession>, i: nat)
    requires i < |s|
    ensures Count(p, s[..i] + s[i + 1..]) + Count(p, [s[i]]) == Count(p, s)
  {
    hide Count;
    assert s == s[..i] + ([s[i]] + s[i + 1..]);
    CountAppend(p, s[..i], [s[i]] + s[i + 1..]);
    CountAppend(p, [s[i]], s[i + 1..]);
    CountAppend(p, s[..i], s[i + 1..]);
  }

  /** Of those alive all stay, of the others none. */
  lemma {:induction false} CountUnexpired(p: PreparedSession, s: seq<PreparedSession>, now: nat)
    ensures Count(p, Unexpired(s, now)) == if Alive(p, now) then Count(p, s) else 0
  {
    if s != [] {
      hide Count;
      CountUnexpired(p, s[1..], now);
      assert s == [s[0]] + s[1..];
      CountAppend(p, [s[0]], s[1..]);
      CountOne(p, s[0]);
      CountAppend(p, if Alive(s[0], now) then [s[0]] else [], Unexpired(s[1..], now));
      if !Alive(s[0], now) { Unit(Unexpired(s[1..], now)); }
    }
  }

  lemma SetupConserves(c: Cipher, s: Sessions, after: nat, keys: SessionKeys, p: PreparedSession)
    requires Conserved(s)
    ensures var t := Next(c, s, Setup(after, keys));
      && Count(p, t.prepared) + Count(p, SessionsIn(t.handed)) <= Count(p, t.made)
      && (Alive(p, t.now) ==> Count(p, t.prepared) + Count(p, SessionsIn(t.handed)) == Count(p, t.made))
  {
    hide Count, Unexpired;
    var now := s.now + after;
    var q := PreparedSession(keys, now);
    CountUnexpired(p, s.prepared, now);
    CountAppend(p, Unexpired(s.prepared, now), [q]);
    CountAppend(p, s.made, [q]);
  }

  /** A claim takes what it hands out from the list, and with it only what is over its time. */
  lemma CountClaimed(c: Cipher, prepared: seq<PreparedSession>, frame: bytes, now: nat, p: PreparedSession)
    ensures var (claimed, left) := Claimed(c, prepared, frame, now);
      Count(p, left) + (if claimed == Some(p) then 1 else 0) == if Alive(p, now) then Count(p, prepared) else 0
  {
    hide Count, Unexpired, FirstOpening;
    var alive := Unexpired(prepared, now);
    CountUnexpired(p, prepared, now);
    var found := FirstOpening(c, alive, frame, 0);
    if found.Some? {
      CountWithout(p, alive, found.value);
      CountOne(p, alive[found.value]);
    }
  }

  lemma CountHanded(handed: seq<Handed>, h: Handed, p: PreparedSession)
    ensures Count(p, SessionsIn(handed + [h])) == Count(p, SessionsIn(handed)) + if h.session == p then 1 else 0
  {
    hide Count;
    assert SessionsIn(handed + [h]) == SessionsIn(handed) + [h.session];
    CountAppend(p, SessionsIn(handed), [h.session]);
    CountOne(p, h.session);
  }

  lemma ClaimConserves(c: Cipher, s: Sessions, after: nat, frame: bytes, p: PreparedSession)
    requires Conserved(s)
    ensures var t := Next(c, s, Claim(after, frame));
      && Count(p, t.prepared) + Count(p, SessionsIn(t.handed)) <= Count(p, t.made)
      && (Alive(p, t.now) ==> Count(p, t.prepared) + Count(p, SessionsIn(t.handed)) == Count(p, t.made))
  {
    hide Count, Claimed, SessionsIn;
    var now := s.now + after;
    assert Count(p, s.prepared) + Count(p, SessionsIn(s.handed)) <= Count(p, s.made);
    assert Alive(p, s.now) ==> Count(p, s.prepared) + Count(p, SessionsIn(s.handed)) == Count(p, s.made);
    hide Conserved;
    CountClaimed(c, s.prepared, frame, now, p);
    var claimed := Claimed(c, s.prepared, frame, now).0;
    if claimed.Some? { CountHanded(s.handed, Handed(claimed.value, frame, now), p); }
  }

  lemma NextConserves(c: Cipher, s: Sessions, e: Event)
    requires Conserved(s)
    ensures Conserved(Next(c, s, e))
  {
    hide Count, Alive;
    forall p: PreparedSession
      ensures var t := Next(c, s, e);
        && Count(p, t.prepared) + Count(p, SessionsIn(t.handed)) <= Count(p, t.made)
        && (Alive(p, t.now) ==> Count(p, t.prepared) + Count(p, SessionsIn(t.handed)) == Count(p, t.made))
    {
      hide Next, Conserved;
      match e
      case Setup(after, keys) => SetupConserves(c, s, after, keys, p);
      case Claim(after, frame) => ClaimConserves(c, s, after, frame, p);
    }
  }

  lemma NextInTime(c: Cipher, s: Sessions, e: Event)
    requires InTime(c, s)
    ensures InTime(c, Next(c, s, e))
  {
    hide Unexpired, FirstOpening, Opens;
    if e.Claim? {
      var now := s.now + e.after;
      var alive := Unexpired(s.prepared, now);
      var found := FirstOpening(c, alive, e.frame, 0);
      if found.Some? { assert alive[found.value] in alive; }
    }
  }

  lemma {:induction false} RunConserves(c: Cipher, s: Sessions, events: seq<Event>)
    requires Conserved(s) && InTime(c, s)
    ensures Conserved(Run(c, s, events)) && InTime(c, Run(c, s, events))
    decreases |events|
  {
    hide Conserved, InTime, Next;
    if events != [] {
      NextConserves(c, s, events[0]);
      NextInTime(c, s, events[0]);
      RunConserves(c, Next(c, s, events[0]), events[1..]);
    }
  }

  /** Oldest first, and none whose time is over. */
  ghost predicate Waiting(prepared: seq<PreparedSession>, now: nat) {
    (forall p :: p in prepared ==> p.created <= now && Alive(p, now)) && OldestFirst(prepared)
  }

  ghost predicate OldestFirst(prepared: seq<PreparedSession>) {
    forall i, j :: 0 <= i < j < |prepared| ==> prepared[i].created <= prepared[j].created
  }

  lemma {:induction false} UnexpiredInOrder(prepared: seq<PreparedSession>, now: nat)
    requires OldestFirst(prepared)
    ensures OldestFirst(Unexpired(prepared, now))
  {
    if prepared != [] {
      UnexpiredInOrder(prepared[1..], now);
      var rest := Unexpired(prepared[1..], now);
      forall p | p in rest ensures prepared[0].created <= p.created {
        var i :| 0 <= i < |prepared[1..]| && prepared[1..][i] == p;
        assert prepared[i + 1] == p;
      }
    }
  }

  lemma NextKeepsWaiting(c: Cipher, s: Sessions, e: Event)
    requires Waiting(s.prepared, s.now)
    ensures Waiting(Next(c, s, e).prepared, Next(c, s, e).now)
  {
    hide Waiting, SetUp, Claimed;
    match e
    case Setup(after, keys) => SetupKeepsWaiting(s.prepared, s.now, after, keys);
    case Claim(after, frame) => ClaimKeepsWaiting(c, s.prepared, s.now, after, frame);
  }

  lemma StillWaiting(prepared: seq<PreparedSession>, before: nat, after: nat)
    requires Waiting(prepared, before)
    ensures Waiting(Unexpired(prepared, before + after), before + after)
  {
    hide OldestFirst, Unexpired;
    UnexpiredInOrder(prepared, before + after);
    assert forall p :: p in Unexpired(prepared, before + after) ==> p in prepared && p.created <= before;
  }

  lemma SetupKeepsWaiting(prepared: seq<PreparedSession>, before: nat, after: nat, keys: SessionKeys)
    requires Waiting(prepared, before)
    ensures Waiting(SetUp(prepared, keys, before + after), before + after)
  {
    StillWaiting(prepared, before, after);
    hide Unexpired;
  }

  lemma ClaimKeepsWaiting(c: Cipher, prepared: seq<PreparedSession>, before: nat, after: nat, frame: bytes)
    requires Waiting(prepared, before)
    ensures Waiting(Claimed(c, prepared, frame, before + after).1, before + after)
  {
    StillWaiting(prepared, before, after);
    hide Unexpired, FirstOpening, Opens, Waiting;
    var alive := Unexpired(prepared, before + after);
    var found := FirstOpening(c, alive, frame, 0);
    if found.Some? { OneTaken(alive, before + after, found.value); }
  }

  lemma OneTaken(prepared: seq<PreparedSession>, now: nat, i: nat)
    requires Waiting(prepared, now) && i < |prepared|
    ensures Waiting(prepared[..i] + prepared[i + 1..], now)
  {
    hide Alive;
    var left := prepared[..i] + prepared[i + 1..];
    assert forall j :: 0 <= j < |left| ==> left[j] == prepared[if j < i then j else j + 1];
  }

  lemma {:induction false} RunKeepsWaiting(c: Cipher, s: Sessions, events: seq<Event>)
    requires Waiting(s.prepared, s.now)
    ensures Waiting(Run(c, s, events).prepared, Run(c, s, events).now)
    decreases |events|
  {
    hide Waiting, Next;
    if events != [] {
      NextKeepsWaiting(c, s, events[0]);
      RunKeepsWaiting(c, Next(c, s, events[0]), events[1..]);
    }
  }

  ghost predicate KeysDiffer(s: seq<PreparedSession>) {
    forall i, j :: 0 <= i < j < |s| ==> s[i].keys != s[j].keys
  }

  lemma CountIn(p: PreparedSession, s: seq<PreparedSession>)
    ensures Count(p, s) > 0 <==> p in s
  {
  }

  lemma CountTwice(s: seq<PreparedSession>, i: nat, j: nat)
    requires i < j < |s| && s[i] == s[j]
    ensures Count(s[i], s) >= 2
  {
    hide Count;
    var p := s[i];
    assert s == s[..j] + s[j..];
    CountAppend(p, s[..j], s[j..]);
    assert s[..j][i] == p && s[j..][0] == p;
    CountIn(p, s[..j]);
    CountIn(p, s[j..]);
  }

  lemma CountOnce(p: PreparedSession, s: seq<PreparedSession>)
    requires KeysDiffer(s)
    ensures Count(p, s) <= 1
  {
    hide Count;
    CountIn(p, s);
    if p in s {
      var i :| 0 <= i < |s| && s[i] == p;
      CountWithout(p, s, i);
      CountOne(p, s[i]);
      CountIn(p, s[..i] + s[i + 1..]);
      assert p !in s[..i] && p !in s[i + 1..];
    }
  }

  /**
    Over every interleaving of setups and claims: what is handed out was prepared, opens the frame it is handed out for,
    and is less than 10 s old; each preparation is handed out at most once; while it is not over its time and has
    not been handed out, it is there to be; and nothing else is, and that oldest first.
   */
  lemma HandedOutOnce(c: Cipher, events: seq<Event>)
    ensures var s := Run(c, Initially, events);
      && (forall h :: h in s.handed ==> h.session in s.made && Rightly(c, h))
      && (forall p: PreparedSession :: Count(p, SessionsIn(s.handed)) <= Count(p, s.made))
      && (KeysDiffer(s.made) ==> KeysDiffer(SessionsIn(s.handed)))
      && (forall p :: p in s.made && Alive(p, s.now) && p !in SessionsIn(s.handed) ==> p in s.prepared)
      && Waiting(s.prepared, s.now)
  {
    hide Run, Count, Rightly;
    var s := Run(c, Initially, events);
    StartConserves(c);
    RunKeepsWaiting(c, Initially, events);
    RunConserves(c, Initially, events);
    var out := SessionsIn(s.handed);
    forall p: PreparedSession
      ensures p in out ==> p in s.made
      ensures p in s.made && Alive(p, s.now) && p !in out ==> p in s.prepared
    {
      CountIn(p, out);
      CountIn(p, s.made);
      CountIn(p, s.prepared);
    }
    forall h | h in s.handed ensures h.session in s.made {
      var i :| 0 <= i < |s.handed| && s.handed[i] == h;
      assert out[i] in out;
    }
    if KeysDiffer(s.made) { OnceEach(s); }
  }

  lemma StartConserves(c: Cipher)
    ensures Conserved(Initially) && InTime(c, Initially)
  {
  }

  lemma OnceEach(s: Sessions)
    requires Conserved(s) && KeysDiffer(s.made)
    ensures KeysDiffer(SessionsIn(s.handed))
  {
    hide Count;
    var out := SessionsIn(s.handed);
    forall i, j | 0 <= i < j < |out| ensures out[i].keys != out[j].keys {
      var p, q := out[i], out[j];
      CountIn(p, out);
      CountIn(q, out);
      CountIn(p, s.made);
      CountIn(q, s.made);
      CountOnce(p, s.made);
      assert Count(p, out) <= Count(p, s.made) && Count(q, out) <= Count(q, s.made);
      if p == q { CountTwice(out, i, j); }
    }
  }
}
