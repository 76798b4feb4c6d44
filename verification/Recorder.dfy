/**
  The rolling prebuffer and its live subscribers (src/hsv/fmp4.rs:16-29, 118-231, 281-302). Every locked
  section is one step; a parser commits a fragment under the lock and publishes it after letting go of it,
  so anything may happen in between.
 */
module Recorder {
  import opened Wrappers
  import opened Bytes

  /** `at`: when the fragment was complete, in milliseconds. */
  datatype Fragment = Fragment(data: bytes, at: nat)

  /** What two configurations are compared by; only the window matters to the buffer. */
  datatype Config = Config(source: bytes, prebufferMs: nat)

  const MAX_FRAGMENTS := 8

  /** Clock readings, in the order they are taken. */
  type Clock = nat -> nat

  function Elapsed(now: nat, at: nat): nat {
    if now < at then 0 else now - at
  }

  function Cutoff(config: Config): nat {
    config.prebufferMs + 1000
  }

  // --- The state under the lock ---

  datatype Shared = Shared(initSegment: Option<bytes>, prebuffer: seq<Fragment>,
                           child: bool, generation: nat, config: Option<Config>)

  const Idle := Shared(None, [], false, 0, None)

  predicate AlreadyRunning(s: Shared, config: Config) {
    s.child && s.config == Some(config)
  }

  function Started(s: Shared, config: Config, spawned: bool): Shared {
    if AlreadyRunning(s, config) then s
    else Shared(None, [], spawned, s.generation + 1, Some(config))
  }

  function Stopped(s: Shared): Shared {
    Shared(None, [], false, s.generation + 1, None)
  }

  /** Dropping fragments from the front; `i` counts the clock readings so far. */
  function Trim(buffer: seq<Fragment>, cutoff: nat, clock: Clock, i: nat): seq<Fragment>
    decreases |buffer|
  {
    if MustDrop(buffer, cutoff, clock(i)) then Trim(buffer[1..], cutoff, clock, i + 1)
    else buffer
  }

  predicate MustDrop(buffer: seq<Fragment>, cutoff: nat, now: nat) {
    buffer != [] && (Elapsed(now, buffer[0].at) > cutoff || |buffer| > MAX_FRAGMENTS)
  }

  function Committed(s: Shared, generation: nat, init: bytes, f: Fragment, cutoff: nat, clock: Clock): Shared {
    if s.generation != generation then s
    else s.(initSegment := if s.initSegment.None? then Some(init) else s.initSegment,
            prebuffer := Trim(s.prebuffer + [f], cutoff, clock, 0))
  }

  class RecorderState {
    var initSegment: Option<bytes>
    var prebuffer: seq<Fragment>
    var child: bool
    var generation: nat
    var config: Option<Config>

    constructor ()
      ensures Contents() == Idle
    {
      initSegment, prebuffer, child, generation, config := None, [], false, 0, None;
    }

    ghost function Contents(): Shared
      reads this
    {
      Shared(initSegment, prebuffer, child, generation, config)
    }

    /** `spawned`: ffmpeg could be started. The result is the generation a new parser works for. */
    method Start(c: Config, spawned: bool) returns (parser: Option<nat>)
      modifies this
      ensures Contents() == Started(old(Contents()), c, spawned)
      ensures parser == if !AlreadyRunning(old(Contents()), c) && spawned then Some(generation) else None
    {
      if child && config == Some(c) { return None; }
      config := Some(c);
      generation := generation + 1;
      child := false;
      initSegment := None;
      prebuffer := [];
      if spawned {
        child := true;
        parser := Some(generation);
      } else {
        parser := None;
      }
    }

    method Stop()
      modifies this
      ensures Contents() == Stopped(old(Contents()))
    {
      generation := generation + 1;
      config := None;
      child := false;
      initSegment := None;
      prebuffer := [];
    }

    /** The locked part of the parse loop; `publish` is false when a restart has superseded the parser. */
    method Commit(parser: nat, init: bytes, fragment: Fragment, cutoff: nat, clock: Clock) returns (publish: bool)
      modifies this
      ensures Contents() == Committed(old(Contents()), parser, init, fragment, cutoff, clock)
      ensures publish <==> old(generation) == parser
    {
      if generation != parser { return false; }
      if initSegment.None? { initSegment := Some(init); }
      prebuffer := prebuffer + [fragment];
      ghost var pushed, settled := prebuffer, initSegment;
      var i := 0;
      while prebuffer != []
        invariant Trim(pushed, cutoff, clock, 0) == Trim(prebuffer, cutoff, clock, i)
        invariant initSegment == settled && child == old(child) && generation == old(generation) && config == old(config)
        decreases |prebuffer|
      {
        if Elapsed(clock(i), prebuffer[0].at) > cutoff || |prebuffer| > MAX_FRAGMENTS {
          prebuffer := prebuffer[1..];
          i := i + 1;
        } else {
          break;
        }
      }
      publish := true;
    }

    method Snapshot() returns (init: Option<bytes>, fragments: seq<Fragment>)
      ensures init == Contents().initSegment && fragments == Contents().prebuffer
    {
      init, fragments := initSegment, prebuffer;
    }
  }

  // --- What trimming keeps ---

  predicate IsSuffix<T(==)>(a: seq<T>, b: seq<T>) {
    |a| <= |b| && b[|b| - |a|..] == a
  }

  lemma {:induction false} SuffixShorter<T>(a: seq<T>, b: seq<T>, c: seq<T>)
    requires IsSuffix(a, b) && IsSuffix(b, c)
    ensures IsSuffix(a, c)
  {
    assert c[|c| - |a|..] == c[|c| - |b|..][|b| - |a|..];
  }

  lemma TrimStep(buffer: seq<Fragment>, cutoff: nat, clock: Clock, i: nat)
    ensures Trim(buffer, cutoff, clock, i)
         == if MustDrop(buffer, cutoff, clock(i)) then Trim(buffer[1..], cutoff, clock, i + 1) else buffer
  {
  }

  lemma {:induction false} TrimIsSuffix(buffer: seq<Fragment>, cutoff: nat, clock: Clock, i: nat)
    ensures var r := Trim(buffer, cutoff, clock, i);
      IsSuffix(r, buffer) && |r| <= 8
    decreases |buffer|
  {
    if MustDrop(buffer, cutoff, clock(i)) {
      TrimIsSuffix(buffer[1..], cutoff, clock, i + 1);
      SuffixShorter(Trim(buffer[1..], cutoff, clock, i + 1), buffer[1..], buffer);
    }
  }

  /** Every reading from the i-th to the j-th is at most `now`. */
  ghost predicate ReadBy(clock: Clock, i: nat, j: nat, now: nat) {
    forall n: nat :: i <= n <= j ==> clock(n) <= now
  }

  predicate WithinWindow(f: Fragment, cutoff: nat, now: nat) {
    now <= f.at + cutoff
  }

  ghost predicate AllWithinWindow(fs: seq<Fragment>, cutoff: nat, now: nat) {
    forall f :: f in fs ==> WithinWindow(f, cutoff, now)
  }

  lemma AllWithinMore(fs: seq<Fragment>, cutoff: nat, now: nat)
    requires fs != [] && AllWithinWindow(fs, cutoff, now)
    ensures WithinWindow(fs[0], cutoff, now) && AllWithinWindow(fs[1..], cutoff, now)
  {
  }

  lemma ReadLater(clock: Clock, i: nat, j: nat, now: nat)
    requires ReadBy(clock, i, j, now)
    ensures ReadBy(clock, i + 1, j, now)
    ensures i <= j ==> clock(i) <= now
  {
  }

  /**
    Of the newest eight, whatever is still within the window when trimming ends stays, with all that is
    newer.
   */
  lemma {:induction false} TrimKeepsTheWindow(buffer: seq<Fragment>, cutoff: nat, clock: Clock, i: nat, k: nat, now: nat)
    requires k <= |buffer| && ReadBy(clock, i, i + |buffer|, now)
    requires AllWithinWindow(buffer[k..], cutoff, now)
    ensures var r := Trim(buffer, cutoff, clock, i);
      |r| <= |buffer| && (|r| >= |buffer| - k || |r| == 8)
    decreases |buffer|
  {
    hide Trim, ReadBy, AllWithinWindow, IsSuffix;
    TrimStep(buffer, cutoff, clock, i);
    if MustDrop(buffer, cutoff, clock(i)) {
      ReadLater(clock, i, i + |buffer|, now);
      if k > 0 {
        assert buffer[1..][k - 1..] == buffer[k..];
        TrimKeepsTheWindow(buffer[1..], cutoff, clock, i + 1, k - 1, now);
      } else {
        assert buffer[0..] == buffer && buffer[1..][0..] == buffer[1..];
        AllWithinMore(buffer, cutoff, now);
        TrimIsSuffix(buffer[1..], cutoff, clock, i + 1);
        TrimKeepsTheWindow(buffer[1..], cutoff, clock, i + 1, 0, now);
      }
    }
  }

  /** And the oldest one left was within the window when it was looked at. */
  lemma {:induction false} TrimDropsTheOld(buffer: seq<Fragment>, cutoff: nat, clock: Clock, i: nat)
    ensures var r := Trim(buffer, cutoff, clock, i);
      |r| <= |buffer| && (r != [] ==> WithinWindow(r[0], cutoff, clock(i + |buffer| - |r|)))
    decreases |buffer|
  {
    if MustDrop(buffer, cutoff, clock(i)) {
      TrimDropsTheOld(buffer[1..], cutoff, clock, i + 1);
    }
  }

  // --- All interleavings ---

  /** One parser per started generation: all it ever committed, and how many of those it has published. */
  datatype Parser = Parser(init: bytes, cutoff: nat, committed: seq<Fragment>, published: nat, done: bool)

  datatype Message = Message(generation: nat, fragment: Fragment)

  datatype World = World(shared: Shared, parsers: map<nat, Parser>, bus: seq<Message>)

  const Initially := World(Idle, map[], [])

  /** `init`: what the new parser's stream carries before its first moof. */
  datatype Event =
    | Start(config: Config, spawned: bool, init: bytes)
    | Stop
    | Commit(parser: nat, fragment: Fragment, clock: Clock)
    | Publish(parser: nat)

  /** A parser commits only after publishing what it committed before; events that cannot happen change nothing. */
  function Next(w: World, e: Event): World {
    match e
    case Start(config, spawned, init) =>
      var shared := Started(w.shared, config, spawned);
      if AlreadyRunning(w.shared, config) || !spawned then w.(shared := shared)
      else w.(shared := shared,
              parsers := w.parsers[shared.generation := Parser(init, Cutoff(config), [], 0, false)])
    case Stop => w.(shared := Stopped(w.shared))
    case Commit(g, f, clock) =>
      if g !in w.parsers || w.parsers[g].done || w.parsers[g].published != |w.parsers[g].committed| then w
      else
        var p := w.parsers[g];
        var q := if w.shared.generation != g then p.(done := true) else p.(committed := p.committed + [f]);
        World(Committed(w.shared, g, p.init, f, p.cutoff, clock), w.parsers[g := q], w.bus)
    case Publish(g) =>
      if g !in w.parsers || w.parsers[g].published >= |w.parsers[g].committed| then w
      else
        var p := w.parsers[g];
        w.(parsers := w.parsers[g := p.(published := p.published + 1)],
           bus := w.bus + [Message(g, p.committed[p.published])])
  }

  function Run(w: World, events: seq<Event>): World
    decreases |events|
  {
    if events == [] then w else Run(Next(w, events[0]), events[1..])
  }

  /** The fragments of one generation on the bus. */
  function Of(g: nat, messages: seq<Message>): seq<Fragment> {
    if messages == [] then []
    else (if messages[0].generation == g then [messages[0].fragment] else []) + Of(g, messages[1..])
  }

  function CommittedBy(w: World, g: nat): seq<Fragment> {
    if g in w.parsers then w.parsers[g].committed else []
  }

  function PublishedBy(w: World, g: nat): nat {
    if g in w.parsers then w.parsers[g].published else 0
  }

  lemma {:induction false} OfAppend(g: nat, a: seq<Message>, b: seq<Message>)
    ensures Of(g, a + b) == Of(g, a) + Of(g, b)
  {
    if a == [] {
      Unit(b);
      Unit(Of(g, b));
    } else {
      OfAppend(g, a[1..], b);
      assert (a + b)[1..] == a[1..] + b;
      Assoc(if a[0].generation == g then [a[0].fragment] else [], Of(g, a[1..]), Of(g, b));
    }
  }

  lemma OfOne(g: nat, m: Message)
    ensures Of(g, [m]) == if m.generation == g then [m.fragment] else []
  {
    assert [m][1..] == [];
  }

  // --- Invariants ---

  /** What the lock protects belongs to the current generation alone. */
  ghost predicate SharedCoherent(w: World) {
    var current := CommittedBy(w, w.shared.generation);
    && |w.shared.prebuffer| <= MAX_FRAGMENTS
    && IsSuffix(w.shared.prebuffer, current)
    && (w.shared.initSegment.None? <==> current == [])
    && (w.shared.initSegment.Some? ==>
          w.shared.generation in w.parsers && w.shared.initSegment.value == w.parsers[w.shared.generation].init)
  }

  /** At most one fragment is committed and not yet published; everything else is on the bus, in order. */
  ghost predicate ParserCoherent(w: World, g: nat) {
    && PublishedBy(w, g) <= |CommittedBy(w, g)| <= PublishedBy(w, g) + 1
    && Of(g, w.bus) == CommittedBy(w, g)[..PublishedBy(w, g)]
    && (g in w.parsers ==> g <= w.shared.generation)
    && (g in w.parsers && w.parsers[g].done ==> g < w.shared.generation)
  }

  ghost predicate Coherent(w: World) {
    SharedCoherent(w) && forall g: nat :: ParserCoherent(w, g)
  }

  lemma CommittedExtends(s: Shared, init: bytes, f: Fragment, cutoff: nat, clock: Clock, earlier: seq<Fragment>)
    requires IsSuffix(s.prebuffer, earlier)
    ensures var r := Committed(s, s.generation, init, f, cutoff, clock);
      && r.generation == s.generation
      && r.initSegment == (if s.initSegment.None? then Some(init) else s.initSegment)
      && |r.prebuffer| <= MAX_FRAGMENTS && IsSuffix(r.prebuffer, earlier + [f])
  {
    hide Trim, IsSuffix;
    var pushed := s.prebuffer + [f];
    PushedSuffix(s.prebuffer, earlier, f);
    TrimIsSuffix(pushed, cutoff, clock, 0);
    SuffixShorter(Trim(pushed, cutoff, clock, 0), pushed, earlier + [f]);
  }

  lemma CommitKeepsShared(w: World, g: nat, f: Fragment, clock: Clock)
    requires SharedCoherent(w)
    ensures SharedCoherent(Next(w, Commit(g, f, clock)))
  {
    hide IsSuffix;
    if g == w.shared.generation && g in w.parsers {
      hide Committed;
      var p := w.parsers[g];
      CommittedExtends(w.shared, p.init, f, p.cutoff, clock, p.committed);
    }
  }

  lemma PushedSuffix(a: seq<Fragment>, b: seq<Fragment>, f: Fragment)
    requires IsSuffix(a, b)
    ensures IsSuffix(a + [f], b + [f])
  {
  }

  lemma RestartKeepsShared(w: World, config: Config, spawned: bool, init: bytes)
    requires SharedCoherent(w)
    requires w.shared.generation + 1 !in w.parsers
    ensures SharedCoherent(Next(w, Start(config, spawned, init)))
    ensures SharedCoherent(Next(w, Stop))
  {
  }

  lemma PublishKeepsShared(w: World, g: nat)
    requires SharedCoherent(w)
    ensures SharedCoherent(Next(w, Publish(g)))
  {
    hide IsSuffix;
  }

  lemma NextKeepsShared(w: World, e: Event)
    requires Coherent(w)
    ensures SharedCoherent(Next(w, e))
  {
    hide Next, SharedCoherent, Of;
    assert ParserCoherent(w, w.shared.generation + 1);
    match e
    case Commit(g, f, clock) => CommitKeepsShared(w, g, f, clock);
    case Publish(g) => PublishKeepsShared(w, g);
    case Start(config, spawned, init) => RestartKeepsShared(w, config, spawned, init);
    case Stop => RestartKeepsShared(w, Config([], 0), false, []);
  }

  lemma NextKeepsParser(w: World, e: Event, g: nat)
    requires ParserCoherent(w, g)
    ensures ParserCoherent(Next(w, e), g)
  {
    hide Next, ParserCoherent;
    match e
    case Publish(h) => PublishKeepsParser(w, h, g);
    case Commit(h, f, clock) => CommitKeepsParser(w, h, f, clock, g);
    case Start(config, spawned, init) => RestartKeepsParser(w, config, spawned, init, g);
    case Stop => RestartKeepsParser(w, Config([], 0), false, [], g);
  }

  lemma RestartKeepsParser(w: World, config: Config, spawned: bool, init: bytes, g: nat)
    requires ParserCoherent(w, g)
    ensures ParserCoherent(Next(w, Start(config, spawned, init)), g)
    ensures ParserCoherent(Next(w, Stop), g)
  {
    hide Of;
  }

  lemma PublishKeepsParser(w: World, h: nat, g: nat)
    requires ParserCoherent(w, g)
    ensures ParserCoherent(Next(w, Publish(h)), g)
  {
    hide Of;
    if h in w.parsers && w.parsers[h].published < |w.parsers[h].committed| {
      var p := w.parsers[h];
      var m := Message(h, p.committed[p.published]);
      OfAppend(g, w.bus, [m]);
      OfOne(g, m);
      Unit(Of(g, w.bus));
      if g == h {
        assert p.committed[..p.published] + [m.fragment] == p.committed[..p.published + 1];
      }
    }
  }

  lemma CommitKeepsParser(w: World, h: nat, f: Fragment, clock: Clock, g: nat)
    requires ParserCoherent(w, g)
    ensures ParserCoherent(Next(w, Commit(h, f, clock)), g)
  {
    hide Of, Trim;
    if h == g && g in w.parsers {
      var c := w.parsers[g].committed;
      assert (c + [f])[..|c|] == c[..|c|];
    }
  }

  lemma {:induction false} RunKeepsCoherent(w: World, events: seq<Event>)
    requires Coherent(w)
    ensures Coherent(Run(w, events))
    decreases |events|
  {
    hide Next, SharedCoherent, ParserCoherent;
    if events != [] {
      NextKeepsShared(w, events[0]);
      forall g: nat ensures ParserCoherent(Next(w, events[0]), g) { NextKeepsParser(w, events[0], g); }
      RunKeepsCoherent(Next(w, events[0]), events[1..]);
    }
  }

  /** Every reachable state, from an idle recorder on. */
  lemma RunsAreCoherent(events: seq<Event>)
    ensures Coherent(Run(Initially, events))
  {
    forall g: nat ensures ParserCoherent(Initially, g) { Unit(CommittedBy(Initially, g)); }
    RunKeepsCoherent(Initially, events);
  }

  /** Every snapshot ever taken: at most eight fragments, the newest ones of one generation, and, if there is
      any, the init segment of that same generation. */
  lemma SnapshotsAreCoherent(events: seq<Event>)
    ensures var w := Run(Initially, events);
      var g := w.shared.generation;
      && |w.shared.prebuffer| <= 8
      && IsSuffix(w.shared.prebuffer, CommittedBy(w, g))
      && (w.shared.prebuffer != [] ==> g in w.parsers && w.shared.initSegment == Some(w.parsers[g].init))
  {
    hide Run, ParserCoherent;
    RunsAreCoherent(events);
  }

  // --- What a start and a commit do ---

  ghost predicate IsQuiet(events: seq<Event>) {
    forall e :: e in events ==> e.Commit? || e.Publish?
  }

  lemma {:induction false} QuietKeepsRunning(w: World, events: seq<Event>)
    requires IsQuiet(events)
    ensures var v := Run(w, events);
      v.shared.child == w.shared.child && v.shared.config == w.shared.config && v.shared.generation == w.shared.generation
    decreases |events|
  {
    hide Trim;
    if events != [] {
      assert events[0] in events;
      assert forall e :: e in events[1..] ==> e in events;
      QuietKeepsRunning(Next(w, events[0]), events[1..]);
    }
  }

  /** A new generation with nothing in it, and a parser for it if ffmpeg could be started. */
  ghost predicate BegunAnew(w: World, config: Config, spawned: bool, init: bytes, v: World) {
    && v.shared == Shared(None, [], spawned, w.shared.generation + 1, Some(config))
    && v.parsers == (if spawned then w.parsers[w.shared.generation + 1 := Parser(init, config.prebufferMs + 1000, [], 0, false)]
                     else w.parsers)
    && v.bus == w.bus
  }

  /** Asking again for what was started changes nothing at all, however much has been committed since; after a stop, with
      another configuration, or if ffmpeg could not be started, everything begins anew. */
  lemma WhenAStartCounts(w: World, first: Event, since: seq<Event>, config: Config, spawned: bool, init: bytes)
    requires IsQuiet(since) && (first.Start? || first.Stop?)
    ensures var v := Run(Next(w, first), since);
      var u := Next(v, Start(config, spawned, init));
      && (first.Start? && first.config == config && first.spawned ==> u == v)
      && (first.Stop? || first.config != config || (!w.shared.child && !first.spawned) ==> BegunAnew(v, config, spawned, init, u))
  {
    hide Run;
    QuietKeepsRunning(Next(w, first), since);
  }

  /** A commit of the current generation adds its fragment; of the newest eight then whatever is in the window stays,
      with all that is newer, and the oldest one left was in it when it was looked at. */
  lemma CommitKeepsTheWindow(w: World, f: Fragment, clock: Clock, k: nat, now: nat)
    requires var g := w.shared.generation;
      g in w.parsers && !w.parsers[g].done && w.parsers[g].published == |w.parsers[g].committed|
    requires var pushed, cutoff := w.shared.prebuffer + [f], w.parsers[w.shared.generation].cutoff;
      k <= |pushed| && ReadBy(clock, 0, |pushed|, now) && AllWithinWindow(pushed[k..], cutoff, now)
    ensures var pushed, cutoff := w.shared.prebuffer + [f], w.parsers[w.shared.generation].cutoff;
      var r := Next(w, Commit(w.shared.generation, f, clock)).shared.prebuffer;
      && IsSuffix(r, pushed) && |r| <= 8 && (|r| >= |pushed| - k || |r| == 8)
      && (r != [] ==> WithinWindow(r[0], cutoff, clock(|pushed| - |r|)))
  {
    hide Trim, ReadBy, AllWithinWindow, WithinWindow, IsSuffix;
    var pushed, cutoff := w.shared.prebuffer + [f], w.parsers[w.shared.generation].cutoff;
    TrimIsSuffix(pushed, cutoff, clock, 0);
    TrimKeepsTheWindow(pushed, cutoff, clock, 0, k, now);
    TrimDropsTheOld(pushed, cutoff, clock, 0);
  }

  // --- Runs only ever add ---

  ghost predicate Extends(w: World, v: World, g: nat) {
    && w.shared.generation <= v.shared.generation
    && w.bus <= v.bus
    && CommittedBy(w, g) <= CommittedBy(v, g)
    && PublishedBy(w, g) <= PublishedBy(v, g)
    && (g < w.shared.generation ==> CommittedBy(v, g) == CommittedBy(w, g))
  }

  lemma NextExtends(w: World, e: Event, g: nat)
    requires ParserCoherent(w, g)
    ensures Extends(w, Next(w, e), g)
  {
    hide Trim, Of;
  }

  lemma {:induction false} RunExtends(w: World, events: seq<Event>, g: nat)
    requires Coherent(w)
    ensures Extends(w, Run(w, events), g)
    decreases |events|
  {
    hide Next, SharedCoherent;
    if events != [] {
      RunKeepsCoherent(w, [events[0]]);
      assert [events[0]][1..] == [];
      assert Run(w, [events[0]]) == Next(w, events[0]);
      NextExtends(w, events[0], g);
      RunExtends(Next(w, events[0]), events[1..], g);
    }
  }

  lemma ParserFacts(w: World, g: nat)
    requires Coherent(w)
    ensures ParserCoherent(w, g) && SharedCoherent(w)
  {
    hide ParserCoherent, SharedCoherent;
  }

  /** What is known of one generation before and after a run. */
  lemma RunFacts(w: World, events: seq<Event>, g: nat)
    requires Coherent(w)
    ensures var v := Run(w, events);
      ParserCoherent(w, g) && SharedCoherent(w) && ParserCoherent(v, g) && Extends(w, v, g)
  {
    hide Run, Coherent, ParserCoherent, SharedCoherent, Extends;
    RunKeepsCoherent(w, events);
    RunExtends(w, events, g);
    ParserFacts(w, g);
    ParserFacts(Run(w, events), g);
  }

  // --- What a subscriber gets ---

  /** Fragments of a generation committed but not yet published: none or one. */
  function InFlight(w: World, g: nat): int {
    |CommittedBy(w, g)| - PublishedBy(w, g)
  }

  /** What the bus has carried since. */
  function Since(w: World, v: World): seq<Message>
    requires w.bus <= v.bus
  {
    v.bus[|w.bus|..]
  }

  lemma SinceOf(w: World, v: World, g: nat)
    requires ParserCoherent(w, g) && ParserCoherent(v, g) && Extends(w, v, g)
    ensures Of(g, Since(w, v)) == CommittedBy(v, g)[PublishedBy(w, g)..PublishedBy(v, g)]
  {
    hide Of;
    var c := CommittedBy(v, g);
    assert w.bus + Since(w, v) == v.bus;
    OfAppend(g, w.bus, Since(w, v));
    assert CommittedBy(w, g)[..PublishedBy(w, g)] == c[..PublishedBy(w, g)];
    var live := Of(g, Since(w, v));
    assert c[..PublishedBy(w, g)] + live == c[..PublishedBy(v, g)];
    assert live == c[..PublishedBy(v, g)][PublishedBy(w, g)..];
  }

  /**
    The snapshot begins at place `first` of what was produced. With nothing live it is just a stretch of that; otherwise
    the snapshot and then the live fragments without the first `repeated` reach up to `published` without a gap, and
    the one fragment repeated is the snapshot's last.
   */
  ghost predicate Gapless(snapshot: seq<Fragment>, live: seq<Fragment>, produced: seq<Fragment>,
                          first: int, published: int, repeated: int) {
    && 0 <= repeated <= 1 && 0 <= first
    && if live == [] then
         first + |snapshot| <= |produced| && snapshot == produced[first..first + |snapshot|]
       else
         && first <= published <= |produced| && repeated <= |live|
         && snapshot + live[repeated..] == produced[first..published]
         && (repeated == 1 && snapshot != [] ==> Repeats(snapshot, live))
  }

  /** The first live fragment is the snapshot's last. */
  predicate Repeats(snapshot: seq<Fragment>, live: seq<Fragment>) {
    snapshot != [] && live != [] && live[0] == snapshot[|snapshot| - 1]
  }

  /** The places of the snapshot and of the live fragments in what the parser had produced in the end. */
  lemma Places(w: World, v: World)
    requires SharedCoherent(w) && ParserCoherent(w, w.shared.generation)
    requires ParserCoherent(v, w.shared.generation) && Extends(w, v, w.shared.generation)
    ensures var g, snapshot := w.shared.generation, w.shared.prebuffer;
      var produced, known, from, to := CommittedBy(v, g), |CommittedBy(w, g)|, PublishedBy(w, g), PublishedBy(v, g);
      && w.bus <= v.bus
      && |snapshot| <= known <= |produced| && from <= to <= |produced| && from <= known <= from + 1
      && snapshot == produced[known - |snapshot|..known]
  {
    hide CommittedBy, PublishedBy, Of, IsSuffix;
    var g, snapshot := w.shared.generation, w.shared.prebuffer;
    var before := CommittedBy(w, g);
    SuffixOfPrefix(snapshot, before, CommittedBy(v, g));
  }

  lemma SuffixOfPrefix<T>(a: seq<T>, b: seq<T>, c: seq<T>)
    requires IsSuffix(a, b) && b <= c
    ensures |a| <= |b| <= |c| && a == c[|b| - |a|..|b|]
  {
    forall i | 0 <= i < |a| ensures a[i] == c[|b| - |a|..|b|][i] {
      assert b[|b| - |a|..][i] == b[|b| - |a| + i];
    }
  }

  /** Two slices that overlap, the second without the overlap. */
  lemma Overlap<T>(s: seq<T>, a: nat, b: nat, c: nat, d: nat)
    requires a <= c <= d <= |s| && b <= c
    ensures s[a..c] + s[b..d][c - b..] == s[a..d]
  {
  }

  lemma Stitch(produced: seq<Fragment>, first: nat, known: nat, from: nat, to: nat)
    requires first <= known <= |produced| && from <= to <= |produced| && from <= known <= from + 1
    ensures Gapless(produced[first..known], produced[from..to], produced, first, to, known - from)
  {
    hide Repeats;
    if from < to {
      Overlap(produced, first, from, known, to);
      if from < known && first < known { SlicesMeet(produced, first, from, to); }
    }
  }

  lemma SlicesMeet(s: seq<Fragment>, a: nat, b: nat, c: nat)
    requires a <= b < c <= |s|
    ensures Repeats(s[a..b + 1], s[b..c])
  {
    assert s[a..b + 1][b - a] == s[b] == s[b..c][0];
  }

  lemma NothingMissed(w: World, v: World)
    requires SharedCoherent(w) && ParserCoherent(w, w.shared.generation)
    requires ParserCoherent(v, w.shared.generation) && Extends(w, v, w.shared.generation)
    ensures var g, snapshot := w.shared.generation, w.shared.prebuffer;
      && w.bus <= v.bus
      && Gapless(snapshot, Of(g, Since(w, v)), CommittedBy(v, g),
                 |CommittedBy(w, g)| - |snapshot|, PublishedBy(v, g), InFlight(w, g))
  {
    hide ParserCoherent, SharedCoherent, Extends, CommittedBy, PublishedBy, Of, Gapless;
    var g := w.shared.generation;
    Places(w, v);
    SinceOf(w, v, g);
    Stitch(CommittedBy(v, g), |CommittedBy(w, g)| - |w.shared.prebuffer|, |CommittedBy(w, g)|, PublishedBy(w, g), PublishedBy(v, g));
  }

  /**
    Subscribing at any moment, and whatever happens afterwards: the snapshot, and then the live fragments of
    its generation without the first `repeated`, are one gapless stretch of what that generation's parser
    produced; `repeated` is the number of fragments in flight, at most one, and that one is the snapshot's last.
   */
  lemma SubscriberMissesNothing(w: World, events: seq<Event>)
    requires Coherent(w)
    ensures var v, g, snapshot := Run(w, events), w.shared.generation, w.shared.prebuffer;
      && w.bus <= v.bus
      && Gapless(snapshot, Of(g, Since(w, v)), CommittedBy(v, g),
                 |CommittedBy(w, g)| - |snapshot|, PublishedBy(v, g), InFlight(w, g))
  {
    hide Run, Coherent, ParserCoherent, SharedCoherent, Extends, CommittedBy, PublishedBy, Of, Gapless;
    var v, g := Run(w, events), w.shared.generation;
    RunFacts(w, events, g);
    NothingMissed(w, v);
  }

  /** A superseded parser commits nothing more, and of it the bus sees at most the fragment in flight. */
  lemma SupersededIsNearlySilent(w: World, events: seq<Event>, g: nat)
    requires Coherent(w) && g < w.shared.generation
    ensures var v := Run(w, events);
      && w.bus <= v.bus
      && CommittedBy(v, g) == CommittedBy(w, g)
      && 0 <= InFlight(w, g) && Of(g, Since(w, v)) <= CommittedBy(w, g)[PublishedBy(w, g)..]
      && |Of(g, Since(w, v))| <= InFlight(w, g) <= 1
  {
    hide Run, Coherent, SharedCoherent, Of;
    RunFacts(w, events, g);
    SinceOf(w, Run(w, events), g);
  }

  /** Nor does it touch the buffer, the init segment or anything else under the lock. */
  lemma {:induction false} SupersededChangesNothing(w: World, events: seq<Event>)
    requires forall e :: e in events ==> e.Publish? || (e.Commit? && e.parser != w.shared.generation)
    ensures Run(w, events).shared == w.shared
    decreases |events|
  {
    hide Trim;
    if events != [] {
      assert events[0] in events;
      assert forall e :: e in events[1..] ==> e in events;
      SupersededChangesNothing(Next(w, events[0]), events[1..]);
    }
  }

  // --- Fragments of another generation ---

  predicate Foreign(messages: seq<Message>, g: nat) {
    exists m :: m in messages && m.generation != g
  }

  lemma {:induction false} OfMember(m: Message, messages: seq<Message>)
    requires m in messages
    ensures Of(m.generation, messages) != []
  {
    if messages[0] != m { OfMember(m, messages[1..]); }
  }

  /** While its generation lasts a subscriber gets nothing foreign, unless a superseded parser's fragment was in
      flight when it subscribed ... */
  lemma OwnFragmentsOnly(w: World, events: seq<Event>)
    requires Coherent(w)
    requires Run(w, events).shared.generation == w.shared.generation
    requires forall g: nat :: g < w.shared.generation ==> InFlight(w, g) == 0
    ensures w.bus <= Run(w, events).bus
    ensures !Foreign(Since(w, Run(w, events)), w.shared.generation)
  {
    hide Run, Coherent, SharedCoherent, ParserCoherent, Of, InFlight, Since;
    var v := Run(w, events);
    RunFacts(w, events, 0);
    hide Extends;
    forall m | m in Since(w, v) ensures m.generation == w.shared.generation {
      OfMember(m, Since(w, v));
      if m.generation < w.shared.generation {
        SupersededIsNearlySilent(w, events, m.generation);
      } else if m.generation > w.shared.generation {
        NothingFromLater(w, events, m.generation);
      }
    }
  }

  /** A generation that has not begun has published nothing. */
  lemma NothingFromLater(w: World, events: seq<Event>, g: nat)
    requires Coherent(w) && g > Run(w, events).shared.generation
    ensures w.bus <= Run(w, events).bus && Of(g, Since(w, Run(w, events))) == []
  {
    hide Run, Coherent, SharedCoherent, Of;
    RunFacts(w, events, g);
    SinceOf(w, Run(w, events), g);
  }

  /** ... and then it may well get that one: publication is not guarded by the generation. */
  lemma ForeignFragmentArrives(w: World, g: nat)
    requires Coherent(w) && g < w.shared.generation && InFlight(w, g) > 0
    ensures var v := Run(w, [Publish(g)]);
      && v.shared == w.shared && w.bus <= v.bus
      && Foreign(Since(w, v), w.shared.generation)
  {
    hide Of;
    assert ParserCoherent(w, g);
    var v := Next(w, Publish(g));
    assert [Publish(g)][1..] == [];
    assert Run(w, [Publish(g)]) == Run(v, []) == v;
    var m := Message(g, w.parsers[g].committed[w.parsers[g].published]);
    assert Since(w, v) == [m];
    assert m in Since(w, v);
  }

  ghost predicate OwnOnly(w: World, events: seq<Event>) {
    var v := Run(w, events);
    v.shared.generation == w.shared.generation ==> w.bus <= v.bus && !Foreign(Since(w, v), w.shared.generation)
  }

  lemma OwnOnlyExactlyWhenNothingStale(w: World)
    requires Coherent(w)
    ensures (forall events :: OwnOnly(w, events)) <==> (forall g: nat :: g < w.shared.generation ==> InFlight(w, g) == 0)
  {
    hide Coherent, Run, Since, Foreign, InFlight;
    if forall g: nat :: g < w.shared.generation ==> InFlight(w, g) == 0 {
      forall events ensures OwnOnly(w, events) {
        if Run(w, events).shared.generation == w.shared.generation { OwnFragmentsOnly(w, events); }
      }
    } else {
      var g: nat :| g < w.shared.generation && InFlight(w, g) != 0;
      SupersededIsNearlySilent(w, [], g);
      ForeignFragmentArrives(w, g);
      assert !OwnOnly(w, [Publish(g)]);
    }
  }

  lemma RunOfThree(w: World, a: Event, b: Event, c: Event)
    ensures Run(w, [a, b, c]) == Next(Next(Next(w, a), b), c)
  {
    hide Next;
    assert [a, b, c][1..] == [b, c] && [b, c][1..] == [c] && [c][1..] == [];
    assert Run(Next(Next(w, a), b), [c]) == Run(Next(Next(Next(w, a), b), c), []);
  }

  /** It happens: a restart between commit and publication, then a subscription. */
  lemma ForeignFragmentIsReachable(a: Config, b: Config, f: Fragment)
    requires a != b
    ensures var w := Run(Initially, [Start(a, true, []), Commit(1, f, _ => f.at), Start(b, true, [])]);
      && Coherent(w) && w.shared.prebuffer == [] && w.shared.generation == 2 && InFlight(w, 1) == 1
  {
    var commit := Commit(1, f, _ => f.at);
    var events := [Start(a, true, []), commit, Start(b, true, [])];
    RunsAreCoherent(events);
    hide Coherent, Run;
    var w1 := Next(Initially, events[0]);
    var w2 := Next(w1, commit);
    var w3 := Next(w2, events[2]);
    RunOfThree(Initially, events[0], commit, events[2]);
    assert w2.parsers[1].committed == [f];
  }
}
