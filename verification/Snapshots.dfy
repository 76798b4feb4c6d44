/**
  The snapshot cache (src/amcrest.rs:1540-1731): a refresher and any number of requests, each of which may be
  interrupted by the others wherever it waits. The steps below are the stretches between two waits.
 */
module Snapshots {
  import opened Wrappers
  import opened Bytes

  datatype Frame = Frame(generation: nat, fetchedAt: nat, fingerprint: nat, bytes: bytes)

  type Size = (nat, nat)

  /** A scaled picture and the frame it is said to come from. */
  datatype Scaled = Scaled(sourceGeneration: nat, sourceFetchedAt: nat, sourceFingerprint: nat, bytes: bytes)

  datatype Image = Image(bytes: bytes, sourceGeneration: nat, sourceAge: nat, sourceFingerprint: nat, outputFingerprint: nat)

  /** The hash function, and what scaling a picture to a size may give. */
  datatype Env = Env(hash: bytes -> nat, scales: (bytes, Size, bytes) -> bool)

  const REFRESH_DEDUP: nat := 1_000
  const MAX_AGE: nat := 120_000

  function Age(now: nat, fetchedAt: nat): (a: nat)
    ensures now <= fetchedAt + a && (a == 0 || now == fetchedAt + a)
  {
    if now < fetchedAt then 0 else now - fetchedAt
  }

  /** `validate_jpeg_envelope` */
  predicate IsJpeg(b: bytes) {
    |b| >= 4 && b[..2] == [0xff, 0xd8] && b[|b| - 2..] == [0xff, 0xd9]
  }

  // --- The shared cache ---

  datatype Cache = Cache(latest: Option<Frame>, scaled: map<Size, Scaled>, nextGeneration: nat)

  function Recent(c: Cache, now: nat, limit: nat): Option<Frame> {
    if c.latest.Some? && Age(now, c.latest.value.fetchedAt) <= limit then c.latest else None
  }

  function NextFrame(c: Cache, hash: bytes -> nat, b: bytes, now: nat): Frame {
    Frame(c.nextGeneration, now, hash(b), b)
  }

  predicate IsHit(c: Cache, size: Size, frame: Frame) {
    size in c.scaled && c.scaled[size].sourceGeneration == frame.generation
  }

  function Stale(c: Cache, size: Size, now: nat): Option<Scaled> {
    if size in c.scaled && Age(now, c.scaled[size].sourceFetchedAt) <= MAX_AGE then Some(c.scaled[size]) else None
  }

  function ScaledFrom(frame: Frame, out: bytes): Scaled {
    Scaled(frame.generation, frame.fetchedAt, frame.fingerprint, out)
  }

  function ImageOf(e: Scaled, hash: bytes -> nat, now: nat): Image {
    Image(e.bytes, e.sourceGeneration, Age(now, e.sourceFetchedAt), e.sourceFingerprint, hash(e.bytes))
  }

  class SnapshotCache {
    var latest: Option<Frame>
    var scaled: map<Size, Scaled>
    var nextGeneration: nat

    constructor ()
      ensures Contents() == Cache(None, map[], 1)
    {
      latest, scaled, nextGeneration := None, map[], 1;
    }

    ghost function Contents(): Cache
      reads this
    {
      Cache(latest, scaled, nextGeneration)
    }

    /** A clone of the latest frame if it is young enough. */
    method Latest(now: nat, limit: nat) returns (r: Option<Frame>)
      ensures r == Recent(Contents(), now, limit)
    {
      r := None;
      if latest.Some? {
        var frame := latest.value;
        if Age(now, frame.fetchedAt) <= limit { r := Some(frame); }
      }
    }

    /** What the refresh makes of the camera's answer; only a JPEG uses up a generation. */
    method Accept(hash: bytes -> nat, b: bytes, now: nat) returns (r: Option<Frame>)
      modifies this`nextGeneration
      ensures r == if IsJpeg(b) then Some(NextFrame(old(Contents()), hash, b, now)) else None
      ensures nextGeneration == if IsJpeg(b) then old(nextGeneration) + 1 else old(nextGeneration)
    {
      if !IsJpeg(b) { return None; }
      var generation := nextGeneration;
      nextGeneration := nextGeneration + 1;
      r := Some(Frame(generation, now, hash(b), b));
    }

    method Publish(frame: Frame)
      modifies this`latest
      ensures latest == Some(frame)
    {
      latest := Some(frame);
    }

    /** The picture to serve at once, or the one to fall back on. */
    method Lookup(size: Size, frame: Frame, hash: bytes -> nat, now: nat) returns (hit: Option<Image>, stale: Option<Scaled>)
      ensures hit == if IsHit(Contents(), size, frame) then Some(ImageOf(ScaledFrom(frame, scaled[size].bytes), hash, now)) else None
      ensures hit.None? ==> stale == Stale(Contents(), size, now)
    {
      hit, stale := None, None;
      if size in scaled {
        var snapshot := scaled[size];
        if snapshot.sourceGeneration == frame.generation {
          hit := Some(Image(snapshot.bytes, frame.generation, Age(now, frame.fetchedAt), frame.fingerprint, hash(snapshot.bytes)));
          return;
        }
        if Age(now, snapshot.sourceFetchedAt) <= MAX_AGE { stale := Some(snapshot); }
      }
    }

    method Insert(size: Size, frame: Frame, out: bytes)
      modifies this`scaled
      ensures scaled == old(scaled)[size := ScaledFrom(frame, out)]
    {
      scaled := scaled[size := Scaled(frame.generation, frame.fetchedAt, frame.fingerprint, out)];
    }
  }

  // --- The refresher and the requests ---

  datatype Caller = Refresher | Request(id: nat)

  /** Who holds the refresh lock, and how far it has got. */
  datatype Lock = Free | Fetching(caller: Caller) | Writing(caller: Caller, frame: Frame)

  /** Where a request for a picture is; `at` is when its frame was looked up. */
  datatype Phase =
    | Wanting
    | Refreshing
    | Retrying
    | Holding(frame: Frame, at: nat)
    | Scaling(frame: Frame, at: nat, stale: Option<Scaled>, staleAt: nat)
    | Inserting(frame: Frame, at: nat, out: bytes)
    | Finished

  datatype Task = Task(size: Size, phase: Phase)

  /** A picture handed out, when its source was looked up, and when it was handed out. */
  datatype Served = Served(size: Size, image: Image, lookedUpAt: nat, servedAt: nat)

  /** `fetched`: every frame there ever was. */
  datatype World = World(cache: Cache, lock: Lock, now: nat, fetched: seq<Frame>, tasks: map<nat, Task>, served: seq<Served>)

  const Initially := World(Cache(None, map[], 1), Free, 0, [], map[], [])

  datatype Event =
    | Pass(ms: nat)
    | Ask(id: nat, size: Size)
    | LookUp(id: nat)
    | Lock(caller: Caller)
    | Fetched(answer: bytes)
    | FetchFailed
    | Write
    | Abandon
    | LookAgain(id: nat)
    | FindScaled(id: nat)
    | ScaleDone(id: nat, out: bytes)
    | ScaleFailed(id: nat)
    | Insert(id: nat)

  predicate In(w: World, id: nat, phase: Phase) {
    id in w.tasks && w.tasks[id].phase == phase
  }

  function To(w: World, id: nat, phase: Phase): World {
    if id in w.tasks then w.(tasks := w.tasks[id := w.tasks[id].(phase := phase)]) else w
  }

  /** The end of a refresh, as far as its caller is concerned. */
  function Deliver(w: World, caller: Caller, phase: Phase): World {
    if caller.Request? then To(w, caller.id, phase) else w
  }

  function Serve(w: World, id: nat, image: Image, at: nat): World
    requires id in w.tasks
  {
    To(w.(served := w.served + [Served(w.tasks[id].size, image, at, w.now)]), id, Finished)
  }

  /** Events that cannot happen change nothing. */
  function Next(env: Env, w: World, e: Event): World {
    match e
    case Pass(ms) => w.(now := w.now + ms)
    case Ask(id, size) => if id in w.tasks then w else w.(tasks := w.tasks[id := Task(size, Wanting)])
    case LookUp(id) =>
      if !In(w, id, Wanting) then w
      else
        var frame := Recent(w.cache, w.now, MAX_AGE);
        To(w, id, if frame.Some? then Holding(frame.value, w.now) else Refreshing)
    case Lock(caller) =>
      if !w.lock.Free? || (caller.Request? && !In(w, caller.id, Refreshing)) then w
      else
        var frame := Recent(w.cache, w.now, REFRESH_DEDUP);
        if frame.Some? then Deliver(w, caller, Holding(frame.value, w.now)) else w.(lock := Fetching(caller))
    case Fetched(answer) =>
      if !w.lock.Fetching? then w
      else if !IsJpeg(answer) then Deliver(w.(lock := Free), w.lock.caller, Retrying)
      else
        var frame := NextFrame(w.cache, env.hash, answer, w.now);
        w.(cache := w.cache.(nextGeneration := w.cache.nextGeneration + 1),
           fetched := w.fetched + [frame], lock := Writing(w.lock.caller, frame))
    case FetchFailed => if !w.lock.Fetching? then w else Deliver(w.(lock := Free), w.lock.caller, Retrying)
    case Write =>
      if !w.lock.Writing? then w
      else
        Deliver(w.(cache := w.cache.(latest := Some(w.lock.frame)), lock := Free), w.lock.caller,
                Holding(w.lock.frame, w.lock.frame.fetchedAt))
    case Abandon => w.(lock := Free)
    case LookAgain(id) =>
      if !In(w, id, Retrying) then w
      else
        var frame := Recent(w.cache, w.now, MAX_AGE);
        To(w, id, if frame.Some? then Holding(frame.value, w.now) else Finished)
    case FindScaled(id) =>
      if id !in w.tasks || !w.tasks[id].phase.Holding? then w
      else
        var size, frame, at := w.tasks[id].size, w.tasks[id].phase.frame, w.tasks[id].phase.at;
        if IsHit(w.cache, size, frame) then Serve(w, id, ImageOf(ScaledFrom(frame, w.cache.scaled[size].bytes), env.hash, w.now), at)
        else To(w, id, Scaling(frame, at, Stale(w.cache, size, w.now), w.now))
    case ScaleDone(id, out) =>
      if id !in w.tasks || !w.tasks[id].phase.Scaling? || !env.scales(w.tasks[id].phase.frame.bytes, w.tasks[id].size, out) then w
      else To(w, id, Inserting(w.tasks[id].phase.frame, w.tasks[id].phase.at, out))
    case ScaleFailed(id) =>
      if id !in w.tasks || !w.tasks[id].phase.Scaling? then w
      else
        var stale := w.tasks[id].phase.stale;
        if stale.Some? then Serve(w, id, ImageOf(stale.value, env.hash, w.now), w.tasks[id].phase.staleAt) else To(w, id, Finished)
    case Insert(id) =>
      if id !in w.tasks || !w.tasks[id].phase.Inserting? then w
      else
        var size, frame, out := w.tasks[id].size, w.tasks[id].phase.frame, w.tasks[id].phase.out;
        var inserted := w.(cache := w.cache.(scaled := w.cache.scaled[size := ScaledFrom(frame, out)]));
        Serve(inserted, id, ImageOf(ScaledFrom(frame, out), env.hash, w.now), w.tasks[id].phase.at)
  }

  function Run(env: Env, w: World, events: seq<Event>): World
    decreases |events|
  {
    if events == [] then w else Run(env, Next(env, w, events[0]), events[1..])
  }

  // --- Coherence ---

  /** The frame with this generation; generations count from one. */
  ghost predicate Known(fetched: seq<Frame>, f: Frame) {
    1 <= f.generation <= |fetched| && fetched[f.generation - 1] == f
  }

  /** The picture is a scaling of exactly the frame whose generation and fingerprint it records. */
  ghost predicate Faithful(env: Env, fetched: seq<Frame>, size: Size, e: Scaled) {
    && 1 <= e.sourceGeneration <= |fetched|
    && var f := fetched[e.sourceGeneration - 1];
       f.fetchedAt == e.sourceFetchedAt && f.fingerprint == e.sourceFingerprint && env.scales(f.bytes, size, e.bytes)
  }

  /** A frame known, and young enough when it was looked up. */
  ghost predicate Found(fetched: seq<Frame>, f: Frame, at: nat) {
    Known(fetched, f) && Age(at, f.fetchedAt) <= MAX_AGE
  }

  ghost predicate TaskCoherent(env: Env, fetched: seq<Frame>, t: Task) {
    match t.phase
    case Holding(f, at) => Found(fetched, f, at)
    case Scaling(f, at, stale, staleAt) =>
      Found(fetched, f, at)
      && (stale.Some? ==> Faithful(env, fetched, t.size, stale.value) && Age(staleAt, stale.value.sourceFetchedAt) <= MAX_AGE)
    case Inserting(f, at, out) => Found(fetched, f, at) && env.scales(f.bytes, t.size, out)
    case _ => true
  }

  /** What a served picture promises. */
  ghost predicate ServedCoherent(env: Env, fetched: seq<Frame>, s: Served) {
    && 1 <= s.image.sourceGeneration <= |fetched|
    && s.image.outputFingerprint == env.hash(s.image.bytes)
    && var f := fetched[s.image.sourceGeneration - 1];
       && f.fingerprint == s.image.sourceFingerprint
       && s.image.sourceAge == Age(s.servedAt, f.fetchedAt)
       && env.scales(f.bytes, s.size, s.image.bytes)
       && Age(s.lookedUpAt, f.fetchedAt) <= MAX_AGE
  }

  ghost predicate FramesCoherent(env: Env, w: World) {
    && w.cache.nextGeneration == |w.fetched| + 1
    && (forall i :: 0 <= i < |w.fetched| ==>
          w.fetched[i].generation == i + 1 && w.fetched[i].fingerprint == env.hash(w.fetched[i].bytes) && IsJpeg(w.fetched[i].bytes))
    && (w.cache.latest.Some? ==> Known(w.fetched, w.cache.latest.value))
    && (w.lock.Writing? ==> Known(w.fetched, w.lock.frame))
    && (w.lock.Writing? && w.cache.latest.Some? ==> w.cache.latest.value.generation < w.lock.frame.generation)
  }

  ghost predicate ScaledCoherent(env: Env, w: World) {
    forall size :: size in w.cache.scaled ==> Faithful(env, w.fetched, size, w.cache.scaled[size])
  }

  ghost predicate TasksCoherent(env: Env, w: World) {
    forall id :: id in w.tasks ==> TaskCoherent(env, w.fetched, w.tasks[id])
  }

  ghost predicate AllServedCoherent(env: Env, w: World) {
    forall i :: 0 <= i < |w.served| ==> ServedCoherent(env, w.fetched, w.served[i])
  }

  ghost predicate Coherent(env: Env, w: World) {
    FramesCoherent(env, w) && ScaledCoherent(env, w) && TasksCoherent(env, w) && AllServedCoherent(env, w)
  }

  lemma NextKeepsFrames(env: Env, w: World, e: Event)
    requires FramesCoherent(env, w)
    ensures FramesCoherent(env, Next(env, w, e))
    ensures w.fetched <= Next(env, w, e).fetched
  {
    hide IsJpeg, Age;
  }

  lemma NextKeepsScaled(env: Env, w: World, e: Event)
    requires ScaledCoherent(env, w) && TasksCoherent(env, w)
    ensures ScaledCoherent(env, Next(env, w, e))
  {
    hide IsJpeg, Age;
  }

  lemma NextKeepsTasks(env: Env, w: World, e: Event)
    requires Coherent(env, w)
    ensures TasksCoherent(env, Next(env, w, e))
  {
    assert forall t :: Age(t, t) == 0;
    hide IsJpeg, Age;
  }

  /** At most one picture is served at a time. */
  lemma ServedStay(env: Env, w: World, e: Event)
    ensures var v := Next(env, w, e);
      w.served <= v.served && |v.served| <= |w.served| + 1 && w.fetched <= v.fetched
  {
    hide IsJpeg, Age, Recent, IsHit, Stale;
  }

  lemma ServedStays(env: Env, fetched: seq<Frame>, more: seq<Frame>, s: Served)
    requires fetched <= more && ServedCoherent(env, fetched, s)
    ensures ServedCoherent(env, more, s)
  {
    hide Age;
  }

  lemma NewlyServed(env: Env, w: World, e: Event)
    requires FramesCoherent(env, w) && ScaledCoherent(env, w) && TasksCoherent(env, w)
    ensures var v := Next(env, w, e);
      |v.served| > |w.served| ==> ServedCoherent(env, v.fetched, v.served[|w.served|])
  {
    hide IsJpeg, Age;
  }

  lemma NextKeepsServed(env: Env, w: World, e: Event)
    requires Coherent(env, w)
    ensures AllServedCoherent(env, Next(env, w, e))
  {
    hide Next, FramesCoherent, ScaledCoherent, TasksCoherent, ServedCoherent;
    ServedStay(env, w, e);
    NewlyServed(env, w, e);
    var v := Next(env, w, e);
    forall i | 0 <= i < |v.served| ensures ServedCoherent(env, v.fetched, v.served[i]) {
      if i < |w.served| { assert ServedCoherent(env, w.fetched, w.served[i]); ServedStays(env, w.fetched, v.fetched, w.served[i]); }
    }
  }

  /** The latest frame only ever gives way to a newer one. */
  ghost predicate Advances(c: Cache, d: Cache) {
    c.latest.Some? ==> d.latest.Some? && c.latest.value.generation <= d.latest.value.generation
  }

  lemma NextAdvances(env: Env, w: World, e: Event)
    requires FramesCoherent(env, w)
    ensures Advances(w.cache, Next(env, w, e).cache)
  {
    hide IsJpeg, Age;
  }

  lemma {:induction false} RunKeepsCoherent(env: Env, w: World, events: seq<Event>)
    requires Coherent(env, w)
    ensures var v := Run(env, w, events);
      Coherent(env, v) && w.fetched <= v.fetched && Advances(w.cache, v.cache)
    decreases |events|
  {
    hide Next, FramesCoherent, ScaledCoherent, TasksCoherent, AllServedCoherent;
    if events != [] {
      NextKeepsFrames(env, w, events[0]);
      NextKeepsScaled(env, w, events[0]);
      NextKeepsTasks(env, w, events[0]);
      NextKeepsServed(env, w, events[0]);
      NextAdvances(env, w, events[0]);
      RunKeepsCoherent(env, Next(env, w, events[0]), events[1..]);
    }
  }

  /**
    However the refresher and the requests interleave, and whatever the camera and the scaler do: every
    generation names one frame, a JPEG the camera sent, numbered in order; every cached picture is a scaling of
    the frame it names; and every picture served is a scaling, to the size asked for, of the frame its
    generation and fingerprint name, which was at most 120 s old when it was looked up and is as old as it says.
   */
  lemma PicturesAreFaithful(env: Env, events: seq<Event>)
    ensures var w := Run(env, Initially, events);
      && (forall i :: 0 <= i < |w.fetched| ==> w.fetched[i].generation == i + 1 && IsJpeg(w.fetched[i].bytes))
      && (forall size :: size in w.cache.scaled ==> Faithful(env, w.fetched, size, w.cache.scaled[size]))
      && (forall i :: 0 <= i < |w.served| ==> ServedCoherent(env, w.fetched, w.served[i]))
  {
    hide Run, IsJpeg, Known, Faithful, ServedCoherent, TaskCoherent;
    RunKeepsCoherent(env, Initially, events);
  }

  // --- A request from start to end, when nothing comes in between ---

  lemma JpegExactly(b: bytes)
    ensures IsJpeg(b) <==> exists body: bytes :: b == [0xff, 0xd8] + body + [0xff, 0xd9]
  {
    if IsJpeg(b) {
      assert b == [0xff, 0xd8] + b[2..|b| - 2] + [0xff, 0xd9];
    }
    forall body: bytes | b == [0xff, 0xd8] + body + [0xff, 0xd9] ensures IsJpeg(b) {
      assert b[..2] == [0xff, 0xd8] && b[|b| - 2..] == [0xff, 0xd9];
    }
  }

  function PictureOf(f: Frame, out: bytes, hash: bytes -> nat, now: nat): Image {
    Image(out, f.generation, Age(now, f.fetchedAt), f.fingerprint, hash(out))
  }

  /** With a frame at most 120 s old the camera is not asked: a picture of that frame in the right size is served at once,
      ... */
  lemma YoungFrameIsUsed(env: Env, w: World, id: nat, size: Size, f: Frame, ms: nat)
    requires id !in w.tasks && w.cache.latest == Some(f) && w.now + ms <= f.fetchedAt + 120_000
    ensures var now, held := w.now + ms, Next(env, Next(env, Next(env, w, Pass(ms)), Ask(id, size)), LookUp(id));
      var v := Next(env, held, FindScaled(id));
      && held == w.(now := now, tasks := w.tasks[id := Task(size, Holding(f, now))])
      && if size in w.cache.scaled && w.cache.scaled[size].sourceGeneration == f.generation then
           v.served == w.served + [Served(size, PictureOf(f, w.cache.scaled[size].bytes, env.hash, now), now, now)]
         else
           v.served == w.served && In(v, id, v.tasks[id].phase) && v.tasks[id].phase.Scaling?
  {
    hide Age;
  }

  /** ... and otherwise one is made of it, served and kept. */
  lemma HeldFrameIsScaled(env: Env, w: World, id: nat, size: Size, f: Frame, at: nat, out: bytes)
    requires id in w.tasks && w.tasks[id] == Task(size, Holding(f, at)) && env.scales(f.bytes, size, out)
    requires size in w.cache.scaled ==> w.cache.scaled[size].sourceGeneration != f.generation
    ensures var done := Next(env, Next(env, Next(env, w, FindScaled(id)), ScaleDone(id, out)), Insert(id));
      && done.served == w.served + [Served(size, PictureOf(f, out, env.hash, w.now), at, w.now)]
      && done.cache == w.cache.(scaled := w.cache.scaled[size := Scaled(f.generation, f.fetchedAt, f.fingerprint, out)])
  {
    hide Age, Stale;
    var scaling := Next(env, w, FindScaled(id));
    assert In(scaling, id, Scaling(f, at, Stale(w.cache, size, w.now), w.now));
  }

  /** Only if that fails an older picture is served, if there is one of a frame at most 120 s old. */
  lemma FailedScalingFallsBack(env: Env, w: World, id: nat, size: Size, f: Frame, at: nat)
    requires id in w.tasks && w.tasks[id] == Task(size, Holding(f, at))
    requires size in w.cache.scaled ==> w.cache.scaled[size].sourceGeneration != f.generation
    ensures var failed := Next(env, Next(env, w, FindScaled(id)), ScaleFailed(id));
      && failed.cache == w.cache && In(failed, id, Finished)
      && if size in w.cache.scaled && w.now <= w.cache.scaled[size].sourceFetchedAt + 120_000 then
           var e := w.cache.scaled[size];
           failed.served == w.served + [Served(size, Image(e.bytes, e.sourceGeneration, Age(w.now, e.sourceFetchedAt),
                                                           e.sourceFingerprint, env.hash(e.bytes)), w.now, w.now)]
         else
           failed.served == w.served
  {
    hide Age;
    var scaling := Next(env, w, FindScaled(id));
    assert In(scaling, id, Scaling(f, at, Stale(w.cache, size, w.now), w.now));
  }

  /** Without such a frame the camera is asked; ... */
  lemma OldFrameIsReplaced(env: Env, w: World, id: nat, size: Size)
    requires id !in w.tasks && w.lock.Free? && (w.cache.latest.Some? ==> w.now > w.cache.latest.value.fetchedAt + 120_000)
    ensures Next(env, Next(env, Next(env, w, Ask(id, size)), LookUp(id)), Lock(Request(id)))
         == w.(tasks := w.tasks[id := Task(size, Refreshing)], lock := Fetching(Request(id)))
  {
    hide Age;
    var asking := Next(env, w, Ask(id, size));
    assert asking.tasks[id] == Task(size, Wanting);
    assert Next(env, asking, LookUp(id)) == w.(tasks := w.tasks[id := Task(size, Refreshing)]);
  }

  /** ... a JPEG it sends becomes the latest frame and the one to serve, under the next generation; with anything else the
      request fails if there is still no frame to be had. */
  lemma AnswerIsTaken(env: Env, w: World, id: nat, size: Size, answer: bytes)
    requires id in w.tasks && w.tasks[id] == Task(size, Refreshing) && w.lock == Fetching(Request(id))
    ensures var frame := Frame(w.cache.nextGeneration, w.now, env.hash(answer), answer);
      var fetched := Next(env, w, Fetched(answer));
      if IsJpeg(answer) then
        Next(env, fetched, Write) ==
        w.(cache := w.cache.(latest := Some(frame), nextGeneration := w.cache.nextGeneration + 1),
           fetched := w.fetched + [frame], lock := Free, tasks := w.tasks[id := Task(size, Holding(frame, w.now))])
      else
        && fetched == Next(env, w, FetchFailed) == w.(lock := Free, tasks := w.tasks[id := Task(size, Retrying)])
        && (w.cache.latest.Some? && w.now <= w.cache.latest.value.fetchedAt + 120_000 ==>
              In(Next(env, fetched, LookAgain(id)), id, Holding(w.cache.latest.value, w.now)))
        && ((w.cache.latest.Some? ==> w.now > w.cache.latest.value.fetchedAt + 120_000) ==>
              In(Next(env, fetched, LookAgain(id)), id, Finished))
  {
    hide IsJpeg, Age;
  }

  /** But one at a time: nobody begins a refresh during another, or without wanting one. */
  lemma OnlyOneRefreshes(env: Env, w: World, caller: Caller)
    requires !w.lock.Free? || (caller.Request? && !In(w, caller.id, Refreshing))
    ensures Next(env, w, Lock(caller)) == w
  {
  }

  /** Who gets to refresh within a second of the last frame takes that one; otherwise the camera is asked. */
  lemma RefreshesAreShared(env: Env, w: World, caller: Caller, f: Frame)
    requires w.lock.Free? && (caller.Request? ==> In(w, caller.id, Refreshing)) && w.cache.latest == Some(f)
    ensures var v := Next(env, w, Lock(caller));
      && v.cache == w.cache
      && if w.now <= f.fetchedAt + 1_000 then
           v.lock.Free? && (caller.Request? ==> In(v, caller.id, Holding(f, w.now)))
         else
           v.lock == Fetching(caller)
  {
  }
}
