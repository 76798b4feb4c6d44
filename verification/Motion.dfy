/**
  Motion sensors and their safety net (src/motion.rs:14-142): a Start lights a sensor and sets a timer, a Stop or the
  timer puts it out, and a generation per sensor tells a timer whether it still counts. Each handler and each
  timer body is one step.
 */
module Motion {
  import opened Bytes

  const MOTION_TIMEOUT: nat := 90_000

  datatype Kind = Person | Vehicle

  /** What the camera reports: `data` is the event's payload as text. */
  datatype CameraEvent = CameraEvent(code: bytes, data: bytes, action: bytes)

  /** Substring search. */
  predicate Contains(s: bytes, part: bytes) {
    part <= s || (s != [] && Contains(s[1..], part))
  }

  /** Typed events say what they saw; the others carry it in their payload. */
  function KindOf(e: CameraEvent): Kind {
    if e.code == Ascii("SmartMotionVehicle") then Vehicle
    else if e.code == Ascii("SmartMotionHuman") then Person
    else if Contains(e.data, Ascii("Vehicle")) then Vehicle
    else Person
  }

  /** `shown`: what HomeKit sees; `lastStart`: when the last Start came. */
  datatype Sensor = Sensor(active: bool, shown: bool, generation: nat, lastStart: nat)

  datatype Timer = Timer(kind: Kind, generation: nat, due: nat)

  datatype State = State(person: Sensor, vehicle: Sensor, motionActive: bool, timers: set<Timer>, now: nat)

  const Dark := Sensor(false, false, 0, 0)
  const Initially := State(Dark, Dark, false, {}, 0)

  function Of(s: State, kind: Kind): Sensor {
    if kind.Person? then s.person else s.vehicle
  }

  function Other(kind: Kind): Kind {
    if kind.Person? then Vehicle else Person
  }

  function With(s: State, kind: Kind, sensor: Sensor): State {
    if kind.Person? then s.(person := sensor) else s.(vehicle := sensor)
  }

  function Started(s: State, kind: Kind): State {
    var g := Of(s, kind).generation + 1;
    With(s, kind, Sensor(true, true, g, s.now))
      .(motionActive := true, timers := s.timers + {Timer(kind, g, s.now + MOTION_TIMEOUT)})
  }

  function Stopped(s: State, kind: Kind): State {
    var sensor := Of(s, kind);
    With(s, kind, sensor.(active := false, shown := false, generation := sensor.generation + 1))
      .(motionActive := Of(s, Other(kind)).active)
  }

  function Handled(s: State, e: CameraEvent): State {
    if e.action == Ascii("Start") then Started(s, KindOf(e))
    else if e.action == Ascii("Stop") then Stopped(s, KindOf(e))
    else s
  }

  function Fired(s: State, t: Timer): State {
    var rest := s.(timers := s.timers - {t});
    var sensor := Of(s, t.kind);
    if sensor.generation != t.generation then rest
    else With(rest, t.kind, sensor.(active := false, shown := false)).(motionActive := Of(s, Other(t.kind)).active)
  }

  class MotionMapper {
    var person: Sensor
    var vehicle: Sensor
    var motionActive: bool
    var timers: set<Timer>
    var now: nat

    constructor ()
      ensures Contents() == Initially
    {
      person, vehicle, motionActive, timers, now := Dark, Dark, false, {}, 0;
    }

    ghost function Contents(): State
      reads this
    {
      State(person, vehicle, motionActive, timers, now)
    }

    method Handle(e: CameraEvent)
      modifies this
      ensures Contents() == Handled(old(Contents()), e)
    {
      var isVehicle := e.code == Ascii("SmartMotionVehicle")
        || (e.code != Ascii("SmartMotionHuman") && Contains(e.data, Ascii("Vehicle")));
      hide Contains;
      KindsDiffer();
      var sensor := if isVehicle then vehicle else person;
      var otherActive := if isVehicle then person.active else vehicle.active;
      var kind := if isVehicle then Vehicle else Person;
      if e.action == Ascii("Start") {
        sensor := sensor.(active := true);
        motionActive := true;
        sensor := sensor.(generation := sensor.generation + 1, lastStart := now, shown := true);
        timers := timers + {Timer(kind, sensor.generation, now + MOTION_TIMEOUT)};
      } else if e.action == Ascii("Stop") {
        sensor := sensor.(active := false);
        motionActive := otherActive;
        sensor := sensor.(generation := sensor.generation + 1, shown := false);
      }
      if isVehicle { vehicle := sensor; } else { person := sensor; }
    }

    /** The body of the timer task, once its sleep is over. */
    method Fire(t: Timer)
      modifies this
      ensures Contents() == Fired(old(Contents()), t)
    {
      timers := timers - {t};
      var sensor := if t.kind.Vehicle? then vehicle else person;
      if sensor.generation == t.generation {
        sensor := sensor.(active := false);
        motionActive := if t.kind.Vehicle? then person.active else vehicle.active;
        sensor := sensor.(shown := false);
        if t.kind.Vehicle? { vehicle := sensor; } else { person := sensor; }
      }
    }
  }

  lemma KindsDiffer()
    ensures Ascii("SmartMotionVehicle") != Ascii("SmartMotionHuman")
    ensures Ascii("Start") != Ascii("Stop")
  {
    assert |Ascii("SmartMotionVehicle")| == 18 && |Ascii("SmartMotionHuman")| == 16;
  }

  // --- Runs ---

  /** A timer fires when it is due, and time does not pass a timer that is. */
  datatype Step = Pass(ms: nat) | Handle(e: CameraEvent) | Fire(t: Timer)

  ghost function Next(s: State, step: Step): State {
    match step
    case Pass(ms) => if forall t :: t in s.timers ==> s.now + ms <= t.due then s.(now := s.now + ms) else s
    case Handle(e) => Handled(s, e)
    case Fire(t) => if t in s.timers && t.due <= s.now then Fired(s, t) else s
  }

  ghost function Run(s: State, steps: seq<Step>): State
    decreases |steps|
  {
    if steps == [] then s else Run(Next(s, steps[0]), steps[1..])
  }

  ghost predicate SensorCoherent(s: State, kind: Kind) {
    var sensor := Of(s, kind);
    && sensor.shown == sensor.active && sensor.lastStart <= s.now
    && (sensor.active ==> Timer(kind, sensor.generation, sensor.lastStart + MOTION_TIMEOUT) in s.timers)
    && (forall t :: t in s.timers && t.kind == kind ==> t.generation <= sensor.generation)
    && (forall t :: t in s.timers && t.kind == kind && t.generation == sensor.generation ==> t.due == sensor.lastStart + MOTION_TIMEOUT)
  }

  ghost predicate Coherent(s: State) {
    && SensorCoherent(s, Person) && SensorCoherent(s, Vehicle)
    && s.motionActive == (s.person.active || s.vehicle.active)
    && (forall t :: t in s.timers ==> s.now <= t.due)
  }

  lemma StartedKeepsCoherent(s: State, kind: Kind)
    requires Coherent(s)
    ensures Coherent(Started(s, kind))
  {
  }

  lemma StoppedKeepsCoherent(s: State, kind: Kind)
    requires Coherent(s)
    ensures Coherent(Stopped(s, kind))
  {
  }

  lemma FiredKeepsCoherent(s: State, t: Timer)
    requires Coherent(s) && t in s.timers
    ensures Coherent(Fired(s, t))
  {
  }

  lemma PassedKeepsCoherent(s: State, ms: nat)
    requires Coherent(s) && forall t :: t in s.timers ==> s.now + ms <= t.due
    ensures Coherent(s.(now := s.now + ms))
  {
  }

  lemma NextKeepsCoherent(s: State, step: Step)
    requires Coherent(s)
    ensures Coherent(Next(s, step))
  {
    hide KindOf, Ascii, Coherent, Started, Stopped, Fired;
    match step
    case Pass(ms) => if forall t :: t in s.timers ==> s.now + ms <= t.due { PassedKeepsCoherent(s, ms); }
    case Handle(e) =>
      StartedKeepsCoherent(s, KindOf(e));
      StoppedKeepsCoherent(s, KindOf(e));
    case Fire(t) => if t in s.timers { FiredKeepsCoherent(s, t); }
  }

  lemma {:induction false} RunKeepsCoherent(s: State, steps: seq<Step>)
    requires Coherent(s)
    ensures Coherent(Run(s, steps))
    decreases |steps|
  {
    hide Next, Coherent;
    if steps != [] {
      NextKeepsCoherent(s, steps[0]);
      RunKeepsCoherent(Next(s, steps[0]), steps[1..]);
    }
  }

  /**
    In every reachable state: there is motion exactly if a sensor is active, HomeKit sees what is, and every
    active sensor was started at most 90 s ago and still has a timer that will put it out.
   */
  lemma MotionIsBounded(steps: seq<Step>)
    ensures var s := Run(Initially, steps);
      && s.motionActive == (s.person.active || s.vehicle.active)
      && forall kind :: Of(s, kind).shown == Of(s, kind).active
                        && (Of(s, kind).active ==>
                              && s.now <= Of(s, kind).lastStart + 90_000
                              && Timer(kind, Of(s, kind).generation, Of(s, kind).lastStart + 90_000) in s.timers)
  {
    hide Run;
    RunKeepsCoherent(Initially, steps);
    var s := Run(Initially, steps);
    assert SensorCoherent(s, Person) && SensorCoherent(s, Vehicle);
    forall kind ensures SensorCoherent(s, kind) {}
  }

  /** Never too early: when a timer puts a sensor out, its last Start is exactly 90 s ago. */
  lemma TimersAreOnTime(steps: seq<Step>, t: Timer)
    ensures var s := Run(Initially, steps);
      var after := Next(s, Fire(t));
      Of(s, t.kind).active && !Of(after, t.kind).active ==> s.now == Of(s, t.kind).lastStart + 90_000
  {
    hide Run;
    RunKeepsCoherent(Initially, steps);
    assert SensorCoherent(Run(Initially, steps), t.kind);
  }

  // --- What the camera said last ---

  lemma {:induction false} ContainsExactly(s: bytes, part: bytes)
    ensures Contains(s, part) <==> exists i: nat {:trigger s[i..]} :: i <= |s| && part <= s[i..]
  {
    assert s[0..] == s;
    if s != [] {
      ContainsExactly(s[1..], part);
      forall i: nat | i < |s| ensures s[1..][i..] == s[i + 1..] {}
      if i: nat :| 0 < i <= |s| && part <= s[i..] { assert part <= s[1..][i - 1..]; }
    }
  }

  /** Whose sensor an event is for. */
  lemma EventsAreTyped(e: CameraEvent)
    ensures e.code == Ascii("SmartMotionVehicle") ==> KindOf(e) == Vehicle
    ensures e.code == Ascii("SmartMotionHuman") ==> KindOf(e) == Person
    ensures e.code != Ascii("SmartMotionVehicle") && e.code != Ascii("SmartMotionHuman") ==>
      (KindOf(e) == Vehicle <==> exists i: nat {:trigger e.data[i..]} :: i <= |e.data| && Ascii("Vehicle") <= e.data[i..])
  {
    hide Ascii, Contains;
    KindsDiffer();
    ContainsExactly(e.data, Ascii("Vehicle"));
  }

  ghost predicate Concerns(step: Step, kind: Kind) {
    step.Handle? && KindOf(step.e) == kind && (step.e.action == Ascii("Start") || step.e.action == Ascii("Stop"))
  }

  /** Started at `at` and not heard of since: lit, or the 90 s are over. */
  ghost predicate LitSince(s: State, kind: Kind, at: nat) {
    Coherent(s) && Of(s, kind).lastStart == at && (Of(s, kind).active || at + 90_000 <= s.now)
  }

  ghost predicate DarkNow(s: State, kind: Kind) {
    Coherent(s) && !Of(s, kind).active
  }

  lemma PassLeavesIt(s: State, ms: nat, kind: Kind, at: nat)
    requires Coherent(s) && Coherent(Next(s, Pass(ms)))
    ensures LitSince(s, kind, at) ==> LitSince(Next(s, Pass(ms)), kind, at)
    ensures DarkNow(s, kind) ==> DarkNow(Next(s, Pass(ms)), kind)
  {
    hide Coherent;
  }

  lemma EventLeavesIt(s: State, e: CameraEvent, kind: Kind, at: nat)
    requires Coherent(s) && Coherent(Next(s, Handle(e))) && !Concerns(Handle(e), kind)
    ensures LitSince(s, kind, at) ==> LitSince(Next(s, Handle(e)), kind, at)
    ensures DarkNow(s, kind) ==> DarkNow(Next(s, Handle(e)), kind)
  {
    hide Coherent, KindOf, Ascii;
  }

  lemma TimerLeavesIt(s: State, t: Timer, kind: Kind, at: nat)
    requires Coherent(s) && Coherent(Next(s, Fire(t)))
    ensures LitSince(s, kind, at) ==> LitSince(Next(s, Fire(t)), kind, at)
    ensures DarkNow(s, kind) ==> DarkNow(Next(s, Fire(t)), kind)
  {
    assert SensorCoherent(s, kind);
    hide Coherent;
    assert t in s.timers && t.kind == kind && t.generation == Of(s, kind).generation ==> t.due == Of(s, kind).lastStart + 90_000;
    hide SensorCoherent;
  }

  lemma OthersLeaveIt(s: State, step: Step, kind: Kind, at: nat)
    requires Coherent(s) && !Concerns(step, kind)
    ensures LitSince(s, kind, at) ==> LitSince(Next(s, step), kind, at)
    ensures DarkNow(s, kind) ==> DarkNow(Next(s, step), kind)
  {
    NextKeepsCoherent(s, step);
    hide Next, Coherent, LitSince, DarkNow, Concerns;
    match step
    case Pass(ms) => PassLeavesIt(s, ms, kind, at);
    case Handle(e) => EventLeavesIt(s, e, kind, at);
    case Fire(t) => TimerLeavesIt(s, t, kind, at);
  }

  lemma {:induction false} OthersLeaveItAll(s: State, steps: seq<Step>, kind: Kind, at: nat)
    requires Coherent(s) && forall step :: step in steps ==> !Concerns(step, kind)
    ensures LitSince(s, kind, at) ==> LitSince(Run(s, steps), kind, at)
    ensures DarkNow(s, kind) ==> DarkNow(Run(s, steps), kind)
    decreases |steps|
  {
    if steps != [] {
      NextKeepsCoherent(s, steps[0]);
      OthersLeaveIt(s, steps[0], kind, at);
      hide Next, Concerns, Coherent, LitSince, DarkNow;
      OthersLeaveItAll(Next(s, steps[0]), steps[1..], kind, at);
    }
  }

  /** After a Stop a sensor is dark until it is started again; after a Start it is lit until the 90 s are over,
      and not beyond. */
  lemma LastEventDecides(before: seq<Step>, e: CameraEvent, later: seq<Step>)
    requires forall step :: step in later ==> !Concerns(step, KindOf(e))
    ensures var at, s := Run(Initially, before).now, Run(Next(Run(Initially, before), Handle(e)), later);
      var sensor := Of(s, KindOf(e));
      && (e.action == Ascii("Stop") ==> !sensor.active && !sensor.shown)
      && (e.action == Ascii("Start") && s.now < at + 90_000 ==> sensor.active && sensor.shown)
      && (e.action == Ascii("Start") && s.now > at + 90_000 ==> !sensor.active && !sensor.shown)
  {
    var kind, v := KindOf(e), Run(Initially, before);
    NothingLit();
    hide Run, Next, KindOf, Ascii, Concerns, Coherent, LitSince, DarkNow;
    RunKeepsCoherent(Initially, before);
    NextKeepsCoherent(v, Handle(e));
    var u := Next(v, Handle(e));
    Announced(v, e);
    OthersLeaveItAll(u, later, kind, v.now);
    WhatIsShown(Run(u, later), kind, v.now);
  }

  lemma NothingLit()
    ensures Coherent(Initially)
  {
  }

  lemma WhatIsShown(s: State, kind: Kind, at: nat)
    ensures DarkNow(s, kind) ==> !Of(s, kind).active && !Of(s, kind).shown
    ensures LitSince(s, kind, at) && s.now < at + 90_000 ==> Of(s, kind).active && Of(s, kind).shown
    ensures LitSince(s, kind, at) && s.now > at + 90_000 ==> !Of(s, kind).active && !Of(s, kind).shown
  {
    assert Coherent(s) ==> SensorCoherent(s, kind);
  }

  lemma Announced(s: State, e: CameraEvent)
    requires Coherent(s)
    ensures e.action == Ascii("Start") ==> LitSince(Next(s, Handle(e)), KindOf(e), s.now)
    ensures e.action == Ascii("Stop") ==> DarkNow(Next(s, Handle(e)), KindOf(e))
  {
    KindsDiffer();
    NextKeepsCoherent(s, Handle(e));
    hide KindOf, Ascii, Coherent;
  }

  /** The timer does fire: 90 s after a lone Start, and not before. */
  lemma TimeoutPutsOut(e: CameraEvent, ms: nat)
    requires e.action == Ascii("Start") && ms < 90_000
    ensures var kind := KindOf(e);
      var early, late := Run(Initially, [Handle(e), Pass(ms)]), Run(Initially, [Handle(e), Pass(90_000), Fire(Timer(kind, 1, 90_000))]);
      && early.now == ms && early.motionActive && Of(early, kind).shown
      && late.now == 90_000 && !late.motionActive && !Of(late, kind).shown && late.timers == {}
  {
    hide KindOf, Ascii, Run;
    var t := Timer(KindOf(e), 1, 90_000);
    var lit := Next(Initially, Handle(e));
    assert lit.timers == {t};
    RunTwo(Initially, Handle(e), Pass(ms));
    RunTwo(Initially, Handle(e), Pass(90_000));
    var due := Next(lit, Pass(90_000));
    assert due.timers == {t} && due.now == 90_000;
    RunThree(Initially, Handle(e), Pass(90_000), Fire(t));
  }

  lemma RunTwo(s: State, a: Step, b: Step)
    ensures Run(s, [a, b]) == Next(Next(s, a), b)
  {
    hide Next;
    assert [a, b][1..] == [b] && [b][1..] == [];
    assert Run(Next(s, a), [b]) == Run(Next(Next(s, a), b), []);
  }

  lemma RunThree(s: State, a: Step, b: Step, c: Step)
    ensures Run(s, [a, b, c]) == Next(Next(Next(s, a), b), c)
  {
    hide Next;
    assert [a, b, c][1..] == [b, c];
    RunTwo(Next(s, a), b, c);
  }

  /** A sensor nothing was ever started for is dark. */
  lemma NeverStartedIsDark(steps: seq<Step>, kind: Kind)
    requires forall step :: step in steps ==> !Concerns(step, kind)
    ensures var sensor := Of(Run(Initially, steps), kind); !sensor.active && !sensor.shown
  {
    hide Run, Concerns;
    OthersLeaveItAll(Initially, steps, kind, 0);
    assert SensorCoherent(Run(Initially, steps), kind);
  }

  /** A later Start or Stop for the sensor, anywhere in the run, and an older timer only vanishes. */
  lemma {:induction false} LaterEventsSilence(s: State, steps: seq<Step>, t: Timer)
    requires Coherent(s) && t in s.timers
    requires exists e :: Handle(e) in steps && KindOf(e) == t.kind && (e.action == Ascii("Start") || e.action == Ascii("Stop"))
    ensures var v := Run(s, steps);
      Fired(v, t) == v.(timers := v.timers - {t})
  {
    hide KindOf, Ascii;
    GenerationsGrow(s, steps, t.kind);
    hide Run;
    assert SensorCoherent(s, t.kind);
  }

  lemma {:induction false} GenerationsGrow(s: State, steps: seq<Step>, kind: Kind)
    ensures Of(s, kind).generation <= Of(Run(s, steps), kind).generation
    ensures (exists e :: Handle(e) in steps && KindOf(e) == kind && (e.action == Ascii("Start") || e.action == Ascii("Stop")))
      ==> Of(s, kind).generation < Of(Run(s, steps), kind).generation
    decreases |steps|
  {
    hide KindOf, Ascii;
    if steps != [] {
      GenerationsGrow(Next(s, steps[0]), steps[1..], kind);
      assert forall e :: Handle(e) in steps ==> steps[0] == Handle(e) || Handle(e) in steps[1..];
    }
  }
}
