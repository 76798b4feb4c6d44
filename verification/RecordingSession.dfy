/**
  A recording from the recorder's buffer to the controller: the pump subscribes (src/hsv/hds.rs:446;
  src/hsv/fmp4.rs:216-231), sends what it is given, and the controller rebuilds a gapless stretch of what the camera's
  stream was split into.
 */
module RecordingSession {
  import opened Wrappers
  import opened Bytes
  import opened CodecReader
  import opened Aead
  import opened Framed
  import opened HdsStream
  import opened Hds
  import opened Pump
  import opened PumpProperties
  import opened Delivery
  import R = Recorder

  function Datas(fragments: seq<R.Fragment>): (r: seq<bytes>)
    ensures |r| == |fragments| && forall i :: 0 <= i < |r| ==> r[i] == fragments[i].data
  {
    seq(|fragments|, i requires 0 <= i < |fragments| => fragments[i].data)
  }

  function Carried(messages: seq<R.Message>): (r: seq<bytes>)
    ensures |r| == |messages| && forall i :: 0 <= i < |r| ==> r[i] == messages[i].fragment.data
  {
    seq(|messages|, i requires 0 <= i < |messages| => messages[i].fragment.data)
  }

  lemma {:induction false} CarriedByOne(g: nat, messages: seq<R.Message>)
    requires !R.Foreign(messages, g)
    ensures Carried(messages) == Datas(R.Of(g, messages))
  {
    if messages != [] {
      var more := messages[1..];
      assert messages[0] in messages;
      assert forall m :: m in more ==> m in messages;
      CarriedByOne(g, more);
      assert Carried(messages) == [messages[0].fragment.data] + Carried(more);
      assert Datas([messages[0].fragment] + R.Of(g, more)) == [messages[0].fragment.data] + Datas(R.Of(g, more));
    }
  }

  lemma {:induction false} ArrivedPart(ticks: seq<Tick>, m: nat)
    requires m <= |ticks|
    ensures ArrivedData(ticks[..m]) <= ArrivedData(ticks)
    decreases |ticks|
  {
    if m > 0 {
      assert ticks[..m][1..] == ticks[1..][..m - 1];
      ArrivedPart(ticks[1..], m - 1);
    }
  }

  /** The receiver gets what the bus carried since the subscription, in order; if it lags, that is a `Disconnected`. */
  ghost predicate Hears(w: R.World, v: R.World, ticks: seq<Tick>) {
    w.bus <= v.bus && ArrivedData(ticks) <= Carried(R.Since(w, v))
  }

  /** The place of the oldest fragment buffered in what its parser has produced. */
  function OldestHeld(w: R.World): int {
    |R.CommittedBy(w, w.shared.generation)| - |w.shared.prebuffer|
  }

  /**
    `stretch` begins with the oldest fragment buffered at w, and `more` goes on where it ends, in what the generation's
    parser had produced by v; of those `more` may repeat one, the fragment that was in flight at w. The init segment
    is that generation's.
   */
  ghost predicate IsStretch(w: R.World, v: R.World, stretch: seq<bytes>, more: seq<bytes>) {
    var g := w.shared.generation;
    var produced, known := R.CommittedBy(v, g), |R.CommittedBy(w, g)|;
    var first, repeated := OldestHeld(w), R.InFlight(w, g);
    && 0 <= first <= known <= |produced| && 0 <= repeated <= 1 && repeated <= known
    && g in w.parsers && w.shared.initSegment == Some(w.parsers[g].init)
    && stretch <= Datas(produced[first..known])
    && more <= Datas(produced[known - repeated..])
    && (more != [] ==> stretch == Datas(produced[first..known]))
  }

  /**
    Subscribing at any moment at which no superseded parser has a fragment in flight, while the generation lasts: the
    pump sends the init segment of that generation and then a stretch of what its parser produced, without a gap from
    the oldest fragment buffered on, with at most the one fragment that was in flight sent twice.
   */
  lemma RecordingIsGapless(w: R.World, events: seq<R.Event>, cancelAt: nat, ticks: seq<Tick>)
    returns (stretch: seq<bytes>, more: seq<bytes>)
    requires R.Coherent(w) && w.shared.initSegment.Some?
    requires R.Run(w, events).shared.generation == w.shared.generation
    requires forall g: nat :: g < w.shared.generation ==> R.InFlight(w, g) == 0
    requires Hears(w, R.Run(w, events), ticks)
    ensures IsStretch(w, R.Run(w, events), stretch, more)
    ensures Recorded(w.shared.initSegment, Datas(w.shared.prebuffer), cancelAt, ticks) == [w.shared.initSegment.value] + (stretch + more)
  {
    hide R.Coherent, R.Run, R.InFlight, Hears, Recorded, IsStretch;
    stretch, more := SentInOrder(w.shared.initSegment.value, Datas(w.shared.prebuffer), cancelAt, ticks);
    SentIsStretch(w, events, ticks, stretch, more);
  }

  /** What a run sends after the init segment: the prebuffer or the start of it, and behind all of it the start of
      what arrived. */
  lemma SentInOrder(init: bytes, prebuffer: seq<bytes>, cancelAt: nat, ticks: seq<Tick>)
    returns (stretch: seq<bytes>, more: seq<bytes>)
    ensures Recorded(Some(init), prebuffer, cancelAt, ticks) == [init] + (stretch + more)
    ensures stretch <= prebuffer && more <= ArrivedData(ticks) && (more != [] ==> stretch == prebuffer)
  {
    hide ArrivedData;
    if cancelAt < |prebuffer| {
      stretch, more := prebuffer[..cancelAt], [];
      Unit(stretch);
    } else {
      var e := EndTick(ticks, 0);
      var m := if e < |ticks| then e + 1 else e;
      stretch, more := prebuffer, DataUpTo(ticks, 0, e);
      assert ticks[0..m] == ticks[..m];
      ArrivedPart(ticks, m);
    }
  }

  lemma SentIsStretch(w: R.World, events: seq<R.Event>, ticks: seq<Tick>, stretch: seq<bytes>, more: seq<bytes>)
    requires R.Coherent(w) && w.shared.initSegment.Some?
    requires R.Run(w, events).shared.generation == w.shared.generation
    requires forall g: nat :: g < w.shared.generation ==> R.InFlight(w, g) == 0
    requires Hears(w, R.Run(w, events), ticks)
    requires stretch <= Datas(w.shared.prebuffer) && more <= ArrivedData(ticks)
    requires more != [] ==> stretch == Datas(w.shared.prebuffer)
    ensures IsStretch(w, R.Run(w, events), stretch, more)
  {
    hide R.Coherent, R.Run, R.Since, R.Of, R.InFlight, R.CommittedBy, OldestHeld, ArrivedData, R.Foreign;
    var v, g := R.Run(w, events), w.shared.generation;
    SubscriberFacts(w, events);
    R.OwnFragmentsOnly(w, events);
    var produced, known := R.CommittedBy(v, g), |R.CommittedBy(w, g)|;
    HeardIsProduced(g, R.Since(w, v), ArrivedData(ticks), more, produced[known - R.InFlight(w, g)..]);
  }

  lemma HeardIsProduced(g: nat, carried: seq<R.Message>, heard: seq<bytes>, more: seq<bytes>, produced: seq<R.Fragment>)
    requires !R.Foreign(carried, g) && more <= heard <= Carried(carried) && R.Of(g, carried) <= produced
    ensures more <= Datas(produced)
  {
    hide R.Of, R.Foreign;
    CarriedByOne(g, carried);
    assert Datas(R.Of(g, carried)) <= Datas(produced);
  }

  /** And all of it comes out at the controller, whatever else is on the stream and however the bytes are cut up. */
  lemma ControllerHoldsAGaplessRecording(
      w: R.World, events: seq<R.Event>, cancelAt: nat, ticks: seq<Tick>,
      c: Cipher, key: bytes, r: Reader, stream: i64, log: seq<Sent>, cuts: seq<bytes>)
    returns (stretch: seq<bytes>, more: seq<bytes>)
    requires R.Coherent(w) && w.shared.initSegment.Some?
    requires R.Run(w, events).shared.generation == w.shared.generation
    requires forall g: nat :: g < w.shared.generation ==> R.InFlight(w, g) == 0
    requires Hears(w, R.Run(w, events), ticks) && ClockRuns(ticks)
    requires Lawful(c) && r.lengths.AsDocumented? && OthersPassBy(r, stream, log)
    requires OwnIn(log) == RunPayloads(stream, Recording(w.shared.initSegment, Datas(w.shared.prebuffer), cancelAt, ticks))
    requires Flatten(cuts) == Frames(c, key, 0, PayloadsIn(log))
    ensures var d := AfterReads(HdsFraming(c, key, Patient()), Drained([], 0, [], None), cuts);
      var peer := Given(r, stream, NewPeer, d.payloads);
      && peer.Some? && DataOf(peer.value.rx.media) == [w.shared.initSegment.value] + (stretch + more)
      && IsStretch(w, R.Run(w, events), stretch, more)
  {
    hide R.Coherent, R.Run, R.InFlight, Hears, ClockRuns, Lawful, OthersPassBy, OwnIn, RunPayloads, Recording, Frames, Recorded,
         HdsFraming, AfterReads, Given, HowItEnds;
    stretch, more := RecordingIsGapless(w, events, cancelAt, ticks);
    PeerRebuildsRecording(c, key, r, stream, w.shared.initSegment, Datas(w.shared.prebuffer), cancelAt, ticks, log, cuts);
  }

  /** What the snapshot and the live fragments are, by their places in what the parser produced. */
  lemma SubscriberFacts(w: R.World, events: seq<R.Event>)
    requires R.Coherent(w)
    ensures var v, g := R.Run(w, events), w.shared.generation;
      var produced, known := R.CommittedBy(v, g), |R.CommittedBy(w, g)|;
      var first, repeated := OldestHeld(w), R.InFlight(w, g);
      && w.bus <= v.bus
      && 0 <= first <= known <= |produced| && 0 <= repeated <= 1 && repeated <= known
      && (w.shared.initSegment.Some? ==> g in w.parsers && w.shared.initSegment == Some(w.parsers[g].init))
      && R.Of(g, R.Since(w, v)) <= produced[known - repeated..]
      && w.shared.prebuffer == produced[first..known]
  {
    hide R.Run, R.Coherent, R.SharedCoherent, R.ParserCoherent, R.Extends, R.CommittedBy, R.PublishedBy, R.Of;
    var v, g := R.Run(w, events), w.shared.generation;
    R.RunFacts(w, events, g);
    R.Places(w, v);
    R.SinceOf(w, v, g);
    InitHeld(w);
    SliceStarts(R.CommittedBy(v, g), R.PublishedBy(w, g), R.PublishedBy(v, g));
  }

  lemma InitHeld(w: R.World)
    requires R.SharedCoherent(w)
    ensures var g := w.shared.generation;
      w.shared.initSegment.Some? ==> g in w.parsers && w.shared.initSegment == Some(w.parsers[g].init)
  {
    hide R.IsSuffix;
  }

  lemma SliceStarts<T>(s: seq<T>, a: nat, b: nat)
    requires a <= b <= |s|
    ensures s[a..b] <= s[a..]
  {
  }
}
