/**
  From ffmpeg's output to the controller (src/hsv/fmp4.rs:139-313; src/hsv/hds.rs:440-609): each parser splits the output
  of its own process, and what a controller holds in the end is a stretch of that output.
 */
module Footage {
  import opened Wrappers
  import opened Bytes
  import opened CodecReader
  import opened Aead
  import opened Framed
  import opened HdsStream
  import opened Hds
  import opened Pump
  import opened PumpProperties
  import opened Delivery
  import opened RecordingSession
  import B = Mp4Boxes
  import F = Fmp4
  import R = Recorder

  function InitOf(stdout: bytes): bytes {
    F.Split(F.Fresh, stdout).0.init
  }

  function FragmentsOf(stdout: bytes): seq<bytes> {
    F.Split(F.Fresh, stdout).0.fragments
  }

  // --- Parsers that read their process's output ---

  /** A parser has committed its output's fragments, in order, as far as it has come. */
  ghost predicate Fed(p: R.Parser, stdout: bytes) {
    p.init == InitOf(stdout) && Datas(p.committed) <= FragmentsOf(stdout)
  }

  /** `outputs` gives all that the process of a generation ever writes. */
  ghost predicate AllFed(outputs: nat -> bytes, w: R.World) {
    forall g: nat :: g in w.parsers ==> Fed(w.parsers[g], outputs(g))
  }

  /** A parser starts on the output of its own generation, and commits the next fragment of that. */
  ghost predicate Plays(outputs: nat -> bytes, w: R.World, e: R.Event) {
    match e
    case Start(_, _, init) => init == InitOf(outputs(w.shared.generation + 1))
    case Commit(g, f, _) =>
      g in w.parsers ==>
        var fragments, n := FragmentsOf(outputs(g)), |w.parsers[g].committed|;
        n < |fragments| && f.data == fragments[n]
    case _ => true
  }

  ghost predicate PlaysAll(outputs: nat -> bytes, w: R.World, events: seq<R.Event>)
    decreases |events|
  {
    events == [] || (Plays(outputs, w, events[0]) && PlaysAll(outputs, R.Next(w, events[0]), events[1..]))
  }

  lemma StartedFed(p: R.Parser, stdout: bytes)
    requires p.committed == [] && p.init == InitOf(stdout)
    ensures Fed(p, stdout)
  {
  }

  lemma OneMoreFed(p: R.Parser, f: R.Fragment, stdout: bytes)
    requires Fed(p, stdout) && |p.committed| < |FragmentsOf(stdout)| && f.data == FragmentsOf(stdout)[|p.committed|]
    ensures Fed(p.(committed := p.committed + [f]), stdout)
  {
    assert Datas(p.committed + [f]) == Datas(p.committed) + [f.data];
  }

  lemma NextFed(outputs: nat -> bytes, w: R.World, e: R.Event)
    requires AllFed(outputs, w) && Plays(outputs, w, e)
    ensures AllFed(outputs, R.Next(w, e))
  {
    hide InitOf, FragmentsOf, R.Trim, R.Cutoff;
    var v := R.Next(w, e);
    forall g: nat | g in v.parsers ensures Fed(v.parsers[g], outputs(g)) {
      if g in w.parsers { assert Fed(w.parsers[g], outputs(g)); }
      if e.Start? && g !in w.parsers { StartedFed(v.parsers[g], outputs(g)); }
      if e.Start? && g == w.shared.generation + 1 && v.shared.generation == g { StartedOrKept(outputs, w, e); }
      if e.Commit? && e.parser == g && g in w.parsers { OneMoreFed(w.parsers[g], e.fragment, outputs(g)); }
    }
  }

  lemma StartedOrKept(outputs: nat -> bytes, w: R.World, e: R.Event)
    requires AllFed(outputs, w) && Plays(outputs, w, e) && e.Start?
    ensures var v, g := R.Next(w, e), w.shared.generation + 1;
      g in v.parsers ==> Fed(v.parsers[g], outputs(g))
  {
    hide Fed, InitOf;
    var v, g := R.Next(w, e), w.shared.generation + 1;
    if g in v.parsers {
      if v.parsers == w.parsers { assert Fed(w.parsers[g], outputs(g)); } else { StartedFed(v.parsers[g], outputs(g)); }
    }
  }

  lemma {:induction false} RunFed(outputs: nat -> bytes, w: R.World, events: seq<R.Event>)
    requires AllFed(outputs, w) && PlaysAll(outputs, w, events)
    ensures AllFed(outputs, R.Run(w, events))
    decreases |events|
  {
    hide AllFed, Plays, R.Next;
    if events != [] {
      NextFed(outputs, w, events[0]);
      RunFed(outputs, R.Next(w, events[0]), events[1..]);
    }
  }

  // --- What a recording holds ---

  /** Where a stretch and what goes on behind it stand among the fragments. */
  datatype Places = Places(first: nat, to: nat, again: nat, end: nat)

  /** Fragments first to `to`, and on from there to `end`; at most one of them twice. */
  ghost predicate Gapless(p: Places, count: nat) {
    p.first <= p.to <= count && p.again <= p.end <= count && (p.again < p.end ==> p.to - 1 <= p.again <= p.to)
  }

  function At(p: Places, fragments: seq<bytes>): seq<bytes>
    requires p.first <= p.to <= |fragments| && p.again <= p.end <= |fragments|
  {
    fragments[p.first..p.to] + fragments[p.again..p.end]
  }

  lemma DatasSlice(s: seq<R.Fragment>, a: nat, b: nat)
    requires a <= b <= |s|
    ensures Datas(s[a..b]) == Datas(s)[a..b]
  {
  }

  /** A prefix of a slice of a prefix, by its places. */
  lemma PartOfSlice(part: seq<bytes>, slice: seq<bytes>, produced: seq<bytes>, all: seq<bytes>, a: nat, b: nat)
    requires a <= b <= |produced| && slice == produced[a..b] && part <= slice && produced <= all
    ensures a + |part| <= |all| && part == all[a..a + |part|]
  {
    forall i | 0 <= i < |part| ensures part[i] == all[a + i] {
      assert part[i] == slice[i] == produced[a + i];
    }
  }

  /** The stretch by its places in the output of its generation's process. */
  lemma StretchInOutput(w: R.World, v: R.World, stretch: seq<bytes>, more: seq<bytes>, stdout: bytes) returns (p: Places)
    requires IsStretch(w, v, stretch, more)
    requires w.parsers[w.shared.generation].init == InitOf(stdout)
    requires Datas(R.CommittedBy(v, w.shared.generation)) <= FragmentsOf(stdout)
    ensures Gapless(p, |FragmentsOf(stdout)|) && p.first == OldestHeld(w)
    ensures w.shared.initSegment == Some(InitOf(stdout)) && stretch + more == At(p, FragmentsOf(stdout))
  {
    hide InitOf, FragmentsOf, OldestHeld, R.InFlight, R.CommittedBy;
    var g := w.shared.generation;
    var produced, known := R.CommittedBy(v, g), |R.CommittedBy(w, g)|;
    var first, again := OldestHeld(w), known - R.InFlight(w, g);
    DatasSlice(produced, first, known);
    DatasSlice(produced, again, |produced|);
    assert produced[again..|produced|] == produced[again..];
    PartOfSlice(stretch, Datas(produced[first..known]), Datas(produced), FragmentsOf(stdout), first, known);
    PartOfSlice(more, Datas(produced[again..]), Datas(produced), FragmentsOf(stdout), again, |produced|);
    p := Places(first, first + |stretch|, again, again + |more|);
  }

  lemma OutputOf(outputs: nat -> bytes, w: R.World, v: R.World, stretch: seq<bytes>, more: seq<bytes>)
    requires IsStretch(w, v, stretch, more) && AllFed(outputs, w) && AllFed(outputs, v)
    ensures var g := w.shared.generation;
      && g in w.parsers && w.parsers[g].init == InitOf(outputs(g))
      && Datas(R.CommittedBy(v, g)) <= FragmentsOf(outputs(g))
  {
    hide InitOf, FragmentsOf;
    var g := w.shared.generation;
    assert Fed(w.parsers[g], outputs(g));
    if g in v.parsers { assert Fed(v.parsers[g], outputs(g)); }
  }

  /**
    Parsers that split their processes' outputs, any interleaving, any run of the pump, any other messages, any cutting
    of the wire: the controller holds the init segment of the output and its fragments, without a gap from the oldest
    one buffered when the recording began, and at most one of them twice.
   */
  lemma ControllerHoldsTheOutput(
      outputs: nat -> bytes, w: R.World, events: seq<R.Event>, cancelAt: nat, ticks: seq<Tick>,
      c: Cipher, key: bytes, r: Reader, stream: i64, log: seq<Sent>, cuts: seq<bytes>)
    returns (p: Places)
    requires R.Coherent(w) && AllFed(outputs, w) && PlaysAll(outputs, w, events)
    requires w.shared.initSegment.Some? && R.Run(w, events).shared.generation == w.shared.generation
    requires forall g: nat :: g < w.shared.generation ==> R.InFlight(w, g) == 0
    requires Hears(w, R.Run(w, events), ticks) && ClockRuns(ticks)
    requires Lawful(c) && r.lengths.AsDocumented? && OthersPassBy(r, stream, log)
    requires OwnIn(log) == RunPayloads(stream, Recording(w.shared.initSegment, Datas(w.shared.prebuffer), cancelAt, ticks))
    requires Flatten(cuts) == Frames(c, key, 0, PayloadsIn(log))
    ensures var stdout := outputs(w.shared.generation);
      var d := AfterReads(HdsFraming(c, key, Patient()), Drained([], 0, [], None), cuts);
      var peer := Given(r, stream, NewPeer, d.payloads);
      && Gapless(p, |FragmentsOf(stdout)|) && p.first == OldestHeld(w)
      && peer.Some? && DataOf(peer.value.rx.media) == [InitOf(stdout)] + At(p, FragmentsOf(stdout))
  {
    hide R.Coherent, R.Run, R.InFlight, Hears, ClockRuns, Lawful, OthersPassBy, OwnIn, RunPayloads, Recording, Frames,
         HdsFraming, AfterReads, Given, Fed, PlaysAll, Gapless, At, InitOf, FragmentsOf, OldestHeld;
    var stretch, more := ControllerHoldsAGaplessRecording(w, events, cancelAt, ticks, c, key, r, stream, log, cuts);
    var v, g := R.Run(w, events), w.shared.generation;
    RunFed(outputs, w, events);
    OutputOf(outputs, w, v, stretch, more);
    hide IsStretch, AllFed;
    p := StretchInOutput(w, v, stretch, more, outputs(g));
  }

  /**
    And of the output ffmpeg writes, boxes of other types and then moof and mdat in turn, that is the head, and
    then consecutive pairs of moof and mdat.
   */
  lemma ControllerHoldsFootage(
      outputs: nat -> bytes, w: R.World, events: seq<R.Event>, cancelAt: nat, ticks: seq<Tick>,
      c: Cipher, key: bytes, r: Reader, stream: i64, log: seq<Sent>, cuts: seq<bytes>,
      head: seq<B.Layout>, ps: seq<B.Piece>, rest: bytes)
    returns (p: Places)
    requires R.Coherent(w) && AllFed(outputs, w) && PlaysAll(outputs, w, events)
    requires w.shared.initSegment.Some? && R.Run(w, events).shared.generation == w.shared.generation
    requires forall g: nat :: g < w.shared.generation ==> R.InFlight(w, g) == 0
    requires Hears(w, R.Run(w, events), ticks) && ClockRuns(ticks)
    requires Lawful(c) && r.lengths.AsDocumented? && OthersPassBy(r, stream, log)
    requires OwnIn(log) == RunPayloads(stream, Recording(w.shared.initSegment, Datas(w.shared.prebuffer), cancelAt, ticks))
    requires Flatten(cuts) == Frames(c, key, 0, PayloadsIn(log))
    requires outputs(w.shared.generation) == B.Stream(head, ps, rest) && F.ReadBox(rest).Ended?
    requires B.IsHead(head) && forall i :: 0 <= i < |ps| ==> B.IsPiece(ps[i])
    ensures var d := AfterReads(HdsFraming(c, key, Patient()), Drained([], 0, [], None), cuts);
      var peer := Given(r, stream, NewPeer, d.payloads);
      && Gapless(p, |ps|) && p.first == OldestHeld(w)
      && peer.Some? && DataOf(peer.value.rx.media) == [Flatten(B.AllLaid(head))] + At(p, B.PieceBytes(ps))
  {
    hide R.Coherent, R.Run, R.InFlight, Hears, ClockRuns, Lawful, OthersPassBy, OwnIn, RunPayloads, Recording, Frames, Flatten,
         HdsFraming, AfterReads, Given, AllFed, PlaysAll, Gapless, OldestHeld, B.IsHead, B.IsPiece, F.ReadBox, F.Split, B.Stream;
    p := ControllerHoldsTheOutput(outputs, w, events, cancelAt, ticks, c, key, r, stream, log, cuts);
    B.StreamSplits(head, ps, rest);
  }
}
