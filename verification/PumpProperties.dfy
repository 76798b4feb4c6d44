/**
  What a controller gets out of a recording (src/hsv/hds.rs:437-609), over every run of the pump and
  every way the network cuts its bytes.
 */
module PumpProperties {
  import opened Wrappers
  import opened Bytes
  import opened DataSend
  import opened Pump

  // --- The segments of a run ---

  function DataOf(media: seq<Media>): (r: seq<bytes>)
    ensures |r| == |media|
  {
    seq(|media|, i requires 0 <= i < |media| => media[i].data)
  }

  /** The fragments the live loop was given, in order. */
  function ArrivedData(ticks: seq<Tick>): seq<bytes> {
    if ticks == [] then []
    else (if ticks[0].Arrived? then [ticks[0].data] else []) + ArrivedData(ticks[1..])
  }

  ghost predicate Numbered(media: seq<Media>, start: nat) {
    forall i :: 0 <= i < |media| ==> media[i].number == AsI64(start + i)
  }

  ghost predicate AllFragments(media: seq<Media>) {
    forall i :: 0 <= i < |media| ==> media[i].kind == Ascii("mediaFragment")
  }

  lemma DataOfCons(m: Media, media: seq<Media>)
    ensures DataOf([m] + media) == [m.data] + DataOf(media)
  {
  }

  lemma {:induction false} LiveNumbered(ticks: seq<Tick>, number: nat, since: Option<nat>)
    ensures var p := Live(ticks, number, since);
      Numbered(p.media, number) && AllFragments(p.media)
    decreases |ticks|
  {
    hide AsI64, Ascii;
    if ticks != [] && ticks[0].Arrived? {
      var since' := Since(ticks[0], since);
      LiveNumbered(ticks[1..], number + 1, since');
      NumberedCons(FragmentMedia(number, ticks[0].data, false), Live(ticks[1..], number + 1, since').media, number);
    }
  }

  lemma NumberedCons(m: Media, media: seq<Media>, start: nat)
    requires m.number == AsI64(start) && Numbered(media, start + 1)
    ensures Numbered([m] + media, start)
  {
    hide AsI64;
    forall i | 0 <= i < |[m] + media|
      ensures ([m] + media)[i].number == AsI64(start + i)
    {
      if i > 0 { assert media[i - 1].number == AsI64(start + 1 + (i - 1)); }
    }
  }

  lemma {:induction false} BufferedNumbered(prebuffer: seq<bytes>, number: nat, cancelAt: nat, ticks: seq<Tick>)
    ensures var p := Buffered(prebuffer, number, cancelAt, ticks);
      Numbered(p.media, number) && AllFragments(p.media)
    decreases |prebuffer|
  {
    hide Live, AsI64, Ascii;
    if prebuffer == [] {
      LiveNumbered(ticks, number, None);
    } else if cancelAt > 0 {
      BufferedNumbered(prebuffer[1..], number + 1, cancelAt - 1, ticks);
      NumberedCons(FragmentMedia(number, prebuffer[0], false),
                   Buffered(prebuffer[1..], number + 1, cancelAt - 1, ticks).media, number);
    }
  }

  /** The segments are numbered 1, 2, 3, ...; the first is the init segment and the others are fragments. */
  lemma RecordingNumbered(init: bytes, prebuffer: seq<bytes>, cancelAt: nat, ticks: seq<Tick>)
    ensures var p := Recording(Some(init), prebuffer, cancelAt, ticks);
      && Numbered(p.media, 1)
      && p.media != [] && p.media[0].kind == Ascii("mediaInitialization") && AllFragments(p.media[1..])
  {
    hide Buffered, Ascii;
    var rest := Buffered(prebuffer, 2, cancelAt, ticks);
    BufferedNumbered(prebuffer, 2, cancelAt, ticks);
    assert AsI64(1) == 1;
    NumberedCons(InitMedia(init), rest.media, 1);
    assert ([InitMedia(init)] + rest.media)[1..] == rest.media;
  }

  // --- End of stream ---

  ghost predicate ClockRuns(ticks: seq<Tick>) {
    forall i, j :: 0 <= i < j < |ticks| && ticks[i].Arrived? && ticks[j].Arrived? ==> ticks[i].now <= ticks[j].now
  }

  /** From tick k to tick j every turn brought a fragment and found no motion. */
  ghost predicate Quiet(ticks: seq<Tick>, k: nat, j: nat) {
    j < |ticks| && forall i :: k <= i <= j ==> ticks[i].Arrived? && !ticks[i].motion
  }

  /** Motion had been over for the whole tail when fragment j came. */
  ghost predicate TailDone(ticks: seq<Tick>, j: nat) {
    exists k: nat :: k <= j && Quiet(ticks, k, j) && ticks[j].now >= ticks[k].now + 8_000
  }

  /** `since` is when the quiet run that reaches up to tick n began. */
  ghost predicate QuietSince(ticks: seq<Tick>, n: nat, since: Option<nat>) {
    && n <= |ticks|
    && match since
       case None => n == 0 || !(ticks[n - 1].Arrived? && !ticks[n - 1].motion)
       case Some(t) =>
         exists k: nat :: k < n && Quiet(ticks, k, n - 1) && ticks[k].now == t
                          && (k == 0 || !(ticks[k - 1].Arrived? && !ticks[k - 1].motion))
  }

  lemma QuietStep(ticks: seq<Tick>, n: nat, since: Option<nat>, since': Option<nat>)
    requires n < |ticks| && ticks[n].Arrived? && QuietSince(ticks, n, since)
    requires since' == if ticks[n].motion then None else if since.Some? then since else Some(ticks[n].now)
    ensures QuietSince(ticks, n + 1, since')
  {
    if since'.Some? {
      if since.Some? {
        var k: nat :| k < n && Quiet(ticks, k, n - 1) && ticks[k].now == since.value
                      && (k == 0 || !(ticks[k - 1].Arrived? && !ticks[k - 1].motion));
        assert Quiet(ticks, k, n);
      } else {
        assert Quiet(ticks, n, n);
      }
    }
  }

  lemma TailDoneExactly(ticks: seq<Tick>, n: nat, since': Option<nat>)
    requires n < |ticks| && ticks[n].Arrived? && ClockRuns(ticks) && QuietSince(ticks, n + 1, since')
    ensures (since'.Some? && ticks[n].now >= since'.value + 8_000) <==> TailDone(ticks, n)
  {
    if since'.Some? {
      var k: nat :| k < n + 1 && Quiet(ticks, k, n) && ticks[k].now == since'.value
                    && (k == 0 || !(ticks[k - 1].Arrived? && !ticks[k - 1].motion));
      if TailDone(ticks, n) {
        var k': nat :| k' <= n && Quiet(ticks, k', n) && ticks[n].now >= ticks[k'].now + 8_000;
        assert k <= k';
      }
    }
  }

  /** `lead` segments that do not end the stream, then live fragments that end it as they should; a negative lead
      means that as many ticks are over. */
  ghost predicate EndsRight(p: Plan, lead: int, ticks: seq<Tick>) {
    && |p.media| <= lead + |ticks|
    && (forall i :: 0 <= i < |p.media| ==> (p.media[i].eos <==> i >= lead && TailDone(ticks, i - lead)))
    && (forall i :: 0 <= i < |p.media| - 1 ==> !p.media[i].eos)
    && (p.outcome.EndOfStream? <==> p.media != [] && p.media[|p.media| - 1].eos)
  }

  lemma LeadSegment(m: Media, p: Plan, lead: int, ticks: seq<Tick>)
    requires EndsRight(p, lead, ticks) && !m.eos
    requires lead < 0 ==> !TailDone(ticks, -lead - 1)
    ensures EndsRight(First(m, p), lead + 1, ticks)
  {
    hide TailDone;
    var q := First(m, p);
    assert q.media[1..] == p.media;
    forall i | 0 <= i < |q.media|
      ensures q.media[i].eos <==> i >= lead + 1 && TailDone(ticks, i - (lead + 1))
      ensures i < |q.media| - 1 ==> !q.media[i].eos
    {
      if i > 0 { assert q.media[i] == p.media[i - 1] && i - (lead + 1) == (i - 1) - lead; }
    }
  }

  lemma LastSegment(m: Media, lead: int, ticks: seq<Tick>)
    requires m.eos && -|ticks| < lead <= 0 && TailDone(ticks, -lead)
    ensures EndsRight(First(m, Plan([], EndOfStream)), lead, ticks)
  {
    hide TailDone;
    assert First(m, Plan([], EndOfStream)).media == [m];
  }

  lemma NoSegment(outcome: Outcome, lead: int, ticks: seq<Tick>)
    requires !outcome.EndOfStream? && -|ticks| <= lead
    ensures EndsRight(Plan([], outcome), lead, ticks)
  {
  }

  lemma {:induction false} LiveEnds(ticks: seq<Tick>, n: nat, number: nat, since: Option<nat>)
    requires n <= |ticks| && ClockRuns(ticks) && QuietSince(ticks, n, since)
    ensures EndsRight(Live(ticks[n..], number, since), -(n as int), ticks)
    decreases |ticks| - n
  {
    hide ClockRuns, QuietSince, TailDone, EndsRight, Live, AsI64, Ascii;
    var lead: int := -(n as int);
    if n == |ticks| {
      assert ticks[n..] == [];
      NoMoreTicks(number, since);
      NoSegment(StillWaiting, lead, ticks);
    } else {
      LiveTurn(ticks, n, number, since);
      if ticks[n].Arrived? {
        var since' := Since(ticks[n], since);
        var m := FragmentMedia(number, ticks[n].data, Ends(ticks[n], since'));
        QuietStep(ticks, n, since, since');
        TailDoneExactly(ticks, n, since');
        if m.eos {
          LastSegment(m, lead, ticks);
        } else {
          LiveEnds(ticks, n + 1, number + 1, since');
          LeadSegment(m, Live(ticks[n + 1..], number + 1, since'), lead - 1, ticks);
        }
      } else {
        NoSegment(Live(ticks[n..], number, since).outcome, lead, ticks);
      }
    }
  }

  lemma {:induction false} BufferedEnds(prebuffer: seq<bytes>, number: nat, cancelAt: nat, ticks: seq<Tick>)
    requires ClockRuns(ticks)
    ensures EndsRight(Buffered(prebuffer, number, cancelAt, ticks), |prebuffer|, ticks)
    decreases |prebuffer|
  {
    hide Live, AsI64, Ascii, ClockRuns, TailDone, EndsRight;
    if prebuffer == [] {
      assert ticks[0..] == ticks;
      assert QuietSince(ticks, 0, None);
      LiveEnds(ticks, 0, number, None);
    } else if cancelAt > 0 {
      BufferedEnds(prebuffer[1..], number + 1, cancelAt - 1, ticks);
      LeadSegment(FragmentMedia(number, prebuffer[0], false),
                  Buffered(prebuffer[1..], number + 1, cancelAt - 1, ticks), |prebuffer| - 1, ticks);
    } else {
      NoSegment(Cancelled, |prebuffer|, ticks);
    }
  }

  /**
    A segment ends the stream exactly when it is a live fragment and every fragment over at least the
    last 8 s found motion inactive; only the last segment can, and then the run is over.
   */
  lemma EndOfStreamExactly(init: bytes, prebuffer: seq<bytes>, cancelAt: nat, ticks: seq<Tick>)
    requires ClockRuns(ticks)
    ensures EndsRight(Recording(Some(init), prebuffer, cancelAt, ticks), 1 + |prebuffer|, ticks)
  {
    hide Buffered, ClockRuns, EndsRight, Ascii;
    BufferedEnds(prebuffer, 2, cancelAt, ticks);
    LeadSegment(InitMedia(init), Buffered(prebuffer, 2, cancelAt, ticks), |prebuffer|, ticks);
  }

  // --- Where a run stops ---

  /** The tick that ends the live loop from tick n on: anything but a fragment, or the fragment that completes
      the quiet tail; or none of those given. */
  ghost function EndTick(ticks: seq<Tick>, n: nat): (e: nat)
    requires n <= |ticks|
    ensures n <= e <= |ticks|
    ensures forall i :: n <= i < e ==> ticks[i].Arrived? && !TailDone(ticks, i)
    ensures e < |ticks| ==> !ticks[e].Arrived? || TailDone(ticks, e)
    decreases |ticks| - n
  {
    if n == |ticks| || !ticks[n].Arrived? || TailDone(ticks, n) then n else EndTick(ticks, n + 1)
  }

  function OutcomeAt(ticks: seq<Tick>, e: nat): Outcome {
    if e >= |ticks| then StillWaiting
    else
      match ticks[e]
      case CancelSeen => Cancelled
      case Disconnected => Closed(5)
      case Stalled => Closed(6)
      case Arrived(_, _, _) => EndOfStream
  }

  /** The fragments up to tick e, and that of tick e if it has one. */
  function DataUpTo(ticks: seq<Tick>, n: nat, e: nat): seq<bytes>
    requires n <= e <= |ticks|
  {
    ArrivedData(ticks[n..if e < |ticks| then e + 1 else e])
  }

  lemma DataUpToStep(ticks: seq<Tick>, n: nat, e: nat)
    requires n <= e <= |ticks|
    ensures n < e && ticks[n].Arrived? ==> DataUpTo(ticks, n, e) == [ticks[n].data] + DataUpTo(ticks, n + 1, e)
    ensures n == e ==> DataUpTo(ticks, n, e) == if e < |ticks| && ticks[e].Arrived? then [ticks[e].data] else []
  {
    if n < e {
      var m := if e < |ticks| then e + 1 else e;
      assert ticks[n..m][1..] == ticks[n + 1..m];
    } else if e < |ticks| {
      assert ticks[e..e + 1][1..] == [];
      assert ArrivedData([]) == [];
    }
  }

  lemma {:induction false} LiveStops(ticks: seq<Tick>, n: nat, number: nat, since: Option<nat>)
    requires n <= |ticks| && ClockRuns(ticks) && QuietSince(ticks, n, since)
    ensures var p, e := Live(ticks[n..], number, since), EndTick(ticks, n);
      p.outcome == OutcomeAt(ticks, e) && DataOf(p.media) == DataUpTo(ticks, n, e)
    decreases |ticks| - n
  {
    hide ClockRuns, QuietSince, TailDone, AsI64, Ascii, Live, DataUpTo;
    var e := EndTick(ticks, n);
    DataUpToStep(ticks, n, e);
    if n == |ticks| {
      assert ticks[n..] == [];
      NoMoreTicks(number, since);
    } else {
      LiveTurn(ticks, n, number, since);
      if ticks[n].Arrived? {
        var since' := Since(ticks[n], since);
        QuietStep(ticks, n, since, since');
        TailDoneExactly(ticks, n, since');
        var later := if Ends(ticks[n], since') then Plan([], EndOfStream) else Live(ticks[n + 1..], number + 1, since');
        DataOfCons(FragmentMedia(number, ticks[n].data, Ends(ticks[n], since')), later.media);
        Unit([ticks[n].data]);
        if !Ends(ticks[n], since') { LiveStops(ticks, n + 1, number + 1, since'); }
      }
    }
  }

  lemma {:induction false} BufferedStops(prebuffer: seq<bytes>, number: nat, cancelAt: nat, ticks: seq<Tick>)
    requires ClockRuns(ticks)
    ensures var p, e := Buffered(prebuffer, number, cancelAt, ticks), EndTick(ticks, 0);
      && p.outcome == (if cancelAt < |prebuffer| then Cancelled else OutcomeAt(ticks, e))
      && DataOf(p.media) == if cancelAt < |prebuffer| then prebuffer[..cancelAt] else prebuffer + DataUpTo(ticks, 0, e)
    decreases |prebuffer|
  {
    hide Live, AsI64, Ascii, ClockRuns, DataUpTo, OutcomeAt, EndTick, QuietSince, DataOf;
    if prebuffer == [] {
      assert ticks[0..] == ticks;
      NoneQuiet(ticks);
      LiveStops(ticks, 0, number, None);
      Unit(DataUpTo(ticks, 0, EndTick(ticks, 0)));
    } else if cancelAt == 0 {
      NoData();
    } else {
      var more := prebuffer[1..];
      BufferedStops(more, number + 1, cancelAt - 1, ticks);
      DataOfCons(FragmentMedia(number, prebuffer[0], false), Buffered(more, number + 1, cancelAt - 1, ticks).media);
      if cancelAt < |prebuffer| {
        FirstAndMore(prebuffer, cancelAt);
      } else {
        Assoc([prebuffer[0]], more, DataUpTo(ticks, 0, EndTick(ticks, 0)));
        FirstAndMore(prebuffer, |prebuffer|);
      }
    }
  }

  lemma NoneQuiet(ticks: seq<Tick>)
    ensures QuietSince(ticks, 0, None)
  {
  }

  lemma NoData()
    ensures DataOf([]) == []
  {
  }

  lemma FirstAndMore(s: seq<bytes>, n: nat)
    requires 0 < n <= |s|
    ensures [s[0]] + s[1..][..n - 1] == s[..n]
    ensures [s[0]] + s[1..] == s
  {
  }

  /** What a run sends, segment by segment. */
  ghost function Recorded(init: Option<bytes>, prebuffer: seq<bytes>, cancelAt: nat, ticks: seq<Tick>): seq<bytes> {
    if init.None? then []
    else [init.value] + if cancelAt < |prebuffer| then prebuffer[..cancelAt]
                        else prebuffer + DataUpTo(ticks, 0, EndTick(ticks, 0))
  }

  ghost function HowItEnds(init: Option<bytes>, prebuffer: seq<bytes>, cancelAt: nat, ticks: seq<Tick>): Outcome {
    if init.None? then Closed(6)
    else if cancelAt < |prebuffer| then Cancelled
    else OutcomeAt(ticks, EndTick(ticks, 0))
  }

  /**
    A run sends the init segment, then the prebuffer, then the live fragments, with none skipped and none
    repeated, exactly up to where it ends: where the prebuffer was cancelled; the tick that cancelled or closed it;
    or the fragment that completed the quiet tail, that one included. Without an init segment it only closes.
   */
  lemma RecordingSegments(init: Option<bytes>, prebuffer: seq<bytes>, cancelAt: nat, ticks: seq<Tick>)
    requires ClockRuns(ticks)
    ensures var p := Recording(init, prebuffer, cancelAt, ticks);
      && DataOf(p.media) == Recorded(init, prebuffer, cancelAt, ticks)
      && p.outcome == HowItEnds(init, prebuffer, cancelAt, ticks)
  {
    hide Buffered, ClockRuns, DataUpTo, OutcomeAt, EndTick, Ascii;
    if init.Some? {
      var rest := Buffered(prebuffer, 2, cancelAt, ticks);
      BufferedStops(prebuffer, 2, cancelAt, ticks);
      DataOfCons(InitMedia(init.value), rest.media);
    }
  }
}
