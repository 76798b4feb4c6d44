/**
  The recording pump (src/hsv/hds.rs:437-609): init segment, prebuffer, then live fragments until the
  motion has been over for long enough, the controller cancels, or the recorder fails it.
 */
module Pump {
  import opened Wrappers
  import opened Bytes
  import opened CodecValues
  import opened HdsStream
  import opened DataSend
  import opened DataSendWire
  import opened Hds

  const RECORDING_TAIL: nat := 8_000

  /** What one turn of the live loop meets; times are in milliseconds. */
  datatype Tick =
    | CancelSeen
    | Disconnected   // the receiver lagged, or the recorder is gone
    | Stalled        // nothing for 30 s
    | Arrived(data: bytes, motion: bool, now: nat)

  datatype Outcome = StillWaiting | Cancelled | Closed(reason: i64) | EndOfStream

  datatype Plan = Plan(media: seq<Media>, outcome: Outcome)

  function FragmentMedia(number: nat, data: bytes, eos: bool): (m: Media)
    ensures |m.kind| <= 32
  {
    Media(Ascii("mediaFragment"), AsI64(number), data, eos)
  }

  function First(m: Media, p: Plan): (q: Plan)
    ensures q.outcome == p.outcome
  {
    p.(media := [m] + p.media)
  }

  /** The live loop: `since` is when the motion was first found inactive, if it still is. */
  function Live(ticks: seq<Tick>, number: nat, since: Option<nat>): Plan
    decreases |ticks|
  {
    if ticks == [] then Plan([], StillWaiting)
    else
      match ticks[0]
      case CancelSeen => Plan([], Cancelled)
      case Disconnected => Plan([], Closed(5))
      case Stalled => Plan([], Closed(6))
      case Arrived(data, motion, now) =>
        var since' := if motion then None else if since.Some? then since else Some(now);
        var eos := since'.Some? && now >= since'.value + RECORDING_TAIL;
        var m := FragmentMedia(number, data, eos);
        if eos then Plan([m], EndOfStream) else First(m, Live(ticks[1..], number + 1, since'))
  }

  lemma NoMoreTicks(number: nat, since: Option<nat>)
    ensures Live([], number, since) == Plan([], StillWaiting)
  {
  }

  function Since(t: Tick, since: Option<nat>): Option<nat>
    requires t.Arrived?
  {
    if t.motion then None else if since.Some? then since else Some(t.now)
  }

  predicate Ends(t: Tick, since: Option<nat>)
    requires t.Arrived?
  {
    since.Some? && t.now >= since.value + RECORDING_TAIL
  }

  /** One turn of the live loop. */
  lemma LiveTurn(ticks: seq<Tick>, i: nat, number: nat, since: Option<nat>)
    requires i < |ticks|
    ensures var t := ticks[i];
      Live(ticks[i..], number, since) ==
      if t.CancelSeen? then Plan([], Cancelled)
      else if t.Disconnected? then Plan([], Closed(5))
      else if t.Stalled? then Plan([], Closed(6))
      else
        var since' := Since(t, since);
        First(FragmentMedia(number, t.data, Ends(t, since')),
              if Ends(t, since') then Plan([], EndOfStream) else Live(ticks[i + 1..], number + 1, since'))
  {
    hide Ascii;
    assert ticks[i..][0] == ticks[i] && ticks[i..][1..] == ticks[i + 1..];
  }

  /** The prebuffer loop, cancelled before fragment `cancelAt`, and then the live loop. */
  function Buffered(prebuffer: seq<bytes>, number: nat, cancelAt: nat, ticks: seq<Tick>): Plan
    decreases |prebuffer|
  {
    if prebuffer == [] then Live(ticks, number, None)
    else if cancelAt == 0 then Plan([], Cancelled)
    else First(FragmentMedia(number, prebuffer[0], false), Buffered(prebuffer[1..], number + 1, cancelAt - 1, ticks))
  }

  /** One turn of the prebuffer loop. */
  lemma BufferedTurn(prebuffer: seq<bytes>, i: nat, number: nat, cancelAt: nat, ticks: seq<Tick>)
    requires i < |prebuffer| && i <= cancelAt
    ensures Buffered(prebuffer[i..], number, cancelAt - i, ticks) ==
      if i == cancelAt then Plan([], Cancelled)
      else First(FragmentMedia(number, prebuffer[i], false), Buffered(prebuffer[i + 1..], number + 1, cancelAt - i - 1, ticks))
  {
    hide Ascii;
    assert prebuffer[i..][0] == prebuffer[i] && prebuffer[i..][1..] == prebuffer[i + 1..];
  }

  lemma NoMoreBuffered(prebuffer: seq<bytes>, number: nat, cancelAt: nat, ticks: seq<Tick>)
    ensures Buffered(prebuffer[|prebuffer|..], number, cancelAt, ticks) == Live(ticks, number, None)
  {
  }

  function InitMedia(init: bytes): Media {
    Media(Ascii("mediaInitialization"), 1, init, false)
  }

  function Recording(init: Option<bytes>, prebuffer: seq<bytes>, cancelAt: nat, ticks: seq<Tick>): Plan {
    if init.None? then Plan([], Closed(6))
    else First(InitMedia(init.value), Buffered(prebuffer, 2, cancelAt, ticks))
  }

  // --- The messages ---

  function CloseMessage(stream: i64, reason: i64): Message {
    Message(EventHeader("close"), Dict([Field("streamId", Int64(stream)), Field("reason", Int64(reason))]))
  }

  function PayloadOf(m: Message): bytes {
    match Payload(m.header, m.body) case Ok(p) => p case Err(_) => []
  }

  function PayloadsOf(events: seq<Message>): seq<bytes> {
    if events == [] then [] else [PayloadOf(events[0])] + PayloadsOf(events[1..])
  }

  lemma {:induction false} PayloadsAppend(a: seq<Message>, b: seq<Message>)
    ensures PayloadsOf(a + b) == PayloadsOf(a) + PayloadsOf(b)
  {
    hide PayloadOf;
    if a == [] {
      Unit(b);
      Unit(PayloadsOf(b));
    } else {
      PayloadsAppend(a[1..], b);
      assert (a + b)[1..] == a[1..] + b;
      Assoc([PayloadOf(a[0])], PayloadsOf(a[1..]), PayloadsOf(b));
    }
  }

  /** Payloads of one segment, in order. */
  function SegmentPayloads(stream: i64, m: Media): seq<bytes> {
    PayloadsOf(DataEvents(Int64(stream), m, 0))
  }

  function MediaPayloads(stream: i64, media: seq<Media>): seq<bytes> {
    PayloadsOf(AllEvents(Int64(stream), media))
  }

  lemma MediaPayloadsCons(stream: i64, m: Media, more: seq<Media>)
    ensures MediaPayloads(stream, [m] + more) == SegmentPayloads(stream, m) + MediaPayloads(stream, more)
  {
    hide DataEvents, PayloadsOf;
    assert ([m] + more)[1..] == more;
    PayloadsAppend(DataEvents(Int64(stream), m, 0), AllEvents(Int64(stream), more));
  }

  lemma NoMediaPayloads(stream: i64)
    ensures MediaPayloads(stream, []) == []
  {
  }

  lemma CloseDeliverable(stream: i64, reason: i64)
    ensures Deliverable(CloseMessage(stream, reason))
  {
    hide Encoded, EncodedEntries, Ascii;
    var a, b := Field("streamId", Int64(stream)), Field("reason", Int64(reason));
    var body := CloseMessage(stream, reason).body;
    HeaderLen("close");
    assert body == Dict([a] + [b]);
    EntriesLen([a], [b]);
    OneEntryLen("streamId", Int64(stream));
    OneEntryLen("reason", Int64(reason));
    ScalarLen(Int64(stream));
    ScalarLen(Int64(reason));
    ScalarLen(body);
  }

  /** Everything a run puts on the stream: its segments, and a close event when it was closed. */
  function RunPayloads(stream: i64, p: Plan): seq<bytes> {
    MediaPayloads(stream, p.media) + if p.outcome.Closed? then [PayloadOf(CloseMessage(stream, p.outcome.reason))] else []
  }

  lemma RunPayloadsCons(stream: i64, m: Media, p: Plan)
    ensures RunPayloads(stream, First(m, p)) == SegmentPayloads(stream, m) + RunPayloads(stream, p)
  {
    hide SegmentPayloads, MediaPayloads;
    MediaPayloadsCons(stream, m, p.media);
    Assoc(SegmentPayloads(stream, m), MediaPayloads(stream, p.media),
          if p.outcome.Closed? then [PayloadOf(CloseMessage(stream, p.outcome.reason))] else []);
  }

  lemma RunPayloadsEnd(stream: i64, outcome: Outcome)
    ensures RunPayloads(stream, Plan([], outcome)) ==
            if outcome.Closed? then [PayloadOf(CloseMessage(stream, outcome.reason))] else []
  {
    NoMediaPayloads(stream);
  }

  // --- As it runs ---

  /** The writer behind its lock. Whenever the pump gets its turn, the connection's handler may have had some first. */
  class SharedWriter {
    const writer: Hds.FrameWriter
    var others: seq<seq<Message>>

    constructor (writer: Hds.FrameWriter, others: seq<seq<Message>>)
      ensures this.writer == writer && this.others == others
    {
      this.writer, this.others := writer, others;
    }

    /** What the pump itself has had sealed. */
    ghost function Own(): seq<bytes>
      reads this, writer
    {
      OwnIn(writer.log)
    }

    method LetOthersSend()
      requires writer.Valid()
      modifies this, writer
      ensures writer.Valid() && (old(writer.broken) ==> writer.broken) && Own() == old(Own())
    {
      hide Payload;
      if others == [] { return; }
      var first := others[0];
      others := others[1..];
      for i := 0 to |first|
        invariant writer.Valid() && (old(writer.broken) ==> writer.broken) && Own() == old(Own())
      {
        ghost var log := writer.log;
        var _ := writer.Send(first[i].header, first[i].body, false);
        if writer.log != log {
          OwnInPush(log, writer.log[|log|]);
          Unit(OwnIn(log));
        }
      }
    }

    method SendInTurn(m: Message) returns (r: Result<(), Hds.SendError>)
      requires writer.Valid() && Deliverable(m)
      modifies this, writer
      ensures writer.Valid() && (old(writer.broken) ==> writer.broken)
      ensures Own() == old(Own()) + [PayloadOf(m)]
      ensures r == if writer.broken then Err(SocketFailed) else Ok(())
    {
      hide Payload;
      LetOthersSend();
      OwnInPush(writer.log, Sent(true, PayloadOf(m)));
      r := writer.Send(m.header, m.body, true);
    }

    /** Sends one segment as data events: all of them, or, if the socket breaks, those up to then. */
    method SendData(stream: i64, m: Media) returns (r: Result<(), Hds.SendError>)
      requires writer.Valid() && |m.kind| <= 32
      modifies this, writer
      ensures writer.Valid() && r == if writer.broken then Err(SocketFailed) else Ok(())
      ensures if r.Ok? then Own() == old(Own()) + SegmentPayloads(stream, m)
              else old(Own()) <= Own() <= old(Own()) + SegmentPayloads(stream, m)
    {
      hide Payload, DataEvent, Pieces, OwnIn;
      var pieces := Pieces(m.data);
      var count := |pieces|;
      PiecesFlatten(m.data);
      r := Ok(());
      for i := 0 to count
        invariant writer.Valid() && r == Ok(()) && (i > 0 ==> !writer.broken) && old(Own()) <= Own()
        invariant Own() + PayloadsOf(DataEvents(Int64(stream), m, i)) == old(Own()) + SegmentPayloads(stream, m)
      {
        var e := DataEvent(Int64(stream), m, i);
        DataEventDeliverable(Int64(stream), m, i);
        ghost var events := DataEvents(Int64(stream), m, i);
        assert events[1..] == DataEvents(Int64(stream), m, i + 1);
        Assoc(Own(), [PayloadOf(e)], PayloadsOf(events[1..]));
        r := SendInTurn(e);
        if r.Err? { return; }
      }
      Unit(Own());
    }

    method SendClose(stream: i64, reason: i64) returns (r: Result<(), Hds.SendError>)
      requires writer.Valid()
      modifies this, writer
      ensures writer.Valid() && r == if writer.broken then Err(SocketFailed) else Ok(())
      ensures Own() == old(Own()) + [PayloadOf(CloseMessage(stream, reason))]
    {
      CloseDeliverable(stream, reason);
      r := SendInTurn(CloseMessage(stream, reason));
    }

    /** One more segment of a run, `later` being what is left of it after that. */
    method SendNext(stream: i64, m: Media, ghost later: Plan, ghost before: seq<bytes>, ghost all: seq<bytes>)
      returns (r: Result<(), Hds.SendError>)
      requires writer.Valid() && |m.kind| <= 32
      requires Underway(before, Own(), stream, First(m, later), all)
      modifies this, writer
      ensures writer.Valid() && r == if writer.broken then Err(SocketFailed) else Ok(())
      ensures if r.Ok? then Underway(before, Own(), stream, later, all) else before <= Own() <= all
    {
      hide RunPayloads, SegmentPayloads, OwnIn;
      StillToSend(Own(), stream, m, later);
      r := SendData(stream, m);
    }

    /** The pump, ending with the last tick at the latest, or where the socket breaks. */
    method PumpRecording(stream: i64, init: Option<bytes>, prebuffer: seq<bytes>, cancelAt: nat, ticks: seq<Tick>)
      returns (r: Result<Outcome, Hds.SendError>)
      requires writer.Valid()
      modifies this, writer
      ensures writer.Valid()
      ensures var plan := Recording(init, prebuffer, cancelAt, ticks);
        Ran(r, writer.broken, plan.outcome, old(Own()), Own(), old(Own()) + RunPayloads(stream, plan))
    {
      hide RunPayloads, Ascii, OwnIn, Buffered, Underway, Ran, Hds.FrameWriter.Valid, First;
      if init.None? {
        RunPayloadsEnd(stream, Closed(6));
        r := Finish(stream, 6);
        return;
      }
      var m := InitMedia(init.value);
      ghost var before, later := Own(), Buffered(prebuffer, 2, cancelAt, ticks);
      ghost var all := before + RunPayloads(stream, First(m, later));
      Begin(before, stream, First(m, later));
      var sent := SendNext(stream, m, later, before, all);
      if sent.Err? {
        BrokeOff(before, Own(), all, later.outcome);
        return Err(sent.error);
      }
      ghost var between := Own();
      r := PumpBuffered(stream, 2, prebuffer, cancelAt, ticks);
      RanOn(r, writer.broken, before, between, Own(), stream, later, all);
    }

    method PumpBuffered(stream: i64, start: nat, prebuffer: seq<bytes>, cancelAt: nat, ticks: seq<Tick>)
      returns (r: Result<Outcome, Hds.SendError>)
      requires writer.Valid() && !writer.broken
      modifies this, writer
      ensures writer.Valid()
      ensures var plan := Buffered(prebuffer, start, cancelAt, ticks);
        Ran(r, writer.broken, plan.outcome, old(Own()), Own(), old(Own()) + RunPayloads(stream, plan))
    {
      hide RunPayloads, Ascii, OwnIn, Buffered, Live, Underway, Ran, Hds.FrameWriter.Valid, FragmentMedia, First;
      var sequence := start;
      ghost var before, plan := Own(), Buffered(prebuffer, start, cancelAt, ticks);
      ghost var all := before + RunPayloads(stream, plan);
      assert prebuffer[0..] == prebuffer;
      Begin(before, stream, plan);
      for i := 0 to |prebuffer|
        invariant writer.Valid() && !writer.broken && i <= cancelAt
        invariant plan.outcome == Buffered(prebuffer[i..], sequence, cancelAt - i, ticks).outcome
        invariant Underway(before, Own(), stream, Buffered(prebuffer[i..], sequence, cancelAt - i, ticks), all)
      {
        BufferedTurn(prebuffer, i, sequence, cancelAt, ticks);
        if i == cancelAt {
          NothingLeft(before, Own(), stream, Cancelled, all);
          return Ok(Cancelled);
        }
        var m := FragmentMedia(sequence, prebuffer[i], false);
        var sent := SendNext(stream, m, Buffered(prebuffer[i + 1..], sequence + 1, cancelAt - i - 1, ticks), before, all);
        if sent.Err? {
          BrokeOff(before, Own(), all, plan.outcome);
          return Err(sent.error);
        }
        sequence := sequence + 1;
      }
      NoMoreBuffered(prebuffer, sequence, cancelAt - |prebuffer|, ticks);
      ghost var between := Own();
      r := PumpLive(stream, sequence, ticks);
      RanOn(r, writer.broken, before, between, Own(), stream, Live(ticks, sequence, None), all);
    }

    method PumpLive(stream: i64, start: nat, ticks: seq<Tick>) returns (r: Result<Outcome, Hds.SendError>)
      requires writer.Valid() && !writer.broken
      modifies this, writer
      ensures writer.Valid()
      ensures var plan := Live(ticks, start, None);
        Ran(r, writer.broken, plan.outcome, old(Own()), Own(), old(Own()) + RunPayloads(stream, plan))
    {
      hide RunPayloads, Ascii, OwnIn, Live, Underway, Ran, Hds.FrameWriter.Valid, FragmentMedia, First;
      var inactiveSince: Option<nat>, sequence := None, start;
      ghost var before, plan := Own(), Live(ticks, start, None);
      ghost var all := before + RunPayloads(stream, plan);
      assert ticks[0..] == ticks;
      Begin(before, stream, plan);
      for i := 0 to |ticks|
        invariant writer.Valid() && !writer.broken
        invariant plan.outcome == Live(ticks[i..], sequence, inactiveSince).outcome
        invariant Underway(before, Own(), stream, Live(ticks[i..], sequence, inactiveSince), all)
      {
        LiveTurn(ticks, i, sequence, inactiveSince);
        match ticks[i]
        case CancelSeen =>
          NothingLeft(before, Own(), stream, Cancelled, all);
          return Ok(Cancelled);
        case Disconnected =>
          ghost var between := Own();
          r := Finish(stream, 5);
          OnlyCloseLeft(r, writer.broken, before, between, Own(), stream, 5, all);
          return;
        case Stalled =>
          ghost var between := Own();
          r := Finish(stream, 6);
          OnlyCloseLeft(r, writer.broken, before, between, Own(), stream, 6, all);
          return;
        case Arrived(data, motion, now) =>
          if motion {
            inactiveSince := None;
          } else if inactiveSince.None? {
            inactiveSince := Some(now);
          }
          var eos := inactiveSince.Some? && now >= inactiveSince.value + RECORDING_TAIL;
          var m := FragmentMedia(sequence, data, eos);
          ghost var later := if eos then Plan([], EndOfStream) else Live(ticks[i + 1..], sequence + 1, inactiveSince);
          var sent := SendNext(stream, m, later, before, all);
          if sent.Err? {
            BrokeOff(before, Own(), all, plan.outcome);
            return Err(sent.error);
          }
          sequence := sequence + 1;
          if eos {
            NothingLeft(before, Own(), stream, EndOfStream, all);
            return Ok(EndOfStream);
          }
      }
      assert ticks[|ticks|..] == [];
      NoMoreTicks(sequence, inactiveSince);
      NothingLeft(before, Own(), stream, StillWaiting, all);
      r := Ok(StillWaiting);
    }

    /** The close event, and with it the end of the run. */
    method Finish(stream: i64, reason: i64) returns (r: Result<Outcome, Hds.SendError>)
      requires writer.Valid()
      modifies this, writer
      ensures writer.Valid()
      ensures var all := old(Own()) + [PayloadOf(CloseMessage(stream, reason))];
        Ran(r, writer.broken, Closed(reason), old(Own()), Own(), all)
    {
      hide OwnIn;
      var sent := SendClose(stream, reason);
      r := if sent.Ok? then Ok(Closed(reason)) else Err(sent.error);
    }
  }

  /** Everything sent is part of the run, and `rest` is what is left of it. */
  ghost predicate Underway(before: seq<bytes>, now: seq<bytes>, stream: i64, rest: Plan, all: seq<bytes>) {
    before <= now && now + RunPayloads(stream, rest) == all
  }

  lemma Begin(before: seq<bytes>, stream: i64, plan: Plan)
    ensures Underway(before, before, stream, plan, before + RunPayloads(stream, plan))
  {
    hide RunPayloads;
  }

  /** The rest of a run is done by someone else, from here on. */
  lemma RanOn(r: Result<Outcome, Hds.SendError>, broken: bool, before: seq<bytes>, between: seq<bytes>, now: seq<bytes>,
              stream: i64, rest: Plan, all: seq<bytes>)
    requires Underway(before, between, stream, rest, all)
    requires Ran(r, broken, rest.outcome, between, now, between + RunPayloads(stream, rest))
    ensures Ran(r, broken, rest.outcome, before, now, all)
  {
    hide RunPayloads;
  }

  lemma BrokeOff(before: seq<bytes>, now: seq<bytes>, all: seq<bytes>, outcome: Outcome)
    requires before <= now <= all
    ensures Ran(Err(SocketFailed), true, outcome, before, now, all)
  {
  }

  lemma NothingLeft(before: seq<bytes>, now: seq<bytes>, stream: i64, outcome: Outcome, all: seq<bytes>)
    requires Underway(before, now, stream, Plan([], outcome), all) && !outcome.Closed?
    ensures Ran(Ok(outcome), false, outcome, before, now, all)
  {
    RunPayloadsEnd(stream, outcome);
    Unit(now);
  }

  lemma OnlyCloseLeft(r: Result<Outcome, Hds.SendError>, broken: bool, before: seq<bytes>, between: seq<bytes>, now: seq<bytes>,
                      stream: i64, reason: i64, all: seq<bytes>)
    requires Underway(before, between, stream, Plan([], Closed(reason)), all)
    requires Ran(r, broken, Closed(reason), between, now, between + [PayloadOf(CloseMessage(stream, reason))])
    ensures Ran(r, broken, Closed(reason), before, now, all)
  {
    RunPayloadsEnd(stream, Closed(reason));
  }

  /** A run that came to its outcome has sent everything; one whose socket broke, a part of it from the start. */
  ghost predicate Ran(r: Result<Outcome, Hds.SendError>, broken: bool, outcome: Outcome,
                      before: seq<bytes>, now: seq<bytes>, all: seq<bytes>) {
    && r == (if broken then Err(SocketFailed) else Ok(outcome))
    && before <= now && (if broken then now <= all else now == all)
  }

  lemma StillToSend(sent: seq<bytes>, stream: i64, m: Media, p: Plan)
    ensures sent + RunPayloads(stream, First(m, p)) == (sent + SegmentPayloads(stream, m)) + RunPayloads(stream, p)
  {
    hide RunPayloads, SegmentPayloads;
    RunPayloadsCons(stream, m, p);
    Assoc(sent, SegmentPayloads(stream, m), RunPayloads(stream, p));
  }
}
