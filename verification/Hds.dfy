/**
  The data stream server as it runs (src/hsv/hds.rs:69-86, 129-247): prepared sessions, identification
  of a connection by trial decryption, the read loop, and the frame writer.
 */
module Hds {
  import opened Wrappers
  import opened Bytes
  import opened Aead
  import opened Frame
  import opened Framed
  import opened CodecValues
  import opened HdsStream
  import Codec

  const PREPARED_SESSION_TTL: nat := 10_000

  datatype SessionKeys = SessionKeys(accessoryToController: bytes, controllerToAccessory: bytes)

  /** Keys waiting for their connection, and when they were made (milliseconds). */
  datatype PreparedSession = PreparedSession(keys: SessionKeys, created: nat)

  function Unexpired(prepared: seq<PreparedSession>, now: nat): (r: seq<PreparedSession>)
    ensures forall p :: p in r <==> p in prepared && now < p.created + PREPARED_SESSION_TTL
  {
    if prepared == [] then []
    else (if now < prepared[0].created + PREPARED_SESSION_TTL then [prepared[0]] else [])
         + Unexpired(prepared[1..], now)
  }

  /** The first session from index i on whose key opens the frame as the first of its stream. */
  function FirstOpening(c: Cipher, prepared: seq<PreparedSession>, frame: bytes, i: nat): (r: Option<nat>)
    requires i <= |prepared|
    ensures r.Some? ==> i <= r.value < |prepared| && Opens(c, prepared[r.value], frame)
    ensures forall j :: i <= j < (if r.Some? then r.value else |prepared|) ==> !Opens(c, prepared[j], frame)
    decreases |prepared| - i
  {
    if i == |prepared| then None
    else if Opens(c, prepared[i], frame) then Some(i)
    else FirstOpening(c, prepared, frame, i + 1)
  }

  predicate Opens(c: Cipher, p: PreparedSession, frame: bytes) {
    DecryptFrame(c, p.keys.controllerToAccessory, 0, frame).Ok?
  }

  /** The list after a setup. */
  function SetUp(prepared: seq<PreparedSession>, keys: SessionKeys, now: nat): seq<PreparedSession> {
    Unexpired(prepared, now) + [PreparedSession(keys, now)]
  }

  /** What a first frame claims, and the list after that. */
  function Claimed(c: Cipher, prepared: seq<PreparedSession>, frame: bytes, now: nat): (Option<PreparedSession>, seq<PreparedSession>) {
    var alive := Unexpired(prepared, now);
    match FirstOpening(c, alive, frame, 0)
    case None => (None, alive)
    case Some(i) => (Some(alive[i]), alive[..i] + alive[i + 1..])
  }

  class HdsServer {
    var prepared: seq<PreparedSession>

    constructor ()
      ensures prepared == []
    {
      prepared := [];
    }

    method Setup(keys: SessionKeys, now: nat)
      modifies this
      ensures prepared == SetUp(old(prepared), keys, now)
    {
      prepared := Unexpired(prepared, now) + [PreparedSession(keys, now)];
    }

    /** Hands out the first unexpired session that opens the frame, once. */
    method Claim(c: Cipher, frame: bytes, now: nat) returns (claimed: Option<(SessionKeys, bytes)>)
      modifies this
      ensures var (session, left) := Claimed(c, old(prepared), frame, now);
        && prepared == left
        && claimed == if session.None? then None
                      else Some((session.value.keys, DecryptFrame(c, session.value.keys.controllerToAccessory, 0, frame).value))
    {
      prepared := Unexpired(prepared, now);
      ghost var alive := prepared;
      for i := 0 to |prepared|
        invariant prepared == alive
        invariant FirstOpening(c, alive, frame, 0) == FirstOpening(c, alive, frame, i)
      {
        var keys := prepared[i].keys;
        var payload := DecryptFrame(c, keys.controllerToAccessory, 0, frame);
        if payload.Ok? {
          prepared := prepared[..i] + prepared[i + 1..];
          return Some((keys, payload.value));
        }
      }
      claimed := None;
    }
  }

  // --- One connection ---

  /** A connection: still collecting its first frame, identified, or refused. */
  datatype Link =
    | Waiting(buf: bytes)
    | Open(keys: SessionKeys, stream: Drained<ConnectionError>)
    | Refused(error: ConnectionError)

  /** The first frame decides whose connection this is; from then on its session's key opens everything. */
  function Identify(c: Cipher, handler: Handler, alive: seq<PreparedSession>, buf: bytes): Link {
    match CompleteFrameLen(buf)
    case Err(e) => Refused(BadFrame(e))
    case Ok(None) => Waiting(buf)
    case Ok(Some(n)) =>
      match FirstOpening(c, alive, buf[..n], 0)
      case None => Refused(NoSessionMatched)
      case Some(i) => Open(alive[i].keys, Drain(HdsFraming(c, alive[i].keys.controllerToAccessory, handler), 0, buf))
  }

  /** The connection after one read, `alive` being the sessions that could claim it then. */
  function Advance(c: Cipher, handler: Handler, link: Link, data: bytes, alive: seq<PreparedSession>): Link {
    match link
    case Waiting(buf) => Identify(c, handler, alive, buf + data)
    case Open(keys, stream) => Open(keys, AfterRead(HdsFraming(c, keys.controllerToAccessory, handler), stream, data))
    case Refused(_) => link
  }

  /** Draining with the first frame ahead: its payload goes to the handler, and then the rest is drained. */
  lemma FirstTurn(c: Cipher, key: bytes, handler: Handler, buf: bytes, n: nat, p: bytes)
    requires CompleteFrameLen(buf) == Ok(Some(n)) && DecryptFrame(c, key, 0, buf[..n]) == Ok(p)
    ensures var f := HdsFraming(c, key, handler);
      Drain(f, 0, buf) ==
      if handler(0, p) then Drain(f, 1, buf[n..]).After([p]) else Drained([p], 1, buf[n..], Some(NotHandled))
  {
    hide Sound, Drain, DecryptFrame, CompleteFrameLen;
    var f := HdsFraming(c, key, handler);
    DrainTurn(f, [], 0, buf);
    Unit(Drain(f, 0, buf).payloads);
    Unit([p]);
  }

  class Connection {
    const c: Cipher
    const server: HdsServer
    const handler: Handler
    var buf: bytes
    var keys: Option<SessionKeys>
    var readCounter: nat
    var handled: seq<bytes>              // payloads given to the handler, in order
    var failure: Option<ConnectionError>

    ghost function State(): Link
      reads this
    {
      if keys.Some? then Open(keys.value, Drained(handled, readCounter, buf, failure))
      else if failure.Some? then Refused(failure.value)
      else Waiting(buf)
    }

    constructor (c: Cipher, server: HdsServer, handler: Handler)
      ensures this.c == c && this.server == server && this.handler == handler
      ensures State() == Waiting([])
    {
      this.c := c;
      this.server := server;
      this.handler := handler;
      buf, keys, readCounter, handled, failure := [], None, 0, [], None;
    }

    method OnRead(data: bytes, now: nat)
      modifies this, server
      ensures State() == Advance(c, handler, old(State()), data, Unexpired(old(server.prepared), now))
    {
      hide Sound, Drain, DecryptFrame, CompleteFrameLen, HdsFraming;
      if failure.Some? { return; }
      buf := buf + data;
      if keys.None? {
        var complete := CompleteFrameLen(buf);
        if complete.Err? { failure := Some(BadFrame(complete.error)); return; }
        if complete.value.None? { return; }
        var n := complete.value.value;
        var claimed := server.Claim(c, buf[..n], now);
        if claimed.None? { failure := Some(NoSessionMatched); return; }
        var key := claimed.value.0.controllerToAccessory;
        FirstTurn(c, key, handler, buf, n, claimed.value.1);
        buf, keys, readCounter, handled := buf[n..], Some(claimed.value.0), 1, [claimed.value.1];
        if !handler(0, claimed.value.1) { failure := Some(NotHandled); return; }
      }
      DrainBuffer();
    }

    method DrainBuffer()
      requires keys.Some? && failure.None?
      modifies this
      ensures keys == old(keys)
      ensures var next := Drain(HdsFraming(c, keys.value.controllerToAccessory, handler), old(readCounter), old(buf));
        State() == Open(keys.value, next.After(old(handled)))
    {
      hide Sound, Drain, CompleteFrameLen, DecryptFrame;
      var key := keys.value.controllerToAccessory;
      ghost var f := HdsFraming(c, key, handler);
      ghost var all := Drain(f, readCounter, buf).After(handled);
      while true
        invariant keys == old(keys) && failure.None?
        invariant all == Drain(f, readCounter, buf).After(handled)
        decreases |buf|
      {
        DrainTurn(f, handled, readCounter, buf);
        var complete := CompleteFrameLen(buf);
        if complete.Err? { failure := Some(BadFrame(complete.error)); return; }
        if complete.value.None? { return; }
        var n := complete.value.value;
        var payload := DecryptFrame(c, key, readCounter, buf[..n]);
        if payload.Err? { failure := Some(BadFrame(payload.error)); return; }
        buf := buf[n..];
        readCounter, handled := readCounter + 1, handled + [payload.value];
        if !handler(readCounter - 1, payload.value) { failure := Some(NotHandled); return; }
      }
    }
  }

  // --- Whole connections ---

  /** A read, with the sessions that could claim the connection at that time. */
  datatype Read = Read(data: bytes, alive: seq<PreparedSession>)

  function Received(rs: seq<Read>): bytes {
    if rs == [] then [] else rs[0].data + Received(rs[1..])
  }

  function Run(c: Cipher, handler: Handler, link: Link, rs: seq<Read>): Link
    decreases |rs|
  {
    if rs == [] then link else Run(c, handler, Advance(c, handler, link, rs[0].data, rs[0].alive), rs[1..])
  }

  /** The sessions alive at the read that completes the first frame, or shows that it never will be one. */
  function Deciding(sofar: bytes, rs: seq<Read>): Option<seq<PreparedSession>>
    decreases |rs|
  {
    if rs == [] then None
    else if CompleteFrameLen(sofar + rs[0].data) != Ok(None) then Some(rs[0].alive)
    else Deciding(sofar + rs[0].data, rs[1..])
  }

  /** The same session, payloads, counter and verdict; and the same bytes buffered unless it has failed. */
  ghost predicate SameLink(a: Link, b: Link) {
    a == b || (a.Open? && b.Open? && a.keys == b.keys && Agree(a.stream, b.stream))
  }

  lemma IdentifyInTwo(c: Cipher, handler: Handler, alive: seq<PreparedSession>, sofar: bytes, data: bytes, later: seq<PreparedSession>, link: Link)
    requires CompleteFrameLen(sofar) != Ok(None)
    requires SameLink(link, Identify(c, handler, alive, sofar))
    ensures SameLink(Advance(c, handler, link, data, later), Identify(c, handler, alive, sofar + data))
  {
    hide Sound, Drain, AfterRead, FirstOpening, CompleteFrameLen;
    BoundaryStable(sofar, data);
    var len := CompleteFrameLen(sofar);
    if len.Ok? {
      assert (sofar + data)[..len.value.value] == sofar[..len.value.value];
      var i := FirstOpening(c, alive, sofar[..len.value.value], 0);
      if i.Some? {
        var f := HdsFraming(c, alive[i.value].keys.controllerToAccessory, handler);
        DrainInTwo(f, 0, sofar, data);
        AfterReadAgrees(f, link.stream, Drain(f, 0, sofar), data);
        hide HdsFraming;
      }
    }
  }

  lemma {:induction false} DecidedRun(c: Cipher, handler: Handler, alive: seq<PreparedSession>, sofar: bytes, link: Link, rs: seq<Read>)
    requires CompleteFrameLen(sofar) != Ok(None)
    requires SameLink(link, Identify(c, handler, alive, sofar))
    ensures SameLink(Run(c, handler, link, rs), Identify(c, handler, alive, sofar + Received(rs)))
    decreases |rs|
  {
    hide Identify, Advance, SameLink, CompleteFrameLen;
    if rs == [] {
      Unit(sofar);
    } else {
      Assoc(sofar, rs[0].data, Received(rs[1..]));
      IdentifyInTwo(c, handler, alive, sofar, rs[0].data, rs[0].alive, link);
      BoundaryStable(sofar, rs[0].data);
      DecidedRun(c, handler, alive, sofar + rs[0].data, Advance(c, handler, link, rs[0].data, rs[0].alive), rs[1..]);
    }
  }

  /**
    For any bytes at all, however they are cut into reads and whatever sessions come and go: the connection
    ends up as if all of them had arrived in one read, with the sessions alive when the first frame was complete.
   */
  lemma {:induction false} RunDependsOnBytes(c: Cipher, handler: Handler, sofar: bytes, rs: seq<Read>)
    requires CompleteFrameLen(sofar) == Ok(None)
    ensures var link, all, alive := Run(c, handler, Waiting(sofar), rs), sofar + Received(rs), Deciding(sofar, rs);
      if alive.None? then CompleteFrameLen(all) == Ok(None) && link == Waiting(all)
      else CompleteFrameLen(all) != Ok(None) && SameLink(link, Identify(c, handler, alive.value, all))
    decreases |rs|
  {
    hide FirstOpening, CompleteFrameLen, Drain;
    if rs == [] {
      Unit(sofar);
    } else {
      var next := sofar + rs[0].data;
      Assoc(sofar, rs[0].data, Received(rs[1..]));
      if CompleteFrameLen(next) == Ok(None) {
        RunDependsOnBytes(c, handler, next, rs[1..]);
      } else {
        var link := Identify(c, handler, rs[0].alive, next);
        BoundaryStable(next, Received(rs[1..]));
        hide Identify;
        DecidedRun(c, handler, rs[0].alive, next, link, rs[1..]);
      }
    }
  }

  /** Session `keys` is alive, and no session before it opens the frame. */
  ghost predicate Recognised(c: Cipher, alive: seq<PreparedSession>, keys: SessionKeys, frame: bytes) {
    var found := FirstOpening(c, alive, frame, 0);
    found.Some? && alive[found.value].keys == keys
  }

  /** A stream that begins with a complete frame begins with the first frame sent. */
  lemma FirstFrameOf(c: Cipher, keys: SessionKeys, payloads: seq<bytes>, stream: bytes, later: bytes)
    requires Lawful(c) && Sendable(payloads) && payloads != []
    requires stream + later == Frames(c, keys.controllerToAccessory, 0, payloads)
    requires CompleteFrameLen(stream) != Ok(None)
    ensures var frame := Sealed(c, keys.controllerToAccessory, 0, payloads[0]);
      CompleteFrameLen(stream) == Ok(Some(|frame|)) && stream[..|frame|] == frame
  {
    hide Lawful, Sound, DecryptFrame, Sealed, CompleteFrameLen;
    var key := keys.controllerToAccessory;
    var frame := Sealed(c, key, 0, payloads[0]);
    var more := Frames(c, key, 1, payloads[1..]);
    FrameOpens(c, key, 0, payloads[0], more);
    BoundaryStable(stream, later);
    assert stream[..|frame|] == (stream + later)[..|frame|] == frame;
  }

  /**
    The holder of `keys` sends payloads, and any part of that has arrived, in any reads. If the session was
    recognised at the one read that completed the first frame, then the connection is its own, and has handed
    over exactly what the bytes so far contain.
   */
  lemma RunIsFaithful(c: Cipher, handler: Handler, keys: SessionKeys, payloads: seq<bytes>, rs: seq<Read>, later: bytes)
    requires Lawful(c) && Sendable(payloads) && payloads != []
    requires Received(rs) + later == Frames(c, keys.controllerToAccessory, 0, payloads)
    requires Deciding([], rs).Some? ==>
      Recognised(c, Deciding([], rs).value, keys, Sealed(c, keys.controllerToAccessory, 0, payloads[0]))
    ensures var link := Run(c, handler, Waiting([]), rs);
      if Deciding([], rs).None? then link == Waiting(Received(rs)) && CompleteFrameLen(Received(rs)) == Ok(None)
      else
        && link.Open? && link.keys == keys
        && Agree(link.stream, Drain(HdsFraming(c, keys.controllerToAccessory, handler), 0, Received(rs)))
        && ((forall i :: 0 <= i < |payloads| ==> handler(i, payloads[i])) ==>
              link.stream.error.None? && link.stream.payloads <= payloads)
  {
    hide Lawful, Sound, Drain, Sendable, Frames, Sealed, CompleteFrameLen, FirstOpening, Opened;
    EmptyBuffer();
    var key := keys.controllerToAccessory;
    if forall i :: 0 <= i < |payloads| ==> handler(i, payloads[i]) {
      FramesOpen(c, key, handler, payloads);
      AllWelcome(c, key, handler, payloads);
      FramesAreRecords(c, key, payloads);
      PrefixDrains(HdsFraming(c, key, handler), HdsSeal(c, key), 0, payloads, Received(rs), later);
    }
    hide Welcome, HdsFraming;
    Unit(Received(rs));
    RunDependsOnBytes(c, handler, [], rs);
    if Deciding([], rs).Some? { FirstFrameOf(c, keys, payloads, Received(rs), later); }
  }

  /** Once everything has arrived and the handler takes it all, it has been given exactly the payloads sent ... */
  lemma ConnectionDelivers(c: Cipher, handler: Handler, keys: SessionKeys, payloads: seq<bytes>, rs: seq<Read>)
    requires Lawful(c) && Sendable(payloads) && payloads != []
    requires Received(rs) == Frames(c, keys.controllerToAccessory, 0, payloads)
    requires Deciding([], rs).Some? ==>
      Recognised(c, Deciding([], rs).value, keys, Sealed(c, keys.controllerToAccessory, 0, payloads[0]))
    requires forall i :: 0 <= i < |payloads| ==> handler(i, payloads[i])
    ensures Run(c, handler, Waiting([]), rs) == Open(keys, Drained(payloads, |payloads|, [], None))
  {
    hide Lawful, Records, Opened, Sound, Sendable, CompleteFrameLen, Drain, Sealed, Recognised, Run, Received, Deciding;
    var key := keys.controllerToAccessory;
    Unit(Received(rs));
    RunIsFaithful(c, handler, keys, payloads, rs, []);
    NonEmptyFrames(c, key, payloads);
    FramesOpen(c, key, handler, payloads);
    AllWelcome(c, key, handler, payloads);
    WholeDrains(HdsFraming(c, key, handler), HdsSeal(c, key), 0, payloads);
  }

  /** ... and if it fails on one, then exactly those up to that one. */
  lemma ConnectionStopsAtFailure(c: Cipher, handler: Handler, keys: SessionKeys, payloads: seq<bytes>, k: nat, rs: seq<Read>)
    requires Lawful(c) && Sendable(payloads) && k < |payloads|
    requires Received(rs) == Frames(c, keys.controllerToAccessory, 0, payloads)
    requires Deciding([], rs).Some? ==>
      Recognised(c, Deciding([], rs).value, keys, Sealed(c, keys.controllerToAccessory, 0, payloads[0]))
    requires (forall i :: 0 <= i < k ==> handler(i, payloads[i])) && !handler(k, payloads[k])
    ensures var link := Run(c, handler, Waiting([]), rs);
      && link.Open? && link.keys == keys
      && link.stream.payloads == payloads[..k + 1] && link.stream.error == Some(NotHandled)
  {
    hide Lawful, Records, Opened, Sound, Sendable, CompleteFrameLen, Drain, Sealed, Recognised, Run, Received, Deciding;
    var key := keys.controllerToAccessory;
    Unit(Received(rs));
    RunIsFaithful(c, handler, keys, payloads, rs, []);
    NonEmptyFrames(c, key, payloads);
    FramesOpen(c, key, handler, payloads);
    AllWelcome(c, key, handler, payloads[..k]);
    RefusedDrains(HdsFraming(c, key, handler), HdsSeal(c, key), 0, payloads, k, []);
  }

  lemma FramesAreRecords(c: Cipher, key: bytes, payloads: seq<bytes>)
    ensures Frames(c, key, 0, payloads) == Records(HdsSeal(c, key), 0, payloads)
  {
  }

  lemma AllWelcome(c: Cipher, key: bytes, handler: Handler, payloads: seq<bytes>)
    requires forall i :: 0 <= i < |payloads| ==> handler(i, payloads[i])
    ensures Welcome(HdsFraming(c, key, handler), 0, payloads)
  {
  }

  lemma NonEmptyFrames(c: Cipher, key: bytes, payloads: seq<bytes>)
    requires Lawful(c) && Sendable(payloads) && payloads != []
    ensures CompleteFrameLen(Frames(c, key, 0, payloads)) != Ok(None)
  {
    hide Lawful, DecryptFrame, Sealed, CompleteFrameLen;
    FrameOpens(c, key, 0, payloads[0], Frames(c, key, 1, payloads[1..]));
  }

  // --- The frame writer ---

  datatype SendError = BadPayload(payload: PayloadError) | NotSealed(frame: FrameError) | SocketFailed

  /** A payload sealed, and whether it is the recording pump's; the connection's handler shares the writer. */
  datatype Sent = Sent(own: bool, payload: bytes)

  function PayloadsIn(log: seq<Sent>): (r: seq<bytes>)
    ensures |r| == |log| && forall i :: 0 <= i < |r| ==> r[i] == log[i].payload
  {
    seq(|log|, i requires 0 <= i < |log| => log[i].payload)
  }

  function OwnIn(log: seq<Sent>): seq<bytes> {
    if log == [] then []
    else (if log[0].own then [log[0].payload] else []) + OwnIn(log[1..])
  }

  lemma {:induction false} OwnInPush(log: seq<Sent>, s: Sent)
    ensures OwnIn(log + [s]) == OwnIn(log) + if s.own then [s.payload] else []
  {
    if log == [] {
      assert [s][1..] == [];
      Unit([s]);
      Unit(OwnIn([s]));
    } else {
      OwnInPush(log[1..], s);
      assert (log + [s])[1..] == log[1..] + [s];
      Assoc(if log[0].own then [log[0].payload] else [], OwnIn(log[1..]), if s.own then [s.payload] else []);
    }
  }

  class FrameWriter {
    const c: Cipher
    const key: bytes
    const room: Option<nat>         // how much the socket takes before it breaks, if it ever does
    var counter: nat
    var wire: bytes                 // what has been written to the socket
    var broken: bool
    ghost var log: seq<Sent>        // what has been sealed for it

    /** The socket carries the frames of the payloads sealed, with counters 0, 1, 2, ..., or where it broke a prefix of them. */
    ghost predicate Valid()
      reads this
    {
      && Sendable(PayloadsIn(log))
      && counter == |log|
      && (if broken then wire <= Frames(c, key, 0, PayloadsIn(log)) else wire == Frames(c, key, 0, PayloadsIn(log)))
    }

    constructor (c: Cipher, key: bytes, room: Option<nat>)
      ensures Valid() && this.c == c && this.key == key && this.room == room && log == [] && !broken
    {
      this.c, this.key, this.room := c, key, room;
      counter, wire, broken, log := 0, [], false, [];
    }

    method Send(header: Value, message: Value, ghost own: bool) returns (r: Result<(), SendError>)
      requires Valid()
      modifies this
      ensures Valid()
      ensures match Payload(header, message)
        case Err(e) => r == Err(BadPayload(e)) && log == old(log) && broken == old(broken)
        case Ok(p) =>
          if |p| > MAX_PAYLOAD then r == Err(NotSealed(PayloadTooLarge(|p|))) && log == old(log) && broken == old(broken)
          else log == old(log) + [Sent(own, p)] && (old(broken) ==> broken) && r == if broken then Err(SocketFailed) else Ok(())
    {
      hide Encoded, Sealed, Sendable, PayloadsIn, Frames;
      var headerBytes := Codec.EncodeToVec(header);
      var messageBytes := Codec.EncodeToVec(message);
      if |headerBytes| > 255 { return Err(BadPayload(HeaderTooLong)); }
      var payload := [|headerBytes| as byte] + headerBytes + messageBytes;
      var frame := EncryptFrame(c, key, counter, payload);
      if frame.Err? { return Err(NotSealed(frame.error)); }
      OneMoreFrame(c, key, log, Sent(own, payload));
      counter, log := counter + 1, log + [Sent(own, payload)];
      r := WriteAll(frame.value);
    }

    /** Until it breaks, the socket takes everything. */
    method WriteAll(frame: bytes) returns (r: Result<(), SendError>)
      modifies this`wire, this`broken
      ensures old(broken) ==> broken && wire == old(wire)
      ensures if broken then wire <= old(wire) + frame else wire == old(wire) + frame
      ensures r == if broken then Err(SocketFailed) else Ok(())
    {
      if broken { return Err(SocketFailed); }
      if room.Some? && |wire| + |frame| > room.value {
        var taken := if |wire| <= room.value then room.value - |wire| else 0;
        wire, broken := wire + frame[..taken], true;
        return Err(SocketFailed);
      }
      wire := wire + frame;
      r := Ok(());
    }
  }

  lemma OneMoreFrame(c: Cipher, key: bytes, log: seq<Sent>, sent: Sent)
    requires Sendable(PayloadsIn(log)) && |sent.payload| <= MAX_PAYLOAD
    ensures var payloads := PayloadsIn(log + [sent]);
      && Sendable(payloads) && PayloadsIn(log) <= payloads
      && Frames(c, key, 0, payloads) == Frames(c, key, 0, PayloadsIn(log)) + Sealed(c, key, |log|, sent.payload)
  {
    hide Sendable, Sealed;
    OneRecord(HdsSeal(c, key), 0, PayloadsIn(log), sent.payload);
    SendableMore(PayloadsIn(log), sent.payload);
    assert PayloadsIn(log + [sent]) == PayloadsIn(log) + [sent.payload];
  }

  lemma SendableMore(payloads: seq<bytes>, p: bytes)
    requires Sendable(payloads) && |p| <= MAX_PAYLOAD
    ensures Sendable(payloads + [p])
  {
  }
}
