/**
  Responses and events from the serialiser to the controller (hap/src/transport/tcp.rs:63-111, 340-439, 507-629): the
  serialiser's queue is what the encrypted writer takes its items from.
 */
module HapSession {
  import opened Bytes
  import opened Aead
  import opened Framed
  import opened HapRecords
  import opened HapTransport
  import S = SerializedOutput

  function BytesOf(items: seq<S.Item>): (r: seq<bytes>)
    ensures |r| == |items| && forall i :: 0 <= i < |r| ==> r[i] == items[i].bytes
  {
    seq(|items|, i requires 0 <= i < |items| => items[i].bytes)
  }

  /** A round on the wire: the events before its response, its response from the first byte to the last, the events after. */
  function RoundBytes(actions: seq<S.Action>): bytes {
    var n := S.Lead(actions);
    Flatten(S.Submitted(actions[..n])) + S.Appended(actions) + Flatten(S.Submitted(actions[n..]))
  }

  function AllRoundBytes(rounds: seq<seq<S.Action>>): bytes {
    if rounds == [] then [] else RoundBytes(rounds[0]) + AllRoundBytes(rounds[1..])
  }

  lemma BytesAppend(a: seq<S.Item>, b: seq<S.Item>)
    ensures Flatten(BytesOf(a + b)) == Flatten(BytesOf(a)) + Flatten(BytesOf(b))
  {
    assert BytesOf(a + b) == BytesOf(a) + BytesOf(b);
    FlattenAppend(BytesOf(a), BytesOf(b));
  }

  lemma {:induction false} EventBytes(events: seq<bytes>)
    ensures BytesOf(S.AsEvents(events)) == events
  {
    if events != [] {
      EventBytes(events[1..]);
      assert S.AsEvents(events) == [S.Event(events[0])] + S.AsEvents(events[1..]);
      assert BytesOf(S.AsEvents(events)) == [events[0]] + BytesOf(S.AsEvents(events[1..]));
    }
  }

  lemma ResponseBytes(response: bytes)
    ensures Flatten(BytesOf(S.AsResponse(response))) == response
  {
    if response != [] {
      assert BytesOf([S.Response(response)]) == [response];
      assert [response][1..] == [];
      Unit(response);
    }
  }

  lemma RoundIsWhole(actions: seq<S.Action>)
    ensures Flatten(BytesOf(S.RoundItems(actions))) == RoundBytes(actions)
  {
    hide S.AsEvents, S.AsResponse, S.Appended, S.Submitted, S.Lead, Flatten;
    var n := S.Lead(actions);
    var a, b := S.AsEvents(S.Submitted(actions[..n])), S.AsResponse(S.Appended(actions));
    var c := S.AsEvents(S.Submitted(actions[n..]));
    BytesAppend(a + b, c);
    BytesAppend(a, b);
    EventBytes(S.Submitted(actions[..n]));
    ResponseBytes(S.Appended(actions));
    EventBytes(S.Submitted(actions[n..]));
  }

  lemma {:induction false} RoundsAreWhole(rounds: seq<seq<S.Action>>)
    ensures Flatten(BytesOf(S.AllRoundItems(rounds))) == AllRoundBytes(rounds)
  {
    hide S.RoundItems, RoundBytes, Flatten;
    if rounds == [] {
      assert BytesOf([]) == [];
      NothingFlat();
    } else {
      RoundsAreWhole(rounds[1..]);
      RoundIsWhole(rounds[0]);
      BytesAppend(S.RoundItems(rounds[0]), S.AllRoundItems(rounds[1..]));
    }
  }

  lemma NothingFlat()
    ensures Flatten([]) == []
  {
  }

  /** What a run of the serialiser has put on its queue. */
  function Queued(rounds: seq<seq<S.Action>>, current: seq<S.Action>): seq<S.Item> {
    S.RunActions(S.RunRounds(S.Progress([], [], []), rounds), current).queue
  }

  lemma QueuedBytes(rounds: seq<seq<S.Action>>, current: seq<S.Action>)
    ensures Flatten(BytesOf(Queued(rounds, current)))
         == AllRoundBytes(rounds) + Flatten(S.Submitted(current[..S.Lead(current)]))
  {
    hide S.RunActions, S.RunRounds, S.AllRoundItems, S.AsEvents, S.Submitted, S.Lead, S.Appended, Flatten, AllRoundBytes;
    var early := S.Submitted(current[..S.Lead(current)]);
    S.RunsRender([], rounds, current);
    Unit(S.AllRoundItems(rounds));
    BytesAppend(S.AllRoundItems(rounds), S.AsEvents(early));
    RoundsAreWhole(rounds);
    EventBytes(early);
  }

  /**
    Any run of the serialiser, any part of its queue handed to the writer, any schedule of the sockets on both sides:
    the controller has read a part, from the start, of the rounds one after the other, in which no event stands
    inside a response; and all of it once everything was handed over, sent and read.
   */
  lemma ControllerReadsWholeResponses(w: EncryptedWriter, r: EncryptedReader, rounds: seq<seq<S.Action>>, current: seq<S.Action>)
    requires w.Valid() && r.Valid() && Lawful(w.c)
    requires r.c == w.c && r.key == w.key && r.socket.received <= w.socket.accepted
    requires w.submitted <= BytesOf(Queued(rounds, current))
    ensures var all := AllRoundBytes(rounds) + Flatten(S.Submitted(current[..S.Lead(current)]));
      && r.delivered <= all
      && (w.submitted == BytesOf(Queued(rounds, current)) && r.socket.received == Wire(w.c, w.key, w.submitted)
          && r.delivered == Flatten(Drain(HapFraming(r.c, r.key), 0, r.socket.received).payloads)
          ==> r.delivered == all)
  {
    hide Lawful, Queued, AllRoundBytes, Wire, Drain, HapFraming, S.Submitted, S.Lead, Flatten;
    ReaderGetsPrefix(w, r);
    QueuedBytes(rounds, current);
    PrefixFlattens(w.submitted, BytesOf(Queued(rounds, current)));
  }
}
