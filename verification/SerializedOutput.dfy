/**
  Serialising responses and events onto the outgoing queue (hap/src/transport/tcp.rs:31-123, 215-257):
  HTTP bytes arrive piecemeal, events arrive at any time, and no event may split a response.
 */
module SerializedOutput {
  import opened Wrappers
  import opened Bytes

  /** A queue item: a whole response, or an event. */
  datatype Item = Response(bytes: bytes) | Event(bytes: bytes)

  datatype OutputError = BrokenPipe

  class Output {
    var httpResponse: bytes
    var deferredEvents: seq<bytes>
    var queue: seq<Item>      // what the receiving end will see, in order
    var open: bool            // the receiving end still exists

    constructor ()
      ensures Valid() && State() == Progress([], [], []) && open
    {
      httpResponse, deferredEvents, queue, open := [], [], [], true;
    }

    ghost function State(): Progress
      reads this
    {
      Progress(httpResponse, deferredEvents, queue)
    }

    /** While the receiving end exists, events wait only behind a response. */
    ghost predicate Valid()
      reads this
    {
      open && httpResponse == [] ==> deferredEvents == []
    }

    method AppendHttp(more: bytes)
      requires Valid()
      modifies this`httpResponse
      ensures Valid() && State() == Step(old(State()), Append(more))
    {
      httpResponse := httpResponse + more;
    }

    method SendEvent(event: bytes) returns (r: Result<(), OutputError>)
      requires Valid()
      modifies this
      ensures Valid() && open == old(open)
      ensures open ==> r == Ok(()) && State() == Step(old(State()), Submit(event))
      ensures !open ==> queue == old(queue) && (r.Err? <==> old(httpResponse) == [])
    {
      if httpResponse == [] {
        if !open { return Err(BrokenPipe); }
        queue := queue + [Event(event)];
      } else {
        deferredEvents := deferredEvents + [event];
      }
      r := Ok(());
    }

    method FlushHttp() returns (r: Result<(), OutputError>)
      requires Valid()
      modifies this
      ensures Valid() && open == old(open)
      ensures open ==> r == Ok(()) && State() == Flushed(old(State()))
      ensures !open ==> queue == old(queue) && httpResponse == []
                        && (r.Err? <==> old(httpResponse) != [] || old(deferredEvents) != [])
    {
      if httpResponse != [] {
        var response := httpResponse;
        httpResponse := [];
        if !open { return Err(BrokenPipe); }
        queue := queue + [Response(response)];
      }
      ghost var before, events := queue, deferredEvents;
      Unit(before);
      while deferredEvents != []
        invariant open == old(open) && httpResponse == []
        invariant queue + AsEvents(deferredEvents) == before + AsEvents(events)
        invariant !open ==> queue == old(queue) && deferredEvents == events == old(deferredEvents) && old(httpResponse) == []
        decreases |deferredEvents|
      {
        var event := deferredEvents[0];
        deferredEvents := deferredEvents[1..];
        if !open { return Err(BrokenPipe); }
        Assoc(queue, [Event(event)], AsEvents(deferredEvents));
        queue := queue + [Event(event)];
      }
      Unit(queue);
      r := Ok(());
    }
  }

  // --- The serialiser as a state machine ---

  datatype Progress = Progress(response: bytes, deferred: seq<bytes>, queue: seq<Item>)

  /** What happens between two flushes. */
  datatype Action = Append(more: bytes) | Submit(event: bytes)

  function AsEvents(events: seq<bytes>): seq<Item> {
    if events == [] then [] else [Event(events[0])] + AsEvents(events[1..])
  }

  function Step(p: Progress, a: Action): Progress {
    match a
    case Append(more) => p.(response := p.response + more)
    case Submit(event) =>
      if p.response == [] then p.(queue := p.queue + [Event(event)])
      else p.(deferred := p.deferred + [event])
  }

  function Flushed(p: Progress): Progress {
    Progress([], [], p.queue + AsResponse(p.response) + AsEvents(p.deferred))
  }

  function AsResponse(response: bytes): seq<Item> {
    if response == [] then [] else [Response(response)]
  }

  function RunActions(p: Progress, actions: seq<Action>): Progress
    decreases |actions|
  {
    if actions == [] then p else RunActions(Step(p, actions[0]), actions[1..])
  }

  /** Whole runs: rounds of actions, each ended by a flush, and then some more actions. */
  function RunRounds(p: Progress, rounds: seq<seq<Action>>): Progress
    decreases |rounds|
  {
    if rounds == [] then p else RunRounds(Flushed(RunActions(p, rounds[0])), rounds[1..])
  }

  // --- What must come out ---

  /** All the bytes appended in a round. */
  function Appended(actions: seq<Action>): bytes {
    if actions == [] then []
    else (if actions[0].Append? then actions[0].more else []) + Appended(actions[1..])
  }

  function Submitted(actions: seq<Action>): seq<bytes> {
    if actions == [] then []
    else (if actions[0].Submit? then [actions[0].event] else []) + Submitted(actions[1..])
  }

  /** The actions before the first that appends something. */
  function Lead(actions: seq<Action>): (n: nat)
    ensures n <= |actions|
  {
    if actions == [] || (actions[0].Append? && actions[0].more != []) then 0
    else 1 + Lead(actions[1..])
  }

  /** A round on the wire: the events before its response, its response in one piece, the events after. */
  function RoundItems(actions: seq<Action>): seq<Item> {
    AsEvents(Submitted(actions[..Lead(actions)]))
    + AsResponse(Appended(actions))
    + AsEvents(Submitted(actions[Lead(actions)..]))
  }

  function AllRoundItems(rounds: seq<seq<Action>>): seq<Item> {
    if rounds == [] then [] else RoundItems(rounds[0]) + AllRoundItems(rounds[1..])
  }

  lemma {:induction false} AsEventsAppend(a: seq<bytes>, b: seq<bytes>)
    ensures AsEvents(a + b) == AsEvents(a) + AsEvents(b)
  {
    if a == [] {
      Unit(b);
      Unit(AsEvents(b));
    } else {
      AsEventsAppend(a[1..], b);
      assert (a + b)[1..] == a[1..] + b;
      Assoc([Event(a[0])], AsEvents(a[1..]), AsEvents(b));
    }
  }

  /** Once a response has begun, everything else waits behind it. */
  lemma {:induction false} ActionsBehindResponse(p: Progress, actions: seq<Action>)
    requires p.response != []
    ensures RunActions(p, actions)
         == Progress(p.response + Appended(actions), p.deferred + Submitted(actions), p.queue)
    decreases |actions|
  {
    if actions == [] {
      Unit(p.response);
      Unit(p.deferred);
    } else {
      var q := Step(p, actions[0]);
      ActionsBehindResponse(q, actions[1..]);
      var a := actions[0];
      Assoc(p.response, if a.Append? then a.more else [], Appended(actions[1..]));
      Assoc(p.deferred, if a.Submit? then [a.event] else [], Submitted(actions[1..]));
      Unit(p.response);
      Unit(p.deferred);
    }
  }

  lemma {:induction false} ActionsRun(queue: seq<Item>, actions: seq<Action>)
    ensures var n := Lead(actions);
      RunActions(Progress([], [], queue), actions)
      == Progress(Appended(actions), Submitted(actions[n..]), queue + AsEvents(Submitted(actions[..n])))
    decreases |actions|
  {
    if actions == [] {
      Unit(queue);
    } else {
      var a, more := actions[0], actions[1..];
      var n := Lead(actions);
      if n == 0 {
        Unit(queue);
        ActionsBehindResponse(Progress(a.more, [], queue), more);
        Unit(Submitted(more));
        assert actions[0..] == actions && [] + a.more == a.more && [] + Submitted(more) == Submitted(more);
        assert actions[..0] == [];
      } else {
        assert actions[n..] == more[n - 1..];
        assert actions[..n][1..] == more[..n - 1];
        if a.Append? {
          assert Step(Progress([], [], queue), a) == Progress([], [], queue);
          ActionsRun(queue, more);
          Unit(Appended(more));
          Unit(Submitted(more[..n - 1]));
        } else {
          ActionsRun(queue + [Event(a.event)], more);
          AsEventsAppend([a.event], Submitted(more[..n - 1]));
          assert [a.event][1..] == [];
          Unit([Event(a.event)]);
          Assoc(queue, [Event(a.event)], AsEvents(Submitted(more[..n - 1])));
        }
      }
    }
  }

  lemma RoundRuns(queue: seq<Item>, actions: seq<Action>)
    ensures Flushed(RunActions(Progress([], [], queue), actions))
         == Progress([], [], queue + RoundItems(actions))
  {
    hide RunActions, Lead, Appended, Submitted, AsEvents;
    ActionsRun(queue, actions);
    var n := Lead(actions);
    var a := AsEvents(Submitted(actions[..n]));
    var b, c := AsResponse(Appended(actions)), AsEvents(Submitted(actions[n..]));
    Assoc(queue, a, b);
    Assoc(queue, a + b, c);
  }

  /**
    For every run: the queue holds each finished round in its place, a response never split, the events
    submitted before it in front of it and those submitted during it behind it; the current round's
    response and the events waiting for it are exactly what was appended and submitted since.
   */
  lemma {:induction false} RunsRender(queue: seq<Item>, rounds: seq<seq<Action>>, current: seq<Action>)
    ensures var p := RunActions(RunRounds(Progress([], [], queue), rounds), current);
      var n := Lead(current);
      && p.queue == queue + AllRoundItems(rounds) + AsEvents(Submitted(current[..n]))
      && p.response == Appended(current)
      && p.deferred == Submitted(current[n..])
    decreases |rounds|
  {
    hide RunActions, Lead, Appended, Submitted, AsEvents, RoundItems, Flushed;
    if rounds == [] {
      ActionsRun(queue, current);
      Unit(queue);
    } else {
      RoundRuns(queue, rounds[0]);
      RunsRender(queue + RoundItems(rounds[0]), rounds[1..], current);
      Assoc(queue, RoundItems(rounds[0]), AllRoundItems(rounds[1..]));
    }
  }

  // --- Nothing lost, nothing repeated, nothing out of order ---

  function EventsIn(items: seq<Item>): seq<bytes> {
    if items == [] then []
    else (if items[0].Event? then [items[0].bytes] else []) + EventsIn(items[1..])
  }

  function ResponseBytesIn(items: seq<Item>): bytes {
    if items == [] then []
    else (if items[0].Response? then items[0].bytes else []) + ResponseBytesIn(items[1..])
  }

  lemma {:induction false} ContentsAppend(a: seq<Item>, b: seq<Item>)
    ensures EventsIn(a + b) == EventsIn(a) + EventsIn(b)
    ensures ResponseBytesIn(a + b) == ResponseBytesIn(a) + ResponseBytesIn(b)
  {
    if a == [] {
      Unit(b);
      Unit(EventsIn(b));
      Unit(ResponseBytesIn(b));
    } else {
      ContentsAppend(a[1..], b);
      assert (a + b)[1..] == a[1..] + b;
      Assoc(if a[0].Event? then [a[0].bytes] else [], EventsIn(a[1..]), EventsIn(b));
      Assoc(if a[0].Response? then a[0].bytes else [], ResponseBytesIn(a[1..]), ResponseBytesIn(b));
    }
  }

  lemma {:induction false} EventsOnly(events: seq<bytes>)
    ensures EventsIn(AsEvents(events)) == events && ResponseBytesIn(AsEvents(events)) == []
  {
    if events != [] {
      EventsOnly(events[1..]);
      assert AsEvents(events)[1..] == AsEvents(events[1..]);
      assert [events[0]] + events[1..] == events;
    }
  }

  lemma ResponseOnly(response: bytes)
    ensures EventsIn(AsResponse(response)) == [] && ResponseBytesIn(AsResponse(response)) == response
  {
    if response != [] {
      assert [Response(response)][1..] == [];
      Unit(response);
    }
  }

  function Log(rounds: seq<seq<Action>>): seq<Action> {
    if rounds == [] then [] else rounds[0] + Log(rounds[1..])
  }

  lemma {:induction false} LogAppend(a: seq<Action>, b: seq<Action>)
    ensures Submitted(a + b) == Submitted(a) + Submitted(b)
    ensures Appended(a + b) == Appended(a) + Appended(b)
  {
    if a == [] {
      Unit(b);
      Unit(Submitted(b));
      Unit(Appended(b));
    } else {
      LogAppend(a[1..], b);
      assert (a + b)[1..] == a[1..] + b;
      Assoc(if a[0].Submit? then [a[0].event] else [], Submitted(a[1..]), Submitted(b));
      Assoc(if a[0].Append? then a[0].more else [], Appended(a[1..]), Appended(b));
    }
  }

  lemma RoundContents(actions: seq<Action>)
    ensures EventsIn(RoundItems(actions)) == Submitted(actions)
    ensures ResponseBytesIn(RoundItems(actions)) == Appended(actions)
  {
    hide EventsIn, ResponseBytesIn, AsEvents, AsResponse, Submitted, Appended, Lead;
    var n := Lead(actions);
    var a, b, c := AsEvents(Submitted(actions[..n])), AsResponse(Appended(actions)), AsEvents(Submitted(actions[n..]));
    ContentsAppend(a + b, c);
    ContentsAppend(a, b);
    EventsOnly(Submitted(actions[..n]));
    EventsOnly(Submitted(actions[n..]));
    ResponseOnly(Appended(actions));
    LogHalves(actions, n);
    Unit(Submitted(actions[..n]));
    Unit(Appended(actions));
  }

  lemma LogHalves(actions: seq<Action>, n: nat)
    requires n <= |actions|
    ensures Submitted(actions[..n]) + Submitted(actions[n..]) == Submitted(actions)
  {
    hide Submitted, Appended;
    LogAppend(actions[..n], actions[n..]);
    assert actions[..n] + actions[n..] == actions;
  }

  /** Over every run the queue's events, then the waiting ones, are all the events, in the order submitted;
      the responses' bytes, then the current one's, are all the bytes appended. */
  lemma {:induction false} NothingLost(rounds: seq<seq<Action>>)
    ensures EventsIn(AllRoundItems(rounds)) == Submitted(Log(rounds))
    ensures ResponseBytesIn(AllRoundItems(rounds)) == Appended(Log(rounds))
  {
    hide RoundItems;
    if rounds != [] {
      NothingLost(rounds[1..]);
      RoundContents(rounds[0]);
      ContentsAppend(RoundItems(rounds[0]), AllRoundItems(rounds[1..]));
      LogAppend(rounds[0], Log(rounds[1..]));
    }
  }

  lemma RunLosesNothing(rounds: seq<seq<Action>>, current: seq<Action>)
    ensures var p := RunActions(RunRounds(Progress([], [], []), rounds), current);
      && EventsIn(p.queue) + p.deferred == Submitted(Log(rounds) + current)
      && ResponseBytesIn(p.queue) + p.response == Appended(Log(rounds) + current)
      && (p.response == [] ==> p.deferred == [])
  {
    hide RunActions, RunRounds, AllRoundItems, EventsIn, ResponseBytesIn, AsEvents, Submitted, Appended, Lead, Log;
    var n := Lead(current);
    var early := Submitted(current[..n]);
    RunsRender([], rounds, current);
    NothingLost(rounds);
    Unit(AllRoundItems(rounds));
    ContentsAppend(AllRoundItems(rounds), AsEvents(early));
    EventsOnly(early);
    LogAppend(Log(rounds), current);
    LogAppend(current[..n], current[n..]);
    assert current[..n] + current[n..] == current;
    Assoc(EventsIn(AllRoundItems(rounds)), early, Submitted(current[n..]));
    Unit(ResponseBytesIn(AllRoundItems(rounds)));
    NothingDeferredWithoutResponse(current);
  }

  lemma {:induction false} NothingDeferredWithoutResponse(actions: seq<Action>)
    ensures Appended(actions) == [] ==> Submitted(actions[Lead(actions)..]) == []
  {
    if actions != [] {
      NothingDeferredWithoutResponse(actions[1..]);
      if Lead(actions) > 0 {
        assert actions[Lead(actions)..] == actions[1..][Lead(actions[1..])..];
      } else {
        assert Appended(actions) != [];
      }
    }
  }
}
