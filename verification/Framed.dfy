/**
  The receive loop both encrypted transports share: find a record's boundary, open it, hand its payload
  on, repeat. What comes out depends on the bytes alone, not on how a socket cuts them up.
 */
module Framed {
  import opened Wrappers
  import opened Bytes

  /** Where the first record of a buffer ends, what the n-th record opens to, and whether its payload is refused. */
  datatype Framing<E> = Framing(
    boundary: bytes -> Result<Option<nat>, E>,
    open: (nat, bytes) -> Result<bytes, E>,
    refusal: (nat, bytes) -> Option<E>)

  /** Records are not empty, and more bytes at the end change neither a boundary nor an error. */
  ghost predicate Sound<E>(f: Framing<E>) {
    && (forall a :: f.boundary(a).Ok? && f.boundary(a).value.Some? ==> 0 < f.boundary(a).value.value <= |a|)
    && (forall a, b :: f.boundary(a) != Ok(None) ==> f.boundary(a + b) == f.boundary(a))
  }

  /** Where the loop stands: payloads handed over, next counter, bytes still buffered, and the error that ended it. */
  datatype Drained<E> = Drained(payloads: seq<bytes>, counter: nat, rest: bytes, error: Option<E>)
  {
    function After(before: seq<bytes>): Drained<E> {
      this.(payloads := before + payloads)
    }
  }

  /** Takes every complete record off the front of buf; a refused payload has been handed over, and is the last. */
  function Drain<E>(f: Framing<E>, counter: nat, buf: bytes): Drained<E>
    requires Sound(f)
    decreases |buf|
  {
    match f.boundary(buf)
    case Err(e) => Drained([], counter, buf, Some(e))
    case Ok(None) => Drained([], counter, buf, None)
    case Ok(Some(n)) =>
      match f.open(counter, buf[..n])
      case Err(e) => Drained([], counter, buf, Some(e))
      case Ok(p) =>
        var refusal := f.refusal(counter, p);
        if refusal.Some? then Drained([p], counter + 1, buf[n..], refusal)
        else Drain(f, counter + 1, buf[n..]).After([p])
  }

  /** The loop after one more read: nothing happens any more once it has failed. */
  function AfterRead<E>(f: Framing<E>, d: Drained<E>, data: bytes): Drained<E>
    requires Sound(f)
  {
    if d.error.Some? then d else Drain(f, d.counter, d.rest + data).After(d.payloads)
  }

  function AfterReads<E>(f: Framing<E>, d: Drained<E>, cuts: seq<bytes>): Drained<E>
    requires Sound(f)
    decreases |cuts|
  {
    if cuts == [] then d else AfterReads(f, AfterRead(f, d, cuts[0]), cuts[1..])
  }

  /** Same payloads, same counter, same verdict; same buffered bytes unless the loop has failed. */
  ghost predicate Agree<E>(d: Drained<E>, e: Drained<E>) {
    && d.payloads == e.payloads && d.counter == e.counter && d.error == e.error
    && (d.error.None? ==> d.rest == e.rest)
  }

  lemma BoundaryInside<E>(f: Framing<E>, a: bytes)
    requires Sound(f)
    ensures f.boundary(a).Ok? && f.boundary(a).value.Some? ==> 0 < f.boundary(a).value.value <= |a|
  {
  }

  lemma BoundaryStays<E>(f: Framing<E>, a: bytes, b: bytes)
    requires Sound(f)
    ensures f.boundary(a) != Ok(None) ==> f.boundary(a + b) == f.boundary(a)
  {
  }

  /** What one turn of the loop does, carried over to the payloads `done` before it. */
  lemma DrainTurn<E>(f: Framing<E>, done: seq<bytes>, counter: nat, buf: bytes)
    requires Sound(f)
    ensures var d, len := Drain(f, counter, buf).After(done), f.boundary(buf);
      if len.Err? then d == Drained(done, counter, buf, Some(len.error))
      else if len.value.None? then d == Drained(done, counter, buf, None)
      else
        var n := len.value.value;
        && 0 < n <= |buf|
        && (var p := f.open(counter, buf[..n]);
            if p.Err? then d == Drained(done, counter, buf, Some(p.error))
            else if f.refusal(counter, p.value).Some? then
              d == Drained(done + [p.value], counter + 1, buf[n..], f.refusal(counter, p.value))
            else d == Drain(f, counter + 1, buf[n..]).After(done + [p.value]))
  {
    hide Sound;
    BoundaryInside(f, buf);
    Unit(done);
    var len := f.boundary(buf);
    if len.Ok? && len.value.Some? {
      var p := f.open(counter, buf[..len.value.value]);
      if p.Ok? { Assoc(done, [p.value], Drain(f, counter + 1, buf[len.value.value..]).payloads); }
    }
  }

  /** One sealed record at the head of a stream. */
  lemma DrainStep<E>(f: Framing<E>, counter: nat, record: bytes, p: bytes, rest: bytes)
    requires Sound(f)
    requires f.boundary(record + rest) == Ok(Some(|record|)) && f.open(counter, record) == Ok(p)
    ensures var refusal := f.refusal(counter, p);
      Drain(f, counter, record + rest) ==
      if refusal.Some? then Drained([p], counter + 1, rest, refusal) else Drain(f, counter + 1, rest).After([p])
  {
    hide Sound;
    assert (record + rest)[..|record|] == record && (record + rest)[|record|..] == rest;
  }

  lemma NothingToDrain<E>(f: Framing<E>, counter: nat, buf: bytes)
    requires Sound(f) && f.boundary(buf) == Ok(None)
    ensures Drain(f, counter, buf) == Drained([], counter, buf, None)
  {
  }

  /** Draining a stream in two goes is draining it in one. */
  lemma {:induction false} DrainInTwo<E>(f: Framing<E>, counter: nat, a: bytes, b: bytes)
    requires Sound(f)
    ensures Agree(AfterRead(f, Drain(f, counter, a), b), Drain(f, counter, a + b))
    decreases |a|
  {
    hide Sound;
    BoundaryStays(f, a, b);
    BoundaryInside(f, a);
    var len := f.boundary(a);
    if len.Ok? && len.value.Some? {
      var n := len.value.value;
      assert (a + b)[..n] == a[..n];
      assert (a + b)[n..] == a[n..] + b;
      var first := f.open(counter, a[..n]);
      if first.Ok? && f.refusal(counter, first.value).None? {
        DrainInTwo(f, counter + 1, a[n..], b);
        var inner := Drain(f, counter + 1, a[n..]);
        if inner.error.None? {
          Assoc([first.value], inner.payloads, Drain(f, inner.counter, inner.rest + b).payloads);
        }
      }
    } else if len.Ok? {
      Unit(Drain(f, counter, a + b).payloads);
    }
  }

  lemma AfterReadAgrees<E>(f: Framing<E>, d: Drained<E>, e: Drained<E>, data: bytes)
    requires Sound(f) && Agree(d, e)
    ensures Agree(AfterRead(f, d, data), AfterRead(f, e, data))
  {
    hide Sound, Drain;
  }

  lemma AfterReadExtends<E>(f: Framing<E>, d: Drained<E>, data: bytes)
    requires Sound(f)
    ensures var e := AfterRead(f, d, data);
      d.payloads <= e.payloads && (d.error.Some? ==> e == d)
  {
    hide Drain, Sound;
  }

  /** However the bytes are cut into reads, the payloads handed over are those of the whole stream. */
  lemma {:induction false} CuttingDoesNotMatter<E>(f: Framing<E>, counter: nat, d: Drained<E>, sofar: bytes, cuts: seq<bytes>)
    requires Sound(f) && Agree(d, Drain(f, counter, sofar))
    ensures Agree(AfterReads(f, d, cuts), Drain(f, counter, sofar + Flatten(cuts)))
    decreases |cuts|
  {
    hide Drain, AfterRead, Sound;
    if cuts == [] {
      Unit(sofar);
    } else {
      DrainInTwo(f, counter, sofar, cuts[0]);
      AfterReadAgrees(f, d, Drain(f, counter, sofar), cuts[0]);
      CuttingDoesNotMatter(f, counter, AfterRead(f, d, cuts[0]), sofar + cuts[0], cuts[1..]);
      Assoc(sofar, cuts[0], Flatten(cuts[1..]));
    }
  }

  // --- Sealed streams ---

  /** The records of the payloads, sealed with consecutive counters. */
  function Records(seal: (nat, bytes) -> bytes, counter: nat, payloads: seq<bytes>): bytes
    decreases |payloads|
  {
    if payloads == [] then [] else seal(counter, payloads[0]) + Records(seal, counter + 1, payloads[1..])
  }

  /** Every payload, sealed, is found and opened again wherever it stands in a stream. */
  ghost predicate Opened<E>(f: Framing<E>, seal: (nat, bytes) -> bytes, payloads: seq<bytes>) {
    forall p, counter :: p in payloads ==> OpensAgain(f, seal, counter, p)
  }

  ghost predicate OpensAgain<E>(f: Framing<E>, seal: (nat, bytes) -> bytes, counter: nat, p: bytes) {
    && (forall tail :: f.boundary(seal(counter, p) + tail) == Ok(Some(|seal(counter, p)|)))
    && f.open(counter, seal(counter, p)) == Ok(p)
  }

  /** None of the payloads, as they come, is refused. */
  ghost predicate Welcome<E>(f: Framing<E>, counter: nat, payloads: seq<bytes>) {
    forall i :: 0 <= i < |payloads| ==> f.refusal(counter + i, payloads[i]).None?
  }

  lemma {:induction false} RecordsAppend(seal: (nat, bytes) -> bytes, counter: nat, a: seq<bytes>, b: seq<bytes>)
    ensures Records(seal, counter, a + b) == Records(seal, counter, a) + Records(seal, counter + |a|, b)
    decreases |a|
  {
    if a == [] {
      Unit(b);
      Unit(Records(seal, counter, b));
    } else {
      RecordsAppend(seal, counter + 1, a[1..], b);
      assert (a + b)[1..] == a[1..] + b;
      Assoc(seal(counter, a[0]), Records(seal, counter + 1, a[1..]), Records(seal, counter + |a|, b));
    }
  }

  lemma OneRecord(seal: (nat, bytes) -> bytes, counter: nat, payloads: seq<bytes>, p: bytes)
    ensures Records(seal, counter, payloads + [p])
         == Records(seal, counter, payloads) + seal(counter + |payloads|, p)
  {
    RecordsAppend(seal, counter, payloads, [p]);
    assert [p][1..] == [];
    Unit(seal(counter + |payloads|, p));
  }

  lemma WelcomeRest<E>(f: Framing<E>, counter: nat, payloads: seq<bytes>)
    requires payloads != [] && Welcome(f, counter, payloads)
    ensures f.refusal(counter, payloads[0]).None? && Welcome(f, counter + 1, payloads[1..])
  {
    assert f.refusal(counter + 0, payloads[0]).None?;
    forall i | 0 <= i < |payloads| - 1 ensures f.refusal(counter + 1 + i, payloads[1..][i]).None? {
      assert f.refusal(counter + (i + 1), payloads[i + 1]).None?;
    }
  }

  /** A sealed stream drains to its payloads, and then the loop carries on with what follows. */
  lemma {:induction false} RecordsDrain<E>(f: Framing<E>, seal: (nat, bytes) -> bytes, counter: nat, payloads: seq<bytes>, tail: bytes)
    requires Sound(f) && Opened(f, seal, payloads) && Welcome(f, counter, payloads)
    ensures Drain(f, counter, Records(seal, counter, payloads) + tail)
         == Drain(f, counter + |payloads|, tail).After(payloads)
    decreases |payloads|
  {
    hide Drain, Sound;
    if payloads == [] {
      Unit(tail);
      Unit(Drain(f, counter, tail).payloads);
    } else {
      var p := payloads[0];
      var more := Records(seal, counter + 1, payloads[1..]);
      assert OpensAgain(f, seal, counter, p);
      Assoc(seal(counter, p), more, tail);
      DrainStep(f, counter, seal(counter, p), p, more + tail);
      WelcomeRest(f, counter, payloads);
      RecordsDrain(f, seal, counter + 1, payloads[1..], tail);
      Assoc([p], payloads[1..], Drain(f, counter + |payloads|, tail).payloads);
      assert [p] + payloads[1..] == payloads;
    }
  }

  /** A stream with a refused payload drains to the payloads up to that one, whatever comes after it. */
  lemma RefusedDrains<E>(f: Framing<E>, seal: (nat, bytes) -> bytes, counter: nat, payloads: seq<bytes>, k: nat, tail: bytes)
    requires Sound(f) && Opened(f, seal, payloads) && k < |payloads| && Welcome(f, counter, payloads[..k])
    requires f.refusal(counter + k, payloads[k]).Some?
    ensures var d := Drain(f, counter, Records(seal, counter, payloads) + tail);
      && d.payloads == payloads[..k + 1] && d.counter == counter + k + 1
      && d.error == f.refusal(counter + k, payloads[k])
  {
    hide Drain, Sound;
    var p, more := payloads[k], Records(seal, counter + k + 1, payloads[k + 1..]);
    assert payloads == payloads[..k] + payloads[k..];
    RecordsAppend(seal, counter, payloads[..k], payloads[k..]);
    assert payloads[k..][1..] == payloads[k + 1..];
    assert OpensAgain(f, seal, counter + k, p);
    assert Opened(f, seal, payloads[..k]);
    hide Opened, Welcome;
    Assoc(Records(seal, counter, payloads[..k]), seal(counter + k, p) + more, tail);
    Assoc(seal(counter + k, p), more, tail);
    hide Records;
    RecordsDrain(f, seal, counter, payloads[..k], seal(counter + k, p) + (more + tail));
    DrainStep(f, counter + k, seal(counter + k, p), p, more + tail);
    assert payloads[..k] + [p] == payloads[..k + 1];
  }

  lemma WholeDrains<E>(f: Framing<E>, seal: (nat, bytes) -> bytes, counter: nat, payloads: seq<bytes>)
    requires Sound(f) && Opened(f, seal, payloads) && Welcome(f, counter, payloads) && f.boundary([]) == Ok(None)
    ensures Drain(f, counter, Records(seal, counter, payloads)) == Drained(payloads, counter + |payloads|, [], None)
  {
    hide Drain, Records, Sound, Opened;
    RecordsDrain(f, seal, counter, payloads, []);
    NothingToDrain(f, counter + |payloads|, []);
    Unit(Records(seal, counter, payloads));
    Unit(payloads);
  }

  /** Every prefix of a sealed stream drains to a prefix of its payloads, without an error. */
  lemma PrefixDrains<E>(f: Framing<E>, seal: (nat, bytes) -> bytes, counter: nat, payloads: seq<bytes>, a: bytes, b: bytes)
    requires Sound(f) && Opened(f, seal, payloads) && Welcome(f, counter, payloads) && f.boundary([]) == Ok(None)
    requires a + b == Records(seal, counter, payloads)
    ensures var d := Drain(f, counter, a); d.error.None? && d.payloads <= payloads
  {
    hide Drain, AfterRead, Records, Sound, Opened;
    WholeDrains(f, seal, counter, payloads);
    DrainInTwo(f, counter, a, b);
    AfterReadExtends(f, Drain(f, counter, a), b);
  }
}
