/**
  The encrypted HAP stream as it runs (hap/src/transport/tcp.rs:265-285, 340-439, 507-634), once its
  session secret is installed, over a socket that may stall, fail or take part of a write at any time.
 */
module HapTransport {
  import opened Wrappers
  import opened Bytes
  import opened Aead
  import opened Framed
  import opened HapRecords

  datatype IoError =
    | SocketFailed
    | WriteZero
    | UnexpectedEof
    | InvalidData(record: RecordError)

  datatype Poll<+T> = Pending | Ready(value: T)

  datatype WriteReply = WriteLater | WriteFails | Takes(n: nat)
  datatype ReadReply = ReadLater | ReadFails | Gives(data: bytes)

  /** What the socket has answered to one poll. */
  datatype WriteAnswer = WriteStalled | WriteBroke | Took(n: nat)
  datatype ReadAnswer = ReadStalled | ReadBroke | Gave(data: bytes)

  function WriteAnswerOf(replies: seq<WriteReply>, len: nat): WriteAnswer {
    if replies == [] || replies[0].WriteLater? then WriteStalled
    else if replies[0].WriteFails? then WriteBroke
    else Took(if replies[0].n <= len then replies[0].n else len)
  }

  function ReadAnswerOf(replies: seq<ReadReply>): ReadAnswer {
    if replies == [] || replies[0].ReadLater? then ReadStalled
    else if replies[0].ReadFails? then ReadBroke
    else Gave(replies[0].data)
  }

  function Rest<T>(s: seq<T>): seq<T> {
    if s == [] then [] else s[1..]
  }

  /** A socket that answers polls from an arbitrary script, and would block at its end. */
  class Socket {
    var writeReplies: seq<WriteReply>
    var readReplies: seq<ReadReply>
    var accepted: bytes   // every byte taken from the writer
    var received: bytes   // every byte given to the reader
    ghost var writeAnswers: seq<WriteAnswer>
    ghost var readAnswers: seq<ReadAnswer>

    ghost function Sofar(): Progress
      reads this`writeReplies, this`accepted, this`writeAnswers
    {
      Progress(writeReplies, |accepted|, writeAnswers)
    }

    constructor (writeReplies: seq<WriteReply>, readReplies: seq<ReadReply>)
      ensures this.writeReplies == writeReplies && this.readReplies == readReplies
      ensures accepted == [] && received == [] && writeAnswers == [] && readAnswers == []
    {
      this.writeReplies, this.readReplies := writeReplies, readReplies;
      accepted, received, writeAnswers, readAnswers := [], [], [], [];
    }

    method PollWrite(buf: bytes) returns (r: Poll<Result<nat, IoError>>)
      modifies this`writeReplies, this`accepted, this`writeAnswers
      ensures writeReplies == Rest(old(writeReplies))
      ensures writeAnswers == old(writeAnswers) + [WriteAnswerOf(old(writeReplies), |buf|)]
      ensures match WriteAnswerOf(old(writeReplies), |buf|)
        case WriteStalled => r == Pending && accepted == old(accepted)
        case WriteBroke => r == Ready(Err(SocketFailed)) && accepted == old(accepted)
        case Took(n) => r == Ready(Ok(n)) && accepted == old(accepted) + buf[..n]
    {
      writeAnswers := writeAnswers + [WriteAnswerOf(writeReplies, |buf|)];
      if writeReplies == [] { return Pending; }
      var reply := writeReplies[0];
      writeReplies := writeReplies[1..];
      match reply
      case WriteLater => r := Pending;
      case WriteFails => r := Ready(Err(SocketFailed));
      case Takes(n) =>
        var k := if n <= |buf| then n else |buf|;
        accepted := accepted + buf[..k];
        r := Ready(Ok(k));
    }

    method PollRead() returns (r: Poll<Result<bytes, IoError>>)
      modifies this`readReplies, this`received, this`readAnswers
      ensures readReplies == Rest(old(readReplies))
      ensures readAnswers == old(readAnswers) + [ReadAnswerOf(old(readReplies))]
      ensures match ReadAnswerOf(old(readReplies))
        case ReadStalled => r == Pending && received == old(received)
        case ReadBroke => r == Ready(Err(SocketFailed)) && received == old(received)
        case Gave(data) => r == Ready(Ok(data)) && received == old(received) + data && old(readReplies) != []
    {
      readAnswers := readAnswers + [ReadAnswerOf(readReplies)];
      if readReplies == [] { return Pending; }
      var reply := readReplies[0];
      readReplies := readReplies[1..];
      match reply
      case ReadLater => r := Pending;
      case ReadFails => r := Ready(Err(SocketFailed));
      case Gives(data) =>
        received := received + data;
        r := Ready(Ok(data));
    }
  }

  predicate Taken(a: WriteAnswer) {
    a.Took? && a.n > 0
  }

  ghost predicate AllTaken(answers: seq<WriteAnswer>) {
    forall a :: a in answers ==> Taken(a)
  }

  /** Since `before` every answer has taken something. */
  ghost predicate TakenSince(before: seq<WriteAnswer>, now: seq<WriteAnswer>) {
    before <= now && AllTaken(now[|before|..])
  }

  /** What a poll says after the answers since `before`: it goes on while bytes are taken, and the first other answer
      ends it, a stall as Pending and only a failure or nothing taken as an error. */
  ghost predicate Follows(before: seq<WriteAnswer>, now: seq<WriteAnswer>, r: Poll<Result<nat, IoError>>) {
    if r.Ready? && r.value.Ok? then TakenSince(before, now)
    else
      && |before| < |now| && TakenSince(before, now[..|now| - 1])
      && r == (match now[|now| - 1]
               case WriteStalled => Pending
               case WriteBroke => Ready(Err(SocketFailed))
               case Took(_) => Ready(Err(WriteZero)))
      && !Taken(now[|now| - 1])
  }

  lemma AnswerFollows(before: seq<WriteAnswer>, answers: seq<WriteAnswer>, a: WriteAnswer)
    requires TakenSince(before, answers)
    ensures var now := answers + [a];
      if Taken(a) then TakenSince(before, now)
      else Follows(before, now, match a
                                case WriteStalled => Pending
                                case WriteBroke => Ready(Err(SocketFailed))
                                case Took(_) => Ready(Err(WriteZero)))
  {
    var now := answers + [a];
    assert now[..|now| - 1] == answers;
    assert now[|before|..] == answers[|before|..] + [a];
  }

  /** A poll goes well exactly if every answer in it did. */
  lemma AllTakenFollows(before: seq<WriteAnswer>, now: seq<WriteAnswer>, n: nat)
    ensures Follows(before, now, Ready(Ok(n))) <==> TakenSince(before, now)
  {
  }

  lemma NothingAnswered(before: seq<WriteAnswer>)
    ensures TakenSince(before, before)
  {
  }

  /** An attempt at an item ends as its poll does; an empty item, which asks nothing of the socket, is an error. */
  ghost predicate Stops(before: seq<WriteAnswer>, now: seq<WriteAnswer>, item: bytes, stop: Option<Poll<Result<(), IoError>>>) {
    if item == [] then now == before && stop == Some(Ready(Err(WriteZero)))
    else
      match stop
      case None => TakenSince(before, now)
      case Some(Pending) => Follows(before, now, Pending)
      case Some(Ready(Err(e))) => Follows(before, now, Ready(Err(e)))
      case Some(Ready(Ok(_))) => false
  }

  /** How a poll of the queue ends: as its last attempt did, or with nothing left to attempt. */
  ghost predicate OutgoingStops(before: seq<WriteAnswer>, now: seq<WriteAnswer>, emptyItem: bool, current: Option<bytes>,
                                r: Poll<Result<(), IoError>>) {
    match r
    case Pending => if current.Some? then Follows(before, now, Pending) else TakenSince(before, now)
    case Ready(Ok(_)) => TakenSince(before, now)
    case Ready(Err(e)) =>
      Follows(before, now, Ready(Err(e))) || (emptyItem && e == WriteZero && TakenSince(before, now))
  }

  lemma StillTaken(before: seq<WriteAnswer>, between: seq<WriteAnswer>, now: seq<WriteAnswer>)
    requires TakenSince(before, between)
    ensures TakenSince(between, now) ==> TakenSince(before, now)
    ensures forall r :: Follows(between, now, r) ==> Follows(before, now, r)
  {
    if TakenSince(between, now) { TakenOn(before, between, now); }
    forall r | Follows(between, now, r) ensures Follows(before, now, r) {
      TakenOn(before, between, if r.Ready? && r.value.Ok? then now else now[..|now| - 1]);
    }
  }

  lemma TakenOn(before: seq<WriteAnswer>, between: seq<WriteAnswer>, now: seq<WriteAnswer>)
    requires TakenSince(before, between) && TakenSince(between, now)
    ensures TakenSince(before, now)
  {
    assert now[|before|..] == between[|before|..] + now[|between|..];
  }

  // --- Writing ---

  /** No failure, and no poll that takes nothing. */
  predicate Willing(replies: seq<WriteReply>) {
    forall reply :: reply in replies ==> !reply.WriteFails? && reply != Takes(0)
  }

  /** How many more polls will take something. */
  function TakesIn(replies: seq<WriteReply>): nat {
    if replies == [] then 0 else (if replies[0].Takes? then 1 else 0) + TakesIn(replies[1..])
  }

  /** The replies a socket has left, the bytes it has taken, and what it has answered. */
  datatype Progress = Progress(replies: seq<WriteReply>, taken: nat, answers: seq<WriteAnswer>)

  /** Asking uses up replies; a willing socket stays so, and what it will still take makes up for what it has not. */
  ghost predicate Keeps(p: Progress, q: Progress) {
    && |q.replies| <= |p.replies| && p.answers <= q.answers
    && (p.answers != q.answers && p.replies != [] ==> |q.replies| < |p.replies|)
    && (Willing(p.replies) ==>
          && Willing(q.replies) && TakesIn(p.replies) + p.taken <= TakesIn(q.replies) + q.taken
          && forall a :: a in q.answers[|p.answers|..] ==> a.WriteStalled? || Taken(a))
  }

  lemma NothingAsked(p: Progress)
    ensures Keeps(p, p)
  {
  }

  lemma KeepsTransitive(p: Progress, q: Progress, r: Progress)
    requires Keeps(p, q) && Keeps(q, r)
    ensures Keeps(p, r)
  {
    assert r.answers[|p.answers|..] == q.answers[|p.answers|..] + r.answers[|q.answers|..];
  }

  lemma OneReply(p: Progress, q: Progress, len: nat)
    requires Keeps(p, q) && len > 0
    ensures var a := WriteAnswerOf(q.replies, len);
      Keeps(p, Progress(Rest(q.replies), q.taken + if a.Took? then a.n else 0, q.answers + [a]))
  {
    var a := WriteAnswerOf(q.replies, len);
    assert (q.answers + [a])[|p.answers|..] == q.answers[|p.answers|..] + [a];
    if Willing(p.replies) && q.replies != [] {
      assert q.replies[0] in q.replies;
      assert forall reply :: reply in q.replies[1..] ==> reply in q.replies;
    }
  }

  /** Nobody is told of an error by a socket that has none. */
  lemma WillingNeverFails(p: Progress, q: Progress, r: Poll<Result<nat, IoError>>)
    requires Keeps(p, q) && Willing(p.replies) && Follows(p.answers, q.answers, r)
    ensures !(r.Ready? && r.value.Err?)
  {
    var n := |q.answers| - 1;
    if |p.answers| <= n { assert q.answers[n] == q.answers[|p.answers|..][n - |p.answers|]; }
  }

  lemma StaysWilling(p: Progress, q: Progress)
    requires Keeps(p, q) && Willing(p.replies)
    ensures Willing(q.replies) && TakesIn(p.replies) + p.taken <= TakesIn(q.replies) + q.taken
  {
  }

  /** And it stalls only where it uses up a reply. */
  lemma StallUsesReply(p: Progress, q: Progress)
    requires Keeps(p, q) && Follows(p.answers, q.answers, Pending) && p.replies != []
    ensures |q.replies| < |p.replies|
  {
  }

  class EncryptedWriter {
    const c: Cipher
    const key: bytes
    const socket: Socket
    var outgoing: seq<bytes>              // the queue of whole responses and events
    var closed: bool                      // nothing can be put on the queue any more
    var outgoingCurrent: Option<bytes>
    var encryptCount: nat
    var pendingEncryptedWrite: bytes
    var pendingPlaintextLen: nat
    ghost var submitted: seq<bytes>       // every item ever put on the queue
    ghost var sealed: seq<bytes>          // the items whose records have been made
    ghost var ended: bool                 // an error was returned

    /** The item that has been taken off the queue but not sealed yet. */
    ghost function Unsealed(): seq<bytes>
      reads this
    {
      if outgoingCurrent.Some? && pendingEncryptedWrite == [] then [outgoingCurrent.value] else []
    }

    /** What the socket took and what it still has to take are the records of the sealed items. */
    ghost predicate OnWire()
      reads this`pendingEncryptedWrite, this`encryptCount, this`sealed, socket`accepted
    {
      && socket.accepted + pendingEncryptedWrite == Wire(c, key, sealed)
      && encryptCount == |RecordChunks(sealed)|
    }

    /** Left-over records belong to `data`, which is still to be reported as written. */
    ghost predicate Retrying(data: bytes)
      reads this`pendingEncryptedWrite, this`pendingPlaintextLen, this`sealed
    {
      pendingEncryptedWrite != [] ==>
        sealed != [] && sealed[|sealed| - 1] == data && pendingPlaintextLen == |data|
    }

    ghost predicate Valid()
      reads this, socket
    {
      && OnWire()
      && (ended ==> sealed <= submitted)
      && (!ended ==>
            && submitted == sealed + Unsealed() + outgoing
            && (pendingEncryptedWrite != [] ==> outgoingCurrent.Some? && Retrying(outgoingCurrent.value)))
    }

    constructor (c: Cipher, key: bytes, socket: Socket)
      requires socket.accepted == []
      ensures Valid() && !ended && !closed && submitted == []
      ensures this.c == c && this.key == key && this.socket == socket
    {
      this.c, this.key, this.socket := c, key, socket;
      outgoing, closed, outgoingCurrent := [], false, None;
      encryptCount, pendingEncryptedWrite, pendingPlaintextLen := 0, [], 0;
      submitted, sealed, ended := [], [], false;
    }

    /** Another response or event arrives on the queue. */
    method Submit(item: bytes)
      requires Valid() && !ended && !closed
      modifies this`outgoing, this`submitted
      ensures Valid() && submitted == old(submitted) + [item]
    {
      Assoc(sealed + Unsealed(), outgoing, [item]);
      outgoing, submitted := outgoing + [item], submitted + [item];
    }

    /** The last sender is gone. */
    method Close()
      requires Valid()
      modifies this`closed
      ensures Valid() && closed
    {
      closed := true;
    }

    /** Seals the chunks of an item once, at the next counters, behind what is already pending. */
    method SealItem(data: bytes)
      requires OnWire() && pendingEncryptedWrite == []
      modifies this`pendingEncryptedWrite, this`encryptCount, this`sealed
      ensures OnWire() && sealed == old(sealed) + [data]
      ensures data != [] ==> pendingEncryptedWrite != []
    {
      hide Chunks, RecordChunks, SealedRecord;
      var chunks := Chunks(data, MAX_RECORD);
      var seal := HapSeal(c, key);
      ghost var first := encryptCount;
      for i := 0 to |chunks|
        invariant encryptCount == first + i && sealed == old(sealed)
        invariant pendingEncryptedWrite == Records(seal, first, chunks[..i])
        invariant i > 0 ==> pendingEncryptedWrite != []
      {
        OneRecord(seal, first, chunks[..i], chunks[i]);
        assert chunks[..i + 1] == chunks[..i] + [chunks[i]];
        RecordNotEmpty(c, key, encryptCount, chunks[i]);
        pendingEncryptedWrite := pendingEncryptedWrite + SealedRecord(c, key, encryptCount, chunks[i]);
        encryptCount := encryptCount + 1;
      }
      assert chunks[..|chunks|] == chunks;
      ChunksBounded(data, MAX_RECORD);
      WireAppend(c, key, sealed, [data]);
      OneItem(data);
      Unit(socket.accepted);
      sealed := sealed + [data];
    }

    /** `poll_write` of the encrypted stream. */
    method PollWrite(data: bytes) returns (r: Poll<Result<nat, IoError>>)
      requires OnWire() && Retrying(data)
      modifies this`pendingEncryptedWrite, this`pendingPlaintextLen, this`encryptCount, this`sealed,
               socket`writeReplies, socket`accepted, socket`writeAnswers
      ensures Follows(old(socket.writeAnswers), socket.writeAnswers, r)
      ensures Keeps(old(socket.Sofar()), socket.Sofar())
      ensures OnWire()
      ensures data == [] ==> r == Ready(Ok(0)) && sealed == old(sealed) && pendingEncryptedWrite == old(pendingEncryptedWrite)
      ensures data != [] ==>
        && sealed == (if old(pendingEncryptedWrite) == [] then old(sealed) + [data] else old(sealed))
        && (r.Pending? ==> pendingEncryptedWrite != [] && Retrying(data))
        && (r.Ready? && r.value.Ok? ==> pendingEncryptedWrite == [] && r.value.value == |data|)
      ensures data == [] ==> socket.writeAnswers == old(socket.writeAnswers)
    {
      hide Wire, RecordChunks, TakenSince, Keeps, Follows, Chunks;
      NothingAnswered(socket.writeAnswers);
      NothingAsked(socket.Sofar());
      if data == [] {
        AllTakenFollows(socket.writeAnswers, socket.writeAnswers, 0);
        return Ready(Ok(0));
      }
      if pendingEncryptedWrite == [] {
        pendingPlaintextLen := |data|;
        SealItem(data);
      }
      while pendingEncryptedWrite != []
        invariant OnWire() && Retrying(data) && pendingPlaintextLen == |data|
        invariant sealed == (if old(pendingEncryptedWrite) == [] then old(sealed) + [data] else old(sealed))
        invariant TakenSince(old(socket.writeAnswers), socket.writeAnswers)
        invariant Keeps(old(socket.Sofar()), socket.Sofar())
        decreases |pendingEncryptedWrite|
      {
        ghost var answers, sofar := socket.writeAnswers, socket.Sofar();
        ghost var taken := socket.accepted;
        var w := socket.PollWrite(pendingEncryptedWrite);
        AnswerFollows(old(socket.writeAnswers), answers, socket.writeAnswers[|answers|]);
        OneReply(old(socket.Sofar()), sofar, |pendingEncryptedWrite|);
        if w.Pending? { return Pending; }
        if w.value.Err? { return Ready(Err(w.value.error)); }
        var n := w.value.value;
        if n == 0 { return Ready(Err(WriteZero)); }
        Assoc(taken, pendingEncryptedWrite[..n], pendingEncryptedWrite[n..]);
        assert pendingEncryptedWrite[..n] + pendingEncryptedWrite[n..] == pendingEncryptedWrite;
        pendingEncryptedWrite := pendingEncryptedWrite[n..];
      }
      var written := pendingPlaintextLen;
      AllTakenFollows(old(socket.writeAnswers), socket.writeAnswers, written);
      pendingPlaintextLen := 0;
      r := Ready(Ok(written));
    }

    lemma CurrentIsSubmitted()
      requires Valid() && !ended && outgoingCurrent.Some?
      ensures outgoingCurrent.value in submitted
    {
      hide EncryptedWriter.OnWire;
      if pendingEncryptedWrite != [] { assert sealed[|sealed| - 1] in submitted; }
    }

    /** One attempt at the current item: Some ends the poll, None means it was written in full. */
    method WriteCurrent() returns (stop: Option<Poll<Result<(), IoError>>>)
      requires Valid() && !ended && outgoingCurrent.Some?
      modifies this, socket`writeReplies, socket`accepted, socket`writeAnswers
      ensures Valid() && submitted == old(submitted) && outgoing == old(outgoing) && closed == old(closed)
      ensures ended <==> stop.Some? && stop.value.Ready?
      ensures stop.Some? && stop.value.Ready? ==> stop.value.value.Err?
      ensures outgoingCurrent.Some? <==> stop == Some(Pending)
      ensures Stops(old(socket.writeAnswers), socket.writeAnswers, old(outgoingCurrent.value), stop)
      ensures Keeps(old(socket.Sofar()), socket.Sofar())
    {
      hide Wire, RecordChunks, EncryptedWriter.OnWire, TakenSince, Keeps, Follows;
      var data := outgoingCurrent.value;
      Unit(sealed);
      outgoingCurrent := None;
      var w := PollWrite(data);
      AllTakenFollows(old(socket.writeAnswers), socket.writeAnswers, |data|);
      if w.Pending? {
        outgoingCurrent := Some(data);
        Unit(sealed);
        return Some(Pending);
      }
      if w.value.Err? || w.value.value == 0 {
        ended := true;
        return Some(Ready(Err(if w.value.Err? then w.value.error else WriteZero)));
      }
      Unit(sealed);
      stop := None;
    }

    /** `poll_outgoing`: writes queue items until the socket stalls or the queue is empty; over once that is closed too,
        and then as often as it is polled again. */
    method PollOutgoing() returns (r: Poll<Result<(), IoError>>)
      requires Valid() && !ended
      modifies this, socket`writeReplies, socket`accepted, socket`writeAnswers
      ensures Valid() && submitted == old(submitted) && closed == old(closed)
      ensures ended <==> r.Ready? && r.value.Err?
      ensures (r.Pending? && outgoingCurrent.None?) || r == Ready(Ok(())) ==>
        && socket.accepted == Wire(c, key, submitted) && outgoing == [] && outgoingCurrent.None?
        && (closed <==> r.Ready?)
      ensures old(closed && outgoingCurrent.None? && outgoing == []) ==>
        r == Ready(Ok(())) && unchanged(this) && unchanged(socket)
      ensures OutgoingStops(old(socket.writeAnswers), socket.writeAnswers, [] in submitted, outgoingCurrent, r)
      ensures Keeps(old(socket.Sofar()), socket.Sofar())
    {
      hide Wire, RecordChunks, TakenSince, Keeps, Follows;
      NothingAnswered(socket.writeAnswers);
      NothingAsked(socket.Sofar());
      while true
        invariant Valid() && !ended && submitted == old(submitted) && closed == old(closed)
        invariant TakenSince(old(socket.writeAnswers), socket.writeAnswers)
        invariant Keeps(old(socket.Sofar()), socket.Sofar())
        invariant old(closed && outgoingCurrent.None? && outgoing == []) ==> unchanged(this) && unchanged(socket)
        decreases 2 * |outgoing| + if outgoingCurrent.Some? then 1 else 0
      {
        if outgoingCurrent.Some? {
          ghost var answers, sofar := socket.writeAnswers, socket.Sofar();
          CurrentIsSubmitted();
          var stop := WriteCurrent();
          StillTaken(old(socket.writeAnswers), answers, socket.writeAnswers);
          KeepsTransitive(old(socket.Sofar()), sofar, socket.Sofar());
          if stop.Some? { return stop.value; }
        } else if outgoing == [] {
          Unit(sealed);
          Unit(socket.accepted);
          return if closed then Ready(Ok(())) else Pending;
        } else {
          Unit(sealed);
          Assoc(sealed, [outgoing[0]], outgoing[1..]);
          assert [outgoing[0]] + outgoing[1..] == outgoing;
          outgoingCurrent, outgoing := Some(outgoing[0]), outgoing[1..];
        }
      }
    }

    /** The writer, polled again and again for as long as an item is waiting for the socket and that has replies left. */
    method PollUntilDone()
      requires Valid() && !ended && [] !in submitted && Willing(socket.writeReplies)
      modifies this, socket`writeReplies, socket`accepted, socket`writeAnswers
      ensures Valid() && !ended && submitted == old(submitted)
      ensures socket.accepted == Wire(c, key, submitted) || socket.writeReplies == []
      ensures TakesIn(old(socket.writeReplies)) + |old(socket.accepted)| >= |Wire(c, key, submitted)|
        ==> socket.accepted == Wire(c, key, submitted)
    {
      hide Wire, RecordChunks, TakenSince, Follows, Keeps, Willing, EncryptedWriter.Valid;
      ghost var start := socket.Sofar();
      NothingAsked(start);
      var waiting := true;
      while waiting && socket.writeReplies != []
        invariant Valid() && !ended && submitted == old(submitted)
        invariant Keeps(start, socket.Sofar()) && Willing(socket.writeReplies)
        invariant !waiting ==> socket.accepted == Wire(c, key, submitted)
        decreases waiting, |socket.writeReplies|
      {
        ghost var sofar := socket.Sofar();
        var r := PollOutgoing();
        KeepsTransitive(start, sofar, socket.Sofar());
        if r.Ready? && r.value.Err? { WillingNeverFails(sofar, socket.Sofar(), Ready(Err(r.value.error))); }
        if r.Pending? && outgoingCurrent.Some? { StallUsesReply(sofar, socket.Sofar()); }
        if r.Ready? && r.value.Ok? { assert r.value.value == (); }
        StaysWilling(start, socket.Sofar());
        waiting := r.Pending? && outgoingCurrent.Some?;
      }
      AcceptedIsPrefix(this);
      StaysWilling(start, socket.Sofar());
    }
  }

  lemma RecordNotEmpty(c: Cipher, key: bytes, counter: nat, chunk: bytes)
    ensures SealedRecord(c, key, counter, chunk) != []
  {
  }

  /**
    Whatever the schedule of stalls, failures and partial writes has been: the bytes the socket took are
    a prefix of the submitted items' records, sealed once each, in order, with counters 0, 1, 2, ...
   */
  lemma AcceptedIsPrefix(w: EncryptedWriter)
    requires w.Valid()
    ensures w.socket.accepted <= Wire(w.c, w.key, w.submitted)
  {
    hide Wire, RecordChunks, Records;
    assert w.sealed <= w.submitted by {
      if !w.ended { Assoc(w.sealed, w.Unsealed(), w.outgoing); }
    }
    var later := w.submitted[|w.sealed|..];
    assert w.sealed + later == w.submitted;
    WireAppend(w.c, w.key, w.sealed, later);
    Assoc(w.socket.accepted, w.pendingEncryptedWrite,
          Records(HapSeal(w.c, w.key), |RecordChunks(w.sealed)|, RecordChunks(later)));
  }

  // --- Reading ---

  /** Since `before` every answer has given something. */
  ghost predicate GivenSince(before: seq<ReadAnswer>, now: seq<ReadAnswer>) {
    before <= now && forall a :: a in now[|before|..] ==> a.Gave? && a.data != []
  }

  /** The first answer that gives nothing ends the poll: a stall as Pending, a failure as that, the end of the stream as
      an error only inside a record. Otherwise there are bytes for the caller, or a bad record. */
  ghost predicate ReadFollows(before: seq<ReadAnswer>, now: seq<ReadAnswer>, buffered: bytes, capacity: nat,
                              r: Poll<Result<bytes, IoError>>) {
    || (GivenSince(before, now) && r.Ready? && match r.value
        case Ok(data) => capacity > 0 ==> data != []
        case Err(e) => e.InvalidData?)
    || (|before| < |now| && GivenSince(before, now[..|now| - 1])
        && r == (match now[|now| - 1]
                 case ReadStalled => Pending
                 case ReadBroke => Ready(Err(SocketFailed))
                 case Gave(_) => if buffered == [] then Ready(Ok([])) else Ready(Err(UnexpectedEof)))
        && (now[|now| - 1].Gave? ==> now[|now| - 1].data == []))
  }

  lemma ReadAnswerFollows(before: seq<ReadAnswer>, answers: seq<ReadAnswer>, a: ReadAnswer, buffered: bytes, capacity: nat)
    requires GivenSince(before, answers)
    ensures var now := answers + [a];
      if a.Gave? && a.data != [] then GivenSince(before, now)
      else ReadFollows(before, now, buffered, capacity,
                       match a
                       case ReadStalled => Pending
                       case ReadBroke => Ready(Err(SocketFailed))
                       case Gave(_) => if buffered == [] then Ready(Ok([])) else Ready(Err(UnexpectedEof)))
  {
    var now := answers + [a];
    assert now[..|now| - 1] == answers;
    assert now[|before|..] == answers[|before|..] + [a];
  }

  lemma NothingGiven(before: seq<ReadAnswer>)
    ensures GivenSince(before, before)
  {
  }

  class EncryptedReader {
    const c: Cipher
    const key: bytes
    const socket: Socket
    var decryptCount: nat
    var encryptedBuf: bytes
    var decryptedBuf: bytes
    ghost var unwrapped: seq<bytes>     // the payloads of the records opened so far
    ghost var delivered: bytes       // every byte given to a caller
    ghost var ended: bool

    /** Opening the rest of the buffer continues opening everything received. */
    ghost predicate InStep()
      reads this, socket
    {
      var f := HapFraming(c, key);
      Agree(Drain(f, decryptCount, encryptedBuf).After(unwrapped), Drain(f, 0, socket.received))
    }

    ghost predicate Valid()
      reads this, socket
    {
      && delivered + decryptedBuf == Flatten(unwrapped)
      && (!ended ==> InStep())
      && unwrapped <= Drain(HapFraming(c, key), 0, socket.received).payloads
    }

    constructor (c: Cipher, key: bytes, socket: Socket)
      requires socket.received == []
      ensures Valid() && !ended && delivered == []
      ensures this.c == c && this.key == key && this.socket == socket
    {
      this.c, this.key, this.socket := c, key, socket;
      decryptCount, encryptedBuf, decryptedBuf := 0, [], [];
      unwrapped, delivered, ended := [], [], false;
      new;
      Unit(Drain(HapFraming(c, key), 0, []).payloads);
    }

    /** `decrypt_buffered_record`: opens one record if it has arrived in full. */
    method DecryptBufferedRecord() returns (r: Result<bool, IoError>)
      requires Valid() && !ended && decryptedBuf == []
      modifies this
      ensures Valid() && (ended <==> r.Err?) && delivered == old(delivered)
      ensures r.Err? ==>
        r.error.InvalidData? && Drain(HapFraming(c, key), 0, socket.received).error == Some(r.error.record)
      ensures r == Ok(false) ==> RecordLen(encryptedBuf) == Ok(None) && decryptedBuf == []
      ensures r == Ok(true) ==> |encryptedBuf| < |old(encryptedBuf)|
    {
      hide Sound, Drain, RecordLen, OpenRecord, Flatten;
      ghost var f := HapFraming(c, key);
      DrainTurn(f, unwrapped, decryptCount, encryptedBuf);
      var len := RecordLen(encryptedBuf);
      if len.Err? {
        ended := true;
        return Err(InvalidData(len.error));
      }
      if len.value.None? { return Ok(false); }
      var n := len.value.value;
      var count := decryptCount;
      decryptCount := decryptCount + 1;
      var plain := OpenRecord(c, key, count, encryptedBuf[..n]);
      if plain.Err? {
        ended := true;
        return Err(InvalidData(plain.error));
      }
      encryptedBuf, decryptedBuf := encryptedBuf[n..], decryptedBuf + plain.value;
      FlattenOneMore(unwrapped, plain.value);
      Assoc(delivered, old(decryptedBuf), plain.value);
      unwrapped := unwrapped + [plain.value];
      assert unwrapped <= Drain(f, decryptCount, encryptedBuf).After(unwrapped).payloads;
      r := Ok(true);
    }

    /** `poll_read` into a caller's buffer with room for `capacity` bytes. */
    method PollRead(capacity: nat) returns (r: Poll<Result<bytes, IoError>>)
      requires Valid() && !ended
      modifies this, socket`readReplies, socket`received, socket`readAnswers
      ensures Valid() && old(socket.received) <= socket.received
      ensures ended <==> r.Ready? && r.value.Err?
      ensures ReadFollows(old(socket.readAnswers), socket.readAnswers, encryptedBuf, capacity, r)
      ensures r.Ready? && r.value.Ok? ==> |r.value.value| <= capacity && delivered == old(delivered) + r.value.value
      ensures !(r.Ready? && r.value.Ok?) ==> delivered == old(delivered)
      ensures r.Pending? ==> delivered == Flatten(Drain(HapFraming(c, key), 0, socket.received).payloads)
      ensures r.Ready? && r.value.Err? && r.value.error.InvalidData? ==>
        Drain(HapFraming(c, key), 0, socket.received).error == Some(r.value.error.record)
      ensures r.Ready? && r.value == Ok([]) && capacity > 0 ==>
        encryptedBuf == [] && delivered == Flatten(Drain(HapFraming(c, key), 0, socket.received).payloads)
    {
      hide Sound, Drain, RecordLen, OpenRecord, Flatten, GivenSince;
      ghost var f := HapFraming(c, key);
      NothingGiven(socket.readAnswers);
      while true
        invariant Valid() && !ended && delivered == old(delivered) && old(socket.received) <= socket.received
        invariant GivenSince(old(socket.readAnswers), socket.readAnswers)
        decreases |socket.readReplies|, |encryptedBuf|
      {
        if decryptedBuf != [] {
          var len := if capacity <= |decryptedBuf| then capacity else |decryptedBuf|;
          var out := decryptedBuf[..len];
          Assoc(delivered, out, decryptedBuf[len..]);
          assert out + decryptedBuf[len..] == decryptedBuf;
          decryptedBuf, delivered := decryptedBuf[len..], delivered + out;
          return Ready(Ok(out));
        }
        var more := DecryptBufferedRecord();
        if more.Err? { return Ready(Err(more.error)); }
        if more.value { continue; }

        NothingToDrain(f, decryptCount, encryptedBuf);
        Unit(unwrapped);
        Unit(delivered);
        ghost var before, answers := socket.received, socket.readAnswers;
        var read := socket.PollRead();
        ReadAnswerFollows(old(socket.readAnswers), answers, socket.readAnswers[|answers|], encryptedBuf, capacity);
        if read.Pending? { return Pending; }
        if read.value.Err? { ended := true; return Ready(Err(SocketFailed)); }
        var data := read.value.value;
        StaysInStep(f, unwrapped, decryptCount, encryptedBuf, before, data);
        if data == [] {
          Unit(before);
          if encryptedBuf == [] { return Ready(Ok([])); }
          ended := true;
          return Ready(Err(UnexpectedEof));
        }
        encryptedBuf := encryptedBuf + data;
      }
    }
  }

  lemma FlattenOneMore(parts: seq<bytes>, p: bytes)
    ensures Flatten(parts + [p]) == Flatten(parts) + p
  {
    FlattenAppend(parts, [p]);
    assert [p][1..] == [];
    Unit(p);
  }

  /** Receiving more bytes keeps the reader in step with the whole stream. */
  lemma StaysInStep(f: Framing<RecordError>, unwrapped: seq<bytes>, n: nat, buf: bytes, received: bytes, data: bytes)
    requires Sound(f)
    requires Agree(Drain(f, n, buf).After(unwrapped), Drain(f, 0, received))
    ensures Agree(Drain(f, n, buf + data).After(unwrapped), Drain(f, 0, received + data))
    ensures unwrapped <= Drain(f, 0, received + data).payloads
  {
    hide Sound, Drain;
    DrainInTwo(f, n, buf, data);
    DrainInTwo(f, 0, received, data);
    var d := Drain(f, n, buf);
    AfterReadAgrees(f, d.After(unwrapped), Drain(f, 0, received), data);
    if d.error.None? {
      Assoc(unwrapped, d.payloads, Drain(f, d.counter, d.rest + data).payloads);
    }
  }

  /**
    A reader holding the writer's key, given any part of what the writer's socket took, cut up in any
    way, has delivered a prefix of the submitted bytes, met no bad record, and lost nothing it could open.
   */
  lemma ReaderGetsPrefix(w: EncryptedWriter, r: EncryptedReader)
    requires w.Valid() && r.Valid() && Lawful(w.c)
    requires r.c == w.c && r.key == w.key && r.socket.received <= w.socket.accepted
    ensures r.delivered <= Flatten(w.submitted)
    ensures var d := Drain(HapFraming(r.c, r.key), 0, r.socket.received);
      && d.error.None?
      && (r.socket.received == Wire(w.c, w.key, w.submitted) && r.delivered == Flatten(d.payloads)
          ==> r.delivered == Flatten(w.submitted))
  {
    hide Wire, Drain, Sound, RecordChunks, Flatten, Lawful;
    AcceptedIsPrefix(w);
    PrefixOpens(w.c, w.key, w.submitted, r.socket.received);
    PrefixFlattens(r.unwrapped, Drain(HapFraming(r.c, r.key), 0, r.socket.received).payloads);
  }
}
