/**
  Read, write and read again, with retries (src/amcrest.rs:541-657), against a camera that may answer anything.
 */
module SettingsRetry {
  import opened Wrappers
  import opened Bytes
  import opened Json
  import opened Settings
  import opened SettingsProperties

  const ATTEMPTS: nat := 3

  /** The camera's answers, in order; a request that finds none left fails. */
  datatype Reply = Table(table: Value) | Accepted | Failed

  /** `current`: the table read last, unless something was written since. */
  datatype Session = Session(replies: seq<Reply>, current: Option<Value>, tablesRead: seq<Value>, written: seq<Value>)

  function Answer(s: Session): Reply {
    if s.replies == [] then Failed else s.replies[0]
  }

  function Answered(s: Session): Session {
    if s.replies == [] then s else s.(replies := s.replies[1..])
  }

  function Read(s: Session, attempts: nat): (Option<Value>, Session)
    decreases attempts
  {
    if attempts == 0 then (None, s)
    else
      match Answer(s)
      case Table(t) => (Some(t), Answered(s).(current := Some(t), tablesRead := s.tablesRead + [t]))
      case _ => Read(Answered(s), attempts - 1)
  }

  function Write(s: Session, t: Value): (bool, Session) {
    (Answer(s).Accepted?, Answered(s).(current := None, written := s.written + [t]))
  }

  datatype Tried = Tried(ok: bool, total: nat, session: Session)

  function Max(a: nat, b: nat): nat {
    if a < b then b else a
  }

  /** One attempt: `total` is the largest number of updates so far. */
  function Try(real_: RealParser, name: bytes, desired: seq<Setting>, s: Session, total: nat): Tried {
    var (table, s1) := Read(s, ATTEMPTS);
    if table.None? then Tried(false, total, s1)
    else
      var updates := Updates(real_, name, table.value, desired);
      var most := Max(total, updates);
      if updates == 0 then Tried(true, most, s1)
      else
        var (accepted, s2) := Write(s1, Applied(real_, name, table.value, desired));
        if !accepted then Tried(false, most, s2)
        else
          var (verified, s3) := Read(s2, ATTEMPTS);
          Tried(verified.Some? && UnappliedKeys(real_, name, verified.value, desired) == [], most, s3)
  }

  function Retry(real_: RealParser, name: bytes, desired: seq<Setting>, s: Session, total: nat, attempts: nat)
    : (Option<nat>, Session)
    decreases attempts
  {
    if attempts == 0 then (None, s)
    else
      var t := Try(real_, name, desired, s, total);
      if t.ok then (Some(t.total), t.session)
      else Retry(real_, name, desired, t.session, t.total, attempts - 1)
  }

  class Client {
    var session: Session

    constructor (replies: seq<Reply>)
      ensures session == Session(replies, None, [], [])
    {
      session := Session(replies, None, [], []);
    }

    method RpcPost() returns (r: Reply)
      modifies this
      ensures r == Answer(old(session)) && session == Answered(old(session))
    {
      r := Answer(session);
      session := Answered(session);
    }

    method RpcGetConfig() returns (r: Option<Value>)
      modifies this
      ensures (r, session) == Read(old(session), ATTEMPTS)
    {
      var attempt := 1;
      while attempt <= ATTEMPTS
        invariant 1 <= attempt <= ATTEMPTS + 1
        invariant Read(old(session), ATTEMPTS) == Read(session, ATTEMPTS + 1 - attempt)
      {
        var reply := RpcPost();
        if reply.Table? {
          session := session.(current := Some(reply.table), tablesRead := session.tablesRead + [reply.table]);
          return Some(reply.table);
        }
        attempt := attempt + 1;
      }
      r := None;
    }

    method RpcSetConfig(table: Value) returns (ok: bool)
      modifies this
      ensures (ok, session) == Write(old(session), table)
    {
      var reply := RpcPost();
      session := session.(current := None, written := session.written + [table]);
      ok := reply.Accepted?;
    }

    method ApplySupportedSettings(real_: RealParser, name: bytes, desired: seq<Setting>) returns (r: Option<nat>)
      modifies this
      ensures (r, session) == Retry(real_, name, desired, old(session), 0, ATTEMPTS)
    {
      hide Read, Updates, Applied, UnappliedKeys;
      var total := 0;
      var attempt := 1;
      while attempt <= ATTEMPTS
        invariant 1 <= attempt <= ATTEMPTS + 1
        invariant Retry(real_, name, desired, old(session), 0, ATTEMPTS)
               == Retry(real_, name, desired, session, total, ATTEMPTS + 1 - attempt)
      {
        ghost var tried := Try(real_, name, desired, session, total);
        var ok := false;
        var read := RpcGetConfig();
        if read.Some? {
          var table, updates := ApplyRpcSettings(real_, name, read.value, desired);
          total := Max(total, updates);
          if updates == 0 {
            ok := true;
          } else {
            var accepted := RpcSetConfig(table);
            if accepted {
              var verified := RpcGetConfig();
              ok := verified.Some? && UnappliedKeys(real_, name, verified.value, desired) == [];
            }
          }
        }
        assert tried == Tried(ok, total, session);
        if ok { return Some(total); }
        attempt := attempt + 1;
      }
      r := None;
    }
  }

  // --- Whatever the camera answers ---

  lemma {:induction false} ReadsSoMany(s: Session, attempts: nat, k: nat)
    requires k <= attempts && k <= |s.replies| && forall j :: 0 <= j < k ==> !s.replies[j].Table?
    ensures Read(s, attempts) == Read(s.(replies := s.replies[k..]), attempts - k)
    decreases k
  {
    if k > 0 {
      var next := s.(replies := s.replies[1..]);
      ReadsSoMany(next, attempts - 1, k - 1);
      assert next.replies[k - 1..] == s.replies[k..];
    }
  }

  lemma {:induction false} NobodyAnswers(s: Session, attempts: nat)
    requires s.replies == []
    ensures Read(s, attempts) == (None, s)
    decreases attempts
  {
    if attempts > 0 { NobodyAnswers(s, attempts - 1); }
  }

  /** A read takes the first table among the next three replies, with no reply beyond it; without one it fails. */
  lemma ReadsUpToThree(s: Session, k: nat)
    requires k <= 3 && k <= |s.replies| && forall j :: 0 <= j < k ==> !s.replies[j].Table?
    ensures k < 3 && k < |s.replies| && s.replies[k].Table? ==>
      var t := s.replies[k].table;
      Read(s, ATTEMPTS) == (Some(t), Session(s.replies[k + 1..], Some(t), s.tablesRead + [t], s.written))
    ensures k == 3 || k == |s.replies| ==> Read(s, ATTEMPTS) == (None, s.(replies := s.replies[k..]))
  {
    ReadsSoMany(s, ATTEMPTS, k);
    if k < 3 && k < |s.replies| {
      assert s.replies[k..][1..] == s.replies[k + 1..];
    } else if k < 3 {
      NobodyAnswers(s.(replies := s.replies[k..]), ATTEMPTS - k);
    }
  }

  lemma {:induction false} ReadIsCurrent(s: Session, attempts: nat)
    ensures var (t, s1) := Read(s, attempts);
      && s1.written == s.written && s.tablesRead <= s1.tablesRead
      && (t.Some? ==> s1.current == t && t.value in s1.tablesRead)
    decreases attempts
  {
    if attempts > 0 && !Answer(s).Table? { ReadIsCurrent(Answered(s), attempts - 1); }
  }

  ghost predicate FromOneOf(real_: RealParser, name: bytes, desired: seq<Setting>, tables: seq<Value>, written: Value) {
    exists t :: t in tables && written == Applied(real_, name, t, desired)
  }

  ghost predicate AllApplied(real_: RealParser, name: bytes, desired: seq<Setting>, s: Session, from: nat) {
    forall i :: from <= i < |s.written| ==> FromOneOf(real_, name, desired, s.tablesRead, s.written[i])
  }

  /** One attempt writes at most once, and only what applying the settings makes of a table just read; it
      succeeds only if the table read last has everything. */
  lemma TryIsSafe(real_: RealParser, name: bytes, desired: seq<Setting>, s: Session, total: nat)
    ensures var t := Try(real_, name, desired, s, total);
      && s.tablesRead <= t.session.tablesRead
      && s.written <= t.session.written && |t.session.written| <= |s.written| + 1
      && AllApplied(real_, name, desired, t.session, |s.written|)
      && (var table := Read(s, 3).0;
          t.session.written == s.written + if table.Some? && Updates(real_, name, table.value, desired) > 0
                                           then [Applied(real_, name, table.value, desired)] else [])
      && (t.ok ==> t.session.current.Some? && UnappliedKeys(real_, name, t.session.current.value, desired) == [])
  {
    hide Read, Updates, Applied, UnappliedKeys, ApplyOne;
    ReadIsCurrent(s, ATTEMPTS);
    var (table, s1) := Read(s, ATTEMPTS);
    if table.Some? {
      if Updates(real_, name, table.value, desired) == 0 {
        NoUpdatesNoChange(real_, name, table.value, desired);
      } else {
        var (_, s2) := Write(s1, Applied(real_, name, table.value, desired));
        ReadIsCurrent(s2, ATTEMPTS);
        var (_, s3) := Read(s2, ATTEMPTS);
        assert table.value in s2.tablesRead;
        assert table.value in s3.tablesRead;
      }
    }
  }

  /** Success means that the camera last showed a table with nothing left to apply, and nothing has been
      written since; and no more was ever written than applying the settings to tables the camera had shown. */
  lemma {:induction false} SuccessIsVerified(real_: RealParser, name: bytes, desired: seq<Setting>, s: Session, total: nat, attempts: nat)
    ensures var (r, end) := Retry(real_, name, desired, s, total, attempts);
      && s.tablesRead <= end.tablesRead
      && s.written <= end.written && |end.written| <= |s.written| + attempts
      && AllApplied(real_, name, desired, end, |s.written|)
      && (r.Some? ==> end.current.Some? && UnappliedKeys(real_, name, end.current.value, desired) == [])
    decreases attempts
  {
    hide Try, UnappliedKeys, Applied, AllApplied;
    if attempts == 0 {
      NothingWritten(real_, name, desired, s);
    } else {
      var t := Try(real_, name, desired, s, total);
      TryIsSafe(real_, name, desired, s, total);
      if !t.ok {
        SuccessIsVerified(real_, name, desired, t.session, t.total, attempts - 1);
        var (_, end) := Retry(real_, name, desired, t.session, t.total, attempts - 1);
        StillApplied(real_, name, desired, t.session, end, |s.written|);
      }
    }
  }

  lemma NothingWritten(real_: RealParser, name: bytes, desired: seq<Setting>, s: Session)
    ensures AllApplied(real_, name, desired, s, |s.written|)
  {
  }

  lemma StillApplied(real_: RealParser, name: bytes, desired: seq<Setting>, s: Session, end: Session, from: nat)
    requires from <= |s.written| && s.written <= end.written && s.tablesRead <= end.tablesRead
    requires AllApplied(real_, name, desired, s, from) && AllApplied(real_, name, desired, end, |s.written|)
    ensures AllApplied(real_, name, desired, end, from)
  {
    hide Applied;
    forall i | from <= i < |end.written| ensures FromOneOf(real_, name, desired, end.tablesRead, end.written[i]) {
      if i < |s.written| {
        assert end.written[i] == s.written[i];
        assert FromOneOf(real_, name, desired, s.tablesRead, s.written[i]);
        var t :| t in s.tablesRead && s.written[i] == Applied(real_, name, t, desired);
        assert t in end.tablesRead;
      }
    }
  }

  // --- The number reported ---

  /** How many settings a table lacked, by the loop's count. */
  ghost predicate Lacked(real_: RealParser, name: bytes, desired: seq<Setting>, tables: seq<Value>, n: nat) {
    exists t :: t in tables && Updates(real_, name, t, desired) == n
  }

  lemma TryCounts(real_: RealParser, name: bytes, desired: seq<Setting>, s: Session, total: nat)
    ensures var t := Try(real_, name, desired, s, total);
      && total <= t.total
      && (t.total == total || Lacked(real_, name, desired, t.session.tablesRead, t.total))
  {
    hide Read, Updates, Applied, UnappliedKeys;
    ReadIsCurrent(s, ATTEMPTS);
    var (table, s1) := Read(s, ATTEMPTS);
    if table.Some? {
      assert table.value in s1.tablesRead;
      ReadIsCurrent(Write(s1, Applied(real_, name, table.value, desired)).1, ATTEMPTS);
    }
  }

  /** The number reported is what some table the camera had shown lacked, or none; later attempts never lower it. */
  lemma {:induction false} ReportIsReal(real_: RealParser, name: bytes, desired: seq<Setting>, s: Session, total: nat, attempts: nat)
    ensures var (r, end) := Retry(real_, name, desired, s, total, attempts);
      r.Some? ==> total <= r.value && (r.value == total || Lacked(real_, name, desired, end.tablesRead, r.value))
    decreases attempts
  {
    hide Try, Lacked;
    if attempts > 0 {
      var t := Try(real_, name, desired, s, total);
      TryCounts(real_, name, desired, s, total);
      if !t.ok {
        ReportIsReal(real_, name, desired, t.session, t.total, attempts - 1);
        SuccessIsVerified(real_, name, desired, t.session, t.total, attempts - 1);
        var (_, end) := Retry(real_, name, desired, t.session, t.total, attempts - 1);
        StillLacked(real_, name, desired, t.session.tablesRead, end.tablesRead, t.total);
      }
    }
  }

  lemma StillLacked(real_: RealParser, name: bytes, desired: seq<Setting>, tables: seq<Value>, more: seq<Value>, n: nat)
    requires tables <= more
    ensures Lacked(real_, name, desired, tables, n) ==> Lacked(real_, name, desired, more, n)
  {
    hide Updates;
    if Lacked(real_, name, desired, tables, n) {
      var t :| t in tables && Updates(real_, name, t, desired) == n;
      assert t in more;
    }
  }

  // --- And a camera that keeps what it accepts ---

  /** What a camera that stores `stored` has after one attempt: what it accepted, if it accepted anything. */
  ghost function StoredAfter(real_: RealParser, name: bytes, desired: seq<Setting>, stored: Value, s: Session): Value {
    var (table, s1) := Read(s, ATTEMPTS);
    if table.Some? && Updates(real_, name, table.value, desired) > 0 && Answer(s1).Accepted?
    then Applied(real_, name, table.value, desired)
    else stored
  }

  /** Any request of the attempt may fail, but a table shown is the table stored. */
  ghost predicate HonestTry(real_: RealParser, name: bytes, desired: seq<Setting>, stored: Value, s: Session) {
    var (table, s1) := Read(s, ATTEMPTS);
    table.Some? ==>
      && table.value == stored
      && (Updates(real_, name, stored, desired) > 0 && Answer(s1).Accepted? ==>
            var applied := Applied(real_, name, stored, desired);
            var verified := Read(Write(s1, applied).1, ATTEMPTS).0;
            verified.Some? ==> verified.value == applied)
  }

  /** So through all the attempts there will be. */
  ghost predicate Honest(real_: RealParser, name: bytes, desired: seq<Setting>, stored: Value, s: Session, attempts: nat)
    decreases attempts
  {
    attempts > 0 ==>
      && HonestTry(real_, name, desired, stored, s)
      && (var t := Try(real_, name, desired, s, 0);
          t.ok || Honest(real_, name, desired, StoredAfter(real_, name, desired, stored, s), t.session, attempts - 1))
  }

  /** Every request the attempt needs is answered, reads within three tries. */
  ghost predicate GetsThrough(real_: RealParser, name: bytes, desired: seq<Setting>, s: Session) {
    var (table, s1) := Read(s, ATTEMPTS);
    && table.Some?
    && (Updates(real_, name, table.value, desired) > 0 ==>
          Answer(s1).Accepted? && Read(Write(s1, Applied(real_, name, table.value, desired)).1, ATTEMPTS).0.Some?)
  }

  ghost predicate OneGetsThrough(real_: RealParser, name: bytes, desired: seq<Setting>, s: Session, attempts: nat)
    decreases attempts
  {
    attempts > 0 &&
    (GetsThrough(real_, name, desired, s)
     || OneGetsThrough(real_, name, desired, Try(real_, name, desired, s, 0).session, attempts - 1))
  }

  lemma TotalIsAside(real_: RealParser, name: bytes, desired: seq<Setting>, s: Session, total: nat)
    ensures var t, u := Try(real_, name, desired, s, total), Try(real_, name, desired, s, 0);
      t.ok == u.ok && t.session == u.session && t.total == Max(total, u.total)
  {
    hide Read, Updates, Applied, UnappliedKeys;
  }

  /** One attempt on a camera that stores what it started with, or that with the settings applied. */
  lemma HonestTryIs(real_: RealParser, name: bytes, desired: seq<Setting>, original: Value, stored: Value, s: Session)
    requires DistinctNodes(name, Keys(desired)) && HonestTry(real_, name, desired, stored, s)
    requires stored == original || stored == Applied(real_, name, original, desired)
    ensures var t, n := Try(real_, name, desired, s, 0), |UnappliedKeys(real_, name, original, desired)|;
      var applied, next := Applied(real_, name, original, desired), StoredAfter(real_, name, desired, stored, s);
      && (t.ok <==> GetsThrough(real_, name, desired, s))
      && (t.total == 0 || (stored == original && t.total == n))
      && (next == stored || (next == applied && t.total == n))
      && (t.ok ==> t.session.current == Some(applied) && next == applied && (stored == original ==> t.total == n))
  {
    hide Read, Updates, Applied, UnappliedKeys, ApplyOne, DistinctNodes;
    AppliedLeavesNothing(real_, name, original, desired);
    SecondRunDoesNothing(real_, name, original, desired);
    if Updates(real_, name, original, desired) == 0 { NoUpdatesNoChange(real_, name, original, desired); }
    ReadIsCurrent(s, ATTEMPTS);
    var (table, s1) := Read(s, ATTEMPTS);
    if table.Some? { ReadIsCurrent(Write(s1, Applied(real_, name, table.value, desired)).1, ATTEMPTS); }
  }

  lemma {:induction false} HonestRetry(
      real_: RealParser, name: bytes, desired: seq<Setting>, original: Value, stored: Value, s: Session, total: nat, attempts: nat)
    requires DistinctNodes(name, Keys(desired)) && Honest(real_, name, desired, stored, s, attempts)
    requires var applied, n := Applied(real_, name, original, desired), |UnappliedKeys(real_, name, original, desired)|;
      (stored == original && (total == 0 || total == n)) || (stored == applied && total == n)
    ensures var (r, end) := Retry(real_, name, desired, s, total, attempts);
      && (r.Some? <==> OneGetsThrough(real_, name, desired, s, attempts))
      && (r.Some? ==> r.value == |UnappliedKeys(real_, name, original, desired)|
                      && end.current == Some(Applied(real_, name, original, desired)))
    decreases attempts
  {
    hide Try, HonestTry, GetsThrough, StoredAfter, DistinctNodes, Applied, UnappliedKeys;
    if attempts > 0 {
      HonestTryIs(real_, name, desired, original, stored, s);
      TotalIsAside(real_, name, desired, s, total);
      var t := Try(real_, name, desired, s, total);
      if !t.ok {
        HonestRetry(real_, name, desired, original, StoredAfter(real_, name, desired, stored, s), t.session, t.total, attempts - 1);
      }
    }
  }

  /**
    A camera that shows the table it stores and stores what it accepts, but may fail any request: with distinct nodes
    the settings are applied if and only if one of the three attempts gets through; then the number reported is that
    of the settings unapplied at first, and the table shown last is the first one with the settings applied.
   */
  lemma HonestCameraIsConfigured(real_: RealParser, name: bytes, desired: seq<Setting>, table: Value, replies: seq<Reply>)
    requires DistinctNodes(name, Keys(desired))
    requires Honest(real_, name, desired, table, Session(replies, None, [], []), 3)
    ensures var (r, end) := Retry(real_, name, desired, Session(replies, None, [], []), 0, ATTEMPTS);
      && (r.Some? <==> OneGetsThrough(real_, name, desired, Session(replies, None, [], []), 3))
      && (r.Some? ==> r.value == |UnappliedKeys(real_, name, table, desired)|
                      && end.current == Some(Applied(real_, name, table, desired)))
  {
    assert ATTEMPTS == 3;
    hide *;
    HonestRetry(real_, name, desired, table, table, Session(replies, None, [], []), 0, ATTEMPTS);
  }
}
