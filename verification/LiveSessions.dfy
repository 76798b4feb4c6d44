/**
  Live stream sessions (src/stream.rs:150-263, 376-637): what a controller prepares, starts and ends, and the
  ffmpeg processes and proxy tasks that go with it.
 */
module LiveSessions {
  import opened Wrappers
  import opened Bytes
  import opened Tlv8

  // --- SetupEndpoints ---

  const SETUP_SESSION_ID: byte := 1
  const SETUP_STATUS: byte := 2
  const SETUP_ADDRESS: byte := 3
  const SETUP_VIDEO_SRTP: byte := 4
  const SETUP_AUDIO_SRTP: byte := 5
  const SETUP_VIDEO_SSRC: byte := 6
  const SETUP_AUDIO_SSRC: byte := 7

  const ADDR_IP_VERSION: byte := 1
  const ADDR_IP: byte := 2
  const ADDR_VIDEO_PORT: byte := 3
  const ADDR_AUDIO_PORT: byte := 4

  const SRTP_MASTER_KEY: byte := 2
  const SRTP_MASTER_SALT: byte := 3

  /** The outgoing sockets are there until a start takes them. */
  datatype Session = Session(
    id: bytes, controllerIp: bytes, videoPort: nat, audioPort: nat,
    videoKey: bytes, audioKey: bytes, videoSsrc: u32, audioSsrc: u32,
    videoSocket: bool, audioSocket: bool)

  /** The ports that could be bound, if any, and the random identifiers. */
  datatype SetupEnv = SetupEnv(videoPort: Option<u16>, audioPort: Option<u16>, videoSsrc: u32, audioSsrc: u32)

  function OrEmpty(o: Option<bytes>): bytes {
    if o.Some? then o.value else []
  }

  function SrtpKey(raw: bytes): bytes {
    OrEmpty(Find(Parsed(raw), SRTP_MASTER_KEY)) + OrEmpty(Find(Parsed(raw), SRTP_MASTER_SALT))
  }

  function PortOf(items: seq<Item>, tag: byte): nat {
    var p := FindU16(items, tag);
    if p.Some? then p.value else 0
  }

  /** A request carries a session id and never a status; both ports must be bound. */
  predicate IsAnswered(payload: bytes, env: SetupEnv) {
    && Find(Parsed(payload), SETUP_STATUS).None? && Find(Parsed(payload), SETUP_SESSION_ID).Some?
    && env.videoPort.Some? && env.audioPort.Some?
  }

  function Prepared(payload: bytes, env: SetupEnv): Session {
    var items := Parsed(payload);
    var address := Parsed(OrEmpty(Find(items, SETUP_ADDRESS)));
    Session(OrEmpty(Find(items, SETUP_SESSION_ID)), OrEmpty(Find(address, ADDR_IP)),
            PortOf(address, ADDR_VIDEO_PORT), PortOf(address, ADDR_AUDIO_PORT),
            SrtpKey(OrEmpty(Find(items, SETUP_VIDEO_SRTP))), SrtpKey(OrEmpty(Find(items, SETUP_AUDIO_SRTP))),
            env.videoSsrc, env.audioSsrc, true, true)
  }

  function AddressItems(ip: bytes, ipv6: bool, videoPort: u16, audioPort: u16): seq<Item> {
    [Item(ADDR_IP_VERSION, [if ipv6 then 1 else 0]), Item(ADDR_IP, ip),
     Item(ADDR_VIDEO_PORT, Le(videoPort, 2)), Item(ADDR_AUDIO_PORT, Le(audioPort, 2))]
  }

  function ResponseItems(payload: bytes, env: SetupEnv, ip: bytes, ipv6: bool): seq<Item>
    requires env.videoPort.Some? && env.audioPort.Some?
  {
    var items := Parsed(payload);
    [Item(SETUP_SESSION_ID, OrEmpty(Find(items, SETUP_SESSION_ID))),
     Item(SETUP_STATUS, [0]),
     Item(SETUP_ADDRESS, WriteAll(AddressItems(ip, ipv6, env.videoPort.value, env.audioPort.value))),
     Item(SETUP_VIDEO_SRTP, OrEmpty(Find(items, SETUP_VIDEO_SRTP))),
     Item(SETUP_AUDIO_SRTP, OrEmpty(Find(items, SETUP_AUDIO_SRTP))),
     Item(SETUP_VIDEO_SSRC, Le(env.videoSsrc, 4)),
     Item(SETUP_AUDIO_SSRC, Le(env.audioSsrc, 4))]
  }

  /** The controller reads back exactly what was put in, whatever the lengths ... */
  lemma ResponseReadsBack(payload: bytes, env: SetupEnv, ip: bytes, ipv6: bool)
    requires env.videoPort.Some? && env.audioPort.Some?
    ensures var items := ResponseItems(payload, env, ip, ipv6);
      Parsed(WriteAll(items)) == items
  {
    hide Parsed, WriteAll;
    ReadsBackExactly(ResponseItems(payload, env, ip, ipv6));
  }

  /** ... and the response, which comes back as if the controller had written it, is not taken for a request. */
  lemma EchoIsIgnored(payload: bytes, env: SetupEnv, ip: bytes, ipv6: bool, later: SetupEnv)
    requires env.videoPort.Some? && env.audioPort.Some?
    ensures !IsAnswered(WriteAll(ResponseItems(payload, env, ip, ipv6)), later)
  {
    hide Parsed, WriteAll;
    ResponseReadsBack(payload, env, ip, ipv6);
    assert ResponseItems(payload, env, ip, ipv6)[1].tag == SETUP_STATUS;
  }

  /** What a controller asks for: its session, where it listens, and for video and for audio a suite, a key and a salt. */
  ghost function RequestItems(sid: bytes, version: byte, ip: bytes, videoPort: u16, audioPort: u16, suite: byte,
                              videoKey: bytes, videoSalt: bytes, audioKey: bytes, audioSalt: bytes): seq<Item>
  {
    [Item(1, sid),
     Item(3, WriteAll([Item(1, [version]), Item(2, ip), Item(3, Le(videoPort, 2)), Item(4, Le(audioPort, 2))])),
     Item(4, WriteAll(MasterItems(suite, videoKey, videoSalt))),
     Item(5, WriteAll(MasterItems(suite, audioKey, audioSalt)))]
  }

  ghost function MasterItems(suite: byte, key: bytes, salt: bytes): seq<Item> {
    [Item(1, [suite]), Item(2, key), Item(3, salt)]
  }

  ghost predicate TagsDiffer(items: seq<Item>) {
    forall i, j :: 0 <= i < j < |items| ==> items[i].tag != items[j].tag
  }

  lemma FoundByTag(items: seq<Item>, i: nat)
    requires i < |items| && TagsDiffer(items)
    ensures Find(items, items[i].tag) == Some(items[i].value) && Parsed(WriteAll(items)) == items
  {
    hide Find, Parsed, WriteAll;
    ReadsBackExactly(items);
  }

  lemma MasterFound(suite: byte, key: bytes, salt: bytes)
    ensures SrtpKey(WriteAll(MasterItems(suite, key, salt))) == key + salt
  {
    hide Find, Parsed, WriteAll;
    var items := MasterItems(suite, key, salt);
    FoundByTag(items, 1);
    FoundByTag(items, 2);
  }

  lemma PortFound(items: seq<Item>, i: nat, port: u16)
    requires i < |items| && TagsDiffer(items) && items[i].value == Le(port, 2)
    ensures PortOf(items, items[i].tag) == port
  {
    hide Find;
    FoundByTag(items, i);
    FromLeOfLe(port, 2);
  }

  lemma PortMissing(items: seq<Item>, tag: byte)
    requires Find(items, tag).None? || |Find(items, tag).value| != 2
    ensures PortOf(items, tag) == 0
  {
  }

  /** A request is answered if both ports can be bound, and then the video goes to the video port under the video key and the
      audio to the audio port under the audio key, whatever the lengths of the identifiers, addresses and keys. */
  lemma RequestIsPrepared(sid: bytes, version: byte, ip: bytes, videoPort: u16, audioPort: u16, suite: byte,
                          videoKey: bytes, videoSalt: bytes, audioKey: bytes, audioSalt: bytes, env: SetupEnv)
    ensures var payload := WriteAll(RequestItems(sid, version, ip, videoPort, audioPort, suite, videoKey, videoSalt, audioKey, audioSalt));
      && (IsAnswered(payload, env) <==> env.videoPort.Some? && env.audioPort.Some?)
      && Prepared(payload, env) == Session(sid, ip, videoPort, audioPort, videoKey + videoSalt, audioKey + audioSalt,
                                           env.videoSsrc, env.audioSsrc, true, true)
  {
    hide Find, Parsed, WriteAll, SrtpKey, PortOf, Le, MasterItems;
    var items := RequestItems(sid, version, ip, videoPort, audioPort, suite, videoKey, videoSalt, audioKey, audioSalt);
    var address := [Item(1, [version]), Item(2, ip), Item(3, Le(videoPort, 2)), Item(4, Le(audioPort, 2))];
    forall i: nat | i < 4 ensures Find(items, items[i].tag) == Some(items[i].value) && Parsed(WriteAll(items)) == items {
      FoundByTag(items, i);
    }
    assert items[0].tag == 1 && items[1].tag == 3 && items[2].tag == 4 && items[3].tag == 5;
    FoundByTag(address, 1);
    PortFound(address, 2, videoPort);
    PortFound(address, 3, audioPort);
    MasterFound(suite, videoKey, videoSalt);
    MasterFound(suite, audioKey, audioSalt);
  }

  /** And it is told which session it was, that all is well, where to send, and what was agreed on. */
  lemma RequestIsAnswered(sid: bytes, version: byte, ip: bytes, videoPort: u16, audioPort: u16, suite: byte,
                          videoKey: bytes, videoSalt: bytes, audioKey: bytes, audioSalt: bytes,
                          env: SetupEnv, here: bytes, ipv6: bool)
    requires env.videoPort.Some? && env.audioPort.Some?
    ensures var items := RequestItems(sid, version, ip, videoPort, audioPort, suite, videoKey, videoSalt, audioKey, audioSalt);
      ResponseItems(WriteAll(items), env, here, ipv6) ==
      [Item(1, sid), Item(2, [0]),
       Item(3, WriteAll([Item(1, [if ipv6 then 1 else 0]), Item(2, here),
                         Item(3, Le(env.videoPort.value, 2)), Item(4, Le(env.audioPort.value, 2))])),
       items[2], items[3], Item(6, Le(env.videoSsrc, 4)), Item(7, Le(env.audioSsrc, 4))]
  {
    hide Find, Parsed, WriteAll, Le, MasterItems;
    var items := RequestItems(sid, version, ip, videoPort, audioPort, suite, videoKey, videoSalt, audioKey, audioSalt);
    FoundByTag(items, 0);
    FoundByTag(items, 2);
    FoundByTag(items, 3);
  }

  // --- Processes and proxies ---

  datatype Kind = VideoProcess | AudioProcess | VideoProxy | AudioProxy

  /** What was spawned, and for which session. */
  datatype Handle = Handle(kind: Kind, session: bytes, serial: nat)

  /** Which of the things that can fail succeed while a stream starts. */
  datatype StartEnv = StartEnv(videoPair: bool, videoSpawn: bool, audioPair: bool, audioSpawn: bool)

  /** `SrtpSession::new` wants a 16-byte key and a 14-byte salt. */
  predicate IsMaster(key: bytes) {
    |key| == 30
  }

  // --- The manager's state, and what each operation makes of it ---

  /** `running`: spawned, and neither killed nor aborted. `serial` numbers what is spawned. */
  datatype Live = Live(
    sessions: map<bytes, Session>,
    children: map<bytes, Handle>, audioChildren: map<bytes, Handle>,
    videoProxies: map<bytes, Handle>, audioProxies: map<bytes, Handle>,
    setupResponse: bytes, liveConnections: nat, running: set<Handle>, serial: nat)

  const Idle := Live(map[], map[], map[], map[], map[], [], 0, {}, 0)

  function HeldBy(s: Live, kind: Kind): map<bytes, Handle> {
    match kind
    case VideoProcess => s.children
    case AudioProcess => s.audioChildren
    case VideoProxy => s.videoProxies
    case AudioProxy => s.audioProxies
  }

  function WithHeld(s: Live, kind: Kind, held: map<bytes, Handle>): Live {
    match kind
    case VideoProcess => s.(children := held)
    case AudioProcess => s.(audioChildren := held)
    case VideoProxy => s.(videoProxies := held)
    case AudioProxy => s.(audioProxies := held)
  }

  /** `remove`, then `start_kill` or `abort` on what was there. */
  function Kill(s: Live, kind: Kind, sid: bytes): Live {
    var held := HeldBy(s, kind);
    WithHeld(if sid in held then s.(running := s.running - {held[sid]}) else s, kind, held - {sid})
  }

  /** Spawned and put into its map. */
  function Launched(s: Live, kind: Kind, sid: bytes): Live {
    WithHeld(Spawned(s, kind, sid), kind, HeldBy(s, kind)[sid := Fresh(s, kind, sid)])
  }

  function TearDown(s: Live, sid: bytes): Live {
    Kill(Kill(Kill(Kill(s, VideoProcess, sid), AudioProcess, sid), AudioProxy, sid), VideoProxy, sid)
  }

  function Gauged(s: Live): Live {
    s.(liveConnections := |s.children|)
  }

  function Fresh(s: Live, kind: Kind, sid: bytes): Handle {
    Handle(kind, sid, s.serial)
  }

  function Spawned(s: Live, kind: Kind, sid: bytes): Live {
    s.(running := s.running + {Fresh(s, kind, sid)}, serial := s.serial + 1)
  }

  /** The session a start is for; without an id only if there is no choice. */
  ghost function Chosen(sessions: map<bytes, Session>, sid: Option<bytes>): Option<bytes> {
    if sid.Some? then (if sid.value in sessions then sid else None)
    else if |sessions| == 1 then
      assert sessions != map[];
      var k :| k in sessions; Some(k)
    else None
  }

  /** The video half: proxy first, then the process; neither without the other. */
  function VideoStarted(s: Live, session: Session, env: StartEnv): (Live, bool) {
    if !env.videoPair || !IsMaster(session.videoKey) then (s, false)
    else if !env.videoSpawn then
      (Spawned(s, VideoProxy, session.id).(running := s.running + {Fresh(s, VideoProxy, session.id)} - {Fresh(s, VideoProxy, session.id)}), false)
    else (Gauged(Launched(Launched(s, VideoProxy, session.id), VideoProcess, session.id)), true)
  }

  /** The audio half: the process stays even if its proxy cannot start. */
  function AudioStarted(s: Live, session: Session, audio: bool, env: StartEnv): Live {
    if !(audio && session.audioKey != [] && session.audioSocket && env.audioPair && env.audioSpawn) then s
    else
      var t := Launched(s, AudioProcess, session.id);
      if IsMaster(session.audioKey) then Launched(t, AudioProxy, session.id) else t
  }

  ghost function Started(s: Live, audio: bool, sid: Option<bytes>, env: StartEnv): Live {
    var id := Chosen(s.sessions, sid);
    if id.None? then s
    else
      var session := s.sessions[id.value];
      var torn := Gauged(TearDown(s.(sessions := s.sessions - {id.value}), session.id));
      var (t, ok) := VideoStarted(torn, session, env);
      if ok then AudioStarted(t, session, audio, env) else t
  }

  predicate IsHeld(s: Live, h: Handle) {
    h.session in HeldBy(s, h.kind) && HeldBy(s, h.kind)[h.session] == h
  }

  function Ended(s: Live, sid: Option<bytes>): Live {
    if sid.Some? then
      var t := TearDown(s, sid.value);
      Gauged(t.(sessions := t.sessions - {sid.value}))
    else
      s.(sessions := map[], children := map[], audioChildren := map[], videoProxies := map[], audioProxies := map[],
         liveConnections := 0, running := set h | h in s.running && !IsHeld(s, h))
  }

  function SetUp(s: Live, payload: bytes, env: SetupEnv, ip: bytes, ipv6: bool): Live {
    if !IsAnswered(payload, env) then s
    else s.(sessions := s.sessions[Prepared(payload, env).id := Prepared(payload, env)],
            setupResponse := WriteAll(ResponseItems(payload, env, ip, ipv6)))
  }

  // --- What always holds ---

  /** Of this kind exactly the things held are running, and each is held for the session it was spawned for. */
  ghost predicate Accounted(running: set<Handle>, held: map<bytes, Handle>, kind: Kind) {
    && (forall sid :: sid in held ==> held[sid].kind == kind && held[sid].session == sid)
    && (forall h: Handle :: h.kind == kind ==> (h in running <==> h.session in held && held[h.session] == h))
  }

  ghost predicate Tracked(s: Live) {
    && (forall kind: Kind :: Accounted(s.running, HeldBy(s, kind), kind))
    && (forall h :: h in s.running ==> h.serial < s.serial)
  }

  ghost predicate Paired(s: Live) {
    s.children.Keys == s.videoProxies.Keys && s.audioProxies.Keys <= s.audioChildren.Keys <= s.children.Keys
  }

  ghost predicate SessionsReady(s: Live) {
    forall id :: id in s.sessions ==> s.sessions[id].id == id && s.sessions[id].videoSocket && s.sessions[id].audioSocket
  }

  ghost predicate Valid(s: Live) {
    Tracked(s) && Paired(s) && s.liveConnections == |s.children| && SessionsReady(s)
  }

  lemma WithHeldIs(s: Live, kind: Kind, held: map<bytes, Handle>, k: Kind)
    ensures HeldBy(WithHeld(s, kind, held), k) == if k == kind then held else HeldBy(s, k)
    ensures WithHeld(s, kind, held).running == s.running && WithHeld(s, kind, held).serial == s.serial
    ensures WithHeld(s, kind, held).sessions == s.sessions && WithHeld(s, kind, held).setupResponse == s.setupResponse
  {
  }

  /** Whatever happens to things of other kinds. */
  lemma AccountedElsewhere(running: set<Handle>, after: set<Handle>, held: map<bytes, Handle>, kind: Kind)
    requires Accounted(running, held, kind)
    requires forall h: Handle :: h.kind == kind ==> (h in after <==> h in running)
    ensures Accounted(after, held, kind)
  {
  }

  lemma KillKeepsTracked(s: Live, kind: Kind, sid: bytes)
    requires Tracked(s)
    ensures Tracked(Kill(s, kind, sid))
  {
    hide HeldBy, WithHeld;
    var t, held := Kill(s, kind, sid), HeldBy(s, kind);
    var marked := if sid in held then s.(running := s.running - {held[sid]}) else s;
    WithHeldIs(marked, kind, held - {sid}, kind);
    assert Accounted(s.running, held, kind);
    forall k: Kind ensures Accounted(t.running, HeldBy(t, k), k) {
      WithHeldIs(marked, kind, held - {sid}, k);
      assert HeldBy(marked, k) == HeldBy(s, k) by { SameMaps(s, marked, k); }
      assert Accounted(s.running, HeldBy(s, k), k);
      if k != kind { AccountedElsewhere(s.running, t.running, HeldBy(s, k), k); }
    }
  }

  lemma SameMaps(s: Live, t: Live, kind: Kind)
    requires s.children == t.children && s.audioChildren == t.audioChildren
    requires s.videoProxies == t.videoProxies && s.audioProxies == t.audioProxies
    ensures HeldBy(s, kind) == HeldBy(t, kind)
  {
  }

  lemma FreshIsNew(s: Live, kind: Kind, sid: bytes)
    requires Tracked(s)
    ensures Fresh(s, kind, sid) !in s.running
  {
  }

  lemma LaunchKeepsTracked(s: Live, kind: Kind, sid: bytes)
    requires Tracked(s) && sid !in HeldBy(s, kind)
    ensures Tracked(Launched(s, kind, sid))
  {
    hide HeldBy, WithHeld;
    var t, marked := Launched(s, kind, sid), Spawned(s, kind, sid);
    var held := HeldBy(s, kind)[sid := Fresh(s, kind, sid)];
    WithHeldIs(marked, kind, held, kind);
    assert Accounted(s.running, HeldBy(s, kind), kind);
    assert Fresh(s, kind, sid) !in s.running;
    forall k: Kind ensures Accounted(t.running, HeldBy(t, k), k) {
      WithHeldIs(marked, kind, held, k);
      SameMaps(s, marked, k);
      assert Accounted(s.running, HeldBy(s, k), k);
      if k != kind { AccountedElsewhere(s.running, t.running, HeldBy(s, k), k); }
    }
  }

  lemma TearDownKeepsTracked(s: Live, sid: bytes)
    requires Tracked(s)
    ensures Tracked(TearDown(s, sid))
  {
    hide Tracked, Kill;
    KillKeepsTracked(s, VideoProcess, sid);
    KillKeepsTracked(Kill(s, VideoProcess, sid), AudioProcess, sid);
    KillKeepsTracked(Kill(Kill(s, VideoProcess, sid), AudioProcess, sid), AudioProxy, sid);
    KillKeepsTracked(Kill(Kill(Kill(s, VideoProcess, sid), AudioProcess, sid), AudioProxy, sid), VideoProxy, sid);
  }

  lemma KillIs(s: Live, kind: Kind, sid: bytes, k: Kind)
    ensures var t := Kill(s, kind, sid);
      && HeldBy(t, k) == (if k == kind then HeldBy(s, k) - {sid} else HeldBy(s, k))
      && t.sessions == s.sessions && t.setupResponse == s.setupResponse && t.serial == s.serial
  {
    hide WithHeld, HeldBy;
    var held := HeldBy(s, kind);
    var marked := if sid in held then s.(running := s.running - {held[sid]}) else s;
    WithHeldIs(marked, kind, held - {sid}, k);
    SameMaps(s, marked, k);
  }

  /** Nothing of the session is left, and nothing of any other is touched. */
  lemma TearDownIs(s: Live, sid: bytes, k: Kind)
    ensures var t := TearDown(s, sid);
      && HeldBy(t, k) == HeldBy(s, k) - {sid}
      && t.sessions == s.sessions && t.setupResponse == s.setupResponse && t.serial == s.serial
  {
    hide Kill, HeldBy;
    var a := Kill(s, VideoProcess, sid);
    var b := Kill(a, AudioProcess, sid);
    var c := Kill(b, AudioProxy, sid);
    KillIs(s, VideoProcess, sid, k);
    KillIs(a, AudioProcess, sid, k);
    KillIs(b, AudioProxy, sid, k);
    KillIs(c, VideoProxy, sid, k);
  }

  lemma TrackedAlike(s: Live, t: Live)
    requires Tracked(s) && s.running == t.running && s.serial <= t.serial
    requires s.children == t.children && s.audioChildren == t.audioChildren
    requires s.videoProxies == t.videoProxies && s.audioProxies == t.audioProxies
    ensures Tracked(t)
  {
    hide Accounted, HeldBy;
    forall k: Kind ensures Accounted(t.running, HeldBy(t, k), k) {
      SameMaps(s, t, k);
      assert Accounted(s.running, HeldBy(s, k), k);
    }
  }

  lemma TearDownMaps(s: Live, sid: bytes)
    ensures var t := TearDown(s, sid);
      && t.children == s.children - {sid} && t.audioChildren == s.audioChildren - {sid}
      && t.videoProxies == s.videoProxies - {sid} && t.audioProxies == s.audioProxies - {sid}
      && t.sessions == s.sessions
  {
    hide TearDown;
    TearDownIs(s, sid, VideoProcess);
    TearDownIs(s, sid, AudioProcess);
    TearDownIs(s, sid, VideoProxy);
    TearDownIs(s, sid, AudioProxy);
  }

  lemma TearDownKeepsValid(s: Live, sid: bytes)
    requires Tracked(s) && Paired(s) && SessionsReady(s)
    ensures Valid(Gauged(TearDown(s, sid)))
    ensures var t := Gauged(TearDown(s, sid));
      t.sessions == s.sessions && sid !in t.children && sid !in t.audioChildren && sid !in t.videoProxies && sid !in t.audioProxies
  {
    hide Tracked, TearDown, Paired, SessionsReady;
    var t := TearDown(s, sid);
    TearDownKeepsTracked(s, sid);
    TearDownMaps(s, sid);
    TrackedAlike(t, Gauged(t));
    PairedWithout(s, Gauged(t), sid);
    ReadyAlike(s, Gauged(t));
  }

  lemma PairedWithout(s: Live, t: Live, sid: bytes)
    requires Paired(s)
    requires t.children == s.children - {sid} && t.audioChildren == s.audioChildren - {sid}
    requires t.videoProxies == s.videoProxies - {sid} && t.audioProxies == s.audioProxies - {sid}
    ensures Paired(t)
  {
  }

  lemma ReadyAlike(s: Live, t: Live)
    requires SessionsReady(s) && t.sessions == s.sessions
    ensures SessionsReady(t)
  {
  }

  lemma VideoStartedKeepsTracked(s: Live, session: Session, env: StartEnv)
    requires Tracked(s) && session.id !in s.children && session.id !in s.videoProxies
    ensures Tracked(VideoStarted(s, session, env).0)
  {
    hide Tracked;
    var proxied := Launched(s, VideoProxy, session.id);
    assert proxied.children == s.children;
    var both := Launched(proxied, VideoProcess, session.id);
    assert Fresh(s, VideoProxy, session.id) !in s.running by { FreshIsNew(s, VideoProxy, session.id); }
    if !env.videoSpawn { TrackedAlike(s, Spawned(s, VideoProxy, session.id).(running := s.running)); }
    LaunchKeepsTracked(s, VideoProxy, session.id);
    LaunchKeepsTracked(proxied, VideoProcess, session.id);
    TrackedAlike(both, Gauged(both));
  }

  lemma VideoStartedKeepsValid(s: Live, session: Session, env: StartEnv)
    requires Valid(s) && session.id !in s.children
    ensures var (t, ok) := VideoStarted(s, session, env);
      && Valid(t)
      && (ok ==> session.id in t.children && t.audioChildren == s.audioChildren && t.audioProxies == s.audioProxies)
  {
    hide Tracked;
    VideoStartedKeepsTracked(s, session, env);
  }

  lemma AudioStartedKeepsValid(s: Live, session: Session, audio: bool, env: StartEnv)
    requires Valid(s) && session.id in s.children && session.id !in s.audioChildren
    ensures Valid(AudioStarted(s, session, audio, env))
  {
    hide Tracked;
    var heard := Launched(s, AudioProcess, session.id);
    LaunchKeepsTracked(s, AudioProcess, session.id);
    assert session.id !in heard.audioProxies;
    LaunchKeepsTracked(heard, AudioProxy, session.id);
  }

  // --- Whole runs ---

  datatype Operation =
    | Setup(payload: bytes, setupEnv: SetupEnv)
    | Start(sid: Option<bytes>, startEnv: StartEnv)
    | End(sid: Option<bytes>)

  ghost function Next(s: Live, audio: bool, ip: bytes, ipv6: bool, o: Operation): Live {
    match o
    case Setup(payload, env) => SetUp(s, payload, env, ip, ipv6)
    case Start(sid, env) => Started(s, audio, sid, env)
    case End(sid) => Ended(s, sid)
  }

  lemma SetUpKeepsValid(s: Live, payload: bytes, env: SetupEnv, ip: bytes, ipv6: bool)
    requires Valid(s)
    ensures Valid(SetUp(s, payload, env, ip, ipv6))
  {
    hide Tracked, IsAnswered, Find, Parsed, SrtpKey, WriteAll, PortOf;
    TrackedAlike(s, SetUp(s, payload, env, ip, ipv6));
  }

  lemma StartedKeepsValid(s: Live, audio: bool, sid: Option<bytes>, env: StartEnv)
    requires Valid(s)
    ensures Valid(Started(s, audio, sid, env))
  {
    hide Tracked, TearDown, VideoStarted, AudioStarted, Chosen;
    var id := Chosen(s.sessions, sid);
    ChosenIsThere(s.sessions, sid);
    if id.Some? {
      var session := s.sessions[id.value];
      var removed := s.(sessions := s.sessions - {id.value});
      TrackedAlike(s, removed);
      TearDownKeepsValid(removed, session.id);
      var torn := Gauged(TearDown(removed, session.id));
      VideoStartedKeepsValid(torn, session, env);
      var (t, ok) := VideoStarted(torn, session, env);
      if ok { AudioStartedKeepsValid(t, session, audio, env); }
    }
  }

  lemma ChosenIsThere(sessions: map<bytes, Session>, sid: Option<bytes>)
    ensures Chosen(sessions, sid).Some? ==> Chosen(sessions, sid).value in sessions
  {
  }

  lemma EndedKeepsValid(s: Live, sid: Option<bytes>)
    requires Valid(s)
    ensures Valid(Ended(s, sid))
  {
    hide Tracked, TearDown;
    if sid.Some? {
      TearDownKeepsValid(s, sid.value);
      TrackedAlike(Gauged(TearDown(s, sid.value)), Ended(s, sid));
    } else {
      hide Ended, Paired, SessionsReady;
      AllEndedIsIdle(s);
    }
  }

  lemma NextKeepsValid(s: Live, audio: bool, ip: bytes, ipv6: bool, o: Operation)
    requires Valid(s)
    ensures Valid(Next(s, audio, ip, ipv6, o))
  {
    hide Valid, SetUp, Started, Ended;
    match o
    case Setup(payload, env) => SetUpKeepsValid(s, payload, env, ip, ipv6);
    case Start(sid, env) => StartedKeepsValid(s, audio, sid, env);
    case End(sid) => EndedKeepsValid(s, sid);
  }

  /** Ending everything leaves nothing running at all. */
  lemma AllEndedIsIdle(s: Live)
    requires Tracked(s)
    ensures Ended(s, None).running == {} && Tracked(Ended(s, None)) && Valid(Ended(s, None))
  {
    var t := Ended(s, None);
    forall h ensures h !in t.running {
      assert Accounted(s.running, HeldBy(s, h.kind), h.kind);
    }
  }

  ghost function Run(s: Live, audio: bool, ip: bytes, ipv6: bool, operations: seq<Operation>): Live
    decreases |operations|
  {
    if operations == [] then s else Run(Next(s, audio, ip, ipv6, operations[0]), audio, ip, ipv6, operations[1..])
  }

  /**
    Over every run of setups, starts and ends, whatever fails in them: a video process and its proxy come and go
    together, audio never outlives video, the gauge is the number of streams, every prepared session still has
    its sockets, and exactly the processes and proxies in the maps are running: none leaks.
   */
  lemma {:induction false} NothingLeaks(s: Live, audio: bool, ip: bytes, ipv6: bool, operations: seq<Operation>)
    requires Valid(s)
    ensures Valid(Run(s, audio, ip, ipv6, operations))
    decreases |operations|
  {
    hide Valid, Next;
    if operations != [] {
      NextKeepsValid(s, audio, ip, ipv6, operations[0]);
      NothingLeaks(Next(s, audio, ip, ipv6, operations[0]), audio, ip, ipv6, operations[1..]);
    }
  }

  // --- What a start starts ---

  /** After a start for a prepared session: video, with its proxy, exactly if its sockets, key and process were all
      right; audio exactly if besides it is wanted and its own sockets and process were; its proxy exactly if
      besides its key was. The preparation is used up either way. */
  lemma StartRunsWhatItCan(s: Live, audio: bool, sid: bytes, env: StartEnv)
    requires Valid(s) && sid in s.sessions
    ensures var t, session := Started(s, audio, Some(sid), env), s.sessions[sid];
      var video := env.videoPair && |session.videoKey| == 30 && env.videoSpawn;
      var heard := video && audio && session.audioKey != [] && env.audioPair && env.audioSpawn;
      && (sid in t.children <==> video) && (sid in t.videoProxies <==> video)
      && (sid in t.audioChildren <==> heard)
      && (sid in t.audioProxies <==> heard && |session.audioKey| == 30)
      && sid !in t.sessions
  {
    var session := s.sessions[sid];
    var removed := s.(sessions := s.sessions - {sid});
    hide Tracked;
    TrackedAlike(s, removed);
    TearDownKeepsValid(removed, sid);
    hide TearDown, Valid, HeldBy;
    var torn := Gauged(TearDown(removed, sid));
    VideoPresent(torn, session, env);
    var (t, ok) := VideoStarted(torn, session, env);
    AudioPresent(t, session, audio, env);
  }

  /** Without an id the only session there is starts; without a choice, or with an id nothing was prepared for, nothing
      happens. */
  lemma StartNeedsAChoice(s: Live, audio: bool, sid: bytes, env: StartEnv)
    ensures sid !in s.sessions ==> Started(s, audio, Some(sid), env) == s
    ensures |s.sessions| != 1 ==> Started(s, audio, None, env) == s
    ensures |s.sessions| == 1 && sid in s.sessions ==> Started(s, audio, None, env) == Started(s, audio, Some(sid), env)
  {
    hide TearDown, VideoStarted, AudioStarted;
    ChosenIsThere(s.sessions, None);
    if |s.sessions| == 1 && sid in s.sessions { OnlyOne(s.sessions, Chosen(s.sessions, None).value, sid); }
  }

  lemma LaunchedMaps(s: Live, kind: Kind, sid: bytes)
    ensures var t, h := Launched(s, kind, sid), Fresh(s, kind, sid);
      && t.children == (if kind.VideoProcess? then s.children[sid := h] else s.children)
      && t.audioChildren == (if kind.AudioProcess? then s.audioChildren[sid := h] else s.audioChildren)
      && t.videoProxies == (if kind.VideoProxy? then s.videoProxies[sid := h] else s.videoProxies)
      && t.audioProxies == (if kind.AudioProxy? then s.audioProxies[sid := h] else s.audioProxies)
      && t.sessions == s.sessions
  {
  }

  lemma VideoPresent(s: Live, session: Session, env: StartEnv)
    requires session.id !in s.children && session.id !in s.videoProxies
    ensures var (t, ok) := VideoStarted(s, session, env);
      && ok == (env.videoPair && IsMaster(session.videoKey) && env.videoSpawn)
      && (session.id in t.children <==> ok) && (session.id in t.videoProxies <==> ok)
      && t.audioChildren == s.audioChildren && t.audioProxies == s.audioProxies && t.sessions == s.sessions
  {
    hide Launched;
    LaunchedMaps(s, VideoProxy, session.id);
    LaunchedMaps(Launched(s, VideoProxy, session.id), VideoProcess, session.id);
  }

  lemma AudioPresent(s: Live, session: Session, audio: bool, env: StartEnv)
    ensures var t := AudioStarted(s, session, audio, env);
      var heard := audio && session.audioKey != [] && session.audioSocket && env.audioPair && env.audioSpawn;
      && t.children == s.children && t.videoProxies == s.videoProxies && t.sessions == s.sessions
      && (session.id in t.audioChildren <==> session.id in s.audioChildren || heard)
      && (session.id in t.audioProxies <==> session.id in s.audioProxies || (heard && IsMaster(session.audioKey)))
  {
    hide Launched;
    LaunchedMaps(s, AudioProcess, session.id);
    LaunchedMaps(Launched(s, AudioProcess, session.id), AudioProxy, session.id);
  }

  // --- What concerns one session leaves every other as it was ---

  /** The same handle, or none, for this session. */
  predicate SameFor(s: Live, t: Live, kind: Kind, sid: bytes) {
    && (sid in HeldBy(t, kind) <==> sid in HeldBy(s, kind))
    && (sid in HeldBy(s, kind) ==> HeldBy(t, kind)[sid] == HeldBy(s, kind)[sid])
  }

  lemma SameForAlike(s: Live, t: Live, kind: Kind, sid: bytes)
    requires s.children == t.children && s.audioChildren == t.audioChildren
    requires s.videoProxies == t.videoProxies && s.audioProxies == t.audioProxies
    ensures SameFor(s, t, kind, sid)
  {
    hide HeldBy;
    SameMaps(s, t, kind);
  }

  lemma SameForTransitive(s: Live, t: Live, u: Live, kind: Kind, sid: bytes)
    requires SameFor(s, t, kind, sid) && SameFor(t, u, kind, sid)
    ensures SameFor(s, u, kind, sid)
  {
    hide HeldBy;
  }

  lemma TearDownLeavesOthers(s: Live, sid: bytes, other: bytes, kind: Kind)
    requires other != sid
    ensures SameFor(s, Gauged(TearDown(s, sid)), kind, other) && Gauged(TearDown(s, sid)).sessions == s.sessions
  {
    hide TearDown, HeldBy;
    var t := TearDown(s, sid);
    TearDownIs(s, sid, kind);
    assert SameFor(s, t, kind, other);
    hide SameFor;
    SameForAlike(t, Gauged(t), kind, other);
    SameForTransitive(s, t, Gauged(t), kind, other);
  }

  lemma LaunchLeavesOthers(s: Live, k: Kind, sid: bytes, other: bytes, kind: Kind)
    requires other != sid
    ensures SameFor(s, Launched(s, k, sid), kind, other) && Launched(s, k, sid).sessions == s.sessions
  {
  }

  lemma VideoLeavesOthers(s: Live, session: Session, env: StartEnv, other: bytes, kind: Kind)
    requires other != session.id
    ensures var t := VideoStarted(s, session, env).0;
      SameFor(s, t, kind, other) && t.sessions == s.sessions
  {
    hide Launched, SameFor;
    var t := VideoStarted(s, session, env).0;
    if env.videoPair && IsMaster(session.videoKey) && env.videoSpawn {
      var proxied := Launched(s, VideoProxy, session.id);
      var both := Launched(proxied, VideoProcess, session.id);
      LaunchLeavesOthers(s, VideoProxy, session.id, other, kind);
      LaunchLeavesOthers(proxied, VideoProcess, session.id, other, kind);
      SameForTransitive(s, proxied, both, kind, other);
      SameForAlike(both, t, kind, other);
      SameForTransitive(s, both, t, kind, other);
    } else {
      SameForAlike(s, t, kind, other);
    }
  }

  lemma AudioLeavesOthers(s: Live, session: Session, audio: bool, env: StartEnv, other: bytes, kind: Kind)
    requires other != session.id
    ensures var t := AudioStarted(s, session, audio, env);
      SameFor(s, t, kind, other) && t.sessions == s.sessions
  {
    hide Launched, SameFor;
    var heard := Launched(s, AudioProcess, session.id);
    var both := Launched(heard, AudioProxy, session.id);
    SameForAlike(s, s, kind, other);
    LaunchLeavesOthers(s, AudioProcess, session.id, other, kind);
    LaunchLeavesOthers(heard, AudioProxy, session.id, other, kind);
    SameForTransitive(s, heard, both, kind, other);
  }

  lemma EndLeavesOthers(s: Live, sid: bytes, other: bytes, kind: Kind)
    requires other != sid
    ensures var t := Ended(s, Some(sid));
      SameFor(s, t, kind, other) && (other in t.sessions <==> other in s.sessions)
  {
    hide TearDown, SameFor;
    var torn := Gauged(TearDown(s, sid));
    TearDownLeavesOthers(s, sid, other, kind);
    SameForAlike(torn, Ended(s, Some(sid)), kind, other);
    SameForTransitive(s, torn, Ended(s, Some(sid)), kind, other);
  }

  lemma StartLeavesOthers(s: Live, audio: bool, sid: bytes, env: StartEnv, other: bytes, kind: Kind)
    requires SessionsReady(s) && other != sid
    ensures var t := Started(s, audio, Some(sid), env);
      SameFor(s, t, kind, other) && (other in t.sessions <==> other in s.sessions)
  {
    hide TearDown, VideoStarted, AudioStarted, SameFor;
    var end := Started(s, audio, Some(sid), env);
    if sid in s.sessions {
      var session := s.sessions[sid];
      var removed := s.(sessions := s.sessions - {sid});
      var torn := Gauged(TearDown(removed, sid));
      var (t, ok) := VideoStarted(torn, session, env);
      SameForAlike(s, removed, kind, other);
      TearDownLeavesOthers(removed, sid, other, kind);
      SameForTransitive(s, removed, torn, kind, other);
      VideoLeavesOthers(torn, session, env, other, kind);
      SameForTransitive(s, torn, t, kind, other);
      AudioLeavesOthers(t, session, audio, env, other, kind);
      SameForTransitive(s, t, AudioStarted(t, session, audio, env), kind, other);
    } else {
      SameForAlike(s, end, kind, other);
    }
  }

  lemma HeldAreValues(s: Live)
    requires Valid(s)
    ensures Ended(s, None).running
         == s.running - s.children.Values - s.audioChildren.Values - s.audioProxies.Values - s.videoProxies.Values
  {
    AllEndedIsIdle(s);
    forall h | h in s.running
      ensures h in s.children.Values || h in s.audioChildren.Values || h in s.audioProxies.Values || h in s.videoProxies.Values
    {
      assert Accounted(s.running, HeldBy(s, h.kind), h.kind);
      assert HeldBy(s, h.kind)[h.session] == h;
    }
  }

  lemma OnlyOne(sessions: map<bytes, Session>, a: bytes, b: bytes)
    requires |sessions| == 1 && a in sessions && b in sessions
    ensures a == b
  {
    if a != b {
      assert {a, b} <= sessions.Keys;
      Smaller({a, b}, sessions.Keys);
      assert false;
    }
  }

  lemma Smaller(a: set<bytes>, b: set<bytes>)
    requires a <= b
    ensures |a| <= |b|
  {
    assert b == a + (b - a);
  }

  // --- The manager ---

  lemma VideoStartedIs(s: Live, session: Session, env: StartEnv)
    ensures var proxy := Fresh(s, VideoProxy, session.id);
      var spawned := Spawned(s, VideoProxy, session.id);
      var child := Fresh(spawned, VideoProcess, session.id);
      var both := Spawned(spawned, VideoProcess, session.id);
      VideoStarted(s, session, env) ==
      if !env.videoPair || |session.videoKey| != 30 then (s, false)
      else if !env.videoSpawn then (spawned.(running := spawned.running - {proxy}), false)
      else (both.(children := s.children[session.id := child], videoProxies := s.videoProxies[session.id := proxy],
                  liveConnections := |s.children[session.id := child]|), true)
  {
  }

  lemma ValuesWithout(held: map<bytes, Handle>, sid: bytes)
    requires sid in held
    ensures held.Values == (held - {sid}).Values + {held[sid]}
  {
    var rest := held - {sid};
    forall v | v in held.Values ensures v == held[sid] || v in rest.Values {
      var k :| k in held && held[k] == v;
      if k != sid { assert rest[k] == v; }
    }
  }

  class StreamManager {
    const audio: bool
    const localIp: bytes
    const ipv6: bool

    var sessions: map<bytes, Session>
    var children: map<bytes, Handle>
    var audioChildren: map<bytes, Handle>
    var videoProxies: map<bytes, Handle>
    var audioProxies: map<bytes, Handle>
    var setupResponse: bytes
    var liveConnections: nat
    ghost var running: set<Handle>
    var serial: nat

    constructor (audio: bool, localIp: bytes, ipv6: bool)
      ensures Contents() == Idle && Valid(Contents())
    {
      this.audio, this.localIp, this.ipv6 := audio, localIp, ipv6;
      sessions, children, audioChildren, videoProxies, audioProxies := map[], map[], map[], map[], map[];
      setupResponse, liveConnections, running, serial := [], 0, {}, 0;
    }

    ghost function Contents(): Live
      reads this
    {
      Live(sessions, children, audioChildren, videoProxies, audioProxies, setupResponse, liveConnections, running, serial)
    }

    method HandleSetupWrite(payload: bytes, env: SetupEnv)
      modifies this`sessions, this`setupResponse
      ensures Contents() == SetUp(old(Contents()), payload, env, localIp, ipv6)
    {
      hide WriteAll, Find, Parsed;
      var items := Parse(payload);
      if Find(items, SETUP_STATUS).Some? { return; }
      var sessionId := Find(items, SETUP_SESSION_ID);
      if sessionId.None? { return; }
      if env.videoPort.None? || env.audioPort.None? { return; }
      var session := Prepared(payload, env);
      var response := WriteResponse(items, sessionId.value, env);
      assert response == WriteAll(ResponseItems(payload, env, localIp, ipv6));
      sessions := sessions[sessionId.value := session];
      setupResponse := response;
    }

    method WriteResponse(items: seq<Item>, sessionId: bytes, env: SetupEnv) returns (response: bytes)
      requires env.videoPort.Some? && env.audioPort.Some?
      ensures response == WriteAll(
        [Item(SETUP_SESSION_ID, sessionId), Item(SETUP_STATUS, [0]),
         Item(SETUP_ADDRESS, WriteAll(AddressItems(localIp, ipv6, env.videoPort.value, env.audioPort.value))),
         Item(SETUP_VIDEO_SRTP, OrEmpty(Find(items, SETUP_VIDEO_SRTP))), Item(SETUP_AUDIO_SRTP, OrEmpty(Find(items, SETUP_AUDIO_SRTP))),
         Item(SETUP_VIDEO_SSRC, Le(env.videoSsrc, 4)), Item(SETUP_AUDIO_SSRC, Le(env.audioSsrc, 4))])
    {
      hide WriteAll, Le, Find;
      var address := WriteAddress(env.videoPort.value, env.audioPort.value);
      var video, heard := OrEmpty(Find(items, SETUP_VIDEO_SRTP)), OrEmpty(Find(items, SETUP_AUDIO_SRTP));
      hide OrEmpty;
      var w := new Writer();
      w.Bytes(SETUP_SESSION_ID, sessionId);
      w.U8(SETUP_STATUS, 0);
      w.Bytes(SETUP_ADDRESS, address);
      w.Bytes(SETUP_VIDEO_SRTP, video);
      w.Bytes(SETUP_AUDIO_SRTP, heard);
      w.U32(SETUP_VIDEO_SSRC, env.videoSsrc);
      w.U32(SETUP_AUDIO_SSRC, env.audioSsrc);
      assert w.items ==
        [Item(SETUP_SESSION_ID, sessionId), Item(SETUP_STATUS, [0]), Item(SETUP_ADDRESS, address),
         Item(SETUP_VIDEO_SRTP, video), Item(SETUP_AUDIO_SRTP, heard),
         Item(SETUP_VIDEO_SSRC, Le(env.videoSsrc, 4)), Item(SETUP_AUDIO_SSRC, Le(env.audioSsrc, 4))];
      response := w.Build();
    }

    method WriteAddress(videoPort: u16, audioPort: u16) returns (address: bytes)
      ensures address == WriteAll(AddressItems(localIp, ipv6, videoPort, audioPort))
    {
      hide WriteAll, Le;
      var a := new Writer();
      a.U8(ADDR_IP_VERSION, if ipv6 then 1 else 0);
      a.Bytes(ADDR_IP, localIp);
      a.U16(ADDR_VIDEO_PORT, videoPort);
      a.U16(ADDR_AUDIO_PORT, audioPort);
      assert a.items == AddressItems(localIp, ipv6, videoPort, audioPort);
      address := a.Build();
    }

    method SpawnFor(kind: Kind, session: bytes) returns (h: Handle)
      modifies this`running, this`serial
      ensures h == Fresh(old(Contents()), kind, session) && Contents() == Spawned(old(Contents()), kind, session)
    {
      h := Handle(kind, session, serial);
      running := running + {h};
      serial := serial + 1;
    }

    method StopChild(sid: bytes)
      modifies this
      ensures Contents() == Kill(old(Contents()), VideoProcess, sid)
    {
      if sid in children { running := running - {children[sid]}; }
      children := children - {sid};
    }

    method StopAudioChild(sid: bytes)
      modifies this
      ensures Contents() == Kill(old(Contents()), AudioProcess, sid)
    {
      if sid in audioChildren { running := running - {audioChildren[sid]}; }
      audioChildren := audioChildren - {sid};
    }

    method StopAudioProxy(sid: bytes)
      modifies this
      ensures Contents() == Kill(old(Contents()), AudioProxy, sid)
    {
      if sid in audioProxies { running := running - {audioProxies[sid]}; }
      audioProxies := audioProxies - {sid};
    }

    method StopVideoProxy(sid: bytes)
      modifies this
      ensures Contents() == Kill(old(Contents()), VideoProxy, sid)
    {
      if sid in videoProxies { running := running - {videoProxies[sid]}; }
      videoProxies := videoProxies - {sid};
    }

    method StartStream(sid: Option<bytes>, env: StartEnv)
      requires Valid(Contents())
      modifies this
      ensures Contents() == Started(old(Contents()), audio, sid, env) && Valid(Contents())
    {
      hide Valid, Kill, VideoStarted, AudioStarted;
      StartedKeepsValid(Contents(), audio, sid, env);
      var id: bytes;
      if sid.Some? {
        if sid.value !in sessions { return; }
        id := sid.value;
      } else {
        if |sessions| != 1 { return; }
        assert sessions != map[];
        id :| id in sessions;
        OnlyOne(sessions, id, Chosen(sessions, sid).value);
      }
      var session := sessions[id];
      sessions := sessions - {id};
      StopChild(session.id);
      StopAudioChild(session.id);
      StopAudioProxy(session.id);
      StopVideoProxy(session.id);
      liveConnections := |children|;
      var ok := StartVideo(session, env);
      if ok { StartAudio(session, env); }
    }

    method StartVideo(session: Session, env: StartEnv) returns (ok: bool)
      modifies this
      ensures (Contents(), ok) == VideoStarted(old(Contents()), session, env)
    {
      VideoStartedIs(Contents(), session, env);
      hide VideoStarted;
      if !env.videoPair { return false; }
      if |session.videoKey| != 30 { return false; }
      var proxy := SpawnFor(VideoProxy, session.id);
      if env.videoSpawn {
        var child := SpawnFor(VideoProcess, session.id);
        children := children[session.id := child];
        videoProxies := videoProxies[session.id := proxy];
        liveConnections := |children|;
        ok := true;
      } else {
        running := running - {proxy};
        ok := false;
      }
    }

    method StartAudio(session: Session, env: StartEnv)
      modifies this
      ensures Contents() == AudioStarted(old(Contents()), session, audio, env)
    {
      var audioEnabled := audio && session.audioKey != [] && session.audioSocket;
      if !audioEnabled || !env.audioPair || !env.audioSpawn { return; }
      var child := SpawnFor(AudioProcess, session.id);
      audioChildren := audioChildren[session.id := child];
      if |session.audioKey| == 30 {
        var proxy := SpawnFor(AudioProxy, session.id);
        audioProxies := audioProxies[session.id := proxy];
      }
    }

    method EndSession(sid: Option<bytes>)
      requires Valid(Contents())
      modifies this
      ensures Contents() == Ended(old(Contents()), sid) && Valid(Contents())
    {
      EndedKeepsValid(Contents(), sid);
      hide Valid, Ended;
      if sid.Some? {
        EndOne(sid.value);
      } else {
        EndAll();
      }
    }

    method EndOne(sid: bytes)
      modifies this
      ensures Contents() == Ended(old(Contents()), Some(sid))
    {
      hide Kill;
      StopChild(sid);
      StopAudioChild(sid);
      StopAudioProxy(sid);
      StopVideoProxy(sid);
      assert Contents() == TearDown(old(Contents()), sid);
      hide TearDown;
      sessions := sessions - {sid};
      liveConnections := |children|;
    }

    method EndAll()
      requires Valid(Contents())
      modifies this
      ensures Contents() == Ended(old(Contents()), None)
    {
      HeldAreValues(Contents());
      hide Valid, IsHeld;
      KillAll(children);
      children := map[];
      KillAll(audioChildren);
      audioChildren := map[];
      KillAll(audioProxies);
      audioProxies := map[];
      KillAll(videoProxies);
      videoProxies := map[];
      sessions := map[];
      liveConnections := |children|;
    }

    /** `drain`: every entry once, in whatever order. */
    method KillAll(held: map<bytes, Handle>)
      modifies this`running
      ensures running == old(running) - held.Values
    {
      var rest := held;
      ghost var killed: set<Handle> := {};
      while rest != map[]
        invariant running == old(running) - killed && killed + rest.Values == held.Values
        decreases |rest|
      {
        var sid :| sid in rest;
        var h := rest[sid];
        running := running - {h};
        ValuesWithout(rest, sid);
        rest := rest - {sid};
        killed := killed + {h};
      }
    }
  }
}
