/** telephony/skinny_fixture.py: the registration session and the byte-oriented endpoint. */
module SkinnyEndpoint {
  import opened Bytes
  import opened Wrappers
  import opened SkinnyFrames
  import Pieces

  const ATA186_DEVICE_TYPE := 12
  const KEEP_ALIVE_MESSAGE := 0x0000
  const REGISTER_MESSAGE := 0x0001
  const REGISTER_ACK_MESSAGE := 0x0081
  const SET_RINGER_MESSAGE := 0x0085
  const KEEP_ALIVE_ACK_MESSAGE := 0x0100
  const REGISTER_BYTES := 44
  const DATE_FORMAT: seq<byte> := [0x44, 0x2D, 0x4D, 0x2D, 0x59, 0x00]

  // ----- Bodies -----

  /** `_fixed_ascii` of sixteen bytes: visible characters only, and at least one. */
  predicate NameOk(name: seq<byte>) {
    1 <= |name| <= 16 && forall i :: 0 <= i < |name| ==> 0x20 < name[i] <= 0x7E
  }

  /** `build_register_body`. */
  function RegisterBody(name: seq<byte>, userId: u32, instance_: u32, ip: u32, deviceType: u32, streams: u32,
    version: byte):
    (b: seq<byte>)
    requires NameOk(name)
    ensures |b| == REGISTER_BYTES
  {
    name + Zeros(16 - |name|) + Le32(userId) + Le32(instance_) + Le32(ip) + Le32(deviceType) + Le32(streams)
    + Le32(0) + [version] + Zeros(3)
  }

  datatype Registration = Registration(name: seq<byte>, deviceType: u32, version: byte)

  /** `parse_register_body`. */
  function ParseRegister(body: seq<byte>): Result<Registration, Fault> {
    if |body| < REGISTER_BYTES || |body| > MAX_BODY_BYTES then Err(BadRegister)
    else
      var field := body[..16];
      var name := BeforeZero(field);
      if exists i :: |name| < i < 16 && field[i] != 0 then Err(BadRegister)
      else if !NameOk(name) then Err(BadRegister)
      else Ok(Registration(name, LeU32At(body, 28), body[40]))
  }

  /** Exactly the register bodies that parse: bounded ones whose first field is a padded visible name. */
  lemma RegisterParsesIff(body: seq<byte>, r: Registration)
    ensures ParseRegister(body) == Ok(r) <==>
      && REGISTER_BYTES <= |body| <= MAX_BODY_BYTES
      && NameOk(r.name) && body[..16] == r.name + Zeros(16 - |r.name|)
      && r.deviceType == LeU32At(body, 28) && r.version == body[40]
  {
    hide LeU32At;
    if REGISTER_BYTES <= |body| <= MAX_BODY_BYTES {
      var field := body[..16];
      if NameOk(r.name) && field == r.name + Zeros(16 - |r.name|) {
        BeforePadding(r.name, Zeros(16 - |r.name|));
      }
      if ParseRegister(body) == Ok(r) {
        assert field == field[..|r.name|] + field[|r.name|..];
        assert field[|r.name|..] == Zeros(16 - |r.name|);
      }
    }
  }

  /** What a built body parses to. */
  lemma RegisterRoundTrip(name: seq<byte>, userId: u32, instance_: u32, ip: u32, deviceType: u32, streams: u32,
    version: byte)
    requires NameOk(name)
    ensures ParseRegister(RegisterBody(name, userId, instance_, ip, deviceType, streams, version))
      == Ok(Registration(name, deviceType, version))
  {
    hide ParseRegister;
    var body := RegisterBody(name, userId, instance_, ip, deviceType, streams, version);
    assert body[..16] == name + Zeros(16 - |name|);
    assert body[28..32] == Le32(deviceType);
    WordRoundTrip(deviceType);
    RegisterParsesIff(body, Registration(name, deviceType, version));
  }

  lemma {:induction false} BeforePadding(name: seq<byte>, padding: seq<byte>)
    requires forall i :: 0 <= i < |name| ==> name[i] != 0
    requires forall i :: 0 <= i < |padding| ==> padding[i] == 0
    ensures BeforeZero(name + padding) == name
  {
    if name != [] {
      BeforePadding(name[1..], padding);
      assert (name + padding)[1..] == name[1..] + padding;
    }
  }

  function RegisterAckBody(seconds: u32): (b: seq<byte>)
    ensures |b| == 20
  {
    Le32(seconds) + DATE_FORMAT + Zeros(2) + Le32(seconds) + Zeros(4)
  }

  function RingerBody(mode: u32): (b: seq<byte>)
    ensures |b| == 20
  {
    Le32(mode) + Le32(0) + Le32(0) + Le32(0) + Le32(0)
  }

  // ----- The session -----

  /** What the session was made for: a device name, and an interval between one second and an hour. */
  datatype Config = Config(deviceName: seq<byte>, keepaliveSeconds: int)
  {
    predicate Valid() {
      NameOk(deviceName) && 1 <= keepaliveSeconds <= 3600
    }
  }

  datatype Session = Session(registered: bool, failed: bool)

  const IDLE := Session(false, false)
  const BROKEN := Session(false, true)

  function Ack(cfg: Config): (f: Frame)
    requires cfg.Valid()
    ensures ValidFrame(f)
  {
    Frame(REGISTER_ACK_MESSAGE, RegisterAckBody(cfg.keepaliveSeconds), 0)
  }

  const KEEP_ALIVE_ACK := Frame(KEEP_ALIVE_ACK_MESSAGE, [], 0)

  /** A frame that registers the expected device. */
  function RegisterFault(cfg: Config, f: Frame): Option<Fault> {
    if f.messageId != REGISTER_MESSAGE then Some(RegisterRequired)
    else match ParseRegister(f.body)
      case Err(fault) => Some(fault)
      case Ok(registration) =>
        if registration.name != cfg.deviceName then Some(BadIdentity)
        else if registration.deviceType != ATA186_DEVICE_TYPE then Some(BadDeviceType)
        else None
  }

  /** The frames that register the expected device: its padded name in front, its device type at byte 28. */
  predicate Registers(cfg: Config, f: Frame)
    requires cfg.Valid()
  {
    && f.messageId == REGISTER_MESSAGE && REGISTER_BYTES <= |f.body| <= MAX_BODY_BYTES
    && f.body[..16] == cfg.deviceName + Zeros(16 - |cfg.deviceName|) && LeU32At(f.body, 28) == ATA186_DEVICE_TYPE
  }

  /** Exactly those are not refused. */
  lemma RegistersIff(cfg: Config, f: Frame)
    requires cfg.Valid()
    ensures RegisterFault(cfg, f) == None <==> Registers(cfg, f)
  {
    hide ParseRegister, LeU32At;
    if REGISTER_BYTES <= |f.body| <= MAX_BODY_BYTES {
      RegisterParsesIff(f.body, Registration(cfg.deviceName, ATA186_DEVICE_TYPE, f.body[40]));
    }
    if ParseRegister(f.body).Ok? {
      RegisterParsesIff(f.body, ParseRegister(f.body).value);
    }
  }

  function SessionReceive(cfg: Config, s: Session, f: Frame): (r: (Session, Result<Frame, Fault>))
    requires cfg.Valid()
    ensures r.1.Ok? ==> ValidFrame(r.1.value)
  {
    if s.failed then (s, Err(ErrorState))
    else if !ValidFrame(f) then (BROKEN, Err(BadFrame))
    else if !s.registered then
      match RegisterFault(cfg, f)
      case Some(fault) => (BROKEN, Err(fault))
      case None => (Session(true, false), Ok(Ack(cfg)))
    else if f.messageId == KEEP_ALIVE_MESSAGE && f.body == [] then (s, Ok(KEEP_ALIVE_ACK))
    else (BROKEN, Err(Unsupported))
  }

  function SessionRinger(s: Session, mode: int): (r: (Session, Result<Frame, Fault>))
    ensures r.1.Ok? ==> ValidFrame(r.1.value)
  {
    if s.failed then (s, Err(ErrorState))
    else if !s.registered then (BROKEN, Err(Unregistered))
    else if !(1 <= mode <= 3) then (BROKEN, Err(BadRinger))
    else (s, Ok(Frame(SET_RINGER_MESSAGE, RingerBody(mode), 0)))
  }

  class FixtureSession {
    const cfg: Config
    var registered: bool
    var failed: bool

    function State(): Session
      reads this
    {
      Session(registered, failed)
    }

    constructor (cfg: Config)
      requires cfg.Valid()
      ensures this.cfg == cfg && State() == IDLE
    {
      this.cfg := cfg;
      registered, failed := false, false;
    }

    method Reset()
      modifies this
      ensures State() == IDLE
    {
      registered, failed := false, false;
    }

    method Fail()
      modifies this
      ensures State() == BROKEN
    {
      registered, failed := false, true;
    }

    method Receive(f: Frame) returns (r: Result<Frame, Fault>)
      requires cfg.Valid()
      modifies this
      ensures (State(), r) == SessionReceive(cfg, old(State()), f)
    {
      if failed {
        return Err(ErrorState);
      }
      if !ValidFrame(f) {
        Fail();
        return Err(BadFrame);
      }
      if !registered {
        var fault := RegisterFault(cfg, f);
        if fault.Some? {
          Fail();
          return Err(fault.value);
        }
        registered := true;
        return Ok(Ack(cfg));
      }
      if f.messageId == KEEP_ALIVE_MESSAGE && f.body == [] {
        return Ok(KEEP_ALIVE_ACK);
      }
      Fail();
      return Err(Unsupported);
    }

    method Ringer(mode: int) returns (r: Result<Frame, Fault>)
      modifies this
      ensures (State(), r) == SessionRinger(old(State()), mode)
    {
      if failed {
        return Err(ErrorState);
      }
      if !registered {
        Fail();
        return Err(Unregistered);
      }
      if !(1 <= mode <= 3) {
        Fail();
        return Err(BadRinger);
      }
      return Ok(Frame(SET_RINGER_MESSAGE, RingerBody(mode), 0));
    }
  }

  // ----- The endpoint -----

  datatype Endpoint = Endpoint(session: Session, decoder: Decoder)
  {
    predicate Failed() {
      session.failed || decoder.failed
    }
  }

  const OPEN := Endpoint(IDLE, FRESH)
  const CLOSED := Endpoint(BROKEN, DEAD)

  /** The session's replies to frames in order, up to the first fault. */
  function Replies(cfg: Config, s: Session, frames: seq<Frame>): (r: (Session, Result<seq<Frame>, Fault>))
    requires cfg.Valid()
    ensures r.1.Ok? ==> ValidFrames(r.1.value) && |r.1.value| == |frames|
    decreases |frames|
  {
    if frames == [] then (s, Ok([]))
    else
      var (s1, first) := SessionReceive(cfg, s, frames[0]);
      if first.Err? then (s1, Err(first.fault))
      else
        var (s2, more) := Replies(cfg, s1, frames[1..]);
        if more.Err? then (s2, more) else (s2, Ok([first.value] + more.value))
  }

  /** A result with the replies already sent put in front. */
  function After(sent: seq<Frame>, r: (Session, Result<seq<Frame>, Fault>)): (Session, Result<seq<Frame>, Fault>) {
    (r.0, if r.1.Err? then r.1 else Ok(sent + r.1.value))
  }

  lemma AfterNothing(r: (Session, Result<seq<Frame>, Fault>), sent: seq<Frame>)
    ensures After([], r) == r && After(sent, (r.0, Ok([]))) == (r.0, Ok(sent))
  {
    assert sent + [] == sent;
    assert r.1.Ok? ==> [] + r.1.value == r.1.value;
  }

  lemma RepliesStep(cfg: Config, s: Session, frames: seq<Frame>, sent: seq<Frame>)
    requires cfg.Valid() && frames != []
    ensures var (s1, first) := SessionReceive(cfg, s, frames[0]);
      && (first.Err? ==> After(sent, Replies(cfg, s, frames)) == (s1, Err(first.fault)))
      && (first.Ok? ==>
        After(sent, Replies(cfg, s, frames)) == After(sent + [first.value], Replies(cfg, s1, frames[1..])))
  {
    hide SessionReceive;
    var (s1, first) := SessionReceive(cfg, s, frames[0]);
    if first.Ok? && Replies(cfg, s1, frames[1..]).1.Ok? {
      var more := Replies(cfg, s1, frames[1..]).1.value;
      assert sent + ([first.value] + more) == sent + [first.value] + more;
    }
  }

  function EndpointReceive(cfg: Config, e: Endpoint, data: seq<byte>): (Endpoint, Result<seq<byte>, Fault>)
    requires cfg.Valid()
  {
    if e.Failed() then (e, Err(ErrorState))
    else
      var (d, frames) := Fed(e.decoder, data);
      if frames.Err? then (CLOSED, Err(frames.fault))
      else
        var (s, replies) := Replies(cfg, e.session, frames.value);
        if replies.Err? then (CLOSED, Err(replies.fault)) else (Endpoint(s, d), Ok(EncodeAll(replies.value)))
  }

  function EndpointRinger(e: Endpoint, mode: int): (Endpoint, Result<seq<byte>, Fault>) {
    if e.Failed() then (e, Err(ErrorState))
    else
      var (s, frame) := SessionRinger(e.session, mode);
      if frame.Err? then (CLOSED, Err(frame.fault)) else (Endpoint(s, e.decoder), Ok(Wire(frame.value)))
  }

  function EndpointFinish(e: Endpoint): (Endpoint, Option<Fault>) {
    if e.Failed() then (e, Some(ErrorState))
    else
      var (d, fault) := Finished(e.decoder);
      if fault.Some? then (CLOSED, fault) else (Endpoint(e.session, d), None)
  }

  class FixtureEndpoint {
    const session: FixtureSession
    const decoder: FrameDecoder

    function State(): Endpoint
      reads session, decoder
    {
      Endpoint(session.State(), decoder.State())
    }

    constructor (session: FixtureSession, decoder: FrameDecoder)
      ensures this.session == session && this.decoder == decoder
    {
      this.session, this.decoder := session, decoder;
    }

    method Reset()
      modifies session, decoder
      ensures State() == OPEN
    {
      session.Reset();
      decoder.Reset();
    }

    method Fail()
      modifies session, decoder
      ensures State() == CLOSED
    {
      session.Fail();
      decoder.Fail();
    }

    method Receive(data: seq<byte>) returns (r: Result<seq<byte>, Fault>)
      requires session.cfg.Valid()
      modifies session, decoder
      ensures (State(), r) == EndpointReceive(session.cfg, old(State()), data)
    {
      hide Wire, Scan, SessionReceive, After;
      if session.failed || decoder.failed {
        return Err(ErrorState);
      }
      var frames := decoder.Feed(data);
      if frames.Err? {
        Fail();
        return Err(frames.fault);
      }
      ghost var cfg, start := session.cfg, session.State();
      var out: seq<byte> := [];
      ghost var sent: seq<Frame> := [];
      assert frames.value[0..] == frames.value;
      AfterNothing(Replies(cfg, start, frames.value), sent);
      for i := 0 to |frames.value|
        invariant decoder.State() == Fed(old(decoder.State()), data).0
        invariant ValidFrames(sent) && out == EncodeAll(sent)
        invariant Replies(cfg, start, frames.value) == After(sent, Replies(cfg, session.State(), frames.value[i..]))
      {
        RepliesStep(cfg, session.State(), frames.value[i..], sent);
        var reply := session.Receive(frames.value[i]);
        assert frames.value[i..][1..] == frames.value[i + 1..];
        if reply.Err? {
          Fail();
          return Err(reply.fault);
        }
        EncodeAllAppend(sent, [reply.value]);
        assert EncodeAll([reply.value]) == Wire(reply.value) + [];
        out := out + Wire(reply.value);
        sent := sent + [reply.value];
      }
      AfterNothing((session.State(), Ok([])), sent);
      return Ok(out);
    }

    method Ringer(mode: int) returns (r: Result<seq<byte>, Fault>)
      modifies session, decoder
      ensures (State(), r) == EndpointRinger(old(State()), mode)
    {
      if session.failed || decoder.failed {
        return Err(ErrorState);
      }
      var frame := session.Ringer(mode);
      if frame.Err? {
        Fail();
        return Err(frame.fault);
      }
      return Ok(Wire(frame.value));
    }

    method Finish() returns (fault: Option<Fault>)
      modifies session, decoder
      ensures (State(), fault) == EndpointFinish(old(State()))
    {
      if session.failed || decoder.failed {
        return Some(ErrorState);
      }
      fault := decoder.Finish();
      if fault.Some? {
        Fail();
      }
    }
  }

  // ----- Runs -----

  datatype Call = Receive(data: seq<byte>) | Ringer(mode: int) | Finish | Reset

  /** An endpoint, the frames it has accepted since the last reset, and the bytes `receive` returned for them. */
  datatype Run = Run(endpoint: Endpoint, accepted: seq<Frame>, replied: seq<byte>)

  function Step(cfg: Config, r: Run, call: Call): Run
    requires cfg.Valid()
  {
    match call
    case Reset => Run(OPEN, [], [])
    case Ringer(mode) => r.(endpoint := EndpointRinger(r.endpoint, mode).0)
    case Finish => r.(endpoint := EndpointFinish(r.endpoint).0)
    case Receive(data) =>
      var (e, reply) := EndpointReceive(cfg, r.endpoint, data);
      if reply.Err? then r.(endpoint := e)
      else Run(e, r.accepted + Fed(r.endpoint.decoder, data).1.value, r.replied + reply.value)
  }

  function AfterCalls(cfg: Config, calls: seq<Call>): Run
    requires cfg.Valid()
  {
    if calls == [] then Run(OPEN, [], []) else Step(cfg, AfterCalls(cfg, calls[..|calls| - 1]), calls[|calls| - 1])
  }

  /** The replies that `n` accepted frames earn: one acknowledgement, then keepalive acknowledgements. */
  function Earned(cfg: Config, n: nat): (fs: seq<Frame>)
    requires cfg.Valid()
    ensures ValidFrames(fs) && |fs| == n
  {
    seq(n, i => if i == 0 then Ack(cfg) else KEEP_ALIVE_ACK)
  }

  /** A registration by the expected device, then empty keepalives. */
  ghost predicate Conversation(cfg: Config, frames: seq<Frame>)
    requires cfg.Valid()
  {
    forall i :: 0 <= i < |frames| ==>
      if i == 0 then Registers(cfg, frames[0])
      else frames[i].messageId == KEEP_ALIVE_MESSAGE && frames[i].body == []
  }

  ghost predicate RunInv(cfg: Config, r: Run)
    requires cfg.Valid()
  {
    var e := r.endpoint;
    && e.session.failed == e.decoder.failed
    && (e.Failed() ==> e == CLOSED)
    && Conversation(cfg, r.accepted)
    && (!e.Failed() ==> (e.session.registered <==> r.accepted != []))
    && r.replied == EncodeAll(Earned(cfg, |r.accepted|))
  }

  /** What the session makes of the next frame of a conversation, and of any other. */
  lemma ReceiveIff(cfg: Config, s: Session, before: seq<Frame>, f: Frame)
    requires cfg.Valid() && !s.failed && Conversation(cfg, before) && (s.registered <==> before != []) && ValidFrame(f)
    ensures SessionReceive(cfg, s, f).1.Ok? <==> Conversation(cfg, before + [f])
    ensures SessionReceive(cfg, s, f).1.Ok? ==>
      SessionReceive(cfg, s, f) == (Session(true, false), Ok(if before == [] then Ack(cfg) else KEEP_ALIVE_ACK))
    ensures SessionReceive(cfg, s, f).1.Err? ==> SessionReceive(cfg, s, f).0 == BROKEN
  {
    hide RegisterFault, Registers;
    RegistersIff(cfg, f);
    var all := before + [f];
    assert all[|before|] == f;
    assert forall i :: 0 <= i < |before| ==> all[i] == before[i];
  }

  lemma ConversationFront(cfg: Config, frames: seq<Frame>, n: nat)
    requires cfg.Valid() && Conversation(cfg, frames) && n <= |frames|
    ensures Conversation(cfg, frames[..n])
  {
    hide Registers;
  }

  /** The session accepts frames on top of a conversation exactly when they continue it, with the next replies. */
  lemma {:induction false} RepliesContinue(cfg: Config, s: Session, before: seq<Frame>, frames: seq<Frame>)
    requires cfg.Valid() && !s.failed && Conversation(cfg, before) && (s.registered <==> before != [])
    requires ValidFrames(frames)
    ensures Replies(cfg, s, frames).1.Ok? <==> Conversation(cfg, before + frames)
    ensures Replies(cfg, s, frames).1.Ok? ==>
      var (s1, r) := Replies(cfg, s, frames);
      && !s1.failed && (s1.registered <==> before + frames != [])
      && Earned(cfg, |before|) + r.value == Earned(cfg, |before + frames|)
    decreases |frames|
  {
    hide SessionReceive, Conversation;
    if frames == [] {
      assert before + frames == before;
    } else {
      var next := before + [frames[0]];
      ReceiveIff(cfg, s, before, frames[0]);
      assert next + frames[1..] == before + frames;
      assert (before + frames)[..|next|] == next;
      if Conversation(cfg, before + frames) {
        ConversationFront(cfg, before + frames, |next|);
      }
      if SessionReceive(cfg, s, frames[0]).1.Ok? {
        var (s1, first) := SessionReceive(cfg, s, frames[0]);
        RepliesContinue(cfg, s1, next, frames[1..]);
        assert Earned(cfg, |before|) + [first.value] == Earned(cfg, |before| + 1);
      }
    }
  }

  lemma StepKeepsInv(cfg: Config, r: Run, call: Call)
    requires cfg.Valid() && RunInv(cfg, r)
    ensures RunInv(cfg, Step(cfg, r, call))
  {
    hide Scan, Wire, EncodeAll, Earned, Conversation, Replies;
    if call.Receive? && EndpointReceive(cfg, r.endpoint, call.data).1.Ok? {
      var frames := Fed(r.endpoint.decoder, call.data).1.value;
      FedValid(r.endpoint.decoder, call.data);
      RepliesContinue(cfg, r.endpoint.session, r.accepted, frames);
      EncodeAllAppend(Earned(cfg, |r.accepted|), Replies(cfg, r.endpoint.session, frames).1.value);
    }
    NothingSaid(cfg);
  }

  lemma NothingSaid(cfg: Config)
    requires cfg.Valid()
    ensures Conversation(cfg, []) && EncodeAll(Earned(cfg, 0)) == []
  {
  }

  lemma FedValid(d: Decoder, data: seq<byte>)
    requires Fed(d, data).1.Ok?
    ensures ValidFrames(Fed(d, data).1.value)
  {
    hide Scan;
    ScanRewrites(d.buffer + data);
  }

  /**
   Over every sequence of calls: both failure flags agree, a failed endpoint is not registered,
   what was accepted since the last reset is a registration and keepalives, and the bytes returned
   for it decode to one acknowledgement followed by keepalive acknowledgements, one for each frame.
   */
  lemma {:induction false} EveryRun(cfg: Config, calls: seq<Call>)
    requires cfg.Valid()
    ensures var r := AfterCalls(cfg, calls);
      && RunInv(cfg, r)
      && Scan(r.replied) == Scanned(Earned(cfg, |r.accepted|), [], true)
  {
    if calls != [] {
      EveryRun(cfg, calls[..|calls| - 1]);
      StepKeepsInv(cfg, AfterCalls(cfg, calls[..|calls| - 1]), calls[|calls| - 1]);
    }
    ScanEncoded(Earned(cfg, |AfterCalls(cfg, calls).accepted|));
  }

  /** Failure absorbs every call but a reset, whatever comes before. */
  lemma {:induction false} FailureAbsorbs(cfg: Config, calls: seq<Call>, more: seq<Call>)
    requires cfg.Valid() && AfterCalls(cfg, calls).endpoint.Failed()
    requires forall i :: 0 <= i < |more| ==> more[i] != Reset
    ensures AfterCalls(cfg, calls + more) == AfterCalls(cfg, calls)
  {
    if more == [] {
      assert calls + more == calls;
    } else {
      var n := |more| - 1;
      FailureAbsorbs(cfg, calls, more[..n]);
      assert (calls + more)[..|calls + more| - 1] == calls + more[..n];
    }
  }

  // ----- Conversations are answered -----

  /** Each chunk given to `receive`, in order. */
  function Receives(chunks: seq<seq<byte>>): (calls: seq<Call>)
    ensures |calls| == |chunks|
  {
    seq(|chunks|, i requires 0 <= i < |chunks| => Receive(chunks[i]))
  }

  lemma {:induction false} FedAllSnoc(d: Decoder, chunks: seq<seq<byte>>, last: seq<byte>)
    requires FedAll(d, chunks).1.Ok?
    ensures FedAll(d, chunks + [last]).1.Ok? ==>
      var (d1, r) := FedAll(d, chunks);
      var (d2, more) := Fed(d1, last);
      more.Ok? && FedAll(d, chunks + [last]) == (d2, Ok(r.value + more.value))
    decreases |chunks|
  {
    hide Fed;
    var all := chunks + [last];
    if chunks == [] {
      assert all == [last] && all[1..] == [];
      var more := Fed(d, last).1;
      if more.Ok? {
        assert FedAll(Fed(d, last).0, all[1..]) == (Fed(d, last).0, Ok([]));
        assert more.value + [] == [] + more.value;
      }
    } else {
      assert all[0] == chunks[0] && all[1..] == chunks[1..] + [last];
      var (d1, first) := Fed(d, chunks[0]);
      FedAllSnoc(d1, chunks[1..], last);
      if FedAll(d, all).1.Ok? {
        var rest, more := FedAll(d1, chunks[1..]).1.value, Fed(FedAll(d1, chunks[1..]).0, last).1.value;
        assert first.value + (rest + more) == first.value + rest + more;
      }
    }
  }

  /**
   A registration of the expected device followed by keepalives is accepted in full
   and answered in full, however its bytes are split into chunks of at most 192.
   */
  lemma {:induction false} ConversationAnswered(cfg: Config, fs: seq<Frame>, chunks: seq<seq<byte>>)
    requires cfg.Valid() && ValidFrames(fs) && Conversation(cfg, fs)
    requires Pieces.Flat(chunks) <= EncodeAll(fs) && forall i :: 0 <= i < |chunks| ==> |chunks[i]| <= SAFE_CHUNK
    ensures var r, fed := AfterCalls(cfg, Receives(chunks)), FedAll(FRESH, chunks);
      && fed.1.Ok? && fed.1.value <= fs && !r.endpoint.Failed() && r.endpoint.decoder == fed.0
      && r.accepted == fed.1.value && r.replied == EncodeAll(Earned(cfg, |r.accepted|))
      && (Pieces.Flat(chunks) == EncodeAll(fs) ==> r.accepted == fs && r.endpoint.decoder == FRESH)
    decreases |chunks|
  {
    hide Fed, Replies, Scan, Conversation, EncodeAll, Wire, Pieces.Flat;
    FreshStream(fs, chunks);
    EveryRun(cfg, Receives(chunks));
    if chunks == [] {
    } else {
      var n := |chunks| - 1;
      FlatFront(chunks);
      ConversationAnswered(cfg, fs, chunks[..n]);
      assert chunks == chunks[..n] + [chunks[n]];
      FedAllSnoc(FRESH, chunks[..n], chunks[n]);
      assert Receives(chunks)[..n] == Receives(chunks[..n]);
      var before := AfterCalls(cfg, Receives(chunks[..n]));
      EveryRun(cfg, Receives(chunks[..n]));
      var frames := Fed(before.endpoint.decoder, chunks[n]).1.value;
      assert before.accepted + frames <= fs;
      ValidParts(fs, before.accepted, frames);
      ConversationFront(cfg, fs, |before.accepted + frames|);
      assert fs[..|before.accepted + frames|] == before.accepted + frames;
      RepliesContinue(cfg, before.endpoint.session, before.accepted, frames);
    }
  }

  lemma FreshStream(fs: seq<Frame>, chunks: seq<seq<byte>>)
    requires ValidFrames(fs) && Pieces.Flat(chunks) <= EncodeAll(fs)
    requires forall i :: 0 <= i < |chunks| ==> |chunks[i]| <= SAFE_CHUNK
    ensures var (d1, r) := FedAll(FRESH, chunks);
      && !d1.failed && r.Ok? && r.value <= fs
      && (Pieces.Flat(chunks) == EncodeAll(fs) ==> r.value == fs && d1 == FRESH)
  {
    hide Fed, Scan, Wire, Pieces.Flat;
    assert FRESH.buffer + Pieces.Flat(chunks) == Pieces.Flat(chunks);
    StreamSafe(FRESH, fs, chunks);
  }

  lemma FlatFront(chunks: seq<seq<byte>>)
    requires chunks != []
    ensures Pieces.Flat(chunks[..|chunks| - 1]) <= Pieces.Flat(chunks)
  {
  }

  lemma ValidParts(fs: seq<Frame>, a: seq<Frame>, b: seq<Frame>)
    requires ValidFrames(fs) && a + b <= fs
    ensures ValidFrames(a) && ValidFrames(b)
  {
    assert forall i :: 0 <= i < |a| ==> a[i] == fs[i];
    assert forall i :: 0 <= i < |b| ==> b[i] == fs[|a| + i];
  }

  // ----- Ringing -----

  /** What `ringer` does in every run: it rings exactly a registered, unbroken endpoint in one of three modes. */
  lemma RingerIff(cfg: Config, calls: seq<Call>, mode: int)
    requires cfg.Valid()
    ensures var r := AfterCalls(cfg, calls);
      var (e, bytes) := EndpointRinger(r.endpoint, mode);
      && (bytes.Ok? <==> !r.endpoint.Failed() && r.accepted != [] && 1 <= mode <= 3)
      && (bytes.Ok? ==>
        && e == r.endpoint
        && exists body ::
          && Scan(bytes.value) == Scanned([Frame(SET_RINGER_MESSAGE, body, 0)], [], true)
          && |body| == 20 && LeU32At(body, 0) == mode && body[4..] == Zeros(16))
      && (bytes.Err? ==> e == CLOSED)
  {
    hide Scan, Wire, AfterCalls, EncodeAll, RingerBody, Conversation, Zeros;
    EveryRun(cfg, calls);
    if 1 <= mode <= 3 {
      RingerFields(mode);
      RingerScans(Frame(SET_RINGER_MESSAGE, RingerBody(mode), 0));
    }
  }

  lemma RingerScans(f: Frame)
    requires ValidFrame(f)
    ensures Scan(Wire(f)) == Scanned([f], [], true)
  {
    hide Scan, Wire;
    ScanEncoded([f]);
    assert [f][1..] == [] && EncodeAll([]) == [];
    assert EncodeAll([f]) == Wire(f) + [] == Wire(f);
  }

  lemma RingerFields(mode: u32)
    ensures LeU32At(RingerBody(mode), 0) == mode && RingerBody(mode)[4..] == Zeros(16)
  {
    hide Value, Digits, Le32;
    assert RingerBody(mode)[0..4] == Le32(mode);
    WordRoundTrip(mode);
    ZeroWord();
    assert RingerBody(mode)[4..] == Zeros(4) + Zeros(4) + Zeros(4) + Zeros(4);
  }

  lemma ZeroWord()
    ensures Le32(0) == Zeros(4)
  {
    assert Digits(0, 1) == [0];
    assert Digits(0, 2) == [0, 0];
    assert Digits(0, 3) == [0, 0, 0];
  }

  /** The acknowledgement announces the keepalive interval, twice. */
  lemma AckAnnounces(cfg: Config)
    requires cfg.Valid()
    ensures LeU32At(Ack(cfg).body, 0) == LeU32At(Ack(cfg).body, 12) == cfg.keepaliveSeconds
    ensures Ack(cfg).messageId == 0x81 && Ack(cfg).body[4..10] == DATE_FORMAT
  {
    hide Value, Digits;
    var body := Ack(cfg).body;
    assert body[0..4] == Le32(cfg.keepaliveSeconds) && body[12..16] == Le32(cfg.keepaliveSeconds);
    WordRoundTrip(cfg.keepaliveSeconds);
  }
}
