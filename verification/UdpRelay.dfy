/** The UDP relay: what one datagram does to the store, what it answers, and how the counters
    account for it. */
module UdpRelay {
  import opened Prelude
  import opened RateLimit
  import opened Admission
  import opened Transcript
  import C = Codec
  import opened StoreModel
  import opened StoreDeletion
  import opened StoreAdmission
  import opened StoreInvariant
  import opened StoreRooms
  import opened StoreRuns
  import opened StoreCharging
  import opened StoreNames
  import opened Identifier
  import SF = StoreFreshness
  import SO = StoreObject

  // ---------------------------------------------------------------- one datagram

  /** What becomes of a datagram: it is dropped for a reason, accepted without an answer, answered,
      relayed, or the end of the relay. What is sent takes that many bytes. */
  datatype Effect =
    | Dropped(reason: Reason)
    | Quiet
    | Replied(sent: C.Envelope, bytes: nat, to: Endpoint)
    | Relayed(sent: C.Envelope, bytes: nat, recipients: seq<Endpoint>)
    | Fatal

  function NormalizeEndpoint(e: Endpoint): Endpoint {
    if e.IsValid() then Endpoint(Unmap(e.addr), e.port) else NO_ENDPOINT
  }

  function ProtocolRejectReason(f: C.Failure): Reason {
    match f
    case Oversized => RejectOversized
    case UnsupportedVersion => RejectUnsupportedVersion
    case Malformed => RejectMalformed
  }

  /** Losing the random source is fatal, any other reason is a drop. */
  function Rejected(reason: Reason): Effect { if reason.RejectFatalRandom? then Fatal else Dropped(reason) }

  function HelloRequest(e: C.Envelope, b: C.Body, endpoint: Endpoint, bytes: nat): ChallengeRequest
    requires b.Hello?
  {
    ChallengeRequest(e.roomID, e.sessionID, b.grantID, b.clientNonce, endpoint, bytes)
  }

  function AuthRequest(e: C.Envelope, b: C.Body, endpoint: Endpoint, bytes: nat): AuthenticateRequest
    requires b.Auth?
  {
    AuthenticateRequest(e.roomID, e.sessionID, b.candidateID, endpoint, e.authTag, bytes)
  }

  /** The transcript that an authenticated datagram must carry a tag for. */
  function PacketOf(e: C.Envelope, b: C.Body): Packet
    requires b.ClientData? || b.Ping?
  {
    if b.ClientData? then ClientDataMessage(REVISION, e.roomID, e.sessionID, b.bindingID, e.sequence, b.payload)
    else PingMessage(REVISION, e.roomID, e.sessionID, b.bindingID, e.sequence)
  }

  function ChallengeEnvelope(e: C.Envelope, r: ChallengeResult): C.Envelope {
    C.Envelope(REVISION, 0, [], e.sessionID, e.roomID,
      Some(C.Challenge(r.candidateID, r.serverNonce, SignedWrap(r.expiresUnixMS))), [], [])
  }

  function BoundEnvelope(e: C.Envelope, r: BoundResult): C.Envelope {
    C.Envelope(REVISION, 0, r.authTag, e.sessionID, e.roomID, Some(C.Bound(r.bindingID, SignedWrap(r.expiresUnixMS))),
      [], [])
  }

  function DataEnvelope(a: AdmittedClientData, payload: Bytes): C.Envelope {
    C.Envelope(REVISION, a.sequence, [], a.sessionID, a.roomID, Some(C.ServerData(a.senderParticipantID, payload)), [],
      [])
  }

  lemma WrapIsInt64(n: int)
    ensures SignedWrap(n) <= MAX_INT64
  {
  }

  /** A challenge is answered only with fewer bytes than it was asked for. */
  function AnswerHello(e: C.Envelope, answer: Answer<ChallengeResult>, bytes: nat, to: Endpoint): Effect {
    match answer
    case Reject(reason) => Rejected(reason)
    case Admit(result) =>
      WrapIsInt64(result.expiresUnixMS);
      match C.EncodeServer(ChallengeEnvelope(e, result))
      case Ok(size) => if size < bytes then Replied(ChallengeEnvelope(e, result), size, to) else Quiet
      case Err(_) => Quiet
  }

  function AnswerAuth(e: C.Envelope, answer: Answer<BoundResult>, to: Endpoint): Effect {
    match answer
    case Reject(reason) => Rejected(reason)
    case Admit(result) =>
      WrapIsInt64(result.expiresUnixMS);
      match C.EncodeServer(BoundEnvelope(e, result))
      case Ok(size) => Replied(BoundEnvelope(e, result), size, to)
      case Err(_) => Quiet
  }

  /** Fan-out of an admitted packet, at a later reading of the clock. */
  ghost function ServeFanout(s: State, limits: Limits, admitted: AdmittedClientData, payload: Bytes,
      later: int): (State, Effect)
    requires Inv(s, limits)
  {
    match C.EncodeServer(DataEnvelope(admitted, payload))
    case Err(failure) => (s, Dropped(ProtocolRejectReason(failure)))
    case Ok(size) =>
      var (s', answer) := AdmitFanout(s, limits, admitted, size, later);
      (s', match answer
           case Reject(reason) => Rejected(reason)
           case Admit(plan) => Relayed(DataEnvelope(admitted, payload), size, plan.recipients))
  }

  ghost function ServePacket(s: State, env: Env, e: C.Envelope, b: C.Body, endpoint: Endpoint, bytes: nat, now: int,
      later: int): (State, Effect)
    requires Inv(s, env.limits) && (b.ClientData? || b.Ping?)
  {
    hide Inv;
    var (s1, answer) := AdmitAuthenticated(s, env.limits, env.hmac, PacketOf(e, b), endpoint, e.authTag, bytes, now);
    PacketAdmitted(s, env, PacketOf(e, b), endpoint, e.authTag, bytes, now);
    match answer
    case Reject(reason) => (s1, Rejected(reason))
    case Admit(r) => if b.Ping? then (s1, Quiet)
      else ServeFanout(s1, env.limits, AdmittedBy(s1, r, e.sequence), b.payload, later)
  }

  /** An admitted packet leaves its grant bound. */
  lemma PacketAdmitted(s: State, env: Env, m: Packet, endpoint: Endpoint, authTag: Bytes, bytes: nat, now: int)
    requires Inv(s, env.limits)
    ensures var (s', answer) := AdmitAuthenticated(s, env.limits, env.hmac, m, endpoint, authTag, bytes, now);
      Inv(s', env.limits) && (answer.Admit? ==> answer.value in s'.heap && s'.heap[answer.value].binding.Some?)
  {
    hide Inv, AdmitAuthenticated, Evolves, SamePreauth, FromCurrentBinding;
    IngressKeepsInv(s, env.limits, env.hmac, m, endpoint, authTag, bytes, now);
  }

  ghost function Serve(s: State, env: Env, decoded: Result<C.Envelope, C.Failure>, source: Endpoint, bytes: nat,
      reading: ClockReading, later: int)
    : (State, Effect)
    requires Inv(s, env.limits)
  {
    hide Inv;
    var endpoint := NormalizeEndpoint(source);
    match decoded
    case Err(failure) =>
      var (s', ok) := ChargePreauth(s, env.limits, endpoint, bytes, reading.mono);
      (s', Dropped(if ok then ProtocolRejectReason(failure) else RejectRateLimited))
    case Ok(e) =>
      if e.body.None? then (s, Fatal)
      else match e.body.value
        case Hello(_, _, _) =>
          var (s', answer) := BeginChallenge(s, env.limits, env.random, HelloRequest(e, e.body.value, endpoint, bytes),
            reading);
          (s', AnswerHello(e, answer, bytes, endpoint))
        case Auth(_) =>
          var (s', answer) := Authenticate(s, env.limits, env.hmac, env.random,
            AuthRequest(e, e.body.value, endpoint, bytes), reading);
          (s', AnswerAuth(e, answer, endpoint))
        case ClientData(_, _) => ServePacket(s, env, e, e.body.value, endpoint, bytes, reading.mono, later)
        case Ping(_) => ServePacket(s, env, e, e.body.value, endpoint, bytes, reading.mono, later)
        case _ => (s, Fatal)
  }

  // ---------------------------------------------------------------- charging classes

  datatype Class = Unclassed | PreauthClass | IngressClass

  /** Who pays for a datagram: the pre-authentication class, unless it carries the tag of a
      current binding. A body that no client sends is not charged. */
  ghost function ClassOf(s: State, hmac: Hmac, decoded: Result<C.Envelope, C.Failure>, endpoint: Endpoint,
      now: int): Class {
    match decoded
    case Err(_) => PreauthClass
    case Ok(e) =>
      if e.body.None? then Unclassed
      else match e.body.value
        case Hello(_, _, _) => PreauthClass
        case Auth(_) => PreauthClass
        case ClientData(_, _) =>
          if FromCurrentBinding(s, hmac, PacketOf(e, e.body.value), endpoint, e.authTag, now) then IngressClass
          else PreauthClass
        case Ping(_) => if FromCurrentBinding(s, hmac, PacketOf(e, e.body.value), endpoint, e.authTag, now) then
          IngressClass else PreauthClass
        case _ => Unclassed
  }

  /** The six ingress charges of a packet on `r` were attempted, and after that only fan-out,
      if anything, was paid for: all six were taken, or the packet was dropped as rate limited
      and none was. */
  ghost predicate IngressOnly(s: State, s': State, r: Ref, bytes: nat, effect: Effect, now: int) {
    exists g: Gate ::
      && r in s.heap && Attempted(s.gate, g, IngressCharges(r, s.heap[r].roomID, bytes),
         effect != Dropped(RejectRateLimited), now)
      && SamePreauth(s.gate, g)
      && OnlyFanout(g, s'.gate) && (effect == Quiet || effect == Dropped(RejectRateLimited) ==> s'.gate == g)
  }

  /** Every datagram attempts exactly one class of charges: its class pays as one admission of
      that class, and is refused as rate limited exactly if it cannot; the other class is left
      alone. */
  lemma ServeChargesOneClass(s: State, env: Env, decoded: Result<C.Envelope, C.Failure>, source: Endpoint, bytes: nat,
      reading: ClockReading, later: int)
    requires Inv(s, env.limits) && env.limits.Valid()
    ensures var (s', effect) := Serve(s, env, decoded, source, bytes, reading, later);
      var endpoint := NormalizeEndpoint(source);
      match ClassOf(s, env.hmac, decoded, endpoint, reading.mono)
      case PreauthClass =>
        && AttemptsPreauth(s, s', env.limits, endpoint, bytes, effect != Dropped(RejectRateLimited), reading.mono)
        && !effect.Relayed?
      case IngressClass =>
        && decoded.value.body.value.bindingID in s.bindingsByID
        && IngressOnly(s, s', s.bindingsByID[decoded.value.body.value.bindingID], bytes, effect, reading.mono)
      case Unclassed => s' == s && effect.Fatal?
  {
    hide Inv, ChargePreauth, BeginChallenge, Authenticate, ServePacket, C.EncodeServer, AttemptsPreauth, IngressOnly,
         FromCurrentBinding;
    var endpoint := NormalizeEndpoint(source);
    match decoded {
      case Err(failure) => UndecodedPays(s, env.limits, endpoint, bytes, reading.mono);
      case Ok(e) =>
        if e.body.Some? {
          var b := e.body.value;
          match b {
            case Hello(_, _, _) => HelloChargesPreauth(s, env.limits, env.random, HelloRequest(e, b, endpoint, bytes),
              reading);
            case Auth(_) => AuthChargesPreauth(s, env.limits, env.hmac, env.random, AuthRequest(e, b, endpoint, bytes),
              reading);
            case ClientData(_, _) => PacketPays(s, env, e, b, endpoint, bytes, reading.mono, later);
            case Ping(_) => PacketPays(s, env, e, b, endpoint, bytes, reading.mono, later);
            case _ =>
          }
        }
    }
  }

  lemma UndecodedPays(s: State, limits: Limits, endpoint: Endpoint, bytes: nat, now: int)
    requires Inv(s, limits)
    ensures var (s1, ok) := ChargePreauth(s, limits, endpoint, bytes, now);
      AttemptsPreauth(s, s1, limits, endpoint, bytes, ok, now)
  {
    hide Inv, ChargePreauth;
    DropsReflexive(ChargePreauth(s, limits, endpoint, bytes, now).0.gate);
  }

  lemma PacketPays(s: State, env: Env, e: C.Envelope, b: C.Body, endpoint: Endpoint, bytes: nat, now: int, later: int)
    requires Inv(s, env.limits) && env.limits.Valid() && (b.ClientData? || b.Ping?)
    ensures var (s', effect) := ServePacket(s, env, e, b, endpoint, bytes, now, later);
      if FromCurrentBinding(s, env.hmac, PacketOf(e, b), endpoint, e.authTag, now)
      then b.bindingID in s.bindingsByID && IngressOnly(s, s', s.bindingsByID[b.bindingID], bytes, effect, now)
      else AttemptsPreauth(s, s', env.limits, endpoint, bytes, effect != Dropped(RejectRateLimited), now)
           && !effect.Relayed?
  {
    hide Inv, AdmitAuthenticated, AdmitFanout, C.EncodeServer, Evolves, SamePreauth, FromCurrentBinding,
         ConsumesSequence, Attempted,
         AttemptsPreauth, OnlyFanout, IngressCharges;
    PacketAdmitted(s, env, PacketOf(e, b), endpoint, e.authTag, bytes, now);
    var (s1, answer) := AdmitAuthenticated(s, env.limits, env.hmac, PacketOf(e, b), endpoint, e.authTag, bytes, now);
    IngressKeepsInv(s, env.limits, env.hmac, PacketOf(e, b), endpoint, e.authTag, bytes, now);
    if FromCurrentBinding(s, env.hmac, PacketOf(e, b), endpoint, e.authTag, now) {
      CurrentIsIndexed(s, env.hmac, PacketOf(e, b), endpoint, e.authTag, now);
      OnlyFanoutReflexive(s1.gate);
      var g := s1.gate;
      if answer.Admit? && b.ClientData? {
        var admitted := AdmittedBy(s1, answer.value, e.sequence);
        var size := C.EncodeServer(DataEnvelope(admitted, b.payload));
        if size.Ok? {
          FanoutChargesFanout(s1, env.limits, admitted, size.value, later);
          FanoutNotLimited(s1, env.limits, admitted, size.value, later);
        }
      }
    }
  }

  lemma FanoutNotLimited(s: State, limits: Limits, admitted: AdmittedClientData, outputBytes: int, now: int)
    requires Inv(s, limits) && limits.Valid()
    ensures var answer := AdmitFanout(s, limits, admitted, outputBytes, now).1;
      answer != Reject(RejectRateLimited) && answer != Reject(RejectFatalRandom)
  {
    hide Inv, AdmitFanout, Evolves, Audience, Attempted, Drops;
    FanoutKeepsInv(s, limits, admitted, outputBytes, now);
  }

  // ---------------------------------------------------------------- what serving keeps

  /** Serving keeps the store in order; a relayed packet goes to fewer endpoints than a room
      has places. */
  lemma ServeKeepsInv(s: State, env: Env, decoded: Result<C.Envelope, C.Failure>, source: Endpoint, bytes: nat,
      reading: ClockReading, later: int)
    requires Inv(s, env.limits) && env.limits.Valid()
    ensures var (s', effect) := Serve(s, env, decoded, source, bytes, reading, later);
      && Inv(s', env.limits)
      && effect != Dropped(RejectRevoked) && effect != Dropped(RejectFatalRandom)
      && (effect.Relayed? ==> |effect.recipients| < env.limits.maxRoomCapacity)
      && (effect.Replied? && decoded.Ok? && decoded.value.body.Some? && decoded.value.body.value.Hello? ==>
         effect.bytes < bytes)
  {
    hide Inv, ChargePreauth, BeginChallenge, Authenticate, ServePacket, C.EncodeServer, Evolves, Challenged,
         AuthenticatesAt, SameElsewhere;
    var endpoint := NormalizeEndpoint(source);
    match decoded {
      case Err(failure) => ChargePreauthKeepsInv(s, env.limits, endpoint, bytes, reading.mono);
      case Ok(e) =>
        if e.body.Some? {
          var b := e.body.value;
          match b {
            case Hello(_, _, _) => BeginChallengeKeepsInv(s, env.limits, env.random,
              HelloRequest(e, b, endpoint, bytes), reading);
            case Auth(_) =>
              AuthenticateKeepsInv(s, env.limits, env.hmac, env.random, AuthRequest(e, b, endpoint, bytes), reading);
              var answer := Authenticate(s, env.limits, env.hmac, env.random, AuthRequest(e, b, endpoint, bytes),
                reading).1;
              assert answer.Reject? ==> answer.reason != RejectRevoked;
            case ClientData(_, _) => PacketKeepsInv(s, env, e, b, endpoint, bytes, reading.mono, later);
            case Ping(_) => PacketKeepsInv(s, env, e, b, endpoint, bytes, reading.mono, later);
            case _ =>
          }
        }
    }
  }

  lemma PacketKeepsInv(s: State, env: Env, e: C.Envelope, b: C.Body, endpoint: Endpoint, bytes: nat, now: int,
      later: int)
    requires Inv(s, env.limits) && env.limits.Valid() && (b.ClientData? || b.Ping?)
    ensures var (s', effect) := ServePacket(s, env, e, b, endpoint, bytes, now, later);
      && Inv(s', env.limits)
      && effect != Dropped(RejectRevoked) && effect != Dropped(RejectFatalRandom) && !effect.Replied? && !effect.Fatal?
      && (effect.Relayed? ==> |effect.recipients| < env.limits.maxRoomCapacity)
  {
    hide Inv, AdmitAuthenticated, AdmitFanout, C.EncodeServer, Evolves, SamePreauth, FromCurrentBinding,
         ConsumesSequence, FanoutOutcome;
    PacketAdmitted(s, env, PacketOf(e, b), endpoint, e.authTag, bytes, now);
    var (s1, answer) := AdmitAuthenticated(s, env.limits, env.hmac, PacketOf(e, b), endpoint, e.authTag, bytes, now);
    IngressKeepsInv(s, env.limits, env.hmac, PacketOf(e, b), endpoint, e.authTag, bytes, now);
    if answer.Admit? && b.ClientData? {
      var admitted := AdmittedBy(s1, answer.value, e.sequence);
      var size := C.EncodeServer(DataEnvelope(admitted, b.payload));
      if size.Ok? {
        FanoutKeepsInv(s1, env.limits, admitted, size.value, later);
        FanoutIsSmall(s1, env.limits, admitted, size.value, later);
      }
    }
  }

  lemma FanoutIsSmall(s: State, limits: Limits, admitted: AdmittedClientData, outputBytes: nat, now: int)
    requires Inv(s, limits) && limits.Valid()
    ensures var answer := AdmitFanout(s, limits, admitted, outputBytes, now).1;
      && (answer.Admit? ==> |answer.value.recipients| < limits.maxRoomCapacity)
      && (answer.Reject? ==> answer.reason != RejectFatalRandom)
  {
    hide Inv, AdmitFanout, Evolves, Audience, Attempted, Drops;
    FanoutKeepsInv(s, limits, admitted, outputBytes, now);
    if SenderMatches(s, admitted) {
      var r := s.bindingsByID[admitted.bindingID];
      BindingIndexed(s, limits, admitted.bindingID);
      GrantFacts(s, limits, r);
      RoomShape(s, limits, s.heap[r].roomID);
    }
  }

  // ---------------------------------------------------------------- serving as a run of the store

  lemma EmptyRun(s: State, env: Env)
    requires Inv(s, env.limits) && env.limits.Valid()
    ensures FreshRun(s, env, []) && Run(s, env, []) == s
  {
    hide Inv;
  }

  lemma StepThenRun(s: State, env: Env, step: Step, rest: seq<Step>)
    requires Inv(s, env.limits) && env.limits.Valid() && !step.op.OnCreate?
    ensures Inv(Next(s, env, step), env.limits)
    ensures FreshRun(Next(s, env, step), env, rest) ==>
      FreshRun(s, env, [step] + rest) && Run(s, env, [step] + rest) == Run(Next(s, env, step), env, rest)
  {
    hide Inv, Next, Outcome, Rejection, Created;
    StepKeepsInv(s, env, step);
    assert ([step] + rest)[1..] == rest;
  }

  lemma StepRun(s: State, env: Env, step: Step)
    requires Inv(s, env.limits) && env.limits.Valid() && !step.op.OnCreate?
    ensures Inv(Next(s, env, step), env.limits) && FreshRun(s, env, [step]) && Run(s, env, [step]) == Next(s, env, step)
  {
    hide Inv, Next, FreshRun, Run;
    StepThenRun(s, env, step, []);
    EmptyRun(Next(s, env, step), env);
    assert [step] + [] == [step];
  }

  /** Serving a datagram is a run of at most two operations of the store, none of which
      creates: what holds along every run holds for every sequence of datagrams. */
  lemma ServeIsARun(s: State, env: Env, decoded: Result<C.Envelope, C.Failure>, source: Endpoint, bytes: nat,
      reading: ClockReading, later: int)
    returns (steps: seq<Step>)
    requires Inv(s, env.limits) && env.limits.Valid()
    ensures |steps| <= 2 && forall i | 0 <= i < |steps| :: !steps[i].op.OnCreate?
    ensures FreshRun(s, env, steps) && Run(s, env, steps) == Serve(s, env, decoded, source, bytes, reading, later).0
  {
    hide Inv, ChargePreauth, BeginChallenge, Authenticate, ServePacket, C.EncodeServer, FreshRun, Run;
    var endpoint := NormalizeEndpoint(source);
    EmptyRun(s, env);
    steps := [];
    match decoded {
      case Err(failure) =>
        steps := [Step(OnPreauth(endpoint, bytes), reading)];
        StepRun(s, env, steps[0]);
      case Ok(e) =>
        if e.body.Some? {
          var b := e.body.value;
          match b {
            case Hello(_, _, _) =>
              steps := [Step(OnHello(HelloRequest(e, b, endpoint, bytes)), reading)];
              StepRun(s, env, steps[0]);
            case Auth(_) =>
              steps := [Step(OnAuthenticate(AuthRequest(e, b, endpoint, bytes)), reading)];
              StepRun(s, env, steps[0]);
            case ClientData(_, _) => steps := PacketIsARun(s, env, e, b, endpoint, bytes, reading, later);
            case Ping(_) => steps := PacketIsARun(s, env, e, b, endpoint, bytes, reading, later);
            case _ =>
          }
        }
    }
  }

  lemma PacketIsARun(s: State, env: Env, e: C.Envelope, b: C.Body, endpoint: Endpoint, bytes: nat,
      reading: ClockReading, later: int)
    returns (steps: seq<Step>)
    requires Inv(s, env.limits) && env.limits.Valid() && (b.ClientData? || b.Ping?)
    ensures |steps| <= 2 && forall i | 0 <= i < |steps| :: !steps[i].op.OnCreate?
    ensures FreshRun(s, env, steps)
      && Run(s, env, steps) == ServePacket(s, env, e, b, endpoint, bytes, reading.mono, later).0
  {
    hide Inv, AdmitAuthenticated, AdmitFanout, C.EncodeServer, FreshRun, Run;
    var first := Step(OnPacket(PacketOf(e, b), endpoint, e.authTag, bytes), reading);
    PacketAdmitted(s, env, PacketOf(e, b), endpoint, e.authTag, bytes, reading.mono);
    var (s1, answer) := AdmitAuthenticated(s, env.limits, env.hmac, PacketOf(e, b), endpoint, e.authTag, bytes,
      reading.mono);
    StepRun(s, env, first);
    steps := [first];
    if answer.Admit? && b.ClientData? {
      var admitted := AdmittedBy(s1, answer.value, e.sequence);
      var size := C.EncodeServer(DataEnvelope(admitted, b.payload));
      if size.Ok? {
        var second := Step(OnFanout(admitted, size.value), ClockReading(reading.wall, later));
        StepRun(s1, env, second);
        StepThenRun(s, env, first, [second]);
        steps := [first] + [second];
      }
    }
  }

  lemma ServeKeepsDrawn(s: State, env: Env, decoded: Result<C.Envelope, C.Failure>, source: Endpoint, bytes: nat,
      reading: ClockReading, later: int)
    requires Inv(s, env.limits) && env.limits.Valid()
    ensures SF.NonRepeating(env.random) && SF.IDsDrawn(s, env.random) ==>
      SF.IDsDrawn(Serve(s, env, decoded, source, bytes, reading, later).0, env.random)
  {
    hide Inv, Serve, FreshRun, Run, SF.NonRepeating, SF.IDsDrawn;
    var steps := ServeIsARun(s, env, decoded, source, bytes, reading, later);
    if SF.NonRepeating(env.random) && SF.IDsDrawn(s, env.random) { SF.RunsAreFresh(s, env, steps); }
  }

  // ---------------------------------------------------------------- what an accepted datagram gets

  /** The store lost its random source over this datagram. */
  ghost predicate LosesRandom(s: State, env: Env, decoded: Result<C.Envelope, C.Failure>, source: Endpoint, bytes: nat,
      reading: ClockReading)
    requires Inv(s, env.limits)
  {
    hide Inv;
    && decoded.Ok? && decoded.value.body.Some?
    && var e, b, endpoint := decoded.value, decoded.value.body.value, NormalizeEndpoint(source);
    || (b.Hello?
        && BeginChallenge(s, env.limits, env.random, HelloRequest(e, b, endpoint, bytes), reading).1
           == Reject(RejectFatalRandom))
    || (b.Auth?
        && Authenticate(s, env.limits, env.hmac, env.random, AuthRequest(e, b, endpoint, bytes), reading).1
           == Reject(RejectFatalRandom))
  }

  /** What was decoded is fatal only if the random source is lost. */
  lemma FatalExactly(s: State, env: Env, parse: C.Parser, datagram: Bytes, source: Endpoint, reading: ClockReading,
      later: int)
    requires Inv(s, env.limits) && env.limits.Valid()
    ensures var decoded := C.DecodeClient(parse, datagram);
      Serve(s, env, decoded, source, |datagram|, reading, later).1.Fatal? <==>
        LosesRandom(s, env, decoded, source, |datagram|, reading)
  {
    hide Inv, ChargePreauth, BeginChallenge, Authenticate, ServePacket, C.EncodeServer, C.DecodeClient;
    var decoded := C.DecodeClient(parse, datagram);
    if decoded.Ok? {
      C.DecodedIsClient(parse, datagram);
      var e, b := decoded.value, decoded.value.body.value;
      if b.ClientData? || b.Ping? {
        PacketKeepsInv(s, env, e, b, NormalizeEndpoint(source), |datagram|, reading.mono, later);
      }
    }
  }

  /** Whoever is challenged is told so, exactly when the reads behind the challenge had the
      sizes asked for and its expiry is a time after 1970 that fits the wire: the answer is
      never too large, and never as large as the hello. */
  lemma ChallengedIsReplied(s: State, env: Env, parse: C.Parser, datagram: Bytes, source: Endpoint,
      reading: ClockReading, later: int)
    requires Inv(s, env.limits) && C.DecodeClient(parse, datagram).Ok?
      && C.DecodeClient(parse, datagram).value.body.Some?
    requires C.DecodeClient(parse, datagram).value.body.value.Hello?
    ensures var decoded := C.DecodeClient(parse, datagram);
      var b := decoded.value.body.value;
      var answer := BeginChallenge(s, env.limits, env.random,
        HelloRequest(decoded.value, b, NormalizeEndpoint(source), |datagram|), reading).1;
      answer.Admit? ==>
        var effect := Serve(s, env, decoded, source, |datagram|, reading, later).1;
        && (effect.Replied? <==>
            |answer.value.candidateID| == 16 && |answer.value.serverNonce| == 32
            && 0 < SignedWrap(answer.value.expiresUnixMS))
        && (effect.Replied? ==> effect.bytes <= 198 < C.MIN_HELLO_BYTES <= |datagram|)
  {
    hide Inv, BeginChallenge, ServePacket, C.DecodeClient, C.EncodedSize, SignedWrap, ValidID;
    C.DecodedIsClient(parse, datagram);
    var e := C.DecodeClient(parse, datagram).value;
    var answer := BeginChallenge(s, env.limits, env.random,
      HelloRequest(e, e.body.value, NormalizeEndpoint(source), |datagram|), reading).1;
    if answer.Admit? {
      var c := answer.value;
      WrapIsInt64(c.expiresUnixMS);
      if |c.candidateID| == 16 && |c.serverNonce| == 32 && 0 < SignedWrap(c.expiresUnixMS) {
        C.ChallengeIsSmaller(e.roomID, e.sessionID, c.candidateID, c.serverNonce, SignedWrap(c.expiresUnixMS));
      }
    }
  }

  /** Admitted ClientData is relayed unless its sender lost its binding on the way, or fan-out
      cannot be paid for: it is never dropped for its size or its form. */
  lemma AdmittedDataIsRelayed(s: State, env: Env, parse: C.Parser, datagram: Bytes, endpoint: Endpoint, now: int,
      later: int)
    requires Inv(s, env.limits) && env.limits.Valid() && NamesValid(s)
    requires C.DecodeClient(parse, datagram).Ok? && C.DecodeClient(parse, datagram).value.body.Some?
    requires C.DecodeClient(parse, datagram).value.body.value.ClientData?
      && C.DecodeClient(parse, datagram).value.sequence <= MAX_UINT64
    ensures var e := C.DecodeClient(parse, datagram).value;
      var b := e.body.value;
      var effect := ServePacket(s, env, e, b, endpoint, |datagram|, now, later).1;
      AdmitAuthenticated(s, env.limits, env.hmac, PacketOf(e, b), endpoint, e.authTag, |datagram|, now).1.Admit? ==>
        || (effect.Relayed? && effect.bytes <= 1117)
        || effect in {Dropped(RejectNotBound), Dropped(RejectExpired), Dropped(RejectFanoutLimited)}
  {
    hide Inv, AdmitAuthenticated, AdmitFanout, C.EncodeServer, C.DecodeClient, Evolves, SamePreauth, FromCurrentBinding,
         FanoutOutcome, Attempted,
         SameIdentity, ValidID, Drops;
    C.DecodedIsClient(parse, datagram);
    var e := C.DecodeClient(parse, datagram).value;
    var m := PacketOf(e, e.body.value);
    var (s1, answer) := AdmitAuthenticated(s, env.limits, env.hmac, m, endpoint, e.authTag, |datagram|, now);
    IngressKeepsInv(s, env.limits, env.hmac, m, endpoint, e.authTag, |datagram|, now);
    if answer.Admit? {
      CurrentIsIndexed(s, env.hmac, m, endpoint, e.authTag, now);
      PacketAdmitted(s, env, m, endpoint, e.authTag, |datagram|, now);
      var admitted := AdmittedBy(s1, answer.value, e.sequence);
      C.ServerDataFits(admitted.roomID, admitted.sessionID, admitted.senderParticipantID, e.sequence,
        e.body.value.payload);
      var size := C.EncodeServer(DataEnvelope(admitted, e.body.value.payload)).value;
      FanoutKeepsInv(s1, env.limits, admitted, size, later);
      FanoutReasons(s1, env.limits, admitted, size, later);
    }
  }

  lemma FanoutReasons(s: State, limits: Limits, admitted: AdmittedClientData, outputBytes: nat, now: int)
    requires Inv(s, limits) && limits.Valid() && outputBytes <= MAX_DATAGRAM_BYTES
    ensures var answer := AdmitFanout(s, limits, admitted, outputBytes, now).1;
      answer.Reject? ==> answer.reason in {RejectNotBound, RejectExpired, RejectFanoutLimited}
  {
    hide Inv, AdmitFanout, Evolves, Audience, Attempted, Drops;
    FanoutKeepsInv(s, limits, admitted, outputBytes, now);
  }

  // ---------------------------------------------------------------- counters

  datatype DropReasons = DropReasons(
    malformed: nat, oversized: nat, unsupportedVersion: nat, unknownGrant: nat, authFailed: nat, replay: nat,
      expired: nat, revoked: nat,
    wrongRoom: nat, wrongEndpoint: nat, notBound: nat, rateLimited: nat, fanoutLimited: nat, draining: nat)
  {
    function Total(): nat {
      malformed + oversized + unsupportedVersion + unknownGrant + authFailed + replay + expired + revoked
      + wrongRoom + wrongEndpoint + notBound + rateLimited + fanoutLimited + draining
    }

    /** The drops counted under a reason; losing the random source has no counter. */
    function Of(reason: Reason): nat {
      match reason
      case RejectMalformed => malformed
      case RejectOversized => oversized
      case RejectUnsupportedVersion => unsupportedVersion
      case RejectUnknownGrant => unknownGrant
      case RejectAuthFailed => authFailed
      case RejectReplay => replay
      case RejectExpired => expired
      case RejectRevoked => revoked
      case RejectWrongRoom => wrongRoom
      case RejectWrongEndpoint => wrongEndpoint
      case RejectNotBound => notBound
      case RejectRateLimited => rateLimited
      case RejectFanoutLimited => fanoutLimited
      case RejectDraining => draining
      case RejectFatalRandom => 0
    }
  }

  /** One more drop under a reason. */
  ghost function OneMore(d: DropReasons, reason: Reason): (d': DropReasons)
    ensures d'.Total() == d.Total() + (if reason.RejectFatalRandom? then 0 else 1)
  {
    match reason
    case RejectMalformed => d.(malformed := d.malformed + 1)
    case RejectOversized => d.(oversized := d.oversized + 1)
    case RejectUnsupportedVersion => d.(unsupportedVersion := d.unsupportedVersion + 1)
    case RejectUnknownGrant => d.(unknownGrant := d.unknownGrant + 1)
    case RejectAuthFailed => d.(authFailed := d.authFailed + 1)
    case RejectReplay => d.(replay := d.replay + 1)
    case RejectExpired => d.(expired := d.expired + 1)
    case RejectRevoked => d.(revoked := d.revoked + 1)
    case RejectWrongRoom => d.(wrongRoom := d.wrongRoom + 1)
    case RejectWrongEndpoint => d.(wrongEndpoint := d.wrongEndpoint + 1)
    case RejectNotBound => d.(notBound := d.notBound + 1)
    case RejectRateLimited => d.(rateLimited := d.rateLimited + 1)
    case RejectFanoutLimited => d.(fanoutLimited := d.fanoutLimited + 1)
    case RejectDraining => d.(draining := d.draining + 1)
    case RejectFatalRandom => d
  }

  lemma OneMoreCounted(d: DropReasons, reason: Reason)
    ensures forall r: Reason | !r.RejectFatalRandom? ::
      OneMore(d, reason).Of(r) == d.Of(r) + (if r == reason then 1 else 0)
  {
    forall r: Reason | !r.RejectFatalRandom? ensures OneMore(d, reason).Of(r) == d.Of(r) + (if r == reason then 1
      else 0) {}
  }

  const NO_DROPS := DropReasons(0, 0, 0, 0, 0, 0, 0, 0, 0, 0, 0, 0, 0, 0)

  lemma NoDropsYet()
    ensures NO_DROPS.Total() == 0
  {
  }

  /** No accepted packet was written to more recipients than the other places of a room. */
  ghost predicate WithinCapacity(attempts: nat, capacity: nat, accepted: nat) { attempts <= (capacity - 1) * accepted }

  lemma WithinAtFirst(capacity: nat)
    ensures WithinCapacity(0, capacity, 0)
  {
    assert (capacity - 1) * 0 == 0;
  }

  lemma WithinNext(attempts: nat, attempts': nat, capacity: nat, accepted: nat, relayed: bool, recipients: nat)
    requires WithinCapacity(attempts, capacity, accepted) && recipients <= capacity - 1
    requires attempts' <= attempts + (if relayed then recipients else 0)
    ensures WithinCapacity(attempts', capacity, if relayed then accepted + 1 else accepted)
  {
    assert (capacity - 1) * (accepted + 1) == (capacity - 1) * accepted + (capacity - 1);
  }

  // ---------------------------------------------------------------- the socket

  /** One envelope handed to the socket for one endpoint. */
  datatype Write = Write(sent: C.Envelope, to: Endpoint)

  /** What an effect has to write, in this order. */
  function Outgoing(effect: Effect): seq<Write> {
    match effect
    case Replied(sent, _, to) => [Write(sent, to)]
    case Relayed(sent, _, recipients) => seq(|recipients|,
      i requires 0 <= i < |recipients| => Write(sent, recipients[i]))
    case _ => []
  }

  /** How many of `n` writes succeed before one fails, the first being call `at` of the socket. */
  function Successes(socket: nat -> bool, at: nat, n: nat): (w: nat)
    ensures w <= n && (forall call: nat | at <= call < at + w :: socket(call)) && (w < n ==> !socket(at + w))
    decreases n
  {
    if n == 0 || !socket(at) then 0 else 1 + Successes(socket, at + 1, n - 1)
  }

  /** How many of `n` writes are attempted: none when the deadline cannot be set, and otherwise
      those that succeed, and the first that does not. */
  function Attempts(socket: nat -> bool, at: nat, n: nat): (k: nat)
    ensures k <= n && (k == 0 <==> n == 0 || !socket(at))
    ensures k > 0 ==> (forall call: nat | at <= call < at + k :: socket(call)) && (k < n ==> !socket(at + k))
  {
    if n == 0 || !socket(at) then 0
    else if Successes(socket, at + 1, n) < n then Successes(socket, at + 1, n) + 1 else n
  }

  /** From call `calls` on, the socket was asked to set the deadline, if there is anything to
      write, and then to write one after the other, until a write failed. */
  ghost predicate Written(socket: nat -> bool, calls: nat, calls': nat, writes: seq<Write>, writes': seq<Write>,
      out: seq<Write>) {
    var k := Attempts(socket, calls, |out|);
    writes' == writes + out[..k] && calls' == calls + (if out == [] then 0 else 1 + k)
  }

  /** The counters of fan-out. */
  datatype Tally = Tally(attempts: nat, successes: nat, errors: nat)

  /** The counters of fan-out after writing to `n` recipients, from call `calls` of the socket on. */
  function Tallied(socket: nat -> bool, calls: nat, t: Tally, n: nat): (t': Tally)
    ensures t'.attempts - t.attempts == (t'.successes - t.successes) + (t'.errors - t.errors)
    ensures t'.attempts == t.attempts + Attempts(socket, calls, n) <= t.attempts + n
    ensures t'.errors == t.errors + (if t'.attempts > t.attempts && !socket(calls + (t'.attempts - t.attempts)) then 1
      else 0)
  {
    var k := Attempts(socket, calls, n);
    var w := if k == 0 then 0 else Successes(socket, calls + 1, n);
    Tally(t.attempts + k, t.successes + w, t.errors + (k - w))
  }

  /** An effect that sends nothing writes nothing. */
  lemma NothingWritten(socket: nat -> bool, calls: nat, writes: seq<Write>, t: Tally, effect: Effect)
    requires !effect.Replied? && !effect.Relayed?
    ensures Written(socket, calls, calls, writes, writes, Outgoing(effect)) && Tallied(socket, calls, t, 0) == t
  {
    assert Outgoing(effect)[..0] == [];
  }

  lemma SendsNothing(socket: nat -> bool, calls: nat, writes: seq<Write>, t: Tally)
    ensures forall effect: Effect | !effect.Replied? && !effect.Relayed? ::
      Written(socket, calls, calls, writes, writes, Outgoing(effect))
    ensures Tallied(socket, calls, t, 0) == t
  {
    forall effect: Effect | !effect.Replied? && !effect.Relayed?
      ensures Written(socket, calls, calls, writes, writes, Outgoing(effect))
    {
      NothingWritten(socket, calls, writes, t, effect);
    }
    NothingWritten(socket, calls, writes, t, Quiet);
  }

  /** The relay over a store and a socket whose calls may fail. The writes that were attempted
      are recorded. */
  class Relay {
    const rooms: SO.Store
    const parse: C.Parser
    const socket: nat -> bool

    ghost var writes: seq<Write>
    var calls: nat
    var received: nat
    var accepted: nat
    var dropped: nat
    var attempts: nat
    var successes: nat
    var errors: nat
    var reasons: DropReasons

    ghost function Counted(): Tally
      reads this
    {
      Tally(attempts, successes, errors)
    }

    /** The counters account for every drop and every write, in every state. */
    ghost predicate Balanced()
      reads this
    {
      && dropped == reasons.Total()
      && attempts == successes + errors
      && WithinCapacity(attempts, rooms.limits.maxRoomCapacity, accepted)
      && accepted + dropped <= received
    }

    ghost predicate Valid()
      reads this, rooms
    {
      rooms.Valid() && Balanced()
    }

    ghost function EnvOf(): Env {
      Env(rooms.limits, rooms.hmac, rooms.random)
    }

    constructor (rooms: SO.Store, parse: C.Parser, socket: nat -> bool)
      requires rooms.Valid()
      ensures Valid() && this.rooms == rooms && this.parse == parse && this.socket == socket && received == 0
      ensures writes == [] && calls == 0
    {
      hide SO.Store.Valid, WithinCapacity, DropReasons.Total;
      WithinAtFirst(rooms.limits.maxRoomCapacity);
      NoDropsYet();
      this.rooms, this.parse, this.socket := rooms, parse, socket;
      calls, received, accepted, dropped, attempts, successes, errors := 0, 0, 0, 0, 0, 0, 0;
      reasons := NO_DROPS;
      writes := [];
    }

    method RecordDrop(reason: Reason)
      modifies `dropped, `reasons
      ensures dropped == old(dropped) + (if reason.RejectFatalRandom? then 0 else 1)
      ensures reasons.Total() == old(reasons).Total() + (if reason.RejectFatalRandom? then 0 else 1)
      ensures forall r: Reason | !r.RejectFatalRandom? ::
        reasons.Of(r) == old(reasons).Of(r) + (if r == reason then 1 else 0)
    {
      hide DropReasons.Total, DropReasons.Of;
      var recorded := true;
      OneMoreCounted(reasons, reason);
      match reason {
        case RejectMalformed => reasons := reasons.(malformed := reasons.malformed + 1);
        case RejectOversized => reasons := reasons.(oversized := reasons.oversized + 1);
        case RejectUnsupportedVersion => reasons := reasons.(unsupportedVersion := reasons.unsupportedVersion + 1);
        case RejectUnknownGrant => reasons := reasons.(unknownGrant := reasons.unknownGrant + 1);
        case RejectAuthFailed => reasons := reasons.(authFailed := reasons.authFailed + 1);
        case RejectReplay => reasons := reasons.(replay := reasons.replay + 1);
        case RejectExpired => reasons := reasons.(expired := reasons.expired + 1);
        case RejectRevoked => reasons := reasons.(revoked := reasons.revoked + 1);
        case RejectWrongRoom => reasons := reasons.(wrongRoom := reasons.wrongRoom + 1);
        case RejectWrongEndpoint => reasons := reasons.(wrongEndpoint := reasons.wrongEndpoint + 1);
        case RejectNotBound => reasons := reasons.(notBound := reasons.notBound + 1);
        case RejectRateLimited => reasons := reasons.(rateLimited := reasons.rateLimited + 1);
        case RejectFanoutLimited => reasons := reasons.(fanoutLimited := reasons.fanoutLimited + 1);
        case RejectDraining => reasons := reasons.(draining := reasons.draining + 1);
        case RejectFatalRandom => recorded := false;
      }
      if recorded {
        dropped := dropped + 1;
      }
    }

    method CallSocket() returns (ok: bool)
      modifies `calls
      ensures ok == socket(old(calls)) && calls == old(calls) + 1
    {
      ok := socket(calls);
      calls := calls + 1;
    }

    /** Write to one recipient after the other, until a write fails. */
    method WriteFanout(ghost sent: C.Envelope, bytes: nat, recipients: seq<Endpoint>)
      modifies `calls, `writes, `attempts, `successes, `errors
      ensures Written(socket, old(calls), calls, old(writes), writes, Outgoing(Relayed(sent, bytes, recipients)))
      ensures Counted() == Tallied(socket, old(calls), old(Counted()), |recipients|)
    {
      ghost var out := Outgoing(Relayed(sent, bytes, recipients));
      if |recipients| == 0 {
        assert out == [];
        return;
      }
      var deadlineSet := CallSocket();
      if !deadlineSet {
        assert out[..0] == [];
        return;
      }
      for i := 0 to |recipients|
        invariant attempts == old(attempts) + i && successes == old(successes) + i && errors == old(errors)
        invariant calls == old(calls) + 1 + i && writes == old(writes) + out[..i]
        invariant forall call: nat | old(calls) < call < calls :: socket(call)
      {
        attempts := attempts + 1;
        writes := writes + [Write(sent, recipients[i])];
        assert out[..i + 1] == out[..i] + [Write(sent, recipients[i])];
        var written := CallSocket();
        if !written {
          errors := errors + 1;
          assert Successes(socket, old(calls) + 1, |recipients|) == i;
          return;
        }
        successes := successes + 1;
      }
      assert out[..|recipients|] == out;
    }

    method WriteOne(ghost sent: C.Envelope, bytes: nat, to: Endpoint)
      modifies `calls, `writes
      ensures Written(socket, old(calls), calls, old(writes), writes, Outgoing(Replied(sent, bytes, to)))
    {
      ghost var out := Outgoing(Replied(sent, bytes, to));
      assert out[..0] == [] && out[..1] == out;
      var deadlineSet := CallSocket();
      if deadlineSet {
        writes := writes + [Write(sent, to)];
        var _ := CallSocket();
      }
    }

    /** Account for a rejection; true when the random source is gone. */
    method Reject(reason: Reason) returns (fatal: bool)
      modifies `dropped, `reasons
      ensures fatal <==> Rejected(reason).Fatal?
      ensures dropped == old(dropped) + (if fatal then 0 else 1)
        && reasons.Total() == old(reasons).Total() + (if fatal then 0 else 1)
      ensures forall r: Reason | !r.RejectFatalRandom? ::
        reasons.Of(r) == old(reasons).Of(r) + (if Rejected(reason) == Dropped(r) then 1 else 0)
    {
      if reason.RejectFatalRandom? {
        return true;
      }
      RecordDrop(reason);
      return false;
    }

    /** How the counters and the socket follow the effect of a received datagram. */
    twostate predicate Counts(effect: Effect)
      reads this
    {
      && received == old(received)
      && accepted == old(accepted) + (if effect.Relayed? then 1 else 0)
      && dropped == old(dropped) + (if effect.Dropped? then 1 else 0)
      && reasons.Total() == old(reasons).Total() + (if effect.Dropped? then 1 else 0)
      && (forall r: Reason | !r.RejectFatalRandom? ::
         reasons.Of(r) == old(reasons).Of(r) + (if effect == Dropped(r) then 1 else 0))
      && Written(socket, old(calls), calls, old(writes), writes, Outgoing(effect))
      && Counted() == Tallied(socket, old(calls), old(Counted()), if effect.Relayed? then |effect.recipients| else 0)
    }

    /** One more datagram was received, and its effect counted and written. */
    twostate predicate Accounts(effect: Effect)
      reads this
    {
      && received == old(received) + 1
      && accepted == old(accepted) + (if effect.Relayed? then 1 else 0)
      && dropped == old(dropped) + (if effect.Dropped? then 1 else 0)
      && (forall r: Reason | !r.RejectFatalRandom? ::
         reasons.Of(r) == old(reasons).Of(r) + (if effect == Dropped(r) then 1 else 0))
      && Written(socket, old(calls), calls, old(writes), writes, Outgoing(effect))
      && Counted() == Tallied(socket, old(calls), old(Counted()), if effect.Relayed? then |effect.recipients| else 0)
    }

    /** One datagram: the store serves it, and exactly one effect is accounted for. */
    method Dispatch(datagram: Bytes, source: Endpoint, reading: ClockReading, later: int) returns (fatal: bool)
      requires Valid()
      modifies this, rooms
      ensures var (s', effect) := Serve(old(rooms.View()), EnvOf(), C.DecodeClient(parse, datagram), source, |datagram|,
        reading, later);
        rooms.View() == s' && (fatal <==> effect.Fatal?) && Accounts(effect)
      ensures SF.NonRepeating(rooms.random) && SF.IDsDrawn(old(rooms.View()), rooms.random) ==>
        SF.IDsDrawn(rooms.View(), rooms.random)
      ensures fatal <==> LosesRandom(old(rooms.View()), EnvOf(), C.DecodeClient(parse, datagram), source, |datagram|,
        reading)
      ensures Valid()
    {
      hide StoreModel.Inv, Serve, LosesRandom, FreshRun, Run, SF.NonRepeating, SF.IDsDrawn, C.DecodeClient,
           DropReasons.Total, DropReasons.Of, WithinCapacity;
      ghost var decoded := C.DecodeClient(parse, datagram);
      ServeKeepsInv(rooms.View(), EnvOf(), decoded, source, |datagram|, reading, later);
      ServeKeepsDrawn(rooms.View(), EnvOf(), decoded, source, |datagram|, reading, later);
      FatalExactly(rooms.View(), EnvOf(), parse, datagram, source, reading, later);
      ghost var effect := Serve(rooms.View(), EnvOf(), decoded, source, |datagram|, reading, later).1;
      received := received + 1;
      fatal := DispatchDecoded(C.DecodeClient(parse, datagram), source, |datagram|, reading, later);
      WithinNext(old(attempts), attempts, rooms.limits.maxRoomCapacity, old(accepted), effect.Relayed?,
                 if effect.Relayed? then |effect.recipients| else 0);
    }

    method DispatchDecoded(decoded: Result<C.Envelope, C.Failure>, source: Endpoint, bytes: nat, reading: ClockReading,
        later: int) returns (fatal: bool)
      requires rooms.Valid()
      modifies this, rooms
      ensures rooms.Valid()
      ensures var (s', effect) := Serve(old(rooms.View()), EnvOf(), decoded, source, bytes, reading, later);
        rooms.View() == s' && (fatal <==> effect.Fatal?) && Counts(effect)
    {
      hide StoreModel.Inv, ChargePreauth, StoreAdmission.BeginChallenge, StoreAdmission.Authenticate, ServePacket,
           AnswerHello, AnswerAuth, DropReasons.Total, DropReasons.Of, Written, Tallied, Outgoing;
      var endpoint := NormalizeEndpoint(source);
      fatal := false;
      SendsNothing(socket, calls, writes, Counted());
      match decoded {
        case Err(failure) =>
          var ok := rooms.Preauth(endpoint, bytes, reading.mono);
          RecordDrop(if ok then ProtocolRejectReason(failure) else RejectRateLimited);
        case Ok(e) =>
          if e.body.None? {
            return true;
          }
          var b := e.body.value;
          match b {
            case Hello(_, _, _) =>
              fatal := DispatchHello(e, b, endpoint, bytes, reading);
            case Auth(_) =>
              fatal := DispatchAuth(e, b, endpoint, bytes, reading);
            case ClientData(_, _) => fatal := DispatchPacket(e, b, endpoint, bytes, reading.mono, later);
            case Ping(_) => fatal := DispatchPacket(e, b, endpoint, bytes, reading.mono, later);
            case _ => return true;
          }
      }
    }

    method DispatchHello(e: C.Envelope, b: C.Body, endpoint: Endpoint, bytes: nat,
        reading: ClockReading) returns (fatal: bool)
      requires rooms.Valid() && b.Hello?
      modifies this, rooms
      ensures rooms.Valid()
      ensures var (s', answer) := StoreAdmission.BeginChallenge(old(rooms.View()), rooms.limits, rooms.random,
          HelloRequest(e, b, endpoint, bytes), reading);
        var effect := AnswerHello(e, answer, bytes, endpoint);
        rooms.View() == s' && (fatal <==> effect.Fatal?) && Counts(effect)
    {
      hide StoreModel.Inv, StoreAdmission.BeginChallenge, C.EncodeServer, DropReasons.Total, DropReasons.Of, Written,
           Tallied, Outgoing;
      SendsNothing(socket, calls, writes, Counted());
      var answer := rooms.BeginChallenge(HelloRequest(e, b, endpoint, bytes), reading);
      match answer {
        case Reject(reason) => fatal := Reject(reason);
        case Admit(result) =>
          Answer(AnswerHello(e, answer, bytes, endpoint));
          fatal := false;
      }
    }

    method DispatchAuth(e: C.Envelope, b: C.Body, endpoint: Endpoint, bytes: nat,
        reading: ClockReading) returns (fatal: bool)
      requires rooms.Valid() && b.Auth?
      modifies this, rooms
      ensures rooms.Valid()
      ensures var (s', answer) := StoreAdmission.Authenticate(old(rooms.View()), rooms.limits, rooms.hmac, rooms.random,
          AuthRequest(e, b, endpoint, bytes), reading);
        var effect := AnswerAuth(e, answer, endpoint);
        rooms.View() == s' && (fatal <==> effect.Fatal?) && Counts(effect)
    {
      hide StoreModel.Inv, StoreAdmission.Authenticate, C.EncodeServer, DropReasons.Total, DropReasons.Of, Written,
           Tallied, Outgoing;
      SendsNothing(socket, calls, writes, Counted());
      var answer := rooms.Authenticate(AuthRequest(e, b, endpoint, bytes), reading);
      match answer {
        case Reject(reason) => fatal := Reject(reason);
        case Admit(result) =>
          Answer(AnswerAuth(e, answer, endpoint));
          fatal := false;
      }
    }

    method Answer(effect: Effect)
      requires effect.Replied? || effect.Quiet?
      modifies `calls, `writes
      ensures Written(socket, old(calls), calls, old(writes), writes, Outgoing(effect))
    {
      NothingWritten(socket, calls, writes, Counted(), Quiet);
      if effect.Replied? {
        WriteOne(effect.sent, effect.bytes, effect.to);
      }
    }

    method DispatchPacket(e: C.Envelope, b: C.Body, endpoint: Endpoint, bytes: nat, now: int,
        later: int) returns (fatal: bool)
      requires rooms.Valid() && (b.ClientData? || b.Ping?)
      modifies this, rooms
      ensures rooms.Valid()
      ensures var (s', effect) := ServePacket(old(rooms.View()), EnvOf(), e, b, endpoint, bytes, now, later);
        rooms.View() == s' && (fatal <==> effect.Fatal?) && Counts(effect)
    {
      hide StoreModel.Inv, StoreAdmission.AdmitAuthenticated, ServeFanout, DropReasons.Total, DropReasons.Of, Written,
           Tallied, Outgoing;
      SendsNothing(socket, calls, writes, Counted());
      PacketAdmitted(rooms.View(), EnvOf(), PacketOf(e, b), endpoint, e.authTag, bytes, now);
      var answer := rooms.AdmitAuthenticated(PacketOf(e, b), endpoint, e.authTag, bytes, now);
      if answer.Reject? {
        fatal := Reject(answer.reason);
        return;
      }
      if b.Ping? {
        return false;
      }
      var admitted := AdmittedBy(rooms.View(), answer.value, e.sequence);
      fatal := DispatchFanout(admitted, b.payload, later);
    }

    /** Fan-out of one admitted packet: encoded, charged, and written to its recipients. */
    method DispatchFanout(admitted: AdmittedClientData, payload: Bytes, later: int) returns (fatal: bool)
      requires rooms.Valid()
      modifies this, rooms
      ensures rooms.Valid()
      ensures var (s', effect) := ServeFanout(old(rooms.View()), rooms.limits, admitted, payload, later);
        rooms.View() == s' && (fatal <==> effect.Fatal?) && Counts(effect)
    {
      hide StoreModel.Inv, StoreAdmission.AdmitFanout, C.EncodeServer, DropReasons.Total, DropReasons.Of, Written,
           Tallied, Outgoing;
      SendsNothing(socket, calls, writes, Counted());
      match C.EncodeServer(DataEnvelope(admitted, payload)) {
        case Err(failure) =>
          RecordDrop(ProtocolRejectReason(failure));
          return false;
        case Ok(size) =>
          var plan := rooms.AdmitFanout(admitted, size, later);
          if plan.Reject? {
            fatal := Reject(plan.reason);
            return;
          }
          accepted := accepted + 1;
          WriteFanout(DataEnvelope(admitted, payload), size, plan.value.recipients);
          return false;
      }
    }
  }
}
