/** What a client gets for a datagram, in terms of the fields of the datagram: who is answered,
    with what, who hears what, and why everybody else is dropped. */
module UdpService {
  import opened Prelude
  import opened Admission
  import opened Transcript
  import opened Identifier
  import C = Codec
  import opened StoreModel
  import opened StoreDeletion
  import opened StoreAdmission
  import opened StoreInvariant
  import opened StoreRuns
  import opened StoreHandshake
  import opened StoreAmounts
  import opened StoreVerdicts
  import opened UdpRelay
  import ReplayWindow

  /** The pre-authentication class can pay for the datagram. */
  ghost predicate Pays(s: State, limits: Limits, endpoint: Endpoint, bytes: nat, now: int)
    requires Inv(s, limits)
  {
    ChargePreauth(s, limits, endpoint, bytes, now).1
  }

  // ---------------------------------------------------------------- endpoints

  /** The relay knows every endpoint under one name: an IPv4 address mapped into IPv6 is the
      IPv4 address, and everything else is itself. */
  lemma EndpointsHaveOneName(e: Endpoint)
    ensures var n := NormalizeEndpoint(e);
      && (n.IsValid() <==> e.IsValid()) && (e.IsValid() ==> n.port == e.port)
      && NormalizeEndpoint(n) == n
      && (e.IsValid() && !IsSome4(e.addr) ==> n == e)
      && (forall bits: nat | IsHost4(e.addr, bits) :: n == Endpoint(V4(bits), e.port))
      && (e.IsValid() ==> SourceKeyOf(n) == SourceKeyOf(e))
  {
  }

  // ---------------------------------------------------------------- what is not decoded

  /** A datagram that is not decoded is dropped as too large, of another version, or malformed,
      unless it cannot be paid for. */
  lemma UndecodedIsDropped(s: State, env: Env, parse: C.Parser, datagram: Bytes, source: Endpoint,
      reading: ClockReading, later: int)
    requires Inv(s, env.limits) && C.DecodeClient(parse, datagram).Err?
    ensures var reason :=
        if |datagram| > 1200 || (parse(datagram).Some? && C.OnlyTooLong(parse(datagram).value, |datagram|)) then
          RejectOversized
        else if datagram != [] && parse(datagram).Some? && parse(datagram).value.unknownFields == []
          && parse(datagram).value.revision != 1 then RejectUnsupportedVersion
        else RejectMalformed;
      datagram != [] ==>
        Serve(s, env, C.DecodeClient(parse, datagram), source, |datagram|, reading, later).1 ==
          Dropped(if Pays(s, env.limits, NormalizeEndpoint(source), |datagram|, reading.mono) then reason
            else RejectRateLimited)
    ensures datagram == [] ==>
      Serve(s, env, C.DecodeClient(parse, datagram), source, |datagram|, reading, later).1 ==
        Dropped(if Pays(s, env.limits, NormalizeEndpoint(source), |datagram|, reading.mono) then RejectMalformed
          else RejectRateLimited)
  {
    hide Inv, ChargePreauth, C.DecodeClient, C.ClientOK;
    C.DecodesExactly(parse, datagram, C.Envelope(0, 0, [], "", "", None, [], []));
    EmptyIsMalformed(parse);
  }

  lemma EmptyIsMalformed(parse: C.Parser)
    ensures C.DecodeClient(parse, []) == Err(C.Malformed)
  {
  }

  // ---------------------------------------------------------------- hello

  /** What a rejection becomes: losing the random source ends the relay. */
  function DroppedFor(reason: Reason): Effect { if reason.RejectFatalRandom? then Fatal else Dropped(reason) }

  /** A hello is answered with the challenge that is now pending on the grant it names, for the
      room, the session, the nonce and the endpoint it came with; or dropped for the reason that
      the store has, or because it cannot be paid for. It goes without an answer only if the reads
      behind the challenge were short, or its expiry does not fit the wire. */
  lemma HelloIsServed(s: State, env: Env, e: C.Envelope, grantID: Bytes, clientNonce: Bytes, padding: Bytes,
      source: Endpoint, bytes: nat, reading: ClockReading, later: int)
    requires Inv(s, env.limits) && env.limits.Valid() && C.ClientOK(e, bytes)
      && e.body == Some(C.Hello(grantID, clientNonce, padding))
    ensures var (s', effect) := Serve(s, env, Ok(e), source, bytes, reading, later);
      var endpoint := NormalizeEndpoint(source);
      var request := ChallengeRequest(e.roomID, e.sessionID, grantID, clientNonce, endpoint, bytes);
      if !Pays(s, env.limits, endpoint, bytes, reading.mono) then effect == Dropped(RejectRateLimited)
      else match HelloRefusal(s, env.random, request, reading.mono)
        case Some(reason) => effect == DroppedFor(reason)
        case None =>
          && grantID in s.grantsByID && s.grantsByID[grantID] in s'.heap
          && var g := s'.heap[s.grantsByID[grantID]];
          && g.id == grantID && g.roomID == e.roomID && g.sessionID == e.sessionID && g.pending.Some?
          && g.pending.value.endpoint == endpoint && g.pending.value.clientNonce == clientNonce
          && var p := g.pending.value;
          && var expires := SignedWrap(p.result.expiresUnixMS);
          && var sent := C.Envelope(1, 0, [], e.sessionID, e.roomID,
               Some(C.Challenge(p.candidateID, p.serverNonce, expires)), [], []);
          && if |p.candidateID| == 16 && |p.serverNonce| == 32 && expires > 0
             then effect.Replied? && effect.sent == sent && effect.to == endpoint && effect.bytes <= 198
             else effect == Quiet
  {
    hide Inv, ChargePreauth, BeginChallenge, HelloRefusal, Evolves, SignedWrap, ValidID, C.EncodedSize;
    var endpoint := NormalizeEndpoint(source);
    var request := HelloRequest(e, e.body.value, endpoint, bytes);
    HelloVerdict(s, env.limits, env.random, request, reading);
    BeginChallengeKeepsInv(s, env.limits, env.random, request, reading);
    var answer := BeginChallenge(s, env.limits, env.random, request, reading).1;
    if answer.Admit? {
      WrapIsInt64(answer.value.expiresUnixMS);
      var c := answer.value;
      if |c.candidateID| == 16 && |c.serverNonce| == 32 && SignedWrap(c.expiresUnixMS) > 0 {
        C.ChallengeIsSmaller(e.roomID, e.sessionID, c.candidateID, c.serverNonce, SignedWrap(c.expiresUnixMS));
      }
    }
  }

  // ---------------------------------------------------------------- authentication

  /** An authentication is answered with the result that its grant now keeps for the handshake it
      names, first made or repeated; or dropped for the reason that the store has, or because it
      cannot be paid for. It goes without an answer only if the read behind the binding was short,
      the hash is not 32 bytes long, or the expiry does not fit the wire. */
  lemma AuthIsServed(s: State, env: Env, e: C.Envelope, candidateID: Bytes, source: Endpoint, bytes: nat,
      reading: ClockReading, later: int)
    requires Inv(s, env.limits) && env.limits.Valid() && C.ClientOK(e, bytes) && e.body == Some(C.Auth(candidateID))
    ensures var (s', effect) := Serve(s, env, Ok(e), source, bytes, reading, later);
      var endpoint := NormalizeEndpoint(source);
      var request := AuthenticateRequest(e.roomID, e.sessionID, candidateID, endpoint, e.authTag, bytes);
      if !Pays(s, env.limits, endpoint, bytes, reading.mono) then effect == Dropped(RejectRateLimited)
      else match AuthRefusal(s, env.hmac, env.random, request, reading.mono)
        case Some(reason) => effect == DroppedFor(reason)
        case None =>
          && candidateID in s.candidatesByID && s.candidatesByID[candidateID] in s'.heap
          && var g := s'.heap[s.candidatesByID[candidateID]];
          && g.roomID == e.roomID && g.sessionID == e.sessionID && g.recent.Some? && g.binding.Some?
          && g.recent.value.candidateID == candidateID && g.recent.value.endpoint == endpoint
          && g.binding.value.id == g.recent.value.result.bindingID
          && var result := g.recent.value.result;
          && var expires := SignedWrap(result.expiresUnixMS);
          && var sent := C.Envelope(1, 0, result.authTag, e.sessionID, e.roomID,
               Some(C.Bound(result.bindingID, expires)), [], []);
          && if |result.bindingID| == 16 && |result.authTag| == 32 && expires > 0
             then effect.Replied? && effect.sent == sent && effect.to == endpoint && effect.bytes <= 198
             else effect == Quiet
  {
    hide Inv, ChargePreauth, Authenticate, AuthRefusal, Evolves, SignedWrap, ValidID, C.EncodedSize, KeepsResult;
    var endpoint := NormalizeEndpoint(source);
    var request := AuthRequest(e, e.body.value, endpoint, bytes);
    AuthVerdict(s, env.limits, env.hmac, env.random, request, reading);
    var (s', answer) := Authenticate(s, env.limits, env.hmac, env.random, request, reading);
    if answer.Admit? {
      ResultIsKept(s, env, request, reading);
      KeptResultMeans(s, s', request, answer.value);
      WrapIsInt64(answer.value.expiresUnixMS);
      var b := answer.value;
      if |b.bindingID| == 16 && |b.authTag| == 32 && SignedWrap(b.expiresUnixMS) > 0 {
        C.BoundFits(e.roomID, e.sessionID, b.bindingID, b.authTag, SignedWrap(b.expiresUnixMS));
      }
    }
  }

  /** The grant of the candidate keeps the result it was answered with. */
  ghost predicate KeepsResult(s: State, s': State, request: AuthenticateRequest, result: BoundResult) {
    && request.candidateID in s.candidatesByID && s.candidatesByID[request.candidateID] in s'.heap
    && var g := s'.heap[s.candidatesByID[request.candidateID]];
    && g.roomID == request.roomID && g.sessionID == request.sessionID && g.recent.Some? && g.binding.Some?
    && g.recent.value.candidateID == request.candidateID && g.recent.value.endpoint == request.endpoint
    && g.recent.value.result == result && g.binding.value.id == result.bindingID
  }

  lemma KeptResultMeans(s: State, s': State, request: AuthenticateRequest, result: BoundResult)
    requires KeepsResult(s, s', request, result)
    ensures request.candidateID in s.candidatesByID && s.candidatesByID[request.candidateID] in s'.heap
    ensures var g := s'.heap[s.candidatesByID[request.candidateID]];
      && g.roomID == request.roomID && g.sessionID == request.sessionID && g.recent.Some? && g.binding.Some?
      && g.recent.value.candidateID == request.candidateID && g.recent.value.endpoint == request.endpoint
      && g.recent.value.result == result && g.binding.value.id == result.bindingID
  {
  }

  lemma ResultIsKept(s: State, env: Env, request: AuthenticateRequest, reading: ClockReading)
    requires Inv(s, env.limits) && env.limits.Valid()
    requires Authenticate(s, env.limits, env.hmac, env.random, request, reading).1.Admit?
    ensures var (s', answer) := Authenticate(s, env.limits, env.hmac, env.random, request, reading);
      KeepsResult(s, s', request, answer.value)
  {
    hide Inv, ChargePreauth, Authenticate, Evolves, GrantOK, Draws, Established, LastsAsLong, Completes, Rebinds,
         AuthTagOf;
    AuthenticatesExactly(s, env.limits, env.hmac, env.random, request, reading);
    var r := s.candidatesByID[request.candidateID];
    var g := s.heap[r];
    GrantHolds(s, env.limits, r);
    var (s', answer) := Authenticate(s, env.limits, env.hmac, env.random, request, reading);
    if Repeats(env.hmac, g, request, reading.mono) {
      assert Keeps(env.hmac, g, request, g.recent.value.result);
      NoEndpointPays(s, env.limits, request.endpoint, request.inputBytes, reading.mono);
      KeptIsRepeated(s, env.limits, env.hmac, env.random, r, request, g.recent.value.result, reading);
      RecentMatchesBinding(s, env.limits, r, reading.mono);
    } else {
      FirstCompletion(s, env.limits, env.hmac, env.random, r, request, reading);
      EstablishedResult(s, s', env.hmac, r, request, answer.value);
    }
  }

  lemma EstablishedResult(s: State, s': State, hmac: Hmac, r: Ref, request: AuthenticateRequest, result: BoundResult)
    requires r in s.heap && s.heap[r].pending.Some? && s.heap[r].secret.Some?
    requires Established(s, s', hmac, r, request, result)
    requires s.heap[r].roomID == request.roomID && s.heap[r].sessionID == request.sessionID
    ensures r in s'.heap
    ensures var g := s'.heap[r];
      && g.roomID == request.roomID && g.sessionID == request.sessionID && g.recent.Some? && g.binding.Some?
      && g.recent.value.candidateID == request.candidateID && g.recent.value.endpoint == request.endpoint
      && g.recent.value.result == result && g.binding.value.id == result.bindingID
  {
    hide Tag, BindingKeyOf;
  }

  // ---------------------------------------------------------------- packets

  /** What a packet must be tagged as, and under which binding it speaks. */
  function Spoken(e: C.Envelope): Packet
    requires e.body.Some? && (e.body.value.ClientData? || e.body.value.Ping?)
  {
    match e.body.value
    case ClientData(bindingID, payload) => ClientDataMessage(1, e.roomID, e.sessionID, bindingID, e.sequence, payload)
    case Ping(bindingID) => PingMessage(1, e.roomID, e.sessionID, bindingID, e.sequence)
  }

  /** A packet that is not from a current binding is dropped for the reason that the store has, or
      because it cannot be paid for; one that is from a current binding is dropped as rate limited
      or as a replay, or admitted: a ping is then over. */
  lemma PacketIsServed(s: State, env: Env, e: C.Envelope, source: Endpoint, bytes: nat, reading: ClockReading,
      later: int)
    requires Inv(s, env.limits) && env.limits.Valid() && C.ClientOK(e, bytes)
      && (e.body.value.ClientData? || e.body.value.Ping?)
    ensures var effect := Serve(s, env, Ok(e), source, bytes, reading, later).1;
      var endpoint := NormalizeEndpoint(source);
      match PacketRefusal(s, env.hmac, Spoken(e), endpoint, e.authTag, bytes, reading.mono)
      case Some(reason) =>
        effect == Dropped(if Pays(s, env.limits, endpoint, bytes, reading.mono) then reason else RejectRateLimited)
      case None =>
        && FromCurrentBinding(s, env.hmac, Spoken(e), endpoint, e.authTag, reading.mono)
        && Spoken(e).bindingID in s.bindingsByID
        && var r := s.bindingsByID[Spoken(e).bindingID];
        && r in s.heap && s.heap[r].binding.Some?
        && if !IngressHas(s.gate, r, s.heap[r].roomID, bytes, reading.mono) then effect == Dropped(RejectRateLimited)
           else if !ReplayWindow.Accept(s.heap[r].binding.value.replay, e.sequence).1 then
             effect == Dropped(RejectReplay)
           else e.body.value.Ping? ==> effect == Quiet
  {
    hide Inv, ChargePreauth, AdmitAuthenticated, ServeFanout, PacketRefusal, FromCurrentBinding, IngressHas, ValidID,
         ReplayWindow.Accept;
    var endpoint := NormalizeEndpoint(source);
    var m := PacketOf(e, e.body.value);
    assert m == Spoken(e);
    PacketVerdict(s, env.limits, env.hmac, m, endpoint, e.authTag, bytes, reading.mono);
    PacketsExactly(s, env.limits, env.hmac, m, endpoint, e.authTag, bytes, reading.mono);
    PacketAdmitted(s, env, m, endpoint, e.authTag, bytes, reading.mono);
    RefusalIsNotFatal(s, env.hmac, m, endpoint, e.authTag, bytes, reading.mono);
  }

  lemma RefusalIsNotFatal(s: State, hmac: Hmac, m: Packet, endpoint: Endpoint, authTag: Bytes, inputBytes: int,
      now: int)
    ensures PacketRefusal(s, hmac, m, endpoint, authTag, inputBytes, now) != Some(RejectFatalRandom)
  {
    hide Tag;
  }

  /** Spending a sequence changes nobody's audience. */
  lemma {:induction false} AudienceAfterIngress(s: State, s': State, refs: seq<Ref>, r: Ref, now: int)
    requires forall i | 0 <= i < |refs| :: refs[i] in s.heap
    requires forall q | q in s.heap && q != r :: q in s'.heap && s'.heap[q] == s.heap[q]
    requires r in s'.heap
    ensures Audience(s', refs, r, now) == Audience(s, refs, r, now)
    decreases |refs|
  {
    if refs != [] { AudienceAfterIngress(s, s', refs[1..], r, now); }
  }

  /** What is relayed is what was sent, under the name of the participant whose binding sent it:
      the payload and the sequence of the datagram, in the room and the session of the grant, to
      exactly the others in the room who are bound when fan-out looks. */
  lemma DataIsRelayed(s: State, env: Env, e: C.Envelope, bindingID: Bytes, payload: Bytes, source: Endpoint, bytes: nat,
      reading: ClockReading, later: int)
    requires Inv(s, env.limits) && env.limits.Valid() && C.ClientOK(e, bytes)
      && e.body == Some(C.ClientData(bindingID, payload))
    ensures var effect := Serve(s, env, Ok(e), source, bytes, reading, later).1;
      effect.Relayed? ==>
        && FromCurrentBinding(s, env.hmac, Spoken(e), NormalizeEndpoint(source), e.authTag, reading.mono)
        && bindingID in s.bindingsByID && s.bindingsByID[bindingID] in s.heap
        && var r := s.bindingsByID[bindingID];
        && var g := s.heap[r];
        && g.roomID in s.rooms && (forall i | 0 <= i < |s.rooms[g.roomID].grants| ::
           s.rooms[g.roomID].grants[i] in s.heap)
        && effect.sent == C.Envelope(1, e.sequence, [], g.sessionID, g.roomID,
             Some(C.ServerData(g.participantID, payload)), [], [])
        && effect.recipients == Audience(s, s.rooms[g.roomID].grants, r, later)
  {
    hide Inv, AdmitAuthenticated, ServeFanout, Evolves, SamePreauth, FromCurrentBinding, Audience, Attempted, Drops,
         ValidID;
    var endpoint, now := NormalizeEndpoint(source), reading.mono;
    var m := PacketOf(e, e.body.value);
    assert m == Spoken(e);
    PacketAdmitted(s, env, m, endpoint, e.authTag, bytes, now);
    IngressKeepsInv(s, env.limits, env.hmac, m, endpoint, e.authTag, bytes, now);
    var (s1, answer) := AdmitAuthenticated(s, env.limits, env.hmac, m, endpoint, e.authTag, bytes, now);
    if answer.Admit? {
      var r := answer.value;
      CurrentIsIndexed(s, env.hmac, m, endpoint, e.authTag, now);
      BoundIsLive(s, env.limits, r);
      GrantFacts(s, env.limits, r);
      GrantsResident(s, env.limits, s.heap[r].roomID);
      FanoutRelays(s1, env.limits, r, e.sequence, payload, later);
      AudienceAfterIngress(s, s1, s.rooms[s.heap[r].roomID].grants, r, later);
    }
  }

  /** Fan-out of a value admitted on grant `r` relays in its name, to its audience. */
  lemma FanoutRelays(s: State, limits: Limits, r: Ref, sequence: nat, payload: Bytes, later: int)
    requires Inv(s, limits) && limits.Valid() && r in s.heap && s.heap[r].binding.Some?
    ensures var g := s.heap[r];
      && g.roomID in s.rooms && (forall i | 0 <= i < |s.rooms[g.roomID].grants| ::
         s.rooms[g.roomID].grants[i] in s.heap)
      && var effect := ServeFanout(s, limits, AdmittedBy(s, r, sequence), payload, later).1;
         effect.Relayed? ==>
           && effect.sent == C.Envelope(1, sequence, [], g.sessionID, g.roomID,
                Some(C.ServerData(g.participantID, payload)), [], [])
           && effect.recipients == Audience(s, s.rooms[g.roomID].grants, r, later)
  {
    hide Inv, AdmitFanout, C.EncodeServer, Evolves, Audience, Attempted, Drops;
    GrantFacts(s, limits, r);
    GrantsResident(s, limits, s.heap[r].roomID);
    BindingOwner(s, limits, r);
    var admitted := AdmittedBy(s, r, sequence);
    var size := C.EncodeServer(DataEnvelope(admitted, payload));
    if size.Ok? { FanoutKeepsInv(s, limits, admitted, size.value, later); }
  }
}
