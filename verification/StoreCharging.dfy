/** Which limiters every operation of the store charges, and what a limiter of the whole
    relay admits over a run. */
module StoreCharging {
  import opened Prelude
  import opened RateLimit
  import opened Admission
  import opened Definitions
  import opened Transcript
  import opened StoreModel
  import opened StoreDeletion
  import opened StoreAdmission
  import opened StoreInvariant
  import opened StoreRooms
  import opened StoreCreation
  import opened StoreRuns

  // ---------------------------------------------------------------- handshakes

  lemma ChallengeDrops(s: State, limits: Limits, random: Random, r: Ref, request: ChallengeRequest,
      reading: ClockReading)
    requires r in s.heap && s.heap[r].roomID in s.rooms
    ensures Drops(s.gate, Challenge0(s, limits, random, r, request, reading).0.gate)
    ensures Challenge0(s, limits, random, r, request, reading).1 != Reject(RejectRateLimited)
  {
    hide ProjectWireExpiryUnixMS, UniqueID, IssueChallenge, Drops;
    DropsReflexive(s.gate);
    IssueDrops(s, limits, random, r, request, reading);
  }

  lemma IssueDrops(s: State, limits: Limits, random: Random, r: Ref, request: ChallengeRequest, reading: ClockReading)
    requires r in s.heap && s.heap[r].roomID in s.rooms
    ensures Drops(s.gate, IssueChallenge(s, limits, random, r, request, reading).0.gate)
    ensures IssueChallenge(s, limits, random, r, request, reading).1 != Reject(RejectRateLimited)
  {
    hide ProjectWireExpiryUnixMS, UniqueID, Put, WithPending, Drops;
    if IssueChallenge(s, limits, random, r, request, reading).1.Admit? {
      IssuedPending(s, limits, random, r, request, reading);
      var s' := IssueChallenge(s, limits, random, r, request, reading).0;
      PutDrops(s.(drawn := s'.drawn), r, WithPending(s.heap[r], s'.heap[r].pending.value));
    } else {
      DropsReflexive(s.gate);
    }
  }

  lemma ExpireRelayDrops(s: State, r: Ref, now: int)
    requires r in s.heap
    ensures Drops(s.gate, ExpireRelay(s, r, now).gate)
  {
    hide ExpiredRelay, Drops, Put;
    PutDrops(s, r, ExpiredRelay(s.heap[r], now));
  }

  /** A hello pays in the pre-authentication class and in no other. */
  lemma HelloChargesPreauth(s: State, limits: Limits, random: Random, request: ChallengeRequest, reading: ClockReading)
    requires Inv(s, limits)
    ensures var (s', answer) := BeginChallenge(s, limits, random, request, reading);
      AttemptsPreauth(s, s', limits, request.endpoint, request.inputBytes, answer != Reject(RejectRateLimited),
        reading.mono)
  {
    hide Inv, ChargePreauth, LiveAuthority, ExpireRelay, Challenge0, Evolves, SameElsewhere, Drops;
    var now := reading.mono;
    ChargePreauthKeepsInv(s, limits, request.endpoint, request.inputBytes, now);
    var (s1, ok) := ChargePreauth(s, limits, request.endpoint, request.inputBytes, now);
    var s' := BeginChallenge(s, limits, random, request, reading).0;
    DropsReflexive(s1.gate);
    if ok && request.endpoint.IsValid() && request.grantID in s1.grantsByID {
      var r := s1.grantsByID[request.grantID];
      GrantsIndexed(s1, limits, request.grantID);
      LiveAuthorityKeepsInv(s1, limits, r, now);
      AuthorityDrops(s1, limits, r, now);
      GrantFacts(s1, limits, r);
      var (s2, reason) := LiveAuthority(s1, limits, r, now);
      if reason.None? {
        ExpireRelayDrops(s2, r, now);
        ExpireKeepsLive(s2, r, now);
        ExpireFrame(s2, r, now);
        ChallengeDrops(ExpireRelay(s2, r, now), limits, random, r, request, reading);
        DropsTransitive(s1.gate, ExpireRelay(s2, r, now).gate,
          Challenge0(ExpireRelay(s2, r, now), limits, random, r, request, reading).0.gate);
      }
    }
  }

  lemma RecallDrops(s: State, hmac: Hmac, r: Ref, request: AuthenticateRequest, now: int)
    requires r in s.heap && s.heap[r].recent.Some? && s.heap[r].secret.Some?
    ensures Drops(s.gate, Recall(s, hmac, r, request, now).0.gate)
      && Recall(s, hmac, r, request, now).1 != Reject(RejectRateLimited)
  {
    hide RecallRefusal, ClearedBinding, ClearedRecent, Put, Drops;
    RecallVerdict(hmac, s.heap[r], request, now);
    var g := s.heap[r];
    DropsReflexive(s.gate);
    PutDrops(s, r, if g.binding.Some? && now >= g.binding.value.deadline then ClearedBinding(g) else ClearedRecent(g));
  }

  lemma CompleteDrops(s: State, limits: Limits, hmac: Hmac, random: Random, r: Ref, request: AuthenticateRequest,
      reading: ClockReading)
    requires r in s.heap && s.heap[r].secret.Some? && s.heap[r].roomID in s.rooms
    ensures Drops(s.gate, CompletePending(s, limits, hmac, random, r, request, reading).0.gate)
    ensures CompletePending(s, limits, hmac, random, r, request, reading).1 != Reject(RejectRateLimited)
  {
    hide PendingRefusal, Complete, ClearedPending, Put, Drops;
    PendingVerdict(hmac, s.heap[r], request, reading.mono);
    DropsReflexive(s.gate);
    PutDrops(s, r, ClearedPending(s.heap[r]));
    if s.heap[r].pending.Some? { FirstCompleteDrops(s, limits, hmac, random, r, request.endpoint, reading); }
  }

  lemma FirstCompleteDrops(s: State, limits: Limits, hmac: Hmac, random: Random, r: Ref, endpoint: Endpoint,
      reading: ClockReading)
    requires r in s.heap && s.heap[r].pending.Some? && s.heap[r].secret.Some? && s.heap[r].roomID in s.rooms
    ensures Drops(s.gate, Complete(s, limits, hmac, random, r, endpoint, reading).0.gate)
    ensures Complete(s, limits, hmac, random, r, endpoint, reading).1 != Reject(RejectRateLimited)
  {
    hide ProjectWireExpiryUnixMS, Tag, BindingKeyOf, UniqueID, Put, Rebound, Drops;
    DropsReflexive(s.gate);
    if Complete(s, limits, hmac, random, r, endpoint, reading).1.Admit? {
      CompletedPut(s, limits, hmac, random, r, endpoint, reading);
      var s' := Complete(s, limits, hmac, random, r, endpoint, reading).0;
      PutDrops(s.(drawn := s'.drawn), r, Rebound(s.heap[r], s'.heap[r].recent.value, s'.heap[r].binding.value));
    }
  }

  /** An authentication pays in the pre-authentication class and in no other. */
  lemma AuthChargesPreauth(s: State, limits: Limits, hmac: Hmac, random: Random, request: AuthenticateRequest,
      reading: ClockReading)
    requires Inv(s, limits)
    ensures var (s', answer) := Authenticate(s, limits, hmac, random, request, reading);
      AttemptsPreauth(s, s', limits, request.endpoint, request.inputBytes, answer != Reject(RejectRateLimited),
        reading.mono)
  {
    hide Inv, ChargePreauth, LiveAuthority, Recall, CompletePending, Evolves, SameElsewhere, Drops, CandidateIDs;
    var now := reading.mono;
    ChargePreauthKeepsInv(s, limits, request.endpoint, request.inputBytes, now);
    var (s1, ok) := ChargePreauth(s, limits, request.endpoint, request.inputBytes, now);
    var s' := Authenticate(s, limits, hmac, random, request, reading).0;
    DropsReflexive(s1.gate);
    if ok && request.endpoint.IsValid() && request.candidateID in s1.candidatesByID {
      var r := s1.candidatesByID[request.candidateID];
      CandidateIndexed(s1, limits, request.candidateID);
      LiveAuthorityKeepsInv(s1, limits, r, now);
      AuthorityDrops(s1, limits, r, now);
      GrantFacts(s1, limits, r);
      if LiveAuthority(s1, limits, r, now).1.None? {
        if s1.heap[r].recent.Some? && s1.heap[r].recent.value.candidateID == request.candidateID {
          RecallDrops(s1, hmac, r, request, now);
        } else {
          CompleteDrops(s1, limits, hmac, random, r, request, reading);
        }
      }
    }
  }

  // ---------------------------------------------------------------- fan-out

  predicate IsFanout(n: LimiterName) {
    n.FanoutGlobalWrites? || n.FanoutGlobalBytes? || n.RoomFanoutWrites? || n.RoomFanoutBytes?
  }

  /** Only limiters of fan-out were charged; others may have gone with their owner. */
  ghost predicate OnlyFanout(g: Gate, g': Gate) {
    && g'.sources == g.sources
    && forall n | n in g'.buckets && !IsFanout(n) :: n in g.buckets && g'.buckets[n] == g.buckets[n]
  }

  lemma FanoutChargesFanout(s: State, limits: Limits, admitted: AdmittedClientData, outputBytes: int, now: int)
    requires Inv(s, limits) && limits.Valid()
    ensures OnlyFanout(s.gate, AdmitFanout(s, limits, admitted, outputBytes, now).0.gate)
  {
    hide Inv, AdmitFanout, Evolves, Audience, ChargedExactly, ChargedNothing, FanoutCharges;
    FanoutKeepsInv(s, limits, admitted, outputBytes, now);
    if SenderMatches(s, admitted) {
      var r := s.bindingsByID[admitted.bindingID];
      BindingIndexed(s, limits, admitted.bindingID);
      GrantFacts(s, limits, r);
      GrantsResident(s, limits, s.heap[r].roomID);
      if outputBytes >= 0 {
        var n := |Audience(s, s.rooms[s.heap[r].roomID].grants, r, now)|;
        FanoutNames(s.heap[r].roomID, n, PlannedBytes(outputBytes, n));
      }
    }
  }

  lemma FanoutNames(room: string, writes: nat, bytes: nat)
    ensures forall n | Named(FanoutCharges(room, writes, bytes), n) :: IsFanout(n)
  {
  }

  lemma OnlyFanoutReflexive(g: Gate)
    ensures OnlyFanout(g, g)
  {
  }

  // ---------------------------------------------------------------- the limiters of the whole relay

  /** The limiters that no room, grant or source owns. */
  predicate IsGlobal(n: LimiterName) {
    || n.PreauthGlobalPackets? || n.PreauthGlobalBytes? || n.IngressGlobalPackets? || n.IngressGlobalBytes?
    || n.FanoutGlobalWrites? || n.FanoutGlobalBytes?
  }

  lemma GlobalsExist(s: State, limits: Limits, n: LimiterName)
    requires Inv(s, limits) && IsGlobal(n)
    ensures n in s.gate.buckets && Configured(s.gate.buckets[n], limits.BudgetOf(n))
  {
    LimitersHold(s, limits);
    hide Inv;
    if !IsPreauth(n) { assert Needed(s, n); }
  }

  /** The bucket was charged this cost at `now`, or was left alone. */
  ghost predicate Paid(b: Bucket, b': Bucket, cost: nat, now: int) {
    b' == b || (Affords(b, cost, now) && b' == AllowN(b, now, cost).0)
  }

  /** What one step of a run asks of a limiter of the whole relay: one packet and its bytes of
      admission or of ingress, one write and its bytes for each recipient of fan-out. */
  ghost function Asked(s: State, env: Env, step: Step, n: LimiterName): nat
    requires Inv(s, env.limits)
  {
    hide Inv;
    if n.FanoutGlobalWrites? || n.FanoutGlobalBytes? then
      if step.op.OnFanout?
         && AdmitFanout(s, env.limits, step.op.admitted, step.op.outputBytes, step.reading.mono).1.Admit? then
        var writes :=
          |AdmitFanout(s, env.limits, step.op.admitted, step.op.outputBytes, step.reading.mono).1.value.recipients|;
        if n.FanoutGlobalWrites? then writes else AtLeastZero(step.op.outputBytes) * writes
      else 0
    else if n.PreauthGlobalPackets? || n.IngressGlobalPackets? then 1
    else AtLeastZero(BytesOf(step.op))
  }

  function AtLeastZero(n: int): nat { if n < 0 then 0 else n }

  function BytesOf(op: Operation): int {
    match op
    case OnPreauth(_, bytes) => bytes
    case OnHello(request) => request.inputBytes
    case OnAuthenticate(request) => request.inputBytes
    case OnPacket(_, _, _, bytes) => bytes
    case _ => 0
  }

  lemma DropsPay(s: State, s': State, limits: Limits, n: LimiterName)
    requires Inv(s, limits) && Inv(s', limits) && IsGlobal(n) && Drops(s.gate, s'.gate)
    ensures n in s.gate.buckets && n in s'.gate.buckets && s'.gate.buckets[n] == s.gate.buckets[n]
  {
    hide Inv;
    GlobalsExist(s, limits, n);
    GlobalsExist(s', limits, n);
  }

  /** One admission pays one packet and its bytes to the global limiters of its class, if it pays. */
  lemma PreauthPays(s: State, limits: Limits, endpoint: Endpoint, bytes: int, now: int, n: LimiterName)
    requires Inv(s, limits) && IsGlobal(n)
    ensures var s' := ChargePreauth(s, limits, endpoint, bytes, now).0;
      && n in s.gate.buckets && n in s'.gate.buckets
      && (if IsPreauth(n) then Paid(s.gate.buckets[n], s'.gate.buckets[n], if n.PreauthGlobalPackets? then 1
         else AtLeastZero(bytes), now)
          else s'.gate.buckets[n] == s.gate.buckets[n])
  {
    hide Inv, AdmitPreauth, Configured, Admission.Admitted, Refreshed, GateOK, Paid, Evolves;
    GlobalsExist(s, limits, n);
    GateHolds(s, limits);
    ChargePreauthKeepsInv(s, limits, endpoint, bytes, now);
    GlobalsExist(ChargePreauth(s, limits, endpoint, bytes, now).0, limits, n);
    if IsPreauth(n) {
      PreauthExactly(s.gate, limits, endpoint, bytes, now);
      PaidNothing(s.gate.buckets[n], now);
      if SourceKeyOf(endpoint).Some? {
        RefreshedSpares(s.gate, SourceKeyOf(endpoint).value, now, n);
        AdmittedPays(Refreshed(s.gate, SourceKeyOf(endpoint).value, now),
          AdmitPreauth(s.gate, limits, endpoint, bytes, now).0, limits,
                     SourceKeyOf(endpoint).value, AtLeastZero(bytes),
                       AdmitPreauth(s.gate, limits, endpoint, bytes, now).1, now, n);
      }
    }
  }

  lemma RefreshedSpares(g: Gate, key: SourceKey, now: int, n: LimiterName)
    requires n in g.buckets && IsGlobal(n)
    ensures n in Refreshed(g, key, now).buckets && Refreshed(g, key, now).buckets[n] == g.buckets[n]
  {
  }

  lemma AdmittedPays(g: Gate, g': Gate, limits: Limits, key: SourceKey, bytes: nat, ok: bool, now: int, n: LimiterName)
    requires Admission.Admitted(g, g', limits, key, bytes, ok, now) && n in g.buckets && n in g'.buckets
      && (n.PreauthGlobalPackets? || n.PreauthGlobalBytes?)
    ensures Paid(g.buckets[n], g'.buckets[n], if n.PreauthGlobalPackets? then 1 else bytes, now)
  {
    hide TokensAt;
    var i := if n.PreauthGlobalPackets? then 2 else 3;
    assert SourceCharges(key, bytes)[i] == GlobalCharges(bytes)[i - 2];
    assert ok ==> Taken(g, g', limits, SourceCharges(key, bytes)[i], now);
    assert AllTaken(g, g', limits, GlobalCharges(bytes), now) ==>
      Taken(g, g', limits, GlobalCharges(bytes)[i - 2], now);
  }

  lemma AttemptsPreauthPays(s: State, s': State, limits: Limits, endpoint: Endpoint, bytes: int, taken: bool, now: int,
      n: LimiterName)
    requires Inv(s, limits) && Inv(s', limits) && IsGlobal(n)
      && AttemptsPreauth(s, s', limits, endpoint, bytes, taken, now)
    ensures n in s.gate.buckets && n in s'.gate.buckets
    ensures if IsPreauth(n) then Paid(s.gate.buckets[n], s'.gate.buckets[n], if n.PreauthGlobalPackets? then 1
      else AtLeastZero(bytes), now)
            else s'.gate.buckets[n] == s.gate.buckets[n]
  {
    hide Inv, ChargePreauth, Paid, Drops;
    PreauthPays(s, limits, endpoint, bytes, now, n);
    ChargePreauthKeepsInv(s, limits, endpoint, bytes, now);
    DropsPay(ChargePreauth(s, limits, endpoint, bytes, now).0, s', limits, n);
  }

  lemma AttemptedPays(g: Gate, g': Gate, charges: seq<Charge<LimiterName>>, taken: bool, now: int, i: nat)
    requires Attempted(g, g', charges, taken, now) && i < |charges|
    ensures var n := charges[i].limiter;
      n in g.buckets && n in g'.buckets && Paid(g.buckets[n], g'.buckets[n], charges[i].cost, now)
  {
    hide TokensAt;
  }

  lemma IngressPays(s: State, s': State, limits: Limits, r: Ref, bytes: int, taken: bool, now: int, n: LimiterName)
    requires Inv(s, limits) && Inv(s', limits) && IsGlobal(n) && AttemptsIngress(s, s', r, bytes, taken, now)
    ensures n in s.gate.buckets && n in s'.gate.buckets
    ensures if n.IngressGlobalPackets? || n.IngressGlobalBytes?
            then Paid(s.gate.buckets[n], s'.gate.buckets[n], if n.IngressGlobalPackets? then 1 else bytes, now)
            else s'.gate.buckets[n] == s.gate.buckets[n]
  {
    hide Inv, Paid, Configured;
    GlobalsExist(s, limits, n);
    GlobalsExist(s', limits, n);
    var charges := IngressCharges(r, s.heap[r].roomID, bytes);
    if n.IngressGlobalPackets? { AttemptedPays(s.gate, s'.gate, charges, taken, now, 4); }
    if n.IngressGlobalBytes? { AttemptedPays(s.gate, s'.gate, charges, taken, now, 5); }
    assert charges[4].limiter == IngressGlobalPackets && charges[5].limiter == IngressGlobalBytes;
  }

  lemma FanoutPays(s: State, limits: Limits, admitted: AdmittedClientData, outputBytes: int, now: int, n: LimiterName)
    requires Inv(s, limits) && limits.Valid() && IsGlobal(n)
    ensures var (s', answer) := AdmitFanout(s, limits, admitted, outputBytes, now);
      && n in s.gate.buckets && n in s'.gate.buckets
      && if (n.FanoutGlobalWrites? || n.FanoutGlobalBytes?) && answer.Admit?
         then Paid(s.gate.buckets[n], s'.gate.buckets[n],
                   if n.FanoutGlobalWrites? then |answer.value.recipients|
                     else AtLeastZero(outputBytes) * |answer.value.recipients|, now)
         else s'.gate.buckets[n] == s.gate.buckets[n]
  {
    hide Inv, AdmitFanout, Evolves, Audience, Paid, Configured, Drops, FanoutOutcome, OnlyFanout;
    var (s', answer) := AdmitFanout(s, limits, admitted, outputBytes, now);
    FanoutKeepsInv(s, limits, admitted, outputBytes, now);
    FanoutChargesFanout(s, limits, admitted, outputBytes, now);
    GlobalsExist(s, limits, n);
    GlobalsExist(s', limits, n);
    if !IsFanout(n) {
      OnlyFanoutSpares(s.gate, s'.gate, n);
    } else if SenderMatches(s, admitted) {
      var r := s.bindingsByID[admitted.bindingID];
      BindingIndexed(s, limits, admitted.bindingID);
      if !Unexpired(s.heap[r], now) {
        DropsPay(s, s', limits, n);
      } else if 0 <= outputBytes <= MAX_DATAGRAM_BYTES {
        OutcomePays(s, s', limits, r, admitted.sequence, outputBytes, answer, now, n);
      }
    }
  }

  lemma OnlyFanoutSpares(g: Gate, g': Gate, n: LimiterName)
    requires OnlyFanout(g, g') && n in g'.buckets && !IsFanout(n)
    ensures n in g.buckets && g'.buckets[n] == g.buckets[n]
  {
  }

  lemma OutcomePays(s: State, s': State, limits: Limits, r: Ref, sequence: nat, outputBytes: nat,
      answer: Answer<RelayPlan>, now: int, n: LimiterName)
    requires Inv(s, limits) && Inv(s', limits) && FanoutOutcome(s, s', r, sequence, outputBytes, answer, now)
    requires n.FanoutGlobalWrites? || n.FanoutGlobalBytes?
    ensures n in s.gate.buckets && n in s'.gate.buckets
    ensures if answer.Admit?
            then Paid(s.gate.buckets[n], s'.gate.buckets[n], if n.FanoutGlobalWrites? then |answer.value.recipients|
              else outputBytes * |answer.value.recipients|, now)
            else s'.gate.buckets[n] == s.gate.buckets[n]
  {
    hide Inv, Audience, Paid, Drops, ChargedExactly;
    var audience := Audience(s, s.rooms[s.heap[r].roomID].grants, r, now);
    if audience == [] {
      DropsPay(s, s', limits, n);
      PaidNothing(s.gate.buckets[n], now);
    } else {
      var charges := FanoutCharges(s.heap[r].roomID, |audience|, PlannedBytes(outputBytes, |audience|));
      assert charges[2].limiter == FanoutGlobalWrites && charges[3].limiter == FanoutGlobalBytes;
      AttemptedPays(s.gate, s'.gate, charges, answer.Admit?, now, if n.FanoutGlobalWrites? then 2 else 3);
      hide Attempted;
      if answer.Reject? { RefusedFanout(s.gate, s'.gate, charges, now, if n.FanoutGlobalWrites? then 2 else 3); }
    }
  }

  lemma PaidNothing(b: Bucket, now: int)
    ensures forall cost: nat :: Paid(b, b, cost, now)
  {
  }

  lemma RefusedFanout(g: Gate, g': Gate, charges: seq<Charge<LimiterName>>, now: int, i: nat)
    requires Attempted(g, g', charges, false, now) && i < |charges|
    ensures charges[i].limiter in g.buckets && charges[i].limiter in g'.buckets
      && g'.buckets[charges[i].limiter] == g.buckets[charges[i].limiter]
  {
  }

  // ---------------------------------------------------------------- rooms

  lemma {:induction false} SweepGrantsDrop(s: State, refs: seq<Ref>, now: int)
    requires Resident(s, refs)
    ensures Drops(s.gate, SweepGrants(s, refs, now).gate)
    decreases |refs|
  {
    hide ExpiredRelay, Terminated, Put, Drops;
    if refs == [] {
      DropsReflexive(s.gate);
    } else {
      var s1 := ExpireRelay(s, refs[0], now);
      PutDrops(s, refs[0], ExpiredRelay(s.heap[refs[0]], now));
      ExpireFrame(s, refs[0], now);
      PutDrops(s1, refs[0], Terminated(s1.heap[refs[0]], Expired));
      var s2 := SweepGrant(s, refs[0], now);
      DropsReflexive(s1.gate);
      DropsTransitive(s.gate, s1.gate, s2.gate);
      FirstSwept(s, refs, now);
      SweepGrantsDrop(s2, refs[1..], now);
      DropsTransitive(s.gate, s2.gate, SweepGrants(s2, refs[1..], now).gate);
    }
  }

  lemma SweepRoomDrops(s: State, limits: Limits, id: string, now: int)
    requires Inv(s, limits) && RoomGrantsResident(s, id)
    ensures Drops(s.gate, SweepRoom(s, limits, id, now).gate)
  {
    hide Inv, SweepGrants, TombstoneRoom, Drops, LastDeadline, Evolves;
    DropsReflexive(s.gate);
    if !s.rooms[id].state.Tombstone? {
      var s1 := SweepGrants(s, s.rooms[id].grants, now);
      SweepGrantsDrop(s, s.rooms[id].grants, now);
      SweptRoomFacts(s, limits, id, now);
      var s2 := MarkEmpty(s1, id);
      DropsReflexive(s1.gate);
      RetireDrops(s1, limits, id, now);
      DropsTransitive(s.gate, s1.gate, RetireIfDue(s1, limits, id, now).gate);
    }
  }

  lemma RetireDrops(s: State, limits: Limits, id: string, now: int)
    requires Inv(s, limits) && RoomGrantsResident(s, id) && !s.rooms[id].state.Tombstone?
    requires forall i | 0 <= i < |s.rooms[id].grants| ::
      Live(s.heap[s.rooms[id].grants[i]]) ==> now < s.heap[s.rooms[id].grants[i]].monoDeadline
    ensures Drops(s.gate, RetireIfDue(s, limits, id, now).gate)
  {
    hide Inv, TombstoneRoom, Drops, Evolves;
    DropsReflexive(s.gate);
    if now >= s.rooms[id].monoDeadline {
      TombstoneDrops(s, limits, id, now, Expired);
    } else if now >= LastDeadline(s, s.rooms[id].grants) {
      RoomShape(s, limits, id);
      MarkEmptyDead(s, limits, id, now);
      TombstoneDrops(MarkEmpty(s, id), limits, id, now, Expired);
    }
  }

  lemma MarkEmptyDead(s: State, limits: Limits, id: string, now: int)
    requires Inv(s, limits) && RoomGrantsResident(s, id) && !s.rooms[id].state.Tombstone?
      && now >= LastDeadline(s, s.rooms[id].grants)
    requires |s.rooms[id].grants| > 0
    requires forall i | 0 <= i < |s.rooms[id].grants| ::
      Live(s.heap[s.rooms[id].grants[i]]) ==> now < s.heap[s.rooms[id].grants[i]].monoDeadline
    ensures Inv(MarkEmpty(s, id), limits)
  {
    hide Inv, Evolves;
    LastDeadlineIsMax(s, s.rooms[id].grants);
    hide LastDeadline;
    MarkEmptyKeepsInv(s, limits, id, now);
  }

  lemma {:induction false} SweepRoomsDrop(s: State, limits: Limits, order: seq<string>, now: int)
    requires Inv(s, limits)
    ensures Drops(s.gate, SweepRooms(s, limits, order, now).gate)
    decreases |order|
  {
    hide Inv, SweepRoom, Drops, Evolves;
    if order == [] {
      DropsReflexive(s.gate);
    } else if order[0] !in s.rooms {
      SweepRoomsDrop(s, limits, order[1..], now);
    } else {
      RoomsResident(s, limits);
      SweepRoomKeepsInv(s, limits, order[0], now);
      var s1 := SweepRoom(s, limits, order[0], now);
      SweepRoomDrops(s, limits, order[0], now);
      SweepRoomsDrop(s1, limits, order[1..], now);
      DropsTransitive(s.gate, s1.gate, SweepRooms(s1, limits, order[1..], now).gate);
    }
  }

  /** Ending or sweeping rooms, and creating one, charge no limiter of the whole relay. */
  lemma RoomStepPays(s: State, env: Env, step: Step, n: LimiterName)
    requires Inv(s, env.limits) && env.limits.Valid() && IsGlobal(n) && FreshStep(s, env, step)
    requires step.op.OnCreate? || step.op.OnEnd? || step.op.OnSweep?
    ensures var s' := Next(s, env, step);
      n in s.gate.buckets && n in s'.gate.buckets && s'.gate.buckets[n] == s.gate.buckets[n]
  {
    hide Inv, Next, FreshStep, Outcome, Configured;
    StepKeepsInv(s, env, step);
    GlobalsExist(s, env.limits, n);
    GlobalsExist(Next(s, env, step), env.limits, n);
    match step.op
    case OnCreate(id, d) => CreatePays(s, env, step, n);
    case OnEnd(id) => EndPays(s, env, step, n);
    case OnSweep(order) => SweepPays(s, env, step, n);
  }

  lemma CreatePays(s: State, env: Env, step: Step, n: LimiterName)
    requires Inv(s, env.limits) && IsGlobal(n) && step.op.OnCreate? && n in s.gate.buckets
    ensures var s' := Next(s, env, step); n in s'.gate.buckets && s'.gate.buckets[n] == s.gate.buckets[n]
  {
    hide Inv, AllocateRoom, DropStale, AllocationAt, ValidParticipants, Sort, SameDefinition, AccessTerminal;
    RoomsResident(s, env.limits);
    var id, d := step.op.roomID, step.op.definition;
    if Canonical(id, d, env.limits).Ok? {
      DropStaleFrame(s, id, step.reading.mono);
      AllocateSpares(DropStale(s, id, step.reading.mono), env.limits, env.random, id,
        Canonical(id, d, env.limits).value, step.reading, n);
    }
  }

  lemma AllocateSpares(s: State, limits: Limits, random: Random, id: string, d: Definition, reading: ClockReading,
      n: LimiterName)
    requires IsGlobal(n) && n in s.gate.buckets
    ensures var s' := AllocateRoom(s, limits, random, id, d, reading).0;
      n in s'.gate.buckets && s'.gate.buckets[n] == s.gate.buckets[n]
  {
    hide AddRoom, DrawCredentials, AllocationAt, DeadlinesFit, Full;
    var (credentials, next) := DrawCredentials(random, s.drawn, s.grantsByID.Keys, |d.participants|);
    CredentialsAreFree(random, s.drawn, s.grantsByID.Keys, |d.participants|);
    if DeadlinesFit(d, limits, reading) && credentials.Some? {
      AddRoomSpares(s.(drawn := next), limits, id, d, credentials.value, reading, n);
    }
  }

  lemma AddRoomSpares(s: State, limits: Limits, id: string, d: Definition, credentials: seq<Credential>,
      reading: ClockReading, n: LimiterName)
    requires |credentials| == |d.participants| && DeadlinesFit(d, limits, reading) && IsGlobal(n) && n in s.gate.buckets
    ensures var s' := AddRoom(s, limits, id, d, credentials, reading);
      n in s'.gate.buckets && s'.gate.buckets[n] == s.gate.buckets[n]
  {
    hide NewHeap, NewIndex, NewRefs, DeadlineWithin;
  }

  lemma EndPays(s: State, env: Env, step: Step, n: LimiterName)
    requires Inv(s, env.limits) && Inv(Next(s, env, step), env.limits) && IsGlobal(n) && step.op.OnEnd?
    ensures var s' := Next(s, env, step);
      n in s.gate.buckets && n in s'.gate.buckets && s'.gate.buckets[n] == s.gate.buckets[n]
  {
    hide Inv, TombstoneRoom, Drops;
    RoomsResident(s, env.limits);
    DropsReflexive(s.gate);
    if step.op.ended in s.rooms { TombstoneDrops(s, env.limits, step.op.ended, step.reading.mono, Revoked); }
    DropsPay(s, Next(s, env, step), env.limits, n);
  }

  lemma SweepPays(s: State, env: Env, step: Step, n: LimiterName)
    requires Inv(s, env.limits) && IsGlobal(n) && step.op.OnSweep?
    ensures var s' := Next(s, env, step);
      n in s.gate.buckets && n in s'.gate.buckets && s'.gate.buckets[n] == s.gate.buckets[n]
  {
    hide Inv, SweepRooms, Drops, Evolves;
    var s1 := SweepRooms(s, env.limits, step.op.order, step.reading.mono);
    SweepRoomsDrop(s, env.limits, step.op.order, step.reading.mono);
    SweepRoomsKeepsInv(s, env.limits, step.op.order, step.reading.mono);
    DropsPay(s, s1, env.limits, n);
  }

  // ---------------------------------------------------------------- a budget over a run

  /** Every step leaves a limiter of the whole relay alone, or charges it exactly what it asks. */
  lemma StepPays(s: State, env: Env, step: Step, n: LimiterName)
    requires Inv(s, env.limits) && env.limits.Valid() && IsGlobal(n) && FreshStep(s, env, step)
    ensures var s' := Next(s, env, step);
      && n in s.gate.buckets && n in s'.gate.buckets
      && Paid(s.gate.buckets[n], s'.gate.buckets[n], Asked(s, env, step, n), step.reading.mono)
  {
    hide Inv, ChargePreauth, BeginChallenge, Authenticate, AdmitAuthenticated, AdmitFanout, FreshStep, Outcome, Paid,
         AttemptsPreauth, AttemptsIngress,
         FromCurrentBinding, ConsumesSequence, SamePreauth, Evolves, FanoutOutcome, CreateRoom, EndRoom, Expire,
           Rejection;
    StepKeepsInv(s, env, step);
    var now, s' := step.reading.mono, Next(s, env, step);
    GlobalsExist(s, env.limits, n);
    PaidNothing(s.gate.buckets[n], now);
    match step.op
    case OnPreauth(source, bytes) => PreauthPays(s, env.limits, source, bytes, now, n);
    case OnHello(request) =>
      HelloChargesPreauth(s, env.limits, env.random, request, step.reading);
      var taken := BeginChallenge(s, env.limits, env.random, request, step.reading).1 != Reject(RejectRateLimited);
      AttemptsPreauthPays(s, s', env.limits, request.endpoint, request.inputBytes, taken, now, n);
    case OnAuthenticate(request) =>
      AuthChargesPreauth(s, env.limits, env.hmac, env.random, request, step.reading);
      var taken :=
        Authenticate(s, env.limits, env.hmac, env.random, request, step.reading).1 != Reject(RejectRateLimited);
      AttemptsPreauthPays(s, s', env.limits, request.endpoint, request.inputBytes, taken, now, n);
    case OnPacket(packet, endpoint, authTag, bytes) =>
      IngressKeepsInv(s, env.limits, env.hmac, packet, endpoint, authTag, bytes, now);
      var taken :=
        AdmitAuthenticated(s, env.limits, env.hmac, packet, endpoint, authTag, bytes, now).1
        != Reject(RejectRateLimited);
      if FromCurrentBinding(s, env.hmac, packet, endpoint, authTag, now) && bytes >= 0 {
        CurrentIsIndexed(s, env.hmac, packet, endpoint, authTag, now);
        IngressPays(s, s', env.limits, s.bindingsByID[packet.bindingID], bytes, taken, now, n);
      } else {
        AttemptsPreauthPays(s, s', env.limits, endpoint, bytes, taken, now, n);
      }
    case OnFanout(admitted, outputBytes) => FanoutPays(s, env.limits, admitted, outputBytes, now, n);
    case _ => RoomStepPays(s, env, step, n);
  }
}
