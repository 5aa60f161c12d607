/** Runs of the store: what holds after any sequence of operations. */
module StoreRuns {
  import opened Prelude
  import opened RateLimit
  import opened Admission
  import opened Identifier
  import opened Definitions
  import opened Transcript
  import opened StoreModel
  import opened StoreDeletion
  import opened StoreAdmission
  import opened StoreInvariant
  import opened StoreRooms
  import opened StoreCreation
  import ReplayWindow

  // ---------------------------------------------------------------- steps

  /** What a run never changes: the configuration, the keyed hash and the random stream. */
  datatype Env = Env(limits: Limits, hmac: Hmac, random: Random)

  type Packet = m: Message | m.ClientDataMessage? || m.PingMessage? witness PingMessage(0, "", "", [], 0)

  datatype Operation =
    | OnPreauth(source: Endpoint, bytes: int)
    | OnHello(challenge: ChallengeRequest)
    | OnAuthenticate(authenticate: AuthenticateRequest)
    | OnPacket(packet: Packet, endpoint: Endpoint, authTag: Bytes, inputBytes: int)
    | OnFanout(admitted: AdmittedClientData, outputBytes: int)
    | OnCreate(roomID: string, definition: Definition)
    | OnEnd(ended: string)
    | OnSweep(order: seq<string>)

  datatype Step = Step(op: Operation, reading: ClockReading)

  /** Creating the room of one step, in any state of the invariant. */
  ghost function Created(s: State, env: Env, step: Step): (State, Result<(Allocation, bool), StoreError>)
    requires Inv(s, env.limits) && step.op.OnCreate?
  {
    hide Inv;
    RoomsResident(s, env.limits);
    CreateRoom(s, env.limits, env.random, step.op.roomID, step.op.definition, step.reading)
  }

  ghost function Ended(s: State, env: Env, step: Step): State
    requires Inv(s, env.limits) && step.op.OnEnd?
  {
    hide Inv;
    RoomsResident(s, env.limits);
    EndRoom(s, env.limits, step.op.ended, step.reading.mono).0
  }

  ghost function Next(s: State, env: Env, step: Step): State
    requires Inv(s, env.limits)
  {
    hide Inv;
    var now := step.reading.mono;
    match step.op
    case OnPreauth(source, bytes) => ChargePreauth(s, env.limits, source, bytes, now).0
    case OnHello(request) => BeginChallenge(s, env.limits, env.random, request, step.reading).0
    case OnAuthenticate(request) => Authenticate(s, env.limits, env.hmac, env.random, request, step.reading).0
    case OnPacket(packet, endpoint, authTag, inputBytes) =>
      AdmitAuthenticated(s, env.limits, env.hmac, packet, endpoint, authTag, inputBytes, now).0
    case OnFanout(admitted, outputBytes) => AdmitFanout(s, env.limits, admitted, outputBytes, now).0
    case OnCreate(_, _) => Created(s, env, step).0
    case OnEnd(_) => Ended(s, env, step)
    case OnSweep(order) => Expire(s, env.limits, order, now)
  }

  /** Why the UDP side rejects the step, if it does. */
  ghost function Rejection(s: State, env: Env, step: Step): Option<Reason>
    requires Inv(s, env.limits)
  {
    hide Inv;
    var now := step.reading.mono;
    match step.op
    case OnPreauth(source, bytes) => if ChargePreauth(s, env.limits, source, bytes, now).1 then None
      else Some(RejectRateLimited)
    case OnHello(request) => ReasonOf(BeginChallenge(s, env.limits, env.random, request, step.reading).1)
    case OnAuthenticate(request) => ReasonOf(Authenticate(s, env.limits, env.hmac, env.random, request, step.reading).1)
    case OnPacket(packet, endpoint, authTag, inputBytes) =>
      ReasonOf(AdmitAuthenticated(s, env.limits, env.hmac, packet, endpoint, authTag, inputBytes, now).1)
    case OnFanout(admitted, outputBytes) => ReasonOf(AdmitFanout(s, env.limits, admitted, outputBytes, now).1)
    case _ => None
  }

  function ReasonOf<T>(answer: Answer<T>): Option<Reason> {
    if answer.Reject? then Some(answer.reason) else None
  }

  /** A step that creates a room draws grant identifiers unused by any resident grant. */
  ghost predicate FreshStep(s: State, env: Env, step: Step)
    requires Inv(s, env.limits)
  {
    step.op.OnCreate? && Created(s, env, step).1.Ok? && Created(s, env, step).1.value.1 ==>
      DrawsFresh(s, env.random, |step.op.definition.participants|)
  }

  // ---------------------------------------------------------------- ending a room

  /** The grants of room `id` left the store, and no other grant changed. */
  ghost predicate Ends(s: State, s': State, id: string) {
    && s'.nextRef == s.nextRef
    && (forall r | r in s.heap && s.heap[r].roomID != id :: r in s'.heap && s'.heap[r] == s.heap[r])
    && (forall r | r in s'.heap :: r in s.heap && s.heap[r].roomID != id)
    && (forall q | q != id :: KeptRoom(s, s', q))
  }

  lemma InvRooms(s: State, limits: Limits)
    requires Inv(s, limits)
    ensures RoomsOK(s, limits)
  {
  }

  lemma EndRoomKeepsInv(s: State, limits: Limits, id: string, now: int)
    requires Inv(s, limits)
    ensures forall r | r in s.rooms :: Resident(s, s.rooms[r].grants)
    ensures var (s', ok) := EndRoom(s, limits, id, now);
      && Inv(s', limits) && (ok <==> ValidID(id))
      && (if ok && id in s.rooms && !s.rooms[id].state.Tombstone?
          then Ends(s, s', id) && id in s'.rooms && s'.rooms == s.rooms[id := s'.rooms[id]]
               && s'.rooms[id] == TombstoneRecord(SaturatingAdd(now, limits.tombstoneTTL))
          else s' == (if ok && id in s.rooms && Stale(s.rooms[id], now) then s.(rooms := s.rooms - {id}) else s)
               && Evolves(s, s', now) && (ok ==> (id in s'.rooms ==> s'.rooms[id].state.Tombstone?)))
  {
    hide Inv, Evolves, TombstoneRoom, RoomsOK;
    RoomsResident(s, limits);
    EvolvesReflexive(s, now);
    if id in s.rooms {
      DropStaleKeepsInv(s, limits, id, now);
      TombstoneKeepsInv(s, limits, id, now, Revoked);
      InvRooms(s, limits);
      TombstoneFrame(s, limits, id, now, Revoked);
    }
  }

  // ---------------------------------------------------------------- one step

  /** The handshake of a completed authentication replaces the binding of `r`. */
  ghost predicate Rebinding(s: State, env: Env, step: Step, r: Ref)
    requires Inv(s, env.limits)
  {
    step.op.OnAuthenticate? && Rebinds(s, Next(s, env, step), r, step.reading.mono)
  }

  /** The step ends the room of `r`. */
  predicate Ending(s: State, step: Step, r: Ref) {
    step.op.OnEnd? && ValidID(step.op.ended) && r in s.heap && s.heap[r].roomID == step.op.ended
  }

  /** A step either ends nothing unexpired, or completes a handshake, or ends a room. */
  ghost predicate Outcome(s: State, s': State, step: Step) {
    || Evolves(s, s', step.reading.mono)
    || (step.op.OnAuthenticate? && step.op.authenticate.candidateID in s.candidatesByID
        && Rebinds(s, s', s.candidatesByID[step.op.authenticate.candidateID], step.reading.mono))
    || (step.op.OnEnd? && ValidID(step.op.ended) && Ends(s, s', step.op.ended))
  }

  lemma AuthenticateOutcome(s: State, env: Env, request: AuthenticateRequest, reading: ClockReading)
    requires Inv(s, env.limits) && env.limits.Valid()
    ensures var (s', answer) := Authenticate(s, env.limits, env.hmac, env.random, request, reading);
      && Inv(s', env.limits) && answer != Reject(RejectRevoked)
      && (Evolves(s, s', reading.mono) ||
          (request.candidateID in s.candidatesByID
            && Rebinds(s, s', s.candidatesByID[request.candidateID], reading.mono)))
  {
    hide Inv, Evolves, Authenticate, Rebinds;
    AuthenticateKeepsInv(s, env.limits, env.hmac, env.random, request, reading);
    var (s', answer) := Authenticate(s, env.limits, env.hmac, env.random, request, reading);
    if answer.Admit? { GateEvolves(s, s'.gate, reading.mono); }
  }

  /** Any operation, in any state of the invariant: the invariant survives exactly when a
      created room draws fresh grant identifiers, and nobody is told that a grant is revoked. */
  lemma StepKeepsInv(s: State, env: Env, step: Step)
    requires Inv(s, env.limits) && env.limits.Valid()
    ensures Inv(Next(s, env, step), env.limits) <==> FreshStep(s, env, step)
    ensures Outcome(s, Next(s, env, step), step)
    ensures Rejection(s, env, step) != Some(RejectRevoked)
  {
    hide Inv, Evolves, Rebinds, Ends, ChargePreauth, BeginChallenge, Authenticate, AdmitAuthenticated, AdmitFanout,
         CreateRoom, EndRoom,
         Expire, DrawsFresh, FromCurrentBinding, ConsumesSequence, SamePreauth, FanoutOutcome, Challenged,
           SameElsewhere;
    var now := step.reading.mono;
    match step.op {
      case OnPreauth(source, bytes) => ChargePreauthKeepsInv(s, env.limits, source, bytes, now);
      case OnHello(request) => BeginChallengeKeepsInv(s, env.limits, env.random, request, step.reading);
      case OnAuthenticate(request) => AuthenticateOutcome(s, env, request, step.reading);
      case OnPacket(packet, endpoint, authTag, inputBytes) =>
        IngressKeepsInv(s, env.limits, env.hmac, packet, endpoint, authTag, inputBytes, now);
      case OnFanout(admitted, outputBytes) => FanoutKeepsInv(s, env.limits, admitted, outputBytes, now);
      case OnCreate(id, d) => CreateRoomKeepsInv(s, env.limits, env.random, id, d, step.reading);
      case OnEnd(id) => EndRoomKeepsInv(s, env.limits, id, now);
      case OnSweep(order) => ExpireStoreKeepsInv(s, env.limits, order, now);
    }
  }

  /** Grant `r` lost nothing unexpired at `now`. */
  ghost predicate Kept(s: State, s': State, r: Ref, now: int) {
    && r in s.heap
    && (r in s'.heap ==> GrantEvolves(s.heap[r], s'.heap[r], now))
    && (r !in s'.heap ==> !Unexpired(s.heap[r], now) && !Lives(s.heap[r], now))
  }

  /** An unexpired binding is ended only by a completed handshake of the same grant or by the
      end of its room. */
  lemma OnlyRebindingOrEndingEnds(s: State, env: Env, step: Step, r: Ref)
    requires Inv(s, env.limits) && env.limits.Valid() && r in s.heap
    ensures !Ending(s, step, r) && !Rebinding(s, env, step, r) ==> Kept(s, Next(s, env, step), r, step.reading.mono)
  {
    hide Inv, Next, Outcome, Kept, Rebinds;
    StepKeepsInv(s, env, step);
    if !Ending(s, step, r) { OutcomeKeeps(s, Next(s, env, step), step, r); }
  }

  lemma OutcomeKeeps(s: State, s': State, step: Step, r: Ref)
    requires Outcome(s, s', step) && r in s.heap && !Ending(s, step, r)
    ensures (step.op.OnAuthenticate? && Rebinds(s, s', r, step.reading.mono)) || Kept(s, s', r, step.reading.mono)
  {
    hide GrantEvolves, SameIdentity, Live, Unexpired;
    GrantEvolvesReflexive(s.heap[r], step.reading.mono);
  }

  // ---------------------------------------------------------------- runs

  /** Every step of the run draws fresh grant identifiers. */
  ghost predicate FreshRun(s: State, env: Env, steps: seq<Step>)
    requires Inv(s, env.limits) && env.limits.Valid()
    decreases |steps|
  {
    hide Inv, Next, FreshStep;
    steps == [] ||
    (FreshStep(s, env, steps[0]) && (StepKeepsInv(s, env, steps[0]); FreshRun(Next(s, env, steps[0]), env, steps[1..])))
  }

  /** The state after a run: the invariant holds there, whatever the steps were. */
  ghost function Run(s: State, env: Env, steps: seq<Step>): (t: State)
    requires Inv(s, env.limits) && env.limits.Valid() && FreshRun(s, env, steps)
    ensures Inv(t, env.limits)
    decreases |steps|
  {
    hide Inv, Next, FreshStep;
    if steps == [] then s
    else
      StepKeepsInv(s, env, steps[0]);
      Run(Next(s, env, steps[0]), env, steps[1..])
  }

  /** In every reachable state, after any operations on a new store: the session counter is
      the number of live grants resident in rooms, the room counter that of open rooms, both
      within their limits, and no operation reports a revoked grant. */
  lemma ReachableStates(env: Env, steps: seq<Step>, step: Step)
    requires env.limits.Valid()
    ensures Inv(Init(env.limits), env.limits)
    ensures FreshRun(Init(env.limits), env, steps) ==>
      var t := Run(Init(env.limits), env, steps);
      && Inv(t, env.limits)
      && t.activeSessions == |LiveRefs(t.heap)| <= env.limits.maxActiveSessions
      && t.openRooms == |OpenRooms(t.rooms)| <= env.limits.maxOpenRooms
      && |t.gate.sources| <= HARD_MAX_SOURCES
      && Rejection(t, env, step) != Some(RejectRevoked)
  {
    hide Inv, Next, FreshRun, Run, Rejection, Outcome;
    InitOK(env.limits);
    if FreshRun(Init(env.limits), env, steps) {
      var t := Run(Init(env.limits), env, steps);
      ActiveSessionsIsLiveGrants(t, env.limits);
      StepKeepsInv(t, env, step);
      CountersHold(t, env.limits);
      GateHolds(t, env.limits);
    }
  }

  lemma CountersHold(s: State, limits: Limits)
    requires Inv(s, limits)
    ensures CountersOK(s, limits)
  {
  }

  /** A pointer below the allocation frontier never comes back. */
  lemma NeverReused(s: State, env: Env, step: Step, r: Ref)
    requires Inv(s, env.limits) && env.limits.Valid() && r < s.nextRef && r !in s.heap
    ensures r !in Next(s, env, step).heap && r < Next(s, env, step).nextRef
  {
    hide Inv, Next;
    StepKeepsInv(s, env, step);
  }

  lemma {:induction false} GoneForGood(s: State, env: Env, steps: seq<Step>, r: Ref)
    requires Inv(s, env.limits) && env.limits.Valid() && FreshRun(s, env, steps) && r < s.nextRef && r !in s.heap
    ensures r !in Run(s, env, steps).heap
    decreases |steps|
  {
    hide Inv, Next, FreshStep;
    if steps != [] {
      StepKeepsInv(s, env, steps[0]);
      NeverReused(s, env, steps[0], r);
      GoneForGood(Next(s, env, steps[0]), env, steps[1..], r);
    }
  }

  lemma StaysAllocated(s: State, env: Env, step: Step, r: Ref)
    requires Inv(s, env.limits) && env.limits.Valid() && r in s.heap
    ensures r < s.nextRef <= Next(s, env, step).nextRef
  {
    hide Inv, Next;
    RefsBelowNext(s, env.limits);
    StepKeepsInv(s, env, step);
  }

  // ---------------------------------------------------------------- generations

  /** How often the binding of `r` is replaced during a run. */
  ghost function Rebindings(s: State, env: Env, steps: seq<Step>, r: Ref): nat
    requires Inv(s, env.limits) && env.limits.Valid() && FreshRun(s, env, steps)
    decreases |steps|
  {
    hide Inv, Next, FreshStep, Rebinding;
    if steps == [] then 0
    else
      StepKeepsInv(s, env, steps[0]);
      (if Rebinding(s, env, steps[0], r) then 1 else 0) + Rebindings(Next(s, env, steps[0]), env, steps[1..], r)
  }

  lemma StepGeneration(s: State, env: Env, step: Step, r: Ref)
    requires Inv(s, env.limits) && env.limits.Valid() && r in s.heap && r in Next(s, env, step).heap
      && Live(Next(s, env, step).heap[r])
    ensures Live(s.heap[r]) && s.heap[r].generation <= MAX_UINT64
    ensures Next(s, env, step).heap[r].generation ==
      if Rebinding(s, env, step, r) then NextGeneration(s.heap[r].generation) else s.heap[r].generation
  {
    hide Inv, Next;
    GrantHolds(s, env.limits, r);
    StepKeepsInv(s, env, step);
    OnlyRebindingOrEndingEnds(s, env, step, r);
  }

  lemma GenerationFits(s: State, limits: Limits, r: Ref)
    requires Inv(s, limits) && r in s.heap
    ensures s.heap[r].generation <= MAX_UINT64 && s.heap[r].generation == Wrap64(s.heap[r].generation)
  {
    hide Inv;
    GrantHolds(s, limits, r);
  }

  lemma GenerationAdds(g: nat, first: nat, rest: nat)
    requires first <= 1
    requires g <= MAX_UINT64
    ensures Wrap64((if first == 1 then NextGeneration(g) else g) + rest) == Wrap64(g + (first + rest))
  {
  }

  lemma EmptyRunUnfolds(s: State, env: Env, steps: seq<Step>, r: Ref)
    requires Inv(s, env.limits) && env.limits.Valid() && FreshRun(s, env, steps) && steps == []
    ensures Run(s, env, steps) == s && Rebindings(s, env, steps, r) == 0
  {
    hide Inv, Next, FreshStep, Rebinding;
  }

  lemma RunUnfolds(s: State, env: Env, steps: seq<Step>, r: Ref)
    requires Inv(s, env.limits) && env.limits.Valid() && FreshRun(s, env, steps) && steps != []
    ensures FreshStep(s, env, steps[0]) && Inv(Next(s, env, steps[0]), env.limits)
    ensures var s1 := Next(s, env, steps[0]);
      && FreshRun(s1, env, steps[1..]) && Run(s, env, steps) == Run(s1, env, steps[1..])
      && Rebindings(s, env, steps, r) == (if Rebinding(s, env, steps[0], r) then 1
         else 0) + Rebindings(s1, env, steps[1..], r)
  {
    hide Inv, Next, FreshStep, Rebinding;
    StepKeepsInv(s, env, steps[0]);
  }

  /** While a grant lives, its generation counts its bindings, modulo 2^64: it strictly
      increases with every new binding until it wraps. */
  lemma {:induction false} GenerationCountsBindings(s: State, env: Env, steps: seq<Step>, r: Ref)
    requires Inv(s, env.limits) && env.limits.Valid() && FreshRun(s, env, steps)
    requires r in s.heap && r in Run(s, env, steps).heap && Live(Run(s, env, steps).heap[r])
    ensures Live(s.heap[r])
    ensures Run(s, env, steps).heap[r].generation == Wrap64(s.heap[r].generation + Rebindings(s, env, steps, r))
    decreases |steps|
  {
    hide Inv, Next, FreshStep, FreshRun, Run, Rebinding, Rebindings, Wrap64, NextGeneration;
    if steps == [] {
      EmptyRunUnfolds(s, env, steps, r);
      GenerationFits(s, env.limits, r);
    } else {
      RunUnfolds(s, env, steps, r);
      StaysAllocated(s, env, steps[0], r);
      var s1 := Next(s, env, steps[0]);
      if r !in s1.heap { GoneForGood(s1, env, steps[1..], r); }
      GenerationCountsBindings(s1, env, steps[1..], r);
      StepGeneration(s, env, steps[0], r);
      GenerationAdds(s.heap[r].generation, if Rebinding(s, env, steps[0], r) then 1
        else 0, Rebindings(s1, env, steps[1..], r));
    }
  }

  /** Between two states of a run with a new binding in between, the generation differs, and
      it is larger exactly if it did not wrap. */
  lemma GenerationIncreasesUntilWrap(s: State, env: Env, steps: seq<Step>, r: Ref)
    requires Inv(s, env.limits) && env.limits.Valid() && FreshRun(s, env, steps)
    requires r in s.heap && r in Run(s, env, steps).heap && Live(Run(s, env, steps).heap[r])
    requires 0 < Rebindings(s, env, steps, r) <= MAX_UINT64
    ensures var before, after := s.heap[r].generation, Run(s, env, steps).heap[r].generation;
      after != before && (after > before <==> before + Rebindings(s, env, steps, r) <= MAX_UINT64)
  {
    hide Inv, FreshRun, Run, Rebindings;
    GenerationFits(s, env.limits, r);
    GenerationCountsBindings(s, env, steps, r);
  }

  // ---------------------------------------------------------------- survival

  /** No step before `deadline` rebinds `r` or ends its room. */
  ghost predicate LeavesAlone(s: State, env: Env, steps: seq<Step>, r: Ref, deadline: int)
    requires Inv(s, env.limits) && env.limits.Valid() && FreshRun(s, env, steps)
    decreases |steps|
  {
    hide Inv, Next, FreshStep, Rebinding;
    steps == [] ||
    (&& steps[0].reading.mono < deadline && !Rebinding(s, env, steps[0], r) && !Ending(s, steps[0], r)
     && (StepKeepsInv(s, env, steps[0]); LeavesAlone(Next(s, env, steps[0]), env, steps[1..], r, deadline)))
  }

  /** A binding outlives every run that stays before its deadline and neither completes another
      handshake of its grant nor ends its room. */
  lemma {:induction false} BindingSurvives(s: State, env: Env, steps: seq<Step>, r: Ref)
    requires Inv(s, env.limits) && env.limits.Valid() && FreshRun(s, env, steps)
    requires r in s.heap && s.heap[r].binding.Some? && LeavesAlone(s, env, steps, r, s.heap[r].binding.value.deadline)
    ensures var t := Run(s, env, steps);
      r in t.heap && t.heap[r].binding.Some? && SameBinding(s.heap[r].binding.value, t.heap[r].binding.value)
    decreases |steps|
  {
    hide Inv, Next, FreshStep, Rebinding;
    if steps != [] {
      StepKeepsInv(s, env, steps[0]);
      OnlyRebindingOrEndingEnds(s, env, steps[0], r);
      var s1 := Next(s, env, steps[0]);
      assert r in s1.heap && s1.heap[r].binding.Some? && SameBinding(s.heap[r].binding.value, s1.heap[r].binding.value);
      BindingSurvives(s1, env, steps[1..], r);
    }
  }

  /** What a grant carries that does not expire before `deadline` is carried still. */
  ghost predicate Carries(g: Grant, g': Grant, deadline: int) {
    && SameIdentity(g, g') && Live(g') && g'.secret == g.secret
    && (g.pending.Some? && deadline <= g.pending.value.deadline ==> g'.pending == g.pending)
    && (g.recent.Some? && deadline <= g.recent.value.deadline ==> g'.recent == g.recent)
    && (g.binding.Some? && deadline <= g.binding.value.deadline ==>
          g'.binding.Some? && SameBinding(g.binding.value, g'.binding.value))
  }

  lemma KeptCarries(s: State, s': State, r: Ref, now: int, deadline: int)
    requires Kept(s, s', r, now) && Live(s.heap[r]) && now < deadline <= s.heap[r].monoDeadline
    ensures r in s'.heap && Carries(s.heap[r], s'.heap[r], deadline)
  {
    hide SameBinding;
  }

  lemma CarriesTransitive(g: Grant, g1: Grant, g2: Grant, deadline: int)
    requires Carries(g, g1, deadline) && Carries(g1, g2, deadline)
    ensures Carries(g, g2, deadline)
  {
  }

  /** A challenge, a completed handshake and a binding that last until `deadline` outlive every
      run before it that neither completes another handshake of the grant nor ends its room. */
  lemma {:induction false} HandshakesSurvive(s: State, env: Env, steps: seq<Step>, r: Ref, deadline: int)
    requires Inv(s, env.limits) && env.limits.Valid() && FreshRun(s, env, steps)
    requires r in s.heap && Live(s.heap[r]) && deadline <= s.heap[r].monoDeadline
      && LeavesAlone(s, env, steps, r, deadline)
    ensures r in Run(s, env, steps).heap && Carries(s.heap[r], Run(s, env, steps).heap[r], deadline)
    decreases |steps|
  {
    hide Inv, Next, FreshStep, Rebinding, Carries, Kept;
    if steps == [] {
      CarriesReflexive(s.heap[r], deadline);
    } else {
      StepKeepsInv(s, env, steps[0]);
      OnlyRebindingOrEndingEnds(s, env, steps[0], r);
      var s1 := Next(s, env, steps[0]);
      KeptCarries(s, s1, r, steps[0].reading.mono, deadline);
      CarriedFacts(s.heap[r], s1.heap[r], deadline);
      HandshakesSurvive(s1, env, steps[1..], r, deadline);
      CarriesTransitive(s.heap[r], s1.heap[r], Run(s, env, steps).heap[r], deadline);
    }
  }

  lemma CarriesReflexive(g: Grant, deadline: int)
    requires Live(g)
    ensures Carries(g, g, deadline)
  {
  }

  lemma CarriedFacts(g: Grant, g': Grant, deadline: int)
    requires Carries(g, g', deadline)
    ensures SameIdentity(g, g') && Live(g') && g'.monoDeadline == g.monoDeadline
  {
  }

  // ---------------------------------------------------------------- staleness and replay

  /** Some step of the run binds under identifier `id` anew. */
  ghost predicate Redraws(s: State, env: Env, steps: seq<Step>, id: Bytes)
    requires Inv(s, env.limits) && env.limits.Valid() && FreshRun(s, env, steps)
    decreases |steps|
  {
    hide Inv, Next, FreshStep;
    steps != [] &&
    (StepKeepsInv(s, env, steps[0]);
     || (id !in s.bindingsByID && id in Next(s, env, steps[0]).bindingsByID)
     || Redraws(Next(s, env, steps[0]), env, steps[1..], id))
  }

  /** In `s'` the identifier still names the same binding as in `s`, or names none. */
  ghost predicate SameOrGone(s: State, s': State, id: Bytes) {
    id in s'.bindingsByID ==>
      && id in s.bindingsByID && s'.bindingsByID[id] == s.bindingsByID[id]
      && s.bindingsByID[id] in s.heap && s.bindingsByID[id] in s'.heap
      && var g, g' := s.heap[s.bindingsByID[id]], s'.heap[s.bindingsByID[id]];
         g.binding.Some? && g'.binding.Some? && SameIdentity(g, g') && SameBinding(g.binding.value, g'.binding.value)
  }

  lemma IndexesHold(s: State, limits: Limits)
    requires Inv(s, limits)
    ensures IndexesOK(s)
  {
  }

  lemma BindingOwner(s: State, limits: Limits, r: Ref)
    requires Inv(s, limits) && r in s.heap && s.heap[r].binding.Some?
    ensures s.heap[r].binding.value.id in s.bindingsByID && s.bindingsByID[s.heap[r].binding.value.id] == r
  {
    IndexesHold(s, limits);
    hide Inv;
    OwnKeys(s.bindingsByID, s.heap, BindingIDs, r, s.heap[r]);
    hide IndexExact;
  }

  lemma BindingLineage(s: State, env: Env, step: Step, r: Ref, id: Bytes)
    requires Inv(s, env.limits) && env.limits.Valid() && FreshStep(s, env, step) && id in s.bindingsByID
    requires r in Next(s, env, step).heap && Next(s, env, step).heap[r].binding.Some?
      && Next(s, env, step).heap[r].binding.value.id == id
    ensures r in s.heap && s.heap[r].binding.Some? && SameIdentity(s.heap[r], Next(s, env, step).heap[r])
    ensures SameBinding(s.heap[r].binding.value, Next(s, env, step).heap[r].binding.value)
  {
    hide Inv, Next;
    StepKeepsInv(s, env, step);
    if r in s.heap {
      OnlyRebindingOrEndingEnds(s, env, step, r);
    }
  }

  lemma StepSameOrGone(s: State, env: Env, step: Step, id: Bytes)
    requires Inv(s, env.limits) && env.limits.Valid() && FreshStep(s, env, step)
    requires id in s.bindingsByID
    ensures SameOrGone(s, Next(s, env, step), id)
  {
    hide Inv, Next, FreshStep, SameBinding, SameIdentity;
    var s' := Next(s, env, step);
    StepKeepsInv(s, env, step);
    if id in s'.bindingsByID {
      BindingIndexed(s', env.limits, id);
      var r := s'.bindingsByID[id];
      BindingLineage(s, env, step, r, id);
      SameBindingID(s.heap[r].binding.value, s'.heap[r].binding.value);
      BindingOwner(s, env.limits, r);
    }
  }

  lemma SameBindingID(b: Binding, b': Binding)
    requires SameBinding(b, b')
    ensures b'.id == b.id && b'.generation == b.generation && b'.deadline == b.deadline && b'.endpoint == b.endpoint
  {
  }

  /** A binding identifier that is not drawn again names the same binding for the rest of the
      run, or none. */
  lemma {:induction false} IdentifierIsNotReused(s: State, env: Env, steps: seq<Step>, id: Bytes)
    requires Inv(s, env.limits) && env.limits.Valid() && FreshRun(s, env, steps)
    requires !Redraws(s, env, steps, id)
    ensures SameOrGone(s, Run(s, env, steps), id)
    decreases |steps|
  {
    hide Inv, Next, FreshStep, SameBinding, SameIdentity;
    if steps == [] {
      if id in s.bindingsByID {
        BindingIndexed(s, env.limits, id);
        SameReflexive(s.heap[s.bindingsByID[id]]);
      }
    } else {
      StepKeepsInv(s, env, steps[0]);
      var s1 := Next(s, env, steps[0]);
      IdentifierIsNotReused(s1, env, steps[1..], id);
      if id in s.bindingsByID { StepSameOrGone(s, env, steps[0], id); }
      SameOrGoneTransitive(s, s1, Run(s, env, steps), id);
    }
  }

  lemma SameReflexive(g: Grant)
    ensures SameIdentity(g, g) && (g.binding.Some? ==> SameBinding(g.binding.value, g.binding.value))
  {
  }

  lemma SameOrGoneTransitive(s: State, s1: State, s2: State, id: Bytes)
    requires id in s1.bindingsByID ==> SameOrGone(s, s1, id)
    requires SameOrGone(s1, s2, id)
    ensures SameOrGone(s, s2, id)
  {
  }

  /** How fan-out answers in `t` for a value admitted on grant `r` under binding `b`. */
  ghost predicate FanoutVerdict(b: Binding, t: State, t': State, r: Ref, sequence: nat, outputBytes: int,
      answer: Answer<RelayPlan>, now: int) {
    if !(r in t.heap && t.heap[r].binding.Some? && t.heap[r].binding.value.id == b.id) then
      answer == Reject(RejectNotBound) && t' == t
    else if now >= b.deadline then answer == Reject(RejectExpired)
    else if outputBytes < 0 || outputBytes > MAX_DATAGRAM_BYTES then answer == Reject(RejectOversized)
    else FanoutOutcome(t, t', r, sequence, outputBytes, answer, now)
  }

  /** What ingress admitted under a binding that has since been replaced or removed is refused
      by fan-out without effect, one whose binding has expired is refused as expired, and only
      a value of the binding still in place is served. */
  lemma StaleIsRefused(s: State, env: Env, steps: seq<Step>, r: Ref, sequence: nat, outputBytes: int, now: int)
    requires Inv(s, env.limits) && env.limits.Valid() && FreshRun(s, env, steps)
    requires r in s.heap && s.heap[r].binding.Some? && !Redraws(s, env, steps, s.heap[r].binding.value.id)
    ensures var t := Run(s, env, steps);
      var (t', answer) := AdmitFanout(t, env.limits, AdmittedBy(s, r, sequence), outputBytes, now);
      FanoutVerdict(s.heap[r].binding.value, t, t', r, sequence, outputBytes, answer, now)
  {
    hide Inv, Next, FreshStep, FreshRun, Run, Redraws, AdmitFanout, FanoutOutcome;
    var t, id, admitted := Run(s, env, steps), s.heap[r].binding.value.id, AdmittedBy(s, r, sequence);
    IdentifierIsNotReused(s, env, steps, id);
    BindingOwner(s, env.limits, r);
    FanoutKeepsInv(t, env.limits, admitted, outputBytes, now);
    if id in t.bindingsByID {
      BindingIndexed(t, env.limits, id);
    } else if r in t.heap && t.heap[r].binding.Some? {
      BindingOwner(t, env.limits, r);
    }
  }

  /** The sequence of a packet of the current binding is spent, whether the packet was
      admitted, rate limited or a replay: no later packet with that sequence is admitted under
      that binding identifier, by whatever endpoint and tag, unless it is drawn again. */
  lemma AdmittedAtMostOnce(s: State, env: Env, step: Step, steps: seq<Step>, later: Packet, endpoint: Endpoint,
      authTag: Bytes, inputBytes: int, now: int)
    requires Inv(s, env.limits) && env.limits.Valid() && step.op.OnPacket? && step.op.inputBytes >= 0
    requires FromCurrentBinding(s, env.hmac, step.op.packet, step.op.endpoint, step.op.authTag, step.reading.mono)
    requires Inv(Next(s, env, step), env.limits) && FreshRun(Next(s, env, step), env, steps)
    requires !Redraws(Next(s, env, step), env, steps, step.op.packet.bindingID)
    requires later.bindingID == step.op.packet.bindingID && later.sequence == step.op.packet.sequence
    ensures AdmitAuthenticated(Run(Next(s, env, step), env, steps), env.limits, env.hmac, later,
                               endpoint, authTag, inputBytes, now).1.Reject?
  {
    hide Inv, FreshRun, Run, Redraws, AdmitAuthenticated, FromCurrentBinding, SamePreauth, Evolves, SameIdentity;
    var id, sequence := step.op.packet.bindingID, step.op.packet.sequence;
    IngressKeepsInv(s, env.limits, env.hmac, step.op.packet, step.op.endpoint, step.op.authTag, step.op.inputBytes,
      step.reading.mono);
    var s1 := Next(s, env, step);
    hide Next;
    var t := Run(s1, env, steps);
    CurrentIsIndexed(s, env.hmac, step.op.packet, step.op.endpoint, step.op.authTag, step.reading.mono);
    var r := s.bindingsByID[id];
    ReplayWindow.AcceptNeverForgets(s.heap[r].binding.value.replay, sequence);
    BindingOwner(s1, env.limits, r);
    IdentifierIsNotReused(s1, env, steps, id);
    IngressKeepsInv(t, env.limits, env.hmac, later, endpoint, authTag, inputBytes, now);
    if FromCurrentBinding(t, env.hmac, later, endpoint, authTag, now) {
      CurrentIsIndexed(t, env.hmac, later, endpoint, authTag, now);
    }
    hide ReplayWindow.Accept;
  }

  lemma CurrentIsIndexed(s: State, hmac: Hmac, m: Packet, endpoint: Endpoint, authTag: Bytes, now: int)
    requires FromCurrentBinding(s, hmac, m, endpoint, authTag, now)
    ensures m.bindingID in s.bindingsByID && s.bindingsByID[m.bindingID] in s.heap
    ensures s.heap[s.bindingsByID[m.bindingID]].binding.Some?
      && s.heap[s.bindingsByID[m.bindingID]].binding.value.id == m.bindingID
  {
  }
}
