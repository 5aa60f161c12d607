/** How long rooms, grants and names last, and who may create: what creation answers, what it
    leaves, and until when it can be read, counted from the expiries that were asked for. */
module StoreLifetimes {
  import opened Prelude
  import opened RateLimit
  import opened Admission
  import opened Identifier
  import opened Definitions
  import opened StoreModel
  import opened StoreDeletion
  import opened StoreAdmission
  import opened StoreInvariant
  import opened StoreRooms
  import opened StoreCreation
  import opened StoreRuns
  import opened StoreSweep

  // ---------------------------------------------------------------- what is asked for

  /** How long something that expires at a wall-clock time lasts from a reading on. */
  function Lifetime(expiresAt: int, reading: ClockReading): int { SubTime(expiresAt, reading.wall) }

  /** A lifetime is granted when it is positive, within its limit, and on the monotonic clock. */
  predicate MayLast(lifetime: int, limit: nat, mono: int) { 0 < lifetime <= limit && mono + lifetime <= MAX_INT64 }

  ghost predicate LifetimesOK(d: Definition, limits: Limits, reading: ClockReading) {
    && MayLast(Lifetime(d.expiresAt, reading), limits.maxRoomTTL, reading.mono)
    && forall i | 0 <= i < |d.participants| ::
         MayLast(Lifetime(d.participants[i].grantExpiresAt, reading), limits.maxGrantTTL, reading.mono)
  }

  lemma DeadlineExactly(expiresAt: int, reading: ClockReading, limit: nat)
    ensures DeadlineWithin(expiresAt, reading, limit) ==
      if MayLast(Lifetime(expiresAt, reading), limit, reading.mono) then
        Some(reading.mono + Lifetime(expiresAt, reading))
      else None
  {
  }

  lemma FitsExactly(d: Definition, limits: Limits, reading: ClockReading)
    ensures DeadlinesFit(d, limits, reading) <==> LifetimesOK(d, limits, reading)
  {
    hide DeadlineWithin, MayLast;
    DeadlineExactly(d.expiresAt, reading, limits.maxRoomTTL);
    forall i | 0 <= i < |d.participants| {
      DeadlineExactly(d.participants[i].grantExpiresAt, reading, limits.maxGrantTTL);
    }
  }

  /** A participant that may be asked for in a room that expires at `expiresAt`. */
  predicate Acceptable(p: Participant, expiresAt: int) {
    ValidID(p.participantID) && ValidID(p.sessionID) && p.grantExpiresAt != 0 && p.grantExpiresAt <= expiresAt
  }

  /** Which requests have a canonical form, and why the others have none. */
  lemma CanonicalExactly(id: string, d: Definition, limits: Limits)
    ensures Canonical(id, d, limits).Ok? <==>
      && ValidID(id) && 0 < d.capacity == |d.participants| <= limits.maxRoomCapacity && d.expiresAt != 0
      && (forall i | 0 <= i < |d.participants| :: Acceptable(d.participants[i], d.expiresAt))
      && (forall i, j | 0 <= i < j < |d.participants| ::
            d.participants[i].participantID != d.participants[j].participantID
            && d.participants[i].sessionID != d.participants[j].sessionID)
    ensures match Canonical(id, d, limits)
      case Err(error) =>
        error == if ValidID(id) && d.capacity == |d.participants| > limits.maxRoomCapacity then ErrCapacity
          else ErrInvalid
      case Ok(c) =>
        c.capacity == d.capacity && c.expiresAt == d.expiresAt && multiset(c.participants) == multiset(d.participants)
  {
    hide ValidID, Sort;
    SortPermutes(d.participants);
    if ValidParticipants(d.participants, d.expiresAt) {
      forall i | 0 <= i < |d.participants| ensures Acceptable(d.participants[i], d.expiresAt) {
        assert ValidParticipant(d.participants[i], d.expiresAt);
      }
    }
    if forall i | 0 <= i < |d.participants| :: Acceptable(d.participants[i], d.expiresAt) {
      forall i | 0 <= i < |d.participants| ensures ValidParticipant(d.participants[i], d.expiresAt) {
        assert Acceptable(d.participants[i], d.expiresAt);
      }
    }
  }

  /** The canonical participants are those asked for, in lexicographic order of their names. */
  lemma CanonicalOrder(id: string, d: Definition, limits: Limits)
    requires Canonical(id, d, limits).Ok?
    ensures var c := Canonical(id, d, limits).value;
      forall i, j | 0 <= i < j < |c.participants| ::
        StringLess(c.participants[i].participantID, c.participants[j].participantID)
  {
    hide ValidID, Sort, StringLess;
    CanonicalIsValid(id, d, limits);
  }

  // ---------------------------------------------------------------- what creation answers

  /** The name is in use, or still reserved. */
  predicate NameTaken(s: State, id: string, now: int) {
    id in s.rooms && (s.rooms[id].state.Tombstone? ==> now < s.rooms[id].tombstoneDeadline)
  }

  /** There is a place for a room of `n` grants under a free name. */
  ghost predicate HasPlaceFor(s: State, limits: Limits, id: string, n: nat) {
    && |OpenRooms(s.rooms)| < limits.maxOpenRooms
    && |s.rooms.Keys - {id}| < limits.maxRoomRecords
    && |LiveRefs(s.heap)| + n <= limits.maxActiveSessions
  }

  /** Why the creation of a canonical room under a free name fails, if it does. */
  ghost function CreationRefusal(s: State, limits: Limits, random: Random, id: string, d: Definition,
      reading: ClockReading): Option<StoreError> {
    if !LifetimesOK(d, limits, reading) then Some(ErrInvalid)
    else if !HasPlaceFor(s, limits, id, |d.participants|) then Some(ErrCapacity)
    else if NextCredentials(s, random, |d.participants|).None? then Some(ErrFatalRandom)
    else None
  }

  lemma PlaceExactly(s: State, limits: Limits, id: string, now: int, n: nat)
    requires Inv(s, limits) && !NameTaken(s, id, now)
    ensures Full(DropStale(s, id, now), limits, n) <==> !HasPlaceFor(s, limits, id, n)
  {
    CountersHold(s, limits);
    ActiveSessionsIsLiveGrants(s, limits);
    DropStaleFrame(s, id, now);
    FreedSize(s, id, now);
    hide Inv, OpenRooms, DropStale, LiveRefs;
  }

  lemma FreedSize(s: State, id: string, now: int)
    requires !NameTaken(s, id, now)
    ensures |DropStale(s, id, now).rooms| == |s.rooms.Keys - {id}|
  {
    assert DropStale(s, id, now).rooms.Keys == s.rooms.Keys - {id};
    assert |DropStale(s, id, now).rooms| == |DropStale(s, id, now).rooms.Keys|;
  }

  lemma AllocateExactly(s: State, limits: Limits, random: Random, id: string, d: Definition, reading: ClockReading)
    ensures AllocateRoom(s, limits, random, id, d, reading).1 ==
      if !DeadlinesFit(d, limits, reading) then Err(ErrInvalid)
      else if Full(s, limits, |d.participants|) then Err(ErrCapacity)
      else if NextCredentials(s, random, |d.participants|).None? then Err(ErrFatalRandom)
      else AllocateRoom(s, limits, random, id, d, reading).1
    ensures var result := AllocateRoom(s, limits, random, id, d, reading).1;
      (result.Ok? <==> DeadlinesFit(d, limits, reading) && !Full(s, limits, |d.participants|)
                       && NextCredentials(s, random, |d.participants|).Some?)
      && (result.Ok? ==> result.value.1)
  {
    hide DeadlinesFit, AddRoom, AllocationAt, DrawCredentials, Full, DistinctCredentials;
    CredentialsAreFree(random, s.drawn, s.grantsByID.Keys, |d.participants|);
  }

  /** What every creation answers: a request without a canonical form is told why; a taken name
      is a conflict, unless it is the retry of an accessible room; and under a free name only a
      lifetime, a missing place or a lost random source stand in the way, in this order. */
  lemma CreationAnswersExactly(s: State, limits: Limits, random: Random, id: string, d: Definition,
      reading: ClockReading)
    requires Inv(s, limits)
    ensures forall r | r in s.rooms :: Resident(s, s.rooms[r].grants)
    ensures var (s', result) := CreateRoom(s, limits, random, id, d, reading);
      match Canonical(id, d, limits)
      case Err(error) => result == Err(error) && s' == s
      case Ok(c) =>
        if NameTaken(s, id, reading.mono) then
          && s' == s
          && (result.Ok? <==> Accessible(s, id, reading.mono) && Allocated(s, id, c))
          && (if result.Ok? then !result.value.1 else result.error == ErrConflict)
        else match CreationRefusal(s, limits, random, id, c, reading)
          case Some(error) => result == Err(error)
          case None => result.Ok? && result.value.1
  {
    hide Inv, AllocateRoom, LifetimesOK, HasPlaceFor, AllocationAt, ValidParticipants, Sort, DeadlinesFit, Full,
         LastDeadline;
    RoomsResident(s, limits);
    if Canonical(id, d, limits).Ok? && !NameTaken(s, id, reading.mono) {
      var c := Canonical(id, d, limits).value;
      var s1 := DropStale(s, id, reading.mono);
      FitsExactly(c, limits, reading);
      PlaceExactly(s, limits, id, reading.mono, |c.participants|);
      AllocateExactly(s1, limits, random, id, c, reading);
      NextSame(s, s1, random, |c.participants|);
    }
  }

  // ---------------------------------------------------------------- what creation leaves

  /** A grant that was just issued to participant `p` of room `id`. */
  ghost predicate JustIssued(g: Grant, id: string, p: Participant, reading: ClockReading) {
    && g.roomID == id && g.participantID == p.participantID && g.sessionID == p.sessionID
    && g.expiresAt == p.grantExpiresAt && g.monoDeadline - reading.mono == Lifetime(p.grantExpiresAt, reading)
    && g.state.Issued? && g.bindingState.Unbound? && g.secret.Some?
    && g.pending.None? && g.recent.None? && g.binding.None?
  }

  /** Room `id` was just opened for the canonical definition `d`: it and each of its grants last
      exactly as long as was asked for. */
  ghost predicate LastsAsAsked(s: State, id: string, d: Definition, reading: ClockReading) {
    && id in s.rooms
    && var room := s.rooms[id];
    && room.state.Open? && room.capacity == d.capacity && room.createdAt == reading.wall
    && room.expiresAt == d.expiresAt && room.monoDeadline - reading.mono == Lifetime(d.expiresAt, reading)
    && |room.grants| == |d.participants|
    && forall i | 0 <= i < |room.grants| ::
         room.grants[i] in s.heap && JustIssued(s.heap[room.grants[i]], id, d.participants[i], reading)
  }

  /** A limiter that can pay a whole burst at once. */
  predicate FullOf(b: Bucket, budget: Budget) {
    b.rate == budget.rate && b.burst == budget.burst && b.tokens == budget.burst * SCALE
  }

  /** Room `id` starts with full limiters, and so does each of its grants. */
  ghost predicate StartsFull(s: State, limits: Limits, id: string) {
    && id in s.rooms
    && var b := s.gate.buckets;
    && RoomIngressPackets(id) in b && FullOf(b[RoomIngressPackets(id)], limits.roomPackets)
    && RoomIngressBytes(id) in b && FullOf(b[RoomIngressBytes(id)], limits.roomBytes)
    && RoomFanoutWrites(id) in b && FullOf(b[RoomFanoutWrites(id)], limits.roomFanoutWrites)
    && RoomFanoutBytes(id) in b && FullOf(b[RoomFanoutBytes(id)], limits.roomFanoutBytes)
    && forall i | 0 <= i < |s.rooms[id].grants| :: var r := s.rooms[id].grants[i];
         && SessionPackets(r) in b && FullOf(b[SessionPackets(r)], limits.sessionPackets)
         && SessionBytes(r) in b && FullOf(b[SessionBytes(r)], limits.sessionBytes)
  }

  /** The relay's own limiters start full. */
  lemma StoreStartsFull(limits: Limits)
    ensures var b := Init(limits).gate.buckets;
      && PreauthGlobalPackets in b && FullOf(b[PreauthGlobalPackets], limits.preauthGlobalPackets)
      && PreauthGlobalBytes in b && FullOf(b[PreauthGlobalBytes], limits.preauthGlobalBytes)
      && IngressGlobalPackets in b && FullOf(b[IngressGlobalPackets], limits.ingressGlobalPackets)
      && IngressGlobalBytes in b && FullOf(b[IngressGlobalBytes], limits.ingressGlobalBytes)
      && FanoutGlobalWrites in b && FullOf(b[FanoutGlobalWrites], limits.globalFanoutWrites)
      && FanoutGlobalBytes in b && FullOf(b[FanoutGlobalBytes], limits.globalFanoutBytes)
      && Init(limits).gate.sources == map[]
  {
  }

  lemma NewGrantIssued(id: string, p: Participant, c: Credential, limits: Limits, reading: ClockReading)
    requires DeadlineWithin(p.grantExpiresAt, reading, limits.maxGrantTTL).Some?
    ensures JustIssued(NewGrant(id, p, c, DeadlineWithin(p.grantExpiresAt, reading, limits.maxGrantTTL).value), id, p,
      reading)
  {
    DeadlineExactly(p.grantExpiresAt, reading, limits.maxGrantTTL);
    hide DeadlineWithin;
  }

  lemma AddRoomLasts(s: State, limits: Limits, id: string, d: Definition, credentials: seq<Credential>,
      reading: ClockReading)
    requires Committable(s, limits, id, d, credentials, reading)
    ensures LastsAsAsked(AddRoom(s, limits, id, d, credentials, reading), id, d, reading)
  {
    hide AddRoom, NewGrant, DeadlineWithin, Unindexed, DistinctCredentials, Full, JustIssued;
    var s' := AddRoom(s, limits, id, d, credentials, reading);
    AddRoomRoom(s, limits, id, d, credentials, reading);
    AddRoomRecord(s, limits, id, d, credentials, reading);
    AddRoomHeap(s, limits, id, d, credentials, reading);
    AddedRoomOpen(s, s', id, |credentials|);
    DeadlineExactly(d.expiresAt, reading, limits.maxRoomTTL);
    hide AddedRoom;
    forall i | 0 <= i < |credentials|
      ensures s'.rooms[id].grants[i] in s'.heap
      ensures JustIssued(s'.heap[s'.rooms[id].grants[i]], id, d.participants[i], reading)
    {
      AddRoomGrantAt(s, limits, id, d, credentials, reading, i);
      NewGrantIssued(id, d.participants[i], credentials[i], limits, reading);
    }
  }

  lemma AddRoomFull(s: State, limits: Limits, id: string, d: Definition, credentials: seq<Credential>,
      reading: ClockReading)
    requires Committable(s, limits, id, d, credentials, reading)
    ensures StartsFull(AddRoom(s, limits, id, d, credentials, reading), limits, id)
  {
    hide AddRoom, NewNames, NewLimiters, DeadlinesFit, Unindexed, DistinctCredentials, Full, FullOf;
    var s' := AddRoom(s, limits, id, d, credentials, reading);
    AddRoomRoom(s, limits, id, d, credentials, reading);
    CommittableParts(s, limits, id, d, credentials, reading);
    NewNamesMeans(id, s.nextRef, |credentials|);
    NewAreFull(s.gate.buckets, limits, NewNames(id, s.nextRef, |credentials|));
    hide Committable;
    BudgetsByName(limits, id);
    forall i | 0 <= i < |s'.rooms[id].grants|
      ensures s'.rooms[id].grants[i] == s.nextRef + i
      ensures limits.BudgetOf(SessionPackets(s.nextRef + i)) == limits.sessionPackets
      ensures limits.BudgetOf(SessionBytes(s.nextRef + i)) == limits.sessionBytes
    {
      assert s'.rooms[id].grants[i] == s.nextRef + i;
      SessionBudgets(limits, s.nextRef + i);
    }
  }

  lemma NewAreFull(b: map<LimiterName, Bucket>, limits: Limits, names: set<LimiterName>)
    ensures var b' := b + NewLimiters(limits, names);
      forall n | n in names :: n in b' && FullOf(b'[n], limits.BudgetOf(n))
  {
  }

  lemma BudgetsByName(limits: Limits, id: string)
    ensures limits.BudgetOf(RoomIngressPackets(id)) == limits.roomPackets
    ensures limits.BudgetOf(RoomIngressBytes(id)) == limits.roomBytes
    ensures limits.BudgetOf(RoomFanoutWrites(id)) == limits.roomFanoutWrites
    ensures limits.BudgetOf(RoomFanoutBytes(id)) == limits.roomFanoutBytes
  {
  }

  lemma SessionBudgets(limits: Limits, r: Ref)
    ensures limits.BudgetOf(SessionPackets(r)) == limits.sessionPackets
    ensures limits.BudgetOf(SessionBytes(r)) == limits.sessionBytes
  {
  }

  /** A new room and its grants last exactly as long as was asked for, and start with full
      limiters; what was in the store before is still there. */
  lemma NewRoomLasts(s: State, limits: Limits, random: Random, id: string, d: Definition, reading: ClockReading)
    requires Inv(s, limits)
    ensures forall r | r in s.rooms :: Resident(s, s.rooms[r].grants)
    ensures var (s', result) := CreateRoom(s, limits, random, id, d, reading);
      result.Ok? && result.value.1 ==>
        && Canonical(id, d, limits).Ok?
        && LastsAsAsked(s', id, Canonical(id, d, limits).value, reading) && StartsFull(s', limits, id)
        && (forall r | r in s.heap :: r in s'.heap && s'.heap[r] == s.heap[r])
        && (forall q | q in s.rooms && q != id :: q in s'.rooms && s'.rooms[q] == s.rooms[q])
        && (forall n | n in s.gate.buckets :: n in s'.gate.buckets && s'.gate.buckets[n] == s.gate.buckets[n])
  {
    hide Inv, AllocateRoom, DropStale, AccessTerminal, SameDefinition, ValidParticipants, Sort, AddRoom, AllocationAt,
         NextCredentials, Committable, LastsAsAsked, StartsFull;
    RoomsResident(s, limits);
    LimitersHold(s, limits);
    hide LimitersOK;
    if Canonical(id, d, limits).Ok? && !(id in s.rooms && !Stale(s.rooms[id], reading.mono)) {
      var c := Canonical(id, d, limits).value;
      var s1 := DropStale(s, id, reading.mono);
      CanonicalIsValid(id, d, limits);
      DropStaleFrame(s, id, reading.mono);
      DropStaleOthers(s, id, reading.mono);
      if AllocateRoom(s1, limits, random, id, c, reading).1.Ok? {
        AllocateCommittable(s1, limits, random, id, c, reading);
        var s2 := s1.(drawn := DrawCredentials(random, s1.drawn, s1.grantsByID.Keys, |c.participants|).1);
        var credentials := NextCredentials(s1, random, |c.participants|).value;
        DropStaleKeepsInv(s, limits, id, reading.mono);
        RefsBelowNext(s, limits);
        DropStaleLimiters(s, limits, id, reading.mono);
        DrawnLimiters(s1, limits, s2.drawn);
        AddRoomLasts(s2, limits, id, c, credentials, reading);
        AddRoomFull(s2, limits, id, c, credentials, reading);
        AddRoomKeepsOthers(s2, limits, id, c, credentials, reading);
      }
    }
  }

  lemma DropStaleOthers(s: State, id: string, now: int)
    ensures forall q | q in s.rooms && q != id ::
      q in DropStale(s, id, now).rooms && DropStale(s, id, now).rooms[q] == s.rooms[q]
  {
  }

  lemma AddRoomKeepsOthers(s: State, limits: Limits, id: string, d: Definition, credentials: seq<Credential>,
      reading: ClockReading)
    requires GrantsBelow(s) && LimitersOK(s, limits) && Committable(s, limits, id, d, credentials, reading)
    ensures var s' := AddRoom(s, limits, id, d, credentials, reading);
      && (forall r | r in s.heap :: r in s'.heap && s'.heap[r] == s.heap[r])
      && (forall q | q in s.rooms :: q in s'.rooms && s'.rooms[q] == s.rooms[q])
      && (forall n | n in s.gate.buckets :: n in s'.gate.buckets && s'.gate.buckets[n] == s.gate.buckets[n])
  {
    hide AddRoom, NewNames, NewLimiters, DeadlinesFit, Unindexed, DistinctCredentials, Full, Newcomer, LimitersOK;
    AddRoomRoom(s, limits, id, d, credentials, reading);
    AddRoomGrants(s, limits, id, d, credentials, reading);
    CommittableParts(s, limits, id, d, credentials, reading);
    NewNamesAreNew(s, limits, id, |credentials|);
    OldKept(s.gate.buckets, limits, NewNames(id, s.nextRef, |credentials|));
  }

  lemma NewNamesAreNew(s: State, limits: Limits, id: string, n: nat)
    requires GrantsBelow(s) && LimitersOK(s, limits) && id !in s.rooms
    ensures NewNames(id, s.nextRef, n) !! s.gate.buckets.Keys
  {
    hide GateOK, NewNames;
    NewNamesMeans(id, s.nextRef, n);
    forall m | m in s.gate.buckets && !IsPreauth(m) ensures m !in NewNames(id, s.nextRef, n) {
      assert Needed(s, m);
    }
  }

  lemma OldKept(b: map<LimiterName, Bucket>, limits: Limits, names: set<LimiterName>)
    requires names !! b.Keys
    ensures var b' := b + NewLimiters(limits, names); forall n | n in b :: n in b' && b'[n] == b[n]
  {
  }

  // ---------------------------------------------------------------- what readers are told

  /** The states of a grant that a reader is told are those of its deadline, its binding and its
      pending challenge. */
  lemma SnapshotTells(g: Grant, room: Room, now: int)
    requires GrantOK(g, room)
    ensures var p := ParticipantAt(g, now);
      && p.participantID == g.participantID && p.sessionID == g.sessionID && p.grantExpiresAt == g.expiresAt
      && (p.grantState.Bound? <==> Lives(g, now) && Unexpired(g, now))
      && (p.grantState.Issued? <==> Lives(g, now) && !Unexpired(g, now))
      && (p.grantState.Revoked? <==> g.state.Revoked?)
      && (p.bindingState.Current? <==> p.grantState.Bound? && !PendingAlive(g, now))
      && (p.bindingState.RebindPending? <==> p.grantState.Bound? && PendingAlive(g, now))
      && (p.bindingState.Unbound? ==> p.grantState.Issued? && g.binding.None?)
      && (p.bindingState.BindingRevoked? <==> p.grantState.Revoked?)
  {
  }

  /** The secret of a grant is handed out for as long as the grant lives, and no longer. */
  lemma AllocationTells(g: Grant, room: Room, now: int)
    requires GrantOK(g, room)
    ensures var a := GrantAllocationAt(g, now);
      && a.participantID == g.participantID && a.sessionID == g.sessionID && a.grantID == g.id
      && a.grantExpiresAt == g.expiresAt && a.grantSecret == (if Lives(g, now) then g.secret else None)
      && (a.grantSecret.Some? <==> Lives(g, now)) && a.state == ParticipantAt(g, now).grantState
  {
  }

  // ---------------------------------------------------------------- how long it lasts

  /** The steps come before `until`, and none of them ends room `id`. */
  ghost predicate Undisturbed(steps: seq<Step>, id: string, until: int) {
    forall i | 0 <= i < |steps| ::
      steps[i].reading.mono < until && !(steps[i].op.OnEnd? && steps[i].op.ended == id)
  }

  /** The grant is still live in the same room, and the room is the same. */
  ghost predicate Stays(s: State, s': State, r: Ref) {
    && r in s.heap && r in s'.heap && SameIdentity(s.heap[r], s'.heap[r]) && Live(s'.heap[r])
    && s'.heap[r].secret == s.heap[r].secret && KeptRoom(s, s', s.heap[r].roomID)
  }

  lemma OutcomeStays(s: State, s': State, step: Step, r: Ref)
    requires Outcome(s, s', step) && r in s.heap && Lives(s.heap[r], step.reading.mono)
    requires !(step.op.OnEnd? && step.op.ended == s.heap[r].roomID)
    ensures Stays(s, s', r)
  {
    hide SameBinding, Unexpired, PendingAlive, RecentAlive, ValidID;
  }

  lemma StaysTransitive(s: State, s1: State, s2: State, r: Ref)
    requires Stays(s, s1, r) && Stays(s1, s2, r)
    ensures Stays(s, s2, r)
  {
  }

  /** A grant lives, and its room stays as it is, in every run before its deadline in which its
      room is not ended. */
  lemma {:induction false} GrantStays(s: State, env: Env, steps: seq<Step>, r: Ref)
    requires Inv(s, env.limits) && env.limits.Valid() && FreshRun(s, env, steps)
    requires r in s.heap && Live(s.heap[r]) && Undisturbed(steps, s.heap[r].roomID, s.heap[r].monoDeadline)
    ensures Stays(s, Run(s, env, steps), r)
    decreases |steps|
  {
    hide Inv, Next, FreshStep, Outcome;
    if steps != [] {
      StepKeepsInv(s, env, steps[0]);
      var s1 := Next(s, env, steps[0]);
      assert Undisturbed(steps[1..], s.heap[r].roomID, s.heap[r].monoDeadline);
      OutcomeStays(s, s1, steps[0], r);
      GrantStays(s1, env, steps[1..], r);
      StaysTransitive(s, s1, Run(s, env, steps), r);
    }
  }

  lemma StepIdentity(s: State, env: Env, step: Step, r: Ref)
    requires Inv(s, env.limits) && env.limits.Valid() && r in s.heap && r in Next(s, env, step).heap
    ensures SameIdentity(s.heap[r], Next(s, env, step).heap[r])
  {
    hide Inv, Next, SameIdentity, SameBinding;
    GrantEvolvesReflexive(s.heap[r], step.reading.mono);
    StepKeepsInv(s, env, step);
  }

  /** As long as a grant record stays in the store, it is for the same participant of the same
      room, and has the same deadline. */
  lemma {:induction false} IdentityStays(s: State, env: Env, steps: seq<Step>, r: Ref)
    requires Inv(s, env.limits) && env.limits.Valid() && FreshRun(s, env, steps)
    requires r in s.heap && r in Run(s, env, steps).heap
    ensures SameIdentity(s.heap[r], Run(s, env, steps).heap[r])
    decreases |steps|
  {
    hide Inv, Next, FreshStep;
    if steps != [] {
      StepKeepsInv(s, env, steps[0]);
      var s1 := Next(s, env, steps[0]);
      StaysAllocated(s, env, steps[0], r);
      if r !in s1.heap { GoneForGood(s1, env, steps[1..], r); }
      StepIdentity(s, env, steps[0], r);
      IdentityStays(s1, env, steps[1..], r);
    }
  }

  /** The index of a participant whose grant lasts longest. */
  ghost predicate LastsLongest(d: Definition, k: nat) {
    k < |d.participants| && forall i | 0 <= i < |d.participants| ::
      d.participants[i].grantExpiresAt <= d.participants[k].grantExpiresAt
  }

  /** The snapshot of room `id` as it was asked for. */
  ghost predicate ShownAsAsked(a: RoomSnapshot, id: string, d: Definition, createdAt: int) {
    && a.roomID == id && a.createdAt == createdAt && a.expiresAt == d.expiresAt && a.capacity == d.capacity
    && |a.participants| == |d.participants|
    && forall i | 0 <= i < |a.participants| ::
         && a.participants[i].participantID == d.participants[i].participantID
         && a.participants[i].sessionID == d.participants[i].sessionID
         && a.participants[i].grantExpiresAt == d.participants[i].grantExpiresAt
  }

  lemma ReadableExactly(s: State, t: State, limits: Limits, id: string, d: Definition, reading: ClockReading, k: nat,
      now: int)
    requires Inv(t, limits) && ValidID(id) && LastsAsAsked(s, id, d, reading) && LastsLongest(d, k)
    requires id in t.rooms && t.rooms[id] == s.rooms[id]
      && s.heap[s.rooms[id].grants[k]].monoDeadline <= s.rooms[id].monoDeadline
    requires forall i | 0 <= i < |s.rooms[id].grants| :: var r := s.rooms[id].grants[i];
      r in s.heap && (r in t.heap ==> SameIdentity(s.heap[r], t.heap[r]))
    ensures forall q | q in t.rooms :: Resident(t, t.rooms[q].grants)
    ensures GetRoom(t, id, now).Ok? <==> now - reading.mono < Lifetime(d.participants[k].grantExpiresAt, reading)
    ensures GetRoom(t, id, now).Ok? ==> ShownAsAsked(GetRoom(t, id, now).value, id, d, reading.wall)
  {
    hide Inv, ValidID, LastDeadline, GrantStateAt;
    RoomsResident(t, limits);
    var refs := t.rooms[id].grants;
    LastDeadlineIsMax(t, refs);
    var j :| 0 <= j < |refs| && t.heap[refs[j]].monoDeadline == LastDeadline(t, refs);
    assert JustIssued(s.heap[refs[j]], id, d.participants[j], reading);
    assert JustIssued(s.heap[refs[k]], id, d.participants[k], reading);
    SubTimeMonotone(d.participants[j].grantExpiresAt, d.participants[k].grantExpiresAt, reading.wall);
    assert t.heap[refs[k]].monoDeadline <= LastDeadline(t, refs);
    assert LastDeadline(t, refs) == reading.mono + Lifetime(d.participants[k].grantExpiresAt, reading);
    if GetRoom(t, id, now).Ok? {
      forall i | 0 <= i < |refs| ensures SameIdentity(s.heap[refs[i]], t.heap[refs[i]]) {}
      assert forall i | 0 <= i < |refs| :: JustIssued(s.heap[refs[i]], id, d.participants[i], reading);
      hide AccessTerminal, SubTime;
    }
  }

  /** A created room can be read for exactly as long as its longest grant was asked to last,
      whatever else the store serves in between, short of the end of the room, and always as it
      was asked for. */
  lemma RoomLastsExactly(s: State, env: Env, create: Step, steps: seq<Step>, k: nat, now: int)
    requires Inv(s, env.limits) && env.limits.Valid() && create.op.OnCreate? && FreshStep(s, env, create)
    requires Created(s, env, create).1.Ok? && Created(s, env, create).1.value.1
    requires Canonical(create.op.roomID, create.op.definition, env.limits).Ok?
    requires LastsLongest(Canonical(create.op.roomID, create.op.definition, env.limits).value, k)
    ensures var s1, id := Next(s, env, create), create.op.roomID;
      var d := Canonical(id, create.op.definition, env.limits).value;
      var lifetime := Lifetime(d.participants[k].grantExpiresAt, create.reading);
      && Inv(s1, env.limits) && LastsAsAsked(s1, id, d, create.reading)
      && (FreshRun(s1, env, steps) && Undisturbed(steps, id, create.reading.mono + lifetime) ==>
            var t := Run(s1, env, steps);
            && (forall q | q in t.rooms :: Resident(t, t.rooms[q].grants))
            && (GetRoom(t, id, now).Ok? <==> now - create.reading.mono < lifetime)
            && (GetRoom(t, id, now).Ok? ==> ShownAsAsked(GetRoom(t, id, now).value, id, d, create.reading.wall)))
  {
    hide Inv, CreateRoom, FreshStep, FreshRun, Run, Outcome, LastsAsAsked, StartsFull, GetRoom, ValidParticipants, Sort,
         ValidID, SubTime;
    var id := create.op.roomID;
    var d := Canonical(id, create.op.definition, env.limits).value;
    StepKeepsInv(s, env, create);
    NewRoomLasts(s, env.limits, env.random, id, create.op.definition, create.reading);
    var s1 := Next(s, env, create);
    if FreshRun(s1, env, steps)
      && Undisturbed(steps, id, create.reading.mono + Lifetime(d.participants[k].grantExpiresAt,
         create.reading)) {
      var t := Run(s1, env, steps);
      GrantAsAsked(s1, id, d, create.reading, k);
      var r := s1.rooms[id].grants[k];
      GrantStays(s1, env, steps, r);
      GrantFacts(s1, env.limits, r);
      ResidentAsAsked(s1, id, d, create.reading);
      forall i | 0 <= i < |s1.rooms[id].grants| && s1.rooms[id].grants[i] in t.heap
        ensures SameIdentity(s1.heap[s1.rooms[id].grants[i]], t.heap[s1.rooms[id].grants[i]])
      {
        IdentityStays(s1, env, steps, s1.rooms[id].grants[i]);
      }
      ReadableExactly(s1, t, env.limits, id, d, create.reading, k, now);
    }
  }

  lemma GrantAsAsked(s: State, id: string, d: Definition, reading: ClockReading, k: nat)
    requires LastsAsAsked(s, id, d, reading) && k < |d.participants|
    ensures id in s.rooms && |s.rooms[id].grants| == |d.participants| && s.rooms[id].grants[k] in s.heap
    ensures JustIssued(s.heap[s.rooms[id].grants[k]], id, d.participants[k], reading)
  {
  }

  lemma ResidentAsAsked(s: State, id: string, d: Definition, reading: ClockReading)
    requires LastsAsAsked(s, id, d, reading)
    ensures id in s.rooms && Resident(s, s.rooms[id].grants)
  {
  }

  // ---------------------------------------------------------------- names

  lemma {:induction false} NameStaysReserved(s: State, env: Env, steps: seq<Step>, id: string)
    requires Inv(s, env.limits) && env.limits.Valid() && FreshRun(s, env, steps)
    requires id in s.rooms && s.rooms[id].state.Tombstone?
    requires forall i | 0 <= i < |steps| :: steps[i].reading.mono < s.rooms[id].tombstoneDeadline
    ensures id in Run(s, env, steps).rooms && Run(s, env, steps).rooms[id] == s.rooms[id]
    decreases |steps|
  {
    hide Inv, Next, FreshStep;
    if steps != [] {
      StepKeepsInv(s, env, steps[0]);
      StepKeepsReserved(s, env, steps[0], id);
      NameStaysReserved(Next(s, env, steps[0]), env, steps[1..], id);
    }
  }

  lemma StepKeepsReserved(s: State, env: Env, step: Step, id: string)
    requires Inv(s, env.limits) && env.limits.Valid() && id in s.rooms && Reserved(s.rooms[id], step.reading.mono)
    ensures id in Next(s, env, step).rooms && Next(s, env, step).rooms[id] == s.rooms[id]
  {
    hide Inv, Outcome, Evolves, Ends, EndRoom, BeginChallenge, Authenticate, AdmitAuthenticated, AdmitFanout,
         CreateRoom,
         Expire, ChargePreauth, Rejection, FreshStep;
    StepKeepsInv(s, env, step);
    if step.op.OnEnd? {
      EndRoomKeepsInv(s, env.limits, step.op.ended, step.reading.mono);
      EvolvesKeepsReserved(s, Next(s, env, step), step.op.ended, id, step.reading.mono);
    } else {
      hide Next;
      OutcomeKeepsReserved(s, Next(s, env, step), step, id);
    }
  }

  lemma EvolvesKeepsReserved(s: State, s': State, ended: string, id: string, now: int)
    requires id in s.rooms && Reserved(s.rooms[id], now)
    requires Evolves(s, s', now) || (Ends(s, s', ended) && id != ended)
    ensures id in s'.rooms && s'.rooms[id] == s.rooms[id]
  {
    hide GrantEvolves, SameIdentity;
    assert KeptRoom(s, s', id);
  }

  lemma OutcomeKeepsReserved(s: State, s': State, step: Step, id: string)
    requires Outcome(s, s', step) && !step.op.OnEnd? && id in s.rooms && Reserved(s.rooms[id], step.reading.mono)
    ensures id in s'.rooms && s'.rooms[id] == s.rooms[id]
  {
    hide GrantEvolves, SameIdentity;
  }

  /** The name of a room that was ended is reserved for exactly the configured time: whatever
      the store serves in that time, a creation under it is a conflict until then, and is not
      refused for its name from then on. */
  lemma EndedNameIsReserved(s: State, env: Env, end: Step, steps: seq<Step>, d: Definition, now: ClockReading)
    requires Inv(s, env.limits) && env.limits.Valid() && end.op.OnEnd?
    requires ValidID(end.op.ended) && end.op.ended in s.rooms && !s.rooms[end.op.ended].state.Tombstone?
    requires Canonical(end.op.ended, d, env.limits).Ok?
    ensures var s1, id := Next(s, env, end), end.op.ended;
      var until := SaturatingAdd(end.reading.mono, env.limits.tombstoneTTL);
      && Inv(s1, env.limits)
      && (FreshRun(s1, env, steps) && (forall i | 0 <= i < |steps| :: steps[i].reading.mono < until) ==>
            var t := Run(s1, env, steps);
            && (forall q | q in t.rooms :: Resident(t, t.rooms[q].grants))
            && (CreateRoom(t, env.limits, env.random, id, d, now).1 == Err(ErrConflict) <==> now.mono < until))
  {
    hide Inv, CreateRoom, FreshStep, FreshRun, Run, Outcome, Evolves, Ends, Canonical, CreationRefusal, EndRoom,
         ValidID,
         SaturatingAdd;
    var id := end.op.ended;
    StepKeepsInv(s, env, end);
    EndRoomKeepsInv(s, env.limits, id, end.reading.mono);
    var s1 := Next(s, env, end);
    assert !end.op.OnCreate?;
    NotCreatingIsFresh(s, env, end);
    var until := SaturatingAdd(end.reading.mono, env.limits.tombstoneTTL);
    if FreshRun(s1, env, steps) && (forall i | 0 <= i < |steps| :: steps[i].reading.mono < until) {
      var t := Run(s1, env, steps);
      NameStaysReserved(s1, env, steps, id);
      CreationAnswersExactly(t, env.limits, env.random, id, d, now);
      RefusalIsNoConflict(t, env.limits, env.random, id, Canonical(id, d, env.limits).value, now);
    }
  }

  lemma NotCreatingIsFresh(s: State, env: Env, step: Step)
    requires Inv(s, env.limits) && !step.op.OnCreate?
    ensures FreshStep(s, env, step)
  {
  }

  lemma RefusalIsNoConflict(s: State, limits: Limits, random: Random, id: string, d: Definition, reading: ClockReading)
    ensures CreationRefusal(s, limits, random, id, d, reading) != Some(ErrConflict)
  {
  }
}
