/** The sweep cannot be observed through the control side: what it removes was already
    inaccessible, and what it forgets was already reported as expired. */
module StoreSweep {
  import opened Prelude
  import opened RateLimit
  import opened Admission
  import opened Identifier
  import opened Definitions
  import opened StoreModel
  import opened StoreDeletion
  import opened StoreAdmission
  import opened StoreInvariant
  import opened StoreRooms
  import opened StoreCreation

  // ---------------------------------------------------------------- one grant

  /** A swept grant is reported as it was before. */
  lemma SweptLooksTheSame(g: Grant, room: Room, now: int)
    requires GrantOK(g, room)
    ensures ParticipantAt(Swept(g, now), now) == ParticipantAt(g, now)
    ensures GrantAllocationAt(Swept(g, now), now) == GrantAllocationAt(g, now)
  {
    var e := ExpiredRelay(g, now);
    ExpiredRelayLooks(g, room, now);
    if Live(g) && now >= g.monoDeadline {
      TerminatedLooks(e);
      hide ExpiredRelay, Terminated;
    }
  }

  /** Packets are relayed to the grant at `now`. */
  ghost predicate Listens(g: Grant, now: int) { Live(g) && now < g.monoDeadline && Unexpired(g, now) }

  lemma SweptListens(g: Grant, now: int)
    ensures Listens(Swept(g, now), now) <==> Listens(g, now)
    ensures Listens(g, now) ==> Swept(g, now).binding == g.binding
  {
    ExpiredIdentity(g, now);
    ExpiredRelayBinding(g, now);
    hide ExpiredRelay, Terminated;
  }

  lemma ExpiredRelayLooks(g: Grant, room: Room, now: int)
    requires GrantOK(g, room)
    ensures var e := ExpiredRelay(g, now);
      && ParticipantAt(e, now) == ParticipantAt(g, now) && GrantAllocationAt(e, now) == GrantAllocationAt(g, now)
      && SameIdentity(g, e) && (Live(e) <==> Live(g))
  {
    StateAtExpired(g, room, now);
    ExpiredIdentity(g, now);
    ExpiredHandshakes(g, room, now);
    hide ExpiredRelay, GrantOK, GrantStateAt;
  }

  lemma StateAtExpired(g: Grant, room: Room, now: int)
    requires GrantOK(g, room)
    ensures GrantStateAt(ExpiredRelay(g, now), now) == GrantStateAt(g, now)
    ensures ExpiredRelay(g, now).expiresAt == g.expiresAt && ExpiredRelay(g, now).secret == g.secret
  {
  }

  lemma ExpiredHandshakes(g: Grant, room: Room, now: int)
    requires GrantOK(g, room)
    ensures var e := ExpiredRelay(g, now);
      && (g.binding.None? ==> e.binding.None? && e.bindingState == g.bindingState)
      && (g.binding.Some? && now < g.binding.value.deadline ==> e.binding == g.binding)
      && (g.binding.Some? && now >= g.binding.value.deadline ==> e.binding.None? && e.bindingState.BindingExpired?)
      && ((e.pending.Some? && now < e.pending.value.deadline) <==> (g.pending.Some? && now < g.pending.value.deadline))
  {
  }

  lemma TerminatedLooks(g: Grant)
    requires Live(g)
    ensures var t := Terminated(g, GrantState.Expired); SameIdentity(g, t) && t.state.Expired? && t.secret.None?
  {
  }

  // ---------------------------------------------------------------- one room

  /** What the control side can see of room `id` is the same in both states. */
  ghost predicate LooksTheSame(s: State, s': State, id: string, now: int) {
    && (Accessible(s, id, now) <==> Accessible(s', id, now))
    && (Accessible(s, id, now) ==>
          && s'.rooms[id] == s.rooms[id]
          && forall i | 0 <= i < |s.rooms[id].grants| ::
             LooksAlike(s.heap[s.rooms[id].grants[i]], s'.heap[s.rooms[id].grants[i]], now))
  }

  ghost predicate LooksAlike(g: Grant, g': Grant, now: int) {
    && SameIdentity(g, g') && ParticipantAt(g', now) == ParticipantAt(g, now)
       && GrantAllocationAt(g', now) == GrantAllocationAt(g, now)
    && (Listens(g', now) <==> Listens(g, now)) && (Listens(g, now) ==> g'.binding == g.binding)
  }

  ghost predicate Accessible(s: State, id: string, now: int) {
    && id in s.rooms && Resident(s, s.rooms[id].grants) && !AccessTerminal(s, id, now)
  }

  /** A name that `CreateRoom` finds taken is still taken. */
  ghost predicate StillTaken(s: State, s': State, id: string, now: int) {
    id in s.rooms && !Stale(s.rooms[id], now) ==> id in s'.rooms && !Stale(s'.rooms[id], now)
  }

  lemma SweptGrantsLook(s: State, limits: Limits, id: string, now: int)
    requires Inv(s, limits) && Accessible(s, id, now)
    ensures var s' := SweepGrants(s, s.rooms[id].grants, now);
      && LooksTheSame(s, s', id, now) && Resident(s', s.rooms[id].grants) && s'.rooms == s.rooms
      && LastDeadline(s', s.rooms[id].grants) == LastDeadline(s, s.rooms[id].grants)
  {
    hide Inv, Swept, GrantOK, LastDeadline, LooksTheSame, LooksAlike;
    var refs := s.rooms[id].grants;
    RoomShape(s, limits, id);
    SweepGrantsFrame(s, refs, now);
    var s' := SweepGrants(s, refs, now);
    hide SweepGrants;
    forall i | 0 <= i < |refs| ensures LooksAlike(s.heap[refs[i]], s'.heap[refs[i]], now) {
      GrantHolds(s, limits, refs[i]);
      SweptLooksAlike(s.heap[refs[i]], s.rooms[s.heap[refs[i]].roomID], now);
    }
    AlikeRoomLooks(s, s', id, now);
  }

  lemma SweptLooksAlike(g: Grant, room: Room, now: int)
    requires GrantOK(g, room)
    ensures LooksAlike(g, Swept(g, now), now)
  {
    hide GrantOK, Swept, ParticipantAt, GrantAllocationAt, Listens;
    SweptListens(g, now);
    SweptLooksTheSame(g, room, now);
    ExpiredIdentity(g, now);
  }

  /** A room whose grants look alike looks the same. */
  lemma AlikeRoomLooks(s: State, s': State, id: string, now: int)
    requires Accessible(s, id, now) && s'.rooms == s.rooms && Resident(s', s.rooms[id].grants)
    requires forall i | 0 <= i < |s.rooms[id].grants| ::
      LooksAlike(s.heap[s.rooms[id].grants[i]], s'.heap[s.rooms[id].grants[i]], now)
    ensures LooksTheSame(s, s', id, now)
    ensures LastDeadline(s', s.rooms[id].grants) == LastDeadline(s, s.rooms[id].grants)
  {
    hide ParticipantAt, GrantAllocationAt, Listens;
    LastDeadlineDepends(s, s', s.rooms[id].grants);
    hide LooksAlike, LastDeadline;
  }

  /** The sweep of an accessible room leaves it accessible and looking the same. */
  lemma SweepAccessible(s: State, limits: Limits, id: string, now: int)
    requires Inv(s, limits) && Accessible(s, id, now)
    ensures LooksTheSame(s, SweepRoom(s, limits, id, now), id, now)
  {
    hide Inv, SweepGrants, LooksTheSame, TombstoneRoom, MarkEmpty;
    SweptGrantsLook(s, limits, id, now);
    SweepGrantsFrame(s, s.rooms[id].grants, now);
  }

  lemma SweepInaccessible(s: State, limits: Limits, id: string, now: int)
    requires Inv(s, limits) && RoomGrantsResident(s, id) && !Accessible(s, id, now)
    ensures !Accessible(SweepRoom(s, limits, id, now), id, now)
    ensures limits.Valid() && now < MAX_INT64 ==> StillTaken(s, SweepRoom(s, limits, id, now), id, now)
  {
    hide Inv, SweepGrants, TombstoneRoom, LastDeadline;
    var refs := s.rooms[id].grants;
    if !s.rooms[id].state.Tombstone? {
      SweepGrantsFrame(s, refs, now);
      var s1 := SweepGrants(s, refs, now);
      SweptRoomFacts(s, limits, id, now);
      LastDeadlineDepends(s, s1, refs);
      InvRoomsOK(s1, limits);
      TombstoneLooks(s1, limits, id, now);
      MarkEmptyKeepsRooms(s1, limits, id, now);
      TombstoneLooks(MarkEmpty(s1, id), limits, id, now);
    }
  }

  lemma InvRoomsOK(s: State, limits: Limits)
    requires Inv(s, limits)
    ensures RoomsOK(s, limits)
  {
  }

  lemma MarkEmptyKeepsRooms(s: State, limits: Limits, id: string, now: int)
    requires RoomsOK(s, limits) && id in s.rooms && !s.rooms[id].state.Tombstone?
    ensures var s' := MarkEmpty(s, id);
      RoomsOK(s', limits) && id in s'.rooms && s'.rooms[id].state.Empty? && s'.heap == s.heap
  {
    MarkedRooms(s, limits, id);
    hide RoomsOK;
  }

  lemma TombstoneLooks(s: State, limits: Limits, id: string, now: int)
    requires RoomsOK(s, limits) && id in s.rooms && !s.rooms[id].state.Tombstone?
    requires forall i | 0 <= i < |s.rooms[id].grants| :: s.rooms[id].grants[i] in s.heap
    ensures var s' := TombstoneRoom(s, limits, id, now, GrantState.Expired);
      && id in s'.rooms && s'.rooms[id].state.Tombstone?
      && (limits.Valid() && now < MAX_INT64 ==> now < s'.rooms[id].tombstoneDeadline)
  {
    TerminateAllTerminates(s, s.rooms[id].grants, GrantState.Expired);
    hide TerminateAll, RoomsOK;
  }

  // ---------------------------------------------------------------- all rooms

  /** Room `id` and its grants are the same in both states. */
  ghost predicate RoomKept(s: State, s': State, id: string) {
    && id in s'.rooms && id in s.rooms && s'.rooms[id] == s.rooms[id]
    && forall r | r in s.heap && s.heap[r].roomID == id :: r in s'.heap && s'.heap[r] == s.heap[r]
  }

  lemma TombstoneKeepsOthers(s: State, limits: Limits, q: string, id: string, now: int)
    requires RoomsOK(s, limits) && q in s.rooms && q != id
    ensures forall i | 0 <= i < |s.rooms[q].grants| :: s.rooms[q].grants[i] in s.heap
    ensures var s' := TombstoneRoom(s, limits, q, now, GrantState.Expired);
      (id in s.rooms ==> RoomKept(s, s', id)) && (id !in s.rooms ==> id !in s'.rooms)
  {
    hide RoomsOK, TombstoneRoom;
    GrantsOfRoom(s, limits, q);
    TombstoneFrame(s, limits, q, now, GrantState.Expired);
  }

  lemma RetireKeepsOthers(s: State, limits: Limits, q: string, id: string, now: int)
    requires RoomsOK(s, limits) && RoomGrantsResident(s, q) && q != id && !s.rooms[q].state.Tombstone?
    ensures var s' := RetireIfDue(s, limits, q, now);
      (id in s.rooms ==> RoomKept(s, s', id)) && (id !in s.rooms ==> id !in s'.rooms)
  {
    hide RoomsOK, TombstoneRoom, LastDeadline;
    MarkEmptyKeepsRooms(s, limits, q, now);
    TombstoneKeepsOthers(s, limits, q, id, now);
    TombstoneKeepsOthers(MarkEmpty(s, q), limits, q, id, now);
  }

  lemma SweepGrantsKeepOthers(s: State, limits: Limits, q: string, id: string, now: int)
    requires RoomsOK(s, limits) && RoomGrantsResident(s, q) && q != id
    ensures var s' := SweepGrants(s, s.rooms[q].grants, now);
      s'.rooms == s.rooms && (id in s.rooms ==> RoomKept(s, s', id))
  {
    hide RoomsOK, SweepGrants;
    GrantsOfRoom(s, limits, q);
    SweepGrantsFrame(s, s.rooms[q].grants, now);
  }

  /** The sweep of one room touches no other. */
  lemma SweepKeepsOthers(s: State, limits: Limits, q: string, id: string, now: int)
    requires Inv(s, limits) && RoomGrantsResident(s, q) && q != id
    ensures var s' := SweepRoom(s, limits, q, now);
      (id in s.rooms ==> RoomKept(s, s', id)) && (id !in s.rooms ==> id !in s'.rooms)
  {
    hide Inv, SweepGrants, RetireIfDue, RoomsOK;
    if !s.rooms[q].state.Tombstone? {
      var s1 := SweepGrants(s, s.rooms[q].grants, now);
      SweptRoomFacts(s, limits, q, now);
      InvRoomsOK(s, limits);
      InvRoomsOK(s1, limits);
      SweepGrantsKeepOthers(s, limits, q, id, now);
      RetireKeepsOthers(s1, limits, q, id, now);
    }
  }

  lemma SameRoomLooks(s: State, s': State, id: string, now: int)
    requires id in s.rooms && id in s'.rooms && s'.rooms[id] == s.rooms[id] && Resident(s, s.rooms[id].grants)
    requires forall i | 0 <= i < |s.rooms[id].grants| ::
      s.rooms[id].grants[i] in s'.heap && s'.heap[s.rooms[id].grants[i]] == s.heap[s.rooms[id].grants[i]]
    ensures LooksTheSame(s, s', id, now)
  {
    hide ParticipantAt, GrantAllocationAt, Listens;
    LastDeadlineDepends(s, s', s.rooms[id].grants);
  }

  /** One room of the sweep, seen from any room. */
  lemma SweepRoomLooks(s: State, limits: Limits, q: string, id: string, now: int)
    requires Inv(s, limits) && RoomGrantsResident(s, q)
    ensures LooksTheSame(s, SweepRoom(s, limits, q, now), id, now)
    ensures limits.Valid() && now < MAX_INT64 ==> StillTaken(s, SweepRoom(s, limits, q, now), id, now)
  {
    hide Inv, SweepRoom, LooksTheSame;
    RoomsResident(s, limits);
    if q != id {
      SweepKeepsOthers(s, limits, q, id, now);
      if id in s.rooms {
        GrantsResident(s, limits, id);
        SameRoomLooks(s, SweepRoom(s, limits, q, now), id, now);
      } else {
        AbsentLooks(s, SweepRoom(s, limits, q, now), id, now);
      }
    } else if Accessible(s, id, now) {
      SweepAccessible(s, limits, id, now);
      AccessibleTaken(s, SweepRoom(s, limits, q, now), id, now);
    } else {
      SweepInaccessible(s, limits, id, now);
      InaccessibleLooks(s, SweepRoom(s, limits, q, now), id, now);
    }
  }

  lemma AbsentLooks(s: State, s': State, id: string, now: int)
    requires id !in s.rooms && id !in s'.rooms
    ensures LooksTheSame(s, s', id, now)
  {
  }

  lemma InaccessibleLooks(s: State, s': State, id: string, now: int)
    requires !Accessible(s, id, now) && !Accessible(s', id, now)
    ensures LooksTheSame(s, s', id, now)
  {
  }

  lemma AccessibleTaken(s: State, s': State, id: string, now: int)
    requires Accessible(s, id, now) && LooksTheSame(s, s', id, now)
    ensures StillTaken(s, s', id, now)
  {
  }

  lemma LooksTransitive(s: State, s1: State, s2: State, id: string, now: int)
    requires LooksTheSame(s, s1, id, now) && LooksTheSame(s1, s2, id, now)
    ensures LooksTheSame(s, s2, id, now)
  {
    hide ParticipantAt, GrantAllocationAt, Listens, AccessTerminal;
  }

  lemma LooksReflexive(s: State, id: string, now: int)
    ensures LooksTheSame(s, s, id, now)
  {
    hide ParticipantAt, GrantAllocationAt, Listens, AccessTerminal;
  }

  lemma {:induction false} SweepRoomsLooks(s: State, limits: Limits, order: seq<string>, id: string, now: int)
    requires Inv(s, limits)
    ensures LooksTheSame(s, SweepRooms(s, limits, order, now), id, now)
    ensures limits.Valid() && now < MAX_INT64 ==> StillTaken(s, SweepRooms(s, limits, order, now), id, now)
    decreases |order|
  {
    hide Inv, SweepRoom, LooksTheSame, Stale;
    if order == [] {
      LooksReflexive(s, id, now);
    } else if order[0] !in s.rooms {
      SweepRoomsLooks(s, limits, order[1..], id, now);
    } else {
      RoomsResident(s, limits);
      SweepRoomKeepsInv(s, limits, order[0], now);
      var s1 := SweepRoom(s, limits, order[0], now);
      SweepRoomLooks(s, limits, order[0], id, now);
      SweepRoomsLooks(s1, limits, order[1..], id, now);
      LooksTransitive(s, s1, SweepRooms(s1, limits, order[1..], now), id, now);
    }
  }

  lemma GateLooks(s: State, s': State, id: string, now: int)
    requires s'.rooms == s.rooms && s'.heap == s.heap
    ensures LooksTheSame(s, s', id, now) && StillTaken(s, s', id, now)
  {
    hide ParticipantAt, GrantAllocationAt, Listens, Stale;
    if id in s.rooms && Resident(s, s.rooms[id].grants) { LastDeadlineDepends(s, s', s.rooms[id].grants); }
  }

  lemma ExpireLooks(s: State, limits: Limits, order: seq<string>, id: string, now: int)
    requires Inv(s, limits)
    ensures LooksTheSame(s, Expire(s, limits, order, now), id, now)
    ensures limits.Valid() && now < MAX_INT64 ==> StillTaken(s, Expire(s, limits, order, now), id, now)
  {
    hide Inv, SweepRooms, LooksTheSame, SweepSources, Stale;
    var s1 := SweepRooms(s, limits, order, now);
    SweepRoomsLooks(s, limits, order, id, now);
    GateLooks(s1, Expire(s, limits, order, now), id, now);
    LooksTransitive(s, s1, Expire(s, limits, order, now), id, now);
  }

  // ---------------------------------------------------------------- what a caller sees

  lemma SameSnapshot(s: State, s': State, id: string, now: int)
    requires LooksTheSame(s, s', id, now) && Accessible(s, id, now)
    ensures SnapshotAt(s', id, now) == SnapshotAt(s, id, now)
    ensures AllocationAt(s', id, now) == AllocationAt(s, id, now)
  {
    hide ParticipantAt, GrantAllocationAt, Listens, AccessTerminal;
  }

  lemma SameAnswer(s: State, s': State, id: string, d: Definition, now: int)
    requires LooksTheSame(s, s', id, now) && Accessible(s, id, now)
    ensures SameDefinition(s', id, d) <==> SameDefinition(s, id, d)
  {
    hide ParticipantAt, GrantAllocationAt, Listens, AccessTerminal;
    assert forall i | 0 <= i < |s.rooms[id].grants| ::
      SameIdentity(s.heap[s.rooms[id].grants[i]], s'.heap[s.rooms[id].grants[i]]);
  }

  /** A reader sees the same room before and after a sweep at the same instant, in whatever
      order the sweep visits the rooms. */
  lemma SweepIsTransparentToReaders(s: State, limits: Limits, order: seq<string>, id: string, now: int)
    requires Inv(s, limits)
    ensures forall r | r in s.rooms :: Resident(s, s.rooms[r].grants)
    ensures var s' := Expire(s, limits, order, now);
      && (forall r | r in s'.rooms :: Resident(s', s'.rooms[r].grants))
      && GetRoom(s', id, now) == GetRoom(s, id, now)
  {
    hide Inv, Expire, LooksTheSame, SnapshotAt, AccessTerminal;
    RoomsResident(s, limits);
    ExpireStoreKeepsInv(s, limits, order, now);
    var s' := Expire(s, limits, order, now);
    RoomsResident(s', limits);
    ExpireLooks(s, limits, order, id, now);
    AccessAgrees(s, s', id, now);
    if Accessible(s, id, now) { SameSnapshot(s, s', id, now); }
  }

  lemma AccessAgrees(s: State, s': State, id: string, now: int)
    requires LooksTheSame(s, s', id, now)
    ensures Accessible(s, id, now) <==> Accessible(s', id, now)
    ensures Accessible(s, id, now) ==> s'.rooms[id] == s.rooms[id]
  {
  }

  /** A creation under a name that is taken gets the same answer before and after a sweep: the
      same allocation for a retry of an accessible room, a conflict otherwise. */
  lemma SweepIsTransparentToRetries(
    s: State, limits: Limits, order: seq<string>, random: Random, id: string, d: Definition, reading: ClockReading)
    requires Inv(s, limits) && limits.Valid() && reading.mono < MAX_INT64
    requires id in s.rooms && !Stale(s.rooms[id], reading.mono)
    ensures forall r | r in s.rooms :: Resident(s, s.rooms[r].grants)
    ensures var s' := Expire(s, limits, order, reading.mono);
      && (forall r | r in s'.rooms :: Resident(s', s'.rooms[r].grants))
      && CreateRoom(s', limits, random, id, d, reading).1 == CreateRoom(s, limits, random, id, d, reading).1
      && CreateRoom(s', limits, random, id, d, reading).0 == s'
  {
    hide Inv, Expire, LooksTheSame, AllocationAt, AccessTerminal, SameDefinition, Stale, Canonical, AllocateRoom;
    var now := reading.mono;
    RoomsResident(s, limits);
    ExpireStoreKeepsInv(s, limits, order, now);
    var s' := Expire(s, limits, order, now);
    RoomsResident(s', limits);
    ExpireLooks(s, limits, order, id, now);
    AccessAgrees(s, s', id, now);
    OpenUnlessTerminal(s, id, now);
    OpenUnlessTerminal(s', id, now);
    if Accessible(s, id, now) && Canonical(id, d, limits).Ok? {
      SameSnapshot(s, s', id, now);
      SameAnswer(s, s', id, Canonical(id, d, limits).value, now);
    }
  }

  lemma OpenUnlessTerminal(s: State, id: string, now: int)
    requires id in s.rooms && Resident(s, s.rooms[id].grants)
    ensures !AccessTerminal(s, id, now) ==> s.rooms[id].state.Open?
  {
  }

  lemma {:induction false} SameAudience(s: State, s': State, refs: seq<Ref>, sender: Ref, now: int)
    requires forall i | 0 <= i < |refs| ::
      && refs[i] in s.heap && refs[i] in s'.heap
      && (Listens(s'.heap[refs[i]], now) <==> Listens(s.heap[refs[i]], now))
      && (Listens(s.heap[refs[i]], now) ==> s'.heap[refs[i]].binding == s.heap[refs[i]].binding)
    ensures Audience(s', refs, sender, now) == Audience(s, refs, sender, now)
    decreases |refs|
  {
    if refs != [] {
      assert forall i | 0 <= i < |refs[1..]| :: refs[1..][i] == refs[i + 1];
      SameAudience(s, s', refs[1..], sender, now);
    }
  }

  lemma LooksResident(s: State, s': State, id: string, now: int)
    requires LooksTheSame(s, s', id, now) && Accessible(s, id, now)
    ensures Resident(s', s.rooms[id].grants)
    ensures forall i | 0 <= i < |s.rooms[id].grants| :: var r := s.rooms[id].grants[i];
      && (Listens(s'.heap[r], now) <==> Listens(s.heap[r], now))
      && (Listens(s.heap[r], now) ==> s'.heap[r].binding == s.heap[r].binding)
  {
    hide ParticipantAt, GrantAllocationAt, Listens, AccessTerminal;
  }

  /** A packet relayed after the sweep reaches exactly whom it would have reached before. */
  lemma SweepIsTransparentToFanout(s: State, limits: Limits, order: seq<string>, id: string, sender: Ref, now: int)
    requires Inv(s, limits) && Accessible(s, id, now)
    ensures var s' := Expire(s, limits, order, now);
      && id in s'.rooms && s'.rooms[id] == s.rooms[id] && Resident(s', s.rooms[id].grants)
      && Audience(s', s.rooms[id].grants, sender, now) == Audience(s, s.rooms[id].grants, sender, now)
  {
    hide Inv, Expire, LooksTheSame, AccessTerminal, Listens;
    var s' := Expire(s, limits, order, now);
    ExpireLooks(s, limits, order, id, now);
    AccessAgrees(s, s', id, now);
    LooksResident(s, s', id, now);
    SameAudience(s, s', s.rooms[id].grants, sender, now);
  }

  // ---------------------------------------------------------------- what a sweep leaves

  /** Nothing of the grant has expired. */
  ghost predicate Settled(g: Grant, now: int) {
    && (Live(g) ==> now < g.monoDeadline)
    && (g.pending.Some? ==> now < g.pending.value.deadline)
    && (g.recent.Some? ==> now < g.recent.value.deadline)
    && (g.binding.Some? ==> now < g.binding.value.deadline)
  }

  /** Nothing of room `id` is left to sweep. */
  ghost predicate Clean(s: State, limits: Limits, id: string, now: int) {
    id in s.rooms ==>
      var room := s.rooms[id];
      if room.state.Tombstone? then now < room.tombstoneDeadline
      else
        && now < room.monoDeadline && Resident(s, room.grants)
        && (forall i | 0 <= i < |room.grants| :: Settled(s.heap[room.grants[i]], now))
        && (now >= LastDeadline(s, room.grants) ==>
           room.state.Empty? && now < SaturatingAdd(LastDeadline(s, room.grants), limits.emptyGrace))
  }

  lemma SweptIsSettled(g: Grant, now: int)
    ensures Settled(Swept(g, now), now)
  {
    ExpiredIsSettled(g, now);
    TerminatedIsSettled(ExpiredRelay(g, now), now);
    hide ExpiredRelay, Terminated;
    ExpiredIdentity(g, now);
  }

  lemma ExpiredIsSettled(g: Grant, now: int)
    ensures var e := ExpiredRelay(g, now);
      && (e.pending.Some? ==> now < e.pending.value.deadline)
      && (e.recent.Some? ==> now < e.recent.value.deadline)
      && (e.binding.Some? ==> now < e.binding.value.deadline)
      && e.monoDeadline == g.monoDeadline
  {
  }

  lemma TerminatedIsSettled(g: Grant, now: int)
    ensures Settled(Terminated(g, GrantState.Expired), now)
  {
  }

  lemma TombstoneIsClean(s: State, limits: Limits, id: string, now: int)
    requires limits.Valid() && now < MAX_INT64 && RoomGrantsResident(s, id) && !s.rooms[id].state.Tombstone?
    ensures Clean(TombstoneRoom(s, limits, id, now, GrantState.Expired), limits, id, now)
  {
    TerminateAllTerminates(s, s.rooms[id].grants, GrantState.Expired);
    hide TerminateAll;
  }

  lemma SweepCleansRoom(s: State, limits: Limits, id: string, now: int)
    requires Inv(s, limits) && limits.Valid() && now < MAX_INT64 && RoomGrantsResident(s, id)
    ensures Clean(SweepRoom(s, limits, id, now), limits, id, now)
  {
    hide Inv, SweepGrants, TombstoneRoom, Swept, Settled;
    var refs := s.rooms[id].grants;
    if !s.rooms[id].state.Tombstone? {
      var s1 := SweepGrants(s, refs, now);
      SweepGrantsFrame(s, refs, now);
      RoomShape(s, limits, id);
      forall i | 0 <= i < |refs| ensures Settled(s1.heap[refs[i]], now) { SweptIsSettled(s.heap[refs[i]], now); }
      TombstoneIsClean(s1, limits, id, now);
      LastDeadlineDepends(s1, MarkEmpty(s1, id), refs);
      TombstoneIsClean(MarkEmpty(s1, id), limits, id, now);
      hide LastDeadline;
    }
  }

  lemma KeptStaysClean(s: State, s': State, limits: Limits, id: string, now: int)
    requires Inv(s, limits) && id in s.rooms && RoomKept(s, s', id) && Clean(s, limits, id, now)
    ensures Clean(s', limits, id, now)
  {
    InvRoomsOK(s, limits);
    hide Inv, Settled;
    if !s.rooms[id].state.Tombstone? { LastDeadlineDepends(s, s', s.rooms[id].grants); }
    hide LastDeadline;
  }

  lemma {:induction false} SweepCleans(s: State, limits: Limits, order: seq<string>, id: string, now: int)
    requires Inv(s, limits) && limits.Valid() && now < MAX_INT64
    requires id in s.rooms ==> id in order || Clean(s, limits, id, now)
    ensures Clean(SweepRooms(s, limits, order, now), limits, id, now)
    decreases |order|
  {
    hide Inv, SweepRoom, Clean, RoomKept;
    if order == [] || id !in s.rooms {
      if id !in s.rooms { AbsentIsClean(s, limits, order, id, now); }
    } else if order[0] !in s.rooms {
      SweepCleans(s, limits, order[1..], id, now);
    } else {
      RoomsResident(s, limits);
      SweepRoomKeepsInv(s, limits, order[0], now);
      var s1 := SweepRoom(s, limits, order[0], now);
      if order[0] == id {
        SweepCleansRoom(s, limits, id, now);
      } else {
        SweepKeepsOthers(s, limits, order[0], id, now);
        if Clean(s, limits, id, now) { KeptStaysClean(s, s1, limits, id, now); }
      }
      SweepCleans(s1, limits, order[1..], id, now);
    }
  }

  lemma {:induction false} AbsentIsClean(s: State, limits: Limits, order: seq<string>, id: string, now: int)
    requires Inv(s, limits) && id !in s.rooms
    ensures Clean(SweepRooms(s, limits, order, now), limits, id, now)
    decreases |order|
  {
    hide Inv, SweepRoom, RoomKept;
    if order != [] {
      if order[0] in s.rooms {
        RoomsResident(s, limits);
        SweepRoomKeepsInv(s, limits, order[0], now);
        SweepKeepsOthers(s, limits, order[0], id, now);
        AbsentIsClean(SweepRoom(s, limits, order[0], now), limits, order[1..], id, now);
      } else {
        AbsentIsClean(s, limits, order[1..], id, now);
      }
    }
  }

  /** A sweep that visits every resident room leaves nothing that has expired: no room, no
      tombstone, no grant, no handshake, no binding and no source. */
  lemma SweepIsComplete(s: State, limits: Limits, order: seq<string>, now: int)
    requires Inv(s, limits) && limits.Valid() && now < MAX_INT64
    requires forall id | id in s.rooms :: id in order
    ensures var s' := Expire(s, limits, order, now);
      && (forall id | id in s'.rooms :: Clean(s', limits, id, now))
      && (forall r | r in s'.heap :: Settled(s'.heap[r], now))
      && (forall key | key in s'.gate.sources :: !Idle(s'.gate.sources[key], now))
  {
    hide Inv, SweepRooms, Clean, Settled, Evolves;
    var s1, s' := SweepRooms(s, limits, order, now), Expire(s, limits, order, now);
    forall id | id in s'.rooms ensures Clean(s', limits, id, now) {
      SweepCleans(s, limits, order, id, now);
      CleanAlike(s1, s', limits, id, now);
    }
    ExpireStoreKeepsInv(s, limits, order, now);
    forall r | r in s'.heap ensures Settled(s'.heap[r], now) {
      GrantFacts(s', limits, r);
      SettledInCleanRoom(s', limits, r, now);
    }
  }

  lemma CleanAlike(s: State, s': State, limits: Limits, id: string, now: int)
    requires Clean(s, limits, id, now) && s'.rooms == s.rooms && s'.heap == s.heap
    ensures Clean(s', limits, id, now)
  {
    hide Settled;
    if id in s.rooms && !s.rooms[id].state.Tombstone? { LastDeadlineDepends(s, s', s.rooms[id].grants); }
    hide LastDeadline;
  }

  lemma SettledInCleanRoom(s: State, limits: Limits, r: Ref, now: int)
    requires Inv(s, limits) && r in s.heap && Clean(s, limits, s.heap[r].roomID, now)
    ensures Settled(s.heap[r], now)
  {
    InvRoomsOK(s, limits);
    hide Inv, Settled;
    var room := s.rooms[s.heap[r].roomID];
    assert r in room.grants;
  }

  // ---------------------------------------------------------------- what a sweep does, exactly

  /** What a sweep at `now` makes of the record of room `id`, if it leaves one: an expired
      tombstone goes, a room past its deadline becomes a tombstone, and a room whose grants have
      all expired is empty for the grace period and a tombstone after it. */
  ghost function Fate(s: State, limits: Limits, id: string, now: int): Option<Room>
    requires RoomGrantsResident(s, id)
  {
    var room := s.rooms[id];
    var tombstone := Some(TombstoneRecord(SaturatingAdd(now, limits.tombstoneTTL)));
    if room.state.Tombstone? then if now < room.tombstoneDeadline then Some(room) else None
    else if now >= room.monoDeadline then tombstone
    else if SomeEndsAfter(s, room.grants, 0, now) then Some(room)
    else if SomeEndsAfter(s, room.grants, limits.emptyGrace, now) then Some(room.(state := Empty))
    else tombstone
  }

  /** Some of these grants ended no longer than `grace` ago, if it has ended at all. */
  ghost predicate SomeEndsAfter(s: State, refs: seq<Ref>, grace: nat, now: int)
    requires Resident(s, refs)
  {
    exists i :: 0 <= i < |refs| && now < SaturatingAdd(s.heap[refs[i]].monoDeadline, grace)
  }

  /** Room `id` and its grants have met their fate. */
  ghost predicate MeetsFate(s: State, s': State, limits: Limits, id: string, now: int)
    requires RoomGrantsResident(s, id)
  {
    var fate := Fate(s, limits, id, now);
    && (id in s'.rooms <==> fate.Some?) && (fate.Some? ==> s'.rooms[id] == fate.value)
    && forall r | r in s.heap && s.heap[r].roomID == id ::
         if fate.Some? && !fate.value.state.Tombstone? then r in s'.heap && s'.heap[r] == Swept(s.heap[r], now)
         else r !in s'.heap
  }

  /** Which of the three ends a room comes to depends on the latest of its deadlines. */
  lemma LastDecides(s: State, refs: seq<Ref>, grace: nat, now: int)
    requires Resident(s, refs) && refs != []
    ensures now < SaturatingAdd(LastDeadline(s, refs), grace) <==> SomeEndsAfter(s, refs, grace, now)
  {
    LastDeadlineIsMax(s, refs);
    hide LastDeadline;
  }

  lemma RetireFate(s: State, limits: Limits, id: string, now: int)
    requires Inv(s, limits) && RoomGrantsResident(s, id) && !s.rooms[id].state.Tombstone?
    ensures var s', room := RetireIfDue(s, limits, id, now), s.rooms[id];
      var final := LastDeadline(s, room.grants);
      if now >= room.monoDeadline || (now >= final && now >= SaturatingAdd(final, limits.emptyGrace))
      then id in s'.rooms && s'.rooms[id] == TombstoneRecord(SaturatingAdd(now, limits.tombstoneTTL))
           && (forall r | r in s.heap && s.heap[r].roomID == id :: r !in s'.heap)
      else id in s'.rooms && s'.rooms[id] == (if now < final then room else room.(state := Empty)) && s'.heap == s.heap
  {
    hide Inv, TombstoneRoom, LastDeadline, RoomsOK;
    InvRoomsOK(s, limits);
    TombstoneFrame(s, limits, id, now, GrantState.Expired);
    MarkEmptyKeepsRooms(s, limits, id, now);
    TombstoneFrame(MarkEmpty(s, id), limits, id, now, GrantState.Expired);
  }

  lemma SweepRoomFate(s: State, limits: Limits, id: string, now: int)
    requires Inv(s, limits) && RoomGrantsResident(s, id)
    ensures MeetsFate(s, SweepRoom(s, limits, id, now), limits, id, now)
  {
    hide Inv, SweepGrants, RetireIfDue, LastDeadline, Swept, SaturatingAdd;
    var refs := s.rooms[id].grants;
    if s.rooms[id].state.Tombstone? {
      TombstoneIsBare(s, limits, id);
    } else {
      var s1 := SweepGrants(s, refs, now);
      SweepGrantsFrame(s, refs, now);
      SweptRoomFacts(s, limits, id, now);
      RoomShape(s, limits, id);
      RoomsResident(s, limits);
      RetireFate(s1, limits, id, now);
      LastDeadlineDepends(s, s1, refs);
      LastDecides(s, refs, 0, now);
      LastDecides(s, refs, limits.emptyGrace, now);
      LastIsInTime(s, limits, id);
      GrantsListed(s, limits, id);
      forall r | r in s.heap && s.heap[r].roomID == id ensures r in s1.heap && s1.heap[r].roomID == id
        && s1.heap[r] == Swept(s.heap[r], now)
      {
        ExpiredIdentity(s.heap[r], now);
      }
    }
  }

  lemma LastIsInTime(s: State, limits: Limits, id: string)
    requires Inv(s, limits) && RoomGrantsResident(s, id) && s.rooms[id].grants != []
    ensures SaturatingAdd(LastDeadline(s, s.rooms[id].grants), 0) == LastDeadline(s, s.rooms[id].grants)
  {
    hide Inv;
    var refs := s.rooms[id].grants;
    LastDeadlineIsMax(s, refs);
    hide LastDeadline;
    forall i | 0 <= i < |refs| { GrantFacts(s, limits, refs[i]); }
  }

  lemma TombstoneIsBare(s: State, limits: Limits, id: string)
    requires Inv(s, limits) && id in s.rooms && s.rooms[id].state.Tombstone?
    ensures forall r | r in s.heap :: s.heap[r].roomID != id
  {
    InvRoomsOK(s, limits);
    hide Inv;
  }

  lemma GrantsListed(s: State, limits: Limits, id: string)
    requires Inv(s, limits) && id in s.rooms
    ensures forall r | r in s.heap && s.heap[r].roomID == id :: r in s.rooms[id].grants
  {
    InvRoomsOK(s, limits);
    hide Inv;
  }

  /** The fate of a room that was not visited yet has not changed. */
  lemma KeptMeetsFate(s: State, s1: State, s': State, limits: Limits, id: string, now: int)
    requires Inv(s, limits) && RoomGrantsResident(s, id) && RoomKept(s, s1, id)
    ensures RoomGrantsResident(s1, id)
    ensures MeetsFate(s1, s', limits, id, now) ==> MeetsFate(s, s', limits, id, now)
  {
    GrantsResident(s, limits, id);
    hide Inv, Swept, SaturatingAdd;
    assert Fate(s1, limits, id, now) == Fate(s, limits, id, now);
  }

  /** Rooms that are not visited are left alone, and names and grants that are gone stay gone. */
  lemma {:induction false} UnvisitedKept(s: State, limits: Limits, order: seq<string>, id: string, now: int)
    requires Inv(s, limits) && id !in order
    ensures var s' := SweepRooms(s, limits, order, now);
      && (id in s.rooms ==> RoomKept(s, s', id)) && (id !in s.rooms ==> id !in s'.rooms)
      && (forall r | r in s'.heap && r < s.nextRef :: r in s.heap) && s'.nextRef >= s.nextRef
    decreases |order|
  {
    hide Inv, SweepRoom;
    if order != [] {
      if order[0] in s.rooms {
        RoomsResident(s, limits);
        SweepRoomKeepsInv(s, limits, order[0], now);
        SweepKeepsOthers(s, limits, order[0], id, now);
        var s1 := SweepRoom(s, limits, order[0], now);
        NoneComeBack(s, s1, now);
        UnvisitedKept(s1, limits, order[1..], id, now);
      } else {
        UnvisitedKept(s, limits, order[1..], id, now);
      }
    }
  }

  lemma NoneComeBack(s: State, s': State, now: int)
    requires Evolves(s, s', now)
    ensures s.nextRef <= s'.nextRef && forall r | r in s'.heap && r < s.nextRef :: r in s.heap
  {
  }

  lemma VisitedMeetsFate(s: State, s1: State, s': State, limits: Limits, id: string, now: int)
    requires Inv(s, limits) && RoomGrantsResident(s, id) && MeetsFate(s, s1, limits, id, now)
    requires (id in s1.rooms ==> RoomKept(s1, s', id)) && (id !in s1.rooms ==> id !in s'.rooms)
    requires s1.nextRef >= s.nextRef && forall r | r in s'.heap && r < s1.nextRef :: r in s1.heap
    ensures MeetsFate(s, s', limits, id, now)
  {
    RefsBelowNext(s, limits);
    hide Inv, Fate;
    forall r | r in s.heap && s.heap[r].roomID == id { ExpiredIdentity(s.heap[r], now); }
    hide Swept;
  }

  lemma {:induction false} SweepRoomsFate(s: State, limits: Limits, order: seq<string>, id: string, now: int)
    requires Inv(s, limits) && RoomGrantsResident(s, id) && id in order
    requires forall i, j | 0 <= i < j < |order| :: order[i] != order[j]
    ensures MeetsFate(s, SweepRooms(s, limits, order, now), limits, id, now)
    decreases |order|
  {
    hide Inv, SweepRoom, MeetsFate, RoomKept;
    var rest := order[1..];
    assert forall i | 0 <= i < |rest| :: rest[i] == order[i + 1];
    if order[0] !in s.rooms {
      SweepRoomsFate(s, limits, rest, id, now);
    } else {
      RoomsResident(s, limits);
      var s1 := SweepRoom(s, limits, order[0], now);
      SweepRoomKeepsInv(s, limits, order[0], now);
      if order[0] == id {
        SweepRoomFate(s, limits, id, now);
        UnvisitedKept(s1, limits, rest, id, now);
        NoneComeBack(s, s1, now);
        VisitedMeetsFate(s, s1, SweepRooms(s1, limits, rest, now), limits, id, now);
      } else {
        SweepKeepsOthers(s, limits, order[0], id, now);
        KeptMeetsFate(s, s1, SweepRooms(s1, limits, rest, now), limits, id, now);
        SweepRoomsFate(s1, limits, rest, id, now);
      }
    }
  }

  /** The sweep visits every resident room once. */
  ghost predicate VisitsAll(s: State, order: seq<string>) {
    && (forall i, j | 0 <= i < j < |order| :: order[i] != order[j])
    && (forall id :: id in order <==> id in s.rooms)
  }

  /** A sweep, in whatever order it visits the rooms, does exactly this: every room and grant
      meets its fate, no room or grant appears, and the sources that are forgotten are exactly
      those last observed the idle time ago. */
  lemma SweepIsExact(s: State, limits: Limits, order: seq<string>, now: int)
    requires Inv(s, limits) && VisitsAll(s, order)
    ensures forall id | id in s.rooms :: RoomGrantsResident(s, id)
    ensures var s' := Expire(s, limits, order, now);
      && (forall id | id in s.rooms :: MeetsFate(s, s', limits, id, now))
      && (forall id | id in s'.rooms :: id in s.rooms) && (forall r | r in s'.heap :: r in s.heap)
      && (forall key :: key in s'.gate.sources <==>
           key in s.gate.sources && now < SaturatingAdd(s.gate.sources[key], 60 * SECOND))
      && (forall key | key in s'.gate.sources :: s'.gate.sources[key] == s.gate.sources[key])
  {
    hide Inv, SweepRooms, MeetsFate, Evolves, SaturatingAdd;
    RoomsResident(s, limits);
    var s1, s' := SweepRooms(s, limits, order, now), Expire(s, limits, order, now);
    forall id | id in s.rooms ensures MeetsFate(s, s', limits, id, now) {
      SweepRoomsFate(s, limits, order, id, now);
      SameRoomsFate(s, s1, s', limits, id, now);
    }
    forall id | id in s'.rooms ensures id in s.rooms {
      if id !in s.rooms { UnvisitedKept(s, limits, order, id, now); }
    }
    SweepRoomsKeepsInv(s, limits, order, now);
    SweptRefs(s, limits, order, now);
    SweepRoomsSources(s, limits, order, now);
  }

  lemma SameRoomsFate(s: State, s1: State, s': State, limits: Limits, id: string, now: int)
    requires RoomGrantsResident(s, id) && s'.rooms == s1.rooms && s'.heap == s1.heap
    ensures MeetsFate(s, s1, limits, id, now) ==> MeetsFate(s, s', limits, id, now)
  {
    hide Swept, Fate;
  }

  lemma {:induction false} SweptRefs(s: State, limits: Limits, order: seq<string>, now: int)
    requires Inv(s, limits)
    ensures forall r | r in SweepRooms(s, limits, order, now).heap :: r in s.heap
    decreases |order|
  {
    hide Inv, SweepRoom, Evolves;
    if order != [] {
      if order[0] in s.rooms {
        RoomsResident(s, limits);
        SweepRoomKeepsInv(s, limits, order[0], now);
        SweepRoomRefs(s, limits, order[0], now);
        SweptRefs(SweepRoom(s, limits, order[0], now), limits, order[1..], now);
      } else {
        SweptRefs(s, limits, order[1..], now);
      }
    }
  }

  lemma SweepRoomRefs(s: State, limits: Limits, id: string, now: int)
    requires Inv(s, limits) && RoomGrantsResident(s, id)
    ensures forall r | r in SweepRoom(s, limits, id, now).heap :: r in s.heap
    ensures SweepRoom(s, limits, id, now).gate.sources == s.gate.sources
  {
    hide Inv, SweepGrants, RetireIfDue;
    if !s.rooms[id].state.Tombstone? {
      var s1 := SweepGrants(s, s.rooms[id].grants, now);
      SweepGrantsFrame(s, s.rooms[id].grants, now);
      SweptRoomFacts(s, limits, id, now);
      RetireRefs(s1, limits, id, now);
    }
  }

  lemma RetireRefs(s: State, limits: Limits, id: string, now: int)
    requires Inv(s, limits) && RoomGrantsResident(s, id) && !s.rooms[id].state.Tombstone?
    ensures forall r | r in RetireIfDue(s, limits, id, now).heap :: r in s.heap
    ensures RetireIfDue(s, limits, id, now).gate.sources == s.gate.sources
  {
    hide Inv, TombstoneRoom, LastDeadline, RoomsOK;
    InvRoomsOK(s, limits);
    TombstoneFrame(s, limits, id, now, GrantState.Expired);
    MarkEmptyKeepsRooms(s, limits, id, now);
    TombstoneFrame(MarkEmpty(s, id), limits, id, now, GrantState.Expired);
  }

  lemma {:induction false} SweepRoomsSources(s: State, limits: Limits, order: seq<string>, now: int)
    requires Inv(s, limits)
    ensures SweepRooms(s, limits, order, now).gate.sources == s.gate.sources
    decreases |order|
  {
    hide Inv, SweepRoom, Evolves;
    if order != [] {
      if order[0] in s.rooms {
        RoomsResident(s, limits);
        SweepRoomKeepsInv(s, limits, order[0], now);
        SweepRoomRefs(s, limits, order[0], now);
        SweepRoomsSources(SweepRoom(s, limits, order[0], now), limits, order[1..], now);
      } else {
        SweepRoomsSources(s, limits, order[1..], now);
      }
    }
  }

  /** The order in which a sweep visits the rooms does not matter. */
  lemma SweepOrderIsIrrelevant(s: State, limits: Limits, a: seq<string>, b: seq<string>, now: int)
    requires Inv(s, limits) && VisitsAll(s, a) && VisitsAll(s, b)
    ensures Expire(s, limits, a, now).rooms == Expire(s, limits, b, now).rooms
    ensures Expire(s, limits, a, now).heap == Expire(s, limits, b, now).heap
  {
    hide Inv, Expire, Fate, Swept, VisitsAll;
    SweepIsExact(s, limits, a, now);
    SweepIsExact(s, limits, b, now);
    var s1, s2 := Expire(s, limits, a, now), Expire(s, limits, b, now);
    forall id ensures id in s1.rooms <==> id in s2.rooms {
      if id in s.rooms { assert MeetsFate(s, s1, limits, id, now) && MeetsFate(s, s2, limits, id, now); }
    }
    forall id | id in s1.rooms ensures s1.rooms[id] == s2.rooms[id] {
      assert MeetsFate(s, s1, limits, id, now) && MeetsFate(s, s2, limits, id, now);
    }
    forall r | r in s.heap ensures r in s1.heap <==> r in s2.heap
      ensures r in s1.heap ==> s1.heap[r] == s2.heap[r]
    {
      GrantFacts(s, limits, r);
      var id := s.heap[r].roomID;
      assert MeetsFate(s, s1, limits, id, now) && MeetsFate(s, s2, limits, id, now);
    }
  }
}
