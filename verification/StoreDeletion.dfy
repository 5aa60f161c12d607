/** Every path by which the store forgets something: handshakes, bindings, grants, rooms. */
module StoreDeletion {
  import opened Prelude
  import opened RateLimit
  import opened Admission
  import opened StoreModel
  import ReplayWindow

  // ---------------------------------------------------------------- one grant record

  function ClearedPending(g: Grant): Grant {
    if g.pending.None? then g
    else g.(pending := None, bindingState := if g.binding.Some? then Current else g.bindingState)
  }

  function ClearedRecent(g: Grant): Grant { g.(recent := None) }

  function ClearedBinding(g: Grant): Grant {
    if g.binding.None? then g
    else
      var g1 := if g.recent.Some? && g.recent.value.generation == g.binding.value.generation then ClearedRecent(g)
        else g;
      if Live(g1) then g1.(binding := None, state := Issued, bindingState := BindingExpired)
      else g1.(binding := None)
  }

  function ClearedRelay(g: Grant): Grant {
    ClearedBinding(ClearedRecent(ClearedPending(g))).(generation := 0)
  }

  /** Forget what has expired at `now`. */
  function ExpiredRelay(g: Grant, now: int): Grant {
    var g1 := if g.pending.Some? && now >= g.pending.value.deadline then ClearedPending(g) else g;
    var g2 := if g1.recent.Some? && now >= g1.recent.value.deadline then ClearedRecent(g1) else g1;
    if g2.binding.Some? && now >= g2.binding.value.deadline then ClearedBinding(g2) else g2
  }

  function Terminated(g: Grant, terminal: GrantState): Grant {
    var g1 := ClearedRelay(g);
    var g2 := if Live(g1) then g1.(state := terminal, bindingState := if terminal.Revoked? then BindingRevoked
      else BindingExpired) else g1;
    g2.(secret := None)
  }

  // ---------------------------------------------------------------- evolution

  ghost predicate Unexpired(g: Grant, now: int) { g.binding.Some? && now < g.binding.value.deadline }

  /** The same binding; only its replay window may have moved, and only forward. */
  ghost predicate SameBinding(b: Binding, b': Binding) {
    b' == b.(replay := b'.replay) && ReplayWindow.NeverForgets(b.replay, b'.replay)
  }

  /** The grant is live before its deadline. */
  predicate Lives(g: Grant, now: int) { Live(g) && now < g.monoDeadline }

  predicate PendingAlive(g: Grant, now: int) { g.pending.Some? && now < g.pending.value.deadline }

  predicate RecentAlive(g: Grant, now: int) { g.recent.Some? && now < g.recent.value.deadline }

  /** At `now` nothing unexpired was lost: identities, secrets, generations and lives, unexpired
      handshakes and bindings survive, and nothing dead came back to life. */
  ghost predicate GrantEvolves(g: Grant, g': Grant, now: int) {
    && SameIdentity(g, g')
    && (Live(g') ==> Live(g) && g'.generation == g.generation && g'.secret == g.secret)
    && (Lives(g, now) ==> Live(g'))
    && (PendingAlive(g, now) ==> g'.pending == g.pending)
    && (RecentAlive(g, now) ==> g'.recent == g.recent)
    && (g'.recent.Some? ==> g'.recent == g.recent)
    && (Unexpired(g, now) ==> g'.binding.Some?)
    && (g'.binding.Some? ==> g.binding.Some? && SameBinding(g.binding.value, g'.binding.value))
  }

  predicate Reserved(room: Room, now: int) { room.state.Tombstone? && now < room.tombstoneDeadline }

  /** The record of room `id` is the same. */
  ghost predicate KeptRoom(s: State, s': State, id: string) {
    id in s.rooms ==> id in s'.rooms && s'.rooms[id] == s.rooms[id]
  }

  /** Rooms that somebody still has a grant for, and names that are still reserved, are kept. */
  ghost predicate RoomsEvolve(s: State, s': State, now: int) {
    && (forall r | r in s.heap && Lives(s.heap[r], now) :: KeptRoom(s, s', s.heap[r].roomID))
    && (forall id | id in s.rooms && Reserved(s.rooms[id], now) :: KeptRoom(s, s', id))
  }

  ghost predicate Evolves(s: State, s': State, now: int) {
    && s.nextRef <= s'.nextRef && RoomsEvolve(s, s', now)
    && (forall r | r in s.heap && r in s'.heap :: GrantEvolves(s.heap[r], s'.heap[r], now))
    && (forall r | r in s.heap && r !in s'.heap :: !Unexpired(s.heap[r], now) && !Lives(s.heap[r], now))
    && (forall r | r !in s.heap && r in s'.heap :: s.nextRef <= r && s'.heap[r].binding.None?)
  }

  lemma EvolvesReflexive(s: State, now: int)
    ensures Evolves(s, s, now)
  {
  }

  lemma EvolvesTransitive(s: State, s': State, s'': State, now: int)
    requires Evolves(s, s', now) && Evolves(s', s'', now)
    requires forall r | r in s.heap :: r < s.nextRef
    ensures Evolves(s, s'', now)
  {
    RoomsEvolveTransitive(s, s', s'', now);
    hide RoomsEvolve;
    forall r | r in s.heap && r in s''.heap ensures GrantEvolves(s.heap[r], s''.heap[r], now) {
      assert r in s'.heap;
      assert GrantEvolves(s.heap[r], s'.heap[r], now) && GrantEvolves(s'.heap[r], s''.heap[r], now);
    }
  }

  lemma RoomsEvolveTransitive(s: State, s': State, s'': State, now: int)
    requires Evolves(s, s', now) && Evolves(s', s'', now)
    ensures RoomsEvolve(s, s'', now)
  {
    hide SameBinding, Unexpired, PendingAlive, RecentAlive;
    forall r | r in s.heap && Lives(s.heap[r], now) ensures KeptRoom(s, s'', s.heap[r].roomID) {
      assert r in s'.heap && GrantEvolves(s.heap[r], s'.heap[r], now);
      assert Lives(s'.heap[r], now) && KeptRoom(s, s', s.heap[r].roomID) && KeptRoom(s', s'', s'.heap[r].roomID);
    }
  }

  /** Two states that differ only in records and indexes of the same grants. */
  ghost predicate SameRooms(s: State, s': State) {
    && s'.rooms == s.rooms && s'.openRooms == s.openRooms && s'.nextRef == s.nextRef && s'.drawn == s.drawn
    && s'.heap.Keys == s.heap.Keys && s'.gate.sources == s.gate.sources
  }

  // ---------------------------------------------------------------- grants in the store

  lemma OwnKeys(index: map<Bytes, Ref>, heap: map<Ref, Grant>, keys: Grant -> set<Bytes>, r: Ref, g: Grant)
    requires IndexExact(index, heap, keys) && r in heap && keys(g) <= keys(heap[r])
    ensures forall c | c in keys(g) :: c in index && index[c] == r
  {
  }

  lemma PutEvolves(s: State, r: Ref, g: Grant, now: int)
    requires r in s.heap && GrantEvolves(s.heap[r], g, now)
    ensures Evolves(s, Put(s, r, g), now)
  {
    hide Reindex, DropSession;
    forall q | q in s.heap ensures GrantEvolves(s.heap[q], Put(s, r, g).heap[q], now) {}
  }

  /** `g'` is `g` with some of its relay state or its life forgotten. */
  ghost predicate Forgets(g: Grant, g': Grant, room: Room) {
    && SameIdentity(g, g') && GrantOK(g', room)
    && (Live(g') ==> Live(g))
    && CandidateIDs(g') <= CandidateIDs(g) && BindingIDs(g') <= BindingIDs(g)
  }

  /** Forgetting part of a grant keeps the invariant, and evolves the store when what is
      forgotten has expired. */
  lemma ForgetKeepsInv(s: State, limits: Limits, r: Ref, g: Grant, now: int)
    requires Inv(s, limits) && r in s.heap
    requires Forgets(s.heap[r], g, s.rooms[s.heap[r].roomID])
    ensures Inv(Put(s, r, g), limits) && SameRooms(s, Put(s, r, g))
    ensures GrantEvolves(s.heap[r], g, now) ==> Evolves(s, Put(s, r, g), now)
  {
    assert MayPut(s, r, g) by {
      OwnKeys(s.candidatesByID, s.heap, CandidateIDs, r, g);
      OwnKeys(s.bindingsByID, s.heap, BindingIDs, r, g);
    }
    hide *;
    PutKeepsInv(s, limits, r, g);
    PutSameRooms(s, r, g);
    if GrantEvolves(s.heap[r], g, now) { PutEvolves(s, r, g, now); }
  }

  lemma GrantHolds(s: State, limits: Limits, r: Ref)
    requires Inv(s, limits) && r in s.heap
    ensures s.heap[r].roomID in s.rooms && GrantOK(s.heap[r], s.rooms[s.heap[r].roomID])
  {
  }

  lemma BindingEndsFirst(g: Grant, room: Room, now: int)
    requires GrantOK(g, room)
    ensures now >= g.monoDeadline ==> !Unexpired(g, now)
  {
  }

  lemma PutSameRooms(s: State, r: Ref, g: Grant)
    requires r in s.heap
    ensures SameRooms(s, Put(s, r, g))
  {
  }

  lemma ClearedGrantsOK(g: Grant, room: Room, now: int, terminal: GrantState)
    requires GrantOK(g, room)
    ensures Forgets(g, ClearedPending(g), room) && Forgets(g, ClearedRecent(g), room)
      && Forgets(g, ClearedBinding(g), room)
    ensures Forgets(g, ClearedRelay(g), room) && Forgets(g, ExpiredRelay(g, now), room)
    ensures terminal.Expired? || terminal.Revoked? ==> Forgets(g, Terminated(g, terminal), room)
    ensures !PendingAlive(g, now) ==> GrantEvolves(g, ClearedPending(g), now)
    ensures !RecentAlive(g, now) ==> GrantEvolves(g, ClearedRecent(g), now)
    ensures !Unexpired(g, now) ==> GrantEvolves(g, ClearedBinding(g), now)
    ensures GrantEvolves(g, ExpiredRelay(g, now), now)
    ensures (terminal.Expired? || terminal.Revoked?) && !Lives(g, now) ==>
      GrantEvolves(g, Terminated(g, terminal), now)
  {
    StepwiseGrantsOK(g, room, now);
    EndedGrantOK(g, room, now, terminal);
    hide ClearedPending, ClearedRecent, ClearedBinding, ClearedRelay, ExpiredRelay, Terminated, GrantOK, Forgets,
         GrantEvolves;
  }

  lemma StepwiseGrantsOK(g: Grant, room: Room, now: int)
    requires GrantOK(g, room)
    ensures Forgets(g, ClearedPending(g), room) && Forgets(g, ClearedRecent(g), room)
      && Forgets(g, ClearedBinding(g), room)
    ensures !PendingAlive(g, now) ==> GrantEvolves(g, ClearedPending(g), now)
    ensures !RecentAlive(g, now) ==> GrantEvolves(g, ClearedRecent(g), now)
    ensures !Unexpired(g, now) ==> GrantEvolves(g, ClearedBinding(g), now)
  {
  }

  lemma EndedGrantOK(g: Grant, room: Room, now: int, terminal: GrantState)
    requires GrantOK(g, room)
    ensures Forgets(g, ClearedRelay(g), room) && Forgets(g, ExpiredRelay(g, now), room)
      && GrantEvolves(g, ExpiredRelay(g, now), now)
    ensures terminal.Expired? || terminal.Revoked? ==> Forgets(g, Terminated(g, terminal), room)
    ensures (terminal.Expired? || terminal.Revoked?) && !Lives(g, now) ==>
      GrantEvolves(g, Terminated(g, terminal), now)
  {
    ExpiredGrantOK(g, room, now);
    TerminatedGrantOK(g, room, now, terminal);
    hide *;
  }

  lemma ExpiredGrantOK(g: Grant, room: Room, now: int)
    requires GrantOK(g, room)
    ensures Forgets(g, ExpiredRelay(g, now), room) && GrantEvolves(g, ExpiredRelay(g, now), now)
  {
  }

  lemma TerminatedGrantOK(g: Grant, room: Room, now: int, terminal: GrantState)
    requires GrantOK(g, room)
    ensures Forgets(g, ClearedRelay(g), room)
    ensures terminal.Expired? || terminal.Revoked? ==> Forgets(g, Terminated(g, terminal), room)
    ensures (terminal.Expired? || terminal.Revoked?) && !Lives(g, now) ==>
      GrantEvolves(g, Terminated(g, terminal), now)
  {
  }

  function ExpireRelay(s: State, r: Ref, now: int): State
    requires r in s.heap
  {
    Put(s, r, ExpiredRelay(s.heap[r], now))
  }

  lemma ExpireKeepsInv(s: State, limits: Limits, r: Ref, now: int)
    requires Inv(s, limits) && r in s.heap
    ensures Inv(ExpireRelay(s, r, now), limits) && SameRooms(s, ExpireRelay(s, r, now))
      && Evolves(s, ExpireRelay(s, r, now), now)
  {
    hide Inv, Put, GrantOK, Forgets, GrantEvolves, Evolves, SameRooms;
    GrantHolds(s, limits, r);
    ClearedGrantsOK(s.heap[r], s.rooms[s.heap[r].roomID], now, Expired);
    ForgetKeepsInv(s, limits, r, ExpiredRelay(s.heap[r], now), now);
  }

  function TerminateGrant(s: State, r: Ref, terminal: GrantState): State
    requires r in s.heap
  {
    Put(s, r, Terminated(s.heap[r], terminal))
  }

  lemma TerminateKeepsInv(s: State, limits: Limits, r: Ref, terminal: GrantState, now: int)
    requires Inv(s, limits) && r in s.heap && (terminal.Expired? || terminal.Revoked?)
    ensures var s' := TerminateGrant(s, r, terminal);
      && Inv(s', limits) && SameRooms(s, s') && SameIdentity(s.heap[r], s'.heap[r])
      && (now >= s.heap[r].monoDeadline ==> Evolves(s, s', now))
  {
    hide Inv, Put, GrantOK, Forgets, GrantEvolves, Evolves, SameRooms, Terminated;
    GrantHolds(s, limits, r);
    BindingEndsFirst(s.heap[r], s.rooms[s.heap[r].roomID], now);
    ClearedGrantsOK(s.heap[r], s.rooms[s.heap[r].roomID], now, terminal);
    ForgetKeepsInv(s, limits, r, Terminated(s.heap[r], terminal), now);
    TerminateFrame(s, r, terminal);
  }

  // ---------------------------------------------------------------- rooms

  function TerminateAll(s: State, refs: seq<Ref>, terminal: GrantState): State
    requires forall i | 0 <= i < |refs| :: refs[i] in s.heap
    decreases |refs|
  {
    if refs == [] then s
    else TerminateAll(TerminateGrant(s, refs[0], terminal), refs[1..], terminal)
  }

  /** All listed grants are dead afterwards, the others are untouched. */
  lemma {:induction false} TerminateAllTerminates(s: State, refs: seq<Ref>, terminal: GrantState)
    requires terminal.Expired? || terminal.Revoked?
    requires forall i | 0 <= i < |refs| :: refs[i] in s.heap
    ensures SameRooms(s, TerminateAll(s, refs, terminal))
    ensures forall q | q in s.heap && (q in refs || !Live(s.heap[q])) :: !Live(TerminateAll(s, refs, terminal).heap[q])
    ensures forall q | q in s.heap && q !in refs :: TerminateAll(s, refs, terminal).heap[q] == s.heap[q]
    ensures forall q | q in s.heap :: SameIdentity(s.heap[q], TerminateAll(s, refs, terminal).heap[q])
    decreases |refs|
  {
    if refs != [] {
      var s1 := TerminateGrant(s, refs[0], terminal);
      TerminateFrame(s, refs[0], terminal);
      hide TerminateGrant;
      TerminateAllTerminates(s1, refs[1..], terminal);
    }
  }

  lemma {:induction false} TerminateAllKeepsInv(s: State, limits: Limits, refs: seq<Ref>, terminal: GrantState,
      now: int)
    requires Inv(s, limits) && (terminal.Expired? || terminal.Revoked?)
    requires forall i | 0 <= i < |refs| :: refs[i] in s.heap
    ensures Inv(TerminateAll(s, refs, terminal), limits)
    ensures (forall i | 0 <= i < |refs| :: now >= s.heap[refs[i]].monoDeadline) ==>
      Evolves(s, TerminateAll(s, refs, terminal), now)
    decreases |refs|
  {
    hide Inv, Evolves, TerminateGrant;
    if refs == [] {
      EvolvesReflexive(s, now);
    } else {
      var s1 := TerminateGrant(s, refs[0], terminal);
      TerminateKeepsInv(s, limits, refs[0], terminal, now);
      TerminateFrame(s, refs[0], terminal);
      RefsBelowNext(s, limits);
      TerminateAllKeepsInv(s1, limits, refs[1..], terminal, now);
      if forall i | 0 <= i < |refs| :: now >= s.heap[refs[i]].monoDeadline {
        EvolvesTransitive(s, s1, TerminateAll(s, refs, terminal), now);
      }
    }
  }

  lemma TerminateFrame(s: State, r: Ref, terminal: GrantState)
    requires r in s.heap && (terminal.Expired? || terminal.Revoked?)
    ensures var s' := TerminateGrant(s, r, terminal);
      && SameRooms(s, s') && SameIdentity(s.heap[r], s'.heap[r]) && !Live(s'.heap[r])
      && (forall q | q in s.heap && q != r :: s'.heap[q] == s.heap[q])
  {
    TerminatedRecord(s.heap[r], terminal);
    hide Reindex, DropSession, LiveIDs, CandidateIDs, BindingIDs, Terminated;
    PutSameRooms(s, r, Terminated(s.heap[r], terminal));
  }

  lemma TerminatedRecord(g: Grant, terminal: GrantState)
    requires terminal.Expired? || terminal.Revoked?
    ensures SameIdentity(g, Terminated(g, terminal)) && !Live(Terminated(g, terminal))
  {
  }

  lemma RefsBelowNext(s: State, limits: Limits)
    requires Inv(s, limits)
    ensures forall r | r in s.heap :: r < s.nextRef
  {
  }

  function DropRoomLimiters(g: Gate, id: string): Gate {
    g.(buckets := g.buckets - {RoomIngressPackets(id), RoomIngressBytes(id), RoomFanoutWrites(id), RoomFanoutBytes(id)})
  }

  function TombstoneRecord(deadline: int): Room { Room(Tombstone, 0, 0, 0, 0, [], deadline) }

  ghost predicate AllDead(s: State, refs: seq<Ref>) {
    forall i | 0 <= i < |refs| :: refs[i] in s.heap && !Live(s.heap[refs[i]])
  }

  /** Overwrite the record of a room without live grants by a tombstone. */
  function Retire(s: State, limits: Limits, id: string, now: int): (s': State)
    requires id in s.rooms
  {
    s.(rooms := s.rooms[id := TombstoneRecord(SaturatingAdd(now, limits.tombstoneTTL))],
       heap := s.heap - (set r | r in s.rooms[id].grants),
       openRooms := if s.rooms[id].state.Open? then s.openRooms - 1 else s.openRooms,
       gate := DropRoomLimiters(s.gate, id))
  }

  lemma RetireIndex(index: map<Bytes, Ref>, heap: map<Ref, Grant>, keys: Grant -> set<Bytes>, refs: seq<Ref>)
    requires IndexExact(index, heap, keys)
    requires forall i | 0 <= i < |refs| :: refs[i] in heap && keys(heap[refs[i]]) == {}
    ensures IndexExact(index, heap - (set r | r in refs), keys)
  {
  }

  lemma RetireKeepsIndexes(s: State, limits: Limits, id: string, now: int)
    requires RoomsOK(s, limits) && GrantsOK(s) && IndexesOK(s) && id in s.rooms && AllDead(s, s.rooms[id].grants)
    ensures IndexesOK(Retire(s, limits, id, now))
  {
    var refs := s.rooms[id].grants;
    assert forall i | 0 <= i < |refs| :: refs[i] in s.heap && GrantOK(s.heap[refs[i]], s.rooms[id]);
    RetireIndex(s.grantsByID, s.heap, LiveIDs, refs);
    RetireIndex(s.candidatesByID, s.heap, CandidateIDs, refs);
    RetireIndex(s.bindingsByID, s.heap, BindingIDs, refs);
  }

  lemma RetireKeepsGrants(s: State, limits: Limits, id: string, now: int)
    requires RoomsOK(s, limits) && GrantsOK(s) && id in s.rooms && RoomsOK(Retire(s, limits, id, now), limits)
    ensures GrantsOK(Retire(s, limits, id, now))
  {
  }

  lemma RetireEvolves(s: State, limits: Limits, id: string, now: int, t: int)
    requires RoomsOK(s, limits) && GrantsOK(s) && id in s.rooms && AllDead(s, s.rooms[id].grants)
    requires !s.rooms[id].state.Tombstone?
    ensures Evolves(s, Retire(s, limits, id, now), t)
  {
    var s' := Retire(s, limits, id, now);
    assert s'.nextRef == s.nextRef && s'.heap == s.heap - (set r | r in s.rooms[id].grants);
    assert s'.rooms == s.rooms[id := s'.rooms[id]];
    hide Retire;
    DeadRoomEvolves(s, s', limits, id, t);
    DeadAreUnbound(s, limits, id, t);
    hide RoomsEvolve, RoomsOK, GrantsOK, AllDead, Lives, Unexpired;
    forall r | r in s.heap && r in s'.heap ensures GrantEvolves(s.heap[r], s'.heap[r], t) {
      GrantEvolvesReflexive(s.heap[r], t);
    }
    hide GrantEvolves;
  }

  lemma DeadAreUnbound(s: State, limits: Limits, id: string, now: int)
    requires RoomsOK(s, limits) && GrantsOK(s) && id in s.rooms && AllDead(s, s.rooms[id].grants)
    ensures forall r | r in s.rooms[id].grants :: r in s.heap && !Unexpired(s.heap[r], now) && !Lives(s.heap[r], now)
  {
    forall r | r in s.rooms[id].grants ensures r in s.heap && !Unexpired(s.heap[r], now) && !Lives(s.heap[r], now) {
      assert s.heap[r].roomID == id && GrantOK(s.heap[r], s.rooms[id]);
    }
  }

  lemma GrantEvolvesReflexive(g: Grant, now: int)
    ensures GrantEvolves(g, g, now)
  {
  }

  /** A room that nobody has a grant for, and whose name is not reserved, may change. */
  lemma DeadRoomEvolves(s: State, s': State, limits: Limits, id: string, now: int)
    requires RoomsOK(s, limits) && id in s.rooms && AllDead(s, s.rooms[id].grants) && !Reserved(s.rooms[id], now)
    requires forall q | q in s.rooms && q != id :: q in s'.rooms && s'.rooms[q] == s.rooms[q]
    ensures RoomsEvolve(s, s', now)
  {
    forall r | r in s.heap && Lives(s.heap[r], now) ensures KeptRoom(s, s', s.heap[r].roomID) {
      assert r in s.rooms[s.heap[r].roomID].grants;
    }
  }

  lemma RetireKeepsInv(s: State, limits: Limits, id: string, now: int)
    requires Inv(s, limits) && id in s.rooms && AllDead(s, s.rooms[id].grants)
    ensures Inv(Retire(s, limits, id, now), limits)
  {
    RetireKeepsRooms(s, limits, id, now);
    RetireKeepsGrants(s, limits, id, now);
    RetireKeepsIndexes(s, limits, id, now);
    RetireKeepsCounters(s, limits, id, now);
    RetireKeepsLimiters(s, limits, id, now);
    hide RoomsOK, GrantsOK, IndexesOK, CountersOK, LimitersOK, Retire;
  }

  lemma RetireKeepsRooms(s: State, limits: Limits, id: string, now: int)
    requires RoomsOK(s, limits) && id in s.rooms
    ensures RoomsOK(Retire(s, limits, id, now), limits)
  {
  }

  lemma RetireKeepsCounters(s: State, limits: Limits, id: string, now: int)
    requires CountersOK(s, limits) && id in s.rooms
    ensures CountersOK(Retire(s, limits, id, now), limits)
  {
    hide OpenRooms, DropRoomLimiters;
    RoomCloses(s.rooms, id, TombstoneRecord(SaturatingAdd(now, limits.tombstoneTTL)));
  }

  /** Replacing a room by one that is not open. */
  lemma RoomCloses(rooms: map<string, Room>, id: string, room: Room)
    requires id in rooms && !room.state.Open?
    ensures |rooms[id := room]| == |rooms|
    ensures |OpenRooms(rooms[id := room])| == |OpenRooms(rooms)| - (if rooms[id].state.Open? then 1 else 0)
  {
    var rooms' := rooms[id := room];
    assert OpenRooms(rooms') == OpenRooms(rooms) - {id};
    assert rooms'.Keys == rooms.Keys;
    assert |rooms'| == |rooms'.Keys| && |rooms| == |rooms.Keys|;
  }

  lemma DropRoomOK(g: Gate, limits: Limits, id: string)
    requires GateOK(g, limits)
    ensures GateOK(DropRoomLimiters(g, id), limits)
    ensures forall n :: n in DropRoomLimiters(g, id).buckets <==>
      (n in g.buckets && n != RoomIngressPackets(id) && n != RoomIngressBytes(id) && n != RoomFanoutWrites(id)
        && n != RoomFanoutBytes(id))
  {
  }

  lemma RetireKeepsLimiters(s: State, limits: Limits, id: string, now: int)
    requires LimitersOK(s, limits) && id in s.rooms && AllDead(s, s.rooms[id].grants)
    ensures LimitersOK(Retire(s, limits, id, now), limits)
  {
    hide GateOK, DropRoomLimiters, Needed, Retire, AllDead;
    var s' := Retire(s, limits, id, now);
    DropRoomOK(s.gate, limits, id);
    RetireGate(s, limits, id, now);
    forall n | !IsPreauth(n) ensures n in s'.gate.buckets <==> Needed(s', n) {
      assert n in s.gate.buckets <==> Needed(s, n);
      NeededAfterRetire(s, limits, id, now, n);
    }
  }

  lemma RetireGate(s: State, limits: Limits, id: string, now: int)
    requires id in s.rooms
    ensures Retire(s, limits, id, now).gate == DropRoomLimiters(s.gate, id)
  {
  }

  lemma NeededAfterRetire(s: State, limits: Limits, id: string, now: int, n: LimiterName)
    requires id in s.rooms && AllDead(s, s.rooms[id].grants)
    ensures Needed(Retire(s, limits, id, now), n) <==>
      && Needed(s, n) && n != RoomIngressPackets(id) && n != RoomIngressBytes(id) && n != RoomFanoutWrites(id)
         && n != RoomFanoutBytes(id)
  {
    hide DropRoomLimiters;
  }

  /** End a room: terminate its grants, then leave only a tombstone. */
  function TombstoneRoom(s: State, limits: Limits, id: string, now: int, terminal: GrantState): State
    requires id in s.rooms
    requires forall i | 0 <= i < |s.rooms[id].grants| :: s.rooms[id].grants[i] in s.heap
    requires terminal.Expired? || terminal.Revoked?
  {
    if s.rooms[id].state.Tombstone? then s
    else
      TerminateAllTerminates(s, s.rooms[id].grants, terminal);
      Retire(TerminateAll(s, s.rooms[id].grants, terminal), limits, id, now)
  }

  /** Ending a room keeps the invariant; ending one whose grants have expired loses nothing
      unexpired. */
  lemma TombstoneKeepsInv(s: State, limits: Limits, id: string, now: int, terminal: GrantState)
    requires Inv(s, limits) && id in s.rooms && (terminal.Expired? || terminal.Revoked?)
    ensures Inv(TombstoneRoom(s, limits, id, now, terminal), limits)
    ensures (forall i | 0 <= i < |s.rooms[id].grants| :: now >= s.heap[s.rooms[id].grants[i]].monoDeadline) ==>
      Evolves(s, TombstoneRoom(s, limits, id, now, terminal), now)
  {
    hide Inv, Evolves, TerminateAll, Retire, AllDead, RoomsOK;
    var refs := s.rooms[id].grants;
    GrantsResident(s, limits, id);
    if s.rooms[id].state.Tombstone? {
      EvolvesReflexive(s, now);
    } else {
      var s1 := TerminateAll(s, refs, terminal);
      RefsBelowNext(s, limits);
      TerminatedRoom(s, limits, id, terminal);
      TerminateAllKeepsInv(s, limits, refs, terminal, now);
      RetireDeadRoom(s1, limits, id, now);
      if forall i | 0 <= i < |refs| :: now >= s.heap[refs[i]].monoDeadline {
        EvolvesTransitive(s, s1, Retire(s1, limits, id, now), now);
      }
    }
  }

  lemma TerminatedRoom(s: State, limits: Limits, id: string, terminal: GrantState)
    requires Inv(s, limits) && id in s.rooms && (terminal.Expired? || terminal.Revoked?)
    ensures var s1 := TerminateAll(s, s.rooms[id].grants, terminal);
      s1.rooms == s.rooms && AllDead(s1, s1.rooms[id].grants)
  {
    hide Inv, TerminateAll;
    GrantsResident(s, limits, id);
    TerminateAllTerminates(s, s.rooms[id].grants, terminal);
  }

  lemma GrantsResident(s: State, limits: Limits, id: string)
    requires Inv(s, limits) && id in s.rooms
    ensures forall i | 0 <= i < |s.rooms[id].grants| ::
      s.rooms[id].grants[i] in s.heap && s.heap[s.rooms[id].grants[i]].roomID == id
  {
  }

  lemma RetireDeadRoom(s: State, limits: Limits, id: string, now: int)
    requires Inv(s, limits) && id in s.rooms && AllDead(s, s.rooms[id].grants) && !s.rooms[id].state.Tombstone?
    ensures Inv(Retire(s, limits, id, now), limits) && Evolves(s, Retire(s, limits, id, now), now)
  {
    RetireKeepsInv(s, limits, id, now);
    RetireEvolves(s, limits, id, now, now);
    hide Evolves, Retire;
  }

  /** Ending a room touches no other room and no grant of another room. */
  lemma TombstoneFrame(s: State, limits: Limits, id: string, now: int, terminal: GrantState)
    requires RoomsOK(s, limits) && id in s.rooms && (terminal.Expired? || terminal.Revoked?)
    ensures var s' := TombstoneRoom(s, limits, id, now, terminal);
      && s'.nextRef == s.nextRef && s'.drawn == s.drawn && s'.gate.sources == s.gate.sources
      && s'.rooms == s.rooms[id := s'.rooms[id]] && s'.rooms[id].state.Tombstone?
      && s'.rooms[id] == (if s.rooms[id].state.Tombstone? then s.rooms[id]
         else TombstoneRecord(SaturatingAdd(now, limits.tombstoneTTL)))
      && (forall r | r in s.heap && s.heap[r].roomID != id :: r in s'.heap && s'.heap[r] == s.heap[r])
      && (forall r | r in s'.heap :: r in s.heap && s.heap[r].roomID != id)
  {
    GrantsOfRoom(s, limits, id);
    hide RoomsOK;
    if !s.rooms[id].state.Tombstone? {
      TerminateAllTerminates(s, s.rooms[id].grants, terminal);
      RetireFrame(TerminateAll(s, s.rooms[id].grants, terminal), limits, id, now);
      hide TerminateAll, Retire;
    }
  }

  lemma RetireFrame(s: State, limits: Limits, id: string, now: int)
    requires id in s.rooms
    ensures var s' := Retire(s, limits, id, now);
      && s'.nextRef == s.nextRef && s'.drawn == s.drawn && s'.gate.sources == s.gate.sources
      && s'.rooms == s.rooms[id := s'.rooms[id]] && s'.rooms[id].state.Tombstone?
      && (forall r :: r in s'.heap <==> r in s.heap && r !in s.rooms[id].grants)
      && (forall r | r in s'.heap :: s'.heap[r] == s.heap[r])
  {
  }

  lemma GrantsOfRoom(s: State, limits: Limits, id: string)
    requires RoomsOK(s, limits) && id in s.rooms
    ensures forall r | r in s.heap :: r in s.rooms[id].grants <==> s.heap[r].roomID == id
    ensures s.rooms[id].state.Tombstone? ==> s.rooms[id].grants == []
    ensures forall i | 0 <= i < |s.rooms[id].grants| :: s.rooms[id].grants[i] in s.heap
  {
  }

  lemma RoomShape(s: State, limits: Limits, id: string)
    requires Inv(s, limits) && id in s.rooms
    ensures forall i, j | 0 <= i < j < |s.rooms[id].grants| :: s.rooms[id].grants[i] != s.rooms[id].grants[j]
    ensures |s.rooms[id].grants| == s.rooms[id].capacity
    ensures !s.rooms[id].state.Tombstone? ==> 0 < s.rooms[id].capacity <= limits.maxRoomCapacity
  {
  }
}
