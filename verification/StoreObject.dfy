/** The store as an object that its methods update in place, in the order of the program's
    own assignments. Every method is proved against the operation on values. */
module StoreObject {
  import opened Prelude
  import opened RateLimit
  import opened Admission
  import opened Identifier
  import opened Definitions
  import opened Transcript
  import opened StoreModel
  import opened StoreDeletion
  import opened StoreAdmission
  import opened StoreInvariant
  import opened StoreRooms
  import opened StoreCreation
  import opened StoreRuns
  import opened StoreSweep
  import ReplayWindow

  // ---------------------------------------------------------------- replacing records in place

  lemma ReindexShrinks(index: map<Bytes, Ref>, before: set<Bytes>, after: set<Bytes>, r: Ref)
    requires after <= before && forall c | c in after :: c in index && index[c] == r
    ensures Reindex(index, before, after, r) == index - (before - after)
  {
  }

  lemma DeadSession(s: State, limits: Limits, r: Ref)
    requires LimitersOK(s, limits) && r in s.heap && !Live(s.heap[r])
    ensures DropSession(s.gate, r) == s.gate
  {
    assert !Needed(s, SessionPackets(r)) && !Needed(s, SessionBytes(r));
    assert s.gate.buckets - {SessionPackets(r), SessionBytes(r)} == s.gate.buckets;
  }

  /** The index entries of one grant. */
  lemma OwnEntries(s: State, limits: Limits, r: Ref)
    requires Inv(s, limits) && r in s.heap
    ensures forall c | c in LiveIDs(s.heap[r]) :: c in s.grantsByID && s.grantsByID[c] == r
    ensures forall c | c in CandidateIDs(s.heap[r]) :: c in s.candidatesByID && s.candidatesByID[c] == r
    ensures forall c | c in BindingIDs(s.heap[r]) :: c in s.bindingsByID && s.bindingsByID[c] == r
    ensures !Live(s.heap[r]) ==> DropSession(s.gate, r) == s.gate
  {
    hide Inv, LimitersOK, IndexExact, LiveIDs, CandidateIDs, BindingIDs, DropSession;
    IndexesHold(s, limits);
    LimitersHold(s, limits);
    OwnKeys(s.grantsByID, s.heap, LiveIDs, r, s.heap[r]);
    OwnKeys(s.candidatesByID, s.heap, CandidateIDs, r, s.heap[r]);
    OwnKeys(s.bindingsByID, s.heap, BindingIDs, r, s.heap[r]);
    if !Live(s.heap[r]) { DeadSession(s, limits, r); }
  }

  /** Forgetting handshakes of a grant only deletes index entries. */
  lemma PutForgets(s: State, limits: Limits, r: Ref, g: Grant)
    requires Inv(s, limits) && r in s.heap && Forgets(s.heap[r], g, s.rooms[s.heap[r].roomID])
      && (Live(g) <==> Live(s.heap[r]))
    ensures Put(s, r, g) == s.(
      heap := s.heap[r := g],
      candidatesByID := s.candidatesByID - (CandidateIDs(s.heap[r]) - CandidateIDs(g)),
      bindingsByID := s.bindingsByID - (BindingIDs(s.heap[r]) - BindingIDs(g)))
  {
    hide Inv, GrantOK, DropSession, Reindex, CandidateIDs, BindingIDs;
    OwnEntries(s, limits, r);
    ReindexShrinks(s.grantsByID, LiveIDs(s.heap[r]), LiveIDs(g), r);
    ReindexShrinks(s.candidatesByID, CandidateIDs(s.heap[r]), CandidateIDs(g), r);
    ReindexShrinks(s.bindingsByID, BindingIDs(s.heap[r]), BindingIDs(g), r);
    assert s.grantsByID - (LiveIDs(s.heap[r]) - LiveIDs(g)) == s.grantsByID;
  }

  lemma ReindexTwice(index: map<Bytes, Ref>, before: set<Bytes>, mid: set<Bytes>, after: set<Bytes>, r: Ref)
    requires mid <= before
    ensures Reindex(Reindex(index, before, mid, r), mid, after, r) == Reindex(index, before, after, r)
  {
  }

  /** Two replacements of one record amount to the last. */
  lemma PutTwice(s: State, r: Ref, g: Grant, g': Grant)
    requires r in s.heap && CandidateIDs(g) <= CandidateIDs(s.heap[r]) && BindingIDs(g) <= BindingIDs(s.heap[r])
    requires LiveIDs(g) <= LiveIDs(s.heap[r]) && (Live(g') ==> Live(g))
    ensures Put(Put(s, r, g), r, g') == Put(s, r, g')
  {
    ReindexTwice(s.grantsByID, LiveIDs(s.heap[r]), LiveIDs(g), LiveIDs(g'), r);
    ReindexTwice(s.candidatesByID, CandidateIDs(s.heap[r]), CandidateIDs(g), CandidateIDs(g'), r);
    ReindexTwice(s.bindingsByID, BindingIDs(s.heap[r]), BindingIDs(g), BindingIDs(g'), r);
    hide Reindex, CandidateIDs, BindingIDs, LiveIDs;
    assert s.heap[r := g][r := g'] == s.heap[r := g'];
    if !Live(g) {
      assert DropSession(DropSession(s.gate, r), r).buckets == DropSession(s.gate, r).buckets;
    }
  }

  lemma PutSame(s: State, limits: Limits, r: Ref)
    requires Inv(s, limits) && r in s.heap
    ensures Put(s, r, s.heap[r]) == s
  {
    SameForgets(s, limits, r);
    hide Inv, Put, Forgets, CandidateIDs, BindingIDs;
    PutForgets(s, limits, r, s.heap[r]);
    SameEntry(s.heap, r);
    RemoveNothing(s.candidatesByID, CandidateIDs(s.heap[r]));
    RemoveNothing(s.bindingsByID, BindingIDs(s.heap[r]));
  }

  lemma SameEntry<K, V>(m: map<K, V>, k: K)
    requires k in m
    ensures m[k := m[k]] == m
  {
  }

  lemma RemoveNothing<K, V>(m: map<K, V>, a: set<K>)
    ensures m - (a - a) == m
  {
  }

  lemma SameForgets(s: State, limits: Limits, r: Ref)
    requires Inv(s, limits) && r in s.heap
    ensures Forgets(s.heap[r], s.heap[r], s.rooms[s.heap[r].roomID])
  {
    GrantHolds(s, limits, r);
  }

  /** What the three ways of clearing part of a handshake delete. */
  lemma ClearedIs(s: State, limits: Limits, r: Ref, g: Grant)
    requires Inv(s, limits) && r in s.heap
    requires g == ClearedPending(s.heap[r]) || g == ClearedRecent(s.heap[r]) || g == ClearedBinding(s.heap[r])
    ensures Inv(Put(s, r, g), limits) && SameRooms(s, Put(s, r, g)) && (Live(g) <==> Live(s.heap[r]))
    ensures Put(s, r, g) == s.(
      heap := s.heap[r := g],
      candidatesByID := s.candidatesByID - (CandidateIDs(s.heap[r]) - CandidateIDs(g)),
      bindingsByID := s.bindingsByID - (BindingIDs(s.heap[r]) - BindingIDs(g)))
  {
    hide Inv, Put, GrantOK, Forgets, GrantEvolves, Evolves, SameRooms, ClearedRelay, ExpiredRelay, Terminated,
         CandidateIDs, BindingIDs;
    GrantHolds(s, limits, r);
    ClearedGrantsOK(s.heap[r], s.rooms[s.heap[r].roomID], 0, Expired);
    ForgetKeepsInv(s, limits, r, g, 0);
    PutForgets(s, limits, r, g);
  }

  lemma DistinctHandshakes(s: State, limits: Limits, r: Ref)
    requires Inv(s, limits) && r in s.heap && s.heap[r].pending.Some? && s.heap[r].recent.Some?
    ensures s.heap[r].pending.value.candidateID != s.heap[r].recent.value.candidateID
  {
    GrantHolds(s, limits, r);
  }

  lemma PendingIDs(g: Grant)
    requires g.pending.Some? && (g.recent.Some? ==> g.pending.value.candidateID != g.recent.value.candidateID)
    ensures CandidateIDs(g) - CandidateIDs(ClearedPending(g)) == {g.pending.value.candidateID}
    ensures BindingIDs(ClearedPending(g)) == BindingIDs(g)
  {
  }

  lemma RecentIDs(g: Grant)
    requires g.recent.Some? && (g.pending.Some? ==> g.pending.value.candidateID != g.recent.value.candidateID)
    ensures CandidateIDs(g) - CandidateIDs(ClearedRecent(g)) == {g.recent.value.candidateID}
    ensures BindingIDs(ClearedRecent(g)) == BindingIDs(g)
  {
  }

  lemma PendingCleared(s: State, limits: Limits, r: Ref)
    requires Inv(s, limits) && r in s.heap
    ensures var g := ClearedPending(s.heap[r]);
      && Inv(Put(s, r, g), limits)
      && (s.heap[r].pending.None? ==> Put(s, r, g) == s)
      && (s.heap[r].pending.Some? ==>
            Put(s, r, g) == s.(heap := s.heap[r := g],
              candidatesByID := s.candidatesByID - {s.heap[r].pending.value.candidateID}))
  {
    hide Inv, Put, SameRooms, CandidateIDs, BindingIDs;
    var g := ClearedPending(s.heap[r]);
    ClearedIs(s, limits, r, g);
    if s.heap[r].pending.None? {
      PutSame(s, limits, r);
    } else {
      if s.heap[r].recent.Some? { DistinctHandshakes(s, limits, r); }
      PendingIDs(s.heap[r]);
      RemoveNothing(s.bindingsByID, BindingIDs(s.heap[r]));
    }
  }

  lemma RecentCleared(s: State, limits: Limits, r: Ref)
    requires Inv(s, limits) && r in s.heap
    ensures var g := ClearedRecent(s.heap[r]);
      && Inv(Put(s, r, g), limits)
      && (s.heap[r].recent.None? ==> Put(s, r, g) == s)
      && (s.heap[r].recent.Some? ==>
            Put(s, r, g) == s.(heap := s.heap[r := g],
              candidatesByID := s.candidatesByID - {s.heap[r].recent.value.candidateID}))
  {
    hide Inv, Put, SameRooms, CandidateIDs, BindingIDs;
    var g := ClearedRecent(s.heap[r]);
    ClearedIs(s, limits, r, g);
    if s.heap[r].recent.None? {
      PutSame(s, limits, r);
    } else {
      if s.heap[r].pending.Some? { DistinctHandshakes(s, limits, r); }
      RecentIDs(s.heap[r]);
      RemoveNothing(s.bindingsByID, BindingIDs(s.heap[r]));
    }
  }

  /** Clearing a binding once its own handshake is gone. */
  lemma BindingCleared(s: State, limits: Limits, r: Ref)
    requires Inv(s, limits) && r in s.heap && s.heap[r].binding.Some?
    requires s.heap[r].recent.Some? ==> s.heap[r].recent.value.generation != s.heap[r].binding.value.generation
    ensures var g := ClearedBinding(s.heap[r]);
      && Inv(Put(s, r, g), limits)
      && Put(s, r, g) == s.(heap := s.heap[r := g], bindingsByID := s.bindingsByID - {s.heap[r].binding.value.id})
  {
    hide Inv, Put, SameRooms;
    var g := ClearedBinding(s.heap[r]);
    ClearedIs(s, limits, r, g);
    assert BindingIDs(s.heap[r]) - BindingIDs(g) == {s.heap[r].binding.value.id};
    RemoveNothing(s.candidatesByID, CandidateIDs(s.heap[r]));
  }

  lemma ClearedTwice(s: State, limits: Limits, r: Ref)
    requires Inv(s, limits) && r in s.heap
    ensures Put(Put(s, r, ClearedRecent(s.heap[r])), r, ClearedBinding(s.heap[r])) == Put(s, r,
      ClearedBinding(s.heap[r]))
    ensures ClearedBinding(s.heap[r]) == ClearedBinding(if s.heap[r].binding.Some? && s.heap[r].recent.Some?
      && s.heap[r].recent.value.generation == s.heap[r].binding.value.generation then ClearedRecent(s.heap[r])
         else s.heap[r])
  {
    hide Inv, Put;
    PutTwice(s, r, ClearedRecent(s.heap[r]), ClearedBinding(s.heap[r]));
  }

  lemma ClearedStepwise(g: Grant)
    ensures var g1 := ClearedPending(g);
      var g2 := ClearedRecent(g1);
      var g3 := ClearedBinding(g2);
      && CandidateIDs(g3) <= CandidateIDs(g2) <= CandidateIDs(g1) <= CandidateIDs(g)
         && BindingIDs(g3) <= BindingIDs(g2) <= BindingIDs(g1) <= BindingIDs(g)
      && LiveIDs(g3) == LiveIDs(g2) == LiveIDs(g1) == LiveIDs(g)
      && (Live(g3) <==> Live(g)) && (Live(g2) <==> Live(g)) && (Live(g1) <==> Live(g))
      && ClearedRelay(g) == g3.(generation := 0)
      && CandidateIDs(ClearedRelay(g)) == CandidateIDs(g3) && BindingIDs(ClearedRelay(g)) == BindingIDs(g3)
         && LiveIDs(ClearedRelay(g)) == LiveIDs(g3)
  {
  }

  /** The three steps of clearing the relay state of a grant, and the reset of its generation. */
  lemma ClearedChain(s: State, limits: Limits, r: Ref)
    requires Inv(s, limits) && r in s.heap
    ensures var g := s.heap[r];
      var g1 := ClearedPending(g);
      var g2 := ClearedRecent(g1);
      var g3 := ClearedBinding(g2);
      && Put(Put(Put(s, r, g1), r, g2), r, g3) == Put(s, r, g3)
      && Put(s, r, ClearedRelay(g)) == Put(s, r, g3).(heap := Put(s, r, g3).heap[r := g3.(generation := 0)])
      && Inv(Put(s, r, ClearedRelay(g)), limits)
  {
    hide Inv, Forgets, GrantEvolves, Evolves, GrantOK, SameRooms, Reindex, DropSession, ClearedPending, ClearedRecent,
         ClearedBinding,
         ClearedRelay, CandidateIDs, BindingIDs, LiveIDs;
    var g := s.heap[r];
    var g1 := ClearedPending(g);
    var g2 := ClearedRecent(g1);
    ClearedStepwise(g);
    GrantHolds(s, limits, r);
    ClearedGrantsOK(g, s.rooms[g.roomID], 0, Expired);
    ForgetKeepsInv(s, limits, r, ClearedRelay(g), 0);
    PutTwice(s, r, g1, g2);
    PutTwice(s, r, g2, ClearedBinding(g2));
  }

  lemma ExpiredChain(s: State, r: Ref, now: int)
    requires r in s.heap
    ensures var g := s.heap[r];
      var g1 := if g.pending.Some? && now >= g.pending.value.deadline then ClearedPending(g) else g;
      var g2 := if g1.recent.Some? && now >= g1.recent.value.deadline then ClearedRecent(g1) else g1;
      Put(Put(Put(s, r, g1), r, g2), r, ExpiredRelay(g, now)) == Put(s, r, ExpiredRelay(g, now))
  {
    hide Put;
    var g := s.heap[r];
    var g1 := if g.pending.Some? && now >= g.pending.value.deadline then ClearedPending(g) else g;
    var g2 := if g1.recent.Some? && now >= g1.recent.value.deadline then ClearedRecent(g1) else g1;
    PutTwice(s, r, g1, g2);
    PutTwice(s, r, g2, ExpiredRelay(g, now));
  }

  /** The identifier of a dead grant indexes nothing, so deleting it again does no harm. */
  lemma DeadIDUnindexed(s: State, limits: Limits, r: Ref)
    requires Inv(s, limits) && r in s.heap && !Live(s.heap[r])
    ensures s.heap[r].id !in s.grantsByID
  {
    if s.heap[r].id in s.grantsByID { GrantsIndexed(s, limits, s.heap[r].id); }
  }

  /** The end of a grant whose relay state is cleared. */
  function Finished(g: Grant, terminal: GrantState): Grant {
    var g2 := if Live(g) then g.(state := terminal, bindingState := if terminal.Revoked? then BindingRevoked
      else BindingExpired) else g;
    g2.(secret := None)
  }

  lemma FinishedIs(s: State, limits: Limits, r: Ref, terminal: GrantState)
    requires Inv(s, limits) && r in s.heap && (terminal.Expired? || terminal.Revoked?)
    requires var g := s.heap[r]; g.pending.None? && g.recent.None? && g.binding.None?
    ensures Put(s, r, Finished(s.heap[r], terminal)) == s.(
      heap := s.heap[r := Finished(s.heap[r], terminal)],
      grantsByID := s.grantsByID - {s.heap[r].id},
      activeSessions := if Live(s.heap[r]) then s.activeSessions - 1 else s.activeSessions,
      gate := DropSession(s.gate, r))
  {
    FinishedIDs(s.heap[r], terminal);
    LiveIDsRemoved(s, limits, r);
    hide *;
    PutDead(s, r, Finished(s.heap[r], terminal));
  }

  lemma LiveIDsRemoved(s: State, limits: Limits, r: Ref)
    requires Inv(s, limits) && r in s.heap
    ensures s.grantsByID - LiveIDs(s.heap[r]) == s.grantsByID - {s.heap[r].id}
    ensures |LiveIDs(s.heap[r])| == if Live(s.heap[r]) then 1 else 0
  {
    hide Inv;
    if !Live(s.heap[r]) { DeadIDUnindexed(s, limits, r); }
  }

  /** Replacing a record without relay state by a dead one. */
  lemma PutDead(s: State, r: Ref, g: Grant)
    requires r in s.heap && !Live(g) && LiveIDs(g) == {} && CandidateIDs(g) == {} && BindingIDs(g) == {}
    requires CandidateIDs(s.heap[r]) == {} && BindingIDs(s.heap[r]) == {}
    ensures Put(s, r, g) == s.(
      heap := s.heap[r := g], grantsByID := s.grantsByID - LiveIDs(s.heap[r]),
      activeSessions := s.activeSessions - |LiveIDs(s.heap[r])|, gate := DropSession(s.gate, r))
  {
    ReindexNone(s.grantsByID, LiveIDs(s.heap[r]), r);
    ReindexNone(s.candidatesByID, {}, r);
    ReindexNone(s.bindingsByID, {}, r);
    hide Reindex, DropSession, Live, LiveIDs, CandidateIDs, BindingIDs;
    assert s.candidatesByID - {} == s.candidatesByID && s.bindingsByID - {} == s.bindingsByID;
  }

  lemma ReindexNone(index: map<Bytes, Ref>, before: set<Bytes>, r: Ref)
    ensures Reindex(index, before, {}, r) == index - before
  {
  }

  lemma FinishedIDs(g: Grant, terminal: GrantState)
    requires g.pending.None? && g.recent.None? && g.binding.None? && (terminal.Expired? || terminal.Revoked?)
    ensures var f := Finished(g, terminal);
      && !Live(f) && LiveIDs(f) == {} && CandidateIDs(f) == {} == CandidateIDs(g)
         && BindingIDs(f) == {} == BindingIDs(g)
  {
  }

  lemma TerminatedChain(s: State, limits: Limits, r: Ref, terminal: GrantState)
    requires Inv(s, limits) && r in s.heap && (terminal.Expired? || terminal.Revoked?)
    ensures var g1 := ClearedRelay(s.heap[r]);
      && g1.pending.None? && g1.recent.None? && g1.binding.None?
      && Put(Put(s, r, g1), r, Finished(g1, terminal)) == TerminateGrant(s, r, terminal)
      && Inv(TerminateGrant(s, r, terminal), limits)
  {
    hide Inv, Put, Evolves, SameRooms, ClearedPending, ClearedRecent, ClearedBinding, ClearedRelay;
    TerminateKeepsInv(s, limits, r, terminal, 0);
    ClearedStepwise(s.heap[r]);
    ClearedLeaves(s.heap[r]);
    PutTwice(s, r, ClearedRelay(s.heap[r]), Finished(ClearedRelay(s.heap[r]), terminal));
  }

  lemma ClearedLeaves(g: Grant)
    ensures var g1 := ClearedRelay(g); g1.pending.None? && g1.recent.None? && g1.binding.None?
  {
  }

  lemma TerminateAllUnfolds(s: State, refs: seq<Ref>, terminal: GrantState)
    requires forall i | 0 <= i < |refs| :: refs[i] in s.heap
    ensures TerminateAll(s, refs, terminal) ==
      if refs == [] then s else (assert forall i | 0 <= i < |refs[1..]| :: refs[1..][i] == refs[i + 1];
        TerminateAll(TerminateGrant(s, refs[0], terminal), refs[1..], terminal))
  {
  }

  lemma TombstoneUnfolds(s: State, limits: Limits, id: string, now: int, terminal: GrantState)
    requires Inv(s, limits) && id in s.rooms && (terminal.Expired? || terminal.Revoked?)
    ensures RoomGrantsResident(s, id)
    ensures TerminateAll(s, s.rooms[id].grants, terminal).rooms == s.rooms
    ensures TombstoneRoom(s, limits, id, now, terminal) ==
      if s.rooms[id].state.Tombstone? then s else Retire(TerminateAll(s, s.rooms[id].grants, terminal), limits, id, now)
    ensures Inv(TombstoneRoom(s, limits, id, now, terminal), limits)
  {
    hide Inv, TerminateAll, Evolves, Retire;
    GrantsResident(s, limits, id);
    TombstoneKeepsInv(s, limits, id, now, terminal);
    TerminateAllTerminates(s, s.rooms[id].grants, terminal);
  }

  /** Adding a pending challenge adds one index entry. */
  lemma PendingAdded(s: State, limits: Limits, r: Ref, pending: StoreModel.Challenge)
    requires Inv(s, limits) && r in s.heap && s.heap[r].pending.None? && Live(s.heap[r])
    ensures Put(s, r, WithPending(s.heap[r], pending)) == s.(
      heap := s.heap[r := WithPending(s.heap[r], pending)],
      candidatesByID := s.candidatesByID[pending.candidateID := r])
  {
    hide Inv, IndexExact;
    var g, g' := s.heap[r], WithPending(s.heap[r], pending);
    OwnEntries(s, limits, r);
    assert CandidateIDs(g') == CandidateIDs(g) + {pending.candidateID};
    ReindexSame(s.grantsByID, LiveIDs(g), r);
    ReindexSame(s.bindingsByID, BindingIDs(g), r);
    ReindexAdds(s.candidatesByID, CandidateIDs(g), pending.candidateID, r);
    hide Reindex, CandidateIDs, BindingIDs, LiveIDs;
  }

  lemma ReindexSame(index: map<Bytes, Ref>, keys: set<Bytes>, r: Ref)
    requires forall c | c in keys :: c in index && index[c] == r
    ensures Reindex(index, keys, keys, r) == index
  {
  }

  lemma ReindexAdds(index: map<Bytes, Ref>, keys: set<Bytes>, key: Bytes, r: Ref)
    requires forall c | c in keys :: c in index && index[c] == r
    ensures Reindex(index, keys, keys + {key}, r) == index[key := r]
  {
  }

  lemma PutSameDrawn(s: State, r: Ref, g: Grant, drawn: nat)
    requires r in s.heap
    ensures Put(s.(drawn := drawn), r, g) == Put(s, r, g).(drawn := drawn)
  {
  }

  /** A new binding after everything the grant held was cleared. */
  lemma ReboundIs(s: State, limits: Limits, r: Ref, completed: Completed, binding: Binding)
    requires Inv(s, limits) && r in s.heap && Live(s.heap[r])
    ensures var g := s.heap[r];
      var g1 := ClearedPending(g);
      var g2 := ClearedRecent(g1);
      var g3 := ClearedBinding(g2);
      var s3 := Put(s, r, g3);
      Put(s, r, Rebound(g, completed, binding)) == s3.(
        heap := s3.heap[r := Rebound(g, completed, binding)],
        candidatesByID := s3.candidatesByID[completed.candidateID := r],
        bindingsByID := s3.bindingsByID[binding.id := r])
  {
    hide Inv, Put, Rebound;
    var g := s.heap[r];
    var g1 := ClearedPending(g);
    var g2 := ClearedRecent(g1);
    var g3 := ClearedBinding(g2);
    ClearedChain(s, limits, r);
    PutTwice(s, r, g3, Rebound(g, completed, binding));
    PutFrame(s, r, g3);
    LiveIsIndexed(s, r, g3);
    ReboundPut(Put(s, r, g3), limits, r, g, completed, binding);
  }

  lemma LiveIsIndexed(s: State, r: Ref, g: Grant)
    requires r in s.heap && Live(g)
    ensures g.id in Put(s, r, g).grantsByID && Put(s, r, g).grantsByID[g.id] == r
  {
  }

  /** What is left of a cleared record, after the assignments of a new binding. */
  lemma RecordRebound(g: Grant, completed: Completed, binding: Binding)
    ensures var g3 := ClearedBinding(ClearedRecent(ClearedPending(g)));
      g3.(generation := binding.generation, binding := Some(binding), recent := Some(completed), state := Bound,
        bindingState := Current)
        == Rebound(g, completed, binding)
  {
  }

  lemma ReboundPut(s: State, limits: Limits, r: Ref, g: Grant, completed: Completed, binding: Binding)
    requires r in s.heap && Live(g) && Live(s.heap[r]) && s.heap[r].id == g.id
    requires s.heap[r].pending.None? && s.heap[r].recent.None? && s.heap[r].binding.None?
    requires g.id in s.grantsByID && s.grantsByID[g.id] == r
    ensures Put(s, r, Rebound(g, completed, binding)) == s.(
      heap := s.heap[r := Rebound(g, completed, binding)],
      candidatesByID := s.candidatesByID[completed.candidateID := r],
      bindingsByID := s.bindingsByID[binding.id := r])
  {
    ReindexSame(s.grantsByID, {g.id}, r);
    ReindexAdds(s.candidatesByID, {}, completed.candidateID, r);
    ReindexAdds(s.bindingsByID, {}, binding.id, r);
    hide Reindex;
    assert {} + {completed.candidateID} == {completed.candidateID} && {} + {binding.id} == {binding.id};
  }

  /** Moving a replay window touches one record and no index. */
  lemma ReplayMoved(s: State, limits: Limits, r: Ref, window: ReplayWindow.Window)
    requires Inv(s, limits) && r in s.heap && s.heap[r].binding.Some?
    ensures Put(s, r, WithReplay(s.heap[r], window)) == s.(heap := s.heap[r := WithReplay(s.heap[r], window)])
  {
    hide Inv, Reindex;
    BoundIsLive(s, limits, r);
    OwnEntries(s, limits, r);
    ReindexSame(s.grantsByID, LiveIDs(s.heap[r]), r);
    ReindexSame(s.candidatesByID, CandidateIDs(s.heap[r]), r);
    ReindexSame(s.bindingsByID, BindingIDs(s.heap[r]), r);
  }

  lemma IngressInv(s: State, limits: Limits, hmac: Hmac, m: Packet, endpoint: Endpoint, authTag: Bytes, inputBytes: int,
      now: int)
    requires Inv(s, limits)
    ensures Inv(StoreAdmission.AdmitAuthenticated(s, limits, hmac, m, endpoint, authTag, inputBytes, now).0, limits)
  {
    hide *;
    IngressKeepsInv(s, limits, hmac, m, endpoint, authTag, inputBytes, now);
  }

  lemma PreauthFrame(s: State, limits: Limits, endpoint: Endpoint, inputBytes: int, now: int)
    requires Inv(s, limits)
    ensures var s' := ChargePreauth(s, limits, endpoint, inputBytes, now).0;
      Inv(s', limits) && s'.heap == s.heap && s'.rooms == s.rooms && s'.bindingsByID == s.bindingsByID
  {
    hide Inv, ChargePreauth, Evolves, SameElsewhere;
    ChargePreauthKeepsInv(s, limits, endpoint, inputBytes, now);
  }

  lemma RecipientsUnfold(s: State, refs: seq<Ref>, sender: Ref, now: int)
    requires Resident(s, refs)
    ensures Recipients(s, refs, sender, now) ==
      if refs == [] then (s, [])
      else
        assert forall i | 0 <= i < |refs[1..]| :: refs[1..][i] == refs[i + 1];
        if refs[0] == sender || !Live(s.heap[refs[0]]) then Recipients(s, refs[1..], sender, now)
        else if now >= s.heap[refs[0]].monoDeadline then
          Recipients(TerminateGrant(s, refs[0], Expired), refs[1..], sender, now)
        else
          var s1 := ExpireRelay(s, refs[0], now);
          var (s2, rest) := Recipients(s1, refs[1..], sender, now);
          (s2, if s1.heap[refs[0]].binding.Some? then [s1.heap[refs[0]].binding.value.endpoint] + rest else rest)
  {
  }

  lemma FanoutInv(s: State, limits: Limits, admitted: AdmittedClientData, outputBytes: int, now: int)
    requires Inv(s, limits) && limits.Valid()
    ensures Inv(StoreAdmission.AdmitFanout(s, limits, admitted, outputBytes, now).0, limits)
  {
    hide *;
    FanoutKeepsInv(s, limits, admitted, outputBytes, now);
  }

  lemma AuthorityFrame(s: State, limits: Limits, r: Ref, now: int)
    requires Inv(s, limits) && r in s.heap
    ensures var (s', reason) := LiveAuthority(s, limits, r, now); reason.None? ==> s' == s && Live(s.heap[r])
  {
    hide Inv, LiveAuthority, Evolves;
    LiveAuthorityKeepsInv(s, limits, r, now);
  }

  lemma NotOpenIsTerminal(s: State, id: string, now: int)
    requires id in s.rooms && Resident(s, s.rooms[id].grants) && !s.rooms[id].state.Open?
    ensures AccessTerminal(s, id, now)
  {
  }

  lemma SweepGrantsUnfold(s: State, refs: seq<Ref>, now: int)
    requires Resident(s, refs)
    ensures SweepGrants(s, refs, now) ==
      if refs == [] then s
      else
        assert forall i | 0 <= i < |refs[1..]| :: refs[1..][i] == refs[i + 1];
        SweepGrants(SweepGrant(s, refs[0], now), refs[1..], now)
  {
  }

  lemma ForgetOneMore(g: Gate, gone: set<SourceKey>, key: SourceKey)
    ensures Forget(ForgetAll(g, gone), key) == ForgetAll(g, gone + {key})
  {
    var g' := Forget(ForgetAll(g, gone), key);
    assert g'.sources == ForgetAll(g, gone + {key}).sources;
    assert g'.buckets == ForgetAll(g, gone + {key}).buckets;
  }

  /** The idle sources among those already visited. */
  ghost function IdleVisited(g: Gate, remaining: set<SourceKey>, now: int): set<SourceKey> {
    set key | key in g.sources && key !in remaining && Idle(g.sources[key], now)
  }

  lemma VisitSource(g: Gate, remaining: set<SourceKey>, key: SourceKey, now: int)
    requires key in remaining && remaining <= g.sources.Keys
    ensures IdleVisited(g, remaining - {key}, now) ==
      IdleVisited(g, remaining, now) + (if Idle(g.sources[key], now) then {key} else {})
    ensures var sources := ForgetAll(g, IdleVisited(g, remaining, now)).sources;
      key in sources && sources[key] == g.sources[key]
  {
  }

  lemma VisitBounds(g: Gate, now: int)
    ensures IdleVisited(g, g.sources.Keys, now) == {} && ForgetAll(g, {}) == g
    ensures IdleVisited(g, {}, now) == IdleSources(g, now)
  {
    assert ForgetAll(g, {}).buckets == g.buckets && ForgetAll(g, {}).sources == g.sources;
  }

  lemma SweepRoomsEmpty(s: State, limits: Limits, now: int)
    requires Inv(s, limits)
    ensures SweepRooms(s, limits, [], now) == s
  {
  }

  lemma {:induction false} SweepRoomsAppend(s: State, limits: Limits, order: seq<string>, id: string, now: int)
    requires Inv(s, limits) && id in SweepRooms(s, limits, order, now).rooms
    ensures Inv(SweepRooms(s, limits, order, now), limits) && RoomGrantsResident(SweepRooms(s, limits, order, now), id)
    ensures SweepRooms(s, limits, order + [id], now) == SweepRoom(SweepRooms(s, limits, order, now), limits, id, now)
    decreases |order|
  {
    hide Inv, SweepRoom, Evolves;
    if order == [] {
      RoomsResident(s, limits);
      SweepRoomKeepsInv(s, limits, id, now);
      assert (order + [id])[1..] == [];
    } else {
      assert (order + [id])[1..] == order[1..] + [id];
      RoomsResident(s, limits);
      if order[0] in s.rooms { SweepRoomKeepsInv(s, limits, order[0], now); }
      SweepRoomsAppend(if order[0] in s.rooms then SweepRoom(s, limits, order[0], now)
        else s, limits, order[1..], id, now);
    }
  }

  /** `whole` is what `front` continued by `rest` amounts to. */
  ghost predicate Continues(whole: (Option<seq<Credential>>, nat), front: seq<Credential>,
      rest: (Option<seq<Credential>>, nat)) {
    && whole.1 == rest.1 && (whole.0.Some? <==> rest.0.Some?)
    && (rest.0.Some? ==> whole.0.value == front + rest.0.value)
  }

  lemma DrawUnfold(random: Random, at: nat, taken: set<Bytes>, n: nat)
    ensures DrawCredentials(random, at, taken, n) ==
      if n == 0 then (Some([]), at)
      else
        var (id, next) := UniqueID(random, at, taken, ID_DRAWS);
        if id.None? then (None, next)
        else match random(next)
          case None => (None, next + 1)
          case Some(secret) =>
            var (rest, last) := DrawCredentials(random, next + 1, taken + {id.value}, n - 1);
            (if rest.Some? then Some([Credential(id.value, secret)] + rest.value) else None, last)
  {
  }

  lemma AddRoomResident(s: State, limits: Limits, id: string, d: Definition, credentials: seq<Credential>,
      reading: ClockReading)
    requires |credentials| == |d.participants| && DeadlinesFit(d, limits, reading)
    ensures var s' := AddRoom(s, limits, id, d, credentials, reading); RoomGrantsResident(s', id)
  {
    NewHeapMeans(id, d, credentials, s.nextRef, limits, reading);
    NewRefsRange(s.nextRef, |credentials|);
    hide NewHeap, NewRefs, NewGrant, NewLimiters, NewIndex;
  }

  lemma RefsAreBelow(s: State, limits: Limits)
    requires Inv(s, limits)
    ensures GrantsBelow(s)
  {
    RefsBelowNext(s, limits);
    hide Inv;
  }

  lemma BelowIgnoresRooms(s: State, s': State)
    requires GrantsBelow(s) && s'.heap == s.heap && s'.nextRef == s.nextRef
    ensures GrantsBelow(s')
  {
  }

  lemma RefusalChangesNothing(g: Gate, charges: seq<Charge<LimiterName>>, now: int)
    requires Known(g.buckets, charges)
    ensures !ChargeGate(g, charges, now).1 ==> ChargeGate(g, charges, now).0 == g
  {
  }

  /** Charging does not look at the source table. */
  lemma ChargeIgnoresSources(g: Gate, sources: map<SourceKey, int>, charges: seq<Charge<LimiterName>>, now: int)
    requires Known(g.buckets, charges)
    ensures ChargeGate(g, charges, now).0.sources == g.sources
    ensures ChargeGate(g.(sources := sources), charges, now) ==
      (ChargeGate(g, charges, now).0.(sources := sources), ChargeGate(g, charges, now).1)
  {
  }

  lemma BucketsConfigured(g: Gate, limits: Limits)
    requires GateOK(g, limits)
    ensures forall n | n in g.buckets :: g.buckets[n].Valid()
  {
  }

  lemma SourceChargesMean(g: Gate, limits: Limits, key: SourceKey, bytes: nat, now: int)
    requires GateOK(g, limits) && key !in g.sources && |g.sources| < HARD_MAX_SOURCES
    ensures Known(WithSource(g, limits, key, now).buckets, SourceCharges(key, bytes))
      && Distinct(SourceCharges(key, bytes))
  {
    WithSourceOK(g, limits, key, now);
  }

  lemma SourceAbsent(g: Gate, limits: Limits, key: SourceKey)
    requires GateOK(g, limits) && key !in g.sources
    ensures SourcePackets(key) !in g.buckets && SourceBytes(key) !in g.buckets
  {
  }

  lemma GateKnown(g: Gate, limits: Limits)
    requires GateOK(g, limits)
    ensures PreauthGlobalPackets in g.buckets && PreauthGlobalBytes in g.buckets
    ensures forall n | n in g.buckets :: g.buckets[n].Valid()
    ensures forall key | key in g.sources :: SourcePackets(key) in g.buckets && SourceBytes(key) in g.buckets
  {
  }

  /** A scan of `all` in the order `order` has `remaining` left to visit. */
  ghost predicate ToVisit(order: seq<string>, remaining: set<string>, all: set<string>) {
    && (set id | id in order) + remaining == all && (set id | id in order) !! remaining
    && |order| + |remaining| == |all|
  }

  lemma AllToVisit(all: set<string>)
    ensures ToVisit([], all, all)
  {
  }

  lemma OneVisited(order: seq<string>, remaining: set<string>, all: set<string>, id: string)
    requires ToVisit(order, remaining, all) && id in remaining
    ensures ToVisit(order + [id], remaining - {id}, all)
  {
    assert (set x | x in order + [id]) == (set x | x in order) + {id};
  }

  lemma AllVisited(order: seq<string>, all: set<string>)
    requires ToVisit(order, {}, all)
    ensures (set id | id in order) == all && |order| == |all|
  {
  }

  lemma OthersStay(s: State, limits: Limits, id: string, remaining: set<string>, now: int)
    requires Inv(s, limits) && RoomGrantsResident(s, id) && remaining <= s.rooms.Keys
    ensures remaining - {id} <= SweepRoom(s, limits, id, now).rooms.Keys
  {
    hide Inv, SweepRoom, RoomGrantsResident;
    forall q | q in remaining && q != id ensures q in SweepRoom(s, limits, id, now).rooms {
      SweepKeepsOthers(s, limits, id, q, now);
    }
  }

  /** The store behind its mutex: each method is one critical section. */
  class Store {
    const limits: Limits
    const hmac: Hmac
    const random: Random

    var rooms: map<string, Room>
    var heap: map<Ref, Grant>
    var grantsByID: map<Bytes, Ref>
    var candidatesByID: map<Bytes, Ref>
    var bindingsByID: map<Bytes, Ref>
    var openRooms: int
    var activeSessions: int
    var sources: map<SourceKey, int>
    var buckets: map<LimiterName, Bucket>
    var nextRef: Ref
    var drawn: nat

    function View(): State
      reads this
    {
      State(rooms, heap, grantsByID, candidatesByID, bindingsByID, openRooms, activeSessions, Gate(sources, buckets),
        nextRef, drawn)
    }

    ghost predicate Valid()
      reads this
    {
      limits.Valid() && Inv(View(), limits)
    }

    constructor (limits: Limits, hmac: Hmac, random: Random)
      requires limits.Valid()
      ensures Valid() && View() == Init(limits) && this.limits == limits && this.hmac == hmac && this.random == random
    {
      hide Inv;
      this.limits, this.hmac, this.random := limits, hmac, random;
      rooms, heap, grantsByID, candidatesByID, bindingsByID := map[], map[], map[], map[], map[];
      openRooms, activeSessions, nextRef, drawn := 0, 0, 0, 0;
      sources := map[];
      buckets := map[
        PreauthGlobalPackets := limits.New(PreauthGlobalPackets), PreauthGlobalBytes := limits.New(PreauthGlobalBytes),
        IngressGlobalPackets := limits.New(IngressGlobalPackets), IngressGlobalBytes := limits.New(IngressGlobalBytes),
        FanoutGlobalWrites := limits.New(FanoutGlobalWrites), FanoutGlobalBytes := limits.New(FanoutGlobalBytes)];
      InitOK(limits);
    }

    // -------------------------------------------------------------- charging

    /** Check every limiter, then take from every limiter. */
    method AllowAtomic(charges: seq<Charge<LimiterName>>, now: int) returns (ok: bool)
      requires Known(buckets, charges) && Distinct(charges)
      requires forall n | n in buckets :: buckets[n].Valid()
      modifies `buckets
      ensures (Gate(sources, buckets), ok) == ChargeGate(old(Gate(sources, buckets)), charges, now)
    {
      for i := 0 to |charges|
        invariant forall k | 0 <= k < i :: Affords(buckets[charges[k].limiter], charges[k].cost, now)
      {
        var charge := charges[i];
        if charge.cost > buckets[charge.limiter].burst || TokensAt(buckets[charge.limiter], now) < charge.cost * SCALE {
          return false;
        }
      }
      AtomicCharging(buckets, charges, now);
      for i := 0 to |charges|
        invariant Known(buckets, charges)
        invariant ChargeEach(buckets, charges[i..], now) == ChargeEach(old(buckets), charges, now)
      {
        assert charges[i..][0] == charges[i] && charges[i..][1..] == charges[i + 1..];
        var (bucket, taken) := AllowN(buckets[charges[i].limiter], now, charges[i].cost);
        assert taken; // the program would panic
        buckets := buckets[charges[i].limiter := bucket];
      }
      return true;
    }

    /** Charge one datagram to its source and the global pre-authentication limiters. */
    method AdmitPreauth(endpoint: Endpoint, inputBytes: int, now: int) returns (ok: bool)
      requires GateOK(Gate(sources, buckets), limits)
      modifies `sources, `buckets
      ensures (Gate(sources, buckets), ok) == Admission.AdmitPreauth(old(Gate(sources, buckets)), limits, endpoint,
        inputBytes, now)
    {
      hide ChargeGate, Refreshed, AdmitNew, AdmitKnown, GateOK;
      var source := SourceKeyOf(endpoint);
      if source.None? {
        return false;
      }
      var key := source.value;
      var bytes := if inputBytes < 0 then 0 else inputBytes;
      RefreshedOK(Gate(sources, buckets), limits, key, now);
      ForgetIdleSource(key, now);
      GateKnown(Gate(sources, buckets), limits);
      if key !in sources && |sources| >= HARD_MAX_SOURCES {
        var _ := AllowAtomic(GlobalCharges(bytes), now);
        return false;
      }
      if key !in sources {
        ok := AdmitNewSource(key, bytes, now);
        return;
      }
      ok := AdmitKnownSource(key, bytes, now);
    }

    /** A known source is observed whether or not it can pay. */
    method AdmitKnownSource(key: SourceKey, bytes: nat, now: int) returns (ok: bool)
      requires GateOK(Gate(sources, buckets), limits) && key in sources
      modifies `sources, `buckets
      ensures (Gate(sources, buckets), ok) == AdmitKnown(old(Gate(sources, buckets)), key, bytes, now)
    {
      BucketsConfigured(Gate(sources, buckets), limits);
      hide ChargeGate, GateOK;
      ChargeIgnoresSources(Gate(sources, buckets), sources[key := now], SourceCharges(key, bytes), now);
      sources := sources[key := now];
      ok := AllowAtomic(SourceCharges(key, bytes), now);
    }

    method ForgetIdleSource(key: SourceKey, now: int)
      modifies `sources, `buckets
      ensures Gate(sources, buckets) == Refreshed(old(Gate(sources, buckets)), key, now)
    {
      if key in sources && now >= SaturatingAdd(sources[key], SOURCE_IDLE_TTL) {
        sources := sources - {key};
        buckets := buckets - {SourcePackets(key), SourceBytes(key)};
      }
    }

    /** The limiters of a new source enter the table only once it has paid. */
    method AdmitNewSource(key: SourceKey, bytes: nat, now: int) returns (ok: bool)
      requires GateOK(Gate(sources, buckets), limits) && key !in sources && |sources| < HARD_MAX_SOURCES
      modifies `sources, `buckets
      ensures (Gate(sources, buckets), ok) == AdmitNew(old(Gate(sources, buckets)), limits, key, bytes, now)
    {
      hide GateOK, ChargeGate, SourceCharges, Configured;
      ghost var before := Gate(sources, buckets);
      SourceAbsent(before, limits, key);
      SourceChargesMean(before, limits, key, bytes, now);
      WithSourceOK(before, limits, key, now);
      GateKnown(WithSource(before, limits, key, now), limits);
      buckets := buckets[SourcePackets(key) := limits.New(SourcePackets(key))]
                        [SourceBytes(key) := limits.New(SourceBytes(key))];
      ghost var staged := buckets;
      ok := AllowAtomic(SourceCharges(key, bytes), now);
      RefusalChangesNothing(Gate(sources, staged), SourceCharges(key, bytes), now);
      ChargeIgnoresSources(Gate(sources, staged), sources[key := now], SourceCharges(key, bytes), now);
      if ok {
        sources := sources[key := now];
      } else {
        buckets := buckets - {SourcePackets(key), SourceBytes(key)};
        assert buckets == before.buckets;
      }
    }

    // -------------------------------------------------------------- forgetting

    method ClearPending(r: Ref)
      requires Valid() && r in heap
      modifies `heap, `candidatesByID
      ensures View() == Put(old(View()), r, ClearedPending(old(heap[r])))
      ensures Valid()
    {
      hide Inv, Put;
      PendingCleared(View(), limits, r);
      if heap[r].pending.None? {
        return;
      }
      candidatesByID := candidatesByID - {heap[r].pending.value.candidateID};
      heap := heap[r := heap[r].(pending := None)];
      if heap[r].binding.Some? {
        heap := heap[r := heap[r].(bindingState := Current)];
      }
    }

    method ClearRecent(r: Ref)
      requires Valid() && r in heap
      modifies `heap, `candidatesByID
      ensures View() == Put(old(View()), r, ClearedRecent(old(heap[r])))
      ensures Valid()
    {
      hide Inv, Put;
      RecentCleared(View(), limits, r);
      if heap[r].recent.None? {
        return;
      }
      candidatesByID := candidatesByID - {heap[r].recent.value.candidateID};
      heap := heap[r := heap[r].(recent := None)];
    }

    method ClearBinding(r: Ref)
      requires Valid() && r in heap
      modifies `heap, `candidatesByID, `bindingsByID
      ensures View() == Put(old(View()), r, ClearedBinding(old(heap[r])))
      ensures Valid()
    {
      hide Inv, Put, SameRooms;
      ghost var s, before := View(), heap[r];
      if heap[r].binding.None? {
        PutSame(s, limits, r);
        return;
      }
      var binding := heap[r].binding.value;
      if heap[r].recent.Some? && heap[r].recent.value.generation == binding.generation {
        ClearRecent(r);
        PutFrame(s, r, ClearedRecent(before));
      }
      ghost var s1 := View();
      ClearedTwice(s, limits, r);
      BindingCleared(s1, limits, r);
      bindingsByID := bindingsByID - {binding.id};
      heap := heap[r := heap[r].(binding := None)];
      if Live(heap[r]) {
        heap := heap[r := heap[r].(state := Issued, bindingState := BindingExpired)];
      }
    }

    /** Clear the pending handshake, the completed one and the binding, in this order. */
    method ClearAll(r: Ref)
      requires Valid() && r in heap
      modifies `heap, `candidatesByID, `bindingsByID
      ensures View() == Put(old(View()), r, ClearedBinding(ClearedRecent(ClearedPending(old(heap[r])))))
      ensures heap == old(heap)[r := ClearedBinding(ClearedRecent(ClearedPending(old(heap[r]))))]
      ensures Valid()
    {
      hide Inv, Put, ClearedPending, ClearedRecent, ClearedBinding, ClearedRelay;
      ghost var s, g := View(), heap[r];
      ClearedChain(s, limits, r);
      ClearPending(r);
      PutFrame(s, r, ClearedPending(g));
      ghost var s1 := View();
      ClearRecent(r);
      PutFrame(s1, r, ClearedRecent(ClearedPending(g)));
      ghost var s2 := View();
      ClearBinding(r);
      PutFrame(s2, r, ClearedBinding(ClearedRecent(ClearedPending(g))));
    }

    method ClearRelay(r: Ref)
      requires Valid() && r in heap
      modifies `heap, `candidatesByID, `bindingsByID
      ensures View() == Put(old(View()), r, ClearedRelay(old(heap[r])))
      ensures Valid()
    {
      hide Inv, Put, ClearedPending, ClearedRecent, ClearedBinding;
      ClearedChain(View(), limits, r);
      ClearAll(r);
      heap := heap[r := heap[r].(generation := 0)];
    }

    method ExpireRelay(r: Ref, now: int)
      requires Valid() && r in heap
      modifies `heap, `candidatesByID, `bindingsByID
      ensures View() == StoreDeletion.ExpireRelay(old(View()), r, now)
      ensures Valid()
    {
      hide Inv, Put, ClearedPending, ClearedRecent, ClearedBinding;
      ghost var s, g := View(), heap[r];
      PutSame(s, limits, r);
      if heap[r].pending.Some? && now >= heap[r].pending.value.deadline {
        ClearPending(r);
        PutFrame(s, r, ClearedPending(g));
      }
      ghost var s1, g1 := View(), heap[r];
      PutSame(s1, limits, r);
      if heap[r].recent.Some? && now >= heap[r].recent.value.deadline {
        ClearRecent(r);
        PutFrame(s1, r, ClearedRecent(g1));
      }
      ghost var s2, g2 := View(), heap[r];
      PutSame(s2, limits, r);
      if heap[r].binding.Some? && now >= heap[r].binding.value.deadline {
        ClearBinding(r);
        PutFrame(s2, r, ClearedBinding(g2));
      }
      assert View() == Put(Put(Put(s, r, g1), r, g2), r, heap[r]);
      ExpiredChain(s, r, now);
    }

    method TerminalGrant(r: Ref, terminal: GrantState)
      requires Valid() && r in heap && (terminal.Expired? || terminal.Revoked?)
      modifies `heap, `grantsByID, `candidatesByID, `bindingsByID, `activeSessions, `buckets
      ensures View() == TerminateGrant(old(View()), r, terminal)
      ensures Valid()
    {
      hide Inv, Put, TerminateGrant, ClearedRelay;
      ghost var s, g := View(), heap[r];
      TerminatedChain(s, limits, r, terminal);
      ClearRelay(r);
      PutFrame(s, r, ClearedRelay(g));
      FinishedIs(View(), limits, r, terminal);
      buckets := buckets - {SessionPackets(r), SessionBytes(r)};
      if Live(heap[r]) {
        activeSessions := activeSessions - 1;
        heap := heap[r := heap[r].(state := terminal, bindingState := if terminal.Revoked? then BindingRevoked
          else BindingExpired)];
      }
      grantsByID := grantsByID - {heap[r].id};
      heap := heap[r := heap[r].(secret := None)];
    }

    method TerminateGrants(refs: seq<Ref>, terminal: GrantState)
      requires Valid() && (terminal.Expired? || terminal.Revoked?)
      requires forall i | 0 <= i < |refs| :: refs[i] in heap
      modifies `heap, `grantsByID, `candidatesByID, `bindingsByID, `activeSessions, `buckets
      ensures View() == TerminateAll(old(View()), refs, terminal)
      ensures Valid()
    {
      hide Inv, TerminateAll, TerminateGrant;
      ghost var s := View();
      for i := 0 to |refs|
        invariant Valid() && Resident(View(), refs)
        invariant TerminateAll(View(), refs[i..], terminal) == TerminateAll(s, refs, terminal)
      {
        TerminateAllUnfolds(View(), refs[i..], terminal);
        TerminateFrame(View(), refs[i], terminal);
        assert refs[i..][1..] == refs[i + 1..];
        TerminalGrant(refs[i], terminal);
      }
      TerminateAllUnfolds(View(), [], terminal);
    }

    /** End a room: terminate its grants one by one, then overwrite its record. */
    method TombstoneRoom(id: string, now: int, terminal: GrantState)
      requires Valid() && id in rooms && (terminal.Expired? || terminal.Revoked?)
      modifies `rooms, `heap, `grantsByID, `candidatesByID, `bindingsByID, `openRooms, `activeSessions, `buckets
      ensures old(RoomGrantsResident(View(), id))
      ensures View() == StoreDeletion.TombstoneRoom(old(View()), limits, id, now, terminal)
      ensures Valid()
    {
      hide Inv, TerminateAll, StoreDeletion.TombstoneRoom;
      TombstoneUnfolds(View(), limits, id, now, terminal);
      if rooms[id].state.Tombstone? {
        return;
      }
      var refs := rooms[id].grants;
      TerminateGrants(refs, terminal);
      if rooms[id].state.Open? {
        openRooms := openRooms - 1;
      }
      heap := heap - (set r | r in refs);
      buckets := buckets - {RoomIngressPackets(id), RoomIngressBytes(id), RoomFanoutWrites(id), RoomFanoutBytes(id)};
      rooms := rooms[id := TombstoneRecord(SaturatingAdd(now, limits.tombstoneTTL))];
    }

    method LiveAuthority(r: Ref, now: int) returns (reason: Option<Reason>)
      requires Valid() && r in heap
      modifies `rooms, `heap, `grantsByID, `candidatesByID, `bindingsByID, `openRooms, `activeSessions, `buckets
      ensures (View(), reason) == StoreAdmission.LiveAuthority(old(View()), limits, r, now)
      ensures Valid()
    {
      hide Inv, StoreDeletion.TombstoneRoom, TerminateGrant, Evolves;
      LiveAuthorityKeepsInv(View(), limits, r, now);
      if heap[r].state.Revoked? {
        return Some(RejectRevoked);
      }
      if heap[r].state.Expired? {
        return Some(RejectExpired);
      }
      var id := heap[r].roomID;
      if id !in rooms || rooms[id].state.Tombstone? {
        return Some(RejectRevoked);
      }
      if now >= rooms[id].monoDeadline {
        TombstoneRoom(id, now, GrantState.Expired);
        return Some(RejectExpired);
      }
      if now >= heap[r].monoDeadline {
        TerminalGrant(r, GrantState.Expired);
        return Some(RejectExpired);
      }
      return None;
    }

    // -------------------------------------------------------------- random identifiers

    /** Up to nine reads for an identifier that is not taken. */
    method UniqueID(taken: set<Bytes>) returns (id: Option<Bytes>)
      modifies `drawn
      ensures (id, drawn) == StoreAdmission.UniqueID(random, old(drawn), taken, ID_DRAWS)
    {
      for tries := 0 to ID_DRAWS
        invariant StoreAdmission.UniqueID(random, drawn, taken, ID_DRAWS - tries) == StoreAdmission.UniqueID(random,
          old(drawn), taken, ID_DRAWS)
      {
        id := random(drawn);
        drawn := drawn + 1;
        if id.None? || id.value !in taken {
          return;
        }
      }
      return None;
    }

    // -------------------------------------------------------------- challenges

    method Preauth(endpoint: Endpoint, inputBytes: int, now: int) returns (ok: bool)
      requires Valid()
      modifies `sources, `buckets
      ensures (View(), ok) == ChargePreauth(old(View()), limits, endpoint, inputBytes, now)
      ensures Valid()
    {
      hide Inv, Admission.AdmitPreauth, Evolves, SameElsewhere, GateOK;
      ChargePreauthKeepsInv(View(), limits, endpoint, inputBytes, now);
      GateHolds(View(), limits);
      ok := AdmitPreauth(endpoint, inputBytes, now);
    }

    method IssueChallenge(r: Ref, request: ChallengeRequest,
        reading: ClockReading) returns (answer: Answer<ChallengeResult>)
      requires Valid() && r in heap && heap[r].roomID in rooms
      requires Live(heap[r]) && heap[r].pending.None? && request.endpoint.IsValid()
      modifies `heap, `candidatesByID, `drawn
      ensures (View(), answer) == StoreAdmission.IssueChallenge(old(View()), limits, random, r, request, reading)
    {
      hide Inv, Put, ProjectWireExpiryUnixMS, SaturatingAdd, Min;
      var candidateID := UniqueID(candidatesByID.Keys);
      if candidateID.None? {
        return Reject(RejectFatalRandom);
      }
      var serverNonce := random(drawn);
      drawn := drawn + 1;
      if serverNonce.None? {
        return Reject(RejectFatalRandom);
      }
      var deadline := SaturatingAdd(reading.mono, limits.challengeTTL);
      deadline := Min(Min(deadline, heap[r].monoDeadline), rooms[heap[r].roomID].monoDeadline);
      var result := ChallengeResult(candidateID.value, serverNonce.value, ProjectWireExpiryUnixMS(reading, deadline));
      var pending := StoreModel.Challenge(candidateID.value, request.clientNonce, serverNonce.value, request.endpoint,
        deadline, result);
      PendingAdded(old(View()), limits, r, pending);
      PutSameDrawn(old(View()), r, WithPending(heap[r], pending), drawn);
      heap := heap[r := heap[r].(pending := Some(pending))];
      candidatesByID := candidatesByID[candidateID.value := r];
      if heap[r].binding.Some? {
        heap := heap[r := heap[r].(bindingState := RebindPending)];
      }
      assert heap == old(heap)[r := WithPending(old(heap[r]), pending)];
      assert View() == Put(old(View()).(drawn := drawn), r, WithPending(old(heap[r]), pending));
      return Admit(result);
    }

    method BeginChallenge(request: ChallengeRequest, reading: ClockReading) returns (answer: Answer<ChallengeResult>)
      requires Valid()
      modifies this
      ensures (View(), answer) == StoreAdmission.BeginChallenge(old(View()), limits, random, request, reading)
      ensures Valid()
    {
      hide Inv, ChargePreauth, StoreAdmission.LiveAuthority, StoreDeletion.ExpireRelay, StoreAdmission.IssueChallenge,
           Evolves, Challenged, SameElsewhere;
      BeginChallengeKeepsInv(View(), limits, random, request, reading);
      ChargePreauthKeepsInv(View(), limits, request.endpoint, request.inputBytes, reading.mono);
      var now := reading.mono;
      var ok := Preauth(request.endpoint, request.inputBytes, now);
      if !ok {
        return Reject(RejectRateLimited);
      }
      if !request.endpoint.IsValid() {
        return Reject(RejectAuthFailed);
      }
      if request.grantID !in grantsByID {
        return Reject(RejectUnknownGrant);
      }
      var r := grantsByID[request.grantID];
      GrantsIndexed(View(), limits, request.grantID);
      LiveAuthorityKeepsInv(View(), limits, r, now);
      var reason := LiveAuthority(r, now);
      if reason.Some? {
        return Reject(reason.value);
      }
      if request.roomID != heap[r].roomID {
        return Reject(RejectWrongRoom);
      }
      if request.sessionID != heap[r].sessionID {
        return Reject(RejectAuthFailed);
      }
      ExpireKeepsLive(View(), r, now);
      ExpireFrame(View(), r, now);
      ExpireRelay(r, now);
      if heap[r].pending.Some? {
        var pending := heap[r].pending.value;
        if pending.endpoint != request.endpoint {
          return Reject(RejectWrongEndpoint);
        }
        if pending.clientNonce != request.clientNonce {
          return Reject(RejectAuthFailed);
        }
        return Admit(pending.result);
      }
      if heap[r].recent.Some? && heap[r].recent.value.clientNonce == request.clientNonce {
        return Reject(RejectAuthFailed);
      }
      answer := IssueChallenge(r, request, reading);
    }

    // -------------------------------------------------------------- authentication

    /** Repeat the result of a completed handshake. */
    method Recall(r: Ref, request: AuthenticateRequest, now: int) returns (answer: Answer<BoundResult>)
      requires Valid() && r in heap && heap[r].recent.Some? && heap[r].secret.Some?
      modifies `heap, `candidatesByID, `bindingsByID
      ensures (View(), answer) == StoreAdmission.Recall(old(View()), hmac, r, request, now)
    {
      hide Inv, Put, ClearedBinding, ClearedRecent, AuthTagOf;
      var recent := heap[r].recent.value;
      if now >= recent.deadline {
        if heap[r].binding.Some? && now >= heap[r].binding.value.deadline {
          ClearBinding(r);
        } else {
          ClearRecent(r);
        }
        return Reject(RejectExpired);
      }
      RecentMatchesBinding(View(), limits, r, now);
      if recent.endpoint != request.endpoint {
        return Reject(RejectWrongEndpoint);
      }
      if heap[r].binding.None? || heap[r].binding.value.generation != recent.generation
        || heap[r].binding.value.id != recent.result.bindingID {
        assert false; // the program forgets the handshake and reports it expired
      }
      if now >= heap[r].binding.value.deadline {
        assert false; // the program forgets the binding and reports it expired
      }
      var expected := AuthTagOf(hmac, heap[r], recent.candidateID, recent.clientNonce, recent.serverNonce);
      if expected != request.authTag {
        return Reject(RejectAuthFailed);
      }
      return Admit(recent.result);
    }

    /** Complete a pending handshake. */
    method Complete(r: Ref, endpoint: Endpoint, reading: ClockReading) returns (answer: Answer<BoundResult>)
      requires Valid() && r in heap && heap[r].pending.Some? && heap[r].secret.Some? && Live(heap[r])
        && heap[r].roomID in rooms
      modifies `heap, `candidatesByID, `bindingsByID, `drawn
      ensures (View(), answer) == StoreAdmission.Complete(old(View()), limits, hmac, random, r, endpoint, reading)
    {
      hide Inv, Put, ProjectWireExpiryUnixMS, SaturatingAdd, Min, Tag, BindingKeyOf, Rebound, ClearedPending,
           ClearedRecent, ClearedBinding;
      ghost var s := View();
      var pending := heap[r].pending.value;
      var bindingID := UniqueID(bindingsByID.Keys);
      if bindingID.None? {
        return Reject(RejectFatalRandom);
      }
      ghost var s1 := View();
      DrawnIrrelevant(s, limits, drawn, 0);
      var g := heap[r];
      var room := rooms[g.roomID];
      var key := BindingKeyOf(hmac, g, pending.candidateID, pending.clientNonce, pending.serverNonce);
      var deadline := Min(Min(SaturatingAdd(reading.mono, limits.bindingTTL), g.monoDeadline), room.monoDeadline);
      var expires := ProjectWireExpiryUnixMS(reading, deadline);
      var tag := Tag(hmac, key, BoundMessage(REVISION, g.roomID, g.sessionID, pending.candidateID, bindingID.value,
        expires));
      var result := BoundResult(bindingID.value, expires, tag);
      var completedDeadline := SaturatingAdd(reading.mono, limits.challengeTTL);
      completedDeadline := Min(Min(Min(completedDeadline, deadline), g.monoDeadline), room.monoDeadline);
      var generation := NextGeneration(g.generation);
      var completed := Completed(pending.candidateID, pending.clientNonce, pending.serverNonce, pending.endpoint,
                                 completedDeadline, generation, result);
      var binding := Binding(bindingID.value, key, endpoint, deadline, generation, ReplayWindow.EMPTY);
      Replace(r, completed, binding);
      return Admit(result);
    }

    /** The new binding takes the place of whatever the grant held. */
    method Replace(r: Ref, completed: Completed, binding: Binding)
      requires Valid() && r in heap && Live(heap[r])
      modifies `heap, `candidatesByID, `bindingsByID
      ensures View() == Put(old(View()), r, Rebound(old(heap[r]), completed, binding))
    {
      hide Inv, Put, ClearedPending, ClearedRecent, ClearedBinding, Rebound;
      ghost var s, g := View(), heap[r];
      ReboundIs(s, limits, r, completed, binding);
      RecordRebound(g, completed, binding);
      ClearAll(r);
      heap := heap[r := heap[r].(
        generation := binding.generation, binding := Some(binding), recent := Some(completed), state := Bound,
          bindingState := Current)];
      bindingsByID := bindingsByID[binding.id := r];
      candidatesByID := candidatesByID[completed.candidateID := r];
      assert heap == s.heap[r := Rebound(g, completed, binding)];
    }

    method CompletePending(r: Ref, request: AuthenticateRequest,
        reading: ClockReading) returns (answer: Answer<BoundResult>)
      requires Valid() && r in heap && heap[r].secret.Some? && Live(heap[r]) && heap[r].roomID in rooms
      modifies `heap, `candidatesByID, `bindingsByID, `drawn
      ensures (View(), answer) == StoreAdmission.CompletePending(old(View()), limits, hmac, random, r, request, reading)
    {
      hide Inv, Put, StoreAdmission.Complete, ClearedPending, AuthTagOf;
      if heap[r].pending.None? || heap[r].pending.value.candidateID != request.candidateID {
        return Reject(RejectAuthFailed);
      }
      var pending := heap[r].pending.value;
      if reading.mono >= pending.deadline {
        ClearPending(r);
        return Reject(RejectExpired);
      }
      if pending.endpoint != request.endpoint {
        return Reject(RejectWrongEndpoint);
      }
      var expected := AuthTagOf(hmac, heap[r], pending.candidateID, pending.clientNonce, pending.serverNonce);
      if expected != request.authTag {
        return Reject(RejectAuthFailed);
      }
      answer := Complete(r, request.endpoint, reading);
    }

    method Authenticate(request: AuthenticateRequest, reading: ClockReading) returns (answer: Answer<BoundResult>)
      requires Valid()
      modifies this
      ensures (View(), answer) == StoreAdmission.Authenticate(old(View()), limits, hmac, random, request, reading)
      ensures Valid()
    {
      hide Inv, ChargePreauth, StoreAdmission.LiveAuthority, StoreAdmission.Recall, StoreAdmission.CompletePending,
           Evolves, AuthenticatesAt, SameElsewhere, CandidateIDs;
      AuthenticateKeepsInv(View(), limits, hmac, random, request, reading);
      ChargePreauthKeepsInv(View(), limits, request.endpoint, request.inputBytes, reading.mono);
      var now := reading.mono;
      var ok := Preauth(request.endpoint, request.inputBytes, now);
      if !ok {
        return Reject(RejectRateLimited);
      }
      if !request.endpoint.IsValid() {
        return Reject(RejectAuthFailed);
      }
      if request.candidateID !in candidatesByID {
        return Reject(RejectAuthFailed);
      }
      var r := candidatesByID[request.candidateID];
      CandidateIndexed(View(), limits, request.candidateID);
      LiveAuthorityKeepsInv(View(), limits, r, now);
      GrantFacts(View(), limits, r);
      var reason := LiveAuthority(r, now);
      if reason.Some? {
        return Reject(reason.value);
      }
      if request.roomID != heap[r].roomID {
        return Reject(RejectWrongRoom);
      }
      if request.sessionID != heap[r].sessionID {
        return Reject(RejectAuthFailed);
      }
      if heap[r].recent.Some? && heap[r].recent.value.candidateID == request.candidateID {
        answer := Recall(r, request, now);
      } else {
        answer := CompletePending(r, request, reading);
      }
    }

    // -------------------------------------------------------------- authenticated ingress

    /** A datagram that is not of a current binding pays as a pre-authentication one. */
    method RejectPreauth(endpoint: Endpoint, inputBytes: int, now: int, reason: Reason) returns (result: Reason)
      requires Valid() && reason != RejectRateLimited
      modifies `sources, `buckets
      ensures View() == ChargePreauth(old(View()), limits, endpoint, inputBytes, now).0
      ensures result == if ChargePreauth(old(View()), limits, endpoint, inputBytes, now).1 then reason
        else RejectRateLimited
      ensures Valid()
    {
      hide Inv, ChargePreauth;
      var ok := Preauth(endpoint, inputBytes, now);
      return if ok then reason else RejectRateLimited;
    }

    method AdmitAuthenticated(m: Packet, endpoint: Endpoint, authTag: Bytes, inputBytes: int,
        now: int) returns (answer: Answer<Ref>)
      requires Valid()
      modifies this
      ensures (View(), answer) == StoreAdmission.AdmitAuthenticated(old(View()), limits, hmac, m, endpoint, authTag,
        inputBytes, now)
      ensures Valid()
    {
      hide Inv, ChargePreauth, StoreDeletion.TombstoneRoom, TerminateGrant, Put, ClearedBinding,
           StoreAdmission.AdmitBound,
           Tag;
      ghost var s := View();
      IngressInv(s, limits, hmac, m, endpoint, authTag, inputBytes, now);
      PreauthFrame(s, limits, endpoint, inputBytes, now);
      BindingsResident(s, limits);
      var reason: Reason;
      if m.sequence == 0 || inputBytes < 0 {
        reason := RejectPreauth(endpoint, inputBytes, now, RejectMalformed);
        return Reject(reason);
      }
      if m.bindingID !in bindingsByID {
        reason := RejectPreauth(endpoint, inputBytes, now, RejectNotBound);
        return Reject(reason);
      }
      var r := bindingsByID[m.bindingID];
      if heap[r].binding.None? || heap[r].binding.value.id != m.bindingID {
        reason := RejectPreauth(endpoint, inputBytes, now, RejectNotBound);
        return Reject(reason);
      }
      if heap[r].state.Revoked? {
        reason := RejectPreauth(endpoint, inputBytes, now, RejectRevoked);
        return Reject(reason);
      }
      if heap[r].state.Expired? {
        reason := RejectPreauth(endpoint, inputBytes, now, RejectExpired);
        return Reject(reason);
      }
      var id := heap[r].roomID;
      if id !in rooms || !rooms[id].state.Open? {
        reason := RejectPreauth(endpoint, inputBytes, now, RejectRevoked);
        return Reject(reason);
      }
      if now >= rooms[id].monoDeadline {
        reason := RejectPreauth(endpoint, inputBytes, now, RejectExpired);
        if reason == RejectExpired {
          TombstoneRoom(id, now, GrantState.Expired);
        }
        return Reject(reason);
      }
      if now >= heap[r].monoDeadline {
        reason := RejectPreauth(endpoint, inputBytes, now, RejectExpired);
        if reason == RejectExpired {
          TerminalGrant(r, GrantState.Expired);
        }
        return Reject(reason);
      }
      if m.room != heap[r].roomID {
        reason := RejectPreauth(endpoint, inputBytes, now, RejectWrongRoom);
        return Reject(reason);
      }
      if m.session != heap[r].sessionID {
        reason := RejectPreauth(endpoint, inputBytes, now, RejectAuthFailed);
        return Reject(reason);
      }
      if now >= heap[r].binding.value.deadline {
        reason := RejectPreauth(endpoint, inputBytes, now, RejectExpired);
        if reason == RejectExpired {
          ClearBinding(r);
        }
        return Reject(reason);
      }
      if !endpoint.IsValid() || heap[r].binding.value.endpoint != endpoint {
        reason := RejectPreauth(endpoint, inputBytes, now, RejectWrongEndpoint);
        return Reject(reason);
      }
      if Tag(hmac, heap[r].binding.value.key, m) != authTag {
        reason := RejectPreauth(endpoint, inputBytes, now, RejectAuthFailed);
        return Reject(reason);
      }
      answer := AdmitBound(r, m.sequence, inputBytes, now);
    }

    /** A packet of the current binding: its sequence is consumed, then it is charged. */
    method AdmitBound(r: Ref, sequence: nat, bytes: nat, now: int) returns (answer: Answer<Ref>)
      requires Valid() && r in heap && heap[r].binding.Some?
      modifies `heap, `buckets
      ensures Known(Put(old(View()), r, WithReplay(old(heap[r]),
                    ReplayWindow.Accept(old(heap[r]).binding.value.replay, sequence).0)).gate.buckets,
                    IngressCharges(r, old(heap[r]).roomID, bytes))
      ensures (View(), answer) == StoreAdmission.AdmitBound(old(View()), limits, r, sequence, bytes, now)
    {
      hide Inv, Put, ChargeGate, ReplayWindow.Accept;
      BoundLimitersKnown(View(), limits, r, sequence, bytes);
      var binding := heap[r].binding.value;
      var (window, isNew) := ReplayWindow.Accept(binding.replay, sequence);
      ReplayMoved(View(), limits, r, window);
      BoundIsLive(View(), limits, r);
      IngressKnown(View(), limits, r, bytes);
      BucketsValid(View(), limits);
      heap := heap[r := heap[r].(binding := Some(binding.(replay := window)))];
      var ok := AllowAtomic(IngressCharges(r, heap[r].roomID, bytes), now);
      if !ok {
        return Reject(RejectRateLimited);
      }
      if !isNew {
        return Reject(RejectReplay);
      }
      return Admit(r);
    }

    // -------------------------------------------------------------- fan-out

    /** Walk the grants of the sender's room and collect the endpoints that are bound. */
    method CollectRecipients(refs: seq<Ref>, sender: Ref, now: int) returns (recipients: seq<Endpoint>)
      requires Valid() && Resident(View(), refs)
      modifies `heap, `grantsByID, `candidatesByID, `bindingsByID, `activeSessions, `buckets
      ensures View() == Recipients(old(View()), refs, sender, now).0
      ensures recipients == Recipients(old(View()), refs, sender, now).1
      ensures Valid()
    {
      hide Inv, Recipients, StoreDeletion.ExpireRelay, TerminateGrant;
      recipients := [];
      ghost var s := View();
      assert refs[0..] == refs;
      for i := 0 to |refs|
        invariant Valid() && Resident(View(), refs)
        invariant Recipients(View(), refs[i..], sender, now).0 == Recipients(s, refs, sender, now).0
        invariant recipients + Recipients(View(), refs[i..], sender, now).1 == Recipients(s, refs, sender, now).1
      {
        assert refs[i..][1..] == refs[i + 1..];
        RecipientsUnfold(View(), refs[i..], sender, now);
        var recipient := refs[i];
        if recipient == sender || !Live(heap[recipient]) {
          continue;
        }
        if now >= heap[recipient].monoDeadline {
          TerminateFrame(View(), recipient, GrantState.Expired);
          TerminalGrant(recipient, GrantState.Expired);
          continue;
        }
        ExpireFrame(View(), recipient, now);
        ExpireRelay(recipient, now);
        if heap[recipient].binding.Some? {
          recipients := recipients + [heap[recipient].binding.value.endpoint];
        }
      }
      RecipientsUnfold(View(), [], sender, now);
    }

    method AdmitFanout(admitted: AdmittedClientData, outputBytes: int, now: int) returns (answer: Answer<RelayPlan>)
      requires Valid()
      modifies this
      ensures (View(), answer) == StoreAdmission.AdmitFanout(old(View()), limits, admitted, outputBytes, now)
      ensures Valid()
    {
      hide Inv, StoreAdmission.LiveAuthority, StoreAdmission.FanoutFrom, Put, ClearedBinding;
      ghost var s := View();
      FanoutInv(s, limits, admitted, outputBytes, now);
      if admitted.bindingID !in bindingsByID {
        return Reject(RejectNotBound);
      }
      var r := bindingsByID[admitted.bindingID];
      BindingIndexed(s, limits, admitted.bindingID);
      if heap[r].binding.value.id != admitted.bindingID
        || heap[r].binding.value.generation != admitted.bindingGeneration ||
         heap[r].roomID != admitted.roomID || heap[r].sessionID != admitted.sessionID
           || heap[r].participantID != admitted.senderParticipantID {
        return Reject(RejectNotBound);
      }
      AuthorityFrame(s, limits, r, now);
      var reason := LiveAuthority(r, now);
      if reason.Some? {
        return Reject(reason.value);
      }
      if heap[r].binding.None? || now >= heap[r].binding.value.deadline {
        ClearBinding(r);
        return Reject(RejectExpired);
      }
      if outputBytes < 0 || outputBytes > MAX_DATAGRAM_BYTES {
        return Reject(RejectOversized);
      }
      answer := FanoutFrom(r, admitted.sequence, outputBytes, now);
    }

    method FanoutFrom(r: Ref, sequence: nat, outputBytes: nat, now: int) returns (answer: Answer<RelayPlan>)
      requires Valid() && r in heap && Live(heap[r])
      modifies `heap, `grantsByID, `candidatesByID, `bindingsByID, `activeSessions, `buckets
      ensures (View(), answer) == StoreAdmission.FanoutFrom(old(View()), limits, r, sequence, outputBytes, now)
    {
      hide Inv, Recipients, ChargeGate, SameRooms, Evolves;
      ghost var s := View();
      GrantFacts(s, limits, r);
      GrantsResident(s, limits, heap[r].roomID);
      RecipientsKeepInv(s, limits, rooms[heap[r].roomID].grants, r, now);
      var id := heap[r].roomID;
      var sessionID, participantID := heap[r].sessionID, heap[r].participantID;
      var recipients := CollectRecipients(rooms[id].grants, r, now);
      var plan := RelayPlan(id, sessionID, participantID, sequence, recipients);
      if |recipients| == 0 {
        return Admit(plan);
      }
      if outputBytes > MAX_INT64 / |recipients| {
        return Reject(RejectOversized);
      }
      var plannedBytes := PlannedBytes(outputBytes, |recipients|);
      FanoutKnown(View(), limits, id, |recipients|, plannedBytes);
      BucketsValid(View(), limits);
      var ok := AllowAtomic(FanoutCharges(id, |recipients|, plannedBytes), now);
      if !ok {
        return Reject(RejectFanoutLimited);
      }
      return Admit(plan);
    }

    // -------------------------------------------------------------- rooms

    ghost predicate AllResident()
      reads this
    {
      forall id | id in rooms :: Resident(View(), rooms[id].grants)
    }

    method CanonicalDefinition(roomID: string, d: Definition) returns (result: Result<Definition, StoreError>)
      ensures result == Canonical(roomID, d, limits)
    {
      var validRoom := CheckID(roomID);
      if !validRoom || d.capacity == 0 || |d.participants| == 0 || d.capacity != |d.participants| {
        return Err(ErrInvalid);
      }
      if d.capacity > limits.maxRoomCapacity {
        return Err(ErrCapacity);
      }
      if d.expiresAt == 0 {
        return Err(ErrInvalid);
      }
      var participantIDs: set<string>, sessionIDs: set<string> := {}, {};
      for i := 0 to |d.participants|
        invariant ValidParticipants(d.participants[..i], d.expiresAt)
        invariant participantIDs == set k | 0 <= k < i :: d.participants[k].participantID
        invariant sessionIDs == set k | 0 <= k < i :: d.participants[k].sessionID
      {
        var p := d.participants[i];
        assert d.participants[..i + 1] == d.participants[..i] + [p];
        var validParticipant := CheckID(p.participantID);
        var validSession := CheckID(p.sessionID);
        if !validParticipant || !validSession || p.grantExpiresAt == 0 {
          assert !ValidParticipant(p, d.expiresAt);
          return Err(ErrInvalid);
        }
        if p.participantID in participantIDs || p.sessionID in sessionIDs {
          return Err(ErrInvalid);
        }
        participantIDs := participantIDs + {p.participantID};
        sessionIDs := sessionIDs + {p.sessionID};
        if p.grantExpiresAt > d.expiresAt {
          assert !ValidParticipant(p, d.expiresAt);
          return Err(ErrInvalid);
        }
      }
      assert d.participants[..|d.participants|] == d.participants;
      return Ok(d.(participants := Sort(d.participants)));
    }

    method LastGrantDeadline(refs: seq<Ref>) returns (deadline: int)
      requires Resident(View(), refs)
      ensures deadline == LastDeadline(View(), refs)
    {
      deadline := 0;
      for i := 0 to |refs|
        invariant Resident(View(), refs[..i]) && deadline == LastDeadline(View(), refs[..i])
      {
        assert refs[..i + 1][..i] == refs[..i];
        if i == 0 || heap[refs[i]].monoDeadline > deadline {
          deadline := heap[refs[i]].monoDeadline;
        }
      }
      assert refs[..|refs|] == refs;
    }

    method RoomAccessTerminal(id: string, now: int) returns (terminal: bool)
      requires id in rooms && Resident(View(), rooms[id].grants)
      ensures terminal == AccessTerminal(View(), id, now)
    {
      if !rooms[id].state.Open? || now >= rooms[id].monoDeadline {
        return true;
      }
      var deadline := LastGrantDeadline(rooms[id].grants);
      return now >= deadline;
    }

    method GetRoom(id: string, now: int) returns (result: Result<RoomSnapshot, StoreError>)
      requires Valid()
      ensures AllResident() && result == StoreRooms.GetRoom(View(), id, now)
    {
      hide Inv, AccessTerminal;
      RoomsResident(View(), limits);
      var valid := CheckID(id);
      if !valid {
        return Err(ErrInvalid);
      }
      if id !in rooms || !rooms[id].state.Open? {
        if id in rooms { NotOpenIsTerminal(View(), id, now); }
        return Err(ErrNotFound);
      }
      var terminal := RoomAccessTerminal(id, now);
      if terminal {
        return Err(ErrNotFound);
      }
      var room := rooms[id];
      var participants: seq<ParticipantSnapshot> := [];
      for i := 0 to |room.grants|
        invariant |participants| == i && forall k | 0 <= k < i ::
          participants[k] == ParticipantAt(heap[room.grants[k]], now)
      {
        participants := participants + [ParticipantAt(heap[room.grants[i]], now)];
      }
      assert participants == SnapshotAt(View(), id, now).participants;
      return Ok(RoomSnapshot(id, room.createdAt, room.expiresAt, room.capacity, participants));
    }

    method EndRoom(id: string, now: int) returns (ok: bool)
      requires Valid()
      modifies this
      ensures old(AllResident()) && (View(), ok) == StoreRooms.EndRoom(old(View()), limits, id, now)
      ensures Valid()
    {
      hide Inv, StoreDeletion.TombstoneRoom, Evolves, Ends;
      RoomsResident(View(), limits);
      EndRoomKeepsInv(View(), limits, id, now);
      var valid := CheckID(id);
      if !valid {
        return false;
      }
      if id !in rooms {
        return true;
      }
      if rooms[id].state.Tombstone? {
        if now >= rooms[id].tombstoneDeadline {
          rooms := rooms - {id};
        }
        return true;
      }
      TombstoneRoom(id, now, Revoked);
      return true;
    }

    // -------------------------------------------------------------- sweeping

    method SweepOneGrant(r: Ref, now: int)
      requires Valid() && r in heap
      modifies `heap, `grantsByID, `candidatesByID, `bindingsByID, `activeSessions, `buckets
      ensures View() == SweepGrant(old(View()), r, now)
      ensures Valid()
    {
      hide Inv, StoreDeletion.ExpireRelay, TerminateGrant;
      ExpireFrame(View(), r, now);
      ExpireRelay(r, now);
      if Live(heap[r]) && now >= heap[r].monoDeadline {
        TerminalGrant(r, GrantState.Expired);
      }
    }

    method SweepAllGrants(refs: seq<Ref>, now: int)
      requires Valid() && Resident(View(), refs)
      modifies `heap, `grantsByID, `candidatesByID, `bindingsByID, `activeSessions, `buckets
      ensures View() == SweepGrants(old(View()), refs, now)
      ensures Valid()
    {
      hide Inv, SweepGrant, SweepGrants, Swept;
      ghost var s := View();
      assert refs[0..] == refs;
      for i := 0 to |refs|
        invariant Valid() && Resident(View(), refs)
        invariant SweepGrants(View(), refs[i..], now) == SweepGrants(s, refs, now)
      {
        assert refs[i..][1..] == refs[i + 1..];
        SweepGrantsUnfold(View(), refs[i..], now);
        SweepGrantFrame(View(), refs[i], now);
        SweepOneGrant(refs[i], now);
      }
      SweepGrantsUnfold(View(), [], now);
    }

    method SweepOneRoom(id: string, now: int)
      requires Valid() && id in rooms
      modifies this
      ensures old(RoomGrantsResident(View(), id)) && View() == SweepRoom(old(View()), limits, id, now)
      ensures Valid()
    {
      hide Inv, SweepGrants, StoreDeletion.TombstoneRoom, LastDeadline, Evolves;
      ghost var s := View();
      RoomsResident(s, limits);
      SweepRoomKeepsInv(s, limits, id, now);
      if rooms[id].state.Tombstone? {
        if now >= rooms[id].tombstoneDeadline {
          rooms := rooms - {id};
        }
        return;
      }
      SweptRoomFacts(s, limits, id, now);
      SweepAllGrants(rooms[id].grants, now);
      if now >= rooms[id].monoDeadline {
        TombstoneRoom(id, now, GrantState.Expired);
        return;
      }
      var finalGrantDeadline := LastGrantDeadline(rooms[id].grants);
      if now < finalGrantDeadline {
        return;
      }
      LastDeadlineIsMax(View(), rooms[id].grants);
      MarkEmptyKeepsInv(View(), limits, id, now);
      if rooms[id].state.Open? {
        rooms := rooms[id := rooms[id].(state := Empty)];
        openRooms := openRooms - 1;
      }
      if now >= SaturatingAdd(finalGrantDeadline, limits.emptyGrace) {
        TombstoneRoom(id, now, GrantState.Expired);
      }
    }

    /** The sweep: every room once, in any order, then every source. */
    method Expire(now: int) returns (ghost order: seq<string>)
      requires Valid()
      modifies this
      ensures View() == StoreRooms.Expire(old(View()), limits, order, now)
      ensures Valid()
      ensures (set id | id in order) == old(rooms.Keys) && |order| == |old(rooms.Keys)|
    {
      hide Inv, SweepRooms, SweepSources, SweepRoom, Evolves, IdleSources;
      ghost var s := View();
      order := SweepAllRooms(now);
      ExpireStoreKeepsInv(s, limits, order, now);
      SweepAllSources(now);
    }

    method SweepAllRooms(now: int) returns (ghost order: seq<string>)
      requires Valid()
      modifies this
      ensures View() == SweepRooms(old(View()), limits, order, now)
      ensures Valid()
      ensures (set id | id in order) == old(rooms.Keys) && |order| == |old(rooms.Keys)|
    {
      hide Inv, SweepRooms, SweepRoom, Evolves, ToVisit;
      ghost var s := View();
      order := [];
      SweepRoomsEmpty(s, limits, now);
      var remaining := rooms.Keys;
      AllToVisit(remaining);
      while remaining != {}
        invariant Valid() && View() == SweepRooms(s, limits, order, now)
        invariant remaining <= rooms.Keys && ToVisit(order, remaining, s.rooms.Keys)
        decreases |remaining|
      {
        var id :| id in remaining;
        ghost var before := View();
        RoomsResident(before, limits);
        SweepRoomsAppend(s, limits, order, id, now);
        OthersStay(before, limits, id, remaining, now);
        OneVisited(order, remaining, s.rooms.Keys, id);
        SweepOneRoom(id, now);
        order := order + [id];
        remaining := remaining - {id};
      }
      AllVisited(order, s.rooms.Keys);
    }

    method SweepAllSources(now: int)
      modifies `sources, `buckets
      ensures Gate(sources, buckets) == SweepSources(old(Gate(sources, buckets)), now)
    {
      hide ForgetAll, IdleVisited, IdleSources;
      ghost var g := Gate(sources, buckets);
      var remaining := sources.Keys;
      VisitBounds(g, now);
      while remaining != {}
        invariant Gate(sources, buckets) == ForgetAll(g, IdleVisited(g, remaining, now)) && remaining <= g.sources.Keys
        decreases |remaining|
      {
        var key :| key in remaining;
        VisitSource(g, remaining, key, now);
        ForgetOneMore(g, IdleVisited(g, remaining, now), key);
        remaining := remaining - {key};
        if now >= SaturatingAdd(sources[key], SOURCE_IDLE_TTL) {
          sources := sources - {key};
          buckets := buckets - {SourcePackets(key), SourceBytes(key)};
        }
      }
    }

    // -------------------------------------------------------------- creating

    method DrawCredentials(n: nat) returns (credentials: Option<seq<Credential>>)
      modifies `drawn
      ensures (credentials, drawn) == StoreRooms.DrawCredentials(random, old(drawn), grantsByID.Keys, n)
    {
      hide StoreRooms.DrawCredentials, StoreAdmission.UniqueID;
      var drawnSoFar: seq<Credential> := [];
      var staged: set<Bytes> := {};
      ghost var whole := StoreRooms.DrawCredentials(random, drawn, grantsByID.Keys, n);
      assert grantsByID.Keys + staged == grantsByID.Keys;
      for i := 0 to n
        invariant Continues(whole, drawnSoFar,
          StoreRooms.DrawCredentials(random, drawn, grantsByID.Keys + staged, n - i))
      {
        DrawUnfold(random, drawn, grantsByID.Keys + staged, n - i);
        var grantID := UniqueID(grantsByID.Keys + staged);
        if grantID.None? {
          return None;
        }
        var secret := random(drawn);
        drawn := drawn + 1;
        if secret.None? {
          return None;
        }
        assert grantsByID.Keys + (staged + {grantID.value}) == grantsByID.Keys + staged + {grantID.value};
        drawnSoFar := drawnSoFar + [Credential(grantID.value, secret.value)];
        staged := staged + {grantID.value};
      }
      DrawUnfold(random, drawn, grantsByID.Keys + staged, 0);
      assert drawnSoFar + [] == drawnSoFar;
      return Some(drawnSoFar);
    }

    method GrantDeadlines(d: Definition, reading: ClockReading) returns (deadlines: Option<seq<int>>)
      ensures deadlines.Some? <==> forall i | 0 <= i < |d.participants| ::
        DeadlineWithin(d.participants[i].grantExpiresAt, reading, limits.maxGrantTTL).Some?
      ensures deadlines.Some? ==> |deadlines.value| == |d.participants|
      ensures deadlines.Some? ==> forall i | 0 <= i < |d.participants| ::
        DeadlineWithin(d.participants[i].grantExpiresAt, reading, limits.maxGrantTTL) == Some(deadlines.value[i])
    {
      var found: seq<int> := [];
      for i := 0 to |d.participants|
        invariant |found| == i
        invariant forall k | 0 <= k < i ::
          DeadlineWithin(d.participants[k].grantExpiresAt, reading, limits.maxGrantTTL) == Some(found[k])
      {
        var deadline := DeadlineWithin(d.participants[i].grantExpiresAt, reading, limits.maxGrantTTL);
        if deadline.None? {
          return None;
        }
        found := found + [deadline.value];
      }
      return Some(found);
    }

    /** The records of the new grants. */
    method NewRecords(id: string, d: Definition, credentials: seq<Credential>, deadlines: seq<int>,
        reading: ClockReading) returns (refs: seq<Ref>)
      requires |credentials| == |d.participants| == |deadlines| && DeadlinesFit(d, limits, reading)
        && GrantsBelow(View())
      requires forall i | 0 <= i < |d.participants| ::
        DeadlineWithin(d.participants[i].grantExpiresAt, reading, limits.maxGrantTTL) == Some(deadlines[i])
      modifies `heap, `nextRef
      ensures refs == NewRefs(old(nextRef), |credentials|) && nextRef == old(nextRef) + |credentials|
      ensures heap == old(heap) + NewHeap(id, d, credentials, old(nextRef), limits, reading)
    {
      hide DeadlineWithin, NewGrant, NewHeap, NewRefs;
      var base, n := nextRef, |credentials|;
      ghost var before := heap;
      NewHeapMeans(id, d, credentials, base, limits, reading);
      NewRefsRange(base, n);
      refs := [];
      for i := 0 to n
        invariant |refs| == i && forall k | 0 <= k < i :: refs[k] == base + k
        invariant forall r: Ref :: r in heap <==> r in before || base <= r < base + i
        invariant forall r | r in before :: heap[r] == before[r]
        invariant forall r: Ref | base <= r < base + i ::
          heap[r] == NewGrant(id, d.participants[r - base], credentials[r - base], deadlines[r - base])
      {
        heap := heap[base + i := NewGrant(id, d.participants[i], credentials[i], deadlines[i])];
        refs := refs + [base + i];
      }
      nextRef := base + n;
      assert heap == before + NewHeap(id, d, credentials, base, limits, reading);
    }

    /** The commit: nothing before it changed the store. */
    method AddRoom(id: string, d: Definition, credentials: seq<Credential>, roomDeadline: int, deadlines: seq<int>,
        reading: ClockReading)
      requires |credentials| == |d.participants| == |deadlines| && DeadlinesFit(d, limits, reading)
        && GrantsBelow(View())
      requires DeadlineWithin(d.expiresAt, reading, limits.maxRoomTTL) == Some(roomDeadline)
      requires forall i | 0 <= i < |d.participants| ::
        DeadlineWithin(d.participants[i].grantExpiresAt, reading, limits.maxGrantTTL) == Some(deadlines[i])
      modifies `rooms, `heap, `grantsByID, `openRooms, `activeSessions, `buckets, `nextRef
      ensures View() == StoreRooms.AddRoom(old(View()), limits, id, d, credentials, reading)
    {
      hide DeadlineWithin, DeadlinesFit, NewLimiters, SessionNames, RoomNames, NewGrant, NewHeap, NewRefs, GrantsBelow;
      var base := nextRef;
      var refs := NewRecords(id, d, credentials, deadlines, reading);
      rooms := rooms[id := Room(Open, d.capacity, reading.wall, d.expiresAt, roomDeadline, refs, 0)];
      buckets := buckets + NewLimiters(limits, SessionNames(refs) + RoomNames(id));
      IndexGrants(credentials, base);
      openRooms := openRooms + 1;
      activeSessions := activeSessions + |credentials|;
    }

    method IndexGrants(credentials: seq<Credential>, base: Ref)
      modifies `grantsByID
      ensures grantsByID == old(grantsByID) + NewIndex(credentials, base)
    {
      for i := 0 to |credentials|
        invariant grantsByID == old(grantsByID) + NewIndex(credentials[..i], base)
      {
        assert credentials[..i + 1][..i] == credentials[..i];
        grantsByID := grantsByID[credentials[i].id := base + i];
      }
      assert credentials[..|credentials|] == credentials;
    }

    method AllocateRoom(id: string, d: Definition, reading: ClockReading) returns (result: Result<(Allocation, bool),
        StoreError>)
      requires GrantsBelow(View())
      modifies this
      ensures (View(), result) == StoreRooms.AllocateRoom(old(View()), limits, random, id, d, reading)
    {
      hide DeadlineWithin, StoreRooms.DrawCredentials, StoreRooms.AddRoom, AllocationAt;
      var roomDeadline := DeadlineWithin(d.expiresAt, reading, limits.maxRoomTTL);
      if roomDeadline.None? {
        return Err(ErrInvalid);
      }
      var deadlines := GrantDeadlines(d, reading);
      if deadlines.None? {
        return Err(ErrInvalid);
      }
      if openRooms >= limits.maxOpenRooms || |rooms| >= limits.maxRoomRecords
        || activeSessions > limits.maxActiveSessions - |d.participants| {
        return Err(ErrCapacity);
      }
      CredentialsAreFree(random, drawn, grantsByID.Keys, |d.participants|);
      var credentials := DrawCredentials(|d.participants|);
      if credentials.None? {
        return Err(ErrFatalRandom);
      }
      AddRoomResident(View(), limits, id, d, credentials.value, reading);
      AddRoom(id, d, credentials.value, roomDeadline.value, deadlines.value, reading);
      return Ok((AllocationAt(View(), id, reading.mono), true));
    }

    method SameDefinitionAs(id: string, d: Definition) returns (same: bool)
      requires id in rooms && Resident(View(), rooms[id].grants)
      ensures same == SameDefinition(View(), id, d)
    {
      var room := rooms[id];
      if room.capacity != d.capacity || room.expiresAt != d.expiresAt || |room.grants| != |d.participants| {
        return false;
      }
      for i := 0 to |d.participants|
        invariant forall k | 0 <= k < i :: var g := heap[room.grants[k]];
          g.participantID == d.participants[k].participantID && g.sessionID == d.participants[k].sessionID
          && g.expiresAt == d.participants[k].grantExpiresAt
      {
        var g := heap[room.grants[i]];
        if g.participantID != d.participants[i].participantID || g.sessionID != d.participants[i].sessionID ||
           g.expiresAt != d.participants[i].grantExpiresAt {
          return false;
        }
      }
      return true;
    }

    /** The store stays valid exactly when a created room drew fresh grant identifiers. */
    method CreateRoom(id: string, d: Definition, reading: ClockReading) returns (result: Result<(Allocation, bool),
        StoreError>)
      requires Valid()
      modifies this
      ensures old(AllResident())
        && (View(), result) == StoreRooms.CreateRoom(old(View()), limits, random, id, d, reading)
      ensures Valid() <==> (result.Ok? && result.value.1 ==> DrawsFresh(old(View()), random, |d.participants|))
    {
      hide Inv, StoreRooms.AllocateRoom, Canonical, AllocationAt, AccessTerminal, SameDefinition, DrawsFresh, Evolves,
           GrantsBelow;
      ghost var s := View();
      RoomsResident(s, limits);
      CreateRoomKeepsInv(s, limits, random, id, d, reading);
      RefsAreBelow(s, limits);
      var canonical := CanonicalDefinition(id, d);
      if canonical.Err? {
        return Err(canonical.error);
      }
      if id in rooms {
        match rooms[id].state {
          case Tombstone =>
            if reading.mono < rooms[id].tombstoneDeadline {
              return Err(ErrConflict);
            }
            rooms := rooms - {id};
          case Empty =>
            return Err(ErrConflict);
          case Open =>
            var terminal := RoomAccessTerminal(id, reading.mono);
            var same := SameDefinitionAs(id, canonical.value);
            if terminal || !same {
              return Err(ErrConflict);
            }
            return Ok((AllocationAt(View(), id, reading.mono), false));
        }
      }
      BelowIgnoresRooms(s, View());
      result := AllocateRoom(id, canonical.value, reading);
    }
  }
}
