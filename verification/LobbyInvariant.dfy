/** Every lobby operation keeps the invariant of the manager, raises the revision of the lobby
    it changes by exactly one, and changes no other. */
module LobbyInvariant {
  import opened Prelude
  import opened Identifier
  import opened Lobbies
  import opened LobbyOps

  // ---------------------------------------------------------------- what does not depend on lobbies

  lemma TicketSideKept(s: State, s': State)
    requires TicketsOK(s) && QueuesOK(s) && NoOvertaking(s)
    requires s'.tickets == s.tickets && s'.queues == s.queues && s.nextSequence <= s'.nextSequence
    ensures TicketsOK(s') && QueuesOK(s') && NoOvertaking(s')
  {
  }

  lemma LobbyOKLater(l: Lobby, next: nat, next': nat)
    requires LobbyOK(l, next) && next <= next'
    ensures LobbyOK(l, next')
  {
  }

  /** The matches of every lobby are the same; lobbies that came or went had none. */
  ghost predicate SameMatches(s: State, s': State) {
    && s'.matchIDs == s.matchIDs && s'.tickets == s.tickets
    && (forall l | l in s.lobbies && l in s'.lobbies :: MatchesOf(s'.lobbies[l]) == MatchesOf(s.lobbies[l]))
    && (forall l | l in s.lobbies && l !in s'.lobbies :: MatchesOf(s.lobbies[l]) == {})
    && (forall l | l !in s.lobbies && l in s'.lobbies :: MatchesOf(s'.lobbies[l]) == {})
  }

  lemma MatchesKept(s: State, s': State)
    requires MatchesOK(s) && SameMatches(s, s')
    ensures MatchesOK(s')
  {
    hide MatchesOf, WholeGroup;
    forall m | m in s'.matchIDs ensures HeldByLobby(s', m) || HeldByTicket(s', m) {
      if HeldByLobby(s, m) {
        var l :| l in s.lobbies && m in MatchesOf(s.lobbies[l]);
        assert l in s'.lobbies;
      }
    }
  }

  // ---------------------------------------------------------------- changing one lobby

  lemma LobbiesLater(s: State, next: nat)
    requires LobbiesOK(s) && s.nextSequence <= next
    ensures forall l | l in s.lobbies :: LobbyOK(s.lobbies[l], next) && s.lobbies[l].sequence < s.nextSequence
  {
    forall l | l in s.lobbies ensures LobbyOK(s.lobbies[l], next) && s.lobbies[l].sequence < s.nextSequence {
      LobbyOKLater(s.lobbies[l], s.nextSequence, next);
    }
  }

  lemma UpdateSize<K, V>(m: map<K, V>, k: K, v: V)
    ensures |m[k := v]| == |m| + (if k in m then 0 else 1)
  {
    assert m[k := v].Keys == m.Keys + {k};
    assert |m[k := v]| == |m[k := v].Keys| && |m| == |m.Keys|;
  }

  /** One lobby is added or replaced. */
  lemma WithLobbyKeepsLobbies(s: State, s': State, lobbyID: string)
    requires LobbiesOK(s) && s.nextSequence <= s'.nextSequence
    requires lobbyID in s'.lobbies && s'.lobbies == s.lobbies[lobbyID := s'.lobbies[lobbyID]]
      && LobbyOK(s'.lobbies[lobbyID], s'.nextSequence)
    requires if lobbyID in s.lobbies then s'.lobbies[lobbyID].sequence == s.lobbies[lobbyID].sequence
             else |s.lobbies| < HARD_MAX_OPEN_LOBBIES && s'.lobbies[lobbyID].sequence == s.nextSequence
    ensures LobbiesOK(s')
  {
    hide LobbyOK;
    LobbiesLater(s, s'.nextSequence);
    UpdateSize(s.lobbies, lobbyID, s'.lobbies[lobbyID]);
  }

  function MembersAt(s: State, lobbyID: string): set<string> {
    if lobbyID in s.lobbies then s.lobbies[lobbyID].members.Keys else {}
  }

  /** Two states whose other lobbies have the same members. */
  ghost predicate OthersSame(s: State, s': State, lobbyID: string) {
    s'.tickets == s.tickets && forall l | l != lobbyID :: MembersAt(s', l) == MembersAt(s, l)
  }

  lemma OneLobby(s: State, s': State, lobbyID: string)
    requires s'.tickets == s.tickets && s'.lobbies - {lobbyID} == s.lobbies - {lobbyID}
    ensures OthersSame(s, s', lobbyID)
  {
    forall l | l != lobbyID ensures MembersAt(s', l) == MembersAt(s, l) {
      assert l in s.lobbies <==> l in s.lobbies - {lobbyID};
      assert l in s'.lobbies <==> l in s'.lobbies - {lobbyID};
      if l in s.lobbies { assert (s.lobbies - {lobbyID})[l] == (s'.lobbies - {lobbyID})[l]; }
    }
  }

  /** Ownership in terms of the members of each lobby. */
  lemma PlayersMean(s: State)
    ensures PlayersOK(s) <==>
      && (forall p | p in s.lobbyByPlayer :: p in MembersAt(s, s.lobbyByPlayer[p]))
      && (forall l, p | p in MembersAt(s, l) :: p in s.lobbyByPlayer && s.lobbyByPlayer[p] == l)
      && (forall p | p in s.tickets :: p !in s.lobbyByPlayer)
  {
    MembersMean(s);
    hide MembersAt;
  }

  lemma MembersMean(s: State)
    ensures forall l, p :: p in MembersAt(s, l) <==> l in s.lobbies && p in s.lobbies[l].members
  {
  }

  lemma PlayerAdded(s: State, s': State, lobbyID: string, playerID: string)
    requires PlayersOK(s) && !Busy(s, playerID) && OthersSame(s, s', lobbyID)
    requires MembersAt(s', lobbyID) == MembersAt(s, lobbyID) + {playerID}
      && s'.lobbyByPlayer == s.lobbyByPlayer[playerID := lobbyID]
    ensures PlayersOK(s')
  {
    PlayersMean(s);
    PlayersMean(s');
    hide PlayersOK, MembersAt;
    forall l, p | p in MembersAt(s', l) ensures p in s'.lobbyByPlayer && s'.lobbyByPlayer[p] == l {
      if l == lobbyID && p == playerID {} else { assert p in MembersAt(s, l); }
    }
    forall p | p in s'.lobbyByPlayer ensures p in MembersAt(s', s'.lobbyByPlayer[p]) {
      if p != playerID { assert p in MembersAt(s, s.lobbyByPlayer[p]); }
    }
  }

  lemma PlayerRemoved(s: State, s': State, lobbyID: string, playerID: string)
    requires PlayersOK(s) && playerID in MembersAt(s, lobbyID) && OthersSame(s, s', lobbyID)
    requires MembersAt(s', lobbyID) == MembersAt(s, lobbyID) - {playerID}
      && s'.lobbyByPlayer == s.lobbyByPlayer - {playerID}
    ensures PlayersOK(s')
  {
    PlayersMean(s);
    PlayersMean(s');
    hide PlayersOK, MembersAt;
    assert s.lobbyByPlayer[playerID] == lobbyID;
    forall l, p | p in MembersAt(s', l) ensures p in s'.lobbyByPlayer && s'.lobbyByPlayer[p] == l {
      assert p in MembersAt(s, l);
      if l != lobbyID { assert s.lobbyByPlayer[p] == l; }
    }
    forall p | p in s'.lobbyByPlayer ensures p in MembersAt(s', s'.lobbyByPlayer[p]) {
      assert p in MembersAt(s, s.lobbyByPlayer[p]);
    }
  }

  lemma PlayersSame(s: State, s': State, lobbyID: string)
    requires PlayersOK(s) && OthersSame(s, s', lobbyID)
    requires MembersAt(s', lobbyID) == MembersAt(s, lobbyID) && s'.lobbyByPlayer == s.lobbyByPlayer
    ensures PlayersOK(s')
  {
    PlayersMean(s);
    PlayersMean(s');
    hide PlayersOK, MembersAt;
    forall l, p | p in MembersAt(s', l) ensures p in s'.lobbyByPlayer && s'.lobbyByPlayer[p] == l {
      assert p in MembersAt(s, l);
    }
  }

  lemma ResetMembers(members: map<string, Member>)
    ensures ResetReady(members).Keys == members.Keys && |ResetReady(members)| == |members|
    ensures forall p | p in members :: ResetReady(members)[p].joinSequence == members[p].joinSequence
    ensures DistinctJoins(members) ==> DistinctJoins(ResetReady(members))
    ensures forall p | IsFirst(members, p) :: IsFirst(ResetReady(members), p)
  {
    assert |ResetReady(members)| == |ResetReady(members).Keys|;
    assert |members| == |members.Keys|;
  }

  // ---------------------------------------------------------------- Create

  lemma CreateKeepsInv(s0: State, playerID: string, request: CreateRequest, reading: ClockReading, id: Option<string>)
    requires Inv(s0) && (id.Some? ==> id.value !in Expire(s0, reading.mono).lobbies)
    ensures Inv(Create(s0, playerID, request, reading, id).0)
  {
    hide PlayersOK, LobbiesOK, TicketsOK, QueuesOK, NoOvertaking, MatchesOK, Expire;
    ExpireKeepsInv(s0, reading.mono);
    var s := Expire(s0, reading.mono);
    var (s', result) := Create(s0, playerID, request, reading, id);
    if result.Ok? {
      var l := result.value;
      TicketSideKept(s, s');
      CreatedLobbyOK(l, playerID, s.nextSequence);
      WithLobbyKeepsLobbies(s, s', id.value);
      OneLobby(s, s', id.value);
      PlayerAdded(s, s', id.value, playerID);
      NewLobbyMatches(s, s', id.value);
      MatchesKept(s, s');
    }
  }

  lemma CreatedLobbyOK(l: Lobby, playerID: string, next: nat)
    requires l.members == map[playerID := Member(false, next)] && l.owner == playerID && l.sequence == next
      && l.revision == 1
    requires 2 <= l.capacity <= HARD_MAX_MEMBERS && l.state.Open? && l.assignments == map[] && 1 <= next
    ensures LobbyOK(l, next + 1) && MatchesOf(l) == {}
  {
  }

  lemma NewLobbyMatches(s: State, s': State, lobbyID: string)
    requires lobbyID in s'.lobbies && MatchesOf(s'.lobbies[lobbyID]) == {} && s'.matchIDs == s.matchIDs
      && s'.tickets == s.tickets
    requires s'.lobbies == s.lobbies[lobbyID := s'.lobbies[lobbyID]]
      && (lobbyID in s.lobbies ==> MatchesOf(s.lobbies[lobbyID]) == {})
    ensures SameMatches(s, s')
  {
    hide MatchesOf;
  }

  // ---------------------------------------------------------------- Join, Leave, SetReady

  lemma OpenHasNoMatches(s: State, lobbyID: string)
    requires LobbiesOK(s) && lobbyID in s.lobbies && s.lobbies[lobbyID].state.Open?
    ensures LobbyOK(s.lobbies[lobbyID], s.nextSequence) && s.lobbies[lobbyID].assignments == map[]
      && MatchesOf(s.lobbies[lobbyID]) == {}
    ensures s.lobbies[lobbyID].revision <= MAX_UINT64
  {
    assert LobbyOK(s.lobbies[lobbyID], s.nextSequence);
  }

  /** A newcomer comes last. */
  lemma MemberAdded(members: map<string, Member>, owner: string, playerID: string, next: nat)
    requires DistinctJoins(members) && IsFirst(members, owner) && playerID !in members
    requires forall p | p in members :: members[p].joinSequence < next
    ensures var members' := members[playerID := Member(false, next)];
      DistinctJoins(members') && IsFirst(members', owner) && |members'| == |members| + 1
  {
    var members' := members[playerID := Member(false, next)];
    assert members'.Keys == members.Keys + {playerID};
    assert |members'| == |members'.Keys| && |members| == |members.Keys|;
  }

  lemma JoinedOK(l: Lobby, playerID: string, next: nat)
    requires LobbyOK(l, next) && l.state.Open? && playerID !in l.members && |l.members| < l.capacity
      && l.revision < MAX_UINT64
    ensures LobbyOK(Joined(l, playerID, next), next + 1) && MatchesOf(Joined(l, playerID, next)) == {}
  {
    hide ResetReady, DistinctJoins, IsFirst;
    MemberAdded(l.members, l.owner, playerID, next);
    ResetMembers(l.members[playerID := Member(false, next)]);
  }

  lemma FreeIsNoMember(s: State, lobbyID: string, playerID: string)
    requires PlayersOK(s) && lobbyID in s.lobbies && !Busy(s, playerID)
    ensures playerID !in s.lobbies[lobbyID].members
  {
  }

  lemma JoinKeepsInv(s0: State, playerID: string, lobbyID: string, revision: nat, now: int)
    requires Inv(s0)
    ensures Inv(Join(s0, playerID, lobbyID, revision, now).0)
  {
    hide PlayersOK, LobbiesOK, TicketsOK, QueuesOK, NoOvertaking, MatchesOK, Expire, LobbyOK, MatchesOf, ResetReady,
         DistinctJoins, IsFirst;
    ExpireKeepsInv(s0, now);
    var s := Expire(s0, now);
    var (s', result) := Join(s0, playerID, lobbyID, revision, now);
    if result.Ok? {
      var l := s.lobbies[lobbyID];
      OpenHasNoMatches(s, lobbyID);
      FreeIsNoMember(s, lobbyID, playerID);
      JoinedOK(l, playerID, s.nextSequence);
      ResetMembers(l.members[playerID := Member(false, s.nextSequence)]);
      TicketSideKept(s, s');
      WithLobbyKeepsLobbies(s, s', lobbyID);
      OneLobby(s, s', lobbyID);
      PlayerAdded(s, s', lobbyID, playerID);
      NewLobbyMatches(s, s', lobbyID);
      MatchesKept(s, s');
    }
  }

  lemma MemberRemoved(members: map<string, Member>, owner: string, playerID: string)
    requires DistinctJoins(members) && IsFirst(members, owner) && playerID in members
    ensures var members' := members - {playerID};
      && members'.Keys == members.Keys - {playerID} && |members'| == |members| - 1
      && DistinctJoins(members') && (playerID != owner ==> IsFirst(members', owner))
      && (|members'| == 0 <==> members' == map[]) && (|members'| == 0 <==> members.Keys == {playerID})
  {
    var members' := members - {playerID};
    assert members'.Keys == members.Keys - {playerID};
    assert |members'| == |members'.Keys| && |members| == |members.Keys|;
    if members.Keys == {playerID} { assert members'.Keys == {}; }
    if |members'| == 0 { assert members.Keys == members'.Keys + {playerID}; }
  }

  lemma LeftOK(l: Lobby, playerID: string, next: nat)
    requires LobbyOK(l, next) && l.state.Open? && playerID in l.members && l.revision < MAX_UINT64
    ensures Left(l, playerID).state.Closed? <==> l.members.Keys == {playerID}
    ensures !Left(l, playerID).state.Closed? ==>
      LobbyOK(Left(l, playerID), next) && MatchesOf(Left(l, playerID)) == {}
        && Left(l, playerID).members.Keys == l.members.Keys - {playerID}
  {
    hide ResetReady, DistinctJoins, IsFirst;
    MemberRemoved(l.members, l.owner, playerID);
    ResetMembers(l.members - {playerID});
  }

  lemma LeaveKeepsInv(s0: State, playerID: string, lobbyID: string, revision: nat, now: int)
    requires Inv(s0)
    ensures Inv(Leave(s0, playerID, lobbyID, revision, now).0)
  {
    hide PlayersOK, LobbiesOK, TicketsOK, QueuesOK, NoOvertaking, MatchesOK, Expire, LobbyOK, MatchesOf, ResetReady,
         Left;
    ExpireKeepsInv(s0, now);
    var s := Expire(s0, now);
    var (s', result) := Leave(s0, playerID, lobbyID, revision, now);
    if result.Ok? {
      OpenHasNoMatches(s, lobbyID);
      hide WithoutMember;
      LeftKeepsInv(s, lobbyID, playerID);
    }
  }

  lemma LeftKeepsInv(s: State, lobbyID: string, playerID: string)
    requires Inv(s) && lobbyID in s.lobbies && s.lobbies[lobbyID].state.Open?
    requires playerID in s.lobbies[lobbyID].members && s.lobbies[lobbyID].revision < MAX_UINT64
    ensures Inv(WithoutMember(s, lobbyID, playerID))
  {
    hide PlayersOK, LobbiesOK, TicketsOK, QueuesOK, NoOvertaking, MatchesOK, LobbyOK, MatchesOf, Left;
    var l, s' := s.lobbies[lobbyID], WithoutMember(s, lobbyID, playerID);
    OpenHasNoMatches(s, lobbyID);
    LeftOK(l, playerID, s.nextSequence);
    TicketSideKept(s, s');
    if Left(l, playerID).state.Closed? {
      RemovedKeepsLobbies(s, lobbyID, s');
      RemovedMatches(s, s', lobbyID);
    } else {
      LeftFrame(l, playerID);
      WithLobbyKeepsLobbies(s, s', lobbyID);
      NewLobbyMatches(s, s', lobbyID);
    }
    MatchesKept(s, s');
    LeftMembers(s, s', lobbyID, playerID);
    OneLobby(s, s', lobbyID);
    hide MembersAt, OthersSame;
    PlayerRemoved(s, s', lobbyID, playerID);
  }

  lemma LeftMembers(s: State, s': State, lobbyID: string, playerID: string)
    requires lobbyID in s.lobbies && playerID in s.lobbies[lobbyID].members
    requires if lobbyID in s'.lobbies then
      s'.lobbies[lobbyID].members.Keys == s.lobbies[lobbyID].members.Keys - {playerID}
             else s.lobbies[lobbyID].members.Keys == {playerID}
    ensures playerID in MembersAt(s, lobbyID) && MembersAt(s', lobbyID) == MembersAt(s, lobbyID) - {playerID}
  {
  }

  lemma LeftFrame(l: Lobby, playerID: string)
    ensures Left(l, playerID).sequence == l.sequence && Left(l, playerID).revision == l.revision + 1
      && Left(l, playerID).capacity == l.capacity
  {
  }

  lemma RemovedKeepsLobbies(s: State, lobbyID: string, s': State)
    requires LobbiesOK(s) && s'.lobbies == s.lobbies - {lobbyID} && s'.nextSequence == s.nextSequence
    ensures LobbiesOK(s')
  {
    hide LobbyOK;
    SubmapSize(s.lobbies, s'.lobbies);
  }

  lemma RemovedMatches(s: State, s': State, lobbyID: string)
    requires lobbyID in s.lobbies && MatchesOf(s.lobbies[lobbyID]) == {} && s'.lobbies == s.lobbies - {lobbyID}
    requires s'.matchIDs == s.matchIDs && s'.tickets == s.tickets
    ensures SameMatches(s, s')
  {
    hide MatchesOf;
  }

  lemma SetReadyKeepsInv(s0: State, playerID: string, lobbyID: string, revision: nat, ready: bool, now: int)
    requires Inv(s0)
    ensures Inv(SetReady(s0, playerID, lobbyID, revision, ready, now).0)
  {
    hide PlayersOK, LobbiesOK, TicketsOK, QueuesOK, NoOvertaking, MatchesOK, Expire, MatchesOf;
    ExpireKeepsInv(s0, now);
    var s := Expire(s0, now);
    var (s', result) := SetReady(s0, playerID, lobbyID, revision, ready, now);
    if result.Ok? && s' != s {
      OpenHasNoMatches(s, lobbyID);
      hide Marked;
      MarkedKeepsInv(s, lobbyID, playerID, ready);
    }
  }

  lemma MarkedOK(l: Lobby, playerID: string, ready: bool, next: nat)
    requires LobbyOK(l, next) && playerID in l.members && l.revision < MAX_UINT64
    ensures LobbyOK(Marked(l, playerID, ready), next) && Marked(l, playerID, ready).members.Keys == l.members.Keys
  {
    hide DistinctJoins, IsFirst, Marked;
    MarkedFrame(l, playerID, ready);
    MarkedMembers(l.members, Marked(l, playerID, ready).members, l.owner);
  }

  lemma MarkedFrame(l: Lobby, playerID: string, ready: bool)
    requires playerID in l.members
    ensures var l' := Marked(l, playerID, ready);
      && l' == l.(members := l'.members, revision := l.revision + 1) && |l'.members| == |l.members|
      && l'.members.Keys == l.members.Keys && forall p | p in l.members ::
         l'.members[p].joinSequence == l.members[p].joinSequence
  {
    UpdateSize(l.members, playerID, l.members[playerID].(ready := ready));
  }

  lemma MarkedMembers(members: map<string, Member>, members': map<string, Member>, owner: string)
    requires DistinctJoins(members) && IsFirst(members, owner) && members'.Keys == members.Keys
    requires forall p | p in members :: members'[p].joinSequence == members[p].joinSequence
    ensures DistinctJoins(members') && IsFirst(members', owner)
  {
  }

  lemma MarkedKeepsInv(s: State, lobbyID: string, playerID: string, ready: bool)
    requires Inv(s) && lobbyID in s.lobbies && s.lobbies[lobbyID].state.Open?
    requires playerID in s.lobbies[lobbyID].members && s.lobbies[lobbyID].revision < MAX_UINT64
    ensures Inv(WithLobby(s, lobbyID, Marked(s.lobbies[lobbyID], playerID, ready)))
  {
    hide PlayersOK, LobbiesOK, TicketsOK, QueuesOK, NoOvertaking, MatchesOK, LobbyOK, MatchesOf;
    var l := s.lobbies[lobbyID];
    var l' := Marked(l, playerID, ready);
    var s' := WithLobby(s, lobbyID, l');
    OpenHasNoMatches(s, lobbyID);
    MarkedOK(l, playerID, ready, s.nextSequence);
    SameAssignments(l, l');
    TicketSideKept(s, s');
    WithLobbyKeepsLobbies(s, s', lobbyID);
    OneLobby(s, s', lobbyID);
    assert MembersAt(s', lobbyID) == MembersAt(s, lobbyID);
    hide MembersAt, OthersSame;
    PlayersSame(s, s', lobbyID);
    NewLobbyMatches(s, s', lobbyID);
    MatchesKept(s, s');
  }

  lemma SameAssignments(l: Lobby, l': Lobby)
    requires l'.assignments == l.assignments
    ensures MatchesOf(l') == MatchesOf(l)
  {
  }

  // ---------------------------------------------------------------- Start

  lemma StartedOK(l: Lobby, m: Match, next: nat)
    requires LobbyOK(l, next) && l.state.Open? && |l.members| == l.capacity && l.revision < MAX_UINT64
    requires m.assignments.Keys == l.members.Keys
    requires forall p | p in m.assignments ::
      m.assignments[p].playerID == p && m.assignments[p].matchID == m.matchID && m.assignments[p].roomID == m.roomID
    ensures var l' := l.(state := Matched, revision := l.revision + 1, expiresAt := m.expiresAt,
      monoDeadline := m.deadline, assignments := m.assignments);
      LobbyOK(l', next) && MatchesOf(l') == {m.matchID}
  {
    assert m.assignments.Keys != {} by { assert |l.members.Keys| == |l.members|; }
    var p :| p in m.assignments.Keys;
    assert m.assignments[p].matchID == m.matchID;
  }

  /** A new match enters a state in which nobody holds it. */
  lemma StartedMatches(s: State, s': State, lobbyID: string, m: string)
    requires MatchesOK(s) && lobbyID in s.lobbies && MatchesOf(s.lobbies[lobbyID]) == {} && m !in s.matchIDs
    requires lobbyID in s'.lobbies && s'.lobbies == s.lobbies[lobbyID := s'.lobbies[lobbyID]]
      && MatchesOf(s'.lobbies[lobbyID]) == {m}
    requires s'.tickets == s.tickets && s'.matchIDs == s.matchIDs + {m}
    ensures MatchesOK(s')
  {
    hide MatchesOf, WholeGroup;
    forall k | k in s'.matchIDs ensures HeldByLobby(s', k) || HeldByTicket(s', k) {
      if k == m {
        assert m in MatchesOf(s'.lobbies[lobbyID]);
      } else if HeldByLobby(s, k) {
        var l :| l in s.lobbies && k in MatchesOf(s.lobbies[l]);
        assert l in s'.lobbies && l != lobbyID;
      }
    }
  }

  /** What the allocation is asked for: the members in join order. */
  ghost predicate StartAnswered(s: State, playerID: string, lobbyID: string, revision: nat, outcome: Result<Match,
      Error>) {
    Starts(s, playerID, lobbyID, revision) && outcome.Ok? ==>
      exists order :: InJoinOrder(s.lobbies[lobbyID].members, order) && Allocated(s, order, outcome.value)
  }

  lemma StartKeepsInv(s0: State, playerID: string, lobbyID: string, revision: nat, now: int, outcome: Result<Match,
      Error>)
    requires Inv(s0) && StartAnswered(Expire(s0, now), playerID, lobbyID, revision, outcome)
    ensures Starts(Expire(s0, now), playerID, lobbyID, revision) && outcome.Ok? ==>
      playerID in outcome.value.assignments
    ensures Inv(Start(s0, playerID, lobbyID, revision, now, outcome).0)
  {
    hide PlayersOK, LobbiesOK, TicketsOK, QueuesOK, NoOvertaking, MatchesOK, Expire, LobbyOK, MatchesOf;
    ExpireKeepsInv(s0, now);
    var s := Expire(s0, now);
    if Starts(s, playerID, lobbyID, revision) && outcome.Ok? {
      var order :| InJoinOrder(s.lobbies[lobbyID].members, order) && Allocated(s, order, outcome.value);
      OpenHasNoMatches(s, lobbyID);
      OwnerIsMember(s.lobbies[lobbyID], s.nextSequence);
      assert outcome.value.assignments.Keys == s.lobbies[lobbyID].members.Keys;
      hide Started;
      StartedKeepsInv(s, lobbyID, outcome.value);
    }
  }

  lemma StartedKeepsInv(s: State, lobbyID: string, m: Match)
    requires Inv(s) && lobbyID in s.lobbies && s.lobbies[lobbyID].state.Open?
    requires |s.lobbies[lobbyID].members| == s.lobbies[lobbyID].capacity && s.lobbies[lobbyID].revision < MAX_UINT64
    requires m.matchID !in s.matchIDs && m.assignments.Keys == s.lobbies[lobbyID].members.Keys
    requires forall p | p in m.assignments ::
      m.assignments[p].playerID == p && m.assignments[p].matchID == m.matchID && m.assignments[p].roomID == m.roomID
    ensures Inv(Started(s, lobbyID, m))
  {
    hide PlayersOK, LobbiesOK, TicketsOK, QueuesOK, NoOvertaking, MatchesOK, LobbyOK, MatchesOf;
    var s' := Started(s, lobbyID, m);
    OpenHasNoMatches(s, lobbyID);
    StartedOK(s.lobbies[lobbyID], m, s.nextSequence);
    TicketSideKept(s, s');
    WithLobbyKeepsLobbies(s, s', lobbyID);
    OneLobby(s, s', lobbyID);
    PlayersSame(s, s', lobbyID);
    StartedMatches(s, s', lobbyID, m.matchID);
  }

  lemma OwnerIsMember(l: Lobby, next: nat)
    requires LobbyOK(l, next)
    ensures l.owner in l.members
  {
  }

  // ---------------------------------------------------------------- what one call changes

  /** Compared with what expiry left, at most lobby `lobbyID` differs, and if it is still there
      its revision has gone up by exactly one. */
  ghost predicate ChangesOne(s: State, s': State, lobbyID: string) {
    && (forall l | l != lobbyID ::
       (l in s'.lobbies <==> l in s.lobbies) && (l in s.lobbies ==> s'.lobbies[l] == s.lobbies[l]))
    && (lobbyID in s'.lobbies && lobbyID in s.lobbies ==>
          || s'.lobbies[lobbyID] == s.lobbies[lobbyID]
          || (s'.lobbies[lobbyID].revision == s.lobbies[lobbyID].revision + 1
             && s'.lobbies[lobbyID].sequence == s.lobbies[lobbyID].sequence))
    && s'.tickets == s.tickets && s'.queues == s.queues
  }

  /** A call that presents another revision than the lobby has is refused as a conflict. */
  ghost predicate Stale(s: State, playerID: string, lobbyID: string, revision: nat) {
    ValidCall(playerID, lobbyID, revision) && lobbyID in s.lobbies && s.lobbies[lobbyID].revision != revision
  }

  /** A successful call leaves the lobby, if there is one left, one revision further. */
  ghost predicate Advanced(s': State, lobbyID: string, revision: nat) {
    lobbyID in s'.lobbies ==> s'.lobbies[lobbyID].revision == revision + 1
  }

  lemma JoinChangesOne(s0: State, playerID: string, lobbyID: string, revision: nat, now: int)
    ensures var s := Expire(s0, now);
      var (s', result) := Join(s0, playerID, lobbyID, revision, now);
      && (ValidCall(playerID, lobbyID, revision) ==> ChangesOne(s, s', lobbyID))
      && (Stale(s, playerID, lobbyID, revision) ==> s' == s && result == Err(ErrConflict))
      && (result.Err? && ValidCall(playerID, lobbyID, revision) ==> s' == s)
      && (result.Ok? ==>
            Advanced(s', lobbyID, revision) && lobbyID in s'.lobbies && playerID in s'.lobbies[lobbyID].members)
  {
    hide Expire, ValidID;
  }

  lemma LeaveChangesOne(s0: State, playerID: string, lobbyID: string, revision: nat, now: int)
    ensures var s := Expire(s0, now);
      var (s', result) := Leave(s0, playerID, lobbyID, revision, now);
      && (ValidCall(playerID, lobbyID, revision) ==> ChangesOne(s, s', lobbyID))
      && (Stale(s, playerID, lobbyID, revision) ==> s' == s && result == Err(ErrConflict))
      && (result.Err? && ValidCall(playerID, lobbyID, revision) ==> s' == s)
      && (result.Ok? ==> Advanced(s', lobbyID, revision) && (lobbyID in s'.lobbies ==>
         playerID !in s'.lobbies[lobbyID].members))
  {
    hide Expire, ValidID;
  }

  lemma SetReadyChangesOne(s0: State, playerID: string, lobbyID: string, revision: nat, ready: bool, now: int)
    ensures var s := Expire(s0, now);
      var (s', result) := SetReady(s0, playerID, lobbyID, revision, ready, now);
      && (ValidCall(playerID, lobbyID, revision) ==> ChangesOne(s, s', lobbyID))
      && (Stale(s, playerID, lobbyID, revision) ==> s' == s && result == Err(ErrConflict))
      && (result.Err? && ValidCall(playerID, lobbyID, revision) ==> s' == s)
      && (result.Ok? ==>
            && (s' == s || Advanced(s', lobbyID, revision))
            && lobbyID in s'.lobbies && playerID in s'.lobbies[lobbyID].members
               && s'.lobbies[lobbyID].members[playerID].ready == ready)
  {
    hide Expire, ValidID;
  }

  /** A failed allocation leaves the manager as it was. */
  lemma StartChangesOne(s0: State, playerID: string, lobbyID: string, revision: nat, now: int, outcome: Result<Match,
      Error>)
    requires Starts(Expire(s0, now), playerID, lobbyID, revision) && outcome.Ok? ==>
      playerID in outcome.value.assignments
    ensures var s := Expire(s0, now);
      var (s', result) := Start(s0, playerID, lobbyID, revision, now, outcome);
      && (ValidCall(playerID, lobbyID, revision) ==> ChangesOne(s, s', lobbyID))
      && (Stale(s, playerID, lobbyID, revision) ==> s' == s && result == Err(ErrConflict))
      && (result.Err? && ValidCall(playerID, lobbyID, revision) ==> s' == s)
      && (result.Ok? ==> Advanced(s', lobbyID, revision) && lobbyID in s'.lobbies && s'.lobbies[lobbyID].state.Matched?)
  {
    hide Expire, ValidID;
  }
}
