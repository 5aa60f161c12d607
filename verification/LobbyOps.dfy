/** The lobby operations as functions of the state: what each answers and leaves behind. */
module LobbyOps {
  import opened Prelude
  import opened Identifier
  import opened Lobbies

  datatype MemberSnapshot = MemberSnapshot(playerID: string, ready: bool)

  datatype LobbySnapshot = LobbySnapshot(
    lobbyID: string, owner: string, queueKey: string, visibility: Visibility, capacity: nat, revision: nat,
      state: LobbyState,
    members: seq<MemberSnapshot>, expiresAt: int, assignment: Option<Assignment>)

  datatype CreateRequest = CreateRequest(visibility: Visibility, queueKey: string, capacity: nat)

  // ---------------------------------------------------------------- join order

  /** The members, first joined first. */
  ghost predicate InJoinOrder(members: map<string, Member>, order: seq<string>) {
    && (forall p :: p in order <==> p in members)
    && (forall i, j | 0 <= i < j < |order| :: members[order[i]].joinSequence < members[order[j]].joinSequence)
  }

  lemma {:induction false} JoinOrderUnique(members: map<string, Member>, a: seq<string>, b: seq<string>)
    requires InJoinOrder(members, a) && InJoinOrder(members, b)
    ensures a == b
    decreases |a|
  {
    SameHead(members, a, b);
    if a != [] {
      RestInOrder(members, a);
      RestInOrder(members, b);
      hide InJoinOrder;
      JoinOrderUnique(members - {a[0]}, a[1..], b[1..]);
      assert a == [a[0]] + a[1..] && b == [b[0]] + b[1..];
    }
  }

  lemma SameHead(members: map<string, Member>, a: seq<string>, b: seq<string>)
    requires InJoinOrder(members, a) && InJoinOrder(members, b)
    ensures (a == [] <==> b == []) && (a != [] ==> a[0] == b[0])
  {
    if a != [] { assert a[0] in members; assert a[0] in b; }
    if b != [] { assert b[0] in members; assert b[0] in a; }
    if a != [] && b != [] {
      var i :| 0 <= i < |b| && b[i] == a[0];
      var j :| 0 <= j < |a| && a[j] == b[0];
    }
  }

  lemma RestInOrder(members: map<string, Member>, a: seq<string>)
    requires InJoinOrder(members, a) && a != []
    ensures InJoinOrder(members - {a[0]}, a[1..])
  {
    var rest := members - {a[0]};
    assert forall i | 0 <= i < |a| - 1 :: a[1..][i] == a[i + 1];
    forall p ensures p in a[1..] <==> p in rest {
      if p in rest { assert p in a; var i :| 0 <= i < |a| && a[i] == p; assert a[1..][i - 1] == p; }
      if p in a[1..] {
        var i :| 0 <= i < |a[1..]| && a[1..][i] == p;
        assert members[a[0]].joinSequence < members[a[i + 1]].joinSequence;
      }
    }
  }

  /** Some member joined first, and only one if nobody joined with another. */
  lemma {:induction false} FirstExists(members: map<string, Member>) returns (p: string)
    requires members != map[]
    ensures IsFirst(members, p)
    decreases |members|
  {
    var q :| q in members;
    var rest := members - {q};
    assert rest.Keys == members.Keys - {q};
    assert |rest| == |rest.Keys| < |members.Keys| == |members|;
    if rest == map[] {
      p := q;
      assert members.Keys == rest.Keys + {q} == {q};
    } else {
      var r := FirstExists(rest);
      p := if members[q].joinSequence <= members[r].joinSequence then q else r;
      forall x | x in members ensures members[p].joinSequence <= members[x].joinSequence {
        if x != q { assert x in rest; }
      }
    }
  }

  lemma FirstUnique(members: map<string, Member>, p: string, q: string)
    requires DistinctJoins(members) && IsFirst(members, p) && IsFirst(members, q)
    ensures p == q
  {
  }

  ghost function FirstMember(members: map<string, Member>): (p: string)
    requires members != map[]
    ensures IsFirst(members, p)
  {
    assert exists p :: IsFirst(members, p) by { var p := FirstExists(members); }
    var p :| IsFirst(members, p);
    p
  }

  ghost function JoinOrder(members: map<string, Member>): (order: seq<string>)
    requires DistinctJoins(members)
    ensures InJoinOrder(members, order)
    decreases |members|
  {
    if members == map[] then []
    else
      var first := FirstMember(members);
      var rest := members - {first};
      assert rest.Keys == members.Keys - {first};
      assert |rest| == |rest.Keys| < |members.Keys| == |members|;
      var order := [first] + JoinOrder(rest);
      FirstThenRest(members, first, JoinOrder(rest));
      order
  }

  lemma FirstThenRest(members: map<string, Member>, first: string, rest: seq<string>)
    requires DistinctJoins(members) && IsFirst(members, first) && InJoinOrder(members - {first}, rest)
    ensures InJoinOrder(members, [first] + rest)
  {
    var order := [first] + rest;
    forall p ensures p in order <==> p in members {
      if p in members && p != first { assert p in members - {first}; }
    }
    forall i | 0 <= i < |rest| ensures members[first].joinSequence < members[rest[i]].joinSequence {
      assert rest[i] in members - {first};
    }
  }

  ghost function SnapshotFor(lobbyID: string, l: Lobby, playerID: string): LobbySnapshot
    requires DistinctJoins(l.members)
  {
    var order := JoinOrder(l.members);
    LobbySnapshot(lobbyID, l.owner, l.queueKey, l.visibility, l.capacity, l.revision, l.state,
                  seq(|order|, i requires 0 <= i < |order| => assert order[i] in order; MemberSnapshot(order[i],
                    l.members[order[i]].ready)),
                  l.expiresAt, if playerID in l.assignments then Some(l.assignments[playerID]) else None)
  }

  function ResetReady(members: map<string, Member>): map<string, Member> {
    map p | p in members :: members[p].(ready := false)
  }

  predicate AllReady(members: map<string, Member>) { forall p | p in members :: members[p].ready }

  // ---------------------------------------------------------------- operations

  type Answer = Result<LobbySnapshot, Error>

  predicate ValidCreateRequest(request: CreateRequest) {
    ValidID(request.queueKey) && 2 <= request.capacity <= HARD_MAX_MEMBERS
  }

  predicate ValidCall(playerID: string, lobbyID: string, revision: nat) {
    ValidID(playerID) && ValidID(lobbyID) && revision != 0
  }

  predicate Busy(s: State, playerID: string) { playerID in s.lobbyByPlayer || playerID in s.tickets }

  /** Replace the record of one lobby. */
  function WithLobby(s: State, lobbyID: string, l: Lobby): State { s.(lobbies := s.lobbies[lobbyID := l]) }

  /** Create a lobby under an identifier that was drawn, if one was. */
  function Create(s0: State, playerID: string, request: CreateRequest, reading: ClockReading,
      id: Option<string>): (State, Result<Lobby, Error>)
  {
    if !ValidID(playerID) || !ValidCreateRequest(request) then (s0, Err(ErrInvalid))
    else
      var s := Expire(s0, reading.mono);
      if Busy(s, playerID) then (s, Err(ErrConflict))
      else if |s.lobbies| >= HARD_MAX_OPEN_LOBBIES || s.nextSequence == MAX_UINT64 then (s, Err(ErrCapacity))
      else if id.None? then (s, Err(ErrFatalRandom))
      else match DeadlineAfter(reading.mono, DEFAULT_LOBBY_TTL)
        case None => (s, Err(ErrInvalid))
        case Some(deadline) =>
          var l := Lobby(playerID, request.queueKey, request.visibility, request.capacity, Open, 1, s.nextSequence,
                         reading.wall + DEFAULT_LOBBY_TTL, deadline, map[playerID := Member(false, s.nextSequence)],
                           map[]);
          (WithLobby(s, id.value, l).(lobbyByPlayer := s.lobbyByPlayer[playerID := id.value],
                                     nextSequence := s.nextSequence + 1), Ok(l))
  }

  /** Why a call on a lobby with a presented revision is refused at once, if it is. */
  function Refused(s: State, lobbyID: string, revision: nat): Option<Error> {
    if lobbyID !in s.lobbies then Some(ErrNotFound)
    else if !s.lobbies[lobbyID].state.Open? || s.lobbies[lobbyID].revision != revision then Some(ErrConflict)
    else None
  }

  function Joined(l: Lobby, playerID: string, sequence: nat): Lobby {
    l.(members := ResetReady(l.members[playerID := Member(false, sequence)]), revision := l.revision + 1)
  }

  function Join(s0: State, playerID: string, lobbyID: string, revision: nat, now: int): (State, Result<Lobby, Error>) {
    if !ValidCall(playerID, lobbyID, revision) then (s0, Err(ErrInvalid))
    else
      var s := Expire(s0, now);
      match Refused(s, lobbyID, revision)
      case Some(error) => (s, Err(error))
      case None =>
        var l := s.lobbies[lobbyID];
        if Busy(s, playerID) then (s, Err(ErrConflict))
        else if |l.members| >= l.capacity || s.nextSequence == MAX_UINT64 || l.revision == MAX_UINT64 then
          (s, Err(ErrCapacity))
        else
          var l' := Joined(l, playerID, s.nextSequence);
          (WithLobby(s, lobbyID, l').(lobbyByPlayer := s.lobbyByPlayer[playerID := lobbyID],
                                     nextSequence := s.nextSequence + 1), Ok(l'))
  }

  /** The lobby without one of its members; closed when that was the last. */
  ghost function Left(l: Lobby, playerID: string): Lobby {
    var members := l.members - {playerID};
    if members == map[] then l.(members := members, revision := l.revision + 1, state := Closed, owner := "")
    else l.(members := ResetReady(members), revision := l.revision + 1, owner := if l.owner == playerID then
      FirstMember(members) else l.owner)
  }

  ghost function Leave(s0: State, playerID: string, lobbyID: string, revision: nat, now: int): (State, Result<Lobby,
      Error>) {
    if !ValidCall(playerID, lobbyID, revision) then (s0, Err(ErrInvalid))
    else
      var s := Expire(s0, now);
      match Refused(s, lobbyID, revision)
      case Some(error) => (s, Err(error))
      case None =>
        var l := s.lobbies[lobbyID];
        if playerID !in l.members then (s, Err(ErrNotFound))
        else if l.revision == MAX_UINT64 then (s, Err(ErrCapacity))
        else (WithoutMember(s, lobbyID, playerID), Ok(Left(l, playerID)))
  }

  ghost function WithoutMember(s: State, lobbyID: string, playerID: string): State
    requires lobbyID in s.lobbies
  {
    var l' := Left(s.lobbies[lobbyID], playerID);
    s.(lobbies := if l'.state.Closed? then s.lobbies - {lobbyID}
      else s.lobbies[lobbyID := l'], lobbyByPlayer := s.lobbyByPlayer - {playerID})
  }

  function Marked(l: Lobby, playerID: string, ready: bool): Lobby
    requires playerID in l.members
  {
    l.(members := l.members[playerID := l.members[playerID].(ready := ready)], revision := l.revision + 1)
  }

  function SetReady(s0: State, playerID: string, lobbyID: string, revision: nat, ready: bool, now: int): (State,
      Result<Lobby, Error>) {
    if !ValidCall(playerID, lobbyID, revision) then (s0, Err(ErrInvalid))
    else
      var s := Expire(s0, now);
      match Refused(s, lobbyID, revision)
      case Some(error) => (s, Err(error))
      case None =>
        var l := s.lobbies[lobbyID];
        if playerID !in l.members then (s, Err(ErrNotFound))
        else if l.members[playerID].ready == ready then (s, Ok(l))
        else if l.revision == MAX_UINT64 then (s, Err(ErrCapacity))
        else
          var l' := Marked(l, playerID, ready);
          (WithLobby(s, lobbyID, l'), Ok(l'))
  }

  // ---------------------------------------------------------------- matches

  /** A match that was allocated. */
  datatype Match = Match(matchID: string, roomID: string, assignments: map<string, Assignment>, expiresAt: int,
      deadline: int)

  /** What an allocation for these players promises. */
  ghost predicate Allocated(s: State, players: seq<string>, m: Match) {
    && m.matchID !in s.matchIDs
    && (forall p :: p in m.assignments <==> p in players)
    && (forall p | p in m.assignments ::
          m.assignments[p].playerID == p && m.assignments[p].matchID == m.matchID
            && m.assignments[p].roomID == m.roomID)
  }

  /** Whether `Start` comes to the point of asking for an allocation. */
  predicate Starts(s: State, playerID: string, lobbyID: string, revision: nat) {
    && ValidCall(playerID, lobbyID, revision) && Refused(s, lobbyID, revision).None?
    && var l := s.lobbies[lobbyID];
       l.owner == playerID && |l.members| == l.capacity && AllReady(l.members) && l.revision != MAX_UINT64
  }

  /** Start a full lobby, given what the allocation would answer. */
  function Start(s0: State, playerID: string, lobbyID: string, revision: nat, now: int, outcome: Result<Match,
      Error>): (State, Result<Assignment, Error>)
    requires Starts(Expire(s0, now), playerID, lobbyID, revision) && outcome.Ok? ==>
      playerID in outcome.value.assignments
  {
    if !ValidCall(playerID, lobbyID, revision) then (s0, Err(ErrInvalid))
    else
      var s := Expire(s0, now);
      match Refused(s, lobbyID, revision)
      case Some(error) => (s, Err(error))
      case None =>
        var l := s.lobbies[lobbyID];
        if l.owner != playerID then (s, Err(ErrForbidden))
        else if |l.members| != l.capacity || !AllReady(l.members) || l.revision == MAX_UINT64 then (s, Err(ErrConflict))
        else match outcome
          case Err(error) => (s, Err(error))
          case Ok(m) => (Started(s, lobbyID, m), Ok(m.assignments[playerID]))
  }

  function Started(s: State, lobbyID: string, m: Match): State
    requires lobbyID in s.lobbies
  {
    var l := s.lobbies[lobbyID];
    WithLobby(s, lobbyID, l.(state := Matched, revision := l.revision + 1, expiresAt := m.expiresAt,
      monoDeadline := m.deadline,
                             assignments := m.assignments)).(matchIDs := s.matchIDs + {m.matchID})
  }
}
