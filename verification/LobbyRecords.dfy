/** What every call on the manager answers and leaves, field by field: which records change, how
    long they last, why a call is refused, and who is matched with whom. */
module LobbyRecords {
  import opened Prelude
  import opened Identifier
  import opened Lobbies
  import opened LobbyOps
  import opened QuickMatch
  import opened Pagination

  const MINUTE := 60 * SECOND

  // ---------------------------------------------------------------- how long records last

  /** What is left of `s` at `now`. */
  ghost predicate LeftAt(s: State, s': State, now: int) {
    && (forall l :: l in s'.lobbies <==> l in s.lobbies && now < s.lobbies[l].monoDeadline)
    && (forall l | l in s'.lobbies :: s'.lobbies[l] == s.lobbies[l])
    && (forall p :: p in s'.tickets <==> p in s.tickets && now < s.tickets[p].monoDeadline)
    && (forall p | p in s'.tickets :: s'.tickets[p] == s.tickets[p])
    && (forall p :: p in s'.lobbyByPlayer <==> p in s.lobbyByPlayer && s.lobbyByPlayer[p] in s'.lobbies)
    && (forall p | p in s'.lobbyByPlayer :: s'.lobbyByPlayer[p] == s.lobbyByPlayer[p])
    && s'.nextSequence == s.nextSequence
  }

  /** A lobby or a ticket is there exactly before its deadline, and as it was; nothing else goes
      but the places of the members of a lobby that goes, and nothing appears. */
  lemma ExpireExactly(s: State, now: int)
    ensures LeftAt(s, Expire(s, now), now)
  {
    hide LiveQueues, EndedMatches;
  }

  /** The other lobbies, and the tickets and queues, are as they were. */
  ghost predicate OnlyLobby(s: State, s': State, lobbyID: string) {
    && (forall l | l != lobbyID :: (l in s'.lobbies <==> l in s.lobbies)
          && (l in s.lobbies ==> s'.lobbies[l] == s.lobbies[l]))
    && s'.tickets == s.tickets && s'.queues == s.queues
  }

  // ---------------------------------------------------------------- Create

  /** Whoever is in no lobby and no queue gets a lobby as asked for, with nobody else in it, for
      half an hour; the next sequence is its place in the list. */
  lemma CreateExactly(s0: State, playerID: string, request: CreateRequest, reading: ClockReading, id: Option<string>)
    ensures var s := Expire(s0, reading.mono);
      var (s', result) := Create(s0, playerID, request, reading, id);
      var valid := ValidID(playerID) && ValidID(request.queueKey) && 2 <= request.capacity <= 16;
      var busy := playerID in s.lobbyByPlayer || playerID in s.tickets;
      var full := |s.lobbies| >= 256 || s.nextSequence == MAX_UINT64;
      var late := reading.mono > MAX_INT64 - 30 * MINUTE;
      && (result.Ok? <==> valid && !busy && !full && id.Some? && !late)
      && (result.Err? ==>
            && s' == (if valid then s else s0)
            && result.error == if !valid then ErrInvalid else if busy then ErrConflict else if full then ErrCapacity
                 else if id.None? then ErrFatalRandom else ErrInvalid)
      && (result.Ok? ==>
            var l := result.value;
            && id.value in s'.lobbies && s'.lobbies[id.value] == l
            && l.owner == playerID && l.queueKey == request.queueKey && l.visibility == request.visibility
            && l.capacity == request.capacity && l.state.Open? && l.revision == 1 && l.sequence == s.nextSequence
            && l.expiresAt - reading.wall == 30 * MINUTE && l.monoDeadline - reading.mono == 30 * MINUTE
            && l.members == map[playerID := Member(false, s.nextSequence)] && l.assignments == map[]
            && OnlyLobby(s, s', id.value) && s'.matchIDs == s.matchIDs && s'.nextSequence == s.nextSequence + 1
            && s'.lobbyByPlayer == s.lobbyByPlayer[playerID := id.value])
  {
    hide Expire, ValidID;
  }

  // ---------------------------------------------------------------- Join, Leave, SetReady

  /** What every call on a lobby is refused for first. */
  ghost function CallRefusal(s: State, playerID: string, lobbyID: string, revision: nat): Option<Error> {
    if !(ValidID(playerID) && ValidID(lobbyID) && revision > 0) then Some(ErrInvalid)
    else if lobbyID !in s.lobbies then Some(ErrNotFound)
    else if !(s.lobbies[lobbyID].state.Open? && s.lobbies[lobbyID].revision == revision) then Some(ErrConflict)
    else None
  }

  /** All but the members, the owner, the revision and the state of a lobby. */
  ghost predicate SameLobby(l: Lobby, l': Lobby) {
    && l'.queueKey == l.queueKey && l'.visibility == l.visibility && l'.capacity == l.capacity
    && l'.sequence == l.sequence && l'.expiresAt == l.expiresAt && l'.monoDeadline == l.monoDeadline
    && l'.assignments == l.assignments
  }

  /** A free player joins an open lobby with a free place, last in order; nobody in it is ready
      any more, and the owner is who it was. */
  lemma JoinExactly(s0: State, playerID: string, lobbyID: string, revision: nat, now: int)
    ensures var s := Expire(s0, now);
      var (s', result) := Join(s0, playerID, lobbyID, revision, now);
      match CallRefusal(s, playerID, lobbyID, revision)
      case Some(error) => result == Err(error) && s' == (if error.ErrInvalid? then s0 else s)
      case None =>
        var l := s.lobbies[lobbyID];
        if playerID in s.lobbyByPlayer || playerID in s.tickets then result == Err(ErrConflict) && s' == s
        else if |l.members| >= l.capacity || s.nextSequence == MAX_UINT64 || l.revision == MAX_UINT64 then
          result == Err(ErrCapacity) && s' == s
        else
          && result.Ok? && lobbyID in s'.lobbies && s'.lobbies[lobbyID] == result.value
          && var l' := result.value;
          && SameLobby(l, l') && l'.owner == l.owner && l'.state.Open? && l'.revision == revision + 1
          && (forall p :: p in l'.members <==> p in l.members || p == playerID)
          && (forall p | p in l'.members :: !l'.members[p].ready)
          && (forall p | p in l.members && p != playerID :: l'.members[p].joinSequence == l.members[p].joinSequence)
          && l'.members[playerID].joinSequence == s.nextSequence && s'.nextSequence == s.nextSequence + 1
          && OnlyLobby(s, s', lobbyID) && s'.matchIDs == s.matchIDs
          && s'.lobbyByPlayer == s.lobbyByPlayer[playerID := lobbyID]
  {
    hide Expire, ValidID;
  }

  /** A member leaves: nobody left in the lobby is ready any more, and if the owner left, the
      first of those who stay owns it; the last to leave closes it. */
  lemma LeaveExactly(s0: State, playerID: string, lobbyID: string, revision: nat, now: int)
    ensures var s := Expire(s0, now);
      var (s', result) := Leave(s0, playerID, lobbyID, revision, now);
      match CallRefusal(s, playerID, lobbyID, revision)
      case Some(error) => result == Err(error) && s' == (if error.ErrInvalid? then s0 else s)
      case None =>
        var l := s.lobbies[lobbyID];
        if playerID !in l.members then result == Err(ErrNotFound) && s' == s
        else if l.revision == MAX_UINT64 then result == Err(ErrCapacity) && s' == s
        else
          && result.Ok?
          && var l' := result.value;
          && SameLobby(l, l') && l'.revision == revision + 1
          && (forall p :: p in l'.members <==> p in l.members && p != playerID)
          && (forall p | p in l'.members :: !l'.members[p].ready)
          && (forall p | p in l'.members :: l'.members[p].joinSequence == l.members[p].joinSequence)
          && (if l'.members == map[] then l'.state.Closed? && l'.owner == "" && lobbyID !in s'.lobbies
              else l'.state.Open? && lobbyID in s'.lobbies && s'.lobbies[lobbyID] == l')
          && (l'.members != map[] ==>
               if l.owner == playerID then IsFirst(l.members - {playerID}, l'.owner) else l'.owner == l.owner)
          && OnlyLobby(s, s', lobbyID) && s'.matchIDs == s.matchIDs && s'.nextSequence == s.nextSequence
          && s'.lobbyByPlayer == s.lobbyByPlayer - {playerID}
  {
    hide Expire, ValidID, IsFirst;
  }

  /** A member says whether it is ready: only that changes, and saying it again changes nothing. */
  lemma ReadyExactly(s0: State, playerID: string, lobbyID: string, revision: nat, ready: bool, now: int)
    ensures var s := Expire(s0, now);
      var (s', result) := SetReady(s0, playerID, lobbyID, revision, ready, now);
      match CallRefusal(s, playerID, lobbyID, revision)
      case Some(error) => result == Err(error) && s' == (if error.ErrInvalid? then s0 else s)
      case None =>
        var l := s.lobbies[lobbyID];
        if playerID !in l.members then result == Err(ErrNotFound) && s' == s
        else if l.members[playerID].ready == ready then result == Ok(l) && s' == s
        else if l.revision == MAX_UINT64 then result == Err(ErrCapacity) && s' == s
        else
          && result.Ok? && lobbyID in s'.lobbies && s'.lobbies[lobbyID] == result.value
          && var l' := result.value;
          && SameLobby(l, l') && l'.owner == l.owner && l'.state.Open? && l'.revision == revision + 1
          && (forall p :: p in l'.members <==> p in l.members)
          && (forall p | p in l.members && p != playerID :: l'.members[p] == l.members[p])
          && l'.members[playerID].ready == ready
          && l'.members[playerID].joinSequence == l.members[playerID].joinSequence
          && OnlyLobby(s, s', lobbyID) && s'.matchIDs == s.matchIDs && s'.nextSequence == s.nextSequence
          && s'.lobbyByPlayer == s.lobbyByPlayer
  {
    hide Expire, ValidID;
  }

  /** The owner, and nobody else, starts a lobby that is full and all ready, once a match was
      allocated; it lasts as long as the match then, and each member has its assignment. */
  lemma StartExactly(s0: State, playerID: string, lobbyID: string, revision: nat, now: int,
      outcome: Result<Match, Error>)
    requires Starts(Expire(s0, now), playerID, lobbyID, revision) && outcome.Ok? ==>
      playerID in outcome.value.assignments
    ensures var s := Expire(s0, now);
      var (s', result) := Start(s0, playerID, lobbyID, revision, now, outcome);
      match CallRefusal(s, playerID, lobbyID, revision)
      case Some(error) => result == Err(error) && s' == (if error.ErrInvalid? then s0 else s)
      case None =>
        var l := s.lobbies[lobbyID];
        if l.owner != playerID then result == Err(ErrForbidden) && s' == s
        else if |l.members| != l.capacity || (exists p :: p in l.members && !l.members[p].ready)
          || l.revision == MAX_UINT64 then result == Err(ErrConflict) && s' == s
        else if outcome.Err? then result == Err(outcome.error) && s' == s
        else
          && lobbyID in s'.lobbies
          && var l' := s'.lobbies[lobbyID];
          && result == Ok(outcome.value.assignments[playerID]) && l'.assignments == outcome.value.assignments
          && l'.state.Matched? && l'.revision == revision + 1
          && l'.members == l.members && l'.owner == l.owner && l'.queueKey == l.queueKey
          && l'.visibility == l.visibility && l'.capacity == l.capacity && l'.sequence == l.sequence
          && l'.expiresAt == outcome.value.expiresAt && l'.monoDeadline == outcome.value.deadline
          && OnlyLobby(s, s', lobbyID) && s'.matchIDs == s.matchIDs + {outcome.value.matchID}
          && s'.nextSequence == s.nextSequence && s'.lobbyByPlayer == s.lobbyByPlayer
  {
    hide Expire, ValidID;
  }

  // ---------------------------------------------------------------- what players are shown

  /** A snapshot shows the lobby as it is, its members in the order in which they joined, and of
      the assignments the player's own alone. */
  lemma SnapshotTells(lobbyID: string, l: Lobby, playerID: string)
    requires DistinctJoins(l.members)
    ensures var a := SnapshotFor(lobbyID, l, playerID);
      && a.lobbyID == lobbyID && a.owner == l.owner && a.queueKey == l.queueKey && a.visibility == l.visibility
      && a.capacity == l.capacity && a.revision == l.revision && a.state == l.state && a.expiresAt == l.expiresAt
      && (forall i | 0 <= i < |a.members| ::
           a.members[i].playerID in l.members && a.members[i].ready == l.members[a.members[i].playerID].ready)
      && (forall p | p in l.members :: exists i :: 0 <= i < |a.members| && a.members[i].playerID == p)
      && (forall i, j | 0 <= i < j < |a.members| ::
           l.members[a.members[i].playerID].joinSequence < l.members[a.members[j].playerID].joinSequence)
      && (a.assignment.Some? <==> playerID in l.assignments)
      && (a.assignment.Some? ==> a.assignment.value == l.assignments[playerID])
  {
    var a, order := SnapshotFor(lobbyID, l, playerID), JoinOrder(l.members);
    hide JoinOrder;
    forall i | 0 <= i < |order| ensures order[i] in l.members { assert order[i] in order; }
    forall p | p in l.members ensures exists i :: 0 <= i < |a.members| && a.members[i].playerID == p {
      assert p in order;
      var i :| 0 <= i < |order| && order[i] == p;
      assert a.members[i].playerID == p;
    }
  }

  /** An entry of the list shows the lobby as it is, and how many are in it. */
  lemma SummaryTells(lobbyID: string, l: Lobby)
    ensures var a := SummaryFor(lobbyID, l);
      && a.lobbyID == lobbyID && a.owner == l.owner && a.queueKey == l.queueKey && a.visibility == l.visibility
      && a.capacity == l.capacity && a.memberCount == |l.members| && a.revision == l.revision
      && a.expiresAt == l.expiresAt
  {
  }

  // ---------------------------------------------------------------- Quick Match

  /** The ticket of a player who was matched in `m`. */
  ghost predicate MatchedBy(t: Ticket, t': Ticket, p: string, m: Match) {
    && p in m.assignments && t'.assignment == Some(m.assignments[p])
    && t'.state.TicketMatched? && t'.revision == t.revision + 1
    && t'.expiresAt == m.expiresAt && t'.monoDeadline == m.deadline
    && t'.id == t.id && t'.queueKey == t.queueKey && t'.capacity == t.capacity && t'.sequence == t.sequence
  }

  /** How many matches were made, and how many players they serve. */
  function Made(outcomes: seq<Result<Match, Error>>): nat {
    if outcomes == [] || outcomes[0].Err? then 0 else 1 + Made(outcomes[1..])
  }

  function Served(outcomes: seq<Result<Match, Error>>, capacity: nat): nat {
    if outcomes == [] || outcomes[0].Err? then 0 else capacity + Served(outcomes[1..], capacity)
  }

  /** The group of the player at place `i`. */
  function GroupAt(i: nat, capacity: nat): nat
    requires capacity > 0
  {
    if i < capacity then 0 else 1 + GroupAt(i - capacity, capacity)
  }

  lemma {:induction false} ServedInGroups(outcomes: seq<Result<Match, Error>>, capacity: nat)
    ensures Made(outcomes) <= |outcomes| && Served(outcomes, capacity) == Made(outcomes) * capacity
    ensures forall k | 0 <= k < Made(outcomes) :: outcomes[k].Ok?
    ensures Made(outcomes) < |outcomes| ==> outcomes[Made(outcomes)].Err?
  {
    if outcomes != [] && outcomes[0].Ok? {
      ServedInGroups(outcomes[1..], capacity);
      assert forall k | 0 < k < |outcomes| :: outcomes[k] == outcomes[1..][k - 1];
      OneMoreTimes(Made(outcomes[1..]), capacity);
    }
  }

  lemma OneMoreTimes(k: nat, n: nat)
    ensures (1 + k) * n == n + k * n
  {
  }

  lemma {:induction false} GroupAtIsQuotient(i: nat, capacity: nat)
    requires capacity > 0
    ensures GroupAt(i, capacity) * capacity <= i < (GroupAt(i, capacity) + 1) * capacity
  {
    if i >= capacity {
      GroupAtIsQuotient(i - capacity, capacity);
      OneMoreTimes(GroupAt(i - capacity, capacity), capacity);
      OneMoreTimes(GroupAt(i - capacity, capacity) + 1, capacity);
    } else {
      assert 0 * capacity == 0 && (0 + 1) * capacity == capacity;
    }
  }

  /** The player at place `i` of the queue was matched, in the match of its group. */
  ghost predicate MatchedAt(s: State, s': State, key: QueueKey, outcomes: seq<Result<Match, Error>>, i: nat)
    requires i < |QueueAt(s, key)| && key.capacity > 0
  {
    var p, k := QueueAt(s, key)[i], GroupAt(i, key.capacity);
    && k < |outcomes| && outcomes[k].Ok? && p in s.tickets && p in s'.tickets
    && MatchedBy(s.tickets[p], s'.tickets[p], p, outcomes[k].value)
  }

  /** The queue of `key` was matched from the front in groups of `capacity`, each group in one of
      the matches, in the order in which they were made. */
  ghost predicate InGroups(s: State, s': State, key: QueueKey, outcomes: seq<Result<Match, Error>>) {
    var q, n := QueueAt(s, key), Served(outcomes, key.capacity);
    && key.capacity > 0 && n <= |q| && QueueAt(s', key) == q[n..]
    && (forall i: nat | i < n :: MatchedAt(s, s', key, outcomes, i))
    && s'.tickets.Keys == s.tickets.Keys
    && (forall p | p in s.tickets && p !in q[..n] :: s'.tickets[p] == s.tickets[p])
    && (forall k | k != key :: QueueAt(s', k) == QueueAt(s, k))
    && s'.lobbies == s.lobbies && s'.lobbyByPlayer == s.lobbyByPlayer && s'.nextSequence == s.nextSequence
  }

  lemma OneGroup(s: State, key: QueueKey, m: Match)
    requires QueuesOK(s) && |QueueAt(s, key)| >= key.capacity > 0 && Allocated(s, QueueAt(s, key)[..key.capacity], m)
    ensures var q, s' := QueueAt(s, key), FormMatch(s, key, m);
      && QueueAt(s', key) == q[key.capacity..] && s'.tickets.Keys == s.tickets.Keys
      && (forall i | 0 <= i < key.capacity ::
         q[i] in s.tickets && MatchedBy(s.tickets[q[i]], s'.tickets[q[i]], q[i], m))
      && (forall p | p in s.tickets && p !in q[..key.capacity] :: s'.tickets[p] == s.tickets[p])
      && (forall k | k != key :: QueueAt(s', k) == QueueAt(s, k))
      && s'.lobbies == s.lobbies && s'.lobbyByPlayer == s.lobbyByPlayer && s'.nextSequence == s.nextSequence
  {
    var q := QueueAt(s, key);
    QueuesMean(s);
    assert QueueHolds(s, key);
    forall i | 0 <= i < key.capacity ensures q[i] in s.tickets && q[i] in q[..key.capacity] {
      assert q[..key.capacity][i] == q[i];
    }
    hide QueuesOK, QueueHolds;
  }

  lemma FirstGroup(s: State, s1: State, s': State, key: QueueKey, outcomes: seq<Result<Match, Error>>, i: nat)
    requires i < key.capacity <= |QueueAt(s, key)| && outcomes != [] && outcomes[0].Ok?
    requires QueueAt(s, key)[i] in s.tickets && QueueAt(s, key)[i] in s1.tickets && s'.tickets.Keys == s1.tickets.Keys
    requires MatchedBy(s.tickets[QueueAt(s, key)[i]], s1.tickets[QueueAt(s, key)[i]], QueueAt(s, key)[i],
      outcomes[0].value)
    requires s'.tickets[QueueAt(s, key)[i]] == s1.tickets[QueueAt(s, key)[i]]
    ensures MatchedAt(s, s', key, outcomes, i)
  {
  }

  lemma LaterGroup(s: State, s1: State, s': State, key: QueueKey, outcomes: seq<Result<Match, Error>>, i: nat)
    requires 0 < key.capacity <= i < |QueueAt(s, key)| && outcomes != [] && outcomes[0].Ok?
    requires QueueAt(s1, key) == QueueAt(s, key)[key.capacity..]
    requires MatchedAt(s1, s', key, outcomes[1..], i - key.capacity)
    requires QueueAt(s, key)[i] in s.tickets && QueueAt(s, key)[i] in s1.tickets
    requires s1.tickets[QueueAt(s, key)[i]] == s.tickets[QueueAt(s, key)[i]]
    ensures MatchedAt(s, s', key, outcomes, i)
  {
    hide MatchedBy;
    assert QueueAt(s1, key)[i - key.capacity] == QueueAt(s, key)[i];
    var k := GroupAt(i - key.capacity, key.capacity);
    assert outcomes[1..][k] == outcomes[k + 1];
  }

  /** Who is where in a queue that is split in three. */
  lemma Split(q: seq<string>, c: nat, n1: nat, p: string)
    requires c + n1 <= |q|
    ensures p !in q[..c + n1] ==> p !in q[..c] && p !in q[c..][..n1]
    ensures q[c..][n1..] == q[c + n1..]
  {
    if p in q[..c] { var j :| 0 <= j < c && q[..c][j] == p; assert q[..c + n1][j] == p; }
    if p in q[c..][..n1] { var j :| 0 <= j < n1 && q[c..][..n1][j] == p; assert q[..c + n1][c + j] == p; }
  }

  lemma Apart(q: seq<string>, c: nat, i: nat)
    requires c <= |q| && i < |q| && forall i, j | 0 <= i < j < |q| :: q[i] != q[j]
    ensures i < c ==> q[i] !in q[c..]
    ensures i >= c ==> q[i] !in q[..c]
  {
  }

  /** The matches of the rest of the queue, after a first group. */
  lemma GroupsFollow(s: State, s1: State, s': State, key: QueueKey, outcomes: seq<Result<Match, Error>>)
    requires QueuesOK(s) && outcomes != [] && outcomes[0].Ok? && |QueueAt(s, key)| >= key.capacity > 0
    requires Allocated(s, QueueAt(s, key)[..key.capacity], outcomes[0].value)
    requires s1 == FormMatch(s, key, outcomes[0].value) && InGroups(s1, s', key, outcomes[1..])
    ensures InGroups(s, s', key, outcomes)
  {
    var q, c, rest := QueueAt(s, key), key.capacity, outcomes[1..];
    OneGroup(s, key, outcomes[0].value);
    QueueIsOrdered(s, key);
    hide QueuesOK, FormMatch, Allocated, MatchedBy, MatchedAt, QueueAt, GroupAt;
    var n1 := Served(rest, c);
    assert Served(outcomes, c) == c + n1;
    Split(q, c, n1, "");
    forall i: nat | i < c + n1 ensures MatchedAt(s, s', key, outcomes, i) {
      if i < c { FirstFollows(s, s1, s', key, outcomes, i); } else { LaterFollows(s, s1, s', key, outcomes, i); }
    }
    forall p | p in s.tickets && p !in q[..c + n1] ensures s'.tickets[p] == s.tickets[p] { Split(q, c, n1, p); }
  }

  lemma FirstFollows(s: State, s1: State, s': State, key: QueueKey, outcomes: seq<Result<Match, Error>>, i: nat)
    requires QueuesOK(s) && outcomes != [] && outcomes[0].Ok? && |QueueAt(s, key)| >= key.capacity > i
    requires Allocated(s, QueueAt(s, key)[..key.capacity], outcomes[0].value)
    requires s1 == FormMatch(s, key, outcomes[0].value) && InGroups(s1, s', key, outcomes[1..])
    ensures MatchedAt(s, s', key, outcomes, i)
  {
    var q, c := QueueAt(s, key), key.capacity;
    OneGroup(s, key, outcomes[0].value);
    QueueIsOrdered(s, key);
    Apart(q, c, i);
    hide QueuesOK, FormMatch, Allocated, MatchedBy, MatchedAt, QueueAt, GroupAt;
    assert q[c..][..Served(outcomes[1..], c)] <= q[c..];
    FirstGroup(s, s1, s', key, outcomes, i);
  }

  lemma LaterFollows(s: State, s1: State, s': State, key: QueueKey, outcomes: seq<Result<Match, Error>>, i: nat)
    requires QueuesOK(s) && outcomes != [] && outcomes[0].Ok? && |QueueAt(s, key)| >= key.capacity > 0
    requires Allocated(s, QueueAt(s, key)[..key.capacity], outcomes[0].value)
    requires s1 == FormMatch(s, key, outcomes[0].value) && InGroups(s1, s', key, outcomes[1..])
    requires key.capacity <= i < key.capacity + Served(outcomes[1..], key.capacity)
    ensures i < |QueueAt(s, key)| && MatchedAt(s, s', key, outcomes, i)
  {
    OneGroup(s, key, outcomes[0].value);
    QueueIsOrdered(s, key);
    Apart(QueueAt(s, key), key.capacity, i);
    hide QueuesOK, FormMatch, Allocated, MatchedBy, MatchedAt, QueueAt, GroupAt;
    assert MatchedAt(s1, s', key, outcomes[1..], i - key.capacity);
    LaterGroup(s, s1, s', key, outcomes, i);
  }

  lemma QueueIsOrdered(s: State, key: QueueKey)
    requires QueuesOK(s)
    ensures forall i, j | 0 <= i < j < |QueueAt(s, key)| :: QueueAt(s, key)[i] != QueueAt(s, key)[j]
    ensures forall i | 0 <= i < |QueueAt(s, key)| :: QueueAt(s, key)[i] in s.tickets
  {
    QueuesMean(s);
    assert QueueHolds(s, key);
  }

  lemma NoGroups(s: State, key: QueueKey, outcomes: seq<Result<Match, Error>>)
    requires key.capacity > 0 && Made(outcomes) == 0
    ensures InGroups(s, s, key, outcomes)
  {
    hide MatchedAt;
    assert QueueAt(s, key)[0..] == QueueAt(s, key);
  }

  /** Matching serves the players who came first, in groups of the capacity they asked for, one
      match per group, and nobody else; unless an allocation fails, every full group is served. */
  lemma {:induction false} MatchQueueExactly(s: State, key: QueueKey, outcomes: seq<Result<Match, Error>>)
    requires Inv(s) && key.capacity >= 2 && Answered(s, key, outcomes)
    ensures var (s', error) := MatchQueue(s, key, outcomes);
      && InGroups(s, s', key, outcomes)
      && (error.None? <==> Made(outcomes) == |outcomes|)
      && (error.Some? ==> Made(outcomes) == |outcomes| - 1 && outcomes[Made(outcomes)] == Err(error.value))
      && (error.None? ==> |QueueAt(s', key)| < key.capacity)
    decreases |outcomes|
  {
    hide Inv, FormMatch, InGroups, Allocated;
    if |QueueAt(s, key)| >= key.capacity && outcomes[0].Ok? {
      var s1 := FormMatch(s, key, outcomes[0].value);
      FormMatchKeepsInv(s, key, outcomes[0].value);
      MatchQueueExactly(s1, key, outcomes[1..]);
      QueuesHold(s);
      GroupsFollow(s, s1, MatchQueue(s1, key, outcomes[1..]).0, key, outcomes);
    } else {
      NoGroups(s, key, outcomes);
    }
  }

  /** The queue is matched with `playerID` last in it, who holds a new ticket for two minutes. */
  ghost predicate Enqueued(s: State, s': State, playerID: string, request: EnqueueRequest, reading: ClockReading,
      id: string, outcomes: seq<Result<Match, Error>>, result: Result<Ticket, Error>) {
    var key := QueueKey(request.queueKey, request.capacity);
    var ticket := Ticket(id, request.queueKey, request.capacity, TicketQueued, 1, s.nextSequence,
      reading.wall + 2 * MINUTE, reading.mono + 2 * MINUTE, None);
    var waiting := s.(tickets := s.tickets[playerID := ticket],
      queues := s.queues[key := QueueAt(s, key) + [playerID]], nextSequence := s.nextSequence + 1);
    && InGroups(waiting, s', key, outcomes) && playerID in s'.tickets
    && if Made(outcomes) < |outcomes| then
         outcomes[Made(outcomes)].Err? && result == Err(outcomes[Made(outcomes)].error)
       else result == Ok(s'.tickets[playerID]) && |QueueAt(s', key)| < request.capacity
  }

  /** A player who enqueues is last in the queue, with a ticket for two minutes, before the queue
      is matched; a player who is in a lobby or has a ticket is refused. */
  lemma EnqueueExactly(s0: State, playerID: string, request: EnqueueRequest, reading: ClockReading, id: Option<string>,
      outcomes: seq<Result<Match, Error>>)
    requires Inv(s0)
    requires ValidID(playerID) && ValidEnqueueRequest(request) ==>
      EnqueueAnswered(Expire(s0, reading.mono), playerID, request, reading, id, outcomes)
    ensures EnqueuesExactly(s0, Expire(s0, reading.mono), playerID, request, reading, id, outcomes,
      Enqueue(s0, playerID, request, reading, id, outcomes).0, Enqueue(s0, playerID, request, reading, id, outcomes).1)
  {
    hide Inv, Expire, ValidID, InGroups, Answered, MatchQueue, Compacted, QueuesOK;
    ExpireKeepsInv(s0, reading.mono);
    var s := Expire(s0, reading.mono);
    if ValidID(playerID) && ValidEnqueueRequest(request) && EnqueueRefusal(s, playerID, reading.mono, id).None? {
      var key := QueueKey(request.queueKey, request.capacity);
      var deadline := DeadlineAfter(reading.mono, TICKET_TTL).value;
      SequenceBelow(s);
      WithTicketKeepsInv(s, playerID, request, id.value, reading.wall, deadline);
      var waiting := WithTicket(s, playerID, request, id.value, reading.wall, deadline);
      QueuesHold(waiting);
      CompactionIsIdle(waiting, key);
      MatchQueueExactly(waiting, key, outcomes);
      GroupsKeepTickets(waiting, MatchQueue(waiting, key, outcomes).0, key, outcomes);
    }
  }

  ghost predicate EnqueuesExactly(s0: State, s: State, playerID: string, request: EnqueueRequest,
      reading: ClockReading, id: Option<string>, outcomes: seq<Result<Match, Error>>, s': State,
      result: Result<Ticket, Error>) {
    if !(ValidID(playerID) && ValidID(request.queueKey) && 2 <= request.capacity <= 16) then
      result == Err(ErrInvalid) && s' == s0
    else if playerID in s.lobbyByPlayer || playerID in s.tickets then result == Err(ErrConflict) && s' == s
    else if |s.tickets| >= 4096 || s.nextSequence == MAX_UINT64 then result == Err(ErrCapacity) && s' == s
    else if id.None? then result == Err(ErrFatalRandom) && s' == s
    else if reading.mono > MAX_INT64 - 2 * MINUTE then result == Err(ErrInvalid) && s' == s
    else Enqueued(s, s', playerID, request, reading, id.value, outcomes, result)
  }

  lemma GroupsKeepTickets(s: State, s': State, key: QueueKey, outcomes: seq<Result<Match, Error>>)
    requires InGroups(s, s', key, outcomes)
    ensures s'.tickets.Keys == s.tickets.Keys
  {
    hide MatchedAt;
  }

  /** A player gives up a ticket that is still queued: the ticket goes, its queue is as it was but
      for that player, and nothing else changes. */
  lemma CancelExactly(s0: State, playerID: string, revision: nat, now: int)
    requires Inv(s0)
    ensures var s := Expire(s0, now);
      var (s', result) := Cancel(s0, playerID, revision, now);
      if !(ValidID(playerID) && revision > 0) then result == Err(ErrInvalid) && s' == s0
      else if playerID !in s.tickets then result == Err(ErrNotFound) && s' == s
      else
        var t := s.tickets[playerID];
        if !(t.state.TicketQueued? && revision == 1) then result == Err(ErrConflict) && s' == s
        else
          && result == Ok(t.(state := TicketCancelled, revision := 2))
          && s'.tickets == s.tickets - {playerID}
          && (forall k | k != KeyOf(t) :: QueueAt(s', k) == QueueAt(s, k))
          && (exists i: nat :: CutAt(QueueAt(s, KeyOf(t)), QueueAt(s', KeyOf(t)), i, playerID))
          && s'.lobbies == s.lobbies && s'.lobbyByPlayer == s.lobbyByPlayer && s'.matchIDs == s.matchIDs
          && s'.nextSequence == s.nextSequence
  {
    hide Inv, Expire, ValidID, Without;
    ExpireKeepsInv(s0, now);
    var s := Expire(s0, now);
    var (s', result) := Cancel(s0, playerID, revision, now);
    if playerID in s.tickets {
      RevisionOfQueued(s, playerID);
      if result.Ok? {
        var i := WithoutCuts(QueueAt(s, KeyOf(s.tickets[playerID])), playerID);
        assert CutAt(QueueAt(s, KeyOf(s.tickets[playerID])), QueueAt(s', KeyOf(s.tickets[playerID])), i, playerID);
      }
    }
  }

  /** `q'` is `q` without its `i`-th player. */
  ghost predicate CutAt(q: seq<string>, q': seq<string>, i: nat, playerID: string) {
    i < |q| && q[i] == playerID && q' == q[..i] + q[i + 1..]
  }

  lemma RevisionOfQueued(s: State, playerID: string)
    requires Inv(s) && playerID in s.tickets
    ensures s.tickets[playerID].state.TicketQueued? ==>
      s.tickets[playerID].revision == 1 && playerID in QueueAt(s, KeyOf(s.tickets[playerID]))
  {
    assert TicketOK(playerID, s.tickets[playerID], s.nextSequence);
  }

  lemma {:induction false} WithoutCuts(q: seq<string>, playerID: string) returns (i: nat)
    requires playerID in q
    ensures CutAt(q, Without(q, playerID), i, playerID)
    decreases |q|
  {
    if q[0] == playerID {
      i := 0;
    } else {
      var j := WithoutCuts(q[1..], playerID);
      i := j + 1;
      assert q[..i] == [q[0]] + q[1..][..j] && q[1..][j + 1..] == q[i + 1..];
    }
  }
}
