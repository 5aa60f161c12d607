/** The lobby and Quick Match manager: its state, the invariant it keeps, and the expiry that
    precedes every operation. */
module Lobbies {
  import opened Prelude
  import opened Identifier

  const HARD_MAX_OPEN_LOBBIES := 256
  const HARD_MAX_MEMBERS := 16
  const HARD_MAX_TICKETS := 4096
  const DEFAULT_LOBBY_TTL := 30 * 60 * SECOND
  const MATCH_TTL := 2 * 60 * SECOND
  const TICKET_TTL := 2 * 60 * SECOND

  datatype Error = ErrInvalid | ErrNotFound | ErrConflict | ErrForbidden | ErrCapacity | ErrUnavailable | ErrFatalRandom
  datatype Visibility = Public | Private
  datatype LobbyState = Open | Matched | Closed
  datatype TicketState = TicketQueued | TicketMatched | TicketCancelled

  datatype Assignment = Assignment(
    matchID: string, roomID: string, playerID: string, sessionID: string, grantID: Bytes, grantSecret: Bytes,
      grantExpiresAt: int)

  datatype Member = Member(ready: bool, joinSequence: nat)

  datatype Lobby = Lobby(
    owner: string, queueKey: string, visibility: Visibility, capacity: nat, state: LobbyState, revision: nat,
      sequence: nat,
    expiresAt: int, monoDeadline: int, members: map<string, Member>, assignments: map<string, Assignment>)

  datatype Ticket = Ticket(
    id: string, queueKey: string, capacity: nat, state: TicketState, revision: nat, sequence: nat,
    expiresAt: int, monoDeadline: int, assignment: Option<Assignment>)

  datatype QueueKey = QueueKey(queueKey: string, capacity: nat)

  datatype State = State(
    lobbies: map<string, Lobby>, lobbyByPlayer: map<string, string>, matchIDs: set<string>,
    tickets: map<string, Ticket>, queues: map<QueueKey, seq<string>>, nextSequence: nat)

  const INIT := State(map[], map[], {}, map[], map[], 1)

  function KeyOf(t: Ticket): QueueKey { QueueKey(t.queueKey, t.capacity) }

  function MatchesOf(l: Lobby): set<string> { set p | p in l.assignments :: l.assignments[p].matchID }

  predicate Holds(t: Ticket, m: string) { t.assignment.Some? && t.assignment.value.matchID == m }

  function Group(tickets: map<string, Ticket>, m: string): set<string> { set p | p in tickets && Holds(tickets[p], m) }

  // ---------------------------------------------------------------- the invariant

  /** `lobbyByPlayer` is the inverse of membership, and nobody is in a lobby and a queue. */
  ghost predicate PlayersOK(s: State) {
    && (forall l, p | l in s.lobbies && p in s.lobbies[l].members :: p in s.lobbyByPlayer && s.lobbyByPlayer[p] == l)
    && (forall p | p in s.lobbyByPlayer ::
       s.lobbyByPlayer[p] in s.lobbies && p in s.lobbies[s.lobbyByPlayer[p]].members)
    && (forall p | p in s.tickets :: p !in s.lobbyByPlayer)
  }

  ghost predicate DistinctJoins(members: map<string, Member>) {
    forall p, q | p in members && q in members && members[p].joinSequence == members[q].joinSequence :: p == q
  }

  /** The member who joined first. */
  ghost predicate IsFirst(members: map<string, Member>, p: string) {
    p in members && forall q | q in members :: members[p].joinSequence <= members[q].joinSequence
  }

  ghost predicate LobbyOK(l: Lobby, next: nat) {
    && 1 <= |l.members| <= l.capacity && 2 <= l.capacity <= HARD_MAX_MEMBERS
    && 1 <= l.revision <= MAX_UINT64 && 1 <= l.sequence < next
    && DistinctJoins(l.members) && IsFirst(l.members, l.owner)
    && (forall p | p in l.members :: l.sequence <= l.members[p].joinSequence < next)
    && !l.state.Closed?
    && (l.state.Open? ==> l.assignments == map[])
    && (l.state.Matched? ==>
          && |l.members| == l.capacity && l.assignments.Keys == l.members.Keys
          && (forall p | p in l.assignments :: l.assignments[p].playerID == p)
          && (forall p, q | p in l.assignments && q in l.assignments ::
                l.assignments[p].matchID == l.assignments[q].matchID
                  && l.assignments[p].roomID == l.assignments[q].roomID))
  }

  ghost predicate LobbiesOK(s: State) {
    && (forall l | l in s.lobbies :: LobbyOK(s.lobbies[l], s.nextSequence))
    && (forall l, k | l in s.lobbies && k in s.lobbies && s.lobbies[l].sequence == s.lobbies[k].sequence :: l == k)
    && |s.lobbies| <= HARD_MAX_OPEN_LOBBIES
  }

  ghost predicate TicketOK(p: string, t: Ticket, next: nat) {
    && t.sequence < next && 2 <= t.capacity <= HARD_MAX_MEMBERS
    && (t.state.TicketQueued? || t.state.TicketMatched?)
    && (t.state.TicketQueued? <==> t.assignment.None?)
    && t.revision == (if t.state.TicketQueued? then 1 else 2)
    && (t.assignment.Some? ==> t.assignment.value.playerID == p)
  }

  ghost predicate TicketsOK(s: State) {
    && (forall p | p in s.tickets :: TicketOK(p, s.tickets[p], s.nextSequence))
    && (forall p, q | p in s.tickets && q in s.tickets && s.tickets[p].sequence == s.tickets[q].sequence :: p == q)
    && |s.tickets| <= HARD_MAX_TICKETS
  }

  /** The players of `q` hold queued tickets for `key`, in the order in which they were taken. */
  ghost predicate InOrder(q: seq<string>, tickets: map<string, Ticket>, key: QueueKey) {
    && (forall i | 0 <= i < |q| :: q[i] in tickets && tickets[q[i]].state.TicketQueued? && KeyOf(tickets[q[i]]) == key)
    && (forall i, j | 0 <= i < j < |q| :: tickets[q[i]].sequence < tickets[q[j]].sequence)
  }

  /** Each queue is exactly the queued tickets for its key, in strictly increasing order. */
  ghost predicate QueuesOK(s: State) {
    && (forall key | key in s.queues :: s.queues[key] != [] && InOrder(s.queues[key], s.tickets, key))
    && (forall p | p in s.tickets && s.tickets[p].state.TicketQueued? ::
       KeyOf(s.tickets[p]) in s.queues && p in s.queues[KeyOf(s.tickets[p])])
  }

  /** Nobody still queued was there before anybody matched from the same queue. */
  ghost predicate NoOvertaking(s: State) {
    forall p, q | p in s.tickets && q in s.tickets && s.tickets[p].state.TicketMatched?
      && s.tickets[q].state.TicketQueued?
      && KeyOf(s.tickets[p]) == KeyOf(s.tickets[q]) :: s.tickets[p].sequence < s.tickets[q].sequence
  }

  /** A match of tickets is never a partial group. */
  ghost predicate WholeGroup(tickets: map<string, Ticket>, p: string, m: string) {
    && p in tickets && Holds(tickets[p], m) && |Group(tickets, m)| == tickets[p].capacity
    && forall q | q in Group(tickets, m) ::
         && KeyOf(tickets[q]) == KeyOf(tickets[p]) && tickets[q].monoDeadline == tickets[p].monoDeadline
         && tickets[q].assignment.value.roomID == tickets[p].assignment.value.roomID
  }

  /** `matchIDs` is exactly the matches in being, each of one lobby or of one whole group. */
  ghost predicate MatchesOK(s: State) {
    && (forall l, m | l in s.lobbies && m in MatchesOf(s.lobbies[l]) :: m in s.matchIDs)
    && (forall p, m | p in s.tickets && Holds(s.tickets[p], m) :: m in s.matchIDs && WholeGroup(s.tickets, p, m))
    && (forall m | m in s.matchIDs :: HeldByLobby(s, m) || HeldByTicket(s, m))
    && (forall l, k, m | l in s.lobbies && k in s.lobbies && m in MatchesOf(s.lobbies[l])
       && m in MatchesOf(s.lobbies[k]) :: l == k)
    && (forall l, p, m | l in s.lobbies && p in s.tickets && m in MatchesOf(s.lobbies[l]) :: !Holds(s.tickets[p], m))
  }

  ghost predicate HeldByLobby(s: State, m: string) { exists l :: l in s.lobbies && m in MatchesOf(s.lobbies[l]) }

  ghost predicate HeldByTicket(s: State, m: string) { exists p :: p in s.tickets && Holds(s.tickets[p], m) }

  ghost predicate Inv(s: State) {
    && PlayersOK(s) && LobbiesOK(s) && TicketsOK(s) && QueuesOK(s) && NoOvertaking(s) && MatchesOK(s)
    && 1 <= s.nextSequence <= MAX_UINT64
  }

  lemma InitOK()
    ensures Inv(INIT)
  {
  }

  // ---------------------------------------------------------------- expiry

  function Filter(q: seq<string>, keep: set<string>): seq<string> {
    if q == [] then [] else (if q[0] in keep then [q[0]] else []) + Filter(q[1..], keep)
  }

  lemma {:induction false} FilterHas(q: seq<string>, keep: set<string>)
    ensures forall p :: p in Filter(q, keep) <==> p in q && p in keep
    decreases |q|
  {
    if q != [] { FilterHas(q[1..], keep); }
  }

  lemma {:induction false} FilterInOrder(q: seq<string>, keep: set<string>, tickets: map<string, Ticket>, key: QueueKey)
    requires InOrder(q, tickets, key)
    ensures InOrder(Filter(q, keep), tickets, key)
    decreases |q|
  {
    if q != [] {
      var rest := Filter(q[1..], keep);
      assert forall i | 0 <= i < |q[1..]| :: q[1..][i] == q[i + 1];
      FilterInOrder(q[1..], keep, tickets, key);
      FilterHas(q[1..], keep);
      if q[0] in keep {
        forall i | 0 <= i < |rest| ensures tickets[q[0]].sequence < tickets[rest[i]].sequence {
          assert rest[i] in q[1..];
        }
      }
    }
  }

  /** Live at `now`. */
  function LiveLobbies(s: State, now: int): map<string, Lobby> {
    map l | l in s.lobbies && now < s.lobbies[l].monoDeadline :: s.lobbies[l]
  }

  function LiveTickets(s: State, now: int): map<string, Ticket> {
    map p | p in s.tickets && now < s.tickets[p].monoDeadline :: s.tickets[p]
  }

  /** The matches whose lobby or tickets have expired. */
  function EndedMatches(s: State, now: int): set<string> {
    (set l, p | l in s.lobbies && now >= s.lobbies[l].monoDeadline && p in s.lobbies[l].assignments ::
      s.lobbies[l].assignments[p].matchID) +
    (set p | p in s.tickets && now >= s.tickets[p].monoDeadline && s.tickets[p].assignment.Some? ::
      s.tickets[p].assignment.value.matchID)
  }

  function LiveQueues(s: State, now: int): map<QueueKey, seq<string>> {
    map key | key in s.queues && Filter(s.queues[key], LiveTickets(s, now).Keys) != [] ::
      Filter(s.queues[key], LiveTickets(s, now).Keys)
  }

  /** What is left of everything at `now`, whatever the order in which it expires. */
  function Expire(s: State, now: int): State {
    var lobbies := LiveLobbies(s, now);
    State(lobbies,
          map p | p in s.lobbyByPlayer && s.lobbyByPlayer[p] in lobbies :: s.lobbyByPlayer[p],
          s.matchIDs - EndedMatches(s, now), LiveTickets(s, now), LiveQueues(s, now), s.nextSequence)
  }

  lemma SubmapSize<K, V>(m: map<K, V>, m': map<K, V>)
    requires m'.Keys <= m.Keys
    ensures |m'| <= |m|
  {
    assert m.Keys == m'.Keys + (m.Keys - m'.Keys);
    assert |m| == |m.Keys| && |m'| == |m'.Keys|;
  }

  lemma ExpireKeepsPlayers(s: State, now: int)
    requires PlayersOK(s)
    ensures PlayersOK(Expire(s, now))
  {
  }

  lemma ExpireKeepsLobbies(s: State, now: int)
    requires LobbiesOK(s)
    ensures LobbiesOK(Expire(s, now))
  {
    hide LobbyOK;
    SubmapSize(s.lobbies, LiveLobbies(s, now));
  }

  lemma ExpireKeepsTickets(s: State, now: int)
    requires TicketsOK(s) && NoOvertaking(s)
    ensures TicketsOK(Expire(s, now)) && NoOvertaking(Expire(s, now))
  {
    hide TicketOK;
    SubmapSize(s.tickets, LiveTickets(s, now));
  }

  lemma ExpireKeepsQueues(s: State, now: int)
    requires QueuesOK(s)
    ensures QueuesOK(Expire(s, now))
  {
    var live := LiveTickets(s, now);
    forall key | key in s.queues ensures InOrder(Filter(s.queues[key], live.Keys), live, key) {
      FilterInOrder(s.queues[key], live.Keys, s.tickets, key);
      FilterHas(s.queues[key], live.Keys);
    }
    forall p | p in live && live[p].state.TicketQueued?
      ensures KeyOf(live[p]) in LiveQueues(s, now) && p in LiveQueues(s, now)[KeyOf(live[p])]
    {
      FilterHas(s.queues[KeyOf(live[p])], live.Keys);
    }
  }

  /** The members of a group expire together. */
  lemma GroupsExpireWhole(s: State, now: int, m: string)
    requires MatchesOK(s)
    ensures Group(LiveTickets(s, now), m) == {} || Group(LiveTickets(s, now), m) == Group(s.tickets, m)
    ensures m in EndedMatches(s, now) ==> Group(LiveTickets(s, now), m) == {} && forall l | l in LiveLobbies(s, now) ::
      m !in MatchesOf(s.lobbies[l])
  {
    hide MatchesOK;
    if p :| p in Group(LiveTickets(s, now), m) {
      HoldersAgree(s, p, m);
      assert Group(LiveTickets(s, now), m) == Group(s.tickets, m);
    }
    if m in EndedMatches(s, now) { EndedHolder(s, now, m); }
  }

  lemma HoldersAgree(s: State, p: string, m: string)
    requires MatchesOK(s) && p in s.tickets && Holds(s.tickets[p], m)
    ensures m in s.matchIDs && WholeGroup(s.tickets, p, m)
    ensures forall l | l in s.lobbies :: m !in MatchesOf(s.lobbies[l])
  {
  }

  lemma LobbyHolderUnique(s: State, l: string, m: string)
    requires MatchesOK(s) && l in s.lobbies && m in MatchesOf(s.lobbies[l])
    ensures m in s.matchIDs
    ensures forall k | k in s.lobbies && m in MatchesOf(s.lobbies[k]) :: k == l
    ensures forall p | p in s.tickets :: !Holds(s.tickets[p], m)
  {
  }

  lemma EndedHolder(s: State, now: int, m: string)
    requires MatchesOK(s) && m in EndedMatches(s, now)
    ensures forall p | p in LiveTickets(s, now) :: !Holds(s.tickets[p], m)
    ensures forall l | l in LiveLobbies(s, now) :: m !in MatchesOf(s.lobbies[l])
  {
    hide MatchesOK;
    if l, p :|
      l in s.lobbies && now >= s.lobbies[l].monoDeadline && p in s.lobbies[l].assignments
      && s.lobbies[l].assignments[p].matchID == m
    {
      LobbyHolderUnique(s, l, m);
    } else {
      var p :| p in s.tickets && now >= s.tickets[p].monoDeadline
          && s.tickets[p].assignment.Some? && s.tickets[p].assignment.value.matchID == m;
      HoldersAgree(s, p, m);
      forall q | q in LiveTickets(s, now) ensures !Holds(s.tickets[q], m) {
        assert Holds(s.tickets[q], m) ==> q in Group(s.tickets, m);
      }
    }
  }

  lemma ExpireKeepsMatches(s: State, now: int)
    requires MatchesOK(s)
    ensures MatchesOK(Expire(s, now))
  {
    var s' := Expire(s, now);
    forall p, m | p in s'.tickets && Holds(s'.tickets[p], m) ensures m in s'.matchIDs && WholeGroup(s'.tickets, p, m) {
      HoldersAgree(s, p, m);
      GroupsExpireWhole(s, now, m);
      assert p in Group(s'.tickets, m);
    }
    forall l, m | l in s'.lobbies && m in MatchesOf(s'.lobbies[l]) ensures m in s'.matchIDs {
      GroupsExpireWhole(s, now, m);
    }
    forall m | m in s'.matchIDs ensures HeldByLobby(s', m) || HeldByTicket(s', m) {
      if HeldByLobby(s, m) {
        var l :| l in s.lobbies && m in MatchesOf(s.lobbies[l]);
        assert l in s'.lobbies;
      } else {
        var p :| p in s.tickets && Holds(s.tickets[p], m);
        assert p in s'.tickets;
      }
    }
  }

  /** Expiry keeps the invariant: whole lobbies and whole groups go. */
  lemma ExpireKeepsInv(s: State, now: int)
    requires Inv(s)
    ensures Inv(Expire(s, now))
  {
    hide PlayersOK, LobbiesOK, TicketsOK, QueuesOK, NoOvertaking, MatchesOK;
    ExpireKeepsPlayers(s, now);
    ExpireKeepsLobbies(s, now);
    ExpireKeepsTickets(s, now);
    ExpireKeepsQueues(s, now);
    ExpireKeepsMatches(s, now);
  }
}
