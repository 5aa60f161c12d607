/** Room definitions, and their one canonical order of participants. */
module Definitions {
  import opened Prelude
  import opened Identifier
  import opened Admission

  datatype StoreError = ErrInvalid | ErrNotFound | ErrConflict | ErrCapacity | ErrFatalRandom

  datatype Participant = Participant(participantID: string, sessionID: string, grantExpiresAt: int)

  datatype Definition = Definition(capacity: nat, expiresAt: int, participants: seq<Participant>)

  // ---------------------------------------------------------------- the order

  predicate StringLess(a: string, b: string) {
    b != [] && (a == [] || a[0] < b[0] || (a[0] == b[0] && StringLess(a[1..], b[1..])))
  }

  predicate Less(a: Participant, b: Participant) {
    if a.participantID == b.participantID then StringLess(a.sessionID, b.sessionID)
      else StringLess(a.participantID, b.participantID)
  }

  lemma {:induction false} StringLessTotal(a: string, b: string)
    ensures a == b || StringLess(a, b) || StringLess(b, a)
    ensures !(StringLess(a, b) && StringLess(b, a))
  {
    if a != [] && b != [] {
      StringLessTotal(a[1..], b[1..]);
      assert a == [a[0]] + a[1..] && b == [b[0]] + b[1..];
    }
  }

  lemma {:induction false} StringLessTransitive(a: string, b: string, c: string)
    requires StringLess(a, b) && StringLess(b, c)
    ensures StringLess(a, c)
  {
    if a != [] && a[0] == b[0] == c[0] { StringLessTransitive(a[1..], b[1..], c[1..]); }
  }

  lemma LessTransitive(a: Participant, b: Participant, c: Participant)
    requires Less(a, b) && Less(b, c)
    ensures Less(a, c)
  {
    if a.participantID == b.participantID == c.participantID {
      StringLessTransitive(a.sessionID, b.sessionID, c.sessionID);
    } else if a.participantID != b.participantID && b.participantID != c.participantID {
      StringLessTransitive(a.participantID, b.participantID, c.participantID);
      StringLessTotal(a.participantID, b.participantID);
    }
  }

  lemma LessAsymmetric(a: Participant, b: Participant)
    ensures !(Less(a, b) && Less(b, a))
  {
    StringLessTotal(a.participantID, b.participantID);
    StringLessTotal(a.sessionID, b.sessionID);
  }

  /** The order of strings is lexicographic: by the first character in which they differ, and a
      proper prefix comes first. */
  lemma {:induction false} StringLessExactly(a: string, b: string)
    ensures StringLess(a, b) <==> exists k: nat :: DifferAt(a, b, k) && (k == |a| || a[k] < b[k])
    decreases |a|
  {
    if a == [] || b == [] || a[0] != b[0] {
      if StringLess(a, b) { assert DifferAt(a, b, 0); }
    } else {
      StringLessExactly(a[1..], b[1..]);
      if StringLess(a, b) {
        var k: nat :| DifferAt(a[1..], b[1..], k) && (k == |a[1..]| || a[1..][k] < b[1..][k]);
        assert a[..k + 1] == [a[0]] + a[1..][..k] && b[..k + 1] == [b[0]] + b[1..][..k];
        assert DifferAt(a, b, k + 1);
      }
      if k: nat :| DifferAt(a, b, k) && (k == |a| || a[k] < b[k]) {
        assert a[..1] == [a[0]] && b[..1] == [b[0]];
        assert k > 0;
        assert a[1..][..k - 1] == a[..k][1..] && b[1..][..k - 1] == b[..k][1..];
        assert DifferAt(a[1..], b[1..], k - 1);
      }
    }
  }

  /** The strings agree before place `k`, where the first ends or the two differ. */
  ghost predicate DifferAt(a: string, b: string, k: nat) {
    k <= |a| && k < |b| && a[..k] == b[..k] && (k < |a| ==> a[k] != b[k])
  }

  // ---------------------------------------------------------------- sorting

  ghost predicate Sorted(s: seq<Participant>) { forall i, j | 0 <= i < j < |s| :: Less(s[i], s[j]) }

  function Insert(p: Participant, s: seq<Participant>): seq<Participant> {
    if s == [] || Less(p, s[0]) then [p] + s else [s[0]] + Insert(p, s[1..])
  }

  function Sort(s: seq<Participant>): seq<Participant> {
    if s == [] then [] else Insert(s[0], Sort(s[1..]))
  }

  lemma {:induction false} InsertPermutes(p: Participant, s: seq<Participant>)
    ensures multiset(Insert(p, s)) == multiset(s) + multiset{p}
  {
    if s != [] && !Less(p, s[0]) {
      InsertPermutes(p, s[1..]);
      assert s == [s[0]] + s[1..];
    }
  }

  lemma {:induction false} SortPermutes(s: seq<Participant>)
    ensures multiset(Sort(s)) == multiset(s)
    ensures |Sort(s)| == |s|
  {
    if s != [] {
      SortPermutes(s[1..]);
      InsertPermutes(s[0], Sort(s[1..]));
      assert s == [s[0]] + s[1..];
    }
    assert |multiset(Sort(s))| == |multiset(s)|;
  }

  ghost predicate DistinctIDs(s: seq<Participant>) {
    forall i, j | 0 <= i < j < |s| :: s[i].participantID != s[j].participantID && s[i].sessionID != s[j].sessionID
  }

  lemma {:induction false} InsertSorts(p: Participant, s: seq<Participant>)
    requires Sorted(s) && forall i | 0 <= i < |s| :: Less(p, s[i]) || Less(s[i], p)
    ensures Sorted(Insert(p, s))
  {
    if s != [] {
      if Less(p, s[0]) {
        forall i | 0 < i < |s| ensures Less(p, s[i]) { LessTransitive(p, s[0], s[i]); }
      } else {
        InsertSorts(p, s[1..]);
        var rest := Insert(p, s[1..]);
        InsertPermutes(p, s[1..]);
        forall i | 0 <= i < |rest| ensures Less(s[0], rest[i]) {
          assert rest[i] in multiset(rest);
          if rest[i] != p { assert rest[i] in multiset(s[1..]); }
        }
      }
    }
  }

  lemma {:induction false} SortSorts(s: seq<Participant>)
    requires DistinctIDs(s)
    ensures Sorted(Sort(s))
  {
    if s != [] {
      SortSorts(s[1..]);
      SortPermutes(s[1..]);
      var rest := Sort(s[1..]);
      forall i | 0 <= i < |rest| ensures Less(s[0], rest[i]) || Less(rest[i], s[0]) {
        assert rest[i] in multiset(s[1..]);
        var j :| 0 <= j < |s[1..]| && s[1..][j] == rest[i];
        assert s[j + 1] == rest[i];
        StringLessTotal(s[0].participantID, rest[i].participantID);
      }
      InsertSorts(s[0], rest);
    }
  }

  lemma {:induction false} SortedUnique(a: seq<Participant>, b: seq<Participant>)
    requires Sorted(a) && Sorted(b) && multiset(a) == multiset(b)
    ensures a == b
    decreases |a|
  {
    assert |multiset(a)| == |multiset(b)|;
    if a != [] {
      SameFirst(a, b);
      DropFirst(a);
      DropFirst(b);
      SortedUnique(a[1..], b[1..]);
      assert a == [a[0]] + a[1..] && b == [b[0]] + b[1..];
    }
  }

  lemma DropFirst<T>(s: seq<T>)
    requires s != []
    ensures multiset(s[1..]) == multiset(s) - multiset{s[0]}
  {
    assert s == [s[0]] + s[1..];
  }

  lemma SameFirst(a: seq<Participant>, b: seq<Participant>)
    requires Sorted(a) && Sorted(b) && multiset(a) == multiset(b) && a != [] && b != []
    ensures a[0] == b[0]
  {
    assert a[0] in multiset(b) && b[0] in multiset(a);
    MultisetHas(a, b[0]);
    MultisetHas(b, a[0]);
    LessAsymmetric(a[0], b[0]);
  }

  // ---------------------------------------------------------------- canonical definitions

  predicate ValidParticipant(p: Participant, expiresAt: int) {
    ValidID(p.participantID) && ValidID(p.sessionID) && p.grantExpiresAt != 0 && p.grantExpiresAt <= expiresAt
  }

  ghost predicate ValidParticipants(s: seq<Participant>, expiresAt: int) {
    && (forall i | 0 <= i < |s| :: ValidParticipant(s[i], expiresAt))
    && DistinctIDs(s)
  }

  /** The definition a request stands for; the zero time is 0. */
  ghost function Canonical(roomID: string, d: Definition, limits: Limits): Result<Definition, StoreError> {
    if !ValidID(roomID) || d.capacity == 0 || d.capacity != |d.participants| then Err(ErrInvalid)
    else if d.capacity > limits.maxRoomCapacity then Err(ErrCapacity)
    else if d.expiresAt == 0 || !ValidParticipants(d.participants, d.expiresAt) then Err(ErrInvalid)
    else Ok(d.(participants := Sort(d.participants)))
  }

  lemma MultisetHas<T>(s: seq<T>, x: T)
    requires x in multiset(s)
    ensures exists i :: 0 <= i < |s| && s[i] == x
  {
    assert x in s;
  }

  lemma {:induction false} TwoPositions<T>(s: seq<T>, x: T) returns (i: nat, j: nat)
    requires multiset(s)[x] >= 2
    ensures i < j < |s| && s[i] == s[j] == x
  {
    var last := |s| - 1;
    assert s == s[..last] + [s[last]];
    assert multiset(s) == multiset(s[..last]) + multiset{s[last]};
    if s[last] == x {
      MultisetHas(s[..last], x);
      i :| 0 <= i < last && s[..last][i] == x;
      j := last;
    } else {
      i, j := TwoPositions(s[..last], x);
    }
  }

  lemma {:induction false} RepeatedCount<T>(s: seq<T>, i: nat, j: nat)
    requires i < j < |s| && s[i] == s[j]
    ensures multiset(s)[s[i]] >= 2
  {
    assert s == s[..j] + ([s[j]] + s[j + 1..]);
    assert s[..j][i] == s[i];
    assert s[i] in multiset(s[..j]);
    assert multiset(s) == multiset(s[..j]) + (multiset{s[j]} + multiset(s[j + 1..]));
  }

  /** Distinct identifiers are a property of the participants, not of their order. */
  lemma DistinctPermuted(a: seq<Participant>, b: seq<Participant>)
    requires DistinctIDs(a) && multiset(a) == multiset(b)
    ensures DistinctIDs(b)
  {
    forall i, j | 0 <= i < j < |b|
      ensures b[i].participantID != b[j].participantID && b[i].sessionID != b[j].sessionID
    {
      assert b[i] in multiset(a) && b[j] in multiset(a);
      if b[i] == b[j] {
        RepeatedCount(b, i, j);
        var k, l := TwoPositions(a, b[i]);
      } else {
        MultisetHas(a, b[i]);
        MultisetHas(a, b[j]);
      }
    }
  }

  lemma ValidPermuted(a: seq<Participant>, b: seq<Participant>, expiresAt: int)
    requires ValidParticipants(a, expiresAt) && multiset(a) == multiset(b)
    ensures ValidParticipants(b, expiresAt)
  {
    DistinctPermuted(a, b);
    forall i | 0 <= i < |b| ensures ValidParticipant(b[i], expiresAt) {
      assert b[i] in multiset(a);
      MultisetHas(a, b[i]);
    }
  }

  /** Any reordering of the same participants normalises to the identical definition. */
  lemma CanonicalUpToPermutation(roomID: string, d: Definition, d': Definition, limits: Limits)
    requires d'.capacity == d.capacity && d'.expiresAt == d.expiresAt
      && multiset(d'.participants) == multiset(d.participants)
    ensures Canonical(roomID, d', limits) == Canonical(roomID, d, limits)
  {
    assert |multiset(d.participants)| == |d.participants| && |multiset(d'.participants)| == |d'.participants|;
    if ValidParticipants(d.participants, d.expiresAt) {
      ValidPermuted(d.participants, d'.participants, d.expiresAt);
      SortSorts(d.participants);
      SortSorts(d'.participants);
      SortPermutes(d.participants);
      SortPermutes(d'.participants);
      SortedUnique(Sort(d.participants), Sort(d'.participants));
    } else if ValidParticipants(d'.participants, d.expiresAt) {
      ValidPermuted(d'.participants, d.participants, d.expiresAt);
    }
  }

  /** A canonical definition is sorted, valid, and of its own canonical form. */
  lemma CanonicalIsValid(roomID: string, d: Definition, limits: Limits)
    requires Canonical(roomID, d, limits).Ok?
    ensures var c := Canonical(roomID, d, limits).value;
      && c.capacity == |c.participants| && 0 < c.capacity <= limits.maxRoomCapacity
      && ValidParticipants(c.participants, c.expiresAt) && Sorted(c.participants)
      && multiset(c.participants) == multiset(d.participants)
  {
    SortPermutes(d.participants);
    SortSorts(d.participants);
    ValidPermuted(d.participants, Sort(d.participants), d.expiresAt);
  }
}
