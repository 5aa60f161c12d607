/** What every operation takes from which limiter, named one by one, and what each limiter
    gives at most over a run. */
module StoreAmounts {
  import opened Prelude
  import opened RateLimit
  import opened Admission
  import opened Transcript
  import opened StoreModel
  import opened StoreDeletion
  import opened StoreAdmission
  import opened StoreInvariant
  import opened StoreRooms
  import opened StoreCreation
  import opened StoreRuns
  import opened StoreCharging
  import opened StoreLifetimes

  // ---------------------------------------------------------------- single limiters

  /** Limiter `n` can pay `cost` at `now`. */
  ghost predicate Has(g: Gate, n: LimiterName, cost: nat, now: int) {
    n in g.buckets && Affords(g.buckets[n], cost, now)
  }

  /** Limiter `n`, refilled until `now`, is lower by exactly `cost`. */
  ghost predicate Lower(g: Gate, g': Gate, n: LimiterName, cost: nat, now: int) {
    && n in g.buckets && n in g'.buckets && cost * SCALE <= TokensAt(g.buckets[n], now)
    && g'.buckets[n] == g.buckets[n].(tokens := TokensAt(g.buckets[n], now) - cost * SCALE, last := now)
  }

  /** Limiter `n` is of this budget. */
  ghost predicate Of(g: Gate, n: LimiterName, budget: Budget) {
    n in g.buckets && g.buckets[n].rate == budget.rate && g.buckets[n].burst == budget.burst
  }

  // ---------------------------------------------------------------- authenticated ingress

  ghost predicate IngressHas(g: Gate, r: Ref, room: string, bytes: nat, now: int) {
    && Has(g, SessionPackets(r), 1, now) && Has(g, SessionBytes(r), bytes, now)
    && Has(g, RoomIngressPackets(room), 1, now) && Has(g, RoomIngressBytes(room), bytes, now)
    && Has(g, IngressGlobalPackets, 1, now) && Has(g, IngressGlobalBytes, bytes, now)
  }

  ghost predicate IngressLower(g: Gate, g': Gate, r: Ref, room: string, bytes: nat, now: int) {
    && Lower(g, g', SessionPackets(r), 1, now) && Lower(g, g', SessionBytes(r), bytes, now)
    && Lower(g, g', RoomIngressPackets(room), 1, now) && Lower(g, g', RoomIngressBytes(room), bytes, now)
    && Lower(g, g', IngressGlobalPackets, 1, now) && Lower(g, g', IngressGlobalBytes, bytes, now)
  }

  ghost predicate IngressOf(g: Gate, limits: Limits, r: Ref, room: string) {
    && Of(g, SessionPackets(r), limits.sessionPackets) && Of(g, SessionBytes(r), limits.sessionBytes)
    && Of(g, RoomIngressPackets(room), limits.roomPackets) && Of(g, RoomIngressBytes(room), limits.roomBytes)
    && Of(g, IngressGlobalPackets, limits.ingressGlobalPackets) && Of(g, IngressGlobalBytes, limits.ingressGlobalBytes)
  }

  /** The six limiters of a packet of grant `r` in a room. */
  predicate IsIngress(n: LimiterName, r: Ref, room: string) {
    || n == SessionPackets(r) || n == SessionBytes(r) || n == RoomIngressPackets(room) || n == RoomIngressBytes(room)
    || n == IngressGlobalPackets || n == IngressGlobalBytes
  }

  /** Limiters other than these are as they were. */
  ghost predicate OthersSame(g: Gate, g': Gate, these: LimiterName -> bool) {
    forall n | n in g'.buckets && !these(n) :: n in g.buckets && g'.buckets[n] == g.buckets[n]
  }

  lemma IngressNames(r: Ref, room: string, bytes: nat)
    ensures var c := IngressCharges(r, room, bytes);
      && |c| == 6
      && c[0] == Charge(SessionPackets(r), 1) && c[1] == Charge(SessionBytes(r), bytes)
      && c[2] == Charge(RoomIngressPackets(room), 1) && c[3] == Charge(RoomIngressBytes(room), bytes)
      && c[4] == Charge(IngressGlobalPackets, 1) && c[5] == Charge(IngressGlobalBytes, bytes)
    ensures forall n :: Named(IngressCharges(r, room, bytes), n) <==> IsIngress(n, r, room)
  {
    var c := IngressCharges(r, room, bytes);
    assert c[0] == Charge(SessionPackets(r), 1) && c[1] == Charge(SessionBytes(r), bytes)
      && c[2] == Charge(RoomIngressPackets(room), 1) && c[3] == Charge(RoomIngressBytes(room), bytes)
      && c[4] == Charge(IngressGlobalPackets, 1) && c[5] == Charge(IngressGlobalBytes, bytes);
  }

  lemma BudgetsHold(s: State, limits: Limits)
    requires Inv(s, limits)
    ensures forall n | n in s.gate.buckets :: Of(s.gate, n, limits.BudgetOf(n))
  {
    GateHolds(s, limits);
    hide Inv;
  }

  lemma IngressBudgets(limits: Limits, r: Ref, room: string)
    ensures limits.BudgetOf(SessionPackets(r)) == limits.sessionPackets
    ensures limits.BudgetOf(SessionBytes(r)) == limits.sessionBytes
    ensures limits.BudgetOf(RoomIngressPackets(room)) == limits.roomPackets
    ensures limits.BudgetOf(RoomIngressBytes(room)) == limits.roomBytes
    ensures limits.BudgetOf(IngressGlobalPackets) == limits.ingressGlobalPackets
    ensures limits.BudgetOf(IngressGlobalBytes) == limits.ingressGlobalBytes
  {
  }

  lemma IngressAttempted(g: Gate, g': Gate, r: Ref, room: string, bytes: nat, taken: bool, now: int)
    requires Attempted(g, g', IngressCharges(r, room, bytes), taken, now)
    ensures taken <==> IngressHas(g, r, room, bytes, now)
    ensures if taken then IngressLower(g, g', r, room, bytes, now)
            else forall n | IsIngress(n, r, room) :: n in g.buckets && n in g'.buckets && g'.buckets[n] == g.buckets[n]
    ensures g'.sources == g.sources && OthersSame(g, g', n => IsIngress(n, r, room))
  {
    hide IngressCharges, Affords, TokensAt;
    IngressNames(r, room, bytes);
    var c := IngressCharges(r, room, bytes);
    assert c[0].limiter == SessionPackets(r) && c[1].limiter == SessionBytes(r)
      && c[2].limiter == RoomIngressPackets(room)
      && c[3].limiter == RoomIngressBytes(room) && c[4].limiter == IngressGlobalPackets
      && c[5].limiter == IngressGlobalBytes;
    AffordsTokens(g);
    hide Named;
  }

  lemma AffordsTokens(g: Gate)
    ensures forall n, cost: nat, now: int | n in g.buckets && Affords(g.buckets[n], cost, now) ::
      cost * SCALE <= TokensAt(g.buckets[n], now)
  {
    hide TokensAt;
  }

  /** A packet of the current binding of grant `r` takes one packet and its bytes from the
      limiters of the session, of the room and of the relay, or nothing from any of them, and is
      rate limited exactly if one of the six cannot pay; no other limiter changes. */
  lemma IngressAmounts(s: State, limits: Limits, hmac: Hmac, m: Message, endpoint: Endpoint, authTag: Bytes,
      inputBytes: int, now: int)
    requires Inv(s, limits) && (m.ClientDataMessage? || m.PingMessage?) && inputBytes >= 0
    requires FromCurrentBinding(s, hmac, m, endpoint, authTag, now)
    ensures m.bindingID in s.bindingsByID && s.bindingsByID[m.bindingID] in s.heap
    ensures var (s', answer) := AdmitAuthenticated(s, limits, hmac, m, endpoint, authTag, inputBytes, now);
      var r := s.bindingsByID[m.bindingID];
      var room := s.heap[r].roomID;
      && IngressOf(s.gate, limits, r, room)
      && (answer == Reject(RejectRateLimited) <==> !IngressHas(s.gate, r, room, inputBytes, now))
      && s'.gate.sources == s.gate.sources && OthersSame(s.gate, s'.gate, n => IsIngress(n, r, room))
      && if answer != Reject(RejectRateLimited) then IngressLower(s.gate, s'.gate, r, room, inputBytes, now)
         else forall n | IsIngress(n, r, room) ::
           n in s.gate.buckets && n in s'.gate.buckets && s'.gate.buckets[n] == s.gate.buckets[n]
  {
    hide Inv, AdmitAuthenticated, Evolves, ConsumesSequence, SamePreauth, Attempted, IngressHas, IngressLower;
    IngressKeepsInv(s, limits, hmac, m, endpoint, authTag, inputBytes, now);
    var (s', answer) := AdmitAuthenticated(s, limits, hmac, m, endpoint, authTag, inputBytes, now);
    var r := s.bindingsByID[m.bindingID];
    var room := s.heap[r].roomID;
    IngressAttempted(s.gate, s'.gate, r, room, inputBytes, answer != Reject(RejectRateLimited), now);
    BudgetsHold(s, limits);
    IngressBudgets(limits, r, room);
    BindingIndexed(s, limits, m.bindingID);
    BoundIsLive(s, limits, r);
    GrantFacts(s, limits, r);
    LimitersHold(s, limits);
    LimitersKnown(s, limits, r, room);
  }

  // ---------------------------------------------------------------- fan-out

  ghost predicate FanoutHas(g: Gate, room: string, writes: nat, bytes: nat, now: int) {
    && Has(g, RoomFanoutWrites(room), writes, now) && Has(g, RoomFanoutBytes(room), bytes * writes, now)
    && Has(g, FanoutGlobalWrites, writes, now) && Has(g, FanoutGlobalBytes, bytes * writes, now)
  }

  ghost predicate FanoutLower(g: Gate, g': Gate, room: string, writes: nat, bytes: nat, now: int) {
    && Lower(g, g', RoomFanoutWrites(room), writes, now) && Lower(g, g', RoomFanoutBytes(room), bytes * writes, now)
    && Lower(g, g', FanoutGlobalWrites, writes, now) && Lower(g, g', FanoutGlobalBytes, bytes * writes, now)
  }

  ghost predicate FanoutOf(g: Gate, limits: Limits, room: string) {
    && Of(g, RoomFanoutWrites(room), limits.roomFanoutWrites) && Of(g, RoomFanoutBytes(room), limits.roomFanoutBytes)
    && Of(g, FanoutGlobalWrites, limits.globalFanoutWrites) && Of(g, FanoutGlobalBytes, limits.globalFanoutBytes)
  }

  predicate IsFanoutOf(n: LimiterName, room: string) {
    n == RoomFanoutWrites(room) || n == RoomFanoutBytes(room) || n == FanoutGlobalWrites || n == FanoutGlobalBytes
  }

  lemma FanoutNamed(room: string, writes: nat, bytes: nat)
    ensures var c := FanoutCharges(room, writes, bytes);
      && |c| == 4 && c[0] == Charge(RoomFanoutWrites(room), writes) && c[1] == Charge(RoomFanoutBytes(room), bytes)
      && c[2] == Charge(FanoutGlobalWrites, writes) && c[3] == Charge(FanoutGlobalBytes, bytes)
    ensures forall n :: Named(FanoutCharges(room, writes, bytes), n) <==> IsFanoutOf(n, room)
  {
    var c := FanoutCharges(room, writes, bytes);
    assert c[0] == Charge(RoomFanoutWrites(room), writes) && c[1] == Charge(RoomFanoutBytes(room), bytes)
      && c[2] == Charge(FanoutGlobalWrites, writes) && c[3] == Charge(FanoutGlobalBytes, bytes);
  }

  lemma FanoutAttempted(g: Gate, g': Gate, room: string, writes: nat, bytes: nat, taken: bool, now: int)
    requires Attempted(g, g', FanoutCharges(room, writes, PlannedBytes(bytes, writes)), taken, now)
    ensures taken <==> FanoutHas(g, room, writes, bytes, now)
    ensures if taken then FanoutLower(g, g', room, writes, bytes, now)
            else forall n | IsFanoutOf(n, room) :: n in g.buckets && n in g'.buckets && g'.buckets[n] == g.buckets[n]
    ensures g'.sources == g.sources && OthersSame(g, g', n => IsFanoutOf(n, room))
  {
    hide FanoutCharges, Affords, TokensAt;
    FanoutNamed(room, writes, PlannedBytes(bytes, writes));
    var c := FanoutCharges(room, writes, PlannedBytes(bytes, writes));
    assert c[0].limiter == RoomFanoutWrites(room) && c[1].limiter == RoomFanoutBytes(room)
      && c[2].limiter == FanoutGlobalWrites && c[3].limiter == FanoutGlobalBytes;
    AffordsTokens(g);
    hide Named;
  }

  lemma FanoutBudgets(limits: Limits, room: string)
    ensures limits.BudgetOf(RoomFanoutWrites(room)) == limits.roomFanoutWrites
    ensures limits.BudgetOf(RoomFanoutBytes(room)) == limits.roomFanoutBytes
    ensures limits.BudgetOf(FanoutGlobalWrites) == limits.globalFanoutWrites
    ensures limits.BudgetOf(FanoutGlobalBytes) == limits.globalFanoutBytes
  {
  }

  /** Fan-out of a value of the current binding takes one write, and the bytes of the datagram,
      for each recipient from the limiters of the room and of the relay, or nothing from any of
      them, and is limited exactly if one of the four cannot pay; without recipients it is free. */
  lemma FanoutAmounts(s: State, limits: Limits, admitted: AdmittedClientData, outputBytes: int, now: int)
    requires Inv(s, limits) && limits.Valid() && SenderMatches(s, admitted)
      && Unexpired(s.heap[s.bindingsByID[admitted.bindingID]], now) && 0 <= outputBytes <= MAX_DATAGRAM_BYTES
    ensures var r := s.bindingsByID[admitted.bindingID];
      var room := s.heap[r].roomID;
      && room in s.rooms && (forall i | 0 <= i < |s.rooms[room].grants| :: s.rooms[room].grants[i] in s.heap)
      && var (s', answer) := AdmitFanout(s, limits, admitted, outputBytes, now);
         var writes := |Audience(s, s.rooms[room].grants, r, now)|;
         && FanoutOf(s.gate, limits, room)
         && (answer == Reject(RejectFanoutLimited) <==>
            writes > 0 && !FanoutHas(s.gate, room, writes, outputBytes, now))
         && OthersSame(s.gate, s'.gate, n => IsFanoutOf(n, room))
         && (answer.Admit? && writes > 0 ==> FanoutLower(s.gate, s'.gate, room, writes, outputBytes, now))
         && (answer.Reject? || writes == 0 ==> forall n | IsFanoutOf(n, room) && n in s'.gate.buckets ::
              n in s.gate.buckets && s'.gate.buckets[n] == s.gate.buckets[n])
  {
    hide Inv, AdmitFanout, Evolves, Audience, Attempted, FanoutHas, FanoutLower, FanoutCharges;
    FanoutKeepsInv(s, limits, admitted, outputBytes, now);
    var (s', answer) := AdmitFanout(s, limits, admitted, outputBytes, now);
    var r := s.bindingsByID[admitted.bindingID];
    var room := s.heap[r].roomID;
    var writes := |Audience(s, s.rooms[room].grants, r, now)|;
    if writes > 0 { FanoutAttempted(s.gate, s'.gate, room, writes, outputBytes, answer.Admit?, now); }
    BudgetsHold(s, limits);
    FanoutBudgets(limits, room);
    BindingIndexed(s, limits, admitted.bindingID);
    BoundIsLive(s, limits, r);
    GrantFacts(s, limits, r);
    LimitersHold(s, limits);
    LimitersKnown(s, limits, r, room);
  }

  // ---------------------------------------------------------------- admission

  /** The source was observed less than a minute ago. */
  predicate Remembered(g: Gate, key: SourceKey, now: int) {
    key in g.sources && now < SaturatingAdd(g.sources[key], 60 * SECOND)
  }

  /** The limiter of a source: its own while it is remembered, a full one otherwise. */
  function PacketsOf(g: Gate, limits: Limits, key: SourceKey, now: int): Bucket {
    if Remembered(g, key, now) && SourcePackets(key) in g.buckets then g.buckets[SourcePackets(key)]
    else NewLimiter(limits.preauthSourcePackets.rate, limits.preauthSourcePackets.burst)
  }

  function BytesFor(g: Gate, limits: Limits, key: SourceKey, now: int): Bucket {
    if Remembered(g, key, now) && SourceBytes(key) in g.buckets then g.buckets[SourceBytes(key)]
    else NewLimiter(limits.preauthSourceBytes.rate, limits.preauthSourceBytes.burst)
  }

  ghost predicate PreauthHas(g: Gate, limits: Limits, key: SourceKey, bytes: nat, now: int) {
    && Affords(PacketsOf(g, limits, key, now), 1, now) && Affords(BytesFor(g, limits, key, now), bytes, now)
    && GlobalHas(g, bytes, now)
  }

  ghost predicate GlobalHas(g: Gate, bytes: nat, now: int) {
    Has(g, PreauthGlobalPackets, 1, now) && Has(g, PreauthGlobalBytes, bytes, now)
  }

  ghost predicate Becomes(g': Gate, n: LimiterName, b: Bucket, cost: nat, now: int) {
    && cost * SCALE <= TokensAt(b, now) && n in g'.buckets
    && g'.buckets[n] == b.(tokens := TokensAt(b, now) - cost * SCALE, last := now)
  }

  ghost predicate GlobalLower(g: Gate, g': Gate, bytes: nat, now: int) {
    Lower(g, g', PreauthGlobalPackets, 1, now) && Lower(g, g', PreauthGlobalBytes, bytes, now)
  }

  ghost predicate PreauthLower(g: Gate, g': Gate, limits: Limits, key: SourceKey, bytes: nat, now: int) {
    && Becomes(g', SourcePackets(key), PacketsOf(g, limits, key, now), 1, now)
    && Becomes(g', SourceBytes(key), BytesFor(g, limits, key, now), bytes, now)
    && GlobalLower(g, g', bytes, now)
  }

  ghost predicate GlobalSame(g: Gate, g': Gate) {
    && PreauthGlobalPackets in g.buckets && PreauthGlobalPackets in g'.buckets
    && g'.buckets[PreauthGlobalPackets] == g.buckets[PreauthGlobalPackets]
    && PreauthGlobalBytes in g.buckets && PreauthGlobalBytes in g'.buckets
    && g'.buckets[PreauthGlobalBytes] == g.buckets[PreauthGlobalBytes]
  }

  predicate IsAdmission(n: LimiterName, key: SourceKey) {
    n == SourcePackets(key) || n == SourceBytes(key) || n == PreauthGlobalPackets || n == PreauthGlobalBytes
  }

  /** The source is remembered, or the table has a place for it. */
  ghost predicate Place(g: Gate, key: SourceKey, now: int) {
    Remembered(g, key, now) || |g.sources.Keys - {key}| < 4096
  }

  /** Forgetting an idle source leaves the others, and the limiters of the relay. */
  lemma RefreshedIs(g: Gate, key: SourceKey, now: int)
    ensures Refreshed(g, key, now) == if key in g.sources && !Remembered(g, key, now) then Forget(g, key) else g
  {
  }

  lemma RefreshedSources(g: Gate, key: SourceKey, now: int)
    ensures var g1 := Refreshed(g, key, now);
      && (HasPlace(g1, key) <==> Place(g, key, now)) && (key in g1.sources <==> Remembered(g, key, now))
      && (forall k | k != key :: (k in g1.sources <==> k in g.sources) && (k in g.sources ==>
           g1.sources[k] == g.sources[k]))
  {
    RefreshedIs(g, key, now);
    RememberedIsKnown(g, key, now);
    hide Refreshed, Remembered;
    var g1 := Refreshed(g, key, now);
    WithoutSize(g.sources, key);
  }

  lemma RememberedIsKnown(g: Gate, key: SourceKey, now: int)
    ensures Remembered(g, key, now) ==> key in g.sources
  {
  }

  lemma WithoutSize(sources: map<SourceKey, int>, key: SourceKey)
    ensures |sources - {key}| == |sources.Keys - {key}|
    ensures key !in sources ==> |sources| == |sources.Keys - {key}|
  {
    assert (sources - {key}).Keys == sources.Keys - {key};
    assert |sources - {key}| == |(sources - {key}).Keys|;
    if key !in sources { assert sources - {key} == sources; }
  }

  lemma RefreshedBuckets(g: Gate, limits: Limits, key: SourceKey, now: int)
    requires SourcePackets(key) in g.buckets <==> key in g.sources
    requires SourceBytes(key) in g.buckets <==> key in g.sources
    ensures var g1 := Refreshed(g, key, now);
      && Held(g1, limits, SourcePackets(key)) == PacketsOf(g, limits, key, now)
      && Held(g1, limits, SourceBytes(key)) == BytesFor(g, limits, key, now)
      && (forall n | n != SourcePackets(key) && n != SourceBytes(key) ::
           (n in g1.buckets <==> n in g.buckets) && (n in g.buckets ==> g1.buckets[n] == g.buckets[n]))
  {
    RefreshedIs(g, key, now);
    hide Refreshed;
    if !Remembered(g, key, now) { assert SourcePackets(key) !in Refreshed(g, key, now).buckets; }
    hide Remembered;
  }

  lemma SourceLimiters(g: Gate, limits: Limits, key: SourceKey)
    requires GateOK(g, limits)
    ensures SourcePackets(key) in g.buckets <==> key in g.sources
    ensures SourceBytes(key) in g.buckets <==> key in g.sources
    ensures PreauthGlobalPackets in g.buckets && PreauthGlobalBytes in g.buckets
  {
  }

  lemma SourceNamed(key: SourceKey, bytes: nat)
    ensures var c := SourceCharges(key, bytes);
      && |c| == 4 && c[0] == Charge(SourcePackets(key), 1) && c[1] == Charge(SourceBytes(key), bytes)
      && c[2] == Charge(PreauthGlobalPackets, 1) && c[3] == Charge(PreauthGlobalBytes, bytes)
    ensures var c := GlobalCharges(bytes);
      |c| == 2 && c[0] == Charge(PreauthGlobalPackets, 1) && c[1] == Charge(PreauthGlobalBytes, bytes)
    ensures forall n :: Named(SourceCharges(key, bytes), n) <==> IsAdmission(n, key)
  {
    var c := SourceCharges(key, bytes);
    assert c[0] == Charge(SourcePackets(key), 1) && c[1] == Charge(SourceBytes(key), bytes)
      && c[2] == Charge(PreauthGlobalPackets, 1) && c[3] == Charge(PreauthGlobalBytes, bytes);
  }

  /** A source is observed when it is admitted, or refused while it is remembered. */
  ghost predicate Observes(sources: map<SourceKey, int>, sources': map<SourceKey, int>, key: SourceKey, seen: bool,
      now: int) {
    && (key in sources' <==> seen) && (key in sources' ==> sources'[key] == now)
    && forall k | k != key :: (k in sources' <==> k in sources) && (k in sources ==> sources'[k] == sources[k])
  }

  /** What the admission of a datagram of `key` does to the limiters. */
  ghost predicate Admits(g: Gate, g': Gate, limits: Limits, key: SourceKey, bytes: nat, ok: bool, now: int) {
    && (ok <==> Place(g, key, now) && PreauthHas(g, limits, key, bytes, now))
    && (ok ==> PreauthLower(g, g', limits, key, bytes, now))
    && (!ok && !Place(g, key, now) && GlobalHas(g, bytes, now) ==> GlobalLower(g, g', bytes, now))
    && (!ok && (Place(g, key, now) || !GlobalHas(g, bytes, now)) ==> GlobalSame(g, g'))
    && OthersSame(g, g', n => IsAdmission(n, key))
  }

  /** The four limiters of an admission, after the source was refreshed. */
  ghost predicate Refreshes(g: Gate, g1: Gate, limits: Limits, key: SourceKey, now: int) {
    && Held(g1, limits, SourcePackets(key)) == PacketsOf(g, limits, key, now)
    && Held(g1, limits, SourceBytes(key)) == BytesFor(g, limits, key, now)
    && (HasPlace(g1, key) <==> Place(g, key, now))
    && (forall n | n != SourcePackets(key) && n != SourceBytes(key) ::
         (n in g1.buckets <==> n in g.buckets) && (n in g.buckets ==> g1.buckets[n] == g.buckets[n]))
    && PreauthGlobalPackets in g1.buckets && PreauthGlobalBytes in g1.buckets
  }

  lemma AdmittedVerdict(g: Gate, g1: Gate, g': Gate, limits: Limits, key: SourceKey, bytes: nat, ok: bool, now: int)
    requires Refreshes(g, g1, limits, key, now) && Admission.Admitted(g1, g', limits, key, bytes, ok, now)
    ensures ok <==> Place(g, key, now) && PreauthHas(g, limits, key, bytes, now)
    ensures (forall i | 0 <= i < |GlobalCharges(bytes)| ::
      Affords(Held(g1, limits, GlobalCharges(bytes)[i].limiter), GlobalCharges(bytes)[i].cost, now))
      <==> GlobalHas(g, bytes, now)
  {
    SourceNamed(key, bytes);
    hide SourceCharges, GlobalCharges, Named, Affords, Spared, AllTaken, PacketsOf, BytesFor, Place, HasPlace;
    var c, d := SourceCharges(key, bytes), GlobalCharges(bytes);
    assert c[0].limiter == SourcePackets(key) && c[1].limiter == SourceBytes(key)
      && c[2].limiter == PreauthGlobalPackets && c[3].limiter == PreauthGlobalBytes;
    assert d[0].limiter == PreauthGlobalPackets && d[1].limiter == PreauthGlobalBytes;
  }

  lemma TakenBecomes(g: Gate, g1: Gate, g': Gate, limits: Limits, charges: seq<Charge<LimiterName>>, i: nat, now: int)
    requires AllTaken(g1, g', limits, charges, now) && i < |charges|
    ensures Becomes(g', charges[i].limiter, Held(g1, limits, charges[i].limiter), charges[i].cost, now)
  {
    hide TokensAt;
    assert Taken(g1, g', limits, charges[i], now);
  }

  lemma AdmittedLower(g: Gate, g1: Gate, g': Gate, limits: Limits, key: SourceKey, bytes: nat, now: int)
    requires Refreshes(g, g1, limits, key, now) && AllTaken(g1, g', limits, SourceCharges(key, bytes), now)
    ensures PreauthLower(g, g', limits, key, bytes, now)
  {
    SourceNamed(key, bytes);
    hide SourceCharges, AllTaken, TokensAt, PacketsOf, BytesFor, Place, HasPlace;
    TakenBecomes(g, g1, g', limits, SourceCharges(key, bytes), 0, now);
    TakenBecomes(g, g1, g', limits, SourceCharges(key, bytes), 1, now);
    TakenBecomes(g, g1, g', limits, SourceCharges(key, bytes), 2, now);
    TakenBecomes(g, g1, g', limits, SourceCharges(key, bytes), 3, now);
  }

  lemma FullTableLower(g: Gate, g1: Gate, g': Gate, limits: Limits, key: SourceKey, bytes: nat, now: int)
    requires Refreshes(g, g1, limits, key, now) && AllTaken(g1, g', limits, GlobalCharges(bytes), now)
    ensures GlobalLower(g, g', bytes, now)
  {
    SourceNamed(key, bytes);
    hide GlobalCharges, AllTaken, TokensAt, PacketsOf, BytesFor, Place, HasPlace;
    TakenBecomes(g, g1, g', limits, GlobalCharges(bytes), 0, now);
    TakenBecomes(g, g1, g', limits, GlobalCharges(bytes), 1, now);
  }

  lemma AdmittedOthers(g: Gate, g1: Gate, g': Gate, limits: Limits, key: SourceKey, bytes: nat, ok: bool, now: int)
    requires Refreshes(g, g1, limits, key, now) && Admission.Admitted(g1, g', limits, key, bytes, ok, now)
    ensures OthersSame(g, g', n => IsAdmission(n, key))
    ensures g'.buckets == g1.buckets ==> GlobalSame(g, g')
  {
    SourceNamed(key, bytes);
    hide SourceCharges, GlobalCharges, AllTaken, Affords, PacketsOf, BytesFor, Place, HasPlace, Named;
  }

  lemma AdmittedByName(g: Gate, g1: Gate, g': Gate, limits: Limits, key: SourceKey, bytes: nat, ok: bool, now: int)
    requires Refreshes(g, g1, limits, key, now) && Admission.Admitted(g1, g', limits, key, bytes, ok, now)
    ensures Admits(g, g', limits, key, bytes, ok, now)
  {
    AdmittedVerdict(g, g1, g', limits, key, bytes, ok, now);
    AdmittedOthers(g, g1, g', limits, key, bytes, ok, now);
    if ok { AdmittedLower(g, g1, g', limits, key, bytes, now); }
    if !ok && !Place(g, key, now) && GlobalHas(g, bytes, now) { FullTableLower(g, g1, g', limits, key, bytes, now); }
    hide SourceCharges, GlobalCharges, AllTaken, Affords, PreauthHas, PreauthLower, GlobalHas, GlobalLower, GlobalSame,
         OthersSame, Place, HasPlace, Spared;
  }

  lemma AdmittedSources(g: Gate, g1: Gate, g': Gate, limits: Limits, key: SourceKey, bytes: nat, ok: bool, now: int)
    requires g1 == Refreshed(g, key, now) && Admission.Admitted(g1, g', limits, key, bytes, ok, now)
    ensures Observes(g.sources, g'.sources, key, ok || Remembered(g, key, now), now)
  {
    RefreshedSources(g, key, now);
    hide SourceCharges, GlobalCharges, AllTaken, Spared, Affords, Place, Remembered, Refreshed;
  }

  /** One admission takes one packet and the bytes from the limiters of the source and of the
      relay, or nothing from any of them; a source that was not observed for a minute starts
      over with full limiters, and a newcomer to a full table is charged to the relay alone. */
  lemma PreauthAmounts(s: State, limits: Limits, endpoint: Endpoint, inputBytes: int, now: int)
    requires Inv(s, limits)
    ensures var (s', ok) := ChargePreauth(s, limits, endpoint, inputBytes, now);
      match SourceKeyOf(endpoint)
      case None => !ok && s' == s
      case Some(key) =>
        && Admits(s.gate, s'.gate, limits, key, AtLeastZero(inputBytes), ok, now)
        && Observes(s.gate.sources, s'.gate.sources, key, ok || Remembered(s.gate, key, now), now)
        && Of(s.gate, PreauthGlobalPackets, limits.preauthGlobalPackets)
        && Of(s.gate, PreauthGlobalBytes, limits.preauthGlobalBytes)
  {
    hide Inv, AdmitPreauth, Admission.Admitted, Refreshed, GateOK, Admits, Observes, Place, HasPlace, PacketsOf,
         BytesFor,
         Remembered, Refreshes;
    GateHolds(s, limits);
    PreauthExactly(s.gate, limits, endpoint, inputBytes, now);
    BudgetsHold(s, limits);
    GlobalNames(s.gate, limits);
    if SourceKeyOf(endpoint).Some? {
      var key := SourceKeyOf(endpoint).value;
      var (g', ok) := AdmitPreauth(s.gate, limits, endpoint, inputBytes, now);
      RefreshesKnown(s.gate, limits, key, now);
      AdmittedByName(s.gate, Refreshed(s.gate, key, now), g', limits, key, AtLeastZero(inputBytes), ok, now);
      AdmittedSources(s.gate, Refreshed(s.gate, key, now), g', limits, key, AtLeastZero(inputBytes), ok, now);
    }
  }

  lemma RefreshesKnown(g: Gate, limits: Limits, key: SourceKey, now: int)
    requires GateOK(g, limits)
    ensures Refreshes(g, Refreshed(g, key, now), limits, key, now)
  {
    SourceLimiters(g, limits, key);
    RefreshedSources(g, key, now);
    RefreshedBuckets(g, limits, key, now);
    hide GateOK, Place, HasPlace, PacketsOf, BytesFor, Remembered, Refreshed;
  }

  lemma GlobalNames(g: Gate, limits: Limits)
    requires GateOK(g, limits)
    ensures PreauthGlobalPackets in g.buckets && PreauthGlobalBytes in g.buckets
    ensures limits.BudgetOf(PreauthGlobalPackets) == limits.preauthGlobalPackets
    ensures limits.BudgetOf(PreauthGlobalBytes) == limits.preauthGlobalBytes
  {
  }

  /** Two endpoints are the same source exactly if they have the same IPv4 address, mapped or
      not, or the same upper half of an IPv6 address; ports and zones do not matter. */
  lemma SameSourceExactly(a: Endpoint, b: Endpoint)
    requires a.IsValid() && b.IsValid()
    ensures SourceKeyOf(a) == SourceKeyOf(b) <==>
      || (exists bits: nat :: IsHost4(a.addr, bits) && IsHost4(b.addr, bits))
      || (!IsSome4(a.addr) && !IsSome4(b.addr) && a.addr.high == b.addr.high)
  {
    if SourceKeyOf(a).value.Host4? && SourceKeyOf(a) == SourceKeyOf(b) {
      assert IsHost4(a.addr, SourceKeyOf(a).value.bits) && IsHost4(b.addr, SourceKeyOf(a).value.bits);
    }
  }

  /** The address stands for the IPv4 address `bits`: itself, or as ::ffff:bits. */
  predicate IsHost4(a: Addr, bits: nat) {
    a == V4(bits) || (a.V6? && bits < 0x1_0000_0000 && a.high == 0 && a.low == 0xFFFF * 0x1_0000_0000 + bits)
  }

  predicate IsSome4(a: Addr) {
    a.V4? || (a.V6? && a.high == 0 && 0xFFFF * 0x1_0000_0000 <= a.low < 0x1_0000 * 0x1_0000_0000)
  }

  // ---------------------------------------------------------------- one step, one limiter

  /** The limiters that a session or a room owns. */
  predicate IsOwned(n: LimiterName) {
    || n.SessionPackets? || n.SessionBytes? || n.RoomIngressPackets? || n.RoomIngressBytes?
    || n.RoomFanoutWrites? || n.RoomFanoutBytes?
  }

  /** The step is a packet of the current binding of a grant. */
  ghost predicate Speaks(s: State, env: Env, step: Step) {
    && step.op.OnPacket? && step.op.inputBytes >= 0
    && FromCurrentBinding(s, env.hmac, step.op.packet, step.op.endpoint, step.op.authTag, step.reading.mono)
  }

  ghost function Speaker(s: State, env: Env, step: Step): Ref
    requires Speaks(s, env, step)
  {
    s.bindingsByID[step.op.packet.bindingID]
  }

  /** What a step asks of the limiters of a session or of a room: a packet and its bytes of the
      speaker's session and of its room, a write and its bytes for each recipient of the room. */
  ghost function AskedOfOwner(s: State, env: Env, step: Step, n: LimiterName): nat
    requires Inv(s, env.limits)
  {
    hide Inv;
    match n
    case SessionPackets(r) => if Speaks(s, env, step) && Speaker(s, env, step) == r then 1 else 0
    case SessionBytes(r) => if Speaks(s, env, step) && Speaker(s, env, step) == r then step.op.inputBytes else 0
    case RoomIngressPackets(id) =>
      if Speaks(s, env, step) && s.heap[Speaker(s, env, step)].roomID == id then 1 else 0
    case RoomIngressBytes(id) =>
      if Speaks(s, env, step) && s.heap[Speaker(s, env, step)].roomID == id then step.op.inputBytes else 0
    case RoomFanoutWrites(id) => |Reached(s, env, step, id)|
    case RoomFanoutBytes(id) => if step.op.OnFanout? then AtLeastZero(step.op.outputBytes) * |Reached(s, env, step, id)|
      else 0
    case _ => 0
  }

  /** The endpoints in room `id` that the step relays to. */
  ghost function Reached(s: State, env: Env, step: Step, id: string): seq<Endpoint>
    requires Inv(s, env.limits)
  {
    hide Inv;
    if !step.op.OnFanout? then []
    else match AdmitFanout(s, env.limits, step.op.admitted, step.op.outputBytes, step.reading.mono).1
      case Admit(plan) => if plan.roomID == id then plan.recipients else []
      case Reject(_) => []
  }

  /** What a step asks of any limiter but those of a source. */
  ghost function AskedOf(s: State, env: Env, step: Step, n: LimiterName): nat
    requires Inv(s, env.limits)
  {
    if IsGlobal(n) then Asked(s, env, step, n) else AskedOfOwner(s, env, step, n)
  }

  lemma OwnedSpeakerPays(s: State, s': State, env: Env, step: Step, n: LimiterName)
    requires Inv(s, env.limits) && Speaks(s, env, step) && IsOwned(n) && s' == Next(s, env, step)
    requires n in s.gate.buckets && n in s'.gate.buckets
    ensures Paid(s.gate.buckets[n], s'.gate.buckets[n], AskedOfOwner(s, env, step, n), step.reading.mono)
  {
    hide Inv, AdmitAuthenticated, Paid, FromCurrentBinding, IngressHas, IngressOf, Lower;
    IngressAmounts(s, env.limits, env.hmac, step.op.packet, step.op.endpoint, step.op.authTag, step.op.inputBytes,
      step.reading.mono);
    PaidNothing(s.gate.buckets[n], step.reading.mono);
    var r := Speaker(s, env, step);
    var room := s.heap[r].roomID;
    if IngressHas(s.gate, r, room, step.op.inputBytes, step.reading.mono) && IsIngress(n, r, room) {
      HasPays(s.gate, s'.gate, r, room, step.op.inputBytes, n, step.reading.mono);
    }
  }

  lemma HasPays(g: Gate, g': Gate, r: Ref, room: string, bytes: nat, n: LimiterName, now: int)
    requires IngressHas(g, r, room, bytes, now) && IngressLower(g, g', r, room, bytes, now) && IsIngress(n, r, room)
    ensures var packets := n.SessionPackets? || n.RoomIngressPackets? || n.IngressGlobalPackets?;
      n in g.buckets && n in g'.buckets && Paid(g.buckets[n], g'.buckets[n], if packets then 1 else bytes, now)
  {
    hide TokensAt;
  }

  lemma OwnedFanoutPays(s: State, env: Env, step: Step, n: LimiterName)
    requires Inv(s, env.limits) && env.limits.Valid() && step.op.OnFanout? && IsOwned(n)
    requires n in s.gate.buckets && n in Next(s, env, step).gate.buckets
    ensures Paid(s.gate.buckets[n], Next(s, env, step).gate.buckets[n], AskedOfOwner(s, env, step, n),
      step.reading.mono)
  {
    hide Inv, AdmitFanout, Paid, Evolves, Audience, Attempted, FanoutHas, FanoutOf, FanoutLower, OnlyFanout, Drops;
    var admitted, bytes, now := step.op.admitted, step.op.outputBytes, step.reading.mono;
    var (s', answer) := AdmitFanout(s, env.limits, admitted, bytes, now);
    PaidNothing(s.gate.buckets[n], now);
    FanoutKeepsInv(s, env.limits, admitted, bytes, now);
    FanoutChargesFanout(s, env.limits, admitted, bytes, now);
    if !IsFanout(n) {
      OnlyFanoutSpares(s.gate, s'.gate, n);
    } else if SenderMatches(s, admitted) {
      var r := s.bindingsByID[admitted.bindingID];
      BindingIndexed(s, env.limits, admitted.bindingID);
      if !Unexpired(s.heap[r], now) {
        DropsSpare(s.gate, s'.gate, n);
      } else if 0 <= bytes <= MAX_DATAGRAM_BYTES {
        FanoutAmounts(s, env.limits, admitted, bytes, now);
        var room := s.heap[r].roomID;
        var writes := |Audience(s, s.rooms[room].grants, r, now)|;
        if IsFanoutOf(n, room) && answer.Admit? && writes > 0 {
          FanoutHasPays(s.gate, s'.gate, room, writes, bytes, n, now);
        }
      }
    }
  }

  lemma DropsSpare(g: Gate, g': Gate, n: LimiterName)
    requires Drops(g, g') && n in g'.buckets
    ensures n in g.buckets && g'.buckets[n] == g.buckets[n]
  {
  }

  lemma FanoutHasPays(g: Gate, g': Gate, room: string, writes: nat, bytes: nat, n: LimiterName, now: int)
    requires FanoutHas(g, room, writes, bytes, now) && FanoutLower(g, g', room, writes, bytes, now)
      && IsFanoutOf(n, room)
    ensures var counts := n.RoomFanoutWrites? || n.FanoutGlobalWrites?;
      n in g.buckets && n in g'.buckets
      && Paid(g.buckets[n], g'.buckets[n], if counts then writes else bytes * writes, now)
  {
    hide TokensAt;
  }

  lemma PreauthSpares(s: State, s': State, limits: Limits, endpoint: Endpoint, bytes: int, taken: bool, now: int,
      n: LimiterName)
    requires Inv(s, limits) && AttemptsPreauth(s, s', limits, endpoint, bytes, taken, now)
    requires IsOwned(n) && n in s.gate.buckets && n in s'.gate.buckets
    ensures s'.gate.buckets[n] == s.gate.buckets[n]
  {
    hide Inv, ChargePreauth, Drops;
    ChargePreauthKeepsInv(s, limits, endpoint, bytes, now);
    DropsSpare(ChargePreauth(s, limits, endpoint, bytes, now).0.gate, s'.gate, n);
  }

  /** A new room brings limiters of its own, and touches no others. */
  lemma CreateSpares(s: State, env: Env, step: Step, n: LimiterName)
    requires Inv(s, env.limits) && env.limits.Valid() && step.op.OnCreate? && IsOwned(n) && n in s.gate.buckets
    ensures var s' := Next(s, env, step); n in s'.gate.buckets && s'.gate.buckets[n] == s.gate.buckets[n]
  {
    hide Inv, CreateRoom, Evolves, DrawsFresh, DropStale;
    RoomsResident(s, env.limits);
    var id, d := step.op.roomID, step.op.definition;
    CreateRoomKeepsInv(s, env.limits, env.random, id, d, step.reading);
    DropStaleFrame(s, id, step.reading.mono);
    NewRoomLasts(s, env.limits, env.random, id, d, step.reading);
  }

  lemma EndSpares(s: State, env: Env, step: Step, n: LimiterName)
    requires Inv(s, env.limits) && step.op.OnEnd? && n in s.gate.buckets && n in Next(s, env, step).gate.buckets
    ensures Next(s, env, step).gate.buckets[n] == s.gate.buckets[n]
  {
    hide Inv, TombstoneRoom, Drops;
    RoomsResident(s, env.limits);
    DropsReflexive(s.gate);
    if step.op.ended in s.rooms { TombstoneDrops(s, env.limits, step.op.ended, step.reading.mono, Revoked); }
    DropsSpare(s.gate, Next(s, env, step).gate, n);
  }

  lemma SweepSpares(s: State, env: Env, step: Step, n: LimiterName)
    requires Inv(s, env.limits) && step.op.OnSweep? && IsOwned(n)
    requires n in s.gate.buckets && n in Next(s, env, step).gate.buckets
    ensures Next(s, env, step).gate.buckets[n] == s.gate.buckets[n]
  {
    hide Inv, SweepRooms, Drops, Evolves;
    var s1 := SweepRooms(s, env.limits, step.op.order, step.reading.mono);
    SweepRoomsDrop(s, env.limits, step.op.order, step.reading.mono);
    DropsSpare(s.gate, s1.gate, n);
  }

  lemma OwnedPays(s: State, env: Env, step: Step, n: LimiterName)
    requires Inv(s, env.limits) && env.limits.Valid() && IsOwned(n) && FreshStep(s, env, step)
    requires n in s.gate.buckets && n in Next(s, env, step).gate.buckets
    ensures Paid(s.gate.buckets[n], Next(s, env, step).gate.buckets[n], AskedOfOwner(s, env, step, n),
      step.reading.mono)
  {
    hide Inv, ChargePreauth, BeginChallenge, Authenticate, AdmitAuthenticated, AdmitFanout, FreshStep, Paid,
         AttemptsPreauth, AttemptsIngress, FromCurrentBinding, ConsumesSequence, SamePreauth, Evolves, CreateRoom,
         EndRoom, Expire, AskedOfOwner;
    var now, s' := step.reading.mono, Next(s, env, step);
    PaidNothing(s.gate.buckets[n], now);
    match step.op
    case OnPreauth(source, bytes) => ChargePreauthKeepsInv(s, env.limits, source, bytes, now);
    case OnHello(request) =>
      HelloChargesPreauth(s, env.limits, env.random, request, step.reading);
      var taken := BeginChallenge(s, env.limits, env.random, request, step.reading).1 != Reject(RejectRateLimited);
      PreauthSpares(s, s', env.limits, request.endpoint, request.inputBytes, taken, now, n);
    case OnAuthenticate(request) =>
      AuthChargesPreauth(s, env.limits, env.hmac, env.random, request, step.reading);
      var taken :=
        Authenticate(s, env.limits, env.hmac, env.random, request, step.reading).1 != Reject(RejectRateLimited);
      PreauthSpares(s, s', env.limits, request.endpoint, request.inputBytes, taken, now, n);
    case OnPacket(packet, endpoint, authTag, bytes) =>
      if Speaks(s, env, step) {
        OwnedSpeakerPays(s, s', env, step, n);
      } else {
        IngressKeepsInv(s, env.limits, env.hmac, packet, endpoint, authTag, bytes, now);
        var taken :=
          AdmitAuthenticated(s, env.limits, env.hmac, packet, endpoint, authTag, bytes, now).1
          != Reject(RejectRateLimited);
        PreauthSpares(s, s', env.limits, endpoint, bytes, taken, now, n);
      }
    case OnFanout(admitted, outputBytes) => OwnedFanoutPays(s, env, step, n);
    case OnCreate(_, _) => CreateSpares(s, env, step, n);
    case OnEnd(_) => EndSpares(s, env, step, n);
    case OnSweep(_) => SweepSpares(s, env, step, n);
  }

  /** Every step leaves a limiter of the relay, of a session or of a room alone, or takes from it
      exactly what it asks, for as long as the limiter has an owner. */
  lemma StepTakes(s: State, env: Env, step: Step, n: LimiterName)
    requires Inv(s, env.limits) && env.limits.Valid() && FreshStep(s, env, step) && (IsGlobal(n) || IsOwned(n))
    requires n in s.gate.buckets && n in Next(s, env, step).gate.buckets
    ensures Paid(s.gate.buckets[n], Next(s, env, step).gate.buckets[n], AskedOf(s, env, step, n), step.reading.mono)
  {
    hide Inv, Next, Paid, FreshStep, Asked, AskedOfOwner;
    if IsGlobal(n) { StepPays(s, env, step, n); } else { OwnedPays(s, env, step, n); }
  }

  // ---------------------------------------------------------------- a budget over a run

  /** What a limiter gave over a run, until its owner was gone. */
  ghost function Spending(s: State, env: Env, steps: seq<Step>, n: LimiterName): nat
    requires Inv(s, env.limits) && env.limits.Valid() && FreshRun(s, env, steps)
    decreases |steps|
  {
    hide Inv, Next, FreshStep, AskedOf, Paid;
    if steps == [] || n !in s.gate.buckets then 0
    else
      StepKeepsInv(s, env, steps[0]);
      var s1 := Next(s, env, steps[0]);
      if n !in s1.gate.buckets then 0
      else (if s1.gate.buckets[n] == s.gate.buckets[n] then 0 else AskedOf(s, env, steps[0], n))
           + Spending(s1, env, steps[1..], n)
  }

  /** The clock does not go back, and stays between `from` and `to`. */
  ghost predicate Timed(steps: seq<Step>, from: int, to: int) {
    && (forall i | 0 <= i < |steps| :: from <= steps[i].reading.mono <= to)
    && (forall i, j | 0 <= i < j < |steps| :: steps[i].reading.mono <= steps[j].reading.mono)
  }

  lemma PaidWithinTokens(b: Bucket, b': Bucket, cost: nat, from: int, now: int)
    requires b.Valid() && b.last <= from <= now && Paid(b, b', cost, now)
    ensures b'.Valid() && b'.rate == b.rate && b'.burst == b.burst && b'.last <= now
    ensures (if b' == b then 0 else cost) * SCALE + TokensAt(b', now) <= TokensAt(b, from) + b.rate * (now - from)
  {
    hide TokensAt;
    RefillsAtRate(b, from, now);
    AllowNSpends(b, now, cost);
    PaidLast(b, b', cost, now);
  }

  lemma PaidLast(b: Bucket, b': Bucket, cost: nat, now: int)
    requires b.last <= now && Paid(b, b', cost, now)
    ensures b'.last <= now && b'.rate == b.rate && b'.burst == b.burst
  {
  }

  /** Along every run of the store, between two instants, a limiter of the relay, of a session
      or of a room gives no more than its tokens at the first plus what refills until the
      second: packets, bytes and writes stay within burst + rate * (to - from), whoever sends
      them, and whatever else is asked of the store. */
  lemma {:induction false} SpendingWithinBudget(s: State, env: Env, steps: seq<Step>, n: LimiterName, from: int,
      to: int)
    requires Inv(s, env.limits) && env.limits.Valid() && FreshRun(s, env, steps) && (IsGlobal(n) || IsOwned(n))
      && Timed(steps, from, to) && from <= to
    requires n in s.gate.buckets && s.gate.buckets[n].last <= from
    ensures var budget := env.limits.BudgetOf(n);
      Spending(s, env, steps, n) * SCALE
      <= TokensAt(s.gate.buckets[n], from) + budget.rate * (to - from)
      <= budget.burst * SCALE + budget.rate * (to - from)
    decreases |steps|
  {
    hide Inv, Next, FreshStep, AskedOf, Paid, TokensAt;
    BudgetsHold(s, env.limits);
    BucketsValid(s, env.limits);
    var b := s.gate.buckets[n];
    TokensWithinBurst(b, from);
    Distribute(b.rate, to - from, 0);
    if steps != [] {
      var now := steps[0].reading.mono;
      StepKeepsInv(s, env, steps[0]);
      var s1 := Next(s, env, steps[0]);
      if n in s1.gate.buckets {
        StepTakes(s, env, steps[0], n);
        PaidWithinTokens(b, s1.gate.buckets[n], AskedOf(s, env, steps[0], n), from, now);
        LaterTimed(steps, from, to);
        SpendingWithinBudget(s1, env, steps[1..], n, now, to);
        Distribute(b.rate, now - from, to - now);
      }
    }
  }

  lemma TokensWithinBurst(b: Bucket, now: int)
    ensures TokensAt(b, now) <= b.burst * SCALE
  {
  }

  lemma LaterTimed(steps: seq<Step>, from: int, to: int)
    requires Timed(steps, from, to) && steps != []
    ensures Timed(steps[1..], steps[0].reading.mono, to) && steps[0].reading.mono <= to
  {
  }
}
