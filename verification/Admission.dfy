/** Who pays for a datagram before it is authenticated: limits, limiter names, source keys,
    and the bounded table of pre-authentication sources. */
module Admission {
  import opened Prelude
  import opened RateLimit

  datatype Addr = NoAddr | V4(bits: nat) | V6(high: nat, low: nat, zone: string)

  datatype Endpoint = Endpoint(addr: Addr, port: nat) {
    predicate IsValid() { !addr.NoAddr? }
  }

  const NO_ENDPOINT := Endpoint(NoAddr, 0)

  /** `netip.Addr.Unmap`: an IPv4-mapped IPv6 address becomes the IPv4 address. */
  function Unmap(a: Addr): Addr {
    if a.V6? && a.high == 0 && a.low / 0x1_0000_0000 == 0xFFFF then V4(a.low % 0x1_0000_0000) else a
  }

  /** An IPv4 source is its /32, an IPv6 source its /64. */
  datatype SourceKey = Host4(bits: nat) | Net6(high: nat)

  function SourceKeyOf(e: Endpoint): Option<SourceKey> {
    match Unmap(e.addr)
    case NoAddr => None
    case V4(bits) => Some(Host4(bits))
    case V6(high, _, _) => Some(Net6(high))
  }

  /** Every pointer to a limiter, named by the record that owns it. */
  datatype LimiterName =
    | PreauthGlobalPackets | PreauthGlobalBytes
    | IngressGlobalPackets | IngressGlobalBytes
    | FanoutGlobalWrites | FanoutGlobalBytes
    | SourcePackets(key: SourceKey) | SourceBytes(key: SourceKey)
    | SessionPackets(grant: nat) | SessionBytes(grant: nat)
    | RoomIngressPackets(room: string) | RoomIngressBytes(room: string)
    | RoomFanoutWrites(room: string) | RoomFanoutBytes(room: string)

  predicate IsPreauth(n: LimiterName) {
    n.PreauthGlobalPackets? || n.PreauthGlobalBytes? || n.SourcePackets? || n.SourceBytes?
  }

  datatype Budget = Budget(rate: nat, burst: nat) {
    function Limiter(): Bucket { NewLimiter(rate, burst) }
  }

  datatype Limits = Limits(
    maxOpenRooms: nat, maxRoomRecords: nat, maxRoomCapacity: nat, maxActiveSessions: nat,
    maxRoomTTL: nat, maxGrantTTL: nat, emptyGrace: nat, tombstoneTTL: nat, challengeTTL: nat, bindingTTL: nat,
    preauthSourcePackets: Budget, preauthSourceBytes: Budget,
    preauthGlobalPackets: Budget, preauthGlobalBytes: Budget,
    sessionPackets: Budget, sessionBytes: Budget,
    roomPackets: Budget, roomBytes: Budget,
    ingressGlobalPackets: Budget, ingressGlobalBytes: Budget,
    roomFanoutWrites: Budget, roomFanoutBytes: Budget,
    globalFanoutWrites: Budget, globalFanoutBytes: Budget)
  {
    function BudgetOf(n: LimiterName): Budget {
      match n
      case PreauthGlobalPackets => preauthGlobalPackets
      case PreauthGlobalBytes => preauthGlobalBytes
      case IngressGlobalPackets => ingressGlobalPackets
      case IngressGlobalBytes => ingressGlobalBytes
      case FanoutGlobalWrites => globalFanoutWrites
      case FanoutGlobalBytes => globalFanoutBytes
      case SourcePackets(_) => preauthSourcePackets
      case SourceBytes(_) => preauthSourceBytes
      case SessionPackets(_) => sessionPackets
      case SessionBytes(_) => sessionBytes
      case RoomIngressPackets(_) => roomPackets
      case RoomIngressBytes(_) => roomBytes
      case RoomFanoutWrites(_) => roomFanoutWrites
      case RoomFanoutBytes(_) => roomFanoutBytes
    }

    /** A limiter as `rate.NewLimiter` creates it. */
    function New(n: LimiterName): Bucket { BudgetOf(n).Limiter() }

    /** The bounds of a valid configuration that the store relies on. */
    predicate Valid() {
      && 0 < maxOpenRooms <= maxRoomRecords <= 4096
      && 0 < maxRoomCapacity <= 16 && maxRoomCapacity <= maxActiveSessions
      && 0 < maxGrantTTL <= maxRoomTTL && 0 < emptyGrace && 0 < tombstoneTTL
      && 0 < challengeTTL && 0 < bindingTTL
    }
  }

  const HARD_MAX_SOURCES := 4096
  const SOURCE_IDLE_TTL := 60 * SECOND

  /** The source table: when each source was last observed, and all limiters. */
  datatype Gate = Gate(sources: map<SourceKey, int>, buckets: map<LimiterName, Bucket>)

  predicate Idle(lastObserved: int, now: int) { now >= SaturatingAdd(lastObserved, SOURCE_IDLE_TTL) }

  ghost predicate GateOK(g: Gate, limits: Limits) {
    && |g.sources| <= HARD_MAX_SOURCES
    && PreauthGlobalPackets in g.buckets && PreauthGlobalBytes in g.buckets
    && (forall key :: SourcePackets(key) in g.buckets <==> key in g.sources)
    && (forall key :: SourceBytes(key) in g.buckets <==> key in g.sources)
    && (forall n | n in g.buckets :: Configured(g.buckets[n], limits.BudgetOf(n)))
  }

  ghost predicate Configured(b: Bucket, budget: Budget) {
    b.Valid() && b.rate == budget.rate && b.burst == budget.burst
  }

  /** Limiters outside the pre-authentication class are the same in both. */
  ghost predicate SameElsewhere(g: Gate, g': Gate) {
    forall n | !IsPreauth(n) :: (n in g'.buckets <==> n in g.buckets) && (n in g.buckets ==>
      g'.buckets[n] == g.buckets[n])
  }

  function Forget(g: Gate, key: SourceKey): Gate {
    Gate(g.sources - {key}, g.buckets - {SourcePackets(key), SourceBytes(key)})
  }

  /** A source observed for the first time, with two full limiters. */
  function WithSource(g: Gate, limits: Limits, key: SourceKey, now: int): Gate {
    Gate(g.sources[key := now],
         g.buckets[SourcePackets(key) := limits.New(SourcePackets(key))]
                   [SourceBytes(key) := limits.New(SourceBytes(key))])
  }

  function GlobalCharges(bytes: nat): seq<Charge<LimiterName>> {
    [Charge(PreauthGlobalPackets, 1), Charge(PreauthGlobalBytes, bytes)]
  }

  function SourceCharges(key: SourceKey, bytes: nat): seq<Charge<LimiterName>> {
    [Charge(SourcePackets(key), 1), Charge(SourceBytes(key), bytes)] + GlobalCharges(bytes)
  }

  /** The table after the lazy eviction of one idle source. */
  function Refreshed(g: Gate, key: SourceKey, now: int): Gate {
    if key in g.sources && Idle(g.sources[key], now) then Forget(g, key) else g
  }

  /** `allowAtomic` on the limiters of a gate; false when it refuses (or would panic). */
  ghost function ChargeGate(g: Gate, charges: seq<Charge<LimiterName>>, now: int): (Gate, bool)
    requires Known(g.buckets, charges)
  {
    match AllowAtomic(g.buckets, charges, now)
    case Charged(buckets) => (g.(buckets := buckets), true)
    case _ => (g, false)
  }

  /** Charge one pre-authentication datagram of a known source: even a refused one is an
      observation of the source. */
  ghost function AdmitKnown(g: Gate, key: SourceKey, bytes: nat, now: int): (Gate, bool)
    requires Known(g.buckets, SourceCharges(key, bytes))
  {
    var (g', ok) := ChargeGate(g, SourceCharges(key, bytes), now);
    (g'.(sources := g'.sources[key := now]), ok)
  }

  /** Charge the first datagram of a source: a refused one leaves no trace. */
  ghost function AdmitNew(g: Gate, limits: Limits, key: SourceKey, bytes: nat, now: int): (Gate, bool)
    requires Known(WithSource(g, limits, key, now).buckets, SourceCharges(key, bytes))
  {
    var (g', ok) := ChargeGate(WithSource(g, limits, key, now), SourceCharges(key, bytes), now);
    if ok then (g', true) else (g, false)
  }

  /** Charge one pre-authentication datagram; false means rate limited. */
  ghost function AdmitPreauth(g: Gate, limits: Limits, endpoint: Endpoint, inputBytes: int, now: int): (Gate, bool)
    requires GateOK(g, limits)
  {
    hide GateOK;
    match SourceKeyOf(endpoint)
    case None => (g, false)
    case Some(key) =>
      var bytes := if inputBytes < 0 then 0 else inputBytes;
      var g1 := Refreshed(g, key, now);
      RefreshedOK(g, limits, key, now);
      PreauthKnown(g1, limits, key, bytes, now);
      if key in g1.sources then AdmitKnown(g1, key, bytes, now)
      else if |g1.sources| >= HARD_MAX_SOURCES then (ChargeGate(g1, GlobalCharges(bytes), now).0, false)
      else AdmitNew(g1, limits, key, bytes, now)
  }

  /** The limiters that one datagram is charged to exist. */
  lemma PreauthKnown(g: Gate, limits: Limits, key: SourceKey, bytes: nat, now: int)
    requires GateOK(g, limits)
    ensures Known(g.buckets, GlobalCharges(bytes))
    ensures key in g.sources ==> Known(g.buckets, SourceCharges(key, bytes))
    ensures Known(WithSource(g, limits, key, now).buckets, SourceCharges(key, bytes))
  {
  }

  lemma RefreshedOK(g: Gate, limits: Limits, key: SourceKey, now: int)
    requires GateOK(g, limits)
    ensures GateOK(Refreshed(g, key, now), limits) && SameElsewhere(g, Refreshed(g, key, now))
  {
  }

  lemma ChargedGateOK(g: Gate, limits: Limits, charges: seq<Charge<LimiterName>>, now: int)
    requires (forall n | n in g.buckets :: Configured(g.buckets[n], limits.BudgetOf(n)))
    requires Known(g.buckets, charges) && Distinct(charges)
    ensures !AllowAtomic(g.buckets, charges, now).Panicked?
    ensures var g' := ChargeGate(g, charges, now).0;
      && g'.sources == g.sources && g'.buckets.Keys == g.buckets.Keys
      && (forall n | n in g'.buckets :: Configured(g'.buckets[n], limits.BudgetOf(n)))
      && (forall n | n in g.buckets && !Named(charges, n) :: g'.buckets[n] == g.buckets[n])
  {
    AtomicCharging(g.buckets, charges, now);
    var m' := ChargeGate(g, charges, now).0.buckets;
    forall n | n in m' ensures Configured(m'[n], limits.BudgetOf(n)) {
      if Named(charges, n) {
        var i :| 0 <= i < |charges| && charges[i].limiter == n;
        assert Configured(g.buckets[n], limits.BudgetOf(n));
      }
    }
  }

  lemma ChargeSourceOK(g: Gate, limits: Limits, key: SourceKey, bytes: nat, now: int)
    requires GateOK(g, limits) && key in g.sources
    ensures !AllowAtomic(g.buckets, SourceCharges(key, bytes), now).Panicked?
    ensures var g' := ChargeGate(g, SourceCharges(key, bytes), now).0;
      GateOK(g', limits) && SameElsewhere(g, g') && g'.sources == g.sources
  {
    ChargedGateOK(g, limits, SourceCharges(key, bytes), now);
  }

  lemma ChargeGlobalOK(g: Gate, limits: Limits, bytes: nat, now: int)
    requires GateOK(g, limits)
    ensures !AllowAtomic(g.buckets, GlobalCharges(bytes), now).Panicked?
    ensures var g' := ChargeGate(g, GlobalCharges(bytes), now).0;
      GateOK(g', limits) && SameElsewhere(g, g') && g'.sources == g.sources
  {
    ChargedGateOK(g, limits, GlobalCharges(bytes), now);
  }

  lemma WithSourceOK(g: Gate, limits: Limits, key: SourceKey, now: int)
    requires GateOK(g, limits) && key !in g.sources && |g.sources| < HARD_MAX_SOURCES
    ensures GateOK(WithSource(g, limits, key, now), limits) && SameElsewhere(g, WithSource(g, limits, key, now))
  {
  }

  lemma AdmitNewOK(g: Gate, limits: Limits, key: SourceKey, bytes: nat, now: int)
    requires GateOK(g, limits) && key !in g.sources && |g.sources| < HARD_MAX_SOURCES
    ensures GateOK(AdmitNew(g, limits, key, bytes, now).0, limits)
      && SameElsewhere(g, AdmitNew(g, limits, key, bytes, now).0)
  {
    WithSourceOK(g, limits, key, now);
    ChargeSourceOK(WithSource(g, limits, key, now), limits, key, bytes, now);
  }

  lemma AdmitKnownOK(g: Gate, limits: Limits, key: SourceKey, bytes: nat, now: int)
    requires GateOK(g, limits) && key in g.sources
    ensures GateOK(AdmitKnown(g, key, bytes, now).0, limits) && SameElsewhere(g, AdmitKnown(g, key, bytes, now).0)
  {
    ChargeSourceOK(g, limits, key, bytes, now);
    var g' := ChargeGate(g, SourceCharges(key, bytes), now).0;
    assert g'.sources[key := now].Keys == g'.sources.Keys;
    assert |g'.sources[key := now]| == |g'.sources[key := now].Keys| == |g'.sources.Keys|;
  }

  /** Limiters of the pre-authentication class are the same in both. */
  ghost predicate SamePreauth(g: Gate, g': Gate) {
    && g'.sources == g.sources
    && forall n | IsPreauth(n) ::
       (n in g'.buckets <==> n in g.buckets) && (n in g.buckets ==> g'.buckets[n] == g.buckets[n])
  }

  ghost predicate Authenticated(charges: seq<Charge<LimiterName>>) {
    forall i | 0 <= i < |charges| :: !IsPreauth(charges[i].limiter)
  }

  /** Charging authenticated limiters leaves the pre-authentication class alone. */
  lemma ChargeAuthenticatedOK(g: Gate, limits: Limits, charges: seq<Charge<LimiterName>>, now: int)
    requires GateOK(g, limits) && Known(g.buckets, charges) && Distinct(charges) && Authenticated(charges)
    ensures !AllowAtomic(g.buckets, charges, now).Panicked?
    ensures var g' := ChargeGate(g, charges, now).0;
      GateOK(g', limits) && SamePreauth(g, g') && g'.buckets.Keys == g.buckets.Keys
  {
    ChargedGateOK(g, limits, charges, now);
    hide ChargeGate, AllowAtomic;
  }

  /** Pre-authentication charging keeps the table bounded and every source with exactly its
      two limiters, and touches no limiter of an authenticated session, room or fan-out. */
  lemma PreauthKeepsGate(g: Gate, limits: Limits, endpoint: Endpoint, inputBytes: int, now: int)
    requires GateOK(g, limits)
    ensures var g' := AdmitPreauth(g, limits, endpoint, inputBytes, now).0;
      GateOK(g', limits) && SameElsewhere(g, g')
  {
    if SourceKeyOf(endpoint).Some? {
      var key := SourceKeyOf(endpoint).value;
      var bytes := if inputBytes < 0 then 0 else inputBytes;
      RefreshedOK(g, limits, key, now);
      var g1 := Refreshed(g, key, now);
      hide GateOK, ChargeGate, AdmitKnown, AdmitNew, Refreshed;
      if key in g1.sources {
        AdmitKnownOK(g1, limits, key, bytes, now);
      } else if |g1.sources| >= HARD_MAX_SOURCES {
        ChargeGlobalOK(g1, limits, bytes, now);
      } else {
        AdmitNewOK(g1, limits, key, bytes, now);
      }
    }
  }

  /** The table without some sources and their limiters. */
  function ForgetAll(g: Gate, keys: set<SourceKey>): Gate {
    Gate(g.sources - keys, map n | n in g.buckets && !((n.SourcePackets? || n.SourceBytes?) && n.key in keys) ::
      g.buckets[n])
  }

  function IdleSources(g: Gate, now: int): set<SourceKey> { set key | key in g.sources && Idle(g.sources[key], now) }

  /** The periodic sweep of idle sources. */
  function SweepSources(g: Gate, now: int): Gate { ForgetAll(g, IdleSources(g, now)) }

  lemma SweepKeepsGate(g: Gate, limits: Limits, now: int)
    requires GateOK(g, limits)
    ensures GateOK(SweepSources(g, now), limits) && SameElsewhere(g, SweepSources(g, now))
  {
    var g' := SweepSources(g, now);
    assert |g'.sources.Keys| <= |g.sources.Keys| by {
      SubsetSize(g'.sources.Keys, g.sources.Keys);
    }
  }

  lemma SubsetSize<T>(a: set<T>, b: set<T>)
    requires a <= b
    ensures |a| <= |b|
  {
    assert b == a + (b - a);
  }

  // ---------------------------------------------------------------- what an admission charges

  /** The limiter a source is charged to, remembered or new. */
  function Held(g: Gate, limits: Limits, n: LimiterName): Bucket {
    if n in g.buckets then g.buckets[n] else limits.New(n)
  }

  /** The charge was taken at `now` from the limiter of `g`, or from the full one of a source
      that is new to `g`. */
  ghost predicate Taken(g: Gate, g': Gate, limits: Limits, charge: Charge<LimiterName>, now: int) {
    var b := Held(g, limits, charge.limiter);
    && Affords(b, charge.cost, now) && charge.limiter in g'.buckets
    && g'.buckets[charge.limiter] == b.(tokens := TokensAt(b, now) - charge.cost * SCALE, last := now)
  }

  ghost predicate AllTaken(g: Gate, g': Gate, limits: Limits, charges: seq<Charge<LimiterName>>, now: int) {
    forall i | 0 <= i < |charges| :: Taken(g, g', limits, charges[i], now)
  }

  /** Limiters that no charge names are as they were. */
  ghost predicate Spared(g: Gate, g': Gate, charges: seq<Charge<LimiterName>>) {
    forall n | !Named(charges, n) ::
      (n in g'.buckets <==> n in g.buckets) && (n in g.buckets ==> g'.buckets[n] == g.buckets[n])
  }

  ghost predicate HasPlace(g: Gate, key: SourceKey) { key in g.sources || |g.sources| < HARD_MAX_SOURCES }

  /** The gate after the admission of a datagram of `key` was charged, or refused. */
  ghost predicate Admitted(g: Gate, g': Gate, limits: Limits, key: SourceKey, bytes: nat, ok: bool, now: int) {
    var charges := SourceCharges(key, bytes);
    && (ok <==> HasPlace(g, key) && forall i | 0 <= i < |charges| ::
       Affords(Held(g, limits, charges[i].limiter), charges[i].cost, now))
    && Spared(g, g', charges)
    && (ok ==> AllTaken(g, g', limits, charges, now) && g'.sources == g.sources[key := now])
    && (!ok && HasPlace(g, key) ==>
          g'.buckets == g.buckets && g'.sources == if key in g.sources then g.sources[key := now] else g.sources)
    && (!ok && !HasPlace(g, key) ==>
          && g'.sources == g.sources && SourcePackets(key) !in g'.buckets && SourceBytes(key) !in g'.buckets
          && if forall i | 0 <= i < |GlobalCharges(bytes)| ::
               Affords(Held(g, limits, GlobalCharges(bytes)[i].limiter), GlobalCharges(bytes)[i].cost, now)
             then AllTaken(g, g', limits, GlobalCharges(bytes), now) else g' == g)
  }

  lemma ChargeGateTakes(g: Gate, limits: Limits, charges: seq<Charge<LimiterName>>, now: int)
    requires Known(g.buckets, charges) && Distinct(charges) && forall n | n in g.buckets :: g.buckets[n].Valid()
    ensures var (g', ok) := ChargeGate(g, charges, now);
      && (ok <==> forall i | 0 <= i < |charges| :: Affords(Held(g, limits, charges[i].limiter), charges[i].cost, now))
      && g'.sources == g.sources && (if ok then AllTaken(g, g', limits, charges, now) else g' == g)
         && Spared(g, g', charges)
  {
    hide TokensAt, AllowAtomic;
    AtomicCharging(g.buckets, charges, now);
  }

  lemma KnownExactly(g: Gate, limits: Limits, key: SourceKey, bytes: nat, now: int)
    requires GateOK(g, limits) && key in g.sources
    ensures var (g', ok) := AdmitKnown(g, key, bytes, now); Admitted(g, g', limits, key, bytes, ok, now)
  {
    ChargeGateTakes(g, limits, SourceCharges(key, bytes), now);
    hide ChargeGate, Taken, SourceCharges;
  }

  lemma NewExactly(g: Gate, limits: Limits, key: SourceKey, bytes: nat, now: int)
    requires GateOK(g, limits) && key !in g.sources && |g.sources| < HARD_MAX_SOURCES
    ensures Known(WithSource(g, limits, key, now).buckets, SourceCharges(key, bytes))
    ensures var (g', ok) := AdmitNew(g, limits, key, bytes, now); Admitted(g, g', limits, key, bytes, ok, now)
  {
    var staged := WithSource(g, limits, key, now);
    WithSourceOK(g, limits, key, now);
    ChargeGateTakes(staged, limits, SourceCharges(key, bytes), now);
    StagedAgrees(g, limits, key, bytes, now);
    var (g', ok) := ChargeGate(staged, SourceCharges(key, bytes), now);
    if ok { SpareThrough(g, staged, g', SourceCharges(key, bytes)); }
    hide ChargeGate, SourceCharges, WithSource, Spared, GateOK;
  }

  /** Staging a new source shows in its own two limiters only, and does not change what is held. */
  lemma StagedAgrees(g: Gate, limits: Limits, key: SourceKey, bytes: nat, now: int)
    requires key !in g.sources && SourcePackets(key) !in g.buckets && SourceBytes(key) !in g.buckets
    ensures var staged := WithSource(g, limits, key, now);
      && Spared(g, staged, SourceCharges(key, bytes)) && Spared(g, g, SourceCharges(key, bytes))
         && staged.sources == g.sources[key := now]
      && forall n :: Held(staged, limits, n) == Held(g, limits, n)
  {
    NamedCharges(key, bytes);
    hide Named, SourceCharges;
  }

  lemma NamedCharges(key: SourceKey, bytes: nat)
    ensures Named(SourceCharges(key, bytes), SourcePackets(key)) && Named(SourceCharges(key, bytes), SourceBytes(key))
    ensures Named(SourceCharges(key, bytes), PreauthGlobalPackets)
      && Named(SourceCharges(key, bytes), PreauthGlobalBytes)
  {
    var charges := SourceCharges(key, bytes);
    assert charges[0].limiter == SourcePackets(key) && charges[1].limiter == SourceBytes(key);
    assert charges[2].limiter == PreauthGlobalPackets && charges[3].limiter == PreauthGlobalBytes;
  }

  lemma SpareThrough(g: Gate, g1: Gate, g2: Gate, charges: seq<Charge<LimiterName>>)
    requires Spared(g, g1, charges) && Spared(g1, g2, charges)
    ensures Spared(g, g2, charges)
  {
    hide Named;
  }

  lemma FullExactly(g: Gate, limits: Limits, key: SourceKey, bytes: nat, now: int)
    requires GateOK(g, limits) && !HasPlace(g, key)
    ensures Known(g.buckets, GlobalCharges(bytes))
    ensures Admitted(g, ChargeGate(g, GlobalCharges(bytes), now).0, limits, key, bytes, false, now)
  {
    ChargeGateTakes(g, limits, GlobalCharges(bytes), now);
    NamedCharges(key, bytes);
    var g' := ChargeGate(g, GlobalCharges(bytes), now).0;
    assert SourcePackets(key) !in g.buckets && SourceBytes(key) !in g.buckets;
    GlobalNamed(bytes);
    forall n | !Named(SourceCharges(key, bytes), n) ensures !Named(GlobalCharges(bytes), n) {}
    hide Named, SourceCharges, GlobalCharges, ChargeGate, Taken;
  }

  lemma GlobalNamed(bytes: nat)
    ensures forall n :: Named(GlobalCharges(bytes), n) <==> n.PreauthGlobalPackets? || n.PreauthGlobalBytes?
  {
    var charges := GlobalCharges(bytes);
    assert charges[0].limiter == PreauthGlobalPackets && charges[1].limiter == PreauthGlobalBytes;
  }

  /** One admission: it passes exactly when the source has a place in the table and all four
      limiters can pay, and then all four are charged; a refusal charges nothing, except that a
      newcomer to a full table is charged to the global limiters alone. No other limiter is
      touched, save that an idle source starts over. */
  lemma PreauthExactly(g: Gate, limits: Limits, endpoint: Endpoint, inputBytes: int, now: int)
    requires GateOK(g, limits)
    ensures var (g', ok) := AdmitPreauth(g, limits, endpoint, inputBytes, now);
      match SourceKeyOf(endpoint)
      case None => !ok && g' == g
      case Some(key) => Admitted(Refreshed(g, key, now), g', limits, key, if inputBytes < 0 then 0
        else inputBytes, ok, now)
  {
    hide GateOK, Admitted, AdmitKnown, AdmitNew, ChargeGate, Idle;
    match SourceKeyOf(endpoint)
    case None =>
    case Some(key) =>
      var bytes := if inputBytes < 0 then 0 else inputBytes;
      var g1 := Refreshed(g, key, now);
      RefreshedOK(g, limits, key, now);
      PreauthKnown(g1, limits, key, bytes, now);
      if key in g1.sources {
        KnownExactly(g1, limits, key, bytes, now);
      } else if |g1.sources| >= HARD_MAX_SOURCES {
        FullExactly(g1, limits, key, bytes, now);
      } else {
        NewExactly(g1, limits, key, bytes, now);
      }
  }
}
