/** Forgetting an idle source cannot be observed: while the table is not full, the bounded
    table gives the answers of a table that forgets nothing. */
module SourceEviction {
  import opened Prelude
  import opened RateLimit
  import opened Admission

  /** A source that has been idle long enough has full limiters again. */
  predicate RefillsWhileIdle(budget: Budget) { budget.rate * 60 >= budget.burst }

  /** However much was taken from a limiter, it is full after the idle time: exactly the
      budgets that refill a burst in that time. */
  lemma IdleLimiterIsFull(budget: Budget)
    ensures RefillsWhileIdle(budget) <==>
      forall b: Bucket, now: int | Configured(b, budget) && now >= b.last + SOURCE_IDLE_TTL ::
        TokensAt(b, now) == budget.burst * SCALE
  {
    if RefillsWhileIdle(budget) {
      forall b: Bucket, now: int | Configured(b, budget) && now >= b.last + SOURCE_IDLE_TTL
        ensures TokensAt(b, now) == budget.burst * SCALE
      {
        FullAfter(b, now);
      }
    } else {
      var empty := Bucket(budget.rate, budget.burst, 0, 0);
      assert budget.rate * SOURCE_IDLE_TTL == budget.rate * 60 * SCALE;
      assert TokensAt(empty, 0 + SOURCE_IDLE_TTL) < budget.burst * SCALE;
    }
  }

  lemma FullAfter(b: Bucket, now: int)
    requires b.rate * 60 >= b.burst && now - b.last >= SOURCE_IDLE_TTL
    ensures TokensAt(b, now) == b.burst * SCALE
  {
    Grows(b.rate, SOURCE_IDLE_TTL, now - b.last);
    assert b.rate * SOURCE_IDLE_TTL == b.rate * 60 * SCALE;
  }

  lemma Grows(rate: nat, x: nat, y: nat)
    requires x <= y
    ensures rate * x <= rate * y
  {
  }

  // ---------------------------------------------------------------- the reference

  /** Admission with a table that has no bound and forgets nothing. */
  ghost function AdmitForever(u: Gate, limits: Limits, endpoint: Endpoint, inputBytes: int, now: int): (Gate, bool)
    requires Complete(u)
  {
    match SourceKeyOf(endpoint)
    case None => (u, false)
    case Some(key) =>
      var bytes := if inputBytes < 0 then 0 else inputBytes;
      if key in u.sources then AdmitKnown(u, key, bytes, now) else AdmitNew(u, limits, key, bytes, now)
  }

  ghost predicate Complete(u: Gate) {
    && PreauthGlobalPackets in u.buckets && PreauthGlobalBytes in u.buckets
    && forall key | key in u.sources :: SourcePackets(key) in u.buckets && SourceBytes(key) in u.buckets
  }

  // ---------------------------------------------------------------- agreement

  /** The two limiters cannot be told apart from `now` on. */
  ghost predicate Alike(b: Bucket, b': Bucket, now: int) {
    && b.rate == b'.rate && b.burst == b'.burst && b.Valid() && b'.Valid()
    && forall t: int | t >= now :: TokensAt(b, t) == TokensAt(b', t)
  }

  /** The bounded table `g` and the reference `u` agree on every limiter from `now` on. */
  ghost predicate Agree(g: Gate, u: Gate, limits: Limits, now: int) {
    && GateOK(g, limits) && Complete(u)
    && g.sources.Keys <= u.sources.Keys
    && (forall n | IsPreauth(n) :: Alike(Held(g, limits, n), Held(u, limits, n), now))
    && (forall key | key in g.sources :: Observed(g, key, now))
    && (forall key | key !in u.sources :: SourcePackets(key) !in u.buckets && SourceBytes(key) !in u.buckets)
    && (forall n | n in u.buckets :: u.buckets[n].Valid())
  }

  /** A source was observed no earlier than its limiters were last charged. */
  ghost predicate Observed(g: Gate, key: SourceKey, now: int) {
    && key in g.sources && SourcePackets(key) in g.buckets && SourceBytes(key) in g.buckets
    && g.buckets[SourcePackets(key)].last <= g.sources[key] <= now
    && g.buckets[SourceBytes(key)].last <= g.sources[key]
  }

  lemma FullIsAlike(b: Bucket, budget: Budget, now: int)
    requires Configured(b, budget) && TokensAt(b, now) == budget.burst * SCALE && b.last <= now
    ensures Alike(budget.Limiter(), b, now)
  {
    forall t: int | t >= now ensures TokensAt(budget.Limiter(), t) == TokensAt(b, t) {
      Grows(b.rate, now - b.last, t - b.last);
    }
  }

  lemma AlikeTransitive(a: Bucket, b: Bucket, c: Bucket, now: int)
    requires Alike(a, b, now) && Alike(b, c, now)
    ensures Alike(a, c, now)
  {
  }

  lemma AlikeLater(a: Bucket, b: Bucket, now: int, later: int)
    requires Alike(a, b, now) && now <= later
    ensures Alike(a, b, later)
  {
  }

  ghost predicate Budgeted(limits: Limits) {
    RefillsWhileIdle(limits.preauthSourcePackets) && RefillsWhileIdle(limits.preauthSourceBytes)
  }

  lemma IdleIsAlike(g: Gate, u: Gate, limits: Limits, key: SourceKey, n: LimiterName, now: int)
    requires Agree(g, u, limits, now) && Budgeted(limits) && now < MAX_INT64
    requires key in g.sources && Idle(g.sources[key], now) && (n == SourcePackets(key) || n == SourceBytes(key))
    ensures Alike(limits.New(n), Held(u, limits, n), now)
  {
    var b := g.buckets[n];
    assert Observed(g, key, now);
    FullAfter(b, now);
    FullIsAlike(b, limits.BudgetOf(n), now);
    assert Alike(Held(g, limits, n), Held(u, limits, n), now);
    hide Alike;
    AlikeTransitive(limits.New(n), b, Held(u, limits, n), now);
  }

  /** Forgetting one idle source keeps the agreement. */
  lemma ForgetKeepsAgreement(g: Gate, u: Gate, limits: Limits, key: SourceKey, now: int)
    requires Agree(g, u, limits, now) && Budgeted(limits) && now < MAX_INT64
    requires key in g.sources && Idle(g.sources[key], now)
    ensures Agree(Forget(g, key), u, limits, now)
  {
    hide Alike, GateOK, Configured;
    AgreeOK(g, u, limits, now);
    RefreshedOK(g, limits, key, now);
    var g' := Forget(g, key);
    forall n | IsPreauth(n) ensures Alike(Held(g', limits, n), Held(u, limits, n), now) {
      if n == SourcePackets(key) || n == SourceBytes(key) {
        IdleIsAlike(g, u, limits, key, n, now);
      } else {
        assert n in g'.buckets <==> n in g.buckets;
      }
    }
    forall k | k in g'.sources ensures Observed(g', k, now) { assert Observed(g, k, now); }
  }

  lemma AgreeLater(g: Gate, u: Gate, limits: Limits, now: int, later: int)
    requires Agree(g, u, limits, now) && now <= later
    ensures Agree(g, u, limits, later)
  {
    hide Alike, GateOK;
    forall n | IsPreauth(n) ensures Alike(Held(g, limits, n), Held(u, limits, n), later) {
      AlikeLater(Held(g, limits, n), Held(u, limits, n), now, later);
    }
    forall key | key in g.sources ensures Observed(g, key, later) { assert Observed(g, key, now); }
  }

  // ---------------------------------------------------------------- one admission

  /** Charging limiters that cannot be told apart has the same outcome, and leaves limiters
      that cannot be told apart. */
  lemma ChargeAlike(g: Gate, u: Gate, charges: seq<Charge<LimiterName>>, now: int)
    requires Known(g.buckets, charges) && Known(u.buckets, charges) && Distinct(charges)
    requires (forall n | n in g.buckets :: g.buckets[n].Valid()) && (forall n | n in u.buckets :: u.buckets[n].Valid())
    requires forall i | 0 <= i < |charges| :: Alike(g.buckets[charges[i].limiter], u.buckets[charges[i].limiter], now)
    ensures var (g', ok) := ChargeGate(g, charges, now);
      var (u', ok') := ChargeGate(u, charges, now);
      && ok == ok' && ChargedInto(g, g', charges, ok, now) && ChargedInto(u, u', charges, ok, now)
      && (forall i | 0 <= i < |charges| :: Alike(g'.buckets[charges[i].limiter], u'.buckets[charges[i].limiter], now))
  {
    hide TokensAt, AllowAtomic, AllAfford, ChargedInto, Alike;
    AtomicCharging(g.buckets, charges, now);
    AtomicCharging(u.buckets, charges, now);
    AlikeAfford(g, u, charges, now);
    ChargeInto(g, charges, now);
    ChargeInto(u, charges, now);
    var g', u' := ChargeGate(g, charges, now).0, ChargeGate(u, charges, now).0;
    forall i | 0 <= i < |charges| ensures Alike(g'.buckets[charges[i].limiter], u'.buckets[charges[i].limiter], now) {
      if ChargeGate(g, charges, now).1 {
        SpentAlike(g.buckets[charges[i].limiter], u.buckets[charges[i].limiter], charges[i].cost, now);
      }
    }
  }

  lemma SpentAlike(b: Bucket, b': Bucket, cost: nat, now: int)
    requires Alike(b, b', now) && cost * SCALE <= TokensAt(b, now) && cost * SCALE <= TokensAt(b', now)
    ensures Alike(b.(tokens := TokensAt(b, now) - cost * SCALE, last := now),
      b'.(tokens := TokensAt(b', now) - cost * SCALE, last := now), now)
  {
  }

  lemma AlikeAfford(g: Gate, u: Gate, charges: seq<Charge<LimiterName>>, now: int)
    requires Known(g.buckets, charges) && Known(u.buckets, charges)
    requires forall i | 0 <= i < |charges| :: Alike(g.buckets[charges[i].limiter], u.buckets[charges[i].limiter], now)
    ensures AllAfford(g.buckets, charges, now) <==> AllAfford(u.buckets, charges, now)
  {
    hide TokensAt;
    assert forall i | 0 <= i < |charges| :: Affords(g.buckets[charges[i].limiter], charges[i].cost, now) <==>
      Affords(u.buckets[charges[i].limiter], charges[i].cost, now);
  }

  /** The frame of one charging: named limiters are updated at `now`, or nothing is. */
  ghost predicate ChargedInto(g: Gate, g': Gate, charges: seq<Charge<LimiterName>>, ok: bool, now: int) {
    && g'.sources == g.sources && g'.buckets.Keys == g.buckets.Keys
    && (!ok ==> g' == g)
    && (forall n | n in g.buckets && !Named(charges, n) :: g'.buckets[n] == g.buckets[n])
    && (forall n | n in g.buckets :: g'.buckets[n].Valid())
    && (ok ==> forall i | 0 <= i < |charges| ::
       charges[i].limiter in g.buckets && g'.buckets[charges[i].limiter].last == now)
  }

  lemma ChargeInto(g: Gate, charges: seq<Charge<LimiterName>>, now: int)
    requires Known(g.buckets, charges) && Distinct(charges) && (forall n | n in g.buckets :: g.buckets[n].Valid())
    ensures ChargedInto(g, ChargeGate(g, charges, now).0, charges, ChargeGate(g, charges, now).1, now)
  {
    AtomicCharging(g.buckets, charges, now);
    var g' := ChargeGate(g, charges, now).0;
    forall n | n in g.buckets ensures g'.buckets[n].Valid() {
      if Named(charges, n) {
        var i :| 0 <= i < |charges| && charges[i].limiter == n;
      }
    }
  }

  /** The table as it is charged for `key`: with the source's limiters in it. */
  function Staged(g: Gate, limits: Limits, key: SourceKey, now: int): Gate {
    if key in g.sources then g else WithSource(g, limits, key, now)
  }

  /** The table after it was charged, or was not. */
  function Settled(g: Gate, charged: Gate, ok: bool, key: SourceKey, now: int): Gate {
    if key in g.sources then charged.(sources := charged.sources[key := now])
    else if ok then charged
    else g
  }

  lemma AdmitIsSettled(u: Gate, limits: Limits, key: SourceKey, bytes: nat, now: int)
    requires Complete(u)
    ensures Known(Staged(u, limits, key, now).buckets, SourceCharges(key, bytes))
    ensures var (charged, ok) := ChargeGate(Staged(u, limits, key, now), SourceCharges(key, bytes), now);
      (if key in u.sources then AdmitKnown(u, key, bytes, now) else AdmitNew(u, limits, key, bytes, now))
        == (Settled(u, charged, ok, key, now), ok)
  {
    hide ChargeGate;
  }

  lemma StagedHeld(g: Gate, limits: Limits, key: SourceKey, now: int)
    requires Complete(g)
    requires key !in g.sources ==> SourcePackets(key) !in g.buckets && SourceBytes(key) !in g.buckets
    ensures forall n :: Held(Staged(g, limits, key, now), limits, n) == Held(g, limits, n)
    ensures (forall n | n in g.buckets :: g.buckets[n].Valid()) ==>
      forall n | n in Staged(g, limits, key, now).buckets :: Staged(g, limits, key, now).buckets[n].Valid()
  {
  }

  lemma SettledOK(g: Gate, limits: Limits, key: SourceKey, bytes: nat, now: int)
    requires GateOK(g, limits) && (key in g.sources || |g.sources| < HARD_MAX_SOURCES)
    ensures Known(Staged(g, limits, key, now).buckets, SourceCharges(key, bytes))
    ensures var (g1, ok) := ChargeGate(Staged(g, limits, key, now), SourceCharges(key, bytes), now);
      GateOK(Settled(g, g1, ok, key, now), limits)
  {
    if key in g.sources { AdmitKnownOK(g, limits, key, bytes, now); } else { AdmitNewOK(g, limits, key, bytes, now); }
    hide ChargeGate, GateOK;
    GateComplete(g, limits);
    AdmitIsSettled(g, limits, key, bytes, now);
  }

  lemma GateComplete(g: Gate, limits: Limits)
    requires GateOK(g, limits)
    ensures Complete(g)
  {
  }

  predicate Pays(n: LimiterName, key: SourceKey) {
    n == SourcePackets(key) || n == SourceBytes(key) || n == PreauthGlobalPackets || n == PreauthGlobalBytes
  }

  ghost predicate Absent(g: Gate, key: SourceKey) {
    key !in g.sources ==> SourcePackets(key) !in g.buckets && SourceBytes(key) !in g.buckets
  }

  lemma PaysIsNamed(n: LimiterName, key: SourceKey, bytes: nat)
    ensures Named(SourceCharges(key, bytes), n) <==> Pays(n, key)
  {
    var charges := SourceCharges(key, bytes);
    assert charges[0].limiter == SourcePackets(key) && charges[1].limiter == SourceBytes(key);
    assert charges[2].limiter == PreauthGlobalPackets && charges[3].limiter == PreauthGlobalBytes;
  }

  /** One table after one admission, limiter by limiter and source by source. */
  ghost predicate SettledAs(g: Gate, g': Gate, g1: Gate, limits: Limits, key: SourceKey, ok: bool, now: int) {
    && (forall n :: Held(g', limits, n) == if ok && Pays(n, key) then Held(g1, limits, n) else Held(g, limits, n))
    && (ok ==> forall n | Pays(n, key) :: n in g'.buckets && g'.buckets[n].last == now)
    && g'.sources == (if ok || key in g.sources then g.sources[key := now] else g.sources)
    && (forall n | !Pays(n, key) || !ok :: n in g'.buckets <==> n in g.buckets)
    && (forall n | n in g'.buckets :: g'.buckets[n].Valid())
  }

  lemma SettledMeans(g: Gate, limits: Limits, key: SourceKey, bytes: nat, now: int)
    requires Complete(g) && Absent(g, key) && (forall n | n in g.buckets :: g.buckets[n].Valid())
    ensures Known(Staged(g, limits, key, now).buckets, SourceCharges(key, bytes))
    ensures var (g1, ok) := ChargeGate(Staged(g, limits, key, now), SourceCharges(key, bytes), now);
      SettledAs(g, Settled(g, g1, ok, key, now), g1, limits, key, ok, now)
  {
    var gs, charges := Staged(g, limits, key, now), SourceCharges(key, bytes);
    StagedHeld(g, limits, key, now);
    ChargeInto(gs, charges, now);
    var (g1, ok) := ChargeGate(gs, charges, now);
    hide ChargeGate;
    forall n ensures Named(charges, n) <==> Pays(n, key) { PaysIsNamed(n, key, bytes); }
    hide SourceCharges, Named;
    SettledFrame(g, gs, g1, limits, key, charges, ok, now);
  }

  lemma SettledFrame(g: Gate, gs: Gate, g1: Gate, limits: Limits, key: SourceKey, charges: seq<Charge<LimiterName>>,
      ok: bool, now: int)
    requires Complete(g) && Absent(g, key) && (forall n | n in g.buckets :: g.buckets[n].Valid())
      && gs == Staged(g, limits, key, now)
    requires ChargedInto(gs, g1, charges, ok, now) && forall n :: Named(charges, n) <==> Pays(n, key)
    ensures SettledAs(g, Settled(g, g1, ok, key, now), g1, limits, key, ok, now)
  {
    hide Named;
    var g' := Settled(g, g1, ok, key, now);
    forall n | ok && Pays(n, key) ensures n in g1.buckets && g1.buckets[n].last == now {
      assert Named(charges, n);
      NamedAt(charges, n);
    }
  }

  lemma NamedAt(charges: seq<Charge<LimiterName>>, n: LimiterName)
    requires Named(charges, n)
    ensures exists i :: 0 <= i < |charges| && charges[i].limiter == n
  {
  }

  /** The four limiters that a datagram is charged to are alike in both tables. */
  lemma StagedAlike(g: Gate, u: Gate, limits: Limits, key: SourceKey, bytes: nat, now: int)
    requires Complete(g) && Complete(u) && Absent(g, key) && Absent(u, key)
    requires (forall n | n in g.buckets :: g.buckets[n].Valid()) && (forall n | n in u.buckets :: u.buckets[n].Valid())
    requires forall n | IsPreauth(n) :: Alike(Held(g, limits, n), Held(u, limits, n), now)
    ensures var gs, us, charges := Staged(g, limits, key, now), Staged(u, limits, key, now), SourceCharges(key, bytes);
      && Known(gs.buckets, charges) && Known(us.buckets, charges) && Distinct(charges)
      && (forall n | n in gs.buckets :: gs.buckets[n].Valid()) && (forall n | n in us.buckets :: us.buckets[n].Valid())
      && forall i | 0 <= i < |charges| :: Alike(gs.buckets[charges[i].limiter], us.buckets[charges[i].limiter], now)
  {
    hide Alike;
    var gs, us, charges := Staged(g, limits, key, now), Staged(u, limits, key, now), SourceCharges(key, bytes);
    StagedHeld(g, limits, key, now);
    StagedHeld(u, limits, key, now);
    forall i | 0 <= i < |charges|
      ensures charges[i].limiter in gs.buckets && charges[i].limiter in us.buckets
      ensures Alike(gs.buckets[charges[i].limiter], us.buckets[charges[i].limiter], now)
    {
      var n := charges[i].limiter;
      assert IsPreauth(n) && Held(gs, limits, n) == gs.buckets[n] && Held(us, limits, n) == us.buckets[n];
    }
  }

  /** A source among others is admitted alike by both tables. */
  lemma ChargeSourceAgrees(g: Gate, u: Gate, limits: Limits, key: SourceKey, bytes: nat, now: int)
    requires Agree(g, u, limits, now) && (key in g.sources || |g.sources| < HARD_MAX_SOURCES)
    ensures Known(Staged(g, limits, key, now).buckets, SourceCharges(key, bytes))
    ensures Known(Staged(u, limits, key, now).buckets, SourceCharges(key, bytes))
    ensures var (g1, ok) := ChargeGate(Staged(g, limits, key, now), SourceCharges(key, bytes), now);
      var (u1, ok') := ChargeGate(Staged(u, limits, key, now), SourceCharges(key, bytes), now);
      ok == ok' && Agree(Settled(g, g1, ok, key, now), Settled(u, u1, ok', key, now), limits, now)
  {
    hide Alike, ChargeGate, GateOK, Agree;
    var gs, us, charges := Staged(g, limits, key, now), Staged(u, limits, key, now), SourceCharges(key, bytes);
    AgreeMeans(g, u, limits, key, now);
    StagedAlike(g, u, limits, key, bytes, now);
    hide Staged;
    ChargeAlike(gs, us, charges, now);
    SettledOK(g, limits, key, bytes, now);
    SettledMeans(g, limits, key, bytes, now);
    SettledMeans(u, limits, key, bytes, now);
    var (g1, ok) := ChargeGate(gs, charges, now);
    var u1 := ChargeGate(us, charges, now).0;
    forall n | Pays(n, key) ensures Alike(Held(g1, limits, n), Held(u1, limits, n), now) {
      PaysIsNamed(n, key, bytes);
      NamedAt(charges, n);
    }
    SettledAgree(g, u, g1, u1, limits, key, ok, now);
  }

  lemma AgreeMeans(g: Gate, u: Gate, limits: Limits, key: SourceKey, now: int)
    requires Agree(g, u, limits, now)
    ensures GateOK(g, limits) && Complete(g) && Complete(u) && Absent(g, key) && Absent(u, key)
    ensures (forall n | n in g.buckets :: g.buckets[n].Valid()) && (forall n | n in u.buckets :: u.buckets[n].Valid())
    ensures forall n | IsPreauth(n) :: Alike(Held(g, limits, n), Held(u, limits, n), now)
  {
    hide Alike;
  }

  lemma SettledAgree(g: Gate, u: Gate, g1: Gate, u1: Gate, limits: Limits, key: SourceKey, ok: bool, now: int)
    requires Agree(g, u, limits, now) && GateOK(Settled(g, g1, ok, key, now), limits)
    requires SettledAs(g, Settled(g, g1, ok, key, now), g1, limits, key, ok, now)
    requires SettledAs(u, Settled(u, u1, ok, key, now), u1, limits, key, ok, now)
    requires forall n | Pays(n, key) :: Alike(Held(g1, limits, n), Held(u1, limits, n), now)
    ensures Agree(Settled(g, g1, ok, key, now), Settled(u, u1, ok, key, now), limits, now)
  {
    hide GateOK, Alike, Settled, Observed;
    var g', u' := Settled(g, g1, ok, key, now), Settled(u, u1, ok, key, now);
    hide SettledAs;
    SettledAlike(g, u, g', u', g1, u1, limits, key, ok, now);
    SettledObserved(g, g', g1, limits, key, ok, now);
    SettledComplete(u, u', u1, limits, key, ok, now);
    SettledKeys(g, u, g', u', g1, u1, limits, key, ok, now);
  }

  lemma SettledAlike(g: Gate, u: Gate, g': Gate, u': Gate, g1: Gate, u1: Gate, limits: Limits, key: SourceKey, ok: bool,
      now: int)
    requires SettledAs(g, g', g1, limits, key, ok, now) && SettledAs(u, u', u1, limits, key, ok, now)
    requires forall n | Pays(n, key) :: Alike(Held(g1, limits, n), Held(u1, limits, n), now)
    requires forall n | IsPreauth(n) :: Alike(Held(g, limits, n), Held(u, limits, n), now)
    ensures forall n | IsPreauth(n) :: Alike(Held(g', limits, n), Held(u', limits, n), now)
  {
    hide Alike, Held;
    forall n | IsPreauth(n) ensures Alike(Held(g', limits, n), Held(u', limits, n), now) {
      assert Alike(Held(g, limits, n), Held(u, limits, n), now);
    }
  }

  lemma SettledObserved(g: Gate, g': Gate, g1: Gate, limits: Limits, key: SourceKey, ok: bool, now: int)
    requires SettledAs(g, g', g1, limits, key, ok, now) && forall k | k in g.sources :: Observed(g, k, now)
    ensures forall k | k in g'.sources :: Observed(g', k, now)
  {
    forall k | k in g'.sources ensures Observed(g', k, now) {
      if k in g.sources {
        assert Observed(g, k, now);
        assert Held(g', limits, SourcePackets(k)) == g'.buckets[SourcePackets(k)];
        assert Held(g', limits, SourceBytes(k)) == g'.buckets[SourceBytes(k)];
      }
    }
  }

  lemma SettledComplete(u: Gate, u': Gate, u1: Gate, limits: Limits, key: SourceKey, ok: bool, now: int)
    requires SettledAs(u, u', u1, limits, key, ok, now) && Complete(u) && forall k | k !in u.sources :: Absent(u, k)
    ensures Complete(u') && (forall k | k !in u'.sources :: Absent(u', k)) && forall n | n in u'.buckets ::
      u'.buckets[n].Valid()
  {
    hide Held;
  }

  lemma SettledKeys(g: Gate, u: Gate, g': Gate, u': Gate, g1: Gate, u1: Gate, limits: Limits, key: SourceKey, ok: bool,
      now: int)
    requires SettledAs(g, g', g1, limits, key, ok, now) && SettledAs(u, u', u1, limits, key, ok, now)
      && g.sources.Keys <= u.sources.Keys
    ensures g'.sources.Keys <= u'.sources.Keys
  {
    hide Held;
  }

  // ---------------------------------------------------------------- runs

  lemma AdmitAgrees(g: Gate, u: Gate, limits: Limits, endpoint: Endpoint, inputBytes: int, now: int)
    requires Agree(g, u, limits, now) && Budgeted(limits) && now < MAX_INT64 && HasRoomFor(g, endpoint, now)
    ensures GateOK(g, limits) && Complete(u)
    ensures AdmitPreauth(g, limits, endpoint, inputBytes, now).1 == AdmitForever(u, limits, endpoint, inputBytes, now).1
    ensures Agree(AdmitPreauth(g, limits, endpoint, inputBytes, now).0,
      AdmitForever(u, limits, endpoint, inputBytes, now).0, limits, now)
  {
    hide Agree, GateOK, ChargeGate, AdmitKnown, AdmitNew, Alike;
    AgreeOK(g, u, limits, now);
    if SourceKeyOf(endpoint).Some? {
      var key := SourceKeyOf(endpoint).value;
      var bytes := if inputBytes < 0 then 0 else inputBytes;
      var g1 := Refreshed(g, key, now);
      RefreshedOK(g, limits, key, now);
      if key in g.sources && Idle(g.sources[key], now) { ForgetKeepsAgreement(g, u, limits, key, now); }
      GateComplete(g1, limits);
      ChargeSourceAgrees(g1, u, limits, key, bytes, now);
      AdmitIsSettled(g1, limits, key, bytes, now);
      AdmitIsSettled(u, limits, key, bytes, now);
    }
  }

  lemma AgreeOK(g: Gate, u: Gate, limits: Limits, now: int)
    requires Agree(g, u, limits, now)
    ensures GateOK(g, limits) && Complete(u)
  {
  }

  /** The table would not have to turn the source away. */
  predicate HasRoomFor(g: Gate, endpoint: Endpoint, now: int) {
    SourceKeyOf(endpoint).Some? ==>
      var g1 := Refreshed(g, SourceKeyOf(endpoint).value, now);
      SourceKeyOf(endpoint).value in g1.sources || |g1.sources| < HARD_MAX_SOURCES
  }

  datatype Event = Datagram(endpoint: Endpoint, inputBytes: int, time: int) | Sweep(time: int)

  /** The gate and the answers along a run of the bounded table. */
  ghost function Bounded(g: Gate, limits: Limits, events: seq<Event>): seq<bool>
    requires GateOK(g, limits)
    decreases |events|
  {
    if events == [] then []
    else match events[0]
      case Datagram(endpoint, inputBytes, now) =>
        var (g', ok) := AdmitPreauth(g, limits, endpoint, inputBytes, now);
        PreauthKeepsGate(g, limits, endpoint, inputBytes, now);
        [ok] + Bounded(g', limits, events[1..])
      case Sweep(now) =>
        SweepKeepsGate(g, limits, now);
        Bounded(SweepSources(g, now), limits, events[1..])
  }

  /** The answers of the reference; it ignores sweeps. */
  ghost function Unbounded(u: Gate, limits: Limits, events: seq<Event>): seq<bool>
    requires Complete(u)
    decreases |events|
  {
    if events == [] then []
    else match events[0]
      case Datagram(endpoint, inputBytes, now) =>
        var (u', ok) := AdmitForever(u, limits, endpoint, inputBytes, now);
        ForeverComplete(u, limits, endpoint, inputBytes, now);
        [ok] + Unbounded(u', limits, events[1..])
      case Sweep(_) => Unbounded(u, limits, events[1..])
  }

  lemma ForeverComplete(u: Gate, limits: Limits, endpoint: Endpoint, inputBytes: int, now: int)
    requires Complete(u)
    ensures Complete(AdmitForever(u, limits, endpoint, inputBytes, now).0)
  {
    if SourceKeyOf(endpoint).Some? {
      var key := SourceKeyOf(endpoint).value;
      var bytes := if inputBytes < 0 then 0 else inputBytes;
      AdmitIsSettled(u, limits, key, bytes, now);
      ChargeKeepsKeys(Staged(u, limits, key, now), SourceCharges(key, bytes), now);
      hide ChargeGate;
    }
  }

  lemma {:induction false} ChargeEachKeys(m: map<LimiterName, Bucket>, charges: seq<Charge<LimiterName>>, now: int)
    requires Known(m, charges) && ChargeEach(m, charges, now).Some?
    ensures ChargeEach(m, charges, now).value.Keys == m.Keys
    decreases |charges|
  {
    if charges != [] {
      var m1 := m[charges[0].limiter := AllowN(m[charges[0].limiter], now, charges[0].cost).0];
      assert m1.Keys == m.Keys;
      ChargeEachKeys(m1, charges[1..], now);
    }
  }

  lemma ChargeKeepsKeys(g: Gate, charges: seq<Charge<LimiterName>>, now: int)
    requires Known(g.buckets, charges)
    ensures ChargeGate(g, charges, now).0.buckets.Keys == g.buckets.Keys
      && ChargeGate(g, charges, now).0.sources == g.sources
  {
    if ChargeEach(g.buckets, charges, now).Some? { ChargeEachKeys(g.buckets, charges, now); }
  }

  /** Time does not go back along the run, the clock has not run out, and every datagram finds
      the table with room for its source. */
  ghost predicate Roomy(g: Gate, limits: Limits, events: seq<Event>, since: int)
    requires GateOK(g, limits)
    decreases |events|
  {
    events == [] ||
    (&& since <= events[0].time < MAX_INT64
     && match events[0]
        case Datagram(endpoint, inputBytes, now) =>
          && HasRoomFor(g, endpoint, now)
          && (PreauthKeepsGate(g, limits, endpoint, inputBytes, now);
              Roomy(AdmitPreauth(g, limits, endpoint, inputBytes, now).0, limits, events[1..], now))
        case Sweep(now) =>
          SweepKeepsGate(g, limits, now);
          Roomy(SweepSources(g, now), limits, events[1..], now))
  }

  lemma SweepAgrees(g: Gate, u: Gate, limits: Limits, now: int)
    requires Agree(g, u, limits, now) && Budgeted(limits) && now < MAX_INT64
    ensures Agree(SweepSources(g, now), u, limits, now)
  {
    AgreeOK(g, u, limits, now);
    SweepKeepsGate(g, limits, now);
    hide Alike, GateOK, Observed;
    var g' := SweepSources(g, now);
    forall n | IsPreauth(n) ensures Alike(Held(g', limits, n), Held(u, limits, n), now) {
      if (n.SourcePackets? || n.SourceBytes?) && n.key in IdleSources(g, now) {
        ForgetKeepsAgreement(g, u, limits, n.key, now);
        assert Held(Forget(g, n.key), limits, n) == limits.New(n) == Held(g', limits, n);
      } else {
        assert n in g'.buckets <==> n in g.buckets;
      }
    }
    SweepObserved(g, now);
  }

  lemma SweepObserved(g: Gate, now: int)
    requires forall k | k in g.sources :: Observed(g, k, now)
    ensures forall k | k in SweepSources(g, now).sources :: Observed(SweepSources(g, now), k, now)
  {
    forall k | k in SweepSources(g, now).sources ensures Observed(SweepSources(g, now), k, now) {
      assert Observed(g, k, now);
    }
  }

  lemma {:induction false} RunsAgree(g: Gate, u: Gate, limits: Limits, events: seq<Event>, since: int)
    requires Agree(g, u, limits, since) && Budgeted(limits)
    requires GateOK(g, limits) && Complete(u) && Roomy(g, limits, events, since)
    ensures Bounded(g, limits, events) == Unbounded(u, limits, events)
    decreases |events|
  {
    hide Agree, GateOK, AdmitPreauth, AdmitForever, SweepSources, SameElsewhere, Complete, HasRoomFor;
    if events != [] {
      AgreeLater(g, u, limits, since, events[0].time);
      match events[0] {
        case Datagram(endpoint, inputBytes, now) =>
          AdmitAgrees(g, u, limits, endpoint, inputBytes, now);
          PreauthKeepsGate(g, limits, endpoint, inputBytes, now);
          ForeverComplete(u, limits, endpoint, inputBytes, now);
          RunsAgree(AdmitPreauth(g, limits, endpoint, inputBytes, now).0,
            AdmitForever(u, limits, endpoint, inputBytes, now).0, limits, events[1..], now);
        case Sweep(now) =>
          SweepAgrees(g, u, limits, now);
          SweepKeepsGate(g, limits, now);
          RunsAgree(SweepSources(g, now), u, limits, events[1..], now);
      }
    }
  }

  /** From a new store, along every run that never fills the table: lazy and swept eviction of
      idle sources change no answer. */
  lemma EvictionIsUnobservable(limits: Limits, g: Gate, events: seq<Event>, since: int)
    requires Budgeted(limits) && GateOK(g, limits) && g.sources == map[] && Roomy(g, limits, events, since)
    ensures Complete(g) && Bounded(g, limits, events) == Unbounded(g, limits, events)
  {
    GateComplete(g, limits);
    EmptyAgrees(g, limits, since);
    RunsAgree(g, g, limits, events, since);
  }

  lemma EmptyAgrees(g: Gate, limits: Limits, now: int)
    requires GateOK(g, limits) && g.sources == map[]
    ensures Agree(g, g, limits, now)
  {
    forall n | IsPreauth(n) ensures Alike(Held(g, limits, n), Held(g, limits, n), now) {
      if n in g.buckets { assert Configured(g.buckets[n], limits.BudgetOf(n)); }
    }
  }
}
