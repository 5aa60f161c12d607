/** Token buckets, and the all-or-nothing charging of several of them. A bucket is exact:
    tokens are scaled by 1e9 so that a rate per second refills whole units per nanosecond. */
module RateLimit {
  import opened Prelude

  const SCALE: nat := 1_000_000_000

  datatype Bucket = Bucket(rate: nat, burst: nat, tokens: nat, last: int) {
    predicate Valid() { tokens <= burst * SCALE }
  }

  /** A full bucket. The instant of its last update is irrelevant while it is full. */
  function NewLimiter(rate: nat, burst: nat): Bucket {
    Bucket(rate, burst, burst * SCALE, 0)
  }

  function Elapsed(b: Bucket, now: int): nat {
    if now > b.last then now - b.last else 0
  }

  function TokensAt(b: Bucket, now: int): nat {
    Min(b.burst * SCALE, b.tokens + b.rate * Elapsed(b, now))
  }

  predicate Affords(b: Bucket, cost: nat, now: int) {
    cost <= b.burst && cost * SCALE <= TokensAt(b, now)
  }

  /** `AllowN`: a refused request leaves the bucket as it was. */
  function AllowN(b: Bucket, now: int, cost: nat): (Bucket, bool) {
    if Affords(b, cost, now) then (b.(tokens := TokensAt(b, now) - cost * SCALE, last := now), true)
    else (b, false)
  }

  // ---------------------------------------------------------------- one bucket over a run

  datatype Request = Request(time: int, cost: nat)

  /** The cost a bucket admits over a run of requests. */
  function Admitted(b: Bucket, requests: seq<Request>): nat
    decreases |requests|
  {
    if requests == [] then 0
    else
      var (b', ok) := AllowN(b, requests[0].time, requests[0].cost);
      (if ok then requests[0].cost else 0) + Admitted(b', requests[1..])
  }

  /** The bucket after a run of requests. */
  function After(b: Bucket, requests: seq<Request>): Bucket
    decreases |requests|
  {
    if requests == [] then b
    else After(AllowN(b, requests[0].time, requests[0].cost).0, requests[1..])
  }

  ghost predicate Ordered(requests: seq<Request>, from: int, to: int) {
    && (forall i | 0 <= i < |requests| :: from <= requests[i].time <= to)
    && (forall i, j | 0 <= i < j < |requests| :: requests[i].time <= requests[j].time)
  }

  lemma Distribute(rate: nat, x: nat, y: nat)
    ensures rate * (x + y) == rate * x + rate * y
    ensures rate * x >= 0
  {
  }

  lemma RefillsAtRate(b: Bucket, s: int, t: int)
    requires b.Valid() && b.last <= s <= t
    ensures TokensAt(b, s) <= TokensAt(b, t) <= TokensAt(b, s) + b.rate * (t - s)
  {
    Distribute(b.rate, s - b.last, t - s);
    Distribute(b.rate, t - s, 0);
  }

  lemma AllowNSpends(b: Bucket, now: int, cost: nat)
    requires b.Valid()
    ensures var (b', ok) := AllowN(b, now, cost);
      && b'.Valid() && b'.rate == b.rate
      && TokensAt(b', now) == TokensAt(b, now) - (if ok then cost * SCALE else 0)
  {
  }

  lemma {:induction false} AdmittedWithinTokens(b: Bucket, requests: seq<Request>, s: int, t: int)
    requires b.Valid() && b.last <= s <= t && Ordered(requests, s, t)
    ensures Admitted(b, requests) * SCALE <= TokensAt(b, s) + b.rate * (t - s)
    decreases |requests|
  {
    if requests != [] {
      var u, cost := requests[0].time, requests[0].cost;
      var (b', ok) := AllowN(b, u, cost);
      hide AllowN, TokensAt;
      RefillsAtRate(b, s, u);
      Distribute(b.rate, u - s, t - u);
      AdmittedWithinTokens(b', requests[1..], u, t);
      AllowNSpends(b, u, cost);
    }
  }

  lemma {:induction false} AfterIsValid(b: Bucket, requests: seq<Request>, from: int, to: int)
    requires b.Valid() && b.last <= from && Ordered(requests, from, to)
    ensures After(b, requests).Valid() && After(b, requests).rate == b.rate && After(b, requests).burst == b.burst
    ensures from <= to ==> After(b, requests).last <= to
    decreases |requests|
  {
    if requests != [] {
      AfterIsValid(AllowN(b, requests[0].time, requests[0].cost).0, requests[1..], requests[0].time, to);
    }
  }

  /** Whatever happened before `s`, the cost admitted in [s, t] is at most
      burst + rate * (t - s). */
  lemma AdmittedInWindow(b: Bucket, earlier: seq<Request>, from: int, window: seq<Request>, s: int, t: int)
    requires b.Valid() && b.last <= from <= s <= t
    requires Ordered(earlier, from, s) && Ordered(window, s, t)
    ensures Admitted(After(b, earlier), window) * SCALE <= b.burst * SCALE + b.rate * (t - s)
  {
    AfterIsValid(b, earlier, from, s);
    AdmittedWithinTokens(After(b, earlier), window, s, t);
  }

  // ---------------------------------------------------------------- several buckets at once

  /** A charge names its limiter, as the program's holds a pointer to it. */
  datatype Charge<+N> = Charge(limiter: N, cost: nat)

  datatype Verdict<N> = Refused | Charged(buckets: map<N, Bucket>) | Panicked

  ghost predicate Known<N>(m: map<N, Bucket>, charges: seq<Charge<N>>) {
    forall i | 0 <= i < |charges| :: charges[i].limiter in m
  }

  predicate AllAfford<N(==)>(m: map<N, Bucket>, charges: seq<Charge<N>>, now: int)
    requires Known(m, charges)
  {
    forall i | 0 <= i < |charges| :: Affords(m[charges[i].limiter], charges[i].cost, now)
  }

  /** The second loop of `allowAtomic`; nothing when some `AllowN` refuses. */
  function ChargeEach<N(==)>(m: map<N, Bucket>, charges: seq<Charge<N>>, now: int): Option<map<N, Bucket>>
    requires Known(m, charges)
  {
    if charges == [] then Some(m)
    else
      var (b, ok) := AllowN(m[charges[0].limiter], now, charges[0].cost);
      if ok then ChargeEach(m[charges[0].limiter := b], charges[1..], now) else None
  }

  function AllowAtomic<N(==)>(m: map<N, Bucket>, charges: seq<Charge<N>>, now: int): Verdict<N>
    requires Known(m, charges)
  {
    if !AllAfford(m, charges, now) then Refused
    else match ChargeEach(m, charges, now)
      case Some(m') => Charged(m')
      case None => Panicked
  }

  /** The total cost asked of one limiter. */
  function Total<N(==)>(charges: seq<Charge<N>>, limiter: N): nat {
    if charges == [] then 0
    else (if charges[0].limiter == limiter then charges[0].cost else 0) + Total(charges[1..], limiter)
  }

  ghost predicate Named<N>(charges: seq<Charge<N>>, limiter: N) {
    exists i :: 0 <= i < |charges| && charges[i].limiter == limiter
  }

  ghost predicate Distinct<N>(charges: seq<Charge<N>>) {
    forall i, j | 0 <= i < j < |charges| :: charges[i].limiter != charges[j].limiter
  }

  /** What charging means for one bucket. */
  ghost function Spent<N>(b: Bucket, charges: seq<Charge<N>>, limiter: N, now: int): Bucket
    requires Total(charges, limiter) * SCALE <= TokensAt(b, now)
  {
    if Named(charges, limiter) then b.(tokens := TokensAt(b, now) - Total(charges, limiter) * SCALE, last := now) else b
  }

  /** One step of the second loop, seen from one bucket. */
  lemma FirstCharge<N>(m: map<N, Bucket>, charges: seq<Charge<N>>, now: int, n: N)
    requires charges != [] && Known(m, charges)
    requires Affords(m[charges[0].limiter], charges[0].cost, now)
    requires n in m && m[n].Valid()
    ensures Named(charges, n) <==> n == charges[0].limiter || Named(charges[1..], n)
    ensures var m1 := m[charges[0].limiter := AllowN(m[charges[0].limiter], now, charges[0].cost).0];
      && m1[n].Valid()
      && TokensAt(m1[n], now) == TokensAt(m[n], now) - (if n == charges[0].limiter then charges[0].cost * SCALE else 0)
      && m1[n] == (if n == charges[0].limiter then m[n].(tokens := TokensAt(m1[n], now), last := now) else m[n])
  {
    if Named(charges[1..], n) {
      var i :| 0 <= i < |charges[1..]| && charges[1..][i].limiter == n;
      assert charges[i + 1].limiter == n;
    }
  }

  lemma {:induction false} ChargeEachSpends<N>(m: map<N, Bucket>, charges: seq<Charge<N>>, now: int, n: N)
    requires Known(m, charges) && n in m && m[n].Valid()
    requires ChargeEach(m, charges, now).Some?
    ensures ChargeEach(m, charges, now).value.Keys == m.Keys
    ensures Total(charges, n) * SCALE <= TokensAt(m[n], now)
    ensures ChargeEach(m, charges, now).value[n] == Spent(m[n], charges, n, now)
    decreases |charges|
  {
    if charges != [] {
      FirstCharge(m, charges, now, n);
      var m1 := m[charges[0].limiter := AllowN(m[charges[0].limiter], now, charges[0].cost).0];
      ChargeEachSpends(m1, charges[1..], now, n);
      assert m1.Keys == m.Keys;
      if !Named(charges[1..], n) { UnnamedTotal(charges[1..], n); }
    }
  }

  /** The second loop fails only on a limiter that is asked for more than it has. */
  lemma {:induction false} FailureOverspends<N>(m: map<N, Bucket>, charges: seq<Charge<N>>, now: int) returns (n: N)
    requires Known(m, charges) && AllAfford(m, charges, now)
    requires forall l | l in m :: m[l].Valid()
    requires ChargeEach(m, charges, now).None?
    ensures n in m && Total(charges, n) * SCALE > TokensAt(m[n], now)
    decreases |charges|
  {
    var c, rest := charges[0], charges[1..];
    var m1 := m[c.limiter := AllowN(m[c.limiter], now, c.cost).0];
    forall l | l in m { FirstCharge(m, charges, now, l); }
    if AllAfford(m1, rest, now) {
      n := FailureOverspends(m1, rest, now);
    } else {
      var i :| 0 <= i < |rest| && !Affords(m1[rest[i].limiter], rest[i].cost, now);
      n := rest[i].limiter;
      assert Affords(m[charges[i + 1].limiter], charges[i + 1].cost, now);
      TotalCoversEach(rest, i);
    }
  }

  lemma {:induction false} TotalCoversEach<N>(charges: seq<Charge<N>>, i: nat)
    requires i < |charges|
    ensures Total(charges, charges[i].limiter) >= charges[i].cost
  {
    if i > 0 { TotalCoversEach(charges[1..], i - 1); }
  }

  /** `allowAtomic` panics exactly when every charge passes on its own but the charges on
      one limiter do not pass together. */
  lemma PanicsIffAliased<N>(m: map<N, Bucket>, charges: seq<Charge<N>>, now: int)
    requires Known(m, charges)
    requires forall n | n in m :: m[n].Valid()
    ensures AllowAtomic(m, charges, now).Panicked? <==>
      AllAfford(m, charges, now) && exists n :: n in m && Total(charges, n) * SCALE > TokensAt(m[n], now)
  {
    if AllAfford(m, charges, now) {
      if ChargeEach(m, charges, now).Some? {
        forall n | n in m { ChargeEachSpends(m, charges, now, n); }
      } else {
        var n := FailureOverspends(m, charges, now);
      }
    }
  }

  lemma {:induction false} DistinctTotal<N>(charges: seq<Charge<N>>, i: nat)
    requires Distinct(charges) && i < |charges|
    ensures Total(charges, charges[i].limiter) == charges[i].cost
  {
    if i > 0 {
      DistinctTotal(charges[1..], i - 1);
    } else {
      UnnamedTotal(charges[1..], charges[0].limiter);
    }
  }

  lemma {:induction false} UnnamedTotal<N>(charges: seq<Charge<N>>, limiter: N)
    requires forall i | 0 <= i < |charges| :: charges[i].limiter != limiter
    ensures Total(charges, limiter) == 0
  {
    if charges != [] { UnnamedTotal(charges[1..], limiter); }
  }

  /** For distinct limiters the charging is all or nothing, and the panic is unreachable:
      every named bucket loses exactly its cost, or no bucket changes. */
  lemma AtomicCharging<N>(m: map<N, Bucket>, charges: seq<Charge<N>>, now: int)
    requires Known(m, charges) && Distinct(charges)
    requires forall n | n in m :: m[n].Valid()
    ensures AllowAtomic(m, charges, now) == Refused <==> !AllAfford(m, charges, now)
    ensures !AllowAtomic(m, charges, now).Panicked?
    ensures AllowAtomic(m, charges, now).Charged? ==> var m' := AllowAtomic(m, charges, now).buckets;
      && m'.Keys == m.Keys
      && (forall n | n in m && !Named(charges, n) :: m'[n] == m[n])
      && (forall i | 0 <= i < |charges| :: var n := charges[i].limiter;
            && charges[i].cost * SCALE <= TokensAt(m[n], now)
            && m'[n] == m[n].(tokens := TokensAt(m[n], now) - charges[i].cost * SCALE, last := now))
  {
    forall i | 0 <= i < |charges| ensures Total(charges, charges[i].limiter) == charges[i].cost {
      DistinctTotal(charges, i);
    }
    forall n | n in m && !Named(charges, n) ensures Total(charges, n) == 0 {
      UnnamedTotal(charges, n);
    }
    PanicsIffAliased(m, charges, now);
    if AllAfford(m, charges, now) {
      assert ChargeEach(m, charges, now).Some?;
      forall n | n in m { ChargeEachSpends(m, charges, now, n); }
    }
  }

  /** Two charges on one limiter can pass the first loop and fail in the second. */
  lemma AliasedChargesPanic()
    ensures AllowAtomic<int>(map[0 := NewLimiter(1, 1)], [Charge(0, 1), Charge(0, 1)], 0).Panicked?
  {
    var m: map<int, Bucket>, charges: seq<Charge<int>> := map[0 := NewLimiter(1, 1)], [Charge(0, 1), Charge(0, 1)];
    assert charges[1..] == [Charge(0, 1)] && charges[1..][1..] == [];
    assert Total(charges, 0) == 2;
    PanicsIffAliased(m, charges, 0);
  }
}
