/** The per-principal token bucket, in its in-process form and in its Redis form.

    Clock values and token counts are reals; a run is one sequence of requests over
    any number of keys, at any clock values. What needs a clock that never goes back
    asks for it. */
module TokenBucket {
  import opened Wrappers

  // ---------------------------------------------------------------- settings

  datatype Settings = Settings(perMinute: int, windowSeconds: int, burst: Option<int>)

  datatype Limits = Limits(rate: int, interval: int, capacity: int)
  {
    ghost predicate Valid() {
      rate >= 1 && interval >= 1 && capacity >= 1
    }

    function Refill(): real
      requires Valid()
    {
      rate as real / interval as real
    }

    function Ttl(): int
      requires Valid()
    {
      RefillPositive(this);
      MaxInt(interval, Ceil(capacity as real / Refill()) * 2)
    }
  }

  function LimitsOf(s: Settings): (l: Limits)
    ensures l.Valid()
  {
    var rate := MaxInt(1, s.perMinute);
    var burst := if s.burst.Some? && s.burst.value != 0 then s.burst.value else rate;
    Limits(rate, MaxInt(1, s.windowSeconds), MaxInt(1, burst))
  }

  function MaxInt(a: int, b: int): int {
    if a < b then b else a
  }

  function MaxReal(a: real, b: real): real {
    if a < b then b else a
  }

  function MinReal(a: real, b: real): real {
    if b < a then b else a
  }

  // The least integer that is not below x.
  function Ceil(x: real): (c: int)
    ensures c as real - 1.0 < x <= c as real
  {
    -(-x).Floor
  }

  lemma RefillPositive(l: Limits)
    requires l.Valid()
    ensures l.Refill() > 0.0
  {
  }

  // -------------------------------------------------------- the local bucket

  datatype Bucket = Bucket(tokens: real, updatedAt: real)

  datatype Decision =
    | Allowed(limit: int, remaining: int)
    | Limited(limit: int, retryAfter: int)

  function Topped(l: Limits, b: Bucket, now: real): real
    requires l.Valid()
  {
    MinReal(l.capacity as real, b.tokens + MaxReal(0.0, now - b.updatedAt) * l.Refill())
  }

  function Found(m: map<string, Bucket>, l: Limits, key: string, now: real): Bucket {
    if key in m then m[key] else Bucket(l.capacity as real, now)
  }

  function Take(l: Limits, b: Bucket, now: real): (Bucket, Decision)
    requires l.Valid()
  {
    var tokens := Topped(l, b, now);
    if tokens < 1.0 then
      RefillPositive(l);
      (Bucket(tokens, now), Limited(l.capacity, MaxInt(1, Ceil((1.0 - tokens) / l.Refill()))))
    else
      (Bucket(tokens - 1.0, now), Allowed(l.capacity, MaxInt(0, (tokens - 1.0).Floor)))
  }

  // The in-process limiter: one dictionary of buckets, changed one entry at a time.
  class LocalLimiter {
    const limits: Limits
    var buckets: map<string, Bucket>

    constructor (s: Settings)
      ensures limits == LimitsOf(s) && buckets == map[]
    {
      limits := LimitsOf(s);
      buckets := map[];
    }

    method Consume(key: string, now: real) returns (d: Decision)
      requires limits.Valid()
      modifies this
      ensures (buckets, d) == Serve(limits, old(buckets), Request(key, now))
    {
      hide Limits.Refill, MaxInt, Ceil;
      RefillPositive(limits);
      ghost var found := Found(buckets, limits, key, now);
      if key !in buckets {
        buckets := buckets[key := Bucket(limits.capacity as real, now)];
      }
      var bucket := buckets[key];
      var elapsed := MaxReal(0.0, now - bucket.updatedAt);
      bucket := bucket.(tokens := MinReal(limits.capacity as real, bucket.tokens + elapsed * limits.Refill()));
      bucket := bucket.(updatedAt := now);
      assert bucket.tokens == Topped(limits, found, now);
      hide Topped;
      if bucket.tokens < 1.0 {
        d := Limited(limits.capacity, MaxInt(1, Ceil((1.0 - bucket.tokens) / limits.Refill())));
      } else {
        bucket := bucket.(tokens := bucket.tokens - 1.0);
        d := Allowed(limits.capacity, MaxInt(0, bucket.tokens.Floor));
      }
      assert (bucket, d) == Take(limits, found, now);
      hide Take;
      buckets := buckets[key := bucket];
      assert buckets == old(buckets)[key := bucket];
    }
  }

  // -------------------------------------------------------------------- runs

  datatype Request = Request(key: string, time: real)

  function Serve(l: Limits, m: map<string, Bucket>, q: Request): (map<string, Bucket>, Decision)
    requires l.Valid()
  {
    var (b, d) := Take(l, Found(m, l, q.key, q.time), q.time);
    (m[q.key := b], d)
  }

  ghost predicate Monotone(reqs: seq<Request>) {
    forall i, j :: 0 <= i < j < |reqs| ==> reqs[i].time <= reqs[j].time
  }

  // The buckets after the first n requests of a run that starts with none.
  function After(l: Limits, reqs: seq<Request>, n: nat): map<string, Bucket>
    requires l.Valid() && n <= |reqs|
  {
    if n == 0 then map[] else Serve(l, After(l, reqs, n - 1), reqs[n - 1]).0
  }

  function Answer(l: Limits, reqs: seq<Request>, n: nat): Decision
    requires l.Valid() && n < |reqs|
  {
    Serve(l, After(l, reqs, n), reqs[n]).1
  }

  function CountAllowed(l: Limits, reqs: seq<Request>, key: string, i: nat, j: nat): nat
    requires l.Valid() && i <= j <= |reqs|
  {
    if i == j then 0
    else CountAllowed(l, reqs, key, i, j - 1)
         + (if reqs[j - 1].key == key && Answer(l, reqs, j - 1).Allowed? then 1 else 0)
  }

  lemma {:induction false} TokensWithinCapacity(l: Limits, reqs: seq<Request>, n: nat, key: string)
    requires l.Valid() && n <= |reqs| && key in After(l, reqs, n)
    ensures 0.0 <= After(l, reqs, n)[key].tokens <= l.capacity as real
  {
    var m := After(l, reqs, n - 1);
    var q := reqs[n - 1];
    if key in m {
      TokensWithinCapacity(l, reqs, n - 1, key);
    }
    if key == q.key {
      TakeWithinCapacity(l, Found(m, l, key, q.time), q.time);
    }
    hide Take;
  }

  lemma TakeWithinCapacity(l: Limits, b: Bucket, now: real)
    requires l.Valid() && 0.0 <= b.tokens <= l.capacity as real
    ensures 0.0 <= Take(l, b, now).0.tokens <= l.capacity as real
  {
    ElapsedRefillNonnegative(l, b, now);
    hide Limits.Refill, MaxReal, MaxInt, Ceil;
  }

  lemma ElapsedRefillNonnegative(l: Limits, b: Bucket, now: real)
    requires l.Valid()
    ensures MaxReal(0.0, now - b.updatedAt) * l.Refill() >= 0.0
  {
    RefillPositive(l);
  }

  lemma {:induction false} StampedInThePast(l: Limits, reqs: seq<Request>, n: nat, key: string, now: real)
    requires l.Valid() && n <= |reqs| && key in After(l, reqs, n)
    requires Monotone(reqs) && forall i :: 0 <= i < n ==> reqs[i].time <= now
    ensures After(l, reqs, n)[key].updatedAt <= now
  {
    if key != reqs[n - 1].key {
      StampedInThePast(l, reqs, n - 1, key, now);
    }
  }

  // What the key could spend at a moment.
  function Available(l: Limits, m: map<string, Bucket>, key: string, now: real): real
    requires l.Valid()
  {
    Topped(l, Found(m, l, key, now), now)
  }

  // Refilling up to s and then up to t is refilling up to t.
  lemma RefillComposes(l: Limits, b: Bucket, s: real, t: real)
    requires l.Valid() && b.updatedAt <= s <= t
    ensures Topped(l, Bucket(Topped(l, b, s), s), t) == Topped(l, b, t)
    ensures Topped(l, b, t) <= Topped(l, b, s) + (t - s) * l.Refill()
  {
    var r := l.Refill();
    RefillPositive(l);
    assert (t - b.updatedAt) * r == (s - b.updatedAt) * r + (t - s) * r;
    assert (t - s) * r >= 0.0;
  }

  // The time that has passed over a window, not counting steps back.
  function Climb(reqs: seq<Request>, i: nat, j: nat): real
    requires i <= j < |reqs|
  {
    if i == j then 0.0 else Climb(reqs, i, j - 1) + MaxReal(0.0, reqs[j].time - reqs[j - 1].time)
  }

  // Spending and refilling balance, for every clock: what was allowed and what is left
  // never exceed what was there and what has flowed in.
  lemma {:induction false} SpendingBalance(l: Limits, reqs: seq<Request>, key: string, i: nat, j: nat)
    requires l.Valid() && i < j <= |reqs|
    ensures CountAllowed(l, reqs, key, i, j) as real + Available(l, After(l, reqs, j), key, reqs[j - 1].time)
         <= Available(l, After(l, reqs, i), key, reqs[i].time) + Climb(reqs, i, j - 1) * l.Refill()
    decreases j
  {
    hide Available, Take, Limits.Refill, MaxReal, Serve;
    var q := reqs[j - 1];
    var m := After(l, reqs, j - 1);
    SingleSpend(l, m, key, q);
    if i == j - 1 {
      assert CountAllowed(l, reqs, key, i, j - 1) == 0;
    } else {
      var s := reqs[j - 2].time;
      SpendingBalance(l, reqs, key, i, j - 1);
      AvailableGrows(l, m, key, s, q.time);
      Distribute(Climb(reqs, i, j - 2), MaxReal(0.0, q.time - s), l.Refill());
    }
  }

  lemma Distribute(a: real, b: real, r: real)
    ensures (a + b) * r == a * r + b * r
  {
  }

  lemma AvailableGrows(l: Limits, m: map<string, Bucket>, key: string, s: real, t: real)
    requires l.Valid()
    ensures Available(l, m, key, t) <= Available(l, m, key, s) + MaxReal(0.0, t - s) * l.Refill()
  {
    RefillPositive(l);
    var r, climb := l.Refill(), MaxReal(0.0, t - s);
    ProductGrows(0.0, climb, r);
    if key in m {
      var u := m[key].updatedAt;
      var before, after := MaxReal(0.0, s - u), MaxReal(0.0, t - u);
      ProductGrows(after, before + climb, r);
      Distribute(before, climb, r);
    }
    hide Limits.Refill;
  }

  lemma ProductGrows(a: real, b: real, r: real)
    requires a <= b && r >= 0.0
    ensures a * r <= b * r
  {
    assert (b - a) * r >= 0.0;
  }

  lemma SingleSpend(l: Limits, m: map<string, Bucket>, key: string, q: Request)
    requires l.Valid()
    ensures (if q.key == key && Serve(l, m, q).1.Allowed? then 1.0 else 0.0)
            + Available(l, Serve(l, m, q).0, key, q.time)
         == Available(l, m, key, q.time)
  {
    if q.key == key {
      hide Limits.Refill;
      var b := Found(m, l, key, q.time);
      NoTimeNoRefill(l, Take(l, b, q.time).0, q.time);
    }
  }

  lemma NoTimeNoRefill(l: Limits, b: Bucket, now: real)
    requires l.Valid() && b.updatedAt == now
    ensures Topped(l, b, now) == MinReal(l.capacity as real, b.tokens)
  {
  }

  /** The window bound, for every clock: no more is allowed than the capacity and what
      flowed in while the clock went forward. */
  lemma ClimbBound(l: Limits, reqs: seq<Request>, key: string, i: nat, j: nat)
    requires l.Valid() && i <= j < |reqs|
    ensures CountAllowed(l, reqs, key, i, j + 1) as real <= l.capacity as real + Climb(reqs, i, j) * l.Refill()
  {
    hide Available, Take, Limits.Refill, CountAllowed, After, Climb;
    SpendingBalance(l, reqs, key, i, j + 1);
    AvailableWithinCapacity(l, reqs, j + 1, key, reqs[j].time);
    AvailableWithinCapacity(l, reqs, i, key, reqs[i].time);
  }

  lemma {:induction false} MonotoneClimb(reqs: seq<Request>, i: nat, j: nat)
    requires Monotone(reqs) && i <= j < |reqs|
    ensures Climb(reqs, i, j) == reqs[j].time - reqs[i].time
  {
    if i == j {
    } else {
      MonotoneClimb(reqs, i, j - 1);
    }
  }

  // With a clock that never goes back, that is the time between the two requests.
  lemma WindowBound(l: Limits, reqs: seq<Request>, key: string, i: nat, j: nat)
    requires l.Valid() && Monotone(reqs) && i <= j < |reqs|
    ensures WithinWindow(l, reqs, key, i, j)
  {
    hide CountAllowed, Climb, Limits.Refill;
    ClimbBound(l, reqs, key, i, j);
    MonotoneClimb(reqs, i, j);
  }

  ghost predicate WithinWindow(l: Limits, reqs: seq<Request>, key: string, i: nat, j: nat)
    requires l.Valid() && i <= j < |reqs|
  {
    CountAllowed(l, reqs, key, i, j + 1) as real <= l.capacity as real + (reqs[j].time - reqs[i].time) * l.Refill()
  }

  /** The bound by elapsed time holds for all limits, keys and windows of a run exactly
      when its clock never goes back. */
  lemma WindowBoundExactly(reqs: seq<Request>)
    ensures Monotone(reqs) <==>
      forall l: Limits, key, i: nat, j: nat :: l.Valid() && i <= j < |reqs| ==> WithinWindow(l, reqs, key, i, j)
  {
    if Monotone(reqs) {
      forall l: Limits, key, i: nat, j: nat | l.Valid() && i <= j < |reqs| ensures WithinWindow(l, reqs, key, i, j) {
        WindowBound(l, reqs, key, i, j);
      }
    } else {
      var i, j :| 0 <= i < j < |reqs| && reqs[i].time > reqs[j].time;
      var l := StepBackBreaksBound(reqs, "", i, j);
    }
  }

  // However small a step back, some rate makes it count for more than the capacity.
  lemma StepBackBreaksBound(reqs: seq<Request>, key: string, i: nat, j: nat) returns (l: Limits)
    requires i < j < |reqs| && reqs[i].time > reqs[j].time
    ensures l.Valid() && !WithinWindow(l, reqs, key, i, j)
  {
    hide CountAllowed;
    var back := reqs[i].time - reqs[j].time;
    var rate := Ceil(2.0 / back);
    QuotientOrder(2.0, back, rate as real);
    l := Limits(rate, 1, 1);
    assert l.Refill() == rate as real;
    assert (reqs[j].time - reqs[i].time) * l.Refill() == -(rate as real * back);
  }

  lemma AvailableWithinCapacity(l: Limits, reqs: seq<Request>, n: nat, key: string, now: real)
    requires l.Valid() && n <= |reqs|
    ensures 0.0 <= Available(l, After(l, reqs, n), key, now) <= l.capacity as real
  {
    var m := After(l, reqs, n);
    if key in m {
      TokensWithinCapacity(l, reqs, n, key);
    }
    ElapsedRefillNonnegative(l, Found(m, l, key, now), now);
  }

  const UNIT := Limits(1, 1, 1)

  lemma UnitTake(b: Bucket, now: real)
    ensures
      var tokens := MinReal(1.0, b.tokens + MaxReal(0.0, now - b.updatedAt));
      && Take(UNIT, b, now).0 == Bucket(if tokens < 1.0 then tokens else tokens - 1.0, now)
      && (Take(UNIT, b, now).1.Allowed? <==> tokens >= 1.0)
  {
    assert UNIT.Refill() == 1.0;
    hide Ceil;
  }

  lemma UnitStep(reqs: seq<Request>, n: nat, b: Bucket)
    requires n < |reqs| && reqs[n].key == "k" && Found(After(UNIT, reqs, n), UNIT, "k", reqs[n].time) == b
    ensures
      var tokens := MinReal(1.0, b.tokens + MaxReal(0.0, reqs[n].time - b.updatedAt));
      && "k" in After(UNIT, reqs, n + 1)
      && After(UNIT, reqs, n + 1)["k"] == Bucket(if tokens < 1.0 then tokens else tokens - 1.0, reqs[n].time)
      && CountAllowed(UNIT, reqs, "k", 0, n + 1) == CountAllowed(UNIT, reqs, "k", 0, n) + (if tokens < 1.0 then 0 else 1)
  {
    UnitTake(b, reqs[n].time);
    hide Take, Found, MinReal, MaxReal;
  }

  // A clock that steps back takes the stamp back with it, and the same second is paid
  // out again: three requests of four within a second, at one a second.
  lemma ClockSteppingBackRefillsTwice()
    ensures
      var reqs := [Request("k", 0.0), Request("k", 1.0), Request("k", 0.0), Request("k", 1.0)];
      && CountAllowed(UNIT, reqs, "k", 0, 4) == 3
      && !WithinWindow(UNIT, reqs, "k", 0, 3)
  {
    var reqs := [Request("k", 0.0), Request("k", 1.0), Request("k", 0.0), Request("k", 1.0)];
    hide After, CountAllowed;
    assert After(UNIT, reqs, 0) == map[] && CountAllowed(UNIT, reqs, "k", 0, 0) == 0 by {
      NothingYet(UNIT, reqs, "k");
    }
    UnitStep(reqs, 0, Bucket(1.0, 0.0));
    UnitStep(reqs, 1, Bucket(0.0, 0.0));
    UnitStep(reqs, 2, Bucket(0.0, 1.0));
    UnitStep(reqs, 3, Bucket(0.0, 0.0));
    assert UNIT.Refill() == 1.0;
  }

  lemma NothingYet(l: Limits, reqs: seq<Request>, key: string)
    requires l.Valid()
    ensures After(l, reqs, 0) == map[] && CountAllowed(l, reqs, key, 0, 0) == 0
  {
  }

  // ------------------------------------------------------------- retry_after

  ghost predicate DeniedThroughout(l: Limits, reqs: seq<Request>, key: string, n: nat, p: nat)
    requires l.Valid() && n <= p <= |reqs|
  {
    forall i :: n <= i < p && reqs[i].key == key ==> Answer(l, reqs, i).Limited?
  }

  // Denied polls leave the key's refill line where the first denial put it.
  lemma {:induction false} PollsChangeNothing(l: Limits, reqs: seq<Request>, key: string, n: nat, p: nat, t: real)
    requires l.Valid() && Monotone(reqs) && n < p <= |reqs|
    requires reqs[n].key == key && DeniedThroughout(l, reqs, key, n, p)
    requires reqs[p - 1].time <= t
    ensures key in After(l, reqs, p) && key in After(l, reqs, n + 1)
    ensures Topped(l, After(l, reqs, p)[key], t) == Topped(l, After(l, reqs, n + 1)[key], t)
    ensures After(l, reqs, n + 1)[key].updatedAt == reqs[n].time
    decreases p
  {
    if p > n + 1 {
      var q := reqs[p - 1];
      PollsChangeNothing(l, reqs, key, n, p - 1, t);
      if q.key == key {
        var b := After(l, reqs, p - 1)[key];
        StampedInThePast(l, reqs, p - 1, key, reqs[p - 2].time);
        assert Answer(l, reqs, p - 1).Limited?;
        RefillComposes(l, b, q.time, t);
      }
    }
  }

  // A request a whole number of seconds after a denial is allowed exactly when
  // the announced wait has passed, however often the key was polled meanwhile.
  lemma {:induction false} RetryAfterIsExact(l: Limits, reqs: seq<Request>, n: nat, p: nat, wait: nat)
    requires l.Valid() && Monotone(reqs) && n < p < |reqs|
    requires reqs[p].key == reqs[n].key && reqs[p].time == reqs[n].time + wait as real
    requires DeniedThroughout(l, reqs, reqs[n].key, n, p)
    ensures Answer(l, reqs, n).Limited?
    ensures Answer(l, reqs, p).Allowed? <==> wait >= Answer(l, reqs, n).retryAfter
  {
    hide Limits.Refill, Topped, Take;
    var key, t := reqs[n].key, reqs[p].time;
    assert Answer(l, reqs, n).Limited?;
    PollsChangeNothing(l, reqs, key, n, p, t);
    var b := After(l, reqs, n + 1)[key];
    DenialRecord(l, Found(After(l, reqs, n), l, key, reqs[n].time), reqs[n].time);
    DenialRecord(l, After(l, reqs, p)[key], t);
    LaterTokens(l, b, wait);
    CeilingDecides(l, b.tokens, wait);
  }

  lemma DenialRecord(l: Limits, b: Bucket, now: real)
    requires l.Valid()
    ensures Take(l, b, now).1.Allowed? <==> Topped(l, b, now) >= 1.0
    ensures Take(l, b, now).1.Limited? ==>
      && Take(l, b, now).0 == Bucket(Topped(l, b, now), now)
      && Take(l, b, now).1.retryAfter == MaxInt(1, Ceil((1.0 - Topped(l, b, now)) / l.Refill()))
  {
    hide Limits.Refill, Topped, Ceil;
  }

  lemma LaterTokens(l: Limits, b: Bucket, wait: nat)
    requires l.Valid()
    ensures Topped(l, b, b.updatedAt + wait as real) == MinReal(l.capacity as real, b.tokens + wait as real * l.Refill())
  {
  }

  lemma CeilingDecides(l: Limits, tokens: real, wait: nat)
    requires l.Valid() && tokens < 1.0
    ensures MinReal(l.capacity as real, tokens + wait as real * l.Refill()) >= 1.0
       <==> wait >= MaxInt(1, Ceil((1.0 - tokens) / l.Refill()))
  {
    RefillPositive(l);
    hide Limits.Refill;
    QuotientOrder(1.0 - tokens, l.Refill(), wait as real);
  }

  lemma QuotientOrder(x: real, r: real, w: real)
    requires x > 0.0 && r > 0.0
    ensures x / r > 0.0
    ensures w >= x / r <==> w * r >= x
  {
    var gap := x / r;
    assert gap * r == x;
    assert w >= gap ==> (w - gap) * r >= 0.0;
    assert w < gap ==> (gap - w) * r > 0.0;
  }

  // -------------------------------------------------------- the Redis bucket

  // One Redis hash, with the moment its EXPIRE takes effect.
  datatype RedisHash = RedisHash(tokens: real, updatedAt: real, expiresAt: real)

  // The tokens of a hash, or of the full bucket that a missing hash stands for.
  function RedisTokens(l: Limits, h: Option<RedisHash>, now: real): real
    requires l.Valid()
  {
    var stored := if h.Some? then h.value.tokens else l.capacity as real;
    var updatedAt := if h.Some? then h.value.updatedAt else now;
    var elapsed := MaxReal(0.0, now - updatedAt);
    MinReal(l.capacity as real, stored + elapsed * l.Refill())
  }

  function RedisTake(l: Limits, h: Option<RedisHash>, now: real): (RedisHash, Decision)
    requires l.Valid()
  {
    var tokens := RedisTokens(l, h, now);
    var allowed := tokens >= 1.0;
    var left := if allowed then tokens - 1.0 else tokens;
    RefillPositive(l);
    var retryAfter := if allowed then 0 else Ceil((1.0 - left) / l.Refill());
    (RedisHash(left, now, now + l.Ttl() as real),
     if allowed then Allowed(l.capacity, MaxInt(0, left.Floor))
     else Limited(l.capacity, MaxInt(1, MaxInt(0, retryAfter))))
  }

  // Redis deletes what has expired, for good.
  function Live(m: map<string, RedisHash>, now: real): map<string, RedisHash> {
    map k | k in m && now < m[k].expiresAt :: m[k]
  }

  function RedisServe(l: Limits, m: map<string, RedisHash>, q: Request): (map<string, RedisHash>, Decision)
    requires l.Valid()
  {
    var live := Live(m, q.time);
    var (h, d) := RedisTake(l, if q.key in live then Some(live[q.key]) else None, q.time);
    (live[q.key := h], d)
  }

  function RedisAfter(l: Limits, reqs: seq<Request>, n: nat): map<string, RedisHash>
    requires l.Valid() && n <= |reqs|
  {
    if n == 0 then map[] else RedisServe(l, RedisAfter(l, reqs, n - 1), reqs[n - 1]).0
  }

  function RedisAnswer(l: Limits, reqs: seq<Request>, n: nat): Decision
    requires l.Valid() && n < |reqs|
  {
    RedisServe(l, RedisAfter(l, reqs, n), reqs[n]).1
  }

  // An idle key is full again before its hash can expire.
  lemma TtlCoversFullRefill(l: Limits, b: Bucket, now: real)
    requires l.Valid() && 0.0 <= b.tokens && now >= b.updatedAt + l.Ttl() as real
    ensures Topped(l, b, now) == l.capacity as real
  {
    var r := l.Refill();
    RefillPositive(l);
    var full := l.capacity as real / r;
    assert full * r == l.capacity as real;
    assert full > 0.0;
    assert l.Ttl() as real >= full;
    assert (now - b.updatedAt) * r >= full * r;
  }

  ghost predicate SameEntry(l: Limits, h: RedisHash, b: Bucket)
    requires l.Valid()
  {
    h.tokens == b.tokens && h.updatedAt == b.updatedAt && h.expiresAt == b.updatedAt + l.Ttl() as real
  }

  // Every local bucket has its hash, unless it has been idle for a time to live.
  ghost predicate Agree(l: Limits, redis: map<string, RedisHash>, local: map<string, Bucket>, now: real)
    requires l.Valid()
  {
    && redis.Keys <= local.Keys
    && forall k :: k in local ==>
         if k in redis then SameEntry(l, redis[k], local[k]) else local[k].updatedAt + l.Ttl() as real <= now
  }

  lemma SweepKeepsAgreement(l: Limits, redis: map<string, RedisHash>, local: map<string, Bucket>, now: real, later: real)
    requires l.Valid() && Agree(l, redis, local, now) && now <= later
    ensures Agree(l, Live(redis, later), local, later)
  {
    hide Limits.Ttl;
  }

  lemma SameTokens(l: Limits, h: Option<RedisHash>, b: Bucket, now: real)
    requires l.Valid() && 0.0 <= b.tokens
    requires
      if h.Some? then SameEntry(l, h.value, b)
      else b == Bucket(l.capacity as real, now) || b.updatedAt + l.Ttl() as real <= now
    ensures RedisTokens(l, h, now) == Topped(l, b, now)
  {
    if h.None? {
      NoTimeNoRefill(l, Bucket(l.capacity as real, now), now);
      if b.updatedAt + l.Ttl() as real <= now {
        TtlCoversFullRefill(l, b, now);
      }
    }
    hide Limits.Refill, Limits.Ttl;
  }

  lemma SameTake(l: Limits, h: Option<RedisHash>, b: Bucket, now: real)
    requires l.Valid() && 0.0 <= b.tokens
    requires
      if h.Some? then SameEntry(l, h.value, b)
      else b == Bucket(l.capacity as real, now) || b.updatedAt + l.Ttl() as real <= now
    ensures SameEntry(l, RedisTake(l, h, now).0, Take(l, b, now).0)
    ensures RedisTake(l, h, now).1 == Take(l, b, now).1
  {
    SameTokens(l, h, b, now);
    hide Limits.Refill, Limits.Ttl, RedisTokens, Topped, Ceil;
  }

  lemma SameStep(l: Limits, redis: map<string, RedisHash>, local: map<string, Bucket>, now: real, q: Request)
    requires l.Valid() && Agree(l, redis, local, now) && now <= q.time
    requires q.key in local ==> 0.0 <= local[q.key].tokens
    ensures Agree(l, RedisServe(l, redis, q).0, Serve(l, local, q).0, q.time)
    ensures RedisServe(l, redis, q).1 == Serve(l, local, q).1
  {
    hide RedisTake, Take, SameEntry, Live, Limits.Ttl;
    SweepKeepsAgreement(l, redis, local, now, q.time);
    var live := Live(redis, q.time);
    SameTake(l, if q.key in live then Some(live[q.key]) else None, Found(local, l, q.key, q.time), q.time);
  }

  function LastTime(reqs: seq<Request>, n: nat): real
    requires n <= |reqs| && reqs != []
  {
    if n == 0 then reqs[0].time else reqs[n - 1].time
  }

  /** Over every run the Redis bucket, whose hashes expire, answers every request as the
      local one, whose buckets never do. */
  lemma {:induction false} RedisAnswersAsLocal(l: Limits, reqs: seq<Request>, n: nat)
    requires l.Valid() && Monotone(reqs) && n < |reqs|
    ensures Agree(l, RedisAfter(l, reqs, n), After(l, reqs, n), LastTime(reqs, n))
    ensures RedisAnswer(l, reqs, n) == Answer(l, reqs, n)
    ensures Agree(l, RedisAfter(l, reqs, n + 1), After(l, reqs, n + 1), reqs[n].time)
  {
    hide RedisServe, Serve, Agree;
    if n == 0 {
      EmptyAgree(l, reqs[0].time);
    } else {
      RedisAnswersAsLocal(l, reqs, n - 1);
    }
    SameStepInRun(l, reqs, n);
  }

  lemma EmptyAgree(l: Limits, now: real)
    requires l.Valid()
    ensures Agree(l, map[], map[], now)
  {
  }

  lemma SameStepInRun(l: Limits, reqs: seq<Request>, n: nat)
    requires l.Valid() && Monotone(reqs) && n < |reqs|
    requires Agree(l, RedisAfter(l, reqs, n), After(l, reqs, n), LastTime(reqs, n))
    ensures Agree(l, RedisAfter(l, reqs, n + 1), After(l, reqs, n + 1), reqs[n].time)
    ensures RedisAnswer(l, reqs, n) == Answer(l, reqs, n)
  {
    hide RedisServe, Serve, Agree;
    if reqs[n].key in After(l, reqs, n) {
      TokensWithinCapacity(l, reqs, n, reqs[n].key);
    }
    SameStep(l, RedisAfter(l, reqs, n), After(l, reqs, n), LastTime(reqs, n), reqs[n]);
  }
}
