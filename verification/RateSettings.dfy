/** What the rate-limit settings promise, said on the settings themselves. */
module RateSettings {
  import opened Wrappers
  import opened TokenBucket

  // Requests a window allows, and its length, each at least one.
  function PerWindow(s: Settings): int {
    if s.perMinute < 1 then 1 else s.perMinute
  }

  function WindowSeconds(s: Settings): int {
    if s.windowSeconds < 1 then 1 else s.windowSeconds
  }

  // What can be spent at once: the burst where one is set, else a window's requests.
  function AtOnce(s: Settings): int {
    match s.burst
    case Some(b) => if b == 0 then PerWindow(s) else if b < 1 then 1 else b
    case None => PerWindow(s)
  }

  lemma LimitsAre(s: Settings)
    ensures LimitsOf(s).Valid() && LimitsOf(s).capacity == AtOnce(s)
    ensures LimitsOf(s).Refill() == PerWindow(s) as real / WindowSeconds(s) as real
  {
  }

  // ------------------------------------------------------------- at one instant

  // Requests i to j all come at the same moment.
  ghost predicate AtOneMoment(reqs: seq<Request>, i: nat, j: nat, t: real)
    requires i <= j <= |reqs|
  {
    forall k :: i <= k < j ==> reqs[k].time == t
  }

  function Asking(reqs: seq<Request>, key: string, i: nat, j: nat): nat
    requires i <= j <= |reqs|
  {
    if i == j then 0 else Asking(reqs, key, i, j - 1) + if reqs[j - 1].key == key then 1 else 0
  }

  function Fewer(a: int, b: int): int {
    if a < b then a else b
  }

  /** Of the requests for a key that come at one moment, exactly as many are allowed as
      there are whole tokens, or all of them. */
  lemma {:induction false} InstantSpends(l: Limits, reqs: seq<Request>, key: string, i: nat, j: nat, t: real)
    requires l.Valid() && i <= j <= |reqs| && AtOneMoment(reqs, i, j, t)
    requires Available(l, After(l, reqs, i), key, t) >= 0.0
    ensures
      var there := Available(l, After(l, reqs, i), key, t);
      && CountAllowed(l, reqs, key, i, j) == Fewer(Asking(reqs, key, i, j), there.Floor)
      && Available(l, After(l, reqs, j), key, t) == there - CountAllowed(l, reqs, key, i, j) as real
  {
    hide Available, Take, Limits.Refill, After, Serve;
    if i == j {
    } else {
      InstantSpends(l, reqs, key, i, j - 1, t);
      InstantStep(l, reqs, key, j - 1, t);
    }
  }

  lemma InstantStep(l: Limits, reqs: seq<Request>, key: string, k: nat, t: real)
    requires l.Valid() && k < |reqs| && reqs[k].time == t
    ensures
      var before, after := Available(l, After(l, reqs, k), key, t), Available(l, After(l, reqs, k + 1), key, t);
      if reqs[k].key == key
      then (Answer(l, reqs, k).Allowed? <==> before >= 1.0) && after == before - (if Answer(l, reqs, k).Allowed? then 1.0 else 0.0)
      else after == before
  {
    var m, q := After(l, reqs, k), reqs[k];
    SingleSpend(l, m, key, q);
    if q.key == key {
      AllowedByTokens(l, Found(m, l, key, t), t);
    }
    hide Take, Limits.Refill, After;
  }

  lemma AllowedByTokens(l: Limits, b: Bucket, now: real)
    requires l.Valid()
    ensures Take(l, b, now).1.Allowed? <==> Topped(l, b, now) >= 1.0
  {
    hide Limits.Refill, Topped, Ceil;
  }

  // ------------------------------------------------------------------- theorems

  /** A limiter built from the settings lets a fresh key spend exactly the burst at one
      moment, or a window's requests where no burst is set. */
  lemma FreshKeySpendsExactly(s: Settings, reqs: seq<Request>, key: string, n: nat, t: real)
    requires n <= |reqs| && AtOneMoment(reqs, 0, n, t)
    ensures CountAllowed(LimitsOf(s), reqs, key, 0, n) == Fewer(Asking(reqs, key, 0, n), AtOnce(s))
  {
    var l := LimitsOf(s);
    LimitsAre(s);
    FreshIsFull(l, reqs, key, t);
    InstantSpends(l, reqs, key, 0, n, t);
    assert (l.capacity as real).Floor == l.capacity;
    hide CountAllowed, Available;
  }

  lemma FreshIsFull(l: Limits, reqs: seq<Request>, key: string, t: real)
    requires l.Valid()
    ensures Available(l, After(l, reqs, 0), key, t) == l.capacity as real
  {
    NoTimeNoRefill(l, Bucket(l.capacity as real, t), t);
  }

  /** On a clock that never goes back no window sees more allowed than the burst and the
      settings' requests for the seconds that have passed. */
  lemma WindowBoundBySettings(s: Settings, reqs: seq<Request>, key: string, i: nat, j: nat)
    requires Monotone(reqs) && i <= j < |reqs|
    ensures CountAllowed(LimitsOf(s), reqs, key, i, j + 1) as real
         <= AtOnce(s) as real + (reqs[j].time - reqs[i].time) * (PerWindow(s) as real / WindowSeconds(s) as real)
  {
    LimitsAre(s);
    hide LimitsOf, AtOnce, PerWindow, WindowSeconds, CountAllowed, Limits.Refill;
    WindowBound(LimitsOf(s), reqs, key, i, j);
  }

  // A drained bucket holds a window's requests one window later, up to the capacity.
  lemma DrainedRefills(s: Settings, b: Bucket)
    requires b.tokens == 0.0
    ensures Topped(LimitsOf(s), b, b.updatedAt + WindowSeconds(s) as real) == Fewer(PerWindow(s), AtOnce(s)) as real
  {
    LimitsAre(s);
    var l, window := LimitsOf(s), WindowSeconds(s) as real;
    assert window > 0.0;
    assert window * (PerWindow(s) as real / window) == PerWindow(s) as real;
    assert l.Refill() == PerWindow(s) as real / window;
    hide LimitsOf, Limits.Refill, PerWindow, WindowSeconds, AtOnce;
  }

  /** A key that is drained when request i has been served, and left alone for one window,
      may then spend exactly a window's requests at one moment, up to the burst. */
  lemma DrainedKeySpendsExactly(s: Settings, reqs: seq<Request>, key: string, i: nat, j: nat, u: real)
    requires i <= j <= |reqs| && key in After(LimitsOf(s), reqs, i) && After(LimitsOf(s), reqs, i)[key] == Bucket(0.0, u)
    requires AtOneMoment(reqs, i, j, u + WindowSeconds(s) as real)
    ensures CountAllowed(LimitsOf(s), reqs, key, i, j) == Fewer(Asking(reqs, key, i, j), Fewer(PerWindow(s), AtOnce(s)))
  {
    var l, t := LimitsOf(s), u + WindowSeconds(s) as real;
    DrainedRefills(s, Bucket(0.0, u));
    assert Available(l, After(l, reqs, i), key, t) == Fewer(PerWindow(s), AtOnce(s)) as real;
    hide Available, CountAllowed, LimitsOf, Topped;
    InstantSpends(l, reqs, key, i, j, t);
    assert (Fewer(PerWindow(s), AtOnce(s)) as real).Floor == Fewer(PerWindow(s), AtOnce(s));
  }

  /** What an answer says of the rest is exact: after "remaining r" exactly r more requests
      of the key are allowed at the same moment. */
  lemma RemainingIsExact(l: Limits, reqs: seq<Request>, n: nat, j: nat, t: real)
    requires l.Valid() && n < j <= |reqs| && AtOneMoment(reqs, n, j, t) && Answer(l, reqs, n).Allowed?
    ensures Answer(l, reqs, n).limit == l.capacity
    ensures CountAllowed(l, reqs, reqs[n].key, n + 1, j) == Fewer(Asking(reqs, reqs[n].key, n + 1, j), Answer(l, reqs, n).remaining)
  {
    var key := reqs[n].key;
    InstantStep(l, reqs, key, n, t);
    RemainingTells(l, Found(After(l, reqs, n), l, key, t), t);
    hide Take, Limits.Refill, CountAllowed, After;
    InstantSpends(l, reqs, key, n + 1, j, t);
  }

  lemma RemainingTells(l: Limits, b: Bucket, now: real)
    requires l.Valid()
    ensures
      var d := Take(l, b, now).1;
      d.limit == l.capacity && (d.Allowed? ==> d.remaining == (Topped(l, b, now) - 1.0).Floor && d.remaining >= 0)
  {
    hide Limits.Refill, Topped, Ceil;
  }

  /** A Redis hash lives for the longer of the window and twice the whole seconds that it
      takes to fill the bucket. */
  lemma LifetimeIs(s: Settings, c: int)
    requires c * PerWindow(s) >= AtOnce(s) * WindowSeconds(s) && (c - 1) * PerWindow(s) < AtOnce(s) * WindowSeconds(s)
    ensures LimitsOf(s).Ttl() == if WindowSeconds(s) < 2 * c then 2 * c else WindowSeconds(s)
  {
    LimitsAre(s);
    var l := LimitsOf(s);
    var p, w, a := PerWindow(s), WindowSeconds(s), AtOnce(s);
    FillSeconds(a, p, w, c);
    assert l.interval == w;
    RefillPositive(l);
    assert Ceil(l.capacity as real / l.Refill()) == c;
    hide PerWindow, WindowSeconds, AtOnce, Ceil;
  }

  lemma FillSeconds(a: int, p: int, w: int, c: int)
    requires a >= 1 && p >= 1 && w >= 1 && c * p >= a * w && (c - 1) * p < a * w
    ensures p as real / w as real > 0.0 && Ceil(a as real / (p as real / w as real)) == c
  {
    var rate := p as real / w as real;
    assert rate > 0.0;
    QuotientOrder(a as real, rate, c as real);
    QuotientOrder(a as real, rate, (c - 1) as real);
    SecondsSuffice(a, p, w, c);
    SecondsSuffice(a, p, w, c - 1);
  }

  // In x seconds the bucket gains a exactly when x windows' worth is a windows' worth.
  lemma SecondsSuffice(a: int, p: int, w: int, x: int)
    requires p >= 1 && w >= 1
    ensures x as real * (p as real / w as real) >= a as real <==> x * p >= a * w
  {
    var gained, want, window := x as real * (p as real / w as real), a as real, w as real;
    Scaled(x as real, p as real, window);
    ScaleKeepsOrder(gained, want, window);
    IntProduct(x, p);
    IntProduct(a, w);
  }

  lemma Scaled(x: real, p: real, w: real)
    requires w > 0.0
    ensures x * (p / w) * w == x * p
  {
    assert (p / w) * w == p;
  }

  lemma ScaleKeepsOrder(x: real, y: real, w: real)
    requires w > 0.0
    ensures x >= y <==> x * w >= y * w
  {
    assert x >= y ==> (x - y) * w >= 0.0;
    assert x < y ==> (y - x) * w > 0.0;
  }

  lemma IntProduct(x: int, y: int)
    ensures x as real * y as real == (x * y) as real
  {
  }
}
