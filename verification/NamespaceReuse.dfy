/** When an invalidation brings back a namespace that was in force before, and with it
    entries stored under that namespace. */
module NamespaceReuse {
  import opened Wrappers
  import opened CacheKeys
  import opened CacheBackend
  import opened NamespacedCache

  predicate IsMove(op: Op) {
    op.Invalidate?
  }

  // The invalidations of a history.
  function Moves(ops: seq<Op>): seq<Op> {
    if ops == [] then []
    else Moves(ops[..|ops| - 1]) + (if IsMove(ops[|ops| - 1]) then [ops[|ops| - 1]] else [])
  }

  predicate Raises(op: Op, level: Level, r: ResourceRef) {
    IsMove(op) && op.level == level && Covers(op, r)
  }

  // How often a history raises the counter that r has at a level.
  function Counter(ops: seq<Op>, level: Level, r: ResourceRef): nat {
    if ops == [] then 0
    else Counter(ops[..|ops| - 1], level, r) + (if Raises(ops[|ops| - 1], level, r) then 1 else 0)
  }

  // The namespace in force after a history, by its counters alone.
  function InForce(f: Family, ops: seq<Op>, r: ResourceRef): nat {
    if Counter(ops, ResourceLevel, r) > 0 then Counter(ops, ResourceLevel, r)
    else if f.IndexFamily? && Counter(ops, TenantLevel, r) > 0 then Counter(ops, TenantLevel, r)
    else Counter(ops, GlobalLevel, r)
  }

  ghost predicate AllOk(f: Family, ops: seq<Op>) {
    forall i :: 0 <= i < |ops| ==> OpOk(f, ops[i])
  }

  function Result(f: Family, ops: seq<Op>): Store {
    After(f, ops, |ops|)
  }

  lemma {:induction false} AfterPrefix(f: Family, ops: seq<Op>, m: nat, n: nat)
    requires n <= m <= |ops|
    ensures After(f, ops[..m], n) == After(f, ops, n)
  {
    hide Apply;
    if n == 0 {
    } else {
      AfterPrefix(f, ops, m, n - 1);
    }
  }

  lemma ResultStep(f: Family, ops: seq<Op>)
    requires ops != []
    ensures Result(f, ops) == Apply(f, Result(f, ops[..|ops| - 1]), ops[|ops| - 1])
  {
    AfterPrefix(f, ops, |ops| - 1, |ops| - 1);
    hide Apply;
  }

  // ------------------------------------------------------- what the store holds

  ghost predicate CounterHeld(s: Store, key: string, n: nat) {
    if n == 0 then key !in s else key in s && s[key] == Item(Value.Counter(n), None)
  }

  lemma {:induction false} CountersHeld(f: Family, ops: seq<Op>, level: Level, r: ResourceRef)
    requires AllOk(f, ops) && r.Plainly()
    ensures CounterHeld(Result(f, ops), LevelKey(f, level, r), Counter(ops, level, r))
  {
    if ops == [] {
    } else {
      var before, op := ops[..|ops| - 1], ops[|ops| - 1];
      CountersHeld(f, before, level, r);
      ResultStep(f, ops);
      hide Result;
      CounterStep(f, Result(f, before), op, level, r, Counter(before, level, r));
    }
  }

  lemma CounterStep(f: Family, s: Store, op: Op, level: Level, r: ResourceRef, n: nat)
    requires OpOk(f, op) && r.Plainly() && CounterHeld(s, LevelKey(f, level, r), n)
    ensures CounterHeld(Apply(f, s, op), LevelKey(f, level, r), n + if Raises(op, level, r) then 1 else 0)
  {
    match op
    case Fill(q, a, _, now) =>
      LevelKeyIsNoEntry(f, level, r, q, Namespace(f, s, q, now), a);
      hide LevelKey, EntryKey, Namespace;
    case Invalidate(_, _, _) =>
      LevelKeysMeet(f, op, level, r);
      hide LevelKey, Covers;
    case Purge(_, _) =>
      hide LevelKey;
    case Foreign(key, _) =>
      KeyFamilies(f.Prefix(), r, 0, "");
      hide InFamily, ResourceKey, TenantKey, GlobalKey;
  }

  lemma NamespaceIsInForce(f: Family, ops: seq<Op>, r: ResourceRef, now: real)
    requires AllOk(f, ops) && r.Plainly()
    ensures Namespace(f, Result(f, ops), r, now) == InForce(f, ops, r)
  {
    hide LevelKey, Result, Counter;
    CountersHeld(f, ops, ResourceLevel, r);
    CountersHeld(f, ops, TenantLevel, r);
    CountersHeld(f, ops, GlobalLevel, r);
  }

  // An entry lies under a namespace only if it was filled while that was in force, and
  // it is what that fill put there.
  lemma {:induction false} EntryWasFilled(f: Family, ops: seq<Op>, r: ResourceRef, action: string, m: nat) returns (i: nat)
    requires AllOk(f, ops) && r.Plainly() && EntryKey(f.Prefix(), r, m, action) in Result(f, ops)
    ensures i < |ops| && ops[i].Fill? && ops[i].resource == r && InForce(f, ops[..i], r) == m
    ensures Result(f, ops)[EntryKey(f.Prefix(), r, m, action)] == Item(ops[i].value, Some(ops[i].now + TTL_SECONDS as real))
  {
    if ops == [] {
      assert false;
    } else {
      var before, op := ops[..|ops| - 1], ops[|ops| - 1];
      ResultStep(f, ops);
      hide Result, EntryKey, Apply, InForce, Namespace;
      EntryStep(f, Result(f, before), op, r, action, m);
      if op.Fill? && op.resource == r && op.action == action && Namespace(f, Result(f, before), r, op.now) == m {
        i := |ops| - 1;
        NamespaceIsInForce(f, before, r, op.now);
      } else {
        i := EntryWasFilled(f, before, r, action, m);
        assert before[..i] == ops[..i];
      }
    }
  }

  lemma EntryStep(f: Family, s: Store, op: Op, r: ResourceRef, action: string, m: nat)
    requires OpOk(f, op) && r.Plainly()
    requires EntryKey(f.Prefix(), r, m, action) in Apply(f, s, op)
    ensures
      var key := EntryKey(f.Prefix(), r, m, action);
      if op.Fill? && op.resource == r && op.action == action && Namespace(f, s, r, op.now) == m
      then Apply(f, s, op)[key] == Item(op.value, Some(op.now + TTL_SECONDS as real))
      else key in s && s[key] == Apply(f, s, op)[key]
  {
    PrefixPlain(f);
    match op
    case Fill(q, a, _, now) =>
      var n := Namespace(f, s, q, now);
      if EntryKey(f.Prefix(), r, m, action) == EntryKey(f.Prefix(), q, n, a) {
        EntryKeyInjective(f.Prefix(), r, m, action, q, n, a);
      }
      hide EntryKey, Namespace;
    case Invalidate(level, q, _) =>
      LevelKeyIsNoEntry(f, level, q, r, m, action);
      hide EntryKey, LevelKey;
    case Foreign(key, _) =>
      KeyFamilies(f.Prefix(), r, m, action);
      hide EntryKey, InFamily;
    case Purge(_, _) =>
      hide EntryKey;
  }

  // --------------------------------------------------- a history and its moves

  lemma {:induction false} MovesCount(ops: seq<Op>, level: Level, r: ResourceRef)
    ensures Counter(Moves(ops), level, r) == Counter(ops, level, r)
  {
    hide Covers;
    if ops == [] {
    } else {
      var before, op := ops[..|ops| - 1], ops[|ops| - 1];
      MovesCount(before, level, r);
      assert Moves(ops) == if IsMove(op) then Moves(before) + [op] else Moves(before);
      hide Counter;
      CounterAppended(Moves(before), op, level, r);
      CounterAppended(before, op, level, r);
      assert ops == before + [op];
    }
  }

  lemma CounterAppended(ops: seq<Op>, op: Op, level: Level, r: ResourceRef)
    ensures Counter(ops + [op], level, r) == Counter(ops, level, r) + if Raises(op, level, r) then 1 else 0
  {
    assert (ops + [op])[..|ops|] == ops;
  }

  lemma SameInForce(f: Family, ops: seq<Op>, r: ResourceRef)
    ensures InForce(f, Moves(ops), r) == InForce(f, ops, r)
  {
    MovesCount(ops, ResourceLevel, r);
    MovesCount(ops, TenantLevel, r);
    MovesCount(ops, GlobalLevel, r);
  }

  // The moves up to a point of a history that ends with a move are some but not all.
  lemma {:induction false} MovesOfPrefix(ops: seq<Op>, i: nat)
    requires i <= |ops|
    ensures Moves(ops[..i]) <= Moves(ops)
    ensures i < |ops| && IsMove(ops[|ops| - 1]) ==> |Moves(ops[..i])| < |Moves(ops)|
    decreases |ops|
  {
    if i == |ops| {
      assert ops[..i] == ops;
    } else {
      var before := ops[..|ops| - 1];
      MovesOfPrefix(before, i);
      assert before[..i] == ops[..i];
    }
  }

  lemma {:induction false} MovesOfMoves(ops: seq<Op>)
    requires forall i :: 0 <= i < |ops| ==> IsMove(ops[i])
    ensures Moves(ops) == ops
  {
    if ops == [] {
    } else {
      MovesOfMoves(ops[..|ops| - 1]);
      assert ops == ops[..|ops| - 1] + [ops[|ops| - 1]];
    }
  }

  lemma {:induction false} MovesJoin(a: seq<Op>, b: seq<Op>)
    ensures Moves(a + b) == Moves(a) + Moves(b)
    decreases |b|
  {
    if b == [] {
      assert a + b == a;
    } else {
      var before := b[..|b| - 1];
      MovesJoin(a, before);
      assert (a + b)[..|a + b| - 1] == a + before;
    }
  }

  // Some point after i holds the first move that is not among the moves up to i.
  lemma {:induction false} NextMove(ops: seq<Op>, i: nat) returns (j: nat)
    requires i <= |ops| && |Moves(ops[..i])| < |Moves(ops)|
    ensures i <= j < |ops| && ops[j] == Moves(ops)[|Moves(ops[..i])|]
    decreases |ops|
  {
    assert ops[..|ops|] == ops;
    var before := ops[..|ops| - 1];
    MovesOfPrefix(before, i);
    assert before[..i] == ops[..i];
    if |Moves(ops[..i])| < |Moves(before)| {
      j := NextMove(before, i);
    } else {
      j := |ops| - 1;
    }
  }

  // -------------------------------------------------------------- the condition

  // The clock never goes back, and has come to `now`.
  ghost predicate InOrder(ops: seq<Op>, now: real) {
    && (forall i :: 0 <= i < |ops| && !ops[i].Foreign? ==> ops[i].now <= now)
    && (forall i, j :: 0 <= i < j < |ops| && !ops[i].Foreign? && !ops[j].Foreign? ==> ops[i].now <= ops[j].now)
  }

  // A history with these invalidations, in this order, that ends with the last of them.
  ghost predicate Interleaves(f: Family, h: seq<Op>, moves: seq<Op>, now: real) {
    AllOk(f, h) && InOrder(h, now) && Moves(h) == moves && h != [] && IsMove(h[|h| - 1])
  }

  // Some way of filling the cache between the invalidations leaves something stored
  // before the last of them that is served after it.
  ghost predicate CanServeOld(f: Family, moves: seq<Op>, r: ResourceRef, action: string, now: real) {
    exists h :: Interleaves(f, h, moves, now) && Fetch(f, Result(f, h), r, action, now).Some?
  }

  // The namespace now in force was in force less than a lifetime ago, up to some
  // invalidation.
  ghost predicate Reuses(f: Family, moves: seq<Op>, r: ResourceRef, now: real) {
    exists i :: 0 <= i < |moves| && IsMove(moves[i]) && now < moves[i].now + TTL_SECONDS as real
                && InForce(f, moves[..i], r) == InForce(f, moves, r)
  }

  lemma ServedOldMeansReuse(f: Family, h: seq<Op>, moves: seq<Op>, r: ResourceRef, action: string, now: real)
    requires Interleaves(f, h, moves, now) && r.Plainly()
    requires forall i :: 0 <= i < |moves| ==> IsMove(moves[i])
    requires Fetch(f, Result(f, h), r, action, now).Some?
    ensures Reuses(f, moves, r, now)
  {
    hide EntryKey, Result, InForce, Namespace, AllOk;
    var m := InForce(f, h, r);
    NamespaceIsInForce(f, h, r, now);
    var i := EntryWasFilled(f, h, r, action, m);
    MovesOfPrefix(h, i);
    var j := NextMove(h, i);
    SameInForce(f, h, r);
    SameInForce(f, h[..i], r);
    var k := |Moves(h[..i])|;
    assert moves[..k] == Moves(h[..i]);
    assert h[i].now <= moves[k].now;
  }

  // An entry outlives the invalidations that follow it.
  lemma {:induction false} EntryStays(f: Family, h: seq<Op>, n: nat, key: string, item: Item)
    requires n <= |h| && AllOk(f, h) && forall i :: n <= i < |h| ==> IsMove(h[i])
    requires key in Result(f, h[..n]) && Result(f, h[..n])[key] == item
    requires forall level: Level, q: ResourceRef :: LevelKey(f, level, q) != key
    ensures key in Result(f, h) && Result(f, h)[key] == item
    decreases |h|
  {
    hide LevelKey;
    if n == |h| {
      assert h[..n] == h;
    } else {
      var before := h[..|h| - 1];
      assert before[..n] == h[..n];
      EntryStays(f, before, n, key, item);
      ResultStep(f, h);
      hide Result;
    }
  }

  lemma ReuseServesOld(f: Family, moves: seq<Op>, i: nat, r: ResourceRef, action: string, value: Value, now: real) returns (h: seq<Op>)
    requires AllOk(f, moves) && InOrder(moves, now) && r.Plainly() && forall k :: 0 <= k < |moves| ==> IsMove(moves[k])
    requires i < |moves| && IsMove(moves[i]) && now < moves[i].now + TTL_SECONDS as real
    requires InForce(f, moves[..i], r) == InForce(f, moves, r)
    ensures Interleaves(f, h, moves, now) && Fetch(f, Result(f, h), r, action, now) == Some(value)
  {
    hide EntryKey, LevelKey, InForce, Namespace, Result, Interleaves, Raises, Moves, InOrder;
    var at := moves[i].now;
    var fill := Fill(r, action, value, at);
    h := WithFill(moves, i, fill);
    FillInterleaves(f, moves, i, fill, now);
    InterleavesMeans(f, h, moves, now);
    var m := InForce(f, moves, r);
    FillLies(f, moves, i, r, action, value, at);
    assert forall k :: i + 1 <= k < |h| ==> h[k] == moves[k - 1];
    forall level: Level, q: ResourceRef ensures LevelKey(f, level, q) != EntryKey(f.Prefix(), r, m, action) {
      LevelKeyIsNoEntry(f, level, q, r, m, action);
    }
    EntryStays(f, h, i + 1, EntryKey(f.Prefix(), r, m, action), Item(value, Some(at + TTL_SECONDS as real)));
    SameInForce(f, h, r);
    NamespaceIsInForce(f, h, r, now);
  }

  function WithFill(moves: seq<Op>, i: nat, fill: Op): seq<Op>
    requires i < |moves|
  {
    moves[..i] + [fill] + moves[i..]
  }

  lemma FillInterleaves(f: Family, moves: seq<Op>, i: nat, fill: Op, now: real)
    requires AllOk(f, moves) && InOrder(moves, now) && i < |moves| && forall k :: 0 <= k < |moves| ==> IsMove(moves[k])
    requires fill.Fill? && OpOk(f, fill) && IsMove(moves[i]) && fill.now == moves[i].now
    ensures Interleaves(f, WithFill(moves, i, fill), moves, now)
  {
    hide OpOk, Moves, AllOk, InOrder;
    var h := WithFill(moves, i, fill);
    assert h[|h| - 1] == moves[|moves| - 1];
    FillFits(f, moves, i, fill, now);
    MovesOfMoves(moves[..i]);
    MovesOfMoves(moves[i..]);
    MovesJoin(moves[..i], [fill]);
    MovesJoin(moves[..i] + [fill], moves[i..]);
    FillIsNoMove(fill);
    assert moves[..i] + [] + moves[i..] == moves;
  }

  lemma FillIsNoMove(fill: Op)
    requires fill.Fill?
    ensures Moves([fill]) == []
  {
    assert [fill][..0] == [];
  }

  lemma FillFits(f: Family, moves: seq<Op>, i: nat, fill: Op, now: real)
    requires AllOk(f, moves) && InOrder(moves, now) && i < |moves|
    requires fill.Fill? && OpOk(f, fill) && IsMove(moves[i]) && fill.now == moves[i].now
    ensures AllOk(f, WithFill(moves, i, fill)) && InOrder(WithFill(moves, i, fill), now)
  {
    hide OpOk;
    var h := WithFill(moves, i, fill);
    forall k | 0 <= k < |h| ensures h[k] == if k < i then moves[k] else if k == i then fill else moves[k - 1] {
    }
    hide WithFill;
    forall k | 0 <= k < |h| ensures OpOk(f, h[k]) && (!h[k].Foreign? ==> h[k].now <= now) {
    }
    forall j, k | 0 <= j < k < |h| && !h[j].Foreign? && !h[k].Foreign? ensures h[j].now <= h[k].now {
    }
  }

  lemma FillLies(f: Family, moves: seq<Op>, i: nat, r: ResourceRef, action: string, value: Value, now: real)
    requires AllOk(f, moves) && i < |moves| && r.Plainly()
    ensures
      var s := Result(f, WithFill(moves, i, Fill(r, action, value, now))[..i + 1]);
      var key := EntryKey(f.Prefix(), r, InForce(f, moves[..i], r), action);
      key in s && s[key] == Item(value, Some(now + TTL_SECONDS as real))
  {
    hide Result, Namespace, InForce, EntryKey;
    var fill := Fill(r, action, value, now);
    var upto := WithFill(moves, i, fill)[..i + 1];
    assert upto == moves[..i] + [fill] && upto[..i] == moves[..i];
    ResultStep(f, upto);
    NamespaceIsInForce(f, moves[..i], r, now);
  }

  /** After a sequence of invalidations something stored before the last of them can be
      served exactly when the namespace now in force was already in force up to some
      invalidation less than 30 seconds ago; otherwise no way of filling the cache
      leaves anything old to be served. */
  lemma OldIsServedExactly(f: Family, moves: seq<Op>, r: ResourceRef, action: string, now: real)
    requires AllOk(f, moves) && InOrder(moves, now) && r.Plainly() && forall i :: 0 <= i < |moves| ==> IsMove(moves[i])
    ensures CanServeOld(f, moves, r, action, now) <==> Reuses(f, moves, r, now)
  {
    hide Fetch, InForce, Interleaves, AllOk, InOrder;
    if CanServeOld(f, moves, r, action, now) {
      var h :| Interleaves(f, h, moves, now) && Fetch(f, Result(f, h), r, action, now).Some?;
      ServedOldMeansReuse(f, h, moves, r, action, now);
    }
    if Reuses(f, moves, r, now) {
      var i :| 0 <= i < |moves| && IsMove(moves[i]) && now < moves[i].now + TTL_SECONDS as real && InForce(f, moves[..i], r) == InForce(f, moves, r);
      var h := ReuseServesOld(f, moves, i, r, action, Value.Counter(0), now);
    }
  }

  lemma InterleavesMeans(f: Family, h: seq<Op>, moves: seq<Op>, now: real)
    requires Interleaves(f, h, moves, now)
    ensures AllOk(f, h) && Moves(h) == moves && h != [] && IsMove(h[|h| - 1])
  {
  }

  // ------------------------------------------- after invalidations of other things

  // The invalidations b come after the invalidations a, and none of b covers r. Some way
  // of filling the cache, r not since the last of a, leaves an entry of r served.
  ghost predicate CanServeSince(f: Family, a: seq<Op>, b: seq<Op>, r: ResourceRef, action: string, now: real) {
    exists h, t ::
      && Interleaves(f, h, a, now) && AllOk(f, h + t) && InOrder(h + t, now) && Moves(t) == b && NotFilled(t, r)
      && Fetch(f, Result(f, h + t), r, action, now).Some?
  }

  ghost predicate NotFilled(ops: seq<Op>, r: ResourceRef) {
    forall i :: 0 <= i < |ops| && ops[i].Fill? ==> ops[i].resource != r
  }

  ghost predicate Elsewhere(ops: seq<Op>, r: ResourceRef) {
    forall i :: 0 <= i < |ops| && IsMove(ops[i]) ==> !Covers(ops[i], r)
  }

  lemma {:induction false} MovesElsewhere(ops: seq<Op>, r: ResourceRef)
    requires Elsewhere(Moves(ops), r)
    ensures Elsewhere(ops, r)
  {
    if ops == [] {
    } else {
      var before, op := ops[..|ops| - 1], ops[|ops| - 1];
      assert forall i :: 0 <= i < |Moves(before)| ==> Moves(ops)[i] == Moves(before)[i];
      if IsMove(op) {
        assert Moves(ops)[|Moves(ops)| - 1] == op;
      }
      MovesElsewhere(before, r);
      assert ops == before + [op];
    }
  }

  lemma {:induction false} CounterElsewhere(a: seq<Op>, b: seq<Op>, level: Level, r: ResourceRef)
    requires Elsewhere(b, r)
    ensures Counter(a + b, level, r) == Counter(a, level, r)
    decreases |b|
  {
    hide Covers;
    if b == [] {
      assert a + b == a;
    } else {
      var before := b[..|b| - 1];
      CounterElsewhere(a, before, level, r);
      assert (a + b)[..|a + b| - 1] == a + before;
    }
  }

  lemma SameInForceElsewhere(f: Family, a: seq<Op>, b: seq<Op>, r: ResourceRef)
    requires Elsewhere(b, r)
    ensures InForce(f, a + b, r) == InForce(f, a, r)
  {
    hide Counter;
    CounterElsewhere(a, b, ResourceLevel, r);
    CounterElsewhere(a, b, TenantLevel, r);
    CounterElsewhere(a, b, GlobalLevel, r);
  }

  lemma ServedSinceMeansReuse(f: Family, h: seq<Op>, t: seq<Op>, a: seq<Op>, r: ResourceRef, action: string, now: real)
    requires Interleaves(f, h, a, now) && AllOk(f, h + t) && Elsewhere(Moves(t), r) && NotFilled(t, r) && r.Plainly()
    requires forall i :: 0 <= i < |a| ==> IsMove(a[i])
    requires Fetch(f, Result(f, h + t), r, action, now).Some?
    ensures Reuses(f, a, r, now)
  {
    hide EntryKey, Result, InForce, Namespace, AllOk, Covers;
    MovesElsewhere(t, r);
    SameInForceElsewhere(f, h, t, r);
    assert forall k :: |h| <= k < |h + t| ==> (h + t)[k] == t[k - |h|];
    NamespaceIsInForce(f, h + t, r, now);
    var i := EntryWasFilled(f, h + t, r, action, InForce(f, h, r));
    assert (h + t)[..i] == h[..i] && (h + t)[i] == h[i];
    MovesOfPrefix(h, i);
    var j := NextMove(h, i);
    SameInForce(f, h, r);
    SameInForce(f, h[..i], r);
    var k := |Moves(h[..i])|;
    assert a[..k] == Moves(h[..i]);
    assert h[i].now <= a[k].now;
  }

  lemma ReuseServesSince(f: Family, a: seq<Op>, b: seq<Op>, i: nat, r: ResourceRef, action: string, value: Value, now: real)
    returns (h: seq<Op>)
    requires AllOk(f, a + b) && InOrder(a + b, now) && r.Plainly() && forall k :: 0 <= k < |a + b| ==> IsMove((a + b)[k])
    requires AllOk(f, a) && InOrder(a, now) && (forall k :: 0 <= k < |a| ==> IsMove(a[k])) && Elsewhere(b, r)
    requires i < |a| && IsMove(a[i]) && now < a[i].now + TTL_SECONDS as real && InForce(f, a[..i], r) == InForce(f, a, r)
    ensures Interleaves(f, h, a, now) && AllOk(f, h + b) && InOrder(h + b, now)
    ensures Fetch(f, Result(f, h + b), r, action, now) == Some(value)
  {
    hide EntryKey, LevelKey, InForce, Namespace, Result, Interleaves, Raises, Moves, InOrder, AllOk, Covers;
    var moves := a + b;
    var at := a[i].now;
    var fill := Fill(r, action, value, at);
    h := WithFill(a, i, fill);
    var whole := WithFill(moves, i, fill);
    assert whole == h + b && moves[..i] == a[..i] && moves[i] == a[i];
    FillFitsOp(f, r, action, value, at);
    FillInterleaves(f, a, i, fill, now);
    FillFits(f, moves, i, fill, now);
    var m := InForce(f, a, r);
    FillLies(f, moves, i, r, action, value, at);
    assert forall k :: i + 1 <= k < |whole| ==> whole[k] == moves[k - 1];
    forall level: Level, q: ResourceRef ensures LevelKey(f, level, q) != EntryKey(f.Prefix(), r, m, action) {
      LevelKeyIsNoEntry(f, level, q, r, m, action);
    }
    EntryStays(f, whole, i + 1, EntryKey(f.Prefix(), r, m, action), Item(value, Some(at + TTL_SECONDS as real)));
    SameInForceElsewhere(f, h, b, r);
    InterleavesMeans(f, h, a, now);
    SameInForce(f, h, r);
    NamespaceIsInForce(f, whole, r, now);
  }

  lemma FillFitsOp(f: Family, r: ResourceRef, action: string, value: Value, now: real)
    requires r.Plainly()
    ensures OpOk(f, Fill(r, action, value, now))
  {
  }

  /** The same holds however many invalidations of other things have followed: measured
      from the last of a, an older entry of r can be served exactly when its namespace
      then came back within the lifetime. */
  lemma OldStaysServedExactly(f: Family, a: seq<Op>, b: seq<Op>, r: ResourceRef, action: string, now: real)
    requires AllOk(f, a + b) && InOrder(a + b, now) && r.Plainly() && forall i :: 0 <= i < |a + b| ==> IsMove((a + b)[i])
    requires Elsewhere(b, r)
    ensures CanServeSince(f, a, b, r, action, now) <==> Reuses(f, a, r, now)
  {
    MovesParts(f, a, b, now);
    hide Fetch, InForce, Interleaves, AllOk, InOrder, Elsewhere, NotFilled;
    if CanServeSince(f, a, b, r, action, now) {
      var h, t :|
        && Interleaves(f, h, a, now) && AllOk(f, h + t) && InOrder(h + t, now) && Moves(t) == b && NotFilled(t, r)
        && Fetch(f, Result(f, h + t), r, action, now).Some?;
      ServedSinceMeansReuse(f, h, t, a, r, action, now);
    }
    if Reuses(f, a, r, now) {
      var i :| 0 <= i < |a| && IsMove(a[i]) && now < a[i].now + TTL_SECONDS as real && InForce(f, a[..i], r) == InForce(f, a, r);
      var h := ReuseServesSince(f, a, b, i, r, action, Value.Counter(0), now);
      MovesAreNoFills(b, r);
    }
  }

  lemma MovesAreNoFills(b: seq<Op>, r: ResourceRef)
    requires forall i :: 0 <= i < |b| ==> IsMove(b[i])
    ensures Moves(b) == b && NotFilled(b, r)
  {
    MovesOfMoves(b);
  }

  lemma MovesParts(f: Family, a: seq<Op>, b: seq<Op>, now: real)
    requires AllOk(f, a + b) && InOrder(a + b, now) && forall i :: 0 <= i < |a + b| ==> IsMove((a + b)[i])
    ensures AllOk(f, a) && InOrder(a, now)
    ensures (forall i :: 0 <= i < |a| ==> IsMove(a[i])) && forall i :: 0 <= i < |b| ==> IsMove(b[i])
  {
    hide OpOk;
    var all := a + b;
    assert forall i :: 0 <= i < |a| ==> all[i] == a[i];
    assert forall i :: 0 <= i < |b| ==> all[|a| + i] == b[i];
  }

  // -------------------------------------------------------------- levels and runs

  // A resource that is raised at one level only never sees a namespace twice.
  lemma OneLevelNeverReuses(f: Family, moves: seq<Op>, r: ResourceRef, level: Level, now: real)
    requires moves != [] && OneLevel(moves, r, level) && Covers(moves[|moves| - 1], r)
    requires f.AclFamily? ==> level != TenantLevel
    ensures !Reuses(f, moves, r, now)
  {
    forall i | 0 <= i < |moves| ensures InForce(f, moves[..i], r) != InForce(f, moves, r) {
      OneLevelInForce(f, moves[..i], r, level);
      OneLevelInForce(f, moves, r, level);
      CounterGrows(moves[..|moves| - 1], i, level, r);
      assert moves[..|moves| - 1][..i] == moves[..i];
    }
  }

  lemma OneLevelInForce(f: Family, ops: seq<Op>, r: ResourceRef, level: Level)
    requires OneLevel(ops, r, level) && (f.AclFamily? ==> level != TenantLevel)
    ensures InForce(f, ops, r) == Counter(ops, level, r)
  {
    forall other: Level | other != level ensures Counter(ops, other, r) == 0 {
      OtherLevelsStay(ops, r, level, other);
    }
    hide Counter, OneLevel;
    assert Counter(ops, ResourceLevel, r) >= 0 && Counter(ops, TenantLevel, r) >= 0 && Counter(ops, GlobalLevel, r) >= 0;
  }

  lemma {:induction false} OtherLevelsStay(ops: seq<Op>, r: ResourceRef, level: Level, other: Level)
    requires OneLevel(ops, r, level) && other != level
    ensures Counter(ops, other, r) == 0
  {
    hide Covers;
    if ops == [] {
    } else {
      OtherLevelsStay(ops[..|ops| - 1], r, level, other);
    }
  }

  lemma {:induction false} CounterGrows(ops: seq<Op>, i: nat, level: Level, r: ResourceRef)
    requires i <= |ops|
    ensures Counter(ops[..i], level, r) <= Counter(ops, level, r)
    decreases |ops|
  {
    if i == |ops| {
      assert ops[..i] == ops;
    } else {
      CounterGrows(ops[..|ops| - 1], i, level, r);
      assert ops[..|ops| - 1][..i] == ops[..i];
    }
  }

  /** The entry in view need not be the one that comes back: after two raises of the
      tenant's counter, each followed by a fill, the first raise of the resource's
      brings back what was stored between the two. */
  lemma OlderIndexReturns(r: ResourceRef, action: string, older: Value, newer: Value, now: real)
    requires r.Plainly()
    ensures
      var tenant, own := Invalidate(TenantLevel, r, now), Invalidate(ResourceLevel, r, now);
      var ops := [tenant, Fill(r, action, older, now), tenant, Fill(r, action, newer, now)];
      && Fetch(IndexFamily, Result(IndexFamily, ops), r, action, now) == Some(newer)
      && Fetch(IndexFamily, Result(IndexFamily, ops + [own]), r, action, now) == Some(older)
  {
    var f := IndexFamily;
    var tenant, own := Invalidate(TenantLevel, r, now), Invalidate(ResourceLevel, r, now);
    var ops := [tenant, Fill(r, action, older, now), tenant, Fill(r, action, newer, now)];
    hide EntryKey, Apply, Result, LevelKey, Family.Prefix;
    KeysApart(r, action);
    var s4 := TwiceFilled(r, action, older, newer, now);
    assert Apply(f, s4, own) == s4[LevelKey(f, ResourceLevel, r) := Item(Value.Counter(1), None)] by {
      OwnRaised(s4, r, now);
    }
    FourSteps(f, ops);
    ResultStep(f, ops + [own]);
    assert (ops + [own])[..4] == ops;
  }

  lemma OwnRaised(s: Store, r: ResourceRef, now: real)
    requires LevelKey(IndexFamily, ResourceLevel, r) !in s
    ensures Apply(IndexFamily, s, Invalidate(ResourceLevel, r, now))
         == s[LevelKey(IndexFamily, ResourceLevel, r) := Item(Value.Counter(1), None)]
  {
    hide LevelKey;
  }

  // The store after the two raises and the two fills.
  lemma TwiceFilled(r: ResourceRef, action: string, older: Value, newer: Value, now: real) returns (s4: Store)
    requires r.Plainly()
    ensures
      var f, raise := IndexFamily, Invalidate(TenantLevel, r, now);
      && s4 == Apply(f, Apply(f, Apply(f, Apply(f, map[], raise), Fill(r, action, older, now)), raise), Fill(r, action, newer, now))
      && s4 == map[LevelKey(f, TenantLevel, r) := Item(Value.Counter(2), None),
                   EntryKey(f.Prefix(), r, 1, action) := Item(older, Some(now + 30.0)),
                   EntryKey(f.Prefix(), r, 2, action) := Item(newer, Some(now + 30.0))]
  {
    var f, raise := IndexFamily, Invalidate(TenantLevel, r, now);
    KeysApart(r, action);
    hide EntryKey, LevelKey, Family.Prefix;
    var t := LevelKey(f, TenantLevel, r);
    var first, second := EntryKey(f.Prefix(), r, 1, action), EntryKey(f.Prefix(), r, 2, action);
    var s1 := map[t := Item(Value.Counter(1), None)];
    var s2 := s1[first := Item(older, Some(now + 30.0))];
    var s3 := s2[t := Item(Value.Counter(2), None)];
    s4 := s3[second := Item(newer, Some(now + 30.0))];
    assert Apply(f, map[], raise) == s1 && Apply(f, s1, Fill(r, action, older, now)) == s2;
    assert Apply(f, s2, raise) == s3 && Apply(f, s3, Fill(r, action, newer, now)) == s4;
  }

  // No two keys of the run coincide.
  lemma KeysApart(r: ResourceRef, action: string)
    requires r.Plainly()
    ensures LevelKey(IndexFamily, ResourceLevel, r) != LevelKey(IndexFamily, TenantLevel, r)
    ensures LevelKey(IndexFamily, ResourceLevel, r) != LevelKey(IndexFamily, GlobalLevel, r)
    ensures LevelKey(IndexFamily, TenantLevel, r) != LevelKey(IndexFamily, GlobalLevel, r)
    ensures EntryKey(IndexFamily.Prefix(), r, 1, action) != EntryKey(IndexFamily.Prefix(), r, 2, action)
    ensures forall level: Level, n: nat :: LevelKey(IndexFamily, level, r) != EntryKey(IndexFamily.Prefix(), r, n, action)
  {
    PrefixPlain(IndexFamily);
    LevelsDisjoint(IndexFamily.Prefix(), r, r.tenant);
    forall level: Level, n: nat ensures LevelKey(IndexFamily, level, r) != EntryKey(IndexFamily.Prefix(), r, n, action) {
      LevelKeyIsNoEntry(IndexFamily, level, r, r, n, action);
    }
    if EntryKey(IndexFamily.Prefix(), r, 1, action) == EntryKey(IndexFamily.Prefix(), r, 2, action) {
      EntryKeyInjective(IndexFamily.Prefix(), r, 1, action, r, 2, action);
    }
  }

  lemma FourSteps(f: Family, ops: seq<Op>)
    requires |ops| == 4
    ensures Result(f, ops) == Apply(f, Apply(f, Apply(f, Apply(f, map[], ops[0]), ops[1]), ops[2]), ops[3])
  {
    hide Apply;
    assert After(f, ops, 1) == Apply(f, After(f, ops, 0), ops[0]);
    assert After(f, ops, 2) == Apply(f, After(f, ops, 1), ops[1]);
    assert After(f, ops, 3) == Apply(f, After(f, ops, 2), ops[2]);
  }
}
