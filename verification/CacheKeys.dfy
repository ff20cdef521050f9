/** The colon-joined keys of the shared cache backend. */
module CacheKeys {
  import opened Text

  predicate Plain(s: string) {
    ':' !in s
  }

  // The parts joined with colons.
  function Join(parts: seq<string>): string
    requires parts != []
  {
    if |parts| == 1 then parts[0] else parts[0] + ":" + Join(parts[1..])
  }

  // A colon-free head is recovered from what follows it.
  lemma HeadDetermined(x: string, s: string, y: string, t: string)
    requires Plain(x) && Plain(y) && x + ":" + s == y + ":" + t
    ensures x == y && s == t
  {
    var whole := x + ":" + s;
    assert whole[|x|] == ':' && (y + ":" + t)[|y|] == ':';
    assert forall k :: 0 <= k < |x| ==> x[k] == whole[k] && whole[k] != ':';
    assert forall k :: 0 <= k < |y| ==> y[k] == whole[k] && whole[k] != ':';
    assert whole[..|x|] == x && (y + ":" + t)[..|y|] == y;
    assert whole[|x| + 1..] == s && (y + ":" + t)[|y| + 1..] == t;
  }

  lemma PlainIsNotJoined(x: string, y: string, t: string)
    requires Plain(x)
    ensures x != y + ":" + t
  {
    assert (y + ":" + t)[|y|] == ':';
  }

  ghost predicate PlainButLast(parts: seq<string>) {
    forall i :: 0 <= i < |parts| - 1 ==> Plain(parts[i])
  }

  lemma {:induction false} JoinInjective(a: seq<string>, b: seq<string>)
    requires |a| == |b| > 0 && PlainButLast(a) && PlainButLast(b) && Join(a) == Join(b)
    ensures a == b
  {
    if |a| > 1 {
      HeadDetermined(a[0], Join(a[1..]), b[0], Join(b[1..]));
      JoinInjective(a[1..], b[1..]);
      assert a == [a[0]] + a[1..] && b == [b[0]] + b[1..];
    }
  }

  lemma NatTextPlain(n: nat)
    ensures Plain(NatText(n))
  {
    assert !IsDigit(':');
  }

  lemma NatTextInjective(m: nat, n: nat)
    requires NatText(m) == NatText(n)
    ensures m == n
  {
    NatTextReadsBack(m);
    NatTextReadsBack(n);
  }

  // ------------------------------------------------ the keys of one cache family

  // A resource of a tenant.
  datatype ResourceRef = ResourceRef(tenant: nat, kind: string, id: string)
  {
    // The source joins type and id with a colon, and relies on neither holding one.
    predicate Plainly() {
      Plain(kind) && Plain(id)
    }
  }

  function EntryKey(prefix: string, r: ResourceRef, namespace: nat, action: string): string {
    Join([prefix, NatText(r.tenant), NatText(namespace), r.kind, r.id, action])
  }

  function ResourceKey(prefix: string, r: ResourceRef): string {
    Join([prefix + "ns", NatText(r.tenant), r.kind, r.id])
  }

  function TenantKey(prefix: string, tenant: nat): string {
    Join([prefix + "ns", NatText(tenant), "tenant"])
  }

  function GlobalKey(prefix: string): string {
    Join([prefix + "ns", "global"])
  }

  // The family a key belongs to: what stands before its first colon.
  ghost predicate InFamily(head: string, key: string) {
    exists rest :: key == head + ":" + rest
  }

  lemma FamiliesDisjoint(head: string, other: string, key: string)
    requires Plain(head) && Plain(other) && head != other && InFamily(head, key)
    ensures !InFamily(other, key)
  {
    var rest :| key == head + ":" + rest;
    forall t | key == other + ":" + t ensures false {
      HeadDetermined(head, rest, other, t);
    }
  }

  lemma KeyFamilies(prefix: string, r: ResourceRef, namespace: nat, action: string)
    ensures InFamily(prefix, EntryKey(prefix, r, namespace, action))
    ensures InFamily(prefix + "ns", ResourceKey(prefix, r))
    ensures InFamily(prefix + "ns", TenantKey(prefix, r.tenant))
    ensures InFamily(prefix + "ns", GlobalKey(prefix))
  {
  }

  lemma EntryKeyInjective(prefix: string, r: ResourceRef, m: nat, a: string, q: ResourceRef, n: nat, b: string)
    requires Plain(prefix) && r.Plainly() && q.Plainly()
    requires EntryKey(prefix, r, m, a) == EntryKey(prefix, q, n, b)
    ensures r == q && m == n && a == b
  {
    NatTextPlain(r.tenant);
    NatTextPlain(q.tenant);
    NatTextPlain(m);
    NatTextPlain(n);
    var x := [prefix, NatText(r.tenant), NatText(m), r.kind, r.id, a];
    var y := [prefix, NatText(q.tenant), NatText(n), q.kind, q.id, b];
    JoinInjective(x, y);
    assert x[1] == y[1] && x[2] == y[2] && x[3] == y[3] && x[4] == y[4] && x[5] == y[5];
    NatTextInjective(r.tenant, q.tenant);
    NatTextInjective(m, n);
  }

  lemma ResourceKeyInjective(prefix: string, r: ResourceRef, q: ResourceRef)
    requires Plain(prefix) && r.Plainly() && q.Plainly() && ResourceKey(prefix, r) == ResourceKey(prefix, q)
    ensures r == q
  {
    NatTextPlain(r.tenant);
    NatTextPlain(q.tenant);
    PlainPrefix(prefix);
    var x := [prefix + "ns", NatText(r.tenant), r.kind, r.id];
    var y := [prefix + "ns", NatText(q.tenant), q.kind, q.id];
    JoinInjective(x, y);
    assert x[1] == y[1] && x[2] == y[2] && x[3] == y[3];
    NatTextInjective(r.tenant, q.tenant);
  }

  lemma PlainPrefix(prefix: string)
    requires Plain(prefix)
    ensures Plain(prefix + "ns") && Plain("tenant") && Plain("global") && prefix != prefix + "ns"
  {
    assert |prefix| != |prefix + "ns"|;
  }

  lemma TenantKeyInjective(prefix: string, s: nat, t: nat)
    requires Plain(prefix) && TenantKey(prefix, s) == TenantKey(prefix, t)
    ensures s == t
  {
    NatTextPlain(s);
    NatTextPlain(t);
    PlainPrefix(prefix);
    var x := [prefix + "ns", NatText(s), "tenant"];
    var y := [prefix + "ns", NatText(t), "tenant"];
    JoinInjective(x, y);
    assert x[1] == y[1];
    NatTextInjective(s, t);
  }

  // --------------------------------------------------- which keys are shared

  // What a key ends in, once family, tenant and namespace are taken off.
  function ResourceTail(r: ResourceRef): string {
    r.kind + ":" + r.id
  }

  function EntryTail(r: ResourceRef, action: string): string {
    r.kind + ":" + (r.id + ":" + action)
  }

  lemma ResourceKeysMeet(prefix: string, r: ResourceRef, q: ResourceRef)
    requires Plain(prefix)
    ensures ResourceKey(prefix, r) == ResourceKey(prefix, q) <==> r.tenant == q.tenant && ResourceTail(r) == ResourceTail(q)
  {
    ResourceKeyParts(prefix, r);
    ResourceKeyParts(prefix, q);
    PlainPrefix(prefix);
    NatTextPlain(r.tenant);
    NatTextPlain(q.tenant);
    hide ResourceKey, ResourceTail, Plain;
    if ResourceKey(prefix, r) == ResourceKey(prefix, q) {
      HeadDetermined(prefix + "ns", NatText(r.tenant) + ":" + ResourceTail(r), prefix + "ns", NatText(q.tenant) + ":" + ResourceTail(q));
      HeadDetermined(NatText(r.tenant), ResourceTail(r), NatText(q.tenant), ResourceTail(q));
      NatTextInjective(r.tenant, q.tenant);
    }
  }

  lemma JoinStep(head: seq<string>, rest: seq<string>)
    requires |head| == 1 && rest != []
    ensures Join(head + rest) == head[0] + ":" + Join(rest)
  {
    assert (head + rest)[1..] == rest;
  }

  lemma ResourceKeyParts(prefix: string, r: ResourceRef)
    ensures ResourceKey(prefix, r) == (prefix + "ns") + ":" + (NatText(r.tenant) + ":" + ResourceTail(r))
  {
    var x := [prefix + "ns", NatText(r.tenant), r.kind, r.id];
    JoinStep([r.kind], [r.id]);
    JoinStep([NatText(r.tenant)], [r.kind, r.id]);
    JoinStep([prefix + "ns"], [NatText(r.tenant), r.kind, r.id]);
    assert x == [prefix + "ns"] + ([NatText(r.tenant)] + ([r.kind] + [r.id]));
  }

  // Counters of different levels never share a key, colons or not.
  lemma LevelsDisjoint(prefix: string, r: ResourceRef, tenant: nat)
    requires Plain(prefix)
    ensures ResourceKey(prefix, r) != TenantKey(prefix, tenant)
    ensures ResourceKey(prefix, r) != GlobalKey(prefix)
    ensures TenantKey(prefix, tenant) != GlobalKey(prefix)
  {
    NatTextPlain(r.tenant);
    NatTextPlain(tenant);
    PlainPrefix(prefix);
    ResourceKeyParts(prefix, r);
    var head, own, other := prefix + "ns", NatText(r.tenant), NatText(tenant);
    JoinStep([other], ["tenant"]);
    JoinStep([head], [other, "tenant"]);
    JoinStep([head], ["global"]);
    assert [head, other, "tenant"] == [head] + ([other] + ["tenant"]) && [head, "global"] == [head] + ["global"];
    PlainIsNotJoined("global", own, ResourceTail(r));
    PlainIsNotJoined("global", other, "tenant");
    PlainIsNotJoined("tenant", r.kind, r.id);
    if ResourceKey(prefix, r) == TenantKey(prefix, tenant) {
      HeadDetermined(head, own + ":" + ResourceTail(r), head, other + ":" + "tenant");
      HeadDetermined(own, ResourceTail(r), other, "tenant");
    }
    if ResourceKey(prefix, r) == GlobalKey(prefix) {
      HeadDetermined(head, own + ":" + ResourceTail(r), head, "global");
    }
    if TenantKey(prefix, tenant) == GlobalKey(prefix) {
      HeadDetermined(head, other + ":" + "tenant", head, "global");
    }
  }

  lemma EntryKeysMeet(prefix: string, r: ResourceRef, m: nat, a: string, q: ResourceRef, n: nat, b: string)
    requires Plain(prefix)
    ensures EntryKey(prefix, r, m, a) == EntryKey(prefix, q, n, b)
       <==> r.tenant == q.tenant && m == n && EntryTail(r, a) == EntryTail(q, b)
  {
    EntryKeyParts(prefix, r, m, a);
    EntryKeyParts(prefix, q, n, b);
    NatTextPlain(r.tenant);
    NatTextPlain(q.tenant);
    NatTextPlain(m);
    NatTextPlain(n);
    hide EntryKey, EntryTail, Plain;
    if EntryKey(prefix, r, m, a) == EntryKey(prefix, q, n, b) {
      var s, t := NatText(m) + ":" + EntryTail(r, a), NatText(n) + ":" + EntryTail(q, b);
      HeadDetermined(prefix, NatText(r.tenant) + ":" + s, prefix, NatText(q.tenant) + ":" + t);
      HeadDetermined(NatText(r.tenant), s, NatText(q.tenant), t);
      HeadDetermined(NatText(m), EntryTail(r, a), NatText(n), EntryTail(q, b));
      NatTextInjective(r.tenant, q.tenant);
      NatTextInjective(m, n);
    }
  }

  lemma EntryKeyParts(prefix: string, r: ResourceRef, n: nat, a: string)
    ensures EntryKey(prefix, r, n, a) == prefix + ":" + (NatText(r.tenant) + ":" + (NatText(n) + ":" + EntryTail(r, a)))
  {
    var x := [prefix, NatText(r.tenant), NatText(n), r.kind, r.id, a];
    JoinStep([r.id], [a]);
    JoinStep([r.kind], [r.id, a]);
    JoinStep([NatText(n)], [r.kind, r.id, a]);
    JoinStep([NatText(r.tenant)], [NatText(n), r.kind, r.id, a]);
    JoinStep([prefix], [NatText(r.tenant), NatText(n), r.kind, r.id, a]);
    assert x == [prefix] + ([NatText(r.tenant)] + ([NatText(n)] + ([r.kind] + ([r.id] + [a]))));
  }

  // The text before the first colon, and the text after it.
  lemma {:induction false} FirstColon(s: string) returns (x: string, y: string)
    requires !Plain(s)
    ensures Plain(x) && s == x + ":" + y
  {
    if s[0] == ':' {
      x, y := "", s[1..];
    } else {
      assert s == [s[0]] + s[1..];
      x, y := FirstColon(s[1..]);
      x := [s[0]] + x;
    }
  }

  // Two joined texts with a colon-free head and a colon-free rest are joined of the same.
  lemma PlainPairDetermined(x: string, s: string, y: string, t: string)
    requires Plain(x) && Plain(s) && x + ":" + s == y + ":" + t
    ensures x == y && s == t
  {
    if Plain(y) {
      HeadDetermined(x, s, y, t);
    } else {
      var u, v := FirstColon(y);
      assert y + ":" + t == u + ":" + (v + ":" + t);
      HeadDetermined(x, s, u, v + ":" + t);
      PlainIsNotJoined(s, v, t);
      assert false;
    }
  }

  lemma PlainTripleDetermined(x: string, s: string, a: string, y: string, t: string, b: string)
    requires Plain(x) && Plain(s) && Plain(a) && x + ":" + (s + ":" + a) == y + ":" + (t + ":" + b)
    ensures x == y && s == t && a == b
  {
    if Plain(y) {
      HeadDetermined(x, s + ":" + a, y, t + ":" + b);
      PlainPairDetermined(s, a, t, b);
    } else {
      var u, v := FirstColon(y);
      assert y + ":" + (t + ":" + b) == u + ":" + (v + ":" + (t + ":" + b));
      HeadDetermined(x, s + ":" + a, u, v + ":" + (t + ":" + b));
      PlainPairDetermined(s, a, v, t + ":" + b);
      PlainIsNotJoined(a, t, b);
      assert false;
    }
  }

  // Moving the joining colon to a colon inside the type or the id gives another resource.
  lemma Shifted(r: ResourceRef) returns (q: ResourceRef)
    requires !r.Plainly()
    ensures q != r && q.tenant == r.tenant && ResourceTail(q) == ResourceTail(r)
    ensures forall a :: EntryTail(q, a) == EntryTail(r, a)
  {
    if !Plain(r.kind) {
      var x, y := FirstColon(r.kind);
      q := ResourceRef(r.tenant, x, y + ":" + r.id);
      assert |q.kind| != |r.kind|;
    } else {
      var x, y := FirstColon(r.id);
      q := ResourceRef(r.tenant, r.kind + ":" + x, y);
      assert |q.kind| != |r.kind|;
    }
    assert ResourceTail(q) == ResourceTail(r);
    forall a ensures EntryTail(q, a) == EntryTail(r, a) {
      assert EntryTail(q, a) == ResourceTail(q) + ":" + a;
      assert EntryTail(r, a) == ResourceTail(r) + ":" + a;
    }
  }

  // Another resource has the same counter exactly when the type or the id holds a colon.
  lemma CounterSharedExactly(prefix: string, r: ResourceRef)
    requires Plain(prefix)
    ensures (exists q :: q != r && ResourceKey(prefix, q) == ResourceKey(prefix, r)) <==> !r.Plainly()
  {
    if r.Plainly() {
      forall q | ResourceKey(prefix, q) == ResourceKey(prefix, r) ensures q == r {
        ResourceKeysMeet(prefix, q, r);
        PlainPairDetermined(r.kind, r.id, q.kind, q.id);
      }
    } else {
      var q := Shifted(r);
      ResourceKeysMeet(prefix, q, r);
    }
  }

  // Another resource has the same entry exactly when type, id or action holds a colon.
  lemma EntrySharedExactly(prefix: string, r: ResourceRef, n: nat, a: string)
    requires Plain(prefix)
    ensures (exists q, m, b :: q != r && EntryKey(prefix, q, m, b) == EntryKey(prefix, r, n, a))
       <==> !(r.Plainly() && Plain(a))
  {
    hide EntryKey;
    if r.Plainly() && Plain(a) {
      forall q, m, b | EntryKey(prefix, q, m, b) == EntryKey(prefix, r, n, a) ensures q == r {
        EntryKeysMeet(prefix, q, m, b, r, n, a);
        PlainTripleDetermined(r.kind, r.id, a, q.kind, q.id, b);
      }
    } else if !r.Plainly() {
      var q := Shifted(r);
      EntryKeysMeet(prefix, q, n, a, r, n, a);
    } else {
      var x, y := FirstColon(a);
      var q := ResourceRef(r.tenant, r.kind, r.id + ":" + x);
      assert |q.id| != |r.id|;
      assert r.id + ":" + a == q.id + ":" + y;
      EntryKeysMeet(prefix, q, n, y, r, n, a);
    }
  }

  // For example, "a:b" with id "c" and "a" with id "b:c" share every key.
  lemma ColonsCollide(prefix: string, tenant: nat, namespace: nat, action: string)
    ensures
      var r, q := ResourceRef(tenant, "a:b", "c"), ResourceRef(tenant, "a", "b:c");
      r != q && EntryKey(prefix, r, namespace, action) == EntryKey(prefix, q, namespace, action)
      && ResourceKey(prefix, r) == ResourceKey(prefix, q)
  {
    var r, q := ResourceRef(tenant, "a:b", "c"), ResourceRef(tenant, "a", "b:c");
    assert |r.kind| != |q.kind|;
    assert ResourceTail(r) == ResourceTail(q);
    assert EntryTail(r, action) == ResourceTail(r) + ":" + action && EntryTail(q, action) == ResourceTail(q) + ":" + action;
    EntryKeyParts(prefix, r, namespace, action);
    EntryKeyParts(prefix, q, namespace, action);
    ResourceKeyParts(prefix, r);
    ResourceKeyParts(prefix, q);
  }
}
