/**
  The order in which rendered manifests are applied: by priority, infrastructure before
  workloads, and as rendered within a priority.
*/
module ResourceOrder {
  /** The kinds with a priority of their own, and all others. */
  datatype Kind =
    | ServiceAccount
    | ConfigMap | Secret | Service | NetworkPolicy | ClusterRole | ClusterRoleBinding | Role | RoleBinding
    | Deployment | StatefulSet | DaemonSet | Job
    | OtherKind(kind: string)

  /** What is hashed of a manifest, once namespace, labels and subjects are set. */
  type Content = string

  /** A rendered manifest. Setting an owner on it fails if it is not ownable. */
  datatype Manifest = Manifest(kind: Kind, name: string, content: Content, ownable: bool)

  datatype Key = Key(kind: Kind, name: string)

  function KeyOf(m: Manifest): Key {
    Key(m.kind, m.name)
  }

  // ---- Priorities and the stable sort ----

  const LAST := 3

  function Priority(kind: Kind): (p: nat)
    ensures p <= LAST
  {
    match kind
    case ServiceAccount => 0
    case ConfigMap | Secret | Service | NetworkPolicy | ClusterRole | ClusterRoleBinding | Role | RoleBinding => 1
    case Deployment | StatefulSet | DaemonSet | Job => 2
    case OtherKind(_) => LAST
  }

  /** The manifests of a priority, in the order they come. */
  function Of(ms: seq<Manifest>, p: nat): seq<Manifest> {
    if ms == [] then []
    else if Priority(ms[0].kind) == p then [ms[0]] + Of(ms[1..], p)
    else Of(ms[1..], p)
  }

  /** The manifests of priority `p`, then those of the next, and so on. */
  function SortFrom(ms: seq<Manifest>, p: nat): seq<Manifest>
    decreases LAST + 1 - p
  {
    if p > LAST then [] else Of(ms, p) + SortFrom(ms, p + 1)
  }

  function SortStable(ms: seq<Manifest>): seq<Manifest> {
    SortFrom(ms, 0)
  }

  ghost predicate Ordered(ms: seq<Manifest>) {
    forall i, j | 0 <= i < j < |ms| :: Priority(ms[i].kind) <= Priority(ms[j].kind)
  }

  lemma {:induction false} OfAppend(a: seq<Manifest>, b: seq<Manifest>, p: nat)
    ensures Of(a + b, p) == Of(a, p) + Of(b, p)
  {
    if a == [] {
      assert a + b == b;
    } else {
      assert (a + b)[1..] == a[1..] + b;
      OfAppend(a[1..], b, p);
    }
  }

  lemma {:induction false} OfHasPriority(ms: seq<Manifest>, p: nat)
    ensures forall m | m in Of(ms, p) :: Priority(m.kind) == p
  {
    if ms != [] {
      OfHasPriority(ms[1..], p);
    }
  }

  lemma {:induction false} OfUniform(ms: seq<Manifest>, p: nat, q: nat)
    requires forall m | m in ms :: Priority(m.kind) == p
    ensures Of(ms, q) == if p == q then ms else []
  {
    if ms != [] {
      assert ms[0] in ms;
      OfUniform(ms[1..], p, q);
      assert ms == [ms[0]] + ms[1..];
    }
  }

  lemma OrderedAppend(a: seq<Manifest>, b: seq<Manifest>, p: nat)
    requires (forall m | m in a :: Priority(m.kind) == p) && (forall m | m in b :: p < Priority(m.kind)) && Ordered(b)
    ensures Ordered(a + b)
  {
    var s := a + b;
    forall i, j | 0 <= i < j < |s| ensures Priority(s[i].kind) <= Priority(s[j].kind) {
      assert s[i] in a || (s[i] == b[i - |a|] && s[j] == b[j - |a|]);
      assert s[j] in a || s[j] in b;
    }
  }

  lemma {:induction false} SortedFrom(ms: seq<Manifest>, p: nat)
    ensures Ordered(SortFrom(ms, p)) && forall m | m in SortFrom(ms, p) :: p <= Priority(m.kind)
    decreases LAST + 1 - p
  {
    if p <= LAST {
      OfHasPriority(ms, p);
      SortedFrom(ms, p + 1);
      OrderedAppend(Of(ms, p), SortFrom(ms, p + 1), p);
    }
  }

  lemma {:induction false} OfSortFrom(ms: seq<Manifest>, p: nat, q: nat)
    requires q <= LAST
    ensures Of(SortFrom(ms, p), q) == if p <= q then Of(ms, q) else []
    decreases LAST + 1 - p
  {
    if p <= LAST {
      OfAppend(Of(ms, p), SortFrom(ms, p + 1), q);
      OfHasPriority(ms, p);
      OfUniform(Of(ms, p), p, q);
      OfSortFrom(ms, p + 1, q);
    }
  }

  /** The sort is ordered and keeps, for each priority, the manifests and their order. */
  lemma SortIsStable(ms: seq<Manifest>)
    ensures Ordered(SortStable(ms)) && forall q | 0 <= q <= LAST :: Of(SortStable(ms), q) == Of(ms, q)
  {
    SortedFrom(ms, 0);
    forall q | 0 <= q <= LAST ensures Of(SortStable(ms), q) == Of(ms, q) {
      OfSortFrom(ms, 0, q);
    }
  }

  lemma {:induction false} SortFromSkips(m: Manifest, ms: seq<Manifest>, p: nat)
    requires Priority(m.kind) < p
    ensures SortFrom([m] + ms, p) == SortFrom(ms, p)
    decreases LAST + 1 - p
  {
    assert ([m] + ms)[1..] == ms;
    if p <= LAST {
      SortFromSkips(m, ms, p + 1);
    }
  }

  lemma SortFromTakes(m: Manifest, ms: seq<Manifest>, p: nat)
    requires Priority(m.kind) == p
    ensures SortFrom([m] + ms, p) == [m] + SortFrom(ms, p)
  {
    assert ([m] + ms)[1..] == ms;
    SortFromSkips(m, ms, p + 1);
    assert SortFrom([m] + ms, p) == ([m] + Of(ms, p)) + SortFrom(ms, p + 1);
  }

  lemma {:induction false} OfNone(ms: seq<Manifest>, p: nat)
    requires forall m | m in ms :: p < Priority(m.kind)
    ensures Of(ms, p) == []
  {
    if ms != [] {
      OfNone(ms[1..], p);
    }
  }

  lemma HeadIsLeast(ms: seq<Manifest>)
    requires Ordered(ms) && ms != []
    ensures (forall m | m in ms :: Priority(ms[0].kind) <= Priority(m.kind)) && Ordered(ms[1..])
  {
    forall m | m in ms ensures Priority(ms[0].kind) <= Priority(m.kind) {
      var i :| 0 <= i < |ms| && ms[i] == m;
    }
  }

  lemma {:induction false} OrderedIsSorted(ms: seq<Manifest>, p: nat)
    requires Ordered(ms) && forall m | m in ms :: p <= Priority(m.kind)
    ensures SortFrom(ms, p) == ms
    decreases |ms|, LAST + 1 - p
  {
    if ms == [] {
      SortOfNone(p);
    } else {
      var m, rest := ms[0], ms[1..];
      assert ms == [m] + rest && m in ms;
      HeadIsLeast(ms);
      if Priority(m.kind) == p {
        OrderedIsSorted(rest, p);
        SortFromTakes(m, rest, p);
      } else {
        OfNone(ms, p);
        OrderedIsSorted(ms, p + 1);
      }
    }
  }

  lemma {:induction false} SortOfNone(p: nat)
    ensures SortFrom([], p) == []
    decreases LAST + 1 - p
  {
    if p <= LAST {
      SortOfNone(p + 1);
    }
  }

  lemma {:induction false} SortDependsOnOf(a: seq<Manifest>, b: seq<Manifest>, p: nat)
    requires forall q | 0 <= q <= LAST :: Of(a, q) == Of(b, q)
    ensures SortFrom(a, p) == SortFrom(b, p)
    decreases LAST + 1 - p
  {
    if p <= LAST {
      SortDependsOnOf(a, b, p + 1);
    }
  }

  /** That determines it: an ordered list with the same manifests for each priority is the sorted one. */
  lemma SortIsUnique(ms: seq<Manifest>, sorted: seq<Manifest>)
    requires Ordered(sorted) && forall q | 0 <= q <= LAST :: Of(sorted, q) == Of(ms, q)
    ensures sorted == SortStable(ms)
  {
    OrderedIsSorted(sorted, 0);
    SortDependsOnOf(sorted, ms, 0);
  }

  // ---- Keys stay distinct ----

  ghost predicate DistinctKeys(ms: seq<Manifest>) {
    forall i, j | 0 <= i < j < |ms| :: KeyOf(ms[i]) != KeyOf(ms[j])
  }

  lemma {:induction false} OfIsPart(ms: seq<Manifest>, p: nat)
    ensures forall m | m in Of(ms, p) :: m in ms
  {
    if ms != [] {
      OfIsPart(ms[1..], p);
    }
  }

  lemma {:induction false} OfDistinct(ms: seq<Manifest>, p: nat)
    requires DistinctKeys(ms)
    ensures DistinctKeys(Of(ms, p))
  {
    if ms != [] {
      var rest := ms[1..];
      OfDistinct(rest, p);
      OfIsPart(rest, p);
      forall m | m in rest ensures KeyOf(ms[0]) != KeyOf(m) {
        var i :| 0 <= i < |rest| && rest[i] == m;
        assert ms[i + 1] == m;
      }
    }
  }

  lemma {:induction false} SortFromDistinct(ms: seq<Manifest>, p: nat)
    requires DistinctKeys(ms)
    ensures DistinctKeys(SortFrom(ms, p))
    decreases LAST + 1 - p
  {
    if p <= LAST {
      SortFromDistinct(ms, p + 1);
      OfDistinct(ms, p);
      OfHasPriority(ms, p);
      SortedFrom(ms, p + 1);
      DistinctAppend(Of(ms, p), SortFrom(ms, p + 1), p);
    }
  }

  lemma DistinctAppend(a: seq<Manifest>, b: seq<Manifest>, p: nat)
    requires (forall m | m in a :: Priority(m.kind) == p) && (forall m | m in b :: p < Priority(m.kind))
    requires DistinctKeys(a) && DistinctKeys(b)
    ensures DistinctKeys(a + b)
  {
    var s := a + b;
    forall i, j | 0 <= i < j < |s| ensures KeyOf(s[i]) != KeyOf(s[j]) {
      assert s[i] in a || (s[i] == b[i - |a|] && s[j] == b[j - |a|]);
      assert (j < |a| && s[i] == a[i] && s[j] == a[j]) || s[j] in b;
    }
  }

  // ---- Lists that leave some manifests out ----

  /** The first list is the second with some manifests left out. */
  ghost predicate Within(a: seq<Manifest>, b: seq<Manifest>) {
    a == [] || (b != [] && if a[0] == b[0] then Within(a[1..], b[1..]) else Within(a, b[1..]))
  }

  lemma {:induction false} WithinTail(a: seq<Manifest>, b: seq<Manifest>)
    requires a != [] && Within(a, b)
    ensures Within(a[1..], b)
    decreases |b|, 0
  {
    if a[0] == b[0] {
      WithinCons(a[1..], b[0], b[1..]);
      assert b == [b[0]] + b[1..];
    } else {
      WithinTail(a, b[1..]);
      WithinCons(a[1..], b[0], b[1..]);
      assert b == [b[0]] + b[1..];
    }
  }

  lemma {:induction false} WithinCons(a: seq<Manifest>, m: Manifest, b: seq<Manifest>)
    requires Within(a, b)
    ensures Within(a, [m] + b)
    decreases |b|, 1
  {
    assert ([m] + b)[1..] == b;
    if a != [] && a[0] == m {
      WithinTail(a, b);
    }
  }

  lemma {:induction false} WithinOf(a: seq<Manifest>, b: seq<Manifest>, p: nat)
    requires Within(a, b)
    ensures Within(Of(a, p), Of(b, p))
    decreases |b|
  {
    if a != [] {
      if a[0] == b[0] {
        WithinOf(a[1..], b[1..], p);
        if Priority(a[0].kind) == p {
          assert Of(a, p)[1..] == Of(a[1..], p) && Of(b, p)[1..] == Of(b[1..], p);
        }
      } else {
        WithinOf(a, b[1..], p);
        if Priority(b[0].kind) == p {
          WithinCons(Of(a, p), b[0], Of(b[1..], p));
        }
      }
    }
  }

  lemma {:induction false} WithinOrdered(a: seq<Manifest>, b: seq<Manifest>)
    requires Within(a, b) && Ordered(b)
    ensures Ordered(a) && forall m | m in a :: m in b
    decreases |b|
  {
    if a != [] {
      HeadIsLeast(b);
      if a[0] == b[0] {
        WithinOrdered(a[1..], b[1..]);
        assert a == [b[0]] + a[1..];
        OrderedCons(a);
      } else {
        WithinOrdered(a, b[1..]);
      }
    }
  }

  lemma OrderedCons(ms: seq<Manifest>)
    requires ms != [] && Ordered(ms[1..]) && forall m | m in ms[1..] :: Priority(ms[0].kind) <= Priority(m.kind)
    ensures Ordered(ms)
  {
    forall i, j | 0 <= i < j < |ms| ensures Priority(ms[i].kind) <= Priority(ms[j].kind) {
      assert ms[j] == ms[1..][j - 1];
      assert i > 0 ==> ms[i] == ms[1..][i - 1];
    }
  }
}
