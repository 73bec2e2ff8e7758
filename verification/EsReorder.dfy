/**
  The order of members does not matter: mapping responses that differ only in the order of members,
  at any depth, merge to the same fields.
*/
module EsReorder {
  import opened Options
  import opened EsMapping

  // ---- Lists of members ----

  function Length(ms: Members): nat {
    if ms.Nil? then 0 else 1 + Length(ms.rest)
  }

  function NameAt(ms: Members, k: nat): string
    requires k < Length(ms)
  {
    if k == 0 then ms.name else NameAt(ms.rest, k - 1)
  }

  function ValueAt(ms: Members, k: nat): Json
    requires k < Length(ms)
  {
    if k == 0 then ms.value else ValueAt(ms.rest, k - 1)
  }

  function Without(ms: Members, k: nat): Members
    requires k < Length(ms)
  {
    if k == 0 then ms.rest else Cons(ms.name, ms.value, Without(ms.rest, k - 1))
  }

  /** No object has two members of the same name, at any depth. */
  predicate WellFormed(v: Json)
    decreases v
  {
    v.Obj? ==> Distinct(v.members)
  }

  predicate Distinct(ms: Members)
    decreases ms
  {
    ms.Cons? ==> Lookup(ms.rest, ms.name).None? && WellFormed(ms.value) && Distinct(ms.rest)
  }

  lemma {:induction false} LookupAt(ms: Members, k: nat)
    requires Distinct(ms) && k < Length(ms)
    ensures Lookup(ms, NameAt(ms, k)) == Some(ValueAt(ms, k)) && WellFormed(ValueAt(ms, k))
  {
    if k > 0 {
      LookupAt(ms.rest, k - 1);
    }
  }

  lemma {:induction false} LookupWithout(ms: Members, k: nat, key: string)
    requires Distinct(ms) && k < Length(ms)
    ensures Lookup(Without(ms, k), key) == if key == NameAt(ms, k) then None else Lookup(ms, key)
  {
    if k > 0 {
      LookupWithout(ms.rest, k - 1, key);
      LookupAt(ms.rest, k - 1);
    }
  }

  lemma {:induction false} DistinctWithout(ms: Members, k: nat)
    requires Distinct(ms) && k < Length(ms)
    ensures Distinct(Without(ms, k))
  {
    if k > 0 {
      DistinctWithout(ms.rest, k - 1);
      LookupWithout(ms.rest, k - 1, ms.name);
    }
  }

  // ---- Equal up to the order of members ----

  ghost predicate Same(a: Json, b: Json)
    decreases a
  {
    if a.Obj? then b.Obj? && SameMembers(a.members, b.members) else a == b
  }

  ghost predicate SameMembers(xs: Members, ys: Members)
    decreases xs, 1
  {
    if xs.Nil? then ys.Nil? else exists k | 0 <= k < Length(ys) :: Matches(xs, ys, k)
  }

  /** The first of the one list is member `k` of the other, and the rests are the same. */
  ghost predicate Matches(xs: Members, ys: Members, k: nat)
    requires xs.Cons? && k < Length(ys)
    decreases xs, 0
  {
    NameAt(ys, k) == xs.name && Same(xs.value, ValueAt(ys, k)) && SameMembers(xs.rest, Without(ys, k))
  }

  ghost predicate SameFound(a: Option<Json>, b: Option<Json>) {
    if a.None? then b.None? else b.Some? && Same(a.value, b.value) && WellFormed(a.value) && WellFormed(b.value)
  }

  lemma {:induction false} LookupSame(xs: Members, ys: Members, key: string)
    requires SameMembers(xs, ys) && Distinct(xs) && Distinct(ys)
    ensures SameFound(Lookup(xs, key), Lookup(ys, key))
    decreases xs
  {
    if xs.Cons? {
      var k :| 0 <= k < Length(ys) && Matches(xs, ys, k);
      LookupAt(ys, k);
      LookupWithout(ys, k, key);
      DistinctWithout(ys, k);
      LookupSame(xs.rest, Without(ys, k), key);
    }
  }

  lemma GetSame(a: Json, b: Json, key: string)
    requires Same(a, b) && WellFormed(a) && WellFormed(b)
    ensures SameFound(Get(a, key), Get(b, key))
  {
    if a.Obj? {
      LookupSame(a.members, b.members, key);
    }
  }

  // ---- The same leaves ----

  lemma {:induction false} TakeOut(ms: Members, k: nat, prefix: string)
    requires k < Length(ms)
    ensures multiset(LeavesOf(ms, prefix))
         == multiset(LeavesAt(ValueAt(ms, k), Extend(prefix, NameAt(ms, k)))) + multiset(LeavesOf(Without(ms, k), prefix))
  {
    if k > 0 {
      TakeOut(ms.rest, k - 1, prefix);
    }
  }

  lemma {:induction false} LeavesSame(xs: Members, ys: Members, prefix: string)
    requires SameMembers(xs, ys) && Distinct(xs) && Distinct(ys)
    ensures multiset(LeavesOf(xs, prefix)) == multiset(LeavesOf(ys, prefix))
    decreases xs
  {
    if xs.Cons? {
      var k :| 0 <= k < Length(ys) && Matches(xs, ys, k);
      LookupAt(ys, k);
      DistinctWithout(ys, k);
      LeavesSameAt(xs.value, ValueAt(ys, k), Extend(prefix, xs.name));
      LeavesSame(xs.rest, Without(ys, k), prefix);
      TakeOut(ys, k, prefix);
    }
  }

  lemma {:induction false} LeavesSameAt(v: Json, w: Json, path: string)
    requires Same(v, w) && WellFormed(v) && WellFormed(w)
    ensures multiset(LeavesAt(v, path)) == multiset(LeavesAt(w, path))
    decreases v
  {
    GetSame(v, w, "properties");
    GetSame(v, w, "type");
    if Get(v, "properties").Some? {
      LeavesSameBelow(Get(v, "properties").value, Get(w, "properties").value, path);
    }
  }

  lemma {:induction false} LeavesSameBelow(a: Json, b: Json, prefix: string)
    requires Same(a, b) && WellFormed(a) && WellFormed(b)
    ensures multiset(Leaves(a, prefix)) == multiset(Leaves(b, prefix))
    decreases a
  {
    if a.Obj? {
      LeavesSame(a.members, b.members, prefix);
    }
  }

  // ---- The same responses ----

  function LeavesOfIndex(v: Json): seq<Field> {
    match MappedProperties(v) case Some(p) => Leaves(p, "") case None => []
  }

  lemma MappedSame(a: Json, b: Json)
    requires Same(a, b) && WellFormed(a) && WellFormed(b)
    ensures multiset(LeavesOfIndex(a)) == multiset(LeavesOfIndex(b))
  {
    GetSame(a, b, "mappings");
    if Get(a, "mappings").Some? {
      GetSame(Get(a, "mappings").value, Get(b, "mappings").value, "properties");
      if MappedProperties(a).Some? {
        LeavesSameBelow(MappedProperties(a).value, MappedProperties(b).value, "");
      }
    }
  }

  lemma {:induction false} TakeOutIndex(ms: Members, k: nat)
    requires k < Length(ms)
    ensures multiset(IndexLeaves(ms)) == multiset(LeavesOfIndex(ValueAt(ms, k))) + multiset(IndexLeaves(Without(ms, k)))
  {
    if k > 0 {
      TakeOutIndex(ms.rest, k - 1);
    }
  }

  lemma {:induction false} IndexLeavesSame(xs: Members, ys: Members)
    requires SameMembers(xs, ys) && Distinct(xs) && Distinct(ys)
    ensures multiset(IndexLeaves(xs)) == multiset(IndexLeaves(ys))
    decreases xs
  {
    if xs.Cons? {
      var k :| 0 <= k < Length(ys) && Matches(xs, ys, k);
      LookupAt(ys, k);
      DistinctWithout(ys, k);
      MappedSame(xs.value, ValueAt(ys, k));
      IndexLeavesSame(xs.rest, Without(ys, k));
      TakeOutIndex(ys, k);
    }
  }

  /** Responses that differ only in the order of members, indices included, have the same leaves. */
  lemma ResponsesHaveSameLeaves(a: Json, b: Json)
    requires Same(a, b) && WellFormed(a) && WellFormed(b)
    ensures multiset(ResponseLeaves(a)) == multiset(ResponseLeaves(b))
  {
    MappedSame(a, b);
    if a.Obj? {
      IndexLeavesSame(a.members, b.members);
      assert IndexLeaves(a.members) == [] <==> multiset(IndexLeaves(a.members)) == multiset{};
      assert IndexLeaves(b.members) == [] <==> multiset(IndexLeaves(b.members)) == multiset{};
    }
  }

  /** And so they merge to the same fields. */
  lemma ResponsesMergeAlike(a: Json, b: Json, fields: seq<Field>, fields': seq<Field>)
    requires Same(a, b) && WellFormed(a) && WellFormed(b)
    requires Summarises(fields, ResponseLeaves(a)) && Summarises(fields', ResponseLeaves(b))
    ensures multiset(fields) == multiset(fields')
  {
    ResponsesHaveSameLeaves(a, b);
    OrderDoesNotMatter(ResponseLeaves(a), ResponseLeaves(b), fields, fields');
  }
}
