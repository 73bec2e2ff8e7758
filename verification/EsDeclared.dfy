/**
  What the merged columns have to do with the mapping: their types are those the mapping declares
  at the places their paths name, and every such place has its column.
*/
module EsDeclared {
  import opened Options
  import opened EsMapping
  import opened EsPaths
  import opened EsReorder

  // ---- Reading a mapping by names ----

  /** The type declared at the end of the names: that of a property without properties of its own. */
  function Declared(ms: Members, names: seq<string>): Option<string>
    decreases |names|, 1
  {
    if names == [] then None
    else match Lookup(ms, names[0])
         case None => None
         case Some(v) => DeclaredAt(v, names[1..])
  }

  function DeclaredAt(v: Json, names: seq<string>): Option<string>
    decreases |names|, 2
  {
    match Get(v, "properties")
    case Some(Obj(sub)) => Declared(sub, names)
    case Some(_) => None
    case None =>
      if names != [] then None
      else match Get(v, "type") case Some(Str(t)) => Some(t) case _ => None
  }

  // ---- Leaves are declared ----

  /** Leaf by leaf, the rest of the trace leads to the leaf's type. */
  ghost predicate Declares(leaves: seq<Field>, traces: seq<seq<string>>, ms: Members, names: seq<string>) {
    |leaves| == |traces| && forall i | 0 <= i < |traces| ::
      names <= traces[i] && Declared(ms, traces[i][|names|..]) == Some(leaves[i].esType)
  }

  ghost predicate DeclaresAt(leaves: seq<Field>, traces: seq<seq<string>>, v: Json, names: seq<string>) {
    |leaves| == |traces| && forall i | 0 <= i < |traces| ::
      names <= traces[i] && DeclaredAt(v, traces[i][|names|..]) == Some(leaves[i].esType)
  }

  lemma {:induction false} LeavesAreDeclared(ms: Members, prefix: string, names: seq<string>)
    requires Distinct(ms)
    ensures Declares(LeavesOf(ms, prefix), TracesOf(ms, names), ms, names)
    decreases ms
  {
    if ms.Cons? {
      var below := names + [ms.name];
      var path := Extend(prefix, ms.name);
      LeavesAreDeclaredAt(ms.value, path, below);
      LeavesAreDeclared(ms.rest, prefix, names);
      FirstDeclares(LeavesAt(ms.value, path), TracesAt(ms.value, below), ms, names);
      RestDeclares(LeavesOf(ms.rest, prefix), TracesOf(ms.rest, names), ms, names);
      DeclaresAppend(LeavesAt(ms.value, path), TracesAt(ms.value, below), LeavesOf(ms.rest, prefix), TracesOf(ms.rest, names), ms, names);
    }
  }

  lemma {:induction false} LeavesAreDeclaredAt(v: Json, path: string, names: seq<string>)
    requires WellFormed(v)
    ensures DeclaresAt(LeavesAt(v, path), TracesAt(v, names), v, names)
    decreases v
  {
    match Get(v, "properties") {
      case Some(sub) =>
        if sub.Obj? {
          FoundIsWellFormed(v.members, "properties");
          LeavesAreDeclared(sub.members, path, names);
        }
      case None =>
    }
  }

  lemma {:induction false} FoundIsWellFormed(ms: Members, key: string)
    requires Distinct(ms) && Lookup(ms, key).Some?
    ensures WellFormed(Lookup(ms, key).value)
  {
    if ms.name != key {
      FoundIsWellFormed(ms.rest, key);
    }
  }

  lemma FirstDeclares(leaves: seq<Field>, traces: seq<seq<string>>, ms: Members, names: seq<string>)
    requires ms.Cons? && DeclaresAt(leaves, traces, ms.value, names + [ms.name])
    ensures Declares(leaves, traces, ms, names)
  {
    forall i | 0 <= i < |traces| ensures names <= traces[i] && Declared(ms, traces[i][|names|..]) == Some(leaves[i].esType) {
      var tail := traces[i][|names|..];
      assert tail[0] == (names + [ms.name])[|names|] && tail[1..] == traces[i][|names| + 1..];
    }
  }

  lemma RestDeclares(leaves: seq<Field>, traces: seq<seq<string>>, ms: Members, names: seq<string>)
    requires ms.Cons? && Distinct(ms) && Declares(leaves, traces, ms.rest, names)
    ensures Declares(leaves, traces, ms, names)
  {
    forall i | 0 <= i < |traces| ensures Declared(ms, traces[i][|names|..]) == Some(leaves[i].esType) {
      var tail := traces[i][|names|..];
      assert Declared(ms.rest, tail).Some? && tail[0] != ms.name;
    }
  }

  lemma DeclaresAppend(a: seq<Field>, s: seq<seq<string>>, b: seq<Field>, t: seq<seq<string>>, ms: Members, names: seq<string>)
    requires Declares(a, s, ms, names) && Declares(b, t, ms, names)
    ensures Declares(a + b, s + t, ms, names)
  {
  }

  // ---- What is declared is a leaf ----

  lemma {:induction false} DeclaredIsTraced(ms: Members, names: seq<string>, tail: seq<string>)
    requires Declared(ms, tail).Some?
    ensures names + tail in TracesOf(ms, names)
    decreases ms
  {
    if ms.name == tail[0] {
      DeclaredIsTracedAt(ms.value, names + [ms.name], tail[1..]);
      assert (names + [ms.name]) + tail[1..] == names + tail;
    } else {
      DeclaredIsTraced(ms.rest, names, tail);
    }
  }

  lemma {:induction false} DeclaredIsTracedAt(v: Json, names: seq<string>, tail: seq<string>)
    requires DeclaredAt(v, tail).Some?
    ensures names + tail in TracesAt(v, names)
    decreases v
  {
    match Get(v, "properties") {
      case Some(sub) =>
        DeclaredIsTraced(sub.members, names, tail);
      case None =>
        assert names + tail == names;
    }
  }

  /** The leaves are exactly the places where the mapping declares a type, and leaf `i` has the type declared at trace `i`. */
  lemma LeavesAreTheDeclared(ms: Members, trace: seq<string>)
    requires Distinct(ms)
    ensures trace in TracesOf(ms, []) <==> Declared(ms, trace).Some?
    ensures |LeavesOf(ms, "")| == |TracesOf(ms, [])|
    ensures forall i | 0 <= i < |TracesOf(ms, [])| ::
              LeavesOf(ms, "")[i].path == PathOf(TracesOf(ms, [])[i]) && Declared(ms, TracesOf(ms, [])[i]) == Some(LeavesOf(ms, "")[i].esType)
  {
    var leaves, traces := LeavesOf(ms, ""), TracesOf(ms, []);
    LeavesAreDeclared(ms, "", []);
    LeavesFollowTraces(ms, []);
    forall i | 0 <= i < |traces| ensures Declared(ms, traces[i]) == Some(leaves[i].esType) {
      assert traces[i][0..] == traces[i];
    }
    if Declared(ms, trace).Some? {
      DeclaredIsTraced(ms, [], trace);
      assert [] + trace == trace;
    }
  }

  /** With names that can be split back, the merged columns are exactly the declared places, each with its declared type. */
  lemma ColumnsAreTheDeclared(ms: Members, fields: seq<Field>, f: Field)
    requires Distinct(ms) && Summarises(fields, LeavesOf(ms, ""))
    requires forall t | t in TracesOf(ms, []) :: Splittable(t)
    ensures f in fields <==> exists trace :: Declared(ms, trace) == Some(f.esType) && PathOf(trace) == f.path
  {
    var leaves, traces := LeavesOf(ms, ""), TracesOf(ms, []);
    FieldOf(leaves, fields, f);
    LeavesAreTheDeclared(ms, []);
    forall l, m | l in leaves && m in leaves && l.path == m.path ensures l.esType == m.esType {
      var i :| 0 <= i < |leaves| && leaves[i] == l;
      var j :| 0 <= j < |leaves| && leaves[j] == m;
      SplitUndoesJoin(traces[i]);
      SplitUndoesJoin(traces[j]);
    }
    if f in fields {
      var l :| l in leaves && l.path == f.path;
      var i :| 0 <= i < |leaves| && leaves[i] == l;
      assert Declared(ms, traces[i]) == Some(f.esType) && PathOf(traces[i]) == f.path;
    }
    if trace :| Declared(ms, trace) == Some(f.esType) && PathOf(trace) == f.path {
      LeavesAreTheDeclared(ms, trace);
      var i :| 0 <= i < |traces| && traces[i] == trace;
      assert leaves[i] == f;
    }
  }

  /** For example: a leaf, an object with a leaf, and an object without. */
  lemma SmallMapping()
    ensures var long := Obj(Cons("type", Str("long"), Nil));
            var user := Obj(Cons("properties", Obj(Cons("name", Obj(Cons("type", Str("keyword"), Nil)), Nil)), Nil));
            LeavesOf(Cons("age", long, Cons("user", user, Cons("raw", Obj(Nil), Nil))), "") == [Field("age", "long"), Field("user.name", "keyword")]
  {
    var long, raw := Obj(Cons("type", Str("long"), Nil)), Obj(Nil);
    var name := Obj(Cons("type", Str("keyword"), Nil));
    var user := Obj(Cons("properties", Obj(Cons("name", name, Nil)), Nil));
    assert Lookup(Nil, "properties") == None && Lookup(Nil, "type") == None;
    assert LeavesAt(long, "age") == [Field("age", "long")];
    assert LeavesAt(name, "user.name") == [Field("user.name", "keyword")];
    assert Extend("user", "name") == "user.name";
    assert LeavesOf(Cons("name", name, Nil), "user") == LeavesAt(name, "user.name") + LeavesOf(Nil, "user");
    assert Leaves(Obj(Cons("name", name, Nil)), "user") == LeavesOf(Cons("name", name, Nil), "user");
    assert Get(user, "properties") == Some(Obj(Cons("name", name, Nil)));
    assert LeavesAt(user, "user") == [Field("user.name", "keyword")];
    assert LeavesAt(raw, "raw") == [];
  }

  // ---- Responses ----

  /** The properties of an index, or of a mapping at the top. */
  predicate Maps(v: Json, properties: Json) {
    Get(v, "mappings").Some? && Get(Get(v, "mappings").value, "properties") == Some(properties)
  }

  /** A leaf of the mapping found in `v`. */
  ghost predicate LeafIn(v: Json, l: Field) {
    exists p | Maps(v, p) :: l in Leaves(p, "")
  }

  /** A leaf of one of the indices. */
  ghost predicate OfSomeIndex(indices: Members, l: Field) {
    exists k | 0 <= k < Length(indices) :: LeafIn(ValueAt(indices, k), l)
  }

  lemma LeafInIs(v: Json, l: Field)
    ensures LeafIn(v, l) <==> MappedProperties(v).Some? && l in Leaves(MappedProperties(v).value, "")
  {
    if MappedProperties(v).Some? {
      assert Maps(v, MappedProperties(v).value);
    }
  }

  lemma {:induction false} IndexLeavesAre(indices: Members, l: Field)
    ensures l in IndexLeaves(indices) <==> OfSomeIndex(indices, l)
    decreases indices
  {
    if indices.Cons? {
      IndexLeavesAre(indices.rest, l);
      LeafInIs(indices.value, l);
      assert ValueAt(indices, 0) == indices.value;
      forall k | 0 <= k < Length(indices.rest) ensures ValueAt(indices, k + 1) == ValueAt(indices.rest, k) {
      }
      if OfSomeIndex(indices, l) {
        var k :| 0 <= k < Length(indices) && LeafIn(ValueAt(indices, k), l);
        assert k > 0 ==> ValueAt(indices, k) == ValueAt(indices.rest, k - 1);
      }
      if OfSomeIndex(indices.rest, l) {
        var k :| 0 <= k < Length(indices.rest) && LeafIn(ValueAt(indices.rest, k), l);
        assert LeafIn(ValueAt(indices, k + 1), l);
      }
    }
  }

  /** The leaves of a response are those of all its indices; if these have none, those of a mapping at its top. */
  lemma ResponseLeavesAre(response: Json, l: Field)
    ensures response.Obj? ==>
              (l in ResponseLeaves(response) <==>
                 OfSomeIndex(response.members, l) || (LeafIn(response, l) && forall m :: !OfSomeIndex(response.members, m)))
    ensures !response.Obj? ==> ResponseLeaves(response) == []
  {
    LeafInIs(response, l);
    if response.Obj? {
      var own := IndexLeaves(response.members);
      forall m ensures m in own <==> OfSomeIndex(response.members, m) {
        IndexLeavesAre(response.members, m);
      }
      if own != [] {
        assert own[0] in own;
      }
    }
  }
}
