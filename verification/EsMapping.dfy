/**
  Index mappings: the leaf fields of all indices are merged into one list of dotted paths, and a
  column's value is found in a document by walking the path.
*/
module EsMapping {
  import opened Options
  import opened Sequences

  datatype Json = Str(text: string) | Obj(members: Members) | Other

  datatype Members = Nil | Cons(name: string, value: Json, rest: Members)

  function Lookup(ms: Members, key: string): (v: Option<Json>)
    ensures v.Some? ==> (ms decreases to v.value)
  {
    if ms.Nil? then None else if ms.name == key then Some(ms.value) else Lookup(ms.rest, key)
  }

  function Get(v: Json, key: string): (r: Option<Json>)
    ensures r.Some? ==> (v decreases to r.value)
  {
    if v.Obj? then Lookup(v.members, key) else None
  }

  // ---- The leaf fields of a mapping, in the order in which they are visited ----

  datatype Field = Field(path: string, esType: string)

  function Extend(prefix: string, name: string): string {
    if prefix == "" then name else prefix + "." + name
  }

  function Leaves(properties: Json, prefix: string): seq<Field>
    decreases properties
  {
    if properties.Obj? then LeavesOf(properties.members, prefix) else []
  }

  function LeavesOf(ms: Members, prefix: string): seq<Field>
    decreases ms
  {
    if ms.Nil? then [] else LeavesAt(ms.value, Extend(prefix, ms.name)) + LeavesOf(ms.rest, prefix)
  }

  /** A property with properties of its own is not a leaf, whatever its type. */
  function LeavesAt(value: Json, path: string): seq<Field>
    decreases value
  {
    match Get(value, "properties")
    case Some(sub) => Leaves(sub, path)
    case None =>
      match Get(value, "type")
      case Some(Str(t)) => [Field(path, t)]
      case _ => []
  }

  /** The leaves of every index of a mapping response. */
  function IndexLeaves(indices: Members): seq<Field> {
    if indices.Nil? then []
    else (match MappedProperties(indices.value) case Some(p) => Leaves(p, "") case None => []) + IndexLeaves(indices.rest)
  }

  function MappedProperties(v: Json): Option<Json> {
    match Get(v, "mappings")
    case Some(m) => Get(m, "properties")
    case None => None
  }

  predicate HasIndexKeys(indices: Members) {
    indices.Cons? && (Get(indices.value, "mappings").Some? || HasIndexKeys(indices.rest))
  }

  lemma {:induction false} NoKeysNoLeaves(indices: Members)
    requires !HasIndexKeys(indices)
    ensures IndexLeaves(indices) == []
  {
    if indices.Cons? {
      NoKeysNoLeaves(indices.rest);
    }
  }

  /** The leaves of a response: those of its indices, or else those of a mapping at its top. */
  function ResponseLeaves(response: Json): seq<Field> {
    var own := if response.Obj? then IndexLeaves(response.members) else [];
    if own != [] then own
    else match MappedProperties(response) case Some(p) => Leaves(p, "") case None => []
  }

  // ---- What merging them should give ----

  predicate Occurs(leaves: seq<Field>, path: string) {
    exists l | l in leaves :: l.path == path
  }

  ghost predicate Uniform(leaves: seq<Field>, path: string) {
    forall l, m | l in leaves && m in leaves && l.path == path && m.path == path :: l.esType == m.esType
  }

  /** The type of a path: that of all its leaves, or text if they differ. */
  ghost predicate Typed(leaves: seq<Field>, path: string, t: string) {
    if Uniform(leaves, path) then forall l | l in leaves && l.path == path :: l.esType == t else t == "text"
  }

  /** Every path once, in the order of the first leaves with them. */
  function Firsts(leaves: seq<Field>): (paths: seq<string>)
    ensures forall i, j | 0 <= i < j < |paths| :: paths[i] != paths[j]
    ensures forall p :: p in paths <==> Occurs(leaves, p)
  {
    if leaves == [] then []
    else
      var n := |leaves| - 1;
      var paths := Firsts(leaves[..n]);
      assert leaves == leaves[..n] + [leaves[n]];
      assert forall p :: Occurs(leaves, p) <==> Occurs(leaves[..n], p) || p == leaves[n].path;
      if leaves[n].path in paths then paths else paths + [leaves[n].path]
  }

  /** The paths of the leaves so far come first, whatever leaves follow. */
  lemma {:induction false} FirstsGrow(leaves: seq<Field>, k: nat)
    requires k <= |leaves|
    ensures Firsts(leaves[..k]) <= Firsts(leaves)
    decreases |leaves| - k
  {
    if k < |leaves| {
      assert leaves[..k + 1][..k] == leaves[..k];
      FirstsGrow(leaves, k + 1);
    } else {
      assert leaves[..k] == leaves;
    }
  }

  ghost predicate Summarises(fields: seq<Field>, leaves: seq<Field>) {
    && |fields| == |Firsts(leaves)|
    && (forall i | 0 <= i < |fields| :: fields[i].path == Firsts(leaves)[i])
    && (forall i | 0 <= i < |fields| :: Typed(leaves, fields[i].path, fields[i].esType))
  }

  /** The merged fields depend on which leaves there are, not on the order in which they are visited. */
  lemma OrderDoesNotMatter(a: seq<Field>, b: seq<Field>, fields: seq<Field>, fields': seq<Field>)
    requires multiset(a) == multiset(b) && Summarises(fields, a) && Summarises(fields', b)
    ensures multiset(fields) == multiset(fields')
  {
    SameMembers(a, b);
    forall f ensures f in fields <==> f in fields' {
      FieldOf(a, fields, f);
      FieldOf(b, fields', f);
    }
    OnceEach(fields, a);
    OnceEach(fields', b);
  }

  lemma SameMembers(a: seq<Field>, b: seq<Field>)
    requires multiset(a) == multiset(b)
    ensures forall l :: l in a <==> l in b
  {
    forall l ensures l in a <==> l in b {
      assert l in a <==> l in multiset(a);
    }
  }

  lemma FieldOf(leaves: seq<Field>, fields: seq<Field>, f: Field)
    requires Summarises(fields, leaves)
    ensures f in fields <==> Occurs(leaves, f.path) && Typed(leaves, f.path, f.esType)
  {
    if Occurs(leaves, f.path) && Typed(leaves, f.path, f.esType) {
      assert f.path in Firsts(leaves);
      var i :| 0 <= i < |fields| && Firsts(leaves)[i] == f.path;
      assert Typed(leaves, fields[i].path, fields[i].esType);
    }
  }

  lemma OnceEach(fields: seq<Field>, leaves: seq<Field>)
    requires Summarises(fields, leaves)
    ensures forall f :: multiset(fields)[f] == if f in fields then 1 else 0
  {
    forall f ensures multiset(fields)[f] == if f in fields then 1 else 0 {
      CountOnce(fields, f);
    }
  }

  lemma {:induction false} CountOnce(fields: seq<Field>, f: Field)
    requires forall i, j | 0 <= i < j < |fields| :: fields[i].path != fields[j].path
    ensures multiset(fields)[f] == if f in fields then 1 else 0
  {
    if fields != [] {
      var n := |fields| - 1;
      CountOnce(fields[..n], f);
      assert fields == fields[..n] + [fields[n]];
    }
  }

  // ---- Merging ----

  /** One more leaf with a new path. */
  lemma NewPath(fields: seq<Field>, leaves: seq<Field>, l: Field)
    requires Summarises(fields, leaves) && l.path !in Firsts(leaves)
    ensures Summarises(fields + [l], leaves + [l])
  {
    assert (leaves + [l])[..|leaves|] == leaves;
    assert !Occurs(leaves, l.path);
    forall i | 0 <= i < |fields| ensures Typed(leaves + [l], fields[i].path, fields[i].esType) {
      assert fields[i].path in Firsts(leaves);
      SameTypes(leaves, l, fields[i]);
    }
    assert Typed(leaves + [l], l.path, l.esType);
  }

  lemma SameTypes(leaves: seq<Field>, l: Field, f: Field)
    requires l.path != f.path && Typed(leaves, f.path, f.esType)
    ensures Typed(leaves + [l], f.path, f.esType)
  {
    assert forall m: Field | m.path == f.path :: m in leaves + [l] <==> m in leaves;
  }

  /** A field met again with another type becomes text. */
  function Met(fields: seq<Field>, pos: nat, esType: string): seq<Field>
    requires pos < |fields|
  {
    if fields[pos].esType != esType then fields[pos := Field(fields[pos].path, "text")] else fields
  }

  /** One more leaf with the path of field `pos`. */
  lemma KnownPath(fields: seq<Field>, leaves: seq<Field>, l: Field, pos: nat)
    requires Summarises(fields, leaves) && pos < |fields| && fields[pos].path == l.path
    ensures Summarises(Met(fields, pos, l.esType), leaves + [l])
  {
    assert (leaves + [l])[..|leaves|] == leaves;
    assert l.path == Firsts(leaves)[pos];
    forall i | 0 <= i < |fields| && i != pos ensures Typed(leaves + [l], fields[i].path, fields[i].esType) {
      SameTypes(leaves, l, fields[i]);
    }
    Retyped(leaves, l, fields[pos].esType);
  }

  lemma Retyped(leaves: seq<Field>, l: Field, t: string)
    requires Occurs(leaves, l.path) && Typed(leaves, l.path, t)
    ensures Typed(leaves + [l], l.path, if t != l.esType then "text" else t)
  {
    var m :| m in leaves && m.path == l.path;
    assert m in leaves + [l] && l in leaves + [l];
    assert forall k :: k in leaves + [l] <==> k in leaves || k == l;
  }

  /** The side index leads to every field by its path, and only there. */
  ghost predicate Indexed(fields: seq<Field>, seen: map<string, nat>) {
    && (forall i | 0 <= i < |fields| :: fields[i].path in seen && seen[fields[i].path] == i)
    && (forall p | p in seen :: seen[p] < |fields| && fields[seen[p]].path == p)
  }

  /** List and side index are in step, and the list has the fields of the leaves so far. */
  ghost predicate Merged(fields: seq<Field>, seen: map<string, nat>, leaves: seq<Field>) {
    Indexed(fields, seen) && Summarises(fields, leaves)
  }

  lemma AddField(fields: seq<Field>, seen: map<string, nat>, leaves: seq<Field>, l: Field)
    requires Merged(fields, seen, leaves) && l.path !in seen
    ensures Merged(fields + [l], seen[l.path := |fields|], leaves + [l])
  {
    IndexedAdd(fields, seen, l);
    assert forall i | 0 <= i < |fields| :: Firsts(leaves)[i] in seen;
    NewPath(fields, leaves, l);
  }

  lemma IndexedAdd(fields: seq<Field>, seen: map<string, nat>, l: Field)
    requires Indexed(fields, seen) && l.path !in seen
    ensures Indexed(fields + [l], seen[l.path := |fields|])
  {
  }

  lemma MeetField(fields: seq<Field>, seen: map<string, nat>, leaves: seq<Field>, l: Field)
    requires Merged(fields, seen, leaves) && l.path in seen
    ensures Merged(Met(fields, seen[l.path], l.esType), seen, leaves + [l])
  {
    IndexedMet(fields, seen, seen[l.path], l.esType);
    KnownPath(fields, leaves, l, seen[l.path]);
  }

  lemma IndexedMet(fields: seq<Field>, seen: map<string, nat>, pos: nat, esType: string)
    requires Indexed(fields, seen) && pos < |fields|
    ensures Indexed(Met(fields, pos, esType), seen)
  {
  }

  class Merger {
    var fields: seq<Field>
    var seen: map<string, nat>
    ghost var noted: seq<Field>

    ghost predicate Valid()
      reads this
    {
      Merged(fields, seen, noted)
    }

    constructor ()
      ensures Valid() && noted == []
    {
      fields, seen, noted := [], map[], [];
    }

    method Note(path: string, esType: string)
      requires Valid()
      modifies this
      ensures Valid() && noted == old(noted) + [Field(path, esType)]
    {
      ghost var l := Field(path, esType);
      if path !in seen {
        AddField(fields, seen, noted, l);
        seen := seen[path := |fields|];
        fields := fields + [Field(path, esType)];
        assert Merged(fields, seen, noted + [l]);
      } else {
        var pos := seen[path];
        MeetField(fields, seen, noted, l);
        ghost var met := Met(fields, pos, esType);
        if fields[pos].esType != esType {
          fields := fields[pos := Field(path, "text")];
        }
        assert fields == met && Merged(fields, seen, noted + [l]);
      }
      noted := noted + [l];
    }

    method MergeProperties(properties: Json, prefix: string)
      requires Valid()
      modifies this
      ensures Valid() && noted == old(noted) + Leaves(properties, prefix)
      decreases properties, 1
    {
      if !properties.Obj? {
        return;
      }
      var ms := properties.members;
      while ms.Cons?
        invariant Valid() && (properties decreases to ms)
        invariant noted + LeavesOf(ms, prefix) == old(noted) + Leaves(properties, prefix)
        decreases ms
      {
        var path := Extend(prefix, ms.name);
        ghost var before := noted;
        MergeProperty(ms.value, path);
        Associate(before, LeavesAt(ms.value, path), LeavesOf(ms.rest, prefix));
        ms := ms.rest;
      }
    }

    method MergeProperty(value: Json, path: string)
      requires Valid()
      modifies this
      ensures Valid() && noted == old(noted) + LeavesAt(value, path)
      decreases value, 0
    {
      match Get(value, "properties") {
        case Some(sub) =>
          MergeProperties(sub, path);
        case None =>
          match Get(value, "type") {
            case Some(Str(t)) => Note(path, t);
            case _ =>
          }
      }
    }
  }

  lemma SummaryOfNone(fields: seq<Field>, leaves: seq<Field>)
    requires Summarises(fields, leaves)
    ensures fields == [] <==> leaves == []
  {
    if leaves != [] {
      assert Occurs(leaves, leaves[0].path);
      assert leaves[0].path in Firsts(leaves);
    }
  }

  /** The merged fields are those of the leaves of all indices, or else of a mapping at the top. */
  method ParseMapping(response: Json) returns (fields: seq<Field>)
    ensures Summarises(fields, ResponseLeaves(response))
  {
    var merger := new Merger();
    if response.Obj? {
      if HasIndexKeys(response.members) {
        var indices := response.members;
        while indices.Cons?
          invariant merger.Valid()
          invariant merger.noted + IndexLeaves(indices) == IndexLeaves(response.members)
          decreases indices
        {
          ghost var before := merger.noted;
          var props := MappedProperties(indices.value);
          if props.Some? {
            merger.MergeProperties(props.value, "");
            Associate(before, Leaves(props.value, ""), IndexLeaves(indices.rest));
          }
          indices := indices.rest;
        }
      } else {
        NoKeysNoLeaves(response.members);
      }
    }
    assert merger.fields == [] <==> merger.noted == [] by {
      SummaryOfNone(merger.fields, merger.noted);
    }
    assert merger.noted == if response.Obj? then IndexLeaves(response.members) else [];
    if merger.fields == [] {
      var props := MappedProperties(response);
      if props.Some? {
        merger.MergeProperties(props.value, "");
        assert merger.noted == Leaves(props.value, "");
      }
    }
    assert merger.noted == ResponseLeaves(response);
    fields := merger.fields;
  }
}
