/**
  Dotted paths: a column of the merged mapping is looked up in a document by splitting its path at
  the dots. That finds the leaf the path came from exactly if no name contains a dot and the
  path does not begin with an empty name followed by others.
*/
module EsPaths {
  import opened Options
  import opened EsMapping
  import opened Text

  /** The path of a leaf below the properties `names`. */
  function PathOf(names: seq<string>): string {
    if names == [] then "" else Extend(PathOf(names[..|names| - 1]), names[|names| - 1])
  }

  // ---- Splitting undoes joining ----

  predicate DotFree(names: seq<string>) {
    forall n | n in names :: '.' !in n
  }

  lemma {:induction false} PathEmpty(names: seq<string>)
    ensures PathOf(names) == "" <==> forall n | n in names :: n == ""
  {
    if names != [] {
      var k := |names| - 1;
      PathEmpty(names[..k]);
      assert names == names[..k] + [names[k]];
      assert forall n :: n in names <==> n in names[..k] || n == names[k];
      assert names[k] in names;
    }
  }

  /** The pieces of a path are its names without the empty ones at the start. */
  lemma {:induction false} SplitPath(names: seq<string>)
    requires DotFree(names) && names != []
    ensures names[0] != "" || |names| == 1 ==> Split(PathOf(names), '.') == names
    ensures names[0] == "" && |names| > 1 ==> |Split(PathOf(names), '.')| < |names|
  {
    var k := |names| - 1;
    var init, last := names[..k], names[k];
    assert names == init + [last];
    assert last in names;
    if k == 0 {
      SplitOne(last, '.');
    } else {
      assert forall n | n in init :: n in names;
      SplitPath(init);
      PathEmpty(init);
      assert init[0] in init;
      if PathOf(init) == "" {
        SplitOne(last, '.');
      } else {
        SplitSnoc(PathOf(init), last, '.');
      }
    }
  }

  /** No name contains a dot, and the names do not begin with an empty one followed by others. */
  predicate Splittable(names: seq<string>) {
    names != [] && DotFree(names) && (names[0] != "" || |names| == 1)
  }

  /** Splitting the path gives the names back exactly then. */
  lemma SplitUndoesJoin(names: seq<string>)
    requires names != []
    ensures Split(PathOf(names), '.') == names <==> Splittable(names)
  {
    if DotFree(names) {
      SplitPath(names);
    } else {
      PiecesAreFree(PathOf(names), '.');
    }
  }

  // ---- Walking ----

  function Walk(value: Json, pieces: seq<string>): Option<Json>
    decreases |pieces|
  {
    if pieces == [] then Some(value)
    else match Get(value, pieces[0])
         case None => None
         case Some(v) => Walk(v, pieces[1..])
  }

  method ResolvePath(value: Json, path: string) returns (found: Option<Json>)
    ensures found == Walk(value, Split(path, '.'))
  {
    var current, pieces := value, Split(path, '.');
    for i := 0 to |pieces|
      invariant Walk(value, pieces) == Walk(current, pieces[i..])
    {
      assert pieces[i..][1..] == pieces[i + 1..];
      var next := Get(current, pieces[i]);
      if next.None? {
        return None;
      }
      current := next.value;
    }
    return Some(current);
  }

  // ---- The leaves of a mapping, by the names that lead to them ----

  function Traces(properties: Json, names: seq<string>): seq<seq<string>>
    decreases properties
  {
    if properties.Obj? then TracesOf(properties.members, names) else []
  }

  function TracesOf(ms: Members, names: seq<string>): seq<seq<string>>
    decreases ms
  {
    if ms.Nil? then [] else TracesAt(ms.value, names + [ms.name]) + TracesOf(ms.rest, names)
  }

  function TracesAt(value: Json, names: seq<string>): seq<seq<string>>
    decreases value
  {
    match Get(value, "properties")
    case Some(sub) => Traces(sub, names)
    case None =>
      match Get(value, "type")
      case Some(Str(_)) => [names]
      case _ => []
  }

  /** Field by field, the flattened paths are those of the traces. */
  ghost predicate Parallel(leaves: seq<Field>, traces: seq<seq<string>>) {
    |leaves| == |traces| && forall i | 0 <= i < |traces| :: leaves[i].path == PathOf(traces[i])
  }

  lemma {:induction false} LeavesFollowTraces(ms: Members, names: seq<string>)
    ensures Parallel(LeavesOf(ms, PathOf(names)), TracesOf(ms, names))
    decreases ms
  {
    if ms.Cons? {
      assert (names + [ms.name])[..|names|] == names;
      LeavesFollowTracesAt(ms.value, names + [ms.name]);
      LeavesFollowTraces(ms.rest, names);
    }
  }

  lemma {:induction false} LeavesFollowTracesAt(value: Json, names: seq<string>)
    ensures Parallel(LeavesAt(value, PathOf(names)), TracesAt(value, names))
    decreases value
  {
    match Get(value, "properties") {
      case Some(sub) =>
        if sub.Obj? {
          LeavesFollowTraces(sub.members, names);
        }
      case None =>
    }
  }

  /** A document shaped by a mapping has every property of it, with its own properties below. */
  ghost predicate Shaped(ms: Members, doc: Json)
    decreases ms
  {
    ms.Cons? ==>
      && Get(doc, ms.name).Some?
      && ShapedAt(ms.value, Get(doc, ms.name).value)
      && Shaped(ms.rest, doc)
  }

  ghost predicate ShapedAt(value: Json, doc: Json)
    decreases value
  {
    match Get(value, "properties")
    case Some(Obj(sub)) => Shaped(sub, doc)
    case _ => true
  }

  /** The rest of a trace leads to a value in every document shaped by the mapping. */
  lemma {:induction false} TraceIsWalkable(ms: Members, names: seq<string>, doc: Json, trace: seq<string>)
    requires Shaped(ms, doc) && trace in TracesOf(ms, names)
    ensures names < trace && Walk(doc, trace[|names|..]).Some?
    decreases ms
  {
    var below := names + [ms.name];
    if trace in TracesAt(ms.value, below) {
      var next := Get(doc, ms.name).value;
      if Get(ms.value, "properties").Some? {
        var sub := Get(ms.value, "properties").value;
        assert trace in Traces(sub, below);
        TraceIsWalkable(sub.members, below, next, trace);
      }
      assert trace[|names|..][0] == below[|names|];
      assert trace[|names|..][1..] == trace[|below|..];
    } else {
      TraceIsWalkable(ms.rest, names, doc, trace);
    }
  }

  /**
    Leaves whose names can be split back: in every document shaped by the mapping the path of each
    leaf resolves to the value the names of that leaf lead to, and to no other leaf's, since leaves
    with different names have different paths.
  */
  lemma PathsResolve(ms: Members, doc: Json, trace: seq<string>, other: seq<string>)
    requires Shaped(ms, doc) && trace in TracesOf(ms, []) && other in TracesOf(ms, [])
    requires Splittable(trace) && Splittable(other)
    ensures Walk(doc, Split(PathOf(trace), '.')) == Walk(doc, trace) && Walk(doc, trace).Some?
    ensures PathOf(trace) == PathOf(other) <==> trace == other
  {
    TraceIsWalkable(ms, [], doc, trace);
    assert trace[0..] == trace;
    SplitUndoesJoin(trace);
    SplitUndoesJoin(other);
  }

  /**
    So every merged column of a mapping with such names has, in every document shaped by it, the value
    of the one leaf whose names make up the column's path.
  */
  lemma ColumnsResolve(ms: Members, doc: Json, fields: seq<Field>, i: nat) returns (trace: seq<string>)
    requires Shaped(ms, doc) && Summarises(fields, LeavesOf(ms, "")) && i < |fields|
    requires forall t | t in TracesOf(ms, []) :: Splittable(t)
    ensures trace in TracesOf(ms, []) && PathOf(trace) == fields[i].path
    ensures forall t | t in TracesOf(ms, []) && PathOf(t) == fields[i].path :: t == trace
    ensures Walk(doc, Split(fields[i].path, '.')) == Walk(doc, trace) && Walk(doc, trace).Some?
  {
    var leaves, traces := LeavesOf(ms, ""), TracesOf(ms, []);
    assert fields[i].path in Firsts(leaves);
    var k :| 0 <= k < |leaves| && leaves[k].path == fields[i].path;
    LeavesFollowTraces(ms, []);
    trace := traces[k];
    assert trace in traces;
    PathsResolve(ms, doc, trace, trace);
    forall t | t in traces && PathOf(t) == fields[i].path ensures t == trace {
      PathsResolve(ms, doc, t, trace);
    }
  }

  // ---- The lookup finds the leaf exactly for such names ----

  /** A document with a single value, at the end of the names. */
  function Nested(names: seq<string>): Json {
    if names == [] then Other else Obj(Cons(names[0], Nested(names[1..]), Nil))
  }

  /** Only its own names lead to it. */
  lemma {:induction false} OnlyNamesReach(names: seq<string>, pieces: seq<string>)
    ensures Walk(Nested(names), pieces) == Some(Other) <==> pieces == names
    decreases |names|
  {
    if names != [] && pieces != [] {
      OnlyNamesReach(names[1..], pieces[1..]);
      assert names == [names[0]] + names[1..] && pieces == [pieces[0]] + pieces[1..];
      assert Lookup(Nil, pieces[0]) == None;
      assert Get(Nested(names), pieces[0]) == if names[0] == pieces[0] then Some(Nested(names[1..])) else None;
    }
  }

  /**
    The lookup of a path finds what its names lead to, in every document that has it, exactly if no
    name contains a dot and the path does not begin with an empty name followed by others.
  */
  lemma LookupFindsLeaf(names: seq<string>)
    requires names != []
    ensures (forall doc | Walk(doc, names).Some? :: Walk(doc, Split(PathOf(names), '.')) == Walk(doc, names)) <==> Splittable(names)
  {
    SplitUndoesJoin(names);
    OnlyNamesReach(names, names);
    OnlyNamesReach(names, Split(PathOf(names), '.'));
    assert Walk(Nested(names), names).Some?;
  }

  /** With a dot in a name the walk misses the value: `a.b` is looked for as `b` below `a`. */
  lemma DottedNameIsMissed()
    ensures var doc := Obj(Cons("a.b", Str("x"), Nil));
            PathOf(["a.b"]) == "a.b" && Walk(doc, ["a.b"]) == Some(Str("x")) && Walk(doc, Split("a.b", '.')) == None
  {
    var s := "a.b";
    IndexIs(s, '.', 1);
    assert Split(s, '.')[0] == s[..1] == "a";
    assert PathOf(["a.b"]) == Extend(PathOf([]), "a.b");
    assert ["a.b"][1..] == [];
  }
}
