/**
  How the hits of a search are ordered: the sort clauses sent to the server, and the
  comparison of the sort values they give.
*/
module EsSort {

  datatype Clause = ShardDoc | ByField(name: string)

  /** What the query says about sorting: nothing, a list of clauses, or one clause outside a list. */
  datatype UserSort = NoSort | Clauses(clauses: seq<Clause>) | Single(clause: Clause)

  /** The sort sent to the server. Only a list, or no sort at all, is completed with the tie-break. */
  function SentSort(sort: UserSort): (r: seq<Clause>)
    ensures sort.Single? || ShardDoc in r
    ensures sort.NoSort? ==> |r| == 1
    ensures sort.Clauses? ==> sort.clauses <= r && |r| == |sort.clauses| + (if ShardDoc in sort.clauses then 0 else 1)
    ensures sort.Single? ==> |r| == 1 && r[0] == sort.clause
  {
    match sort
    case NoSort => [ShardDoc]
    case Clauses(cs) => if ShardDoc in cs then cs else cs + [ShardDoc]
    case Single(c) => [c]
  }

  /** A document: the order of its field values, and its place in the PIT, which no other document has. */
  datatype Doc = Doc(fields: string -> int, shardDoc: int)

  function ClauseValue(d: Doc, c: Clause): int {
    match c
    case ShardDoc => d.shardDoc
    case ByField(name) => d.fields(name)
  }

  /** The sort values the server returns with a hit. */
  function SortKey(d: Doc, sort: seq<Clause>): (key: seq<int>)
    ensures |key| == |sort| && forall i | 0 <= i < |sort| :: key[i] == ClauseValue(d, sort[i])
  {
    seq(|sort|, i requires 0 <= i < |sort| => ClauseValue(d, sort[i]))
  }

  /** Sort values compare like words. */
  predicate Less(a: seq<int>, b: seq<int>) {
    b != [] && (a == [] || a[0] < b[0] || (a[0] == b[0] && Less(a[1..], b[1..])))
  }

  /** Less is a strict total order, so sort values can be numbered in their order. */
  lemma {:induction false} LessIsStrictTotal(a: seq<int>, b: seq<int>, c: seq<int>)
    ensures !Less(a, a)
    ensures Less(a, b) && Less(b, c) ==> Less(a, c)
    ensures a != b ==> Less(a, b) || Less(b, a)
    decreases |a|
  {
    if a != [] {
      LessIsStrictTotal(a[1..], if b == [] then [] else b[1..], if c == [] then [] else c[1..]);
      if b != [] {
        assert a == [a[0]] + a[1..] && b == [b[0]] + b[1..];
      }
    }
  }

  /** With the tie-break, different documents have different sort values. */
  lemma DistinctDocsDistinctKeys(d: Doc, e: Doc, sort: seq<Clause>)
    requires ShardDoc in sort && d.shardDoc != e.shardDoc
    ensures Less(SortKey(d, sort), SortKey(e, sort)) || Less(SortKey(e, sort), SortKey(d, sort))
  {
    var c :| 0 <= c < |sort| && sort[c] == ShardDoc;
    assert SortKey(d, sort)[c] != SortKey(e, sort)[c];
    LessIsStrictTotal(SortKey(d, sort), SortKey(e, sort), []);
  }
}
