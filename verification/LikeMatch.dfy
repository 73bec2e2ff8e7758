/**
  SQL LIKE filtering of S3 object keys: the greedy matcher with one backtracking point,
  the literal prefix used to narrow the listing, and the filtered listing itself.

  Values and patterns are compared from a place in each, `i` in the value `v` and `j` in
  the pattern `p`, to their ends.
*/
module LikeMatch {
  import opened Options

  /**
    The <like predicate> of section 8.5 of ISO/IEC 9075-2, without ESCAPE: `_` stands for
    one character, `%` for any string of characters, and any other character for itself.
  */
  ghost predicate LikeFrom(v: string, i: nat, p: string, j: nat)
    requires i <= |v| && j <= |p|
    decreases |p| - j, 0
  {
    if j == |p| then i == |v|
    else if p[j] == '%' then LikeLater(v, i, p, j + 1)
    else i < |v| && (p[j] == '_' || p[j] == v[i]) && LikeFrom(v, i + 1, p, j + 1)
  }

  ghost predicate LikeLater(v: string, i: nat, p: string, j: nat)
    requires i <= |v| && j <= |p|
    decreases |p| - j, 1
  {
    exists k :: i <= k <= |v| && LikeFrom(v, k, p, j)
  }

  ghost predicate Like(v: string, p: string) {
    LikeFrom(v, 0, p, 0)
  }

  /** `c` meets a pattern character that stands for it, `%` standing for itself included. */
  predicate Meets(c: char, q: char) {
    q == '_' || q == c
  }

  /**
    What the matcher decides, for every value and pattern: `%` is a wildcard except where
    the value has a `%` at the same place, which it then stands for and nothing else.
  */
  ghost predicate AcceptsFrom(v: string, i: nat, p: string, j: nat)
    requires i <= |v| && j <= |p|
    decreases |p| - j, 0
  {
    if j == |p| then i == |v|
    else if i < |v| && Meets(v[i], p[j]) then AcceptsFrom(v, i + 1, p, j + 1)
    else p[j] == '%' && AcceptsLater(v, i, p, j + 1)
  }

  /** Some suffix of `v` that starts at `i` or later is accepted. */
  ghost predicate AcceptsLater(v: string, i: nat, p: string, j: nat)
    requires i <= |v| && j <= |p|
    decreases |p| - j, 1
  {
    exists k :: i <= k <= |v| && AcceptsFrom(v, k, p, j)
  }

  ghost predicate Accepts(v: string, p: string) {
    AcceptsFrom(v, 0, p, 0)
  }

  /** A `%` gains at most the suffixes that start here or later. */
  lemma PercentReaches(v: string, i: nat, p: string, j: nat)
    requires i <= |v| && j < |p| && p[j] == '%' && AcceptsFrom(v, i, p, j)
    ensures AcceptsLater(v, i, p, j + 1)
  {
  }

  /** `m` characters of `v` from `i` meet those of `p` from `j` one by one. */
  ghost predicate Met(v: string, i: nat, p: string, j: nat, m: nat) {
    && i + m <= |v| && j + m <= |p|
    && forall k | i <= k < i + m :: Meets(v[k], p[k - i + j])
  }

  /**
    The exchange argument. `m` pattern characters were met one by one from `i`. Matching the
    same pattern from a later place `start` reaches the end of those `m` characters no earlier:
    as long as the later place is ahead it stays ahead, and once it is level it is forced
    along the same characters.
  */
  lemma {:induction false} LaterStartEndsLater(v: string, i: nat, start: nat, p: string, j: nat, m: nat)
    requires i <= start <= |v| && Met(v, i, p, j, m) && AcceptsFrom(v, start, p, j)
    ensures AcceptsLater(v, i + m, p, j + m)
    decreases m
  {
    if m > 0 {
      assert Meets(v[i], p[i - i + j]);
      if start < |v| && Meets(v[start], p[j]) {
        LaterStartEndsLater(v, i + 1, start + 1, p, j + 1, m - 1);
      } else {
        var next :| start <= next <= |v| && AcceptsFrom(v, next, p, j + 1);
        LaterStartEndsLater(v, i + 1, next, p, j + 1, m - 1);
      }
    }
  }

  /** What the matcher knows between two rounds; `star` is the last wildcard taken, `starVi` its last retry. */
  ghost predicate OnTrack(v: string, p: string, vi: nat, pi: nat, star: Option<nat>, starVi: nat)
    requires starVi <= vi <= |v| && pi <= |p|
  {
    match star
    case None => Accepts(v, p) <==> AcceptsFrom(v, vi, p, pi)
    case Some(sp) =>
      && sp + 1 + (vi - starVi) == pi
      && Met(v, starVi, p, sp + 1, vi - starVi)
      && (Accepts(v, p) <==> AcceptsFrom(v, vi, p, pi) || Retries(v, p, sp, starVi))
  }

  /** A later retry of the wildcard at `sp` succeeds. */
  ghost predicate Retries(v: string, p: string, sp: nat, starVi: nat) {
    starVi < |v| && sp < |p| && AcceptsLater(v, starVi + 1, p, sp + 1)
  }

  lemma LiteralRound(v: string, p: string, vi: nat, pi: nat, star: Option<nat>, starVi: nat)
    requires starVi <= vi < |v| && pi < |p| && OnTrack(v, p, vi, pi, star, starVi) && Meets(v[vi], p[pi])
    ensures OnTrack(v, p, vi + 1, pi + 1, star, starVi)
  {
  }

  /** Only the last `%` has to be remembered: reaching a new one covers every retry of the old one. */
  lemma WildcardRound(v: string, p: string, vi: nat, pi: nat, star: Option<nat>, starVi: nat)
    requires starVi <= vi < |v| && pi < |p| && OnTrack(v, p, vi, pi, star, starVi)
    requires !Meets(v[vi], p[pi]) && p[pi] == '%'
    ensures OnTrack(v, p, vi, pi + 1, Some(pi), vi)
  {
    if star.Some? && Retries(v, p, star.value, starVi) {
      var start :| starVi + 1 <= start <= |v| && AcceptsFrom(v, start, p, star.value + 1);
      LaterStartEndsLater(v, starVi, start, p, star.value + 1, vi - starVi);
      assert AcceptsLater(v, vi, p, pi);
      var e :| vi <= e <= |v| && AcceptsFrom(v, e, p, pi);
      PercentReaches(v, e, p, pi);
      assert AcceptsLater(v, vi, p, pi + 1);
    }
    assert AcceptsFrom(v, vi, p, pi) <==> AcceptsLater(v, vi, p, pi + 1);
    assert AcceptsLater(v, vi, p, pi + 1) <==> AcceptsFrom(v, vi, p, pi + 1) || AcceptsLater(v, vi + 1, p, pi + 1);
  }

  lemma RetryRound(v: string, p: string, vi: nat, pi: nat, sp: nat, starVi: nat)
    requires starVi <= vi < |v| && pi <= |p| && OnTrack(v, p, vi, pi, Some(sp), starVi)
    requires pi < |p| ==> !Meets(v[vi], p[pi]) && p[pi] != '%'
    ensures OnTrack(v, p, starVi + 1, sp + 1, Some(sp), starVi + 1)
  {
    if starVi + 1 < |v| {
      assert AcceptsLater(v, starVi + 1, p, sp + 1) <==>
             AcceptsFrom(v, starVi + 1, p, sp + 1) || AcceptsLater(v, starVi + 2, p, sp + 1);
    }
  }

  lemma StuckRound(v: string, p: string, vi: nat, pi: nat, starVi: nat)
    requires starVi <= vi < |v| && pi <= |p| && OnTrack(v, p, vi, pi, None, starVi)
    requires pi < |p| ==> !Meets(v[vi], p[pi]) && p[pi] != '%'
    ensures !Accepts(v, p)
  {
  }

  lemma {:induction false} OnlyPercentsLeft(v: string, p: string, pi: nat)
    requires pi <= |p|
    ensures AcceptsFrom(v, |v|, p, pi) <==> forall k | pi <= k < |p| :: p[k] == '%'
    decreases |p| - pi
  {
    if pi < |p| {
      OnlyPercentsLeft(v, p, pi + 1);
    }
  }

  /** Once the value is used up no retry can do better than the place reached. */
  lemma EndOfValue(v: string, p: string, pi: nat, star: Option<nat>, starVi: nat)
    requires starVi <= |v| && pi <= |p| && OnTrack(v, p, |v|, pi, star, starVi)
    ensures Accepts(v, p) <==> forall k | pi <= k < |p| :: p[k] == '%'
  {
    OnlyPercentsLeft(v, p, pi);
    if star.Some? && Retries(v, p, star.value, starVi) {
      var start :| starVi + 1 <= start <= |v| && AcceptsFrom(v, start, p, star.value + 1);
      LaterStartEndsLater(v, starVi, start, p, star.value + 1, |v| - starVi);
    }
  }

  ghost function Times(n: nat, w: nat): nat {
    if n == 0 then 0 else Times(n - 1, w) + w
  }

  lemma {:induction false} TimesGrows(n: nat, m: nat, w: nat)
    requires n <= m
    ensures Times(n, w) <= Times(m, w)
    decreases m
  {
    if n < m {
      TimesGrows(n, m - 1, w);
    }
  }

  lemma {:induction false} TimesIsProduct(n: nat, w: nat)
    ensures Times(n, w) == n * w
    decreases n
  {
    if n > 0 {
      TimesIsProduct(n - 1, w);
    }
  }

  /**
    The matcher decides Accepts, in fewer than (|v| + 1) * (|p| + 1) rounds
    (Times is multiplication, by TimesIsProduct).
  */
  method SqlLikeMatch(v: string, p: string) returns (matched: bool, ghost rounds: nat)
    ensures matched <==> Accepts(v, p)
    ensures rounds < Times(|v| + 1, |p| + 1)
  {
    var vi: nat, pi: nat := 0, 0;
    var starPi: Option<nat>, starVi: nat := None, 0;
    rounds := 0;
    while vi < |v|
      invariant starVi <= vi <= |v| && pi <= |p| && (starPi.Some? ==> starPi.value < pi)
      invariant OnTrack(v, p, vi, pi, starPi, starVi)
      invariant rounds <= Times(starVi, |p| + 1) + pi
      decreases |p| - (if starPi.Some? then starPi.value + 1 else 0), |v| - starVi, |v| - vi
    {
      rounds := rounds + 1;
      if pi < |p| && (p[pi] == '_' || p[pi] == v[vi]) {
        LiteralRound(v, p, vi, pi, starPi, starVi);
        vi := vi + 1;
        pi := pi + 1;
      } else if pi < |p| && p[pi] == '%' {
        WildcardRound(v, p, vi, pi, starPi, starVi);
        TimesGrows(starVi, vi, |p| + 1);
        starPi := Some(pi);
        pi := pi + 1;
        starVi := vi;
      } else if starPi.Some? {
        RetryRound(v, p, vi, pi, starPi.value, starVi);
        pi := starPi.value + 1;
        starVi := starVi + 1;
        vi := starVi;
      } else {
        StuckRound(v, p, vi, pi, starVi);
        TimesGrows(starVi + 1, |v|, |p| + 1);
        return false, rounds;
      }
    }
    EndOfValue(v, p, pi, starPi, starVi);
    TimesGrows(starVi, |v|, |p| + 1);
    pi := SkipWildcards(p, pi);
    matched := pi == |p|;
  }

  /** What is left of a pattern matches nothing more exactly if it consists of wildcards. */
  method SkipWildcards(p: string, start: nat) returns (pi: nat)
    requires start <= |p|
    ensures start <= pi <= |p| && (pi < |p| ==> p[pi] != '%')
    ensures forall k | start <= k < pi :: p[k] == '%'
  {
    pi := start;
    while pi < |p| && p[pi] == '%'
      invariant start <= pi <= |p|
      invariant forall k | start <= k < pi :: p[k] == '%'
    {
      pi := pi + 1;
    }
  }

  // ---- Agreement with SQL ----

  /** The matcher never accepts what SQL does not. */
  lemma {:induction false} Sound(v: string, i: nat, p: string, j: nat)
    requires i <= |v| && j <= |p| && AcceptsFrom(v, i, p, j)
    ensures LikeFrom(v, i, p, j)
    decreases |p| - j
  {
    if j < |p| {
      if i < |v| && Meets(v[i], p[j]) {
        Sound(v, i + 1, p, j + 1);
      } else {
        var k :| i <= k <= |v| && AcceptsFrom(v, k, p, j + 1);
        Sound(v, k, p, j + 1);
      }
    }
  }

  /** On a value, or under a pattern, without `%` the matcher accepts all that SQL does. */
  lemma {:induction false} Complete(v: string, i: nat, p: string, j: nat)
    requires i <= |v| && j <= |p| && LikeFrom(v, i, p, j)
    requires '%' !in v || '%' !in p
    ensures AcceptsFrom(v, i, p, j)
    decreases |p| - j
  {
    if j < |p| {
      if p[j] == '%' {
        var k :| i <= k <= |v| && LikeFrom(v, k, p, j + 1);
        Complete(v, k, p, j + 1);
      } else {
        Complete(v, i + 1, p, j + 1);
      }
    }
  }

  /** A common beginning of value and pattern is consumed by both readings. */
  lemma {:induction false} CommonStart(v: string, p: string, n: nat)
    requires n <= |v| && n <= |p| && v[..n] == p[..n]
    ensures Accepts(v, p) <==> AcceptsFrom(v, n, p, n)
    ensures LikeFrom(v, n, p, n) ==> Like(v, p)
    decreases n
  {
    if n > 0 {
      assert v[..n - 1] == v[..n][..n - 1] && p[..n - 1] == p[..n][..n - 1];
      assert v[n - 1] == v[..n][n - 1] && p[n - 1] == p[..n][n - 1];
      CommonStart(v, p, n - 1);
      if LikeFrom(v, n, p, n) && p[n - 1] == '%' {
        assert LikeLater(v, n - 1, p, n);
        assert LikeFrom(v, n - 1, p, n - 1);
      }
    }
  }

  /** For each value with a `%`, a pattern that SQL matches and the matcher rejects. */
  lemma RejectedPattern(v: string) returns (p: string)
    requires '%' in v
    ensures Like(v, p) && !Accepts(v, p)
  {
    var i :| 0 <= i < |v| && v[i] == '%';
    p := v[..i] + (if i + 1 == |v| then "%_" else "%");
    assert v[..i] == p[..i];
    CommonStart(v, p, i);
    if i + 1 == |v| {
      assert LikeFrom(v, |v|, p, |p|);
      assert LikeFrom(v, i, p, i + 1);
    } else {
      assert LikeFrom(v, |v|, p, i + 1);
    }
    assert LikeLater(v, i, p, i + 1);
    assert LikeFrom(v, i, p, i);
  }

  /** From equal texts to their ends, SQL matches. */
  lemma {:induction false} LikeItself(v: string, i: nat, p: string, j: nat)
    requires i <= |v| && j <= |p| && v[i..] == p[j..]
    ensures LikeFrom(v, i, p, j)
    decreases |p| - j
  {
    assert |v[i..]| == |v| - i && |p[j..]| == |p| - j;
    if j < |p| {
      assert v[i] == v[i..][0] && p[j] == p[j..][0];
      assert v[i + 1..] == v[i..][1..] && p[j + 1..] == p[j..][1..];
      LikeItself(v, i + 1, p, j + 1);
    }
  }

  /** Without wildcards left, what is left of value and pattern must be equally long. */
  lemma {:induction false} NoPercentSameLength(v: string, i: nat, p: string, j: nat)
    requires i <= |v| && j <= |p| && '%' !in p[j..] && AcceptsFrom(v, i, p, j)
    ensures |v| - i == |p| - j
    decreases |p| - j
  {
    if j < |p| {
      assert p[j] == p[j..][0] && p[j + 1..] == p[j..][1..];
      NoPercentSameLength(v, i + 1, p, j + 1);
    }
  }

  lemma {:induction false} LastPercent(p: string, n: nat) returns (i: nat)
    requires n <= |p| && '%' in p[..n] && '%' !in p[n..]
    ensures i < |p| && p[i] == '%' && '%' !in p[i + 1..]
    decreases n
  {
    if p[n - 1] == '%' {
      i := n - 1;
    } else {
      i := LastPercent(p, n - 1);
    }
  }

  /** For each pattern with a `%`, a value that SQL matches and the matcher rejects. */
  lemma RejectedValue(p: string) returns (v: string)
    requires '%' in p
    ensures Like(v, p) && !Accepts(v, p)
  {
    assert p[..|p|] == p;
    var i := LastPercent(p, |p|);
    v := p[..i + 1] + "x" + p[i + 1..];
    assert v[..i + 1] == p[..i + 1] && v[..i] == p[..i] && v[i + 2..] == p[i + 1..];
    CommonStart(v, p, i + 1);
    CommonStart(v, p, i);
    LikeItself(v, i + 2, p, i + 1);
    assert LikeLater(v, i, p, i + 1);
    assert LikeFrom(v, i, p, i);
    if AcceptsFrom(v, i + 1, p, i + 1) {
      NoPercentSameLength(v, i + 1, p, i + 1);
    }
  }

  lemma AgreeWithoutPercent(v: string, p: string)
    requires '%' !in v || '%' !in p
    ensures Accepts(v, p) <==> Like(v, p)
  {
    if Like(v, p) { Complete(v, 0, p, 0); }
    if Accepts(v, p) { Sound(v, 0, p, 0); }
  }

  /** The matcher agrees with SQL on a value under every pattern exactly if the value has no `%`. */
  lemma AgreesOnValue(v: string)
    ensures (forall p: string :: Accepts(v, p) <==> Like(v, p)) <==> '%' !in v
  {
    if '%' in v {
      var p := RejectedPattern(v);
    } else {
      forall p: string ensures Accepts(v, p) <==> Like(v, p) {
        AgreeWithoutPercent(v, p);
      }
    }
  }

  /** Under a pattern it agrees with SQL on every value exactly if the pattern has no `%`. */
  lemma AgreesUnderPattern(p: string)
    ensures (forall v: string :: Accepts(v, p) <==> Like(v, p)) <==> '%' !in p
  {
    if '%' in p {
      var v := RejectedValue(p);
    } else {
      forall v: string ensures Accepts(v, p) <==> Like(v, p) {
        AgreeWithoutPercent(v, p);
      }
    }
  }

  /** The shortest disagreement of interest: the pattern that selects everything misses this key. */
  lemma SelectAllMissesPercentKey()
    ensures Like("%x", "%") && !Accepts("%x", "%")
  {
    assert LikeFrom("%x", 2, "%", 1);
  }

  // ---- Narrowing the listing ----

  function LikePrefix(p: string): (r: string)
    ensures r <= p && '%' !in r && '_' !in r
    ensures r == p || p[|r|] == '%' || p[|r|] == '_'
  {
    if p == [] || p[0] == '%' || p[0] == '_' then [] else [p[0]] + LikePrefix(p[1..])
  }

  lemma {:induction false} AcceptedHasPrefixTo(v: string, p: string, n: nat)
    requires n <= |LikePrefix(p)| && Accepts(v, p)
    ensures n <= |v| && v[..n] == LikePrefix(p)[..n] && AcceptsFrom(v, n, p, n)
    decreases n
  {
    if n > 0 {
      AcceptedHasPrefixTo(v, p, n - 1);
      var r := LikePrefix(p);
      assert p[n - 1] == r[n - 1];
      assert v[..n] == v[..n - 1] + [v[n - 1]] && r[..n] == r[..n - 1] + [r[n - 1]];
    }
  }

  /** Every value the matcher accepts starts with the literal prefix of the pattern. */
  lemma AcceptedHasPrefix(v: string, p: string)
    requires Accepts(v, p)
    ensures LikePrefix(p) <= v
  {
    AcceptedHasPrefixTo(v, p, |LikePrefix(p)|);
  }

  /** One entry of the bucket listing. `readable` tells whether its format is recognised. */
  datatype Entry = Entry(path: string, isFile: bool, readable: bool)

  /** The object store lists the entries under a prefix, in its own order. */
  function ListWith(bucket: seq<Entry>, prefix: string): seq<Entry> {
    if bucket == [] then []
    else (if prefix <= bucket[0].path then [bucket[0]] else []) + ListWith(bucket[1..], prefix)
  }

  ghost predicate Wanted(e: Entry, filter: Option<string>) {
    e.isFile && e.readable && (filter.Some? ==> Accepts(e.path, filter.value))
  }

  /** The tables of the whole bucket that pass the filter, in listing order. */
  ghost function Tables(bucket: seq<Entry>, filter: Option<string>): seq<string> {
    if bucket == [] then []
    else (if Wanted(bucket[0], filter) then [bucket[0].path] else []) + Tables(bucket[1..], filter)
  }

  lemma {:induction false} TablesExtend(bucket: seq<Entry>, n: nat, filter: Option<string>)
    requires n < |bucket|
    ensures Tables(bucket[..n + 1], filter)
         == Tables(bucket[..n], filter) + (if Wanted(bucket[n], filter) then [bucket[n].path] else [])
    decreases n
  {
    if n > 0 {
      TablesExtend(bucket[1..], n - 1, filter);
      assert bucket[1..][..n] == bucket[..n + 1][1..] && bucket[1..][..n - 1] == bucket[..n][1..];
    }
  }

  /** The tables are the readable files whose path the matcher accepts, and no others. */
  lemma {:induction false} TablesAre(bucket: seq<Entry>, filter: Option<string>, path: string)
    ensures path in Tables(bucket, filter) <==>
              exists e | e in bucket :: e.path == path && e.isFile && e.readable && (filter.None? || Accepts(path, filter.value))
    decreases |bucket|
  {
    if bucket != [] {
      TablesAre(bucket[1..], filter, path);
      assert forall e :: e in bucket <==> e == bucket[0] || e in bucket[1..];
    }
  }

  /** They come in the order of the listing: those of its first part first. */
  lemma {:induction false} TablesInOrder(a: seq<Entry>, b: seq<Entry>, filter: Option<string>)
    ensures Tables(a + b, filter) == Tables(a, filter) + Tables(b, filter)
    decreases |a|
  {
    if a == [] {
      assert a + b == b;
    } else {
      assert (a + b)[1..] == a[1..] + b;
      TablesInOrder(a[1..], b, filter);
    }
  }

  /** A listing under a prefix has exactly the entries that begin with it. */
  lemma {:induction false} ListWithIs(bucket: seq<Entry>, prefix: string, e: Entry)
    ensures e in ListWith(bucket, prefix) <==> e in bucket && prefix <= e.path
    decreases |bucket|
  {
    if bucket != [] {
      ListWithIs(bucket[1..], prefix, e);
    }
  }

  /** Nothing outside the narrowed listing passes the filter. */
  lemma {:induction false} NarrowingLosesNothing(bucket: seq<Entry>, pattern: string)
    ensures Tables(ListWith(bucket, LikePrefix(pattern)), Some(pattern)) == Tables(bucket, Some(pattern))
    decreases |bucket|
  {
    if bucket != [] {
      NarrowingLosesNothing(bucket[1..], pattern);
      var rest := ListWith(bucket[1..], LikePrefix(pattern));
      if Accepts(bucket[0].path, pattern) {
        AcceptedHasPrefix(bucket[0].path, pattern);
      }
      if LikePrefix(pattern) <= bucket[0].path {
        assert ([bucket[0]] + rest)[1..] == rest;
      } else {
        assert [] + rest == rest;
      }
    }
  }

  lemma {:induction false} EmptyPrefixListsAll(bucket: seq<Entry>)
    ensures ListWith(bucket, []) == bucket
    decreases |bucket|
  {
    if bucket != [] {
      EmptyPrefixListsAll(bucket[1..]);
    }
  }

  /** Lists the narrowed bucket and filters it: the same tables, in the same order, as filtering it all. */
  method ListTables(bucket: seq<Entry>, filter: Option<string>) returns (tables: seq<string>)
    ensures tables == Tables(bucket, filter)
    ensures forall path :: path in tables <==>
              exists e | e in bucket :: e.path == path && e.isFile && e.readable && (filter.None? || Accepts(path, filter.value))
  {
    forall path ensures path in Tables(bucket, filter) <==>
              exists e | e in bucket :: e.path == path && e.isFile && e.readable && (filter.None? || Accepts(path, filter.value)) {
      TablesAre(bucket, filter, path);
    }
    var entries := ListWith(bucket, if filter.Some? then LikePrefix(filter.value) else []);
    tables := [];
    for i := 0 to |entries|
      invariant tables == Tables(entries[..i], filter)
    {
      TablesExtend(entries, i, filter);
      if entries[i].isFile && entries[i].readable {
        var keep := true;
        ghost var rounds := 0;
        if filter.Some? {
          keep, rounds := SqlLikeMatch(entries[i].path, filter.value);
        }
        if keep {
          tables := tables + [entries[i].path];
        }
      }
    }
    assert entries[..|entries|] == entries;
    if filter.Some? {
      NarrowingLosesNothing(bucket, filter.value);
    } else {
      EmptyPrefixListsAll(bucket);
    }
  }
}
