/**
  LIKE without recursion: a value matches a pattern if it can be cut into pieces, one for each
  character of the pattern. The matcher's decisions differ in one point only.
*/
module LikeAlign {
  import opened LikeMatch

  /** Pattern character `c` stands for the piece of `v` from `lo` to `hi`. */
  predicate StandsFor(v: string, lo: nat, hi: nat, c: char) {
    && lo <= hi <= |v|
    && (c != '%' ==> hi == lo + 1 && (c == '_' || c == v[lo]))
  }

  /** A wildcard at a `%` of the value takes that one character. */
  predicate TakesPercent(v: string, lo: nat, hi: nat, c: char) {
    c == '%' && lo < |v| && v[lo] == '%' ==> hi == lo + 1
  }

  /** The pieces for the pattern from `j` on, which begin at `i` in the value and use it up. */
  ghost predicate Cut(v: string, i: nat, p: string, j: nat, cuts: seq<nat>) {
    && j <= |p| && |cuts| == |p| - j + 1 && cuts[0] == i && cuts[|p| - j] == |v|
    && forall k | 0 <= k < |p| - j :: StandsFor(v, cuts[k], cuts[k + 1], p[j + k])
  }

  ghost predicate PercentCut(v: string, p: string, j: nat, cuts: seq<nat>) {
    j <= |p| && |cuts| == |p| - j + 1 && forall k | 0 <= k < |p| - j :: TakesPercent(v, cuts[k], cuts[k + 1], p[j + k])
  }

  lemma CutCons(v: string, i: nat, n: nat, p: string, j: nat, cuts: seq<nat>)
    requires j < |p| && Cut(v, n, p, j + 1, cuts) && StandsFor(v, i, n, p[j])
    ensures Cut(v, i, p, j, [i] + cuts)
    ensures PercentCut(v, p, j + 1, cuts) && TakesPercent(v, i, n, p[j]) ==> PercentCut(v, p, j, [i] + cuts)
  {
    var all := [i] + cuts;
    forall k | 0 <= k < |p| - j
      ensures StandsFor(v, all[k], all[k + 1], p[j + k])
      ensures PercentCut(v, p, j + 1, cuts) && TakesPercent(v, i, n, p[j]) ==> TakesPercent(v, all[k], all[k + 1], p[j + k])
    {
      if k > 0 {
        assert StandsFor(v, cuts[k - 1], cuts[k - 1 + 1], p[j + 1 + (k - 1)]);
        assert PercentCut(v, p, j + 1, cuts) ==> TakesPercent(v, cuts[k - 1], cuts[k - 1 + 1], p[j + 1 + (k - 1)]);
      }
    }
  }

  lemma CutTail(v: string, i: nat, p: string, j: nat, cuts: seq<nat>)
    requires j < |p| && Cut(v, i, p, j, cuts)
    ensures StandsFor(v, i, cuts[1], p[j]) && Cut(v, cuts[1], p, j + 1, cuts[1..])
    ensures PercentCut(v, p, j, cuts) ==> TakesPercent(v, i, cuts[1], p[j]) && PercentCut(v, p, j + 1, cuts[1..])
  {
    var rest := cuts[1..];
    assert StandsFor(v, cuts[0], cuts[0 + 1], p[j + 0]);
    forall k | 0 <= k < |p| - (j + 1)
      ensures StandsFor(v, rest[k], rest[k + 1], p[j + 1 + k])
      ensures PercentCut(v, p, j, cuts) ==> TakesPercent(v, rest[k], rest[k + 1], p[j + 1 + k])
    {
      assert StandsFor(v, cuts[k + 1], cuts[k + 1 + 1], p[j + (k + 1)]);
      assert PercentCut(v, p, j, cuts) ==> TakesPercent(v, cuts[k + 1], cuts[k + 1 + 1], p[j + (k + 1)]);
    }
    assert PercentCut(v, p, j, cuts) ==> TakesPercent(v, cuts[0], cuts[0 + 1], p[j + 0]);
  }

  // ---- SQL ----

  lemma {:induction false} LikeIsCut(v: string, i: nat, p: string, j: nat)
    requires i <= |v| && j <= |p| && LikeFrom(v, i, p, j)
    ensures exists cuts :: Cut(v, i, p, j, cuts)
    decreases |p| - j
  {
    if j == |p| {
      assert Cut(v, i, p, j, [i]);
    } else {
      var n: nat;
      if p[j] == '%' {
        n :| i <= n <= |v| && LikeFrom(v, n, p, j + 1);
      } else {
        n := i + 1;
      }
      LikeIsCut(v, n, p, j + 1);
      var cuts :| Cut(v, n, p, j + 1, cuts);
      CutCons(v, i, n, p, j, cuts);
    }
  }

  lemma {:induction false} CutIsLike(v: string, i: nat, p: string, j: nat, cuts: seq<nat>)
    requires i <= |v| && Cut(v, i, p, j, cuts)
    ensures LikeFrom(v, i, p, j)
    decreases |p| - j
  {
    if j < |p| {
      CutTail(v, i, p, j, cuts);
      CutIsLike(v, cuts[1], p, j + 1, cuts[1..]);
    }
  }

  /** SQL matches exactly if the value can be cut into pieces for the characters of the pattern. */
  lemma LikeExactlyIfCut(v: string, p: string)
    ensures Like(v, p) <==> exists cuts :: Cut(v, 0, p, 0, cuts)
  {
    if Like(v, p) {
      LikeIsCut(v, 0, p, 0);
    }
    if cuts :| Cut(v, 0, p, 0, cuts) {
      CutIsLike(v, 0, p, 0, cuts);
    }
  }

  // ---- The matcher ----

  lemma {:induction false} AcceptedIsCut(v: string, i: nat, p: string, j: nat)
    requires i <= |v| && j <= |p| && AcceptsFrom(v, i, p, j)
    ensures exists cuts :: Cut(v, i, p, j, cuts) && PercentCut(v, p, j, cuts)
    decreases |p| - j
  {
    if j == |p| {
      assert Cut(v, i, p, j, [i]) && PercentCut(v, p, j, [i]);
    } else {
      var n: nat;
      if i < |v| && Meets(v[i], p[j]) {
        n := i + 1;
      } else {
        n :| i <= n <= |v| && AcceptsFrom(v, n, p, j + 1);
      }
      AcceptedIsCut(v, n, p, j + 1);
      var cuts :| Cut(v, n, p, j + 1, cuts) && PercentCut(v, p, j + 1, cuts);
      CutCons(v, i, n, p, j, cuts);
    }
  }

  lemma {:induction false} CutIsAccepted(v: string, i: nat, p: string, j: nat, cuts: seq<nat>)
    requires i <= |v| && Cut(v, i, p, j, cuts) && PercentCut(v, p, j, cuts)
    ensures AcceptsFrom(v, i, p, j)
    decreases |p| - j
  {
    if j < |p| {
      CutTail(v, i, p, j, cuts);
      CutIsAccepted(v, cuts[1], p, j + 1, cuts[1..]);
    }
  }

  /** The matcher accepts exactly if such a cut exists in which every wildcard at a `%` of the value takes just that character. */
  lemma AcceptsExactlyIfPercentCut(v: string, p: string)
    ensures Accepts(v, p) <==> exists cuts :: Cut(v, 0, p, 0, cuts) && PercentCut(v, p, 0, cuts)
  {
    if Accepts(v, p) {
      AcceptedIsCut(v, 0, p, 0);
    }
    if cuts :| Cut(v, 0, p, 0, cuts) && PercentCut(v, p, 0, cuts) {
      CutIsAccepted(v, 0, p, 0, cuts);
    }
  }
}
