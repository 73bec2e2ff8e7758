/** Splitting a text at a delimiter, and joining the pieces again. */
module Text {
  /** The first place of a character, or the end. */
  function IndexOf(s: string, c: char): (i: nat)
    ensures i <= |s| && c !in s[..i] && (i < |s| ==> s[i] == c)
  {
    if s == "" || s[0] == c then 0 else 1 + IndexOf(s[1..], c)
  }

  lemma IndexIs(s: string, c: char, i: nat)
    requires i <= |s| && c !in s[..i] && (i < |s| ==> s[i] == c)
    ensures IndexOf(s, c) == i
  {
  }

  /** The pieces between the delimiters; one, possibly empty, if there are none. */
  function Split(s: string, c: char): (pieces: seq<string>)
    ensures pieces != []
    decreases |s|
  {
    var i := IndexOf(s, c);
    if i == |s| then [s] else [s[..i]] + Split(s[i + 1..], c)
  }

  lemma {:induction false} PiecesAreFree(s: string, c: char)
    ensures forall p | p in Split(s, c) :: c !in p
    decreases |s|
  {
    var i := IndexOf(s, c);
    if i < |s| {
      PiecesAreFree(s[i + 1..], c);
    } else {
      assert s[..i] == s;
    }
  }

  lemma SplitOne(s: string, c: char)
    requires c !in s
    ensures Split(s, c) == [s]
  {
    assert s[..|s|] == s;
    IndexIs(s, c, |s|);
  }

  lemma {:induction false} SplitSnoc(s: string, last: string, c: char)
    requires c !in last
    ensures Split(s + [c] + last, c) == Split(s, c) + [last]
    decreases |s|
  {
    var i, whole := IndexOf(s, c), s + [c] + last;
    assert whole[..i] == s[..i];
    IndexIs(whole, c, i);
    if i < |s| {
      assert whole[i + 1..] == s[i + 1..] + [c] + last;
      SplitSnoc(s[i + 1..], last, c);
    } else {
      assert whole[i + 1..] == last && s[..i] == s;
      SplitOne(last, c);
    }
  }

  function Join(pieces: seq<string>, c: char): string {
    if pieces == [] then ""
    else if |pieces| == 1 then pieces[0]
    else Join(pieces[..|pieces| - 1], c) + [c] + pieces[|pieces| - 1]
  }

  lemma {:induction false} SplitJoin(pieces: seq<string>, c: char)
    requires pieces != [] && forall p | p in pieces :: c !in p
    ensures Split(Join(pieces, c), c) == pieces
  {
    var k := |pieces| - 1;
    var init, last := pieces[..k], pieces[k];
    assert last in pieces && pieces == init + [last];
    if k == 0 {
      SplitOne(last, c);
    } else {
      SplitJoin(init, c);
      SplitSnoc(Join(init, c), last, c);
    }
  }

  // ---- Decimal numbers ----

  predicate IsDigit(c: char) {
    '0' <= c <= '9'
  }

  function ShowNat(n: nat): (s: string)
    ensures s != "" && forall c | c in s :: IsDigit(c)
  {
    var digit := ('0' as int + n % 10) as char;
    if n < 10 then [digit] else ShowNat(n / 10) + [digit]
  }

  function ReadNat(s: string): nat
    requires forall c | c in s :: IsDigit(c)
  {
    if s == "" then 0
    else
      var last := s[|s| - 1];
      assert last in s && IsDigit(last);
      ReadNat(s[..|s| - 1]) * 10 + (last as int - '0' as int)
  }

  lemma {:induction false} ReadShowNat(n: nat)
    ensures ReadNat(ShowNat(n)) == n
  {
    var s := ShowNat(n);
    if n < 10 {
      assert s[..0] == "";
    } else {
      ReadShowNat(n / 10);
      assert s[..|s| - 1] == ShowNat(n / 10);
    }
  }

  function ShowInt(i: int): (s: string)
    ensures s != "" && forall c | c in s :: IsDigit(c) || c == '-'
  {
    if i < 0 then "-" + ShowNat(-i) else ShowNat(i)
  }

  function ReadInt(s: string): int {
    if s != "" && s[0] == '-' && (forall c | c in s[1..] :: IsDigit(c)) then -(ReadNat(s[1..]) as int)
    else if (forall c | c in s :: IsDigit(c)) then ReadNat(s)
    else 0
  }

  lemma ReadShowInt(i: int)
    ensures ReadInt(ShowInt(i)) == i
  {
    if i < 0 {
      assert ("-" + ShowNat(-i))[1..] == ShowNat(-i);
      ReadShowNat(-i);
    } else {
      assert ShowNat(i)[0] in ShowNat(i);
      ReadShowNat(i);
    }
  }
}
