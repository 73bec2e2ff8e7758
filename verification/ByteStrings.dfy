/** Bytes, and numbers in big-endian byte order. */
module ByteStrings {
  import opened Sequences

  type Byte = n: int | 0 <= n < 256

  const TWO16 := 0x1_0000
  const TWO32 := 0x1_0000_0000

  type Word = n: int | 0 <= n < 0x1_0000_0000

  function U16(b: seq<Byte>, at: nat): (n: nat)
    requires at + 2 <= |b|
    ensures n < TWO16
  {
    b[at] as int * 256 + b[at + 1]
  }

  function U32(b: seq<Byte>, at: nat): Word
    requires at + 4 <= |b|
  {
    ((b[at] as int * 256 + b[at + 1]) * 256 + b[at + 2]) * 256 + b[at + 3]
  }

  /** Two's complement. */
  function Signed(w: Word): (i: int)
    ensures -0x8000_0000 <= i < 0x8000_0000 && (i == w || i == w - 0x1_0000_0000)
  {
    if w < 0x8000_0000 then w else w - TWO32
  }

  function Unsigned(i: int): (w: Word)
    requires -0x8000_0000 <= i < 0x8000_0000
    ensures Signed(w) == i
  {
    if i < 0 then i + TWO32 else i
  }

  function Be16(n: nat): (b: seq<Byte>)
    requires n < TWO16
    ensures |b| == 2
  {
    [n / 256, n % 256]
  }

  function Be32(w: Word): (b: seq<Byte>)
    ensures |b| == 4
  {
    [w / 0x100_0000, w / 0x1_0000 % 256, w / 0x100 % 256, w % 256]
  }

  lemma ReadBe32(w: Word)
    ensures U32(Be32(w), 0) == w
  {
    assert w / 0x100 == w / 0x1_0000 * 256 + w / 0x100 % 256;
    assert w / 0x1_0000 == w / 0x100_0000 * 256 + w / 0x1_0000 % 256;
  }

  /** Two bytes, and four, are the encoding of what is read from them. */
  lemma Be16OfRead(b: seq<Byte>, at: nat)
    requires at + 2 <= |b|
    ensures Be16(U16(b, at)) == b[at..at + 2]
  {
  }

  lemma Be32OfRead(b: seq<Byte>, at: nat)
    requires at + 4 <= |b|
    ensures Be32(U32(b, at)) == b[at..at + 4]
  {
    var w := U32(b, at);
    assert w / 0x100 == (b[at] as int * 256 + b[at + 1]) * 256 + b[at + 2];
    assert w / 0x1_0000 == b[at] as int * 256 + b[at + 1];
    assert w / 0x100_0000 == b[at];
  }

  /** The high byte comes first. */
  lemma U32IsBigEndian(b: seq<Byte>, at: nat)
    requires at + 4 <= |b|
    ensures U32(b, at) == b[at] as int * 0x100_0000 + b[at + 1] as int * 0x1_0000 + b[at + 2] as int * 0x100 + b[at + 3]
  {
  }

  lemma U32Shift(a: seq<Byte>, b: seq<Byte>, at: nat)
    requires at + 4 <= |b|
    ensures U32(a + b, |a| + at) == U32(b, at)
  {
  }

  /** The words of a list, one after the other. */
  function Words(ws: seq<Word>): (b: seq<Byte>)
    ensures |b| == 4 * |ws|
  {
    if ws == [] then [] else Be32(ws[0]) + Words(ws[1..])
  }

  /** The `n` words that begin at `at`. */
  function ReadWords(b: seq<Byte>, at: nat, n: nat): (ws: seq<Word>)
    requires at + 4 * n <= |b|
    ensures |ws| == n
    decreases n
  {
    if n == 0 then [] else [U32(b, at)] + ReadWords(b, at + 4, n - 1)
  }

  lemma U32Prefix(a: seq<Byte>, b: seq<Byte>, at: nat)
    requires at + 4 <= |a|
    ensures U32(a + b, at) == U32(a, at)
  {
  }

  /** Reading words undoes writing them. */
  lemma {:induction false} ReadUndoesWords(before: seq<Byte>, ws: seq<Word>, after: seq<Byte>)
    ensures ReadWords(before + (Words(ws) + after), |before|, |ws|) == ws
    decreases |ws|
  {
    if ws != [] {
      var first, rest := Be32(ws[0]), Words(ws[1..]);
      Regroup(before, first, rest, after);
      ReadUndoesWords(before + first, ws[1..], after);
      U32Shift(before, first + (rest + after), 0);
      U32Prefix(first, rest + after, 0);
      ReadBe32(ws[0]);
    }
  }

  /** Writing words undoes reading them. */
  lemma {:induction false} WordsUndoRead(b: seq<Byte>, at: nat, n: nat)
    requires at + 4 * n <= |b|
    ensures Words(ReadWords(b, at, n)) == b[at..at + 4 * n]
    decreases n
  {
    if n > 0 {
      WordsUndoRead(b, at + 4, n - 1);
      Be32OfRead(b, at);
      assert b[at..at + 4] + b[at + 4..at + 4 * n] == b[at..at + 4 * n];
    }
  }
}
