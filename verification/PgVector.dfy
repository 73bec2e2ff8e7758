/** Decoding the binary formats of the pgvector types `vector` and `sparsevec`. */
module PgVector {
  import opened Options
  import opened ByteStrings
  import opened Text

  // ---- vector ----

  /** A dimension, two unused bytes, and as many floats, given by their bits. */
  function DecodeVector(b: seq<Byte>): Option<seq<Word>> {
    if |b| < 4 then None
    else
      var dim := U16(b, 0);
      if |b| != 4 + dim * 4 then None else Some(ReadWords(b, 4, dim))
  }

  /** The bytes of a vector, with the unused ones as given. */
  function EncodeVector(ws: seq<Word>, unused: seq<Byte>): seq<Byte>
    requires |ws| < TWO16
  {
    (Be16(|ws|) + unused) + (Words(ws) + [])
  }

  /** Decoding undoes encoding, for every vector of dimension at most 65535 and whatever the unused bytes are. */
  lemma DecodeUndoesEncode(ws: seq<Word>, unused: seq<Byte>)
    requires |ws| < TWO16 && |unused| == 2
    ensures DecodeVector(EncodeVector(ws, unused)) == Some(ws)
  {
    ReadUndoesWords(Be16(|ws|) + unused, ws, []);
  }

  /** Exactly the encodings of a vector are accepted as that vector. */
  lemma AcceptsExactlyEncodings(b: seq<Byte>, ws: seq<Word>)
    ensures DecodeVector(b) == Some(ws) <==> |ws| < TWO16 && |b| >= 4 && b == EncodeVector(ws, b[2..4])
  {
    if DecodeVector(b) == Some(ws) {
      Be16OfRead(b, 0);
      WordsUndoRead(b, 4, |ws|);
      assert b == (b[0..2] + b[2..4]) + (b[4..4 + 4 * |ws|] + []);
    } else if |ws| < TWO16 && |b| >= 4 && b == EncodeVector(ws, b[2..4]) {
      DecodeUndoesEncode(ws, b[2..4]);
    }
  }

  // ---- sparsevec ----

  /** The dimension, the indices as stored, counted from 0, and the values' bits. */
  datatype Sparse = Sparse(dim: int, indices: seq<Word>, values: seq<Word>)

  function ReadSparse(b: seq<Byte>): (r: Option<Sparse>)
    ensures r.Some? ==> |r.value.indices| == |r.value.values|
  {
    if |b| < 12 then None
    else
      var nnz := Signed(U32(b, 4));
      if nnz < 0 || |b| != 12 + nnz * 8 then None
      else Some(Sparse(Signed(U32(b, 0)), ReadWords(b, 12, nnz), ReadWords(b, 12 + nnz * 4, nnz)))
  }

  function EncodeSparse(s: Sparse, unused: seq<Byte>): seq<Byte>
    requires -0x8000_0000 <= s.dim < 0x8000_0000 && |s.indices| < 0x8000_0000
  {
    Be32(Unsigned(s.dim)) + (Be32(Unsigned(|s.indices|)) + (unused + (Words(s.indices) + Words(s.values))))
  }

  lemma ReadTwo(v: Word, w: Word, rest: seq<Byte>)
    ensures var b := Be32(v) + (Be32(w) + rest); U32(b, 0) == v && U32(b, 4) == w
  {
    ReadBe32(v);
    ReadBe32(w);
    U32Prefix(Be32(v), Be32(w) + rest, 0);
    U32Prefix(Be32(w), rest, 0);
    U32Shift(Be32(v), Be32(w) + rest, 0);
  }

  lemma Layout(d: seq<Byte>, n: seq<Byte>, unused: seq<Byte>, ixs: seq<Byte>, vs: seq<Byte>)
    ensures d + (n + (unused + (ixs + vs))) == (d + n + unused) + (ixs + vs) == (d + n + unused + ixs) + (vs + [])
  {
  }

  /** Every sparse vector the format can hold is read back. */
  lemma ReadSparseUndoesEncode(s: Sparse, unused: seq<Byte>)
    requires Encodable(s) && |unused| == 4
    ensures ReadSparse(EncodeSparse(s, unused)) == Some(s)
  {
    var d, n := Be32(Unsigned(s.dim)), Be32(Unsigned(|s.indices|));
    var ixs, vs := Words(s.indices), Words(s.values);
    ReadTwo(Unsigned(s.dim), Unsigned(|s.indices|), unused + (ixs + vs));
    Layout(d, n, unused, ixs, vs);
    ReadUndoesWords(d + n + unused, s.indices, vs);
    ReadUndoesWords(d + n + unused + ixs, s.values, []);
  }

  lemma SignedOfRead(b: seq<Byte>, at: nat)
    requires at + 4 <= |b|
    ensures Be32(Unsigned(Signed(U32(b, at)))) == b[at..at + 4]
  {
    Be32OfRead(b, at);
    assert Unsigned(Signed(U32(b, at))) == U32(b, at);
  }

  lemma Assemble(b: seq<Byte>, n: nat, dim: seq<Byte>, nnz: seq<Byte>, unused: seq<Byte>, ixs: seq<Byte>, vs: seq<Byte>)
    requires |b| == 12 + 8 * n && dim == b[0..4] && nnz == b[4..8] && unused == b[8..12]
    requires ixs == b[12..12 + 4 * n] && vs == b[12 + 4 * n..12 + 8 * n]
    ensures b == dim + (nnz + (unused + (ixs + vs)))
  {
  }

  lemma EncodedAsRead(b: seq<Byte>, s: Sparse)
    requires ReadSparse(b) == Some(s)
    ensures |s.indices| < 0x8000_0000 && b == EncodeSparse(s, b[8..12])
  {
    var n := |s.indices|;
    SignedOfRead(b, 0);
    SignedOfRead(b, 4);
    WordsUndoRead(b, 12, n);
    WordsUndoRead(b, 12 + 4 * n, n);
    Assemble(b, n, Be32(Unsigned(s.dim)), Be32(Unsigned(n)), b[8..12], Words(s.indices), Words(s.values));
  }

  predicate Encodable(s: Sparse) {
    -0x8000_0000 <= s.dim < 0x8000_0000 && |s.indices| == |s.values| < 0x8000_0000
  }

  /** Exactly the encodings of a sparse vector are accepted as that vector. */
  lemma AcceptsExactlySparse(b: seq<Byte>, s: Sparse)
    ensures ReadSparse(b) == Some(s) <==> Encodable(s) && |b| >= 12 && b == EncodeSparse(s, b[8..12])
  {
    if ReadSparse(b) == Some(s) {
      EncodedAsRead(b, s);
    } else if Encodable(s) && |b| >= 12 && b == EncodeSparse(s, b[8..12]) {
      ReadSparseUndoesEncode(s, b[8..12]);
    }
  }

  /** The printed index counts from 1. */
  function Element(index: Word, value: Word, show: Word -> string): string {
    ShowInt(Signed(index) + 1) + ":" + show(value)
  }

  function Elements(s: Sparse, show: Word -> string): seq<string>
    requires |s.indices| == |s.values|
  {
    seq(|s.indices|, i requires 0 <= i < |s.indices| => Element(s.indices[i], s.values[i], show))
  }

  function Render(s: Sparse, show: Word -> string): string
    requires |s.indices| == |s.values|
  {
    "{" + Join(Elements(s, show), ',') + "}/" + ShowInt(s.dim)
  }

  function DecodeSparse(b: seq<Byte>, show: Word -> string): Option<string> {
    match ReadSparse(b)
    case None => None
    case Some(s) => Some(Render(s, show))
  }

  // ---- Reading the text again ----

  /** An element's index and the text of its value. */
  function ReadElement(s: string): (int, string) {
    var i := IndexOf(s, ':');
    (ReadInt(s[..i]), if i < |s| then s[i + 1..] else "")
  }

  /** The elements between the braces, and the dimension behind them; None if they are not there. */
  function ReadText(text: string): Option<(int, seq<(int, string)>)> {
    var i := IndexOf(text, '}');
    if i == 0 || text[0] != '{' || i + 1 >= |text| || text[i + 1] != '/' then None
    else
      var body := text[1..i];
      var pieces := if body == "" then [] else Split(body, ',');
      Some((ReadInt(text[i + 2..]), seq(|pieces|, k requires 0 <= k < |pieces| => ReadElement(pieces[k]))))
  }

  /** Floats are printed without the delimiters of the text. */
  ghost predicate Clean(show: Word -> string) {
    forall w: Word :: ',' !in show(w) && '}' !in show(w)
  }

  lemma ReadElementBack(index: Word, value: Word, show: Word -> string)
    ensures ReadElement(Element(index, value, show)) == (Signed(index) + 1, show(value))
  {
    var i, e := ShowInt(Signed(index) + 1), Element(index, value, show);
    assert e[..|i|] == i && e[|i| + 1..] == show(value);
    IndexIs(e, ':', |i|);
    ReadShowInt(Signed(index) + 1);
  }

  lemma {:induction false} JoinIsFree(pieces: seq<string>, c: char, d: char)
    requires d != c && forall p | p in pieces :: d !in p
    ensures d !in Join(pieces, c)
  {
    if |pieces| > 1 {
      JoinIsFree(pieces[..|pieces| - 1], c, d);
    }
  }

  lemma JoinIsEmpty(pieces: seq<string>, c: char)
    requires forall p | p in pieces :: p != ""
    ensures Join(pieces, c) == "" <==> pieces == []
  {
    if |pieces| == 1 {
      assert pieces[0] in pieces;
    } else if |pieces| > 1 {
      assert c in Join(pieces, c);
    }
  }

  lemma TextParts(body: string, dim: int)
    requires '}' !in body
    ensures var text := "{" + body + "}/" + ShowInt(dim);
            var i := IndexOf(text, '}');
            && i == |body| + 1 && text[0] == '{' && text[1..i] == body
            && i + 2 <= |text| && text[i + 1] == '/' && text[i + 2..] == ShowInt(dim)
  {
    var text := "{" + body + "}/" + ShowInt(dim);
    assert text[..|body| + 1] == "{" + body;
    IndexIs(text, '}', |body| + 1);
  }

  lemma BodyReadsBack(s: Sparse, show: Word -> string)
    requires |s.indices| == |s.values| && Clean(show)
    ensures var es := Elements(s, show); var body := Join(es, ',');
            '}' !in body && (if body == "" then es == [] else es == Split(body, ','))
  {
    var es := Elements(s, show);
    forall e | e in es ensures ',' !in e && '}' !in e && e != "" {
      var i :| 0 <= i < |es| && e == Element(s.indices[i], s.values[i], show);
    }
    JoinIsFree(es, ',', '}');
    JoinIsEmpty(es, ',');
    if es != [] {
      SplitJoin(es, ',');
    }
  }

  /** The text reads as this dimension, these indices counted from 1, and these texts of values. */
  ghost predicate ReadsAs(text: string, s: Sparse, show: Word -> string)
    requires |s.indices| == |s.values|
  {
    ReadText(text).Some? &&
    var (dim, elements) := ReadText(text).value;
    && dim == s.dim && |elements| == |s.indices|
    && forall k | 0 <= k < |s.indices| :: elements[k] == (Signed(s.indices[k]) + 1, show(s.values[k]))
  }

  /** The text of every accepted value reads back to its dimension, its indices and the texts of its values. */
  lemma TextReadsBack(s: Sparse, show: Word -> string)
    requires |s.indices| == |s.values| && Clean(show)
    ensures ReadsAs(Render(s, show), s, show)
  {
    var es := Elements(s, show);
    BodyReadsBack(s, show);
    TextParts(Join(es, ','), s.dim);
    ReadShowInt(s.dim);
    forall k | 0 <= k < |s.indices| ensures ReadElement(es[k]) == (Signed(s.indices[k]) + 1, show(s.values[k])) {
      ReadElementBack(s.indices[k], s.values[k], show);
    }
  }

  /** If different floats are printed differently, different values have different texts. */
  lemma TextsDiffer(s: Sparse, t: Sparse, show: Word -> string)
    requires |s.indices| == |s.values| && |t.indices| == |t.values| && Clean(show)
    requires forall v: Word, w: Word | show(v) == show(w) :: v == w
    requires Render(s, show) == Render(t, show)
    ensures s == t
  {
    TextReadsBack(s, show);
    TextReadsBack(t, show);
    forall k | 0 <= k < |s.indices| ensures s.indices[k] == t.indices[k] && s.values[k] == t.values[k] {
      assert ReadText(Render(s, show)).value.1[k] == ReadText(Render(t, show)).value.1[k];
    }
    assert s.indices == t.indices && s.values == t.values;
  }

  /** From the bytes: a text reads as what was read from them. */
  lemma DecodeSparseReadsBack(b: seq<Byte>, text: string, show: Word -> string)
    requires Clean(show) && DecodeSparse(b, show) == Some(text)
    ensures ReadSparse(b).Some? && ReadsAs(text, ReadSparse(b).value, show)
  {
    TextReadsBack(ReadSparse(b).value, show);
  }

  /** So every encodable vector, whatever the unused bytes, is decoded to a text that reads as that vector. */
  lemma EncodedReadsBack(s: Sparse, unused: seq<Byte>, show: Word -> string)
    requires Clean(show) && Encodable(s) && |unused| == 4
    ensures DecodeSparse(EncodeSparse(s, unused), show).Some?
    ensures ReadsAs(DecodeSparse(EncodeSparse(s, unused), show).value, s, show)
  {
    ReadSparseUndoesEncode(s, unused);
    DecodeSparseReadsBack(EncodeSparse(s, unused), Render(s, show), show);
  }

  /** For example, the value with 1.5 and 2.5 at the first and third of five places. */
  lemma SmallSparse(show: Word -> string)
    requires show(0x3FC0_0000) == "1.5" && show(0x4020_0000) == "2.5"
    ensures Render(Sparse(5, [0, 2], [0x3FC0_0000, 0x4020_0000]), show) == "{1:1.5,3:2.5}/5"
  {
    var s := Sparse(5, [0, 2], [0x3FC0_0000, 0x4020_0000]);
    assert ShowInt(1) == "1" && ShowInt(3) == "3" && ShowInt(5) == "5";
    var es := Elements(s, show);
    assert es[0] == ShowInt(Signed(0) + 1) + ":" + show(0x3FC0_0000) == "1:1.5";
    assert es[1] == ShowInt(Signed(2) + 1) + ":" + show(0x4020_0000) == "3:2.5";
    assert es == ["1:1.5", "3:2.5"];
    assert es[..1] == ["1:1.5"];
    assert Join(es, ',') == "1:1.5,3:2.5";
  }

  /** Its bytes, for one float at the third of five places: dimension, count, unused bytes, indices, floats. */
  lemma SmallSparseBytes()
    ensures ReadSparse([0, 0, 0, 5, 0, 0, 0, 1, 9, 9, 9, 9, 0, 0, 0, 2, 0x3F, 0xC0, 0, 0]) == Some(Sparse(5, [2], [0x3FC0_0000]))
  {
    var b: seq<Byte> := [0, 0, 0, 5, 0, 0, 0, 1, 9, 9, 9, 9, 0, 0, 0, 2, 0x3F, 0xC0, 0, 0];
    assert ReadWords(b, 16, 0) == [] && ReadWords(b, 20, 0) == [];
    assert ReadWords(b, 12, 1) == [2] + ReadWords(b, 16, 0) == [2];
    assert ReadWords(b, 16, 1) == [0x3FC0_0000] + ReadWords(b, 20, 0) == [0x3FC0_0000];
    assert U32(b, 0) == 5 && U32(b, 4) == 1 && |b| == 20;
  }

  /** For example, a vector of two floats: dimension first, then two unused bytes, then the floats, high byte first. */
  lemma SmallVector()
    ensures DecodeVector([0, 2, 0, 0, 0x3F, 0x80, 0, 0, 0x40, 0, 0, 1]) == Some([0x3F80_0000, 0x4000_0001])
  {
    var b: seq<Byte> := [0, 2, 0, 0, 0x3F, 0x80, 0, 0, 0x40, 0, 0, 1];
    assert ReadWords(b, 12, 0) == [];
    assert ReadWords(b, 8, 1) == [0x4000_0001] + ReadWords(b, 12, 0);
    assert ReadWords(b, 4, 2) == [0x3F80_0000] + ReadWords(b, 8, 1);
    assert U16(b, 0) == 2 && |b| == 12;
    assert DecodeVector(b) == Some(ReadWords(b, 4, 2));
    assert ReadWords(b, 4, 2) == [0x3F80_0000, 0x4000_0001];
  }

  // ---- Building a list column ----

  class ListBuilder {
    var values: seq<Word>
    var offsets: seq<nat>   // where each row ends
    var validity: seq<bool>

    ghost predicate Valid()
      reads this
    {
      && |offsets| == |validity|
      && (forall i | 0 <= i < |offsets| :: offsets[i] <= |values|)
      && (forall i, j | 0 <= i < j < |offsets| :: offsets[i] <= offsets[j])
    }

    constructor ()
      ensures Valid() && values == [] && offsets == [] && validity == []
    {
      values, offsets, validity := [], [], [];
    }

    method AppendSlice(ws: seq<Word>)
      requires Valid()
      modifies `values
      ensures Valid() && values == old(values) + ws
    {
      values := values + ws;
    }

    method Append(valid: bool)
      requires Valid()
      modifies `offsets, `validity
      ensures Valid() && offsets == old(offsets) + [|values|] && validity == old(validity) + [valid]
    {
      offsets, validity := offsets + [|values|], validity + [valid];
    }
  }

  /** A finished column: row `i` lies between the end of the row before and its own. */
  datatype Column = Column(values: seq<Word>, offsets: seq<nat>, validity: seq<bool>)

  ghost predicate RowIs(c: Column, i: nat, row: Option<seq<Word>>) {
    i < |c.offsets| && i < |c.validity| &&
    var lo := if i == 0 then 0 else c.offsets[i - 1];
    && lo <= c.offsets[i] <= |c.values|
    && (row.None? ==> !c.validity[i])
    && (row.Some? ==> c.validity[i] && c.values[lo..c.offsets[i]] == row.value)
  }

  predicate Decodes(value: Option<seq<Byte>>, decode: seq<Byte> -> Option<seq<Word>>) {
    value.Some? ==> decode(value.value).Some?
  }

  function Decoded(value: Option<seq<Byte>>, decode: seq<Byte> -> Option<seq<Word>>): Option<seq<Word>> {
    if value.None? then None else decode(value.value)
  }

  lemma RowStays(c: Column, d: Column, i: nat, row: Option<seq<Word>>)
    requires RowIs(c, i, row) && c.values <= d.values && c.offsets <= d.offsets && c.validity <= d.validity
    ensures RowIs(d, i, row)
  {
    var lo, hi := if i == 0 then 0 else c.offsets[i - 1], c.offsets[i];
    assert d.values[lo..hi] == c.values[lo..hi];
  }

  /** The column has the rows in order, null where the value is null; it is built exactly if every value decodes. */
  method BuildListArray(values: seq<Option<seq<Byte>>>, decode: seq<Byte> -> Option<seq<Word>>) returns (column: Option<Column>)
    ensures column.Some? <==> forall v | v in values :: Decodes(v, decode)
    ensures column.Some? ==> |column.value.offsets| == |column.value.validity| == |values|
    ensures column.Some? ==> forall i | 0 <= i < |values| :: RowIs(column.value, i, Decoded(values[i], decode))
  {
    var builder := new ListBuilder();
    for n := 0 to |values|
      invariant builder.Valid() && |builder.offsets| == n
      invariant n == 0 ==> builder.values == []
      invariant n > 0 ==> builder.offsets[n - 1] == |builder.values|
      invariant forall v | v in values[..n] :: Decodes(v, decode)
      invariant forall i | 0 <= i < n :: RowIs(Column(builder.values, builder.offsets, builder.validity), i, Decoded(values[i], decode))
    {
      ghost var before := Column(builder.values, builder.offsets, builder.validity);
      assert values[..n + 1] == values[..n] + [values[n]];
      match values[n] {
        case Some(bytes) =>
          var decoded := decode(bytes);
          if decoded.None? {
            assert values[n] in values;
            return None;
          }
          builder.AppendSlice(decoded.value);
          builder.Append(true);
        case None =>
          builder.Append(false);
      }
      ghost var after := Column(builder.values, builder.offsets, builder.validity);
      forall i | 0 <= i < n ensures RowIs(after, i, Decoded(values[i], decode)) {
        RowStays(before, after, i, Decoded(values[i], decode));
      }
    }
    assert values[..|values|] == values;
    column := Some(Column(builder.values, builder.offsets, builder.validity));
  }
}
