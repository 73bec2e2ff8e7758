/**
  Chunked decoding of a byte stream into record batches.

  The push decoder is any machine that reads bytes one at a time and emits records: rows
  ended by newlines, rows with quoted newlines, JSON values, and so on. The result of
  decoding is then a function of the bytes alone, however they are cut into chunks.
*/
module DecodeStream {
  import opened ByteStrings
  import opened Options
  import opened Sequences

  datatype Step<+S, +R> = More(state: S) | Emit(state: S, record: R) | Malformed
  datatype Ending<+R> = Complete | Last(record: R) | Truncated

  /** A record format: where to start, what a byte does, and what the end of input does. */
  datatype Format<!S, !R> = Format(init: S, step: (S, Byte) -> Step<S, R>, finish: S -> Ending<R>)

  /** Nothing is pending at the start or just after a record. */
  ghost predicate Settles<S(!new), R>(fmt: Format<S, R>) {
    && fmt.finish(fmt.init) == Complete
    && forall s: S, b: Byte :: fmt.step(s, b).Emit? ==> fmt.finish(fmt.step(s, b).state) == Complete
  }

  // ---- What decoding means ----

  datatype Fed<S, R> = Fed(state: S, records: seq<R>, ok: bool)

  /** The records of `bytes` read from state `s`, up to the first malformed byte. */
  function Feed<S, R>(fmt: Format<S, R>, s: S, bytes: seq<Byte>): Fed<S, R>
    decreases |bytes|
  {
    if bytes == [] then Fed(s, [], true)
    else
      var before := Feed(fmt, s, bytes[..|bytes| - 1]);
      if !before.ok then before
      else match fmt.step(before.state, bytes[|bytes| - 1])
           case More(s') => Fed(s', before.records, true)
           case Emit(s', r) => Fed(s', before.records + [r], true)
           case Malformed => before.(ok := false)
  }

  function Concat<T>(parts: seq<seq<T>>): seq<T>
    decreases |parts|
  {
    if parts == [] then [] else Concat(parts[..|parts| - 1]) + parts[|parts| - 1]
  }

  /** `records` cut into batches of `n`, the last one possibly shorter. */
  function Batches<R>(records: seq<R>, n: nat): seq<seq<R>>
    requires n > 0
    decreases |records|
  {
    if records == [] then []
    else if |records| <= n then [records]
    else [records[..n]] + Batches(records[n..], n)
  }

  /** Only the full batches: what has been handed on before an error. */
  function FullBatches<R>(records: seq<R>, n: nat): seq<seq<R>>
    requires n > 0
    decreases |records|
  {
    if |records| < n then [] else [records[..n]] + FullBatches(records[n..], n)
  }

  /** The batches of a whole stream, and whether it was decoded without error. */
  function Decoded<S, R>(fmt: Format<S, R>, n: nat, bytes: seq<Byte>): (seq<seq<R>>, bool)
    requires n > 0
  {
    var fed := Feed(fmt, fmt.init, bytes);
    if !fed.ok then (FullBatches(fed.records, n), false)
    else match fmt.finish(fed.state)
         case Complete => (Batches(fed.records, n), true)
         case Last(r) => (Batches(fed.records + [r], n), true)
         case Truncated => (FullBatches(fed.records, n), false)
  }

  /** All but the last part are full and none is empty. */
  ghost predicate WellCut<R>(parts: seq<seq<R>>, n: nat) {
    && (forall i | 0 <= i < |parts| :: 0 < |parts[i]| <= n)
    && (forall i | 0 <= i < |parts| - 1 :: |parts[i]| == n)
  }

  lemma WellCutCons<R>(first: seq<R>, rest: seq<seq<R>>, n: nat)
    requires WellCut(rest, n) && |first| == n > 0
    ensures WellCut([first] + rest, n)
  {
  }

  /** Batches lose no record and keep their order; all but the last are full and none is empty. */
  lemma {:induction false} BatchesAreExact<R>(records: seq<R>, n: nat)
    requires n > 0
    ensures Concat(Batches(records, n)) == records && WellCut(Batches(records, n), n)
    decreases |records|
  {
    if |records| > n {
      var first, rest := records[..n], Batches(records[n..], n);
      BatchesAreExact(records[n..], n);
      ConcatCons(first, rest);
      WellCutCons(first, rest, n);
      assert first + records[n..] == records;
    } else if records != [] {
      ConcatCons(records, []);
      assert [records] + [] == [records] && records + [] == records;
    }
  }

  lemma {:induction false} ConcatCons<T>(first: seq<T>, rest: seq<seq<T>>)
    ensures Concat([first] + rest) == first + Concat(rest)
    decreases |rest|
  {
    var all := [first] + rest;
    if rest == [] {
      assert all == [first] && all[..0] == [];
      assert Concat(all) == Concat(all[..0]) + first;
    } else {
      var n := |rest| - 1;
      assert all[..|all| - 1] == [first] + rest[..n];
      ConcatCons(first, rest[..n]);
    }
  }

  /** Every part has exactly `n` elements. */
  ghost predicate AllFull<R>(parts: seq<seq<R>>, n: nat) {
    forall i | 0 <= i < |parts| :: |parts[i]| == n
  }

  /** Full batches followed by a remainder are the batches of all their records. */
  lemma {:induction false} FullThenRest<R>(full: seq<seq<R>>, rest: seq<R>, n: nat)
    requires n > 0 && AllFull(full, n) && |rest| <= n
    ensures Batches(Concat(full) + rest, n) == full + (if rest == [] then [] else [rest])
    ensures |rest| < n ==> FullBatches(Concat(full) + rest, n) == full
    decreases |full|
  {
    if full == [] {
      assert Concat(full) + rest == rest;
    } else {
      var first, more := full[0], full[1..];
      assert full == [first] + more;
      ConcatCons(first, more);
      FullThenRest(more, rest, n);
      var all := Concat(full) + rest;
      assert all[..n] == first && all[n..] == Concat(more) + rest;
    }
  }

  /** Full batches lose fewer than `n` records, and only at the end. */
  lemma {:induction false} FullBatchesAreExact<R>(records: seq<R>, n: nat)
    requires n > 0
    ensures var full := FullBatches(records, n);
            AllFull(full, n) && Concat(full) <= records && |records| - |Concat(full)| < n
    decreases |records|
  {
    if |records| >= n {
      FullBatchesAreExact(records[n..], n);
      ConcatCons(records[..n], FullBatches(records[n..], n));
      assert records == records[..n] + records[n..];
    }
  }

  /** The record that the end of input completes, if there is one. */
  function Completed<R>(ending: Ending<R>): seq<R> {
    if ending.Last? then [ending.record] else []
  }

  /**
    What decoding is for: it succeeds exactly if no byte is malformed and no record is cut off, and
    then the batches are all the records; otherwise they are full, and lack fewer than `n` records
    of those before the error.
  */
  ghost predicate IsDecoding<S, R>(fmt: Format<S, R>, n: nat, bytes: seq<Byte>, batches: seq<seq<R>>, ok: bool) {
    var fed := Feed(fmt, fmt.init, bytes);
    && (ok <==> fed.ok && fmt.finish(fed.state) != Truncated)
    && (ok ==> Concat(batches) == fed.records + Completed(fmt.finish(fed.state)) && WellCut(batches, n))
    && (!ok ==> AllFull(batches, n) && Concat(batches) <= fed.records && |fed.records| - |Concat(batches)| < n)
  }

  lemma DecodedIsDecoding<S, R>(fmt: Format<S, R>, n: nat, bytes: seq<Byte>)
    requires n > 0
    ensures IsDecoding(fmt, n, bytes, Decoded(fmt, n, bytes).0, Decoded(fmt, n, bytes).1)
  {
    var fed := Feed(fmt, fmt.init, bytes);
    var all := fed.records + Completed(fmt.finish(fed.state));
    assert fed.records + [] == fed.records;
    BatchesAreExact(all, n);
    FullBatchesAreExact(fed.records, n);
  }

  /** Reading in two parts is reading at once. */
  lemma {:induction false} FeedInParts<S, R>(fmt: Format<S, R>, s: S, a: seq<Byte>, b: seq<Byte>)
    requires Feed(fmt, s, a).ok
    ensures var mid := Feed(fmt, s, a);
            var end := Feed(fmt, mid.state, b);
            Feed(fmt, s, a + b) == end.(records := mid.records + end.records)
    decreases |b|
  {
    if b == [] {
      assert a + b == a;
    } else {
      var n := |b| - 1;
      FeedInParts(fmt, s, a, b[..n]);
      assert (a + b)[..|a + b| - 1] == a + b[..n];
    }
  }

  /** Bytes after a malformed one are never reached. */
  lemma {:induction false} FeedStopsAtError<S, R>(fmt: Format<S, R>, s: S, a: seq<Byte>, b: seq<Byte>)
    requires !Feed(fmt, s, a).ok
    ensures Feed(fmt, s, a + b) == Feed(fmt, s, a)
    decreases |b|
  {
    if b == [] {
      assert a + b == a;
    } else {
      FeedStopsAtError(fmt, s, a, b[..|b| - 1]);
      assert (a + b)[..|a + b| - 1] == a + b[..|b| - 1];
    }
  }

  /** One more byte takes one more step. */
  lemma FeedOne<S, R>(fmt: Format<S, R>, s: S, bytes: seq<Byte>, n: nat)
    requires n < |bytes| && Feed(fmt, s, bytes[..n]).ok
    ensures var before := Feed(fmt, s, bytes[..n]);
            Feed(fmt, s, bytes[..n + 1]) ==
            match fmt.step(before.state, bytes[n])
            case More(s') => Fed(s', before.records, true)
            case Emit(s', r) => Fed(s', before.records + [r], true)
            case Malformed => before.(ok := false)
  {
    assert bytes[..n + 1][..n] == bytes[..n];
  }

  /** Reading goes well exactly if no byte is malformed in the state that the bytes before it lead to. */
  lemma {:induction false} FeedGoesWell<S, R>(fmt: Format<S, R>, s: S, bytes: seq<Byte>)
    ensures Feed(fmt, s, bytes).ok <==> forall k | 0 <= k < |bytes| :: !fmt.step(Feed(fmt, s, bytes[..k]).state, bytes[k]).Malformed?
    decreases |bytes|
  {
    if bytes != [] {
      var n := |bytes| - 1;
      FeedGoesWell(fmt, s, bytes[..n]);
      forall k | 0 <= k < n ensures bytes[..n][..k] == bytes[..k] && bytes[..n][k] == bytes[k] {
      }
    }
  }

  // ---- The decoder and the loop around it ----

  class Decoder<S(!new), R> {
    const fmt: Format<S, R>
    const batchSize: nat
    var state: S
    var rows: seq<R>

    /** A full batch has nothing pending behind it. */
    ghost predicate Valid()
      reads this
    {
      && batchSize > 0 && Settles(fmt)
      && |rows| <= batchSize
      && (|rows| == batchSize ==> fmt.finish(state) == Complete)
    }

    constructor (fmt: Format<S, R>, batchSize: nat)
      requires batchSize > 0 && Settles(fmt)
      ensures Valid() && this.fmt == fmt && this.batchSize == batchSize && state == fmt.init && rows == []
    {
      this.fmt, this.batchSize := fmt, batchSize;
      state, rows := fmt.init, [];
    }

    /**
      Reads until the batch is full or the buffer is used up, and tells how much was read,
      or None for malformed input. An empty buffer announces the end of input.
    */
    method Decode(buf: seq<Byte>) returns (consumed: Option<nat>)
      requires Valid()
      modifies this
      ensures buf == [] && |old(rows)| == batchSize ==> consumed == Some(0) && rows == old(rows) && state == old(state)
      ensures buf == [] && |old(rows)| < batchSize ==>
                match fmt.finish(old(state))
                case Complete => consumed == Some(0) && rows == old(rows)
                case Last(r) => consumed == Some(0) && rows == old(rows) + [r]
                case Truncated => consumed == None
      ensures buf != [] && consumed.Some? ==>
                && Valid()
                && consumed.value <= |buf|
                && Feed(fmt, old(state), buf[..consumed.value]).ok
                && state == Feed(fmt, old(state), buf[..consumed.value]).state
                && rows == old(rows) + Feed(fmt, old(state), buf[..consumed.value]).records
                && (consumed.value < |buf| ==> |rows| == batchSize)
                && (consumed.value == 0 <==> |old(rows)| == batchSize)
      ensures buf != [] && consumed.None? ==>
                && !Feed(fmt, old(state), buf).ok
                && rows == old(rows) + Feed(fmt, old(state), buf).records
                && |rows| < batchSize
    {
      if buf == [] {
        consumed := Finish();
      } else {
        consumed := Read(buf);
      }
    }

    /** The end of input: a last record without its terminator is completed, if there is room. */
    method Finish() returns (consumed: Option<nat>)
      modifies `rows
      ensures |old(rows)| == batchSize ==> consumed == Some(0) && rows == old(rows)
      ensures |old(rows)| != batchSize ==>
                match fmt.finish(state)
                case Complete => consumed == Some(0) && rows == old(rows)
                case Last(r) => consumed == Some(0) && rows == old(rows) + [r]
                case Truncated => consumed == None
    {
      if |rows| == batchSize { return Some(0); }
      match fmt.finish(state)
      case Complete => return Some(0);
      case Last(r) => rows := rows + [r]; return Some(0);
      case Truncated => return None;
    }

    method Read(buf: seq<Byte>) returns (consumed: Option<nat>)
      requires Valid() && buf != []
      modifies this
      ensures consumed.Some? ==>
                && Valid()
                && consumed.value <= |buf|
                && Feed(fmt, old(state), buf[..consumed.value]) == Fed(state, Feed(fmt, old(state), buf[..consumed.value]).records, true)
                && rows == old(rows) + Feed(fmt, old(state), buf[..consumed.value]).records
                && (consumed.value < |buf| ==> |rows| == batchSize)
                && (consumed.value == 0 <==> |old(rows)| == batchSize)
      ensures consumed.None? ==>
                && !Feed(fmt, old(state), buf).ok
                && rows == old(rows) + Feed(fmt, old(state), buf).records
                && |rows| < batchSize
    {
      var n := 0;
      ghost var fed := Fed(state, [], true);
      while n < |buf| && |rows| < batchSize
        invariant 0 <= n <= |buf| && Valid()
        invariant fed == Feed(fmt, old(state), buf[..n]) && fed.ok && state == fed.state
        invariant rows == old(rows) + fed.records
        invariant n > 0 ==> |old(rows)| < batchSize
      {
        FeedOne(fmt, old(state), buf, n);
        match fmt.step(state, buf[n]) {
          case More(s) =>
            fed := Fed(s, fed.records, true);
            state := s;
          case Emit(s, r) =>
            fed := Fed(s, fed.records + [r], true);
            state, rows := s, rows + [r];
          case Malformed =>
            FeedStopsAtError(fmt, old(state), buf[..n + 1], buf[n + 1..]);
            assert buf[..n + 1] + buf[n + 1..] == buf;
            return None;
        }
        n := n + 1;
      }
      consumed := Some(n);
    }

    /** Hands on the rows read so far, if there are any. */
    method Flush() returns (batch: Option<seq<R>>)
      modifies this
      ensures old(rows) == [] ==> batch == None
      ensures old(rows) != [] ==> batch == Some(old(rows))
      ensures rows == [] && state == old(state)
    {
      batch := if rows == [] then None else Some(rows);
      rows := [];
    }
  }

  /** What has been read, handed on and kept back fit together. */
  ghost predicate InStep<S, R>(fmt: Format<S, R>, n: nat, read: seq<Byte>, state: S, full: seq<seq<R>>, rows: seq<R>) {
    && Feed(fmt, fmt.init, read) == Fed(state, Concat(full) + rows, true)
    && AllFull(full, n)
  }

  lemma ConsumeKeepsStep<S, R>(fmt: Format<S, R>, n: nat, read: seq<Byte>, state: S, full: seq<seq<R>>, rows: seq<R>, next: seq<Byte>)
    requires InStep(fmt, n, read, state, full, rows) && Feed(fmt, state, next).ok
    ensures InStep(fmt, n, read + next, Feed(fmt, state, next).state, full, rows + Feed(fmt, state, next).records)
  {
    FeedInParts(fmt, fmt.init, read, next);
    Associate(Concat(full), rows, Feed(fmt, state, next).records);
  }

  lemma FlushKeepsStep<S, R>(fmt: Format<S, R>, n: nat, read: seq<Byte>, state: S, full: seq<seq<R>>, rows: seq<R>)
    requires InStep(fmt, n, read, state, full, rows) && |rows| == n
    ensures InStep(fmt, n, read, state, full + [rows], [])
  {
    assert (full + [rows])[..|full|] == full;
    assert Concat(full + [rows]) + [] == Concat(full) + rows;
  }

  lemma ErrorLeavesFull<S, R>(fmt: Format<S, R>, n: nat, read: seq<Byte>, state: S, full: seq<seq<R>>, rows: seq<R>, next: seq<Byte>)
    requires n > 0 && InStep(fmt, n, read, state, full, rows) && !Feed(fmt, state, next).ok
    requires |rows + Feed(fmt, state, next).records| < n
    ensures !Feed(fmt, fmt.init, read + next).ok
    ensures FullBatches(Feed(fmt, fmt.init, read + next).records, n) == full
  {
    FeedInParts(fmt, fmt.init, read, next);
    var more := Feed(fmt, state, next).records;
    Associate(Concat(full), rows, more);
    FullThenRest(full, rows + more, n);
  }

  /** What is left to hand on when the input ends. */
  lemma EndOfInput<S, R>(fmt: Format<S, R>, n: nat, bytes: seq<Byte>, state: S, full: seq<seq<R>>, rows: seq<R>)
    requires n > 0 && InStep(fmt, n, bytes, state, full, rows)
    requires |rows| <= n && (|rows| == n ==> fmt.finish(state) == Complete)
    ensures Decoded(fmt, n, bytes) ==
            match fmt.finish(state)
            case Complete => (full + (if rows == [] then [] else [rows]), true)
            case Last(r) => (full + [rows + [r]], true)
            case Truncated => (full, false)
  {
    match fmt.finish(state)
    case Complete => FullThenRest(full, rows, n);
    case Last(r) =>
      assert (Concat(full) + rows) + [r] == Concat(full) + (rows + [r]);
      FullThenRest(full, rows + [r], n);
    case Truncated => FullThenRest(full, rows, n);
  }

  lemma ReadOn(read: seq<Byte>, chunk: seq<Byte>, offset: nat, n: nat)
    requires offset + n <= |chunk|
    ensures (read + chunk[..offset]) + chunk[offset..][..n] == read + chunk[..offset + n]
    ensures (read + chunk[..offset]) + chunk[offset..] == read + chunk
  {
  }

  /** Reads one chunk, flushing full batches on the way. */
  method DecodeChunk<S(!new), R>(decoder: Decoder<S, R>, chunk: seq<Byte>, ghost read: seq<Byte>, done: seq<seq<R>>)
    returns (batches: seq<seq<R>>, ok: bool, ghost broke: bool)
    requires decoder.Valid() && InStep(decoder.fmt, decoder.batchSize, read, decoder.state, done, decoder.rows)
    modifies decoder
    ensures !broke
    ensures ok ==> decoder.Valid()
                   && InStep(decoder.fmt, decoder.batchSize, read + chunk, decoder.state, batches, decoder.rows)
    ensures !ok ==> !Feed(decoder.fmt, decoder.fmt.init, read + chunk).ok
                    && batches == FullBatches(Feed(decoder.fmt, decoder.fmt.init, read + chunk).records, decoder.batchSize)
  {
    batches, broke := done, false;
    var offset := 0;
    assert read + chunk[..0] == read;
    while offset < |chunk|
      invariant 0 <= offset <= |chunk| && !broke && decoder.Valid()
      invariant InStep(decoder.fmt, decoder.batchSize, read + chunk[..offset], decoder.state, batches, decoder.rows)
      decreases |chunk| - offset, |decoder.rows|
    {
      ghost var seen, state, rows := read + chunk[..offset], decoder.state, decoder.rows;
      var consumed := decoder.Decode(chunk[offset..]);
      if consumed.None? {
        ErrorLeavesFull(decoder.fmt, decoder.batchSize, seen, state, batches, rows, chunk[offset..]);
        ReadOn(read, chunk, offset, |chunk| - offset);
        return batches, false, false;
      }
      ghost var next := chunk[offset..][..consumed.value];
      ConsumeKeepsStep(decoder.fmt, decoder.batchSize, seen, state, batches, rows, next);
      ReadOn(read, chunk, offset, consumed.value);
      if consumed.value == 0 {
        FlushKeepsStep(decoder.fmt, decoder.batchSize, seen + next, decoder.state, batches, decoder.rows);
        var batch := decoder.Flush();
        if batch.Some? {
          batches := batches + [batch.value];
        } else {
          broke := true;
          break;
        }
      } else {
        offset := offset + consumed.value;
      }
    }
    assert chunk[..|chunk|] == chunk;
    ok := true;
  }

  /**
    Decodes a stream that arrives in any chunks, empty ones included. The batches are those
    of the whole stream, cut nowhere by the chunks, and the inner loop is never broken off.
  */
  method Decode<S(!new), R>(fmt: Format<S, R>, batchSize: nat, chunks: seq<seq<Byte>>)
    returns (batches: seq<seq<R>>, ok: bool, ghost broke: bool)
    requires batchSize > 0 && Settles(fmt)
    ensures (batches, ok) == Decoded(fmt, batchSize, Concat(chunks))
    ensures IsDecoding(fmt, batchSize, Concat(chunks), batches, ok)
    ensures !broke
  {
    DecodedIsDecoding(fmt, batchSize, Concat(chunks));
    var decoder := new Decoder(fmt, batchSize);
    batches, ok, broke := [], true, false;
    for i := 0 to |chunks|
      invariant decoder.fmt == fmt && decoder.batchSize == batchSize && decoder.Valid() && !broke
      invariant fresh(decoder)
      invariant InStep(fmt, batchSize, Concat(chunks[..i]), decoder.state, batches, decoder.rows)
    {
      ghost var read := Concat(chunks[..i]);
      assert chunks[..i + 1][..i] == chunks[..i];
      batches, ok, broke := DecodeChunk(decoder, chunks[i], read, batches);
      if !ok {
        assert Concat(chunks[..i + 1]) == read + chunks[i];
        StopsInChunk(fmt, chunks, i + 1);
        return;
      }
    }
    assert chunks[..|chunks|] == chunks;
    EndOfInput(fmt, batchSize, Concat(chunks), decoder.state, batches, decoder.rows);
    assert batches + [] == batches;
    var last := decoder.Decode([]);
    if last.None? {
      ok := false;
      return;
    }
    var batch := decoder.Flush();
    if batch.Some? {
      batches := batches + [batch.value];
    }
    ok := true;
  }

  /** An error in a chunk decides the whole stream. */
  lemma {:induction false} StopsInChunk<S, R>(fmt: Format<S, R>, chunks: seq<seq<Byte>>, i: nat)
    requires i <= |chunks| && !Feed(fmt, fmt.init, Concat(chunks[..i])).ok
    ensures Feed(fmt, fmt.init, Concat(chunks)) == Feed(fmt, fmt.init, Concat(chunks[..i]))
    decreases |chunks| - i
  {
    if i == |chunks| {
      assert chunks[..i] == chunks;
    } else {
      assert chunks[..i + 1][..i] == chunks[..i];
      FeedStopsAtError(fmt, fmt.init, Concat(chunks[..i]), chunks[i]);
      StopsInChunk(fmt, chunks, i + 1);
    }
  }

  // ---- Newline-ended rows ----

  const NEWLINE: Byte := 10

  /** Rows ended by newlines; the state is the row read so far. */
  function Rows(): Format<seq<Byte>, seq<Byte>> {
    Format([],
           (row: seq<Byte>, b: Byte) => if b == NEWLINE then Emit([], row) else More(row + [b]),
           (row: seq<Byte>) => if row == [] then Complete else Last(row))
  }

  lemma RowsSettle()
    ensures Settles(Rows())
  {
  }

  /** No row has a newline in it. */
  ghost predicate Clean(rows: seq<seq<Byte>>) {
    forall i | 0 <= i < |rows| :: NEWLINE !in rows[i]
  }

  /** The text of rows, each with its newline. */
  function Text(rows: seq<seq<Byte>>): seq<Byte>
    decreases |rows|
  {
    if rows == [] then [] else Text(rows[..|rows| - 1]) + rows[|rows| - 1] + [NEWLINE]
  }

  lemma {:induction false} FeedRow(start: seq<Byte>, row: seq<Byte>)
    requires NEWLINE !in row
    ensures Feed(Rows(), start, row) == Fed(start + row, [], true)
    decreases |row|
  {
    if row == [] {
      assert start + row == start;
    } else {
      FeedRow(start, row[..|row| - 1]);
      assert start + row == (start + row[..|row| - 1]) + [row[|row| - 1]];
    }
  }

  lemma FeedLine(row: seq<Byte>)
    requires NEWLINE !in row
    ensures Feed(Rows(), [], row + [NEWLINE]) == Fed([], [row], true)
  {
    FeedRow([], row);
    assert (row + [NEWLINE])[..|row|] == row && [] + row == row;
  }

  lemma FeedMore<S, R>(fmt: Format<S, R>, s: S, a: seq<Byte>, records: seq<R>, b: seq<Byte>, r: R)
    requires Feed(fmt, s, a) == Fed(s, records, true) && Feed(fmt, s, b) == Fed(s, [r], true)
    ensures Feed(fmt, s, a + b) == Fed(s, records + [r], true)
  {
    FeedInParts(fmt, s, a, b);
  }

  lemma {:induction false} TextSnoc(rows: seq<seq<Byte>>)
    requires rows != []
    ensures Text(rows) == Text(rows[..|rows| - 1]) + (rows[|rows| - 1] + [NEWLINE])
  {
    Associate(Text(rows[..|rows| - 1]), rows[|rows| - 1], [NEWLINE]);
  }

  lemma {:induction false} FeedText(rows: seq<seq<Byte>>)
    requires Clean(rows)
    ensures Feed(Rows(), [], Text(rows)) == Fed([], rows, true)
    decreases |rows|
  {
    if rows != [] {
      var front, last := rows[..|rows| - 1], rows[|rows| - 1];
      assert front + [last] == rows;
      TextSnoc(rows);
      FeedText(front);
      FeedLine(last);
      FeedMore(Rows(), [], Text(front), front, last + [NEWLINE], last);
    }
  }

  /**
    Decoding the text of rows gives the rows back in order, in any chunks, whether or not
    the last row is followed by a newline.
  */
  lemma RowsRoundTrip(rows: seq<seq<Byte>>, last: seq<Byte>, n: nat)
    requires n > 0 && NEWLINE !in last && Clean(rows)
    ensures Decoded(Rows(), n, Text(rows)) == (Batches(rows, n), true)
    ensures last != [] ==> Decoded(Rows(), n, Text(rows) + last) == (Batches(rows + [last], n), true)
  {
    FeedText(rows);
    FeedRow([], last);
    FeedInParts(Rows(), [], Text(rows), last);
    assert [] + last == last && rows + [] == rows;
  }

  /** Rows that arrive in any chunks, the last one with or without its newline, come back in batches. */
  method DecodeRows(batchSize: nat, chunks: seq<seq<Byte>>) returns (batches: seq<seq<seq<Byte>>>, ok: bool)
    requires batchSize > 0
    ensures forall rows | Clean(rows) && Concat(chunks) == Text(rows) :: ok && batches == Batches(rows, batchSize)
    ensures forall rows, last | Clean(rows + [last]) && last != [] && Concat(chunks) == Text(rows) + last ::
              ok && batches == Batches(rows + [last], batchSize)
  {
    RowsSettle();
    ghost var broke;
    batches, ok, broke := Decode(Rows(), batchSize, chunks);
    forall rows | Clean(rows) && Concat(chunks) == Text(rows) ensures ok && batches == Batches(rows, batchSize) {
      RowsRoundTrip(rows, [], batchSize);
    }
    forall rows, last | Clean(rows + [last]) && last != [] && Concat(chunks) == Text(rows) + last
      ensures ok && batches == Batches(rows + [last], batchSize)
    {
      assert forall i | 0 <= i < |rows| :: rows[i] == (rows + [last])[i];
      assert (rows + [last])[|rows|] == last;
      RowsRoundTrip(rows, last, batchSize);
    }
  }

  // ---- The sample used to infer a schema ----

  const MAX_SCHEMA_SAMPLE: nat := 1_048_576

  /** The bytes up to and with the last newline, or all of them if there is none. */
  ghost predicate IsWholeRows(bytes: seq<Byte>, rows: seq<Byte>) {
    if NEWLINE in bytes then rows <= bytes && rows != [] && rows[|rows| - 1] == NEWLINE && NEWLINE !in bytes[|rows|..]
    else rows == bytes
  }

  /** The first `k` chunks are collected: all of them, or just enough to reach the limit. Then a row that may be cut off is dropped. */
  ghost predicate IsSample(chunks: seq<seq<Byte>>, k: nat, sample: seq<Byte>) {
    && k <= |chunks|
    && (k < |chunks| ==> |Concat(chunks[..k])| >= MAX_SCHEMA_SAMPLE)
    && (k > 0 ==> |Concat(chunks[..k - 1])| < MAX_SCHEMA_SAMPLE)
    && if |Concat(chunks[..k])| >= MAX_SCHEMA_SAMPLE then IsWholeRows(Concat(chunks[..k]), sample)
       else sample == Concat(chunks[..k])
  }

  method WholeRows(bytes: seq<Byte>) returns (rows: seq<Byte>)
    ensures IsWholeRows(bytes, rows)
  {
    var pos := |bytes|;
    while pos > 0 && bytes[pos - 1] != NEWLINE
      invariant 0 <= pos <= |bytes|
      invariant NEWLINE !in bytes[pos..]
    {
      pos := pos - 1;
    }
    assert pos == 0 ==> bytes[pos..] == bytes;
    rows := if pos > 0 then bytes[..pos] else bytes;
  }

  /**
    Reads chunks until the sample is large enough, then drops a row that may be cut off.
    The sample is a prefix of the stream, and all of it if the stream is short.
  */
  method ReadSample(chunks: seq<seq<Byte>>) returns (sample: seq<Byte>)
    ensures exists k: nat :: IsSample(chunks, k, sample)
    ensures sample <= Concat(chunks)
    ensures |Concat(chunks)| < MAX_SCHEMA_SAMPLE ==> sample == Concat(chunks)
  {
    sample := [];
    var i, hitLimit := 0, false;
    assert chunks[..0] == [];
    while i < |chunks| && !hitLimit
      invariant 0 <= i <= |chunks|
      invariant sample == Concat(chunks[..i])
      invariant hitLimit <==> |sample| >= MAX_SCHEMA_SAMPLE
      invariant i > 0 ==> |Concat(chunks[..i - 1])| < MAX_SCHEMA_SAMPLE
    {
      assert chunks[..i + 1][..i] == chunks[..i];
      sample := sample + chunks[i];
      hitLimit := |sample| >= MAX_SCHEMA_SAMPLE;
      i := i + 1;
    }
    assert chunks[..|chunks|] == chunks;
    ConcatGrows(chunks, i);
    if hitLimit {
      sample := WholeRows(sample);
    }
    assert IsSample(chunks, i, sample);
  }

  lemma {:induction false} ConcatGrows<T>(parts: seq<seq<T>>, i: nat)
    requires i <= |parts|
    ensures Concat(parts[..i]) <= Concat(parts)
    decreases |parts| - i
  {
    if i == |parts| {
      assert parts[..i] == parts;
    } else {
      assert parts[..i + 1][..i] == parts[..i];
      ConcatGrows(parts, i + 1);
    }
  }
}
