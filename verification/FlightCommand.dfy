/**
  The hand-written Protocol Buffers encoding of a Flight SQL CommandGetTables message, against a
  parser of the wire format (Protocol Buffers encoding specification).
*/
module FlightCommand {
  import opened Options
  import opened ByteStrings
  import opened Sequences

  // ---- Base 128 varints ----

  /** Groups of seven bits, lowest first; every group but the last has the high bit set. */
  function Varint(value: nat): (bytes: seq<Byte>)
    ensures bytes != []
  {
    if value > 127 then [value % 128 + 128] + Varint(value / 128) else [value]
  }

  method EncodeVarint(n: nat) returns (result: seq<Byte>)
    ensures result == Varint(n)
  {
    var value := n;
    result := [];
    while value > 0x7F
      invariant result + Varint(value) == Varint(n)
    {
      Associate(result, [value % 128 + 128], Varint(value / 128));
      result := result + [value % 128 + 128];
      value := value / 128;
    }
    result := result + [value];
  }

  /** A varint read off the front, and the bytes after it. */
  function ReadVarint(bytes: seq<Byte>): (r: Option<(nat, seq<Byte>)>)
    ensures r.Some? ==> |r.value.1| < |bytes|
  {
    if bytes == [] then None
    else if bytes[0] < 128 then Some((bytes[0], bytes[1..]))
    else match ReadVarint(bytes[1..])
         case None => None
         case Some((high, rest)) => Some((bytes[0] - 128 + 128 * high, rest))
  }

  /** Reading undoes writing, for every number and whatever follows. */
  lemma {:induction false} ReadUndoesWrite(value: nat, rest: seq<Byte>)
    ensures ReadVarint(Varint(value) + rest) == Some((value, rest))
  {
    var bytes := Varint(value) + rest;
    if value > 127 {
      assert bytes[1..] == Varint(value / 128) + rest;
      ReadUndoesWrite(value / 128, rest);
    } else {
      assert bytes[1..] == rest;
    }
  }

  lemma VarintOfSum(low: nat, high: nat)
    requires low < 128 && high > 0
    ensures Varint(low + 128 * high) == [low + 128] + Varint(high)
  {
  }

  /** No encoding of a number is shorter, and none of the same length is different. */
  lemma {:induction false} VarintIsMinimal(bytes: seq<Byte>, value: nat)
    requires ReadVarint(bytes) == Some((value, []))
    ensures |Varint(value)| <= |bytes|
    ensures |Varint(value)| == |bytes| ==> bytes == Varint(value)
  {
    if bytes[0] < 128 {
      assert bytes == [bytes[0]] + bytes[1..];
    } else {
      var (high, _) := ReadVarint(bytes[1..]).value;
      VarintIsMinimal(bytes[1..], high);
      if high > 0 {
        VarintOfSum(bytes[0] - 128, high);
        assert bytes == [bytes[0]] + bytes[1..];
      } else {
        assert |Varint(value)| == 1;
      }
    }
  }

  // ---- The wire format ----

  datatype Field = Number(num: nat, value: nat) | Bytes(num: nat, payload: seq<Byte>)

  /** One field off the front: a tag, then a varint (wire type 0) or a length and as many bytes (wire type 2) or a fixed-size value. */
  function ReadField(bytes: seq<Byte>): (r: Option<(Field, seq<Byte>)>)
    ensures r.Some? ==> |r.value.1| < |bytes|
  {
    match ReadVarint(bytes)
    case None => None
    case Some((tag, rest)) =>
      if tag % 8 == 0 then
        match ReadVarint(rest)
        case None => None
        case Some((value, rest)) => Some((Number(tag / 8, value), rest))
      else if tag % 8 == 2 then
        match ReadVarint(rest)
        case None => None
        case Some((size, rest)) => Taken(tag / 8, rest, size)
      else if tag % 8 == 1 then Taken(tag / 8, rest, 8)
      else if tag % 8 == 5 then Taken(tag / 8, rest, 4)
      else None
  }

  function Taken(num: nat, bytes: seq<Byte>, size: nat): (r: Option<(Field, seq<Byte>)>)
    ensures r.Some? ==> |r.value.1| <= |bytes|
  {
    if size <= |bytes| then Some((Bytes(num, bytes[..size]), bytes[size..])) else None
  }

  /** All fields of a message, or nothing if it is malformed. */
  function Parse(bytes: seq<Byte>): Option<seq<Field>>
    decreases |bytes|
  {
    if bytes == [] then Some([])
    else match ReadField(bytes)
         case None => None
         case Some((field, rest)) =>
           match Parse(rest)
           case None => None
           case Some(fields) => Some([field] + fields)
  }

  const TABLE_NAME_FILTER := 3
  const INCLUDE_SCHEMA := 5

  /** The filter a reader of the message sees: the last one, if any. */
  function Filter(fields: seq<Field>): Option<seq<Byte>> {
    if fields == [] then None
    else
      var last := fields[|fields| - 1];
      if last.Bytes? && last.num == TABLE_NAME_FILTER then Some(last.payload) else Filter(fields[..|fields| - 1])
  }

  function IncludesSchema(fields: seq<Field>): bool {
    if fields == [] then false
    else
      var last := fields[|fields| - 1];
      if last.Number? && last.num == INCLUDE_SCHEMA then last.value != 0 else IncludesSchema(fields[..|fields| - 1])
  }

  // ---- The command ----

  function FilterPart(filter: Option<seq<Byte>>): seq<Byte> {
    if filter.None? then [] else Varint(TABLE_NAME_FILTER * 8 + 2) + Varint(|filter.value|) + filter.value
  }

  function SchemaPart(includeSchema: bool): seq<Byte> {
    if includeSchema then Varint(INCLUDE_SCHEMA * 8) + Varint(1) else []
  }

  /** Builds the inner message; `filter` is the encoded filter pattern. */
  method BuildCommandGetTables(filter: Option<seq<Byte>>, includeSchema: bool) returns (msg: seq<Byte>)
    ensures msg == FilterPart(filter) + SchemaPart(includeSchema)
  {
    msg := [];
    if filter.Some? {
      var tag := EncodeVarint(TABLE_NAME_FILTER * 8 + 2);
      var size := EncodeVarint(|filter.value|);
      msg := msg + (tag + size + filter.value);
    }
    if includeSchema {
      var tag := EncodeVarint(INCLUDE_SCHEMA * 8);
      var one := EncodeVarint(1);
      msg := msg + (tag + one);
    }
  }

  lemma ParseOne(field: Field, bytes: seq<Byte>, rest: seq<Byte>)
    requires ReadField(bytes) == Some((field, rest)) && Parse(rest).Some?
    ensures Parse(bytes) == Some([field] + Parse(rest).value)
  {
  }

  lemma ReadFilter(payload: seq<Byte>, rest: seq<Byte>)
    ensures ReadField(FilterPart(Some(payload)) + rest) == Some((Bytes(TABLE_NAME_FILTER, payload), rest))
  {
    var tag, size := Varint(TABLE_NAME_FILTER * 8 + 2), Varint(|payload|);
    var behind := payload + rest;
    Regroup(tag, size, payload, rest);
    ReadUndoesWrite(TABLE_NAME_FILTER * 8 + 2, size + behind);
    ReadUndoesWrite(|payload|, behind);
    assert behind[..|payload|] == payload && behind[|payload|..] == rest;
  }

  lemma ReadSchema(rest: seq<Byte>)
    ensures ReadField(SchemaPart(true) + rest) == Some((Number(INCLUDE_SCHEMA, 1), rest))
  {
    assert SchemaPart(true) + rest == Varint(INCLUDE_SCHEMA * 8) + (Varint(1) + rest);
    ReadUndoesWrite(INCLUDE_SCHEMA * 8, Varint(1) + rest);
    ReadUndoesWrite(1, rest);
  }

  lemma ParseSchema(includeSchema: bool)
    ensures Parse(SchemaPart(includeSchema)) == Some(Tail(includeSchema))
  {
    if includeSchema {
      ReadSchema([]);
      assert SchemaPart(true) + [] == SchemaPart(true);
      ParseOne(Number(INCLUDE_SCHEMA, 1), SchemaPart(true), []);
      assert Tail(true) + [] == Tail(true);
    }
  }

  function Head(filter: Option<seq<Byte>>): seq<Field> {
    if filter.Some? then [Bytes(TABLE_NAME_FILTER, filter.value)] else []
  }

  function Tail(includeSchema: bool): seq<Field> {
    if includeSchema then [Number(INCLUDE_SCHEMA, 1)] else []
  }

  lemma SeenFields(filter: Option<seq<Byte>>, includeSchema: bool)
    ensures var fields := Head(filter) + Tail(includeSchema); Filter(fields) == filter && IncludesSchema(fields) == includeSchema
  {
    var fields := Head(filter) + Tail(includeSchema);
    assert Filter(Head(filter)) == filter && !IncludesSchema(Head(filter)) by {
      assert filter.Some? ==> Head(filter)[..0] == [];
    }
    if includeSchema {
      assert fields[..|fields| - 1] == Head(filter);
    } else {
      assert fields == Head(filter);
    }
  }

  /** A wire parser recovers the filter and the flag from every command. */
  lemma CommandIsRecovered(filter: Option<seq<Byte>>, includeSchema: bool)
    ensures var parsed := Parse(FilterPart(filter) + SchemaPart(includeSchema));
            && parsed.Some? && Filter(parsed.value) == filter && IncludesSchema(parsed.value) == includeSchema
            && parsed.value == (if filter.Some? then [Bytes(3, filter.value)] else []) + (if includeSchema then [Number(5, 1)] else [])
  {
    var schema := SchemaPart(includeSchema);
    SeenFields(filter, includeSchema);
    ParseSchema(includeSchema);
    if filter.Some? {
      ReadFilter(filter.value, schema);
      ParseOne(Bytes(TABLE_NAME_FILTER, filter.value), FilterPart(filter) + schema, schema);
    } else {
      assert FilterPart(filter) + schema == schema && Head(filter) + Tail(includeSchema) == Tail(includeSchema);
    }
  }

  /** For example, the filter `a` with schemas; and 300 takes two bytes. */
  lemma SmallCommand()
    ensures FilterPart(Some([97])) + SchemaPart(true) == [26, 1, 97, 40, 1]
    ensures Varint(300) == [172, 2]
  {
    assert Varint(2) == [2];
  }

  /** Different requests have different messages. */
  lemma CommandsDiffer(filter: Option<seq<Byte>>, includeSchema: bool, filter': Option<seq<Byte>>, includeSchema': bool)
    requires FilterPart(filter) + SchemaPart(includeSchema) == FilterPart(filter') + SchemaPart(includeSchema')
    ensures filter == filter' && includeSchema == includeSchema'
  {
    CommandIsRecovered(filter, includeSchema);
    CommandIsRecovered(filter', includeSchema');
  }
}
