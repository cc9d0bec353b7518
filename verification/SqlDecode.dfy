/** Reading back what get_sqldatas wrote. */
module SqlDecode {
  import opened Seqs
  import opened Bytes
  import opened SqlRows

  datatype Parsed<+T> = Fail | Ok(value: T, rest: Bytes)

  // ---------- the reference decoder ----------

  function DecodeCell(b: Bytes): Parsed<Cell> {
    if |b| < 4 then Fail
    else
      var tag, rest := ReadInt(b), b[4..];
      if tag == NULL_TYPE && |rest| >= 4 then Ok(Null, rest[4..])
      else if tag == INT_TYPE && |rest| >= 4 then Ok(Integer(ReadInt(rest)), rest[4..])
      else if tag == STRING_TYPE && ReadText(rest).Some? then
        Ok(Text(ReadText(rest).value), rest[|ReadText(rest).value| + 1..])
      else Fail
  }

  function DecodeCells(b: Bytes, n: nat): (r: Parsed<Row>)
    ensures r.Ok? ==> |r.value| == n
    decreases n
  {
    if n == 0 then Ok([], b)
    else
      var c := DecodeCell(b);
      if c.Fail? then Fail
      else
        var cs := DecodeCells(c.rest, n - 1);
        if cs.Fail? then Fail else Ok([c.value] + cs.value, cs.rest)
  }

  function DecodeRow(b: Bytes): Parsed<Row> {
    if |b| < 4 || ReadInt(b) < 0 then Fail else DecodeCells(b[4..], ReadInt(b))
  }

  function DecodeRows(b: Bytes, n: nat): (r: Parsed<seq<Row>>)
    ensures r.Ok? ==> |r.value| == n
    decreases n
  {
    if n == 0 then Ok([], b)
    else
      var row := DecodeRow(b);
      if row.Fail? then Fail
      else
        var rows := DecodeRows(row.rest, n - 1);
        if rows.Fail? then Fail else Ok([row.value] + rows.value, rows.rest)
  }

  /** A buffer decodes only if nothing is left over. */
  function Decode(b: Bytes): Option<seq<Row>> {
    if |b| < 4 || ReadInt(b) < 0 then None
    else
      var r := DecodeRows(b[4..], ReadInt(b));
      if r.Ok? && r.rest == [] then Some(r.value) else None
  }

  // ---------- what a faithful buffer would hold ----------

  /** Integers are delivered as 32-bit ints. */
  function Delivered(c: Cell): Cell { if c.Integer? then Integer(Wrap(c.v)) else c }

  predicate IsKnown(c: Cell) { !c.Unsupported? }

  /** The columns of a row that can be delivered at all, as delivered. */
  function DeliveredRow(row: Row): Row { Map(Delivered, Filter(IsKnown, row)) }

  function DeliveredRows(rows: seq<Row>): seq<Row> { Map(DeliveredRow, rows) }

  predicate FirstRowKnown(rows: seq<Row>) {
    rows != [] ==> forall i :: 0 <= i < |rows[0]| ==> !rows[0][i].Unsupported?
  }

  predicate CountsFit(rows: seq<Row>) {
    |rows| < 0x8000_0000 && forall i :: 0 <= i < |rows| ==> |rows[i]| < 0x8000_0000
  }

  // ---------- round trips ----------

  lemma CellRoundTrip(c: Cell, rest: Bytes)
    requires !c.Unsupported?
    ensures DecodeCell(EncodeCell(c) + rest) == Ok(Delivered(c), rest)
  {
    hide Le, ReadInt;
    match c
    case Null =>
      TaggedRoundTrip(NULL_TYPE, Le(0), rest);
      ReadLe(0, rest);
    case Integer(v) =>
      TaggedRoundTrip(INT_TYPE, Le(v), rest);
      ReadLe(v, rest);
    case Text(s) =>
      TaggedRoundTrip(STRING_TYPE, s + [NUL], rest);
      ReadTextBack(s, rest);
  }

  lemma TaggedRoundTrip(tag: int, value: Bytes, rest: Bytes)
    requires 0 <= tag <= 2
    ensures var b := (Le(tag) + value) + rest;
            |b| >= 4 && ReadInt(b) == tag && b[4..] == value + rest
  {
    Associative(Le(tag), value, rest);
    ReadLe(tag, value + rest);
    WrapTwice(tag);
  }

  lemma {:induction false} CellsRoundTrip(row: Row, rest: Bytes)
    ensures DecodeCells(EncodeCells(row) + rest, Known(row)) == Ok(DeliveredRow(row), rest)
  {
    hide Le, ReadInt, DecodeCell;
    if row == [] {
      assert EncodeCells(row) + rest == rest;
    } else {
      var c, tail := row[0], row[1..];
      CellsRoundTrip(tail, rest);
      if c.Unsupported? {
        assert EncodeCells(row) == EncodeCells(tail);
      } else {
        Associative(EncodeCell(c), EncodeCells(tail), rest);
        CellRoundTrip(c, EncodeCells(tail) + rest);
        assert Filter(IsKnown, row)[0] == c && Filter(IsKnown, row)[1..] == Filter(IsKnown, tail);
      }
    }
  }

  lemma RowRoundTrip(row: Row, rest: Bytes)
    requires |row| < 0x8000_0000
    ensures DecodeRow(RowBytes(row, Known(row)) + rest) == Ok(DeliveredRow(row), rest)
  {
    hide Le, ReadInt, DecodeCells;
    Associative(Le(Known(row)), EncodeCells(row), rest);
    ReadLe(Known(row), EncodeCells(row) + rest);
    WrapTwice(Known(row));
    CellsRoundTrip(row, rest);
  }

  lemma {:induction false} AllKnown(row: Row)
    ensures Known(row) == |row| <==> forall i :: 0 <= i < |row| ==> !row[i].Unsupported?
    ensures |DeliveredRow(row)| == Known(row)
  {
    if row != [] {
      AllKnown(row[1..]);
      assert row == [row[0]] + row[1..];
    }
  }

  /** The rows from `n` on. */
  function Tail(rows: seq<Row>, n: nat): Bytes
    requires n <= |rows|
    decreases |rows| - n
  {
    if n == |rows| then [] else RowBytes(rows[n], HeaderOf(rows, n)) + Tail(rows, n + 1)
  }

  lemma {:induction false} BodySplit(rows: seq<Row>, n: nat)
    requires n <= |rows|
    ensures Body(rows, |rows|) == Body(rows, n) + Tail(rows, n)
    decreases |rows| - n
  {
    hide RowBytes;
    if n < |rows| {
      BodySplit(rows, n + 1);
      Associative(Body(rows, n), RowBytes(rows[n], HeaderOf(rows, n)), Tail(rows, n + 1));
    } else {
      assert Body(rows, n) + [] == Body(rows, n);
    }
  }

  lemma {:induction false} TailRoundTrip(rows: seq<Row>, n: nat)
    requires n <= |rows| && CountsFit(rows) && (n == 0 ==> FirstRowKnown(rows))
    ensures DecodeRows(Tail(rows, n), |rows| - n) == Ok(DeliveredRows(rows[n..]), [])
    decreases |rows| - n
  {
    hide RowBytes, DecodeRow;
    if n < |rows| {
      TailRoundTrip(rows, n + 1);
      AllKnown(rows[n]);
      RowRoundTrip(rows[n], Tail(rows, n + 1));
      assert rows[n..][1..] == rows[n + 1..];
    }
  }

  lemma BufferParts(rows: seq<Row>)
    requires CountsFit(rows)
    ensures var b := Buffer(rows);
            |b| >= 4 && ReadInt(b) == |rows| && b[4..] == Tail(rows, 0)
  {
    hide Le, ReadInt;
    BodySplit(rows, 0);
    assert [] + Tail(rows, 0) == Tail(rows, 0);
    ReadLe(|rows|, Tail(rows, 0));
    WrapTwice(|rows|);
  }

  /**
   Decoding the buffer gives back the result set - without its REAL and BLOB columns and with
   integers cut to 32 bits - if and only if the first row has no REAL or BLOB column.
   */
  lemma DecodesIff(rows: seq<Row>)
    requires CountsFit(rows)
    ensures Decode(Buffer(rows)) == Some(DeliveredRows(rows)) <==> FirstRowKnown(rows)
  {
    BufferParts(rows);
    if FirstRowKnown(rows) {
      TailRoundTrip(rows, 0);
      assert rows[0..] == rows;
    } else {
      AllKnown(rows[0]);
      FirstHeader(rows);
    }
  }

  /** A decoded first row has as many columns as its header says, which is never patched. */
  lemma FirstHeader(rows: seq<Row>)
    requires rows != [] && CountsFit(rows)
    ensures var r := DecodeRows(Tail(rows, 0), |rows|);
            r.Ok? ==> |r.value[0]| == |rows[0]|
  {
    hide Le, ReadInt, DecodeCells;
    var rest := Tail(rows, 1);
    Associative(Le(|rows[0]|), EncodeCells(rows[0]), rest);
    ReadLe(|rows[0]|, EncodeCells(rows[0]) + rest);
    WrapTwice(|rows[0]|);
  }

  /** A cell that can be delivered as it is. */
  predicate Exact(c: Cell) { !c.Unsupported? && (c.Integer? ==> IsInt32(c.v)) }

  predicate ExactRow(row: Row) { forall j :: 0 <= j < |row| ==> Exact(row[j]) }

  predicate ExactRows(rows: seq<Row>) { forall i :: 0 <= i < |rows| ==> ExactRow(rows[i]) }

  /** Nothing is lost if and only if every cell is NULL, a TEXT, or an INTEGER that fits an int. */
  lemma DecodesExactlyIff(rows: seq<Row>)
    requires CountsFit(rows)
    ensures Decode(Buffer(rows)) == Some(rows) <==> ExactRows(rows)
  {
    hide Buffer, DecodeRows, CountsFit;
    if ExactRows(rows) {
      FirstIsKnown(rows);
      DecodesIff(rows);
      MapAt(DeliveredRow, rows);
      forall i | 0 <= i < |rows| ensures DeliveredRow(rows[i]) == rows[i] {
        PlainRow(rows[i]);
      }
      assert DeliveredRows(rows) == rows;
    } else {
      var b := Buffer(rows);
      if |b| >= 4 && ReadInt(b) >= 0 {
        DecodedRowsExact(b[4..], ReadInt(b));
      }
    }
  }

  lemma FirstIsKnown(rows: seq<Row>)
    requires ExactRows(rows)
    ensures FirstRowKnown(rows)
  {
    if rows != [] {
      assert ExactRow(rows[0]);
      assert forall j :: 0 <= j < |rows[0]| ==> Exact(rows[0][j]);
    }
  }

  lemma DecodedCellExact(b: Bytes)
    ensures DecodeCell(b).Ok? ==> Exact(DecodeCell(b).value)
  {
    if |b| >= 8 {
      IntReadFits(b[4..]);
    }
  }

  lemma IntReadFits(b: Bytes)
    requires |b| >= 4
    ensures IsInt32(ReadInt(b))
  {
  }

  lemma {:induction false} DecodedRowExact(b: Bytes, n: nat)
    ensures DecodeCells(b, n).Ok? ==> ExactRow(DecodeCells(b, n).value)
    decreases n
  {
    hide DecodeCell, Exact;
    DecodedCellExact(b);
    if n > 0 && DecodeCell(b).Ok? {
      DecodedRowExact(DecodeCell(b).rest, n - 1);
    }
  }

  lemma {:induction false} DecodedRowsExact(b: Bytes, n: nat)
    ensures DecodeRows(b, n).Ok? ==> ExactRows(DecodeRows(b, n).value)
    decreases n
  {
    hide DecodeCells, ExactRow, ReadInt;
    if n > 0 && DecodeRow(b).Ok? {
      DecodedRowExact(b[4..], ReadInt(b));
      DecodedRowsExact(DecodeRow(b).rest, n - 1);
    }
  }

  lemma {:induction false} PlainRow(row: Row)
    requires ExactRow(row)
    ensures DeliveredRow(row) == row
  {
    if row != [] {
      assert Exact(row[0]);
      PlainRow(row[1..]);
      if row[0].Integer? {
        WrapTwice(row[0].v);
      }
    }
  }

  // ---------- lookups at fixed offsets ----------

  /** The rows of "select <one column> from <table>". */
  predicate OneColumn(rows: seq<Row>) { forall i :: 0 <= i < |rows| ==> |rows[i]| == 1 }

  /** The result and MAX(id) come from the same table: without rows there is no id. */
  predicate SameTable(rows: seq<Row>, maxId: Cell) { rows == [] ==> maxId == Null }

  /** Whether the type a lookup reads at offset 8 exists. */
  predicate Readable(rows: seq<Row>)
    requires OneColumn(rows)
  {
    rows != [] && (!rows[0][0].Unsupported? || |rows| > 1)
  }

  function TagOf(c: Cell): int {
    match c
    case Null => NULL_TYPE
    case Integer(_) => INT_TYPE
    case Text(_) => STRING_TYPE
    case Unsupported => NULL_TYPE
  }

  lemma FirstCellAt(rows: seq<Row>)
    requires OneColumn(rows) && CountsFit(rows) && rows != []
    ensures var b, cell := Buffer(rows), EncodeCell(rows[0][0]) + Tail(rows, 1);
            |b| == 8 + |cell| && b[8..] == cell
  {
    hide Le, ReadInt, EncodeCell;
    var b, row, rest := Buffer(rows), rows[0], Tail(rows, 1);
    BufferParts(rows);
    assert row == [row[0]] && row[1..] == [];
    assert b[4..] == Le(1) + EncodeCells(row) + rest;
    assert EncodeCells(row) == EncodeCell(row[0]) by { assert EncodeCell(row[0]) + [] == EncodeCell(row[0]); }
    assert b[8..] == b[4..][4..] == EncodeCell(row[0]) + rest;
  }

  /** The tag a lookup sees at offset 8, and what follows it. */
  lemma FirstTag(rows: seq<Row>)
    requires OneColumn(rows) && CountsFit(rows) && rows != []
    ensures var b, c := Buffer(rows), rows[0][0];
            && (|b| >= 12 <==> !c.Unsupported? || |rows| > 1)
            && (!c.Unsupported? ==>
                  b[8..] == EncodeCell(c) + Tail(rows, 1) && ReadInt(b[8..]) == TagOf(c))
            && (c.Unsupported? && |rows| > 1 ==>
                  b[8..] == RowBytes(rows[1], Known(rows[1])) + Tail(rows, 2) && ReadInt(b[8..]) == Known(rows[1]))
  {
    hide Le, ReadInt, EncodeCells;
    var b, row, rest := Buffer(rows), rows[0], Tail(rows, 1);
    FirstCellAt(rows);
    if !row[0].Unsupported? {
      TagAt(row[0], rest);
    } else if |rows| > 1 {
      var k := Known(rows[1]);
      assert [] + rest == rest;
      Associative(Le(k), EncodeCells(rows[1]), Tail(rows, 2));
      ReadLe(k, EncodeCells(rows[1]) + Tail(rows, 2));
      WrapTwice(k);
    } else {
      assert b[8..] == [];
    }
  }

  lemma TagAt(c: Cell, rest: Bytes)
    requires !c.Unsupported?
    ensures |EncodeCell(c) + rest| >= 4 && ReadInt(EncodeCell(c) + rest) == TagOf(c)
  {
    match c
    case Null => TaggedRoundTrip(NULL_TYPE, Le(0), rest);
    case Integer(v) => TaggedRoundTrip(INT_TYPE, Le(v), rest);
    case Text(s) => TaggedRoundTrip(STRING_TYPE, s + [NUL], rest);
  }

  /** What follows the type at offset 8. */
  lemma FirstValue(rows: seq<Row>)
    requires OneColumn(rows) && CountsFit(rows) && Readable(rows)
    ensures var b, c := Buffer(rows), rows[0][0];
            && |b| >= 12
            && (c.Integer? ==> |b| >= 16 && ReadInt(b[12..]) == Wrap(c.v))
            && (c.Text? ==> ReadText(b[12..]) == Some(c.s))
            && (c.Unsupported? && !rows[1][0].Unsupported? ==>
                  |b| >= 16 && ReadInt(b[12..]) == TagOf(rows[1][0]))
  {
    hide Le, ReadInt, ReadText, Buffer, Tail, RowBytes, CountsFit;
    var b, c := Buffer(rows), rows[0][0];
    FirstTag(rows);
    assert b[12..] == b[8..][4..];
    match c
    case Integer(v) =>
      Associative(Le(INT_TYPE), Le(v), Tail(rows, 1));
      ReadLe(INT_TYPE, Le(v) + Tail(rows, 1));
      ReadLe(v, Tail(rows, 1));
    case Text(s) =>
      Associative(Le(STRING_TYPE), s + [NUL], Tail(rows, 1));
      ReadLe(STRING_TYPE, (s + [NUL]) + Tail(rows, 1));
      ReadTextBack(s, Tail(rows, 1));
    case Null =>
    case Unsupported =>
      if !rows[1][0].Unsupported? {
        SecondTag(rows);
      }
  }

  lemma SecondTag(rows: seq<Row>)
    requires OneColumn(rows) && CountsFit(rows) && |rows| > 1
    requires rows[0][0].Unsupported? && !rows[1][0].Unsupported?
    ensures var b := Buffer(rows); |b| >= 16 && ReadInt(b[12..]) == TagOf(rows[1][0])
  {
    hide Le, ReadInt, Buffer, Tail, CountsFit;
    var b, row, rest := Buffer(rows), rows[1], Tail(rows, 2);
    FirstTag(rows);
    assert b[12..] == b[8..][4..];
    assert row == [row[0]] && row[1..] == [];
    assert EncodeCells(row) == EncodeCell(row[0]) by { assert EncodeCell(row[0]) + [] == EncodeCell(row[0]); }
    Associative(Le(Known(row)), EncodeCell(row[0]), rest);
    ReadLe(Known(row), EncodeCell(row[0]) + rest);
    TagAt(row[0], rest);
  }

  /** What get_sqldata_int returns for a table. */
  function IntLookup(rows: seq<Row>, maxId: Cell): int
    requires OneColumn(rows) && (LastId(maxId) >= 0 ==> Readable(rows))
  {
    if LastId(maxId) < 0 then -1
    else match rows[0][0]
      case Integer(v) => Wrap(v)
      case Unsupported => if rows[1][0].Unsupported? then -1 else TagOf(rows[1][0])
      case _ => -1
  }

  /** What get_sqldata_str returns, with None for a null pointer. */
  function TextLookup(rows: seq<Row>, maxId: Cell): Option<CText>
    requires OneColumn(rows) && (LastId(maxId) >= 0 ==> Readable(rows))
  {
    if LastId(maxId) >= 0 && rows[0][0].Text? then Some(rows[0][0].s) else None
  }

  method GetSqlDataInt(rows: seq<Row>, maxId: Cell, sqlCmd: array<Byte>) returns (v: int)
    requires sqlCmd.Length == SCRATCH_SIZE && RowsFit(rows)
    requires OneColumn(rows) && CountsFit(rows) && (LastId(maxId) >= 0 ==> Readable(rows))
    modifies sqlCmd
    ensures v == IntLookup(rows, maxId)
  {
    hide Le, ReadInt, Buffer, RowsFit;
    var res, data := GetSqlDatas(rows, maxId, sqlCmd);
    v := -1;
    if res >= 0 {
      FirstTag(rows);
      FirstValue(rows);
      var dataType := ReadInt(data[..][8..]);
      if dataType == INT_TYPE {
        v := ReadInt(data[..][12..]);
      }
    }
  }

  method GetSqlDataStr(rows: seq<Row>, maxId: Cell, sqlCmd: array<Byte>) returns (text: Option<CText>)
    requires sqlCmd.Length == SCRATCH_SIZE && RowsFit(rows)
    requires OneColumn(rows) && CountsFit(rows) && (LastId(maxId) >= 0 ==> Readable(rows))
    modifies sqlCmd
    ensures text == TextLookup(rows, maxId)
  {
    hide Le, ReadInt, ReadText, Buffer, RowsFit;
    var res, data := GetSqlDatas(rows, maxId, sqlCmd);
    text := None;
    if res >= 0 {
      FirstTag(rows);
      FirstValue(rows);
      var dataType := ReadInt(data[..][8..]);
      if dataType == STRING_TYPE {
        text := ReadText(data[..][12..]);
      }
    }
  }

  /** The bytes a lookup reads: the type at offset 8, and the int or the whole text at offset 12. */
  predicate LookupInside(b: Bytes) {
    && |b| >= 12
    && (ReadInt(b[8..]) == INT_TYPE ==> |b| >= 16)
    && (ReadInt(b[8..]) == STRING_TYPE ==> ReadText(b[12..]).Some?)
  }

  /**
   All bytes that the lookups read exist, down to the terminator of the text, if and only if there
   is a row and its cell is not REAL or BLOB with no row behind it; on one table, a non-negative
   result means that there is a row.
   */
  lemma LookupReadsExistIff(rows: seq<Row>, maxId: Cell)
    requires OneColumn(rows) && CountsFit(rows)
    ensures LookupInside(Buffer(rows)) <==> Readable(rows)
    ensures SameTable(rows, maxId) && LastId(maxId) >= 0 ==> rows != []
  {
    hide ReadInt, ReadText, Le;
    if rows != [] {
      FirstTag(rows);
      if Readable(rows) {
        FirstValue(rows);
        assert Known(rows[0]) <= 1 && (|rows| > 1 ==> Known(rows[1]) == if rows[1][0].Unsupported? then 0 else 1) by {
          OneKnown(rows);
        }
      }
    }
  }

  lemma OneKnown(rows: seq<Row>)
    requires OneColumn(rows)
    ensures forall i :: 0 <= i < |rows| ==> Known(rows[i]) == if rows[i][0].Unsupported? then 0 else 1
  {
    forall i | 0 <= i < |rows| ensures Known(rows[i]) == if rows[i][0].Unsupported? then 0 else 1 {
      assert rows[i] == [rows[i][0]] && rows[i][1..] == [];
    }
  }

  /**
   The lookups agree with decoding the whole buffer: if its first cell is known, they return that
   cell or the type-mismatch result.
   */
  lemma LookupsAgreeWithDecoding(rows: seq<Row>, maxId: Cell)
    requires OneColumn(rows) && CountsFit(rows) && SameTable(rows, maxId) && LastId(maxId) >= 0
    requires rows != [] ==> !rows[0][0].Unsupported?
    ensures var d := Decode(Buffer(rows));
            && d.Some? && d.value != [] && d.value[0] != []
            && IntLookup(rows, maxId) == (if d.value[0][0].Integer? then d.value[0][0].v else -1)
            && TextLookup(rows, maxId) == (if d.value[0][0].Text? then Some(d.value[0][0].s) else None)
  {
    hide Decode, Buffer, CountsFit;
    assert FirstRowKnown(rows) by { assert |rows[0]| == 1; }
    DecodesIff(rows);
    var row := rows[0];
    assert row == [row[0]] && row[1..] == [];
  }

  /** What get_sqldata_int makes of the bytes of a buffer. */
  function IntAtOffset(b: Bytes): int
    requires LookupInside(b)
  {
    if ReadInt(b[8..]) == INT_TYPE then ReadInt(b[12..]) else -1
  }

  /**
   In general the bytes at the fixed offsets say the first cell or the mismatch result if and only
   if that cell is not REAL or BLOB, or the second row's cell is: a REAL or BLOB cell takes no bytes,
   so the second row's header is taken for the type and its type for the value.
   */
  lemma IntLookupAgreesIff(rows: seq<Row>)
    requires OneColumn(rows) && CountsFit(rows) && Readable(rows)
    ensures LookupInside(Buffer(rows))
    ensures IntAtOffset(Buffer(rows)) == (if rows[0][0].Integer? then Wrap(rows[0][0].v) else -1)
       <==> !rows[0][0].Unsupported? || rows[1][0].Unsupported?
  {
    hide ReadInt, ReadText, Le, Buffer;
    LookupReadsExistIff(rows, Null);
    FirstTag(rows);
    FirstValue(rows);
    OneKnown(rows);
  }

  // ---------- where they fail ----------

  /** One row with one REAL column: its header counts a column that is not there. */
  lemma RealFirstDoesNotDecode()
    ensures var rows: seq<Row> := [[Unsupported]];
            Decode(Buffer(rows)) != Some(DeliveredRows(rows))
  {
    var rows: seq<Row> := [[Unsupported]];
    assert rows[0][0].Unsupported?;
    DecodesIff(rows);
  }

  /** A REAL cell and a text behind it are read as the number 2, which is the type of the text. */
  lemma RealThenTextReadsTwo(s: CText)
    ensures var rows: seq<Row> := [[Unsupported], [Text(s)]];
            LookupInside(Buffer(rows)) && IntAtOffset(Buffer(rows)) == 2
  {
    hide ReadInt, ReadText, Le, Buffer;
    var rows: seq<Row> := [[Unsupported], [Text(s)]];
    assert OneColumn(rows) && Readable(rows);
    LookupReadsExistIff(rows, Null);
    FirstTag(rows);
    FirstValue(rows);
    OneKnown(rows);
    assert rows[1][0] == Text(s);
  }

  // ---------- what the lookups return ----------

  /** Without an identifier, as on an empty table, the lookups return -1 and nothing. */
  lemma LookupsWithoutId(rows: seq<Row>, maxId: Cell)
    requires OneColumn(rows) && (maxId.Integer? ==> Wrap(maxId.v) < 0)
    ensures IntLookup(rows, maxId) == -1 && TextLookup(rows, maxId) == None
  {
  }

  /** With one they return what stands at the fixed offsets of the buffer, if the type there fits. */
  lemma LookupsReadBytes(rows: seq<Row>, maxId: Cell)
    requires OneColumn(rows) && CountsFit(rows) && Readable(rows) && maxId.Integer? && Wrap(maxId.v) >= 0
    ensures var b := Buffer(rows);
            && LookupInside(b)
            && IntLookup(rows, maxId) == (if ReadInt(b[8..]) == INT_TYPE then ReadInt(b[12..]) else -1)
            && TextLookup(rows, maxId) == (if ReadInt(b[8..]) == STRING_TYPE then ReadText(b[12..]) else None)
  {
    hide ReadInt, ReadText, Le, Buffer;
    LookupReadsExistIff(rows, maxId);
    FirstTag(rows);
    FirstValue(rows);
    OneKnown(rows);
  }
}
