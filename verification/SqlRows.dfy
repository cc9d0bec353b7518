/**
 The byte buffer in which sqllib returns a query result (get_sqldatas), and the lookups that read
 its first cell at fixed offsets.
 */
module SqlRows {
  import opened Seqs
  import opened Bytes

  const NULL_TYPE := 0
  const INT_TYPE := 1
  const STRING_TYPE := 2
  const SCRATCH_SIZE: nat := 512

  /** A column value as SQLite reports it; Unsupported stands for REAL and BLOB. */
  datatype Cell = Null | Integer(v: int) | Text(s: CText) | Unsupported

  type Row = seq<Cell>

  // ---------- what get_sqldatas writes ----------

  function EncodeCell(c: Cell): Bytes {
    match c
    case Null => Le(NULL_TYPE) + Le(0)
    case Integer(v) => Le(INT_TYPE) + Le(v)
    case Text(s) => Le(STRING_TYPE) + (s + [NUL])
    case Unsupported => []
  }

  function EncodeCells(row: Row): Bytes {
    if row == [] then [] else EncodeCell(row[0]) + EncodeCells(row[1..])
  }

  function RowBytes(row: Row, header: nat): Bytes { Le(header) + EncodeCells(row) }

  /** The columns the conversion knows, which is what column_count counts. */
  function Known(row: Row): (n: nat)
    ensures n <= |row|
  {
    if row == [] then 0 else (if row[0].Unsupported? then 0 else 1) + Known(row[1..])
  }

  /** Only rows after the first get their header patched with the number of known columns. */
  function HeaderOf(rows: seq<Row>, i: nat): nat
    requires i < |rows|
  {
    if i == 0 then |rows[i]| else Known(rows[i])
  }

  function Body(rows: seq<Row>, n: nat): Bytes
    requires n <= |rows|
  {
    if n == 0 then [] else Body(rows, n - 1) + RowBytes(rows[n - 1], HeaderOf(rows, n - 1))
  }

  function Buffer(rows: seq<Row>): Bytes { Le(|rows|) + Body(rows, |rows|) }

  /** get_sql_id for LAST_ID: the one cell of "select MAX(id)" on the DB_PATH table. */
  function LastId(maxId: Cell): int {
    if maxId.Integer? then Wrap(maxId.v) else -1
  }

  /** The identifier itself, its low 32 bits if it is wider, and -1 without one. */
  lemma LastIdIs(maxId: Cell)
    ensures maxId.Integer? && IsInt32(maxId.v) ==> LastId(maxId) == maxId.v
    ensures maxId.Integer? ==> IsInt32(LastId(maxId)) && (LastId(maxId) - maxId.v) % INT_MOD == 0
    ensures !maxId.Integer? ==> LastId(maxId) == -1
  {
    if maxId.Integer? {
      WrapTwice(maxId.v);
      WrapIs(maxId.v);
    }
  }

  /** A NULL is eight zero bytes; its value is not left to what the scratch buffer held. */
  lemma NullCellBytes()
    ensures EncodeCell(Null) == [NUL, NUL, NUL, NUL, NUL, NUL, NUL, NUL]
  {
  }

  /** Every row fits the scratch buffer, of which the first row leaves four bytes free. */
  predicate RowsFit(rows: seq<Row>) {
    forall i :: 0 <= i < |rows| ==>
      (if i == 0 then 4 else 0) + |RowBytes(rows[i], 0)| <= SCRATCH_SIZE
  }

  // ---------- the conversion ----------

  method Memcpy(dst: array<Byte>, off: nat, src: Bytes)
    requires off + |src| <= dst.Length
    modifies dst
    ensures dst[..] == old(dst[..])[..off] + src + old(dst[..])[off + |src|..]
  {
    for i := 0 to |src|
      invariant forall j :: 0 <= j < i ==> dst[off + j] == src[j]
      invariant forall j :: 0 <= j < off || off + i <= j < dst.Length ==> dst[j] == old(dst[j])
    {
      dst[off + i] := src[i];
    }
  }

  /** The bytes beyond the old size are whatever the allocator left there. */
  method Realloc(a: array<Byte>, size: nat) returns (r: array<Byte>)
    requires a.Length <= size
    ensures fresh(r) && r.Length == size && r[..a.Length] == a[..]
  {
    r := new Byte[size];
    for i := 0 to a.Length
      invariant forall j :: 0 <= j < i ==> r[j] == a[j]
    {
      r[i] := a[i];
    }
  }

  lemma {:induction false} EncodeCellsAppend(a: Row, b: Row)
    ensures EncodeCells(a + b) == EncodeCells(a) + EncodeCells(b)
    ensures Known(a + b) == Known(a) + Known(b)
  {
    if a == [] {
      assert a + b == b;
    } else {
      assert (a + b)[1..] == a[1..] + b;
      EncodeCellsAppend(a[1..], b);
    }
  }

  lemma EncodeCellsStep(row: Row, i: nat)
    requires i < |row|
    ensures EncodeCells(row[..i + 1]) == EncodeCells(row[..i]) + EncodeCell(row[i])
    ensures Known(row[..i + 1]) == Known(row[..i]) + if row[i].Unsupported? then 0 else 1
    ensures |EncodeCells(row[..i + 1])| <= |EncodeCells(row)|
  {
    var a, c, b := row[..i], [row[i]], row[i + 1..];
    assert row[..i + 1] == a + c && row == (a + c) + b && c[1..] == [];
    EncodeCellsAppend(a, c);
    EncodeCellsAppend(a + c, b);
  }

  lemma Associative(a: Bytes, b: Bytes, c: Bytes)
    ensures a + (b + c) == (a + b) + c
  {
  }

  lemma RowBytesStep(row: Row, i: nat, header: nat)
    requires i < |row|
    ensures RowBytes(row[..i + 1], header) == RowBytes(row[..i], header) + EncodeCell(row[i])
    ensures |RowBytes(row[..i + 1], header)| <= |RowBytes(row, header)|
    ensures Known(row[..i + 1]) == Known(row[..i]) + if row[i].Unsupported? then 0 else 1
  {
    EncodeCellsStep(row, i);
    Associative(Le(header), EncodeCells(row[..i]), EncodeCell(row[i]));
  }

  /** Append to the part `used` of the scratch buffer, which begins at `start`. */
  method Put(sqlCmd: array<Byte>, start: nat, ptrOff: nat, ghost used: Bytes, src: Bytes) returns (next: nat)
    requires start <= ptrOff && ptrOff + |src| <= sqlCmd.Length && sqlCmd[start..ptrOff] == used
    modifies sqlCmd
    ensures next == ptrOff + |src| && sqlCmd[start..next] == used + src
  {
    Memcpy(sqlCmd, ptrOff, src);
    next := ptrOff + |src|;
    assert sqlCmd[start..next] == sqlCmd[..][start..next];
  }

  /** One column: its type and its value. */
  method PutCell(sqlCmd: array<Byte>, start: nat, ptrOff: nat, ghost used: Bytes, c: Cell) returns (next: nat)
    requires start <= ptrOff && ptrOff + |EncodeCell(c)| <= sqlCmd.Length && sqlCmd[start..ptrOff] == used
    modifies sqlCmd
    ensures next == ptrOff + |EncodeCell(c)| && sqlCmd[start..next] == used + EncodeCell(c)
  {
    match c {
      case Null =>
        next := PutTagged(sqlCmd, start, ptrOff, used, NULL_TYPE, Le(0));
      case Text(s) =>
        next := PutTagged(sqlCmd, start, ptrOff, used, STRING_TYPE, s + [NUL]);
      case Integer(v) =>
        next := PutTagged(sqlCmd, start, ptrOff, used, INT_TYPE, Le(v));
      case Unsupported =>
        next := ptrOff;
    }
  }

  method PutTagged(sqlCmd: array<Byte>, start: nat, ptrOff: nat, ghost used: Bytes, tag: int, value: Bytes)
      returns (next: nat)
    requires start <= ptrOff && ptrOff + 4 + |value| <= sqlCmd.Length && sqlCmd[start..ptrOff] == used
    modifies sqlCmd
    ensures next == ptrOff + 4 + |value| && sqlCmd[start..next] == used + (Le(tag) + value)
  {
    next := Put(sqlCmd, start, ptrOff, used, Le(tag));
    next := Put(sqlCmd, start, next, used + Le(tag), value);
    assert used + Le(tag) + value == used + (Le(tag) + value);
  }

  /** One row: its header and its columns. */
  method FillRow(sqlCmd: array<Byte>, start: nat, row: Row, size: nat)
      returns (ptrOff: nat, currentSize: nat, columnCount: nat)
    requires start + |RowBytes(row, 0)| <= sqlCmd.Length
    modifies sqlCmd
    ensures ptrOff == start + |RowBytes(row, 0)| && currentSize == size + (ptrOff - start)
    ensures sqlCmd[start..ptrOff] == RowBytes(row, |row|)
    ensures columnCount == Known(row)
  {
    columnCount := 0;
    ghost var used := Le(|row|);
    ptrOff := Put(sqlCmd, start, start, [], Le(|row|));
    for i := 0 to |row|
      invariant used == RowBytes(row[..i], |row|) && columnCount == Known(row[..i])
      invariant |used| <= |RowBytes(row, 0)| && ptrOff == start + |used|
      invariant sqlCmd[start..ptrOff] == used
    {
      RowBytesStep(row, i, |row|);
      ptrOff := PutCell(sqlCmd, start, ptrOff, used, row[i]);
      used := used + EncodeCell(row[i]);
      if !row[i].Unsupported? {
        columnCount := columnCount + 1;
      }
    }
    assert row[..|row|] == row;
    currentSize := size + (ptrOff - start);
  }

  /** The output after `n` rows: its first four bytes are the first row's column count until the end. */
  function Partial(rows: seq<Row>, n: nat): Bytes
    requires n <= |rows|
  {
    Le(if n == 0 then 0 else Known(rows[0])) + Body(rows, n)
  }

  /** The scratch bytes of row `n` once the column count has been copied over their first four. */
  lemma PatchedRow(rows: seq<Row>, n: nat, filled: Bytes, patched: Bytes)
    requires n < |rows|
    requires var start := if n == 0 then 4 else 0;
             |filled| >= start + |RowBytes(rows[n], 0)|
             && filled[start..start + |RowBytes(rows[n], 0)|] == RowBytes(rows[n], |rows[n]|)
    requires patched == Le(Known(rows[n])) + filled[4..]
    ensures var off := (if n == 0 then 4 else 0) + |RowBytes(rows[n], 0)|;
            patched[..off] == if n == 0 then Partial(rows, 1) else RowBytes(rows[n], Known(rows[n]))
  {
    var len := |RowBytes(rows[n], 0)|;
    if n == 0 {
      assert patched[..4 + len] == Le(Known(rows[0])) + filled[4..4 + len];
      assert Body(rows, 1) == RowBytes(rows[0], |rows[0]|);
    } else {
      assert filled[4..len] == filled[0..len][4..];
      assert RowBytes(rows[n], |rows[n]|)[4..] == EncodeCells(rows[n]);
      assert patched[..len] == Le(Known(rows[n])) + filled[4..len];
    }
  }

  lemma PartialStart(rows: seq<Row>)
    ensures Partial(rows, 0) == Le(0)
  {
  }

  lemma PartialStep(rows: seq<Row>, n: nat)
    requires 0 < n < |rows|
    ensures Partial(rows, n + 1) == Partial(rows, n) + RowBytes(rows[n], Known(rows[n]))
  {
    Associative(Le(Known(rows[0])), Body(rows, n), RowBytes(rows[n], Known(rows[n])));
  }

  /** Reallocate and copy a finished row to the end of the output. */
  method Grow(data: array<Byte>, size: nat, chunk: Bytes) returns (grown: array<Byte>)
    requires data.Length <= size && |chunk| <= size && size - |chunk| <= data.Length
    ensures fresh(grown) && grown[..] == data[..size - |chunk|] + chunk
  {
    grown := Realloc(data, size);
    ghost var before := grown[..];
    assert before[..data.Length] == data[..];
    Memcpy(grown, size - |chunk|, chunk);
    assert before[..size - |chunk|] == data[..][..size - |chunk|];
  }

  /** Build row `n` in the scratch buffer and patch its first four bytes. */
  method BuildRow(rows: seq<Row>, n: nat, sqlCmd: array<Byte>, start: nat, size: nat)
      returns (ptrOff: nat, currentSize: nat)
    requires n < |rows| && start == (if n == 0 then 4 else 0)
    requires start + |RowBytes(rows[n], 0)| <= sqlCmd.Length
    modifies sqlCmd
    ensures ptrOff == start + |RowBytes(rows[n], 0)| <= sqlCmd.Length
    ensures currentSize == size + |RowBytes(rows[n], 0)|
    ensures sqlCmd[..ptrOff] == if n == 0 then Partial(rows, 1) else RowBytes(rows[n], Known(rows[n]))
  {
    var columnCount;
    ptrOff, currentSize, columnCount := FillRow(sqlCmd, start, rows[n], size);
    ghost var filled := sqlCmd[..];
    assert filled[start..ptrOff] == sqlCmd[start..ptrOff];
    Memcpy(sqlCmd, 0, Le(columnCount));
    assert filled[..0] + Le(columnCount) + filled[4..] == Le(columnCount) + filled[4..];
    PatchedRow(rows, n, filled, sqlCmd[..]);
    assert sqlCmd[..ptrOff] == sqlCmd[..][..ptrOff];
  }

  /** Where the copy of a finished row goes: the first replaces the whole output, the others extend it. */
  lemma RowGrown(rows: seq<Row>, n: nat, partial: Bytes, chunk: Bytes)
    requires n < |rows| && partial == Partial(rows, n)
    requires chunk == if n == 0 then Partial(rows, 1) else RowBytes(rows[n], Known(rows[n]))
    ensures var keep := |partial| + |RowBytes(rows[n], 0)| - |chunk|;
            0 <= keep <= |partial| && partial[..keep] + chunk == Partial(rows, n + 1)
  {
    hide Le, EncodeCells;
    if n > 0 {
      PartialStep(rows, n);
      assert partial[..|partial|] == partial;
    } else {
      assert partial[..0] + chunk == chunk;
    }
  }

  /** The body of the loop over the rows. */
  method AddRow(rows: seq<Row>, n: nat, sqlCmd: array<Byte>, start: nat, soFar: array<Byte>)
      returns (data: array<Byte>)
    requires n < |rows| && start + |RowBytes(rows[n], 0)| <= sqlCmd.Length
    requires start == if n == 0 then 4 else 0
    requires soFar != sqlCmd && soFar[..] == Partial(rows, n)
    modifies sqlCmd
    ensures fresh(data) && data[..] == Partial(rows, n + 1)
  {
    ghost var partial := soFar[..];
    var ptrOff, currentSize := BuildRow(rows, n, sqlCmd, start, soFar.Length);
    RowGrown(rows, n, partial, sqlCmd[..ptrOff]);
    data := Grow(soFar, currentSize, sqlCmd[..ptrOff]);
    assert soFar[..currentSize - ptrOff] == partial[..currentSize - ptrOff];
  }

  lemma FitsAt(rows: seq<Row>, n: nat)
    requires RowsFit(rows) && n < |rows|
    ensures (if n == 0 then 4 else 0) + |RowBytes(rows[n], 0)| <= SCRATCH_SIZE
  {
  }

  /** The last step: the number of rows over the first four bytes. */
  method PatchTotal(data: array<Byte>, rows: seq<Row>)
    requires data[..] == Partial(rows, |rows|)
    modifies data
    ensures data[..] == Buffer(rows)
  {
    ghost var b := Body(rows, |rows|);
    assert data[..][4..] == b;
    Memcpy(data, 0, Le(|rows|));
    assert [] + Le(|rows|) + b == Le(|rows|) + b;
  }

  /** malloc and memset of the four bytes the output starts with. */
  method NewHeader() returns (data: array<Byte>)
    ensures fresh(data) && data[..] == Le(0)
  {
    data := new Byte[4](_ => NUL);
  }

  /**
   Convert a query result.  The scratch buffer still holds the text of the query at first; the
   first row is built four bytes into it, so that its copy brings its own header along.
   */
  method GetSqlDatas(rows: seq<Row>, maxId: Cell, sqlCmd: array<Byte>) returns (res: int, data: array<Byte>)
    requires sqlCmd.Length == SCRATCH_SIZE && RowsFit(rows)
    modifies sqlCmd
    ensures fresh(data) && data[..] == Buffer(rows)
    ensures res == LastId(maxId)
    ensures maxId.Integer? && IsInt32(maxId.v) ==> res == maxId.v
    ensures maxId.Integer? ==> IsInt32(res) && (res - maxId.v) % INT_MOD == 0
    ensures !maxId.Integer? ==> res == -1
  {
    hide Le, Body, RowBytes;
    data := NewHeader();
    var ptrOff, elementCount := 4, 0;
    PartialStart(rows);
    while elementCount < |rows|
      invariant 0 <= elementCount <= |rows|
      invariant fresh(data) && data != sqlCmd && data[..] == Partial(rows, elementCount)
      invariant ptrOff == if elementCount == 0 then 4 else 0
    {
      FitsAt(rows, elementCount);
      data := AddRow(rows, elementCount, sqlCmd, ptrOff, data);
      ptrOff := 0;
      ClearScratch(sqlCmd);
      elementCount := elementCount + 1;
    }
    PatchTotal(data, rows);
    res := if maxId.Integer? then Wrap(maxId.v) else -1;
    LastIdIs(maxId);
  }

  method ClearScratch(sqlCmd: array<Byte>)
    modifies sqlCmd
    ensures forall i :: 0 <= i < sqlCmd.Length ==> sqlCmd[i] == NUL
  {
    for i := 0 to sqlCmd.Length
      invariant forall j :: 0 <= j < i ==> sqlCmd[j] == NUL
    {
      sqlCmd[i] := NUL;
    }
  }
}
