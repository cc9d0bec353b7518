/**
 The functions of sqllib that walk a tagged field buffer with a cursor and print an SQL command:
 add_sqldata, update_sqldata, update_sqldata_by_condition and delete_sqldata_by_condition.
 The four loops differ in how they read a type, whether they step over a text value and what
 they do about an unknown type; a Reader says which.
 */
module SqlText {
  import opened Seqs
  import opened Bytes
  import opened SqlRows

  const SQL_SIZE: nat := 8192
  const RETRIES: nat := 777

  /** Nothing stands for the value of a field whose type is unknown, of which nothing is printed. */
  datatype Value = Num(v: int) | Str(s: string) | Nothing

  datatype Field = Field(name: string, value: Value)

  // ---------- reading ----------

  /**
   narrow: count and types are read from one char, signed or not as the platform has it.
   skipsText: the cursor moves past a text value.  stops: an unknown type ends the walk.
   */
  datatype Reader = Reader(narrow: bool, signed: bool, skipsText: bool, stops: bool)

  const ADD := Reader(false, false, true, true)
  const WHERE := Reader(false, false, false, true)

  function UPDATE(signed: bool): Reader { Reader(true, signed, true, true) }

  function SET(signed: bool): Reader { Reader(true, signed, true, false) }

  function CharValue(c: Byte, signed: bool): int {
    if signed && c as int >= 128 then c as int - 256 else c as int
  }

  /** Out is a walk that leaves the buffer, which the source does not check. */
  datatype Step = Out | Stop(name: CText) | Next(field: Field, rest: Bytes)

  function ReadNumber(rd: Reader, b: Bytes): Option<int> {
    if rd.narrow then (if b == [] then None else Some(CharValue(b[0], rd.signed)))
    else if |b| < 4 then None
    else Some(ReadInt(b))
  }

  function ReadValue(rd: Reader, name: CText, tag: int, b: Bytes): Step {
    if tag == INT_TYPE then
      (if |b| < 4 then Out else Next(Field(name, Num(ReadInt(b))), b[4..]))
    else if tag == STRING_TYPE then
      (if ReadText(b).None? then Out
       else Next(Field(name, Str(ReadText(b).value)), if rd.skipsText then b[|ReadText(b).value| + 1..] else b))
    else Next(Field(name, Nothing), b)
  }

  function ReadField(rd: Reader, b: Bytes): Step {
    if ReadText(b).None? then Out
    else
      var name := ReadText(b).value;
      var b1 := b[|name| + 1..];
      var tag := ReadNumber(rd, b1);
      if tag.None? then Out
      else if rd.stops && tag.value != INT_TYPE && tag.value != STRING_TYPE then Stop(name)
      else if |b1| < 4 then Out
      else ReadValue(rd, name, tag.value, b1[4..])
  }

  datatype Scan = Outside | Stopped(fields: seq<Field>, name: CText) | Done(fields: seq<Field>, rest: Bytes)

  function Prepend(fs: seq<Field>, r: Scan): Scan {
    match r
    case Outside => Outside
    case Stopped(gs, name) => Stopped(fs + gs, name)
    case Done(gs, rest) => Done(fs + gs, rest)
  }

  function ScanFields(rd: Reader, b: Bytes, n: int): Scan
    decreases n
  {
    if n <= 0 then Done([], b)
    else match ReadField(rd, b)
      case Out => Outside
      case Stop(name) => Stopped([], name)
      case Next(f, rest) => Prepend([f], ScanFields(rd, rest, n - 1))
  }

  /** The field count at the start of a buffer, if the buffer has one. */
  function CountOf(rd: Reader, buf: Bytes): int
    requires |buf| >= 4
  {
    if rd.narrow then CharValue(buf[0], rd.signed) else ReadInt(buf)
  }

  function ScanBuffer(rd: Reader, buf: Bytes): Scan {
    if |buf| < 4 then Outside else ScanFields(rd, buf[4..], CountOf(rd, buf))
  }

  // ---------- printing ----------

  function Digit(d: int): char
    requires 0 <= d < 10
  {
    '0' + d as char
  }

  function Decimal(n: nat): string {
    if n < 10 then [Digit(n)] else Decimal(n / 10) + [Digit(n % 10)]
  }

  /** %d */
  function PrintInt(v: int): string { if v < 0 then "-" + Decimal(-v) else Decimal(v) }

  function PrintValue(v: Value): string {
    match v
    case Num(n) => PrintInt(n)
    case Str(s) => "'" + s + "'"
    case Nothing => ""
  }

  function NameText(f: Field): string { f.name }

  function ValueText(f: Field): string { PrintValue(f.value) }

  /** An assignment or a condition; a condition has a space in front. */
  function ItemText(lead: string): Field -> string {
    (f: Field) => lead + f.name + "=" + PrintValue(f.value)
  }

  /** What a loop over `n` fields has printed after some of them: the last of the n gets `close`. */
  function Listed(parts: seq<string>, n: int, sep: string, close: string): string {
    if parts == [] then ""
    else
      var k := |parts| - 1;
      Listed(parts[..k], n, sep, close) + (parts[k] + if k != n - 1 then sep else close)
  }

  function InsertHead(table: string, names: seq<string>, n: int): string {
    "INSERT INTO " + table + " (" + Listed(names, n, " ,", ")")
  }

  function InsertTail(values: seq<string>, n: int): string { "VALUES (" + Listed(values, n, " ,", ");") }

  function InsertSql(table: string, fs: seq<Field>, n: int): string {
    InsertHead(table, Map(NameText, fs), n) + " " + InsertTail(Map(ValueText, fs), n)
  }

  function Items(lead: string, sep: string, fs: seq<Field>, n: int): string {
    Listed(Map(ItemText(lead), fs), n, sep, "")
  }

  function UpdateHead(table: string): string { "UPDATE " + table + " set " }

  function UpdateSql(table: string, fs: seq<Field>, n: int): string {
    UpdateHead(table) + Items("", " ,", fs, n)
  }

  function DeleteHead(table: string): string { "delete from " + table + " where " }

  function WhereBody(cs: seq<Field>, n: int): string { Items(" ", " and ", cs, n) }

  // ---------- where the text goes ----------

  /** sprintf(buf, "%s...", buf, ...) into a buffer of 8192 bytes, read as appending. */
  method Append(text: string, s: string) returns (r: string)
    requires |text| + |s| < SQL_SIZE
    ensures r == text + s
  {
    r := text + s;
  }

  /** The database: the commands that took effect. */
  class Database {
    var log: seq<string>

    /** exec_sql_cmd: at most 777 attempts, of which attempt i succeeds if `attempts(i)`. */
    method ExecSqlCmd(sql: string, attempts: nat -> bool) returns (rc: int)
      modifies this
      ensures rc == 0 <==> exists i: nat :: i < RETRIES && attempts(i)
      ensures rc == 0 || rc == -1
      ensures log == if rc == 0 then old(log) + [sql] else old(log)
    {
      var retryCount := RETRIES;
      var i := 0;
      while true
        invariant 0 < retryCount && i + retryCount == RETRIES
        invariant log == old(log) && forall j: nat :: j < i ==> !attempts(j)
        decreases retryCount
      {
        if attempts(i) {
          log := log + [sql];
          return 0;
        }
        retryCount := retryCount - 1;
        i := i + 1;
        if retryCount == 0 {
          return -1;
        }
      }
    }
  }
}
