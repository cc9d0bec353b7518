/** The writing functions of sqllib, each with the loop and the cursor it has in the source. */
module SqlWriters {
  import opened Seqs
  import opened Bytes
  import opened SqlRows
  import opened SqlText

  // ---------- one step of a walk ----------

  lemma ScanStep(rd: Reader, fs: seq<Field>, b: Bytes, m: nat)
    requires m > 0
    ensures Prepend(fs, ScanFields(rd, b, m)) ==
            match ReadField(rd, b)
            case Out => Outside
            case Stop(name) => Stopped(fs, name)
            case Next(f, rest) => Prepend(fs + [f], ScanFields(rd, rest, m - 1))
  {
    match ReadField(rd, b)
    case Out =>
    case Stop(name) => assert fs + [] == fs;
    case Next(f, rest) =>
      var r := ScanFields(rd, rest, m - 1);
      if !r.Outside? {
        assert fs + ([f] + r.fields) == (fs + [f]) + r.fields;
      }
  }

  lemma ScanStart(rd: Reader, b: Bytes, n: int)
    ensures Prepend([], ScanFields(rd, b, n)) == ScanFields(rd, b, n)
  {
    var r := ScanFields(rd, b, n);
    if !r.Outside? {
      assert [] + r.fields == r.fields;
    }
  }

  lemma ScanEnd(rd: Reader, fs: seq<Field>, b: Bytes, n: int)
    requires n <= 0
    ensures Prepend(fs, ScanFields(rd, b, n)) == Done(fs, b)
  {
    assert fs + [] == fs;
  }

  lemma ListedStep(parts: seq<string>, part: string, n: int, sep: string, close: string)
    ensures Listed(parts + [part], n, sep, close)
         == Listed(parts, n, sep, close) + (part + if |parts| != n - 1 then sep else close)
  {
    assert (parts + [part])[..|parts|] == parts;
  }

  lemma {:induction false} ListedGrows(a: seq<string>, b: seq<string>, n: int, sep: string, close: string)
    requires a <= b
    ensures |Listed(a, n, sep, close)| <= |Listed(b, n, sep, close)|
    decreases |b|
  {
    if a != b {
      ListedGrows(a, b[..|b| - 1], n, sep, close);
    }
  }

  // ---------- add_sqldata ----------

  /** The column names printed by a walk, the one before an unknown type included. */
  function NamesOf(r: Scan): seq<string>
    requires !r.Outside?
  {
    Map(NameText, r.fields) + if r.Stopped? then [r.name] else []
  }

  /** The buffer is complete up to where the walk ends, and the texts fit their buffers. */
  predicate AddFits(table: string, buf: Bytes) {
    var r := ScanBuffer(ADD, buf);
    && !r.Outside?
    && |InsertHead(table, NamesOf(r), ReadInt(buf))| < SQL_SIZE
    && |InsertTail(Map(ValueText, r.fields), ReadInt(buf))| < SQL_SIZE
    && (r.Done? ==> |InsertSql(table, r.fields, ReadInt(buf))| < SQL_SIZE)
  }

  /** A field that a walk still has to read is among the fields of the whole walk. */
  lemma StillToPrint(rd: Reader, fs: seq<Field>, b: Bytes, m: nat)
    requires m > 0 && !ScanFields(rd, b, m).Outside?
    ensures var r := Prepend(fs, ScanFields(rd, b, m));
            match ReadField(rd, b)
            case Out => false
            case Stop(name) => r == Stopped(fs, name)
            case Next(f, _) => fs + [f] <= r.fields
  {
    ScanStep(rd, fs, b, m);
  }

  lemma NamesGrow(r: Scan, fs: seq<Field>, f: Field)
    requires !r.Outside? && fs + [f] <= r.fields
    ensures Map(NameText, fs) + [f.name] <= NamesOf(r)
    ensures Map(ValueText, fs) + [ValueText(f)] <= Map(ValueText, r.fields)
  {
    var rest := r.fields[|fs| + 1..];
    assert r.fields == (fs + [f]) + rest;
    MapAppend(NameText, fs + [f], rest);
    MapSnoc(NameText, fs, f);
    MapAppend(ValueText, fs + [f], rest);
    MapSnoc(ValueText, fs, f);
  }

  /** The room left in both buffers before a field is printed. */
  lemma AddRoom(table: string, buf: Bytes, fs: seq<Field>, b: Bytes, m: nat)
    requires AddFits(table, buf) && m > 0
    requires Prepend(fs, ScanFields(ADD, b, m)) == ScanBuffer(ADD, buf)
    ensures !ReadField(ADD, b).Out?
    ensures |InsertHead(table, Map(NameText, fs) + [NameRead(ADD, b)], ReadInt(buf))| < SQL_SIZE
    ensures ReadField(ADD, b).Next? ==>
              |InsertTail(Map(ValueText, fs) + [ValueText(ReadField(ADD, b).field)], ReadInt(buf))| < SQL_SIZE
  {
    hide ReadInt, ScanFields, ReadField;
    var r, n := ScanBuffer(ADD, buf), ReadInt(buf);
    StillToPrint(ADD, fs, b, m);
    match ReadField(ADD, b)
    case Out =>
    case Stop(name) =>
      NameReadIs(ADD, b);
    case Next(f, rest) =>
      NameReadIs(ADD, b);
      NamesGrow(r, fs, f);
      ListedGrows(Map(NameText, fs) + [f.name], NamesOf(r), n, " ,", ")");
      ListedGrows(Map(ValueText, fs) + [ValueText(f)], Map(ValueText, r.fields), n, " ,", ");");
  }

  function NameRead(rd: Reader, b: Bytes): string {
    if ReadText(b).Some? then ReadText(b).value else ""
  }

  lemma NameReadIs(rd: Reader, b: Bytes)
    ensures match ReadField(rd, b)
            case Out => true
            case Stop(name) => NameRead(rd, b) == name
            case Next(f, _) => NameRead(rd, b) == f.name
  {
  }

  /** How reading a field moves through the bytes from the cursor on. */
  lemma FieldParts(rd: Reader, b: Bytes)
    requires !ReadField(rd, b).Out?
    ensures ReadText(b).Some? && |ReadText(b).value| < |b|
    ensures var name := ReadText(b).value;
            var b1 := b[|name| + 1..];
            && ReadNumber(rd, b1).Some?
            && var tag := ReadNumber(rd, b1).value;
            if rd.stops && tag != INT_TYPE && tag != STRING_TYPE then ReadField(rd, b) == Stop(name)
            else
              && |b1| >= 4 && ReadField(rd, b) == ReadValue(rd, name, tag, b1[4..])
              && ReadField(rd, b).Next? && ReadField(rd, b).field.name == name
  {
  }

  lemma Advance(buf: Bytes, off: nat, k: nat)
    requires off + k <= |buf|
    ensures buf[off..][k..] == buf[off + k..]
  {
  }

  /** Read the value at the cursor, print it and move the cursor as this reader does. */
  method TakeValue(rd: Reader, text: string, buf: Bytes, off: nat, tag: int, ghost name: CText)
      returns (printed: string, next: nat)
    requires off <= |buf| && ReadValue(rd, name, tag, buf[off..]).Next?
    requires |text| + |ValueText(ReadValue(rd, name, tag, buf[off..]).field)| < SQL_SIZE
    ensures printed == text + ValueText(ReadValue(rd, name, tag, buf[off..]).field)
    ensures next <= |buf| && buf[next..] == ReadValue(rd, name, tag, buf[off..]).rest
  {
    hide ReadInt, ReadText, PrintInt;
    printed, next := text, off;
    if tag == INT_TYPE {
      var data := ReadInt(buf[off..]);
      printed := Append(text, PrintInt(data));
      Advance(buf, off, 4);
      next := off + 4;
    } else if tag == STRING_TYPE {
      var data := ReadText(buf[off..]).value;
      printed := Append(text, "'" + data + "'");
      if rd.skipsText {
        Advance(buf, off, |data| + 1);
        next := off + |data| + 1;
      }
    }
  }

  lemma HeadStep(table: string, names: seq<string>, name: string, n: int)
    ensures InsertHead(table, names + [name], n)
         == InsertHead(table, names, n) + name + if |names| != n - 1 then " ," else ")"
  {
    ListedStep(names, name, n, " ,", ")");
  }

  lemma TailStep(values: seq<string>, value: string, n: int)
    ensures InsertTail(values + [value], n)
         == InsertTail(values, n) + value + if |values| != n - 1 then " ," else ");"
  {
    ListedStep(values, value, n, " ,", ");");
  }

  /** Where the walk of add_sqldata stands before field `i`. */
  ghost predicate AddState(table: string, buf: Bytes, i: nat, off: nat, fs: seq<Field>, cmd1: string, cmd2: string) {
    && AddFits(table, buf) && off <= |buf| && |fs| == i
    && (i == 0 || i <= ReadInt(buf))
    && Prepend(fs, ScanFields(ADD, buf[off..], ReadInt(buf) - i)) == ScanBuffer(ADD, buf)
    && cmd1 == InsertHead(table, Map(NameText, fs), ReadInt(buf))
    && cmd2 == InsertTail(Map(ValueText, fs), ReadInt(buf))
  }

  /** The body of the loop of add_sqldata. */
  method AddField(table: string, buf: Bytes, i: nat, off: nat, ghost fs: seq<Field>, cmd1: string, cmd2: string)
      returns (known: bool, next: nat, sqlCmd1: string, sqlCmd2: string)
    requires AddState(table, buf, i, off, fs, cmd1, cmd2) && i < ReadInt(buf)
    ensures !known ==> ScanBuffer(ADD, buf).Stopped?
    ensures known ==>
              && ReadField(ADD, buf[off..]).Next?
              && AddState(table, buf, i + 1, next, fs + [ReadField(ADD, buf[off..]).field], sqlCmd1, sqlCmd2)
  {
    hide ReadInt, ReadText, ScanFields, ReadField, ReadValue, ValueText, InsertHead, InsertTail;
    ghost var b := buf[off..];
    var n := ReadInt(buf);
    AddRoom(table, buf, fs, b, n - i);
    ScanStep(ADD, fs, b, n - i);
    FieldParts(ADD, b);
    sqlCmd1, sqlCmd2, next := cmd1, cmd2, off;

    var name := ReadText(buf[next..]).value;
    HeadStep(table, Map(NameText, fs), name, n);
    sqlCmd1 := Append(sqlCmd1, name);
    Advance(buf, next, |name| + 1);
    next := next + |name| + 1;
    sqlCmd1 := Append(sqlCmd1, if i != n - 1 then " ," else ")");

    var columnType := ReadInt(buf[next..]);
    if columnType != INT_TYPE && columnType != STRING_TYPE {
      known := false;
      return;
    }
    Advance(buf, next, 4);
    next := next + 4;
    ghost var f := ReadField(ADD, b).field;
    NameReadIs(ADD, b);
    TailStep(Map(ValueText, fs), ValueText(f), n);
    MapSnoc(NameText, fs, f);
    MapSnoc(ValueText, fs, f);
    sqlCmd2, next := TakeValue(ADD, sqlCmd2, buf, next, columnType, name);
    sqlCmd2 := Append(sqlCmd2, if i != n - 1 then " ," else ");");
    known := true;
  }

  method AddSqlData(db: Database, attempts: nat -> bool, table: string, buf: Bytes) returns (res: int)
    requires AddFits(table, buf)
    modifies db
    ensures match ScanBuffer(ADD, buf)
            case Outside => false
            case Stopped(_, _) => res == -1 && db.log == old(db.log)
            case Done(fs, _) =>
              && res == Rc(attempts)
              && db.log == old(db.log) + if res == 0 then [InsertSql(table, fs, ReadInt(buf))] else []
  {
    hide ReadInt, ReadText, ScanFields, ReadField, ReadValue;
    var sqlCmd1 := "INSERT INTO " + table + " (";
    var sqlCmd2 := "VALUES (";
    var elementCount := ReadInt(buf);
    var off: nat := 4;
    ghost var fs: seq<Field> := [];
    ScanStart(ADD, buf[4..], elementCount);
    var i := 0;
    while i < elementCount
      invariant db.log == old(db.log)
      invariant 0 <= i && AddState(table, buf, i, off, fs, sqlCmd1, sqlCmd2)
    {
      var known;
      ghost var f := ReadField(ADD, buf[off..]);
      known, off, sqlCmd1, sqlCmd2 := AddField(table, buf, i, off, fs, sqlCmd1, sqlCmd2);
      if !known {
        return -1;
      }
      fs := fs + [f.field];
      i := i + 1;
    }
    ScanEnd(ADD, fs, buf[off..], elementCount - i);
    sqlCmd1 := Append(sqlCmd1, " ");
    sqlCmd1 := Append(sqlCmd1, sqlCmd2);
    res := db.ExecSqlCmd(sqlCmd1, attempts);
  }

  // ---------- loops that print "name=value" items ----------

  /** The buffer is complete up to where the walk ends, and what is printed fits. */
  predicate ItemsFit(rd: Reader, lead: string, sep: string, head: string, buf: Bytes, n: int) {
    |buf| >= 4 &&
    var r := ScanFields(rd, buf[4..], n);
    && !r.Outside?
    && |head + Items(lead, sep, r.fields, n)| < SQL_SIZE
    && (r.Stopped? ==> |head + Items(lead, sep, r.fields, n) + lead + r.name + "="| < SQL_SIZE)
  }

  ghost predicate ItemState(rd: Reader, lead: string, sep: string, head: string, buf: Bytes, n: int,
                            i: nat, off: nat, fs: seq<Field>, cmd: string) {
    && ItemsFit(rd, lead, sep, head, buf, n) && off <= |buf| && |fs| == i && (i == 0 || i <= n)
    && Prepend(fs, ScanFields(rd, buf[off..], n - i)) == ScanFields(rd, buf[4..], n)
    && cmd == head + Items(lead, sep, fs, n)
  }

  lemma ItemsStart(rd: Reader, lead: string, sep: string, head: string, buf: Bytes, n: int)
    requires ItemsFit(rd, lead, sep, head, buf, n)
    ensures ItemState(rd, lead, sep, head, buf, n, 0, 4, [], head)
  {
    ScanStart(rd, buf[4..], n);
  }

  lemma ItemsStep(lead: string, sep: string, fs: seq<Field>, f: Field, n: int)
    ensures Items(lead, sep, fs + [f], n)
         == Items(lead, sep, fs, n) + ItemText(lead)(f) + if |fs| != n - 1 then sep else ""
  {
    MapSnoc(ItemText(lead), fs, f);
    ListedStep(Map(ItemText(lead), fs), ItemText(lead)(f), n, sep, "");
  }

  lemma ItemRoom(rd: Reader, lead: string, sep: string, head: string, buf: Bytes, n: int,
                 i: nat, off: nat, fs: seq<Field>, cmd: string)
    requires ItemState(rd, lead, sep, head, buf, n, i, off, fs, cmd) && i < n
    ensures match ReadField(rd, buf[off..])
            case Out => false
            case Stop(name) => |cmd + lead + name + "="| < SQL_SIZE && ScanFields(rd, buf[4..], n).Stopped?
            case Next(f, _) => |cmd + ItemText(lead)(f) + if i != n - 1 then sep else ""| < SQL_SIZE
  {
    hide ReadField, PrintValue, Listed;
    var b, r := buf[off..], ScanFields(rd, buf[4..], n);
    StillToPrint(rd, fs, b, n - i);
    match ReadField(rd, b)
    case Out =>
    case Stop(name) =>
    case Next(f, _) =>
      ItemsStep(lead, sep, fs, f, n);
      var rest := r.fields[i + 1..];
      assert r.fields == (fs + [f]) + rest;
      MapAppend(ItemText(lead), fs + [f], rest);
      ListedGrows(Map(ItemText(lead), fs + [f]), Map(ItemText(lead), r.fields), n, sep, "");
  }

  /** The body of such a loop. */
  method PutItem(rd: Reader, lead: string, sep: string, ghost head: string, buf: Bytes, n: int,
                 i: nat, off: nat, ghost fs: seq<Field>, cmd: string)
      returns (known: bool, next: nat, sqlCmd: string)
    requires ItemState(rd, lead, sep, head, buf, n, i, off, fs, cmd) && i < n
    ensures !known ==> ScanFields(rd, buf[4..], n).Stopped?
    ensures known ==>
              && ReadField(rd, buf[off..]).Next?
              && ItemState(rd, lead, sep, head, buf, n, i + 1, next, fs + [ReadField(rd, buf[off..]).field], sqlCmd)
  {
    hide ReadInt, ReadText, ScanFields, ReadField, ReadValue, PrintValue, Items, CharValue;
    ghost var b := buf[off..];
    ItemRoom(rd, lead, sep, head, buf, n, i, off, fs, cmd);
    ScanStep(rd, fs, b, n - i);
    FieldParts(rd, b);
    next := off;

    var name := ReadText(buf[next..]).value;
    sqlCmd := Append(cmd, lead + name + "=");
    Advance(buf, next, |name| + 1);
    next := next + |name| + 1;

    var columnType := ReadNumber(rd, buf[next..]).value;
    if rd.stops && columnType != INT_TYPE && columnType != STRING_TYPE {
      known := false;
      return;
    }
    Advance(buf, next, 4);
    next := next + 4;
    ghost var f := ReadField(rd, b).field;
    ItemsStep(lead, sep, fs, f, n);
    sqlCmd, next := TakeValue(rd, sqlCmd, buf, next, columnType, name);
    sqlCmd := Append(sqlCmd, if i != n - 1 then sep else "");
    known := true;
  }

  lemma ItemsEnd(rd: Reader, lead: string, sep: string, head: string, buf: Bytes, n: int,
                 i: nat, off: nat, fs: seq<Field>, cmd: string)
    requires ItemState(rd, lead, sep, head, buf, n, i, off, fs, cmd) && i >= n
    ensures ScanFields(rd, buf[4..], n) == Done(fs, buf[off..]) && cmd == head + Items(lead, sep, fs, n)
  {
    ScanEnd(rd, fs, buf[off..], n - i);
  }

  /** rc of an execution. */
  ghost function Rc(attempts: nat -> bool): int {
    if exists i: nat :: i < RETRIES && attempts(i) then 0 else -1
  }

  method UpdateSqlData(db: Database, attempts: nat -> bool, table: string, signed: bool, buf: Bytes)
      returns (res: int)
    requires |buf| >= 4
    requires ItemsFit(UPDATE(signed), "", " ,", UpdateHead(table), buf, CharValue(buf[0], signed))
    modifies db
    ensures match ScanBuffer(UPDATE(signed), buf)
            case Outside => false
            case Stopped(_, _) => res == -1 && db.log == old(db.log)
            case Done(fs, _) =>
              && res == Rc(attempts)
              && db.log == old(db.log)
                 + if res == 0 then [UpdateSql(table, fs, CharValue(buf[0], signed))] else []
  {
    hide ScanFields, ReadField, Items;
    ghost var rd := UPDATE(signed);
    var columnCount := CharValue(buf[0], signed);
    ghost var head := UpdateHead(table);
    var sqlCmd := "UPDATE " + table + " set ";
    var off: nat := 4;
    ghost var fs: seq<Field> := [];
    ItemsStart(rd, "", " ,", head, buf, columnCount);
    var i := 0;
    while i < columnCount
      invariant db.log == old(db.log)
      invariant 0 <= i && ItemState(rd, "", " ,", head, buf, columnCount, i, off, fs, sqlCmd)
    {
      var known;
      ghost var f := ReadField(rd, buf[off..]);
      known, off, sqlCmd := PutItem(UPDATE(signed), "", " ,", head, buf, columnCount, i, off, fs, sqlCmd);
      if !known {
        return -1;
      }
      fs := fs + [f.field];
      i := i + 1;
    }
    ItemsEnd(rd, "", " ,", head, buf, columnCount, i, off, fs, sqlCmd);
    res := db.ExecSqlCmd(sqlCmd, attempts);
  }

  method DeleteByCondition(db: Database, attempts: nat -> bool, table: string, query: Option<Bytes>)
      returns (res: int)
    requires query.Some? ==> |query.value| >= 4
    requires query.Some? && ReadInt(query.value) != 0 ==>
               ItemsFit(WHERE, " ", " and ", DeleteHead(table), query.value, ReadInt(query.value))
    modifies db
    ensures query.None? || ReadInt(query.value) == 0 ==> res == -1 && db.log == old(db.log)
    ensures query.Some? && ReadInt(query.value) != 0 ==>
              match ScanBuffer(WHERE, query.value)
              case Outside => false
              case Stopped(_, _) => res == -1 && db.log == old(db.log)
              case Done(cs, _) =>
                && res == Rc(attempts)
                && db.log == old(db.log)
                   + if res == 0 then [DeleteHead(table) + WhereBody(cs, ReadInt(query.value))] else []
  {
    hide ReadInt, ScanFields, ReadField, Items;
    if query.None? {
      return -1;
    }
    var buf := query.value;
    var count := ReadInt(buf);
    if count == 0 {
      return -1;
    }
    ghost var head := DeleteHead(table);
    var sqlCmd := "delete from " + table + " where ";
    var off: nat := 4;
    ghost var cs: seq<Field> := [];
    ItemsStart(WHERE, " ", " and ", head, buf, count);
    var i := 0;
    while i < count
      invariant db.log == old(db.log)
      invariant 0 <= i && ItemState(WHERE, " ", " and ", head, buf, count, i, off, cs, sqlCmd)
    {
      var known;
      ghost var c := ReadField(WHERE, buf[off..]);
      known, off, sqlCmd := PutItem(WHERE, " ", " and ", head, buf, count, i, off, cs, sqlCmd);
      if !known {
        return -1;
      }
      cs := cs + [c.field];
      i := i + 1;
    }
    ItemsEnd(WHERE, " ", " and ", head, buf, count, i, off, cs, sqlCmd);
    res := db.ExecSqlCmd(sqlCmd, attempts);
  }

  /** The text of a conditional update before its conditions. */
  function SetHead(table: string, buf: Bytes, signed: bool): string
    requires |buf| >= 4 && ScanBuffer(SET(signed), buf).Done?
  {
    UpdateSql(table, ScanBuffer(SET(signed), buf).fields, CharValue(buf[0], signed))
  }

  predicate SetFits(table: string, signed: bool, buf: Bytes) {
    && |buf| >= 4 && ScanBuffer(SET(signed), buf).Done?
    && ItemsFit(SET(signed), "", " ,", UpdateHead(table), buf, CharValue(buf[0], signed))
  }

  /** An unknown type does not end the walk over the assignments. */
  lemma {:induction false} SetNeverStops(signed: bool, b: Bytes, n: int)
    ensures !ScanFields(SET(signed), b, n).Stopped?
    decreases n
  {
    if n > 0 {
      var s := ReadField(SET(signed), b);
      if s.Next? {
        SetNeverStops(signed, s.rest, n - 1);
      }
    }
  }

  /** The first loop of update_sqldata_by_condition. */
  method PrintAssignments(table: string, signed: bool, buf: Bytes) returns (sqlCmd: string)
    requires SetFits(table, signed, buf)
    ensures sqlCmd == SetHead(table, buf, signed)
  {
    hide ScanFields, ReadField, Items;
    ghost var rd := SET(signed);
    var columnCount := CharValue(buf[0], signed);
    ghost var head := UpdateHead(table);
    sqlCmd := "UPDATE " + table + " set ";
    var off: nat := 4;
    ghost var fs: seq<Field> := [];
    ItemsStart(rd, "", " ,", head, buf, columnCount);
    var i := 0;
    while i < columnCount
      invariant 0 <= i && ItemState(rd, "", " ,", head, buf, columnCount, i, off, fs, sqlCmd)
    {
      var known;
      ghost var f := ReadField(rd, buf[off..]);
      known, off, sqlCmd := PutItem(SET(signed), "", " ,", head, buf, columnCount, i, off, fs, sqlCmd);
      assert known by { SetNeverStops(signed, buf[4..], columnCount); }
      fs := fs + [f.field];
      i := i + 1;
    }
    ItemsEnd(rd, "", " ,", head, buf, columnCount, i, off, fs, sqlCmd);
  }

  method UpdateByCondition(db: Database, attempts: nat -> bool, table: string, signed: bool,
                           condition: Option<Bytes>, buf: Bytes)
      returns (res: int)
    requires SetFits(table, signed, buf)
    requires condition.Some? ==> |condition.value| >= 4
    requires condition.Some? && ReadInt(condition.value) != 0 ==>
               ItemsFit(WHERE, " ", " and ", SetHead(table, buf, signed) + " where ",
                        condition.value, ReadInt(condition.value))
    modifies db
    ensures condition.None? ==>
              res == Rc(attempts) && db.log == old(db.log) + if res == 0 then [SetHead(table, buf, signed)] else []
    ensures condition.Some? && ReadInt(condition.value) == 0 ==> res == -1 && db.log == old(db.log)
    ensures condition.Some? && ReadInt(condition.value) != 0 ==>
              match ScanBuffer(WHERE, condition.value)
              case Outside => false
              case Stopped(_, _) => res == -1 && db.log == old(db.log)
              case Done(cs, _) =>
                && res == Rc(attempts)
                && db.log == old(db.log) + if res == 0
                   then [SetHead(table, buf, signed) + " where " + WhereBody(cs, ReadInt(condition.value))] else []
  {
    hide ReadInt, ScanFields, ReadField, Items, SetHead;
    var sqlCmd := PrintAssignments(table, signed, buf);
    if condition.Some? {
      var cond := condition.value;
      var count := ReadInt(cond);
      if count == 0 {
        return -1;
      }
      ghost var head := SetHead(table, buf, signed) + " where ";
      sqlCmd := sqlCmd + " where ";
      var off: nat := 4;
      ghost var cs: seq<Field> := [];
      ItemsStart(WHERE, " ", " and ", head, cond, count);
      var i := 0;
      while i < count
        invariant db.log == old(db.log)
        invariant 0 <= i && ItemState(WHERE, " ", " and ", head, cond, count, i, off, cs, sqlCmd)
      {
        var known;
        ghost var c := ReadField(WHERE, cond[off..]);
        known, off, sqlCmd := PutItem(WHERE, " ", " and ", head, cond, count, i, off, cs, sqlCmd);
        if !known {
          return -1;
        }
        cs := cs + [c.field];
        i := i + 1;
      }
      ItemsEnd(WHERE, " ", " and ", head, cond, count, i, off, cs, sqlCmd);
    }
    res := db.ExecSqlCmd(sqlCmd, attempts);
  }
}
