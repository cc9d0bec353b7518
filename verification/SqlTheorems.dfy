/** Which buffers the walks read in full, and where they disagree. */
module SqlTheorems {
  import opened Seqs
  import opened Bytes
  import opened SqlRows
  import opened SqlText
  import opened SqlWriters

  // ---------- well-formed buffers ----------

  predicate CString(s: string) { forall i :: 0 <= i < |s| ==> s[i] as int < 256 && s[i] != NUL }

  predicate Storable(f: Field) {
    && CString(f.name)
    && match f.value
       case Num(v) => IsInt32(v)
       case Str(s) => CString(s)
       case Nothing => false
  }

  predicate AllStorable(fs: seq<Field>) { forall i :: 0 <= i < |fs| ==> Storable(fs[i]) }

  /** A C string with its terminator. */
  function Terminated(s: string): Bytes
    requires CString(s)
  {
    s + [NUL]
  }

  function ValueTag(v: Value): int
    requires !v.Nothing?
  {
    if v.Num? then INT_TYPE else STRING_TYPE
  }

  function EncodeValue(f: Field): Bytes
    requires Storable(f)
  {
    match f.value
    case Num(v) => Le(v)
    case Str(s) => Terminated(s)
  }

  function EncodeField(f: Field): Bytes
    requires Storable(f)
  {
    Terminated(f.name) + (Le(ValueTag(f.value)) + EncodeValue(f))
  }

  function EncodeFields(fs: seq<Field>): Bytes
    requires AllStorable(fs)
  {
    if fs == [] then [] else EncodeField(fs[0]) + EncodeFields(fs[1..])
  }

  function EncodeBuffer(fs: seq<Field>): Bytes
    requires AllStorable(fs)
  {
    Le(|fs|) + EncodeFields(fs)
  }

  lemma ReadTerminated(s: string, rest: Bytes)
    requires CString(s)
    ensures var b := Terminated(s) + rest;
            ReadText(b) == Some(s) && |b| > |s| && b[|s| + 1..] == rest
  {
    var t: CText := s;
    ReadTextBack(t, rest);
  }

  /** Reading back one well-formed field; a text value is stepped over only by a reader that skips it. */
  lemma FieldRoundTrip(rd: Reader, f: Field, rest: Bytes)
    requires Storable(f) && !rd.narrow
    ensures ReadField(rd, EncodeField(f) + rest)
         == Next(f, if f.value.Str? && !rd.skipsText then EncodeValue(f) + rest else rest)
  {
    hide Le, ReadInt, ReadText, Terminated;
    var tag, value := ValueTag(f.value), EncodeValue(f);
    var b := EncodeField(f) + rest;
    Associative(Terminated(f.name), Le(tag) + value, rest);
    ReadTerminated(f.name, (Le(tag) + value) + rest);
    Associative(Le(tag), value, rest);
    ReadLe(tag, value + rest);
    WrapTwice(tag);
    match f.value
    case Num(v) =>
      ReadLe(v, rest);
      WrapTwice(v);
    case Str(s) =>
      ReadTerminated(s, rest);
  }

  lemma {:induction false} FieldsRoundTrip(fs: seq<Field>, rest: Bytes)
    requires AllStorable(fs)
    ensures ScanFields(ADD, EncodeFields(fs) + rest, |fs|) == Done(fs, rest)
  {
    hide ReadField, EncodeField;
    if fs == [] {
      assert EncodeFields(fs) + rest == rest;
    } else {
      Associative(EncodeField(fs[0]), EncodeFields(fs[1..]), rest);
      FieldRoundTrip(ADD, fs[0], EncodeFields(fs[1..]) + rest);
      FieldsRoundTrip(fs[1..], rest);
    }
  }

  lemma EncodedCount(fs: seq<Field>)
    requires AllStorable(fs) && |fs| < 0x8000_0000
    ensures var b := EncodeBuffer(fs);
            |b| >= 4 && ReadInt(b) == |fs| && b[4..] == EncodeFields(fs)
  {
    hide Le, ReadInt;
    ReadLe(|fs|, EncodeFields(fs));
    WrapTwice(|fs|);
  }

  /** add_sqldata consumes a well-formed buffer exactly to its end and sees exactly its fields. */
  lemma AddReadsAll(fs: seq<Field>)
    requires AllStorable(fs) && |fs| < 0x8000_0000
    ensures ScanBuffer(ADD, EncodeBuffer(fs)) == Done(fs, [])
  {
    EncodedCount(fs);
    FieldsRoundTrip(fs, []);
    assert EncodeFields(fs) + [] == EncodeFields(fs);
  }

  // ---------- update_sqldata against add_sqldata ----------

  lemma SmallInt(b: Bytes)
    requires |b| >= 4 && 0 <= ReadInt(b) < 256
    ensures b[0] as int == ReadInt(b)
  {
  }

  /** Reading a type from one char makes no difference where the full type is known. */
  lemma NarrowFieldAgrees(rd: Reader, b: Bytes)
    requires rd.narrow && rd.skipsText && ReadField(ADD, b).Next?
    ensures ReadField(rd, b) == ReadField(ADD, b)
  {
    hide ReadInt, ReadText;
    var b1 := b[|ReadText(b).value| + 1..];
    SmallInt(b1);
  }

  lemma {:induction false} NarrowScanAgrees(rd: Reader, b: Bytes, n: int)
    requires rd.narrow && rd.skipsText && ScanFields(ADD, b, n).Done?
    ensures ScanFields(rd, b, n) == ScanFields(ADD, b, n)
    decreases n
  {
    hide ReadField;
    if n > 0 && ReadField(ADD, b).Next? {
      NarrowFieldAgrees(rd, b);
      NarrowScanAgrees(rd, ReadField(ADD, b).rest, n - 1);
    }
  }

  lemma {:induction false} DoneCount(rd: Reader, b: Bytes, n: int)
    ensures var r := ScanFields(rd, b, n); r.Done? ==> |r.fields| == if n > 0 then n else 0
    decreases n
  {
    hide ReadField;
    if n > 0 && ReadField(rd, b).Next? {
      DoneCount(rd, ReadField(rd, b).rest, n - 1);
    }
  }

  lemma ScanNothing(rd: Reader, b: Bytes, n: int)
    requires n <= 0
    ensures ScanFields(rd, b, n) == Done([], b)
  {
  }

  /**
   On a buffer that add_sqldata reads in full, update_sqldata visits the same fields and ends at the
   same byte if and only if the field count is below 128, or below 256 where char is unsigned; a
   negative count, which reads nothing, must have a first char that is not positive.
   */
  lemma UpdateAgreesIff(signed: bool, buf: Bytes)
    requires ScanBuffer(ADD, buf).Done?
    ensures ScanBuffer(UPDATE(signed), buf) == ScanBuffer(ADD, buf)
       <==> if ReadInt(buf) < 0 then CharValue(buf[0], signed) <= 0
            else ReadInt(buf) < if signed then 128 else 256
  {
    hide ReadInt, ScanFields;
    var n, m := ReadInt(buf), CharValue(buf[0], signed);
    if 0 <= n < if signed then 128 else 256 {
      SmallInt(buf);
      NarrowScanAgrees(UPDATE(signed), buf[4..], n);
    } else {
      if n < 0 {
        ScanNothing(ADD, buf[4..], n);
      }
      if m <= 0 {
        ScanNothing(UPDATE(signed), buf[4..], m);
      }
      DoneCount(ADD, buf[4..], n);
      DoneCount(UPDATE(signed), buf[4..], m);
    }
  }

  // ---------- unknown types ----------

  predicate KnownTag(tag: int) { tag == INT_TYPE || tag == STRING_TYPE }

  /** A type as a reader takes it: all of it, or its low byte. */
  function TagRead(rd: Reader, tag: int): int { if rd.narrow then CharValue(Le(tag)[0], rd.signed) else tag }

  /** A field ends the walk if and only if its type is unknown as it is read. */
  lemma FieldStopsIff(rd: Reader, name: string, tag: int, rest: Bytes)
    requires CString(name) && IsInt32(tag)
    ensures ReadField(rd, Terminated(name) + (Le(tag) + rest)) == Stop(name)
       <==> rd.stops && !KnownTag(TagRead(rd, tag))
  {
    hide Le, ReadInt, ReadText, Terminated;
    ReadTerminated(name, Le(tag) + rest);
    ReadLe(tag, rest);
    WrapTwice(tag);
    assert (Le(tag) + rest)[0] == Le(tag)[0];
  }

  /** The readers that step over these fields: all but those that are stuck at a text. */
  predicate StepsOver(rd: Reader, fs: seq<Field>) {
    (rd.narrow ==> rd.skipsText) && forall i :: 0 <= i < |fs| && fs[i].value.Str? ==> rd.skipsText
  }

  lemma StepsOverOne(rd: Reader, f: Field, rest: Bytes)
    requires Storable(f) && (rd.narrow ==> rd.skipsText) && (f.value.Str? ==> rd.skipsText)
    ensures ReadField(rd, EncodeField(f) + rest) == Next(f, rest)
  {
    hide ReadField, EncodeField;
    if rd.narrow {
      FieldRoundTrip(ADD, f, rest);
      NarrowFieldAgrees(rd, EncodeField(f) + rest);
    } else {
      FieldRoundTrip(rd, f, rest);
    }
  }

  /** Such a reader takes well-formed fields as they are and goes on behind them. */
  lemma {:induction false} FieldsThen(rd: Reader, fs: seq<Field>, rest: Bytes, n: int)
    requires AllStorable(fs) && StepsOver(rd, fs) && |fs| <= n
    ensures ScanFields(rd, EncodeFields(fs) + rest, n) == Prepend(fs, ScanFields(rd, rest, n - |fs|))
  {
    hide EncodeField, ReadField, Prepend;
    if fs == [] {
      assert EncodeFields(fs) + rest == rest;
      PrependNothing(ScanFields(rd, rest, n));
    } else {
      var later := EncodeFields(fs[1..]) + rest;
      Associative(EncodeField(fs[0]), EncodeFields(fs[1..]), rest);
      StepsOverOne(rd, fs[0], later);
      FieldsThen(rd, fs[1..], rest, n - 1);
      assert [fs[0]] + fs[1..] == fs;
      PrependTwice(fs[0], fs[1..], ScanFields(rd, rest, n - |fs|));
    }
  }

  lemma PrependNothing(r: Scan)
    ensures Prepend([], r) == r
  {
    match r
    case Outside =>
    case Stopped(gs, _) => assert [] + gs == gs;
    case Done(gs, _) => assert [] + gs == gs;
  }

  lemma PrependTwice(f: Field, fs: seq<Field>, r: Scan)
    ensures Prepend([f], Prepend(fs, r)) == Prepend([f] + fs, r)
  {
    match r
    case Outside =>
    case Stopped(gs, _) => assert [f] + (fs + gs) == ([f] + fs) + gs;
    case Done(gs, _) => assert [f] + (fs + gs) == ([f] + fs) + gs;
  }

  /**
   A walk that has read some well-formed fields ends at the next one if and only if the reader stops
   at unknown types and its type is unknown as the reader takes it.
   */
  lemma UnknownTypeStopsIff(rd: Reader, fs: seq<Field>, name: string, tag: int, rest: Bytes, n: int)
    requires AllStorable(fs) && StepsOver(rd, fs) && CString(name) && IsInt32(tag) && |fs| < n
    ensures ScanFields(rd, EncodeFields(fs) + (Terminated(name) + (Le(tag) + rest)), n) == Stopped(fs, name)
       <==> rd.stops && !KnownTag(TagRead(rd, tag))
  {
    hide EncodeFields, ReadField, Le, Terminated, KnownTag, TagRead;
    var next := Terminated(name) + (Le(tag) + rest);
    FieldsThen(rd, fs, next, n);
    FieldStopsIff(rd, name, tag, rest);
    var r := ScanFields(rd, next, n - |fs|);
    match ReadField(rd, next)
    case Out =>
    case Stop(_) =>
      assert r.Stopped? && r.fields == [] && fs + [] == fs;
    case Next(f, b) =>
      assert r == Prepend([f], ScanFields(rd, b, n - |fs| - 1));
  }

  /** A char read as a number: the byte itself, or the same modulo 256 between -128 and 127. */
  lemma CharValueIs(c: Byte)
    ensures CharValue(c, false) == c as int
    ensures -128 <= CharValue(c, true) < 128 && (CharValue(c, true) - c as int) % 256 == 0
  {
  }

  lemma LowByte(tag: int)
    requires IsInt32(tag)
    ensures Le(tag)[0] as int == tag % 256
  {
    var u := tag % INT_MOD;
    assert tag == INT_MOD * (tag / INT_MOD) + u;
    assert tag % 256 == u % 256;
  }

  /**
   What the four walks do at a field of any type: add_sqldata and the conditions stop at all types
   but integer and text, update_sqldata at all whose low byte is neither, and the assignments of a
   conditional update take such a field as one without a value and go on behind its type.
   */
  lemma FourWalks(name: string, tag: int, rest: Bytes, signed: bool)
    requires CString(name) && IsInt32(tag)
    ensures var b := Terminated(name) + (Le(tag) + rest);
            && (ReadField(ADD, b) == Stop(name) <==> tag != 1 && tag != 2)
            && (ReadField(WHERE, b) == Stop(name) <==> tag != 1 && tag != 2)
            && (ReadField(UPDATE(signed), b) == Stop(name) <==> tag % 256 != 1 && tag % 256 != 2)
            && (tag % 256 != 1 && tag % 256 != 2 ==> ReadField(SET(signed), b) == Next(Field(name, Nothing), rest))
  {
    hide Le, ReadInt, ReadText, Terminated;
    var b := Terminated(name) + (Le(tag) + rest);
    FieldStopsIff(ADD, name, tag, rest);
    FieldStopsIff(WHERE, name, tag, rest);
    FieldStopsIff(UPDATE(signed), name, tag, rest);
    LowByte(tag);
    ReadTerminated(name, Le(tag) + rest);
    ReadLe(tag, rest);
    assert (Le(tag) + rest)[0] == Le(tag)[0];
  }

  /** Of such a field only the name and the equals sign are printed. */
  lemma UnknownValueIsEmpty(table: string, name: string)
    ensures UpdateSql(table, [Field(name, Nothing)], 1) == "UPDATE " + table + " set " + name + "="
  {
    var fs := [Field(name, Nothing)];
    assert fs[1..] == [];
    var parts := Map(ItemText(""), fs);
    assert "" + name + "=" + "" == name + "=";
    assert parts == [name + "="];
    assert [] + parts == parts && "" + (parts[0] + "") == parts[0];
    assert parts[..0] == [];
    assert Listed([], 1, " ,", "") == "";
    assert Listed(parts, 1, " ,", "") == "" + (parts[0] + "") == name + "=";
  }

  // ---------- conditions ----------

  predicate TextOnlyLast(cs: seq<Field>) { forall i :: 0 <= i < |cs| - 1 ==> cs[i].value.Num? }

  lemma TextOnlyLastSplit(cs: seq<Field>)
    requires cs != []
    ensures TextOnlyLast(cs) <==> (|cs| > 1 ==> cs[0].value.Num?) && TextOnlyLast(cs[1..])
  {
    var tail := cs[1..];
    if !TextOnlyLast(tail) {
      var i :| 0 <= i < |tail| - 1 && !tail[i].value.Num?;
      assert cs[i + 1] == tail[i];
    }
    if !TextOnlyLast(cs) {
      var i :| 0 <= i < |cs| - 1 && !cs[i].value.Num?;
      assert i > 0 ==> cs[i] == tail[i - 1];
    }
  }

  lemma KnownTypeBytes(b: Bytes)
    requires |b| >= 4 && (ReadInt(b) == INT_TYPE || ReadInt(b) == STRING_TYPE)
    ensures b[0] != NUL && b[1] == NUL && b[2] == NUL
  {
  }

  lemma TagBytes(v: Value)
    requires !v.Nothing?
    ensures Le(ValueTag(v))[0] != NUL
  {
  }

  /** The first four bytes of a well-formed field are never a known type. */
  lemma NameIsNoType(f: Field, rest: Bytes)
    requires Storable(f)
    ensures var b := EncodeField(f) + rest;
            |b| >= 4 && ReadInt(b) != INT_TYPE && ReadInt(b) != STRING_TYPE
  {
    hide EncodeValue, ReadInt, Le, ValueTag;
    var name, tag, b := f.name, Le(ValueTag(f.value)), EncodeField(f) + rest;
    assert b == (Terminated(name) + tag) + (EncodeValue(f) + rest);
    if name == "" {
      assert b[0] == NUL;
    } else if |name| == 1 {
      TagBytes(f.value);
      assert b[2] == tag[0];
    } else {
      assert b[1] == name[1] && b[1] != NUL;
    }
    if ReadInt(b) == INT_TYPE || ReadInt(b) == STRING_TYPE {
      KnownTypeBytes(b);
    }
  }

  /** Not stepping over a text, the walk next takes that text for a name and the next name for a type. */
  lemma StuckAtText(s: string, f: Field, rest: Bytes)
    requires CString(s) && Storable(f)
    ensures ReadField(WHERE, Terminated(s) + (EncodeField(f) + rest)) == Stop(s)
  {
    hide ReadInt, ReadText, EncodeField, Terminated;
    ReadTerminated(s, EncodeField(f) + rest);
    NameIsNoType(f, rest);
  }

  /**
   A list of conditions is read in full if and only if no text value stands before the last
   condition; otherwise the walk stops and nothing is executed.
   */
  lemma {:induction false} ConditionsReadIff(cs: seq<Field>)
    requires AllStorable(cs)
    ensures var r := ScanFields(WHERE, EncodeFields(cs), |cs|);
            if TextOnlyLast(cs) then r.Done? && r.fields == cs else r.Stopped?
  {
    hide ReadField, EncodeField;
    if cs != [] {
      var c, tail := cs[0], cs[1..];
      FieldRoundTrip(WHERE, c, EncodeFields(tail));
      TextOnlyLastSplit(cs);
      if c.value.Num? {
        ConditionsReadIff(tail);
      } else if tail != [] {
        StuckAtText(c.value.s, tail[0], EncodeFields(tail[1..]));
      }
    }
  }

  lemma ConditionBufferIff(cs: seq<Field>)
    requires AllStorable(cs) && |cs| < 0x8000_0000
    ensures var r := ScanBuffer(WHERE, EncodeBuffer(cs));
            if TextOnlyLast(cs) then r.Done? && r.fields == cs else r.Stopped?
  {
    EncodedCount(cs);
    ConditionsReadIff(cs);
  }

  // ---------- where they fail ----------

  /** With 128 fields and a signed char, update_sqldata reads a negative count and no field at all. */
  lemma TooManyForOneChar()
    ensures var fs := seq(128, i => Field("a", Num(0)));
            AllStorable(fs) && ScanBuffer(UPDATE(true), EncodeBuffer(fs)) != ScanBuffer(ADD, EncodeBuffer(fs))
  {
    var fs := seq(128, i => Field("a", Num(0)));
    AddReadsAll(fs);
    EncodedCount(fs);
    UpdateAgreesIff(true, EncodeBuffer(fs));
  }

  /** A type of 257 is unknown to add_sqldata, and an integer to update_sqldata, which reads 1. */
  lemma WideTypeIsCut(signed: bool)
    ensures var b := Terminated("a") + (Le(257) + Le(7));
            && ReadField(ADD, b) == Stop("a")
            && ReadField(UPDATE(signed), b) == Next(Field("a", Num(7)), [])
  {
    hide ReadInt, ReadText, Terminated;
    var b := Terminated("a") + (Le(257) + Le(7));
    FieldStopsIff(ADD, "a", 257, Le(7));
    ReadTerminated("a", Le(257) + Le(7));
    assert (Le(257) + Le(7))[0] == Le(257)[0] && Le(257)[0] as int == 1;
    assert (Le(257) + Le(7))[4..] == Le(7) + [];
    ReadLe(7, []);
  }

  /** A text before the last condition: nothing is deleted or updated. */
  lemma TextBeforeLastStops()
    ensures var cs := [Field("a", Str("b")), Field("c", Num(1))];
            AllStorable(cs) && ScanBuffer(WHERE, EncodeBuffer(cs)).Stopped?
  {
    var cs := [Field("a", Str("b")), Field("c", Num(1))];
    assert cs[0].value.Str?;
    ConditionBufferIff(cs);
  }
}
