/** A reference reader of the printed commands, and the proof that printing loses nothing. */
module SqlParse {
  import opened Seqs
  import opened Bytes
  import opened SqlText
  import opened SqlWriters
  import opened SqlTheorems

  datatype Reading<+T> = Fail | Ok(value: T, rest: string)

  // ---------- the reference reader ----------

  predicate IdentChar(c: char) { 'a' <= c <= 'z' || 'A' <= c <= 'Z' || '0' <= c <= '9' || c == '_' }

  predicate DigitChar(c: char) { '0' <= c <= '9' }

  predicate NoQuote(c: char) { c != '\'' }

  /** The longest prefix of characters that satisfy `p`. */
  function Span(p: char -> bool, s: string): (k: nat)
    ensures k <= |s|
  {
    if s == "" || !p(s[0]) then 0 else 1 + Span(p, s[1..])
  }

  function NatOf(digits: string): nat
    requires forall i :: 0 <= i < |digits| ==> DigitChar(digits[i])
  {
    if digits == "" then 0
    else
      var k := |digits| - 1;
      assert DigitChar(digits[k]);
      10 * NatOf(digits[..k]) + (digits[k] - '0') as int
  }

  lemma {:induction false} SpanHolds(p: char -> bool, s: string)
    ensures forall i :: 0 <= i < Span(p, s) ==> p(s[i])
    ensures Span(p, s) < |s| ==> !p(s[Span(p, s)])
  {
    if s != "" && p(s[0]) {
      SpanHolds(p, s[1..]);
    }
  }

  function ReadNat(s: string): Reading<nat> {
    var k := Span(DigitChar, s);
    SpanHolds(DigitChar, s);
    if k == 0 then Fail else Ok(NatOf(s[..k]), s[k..])
  }

  function ReadIdent(s: string): Reading<string> {
    var k := Span(IdentChar, s);
    if k == 0 then Fail else Ok(s[..k], s[k..])
  }

  /** What follows an opening quote; inside a literal a quote is written twice. */
  function ReadQuoted(s: string): Reading<string> {
    if s == "" then Fail
    else if s[0] == '\'' && (|s| == 1 || s[1] != '\'') then Ok("", s[1..])
    else
      var more := ReadQuoted(if s[0] == '\'' then s[2..] else s[1..]);
      if more.Fail? then Fail else Ok([s[0]] + more.value, more.rest)
  }

  function ReadLiteral(s: string): Reading<Value> {
    if s == "" then Fail
    else if s[0] == '\'' then
      var t := ReadQuoted(s[1..]);
      if t.Fail? then Fail else Ok(Str(t.value), t.rest)
    else if s[0] == '-' then
      var n := ReadNat(s[1..]);
      if n.Fail? then Fail else Ok(Num(0 - n.value), n.rest)
    else
      var n := ReadNat(s);
      if n.Fail? then Fail else Ok(Num(n.value), n.rest)
  }

  /** A list of "name=value", each behind `lead`, with `sep` between them. */
  function ReadItems(lead: string, sep: string, s: string): Reading<seq<Field>>
    decreases |s|
  {
    if !(lead <= s) then Fail
    else
      var name := ReadIdent(s[|lead|..]);
      if name.Fail? || !("=" <= name.rest) then Fail
      else
        var v := ReadLiteral(name.rest[1..]);
        if v.Fail? then Fail
        else if sep != "" && sep <= v.rest && |v.rest| < |s| then
          var more := ReadItems(lead, sep, v.rest[|sep|..]);
          if more.Fail? then Fail else Ok([Field(name.value, v.value)] + more.value, more.rest)
        else Ok([Field(name.value, v.value)], v.rest)
  }

  /** Names separated by " ," up to ")". */
  function ReadNames(s: string): Reading<seq<string>>
    decreases |s|
  {
    var name := ReadIdent(s);
    if name.Fail? then Fail
    else if " ," <= name.rest && |name.rest| < |s| then
      var more := ReadNames(name.rest[2..]);
      if more.Fail? then Fail else Ok([name.value] + more.value, more.rest)
    else if ")" <= name.rest then Ok([name.value], name.rest[1..])
    else Fail
  }

  /** Values separated by " ," up to ");". */
  function ReadValues(s: string): Reading<seq<Value>>
    decreases |s|
  {
    var v := ReadLiteral(s);
    if v.Fail? then Fail
    else if " ," <= v.rest && |v.rest| < |s| then
      var more := ReadValues(v.rest[2..]);
      if more.Fail? then Fail else Ok([v.value] + more.value, more.rest)
    else if ");" <= v.rest then Ok([v.value], v.rest[2..])
    else Fail
  }

  function Pair(names: seq<string>, values: seq<Value>): seq<Field>
    requires |names| == |values|
  {
    if names == [] then [] else [Field(names[0], values[0])] + Pair(names[1..], values[1..])
  }

  datatype Command =
    | Insert(table: string, fields: seq<Field>)
    | Update(table: string, fields: seq<Field>, conditions: Option<seq<Field>>)
    | Delete(table: string, only: seq<Field>)

  function ReadInsert(s: string): Option<Command> {
    if !("INSERT INTO " <= s) then None
    else
      var table := ReadIdent(s[12..]);
      if table.Fail? || !(" (" <= table.rest) then None
      else
        var names := ReadNames(table.rest[2..]);
        if names.Fail? || !(" VALUES (" <= names.rest) then None
        else
          var values := ReadValues(names.rest[9..]);
          if values.Fail? || values.rest != "" || |values.value| != |names.value| then None
          else Some(Insert(table.value, Pair(names.value, values.value)))
  }

  function ReadUpdate(s: string): Option<Command> {
    if !("UPDATE " <= s) then None
    else
      var table := ReadIdent(s[7..]);
      if table.Fail? || !(" set " <= table.rest) then None
      else
        var fields := ReadItems("", " ,", table.rest[5..]);
        if fields.Fail? then None
        else if fields.rest == "" then Some(Update(table.value, fields.value, None))
        else if !(" where " <= fields.rest) then None
        else
          var cs := ReadItems(" ", " and ", fields.rest[7..]);
          if cs.Fail? || cs.rest != "" then None
          else Some(Update(table.value, fields.value, Some(cs.value)))
  }

  function ReadDelete(s: string): Option<Command> {
    if !("delete from " <= s) then None
    else
      var table := ReadIdent(s[12..]);
      if table.Fail? || !(" where " <= table.rest) then None
      else
        var cs := ReadItems(" ", " and ", table.rest[7..]);
        if cs.Fail? || cs.rest != "" then None else Some(Delete(table.value, cs.value))
  }

  // ---------- tokens read back ----------

  predicate Ident(s: string) { s != "" && forall i :: 0 <= i < |s| ==> IdentChar(s[i]) }

  /** A value that has a printed form: a number or a text without quotes. */
  predicate Printable(v: Value) {
    match v
    case Num(_) => true
    case Str(s) => forall i :: 0 <= i < |s| ==> NoQuote(s[i])
    case Nothing => false
  }

  predicate IdentNames(fs: seq<Field>) { forall i :: 0 <= i < |fs| ==> Ident(fs[i].name) }

  predicate PrintableValues(fs: seq<Field>) { forall i :: 0 <= i < |fs| ==> Printable(fs[i].value) }

  lemma {:induction false} SpanExact(p: char -> bool, a: string, rest: string)
    requires forall i :: 0 <= i < |a| ==> p(a[i])
    requires rest == "" || !p(rest[0])
    ensures Span(p, a + rest) == |a| && (a + rest)[..|a|] == a && (a + rest)[|a|..] == rest
  {
    if a == "" {
      assert a + rest == rest;
    } else {
      assert (a + rest)[1..] == a[1..] + rest;
      SpanExact(p, a[1..], rest);
    }
  }

  lemma {:induction false} DecimalDigits(n: nat)
    ensures Decimal(n) != "" && forall i :: 0 <= i < |Decimal(n)| ==> DigitChar(Decimal(n)[i])
    ensures NatOf(Decimal(n)) == n
  {
    if n >= 10 {
      DecimalDigits(n / 10);
      assert Decimal(n)[..|Decimal(n)| - 1] == Decimal(n / 10);
    } else {
      assert Decimal(n)[..0] == "";
    }
  }

  lemma NatReadBack(n: nat, rest: string)
    requires rest == "" || !DigitChar(rest[0])
    ensures ReadNat(Decimal(n) + rest) == Ok(n, rest)
  {
    DecimalDigits(n);
    SpanExact(DigitChar, Decimal(n), rest);
  }

  lemma IdentReadBack(s: string, rest: string)
    requires Ident(s) && (rest == "" || !IdentChar(rest[0]))
    ensures ReadIdent(s + rest) == Ok(s, rest) && s != ""
  {
    SpanExact(IdentChar, s, rest);
  }

  lemma NumberReadBack(n: int, rest: string)
    requires rest == "" || !DigitChar(rest[0])
    ensures ReadLiteral(PrintInt(n) + rest) == Ok(Num(n), rest) && PrintInt(n) != ""
  {
    hide ReadNat, Decimal;
    if n < 0 {
      assert ("-" + Decimal(-n) + rest)[1..] == Decimal(-n) + rest;
      NatReadBack(-n, rest);
    } else {
      DecimalDigits(n);
      assert DigitChar(Decimal(n)[0]);
      NatReadBack(n, rest);
    }
  }

  /** What may follow a value: neither more of a number nor more of a text. */
  predicate Ends(rest: string) { rest == "" || (!DigitChar(rest[0]) && NoQuote(rest[0])) }

  lemma ReadPlain(c: char, t: string)
    requires NoQuote(c)
    ensures var more := ReadQuoted(t);
            ReadQuoted([c] + t) == if more.Fail? then Fail else Ok([c] + more.value, more.rest)
  {
    assert ([c] + t)[1..] == t;
  }

  lemma ReadDoubled(t: string)
    ensures var more := ReadQuoted(t);
            ReadQuoted("''" + t) == if more.Fail? then Fail else Ok("'" + more.value, more.rest)
  {
    assert ("''" + t)[2..] == t;
  }

  lemma ReadClosing(t: string)
    requires t == "" || NoQuote(t[0])
    ensures ReadQuoted("'" + t) == Ok("", t)
  {
    assert ("'" + t)[1..] == t;
  }

  lemma {:induction false} TextReadBack(s: string, rest: string)
    requires Ends(rest) && forall i :: 0 <= i < |s| ==> NoQuote(s[i])
    ensures ReadQuoted(s + ("'" + rest)) == Ok(s, rest)
  {
    hide ReadQuoted;
    if s == "" {
      ReadClosing(rest);
      assert s + ("'" + rest) == "'" + rest;
    } else {
      assert s + ("'" + rest) == [s[0]] + (s[1..] + ("'" + rest));
      ReadPlain(s[0], s[1..] + ("'" + rest));
      TextReadBack(s[1..], rest);
      assert [s[0]] + s[1..] == s;
    }
  }

  lemma {:induction false} ConsSame<T>(x: T, a: seq<T>, b: seq<T>)
    ensures [x] + a == [x] + b <==> a == b
  {
    assert ([x] + a)[1..] == a && ([x] + b)[1..] == b;
  }

  predicate OnlyQuotes(q: string) { forall c :: c in q ==> c == '\'' }

  lemma {:induction false} AllQuotes(q: string)
    requires OnlyQuotes(q)
    ensures q + "'" == "'" + q && OnlyQuotes(q + "'")
  {
    if q != "" {
      assert q[0] in q && q == [q[0]] + q[1..];
      forall c | c in q[1..] ensures c == '\'' {
        assert c in q;
      }
      AllQuotes(q[1..]);
      assert q + "'" == "'" + (q[1..] + "'");
    }
  }

  /** After a text of one quote, the closing quote is taken for its second half. */
  lemma NotOnlyQuotes(q: string, rest: string)
    requires Ends(rest) && OnlyQuotes(q)
    ensures ReadQuoted(rest).Ok? ==> ReadQuoted(rest).value != q
  {
    if rest != "" {
      assert rest == [rest[0]] + rest[1..];
      ReadPlain(rest[0], rest[1..]);
      assert q != "" ==> q[0] in q;
    }
  }

  /** A text with a quote in it is never read back, nor is one that has gained quotes in front. */
  lemma {:induction false} QuotesLost(q: string, s: string, rest: string)
    requires Ends(rest) && OnlyQuotes(q)
    requires q != "" || '\'' in s
    ensures var r := ReadQuoted(s + ("'" + rest)); r.Ok? ==> r.value != q + s
    decreases |s|, 1
  {
    hide ReadQuoted, Ends;
    var end := "'" + rest;
    if s == "" {
      assert s + end == "'" + rest;
      EndsNoQuote(rest);
      ReadClosing(rest);
    } else if NoQuote(s[0]) {
      QuotesLostLater(q, s, rest);
    } else if |s| == 1 {
      assert s + end == "''" + rest;
      ReadDoubled(rest);
      NotOnlyQuotes(q, rest);
      AllQuotes(q);
      assert q + s == ['\''] + q;
      ConsSame('\'', if ReadQuoted(rest).Ok? then ReadQuoted(rest).value else "", q);
    } else if NoQuote(s[1]) {
      assert s + end == "'" + (s[1..] + end);
      ReadClosing(s[1..] + end);
    } else {
      var m := ReadQuoted(s[2..] + end);
      assert s == "''" + s[2..] && s + end == "''" + (s[2..] + end);
      ReadDoubled(s[2..] + end);
      AllQuotes(q);
      QuotesLost(q + "'", s[2..], rest);
      assert q + s == (q + "'") + "'" + s[2..] == ("'" + q) + "'" + s[2..];
      assert q + s == ['\''] + ((q + "'") + s[2..]);
      ConsSame('\'', if m.Ok? then m.value else "", (q + "'") + s[2..]);
    }
  }

  lemma EndsNoQuote(rest: string)
    requires Ends(rest)
    ensures rest == "" || NoQuote(rest[0])
  {
  }

  lemma {:induction false} QuotesLostLater(q: string, s: string, rest: string)
    requires Ends(rest) && OnlyQuotes(q)
    requires s != "" && NoQuote(s[0]) && (q != "" || '\'' in s)
    ensures var r := ReadQuoted(s + ("'" + rest)); r.Ok? ==> r.value != q + s
    decreases |s|, 0
  {
    hide ReadQuoted, Ends;
    var tail := s[1..] + ("'" + rest);
    var m := ReadQuoted(tail);
    assert s == [s[0]] + s[1..] && s + ("'" + rest) == [s[0]] + tail;
    ReadPlain(s[0], tail);
    if q == "" {
      QuotesLost("", s[1..], rest);
      assert "" + s[1..] == s[1..] && q + s == s;
      ConsSame(s[0], if m.Ok? then m.value else "", s[1..]);
    } else {
      assert (q + s)[0] == q[0] && q[0] in q;
    }
  }

  lemma LiteralReadBack(v: Value, rest: string)
    requires Ends(rest)
    ensures var r := ReadLiteral(PrintValue(v) + rest);
            && (Printable(v) ==> r == Ok(v, rest) && PrintValue(v) != "")
            && (!Printable(v) && r.Ok? ==> r.value != v)
  {
    hide ReadNat, PrintInt, ReadQuoted;
    match v
    case Num(n) => NumberReadBack(n, rest);
    case Str(s) =>
      assert (PrintValue(v) + rest)[1..] == s + ("'" + rest);
      if Printable(v) {
        TextReadBack(s, rest);
      } else {
        var i :| 0 <= i < |s| && !NoQuote(s[i]);
        assert s[i] in s;
        QuotesLost("", s, rest);
        assert "" + s == s;
      }
    case Nothing =>
  }

  // ---------- lists read back ----------

  /** A complete listing, first part first. */
  lemma {:induction false} ListedFront(parts: seq<string>, n: int, sep: string, close: string)
    requires parts != [] && |parts| <= n
    ensures Listed(parts, n, sep, close)
         == parts[0] + (if n == 1 then close else sep) + Listed(parts[1..], n - 1, sep, close)
  {
    var k := |parts| - 1;
    if k == 0 {
      assert parts[..0] == [] && parts[1..] == [];
    } else {
      var tail := parts[1..];
      ListedFront(parts[..k], n, sep, close);
      assert parts[..k][1..] == tail[..k - 1] && tail[k - 1] == parts[k];
      var a, b, c := parts[0] + (if n == 1 then close else sep), Listed(tail[..k - 1], n - 1, sep, close),
                     parts[k] + if k != n - 1 then sep else close;
      assert (a + b) + c == a + (b + c);
    }
  }

  /** One item and what follows it. */
  lemma ItemReadBack(lead: string, sep: string, f: Field, rest: string)
    requires Ident(f.name) && sep != "" && Ends(rest)
    ensures var r := ReadItems(lead, sep, ItemText(lead)(f) + rest);
            if Printable(f.value) then
              r == if sep <= rest then
                     var more := ReadItems(lead, sep, rest[|sep|..]);
                     if more.Fail? then Fail else Ok([f] + more.value, more.rest)
                   else Ok([f], rest)
            else r.Ok? ==> r.value != [] && r.value[0] != f
  {
    hide ReadIdent, ReadLiteral, PrintValue, Ident, Printable;
    var s := ItemText(lead)(f) + rest;
    var v := PrintValue(f.value) + rest;
    assert s == lead + (f.name + ("=" + v));
    assert s[|lead|..] == f.name + ("=" + v);
    IdentReadBack(f.name, "=" + v);
    assert ("=" + v)[1..] == v;
    LiteralReadBack(f.value, rest);
  }

  lemma Regroup(front: string, sep: string, listed: string, rest: string)
    ensures front + sep + listed + rest == front + (sep + (listed + rest))
    ensures (sep + (listed + rest))[|sep|..] == listed + rest && sep <= sep + (listed + rest)
  {
  }

  /** A list of items is read back if and only if all its values are printable. */
  lemma {:induction false} ItemsReadBackIff(lead: string, sep: string, fs: seq<Field>, rest: string)
    requires fs != [] && IdentNames(fs) && sep != "" && Ends(sep) && !(sep <= rest) && Ends(rest)
    ensures var r := ReadItems(lead, sep, Items(lead, sep, fs, |fs|) + rest);
            if PrintableValues(fs) then r == Ok(fs, rest) else r.Ok? ==> r.value != fs
  {
    hide ReadItems, ItemText, Ident, Printable;
    var f, tail := fs[0], fs[1..];
    var parts := Map(ItemText(lead), fs);
    ListedFront(parts, |fs|, sep, "");
    assert parts[1..] == Map(ItemText(lead), tail);
    PrintableCons(fs);
    assert fs == [f] + tail;
    if tail == [] {
      assert Items(lead, sep, fs, 1) == ItemText(lead)(f) by {
        assert parts[0] + "" + "" == parts[0];
      }
      ItemReadBack(lead, sep, f, rest);
      assert fs == [f];
    } else {
      var front, listed := ItemText(lead)(f), Items(lead, sep, tail, |tail|);
      var later := listed + rest;
      assert Items(lead, sep, fs, |fs|) == front + sep + listed;
      Regroup(front, sep, listed, rest);
      ItemReadBack(lead, sep, f, sep + later);
      ItemsReadBackIff(lead, sep, tail, rest);
      ConsSame(f, if ReadItems(lead, sep, later).Ok? then ReadItems(lead, sep, later).value else [], tail);
    }
  }

  lemma PrintableCons(fs: seq<Field>)
    requires fs != []
    ensures PrintableValues(fs) <==> Printable(fs[0].value) && PrintableValues(fs[1..])
  {
    hide Printable;
    if Printable(fs[0].value) && PrintableValues(fs[1..]) {
      forall i | 0 <= i < |fs| ensures Printable(fs[i].value) {
        assert i > 0 ==> fs[1..][i - 1] == fs[i];
      }
    }
  }

  predicate AllIdent(names: seq<string>) { forall i :: 0 <= i < |names| ==> Ident(names[i]) }

  lemma {:induction false} NamesReadBack(names: seq<string>, rest: string)
    requires names != [] && AllIdent(names)
    ensures ReadNames(Listed(names, |names|, " ,", ")") + rest) == Ok(names, rest)
  {
    hide ReadIdent, Ident;
    var name, tail := names[0], names[1..];
    ListedFront(names, |names|, " ,", ")");
    var s := Listed(names, |names|, " ,", ")") + rest;
    if tail == [] {
      assert s == name + (")" + rest);
      IdentReadBack(name, ")" + rest);
      assert (")" + rest)[1..] == rest && names == [name];
    } else {
      var later := Listed(tail, |tail|, " ,", ")") + rest;
      assert s == name + (" ," + later);
      IdentReadBack(name, " ," + later);
      assert (" ," + later)[2..] == later && names == [name] + tail;
      NamesReadBack(tail, rest);
    }
  }

  predicate AllPrintable(vs: seq<Value>) { forall i :: 0 <= i < |vs| ==> Printable(vs[i]) }

  lemma {:induction false} ValuesReadBackIff(vs: seq<Value>)
    requires vs != []
    ensures var r := ReadValues(Listed(Map(PrintValue, vs), |vs|, " ,", ");"));
            if AllPrintable(vs) then r == Ok(vs, "") else r.Ok? ==> r.value != vs
  {
    hide ReadLiteral, PrintValue, Printable;
    var v, tail := vs[0], vs[1..];
    var parts := Map(PrintValue, vs);
    ListedFront(parts, |vs|, " ,", ");");
    assert parts[1..] == Map(PrintValue, tail);
    var s := Listed(parts, |vs|, " ,", ");");
    assert vs == [v] + tail;
    assert AllPrintable(vs) <==> Printable(v) && AllPrintable(tail);
    if tail == [] {
      assert s == PrintValue(v) + ");";
      LiteralReadBack(v, ");");
      assert vs == [v];
    } else {
      var later := Listed(Map(PrintValue, tail), |tail|, " ,", ");");
      assert s == PrintValue(v) + (" ," + later);
      LiteralReadBack(v, " ," + later);
      assert (" ," + later)[2..] == later;
      ValuesReadBackIff(tail);
      ConsSame(v, if ReadValues(later).Ok? then ReadValues(later).value else [], tail);
    }
  }

  // ---------- whole commands read back ----------

  function ValueOf(f: Field): Value { f.value }

  lemma {:induction false} PairBack(fs: seq<Field>)
    ensures Pair(Map(NameText, fs), Map(ValueOf, fs)) == fs
    ensures Map(PrintValue, Map(ValueOf, fs)) == Map(ValueText, fs)
  {
    if fs != [] {
      PairBack(fs[1..]);
    }
  }

  lemma {:induction false} NamesAndValues(fs: seq<Field>)
    ensures IdentNames(fs) <==> AllIdent(Map(NameText, fs))
    ensures PrintableValues(fs) <==> AllPrintable(Map(ValueOf, fs))
  {
    hide Ident, Printable;
    MapAt(NameText, fs);
    MapAt(ValueOf, fs);
    if AllIdent(Map(NameText, fs)) {
      forall i | 0 <= i < |fs| ensures Ident(fs[i].name) {
        assert Map(NameText, fs)[i] == fs[i].name;
      }
    }
    if AllPrintable(Map(ValueOf, fs)) {
      forall i | 0 <= i < |fs| ensures Printable(fs[i].value) {
        assert Map(ValueOf, fs)[i] == fs[i].value;
      }
    }
  }

  lemma {:induction false} PairValues(names: seq<string>, values: seq<Value>)
    requires |names| == |values|
    ensures Map(ValueOf, Pair(names, values)) == values
  {
    if names != [] {
      PairValues(names[1..], values[1..]);
      assert values == [values[0]] + values[1..];
    }
  }

  /** The reader recovers a printed INSERT if and only if all its values are printable. */
  lemma InsertReadBackIff(table: string, fs: seq<Field>)
    requires Ident(table) && fs != [] && IdentNames(fs)
    ensures ReadInsert(InsertSql(table, fs, |fs|)) == Some(Insert(table, fs)) <==> PrintableValues(fs)
  {
    hide ReadIdent, ReadNames, ReadValues, Listed, Ident, Printable, Pair;
    var names, values := Map(NameText, fs), Map(ValueOf, fs);
    var tail := InsertTail(Map(ValueText, fs), |fs|);
    var valueList := Listed(Map(ValueText, fs), |fs|, " ,", ");");
    var afterNames := " " + tail;
    var nameList := Listed(names, |fs|, " ,", ")") + afterNames;
    var s := InsertSql(table, fs, |fs|);
    NamesAndValues(fs);
    PairBack(fs);
    assert s == "INSERT INTO " + (table + (" (" + nameList));
    assert s[12..] == table + (" (" + nameList);
    IdentReadBack(table, " (" + nameList);
    assert (" (" + nameList)[2..] == nameList;
    NamesReadBack(names, afterNames);
    assert afterNames == " VALUES (" + valueList && afterNames[9..] == valueList;
    ValuesReadBackIff(values);
    var r := ReadValues(valueList);
    if r.Ok? && |r.value| == |names| {
      PairValues(names, r.value);
    }
  }

  /** The head of an update is read off, whatever follows it. */
  lemma UpdateHeadReadBack(table: string, more: string)
    requires Ident(table)
    ensures var s := UpdateHead(table) + more;
            && "UPDATE " <= s && ReadIdent(s[7..]) == Ok(table, " set " + more)
            && " set " <= " set " + more && (" set " + more)[5..] == more
  {
    hide ReadIdent, Ident;
    var s := UpdateHead(table) + more;
    assert s == "UPDATE " + (table + (" set " + more));
    assert s[7..] == table + (" set " + more);
    IdentReadBack(table, " set " + more);
  }

  lemma UpdateReadBackIff(table: string, fs: seq<Field>)
    requires Ident(table) && fs != [] && IdentNames(fs)
    ensures ReadUpdate(UpdateSql(table, fs, |fs|)) == Some(Update(table, fs, None)) <==> PrintableValues(fs)
  {
    hide ReadIdent, ReadItems, Items, Ident, IdentNames, PrintableValues, UpdateHead;
    var items := Items("", " ,", fs, |fs|);
    UpdateHeadReadBack(table, items);
    assert items + "" == items;
    ItemsReadBackIff("", " ,", fs, "");
  }

  lemma UpdateWhereReadBackIff(table: string, fs: seq<Field>, cs: seq<Field>)
    requires Ident(table) && fs != [] && IdentNames(fs) && cs != [] && IdentNames(cs)
    ensures var sql := UpdateSql(table, fs, |fs|) + " where " + WhereBody(cs, |cs|);
            ReadUpdate(sql) == Some(Update(table, fs, Some(cs))) <==> PrintableValues(fs) && PrintableValues(cs)
  {
    hide ReadIdent, ReadItems, Items, Ident, IdentNames, PrintableValues, UpdateHead;
    var items, body := Items("", " ,", fs, |fs|), Items(" ", " and ", cs, |cs|);
    var rest := " where " + body;
    WhereAfter(UpdateHead(table), items, body);
    UpdateHeadReadBack(table, items + rest);
    ItemsReadBackIff("", " ,", fs, rest);
    ItemsReadBackIff(" ", " and ", cs, "");
  }

  lemma WhereAfter(head: string, items: string, body: string)
    ensures var rest := " where " + body;
            && (head + items) + " where " + body == head + (items + rest)
            && rest[0] == ' ' && !(" ," <= rest) && " where " <= rest && rest[7..] == body && body + "" == body
  {
    var rest := " where " + body;
    assert rest[1] == 'w';
  }

  lemma DeleteReadBackIff(table: string, cs: seq<Field>)
    requires Ident(table) && cs != [] && IdentNames(cs)
    ensures ReadDelete(DeleteHead(table) + WhereBody(cs, |cs|)) == Some(Delete(table, cs)) <==> PrintableValues(cs)
  {
    hide ReadIdent, ReadItems, Items, Ident, IdentNames, PrintableValues;
    var body := WhereBody(cs, |cs|);
    var s := DeleteHead(table) + body;
    assert s == "delete from " + (table + (" where " + body));
    assert s[12..] == table + (" where " + body);
    IdentReadBack(table, " where " + body);
    assert (" where " + body)[7..] == body && body + "" == body;
    ItemsReadBackIff(" ", " and ", cs, "");
  }

  // ---------- from the buffer to the command ----------

  /** No text value holds a quote. */
  predicate QuoteFree(fs: seq<Field>) {
    forall i :: 0 <= i < |fs| && fs[i].value.Str? ==> '\'' !in fs[i].value.s
  }

  lemma StorablePrintableIff(fs: seq<Field>)
    requires AllStorable(fs)
    ensures PrintableValues(fs) <==> QuoteFree(fs)
  {
    if PrintableValues(fs) {
      forall i | 0 <= i < |fs| && fs[i].value.Str? ensures '\'' !in fs[i].value.s {
        assert Printable(fs[i].value);
      }
    } else {
      var i :| 0 <= i < |fs| && !Printable(fs[i].value);
      assert Storable(fs[i]);
      var k :| 0 <= k < |fs[i].value.s| && !NoQuote(fs[i].value.s[k]);
      assert fs[i].value.s[k] in fs[i].value.s;
    }
  }

  /**
   For every list of at least one field with identifier names, add_sqldata consumes the buffer
   exactly and prints a command; it says the table and the same fields if and only if no text holds
   a quote, since quotes are printed as they are.
   */
  lemma AddSaysItsFieldsIff(table: string, fs: seq<Field>)
    requires Ident(table) && fs != [] && IdentNames(fs) && AllStorable(fs) && |fs| < 0x8000_0000
    ensures var buf := EncodeBuffer(fs);
            && ScanBuffer(ADD, buf) == Done(fs, [])
            && (ReadInsert(InsertSql(table, fs, ReadInt(buf))) == Some(Insert(table, fs)) <==> QuoteFree(fs))
  {
    AddReadsAll(fs);
    EncodedCount(fs);
    InsertReadBackIff(table, fs);
    StorablePrintableIff(fs);
  }

  /** The same for update_sqldata, as long as the count fits its one char. */
  lemma UpdateSaysItsFieldsIff(table: string, fs: seq<Field>, signed: bool)
    requires Ident(table) && fs != [] && IdentNames(fs) && AllStorable(fs) && |fs| < if signed then 128 else 256
    ensures var buf := EncodeBuffer(fs);
            && ScanBuffer(UPDATE(signed), buf) == Done(fs, [])
            && (ReadUpdate(UpdateSql(table, fs, CharValue(buf[0], signed))) == Some(Update(table, fs, None))
                <==> QuoteFree(fs))
  {
    AddReadsAll(fs);
    EncodedCount(fs);
    UpdateAgreesIff(signed, EncodeBuffer(fs));
    SmallInt(EncodeBuffer(fs));
    UpdateReadBackIff(table, fs);
    StorablePrintableIff(fs);
  }

  /**
   A conditional delete of a well-formed, non-empty condition list is executed if and only if no
   text value stands before the last condition.  It then says all the conditions in order if and
   only if no text holds a quote; a conditional update prints the same conditions after its
   assignments.
   */
  lemma ConditionsSayThemselvesIff(table: string, fs: seq<Field>, cs: seq<Field>, signed: bool)
    requires Ident(table) && fs != [] && IdentNames(fs) && AllStorable(fs) && |fs| < if signed then 128 else 256
    requires cs != [] && IdentNames(cs) && AllStorable(cs) && |cs| < 0x8000_0000
    ensures var r, n := ScanBuffer(WHERE, EncodeBuffer(cs)), ReadInt(EncodeBuffer(cs));
            && n != 0 && !r.Outside? && (r.Done? <==> TextOnlyLast(cs))
            && (r.Done? ==>
                  && (ReadDelete(DeleteHead(table) + WhereBody(r.fields, n)) == Some(Delete(table, cs))
                      <==> QuoteFree(cs))
                  && ScanBuffer(SET(signed), EncodeBuffer(fs)).Done?
                  && var sql := SetHead(table, EncodeBuffer(fs), signed) + " where " + WhereBody(r.fields, n);
                     ReadUpdate(sql) == Some(Update(table, fs, Some(cs))) <==> QuoteFree(fs) && QuoteFree(cs))
  {
    hide ReadUpdate, ReadDelete, QuoteFree, PrintableValues, UpdateSql, WhereBody, IdentNames;
    AddReadsAll(fs);
    EncodedCount(fs);
    SmallInt(EncodeBuffer(fs));
    NarrowScanAgrees(SET(signed), EncodeBuffer(fs)[4..], |fs|);
    ConditionBufferIff(cs);
    EncodedCount(cs);
    DeleteReadBackIff(table, cs);
    UpdateWhereReadBackIff(table, fs, cs);
    StorablePrintableIff(fs);
    StorablePrintableIff(cs);
  }

  /** One apostrophe: the row is added, but the command does not say the text. */
  lemma ApostropheIsLost()
    ensures var fs := [Field("name", Str("it's"))];
            var buf := EncodeBuffer(fs);
            && ScanBuffer(ADD, buf) == Done(fs, [])
            && ReadInsert(InsertSql("camera", fs, ReadInt(buf))) != Some(Insert("camera", fs))
  {
    hide ReadInsert, InsertSql, ScanBuffer, EncodeBuffer, ReadInt;
    var fs := [Field("name", Str("it's"))];
    assert "it's"[2] == '\'' && '\'' in fs[0].value.s;
    AddSaysItsFieldsIff("camera", fs);
  }
}
