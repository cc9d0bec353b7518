/**
 The encoder capabilities of cm_venc_option.c: enumeration lists printed by name, scalars, and the
 two levels of slots.  cm_product_option.c has the same entity.
 */
module VencOption {
  import opened Seqs
  import opened OptionLists
  import opened Slots

  const PROFILES := ["BASELINE", "MAIN", "HIGH", "NONE"]
  const RC_MODES := ["VBR", "CBR", "SBR", "CQP", "NONE"]
  const CODECS := ["H264", "H265", "MJPEG", "NONE"]
  const PRFL_NONE := 3
  const RC_MODE_NONE := 4
  const PROFILE_SIZE: nat := 3
  const RC_MODE_SIZE: nat := 4
  const VENC_SIZE: nat := 3
  const STRM_SIZE: nat := 4

  // ---------- enumerations by name ----------

  predicate Named(table: seq<string>, v: int) { 0 <= v < |table| }

  predicate AllNamed(table: seq<string>, s: seq<int>) { forall i :: 0 <= i < |s| ==> Named(table, s[i]) }

  /** Looking up a value outside the table is undefined in the source. */
  function NameOf(table: seq<string>, v: int): string { if Named(table, v) then table[v] else "" }

  function Namer(table: seq<string>): int -> string { (v: int) => NameOf(table, v) }

  /** The position of the first equal name. */
  function IndexOf(table: seq<string>, name: string): (r: Option<int>)
    ensures r.Some? ==> Named(table, r.value) && table[r.value] == name
    ensures r.Some? ==> forall k :: 0 <= k < r.value ==> table[k] != name
    ensures r.None? ==> name !in table
  {
    if table == [] then None
    else if table[0] == name then Some(0)
    else
      var r := IndexOf(table[1..], name);
      if r.None? then None else Some(r.value + 1)
  }

  method FindName(table: seq<string>, name: string) returns (r: Option<int>)
    ensures r == IndexOf(table, name)
  {
    var i := 0;
    while i < |table|
      invariant 0 <= i <= |table|
      invariant var rest := IndexOf(table[i..], name);
                IndexOf(table, name) == if rest.None? then None else Some(rest.value + i)
    {
      if table[i] == name {
        return Some(i);
      }
      assert table[i..][1..] == table[i + 1..];
      i := i + 1;
    }
    return None;
  }

  lemma NameReadsBack(table: seq<string>, v: int)
    requires Distinct(table) && Named(table, v)
    ensures IndexOf(table, NameOf(table, v)) == Some(v)
  {
    var r := IndexOf(table, table[v]);
    assert r.Some? by { assert table[v] in table; }
    assert table[r.value] == table[v];
  }

  /** The values of the names in a message; unknown names count as missing. */
  function Lookups(table: seq<string>, xs: seq<Option<string>>): (r: seq<Option<int>>)
    ensures |r| == |xs|
  {
    seq(|xs|, i requires 0 <= i < |xs| => if xs[i].None? then None else IndexOf(table, xs[i].value))
  }

  /** The names of a list up to its sentinel, each text once. */
  function PrintNames(table: seq<string>, a: seq<int>, none: int): seq<string> {
    Dedup(Map(Namer(table), UpTo(a, none)))
  }

  lemma {:induction false} DedupNames(table: seq<string>, s: seq<int>)
    requires Distinct(table) && AllNamed(table, s)
    ensures Dedup(Map(Namer(table), s)) == Map(Namer(table), Dedup(s))
  {
    if s != [] {
      var k := |s| - 1;
      var t, v := s[..k], s[k];
      assert s == t + [v];
      MapSnoc(Namer(table), t, v);
      var names := Map(Namer(table), t);
      assert (names + [Namer(table)(v)])[..k] == names;
      DedupNames(table, t);
      DedupElements(t);
      NameAmong(table, Dedup(t), v);
      MapSnoc(Namer(table), Dedup(t), v);
    }
  }

  /** Distinct values have distinct names. */
  lemma NameAmong(table: seq<string>, d: seq<int>, v: int)
    requires Distinct(table) && Named(table, v) && forall x :: x in d ==> Named(table, x)
    ensures NameOf(table, v) in Map(Namer(table), d) <==> v in d
  {
    MapAt(Namer(table), d);
    if v in d {
      var i :| 0 <= i < |d| && d[i] == v;
      assert Map(Namer(table), d)[i] == NameOf(table, v);
    }
    if NameOf(table, v) in Map(Namer(table), d) {
      var i :| 0 <= i < |d| && Map(Namer(table), d)[i] == NameOf(table, v);
      assert d[i] in d;
      NameReadsBack(table, d[i]);
      NameReadsBack(table, v);
    }
  }

  /** The names printed for a list stand for its first occurrences. */
  lemma NamesReadBack(table: seq<string>, a: seq<int>, none: int)
    requires Distinct(table) && AllNamed(table, UpTo(a, none))
    ensures PrintNames(table, a, none) == Map(Namer(table), Printed(a, none))
    ensures Lookups(table, Elements(PrintNames(table, a, none))) == Elements(Printed(a, none))
  {
    var u, p := UpTo(a, none), Printed(a, none);
    DedupNames(table, u);
    DedupElements(u);
    MapAt(Namer(table), p);
    var xs := Elements(Map(Namer(table), p));
    forall i | 0 <= i < |p| ensures Lookups(table, xs)[i] == Some(p[i]) {
      assert p[i] in p;
      NameReadsBack(table, p[i]);
    }
  }

  method CompNames(table: seq<string>, a: seq<int>, none: int) returns (out: seq<string>)
    requires AllNamed(table, UpTo(a, none))
    ensures out == PrintNames(table, a, none)
  {
    out := [];
    var i := 0;
    UpToParts(a, none);
    forall k | 0 <= k < |UpTo(a, none)| ensures a[k] != none {
      assert UpTo(a, none)[k] in UpTo(a, none);
    }
    while i < |a| && a[i] != none
      invariant 0 <= i <= |UpTo(a, none)| && out == Dedup(Map(Namer(table), a[..i]))
    {
      assert i < |UpTo(a, none)|;
      assert a[i] == UpTo(a, none)[i];
      var str := table[a[i]];
      assert a[..i + 1] == a[..i] + [a[i]];
      MapSnoc(Namer(table), a[..i], a[i]);
      assert (Map(Namer(table), a[..i]) + [str])[..i] == Map(Namer(table), a[..i]);
      var objCheck := Present(out, str);
      if !objCheck {
        out := out + [str];
      }
      i := i + 1;
    }
    assert a[..i] == UpTo(a, none);
  }

  method ParseNames(table: seq<string>, a: array<int>, xs: seq<Option<string>>)
    modifies a
    ensures a[..] == Overlay(old(a[..]), Lookups(table, xs))
  {
    for i := 0 to a.Length
      invariant forall j :: 0 <= j < i ==> a[j] == Overlay(old(a[..]), Lookups(table, xs))[j]
      invariant forall j :: i <= j < a.Length ==> a[j] == old(a[j])
    {
      if i < |xs| && xs[i].Some? {
        var j := FindName(table, xs[i].value);
        if j.Some? {
          a[i] := j.value;
        }
      }
    }
  }

  /** Distinct texts stand for distinct values. */
  lemma {:induction false} NamesInjective(table: seq<string>, p: seq<int>, q: seq<int>)
    requires Distinct(table) && AllNamed(table, p) && AllNamed(table, q)
    requires Map(Namer(table), p) == Map(Namer(table), q)
    ensures p == q
  {
    MapAt(Namer(table), p);
    MapAt(Namer(table), q);
    forall i | 0 <= i < |p| ensures p[i] == q[i] {
      NameReadsBack(table, p[i]);
      NameReadsBack(table, q[i]);
      assert Map(Namer(table), p)[i] == Map(Namer(table), q)[i];
    }
  }

  lemma NamedPrinted(table: seq<string>, a: seq<int>, none: int)
    requires AllNamed(table, a)
    ensures AllNamed(table, UpTo(a, none)) && AllNamed(table, Printed(a, none))
  {
    var u, p := UpTo(a, none), Printed(a, none);
    UpToParts(a, none);
    DedupElements(u);
    forall i | 0 <= i < |u| ensures Named(table, u[i]) { assert u[i] == a[i]; }
    forall i | 0 <= i < |p| ensures Named(table, p[i]) { assert p[i] in u; }
  }

  /** Whatever a message names, the values stay in the table. */
  lemma ParsedNamesNamed(table: seq<string>, a: seq<int>, xs: seq<Option<string>>)
    requires AllNamed(table, a)
    ensures AllNamed(table, Overlay(a, Lookups(table, xs)))
  {
  }

  /** The condition under which a list of names printed from `a` reprints after parsing over `b`. */
  lemma NamesReprintIff(table: seq<string>, a: seq<int>, b: seq<int>, none: int)
    requires Distinct(table) && AllNamed(table, a) && AllNamed(table, b) && |a| == |b|
    ensures var names := PrintNames(table, a, none);
            PrintNames(table, Overlay(b, Lookups(table, Elements(names))), none) == names <==> Covers(a, b, none)
  {
    var names := PrintNames(table, a, none);
    var r := Overlay(b, Lookups(table, Elements(names)));
    NamedPrinted(table, a, none);
    NamesReadBack(table, a, none);
    ParsedNamesNamed(table, b, Elements(names));
    NamedPrinted(table, r, none);
    NamesReadBack(table, r, none);
    ReprintsIff(a, b, none);
    if PrintNames(table, r, none) == names {
      NamesInjective(table, Printed(r, none), Printed(a, none));
    }
  }

  // ---------- the entity ----------

  datatype Cbr = Cbr(maxQFactor: Rate, minQFactor: Rate)
  datatype Cqp = Cqp(maxQp: int, minQp: int, qFactor: int)
  datatype Vbr = Vbr(maxQualityRange: Rate, minQualityRange: Rate)
  datatype Venc = Venc(cbr: Cbr, codec: int, cqp: Cqp, maxBitRate: int, maxGopSize: int, minBitRate: int,
                       minGopSize: int, profile: seq<int>, rcMode: seq<int>, vbr: Vbr)

  datatype CbrMessage = CbrMessage(maxQFactor: Option<Rate>, minQFactor: Option<Rate>)
  datatype CqpMessage = CqpMessage(maxQp: Option<int>, minQp: Option<int>, qFactor: Option<int>)
  datatype VbrMessage = VbrMessage(maxQualityRange: Option<Rate>, minQualityRange: Option<Rate>)
  datatype VencMessage = VencMessage(
    cbr: Option<CbrMessage>, codec: Option<string>, cqp: Option<CqpMessage>, maxBitRate: Option<int>,
    maxGopSize: Option<int>, minBitRate: Option<int>, minGopSize: Option<int>,
    profile: Option<seq<Option<string>>>, rcMode: Option<seq<Option<string>>>, vbr: Option<VbrMessage>)

  const INIT_VENC := Venc(Cbr(ZERO, ZERO), 0, Cqp(0, 0, 0), 0, 0, 0, 0,
                          Repeat(PRFL_NONE, PROFILE_SIZE), Repeat(RC_MODE_NONE, RC_MODE_SIZE), Vbr(ZERO, ZERO))

  predicate ValidVenc(v: Venc) {
    && Named(CODECS, v.codec)
    && |v.profile| == PROFILE_SIZE && AllNamed(PROFILES, v.profile)
    && |v.rcMode| == RC_MODE_SIZE && AllNamed(RC_MODES, v.rcMode)
  }

  function ParseCbr(p: Cbr, m: CbrMessage): Cbr {
    Cbr(Given(m.maxQFactor, p.maxQFactor), Given(m.minQFactor, p.minQFactor))
  }

  function ParseCqp(p: Cqp, m: CqpMessage): Cqp {
    Cqp(Given(m.maxQp, p.maxQp), Given(m.minQp, p.minQp), Given(m.qFactor, p.qFactor))
  }

  function ParseVbr(p: Vbr, m: VbrMessage): Vbr {
    Vbr(Given(m.maxQualityRange, p.maxQualityRange), Given(m.minQualityRange, p.minQualityRange))
  }

  /** An unknown name leaves the value. */
  function ParseName(table: seq<string>, v: int, name: Option<string>): int {
    if name.None? then v else Given(IndexOf(table, name.value), v)
  }

  function ParseNameList(table: seq<string>, a: seq<int>, xs: Option<seq<Option<string>>>): (r: seq<int>)
    ensures |r| == |a|
  {
    if xs.None? then a else Overlay(a, Lookups(table, xs.value))
  }

  function ParseVenc(v: Venc, msg: Option<VencMessage>): Venc {
    if msg.None? then v
    else
      var m := msg.value;
      Venc(if m.cbr.None? then v.cbr else ParseCbr(v.cbr, m.cbr.value),
           ParseName(CODECS, v.codec, m.codec),
           if m.cqp.None? then v.cqp else ParseCqp(v.cqp, m.cqp.value),
           Given(m.maxBitRate, v.maxBitRate), Given(m.maxGopSize, v.maxGopSize),
           Given(m.minBitRate, v.minBitRate), Given(m.minGopSize, v.minGopSize),
           ParseNameList(PROFILES, v.profile, m.profile),
           ParseNameList(RC_MODES, v.rcMode, m.rcMode),
           if m.vbr.None? then v.vbr else ParseVbr(v.vbr, m.vbr.value))
  }

  function PrintVenc(v: Venc): VencMessage {
    VencMessage(Some(CbrMessage(Some(v.cbr.maxQFactor), Some(v.cbr.minQFactor))),
                Some(NameOf(CODECS, v.codec)),
                Some(CqpMessage(Some(v.cqp.maxQp), Some(v.cqp.minQp), Some(v.cqp.qFactor))),
                Some(v.maxBitRate), Some(v.maxGopSize), Some(v.minBitRate), Some(v.minGopSize),
                Some(Elements(PrintNames(PROFILES, v.profile, PRFL_NONE))),
                Some(Elements(PrintNames(RC_MODES, v.rcMode, RC_MODE_NONE))),
                Some(VbrMessage(Some(v.vbr.maxQualityRange), Some(v.vbr.minQualityRange))))
  }

  /** The same for a name: only a name in the table replaces the value, which it then names. */
  predicate MergedName(table: seq<string>, after: int, name: Option<string>, before: int) {
    if name.Some? && name.value in table then 0 <= after < |table| && table[after] == name.value
    else after == before
  }

  /** The same for a list, element by element. */
  predicate MergedNames(table: seq<string>, after: seq<int>, xs: Option<seq<Option<string>>>, before: seq<int>) {
    && |after| == |before|
    && forall i :: 0 <= i < |before| ==>
         MergedName(table, after[i], if xs.Some? && i < |xs.value| then xs.value[i] else None, before[i])
  }

  lemma NameMerged(table: seq<string>, name: Option<string>, before: int)
    ensures MergedName(table, ParseName(table, before, name), name, before)
  {
  }

  lemma NamesMerged(table: seq<string>, xs: Option<seq<Option<string>>>, before: seq<int>)
    ensures MergedNames(table, ParseNameList(table, before, xs), xs, before)
  {
    var after := ParseNameList(table, before, xs);
    forall i | 0 <= i < |before|
      ensures MergedName(table, after[i], if xs.Some? && i < |xs.value| then xs.value[i] else None, before[i])
    {
      if xs.Some? && i < |xs.value| {
        NameMerged(table, xs.value[i], before[i]);
      }
    }
  }

  /**
   Leaf by leaf: every member of a message replaces its own field, also the three nested structures
   member by member and the lists element by element, and an absent one leaves it; an unknown name
   counts as absent.  Without a message nothing changes.
   */
  lemma VencMerges(v: Venc, m: VencMessage)
    ensures var r := ParseVenc(v, Some(m));
            var cbr := if m.cbr.Some? then m.cbr.value else CbrMessage(None, None);
            var cqp := if m.cqp.Some? then m.cqp.value else CqpMessage(None, None, None);
            var vbr := if m.vbr.Some? then m.vbr.value else VbrMessage(None, None);
            && Merged(r.cbr.maxQFactor, cbr.maxQFactor, v.cbr.maxQFactor)
            && Merged(r.cbr.minQFactor, cbr.minQFactor, v.cbr.minQFactor)
            && MergedName(CODECS, r.codec, m.codec, v.codec)
            && Merged(r.cqp.maxQp, cqp.maxQp, v.cqp.maxQp)
            && Merged(r.cqp.minQp, cqp.minQp, v.cqp.minQp)
            && Merged(r.cqp.qFactor, cqp.qFactor, v.cqp.qFactor)
            && Merged(r.maxBitRate, m.maxBitRate, v.maxBitRate)
            && Merged(r.maxGopSize, m.maxGopSize, v.maxGopSize)
            && Merged(r.minBitRate, m.minBitRate, v.minBitRate)
            && Merged(r.minGopSize, m.minGopSize, v.minGopSize)
            && MergedNames(PROFILES, r.profile, m.profile, v.profile)
            && MergedNames(RC_MODES, r.rcMode, m.rcMode, v.rcMode)
            && Merged(r.vbr.maxQualityRange, vbr.maxQualityRange, v.vbr.maxQualityRange)
            && Merged(r.vbr.minQualityRange, vbr.minQualityRange, v.vbr.minQualityRange)
    ensures ParseVenc(v, None) == v
  {
    hide MergedName, MergedNames, ParseName, ParseNameList;
    NameMerged(CODECS, m.codec, v.codec);
    NamesMerged(PROFILES, m.profile, v.profile);
    NamesMerged(RC_MODES, m.rcMode, v.rcMode);
  }

  /** The lists in normal form, everything else as it is. */
  function NormalVenc(v: Venc): Venc {
    v.(profile := Normal(v.profile, PRFL_NONE), rcMode := Normal(v.rcMode, RC_MODE_NONE))
  }

  lemma TablesDistinct()
    ensures Distinct(PROFILES) && Distinct(RC_MODES) && Distinct(CODECS)
  {
    assert PROFILES[0][0] == 'B' && PROFILES[1][0] == 'M' && PROFILES[2][0] == 'H' && PROFILES[3][0] == 'N';
    assert RC_MODES[0][0] == 'V' && RC_MODES[1][..2] == ['C', 'B'] && RC_MODES[2][0] == 'S'
           && RC_MODES[3][..2] == ['C', 'Q'] && RC_MODES[4][0] == 'N';
    assert RC_MODES[1][1] == 'B' && RC_MODES[3][1] == 'Q';
    assert CODECS[0][3] == '4' && CODECS[1][3] == '5' && CODECS[2][3] == 'E' && CODECS[3][0] == 'N';
    assert CODECS[0][0] == 'H' && CODECS[1][0] == 'H' && CODECS[2][0] == 'M';
  }

  /** No message takes an entity outside the values that can be printed. */
  lemma ParseKeepsValid(v: Venc, msg: Option<VencMessage>)
    requires ValidVenc(v)
    ensures ValidVenc(ParseVenc(v, msg))
  {
  }

  /** What reading back a printed entity over another one gives. */
  lemma ParsePrinted(v: Venc, w: Venc)
    requires ValidVenc(v) && ValidVenc(w)
    ensures ParseVenc(w, Some(PrintVenc(v)))
            == v.(profile := Overlay(w.profile, Elements(Printed(v.profile, PRFL_NONE))),
                  rcMode := Overlay(w.rcMode, Elements(Printed(v.rcMode, RC_MODE_NONE))))
  {
    TablesDistinct();
    NamedPrinted(PROFILES, v.profile, PRFL_NONE);
    NamedPrinted(RC_MODES, v.rcMode, RC_MODE_NONE);
    NamesReadBack(PROFILES, v.profile, PRFL_NONE);
    NamesReadBack(RC_MODES, v.rcMode, RC_MODE_NONE);
    NameReadsBack(CODECS, v.codec);
  }

  /**
   An entity printed, parsed over another one and printed again gives the same message if and only
   if the other one's leftover entries repeat printed values.
   */
  lemma VencReprintsIff(v: Venc, w: Venc)
    requires ValidVenc(v) && ValidVenc(w)
    ensures PrintVenc(ParseVenc(w, Some(PrintVenc(v)))) == PrintVenc(v)
            <==> Covers(v.profile, w.profile, PRFL_NONE) && Covers(v.rcMode, w.rcMode, RC_MODE_NONE)
  {
    hide PrintNames, Lookups, Overlay, Covers, Elements;
    TablesDistinct();
    NameReadsBack(CODECS, v.codec);
    NamesReprintIff(PROFILES, v.profile, w.profile, PRFL_NONE);
    NamesReprintIff(RC_MODES, v.rcMode, w.rcMode, RC_MODE_NONE);
    var r := ParseVenc(w, Some(PrintVenc(v)));
    if PrintVenc(r) == PrintVenc(v) {
      ElementsInjective(PrintNames(PROFILES, r.profile, PRFL_NONE), PrintNames(PROFILES, v.profile, PRFL_NONE));
      ElementsInjective(PrintNames(RC_MODES, r.rcMode, RC_MODE_NONE), PrintNames(RC_MODES, v.rcMode, RC_MODE_NONE));
    }
  }

  lemma VencReprints(v: Venc)
    requires ValidVenc(v)
    ensures PrintVenc(ParseVenc(v, Some(PrintVenc(v)))) == PrintVenc(v)
  {
    CoversItself(v.profile, PRFL_NONE);
    CoversItself(v.rcMode, RC_MODE_NONE);
    VencReprintsIff(v, v);
  }

  /** Parsed into a fresh entity, the lists come out in normal form, and stay so. */
  lemma VencNormalises(v: Venc)
    requires ValidVenc(v)
    ensures ParseVenc(INIT_VENC, Some(PrintVenc(v))) == NormalVenc(v)
    ensures ValidVenc(NormalVenc(v)) && NormalVenc(NormalVenc(v)) == NormalVenc(v)
    ensures PrintVenc(NormalVenc(v)) == PrintVenc(v)
  {
    ParsePrinted(v, INIT_VENC);
    ParseKeepsValid(INIT_VENC, Some(PrintVenc(v)));
    NormalIsPadded(v.profile, PRFL_NONE);
    NormalIsPadded(v.rcMode, RC_MODE_NONE);
    var n := NormalVenc(v);
    TablesDistinct();
    NamedPrinted(PROFILES, v.profile, PRFL_NONE);
    NamedPrinted(PROFILES, n.profile, PRFL_NONE);
    NamedPrinted(RC_MODES, v.rcMode, RC_MODE_NONE);
    NamedPrinted(RC_MODES, n.rcMode, RC_MODE_NONE);
    NamesReadBack(PROFILES, v.profile, PRFL_NONE);
    NamesReadBack(PROFILES, n.profile, PRFL_NONE);
    NamesReadBack(RC_MODES, v.rcMode, RC_MODE_NONE);
    NamesReadBack(RC_MODES, n.rcMode, RC_MODE_NONE);
  }

  // ---------- the whole option ----------

  type VencOption = Slots<Slots<Venc>>

  const INIT_STREAM: Slots<Venc> := Slots(Repeat(INIT_VENC, VENC_SIZE), 0)
  const INIT_OPTION: VencOption := Slots(Repeat(INIT_STREAM, STRM_SIZE), 0)

  function VencParser(): Parser<Venc, VencMessage> { (v: Venc, msg: Option<VencMessage>) => ParseVenc(v, msg) }

  function VencPrinter(): Venc -> VencMessage { (v: Venc) => PrintVenc(v) }

  predicate ValidStream(s: Slots<Venc>) {
    |s.items| == VENC_SIZE && InRange(s.idx, VENC_SIZE) && forall i :: 0 <= i < VENC_SIZE ==> ValidVenc(s.items[i])
  }

  predicate ValidOption(data: VencOption) {
    && |data.items| == STRM_SIZE && InRange(data.idx, STRM_SIZE)
    && forall i :: 0 <= i < STRM_SIZE ==> ValidStream(data.items[i])
  }

  lemma StreamReprints(s: Slots<Venc>)
    requires ValidStream(s)
    ensures PrintSlots(VencPrinter(), ParseSlots(VencParser(), s, Some(PrintSlots(VencPrinter(), s))))
            == PrintSlots(VencPrinter(), s)
  {
    hide PrintVenc, ParseVenc;
    forall i | 0 <= i < |s.items| {
      VencReprints(s.items[i]);
    }
    SlotsReprint(VencParser(), VencPrinter(), s);
  }

  /** Print, parse over the same option, print again: the same message. */
  lemma OptionReprints(data: VencOption)
    requires ValidOption(data)
    ensures var parse, print_ := SlotParser(VencParser()), SlotPrinter(VencPrinter());
            PrintSlots(print_, ParseSlots(parse, data, Some(PrintSlots(print_, data)))) == PrintSlots(print_, data)
  {
    var parse, print_ := SlotParser(VencParser()), SlotPrinter(VencPrinter());
    forall i | 0 <= i < |data.items|
      ensures print_(parse(data.items[i], Some(print_(data.items[i])))) == print_(data.items[i])
    {
      StreamReprints(data.items[i]);
    }
    SlotsReprint(parse, print_, data);
  }

  // ---------- every reachable option can be printed ----------

  type OptionMessage = Message<Message<VencMessage>>

  lemma ParseKeepsStream(s: Slots<Venc>, m: Option<Message<VencMessage>>)
    requires ValidStream(s) && IndexOk(m, VENC_SIZE)
    ensures ValidStream(ParseSlots(VencParser(), s, m))
  {
    hide ValidVenc, ParseVenc;
    var r := ParseSlots(VencParser(), s, m);
    forall i | 0 <= i < VENC_SIZE ensures ValidVenc(r.items[i]) {
      var x := SlotReceives(VencParser(), s, m, i);
      ParseKeepsValid(s.items[i], x);
    }
  }

  lemma ParseKeepsOption(data: VencOption, m: OptionMessage)
    requires ValidOption(data) && IndicesOk(m, STRM_SIZE, VENC_SIZE)
    ensures ValidOption(ParseSlots(SlotParser(VencParser()), data, Some(m)))
  {
    hide ValidStream;
    var r := ParseSlots(SlotParser(VencParser()), data, Some(m));
    forall i | 0 <= i < STRM_SIZE ensures ValidStream(r.items[i]) {
      var x := SlotReceives(SlotParser(VencParser()), data, Some(m), i);
      ParseKeepsStream(data.items[i], x);
    }
  }

  /**
   From the initial option, no run of messages, however partial or unknown their names, leads to
   an entity that cannot be printed, and what is printed there is stable.
   */
  lemma {:induction false} RunsStayPrintable(msgs: seq<OptionMessage>)
    requires forall i :: 0 <= i < |msgs| ==> IndicesOk(msgs[i], STRM_SIZE, VENC_SIZE)
    ensures var data := ParseRun(SlotParser(VencParser()), INIT_OPTION, msgs);
            var parse, print_ := SlotParser(VencParser()), SlotPrinter(VencPrinter());
            && ValidOption(data)
            && PrintSlots(print_, ParseSlots(parse, data, Some(PrintSlots(print_, data)))) == PrintSlots(print_, data)
  {
    hide ValidOption, ParseSlots, PrintSlots, IndicesOk;
    if msgs == [] {
      InitIsValid();
    } else {
      var k := |msgs| - 1;
      RunsStayPrintable(msgs[..k]);
      ParseKeepsOption(ParseRun(SlotParser(VencParser()), INIT_OPTION, msgs[..k]), msgs[k]);
    }
    OptionReprints(ParseRun(SlotParser(VencParser()), INIT_OPTION, msgs));
  }

  /** Every stream and the option address their first slot. */
  lemma InitIsValid()
    ensures ValidOption(INIT_OPTION) && INIT_OPTION.idx == 0
    ensures forall i :: 0 <= i < STRM_SIZE ==>
              INIT_OPTION.items[i].idx == 0
              && forall j :: 0 <= j < VENC_SIZE ==> INIT_OPTION.items[i].items[j] == INIT_VENC
  {
  }

  // ---------- the entity in place ----------

  method CodecNamed(name: Option<string>, codec: int) returns (r: int)
    ensures r == ParseName(CODECS, codec, name)
  {
    r := codec;
    if name.Some? {
      var i := FindName(CODECS, name.value);
      if i.Some? {
        r := i.value;
      }
    }
  }

  class VencEntity {
    var cbr: Cbr
    var codec: int
    var cqp: Cqp
    var maxBitRate: int
    var maxGopSize: int
    var minBitRate: int
    var minGopSize: int
    const profile: array<int>
    const rcMode: array<int>
    var vbr: Vbr

    ghost predicate Sized() { profile.Length == PROFILE_SIZE && rcMode.Length == RC_MODE_SIZE && profile != rcMode }

    ghost function View(): Venc
      reads this, profile, rcMode
    {
      Venc(cbr, codec, cqp, maxBitRate, maxGopSize, minBitRate, minGopSize, profile[..], rcMode[..], vbr)
    }

    constructor ()
      ensures Sized() && fresh(profile) && fresh(rcMode)
      ensures View() == INIT_VENC
    {
      profile, rcMode := new int[PROFILE_SIZE], new int[RC_MODE_SIZE];
      cbr, codec, cqp, vbr := Cbr(ZERO, ZERO), 0, Cqp(0, 0, 0), Vbr(ZERO, ZERO);
      maxBitRate, maxGopSize, minBitRate, minGopSize := 0, 0, 0, 0;
      new;
      Init();
    }

    method Init()
      requires Sized()
      modifies this, profile, rcMode
      ensures View() == INIT_VENC
      ensures cbr == Cbr(0.0, 0.0) && cqp == Cqp(0, 0, 0) && vbr == Vbr(0.0, 0.0) && codec == 0
      ensures maxBitRate == maxGopSize == minBitRate == minGopSize == 0
      ensures profile[..] == [3, 3, 3] && rcMode[..] == [4, 4, 4, 4]
    {
      vbr, cbr, cqp := Vbr(ZERO, ZERO), Cbr(ZERO, ZERO), Cqp(0, 0, 0);
      codec, maxBitRate, minBitRate, maxGopSize, minGopSize := 0, 0, 0, 0, 0;
      Fill(profile, PRFL_NONE);
      Fill(rcMode, RC_MODE_NONE);
    }

    method ParseParams(m: VencMessage)
      modifies `cbr, `cqp, `maxBitRate, `maxGopSize, `minBitRate, `minGopSize, `vbr
      ensures cbr == if m.cbr.None? then old(cbr) else ParseCbr(old(cbr), m.cbr.value)
      ensures cqp == if m.cqp.None? then old(cqp) else ParseCqp(old(cqp), m.cqp.value)
      ensures vbr == if m.vbr.None? then old(vbr) else ParseVbr(old(vbr), m.vbr.value)
      ensures maxBitRate == Given(m.maxBitRate, old(maxBitRate)) && maxGopSize == Given(m.maxGopSize, old(maxGopSize))
      ensures minBitRate == Given(m.minBitRate, old(minBitRate)) && minGopSize == Given(m.minGopSize, old(minGopSize))
    {
      if m.cbr.Some? {
        cbr := ParseCbr(cbr, m.cbr.value);
      }
      if m.cqp.Some? {
        cqp := ParseCqp(cqp, m.cqp.value);
      }
      maxBitRate, maxGopSize := Given(m.maxBitRate, maxBitRate), Given(m.maxGopSize, maxGopSize);
      minBitRate, minGopSize := Given(m.minBitRate, minBitRate), Given(m.minGopSize, minGopSize);
      if m.vbr.Some? {
        vbr := ParseVbr(vbr, m.vbr.value);
      }
    }

    method ParseLists(m: VencMessage)
      requires Sized()
      modifies profile, rcMode
      ensures profile[..] == ParseNameList(PROFILES, old(profile[..]), m.profile)
      ensures rcMode[..] == ParseNameList(RC_MODES, old(rcMode[..]), m.rcMode)
    {
      hide Overlay, Lookups;
      if m.profile.Some? {
        ParseNames(PROFILES, profile, m.profile.value);
      }
      if m.rcMode.Some? {
        ParseNames(RC_MODES, rcMode, m.rcMode.value);
      }
    }

    method Parse(msg: Option<VencMessage>)
      requires Sized()
      modifies this, profile, rcMode
      ensures View() == ParseVenc(old(View()), msg)
    {
      hide ParseNameList, Given, ParseCbr, ParseCqp, ParseVbr;
      if msg.None? {
        return;
      }
      var m := msg.value;
      ParseParams(m);
      codec := CodecNamed(m.codec, codec);
      ParseLists(m);
    }

    /** The three table lookups stay inside their tables. */
    method Comp() returns (m: VencMessage)
      requires Sized() && Named(CODECS, codec)
      requires AllNamed(PROFILES, UpTo(profile[..], PRFL_NONE)) && AllNamed(RC_MODES, UpTo(rcMode[..], RC_MODE_NONE))
      ensures m == PrintVenc(View())
    {
      var name := CODECS[codec];
      var profiles := CompNames(PROFILES, profile[..], PRFL_NONE);
      var rcModes := CompNames(RC_MODES, rcMode[..], RC_MODE_NONE);
      m := VencMessage(Some(CbrMessage(Some(cbr.maxQFactor), Some(cbr.minQFactor))), Some(name),
                       Some(CqpMessage(Some(cqp.maxQp), Some(cqp.minQp), Some(cqp.qFactor))),
                       Some(maxBitRate), Some(maxGopSize), Some(minBitRate), Some(minGopSize),
                       Some(Elements(profiles)), Some(Elements(rcModes)),
                       Some(VbrMessage(Some(vbr.maxQualityRange), Some(vbr.minQualityRange))));
    }
  }
}
