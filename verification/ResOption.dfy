/**
 The resolution capabilities of cm_res_option.c.  Unlike the other lists, max_frame_rate may hold
 the same rate several times, and only its zeros are printed once.
 */
module ResOption {
  import opened Seqs
  import opened OptionLists
  import opened Slots

  const LIST_SIZE: nat := 60
  const MAX_SIZE: nat := 8
  const RES_SIZE: nat := 8
  const STRM_SIZE: nat := 4

  datatype Res = Res(frameRateList: seq<Rate>, height: int, maxFrameRate: seq<Rate>, width: int)
  datatype ResMessage = ResMessage(frameRateList: Option<seq<Option<Rate>>>, height: Option<int>,
                                   maxFrameRate: Option<seq<Option<Rate>>>, width: Option<int>)

  predicate Sized(r: Res) { |r.frameRateList| == LIST_SIZE && |r.maxFrameRate| == MAX_SIZE }

  function ParseRes(r: Res, msg: Option<ResMessage>): Res {
    if msg.None? then r
    else
      var m := msg.value;
      Res(if m.frameRateList.None? then r.frameRateList else Overlay(r.frameRateList, m.frameRateList.value),
          Given(m.height, r.height),
          if m.maxFrameRate.None? then r.maxFrameRate else OverlayZero(r.maxFrameRate, m.maxFrameRate.value),
          Given(m.width, r.width))
  }

  /**
   Leaf by leaf: a present member replaces its own field and an absent one leaves it; within the
   maximum rates, where they are present, a missing or null element writes a zero.
   */
  lemma ResMerges(r: Res, m: ResMessage)
    ensures var s := ParseRes(r, Some(m));
            && MergedList(s.frameRateList, m.frameRateList, r.frameRateList)
            && Merged(s.height, m.height, r.height) && Merged(s.width, m.width, r.width)
            && |s.maxFrameRate| == |r.maxFrameRate|
            && forall i :: 0 <= i < |r.maxFrameRate| ==>
                 s.maxFrameRate[i] == match m.maxFrameRate
                                      case None => r.maxFrameRate[i]
                                      case Some(xs) => if i < |xs| && xs[i].Some? then xs[i].value else 0.0
    ensures ParseRes(r, None) == r
  {
  }

  function PrintRes(r: Res): ResMessage {
    ResMessage(Some(Elements(Printed(r.frameRateList, ZERO))), Some(r.height),
               Some(Elements(DedupZero(r.maxFrameRate))), Some(r.width))
  }

  lemma OverlayZeroForgets(a: seq<Rate>, b: seq<Rate>, xs: seq<Option<Rate>>)
    requires |a| == |b|
    ensures OverlayZero(a, xs) == OverlayZero(b, xs)
  {
  }

  /**
   A resolution printed, parsed over any other one and printed again gives the same message if and
   only if the other one's leftover frame rates repeat printed ones; its maximum rates never matter.
   */
  lemma ResReprintsIff(r: Res, w: Res)
    requires Sized(r) && Sized(w)
    ensures PrintRes(ParseRes(w, Some(PrintRes(r)))) == PrintRes(r) <==> Covers(r.frameRateList, w.frameRateList, ZERO)
    ensures ParseRes(w, Some(PrintRes(r))).maxFrameRate == ZerosLast(r.maxFrameRate)
  {
    hide Printed, Covers, Overlay, OverlayZero, DedupZero, Elements;
    OverlayZeroForgets(w.maxFrameRate, r.maxFrameRate, Elements(DedupZero(r.maxFrameRate)));
    ResRatesRoundTrip(r.maxFrameRate);
    ReprintsIff(r.frameRateList, w.frameRateList, ZERO);
    var n := ParseRes(w, Some(PrintRes(r)));
    if PrintRes(n) == PrintRes(r) {
      ElementsInjective(Printed(n.frameRateList, ZERO), Printed(r.frameRateList, ZERO));
    }
  }

  lemma ResReprints(r: Res)
    requires Sized(r)
    ensures PrintRes(ParseRes(r, Some(PrintRes(r)))) == PrintRes(r)
  {
    CoversItself(r.frameRateList, ZERO);
    ResReprintsIff(r, r);
  }

  /** Reading back what was printed changes nothing if and only if both lists are in order. */
  lemma ResExactIff(r: Res)
    requires Sized(r)
    ensures ParseRes(r, Some(PrintRes(r))) == r
            <==> ZerosAtEnd(r.maxFrameRate) && RepeatsLast(UpTo(r.frameRateList, ZERO))
  {
    ResReprintsIff(r, r);
    ResRatesRoundTrip(r.maxFrameRate);
    ListExactIff(r.frameRateList, ZERO);
  }

  // ---------- the whole option ----------

  type ResOption = Slots<Slots<Res>>

  function ResParser(): Parser<Res, ResMessage> { (r: Res, msg: Option<ResMessage>) => ParseRes(r, msg) }

  function ResPrinter(): Res -> ResMessage { (r: Res) => PrintRes(r) }

  predicate ValidStream(s: Slots<Res>) {
    |s.items| == RES_SIZE && InRange(s.idx, RES_SIZE) && forall i :: 0 <= i < RES_SIZE ==> Sized(s.items[i])
  }

  predicate ValidOption(data: ResOption) {
    && |data.items| == STRM_SIZE && InRange(data.idx, STRM_SIZE)
    && forall i :: 0 <= i < STRM_SIZE ==> ValidStream(data.items[i])
  }

  lemma StreamReprints(s: Slots<Res>)
    requires ValidStream(s)
    ensures PrintSlots(ResPrinter(), ParseSlots(ResParser(), s, Some(PrintSlots(ResPrinter(), s))))
            == PrintSlots(ResPrinter(), s)
  {
    hide PrintRes, ParseRes;
    forall i | 0 <= i < |s.items| {
      ResReprints(s.items[i]);
    }
    SlotsReprint(ResParser(), ResPrinter(), s);
  }

  /** Print, parse over the same option, print again: the same message. */
  lemma OptionReprints(data: ResOption)
    requires ValidOption(data)
    ensures var parse, print_ := SlotParser(ResParser()), SlotPrinter(ResPrinter());
            PrintSlots(print_, ParseSlots(parse, data, Some(PrintSlots(print_, data)))) == PrintSlots(print_, data)
  {
    var parse, print_ := SlotParser(ResParser()), SlotPrinter(ResPrinter());
    forall i | 0 <= i < |data.items|
      ensures print_(parse(data.items[i], Some(print_(data.items[i])))) == print_(data.items[i])
    {
      StreamReprints(data.items[i]);
    }
    SlotsReprint(parse, print_, data);
  }

  // ---------- runs of messages ----------

  type OptionMessage = Message<Message<ResMessage>>

  lemma ParseKeepsStream(s: Slots<Res>, m: Option<Message<ResMessage>>)
    requires ValidStream(s) && IndexOk(m, RES_SIZE)
    ensures ValidStream(ParseSlots(ResParser(), s, m))
  {
    var r := ParseSlots(ResParser(), s, m);
    forall i | 0 <= i < RES_SIZE ensures Sized(r.items[i]) {
      var _ := SlotReceives(ResParser(), s, m, i);
    }
  }

  lemma ParseKeepsOption(data: ResOption, m: OptionMessage)
    requires ValidOption(data) && IndicesOk(m, STRM_SIZE, RES_SIZE)
    ensures ValidOption(ParseSlots(SlotParser(ResParser()), data, Some(m)))
  {
    hide ValidStream;
    var r := ParseSlots(SlotParser(ResParser()), data, Some(m));
    forall i | 0 <= i < STRM_SIZE ensures ValidStream(r.items[i]) {
      var x := SlotReceives(SlotParser(ResParser()), data, Some(m), i);
      ParseKeepsStream(data.items[i], x);
    }
  }

  /** From any valid option, every run of messages leads to an option whose printing is stable. */
  lemma {:induction false} RunsStayPrintable(start: ResOption, msgs: seq<OptionMessage>)
    requires ValidOption(start) && forall i :: 0 <= i < |msgs| ==> IndicesOk(msgs[i], STRM_SIZE, RES_SIZE)
    ensures var data := ParseRun(SlotParser(ResParser()), start, msgs);
            var parse, print_ := SlotParser(ResParser()), SlotPrinter(ResPrinter());
            && ValidOption(data)
            && PrintSlots(print_, ParseSlots(parse, data, Some(PrintSlots(print_, data)))) == PrintSlots(print_, data)
  {
    hide ValidOption, ParseSlots, PrintSlots, IndicesOk;
    if msgs != [] {
      var k := |msgs| - 1;
      RunsStayPrintable(start, msgs[..k]);
      ParseKeepsOption(ParseRun(SlotParser(ResParser()), start, msgs[..k]), msgs[k]);
    }
    OptionReprints(ParseRun(SlotParser(ResParser()), start, msgs));
  }

  // ---------- the entity in place ----------

  class ResEntity {
    const frameRateList: array<Rate>
    var height: int
    const maxFrameRate: array<Rate>
    var width: int

    ghost predicate Valid() {
      frameRateList.Length == LIST_SIZE && maxFrameRate.Length == MAX_SIZE && frameRateList != maxFrameRate
    }

    ghost function View(): Res
      reads this, frameRateList, maxFrameRate
    {
      Res(frameRateList[..], height, maxFrameRate[..], width)
    }

    constructor (frameRateList: array<Rate>, height: int, maxFrameRate: array<Rate>, width: int)
      requires frameRateList.Length == LIST_SIZE && maxFrameRate.Length == MAX_SIZE && frameRateList != maxFrameRate
      ensures Valid() && this.frameRateList == frameRateList && this.maxFrameRate == maxFrameRate
      ensures View() == Res(frameRateList[..], height, maxFrameRate[..], width)
    {
      this.frameRateList, this.height, this.maxFrameRate, this.width := frameRateList, height, maxFrameRate, width;
    }

    method Parse(msg: Option<ResMessage>)
      requires Valid()
      modifies this, frameRateList, maxFrameRate
      ensures View() == ParseRes(old(View()), msg)
    {
      hide Overlay, OverlayZero;
      if msg.None? {
        return;
      }
      var m := msg.value;
      if m.maxFrameRate.Some? {
        ParseOrZero(maxFrameRate, m.maxFrameRate.value);
      }
      if m.frameRateList.Some? {
        ParseOver(frameRateList, m.frameRateList.value);
      }
      height, width := Given(m.height, height), Given(m.width, width);
    }

    method Comp() returns (m: ResMessage)
      ensures m == PrintRes(View())
    {
      var rates := PrintZeroAware(maxFrameRate[..]);
      var list := PrintList(frameRateList[..], ZERO);
      m := ResMessage(Some(Elements(list)), Some(height), Some(Elements(rates)), Some(width));
    }
  }
}
