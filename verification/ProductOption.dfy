/**
 The product option of cm_product_option.c: four video options, each with eight resolutions and
 three encoders.  Every element is always printed and parsed.
 */
module ProductOption {
  import opened Seqs
  import opened OptionLists
  import opened Slots
  import R = ResOption
  import V = VencOption

  const VIDEO_TYPES := ["NORMAL", "STITCH", "BCD"]
  const NORMAL_TYPE := 0
  const VIDEO_SIZE: nat := 4
  const VIDEO_RES_SIZE: nat := 8
  const VIDEO_VENC_SIZE: nat := 3

  // ---------- resolutions ----------

  const INIT_RES := R.Res(Repeat(ZERO, R.LIST_SIZE), 0, Repeat(ZERO, R.MAX_SIZE), 0)

  /** Missing maximum rates stay as they were. */
  function ParseRates(r: R.Res, msg: Option<R.ResMessage>): R.Res {
    if msg.None? then r
    else
      var m := msg.value;
      R.Res(if m.frameRateList.None? then r.frameRateList else Overlay(r.frameRateList, m.frameRateList.value),
          Given(m.height, r.height),
          if m.maxFrameRate.None? then r.maxFrameRate else Overlay(r.maxFrameRate, m.maxFrameRate.value),
          Given(m.width, r.width))
  }

  /** Leaf by leaf: a present member or element replaces its own value and an absent one leaves it. */
  lemma RatesMerge(r: R.Res, m: R.ResMessage)
    ensures var s := ParseRates(r, Some(m));
            && MergedList(s.frameRateList, m.frameRateList, r.frameRateList)
            && MergedList(s.maxFrameRate, m.maxFrameRate, r.maxFrameRate)
            && Merged(s.height, m.height, r.height) && Merged(s.width, m.width, r.width)
    ensures ParseRates(r, None) == r
  {
  }

  /** No maximum rate is printed twice. */
  function PrintRates(r: R.Res): R.ResMessage {
    R.ResMessage(Some(Elements(Printed(r.frameRateList, ZERO))), Some(r.height),
               Some(Elements(Dedup(r.maxFrameRate))), Some(r.width))
  }

  function RatesParser(): Parser<R.Res, R.ResMessage> { (r: R.Res, msg: Option<R.ResMessage>) => ParseRates(r, msg) }

  function RatesPrinter(): R.Res -> R.ResMessage { (r: R.Res) => PrintRates(r) }

  predicate CoversRes(r: R.Res, w: R.Res) {
    CoversAll(r.maxFrameRate, w.maxFrameRate) && Covers(r.frameRateList, w.frameRateList, ZERO)
  }

  function NormalRes(r: R.Res): R.Res {
    R.Res(Normal(r.frameRateList, ZERO), r.height, NormalRates(r.maxFrameRate), r.width)
  }

  /** Then the first pass does not add a zero to the printed maximum rates. */
  predicate ZeroOrFull(a: seq<Rate>) { ZERO in a || Distinct(a) }

  lemma ResReprintsIff(r: R.Res, w: R.Res)
    requires R.Sized(r) && R.Sized(w)
    ensures Reprints(RatesParser(), RatesPrinter(), r, w) <==> CoversRes(r, w)
  {
    hide Printed, Covers, CoversAll, Overlay, Dedup, Elements;
    ReprintsAllIff(r.maxFrameRate, w.maxFrameRate);
    ReprintsIff(r.frameRateList, w.frameRateList, ZERO);
    var n := ParseRates(w, Some(PrintRates(r)));
    if PrintRates(n) == PrintRates(r) {
      ElementsInjective(Printed(n.frameRateList, ZERO), Printed(r.frameRateList, ZERO));
      ElementsInjective(Dedup(n.maxFrameRate), Dedup(r.maxFrameRate));
    }
  }

  lemma CoversResItself(r: R.Res)
    requires R.Sized(r)
    ensures CoversRes(r, r)
  {
    CoversAllItself(r.maxFrameRate);
    CoversItself(r.frameRateList, ZERO);
  }

  lemma CoversInitIff(r: R.Res)
    requires R.Sized(r)
    ensures CoversRes(r, INIT_RES) <==> ZeroOrFull(r.maxFrameRate)
  {
    CoversAllFreshIff(r.maxFrameRate, ZERO);
    CoversFresh(r.frameRateList, ZERO);
  }

  lemma ResNormalises(r: R.Res)
    requires R.Sized(r)
    ensures ParseRates(INIT_RES, Some(PrintRates(r))) == NormalRes(r)
    ensures R.Sized(NormalRes(r)) && NormalRes(NormalRes(r)) == NormalRes(r)
  {
    NormalIsPadded(r.frameRateList, ZERO);
    NormalRatesStable(r.maxFrameRate);
  }

  // ---------- video options and products ----------

  datatype Video = Video(res: seq<R.Res>, venc: seq<V.Venc>)
  datatype VideoMessage = VideoMessage(res: Option<seq<Option<R.ResMessage>>>, venc: Option<seq<Option<V.VencMessage>>>)
  datatype Product = Product(videoType: int, videoOption: seq<Video>)
  datatype ProductMessage = ProductMessage(videoType: Option<string>, videoOption: Option<seq<Option<VideoMessage>>>)

  const INIT_VIDEO := Video(Repeat(INIT_RES, VIDEO_RES_SIZE), Repeat(V.INIT_VENC, VIDEO_VENC_SIZE))
  const INIT_PRODUCT := Product(NORMAL_TYPE, Repeat(INIT_VIDEO, VIDEO_SIZE))

  predicate ValidVideo(v: Video) {
    && |v.res| == VIDEO_RES_SIZE && (forall i :: 0 <= i < VIDEO_RES_SIZE ==> R.Sized(v.res[i]))
    && |v.venc| == VIDEO_VENC_SIZE && (forall i :: 0 <= i < VIDEO_VENC_SIZE ==> V.ValidVenc(v.venc[i]))
  }

  predicate ValidProduct(p: Product) {
    && V.Named(VIDEO_TYPES, p.videoType)
    && |p.videoOption| == VIDEO_SIZE && forall i :: 0 <= i < VIDEO_SIZE ==> ValidVideo(p.videoOption[i])
  }

  function ParseVideo(v: Video, msg: Option<VideoMessage>): Video {
    if msg.None? then v
    else
      Video(if msg.value.res.None? then v.res else ParseEach(RatesParser(), v.res, msg.value.res.value),
            if msg.value.venc.None? then v.venc else ParseEach(V.VencParser(), v.venc, msg.value.venc.value))
  }

  function PrintVideo(v: Video): VideoMessage {
    VideoMessage(Some(PrintEach(RatesPrinter(), v.res)), Some(PrintEach(V.VencPrinter(), v.venc)))
  }

  function VideoParser(): Parser<Video, VideoMessage> { (v: Video, msg: Option<VideoMessage>) => ParseVideo(v, msg) }

  function VideoPrinter(): Video -> VideoMessage { (v: Video) => PrintVideo(v) }

  function ParseProduct(p: Product, m: ProductMessage): Product {
    Product(V.ParseName(VIDEO_TYPES, p.videoType, m.videoType),
            if m.videoOption.None? then p.videoOption else ParseEach(VideoParser(), p.videoOption, m.videoOption.value))
  }

  function PrintProduct(p: Product): ProductMessage {
    ProductMessage(Some(V.NameOf(VIDEO_TYPES, p.videoType)), Some(PrintEach(VideoPrinter(), p.videoOption)))
  }

  /** Element `i` of a list of messages, if the list is there and has one. */
  function Element<M>(ms: Option<seq<Option<M>>>, i: nat): Option<M> {
    if ms.Some? && i < |ms.value| then ms.value[i] else None
  }

  /** Each resolution and each encoder receives its own element, or nothing. */
  lemma VideoMerges(v: Video, m: VideoMessage)
    ensures var r := ParseVideo(v, Some(m));
            && |r.res| == |v.res| && |r.venc| == |v.venc|
            && (forall i :: 0 <= i < |v.res| ==> r.res[i] == ParseRates(v.res[i], Element(m.res, i)))
            && (forall i :: 0 <= i < |v.venc| ==> r.venc[i] == V.ParseVenc(v.venc[i], Element(m.venc, i)))
    ensures ParseVideo(v, None) == v
  {
    hide ParseRates, V.ParseVenc;
    var r := ParseVideo(v, Some(m));
    forall i | 0 <= i < |v.res| ensures r.res[i] == ParseRates(v.res[i], Element(m.res, i)) {
      NothingParsed(v.res[i]);
      assert m.res.Some? ==> Element(m.res, i) == ItemAt(m.res.value, i);
    }
    forall i | 0 <= i < |v.venc| ensures r.venc[i] == V.ParseVenc(v.venc[i], Element(m.venc, i)) {
      NoVenc(v.venc[i]);
      assert m.venc.Some? ==> Element(m.venc, i) == ItemAt(m.venc.value, i);
    }
  }

  lemma NothingParsed(r: R.Res)
    ensures ParseRates(r, None) == r
  {
  }

  lemma NoVenc(v: V.Venc)
    ensures V.ParseVenc(v, None) == v
  {
  }

  lemma NoVideo(v: Video)
    ensures ParseVideo(v, None) == v
  {
  }

  /** So does each video option; the video type changes only to a known one. */
  lemma ProductMerges(p: Product, m: ProductMessage)
    ensures var r := ParseProduct(p, m);
            && V.MergedName(VIDEO_TYPES, r.videoType, m.videoType, p.videoType)
            && |r.videoOption| == |p.videoOption|
            && forall i :: 0 <= i < |p.videoOption| ==>
                 r.videoOption[i] == ParseVideo(p.videoOption[i], Element(m.videoOption, i))
  {
    hide ParseVideo, V.ParseName;
    V.NameMerged(VIDEO_TYPES, m.videoType, p.videoType);
    var r := ParseProduct(p, m);
    forall i | 0 <= i < |p.videoOption|
      ensures r.videoOption[i] == ParseVideo(p.videoOption[i], Element(m.videoOption, i))
    {
      NoVideo(p.videoOption[i]);
      assert m.videoOption.Some? ==> Element(m.videoOption, i) == ItemAt(m.videoOption.value, i);
    }
  }

  // ---------- printing again ----------

  predicate CoversVenc(v: V.Venc, w: V.Venc) {
    Covers(v.profile, w.profile, V.PRFL_NONE) && Covers(v.rcMode, w.rcMode, V.RC_MODE_NONE)
  }

  predicate CoversVideo(v: Video, w: Video)
    requires ValidVideo(v) && ValidVideo(w)
  {
    && (forall j :: 0 <= j < VIDEO_RES_SIZE ==> CoversRes(v.res[j], w.res[j]))
    && (forall j :: 0 <= j < VIDEO_VENC_SIZE ==> CoversVenc(v.venc[j], w.venc[j]))
  }

  lemma VideoReprintsIff(v: Video, w: Video)
    requires ValidVideo(v) && ValidVideo(w)
    ensures Reprints(VideoParser(), VideoPrinter(), v, w) <==> CoversVideo(v, w)
  {
    hide ParseEach, PrintEach, V.ValidVenc, R.Sized, CoversRes, Covers;
    hide V.ParseVenc, V.PrintVenc, ParseRates, PrintRates;
    EachReprintsIff(RatesParser(), RatesPrinter(), v.res, w.res);
    EachReprintsIff(V.VencParser(), V.VencPrinter(), v.venc, w.venc);
    forall j | 0 <= j < VIDEO_RES_SIZE
      ensures Reprints(RatesParser(), RatesPrinter(), v.res[j], w.res[j]) <==> CoversRes(v.res[j], w.res[j])
    {
      ResReprintsIff(v.res[j], w.res[j]);
    }
    forall j | 0 <= j < VIDEO_VENC_SIZE
      ensures Reprints(V.VencParser(), V.VencPrinter(), v.venc[j], w.venc[j]) <==> CoversVenc(v.venc[j], w.venc[j])
    {
      V.VencReprintsIff(v.venc[j], w.venc[j]);
    }
  }

  lemma VideoTypeReadsBack(v: int)
    requires V.Named(VIDEO_TYPES, v)
    ensures V.IndexOf(VIDEO_TYPES, V.NameOf(VIDEO_TYPES, v)) == Some(v)
  {
    assert VIDEO_TYPES[0][0] == 'N' && VIDEO_TYPES[1][0] == 'S' && VIDEO_TYPES[2][0] == 'B';
    V.NameReadsBack(VIDEO_TYPES, v);
  }

  /**
   A product option printed, parsed over another one and printed again gives the same message if
   and only if, resolution by resolution and encoder by encoder, what the other one has left behind
   the printed values repeats them.
   */
  lemma ProductReprintsIff(p: Product, w: Product)
    requires ValidProduct(p) && ValidProduct(w)
    ensures PrintProduct(ParseProduct(w, PrintProduct(p))) == PrintProduct(p)
            <==> forall i :: 0 <= i < VIDEO_SIZE ==> CoversVideo(p.videoOption[i], w.videoOption[i])
  {
    hide ParseEach, PrintEach, CoversVideo, ParseVideo, PrintVideo, ValidVideo;
    VideoTypeReadsBack(p.videoType);
    EachReprintsIff(VideoParser(), VideoPrinter(), p.videoOption, w.videoOption);
    forall i | 0 <= i < VIDEO_SIZE
      ensures Reprints(VideoParser(), VideoPrinter(), p.videoOption[i], w.videoOption[i])
              <==> CoversVideo(p.videoOption[i], w.videoOption[i])
    {
      VideoReprintsIff(p.videoOption[i], w.videoOption[i]);
    }
  }

  /** Over itself it always does. */
  lemma ProductReprints(p: Product)
    requires ValidProduct(p)
    ensures PrintProduct(ParseProduct(p, PrintProduct(p))) == PrintProduct(p)
  {
    hide CoversRes, Covers, CoversAll, PrintProduct, ParseProduct;
    forall i | 0 <= i < VIDEO_SIZE ensures CoversVideo(p.videoOption[i], p.videoOption[i]) {
      var v := p.videoOption[i];
      forall j | 0 <= j < VIDEO_RES_SIZE ensures CoversRes(v.res[j], v.res[j]) {
        CoversResItself(v.res[j]);
      }
      forall j | 0 <= j < VIDEO_VENC_SIZE ensures CoversVenc(v.venc[j], v.venc[j]) {
        CoversItself(v.venc[j].profile, V.PRFL_NONE);
        CoversItself(v.venc[j].rcMode, V.RC_MODE_NONE);
      }
    }
    ProductReprintsIff(p, p);
  }

  // ---------- the normal form ----------

  function NormalVideo(v: Video): Video {
    Video(Map((r: R.Res) => NormalRes(r), v.res), Map((e: V.Venc) => V.NormalVenc(e), v.venc))
  }

  function NormalProduct(p: Product): Product {
    p.(videoOption := Map((v: Video) => NormalVideo(v), p.videoOption))
  }

  /** What remains of a product option after being printed and parsed into a fresh one. */
  function Normalise(p: Product): Product { ParseProduct(INIT_PRODUCT, PrintProduct(p)) }

  lemma EachNormalises<T, M>(parse: Parser<T, M>, print_: T -> M, init: T, normal: T -> T, xs: seq<T>)
    requires forall i :: 0 <= i < |xs| ==> parse(init, Some(print_(xs[i]))) == normal(xs[i])
    ensures ParseEach(parse, Repeat(init, |xs|), PrintEach(print_, xs)) == Map(normal, xs)
  {
    MapAt(normal, xs);
    var ms := PrintEach(print_, xs);
    forall i | 0 <= i < |xs| ensures ParseEach(parse, Repeat(init, |xs|), ms)[i] == Map(normal, xs)[i] {
      assert ItemAt(ms, i) == Some(print_(xs[i]));
    }
  }

  lemma VideoNormalises(v: Video)
    requires ValidVideo(v)
    ensures ParseVideo(INIT_VIDEO, Some(PrintVideo(v))) == NormalVideo(v)
    ensures ValidVideo(NormalVideo(v)) && NormalVideo(NormalVideo(v)) == NormalVideo(v)
  {
    hide ParseRates, PrintRates, V.ParseVenc, V.PrintVenc, NormalRes, V.NormalVenc;
    hide V.ValidVenc, R.Sized, ParseEach, PrintEach;
    var res, venc := (r: R.Res) => NormalRes(r), (e: V.Venc) => V.NormalVenc(e);
    var n := NormalVideo(v);
    MapAt(res, v.res);
    MapAt(venc, v.venc);
    MapAt(res, n.res);
    MapAt(venc, n.venc);
    forall j | 0 <= j < VIDEO_RES_SIZE
      ensures R.Sized(n.res[j]) && res(n.res[j]) == n.res[j]
      ensures RatesParser()(INIT_RES, Some(RatesPrinter()(v.res[j]))) == res(v.res[j])
    {
      ResNormalises(v.res[j]);
    }
    forall j | 0 <= j < VIDEO_VENC_SIZE
      ensures V.ValidVenc(n.venc[j]) && venc(n.venc[j]) == n.venc[j]
      ensures V.VencParser()(V.INIT_VENC, Some(V.VencPrinter()(v.venc[j]))) == venc(v.venc[j])
    {
      V.VencNormalises(v.venc[j]);
    }
    EachNormalises(RatesParser(), RatesPrinter(), INIT_RES, res, v.res);
    EachNormalises(V.VencParser(), V.VencPrinter(), V.INIT_VENC, venc, v.venc);
  }

  /** Normalising puts every list of every element in normal form, and doing it twice changes no more. */
  lemma NormaliseIsIdempotent(p: Product)
    requires ValidProduct(p)
    ensures Normalise(p) == NormalProduct(p) && ValidProduct(Normalise(p))
    ensures Normalise(Normalise(p)) == Normalise(p)
  {
    NormaliseIsNormal(p);
    NormaliseIsNormal(NormalProduct(p));
  }

  lemma NormaliseIsNormal(p: Product)
    requires ValidProduct(p)
    ensures Normalise(p) == NormalProduct(p) && ValidProduct(NormalProduct(p))
    ensures NormalProduct(NormalProduct(p)) == NormalProduct(p)
  {
    hide ParseVideo, PrintVideo, NormalVideo, ValidVideo, ParseEach, PrintEach;
    var video := (v: Video) => NormalVideo(v);
    var n := NormalProduct(p);
    VideoTypeReadsBack(p.videoType);
    MapAt(video, p.videoOption);
    MapAt(video, n.videoOption);
    forall i | 0 <= i < VIDEO_SIZE
      ensures ValidVideo(n.videoOption[i]) && video(n.videoOption[i]) == n.videoOption[i]
      ensures VideoParser()(INIT_VIDEO, Some(VideoPrinter()(p.videoOption[i]))) == video(p.videoOption[i])
    {
      VideoNormalises(p.videoOption[i]);
    }
    EachNormalises(VideoParser(), VideoPrinter(), INIT_VIDEO, video, p.videoOption);
  }

  /**
   The first pass keeps what is printed if and only if every resolution has a zero among its
   maximum rates or eight different ones; otherwise it adds a zero.
   */
  lemma NormalisePrintsSameIff(p: Product)
    requires ValidProduct(p)
    ensures PrintProduct(Normalise(p)) == PrintProduct(p)
            <==> forall i, j :: 0 <= i < VIDEO_SIZE && 0 <= j < VIDEO_RES_SIZE
                                ==> ZeroOrFull(p.videoOption[i].res[j].maxFrameRate)
  {
    hide CoversRes, Covers, CoversAll, PrintProduct, ParseProduct, ZeroOrFull;
    InitIsValid();
    ProductReprintsIff(p, INIT_PRODUCT);
    forall i | 0 <= i < VIDEO_SIZE
      ensures CoversVideo(p.videoOption[i], INIT_VIDEO)
              <==> forall j :: 0 <= j < VIDEO_RES_SIZE ==> ZeroOrFull(p.videoOption[i].res[j].maxFrameRate)
    {
      var v := p.videoOption[i];
      forall j | 0 <= j < VIDEO_RES_SIZE
        ensures CoversRes(v.res[j], INIT_VIDEO.res[j]) <==> ZeroOrFull(v.res[j].maxFrameRate)
      {
        CoversInitIff(v.res[j]);
      }
      forall j | 0 <= j < VIDEO_VENC_SIZE ensures CoversVenc(v.venc[j], INIT_VIDEO.venc[j]) {
        CoversFresh(v.venc[j].profile, V.PRFL_NONE);
        CoversFresh(v.venc[j].rcMode, V.RC_MODE_NONE);
      }
    }
  }

  lemma InitIsValid()
    ensures ValidProduct(INIT_PRODUCT) && ValidVideo(INIT_VIDEO)
  {
  }

  // ---------- runs of messages ----------

  function ParseProducts(p: Product, ms: seq<ProductMessage>): Product {
    if ms == [] then p
    else
      var k := |ms| - 1;
      ParseProduct(ParseProducts(p, ms[..k]), ms[k])
  }

  lemma ParseKeepsVideo(v: Video, msg: Option<VideoMessage>)
    requires ValidVideo(v)
    ensures ValidVideo(ParseVideo(v, msg))
  {
    hide V.ParseVenc, V.ValidVenc, ParseRates, R.Sized;
    var w := ParseVideo(v, msg);
    if msg.Some? {
      forall i | 0 <= i < VIDEO_RES_SIZE ensures R.Sized(w.res[i]) {
        if msg.value.res.Some? {
          ParseKeepsSize(v.res[i], ItemAt(msg.value.res.value, i));
        }
      }
      forall i | 0 <= i < VIDEO_VENC_SIZE ensures V.ValidVenc(w.venc[i]) {
        if msg.value.venc.Some? {
          V.ParseKeepsValid(v.venc[i], ItemAt(msg.value.venc.value, i));
        }
      }
    }
  }

  lemma ParseKeepsSize(r: R.Res, msg: Option<R.ResMessage>)
    requires R.Sized(r)
    ensures R.Sized(ParseRates(r, msg))
  {
  }

  lemma ParseKeepsProduct(p: Product, m: ProductMessage)
    requires ValidProduct(p)
    ensures ValidProduct(ParseProduct(p, m))
  {
    hide ParseVideo, ValidVideo;
    var q := ParseProduct(p, m);
    forall i | 0 <= i < VIDEO_SIZE ensures ValidVideo(q.videoOption[i]) {
      if m.videoOption.Some? {
        ParseKeepsVideo(p.videoOption[i], ItemAt(m.videoOption.value, i));
      }
    }
  }

  /**
   From init_product_option, no run of messages leads to a product option that cannot be printed,
   whose printing is not stable, or that normalising does not put in normal form.
   */
  lemma {:induction false} RunsStayPrintable(ms: seq<ProductMessage>)
    ensures var p := ParseProducts(INIT_PRODUCT, ms);
            && ValidProduct(p)
            && PrintProduct(ParseProduct(p, PrintProduct(p))) == PrintProduct(p)
            && Normalise(p) == NormalProduct(p) == Normalise(Normalise(p))
  {
    hide ValidProduct, ParseProduct, PrintProduct, NormalProduct, Normalise;
    if ms == [] {
      InitIsValid();
    } else {
      var k := |ms| - 1;
      RunsStayPrintable(ms[..k]);
      ParseKeepsProduct(ParseProducts(INIT_PRODUCT, ms[..k]), ms[k]);
    }
    ProductReprints(ParseProducts(INIT_PRODUCT, ms));
    NormaliseIsIdempotent(ParseProducts(INIT_PRODUCT, ms));
  }

  // ---------- the structures in place ----------

  class RatesEntity {
    const frameRateList: array<Rate>
    var height: int
    const maxFrameRate: array<Rate>
    var width: int

    ghost predicate Valid() {
      frameRateList.Length == R.LIST_SIZE && maxFrameRate.Length == R.MAX_SIZE && frameRateList != maxFrameRate
    }

    ghost function View(): R.Res
      reads this, frameRateList, maxFrameRate
    {
      R.Res(frameRateList[..], height, maxFrameRate[..], width)
    }

    constructor ()
      ensures Valid() && fresh(frameRateList) && fresh(maxFrameRate)
      ensures View() == INIT_RES
    {
      frameRateList, maxFrameRate := new Rate[R.LIST_SIZE], new Rate[R.MAX_SIZE];
      height, width := 0, 0;
      new;
      Init();
    }

    method Init()
      requires Valid()
      modifies this, frameRateList, maxFrameRate
      ensures View() == INIT_RES
      ensures height == width == 0
      ensures forall i :: 0 <= i < frameRateList.Length ==> frameRateList[i] == 0.0
      ensures forall i :: 0 <= i < maxFrameRate.Length ==> maxFrameRate[i] == 0.0
    {
      Fill(maxFrameRate, ZERO);
      Fill(frameRateList, ZERO);
      height, width := 0, 0;
    }

    method Parse(msg: Option<R.ResMessage>)
      requires Valid()
      modifies this, frameRateList, maxFrameRate
      ensures View() == ParseRates(old(View()), msg)
    {
      hide Overlay;
      if msg.None? {
        return;
      }
      var m := msg.value;
      if m.maxFrameRate.Some? {
        ParseOver(maxFrameRate, m.maxFrameRate.value);
      }
      if m.frameRateList.Some? {
        ParseOver(frameRateList, m.frameRateList.value);
      }
      height, width := Given(m.height, height), Given(m.width, width);
    }

    method Comp() returns (m: R.ResMessage)
      ensures m == PrintRates(View())
    {
      var rates := PrintOnce(maxFrameRate[..]);
      var list := PrintList(frameRateList[..], ZERO);
      m := R.ResMessage(Some(Elements(list)), Some(height), Some(Elements(rates)), Some(width));
    }
  }

  class ProductEntity {
    var videoType: int
    const videoOption: array<Video>

    ghost function View(): Product
      reads this, videoOption
    {
      Product(videoType, videoOption[..])
    }

    constructor ()
      ensures videoOption.Length == VIDEO_SIZE && fresh(videoOption)
      ensures View() == INIT_PRODUCT
    {
      videoType := NORMAL_TYPE;
      videoOption := new Video[VIDEO_SIZE](_ => INIT_VIDEO);
      new;
      Init();
    }

    method Init()
      requires videoOption.Length == VIDEO_SIZE
      modifies this, videoOption
      ensures View() == INIT_PRODUCT
      ensures videoType == 0
      ensures forall i, j :: 0 <= i < VIDEO_SIZE && 0 <= j < VIDEO_RES_SIZE ==> videoOption[i].res[j] == INIT_RES
      ensures forall i, j :: 0 <= i < VIDEO_SIZE && 0 <= j < VIDEO_VENC_SIZE ==> videoOption[i].venc[j] == V.INIT_VENC
    {
      videoType := NORMAL_TYPE;
      Fill(videoOption, INIT_VIDEO);
    }

    method Parse(m: ProductMessage)
      modifies this, videoOption
      ensures View() == ParseProduct(old(View()), m)
    {
      hide ParseVideo, ParseEach;
      if m.videoType.Some? {
        var i := V.FindName(VIDEO_TYPES, m.videoType.value);
        if i.Some? {
          videoType := i.value;
        }
      }
      if m.videoOption.Some? {
        ParseArray(VideoParser(), videoOption, m.videoOption.value);
      }
    }

    method Comp() returns (m: ProductMessage)
      requires V.Named(VIDEO_TYPES, videoType)
      ensures m == PrintProduct(View())
    {
      hide PrintVideo, PrintEach;
      var videos := CompArray(VideoPrinter(), videoOption);
      m := ProductMessage(Some(VIDEO_TYPES[videoType]), Some(videos));
    }
  }
}
