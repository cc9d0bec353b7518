/**
 The lists inside the capability options: fixed-size arrays with a sentinel, printed without
 repetitions up to the sentinel and parsed over whatever the array held before.
 */
module OptionLists {
  import opened Seqs

  /** A frame rate or quality factor; only equality and zero matter. */
  type Rate = real

  const ZERO: Rate := 0.0

  // ---------- printing ----------

  /** The elements before the first `stop`. */
  function UpTo<T(==)>(s: seq<T>, stop: T): seq<T> {
    if s == [] || s[0] == stop then [] else [s[0]] + UpTo(s[1..], stop)
  }

  /** First occurrences only. */
  function Dedup<T(==)>(s: seq<T>): seq<T> {
    if s == [] then []
    else
      var k := |s| - 1;
      var d := Dedup(s[..k]);
      if s[k] in d then d else d + [s[k]]
  }

  /** Only the first zero, and everything else. */
  function DedupZero(s: seq<Rate>): seq<Rate> {
    if s == [] then []
    else
      var k := |s| - 1;
      var d := DedupZero(s[..k]);
      if s[k] == ZERO && ZERO in d then d else d + [s[k]]
  }

  // ---------- parsing ----------

  /** A member a message does not have leaves the field as it was. */
  function Given<T>(x: Option<T>, kept: T): T { if x.Some? then x.value else kept }

  /** What an optional member does to a value: it replaces it, or leaves it. */
  predicate Merged<T(==)>(after: T, x: Option<T>, before: T) {
    match x
    case Some(v) => after == v
    case None => after == before
  }

  /** An element a message does not have, or has as null, leaves the array element as it was. */
  function Overlay<T>(a: seq<T>, xs: seq<Option<T>>): (r: seq<T>)
    ensures |r| == |a|
  {
    seq(|a|, i requires 0 <= i < |a| => if i < |xs| && xs[i].Some? then xs[i].value else a[i])
  }

  /** The res option instead writes a zero there. */
  function OverlayZero(a: seq<Rate>, xs: seq<Option<Rate>>): (r: seq<Rate>)
    ensures |r| == |a|
  {
    seq(|a|, i requires 0 <= i < |a| => if i < |xs| && xs[i].Some? then xs[i].value else ZERO)
  }

  /** A printed list as the elements of a message. */
  function Elements<T>(s: seq<T>): (r: seq<Option<T>>)
    ensures |r| == |s|
  {
    seq(|s|, i requires 0 <= i < |s| => Some(s[i]))
  }

  /** The same for a list, element by element. */
  predicate MergedList<T(==)>(after: seq<T>, xs: Option<seq<Option<T>>>, before: seq<T>) {
    && |after| == |before|
    && forall i :: 0 <= i < |before| ==>
         Merged(after[i], if xs.Some? && i < |xs.value| then xs.value[i] else None, before[i])
  }

  function Repeat<T>(x: T, n: nat): (r: seq<T>)
    ensures |r| == n
  {
    seq(n, i => x)
  }

  // ---------- first occurrences ----------

  lemma ElementsInjective<T>(p: seq<T>, q: seq<T>)
    requires Elements(p) == Elements(q)
    ensures p == q
  {
    forall i | 0 <= i < |p| ensures p[i] == q[i] {
      assert Elements(p)[i] == Elements(q)[i];
    }
  }

  predicate Distinct<T(==)>(s: seq<T>) { forall i, j :: 0 <= i < j < |s| ==> s[i] != s[j] }

  lemma {:induction false} DedupElements<T>(s: seq<T>)
    ensures Distinct(Dedup(s)) && |Dedup(s)| <= |s|
    ensures forall x :: x in Dedup(s) <==> x in s
  {
    if s != [] {
      var k := |s| - 1;
      DedupElements(s[..k]);
      assert s == s[..k] + [s[k]];
    }
  }

  function IndexIn<T(==)>(s: seq<T>, x: T): (i: nat)
    requires x in s
    ensures i < |s| && s[i] == x && x !in s[..i]
  {
    if s[0] == x then 0 else
      var i := IndexIn(s[1..], x);
      assert s[..i + 1] == [s[0]] + s[1..][..i];
      i + 1
  }

  lemma IndexInPrefix<T>(s: seq<T>, t: seq<T>, x: T)
    requires x in s
    ensures x in s + t && IndexIn(s + t, x) == IndexIn(s, x)
  {
    var i, j := IndexIn(s, x), IndexIn(s + t, x);
    assert (s + t)[i] == x;
    forall k | 0 <= k < i ensures (s + t)[k] != x {
      assert s[k] in s[..i];
    }
    forall k | 0 <= k < j ensures (s + t)[k] != x {
      assert (s + t)[k] in (s + t)[..j];
    }
  }

  /** The printed order is the order in which values first occur. */
  lemma {:induction false} DedupKeepsOrder<T>(s: seq<T>, x: T, y: T)
    requires x in s && y in s
    ensures x in Dedup(s) && y in Dedup(s)
    ensures IndexIn(Dedup(s), x) < IndexIn(Dedup(s), y) <==> IndexIn(s, x) < IndexIn(s, y)
  {
    DedupElements(s);
    var k := |s| - 1;
    var t, d := s[..k], Dedup(s[..k]);
    assert s == t + [s[k]];
    DedupElements(t);
    OldOrNew(s, x);
    OldOrNew(s, y);
    if x in t && y in t {
      DedupKeepsOrder(t, x, y);
    }
  }

  /** Where a value of a longer list stands, in it and among its first occurrences. */
  lemma OldOrNew<T>(s: seq<T>, x: T)
    requires x in s
    ensures var k := |s| - 1;
            var t, d := s[..k], Dedup(s[..k]);
            && x in Dedup(s)
            && (x in t ==> x in d && IndexIn(s, x) == IndexIn(t, x) < k && IndexIn(Dedup(s), x) == IndexIn(d, x) < |d|)
            && (x !in t ==> x == s[k] && IndexIn(s, x) == k && IndexIn(Dedup(s), x) == |d|)
  {
    var k := |s| - 1;
    var t, d := s[..k], Dedup(s[..k]);
    assert s == t + [s[k]];
    DedupElements(t);
    DedupElements(s);
    if x in t {
      IndexInPrefix(t, [s[k]], x);
      if s[k] !in d {
        IndexInPrefix(d, [s[k]], x);
      }
    } else {
      assert x == s[k];
      var i, j := IndexIn(s, x), IndexIn(Dedup(s), x);
      assert forall m :: 0 <= m < k ==> s[m] in t;
      assert forall m :: 0 <= m < |d| ==> Dedup(s)[m] in d;
    }
  }

  lemma {:induction false} DedupDistinct<T>(p: seq<T>)
    requires Distinct(p)
    ensures Dedup(p) == p
  {
    if p != [] {
      var k := |p| - 1;
      DedupDistinct(p[..k]);
      assert p == p[..k] + [p[k]];
      assert p[k] !in p[..k];
    }
  }

  lemma {:induction false} DedupAbsorbs<T>(p: seq<T>, r: seq<T>)
    requires Distinct(p)
    ensures Dedup(p + r) == p <==> forall x :: x in r ==> x in p
  {
    if r == [] {
      assert p + r == p;
      DedupDistinct(p);
    } else {
      var k := |r| - 1;
      assert (p + r)[..|p + r| - 1] == p + r[..k] && (p + r)[|p + r| - 1] == r[k];
      assert r == r[..k] + [r[k]];
      DedupAbsorbs(p, r[..k]);
      DedupElements(p + r);
      DedupElements(p + r[..k]);
      if Dedup(p + r) == p {
        forall x | x in r ensures x in p {
          assert x in p + r;
        }
      }
    }
  }

  // ---------- lists with a sentinel ----------

  lemma {:induction false} UpToParts<T>(s: seq<T>, stop: T)
    ensures stop !in UpTo(s, stop) && UpTo(s, stop) <= s
    ensures |UpTo(s, stop)| < |s| ==> s[|UpTo(s, stop)|] == stop
  {
    if s != [] && s[0] != stop {
      UpToParts(s[1..], stop);
    }
  }

  lemma {:induction false} UpToAppend<T>(p: seq<T>, s: seq<T>, stop: T)
    requires stop !in p
    ensures UpTo(p + s, stop) == p + UpTo(s, stop)
  {
    if p == [] {
      assert p + s == s;
    } else {
      assert (p + s)[1..] == p[1..] + s;
      UpToAppend(p[1..], s, stop);
    }
  }

  /** What a list with sentinel `stop` is printed as. */
  function Printed<T(==)>(a: seq<T>, stop: T): seq<T> { Dedup(UpTo(a, stop)) }

  lemma PrintedParts<T>(a: seq<T>, stop: T)
    ensures var p := Printed(a, stop);
            Distinct(p) && stop !in p && |p| <= |UpTo(a, stop)| <= |a|
  {
    UpToParts(a, stop);
    DedupElements(UpTo(a, stop));
  }

  lemma OverlayElements<T>(b: seq<T>, p: seq<T>)
    requires |p| <= |b|
    ensures Overlay(b, Elements(p)) == p + b[|p|..]
  {
  }

  /** What `b` holds behind the values printed for `a`, up to its sentinel, repeats those values. */
  predicate Covers<T(==)>(a: seq<T>, b: seq<T>, stop: T) {
    var p := Printed(a, stop);
    |p| <= |b| && forall x :: x in UpTo(b[|p|..], stop) ==> x in p
  }

  /** Exactly then a list printed from array `a` and parsed over array `b` is printed again as it was. */
  lemma ReprintsIff<T>(a: seq<T>, b: seq<T>, stop: T)
    requires |a| == |b|
    ensures Printed(Overlay(b, Elements(Printed(a, stop))), stop) == Printed(a, stop) <==> Covers(a, b, stop)
  {
    var p := Printed(a, stop);
    PrintedParts(a, stop);
    OverlayElements(b, p);
    UpToAppend(p, b[|p|..], stop);
    DedupAbsorbs(p, UpTo(b[|p|..], stop));
  }

  /** Parsed over the array it was printed from, a list always reprints. */
  lemma ReprintsOverItself<T>(a: seq<T>, stop: T)
    ensures Printed(Overlay(a, Elements(Printed(a, stop))), stop) == Printed(a, stop)
  {
    CoversItself(a, stop);
    ReprintsIff(a, a, stop);
  }

  lemma CoversItself<T>(a: seq<T>, stop: T)
    ensures Covers(a, a, stop)
  {
    var p, u := Printed(a, stop), UpTo(a, stop);
    PrintedParts(a, stop);
    UpToParts(a, stop);
    DedupElements(u);
    assert a == u[..|p|] + a[|p|..];
    assert stop !in u[..|p|] by {
      forall i | 0 <= i < |p| ensures u[i] != stop { assert u[i] in u; }
    }
    UpToAppend(u[..|p|], a[|p|..], stop);
    forall x | x in UpTo(a[|p|..], stop) ensures x in p {
      assert x in u;
    }
  }

  predicate Repeats<T(==)>(s: seq<T>, i: nat)
    requires i < |s|
  {
    s[i] in s[..i]
  }

  /** No value occurs for the first time behind a repetition. */
  predicate RepeatsLast<T(==)>(s: seq<T>) {
    forall i, j | 0 <= i < j < |s| && Repeats(s, i) :: Repeats(s, j)
  }

  lemma RepeatsSnoc<T>(t: seq<T>, x: T)
    ensures forall i :: 0 <= i < |t| ==> (Repeats(t + [x], i) <==> Repeats(t, i))
    ensures Repeats(t + [x], |t|) <==> x in t
  {
    forall i | 0 <= i < |t| ensures Repeats(t + [x], i) <==> Repeats(t, i) {
      assert (t + [x])[..i] == t[..i];
    }
    assert (t + [x])[..|t|] == t;
  }

  lemma {:induction false} DedupShortensIff<T>(s: seq<T>)
    ensures |Dedup(s)| == |s| ==> Dedup(s) == s
    ensures |Dedup(s)| < |s| <==> exists i :: 0 <= i < |s| && Repeats(s, i)
  {
    DedupElements(s);
    if s != [] {
      var k := |s| - 1;
      var t, x := s[..k], s[k];
      assert s == t + [x];
      DedupShortensIff(t);
      DedupElements(t);
      RepeatsSnoc(t, x);
      if |Dedup(t)| < |t| {
        var i :| 0 <= i < |t| && Repeats(t, i);
        assert Repeats(s, i);
      }
    }
  }

  lemma {:induction false} DedupIsPrefixIff<T>(s: seq<T>)
    ensures |Dedup(s)| <= |s|
    ensures Dedup(s) == s[..|Dedup(s)|] <==> RepeatsLast(s)
  {
    DedupElements(s);
    if s != [] {
      var k := |s| - 1;
      var t, x := s[..k], s[k];
      assert s == t + [x];
      DedupIsPrefixIff(t);
      DedupElements(t);
      DedupShortensIff(t);
      RepeatsSnoc(t, x);
      var d := Dedup(t);
      assert RepeatsLast(s) <==> RepeatsLast(t) && (|d| < |t| ==> x in t);
      if x in t {
        assert s[..|d|] == t[..|d|];
      } else if |d| < |t| {
        assert s[..|d| + 1][|d|] == t[|d|];
      }
    }
  }

  /** A list comes back exactly as it was if and only if its repetitions stand behind its new values. */
  lemma ListExactIff<T>(a: seq<T>, stop: T)
    ensures Overlay(a, Elements(Printed(a, stop))) == a <==> RepeatsLast(UpTo(a, stop))
  {
    var u, p := UpTo(a, stop), Printed(a, stop);
    UpToParts(a, stop);
    DedupIsPrefixIff(u);
    OverlayElements(a, p);
    assert a == a[..|p|] + a[|p|..];
    assert u[..|p|] == a[..|p|];
  }

  /** A list in normal form: the printed values, then the sentinel to the end. */
  function Normal<T(==)>(a: seq<T>, stop: T): (r: seq<T>) {
    Overlay(Repeat(stop, |a|), Elements(Printed(a, stop)))
  }

  lemma {:induction false} UpToRepeat<T>(stop: T, s: seq<T>)
    requires s != [] ==> s[0] == stop
    ensures UpTo(s, stop) == []
  {
  }

  lemma NormalIsPadded<T>(a: seq<T>, stop: T)
    ensures var p := Printed(a, stop);
            |p| <= |a| && Normal(a, stop) == p + Repeat(stop, |a| - |p|)
    ensures Printed(Normal(a, stop), stop) == Printed(a, stop)
    ensures Normal(Normal(a, stop), stop) == Normal(a, stop)
  {
    var p := Printed(a, stop);
    PrintedParts(a, stop);
    OverlayElements(Repeat(stop, |a|), p);
    var rest := Repeat(stop, |a|)[|p|..];
    assert rest == Repeat(stop, |a| - |p|);
    UpToAppend(p, rest, stop);
    UpToRepeat(stop, rest);
    assert p + [] == p;
    DedupDistinct(p);
  }

  /** Over a freshly initialised array a list always reprints. */
  lemma CoversFresh<T>(a: seq<T>, stop: T)
    ensures Covers(a, Repeat(stop, |a|), stop)
  {
    var p := Printed(a, stop);
    PrintedParts(a, stop);
    UpToRepeat(stop, Repeat(stop, |a|)[|p|..]);
  }

  // ---------- the max_frame_rate of a product option ----------

  /** All eight values are printed, without repetitions; parsing starts from zeros. */
  function NormalRates(a: seq<Rate>): (r: seq<Rate>) { Overlay(Repeat(ZERO, |a|), Elements(Dedup(a))) }

  /** What `b` holds behind the values printed for all of `a` repeats them. */
  predicate CoversAll<T(==)>(a: seq<T>, b: seq<T>) {
    |Dedup(a)| <= |b| && forall x :: x in b[|Dedup(a)|..] ==> x in Dedup(a)
  }

  lemma ReprintsAllIff<T>(a: seq<T>, b: seq<T>)
    requires |a| == |b|
    ensures Dedup(Overlay(b, Elements(Dedup(a)))) == Dedup(a) <==> CoversAll(a, b)
  {
    var p := Dedup(a);
    DedupElements(a);
    OverlayElements(b, p);
    DedupAbsorbs(p, b[|p|..]);
  }

  lemma CoversAllItself<T>(a: seq<T>)
    ensures CoversAll(a, a)
  {
    DedupElements(a);
  }

  lemma CoversAllFreshIff<T>(a: seq<T>, x: T)
    ensures CoversAll(a, Repeat(x, |a|)) <==> x in a || Distinct(a)
  {
    DedupElements(a);
    DedupShortensIff(a);
    var rest := Repeat(x, |a|)[|Dedup(a)|..];
    if |Dedup(a)| < |a| {
      assert rest[0] == x;
      var i :| 0 <= i < |a| && Repeats(a, i);
      assert !Distinct(a);
    } else {
      assert Distinct(a);
    }
  }

  lemma RepeatParts<T>(x: T, n: nat, k: nat)
    requires k <= n
    ensures Repeat(x, n)[k..] == Repeat(x, n - k)
    ensures Repeat(x, n - k) + Repeat(x, k) == Repeat(x, n)
    ensures n > 0 ==> Repeat(x, n) == Repeat(x, n - 1) + [x] == [x] + Repeat(x, n - 1)
  {
  }

  lemma OverlayZeros(n: nat, p: seq<Rate>)
    requires |p| <= n
    ensures Overlay(Repeat(ZERO, n), Elements(p)) == p + Repeat(ZERO, n - |p|)
  {
    OverlayElements(Repeat(ZERO, n), p);
    RepeatParts(ZERO, n, |p|);
  }

  lemma DedupPadded(p: seq<Rate>, n: nat)
    requires Distinct(p)
    ensures Dedup(p + Repeat(ZERO, n)) == if n == 0 || ZERO in p then p else p + [ZERO]
  {
    if n > 0 && ZERO !in p {
      RepeatParts(ZERO, n, 1);
      assert p + Repeat(ZERO, n) == (p + [ZERO]) + Repeat(ZERO, n - 1);
      DedupAbsorbs(p + [ZERO], Repeat(ZERO, n - 1));
    } else {
      DedupAbsorbs(p, Repeat(ZERO, n));
    }
  }

  lemma NormalRatesAre(a: seq<Rate>)
    ensures |NormalRates(a)| == |a| && |Dedup(a)| <= |a| && Distinct(Dedup(a)) && (ZERO in Dedup(a) <==> ZERO in a)
    ensures NormalRates(a) == Dedup(a) + Repeat(ZERO, |a| - |Dedup(a)|)
  {
    hide Dedup, Overlay, Repeat, Elements;
    DedupElements(a);
    OverlayZeros(|a|, Dedup(a));
  }

  /** Printing what was parsed may gain one zero, but parsing that again gives the same array. */
  lemma NormalRatesStable(a: seq<Rate>)
    ensures var p := Dedup(a);
            && |p| <= |a| && NormalRates(a) == p + Repeat(ZERO, |a| - |p|)
            && Dedup(NormalRates(a)) == (if |p| == |a| || ZERO in a then p else p + [ZERO])
            && NormalRates(NormalRates(a)) == NormalRates(a)
  {
    hide Dedup, Repeat, NormalRates, Distinct;
    var p := Dedup(a);
    NormalRatesAre(a);
    DedupPadded(p, |a| - |p|);
    PaddedIsNormal(p, |a| - |p|);
  }

  lemma PaddedIsNormal(p: seq<Rate>, n: nat)
    requires Distinct(p)
    ensures NormalRates(p + Repeat(ZERO, n)) == p + Repeat(ZERO, n)
  {
    hide Dedup, Repeat, NormalRates, Distinct;
    DedupPadded(p, n);
    NormalRatesAre(p + Repeat(ZERO, n));
    if n > 0 {
      PaddedAgain(p, n);
    }
  }

  lemma PaddedAgain(p: seq<Rate>, n: nat)
    requires n > 0
    ensures (p + [ZERO]) + Repeat(ZERO, n - 1) == p + Repeat(ZERO, n)
  {
    RepeatParts(ZERO, n, 1);
    assert (p + [ZERO]) + Repeat(ZERO, n - 1) == p + ([ZERO] + Repeat(ZERO, n - 1));
  }

  // ---------- the max_frame_rate of a res option ----------

  predicate NonZero(r: Rate) { r != ZERO }

  /** What a res option's rates become when printed and parsed over an array of the same size. */
  function ZerosLast(a: seq<Rate>): (r: seq<Rate>) { OverlayZero(a, Elements(DedupZero(a))) }

  /** After the first zero, zeros occur only at the end. */
  predicate ZerosAtEnd(a: seq<Rate>) {
    forall f, i, k :: 0 <= f < i < k < |a| && a[f] == ZERO && a[i] == ZERO ==> a[k] == ZERO
  }

  predicate TwoZeros(a: seq<Rate>) { exists f, i :: 0 <= f < i < |a| && a[f] == ZERO && a[i] == ZERO }

  lemma TwoZerosStep(t: seq<Rate>, x: Rate)
    ensures TwoZeros(t + [x]) <==> TwoZeros(t) || (x == ZERO && ZERO in t)
  {
    var a := t + [x];
    if TwoZeros(t) {
      var f, i :| 0 <= f < i < |t| && t[f] == ZERO && t[i] == ZERO;
      assert a[f] == ZERO && a[i] == ZERO;
    }
    if x == ZERO && ZERO in t {
      var f :| 0 <= f < |t| && t[f] == ZERO;
      assert a[f] == ZERO && a[|t|] == ZERO;
    }
    if TwoZeros(a) {
      var f, i :| 0 <= f < i < |a| && a[f] == ZERO && a[i] == ZERO;
      assert t[f] == ZERO && (i < |t| ==> t[i] == ZERO);
    }
  }

  lemma {:induction false} DedupZeroSizes(a: seq<Rate>)
    ensures var d := DedupZero(a);
            && |d| <= |a| && (ZERO in d <==> ZERO in a)
            && (|d| == |a| ==> d == a)
            && (|d| == |a| <==> !TwoZeros(a))
  {
    if a != [] {
      var k := |a| - 1;
      DedupZeroSizes(a[..k]);
      assert a == a[..k] + [a[k]];
      TwoZerosStep(a[..k], a[k]);
    }
  }

  lemma {:induction false} ZeroCount(s: seq<Rate>)
    ensures multiset(s)[ZERO] == |s| - |Filter(NonZero, s)|
  {
    if s != [] {
      ZeroCount(s[1..]);
      assert s == [s[0]] + s[1..];
    }
  }

  /** Equally long lists with the same non-zero rates hold the same rates equally often. */
  lemma SameRates(a: seq<Rate>, b: seq<Rate>)
    requires |a| == |b| && Filter(NonZero, a) == Filter(NonZero, b)
    ensures multiset(a) == multiset(b)
  {
    ZeroCount(a);
    ZeroCount(b);
    forall x: Rate ensures multiset(a)[x] == multiset(b)[x] {
      CountInFilter(NonZero, a, x);
      CountInFilter(NonZero, b, x);
    }
  }

  lemma ZerosLastIs(a: seq<Rate>)
    ensures |DedupZero(a)| <= |a|
    ensures ZerosLast(a) == DedupZero(a) + Repeat(ZERO, |a| - |DedupZero(a)|)
  {
    DedupZeroSizes(a);
  }

  lemma {:induction false} DedupZeroKeepsRates(a: seq<Rate>)
    ensures Filter(NonZero, DedupZero(a)) == Filter(NonZero, a)
  {
    if a != [] {
      var k := |a| - 1;
      DedupZeroKeepsRates(a[..k]);
      FilterPrefix(NonZero, a, k);
      assert a[..k + 1] == a;
      FilterAppend(NonZero, DedupZero(a[..k]), [a[k]]);
      FilterOne(NonZero, a[k]);
    }
  }

  lemma {:induction false} DedupZeroAbsorbs(d: seq<Rate>, n: nat)
    requires ZERO in d || n == 0
    ensures DedupZero(d + Repeat(ZERO, n)) == DedupZero(d)
  {
    if n == 0 {
      assert d + Repeat(ZERO, 0) == d;
    } else {
      var s := d + Repeat(ZERO, n);
      assert s[..|s| - 1] == d + Repeat(ZERO, n - 1);
      DedupZeroAbsorbs(d, n - 1);
      DedupZeroSizes(d);
    }
  }

  lemma {:induction false} DedupZeroTwice(a: seq<Rate>)
    ensures DedupZero(DedupZero(a)) == DedupZero(a)
  {
    if a != [] {
      var k := |a| - 1;
      var d := DedupZero(a[..k]);
      DedupZeroTwice(a[..k]);
      if !(a[k] == ZERO && ZERO in d) {
        assert (d + [a[k]])[..|d|] == d;
      }
    }
  }

  /**
   Print then parse always keeps the multiset of rates and the order of the non-zero ones, and
   what is printed afterwards; it gives back the array exactly if and only if the zeros after the
   first one all stand at the end.
   */
  lemma ResRatesRoundTrip(a: seq<Rate>)
    ensures var r := ZerosLast(a);
            && multiset(r) == multiset(a)
            && Filter(NonZero, r) == Filter(NonZero, a)
            && DedupZero(r) == DedupZero(a)
            && (r == a <==> ZerosAtEnd(a))
  {
    hide DedupZero, ZerosLast, ZerosAtEnd, Filter, TwoZeros;
    var d := DedupZero(a);
    DedupZeroSizes(a);
    var zeros := Repeat(ZERO, |a| - |d|);
    ZerosLastIs(a);
    assert Filter(NonZero, d + zeros) == Filter(NonZero, a) by {
      DedupZeroKeepsRates(a);
      FilterAppend(NonZero, d, zeros);
      FilterAll(NonZero, zeros);
    }
    SameRates(d + zeros, a);
    assert DedupZero(d + zeros) == d by {
      DedupZeroTwice(a);
      assert zeros != [] ==> ZERO in d by { TwoZerosHasZero(a); }
      DedupZeroAbsorbs(d, |zeros|);
    }
    ExactIff(a);
  }

  lemma TwoZerosHasZero(a: seq<Rate>)
    ensures TwoZeros(a) ==> ZERO in a
  {
  }

  lemma ZerosAtEndStep(t: seq<Rate>, x: Rate)
    ensures ZerosAtEnd(t + [x]) <==> ZerosAtEnd(t) && (x == ZERO || !TwoZeros(t))
  {
    var a := t + [x];
    assert forall i :: 0 <= i < |t| ==> a[i] == t[i];
    if ZerosAtEnd(a) {
      assert ZerosAtEnd(t);
      if TwoZeros(t) {
        var f, i :| 0 <= f < i < |t| && t[f] == ZERO && t[i] == ZERO;
        assert a[f] == ZERO && a[i] == ZERO && a[|t|] == x;
      }
    } else {
      var f, i, k :| 0 <= f < i < k < |a| && a[f] == ZERO && a[i] == ZERO && a[k] != ZERO;
      assert t[f] == ZERO && t[i] == ZERO;
      assert k < |t| ==> t[k] != ZERO;
    }
  }

  lemma {:induction false} ExactIff(a: seq<Rate>)
    ensures ZerosLast(a) == a <==> ZerosAtEnd(a)
  {
    ZerosLastIs(a);
    if a != [] {
      var k := |a| - 1;
      var t, x := a[..k], a[k];
      assert a == t + [x];
      ExactIff(t);
      ZerosAtEndStep(t, x);
      ZerosLastIs(t);
      DedupZeroSizes(t);
      ZerosLastStep(t, x);
    }
  }

  /** How one more rate changes the rearranged array. */
  lemma ZerosLastStep(t: seq<Rate>, x: Rate)
    ensures x == ZERO && ZERO in t ==> ZerosLast(t + [x]) == ZerosLast(t) + [x]
    ensures !(x == ZERO && ZERO in t) && !TwoZeros(t) ==> ZerosLast(t + [x]) == t + [x] && ZerosLast(t) == t
    ensures x != ZERO && TwoZeros(t) ==> ZerosLast(t + [x]) != t + [x]
  {
    var d, a := DedupZero(t), t + [x];
    var m := |t| - |d|;
    assert a[..|t|] == t;
    DedupZeroSizes(t);
    DedupZeroSizes(a);
    ZerosLastIs(t);
    ZerosLastIs(a);
    if x == ZERO && ZERO in t {
      RepeatParts(ZERO, m + 1, 1);
    } else if TwoZeros(t) && x != ZERO {
      assert ZerosLast(a)[|t|] == ZERO;
    }
  }

  // ---------- the loops ----------

  /** The inner loop of every printing loop: has the text been added already? */
  method Present<T(==)>(out: seq<T>, x: T) returns (objCheck: bool)
    ensures objCheck <==> x in out
  {
    objCheck := false;
    for k := 0 to |out|
      invariant objCheck <==> x in out[..k]
    {
      if x == out[k] {
        objCheck := true;
      }
    }
    assert out[..|out|] == out;
  }

  /** frame_rate_list: up to the first zero, without repetitions. */
  method PrintList<T(==)>(a: seq<T>, stop: T) returns (out: seq<T>)
    ensures out == Printed(a, stop)
  {
    out := [];
    var i := 0;
    while i < |a| && a[i] != stop
      invariant 0 <= i <= |a| && stop !in a[..i] && out == Dedup(a[..i])
    {
      assert a[..i + 1][..i] == a[..i];
      var objCheck := Present(out, a[i]);
      if !objCheck {
        out := out + [a[i]];
      }
      i := i + 1;
    }
    assert a == a[..i] + a[i..];
    UpToAppend(a[..i], a[i..], stop);
    assert a[..i] + [] == a[..i];
  }

  /** max_frame_rate of a product option. */
  method PrintOnce(a: seq<Rate>) returns (out: seq<Rate>)
    ensures out == Dedup(a)
  {
    out := [];
    for i := 0 to |a|
      invariant out == Dedup(a[..i])
    {
      assert a[..i + 1][..i] == a[..i];
      var objCheck := Present(out, a[i]);
      if !objCheck {
        out := out + [a[i]];
      }
    }
    assert a[..|a|] == a;
  }

  /** max_frame_rate of a res option: only zeros are compared with what was printed. */
  method PrintZeroAware(a: seq<Rate>) returns (out: seq<Rate>)
    ensures out == DedupZero(a)
  {
    out := [];
    for i := 0 to |a|
      invariant out == DedupZero(a[..i])
    {
      assert a[..i + 1][..i] == a[..i];
      var objCheck := false;
      for k := 0 to |out|
        invariant objCheck <==> a[i] == ZERO && ZERO in out[..k]
      {
        if a[i] == ZERO && a[i] == out[k] {
          objCheck := true;
        }
      }
      assert out[..|out|] == out;
      if !objCheck {
        out := out + [a[i]];
      }
    }
    assert a[..|a|] == a;
  }

  /** Elements beyond the message and null elements leave the array alone. */
  method ParseOver<T>(a: array<T>, xs: seq<Option<T>>)
    modifies a
    ensures a[..] == Overlay(old(a[..]), xs)
  {
    for i := 0 to a.Length
      invariant forall j :: 0 <= j < i ==> a[j] == Overlay(old(a[..]), xs)[j]
      invariant forall j :: i <= j < a.Length ==> a[j] == old(a[j])
    {
      if i < |xs| && xs[i].Some? {
        a[i] := xs[i].value;
      }
    }
  }

  /** Here they write a zero. */
  method ParseOrZero(a: array<Rate>, xs: seq<Option<Rate>>)
    modifies a
    ensures a[..] == OverlayZero(old(a[..]), xs)
  {
    for i := 0 to a.Length
      invariant forall j :: 0 <= j < i ==> a[j] == OverlayZero(old(a[..]), xs)[j]
      invariant forall j :: i <= j < a.Length ==> a[j] == old(a[j])
    {
      if i < |xs| && xs[i].Some? {
        a[i] := xs[i].value;
      } else {
        a[i] := ZERO;
      }
    }
  }

  /** The init functions fill a list with its sentinel. */
  method Fill<T>(a: array<T>, x: T)
    modifies a
    ensures a[..] == Repeat(x, a.Length)
  {
    for i := 0 to a.Length
      invariant forall j :: 0 <= j < i ==> a[j] == x
    {
      a[i] := x;
    }
  }
}
