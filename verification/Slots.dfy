/**
 Options with indexed slots.  A venc option holds streams and each stream holds encoders; a res
 option holds streams and each stream holds resolutions.  Every level is parsed and printed the
 same way: an index of -1 addresses all slots, any other index one of them.
 */
module Slots {
  import opened Seqs

  const ALL := -1

  datatype Slots<T> = Slots(items: seq<T>, idx: int)

  /** A message may lack either member; a list element may be missing or null. */
  datatype Message<M> = Message(idx: Option<int>, items: Option<seq<Option<M>>>)

  function ItemAt<M>(ms: seq<Option<M>>, i: nat): Option<M> { if i < |ms| then ms[i] else None }

  /** Parse an element, or nothing, over the present contents of a slot. */
  type Parser<!T, !M> = (T, Option<M>) -> T

  /** Element by element, a list of messages over an array. */
  function ParseEach<T, M>(parse: Parser<T, M>, items: seq<T>, ms: seq<Option<M>>): (r: seq<T>)
    ensures |r| == |items|
  {
    seq(|items|, i requires 0 <= i < |items| => parse(items[i], ItemAt(ms, i)))
  }

  function PrintEach<T, M>(print_: T -> M, items: seq<T>): (r: seq<Option<M>>)
    ensures |r| == |items|
  {
    seq(|items|, i requires 0 <= i < |items| => Some(print_(items[i])))
  }

  /** `x` printed, parsed over `y` and printed again gives what was printed first. */
  predicate Reprints<T, M(==)>(parse: Parser<T, M>, print_: T -> M, x: T, y: T) {
    print_(parse(y, Some(print_(x)))) == print_(x)
  }

  lemma EachReprintsIff<T, M>(parse: Parser<T, M>, print_: T -> M, xs: seq<T>, ys: seq<T>)
    requires |xs| == |ys|
    ensures PrintEach(print_, ParseEach(parse, ys, PrintEach(print_, xs))) == PrintEach(print_, xs)
            <==> forall i :: 0 <= i < |xs| ==> Reprints(parse, print_, xs[i], ys[i])
  {
    var ms := PrintEach(print_, xs);
    var r := PrintEach(print_, ParseEach(parse, ys, ms));
    forall i | 0 <= i < |xs| ensures r[i] == ms[i] <==> Reprints(parse, print_, xs[i], ys[i]) {
      assert ItemAt(ms, i) == Some(print_(xs[i]));
    }
  }

  /** The slots an index addresses exist. */
  predicate InRange(idx: int, n: nat) { idx == ALL || 0 <= idx < n }

  /** An index outside the slots, which the source does not check, is given no effect here. */
  function ParseSlots<T, M>(parse: Parser<T, M>, data: Slots<T>, msg: Option<Message<M>>): (r: Slots<T>)
    ensures |r.items| == |data.items|
  {
    if msg.None? then data
    else
      var idx := if msg.value.idx.Some? then msg.value.idx.value else data.idx;
      if msg.value.items.None? then data.(idx := idx)
      else
        var ms := msg.value.items.value;
        if idx == ALL then Slots(ParseEach(parse, data.items, ms), idx)
        else if 0 <= idx < |data.items| then Slots(data.items[idx := parse(data.items[idx], ItemAt(ms, 0))], idx)
        else data.(idx := idx)
  }

  /** A level of slots as the elements of the level above. */
  function SlotParser<T, M>(parse: Parser<T, M>): Parser<Slots<T>, Message<M>> {
    (data: Slots<T>, msg: Option<Message<M>>) => ParseSlots(parse, data, msg)
  }

  function PrintSlots<T, M>(print_: T -> M, data: Slots<T>): Message<M> {
    Message(Some(data.idx),
            Some(if data.idx == ALL then PrintEach(print_, data.items)
                 else if 0 <= data.idx < |data.items| then [Some(print_(data.items[data.idx]))]
                 else []))
  }

  function SlotPrinter<T, M>(print_: T -> M): Slots<T> -> Message<M> {
    (data: Slots<T>) => PrintSlots(print_, data)
  }

  /** A slot stays as it was, or receives nothing or an element of the message. */
  lemma SlotReceives<T, M>(parse: Parser<T, M>, data: Slots<T>, msg: Option<Message<M>>, i: nat) returns (x: Option<M>)
    requires i < |data.items|
    ensures var r := ParseSlots(parse, data, msg).items[i];
            r == data.items[i] || r == parse(data.items[i], x)
    ensures x.Some? ==> msg.Some? && msg.value.items.Some? && x in msg.value.items.value
  {
    x := None;
    if msg.Some? && msg.value.items.Some? {
      var idx := if msg.value.idx.Some? then msg.value.idx.value else data.idx;
      x := ItemAt(msg.value.items.value, if idx == ALL then i else 0);
    }
  }

  /** What each slot receives: all of them their own element, or the addressed one the first element. */
  lemma SlotsReceive<T, M>(parse: Parser<T, M>, data: Slots<T>, idx: int, ms: seq<Option<M>>)
    requires InRange(idx, |data.items|)
    ensures var r := ParseSlots(parse, data, Some(Message(Some(idx), Some(ms))));
            && r.idx == idx && |r.items| == |data.items|
            && forall i :: 0 <= i < |data.items| ==>
                 r.items[i] ==
                 if idx == -1 then parse(data.items[i], if i < |ms| then ms[i] else None)
                 else if i == idx then parse(data.items[i], if ms != [] then ms[0] else None)
                 else data.items[i]
  {
    assert ItemAt(ms, 0) == if ms != [] then ms[0] else None;
    forall i | 0 <= i < |data.items| ensures ItemAt(ms, i) == if i < |ms| then ms[i] else None {
    }
  }

  /**
   A message without an index acts as if it carried the stored one, one without slots changes the
   index only, and no message changes nothing.
   */
  lemma AbsentMembers<T, M>(parse: Parser<T, M>, data: Slots<T>, idx: Option<int>, items: Option<seq<Option<M>>>)
    ensures ParseSlots(parse, data, Some(Message(None, items)))
         == ParseSlots(parse, data, Some(Message(Some(data.idx), items)))
    ensures ParseSlots(parse, data, Some(Message(idx, None)))
         == Slots(data.items, if idx.Some? then idx.value else data.idx)
    ensures ParseSlots(parse, data, None) == data
  {
  }

  /**
   A printed level parsed over any other one: the addressed slot, or each slot, receives what was
   printed for that slot, and every other slot stays as it was.
   */
  lemma PrintedSlots<T, M>(parse: Parser<T, M>, print_: T -> M, data: Slots<T>, w: Slots<T>)
    requires InRange(data.idx, |data.items|) && |w.items| == |data.items|
    ensures var r := ParseSlots(parse, w, Some(PrintSlots(print_, data)));
            && r.idx == data.idx && |r.items| == |w.items|
            && forall i :: 0 <= i < |w.items| ==>
                 r.items[i] == if data.idx == -1 || i == data.idx
                               then parse(w.items[i], Some(print_(data.items[i])))
                               else w.items[i]
  {
    var ms := PrintSlots(print_, data).items.value;
    SlotsReceive(parse, w, data.idx, ms);
  }

  // ---------- runs of messages ----------

  /** If the message carries an index, it addresses existing slots; nothing else is asked of it. */
  predicate IndexOk<M>(m: Option<Message<M>>, n: nat) {
    m.Some? && m.value.idx.Some? ==> InRange(m.value.idx.value, n)
  }

  predicate IndicesOk<M>(m: Message<Message<M>>, outer: nat, inner: nat) {
    && (m.idx.Some? ==> InRange(m.idx.value, outer))
    && (m.items.Some? ==> forall i :: 0 <= i < |m.items.value| ==> IndexOk(m.items.value[i], inner))
  }

  function ParseRun<T, M>(parse: Parser<T, M>, data: Slots<T>, msgs: seq<Message<M>>): Slots<T> {
    if msgs == [] then data
    else
      var k := |msgs| - 1;
      ParseSlots(parse, ParseRun(parse, data, msgs[..k]), Some(msgs[k]))
  }

  // ---------- all slots at once, or one by one ----------

  function AllMessage<M>(ms: seq<Option<M>>): Option<Message<M>> { Some(Message(Some(ALL), Some(ms))) }

  function OneMessage<M>(i: nat, m: Option<M>): Option<Message<M>> { Some(Message(Some(i), Some([m]))) }

  /** Send the single-slot messages of a list, one for each index of `order`. */
  function SendEach<T, M>(parse: Parser<T, M>, data: Slots<T>, ms: seq<Option<M>>, order: seq<nat>): (r: Slots<T>)
    ensures |r.items| == |data.items|
  {
    if order == [] then data
    else
      var k := |order| - 1;
      ParseSlots(parse, SendEach(parse, data, ms, order[..k]), OneMessage(order[k], ItemAt(ms, order[k])))
  }

  /** Each slot exactly once, in any order. */
  predicate Permutes(order: seq<nat>, n: nat) {
    NoneTwice(order, n) && forall i :: 0 <= i < n ==> i in order
  }

  predicate NoneTwice(order: seq<nat>, n: nat) {
    && (forall i, j :: 0 <= i < j < |order| ==> order[i] != order[j])
    && (forall i :: 0 <= i < |order| ==> order[i] < n)
  }

  lemma {:induction false} SentSlot<T, M>(parse: Parser<T, M>, data: Slots<T>, ms: seq<Option<M>>,
                                          order: seq<nat>, i: nat)
    requires NoneTwice(order, |data.items|) && i < |data.items|
    ensures var r := SendEach(parse, data, ms, order);
            && |r.items| == |data.items|
            && r.items[i] == if i in order then parse(data.items[i], ItemAt(ms, i)) else data.items[i]
  {
    hide ParseSlots;
    if order != [] {
      var k := |order| - 1;
      var front, last := order[..k], order[k];
      assert order == front + [last];
      assert NoneTwice(front, |data.items|) && last !in front && last < |data.items|;
      SentSlot(parse, data, ms, front, i);
      OneSlot(parse, SendEach(parse, data, ms, front), last, ItemAt(ms, last));
    }
  }

  lemma OneSlot<T, M>(parse: Parser<T, M>, data: Slots<T>, i: nat, m: Option<M>)
    requires i < |data.items|
    ensures ParseSlots(parse, data, OneMessage(i, m)) == Slots(data.items[i := parse(data.items[i], m)], i)
  {
    assert ItemAt([m], 0) == m;
  }

  /**
   A message to all slots does the same as single-slot messages made of its elements, sent in any
   order, except for the index that is left behind.
   */
  lemma AllIsEach<T, M>(parse: Parser<T, M>, data: Slots<T>, ms: seq<Option<M>>, order: seq<nat>)
    requires Permutes(order, |data.items|)
    ensures SendEach(parse, data, ms, order).items == ParseSlots(parse, data, AllMessage(ms)).items
    ensures ParseSlots(parse, data, AllMessage(ms)).idx == ALL
    ensures order != [] ==> SendEach(parse, data, ms, order).idx == order[|order| - 1]
  {
    var r := SendEach(parse, data, ms, order).items;
    var all := ParseSlots(parse, data, AllMessage(ms)).items;
    forall i | 0 <= i < |data.items| ensures r[i] == all[i] {
      SentSlot(parse, data, ms, order, i);
    }
  }

  // ---------- messages that carry both indices ----------

  function CellMessage<M>(i: nat, j: nat, m: Option<M>): Option<Message<Message<M>>> {
    OneMessage(i, OneMessage(j, m))
  }

  /** Such a message changes the addressed cell and the two indices, and nothing else. */
  lemma CellMessageChanges<T, M>(parse: Parser<T, M>, data: Slots<Slots<T>>, i: nat, j: nat, m: Option<M>)
    requires i < |data.items| && j < |data.items[i].items|
    ensures var cell := data.items[i];
            ParseSlots(SlotParser(parse), data, CellMessage(i, j, m))
            == Slots(data.items[i := Slots(cell.items[j := parse(cell.items[j], m)], j)], i)
  {
    OneSlot(SlotParser(parse), data, i, OneMessage(j, m));
    OneSlot(parse, data.items[i], j, m);
  }

  /** The data of a two-level option, without its indices. */
  function Cells<T>(data: Slots<Slots<T>>): seq<seq<T>> { Map((s: Slots<T>) => s.items, data.items) }

  /** Messages to different cells commute on the data. */
  lemma CellMessagesCommute<T, M>(parse: Parser<T, M>, data: Slots<Slots<T>>,
                                  i: nat, j: nat, m: Option<M>, k: nat, l: nat, n: Option<M>)
    requires i < |data.items| && j < |data.items[i].items| && k < |data.items| && l < |data.items[k].items|
    requires (i, j) != (k, l)
    ensures var p := SlotParser(parse);
            Cells(ParseSlots(p, ParseSlots(p, data, CellMessage(i, j, m)), CellMessage(k, l, n)))
            == Cells(ParseSlots(p, ParseSlots(p, data, CellMessage(k, l, n)), CellMessage(i, j, m)))
  {
    var p := SlotParser(parse);
    var x, y := ParseSlots(p, data, CellMessage(i, j, m)), ParseSlots(p, data, CellMessage(k, l, n));
    CellMessageChanges(parse, data, i, j, m);
    CellMessageChanges(parse, data, k, l, n);
    CellMessageChanges(parse, x, k, l, n);
    CellMessageChanges(parse, y, i, j, m);
    var xy, yx := ParseSlots(p, x, CellMessage(k, l, n)), ParseSlots(p, y, CellMessage(i, j, m));
    MapAt((s: Slots<T>) => s.items, xy.items);
    MapAt((s: Slots<T>) => s.items, yx.items);
    forall a | 0 <= a < |data.items| ensures xy.items[a].items == yx.items[a].items {
    }
  }

  // ---------- printing what was parsed ----------

  /** If every addressed element reprints over itself, so does the level. */
  lemma SlotsReprint<T, M>(parse: Parser<T, M>, print_: T -> M, data: Slots<T>)
    requires InRange(data.idx, |data.items|)
    requires forall i :: 0 <= i < |data.items| && (data.idx == ALL || data.idx == i) ==>
               print_(parse(data.items[i], Some(print_(data.items[i])))) == print_(data.items[i])
    ensures PrintSlots(print_, ParseSlots(parse, data, Some(PrintSlots(print_, data)))) == PrintSlots(print_, data)
  {
    var msg := PrintSlots(print_, data);
    var after := ParseSlots(parse, data, Some(msg));
    var ms := msg.items.value;
    if data.idx == ALL {
      forall i | 0 <= i < |data.items| ensures print_(after.items[i]) == print_(data.items[i]) {
        assert ItemAt(ms, i) == Some(print_(data.items[i]));
      }
      assert PrintSlots(print_, after).items.value == ms;
    } else {
      assert ItemAt(ms, 0) == Some(print_(data.items[data.idx]));
    }
  }

  // ---------- the slots in place ----------

  method ParseArray<T, M>(parse: Parser<T, M>, items: array<T>, ms: seq<Option<M>>)
    modifies items
    ensures items[..] == ParseEach(parse, old(items[..]), ms)
  {
    for i := 0 to items.Length
      invariant forall j :: 0 <= j < i ==> items[j] == parse(old(items[j]), ItemAt(ms, j))
      invariant forall j :: i <= j < items.Length ==> items[j] == old(items[j])
    {
      items[i] := parse(items[i], ItemAt(ms, i));
    }
  }

  method CompArray<T, M>(print_: T -> M, items: array<T>) returns (out: seq<Option<M>>)
    ensures out == PrintEach(print_, items[..])
  {
    out := [];
    for i := 0 to items.Length
      invariant |out| == i && forall j :: 0 <= j < i ==> out[j] == Some(print_(items[j]))
    {
      out := out + [Some(print_(items[i]))];
    }
  }

  class SlotArray<T, M> {
    const items: array<T>
    var idx: int

    ghost function View(): Slots<T>
      reads this, items
    {
      Slots(items[..], idx)
    }

    constructor (items: array<T>, idx: int)
      ensures this.items == items && this.idx == idx
    {
      this.items, this.idx := items, idx;
    }

    /** The index a message leaves behind must address existing slots if the message has slots. */
    method Parse(parse: Parser<T, M>, msg: Option<Message<M>>)
      requires msg.Some? && msg.value.items.Some? ==>
                 InRange(if msg.value.idx.Some? then msg.value.idx.value else idx, items.Length)
      modifies this, items
      ensures View() == ParseSlots(parse, old(View()), msg)
    {
      if msg.None? {
        return;
      }
      if msg.value.idx.Some? {
        idx := msg.value.idx.value;
      }
      if msg.value.items.Some? {
        var ms := msg.value.items.value;
        if idx == ALL {
          ParseArray(parse, items, ms);
        } else {
          items[idx] := parse(items[idx], ItemAt(ms, 0));
        }
      }
    }

    method Comp(print_: T -> M) returns (msg: Message<M>)
      requires InRange(idx, items.Length)
      ensures msg == PrintSlots(print_, View())
    {
      var out;
      if idx == ALL {
        out := CompArray(print_, items);
      } else {
        out := [Some(print_(items[idx]))];
      }
      msg := Message(Some(idx), Some(out));
    }
  }
}
