/**
 The saved-route lists of connsel and the kernel route table they are taken from
 (connsel_utils.c).  The table is a sequence of rows, newest first: adding a route puts
 a row at the head, deleting one removes the first row with that net, mask and device.
 */
module Routes {
  import opened Seqs

  type Addr = a: int | 0 <= a < 0x1_0000_0000

  const ROUTE_LIST_NUM: nat := 4
  const NO_GATEWAY: Addr := 0

  datatype Row = Row(dev: string, net: Addr, gw: Addr, mask: Addr, metric: int)

  datatype Entry = Entry(name: string, metric: int, net: Addr, gw: Addr, mask: Addr)

  const BLANK := Entry("", 0, 0, 0, 0)

  /** What a delete command can tell apart. */
  datatype Key = Key(dev: string, net: Addr, mask: Addr)

  /** What re-adding a route brings back: everything but the metric. */
  datatype Path = Path(key: Key, gw: Addr)

  datatype Command =
    | Add(net: Addr, gw: Option<Addr>, mask: Addr, metric: Option<int>, dev: string)
    | Del(net: Addr, mask: Addr, dev: string)

  // ---------- the kernel ----------

  function KeyOf(r: Row): Key { Key(r.dev, r.net, r.mask) }

  function PathOf(r: Row): Path { Path(KeyOf(r), r.gw) }

  function Paths(t: seq<Row>): seq<Path> { Map(PathOf, t) }

  function RemoveFirst(t: seq<Row>, k: Key): seq<Row> {
    if t == [] then [] else if KeyOf(t[0]) == k then t[1..] else [t[0]] + RemoveFirst(t[1..], k)
  }

  lemma {:induction false} RemoveFirstSkips(a: seq<Row>, b: seq<Row>, k: Key)
    requires forall r :: r in a ==> KeyOf(r) != k
    ensures RemoveFirst(a + b, k) == a + RemoveFirst(b, k)
  {
    if a == [] {
      assert a + b == b;
    } else {
      assert (a + b)[1..] == a[1..] + b;
      RemoveFirstSkips(a[1..], b, k);
    }
  }

  lemma RemoveFirstAt(t: seq<Row>, k: Key, i: nat)
    requires i <= |t| && (forall r :: r in t[..i] ==> KeyOf(r) != k) && (i < |t| ==> KeyOf(t[i]) == k)
    ensures RemoveFirst(t, k) == if i < |t| then t[..i] + t[i + 1..] else t
  {
    var a, b := t[..i], t[i..];
    assert a + b == t;
    RemoveFirstSkips(a, b, k);
  }

  function Exec(t: seq<Row>, c: Command): seq<Row> {
    match c
    case Add(net, gw, mask, metric, dev) =>
      [Row(dev, net, if gw.Some? then gw.value else NO_GATEWAY, mask,
           if metric.Some? then metric.value else 0)] + t
    case Del(net, mask, dev) => RemoveFirst(t, Key(dev, net, mask))
  }

  function ExecAll(t: seq<Row>, cs: seq<Command>): seq<Row>
    decreases cs
  {
    if cs == [] then t else ExecAll(Exec(t, cs[0]), cs[1..])
  }

  class Kernel {
    var table: seq<Row>
    var log: seq<Command>

    /** Run one `/sbin/route` command. */
    method System(c: Command)
      modifies this
      ensures table == Exec(old(table), c) && log == old(log) + [c]
    {
      hide RemoveFirst;
      match c {
        case Add(net, gw, mask, metric, dev) =>
          var g := if gw.Some? then gw.value else NO_GATEWAY;
          table := [Row(dev, net, g, mask, if metric.Some? then metric.value else 0)] + table;
        case Del(net, mask, dev) =>
          var i := 0;
          while i < |table| && KeyOf(table[i]) != Key(dev, net, mask)
            invariant 0 <= i <= |table|
            invariant table == old(table) && log == old(log)
            invariant forall r :: r in table[..i] ==> KeyOf(r) != Key(dev, net, mask)
          {
            i := i + 1;
          }
          RemoveFirstAt(table, Key(dev, net, mask), i);
          if i < |table| {
            table := table[..i] + table[i + 1..];
          }
      }
      log := log + [c];
    }
  }

  // ---------- which rows and entries belong to an interface ----------

  /** The source compares only the first strlen(iface) characters. */
  predicate Matches(iface: string, name: string) { iface <= name }

  function RowOf(iface: string): Row -> bool { (r: Row) => Matches(iface, r.dev) }

  function NotRowOf(iface: string): Row -> bool { (r: Row) => !Matches(iface, r.dev) }

  function LiveFor(iface: string): Entry -> bool { (e: Entry) => Matches(iface, e.name) }

  function Select(iface: string, t: seq<Row>): seq<Row> { Filter(RowOf(iface), t) }

  function Others(iface: string, t: seq<Row>): seq<Row> { Filter(NotRowOf(iface), t) }

  function Live(iface: string, list: seq<Entry>): seq<Entry> { Filter(LiveFor(iface), list) }

  // ---------- what the list operations compute ----------

  /** strncpy of exactly strlen(new) characters: a longer old name keeps its tail. */
  function Overwrite(oldName: string, newName: string): string {
    newName + (if |oldName| > |newName| then oldName[|newName|..] else "")
  }

  function Store(e: Entry, r: Row): Entry {
    Entry(Overwrite(e.name, r.dev), r.metric, r.net, r.gw, r.mask)
  }

  function EntryOf(r: Row): Entry { Entry(r.dev, r.metric, r.net, r.gw, r.mask) }

  function Stored(rows: seq<Row>, list: seq<Entry>): (r: seq<Entry>)
    requires |rows| <= |list|
    ensures |r| == |list|
  {
    seq(|list|, i requires 0 <= i < |list| => if i < |rows| then Store(list[i], rows[i]) else list[i])
  }

  function Cleared(iface: string, list: seq<Entry>): (r: seq<Entry>)
    ensures |r| == |list|
  {
    seq(|list|, i requires 0 <= i < |list| =>
      if Matches(iface, list[i].name) then list[i].(name := "") else list[i])
  }

  function DelOf(e: Entry): Command { Del(e.net, e.mask, e.name) }

  function AddOf(e: Entry, metric: Option<int>): Command {
    Add(e.net, if e.gw == NO_GATEWAY then None else Some(e.gw), e.mask, metric, e.name)
  }

  function RestoreOf(e: Entry): Command { AddOf(e, None) }

  function DelCommands(es: seq<Entry>): seq<Command> { Map(DelOf, es) }

  /** The list is walked from its last slot to its first. */
  function AddCommands(es: seq<Entry>): seq<Command> {
    Map(RestoreOf, Reverse(es))
  }

  function UpdateCommands(es: seq<Entry>, met: int): seq<Command> {
    if es == [] then []
    else if es[0].metric != met then
      [DelOf(es[0]), AddOf(es[0], Some(met))] + UpdateCommands(es[1..], met)
    else UpdateCommands(es[1..], met)
  }

  // ---------- the list operations ----------

  /** One row of the table read: `done` holds the matching rows seen so far. */
  lemma SaveStep(iface: string, t: seq<Row>, r: nat, list: seq<Entry>)
    requires r < |t| && |Select(iface, t)| <= |list|
    ensures var done := Select(iface, t[..r]);
            |done| <= |list|
            && (Matches(iface, t[r].dev) ==>
                  && |done| < |list|
                  && Select(iface, t[..r + 1]) == done + [t[r]]
                  && Stored(done + [t[r]], list)
                     == Stored(done, list)[|done| := Store(list[|done|], t[r])])
            && (!Matches(iface, t[r].dev) ==> Select(iface, t[..r + 1]) == done)
  {
    FilterPrefix(RowOf(iface), t, r);
    FilterSplit(RowOf(iface), t, r + 1);
  }

  method SaveRouteList(k: Kernel, iface: string, list: array<Entry>)
    requires |Select(iface, k.table)| <= list.Length
    modifies list
    ensures list[..] == Stored(Select(iface, k.table), old(list[..]))
  {
    var t := k.table;
    ghost var was, done := list[..], [];
    var i := 0;
    for r := 0 to |t|
      invariant done == Select(iface, t[..r]) && i == |done| <= list.Length
      invariant list[..] == Stored(done, was)
    {
      SaveStep(iface, t, r, was);
      if Matches(iface, t[r].dev) {
        assert list[i] == was[i] by { assert list[i] == list[..][i]; }
        list[i] := Store(list[i], t[r]);
        done := done + [t[r]];
        i := i + 1;
      }
    }
    assert t[..|t|] == t;
  }

  method ClearRouteList(iface: string, list: array<Entry>)
    modifies list
    ensures list[..] == Cleared(iface, old(list[..]))
  {
    for i := 0 to list.Length
      invariant forall j :: 0 <= j < i ==> list[j] == Cleared(iface, old(list[..]))[j]
      invariant forall j :: i <= j < list.Length ==> list[j] == old(list[j])
    {
      if Matches(iface, list[i].name) {
        list[i] := list[i].(name := "");
      }
    }
  }

  lemma {:induction false} ExecAppend(t: seq<Row>, a: seq<Command>, b: seq<Command>)
    ensures ExecAll(t, a + b) == ExecAll(ExecAll(t, a), b)
    decreases a
  {
    if a == [] {
      assert a + b == b;
    } else {
      assert (a + b)[1..] == a[1..] + b;
      ExecAppend(Exec(t, a[0]), a[1..], b);
    }
  }

  lemma ExecLast(t: seq<Row>, a: seq<Command>, c: Command)
    ensures ExecAll(t, a + [c]) == Exec(ExecAll(t, a), c)
  {
    ExecAppend(t, a, [c]);
    assert [c][1..] == [];
  }

  method DelRoute(k: Kernel, iface: string, list: array<Entry>)
    modifies k
    ensures var cs := DelCommands(Live(iface, list[..]));
            k.table == ExecAll(old(k.table), cs) && k.log == old(k.log) + cs
  {
    ghost var l, live, cs: seq<Command> := list[..], [], [];
    for i := 0 to list.Length
      invariant list[..] == l && live == Live(iface, l[..i]) && cs == DelCommands(live)
      invariant k.table == ExecAll(old(k.table), cs) && k.log == old(k.log) + cs
    {
      FilterPrefix(LiveFor(iface), l, i);
      if Matches(iface, list[i].name) {
        var c := Del(list[i].net, list[i].mask, list[i].name);
        MapAppend(DelOf, live, [l[i]]);
        ExecLast(old(k.table), cs, c);
        k.System(c);
        live, cs := live + [l[i]], cs + [c];
      }
    }
    assert l[..list.Length] == l;
  }

  lemma AddCommandsStep(e: Entry, es: seq<Entry>)
    ensures AddCommands([e] + es) == AddCommands(es) + [RestoreOf(e)]
  {
    assert ([e] + es)[1..] == es;
    MapAppend(RestoreOf, Reverse(es), [e]);
  }

  method AddRoute(k: Kernel, iface: string, list: array<Entry>)
    modifies k
    ensures var cs := AddCommands(Live(iface, list[..]));
            k.table == ExecAll(old(k.table), cs) && k.log == old(k.log) + cs
  {
    ghost var l, live, cs: seq<Command> := list[..], [], [];
    var i := list.Length;
    while i > 0
      invariant 0 <= i <= list.Length
      invariant list[..] == l && live == Live(iface, l[i..]) && cs == AddCommands(live)
      invariant k.table == ExecAll(old(k.table), cs) && k.log == old(k.log) + cs
    {
      i := i - 1;
      FilterSuffix(LiveFor(iface), l, i);
      if Matches(iface, list[i].name) {
        var gw := if list[i].gw == NO_GATEWAY then None else Some(list[i].gw);
        var c := Add(list[i].net, gw, list[i].mask, None, list[i].name);
        AddCommandsStep(list[i], live);
        ExecLast(old(k.table), cs, c);
        k.System(c);
        live, cs := [l[i]] + live, cs + [c];
      }
    }
    assert l[0..] == l;
  }

  lemma {:induction false} UpdateAppend(a: seq<Entry>, b: seq<Entry>, met: int)
    ensures UpdateCommands(a + b, met) == UpdateCommands(a, met) + UpdateCommands(b, met)
  {
    if a == [] {
      assert a + b == b;
    } else {
      assert (a + b)[1..] == a[1..] + b;
      UpdateAppend(a[1..], b, met);
    }
  }

  lemma UpdateStep(t: seq<Row>, es: seq<Entry>, e: Entry, met: int)
    ensures var cs := UpdateCommands(es, met);
            if e.metric == met then UpdateCommands(es + [e], met) == cs
            else && UpdateCommands(es + [e], met) == cs + [DelOf(e)] + [AddOf(e, Some(met))]
                 && ExecAll(t, cs + [DelOf(e)] + [AddOf(e, Some(met))])
                    == Exec(Exec(ExecAll(t, cs), DelOf(e)), AddOf(e, Some(met)))
  {
    var cs := UpdateCommands(es, met);
    UpdateAppend(es, [e], met);
    assert [e][1..] == [];
    if e.metric != met {
      ExecLast(t, cs, DelOf(e));
      ExecLast(t, cs + [DelOf(e)], AddOf(e, Some(met)));
    }
  }

  method UpdateMetric(k: Kernel, iface: string, list: array<Entry>, met: int)
    modifies k
    ensures var cs := UpdateCommands(Live(iface, list[..]), met);
            k.table == ExecAll(old(k.table), cs) && k.log == old(k.log) + cs
  {
    ghost var l, live, cs: seq<Command> := list[..], [], [];
    for i := 0 to list.Length
      invariant list[..] == l && live == Live(iface, l[..i]) && cs == UpdateCommands(live, met)
      invariant k.table == ExecAll(old(k.table), cs) && k.log == old(k.log) + cs
    {
      FilterPrefix(LiveFor(iface), l, i);
      if Matches(iface, list[i].name) {
        UpdateStep(old(k.table), live, l[i], met);
        live := live + [l[i]];
        if list[i].metric != met {
          var gw := if list[i].gw == NO_GATEWAY then None else Some(list[i].gw);
          var del := Del(list[i].net, list[i].mask, list[i].name);
          var add := Add(list[i].net, gw, list[i].mask, Some(met), list[i].name);
          k.System(del);
          k.System(add);
          cs := cs + [del] + [add];
        }
      }
    }
    assert l[..list.Length] == l;
  }
}
